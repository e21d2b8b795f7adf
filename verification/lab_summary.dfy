/**
 * LabSummary of src/main/java/org/jax/LabSummary.java: for one local lab
 * test, the number of results and their running mean, per unit.
 *
 * The ghost fields record, for each unit, the count and mean it was last
 * `put` with (zero and 0.0 when it never was) and every value `add`ed since.
 * Valid() ties the two maps to that history: both maps have the same units,
 * the count is the base count plus the values added, and the mean times
 * the count is the base total plus the sum of the values added. So a unit
 * that was only ever `add`ed has the arithmetic average of its values as
 * its mean.
 */
module LabSummaries {

  /** The sum of a sequence of values. */
  function Sum(vs: seq<real>): real {
    if vs == [] then 0.0 else Sum(vs[..|vs| - 1]) + vs[|vs| - 1]
  }

  /** The arithmetic average of a non-empty sequence of values. */
  function Average(vs: seq<real>): real
    requires vs != []
  {
    Sum(vs) / (|vs| as real)
  }

  /**
   * One unit's count and mean agree with its history: the count is the base
   * count plus the values added, the mean times the count is the base total
   * plus their sum, and with no result at all the mean is the base mean.
   */
  ghost predicate UnitValid(count: int, mean: real, base: (nat, real), added: seq<real>) {
    && count == base.0 + |added|
    && mean * (count as real) == (base.0 as real) * base.1 + Sum(added)
    && (count == 0 ==> mean == base.1)
  }

  /** The mean after one more value: (mean * n + value) / (n + 1). */
  function RunningMean(mean: real, n: nat, value: real): real {
    (mean * (n as real) + value) / ((n + 1) as real)
  }

  /** Adding a value with the update of LabSummary.add keeps a unit's history in step. */
  lemma AddKeepsUnit(count: nat, mean: real, base: (nat, real), added: seq<real>, value: real)
    requires UnitValid(count, mean, base, added)
    ensures UnitValid(count + 1, RunningMean(mean, count, value), base, added + [value])
  {
    assert (added + [value])[..|added|] == added;
    assert Sum(added + [value]) == Sum(added) + value;
    var m := (mean * (count as real) + value) / ((count + 1) as real);
    assert m * ((count + 1) as real) == mean * (count as real) + value;
  }

  /** Every unit of the four maps agrees with its history. */
  ghost predicate SummaryValid(count: map<string, int>, mean: map<string, real>,
                               base: map<string, (nat, real)>, added: map<string, seq<real>>) {
    && count.Keys == mean.Keys
    && base.Keys == count.Keys
    && added.Keys == count.Keys
    && forall u :: u in count ==> UnitValid(count[u], mean[u], base[u], added[u])
  }

  /** Updating one unit with a history it agrees with keeps the whole summary valid. */
  lemma UpdateKeepsSummary(count: map<string, int>, mean: map<string, real>,
                           base: map<string, (nat, real)>, added: map<string, seq<real>>,
                           unit: string, c: int, m: real, b: (nat, real), vs: seq<real>)
    requires SummaryValid(count, mean, base, added)
    requires UnitValid(c, m, b, vs)
    ensures SummaryValid(count[unit := c], mean[unit := m], base[unit := b], added[unit := vs])
  {
    var count', mean', base', added' := count[unit := c], mean[unit := m], base[unit := b], added[unit := vs];
    forall u | u in count' ensures UnitValid(count'[u], mean'[u], base'[u], added'[u]) {
      if u != unit {
        assert UnitValid(count[u], mean[u], base[u], added[u]);
      }
    }
  }

  /** A unit's count, getOrDefault(unit, 0). */
  function CountIn(count: map<string, int>, unit: string): int {
    if unit in count then count[unit] else 0
  }

  /** A unit's mean, getOrDefault(unit, 0.0). */
  function MeanIn(mean: map<string, real>, unit: string): real {
    if unit in mean then mean[unit] else 0.0
  }

  /** A unit's base, or (0, 0.0) for a unit not seen yet. */
  ghost function BaseIn(base: map<string, (nat, real)>, unit: string): (nat, real) {
    if unit in base then base[unit] else (0, 0.0)
  }

  /** The values added to a unit, or none for a unit not seen yet. */
  ghost function AddedIn(added: map<string, seq<real>>, unit: string): seq<real> {
    if unit in added then added[unit] else []
  }

  /** One add on valid maps gives valid maps. */
  lemma AddKeepsSummary(count: map<string, int>, mean: map<string, real>,
                        base: map<string, (nat, real)>, added: map<string, seq<real>>,
                        unit: string, value: real)
    requires SummaryValid(count, mean, base, added)
    ensures CountIn(count, unit) >= 0
    ensures SummaryValid(count[unit := CountIn(count, unit) + 1],
                         mean[unit := RunningMean(MeanIn(mean, unit), CountIn(count, unit), value)],
                         base[unit := BaseIn(base, unit)],
                         added[unit := AddedIn(added, unit) + [value]])
  {
    var n, m, b, vs := CountIn(count, unit), MeanIn(mean, unit), BaseIn(base, unit), AddedIn(added, unit);
    if unit in count {
      assert UnitValid(count[unit], mean[unit], base[unit], added[unit]);
    }
    AddKeepsUnit(n, m, b, vs, value);
    UpdateKeepsSummary(count, mean, base, added, unit, n + 1, RunningMean(m, n, value), b, vs + [value]);
  }

  class LabSummary {
    const id: int
    var meanByUnit: map<string, real>
    var countByUnit: map<string, int>
    /** Per unit, the count and mean it was last put with, or (0, 0.0). */
    ghost var base: map<string, (nat, real)>
    /** Per unit, the values added since the last put. */
    ghost var added: map<string, seq<real>>

    ghost predicate Valid()
      reads this
    {
      SummaryValid(countByUnit, meanByUnit, base, added)
    }

    /** LabSummary(id): no unit yet. */
    constructor (id: int)
      ensures Valid()
      ensures this.id == id && meanByUnit == map[] && countByUnit == map[]
      ensures base == map[] && added == map[]
    {
      this.id := id;
      meanByUnit := map[];
      countByUnit := map[];
      base := map[];
      added := map[];
    }

    /**
     * add(unit, value): a unit not seen yet starts at count 0 and mean 0.0;
     * then the mean becomes (mean * n + value) / (n + 1) and the count n + 1.
     * Other units are untouched.
     */
    method Add(unit: string, value: real)
      requires Valid()
      modifies this`meanByUnit, this`countByUnit, this`base, this`added
      ensures Valid()
      ensures countByUnit == old(countByUnit)[unit := CountIn(old(countByUnit), unit) + 1]
      ensures meanByUnit == old(meanByUnit)[unit := RunningMean(MeanIn(old(meanByUnit), unit), CountIn(old(countByUnit), unit), value)]
      ensures base == old(base)[unit := BaseIn(old(base), unit)]
      ensures added == old(added)[unit := AddedIn(old(added), unit) + [value]]
    {
      // putIfAbsent(unit, 0) and putIfAbsent(unit, 0.0), then the update
      AddKeepsSummary(countByUnit, meanByUnit, base, added, unit, value);
      var n := CountIn(countByUnit, unit);
      var mean := MeanIn(meanByUnit, unit);
      meanByUnit := meanByUnit[unit := RunningMean(mean, n, value)];
      countByUnit := countByUnit[unit := n + 1];
      base := base[unit := BaseIn(base, unit)];
      added := added[unit := AddedIn(added, unit) + [value]];
    }

    /** put(unit, count, mean): overwrites that unit's count and mean and nothing else. */
    method Put(unit: string, count: int, mean: real)
      requires Valid()
      requires count >= 0
      modifies this`meanByUnit, this`countByUnit, this`base, this`added
      ensures Valid()
      ensures countByUnit == old(countByUnit)[unit := count]
      ensures meanByUnit == old(meanByUnit)[unit := mean]
      ensures base == old(base)[unit := (count, mean)] && added == old(added)[unit := []]
    {
      UpdateKeepsSummary(countByUnit, meanByUnit, base, added, unit, count, mean, (count, mean), []);
      countByUnit := countByUnit[unit := count];
      meanByUnit := meanByUnit[unit := mean];
      base := base[unit := (count, mean)];
      added := added[unit := []];
    }

    /** getMeanByUnit: a copy of the means, over the same units as the counts. */
    function GetMeanByUnit(): (r: map<string, real>)
      reads this
      requires Valid()
      ensures r.Keys == countByUnit.Keys
    {
      meanByUnit
    }

    /** getCountByUnit: a copy of the counts, none negative. */
    function GetCountByUnit(): (r: map<string, int>)
      reads this
      requires Valid()
      ensures r.Keys == meanByUnit.Keys
      ensures forall u :: u in r ==> r[u] >= 0
    {
      countByUnit
    }

    /**
     * A unit that has only been added to, never put, has as its mean the
     * arithmetic average of the values added, and as its count their number.
     */
    lemma MeanIsAverage(u: string)
      requires Valid() && u in countByUnit && base[u].0 == 0 && added[u] != []
      ensures countByUnit[u] == |added[u]|
      ensures meanByUnit[u] == Average(added[u])
    {
      assert UnitValid(countByUnit[u], meanByUnit[u], base[u], added[u]);
    }
  }
}
