/**
 * The mutual-information and synergy formulas of src/main/python/mf.py over
 * the joint counts: I(phenotype; diagnosis) per phenotype from m1,
 * I(phenotype pair; diagnosis) per pair from m2, and the synergy
 * S[i][j] = II[i][j] - I[i] - I[j].
 *
 * Floating point is modelled over the reals, with numpy's NaN as a value of
 * its own, and log2 is a parameter: the model proves the structure of the
 * formulas (which cells are masked, which marginals divide which cells,
 * where NaN comes from, symmetry), never a numeric value of a logarithm
 * beyond what a lemma assumes about it.
 */
module MutualInformation {
  import opened JointCounts

  /** A numpy float: a real number, or NaN, which every arithmetic operation propagates. */
  datatype Value = Num(r: real) | NaN
  {
    function Add(other: Value): Value {
      if Num? && other.Num? then Num(r + other.r) else NaN
    }

    function Sub(other: Value): Value {
      if Num? && other.Num? then Num(r - other.r) else NaN
    }
  }

  /** count / N as numpy computes m1 / N and m2 / N. */
  function Ratio(count: int, n: int): real
    requires n != 0
  {
    count as real / n as real
  }

  /** p * log2(p / q) for a cell: the log of a ratio of two probabilities, weighted by the first. */
  function WeightedLog(p: real, q: real, log2: real -> real): real
    requires q != 0.0
  {
    p * log2(p / q)
  }

  /**
   * The same term with numpy's unmasked semantics: a cell with probability 0
   * gives 0 * log2(0) = 0 * -inf, which is NaN.
   */
  function UnmaskedTerm(p: real, q: real, log2: real -> real): Value
    requires p != 0.0 ==> q != 0.0
  {
    if p == 0.0 then NaN else Num(WeightedLog(p, q, log2))
  }

  /**
   * The masked term of mf.py:274-278: a cell whose probability or whose
   * marginal product is 0 is left at 0 in `temp`, so it adds nothing.
   */
  function MaskedTerm(p: real, q: real, log2: real -> real): real {
    if p != 0.0 && q != 0.0 then WeightedLog(p, q, log2) else 0.0
  }

  // ---------------------------------------------------------------------
  // One phenotype against the diagnosis (m1)
  // ---------------------------------------------------------------------

  /**
   * An m1 row as the accumulator produces it: four non-negative counts,
   * cells 0 and 2 adding up to case_N and cells 1 and 3 to control_N.
   */
  predicate ConsistentRow(row: seq<int>, caseN: int, controlN: int) {
    && |row| == 4
    && (forall c :: 0 <= c < 4 ==> row[c] >= 0)
    && row[0] + row[2] == caseN
    && row[1] + row[3] == controlN
  }

  /**
   * prob_diag_M * prob_pheno_M for cell c of an m1 row: the diagnosis
   * marginal [pd, 1 - pd, pd, 1 - pd] times the phenotype marginal
   * [pp, pp, 1 - pp, 1 - pp].
   */
  function PhenotypeCellMarginal(row: seq<int>, caseN: int, controlN: int, c: nat): real
    requires |row| == 4 && caseN + controlN != 0 && c < 4
  {
    var n := caseN + controlN;
    var pd := Ratio(caseN, n);
    var pp := Ratio(row[0], n) + Ratio(row[1], n);
    (if c % 2 == 0 then pd else 1.0 - pd) * (if c < 2 then pp else 1.0 - pp)
  }

  lemma RatioAdd(a: int, b: int, n: int)
    requires n != 0
    ensures Ratio(a, n) + Ratio(b, n) == Ratio(a + b, n)
  {
  }

  /** 1 - a / (a + b) == b / (a + b), as numpy's 1 - prob_diag is control_N / N. */
  lemma RatioComplement(a: int, b: int)
    requires a + b != 0
    ensures 1.0 - Ratio(a, a + b) == Ratio(b, a + b)
  {
    RatioAdd(a, b, a + b);
  }

  lemma RatioPositive(a: int, n: int)
    requires a > 0 && n > 0
    ensures Ratio(a, n) > 0.0
  {
  }

  /** The real product of two positive reals is positive. */
  lemma ProductPositive(a: real, b: real)
    requires a > 0.0 && b > 0.0
    ensures a * b > 0.0
  {
  }

  /**
   * In a consistent row the marginal product of cell c is (t / N) * (s / N),
   * with t the cases or controls and s the samples with or without the
   * phenotype, as the cell requires.
   */
  lemma PhenotypeCellMarginalCounts(row: seq<int>, caseN: int, controlN: int, c: nat)
    requires ConsistentRow(row, caseN, controlN) && caseN + controlN != 0 && c < 4
    ensures PhenotypeCellMarginal(row, caseN, controlN, c)
         == Ratio(if c % 2 == 0 then caseN else controlN, caseN + controlN)
          * Ratio(if c < 2 then row[0] + row[1] else row[2] + row[3], caseN + controlN)
  {
    var n := caseN + controlN;
    RatioComplement(caseN, controlN);
    RatioAdd(row[0], row[1], n);
    RatioAdd(row[2], row[3], n);
    RatioComplement(row[0] + row[1], row[2] + row[3]);
  }

  /** In a consistent row, a cell with samples in it has a positive marginal product. */
  lemma PhenotypeMarginalPositive(row: seq<int>, caseN: int, controlN: int)
    requires ConsistentRow(row, caseN, controlN) && caseN + controlN != 0
    ensures forall c :: 0 <= c < 4 && row[c] > 0 ==> PhenotypeCellMarginal(row, caseN, controlN, c) > 0.0
  {
    var n := caseN + controlN;
    forall c | 0 <= c < 4 && row[c] > 0 ensures PhenotypeCellMarginal(row, caseN, controlN, c) > 0.0 {
      var t := if c % 2 == 0 then caseN else controlN;
      var s := if c < 2 then row[0] + row[1] else row[2] + row[3];
      PhenotypeCellMarginalCounts(row, caseN, controlN, c);
      RatioPositive(t, n);
      RatioPositive(s, n);
      ProductPositive(Ratio(t, n), Ratio(s, n));
    }
  }

  /**
   * mf_diagnosis_phenotype for one m1 row, as written: no masking, so an
   * empty cell makes the whole sum NaN, and so does N == 0 (0 / 0).
   */
  function PhenotypeMIAsWritten(row: seq<int>, caseN: int, controlN: int, log2: real -> real): (r: Value)
    requires ConsistentRow(row, caseN, controlN)
    ensures r == NaN <==> caseN + controlN == 0 || row[0] == 0 || row[1] == 0 || row[2] == 0 || row[3] == 0
  {
    if caseN + controlN == 0 then NaN
    else
      UnmaskedCell(row, caseN, controlN, 0, log2)
        .Add(UnmaskedCell(row, caseN, controlN, 1, log2))
        .Add(UnmaskedCell(row, caseN, controlN, 2, log2))
        .Add(UnmaskedCell(row, caseN, controlN, 3, log2))
  }

  /** The unmasked term of cell c of an m1 row: NaN exactly when the cell is empty. */
  function UnmaskedCell(row: seq<int>, caseN: int, controlN: int, c: nat, log2: real -> real): (r: Value)
    requires ConsistentRow(row, caseN, controlN) && caseN + controlN != 0 && c < 4
    ensures r == NaN <==> row[c] == 0
  {
    PhenotypeMarginalPositive(row, caseN, controlN);
    var n := caseN + controlN;
    assert Ratio(row[c], n) == 0.0 <==> row[c] == 0;
    UnmaskedTerm(Ratio(row[c], n), PhenotypeCellMarginal(row, caseN, controlN, c), log2)
  }

  /** The sum of the four masked m1 terms. */
  function PhenotypeTerms(row: seq<int>, caseN: int, controlN: int, log2: real -> real): real
    requires |row| == 4 && caseN + controlN != 0
  {
    var n := caseN + controlN;
    MaskedTerm(Ratio(row[0], n), PhenotypeCellMarginal(row, caseN, controlN, 0), log2)
    + MaskedTerm(Ratio(row[1], n), PhenotypeCellMarginal(row, caseN, controlN, 1), log2)
    + MaskedTerm(Ratio(row[2], n), PhenotypeCellMarginal(row, caseN, controlN, 2), log2)
    + MaskedTerm(Ratio(row[3], n), PhenotypeCellMarginal(row, caseN, controlN, 3), log2)
  }

  /**
   * mf_diagnosis_phenotype for one m1 row with the masking the pair version
   * applies: empty cells add nothing, so the result is NaN exactly when there
   * are no samples at all.
   */
  function PhenotypeMI(row: seq<int>, caseN: int, controlN: int, log2: real -> real): (r: Value)
    requires |row| == 4
    ensures r == NaN <==> caseN + controlN == 0
  {
    if caseN + controlN == 0 then NaN else Num(PhenotypeTerms(row, caseN, controlN, log2))
  }

  /** Where no cell is empty the masking changes nothing: both versions agree. */
  lemma PhenotypeMIAgreesWithoutEmptyCells(row: seq<int>, caseN: int, controlN: int, log2: real -> real)
    requires ConsistentRow(row, caseN, controlN)
    requires forall c :: 0 <= c < 4 ==> row[c] > 0
    ensures PhenotypeMIAsWritten(row, caseN, controlN, log2) == PhenotypeMI(row, caseN, controlN, log2)
  {
    assert caseN + controlN > 0;
    PhenotypeMarginalPositive(row, caseN, controlN);
  }

  /**
   * A phenotype that is independent of the diagnosis (every cell count times
   * N equals the product of its two marginal counts) carries no information,
   * given log2(1) == 0.
   */
  lemma {:induction false} IndependentPhenotypeHasNoInformation(row: seq<int>, caseN: int, controlN: int, log2: real -> real)
    requires ConsistentRow(row, caseN, controlN) && caseN + controlN != 0
    requires log2(1.0) == 0.0
    requires forall c :: 0 <= c < 4 ==> IndependentPhenotypeCount(row, caseN, controlN, c)
    ensures PhenotypeMI(row, caseN, controlN, log2) == Num(0.0)
  {
    IndependentPhenotypeCell(row, caseN, controlN, 0, log2);
    IndependentPhenotypeCell(row, caseN, controlN, 1, log2);
    IndependentPhenotypeCell(row, caseN, controlN, 2, log2);
    IndependentPhenotypeCell(row, caseN, controlN, 3, log2);
  }

  /**
   * Cell c of an m1 row is what independence predicts: its count times N is
   * the count of its phenotype outcome times the count of its diagnosis.
   */
  predicate IndependentPhenotypeCount(row: seq<int>, caseN: int, controlN: int, c: nat)
    requires |row| == 4 && c < 4
  {
    row[c] * (caseN + controlN)
    == (if c < 2 then row[0] + row[1] else row[2] + row[3]) * (if c % 2 == 0 then caseN else controlN)
  }

  lemma IndependentPhenotypeCell(row: seq<int>, caseN: int, controlN: int, c: nat, log2: real -> real)
    requires ConsistentRow(row, caseN, controlN) && caseN + controlN != 0 && c < 4
    requires log2(1.0) == 0.0
    requires IndependentPhenotypeCount(row, caseN, controlN, c)
    ensures MaskedTerm(Ratio(row[c], caseN + controlN), PhenotypeCellMarginal(row, caseN, controlN, c), log2) == 0.0
  {
    PhenotypeCellMarginalCounts(row, caseN, controlN, c);
    ProductOfRatios(row[c], if c < 2 then row[0] + row[1] else row[2] + row[3],
      if c % 2 == 0 then caseN else controlN, caseN + controlN);
    MatchedTermVanishes(Ratio(row[c], caseN + controlN), PhenotypeCellMarginal(row, caseN, controlN, c), log2);
  }

  /** A cell whose probability equals its marginal product adds log2(1) == 0. */
  lemma MatchedTermVanishes(p: real, q: real, log2: real -> real)
    requires p == q && log2(1.0) == 0.0
    ensures MaskedTerm(p, q, log2) == 0.0
  {
    if p != 0.0 && q != 0.0 {
      assert p / q == 1.0;
    }
  }

  /** (t / n) * (s / n) == x / n whenever x * n == s * t. */
  lemma ProductOfRatios(x: int, s: int, t: int, n: int)
    requires n != 0 && x * n == s * t
    ensures Ratio(t, n) * Ratio(s, n) == Ratio(x, n)
  {
    var N := n as real;
    assert (x as real) * N == (s as real) * (t as real) by {
      assert ((x * n) as real) == (x as real) * N;
      assert ((s * t) as real) == (s as real) * (t as real);
    }
    calc {
      Ratio(t, n) * Ratio(s, n);
      ((t as real) * (s as real)) / (N * N);
      ((x as real) * N) / (N * N);
      (x as real) / N;
    }
  }

  /** mf_diagnosis_phenotype: I for every phenotype, one per m1 row. */
  function MIDiagnosisPhenotype(m1: seq<seq<int>>, caseN: int, controlN: int, log2: real -> real): (I: seq<Value>)
    requires forall i :: 0 <= i < |m1| ==> |m1[i]| == 4
    ensures |I| == |m1|
    ensures forall i :: 0 <= i < |m1| ==> I[i] == PhenotypeMI(m1[i], caseN, controlN, log2)
  {
    seq(|m1|, i requires 0 <= i < |m1| => PhenotypeMI(m1[i], caseN, controlN, log2))
  }

  /** Every row of m1 is consistent with the totals. */
  predicate ConsistentRows(m1: seq<seq<int>>, caseN: int, controlN: int) {
    forall i :: 0 <= i < |m1| ==> ConsistentRow(m1[i], caseN, controlN)
  }

  /**
   * mf_diagnosis_phenotype as written (mf.py:246-256): one unmasked
   * information per m1 row, NaN exactly for the rows with an empty cell, and
   * everywhere when N == 0.
   */
  function MIDiagnosisPhenotypeAsWritten(m1: seq<seq<int>>, caseN: int, controlN: int, log2: real -> real): (I: seq<Value>)
    requires ConsistentRows(m1, caseN, controlN)
    ensures |I| == |m1|
    ensures forall i :: 0 <= i < |m1| ==> I[i] == PhenotypeMIAsWritten(m1[i], caseN, controlN, log2)
    ensures forall i :: 0 <= i < |m1| ==>
              (I[i] == NaN <==> caseN + controlN == 0 || m1[i][0] == 0 || m1[i][1] == 0 || m1[i][2] == 0 || m1[i][3] == 0)
  {
    seq(|m1|, i requires 0 <= i < |m1| => PhenotypeMIAsWritten(m1[i], caseN, controlN, log2))
  }

  // ---------------------------------------------------------------------
  // A phenotype pair against the diagnosis (m2)
  // ---------------------------------------------------------------------

  /**
   * prob_pheno_M for cell c of an m2 row: the probability of the phenotype
   * pair outcome of cell c, that is of cells 2k and 2k + 1 together.
   */
  function PairPhenotypeMarginal(row: seq<int>, n: int, c: nat): real
    requires |row| == 8 && n != 0 && c < 8
  {
    var e := c - c % 2;
    Ratio(row[e + 1], n) + Ratio(row[e], n)
  }

  /**
   * prob_diag_M for cell c of an m2 row as mf.py:273 writes it:
   * np.repeat([pd, 1 - pd], 4) is [pd, pd, pd, pd, 1 - pd, ...], the case
   * marginal on cells 0-3 and the control marginal on cells 4-7.
   */
  function PairDiagnosisMarginalAsWritten(caseN: int, controlN: int, c: nat): real
    requires caseN + controlN != 0 && c < 8
  {
    var pd := Ratio(caseN, caseN + controlN);
    if c < 4 then pd else 1.0 - pd
  }

  /**
   * The diagnosis marginal of cell c of an m2 row: the diagnosis is positive
   * in the even cells (+++, +-+, -++, --+), so they take pd and the odd
   * cells 1 - pd.
   */
  function PairDiagnosisMarginal(caseN: int, controlN: int, c: nat): real
    requires caseN + controlN != 0 && c < 8
  {
    var pd := Ratio(caseN, caseN + controlN);
    if c % 2 == 0 then pd else 1.0 - pd
  }

  /** prob_pheno_M * prob_diag_M for cell c of an m2 row, with the as-written or the intended diagnosis marginal. */
  function PairCellMarginal(row: seq<int>, caseN: int, controlN: int, c: nat, asWritten: bool): real
    requires |row| == 8 && caseN + controlN != 0 && c < 8
  {
    var diag := if asWritten then PairDiagnosisMarginalAsWritten(caseN, controlN, c) else PairDiagnosisMarginal(caseN, controlN, c);
    PairPhenotypeMarginal(row, caseN + controlN, c) * diag
  }

  /** The masked term of cell c of an m2 row. */
  function PairCellTerm(row: seq<int>, caseN: int, controlN: int, c: nat, log2: real -> real, asWritten: bool): real
    requires |row| == 8 && caseN + controlN != 0 && c < 8
  {
    MaskedTerm(Ratio(row[c], caseN + controlN), PairCellMarginal(row, caseN, controlN, c, asWritten), log2)
  }

  function PairTerms(row: seq<int>, caseN: int, controlN: int, log2: real -> real, asWritten: bool): real
    requires |row| == 8 && caseN + controlN != 0
  {
    PairCellTerm(row, caseN, controlN, 0, log2, asWritten) + PairCellTerm(row, caseN, controlN, 1, log2, asWritten)
    + PairCellTerm(row, caseN, controlN, 2, log2, asWritten) + PairCellTerm(row, caseN, controlN, 3, log2, asWritten)
    + PairCellTerm(row, caseN, controlN, 4, log2, asWritten) + PairCellTerm(row, caseN, controlN, 5, log2, asWritten)
    + PairCellTerm(row, caseN, controlN, 6, log2, asWritten) + PairCellTerm(row, caseN, controlN, 7, log2, asWritten)
  }

  /**
   * mf_diagnosis_phenotype_pair for one m2 row, as written (diagnosis
   * marginal repeated rather than tiled). The masking keeps every empty cell
   * out, so the result is NaN exactly when N == 0.
   */
  function PairMIAsWritten(row: seq<int>, caseN: int, controlN: int, log2: real -> real): (r: Value)
    requires |row| == 8
    ensures r == NaN <==> caseN + controlN == 0
  {
    if caseN + controlN == 0 then NaN else Num(PairTerms(row, caseN, controlN, log2, true))
  }

  /**
   * mf_diagnosis_phenotype_pair for one m2 row with the diagnosis marginal
   * matching the cell order. NaN exactly when N == 0.
   */
  function PairMI(row: seq<int>, caseN: int, controlN: int, log2: real -> real): (r: Value)
    requires |row| == 8
    ensures r == NaN <==> caseN + controlN == 0
  {
    if caseN + controlN == 0 then NaN else Num(PairTerms(row, caseN, controlN, log2, false))
  }

  /** The m2 row of the pair (j, i), given the row of (i, j). */
  function SwapRow(row: seq<int>): (r: seq<int>)
    requires |row| == 8
    ensures |r| == 8 && forall c :: 0 <= c < 8 ==> r[SwapPairCell(c)] == row[c]
  {
    [row[0], row[1], row[4], row[5], row[2], row[3], row[6], row[7]]
  }

  /**
   * The pair information does not depend on the order of the two
   * phenotypes: the row of (j, i) gives the same value as the row of (i, j).
   */
  lemma PairMISymmetric(row: seq<int>, caseN: int, controlN: int, log2: real -> real)
    requires |row| == 8
    ensures PairMI(SwapRow(row), caseN, controlN, log2) == PairMI(row, caseN, controlN, log2)
  {
    if caseN + controlN != 0 {
      var w := SwapRow(row);
      SameCellTerm(row, w, caseN, controlN, 0, 0, log2);
      SameCellTerm(row, w, caseN, controlN, 1, 1, log2);
      SameCellTerm(row, w, caseN, controlN, 2, 4, log2);
      SameCellTerm(row, w, caseN, controlN, 3, 5, log2);
      SameCellTerm(row, w, caseN, controlN, 4, 2, log2);
      SameCellTerm(row, w, caseN, controlN, 5, 3, log2);
      SameCellTerm(row, w, caseN, controlN, 6, 6, log2);
      SameCellTerm(row, w, caseN, controlN, 7, 7, log2);
      assert PairTerms(w, caseN, controlN, log2, false) == PairTerms(row, caseN, controlN, log2, false);
    }
  }

  /**
   * The term of a cell depends only on its own count, the counts of its
   * phenotype-pair outcome and its diagnosis: cell s of w and cell c of row
   * add the same term when those agree.
   */
  lemma SameCellTerm(row: seq<int>, w: seq<int>, caseN: int, controlN: int, c: nat, s: nat, log2: real -> real)
    requires |row| == 8 && |w| == 8 && caseN + controlN != 0 && c < 8 && s < 8
    requires s % 2 == c % 2 && w[s] == row[c]
    requires w[s - s % 2] == row[c - c % 2] && w[s - s % 2 + 1] == row[c - c % 2 + 1]
    ensures PairCellTerm(w, caseN, controlN, s, log2, false) == PairCellTerm(row, caseN, controlN, c, log2, false)
  {
    var n := caseN + controlN;
    assert PairPhenotypeMarginal(w, n, s) == PairPhenotypeMarginal(row, n, c);
    assert PairDiagnosisMarginal(caseN, controlN, s) == PairDiagnosisMarginal(caseN, controlN, c);
    assert PairCellMarginal(w, caseN, controlN, s, false) == PairCellMarginal(row, caseN, controlN, c, false);
    assert Ratio(w[s], n) == Ratio(row[c], n);
  }

  /**
   * A pair that is independent of the diagnosis (every cell count times N
   * equals the pair-outcome count times the diagnosis count) carries no
   * information, given log2(1) == 0.
   */
  lemma {:induction false} IndependentPairHasNoInformation(row: seq<int>, caseN: int, controlN: int, log2: real -> real)
    requires |row| == 8 && caseN + controlN != 0
    requires log2(1.0) == 0.0
    requires forall c :: 0 <= c < 8 ==> IndependentPairCount(row, caseN, controlN, c)
    ensures PairMI(row, caseN, controlN, log2) == Num(0.0)
  {
    forall c | 0 <= c < 8 ensures PairCellTerm(row, caseN, controlN, c, log2, false) == 0.0 {
      IndependentPairCell(row, caseN, controlN, c, log2);
    }
    assert PairTerms(row, caseN, controlN, log2, false) == 0.0;
  }

  /**
   * Cell c of an m2 row is what independence predicts: its count times N is
   * the count of its phenotype-pair outcome times the count of its diagnosis.
   */
  predicate IndependentPairCount(row: seq<int>, caseN: int, controlN: int, c: nat)
    requires |row| == 8 && c < 8
  {
    row[c] * (caseN + controlN) == (row[c - c % 2] + row[c - c % 2 + 1]) * (if c % 2 == 0 then caseN else controlN)
  }

  lemma IndependentPairCell(row: seq<int>, caseN: int, controlN: int, c: nat, log2: real -> real)
    requires |row| == 8 && caseN + controlN != 0 && c < 8
    requires log2(1.0) == 0.0
    requires IndependentPairCount(row, caseN, controlN, c)
    ensures PairCellTerm(row, caseN, controlN, c, log2, false) == 0.0
  {
    var n := caseN + controlN;
    var s := row[c - c % 2] + row[c - c % 2 + 1];
    var t := if c % 2 == 0 then caseN else controlN;
    RatioAdd(row[c - c % 2 + 1], row[c - c % 2], n);
    assert PairPhenotypeMarginal(row, n, c) == Ratio(s, n);
    RatioComplement(caseN, controlN);
    assert PairDiagnosisMarginal(caseN, controlN, c) == Ratio(t, n);
    ProductOfRatios(row[c], s, t, n);
    assert PairCellMarginal(row, caseN, controlN, c, false) == Ratio(s, n) * Ratio(t, n);
    MatchedTermVanishes(Ratio(row[c], n), PairCellMarginal(row, caseN, controlN, c, false), log2);
  }

  /** mf_diagnosis_phenotype_pair: II for every phenotype pair, one per m2 row. */
  function MIDiagnosisPhenotypePair(m2: seq<seq<seq<int>>>, caseN: int, controlN: int, log2: real -> real): (II: seq<seq<Value>>)
    requires forall i, j :: 0 <= i < |m2| && 0 <= j < |m2[i]| ==> |m2[i][j]| == 8
    ensures |II| == |m2|
    ensures forall i :: 0 <= i < |m2| ==> |II[i]| == |m2[i]|
    ensures forall i, j :: 0 <= i < |m2| && 0 <= j < |m2[i]| ==> II[i][j] == PairMI(m2[i][j], caseN, controlN, log2)
  {
    seq(|m2|, i requires 0 <= i < |m2| =>
      seq(|m2[i]|, j requires 0 <= j < |m2[i]| => PairMI(m2[i][j], caseN, controlN, log2)))
  }

  /**
   * mf_diagnosis_phenotype_pair as written (mf.py:268-279): the as-written
   * pair information of every m2 row, NaN exactly when N == 0.
   */
  function MIDiagnosisPhenotypePairAsWritten(m2: seq<seq<seq<int>>>, caseN: int, controlN: int, log2: real -> real): (II: seq<seq<Value>>)
    requires forall i, j :: 0 <= i < |m2| && 0 <= j < |m2[i]| ==> |m2[i][j]| == 8
    ensures |II| == |m2|
    ensures forall i :: 0 <= i < |m2| ==> |II[i]| == |m2[i]|
    ensures forall i, j :: 0 <= i < |m2| && 0 <= j < |m2[i]| ==> II[i][j] == PairMIAsWritten(m2[i][j], caseN, controlN, log2)
    ensures forall i, j :: 0 <= i < |m2| && 0 <= j < |m2[i]| ==> (II[i][j] == NaN <==> caseN + controlN == 0)
  {
    seq(|m2|, i requires 0 <= i < |m2| =>
      seq(|m2[i]|, j requires 0 <= j < |m2[i]| => PairMIAsWritten(m2[i][j], caseN, controlN, log2)))
  }

  // ---------------------------------------------------------------------
  // Synergy
  // ---------------------------------------------------------------------

  predicate IsSquare<T>(II: seq<seq<T>>, m: nat) {
    |II| == m && forall i :: 0 <= i < m ==> |II[i]| == m
  }

  predicate Symmetric<T(==)>(II: seq<seq<T>>)
    requires IsSquare(II, |II|)
  {
    forall i, j :: 0 <= i < |II| && 0 <= j < |II| ==> II[i][j] == II[j][i]
  }

  /** synergy: S = II - I.reshape([M, 1]) - I.reshape([1, M]). */
  function SynergyMatrix(I: seq<Value>, II: seq<seq<Value>>): (S: seq<seq<Value>>)
    requires IsSquare(II, |I|)
    ensures IsSquare(S, |I|)
  {
    seq(|I|, i requires 0 <= i < |I| => seq(|I|, j requires 0 <= j < |I| => II[i][j].Sub(I[i]).Sub(I[j])))
  }

  /**
   * A synergy cell is a number exactly when the pair information and both
   * single informations are, and then it is II[i][j] - I[i] - I[j].
   */
  lemma SynergyCell(I: seq<Value>, II: seq<seq<Value>>, i: nat, j: nat)
    requires IsSquare(II, |I|) && i < |I| && j < |I|
    ensures SynergyMatrix(I, II)[i][j].Num? <==> II[i][j].Num? && I[i].Num? && I[j].Num?
    ensures SynergyMatrix(I, II)[i][j].Num? ==> SynergyMatrix(I, II)[i][j].r == II[i][j].r - I[i].r - I[j].r
  {
  }

  /**
   * As written, a synergy is NaN exactly when there are no samples or one of
   * the two phenotypes has an empty cell in its m1 row.
   */
  lemma AsWrittenSynergyNaN(m1: seq<seq<int>>, m2: seq<seq<seq<int>>>, caseN: int, controlN: int, log2: real -> real)
    requires ConsistentRows(m1, caseN, controlN)
    requires |m2| == |m1| && forall i :: 0 <= i < |m2| ==> |m2[i]| == |m1|
    requires forall i, j :: 0 <= i < |m2| && 0 <= j < |m2[i]| ==> |m2[i][j]| == 8
    ensures var S := SynergyMatrix(MIDiagnosisPhenotypeAsWritten(m1, caseN, controlN, log2),
                                   MIDiagnosisPhenotypePairAsWritten(m2, caseN, controlN, log2));
            forall i, j :: 0 <= i < |m1| && 0 <= j < |m1| ==>
              (S[i][j] == NaN <==> caseN + controlN == 0 || 0 in m1[i] || 0 in m1[j])
  {
    var I := MIDiagnosisPhenotypeAsWritten(m1, caseN, controlN, log2);
    var II := MIDiagnosisPhenotypePairAsWritten(m2, caseN, controlN, log2);
    forall i, j | 0 <= i < |m1| && 0 <= j < |m1|
      ensures SynergyMatrix(I, II)[i][j] == NaN <==> caseN + controlN == 0 || 0 in m1[i] || 0 in m1[j]
    {
      EmptyCellNaN(I, m1, caseN, controlN, i);
      EmptyCellNaN(I, m1, caseN, controlN, j);
      SynergyCellNaN(I, II, i, j);
    }
  }

  /** A single information of the as-written vector is NaN when there are no samples or its row has an empty cell. */
  lemma EmptyCellNaN(I: seq<Value>, m1: seq<seq<int>>, caseN: int, controlN: int, i: nat)
    requires i < |m1| == |I| && |m1[i]| == 4
    requires I[i] == NaN <==> caseN + controlN == 0 || m1[i][0] == 0 || m1[i][1] == 0 || m1[i][2] == 0 || m1[i][3] == 0
    ensures I[i] == NaN <==> caseN + controlN == 0 || 0 in m1[i]
  {
    assert 0 in m1[i] <==> m1[i][0] == 0 || m1[i][1] == 0 || m1[i][2] == 0 || m1[i][3] == 0;
  }

  /** A synergy cell is NaN exactly when the pair information or one of the two single informations is. */
  lemma SynergyCellNaN(I: seq<Value>, II: seq<seq<Value>>, i: nat, j: nat)
    requires IsSquare(II, |I|) && i < |I| && j < |I|
    ensures SynergyMatrix(I, II)[i][j] == NaN <==> II[i][j] == NaN || I[i] == NaN || I[j] == NaN
  {
    SynergyCell(I, II, i, j);
  }

  /** With no samples (N == 0) every single information is NaN, and so is every synergy. */
  lemma NoSamplesNoSynergy(m1: seq<seq<int>>, II: seq<seq<Value>>, caseN: int, controlN: int, log2: real -> real)
    requires forall i :: 0 <= i < |m1| ==> |m1[i]| == 4
    requires IsSquare(II, |m1|) && caseN + controlN == 0
    ensures var S := SynergyMatrix(MIDiagnosisPhenotype(m1, caseN, controlN, log2), II);
            forall i, j :: 0 <= i < |m1| && 0 <= j < |m1| ==> S[i][j] == NaN
  {
    var I := MIDiagnosisPhenotype(m1, caseN, controlN, log2);
    forall i, j | 0 <= i < |m1| && 0 <= j < |m1| ensures SynergyMatrix(I, II)[i][j] == NaN {
      assert I[i] == NaN;
      SynergyCell(I, II, i, j);
    }
  }

  /**
   * S is symmetric whenever II is; and when no single information is NaN,
   * a symmetric S also means a symmetric II.
   */
  lemma SynergySymmetric(I: seq<Value>, II: seq<seq<Value>>)
    requires IsSquare(II, |I|)
    ensures Symmetric(II) ==> Symmetric(SynergyMatrix(I, II))
    ensures (forall i :: 0 <= i < |I| ==> I[i].Num?) && Symmetric(SynergyMatrix(I, II)) ==> Symmetric(II)
  {
    var S := SynergyMatrix(I, II);
    if (forall i :: 0 <= i < |I| ==> I[i].Num?) && Symmetric(S) {
      forall i, j | 0 <= i < |I| && 0 <= j < |I| ensures II[i][j] == II[j][i] {
        assert S[i][j] == S[j][i];
        if II[i][j].Num? {
          assert II[j][i].Num?;
        } else {
          assert S[i][j] == NaN;
        }
      }
    }
  }

  // ---------------------------------------------------------------------
  // Two departures of the source from the formulas it implements
  // ---------------------------------------------------------------------

  /**
   * Three samples that all have the phenotype, one case and two controls.
   * The phenotype pair (i, i) is constant, so it carries no information about
   * the diagnosis, and the intended formula gives 0; the as-written diagnosis
   * marginal divides the "++-" cell by the case rate instead of the control
   * rate and gives 2/3 bit.
   */
  lemma PairDiagnosisMarginalFinding(log2: real -> real)
    requires log2(1.0) == 0.0 && log2(2.0) == 1.0
    ensures var counts := BatchCounts([[1], [1], [1]], [1, 0, 0], 1);
            && counts.m2[0][0] == [1, 2, 0, 0, 0, 0, 0, 0]
            && counts.caseN == 1 && counts.controlN == 2
            && PairMIAsWritten(counts.m2[0][0], 1, 2, log2) == Num(2.0 / 3.0)
            && PairMI(counts.m2[0][0], 1, 2, log2) == Num(0.0)
  {
    var row := [1, 2, 0, 0, 0, 0, 0, 0];
    ConstantPairBatch();
    var third := Ratio(1, 3);
    assert third == 1.0 / 3.0;
    assert Ratio(2, 3) == 2.0 / 3.0;
    RatioComplement(1, 2);
    assert PairPhenotypeMarginal(row, 3, 0) == 1.0 && PairPhenotypeMarginal(row, 3, 1) == 1.0;
    assert PairCellMarginal(row, 1, 2, 0, true) == third;
    assert PairCellMarginal(row, 1, 2, 1, true) == third;
    assert PairCellMarginal(row, 1, 2, 1, false) == 2.0 / 3.0;
    assert PairCellTerm(row, 1, 2, 0, log2, true) == 0.0 by {
      MatchedTermVanishes(third, third, log2);
    }
    assert PairCellTerm(row, 1, 2, 1, log2, true) == 2.0 / 3.0 by {
      assert (2.0 / 3.0) / third == 2.0;
    }
    MatchedTermVanishes(third, PairCellMarginal(row, 1, 2, 0, false), log2);
    MatchedTermVanishes(2.0 / 3.0, PairCellMarginal(row, 1, 2, 1, false), log2);
  }

  /**
   * Two samples that both have the phenotype, one case and one control.
   * Cells -+ and -- are empty, so the unmasked sum is NaN, while the
   * phenotype, constant over the samples, carries 0 bits.
   */
  lemma PhenotypeMaskingFinding(log2: real -> real)
    requires log2(1.0) == 0.0
    ensures var counts := BatchCounts([[1], [1]], [1, 0], 1);
            && counts.m1[0] == [1, 1, 0, 0]
            && counts.caseN == 1 && counts.controlN == 1
            && PhenotypeMIAsWritten(counts.m1[0], 1, 1, log2) == NaN
            && PhenotypeMI(counts.m1[0], 1, 1, log2) == Num(0.0)
  {
    ConstantPhenotypeBatch();
    ConstantRowAsWritten(log2);
    ConstantRowMasked(log2);
  }

  /** The m1 row [1, 1, 0, 0] has empty cells, so the unmasked sum is NaN. */
  lemma ConstantRowAsWritten(log2: real -> real)
    ensures ConsistentRow([1, 1, 0, 0], 1, 1)
    ensures PhenotypeMIAsWritten([1, 1, 0, 0], 1, 1, log2) == NaN
  {
    assert ConsistentRow([1, 1, 0, 0], 1, 1);
  }

  /** The masked sum of the m1 row [1, 1, 0, 0] is 0: both non-empty cells match their marginals. */
  lemma ConstantRowMasked(log2: real -> real)
    requires log2(1.0) == 0.0
    ensures PhenotypeMI([1, 1, 0, 0], 1, 1, log2) == Num(0.0)
  {
    var row := [1, 1, 0, 0];
    assert ConsistentRow(row, 1, 1);
    PhenotypeCellMarginalCounts(row, 1, 1, 0);
    PhenotypeCellMarginalCounts(row, 1, 1, 1);
    assert Ratio(1, 2) == 1.0 / 2.0 && Ratio(2, 2) == 1.0;
    MatchedTermVanishes(Ratio(1, 2), PhenotypeCellMarginal(row, 1, 1, 0), log2);
    MatchedTermVanishes(Ratio(1, 2), PhenotypeCellMarginal(row, 1, 1, 1), log2);
  }

  /**
   * The as-written pair information depends on the order of the two
   * phenotypes. The m2 row below (2 cases, 4 controls) and its transposed
   * row differ only in which "+-" or "-+" cell holds the one control with
   * the second phenotype alone: the tiled-by-repeat diagnosis marginal gives
   * that cell 2/3 in one order and 1/3 in the other, and the two values
   * differ by 1/6 bit. The intended formula gives the same value for both.
   */
  lemma PairOrderFinding(log2: real -> real)
    requires log2(1.0) == 0.0 && log2(3.0) == log2(1.5) + 1.0
    ensures var row := [1, 1, 0, 0, 0, 1, 1, 2];
            var a := PairMIAsWritten(row, 2, 4, log2);
            var b := PairMIAsWritten(SwapRow(row), 2, 4, log2);
            && a.Num? && b.Num? && a.r - b.r == -1.0 / 6.0
            && PairMI(SwapRow(row), 2, 4, log2) == PairMI(row, 2, 4, log2)
  {
    var row := [1, 1, 0, 0, 0, 1, 1, 2];
    var w := SwapRow(row);
    // The cells the two orders share: ++ with either diagnosis, -- with either.
    SameAsWrittenCellTerm(row, w, 2, 4, 0, log2);
    SameAsWrittenCellTerm(row, w, 2, 4, 1, log2);
    SameAsWrittenCellTerm(row, w, 2, 4, 6, log2);
    SameAsWrittenCellTerm(row, w, 2, 4, 7, log2);
    PairOrderRowCells(log2);
    PairOrderSwappedCells(log2);
    PairMISymmetric(row, 2, 4, log2);
  }

  /**
   * The as-written terms of the row of (i, j) in the cells where the two
   * orders differ: cells 2-4 are empty, and the "-+-" cell has marginal
   * (1/6) * (2/3), so p / q == 3/2.
   */
  lemma PairOrderRowCells(log2: real -> real)
    ensures var row := [1, 1, 0, 0, 0, 1, 1, 2];
            && PairCellTerm(row, 2, 4, 2, log2, true) == 0.0 && PairCellTerm(row, 2, 4, 3, log2, true) == 0.0
            && PairCellTerm(row, 2, 4, 4, log2, true) == 0.0
            && PairCellTerm(row, 2, 4, 5, log2, true) == (1.0 / 6.0) * log2(1.5)
  {
    var row := [1, 1, 0, 0, 0, 1, 1, 2];
    var sixth := Ratio(1, 6);
    assert sixth == 1.0 / 6.0;
    assert PairCellMarginal(row, 2, 4, 5, true) == sixth * (2.0 / 3.0);
    assert sixth / (sixth * (2.0 / 3.0)) == 1.5;
  }

  /**
   * The as-written terms of the row of (j, i) in the cells where the two
   * orders differ: cells 2, 4 and 5 are empty, and the "+--" cell has
   * marginal (1/6) * (1/3), so p / q == 3.
   */
  lemma PairOrderSwappedCells(log2: real -> real)
    ensures var w := SwapRow([1, 1, 0, 0, 0, 1, 1, 2]);
            && PairCellTerm(w, 2, 4, 2, log2, true) == 0.0 && PairCellTerm(w, 2, 4, 4, log2, true) == 0.0
            && PairCellTerm(w, 2, 4, 5, log2, true) == 0.0
            && PairCellTerm(w, 2, 4, 3, log2, true) == (1.0 / 6.0) * log2(3.0)
  {
    var w := SwapRow([1, 1, 0, 0, 0, 1, 1, 2]);
    assert w == [1, 1, 0, 1, 0, 0, 1, 2];
    var sixth, third := Ratio(1, 6), Ratio(2, 6);
    assert sixth == 1.0 / 6.0 && third == 1.0 / 3.0;
    assert PairCellMarginal(w, 2, 4, 3, true) == sixth * third;
    assert sixth / (sixth * third) == 3.0;
  }

  /**
   * Cells 0, 1, 6 and 7 keep their place under the transposition, and their
   * phenotype-pair outcome keeps its count, so they add the same as-written
   * term in both orders.
   */
  lemma SameAsWrittenCellTerm(row: seq<int>, w: seq<int>, caseN: int, controlN: int, c: nat, log2: real -> real)
    requires |row| == 8 && w == SwapRow(row) && caseN + controlN != 0 && (c == 0 || c == 1 || c == 6 || c == 7)
    ensures PairCellTerm(w, caseN, controlN, c, log2, true) == PairCellTerm(row, caseN, controlN, c, log2, true)
  {
    var n := caseN + controlN;
    var e := c - c % 2;
    assert SwapPairCell(c) == c && SwapPairCell(e) == e && SwapPairCell(e + 1) == e + 1;
    assert w[c] == row[c] && w[e] == row[e] && w[e + 1] == row[e + 1];
    assert PairPhenotypeMarginal(w, n, c) == PairPhenotypeMarginal(row, n, c);
    assert PairCellMarginal(w, caseN, controlN, c, true) == PairCellMarginal(row, caseN, controlN, c, true);
    assert Ratio(w[c], n) == Ratio(row[c], n);
  }
}
