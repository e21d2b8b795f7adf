/**
 * The rank-based p-values of src/main/python/mf_random.py: every observed
 * synergy score is compared with an empirical distribution of P simulated
 * scores for the same phenotype pair, through the rank numpy's searchsorted
 * gives it among the sorted simulated scores.
 *
 * searchsorted on a sorted sequence with side 'left' is the number of
 * elements strictly below the query, with side 'right' the number of
 * elements at most the query; CountBefore is that number, and the binary
 * search SearchSorted is proved to compute it.
 */
module PValues {
  import opened Wrappers
  import opened JointCounts
  import opened MutualInformation

  datatype Side = Left | Right

  /** An element y precedes the insertion point of x: y < x for 'left', y <= x for 'right'. */
  predicate Before(y: real, x: real, side: Side) {
    if side == Left then y < x else y <= x
  }

  /** The number of elements of s that precede the insertion point of x. */
  function CountBefore(s: seq<real>, x: real, side: Side): (r: nat)
    ensures r <= |s|
  {
    if s == [] then 0 else (if Before(s[0], x, side) then 1 else 0) + CountBefore(s[1..], x, side)
  }

  /** The number of elements of s equal to x. */
  function CountEqual(s: seq<real>, x: real): (r: nat)
    ensures r <= |s|
  {
    if s == [] then 0 else (if s[0] == x then 1 else 0) + CountEqual(s[1..], x)
  }

  predicate Sorted(s: seq<real>) {
    forall i, j :: 0 <= i <= j < |s| ==> s[i] <= s[j]
  }

  // ---------------------------------------------------------------------
  // Counting
  // ---------------------------------------------------------------------

  /** Where every element before k precedes x and none after does, the count is k. */
  lemma {:induction false} CountBeforeSplit(s: seq<real>, x: real, side: Side, k: nat)
    requires k <= |s|
    requires forall i :: 0 <= i < k ==> Before(s[i], x, side)
    requires forall i :: k <= i < |s| ==> !Before(s[i], x, side)
    ensures CountBefore(s, x, side) == k
  {
    if s != [] {
      if k == 0 {
        CountBeforeSplit(s[1..], x, side, 0);
      } else {
        CountBeforeSplit(s[1..], x, side, k - 1);
      }
    }
  }

  /** Elements at most x are those below x and those equal to it. */
  lemma {:induction false} CountAtMostSplits(s: seq<real>, x: real)
    ensures CountBefore(s, x, Right) == CountBefore(s, x, Left) + CountEqual(s, x)
  {
    if s != [] {
      CountAtMostSplits(s[1..], x);
    }
  }

  /** The count grows with the query. */
  lemma {:induction false} CountBeforeMonotone(s: seq<real>, x: real, y: real, side: Side)
    requires x <= y
    ensures CountBefore(s, x, side) <= CountBefore(s, y, side)
  {
    if s != [] {
      CountBeforeMonotone(s[1..], x, y, side);
    }
  }

  /** Below a strictly smaller query there are no more elements at most it than below the larger one. */
  lemma {:induction false} CountAtMostBelowLarger(s: seq<real>, x: real, y: real)
    requires x < y
    ensures CountBefore(s, x, Right) <= CountBefore(s, y, Left)
  {
    if s != [] {
      CountAtMostBelowLarger(s[1..], x, y);
    }
  }

  lemma {:induction false} CountBeforeAppend(s: seq<real>, t: seq<real>, x: real, side: Side)
    ensures CountBefore(s + t, x, side) == CountBefore(s, x, side) + CountBefore(t, x, side)
  {
    if s == [] {
      assert s + t == t;
    } else {
      assert (s + t)[0] == s[0];
      assert (s + t)[1..] == s[1..] + t;
      CountBeforeAppend(s[1..], t, x, side);
    }
  }

  // ---------------------------------------------------------------------
  // np.searchsorted and np.sort
  // ---------------------------------------------------------------------

  /**
   * np.searchsorted(s, x, side) on a sorted s: a binary search for the
   * insertion point, which is the number of elements preceding it.
   */
  method SearchSorted(s: seq<real>, x: real, side: Side) returns (k: nat)
    requires Sorted(s)
    ensures k == CountBefore(s, x, side)
    ensures forall i :: 0 <= i < k ==> Before(s[i], x, side)
    ensures forall i :: k <= i < |s| ==> !Before(s[i], x, side)
  {
    var lo, hi := 0, |s|;
    while lo < hi
      invariant 0 <= lo <= hi <= |s|
      invariant forall i :: 0 <= i < lo ==> Before(s[i], x, side)
      invariant forall i :: hi <= i < |s| ==> !Before(s[i], x, side)
      decreases hi - lo
    {
      var mid := (lo + hi) / 2;
      if Before(s[mid], x, side) {
        lo := mid + 1;
      } else {
        hi := mid;
      }
    }
    k := lo;
    CountBeforeSplit(s, x, side, k);
  }

  /** Inserts x before the first element of s that is not below it. */
  function Insert(x: real, s: seq<real>): (r: seq<real>)
    ensures |r| == |s| + 1
    ensures multiset(r) == multiset(s) + multiset{x}
    ensures r[0] == (if s == [] || x <= s[0] then x else s[0])
  {
    if s == [] then [x]
    else if x <= s[0] then [x] + s
    else
      assert s == [s[0]] + s[1..];
      [s[0]] + Insert(x, s[1..])
  }

  /** A sorted sequence stays sorted with a value no larger than its head in front. */
  lemma ConsSorted(a: real, t: seq<real>)
    requires Sorted(t) && (t == [] || a <= t[0])
    ensures Sorted([a] + t)
  {
    var r := [a] + t;
    forall i, j | 0 <= i <= j < |r| ensures r[i] <= r[j] {
      if i > 0 {
        assert r[i] == t[i - 1] && r[j] == t[j - 1];
      } else if j > 0 {
        assert r[j] == t[j - 1] && t[0] <= t[j - 1];
      }
    }
  }

  lemma {:induction false} InsertSorted(x: real, s: seq<real>)
    requires Sorted(s)
    ensures Sorted(Insert(x, s))
  {
    if s == [] {
    } else if x <= s[0] {
      ConsSorted(x, s);
    } else {
      var tail := s[1..];
      assert Sorted(tail) by {
        forall i, j | 0 <= i <= j < |tail| ensures tail[i] <= tail[j] {
          assert tail[i] == s[i + 1] && tail[j] == s[j + 1];
        }
      }
      InsertSorted(x, tail);
      var t := Insert(x, tail);
      assert tail != [] ==> s[0] <= tail[0] by {
        if tail != [] { assert tail[0] == s[1]; }
      }
      ConsSorted(s[0], t);
      assert Insert(x, s) == [s[0]] + t;
    }
  }

  /** np.sort along one axis: the same elements in non-decreasing order. */
  function SortReals(s: seq<real>): (r: seq<real>)
    ensures Sorted(r) && |r| == |s|
    ensures multiset(r) == multiset(s)
  {
    if s == [] then []
    else
      assert s == [s[0]] + s[1..];
      var t := SortReals(s[1..]);
      InsertSorted(s[0], t);
      Insert(s[0], t)
  }

  lemma {:induction false} InsertCount(x: real, s: seq<real>, y: real, side: Side)
    ensures CountBefore(Insert(x, s), y, side) == CountBefore(s, y, side) + (if Before(x, y, side) then 1 else 0)
  {
    if s != [] && x > s[0] {
      assert (Insert(x, s))[1..] == Insert(x, s[1..]);
      InsertCount(x, s[1..], y, side);
    }
  }

  /** Sorting does not change how many elements precede a query, so searchsorted on the sorted copy counts the original. */
  lemma {:induction false} SortKeepsCount(s: seq<real>, x: real, side: Side)
    ensures CountBefore(SortReals(s), x, side) == CountBefore(s, x, side)
  {
    if s != [] {
      SortKeepsCount(s[1..], x, side);
      InsertCount(s[0], SortReals(s[1..]), x, side);
    }
  }

  /** Sorting an already sorted sequence gives it back. */
  lemma {:induction false} SortSorted(s: seq<real>)
    requires Sorted(s)
    ensures SortReals(s) == s
  {
    if s != [] {
      SortSorted(s[1..]);
    }
  }

  // ---------------------------------------------------------------------
  // Shapes
  // ---------------------------------------------------------------------

  /** A rows x cols numpy array. */
  datatype Grid<T> = Grid(rows: nat, cols: nat, cells: seq<seq<T>>)
  {
    predicate Valid() {
      |cells| == rows && forall i :: 0 <= i < rows ==> |cells[i]| == cols
    }
  }

  /** A rows x cols x depth numpy array. */
  datatype Cube = Cube(rows: nat, cols: nat, depth: nat, cells: seq<seq<seq<real>>>)
  {
    predicate Valid() {
      && |cells| == rows
      && (forall i :: 0 <= i < rows ==> |cells[i]| == cols)
      && (forall i, j :: 0 <= i < rows && 0 <= j < cols ==> |cells[i][j]| == depth)
    }
  }

  /** The assertions of mf_random.py fail: the two arrays do not have the same first two dimensions. */
  datatype PValueError = ShapeMismatch | InvalidAlternative

  /** The searchsorted result for every cell: the rank of query[i][j] in ordered[i][j]. */
  function SearchsortedGrid(ordered: Cube, query: Grid<real>, side: Side): (r: Grid<nat>)
    requires ordered.Valid() && query.Valid()
    requires ordered.rows == query.rows && ordered.cols == query.cols
    ensures r.Valid() && r.rows == query.rows && r.cols == query.cols
    ensures forall i, j :: 0 <= i < r.rows && 0 <= j < r.cols ==> r.cells[i][j] <= ordered.depth
  {
    Grid(query.rows, query.cols,
      seq(query.rows, i requires 0 <= i < query.rows =>
        seq(query.cols, j requires 0 <= j < query.cols => CountBefore(ordered.cells[i][j], query.cells[i][j], side))))
  }

  /**
   * matrix_searchsorted: checks that query and ordered agree on the first
   * two dimensions, then fills idx cell by cell with searchsorted.
   */
  method MatrixSearchsorted(ordered: Cube, query: Grid<real>, side: Side) returns (r: Result<array2<nat>, PValueError>)
    requires ordered.Valid() && query.Valid()
    requires forall i, j :: 0 <= i < ordered.rows && 0 <= j < ordered.cols ==> Sorted(ordered.cells[i][j])
    ensures r.Err? <==> query.rows != ordered.rows || query.cols != ordered.cols
    ensures r.Err? ==> r.error == ShapeMismatch
    ensures r.Ok? ==> fresh(r.value) && r.value.Length0 == query.rows && r.value.Length1 == query.cols
    ensures r.Ok? ==> forall i, j :: 0 <= i < query.rows && 0 <= j < query.cols ==>
      r.value[i, j] == SearchsortedGrid(ordered, query, side).cells[i][j]
  {
    var m, n := query.rows, query.cols;
    if m != ordered.rows || n != ordered.cols {
      return Err(ShapeMismatch);
    }
    var idx := new nat[m, n];
    var i := 0;
    while i < m
      invariant 0 <= i <= m
      invariant forall a, b :: 0 <= a < i && 0 <= b < n ==> idx[a, b] == CountBefore(ordered.cells[a][b], query.cells[a][b], side)
    {
      var j := 0;
      while j < n
        invariant 0 <= j <= n
        invariant forall a, b :: 0 <= a < i && 0 <= b < n ==> idx[a, b] == CountBefore(ordered.cells[a][b], query.cells[a][b], side)
        invariant forall b :: 0 <= b < j ==> idx[i, b] == CountBefore(ordered.cells[i][b], query.cells[i][b], side)
      {
        idx[i, j] := SearchSorted(ordered.cells[i][j], query.cells[i][j], side);
        j := j + 1;
      }
      i := i + 1;
    }
    return Ok(idx);
  }

  // ---------------------------------------------------------------------
  // p_value_estimate
  // ---------------------------------------------------------------------

  function Sum(s: seq<real>): real {
    if s == [] then 0.0 else s[0] + Sum(s[1..])
  }

  /** np.mean along the last axis. */
  function Mean(s: seq<real>): real
    requires |s| > 0
  {
    Sum(s) / |s| as real
  }

  function Abs(x: real): real {
    if x < 0.0 then -x else x
  }

  /** np.sort of every cell of one row of the distribution. */
  function SortRow(cells: seq<seq<real>>): (r: seq<seq<real>>)
    ensures |r| == |cells| && forall j :: 0 <= j < |r| ==> r[j] == SortReals(cells[j])
  {
    seq(|cells|, j requires 0 <= j < |cells| => SortReals(cells[j]))
  }

  /** np.sort of every cell of the distribution. */
  function SortCube(dist: Cube): (r: Cube)
    requires dist.Valid()
    ensures r.Valid() && r.rows == dist.rows && r.cols == dist.cols && r.depth == dist.depth
    ensures forall i, j :: 0 <= i < r.rows && 0 <= j < r.cols ==>
      Sorted(r.cells[i][j]) && multiset(r.cells[i][j]) == multiset(dist.cells[i][j])
  {
    Cube(dist.rows, dist.cols, dist.depth,
      seq(dist.rows, i requires 0 <= i < dist.rows => SortRow(dist.cells[i])))
  }

  /** center - |observed - center|, the lower end of the two-sided band; center when the distribution is empty. */
  function LowerBand(s: seq<real>, o: real): real {
    if |s| == 0 then o else Mean(s) - Abs(o - Mean(s))
  }

  /** center + |observed - center|, the upper end of the two-sided band. */
  function UpperBand(s: seq<real>, o: real): real {
    if |s| == 0 then o else Mean(s) + Abs(o - Mean(s))
  }

  /**
   * The grid of band ends, center - |observed - center| (lower) or
   * center + |observed - center| (upper), cell by cell.
   */
  function BandGrid(observed: Grid<real>, dist: Cube, upper: bool): (r: Grid<real>)
    requires observed.Valid() && dist.Valid()
    requires observed.rows == dist.rows && observed.cols == dist.cols
    ensures r.Valid() && r.rows == observed.rows && r.cols == observed.cols
  {
    Grid(observed.rows, observed.cols,
      seq(observed.rows, i requires 0 <= i < observed.rows =>
        seq(observed.cols, j requires 0 <= j < observed.cols =>
          if upper then UpperBand(dist.cells[i][j], observed.cells[i][j])
          else LowerBand(dist.cells[i][j], observed.cells[i][j]))))
  }

  /** rank / P, or 1 - rank / P, as numpy divides the searchsorted grid by P; 0 / 0 is NaN. */
  function Scaled(rank: Grid<nat>, p: nat, complement: bool): (r: Grid<Value>)
    requires rank.Valid()
    ensures r.Valid() && r.rows == rank.rows && r.cols == rank.cols
  {
    Grid(rank.rows, rank.cols,
      seq(rank.rows, i requires 0 <= i < rank.rows =>
        seq(rank.cols, j requires 0 <= j < rank.cols =>
          if p == 0 then NaN
          else if complement then Num(1.0 - rank.cells[i][j] as real / p as real)
          else Num(rank.cells[i][j] as real / p as real))))
  }

  /** One cell of Scaled. */
  lemma ScaledCell(rank: Grid<nat>, p: nat, complement: bool, i: nat, j: nat)
    requires rank.Valid() && i < rank.rows && j < rank.cols
    ensures Scaled(rank, p, complement).cells[i][j]
         == if p == 0 then NaN
            else if complement then Num(1.0 - rank.cells[i][j] as real / p as real)
            else Num(rank.cells[i][j] as real / p as real)
  {
  }

  /** a / P + 1 - b / P over two searchsorted grids of the same shape. */
  function TwoSidedGrid(low: Grid<nat>, high: Grid<nat>, p: nat): (r: Grid<Value>)
    requires low.Valid() && high.Valid() && low.rows == high.rows && low.cols == high.cols
    ensures r.Valid() && r.rows == low.rows && r.cols == low.cols
  {
    Grid(low.rows, low.cols,
      seq(low.rows, i requires 0 <= i < low.rows =>
        seq(low.cols, j requires 0 <= j < low.cols =>
          if p == 0 then NaN
          else Num(low.cells[i][j] as real / p as real + 1.0 - high.cells[i][j] as real / p as real))))
  }

  /**
   * p_value_estimate: the first two dimensions of the observed grid and of
   * the distribution must agree; then 'two.sided', 'left' and 'right' give
   * the three p-value grids and any other alternative is a ValueError.
   */
  function PValueEstimate(observed: Grid<real>, dist: Cube, alternative: string): (r: Result<Grid<Value>, PValueError>)
    requires observed.Valid() && dist.Valid()
    ensures r == Err(ShapeMismatch) <==> observed.rows != dist.rows || observed.cols != dist.cols
    ensures r == Err(InvalidAlternative) <==>
      observed.rows == dist.rows && observed.cols == dist.cols && alternative !in {"two.sided", "left", "right"}
    ensures r.Ok? ==> r.value.Valid() && r.value.rows == observed.rows && r.value.cols == observed.cols
  {
    if observed.rows != dist.rows || observed.cols != dist.cols then Err(ShapeMismatch)
    else
      var ordered := SortCube(dist);
      var p := dist.depth;
      if alternative == "two.sided" then
        Ok(TwoSidedGrid(
          SearchsortedGrid(ordered, BandGrid(observed, dist, false), Right),
          SearchsortedGrid(ordered, BandGrid(observed, dist, true), Left), p))
      else if alternative == "left" then
        Ok(Scaled(SearchsortedGrid(ordered, observed, Right), p, false))
      else if alternative == "right" then
        Ok(Scaled(SearchsortedGrid(ordered, observed, Left), p, true))
      else Err(InvalidAlternative)
  }

  /** The left-sided p-value of one cell: the share of simulated scores at most the observed one. */
  function LeftP(s: seq<real>, o: real): real
    requires |s| > 0
  {
    CountBefore(s, o, Right) as real / |s| as real
  }

  /** The right-sided p-value of one cell: the share of simulated scores at least the observed one. */
  function RightP(s: seq<real>, o: real): real
    requires |s| > 0
  {
    1.0 - CountBefore(s, o, Left) as real / |s| as real
  }

  /**
   * The two-sided p-value of one cell: the share of simulated scores at
   * least as far from their mean as the observed one, on either side.
   */
  function TwoSidedP(s: seq<real>, o: real): real
    requires |s| > 0
  {
    var c := Mean(s);
    CountBefore(s, c - Abs(o - c), Right) as real / |s| as real + 1.0 - CountBefore(s, c + Abs(o - c), Left) as real / |s| as real
  }

  /** searchsorted on the sorted copy of a cell's distribution counts the cell's own scores. */
  lemma SortedRank(dist: Cube, query: Grid<real>, side: Side, i: nat, j: nat)
    requires dist.Valid() && query.Valid() && dist.rows == query.rows && dist.cols == query.cols
    requires i < query.rows && j < query.cols
    ensures SearchsortedGrid(SortCube(dist), query, side).cells[i][j] == CountBefore(dist.cells[i][j], query.cells[i][j], side)
  {
    assert SortCube(dist).cells[i][j] == SortReals(dist.cells[i][j]);
    SortKeepsCount(dist.cells[i][j], query.cells[i][j], side);
  }

  /**
   * Cell (i, j) of the 'left' result is NaN for an empty distribution and
   * otherwise the left-sided p-value of the observed score against the
   * cell's own, unsorted, distribution.
   */
  lemma LeftCell(observed: Grid<real>, dist: Cube, i: nat, j: nat)
    requires observed.Valid() && dist.Valid() && observed.rows == dist.rows && observed.cols == dist.cols
    requires i < observed.rows && j < observed.cols
    ensures PValueEstimate(observed, dist, "left").Ok?
    ensures PValueEstimate(observed, dist, "left").value.cells[i][j]
         == if dist.depth == 0 then NaN else Num(LeftP(dist.cells[i][j], observed.cells[i][j]))
  {
    LeftCellIs(observed, dist, i, j, if dist.depth == 0 then NaN else Num(LeftP(dist.cells[i][j], observed.cells[i][j])));
  }

  /** LeftCell for a value v known to be that p-value. */
  lemma LeftCellIs(observed: Grid<real>, dist: Cube, i: nat, j: nat, v: Value)
    requires observed.Valid() && dist.Valid() && observed.rows == dist.rows && observed.cols == dist.cols
    requires i < observed.rows && j < observed.cols
    requires v == if dist.depth == 0 then NaN else Num(LeftP(dist.cells[i][j], observed.cells[i][j]))
    ensures PValueEstimate(observed, dist, "left").Ok?
    ensures PValueEstimate(observed, dist, "left").value.cells[i][j] == v
  {
    var rank := SearchsortedGrid(SortCube(dist), observed, Right);
    assert "left" != "two.sided";
    assert PValueEstimate(observed, dist, "left") == Ok(Scaled(rank, dist.depth, false));
    SortedRank(dist, observed, Right, i, j);
    ScaledCell(rank, dist.depth, false, i, j);
    assert |dist.cells[i][j]| == dist.depth;
  }

  /** The same for the 'right' result and the right-sided p-value. */
  lemma RightCell(observed: Grid<real>, dist: Cube, i: nat, j: nat)
    requires observed.Valid() && dist.Valid() && observed.rows == dist.rows && observed.cols == dist.cols
    requires i < observed.rows && j < observed.cols
    ensures PValueEstimate(observed, dist, "right").Ok?
    ensures PValueEstimate(observed, dist, "right").value.cells[i][j]
         == if dist.depth == 0 then NaN else Num(RightP(dist.cells[i][j], observed.cells[i][j]))
  {
    RightCellIs(observed, dist, i, j, if dist.depth == 0 then NaN else Num(RightP(dist.cells[i][j], observed.cells[i][j])));
  }

  /** RightCell for a value v known to be that p-value. */
  lemma RightCellIs(observed: Grid<real>, dist: Cube, i: nat, j: nat, v: Value)
    requires observed.Valid() && dist.Valid() && observed.rows == dist.rows && observed.cols == dist.cols
    requires i < observed.rows && j < observed.cols
    requires v == if dist.depth == 0 then NaN else Num(RightP(dist.cells[i][j], observed.cells[i][j]))
    ensures PValueEstimate(observed, dist, "right").Ok?
    ensures PValueEstimate(observed, dist, "right").value.cells[i][j] == v
  {
    var rank := SearchsortedGrid(SortCube(dist), observed, Left);
    assert "right" != "two.sided" && "right" != "left";
    assert PValueEstimate(observed, dist, "right") == Ok(Scaled(rank, dist.depth, true));
    SortedRank(dist, observed, Left, i, j);
    ScaledCell(rank, dist.depth, true, i, j);
    assert |dist.cells[i][j]| == dist.depth;
  }

  /** The same for the 'two.sided' result and the two-sided p-value. */
  lemma TwoSidedCell(observed: Grid<real>, dist: Cube, i: nat, j: nat)
    requires observed.Valid() && dist.Valid() && observed.rows == dist.rows && observed.cols == dist.cols
    requires i < observed.rows && j < observed.cols
    ensures PValueEstimate(observed, dist, "two.sided").Ok?
    ensures PValueEstimate(observed, dist, "two.sided").value.cells[i][j]
         == if dist.depth == 0 then NaN else Num(TwoSidedP(dist.cells[i][j], observed.cells[i][j]))
  {
    TwoSidedCellIs(observed, dist, i, j, if dist.depth == 0 then NaN else Num(TwoSidedP(dist.cells[i][j], observed.cells[i][j])));
  }

  /** TwoSidedCell for a value v known to be that p-value. */
  lemma TwoSidedCellIs(observed: Grid<real>, dist: Cube, i: nat, j: nat, v: Value)
    requires observed.Valid() && dist.Valid() && observed.rows == dist.rows && observed.cols == dist.cols
    requires i < observed.rows && j < observed.cols
    requires v == if dist.depth == 0 then NaN else Num(TwoSidedP(dist.cells[i][j], observed.cells[i][j]))
    ensures PValueEstimate(observed, dist, "two.sided").Ok?
    ensures PValueEstimate(observed, dist, "two.sided").value.cells[i][j] == v
  {
    var low := SearchsortedGrid(SortCube(dist), BandGrid(observed, dist, false), Right);
    var high := SearchsortedGrid(SortCube(dist), BandGrid(observed, dist, true), Left);
    assert PValueEstimate(observed, dist, "two.sided") == Ok(TwoSidedGrid(low, high, dist.depth));
    SortedRank(dist, BandGrid(observed, dist, false), Right, i, j);
    SortedRank(dist, BandGrid(observed, dist, true), Left, i, j);
  }

  // ---------------------------------------------------------------------
  // Properties of the three p-values
  // ---------------------------------------------------------------------

  lemma ShareBounds(k: nat, p: nat)
    requires 0 < p && k <= p
    ensures 0.0 <= k as real / p as real <= 1.0
  {
  }

  /** Both one-sided p-values lie in [0, 1]. */
  lemma OneSidedBounds(s: seq<real>, o: real)
    requires |s| > 0
    ensures 0.0 <= LeftP(s, o) <= 1.0
    ensures 0.0 <= RightP(s, o) <= 1.0
  {
    ShareBounds(CountBefore(s, o, Right), |s|);
    ShareBounds(CountBefore(s, o, Left), |s|);
  }

  /** left + right == 1 + (number of simulated scores equal to the observed one) / P. */
  lemma LeftPlusRight(s: seq<real>, o: real)
    requires |s| > 0
    ensures LeftP(s, o) + RightP(s, o) == 1.0 + CountEqual(s, o) as real / |s| as real
  {
    CountAtMostSplits(s, o);
    DivideSum(CountBefore(s, o, Left) as real, CountEqual(s, o) as real, |s| as real);
  }

  lemma DivideSum(a: real, b: real, p: real)
    requires p != 0.0
    ensures (a + b) / p == a / p + b / p
  {
  }

  /** The left-sided p-value never decreases and the right-sided one never increases as the observed score grows. */
  lemma OneSidedMonotone(s: seq<real>, o1: real, o2: real)
    requires |s| > 0 && o1 <= o2
    ensures LeftP(s, o1) <= LeftP(s, o2)
    ensures RightP(s, o1) >= RightP(s, o2)
  {
    CountBeforeMonotone(s, o1, o2, Right);
    CountBeforeMonotone(s, o1, o2, Left);
    var p := |s| as real;
    DivideMonotone(CountBefore(s, o1, Right) as real, CountBefore(s, o2, Right) as real, p);
    DivideMonotone(CountBefore(s, o1, Left) as real, CountBefore(s, o2, Left) as real, p);
  }

  lemma DivideMonotone(a: real, b: real, p: real)
    requires a <= b && p > 0.0
    ensures a / p <= b / p
  {
  }

  /**
   * The two-sided p-value is never negative, and it is at most 1 whenever
   * the observed score differs from the mean of the distribution (the two
   * tails are then disjoint).
   */
  lemma TwoSidedBounds(s: seq<real>, o: real)
    requires |s| > 0
    ensures 0.0 <= TwoSidedP(s, o)
    ensures o != Mean(s) ==> TwoSidedP(s, o) <= 1.0
  {
    var c := Mean(s);
    var p := |s| as real;
    var lo, hi := c - Abs(o - c), c + Abs(o - c);
    var a, b := CountBefore(s, lo, Right) as real, CountBefore(s, hi, Left) as real;
    ShareBounds(CountBefore(s, lo, Right), |s|);
    ShareBounds(CountBefore(s, hi, Left), |s|);
    if o != c {
      CountAtMostBelowLarger(s, lo, hi);
      DivideMonotone(a, b, p);
    }
  }

  /** Scores equally far from the mean on either side get the same two-sided p-value. */
  lemma TwoSidedReflection(s: seq<real>, o: real)
    requires |s| > 0
    ensures TwoSidedP(s, 2.0 * Mean(s) - o) == TwoSidedP(s, o)
  {
    var c := Mean(s);
    assert Abs((2.0 * c - o) - c) == Abs(o - c);
  }

  // ---------------------------------------------------------------------
  // The arrays of the source's own test of matrix_searchsorted and p_value_estimate
  // ---------------------------------------------------------------------

  /** Four consecutive numbers from a, one cell of np.arange(24).reshape([2, 3, 4]). */
  function ArangeRow(a: int): seq<real> {
    [a as real, (a + 1) as real, (a + 2) as real, (a + 3) as real]
  }

  /** The k-th number of ArangeRow(a) precedes x and the next one does not. */
  predicate ArangeRankIs(a: int, x: real, side: Side, k: nat) {
    && k <= 4
    && (k > 0 ==> Before((a + k - 1) as real, x, side))
    && (k < 4 ==> !Before((a + k) as real, x, side))
  }

  /** The rank of x among ArangeRow(a) is then k. */
  lemma ArangeRank(a: int, x: real, side: Side, k: nat)
    requires ArangeRankIs(a, x, side, k)
    ensures CountBefore(ArangeRow(a), x, side) == k
  {
    var s := ArangeRow(a);
    forall i | 0 <= i < k ensures Before(s[i], x, side) {
      assert s[i] == (a + i) as real;
    }
    forall i | k <= i < 4 ensures !Before(s[i], x, side) {
      assert s[i] == (a + i) as real;
    }
    CountBeforeSplit(s, x, side, k);
  }

  /** The rank k as a share of the four numbers. */
  lemma ArangeRankShare(a: int, x: real, side: Side, k: nat)
    requires ArangeRankIs(a, x, side, k)
    ensures side == Right ==> LeftP(ArangeRow(a), x) == k as real / 4.0
    ensures side == Left ==> RightP(ArangeRow(a), x) == 1.0 - k as real / 4.0
  {
    ArangeRank(a, x, side, k);
    assert |ArangeRow(a)| == 4;
  }

  lemma ArangeMean(a: int)
    ensures Mean(ArangeRow(a)) == a as real + 1.5
  {
    var s := ArangeRow(a);
    assert Sum(s[3..]) == s[3] by { assert s[3..][1..] == []; }
    assert Sum(s[2..]) == s[2] + s[3] by { assert s[2..][1..] == s[3..]; }
    assert Sum(s[1..]) == s[1] + s[2] + s[3] by { assert s[1..][1..] == s[2..]; }
  }

  /** lo and hi are the ranks of the two ends of the band of o about the mean of ArangeRow(a). */
  predicate ArangeBands(a: int, o: real, lo: nat, hi: nat) {
    var c := a as real + 1.5;
    ArangeRankIs(a, c - Abs(o - c), Right, lo) && ArangeRankIs(a, c + Abs(o - c), Left, hi)
  }

  /** The two-sided p-value of an observed score o against ArangeRow(a), from the ranks of the band ends. */
  lemma ArangeTwoSided(a: int, o: real, lo: nat, hi: nat)
    requires ArangeBands(a, o, lo, hi)
    ensures TwoSidedP(ArangeRow(a), o) == lo as real / 4.0 + 1.0 - hi as real / 4.0
  {
    var c := a as real + 1.5;
    ArangeRank(a, c - Abs(o - c), Right, lo);
    ArangeRank(a, c + Abs(o - c), Left, hi);
    ArangeMean(a);
  }

  /** The test distribution, np.arange(24).reshape([2, 3, 4]). */
  function TestDistribution(): (r: Cube)
    ensures r.Valid()
  {
    Cube(2, 3, 4, [[ArangeRow(0), ArangeRow(4), ArangeRow(8)], [ArangeRow(12), ArangeRow(16), ArangeRow(20)]])
  }

  /** The observed scores of the test. */
  const TestScores: seq<seq<real>> := [[-1.0, 4.0, 8.5], [13.5, 19.0, 24.0]]

  function TestQuery(): (r: Grid<real>)
    ensures r.Valid()
  {
    Grid(2, 3, TestScores)
  }

  /** The expected ranks with side 'left', with side 'right', and of the two ends of the two-sided bands. */
  const LeftSideRanks: seq<seq<nat>> := [[0, 0, 1], [2, 3, 4]]
  const RightSideRanks: seq<seq<nat>> := [[0, 1, 1], [2, 4, 4]]
  const BandLowRanks: seq<seq<nat>> := [[0, 1, 1], [2, 1, 0]]
  const BandHighRanks: seq<seq<nat>> := [[4, 3, 3], [2, 3, 4]]

  /**
   * Arrays with the shape and the cells of the test arrays: cell (i, j) of
   * the distribution is the four numbers from 12 i + 4 j on, and the
   * observed scores are TestScores.
   */
  predicate LikeTestArrays(q: Grid<real>, dist: Cube) {
    && q.Valid() && dist.Valid() && q.rows == dist.rows == 2 && q.cols == dist.cols == 3
    && forall i, j :: 0 <= i < 2 && 0 <= j < 3 ==>
         dist.cells[i][j] == ArangeRow(12 * i + 4 * j) && q.cells[i][j] == TestScores[i][j]
  }

  /** The test arrays are such arrays. */
  lemma TestArraysAreLike()
    ensures LikeTestArrays(TestQuery(), TestDistribution())
  {
    var d := TestDistribution();
    forall i, j | 0 <= i < 2 && 0 <= j < 3 ensures d.cells[i][j] == ArangeRow(12 * i + 4 * j) {
      assert d.cells[i][j] == [[ArangeRow(0), ArangeRow(4), ArangeRow(8)], [ArangeRow(12), ArangeRow(16), ArangeRow(20)]][i][j];
    }
  }

  /** The expected ranks of each observed test score. */
  lemma TestRanksAt(i: nat, j: nat)
    requires i < 2 && j < 3
    ensures ArangeRankIs(12 * i + 4 * j, TestScores[i][j], Left, LeftSideRanks[i][j])
    ensures ArangeRankIs(12 * i + 4 * j, TestScores[i][j], Right, RightSideRanks[i][j])
    ensures ArangeBands(12 * i + 4 * j, TestScores[i][j], BandLowRanks[i][j], BandHighRanks[i][j])
  {
    if i == 0 {
      assert j == 0 || j == 1 || j == 2;
    } else {
      assert j == 0 || j == 1 || j == 2;
    }
  }

  /** matrix_searchsorted on the test arrays with side 'left' gives [[0, 0, 1], [2, 3, 4]]. */
  lemma SearchsortedTestVector(q: Grid<real>, dist: Cube)
    requires LikeTestArrays(q, dist)
    ensures SearchsortedGrid(dist, q, Left).cells == [[0, 0, 1], [2, 3, 4]]
  {
    var r := SearchsortedGrid(dist, q, Left);
    forall i, j | 0 <= i < 2 && 0 <= j < 3 ensures r.cells[i][j] == LeftSideRanks[i][j] {
      TestRanksAt(i, j);
      ArangeRank(12 * i + 4 * j, q.cells[i][j], Left, LeftSideRanks[i][j]);
    }
    assert r.cells[0] == LeftSideRanks[0] && r.cells[1] == LeftSideRanks[1];
  }

  /** A 'left' cell whose distribution is ArangeRow(a) and whose observed score has rank k. */
  lemma LeftArangeCell(q: Grid<real>, dist: Cube, i: nat, j: nat, a: int, x: real, k: nat, p: real)
    requires q.Valid() && dist.Valid() && q.rows == dist.rows && q.cols == dist.cols
    requires i < q.rows && j < q.cols && dist.cells[i][j] == ArangeRow(a) && q.cells[i][j] == x
    requires ArangeRankIs(a, x, Right, k) && p == k as real / 4.0
    ensures PValueEstimate(q, dist, "left").Ok?
    ensures PValueEstimate(q, dist, "left").value.cells[i][j] == Num(p)
  {
    ArangeRankShare(a, x, Right, k);
    assert dist.depth == 4 by {
      assert |dist.cells[i][j]| == dist.depth;
    }
    LeftCellIs(q, dist, i, j, Num(p));
  }


  /** A 'right' cell whose distribution is ArangeRow(a) and whose observed score has rank k. */
  lemma RightArangeCell(q: Grid<real>, dist: Cube, i: nat, j: nat, a: int, x: real, k: nat, p: real)
    requires q.Valid() && dist.Valid() && q.rows == dist.rows && q.cols == dist.cols
    requires i < q.rows && j < q.cols && dist.cells[i][j] == ArangeRow(a) && q.cells[i][j] == x
    requires ArangeRankIs(a, x, Left, k) && p == 1.0 - k as real / 4.0
    ensures PValueEstimate(q, dist, "right").Ok?
    ensures PValueEstimate(q, dist, "right").value.cells[i][j] == Num(p)
  {
    ArangeRankShare(a, x, Left, k);
    assert dist.depth == 4 by {
      assert |dist.cells[i][j]| == dist.depth;
    }
    RightCellIs(q, dist, i, j, Num(p));
  }


  /**
   * A two-sided cell whose distribution is ArangeRow(a): the p-value is
   * lo / 4 + 1 - hi / 4 for the ranks lo and hi of the two band ends.
   */
  lemma TwoSidedArangeCell(q: Grid<real>, dist: Cube, i: nat, j: nat, a: int, x: real, lo: nat, hi: nat, p: real)
    requires q.Valid() && dist.Valid() && q.rows == dist.rows && q.cols == dist.cols
    requires i < q.rows && j < q.cols && dist.cells[i][j] == ArangeRow(a) && q.cells[i][j] == x
    requires ArangeBands(a, x, lo, hi) && p == lo as real / 4.0 + 1.0 - hi as real / 4.0
    ensures PValueEstimate(q, dist, "two.sided").Ok?
    ensures PValueEstimate(q, dist, "two.sided").value.cells[i][j] == Num(p)
  {
    ArangeTwoSided(a, x, lo, hi);
    assert dist.depth == 4 by {
      assert |dist.cells[i][j]| == dist.depth;
    }
    TwoSidedCellIs(q, dist, i, j, Num(p));
  }

  /** The expected p-values of the test arrays for each alternative. */
  const LeftPValues: seq<seq<real>> := [[0.0, 0.25, 0.25], [0.5, 1.0, 1.0]]
  const RightPValues: seq<seq<real>> := [[1.0, 1.0, 0.75], [0.5, 0.25, 0.0]]
  const TwoSidedPValues: seq<seq<real>> := [[0.0, 0.5, 0.5], [1.0, 0.5, 0.0]]

  /** The expected p-values are the shares of the expected ranks among the four draws. */
  lemma TestPValuesAt(i: nat, j: nat)
    requires i < 2 && j < 3
    ensures LeftPValues[i][j] == RightSideRanks[i][j] as real / 4.0
    ensures RightPValues[i][j] == 1.0 - LeftSideRanks[i][j] as real / 4.0
    ensures TwoSidedPValues[i][j] == BandLowRanks[i][j] as real / 4.0 + 1.0 - BandHighRanks[i][j] as real / 4.0
  {
    if i == 0 {
      assert j == 0 || j == 1 || j == 2;
    } else {
      assert j == 0 || j == 1 || j == 2;
    }
  }

  /** Cell (i, j) of the "left" test vector. */
  lemma LeftTestCell(q: Grid<real>, dist: Cube, i: nat, j: nat)
    requires LikeTestArrays(q, dist) && i < 2 && j < 3
    ensures PValueEstimate(q, dist, "left").Ok?
    ensures PValueEstimate(q, dist, "left").value.cells[i][j] == Num(LeftPValues[i][j])
  {
    TestRanksAt(i, j);
    TestPValuesAt(i, j);
    LeftArangeCell(q, dist, i, j, 12 * i + 4 * j, TestScores[i][j], RightSideRanks[i][j], LeftPValues[i][j]);
  }

  /** The 'left' p-values of the test arrays are [[0, 0.25, 0.25], [0.5, 1, 1]]. */
  lemma LeftTestVector(q: Grid<real>, dist: Cube)
    requires LikeTestArrays(q, dist)
    ensures PValueEstimate(q, dist, "left").Ok?
    ensures forall i, j :: 0 <= i < 2 && 0 <= j < 3 ==>
              PValueEstimate(q, dist, "left").value.cells[i][j] == Num(LeftPValues[i][j])
  {
    assert PValueEstimate(q, dist, "left").Ok?;
    forall i, j | 0 <= i < 2 && 0 <= j < 3
      ensures PValueEstimate(q, dist, "left").value.cells[i][j] == Num(LeftPValues[i][j])
    {
      LeftTestCell(q, dist, i, j);
    }
  }

  /** Cell (i, j) of the "right" test vector. */
  lemma RightTestCell(q: Grid<real>, dist: Cube, i: nat, j: nat)
    requires LikeTestArrays(q, dist) && i < 2 && j < 3
    ensures PValueEstimate(q, dist, "right").Ok?
    ensures PValueEstimate(q, dist, "right").value.cells[i][j] == Num(RightPValues[i][j])
  {
    TestRanksAt(i, j);
    TestPValuesAt(i, j);
    RightArangeCell(q, dist, i, j, 12 * i + 4 * j, TestScores[i][j], LeftSideRanks[i][j], RightPValues[i][j]);
  }

  /** The 'right' p-values of the test arrays are [[1, 1, 0.75], [0.5, 0.25, 0]]. */
  lemma RightTestVector(q: Grid<real>, dist: Cube)
    requires LikeTestArrays(q, dist)
    ensures PValueEstimate(q, dist, "right").Ok?
    ensures forall i, j :: 0 <= i < 2 && 0 <= j < 3 ==>
              PValueEstimate(q, dist, "right").value.cells[i][j] == Num(RightPValues[i][j])
  {
    assert PValueEstimate(q, dist, "right").Ok?;
    forall i, j | 0 <= i < 2 && 0 <= j < 3
      ensures PValueEstimate(q, dist, "right").value.cells[i][j] == Num(RightPValues[i][j])
    {
      RightTestCell(q, dist, i, j);
    }
  }

  /** Cell (i, j) of the "two.sided" test vector. */
  lemma TwoSidedTestCell(q: Grid<real>, dist: Cube, i: nat, j: nat)
    requires LikeTestArrays(q, dist) && i < 2 && j < 3
    ensures PValueEstimate(q, dist, "two.sided").Ok?
    ensures PValueEstimate(q, dist, "two.sided").value.cells[i][j] == Num(TwoSidedPValues[i][j])
  {
    TestRanksAt(i, j);
    TestPValuesAt(i, j);
    TwoSidedArangeCell(q, dist, i, j, 12 * i + 4 * j, TestScores[i][j], BandLowRanks[i][j], BandHighRanks[i][j], TwoSidedPValues[i][j]);
  }

  /**
   * The two-sided p-values of the test arrays are [[0, 0.5, 0.5], [1, 0.5, 0]]:
   * the cell means are 12 i + 4 j + 1.5 and the bands are [-1, 4], [4, 7],
   * [8.5, 10.5], [13.5, 13.5], [16, 19] and [19, 24].
   */
  lemma TwoSidedTestVector(q: Grid<real>, dist: Cube)
    requires LikeTestArrays(q, dist)
    ensures PValueEstimate(q, dist, "two.sided").Ok?
    ensures forall i, j :: 0 <= i < 2 && 0 <= j < 3 ==>
              PValueEstimate(q, dist, "two.sided").value.cells[i][j] == Num(TwoSidedPValues[i][j])
  {
    assert PValueEstimate(q, dist, "two.sided").Ok?;
    forall i, j | 0 <= i < 2 && 0 <= j < 3
      ensures PValueEstimate(q, dist, "two.sided").value.cells[i][j] == Num(TwoSidedPValues[i][j])
    {
      TwoSidedTestCell(q, dist, i, j);
    }
  }

  /** Any other alternative is a ValueError. */
  lemma InvalidAlternativeTestVector()
    ensures PValueEstimate(TestQuery(), TestDistribution(), "e") == Err(InvalidAlternative)
  {
  }

  // ---------------------------------------------------------------------
  // The set-up of SynergyRandomizer.p_value
  // ---------------------------------------------------------------------

  /** The rates the null model simulates from: [case rate, control rate] and one rate per phenotype. */
  datatype NullRates = NullRates(diagnosis: seq<Value>, phenotype: seq<Value>)

  function Share(count: int, total: int): Value {
    if total == 0 then NaN else Num(count as real / total as real)
  }

  /**
   * SynergyRandomizer.p_value as written: the phenotype rate sums the slice
   * m1[:, 0:1], which is column 0 alone, the samples with the phenotype and
   * the diagnosis.
   */
  function NullRatesAsWritten(m1: seq<seq<int>>, caseN: int, controlN: int): (r: NullRates)
    requires forall i :: 0 <= i < |m1| ==> |m1[i]| == 4
    ensures |r.diagnosis| == 2 && |r.phenotype| == |m1|
    ensures forall i :: 0 <= i < |m1| ==> r.phenotype[i] == Share(m1[i][0], caseN + controlN)
  {
    var total := caseN + controlN;
    NullRates([Share(caseN, total), Share(controlN, total)],
      seq(|m1|, i requires 0 <= i < |m1| => Share(m1[i][0], total)))
  }

  /**
   * The rates with the phenotype rate over columns 0 and 1, the samples with
   * the phenotype whatever their diagnosis, which is what the simulation
   * draws a phenotype with.
   */
  function NullRatesOf(m1: seq<seq<int>>, caseN: int, controlN: int): (r: NullRates)
    requires forall i :: 0 <= i < |m1| ==> |m1[i]| == 4
    ensures |r.diagnosis| == 2 && |r.phenotype| == |m1|
    ensures caseN + controlN == 0 <==> r.diagnosis[0] == NaN
  {
    var total := caseN + controlN;
    NullRates([Share(caseN, total), Share(controlN, total)],
      seq(|m1|, i requires 0 <= i < |m1| => Share(m1[i][0] + m1[i][1], total)))
  }

  /** The two diagnosis rates add up to 1 whenever there is a sample. */
  lemma DiagnosisRatesSumToOne(m1: seq<seq<int>>, caseN: int, controlN: int)
    requires forall i :: 0 <= i < |m1| ==> |m1[i]| == 4
    requires caseN + controlN != 0
    ensures var r := NullRatesOf(m1, caseN, controlN);
            r.diagnosis[0].Num? && r.diagnosis[1].Num? && r.diagnosis[0].r + r.diagnosis[1].r == 1.0
  {
    var t := (caseN + controlN) as real;
    assert caseN as real / t + controlN as real / t == (caseN + controlN) as real / t;
  }

  /**
   * On the summaries of 0/1 samples, the corrected phenotype rate is the
   * share of samples that have the phenotype, and the case rate the share
   * of cases.
   */
  lemma PhenotypeRateIsPresentShare(P: seq<seq<int>>, d: seq<int>, m: nat, i: nat)
    requires IsBatch(P, d, m) && IsBinaryMatrix(P) && i < m && |d| > 0
    ensures var counts := BatchCounts(P, d, m);
            var r := NullRatesOf(counts.m1, counts.caseN, counts.controlN);
            && r.phenotype[i] == Num(PresentCount(P, i) as real / |d| as real)
            && r.diagnosis[0] == Num(SummarizeDiagnosis(d).0 as real / |d| as real)
  {
    assert HasColumn(P, i);
    PhenotypePresentColumns(P, d, i);
  }

  /**
   * Two samples, both with the phenotype, one case and one control: the
   * phenotype is present in every sample, yet the as-written rate is 1/2,
   * while the corrected rate is 1.
   */
  lemma PhenotypeRateFinding()
    ensures var counts := BatchCounts([[1], [1]], [1, 0], 1);
            && counts.m1[0] == [1, 1, 0, 0]
            && NullRatesAsWritten(counts.m1, counts.caseN, counts.controlN).phenotype[0] == Num(0.5)
            && NullRatesOf(counts.m1, counts.caseN, counts.controlN).phenotype[0] == Num(1.0)
  {
    ConstantPhenotypeBatch();
  }

  // ---------------------------------------------------------------------
  // The batches of synergy_random
  // ---------------------------------------------------------------------

  /** BATCH_SIZE of synergy_random. */
  const BatchSize: nat := 1000

  /** int(np.ceil(sample_size / BATCH_SIZE)). */
  function TotalBatches(sampleSize: nat): (r: nat)
    ensures BatchSize * (r - 1) < sampleSize <= BatchSize * r
    ensures sampleSize == 0 <==> r == 0
  {
    (sampleSize + BatchSize - 1) / BatchSize
  }

  /**
   * The batch sizes of synergy_random as written: every batch has BATCH_SIZE
   * samples but the last, which has sample_size - BATCH_SIZE * (i - 1). The
   * random draws are not modelled; only the number of samples drawn is.
   * Any positive sample size draws BATCH_SIZE samples too many, the last
   * batch alone holding more than BATCH_SIZE.
   */
  method DrawnSamplesAsWritten(sampleSize: nat) returns (drawn: int, last: int)
    ensures sampleSize > 0 ==> drawn == sampleSize + BatchSize && last > BatchSize
    ensures sampleSize == 0 ==> drawn == 0
  {
    var total := TotalBatches(sampleSize);
    drawn, last := 0, 0;
    var i: int := 0;
    while i < total
      invariant 0 <= i <= total
      invariant i < total || total == 0 ==> drawn == BatchSize * i
      invariant i == total && total > 0 ==> drawn == sampleSize + BatchSize && last > BatchSize
    {
      var actual: int := if i == total - 1 then sampleSize - BatchSize * (i - 1) else BatchSize;
      drawn := drawn + actual;
      last := actual;
      i := i + 1;
    }
  }

  /**
   * The evidently intended batch sizes, with the last batch
   * sample_size - BATCH_SIZE * i: exactly sample_size samples are drawn, and
   * the last batch holds between 1 and BATCH_SIZE of them.
   */
  method DrawnSamples(sampleSize: nat) returns (drawn: int, last: int)
    ensures drawn == sampleSize
    ensures sampleSize > 0 ==> 1 <= last <= BatchSize
  {
    var total := TotalBatches(sampleSize);
    drawn, last := 0, 0;
    var i := 0;
    while i < total
      invariant 0 <= i <= total
      invariant i < total ==> drawn == BatchSize * i
      invariant i == total ==> drawn == sampleSize && (total > 0 ==> 1 <= last <= BatchSize)
    {
      var actual := if i == total - 1 then sampleSize - BatchSize * i else BatchSize;
      drawn := drawn + actual;
      last := actual;
      i := i + 1;
    }
  }
}
