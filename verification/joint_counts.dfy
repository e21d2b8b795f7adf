/**
 * The joint-count summaries of src/main/python/mf.py: for a batch made of an
 * N x M phenotype matrix P (rows are samples, columns phenotypes) and an
 * N-long diagnosis vector d, the counts of the four (phenotype, diagnosis)
 * outcomes per phenotype (m1), of the eight (phenotype1, phenotype2,
 * diagnosis) outcomes per phenotype pair (m2), and of cases and controls.
 *
 * The source computes every count with the products P * d, P * (1 - d),
 * (1 - P) * d, ... summed over the rows; the model does the same over
 * unbounded integers, so the identities below hold for any integer input,
 * and the ones that need 0/1 data say so.
 */
module JointCounts {
  import opened Wrappers

  /** Every row of P has m columns: P is an N x m numpy array. */
  predicate IsMatrix(P: seq<seq<int>>, m: nat) {
    forall n :: 0 <= n < |P| ==> |P[n]| == m
  }

  /** Every row of P is long enough to have a column i. */
  predicate HasColumn(P: seq<seq<int>>, i: nat) {
    forall n :: 0 <= n < |P| ==> i < |P[n]|
  }

  /** Every entry is 0 or 1. */
  predicate IsBinary(d: seq<int>) {
    forall n :: 0 <= n < |d| ==> d[n] == 0 || d[n] == 1
  }

  predicate IsBinaryMatrix(P: seq<seq<int>>) {
    forall n :: 0 <= n < |P| ==> IsBinary(P[n])
  }

  /** A batch the accumulator can take: one outcome per row, m columns per row. */
  predicate IsBatch(P: seq<seq<int>>, d: seq<int>, m: nat) {
    |P| == |d| && IsMatrix(P, m)
  }

  /** x for a positive literal and 1 - x for a negative one, as the source writes P and 1 - P. */
  function Lit(x: int, positive: bool): int {
    if positive then x else 1 - x
  }

  /** sum(d) for the positive side and sum(1 - d) for the negative side. */
  function CountOutcome(d: seq<int>, positive: bool): int {
    if d == [] then 0 else Lit(d[0], positive) + CountOutcome(d[1..], positive)
  }

  /**
   * Cell c of m1 for phenotype i. The cells are ordered ++, +-, -+, -- over
   * (phenotype, diagnosis): the phenotype is positive in cells 0 and 1, the
   * diagnosis in cells 0 and 2.
   */
  function PhenotypeCount(P: seq<seq<int>>, d: seq<int>, i: nat, c: nat): int
    requires |P| == |d| && HasColumn(P, i) && c < 4
  {
    if P == [] then 0
    else PhenotypeTerm(P[0][i], d[0], c) + PhenotypeCount(P[1..], d[1..], i, c)
  }

  /** One sample's contribution to cell c of m1: phenotype value x, diagnosis value z. */
  function PhenotypeTerm(x: int, z: int, c: nat): int
    requires c < 4
  {
    Lit(x, c < 2) * Lit(z, c % 2 == 0)
  }

  /** One sample's contribution to cell c of m2: phenotype values x and y, diagnosis value z. */
  function PairTerm(x: int, y: int, z: int, c: nat): int
    requires c < 8
  {
    Lit(x, c < 4) * Lit(y, c % 4 < 2) * Lit(z, c % 2 == 0)
  }

  /**
   * Cell c of m2 for the phenotype pair (i, j). The cells are ordered +++,
   * ++-, +-+, +--, -++, -+-, --+, --- over (phenotype i, phenotype j,
   * diagnosis): phenotype i is positive in cells 0-3, phenotype j in cells
   * 0, 1, 4, 5, the diagnosis in the even cells.
   */
  function PairCount(P: seq<seq<int>>, d: seq<int>, i: nat, j: nat, c: nat): int
    requires |P| == |d| && HasColumn(P, i) && HasColumn(P, j) && c < 8
  {
    if P == [] then 0
    else PairTerm(P[0][i], P[0][j], d[0], c) + PairCount(P[1..], d[1..], i, j, c)
  }

  /** Number of samples in which phenotype i is recorded as present (entry 1). */
  function PresentCount(P: seq<seq<int>>, i: nat): nat
    requires HasColumn(P, i)
  {
    if P == [] then 0 else (if P[0][i] == 1 then 1 else 0) + PresentCount(P[1..], i)
  }

  /** summarize_diagnosis: the count of cases and the count of controls. */
  function SummarizeDiagnosis(d: seq<int>): (int, int) {
    (CountOutcome(d, true), CountOutcome(d, false))
  }

  /** summarize_diagnosis_phenotype: the M x 4 matrix m1 of one batch. */
  function SummarizeDiagnosisPhenotype(P: seq<seq<int>>, d: seq<int>, m: nat): seq<seq<int>>
    requires IsBatch(P, d, m)
  {
    seq(m, i requires 0 <= i < m => seq(4, c requires 0 <= c < 4 => PhenotypeCount(P, d, i, c)))
  }

  /** summarize_diagnosis_phenotype_pair: the M x M x 8 tensor m2 of one batch. */
  function SummarizeDiagnosisPhenotypePair(P: seq<seq<int>>, d: seq<int>, m: nat): seq<seq<seq<int>>>
    requires IsBatch(P, d, m)
  {
    seq(m, i requires 0 <= i < m =>
      seq(m, j requires 0 <= j < m =>
        seq(8, c requires 0 <= c < 8 => PairCount(P, d, i, j, c))))
  }

  /** The four running summaries the accumulator keeps: m1, m2, case_N and control_N. */
  datatype Counts = Counts(m1: seq<seq<int>>, m2: seq<seq<seq<int>>>, caseN: int, controlN: int)
  {
    /** m1 is M x 4 and m2 is M x M x 8. */
    predicate HasShape(m: nat) {
      && |m1| == m && (forall i :: 0 <= i < m ==> |m1[i]| == 4)
      && |m2| == m
      && (forall i :: 0 <= i < m ==> |m2[i]| == m && forall j :: 0 <= j < m ==> |m2[i][j]| == 8)
    }
  }

  /** The summaries of a batch on its own. */
  function BatchCounts(P: seq<seq<int>>, d: seq<int>, m: nat): (r: Counts)
    requires IsBatch(P, d, m)
    ensures r.HasShape(m)
    ensures r.caseN + r.controlN == |d|
  {
    OutcomeTotal(d);
    var (cases, controls) := SummarizeDiagnosis(d);
    Counts(SummarizeDiagnosisPhenotype(P, d, m), SummarizeDiagnosisPhenotypePair(P, d, m), cases, controls)
  }

  /** np.zeros([M, 4]), np.zeros([M, M, 8]) and two zero totals. */
  function ZeroCounts(m: nat): (r: Counts)
    ensures r.HasShape(m)
  {
    Counts(seq(m, i => seq(4, c => 0)), seq(m, i => seq(m, j => seq(8, c => 0))), 0, 0)
  }

  /** Element-wise sum of two summaries of the same shape. */
  function AddCounts(a: Counts, b: Counts, m: nat): (r: Counts)
    requires a.HasShape(m) && b.HasShape(m)
    ensures r.HasShape(m)
  {
    Counts(
      seq(m, i requires 0 <= i < m => seq(4, c requires 0 <= c < 4 => a.m1[i][c] + b.m1[i][c])),
      seq(m, i requires 0 <= i < m =>
        seq(m, j requires 0 <= j < m =>
          seq(8, c requires 0 <= c < 8 => a.m2[i][j][c] + b.m2[i][j][c]))),
      a.caseN + b.caseN,
      a.controlN + b.controlN)
  }

  /**
   * summarize: the summaries of the batch added to `current`, or to zero
   * summaries when there is none.
   */
  function Summarize(P: seq<seq<int>>, d: seq<int>, m: nat, current: Option<Counts>): (r: Counts)
    requires IsBatch(P, d, m)
    requires current.Some? ==> current.value.HasShape(m)
    ensures r.HasShape(m)
  {
    var base := if current.Some? then current.value else ZeroCounts(m);
    AddCounts(base, BatchCounts(P, d, m), m)
  }

  // ---------------------------------------------------------------------
  // Case and control totals
  // ---------------------------------------------------------------------

  /** Every sample is either a case or a control: case_N + control_N == N, for any integer d. */
  lemma {:induction false} OutcomeTotal(d: seq<int>)
    ensures SummarizeDiagnosis(d).0 + SummarizeDiagnosis(d).1 == |d|
  {
    if d != [] {
      OutcomeTotal(d[1..]);
    }
  }

  /** On 0/1 data case_N counts the ones and control_N the zeros. */
  lemma {:induction false} OutcomeCountsBinary(d: seq<int>)
    requires IsBinary(d)
    ensures SummarizeDiagnosis(d).0 == multiset(d)[1]
    ensures SummarizeDiagnosis(d).1 == multiset(d)[0]
  {
    if d != [] {
      OutcomeCountsBinary(d[1..]);
      assert d == [d[0]] + d[1..];
    }
  }

  lemma {:induction false} CountOutcomeAppend(d1: seq<int>, d2: seq<int>, positive: bool)
    ensures CountOutcome(d1 + d2, positive) == CountOutcome(d1, positive) + CountOutcome(d2, positive)
  {
    if d1 == [] {
      assert d1 + d2 == d2;
    } else {
      assert (d1 + d2)[0] == d1[0];
      assert (d1 + d2)[1..] == d1[1..] + d2;
      CountOutcomeAppend(d1[1..], d2, positive);
    }
  }

  // ---------------------------------------------------------------------
  // m1: phenotype x diagnosis counts
  // ---------------------------------------------------------------------

  /** Per sample: the two diagnosis-positive cells add up to z, the two negative ones to 1 - z. */
  lemma PhenotypeTermSums(x: int, z: int)
    ensures PhenotypeTerm(x, z, 0) + PhenotypeTerm(x, z, 2) == z
    ensures PhenotypeTerm(x, z, 1) + PhenotypeTerm(x, z, 3) == 1 - z
    ensures PhenotypeTerm(x, z, 0) + PhenotypeTerm(x, z, 1) == x
  {
    assert PhenotypeTerm(x, z, 0) == x * z;
    assert PhenotypeTerm(x, z, 1) == x * (1 - z);
    assert PhenotypeTerm(x, z, 2) == (1 - x) * z;
    assert PhenotypeTerm(x, z, 3) == (1 - x) * (1 - z);
  }

  /**
   * The rows of m1 are consistent with the totals: cells 0 and 2 add up to
   * case_N, cells 1 and 3 to control_N, so every row adds up to N.
   */
  lemma {:induction false} PhenotypeRowTotals(P: seq<seq<int>>, d: seq<int>, i: nat)
    requires |P| == |d| && HasColumn(P, i)
    ensures PhenotypeCount(P, d, i, 0) + PhenotypeCount(P, d, i, 2) == SummarizeDiagnosis(d).0
    ensures PhenotypeCount(P, d, i, 1) + PhenotypeCount(P, d, i, 3) == SummarizeDiagnosis(d).1
    ensures PhenotypeCount(P, d, i, 0) + PhenotypeCount(P, d, i, 1)
          + PhenotypeCount(P, d, i, 2) + PhenotypeCount(P, d, i, 3) == |d|
  {
    if P != [] {
      PhenotypeRowTotals(P[1..], d[1..], i);
      PhenotypeTermSums(P[0][i], d[0]);
    }
    OutcomeTotal(d);
  }

  /** On 0/1 phenotypes, cells 0 and 1 of m1 add up to the number of samples with the phenotype. */
  lemma {:induction false} PhenotypePresentColumns(P: seq<seq<int>>, d: seq<int>, i: nat)
    requires |P| == |d| && HasColumn(P, i) && IsBinaryMatrix(P)
    ensures PhenotypeCount(P, d, i, 0) + PhenotypeCount(P, d, i, 1) == PresentCount(P, i)
  {
    if P != [] {
      assert IsBinary(P[0]);
      PhenotypePresentColumns(P[1..], d[1..], i);
      PhenotypeTermSums(P[0][i], d[0]);
    }
  }

  /** On 0/1 data every m1 count is non-negative: each sample adds 0 or 1 to a cell. */
  lemma {:induction false} PhenotypeCountNonNegative(P: seq<seq<int>>, d: seq<int>, i: nat, c: nat)
    requires |P| == |d| && HasColumn(P, i) && IsBinaryMatrix(P) && IsBinary(d) && c < 4
    ensures PhenotypeCount(P, d, i, c) >= 0
  {
    if P != [] {
      assert IsBinary(P[0]);
      PhenotypeCountNonNegative(P[1..], d[1..], i, c);
      assert Lit(P[0][i], c < 2) >= 0 && Lit(d[0], c % 2 == 0) >= 0;
    }
  }

  lemma HasColumnAppend(P1: seq<seq<int>>, P2: seq<seq<int>>, i: nat)
    requires HasColumn(P1, i) && HasColumn(P2, i)
    ensures HasColumn(P1 + P2, i)
  {
    forall n | 0 <= n < |P1 + P2| ensures i < |(P1 + P2)[n]| {
      if n < |P1| {
        assert (P1 + P2)[n] == P1[n];
      } else {
        assert (P1 + P2)[n] == P2[n - |P1|];
      }
    }
  }

  /** The m1 count of two batches taken together is the sum of their counts. */
  lemma {:induction false} PhenotypeCountAppend(P1: seq<seq<int>>, d1: seq<int>, P2: seq<seq<int>>, d2: seq<int>, i: nat, c: nat)
    requires |P1| == |d1| && |P2| == |d2| && HasColumn(P1, i) && HasColumn(P2, i) && c < 4
    ensures HasColumn(P1 + P2, i)
    ensures PhenotypeCount(P1 + P2, d1 + d2, i, c) == PhenotypeCount(P1, d1, i, c) + PhenotypeCount(P2, d2, i, c)
  {
    HasColumnAppend(P1, P2, i);
    if P1 == [] {
      assert P1 + P2 == P2;
      assert d1 + d2 == d2;
    } else {
      assert (P1 + P2)[0] == P1[0];
      assert (d1 + d2)[0] == d1[0];
      assert (P1 + P2)[1..] == P1[1..] + P2;
      assert (d1 + d2)[1..] == d1[1..] + d2;
      PhenotypeCountAppend(P1[1..], d1[1..], P2, d2, i, c);
    }
  }

  // ---------------------------------------------------------------------
  // m2: phenotype x phenotype x diagnosis counts
  // ---------------------------------------------------------------------

  /** The m1 cell of phenotype i that m2 cell c falls in (phenotype j summed out). */
  function FirstMarginalCell(c: nat): (r: nat)
    requires c < 8
    ensures r < 4
  {
    (if c < 4 then 0 else 2) + c % 2
  }

  /** The m1 cell of phenotype j that m2 cell c falls in (phenotype i summed out). */
  function SecondMarginalCell(c: nat): (r: nat)
    requires c < 8
    ensures r < 4
  {
    (if c % 4 < 2 then 0 else 2) + c % 2
  }

  /** The m2 cell of the pair (j, i) that holds the same samples as cell c of (i, j). */
  function SwapPairCell(c: nat): (r: nat)
    requires c < 8
    ensures r < 8
  {
    (if c % 4 < 2 then 0 else 4) + (if c < 4 then 0 else 2) + c % 2
  }

  lemma ProductSplit(a: int, y: int, b: int)
    ensures a * y * b + a * (1 - y) * b == a * b
    ensures a * y * b + (1 - a) * y * b == y * b
  {
  }

  lemma PairTermFirstMarginal(x: int, y: int, z: int, c: nat)
    requires c < 8 && c % 4 < 2
    ensures PairTerm(x, y, z, c) + PairTerm(x, y, z, c + 2) == PhenotypeTerm(x, z, FirstMarginalCell(c))
  {
    var a := Lit(x, c < 4);
    var b := Lit(z, c % 2 == 0);
    assert PairTerm(x, y, z, c) == a * y * b;
    assert PairTerm(x, y, z, c + 2) == a * (1 - y) * b;
    assert PhenotypeTerm(x, z, FirstMarginalCell(c)) == a * b;
    ProductSplit(a, y, b);
  }

  lemma PairTermSecondMarginal(x: int, y: int, z: int, c: nat)
    requires c < 4
    ensures PairTerm(x, y, z, c) + PairTerm(x, y, z, c + 4) == PhenotypeTerm(y, z, SecondMarginalCell(c))
  {
    var a := Lit(y, c % 4 < 2);
    var b := Lit(z, c % 2 == 0);
    assert PairTerm(x, y, z, c) == x * a * b;
    assert PairTerm(x, y, z, c + 4) == (1 - x) * a * b;
    assert PhenotypeTerm(y, z, SecondMarginalCell(c)) == a * b;
    ProductSplit(x, a, b);
  }

  /**
   * Summing phenotype j out of m2[i][j] gives m1[i]: cells c and c + 2
   * (c in 0, 1, 4, 5) add up to m1 cell FirstMarginalCell(c).
   */
  lemma {:induction false} PairFirstMarginal(P: seq<seq<int>>, d: seq<int>, i: nat, j: nat, c: nat)
    requires |P| == |d| && HasColumn(P, i) && HasColumn(P, j) && c < 8 && c % 4 < 2
    ensures PairCount(P, d, i, j, c) + PairCount(P, d, i, j, c + 2) == PhenotypeCount(P, d, i, FirstMarginalCell(c))
  {
    if P != [] {
      PairFirstMarginal(P[1..], d[1..], i, j, c);
      PairTermFirstMarginal(P[0][i], P[0][j], d[0], c);
    }
  }

  /**
   * Summing phenotype i out of m2[i][j] gives m1[j]: cells c and c + 4
   * (c < 4) add up to m1 cell SecondMarginalCell(c).
   */
  lemma {:induction false} PairSecondMarginal(P: seq<seq<int>>, d: seq<int>, i: nat, j: nat, c: nat)
    requires |P| == |d| && HasColumn(P, i) && HasColumn(P, j) && c < 4
    ensures PairCount(P, d, i, j, c) + PairCount(P, d, i, j, c + 4) == PhenotypeCount(P, d, j, SecondMarginalCell(c))
  {
    if P != [] {
      PairSecondMarginal(P[1..], d[1..], i, j, c);
      PairTermSecondMarginal(P[0][i], P[0][j], d[0], c);
    }
  }

  /** Every row of m2 adds up to N. */
  lemma PairTotal(P: seq<seq<int>>, d: seq<int>, i: nat, j: nat)
    requires |P| == |d| && HasColumn(P, i) && HasColumn(P, j)
    ensures PairCount(P, d, i, j, 0) + PairCount(P, d, i, j, 1) + PairCount(P, d, i, j, 2) + PairCount(P, d, i, j, 3)
          + PairCount(P, d, i, j, 4) + PairCount(P, d, i, j, 5) + PairCount(P, d, i, j, 6) + PairCount(P, d, i, j, 7) == |d|
  {
    assert FirstMarginalCell(0) == 0 && FirstMarginalCell(1) == 1;
    assert FirstMarginalCell(4) == 2 && FirstMarginalCell(5) == 3;
    PairFirstMarginal(P, d, i, j, 0);
    PairFirstMarginal(P, d, i, j, 1);
    PairFirstMarginal(P, d, i, j, 4);
    PairFirstMarginal(P, d, i, j, 5);
    PhenotypeRowTotals(P, d, i);
  }

  /** Row i of m1 is a marginal of the m2 row of (i, j): phenotype j summed out. */
  lemma BatchFirstMarginal(P: seq<seq<int>>, d: seq<int>, m: nat, i: nat, j: nat)
    requires IsBatch(P, d, m) && i < m && j < m
    ensures var counts := BatchCounts(P, d, m);
            var row := counts.m2[i][j];
            counts.m1[i] == [row[0] + row[2], row[1] + row[3], row[4] + row[6], row[5] + row[7]]
  {
    assert HasColumn(P, i) && HasColumn(P, j);
    var counts := BatchCounts(P, d, m);
    var row := counts.m2[i][j];
    assert row == [PairCount(P, d, i, j, 0), PairCount(P, d, i, j, 1), PairCount(P, d, i, j, 2), PairCount(P, d, i, j, 3),
                   PairCount(P, d, i, j, 4), PairCount(P, d, i, j, 5), PairCount(P, d, i, j, 6), PairCount(P, d, i, j, 7)];
    assert FirstMarginalCell(0) == 0 && FirstMarginalCell(1) == 1;
    assert FirstMarginalCell(4) == 2 && FirstMarginalCell(5) == 3;
    PairFirstMarginal(P, d, i, j, 0);
    PairFirstMarginal(P, d, i, j, 1);
    PairFirstMarginal(P, d, i, j, 4);
    PairFirstMarginal(P, d, i, j, 5);
    assert counts.m1[i] == [PhenotypeCount(P, d, i, 0), PhenotypeCount(P, d, i, 1), PhenotypeCount(P, d, i, 2), PhenotypeCount(P, d, i, 3)];
  }

  /** Row j of m1 is a marginal of the m2 row of (i, j): phenotype i summed out. */
  lemma BatchSecondMarginal(P: seq<seq<int>>, d: seq<int>, m: nat, i: nat, j: nat)
    requires IsBatch(P, d, m) && i < m && j < m
    ensures var counts := BatchCounts(P, d, m);
            var row := counts.m2[i][j];
            counts.m1[j] == [row[0] + row[4], row[1] + row[5], row[2] + row[6], row[3] + row[7]]
  {
    assert HasColumn(P, i) && HasColumn(P, j);
    var counts := BatchCounts(P, d, m);
    var row := counts.m2[i][j];
    forall c | 0 <= c < 4 ensures PhenotypeCount(P, d, j, c) == row[c] + row[c + 4] {
      PairSecondMarginal(P, d, i, j, c);
    }
    assert counts.m1[j] == [PhenotypeCount(P, d, j, 0), PhenotypeCount(P, d, j, 1), PhenotypeCount(P, d, j, 2), PhenotypeCount(P, d, j, 3)];
  }

  /** Cells 0 and 2 of every m1 row of a batch add up to case_N, cells 1 and 3 to control_N. */
  lemma BatchRowTotals(P: seq<seq<int>>, d: seq<int>, m: nat, i: nat)
    requires IsBatch(P, d, m) && i < m
    ensures var counts := BatchCounts(P, d, m);
            && counts.m1[i][0] + counts.m1[i][2] == counts.caseN
            && counts.m1[i][1] + counts.m1[i][3] == counts.controlN
  {
    assert HasColumn(P, i);
    PhenotypeRowTotals(P, d, i);
  }

  /** m2 is symmetric up to the order of its cells: m2[i][j][c] == m2[j][i][SwapPairCell(c)]. */
  lemma {:induction false} PairTranspose(P: seq<seq<int>>, d: seq<int>, i: nat, j: nat, c: nat)
    requires |P| == |d| && HasColumn(P, i) && HasColumn(P, j) && c < 8
    ensures PairCount(P, d, i, j, c) == PairCount(P, d, j, i, SwapPairCell(c))
  {
    if P != [] {
      PairTranspose(P[1..], d[1..], i, j, c);
      var x, y, z := P[0][i], P[0][j], d[0];
      assert PairTerm(x, y, z, c) == Lit(x, c < 4) * Lit(y, c % 4 < 2) * Lit(z, c % 2 == 0);
      assert PairTerm(y, x, z, SwapPairCell(c)) == Lit(y, c % 4 < 2) * Lit(x, c < 4) * Lit(z, c % 2 == 0);
    }
  }

  /**
   * On 0/1 phenotypes the diagonal m2[i][i] holds m1[i]: a phenotype cannot
   * be both present and absent, so cells 2-5 are 0, and cells 0, 1, 6, 7
   * are the m1 cells 0, 1, 2, 3.
   */
  lemma {:induction false} PairDiagonal(P: seq<seq<int>>, d: seq<int>, i: nat, c: nat)
    requires |P| == |d| && HasColumn(P, i) && IsBinaryMatrix(P) && c < 8
    ensures 2 <= c <= 5 ==> PairCount(P, d, i, i, c) == 0
    ensures c < 2 ==> PairCount(P, d, i, i, c) == PhenotypeCount(P, d, i, c)
    ensures 6 <= c ==> PairCount(P, d, i, i, c) == PhenotypeCount(P, d, i, c - 4)
  {
    if P != [] {
      PairDiagonal(P[1..], d[1..], i, c);
      assert IsBinary(P[0]);
      var x, z := P[0][i], d[0];
      assert x * x == x && x * (1 - x) == 0 && (1 - x) * (1 - x) == 1 - x;
      assert PairTerm(x, x, z, c) == Lit(x, c < 4) * Lit(x, c % 4 < 2) * Lit(z, c % 2 == 0);
    }
  }

  /** The m2 count of two batches taken together is the sum of their counts. */
  lemma {:induction false} PairCountAppend(P1: seq<seq<int>>, d1: seq<int>, P2: seq<seq<int>>, d2: seq<int>, i: nat, j: nat, c: nat)
    requires |P1| == |d1| && |P2| == |d2| && c < 8
    requires HasColumn(P1, i) && HasColumn(P2, i) && HasColumn(P1, j) && HasColumn(P2, j)
    ensures HasColumn(P1 + P2, i) && HasColumn(P1 + P2, j)
    ensures PairCount(P1 + P2, d1 + d2, i, j, c) == PairCount(P1, d1, i, j, c) + PairCount(P2, d2, i, j, c)
  {
    HasColumnAppend(P1, P2, i);
    HasColumnAppend(P1, P2, j);
    if P1 == [] {
      assert P1 + P2 == P2;
      assert d1 + d2 == d2;
    } else {
      assert (P1 + P2)[0] == P1[0];
      assert (d1 + d2)[0] == d1[0];
      assert (P1 + P2)[1..] == P1[1..] + P2;
      assert (d1 + d2)[1..] == d1[1..] + d2;
      PairCountAppend(P1[1..], d1[1..], P2, d2, i, j, c);
    }
  }

  // ---------------------------------------------------------------------
  // Accumulating batches
  // ---------------------------------------------------------------------

  /** Two summaries of the same shape that agree cell by cell are equal. */
  lemma CountsExt(a: Counts, b: Counts, m: nat)
    requires a.HasShape(m) && b.HasShape(m)
    requires forall i, c :: 0 <= i < m && 0 <= c < 4 ==> a.m1[i][c] == b.m1[i][c]
    requires forall i, j, c :: 0 <= i < m && 0 <= j < m && 0 <= c < 8 ==> a.m2[i][j][c] == b.m2[i][j][c]
    requires a.caseN == b.caseN && a.controlN == b.controlN
    ensures a == b
  {
    forall i | 0 <= i < m ensures a.m1[i] == b.m1[i] {
    }
    assert a.m1 == b.m1;
    forall i | 0 <= i < m ensures a.m2[i] == b.m2[i] {
      forall j | 0 <= j < m ensures a.m2[i][j] == b.m2[i][j] {
      }
    }
    assert a.m2 == b.m2;
  }

  /** Summarising an empty batch gives zero summaries. */
  lemma EmptyBatchIsZero(m: nat)
    ensures BatchCounts([], [], m) == ZeroCounts(m)
  {
    CountsExt(BatchCounts([], [], m), ZeroCounts(m), m);
  }

  lemma AddCountsZero(a: Counts, m: nat)
    requires a.HasShape(m)
    ensures AddCounts(ZeroCounts(m), a, m) == a
  {
    CountsExt(AddCounts(ZeroCounts(m), a, m), a, m);
  }

  lemma AddCountsAssociative(a: Counts, b: Counts, c: Counts, m: nat)
    requires a.HasShape(m) && b.HasShape(m) && c.HasShape(m)
    ensures AddCounts(AddCounts(a, b, m), c, m) == AddCounts(a, AddCounts(b, c, m), m)
  {
    CountsExt(AddCounts(AddCounts(a, b, m), c, m), AddCounts(a, AddCounts(b, c, m), m), m);
  }

  lemma AddCountsCommutative(a: Counts, b: Counts, m: nat)
    requires a.HasShape(m) && b.HasShape(m)
    ensures AddCounts(a, b, m) == AddCounts(b, a, m)
  {
    CountsExt(AddCounts(a, b, m), AddCounts(b, a, m), m);
  }

  /** The summaries of two batches taken together are the sum of their summaries. */
  lemma BatchCountsAppend(P1: seq<seq<int>>, d1: seq<int>, P2: seq<seq<int>>, d2: seq<int>, m: nat)
    requires IsBatch(P1, d1, m) && IsBatch(P2, d2, m)
    ensures IsBatch(P1 + P2, d1 + d2, m)
    ensures BatchCounts(P1 + P2, d1 + d2, m) == AddCounts(BatchCounts(P1, d1, m), BatchCounts(P2, d2, m), m)
  {
    forall n | 0 <= n < |P1 + P2| ensures |(P1 + P2)[n]| == m {
      if n < |P1| {
        assert (P1 + P2)[n] == P1[n];
      } else {
        assert (P1 + P2)[n] == P2[n - |P1|];
      }
    }
    var lhs := BatchCounts(P1 + P2, d1 + d2, m);
    var rhs := AddCounts(BatchCounts(P1, d1, m), BatchCounts(P2, d2, m), m);
    forall i, c | 0 <= i < m && 0 <= c < 4 ensures lhs.m1[i][c] == rhs.m1[i][c] {
      PhenotypeCountAppend(P1, d1, P2, d2, i, c);
    }
    forall i, j, c | 0 <= i < m && 0 <= j < m && 0 <= c < 8 ensures lhs.m2[i][j][c] == rhs.m2[i][j][c] {
      PairCountAppend(P1, d1, P2, d2, i, j, c);
    }
    CountOutcomeAppend(d1, d2, true);
    CountOutcomeAppend(d1, d2, false);
    CountsExt(lhs, rhs, m);
  }

  /**
   * Adding batches one after another gives the summaries of all of them at
   * once: summarize(P2, d2, current=summarize(P1, d1, current=c)) equals
   * summarize(P1 ++ P2, d1 ++ d2, current=c).
   */
  lemma SummarizeIncremental(P1: seq<seq<int>>, d1: seq<int>, P2: seq<seq<int>>, d2: seq<int>, m: nat, current: Option<Counts>)
    requires IsBatch(P1, d1, m) && IsBatch(P2, d2, m)
    requires current.Some? ==> current.value.HasShape(m)
    ensures IsBatch(P1 + P2, d1 + d2, m)
    ensures Summarize(P2, d2, m, Some(Summarize(P1, d1, m, current))) == Summarize(P1 + P2, d1 + d2, m, current)
  {
    BatchCountsAppend(P1, d1, P2, d2, m);
    var base := if current.Some? then current.value else ZeroCounts(m);
    AddCountsAssociative(base, BatchCounts(P1, d1, m), BatchCounts(P2, d2, m), m);
  }

  /** The order in which two batches are added does not change the summaries. */
  lemma BatchOrderIrrelevant(P1: seq<seq<int>>, d1: seq<int>, P2: seq<seq<int>>, d2: seq<int>, m: nat, current: Option<Counts>)
    requires IsBatch(P1, d1, m) && IsBatch(P2, d2, m)
    requires current.Some? ==> current.value.HasShape(m)
    ensures Summarize(P2, d2, m, Some(Summarize(P1, d1, m, current)))
         == Summarize(P1, d1, m, Some(Summarize(P2, d2, m, current)))
  {
    var base := if current.Some? then current.value else ZeroCounts(m);
    var b1, b2 := BatchCounts(P1, d1, m), BatchCounts(P2, d2, m);
    AddCountsAssociative(base, b1, b2, m);
    AddCountsAssociative(base, b2, b1, m);
    AddCountsCommutative(b1, b2, m);
  }

  /** Summarising the same batch twice doubles every count. */
  lemma SummarizeTwiceDoubles(P: seq<seq<int>>, d: seq<int>, m: nat)
    requires IsBatch(P, d, m)
    ensures var once := Summarize(P, d, m, None);
            var twice := Summarize(P, d, m, Some(once));
            && (forall i, c :: 0 <= i < m && 0 <= c < 4 ==> twice.m1[i][c] == 2 * once.m1[i][c])
            && (forall i, j, c :: 0 <= i < m && 0 <= j < m && 0 <= c < 8 ==> twice.m2[i][j][c] == 2 * once.m2[i][j][c])
            && twice.caseN == 2 * once.caseN && twice.controlN == 2 * once.controlN
  {
  }

  /** Three samples that all have the phenotype, one case and two controls: the m2 row of (0, 0). */
  lemma ConstantPairBatch()
    ensures var counts := BatchCounts([[1], [1], [1]], [1, 0, 0], 1);
            && counts.m2[0][0] == [1, 2, 0, 0, 0, 0, 0, 0]
            && counts.caseN == 1 && counts.controlN == 2
  {
    var row := [1, 2, 0, 0, 0, 0, 0, 0];
    var P: seq<seq<int>> := [[1], [1], [1]];
    var d := [1, 0, 0];
    assert PairCount(P, d, 0, 0, 0) == 1 by {
      assert P[1..] == [[1], [1]] && P[2..] == [[1]] && P[3..] == [];
      assert d[1..] == [0, 0] && d[2..] == [0] && d[3..] == [];
    }
    assert PairCount(P, d, 0, 0, 1) == 2 by {
      assert P[1..] == [[1], [1]] && P[2..] == [[1]] && P[3..] == [];
      assert d[1..] == [0, 0] && d[2..] == [0] && d[3..] == [];
    }
    forall c | 2 <= c < 8 ensures PairCount(P, d, 0, 0, c) == 0 {
      assert PairTerm(1, 1, 1, c) == 0 && PairTerm(1, 1, 0, c) == 0;
      assert P[1..] == [[1], [1]] && P[2..] == [[1]] && P[3..] == [];
      assert d[1..] == [0, 0] && d[2..] == [0] && d[3..] == [];
      assert PairCount(P[3..], d[3..], 0, 0, c) == 0;
      assert PairCount(P[2..], d[2..], 0, 0, c) == 0;
      assert PairCount(P[1..], d[1..], 0, 0, c) == 0;
    }
    assert BatchCounts(P, d, 1).m2[0][0] == row;
    assert CountOutcome(d, true) == 1 && CountOutcome(d, false) == 2 by {
      assert d[1..] == [0, 0] && d[2..] == [0] && d[3..] == [];
    }
  }

  /**
   * Two samples that both have the single phenotype, one case and one
   * control: the m1 row of the phenotype is [1, 1, 0, 0].
   */
  lemma ConstantPhenotypeBatch()
    ensures var counts := BatchCounts([[1], [1]], [1, 0], 1);
            && counts.m1[0] == [1, 1, 0, 0]
            && counts.caseN == 1 && counts.controlN == 1
  {
    var row := [1, 1, 0, 0];
    var P: seq<seq<int>> := [[1], [1]];
    var d := [1, 0];
    forall c | 0 <= c < 4 ensures PhenotypeCount(P, d, 0, c) == row[c] {
      assert P[1..] == [[1]] && P[2..] == [];
      assert d[1..] == [0] && d[2..] == [];
      assert PhenotypeCount(P[2..], d[2..], 0, c) == 0;
      assert PhenotypeCount(P[1..], d[1..], 0, c) == PhenotypeTerm(1, 0, c);
      assert PhenotypeTerm(1, 1, c) + PhenotypeTerm(1, 0, c) == row[c];
    }
    assert BatchCounts(P, d, 1).m1[0] == row;
    assert CountOutcome(d, true) == 1 && CountOutcome(d, false) == 1 by {
      assert d[1..] == [0] && d[2..] == [];
    }
  }

  /** Cell c of m2 summed directly over the samples k.. of phenotype columns x and y and diagnoses z. */
  function PairTermsFrom(x: seq<int>, y: seq<int>, z: seq<int>, c: nat, k: nat): int
    requires |x| == |z| && |y| == |z| && c < 8
    decreases |x| - k
  {
    if k >= |x| then 0 else PairTerm(x[k], y[k], z[k], c) + PairTermsFrom(x, y, z, c, k + 1)
  }

  /** A suffix of an m2 sum depends only on the columns x and y of the two phenotypes and on the diagnoses. */
  lemma {:induction false} PairCountOfColumns(P: seq<seq<int>>, d: seq<int>, i: nat, j: nat, x: seq<int>, y: seq<int>, c: nat, k: nat)
    requires |P| == |d| && |x| == |P| && |y| == |P| && HasColumn(P, i) && HasColumn(P, j) && c < 8 && k <= |P|
    requires forall n :: k <= n < |P| ==> P[n][i] == x[n] && P[n][j] == y[n]
    ensures PairCount(P[k..], d[k..], i, j, c) == PairTermsFrom(x, y, d, c, k)
    decreases |P| - k
  {
    if k < |P| {
      assert P[k..][1..] == P[k + 1..] && d[k..][1..] == d[k + 1..];
      PairCountOfColumns(P, d, i, j, x, y, c, k + 1);
    }
  }

  /** The m2 row of the pair (i, j), given the batch's columns x and y of the two phenotypes. */
  lemma PairRowOfColumns(P: seq<seq<int>>, d: seq<int>, m: nat, i: nat, j: nat, x: seq<int>, y: seq<int>, row: seq<int>)
    requires IsBatch(P, d, m) && i < m && j < m && |x| == |P| && |y| == |P|
    requires forall n :: 0 <= n < |P| ==> P[n][i] == x[n] && P[n][j] == y[n]
    requires row == [PairTermsFrom(x, y, d, 0, 0), PairTermsFrom(x, y, d, 1, 0), PairTermsFrom(x, y, d, 2, 0), PairTermsFrom(x, y, d, 3, 0),
                     PairTermsFrom(x, y, d, 4, 0), PairTermsFrom(x, y, d, 5, 0), PairTermsFrom(x, y, d, 6, 0), PairTermsFrom(x, y, d, 7, 0)]
    ensures BatchCounts(P, d, m).m2[i][j] == row
  {
    assert P[0..] == P && d[0..] == d;
    forall c | 0 <= c < 8 ensures PairCount(P, d, i, j, c) == row[c] {
      PairCountOfColumns(P, d, i, j, x, y, c, 0);
    }
  }

  /** The eight m2 sums of the two columns of the six-sample batch below. */
  lemma TwoPhenotypeSums()
    ensures var x, y, d := [1, 0, 1, 0, 0, 0], [1, 0, 1, 1, 0, 0], [1, 1, 0, 0, 0, 0];
            [PairTermsFrom(x, y, d, 0, 0), PairTermsFrom(x, y, d, 1, 0), PairTermsFrom(x, y, d, 2, 0), PairTermsFrom(x, y, d, 3, 0),
             PairTermsFrom(x, y, d, 4, 0), PairTermsFrom(x, y, d, 5, 0), PairTermsFrom(x, y, d, 6, 0), PairTermsFrom(x, y, d, 7, 0)]
            == [1, 1, 0, 0, 0, 1, 1, 2]
  {
  }

  /**
   * Six samples over two phenotypes: both phenotypes in one case and one
   * control, the second alone in one control, neither in one case and two
   * controls. The samples are given row by row; this is the m2 row of the
   * pair (0, 1).
   */
  lemma TwoPhenotypePairRow(P: seq<seq<int>>, d: seq<int>)
    requires |P| == 6 && P[0] == [1, 1] && P[1] == [0, 0] && P[2] == [1, 1] && P[3] == [0, 1] && P[4] == [0, 0] && P[5] == [0, 0]
    requires d == [1, 1, 0, 0, 0, 0]
    ensures IsBatch(P, d, 2)
    ensures BatchCounts(P, d, 2).m2[0][1] == [1, 1, 0, 0, 0, 1, 1, 2]
  {
    assert IsBatch(P, d, 2);
    TwoPhenotypeSums();
    PairRowOfColumns(P, d, 2, 0, 1, [1, 0, 1, 0, 0, 0], [1, 0, 1, 1, 0, 0], [1, 1, 0, 0, 0, 1, 1, 2]);
  }

  /** The same six samples: the m2 row of (0, 1), the two m1 rows and the outcome counts. */
  lemma TwoPhenotypeBatchOf(P: seq<seq<int>>, d: seq<int>)
    requires |P| == 6 && P[0] == [1, 1] && P[1] == [0, 0] && P[2] == [1, 1] && P[3] == [0, 1] && P[4] == [0, 0] && P[5] == [0, 0]
    requires d == [1, 1, 0, 0, 0, 0]
    ensures IsBatch(P, d, 2)
    ensures var counts := BatchCounts(P, d, 2);
            && counts.m2[0][1] == [1, 1, 0, 0, 0, 1, 1, 2]
            && counts.m1 == [[1, 1, 1, 3], [1, 2, 1, 2]]
            && counts.caseN == 2 && counts.controlN == 4
  {
    TwoPhenotypePairRow(P, d);
    BatchFirstMarginal(P, d, 2, 0, 1);
    BatchSecondMarginal(P, d, 2, 0, 1);
    BatchRowTotals(P, d, 2, 0);
    assert |BatchCounts(P, d, 2).m1| == 2;
  }

  /** The six-sample batch above, as literals. */
  lemma TwoPhenotypeBatch()
    ensures IsBatch([[1, 1], [0, 0], [1, 1], [0, 1], [0, 0], [0, 0]], [1, 1, 0, 0, 0, 0], 2)
    ensures var counts := BatchCounts([[1, 1], [0, 0], [1, 1], [0, 1], [0, 0], [0, 0]], [1, 1, 0, 0, 0, 0], 2);
            && counts.m2[0][1] == [1, 1, 0, 0, 0, 1, 1, 2]
            && counts.m1 == [[1, 1, 1, 3], [1, 2, 1, 2]]
            && counts.caseN == 2 && counts.controlN == 4
  {
    TwoPhenotypeBatchOf([[1, 1], [0, 0], [1, 1], [0, 1], [0, 0], [0, 0]], [1, 1, 0, 0, 0, 0]);
  }

  /** The m1 cell c of seven samples with phenotype values x and diagnoses z, summed directly. */
  function SevenTerms(x: seq<int>, z: seq<int>, c: nat): int
    requires |x| == 7 && |z| == 7 && c < 4
  {
    PhenotypeTerm(x[0], z[0], c) + PhenotypeTerm(x[1], z[1], c) + PhenotypeTerm(x[2], z[2], c)
    + PhenotypeTerm(x[3], z[3], c) + PhenotypeTerm(x[4], z[4], c) + PhenotypeTerm(x[5], z[5], c)
    + PhenotypeTerm(x[6], z[6], c)
  }

  /**
   * The m1 row of phenotype i in a seven-sample batch, given the batch's
   * column x of phenotype i and its diagnoses z: each cell is the sum of the
   * seven samples' terms.
   */
  lemma PhenotypeRowOfSeven(P: seq<seq<int>>, d: seq<int>, m: nat, i: nat, x: seq<int>, z: seq<int>, row: seq<int>)
    requires |P| == 7 && IsBatch(P, d, m) && i < m && |x| == 7 && |z| == 7 && |row| == 4
    requires forall k :: 0 <= k < 7 ==> P[k][i] == x[k] && d[k] == z[k]
    requires row == [SevenTerms(x, z, 0), SevenTerms(x, z, 1), SevenTerms(x, z, 2), SevenTerms(x, z, 3)]
    ensures BatchCounts(P, d, m).m1[i] == row
  {
    forall c | 0 <= c < 4 ensures PhenotypeCount(P, d, i, c) == row[c] {
      assert PhenotypeCount(P[7..], d[7..], i, c) == 0;
      assert PhenotypeCount(P[6..], d[6..], i, c) == PhenotypeTerm(P[6][i], d[6], c) + PhenotypeCount(P[7..], d[7..], i, c);
      assert PhenotypeCount(P[5..], d[5..], i, c) == PhenotypeTerm(P[5][i], d[5], c) + PhenotypeCount(P[6..], d[6..], i, c);
      assert PhenotypeCount(P[4..], d[4..], i, c) == PhenotypeTerm(P[4][i], d[4], c) + PhenotypeCount(P[5..], d[5..], i, c);
      assert PhenotypeCount(P[3..], d[3..], i, c) == PhenotypeTerm(P[3][i], d[3], c) + PhenotypeCount(P[4..], d[4..], i, c);
      assert PhenotypeCount(P[2..], d[2..], i, c) == PhenotypeTerm(P[2][i], d[2], c) + PhenotypeCount(P[3..], d[3..], i, c);
      assert PhenotypeCount(P[1..], d[1..], i, c) == PhenotypeTerm(P[1][i], d[1], c) + PhenotypeCount(P[2..], d[2..], i, c);
    }
  }

  /** The m2 cell c of seven samples with phenotype values x and y and diagnoses z, summed directly. */
  function SevenPairTerms(x: seq<int>, y: seq<int>, z: seq<int>, c: nat): int
    requires |x| == 7 && |y| == 7 && |z| == 7 && c < 8
  {
    PairTerm(x[0], y[0], z[0], c) + PairTerm(x[1], y[1], z[1], c) + PairTerm(x[2], y[2], z[2], c)
    + PairTerm(x[3], y[3], z[3], c) + PairTerm(x[4], y[4], z[4], c) + PairTerm(x[5], y[5], z[5], c)
    + PairTerm(x[6], y[6], z[6], c)
  }

  /**
   * An m2 cell of a seven-sample batch, given the batch's columns x and y of
   * phenotypes i and j and its diagnoses z.
   */
  lemma PairCountOfSeven(P: seq<seq<int>>, d: seq<int>, m: nat, i: nat, j: nat, x: seq<int>, y: seq<int>, z: seq<int>, c: nat, v: int)
    requires |P| == 7 && IsBatch(P, d, m) && i < m && j < m && |x| == 7 && |y| == 7 && |z| == 7 && c < 8
    requires forall k :: 0 <= k < 7 ==> P[k][i] == x[k] && P[k][j] == y[k] && d[k] == z[k]
    requires v == SevenPairTerms(x, y, z, c)
    ensures BatchCounts(P, d, m).m2[i][j][c] == v
  {
    assert PairCount(P[7..], d[7..], i, j, c) == 0;
    assert PairCount(P[6..], d[6..], i, j, c) == PairTerm(P[6][i], P[6][j], d[6], c) + PairCount(P[7..], d[7..], i, j, c);
    assert PairCount(P[5..], d[5..], i, j, c) == PairTerm(P[5][i], P[5][j], d[5], c) + PairCount(P[6..], d[6..], i, j, c);
    assert PairCount(P[4..], d[4..], i, j, c) == PairTerm(P[4][i], P[4][j], d[4], c) + PairCount(P[5..], d[5..], i, j, c);
    assert PairCount(P[3..], d[3..], i, j, c) == PairTerm(P[3][i], P[3][j], d[3], c) + PairCount(P[4..], d[4..], i, j, c);
    assert PairCount(P[2..], d[2..], i, j, c) == PairTerm(P[2][i], P[2][j], d[2], c) + PairCount(P[3..], d[3..], i, j, c);
    assert PairCount(P[1..], d[1..], i, j, c) == PairTerm(P[1][i], P[1][j], d[1], c) + PairCount(P[2..], d[2..], i, j, c);
  }

  /** The seven samples of four phenotypes that the summarize tests of src/test/python/mf_test.py use. */
  const TestPhenotypes: seq<seq<int>> :=
    [[0, 0, 1, 1], [1, 0, 1, 1], [0, 0, 0, 0], [1, 1, 1, 1], [1, 1, 0, 0], [1, 0, 0, 1], [0, 1, 1, 0]]

  /** The diagnoses of those seven samples. */
  const TestDiagnoses: seq<int> := [0, 1, 0, 1, 0, 1, 1]

  /** The m1 matrix the tests expect. */
  const TestM1: seq<seq<int>> := [[3, 1, 1, 2], [2, 1, 2, 2], [3, 1, 1, 2], [3, 1, 1, 2]]

  /** The columns of the test batch: TestColumns[i][k] is phenotype i of sample k. */
  const TestColumns: seq<seq<int>> :=
    [[0, 1, 0, 1, 1, 1, 0], [0, 0, 0, 1, 1, 0, 1], [1, 1, 0, 1, 0, 0, 1], [1, 1, 0, 1, 0, 1, 0]]

  /** Row i of m1 for the test batch. */
  lemma TestPhenotypeRow(i: nat)
    requires i < 4
    ensures IsBatch(TestPhenotypes, TestDiagnoses, 4)
    ensures BatchCounts(TestPhenotypes, TestDiagnoses, 4).m1[i] == TestM1[i]
  {
    var P, d := TestPhenotypes, TestDiagnoses;
    assert IsBatch(P, d, 4);
    PhenotypeRowOfSeven(P, d, 4, i, TestColumns[i], d, TestM1[i]);
  }

  /** The m1 matrix of the test batch. */
  lemma TestPhenotypeRows()
    ensures IsBatch(TestPhenotypes, TestDiagnoses, 4)
    ensures BatchCounts(TestPhenotypes, TestDiagnoses, 4).m1 == TestM1
  {
    var m1 := BatchCounts(TestPhenotypes, TestDiagnoses, 4).m1;
    TestPhenotypeRow(0);
    TestPhenotypeRow(1);
    TestPhenotypeRow(2);
    TestPhenotypeRow(3);
    assert |m1| == 4;
  }

  /** Cell c of the m2 row of the pair (i, j) for the test batch. */
  lemma TestPairCell(i: nat, j: nat, c: nat)
    requires i < 4 && j < 4 && c < 8
    ensures IsBatch(TestPhenotypes, TestDiagnoses, 4)
    ensures BatchCounts(TestPhenotypes, TestDiagnoses, 4).m2[i][j][c]
         == SevenPairTerms(TestColumns[i], TestColumns[j], TestDiagnoses, c)
  {
    var P, d := TestPhenotypes, TestDiagnoses;
    assert IsBatch(P, d, 4);
    PairCountOfSeven(P, d, 4, i, j, TestColumns[i], TestColumns[j], d, c, SevenPairTerms(TestColumns[i], TestColumns[j], d, c));
  }

  /** The four m2 cells of the test batch that the pair test checks. */
  lemma TestPairCells()
    ensures IsBatch(TestPhenotypes, TestDiagnoses, 4)
    ensures var m2 := BatchCounts(TestPhenotypes, TestDiagnoses, 4).m2;
            m2[0][1][0] == 1 && m2[0][2][5] == 1 && m2[0][3][0] == 3 && m2[1][2][6] == 1
  {
    TestPairCell(0, 1, 0);
    TestPairCell(0, 2, 5);
    TestPairCell(0, 3, 0);
    TestPairCell(1, 2, 6);
  }

  /**
   * The test batch summarised on its own: four cases, three controls and
   * the expected m1 rows.
   */
  lemma TestBatchCounts()
    ensures IsBatch(TestPhenotypes, TestDiagnoses, 4)
    ensures var counts := BatchCounts(TestPhenotypes, TestDiagnoses, 4);
            && counts.caseN == 4 && counts.controlN == 3
            && counts.m1 == TestM1
  {
    var P, d := TestPhenotypes, TestDiagnoses;
    assert IsBatch(P, d, 4);
    var counts := BatchCounts(P, d, 4);
    TestPhenotypeRows();
    BatchRowTotals(P, d, 4, 0);
  }

  /**
   * summarize on the test batch and then again on the same batch with the
   * first result as `current`: 4 cases, 3 controls and the expected m1, then
   * 8 cases, 6 controls and twice that m1.
   */
  lemma TestOutcome()
    ensures IsBatch(TestPhenotypes, TestDiagnoses, 4)
    ensures var current := Summarize(TestPhenotypes, TestDiagnoses, 4, None);
            var updated := Summarize(TestPhenotypes, TestDiagnoses, 4, Some(current));
            && current.caseN == 4 && current.controlN == 3 && current.m1 == TestM1
            && updated.caseN == 8 && updated.controlN == 6
            && forall i, c :: 0 <= i < 4 && 0 <= c < 4 ==> updated.m1[i][c] == 2 * TestM1[i][c]
  {
    var P, d := TestPhenotypes, TestDiagnoses;
    TestBatchCounts();
    AddCountsZero(BatchCounts(P, d, 4), 4);
    SummarizeTwiceDoubles(P, d, 4);
  }
}
