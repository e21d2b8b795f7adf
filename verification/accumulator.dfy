/**
 * The Synergy accumulator of src/main/python/mf.py: one disease, a fixed
 * list of phenotype labels, and the running joint counts m1, m2, case_N and
 * control_N that add_batch folds new samples into.
 *
 * The ghost fields `samples` and `outcomes` record every row and diagnosis
 * added so far; the invariant Valid() says the four counters are exactly
 * the summaries of that history, so each call to AddBatch is proved to keep
 * the counters equal to the summaries of all samples ever added.
 *
 * PairwiseSynergy computes what mf.py computes: the unmasked single
 * information and the pair information with the repeated diagnosis
 * marginal, and a ZeroDivisionError while case_N and control_N are still
 * the Python integers the constructor set. CorrectedPairwiseSynergy is the
 * evidently intended computation, and only it is symmetric.
 */
module Accumulator {
  import opened Wrappers
  import opened JointCounts
  import opened MutualInformation

  /** m2[j][i] is m2[i][j] with the phenotype order swapped, for the summaries of any batch. */
  lemma BatchCountsTranspose(P: seq<seq<int>>, d: seq<int>, m: nat, i: nat, j: nat)
    requires IsBatch(P, d, m) && i < m && j < m
    ensures BatchCounts(P, d, m).m2[j][i] == SwapRow(BatchCounts(P, d, m).m2[i][j])
  {
    var counts := BatchCounts(P, d, m);
    assert HasColumn(P, i) && HasColumn(P, j);
    forall k | 0 <= k < 8 ensures counts.m2[j][i][k] == SwapRow(counts.m2[i][j])[k] {
      var c := SwapPairCell(k);
      PairTranspose(P, d, i, j, c);
    }
  }

  /** On 0/1 samples every m1 row of a batch is consistent with its case and control counts. */
  lemma BinaryBatchConsistent(P: seq<seq<int>>, d: seq<int>, m: nat)
    requires IsBatch(P, d, m) && IsBinaryMatrix(P) && IsBinary(d)
    ensures var counts := BatchCounts(P, d, m);
            ConsistentRows(counts.m1, counts.caseN, counts.controlN)
  {
    var counts := BatchCounts(P, d, m);
    forall i | 0 <= i < m ensures ConsistentRow(counts.m1[i], counts.caseN, counts.controlN) {
      assert HasColumn(P, i);
      BatchRowTotals(P, d, m, i);
      forall c | 0 <= c < 4 ensures counts.m1[i][c] >= 0 {
        PhenotypeCountNonNegative(P, d, i, c);
      }
    }
  }

  /**
   * With the corrected formulas: given m2 rows related by the transposition,
   * the pair informations form a symmetric matrix and so does the synergy.
   */
  lemma SynergyOfTransposedCountsSymmetric(m1: seq<seq<int>>, m2: seq<seq<seq<int>>>, caseN: int, controlN: int, log2: real -> real)
    requires forall i :: 0 <= i < |m1| ==> |m1[i]| == 4
    requires |m2| == |m1| && forall i :: 0 <= i < |m2| ==> |m2[i]| == |m1|
    requires forall i, j :: 0 <= i < |m2| && 0 <= j < |m2| ==> |m2[i][j]| == 8
    requires forall i, j :: 0 <= i < |m2| && 0 <= j < |m2| ==> m2[j][i] == SwapRow(m2[i][j])
    ensures var II := MIDiagnosisPhenotypePair(m2, caseN, controlN, log2);
            IsSquare(II, |m1|) && Symmetric(II)
            && Symmetric(SynergyMatrix(MIDiagnosisPhenotype(m1, caseN, controlN, log2), II))
  {
    var II := MIDiagnosisPhenotypePair(m2, caseN, controlN, log2);
    forall i, j | 0 <= i < |m2| && 0 <= j < |m2| ensures II[i][j] == II[j][i] {
      var row := m2[i][j];
      assert m2[j][i] == SwapRow(row);
      PairMISymmetric(row, caseN, controlN, log2);
      assert II[j][i] == PairMI(SwapRow(row), caseN, controlN, log2);
    }
    SynergySymmetric(MIDiagnosisPhenotype(m1, caseN, controlN, log2), II);
  }

  /** The exception pairwise_synergy raises on an accumulator no batch was added to. */
  datatype SynergyError = ZeroDivisionError

  /**
   * The synergy pairwise_synergy returns as written, on the six samples of
   * JointCounts.TwoPhenotypeBatch: S[0][1] and S[1][0] are both numbers and
   * differ by 1/6 bit, so the matrix is not symmetric.
   */
  lemma AsWrittenSynergyAsymmetric(log2: real -> real)
    requires log2(1.0) == 0.0 && log2(3.0) == log2(1.5) + 1.0
    ensures IsBatch([[1, 1], [0, 0], [1, 1], [0, 1], [0, 0], [0, 0]], [1, 1, 0, 0, 0, 0], 2)
    ensures var counts := BatchCounts([[1, 1], [0, 0], [1, 1], [0, 1], [0, 0], [0, 0]], [1, 1, 0, 0, 0, 0], 2);
            && ConsistentRows(counts.m1, counts.caseN, counts.controlN)
            && var S := SynergyMatrix(MIDiagnosisPhenotypeAsWritten(counts.m1, counts.caseN, counts.controlN, log2),
                                      MIDiagnosisPhenotypePairAsWritten(counts.m2, counts.caseN, counts.controlN, log2));
               S[0][1].Num? && S[1][0].Num? && S[0][1].r - S[1][0].r == -1.0 / 6.0
  {
    AsWrittenSynergyAsymmetricOf([[1, 1], [0, 0], [1, 1], [0, 1], [0, 0], [0, 0]], [1, 1, 0, 0, 0, 0], log2);
  }

  /** The same six samples, given row by row. */
  lemma AsWrittenSynergyAsymmetricOf(P: seq<seq<int>>, d: seq<int>, log2: real -> real)
    requires |P| == 6 && P[0] == [1, 1] && P[1] == [0, 0] && P[2] == [1, 1] && P[3] == [0, 1] && P[4] == [0, 0] && P[5] == [0, 0]
    requires d == [1, 1, 0, 0, 0, 0]
    requires log2(1.0) == 0.0 && log2(3.0) == log2(1.5) + 1.0
    ensures IsBatch(P, d, 2)
    ensures var counts := BatchCounts(P, d, 2);
            && ConsistentRows(counts.m1, counts.caseN, counts.controlN)
            && var S := SynergyMatrix(MIDiagnosisPhenotypeAsWritten(counts.m1, counts.caseN, counts.controlN, log2),
                                      MIDiagnosisPhenotypePairAsWritten(counts.m2, counts.caseN, counts.controlN, log2));
               S[0][1].Num? && S[1][0].Num? && S[0][1].r - S[1][0].r == -1.0 / 6.0
  {
    TwoPhenotypeBatchOf(P, d);
    var counts := BatchCounts(P, d, 2);
    var row := [1, 1, 0, 0, 0, 1, 1, 2];
    BatchCountsTranspose(P, d, 2, 0, 1);
    assert counts.m2[1][0] == SwapRow(row);
    assert ConsistentRow(counts.m1[0], 2, 4) && ConsistentRow(counts.m1[1], 2, 4);
    var I := MIDiagnosisPhenotypeAsWritten(counts.m1, 2, 4, log2);
    var II := MIDiagnosisPhenotypePairAsWritten(counts.m2, 2, 4, log2);
    assert I[0].Num? && I[1].Num?;
    PairOrderFinding(log2);
    SynergyCell(I, II, 0, 1);
    SynergyCell(I, II, 1, 0);
  }

  class Synergy {
    var disease: string
    var phenotypeLabel: seq<string>
    var m1: seq<seq<int>>
    var m2: seq<seq<seq<int>>>
    var caseN: int
    var controlN: int
    /**
     * Whether add_batch has run. Until it has, case_N and control_N are the
     * Python integers 0 from the constructor, and case_N / N raises
     * ZeroDivisionError; afterwards they are numpy values, and 0 / 0 is NaN.
     */
    var batchAdded: bool
    /** Every sample row added so far, in order. */
    ghost var samples: seq<seq<int>>
    /** The diagnosis of every sample added so far, in order. */
    ghost var outcomes: seq<int>

    /**
     * The counters are the summaries of every sample added so far, over the
     * M labelled phenotypes; the samples are 0/1, as the source documents.
     */
    ghost predicate Valid()
      reads this
    {
      && IsBatch(samples, outcomes, |phenotypeLabel|)
      && IsBinaryMatrix(samples) && IsBinary(outcomes)
      && Counts(m1, m2, caseN, controlN) == BatchCounts(samples, outcomes, |phenotypeLabel|)
      && (!batchAdded ==> samples == [])
    }

    /** The four counters as one summary. */
    function Current(): Counts
      reads this
    {
      Counts(m1, m2, caseN, controlN)
    }

    /** A new accumulator for `disease` over the given phenotypes, with all counts at zero. */
    constructor (disease: string, phenotypeList: seq<string>)
      ensures Valid()
      ensures this.disease == disease && phenotypeLabel == phenotypeList
      ensures Current() == ZeroCounts(|phenotypeList|)
      ensures !batchAdded
      ensures samples == [] && outcomes == []
    {
      this.disease := disease;
      phenotypeLabel := phenotypeList;
      var zero := ZeroCounts(|phenotypeList|);
      m1 := zero.m1;
      m2 := zero.m2;
      caseN := 0;
      controlN := 0;
      batchAdded := false;
      samples := [];
      outcomes := [];
      EmptyBatchIsZero(|phenotypeList|);
    }

    /**
     * set_phenotype_label: replaces the labels when the new list has as many
     * entries as the old one; otherwise the source's assertion fails and
     * nothing changes.
     */
    method SetPhenotypeLabel(phenotypeList: seq<string>) returns (ok: bool)
      requires Valid()
      modifies this`phenotypeLabel
      ensures Valid()
      ensures ok <==> |phenotypeList| == |old(phenotypeLabel)|
      ensures phenotypeLabel == if ok then phenotypeList else old(phenotypeLabel)
    {
      if |phenotypeList| != |phenotypeLabel| {
        return false;
      }
      phenotypeLabel := phenotypeList;
      return true;
    }

    /** get_case_count: the number of cases among all samples added. */
    function CaseCount(): (r: int)
      reads this
      requires Valid()
      ensures r == SummarizeDiagnosis(outcomes).0
    {
      caseN
    }

    /** get_control_count: the number of controls among all samples added. */
    function ControlCount(): (r: int)
      reads this
      requires Valid()
      ensures r == SummarizeDiagnosis(outcomes).1
    {
      controlN
    }

    /** get_sample_size: case_N + control_N, which is the number of samples added. */
    function SampleSize(): (r: int)
      reads this
      requires Valid()
      ensures r == |outcomes|
    {
      caseN + controlN
    }

    /**
     * add_batch: folds an N x M batch of 0/1 phenotypes and its N 0/1
     * diagnoses into the counters. A batch whose rows and diagnoses differ in
     * number fails in numpy before anything is assigned; so, in this model,
     * does a batch whose rows do not have M columns (numpy broadcasts some of
     * those instead, which the model does not follow). A failed call leaves
     * the accumulator as it was.
     */
    method AddBatch(P: seq<seq<int>>, d: seq<int>) returns (ok: bool)
      requires Valid()
      requires IsBinaryMatrix(P) && IsBinary(d)
      modifies this`m1, this`m2, this`caseN, this`controlN, this`batchAdded, this`samples, this`outcomes
      ensures Valid()
      ensures ok <==> IsBatch(P, d, |phenotypeLabel|)
      ensures ok ==> Current() == Summarize(P, d, |phenotypeLabel|, Some(old(Current())))
      ensures ok ==> batchAdded && samples == old(samples) + P && outcomes == old(outcomes) + d
      ensures !ok ==> Current() == old(Current()) && batchAdded == old(batchAdded)
      ensures !ok ==> samples == old(samples) && outcomes == old(outcomes)
    {
      var m := |phenotypeLabel|;
      if !(|P| == |d| && forall n :: 0 <= n < |P| ==> |P[n]| == m) {
        return false;
      }
      var next := Summarize(P, d, m, Some(Current()));
      BatchCountsAppend(samples, outcomes, P, d, m);
      m1, m2, caseN, controlN := next.m1, next.m2, next.caseN, next.controlN;
      batchAdded := true;
      samples := samples + P;
      outcomes := outcomes + d;
      return true;
    }

    /**
     * pairwise_synergy as written: ZeroDivisionError before any batch;
     * otherwise S = II - I[i] - I[j] with the unmasked I and the as-written
     * II. A synergy is NaN exactly when there are no samples or either
     * phenotype's m1 row has an empty cell.
     */
    method PairwiseSynergy(log2: real -> real) returns (r: Result<seq<seq<Value>>, SynergyError>)
      requires Valid()
      ensures r.Err? <==> !batchAdded
      ensures r.Err? ==> r.error == ZeroDivisionError
      ensures r.Ok? ==> ConsistentRows(m1, caseN, controlN) && IsSquare(r.value, |phenotypeLabel|)
      ensures r.Ok? ==> r.value == SynergyMatrix(MIDiagnosisPhenotypeAsWritten(m1, caseN, controlN, log2),
                                                 MIDiagnosisPhenotypePairAsWritten(m2, caseN, controlN, log2))
      ensures r.Ok? ==> forall i, j :: 0 <= i < |r.value| && 0 <= j < |r.value| ==>
                          (r.value[i][j] == NaN <==> outcomes == [] || 0 in m1[i] || 0 in m1[j])
    {
      if !batchAdded {
        return Err(ZeroDivisionError);
      }
      var m := |phenotypeLabel|;
      BinaryBatchConsistent(samples, outcomes, m);
      var I := MIDiagnosisPhenotypeAsWritten(m1, caseN, controlN, log2);
      var II := MIDiagnosisPhenotypePairAsWritten(m2, caseN, controlN, log2);
      var S := SynergyMatrix(I, II);
      AsWrittenSynergyNaN(m1, m2, caseN, controlN, log2);
      return Ok(S);
    }

    /**
     * The evidently intended pairwise synergy: masked single information and
     * the pair information with the diagnosis marginal in cell order. It is
     * symmetric in the two phenotypes, and NaN everywhere while no sample has
     * been added.
     */
    method CorrectedPairwiseSynergy(log2: real -> real) returns (S: seq<seq<Value>>)
      requires Valid()
      ensures IsSquare(S, |phenotypeLabel|)
      ensures S == SynergyMatrix(MIDiagnosisPhenotype(m1, caseN, controlN, log2), MIDiagnosisPhenotypePair(m2, caseN, controlN, log2))
      ensures Symmetric(S)
      ensures outcomes == [] ==> forall i, j :: 0 <= i < |S| && 0 <= j < |S| ==> S[i][j] == NaN
    {
      var m := |phenotypeLabel|;
      var I := MIDiagnosisPhenotype(m1, caseN, controlN, log2);
      var II := MIDiagnosisPhenotypePair(m2, caseN, controlN, log2);
      forall i, j | 0 <= i < m && 0 <= j < m ensures m2[j][i] == SwapRow(m2[i][j]) {
        BatchCountsTranspose(samples, outcomes, m, i, j);
      }
      SynergyOfTransposedCountsSymmetric(m1, m2, caseN, controlN, log2);
      S := SynergyMatrix(I, II);
      if outcomes == [] {
        NoSamplesNoSynergy(m1, II, caseN, controlN, log2);
      }
    }
  }
}
