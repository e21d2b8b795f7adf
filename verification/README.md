# MIMIC_HPO core, modelled in Dafny

MIMIC_HPO turns MIMIC-III lab results and radiology notes into Human
Phenotype Ontology (HPO) terms. It then measures how much pairs of
phenotypes tell about a diagnosis together, beyond what each tells alone.
That excess is their *synergy*, derived from mutual information.

This project models the computational core of the repository:

- **Joint counts** (`joint_counts.dfy`). These are the `summarize_*` functions of `mf.py`. For a batch of 0/1 phenotype profiles `P` and diagnoses `d` they give:
  - the case and control counts;
  - the M x 4 matrix `m1` of (phenotype, diagnosis) outcomes;
  - the M x M x 8 tensor `m2` of (phenotype, phenotype, diagnosis) outcomes.

  `summarize` folds a batch into running counts.
- **Mutual information and synergy** (`information.dfy`). These are `mf_diagnosis_phenotype`, `mf_diagnosis_phenotype_pair` and `synergy` of `mf.py`.
  - Floats are modelled as reals, with numpy's NaN as its own value.
  - `log2` is a parameter.
- **The `Synergy` accumulator** (`accumulator.dfy`). It is a class whose counters `add_batch` reassigns. A ghost history of every sample added ties the counters to the pure summaries.
- **Rank-based p-values** (`p_values.dfy`). These are `matrix_searchsorted` (a loop filling a 2-D array), `p_value_estimate`, and the rates `SynergyRandomizer.p_value` simulates from (`mf_random.py`).
- **The synergy tree** (`key_sets.dfy`, `synergy_tree.dfy`). `subsets`, `complement_pairs`, `populate_syn_tree` and the `SynergyTree` class come from `synergy_tree.py`. A tree node holds a set of variables. Its children are the split of that set with the largest summed mutual information, and its synergy is the set's own information minus that sum.
- **The ancestor test of the HPO graph** (`hpo_graph.dfy`). This is `hpoutil.py`, a recursive search along successor edges.
- **Three lab-result converters** (`lab_codes.dfy`, `lab_events.dfy`, `service_lab_events.dfy`, `jhu_lab.dfy`).
  - They map a numeric or textual lab value to an interpretation code of the HL7 FHIR observation-interpretation code system. Quantitative tests get L, H or N; ordinal tests get NEG or POS.
  - The annotation of the test's LOINC code then maps that code to an HPO outcome.
  - The LOINC types of the loinc2hpo library are abstract values and maps.
- **The per-unit running mean of `LabSummary.java`** (`lab_summary.dfy`). It is a class whose maps `add` and `put` update in place.
- **The final-report extraction for radiology notes** (`radiology.dfy`). This is `NoteEventFactory.get_radiology_final_report`, with the `java.lang.String` operations it uses modelled in `text.dfy`.

## Model

| member | source | states |
|---|---|---|
| JointCounts.BatchCounts | src/main/python/mf.py:104-183 | the summaries of one batch have shape M x 4 and M x M x 8, and case_N + control_N is the batch size |
| JointCounts.Summarize | src/main/python/mf.py:185-235 | summarize keeps the M x 4 / M x M x 8 shape of the running summaries |
| JointCounts.OutcomeTotal | src/main/python/mf.py:104-112 | case_N + control_N == len(d), for any integer vector d |
| JointCounts.OutcomeCountsBinary | src/main/python/mf.py:104-112 | on 0/1 diagnoses case_N counts the ones and control_N the zeros |
| JointCounts.PhenotypeRowTotals | src/main/python/mf.py:126-132 | in m1, cells ++ and -+ add up to case_N, cells +- and -- to control_N, so every row sums to N |
| JointCounts.PhenotypePresentColumns | src/main/python/mf.py:126-132 | on 0/1 phenotypes, m1 cells 0 and 1 add up to the number of samples that have the phenotype |
| JointCounts.PhenotypeCountAppend | src/main/python/mf.py:128-131 | an m1 cell of two batches together is the sum of the two batches' cells |
| JointCounts.PairFirstMarginal | src/main/python/mf.py:147-183 | summing phenotype j out of m2[i][j] gives m1[i] |
| JointCounts.PairSecondMarginal | src/main/python/mf.py:147-183 | summing phenotype i out of m2[i][j] gives m1[j] |
| JointCounts.PairTotal | src/main/python/mf.py:147-183 | the eight cells of every m2[i][j] sum to N |
| JointCounts.PairTranspose | src/main/python/mf.py:152-181 | m2[j][i] is m2[i][j] with cells 2 and 4, and 3 and 5, swapped |
| JointCounts.PairDiagonal | src/main/python/mf.py:152-181 | on 0/1 phenotypes, cells 2-5 of m2[i][i] are 0 and the other cells repeat m1[i] |
| JointCounts.PairCountAppend | src/main/python/mf.py:152-181 | an m2 cell of two batches together is the sum of the two batches' cells |
| JointCounts.EmptyBatchIsZero | src/main/python/mf.py:198-220 | an empty batch has the zero summaries summarize starts from |
| JointCounts.AddCountsAssociative | src/main/python/mf.py:222-233 | adding summaries is associative |
| JointCounts.AddCountsCommutative | src/main/python/mf.py:222-233 | adding summaries is commutative |
| JointCounts.BatchCountsAppend | src/main/python/mf.py:222-233 | the summaries of two concatenated batches are the sum of their summaries |
| JointCounts.SummarizeIncremental | src/main/python/mf.py:185-235 | summarize(B2, current=summarize(B1, c)) equals summarize(B1 ++ B2, c) |
| JointCounts.BatchOrderIrrelevant | src/main/python/mf.py:185-235 | adding two batches in either order gives the same summaries |
| JointCounts.SummarizeTwiceDoubles | src/main/python/mf.py:185-235 | feeding the same batch twice doubles m1, m2, case_N and control_N |
| JointCounts.ConstantPhenotypeBatch | src/main/python/mf.py:126-132 | two samples with the phenotype, one case and one control, give the m1 row [1, 1, 0, 0] |
| JointCounts.ConstantPairBatch | src/main/python/mf.py:147-183 | three samples with the phenotype, one case and two controls, give the m2 row [1, 2, 0, 0, 0, 0, 0, 0] for the pair (0, 0) |
| JointCounts.BatchFirstMarginal | src/main/python/mf.py:126-183 | in the summaries of any batch, m1[i] is m2[i][j] with phenotype j summed out |
| JointCounts.BatchSecondMarginal | src/main/python/mf.py:126-183 | in the summaries of any batch, m1[j] is m2[i][j] with phenotype i summed out |
| JointCounts.BatchRowTotals | src/main/python/mf.py:104-132 | in the summaries of any batch, the case cells of m1[i] add up to case_N and the control cells to control_N |
| JointCounts.TwoPhenotypeBatch | src/main/python/mf.py:104-183 | six samples with phenotypes [[1,1],[0,0],[1,1],[0,1],[0,0],[0,0]] and diagnoses [1,1,0,0,0,0] give m2[0][1] = [1,1,0,0,0,1,1,2], m1 = [[1,1,1,3],[1,2,1,2]], 2 cases and 4 controls |
| JointCounts.TestPhenotypeRows | src/test/python/mf_test.py:30-35 | the seven test samples give m1 = [[3,1,1,2],[2,1,2,2],[3,1,1,2],[3,1,1,2]] |
| JointCounts.TestPairCells | src/test/python/mf_test.py:38-44 | the seven test samples give m2[0,1,0] = 1, m2[0,2,5] = 1, m2[0,3,0] = 3 and m2[1,2,6] = 1 |
| JointCounts.TestBatchCounts | src/test/python/mf_test.py:24-35 | the seven test samples give 4 cases, 3 controls and the expected m1 |
| JointCounts.TestOutcome | src/test/python/mf_test.py:47-64 | summarize of the test batch gives 4 cases, 3 controls and the expected m1; summarizing it again onto that result gives 8, 6 and twice m1 |
| MutualInformation.PhenotypeMIAsWritten | src/main/python/mf.py:246-257 | the unmasked sum is NaN exactly when N is 0 or one m1 cell is empty |
| MutualInformation.UnmaskedCell | src/main/python/mf.py:248-256 | an unmasked cell term is NaN exactly when its cell is empty |
| MutualInformation.PhenotypeMI | src/main/python/mf.py:246-257 | with empty cells masked, the phenotype information is NaN exactly when N is 0 |
| MutualInformation.PhenotypeMIAgreesWithoutEmptyCells | src/main/python/mf.py:246-257 | when no cell is empty, the masked and unmasked sums agree |
| MutualInformation.PhenotypeCellMarginalCounts | src/main/python/mf.py:249-255 | the marginal product of an m1 cell is (diagnosis count / N) times (phenotype count / N) |
| MutualInformation.PhenotypeMarginalPositive | src/main/python/mf.py:249-256 | in a consistent m1 row, every non-empty cell has a positive marginal product |
| MutualInformation.IndependentPhenotypeHasNoInformation | src/main/python/mf.py:246-257 | a phenotype independent of the diagnosis carries 0 bits, given log2(1) = 0 |
| MutualInformation.MIDiagnosisPhenotypeAsWritten | src/main/python/mf.py:238-257 | mf_diagnosis_phenotype as written: one unmasked entry per m1 row, NaN exactly when N is 0 or the row has an empty cell |
| MutualInformation.MIDiagnosisPhenotype | src/main/python/mf.py:238-257 | the corrected mf_diagnosis_phenotype (empty cells masked): one entry per m1 row, each the masked information of that row |
| MutualInformation.PairMIAsWritten | src/main/python/mf.py:268-279 | the masked pair sum with the diagnosis marginal as written is NaN exactly when N is 0 |
| MutualInformation.PairMI | src/main/python/mf.py:268-279 | the masked pair sum, with the diagnosis marginal following the cell order, is NaN exactly when N is 0 |
| MutualInformation.SwapRow | src/main/python/mf.py:152-181 | the m2 row of (j, i) holds cell c of (i, j) at the swapped cell |
| MutualInformation.PairMISymmetric | src/main/python/mf.py:268-279 | with the corrected diagnosis marginal, the pair information does not depend on the order of the two phenotypes (the as-written one does: PairOrderFinding) |
| MutualInformation.SameCellTerm | src/main/python/mf.py:272-278 | a cell's term depends only on its count, the count of its phenotype-pair outcome and its diagnosis |
| MutualInformation.IndependentPairHasNoInformation | src/main/python/mf.py:268-279 | a pair independent of the diagnosis carries 0 bits, given log2(1) = 0 |
| MutualInformation.MIDiagnosisPhenotypePairAsWritten | src/main/python/mf.py:260-279 | mf_diagnosis_phenotype_pair as written: one entry per m2 row with the repeated diagnosis marginal, NaN exactly when N is 0 |
| MutualInformation.MIDiagnosisPhenotypePair | src/main/python/mf.py:260-279 | the corrected mf_diagnosis_phenotype_pair: one entry per m2 row, each the pair information with the marginal in cell order |
| MutualInformation.SynergyMatrix | src/main/python/mf.py:282-301 | S is M x M |
| MutualInformation.SynergyCell | src/main/python/mf.py:298-299 | S[i][j] is a number exactly when II[i][j], I[i] and I[j] are, and then it equals II[i][j] - I[i] - I[j] |
| MutualInformation.SynergySymmetric | src/main/python/mf.py:298-299 | S is symmetric when II is; when no I is NaN, the converse holds too |
| MutualInformation.NoSamplesNoSynergy | src/main/python/mf.py:238-301 | with N == 0 every single information is NaN, and so is every synergy |
| MutualInformation.AsWrittenSynergyNaN | src/main/python/mf.py:246-301 | with the as-written I and II, a synergy is NaN exactly when N is 0 or one of the two m1 rows has an empty cell |
| MutualInformation.PairDiagnosisMarginalFinding | src/main/python/mf.py:272-273 | on a constant phenotype pair, the as-written marginal gives 2/3 bit and the corrected one gives 0 |
| MutualInformation.PhenotypeMaskingFinding | src/main/python/mf.py:256 | on two samples that both have the phenotype, the unmasked sum is NaN and the masked one is 0 |
| MutualInformation.PairOrderFinding | src/main/python/mf.py:272-273 | on the m2 row [1,1,0,0,0,1,1,2] with 2 cases and 4 controls, the as-written pair information of (i, j) is 1/6 bit below that of (j, i); the corrected one is the same in both orders |
| Accumulator.BatchCountsTranspose | src/main/python/mf.py:152-181 | in the summaries of any batch, m2[j][i] is the swapped row of m2[i][j] |
| Accumulator.BinaryBatchConsistent | src/main/python/mf.py:115-132 | on 0/1 samples every m1 row is non-negative, with case cells adding up to case_N and control cells to control_N |
| Accumulator.SynergyOfTransposedCountsSymmetric | src/main/python/mf.py:93-101 | with the corrected formulas, transposition-related m2 rows give a symmetric II and a symmetric synergy matrix |
| Accumulator.AsWrittenSynergyAsymmetric | src/main/python/mf.py:93-101 | on the six samples of TwoPhenotypeBatch, the as-written synergy S[0][1] is 1/6 bit below S[1][0], both numbers |
| Accumulator.Synergy.constructor | src/main/python/mf.py:19-37 | a new accumulator has zero counts of shape M x 4 and M x M x 8 and the given labels |
| Accumulator.Synergy.SetPhenotypeLabel | src/main/python/mf.py:39-46 | labels are replaced exactly when the new list has the same length; otherwise the assertion fails and nothing changes |
| Accumulator.Synergy.CaseCount | src/main/python/mf.py:62-67 | the case count is the number of cases among all samples added |
| Accumulator.Synergy.ControlCount | src/main/python/mf.py:69-74 | the control count is the number of controls among all samples added |
| Accumulator.Synergy.SampleSize | src/main/python/mf.py:76-81 | case_N + control_N is the number of samples added |
| Accumulator.Synergy.AddBatch | src/main/python/mf.py:83-91 | a batch with as many rows as diagnoses, each of M columns, is folded in by summarize and appended to the history; any other batch changes nothing |
| Accumulator.Synergy.PairwiseSynergy | src/main/python/mf.py:93-101 | ZeroDivisionError exactly when no batch was added; otherwise the M x M synergy of the as-written I and II of the current counts, NaN exactly when there are no samples or one of the two m1 rows has an empty cell |
| Accumulator.Synergy.CorrectedPairwiseSynergy | src/main/python/mf.py:93-101 | the intended pairwise synergy, with masked I and the marginal in cell order: symmetric, and all NaN before any sample |
| PValues.CountAtMostSplits | src/main/python/mf_random.py:45-53 | the 'right' rank is the 'left' rank plus the number of equal scores |
| PValues.CountBeforeMonotone | src/main/python/mf_random.py:45-53 | a rank never decreases as the query grows |
| PValues.SearchSorted | src/main/python/mf_random.py:71 | a binary search on a sorted sequence returns the number of elements before the insertion point, 'left' or 'right' |
| PValues.SortReals | src/main/python/mf_random.py:42 | np.sort gives a sorted permutation |
| PValues.SortKeepsCount | src/main/python/mf_random.py:42-53 | sorting does not change a rank |
| PValues.SortSorted | src/main/python/mf_random.py:42 | sorting a sorted sequence gives it back |
| PValues.SearchsortedGrid | src/main/python/mf_random.py:58-72 | every rank is at most the depth of the distribution |
| PValues.MatrixSearchsorted | src/main/python/mf_random.py:58-72 | the shapes must agree; otherwise every cell of the fresh array is the rank of query[i][j] in ordered[i][j] |
| PValues.SortCube | src/main/python/mf_random.py:42 | every cell of the sorted distribution is a sorted permutation of the original cell |
| PValues.PValueEstimate | src/main/python/mf_random.py:37-55 | a shape mismatch and an unknown alternative are errors; otherwise the result has the observed grid's shape |
| PValues.SortedRank | src/main/python/mf_random.py:42-53 | the rank on the sorted copy equals the count in the cell's own scores |
| PValues.LeftCell | src/main/python/mf_random.py:50-51 | a 'left' cell is the share of simulated scores at most the observed one |
| PValues.RightCell | src/main/python/mf_random.py:52-53 | a 'right' cell is the share of simulated scores at least the observed one |
| PValues.TwoSidedCell | src/main/python/mf_random.py:44-49 | a 'two.sided' cell is the share of scores at least as far from the mean, on either side |
| PValues.OneSidedBounds | src/main/python/mf_random.py:50-53 | one-sided p-values lie in [0, 1] |
| PValues.LeftPlusRight | src/main/python/mf_random.py:50-53 | left + right is 1 plus the share of scores equal to the observed one |
| PValues.OneSidedMonotone | src/main/python/mf_random.py:50-53 | the left p-value never decreases and the right one never increases as the score grows |
| PValues.TwoSidedBounds | src/main/python/mf_random.py:44-49 | the two-sided p-value is non-negative, and at most 1 unless the score is the mean |
| PValues.TwoSidedReflection | src/main/python/mf_random.py:44-49 | scores mirrored about the mean get the same two-sided p-value |
| PValues.TestArraysAreLike | src/main/python/mf_random.py:37-72 | the test arrays (arange(24) reshaped to 2 x 3 x 4, scores [[-1, 4, 8.5], [13.5, 19, 24]]) have the cells the vectors below assume |
| PValues.SearchsortedTestVector | src/main/python/mf_random.py:58-72 | for any arrays with the test cells (arange(24) reshaped to 2 x 3 x 4, scores [[-1, 4, 8.5], [13.5, 19, 24]]), the 'left' ranks are [[0, 0, 1], [2, 3, 4]] |
| PValues.LeftTestVector | src/main/python/mf_random.py:50-51 | for any 2 x 3 arrays with those cells, the estimate succeeds and the 'left' p-values are [[0, 0.25, 0.25], [0.5, 1, 1]] |
| PValues.RightTestVector | src/main/python/mf_random.py:52-53 | on the same arrays the 'right' p-values are [[1, 1, 0.75], [0.5, 0.25, 0]] |
| PValues.TwoSidedTestVector | src/main/python/mf_random.py:44-49 | on the same arrays the 'two.sided' p-values are [[0, 0.5, 0.5], [1, 0.5, 0]] |
| PValues.InvalidAlternativeTestVector | src/main/python/mf_random.py:54-55 | any other alternative raises ValueError |
| PValues.NullRatesAsWritten | src/main/python/mf_random.py:24-26 | the as-written phenotype rate is m1 column 0 over N |
| PValues.NullRatesOf | src/main/python/mf_random.py:24-26 | the diagnosis rate is NaN exactly when N is 0 |
| PValues.DiagnosisRatesSumToOne | src/main/python/mf_random.py:25 | the case and control rates add up to 1 |
| PValues.PhenotypeRateIsPresentShare | src/main/python/mf_random.py:24-26 | the corrected phenotype rate is the share of samples with the phenotype |
| PValues.PhenotypeRateFinding | src/main/python/mf_random.py:26 | a phenotype present in every sample gets rate 1/2 as written and 1 corrected |
| PValues.TotalBatches | src/main/python/mf_random.py:106 | the number of batches is the least whose BATCH_SIZE-sample capacity covers the sample size |
| PValues.DrawnSamplesAsWritten | src/main/python/mf_random.py:104-120 | as written, a positive sample size draws sample_size + BATCH_SIZE samples, the last batch alone more than BATCH_SIZE |
| PValues.DrawnSamples | src/main/python/mf_random.py:104-120 | with the last batch sample_size - BATCH_SIZE * i, exactly sample_size samples are drawn, the last batch holding 1 to BATCH_SIZE |
| KeySets.SortKey | src/main/python/synergy_tree.py:46 | tuple(sorted(key)) is sorted, with the same length and elements |
| KeySets.SortKeyFixed | src/main/python/synergy_tree.py:46-48 | a key equals its sorted copy exactly when it is sorted |
| KeySets.SortedKey | src/main/python/synergy_tree.py:110-112 | tuple(sorted(s)) of a set is strictly sorted, with exactly the set's elements |
| KeySets.StrictKeysEqual | src/main/python/synergy_tree.py:110-112 | two strictly sorted keys with the same elements are equal, so a set has one sorted tuple |
| KeySets.StrictKeyOfElems | src/main/python/synergy_tree.py:110-112 | a strictly sorted key is the sorted tuple of its own elements |
| KeySets.ListOf | src/main/python/synergy_tree.py:129 | list(parent_set) holds each element of the set exactly once |
| KeySets.CombinationMember | src/main/python/synergy_tree.py:147 | each selection yielded by combinations(xs, k) has k elements, all from xs, and no repeat when xs has none |
| KeySets.CombinationsShape | src/main/python/synergy_tree.py:147 | itertools.combinations(xs, k) yields k-element selections of xs, without repeats when xs has none |
| KeySets.CombinationsComplete | src/main/python/synergy_tree.py:147 | every subset of the list's elements is yielded by combinations at its size |
| KeySets.Subsets | src/main/python/synergy_tree.py:138-150 | the result holds exactly the sorted keys of the non-empty subsets, 2^n - 1 of them |
| KeySets.PowersetCard | src/main/python/synergy_tree.py:138-150 | a list of n distinct elements has 2^n subsets |
| KeySets.ComplementPairs | src/main/python/synergy_tree.py:118-135 | every pair is a split into two non-empty complementary sorted keys, every split occurs in one of its two orders, and there are 2^(n-1) - 1 of them |
| KeySets.SplitPairsCount | src/main/python/synergy_tree.py:118-135 | a set of splits covering every split, one order each, has 2^(n-1) - 1 elements |
| SynergyTrees.LeavesPartitionVariables | src/main/python/synergy_tree.py:65-115 | the leaves of a tree built by the recursion are the variables of its root, one leaf per variable |
| SynergyTrees.NoEmptyTree | src/main/python/synergy_tree.py:82-113 | no node of such a tree has the empty key |
| SynergyTrees.BestSplit | src/main/python/synergy_tree.py:89-104 | a missing key raises KeyError; otherwise the best sum is non-negative, no split beats it, and the first split that attains it (strict >) is kept |
| SynergyTrees.ScanIsBest | src/main/python/synergy_tree.py:93-102 | the scanned maximum bounds every split of the current set |
| SynergyTrees.ShorterKey | src/main/python/synergy_tree.py:110-113 | each child key is shorter than its parent, so the recursion ends |
| SynergyTrees.ScanSplits | src/main/python/synergy_tree.py:93-103 | the loop over complement_pairs(set(current)): a missing key of a split raises KeyError, which only a current with some split missing can cause; otherwise no split of current beats the sum found, and the sides are empty when no split has a positive sum, or a split that attains the sum |
| SynergyTrees.Populate | src/main/python/synergy_tree.py:65-115 | a singleton is a leaf; otherwise the node's synergy is I(current) minus the best split sum, the children are that split, and a missing key (the empty one when no split gains) raises KeyError; it succeeds whenever current and every proper part of its variables have keys and every such group of two or more has a split with gain |
| SynergyTrees.SideBuildable | src/main/python/synergy_tree.py:93-113 | both sides of a split of a group the recursion can build can be built too |
| SynergyTrees.BuildFromRoot | src/main/python/synergy_tree.py:18-22 | the tree rooted at the sorted variables decomposes every node and has the variables as leaves; its only failure is the empty key, and it succeeds when there is some variable and every key of two or more variables has a split with gain |
| SynergyTrees.RootError | src/main/python/synergy_tree.py:18-22 | with all subsets present, the only key the recursion can miss is the empty one |
| SynergyTrees.RootBuildable | src/main/python/synergy_tree.py:18-22 | with all subset keys present and every key of two or more variables gaining, the root group can be built |
| SynergyTrees.AllKeysSortedIff | src/main/python/synergy_tree.py:24-31 | comparing the set of sorted keys with the key set is the same as checking every key is sorted |
| SynergyTrees.SynergyTree.constructor | src/main/python/synergy_tree.py:12-16 | a new tree object stores its inputs and has no tree |
| SynergyTrees.SynergyTree.AllKeysSorted | src/main/python/synergy_tree.py:24-31 | true exactly when every key is sorted |
| SynergyTrees.SynergyTree.AllSubsetMfPresent | src/main/python/synergy_tree.py:33-38 | true exactly when the keys are the sorted keys of the non-empty subsets |
| SynergyTrees.SynergyTree.AddOrUpdateSubsetMf | src/main/python/synergy_tree.py:40-49 | an unsorted key raises and changes nothing; a sorted one is set to the value |
| SynergyTrees.SynergyTree.SynergyTreeOf | src/main/python/synergy_tree.py:51-62 | unsorted keys raise, then missing subsets raise; otherwise the tree is built from the root, and it is built whenever there is some variable and every key of two or more variables has a split with gain |
| HpoUtil.EdgeReaches | src/main/python/hpoutil.py:41-43 | a direct successor is an ancestor |
| HpoUtil.ExtendReaches | src/main/python/hpoutil.py:47-49 | an ancestor of a successor is an ancestor |
| HpoUtil.ReachesNode | src/main/python/hpoutil.py:31-51 | in a closed graph, only nodes of the graph are ancestors |
| HpoUtil.NoSuccessorsNoAncestors | src/main/python/hpoutil.py:40-51 | a term without successors has no ancestor |
| HpoUtil.AncestorDescendent | src/main/python/hpoutil.py:31-51 | on an acyclic graph, the answer is whether the ancestor is reachable from the descendent; a term outside the graph is an error |
| HpoUtil.Hpo.IsAncestorDescendent | src/main/python/hpoutil.py:20-21 | termid1 is reachable from termid2 |
| HpoUtil.Hpo.IsDescendentAncestor | src/main/python/hpoutil.py:23-24 | termid2 is reachable from termid1 |
| HpoUtil.Hpo.HasDependency | src/main/python/hpoutil.py:26-28 | fails exactly when a term is outside the graph; otherwise true exactly when either term is reachable from the other |
| Text.ToLower | src/main/java/org/jax/text2hpo/NoteEventFactory.java:48 | each character is mapped to lower case on its own |
| Text.IndexOfFrom | src/main/java/org/jax/text2hpo/NoteEventFactory.java:52 | returns the first occurrence at or after `from`, or none |
| Text.Trim | src/main/java/org/jax/text2hpo/NoteEventFactory.java:48 | removes exactly the characters up to U+0020 at both ends |
| Text.SplitJoin | src/main/java/org/jax/text2hpo/NoteEventFactory.java:52 | joining the split pieces with the separator gives the string back |
| Text.SplitPiecesFree | src/main/java/org/jax/text2hpo/NoteEventFactory.java:52 | no piece contains the separator |
| Text.JavaSplit | src/main/java/org/jax/text2hpo/NoteEventFactory.java:52 | String.split gives the whole string when there is no separator, and otherwise the pieces without the trailing empty ones |
| NoteEvents.SectionsFree | src/main/java/org/jax/text2hpo/NoteEventFactory.java:51-52 | no section contains the separator line |
| NoteEvents.SectionsRejoin | src/main/java/org/jax/text2hpo/NoteEventFactory.java:51-52 | the note is its sections joined by the separator, followed by the dropped trailing separators |
| NoteEvents.FirstWithReportIsFirst | src/main/java/org/jax/text2hpo/NoteEventFactory.java:53-58 | the search returns the first section containing FINAL REPORT, or none when no section contains it |
| NoteEvents.ReportHasNoSeparator | src/main/java/org/jax/text2hpo/NoteEventFactory.java:47-58 | a report found contains FINAL REPORT and no separator line |
| NoteEvents.WholeNoteIsReport | src/main/java/org/jax/text2hpo/NoteEventFactory.java:47-58 | a note without separator that contains FINAL REPORT is its own report |
| NoteEvents.NoReport | src/main/java/org/jax/text2hpo/NoteEventFactory.java:47-58 | no report exactly when the note, lower-cased and trimmed, is "null", or when no section contains FINAL REPORT |
| NoteEvents.RadiologyFinalReport | src/main/java/org/jax/text2hpo/NoteEventFactory.java:47-59 | the loop returns the final report of the note |
| LabSummaries.AddKeepsUnit | src/main/java/org/jax/LabSummary.java:29-33 | the running-mean update keeps mean * count equal to the total of the values |
| LabSummaries.AddKeepsSummary | src/main/java/org/jax/LabSummary.java:26-34 | one add keeps every unit of the summary consistent with its history |
| LabSummaries.LabSummary.constructor | src/main/java/org/jax/LabSummary.java:15-19 | a new summary has no unit |
| LabSummaries.LabSummary.Add | src/main/java/org/jax/LabSummary.java:26-34 | the unit's count becomes n + 1 and its mean (mean * n + v) / (n + 1), starting from 0 and 0.0; other units are unchanged |
| LabSummaries.LabSummary.Put | src/main/java/org/jax/LabSummary.java:42-45 | the unit's count and mean are overwritten and nothing else changes |
| LabSummaries.LabSummary.GetMeanByUnit | src/main/java/org/jax/LabSummary.java:51-53 | the means cover the same units as the counts |
| LabSummaries.LabSummary.GetCountByUnit | src/main/java/org/jax/LabSummary.java:55-57 | the counts cover the same units as the means, and none is negative |
| LabSummaries.LabSummary.MeanIsAverage | src/main/java/org/jax/LabSummary.java:26-34 | a unit that was only ever added to has the average of its values as its mean |
| LabEvents2Hpo.QnTextualResult | src/main/java/org/jax/lab2hpo/LabEvents2HpoFactory.java:164-189 | only item 51266 gets a code: H when the text contains HIGH, otherwise L when it contains LOW or RARE |
| LabEvents2Hpo.OrdTextualResult | src/main/java/org/jax/lab2hpo/LabEvents2HpoFactory.java:191-203 | NEG exactly when the upper-cased value is NORMAL or NE followed by Gs; POS exactly when it is PO followed by Ss |
| LabEvents2Hpo.OrdTextualExamples | src/main/java/org/jax/lab2hpo/LabEvents2HpoFactory.java:194-196 | "neg" and "Normal" give NEG, "POS" gives POS, "NEGATIVE" and "POSITIVE" give no code |
| LabEvents2Hpo.OrdLab2hpo | src/main/java/org/jax/lab2hpo/LabEvents2HpoFactory.java:153-162 | always the textual code |
| LabEvents2Hpo.NoLowQn | src/main/java/org/jax/lab2hpo/LabEvents2HpoFactory.java:258-264 | H exactly when the flag contains "abnormal" in any case, N otherwise |
| LabEvents2Hpo.NoHighQn | src/main/java/org/jax/lab2hpo/LabEvents2HpoFactory.java:266-272 | L exactly when the flag contains "abnormal" in any case, N otherwise |
| LabEvents2Hpo.QnWithPrimaryUnit | src/main/java/org/jax/lab2hpo/LabEvents2HpoFactory.java:205-247 | no code without a range for the unit; L, H and N each characterised by the range, the abnormal flag and the mean; a missing mean throws |
| LabEvents2Hpo.QnLab2hpoCode | src/main/java/org/jax/lab2hpo/LabEvents2HpoFactory.java:132-151 | textual code without a summary; the range code in the primary unit; no code in another unit |
| LabEvents2Hpo.LabEvents2HpoFactory.constructor | src/main/java/org/jax/lab2hpo/LabEvents2HpoFactory.java:42-68 | qnNoLow and qnNoHigh hold exactly the annotated Qn tests without an L (respectively H) candidate |
| LabEvents2Hpo.LabEvents2HpoFactory.QnLab2hpo | src/main/java/org/jax/lab2hpo/LabEvents2HpoFactory.java:132-151 | answers QnLab2hpoCode; a test with no summary and no textual code is added to failedQnWithTextResult, which only grows |
| LabEvents2Hpo.LabEvents2HpoFactory.InterpretationCode | src/main/java/org/jax/lab2hpo/LabEvents2HpoFactory.java:93-115 | dispatch goes qnNoLow, then qnNoHigh, then Qn, then Ord; Qn codes are L/H/N, never L without an L candidate; a Qn test in neither set gets the code of qnLab2hpo; Ord codes are textual; other scales get no code |
| LabEvents2Hpo.LabEvents2HpoFactory.Convert | src/main/java/org/jax/lab2hpo/LabEvents2HpoFactory.java:70-130 | errors come in order: no summary, blank LOINC, not annotated, no code, code without candidate; otherwise the candidate of the code |
| LabEvents2Hpo.LabEvents2HpoFactory.NoLowTestIsHighOrNormal | src/main/java/org/jax/lab2hpo/LabEvents2HpoFactory.java:102-103 | a test without L outcome converts through H when flagged abnormal, N otherwise |
| LabEvents2Hpo.LabEvents2HpoFactory.OtherScaleUninterpreted | src/main/java/org/jax/lab2hpo/LabEvents2HpoFactory.java:113-119 | a test of any scale other than Qn and Ord fails as uninterpretable |
| ServiceLabEvents.RemoveQuotes | src/main/java/org/jax/service/LabEvents2HpoFactory.java:102 | the unit loses every double quote and keeps every other character |
| ServiceLabEvents.RemoveQuotesAppend | src/main/java/org/jax/service/LabEvents2HpoFactory.java:102 | quotes are removed piecewise: the result of a concatenation is the concatenation of the results, so the order of the kept characters is preserved |
| ServiceLabEvents.RemoveQuotesChar | src/main/java/org/jax/service/LabEvents2HpoFactory.java:102 | a single character is dropped exactly when it is a double quote |
| ServiceLabEvents.NumericCode | src/main/java/org/jax/service/LabEvents2HpoFactory.java:114-146 | H/POS exactly for "abnormal" above the mean, L for "abnormal" below it, N for no flag (Qn), NEG for no flag or "abnormal" below (Ord); nothing otherwise |
| ServiceLabEvents.Factory.Convert | src/main/java/org/jax/service/LabEvents2HpoFactory.java:53-185 | exactly the unmapped items throw LocalLabTestNotMappedToLoinc, exactly the mapped but unannotated LOINCs throw LoincCodeNotAnnotated, and exactly a numeric result in the primary unit without LOINC entry throws NullPointerException; textual results, items without a mean and other units answer empty; otherwise a code with a candidate gives exactly that candidate, and no code or no candidate answers empty |
| ServiceLabEvents.Factory.AbnormalQnFollowsMean | src/main/java/org/jax/service/LabEvents2HpoFactory.java:114-135 | an abnormal Qn result above the mean gives the H candidate, below it the L candidate, and at the mean nothing |
| JhuLab.RangeCode | src/main/java/org/jax/lab2hpo/JHULabView2HpoFactory.java:54-60 | L exactly below low; H exactly at least low and above high; N exactly within the range |
| JhuLab.Convert | src/main/java/org/jax/lab2hpo/JHULabView2HpoFactory.java:34-70 | an unannotated LOINC throws first, then an unparseable low or high; otherwise the candidate of the range code, or UnrecognizedCode |

## Left out

- Input and output are not modelled. This covers reading OBO files, CSV files and databases, Spring and JDBC services, the command-line tools, and logging.
- Floating point is modelled over the reals. Double rounding, overflow, and Float precision in the JHU converter are out. NaN is modelled where numpy produces it in the information formulas: a division 0 / 0 of numpy values and the term 0 * log2(0). A fresh `Synergy` still holds the Python integers 0 as its counts, and `case_N / N` on them raises ZeroDivisionError instead; Accumulator.Synergy.PairwiseSynergy returns that error.
- `log2` is a parameter of the information formulas. Only log2(1) = 0 and, in the findings, log2(2) = 1 and log2(3) = log2(1.5) + 1 are assumed about it.
- The simulation that creates the empirical distribution is left out: the random draws of `synergy_random` and the multiprocessing workers of `create_empirical_distribution`. Only the rates it is given (`NullRatesOf`), the number of samples `synergy_random` draws (`DrawnSamplesAsWritten`) and the p-values computed from a distribution are modelled.
- As written, `create_empirical_distribution` returns `S_distribution`, the `np.zeros` array it creates at mf_random.py:78 and never fills (mf_random.py:98); the workers write into another array, in their own processes. Every simulated score is therefore 0. The model takes the distribution as a parameter and does not model this.
- As written, the last batch of `synergy_random` has `sample_size - BATCH_SIZE * (i - 1)` samples (mf_random.py:108-109), so every simulation draws BATCH_SIZE samples too many. `DrawnSamplesAsWritten` states this; see the Findings.
- PValues.PValueEstimate: observed and simulated scores are reals. NaN scores are not modelled, though `p_value` passes the synergy matrix S, which is NaN wherever an m1 row has an empty cell (`AsWrittenSynergyNaN`). How `np.sort` and `searchsorted` place NaN (last) is not modelled, so the cell lemmas say nothing about such cells.
- Java `null` strings are not modelled, so the NullPointerExceptions they cause are out. The exceptions are the missing lab summary, missing LOINC entry and missing mean, which are modelled as errors.
- `new LoincId(s)` and its MalformedLoincCodeException are not modelled. The LOINC format check belongs to the loinc2hpo library, which is not part of this model, so LOINC ids are their text.
- The lab2hpo constructor exits the program when an annotated LOINC code has no LOINC table entry. The model requires every annotated code to have one.
- JhuLab.Convert: `Float.parseFloat` is a parameter (`parseFloat`), so the number syntax it accepts is not modelled.
- Text.ToLower and Text.ToUpper map only the ASCII letters. Java's full Unicode case mapping is not modelled.
- `org.jax.lab2hpo.LabSummary` is not part of this model beyond the four getters the converter calls. It is the `QnSummary` datatype.
- LabSummaries.LabSummary.Put: requires a non-negative count, which Java does not demand. With a negative count, the next `add` could divide by zero.
- SynergyTrees.SynergyTree.SynergyTreeOf: when the recursion raises KeyError, the model leaves `tree` empty. The source keeps the partly built treelib tree it assigned first. treelib itself is not modelled; a tree is a datatype.
- Accumulator.Synergy.AddBatch: a batch whose rows do not have M columns fails in the model and changes nothing. numpy instead broadcasts a one-column batch across M > 1 phenotypes, and with M = 1 a wider batch widens m1 and m2. Broadcasting is not modelled.
- Accumulator.Synergy.AddBatch: requires 0/1 phenotypes and diagnoses, which mf.py documents for add_batch and summarize but does not check. The counts numpy computes from other values are modelled by `BatchCounts`; the information of such counts (logarithms of negative ratios) is not.
- SynergyTrees.Populate: the success condition is sufficient, not necessary. The recursion only visits the groups of the best splits, so groups it never visits need no gain; which groups those are depends on set iteration order.
- populate_syn_tree's ValueError for a missing tree object is not modelled, and neither is the `None` default of `precomputed_subset_mf`. Both need an object the model always has.
- Python set iteration order is unspecified. `complement_pairs` returns a set, and the model lets the split search scan it in any order. BestSplit's "first split that attains the maximum" is relative to that order.
- Variable ids are integers, and `var_ids` is a set. Duplicate ids in a Python tuple are not modelled.
- HpoUtil.AncestorDescendent requires an acyclic graph, given by a rank that drops along every edge. On a cycle the Python recursion does not end.
- The HPO accessors `hpograph`, `nodes` and `term_id2name_map` only return what the OBO reader produced, so they are not modelled.
- The record `failedQnWithTextResult` only grows through `qnLab2hpo` with no summary. `convert` never reaches that branch, because a missing summary already fails at `labSummary.getLoinc()`.

## Findings

| source | as written | input that shows it | evidently intended | confidence | as-written member | corrected member |
|---|---|---|---|---|---|---|
| src/main/python/mf.py:272-273 | `np.repeat([pd, 1 - pd], 4)` gives the diagnosis marginal [pd, pd, pd, pd, 1-pd, 1-pd, 1-pd, 1-pd], but the diagnosis alternates across the eight m2 cells | three samples, all with the phenotype, diagnoses [1, 0, 0]: the pair (i, i) gets 2/3 bit | the marginal tiled as [pd, 1-pd, pd, 1-pd, ...], which gives 0 for a constant pair | not executed | MutualInformation.PairMIAsWritten | MutualInformation.PairMI |
| src/main/python/mf.py:256 | `prob * np.log2(prob / ...)` with no mask, so an empty m1 cell gives 0 * -inf = NaN | two samples, both with the phenotype, one case and one control: I is NaN | empty cells masked as in the pair version, which gives 0 bits | not executed | MutualInformation.PhenotypeMIAsWritten | MutualInformation.PhenotypeMI |
| src/main/python/mf_random.py:26 | `np.sum(self.m1[:, 0:1], axis=1)` sums column 0 only: samples with the phenotype and the diagnosis | two samples, both with the phenotype, one case and one control: rate 1/2 | columns 0 and 1, the samples with the phenotype, which gives 1 | not executed | PValues.NullRatesAsWritten | PValues.NullRatesOf |
| src/main/python/mf.py:93-101 | `pairwise_synergy` subtracts the single informations from the as-written pair informations, whose diagnosis marginal does not follow the cell order, so S[i][j] and S[j][i] differ | six samples, phenotypes [[1,1],[0,0],[1,1],[0,1],[0,0],[0,0]], diagnoses [1,1,0,0,0,0]: S[0][1] - S[1][0] = -1/6 bit | a symmetric synergy matrix, as the pair's synergy does not depend on which phenotype comes first | not executed | Accumulator.AsWrittenSynergyAsymmetric | Accumulator.Synergy.CorrectedPairwiseSynergy |
| src/main/python/mf_random.py:108-109 | the last batch has `sample_size - BATCH_SIZE * (i - 1)` samples | sample_size 500: one batch (i = 0) of 1500 samples | `sample_size - BATCH_SIZE * i`, so that the batches add up to sample_size | not executed | PValues.DrawnSamplesAsWritten | PValues.DrawnSamples |
