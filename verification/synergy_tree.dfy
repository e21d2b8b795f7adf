/**
 * The synergy tree of src/main/python/synergy_tree.py. Starting from the
 * sorted tuple of all variables, populate_syn_tree splits each group of two
 * or more variables into the two complementary sub-groups whose mutual
 * informations add up to the most, records the synergy (the group's mutual
 * information minus that best sum) on the node, and recurses into the two
 * sub-groups until only single variables are left.
 *
 * The treelib tree becomes the value SynTree; the error paths of the
 * source (missing dictionary keys, treelib's duplicate node id, the two
 * RuntimeErrors of SynergyTree.synergy_tree) become TreeError values.
 */
module SynergyTrees {
  import opened Wrappers
  import opened KeySets

  /** The exceptions the source raises on this path. */
  datatype TreeError =
    | KeyNotFound(key: Key)      // KeyError from mf_dict[...]
    | DuplicateNode(key: Key)    // treelib's DuplicatedNodeIdError
    | UnsortedKey                // add_or_update_subset_mf: "key is not sorted"
    | UnsortedSubsets            // synergy_tree: "variables in subsets are not sorted"
    | IncompleteSubsets          // synergy_tree: "subset mutual information not complete"

  /**
   * A node of the synergy tree, identified by its key. A leaf holds a single
   * variable and no data; an inner node holds its synergy.
   */
  datatype SynTree =
    | Leaf(key: Key)
    | Node(key: Key, synergy: real, left: SynTree, right: SynTree)

  /** The best split found by the scan: the largest sum and its two sides. */
  datatype Split = Split(best: real, left: Key, right: Key)

  /** The sum of mutual informations of the two sides of a pair whose keys are both present. */
  function PairSum(mf: map<Key, real>, p: (Key, Key)): real
    requires p.0 in mf && p.1 in mf
  {
    mf[p.0] + mf[p.1]
  }

  /**
   * (l, r) is a split of the variables of `key` of the largest summed
   * mutual information, and every split of them has both keys present.
   */
  ghost predicate BestSplitOf(key: Key, mf: map<Key, real>, l: Key, r: Key) {
    && IsSplit(Elems(key), l, r)
    && l in mf && r in mf
    && (forall l', r' :: IsSplit(Elems(key), l', r') ==>
          l' in mf && r' in mf && mf[l'] + mf[r'] <= mf[l] + mf[r])
  }

  /**
   * t is the synergy tree of its key under mf: leaves are single variables;
   * an inner node's key has a mutual information, its children are a best
   * split with a positive summed mutual information, its synergy is its own
   * mutual information minus that sum, and the children are synergy trees.
   */
  ghost predicate Decomposes(t: SynTree, mf: map<Key, real>) {
    match t
    case Leaf(k) => |k| == 1
    case Node(k, syn, left, right) =>
      && |k| != 1
      && k in mf
      && BestSplitOf(k, mf, left.key, right.key)
      && mf[left.key] + mf[right.key] > 0.0
      && syn == mf[k] - (mf[left.key] + mf[right.key])
      && Decomposes(left, mf)
      && Decomposes(right, mf)
  }

  /** The variables held by the leaves of t. */
  function LeafVars(t: SynTree): set<int> {
    match t
    case Leaf(k) => Elems(k)
    case Node(_, _, left, right) => LeafVars(left) + LeafVars(right)
  }

  /** The number of leaves of t. */
  function LeafCount(t: SynTree): nat {
    match t
    case Leaf(_) => 1
    case Node(_, _, left, right) => LeafCount(left) + LeafCount(right)
  }

  /**
   * The leaves of a synergy tree are its variables, one leaf per variable:
   * they are single variables, together they hold the root's variables,
   * and there are as many leaves as variables.
   */
  lemma {:induction false} LeavesPartitionVariables(t: SynTree, mf: map<Key, real>)
    requires Decomposes(t, mf)
    ensures LeafVars(t) == Elems(t.key)
    ensures LeafCount(t) == |Elems(t.key)|
  {
    match t
    case Leaf(k) =>
      ElemsCard(k);
    case Node(k, _, left, right) =>
      LeavesPartitionVariables(left, mf);
      LeavesPartitionVariables(right, mf);
      assert Elems(left.key) !! Elems(right.key);
      assert |Elems(left.key) + Elems(right.key)| == |Elems(left.key)| + |Elems(right.key)|;
  }

  /** No synergy tree has the empty key: the empty tuple has no split. */
  lemma NoEmptyTree(t: SynTree, mf: map<Key, real>)
    requires Decomposes(t, mf)
    ensures t.key != []
  {
    if t.Node? {
      var l := t.left.key;
      assert l[0] in Elems(l);
      assert l[0] in Elems(t.key);
    }
  }

  /**
   * The errors populate_syn_tree can raise from `current`: a missing key,
   * either `current` itself or a sorted key of some of its variables (the
   * empty tuple included); or the empty tuple added twice as a node.
   */
  ghost predicate Blame(e: TreeError, current: Key, mf: map<Key, real>) {
    match e
    case KeyNotFound(k) => k !in mf && (k == current || (StrictlySorted(k) && Elems(k) <= Elems(current)))
    case DuplicateNode(k) => k == [] && [] in mf
    case _ => false
  }

  /** No split of the variables of `current` has a positive summed mutual information. */
  ghost predicate NoGain(current: Key, mf: map<Key, real>) {
    && |current| != 1
    && current in mf
    && (forall l, r :: IsSplit(Elems(current), l, r) ==> l in mf && r in mf && mf[l] + mf[r] <= 0.0)
  }

  /** Some split of the variables of k has a positive summed mutual information. */
  ghost predicate HasGain(k: Key, mf: map<Key, real>) {
    exists l, r :: IsSplit(Elems(k), l, r) && l in mf && r in mf && mf[l] + mf[r] > 0.0
  }

  /**
   * populate_syn_tree succeeds from current: current is a single variable,
   * or current and every sorted key of a proper non-empty part of its
   * variables are present, and current and every such key of two or more
   * variables has a split with gain.
   */
  ghost predicate Buildable(current: Key, mf: map<Key, real>) {
    || |current| == 1
    || (&& current in mf
        && HasGain(current, mf)
        && forall k :: IsSubsetKey(k, Elems(current)) && Elems(k) != Elems(current) ==>
             k in mf && (|k| != 1 ==> HasGain(k, mf)))
  }

  /** Each side of a split of the variables of current is the key of a proper non-empty part of them. */
  lemma SplitSidesProper(current: Key, l: Key, r: Key)
    requires IsSplit(Elems(current), l, r)
    ensures IsSubsetKey(l, Elems(current)) && Elems(l) != Elems(current)
    ensures IsSubsetKey(r, Elems(current)) && Elems(r) != Elems(current)
  {
    assert l[0] in Elems(l) && r[0] in Elems(r);
  }

  /** The empty tuple has no split, so it has no gain. */
  lemma EmptyKeyNoGain(mf: map<Key, real>)
    ensures !HasGain([], mf)
  {
    forall l: Key | l != [] ensures l[0] in Elems(l) {
    }
  }

  /** A split of current with a missing key makes current unbuildable. */
  lemma MissingSplitNotBuildable(current: Key, mf: map<Key, real>, l: Key, r: Key)
    requires |current| != 1 && IsSplit(Elems(current), l, r) && !(l in mf && r in mf)
    ensures !Buildable(current, mf)
  {
    SplitSidesProper(current, l, r);
  }

  /** With no split sum above 0, current has no gain and is not buildable. */
  lemma NoBestNotBuildable(current: Key, mf: map<Key, real>, s: Split)
    requires |current| != 1 && BestOfSplits(current, mf, s) && s.best == 0.0
    ensures !Buildable(current, mf)
  {
  }

  /** Each side of a split of a buildable current is buildable. */
  lemma SideBuildable(current: Key, mf: map<Key, real>, l: Key, r: Key)
    requires |current| != 1 && Buildable(current, mf) && IsSplit(Elems(current), l, r)
    ensures Buildable(l, mf) && Buildable(r, mf)
  {
    SplitSidesProper(current, l, r);
    forall k | IsSubsetKey(k, Elems(l)) && Elems(k) != Elems(l)
      ensures IsSubsetKey(k, Elems(current)) && Elems(k) != Elems(current)
    {
      assert r[0] in Elems(current) && r[0] !in Elems(k);
    }
    forall k | IsSubsetKey(k, Elems(r)) && Elems(k) != Elems(r)
      ensures IsSubsetKey(k, Elems(current)) && Elems(k) != Elems(current)
    {
      assert l[0] in Elems(current) && l[0] !in Elems(k);
    }
  }

  /** The keys of mf are exactly the sorted tuples of the non-empty subsets of the variables. */
  ghost predicate CompleteKeys(mf: map<Key, real>, varIds: set<int>) {
    forall k :: k in mf <==> IsSubsetKey(k, varIds)
  }

  /**
   * The scan over the partitions of populate_syn_tree, in the order the set
   * of pairs is iterated: each pair looks up its left key and then its right
   * key, and replaces the best so far only when its sum is strictly larger.
   * The best starts at 0 with two empty sides.
   */
  method BestSplit(order: seq<(Key, Key)>, mf: map<Key, real>) returns (r: Result<Split, TreeError>)
    ensures r.Err? <==> exists i :: 0 <= i < |order| && (order[i].0 !in mf || order[i].1 !in mf)
    ensures r.Err? ==> exists i :: (0 <= i < |order|
              && (forall k :: 0 <= k < i ==> order[k].0 in mf && order[k].1 in mf)
              && r.error == (if order[i].0 !in mf then KeyNotFound(order[i].0) else KeyNotFound(order[i].1))
              && (order[i].0 !in mf || order[i].1 !in mf))
    ensures r.Ok? ==> r.value.best >= 0.0
    ensures r.Ok? ==> forall i :: 0 <= i < |order| ==> PairSum(mf, order[i]) <= r.value.best
    ensures r.Ok? && r.value.best == 0.0 ==> r.value.left == [] && r.value.right == []
    ensures r.Ok? && r.value.best != 0.0 ==> exists i :: (0 <= i < |order|
              && order[i] == (r.value.left, r.value.right)
              && PairSum(mf, order[i]) == r.value.best
              && (forall k :: 0 <= k < i ==> PairSum(mf, order[k]) < r.value.best))
  {
    var best := 0.0;
    var bestLeft: Key := [];
    var bestRight: Key := [];
    var i := 0;
    while i < |order|
      invariant 0 <= i <= |order|
      invariant forall k :: 0 <= k < i ==> order[k].0 in mf && order[k].1 in mf
      invariant best >= 0.0
      invariant forall k :: 0 <= k < i ==> PairSum(mf, order[k]) <= best
      invariant best == 0.0 ==> bestLeft == [] && bestRight == []
      invariant best != 0.0 ==> exists j :: (0 <= j < i
                  && order[j] == (bestLeft, bestRight)
                  && PairSum(mf, order[j]) == best
                  && (forall k :: 0 <= k < j ==> PairSum(mf, order[k]) < best))
    {
      var (left, right) := order[i];
      if left !in mf {
        return Err(KeyNotFound(left));
      }
      if right !in mf {
        return Err(KeyNotFound(right));
      }
      if mf[left] + mf[right] > best {
        best := mf[left] + mf[right];
        bestLeft, bestRight := left, right;
      }
      i := i + 1;
    }
    return Ok(Split(best, bestLeft, bestRight));
  }

  /** A pair at some index of a listing of the split pairs is a split. */
  lemma ListedSplit(parent: set<int>, pairs: set<(Key, Key)>, order: seq<(Key, Key)>, i: int)
    requires SplitPairs(pairs, parent)
    requires forall p :: p in order <==> p in pairs
    requires 0 <= i < |order|
    ensures IsSplit(parent, order[i].0, order[i].1)
  {
    assert order[i] in order;
  }

  /** Every split of parent is listed, in one orientation or the other. */
  lemma ListedCover(parent: set<int>, pairs: set<(Key, Key)>, order: seq<(Key, Key)>, l: Key, r: Key)
    requires forall l', r' :: IsSplit(parent, l', r') ==> Covered(pairs, l', r')
    requires forall p :: p in order <==> p in pairs
    requires IsSplit(parent, l, r)
    ensures exists i :: 0 <= i < |order| && (order[i] == (l, r) || order[i] == (r, l))
  {
    if (l, r) in pairs {
      assert (l, r) in order;
    } else {
      assert (r, l) in order;
    }
  }

  /** A strictly smaller set of variables gives a strictly shorter sorted key. */
  lemma ShorterKey(current: Key, side: Key)
    requires StrictlySorted(side)
    requires Elems(side) < Elems(current)
    ensures |side| < |current|
  {
    StrictNoDup(side);
    ElemsCard(side);
    ElemsCard(current);
    var rest := Elems(current) - Elems(side);
    assert Elems(current) == Elems(side) + rest && Elems(side) !! rest;
    assert |Elems(current)| == |Elems(side)| + |rest|;
  }

  /**
   * The optimality of a best split of the scan over a listing of all split
   * pairs: every split has its keys present and a sum no larger.
   */
  lemma ScanIsBest(current: Key, mf: map<Key, real>, pairs: set<(Key, Key)>, order: seq<(Key, Key)>, best: real)
    requires forall l', r' :: IsSplit(Elems(current), l', r') ==> Covered(pairs, l', r')
    requires forall p :: p in order <==> p in pairs
    requires forall i :: 0 <= i < |order| ==> order[i].0 in mf && order[i].1 in mf
    requires forall i :: 0 <= i < |order| ==> PairSum(mf, order[i]) <= best
    ensures forall l', r' :: IsSplit(Elems(current), l', r') ==> l' in mf && r' in mf && mf[l'] + mf[r'] <= best
  {
    forall l', r' | IsSplit(Elems(current), l', r') ensures l' in mf && r' in mf && mf[l'] + mf[r'] <= best {
      ListedCover(Elems(current), pairs, order, l', r');
      var i :| 0 <= i < |order| && (order[i] == (l', r') || order[i] == (r', l'));
      assert PairSum(mf, order[i]) <= best;
    }
  }

  /**
   * populate_syn_tree(tree, parent, current, mf_dict). A key of one variable
   * is a leaf. Otherwise the node's own mutual information is looked up, the
   * best split is scanned over complement_pairs(set(current)), and the left
   * and then the right side are populated.
   *
   * The empty tuple is the only id treelib can see twice: a node (), whether
   * added by a caller or by this call, always gets the child () again (the
   * empty set has no split). So current == () with () present in mf ends in
   * DuplicateNode(()), which is returned at once.
   */
  method Populate(current: Key, mf: map<Key, real>) returns (r: Result<SynTree, TreeError>)
    ensures r.Ok? ==> r.value.key == current && Decomposes(r.value, mf)
    ensures r.Err? ==> Blame(r.error, current, mf)
    ensures |current| == 1 ==> r == Ok(Leaf(current))
    ensures |current| != 1 && current !in mf ==> r == Err(KeyNotFound(current))
    ensures NoGain(current, mf) && [] !in mf ==> r == Err(KeyNotFound([]))
    ensures Buildable(current, mf) ==> r.Ok?
    decreases |current|
  {
    if |current| == 1 {
      return Ok(Leaf(current));
    }
    if current !in mf {
      return Err(KeyNotFound(current));
    }
    if current == [] {
      EmptyKeyNoGain(mf);
      return Err(DuplicateNode([]));
    }
    var scan := ScanSplits(current, mf);
    if scan.Err? {
      var l, r :| IsSplit(Elems(current), l, r) && !(l in mf && r in mf);
      MissingSplitNotBuildable(current, mf, l, r);
      return Err(scan.error);
    }
    var s := scan.value;
    var leftId := SortedKey(Elems(s.left));
    var rightId := SortedKey(Elems(s.right));
    if s.best != 0.0 {
      BestSides(current, mf, s);
      if Buildable(current, mf) {
        SideBuildable(current, mf, s.left, s.right);
      }
    } else {
      assert leftId == [] && rightId == [];
      NoBestNotBuildable(current, mf, s);
    }
    var lt := Populate(leftId, mf);
    if lt.Err? {
      BlameWidens(lt.error, leftId, current, mf);
      return Err(lt.error);
    }
    NoEmptyTree(lt.value, mf);
    var rt := Populate(rightId, mf);
    if rt.Err? {
      BlameWidens(rt.error, rightId, current, mf);
      return Err(rt.error);
    }
    assert s.best != 0.0;
    NodeDecomposes(current, mf, s, lt.value, rt.value);
    r := Ok(Node(current, mf[current] - s.best, lt.value, rt.value));
  }

  /**
   * What the scan over the split pairs of current found: a best sum, at
   * least 0, that no split of current beats, every split having both keys
   * present; the two empty sides when no split has a positive sum, and
   * otherwise a split that attains it.
   */
  ghost predicate BestOfSplits(current: Key, mf: map<Key, real>, s: Split) {
    && s.best >= 0.0
    && (forall l, r :: IsSplit(Elems(current), l, r) ==> l in mf && r in mf && mf[l] + mf[r] <= s.best)
    && (s.best == 0.0 ==> s.left == [] && s.right == [])
    && (s.best != 0.0 ==>
          IsSplit(Elems(current), s.left, s.right) && s.left in mf && s.right in mf
          && mf[s.left] + mf[s.right] == s.best)
  }

  /**
   * The loop of populate_syn_tree over complement_pairs(set(current)): a
   * missing key of some split raises KeyError, which no current without
   * gain can cause; otherwise the best split is found.
   */
  method ScanSplits(current: Key, mf: map<Key, real>) returns (scan: Result<Split, TreeError>)
    ensures scan.Err? ==> Blame(scan.error, current, mf) && !NoGain(current, mf)
    ensures scan.Err? ==> exists l, r :: IsSplit(Elems(current), l, r) && !(l in mf && r in mf)
    ensures scan.Ok? ==> BestOfSplits(current, mf, scan.value)
  {
    var parent := Elems(current);
    var pairs := ComplementPairs(parent);
    var order := ListOf(pairs);
    scan := BestSplit(order, mf);
    if scan.Err? {
      var i :| 0 <= i < |order| && scan.error == (if order[i].0 !in mf then KeyNotFound(order[i].0) else KeyNotFound(order[i].1))
               && (order[i].0 !in mf || order[i].1 !in mf);
      ListedSplit(parent, pairs, order, i);
    } else {
      var s := scan.value;
      ScanIsBest(current, mf, pairs, order, s.best);
      if s.best != 0.0 {
        var i :| 0 <= i < |order| && order[i] == (s.left, s.right) && PairSum(mf, order[i]) == s.best;
        ListedSplit(parent, pairs, order, i);
      }
    }
  }

  /**
   * The two sides of a best split of positive sum are their own sorted
   * keys, each shorter than current, and current has a split with gain.
   */
  lemma BestSides(current: Key, mf: map<Key, real>, s: Split)
    requires BestOfSplits(current, mf, s) && s.best != 0.0
    ensures SortedKey(Elems(s.left)) == s.left && SortedKey(Elems(s.right)) == s.right
    ensures |s.left| < |current| && |s.right| < |current|
    ensures !NoGain(current, mf)
  {
    StrictKeyOfElems(s.left);
    StrictKeyOfElems(s.right);
    ShorterKey(current, s.left);
    ShorterKey(current, s.right);
  }

  /** An error blamed on a key of some of the variables of current is blamed on current. */
  lemma BlameWidens(e: TreeError, side: Key, current: Key, mf: map<Key, real>)
    requires Blame(e, side, mf) && StrictlySorted(side) && Elems(side) <= Elems(current)
    ensures Blame(e, current, mf)
  {
  }

  /** A best split of positive sum into two synergy trees makes a synergy tree of current. */
  lemma NodeDecomposes(current: Key, mf: map<Key, real>, s: Split, lt: SynTree, rt: SynTree)
    requires |current| != 1 && current in mf && s.best != 0.0 && BestOfSplits(current, mf, s)
    requires lt.key == s.left && rt.key == s.right && Decomposes(lt, mf) && Decomposes(rt, mf)
    ensures Decomposes(Node(current, mf[current] - s.best, lt, rt), mf)
  {
  }

  /**
   * SynergyTree: the variables, their optional names, the precomputed
   * mutual information of each subset, and the tree once built.
   */
  class SynergyTree {
    var varIds: set<int>
    var varDict: map<int, string>
    var precomputedMf: map<Key, real>
    var tree: Option<SynTree>

    /** __init__: stores the arguments; no tree is built yet. */
    constructor (varIds: set<int>, varDict: map<int, string>, precomputedMf: map<Key, real>)
      ensures this.varIds == varIds && this.varDict == varDict
      ensures this.precomputedMf == precomputedMf && tree == None
    {
      this.varIds := varIds;
      this.varDict := varDict;
      this.precomputedMf := precomputedMf;
      tree := None;
    }

    /**
     * _all_keys_sorted: the set of sorted keys equals the set of keys, which
     * holds exactly when every key is sorted.
     */
    function AllKeysSorted(): (r: bool)
      reads this`precomputedMf
      ensures r <==> forall k :: k in precomputedMf ==> Sorted(k)
    {
      var sortedKeys := set k | k in precomputedMf :: SortKey(k);
      AllKeysSortedIff(precomputedMf.Keys, sortedKeys);
      sortedKeys == precomputedMf.Keys
    }

    /** _all_subset_mf_present: the keys are those subsets(var_ids) yields. */
    method AllSubsetMfPresent() returns (r: bool)
      ensures r <==> CompleteKeys(precomputedMf, varIds)
    {
      var s := Subsets(varIds);
      r := precomputedMf.Keys == s;
    }

    /**
     * add_or_update_subset_mf: refuses a key that is not sorted, and
     * otherwise records the value under the key.
     */
    method AddOrUpdateSubsetMf(key: Key, value: real) returns (r: Result<(), TreeError>)
      modifies this`precomputedMf
      ensures r.Err? <==> !Sorted(key)
      ensures r.Err? ==> r.error == UnsortedKey && precomputedMf == old(precomputedMf)
      ensures r.Ok? ==> precomputedMf == old(precomputedMf)[key := value]
    {
      SortKeyFixed(key);
      if SortKey(key) != key {
        return Err(UnsortedKey);
      }
      precomputedMf := precomputedMf[key := value];
      return Ok(());
    }

    /**
     * synergy_tree: checks that the keys are sorted and complete, then
     * builds the tree from the sorted tuple of all variables. With complete
     * keys the only error left is the empty tuple missing from the
     * dictionary, which the build reaches when some group of variables has no
     * split of positive summed mutual information.
     */
    method SynergyTreeOf() returns (r: Result<SynTree, TreeError>)
      modifies this`tree
      ensures !AllKeysSorted() ==> r == Err(UnsortedSubsets) && tree == old(tree)
      ensures AllKeysSorted() && !CompleteKeys(precomputedMf, varIds) ==> r == Err(IncompleteSubsets) && tree == old(tree)
      ensures AllKeysSorted() && CompleteKeys(precomputedMf, varIds) && r.Ok? ==>
                r.value.key == SortedKey(varIds) && Decomposes(r.value, precomputedMf)
                && LeafVars(r.value) == varIds && tree == Some(r.value)
      ensures AllKeysSorted() && CompleteKeys(precomputedMf, varIds) && r.Err? ==> r.error == KeyNotFound([]) && tree == None
      ensures AllKeysSorted() && CompleteKeys(precomputedMf, varIds) && varIds != {} && AllGain(precomputedMf) ==> r.Ok?
    {
      if !AllKeysSorted() {
        return Err(UnsortedSubsets);
      }
      var complete := AllSubsetMfPresent();
      if !complete {
        return Err(IncompleteSubsets);
      }
      r := BuildFromRoot(varIds, precomputedMf);
      tree := if r.Ok? then Some(r.value) else None;
    }
  }

  /**
   * _construct_tree: populate_syn_tree from the sorted tuple of all the
   * variables. With the keys exactly the non-empty subsets, the tree holds
   * every variable in its leaves, and the only possible error is the empty
   * tuple missing from the dictionary.
   */
  method BuildFromRoot(varIds: set<int>, mf: map<Key, real>) returns (r: Result<SynTree, TreeError>)
    requires CompleteKeys(mf, varIds)
    ensures r.Ok? ==> r.value.key == SortedKey(varIds) && Decomposes(r.value, mf) && LeafVars(r.value) == varIds
    ensures r.Err? ==> r.error == KeyNotFound([])
    ensures varIds != {} && AllGain(mf) ==> r.Ok?
  {
    var root := SortedKey(varIds);
    if varIds != {} && AllGain(mf) {
      RootBuildable(varIds, mf);
    }
    r := Populate(root, mf);
    if r.Ok? {
      LeavesPartitionVariables(r.value, mf);
    } else {
      RootError(varIds, mf, r.error);
    }
  }

  /** Every key of two or more variables has a split with gain. */
  ghost predicate AllGain(mf: map<Key, real>) {
    forall k :: k in mf && |k| != 1 ==> HasGain(k, mf)
  }

  /** With complete keys that all have gain, the build from the root succeeds. */
  lemma RootBuildable(varIds: set<int>, mf: map<Key, real>)
    requires CompleteKeys(mf, varIds) && varIds != {} && AllGain(mf)
    ensures Buildable(SortedKey(varIds), mf)
  {
    var root := SortedKey(varIds);
    assert IsSubsetKey(root, varIds);
  }

  /**
   * With the keys exactly the non-empty subsets, the only error the build
   * from the root can blame is the missing empty tuple.
   */
  lemma RootError(varIds: set<int>, mf: map<Key, real>, e: TreeError)
    requires forall k :: k in mf <==> IsSubsetKey(k, varIds)
    requires Blame(e, SortedKey(varIds), mf)
    ensures e == KeyNotFound([])
  {
    assert !IsSubsetKey([], varIds);
    if e.KeyNotFound? {
      assert StrictlySorted(e.key) && Elems(e.key) <= varIds;
    }
  }

  /** The sorted forms of a set of keys equal the keys exactly when every key is sorted. */
  lemma AllKeysSortedIff(keys: set<Key>, sortedKeys: set<Key>)
    requires sortedKeys == set k | k in keys :: SortKey(k)
    ensures sortedKeys == keys <==> forall k :: k in keys ==> Sorted(k)
  {
    if forall k :: k in keys ==> Sorted(k) {
      forall k | k in keys ensures SortKey(k) == k {
        SortKeyFixed(k);
      }
      assert sortedKeys == keys;
    }
    if sortedKeys == keys {
      forall k | k in keys ensures Sorted(k) {
        assert k in sortedKeys;
        var k' :| k' in keys && k == SortKey(k');
      }
    }
  }
}
