/**
 * The set enumeration of src/main/python/synergy_tree.py: `subsets` and
 * `complement_pairs`, together with Python's `tuple(sorted(...))` that
 * turns a group of variables into a dictionary key.
 *
 * Variable ids are integers (the source uses any ordered, hashable ids).
 * A key is a tuple of ids; the keys the source builds are sorted.
 */
module KeySets {

  /** A tuple of variable ids used as a dictionary key. */
  type Key = seq<int>

  /** sorted(k) == k: the ids are in non-decreasing order. */
  predicate Sorted(k: Key) {
    forall i, j :: 0 <= i < j < |k| ==> k[i] <= k[j]
  }

  /** The ids are in increasing order, so no id is repeated. */
  predicate StrictlySorted(k: Key) {
    forall i, j :: 0 <= i < j < |k| ==> k[i] < k[j]
  }

  /** No element occurs twice. */
  predicate NoDup<T(==)>(xs: seq<T>) {
    forall i, j :: 0 <= i < j < |xs| ==> xs[i] != xs[j]
  }

  /** set(k): the variables of a key. */
  function Elems(k: Key): set<int> {
    set x | x in k
  }

  function Pow2(n: nat): nat {
    if n == 0 then 1 else 2 * Pow2(n - 1)
  }

  lemma ElemsCons(xs: seq<int>)
    requires xs != []
    ensures Elems(xs) == {xs[0]} + Elems(xs[1..])
  {
    assert forall x :: x in xs <==> x == xs[0] || x in xs[1..] by {
      assert xs == [xs[0]] + xs[1..];
    }
  }

  /** A tuple has at most as many variables as entries, and exactly as many when none repeats. */
  lemma {:induction false} ElemsCard(xs: seq<int>)
    ensures |Elems(xs)| <= |xs|
    ensures NoDup(xs) <==> |Elems(xs)| == |xs|
  {
    if xs != [] {
      var t := xs[1..];
      ElemsCons(xs);
      ElemsCard(t);
      if xs[0] in t {
        assert Elems(xs) == Elems(t);
        var k :| 0 <= k < |t| && t[k] == xs[0];
        assert xs[0] == xs[k + 1];
      } else {
        assert |Elems(xs)| == 1 + |Elems(t)|;
        if NoDup(xs) {
          assert NoDup(t) by {
            forall i, j | 0 <= i < j < |t| ensures t[i] != t[j] {
              assert t[i] == xs[i + 1] && t[j] == xs[j + 1];
            }
          }
        }
        if NoDup(t) {
          forall i, j | 0 <= i < j < |xs| ensures xs[i] != xs[j] {
            if i == 0 {
              assert xs[j] == t[j - 1];
            } else {
              assert xs[i] == t[i - 1] && xs[j] == t[j - 1];
            }
          }
        }
      }
    }
  }

  // ---------------------------------------------------------------------
  // tuple(sorted(...)) of a tuple
  // ---------------------------------------------------------------------

  /** Inserts x into a tuple, before the first entry it does not exceed. */
  function Insert(x: int, s: Key): (r: Key)
    ensures |r| == |s| + 1 && Elems(r) == {x} + Elems(s)
    ensures r[0] == (if s == [] || x <= s[0] then x else s[0])
  {
    if s == [] || x <= s[0] then
      assert Elems([x] + s) == {x} + Elems(s) by { ElemsCons([x] + s); assert ([x] + s)[1..] == s; }
      [x] + s
    else
      var r := [s[0]] + Insert(x, s[1..]);
      assert Elems(r) == {x} + Elems(s) by {
        ElemsCons(r);
        ElemsCons(s);
        assert r[1..] == Insert(x, s[1..]);
      }
      r
  }

  /** A sorted key stays sorted with an id no larger than its head in front. */
  lemma ConsSorted(a: int, t: Key)
    requires Sorted(t) && (t == [] || a <= t[0])
    ensures Sorted([a] + t)
  {
    var r := [a] + t;
    forall i, j | 0 <= i < j < |r| ensures r[i] <= r[j] {
      if i > 0 {
        assert r[i] == t[i - 1] && r[j] == t[j - 1];
      } else if j > 1 {
        assert r[j] == t[j - 1] && t[0] <= t[j - 1];
      }
    }
  }

  lemma {:induction false} InsertSorted(x: int, s: Key)
    requires Sorted(s)
    ensures Sorted(Insert(x, s))
  {
    if s == [] {
    } else if x <= s[0] {
      ConsSorted(x, s);
    } else {
      var tail := s[1..];
      assert Sorted(tail) by {
        forall i, j | 0 <= i < j < |tail| ensures tail[i] <= tail[j] {
          assert tail[i] == s[i + 1] && tail[j] == s[j + 1];
        }
      }
      InsertSorted(x, tail);
      assert tail != [] ==> s[0] <= tail[0];
      ConsSorted(s[0], Insert(x, tail));
    }
  }

  /** tuple(sorted(k)): the entries of k in non-decreasing order. */
  function SortKey(k: seq<int>): (r: Key)
    ensures Sorted(r) && |r| == |k| && Elems(r) == Elems(k)
  {
    if k == [] then []
    else
      var rest := SortKey(k[1..]);
      InsertSorted(k[0], rest);
      ElemsCons(k);
      Insert(k[0], rest)
  }

  /** tuple(sorted(k)) == k exactly when k is sorted. */
  lemma {:induction false} SortKeyFixed(k: Key)
    ensures SortKey(k) == k <==> Sorted(k)
  {
    if Sorted(k) && k != [] {
      SortKeyFixed(k[1..]);
      assert SortKey(k[1..]) == k[1..];
      assert k == [k[0]] + k[1..];
    }
  }

  // ---------------------------------------------------------------------
  // tuple(sorted(s)) of a set
  // ---------------------------------------------------------------------

  /** Some element of a non-empty set. */
  lemma Pick<T>(s: set<T>) returns (x: T)
    requires s != {}
    ensures x in s
  {
    var e: set<T> := {};
    assert s != e;
    assert !(forall y :: y in s <==> y in e);
    x :| x in s;
  }

  lemma {:induction false} SmallestExists(s: set<int>)
    requires s != {}
    ensures exists x :: x in s && forall y :: y in s ==> x <= y
    decreases |s|
  {
    var z := Pick(s);
    var rest := s - {z};
    if rest == {} {
      forall y | y in s ensures y == z {
        assert y == z || y in rest;
      }
    } else {
      SmallestExists(rest);
      var w :| w in rest && forall y :: y in rest ==> w <= y;
      if z <= w {
        forall y | y in s ensures z <= y {
          if y != z { assert y in rest; }
        }
      } else {
        forall y | y in s ensures w <= y {
          if y != z { assert y in rest; }
        }
      }
    }
  }

  /** The smallest of a non-empty set of ids. */
  function Smallest(s: set<int>): (x: int)
    requires s != {}
    ensures x in s && forall y :: y in s ==> x <= y
  {
    SmallestExists(s);
    var x :| x in s && forall y :: y in s ==> x <= y;
    x
  }

  /** Putting an id below all of a strictly sorted key in front keeps it strictly sorted. */
  lemma ConsStrict(x: int, rest: Key)
    requires StrictlySorted(rest) && forall y :: y in Elems(rest) ==> x < y
    ensures StrictlySorted([x] + rest) && Elems([x] + rest) == {x} + Elems(rest)
  {
    var r := [x] + rest;
    ElemsCons(r);
    assert r[1..] == rest;
    forall i, j | 0 <= i < j < |r| ensures r[i] < r[j] {
      assert r[j] == rest[j - 1];
      if i > 0 {
        assert r[i] == rest[i - 1];
      } else {
        assert rest[j - 1] in Elems(rest);
      }
    }
  }

  /** tuple(sorted(s)) for a set s: its ids in increasing order. */
  function SortedKey(s: set<int>): (r: Key)
    ensures StrictlySorted(r) && Elems(r) == s && |r| == |s|
    decreases |s|
  {
    if s == {} then []
    else
      var x := Smallest(s);
      var rest := SortedKey(s - {x});
      ConsStrict(x, rest);
      [x] + rest
  }

  /** The tail of a strictly sorted key is strictly sorted and above its head. */
  lemma StrictTail(k: Key)
    requires StrictlySorted(k) && k != []
    ensures StrictlySorted(k[1..])
    ensures forall y :: y in Elems(k[1..]) ==> k[0] < y
    ensures Elems(k) - {k[0]} == Elems(k[1..])
  {
    var t := k[1..];
    forall i, j | 0 <= i < j < |t| ensures t[i] < t[j] {
      assert t[i] == k[i + 1] && t[j] == k[j + 1];
    }
    forall y | y in Elems(t) ensures k[0] < y {
      var m :| 0 <= m < |t| && t[m] == y;
      assert y == k[m + 1];
    }
    ElemsCons(k);
  }

  /** Strictly sorted keys with the same variables are equal, so SortedKey is one-to-one. */
  lemma {:induction false} StrictKeysEqual(a: Key, b: Key)
    requires StrictlySorted(a) && StrictlySorted(b) && Elems(a) == Elems(b)
    ensures a == b
    decreases |a|
  {
    if b != [] {
      assert b[0] in Elems(b);
    }
    if a != [] {
      assert a[0] in Elems(b);
      assert b != [];
      StrictTail(a);
      StrictTail(b);
      ElemsCons(a);
      ElemsCons(b);
      var x, y := a[0], b[0];
      assert x == y || y < x;
      assert y == x || x < y;
      StrictKeysEqual(a[1..], b[1..]);
      assert a == [a[0]] + a[1..] && b == [b[0]] + b[1..];
    }
  }

  /** A strictly sorted key is the sorted tuple of its own variables. */
  lemma StrictKeyOfElems(k: Key)
    requires StrictlySorted(k)
    ensures SortedKey(Elems(k)) == k
  {
    StrictKeysEqual(SortedKey(Elems(k)), k);
  }

  /** Sorting a tuple without repeats gives the sorted tuple of its set. */
  lemma SortKeyOfNoDup(c: seq<int>)
    requires NoDup(c)
    ensures SortKey(c) == SortedKey(Elems(c))
  {
    var r := SortKey(c);
    ElemsCard(c);
    ElemsCard(r);
    forall i, j | 0 <= i < j < |r| ensures r[i] < r[j] {
      assert r[i] <= r[j];
    }
    StrictKeyOfElems(r);
  }

  // ---------------------------------------------------------------------
  // itertools.combinations
  // ---------------------------------------------------------------------

  /** Each tuple of cs with h put in front. */
  function PrependAll(h: int, cs: seq<seq<int>>): (r: seq<seq<int>>)
    ensures |r| == |cs| && forall i :: 0 <= i < |r| ==> r[i] == [h] + cs[i]
  {
    if cs == [] then [] else [[h] + cs[0]] + PrependAll(h, cs[1..])
  }

  /** The tuples a combination with h in front can be. */
  lemma PrependFacts(h: int, c: seq<int>)
    ensures Elems([h] + c) == {h} + Elems(c)
    ensures NoDup(c) && h !in c ==> NoDup([h] + c)
  {
    var r := [h] + c;
    ElemsCons(r);
    assert r[1..] == c;
    if NoDup(c) && h !in c {
      forall i, j | 0 <= i < j < |r| ensures r[i] != r[j] {
        assert r[j] == c[j - 1];
        if i > 0 { assert r[i] == c[i - 1]; }
      }
    }
  }

  lemma TailFacts(xs: seq<int>)
    requires xs != []
    ensures Elems(xs) == {xs[0]} + Elems(xs[1..])
    ensures NoDup(xs) ==> NoDup(xs[1..]) && xs[0] !in xs[1..]
  {
    ElemsCons(xs);
    if NoDup(xs) {
      var t := xs[1..];
      forall i, j | 0 <= i < j < |t| ensures t[i] != t[j] {
        assert t[i] == xs[i + 1] && t[j] == xs[j + 1];
      }
      forall k | 0 <= k < |t| ensures t[k] != xs[0] {
        assert t[k] == xs[k + 1];
      }
    }
  }

  /** itertools.combinations(xs, k): the k-element selections of xs, in position order. */
  function Combinations(xs: seq<int>, k: nat): seq<seq<int>>
    decreases |xs|
  {
    if k == 0 then [[]]
    else if |xs| < k then []
    else PrependAll(xs[0], Combinations(xs[1..], k - 1)) + Combinations(xs[1..], k)
  }

  /** A combination of the tail with the head put in front is a combination of xs. */
  lemma FrontShape(xs: seq<int>, k: nat, c: seq<int>)
    requires xs != [] && k > 0
    requires |c| == k - 1 && Elems(c) <= Elems(xs[1..]) && (NoDup(xs[1..]) ==> NoDup(c))
    ensures |[xs[0]] + c| == k && Elems([xs[0]] + c) <= Elems(xs)
    ensures NoDup(xs) ==> NoDup([xs[0]] + c)
  {
    TailFacts(xs);
    PrependFacts(xs[0], c);
    assert xs[0] in c ==> xs[0] in Elems(c);
  }

  /** One combination has k entries drawn from xs, and no repeat when xs has none. */
  lemma {:induction false} CombinationMember(xs: seq<int>, k: nat, c: seq<int>)
    requires c in Combinations(xs, k)
    ensures |c| == k && Elems(c) <= Elems(xs)
    ensures NoDup(xs) ==> NoDup(c)
    decreases |xs|
  {
    if k == 0 {
      assert Combinations(xs, k) == [[]];
      assert Elems(c) == {};
    } else if |xs| < k {
      assert false;
    } else {
      var with := Combinations(xs[1..], k - 1);
      var front := PrependAll(xs[0], with);
      assert Combinations(xs, k) == front + Combinations(xs[1..], k);
      if c in front {
        var i :| 0 <= i < |front| && front[i] == c;
        assert with[i] in with;
        CombinationMember(xs[1..], k - 1, with[i]);
        FrontShape(xs, k, with[i]);
      } else {
        CombinationMember(xs[1..], k, c);
        TailFacts(xs);
      }
    }
  }

  /** Each combination has k entries drawn from xs, and none repeats when xs has no repeats. */
  lemma CombinationsShape(xs: seq<int>, k: nat)
    ensures forall c :: c in Combinations(xs, k) ==> |c| == k && Elems(c) <= Elems(xs)
    ensures NoDup(xs) ==> forall c :: c in Combinations(xs, k) ==> NoDup(c)
  {
    forall c | c in Combinations(xs, k) ensures |c| == k && Elems(c) <= Elems(xs) && (NoDup(xs) ==> NoDup(c)) {
      CombinationMember(xs, k, c);
    }
  }

  /** A set of ids drawn from a tuple has at most as many ids as the tuple has entries. */
  lemma SubsetCard(T: set<int>, xs: seq<int>)
    requires T <= Elems(xs)
    ensures |T| <= |xs|
  {
    ElemsCard(xs);
    assert Elems(xs) == T + (Elems(xs) - T);
  }

  /** The combinations with the first entry, then those without it. */
  lemma CombinationsSplit(xs: seq<int>, k: nat)
    requires 0 < k <= |xs|
    ensures Combinations(xs, k) == PrependAll(xs[0], Combinations(xs[1..], k - 1)) + Combinations(xs[1..], k)
  {
  }

  lemma PutBack(h: int, T: set<int>)
    requires h in T
    ensures {h} + (T - {h}) == T && (T - {h}) + {h} == T
  {
  }

  lemma InAppend<T>(a: seq<T>, b: seq<T>, x: T)
    ensures x in a + b <==> x in a || x in b
  {
  }

  lemma PrependMember(h: int, cs: seq<seq<int>>, c: seq<int>)
    requires c in cs
    ensures [h] + c in PrependAll(h, cs)
  {
    var i :| 0 <= i < |cs| && cs[i] == c;
    assert PrependAll(h, cs)[i] == [h] + c;
  }

  /** Every subset of a tuple without repeats is the set of one of its combinations. */
  lemma {:induction false} CombinationsComplete(xs: seq<int>, T: set<int>)
    requires NoDup(xs) && T <= Elems(xs)
    ensures exists c :: c in Combinations(xs, |T|) && Elems(c) == T
    decreases |xs|
  {
    if |T| == 0 {
      var e: seq<int> := [];
      assert T == {} == Elems(e);
      assert e in Combinations(xs, 0);
    } else {
      SubsetCard(T, xs);
      var h, t := xs[0], xs[1..];
      TailFacts(xs);
      CombinationsSplit(xs, |T|);
      var with := Combinations(t, |T| - 1);
      var r := Combinations(xs, |T|);
      if h in T {
        var T' := T - {h};
        assert |T'| == |T| - 1;
        CombinationsComplete(t, T');
        var c' :| c' in with && Elems(c') == T';
        PrependMember(h, with, c');
        InAppend(PrependAll(h, with), Combinations(t, |T|), [h] + c');
        PrependFacts(h, c');
        PutBack(h, T);
      } else {
        CombinationsComplete(t, T);
        var c :| c in Combinations(t, |T|) && Elems(c) == T;
        InAppend(PrependAll(h, with), Combinations(t, |T|), c);
        assert c in r;
      }
    }
  }

  /** list(s): the elements of a set in an order Python does not specify. */
  method ListOf<T(==)>(s: set<T>) returns (xs: seq<T>)
    ensures forall x :: x in xs <==> x in s
    ensures NoDup(xs) && |xs| == |s|
  {
    xs := [];
    var rest := s;
    while rest != {}
      invariant rest <= s
      invariant forall x :: x in xs <==> x in s && x !in rest
      invariant NoDup(xs)
      invariant |xs| + |rest| == |s|
      decreases |rest|
    {
      var x :| x in rest;
      xs := xs + [x];
      rest := rest - {x};
    }
  }

  // ---------------------------------------------------------------------
  // subsets
  // ---------------------------------------------------------------------

  /** A key that `subsets(s)` produces: the sorted tuple of a non-empty subset of s. */
  predicate IsSubsetKey(k: Key, s: set<int>) {
    k != [] && StrictlySorted(k) && Elems(k) <= s
  }

  /** Sorting an m-combination of a tuple without repeats gives the key of an m-subset. */
  lemma CombinationKeyIsSubset(xs: seq<int>, m: nat, c: seq<int>)
    requires NoDup(xs) && m > 0 && c in Combinations(xs, m)
    ensures IsSubsetKey(SortKey(c), Elems(xs)) && |SortKey(c)| == m
  {
    CombinationsShape(xs, m);
    SortKeyOfNoDup(c);
  }

  /** The key of an m-subset is the sorted form of some m-combination. */
  lemma SubsetKeyIsCombination(xs: seq<int>, k: Key)
    requires NoDup(xs) && IsSubsetKey(k, Elems(xs))
    ensures exists c :: c in Combinations(xs, |k|) && SortKey(c) == k
  {
    ElemsCard(k);
    CombinationsComplete(xs, Elems(k));
    var c :| c in Combinations(xs, |k|) && Elems(c) == Elems(k);
    CombinationsShape(xs, |k|);
    SortKeyOfNoDup(c);
    StrictKeyOfElems(k);
  }

  /** The set of tuple(sorted(c)) over the tuples c of cs. */
  function KeysOf(cs: seq<seq<int>>): set<Key>
  {
    if cs == [] then {} else KeysOf(cs[..|cs| - 1]) + {SortKey(cs[|cs| - 1])}
  }

  lemma {:induction false} KeysOfMember(cs: seq<seq<int>>, k: Key)
    ensures k in KeysOf(cs) <==> exists c :: c in cs && k == SortKey(c)
  {
    if cs != [] {
      var front := cs[..|cs| - 1];
      KeysOfMember(front, k);
      assert cs == front + [cs[|cs| - 1]];
      InAppend(front, [cs[|cs| - 1]], cs[|cs| - 1]);
      if exists c :: c in cs && k == SortKey(c) {
        var c :| c in cs && k == SortKey(c);
        InAppend(front, [cs[|cs| - 1]], c);
      }
    }
  }

  /** The keys of the sorted m-combinations are the keys of the m-subsets. */
  lemma LevelKeys(xs: seq<int>, m: nat, k: Key)
    requires NoDup(xs) && m > 0
    ensures k in KeysOf(Combinations(xs, m)) <==> IsSubsetKey(k, Elems(xs)) && |k| == m
  {
    var combos := Combinations(xs, m);
    KeysOfMember(combos, k);
    if IsSubsetKey(k, Elems(xs)) && |k| == m {
      SubsetKeyIsCombination(xs, k);
    }
    if exists c :: c in combos && k == SortKey(c) {
      var c :| c in combos && k == SortKey(c);
      CombinationKeyIsSubset(xs, m, c);
    }
  }

  /** A key of a subset of a tuple without repeats is no longer than the tuple. */
  lemma KeyLength(k: Key, xs: seq<int>)
    requires IsSubsetKey(k, Elems(xs)) && NoDup(xs)
    ensures |k| <= |xs|
  {
    ElemsCard(k);
    ElemsCard(xs);
    SubsetCard(Elems(k), xs);
    assert StrictlySorted(k);
    assert NoDup(k) by {
      forall i, j | 0 <= i < j < |k| ensures k[i] != k[j] { assert k[i] < k[j]; }
    }
  }

  lemma ElemsOfList(xs: seq<int>, s: set<int>)
    requires forall x :: x in xs <==> x in s
    ensures Elems(xs) == s
  {
    assert forall x :: x in Elems(xs) <==> x in s;
  }

  /** Adding the keys of the (i + 1)-combinations to the keys of up to i ids gives the keys of up to i + 1 ids. */
  lemma AddLevelKeys(xs: seq<int>, parent: set<int>, i: nat, before: set<Key>, after: set<Key>)
    requires NoDup(xs) && Elems(xs) == parent
    requires forall k :: k in before <==> IsSubsetKey(k, parent) && |k| <= i
    requires after == before + KeysOf(Combinations(xs, i + 1))
    ensures forall k :: k in after <==> IsSubsetKey(k, parent) && |k| <= i + 1
  {
    forall k ensures k in after <==> IsSubsetKey(k, parent) && |k| <= i + 1 {
      LevelKeys(xs, i + 1, k);
    }
  }

  /**
   * subsets: the sorted tuple of every combination of 1 to n elements of
   * list(parent_set), collected in a set. The result is exactly the sorted
   * tuples of the non-empty subsets, whatever order list() gives.
   */
  method Subsets(parent: set<int>) returns (s: set<Key>)
    ensures forall k :: k in s <==> IsSubsetKey(k, parent)
    ensures |s| == Pow2(|parent|) - 1
  {
    var xs := ListOf(parent);
    ElemsOfList(xs, parent);
    s := {};
    var n := |xs|;
    for i := 0 to n
      invariant forall k :: k in s <==> IsSubsetKey(k, parent) && |k| <= i
    {
      var combos := Combinations(xs, i + 1);
      ghost var before := s;
      for j := 0 to |combos|
        invariant s == before + KeysOf(combos[..j])
      {
        KeysOfSnoc(combos, j);
        s := s + {SortKey(combos[j])};
      }
      assert combos[..|combos|] == combos;
      AddLevelKeys(xs, parent, i, before, s);
    }
    AllLevelKeys(xs, parent, s);
  }

  /** Taking one more combination adds its key. */
  lemma KeysOfSnoc(cs: seq<seq<int>>, j: nat)
    requires j < |cs|
    ensures KeysOf(cs[..j + 1]) == KeysOf(cs[..j]) + {SortKey(cs[j])}
  {
    assert cs[..j + 1][..j] == cs[..j];
  }

  /** The keys of up to n of n distinct ids are the keys of all non-empty subsets, 2^n - 1 of them. */
  lemma AllLevelKeys(xs: seq<int>, parent: set<int>, s: set<Key>)
    requires NoDup(xs) && Elems(xs) == parent
    requires forall k :: k in s <==> IsSubsetKey(k, parent) && |k| <= |xs|
    ensures forall k :: k in s <==> IsSubsetKey(k, parent)
    ensures |s| == Pow2(|parent|) - 1
  {
    forall k | IsSubsetKey(k, parent) ensures |k| <= |xs| {
      KeyLength(k, xs);
    }
    SubsetKeysCount(parent, s);
  }

  // ---------------------------------------------------------------------
  // Counting
  // ---------------------------------------------------------------------

  /** The image Y of a set X under a function one-to-one on X has as many elements as X. */
  lemma {:induction false} InjectiveImageCard<A, B>(X: set<A>, Y: set<B>, f: A -> B)
    requires forall a, b :: a in X && b in X && f(a) == f(b) ==> a == b
    requires forall a :: a in X ==> f(a) in Y
    requires forall y :: y in Y ==> exists a :: a in X && f(a) == y
    ensures |Y| == |X|
    decreases |X|
  {
    if X != {} {
      var a := Pick(X);
      var X' := X - {a};
      var Y' := Y - {f(a)};
      forall y | y in Y' ensures exists a' :: a' in X' && f(a') == y {
        var a' :| a' in X && f(a') == y;
      }
      InjectiveImageCard(X', Y', f);
    } else {
      if Y != {} {
        var y := Pick(Y);
      }
    }
  }

  /** Each set of F with x added. */
  ghost function AddToEach(F: set<set<int>>, x: int): set<set<int>> {
    set T | T in F :: T + {x}
  }

  /** All subsets of the ids of a tuple, built one entry at a time. */
  ghost function PowersetOf(xs: seq<int>): set<set<int>>
    decreases |xs|
  {
    if xs == [] then {{}}
    else
      var rest := PowersetOf(xs[1..]);
      rest + AddToEach(rest, xs[0])
  }

  lemma {:induction false} PowersetMember(xs: seq<int>, T: set<int>)
    ensures T in PowersetOf(xs) <==> T <= Elems(xs)
    decreases |xs|
  {
    if xs == [] {
      assert Elems(xs) == {};
      assert T <= {} <==> T == {};
    } else {
      var x, t := xs[0], xs[1..];
      var rest := PowersetOf(t);
      var added := AddToEach(rest, x);
      assert PowersetOf(xs) == rest + added;
      ElemsCons(xs);
      PowersetMember(t, T);
      if x in T {
        PowersetMember(t, T - {x});
        PutBack(x, T);
        assert T <= Elems(xs) <==> T - {x} <= Elems(t);
        if T - {x} in rest {
          assert (T - {x}) + {x} in added;
        }
        if T in added {
          var U :| U in rest && T == U + {x};
          PowersetMember(t, U);
          assert U <= Elems(t);
        }
      } else {
        assert T !in added;
      }
    }
  }

  /** Adding a fixed id absent from every member is one-to-one on the subsets of the rest. */
  lemma AddFirstCard(xs: seq<int>)
    requires NoDup(xs) && xs != []
    ensures |AddToEach(PowersetOf(xs[1..]), xs[0])| == |PowersetOf(xs[1..])|
  {
    var x, t := xs[0], xs[1..];
    var rest := PowersetOf(t);
    TailFacts(xs);
    forall T | T in rest ensures x !in T {
      PowersetMember(t, T);
    }
    var add := (T: set<int>) => T + {x};
    var added := AddToEach(rest, x);
    forall U | U in added ensures exists T :: T in rest && add(T) == U {
      var T :| T in rest && U == T + {x};
      assert add(T) == U;
    }
    InjectiveImageCard(rest, added, add);
  }

  /** A tuple of n distinct ids has 2^n subsets. */
  lemma {:induction false} PowersetCard(xs: seq<int>)
    requires NoDup(xs)
    ensures |PowersetOf(xs)| == Pow2(|xs|)
    decreases |xs|
  {
    if xs != [] {
      var x, t := xs[0], xs[1..];
      var rest := PowersetOf(t);
      var added := AddToEach(rest, x);
      TailFacts(xs);
      PowersetCard(t);
      AddFirstCard(xs);
      AddFirstDisjoint(xs);
      assert PowersetOf(xs) == rest + added;
      assert |rest + added| == |rest| + |added|;
    }
  }

  /** The subsets with the first id and those without it are disjoint. */
  lemma AddFirstDisjoint(xs: seq<int>)
    requires NoDup(xs) && xs != []
    ensures PowersetOf(xs[1..]) !! AddToEach(PowersetOf(xs[1..]), xs[0])
  {
    var x, t := xs[0], xs[1..];
    var rest := PowersetOf(t);
    TailFacts(xs);
    forall T | T in rest ensures x !in T {
      PowersetMember(t, T);
    }
  }

  /** A strictly sorted key has no repeated id. */
  lemma StrictNoDup(k: Key)
    requires StrictlySorted(k)
    ensures NoDup(k)
  {
    forall i, j | 0 <= i < j < |k| ensures k[i] != k[j] {
      assert k[i] < k[j];
    }
  }

  /** `subsets` of n ids has 2^n - 1 keys: one per non-empty subset. */
  lemma SubsetKeysCount(parent: set<int>, s: set<Key>)
    requires forall k :: k in s <==> IsSubsetKey(k, parent)
    ensures |s| == Pow2(|parent|) - 1
  {
    var xs := SortedKey(parent);
    StrictNoDup(xs);
    PowersetCard(xs);
    var all := PowersetOf(xs);
    var nonEmpty := all - {{}};
    var elems := (k: Key) => Elems(k);
    forall a, b | a in s && b in s && elems(a) == elems(b) ensures a == b {
      StrictKeysEqual(a, b);
    }
    forall k | k in s ensures elems(k) in nonEmpty {
      PowersetMember(xs, Elems(k));
      assert k[0] in Elems(k);
    }
    forall T | T in nonEmpty ensures exists k :: k in s && elems(k) == T {
      PowersetMember(xs, T);
      var k := SortedKey(T);
      assert |k| == |T| && |T| != 0;
      assert k in s && elems(k) == T;
    }
    InjectiveImageCard(s, nonEmpty, elems);
    PowersetMember(xs, {});
  }

  // ---------------------------------------------------------------------
  // complement_pairs
  // ---------------------------------------------------------------------

  /** (l, r) splits s: two non-empty sorted keys, disjoint, together holding s. */
  predicate IsSplit(s: set<int>, l: Key, r: Key) {
    && l != [] && r != []
    && StrictlySorted(l) && StrictlySorted(r)
    && Elems(l) !! Elems(r)
    && Elems(l) + Elems(r) == s
  }

  /** Every pair is a split of s, and no split occurs in both orientations. */
  predicate SplitPairs(pairs: set<(Key, Key)>, s: set<int>) {
    && (forall p :: p in pairs ==> IsSplit(s, p.0, p.1))
    && (forall p :: p in pairs ==> (p.1, p.0) !in pairs)
  }

  /** The split {l, r} is present in one orientation or the other. */
  predicate Covered(pairs: set<(Key, Key)>, l: Key, r: Key) {
    (l, r) in pairs || (r, l) in pairs
  }

  /** The side of a split holding x, as a set. */
  function SideWith(x: int, p: (Key, Key)): set<int> {
    if x in Elems(p.0) then Elems(p.0) else Elems(p.1)
  }

  /** A split is determined by the side holding a fixed x and the orientation. */
  lemma SplitBySide(s: set<int>, x: int, p: (Key, Key))
    requires x in s && IsSplit(s, p.0, p.1)
    ensures x in SideWith(x, p) && SideWith(x, p) <= s && SideWith(x, p) != s
    ensures x in Elems(p.0) ==> p.0 == SortedKey(SideWith(x, p)) && p.1 == SortedKey(s - SideWith(x, p))
    ensures x !in Elems(p.0) ==> p.1 == SortedKey(SideWith(x, p)) && p.0 == SortedKey(s - SideWith(x, p))
  {
    StrictKeyOfElems(p.0);
    StrictKeyOfElems(p.1);
    assert p.0[0] in Elems(p.0) && p.1[0] in Elems(p.1);
    assert Elems(p.1) == s - Elems(p.0);
    assert Elems(p.0) == s - Elems(p.1);
  }

  /** The sets of the x-sides of an orientation-free family of splits. */
  lemma SplitPairsInjective(s: set<int>, x: int, pairs: set<(Key, Key)>)
    requires x in s && SplitPairs(pairs, s)
    ensures forall p, q :: p in pairs && q in pairs && SideWith(x, p) == SideWith(x, q) ==> p == q
  {
    forall p, q | p in pairs && q in pairs && SideWith(x, p) == SideWith(x, q) ensures p == q {
      SplitBySide(s, x, p);
      SplitBySide(s, x, q);
      assert (p.0, p.1) in pairs;
    }
  }

  /** The sets holding xs[0] and drawn from xs, other than the set of all of xs. */
  ghost function ProperSides(xs: seq<int>): set<set<int>>
    requires xs != []
  {
    AddToEach(PowersetOf(xs[1..]), xs[0]) - {Elems(xs)}
  }

  lemma ProperSidesMember(xs: seq<int>, U: set<int>)
    requires NoDup(xs) && xs != []
    ensures U in ProperSides(xs) <==> xs[0] in U && U <= Elems(xs) && U != Elems(xs)
  {
    var x, t := xs[0], xs[1..];
    TailFacts(xs);
    PowersetMember(t, U - {x});
    if x in U && U <= Elems(xs) {
      PutBack(x, U);
      assert (U - {x}) + {x} in AddToEach(PowersetOf(t), x);
    }
    if U in AddToEach(PowersetOf(t), x) {
      var T :| T in PowersetOf(t) && U == T + {x};
      PowersetMember(t, T);
    }
  }

  /** There are 2^(n-1) - 1 of them for n distinct ids. */
  lemma ProperSidesCard(xs: seq<int>)
    requires NoDup(xs) && xs != []
    ensures |ProperSides(xs)| == Pow2(|xs| - 1) - 1
  {
    var Q := AddToEach(PowersetOf(xs[1..]), xs[0]);
    TailFacts(xs);
    AddFirstCard(xs);
    PowersetCard(xs[1..]);
    ProperSidesMember(xs, Elems(xs));
    PowersetMember(xs[1..], Elems(xs[1..]));
    PutBack(xs[0], Elems(xs));
    assert Elems(xs) in Q by {
      assert Elems(xs) - {xs[0]} == Elems(xs[1..]);
    }
  }

  /** Every set holding x properly inside s is the x-side of some pair of a covering family. */
  lemma ProperSideCovered(s: set<int>, x: int, pairs: set<(Key, Key)>, U: set<int>)
    requires forall l, r :: IsSplit(s, l, r) ==> Covered(pairs, l, r)
    requires x in U && U <= s && U != s
    ensures exists p :: p in pairs && SideWith(x, p) == U
  {
    var l, r := SortedKey(U), SortedKey(s - U);
    assert |s - U| != 0 by { assert s == U + (s - U); }
    assert IsSplit(s, l, r);
    if (l, r) in pairs {
      assert SideWith(x, (l, r)) == U;
    } else {
      assert SideWith(x, (r, l)) == U;
    }
  }

  /**
   * A family of splits of s holding every split in exactly one orientation
   * has 2^(|s|-1) - 1 members, and none when s is empty.
   */
  lemma SplitPairsCount(s: set<int>, pairs: set<(Key, Key)>)
    requires SplitPairs(pairs, s)
    requires forall l, r :: IsSplit(s, l, r) ==> Covered(pairs, l, r)
    ensures |pairs| == if s == {} then 0 else Pow2(|s| - 1) - 1
  {
    if s == {} {
      forall p | p in pairs ensures p.0[0] in s {
        assert p.0[0] in Elems(p.0);
      }
      assert pairs == {};
    } else {
      SplitPairsCountNonEmpty(s, pairs);
    }
  }

  lemma SplitPairsCountNonEmpty(s: set<int>, pairs: set<(Key, Key)>)
    requires s != {} && SplitPairs(pairs, s)
    requires forall l, r :: IsSplit(s, l, r) ==> Covered(pairs, l, r)
    ensures |pairs| == Pow2(|s| - 1) - 1
  {
    var xs := SortedKey(s);
    StrictNoDup(xs);
    var x := xs[0];
    assert x in s;
    var side := (p: (Key, Key)) => SideWith(x, p);
    var proper := ProperSides(xs);
    forall p | p in pairs ensures side(p) in proper {
      SplitBySide(s, x, p);
      ProperSidesMember(xs, SideWith(x, p));
    }
    forall U | U in proper ensures exists p :: p in pairs && side(p) == U {
      ProperSidesMember(xs, U);
      ProperSideCovered(s, x, pairs, U);
    }
    SplitPairsInjective(s, x, pairs);
    InjectiveImageCard(pairs, proper, side);
    ProperSidesCard(xs);
  }

  /**
   * complement_pairs: for each size from 1 to n - 1 and each combination of
   * that size from list(parent_set), the pair (sorted combination, sorted
   * rest) is added unless its reverse is already present. The result holds
   * each split of the set exactly once, in one orientation.
   */
  method ComplementPairs(parent: set<int>) returns (pairs: set<(Key, Key)>)
    ensures SplitPairs(pairs, parent)
    ensures forall l, r :: IsSplit(parent, l, r) ==> Covered(pairs, l, r)
    ensures |pairs| == if parent == {} then 0 else Pow2(|parent| - 1) - 1
  {
    var xs := ListOf(parent);
    ElemsOfList(xs, parent);
    pairs := {};
    var n := |xs|;
    var i := 0;
    while i < n - 1
      invariant 0 <= i <= if n == 0 then 0 else n - 1
      invariant SplitPairs(pairs, parent)
      invariant forall l, r :: IsSplit(parent, l, r) && |l| <= i ==> Covered(pairs, l, r)
    {
      ghost var before := pairs;
      var splits := LevelSplits(parent, Combinations(xs, i + 1));
      LevelSplitsAreSplits(parent, xs, i + 1);
      pairs := AddLevel(parent, splits, pairs);
      LevelCovers(parent, xs, pairs, i + 1);
      assert forall l, r :: Covered(before, l, r) ==> Covered(pairs, l, r);
      i := i + 1;
    }
    AllSizesCovered(parent, xs, pairs, i);
    SplitPairsCount(parent, pairs);
  }

  /** left = set(combo); right = parent_set - left, as sorted keys, for each combination in order. */
  function LevelSplits(s: set<int>, combos: seq<seq<int>>): seq<(Key, Key)> {
    seq(|combos|, j requires 0 <= j < |combos| => Halves(s, combos[j]))
  }

  /** The left and right keys of one combination. */
  function Halves(s: set<int>, c: seq<int>): (Key, Key) {
    (SortedKey(Elems(c)), SortedKey(s - Elems(c)))
  }

  /**
   * The inner loop of complement_pairs over one size: each split is added
   * unless its reverse is already present.
   */
  method AddLevel(parent: set<int>, splits: seq<(Key, Key)>, pairs0: set<(Key, Key)>) returns (pairs: set<(Key, Key)>)
    requires forall p :: p in splits ==> IsSplit(parent, p.0, p.1)
    requires SplitPairs(pairs0, parent)
    ensures SplitPairs(pairs, parent) && pairs0 <= pairs
    ensures forall p :: p in splits ==> Covered(pairs, p.0, p.1)
  {
    pairs := pairs0;
    for j := 0 to |splits|
      invariant SplitPairs(pairs, parent) && pairs0 <= pairs
      invariant forall jj :: 0 <= jj < j ==> Covered(pairs, splits[jj].0, splits[jj].1)
    {
      var left, right := splits[j].0, splits[j].1;
      assert splits[j] in splits;
      if (right, left) !in pairs {
        AddSplit(pairs, parent, left, right);
        pairs := pairs + {(left, right)};
      }
    }
  }

  /** Each m-combination of 1 to n - 1 distinct ids makes a split. */
  lemma LevelSplitsAreSplits(s: set<int>, xs: seq<int>, m: nat)
    requires NoDup(xs) && Elems(xs) == s && 0 < m < |xs|
    ensures forall p :: p in LevelSplits(s, Combinations(xs, m)) ==> IsSplit(s, p.0, p.1)
  {
    var combos := Combinations(xs, m);
    var splits := LevelSplits(s, combos);
    forall p | p in splits ensures IsSplit(s, p.0, p.1) {
      var j :| 0 <= j < |splits| && splits[j] == p;
      assert p == Halves(s, combos[j]);
      ComboIsSplit(s, xs, m, combos[j]);
    }
  }

  lemma ComboIsSplit(s: set<int>, xs: seq<int>, m: nat, c: seq<int>)
    requires NoDup(xs) && Elems(xs) == s && 0 < m < |xs| && c in Combinations(xs, m)
    ensures IsSplit(s, Halves(s, c).0, Halves(s, c).1)
  {
    CombinationSets(xs, m);
    ElemsCard(xs);
    ComboSplit(s, Elems(c));
  }

  /** Each m-combination of distinct ids holds m of them. */
  lemma CombinationSets(xs: seq<int>, m: nat)
    requires NoDup(xs)
    ensures forall c :: c in Combinations(xs, m) ==> Elems(c) <= Elems(xs) && |Elems(c)| == m
  {
    CombinationsShape(xs, m);
    forall c | c in Combinations(xs, m) ensures |Elems(c)| == m {
      ElemsCard(c);
    }
  }

  /** Covering the split of every m-combination covers every split with m ids on the left. */
  lemma LevelCovers(s: set<int>, xs: seq<int>, pairs: set<(Key, Key)>, m: nat)
    requires NoDup(xs) && Elems(xs) == s
    requires forall p :: p in LevelSplits(s, Combinations(xs, m)) ==> Covered(pairs, p.0, p.1)
    ensures forall l, r :: IsSplit(s, l, r) && |l| == m ==> Covered(pairs, l, r)
  {
    forall l, r | IsSplit(s, l, r) && |l| == m ensures Covered(pairs, l, r) {
      SplitInLevel(s, xs, l, r);
    }
  }

  /** Every split appears among the splits of the combinations of its left size. */
  lemma SplitInLevel(s: set<int>, xs: seq<int>, l: Key, r: Key)
    requires NoDup(xs) && Elems(xs) == s && IsSplit(s, l, r)
    ensures (l, r) in LevelSplits(s, Combinations(xs, |l|))
  {
    SplitOfCombination(s, xs, l, r);
    var c :| c in Combinations(xs, |l|) && Elems(c) == Elems(l);
    LevelSplitsMember(s, Combinations(xs, |l|), c);
  }

  lemma LevelSplitsMember(s: set<int>, combos: seq<seq<int>>, c: seq<int>)
    requires c in combos
    ensures (SortedKey(Elems(c)), SortedKey(s - Elems(c))) in LevelSplits(s, combos)
  {
    var j :| 0 <= j < |combos| && combos[j] == c;
    assert LevelSplits(s, combos)[j] == Halves(s, c);
  }

  /** Covering every split with a left side of at most n - 1 ids covers every split. */
  lemma AllSizesCovered(s: set<int>, xs: seq<int>, pairs: set<(Key, Key)>, i: nat)
    requires NoDup(xs) && Elems(xs) == s && i >= |xs| - 1
    requires forall l, r :: IsSplit(s, l, r) && |l| <= i ==> Covered(pairs, l, r)
    ensures forall l, r :: IsSplit(s, l, r) ==> Covered(pairs, l, r)
  {
    forall l, r | IsSplit(s, l, r) ensures |l| <= i {
      SplitLength(s, xs, l, r);
    }
  }

  /** A set of 1 to |s| - 1 ids of s makes a split of s. */
  lemma ComboSplit(s: set<int>, left: set<int>)
    requires left <= s && 0 < |left| < |s|
    ensures IsSplit(s, SortedKey(left), SortedKey(s - left))
  {
    var right := s - left;
    SplitSets(s, left);
    var l, r := SortedKey(left), SortedKey(right);
    assert |l| != 0 && |r| != 0;
  }

  lemma SplitSets(s: set<int>, left: set<int>)
    requires left <= s && |left| < |s|
    ensures left !! (s - left) && left + (s - left) == s && |s - left| != 0
  {
    assert s == left + (s - left);
  }

  /** Adding a split whose reverse is absent keeps the family orientation-free. */
  lemma AddSplit(pairs: set<(Key, Key)>, s: set<int>, l: Key, r: Key)
    requires SplitPairs(pairs, s) && IsSplit(s, l, r) && (r, l) !in pairs
    ensures SplitPairs(pairs + {(l, r)}, s)
  {
    assert l != r by { assert l[0] in Elems(l); }
  }

  /** Each split with an m-element left side comes from an m-combination. */
  lemma SplitOfCombination(s: set<int>, xs: seq<int>, l: Key, r: Key)
    requires NoDup(xs) && Elems(xs) == s && IsSplit(s, l, r)
    ensures exists c :: c in Combinations(xs, |l|) && Elems(c) == Elems(l)
    ensures SortedKey(Elems(l)) == l && SortedKey(s - Elems(l)) == r
  {
    StrictNoDup(l);
    ElemsCard(l);
    CombinationsComplete(xs, Elems(l));
    StrictKeyOfElems(l);
    StrictKeyOfElems(r);
    assert s - Elems(l) == Elems(r);
  }

  /** The left side of a split of the ids of xs is shorter than xs. */
  lemma SplitLength(s: set<int>, xs: seq<int>, l: Key, r: Key)
    requires NoDup(xs) && Elems(xs) == s && IsSplit(s, l, r)
    ensures |l| <= |xs| - 1
  {
    StrictNoDup(l);
    StrictNoDup(r);
    ElemsCard(l);
    ElemsCard(r);
    ElemsCard(xs);
  }
}
