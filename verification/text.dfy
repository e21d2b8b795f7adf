/**
 * The few java.lang.String and commons-lang operations the Java converters
 * use: ASCII case mapping, contains, trim, isBlank, and split around a
 * literal separator. A string is a sequence of Unicode characters; Java's
 * UTF-16 code units, and so its surrogate pairs, are not modelled.
 */
module Text {
  import opened Wrappers

  /** Character.toLowerCase on the ASCII letters; other characters are kept. */
  function LowerChar(c: char): char {
    if 'A' <= c <= 'Z' then (c as int + 32) as char else c
  }

  /** Character.toUpperCase on the ASCII letters; other characters are kept. */
  function UpperChar(c: char): char {
    if 'a' <= c <= 'z' then (c as int - 32) as char else c
  }

  /** String.toLowerCase: each character mapped on its own. */
  function ToLower(s: string): (r: string)
    ensures |r| == |s| && forall i :: 0 <= i < |s| ==> r[i] == LowerChar(s[i])
  {
    seq(|s|, i requires 0 <= i < |s| => LowerChar(s[i]))
  }

  /** String.toUpperCase: each character mapped on its own. */
  function ToUpper(s: string): (r: string)
    ensures |r| == |s| && forall i :: 0 <= i < |s| ==> r[i] == UpperChar(s[i])
  {
    seq(|s|, i requires 0 <= i < |s| => UpperChar(s[i]))
  }

  /** p occurs in s starting at index j. */
  predicate OccursAt(s: string, p: string, j: int) {
    0 <= j && j + |p| <= |s| && s[j..j + |p|] == p
  }

  /** String.contains. */
  predicate Contains(s: string, p: string) {
    exists j :: 0 <= j <= |s| && OccursAt(s, p, j)
  }

  /** String.indexOf(p, from): the first occurrence of p at or after `from`. */
  function IndexOfFrom(s: string, p: string, from: nat): (r: Option<nat>)
    requires from <= |s|
    ensures r.Some? ==> from <= r.value && OccursAt(s, p, r.value)
    ensures r.Some? ==> forall j :: from <= j < r.value ==> !OccursAt(s, p, j)
    ensures r.None? ==> forall j :: from <= j ==> !OccursAt(s, p, j)
    decreases |s| - from
  {
    if from + |p| > |s| then None
    else if s[from..from + |p|] == p then Some(from)
    else if from == |s| then None
    else IndexOfFrom(s, p, from + 1)
  }

  /** The first occurrence of p in s exists exactly when s contains p. */
  lemma IndexOfContains(s: string, p: string)
    ensures IndexOfFrom(s, p, 0).Some? <==> Contains(s, p)
  {
    var r := IndexOfFrom(s, p, 0);
    if r.Some? {
      assert OccursAt(s, p, r.value);
    }
  }

  /** Java's trim() removes characters up to U+0020 from both ends. */
  predicate Trimmable(c: char) {
    c <= ' '
  }

  function TrimStart(s: string): (r: string)
    ensures |r| <= |s| && r == s[|s| - |r|..]
    ensures r == [] || !Trimmable(r[0])
    ensures forall i :: 0 <= i < |s| - |r| ==> Trimmable(s[i])
  {
    if s != [] && Trimmable(s[0]) then TrimStart(s[1..]) else s
  }

  function TrimEnd(s: string): (r: string)
    ensures |r| <= |s| && r == s[..|r|]
    ensures r == [] || !Trimmable(r[|r| - 1])
    ensures forall i :: |r| <= i < |s| ==> Trimmable(s[i])
  {
    if s != [] && Trimmable(s[|s| - 1]) then TrimEnd(s[..|s| - 1]) else s
  }

  /** Everything before index a and from index b on is trimmable. */
  predicate TrimmedAt(s: string, a: int, b: int) {
    && 0 <= a <= b <= |s|
    && (forall i :: 0 <= i < a ==> Trimmable(s[i]))
    && (forall i :: b <= i < |s| ==> Trimmable(s[i]))
  }

  /**
   * String.trim: the longest middle part of s with no trimmable character at
   * either end; everything removed is trimmable.
   */
  function Trim(s: string): (r: string)
    ensures exists a, b :: TrimmedAt(s, a, b) && r == s[a..b]
    ensures r == [] || (!Trimmable(r[0]) && !Trimmable(r[|r| - 1]))
  {
    var t := TrimStart(s);
    var u := TrimEnd(t);
    TrimParts(s, t, u);
    u
  }

  /** Trimming the end of what trimming the start left is a middle part of s. */
  lemma TrimParts(s: string, t: string, u: string)
    requires |t| <= |s| && t == s[|s| - |t|..] && (t == [] || !Trimmable(t[0]))
    requires forall i :: 0 <= i < |s| - |t| ==> Trimmable(s[i])
    requires |u| <= |t| && u == t[..|u|] && (u == [] || !Trimmable(u[|u| - 1]))
    requires forall i :: |u| <= i < |t| ==> Trimmable(t[i])
    ensures TrimmedAt(s, |s| - |t|, |s| - |t| + |u|) && u == s[|s| - |t|..|s| - |t| + |u|]
    ensures u == [] || (!Trimmable(u[0]) && !Trimmable(u[|u| - 1]))
  {
    var a := |s| - |t|;
    forall i | a + |u| <= i < |s| ensures Trimmable(s[i]) {
      assert s[i] == t[i - a];
    }
    if u != [] {
      assert u[0] == t[0];
    }
  }

  /** Character.isWhitespace. */
  predicate IsWhitespace(c: char) {
    || c == ' ' || c == '\t' || c == '\n' || c == '\U{000B}' || c == '\U{000C}' || c == '\r'
    || ('\U{001C}' <= c <= '\U{001F}')
    || c == '\U{1680}' || ('\U{2000}' <= c <= '\U{2006}') || ('\U{2008}' <= c <= '\U{200A}')
    || c == '\U{2028}' || c == '\U{2029}' || c == '\U{205F}' || c == '\U{3000}'
  }

  /** StringUtils.isBlank on a non-null string: empty or whitespace only. */
  predicate IsBlank(s: string) {
    forall i :: 0 <= i < |s| ==> IsWhitespace(s[i])
  }

  /**
   * The pieces of s around the successive leftmost, non-overlapping
   * occurrences of sep, the empty pieces included.
   */
  function SplitAll(s: string, sep: string): (r: seq<string>)
    requires sep != []
    ensures |r| >= 1
    decreases |s|
  {
    match IndexOfFrom(s, sep, 0)
    case None => [s]
    case Some(i) => [s[..i]] + SplitAll(s[i + |sep|..], sep)
  }

  /** The pieces joined back with the separator. */
  function Join(pieces: seq<string>, sep: string): string
    requires |pieces| >= 1
  {
    if |pieces| == 1 then pieces[0] else pieces[0] + sep + Join(pieces[1..], sep)
  }

  /** Splitting and joining back gives the original string. */
  lemma {:induction false} SplitJoin(s: string, sep: string)
    requires sep != []
    ensures Join(SplitAll(s, sep), sep) == s
    decreases |s|
  {
    match IndexOfFrom(s, sep, 0)
    case None =>
    case Some(i) =>
      var rest := s[i + |sep|..];
      var tail := SplitAll(rest, sep);
      var pieces := SplitAll(s, sep);
      assert pieces == [s[..i]] + tail;
      assert pieces[1..] == tail;
      SplitJoin(rest, sep);
      calc {
        Join(pieces, sep);
        s[..i] + sep + Join(tail, sep);
        s[..i] + sep + rest;
        { assert s[i..i + |sep|] == sep; }
        s;
      }
  }

  /** No piece contains the separator. */
  lemma {:induction false} SplitPiecesFree(s: string, sep: string)
    requires sep != []
    ensures forall k :: 0 <= k < |SplitAll(s, sep)| ==> !Contains(SplitAll(s, sep)[k], sep)
    decreases |s|
  {
    match IndexOfFrom(s, sep, 0)
    case None =>
      IndexOfContains(s, sep);
    case Some(i) =>
      var rest := s[i + |sep|..];
      SplitPiecesFree(rest, sep);
      HeadFree(s, sep, i);
      var pieces := SplitAll(s, sep);
      assert pieces == [s[..i]] + SplitAll(rest, sep);
      forall k | 0 < k < |pieces| ensures pieces[k] == SplitAll(rest, sep)[k - 1] {
      }
  }

  /** The text before the first separator does not contain it. */
  lemma HeadFree(s: string, sep: string, i: nat)
    requires sep != [] && IndexOfFrom(s, sep, 0) == Some(i)
    ensures !Contains(s[..i], sep)
  {
    var head := s[..i];
    forall j | 0 <= j <= |head| ensures !OccursAt(head, sep, j) {
      if OccursAt(head, sep, j) {
        assert head[j..j + |sep|] == s[j..j + |sep|];
        assert OccursAt(s, sep, j);
      }
    }
  }

  /** A string without the separator is split into itself alone. */
  lemma SplitNoSeparator(s: string, sep: string)
    requires sep != [] && !Contains(s, sep)
    ensures SplitAll(s, sep) == [s]
  {
    IndexOfContains(s, sep);
  }

  /** Pattern.split with limit 0 drops the empty pieces at the end. */
  function DropTrailingEmpty(xs: seq<string>): (r: seq<string>)
    ensures |r| <= |xs| && r == xs[..|r|]
    ensures r == [] || r[|r| - 1] != []
    ensures forall k :: |r| <= k < |xs| ==> xs[k] == []
  {
    if xs != [] && xs[|xs| - 1] == [] then DropTrailingEmpty(xs[..|xs| - 1]) else xs
  }

  /**
   * String.split around a literal separator: the whole string when the
   * separator does not occur, otherwise the pieces without the empty ones at
   * the end.
   */
  function JavaSplit(s: string, sep: string): (r: seq<string>)
    requires sep != []
    ensures !Contains(s, sep) ==> r == [s]
    ensures |r| <= |SplitAll(s, sep)| && r == SplitAll(s, sep)[..|r|]
    ensures forall k :: |r| <= k < |SplitAll(s, sep)| ==> SplitAll(s, sep)[k] == []
  {
    if IndexOfFrom(s, sep, 0).None? then
      IndexOfContains(s, sep);
      [s]
    else
      DropTrailingEmpty(SplitAll(s, sep))
  }
}
