/** JavaScript's `indexOf`, `split`, `includes` and `join` on strings, and the laws the other modules rest on. */
module Strings {

  predicate OccursAt(s: string, sep: string, i: int) {
    0 <= i && i + |sep| <= |s| && s[i..i + |sep|] == sep
  }

  predicate Contains(s: string, sep: string) {
    exists i :: 0 <= i <= |s| && OccursAt(s, sep, i)
  }

  /** Index of the leftmost occurrence of `sep`, or `|s|` when there is none. */
  function Find(s: string, sep: string): (i: nat)
    requires sep != ""
    ensures i <= |s|
  {
    if |s| < |sep| then |s|
    else if sep <= s then 0
    else 1 + Find(s[1..], sep)
  }

  /** `s.split(sep)`: cut at leftmost, non-overlapping occurrences. */
  function Split(s: string, sep: string): (parts: seq<string>)
    requires sep != ""
    ensures |parts| >= 1
    decreases |s|
  {
    var i := Find(s, sep);
    if i == |s| then [s]
    else
      FindIsLeftmost(s, sep);
      [s[..i]] + Split(s[i + |sep|..], sep)
  }

  /** `parts.join(sep)` */
  function Join(parts: seq<string>, sep: string): string {
    if |parts| == 0 then ""
    else if |parts| == 1 then parts[0]
    else parts[0] + sep + Join(parts[1..], sep)
  }

  lemma DropOne(s: string, i: int, j: int)
    requires 1 <= i <= j
    ensures j <= |s| ==> s[i..j] == s[1..][i - 1..j - 1]
  {
    if j <= |s| {
      var a, b := s[i..j], s[1..][i - 1..j - 1];
      assert |a| == |b| && forall k :: 0 <= k < |a| ==> a[k] == b[k];
    }
  }

  lemma {:induction false} FindIsLeftmost(s: string, sep: string)
    requires sep != ""
    ensures Find(s, sep) < |s| ==> OccursAt(s, sep, Find(s, sep))
    ensures forall j :: 0 <= j < Find(s, sep) ==> !OccursAt(s, sep, j)
    ensures Find(s, sep) == |s| ==> !Contains(s, sep)
    decreases |s|
  {
    if |s| >= |sep| && !(sep <= s) {
      FindIsLeftmost(s[1..], sep);
      forall j | 1 <= j <= |s|
        ensures OccursAt(s, sep, j) == OccursAt(s[1..], sep, j - 1)
      {
        DropOne(s, j, j + |sep|);
      }
      assert !OccursAt(s, sep, 0);
    }
  }

  lemma FindUnique(s: string, sep: string, i: nat)
    requires sep != "" && OccursAt(s, sep, i)
    requires forall j :: 0 <= j < i ==> !OccursAt(s, sep, j)
    ensures Find(s, sep) == i
  {
    FindIsLeftmost(s, sep);
  }

  lemma ContainsFound(s: string, sep: string)
    requires sep != ""
    ensures Contains(s, sep) <==> Find(s, sep) < |s|
  {
    FindIsLeftmost(s, sep);
  }

  /** Splitting a text without the separator is the identity. */
  lemma SplitWhole(s: string, sep: string)
    requires sep != ""
    ensures Split(s, sep) == [s] <==> !Contains(s, sep)
  {
    ContainsFound(s, sep);
    if Find(s, sep) < |s| {
      FindIsLeftmost(s, sep);
      assert Split(s, sep)[0] == s[..Find(s, sep)];
    }
  }

  /** If the leftmost occurrence in `a + sep + rest` is the one after `a`, the split peels `a` off. */
  lemma SplitPeel(a: string, sep: string, rest: string)
    requires sep != "" && Find(a + sep + rest, sep) == |a|
    ensures Split(a + sep + rest, sep) == [a] + Split(rest, sep)
  {
    var s := a + sep + rest;
    assert s[..|a|] == a;
    assert s[|a| + |sep|..] == rest;
  }

  /** A one-character separator is found right after a text that does not contain it. */
  lemma FindAfterChar(a: string, c: char, rest: string)
    requires c !in a
    ensures Find(a + [c] + rest, [c]) == |a|
  {
    var s := a + [c] + rest;
    assert OccursAt(s, [c], |a|);
    forall j | 0 <= j < |a|
      ensures !OccursAt(s, [c], j)
    {
      assert s[j..j + 1] == [a[j]];
    }
    FindUnique(s, [c], |a|);
  }

  lemma NotContainsChar(s: string, c: char)
    requires c !in s
    ensures !Contains(s, [c])
  {
    forall i | 0 <= i <= |s|
      ensures !OccursAt(s, [c], i)
    {
      if i < |s| {
        assert s[i..i + 1] == [s[i]];
      }
    }
  }

  /** `split` inverts `join` for pieces free of the one-character separator. */
  lemma {:induction false} SplitJoin(parts: seq<string>, c: char)
    requires parts != [] && forall p :: p in parts ==> c !in p
    ensures Split(Join(parts, [c]), [c]) == parts
  {
    if |parts| == 1 {
      NotContainsChar(parts[0], c);
      SplitWhole(parts[0], [c]);
    } else {
      FindAfterChar(parts[0], c, Join(parts[1..], [c]));
      SplitPeel(parts[0], [c], Join(parts[1..], [c]));
      SplitJoin(parts[1..], c);
    }
  }

  /** `join` inverts `split`. */
  lemma {:induction false} JoinSplit(s: string, sep: string)
    requires sep != ""
    ensures Join(Split(s, sep), sep) == s
    decreases |s|
  {
    FindIsLeftmost(s, sep);
    var i := Find(s, sep);
    if i < |s| {
      var rest := s[i + |sep|..];
      JoinSplit(rest, sep);
      assert ([s[..i]] + Split(rest, sep))[1..] == Split(rest, sep);
      assert s == s[..i] + sep + rest;
    }
  }

  /** No part of a split holds the one-character separator. */
  lemma {:induction false} SplitParts(s: string, c: char)
    ensures forall p :: p in Split(s, [c]) ==> c !in p
    decreases |s|
  {
    FindIsLeftmost(s, [c]);
    var i := Find(s, [c]);
    forall j | 0 <= j < i
      ensures s[j] != c
    {
      assert s[j..j + 1] == [s[j]] && !OccursAt(s, [c], j);
    }
    if i < |s| {
      SplitParts(s[i + 1..], c);
    }
  }
}
