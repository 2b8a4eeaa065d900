/** Where `::` stands in a text that is put together from components, and which texts can be cut in two ways. */
module Colons {
  import opened Strings

  const SEP := "::"

  predicate ColonsAt(s: string, j: int) {
    0 <= j && j + 2 <= |s| && s[j] == ':' && s[j + 1] == ':'
  }

  predicate EndsWithColon(s: string) {
    s != "" && s[|s| - 1] == ':'
  }

  predicate StartsWithColon(s: string) {
    s != "" && s[0] == ':'
  }

  /** A component that may stand before a separator. */
  predicate Clean(s: string) {
    !Contains(s, SEP) && !EndsWithColon(s)
  }

  /** A component that may stand after a separator and yet not be taken for a part of it. */
  predicate Tight(s: string) {
    !Contains(s, SEP) && !StartsWithColon(s)
  }

  /** The component `a` stands in `t` from `i` on. */
  predicate PieceAt(t: string, a: string, i: int) {
    0 <= i && i + |a| <= |t| && forall h :: 0 <= h < |a| ==> t[i + h] == a[h]
  }

  lemma OccursIsColons(s: string, j: int)
    ensures OccursAt(s, SEP, j) <==> ColonsAt(s, j)
  {
    if 0 <= j && j + 2 <= |s| {
      assert s[j..j + 2] == [s[j], s[j + 1]];
    }
  }

  lemma ContainsIsColons(s: string)
    ensures Contains(s, SEP) <==> exists j :: ColonsAt(s, j)
  {
    forall j
      ensures OccursAt(s, SEP, j) <==> ColonsAt(s, j)
    {
      OccursIsColons(s, j);
    }
    assert forall j :: ColonsAt(s, j) ==> 0 <= j <= |s| && OccursAt(s, SEP, j);
  }

  // ----- putting together and taking apart -----

  /** `t` is `a`, a separator and `b`. */
  predicate Layered(t: string, a: string, b: string) {
    PieceAt(t, a, 0) && ColonsAt(t, |a|) && PieceAt(t, b, |a| + 2) && |t| == |a| + 2 + |b|
  }

  lemma JoinedPieces(a: string, b: string)
    ensures Layered(a + SEP + b, a, b)
  {
  }

  lemma PieceOfPiece(t: string, r: string, o: int, a: string, i: int)
    requires PieceAt(t, r, o) && PieceAt(r, a, i)
    ensures PieceAt(t, a, o + i)
  {
    forall h | 0 <= h < |a|
      ensures t[o + i + h] == a[h]
    {
      assert t[o + (i + h)] == r[i + h];
    }
  }

  lemma ColonsOfPiece(t: string, r: string, o: int, j: int)
    requires PieceAt(t, r, o) && 0 <= j <= |r| - 2
    ensures ColonsAt(t, o + j) <==> ColonsAt(r, j)
  {
    assert t[o + j] == r[j] && t[o + (j + 1)] == r[j + 1];
  }

  /** The layers of a text found inside a longer text. */
  lemma LayersInside(t: string, o: int, r: string, a: string, b: string)
    requires PieceAt(t, r, o) && Layered(r, a, b)
    ensures PieceAt(t, a, o) && ColonsAt(t, o + |a|) && PieceAt(t, b, o + |a| + 2)
  {
    PieceOfPiece(t, r, o, a, 0);
    PieceOfPiece(t, r, o, b, |a| + 2);
    ColonsOfPiece(t, r, o, |a|);
  }

  lemma PieceIsSlice(t: string, a: string, i: int)
    requires PieceAt(t, a, i)
    ensures t[i..i + |a|] == a
  {
  }

  /** A text is what stands before two colons, a separator, and what stands after. */
  lemma CutAfter(t: string, i: int, j: int)
    requires 0 <= i <= j && ColonsAt(t, j)
    ensures t[i..] == t[i..j] + SEP + t[j + 2..]
  {
    assert t[i..] == t[i..j] + t[j..];
    assert t[j..] == [t[j], t[j + 1]] + t[j + 2..];
  }

  // ----- colons in and around a component -----

  /** No separator begins inside a clean component. */
  lemma CleanInside(t: string, a: string, i: int)
    requires PieceAt(t, a, i) && Clean(a)
    ensures forall j :: i <= j < i + |a| ==> !ColonsAt(t, j)
  {
    ContainsIsColons(a);
    forall j | i <= j < i + |a|
      ensures !ColonsAt(t, j)
    {
      if j < i + |a| - 1 {
        ColonsOfPiece(t, a, i, j - i);
      } else {
        assert t[i + (|a| - 1)] == a[|a| - 1];
      }
    }
  }

  /** No separator begins on the colon before a tight component, or inside it. */
  lemma TightInside(t: string, a: string, i: int)
    requires PieceAt(t, a, i) && Tight(a)
    ensures forall j :: i - 1 <= j <= i + |a| - 2 ==> !ColonsAt(t, j)
  {
    ContainsIsColons(a);
    forall j | i - 1 <= j <= i + |a| - 2
      ensures !ColonsAt(t, j)
    {
      if j >= i {
        ColonsOfPiece(t, a, i, j - i);
      } else {
        assert t[i + 0] == a[0];
      }
    }
  }

  lemma ContainedColons(t: string, a: string, i: int) returns (j: int)
    requires PieceAt(t, a, i) && Contains(a, SEP)
    ensures i <= j <= i + |a| - 2 && ColonsAt(t, j)
  {
    ContainsIsColons(a);
    var h :| ColonsAt(a, h);
    ColonsOfPiece(t, a, i, h);
    j := i + h;
  }

  /** A place in a component that is not clean could be taken for the separator after it. */
  lemma Ambiguous(t: string, a: string, i: int) returns (j: int)
    requires PieceAt(t, a, i) && ColonsAt(t, i + |a|) && !Clean(a)
    ensures i <= j < i + |a| && ColonsAt(t, j)
  {
    if Contains(a, SEP) {
      j := ContainedColons(t, a, i);
    } else {
      j := i + |a| - 1;
      assert t[i + (|a| - 1)] == a[|a| - 1];
    }
  }

  /** A place at or in a component that is not tight could be taken for the separator before it. */
  lemma AmbiguousAfter(t: string, a: string, i: int) returns (j: int)
    requires PieceAt(t, a, i) && ColonsAt(t, i - 2) && !Tight(a)
    ensures i - 2 < j <= i + |a| - 2 && ColonsAt(t, j)
  {
    if Contains(a, SEP) {
      j := ContainedColons(t, a, i);
    } else {
      j := i - 1;
      assert t[i + 0] == a[0];
    }
  }

  // ----- the first cut -----

  lemma FindFirst(t: string, i: nat)
    requires ColonsAt(t, i) && forall j :: 0 <= j < i ==> !ColonsAt(t, j)
    ensures Find(t, SEP) == i
  {
    OccursIsColons(t, i);
    forall j | 0 <= j < i
      ensures !OccursAt(t, SEP, j)
    {
      OccursIsColons(t, j);
    }
    FindUnique(t, SEP, i);
  }

  lemma FindNoLater(t: string, j: int)
    requires ColonsAt(t, j)
    ensures Find(t, SEP) <= j
  {
    OccursIsColons(t, j);
    FindIsLeftmost(t, SEP);
  }

  /** In `a::rest` the first cut falls right after `a` exactly when `a` is clean. */
  lemma FirstCut(a: string, rest: string)
    ensures Find(a + SEP + rest, SEP) <= |a|
    ensures Find(a + SEP + rest, SEP) == |a| <==> Clean(a)
  {
    var t := a + SEP + rest;
    JoinedPieces(a, rest);
    FindNoLater(t, |a|);
    if Clean(a) {
      CleanInside(t, a, 0);
      FindFirst(t, |a|);
    } else {
      var j := Ambiguous(t, a, 0);
      FindNoLater(t, j);
    }
  }

  // ----- two components -----

  lemma PairAlone(a: string, b: string, x: string, y: string)
    requires Clean(a) && Tight(b) && x + SEP + y == a + SEP + b
    ensures x == a && y == b
  {
    var t := a + SEP + b;
    JoinedPieces(a, b);
    JoinedPieces(x, y);
    CleanInside(t, a, 0);
    TightInside(t, b, |a| + 2);
    PieceIsSlice(t, a, 0);
    PieceIsSlice(t, b, |a| + 2);
    PieceIsSlice(t, x, 0);
    PieceIsSlice(t, y, |x| + 2);
  }

  /** Another pair with the same text. */
  lemma PairRival(a: string, b: string) returns (x: string, y: string)
    requires !(Clean(a) && Tight(b))
    ensures x + SEP + y == a + SEP + b && |x| != |a| && |y| != |b|
  {
    var t := a + SEP + b;
    JoinedPieces(a, b);
    var j;
    if !Clean(a) {
      j := Ambiguous(t, a, 0);
    } else {
      j := AmbiguousAfter(t, b, |a| + 2);
    }
    CutAfter(t, 0, j);
    x, y := t[..j], t[j + 2..];
    assert t[0..] == t && t[0..j] == x;
  }
}
