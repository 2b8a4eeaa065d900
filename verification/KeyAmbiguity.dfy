/** Which cache keys of src/cache/shared.ts print alike, and when one prints as the manifest's key. */
module KeyAmbiguity {
  import opened Colons
  import opened CacheKeys

  /** Where the separators of a printed key stand. */
  datatype Cuts = Cuts(first: int, second: int, third: int)

  function CutsOf(k: CacheKey): Cuts {
    var first := |k.prefix|;
    var second := first + 2 + |k.clientId|;
    Cuts(first, second, second + 2 + |k.audience|)
  }

  /** Three places where a text may be cut into a key. */
  predicate Cuttable(t: string, c: Cuts) {
    && ColonsAt(t, c.first) && ColonsAt(t, c.second) && ColonsAt(t, c.third)
    && c.first + 2 <= c.second && c.second + 2 <= c.third
  }

  function KeyAt(t: string, c: Cuts): CacheKey
    requires Cuttable(t, c)
  {
    CacheKey(t[..c.first], t[c.first + 2..c.second], t[c.second + 2..c.third], t[c.third + 2..])
  }

  /** The components of a key stand in `t`, the separators where its cuts are. */
  predicate PiecesOf(t: string, k: CacheKey) {
    var c := CutsOf(k);
    && c.third + 2 + |k.scope| == |t|
    && PieceAt(t, k.prefix, 0) && PieceAt(t, k.clientId, c.first + 2)
    && PieceAt(t, k.audience, c.second + 2) && PieceAt(t, k.scope, c.third + 2)
    && Cuttable(t, c)
  }

  lemma LayersArePieces(t: string, k: CacheKey, r1: string, r2: string)
    requires Layered(t, k.prefix, r1) && Layered(r1, k.clientId, r2) && Layered(r2, k.audience, k.scope)
    ensures PiecesOf(t, k)
  {
    LayersInside(t, CutsOf(k).first + 2, r1, k.clientId, r2);
    LayersInside(t, CutsOf(k).second + 2, r2, k.audience, k.scope);
  }

  lemma Components(k: CacheKey)
    ensures PiecesOf(ToKey(k), k)
  {
    Nested(k);
    var r2 := k.audience + SEP + k.scope;
    var r1 := k.clientId + SEP + r2;
    JoinedPieces(k.prefix, r1);
    JoinedPieces(k.clientId, r2);
    JoinedPieces(k.audience, k.scope);
    LayersArePieces(ToKey(k), k, r1, r2);
  }

  lemma PiecesAreKey(t: string, k: CacheKey)
    requires PiecesOf(t, k)
    ensures KeyAt(t, CutsOf(k)) == k
  {
    PieceIsSlice(t, k.prefix, 0);
    PieceIsSlice(t, k.clientId, CutsOf(k).first + 2);
    PieceIsSlice(t, k.audience, CutsOf(k).second + 2);
    PieceIsSlice(t, k.scope, CutsOf(k).third + 2);
  }

  lemma Separators(k: CacheKey)
    ensures Cuttable(ToKey(k), CutsOf(k)) && KeyAt(ToKey(k), CutsOf(k)) == k
  {
    Components(k);
    PiecesAreKey(ToKey(k), k);
  }

  /** Cutting a text anywhere it can be cut gives a key that prints as that text. */
  lemma Recut(t: string, c: Cuts)
    requires Cuttable(t, c)
    ensures ToKey(KeyAt(t, c)) == t
  {
    CutThrice(t, c.first, c.second, c.third);
    Nested(KeyAt(t, c));
  }

  lemma CutThrice(t: string, i: int, j: int, h: int)
    requires ColonsAt(t, i) && ColonsAt(t, j) && ColonsAt(t, h) && i + 2 <= j && j + 2 <= h
    ensures t == t[..i] + SEP + (t[i + 2..j] + SEP + (t[j + 2..h] + SEP + t[h + 2..]))
  {
    CutAfter(t, 0, i);
    CutAfter(t, i + 2, j);
    CutAfter(t, j + 2, h);
    assert t == t[0..];
  }

  // Where clean components put the cuts, no cut can come earlier.

  lemma NoEarlierFirst(t: string, k: CacheKey, c: Cuts)
    requires PiecesOf(t, k) && Cuttable(t, c) && Clean(k.prefix)
    ensures CutsOf(k).first <= c.first
  {
    CleanInside(t, k.prefix, 0);
  }

  lemma NoEarlierSecond(t: string, k: CacheKey, c: Cuts)
    requires PiecesOf(t, k) && Cuttable(t, c) && Clean(k.clientId) && CutsOf(k).first <= c.first
    ensures CutsOf(k).second <= c.second
  {
    CleanInside(t, k.clientId, CutsOf(k).first + 2);
  }

  lemma NoEarlierThird(t: string, k: CacheKey, c: Cuts)
    requires PiecesOf(t, k) && Cuttable(t, c) && Clean(k.audience) && CutsOf(k).second <= c.second
    ensures CutsOf(k).third <= c.third
  {
    CleanInside(t, k.audience, CutsOf(k).second + 2);
  }

  // Where tight components put the cuts, no cut can come later.

  lemma NoLaterThird(t: string, k: CacheKey, c: Cuts)
    requires PiecesOf(t, k) && Cuttable(t, c) && Tight(k.scope)
    ensures c.third <= CutsOf(k).third
  {
    TightInside(t, k.scope, CutsOf(k).third + 2);
  }

  lemma NoLaterSecond(t: string, k: CacheKey, c: Cuts)
    requires PiecesOf(t, k) && Cuttable(t, c) && Tight(k.audience) && c.third <= CutsOf(k).third
    ensures c.second <= CutsOf(k).second
  {
    TightInside(t, k.audience, CutsOf(k).second + 2);
  }

  lemma NoLaterFirst(t: string, k: CacheKey, c: Cuts)
    requires PiecesOf(t, k) && Cuttable(t, c) && Tight(k.clientId) && c.second <= CutsOf(k).second
    ensures c.first <= CutsOf(k).first
  {
    TightInside(t, k.clientId, CutsOf(k).first + 2);
  }

  /** The condition under which the text and the prefix determine the key. */
  predicate UnambiguousUnderPrefix(k: CacheKey) {
    Clean(k.clientId) && Clean(k.audience) && Tight(k.audience) && Tight(k.scope)
  }

  /** The condition under which the text determines the key: well-formed, and no colon after a separator. */
  predicate Unambiguous(k: CacheKey) {
    Clean(k.prefix) && Tight(k.clientId) && UnambiguousUnderPrefix(k)
  }

  lemma OneCutUnderPrefix(t: string, k: CacheKey, c: Cuts)
    requires PiecesOf(t, k) && Cuttable(t, c) && UnambiguousUnderPrefix(k) && c.first == CutsOf(k).first
    ensures c == CutsOf(k)
  {
    NoEarlierSecond(t, k, c);
    NoEarlierThird(t, k, c);
    NoLaterThird(t, k, c);
    NoLaterSecond(t, k, c);
  }

  lemma OneCut(t: string, k: CacheKey, c: Cuts)
    requires PiecesOf(t, k) && Cuttable(t, c) && Unambiguous(k)
    ensures c == CutsOf(k)
  {
    NoEarlierFirst(t, k, c);
    NoEarlierSecond(t, k, c);
    NoEarlierThird(t, k, c);
    NoLaterThird(t, k, c);
    NoLaterSecond(t, k, c);
    NoLaterFirst(t, k, c);
  }

  /** A client id, audience or scope that could be cut elsewhere. */
  lemma SecondCutUnderPrefix(t: string, k: CacheKey) returns (c: Cuts)
    requires PiecesOf(t, k) && !UnambiguousUnderPrefix(k)
    ensures Cuttable(t, c) && c != CutsOf(k) && c.first == CutsOf(k).first
  {
    c := CutsOf(k);
    if !Clean(k.clientId) {
      var j := Ambiguous(t, k.clientId, c.first + 2);
      c := c.(second := j);
    } else if !Clean(k.audience) {
      var j := Ambiguous(t, k.audience, c.second + 2);
      c := c.(third := j);
    } else if !Tight(k.audience) {
      var j := AmbiguousAfter(t, k.audience, c.second + 2);
      c := c.(second := j);
    } else {
      var j := AmbiguousAfter(t, k.scope, c.third + 2);
      c := c.(third := j);
    }
  }

  lemma SecondCut(t: string, k: CacheKey) returns (c: Cuts)
    requires PiecesOf(t, k) && !Unambiguous(k)
    ensures Cuttable(t, c) && c != CutsOf(k)
  {
    c := CutsOf(k);
    if !UnambiguousUnderPrefix(k) {
      c := SecondCutUnderPrefix(t, k);
    } else if !Clean(k.prefix) {
      var j := Ambiguous(t, k.prefix, 0);
      c := c.(first := j);
    } else {
      var j := AmbiguousAfter(t, k.clientId, c.first + 2);
      c := c.(first := j);
    }
  }

  /** Two keys with the same text and the same cuts are the same. */
  lemma SameCuts(k: CacheKey, l: CacheKey)
    requires ToKey(l) == ToKey(k) && CutsOf(l) == CutsOf(k)
    ensures l == k
  {
    Separators(k);
    Separators(l);
  }

  /** A key shares its text with no other key exactly when it is unambiguous. */
  lemma SharesTextExactly(k: CacheKey)
    ensures (forall l :: ToKey(l) == ToKey(k) ==> l == k) <==> Unambiguous(k)
  {
    Components(k);
    if Unambiguous(k) {
      forall l | ToKey(l) == ToKey(k)
        ensures l == k
      {
        Components(l);
        OneCut(ToKey(k), k, CutsOf(l));
        SameCuts(k, l);
      }
    } else {
      var c := SecondCut(ToKey(k), k);
      Recut(ToKey(k), c);
    }
  }

  lemma AloneUnderPrefix(k: CacheKey, l: CacheKey)
    requires UnambiguousUnderPrefix(k) && l.prefix == k.prefix && ToKey(l) == ToKey(k)
    ensures l == k
  {
    Components(k);
    Components(l);
    OneCutUnderPrefix(ToKey(k), k, CutsOf(l));
    SameCuts(k, l);
  }

  lemma RivalUnderPrefix(k: CacheKey) returns (l: CacheKey)
    requires !UnambiguousUnderPrefix(k)
    ensures l.prefix == k.prefix && ToKey(l) == ToKey(k) && l != k
  {
    Components(k);
    var c := SecondCutUnderPrefix(ToKey(k), k);
    Recut(ToKey(k), c);
    l := KeyAt(ToKey(k), c);
    PieceIsSlice(ToKey(k), k.prefix, 0);
  }

  /** Among keys with its own prefix, as all keys of the cache are, the client id may start with a colon. */
  lemma SharesTextUnderPrefixExactly(k: CacheKey)
    ensures (forall l: CacheKey :: l.prefix == k.prefix && ToKey(l) == ToKey(k) ==> l == k) <==>
            UnambiguousUnderPrefix(k)
  {
    if UnambiguousUnderPrefix(k) {
      forall l: CacheKey | l.prefix == k.prefix && ToKey(l) == ToKey(k)
        ensures l == k
      {
        AloneUnderPrefix(k, l);
      }
    } else {
      var l := RivalUnderPrefix(k);
    }
  }

  // ----- cache keys and the manifest's key -----

  /** Two separators that do not overlap. */
  predicate TwoSeparators(s: string) {
    exists i, j :: 0 <= i <= |s| && i + 2 <= j <= |s| && ColonsAt(s, i) && ColonsAt(s, j)
  }

  lemma CollisionHasTwo(k: CacheKey, clientId: string)
    requires k.prefix == PREFIX && ToKey(k) == ManifestKey(clientId)
    ensures TwoSeparators(clientId)
  {
    Components(k);
    JoinedPieces(PREFIX, clientId);
    CollisionCuts(ToKey(k), k, clientId);
  }

  /** No cache key can overwrite the manifest of a client whose id does not hold two separators. */
  lemma NeverManifestKey(k: CacheKey, clientId: string)
    requires k.prefix == PREFIX && !TwoSeparators(clientId)
    ensures ToKey(k) != ManifestKey(clientId)
  {
    if ToKey(k) == ManifestKey(clientId) {
      CollisionHasTwo(k, clientId);
    }
  }

  lemma CollisionCuts(t: string, k: CacheKey, clientId: string)
    requires PiecesOf(t, k) && Layered(t, k.prefix, clientId)
    ensures TwoSeparators(clientId)
  {
    var n := |k.prefix| + 2;
    ColonsOfPiece(t, clientId, n, CutsOf(k).second - n);
    ColonsOfPiece(t, clientId, n, CutsOf(k).third - n);
  }

  lemma CollidingKey(t: string, prefix: string, clientId: string, i: int, j: int) returns (k: CacheKey)
    requires Layered(t, prefix, clientId)
    requires ColonsAt(clientId, i) && ColonsAt(clientId, j) && i + 2 <= j
    ensures k.prefix == prefix && ToKey(k) == t
  {
    var n := |prefix| + 2;
    ColonsOfPiece(t, clientId, n, i);
    ColonsOfPiece(t, clientId, n, j);
    PieceIsSlice(t, prefix, 0);
    Recut(t, Cuts(|prefix|, n + i, n + j));
    k := KeyAt(t, Cuts(|prefix|, n + i, n + j));
  }

  /** A manifest key is that of some cache key exactly when the client id holds two separators. */
  lemma ManifestKeyCollidesExactly(clientId: string)
    ensures (exists k: CacheKey :: k.prefix == PREFIX && ToKey(k) == ManifestKey(clientId)) <==> TwoSeparators(clientId)
  {
    if k: CacheKey :| k.prefix == PREFIX && ToKey(k) == ManifestKey(clientId) {
      CollisionHasTwo(k, clientId);
    }
    if i, j :| i + 2 <= j && ColonsAt(clientId, i) && ColonsAt(clientId, j) {
      JoinedPieces(PREFIX, clientId);
      var k := CollidingKey(ManifestKey(clientId), PREFIX, clientId, i, j);
    }
  }
}
