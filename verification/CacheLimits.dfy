/** Two things the cache might be expected to do and does not, with the exact conditions under which it does. */
module CacheLimits {
  import opened Wrappers
  import opened Strings
  import opened Colons
  import opened CacheKeys
  import opened KeyAmbiguity
  import opened CacheModel
  import opened CacheRuns
  import opened RefreshProvenance
  import Scope

  // ----- a fresh entry can be shadowed by an expired one -----

  /** The get returns a complete entry. */
  predicate Serves(st: CacheState, key: CacheKey, adjustment: real, now: real)
    requires Valid(st)
  {
    var r := Get(st, key, adjustment, now).1;
    r.Some? && r.value.Full?
  }

  /** A complete entry that is not expired is stored under `k`. */
  predicate Fresh(st: CacheState, k: string, adjustment: real, now: real)
    requires Valid(st)
  {
    FullAt(st, k) && !Expired(st.wrappers[st.store.slots[k].id], adjustment, now)
  }

  /** The `i`-th of the listed keys matches the request and none before it does. */
  predicate FirstListedMatch(keys: seq<string>, i: int, wanted: CacheKey) {
    0 <= i < |keys| && Matches(keys[i], wanted) && forall j :: 0 <= j < i ==> !Matches(keys[j], wanted)
  }

  lemma {:induction false} FirstMatchIsFirst(keys: seq<string>, wanted: CacheKey, i: nat)
    requires FirstListedMatch(keys, i, wanted)
    ensures FirstMatch(keys, wanted) == keys[i]
  {
    if i > 0 {
      assert !Matches(keys[0], wanted);
      FirstMatchIsFirst(keys[1..], wanted, i - 1);
    }
  }

  lemma {:induction false} NoMatchFound(keys: seq<string>, wanted: CacheKey)
    requires forall i :: 0 <= i < |keys| ==> !Matches(keys[i], wanted)
    ensures FirstMatch(keys, wanted) == "undefined"
  {
    if keys != [] {
      NoMatchFound(keys[1..], wanted);
    }
  }

  lemma {:induction false} FirstMatchExists(keys: seq<string>, wanted: CacheKey, i: nat) returns (f: nat)
    requires i < |keys| && Matches(keys[i], wanted)
    ensures f <= i && FirstListedMatch(keys, f, wanted)
  {
    if j :| 0 <= j < i && Matches(keys[j], wanted) {
      f := FirstMatchExists(keys, wanted, j);
    } else {
      f := i;
    }
  }

  lemma ServesSelected(st: CacheState, key: CacheKey, adjustment: real, now: real)
    requires Valid(st)
    ensures Serves(st, key, adjustment, now) <==>
            Selected(st, key).Some? && Fresh(st, Selected(st, key).value, adjustment, now)
  {
  }

  lemma ServedByExact(st: CacheState, key: CacheKey, adjustment: real, now: real)
    requires Valid(st) && ToKey(key) in st.store.slots
    ensures Serves(st, key, adjustment, now) <==> Fresh(st, ToKey(key), adjustment, now)
  {
    ServesSelected(st, key, adjustment, now);
  }

  lemma ServedByMatch(st: CacheState, key: CacheKey, adjustment: real, now: real, keys: seq<string>, f: nat)
    requires Valid(st) && ToKey(key) !in st.store.slots
    requires AllKeys(st) == Some(keys) && FirstListedMatch(keys, f, key)
    ensures Serves(st, key, adjustment, now) <==> Fresh(st, keys[f], adjustment, now)
  {
    FirstMatchIsFirst(keys, key, f);
    ServesSelected(st, key, adjustment, now);
  }

  lemma UnservedWithoutMatch(st: CacheState, key: CacheKey, adjustment: real, now: real, keys: seq<string>)
    requires Valid(st) && ToKey(key) !in st.store.slots && "undefined" !in st.store.slots
    requires keys == AllKeys(st).GetOr([]) && forall i :: 0 <= i < |keys| ==> !Matches(keys[i], key)
    ensures !Serves(st, key, adjustment, now)
  {
    NoMatchFound(keys, key);
    ServesSelected(st, key, adjustment, now);
  }

  /** The first listed match exists and is fresh. */
  predicate FirstMatchFresh(st: CacheState, keys: seq<string>, key: CacheKey, adjustment: real, now: real)
    requires Valid(st)
  {
    exists i :: 0 <= i < |keys| && FirstListedMatch(keys, i, key) && Fresh(st, keys[i], adjustment, now)
  }

  lemma FirstMatchFreshIs(st: CacheState, keys: seq<string>, key: CacheKey, adjustment: real, now: real, f: nat)
    requires Valid(st) && FirstListedMatch(keys, f, key)
    ensures FirstMatchFresh(st, keys, key, adjustment, now) <==> Fresh(st, keys[f], adjustment, now)
  {
    assert forall i :: FirstListedMatch(keys, i, key) ==> i == f;
  }

  /**
   * A request is served exactly when the requested key itself is stored and fresh, or is not stored and the first
   * listed key that matches, in enumeration order, is fresh.
   */
  lemma ServedExactly(st: CacheState, key: CacheKey, adjustment: real, now: real)
    requires Valid(st) && "undefined" !in st.store.slots
    ensures Serves(st, key, adjustment, now) <==>
            if ToKey(key) in st.store.slots then Fresh(st, ToKey(key), adjustment, now)
            else FirstMatchFresh(st, AllKeys(st).GetOr([]), key, adjustment, now)
  {
    var keys := AllKeys(st).GetOr([]);
    if ToKey(key) in st.store.slots {
      ServedByExact(st, key, adjustment, now);
    } else if i :| 0 <= i < |keys| && Matches(keys[i], key) {
      var f := FirstMatchExists(keys, key, i);
      ServedByMatch(st, key, adjustment, now, keys, f);
      FirstMatchFreshIs(st, keys, key, adjustment, now, f);
    } else {
      UnservedWithoutMatch(st, key, adjustment, now, keys);
    }
  }

  /** An earlier listed key is the first match, and it is not fresh. */
  predicate ShadowedBefore(st: CacheState, keys: seq<string>, i: nat, key: CacheKey, adjustment: real, now: real)
    requires Valid(st) && i < |keys|
  {
    exists j :: 0 <= j < i && FirstListedMatch(keys, j, key) && !Fresh(st, keys[j], adjustment, now)
  }

  lemma ShadowedBeforeIs(st: CacheState, keys: seq<string>, i: nat, key: CacheKey, adjustment: real, now: real, f: nat)
    requires Valid(st) && f <= i < |keys| && FirstListedMatch(keys, f, key) && Fresh(st, keys[i], adjustment, now)
    ensures ShadowedBefore(st, keys, i, key, adjustment, now) <==> !Fresh(st, keys[f], adjustment, now)
  {
    assert forall j :: FirstListedMatch(keys, j, key) ==> j == f;
  }

  /**
   * A request that some fresh listed entry answers goes unserved exactly when the requested key is stored and not
   * fresh, or is not stored and an earlier listed key is the first match and not fresh.
   */
  lemma ShadowedExactly(st: CacheState, key: CacheKey, adjustment: real, now: real, keys: seq<string>, i: nat)
    requires Valid(st) && AllKeys(st) == Some(keys)
    requires i < |keys| && Matches(keys[i], key) && Fresh(st, keys[i], adjustment, now)
    ensures !Serves(st, key, adjustment, now) <==>
            if ToKey(key) in st.store.slots then !Fresh(st, ToKey(key), adjustment, now)
            else ShadowedBefore(st, keys, i, key, adjustment, now)
  {
    if ToKey(key) in st.store.slots {
      ServedByExact(st, key, adjustment, now);
    } else {
      var f := FirstMatchExists(keys, key, i);
      ServedByMatch(st, key, adjustment, now, keys, f);
      ShadowedBeforeIs(st, keys, i, key, adjustment, now, f);
    }
  }

  /** After every run the condition is that of `ServedExactly`. */
  lemma RunServedExactly(owner: Option<string>, ops: seq<Op>, key: CacheKey, adjustment: real, now: real)
    requires GoodOps(owner, ops)
    ensures var st := Run(owner, ops);
            Serves(st, key, adjustment, now) <==>
            if ToKey(key) in st.store.slots then Fresh(st, ToKey(key), adjustment, now)
            else FirstMatchFresh(st, AllKeys(st).GetOr([]), key, adjustment, now)
  {
    NamedInvariant(owner, ops);
    assert PREFIX[0] != "undefined"[0];
    ServedExactly(Run(owner, ops), key, adjustment, now);
  }

  /** Both keys answer the request, neither is the requested key, and they differ. */
  predicate BothAnswer(a: CacheKey, b: CacheKey, wanted: CacheKey) {
    && a != b && a != wanted && b != wanted
    && (forall k :: k in {a, b, wanted} ==>
          && WellFormed(k) && k.prefix == PREFIX
          && k.clientId == wanted.clientId && k.audience == wanted.audience)
    && a.scope != "" && b.scope != ""
    && ScopesWithin(wanted.scope, a.scope) && ScopesWithin(wanted.scope, b.scope)
  }

  lemma AnswerFacts(a: CacheKey, b: CacheKey, wanted: CacheKey)
    requires BothAnswer(a, b, wanted)
    ensures ToKey(a) != ToKey(b) && ToKey(a) != ToKey(wanted) && ToKey(b) != ToKey(wanted)
    ensures Matches(ToKey(a), wanted) && Matches(ToKey(b), wanted)
  {
    assert WellFormed(a) && WellFormed(b) && WellFormed(wanted);
    RoundTrip(a);
    RoundTrip(b);
    RoundTrip(wanted);
  }

  /**
   * If the first stored of two answering entries has expired and has no refresh token, the request goes unanswered
   * however fresh the second is, and stays so: the get removes the requested key, not the one it matched.
   */
  lemma ExpiredEntryShadows(e1: CacheEntry, t1: real, e2: CacheEntry, t2: real, wanted: CacheKey,
                            adjustment: real, now: real)
    requires BothAnswer(KeyOf(e1), KeyOf(e2), wanted)
    requires !Truthy(e1.refreshToken)
    requires Expired(Wrapped(Full(e1), ExpiresAt(e1, t1)), adjustment, now)
    requires !Expired(Wrapped(Full(e2), ExpiresAt(e2, t2)), adjustment, now)
    ensures var st := Set(Set(EmptyCache(None), e1, t1), e2, t2);
            && Valid(st)
            && Get(st, wanted, adjustment, now) == (st, None)
            && Get(st, KeyOf(e2), adjustment, now) == (st, Some(Full(e2)))
  {
    AnswerFacts(KeyOf(e1), KeyOf(e2), wanted);
    TwoStored(e1, t1, e2, t2);
    var st := Set(Set(EmptyCache(None), e1, t1), e2, t2);
    ShadowedGet(st, ToKey(KeyOf(e1)), ToKey(KeyOf(e2)), Wrapped(Full(e1), ExpiresAt(e1, t1)), wanted, adjustment, now);
    HeldServes(st, KeyOf(e2), Wrapped(Full(e2), ExpiresAt(e2, t2)), adjustment, now);
  }

  /** Such inputs exist. */
  lemma ShadowInstance()
    ensures exists e1: CacheEntry, e2: CacheEntry, wanted ::
              && BothAnswer(KeyOf(e1), KeyOf(e2), wanted) && !Truthy(e1.refreshToken)
              && Expired(Wrapped(Full(e1), ExpiresAt(e1, 0.0)), 0.0, 100000.0)
              && !Expired(Wrapped(Full(e2), ExpiresAt(e2, 0.0)), 0.0, 100000.0)
  {
    var e1 := CacheEntry("c", "a", "x y", "at", "id", None, 10.0, 10.0, "u");
    var e2 := CacheEntry("c", "a", "x z", "at", "id", None, 200.0, 200.0, "u");
    var wanted := CacheKey(PREFIX, "c", "a", "x");
    OneOfTwo("x", "y");
    OneOfTwo("x", "z");
    assert "x" + " " + "y" == "x y" && "x" + " " + "z" == "x z";
    assert (100000.0 / 1000.0).Floor == 100 && (0.0 / 1000.0).Floor == 0;
    NoColons(PREFIX);
    NoColons("c");
    NoColons("a");
    NoColons("x");
    NoColons("x y");
    NoColons("x z");
    assert BothAnswer(KeyOf(e1), KeyOf(e2), wanted);
  }

  lemma TwoStored(e1: CacheEntry, t1: real, e2: CacheEntry, t2: real)
    requires ToKey(KeyOf(e1)) != ToKey(KeyOf(e2))
    ensures var st, k1, k2 := Set(Set(EmptyCache(None), e1, t1), e2, t2), ToKey(KeyOf(e1)), ToKey(KeyOf(e2));
            && Valid(st) && st.manifestKey == None
            && st.store == Store([k1, k2], map[k1 := Data(0), k2 := Data(1)])
            && st.wrappers == [Wrapped(Full(e1), ExpiresAt(e1, t1)), Wrapped(Full(e2), ExpiresAt(e2, t2))]
  {
    SetValid(EmptyCache(None), e1, t1);
    SetValid(Set(EmptyCache(None), e1, t1), e2, t2);
  }

  lemma ShadowedGet(st: CacheState, k1: string, k2: string, w1: Wrapped, wanted: CacheKey, adjustment: real, now: real)
    requires Valid(st) && st.manifestKey == None && |st.wrappers| == 2 && st.wrappers[0] == w1
    requires st.store == Store([k1, k2], map[k1 := Data(0), k2 := Data(1)])
    requires Matches(k1, wanted) && ToKey(wanted) != k1 && ToKey(wanted) != k2
    requires !Truthy(w1.body.RefreshToken()) && Expired(w1, adjustment, now)
    ensures Get(st, wanted, adjustment, now) == (st, None)
  {
    assert FirstMatch(st.store.order, wanted) == k1;
    RemoveAbsent(st.store, ToKey(wanted));
  }

  lemma RemoveAbsent(s: Store, k: string)
    requires k !in s.order && k !in s.slots
    ensures Remove(s, k) == s
  {
    WithoutAbsent(s.order, k);
  }

  lemma {:induction false} WithoutAbsent(keys: seq<string>, k: string)
    requires k !in keys
    ensures Without(keys, k) == keys
  {
    if keys != [] {
      WithoutAbsent(keys[..|keys| - 1], k);
    }
  }

  // ----- a manifest can miss a stripped entry, which then outlives a clear -----

  /** With a manifest, a clear empties the store exactly when every data key is listed. */
  lemma ClearEmptiesExactly(st: CacheState)
    requires Valid(st) && Indexed(st) && st.manifestKey.Some?
    ensures Clear(st).store.slots == map[] <==>
            forall k :: k in st.store.slots && st.store.slots[k].Data? ==>
              k in Listed(st.store, st.manifestKey.value).GetOr([])
  {
    var mk := st.manifestKey.value;
    var keys := Listed(st.store, mk);
    if keys.Some? {
      RemoveAllSlots(st.store, keys.value);
    }
    var after := Clear(st).store.slots;
    forall k
      ensures k in after <==> k in st.store.slots && st.store.slots[k].Data? && k !in keys.GetOr([])
    {
    }
    if after != map[] {
      var k :| k in after;
    }
  }

  /** An entry that answers a request for fewer scopes and carries a refresh token. */
  predicate Strippable(clientId: string, e: CacheEntry, wanted: CacheKey) {
    && !TwoSeparators(clientId)
    && WellFormed(KeyOf(e)) && WellFormed(wanted) && wanted.prefix == PREFIX && KeyOf(e) != wanted
    && e.clientId == wanted.clientId && e.audience == wanted.audience
    && e.scope != "" && ScopesWithin(wanted.scope, e.scope)
    && Truthy(e.refreshToken)
  }

  predicate Apart3(a: string, b: string, c: string) {
    a != b && b != c && a != c
  }

  lemma StrippableFacts(clientId: string, e: CacheEntry, wanted: CacheKey)
    requires Strippable(clientId, e, wanted)
    ensures Apart3(ManifestKey(clientId), ToKey(KeyOf(e)), ToKey(wanted))
    ensures Matches(ToKey(KeyOf(e)), wanted)
  {
    NeverManifestKey(KeyOf(e), clientId);
    NeverManifestKey(wanted, clientId);
    RoundTrip(KeyOf(e));
    RoundTrip(wanted);
  }

  lemma AfterSet(mk: string, e: CacheEntry, t: real)
    requires mk != ToKey(KeyOf(e))
    ensures var st := Set(EmptyCache(Some(mk)), e, t);
            && Valid(st) && st.wrappers == [Wrapped(Full(e), ExpiresAt(e, t))]
            && st.store.slots == map[ToKey(KeyOf(e)) := Data(0), mk := Listing([ToKey(KeyOf(e))])]
  {
    var k := ToKey(KeyOf(e));
    SetValid(EmptyCache(Some(mk)), e, t);
    assert [] + [k] == [k];
    assert Scope.Dedupe([k]) == [k];
  }

  lemma AfterStrip(st: CacheState, mk: string, e: CacheEntry, x: real, wanted: CacheKey, adjustment: real, now: real)
    requires Valid(st) && st.manifestKey == Some(mk) && st.wrappers == [Wrapped(Full(e), x)]
    requires st.store.slots == map[ToKey(KeyOf(e)) := Data(0), mk := Listing([ToKey(KeyOf(e))])]
    requires Apart3(mk, ToKey(KeyOf(e)), ToKey(wanted)) && Matches(ToKey(KeyOf(e)), wanted)
    requires Truthy(e.refreshToken) && Expired(Wrapped(Full(e), x), adjustment, now)
    ensures var k, st' := ToKey(KeyOf(e)), Get(st, wanted, adjustment, now).0;
            && Valid(st') && st'.manifestKey == st.manifestKey
            && st'.wrappers == [Wrapped(RefreshOnly(e.refreshToken.value), x)]
            && st'.store.slots == map[k := Data(0), mk := Listing([k]), ToKey(wanted) := Data(0)]
  {
    GetValid(st, wanted, adjustment, now);
    assert FirstMatch([ToKey(KeyOf(e))], wanted) == ToKey(KeyOf(e));
    assert Selected(st, wanted) == Some(ToKey(KeyOf(e)));
  }

  lemma AfterClear(st: CacheState, mk: string, k: string, w: string)
    requires Valid(st) && st.manifestKey == Some(mk) && Apart3(mk, k, w)
    requires st.store.slots == map[k := Data(0), mk := Listing([k]), w := Data(0)]
    ensures Valid(Clear(st)) && Clear(st).wrappers == st.wrappers
    ensures Clear(st).store.slots == map[w := Data(0)]
  {
    ClearValid(st);
    assert Listed(st.store, mk) == Some([k]);
    OneRemoved(st.store, k);
  }

  lemma OneRemoved(s: Store, k: string)
    ensures RemoveAll(s, [k]) == Remove(s, k)
  {
    assert [k][1..] == [];
  }

  /**
   * Asking for fewer scopes once the entry has expired copies its refresh token to an unlisted key: a later clear
   * misses it, and the same request still gets the token afterwards.
   */
  lemma StrippedTokenOutlivesClear(clientId: string, e: CacheEntry, t: real, wanted: CacheKey,
                                   adjustment: real, late: real)
    requires Strippable(clientId, e, wanted)
    requires Expired(Wrapped(Full(e), ExpiresAt(e, t)), adjustment, late)
    ensures var st1 := Set(EmptyCache(IndexKey(Some(clientId))), e, t);
            && Valid(st1)
            && var st2 := Get(st1, wanted, adjustment, late).0;
               && Valid(Clear(st2))
               && Get(Clear(st2), wanted, adjustment, late).1 == Some(RefreshOnly(e.refreshToken.value))
  {
    StrippableFacts(clientId, e, wanted);
    AfterSet(ManifestKey(clientId), e, t);
    ClearMissesStripped(Set(EmptyCache(Some(ManifestKey(clientId))), e, t), ManifestKey(clientId), e, ExpiresAt(e, t),
      wanted, adjustment, late);
  }

  lemma ClearMissesStripped(st: CacheState, mk: string, e: CacheEntry, x: real, wanted: CacheKey,
                            adjustment: real, now: real)
    requires Valid(st) && st.manifestKey == Some(mk) && st.wrappers == [Wrapped(Full(e), x)]
    requires st.store.slots == map[ToKey(KeyOf(e)) := Data(0), mk := Listing([ToKey(KeyOf(e))])]
    requires Apart3(mk, ToKey(KeyOf(e)), ToKey(wanted)) && Matches(ToKey(KeyOf(e)), wanted)
    requires Truthy(e.refreshToken) && Expired(Wrapped(Full(e), x), adjustment, now)
    ensures var st2 := Get(st, wanted, adjustment, now).0;
            && Valid(Clear(st2))
            && Get(Clear(st2), wanted, adjustment, now).1 == Some(RefreshOnly(e.refreshToken.value))
  {
    AfterStrip(st, mk, e, x, wanted, adjustment, now);
    var st2 := Get(st, wanted, adjustment, now).0;
    AfterClear(st2, mk, ToKey(KeyOf(e)), ToKey(wanted));
    LoneTokenServed(Clear(st2), wanted, e.refreshToken.value, x, adjustment, now);
  }

  lemma LoneTokenServed(st: CacheState, wanted: CacheKey, token: string, x: real, adjustment: real, now: real)
    requires Valid(st) && token != "" && st.wrappers == [Wrapped(RefreshOnly(token), x)]
    requires st.store.slots == map[ToKey(wanted) := Data(0)]
    ensures Get(st, wanted, adjustment, now).1 == Some(RefreshOnly(token))
  {
  }

  /** Such inputs exist. */
  lemma StrippedTokenInstance()
    ensures exists e: CacheEntry, wanted ::
              Strippable("c", e, wanted) && Expired(Wrapped(Full(e), ExpiresAt(e, 0.0)), 0.0, 100000.0)
  {
    var e := CacheEntry("c", "a", "x y", "at", "id", Some("rt"), 10.0, 10.0, "u");
    var wanted := CacheKey(PREFIX, "c", "a", "x");
    OneOfTwo("x", "y");
    assert "x" + " " + "y" == "x y";
    assert (100000.0 / 1000.0).Floor == 100;
    NoColons(PREFIX);
    NoColons("c");
    NoColons("a");
    NoColons("x");
    NoColons("x y");
    assert Strippable("c", e, wanted);
  }

  lemma OneOfTwo(x: string, y: string)
    requires ' ' !in x
    ensures ScopesWithin(x, x + " " + y)
  {
    FindAfterChar(x, ' ', y);
    SplitPeel(x, " ", y);
    NotContainsChar(x, ' ');
    SplitWhole(x, " ");
  }

  lemma NoColons(s: string)
    requires ':' !in s
    ensures Clean(s)
  {
    forall i
      ensures !OccursAt(s, SEP, i)
    {
      if 0 <= i && i + 2 <= |s| {
        assert s[i..i + 2][0] == s[i] && s[i] in s;
      }
    }
    assert s != "" ==> s[|s| - 1] in s;
  }
}
