/** What a single get leaves behind: nothing changed, a stripped wrapper, or a key dropped. */
module CacheEffects {
  import opened Wrappers
  import opened CacheKeys
  import opened CacheModel
  import opened CacheRuns
  import Scope

  /** The wrapper that a request selects. */
  predicate Finds(st: CacheState, key: CacheKey, id: nat)
    requires Valid(st)
  {
    var k := Selected(st, key);
    k.Some? && st.store.slots[k.value] == Data(id)
  }

  // ----- expired without a refresh token: the requested key goes -----

  /** Everything but `k0` is as it was, and the manifest lists all that it listed but `k0`. */
  ghost predicate Dropped(st: CacheState, st': CacheState, k0: string)
    requires Valid(st)
  {
    && st'.manifestKey == st.manifestKey && st'.wrappers == st.wrappers
    && k0 !in st'.store.slots
    && (forall k :: k != k0 && st.manifestKey != Some(k) ==>
          (k in st'.store.slots <==> k in st.store.slots)
          && (k in st.store.slots ==> st'.store.slots[k] == st.store.slots[k]))
    && (st.manifestKey.Some? ==>
          var before := Listed(st.store, st.manifestKey.value).GetOr([]);
          var after := Listed(st'.store, st.manifestKey.value).GetOr([]);
          forall k :: k in after <==> k in before && k != k0)
  }

  /** The get finds an expired entry that has no refresh token. */
  predicate Drops(st: CacheState, key: CacheKey, adjustment: real, now: real, id: nat)
    requires Valid(st)
  {
    Finds(st, key, id) && Expired(st.wrappers[id], adjustment, now) && !Truthy(st.wrappers[id].body.RefreshToken())
  }

  lemma DropsOutcome(st: CacheState, key: CacheKey, adjustment: real, now: real, id: nat)
    requires Valid(st) && Drops(st, key, adjustment, now, id)
    ensures var removed := Remove(st.store, ToKey(key));
            Get(st, key, adjustment, now) ==
            (st.(store := if st.manifestKey.None? then removed
                          else ManifestRemove(removed, st.manifestKey.value, ToKey(key))), None)
  {
  }

  lemma ListedAfterDrop(s: Store, mk: string, k0: string)
    requires mk != k0 && (mk in s.slots ==> s.slots[mk].Listing? && Scope.Distinct(s.slots[mk].keys))
    ensures Listed(ManifestRemove(Remove(s, k0), mk, k0), mk).GetOr([]) == Without(Listed(s, mk).GetOr([]), k0)
  {
    DropIndexed(s, mk, k0);
  }

  lemma DroppedFromManifest(st: CacheState, st': CacheState, mk: string, k0: string)
    requires Valid(st) && Indexed(st) && st.manifestKey == Some(mk) == st'.manifestKey && mk != k0
    requires st'.wrappers == st.wrappers && st'.store == ManifestRemove(Remove(st.store, k0), mk, k0)
    ensures Dropped(st, st', k0)
  {
    var s := st.store;
    DropIndexed(s, mk, k0);
    ListedAfterDrop(s, mk, k0);
    var slots := st'.store.slots;
    assert k0 !in slots;
    assert forall k :: k != k0 && k != mk ==>
             (k in slots <==> k in s.slots) && (k in s.slots ==> slots[k] == s.slots[k]);
  }

  lemma DroppedFromStore(st: CacheState, st': CacheState, k0: string)
    requires Valid(st) && st.manifestKey == None == st'.manifestKey
    requires st'.wrappers == st.wrappers && st'.store == Remove(st.store, k0)
    ensures Dropped(st, st', k0)
  {
  }

  /** Then it answers nothing, and the requested key is neither in the store nor in the manifest any more. */
  lemma GetDrops(st: CacheState, key: CacheKey, adjustment: real, now: real, id: nat)
    requires Valid(st) && Indexed(st) && st.manifestKey != Some(ToKey(key))
    requires Drops(st, key, adjustment, now, id)
    ensures Get(st, key, adjustment, now).1 == None
    ensures Dropped(st, Get(st, key, adjustment, now).0, ToKey(key))
  {
    DropsOutcome(st, key, adjustment, now, id);
    if st.manifestKey.Some? {
      DroppedFromManifest(st, Get(st, key, adjustment, now).0, st.manifestKey.value, ToKey(key));
    } else {
      DroppedFromStore(st, Get(st, key, adjustment, now).0, ToKey(key));
    }
  }

  // ----- expired with a refresh token: the wrapper is stripped for everybody -----

  /** Only the wrapper's body changed, and only the slot of `k0`, which now holds the wrapper too. */
  ghost predicate Stripped(st: CacheState, st': CacheState, k0: string, id: nat, token: string)
    requires Valid(st) && id < |st.wrappers|
  {
    && st'.manifestKey == st.manifestKey
    && st'.wrappers == st.wrappers[id := Wrapped(RefreshOnly(token), st.wrappers[id].expiresAt)]
    && st'.store.slots == st.store.slots[k0 := Data(id)]
    && st'.store.order == (if k0 in st.store.slots then st.store.order else st.store.order + [k0])
  }

  lemma GetStrips(st: CacheState, key: CacheKey, adjustment: real, now: real, id: nat)
    requires Valid(st) && Finds(st, key, id)
    requires Expired(st.wrappers[id], adjustment, now) && Truthy(st.wrappers[id].body.RefreshToken())
    ensures var token := st.wrappers[id].body.RefreshToken().value;
            && Get(st, key, adjustment, now).1 == Some(RefreshOnly(token))
            && Stripped(st, Get(st, key, adjustment, now).0, ToKey(key), id, token)
  {
  }

  /** Because the wrapper is shared, every key that held it serves the refresh token alone from now on, at any time. */
  lemma StripIsShared(st: CacheState, key: CacheKey, adjustment: real, now: real, id: nat,
                      other: CacheKey, adjustment': real, later: real)
    requires Valid(st) && Finds(st, key, id)
    requires Expired(st.wrappers[id], adjustment, now) && Truthy(st.wrappers[id].body.RefreshToken())
    requires other == key || (ToKey(other) in st.store.slots && st.store.slots[ToKey(other)] == Data(id))
    ensures var st' := Get(st, key, adjustment, now).0;
            Valid(st') &&
            Get(st', other, adjustment', later).1 == Some(RefreshOnly(st.wrappers[id].body.RefreshToken().value))
  {
    GetValid(st, key, adjustment, now);
    GetStrips(st, key, adjustment, now, id);
  }

  // ----- not expired: nothing changes -----

  lemma GetServes(st: CacheState, key: CacheKey, adjustment: real, now: real, id: nat)
    requires Valid(st) && Finds(st, key, id) && !Expired(st.wrappers[id], adjustment, now)
    ensures Get(st, key, adjustment, now) == (st, Some(st.wrappers[id].body))
  {
  }

  // ----- when an entry is expired -----

  /**
   * For whole seconds the entry is usable up to exact millisecond ends: while less than a second has passed beyond its
   * `exp` less the adjustment, and beyond its lifetime since the second in which it was stored.
   */
  lemma ExpiredExactly(e: CacheEntry, stored: real, adjustment: real, now: real, exp: int, lifetime: int, adj: int)
    requires e.exp == exp as real && e.expiresIn == lifetime as real && adjustment == adj as real
    ensures var storedSecond := (stored / 1000.0).Floor;
            !Expired(Wrapped(Full(e), ExpiresAt(e, stored)), adjustment, now) <==>
            && now < 1000.0 * (exp - adj + 1) as real
            && now < 1000.0 * (storedSecond + lifetime - adj + 1) as real
  {
    FloorBounds(now);
    SecondsBelow(now, exp - adj);
    SecondsBelow(now, (stored / 1000.0).Floor + lifetime - adj);
  }

  lemma SecondsBelow(now: real, bound: int)
    ensures NowSeconds(now) <= bound as real <==> now < 1000.0 * (bound + 1) as real
  {
    var q := now / 1000.0;
    assert now == 1000.0 * q;
    assert q.Floor <= bound <==> q < (bound + 1) as real;
  }

  // ----- a stale exact key makes room -----

  /** The second entry answers requests for the first one's key, under a key of its own. */
  predicate Supersedes(e2: CacheEntry, e1: CacheEntry) {
    && WellFormed(KeyOf(e1)) && WellFormed(KeyOf(e2)) && KeyOf(e1) != KeyOf(e2)
    && e1.clientId == e2.clientId && e1.audience == e2.audience
    && e2.scope != "" && ScopesWithin(e1.scope, e2.scope)
  }

  /**
   * After an entry without a refresh token was seen expired under its own key, a fresh entry with more scopes answers
   * requests for that key: the stale one is gone and shadows nothing.
   */
  lemma StaleMakesRoom(e1: CacheEntry, t1: real, e2: CacheEntry, t2: real, adjustment: real, seen: real, now: real)
    requires Supersedes(e2, e1) && !Truthy(e1.refreshToken)
    requires Expired(Wrapped(Full(e1), ExpiresAt(e1, t1)), adjustment, seen)
    requires !Expired(Wrapped(Full(e2), ExpiresAt(e2, t2)), adjustment, now)
    ensures var st1 := Set(EmptyCache(None), e1, t1);
            && Valid(st1)
            && Get(st1, KeyOf(e1), adjustment, seen).1 == None
            && var st3 := Set(Get(st1, KeyOf(e1), adjustment, seen).0, e2, t2);
               Valid(st3) && Get(st3, KeyOf(e1), adjustment, now) == (st3, Some(Full(e2)))
  {
    var st1 := Set(EmptyCache(None), e1, t1);
    FirstDropped(e1, t1, adjustment, seen);
    var st2 := Get(st1, KeyOf(e1), adjustment, seen).0;
    SetValid(st2, e2, t2);
    RoundTrip(KeyOf(e2));
    RoundTrip(KeyOf(e1));
    LoneMatchServed(Set(st2, e2, t2), KeyOf(e1), ToKey(KeyOf(e2)), 1, adjustment, now);
  }

  lemma FirstStored(e1: CacheEntry, t1: real)
    ensures var st1, k := Set(EmptyCache(None), e1, t1), ToKey(KeyOf(e1));
            && Valid(st1) && st1.manifestKey == None && st1.store == Store([k], map[k := Data(0)])
            && st1.wrappers == [Wrapped(Full(e1), ExpiresAt(e1, t1))]
  {
    SetValid(EmptyCache(None), e1, t1);
    assert [] + [ToKey(KeyOf(e1))] == [ToKey(KeyOf(e1))];
  }

  lemma LoneRemoved(k: string, id: nat)
    ensures Remove(Store([k], map[k := Data(id)]), k) == Store([], map[])
  {
    assert [k][..0] == [];
    assert Without([], k) == [];
    assert Without([k], k) == [];
  }

  lemma LoneDropped(st: CacheState, key: CacheKey, id: nat, adjustment: real, now: real)
    requires Valid(st) && st.manifestKey == None && st.store == Store([ToKey(key)], map[ToKey(key) := Data(id)])
    requires id < |st.wrappers| && Expired(st.wrappers[id], adjustment, now)
    requires !Truthy(st.wrappers[id].body.RefreshToken())
    ensures Get(st, key, adjustment, now) == (st.(store := Store([], map[])), None)
  {
    LoneRemoved(ToKey(key), id);
    DropsOutcome(st, key, adjustment, now, id);
  }

  lemma FirstDropped(e1: CacheEntry, t1: real, adjustment: real, seen: real)
    requires !Truthy(e1.refreshToken) && Expired(Wrapped(Full(e1), ExpiresAt(e1, t1)), adjustment, seen)
    ensures var st1 := Set(EmptyCache(None), e1, t1);
            && Valid(st1)
            && Get(st1, KeyOf(e1), adjustment, seen).1 == None
            && var st2 := Get(st1, KeyOf(e1), adjustment, seen).0;
               && Valid(st2) && st2.manifestKey == None && st2.store == Store([], map[])
               && st2.wrappers == [Wrapped(Full(e1), ExpiresAt(e1, t1))]
  {
    FirstStored(e1, t1);
    var st1 := Set(EmptyCache(None), e1, t1);
    LoneDropped(st1, KeyOf(e1), 0, adjustment, seen);
    GetValid(st1, KeyOf(e1), adjustment, seen);
  }

  lemma LoneMatchServed(st: CacheState, key: CacheKey, k: string, id: nat, adjustment: real, now: real)
    requires Valid(st) && st.manifestKey == None && st.store == Store([k], map[k := Data(id)]) && id < |st.wrappers|
    requires k != ToKey(key) && Matches(k, key) && !Expired(st.wrappers[id], adjustment, now)
    ensures Get(st, key, adjustment, now) == (st, Some(st.wrappers[id].body))
  {
    assert FirstMatch([k], key) == k;
  }

  // ----- storing a key again keeps its place -----

  lemma SameListing(listed: seq<string>, k0: string)
    requires Scope.Distinct(listed) && k0 in listed
    ensures Scope.Dedupe(listed + [k0]) == listed
  {
    Scope.DedupeFixed(listed);
    Scope.DedupeSnoc(listed, k0);
  }

  lemma ListedAgain(s: Store, mk: string, k0: string)
    requires mk in s.slots && s.slots[mk].Listing? && Scope.Distinct(s.slots[mk].keys) && k0 in s.slots[mk].keys
    ensures ManifestAdd(s, mk, k0) == s
  {
    SameListing(s.slots[mk].keys, k0);
    assert s.slots[mk := s.slots[mk]] == s.slots;
  }

  lemma SameSelection(st: CacheState, st': CacheState, key: CacheKey)
    requires AllKeys(st') == AllKeys(st) && forall k :: k in st'.store.slots <==> k in st.store.slots
    ensures Selected(st', key) == Selected(st, key)
  {
  }

  /** Storing an entry under a key that is listed already leaves every request's selected key as it was. */
  lemma SetAgainKeepsSelection(st: CacheState, entry: CacheEntry, now: real, key: CacheKey)
    requires Valid(st) && Indexed(st) && st.manifestKey != Some(ToKey(KeyOf(entry)))
    requires ToKey(KeyOf(entry)) in AllKeys(st).GetOr([])
    ensures Selected(Set(st, entry, now), key) == Selected(st, key)
  {
    var k0 := ToKey(KeyOf(entry));
    assert k0 in st.store.slots;
    if st.manifestKey.Some? {
      ListedAgain(Put(st.store, k0, Data(|st.wrappers|)), st.manifestKey.value, k0);
    }
    SameSelection(st, Set(st, entry, now), key);
  }

  /** The synchronous clear throws exactly for a store that cannot list its keys, and then changes nothing. */
  lemma ClearSyncThrowsExactly(st: CacheState)
    ensures ClearSync(st).1 <==> st.manifestKey.Some?
    ensures ClearSync(st).1 ==> ClearSync(st).0 == st
  {
  }
}
