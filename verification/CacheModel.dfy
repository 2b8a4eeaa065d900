/** Values and transitions of the token cache: what each operation of src/cache/ does to the store. */
module CacheModel {
  import opened Wrappers
  import opened Strings
  import opened CacheKeys
  import Scope

  /** A token response as stored; `exp` and `user` stand for the decoded ID token. Times are in seconds. */
  datatype CacheEntry = CacheEntry(
    clientId: string, audience: string, scope: string,
    accessToken: string, idToken: string, refreshToken: Option<string>,
    expiresIn: real, exp: real, user: string)

  /** `Partial<CacheEntry>`: the whole entry, or what is left of it once it has expired. */
  datatype Body = Full(entry: CacheEntry) | RefreshOnly(token: string) {
    function RefreshToken(): Option<string> {
      match this
      case Full(e) => e.refreshToken
      case RefreshOnly(t) => Some(t)
    }

    /** `body.access_token` */
    function AccessToken(): Option<string> {
      if Full? then Some(entry.accessToken) else None
    }
  }

  datatype Wrapped = Wrapped(body: Body, expiresAt: real)

  /** A slot refers to a wrapper by identity, because stores hand wrappers out by reference. */
  datatype Slot = Data(id: nat) | Listing(keys: seq<string>)

  /** An insertion-ordered string map. */
  datatype Store = Store(order: seq<string>, slots: map<string, Slot>)

  /** `manifestKey` is present exactly when the store cannot list its own keys. */
  datatype CacheState = CacheState(manifestKey: Option<string>, store: Store, wrappers: seq<Wrapped>)

  function KeyOf(e: CacheEntry): CacheKey {
    CacheKey(PREFIX, e.clientId, e.audience, e.scope)
  }

  function EmptyCache(manifestKey: Option<string>): CacheState {
    CacheState(manifestKey, Store([], map[]), [])
  }

  // ----- the store -----

  function Without(keys: seq<string>, key: string): (r: seq<string>)
    ensures forall k :: k in r <==> k in keys && k != key
  {
    if keys == [] then []
    else
      assert forall k :: k in keys <==> k in keys[..|keys| - 1] || k == keys[|keys| - 1];
      Without(keys[..|keys| - 1], key) + (if keys[|keys| - 1] == key then [] else [keys[|keys| - 1]])
  }

  lemma {:induction false} WithoutDistinct(keys: seq<string>, key: string)
    requires Scope.Distinct(keys)
    ensures Scope.Distinct(Without(keys, key))
  {
    if keys != [] {
      var init := keys[..|keys| - 1];
      WithoutDistinct(init, key);
      assert keys[|keys| - 1] !in init;
    }
  }

  lemma FirstIndices(init: seq<string>, last: string)
    ensures forall k :: k in init ==> Scope.FirstIndex(init + [last], k) == Scope.FirstIndex(init, k) < |init|
    ensures last !in init ==> Scope.FirstIndex(init + [last], last) == |init|
  {
    forall k | k in init
      ensures Scope.FirstIndex(init + [last], k) == Scope.FirstIndex(init, k) < |init|
    {
      Scope.FirstIndexSnoc(init, last, k);
    }
    assert (init + [last])[|init|] == last;
  }

  /** What stays keeps its order. */
  lemma {:induction false} WithoutOrder(keys: seq<string>, key: string)
    requires Scope.Distinct(keys)
    ensures forall i, j :: 0 <= i < j < |Without(keys, key)| ==>
              Scope.FirstIndex(keys, Without(keys, key)[i]) < Scope.FirstIndex(keys, Without(keys, key)[j])
  {
    if keys != [] {
      var init, last := keys[..|keys| - 1], keys[|keys| - 1];
      WithoutOrder(init, key);
      assert keys == init + [last] && last !in init;
      FirstIndices(init, last);
      var kept := Without(init, key);
      assert forall i :: 0 <= i < |kept| ==> kept[i] in init;
    }
  }

  /** Writing an existing key keeps its position; a new key goes last. */
  function Put(s: Store, key: string, slot: Slot): Store {
    Store(if key in s.slots then s.order else s.order + [key], s.slots[key := slot])
  }

  function Remove(s: Store, key: string): Store {
    Store(Without(s.order, key), s.slots - {key})
  }

  function RemoveAll(s: Store, keys: seq<string>): Store
    decreases |keys|
  {
    if keys == [] then s else RemoveAll(Remove(s, keys[0]), keys[1..])
  }

  // ----- the manifest -----

  /** The `keys` member of the value under the manifest key, when there is one. */
  function Listed(s: Store, manifestKey: string): Option<seq<string>> {
    if manifestKey in s.slots && s.slots[manifestKey].Listing? then Some(s.slots[manifestKey].keys) else None
  }

  function ManifestAdd(s: Store, manifestKey: string, key: string): Store {
    Put(s, manifestKey, Listing(Scope.Dedupe(Listed(s, manifestKey).GetOr([]) + [key])))
  }

  function ManifestRemove(s: Store, manifestKey: string, key: string): Store {
    if manifestKey !in s.slots then s
    else
      var keys := Without(Scope.Dedupe(Listed(s, manifestKey).GetOr([])), key);
      if keys != [] then Put(s, manifestKey, Listing(keys)) else Remove(s, manifestKey)
  }

  // ----- lookup -----

  function AllKeys(st: CacheState): Option<seq<string>> {
    if st.manifestKey.Some? then Listed(st.store, st.manifestKey.value) else Some(st.store.order)
  }

  predicate ScopesWithin(wanted: string, available: string) {
    forall t :: t in Split(wanted, " ") ==> t in Split(available, " ")
  }

  /** The filter of `matchExistingCacheKey`. */
  predicate Matches(stored: string, wanted: CacheKey) {
    var p := FromKey(stored);
    && p.prefix == PREFIX
    && p.clientId == Some(wanted.clientId)
    && p.audience == Some(wanted.audience)
    && Truthy(p.scope)
    && ScopesWithin(wanted.scope, p.scope.value)
  }

  /** The first matching key; the text "undefined" is what a failed search is looked up as. */
  function FirstMatch(keys: seq<string>, wanted: CacheKey): (m: string)
    ensures m == "undefined" || (m in keys && Matches(m, wanted))
  {
    if keys == [] then "undefined"
    else if Matches(keys[0], wanted) then keys[0]
    else FirstMatch(keys[1..], wanted)
  }

  /** The key whose value answers a request, when the store holds one. */
  function Selected(st: CacheState, key: CacheKey): (k: Option<string>)
    ensures k.Some? ==> k.value in st.store.slots
  {
    if ToKey(key) in st.store.slots then Some(ToKey(key))
    else
      var keys := AllKeys(st);
      if keys.None? then None
      else
        var m := FirstMatch(keys.value, key);
        if m in st.store.slots then Some(m) else None
  }

  /** The order lists each key once, and every slot refers to one of `wrappers` many wrappers. */
  ghost predicate ValidStore(s: Store, wrappers: nat) {
    && Scope.Distinct(s.order)
    && (forall k :: k in s.order <==> k in s.slots)
    && (forall k :: k in s.slots && s.slots[k].Data? ==> s.slots[k].id < wrappers)
  }

  ghost predicate Valid(st: CacheState) {
    ValidStore(st.store, |st.wrappers|)
  }

  function NowSeconds(now: real): real {
    (now / 1000.0).Floor as real
  }

  predicate Expired(w: Wrapped, adjustment: real, now: real) {
    w.expiresAt - adjustment < NowSeconds(now)
  }

  function ExpiresAt(e: CacheEntry, now: real): real {
    var t := NowSeconds(now) + e.expiresIn;
    if t <= e.exp then t else e.exp
  }

  // ----- the operations -----

  /** `CacheManager.get`; `now` is the clock reading in milliseconds. */
  function Get(st: CacheState, key: CacheKey, adjustment: real, now: real): (r: (CacheState, Option<Body>))
    requires Valid(st)
  {
    var found := Selected(st, key);
    if found.None? || st.store.slots[found.value].Listing? then (st, None)
    else
      var id := st.store.slots[found.value].id;
      var w := st.wrappers[id];
      if !Expired(w, adjustment, now) then (st, Some(w.body))
      else if Truthy(w.body.RefreshToken()) then
        var left := RefreshOnly(w.body.RefreshToken().value);
        (st.(wrappers := st.wrappers[id := w.(body := left)], store := Put(st.store, ToKey(key), Data(id))), Some(left))
      else
        var removed := Remove(st.store, ToKey(key));
        var store :=
          if st.manifestKey.Some? then ManifestRemove(removed, st.manifestKey.value, ToKey(key)) else removed;
        (st.(store := store), None)
  }

  /** `CacheManager.set` */
  function Set(st: CacheState, entry: CacheEntry, now: real): CacheState {
    var k := ToKey(KeyOf(entry));
    var stored := Put(st.store, k, Data(|st.wrappers|));
    st.(wrappers := st.wrappers + [Wrapped(Full(entry), ExpiresAt(entry, now))],
        store := if st.manifestKey.Some? then ManifestAdd(stored, st.manifestKey.value, k) else stored)
  }

  /** `CacheManager.clear` without a client filter. */
  function Clear(st: CacheState): CacheState {
    var keys := AllKeys(st);
    if keys.None? then st
    else
      var emptied := RemoveAll(st.store, keys.value);
      st.(store := if st.manifestKey.Some? then Remove(emptied, st.manifestKey.value) else emptied)
  }

  /** `CacheManager.clearSync`: a `TypeError` when the store has no `allKeys`. */
  function ClearSync(st: CacheState): (r: (CacheState, bool)) {
    if st.manifestKey.Some? then (st, true) else (st.(store := RemoveAll(st.store, st.store.order)), false)
  }

  // ----- every operation keeps the state valid -----

  lemma PutValid(s: Store, n: nat, key: string, slot: Slot)
    requires ValidStore(s, n) && (slot.Data? ==> slot.id < n)
    ensures ValidStore(Put(s, key, slot), n)
  {
  }

  lemma RemoveValid(s: Store, n: nat, key: string)
    requires ValidStore(s, n)
    ensures ValidStore(Remove(s, key), n)
  {
    WithoutDistinct(s.order, key);
  }

  lemma {:induction false} RemoveAllSlots(s: Store, keys: seq<string>)
    ensures forall k :: k in RemoveAll(s, keys).slots <==> k in s.slots && k !in keys
    ensures forall k :: k in RemoveAll(s, keys).slots ==> RemoveAll(s, keys).slots[k] == s.slots[k]
    decreases |keys|
  {
    if keys != [] {
      RemoveAllSlots(Remove(s, keys[0]), keys[1..]);
      assert keys == [keys[0]] + keys[1..];
    }
  }

  lemma {:induction false} RemoveAllValid(s: Store, n: nat, keys: seq<string>)
    requires ValidStore(s, n)
    ensures ValidStore(RemoveAll(s, keys), n)
    decreases |keys|
  {
    if keys != [] {
      RemoveValid(s, n, keys[0]);
      RemoveAllValid(Remove(s, keys[0]), n, keys[1..]);
    }
  }

  lemma GetValid(st: CacheState, key: CacheKey, adjustment: real, now: real)
    requires Valid(st)
    ensures Valid(Get(st, key, adjustment, now).0)
  {
    var k, n := ToKey(key), |st.wrappers|;
    var found := Selected(st, key);
    if found.Some? && st.store.slots[found.value].Data? {
      PutValid(st.store, n, k, st.store.slots[found.value]);
      RemoveValid(st.store, n, k);
      if st.manifestKey.Some? {
        ManifestRemoveValid(Remove(st.store, k), n, st.manifestKey.value, k);
      }
    }
  }

  lemma ManifestRemoveValid(s: Store, n: nat, manifestKey: string, key: string)
    requires ValidStore(s, n)
    ensures ValidStore(ManifestRemove(s, manifestKey, key), n)
  {
    RemoveValid(s, n, manifestKey);
    forall keys {
      PutValid(s, n, manifestKey, Listing(keys));
    }
  }

  lemma SetValid(st: CacheState, entry: CacheEntry, now: real)
    requires Valid(st)
    ensures Valid(Set(st, entry, now))
  {
    var n := |st.wrappers| + 1;
    assert ValidStore(st.store, n);
    var stored := Put(st.store, ToKey(KeyOf(entry)), Data(|st.wrappers|));
    PutValid(st.store, n, ToKey(KeyOf(entry)), Data(|st.wrappers|));
    if st.manifestKey.Some? {
      var mk := st.manifestKey.value;
      PutValid(stored, n, mk, Listing(Scope.Dedupe(Listed(stored, mk).GetOr([]) + [ToKey(KeyOf(entry))])));
    }
  }

  lemma ClearValid(st: CacheState)
    requires Valid(st)
    ensures Valid(Clear(st))
  {
    var n := |st.wrappers|;
    if AllKeys(st).Some? {
      RemoveAllValid(st.store, n, AllKeys(st).value);
      if st.manifestKey.Some? {
        RemoveValid(RemoveAll(st.store, AllKeys(st).value), n, st.manifestKey.value);
      }
    }
  }
}
