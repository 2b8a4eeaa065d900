/** What holds of the token cache over every run of set, get and clear, whatever the clock does. */
module CacheRuns {
  import opened Wrappers
  import opened CacheKeys
  import opened KeyAmbiguity
  import opened CacheModel
  import Scope

  datatype Op =
    | DoSet(entry: CacheEntry, now: real)
    | DoGet(key: CacheKey, adjustment: real, now: real)
    | DoClear
    | DoClearSync

  function Apply(st: CacheState, op: Op): CacheState
    requires Valid(st)
  {
    match op
    case DoSet(entry, now) => Set(st, entry, now)
    case DoGet(key, adjustment, now) => Get(st, key, adjustment, now).0
    case DoClear => Clear(st)
    case DoClearSync => ClearSync(st).0
  }

  lemma ApplyValid(st: CacheState, op: Op)
    requires Valid(st)
    ensures Valid(Apply(st, op))
  {
    match op
    case DoSet(entry, now) => SetValid(st, entry, now);
    case DoGet(key, adjustment, now) => GetValid(st, key, adjustment, now);
    case DoClear => ClearValid(st);
    case DoClearSync => RemoveAllValid(st.store, |st.wrappers|, st.store.order);
  }

  /** The state after `ops`; `owner` is the manifest's client id, absent when the store lists its own keys. */
  ghost function Run(owner: Option<string>, ops: seq<Op>): (st: CacheState)
    ensures Valid(st)
  {
    if ops == [] then EmptyCache(IndexKey(owner))
    else
      var before := Run(owner, ops[..|ops| - 1]);
      ApplyValid(before, ops[|ops| - 1]);
      Apply(before, ops[|ops| - 1])
  }

  function IndexKey(owner: Option<string>): Option<string> {
    if owner.Some? then Some(ManifestKey(owner.value)) else None
  }

  predicate GoodOwner(owner: Option<string>) {
    owner.Some? ==> !TwoSeparators(owner.value)
  }

  // ----- which operations end the life of an entry -----

  predicate Clears(owner: Option<string>, op: Op) {
    op.DoClear? || (op.DoClearSync? && owner.None?)
  }

  predicate Overwrites(owner: Option<string>, op: Op, k: string) {
    Clears(owner, op) || (op.DoSet? && ToKey(KeyOf(op.entry)) == k)
  }

  /** The wrapper that a set stores. */
  function StoredAs(op: Op): Wrapped
    requires op.DoSet?
  {
    Wrapped(Full(op.entry), ExpiresAt(op.entry, op.now))
  }

  predicate SetAt(ops: seq<Op>, i: int) {
    0 <= i < |ops| && ops[i].DoSet?
  }

  /** Operation `i` is the latest `set` on its key, with no clear since. */
  ghost predicate Current(owner: Option<string>, ops: seq<Op>, i: int) {
    SetAt(ops, i) && forall j :: i < j < |ops| ==> !Overwrites(owner, ops[j], ToKey(KeyOf(ops[i].entry)))
  }

  // ----- the invariant -----

  predicate FullAt(st: CacheState, k: string)
    requires k in st.store.slots && st.store.slots[k].Data? ==> st.store.slots[k].id < |st.wrappers|
  {
    k in st.store.slots && st.store.slots[k].Data? && st.wrappers[st.store.slots[k].id].body.Full?
  }

  /** The wrapper under `k` is the one that operation `i` stored there. */
  ghost predicate StoredBy(owner: Option<string>, ops: seq<Op>, i: int, k: string, w: Wrapped) {
    && Current(owner, ops, i)
    && ToKey(KeyOf(ops[i].entry)) == k
    && w == StoredAs(ops[i])
  }

  /** Every complete entry in the store comes from the current `set` of its key. */
  ghost predicate Traced(owner: Option<string>, ops: seq<Op>, st: CacheState)
    requires Valid(st)
  {
    forall k :: FullAt(st, k) ==> exists i :: StoredBy(owner, ops, i, k, st.wrappers[st.store.slots[k].id])
  }

  /** The manifest lists distinct, present keys, among them that of every complete entry. */
  ghost predicate Indexed(st: CacheState)
    requires Valid(st)
  {
    && (forall k :: k in st.store.slots && st.store.slots[k].Listing? ==> st.manifestKey == Some(k))
    && (st.manifestKey.Some? ==>
          var mk := st.manifestKey.value;
          && (mk in st.store.slots ==> st.store.slots[mk].Listing?)
          && var listed := Listed(st.store, mk).GetOr([]);
             && Scope.Distinct(listed)
             && (forall k :: k in listed ==> k in st.store.slots && k != mk)
             && (forall k :: FullAt(st, k) ==> k in listed))
  }

  lemma Extend(owner: Option<string>, ops: seq<Op>, op: Op, i: int, k: string, w: Wrapped)
    requires StoredBy(owner, ops, i, k, w) && !Overwrites(owner, op, k)
    ensures StoredBy(owner, ops + [op], i, k, w)
  {
    var ops' := ops + [op];
    assert ops'[i] == ops[i];
    forall j | i < j < |ops'|
      ensures !Overwrites(owner, ops'[j], k)
    {
      assert ops'[j] == if j < |ops| then ops[j] else op;
    }
  }

  // ----- get -----

  /** A get leaves every complete entry that survives it where it was. */
  lemma GetKeeps(st: CacheState, key: CacheKey, adjustment: real, now: real, k: string)
    requires Valid(st) && Indexed(st)
    requires Valid(Get(st, key, adjustment, now).0) && FullAt(Get(st, key, adjustment, now).0, k)
    ensures FullAt(st, k)
    ensures var st' := Get(st, key, adjustment, now).0;
            && st'.store.slots[k] == st.store.slots[k]
            && st'.wrappers[st.store.slots[k].id] == st.wrappers[st.store.slots[k].id]
  {
  }

  /** Dropping a key from store and manifest alike leaves the manifest listing the others. */
  lemma DropIndexed(s: Store, mk: string, k0: string)
    requires mk != k0 && (mk in s.slots ==> s.slots[mk].Listing? && Scope.Distinct(s.slots[mk].keys))
    ensures var slots := ManifestRemove(Remove(s, k0), mk, k0).slots;
            var kept := Without(Listed(s, mk).GetOr([]), k0);
            && (forall k :: k != mk ==> (k in slots <==> k in s.slots && k != k0))
            && (forall k :: k != mk && k in slots ==> slots[k] == s.slots[k])
            && (mk in slots <==> kept != [])
            && (mk in slots ==> slots[mk] == Listing(kept))
  {
    if mk in s.slots {
      Scope.DedupeFixed(s.slots[mk].keys);
    }
  }

  lemma IndexedAfterDrop(st: CacheState, st': CacheState, k0: string)
    requires Valid(st) && Indexed(st) && st.manifestKey.Some? && st.manifestKey.value != k0
    requires Valid(st') && st'.manifestKey == st.manifestKey
    requires st'.store.slots == ManifestRemove(Remove(st.store, k0), st.manifestKey.value, k0).slots
    requires forall k :: FullAt(st', k) ==> FullAt(st, k)
    ensures Indexed(st')
  {
    DropIndexed(st.store, st.manifestKey.value, k0);
    WithoutDistinct(Listed(st.store, st.manifestKey.value).GetOr([]), k0);
  }

  lemma GetIndexed(st: CacheState, key: CacheKey, adjustment: real, now: real)
    requires Valid(st) && Indexed(st)
    requires st.manifestKey != Some(ToKey(key))
    ensures Valid(Get(st, key, adjustment, now).0) && Indexed(Get(st, key, adjustment, now).0)
  {
    GetValid(st, key, adjustment, now);
    var st', k0 := Get(st, key, adjustment, now).0, ToKey(key);
    forall k | FullAt(st', k)
      ensures FullAt(st, k)
    {
      GetKeeps(st, key, adjustment, now, k);
    }
    if st.manifestKey.Some? && st'.wrappers == st.wrappers && st' != st && k0 !in st'.store.slots {
      IndexedAfterDrop(st, st', k0);
    }
  }

  // ----- set -----

  lemma SetSlots(st: CacheState, entry: CacheEntry, now: real, k: string)
    requires Valid(st) && st.manifestKey != Some(ToKey(KeyOf(entry)))
    requires Valid(Set(st, entry, now)) && FullAt(Set(st, entry, now), k)
    ensures var st', k0 := Set(st, entry, now), ToKey(KeyOf(entry));
            if k == k0 then
              st'.wrappers[st'.store.slots[k].id] == Wrapped(Full(entry), ExpiresAt(entry, now))
            else
              FullAt(st, k) && st'.store.slots[k] == st.store.slots[k] &&
              st'.wrappers[st.store.slots[k].id] == st.wrappers[st.store.slots[k].id]
  {
  }

  lemma SetLists(st: CacheState, entry: CacheEntry, now: real)
    requires Valid(st) && Indexed(st) && st.manifestKey.Some?
    requires st.manifestKey != Some(ToKey(KeyOf(entry)))
    ensures var mk, k0 := st.manifestKey.value, ToKey(KeyOf(entry));
            var listed := Scope.Dedupe(Listed(st.store, mk).GetOr([]) + [k0]);
            Set(st, entry, now).store.slots == st.store.slots[k0 := Data(|st.wrappers|)][mk := Listing(listed)]
  {
  }

  lemma IndexedAfterListing(st: CacheState, st': CacheState, mk: string, k0: string, id: nat, listed: seq<string>)
    requires Valid(st) && Indexed(st) && st.manifestKey == Some(mk) == st'.manifestKey && mk != k0
    requires Valid(st') && st'.store.slots == st.store.slots[k0 := Data(id)][mk := Listing(listed)]
    requires Scope.Distinct(listed)
    requires forall k :: k in listed <==> k in Listed(st.store, mk).GetOr([]) || k == k0
    requires forall k :: FullAt(st', k) ==> k == k0 || FullAt(st, k)
    ensures Indexed(st')
  {
    assert Listed(st'.store, mk) == Some(listed);
  }

  /** Adding a key to a list of keys adds that key alone. */
  lemma AddedKeys(before: seq<string>, k0: string)
    ensures var listed := Scope.Dedupe(before + [k0]);
            Scope.Distinct(listed) && forall k :: k in listed <==> k in before || k == k0
  {
    Scope.DedupeMembers(before + [k0]);
    Scope.DedupeDistinct(before + [k0]);
  }

  lemma SetAddsOne(st: CacheState, entry: CacheEntry, now: real)
    requires Valid(st) && st.manifestKey != Some(ToKey(KeyOf(entry)))
    requires Valid(Set(st, entry, now))
    ensures forall k :: FullAt(Set(st, entry, now), k) ==> k == ToKey(KeyOf(entry)) || FullAt(st, k)
  {
    forall k | FullAt(Set(st, entry, now), k)
      ensures k == ToKey(KeyOf(entry)) || FullAt(st, k)
    {
      SetSlots(st, entry, now, k);
    }
  }

  lemma SetIndexed(st: CacheState, entry: CacheEntry, now: real)
    requires Valid(st) && Indexed(st)
    requires st.manifestKey != Some(ToKey(KeyOf(entry)))
    ensures Valid(Set(st, entry, now)) && Indexed(Set(st, entry, now))
  {
    SetValid(st, entry, now);
    if st.manifestKey.Some? {
      SetListed(st, Set(st, entry, now), entry, now, st.manifestKey.value);
    }
  }

  lemma SetListed(st: CacheState, st': CacheState, entry: CacheEntry, now: real, mk: string)
    requires Valid(st) && Indexed(st) && st.manifestKey == Some(mk) && mk != ToKey(KeyOf(entry))
    requires Valid(st') && st' == Set(st, entry, now)
    ensures Indexed(st')
  {
    var k0, before := ToKey(KeyOf(entry)), Listed(st.store, mk).GetOr([]);
    SetAddsOne(st, entry, now);
    SetLists(st, entry, now);
    AddedKeys(before, k0);
    IndexedAfterListing(st, st', mk, k0, |st.wrappers|, Scope.Dedupe(before + [k0]));
  }

  // ----- clear -----

  lemma NoMembers<T>(xs: seq<T>)
    ensures (forall x :: x !in xs) ==> xs == []
  {
    if xs != [] {
      assert xs[0] in xs;
    }
  }

  /** An unfiltered clear leaves no complete entry behind. */
  lemma ClearDropsFull(st: CacheState)
    requires Valid(st) && Indexed(st)
    ensures Valid(Clear(st)) && Indexed(Clear(st))
    ensures forall k :: !FullAt(Clear(st), k)
    ensures st.manifestKey.None? ==> Clear(st).store == Store([], map[])
  {
    ClearValid(st);
    var keys := AllKeys(st);
    if keys.Some? {
      RemoveAllSlots(st.store, keys.value);
      if st.manifestKey.None? {
        assert Clear(st).store.slots == map[];
        NoMembers(Clear(st).store.order);
      }
    }
  }

  // ----- all runs -----

  predicate GoodOps(owner: Option<string>, ops: seq<Op>) {
    GoodOwner(owner) && forall i :: 0 <= i < |ops| && ops[i].DoGet? ==> ops[i].key.prefix == PREFIX
  }

  /** Every operation keeps the manifest in step and every complete entry traced. */
  lemma StepInvariant(owner: Option<string>, ops: seq<Op>, st: CacheState, op: Op)
    requires Valid(st) && Indexed(st) && Traced(owner, ops, st) && st.manifestKey == IndexKey(owner)
    requires GoodOwner(owner) && (op.DoGet? ==> op.key.prefix == PREFIX)
    ensures Valid(Apply(st, op)) && Indexed(Apply(st, op)) && Traced(owner, ops + [op], Apply(st, op))
  {
    match op
    case DoSet(entry, now) =>
      Apart(owner, KeyOf(entry));
      SetIndexed(st, entry, now);
      SetTraced(owner, ops, st, entry, now);
    case DoGet(key, adjustment, now) =>
      Apart(owner, key);
      GetIndexed(st, key, adjustment, now);
      GetTraced(owner, ops, st, op);
    case DoClear =>
      ClearDropsFull(st);
    case DoClearSync =>
      ClearDropsFull(st);
      if owner.Some? {
        UnclearedTraced(owner, ops, st, op);
      }
  }

  lemma ApplyManifestKey(st: CacheState, op: Op)
    requires Valid(st)
    ensures Apply(st, op).manifestKey == st.manifestKey
  {
  }

  lemma RunStep(owner: Option<string>, ops: seq<Op>, op: Op)
    ensures Run(owner, ops + [op]) == Apply(Run(owner, ops), op)
  {
    assert (ops + [op])[..|ops|] == ops;
  }

  /** What `RunInvariant` says of one state. */
  ghost predicate Sound(owner: Option<string>, ops: seq<Op>, st: CacheState)
    requires Valid(st)
  {
    st.manifestKey == IndexKey(owner) && Indexed(st) && Traced(owner, ops, st)
  }

  lemma StepSound(owner: Option<string>, ops: seq<Op>, st: CacheState, op: Op, st': CacheState)
    requires GoodOwner(owner) && (op.DoGet? ==> op.key.prefix == PREFIX)
    requires Valid(st) && Sound(owner, ops, st) && st' == Apply(st, op)
    ensures Valid(st') && Sound(owner, ops + [op], st')
  {
    StepInvariant(owner, ops, st, op);
    ApplyManifestKey(st, op);
  }

  lemma {:induction false} RunSound(owner: Option<string>, ops: seq<Op>)
    requires GoodOps(owner, ops)
    ensures Sound(owner, ops, Run(owner, ops))
  {
    if ops != [] {
      var before, op := ops[..|ops| - 1], ops[|ops| - 1];
      RunSound(owner, before);
      assert ops == before + [op];
      RunStep(owner, before, op);
      StepSound(owner, before, Run(owner, before), op, Run(owner, ops));
    }
  }

  /** Over all runs the manifest is in step and every complete entry is traced. */
  lemma RunInvariant(owner: Option<string>, ops: seq<Op>)
    requires GoodOps(owner, ops)
    ensures Run(owner, ops).manifestKey == IndexKey(owner)
    ensures Indexed(Run(owner, ops)) && Traced(owner, ops, Run(owner, ops))
  {
    RunSound(owner, ops);
  }

  /** An operation that overwrites nothing leaves every source in place. */
  lemma UnclearedTraced(owner: Option<string>, ops: seq<Op>, st: CacheState, op: Op)
    requires Valid(st) && Traced(owner, ops, st)
    requires !op.DoSet? && !Clears(owner, op)
    ensures Traced(owner, ops + [op], st)
  {
    forall k | FullAt(st, k)
      ensures exists i :: StoredBy(owner, ops + [op], i, k, st.wrappers[st.store.slots[k].id])
    {
      var i :| StoredBy(owner, ops, i, k, st.wrappers[st.store.slots[k].id]);
      Extend(owner, ops, op, i, k, st.wrappers[st.store.slots[k].id]);
    }
  }

  lemma Apart(owner: Option<string>, key: CacheKey)
    requires GoodOwner(owner) && key.prefix == PREFIX
    ensures IndexKey(owner) != Some(ToKey(key))
  {
    if owner.Some? {
      NeverManifestKey(key, owner.value);
    }
  }

  lemma StoredNow(owner: Option<string>, ops: seq<Op>, entry: CacheEntry, now: real)
    ensures StoredBy(owner, ops + [DoSet(entry, now)], |ops|, ToKey(KeyOf(entry)),
                     Wrapped(Full(entry), ExpiresAt(entry, now)))
  {
    assert (ops + [DoSet(entry, now)])[|ops|] == DoSet(entry, now);
  }

  lemma SetTraced(owner: Option<string>, ops: seq<Op>, st: CacheState, entry: CacheEntry, now: real)
    requires Valid(st) && Traced(owner, ops, st)
    requires st.manifestKey != Some(ToKey(KeyOf(entry)))
    requires Valid(Set(st, entry, now))
    ensures Traced(owner, ops + [DoSet(entry, now)], Set(st, entry, now))
  {
    var st', op := Set(st, entry, now), DoSet(entry, now);
    var ops' := ops + [op];
    forall k | FullAt(st', k)
      ensures exists i :: StoredBy(owner, ops', i, k, st'.wrappers[st'.store.slots[k].id])
    {
      SetSlots(st, entry, now, k);
      if k == ToKey(KeyOf(entry)) {
        StoredNow(owner, ops, entry, now);
      } else {
        var w := st.wrappers[st.store.slots[k].id];
        var i :| StoredBy(owner, ops, i, k, w);
        Extend(owner, ops, op, i, k, w);
      }
    }
  }

  lemma GetTraced(owner: Option<string>, ops: seq<Op>, st: CacheState, op: Op)
    requires Valid(st) && Indexed(st) && Traced(owner, ops, st) && op.DoGet?
    requires Valid(Apply(st, op))
    ensures Traced(owner, ops + [op], Apply(st, op))
  {
    var st' := Apply(st, op);
    forall k | FullAt(st', k)
      ensures exists i :: StoredBy(owner, ops + [op], i, k, st'.wrappers[st'.store.slots[k].id])
    {
      GetKeeps(st, op.key, op.adjustment, op.now, k);
      var w := st.wrappers[st.store.slots[k].id];
      var i :| StoredBy(owner, ops, i, k, w);
      Extend(owner, ops, op, i, k, w);
    }
  }

  // ----- provenance and freshness of access tokens -----

  /** An entry under `stored` may answer a request for `wanted`: the same text, or the match of `get`. */
  predicate Answers(stored: CacheKey, wanted: CacheKey) {
    ToKey(stored) == ToKey(wanted) || Matches(ToKey(stored), wanted)
  }

  /** What `get` selects answers the request, where no stored key is the text of a failed search. */
  lemma SelectedAnswers(st: CacheState, key: CacheKey)
    requires Selected(st, key).Some?
    ensures var k := Selected(st, key).value;
            k == ToKey(key) || k == "undefined" || Matches(k, key)
  {
  }

  /** A complete answer is the entry under the selected key, and it is not expired. */
  lemma AnswerIsSelected(st: CacheState, key: CacheKey, adjustment: real, now: real)
    requires Valid(st)
    requires Get(st, key, adjustment, now).1.Some? && Get(st, key, adjustment, now).1.value.Full?
    ensures Selected(st, key).Some? && FullAt(st, Selected(st, key).value)
    ensures var w := st.wrappers[st.store.slots[Selected(st, key).value].id];
            Get(st, key, adjustment, now).1.value == w.body && !Expired(w, adjustment, now)
  {
  }

  /** The text of a failed search is not that of a key that was set. */
  lemma NotUndefined(k: CacheKey, prefix: string)
    requires k.prefix == prefix && |prefix| > 9
    ensures ToKey(k) != "undefined"
  {
    Nested(k);
  }

  lemma ServedFrom(owner: Option<string>, ops: seq<Op>, st: CacheState, key: CacheKey, k: string, w: Wrapped)
    requires Valid(st) && Traced(owner, ops, st) && FullAt(st, k) && w == st.wrappers[st.store.slots[k].id]
    requires k == ToKey(key) || k == "undefined" || Matches(k, key)
    ensures exists i :: Current(owner, ops, i) && w == StoredAs(ops[i]) && Answers(KeyOf(ops[i].entry), key)
  {
    var i :| StoredBy(owner, ops, i, k, w);
    NotUndefined(KeyOf(ops[i].entry), PREFIX);
    assert Answers(KeyOf(ops[i].entry), key);
  }

  /** A complete entry that `get` serves is the body of the current `set` of some key that answers the request. */
  lemma AccessTokenProvenance(owner: Option<string>, ops: seq<Op>, key: CacheKey, adjustment: real, now: real)
    requires GoodOps(owner, ops + [DoGet(key, adjustment, now)])
    requires Get(Run(owner, ops), key, adjustment, now).1.Some?
    requires Get(Run(owner, ops), key, adjustment, now).1.value.Full?
    ensures exists i :: Current(owner, ops, i)
              && Get(Run(owner, ops), key, adjustment, now).1.value.entry == ops[i].entry
              && Answers(KeyOf(ops[i].entry), key)
              && !Expired(StoredAs(ops[i]), adjustment, now)
  {
    Prefixed(owner, ops, key, adjustment, now);
    RunInvariant(owner, ops);
    var st := Run(owner, ops);
    AnswerIsSelected(st, key, adjustment, now);
    SelectedAnswers(st, key);
    var k := Selected(st, key).value;
    ServedFrom(owner, ops, st, key, k, st.wrappers[st.store.slots[k].id]);
  }

  lemma Prefixed(owner: Option<string>, ops: seq<Op>, key: CacheKey, adjustment: real, now: real)
    requires GoodOps(owner, ops + [DoGet(key, adjustment, now)])
    ensures GoodOps(owner, ops) && key.prefix == PREFIX
  {
    var all := ops + [DoGet(key, adjustment, now)];
    assert all[|ops|].DoGet?;
    assert forall i :: 0 <= i < |ops| ==> all[i] == ops[i];
  }

  /** On well-formed keys an answer has the same client and audience and all the requested scopes. */
  lemma AnswersMeans(stored: CacheKey, wanted: CacheKey)
    requires WellFormed(stored) && WellFormed(wanted) && stored.prefix == PREFIX == wanted.prefix
    ensures Answers(stored, wanted) <==>
            || stored == wanted
            || (&& stored.clientId == wanted.clientId && stored.audience == wanted.audience
                && stored.scope != "" && ScopesWithin(wanted.scope, stored.scope))
    ensures Answers(stored, wanted) ==>
            && stored.clientId == wanted.clientId && stored.audience == wanted.audience
            && ScopesWithin(wanted.scope, stored.scope)
  {
    RoundTrip(stored);
    if ToKey(stored) == ToKey(wanted) {
      ToKeyInjective(stored, wanted);
    }
  }

  /** With an adjustment of 60, a served token is younger and further from expiry than these bounds, in milliseconds. */
  lemma ServedTokenIsFresh(owner: Option<string>, ops: seq<Op>, key: CacheKey, now: real)
    requires GoodOps(owner, ops + [DoGet(key, 60.0, now)])
    requires Get(Run(owner, ops), key, 60.0, now).1.Some?
    requires Get(Run(owner, ops), key, 60.0, now).1.value.Full?
    ensures var e := Get(Run(owner, ops), key, 60.0, now).1.value.entry;
            exists i :: Current(owner, ops, i) && ops[i].entry == e && Answers(KeyOf(e), key)
              && now - ops[i].now < 1000.0 * (e.expiresIn - 59.0)
              && 1000.0 * e.exp - now > 59000.0
  {
    AccessTokenProvenance(owner, ops, key, 60.0, now);
    var e := Get(Run(owner, ops), key, 60.0, now).1.value.entry;
    var i :| Current(owner, ops, i) && e == ops[i].entry && Answers(KeyOf(ops[i].entry), key)
      && !Expired(StoredAs(ops[i]), 60.0, now);
    FloorBounds(now);
    FloorBounds(ops[i].now);
  }

  lemma FloorBounds(now: real)
    ensures 1000.0 * NowSeconds(now) <= now < 1000.0 * NowSeconds(now) + 1000.0
  {
    var q := now / 1000.0;
    assert 1000.0 * q == now;
    assert q.Floor as real <= q < q.Floor as real + 1.0;
  }

  // ----- what was set is found again -----

  /** The wrapper under `k` is complete and is this one. */
  predicate Held(st: CacheState, k: string, w: Wrapped)
    requires k in st.store.slots && st.store.slots[k].Data? ==> st.store.slots[k].id < |st.wrappers|
  {
    FullAt(st, k) && st.wrappers[st.store.slots[k].id] == w
  }

  lemma GetKeepsHeld(st: CacheState, key: CacheKey, adjustment: real, now: real, k: string, w: Wrapped)
    requires Valid(st) && Held(st, k, w) && st.manifestKey != Some(k) && !Expired(w, adjustment, now)
    requires Valid(Get(st, key, adjustment, now).0)
    ensures Held(Get(st, key, adjustment, now).0, k, w)
  {
    if ToKey(key) == k {
      assert Selected(st, key) == Some(k);
    }
  }

  /** Only an overwrite, or a get at whose clock reading the wrapper is expired, can end its stay. */
  lemma HeldStays(st: CacheState, op: Op, k: string, w: Wrapped)
    requires Valid(st) && Held(st, k, w) && st.manifestKey != Some(k)
    requires op.DoSet? ==> ToKey(KeyOf(op.entry)) != k
    requires !op.DoClear? && (op.DoClearSync? ==> st.manifestKey.Some?)
    requires op.DoGet? ==> !Expired(w, op.adjustment, op.now)
    ensures Valid(Apply(st, op)) && Held(Apply(st, op), k, w)
  {
    ApplyValid(st, op);
    if op.DoGet? {
      GetKeepsHeld(st, op.key, op.adjustment, op.now, k, w);
    }
  }

  lemma SetHolds(st: CacheState, entry: CacheEntry, now: real)
    requires Valid(st) && st.manifestKey != Some(ToKey(KeyOf(entry)))
    ensures Valid(Set(st, entry, now))
    ensures Held(Set(st, entry, now), ToKey(KeyOf(entry)), Wrapped(Full(entry), ExpiresAt(entry, now)))
  {
    SetValid(st, entry, now);
  }

  lemma HeldServes(st: CacheState, key: CacheKey, w: Wrapped, adjustment: real, now: real)
    requires Valid(st) && Held(st, ToKey(key), w) && !Expired(w, adjustment, now)
    ensures Get(st, key, adjustment, now) == (st, Some(w.body))
  {
  }

  /** A run in which entry `i` is never overwritten and never seen expired. */
  ghost predicate Undisturbed(owner: Option<string>, ops: seq<Op>, i: int) {
    && Current(owner, ops, i)
    && forall j :: i < j < |ops| && ops[j].DoGet? ==>
         !Expired(StoredAs(ops[i]), ops[j].adjustment, ops[j].now)
  }

  lemma {:induction false} UndisturbedHeld(owner: Option<string>, ops: seq<Op>, i: int)
    requires GoodOps(owner, ops) && Undisturbed(owner, ops, i)
    ensures Held(Run(owner, ops), ToKey(KeyOf(ops[i].entry)), StoredAs(ops[i]))
  {
    var before, op := ops[..|ops| - 1], ops[|ops| - 1];
    assert ops == before + [op];
    RunInvariant(owner, before);
    Apart(owner, KeyOf(ops[i].entry));
    if i == |ops| - 1 {
      SetHolds(Run(owner, before), op.entry, op.now);
    } else {
      assert before[i] == ops[i] && forall j :: i < j < |before| ==> before[j] == ops[j];
      UndisturbedHeld(owner, before, i);
      HeldStays(Run(owner, before), op, ToKey(KeyOf(ops[i].entry)), StoredAs(ops[i]));
    }
  }

  /** What was set, and neither overwritten nor seen expired since, is what a fresh get of its key returns. */
  lemma SetThenGet(owner: Option<string>, ops: seq<Op>, i: int, adjustment: real, now: real)
    requires GoodOps(owner, ops) && SetAt(ops, i)
    requires Undisturbed(owner, ops + [DoGet(KeyOf(ops[i].entry), adjustment, now)], i)
    ensures Get(Run(owner, ops), KeyOf(ops[i].entry), adjustment, now) == (Run(owner, ops), Some(Full(ops[i].entry)))
  {
    var all := ops + [DoGet(KeyOf(ops[i].entry), adjustment, now)];
    assert forall j :: 0 <= j < |ops| ==> all[j] == ops[j];
    assert all[|ops|].DoGet?;
    UndisturbedHeld(owner, ops, i);
    HeldServes(Run(owner, ops), KeyOf(ops[i].entry), StoredAs(ops[i]), adjustment, now);
  }

  // ----- logout -----

  /** `isAuthenticated`: `getUser` finds a decoded token under the key it looks up. */
  predicate IsAuthenticated(st: CacheState, key: CacheKey, now: real)
    requires Valid(st)
  {
    var found := Get(st, key, 0.0, now).1;
    found.Some? && found.value.Full?
  }

  ghost predicate NoSetAfter(ops: seq<Op>, i: int) {
    forall j :: 0 <= i <= j < |ops| ==> !ops[j].DoSet?
  }

  lemma NoneCurrent(owner: Option<string>, ops: seq<Op>, i: int, j: int)
    requires 0 <= i < |ops| && Clears(owner, ops[i]) && NoSetAfter(ops, i)
    ensures !Current(owner, ops, j)
  {
    if SetAt(ops, j) && j < i {
      assert Overwrites(owner, ops[i], ToKey(KeyOf(ops[j].entry)));
    }
  }

  lemma NoFullSince(owner: Option<string>, ops: seq<Op>, i: int)
    requires GoodOps(owner, ops) && 0 <= i < |ops| && Clears(owner, ops[i]) && NoSetAfter(ops, i)
    ensures forall k :: !FullAt(Run(owner, ops), k)
  {
    RunInvariant(owner, ops);
    forall j {
      NoneCurrent(owner, ops, i, j);
    }
  }

  /** After a clear and until the next set, no get returns a complete entry and nobody is authenticated. */
  lemma ClearLogsOut(owner: Option<string>, ops: seq<Op>, i: int, key: CacheKey, adjustment: real, now: real)
    requires GoodOps(owner, ops) && 0 <= i < |ops| && Clears(owner, ops[i]) && NoSetAfter(ops, i)
    ensures var r := Get(Run(owner, ops), key, adjustment, now).1;
            r.Some? ==> r.value.RefreshOnly?
    ensures !IsAuthenticated(Run(owner, ops), key, now)
  {
    NoFullSince(owner, ops, i);
    var st := Run(owner, ops);
    forall a: real
      ensures var r := Get(st, key, a, now).1; r.Some? ==> r.value.RefreshOnly?
    {
      var k := Selected(st, key);
      assert k.Some? ==> !FullAt(st, k.value);
    }
  }

  /** A store that lists its own keys is empty right after a clear, by either call. */
  lemma ClearEmpties(ops: seq<Op>, op: Op)
    requires GoodOps(None, ops + [op]) && Clears(None, op)
    ensures Run(None, ops + [op]).store == Store([], map[])
  {
    var all := ops + [op];
    assert all[..|ops|] == ops && forall i :: 0 <= i < |ops| ==> all[i] == ops[i];
    RunInvariant(None, ops);
    ClearDropsFull(Run(None, ops));
  }

  // ----- the manifest -----

  /** The manifest lists distinct keys that are all in the store, and what it omits holds a refresh token alone. */
  lemma ManifestAgrees(clientId: string, ops: seq<Op>)
    requires GoodOps(Some(clientId), ops)
    ensures var st := Run(Some(clientId), ops);
            var listed := Listed(st.store, ManifestKey(clientId)).GetOr([]);
            && Scope.Distinct(listed)
            && (forall k :: k in listed ==> k in st.store.slots && st.store.slots[k].Data?)
            && (forall k :: k in st.store.slots && st.store.slots[k].Data? && k !in listed ==>
                  st.wrappers[st.store.slots[k].id].body.RefreshOnly?)
  {
    RunInvariant(Some(clientId), ops);
    var st := Run(Some(clientId), ops);
    forall k | k in st.store.slots && st.store.slots[k].Data? && k !in Listed(st.store, ManifestKey(clientId)).GetOr([])
      ensures st.wrappers[st.store.slots[k].id].body.RefreshOnly?
    {
      assert !FullAt(st, k);
    }
  }
}
