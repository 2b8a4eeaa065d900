/** Where the refresh tokens in the cache come from. */
module RefreshProvenance {
  import opened Wrappers
  import opened CacheKeys
  import opened CacheModel
  import opened CacheRuns

  /** The entry stored under `m` has the client and audience of `k`, and at least its scopes. */
  predicate Covers(m: string, k: string) {
    var a, b := FromKey(m), FromKey(k);
    m == k ||
    (a.prefix == b.prefix && a.clientId == b.clientId && a.audience == b.audience &&
     a.scope.Some? && b.scope.Some? && ScopesWithin(b.scope.value, a.scope.value))
  }

  /** Operation `i` stored `token` in an entry that covers `k`; without a manifest, nobody has cleared since. */
  ghost predicate TokenFrom(owner: Option<string>, ops: seq<Op>, i: int, k: string, token: string) {
    && SetAt(ops, i)
    && ops[i].entry.refreshToken == Some(token)
    && token != ""
    && Covers(ToKey(KeyOf(ops[i].entry)), k)
    && (owner.None? ==> forall j :: i < j < |ops| ==> !Clears(owner, ops[j]))
  }

  predicate RefreshAt(st: CacheState, k: string)
    requires k in st.store.slots && st.store.slots[k].Data? ==> st.store.slots[k].id < |st.wrappers|
  {
    k in st.store.slots && st.store.slots[k].Data? && st.wrappers[st.store.slots[k].id].body.RefreshOnly?
  }

  ghost predicate TokensTraced(owner: Option<string>, ops: seq<Op>, st: CacheState)
    requires Valid(st)
  {
    forall k :: RefreshAt(st, k) ==>
      exists i :: TokenFrom(owner, ops, i, k, st.wrappers[st.store.slots[k].id].body.token)
  }

  predicate GoodKeys(ops: seq<Op>) {
    forall i :: 0 <= i < |ops| && ops[i].DoGet? ==> WellFormed(ops[i].key)
  }

  lemma TokenFromExtends(owner: Option<string>, ops: seq<Op>, op: Op, i: int, k: string, token: string)
    requires TokenFrom(owner, ops, i, k, token)
    requires owner.None? ==> !Clears(owner, op)
    ensures TokenFrom(owner, ops + [op], i, k, token)
  {
    var ops' := ops + [op];
    assert ops'[i] == ops[i];
    forall j | owner.None? && i < j < |ops'|
      ensures !Clears(owner, ops'[j])
    {
      assert ops'[j] == if j < |ops| then ops[j] else op;
    }
  }

  /** What `get` selects covers the request. */
  lemma SelectedCovers(st: CacheState, key: CacheKey)
    requires WellFormed(key) && key.prefix == PREFIX && Selected(st, key).Some?
    requires forall k :: k in st.store.slots ==> k != "undefined"
    ensures Covers(Selected(st, key).value, ToKey(key))
  {
    RoundTrip(key);
  }

  /** The wrapper under `k` holds this refresh token, alone or in a complete entry. */
  predicate HasToken(st: CacheState, k: string, token: string)
    requires k in st.store.slots && st.store.slots[k].Data? ==> st.store.slots[k].id < |st.wrappers|
  {
    (FullAt(st, k) || RefreshAt(st, k)) && st.wrappers[st.store.slots[k].id].body.RefreshToken() == Some(token)
  }

  /** A refresh token found anywhere in a slot has a source for that slot, whether the entry is complete or not. */
  lemma SlotSource(owner: Option<string>, ops: seq<Op>, st: CacheState, k: string, token: string)
    requires Valid(st) && Traced(owner, ops, st) && TokensTraced(owner, ops, st)
    requires HasToken(st, k, token) && (RefreshAt(st, k) || token != "")
    ensures exists i :: TokenFrom(owner, ops, i, k, token)
  {
    var w := st.wrappers[st.store.slots[k].id];
    if FullAt(st, k) {
      var i :| StoredBy(owner, ops, i, k, w);
      forall j | i < j < |ops|
        ensures !Clears(owner, ops[j])
      {
        assert !Overwrites(owner, ops[j], k);
      }
      assert TokenFrom(owner, ops, i, k, token);
    }
  }

  lemma CoversTransitive(a: string, b: string, c: string)
    requires Covers(a, b) && Covers(b, c)
    ensures Covers(a, c)
  {
  }

  /** No stored key is the text that a failed search is looked up as. */
  ghost predicate Named(st: CacheState) {
    forall k :: k in st.store.slots ==> PREFIX <= k
  }

  lemma ApplyNamed(owner: Option<string>, st: CacheState, op: Op)
    requires Valid(st) && Named(st) && st.manifestKey == IndexKey(owner)
    requires op.DoGet? ==> op.key.prefix == PREFIX
    ensures Named(Apply(st, op))
  {
    if op.DoSet? {
      Nested(KeyOf(op.entry));
    } else if op.DoGet? {
      Nested(op.key);
    } else {
      if AllKeys(st).Some? {
        RemoveAllSlots(st.store, AllKeys(st).value);
      }
      RemoveAllSlots(st.store, st.store.order);
    }
  }

  /** After every run all stored keys have the prefix. */
  lemma {:induction false} NamedInvariant(owner: Option<string>, ops: seq<Op>)
    requires GoodOps(owner, ops)
    ensures Named(Run(owner, ops))
  {
    if ops != [] {
      var before, op := ops[..|ops| - 1], ops[|ops| - 1];
      NamedInvariant(owner, before);
      RunInvariant(owner, before);
      ApplyNamed(owner, Run(owner, before), op);
    }
  }

  /** Dropping a key, with or without a manifest, changes no data slot that stays. */
  lemma DroppedSlots(s: Store, manifestKey: Option<string>, k0: string, k: string)
    ensures var removed := Remove(s, k0);
            var slots := (if manifestKey.Some? then ManifestRemove(removed, manifestKey.value, k0) else removed).slots;
            k in slots && slots[k].Data? ==> k in s.slots && s.slots[k] == slots[k]
  {
  }

  /** The get finds an expired entry with a refresh token. */
  predicate Strips(st: CacheState, key: CacheKey, adjustment: real, now: real)
    requires Valid(st)
  {
    var k := Selected(st, key);
    && k.Some? && st.store.slots[k.value].Data?
    && var w := st.wrappers[st.store.slots[k.value].id];
       Expired(w, adjustment, now) && Truthy(w.body.RefreshToken())
  }

  lemma StripTokens(st: CacheState, key: CacheKey, adjustment: real, now: real, k: string)
    requires Valid(st) && Strips(st, key, adjustment, now)
    requires Valid(Get(st, key, adjustment, now).0) && RefreshAt(Get(st, key, adjustment, now).0, k)
    ensures var st' := Get(st, key, adjustment, now).0;
            var token := st'.wrappers[st'.store.slots[k].id].body.token;
            || (HasToken(st, k, token) && (RefreshAt(st, k) || token != ""))
            || (k == ToKey(key) && HasToken(st, Selected(st, key).value, token) && token != "")
  {
  }

  /** A token left alone by a get was in the same slot before, or moved from the selected slot to the requested key. */
  lemma GetTokens(st: CacheState, key: CacheKey, adjustment: real, now: real, k: string)
    requires Valid(st)
    requires Valid(Get(st, key, adjustment, now).0) && RefreshAt(Get(st, key, adjustment, now).0, k)
    ensures var st' := Get(st, key, adjustment, now).0;
            var token := st'.wrappers[st'.store.slots[k].id].body.token;
            || (HasToken(st, k, token) && (RefreshAt(st, k) || token != ""))
            || (&& k == ToKey(key) && Selected(st, key).Some?
                && HasToken(st, Selected(st, key).value, token) && token != "")
  {
    if Strips(st, key, adjustment, now) {
      StripTokens(st, key, adjustment, now, k);
    } else {
      DroppedSlots(st.store, st.manifestKey, ToKey(key), k);
    }
  }

  lemma MovedTokenTraced(owner: Option<string>, ops: seq<Op>, st: CacheState, op: Op, k: string, token: string)
    requires Valid(st) && Traced(owner, ops, st) && TokensTraced(owner, ops, st) && Named(st)
    requires op.DoGet? && WellFormed(op.key) && op.key.prefix == PREFIX
    requires || (HasToken(st, k, token) && (RefreshAt(st, k) || token != ""))
             || (&& k == ToKey(op.key) && Selected(st, op.key).Some?
                 && HasToken(st, Selected(st, op.key).value, token) && token != "")
    ensures exists i :: TokenFrom(owner, ops + [op], i, k, token)
  {
    var m := if HasToken(st, k, token) then k else Selected(st, op.key).value;
    SlotSource(owner, ops, st, m, token);
    var i :| TokenFrom(owner, ops, i, m, token);
    if m != k {
      SelectedCovers(st, op.key);
      CoversTransitive(ToKey(KeyOf(ops[i].entry)), m, k);
    }
    TokenFromExtends(owner, ops, op, i, k, token);
  }

  /** Every slot that the strip leaves pointing at the stripped wrapper still has a source for its token. */
  lemma GetTokensTraced(owner: Option<string>, ops: seq<Op>, st: CacheState, op: Op)
    requires Valid(st) && Traced(owner, ops, st) && TokensTraced(owner, ops, st) && Named(st) && Indexed(st)
    requires op.DoGet? && WellFormed(op.key) && op.key.prefix == PREFIX
    requires Valid(Apply(st, op))
    ensures TokensTraced(owner, ops + [op], Apply(st, op))
  {
    var st' := Apply(st, op);
    forall k | RefreshAt(st', k)
      ensures exists i :: TokenFrom(owner, ops + [op], i, k, st'.wrappers[st'.store.slots[k].id].body.token)
    {
      GetTokens(st, op.key, op.adjustment, op.now, k);
      MovedTokenTraced(owner, ops, st, op, k, st'.wrappers[st'.store.slots[k].id].body.token);
    }
  }

  lemma OtherTokensTraced(owner: Option<string>, ops: seq<Op>, st: CacheState, op: Op)
    requires Valid(st) && Indexed(st) && TokensTraced(owner, ops, st) && st.manifestKey == IndexKey(owner)
    requires !op.DoGet? && (op.DoSet? ==> st.manifestKey != Some(ToKey(KeyOf(op.entry))))
    requires Valid(Apply(st, op))
    ensures TokensTraced(owner, ops + [op], Apply(st, op))
  {
    var st' := Apply(st, op);
    if owner.None? && Clears(owner, op) {
      ClearDropsFull(st);
    } else {
      forall k | RefreshAt(st', k)
        ensures exists i :: TokenFrom(owner, ops + [op], i, k, st'.wrappers[st'.store.slots[k].id].body.token)
      {
        SurvivingToken(owner, st, op, k);
        var token := st'.wrappers[st'.store.slots[k].id].body.token;
        var i :| TokenFrom(owner, ops, i, k, token);
        TokenFromExtends(owner, ops, op, i, k, token);
      }
    }
  }

  lemma SurvivingToken(owner: Option<string>, st: CacheState, op: Op, k: string)
    requires Valid(st) && st.manifestKey == IndexKey(owner)
    requires !op.DoGet? && (op.DoSet? ==> st.manifestKey != Some(ToKey(KeyOf(op.entry))))
    requires Valid(Apply(st, op)) && RefreshAt(Apply(st, op), k)
    ensures RefreshAt(st, k)
    ensures Apply(st, op).wrappers[Apply(st, op).store.slots[k].id] == st.wrappers[st.store.slots[k].id]
  {
    if AllKeys(st).Some? {
      RemoveAllSlots(st.store, AllKeys(st).value);
    }
    RemoveAllSlots(st.store, st.store.order);
  }

  lemma {:induction false} TokensInvariant(owner: Option<string>, ops: seq<Op>)
    requires GoodOps(owner, ops) && GoodKeys(ops)
    ensures Named(Run(owner, ops)) && TokensTraced(owner, ops, Run(owner, ops))
  {
    if ops != [] {
      var before, op := ops[..|ops| - 1], ops[|ops| - 1];
      var st := Run(owner, before);
      assert ops == before + [op];
      TokensInvariant(owner, before);
      RunInvariant(owner, before);
      ApplyValid(st, op);
      ApplyNamed(owner, st, op);
      if op.DoGet? {
        GetTokensTraced(owner, before, st, op);
      } else {
        if op.DoSet? {
          Apart(owner, KeyOf(op.entry));
        }
        OtherTokensTraced(owner, before, st, op);
      }
    }
  }

  /**
   * Every refresh token that a get returns was set under a key that covers the request. In a store that lists its own
   * keys that set happened after the last clear.
   */
  lemma RefreshTokenProvenance(owner: Option<string>, ops: seq<Op>, key: CacheKey, adjustment: real, now: real)
    requires GoodOps(owner, ops) && GoodKeys(ops) && key.prefix == PREFIX && WellFormed(key)
    requires Get(Run(owner, ops), key, adjustment, now).1.Some?
    requires Truthy(Get(Run(owner, ops), key, adjustment, now).1.value.RefreshToken())
    ensures var token := Get(Run(owner, ops), key, adjustment, now).1.value.RefreshToken().value;
            exists i :: TokenFrom(owner, ops, i, ToKey(key), token)
  {
    RunInvariant(owner, ops);
    TokensInvariant(owner, ops);
    var st := Run(owner, ops);
    var m := Selected(st, key).value;
    var token := Get(st, key, adjustment, now).1.value.RefreshToken().value;
    SlotSource(owner, ops, st, m, token);
    var i :| TokenFrom(owner, ops, i, m, token);
    SelectedCovers(st, key);
    CoversTransitive(ToKey(KeyOf(ops[i].entry)), m, ToKey(key));
    assert TokenFrom(owner, ops, i, ToKey(key), token);
  }

  /** On well-formed keys, covering means the same client and audience and a superset of the scopes. */
  lemma CoversMeans(k: CacheKey, wanted: CacheKey)
    requires WellFormed(k) && WellFormed(wanted) && k.prefix == wanted.prefix
    ensures Covers(ToKey(k), ToKey(wanted)) <==>
            k.clientId == wanted.clientId && k.audience == wanted.audience && ScopesWithin(wanted.scope, k.scope)
  {
    RoundTrip(k);
    RoundTrip(wanted);
  }
}
