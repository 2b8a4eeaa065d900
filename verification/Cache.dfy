/**
 * The mutable objects of src/cache/: a store that hands out its values by reference, the key manifest kept inside
 * that store, and the manager over both. Every method is proved against its transition in `CacheModel`.
 */
module Cache {
  import opened Wrappers
  import opened CacheKeys
  import CacheModel
  import Scope

  /** The object that `wrapCacheEntry` builds and `get` overwrites in place. */
  class WrappedCacheEntry {
    var body: CacheModel.Body
    const expiresAt: real
    ghost const id: nat

    constructor (body: CacheModel.Body, expiresAt: real, ghost id: nat)
      ensures this.body == body && this.expiresAt == expiresAt && this.id == id
    {
      this.body := body;
      this.expiresAt := expiresAt;
      this.id := id;
    }
  }

  datatype Cacheable = Entry(wrapper: WrappedCacheEntry) | KeyList(keys: seq<string>) {
    ghost function Slot(): CacheModel.Slot {
      match this
      case Entry(w) => CacheModel.Data(w.id)
      case KeyList(ks) => CacheModel.Listing(ks)
    }
  }

  /** src/cache/cache-memory.ts; `order` is the enumeration order of the record's keys. */
  class InMemoryCache {
    var cache: map<string, Cacheable>
    var order: seq<string>

    ghost function Contents(): CacheModel.Store
      reads this
    {
      CacheModel.Store(order, map k | k in cache :: cache[k].Slot())
    }

    constructor ()
      ensures cache == map[] && order == []
    {
      cache := map[];
      order := [];
    }

    method Set(key: string, entry: Cacheable)
      modifies this
      ensures cache == old(cache)[key := entry]
      ensures Contents() == CacheModel.Put(old(Contents()), key, entry.Slot())
    {
      if key !in cache {
        order := order + [key];
      }
      cache := cache[key := entry];
    }

    method Get(key: string) returns (r: Option<Cacheable>)
      ensures r == if key in cache then Some(cache[key]) else None
    {
      if key !in cache {
        return None;
      }
      return Some(cache[key]);
    }

    method Remove(key: string)
      modifies this
      ensures cache == old(cache) - {key}
      ensures Contents() == CacheModel.Remove(old(Contents()), key)
    {
      cache := cache - {key};
      order := CacheModel.Without(order, key);
    }

    method AllKeys() returns (keys: seq<string>)
      ensures keys == Contents().order
    {
      keys := order;
    }
  }

  /** src/cache/key-manifest.ts */
  class CacheKeyManifest {
    const cache: InMemoryCache
    const manifestKey: string

    constructor (cache: InMemoryCache, clientId: string)
      ensures this.cache == cache && manifestKey == ManifestKey(clientId)
    {
      this.cache := cache;
      this.manifestKey := ManifestKey(clientId);
    }

    method Add(key: string)
      modifies cache
      ensures cache.Contents() == CacheModel.ManifestAdd(old(cache.Contents()), manifestKey, key)
      ensures exists ks :: cache.cache == old(cache.cache)[manifestKey := KeyList(ks)]
    {
      var keys := Get();
      cache.Set(manifestKey, KeyList(Scope.Dedupe(keys.GetOr([]) + [key])));
    }

    method Remove(key: string)
      modifies cache
      ensures cache.Contents() == CacheModel.ManifestRemove(old(cache.Contents()), manifestKey, key)
      ensures forall k :: k in cache.cache && cache.cache[k].Entry? ==>
                k in old(cache.cache) && old(cache.cache)[k] == cache.cache[k]
    {
      var entry := cache.Get(manifestKey);
      if entry.Some? {
        var listed := Get();
        var keys := CacheModel.Without(Scope.Dedupe(listed.GetOr([])), key);
        if |keys| > 0 {
          cache.Set(manifestKey, KeyList(keys));
        } else {
          cache.Remove(manifestKey);
        }
      }
    }

    /** The listed keys; `None` also when the stored value has no `keys` member. */
    method Get() returns (keys: Option<seq<string>>)
      ensures keys == CacheModel.Listed(cache.Contents(), manifestKey)
    {
      var entry := cache.Get(manifestKey);
      keys := if entry.Some? && entry.value.KeyList? then Some(entry.value.keys) else None;
    }

    method Clear()
      modifies cache
      ensures cache.cache == old(cache.cache) - {manifestKey}
      ensures cache.Contents() == CacheModel.Remove(old(cache.Contents()), manifestKey)
    {
      cache.Remove(manifestKey);
    }
  }

  /** src/cache/cache-manager.ts */
  class CacheManager {
    const cache: InMemoryCache
    const keyManifest: CacheKeyManifest?
    ghost var wrappers: seq<WrappedCacheEntry>

    /** `wrappers` are all the wrappers this manager ever made, each numbered by its place. */
    ghost predicate Linked()
      reads this, cache
    {
      && (keyManifest != null ==> keyManifest.cache == cache)
      && (forall i :: 0 <= i < |wrappers| ==> wrappers[i].id == i)
      && (forall k :: k in cache.cache && cache.cache[k].Entry? ==>
            cache.cache[k].wrapper.id < |wrappers| && wrappers[cache.cache[k].wrapper.id] == cache.cache[k].wrapper)
    }

    ghost function Bodies(): seq<CacheModel.Wrapped>
      reads this, wrappers
    {
      seq(|wrappers|, i requires 0 <= i < |wrappers| reads this, wrappers =>
        CacheModel.Wrapped(wrappers[i].body, wrappers[i].expiresAt))
    }

    ghost function State(): CacheModel.CacheState
      reads this, cache, wrappers
    {
      CacheModel.CacheState(
        if keyManifest == null then None else Some(keyManifest.manifestKey), cache.Contents(), Bodies())
    }

    ghost predicate Valid()
      reads this, cache, wrappers
    {
      Linked() && CacheModel.Valid(State())
    }

    /** Adopts a store whatever it holds; `stored` are the wrappers that earlier managers put there. */
    constructor (cache: InMemoryCache, keyManifest: CacheKeyManifest?, ghost stored: seq<WrappedCacheEntry>)
      requires keyManifest != null ==> keyManifest.cache == cache
      requires forall i :: 0 <= i < |stored| ==> stored[i].id == i
      requires forall k :: k in cache.cache && cache.cache[k].Entry? ==> cache.cache[k].wrapper in stored
      requires CacheModel.ValidStore(cache.Contents(), |stored|)
      ensures Valid() && this.cache == cache && this.keyManifest == keyManifest && wrappers == stored
      ensures State().store == cache.Contents()
      ensures cache.cache == map[] && cache.order == [] && stored == [] ==>
                State() == CacheModel.EmptyCache(if keyManifest == null then None else Some(keyManifest.manifestKey))
    {
      this.cache := cache;
      this.keyManifest := keyManifest;
      this.wrappers := stored;
    }

    method Get(key: CacheKey, expiryAdjustmentSeconds: real := 0.0, now: real) returns (r: Option<CacheModel.Body>)
      requires Valid()
      modifies cache, wrappers
      ensures Valid() && wrappers == old(wrappers)
      ensures (State(), r) == CacheModel.Get(old(State()), key, expiryAdjustmentSeconds, now)
    {
      CacheModel.GetValid(State(), key, expiryAdjustmentSeconds, now);
      var found := Locate(key);
      if found.None? || found.value.KeyList? {
        return None;
      }
      var wrapped := found.value.wrapper;
      assert Bodies()[wrapped.id] == CacheModel.Wrapped(wrapped.body, wrapped.expiresAt);
      if wrapped.expiresAt - expiryAdjustmentSeconds < CacheModel.NowSeconds(now) {
        r := Retire(ToKey(key), wrapped);
        return;
      }
      assert Bodies() == old(Bodies());
      return Some(wrapped.body);
    }

    /** The lookup of `get`: the exact key first, then the first listed key with enough scopes. */
    method Locate(key: CacheKey) returns (found: Option<Cacheable>)
      requires Linked()
      ensures var selected := CacheModel.Selected(State(), key);
              found == if selected.Some? then Some(cache.cache[selected.value]) else None
    {
      found := cache.Get(ToKey(key));
      if found.None? {
        var keys := GetCacheKeys();
        if keys.None? {
          return None;
        }
        var matchedKey := CacheModel.FirstMatch(keys.value, key);
        found := cache.Get(matchedKey);
      }
    }

    /** The expiry branch of `get`: keep only the refresh token, in place, or drop the requested key. */
    method Retire(key: string, wrapped: WrappedCacheEntry) returns (r: Option<CacheModel.Body>)
      requires Linked() && wrapped.id < |wrappers| && wrappers[wrapped.id] == wrapped
      modifies cache, wrapped
      ensures Linked()
      ensures var token := old(wrapped.body).RefreshToken();
              if Truthy(token) then
                && r == Some(CacheModel.RefreshOnly(token.value))
                && Bodies() == old(Bodies())[wrapped.id := CacheModel.Wrapped(r.value, wrapped.expiresAt)]
                && cache.Contents() == CacheModel.Put(old(cache.Contents()), key, CacheModel.Data(wrapped.id))
              else
                && r == None
                && Bodies() == old(Bodies())
                && var removed := CacheModel.Remove(old(cache.Contents()), key);
                   cache.Contents() ==
                     if keyManifest == null then removed
                     else CacheModel.ManifestRemove(removed, keyManifest.manifestKey, key)
    {
      if Truthy(wrapped.body.RefreshToken()) {
        wrapped.body := CacheModel.RefreshOnly(wrapped.body.RefreshToken().value);
        cache.Set(key, Entry(wrapped));
        assert Bodies() == old(Bodies())[wrapped.id := CacheModel.Wrapped(wrapped.body, wrapped.expiresAt)];
        return Some(wrapped.body);
      }
      cache.Remove(key);
      if keyManifest != null {
        keyManifest.Remove(key);
      }
      assert Bodies() == old(Bodies());
      return None;
    }

    method Set(entry: CacheModel.CacheEntry, now: real)
      requires Valid()
      modifies this`wrappers, cache
      ensures Valid()
      ensures |wrappers| == |old(wrappers)| + 1 && old(wrappers) <= wrappers && fresh(wrappers[|old(wrappers)|])
      ensures State() == CacheModel.Set(old(State()), entry, now)
    {
      CacheModel.SetValid(State(), entry, now);
      var key := ToKey(CacheModel.KeyOf(entry));
      var wrapped := WrapCacheEntry(entry, now);
      Store(key, Entry(wrapped));
    }

    method WrapCacheEntry(entry: CacheModel.CacheEntry, now: real) returns (wrapped: WrappedCacheEntry)
      requires Linked()
      modifies this`wrappers
      ensures Linked() && fresh(wrapped) && wrapped.id == |old(wrappers)|
      ensures wrappers == old(wrappers) + [wrapped]
      ensures Bodies() == old(Bodies()) + [CacheModel.Wrapped(CacheModel.Full(entry), CacheModel.ExpiresAt(entry, now))]
    {
      wrapped := new WrappedCacheEntry(CacheModel.Full(entry), CacheModel.ExpiresAt(entry, now), |wrappers|);
      wrappers := wrappers + [wrapped];
      assert Bodies() == old(Bodies()) + [CacheModel.Wrapped(wrapped.body, wrapped.expiresAt)];
    }

    /** Writes a value and lists its key in the manifest, when there is one. */
    method Store(key: string, entry: Cacheable)
      requires Linked()
      requires entry.Entry? && entry.wrapper.id < |wrappers| && wrappers[entry.wrapper.id] == entry.wrapper
      modifies cache
      ensures Linked()
      ensures var stored := CacheModel.Put(old(cache.Contents()), key, CacheModel.Data(entry.wrapper.id));
              cache.Contents() ==
                if keyManifest == null then stored else CacheModel.ManifestAdd(stored, keyManifest.manifestKey, key)
      ensures Bodies() == old(Bodies())
    {
      cache.Set(key, entry);
      if keyManifest != null {
        keyManifest.Add(key);
      }
      assert Bodies() == old(Bodies());
    }

    method Clear()
      requires Valid()
      modifies cache
      ensures Valid()
      ensures State() == CacheModel.Clear(old(State()))
    {
      CacheModel.ClearValid(State());
      var keys := GetCacheKeys();
      if keys.None? {
        return;
      }
      RemoveEach(keys.value);
      if keyManifest != null {
        keyManifest.Clear();
      }
    }

    /** Returns whether the call threw because the store cannot list its keys. */
    method ClearSync() returns (threw: bool)
      requires Valid()
      modifies cache
      ensures Valid()
      ensures (State(), threw) == CacheModel.ClearSync(old(State()))
    {
      if keyManifest != null {
        return true;
      }
      CacheModel.RemoveAllValid(State().store, |wrappers|, State().store.order);
      var keys := cache.AllKeys();
      RemoveEach(keys);
      assert Bodies() == old(Bodies());
      return false;
    }

    method RemoveEach(keys: seq<string>)
      requires Linked()
      modifies cache
      ensures Linked()
      ensures cache.Contents() == CacheModel.RemoveAll(old(cache.Contents()), keys)
    {
      var i := 0;
      while i < |keys|
        invariant 0 <= i <= |keys|
        invariant Linked()
        invariant CacheModel.RemoveAll(cache.Contents(), keys[i..]) == CacheModel.RemoveAll(old(cache.Contents()), keys)
      {
        assert keys[i..][0] == keys[i] && keys[i..][1..] == keys[i + 1..];
        cache.Remove(keys[i]);
        i := i + 1;
      }
    }

    method GetCacheKeys() returns (keys: Option<seq<string>>)
      requires Linked()
      ensures keys == CacheModel.AllKeys(State())
    {
      if keyManifest != null {
        keys := keyManifest.Get();
      } else {
        var all := cache.AllKeys();
        keys := Some(all);
      }
    }
  }
}
