/** The cache and the caching store as objects whose fields change in place, proved against
    the functions of the cache model. */
module CacheMethods {
  import opened Wrappers
  import opened LruCache
  import opened CacheKeys
  import opened CachingStore

  /** The local tier. */
  class CacheManager {
    const config: Config
    var entries: map<string, Entry>
    var order: seq<string>
    var bytes: nat

    function State(): LocalState
      reads this
    {
      LocalState(entries, order, bytes)
    }

    constructor (config: Config)
      ensures this.config == config && State() == EMPTY
    {
      this.config := config;
      entries, order, bytes := map[], [], 0;
    }

    /** `order.retain(...)`: drops the key from the queue. */
    method RetainOrder(key: string)
      modifies this`order
      ensures order == Retain(old(order), key)
    {
      var kept: seq<string> := [];
      for i := 0 to |order|
        invariant order == old(order) && kept == Retain(order[..i], key)
      {
        assert order[..i + 1][..i] == order[..i];
        if order[i] != key {
          kept := kept + [order[i]];
        }
      }
      assert order[..|order|] == order;
      order := kept;
    }

    method RemoveLocal(key: string)
      modifies this
      ensures State() == Remove(old(State()), key)
    {
      if key in entries {
        bytes := Sub(bytes, entries[key].size);
        entries := entries - {key};
      }
      assert entries == old(entries) - {key};
      RetainOrder(key);
    }

    method Get(key: string, now: int) returns (r: Option<Bytes>)
      modifies this
      ensures (State(), r) == Lookup(old(State()), key, now)
    {
      r := None;
      if key in entries {
        var entry := entries[key];
        if entry.expiresAt > now {
          RetainOrder(key);
          order := order + [key];
          return Some(entry.value);
        }
        RemoveLocal(key);
      }
    }

    /** Drops the oldest entries until the limit holds. */
    method EvictOldest()
      modifies this
      ensures State() == Evict(old(State()), config.maxBytes)
    {
      while bytes > config.maxBytes
        invariant Evict(State(), config.maxBytes) == Evict(old(State()), config.maxBytes)
        decreases |order|
      {
        if order == [] {
          break;
        }
        var oldest := order[0];
        ghost var before := entries;
        order := order[1..];
        if oldest in entries {
          bytes := Sub(bytes, entries[oldest].size);
          entries := entries - {oldest};
        }
        assert entries == before - {oldest};
      }
    }

    /** Adds the entry at the recent end, then evicts. */
    method InsertLocal(key: string, value: Bytes, now: int)
      requires Consistent(State())
      modifies this
      ensures State() == Insert(old(State()), key, value, now + config.ttl, config.maxBytes)
      ensures Valid(State(), config.maxBytes)
    {
      hide Consistent, LongestFittingSuffix, Evict, Retain, Total;
      ghost var was := State();
      if key in entries {
        bytes := Sub(bytes, entries[key].size);
        entries := entries - {key};
      }
      assert entries == was.entries - {key};
      RetainOrder(key);
      var size := |value|;
      entries := entries[key := Entry(value, now + config.ttl, size)];
      order := order + [key];
      bytes := bytes + size;
      assert State() == Added(was, key, value, now + config.ttl);
      EvictOldest();
      var _ := InsertSurvivors(was, key, value, now + config.ttl, config.maxBytes);
    }

    method RemoveKeys(keys: seq<string>)
      modifies this
      ensures State() == RemoveAll(old(State()), keys)
    {
      for i := 0 to |keys|
        invariant State() == RemoveAll(old(State()), keys[..i])
      {
        assert keys[..i + 1][..i] == keys[..i];
        RemoveLocal(keys[i]);
      }
      assert keys[..|keys|] == keys;
    }

    method DropIdentity(scope: string, identity: string)
      modifies this
      ensures State() == InvalidateIdentity(old(State()), scope, identity)
    {
      var keys := Select(order, NamesPath(scope, identity));
      RemoveKeys(keys);
    }

    method DropOtherSnapshots(scope: string, snapshot: int)
      modifies this
      ensures State() == InvalidateSnapshot(old(State()), scope, snapshot)
    {
      var keys := Select(order, OtherSnapshot(scope, snapshot));
      RemoveKeys(keys);
    }
  }

  /** The store decorator, with its inner store as a field. */
  class Store {
    const cfg: Config
    const cache: CacheManager
    var inner: map<string, Bytes>
    var snapshot: Option<int>
    ghost var dirty: set<string>

    ghost function View(): World
      reads this, cache
    {
      World(inner, cache.State(), snapshot, dirty)
    }

    ghost predicate Ready()
      reads this, cache
    {
      cache.config == cfg && Coherent(cfg, View())
    }

    constructor (cfg: Config, inner: map<string, Bytes>)
      ensures Ready() && fresh(cache) && this.cfg == cfg && View() == World(inner, EMPTY, None, {})
    {
      this.cfg := cfg;
      this.inner := inner;
      snapshot := None;
      dirty := {};
      cache := new CacheManager(cfg);
      new;
      EmptyCoherent(cfg, inner);
    }

    /** A read: bypass, hit, or fetch and cache. Exact wherever the entry cannot be stale. */
    method ReadObject(path: string, range: Option<ByteRange>, now: int, later: int) returns (r: Option<Bytes>)
      requires Ready()
      modifies this, cache
      ensures Ready() && inner == old(inner)
      ensures (View(), r) == Read(cfg, old(View()), path, range, now, later)
      ensures range.None? && !Collides(cfg, path) ==> r == InnerRead(inner, path, None)
      ensures range.Some? && ReadKey(cfg, snapshot, path, range) !in old(dirty) ==> r == InnerRead(inner, path, range)
    {
      hide Coherent, KeyOf, InnerRead, IsRange, Collides, Lookup, Insert, SnapshotText, Cacheable, Valid;
      ghost var was := View();
      ReadKeeps(cfg, was, path, range, now, later);
      if (range.None? && !Collides(cfg, path)) || (range.Some? && ReadKey(cfg, snapshot, path, range) !in dirty) {
        ReadIsInnerRead(cfg, was, path, range, now, later);
      }
      if !Cacheable(path) {
        r := InnerRead(inner, path, range);
        return;
      }
      var key := ReadKey(cfg, snapshot, path, range);
      r := cache.Get(key, now);
      if r.Some? {
        return;
      }
      r := InnerRead(inner, path, range);
      if r.None? {
        return;
      }
      CoherentValid(cfg, was);
      LookupShrinks(was.cache, key, now, cfg.maxBytes);
      ValidConsistent(cache.State(), cfg.maxBytes);
      cache.InsertLocal(key, r.value, later);
      dirty := if range.None? && IsRange(path) then dirty + {key} else dirty - {key};
    }

    method PutObject(path: string, data: Bytes, accepted: bool) returns (ok: bool)
      requires Ready()
      modifies this, cache
      ensures Ready() && ok == accepted
      ensures View() == Step(cfg, old(View()), Put(path, data, accepted))
    {
      hide Coherent, InvalidateIdentity, RangeKeys;
      StepKeeps(cfg, View(), Put(path, data, accepted));
      ok := accepted;
      if accepted {
        ghost var keys := RangeKeys(cfg, cache.State(), path);
        inner := inner[path := data];
        cache.DropIdentity(cfg.scope, path);
        dirty := dirty + keys;
      }
    }

    method DeleteObject(path: string) returns (ok: bool)
      requires Ready()
      modifies this, cache
      ensures Ready() && ok == (path in old(inner))
      ensures View() == Step(cfg, old(View()), Delete(path))
    {
      hide Coherent, InvalidateIdentity, RangeKeys;
      StepKeeps(cfg, View(), Delete(path));
      ok := path in inner;
      if ok {
        ghost var keys := RangeKeys(cfg, cache.State(), path);
        inner := inner - {path};
        cache.DropIdentity(cfg.scope, path);
        dirty := dirty + keys;
      }
    }

    method ObserveSnapshot(id: int)
      requires Ready()
      modifies this, cache
      ensures Ready() && View() == Step(cfg, old(View()), Observe(id))
    {
      hide Coherent, InvalidateSnapshot;
      StepKeeps(cfg, View(), Observe(id));
      snapshot := Some(id);
      cache.DropOtherSnapshots(cfg.scope, id);
    }
  }

  lemma {:induction false} ValidConsistent(s: LocalState, maxBytes: nat)
    requires Valid(s, maxBytes)
    ensures Consistent(s)
  {
  }
}
