/** A store behind the cache. Reads, writes, deletes and snapshot observations through one
    caching store, as functions on the pair of inner store and cache. */
module CachingStore {
  import opened Wrappers
  import opened LruCache
  import opened CacheKeys
  import DecimalText

  datatype Config = Config(namespace: string, scope: string, maxBytes: nat, ttl: int)

  /** `dirty` is bookkeeping for the statements below: the keys of cached ranges whose path
      has been written since, and of whole reads whose path could be a range. */
  datatype World = World(inner: map<string, Bytes>, cache: LocalState, snapshot: Option<int>, dirty: set<string>)

  type ByteRange = (nat, nat)

  /** A whole object or a byte range; nothing when the object or the range does not exist. */
  function InnerRead(inner: map<string, Bytes>, path: string, range: Option<ByteRange>): Option<Bytes> {
    if path !in inner then None
    else if range.None? then Some(inner[path])
    else if range.value.0 <= range.value.1 <= |inner[path]| then Some(inner[path][range.value.0..range.value.1])
    else None
  }

  function Identity(path: string, range: Option<ByteRange>): string {
    if range.None? then path else RangeIdentity(path, range.value.0, range.value.1)
  }

  /** The key of a read under a snapshot text. */
  function KeyOf(cfg: Config, t: string, path: string, range: Option<ByteRange>): string {
    Key(cfg.namespace, KindOf(path), cfg.scope, t, Identity(path, range))
  }

  function ReadKey(cfg: Config, snapshot: Option<int>, path: string, range: Option<ByteRange>): string {
    KeyOf(cfg, SnapshotText(snapshot), path, range)
  }

  /** A cache lookup: a live entry is returned and moved to the recent end, an expired one
      is dropped. */
  function Lookup(s: LocalState, key: string, now: int): (LocalState, Option<Bytes>) {
    if key !in s.entries then (s, None)
    else if s.entries[key].expiresAt > now then (Touch(s, key), Some(s.entries[key].value))
    else (Remove(s, key), None)
  }

  /** A read through the cache; a failed inner read is not cached. */
  ghost function Read(cfg: Config, w: World, path: string, range: Option<ByteRange>, now: int, later: int)
    : (World, Option<Bytes>)
  {
    if !Cacheable(path) then (w, InnerRead(w.inner, path, range))
    else
      var key := ReadKey(cfg, w.snapshot, path, range);
      var (cache, hit) := Lookup(w.cache, key, now);
      if hit.Some? then (w.(cache := cache), hit)
      else
        var value := InnerRead(w.inner, path, range);
        if value.None? then (w.(cache := cache), None)
        else
          var suspect := range.None? && IsRange(path);
          (w.(cache := Insert(cache, key, value.value, later + cfg.ttl, cfg.maxBytes),
              dirty := if suspect then w.dirty + {key} else w.dirty - {key}),
           value)
  }

  function Select(order: seq<string>, p: string -> bool): (r: seq<string>)
    ensures forall k :: k in r <==> k in order && p(k)
  {
    if order == [] then []
    else
      var last := order[|order| - 1];
      assert order == order[..|order| - 1] + [last];
      Select(order[..|order| - 1], p) + (if p(last) then [last] else [])
  }

  function NamesPath(scope: string, path: string): string -> bool {
    (key: string) => Contains(key, ":" + scope + ":") && EndsWith(key, path)
  }

  /** Drops every entry of the scope whose key ends with the path. */
  function InvalidateIdentity(s: LocalState, scope: string, path: string): LocalState {
    RemoveAll(s, Select(s.order, NamesPath(scope, path)))
  }

  function OtherSnapshot(scope: string, snapshot: int): string -> bool {
    (key: string) => Contains(key, scope + ":") && !Contains(key, ":" + IntText(snapshot) + ":")
  }

  function InvalidateSnapshot(s: LocalState, scope: string, snapshot: int): LocalState {
    RemoveAll(s, Select(s.order, OtherSnapshot(scope, snapshot)))
  }

  /** The key of some range of the path, under some snapshot. */
  ghost predicate RangeKeyOf(cfg: Config, path: string, key: string) {
    exists t, r :: ':' !in t && key == KeyOf(cfg, t, path, Some(r))
  }

  ghost function RangeKeys(cfg: Config, s: LocalState, path: string): set<string> {
    set k | k in s.entries && RangeKeyOf(cfg, path, k)
  }

  ghost function Changed(cfg: Config, w: World, path: string, inner: map<string, Bytes>): World {
    World(inner, InvalidateIdentity(w.cache, cfg.scope, path), w.snapshot, w.dirty + RangeKeys(cfg, w.cache, path))
  }

  /** The operations, with the clock at each step and whether the inner store accepts. */
  datatype Op =
    | Get(path: string, now: int, later: int)
    | GetRange(path: string, from: nat, to: nat, now: int, later: int)
    | Put(path: string, data: Bytes, accepted: bool)
    | Delete(path: string)
    | Observe(snapshot: int)

  ghost function Step(cfg: Config, w: World, op: Op): World {
    match op
    case Get(path, now, later) => Read(cfg, w, path, None, now, later).0
    case GetRange(path, from, to, now, later) => Read(cfg, w, path, Some((from, to)), now, later).0
    case Put(path, data, accepted) => if accepted then Changed(cfg, w, path, w.inner[path := data]) else w
    case Delete(path) => if path in w.inner then Changed(cfg, w, path, w.inner - {path}) else w
    case Observe(snapshot) =>
      w.(snapshot := Some(snapshot), cache := InvalidateSnapshot(w.cache, cfg.scope, snapshot))
  }

  ghost function Run(cfg: Config, w: World, ops: seq<Op>): World {
    if ops == [] then w else Step(cfg, Run(cfg, w, ops[..|ops| - 1]), ops[|ops| - 1])
  }

  // ---- coherence -----------------------------------------------------------------

  /** The entry under `key`, if any, is the current answer to the read. */
  ghost predicate Current(w: World, key: string, path: string, range: Option<ByteRange>) {
    key in w.cache.entries ==> InnerRead(w.inner, path, range) == Some(w.cache.entries[key].value)
  }

  /** The path is the text of a range that can be cached: one of a cached path, and not larger
      than the cache. */
  ghost predicate Collides(cfg: Config, path: string) {
    exists base, a: nat, b: nat :: path == RangeIdentity(base, a, b) && Cacheable(base) && a <= b <= a + cfg.maxBytes
  }

  /** Entries of whole objects are current, apart from paths that spell such a range. */
  ghost predicate WholeCurrent(cfg: Config, w: World) {
    forall t, path :: ':' !in t && !Collides(cfg, path) ==> Current(w, KeyOf(cfg, t, path, None), path, None)
  }

  /** Entries of ranges are current unless dirty. */
  ghost predicate RangesCurrent(cfg: Config, w: World) {
    forall t, path, r :: ':' !in t && KeyOf(cfg, t, path, Some(r)) !in w.dirty ==>
      Current(w, KeyOf(cfg, t, path, Some(r)), path, Some(r))
  }

  ghost predicate Coherent(cfg: Config, w: World) {
    Valid(w.cache, cfg.maxBytes) && WholeCurrent(cfg, w) && RangesCurrent(cfg, w)
  }

  /** Every entry of `c` is an entry of `s` with the same value. */
  ghost predicate Shrunk(s: LocalState, c: LocalState) {
    forall k :: k in c.entries ==> k in s.entries && c.entries[k].value == s.entries[k].value
  }

  lemma {:induction false} ShrinkKeeps(cfg: Config, w: World, cache: LocalState, snapshot: Option<int>)
    requires Coherent(cfg, w) && Shrunk(w.cache, cache) && Valid(cache, cfg.maxBytes)
    ensures Coherent(cfg, w.(cache := cache, snapshot := snapshot))
  {
    hide KeyOf, InnerRead, Collides, Valid;
    var v := w.(cache := cache, snapshot := snapshot);
    forall t, path | ':' !in t && !Collides(cfg, path) ensures Current(v, KeyOf(cfg, t, path, None), path, None) {
      assert Current(w, KeyOf(cfg, t, path, None), path, None);
    }
    forall t, path, r | ':' !in t && KeyOf(cfg, t, path, Some(r)) !in v.dirty
      ensures Current(v, KeyOf(cfg, t, path, Some(r)), path, Some(r))
    {
      assert Current(w, KeyOf(cfg, t, path, Some(r)), path, Some(r));
    }
  }

  lemma {:induction false} LookupShrinks(s: LocalState, key: string, now: int, maxBytes: nat)
    requires Valid(s, maxBytes)
    ensures var r := Lookup(s, key, now); Shrunk(s, r.0) && Valid(r.0, maxBytes)
  {
    hide Consistent;
    if key in s.entries {
      TouchKeeps(s, key);
      RemoveKeeps(s, key);
    }
  }

  lemma {:induction false} RemoveAllShrinks(s: LocalState, keys: seq<string>, maxBytes: nat)
    requires Valid(s, maxBytes)
    ensures Shrunk(s, RemoveAll(s, keys)) && Valid(RemoveAll(s, keys), maxBytes)
  {
    hide Consistent;
    RemoveAllFacts(s, keys);
  }

  /** After an insert an entry is either the new one or an old one unchanged. */
  lemma {:induction false} InsertOnly(s: LocalState, key: string, value: Bytes, expiresAt: int, maxBytes: nat, k: string)
    requires Consistent(s) && k in Insert(s, key, value, expiresAt, maxBytes).entries
    ensures var r := Insert(s, key, value, expiresAt, maxBytes);
      if k == key then r.entries[k].value == value else k in s.entries && r.entries[k].value == s.entries[k].value
  {
    hide Consistent, Evict;
    var j := InsertSurvivors(s, key, value, expiresAt, maxBytes);
  }

  /** Equal keys come from the same read, or from a range and a whole object that looks like it. */
  lemma {:induction false} SameKey(cfg: Config, t: string, p: string, r: Option<ByteRange>, u: string, q: string, s: Option<ByteRange>)
    requires ':' !in t && ':' !in u && KeyOf(cfg, t, p, r) == KeyOf(cfg, u, q, s)
    ensures Identity(p, r) == Identity(q, s)
    ensures (p == q && r == s) || (r.None? && s.Some? && IsRange(p)) || (r.Some? && s.None? && IsRange(q))
  {
    hide Key, RangeIdentity, Kind.Text;
    KeyInjective(cfg.namespace, cfg.scope, KindOf(p), t, Identity(p, r), KindOf(q), u, Identity(q, s));
    if r.Some? && s.Some? {
      RangeInjective(p, r.value.0, r.value.1, q, s.value.0, s.value.1);
    }
  }

  /** The answer has the length its range asks for. */
  predicate RightLength(range: Option<ByteRange>, value: Bytes) {
    range.Some? ==> range.value.0 <= range.value.1 && |value| == range.value.1 - range.value.0
  }

  /** An inserted answer that is found under the key of a whole object is that object, or a
      range whose text is the object's path. */
  lemma {:induction false} WholeKeyOfRange(
    cfg: Config, cache: LocalState, u: string, p: string, t: string, path: string, range: Option<ByteRange>, value: Bytes,
    expiresAt: int)
    requires Consistent(cache) && ':' !in u && ':' !in t && Cacheable(path) && RightLength(range, value)
    requires var key := KeyOf(cfg, t, path, range);
      key == KeyOf(cfg, u, p, None) && key in Insert(cache, key, value, expiresAt, cfg.maxBytes).entries
    ensures Collides(cfg, p) || (p == path && range.None?)
  {
    hide KeyOf, Insert, Consistent, Cacheable;
    SameKey(cfg, u, p, None, t, path, range);
    if range.Some? {
      if |value| > cfg.maxBytes {
        OversizedEvictsAll(cache, KeyOf(cfg, t, path, range), value, expiresAt, cfg.maxBytes);
        assert false;
      }
      assert p == RangeIdentity(path, range.value.0, range.value.1);
    }
  }

  lemma {:induction false} ReadLength(inner: map<string, Bytes>, path: string, range: Option<ByteRange>)
    requires InnerRead(inner, path, range).Some?
    ensures RightLength(range, InnerRead(inner, path, range).value)
  {
  }

  /** Caching a fresh answer keeps the cache coherent. */
  lemma {:induction false} InsertKeeps(
    cfg: Config, w: World, t: string, path: string, range: Option<ByteRange>, value: Bytes, expiresAt: int)
    requires Coherent(cfg, w) && ':' !in t && Cacheable(path) && InnerRead(w.inner, path, range) == Some(value)
    ensures var key := KeyOf(cfg, t, path, range);
      Coherent(cfg, w.(cache := Insert(w.cache, key, value, expiresAt, cfg.maxBytes),
                       dirty := if range.None? && IsRange(path) then w.dirty + {key} else w.dirty - {key}))
  {
    hide KeyOf, InnerRead, IsRange, Collides, Insert, Consistent, Cacheable;
    var key := KeyOf(cfg, t, path, range);
    var v := w.(cache := Insert(w.cache, key, value, expiresAt, cfg.maxBytes),
                dirty := if range.None? && IsRange(path) then w.dirty + {key} else w.dirty - {key});
    var _ := InsertSurvivors(w.cache, key, value, expiresAt, cfg.maxBytes);
    forall u, p | ':' !in u && !Collides(cfg, p) ensures Current(v, KeyOf(cfg, u, p, None), p, None) {
      var k := KeyOf(cfg, u, p, None);
      assert Current(w, k, p, None);
      if k in v.cache.entries {
        InsertOnly(w.cache, key, value, expiresAt, cfg.maxBytes, k);
        if k == key {
          ReadLength(w.inner, path, range);
          WholeKeyOfRange(cfg, w.cache, u, p, t, path, range, value, expiresAt);
        }
      }
    }
    forall u, p, r | ':' !in u && KeyOf(cfg, u, p, Some(r)) !in v.dirty
      ensures Current(v, KeyOf(cfg, u, p, Some(r)), p, Some(r))
    {
      var k := KeyOf(cfg, u, p, Some(r));
      if k in v.cache.entries {
        InsertOnly(w.cache, key, value, expiresAt, cfg.maxBytes, k);
        if k == key {
          SameKey(cfg, u, p, Some(r), t, path, range);
        } else {
          assert Current(w, k, p, Some(r));
        }
      }
    }
  }

  /** Writing or deleting a path drops its whole-object entries, so the rest stays current. */
  lemma {:induction false} ChangedKeeps(cfg: Config, w: World, path: string, inner: map<string, Bytes>)
    requires Coherent(cfg, w)
    requires forall p :: p != path ==> (p in inner <==> p in w.inner) && (p in inner ==> inner[p] == w.inner[p])
    ensures Coherent(cfg, Changed(cfg, w, path, inner))
  {
    hide KeyOf, InnerRead, Collides, Consistent, Remove, RemoveAll, Select, Contains, EndsWith;
    var v := Changed(cfg, w, path, inner);
    var gone := Select(w.cache.order, NamesPath(cfg.scope, path));
    RemoveAllFacts(w.cache, gone);
    ListsKeys(w.cache);
    forall t, p | ':' !in t && !Collides(cfg, p) ensures Current(v, KeyOf(cfg, t, p, None), p, None) {
      var k := KeyOf(cfg, t, p, None);
      assert Current(w, k, p, None);
      NamesItsPath(cfg, t, p);
      SameElsewhere(w.inner, inner, path, p, None);
    }
    forall t, p, r | ':' !in t && KeyOf(cfg, t, p, Some(r)) !in v.dirty
      ensures Current(v, KeyOf(cfg, t, p, Some(r)), p, Some(r))
    {
      var k := KeyOf(cfg, t, p, Some(r));
      assert Current(w, k, p, Some(r));
      SameElsewhere(w.inner, inner, path, p, Some(r));
      assert p == path ==> RangeKeyOf(cfg, path, k);
    }
  }

  lemma {:induction false} ListsKeys(s: LocalState)
    requires Consistent(s)
    ensures forall k :: k in s.entries ==> k in s.order
  {
  }

  lemma {:induction false} NamesItsPath(cfg: Config, t: string, path: string)
    ensures NamesPath(cfg.scope, path)(KeyOf(cfg, t, path, None))
  {
    hide Key, Contains, EndsWith;
    KeyShape(cfg.namespace, KindOf(path), cfg.scope, t, path);
  }

  lemma {:induction false} SameElsewhere(a: map<string, Bytes>, b: map<string, Bytes>, path: string, p: string, r: Option<ByteRange>)
    requires p != path ==> (p in b <==> p in a) && (p in b ==> b[p] == a[p])
    ensures p != path ==> InnerRead(a, p, r) == InnerRead(b, p, r)
  {
  }

  lemma {:induction false} ReadKeeps(cfg: Config, w: World, path: string, range: Option<ByteRange>, now: int, later: int)
    requires Coherent(cfg, w)
    ensures Coherent(cfg, Read(cfg, w, path, range, now, later).0)
  {
    hide Coherent, KeyOf, InnerRead, IsRange, Lookup, Insert, SnapshotText, Cacheable;
    if Cacheable(path) {
      var key := ReadKey(cfg, w.snapshot, path, range);
      var (cache, hit) := Lookup(w.cache, key, now);
      CoherentValid(cfg, w);
      LookupShrinks(w.cache, key, now, cfg.maxBytes);
      ShrinkKeeps(cfg, w, cache, w.snapshot);
      var looked := w.(cache := cache);
      assert looked == w.(cache := cache, snapshot := w.snapshot);
      var value := InnerRead(w.inner, path, range);
      if hit.None? && value.Some? {
        InsertKeeps(cfg, looked, SnapshotText(w.snapshot), path, range, value.value, later + cfg.ttl);
      }
    }
  }

  lemma {:induction false} CoherentValid(cfg: Config, w: World)
    requires Coherent(cfg, w)
    ensures Valid(w.cache, cfg.maxBytes)
  {
  }

  lemma {:induction false} StepKeeps(cfg: Config, w: World, op: Op)
    requires Coherent(cfg, w)
    ensures Coherent(cfg, Step(cfg, w, op))
  {
    hide Coherent, Read, Changed, InvalidateSnapshot;
    match op
    case Get(path, now, later) => ReadKeeps(cfg, w, path, None, now, later);
    case GetRange(path, from, to, now, later) => ReadKeeps(cfg, w, path, Some((from, to)), now, later);
    case Put(path, data, accepted) =>
      if accepted {
        ChangedKeeps(cfg, w, path, w.inner[path := data]);
      }
    case Delete(path) =>
      if path in w.inner {
        ChangedKeeps(cfg, w, path, w.inner - {path});
      }
    case Observe(snapshot) => ObserveKeeps(cfg, w, snapshot);
  }

  lemma {:induction false} ObserveKeeps(cfg: Config, w: World, snapshot: int)
    requires Coherent(cfg, w)
    ensures Coherent(cfg, w.(snapshot := Some(snapshot), cache := InvalidateSnapshot(w.cache, cfg.scope, snapshot)))
  {
    hide Coherent, RemoveAll, Select;
    CoherentValid(cfg, w);
    RemoveAllShrinks(w.cache, Select(w.cache.order, OtherSnapshot(cfg.scope, snapshot)), cfg.maxBytes);
    ShrinkKeeps(cfg, w, InvalidateSnapshot(w.cache, cfg.scope, snapshot), Some(snapshot));
  }

  /** Observing a snapshot drops the scope's entries of all other snapshots and of none, except
      those whose namespace, scope or identity happens to spell the number between colons;
      entries of the snapshot itself stay, and so do keys without the scope's text. */
  lemma {:induction false} ObservedExactly(
    cfg: Config, s: LocalState, snapshot: int, under: Option<int>, path: string, range: Option<ByteRange>)
    requires Consistent(s)
    ensures var r, key, spelled := InvalidateSnapshot(s, cfg.scope, snapshot), ReadKey(cfg, under, path, range), ":" + IntText(snapshot) + ":";
      && (key in r.entries <==>
            key in s.entries
            && (|| SnapshotText(under) == IntText(snapshot)
                || Contains(cfg.namespace + ":" + KindOf(path).Text() + ":" + cfg.scope + ":", spelled)
                || Contains(":" + Identity(path, range), spelled)))
      && (forall k :: k in s.entries && !Contains(k, cfg.scope + ":") ==> k in r.entries)
      && (forall k :: k in r.entries ==> k in s.entries && r.entries[k] == s.entries[k])
  {
    hide Key, Contains, RemoveAll, Select, IntText, SnapshotText, KindOf, Kind.Text, Identity, Consistent;
    var t, id := SnapshotText(under), Identity(path, range);
    RemoveAllFacts(s, Select(s.order, OtherSnapshot(cfg.scope, snapshot)));
    ListsKeys(s);
    ShownSnapshot(snapshot);
    SnapshotInKey(cfg.namespace, KindOf(path), cfg.scope, t, id, IntText(snapshot));
    ScopeInKey(cfg.namespace, KindOf(path), cfg.scope, t, id);
  }

  lemma {:induction false} ShownSnapshot(snapshot: int)
    ensures SnapshotText(Some(snapshot)) == IntText(snapshot)
  {
  }

  /** And a number and its text determine each other, so "all other snapshots" means what it
      says. */
  lemma {:induction false} SnapshotTextsDiffer(a: Option<int>, b: int)
    ensures SnapshotText(a) == IntText(b) <==> a == Some(b)
  {
    if a.Some? {
      if IntText(a.value) == IntText(b) {
        IntTextInjective(a.value, b);
      }
    } else {
      assert IntText(b)[0] as int == DecimalText.ShowInt(b)[0];
      assert "current"[0] == 'c';
    }
  }

  lemma {:induction false} RunCoherentFrom(cfg: Config, w: World, ops: seq<Op>)
    requires Coherent(cfg, w)
    ensures Coherent(cfg, Run(cfg, w, ops))
    decreases |ops|
  {
    hide Coherent, Step;
    if ops != [] {
      var n := |ops| - 1;
      RunCoherentFrom(cfg, w, ops[..n]);
      StepKeeps(cfg, Run(cfg, w, ops[..n]), ops[n]);
    }
  }

  /** Every run from an empty cache, over any inner store, stays coherent and in its limit. */
  lemma {:induction false} RunCoherent(cfg: Config, inner: map<string, Bytes>, ops: seq<Op>)
    ensures Coherent(cfg, Run(cfg, World(inner, EMPTY, None, {}), ops))
  {
    hide Coherent, Run;
    EmptyCoherent(cfg, inner);
    RunCoherentFrom(cfg, World(inner, EMPTY, None, {}), ops);
  }

  lemma {:induction false} EmptyCoherent(cfg: Config, inner: map<string, Bytes>)
    ensures Coherent(cfg, World(inner, EMPTY, None, {}))
  {
    hide KeyOf;
    EmptyValid(cfg.maxBytes);
  }

  /** In a coherent world a read through the cache is a read of the inner store: whole
      objects on paths that spell no cached range, and ranges whose entry is not dirty. */
  lemma {:induction false} ReadIsInnerRead(cfg: Config, w: World, path: string, range: Option<ByteRange>, now: int, later: int)
    requires Coherent(cfg, w)
    requires if range.None? then !Collides(cfg, path) else ReadKey(cfg, w.snapshot, path, range) !in w.dirty
    ensures Read(cfg, w, path, range, now, later).1 == InnerRead(w.inner, path, range)
  {
    hide KeyOf, InnerRead, IsRange, Collides, Insert, Cacheable, Valid, Touch, Remove;
    var t := SnapshotText(w.snapshot);
    if range.None? {
      assert Current(w, KeyOf(cfg, t, path, None), path, None);
    } else {
      assert Current(w, KeyOf(cfg, t, path, Some(range.value)), path, Some(range.value));
    }
  }

  /** In every run of reads, writes, deletes and observations, with any clock and evictions,
      a whole-object read of a path without `#` returns what the inner store holds. */
  lemma {:induction false} WholeReadsExact(cfg: Config, inner: map<string, Bytes>, ops: seq<Op>, path: string, now: int, later: int)
    requires '#' !in path
    ensures var w := Run(cfg, World(inner, EMPTY, None, {}), ops);
      Read(cfg, w, path, None, now, later).1 == InnerRead(w.inner, path, None)
  {
    hide Run, Read, Coherent, RangeIdentity;
    RunCoherent(cfg, inner, ops);
    PlainPath(path);
    assert !Collides(cfg, path);
    ReadIsInnerRead(cfg, Run(cfg, World(inner, EMPTY, None, {}), ops), path, None, now, later);
  }

  // ---- range reads ---------------------------------------------------------------

  /** The operation writes or deletes the path, or reads a whole object whose path is the
      text of this very range. */
  ghost predicate Disturbs(op: Op, path: string, r: ByteRange) {
    match op
    case Get(p, _, _) => p == RangeIdentity(path, r.0, r.1)
    case GetRange(_, _, _, _, _) => false
    case Put(p, _, accepted) => p == path
    case Delete(p) => p == path
    case Observe(_) => false
  }

  /** An entry of a range becomes dirty only through an operation that disturbs it. */
  lemma {:induction false} StepStaysClean(cfg: Config, w: World, op: Op, t: string, path: string, r: ByteRange)
    requires ':' !in t && KeyOf(cfg, t, path, Some(r)) !in w.dirty && !Disturbs(op, path, r)
    ensures KeyOf(cfg, t, path, Some(r)) !in Step(cfg, w, op).dirty
  {
    hide KeyOf, InnerRead, Lookup, Insert, Cacheable, InvalidateIdentity, InvalidateSnapshot, RangeIdentity, SnapshotText;
    var k := KeyOf(cfg, t, path, Some(r));
    match op
    case Get(p, now, later) =>
      if k == ReadKey(cfg, w.snapshot, p, None) {
        SameKey(cfg, t, path, Some(r), SnapshotText(w.snapshot), p, None);
      }
    case GetRange(p, from, to, now, later) =>
    case Put(p, data, accepted) => OtherRanges(cfg, w.cache, p, t, path, r);
    case Delete(p) => OtherRanges(cfg, w.cache, p, t, path, r);
    case Observe(_) =>
  }

  lemma {:induction false} OtherRanges(cfg: Config, s: LocalState, p: string, t: string, path: string, r: ByteRange)
    requires ':' !in t && p != path
    ensures KeyOf(cfg, t, path, Some(r)) !in RangeKeys(cfg, s, p)
  {
    hide KeyOf;
    forall u, q | ':' !in u ensures KeyOf(cfg, t, path, Some(r)) != KeyOf(cfg, u, p, Some(q)) {
      if KeyOf(cfg, t, path, Some(r)) == KeyOf(cfg, u, p, Some(q)) {
        SameKey(cfg, t, path, Some(r), u, p, Some(q));
        assert false;
      }
    }
  }

  lemma {:induction false} RunStaysClean(cfg: Config, w: World, ops: seq<Op>, t: string, path: string, r: ByteRange)
    requires ':' !in t && KeyOf(cfg, t, path, Some(r)) !in w.dirty
    requires forall i :: 0 <= i < |ops| ==> !Disturbs(ops[i], path, r)
    ensures KeyOf(cfg, t, path, Some(r)) !in Run(cfg, w, ops).dirty
    decreases |ops|
  {
    hide KeyOf, Step, Disturbs;
    if ops != [] {
      var n := |ops| - 1;
      RunStaysClean(cfg, w, ops[..n], t, path, r);
      StepStaysClean(cfg, Run(cfg, w, ops[..n]), ops[n], t, path, r);
    }
  }

  /** Every cached copy of the range, under whatever snapshot, is what the inner store holds. */
  ghost predicate CopiesCurrent(cfg: Config, w: World, path: string, r: ByteRange) {
    forall t :: ':' !in t ==> Current(w, KeyOf(cfg, t, path, Some(r)), path, Some(r))
  }

  ghost predicate SameButDirty(v: World, w: World) {
    v.(dirty := w.dirty) == w
  }

  lemma {:induction false} StepIgnoresDirty(cfg: Config, v: World, w: World, op: Op)
    requires SameButDirty(v, w)
    ensures SameButDirty(Step(cfg, v, op), Step(cfg, w, op))
  {
    hide KeyOf, InnerRead, IsRange, Lookup, Insert, Cacheable, InvalidateIdentity, InvalidateSnapshot;
  }

  lemma {:induction false} RunIgnoresDirty(cfg: Config, v: World, w: World, ops: seq<Op>)
    requires SameButDirty(v, w)
    ensures SameButDirty(Run(cfg, v, ops), Run(cfg, w, ops))
    decreases |ops|
  {
    hide Step;
    if ops != [] {
      var n := |ops| - 1;
      RunIgnoresDirty(cfg, v, w, ops[..n]);
      StepIgnoresDirty(cfg, Run(cfg, v, ops[..n]), Run(cfg, w, ops[..n]), ops[n]);
    }
  }

  ghost predicate KeysRange(cfg: Config, path: string, r: ByteRange, k: string) {
    exists t :: ':' !in t && k == KeyOf(cfg, t, path, Some(r))
  }

  ghost function Cleaned(cfg: Config, w: World, path: string, r: ByteRange): World {
    w.(dirty := set k | k in w.dirty && !KeysRange(cfg, path, r, k))
  }

  lemma {:induction false} CleanedCoherent(cfg: Config, w: World, path: string, r: ByteRange)
    requires Coherent(cfg, w) && CopiesCurrent(cfg, w, path, r)
    ensures Coherent(cfg, Cleaned(cfg, w, path, r))
  {
    hide KeyOf, InnerRead, Collides, Valid;
    var v := Cleaned(cfg, w, path, r);
    forall t, p | ':' !in t && !Collides(cfg, p) ensures Current(v, KeyOf(cfg, t, p, None), p, None) {
      assert Current(w, KeyOf(cfg, t, p, None), p, None);
    }
    forall t, p, q | ':' !in t && KeyOf(cfg, t, p, Some(q)) !in v.dirty
      ensures Current(v, KeyOf(cfg, t, p, Some(q)), p, Some(q))
    {
      var k := KeyOf(cfg, t, p, Some(q));
      if k in w.dirty {
        var u :| ':' !in u && k == KeyOf(cfg, u, path, Some(r));
        SameKey(cfg, t, p, Some(q), u, path, Some(r));
      }
      assert Current(w, k, p, Some(q));
    }
  }

  /** Range reads agree with the inner store as long as their path is not overwritten: from
      any coherent world in which no cached copy of the range is outdated, after any
      operations that do not write the path, the read through the cache is the read of the
      inner store. */
  lemma {:induction false} RangeReadsExact(
    cfg: Config, w: World, ops: seq<Op>, path: string, r: ByteRange, now: int, later: int)
    requires Coherent(cfg, w) && CopiesCurrent(cfg, w, path, r)
    requires forall i :: 0 <= i < |ops| ==> !Disturbs(ops[i], path, r)
    ensures var v := Run(cfg, w, ops);
      Read(cfg, v, path, Some(r), now, later).1 == InnerRead(v.inner, path, Some(r))
  {
    hide KeyOf, Run, Read, Coherent, Disturbs, CopiesCurrent;
    var c, t := Cleaned(cfg, w, path, r), SnapshotText(Run(cfg, w, ops).snapshot);
    CleanedCoherent(cfg, w, path, r);
    var v := Run(cfg, c, ops);
    RunIgnoresDirty(cfg, c, w, ops);
    RunCoherentFrom(cfg, c, ops);
    assert KeysRange(cfg, path, r, KeyOf(cfg, t, path, Some(r)));
    RunStaysClean(cfg, c, ops, t, path, r);
    ReadIsInnerRead(cfg, v, path, Some(r), now, later);
    ReadIgnoresDirty(cfg, v, Run(cfg, w, ops), path, Some(r), now, later);
  }

  lemma {:induction false} ReadIgnoresDirty(cfg: Config, v: World, w: World, path: string, range: Option<ByteRange>, now: int, later: int)
    requires SameButDirty(v, w)
    ensures Read(cfg, v, path, range, now, later).1 == Read(cfg, w, path, range, now, later).1
  {
    hide KeyOf, InnerRead, IsRange, Lookup, Insert, Cacheable;
  }

  /** In every run from an empty cache, a range of a path that the run does not write is read
      exactly. */
  lemma {:induction false} UnwrittenRangesExact(
    cfg: Config, inner: map<string, Bytes>, ops: seq<Op>, path: string, r: ByteRange, now: int, later: int)
    requires forall i :: 0 <= i < |ops| ==> !Disturbs(ops[i], path, r)
    ensures var v := Run(cfg, World(inner, EMPTY, None, {}), ops);
      Read(cfg, v, path, Some(r), now, later).1 == InnerRead(v.inner, path, Some(r))
  {
    hide Run, Read, Coherent, Disturbs;
    EmptyCoherent(cfg, inner);
    RangeReadsExact(cfg, World(inner, EMPTY, None, {}), ops, path, r, now, later);
  }

  /** A write or deletion of the path that the inner store carries out. */
  predicate Overwrites(w: World, op: Op, path: string) {
    match op
    case Put(p, _, accepted) => p == path && accepted
    case Delete(p) => p == path && p in w.inner
    case _ => false
  }

  /** The entry a read of the range would be answered from, once entries whose key ends with
      the path are gone. */
  predicate Answers(cfg: Config, w: World, path: string, r: ByteRange, now: int) {
    var k := ReadKey(cfg, w.snapshot, path, Some(r));
    Cacheable(path) && k in w.cache.entries && w.cache.entries[k].expiresAt > now && !EndsWith(k, path)
  }

  lemma {:induction false} RangeSurvives(cfg: Config, w: World, op: Op, path: string, r: ByteRange)
    requires Coherent(cfg, w) && Overwrites(w, op, path)
    ensures var k, v := ReadKey(cfg, w.snapshot, path, Some(r)), Step(cfg, w, op);
      && v.snapshot == w.snapshot
      && (k in v.cache.entries <==> k in w.cache.entries && !EndsWith(k, path))
      && (k in v.cache.entries ==> v.cache.entries[k] == w.cache.entries[k])
  {
    hide KeyOf, Contains, EndsWith, RemoveAll, Select, Consistent;
    var k := ReadKey(cfg, w.snapshot, path, Some(r));
    var gone := Select(w.cache.order, NamesPath(cfg.scope, path));
    RemoveAllFacts(w.cache, gone);
    ListsKeys(w.cache);
    MarkedKey(cfg, w.snapshot, path, r);
    assert k in gone <==> k in w.cache.order && NamesPath(cfg.scope, path)(k);
  }

  /** After an overwrite of its path the next read of a range is exact if and only if no live
      entry answers it, or the one that does happens to hold the new bytes. An entry answers
      it unless the path is not cached or the entry's key ends with the path. */
  lemma {:induction false} RangeAfterOverwrite(
    cfg: Config, w: World, op: Op, path: string, r: ByteRange, now: int, later: int)
    requires Coherent(cfg, w) && Overwrites(w, op, path)
    ensures var k, v := ReadKey(cfg, w.snapshot, path, Some(r)), Step(cfg, w, op);
      var exact := InnerRead(v.inner, path, Some(r));
      && (Answers(cfg, w, path, r, now) ==> Read(cfg, v, path, Some(r), now, later).1 == Some(w.cache.entries[k].value))
      && (Read(cfg, v, path, Some(r), now, later).1 == exact <==>
            !Answers(cfg, w, path, r, now) || exact == Some(w.cache.entries[k].value))
  {
    hide ReadKey, InnerRead, Cacheable, EndsWith, Step, Coherent, Read;
    RangeSurvives(cfg, w, op, path, r);
    ReadAnswer(cfg, Step(cfg, w, op), path, Some(r), now, later);
  }

  /** A read returns the live entry under its key if the path is cached and there is one, and
      the inner store's answer otherwise. */
  lemma {:induction false} ReadAnswer(cfg: Config, w: World, path: string, range: Option<ByteRange>, now: int, later: int)
    ensures var k := ReadKey(cfg, w.snapshot, path, range);
      Read(cfg, w, path, range, now, later).1 ==
        if Cacheable(path) && k in w.cache.entries && w.cache.entries[k].expiresAt > now then Some(w.cache.entries[k].value)
        else InnerRead(w.inner, path, range)
  {
    hide ReadKey, InnerRead, IsRange, Insert, Cacheable, Touch, Remove;
  }

  lemma {:induction false} MarkedKey(cfg: Config, snapshot: Option<int>, path: string, r: ByteRange)
    ensures Contains(ReadKey(cfg, snapshot, path, Some(r)), ":" + cfg.scope + ":")
  {
    hide Key, Contains, EndsWith, RangeIdentity, SnapshotText;
    KeyShape(cfg.namespace, KindOf(path), cfg.scope, SnapshotText(snapshot), Identity(path, Some(r)));
  }

  /** So a range read can be stale. From an empty cache: read a range, overwrite the path, read
      the range again. On every cached path that does not end in a digit the second read
      returns the old bytes, whatever the new ones, as long as the slice fits the cache and
      has not expired. */
  lemma {:induction false} StaleRangeRun(
    cfg: Config, path: string, before: Bytes, data: Bytes, r: ByteRange, first: int, later: int, now: int, end: int)
    requires Cacheable(path) && path != "" && !Digit(path[|path| - 1])
    requires r.0 <= r.1 <= |before| && r.1 - r.0 <= cfg.maxBytes && now < later + cfg.ttl
    ensures var ops := [GetRange(path, r.0, r.1, first, later), Put(path, data, true)];
      var v := Run(cfg, World(map[path := before], EMPTY, None, {}), ops);
      && v.inner[path] == data
      && Read(cfg, v, path, Some(r), now, end).1 == Some(before[r.0..r.1])
  {
    hide Run, Step, ReadKey, Read, Cacheable, Coherent, EndsWith;
    var w0 := World(map[path := before], EMPTY, None, {});
    var get, put := GetRange(path, r.0, r.1, first, later), Put(path, data, true);
    var w1 := Step(cfg, w0, get);
    FirstReadCached(cfg, w0.inner, path, Some(r), before[r.0..r.1], first, later);
    EmptyCoherent(cfg, w0.inner);
    StepKeeps(cfg, w0, get);
    EndsInDigit(cfg, None, path, r);
    RangeAfterOverwrite(cfg, w1, put, path, r, now, end);
    RunTwo(cfg, w0, get, put);
    PutStores(cfg, w1, path, data);
  }

  lemma {:induction false} RunTwo(cfg: Config, w: World, a: Op, b: Op)
    ensures Run(cfg, w, [a, b]) == Step(cfg, Step(cfg, w, a), b)
  {
    hide Step;
    assert [a, b][..1] == [a] && [a][..0] == [];
    assert Run(cfg, w, [a]) == Step(cfg, w, a);
  }

  lemma {:induction false} PutStores(cfg: Config, w: World, path: string, data: Bytes)
    ensures Step(cfg, w, Put(path, data, true)).inner == w.inner[path := data]
  {
    hide KeyOf, InvalidateIdentity;
  }

  /** A first read that fits the cache leaves its answer there. */
  lemma {:induction false} FirstReadCached(
    cfg: Config, inner: map<string, Bytes>, path: string, range: Option<ByteRange>, value: Bytes, first: int, later: int)
    requires Cacheable(path) && InnerRead(inner, path, range) == Some(value) && |value| <= cfg.maxBytes
    ensures var w := Read(cfg, World(inner, EMPTY, None, {}), path, range, first, later).0;
      var k := ReadKey(cfg, None, path, range);
      && w.snapshot == None && w.inner == inner && k in w.cache.entries
      && w.cache.entries[k].value == value && w.cache.entries[k].expiresAt == later + cfg.ttl
    ensures range.Some? ==>
      Step(cfg, World(inner, EMPTY, None, {}), GetRange(path, range.value.0, range.value.1, first, later))
      == Read(cfg, World(inner, EMPTY, None, {}), path, range, first, later).0
    ensures range.None? ==>
      Step(cfg, World(inner, EMPTY, None, {}), Get(path, first, later))
      == Read(cfg, World(inner, EMPTY, None, {}), path, range, first, later).0
  {
    hide KeyOf, Cacheable, IsRange, InnerRead;
  }

  /** One byte is cached, replaced and read again. */
  lemma {:induction false} StaleRangeWitness()
    ensures var cfg := Config("ns", "t", 100, 60);
      var ops := [GetRange("data/a", 0, 1, 0, 0), Put("data/a", [2], true)];
      var v := Run(cfg, World(map["data/a" := [1]], EMPTY, None, {}), ops);
      v.inner["data/a"] == [2] && Read(cfg, v, "data/a", Some((0, 1)), 1, 1).1 == Some([1])
  {
    hide Cacheable, Run, Read;
    PlainShortPath();
    StaleRangeRun(Config("ns", "t", 100, 60), "data/a", [1], [2], (0, 1), 0, 0, 1, 1);
    assert [1][0..1] == [1];
  }

  lemma {:induction false} PlainShortPath()
    ensures Cacheable("data/a")
  {
    hide Contains;
    TooShort("data/a", "ailake-serve");
    TooShort("data/a", "ailake-jobs");
    TooShort("data/a", "ailake_jobs");
    TooShort("data/a", "index-jobs");
    assert "data/a"[1..][0] == 'a' && ".lock"[0] == '.';
  }

  lemma {:induction false} TooShort(s: string, part: string)
    requires |s| < |part|
    ensures !Contains(s, part)
  {
  }

  lemma {:induction false} EndsInDigit(cfg: Config, snapshot: Option<int>, path: string, r: ByteRange)
    requires path != "" && !Digit(path[|path| - 1])
    ensures !EndsWith(ReadKey(cfg, snapshot, path, Some(r)), path)
  {
    hide Decimal, SnapshotText, Kind.Text;
    var k := ReadKey(cfg, snapshot, path, Some(r));
    var last := Decimal(r.1);
    assert k[|k| - 1] == last[|last| - 1];
  }

  // ---- whole reads of paths that spell a range ------------------------------------

  /** In every run, from every inner store, a whole read of the path is exact. */
  ghost predicate AlwaysExact(cfg: Config, path: string) {
    forall inner, ops, now, later :: ExactAfter(cfg, inner, ops, path, now, later)
  }

  ghost predicate ExactAfter(cfg: Config, inner: map<string, Bytes>, ops: seq<Op>, path: string, now: int, later: int) {
    var w := Run(cfg, World(inner, EMPTY, None, {}), ops);
    Read(cfg, w, path, None, now, later).1 == InnerRead(w.inner, path, None)
  }

  /** The kind of a range's text is the kind of its path. */
  lemma {:induction false} SameKind(path: string, a: nat, b: nat)
    ensures KindOf(RangeIdentity(path, a, b)) == KindOf(path)
  {
    hide Decimal;
    var tail := Decimal(a) + "-" + Decimal(b);
    var whole := path + "#" + tail;
    assert whole == RangeIdentity(path, a, b);
    assert StartsWith(whole, "metadata/") <==> StartsWith(path, "metadata/") by {
      if |path| < 9 {
        assert whole[|path|] == '#' && "metadata/"[|path|] != '#';
      } else {
        assert whole[..9] == path[..9];
      }
    }
    NoNewMatch(path, tail, "manifest");
  }

  /** A match of `part` that reaches the `#` or starts after it does not exist. */
  lemma {:induction false} NoLateMatch(path: string, tail: string, part: string, i: nat)
    requires part != "" && '#' !in part && !Digit(part[0]) && part[0] != '-'
    requires forall k :: 0 <= k < |tail| ==> Digit(tail[k]) || tail[k] == '-'
    requires |path| < i + |part|
    ensures !FoundAt(path + "#" + tail, part, i)
  {
    var whole := path + "#" + tail;
    if i + |part| <= |whole| {
      var found := whole[i..i + |part|];
      if i <= |path| {
        assert found[|path| - i] == '#';
      } else {
        assert found[0] == tail[i - |path| - 1];
      }
    }
  }

  lemma {:induction false} NoNewMatch(path: string, tail: string, part: string)
    requires part != "" && '#' !in part && !Digit(part[0]) && part[0] != '-'
    requires forall i :: 0 <= i < |tail| ==> Digit(tail[i]) || tail[i] == '-'
    ensures Contains(path + "#" + tail, part) <==> Contains(path, part)
  {
    var whole := path + "#" + tail;
    if Contains(whole, part) {
      var i: nat :| i <= |whole| && FoundAt(whole, part, i);
      if |path| < i + |part| {
        NoLateMatch(path, tail, part, i);
        assert false;
      }
      assert path[i..i + |part|] == whole[i..i + |part|];
      assert FoundAt(path, part, i);
    }
    if Contains(path, part) {
      var i: nat :| i <= |path| && FoundAt(path, part, i);
      assert whole[i..i + |part|] == path[i..i + |part|];
      assert FoundAt(whole, part, i);
    }
  }

  /** The text of a range of a cached path is a cached path. */
  lemma {:induction false} RangeTextCached(path: string, a: nat, b: nat)
    requires Cacheable(path)
    ensures Cacheable(RangeIdentity(path, a, b))
  {
    hide Decimal, Contains;
    var tail := Decimal(a) + "-" + Decimal(b);
    var whole := path + "#" + tail;
    assert whole == RangeIdentity(path, a, b);
    NoNewMatch(path, tail, "ailake-serve");
    NoNewMatch(path, tail, "ailake-jobs");
    NoNewMatch(path, tail, "ailake_jobs");
    NoNewMatch(path, tail, "index-jobs");
    assert Digit(whole[|whole| - 1]);
    assert !EndsWith(whole, ".lock") && !EndsWith(whole, ".cancel") by {
      assert ".lock"[4] == 'k' && ".cancel"[6] == 'l';
    }
  }

  lemma {:induction false} RunOne(cfg: Config, w: World, op: Op)
    ensures Run(cfg, w, [op]) == Step(cfg, w, op)
  {
    hide Step;
    assert [op][..0] == [];
  }

  /** A range and the object whose path is its text share their key. */
  lemma {:induction false} SharedKey(cfg: Config, path: string, r: ByteRange)
    ensures ReadKey(cfg, None, RangeIdentity(path, r.0, r.1), None) == ReadKey(cfg, None, path, Some(r))
  {
    hide Key, RangeIdentity, KindOf;
    SameKind(path, r.0, r.1);
  }

  /** Read a range, then the object whose path is its text: the second read returns the range's
      bytes, whatever the object holds, on every cached path and every range that fits. */
  lemma {:induction false} RangeMistakenRun(
    cfg: Config, path: string, before: Bytes, data: Bytes, r: ByteRange, first: int, later: int, now: int, end: int)
    requires Cacheable(path) && r.0 <= r.1 <= |before| && r.1 - r.0 <= cfg.maxBytes && now < later + cfg.ttl
    ensures var whole := RangeIdentity(path, r.0, r.1);
      var inner := map[whole := data, path := before];
      var w := Run(cfg, World(inner, EMPTY, None, {}), [GetRange(path, r.0, r.1, first, later)]);
      && w.inner == inner
      && Read(cfg, w, whole, None, now, end).1 == Some(before[r.0..r.1])
  {
    hide ReadKey, Cacheable, RangeIdentity, Step, Run, Read;
    var whole := RangeIdentity(path, r.0, r.1);
    var w0 := World(map[whole := data, path := before], EMPTY, None, {});
    var get := GetRange(path, r.0, r.1, first, later);
    FirstReadCached(cfg, w0.inner, path, Some(r), before[r.0..r.1], first, later);
    RangeTextCached(path, r.0, r.1);
    SharedKey(cfg, path, r);
    RunOne(cfg, w0, get);
    ReadAnswer(cfg, Step(cfg, w0, get), whole, None, now, end);
  }

  /** And the other way round: after a read of that object its bytes are returned for the
      range, even when the path does not exist. */
  lemma {:induction false} ObjectMistakenRun(
    cfg: Config, path: string, data: Bytes, r: ByteRange, first: int, later: int, now: int, end: int)
    requires Cacheable(path) && |data| <= cfg.maxBytes && now < later + cfg.ttl
    ensures var inner := map[RangeIdentity(path, r.0, r.1) := data];
      var w := Run(cfg, World(inner, EMPTY, None, {}), [Get(RangeIdentity(path, r.0, r.1), first, later)]);
      && w.inner == inner
      && Read(cfg, w, path, Some(r), now, end).1 == Some(data)
      && InnerRead(inner, path, Some(r)) == None
  {
    hide ReadKey, Cacheable, RangeIdentity, Step, Run, Read;
    var whole := RangeIdentity(path, r.0, r.1);
    var w0 := World(map[whole := data], EMPTY, None, {});
    LongerThanBase(path, r.0, r.1);
    RangeTextCached(path, r.0, r.1);
    FirstReadCached(cfg, w0.inner, whole, None, data, first, later);
    SharedKey(cfg, path, r);
    RunOne(cfg, w0, Get(whole, first, later));
    ReadAnswer(cfg, Step(cfg, w0, Get(whole, first, later)), path, Some(r), now, end);
  }

  /** A whole read of a path is exact in every run if and only if the path is not the text of a
      range of a cached path that fits the cache. */
  lemma {:induction false} WholeReadsAlwaysExact(cfg: Config, path: string)
    ensures AlwaysExact(cfg, path) <==> !Collides(cfg, path)
  {
    hide Run, Read, Coherent, Cacheable, RangeIdentity;
    if Collides(cfg, path) {
      var base, a: nat, b: nat :| path == RangeIdentity(base, a, b) && Cacheable(base) && a <= b <= a + cfg.maxBytes;
      var before := seq(b, i => 0);
      var data := before[a..b] + [1];
      LongerThanBase(base, a, b);
      RangeMistakenRun(cfg, base, before, data, (a, b), 0, 0, cfg.ttl - 1, 0);
      var inner := map[path := data, base := before];
      assert InnerRead(inner, path, None) == Some(data);
      assert |data| == |before[a..b]| + 1;
      assert !ExactAfter(cfg, inner, [GetRange(base, a, b, 0, 0)], path, cfg.ttl - 1, 0);
    } else {
      forall inner, ops, now, later ensures ExactAfter(cfg, inner, ops, path, now, later) {
        RunCoherent(cfg, inner, ops);
        ReadIsInnerRead(cfg, Run(cfg, World(inner, EMPTY, None, {}), ops), path, None, now, later);
      }
    }
  }

  lemma {:induction false} LongerThanBase(base: string, a: nat, b: nat)
    ensures RangeIdentity(base, a, b) != base
  {
    assert |RangeIdentity(base, a, b)| > |base|;
  }
}
