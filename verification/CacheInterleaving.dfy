/** The caching store used by many tasks at once. Every await of a read, a write, a delete or a
    snapshot observation is a step of its own, so other tasks run between the lookup, the
    fetch and the insertion of a missed read, and between a write and its invalidation. A task
    that is never stepped again has stopped. */
module CacheInterleaving {
  import opened Wrappers
  import opened LruCache
  import opened CacheKeys
  import opened CachingStore

  type TaskId = int

  /** `overtaken` (history variable): the path was written since the value was fetched. */
  datatype ReadPc =
    | Start
    | Look(under: Option<int>)
    | Fetch(under: Option<int>)
    | Keep(under: Option<int>, value: Bytes, overtaken: bool)
    | Answer(result: Option<Bytes>)

  /** `Abandoned`: the write took effect, its error return skips the invalidation. */
  datatype WritePc = Write | Invalidate | Abandoned | Finished

  datatype ObservePc = Record | Forget | Observed

  datatype Task =
    | Reading(path: string, range: Option<ByteRange>, reader: ReadPc)
    | Writing(path: string, data: Option<Bytes>, writer: WritePc)  // no data: a delete
    | Observing(snapshot: int, observer: ObservePc)

  /** `suspects` (history variable): keys whose entry was inserted by an overtaken reader. */
  datatype State = State(
    inner: map<string, Bytes>,
    cache: LocalState,
    snapshot: Option<int>,
    tasks: map<TaskId, Task>,
    suspects: set<string>)

  /** The clock at the step, and for a write whether it takes effect and whether it reports
      success. */
  datatype Choice = Choice(now: int, taken: bool, answered: bool)

  datatype Event =
    | BeginRead(id: TaskId, path: string, range: Option<ByteRange>)
    | BeginWrite(id: TaskId, path: string, data: Option<Bytes>)
    | BeginObserve(id: TaskId, snapshot: int)
    | Advance(id: TaskId, choice: Choice)

  // ---- the transition function ---------------------------------------------------

  function Set(s: State, id: TaskId, t: Task): State {
    s.(tasks := s.tasks[id := t])
  }

  /** A fetched value whose path is written is no longer what the store holds. */
  function Overtake(t: Task, path: string): Task {
    if t.Reading? && t.path == path && t.reader.Keep? then t.(reader := t.reader.(overtaken := true)) else t
  }

  function Written(inner: map<string, Bytes>, path: string, data: Option<Bytes>): map<string, Bytes> {
    if data.Some? then inner[path := data.value] else inner - {path}
  }

  function StepReader(cfg: Config, s: State, id: TaskId, t: Task, now: int): State
    requires t.Reading?
  {
    match t.reader
    case Start =>
      Set(s, id, t.(reader := if Cacheable(t.path) then Look(s.snapshot) else Answer(InnerRead(s.inner, t.path, t.range))))
    case Look(under) =>
      var (cache, hit) := Lookup(s.cache, ReadKey(cfg, under, t.path, t.range), now);
      Set(s.(cache := cache), id, t.(reader := if hit.Some? then Answer(hit) else Fetch(under)))
    case Fetch(under) =>
      var value := InnerRead(s.inner, t.path, t.range);
      Set(s, id, t.(reader := if value.None? then Answer(None) else Keep(under, value.value, false)))
    case Keep(under, value, overtaken) =>
      var key := ReadKey(cfg, under, t.path, t.range);
      Set(s.(cache := Insert(s.cache, key, value, now + cfg.ttl, cfg.maxBytes),
             suspects := if overtaken then s.suspects + {key} else s.suspects - {key}),
          id, t.(reader := Answer(Some(value))))
    case Answer(_) => s
  }

  function StepWriter(cfg: Config, s: State, id: TaskId, t: Task, c: Choice): State
    requires t.Writing?
  {
    match t.writer
    case Write =>
      if !c.taken || (t.data.None? && t.path !in s.inner) then Set(s, id, t.(writer := Finished))
      else
        var tasks := map i | i in s.tasks :: Overtake(s.tasks[i], t.path);
        Set(s.(inner := Written(s.inner, t.path, t.data), tasks := tasks), id,
            t.(writer := if c.answered then Invalidate else Abandoned))
    case Invalidate =>
      Set(s.(cache := InvalidateIdentity(s.cache, cfg.scope, t.path)), id, t.(writer := Finished))
    case _ => s
  }

  function StepObserver(cfg: Config, s: State, id: TaskId, t: Task): State
    requires t.Observing?
  {
    match t.observer
    case Record => Set(s.(snapshot := Some(t.snapshot)), id, t.(observer := Forget))
    case Forget => Set(s.(cache := InvalidateSnapshot(s.cache, cfg.scope, t.snapshot)), id, t.(observer := Observed))
    case Observed => s
  }

  function Next(cfg: Config, s: State, e: Event): State {
    match e
    case BeginRead(id, path, range) => if id in s.tasks then s else Set(s, id, Reading(path, range, Start))
    case BeginWrite(id, path, data) => if id in s.tasks then s else Set(s, id, Writing(path, data, Write))
    case BeginObserve(id, snapshot) => if id in s.tasks then s else Set(s, id, Observing(snapshot, Record))
    case Advance(id, c) =>
      if id !in s.tasks then s
      else
        match s.tasks[id]
        case Reading(_, _, _) => StepReader(cfg, s, id, s.tasks[id], c.now)
        case Writing(_, _, _) => StepWriter(cfg, s, id, s.tasks[id], c)
        case Observing(_, _) => StepObserver(cfg, s, id, s.tasks[id])
  }

  function Initial(inner: map<string, Bytes>): State {
    State(inner, EMPTY, None, map[], {})
  }

  function RunAll(cfg: Config, s: State, events: seq<Event>): State {
    if events == [] then s else Next(cfg, RunAll(cfg, s, events[..|events| - 1]), events[|events| - 1])
  }

  // ---- what every interleaving keeps ---------------------------------------------

  /** A write of the path has taken effect and has not invalidated the cache. */
  predicate Unfinished(t: Task, path: string) {
    t.Writing? && t.path == path && (t.writer.Invalidate? || t.writer.Abandoned?)
  }

  ghost predicate InFlight(s: State, path: string) {
    exists id :: id in s.tasks && Unfinished(s.tasks[id], path)
  }

  ghost predicate EntryOk(s: State, key: string, path: string) {
    key in s.cache.entries ==>
      || InnerRead(s.inner, path, None) == Some(s.cache.entries[key].value)
      || key in s.suspects
      || InFlight(s, path)
  }

  /** Entries of whole objects are current, apart from the three ways they can fail to be. */
  ghost predicate EntriesOk(cfg: Config, s: State) {
    forall t, path :: ':' !in t && !Collides(cfg, path) ==> EntryOk(s, KeyOf(cfg, t, path, None), path)
  }

  /** What a reader holds is what the store holds unless it was overtaken, and it has the
      length that was asked for. */
  ghost predicate ReaderOk(inner: map<string, Bytes>, t: Task) {
    t.Reading? ==>
      && (t.reader.Look? || t.reader.Fetch? || t.reader.Keep? ==> Cacheable(t.path))
      && (t.reader.Keep? ==>
            && RightLength(t.range, t.reader.value)
            && (!t.reader.overtaken ==> InnerRead(inner, t.path, t.range) == Some(t.reader.value)))
  }

  ghost predicate Inv(cfg: Config, s: State) {
    && Valid(s.cache, cfg.maxBytes)
    && EntriesOk(cfg, s)
    && forall id :: id in s.tasks ==> ReaderOk(s.inner, s.tasks[id])
  }

  /** Changing one task that is not a write in flight, while the cache only loses entries. */
  lemma {:induction false} QuietStep(cfg: Config, s: State, id: TaskId, t: Task, cache: LocalState, snapshot: Option<int>)
    requires Inv(cfg, s) && Shrunk(s.cache, cache) && Valid(cache, cfg.maxBytes) && ReaderOk(s.inner, t)
    requires id in s.tasks ==> forall p :: Unfinished(s.tasks[id], p) ==> Unfinished(t, p)
    ensures Inv(cfg, Set(s.(cache := cache, snapshot := snapshot), id, t))
  {
    hide KeyOf, InnerRead, Collides, Valid, ReaderOk;
    var v := Set(s.(cache := cache, snapshot := snapshot), id, t);
    forall u, p | ':' !in u && !Collides(cfg, p) ensures EntryOk(v, KeyOf(cfg, u, p, None), p) {
      assert EntryOk(s, KeyOf(cfg, u, p, None), p);
      FlightKept(s, v, id, p);
    }
  }

  lemma {:induction false} FlightKept(s: State, v: State, id: TaskId, path: string)
    requires forall i :: i in s.tasks && i != id ==> i in v.tasks && (Unfinished(s.tasks[i], path) ==> Unfinished(v.tasks[i], path))
    requires id in s.tasks && Unfinished(s.tasks[id], path) ==> id in v.tasks && Unfinished(v.tasks[id], path)
    ensures InFlight(s, path) ==> InFlight(v, path)
  {
    hide Unfinished;
    if InFlight(s, path) {
      var i :| i in s.tasks && Unfinished(s.tasks[i], path);
      assert Unfinished(v.tasks[i], path);
    }
  }

  lemma {:induction false} ReadSteps(cfg: Config, s: State, id: TaskId, now: int)
    requires Inv(cfg, s) && id in s.tasks && s.tasks[id].Reading? && !s.tasks[id].reader.Keep?
    ensures Inv(cfg, StepReader(cfg, s, id, s.tasks[id], now))
  {
    hide EntriesOk, Valid, KeyOf, InnerRead, Cacheable, Lookup;
    var t := s.tasks[id];
    assert ReaderOk(s.inner, t);
    match t.reader
    case Start =>
      QuietStep(cfg, s, id, StepReader(cfg, s, id, t, now).tasks[id], s.cache, s.snapshot);
    case Look(under) =>
      var key := ReadKey(cfg, under, t.path, t.range);
      LookupShrinks(s.cache, key, now, cfg.maxBytes);
      var r := Lookup(s.cache, key, now);
      QuietStep(cfg, s, id, StepReader(cfg, s, id, t, now).tasks[id], r.0, s.snapshot);
    case Fetch(under) =>
      if InnerRead(s.inner, t.path, t.range).Some? {
        ReadLength(s.inner, t.path, t.range);
      }
      QuietStep(cfg, s, id, StepReader(cfg, s, id, t, now).tasks[id], s.cache, s.snapshot);
    case Answer(_) =>
  }

  lemma {:induction false} KeepStep(cfg: Config, s: State, id: TaskId, now: int)
    requires Inv(cfg, s) && id in s.tasks && s.tasks[id].Reading? && s.tasks[id].reader.Keep?
    ensures Inv(cfg, StepReader(cfg, s, id, s.tasks[id], now))
  {
    hide KeyOf, InnerRead, Collides, Insert, Consistent, Cacheable, RightLength, SnapshotText;
    var t, v := s.tasks[id], StepReader(cfg, s, id, s.tasks[id], now);
    assert ReaderOk(s.inner, t);
    var text, value, at := SnapshotText(t.reader.under), t.reader.value, now + cfg.ttl;
    var key := KeyOf(cfg, text, t.path, t.range);
    var _ := InsertSurvivors(s.cache, key, value, at, cfg.maxBytes);
    forall u, p | ':' !in u && !Collides(cfg, p) ensures EntryOk(v, KeyOf(cfg, u, p, None), p) {
      var k := KeyOf(cfg, u, p, None);
      assert EntryOk(s, k, p);
      FlightKept(s, v, id, p);
      if k in v.cache.entries {
        InsertOnly(s.cache, key, value, at, cfg.maxBytes, k);
        if k == key {
          WholeKeyOfRange(cfg, s.cache, u, p, text, t.path, t.range, value, at);
        }
      }
    }
    hide EntryOk;
  }

  lemma {:induction false} WriteStep(cfg: Config, s: State, id: TaskId, c: Choice)
    requires Inv(cfg, s) && id in s.tasks && s.tasks[id].Writing? && s.tasks[id].writer.Write?
    requires c.taken && (s.tasks[id].data.Some? || s.tasks[id].path in s.inner)
    ensures Inv(cfg, StepWriter(cfg, s, id, s.tasks[id], c))
  {
    hide KeyOf, InnerRead, Collides, Valid, Cacheable, RightLength;
    var t, v := s.tasks[id], StepWriter(cfg, s, id, s.tasks[id], c);
    assert Unfinished(v.tasks[id], t.path);
    forall u, p | ':' !in u && !Collides(cfg, p) ensures EntryOk(v, KeyOf(cfg, u, p, None), p) {
      assert EntryOk(s, KeyOf(cfg, u, p, None), p);
      SameElsewhere(s.inner, v.inner, t.path, p, None);
      FlightKept(s, v, id, p);
    }
    forall i | i in v.tasks ensures ReaderOk(v.inner, v.tasks[i]) {
      if i != id {
        assert ReaderOk(s.inner, s.tasks[i]);
        if s.tasks[i].Reading? {
          SameElsewhere(s.inner, v.inner, t.path, s.tasks[i].path, s.tasks[i].range);
        }
      }
    }
  }

  lemma {:induction false} InvalidateStep(cfg: Config, s: State, id: TaskId, c: Choice)
    requires Inv(cfg, s) && id in s.tasks && s.tasks[id].Writing? && s.tasks[id].writer.Invalidate?
    ensures Inv(cfg, StepWriter(cfg, s, id, s.tasks[id], c))
  {
    hide KeyOf, InnerRead, Collides, Consistent, ReaderOk, RemoveAll, Select, Contains, EndsWith;
    var t, v := s.tasks[id], StepWriter(cfg, s, id, s.tasks[id], c);
    RemoveAllFacts(s.cache, Select(s.cache.order, NamesPath(cfg.scope, t.path)));
    ListsKeys(s.cache);
    forall u, p | ':' !in u && !Collides(cfg, p) ensures EntryOk(v, KeyOf(cfg, u, p, None), p) {
      assert EntryOk(s, KeyOf(cfg, u, p, None), p);
      NamesItsPath(cfg, u, p);
      if p != t.path {
        FlightKept(s, v, id, p);
      }
    }
    assert ReaderOk(s.inner, v.tasks[id]) by { NotAReader(s.inner, v.tasks[id]); }
  }

  lemma {:induction false} NotAReader(inner: map<string, Bytes>, t: Task)
    requires !t.Reading?
    ensures ReaderOk(inner, t)
  {
  }

  lemma {:induction false} AdvanceKeeps(cfg: Config, s: State, id: TaskId, c: Choice)
    requires Inv(cfg, s) && id in s.tasks
    ensures Inv(cfg, Next(cfg, s, Advance(id, c)))
  {
    hide Inv, StepReader, Valid;
    var t := s.tasks[id];
    match t
    case Reading(_, _, reader) =>
      if reader.Keep? { KeepStep(cfg, s, id, c.now); } else { ReadSteps(cfg, s, id, c.now); }
    case Writing(path, data, writer) =>
      if writer.Write? && c.taken && (data.Some? || path in s.inner) {
        WriteStep(cfg, s, id, c);
      } else if writer.Write? {
        QuietTask(cfg, s, id, t.(writer := Finished));
      } else if writer.Invalidate? {
        InvalidateStep(cfg, s, id, c);
      }
    case Observing(snapshot, observer) => ObserveStep(cfg, s, id);
  }

  lemma {:induction false} QuietTask(cfg: Config, s: State, id: TaskId, t: Task)
    requires Inv(cfg, s) && ReaderOk(s.inner, t)
    requires id in s.tasks ==> forall p :: Unfinished(s.tasks[id], p) ==> Unfinished(t, p)
    ensures Inv(cfg, Set(s, id, t))
  {
    hide EntriesOk, Valid, ReaderOk;
    QuietStep(cfg, s, id, t, s.cache, s.snapshot);
  }

  lemma {:induction false} ObserveStep(cfg: Config, s: State, id: TaskId)
    requires Inv(cfg, s) && id in s.tasks && s.tasks[id].Observing?
    ensures Inv(cfg, StepObserver(cfg, s, id, s.tasks[id]))
  {
    hide EntriesOk, Valid, Select, RemoveAll;
    var t := s.tasks[id];
    match t.observer
    case Record => QuietStep(cfg, s, id, t.(observer := Forget), s.cache, Some(t.snapshot));
    case Forget =>
      RemoveAllShrinks(s.cache, Select(s.cache.order, OtherSnapshot(cfg.scope, t.snapshot)), cfg.maxBytes);
      QuietStep(cfg, s, id, t.(observer := Observed), InvalidateSnapshot(s.cache, cfg.scope, t.snapshot), s.snapshot);
    case Observed =>
  }

  lemma {:induction false} NextKeeps(cfg: Config, s: State, e: Event)
    requires Inv(cfg, s)
    ensures Inv(cfg, Next(cfg, s, e))
  {
    hide Inv, StepReader, StepWriter, StepObserver;
    match e
    case BeginRead(id, path, range) => if id !in s.tasks { QuietTask(cfg, s, id, Reading(path, range, Start)); }
    case BeginWrite(id, path, data) => if id !in s.tasks { QuietTask(cfg, s, id, Writing(path, data, Write)); }
    case BeginObserve(id, snapshot) => if id !in s.tasks { QuietTask(cfg, s, id, Observing(snapshot, Record)); }
    case Advance(id, c) => if id in s.tasks { AdvanceKeeps(cfg, s, id, c); }
  }

  lemma {:induction false} RunKeeps(cfg: Config, inner: map<string, Bytes>, events: seq<Event>)
    ensures Inv(cfg, RunAll(cfg, Initial(inner), events))
  {
    hide Inv, Next;
    if events == [] {
      InitialInv(cfg, inner);
    } else {
      var n := |events| - 1;
      RunKeeps(cfg, inner, events[..n]);
      NextKeeps(cfg, RunAll(cfg, Initial(inner), events[..n]), events[n]);
    }
  }

  lemma {:induction false} InitialInv(cfg: Config, inner: map<string, Bytes>)
    ensures Inv(cfg, Initial(inner))
  {
    hide KeyOf, Collides;
    EmptyValid(cfg.maxBytes);
  }

  // ---- main results --------------------------------------------------------------

  /** The world a single read sees, as in `CachingStore`. */
  ghost function Seen(s: State): World {
    World(s.inner, s.cache, s.snapshot, {})
  }

  /** The live entry a whole read of the path would be answered from. */
  predicate Held(cfg: Config, s: State, path: string, now: int) {
    var k := ReadKey(cfg, s.snapshot, path, None);
    Cacheable(path) && k in s.cache.entries && s.cache.entries[k].expiresAt > now
  }

  /** In every interleaving of any number of reads, writes, deletes and observations, with any
      of them stopped anywhere: while no write of the path is between its effect and its
      invalidation, a whole read is exact if and only if it is not answered from an entry with
      other bytes that an overtaken reader inserted. So an outdated entry outlives its write
      only if its reader fetched before the write and inserted after it. */
  lemma {:induction false} OutdatedOnlyIfOvertaken(
    cfg: Config, inner: map<string, Bytes>, events: seq<Event>, path: string, now: int, later: int)
    requires !Collides(cfg, path) && !InFlight(RunAll(cfg, Initial(inner), events), path)
    ensures var s := RunAll(cfg, Initial(inner), events);
      var k := ReadKey(cfg, s.snapshot, path, None);
      Read(cfg, Seen(s), path, None, now, later).1 == InnerRead(s.inner, path, None) <==>
        !(Held(cfg, s, path, now) && k in s.suspects && InnerRead(s.inner, path, None) != Some(s.cache.entries[k].value))
  {
    hide RunAll, Read, InnerRead, Collides, Cacheable, KeyOf, Valid, ReaderOk;
    var s := RunAll(cfg, Initial(inner), events);
    RunKeeps(cfg, inner, events);
    ReadAnswer(cfg, Seen(s), path, None, now, later);
    assert EntryOk(s, KeyOf(cfg, SnapshotText(s.snapshot), path, None), path);
  }

  /** A whole read of the path holds a fetched value. */
  ghost predicate Holding(t: Task, path: string) {
    t.Reading? && t.path == path && t.range.None? && t.reader.Keep?
  }

  /** The event lets a write of the path take effect while a whole read holds a fetched value. */
  ghost predicate Overtakes(s: State, e: Event, path: string) {
    && e.Advance? && e.id in s.tasks
    && s.tasks[e.id].Writing? && s.tasks[e.id].path == path && s.tasks[e.id].writer.Write?
    && exists id :: id in s.tasks && Holding(s.tasks[id], path)
  }

  ghost predicate NeverOvertakes(cfg: Config, s: State, events: seq<Event>, path: string) {
    forall i :: 0 <= i < |events| ==> !Overtakes(RunAll(cfg, s, events[..i]), events[i], path)
  }

  /** No reader of the path was overtaken and none of its entries is suspect. */
  ghost predicate Undisturbed(cfg: Config, s: State, path: string) {
    && (forall id :: id in s.tasks && Holding(s.tasks[id], path) ==> !s.tasks[id].reader.overtaken)
    && (forall t :: ':' !in t ==> KeyOf(cfg, t, path, None) !in s.suspects || KeyOf(cfg, t, path, None) !in s.cache.entries)
  }

  lemma {:induction false} KeepUndisturbed(cfg: Config, s: State, id: TaskId, now: int, path: string)
    requires Inv(cfg, s) && Undisturbed(cfg, s, path) && !Collides(cfg, path)
    requires id in s.tasks && s.tasks[id].Reading? && s.tasks[id].reader.Keep?
    ensures Undisturbed(cfg, StepReader(cfg, s, id, s.tasks[id], now), path)
  {
    hide KeyOf, InnerRead, Collides, Insert, Consistent, Cacheable, RightLength, SnapshotText, EntriesOk;
    var t, v := s.tasks[id], StepReader(cfg, s, id, s.tasks[id], now);
    assert ReaderOk(s.inner, t);
    var text, value, at := SnapshotText(t.reader.under), t.reader.value, now + cfg.ttl;
    var key := KeyOf(cfg, text, t.path, t.range);
    forall u | ':' !in u && KeyOf(cfg, u, path, None) in v.cache.entries ensures KeyOf(cfg, u, path, None) !in v.suspects {
      var k := KeyOf(cfg, u, path, None);
      InsertOnly(s.cache, key, value, at, cfg.maxBytes, k);
      if k == key {
        WholeKeyOfRange(cfg, s.cache, u, path, text, t.path, t.range, value, at);
      }
    }
  }

  lemma {:induction false} NextUndisturbed(cfg: Config, s: State, e: Event, path: string)
    requires Inv(cfg, s) && Undisturbed(cfg, s, path) && !Collides(cfg, path) && !Overtakes(s, e, path)
    ensures Undisturbed(cfg, Next(cfg, s, e), path)
  {
    hide Inv, KeyOf, InnerRead, Collides, Cacheable, Insert;
    if e.Advance? && e.id in s.tasks {
      var t := s.tasks[e.id];
      if t.Reading? && t.reader.Keep? {
        KeepUndisturbed(cfg, s, e.id, e.choice.now, path);
      } else {
        assert forall k :: k in Next(cfg, s, e).cache.entries ==> k in s.cache.entries by { NothingInserted(cfg, s, e); }
        hide Lookup, InvalidateIdentity, InvalidateSnapshot;
      }
    }
  }

  lemma {:induction false} NothingInserted(cfg: Config, s: State, e: Event)
    requires Inv(cfg, s) && e.Advance? && e.id in s.tasks && !(s.tasks[e.id].Reading? && s.tasks[e.id].reader.Keep?)
    ensures forall k :: k in Next(cfg, s, e).cache.entries ==> k in s.cache.entries
  {
    hide KeyOf, InnerRead, Cacheable, EntriesOk, ReaderOk, Select, RemoveAll, Consistent, Lookup, Insert;
    var t := s.tasks[e.id];
    match t
    case Reading(path, range, Look(under)) => LookupShrinks(s.cache, ReadKey(cfg, under, path, range), e.choice.now, cfg.maxBytes);
    case Reading(_, _, _) =>
    case Writing(path, _, _) => RemoveAllShrinks(s.cache, Select(s.cache.order, NamesPath(cfg.scope, path)), cfg.maxBytes);
    case Observing(snapshot, _) => RemoveAllShrinks(s.cache, Select(s.cache.order, OtherSnapshot(cfg.scope, snapshot)), cfg.maxBytes);
  }

  lemma {:induction false} RunUndisturbed(cfg: Config, inner: map<string, Bytes>, events: seq<Event>, path: string)
    requires !Collides(cfg, path) && NeverOvertakes(cfg, Initial(inner), events, path)
    ensures Undisturbed(cfg, RunAll(cfg, Initial(inner), events), path)
  {
    hide Inv, Next, Overtakes, Collides;
    if events != [] {
      var n := |events| - 1;
      var before := RunAll(cfg, Initial(inner), events[..n]);
      assert forall i :: 0 <= i < n ==> events[..n][..i] == events[..i];
      RunUndisturbed(cfg, inner, events[..n], path);
      RunKeeps(cfg, inner, events[..n]);
      hide Undisturbed, RunAll;
      NextUndisturbed(cfg, before, events[n], path);
    }
  }

  /** If writes of the path take effect only while no whole read of it holds a fetched value,
      every whole read is exact whenever none of them is in flight. */
  lemma {:induction false} ExactUnlessOvertaken(
    cfg: Config, inner: map<string, Bytes>, events: seq<Event>, path: string, now: int, later: int)
    requires !Collides(cfg, path) && NeverOvertakes(cfg, Initial(inner), events, path)
    requires !InFlight(RunAll(cfg, Initial(inner), events), path)
    ensures var s := RunAll(cfg, Initial(inner), events);
      Read(cfg, Seen(s), path, None, now, later).1 == InnerRead(s.inner, path, None)
  {
    hide RunAll, Read, InnerRead, Collides, NeverOvertakes, InFlight, KeyOf;
    RunUndisturbed(cfg, inner, events, path);
    OutdatedOnlyIfOvertaken(cfg, inner, events, path, now, later);
    var s := RunAll(cfg, Initial(inner), events);
    assert ReadKey(cfg, s.snapshot, path, None) == KeyOf(cfg, SnapshotText(s.snapshot), path, None);
  }

  // ---- an overtaken reader -------------------------------------------------------

  lemma {:induction false} RunLast(cfg: Config, s: State, events: seq<Event>, e: Event)
    ensures RunAll(cfg, s, events + [e]) == Next(cfg, RunAll(cfg, s, events), e)
  {
    hide Next;
    assert (events + [e])[..|events|] == events;
  }

  lemma {:induction false} RunFour(cfg: Config, s: State, a: Event, b: Event, c: Event, d: Event)
    ensures RunAll(cfg, s, [a, b, c, d]) == Next(cfg, Next(cfg, Next(cfg, Next(cfg, s, a), b), c), d)
  {
    hide Next;
    assert RunAll(cfg, s, [a]) == Next(cfg, s, a) by { assert [a][..0] == []; }
    hide RunAll;
    RunLast(cfg, s, [a], b);
    RunLast(cfg, s, [a, b], c);
    RunLast(cfg, s, [a, b, c], d);
    assert [a] + [b] == [a, b] && [a, b] + [c] == [a, b, c] && [a, b, c] + [d] == [a, b, c, d];
  }

  lemma {:induction false} RunAppend(cfg: Config, s: State, xs: seq<Event>, ys: seq<Event>)
    ensures RunAll(cfg, s, xs + ys) == RunAll(cfg, RunAll(cfg, s, xs), ys)
    decreases |ys|
  {
    hide Next;
    if ys == [] {
      assert xs + ys == xs;
    } else {
      var n := |ys| - 1;
      RunAppend(cfg, s, xs, ys[..n]);
      assert (xs + ys)[..|xs + ys| - 1] == xs + ys[..n];
    }
  }

  /** Look up, miss and fetch. */
  function Fetching(path: string, c: Choice): seq<Event> {
    [BeginRead(1, path, None), Advance(1, c), Advance(1, c), Advance(1, c)]
  }

  /** Write and invalidate; then the reader inserts what it fetched. */
  function Overtaking(path: string, data: Bytes, c: Choice): seq<Event> {
    [BeginWrite(2, path, Some(data)), Advance(2, c), Advance(2, c), Advance(1, c)]
  }

  function Fetched(path: string, before: Bytes): State {
    State(map[path := before], EMPTY, None, map[1 := Reading(path, None, Keep(None, before, false))], {})
  }

  lemma {:induction false} FetchRun(cfg: Config, path: string, before: Bytes, c: Choice)
    requires Cacheable(path)
    ensures RunAll(cfg, Initial(map[path := before]), Fetching(path, c)) == Fetched(path, before)
  {
    hide RunAll, Cacheable, KeyOf;
    RunFour(cfg, Initial(map[path := before]), BeginRead(1, path, None), Advance(1, c), Advance(1, c), Advance(1, c));
  }

  lemma {:induction false} NothingToInvalidate(scope: string, path: string)
    ensures InvalidateIdentity(EMPTY, scope, path) == EMPTY
  {
    hide Contains, EndsWith;
    assert Select([], NamesPath(scope, path)) == [];
  }

  lemma {:induction false} OvertakeRun(cfg: Config, path: string, before: Bytes, data: Bytes, c: Choice)
    requires Cacheable(path) && c.taken && c.answered && |before| <= cfg.maxBytes
    ensures var s := RunAll(cfg, Fetched(path, before), Overtaking(path, data, c));
      var k := ReadKey(cfg, None, path, None);
      && s.inner == map[path := data] && s.snapshot == None
      && s.tasks == map[1 := Reading(path, None, Answer(Some(before))), 2 := Writing(path, Some(data), Finished)]
      && k in s.cache.entries && s.cache.entries[k].value == before && s.cache.entries[k].expiresAt == c.now + cfg.ttl
  {
    hide RunAll, Cacheable, KeyOf, InvalidateIdentity;
    NothingToInvalidate(cfg.scope, path);
    RunFour(cfg, Fetched(path, before), BeginWrite(2, path, Some(data)), Advance(2, c), Advance(2, c), Advance(1, c));
  }

  /** The family of failing runs: a reader fetches, a write of the path starts and finishes, the
      reader inserts. Nothing is in flight any more, and until the entry expires a whole read is
      exact if and only if the write changed nothing. */
  lemma {:induction false} OvertakenReaderRun(
    cfg: Config, path: string, before: Bytes, data: Bytes, c: Choice, now: int, later: int)
    requires Cacheable(path) && c.taken && c.answered && |before| <= cfg.maxBytes && now < c.now + cfg.ttl
    ensures var s := RunAll(cfg, Initial(map[path := before]), Fetching(path, c) + Overtaking(path, data, c));
      && !InFlight(s, path) && InnerRead(s.inner, path, None) == Some(data)
      && Read(cfg, Seen(s), path, None, now, later).1 == Some(before)
      && (Read(cfg, Seen(s), path, None, now, later).1 == InnerRead(s.inner, path, None) <==> before == data)
  {
    hide RunAll, Cacheable, ReadKey, Read, Fetching, Overtaking, Fetched;
    FetchRun(cfg, path, before, c);
    RunAppend(cfg, Initial(map[path := before]), Fetching(path, c), Overtaking(path, data, c));
    OvertakeRun(cfg, path, before, data, c);
    var s := RunAll(cfg, Initial(map[path := before]), Fetching(path, c) + Overtaking(path, data, c));
    ReadAnswer(cfg, Seen(s), path, None, now, later);
  }
}
