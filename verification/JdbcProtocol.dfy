/** The JDBC catalog as a state machine: any number of writers run the optimistic retry
    loops of commit_snapshot and evolve_schema against one object store and one pointer row,
    one store or database access per step, and may stop between any two steps. */
module JdbcProtocol {
  import opened Wrappers
  import opened TableModel
  import opened CommitSpec

  const MAX_ATTEMPTS := 5

  type WriterId = int

  datatype Request = CommitRequest(snap: NewSnapshot) | EvolveRequest(evolution: Evolution)

  /** The metadata a writer loaded: where from, and (history variable) how many updates had
      been published when it read the pointer. */
  datatype Base = Base(location: Uuid, index: nat, meta: Metadata)

  /** Where a writer is in its loop body. */
  datatype Pc =
    | ReadPointer
    | LoadMetadata(location: Uuid, index: nat)
    | PutDataManifest(base: Base)
    | ReadParentList(base: Base)
    | PutDeleteManifest(base: Base, manifests: seq<ManifestRef>)
    | PutManifestList(base: Base, manifests: seq<ManifestRef>)
    | PutPuffin(base: Base, manifests: seq<ManifestRef>, now: int)
    | PutPartitionStats(base: Base, manifests: seq<ManifestRef>, now: int, puffinStored: bool)
    | PutMetadata(base: Base, op: Op)
    | SwapPointer(base: Base, op: Op, newLocation: Uuid)
    | Swapped     // the pointer row is updated, the reply not yet received
    | Committed   // told so
    | Unanswered  // stopped after the update, or its reply was lost
    | Exhausted
    | Stopped

  /** `startedAt` (history variable): updates published when the operation began. */
  datatype Writer = Writer(request: Request, attempt: nat, startedAt: nat, pc: Pc)

  /** A successful pointer update. */
  datatype Published = Published(writer: WriterId, location: Uuid, op: Op)

  /** The store, the pointer row (absent once the table is dropped) and the writers; `log`
      is a history variable listing the successful pointer updates in order. */
  datatype State = State(
    objects: Objects,
    pointer: Option<Uuid>,
    writers: map<WriterId, Writer>,
    log: seq<Published>)

  /** What the environment decides at a step: the clock, whether the put of a best-effort
      statistics file takes effect and whether it is answered, and the generated UUID. */
  datatype Choice = Choice(now: int, taken: bool, answered: bool, uuid: Uuid) {
    /** The writer records the file only when its put succeeded. */
    predicate Stored() {
      taken && answered
    }
  }

  datatype Event =
    | Begin(writer: WriterId, request: Request)
    | Step(writer: WriterId, choice: Choice)
    | Stop(writer: WriterId)
    | DropTable

  // ---- the transition function ---------------------------------------------------

  predicate SameSnapshot(a: Request, b: Request) {
    a.CommitRequest? && b.CommitRequest? && a.snap.id == b.snap.id
  }

  /** Every operation gets its own writer, and every commit its own snapshot id. */
  predicate CanBegin(s: State, w: WriterId, r: Request) {
    && w !in s.writers
    && forall v :: v in s.writers ==> !SameSnapshot(s.writers[v].request, r)
  }

  function Move(s: State, w: WriterId, pc: Pc): State
    requires w in s.writers
  {
    s.(writers := s.writers[w := s.writers[w].(pc := pc)])
  }

  function Put(s: State, p: Path, c: Content): State {
    s.(objects := s.objects[p := c])
  }

  /** The metadata the operation produces from its base. */
  function NewMeta(cfg: Config, base: Metadata, op: Op): Metadata {
    match op
    case Commit(snap, env) => CommittedMetadata(cfg, base, snap, env)
    case Evolve(e, now) => var m := EvolvedMetadata(base, e, now); if m.Ok? then m.value else base
  }

  /** A failed compare-and-swap: start over with fresh state, at most five times. */
  function Retry(s: State, w: WriterId): State
    requires w in s.writers
  {
    var wr := s.writers[w];
    s.(writers := s.writers[w := wr.(attempt := wr.attempt + 1,
                                     pc := if wr.attempt + 1 < MAX_ATTEMPTS then ReadPointer else Exhausted)])
  }

  datatype Effect = Effect(objects: Objects, pc: Pc)

  /** The steps between loading the metadata and writing the new metadata file: what one of
      them does to the store and to the program counter. */
  function CommitAction(cfg: Config, snap: NewSnapshot, objects: Objects, pc: Pc, c: Choice): Effect {
    match pc
    case PutDataManifest(b) =>
      Effect(objects[DataManifestPath(snap.id) := DataManifestOf(cfg, b.meta, snap)], ReadParentList(b))
    case ReadParentList(b) =>
      Effect(objects, PutDeleteManifest(b, ManifestsOf(Inherited(objects, b.meta, snap.operation), snap)))
    case PutDeleteManifest(b, ms) =>
      Effect(PutIf(objects, snap.equalityDeletes != [], DeleteManifestPath(snap.id), DeleteManifestOf(cfg, b.meta, snap)),
             PutManifestList(b, ms))
    case PutManifestList(b, ms) =>
      Effect(objects[ManifestListPath(snap.id) := ManifestList(ms)], PutPuffin(b, ms, c.now))
    case PutPuffin(b, ms, now) =>
      Effect(PutIf(objects, WantsPuffin(cfg, b.meta, snap) && c.taken, PuffinPath(snap.id), PuffinOf(cfg, b.meta, snap)),
             PutPartitionStats(b, ms, now, c.Stored()))
    case PutPartitionStats(b, ms, now, puffin) =>
      Effect(if WantsPartitionStats(b.meta) && c.taken
             then objects[PartitionStatsPath(snap.id) := PartitionStatsOf(objects, b.meta, ms)] else objects,
             PutMetadata(b, Commit(snap, Env(now, puffin, c.Stored()))))
    case _ => Effect(objects, pc)
  }

  function StepWriter(cfg: Config, s: State, w: WriterId, c: Choice): State
    requires w in s.writers
  {
    var wr := s.writers[w];
    match wr.pc
    case ReadPointer =>
      Move(s, w, if s.pointer.None? then Stopped else LoadMetadata(s.pointer.value, |s.log|))
    case LoadMetadata(loc, index) =>
      if MetadataPath(loc) !in s.objects || !s.objects[MetadataPath(loc)].MetadataJson? then Move(s, w, Stopped)
      else
        var base := Base(loc, index, s.objects[MetadataPath(loc)].meta);
        match wr.request {
          case CommitRequest(_) => Move(s, w, PutDataManifest(base))
          case EvolveRequest(e) =>
            Move(s, w, if EvolvedMetadata(base.meta, e, c.now).Err? then Stopped
                       else PutMetadata(base, Evolve(e, c.now)))
        }
    case PutMetadata(base, op) =>
      if MetadataPath(c.uuid) in s.objects then s  // not a fresh UUID: no such step
      else Move(Put(s, MetadataPath(c.uuid), MetadataJson(NewMeta(cfg, base.meta, op))), w, SwapPointer(base, op, c.uuid))
    case SwapPointer(base, op, loc) =>
      if s.pointer == Some(base.location)
      then Move(s.(pointer := Some(loc), log := s.log + [Published(w, loc, op)]), w, Swapped)
      else Retry(s, w)
    case Swapped => Move(s, w, Committed)
    case _ =>
      if wr.request.EvolveRequest? then s
      else
        var e := CommitAction(cfg, wr.request.snap, s.objects, wr.pc, c);
        Move(s.(objects := e.objects), w, e.pc)
  }

  predicate Finished(pc: Pc) {
    pc.Committed? || pc.Unanswered? || pc.Exhausted? || pc.Stopped?
  }

  /** One event; an event that is not enabled changes nothing. */
  function Next(cfg: Config, s: State, e: Event): State {
    match e
    case Begin(w, r) =>
      if CanBegin(s, w, r) then s.(writers := s.writers[w := Writer(r, 0, |s.log|, ReadPointer)]) else s
    case Step(w, c) =>
      if w in s.writers then StepWriter(cfg, s, w, c) else s
    case Stop(w) =>
      if w !in s.writers || Finished(s.writers[w].pc) then s
      else Move(s, w, if s.writers[w].pc.Swapped? then Unanswered else Stopped)
    case DropTable => s.(pointer := None)
  }

  /** A freshly created table: its metadata file and the pointer to it. */
  function Init(meta: Metadata, location: Uuid): State {
    State(map[MetadataPath(location) := MetadataJson(meta)], Some(location), map[], [])
  }

  function Run(cfg: Config, s: State, events: seq<Event>): State {
    if events == [] then s else Next(cfg, Run(cfg, s, events[..|events| - 1]), events[|events| - 1])
  }
}
