/** Safety of the JDBC protocol over every run: the published tables form one sequential
    history of exactly the successful operations, nothing reachable ever changes, and a
    failed attempt is always paid for by another writer's success. */
module JdbcSafety {
  import opened Wrappers
  import opened TableModel
  import opened CommitSpec
  import opened CommitHistory
  import CommittedEntries
  import opened JdbcProtocol

  /** The table the run starts from and the location of its first metadata file. */
  datatype Start = Start(cfg: Config, t0: Table, location: Uuid)

  // ---- the published history -----------------------------------------------------

  function Ops(log: seq<Published>): (r: seq<Op>)
    ensures |r| == |log|
    ensures forall i :: 0 <= i < |r| ==> r[i] == log[i].op
  {
    if log == [] then [] else Ops(log[..|log| - 1]) + [log[|log| - 1].op]
  }

  /** Location number `k`: the initial one, then one per published update. */
  function Loc(x: Start, log: seq<Published>, k: nat): Uuid
    requires k <= |log|
  {
    if k == 0 then x.location else log[k - 1].location
  }

  /** The table after the first `k` published operations, executed one after the other. */
  function TableAt(x: Start, log: seq<Published>, k: nat): Table
    requires k <= |log|
  {
    Fold(x.cfg, x.t0, Ops(log)[..k])
  }

  // ---- the invariant -------------------------------------------------------------

  ghost predicate MetadataStored(x: Start, objects: Objects, log: seq<Published>) {
    forall k :: 0 <= k <= |log| ==>
      && MetadataPath(Loc(x, log, k)) in objects
      && objects[MetadataPath(Loc(x, log, k))] == MetadataJson(TableAt(x, log, k).meta)
  }

  ghost predicate DistinctLocations(x: Start, log: seq<Published>) {
    forall i, j :: 0 <= i < j <= |log| ==> Loc(x, log, i) != Loc(x, log, j)
  }

  ghost predicate LogOk(x: Start, objects: Objects, log: seq<Published>) {
    && DistinctIds(Ops(log))
    && DistinctLocations(x, log)
    && MetadataStored(x, objects, log)
    && SubMap(TableAt(x, log, |log|).objects, objects)
  }

  /** The commit's objects named after its snapshot are in the store as the sequential
      commit on `t` would have left them. */
  ghost predicate CommitStored(cfg: Config, t: Table, snap: NewSnapshot, env: Env, objects: Objects) {
    var o := CommitObjects(cfg, t, snap, env);
    forall p: Path :: p.OfSnapshot(snap.id) && p in o ==> p in objects && objects[p] == o[p]
  }

  ghost predicate Holds(objects: Objects, p: Path, c: Content) {
    p in objects && objects[p] == c
  }

  function ListFor(t: Table, snap: NewSnapshot): seq<ManifestRef> {
    ManifestsOf(Inherited(t.objects, t.meta, snap.operation), snap)
  }

  /** What a commit has stored so far, having started from table `t`. */
  ghost predicate Progress(cfg: Config, t: Table, snap: NewSnapshot, objects: Objects, pc: Pc) {
    && (pc.PutMetadata? || pc.SwapPointer? ==>
          pc.op.Commit? && pc.op.snap == snap && CommitStored(cfg, t, snap, pc.op.env, objects))
    && (pc.ReadParentList? || pc.PutDeleteManifest? || pc.PutManifestList? || pc.PutPuffin? || pc.PutPartitionStats? ==>
          Holds(objects, DataManifestPath(snap.id), DataManifestOf(cfg, t.meta, snap)))
    && (pc.PutDeleteManifest? || pc.PutManifestList? || pc.PutPuffin? || pc.PutPartitionStats? ==>
          pc.manifests == ListFor(t, snap))
    && (pc.PutManifestList? || pc.PutPuffin? || pc.PutPartitionStats? ==>
          (snap.equalityDeletes != [] ==> Holds(objects, DeleteManifestPath(snap.id), DeleteManifestOf(cfg, t.meta, snap))))
    && (pc.PutPuffin? || pc.PutPartitionStats? ==>
          Holds(objects, ManifestListPath(snap.id), ManifestList(ListFor(t, snap))))
    && (pc.PutPartitionStats? && pc.puffinStored && WantsPuffin(cfg, t.meta, snap) ==>
          Holds(objects, PuffinPath(snap.id), PuffinOf(cfg, t.meta, snap)))
  }

  predicate HasBase(pc: Pc) {
    !(pc.ReadPointer? || pc.LoadMetadata? || pc.Swapped? || Finished(pc))
  }

  ghost predicate Matches(r: Request, op: Op) {
    match op
    case Commit(snap, _) => r == CommitRequest(snap)
    case Evolve(e, _) => r == EvolveRequest(e)
  }

  ghost predicate WriterOk(x: Start, objects: Objects, log: seq<Published>, dropped: bool, wr: Writer) {
    && (wr.pc.ReadPointer? || wr.pc.Exhausted? ==> wr.startedAt + wr.attempt <= |log| + if dropped then 1 else 0)
    && (wr.pc.Exhausted? ==> wr.attempt == MAX_ATTEMPTS)
    && (wr.pc.ReadPointer? || wr.pc.LoadMetadata? || HasBase(wr.pc) ==> wr.attempt < MAX_ATTEMPTS)
    && (wr.pc.LoadMetadata? ==>
          wr.startedAt + wr.attempt <= wr.pc.index <= |log| && wr.pc.location == Loc(x, log, wr.pc.index))
    && (HasBase(wr.pc) ==>
          && wr.startedAt + wr.attempt <= wr.pc.base.index <= |log|
          && wr.pc.base.location == Loc(x, log, wr.pc.base.index)
          && wr.pc.base.meta == TableAt(x, log, wr.pc.base.index).meta
          && (wr.request.CommitRequest? ==>
                Progress(x.cfg, TableAt(x, log, wr.pc.base.index), wr.request.snap, objects, wr.pc))
          && (wr.request.EvolveRequest? ==> wr.pc.PutMetadata? || wr.pc.SwapPointer?))
    && (wr.pc.PutMetadata? || wr.pc.SwapPointer? ==> Matches(wr.request, wr.pc.op))
    && (wr.pc.SwapPointer? ==>
          && Holds(objects, MetadataPath(wr.pc.newLocation), MetadataJson(NewMeta(x.cfg, wr.pc.base.meta, wr.pc.op)))
          && forall k :: 0 <= k <= |log| ==> Loc(x, log, k) != wr.pc.newLocation)
  }

  /** The writer has updated the pointer row, whether or not it has been told. */
  predicate HasSwapped(pc: Pc) {
    pc.Swapped? || pc.Committed? || pc.Unanswered?
  }

  /** Successful operations and writers past their pointer update correspond one to one. */
  ghost predicate Acknowledged(writers: map<WriterId, Writer>, log: seq<Published>) {
    && (forall i :: 0 <= i < |log| ==>
          && log[i].writer in writers
          && HasSwapped(writers[log[i].writer].pc)
          && Matches(writers[log[i].writer].request, log[i].op))
    && (forall i, j :: 0 <= i < j < |log| ==> log[i].writer != log[j].writer)
    && (forall w :: w in writers && HasSwapped(writers[w].pc) ==> exists i :: 0 <= i < |log| && log[i].writer == w)
  }

  ghost predicate Separate(writers: map<WriterId, Writer>) {
    && (forall v, w :: v in writers && w in writers && v != w ==>
          !SameSnapshot(writers[v].request, writers[w].request))
    && (forall v, w :: v in writers && w in writers && v != w && writers[v].pc.SwapPointer? && writers[w].pc.SwapPointer? ==>
          writers[v].pc.newLocation != writers[w].pc.newLocation)
  }

  ghost predicate Inv(x: Start, s: State) {
    && IsNew(x.t0)
    && LogOk(x, s.objects, s.log)
    && (s.pointer.Some? ==> s.pointer.value == Loc(x, s.log, |s.log|))
    && Acknowledged(s.writers, s.log)
    && Separate(s.writers)
    && forall w :: w in s.writers ==> WriterOk(x, s.objects, s.log, s.pointer.None?, s.writers[w])
  }

  // ---- framing -------------------------------------------------------------------

  /** The stores agree except on objects of snapshot `id`. */
  ghost predicate SameExcept(a: Objects, b: Objects, id: SnapshotId) {
    forall p: Path :: !p.OfSnapshot(id) ==> (p in a <==> p in b) && (p in a ==> a[p] == b[p])
  }

  /** A snapshot id of a writer that has not updated the pointer does not occur in the history. */
  lemma {:induction false} IdUnused(x: Start, s: State, w: WriterId)
    requires Inv(x, s) && w in s.writers && s.writers[w].request.CommitRequest? && !HasSwapped(s.writers[w].pc)
    ensures Unused(Ops(s.log), s.writers[w].request.snap.id)
  {
    var ops := Ops(s.log);
    forall i | 0 <= i < |ops| && ops[i].Commit? ensures ops[i].snap.id != s.writers[w].request.snap.id {
      var v := s.log[i].writer;
      assert v != w;
      assert !SameSnapshot(s.writers[v].request, s.writers[w].request);
    }
  }

  lemma {:induction false} LogFrame(x: Start, a: Objects, b: Objects, log: seq<Published>, id: SnapshotId)
    requires IsNew(x.t0) && LogOk(x, a, log) && SameExcept(a, b, id) && Unused(Ops(log), id)
    ensures LogOk(x, b, log)
  {
    hide Fold, Unused;
    FoldKeys(x.cfg, x.t0, Ops(log));
    assert Ops(log)[..|log|] == Ops(log);
  }

  lemma {:induction false} WriterFrame(x: Start, a: Objects, b: Objects, log: seq<Published>, dropped: bool, wr: Writer, id: SnapshotId)
    requires WriterOk(x, a, log, dropped, wr) && SameExcept(a, b, id)
    requires wr.request.CommitRequest? ==> wr.request.snap.id != id
    ensures WriterOk(x, b, log, dropped, wr)
  {
    hide Fold, TableAt, CommitObjects, DataManifestOf, DeleteManifestOf, PuffinOf, WantsPuffin, ListFor, NewMeta;
  }

  /** A writer that changes only its own snapshot's objects and its own program counter. */
  lemma {:induction false} OwnStep(x: Start, s: State, w: WriterId, objects: Objects, pc: Pc)
    requires Inv(x, s) && w in s.writers && s.writers[w].request.CommitRequest?
    requires !HasSwapped(s.writers[w].pc) && !HasSwapped(pc) && !pc.SwapPointer?
    requires SameExcept(s.objects, objects, s.writers[w].request.snap.id)
    requires WriterOk(x, objects, s.log, s.pointer.None?, s.writers[w].(pc := pc))
    ensures Inv(x, Move(s.(objects := objects), w, pc))
  {
    hide Fold, TableAt, CommitObjects, WriterOk, LogOk, SameExcept;
    var id, s' := s.writers[w].request.snap.id, Move(s.(objects := objects), w, pc);
    IdUnused(x, s, w);
    LogFrame(x, s.objects, objects, s.log, id);
    forall v | v in s'.writers ensures WriterOk(x, objects, s.log, s.pointer.None?, s'.writers[v]) {
      if v != w {
        WriterFrame(x, s.objects, objects, s.log, s.pointer.None?, s.writers[v], id);
      }
    }
    AckMove(s.writers, s.log, w, s'.writers[w]);
  }

  /** Changing a writer that stays on its side of the pointer update. */
  lemma {:induction false} AckMove(writers: map<WriterId, Writer>, log: seq<Published>, w: WriterId, wr: Writer)
    requires Acknowledged(writers, log)
    requires w in writers ==> wr.request == writers[w].request && (HasSwapped(wr.pc) <==> HasSwapped(writers[w].pc))
    requires w !in writers ==> !HasSwapped(wr.pc)
    ensures Acknowledged(writers[w := wr], log)
  {
  }

  /** A step that changes neither the store nor the pointer. */
  lemma {:induction false} LocalStep(x: Start, s: State, w: WriterId, wr: Writer)
    requires Inv(x, s) && w in s.writers && wr.request == s.writers[w].request
    requires (HasSwapped(wr.pc) <==> HasSwapped(s.writers[w].pc)) && !wr.pc.SwapPointer?
    requires WriterOk(x, s.objects, s.log, s.pointer.None?, wr)
    ensures Inv(x, s.(writers := s.writers[w := wr]))
  {
    hide Fold, TableAt, CommitObjects, WriterOk, LogOk;
    AckMove(s.writers, s.log, w, wr);
  }

  // ---- the steps of a commit -----------------------------------------------------

  /** Objects of an earlier published table are still what they were. */
  lemma {:induction false} OldObjects(x: Start, objects: Objects, log: seq<Published>, k: nat)
    requires IsNew(x.t0) && LogOk(x, objects, log) && k <= |log|
    ensures SubMap(TableAt(x, log, k).objects, objects)
  {
    hide Fold, DistinctIds, MetadataStored;
    FoldGrows(x.cfg, x.t0, Ops(log), k);
    assert Ops(log)[..|log|] == Ops(log);
  }

  /** The current manifest list and every manifest it names exist. */
  lemma {:induction false} ListReadable(x: Start, log: seq<Published>, k: nat)
    requires IsNew(x.t0) && DistinctIds(Ops(log)) && k <= |log|
    ensures var t := TableAt(x, log, k);
      && (t.meta.snapshots != [] ==> t.meta.snapshots[|t.meta.snapshots| - 1].manifestList in t.objects)
      && forall op: Operation, m :: m in Inherited(t.objects, t.meta, op) ==> m.path in t.objects
  {
    hide Fold, Inherited;
    DistinctPrefix(Ops(log), k);
    ListStored(x.cfg, x.t0, Ops(log)[..k]);
  }

  /** Reading the parent's manifest list now gives what it gave when the base was current. */
  lemma {:induction false} ParentListStable(x: Start, objects: Objects, log: seq<Published>, k: nat, op: Operation)
    requires IsNew(x.t0) && LogOk(x, objects, log) && k <= |log|
    ensures var t := TableAt(x, log, k); Inherited(objects, t.meta, op) == Inherited(t.objects, t.meta, op)
  {
    OldObjects(x, objects, log, k);
    ListReadable(x, log, k);
    hide TableAt, LogOk;
  }

  /** The commit's objects other than partition statistics, by path. */
  lemma {:induction false} ManifestsFacts(cfg: Config, t: Table, snap: NewSnapshot, env: Env)
    ensures var o := CommitManifests(cfg, t, snap, env);
      && SameExcept(t.objects, o, snap.id)
      && Holds(o, DataManifestPath(snap.id), DataManifestOf(cfg, t.meta, snap))
      && (snap.equalityDeletes != [] ==> Holds(o, DeleteManifestPath(snap.id), DeleteManifestOf(cfg, t.meta, snap)))
  {
    hide DataManifestOf, DeleteManifestOf, PuffinOf, WantsPuffin, Inherited, ManifestsOf;
  }

  /** Partition statistics computed from the shared store equal those of the sequential commit. */
  lemma {:induction false} StatsAgree(x: Start, objects: Objects, log: seq<Published>, k: nat, snap: NewSnapshot, env: Env)
    requires IsNew(x.t0) && LogOk(x, objects, log) && k <= |log| && Unused(Ops(log), snap.id)
    requires var t := TableAt(x, log, k);
      && Holds(objects, DataManifestPath(snap.id), DataManifestOf(x.cfg, t.meta, snap))
      && (snap.equalityDeletes != [] ==> Holds(objects, DeleteManifestPath(snap.id), DeleteManifestOf(x.cfg, t.meta, snap)))
    ensures var t := TableAt(x, log, k);
      DataEntries(objects, ListFor(t, snap)) == DataEntries(CommitManifests(x.cfg, t, snap, env), ListFor(t, snap))
  {
    hide TableAt, CommitManifests, Unused, DataManifestOf, DeleteManifestOf, DataEntries, MetadataStored, DistinctLocations;
    var t := TableAt(x, log, k);
    ListReadable(x, log, k);
    hide Inherited, LogOk, DistinctIds;
    OldObjects(x, objects, log, k);
    NotInTable(x, log, k, snap.id);
    ManifestsFacts(x.cfg, t, snap, env);
    SameEntries(objects, CommitManifests(x.cfg, t, snap, env), ListFor(t, snap));
  }

  lemma {:induction false} NotInTable(x: Start, log: seq<Published>, k: nat, id: SnapshotId)
    requires IsNew(x.t0) && k <= |log| && Unused(Ops(log), id)
    ensures forall p :: p in TableAt(x, log, k).objects ==> p.IsCommitPath() && p.snapshot != id
  {
    hide Fold;
    assert Unused(Ops(log)[..k], id);
    hide Unused;
    FoldKeys(x.cfg, x.t0, Ops(log)[..k]);
  }

  /** With all its objects in place the commit has stored what the sequential commit stores. */
  lemma {:induction false} AllStored(cfg: Config, t: Table, snap: NewSnapshot, env: Env, objects: Objects)
    requires forall p :: p in t.objects ==> !p.OfSnapshot(snap.id)
    requires Holds(objects, DataManifestPath(snap.id), DataManifestOf(cfg, t.meta, snap))
    requires snap.equalityDeletes != [] ==> Holds(objects, DeleteManifestPath(snap.id), DeleteManifestOf(cfg, t.meta, snap))
    requires Holds(objects, ManifestListPath(snap.id), ManifestList(ListFor(t, snap)))
    requires env.puffinStored && WantsPuffin(cfg, t.meta, snap) ==> Holds(objects, PuffinPath(snap.id), PuffinOf(cfg, t.meta, snap))
    requires env.partitionStatsStored && WantsPartitionStats(t.meta) ==>
      Holds(objects, PartitionStatsPath(snap.id),
            PartitionStatsOf(CommitManifests(cfg, t, snap, env), t.meta, ListFor(t, snap)))
    ensures CommitStored(cfg, t, snap, env, objects)
  {
    hide DataManifestOf, DeleteManifestOf, PuffinOf, PartitionStatsOf, WantsPuffin, WantsPartitionStats, Inherited, ManifestsOf;
  }

  predicate InCommit(pc: Pc) {
    || pc.PutDataManifest? || pc.ReadParentList? || pc.PutDeleteManifest? || pc.PutManifestList?
    || pc.PutPuffin? || pc.PutPartitionStats?
  }

  /** Each step of a commit carries the stored objects one stage further. */
  lemma {:induction false} ActionProgress(cfg: Config, t: Table, snap: NewSnapshot, objects: Objects, pc: Pc, c: Choice)
    requires InCommit(pc) && pc.base.meta == t.meta && Progress(cfg, t, snap, objects, pc)
    requires Inherited(objects, t.meta, snap.operation) == Inherited(t.objects, t.meta, snap.operation)
    requires !pc.PutPartitionStats?
    ensures var e := CommitAction(cfg, snap, objects, pc, c);
      && HasBase(e.pc) && !e.pc.PutMetadata? && !e.pc.SwapPointer? && e.pc.base == pc.base
      && SameExcept(objects, e.objects, snap.id)
      && Progress(cfg, t, snap, e.objects, e.pc)
  {
    hide DataManifestOf, DeleteManifestOf, PuffinOf, WantsPuffin, Inherited, ManifestsOf, CommitStored;
  }

  /** The last of them completes the commit's objects. */
  lemma {:induction false} StatsProgress(cfg: Config, t: Table, snap: NewSnapshot, objects: Objects, pc: Pc, c: Choice)
    requires pc.PutPartitionStats? && pc.base.meta == t.meta && Progress(cfg, t, snap, objects, pc)
    requires forall p :: p in t.objects ==> !p.OfSnapshot(snap.id)
    requires var env := Env(pc.now, pc.puffinStored, c.Stored());
      DataEntries(objects, ListFor(t, snap)) == DataEntries(CommitManifests(cfg, t, snap, env), ListFor(t, snap))
    ensures var e := CommitAction(cfg, snap, objects, pc, c);
      && e.pc == PutMetadata(pc.base, Commit(snap, Env(pc.now, pc.puffinStored, c.Stored())))
      && SameExcept(objects, e.objects, snap.id)
      && Progress(cfg, t, snap, e.objects, e.pc)
  {
    hide DataManifestOf, DeleteManifestOf, PuffinOf, WantsPuffin, ListFor, CommitStored, CommitManifests, DataEntries, WantsPartitionStats;
    var e := CommitAction(cfg, snap, objects, pc, c);
    AllStored(cfg, t, snap, Env(pc.now, pc.puffinStored, c.Stored()), e.objects);
  }

  lemma {:induction false} ActionOk(x: Start, objects: Objects, log: seq<Published>, dropped: bool, wr: Writer, c: Choice)
    requires IsNew(x.t0) && LogOk(x, objects, log) && WriterOk(x, objects, log, dropped, wr)
    requires wr.request.CommitRequest? && InCommit(wr.pc) && Unused(Ops(log), wr.request.snap.id)
    ensures var e := CommitAction(x.cfg, wr.request.snap, objects, wr.pc, c);
      && !HasSwapped(e.pc) && !e.pc.SwapPointer?
      && SameExcept(objects, e.objects, wr.request.snap.id)
      && WriterOk(x, e.objects, log, dropped, wr.(pc := e.pc))
  {
    hide CommitAction, Progress, TableAt, LogOk, Unused, SameExcept, NewMeta, Loc, ListFor, DataManifestOf, DeleteManifestOf;
    var snap, b, t := wr.request.snap, wr.pc.base, TableAt(x, log, wr.pc.base.index);
    if wr.pc.PutPartitionStats? {
      StoredSoFar(x.cfg, t, snap, objects, wr.pc);
      StatsAgree(x, objects, log, b.index, snap, Env(wr.pc.now, wr.pc.puffinStored, c.Stored()));
      NotInTable(x, log, b.index, snap.id);
      StatsProgress(x.cfg, t, snap, objects, wr.pc, c);
    } else {
      ParentListStable(x, objects, log, b.index, snap.operation);
      ActionProgress(x.cfg, t, snap, objects, wr.pc, c);
    }
  }

  lemma {:induction false} CommitStep(x: Start, s: State, w: WriterId, c: Choice)
    requires Inv(x, s) && w in s.writers && s.writers[w].request.CommitRequest? && InCommit(s.writers[w].pc)
    ensures Inv(x, StepWriter(x.cfg, s, w, c))
  {
    hide CommitAction;
    var wr := s.writers[w];
    var e := CommitAction(x.cfg, wr.request.snap, s.objects, wr.pc, c);
    assert StepWriter(x.cfg, s, w, c) == Move(s.(objects := e.objects), w, e.pc) by {
      hide Inv;
    }
    hide StepWriter;
    IdUnused(x, s, w);
    hide LogOk, Acknowledged, Separate, WriterOk, SameExcept, Unused;
    ActionOk(x, s.objects, s.log, s.pointer.None?, wr, c);
    OwnStep(x, s, w, e.objects, e.pc);
  }

  lemma {:induction false} StoredSoFar(cfg: Config, t: Table, snap: NewSnapshot, objects: Objects, pc: Pc)
    requires Progress(cfg, t, snap, objects, pc) && pc.PutPartitionStats?
    ensures Holds(objects, DataManifestPath(snap.id), DataManifestOf(cfg, t.meta, snap))
    ensures snap.equalityDeletes != [] ==> Holds(objects, DeleteManifestPath(snap.id), DeleteManifestOf(cfg, t.meta, snap))
  {
  }

  // ---- the other steps -----------------------------------------------------------

  lemma {:induction false} WriterGrow(x: Start, a: Objects, b: Objects, log: seq<Published>, dropped: bool, wr: Writer)
    requires WriterOk(x, a, log, dropped, wr) && SubMap(a, b)
    ensures WriterOk(x, b, log, dropped, wr)
    ensures WriterOk(x, b, log, true, wr)
  {
    hide Fold, TableAt, CommitObjects, DataManifestOf, DeleteManifestOf, PuffinOf, WantsPuffin, ListFor, NewMeta;
  }

  lemma {:induction false} PointerStep(x: Start, s: State, w: WriterId, c: Choice)
    requires Inv(x, s) && w in s.writers && s.writers[w].pc.ReadPointer?
    ensures Inv(x, StepWriter(x.cfg, s, w, c))
  {
    hide TableAt, Acknowledged, Separate, LogOk, CommitAction, NewMeta, Progress;
    var s' := StepWriter(x.cfg, s, w, c);
    assert s' == s.(writers := s.writers[w := s'.writers[w]]);
    LocalStep(x, s, w, s'.writers[w]);
  }

  lemma {:induction false} LoadedMetadata(x: Start, s: State, w: WriterId)
    requires Inv(x, s) && w in s.writers && s.writers[w].pc.LoadMetadata?
    ensures var pc := s.writers[w].pc;
      pc.index <= |s.log| && Holds(s.objects, MetadataPath(pc.location), MetadataJson(TableAt(x, s.log, pc.index).meta))
  {
    hide TableAt, Acknowledged, Separate, SubMap, DistinctIds, DistinctLocations, Progress, NewMeta;
  }

  lemma {:induction false} LoadStep(x: Start, s: State, w: WriterId, c: Choice)
    requires Inv(x, s) && w in s.writers && s.writers[w].pc.LoadMetadata?
    ensures Inv(x, StepWriter(x.cfg, s, w, c))
  {
    hide TableAt, Acknowledged, Separate, LogOk, EvolvedMetadata, CommitAction, NewMeta, CommitStored;
    LoadedMetadata(x, s, w);
    var s' := StepWriter(x.cfg, s, w, c);
    assert s' == s.(writers := s.writers[w := s'.writers[w]]);
    assert WriterOk(x, s.objects, s.log, s.pointer.None?, s'.writers[w]);
    hide StepWriter;
    LocalStep(x, s, w, s'.writers[w]);
  }

  /** Storing one more metadata file under an unused name. */
  lemma {:induction false} FreshMetadata(x: Start, s: State, uuid: Uuid, meta: Metadata)
    requires Inv(x, s) && MetadataPath(uuid) !in s.objects
    ensures var s' := Put(s, MetadataPath(uuid), MetadataJson(meta));
      Inv(x, s') && forall k :: 0 <= k <= |s.log| ==> Loc(x, s.log, k) != uuid
  {
    hide TableAt, DistinctIds, DistinctLocations, Acknowledged, Separate, Loc;
    var s' := Put(s, MetadataPath(uuid), MetadataJson(meta));
    assert LogOk(x, s'.objects, s.log);
    forall v | v in s'.writers ensures WriterOk(x, s'.objects, s.log, s.pointer.None?, s'.writers[v]) {
      WriterGrow(x, s.objects, s'.objects, s.log, s.pointer.None?, s.writers[v]);
    }
    hide WriterOk, LogOk;
  }

  lemma {:induction false} MetadataStep(x: Start, s: State, w: WriterId, c: Choice)
    requires Inv(x, s) && w in s.writers && s.writers[w].pc.PutMetadata?
    ensures Inv(x, StepWriter(x.cfg, s, w, c))
  {
    hide NewMeta, TableAt, LogOk, Acknowledged, Separate, Progress;
    var wr, s' := s.writers[w], StepWriter(x.cfg, s, w, c);
    if MetadataPath(c.uuid) !in s.objects {
      var meta := NewMeta(x.cfg, wr.pc.base.meta, wr.pc.op);
      var mid := Put(s, MetadataPath(c.uuid), MetadataJson(meta));
      FreshMetadata(x, s, c.uuid, meta);
      var next := wr.(pc := SwapPointer(wr.pc.base, wr.pc.op, c.uuid));
      assert s' == mid.(writers := mid.writers[w := next]);
      SwapProgress(x, mid.objects, s.log, wr, c.uuid);
      assert WriterOk(x, mid.objects, s.log, s.pointer.None?, next);
      hide WriterOk, StepWriter;
      AckMove(s.writers, s.log, w, next);
      SwapSeparate(x, s, w, next);
    }
  }

  lemma {:induction false} SwapProgress(x: Start, objects: Objects, log: seq<Published>, wr: Writer, uuid: Uuid)
    requires wr.pc.PutMetadata? && wr.pc.base.index <= |log|
    requires wr.request.CommitRequest? ==>
      Progress(x.cfg, TableAt(x, log, wr.pc.base.index), wr.request.snap, objects, wr.pc)
    ensures wr.request.CommitRequest? ==>
      Progress(x.cfg, TableAt(x, log, wr.pc.base.index), wr.request.snap, objects, SwapPointer(wr.pc.base, wr.pc.op, uuid))
  {
    hide TableAt, CommitStored;
  }

  /** A fresh location differs from every location another writer is about to publish. */
  lemma {:induction false} SwapSeparate(x: Start, s: State, w: WriterId, wr: Writer)
    requires Inv(x, s) && w in s.writers && wr.request == s.writers[w].request
    requires wr.pc.SwapPointer? && MetadataPath(wr.pc.newLocation) !in s.objects
    ensures Separate(s.writers[w := wr])
  {
    hide LogOk, Acknowledged, Progress, TableAt, NewMeta;
  }

  /** Publishing on top of table `t` keeps the objects of the new table in the store. */
  lemma {:induction false} PublishedObjects(x: Start, objects: Objects, t: Table, op: Op)
    requires SubMap(t.objects, objects)
    requires op.Commit? ==> CommitStored(x.cfg, t, op.snap, op.env, objects)
    ensures SubMap(ApplyOp(x.cfg, t, op).objects, objects)
  {
    if op.Commit? {
      CommitFrame(x.cfg, t, op.snap, op.env);
      hide CommitObjects, CommittedMetadata;
    }
  }

  lemma {:induction false} NewMetaIsFold(x: Start, t: Table, op: Op)
    ensures ApplyOp(x.cfg, t, op).meta == NewMeta(x.cfg, t.meta, op)
  {
    hide CommitObjects, CommittedMetadata, EvolvedMetadata;
  }

  /** Appending to the log leaves the earlier tables and locations as they are. */
  lemma {:induction false} LogStep(x: Start, log: seq<Published>, e: Published)
    ensures forall k :: 0 <= k <= |log| ==> TableAt(x, log + [e], k) == TableAt(x, log, k)
    ensures forall k :: 0 <= k <= |log| ==> Loc(x, log + [e], k) == Loc(x, log, k)
    ensures TableAt(x, log + [e], |log| + 1) == ApplyOp(x.cfg, TableAt(x, log, |log|), e.op)
  {
    hide ApplyOp;
    var log' := log + [e];
    forall k | 0 <= k <= |log| ensures TableAt(x, log', k) == TableAt(x, log, k) {
      assert Ops(log')[..k] == Ops(log)[..k];
    }
    assert Ops(log')[..|log'|] == Ops(log') && Ops(log')[..|log|] == Ops(log)[..|log|];
  }

  lemma {:induction false} PublishIds(log: seq<Published>, e: Published)
    requires DistinctIds(Ops(log)) && (e.op.Commit? ==> Unused(Ops(log), e.op.snap.id))
    ensures DistinctIds(Ops(log + [e]))
  {
    assert Ops(log + [e]) == Ops(log) + [e.op];
  }

  lemma {:induction false} PublishLog(x: Start, objects: Objects, log: seq<Published>, e: Published)
    requires IsNew(x.t0) && LogOk(x, objects, log)
    requires e.op.Commit? ==>
      Unused(Ops(log), e.op.snap.id) && CommitStored(x.cfg, TableAt(x, log, |log|), e.op.snap, e.op.env, objects)
    requires Holds(objects, MetadataPath(e.location), MetadataJson(NewMeta(x.cfg, TableAt(x, log, |log|).meta, e.op)))
    requires forall k :: 0 <= k <= |log| ==> Loc(x, log, k) != e.location
    ensures LogOk(x, objects, log + [e])
  {
    hide TableAt, ApplyOp, CommitStored, NewMeta, SubMap, Unused, DistinctIds, Loc;
    PublishIds(log, e);
    LogStep(x, log, e);
    LastLocation(x, log, e);
    NewMetaIsFold(x, TableAt(x, log, |log|), e.op);
    PublishedObjects(x, objects, TableAt(x, log, |log|), e.op);
    assert |log + [e]| == |log| + 1;
  }

  lemma {:induction false} LastLocation(x: Start, log: seq<Published>, e: Published)
    ensures Loc(x, log + [e], |log| + 1) == e.location
  {
  }

  /** Another writer's bookkeeping survives a published update. */
  lemma {:induction false} WriterLogGrow(x: Start, objects: Objects, log: seq<Published>, wr: Writer, e: Published)
    requires WriterOk(x, objects, log, false, wr)
    requires wr.pc.SwapPointer? ==> wr.pc.newLocation != e.location
    ensures WriterOk(x, objects, log + [e], false, wr)
  {
    LogStep(x, log, e);
    hide TableAt, Progress, NewMeta;
  }

  lemma {:induction false} SwapStep(x: Start, s: State, w: WriterId, c: Choice)
    requires Inv(x, s) && w in s.writers && s.writers[w].pc.SwapPointer? && s.pointer == Some(s.writers[w].pc.base.location)
    ensures Inv(x, StepWriter(x.cfg, s, w, c))
  {
    hide TableAt, NewMeta, CommitStored, MetadataStored, DistinctIds, Acknowledged, Separate;
    var wr := s.writers[w];
    var e := Published(w, wr.pc.newLocation, wr.pc.op);
    var s' := Move(s.(pointer := Some(e.location), log := s.log + [e]), w, Swapped);
    assert StepWriter(x.cfg, s, w, c) == s';
    hide StepWriter;
    assert wr.pc.base.index == |s.log|;
    SwapLog(x, s, w);
    hide LogOk, Progress, Loc;
    SwapWriters(x, s, w);
    LastLocation(x, s.log, e);
    hide WriterOk;
    SwapAck(x, s, w);
  }

  /** What the invariant says of a writer about to swap on top of the current table. */
  lemma {:induction false} ReadyToSwap(x: Start, s: State, w: WriterId)
    requires Inv(x, s) && w in s.writers && s.writers[w].pc.SwapPointer? && s.writers[w].pc.base.index == |s.log|
    ensures var pc := s.writers[w].pc;
      && (pc.op.Commit? ==> s.writers[w].request == CommitRequest(pc.op.snap)
                            && CommitStored(x.cfg, TableAt(x, s.log, |s.log|), pc.op.snap, pc.op.env, s.objects))
      && Holds(s.objects, MetadataPath(pc.newLocation), MetadataJson(NewMeta(x.cfg, TableAt(x, s.log, |s.log|).meta, pc.op)))
      && forall k :: 0 <= k <= |s.log| ==> Loc(x, s.log, k) != pc.newLocation
  {
    hide TableAt, NewMeta, CommitStored, LogOk, Acknowledged, Separate, Loc;
  }

  lemma {:induction false} SwapLog(x: Start, s: State, w: WriterId)
    requires Inv(x, s) && w in s.writers && s.writers[w].pc.SwapPointer? && s.writers[w].pc.base.index == |s.log|
    ensures var pc := s.writers[w].pc; LogOk(x, s.objects, s.log + [Published(w, pc.newLocation, pc.op)])
  {
    hide TableAt, NewMeta, CommitStored, LogOk, Unused, Acknowledged, Separate, WriterOk, Holds, Loc;
    var wr := s.writers[w];
    ReadyToSwap(x, s, w);
    if wr.pc.op.Commit? {
      IdUnused(x, s, w);
    }
    PublishLog(x, s.objects, s.log, Published(w, wr.pc.newLocation, wr.pc.op));
  }

  lemma {:induction false} SwapWriters(x: Start, s: State, w: WriterId)
    requires Inv(x, s) && w in s.writers && s.writers[w].pc.SwapPointer? && s.pointer.Some?
    ensures var pc, writers := s.writers[w].pc, s.writers[w := s.writers[w].(pc := Swapped)];
      forall v :: v in writers ==>
        WriterOk(x, s.objects, s.log + [Published(w, pc.newLocation, pc.op)], false, writers[v])
  {
    hide TableAt, LogOk, Acknowledged, Progress, NewMeta;
    var pc := s.writers[w].pc;
    var e := Published(w, pc.newLocation, pc.op);
    forall v | v in s.writers && v != w ensures WriterOk(x, s.objects, s.log + [e], false, s.writers[v]) {
      WriterLogGrow(x, s.objects, s.log, s.writers[v], e);
    }
  }

  lemma {:induction false} SwapAck(x: Start, s: State, w: WriterId)
    requires Inv(x, s) && w in s.writers && s.writers[w].pc.SwapPointer?
    ensures var pc, writers := s.writers[w].pc, s.writers[w := s.writers[w].(pc := Swapped)];
      Acknowledged(writers, s.log + [Published(w, pc.newLocation, pc.op)]) && Separate(writers)
  {
    hide TableAt, LogOk, Progress, NewMeta, Loc;
    var pc, writers := s.writers[w].pc, s.writers[w := s.writers[w].(pc := Swapped)];
    var log := s.log + [Published(w, pc.newLocation, pc.op)];
    assert Matches(s.writers[w].request, pc.op);
    hide WriterOk;
    assert log[|s.log|].writer == w;
    forall v | v in writers && HasSwapped(writers[v].pc) ensures exists i :: 0 <= i < |log| && log[i].writer == v {
      if v != w {
        var i :| 0 <= i < |s.log| && s.log[i].writer == v;
        assert log[i].writer == v;
      }
    }
  }

  lemma {:induction false} RetryStep(x: Start, s: State, w: WriterId, c: Choice)
    requires Inv(x, s) && w in s.writers && s.writers[w].pc.SwapPointer? && s.pointer != Some(s.writers[w].pc.base.location)
    ensures Inv(x, StepWriter(x.cfg, s, w, c))
  {
    hide TableAt, Acknowledged, Separate, MetadataStored, Progress, NewMeta;
    var s' := StepWriter(x.cfg, s, w, c);
    LocalStep(x, s, w, s'.writers[w]);
  }

  lemma {:induction false} ReplyStep(x: Start, s: State, w: WriterId, c: Choice)
    requires Inv(x, s) && w in s.writers && s.writers[w].pc.Swapped?
    ensures Inv(x, StepWriter(x.cfg, s, w, c))
  {
    hide TableAt, LogOk, Acknowledged, Separate, Progress, NewMeta;
    LocalStep(x, s, w, s.writers[w].(pc := Committed));
  }

  /** Every event keeps the invariant. */
  lemma {:induction false} NextKeepsInv(x: Start, s: State, e: Event)
    requires Inv(x, s)
    ensures Inv(x, Next(x.cfg, s, e))
  {
    hide Inv, StepWriter, Run;
    match e
    case Begin(w, r) => BeginStep(x, s, w, r);
    case Stop(w) => StopStep(x, s, w);
    case DropTable => DropStep(x, s);
    case Step(w, c) => if w in s.writers { StepKeepsInv(x, s, w, c); }
  }

  lemma {:induction false} StopStep(x: Start, s: State, w: WriterId)
    requires Inv(x, s)
    ensures Inv(x, Next(x.cfg, s, Stop(w)))
  {
    hide LogOk, Acknowledged, Separate, TableAt, Progress, NewMeta;
    if w in s.writers && !Finished(s.writers[w].pc) {
      LocalStep(x, s, w, s.writers[w].(pc := if s.writers[w].pc.Swapped? then Unanswered else Stopped));
    }
  }

  lemma {:induction false} DropStep(x: Start, s: State)
    requires Inv(x, s)
    ensures Inv(x, Next(x.cfg, s, DropTable))
  {
    hide LogOk, WriterOk, Acknowledged, Separate;
    forall v | v in s.writers ensures WriterOk(x, s.objects, s.log, true, s.writers[v]) {
      WriterGrow(x, s.objects, s.objects, s.log, s.pointer.None?, s.writers[v]);
    }
  }

  lemma {:induction false} BeginStep(x: Start, s: State, w: WriterId, r: Request)
    requires Inv(x, s)
    ensures Inv(x, Next(x.cfg, s, Begin(w, r)))
  {
    hide LogOk, Acknowledged, TableAt, Progress, NewMeta, Loc;
    if CanBegin(s, w, r) {
      var wr := Writer(r, 0, |s.log|, ReadPointer);
      assert WriterOk(x, s.objects, s.log, s.pointer.None?, wr);
      hide WriterOk;
      AckMove(s.writers, s.log, w, wr);
      BeginSeparate(s, w, r, wr);
      hide Separate;
    }
  }

  lemma {:induction false} BeginSeparate(s: State, w: WriterId, r: Request, wr: Writer)
    requires Separate(s.writers) && CanBegin(s, w, r) && wr.request == r && !wr.pc.SwapPointer?
    ensures Separate(s.writers[w := wr])
  {
  }

  lemma {:induction false} StepKeepsInv(x: Start, s: State, w: WriterId, c: Choice)
    requires Inv(x, s) && w in s.writers
    ensures Inv(x, StepWriter(x.cfg, s, w, c))
  {
    hide Inv;
    var pc := s.writers[w].pc;
    if pc.ReadPointer? {
      PointerStep(x, s, w, c);
    } else if pc.LoadMetadata? {
      LoadStep(x, s, w, c);
    } else if pc.PutMetadata? {
      MetadataStep(x, s, w, c);
    } else if pc.SwapPointer? {
      if s.pointer == Some(pc.base.location) { SwapStep(x, s, w, c); } else { RetryStep(x, s, w, c); }
    } else if pc.Swapped? {
      ReplyStep(x, s, w, c);
    } else if s.writers[w].request.CommitRequest? && InCommit(pc) {
      CommitStep(x, s, w, c);
    } else {
      assert StepWriter(x.cfg, s, w, c) == s;
    }
  }

  lemma {:induction false} RunKeepsInv(x: Start, s: State, events: seq<Event>)
    requires Inv(x, s)
    ensures Inv(x, Run(x.cfg, s, events))
  {
    hide Inv, Next;
    if events != [] {
      RunKeepsInv(x, s, events[..|events| - 1]);
      NextKeepsInv(x, Run(x.cfg, s, events[..|events| - 1]), events[|events| - 1]);
    }
  }

  lemma {:induction false} InitInv(x: Start)
    requires IsNew(x.t0)
    ensures Inv(x, Init(x.t0.meta, x.location))
  {
    assert Ops([])[..0] == [];
  }

  // ---- main results --------------------------------------------------------------

  /** The metadata a reader loads through the pointer. */
  function CurrentMetadata(s: State): Option<Metadata> {
    if s.pointer.None? then None
    else
      var p := MetadataPath(s.pointer.value);
      if p in s.objects && s.objects[p].MetadataJson? then Some(s.objects[p].meta) else None
  }

  /** `list_files` and `list_equality_deletes` of the catalog. */
  function CatalogFiles(s: State, id: Option<SnapshotId>): Result<seq<DataFile>> {
    var m := CurrentMetadata(s);
    if m.None? then Err("table not found") else ListFiles(s.objects, m.value, id)
  }

  function CatalogDeletes(s: State, id: Option<SnapshotId>): Result<seq<EqualityDelete>> {
    var m := CurrentMetadata(s);
    if m.None? then Err("table not found") else ListDeletes(s.objects, m.value, id)
  }

  /** The state after `events`, starting from the created table. */
  function After(x: Start, events: seq<Event>): State {
    Run(x.cfg, Init(x.t0.meta, x.location), events)
  }

  /** Linearisation: in every run, the pointed-to metadata is the sequential execution of
      exactly the successful operations in compare-and-swap order. An operation whose writer
      was told that it committed is in that history exactly once, and an operation in the
      history has a writer that was told so, is about to be, or stopped after its pointer
      update without learning of it; one that gave up or stopped before is not in it. */
  lemma {:induction false} Linearised(x: Start, events: seq<Event>)
    requires IsNew(x.t0)
    ensures var s := After(x, events);
      && (s.pointer.Some? ==> CurrentMetadata(s) == Some(Fold(x.cfg, x.t0, Ops(s.log)).meta))
      && DistinctIds(Ops(s.log))
      && Acknowledged(s.writers, s.log)
  {
    hide Fold, Acknowledged, Separate, WriterOk, Run, Init;
    InitInv(x);
    RunKeepsInv(x, Init(x.t0.meta, x.location), events);
    var s := After(x, events);
    assert Ops(s.log)[..|s.log|] == Ops(s.log);
  }

  /** What a writer knows about its own operation: told that it committed, the operation is in
      the history once; refused or stopped before its pointer update, it is not in it. Only a
      writer stopped after that update cannot tell. */
  lemma {:induction false} WhatWritersKnow(x: Start, events: seq<Event>, w: WriterId)
    requires IsNew(x.t0) && w in After(x, events).writers
    ensures var s := After(x, events);
      var pc := s.writers[w].pc;
      && (pc.Committed? || pc.Unanswered? ==>
            exists i :: 0 <= i < |s.log| && s.log[i].writer == w && Matches(s.writers[w].request, s.log[i].op)
              && forall j :: 0 <= j < |s.log| && j != i ==> s.log[j].writer != w)
      && (pc.Exhausted? || pc.Stopped? ==> forall i :: 0 <= i < |s.log| ==> s.log[i].writer != w)
  {
    hide Fold, After;
    Linearised(x, events);
    var s := After(x, events);
    if HasSwapped(s.writers[w].pc) {
      var i :| 0 <= i < |s.log| && s.log[i].writer == w;
      forall j | 0 <= j < |s.log| && j != i ensures s.log[j].writer != w {
        assert s.log[i].writer != s.log[j].writer;
      }
    }
  }

  lemma {:induction false} RunLast(cfg: Config, s: State, events: seq<Event>, e: Event)
    ensures Run(cfg, s, events + [e]) == Next(cfg, Run(cfg, s, events), e)
  {
    hide Next;
    assert (events + [e])[..|events|] == events;
  }

  lemma {:induction false} RunEvents(cfg: Config, s: State, a: Event, b: Event, c: Event)
    ensures Run(cfg, s, [a, b, c]) == Next(cfg, Next(cfg, Next(cfg, s, a), b), c)
  {
    hide Next, Run;
    RunLast(cfg, s, [], a);
    RunLast(cfg, s, [a], b);
    RunLast(cfg, s, [a, b], c);
    EmptyRun(cfg, s);
    assert [] + [a] == [a] && [a] + [b] == [a, b] && [a, b] + [c] == [a, b, c];
  }

  lemma {:induction false} EmptyRun(cfg: Config, s: State)
    ensures Run(cfg, s, []) == s
  {
  }

  function ReadyToPublish(x: Start, e: Evolution): State {
    Init(x.t0.meta, x.location).(
      writers := map[1 := Writer(EvolveRequest(e), 0, 0, PutMetadata(Base(x.location, 0, x.t0.meta), Evolve(e, 0)))])
  }

  lemma {:induction false} PrepareEvolution(x: Start, e: Evolution, choice: Choice)
    requires choice.now == 0 && EvolvedMetadata(x.t0.meta, e, 0).Ok?
    ensures var c := Step(1, choice);
      Run(x.cfg, Init(x.t0.meta, x.location), [Begin(1, EvolveRequest(e)), c, c]) == ReadyToPublish(x, e)
  {
    hide EvolvedMetadata, CommitAction, Run;
    RunEvents(x.cfg, Init(x.t0.meta, x.location), Begin(1, EvolveRequest(e)), Step(1, choice), Step(1, choice));
  }

  /** A run in which an evolution is published and its writer stops before the reply: the
      change is there, and the writer does not know. */
  lemma {:induction false} LostReplyWitness(x: Start, e: Evolution, uuid: Uuid)
    requires uuid != x.location && EvolvedMetadata(x.t0.meta, e, 0).Ok?
    ensures var c := Step(1, Choice(0, true, true, uuid));
      var s := After(x, [Begin(1, EvolveRequest(e)), c, c] + [c, c, Stop(1)]);
      && 1 in s.writers && s.writers[1].pc == Unanswered && s.log == [Published(1, uuid, Evolve(e, 0))]
      && CurrentMetadata(s) == Some(EvolvedMetadata(x.t0.meta, e, 0).value)
  {
    hide EvolvedMetadata, CommitAction, Run;
    var c := Step(1, Choice(0, true, true, uuid));
    PrepareEvolution(x, e, Choice(0, true, true, uuid));
    RunAppend(x.cfg, Init(x.t0.meta, x.location), [Begin(1, EvolveRequest(e)), c, c], c, c, Stop(1));
    RunEvents(x.cfg, ReadyToPublish(x, e), c, c, Stop(1));
  }

  lemma {:induction false} RunAppend(cfg: Config, s: State, events: seq<Event>, a: Event, b: Event, c: Event)
    ensures Run(cfg, s, events + [a, b, c]) == Run(cfg, Run(cfg, s, events), [a, b, c])
  {
    hide Next, Run;
    RunEvents(cfg, Run(cfg, s, events), a, b, c);
    RunLast(cfg, s, events, a);
    RunLast(cfg, s, events + [a], b);
    RunLast(cfg, s, events + [a] + [b], c);
    assert events + [a] + [b] + [c] == events + [a, b, c];
  }

  /** No acknowledged append or delete is lost and no failed attempt is visible: while the
      table exists, the catalog lists exactly the entries decoded from what the successful
      operations since the last Overwrite or Replace added. */
  lemma {:induction false} NothingLost(x: Start, events: seq<Event>)
    requires IsNew(x.t0) && After(x, events).pointer.Some?
    ensures var s := After(x, events);
      var ops := Ops(s.log);
      && CatalogFiles(s, None) == Ok(ListingFrom(x.cfg, x.t0, ops, LastReset(ops)))
      && CatalogDeletes(s, None) == DeleteListingFrom(x.cfg, ops, LastReset(ops))
      && CommittedEntries.ListsAsked(x.cfg, x.t0, ops, CatalogFiles(s, None), CatalogDeletes(s, None))
  {
    hide Fold, Run, Init, ListingFrom, DeleteListingFrom, LastReset, ListFiles, ListDeletes, IsNew, CommittedEntries.ListsAsked;
    var s := After(x, events);
    Linearised(x, events);
    StoreHolds(x, events);
    CurrentListing(x.cfg, x.t0, Ops(s.log));
    SameListing(s.objects, Fold(x.cfg, x.t0, Ops(s.log)), None);
    CommittedEntries.AsAsked(x.cfg, x.t0, Ops(s.log), CatalogFiles(s, None), CatalogDeletes(s, None));
  }

  lemma {:induction false} StoreHolds(x: Start, events: seq<Event>)
    requires IsNew(x.t0)
    ensures var s := After(x, events); SubMap(Fold(x.cfg, x.t0, Ops(s.log)).objects, s.objects)
  {
    hide Fold, Acknowledged, Separate, WriterOk, Run, Init, SubMap;
    InitInv(x);
    RunKeepsInv(x, Init(x.t0.meta, x.location), events);
    var s := After(x, events);
    assert Ops(s.log)[..|s.log|] == Ops(s.log);
  }

  /** The log only grows. */
  lemma {:induction false} LogGrows(x: Start, events: seq<Event>, more: seq<Event>)
    ensures var a, b := After(x, events).log, After(x, events + more).log;
      |a| <= |b| && b[..|a|] == a
    decreases |more|
  {
    hide CommitAction, NewMeta, EvolvedMetadata, Init;
    if more == [] {
      assert events + more == events;
    } else {
      var last := |more| - 1;
      LogGrows(x, events, more[..last]);
      assert (events + more)[..|events + more| - 1] == events + more[..last];
      NextGrowsLog(x.cfg, After(x, events + more[..last]), more[last]);
      hide Next;
    }
  }

  lemma {:induction false} NextGrowsLog(cfg: Config, s: State, e: Event)
    ensures var s' := Next(cfg, s, e); |s.log| <= |s'.log| && s'.log[..|s.log|] == s.log
  {
    hide CommitAction, NewMeta, EvolvedMetadata;
  }

  /** Time travel: once a commit is in the history, every object and every listing of its
      snapshot stays the same in all continuations of the run, although other writers and
      retries keep writing to the same store. */
  lemma {:induction false} TimeTravelStable(x: Start, events: seq<Event>, more: seq<Event>, j: nat)
    requires IsNew(x.t0)
    requires After(x, events).pointer.Some? && After(x, events + more).pointer.Some?
    requires j < |After(x, events).log| && After(x, events).log[j].op.Commit?
    ensures var a, b := After(x, events), After(x, events + more);
      var id := Some(a.log[j].op.snap.id);
      && CatalogFiles(a, id).Ok? && CatalogFiles(b, id) == CatalogFiles(a, id)
      && CatalogDeletes(b, id) == CatalogDeletes(a, id)
  {
    hide After, CatalogFiles, CatalogDeletes, ListingFrom, DeleteListingFrom, LastReset, IsNew;
    var a, b := After(x, events), After(x, events + more);
    LogGrows(x, events, more);
    ListingOf(x, events, j);
    ListingOf(x, events + more, j);
    assert b.log[j] == b.log[..|a.log|][j] == a.log[j];
    assert Ops(b.log)[..j + 1] == Ops(a.log)[..j + 1];
  }

  lemma {:induction false} ListingOf(x: Start, events: seq<Event>, j: nat)
    requires IsNew(x.t0) && After(x, events).pointer.Some?
    requires j < |After(x, events).log| && After(x, events).log[j].op.Commit?
    ensures var s := After(x, events);
      var made := Ops(s.log)[..j + 1];
      && CatalogFiles(s, Some(s.log[j].op.snap.id)) == Ok(ListingFrom(x.cfg, x.t0, made, LastReset(made)))
      && CatalogDeletes(s, Some(s.log[j].op.snap.id)) == DeleteListingFrom(x.cfg, made, LastReset(made))
  {
    hide Fold, After, ListingFrom, DeleteListingFrom, LastReset, ListFiles, ListDeletes, IsNew;
    var s := After(x, events);
    Linearised(x, events);
    StoreHolds(x, events);
    SnapshotListing(x.cfg, x.t0, Ops(s.log), j);
    SameListing(s.objects, Fold(x.cfg, x.t0, Ops(s.log)), Some(s.log[j].op.snap.id));
  }

  /** Every object of every table ever published, and its metadata file, is still there
      unchanged in every continuation of the run. */
  lemma {:induction false} PublishedNeverChanges(x: Start, events: seq<Event>, more: seq<Event>, k: nat)
    requires IsNew(x.t0) && k <= |After(x, events).log|
    ensures var a, b := After(x, events), After(x, events + more);
      && SubMap(TableAt(x, a.log, k).objects, b.objects)
      && Holds(b.objects, MetadataPath(Loc(x, a.log, k)), MetadataJson(TableAt(x, a.log, k).meta))
  {
    hide Fold, Acknowledged, Separate, WriterOk, Run, Init;
    var a, b := After(x, events), After(x, events + more);
    LogGrows(x, events, more);
    InitInv(x);
    RunKeepsInv(x, Init(x.t0.meta, x.location), events + more);
    OldObjects(x, b.objects, b.log, k);
    assert Ops(b.log)[..k] == Ops(a.log)[..k];
    assert k > 0 ==> b.log[..|a.log|][k - 1] == a.log[k - 1];
  }

  /** On V3 tables the fresh row-id ranges found in the shared store tile `[0, next-row-id)`
      in commit order, in every run. */
  lemma {:induction false} RowIdsTileInRun(x: Start, events: seq<Event>)
    requires IsNew(x.t0) && x.t0.meta.formatVersion >= 3 && After(x, events).pointer.Some?
    ensures var s := After(x, events);
      && CurrentMetadata(s).Some?
      && Tiles(AllocatedRanges(s.objects, Ops(s.log), |s.log|), 0, CurrentMetadata(s).value.nextRowId)
  {
    hide Fold, After, Tiles, AllocatedRanges, DistinctIds, Acknowledged;
    var s := After(x, events);
    Linearised(x, events);
    StoreHolds(x, events);
    RowIdsTile(x.cfg, x.t0, Ops(s.log));
    SameRanges(x.cfg, x.t0, Ops(s.log), s.objects, |s.log|);
  }

  lemma {:induction false} SameRanges(cfg: Config, t0: Table, ops: seq<Op>, o: Objects, k: nat)
    requires IsNew(t0) && DistinctIds(ops) && k <= |ops| && SubMap(Fold(cfg, t0, ops).objects, o)
    ensures AllocatedRanges(o, ops, k) == AllocatedRanges(Fold(cfg, t0, ops).objects, ops, k)
  {
    hide Fold, DistinctIds, FreshRanges;
    if k > 0 {
      SameRanges(cfg, t0, ops, o, k - 1);
      if ops[k - 1].Commit? {
        ManifestsOfCommit(cfg, t0, ops, k - 1);
        hide ListedFiles, ListedDeletes;
      }
    }
  }

  // ---- failed attempts -----------------------------------------------------------

  /** A compare-and-swap that fails while the table exists was overtaken: another writer
      published on the very base this writer had read. */
  lemma {:induction false} FailedSwapWitness(x: Start, s: State, w: WriterId)
    requires Inv(x, s) && w in s.writers && s.writers[w].pc.SwapPointer?
    requires s.pointer.Some? && s.pointer.value != s.writers[w].pc.base.location
    ensures var i := s.writers[w].pc.base.index;
      i < |s.log| && s.log[i].writer != w && Loc(x, s.log, i) == s.writers[w].pc.base.location
  {
    hide LogOk, Progress, TableAt, NewMeta, Separate;
  }

  lemma {:induction false} StartedAtFixed(cfg: Config, s: State, e: Event, w: WriterId)
    requires w in s.writers
    ensures w in Next(cfg, s, e).writers && Next(cfg, s, e).writers[w].startedAt == s.writers[w].startedAt
  {
    hide CommitAction, NewMeta, EvolvedMetadata;
  }

  lemma {:induction false} StartedAtKept(x: Start, events: seq<Event>, more: seq<Event>, w: WriterId)
    requires w in After(x, events).writers
    ensures w in After(x, events + more).writers
    ensures After(x, events + more).writers[w].startedAt == After(x, events).writers[w].startedAt
    decreases |more|
  {
    hide Next, Init;
    if more == [] {
      assert events + more == events;
    } else {
      var last := |more| - 1;
      StartedAtKept(x, events, more[..last], w);
      assert (events + more)[..|events + more| - 1] == events + more[..last];
      StartedAtFixed(x.cfg, After(x, events + more[..last]), more[last], w);
    }
  }

  lemma {:induction false} ExhaustedCount(x: Start, s: State, w: WriterId)
    requires Inv(x, s) && w in s.writers && s.writers[w].pc.Exhausted?
    ensures s.writers[w].startedAt + MAX_ATTEMPTS <= |s.log| + (if s.pointer.None? then 1 else 0)
    ensures forall i :: 0 <= i < |s.log| ==> s.log[i].writer != w
    ensures forall i, j :: 0 <= i < j < |s.log| ==> s.log[i].writer != s.log[j].writer
  {
    hide LogOk, Separate, TableAt, Progress, NewMeta, Loc;
  }

  /** An operation that gives up after its five attempts on a table that still exists saw at
      least five pointer updates succeed since it began, all by other writers (four when the
      table was dropped under it). */
  lemma {:induction false} ExhaustionWitness(x: Start, before: seq<Event>, w: WriterId, r: Request, after: seq<Event>)
    requires IsNew(x.t0) && CanBegin(After(x, before), w, r)
    requires var s := After(x, before + [Begin(w, r)] + after); w in s.writers && s.writers[w].pc.Exhausted?
    ensures var s0, s := After(x, before), After(x, before + [Begin(w, r)] + after);
      && |s.log| >= |s0.log| + (if s.pointer.Some? then MAX_ATTEMPTS else MAX_ATTEMPTS - 1)
      && s.log[..|s0.log|] == s0.log
      && (forall i :: |s0.log| <= i < |s.log| ==> s.log[i].writer != w)
      && (forall i, j :: |s0.log| <= i < j < |s.log| ==> s.log[i].writer != s.log[j].writer)
  {
    hide Inv, Init, CanBegin;
    var started := before + [Begin(w, r)];
    var s0, s := After(x, before), After(x, started + after);
    assert started[..|started| - 1] == before;
    assert After(x, started) == Next(x.cfg, s0, Begin(w, r));
    hide Next, Run;
    StartedAtKept(x, started, after, w);
    assert before + [Begin(w, r)] + after == before + ([Begin(w, r)] + after);
    LogGrows(x, before, [Begin(w, r)] + after);
    InitInv(x);
    RunKeepsInv(x, Init(x.t0.meta, x.location), started + after);
    ExhaustedCount(x, s, w);
  }
}
