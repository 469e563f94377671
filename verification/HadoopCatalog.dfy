/** The Hadoop catalog: a versioned metadata file plus a hint file, written step by step
    under a lock. Any of its puts may fail, in particular all puts after the point where the
    process dies, and a put may take effect although it reports an error; the results say what
    a reader then sees and what the caller knows. */
module HadoopCatalog {
  import opened Wrappers
  import opened TableModel
  import opened CommitSpec
  import opened CommitHistory
  import opened CommitMethods
  import SchemaHistory

  // ---- reading and writing the versioned metadata --------------------------------

  /** The version named by the hint file; 0 when there is none. */
  function Version(objects: Objects): nat {
    if HintPath in objects then (if objects[HintPath].VersionHint? then objects[HintPath].version else 1) else 0
  }

  /** The metadata a reader loads. */
  function Load(objects: Objects): Option<Metadata> {
    var p := VersionPath(Version(objects));
    if p in objects && objects[p].MetadataJson? then Some(objects[p].meta) else None
  }

  /** The save returns without error; and the save moves the hint, whatever it returns. */
  predicate SaveSucceeds(objects: Objects, faults: Faults) {
    faults.Answers(VersionPath(Version(objects) + 1)) && faults.Answers(HintPath)
  }

  predicate SaveShown(objects: Objects, faults: Faults) {
    faults.Answers(VersionPath(Version(objects) + 1)) && faults.Takes(HintPath)
  }

  /** First the next version, then the hint. */
  function Saved(objects: Objects, meta: Metadata, faults: Faults): Objects {
    var next := Version(objects) + 1;
    var o := PutIf(objects, faults.Takes(VersionPath(next)), VersionPath(next), MetadataJson(meta));
    if !faults.Answers(VersionPath(next)) then o else PutIf(o, faults.Takes(HintPath), HintPath, VersionHint(next))
  }

  // ---- attempts ------------------------------------------------------------------

  /** One catalog call; `faults` says which puts fail during it. */
  datatype Attempt =
    | CreateAttempt(meta: Metadata, faults: Faults)
    | CommitAttempt(snap: NewSnapshot, now: int, faults: Faults)
    | EvolveAttempt(evolution: Evolution, now: int, faults: Faults)

  /** The store after the attempt, whether it returned normally, with an error, or died. */
  function Attempted(cfg: Config, objects: Objects, a: Attempt): Objects {
    var meta := Load(objects);
    match a
    case CreateAttempt(m, faults) =>
      if Version(objects) > 0 then objects else Saved(objects, m, faults)
    case CommitAttempt(snap, now, faults) =>
      if meta.None? then objects
      else
        var o := BuildObjects(cfg, Table(objects, meta.value), snap, now, faults);
        if MustPutsSucceed(snap, faults)
        then Saved(o, CommittedMetadata(cfg, meta.value, snap, EnvFor(snap, now, faults)), faults)
        else o
    case EvolveAttempt(e, now, faults) =>
      if meta.None? || EvolvedMetadata(meta.value, e, now).Err? then objects
      else Saved(objects, EvolvedMetadata(meta.value, e, now).value, faults)
  }

  /** What the catalog's users have been shown so far: nothing, or a created table and the
      operations published on it. */
  datatype View = Missing | Present(t0: Table, ops: seq<Op>)

  /** The view after the attempt. An operation becomes visible exactly when its hint is
      written, that is, when no mandatory put before fails and that of the hint takes effect. */
  function NextView(cfg: Config, objects: Objects, v: View, a: Attempt): View {
    match a
    case CreateAttempt(m, faults) =>
      if v.Missing? && SaveShown(objects, faults) then Present(Table(map[], m), []) else v
    case CommitAttempt(snap, now, faults) =>
      if v.Present? && MustPutsSucceed(snap, faults) && SaveShown(objects, faults)
      then Present(v.t0, v.ops + [Commit(snap, EnvFor(snap, now, faults))]) else v
    case EvolveAttempt(e, now, faults) =>
      if v.Present? && EvolvedMetadata(Fold(cfg, v.t0, v.ops).meta, e, now).Ok? && SaveShown(objects, faults)
      then Present(v.t0, v.ops + [Evolve(e, now)]) else v
  }

  /** The store shows exactly this view: the hint names a version holding the metadata of the
      sequential history, and every object of that history is in place. */
  ghost predicate Shows(cfg: Config, objects: Objects, v: View) {
    match v
    case Missing => HintPath !in objects && VersionPath(0) !in objects
    case Present(t0, ops) =>
      && IsNew(t0)
      && DistinctIds(ops)
      && HintPath in objects && objects[HintPath].VersionHint? && Version(objects) > 0
      && Load(objects) == Some(Fold(cfg, t0, ops).meta)
      && SubMap(Fold(cfg, t0, ops).objects, objects)
  }

  /** What the caller owes: created metadata is new, and a snapshot id is not that of a
      visible commit (reusing the id of a failed attempt is fine). */
  ghost predicate Allowed(v: View, a: Attempt) {
    match a
    case CreateAttempt(m, _) => IsNew(Table(map[], m))
    case CommitAttempt(snap, _, _) => v.Present? ==> Unused(v.ops, snap.id)
    case EvolveAttempt(_, _, _) => true
  }

  // ---- a commit on top of leftovers ----------------------------------------------

  /** Only paths of the commit's own snapshot are touched before the metadata is saved. */
  lemma {:induction false} BuildFrame(cfg: Config, t: Table, snap: NewSnapshot, now: int, faults: Faults)
    ensures var o := BuildObjects(cfg, t, snap, now, faults);
      forall p: Path :: !p.OfSnapshot(snap.id) ==> (p in o <==> p in t.objects) && (p in o ==> o[p] == t.objects[p])
  {
    hide DataManifestOf, DeleteManifestOf, CommitObjects;
    CommitFrame(cfg, t, snap, TakenEnv(snap, now, faults));
  }

  lemma {:induction false} KeysOfHistory(cfg: Config, t0: Table, ops: seq<Op>, id: SnapshotId)
    requires IsNew(t0) && Unused(ops, id)
    ensures forall p :: p in Fold(cfg, t0, ops).objects ==> p.IsCommitPath() && p.snapshot != id
  {
    hide Fold, Unused;
    FoldKeys(cfg, t0, ops);
  }

  /** Whatever is recorded is in the store. */
  predicate Covers(taken: Env, env: Env) {
    (env.puffinStored ==> taken.puffinStored) && (env.partitionStatsStored ==> taken.partitionStatsStored)
  }

  /** The objects of a commit come on top of what was there. */
  lemma {:induction false} ManifestsOnTop(cfg: Config, t: Table, snap: NewSnapshot, env: Env)
    requires forall p :: p in t.objects ==> !p.OfSnapshot(snap.id)
    ensures var a := CommitManifests(cfg, t, snap, env);
      && SubMap(t.objects, a)
      && DataManifestPath(snap.id) in a
      && (snap.equalityDeletes != [] ==> DeleteManifestPath(snap.id) in a)
      && PartitionStatsPath(snap.id) !in a
  {
    hide DataManifestOf, DeleteManifestOf, PuffinOf, WantsPuffin, Inherited, ManifestsOf;
  }

  lemma {:induction false} ManifestsOntoLeftovers(
    cfg: Config, t: Table, objects: Objects, snap: NewSnapshot, env: Env, taken: Env)
    requires SubMap(t.objects, objects) && Covers(taken, env)
    requires forall p :: p in t.objects ==> !p.OfSnapshot(snap.id)
    requires Inherited(objects, t.meta, snap.operation) == Inherited(t.objects, t.meta, snap.operation)
    ensures var a, b := CommitManifests(cfg, t, snap, env), CommitManifests(cfg, Table(objects, t.meta), snap, taken);
      SubMap(a, b)
  {
    hide DataManifestOf, DeleteManifestOf, PuffinOf, WantsPuffin, Inherited, ManifestsOf;
  }

  lemma {:induction false} EntriesOntoLeftovers(a: Objects, b: Objects, inherited: seq<ManifestRef>, snap: NewSnapshot)
    requires SubMap(a, b)
    requires forall m :: m in inherited ==> m.path in a
    requires DataManifestPath(snap.id) in a && (snap.equalityDeletes != [] ==> DeleteManifestPath(snap.id) in a)
    ensures DataEntries(a, ManifestsOf(inherited, snap)) == DataEntries(b, ManifestsOf(inherited, snap))
  {
    var ms := ManifestsOf(inherited, snap);
    forall m | m in ms ensures m.path in a {
      if m !in inherited {
        assert m.path == DataManifestPath(snap.id) || (snap.equalityDeletes != [] && m.path == DeleteManifestPath(snap.id));
      }
    }
    hide ManifestsOf, DataEntries;
    SameEntries(a, b, ms);
  }

  lemma {:induction false} InheritedOntoLeftovers(t: Table, objects: Objects, op: Operation)
    requires SubMap(t.objects, objects)
    requires t.meta.snapshots != [] ==> t.meta.snapshots[|t.meta.snapshots| - 1].manifestList in t.objects
    ensures Inherited(objects, t.meta, op) == Inherited(t.objects, t.meta, op)
  {
  }

  /** A commit built in a store holding more than the visible table writes the same objects,
      besides statistics files that it does not record. */
  lemma {:induction false} CommitOntoLeftovers(
    cfg: Config, t: Table, objects: Objects, snap: NewSnapshot, env: Env, taken: Env)
    requires SubMap(t.objects, objects) && Covers(taken, env)
    requires t.meta.snapshots != [] ==> t.meta.snapshots[|t.meta.snapshots| - 1].manifestList in t.objects
    requires forall m :: m in Inherited(t.objects, t.meta, snap.operation) ==> m.path in t.objects
    requires forall p :: p in t.objects ==> !p.OfSnapshot(snap.id)
    ensures SubMap(CommitObjects(cfg, t, snap, env), CommitObjects(cfg, Table(objects, t.meta), snap, taken))
  {
    hide CommitManifests, WantsPartitionStats, Inherited, ManifestsOf, DataEntries;
    var inherited := Inherited(t.objects, t.meta, snap.operation);
    InheritedOntoLeftovers(t, objects, snap.operation);
    ManifestsOnTop(cfg, t, snap, env);
    ManifestsOntoLeftovers(cfg, t, objects, snap, env, taken);
    EntriesOntoLeftovers(CommitManifests(cfg, t, snap, env), CommitManifests(cfg, Table(objects, t.meta), snap, taken),
                         inherited, snap);
  }

  // ---- every attempt keeps the store readable ------------------------------------

  lemma {:induction false} SaveShows(cfg: Config, objects: Objects, v: View, meta: Metadata, faults: Faults, next: View)
    requires Shows(cfg, objects, v)
    requires SaveShown(objects, faults) ==>
      && next.Present? && IsNew(next.t0) && DistinctIds(next.ops)
      && meta == Fold(cfg, next.t0, next.ops).meta
      && SubMap(Fold(cfg, next.t0, next.ops).objects, objects)
    requires !SaveShown(objects, faults) ==> next == v
    ensures Shows(cfg, Saved(objects, meta, faults), next)
  {
    hide Fold, DistinctIds;
    if v.Present? {
      FoldKeys(cfg, v.t0, v.ops);
    }
    if next.Present? {
      FoldKeys(cfg, next.t0, next.ops);
    }
    hide IsNew, Unused;
  }

  /** The unfinished build of a commit is invisible. */
  lemma {:induction false} BuildShows(cfg: Config, objects: Objects, v: View, meta: Metadata, snap: NewSnapshot, now: int, faults: Faults)
    requires Shows(cfg, objects, v) && v.Present? && Unused(v.ops, snap.id)
    ensures var o := BuildObjects(cfg, Table(objects, meta), snap, now, faults);
      Shows(cfg, o, v) && Version(o) == Version(objects)
  {
    hide Fold, BuildObjects, DistinctIds, Unused;
    BuildFrame(cfg, Table(objects, meta), snap, now, faults);
    KeysOfHistory(cfg, v.t0, v.ops, snap.id);
  }

  /** A finished build holds every object of the history extended by the commit. */
  lemma {:induction false} BuildComplete(cfg: Config, objects: Objects, v: View, snap: NewSnapshot, now: int, faults: Faults)
    requires Shows(cfg, objects, v) && v.Present? && Unused(v.ops, snap.id) && MustPutsSucceed(snap, faults)
    ensures var env := EnvFor(snap, now, faults);
      var t, ops := Fold(cfg, v.t0, v.ops), v.ops + [Commit(snap, env)];
      && DistinctIds(ops)
      && Fold(cfg, v.t0, ops).meta == CommittedMetadata(cfg, t.meta, snap, env)
      && SubMap(Fold(cfg, v.t0, ops).objects, BuildObjects(cfg, Table(objects, t.meta), snap, now, faults))
  {
    hide CommitTable, CommitObjects, CommittedMetadata, Inherited, Load, Unused, SubMap;
    var env := EnvFor(snap, now, faults);
    var t, ops := Fold(cfg, v.t0, v.ops), v.ops + [Commit(snap, env)];
    assert ops[..|ops| - 1] == v.ops;
    assert Fold(cfg, v.t0, ops) == CommitTable(cfg, t, snap, env);
    hide Fold;
    CommittedTable(cfg, t, snap, env);
    AppendDistinct(v.ops, Commit(snap, env));
    var here, taken := Table(objects, t.meta), TakenEnv(snap, now, faults);
    assert BuildObjects(cfg, here, snap, now, faults) == CommitObjects(cfg, here, snap, taken);
    hide BuildObjects, DistinctIds;
    KeysOfHistory(cfg, v.t0, v.ops, snap.id);
    ListStored(cfg, v.t0, v.ops);
    CommitOntoLeftovers(cfg, t, objects, snap, env, taken);
  }

  lemma {:induction false} CommittedTable(cfg: Config, t: Table, snap: NewSnapshot, env: Env)
    ensures CommitTable(cfg, t, snap, env) == Table(CommitObjects(cfg, t, snap, env), CommittedMetadata(cfg, t.meta, snap, env))
  {
    hide CommitObjects, CommittedMetadata;
  }

  lemma {:induction false} AppendDistinct(ops: seq<Op>, op: Op)
    requires DistinctIds(ops) && (op.Commit? ==> Unused(ops, op.snap.id))
    ensures DistinctIds(ops + [op])
  {
  }

  /** Whatever puts fail, the store shows exactly the next view: the old table until the hint
      is written, the complete new table afterwards. */
  lemma {:induction false} AttemptShows(cfg: Config, objects: Objects, v: View, a: Attempt)
    requires Shows(cfg, objects, v) && Allowed(v, a)
    ensures Shows(cfg, Attempted(cfg, objects, a), NextView(cfg, objects, v, a))
  {
    match a
    case CreateAttempt(m, faults) => CreateShows(cfg, objects, v, a);
    case CommitAttempt(snap, now, faults) => CommitShows(cfg, objects, v, a);
    case EvolveAttempt(e, now, faults) => EvolveShows(cfg, objects, v, a);
  }

  lemma {:induction false} CreateShows(cfg: Config, objects: Objects, v: View, a: Attempt)
    requires Shows(cfg, objects, v) && Allowed(v, a) && a.CreateAttempt?
    ensures Shows(cfg, Attempted(cfg, objects, a), NextView(cfg, objects, v, a))
  {
    if v.Missing? {
      SaveShows(cfg, objects, v, a.meta, a.faults, NextView(cfg, objects, v, a));
    } else {
      ShowsVersion(cfg, objects, v);
    }
  }

  lemma {:induction false} ShowsVersion(cfg: Config, objects: Objects, v: View)
    requires Shows(cfg, objects, v)
    ensures v.Missing? ==> Load(objects) == None && Version(objects) == 0
    ensures v.Present? ==> Load(objects) == Some(Fold(cfg, v.t0, v.ops).meta) && Version(objects) > 0
  {
    hide Fold;
  }

  lemma {:induction false} CommitShows(cfg: Config, objects: Objects, v: View, a: Attempt)
    requires Shows(cfg, objects, v) && Allowed(v, a) && a.CommitAttempt?
    ensures Shows(cfg, Attempted(cfg, objects, a), NextView(cfg, objects, v, a))
  {
    hide Fold, BuildObjects, CommittedMetadata, Saved, MustPutsSucceed, Unused;
    ShowsVersion(cfg, objects, v);
    if v.Present? {
      var meta := Load(objects).value;
      var o := BuildObjects(cfg, Table(objects, meta), a.snap, a.now, a.faults);
      BuildShows(cfg, objects, v, meta, a.snap, a.now, a.faults);
      if MustPutsSucceed(a.snap, a.faults) {
        BuildComplete(cfg, objects, v, a.snap, a.now, a.faults);
        var env := EnvFor(a.snap, a.now, a.faults);
        assert SaveShown(o, a.faults) == SaveShown(objects, a.faults);
        assert IsNew(v.t0);
        hide Shows;
        SaveShows(cfg, o, v, CommittedMetadata(cfg, meta, a.snap, env), a.faults, NextView(cfg, objects, v, a));
      }
    }
  }

  lemma {:induction false} EvolveShows(cfg: Config, objects: Objects, v: View, a: Attempt)
    requires Shows(cfg, objects, v) && Allowed(v, a) && a.EvolveAttempt?
    ensures Shows(cfg, Attempted(cfg, objects, a), NextView(cfg, objects, v, a))
  {
    hide EvolvedMetadata, Saved, CommitTable, Load, SaveShown;
    ShowsVersion(cfg, objects, v);
    if v.Present? {
      var meta := Fold(cfg, v.t0, v.ops).meta;
      var m := EvolvedMetadata(meta, a.evolution, a.now);
      if m.Ok? {
        var ops := v.ops + [Evolve(a.evolution, a.now)];
        assert ops[..|ops| - 1] == v.ops;
        SaveShows(cfg, objects, v, m.value, a.faults, NextView(cfg, objects, v, a));
      }
    }
  }

  // ---- whole runs ----------------------------------------------------------------

  function RunAttempts(cfg: Config, attempts: seq<Attempt>): Objects {
    if attempts == [] then map[]
    else Attempted(cfg, RunAttempts(cfg, attempts[..|attempts| - 1]), attempts[|attempts| - 1])
  }

  function ViewAfter(cfg: Config, attempts: seq<Attempt>): View {
    if attempts == [] then Missing
    else
      var before := attempts[..|attempts| - 1];
      NextView(cfg, RunAttempts(cfg, before), ViewAfter(cfg, before), attempts[|attempts| - 1])
  }

  ghost predicate AllAllowed(cfg: Config, attempts: seq<Attempt>) {
    forall k :: 0 <= k < |attempts| ==> Allowed(ViewAfter(cfg, attempts[..k]), attempts[k])
  }

  lemma {:induction false} RunShows(cfg: Config, attempts: seq<Attempt>)
    requires AllAllowed(cfg, attempts)
    ensures Shows(cfg, RunAttempts(cfg, attempts), ViewAfter(cfg, attempts))
  {
    hide Attempted, NextView, Allowed;
    if attempts != [] {
      var before := attempts[..|attempts| - 1];
      assert forall k :: 0 <= k < |before| ==> before[..k] == attempts[..k];
      RunShows(cfg, before);
      hide Shows;
      AttemptShows(cfg, RunAttempts(cfg, before), ViewAfter(cfg, before), attempts[|attempts| - 1]);
    }
  }

  /** Crash atomicity, over every run of attempts from an empty store and every set of failing
      puts: a reader loads the metadata of exactly the visible operations, every snapshot of
      theirs lists what it listed when it was made, and the current one lists everything
      since the last Overwrite or Replace. */
  lemma {:induction false} CrashAtomic(cfg: Config, attempts: seq<Attempt>)
    requires AllAllowed(cfg, attempts) && ViewAfter(cfg, attempts).Present?
    ensures var o, v := RunAttempts(cfg, attempts), ViewAfter(cfg, attempts);
      && Load(o) == Some(Fold(cfg, v.t0, v.ops).meta)
      && ListFiles(o, Load(o).value, None) == Ok(ListingFrom(cfg, v.t0, v.ops, LastReset(v.ops)))
      && ListDeletes(o, Load(o).value, None) == DeleteListingFrom(cfg, v.ops, LastReset(v.ops))
  {
    hide Fold, ListingFrom, DeleteListingFrom, LastReset, ListFiles, ListDeletes, RunAttempts, ViewAfter, AllAllowed;
    RunShows(cfg, attempts);
    var o, v := RunAttempts(cfg, attempts), ViewAfter(cfg, attempts);
    CurrentListing(cfg, v.t0, v.ops);
    SameListing(o, Fold(cfg, v.t0, v.ops), None);
  }

  lemma {:induction false} CrashAtomicTimeTravel(cfg: Config, attempts: seq<Attempt>, j: nat)
    requires AllAllowed(cfg, attempts) && ViewAfter(cfg, attempts).Present?
    requires j < |ViewAfter(cfg, attempts).ops| && ViewAfter(cfg, attempts).ops[j].Commit?
    ensures var o, v := RunAttempts(cfg, attempts), ViewAfter(cfg, attempts);
      var made := v.ops[..j + 1];
      && Load(o).Some?
      && ListFiles(o, Load(o).value, Some(v.ops[j].snap.id)) == Ok(ListingFrom(cfg, v.t0, made, LastReset(made)))
      && ListDeletes(o, Load(o).value, Some(v.ops[j].snap.id)) == DeleteListingFrom(cfg, made, LastReset(made))
  {
    hide Fold, ListingFrom, DeleteListingFrom, LastReset, ListFiles, ListDeletes, RunAttempts, ViewAfter, AllAllowed;
    RunShows(cfg, attempts);
    var o, v := RunAttempts(cfg, attempts), ViewAfter(cfg, attempts);
    SnapshotListing(cfg, v.t0, v.ops, j);
    SameListing(o, Fold(cfg, v.t0, v.ops), Some(v.ops[j].snap.id));
  }

  /** The loaded metadata gained a schema: the old columns renamed, the new ones added. */
  ghost predicate ColumnsReshaped(before: Option<Metadata>, e: Evolution, after: Option<Metadata>) {
    && before.Some? && after.Some? && |after.value.schemas| == |before.value.schemas| + 1
    && SchemaHistory.Reshaped(CurrentFields(before.value), e, before.value.lastColumnId, after.value.schemas[|before.value.schemas|].fields)
  }

  lemma {:induction false} EvolutionShown(cfg: Config, objects: Objects, v: View, e: Evolution, now: int, faults: Faults)
    requires Shows(cfg, objects, v)
    ensures var a := EvolveAttempt(e, now, faults);
      NextView(cfg, objects, v, a) != v ==> ColumnsReshaped(Load(objects), e, Load(Attempted(cfg, objects, a)))
  {
    hide Attempted, Load, SubMap, IsNew, DistinctIds, ApplyRenames, AddedFields, SchemaHistory.Reshaped, FindSchema, SaveShown;
    var a := EvolveAttempt(e, now, faults);
    AttemptShows(cfg, objects, v, a);
    if NextView(cfg, objects, v, a) != v {
      var meta, ops := Fold(cfg, v.t0, v.ops).meta, v.ops + [Evolve(e, now)];
      assert ops[..|ops| - 1] == v.ops;
      SchemaHistory.ReshapedBy(CurrentFields(meta), e, meta.lastColumnId);
    }
  }

  // ---- the catalog's methods -----------------------------------------------------

  lemma {:induction false} HistoryListsNamed(cfg: Config, t0: Table, ops: seq<Op>)
    requires IsNew(t0)
    ensures ListsNamed(Fold(cfg, t0, ops).meta)
  {
    hide ApplyOp;
    if ops != [] {
      HistoryListsNamed(cfg, t0, ops[..|ops| - 1]);
      OpSnapshots(cfg, Fold(cfg, t0, ops[..|ops| - 1]), ops[|ops| - 1]);
    }
  }

  class Catalog {
    const cfg: Config
    const store: ObjectStore
    ghost var view: View

    ghost predicate Valid()
      reads this, store
    {
      Shows(cfg, store.objects, view)
    }

    constructor (cfg: Config, store: ObjectStore)
      requires store.objects == map[]
      ensures Valid() && view == Missing && this.cfg == cfg && this.store == store
    {
      this.cfg := cfg;
      this.store := store;
      view := Missing;
    }

    method CurrentVersion() returns (v: nat)
      ensures v == Version(store.objects)
    {
      var hint := store.Get(HintPath);
      if hint.Err? {
        return 0;
      }
      v := if hint.value.VersionHint? then hint.value.version else 1;
    }

    method LoadRawMetadata() returns (r: Result<Metadata>)
      ensures r.Ok? <==> Load(store.objects).Some?
      ensures r.Ok? ==> r.value == Load(store.objects).value
    {
      var version := CurrentVersion();
      var c := store.Get(VersionPath(version));
      if c.Err? || !c.value.MetadataJson? {
        return Err("metadata not found");
      }
      r := Ok(c.value.meta);
    }

    method SaveMetadata(meta: Metadata) returns (ok: bool)
      modifies store`objects
      ensures ok <==> SaveSucceeds(old(store.objects), store.faults)
      ensures store.objects == Saved(old(store.objects), meta, store.faults)
    {
      var version := CurrentVersion();
      ok := store.Put(VersionPath(version + 1), MetadataJson(meta));
      if ok {
        ok := store.Put(HintPath, VersionHint(version + 1));
      }
    }

    method CreateTable(meta: Metadata) returns (ok: bool)
      requires Valid() && IsNew(Table(map[], meta))
      modifies this`view, store`objects
      ensures Valid()
      ensures view == NextView(cfg, old(store.objects), old(view), CreateAttempt(meta, store.faults))
      ensures store.objects == Attempted(cfg, old(store.objects), CreateAttempt(meta, store.faults))
      ensures ok <==> old(view).Missing? && view.Present? && store.faults.Answers(HintPath)
    {
      ghost var a, before := CreateAttempt(meta, store.faults), store.objects;
      AttemptShows(cfg, before, view, a);
      ShowsVersion(cfg, before, view);
      hide Fold, Shows;
      var version := CurrentVersion();
      ok := version == 0;
      if ok {
        ok := SaveMetadata(meta);
      }
      view := NextView(cfg, before, view, a);
    }

    /** Commit under the table lock. `lockFree` and `released` report the lock operations. A
        commit that returns its id is visible; a visible commit returns an error exactly when
        the lock could not be released or the put of the hint took effect unanswered. */
    method CommitSnapshot(snap: NewSnapshot, now: int, lockFree: bool, released: bool) returns (r: Result<SnapshotId>)
      requires Valid() && Allowed(view, CommitAttempt(snap, now, store.faults))
      modifies this`view, store`objects
      ensures Valid()
      ensures !lockFree ==> store.objects == old(store.objects) && view == old(view)
      ensures lockFree ==>
        && store.objects == Attempted(cfg, old(store.objects), CommitAttempt(snap, now, store.faults))
        && view == NextView(cfg, old(store.objects), old(view), CommitAttempt(snap, now, store.faults))
      ensures r.Ok? <==> lockFree && released && view != old(view) && store.faults.Answers(HintPath)
      ensures r.Ok? ==> r.value == snap.id
    {
      if !lockFree {
        return Err("table is being committed by another process");
      }
      hide Shows, Attempted, NextView, Allowed;
      var done := CommitLocked(snap, now);
      r := if !done then Err("commit failed") else if released then Ok(snap.id) else Err("lock not released");
    }

    /** Load, build, save: what happens while the lock is held. */
    method CommitLocked(snap: NewSnapshot, now: int) returns (done: bool)
      requires Valid() && Allowed(view, CommitAttempt(snap, now, store.faults))
      modifies this`view, store`objects
      ensures Valid()
      ensures store.objects == Attempted(cfg, old(store.objects), CommitAttempt(snap, now, store.faults))
      ensures view == NextView(cfg, old(store.objects), old(view), CommitAttempt(snap, now, store.faults))
      ensures done <==> view != old(view) && store.faults.Answers(HintPath)
    {
      hide Shows, Fold, BuildObjects, CommittedMetadata, Saved, Load, MustPutsSucceed, ListsNamed, Allowed;
      ghost var a, before := CommitAttempt(snap, now, store.faults), store.objects;
      CommitPrepared(cfg, before, view, a);
      view := NextView(cfg, before, view, a);
      var loaded := LoadRawMetadata();
      if loaded.Err? {
        return false;
      }
      var meta := new IcebergMetadata(loaded.value);
      var built := CommitIntoMetadata(store, cfg, meta, snap, now);
      done := built.Ok?;
      if done {
        var value := meta.Value();
        done := SaveMetadata(value);
      }
    }

    method EvolveSchema(e: Evolution, now: int) returns (done: bool)
      requires Valid()
      modifies this`view, store`objects
      ensures Valid()
      ensures store.objects == Attempted(cfg, old(store.objects), EvolveAttempt(e, now, store.faults))
      ensures view == NextView(cfg, old(store.objects), old(view), EvolveAttempt(e, now, store.faults))
      ensures done <==> view != old(view) && store.faults.Answers(HintPath)
      ensures view != old(view) ==> ColumnsReshaped(old(Load(store.objects)), e, Load(store.objects))
    {
      hide Fold, EvolvedMetadata, Saved, Load, ColumnsReshaped;
      ghost var a, before := EvolveAttempt(e, now, store.faults), store.objects;
      AttemptShows(cfg, before, view, a);
      EvolutionShown(cfg, before, view, e, now, store.faults);
      ShowsVersion(cfg, before, view);
      hide Shows;
      view := NextView(cfg, before, view, a);
      var loaded := LoadRawMetadata();
      if loaded.Err? {
        return false;
      }
      var meta := new IcebergMetadata(loaded.value);
      done := meta.Evolve(e, now);
      if done {
        var value := meta.Value();
        done := SaveMetadata(value);
      }
    }
  }

  /** What the locked part of a commit relies on. */
  lemma {:induction false} CommitPrepared(cfg: Config, objects: Objects, v: View, a: Attempt)
    requires Shows(cfg, objects, v) && Allowed(v, a) && a.CommitAttempt?
    ensures Shows(cfg, Attempted(cfg, objects, a), NextView(cfg, objects, v, a))
    ensures Load(objects).Some? <==> v.Present?
    ensures v.Present? ==> ListsNamed(Load(objects).value)
    ensures v.Present? ==>
      Version(BuildObjects(cfg, Table(objects, Load(objects).value), a.snap, a.now, a.faults)) == Version(objects)
  {
    hide Fold, BuildObjects, Attempted, NextView, Unused, Load, ListsNamed;
    AttemptShows(cfg, objects, v, a);
    ShowsVersion(cfg, objects, v);
    if v.Present? {
      assert IsNew(v.t0);
      HistoryListsNamed(cfg, v.t0, v.ops);
      hide Shows;
      BuildShows(cfg, objects, v, Load(objects).value, a.snap, a.now, a.faults);
    }
  }
}
