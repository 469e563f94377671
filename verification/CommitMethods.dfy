/** The shared commit program as it is written: loops over mutable buffers, one store access
    after the other, metadata updated in place. Every method is proved against CommitSpec. */
module CommitMethods {
  import opened Wrappers
  import opened TableModel
  import opened CommitSpec
  import CommittedEntries
  import SchemaHistory

  /** Which puts fail: the refused ones without any effect (an I/O error, or everything after
      the point where the process dies), the unanswered ones after they took effect. */
  datatype Faults = Faults(refused: set<Path>, unanswered: set<Path>) {
    predicate Takes(p: Path) {
      p !in refused
    }

    predicate Answers(p: Path) {
      p !in refused && p !in unanswered
    }
  }

  /** An object store; reads of stored objects succeed. */
  class ObjectStore {
    var objects: Objects
    var faults: Faults

    constructor (faults: Faults)
      ensures objects == map[] && this.faults == faults
    {
      objects := map[];
      this.faults := faults;
    }

    method Get(p: Path) returns (r: Result<Content>)
      ensures r == if p in objects then Ok(objects[p]) else Err("not found")
    {
      if p in objects {
        r := Ok(objects[p]);
      } else {
        r := Err("not found");
      }
    }

    method Put(p: Path, c: Content) returns (ok: bool)
      modifies this`objects
      ensures ok <==> faults.Answers(p)
      ensures objects == PutIf(old(objects), faults.Takes(p), p, c)
    {
      ok := faults.Answers(p);
      if faults.Takes(p) {
        objects := objects[p := c];
      }
    }
  }

  // ---- artifacts -----------------------------------------------------------------

  datatype SchemaPatch = SchemaPatch(
    fields: seq<Field>, lastColumnId: int, nameMapping: string, remappedSpecs: seq<Spec>)

  datatype Artifacts = Artifacts(
    snapshot: Snapshot,
    nextRowId: int,
    lastSequenceNumber: int,
    lastUpdatedMs: int,
    schemaPatch: Option<SchemaPatch>,
    properties: map<string, string>,
    statistics: Option<StatsRef>,
    partitionStatistics: Option<StatsRef>)

  function PatchOf(meta: Metadata, snap: NewSnapshot): Option<SchemaPatch> {
    if snap.schemaUpdate.None? then None
    else
      var u := snap.schemaUpdate.value;
      Some(SchemaPatch(u.fields, u.lastColumnId, u.nameMapping, RemapSpecs(u, meta.partitionSpecs)))
  }

  /** The bundle a successful build hands over. */
  function ArtifactsOf(cfg: Config, meta: Metadata, snap: NewSnapshot, env: Env): Artifacts {
    Artifacts(
      NewSnapshotRecord(meta, snap, env.now), NextRowId(meta, snap), meta.lastSequenceNumber + 1, env.now,
      PatchOf(meta, snap), snap.properties,
      PuffinRef(cfg, meta, snap, env), PartitionStatsRef(meta, snap, env))
  }

  // ---- building a commit ---------------------------------------------------------

  /** What the row-id loop does to one file. */
  function PlaceOne(f: DataFile, next: int): DataFile {
    if f.firstRowId.None? then f.(firstRowId := Some(next)) else f
  }

  function AfterOne(f: DataFile, next: int): int {
    if f.firstRowId.None? then next + f.recordCount else next
  }

  lemma {:induction false} AssignHead(done: seq<DataFile>, rest: seq<DataFile>, next: int)
    requires rest != []
    ensures done + AssignRowIds(rest, next) ==
      (done + [PlaceOne(rest[0], next)]) + AssignRowIds(rest[1..], AfterOne(rest[0], next))
    ensures next + FreshRows(rest) == AfterOne(rest[0], next) + FreshRows(rest[1..])
  {
  }

  /** The row-id loop: fresh files take the next free ids, preset ids are respected. */
  method AssignRowIdsInPlace(files: array<DataFile>, next: int) returns (after: int)
    modifies files
    ensures files[..] == AssignRowIds(old(files[..]), next)
    ensures after == next + FreshRows(old(files[..]))
  {
    hide AssignRowIds, FreshRows;
    ghost var was := files[..];
    after := next;
    var i := 0;
    assert files[..0] + AssignRowIds(was, next) == AssignRowIds(was, next) && was[0..] == was;
    while i < files.Length
      invariant 0 <= i <= files.Length
      invariant files[i..] == was[i..]
      invariant files[..i] + AssignRowIds(was[i..], after) == AssignRowIds(was, next)
      invariant after + FreshRows(was[i..]) == next + FreshRows(was)
    {
      ghost var done := files[..i];
      assert files[i] == was[i..][0] && was[i..][1..] == was[i + 1..];
      AssignHead(done, was[i..], after);
      if files[i].firstRowId.None? {
        files[i] := files[i].(firstRowId := Some(after));
        after := after + files[i].recordCount;
      }
      assert files[..i + 1] == done + [files[i]];
      i := i + 1;
    }
    assert was[i..] == [];
    NothingLeft(after);
    assert files[..] == files[..i] + [];
  }

  lemma {:induction false} NothingLeft(next: int)
    ensures AssignRowIds([], next) == [] && FreshRows([]) == 0
  {
  }

  /** The commit's file list, with row ids for V3 tables, and the advanced counter. */
  method PlaceNewFiles(cfg: Config, meta: Metadata, snap: NewSnapshot) returns (files: seq<DataFile>, nextRowId: int)
    ensures files == CommittedFiles(cfg, meta, snap)
    ensures nextRowId == NextRowId(meta, snap)
    ensures |files| == |snap.files|
    ensures forall i :: 0 <= i < |files| ==>
      var asked := CommittedEntries.Asked(snap.files[i], meta.lastSequenceNumber + 1);
      CommittedEntries.SameFile(cfg, asked, files[i]) && CommittedEntries.SameExtras(asked, files[i])
  {
    hide CommittedEntries.SameFile, CommittedEntries.SameExtras;
    var absolute := AbsoluteFiles(cfg, snap.files);
    nextRowId := meta.nextRowId;
    if meta.formatVersion >= 3 {
      var buffer := new DataFile[|absolute|](i requires 0 <= i < |absolute| => absolute[i]);
      assert buffer[..] == absolute;
      nextRowId := AssignRowIdsInPlace(buffer, nextRowId);
      FreshRowsAbsolute(cfg, snap.files);
      absolute := buffer[..];
    }
    files := StampFiles(absolute, meta.lastSequenceNumber + 1);
    forall i | 0 <= i < |files|
      ensures var asked := CommittedEntries.Asked(snap.files[i], meta.lastSequenceNumber + 1);
        CommittedEntries.SameFile(cfg, asked, files[i]) && CommittedEntries.SameExtras(asked, files[i])
    {
      CommittedEntries.PlacedAsAsked(cfg, meta.formatVersion >= 3, snap.files, meta.nextRowId, meta.lastSequenceNumber + 1, i);
    }
  }

  lemma {:induction false} FreshRowsAbsolute(cfg: Config, files: seq<DataFile>)
    ensures FreshRows(AbsoluteFiles(cfg, files)) == FreshRows(files)
  {
    if files != [] {
      FreshRowsAbsolute(cfg, files[1..]);
      assert AbsoluteFiles(cfg, files)[1..] == AbsoluteFiles(cfg, files[1..]);
    }
  }

  /** Manifests inherited from the previous snapshot, copied one by one. */
  method CollectManifests(store: ObjectStore, meta: Metadata, snap: NewSnapshot) returns (all: seq<ManifestRef>)
    ensures all == Inherited(store.objects, meta, snap.operation)
  {
    all := [];
    if snap.operation.Inherits() && meta.snapshots != [] {
      var list := store.Get(meta.snapshots[|meta.snapshots| - 1].manifestList);
      if list.Ok? && list.value.ManifestList? {
        var prev := list.value.manifests;
        var i := 0;
        while i < |prev|
          invariant 0 <= i <= |prev|
          invariant all == prev[..i]
        {
          all := all + [prev[i]];
          i := i + 1;
        }
        assert prev[..i] == prev;
      }
    }
  }

  /** What one manifest of the list contributes. */
  function EntriesIn(objects: Objects, m: ManifestRef): seq<DataFile> {
    if m.content == 0 && m.path in objects && objects[m.path].DataManifest? then objects[m.path].files else []
  }

  lemma {:induction false} EntriesHead(objects: Objects, done: seq<DataFile>, ms: seq<ManifestRef>)
    requires ms != []
    ensures done + DataEntries(objects, ms) == done + EntriesIn(objects, ms[0]) + DataEntries(objects, ms[1..])
  {
  }

  /** Every data entry reachable from the new manifest list. */
  method CollectDataEntries(store: ObjectStore, manifests: seq<ManifestRef>) returns (entries: seq<DataFile>)
    ensures entries == DataEntries(store.objects, manifests)
  {
    hide DataEntries;
    entries := [];
    var i := 0;
    assert manifests[0..] == manifests;
    while i < |manifests|
      invariant 0 <= i <= |manifests|
      invariant entries + DataEntries(store.objects, manifests[i..]) == DataEntries(store.objects, manifests)
    {
      assert manifests[i..][0] == manifests[i] && manifests[i..][1..] == manifests[i + 1..];
      EntriesHead(store.objects, entries, manifests[i..]);
      if manifests[i].content == 0 {
        var m := store.Get(manifests[i].path);
        if m.Ok? && m.value.DataManifest? {
          entries := entries + m.value.files;
        }
      }
      i := i + 1;
    }
    NoEntries(store.objects, manifests[i..]);
  }

  lemma {:induction false} NoEntries(objects: Objects, ms: seq<ManifestRef>)
    requires ms == []
    ensures DataEntries(objects, ms) == []
  {
  }

  /** The puts whose failure aborts the commit. */
  predicate MustPutsSucceed(snap: NewSnapshot, faults: Faults) {
    && faults.Answers(DataManifestPath(snap.id))
    && (snap.equalityDeletes != [] ==> faults.Answers(DeleteManifestPath(snap.id)))
    && faults.Answers(ManifestListPath(snap.id))
  }

  /** Which statistics files the commit records, and which it leaves in the store. */
  function EnvFor(snap: NewSnapshot, now: int, faults: Faults): Env {
    Env(now, faults.Answers(PuffinPath(snap.id)), faults.Answers(PartitionStatsPath(snap.id)))
  }

  function TakenEnv(snap: NewSnapshot, now: int, faults: Faults): Env {
    Env(now, faults.Takes(PuffinPath(snap.id)), faults.Takes(PartitionStatsPath(snap.id)))
  }

  /** What the build leaves in the store, whichever puts fail. */
  function BuildObjects(cfg: Config, t: Table, snap: NewSnapshot, now: int, faults: Faults): Objects {
    var o1 := PutIf(t.objects, faults.Takes(DataManifestPath(snap.id)), DataManifestPath(snap.id), DataManifestOf(cfg, t.meta, snap));
    var o2 := PutIf(o1, snap.equalityDeletes != [] && faults.Takes(DeleteManifestPath(snap.id)),
                    DeleteManifestPath(snap.id), DeleteManifestOf(cfg, t.meta, snap));
    if !faults.Answers(DataManifestPath(snap.id)) then o1
    else if snap.equalityDeletes != [] && !faults.Answers(DeleteManifestPath(snap.id)) then o2
    else if !faults.Answers(ManifestListPath(snap.id)) then
      PutIf(o2, faults.Takes(ManifestListPath(snap.id)), ManifestListPath(snap.id),
            ManifestList(ManifestsOf(Inherited(t.objects, t.meta, snap.operation), snap)))
    else CommitObjects(cfg, t, snap, TakenEnv(snap, now, faults))
  }

  /** Snapshots name their manifest list by the catalog's own convention. */
  ghost predicate ListsNamed(meta: Metadata) {
    forall s :: s in meta.snapshots ==> s.manifestList.ManifestListPath?
  }

  /** Write the commit's objects, in the order the catalog writes them, stopping at the first
      failed mandatory put; statistics files are best effort. */
  method BuildCommit(store: ObjectStore, cfg: Config, meta: Metadata, snap: NewSnapshot, now: int)
    returns (r: Result<Artifacts>)
    requires ListsNamed(meta)
    modifies store`objects
    ensures store.objects == BuildObjects(cfg, Table(old(store.objects), meta), snap, now, store.faults)
    ensures r.Ok? <==> MustPutsSucceed(snap, store.faults)
    ensures r.Ok? ==> r.value == ArtifactsOf(cfg, meta, snap, EnvFor(snap, now, store.faults))
  {
    hide RemapSpecs, ResolvePartitionSpec, DataEntries, VectorStatsOf, PlaceFiles, PlaceDeletes, FindSchema, FreshRows;
    ghost var t := Table(store.objects, meta);
    var files, nextRowId := PlaceNewFiles(cfg, meta, snap);
    var ok := store.Put(DataManifestPath(snap.id), DataManifest(Header(meta), DecodedFiles(cfg, Columns(meta), files)));
    if !ok {
      return Err("data manifest");
    }
    var inherited := CollectManifests(store, meta, snap);
    assert inherited == Inherited(t.objects, meta, snap.operation);
    if snap.equalityDeletes != [] {
      var deletes := PlaceDeletes(cfg, snap.equalityDeletes, meta.lastSequenceNumber + 1);
      ok := store.Put(DeleteManifestPath(snap.id), DeleteManifest(cfg.codec.deletes(snap.id, meta.lastSequenceNumber + 1, deletes)));
      if !ok {
        return Err("delete manifest");
      }
    }
    var all := ManifestsOf(inherited, snap);
    ok := store.Put(ManifestListPath(snap.id), ManifestList(all));
    if !ok {
      return Err("manifest list");
    }
    var env := TakenEnv(snap, now, store.faults);
    var statistics := WritePuffin(store, cfg, meta, snap, files);
    assert store.objects == CommitManifests(cfg, t, snap, env);
    hide Inherited, ManifestsOf, WantsPuffin, CommitManifests;
    var partitionStatistics := WritePartitionStats(store, meta, snap, all);
    r := Ok(Artifacts(NewSnapshotRecord(meta, snap, now), nextRowId, meta.lastSequenceNumber + 1, now,
                      PatchOf(meta, snap), snap.properties, statistics, partitionStatistics));
  }

  /** Vector statistics of a V3 commit; a failed put is only logged. */
  method WritePuffin(store: ObjectStore, cfg: Config, meta: Metadata, snap: NewSnapshot, files: seq<DataFile>)
    returns (ref: Option<StatsRef>)
    requires files == CommittedFiles(cfg, meta, snap)
    modifies store`objects
    ensures store.objects == PutIf(old(store.objects), WantsPuffin(cfg, meta, snap) && store.faults.Takes(PuffinPath(snap.id)),
                                   PuffinPath(snap.id), PuffinOf(cfg, meta, snap))
    ensures ref == if WantsPuffin(cfg, meta, snap) && store.faults.Answers(PuffinPath(snap.id))
                   then Some(StatsRef(snap.id, PuffinPath(snap.id))) else None
  {
    ref := None;
    if meta.formatVersion >= 3 {
      var stats := VectorStatsOf(files);
      if stats != [] {
        var ok := store.Put(PuffinPath(snap.id), Puffin(stats, snap.blooms));
        if ok {
          ref := Some(StatsRef(snap.id, PuffinPath(snap.id)));
        }
      }
    }
  }

  /** Partition statistics over every data manifest of the new list; best effort. */
  method WritePartitionStats(store: ObjectStore, meta: Metadata, snap: NewSnapshot, all: seq<ManifestRef>)
    returns (ref: Option<StatsRef>)
    modifies store`objects
    ensures store.objects ==
      if WantsPartitionStats(meta) && store.faults.Takes(PartitionStatsPath(snap.id))
      then old(store.objects)[PartitionStatsPath(snap.id) := PartitionStatsOf(old(store.objects), meta, all)]
      else old(store.objects)
    ensures ref == if WantsPartitionStats(meta) && store.faults.Answers(PartitionStatsPath(snap.id))
                   then Some(StatsRef(snap.id, PartitionStatsPath(snap.id))) else None
  {
    ref := None;
    var spec := ResolvePartitionSpec(meta);
    if spec.Some? {
      var entries := CollectDataEntries(store, all);
      var ok := store.Put(PartitionStatsPath(snap.id), PartitionStats(spec.value, entries));
      if ok {
        ref := Some(StatsRef(snap.id, PartitionStatsPath(snap.id)));
      }
    }
  }

  // ---- metadata updated in place -------------------------------------------------

  function Patched(m: Metadata, patch: SchemaPatch): Metadata {
    m.(partitionSpecs := patch.remappedSpecs,
       schemas := if m.schemas == [] then [] else m.schemas[0 := m.schemas[0].(fields := patch.fields)],
       lastColumnId := patch.lastColumnId,
       properties := m.properties["schema.name-mapping.default" := patch.nameMapping])
  }

  /** Metadata after a bundle of artifacts has been applied to it. */
  function Applied(m: Metadata, a: Artifacts): Metadata {
    var m1 := Advanced(m, a.snapshot, a.lastSequenceNumber, if m.formatVersion >= 3 then a.nextRowId else m.nextRowId,
                       a.lastUpdatedMs);
    var m2 := if a.schemaPatch.Some? then Patched(m1, a.schemaPatch.value) else m1;
    Recorded(m2, a.properties, a.statistics, a.partitionStatistics)
  }

  /** The patch computed before the commit does to the advanced metadata what the update does. */
  lemma {:induction false} PatchIsUpdate(meta: Metadata, m: Metadata, snap: NewSnapshot)
    requires snap.schemaUpdate.Some? && m.partitionSpecs == meta.partitionSpecs
    ensures Patched(m, PatchOf(meta, snap).value) == PatchSchema(m, snap.schemaUpdate.value)
  {
    hide RemapSpecs;
  }

  lemma {:induction false} AdvancedSpecs(m: Metadata, record: Snapshot, sequenceNumber: int, nextRowId: int, now: int)
    ensures Advanced(m, record, sequenceNumber, nextRowId, now).partitionSpecs == m.partitionSpecs
  {
  }

  /** Building and applying a commit produces the metadata the history results speak of. */
  lemma {:induction false} AppliedIsCommitted(cfg: Config, m: Metadata, snap: NewSnapshot, env: Env)
    ensures Applied(m, ArtifactsOf(cfg, m, snap, env)) == CommittedMetadata(cfg, m, snap, env)
  {
    hide PuffinRef, PartitionStatsRef, FreshRows, NewSnapshotRecord, Advanced, Recorded, Patched, PatchSchema;
    var record := NewSnapshotRecord(m, snap, env.now);
    var m1 := Advanced(m, record, m.lastSequenceNumber + 1, NextRowId(m, snap), env.now);
    AdvancedSpecs(m, record, m.lastSequenceNumber + 1, NextRowId(m, snap), env.now);
    if snap.schemaUpdate.Some? {
      PatchIsUpdate(m, m1, snap);
    }
  }

  /** `metadata.json` in memory. */
  class IcebergMetadata {
    var formatVersion: int
    var lastSequenceNumber: int
    var nextRowId: int
    var lastUpdatedMs: int
    var lastColumnId: int
    var schemas: seq<Schema>
    var currentSchemaId: int
    var partitionSpecs: seq<Spec>
    var defaultSpecId: int
    var properties: map<string, string>
    var currentSnapshotId: Option<SnapshotId>
    var snapshots: seq<Snapshot>
    var statistics: seq<StatsRef>
    var partitionStatistics: seq<StatsRef>

    function Value(): Metadata
      reads this
    {
      Metadata(formatVersion, lastSequenceNumber, nextRowId, lastUpdatedMs, lastColumnId, schemas, currentSchemaId,
               partitionSpecs, defaultSpecId, properties, currentSnapshotId, snapshots, statistics, partitionStatistics)
    }

    constructor (m: Metadata)
      ensures Value() == m
    {
      formatVersion, lastSequenceNumber, nextRowId := m.formatVersion, m.lastSequenceNumber, m.nextRowId;
      lastUpdatedMs, lastColumnId, schemas := m.lastUpdatedMs, m.lastColumnId, m.schemas;
      currentSchemaId, partitionSpecs, defaultSpecId := m.currentSchemaId, m.partitionSpecs, m.defaultSpecId;
      properties, currentSnapshotId, snapshots := m.properties, m.currentSnapshotId, m.snapshots;
      statistics, partitionStatistics := m.statistics, m.partitionStatistics;
    }

    /** The schema part of a commit: it always rewrites the first schema. */
    method ApplyPatch(patch: SchemaPatch)
      modifies this
      ensures Value() == Patched(old(Value()), patch)
    {
      partitionSpecs := patch.remappedSpecs;
      if schemas != [] {
        schemas := schemas[0 := schemas[0].(fields := patch.fields)];
      }
      lastColumnId := patch.lastColumnId;
      properties := properties["schema.name-mapping.default" := patch.nameMapping];
    }

    /** Apply a build's artifacts. */
    method ApplyCommit(a: Artifacts)
      modifies this
      ensures Value() == Applied(old(Value()), a)
    {
      hide Patched;
      Advance(a);
      if a.schemaPatch.Some? {
        ApplyPatch(a.schemaPatch.value);
      }
      Record(a);
    }

    method Advance(a: Artifacts)
      modifies this
      ensures Value() == Advanced(old(Value()), a.snapshot, a.lastSequenceNumber,
                                  if old(formatVersion) >= 3 then a.nextRowId else old(nextRowId), a.lastUpdatedMs)
    {
      lastSequenceNumber := a.lastSequenceNumber;
      lastUpdatedMs := a.lastUpdatedMs;
      currentSnapshotId := Some(a.snapshot.id);
      if formatVersion >= 3 {
        nextRowId := a.nextRowId;
      }
      snapshots := snapshots + [a.snapshot];
    }

    method Record(a: Artifacts)
      modifies this
      ensures Value() == Recorded(old(Value()), a.properties, a.statistics, a.partitionStatistics)
    {
      properties := properties + a.properties;
      if a.statistics.Some? {
        statistics := statistics + [a.statistics.value];
      }
      if a.partitionStatistics.Some? {
        partitionStatistics := partitionStatistics + [a.partitionStatistics.value];
      }
    }

    /** Renames first, then additions with fresh ids, then the new schema becomes current. */
    method Evolve(e: Evolution, now: int) returns (ok: bool)
      modifies this
      ensures ok <==> EvolvedMetadata(old(Value()), e, now).Ok?
      ensures Value() == if ok then EvolvedMetadata(old(Value()), e, now).value else old(Value())
      ensures ok ==>
        && |schemas| == |old(schemas)| + 1
        && SchemaHistory.Reshaped(old(CurrentFields(Value())), e, old(lastColumnId), schemas[|schemas| - 1].fields)
    {
      hide FindSchema, ApplyRenames, AddedFields, SchemaHistory.Reshaped;
      var current := FindSchema(schemas, currentSchemaId);
      if current.None? {
        return false;
      }
      var fields := RenameColumns(current.value.fields, e.renames);
      var added, lastColId := AddColumns(e.adds, lastColumnId);
      SchemaHistory.ReshapedBy(current.value.fields, e, lastColumnId);
      fields := fields + added;
      Adopt(fields, lastColId, now, e.properties);
      ok := true;
    }

    /** The fields become a new schema, which becomes current. */
    method Adopt(fields: seq<Field>, lastColId: int, now: int, extra: map<string, string>)
      modifies this
      ensures Value() == old(Value()).(schemas := old(schemas) + [Schema(old(currentSchemaId) + 1, fields)],
                                       currentSchemaId := old(currentSchemaId) + 1,
                                       lastColumnId := lastColId,
                                       lastUpdatedMs := now,
                                       properties := old(properties) + extra)
    {
      schemas := schemas + [Schema(currentSchemaId + 1, fields)];
      currentSchemaId := currentSchemaId + 1;
      lastColumnId := lastColId;
      lastUpdatedMs := now;
      properties := properties + extra;
    }
  }

  /** Added columns take the next field ids, in request order. */
  method AddColumns(adds: seq<AddColumn>, lastColumnId: int) returns (added: seq<Field>, lastColId: int)
    ensures added == AddedFields(adds, lastColumnId) && lastColId == lastColumnId + |adds|
  {
    hide AddedField;
    added, lastColId := [], lastColumnId;
    for i := 0 to |adds|
      invariant lastColId == lastColumnId + i
      invariant added == AddedFields(adds, lastColumnId)[..i]
    {
      lastColId := lastColId + 1;
      added := added + [AddedField(lastColId, adds[i])];
    }
    assert AddedFields(adds, lastColumnId)[..|adds|] == AddedFields(adds, lastColumnId);
  }

  /** Every rename is applied to every field carrying its old name, in request order. */
  method RenameColumns(fields: seq<Field>, renames: seq<Rename>) returns (out: seq<Field>)
    ensures out == ApplyRenames(fields, renames)
    ensures |out| == |fields|
    ensures forall i :: 0 <= i < |out| ==> out[i] == fields[i].(name := SchemaHistory.NameAfter(renames, fields[i].name))
  {
    out := fields;
    var r := 0;
    while r < |renames|
      invariant 0 <= r <= |renames|
      invariant ApplyRenames(out, renames[r..]) == ApplyRenames(fields, renames)
    {
      ghost var before := out;
      var i := 0;
      while i < |out|
        invariant 0 <= i <= |out| == |before|
        invariant forall k :: 0 <= k < |out| ==> out[k] == if k < i then RenameField(renames[r], before[k]) else before[k]
      {
        if out[i].name == renames[r].oldName {
          out := out[i := out[i].(name := renames[r].newName)];
        }
        i := i + 1;
      }
      assert out == ApplyRename(before, renames[r]);
      assert renames[r..][0] == renames[r] && renames[r..][1..] == renames[r + 1..];
      r := r + 1;
    }
    assert renames[r..] == [];
    SchemaHistory.RenamesKeepColumns(fields, renames);
    forall i | 0 <= i < |out| ensures out[i] == fields[i].(name := SchemaHistory.NameAfter(renames, fields[i].name)) {
      SchemaHistory.RenamesByName(fields, renames, i);
    }
  }

  /** Build and apply in one call; the metadata changes only when the build succeeded. */
  method CommitIntoMetadata(store: ObjectStore, cfg: Config, meta: IcebergMetadata, snap: NewSnapshot, now: int)
    returns (r: Result<SnapshotId>)
    requires ListsNamed(meta.Value())
    modifies store`objects, meta
    ensures store.objects == BuildObjects(cfg, Table(old(store.objects), old(meta.Value())), snap, now, store.faults)
    ensures r.Ok? <==> MustPutsSucceed(snap, store.faults)
    ensures r.Ok? ==> r.value == snap.id
    ensures meta.Value() == if r.Ok? then CommittedMetadata(cfg, old(meta.Value()), snap, EnvFor(snap, now, store.faults))
                            else old(meta.Value())
  {
    hide BuildObjects, CommittedMetadata, Applied;
    var m := meta.Value();
    var built := BuildCommit(store, cfg, m, snap, now);
    if built.Err? {
      return Err(built.error);
    }
    AppliedIsCommitted(cfg, m, snap, EnvFor(snap, now, store.faults));
    meta.ApplyCommit(built.value);
    r := Ok(built.value.snapshot.id);
  }

  // ---- listing -------------------------------------------------------------------

  /** The data files of a snapshot, manifest by manifest; delete manifests are skipped. */
  method ListFilesFromMetadata(store: ObjectStore, meta: Metadata, id: Option<SnapshotId>) returns (r: Result<seq<DataFile>>)
    ensures r == ListFiles(store.objects, meta, id)
  {
    var manifests := ManifestsOfSnapshot(store, meta, id);
    if manifests.Err? {
      return Err(manifests.error);
    }
    var ms, entries, i := manifests.value, [], 0;
    ghost var all := ReadDataManifests(store.objects, ms);
    assert ms[0..] == ms && (all.Ok? ==> [] + all.value == all.value);
    while i < |ms|
      invariant 0 <= i <= |ms|
      invariant var rest := ReadDataManifests(store.objects, ms[i..]);
        ReadDataManifests(store.objects, ms) == if rest.Err? then rest else Ok(entries + rest.value)
    {
      ghost var tail := ms[i..];
      assert tail[0] == ms[i] && tail[1..] == ms[i + 1..];
      if ms[i].content == 0 {
        var m := store.Get(ms[i].path);
        if m.Err? || !m.value.DataManifest? {
          return Err("manifest unreadable");
        }
        ghost var rest := ReadDataManifests(store.objects, tail[1..]);
        assert rest.Ok? ==> entries + (m.value.files + rest.value) == (entries + m.value.files) + rest.value;
        entries := entries + m.value.files;
      }
      i := i + 1;
    }
    assert ms[i..] == [] && entries + [] == entries;
    r := Ok(entries);
  }

  method ListDeletesFromMetadata(store: ObjectStore, meta: Metadata, id: Option<SnapshotId>)
    returns (r: Result<seq<EqualityDelete>>)
    ensures r == ListDeletes(store.objects, meta, id)
  {
    var manifests := ManifestsOfSnapshot(store, meta, id);
    if manifests.Err? {
      return Err(manifests.error);
    }
    var ms, entries, i := manifests.value, [], 0;
    EmptyFirst(ReadDeleteManifests(store.objects, ms));
    assert ms[0..] == ms;
    while i < |ms|
      invariant 0 <= i <= |ms|
      invariant ReadDeleteManifests(store.objects, ms) == Then(Ok(entries), ReadDeleteManifests(store.objects, ms[i..]))
    {
      ghost var tail := ms[i..];
      assert tail[0] == ms[i] && tail[1..] == ms[i + 1..];
      if ms[i].content == 1 {
        var m := store.Get(ms[i].path);
        if m.Err? || !m.value.DeleteManifest? {
          return Err("manifest unreadable");
        }
        if m.value.decoded.Err? {
          return Err(m.value.decoded.error);
        }
        ghost var rest := ReadDeleteManifests(store.objects, tail[1..]);
        assert rest.Ok? ==> entries + (m.value.decoded.value + rest.value) == (entries + m.value.decoded.value) + rest.value;
        entries := entries + m.value.decoded.value;
      }
      i := i + 1;
    }
    assert ms[i..] == [] && entries + [] == entries;
    r := Ok(entries);
  }

  lemma {:induction false} EmptyFirst<X>(r: Result<seq<X>>)
    ensures Then(Ok([]), r) == r
  {
    assert r.Ok? ==> [] + r.value == r.value;
  }

  method ManifestsOfSnapshot(store: ObjectStore, meta: Metadata, id: Option<SnapshotId>) returns (r: Result<seq<ManifestRef>>)
    ensures r == SnapshotManifests(store.objects, meta, id)
  {
    var wanted := if id.Some? then id else meta.currentSnapshotId;
    if wanted.None? {
      return Ok([]);
    }
    var snap := FindSnapshot(meta.snapshots, wanted.value);
    if snap.None? {
      return Err("snapshot not found");
    }
    var list := store.Get(snap.value.manifestList);
    if list.Err? || !list.value.ManifestList? {
      return Err("manifest list unreadable");
    }
    r := Ok(list.value.manifests);
  }
}
