/** What one commit and one schema evolution do to a table, as functions of the store
    contents and the current metadata, and what a reader lists back. The step-by-step
    programs in the other modules are proved against these functions. */
module CommitSpec {
  import opened Wrappers
  import opened TableModel

  /** The fields of a data file that a manifest does not keep in columns of their own. */
  datatype Extras = Extras(partitionValue: Option<Text>, vectorStats: Option<VectorStats>, payload: string)

  /** What a reader gets from a manifest that was written: the extras of a data file, under
      the partition columns in force, and the deletes of snapshot, sequence number and list.
      The results about commits hold for every codec; `StoredManifests` has the one of the
      Avro files, and when it is the identity. */
  datatype Codec = Codec(
    extras: (seq<ResolvedField>, DataFile) -> Extras,
    deletes: (SnapshotId, int, seq<EqualityDelete>) -> Result<seq<EqualityDelete>>)

  /** Fixed per catalog and table. */
  datatype Config = Config(warehouse: Text, tableRoot: Text, codec: Codec)

  /** What the outside world decides during one commit: the clock, and whether the two
      best-effort statistics files could be stored. */
  datatype Env = Env(now: int, puffinStored: bool, partitionStatsStored: bool)

  // ---- the files of a commit -----------------------------------------------------

  const SLASH := 0x2F
  const COLON := 0x3A

  predicate IsAbsolute(p: Text) {
    || (|p| > 0 && p[0] == SLASH)
    || exists i :: 0 <= i < |p| - 2 && p[i] == COLON && p[i + 1] == SLASH && p[i + 2] == SLASH
  }

  function AbsoluteFile(cfg: Config, f: DataFile): DataFile {
    if !IsAbsolute(f.path) && IsAbsolute(cfg.warehouse) then f.(path := cfg.warehouse + [SLASH] + f.path) else f
  }

  function AbsoluteFiles(cfg: Config, files: seq<DataFile>): (r: seq<DataFile>)
    ensures |r| == |files|
    ensures forall i :: 0 <= i < |r| ==> r[i] == AbsoluteFile(cfg, files[i])
  {
    if files == [] then [] else [AbsoluteFile(cfg, files[0])] + AbsoluteFiles(cfg, files[1..])
  }

  /** Give every file without a row id the next free range. */
  function AssignRowIds(files: seq<DataFile>, next: int): (r: seq<DataFile>)
    ensures |r| == |files|
  {
    if files == [] then []
    else if files[0].firstRowId.Some? then [files[0]] + AssignRowIds(files[1..], next)
    else [files[0].(firstRowId := Some(next))] + AssignRowIds(files[1..], next + files[0].recordCount)
  }

  /** Rows in the files that still need a row id. */
  function FreshRows(files: seq<DataFile>): nat {
    if files == [] then 0
    else (if files[0].firstRowId.Some? then 0 else files[0].recordCount) + FreshRows(files[1..])
  }

  function StampFiles(files: seq<DataFile>, sequenceNumber: int): (r: seq<DataFile>)
    ensures |r| == |files|
    ensures forall i :: 0 <= i < |r| ==> r[i] == files[i].(sequenceNumber := sequenceNumber)
  {
    seq(|files|, i requires 0 <= i < |files| => files[i].(sequenceNumber := sequenceNumber))
  }

  /** Committed form of a list of new files: absolute paths, row ids from `next` on for V3
      tables, and the commit's sequence number. */
  function PlaceFiles(cfg: Config, v3: bool, files: seq<DataFile>, next: int, sequenceNumber: int): seq<DataFile> {
    var absolute := AbsoluteFiles(cfg, files);
    StampFiles(if v3 then AssignRowIds(absolute, next) else absolute, sequenceNumber)
  }

  /** The data entries of the commit's manifest, as written. */
  function CommittedFiles(cfg: Config, meta: Metadata, snap: NewSnapshot): seq<DataFile> {
    PlaceFiles(cfg, meta.formatVersion >= 3, snap.files, meta.nextRowId, meta.lastSequenceNumber + 1)
  }

  function ExtrasOf(f: DataFile): Extras {
    Extras(f.partitionValue, f.vectorStats, f.payload)
  }

  /** The entry a reader decodes for a written data file. */
  function Decoded(cfg: Config, columns: seq<ResolvedField>, f: DataFile): DataFile {
    var e := cfg.codec.extras(columns, f);
    f.(partitionValue := e.partitionValue, vectorStats := e.vectorStats, payload := e.payload)
  }

  function DecodedFiles(cfg: Config, columns: seq<ResolvedField>, files: seq<DataFile>): (r: seq<DataFile>)
    ensures |r| == |files|
    ensures forall i :: 0 <= i < |r| ==> r[i] == Decoded(cfg, columns, files[i])
  {
    seq(|files|, i requires 0 <= i < |files| => Decoded(cfg, columns, files[i]))
  }

  function NextRowId(meta: Metadata, snap: NewSnapshot): int {
    if meta.formatVersion >= 3 then meta.nextRowId + FreshRows(snap.files) else meta.nextRowId
  }

  function PlaceDelete(cfg: Config, d: EqualityDelete, sequenceNumber: int): EqualityDelete {
    EqualityDelete(if IsAbsolute(d.path) then d.path else cfg.tableRoot + [SLASH] + d.path,
                   d.equalityIds, d.recordCount, d.fileSize, sequenceNumber)
  }

  function PlaceDeletes(cfg: Config, deletes: seq<EqualityDelete>, sequenceNumber: int): (r: seq<EqualityDelete>)
    ensures |r| == |deletes|
    ensures forall i :: 0 <= i < |r| ==> r[i] == PlaceDelete(cfg, deletes[i], sequenceNumber)
  {
    seq(|deletes|, i requires 0 <= i < |deletes| => PlaceDelete(cfg, deletes[i], sequenceNumber))
  }

  /** The delete entries of the commit's delete manifest, as written. */
  function CommittedDeletes(cfg: Config, meta: Metadata, snap: NewSnapshot): seq<EqualityDelete> {
    PlaceDeletes(cfg, snap.equalityDeletes, meta.lastSequenceNumber + 1)
  }

  // ---- the objects of a commit ---------------------------------------------------

  function Header(meta: Metadata): ManifestHeader {
    var s := FindSchema(meta.schemas, meta.currentSchemaId);
    ManifestHeader(if s.Some? then s.value else Schema(0, []), meta.partitionSpecs, meta.formatVersion)
  }

  function DataManifestOf(cfg: Config, meta: Metadata, snap: NewSnapshot): Content {
    DataManifest(Header(meta), DecodedFiles(cfg, Columns(meta), CommittedFiles(cfg, meta, snap)))
  }

  function DeleteManifestOf(cfg: Config, meta: Metadata, snap: NewSnapshot): Content {
    DeleteManifest(cfg.codec.deletes(snap.id, meta.lastSequenceNumber + 1, CommittedDeletes(cfg, meta, snap)))
  }

  /** Manifests taken over from the previous snapshot. A list that cannot be read is
      silently treated as empty. */
  function Inherited(objects: Objects, meta: Metadata, op: Operation): seq<ManifestRef> {
    if !op.Inherits() || meta.snapshots == [] then []
    else
      var p := meta.snapshots[|meta.snapshots| - 1].manifestList;
      if p in objects && objects[p].ManifestList? then objects[p].manifests else []
  }

  /** The commit's manifest list: inherited manifests, the new data manifest and, when the
      commit carries equality deletes, the new delete manifest. */
  function ManifestsOf(inherited: seq<ManifestRef>, snap: NewSnapshot): seq<ManifestRef> {
    inherited
    + [ManifestRef(DataManifestPath(snap.id), 0)]
    + (if snap.equalityDeletes != [] then [ManifestRef(DeleteManifestPath(snap.id), 1)] else [])
  }

  function VectorStatsOf(files: seq<DataFile>): seq<(Text, VectorStats)> {
    if files == [] then []
    else (if files[0].vectorStats.Some? then [(files[0].path, files[0].vectorStats.value)] else [])
         + VectorStatsOf(files[1..])
  }

  /** The Puffin file is written for V3 tables when some file has vector statistics. */
  predicate WantsPuffin(cfg: Config, meta: Metadata, snap: NewSnapshot) {
    meta.formatVersion >= 3 && VectorStatsOf(CommittedFiles(cfg, meta, snap)) != []
  }

  function PuffinOf(cfg: Config, meta: Metadata, snap: NewSnapshot): Content {
    Puffin(VectorStatsOf(CommittedFiles(cfg, meta, snap)), snap.blooms)
  }

  /** All entries of the data manifests (content 0) in the list, in order; manifests that
      cannot be read contribute nothing. */
  function DataEntries(objects: Objects, manifests: seq<ManifestRef>): seq<DataFile> {
    if manifests == [] then []
    else
      var m := manifests[0];
      (if m.content == 0 && m.path in objects && objects[m.path].DataManifest? then objects[m.path].files else [])
      + DataEntries(objects, manifests[1..])
  }

  predicate WantsPartitionStats(meta: Metadata) {
    ResolvePartitionSpec(meta).Some?
  }

  function PartitionStatsOf(objects: Objects, meta: Metadata, manifests: seq<ManifestRef>): Content
    requires WantsPartitionStats(meta)
  {
    PartitionStats(ResolvePartitionSpec(meta).value, DataEntries(objects, manifests))
  }

  // ---- the metadata change -------------------------------------------------------

  function NewSnapshotRecord(meta: Metadata, snap: NewSnapshot, now: int): Snapshot {
    Snapshot(snap.id, snap.parent, meta.lastSequenceNumber + 1, now, ManifestListPath(snap.id),
             snap.operation, |snap.files|, 0)
  }

  /** The id the schema update gives to column `name`; the last entry wins, as in a
      hash map collected from the field list. */
  function IdByName(fields: seq<Field>, name: string): Option<int> {
    if fields == [] then None
    else if fields[|fields| - 1].name == name then Some(fields[|fields| - 1].id)
    else IdByName(fields[..|fields| - 1], name)
  }

  function RemapField(update: SchemaUpdate, f: SpecField): SpecField {
    var id := IdByName(update.fields, f.name);
    if id.Some? then f.(sourceId := id.value) else f
  }

  function RemapSpec(update: SchemaUpdate, s: Spec): Spec {
    s.(fields := seq(|s.fields|, i requires 0 <= i < |s.fields| => RemapField(update, s.fields[i])))
  }

  function RemapSpecs(update: SchemaUpdate, specs: seq<Spec>): seq<Spec> {
    seq(|specs|, i requires 0 <= i < |specs| => RemapSpec(update, specs[i]))
  }

  /** A commit's schema update replaces the fields of the first schema. */
  function PatchSchema(meta: Metadata, update: SchemaUpdate): Metadata {
    meta.(partitionSpecs := RemapSpecs(update, meta.partitionSpecs),
          schemas := if meta.schemas == [] then []
                     else meta.schemas[0 := meta.schemas[0].(fields := update.fields)],
          lastColumnId := update.lastColumnId,
          properties := meta.properties["schema.name-mapping.default" := update.nameMapping])
  }

  /** The snapshot becomes current and the counters advance. */
  function Advanced(meta: Metadata, record: Snapshot, sequenceNumber: int, nextRowId: int, now: int): Metadata {
    meta.(lastSequenceNumber := sequenceNumber,
          lastUpdatedMs := now,
          currentSnapshotId := Some(record.id),
          nextRowId := nextRowId,
          snapshots := meta.snapshots + [record])
  }

  /** Properties are merged and the statistics files that could be stored are listed. */
  function Recorded(meta: Metadata, properties: map<string, string>, puffin: Option<StatsRef>, partitionStats: Option<StatsRef>): Metadata {
    meta.(properties := meta.properties + properties,
          statistics := if puffin.Some? then meta.statistics + [puffin.value] else meta.statistics,
          partitionStatistics := if partitionStats.Some? then meta.partitionStatistics + [partitionStats.value]
                                 else meta.partitionStatistics)
  }

  function PuffinRef(cfg: Config, meta: Metadata, snap: NewSnapshot, env: Env): Option<StatsRef> {
    if WantsPuffin(cfg, meta, snap) && env.puffinStored then Some(StatsRef(snap.id, PuffinPath(snap.id))) else None
  }

  function PartitionStatsRef(meta: Metadata, snap: NewSnapshot, env: Env): Option<StatsRef> {
    if WantsPartitionStats(meta) && env.partitionStatsStored then Some(StatsRef(snap.id, PartitionStatsPath(snap.id)))
    else None
  }

  /** `metadata.json` after the commit. */
  function CommittedMetadata(cfg: Config, meta: Metadata, snap: NewSnapshot, env: Env): Metadata {
    var m1 := Advanced(meta, NewSnapshotRecord(meta, snap, env.now), meta.lastSequenceNumber + 1, NextRowId(meta, snap), env.now);
    var m2 := if snap.schemaUpdate.Some? then PatchSchema(m1, snap.schemaUpdate.value) else m1;
    Recorded(m2, snap.properties, PuffinRef(cfg, meta, snap, env), PartitionStatsRef(meta, snap, env))
  }

  // ---- schema evolution ----------------------------------------------------------

  function RenameField(r: Rename, f: Field): Field {
    if f.name == r.oldName then f.(name := r.newName) else f
  }

  function ApplyRename(fields: seq<Field>, r: Rename): (out: seq<Field>)
    ensures |out| == |fields|
    ensures forall i :: 0 <= i < |out| ==> out[i] == RenameField(r, fields[i])
  {
    seq(|fields|, i requires 0 <= i < |fields| => RenameField(r, fields[i]))
  }

  function ApplyRenames(fields: seq<Field>, renames: seq<Rename>): seq<Field>
    decreases |renames|
  {
    if renames == [] then fields else ApplyRenames(ApplyRename(fields, renames[0]), renames[1..])
  }

  /** The field added with a fresh id; a missing initial default falls back to the write default. */
  function AddedField(id: int, a: AddColumn): Field {
    Field(id, a.name, a.required, a.fieldType,
          if a.initialDefault.Some? then a.initialDefault else a.writeDefault,
          a.writeDefault, a.doc)
  }

  function AddedFields(adds: seq<AddColumn>, lastColumnId: int): (r: seq<Field>)
    ensures |r| == |adds|
  {
    seq(|adds|, i requires 0 <= i < |adds| => AddedField(lastColumnId + 1 + i, adds[i]))
  }

  /** `metadata.json` after an evolution; an error when the current schema is missing. */
  function EvolvedMetadata(meta: Metadata, e: Evolution, now: int): Result<Metadata> {
    var cur := FindSchema(meta.schemas, meta.currentSchemaId);
    if cur.None? then Err("current schema not found in metadata")
    else
      var fields := ApplyRenames(cur.value.fields, e.renames) + AddedFields(e.adds, meta.lastColumnId);
      var id := meta.currentSchemaId + 1;
      Ok(meta.(schemas := meta.schemas + [Schema(id, fields)],
               currentSchemaId := id,
               lastColumnId := meta.lastColumnId + |e.adds|,
               lastUpdatedMs := now,
               properties := meta.properties + e.properties))
  }

  // ---- whole operations on a table -----------------------------------------------

  /** The committed part of a table: its metadata and the objects of its commits. */
  datatype Table = Table(objects: Objects, meta: Metadata)

  datatype Op =
    | Commit(snap: NewSnapshot, env: Env)
    | Evolve(evolution: Evolution, now: int)

  function PutIf(objects: Objects, cond: bool, p: Path, c: Content): Objects {
    if cond then objects[p := c] else objects
  }

  /** The store just before the partition statistics are computed. */
  function CommitManifests(cfg: Config, t: Table, snap: NewSnapshot, env: Env): Objects {
    var o1 := t.objects[DataManifestPath(snap.id) := DataManifestOf(cfg, t.meta, snap)];
    var o2 := PutIf(o1, snap.equalityDeletes != [], DeleteManifestPath(snap.id), DeleteManifestOf(cfg, t.meta, snap));
    var o3 := o2[ManifestListPath(snap.id) :=
                   ManifestList(ManifestsOf(Inherited(t.objects, t.meta, snap.operation), snap))];
    PutIf(o3, WantsPuffin(cfg, t.meta, snap) && env.puffinStored, PuffinPath(snap.id), PuffinOf(cfg, t.meta, snap))
  }

  /** The store after the commit wrote all its objects. */
  function CommitObjects(cfg: Config, t: Table, snap: NewSnapshot, env: Env): Objects {
    var o := CommitManifests(cfg, t, snap, env);
    if WantsPartitionStats(t.meta) && env.partitionStatsStored
    then o[PartitionStatsPath(snap.id) :=
             PartitionStatsOf(o, t.meta, ManifestsOf(Inherited(t.objects, t.meta, snap.operation), snap))]
    else o
  }

  function CommitTable(cfg: Config, t: Table, snap: NewSnapshot, env: Env): Table {
    Table(CommitObjects(cfg, t, snap, env), CommittedMetadata(cfg, t.meta, snap, env))
  }

  function ApplyOp(cfg: Config, t: Table, op: Op): Table {
    match op
    case Commit(snap, env) => CommitTable(cfg, t, snap, env)
    case Evolve(e, now) =>
      var m := EvolvedMetadata(t.meta, e, now);
      if m.Ok? then t.(meta := m.value) else t
  }

  /** The table after the operations, one after the other. */
  function Fold(cfg: Config, t0: Table, ops: seq<Op>): Table {
    if ops == [] then t0
    else ApplyOp(cfg, Fold(cfg, t0, ops[..|ops| - 1]), ops[|ops| - 1])
  }

  // ---- reading -------------------------------------------------------------------

  function FindSnapshot(snapshots: seq<Snapshot>, id: SnapshotId): (r: Option<Snapshot>)
    ensures r.Some? ==> r.value in snapshots && r.value.id == id
  {
    if snapshots == [] then None
    else if snapshots[0].id == id then Some(snapshots[0])
    else FindSnapshot(snapshots[1..], id)
  }

  /** The entries of the data manifests in the list; an error when one cannot be read. */
  function ReadDataManifests(objects: Objects, manifests: seq<ManifestRef>): Result<seq<DataFile>> {
    if manifests == [] then Ok([])
    else if manifests[0].content != 0 then ReadDataManifests(objects, manifests[1..])
    else if manifests[0].path !in objects || !objects[manifests[0].path].DataManifest? then Err("manifest unreadable")
    else
      var rest := ReadDataManifests(objects, manifests[1..]);
      if rest.Err? then rest else Ok(objects[manifests[0].path].files + rest.value)
  }

  /** One listing after the other; the first error wins. */
  function Then<X>(a: Result<seq<X>>, b: Result<seq<X>>): Result<seq<X>> {
    if a.Err? then a else if b.Err? then b else Ok(a.value + b.value)
  }

  /** The entries of the delete manifests in the list; an error when one cannot be read or
      decoded. */
  function ReadDeleteManifests(objects: Objects, manifests: seq<ManifestRef>): Result<seq<EqualityDelete>> {
    if manifests == [] then Ok([])
    else if manifests[0].content != 1 then ReadDeleteManifests(objects, manifests[1..])
    else if manifests[0].path !in objects || !objects[manifests[0].path].DeleteManifest? then Err("manifest unreadable")
    else Then(objects[manifests[0].path].decoded, ReadDeleteManifests(objects, manifests[1..]))
  }

  /** The manifest list of the given snapshot, or of the current one; empty for a table
      without snapshots. */
  function SnapshotManifests(objects: Objects, meta: Metadata, id: Option<SnapshotId>): Result<seq<ManifestRef>> {
    var wanted := if id.Some? then id else meta.currentSnapshotId;
    if wanted.None? then Ok([])
    else
      var snap := FindSnapshot(meta.snapshots, wanted.value);
      if snap.None? then Err("snapshot not found")
      else if snap.value.manifestList !in objects || !objects[snap.value.manifestList].ManifestList?
      then Err("manifest list unreadable")
      else Ok(objects[snap.value.manifestList].manifests)
  }

  function ListFiles(objects: Objects, meta: Metadata, id: Option<SnapshotId>): Result<seq<DataFile>> {
    var m := SnapshotManifests(objects, meta, id);
    if m.Err? then Err(m.error) else ReadDataManifests(objects, m.value)
  }

  function ListDeletes(objects: Objects, meta: Metadata, id: Option<SnapshotId>): Result<seq<EqualityDelete>> {
    var m := SnapshotManifests(objects, meta, id);
    if m.Err? then Err(m.error) else ReadDeleteManifests(objects, m.value)
  }
}
