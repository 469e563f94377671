/** The Iceberg table state that the catalog backends share: store paths, the decoded
    contents of the files they write, and the parts of `metadata.json` the commit logic
    reads or changes. JSON values are kept as strings; lengths of manifests are not
    modelled. */
module TableModel {
  import opened Wrappers
  import AvroBinary

  /** Text as its UTF-8 bytes. */
  type Text = AvroBinary.Bytes

  type SnapshotId = int
  type Uuid = int

  /** The objects a catalog writes under `{table_root}/metadata/`. */
  datatype Path =
    | DataManifestPath(snapshot: SnapshotId)    // {id}-m0.avro
    | DeleteManifestPath(snapshot: SnapshotId)  // {id}-eq-del.avro
    | ManifestListPath(snapshot: SnapshotId)    // snap-{id}-1.avro
    | PuffinPath(snapshot: SnapshotId)          // stats-{id}.puffin
    | PartitionStatsPath(snapshot: SnapshotId)  // partition-stats-{id}.parquet
    | MetadataPath(uuid: Uuid)                  // {uuid}.metadata.json
    | VersionPath(version: nat)                 // v{n}.metadata.json
    | HintPath                                  // version-hint.text
  {
    /** Written by a commit and named after its snapshot. */
    predicate IsCommitPath() {
      DataManifestPath? || DeleteManifestPath? || ManifestListPath? || PuffinPath? || PartitionStatsPath?
    }

    predicate OfSnapshot(id: SnapshotId) {
      IsCommitPath() && snapshot == id
    }
  }

  datatype VectorStats = VectorStats(centroid: seq<real>, radius: real)

  /** One data file. `vectorStats` is the centroid and radius when both are present and
      decodable; `payload` stands for the remaining fields, which commits only copy. */
  datatype DataFile = DataFile(
    path: Text,
    recordCount: nat,
    fileSize: nat,
    partitionValue: Option<Text>,
    vectorStats: Option<VectorStats>,
    firstRowId: Option<int>,
    sequenceNumber: int,
    payload: string)

  datatype EqualityDelete = EqualityDelete(
    path: Text,
    equalityIds: seq<int>,
    recordCount: int,
    fileSize: int,
    sequenceNumber: int)

  datatype Field = Field(
    id: int,
    name: string,
    required: bool,
    fieldType: string,
    initialDefault: Option<string>,
    writeDefault: Option<string>,
    doc: Option<string>)

  datatype Schema = Schema(id: int, fields: seq<Field>)

  datatype SpecField = SpecField(name: string, transform: string, sourceId: int, fieldId: int)
  datatype Spec = Spec(id: int, fields: seq<SpecField>)

  /** A partition field with its source type looked up in the current schema. */
  datatype ResolvedField = ResolvedField(
    sourceId: int, fieldId: int, name: string, transform: string, sourceType: string)
  datatype ResolvedSpec = ResolvedSpec(id: int, fields: seq<ResolvedField>)

  datatype Operation = Append | Overwrite | Delete | Replace {
    /** Append and Delete keep the manifests of the previous snapshot. */
    predicate Inherits() {
      Append? || Delete?
    }
  }

  datatype SchemaUpdate = SchemaUpdate(fields: seq<Field>, lastColumnId: int, nameMapping: string)

  datatype NewSnapshot = NewSnapshot(
    id: SnapshotId,
    parent: Option<SnapshotId>,
    files: seq<DataFile>,
    operation: Operation,
    schemaUpdate: Option<SchemaUpdate>,
    properties: map<string, string>,
    blooms: seq<(string, string)>,
    equalityDeletes: seq<EqualityDelete>)

  datatype Rename = Rename(oldName: string, newName: string)
  datatype AddColumn = AddColumn(
    name: string,
    fieldType: string,
    required: bool,
    initialDefault: Option<string>,
    writeDefault: Option<string>,
    doc: Option<string>)
  datatype Evolution = Evolution(renames: seq<Rename>, adds: seq<AddColumn>, properties: map<string, string>)

  datatype Snapshot = Snapshot(
    id: SnapshotId,
    parent: Option<SnapshotId>,
    sequenceNumber: int,
    timestampMs: int,
    manifestList: Path,
    operation: Operation,
    addedFiles: nat,
    schemaId: int)

  datatype StatsRef = StatsRef(snapshot: SnapshotId, path: Path)

  datatype Metadata = Metadata(
    formatVersion: int,
    lastSequenceNumber: int,
    nextRowId: int,
    lastUpdatedMs: int,
    lastColumnId: int,
    schemas: seq<Schema>,
    currentSchemaId: int,
    partitionSpecs: seq<Spec>,
    defaultSpecId: int,
    properties: map<string, string>,
    currentSnapshotId: Option<SnapshotId>,
    snapshots: seq<Snapshot>,
    statistics: seq<StatsRef>,
    partitionStatistics: seq<StatsRef>)

  /** An entry of a manifest list; `content` is 0 for data and 1 for deletes. */
  datatype ManifestRef = ManifestRef(path: Path, content: int)

  datatype ManifestHeader = ManifestHeader(schema: Schema, specs: seq<Spec>, formatVersion: int)

  /** File contents as a reader decodes them; a delete manifest may fail to decode. */
  datatype Content =
    | DataManifest(header: ManifestHeader, files: seq<DataFile>)
    | DeleteManifest(decoded: Result<seq<EqualityDelete>>)
    | ManifestList(manifests: seq<ManifestRef>)
    | Puffin(stats: seq<(Text, VectorStats)>, blooms: seq<(string, string)>)
    | PartitionStats(spec: ResolvedSpec, entries: seq<DataFile>)
    | MetadataJson(meta: Metadata)
    | VersionHint(version: nat)

  type Objects = map<Path, Content>

  // ---- schema and partition-spec resolution --------------------------------------

  /** The first schema carrying `id`. */
  function FindSchema(schemas: seq<Schema>, id: int): (r: Option<Schema>)
    ensures r.Some? ==> r.value in schemas && r.value.id == id
    ensures r.None? ==> forall s :: s in schemas ==> s.id != id
  {
    if schemas == [] then None
    else if schemas[0].id == id then Some(schemas[0])
    else FindSchema(schemas[1..], id)
  }

  function FindSpec(specs: seq<Spec>, id: int): (r: Option<Spec>)
    ensures r.Some? ==> r.value in specs && r.value.id == id
    ensures r.None? ==> forall s :: s in specs ==> s.id != id
  {
    if specs == [] then None
    else if specs[0].id == id then Some(specs[0])
    else FindSpec(specs[1..], id)
  }

  /** The type of the first field with `id`, or "string" when there is none. */
  function SourceType(fields: seq<Field>, id: int): string {
    if fields == [] then "string"
    else if fields[0].id == id then fields[0].fieldType
    else SourceType(fields[1..], id)
  }

  function ResolveField(fields: seq<Field>, f: SpecField): ResolvedField {
    ResolvedField(f.sourceId, f.fieldId, f.name, f.transform, SourceType(fields, f.sourceId))
  }

  function CurrentFields(meta: Metadata): seq<Field> {
    var s := FindSchema(meta.schemas, meta.currentSchemaId);
    if s.Some? then s.value.fields else []
  }

  function ResolveFields(fields: seq<Field>, specFields: seq<SpecField>): (r: seq<ResolvedField>)
    ensures |r| == |specFields|
    ensures forall i :: 0 <= i < |r| ==> r[i] == ResolveField(fields, specFields[i])
  {
    seq(|specFields|, i requires 0 <= i < |specFields| => ResolveField(fields, specFields[i]))
  }

  /** The active partition spec: the default spec with source types taken from the
      current schema; absent when it has no fields. */
  function ResolvePartitionSpec(meta: Metadata): Option<ResolvedSpec> {
    var spec := FindSpec(meta.partitionSpecs, meta.defaultSpecId);
    if spec.None? || spec.value.fields == [] then None
    else Some(ResolvedSpec(spec.value.id, ResolveFields(CurrentFields(meta), spec.value.fields)))
  }

  /** The partition columns of a manifest written under the metadata. */
  function Columns(meta: Metadata): seq<ResolvedField> {
    var spec := ResolvePartitionSpec(meta);
    if spec.None? then [] else spec.value.fields
  }

  // ---- table creation ------------------------------------------------------------

  datatype PartitionDef = PartitionDef(column: string, transform: string, columnType: string)

  /** Metadata of a fresh table: one schema holding exactly the partition columns, an
      empty spec 0 and, for partitioned tables, spec 1 pointing at those columns. */
  function NewMetadata(formatVersion: int, partitions: seq<PartitionDef>, properties: map<string, string>, now: int): Metadata {
    var fields := seq(|partitions|, i requires 0 <= i < |partitions| =>
      Field(i + 1, partitions[i].column, false, partitions[i].columnType, None, None, None));
    var specFields := seq(|partitions|, i requires 0 <= i < |partitions| =>
      SpecField(partitions[i].column, partitions[i].transform, i + 1, 1000 + i));
    Metadata(
      if formatVersion < 2 then 2 else formatVersion, 0, 0, now, |partitions|,
      [Schema(0, fields)], 0,
      if partitions == [] then [Spec(0, [])] else [Spec(0, []), Spec(1, specFields)],
      if partitions == [] then 0 else 1,
      properties, None, [], [], [])
  }
}
