/** Data manifests: writing an entry field by field, reading it back, and the round trip. */
module ManifestFiles {
  import opened Wrappers
  import opened AvroBinary
  import opened AvroContainer
  import opened AvroRecords
  import opened PartitionCodec
  import opened ManifestCodec
  import DecimalText
  import T = TableModel

  // ---- entries -------------------------------------------------------------------

  /** The vector-index fields, which travel only in the key metadata. */
  datatype IndexInfo = IndexInfo(vectorStats: Option<T.VectorStats>, payload: string)

  const NO_INDEX := IndexInfo(None, "")

  /** A data file as the catalog knows it. */
  datatype DataFileEntry = DataFileEntry(
    path: Bytes,
    recordCount: int,
    fileSize: int,
    index: IndexInfo,
    partitionValue: Option<Bytes>,
    firstRowId: Option<int>,
    columnStats: Option<Stats>,
    sequenceNumber: int)

  datatype Extension = Extension(index: IndexInfo, partitionValue: Option<Bytes>, firstRowId: Option<int>)

  /** The JSON library, of which only its own round trip is assumed. */
  datatype Json = Json(write: Extension -> Option<Bytes>, read: Bytes -> Option<Extension>)

  ghost predicate JsonFits(json: Json) {
    forall e :: json.write(e).Some? ==> |json.write(e).value| <= I64_MAX
  }

  ghost predicate Faithful(json: Json) {
    JsonFits(json) && forall e :: json.write(e).Some? ==> json.read(json.write(e).value) == Some(e)
  }

  function ExtensionOf(f: DataFileEntry): Extension {
    Extension(f.index, f.partitionValue, f.firstRowId)
  }

  function KeyMetadata(json: Json, f: DataFileEntry): Value {
    var bytes := json.write(ExtensionOf(f));
    if bytes.Some? then VUnion(1, VBytes(bytes.value)) else NULL_SLOT
  }

  function RowIdSlot(id: Option<int>): Value {
    if id.Some? then VUnion(1, VLong(id.value)) else NULL_SLOT
  }

  function DataFields(cs: seq<Column>, json: Json, f: DataFileEntry): FileFields {
    FileFields(0, f.path, Ascii("PARQUET"), VRecord(MakeVals(SlotValues(cs, PartsOf(f.partitionValue)))),
               f.recordCount, f.fileSize, f.columnStats, KeyMetadata(json, f), NULL_SLOT, RowIdSlot(f.firstRowId))
  }

  /** The ranges of the Rust types. */
  predicate EntryFits(f: DataFileEntry) {
    && |f.path| <= I64_MAX && IsU64(f.recordCount) && IsU64(f.fileSize) && StatsFit(f.columnStats)
    && TextSized(f.partitionValue) && (f.firstRowId.Some? ==> IsI64(f.firstRowId.value))
  }

  lemma {:induction false} DataFieldsFit(cs: seq<Column>, json: Json, f: DataFileEntry)
    requires EntryFits(f) && JsonFits(json)
    ensures FieldsFit(cs, DataFields(cs, json, f))
  {
    hide StatsFit, PartitionDefs, SlotValues, Nullable, PartsOf;
    PartitionTyped(cs, f.partitionValue);
    NullableTyped(SArray(SInt), VNull);
    NullableTyped(SLong, VNull);
    NullableTyped(SBytes, VNull);
    if f.firstRowId.Some? {
      NullableTyped(SLong, VLong(f.firstRowId.value));
      assert HasType(SLong, VLong(f.firstRowId.value));
    }
    var bytes := json.write(ExtensionOf(f));
    if bytes.Some? {
      NullableTyped(SBytes, VBytes(bytes.value));
      assert HasType(SBytes, VBytes(bytes.value));
    }
    assert |Ascii("PARQUET")| == 7;
  }

  // ---- writing a data file record ------------------------------------------------

  /** Content, path and format. */
  method EncodeFileName(buf: ByteBuffer, ghost cs: seq<Column>, path: Bytes, ghost fields: FileFields)
    requires |path| <= I64_MAX
    requires fields.content == 0 && fields.path == path && fields.format == Ascii("PARQUET")
    modifies buf
    ensures buf.data == old(buf.data) + EncodePrefix(DataFileDefs(cs), DataFileVals(fields), 3)
  {
    hide EncLong, EncBytes, Encode, MapValue, MapSchema, Nullable, PartitionDefs, Ascii, EncodePrefix, DataFileDefs, DataFileVals;
    ghost var defs, vals, start := DataFileDefs(cs), DataFileVals(fields), buf.data;
    EmptyPrefix(start, defs, vals);
    Layout(cs, fields);
    ScalarEncoding(0, path);
    ScalarEncoding(0, Ascii("PARQUET"));
    Appended(start, buf.data, EncLong(0), defs, vals, 0);
    buf.EncodeInt(0);
    Appended(start, buf.data, EncBytes(path), defs, vals, 1);
    buf.EncodeBytesField(path);
    Appended(start, buf.data, EncBytes(Ascii("PARQUET")), defs, vals, 2);
    buf.EncodeBytesField(Ascii("PARQUET"));
  }

  method EncodeFileIdentity(buf: ByteBuffer, cs: seq<Column>, f: DataFileEntry, ghost fields: FileFields)
    requires EntryFits(f)
    requires fields.content == 0 && fields.path == f.path && fields.format == Ascii("PARQUET")
    requires fields.partition == VRecord(MakeVals(SlotValues(cs, PartsOf(f.partitionValue))))
    requires fields.recordCount == f.recordCount && fields.fileSize == f.fileSize
    modifies buf
    ensures buf.data == old(buf.data) + EncodePrefix(DataFileDefs(cs), DataFileVals(fields), 6)
  {
    hide EncLong, Encode, MapValue, MapSchema, Nullable, PartitionDefs, SlotValues, PartsOf, Ascii, StatsFit, EncodePrefix, DataFileDefs, DataFileVals;
    ghost var defs, vals, start := DataFileDefs(cs), DataFileVals(fields), buf.data;
    EncodeFileName(buf, cs, f.path, fields);
    Layout(cs, fields);
    ScalarEncoding(ToI64(f.recordCount), []);
    ScalarEncoding(ToI64(f.fileSize), []);
    Appended(start, buf.data, Encode(defs[3].1, vals[3]), defs, vals, 3);
    EncodePartition(buf, cs, f.partitionValue);
    Appended(start, buf.data, EncLong(ToI64(f.recordCount)), defs, vals, 4);
    buf.EncodeLong(ToI64(f.recordCount));
    Appended(start, buf.data, EncLong(ToI64(f.fileSize)), defs, vals, 5);
    buf.EncodeLong(ToI64(f.fileSize));
  }

  lemma {:induction false} EmptyPrefix(start: Bytes, defs: seq<FieldDef>, vals: seq<Value>)
    requires |defs| == |vals|
    ensures start + EncodePrefix(defs, vals, 0) == start
  {
  }

  method EncodeFileStats(buf: ByteBuffer, ghost start: Bytes, ghost cs: seq<Column>, stats: Option<Stats>, ghost fields: FileFields)
    requires StatsFit(stats) && fields.stats == stats
    requires buf.data == start + EncodePrefix(DataFileDefs(cs), DataFileVals(fields), 6)
    modifies buf
    ensures buf.data == start + EncodePrefix(DataFileDefs(cs), DataFileVals(fields), 12)
  {
    hide EncLong, Encode, MapValue, MapSchema, StatsFit, EncodePrefix, DataFileDefs, DataFileVals;
    ghost var defs, vals := DataFileDefs(cs), DataFileVals(fields);
    Layout(cs, fields);
    NullMapEncoding(SLong);
    Appended(start, buf.data, Encode(defs[6].1, vals[6]), defs, vals, 6);
    EncodeIntLongMap(buf, stats, ColumnSize);
    Appended(start, buf.data, Encode(defs[7].1, vals[7]), defs, vals, 7);
    EncodeIntLongMap(buf, stats, ValueCount);
    Appended(start, buf.data, Encode(defs[8].1, vals[8]), defs, vals, 8);
    EncodeIntLongMap(buf, stats, NullCount);
    Appended(start, buf.data, EncLong(0), defs, vals, 9);
    buf.EncodeUnionNull();
    Appended(start, buf.data, Encode(defs[10].1, vals[10]), defs, vals, 10);
    EncodeIntBytesMap(buf, stats, LowerBound);
    Appended(start, buf.data, Encode(defs[11].1, vals[11]), defs, vals, 11);
    EncodeIntBytesMap(buf, stats, UpperBound);
  }

  lemma {:induction false} NullMapEncoding(s: Schema)
    ensures Encode(MapSchema(s), NULL_SLOT) == EncLong(0)
  {
    hide EncLong;
    NullableEncoding(SArray(PairSchema(s)), VNull);
  }

  lemma {:induction false} NullEncodings()
    ensures Encode(Nullable(SBytes), NULL_SLOT) == EncLong(0)
    ensures Encode(Nullable(SArray(SLong)), NULL_SLOT) == EncLong(0)
    ensures Encode(Nullable(SArray(SInt)), NULL_SLOT) == EncLong(0)
    ensures Encode(Nullable(SInt), NULL_SLOT) == EncLong(0)
    ensures Encode(Nullable(SLong), NULL_SLOT) == EncLong(0)
  {
    hide EncLong;
    NullableEncoding(SBytes, VNull);
    NullableEncoding(SArray(SLong), VNull);
    NullableEncoding(SArray(SInt), VNull);
    NullableEncoding(SInt, VNull);
    NullableEncoding(SLong, VNull);
  }

  method EncodeFileTail(buf: ByteBuffer, ghost start: Bytes, ghost cs: seq<Column>, json: Json, f: DataFileEntry, ghost fields: FileFields)
    requires EntryFits(f) && JsonFits(json)
    requires fields.keyMetadata == KeyMetadata(json, f) && fields.equalityIds == NULL_SLOT
    requires fields.firstRowId == RowIdSlot(f.firstRowId)
    requires buf.data == start + EncodePrefix(DataFileDefs(cs), DataFileVals(fields), 12)
    modifies buf
    ensures buf.data == start + EncodePrefix(DataFileDefs(cs), DataFileVals(fields), 17)
  {
    hide EncLong, EncBytes, Encode, StatsFit, EncodePrefix, DataFileDefs, DataFileVals;
    ghost var defs, vals := DataFileDefs(cs), DataFileVals(fields);
    Layout(cs, fields);
    NullEncodings();
    EncodeKeyMetadata(buf, json, f);
    Appended(start, old(buf.data), Encode(defs[12].1, vals[12]), defs, vals, 12);
    Appended(start, buf.data, EncLong(0), defs, vals, 13);
    buf.EncodeUnionNull();
    Appended(start, buf.data, EncLong(0), defs, vals, 14);
    buf.EncodeUnionNull();
    Appended(start, buf.data, EncLong(0), defs, vals, 15);
    buf.EncodeUnionNull();
    Appended(start, buf.data, Encode(defs[16].1, vals[16]), defs, vals, 16);
    EncodeFirstRowId(buf, f.firstRowId);
  }

  method EncodeKeyMetadata(buf: ByteBuffer, json: Json, f: DataFileEntry)
    requires JsonFits(json)
    modifies buf
    ensures buf.data == old(buf.data) + Encode(Nullable(SBytes), KeyMetadata(json, f))
  {
    hide EncLong, EncBytes, Encode;
    var bytes := json.write(ExtensionOf(f));
    if bytes.Some? {
      ScalarEncoding(0, bytes.value);
      buf.EncodeUnionBytes(1, bytes.value);
    } else {
      NullEncodings();
      buf.EncodeUnionNull();
    }
  }

  method EncodeFirstRowId(buf: ByteBuffer, id: Option<int>)
    requires id.Some? ==> IsI64(id.value)
    modifies buf
    ensures buf.data == old(buf.data) + Encode(Nullable(SLong), RowIdSlot(id))
  {
    hide EncLong, Encode;
    if id.Some? {
      ScalarEncoding(id.value, []);
      buf.EncodeUnionLong(1, id.value);
    } else {
      NullEncodings();
      buf.EncodeUnionNull();
    }
  }

  lemma {:induction false} EntryEncoding(cs: seq<Column>, snapshotId: int, sequenceNumber: int, f: FileFields)
    ensures Encode(EntrySchema(cs), EntryValue(snapshotId, sequenceNumber, f))
         == EncodePrefix(EntryDefs(cs), EntryVals(snapshotId, sequenceNumber, f), 4)
            + EncodePrefix(DataFileDefs(cs), DataFileVals(f), 17)
  {
    hide EncodeFields, EncodePrefix, DataFileDefs, DataFileVals;
    var defs, vals := EntryDefs(cs), EntryVals(snapshotId, sequenceNumber, f);
    RecordEncoding(defs, vals);
    RecordEncoding(DataFileDefs(cs), DataFileVals(f));
    LastField(defs, vals);
  }

  lemma {:induction false} LastField(defs: seq<FieldDef>, vals: seq<Value>)
    requires |defs| == |vals| == 5
    ensures EncodePrefix(defs, vals, 5) == EncodePrefix(defs, vals, 4) + Encode(defs[4].1, vals[4])
  {
  }

  /** One manifest entry: exactly the encoding of its value under the entry schema. */
  method EncodeDataEntry(cs: seq<Column>, json: Json, f: DataFileEntry, snapshotId: int, sequenceNumber: int)
    returns (rec: Bytes)
    requires EntryFits(f) && JsonFits(json) && IsI64(snapshotId) && IsI64(sequenceNumber)
    ensures rec == Encode(EntrySchema(cs), EntryValue(snapshotId, sequenceNumber, DataFields(cs, json, f)))
  {
    hide EncodePrefix, DataFileDefs, DataFileVals, EntryDefs, EntryVals, Encode, EntryFits;
    ghost var fields := DataFields(cs, json, f);
    var buf := new ByteBuffer();
    EncodeEntryHead(buf, cs, snapshotId, sequenceNumber, fields);
    ghost var start := buf.data;
    EncodeFileIdentity(buf, cs, f, fields);
    assert StatsFit(f.columnStats) by { Fits(f); }
    EncodeFileStats(buf, start, cs, f.columnStats, fields);
    EncodeFileTail(buf, start, cs, json, f, fields);
    rec := buf.data;
    EntryEncoding(cs, snapshotId, sequenceNumber, fields);
    assert rec == EncodePrefix(EntryDefs(cs), EntryVals(snapshotId, sequenceNumber, fields), 4)
                + EncodePrefix(DataFileDefs(cs), DataFileVals(fields), 17);
  }

  lemma {:induction false} Fits(f: DataFileEntry)
    requires EntryFits(f)
    ensures StatsFit(f.columnStats)
  {
  }

  // ---- data manifests ------------------------------------------------------------

  function DataValues(cs: seq<Column>, json: Json, files: seq<DataFileEntry>, snapshotId: int, sequenceNumber: int)
    : (r: seq<Value>)
    ensures |r| == |files|
    ensures forall i :: 0 <= i < |files| ==>
      r[i] == EntryValue(snapshotId, sequenceNumber, DataFields(cs, json, files[i]))
  {
    seq(|files|, i requires 0 <= i < |files| =>
      EntryValue(snapshotId, sequenceNumber, DataFields(cs, json, files[i])))
  }

  function ColumnsOf(spec: Option<T.ResolvedSpec>): seq<Column> {
    if spec.None? then [] else spec.value.fields
  }

  function DataMeta(tableSchema: Bytes, specJson: Bytes, formatVersion: nat, spec: Option<T.ResolvedSpec>): seq<Pair> {
    [ (Ascii("schema"), tableSchema),
      (Ascii("partition-spec"), specJson),
      (Ascii("partition-spec-id"), DecimalText.ShowInt(if spec.None? then 0 else spec.value.id)),
      (Ascii("format-version"), Ascii(if formatVersion >= 3 then "3" else "2")),
      (Ascii("content"), Ascii("data")) ]
  }

  /** Serialises every file as one entry, in order. `schemaText` is the JSON rendering of
      the entry schema. */
  method WriteManifestFile(
    files: seq<DataFileEntry>, snapshotId: int, sequenceNumber: int, schemaText: Bytes, tableSchema: Bytes,
    specJson: Bytes, formatVersion: nat, spec: Option<T.ResolvedSpec>, json: Json) returns (out: Bytes)
    requires IsI64(snapshotId) && IsI64(sequenceNumber) && JsonFits(json)
    requires forall i :: 0 <= i < |files| ==> EntryFits(files[i])
    requires Writable(schemaText, DataMeta(tableSchema, specJson, formatVersion, spec),
                      EncodeAll(EntrySchema(ColumnsOf(spec)),
                                DataValues(ColumnsOf(spec), json, files, snapshotId, sequenceNumber)))
    ensures out == ContainerBytes(schemaText, DataMeta(tableSchema, specJson, formatVersion, spec),
                                  EncodeAll(EntrySchema(ColumnsOf(spec)),
                                            DataValues(ColumnsOf(spec), json, files, snapshotId, sequenceNumber)))
  {
    hide EntrySchema, EntryValue, DataFields, Encode, Writable, EntryFits, ContainerBytes, DataMeta;
    var cs := ColumnsOf(spec);
    ghost var all := EncodeAll(EntrySchema(cs), DataValues(cs, json, files, snapshotId, sequenceNumber));
    var records: seq<Bytes> := [];
    for i := 0 to |files|
      invariant records == all[..i]
    {
      var rec := EncodeDataEntry(cs, json, files[i], snapshotId, sequenceNumber);
      records := records + [rec];
    }
    assert all[..|files|] == all;
    out := WriteAvroContainer(schemaText, DataMeta(tableSchema, specJson, formatVersion, spec), records);
  }

  // ---- reading -------------------------------------------------------------------

  function NullableLongOf(v: Option<Value>): Option<int> {
    match v
    case Some(VUnion(_, VLong(n))) => Some(n)
    case Some(VLong(n)) => Some(n)
    case _ => None
  }

  function NullableBytesOf(v: Option<Value>): Option<Bytes> {
    match v
    case Some(VUnion(_, VBytes(b))) => Some(b)
    case Some(VBytes(b)) => Some(b)
    case _ => None
  }

  function StringOf(v: Option<Value>): Option<Bytes> {
    match v case Some(VString(b)) => Some(b) case _ => None
  }

  function UnsignedOf(v: Option<Value>): int {
    match v case Some(VLong(n)) => FromI64(n) case _ => 0
  }

  function Else<X>(a: Option<X>, b: Option<X>): Option<X> {
    if a.Some? then a else b
  }

  function SequenceNumberOf(cs: seq<Column>, entry: Vals): int {
    var n := NullableLongOf(FieldNamed(MakeFields(EntryDefs(cs)), entry, "sequence_number"));
    if n.Some? then n.value else 0
  }

  function DataFileOf(cs: seq<Column>, entry: Vals): Option<Value> {
    FieldNamed(MakeFields(EntryDefs(cs)), entry, "data_file")
  }

  function FileField(cs: seq<Column>, file: Vals, name: string): Option<Value> {
    FieldNamed(MakeFields(DataFileDefs(cs)), file, name)
  }

  /** The extension carried in the key metadata, if it is there and parses. */
  function ReadExtension(json: Json, keyMetadata: Option<Bytes>): Option<Extension> {
    if keyMetadata.None? then None else json.read(keyMetadata.value)
  }

  /** What one decoded record contributes: an entry, or nothing without a path. */
  function ReadDataEntry(cs: seq<Column>, json: Json, v: Value): seq<DataFileEntry> {
    if !v.VRecord? then []
    else
      var file := DataFileOf(cs, v.vals);
      if file.None? || !file.value.VRecord? then []
      else
        var vals := file.value.vals;
        var path := StringOf(FileField(cs, vals, "file_path"));
        var ext := ReadExtension(json, NullableBytesOf(FileField(cs, vals, "key_metadata")));
        var native := NativePartition(FileField(cs, vals, "partition"));
        var rowId := NullableLongOf(FileField(cs, vals, "first_row_id"));
        if path.None? then []
        else
          [ DataFileEntry(
              path.value,
              UnsignedOf(FileField(cs, vals, "record_count")),
              UnsignedOf(FileField(cs, vals, "file_size_in_bytes")),
              if ext.Some? then ext.value.index else NO_INDEX,
              Else(native, if ext.Some? then ext.value.partitionValue else None),
              Else(rowId, if ext.Some? then ext.value.firstRowId else None),
              None,
              SequenceNumberOf(cs, v.vals)) ]
  }

  function ReadDataEntries(cs: seq<Column>, json: Json, vs: seq<Value>): seq<DataFileEntry> {
    if vs == [] then []
    else ReadDataEntries(cs, json, vs[..|vs| - 1]) + ReadDataEntry(cs, json, vs[|vs| - 1])
  }

  /** The records of a manifest whose entries follow the entry schema for `cs`. */
  function ManifestObjects(cs: seq<Column>, data: Bytes): Option<seq<Value>> {
    var file := ReadContainer(data);
    if file.None? then None else ReadObjects(EntrySchema(cs), file.value.blocks)
  }

  method ReadManifestFile(data: Bytes, cs: seq<Column>, json: Json) returns (r: Option<seq<DataFileEntry>>)
    ensures r == var vs := ManifestObjects(cs, data);
                 if vs.None? then None else Some(ReadDataEntries(cs, json, vs.value))
  {
    hide ReadDataEntry, ManifestObjects;
    var values := ManifestObjects(cs, data);
    if values.None? {
      return None;
    }
    var vs, results := values.value, [];
    for i := 0 to |vs|
      invariant results == ReadDataEntries(cs, json, vs[..i])
    {
      assert vs[..i + 1][..i] == vs[..i];
      results := results + ReadDataEntry(cs, json, vs[i]);
    }
    assert vs[..|vs|] == vs;
    r := Some(results);
  }

  // ---- the round trip ------------------------------------------------------------

  lemma {:induction false} EntryLookups(cs: seq<Column>, snapshotId: int, sequenceNumber: int, f: FileFields)
    ensures var entry := MakeVals(EntryVals(snapshotId, sequenceNumber, f));
      && SequenceNumberOf(cs, entry) == sequenceNumber
      && DataFileOf(cs, entry) == Some(VRecord(MakeVals(DataFileVals(f))))
  {
    hide DataFileDefs, DataFileVals, Nullable;
    var defs, vals := EntryDefs(cs), EntryVals(snapshotId, sequenceNumber, f);
    assert |"status"| == 6 && |"snapshot_id"| == 11 && |"sequence_number"| == 15;
    assert |"file_sequence_number"| == 20 && |"data_file"| == 9;
    FieldFound(defs, vals, 2);
    FieldFound(defs, vals, 4);
  }

  lemma {:induction false} FileNames(cs: seq<Column>)
    ensures var defs := DataFileDefs(cs);
      && defs[0].0 == "content" && defs[1].0 == "file_path" && defs[3].0 == "partition"
      && defs[4].0 == "record_count" && defs[5].0 == "file_size_in_bytes" && defs[12].0 == "key_metadata"
      && defs[14].0 == "equality_ids" && defs[16].0 == "first_row_id"
      && (forall i, j :: 0 <= i < j < 17 ==> defs[i].0 != defs[j].0)
  {
    hide MapSchema, Nullable, PartitionDefs, MakeFields;
  }

  lemma {:induction false} FileLookups(cs: seq<Column>, f: FileFields)
    ensures var vals := MakeVals(DataFileVals(f));
      && FileField(cs, vals, "content") == Some(VInt(f.content))
      && FileField(cs, vals, "file_path") == Some(VString(f.path))
      && FileField(cs, vals, "partition") == Some(f.partition)
      && FileField(cs, vals, "record_count") == Some(VLong(ToI64(f.recordCount)))
      && FileField(cs, vals, "file_size_in_bytes") == Some(VLong(ToI64(f.fileSize)))
      && FileField(cs, vals, "key_metadata") == Some(f.keyMetadata)
      && FileField(cs, vals, "equality_ids") == Some(f.equalityIds)
      && FileField(cs, vals, "first_row_id") == Some(f.firstRowId)
  {
    hide DataFileDefs, DataFileVals, MakeFields, MakeVals, FieldNamed;
    var defs, vals := DataFileDefs(cs), DataFileVals(f);
    Layout(cs, f);
    FileNames(cs);
    FieldFound(defs, vals, 0);
    FieldFound(defs, vals, 1);
    FieldFound(defs, vals, 3);
    FieldFound(defs, vals, 4);
    FieldFound(defs, vals, 5);
    FieldFound(defs, vals, 12);
    FieldFound(defs, vals, 14);
    FieldFound(defs, vals, 16);
  }

  /** What a reader makes of a written entry: everything as given, the sequence number of
      the manifest, the partition text as far as it survives, and no statistics. */
  function ReadBack(cs: seq<Column>, json: Json, f: DataFileEntry, sequenceNumber: int): DataFileEntry {
    var kept := json.write(ExtensionOf(f)).Some?;
    var native := NativePartition(Some(VRecord(MakeVals(SlotValues(cs, PartsOf(f.partitionValue))))));
    f.(index := if kept then f.index else NO_INDEX,
       partitionValue := if kept then ReadPartition(cs, f.partitionValue) else native,
       columnStats := None,
       sequenceNumber := sequenceNumber)
  }

  lemma {:induction false} DataEntryReadBack(
    cs: seq<Column>, json: Json, f: DataFileEntry, snapshotId: int, sequenceNumber: int)
    requires EntryFits(f) && Faithful(json)
    ensures ReadDataEntry(cs, json, EntryValue(snapshotId, sequenceNumber, DataFields(cs, json, f)))
         == [ReadBack(cs, json, f, sequenceNumber)]
  {
    hide FileField, DataFileOf, SequenceNumberOf, MakeVals, DataFileVals, EntryVals, NativePartition, SlotValues, PartsOf;
    hide StatsFit, TextSized, Ascii;
    var fields := DataFields(cs, json, f);
    EntryLookups(cs, snapshotId, sequenceNumber, fields);
    FileLookups(cs, fields);
    var bytes := json.write(ExtensionOf(f));
    assert ReadExtension(json, NullableBytesOf(Some(fields.keyMetadata)))
        == if bytes.Some? then Some(ExtensionOf(f)) else None;
    assert NullableLongOf(Some(fields.firstRowId)) == f.firstRowId;
  }

  function ReadBacks(cs: seq<Column>, json: Json, files: seq<DataFileEntry>, sequenceNumber: int): (r: seq<DataFileEntry>)
    ensures |r| == |files| && forall i :: 0 <= i < |r| ==> r[i] == ReadBack(cs, json, files[i], sequenceNumber)
  {
    seq(|files|, i requires 0 <= i < |files| => ReadBack(cs, json, files[i], sequenceNumber))
  }

  lemma {:induction false} EntriesReadBack(
    cs: seq<Column>, json: Json, files: seq<DataFileEntry>, snapshotId: int, sequenceNumber: int)
    requires Faithful(json) && forall i :: 0 <= i < |files| ==> EntryFits(files[i])
    ensures ReadDataEntries(cs, json, DataValues(cs, json, files, snapshotId, sequenceNumber))
         == ReadBacks(cs, json, files, sequenceNumber)
    decreases |files|
  {
    hide ReadDataEntry, ReadBack, EntryValue, DataFields, EntryFits;
    if files != [] {
      var n := |files| - 1;
      var vs := DataValues(cs, json, files, snapshotId, sequenceNumber);
      EntriesReadBack(cs, json, files[..n], snapshotId, sequenceNumber);
      assert vs[..n] == DataValues(cs, json, files[..n], snapshotId, sequenceNumber);
      DataEntryReadBack(cs, json, files[n], snapshotId, sequenceNumber);
      assert ReadBacks(cs, json, files, sequenceNumber)
          == ReadBacks(cs, json, files[..n], sequenceNumber) + [ReadBack(cs, json, files[n], sequenceNumber)];
    }
  }

  lemma {:induction false} DataObjects(
    cs: seq<Column>, json: Json, files: seq<DataFileEntry>, snapshotId: int, sequenceNumber: int,
    schemaText: Bytes, extra: seq<Pair>)
    requires IsI64(snapshotId) && IsI64(sequenceNumber) && JsonFits(json)
    requires forall i :: 0 <= i < |files| ==> EntryFits(files[i])
    requires Writable(schemaText, extra,
                      EncodeAll(EntrySchema(cs), DataValues(cs, json, files, snapshotId, sequenceNumber)))
    ensures var vs := DataValues(cs, json, files, snapshotId, sequenceNumber);
      ManifestObjects(cs, ContainerBytes(schemaText, extra, EncodeAll(EntrySchema(cs), vs))) == Some(vs)
  {
    hide EntrySchema, EntryValue, DataFields, HasType, Writable, EntryFits, ContainerBytes, ReadContainer, ReadObjects,
         WrittenMeta, WrittenBlocks, EncodeAll, IsI64;
    var vs := DataValues(cs, json, files, snapshotId, sequenceNumber);
    forall i | 0 <= i < |vs| ensures HasType(EntrySchema(cs), vs[i]) {
      DataFieldsFit(cs, json, files[i]);
      EntryTyped(cs, snapshotId, sequenceNumber, DataFields(cs, json, files[i]));
    }
    ContainerRoundTrip(schemaText, extra, EncodeAll(EntrySchema(cs), vs));
    RecordsRoundTrip(EntrySchema(cs), vs);
  }

  /** Reading a written manifest gives the files in order, each with the path, counts, index
      fields and row id it had, stamped with the manifest's sequence number. */
  lemma {:induction false} ManifestRoundTrip(
    cs: seq<Column>, json: Json, files: seq<DataFileEntry>, snapshotId: int, sequenceNumber: int,
    schemaText: Bytes, extra: seq<Pair>)
    requires IsI64(snapshotId) && IsI64(sequenceNumber) && Faithful(json)
    requires forall i :: 0 <= i < |files| ==> EntryFits(files[i])
    requires Writable(schemaText, extra,
                      EncodeAll(EntrySchema(cs), DataValues(cs, json, files, snapshotId, sequenceNumber)))
    ensures var bytes := ContainerBytes(schemaText, extra,
                           EncodeAll(EntrySchema(cs), DataValues(cs, json, files, snapshotId, sequenceNumber)));
      && ManifestObjects(cs, bytes).Some?
      && ReadDataEntries(cs, json, ManifestObjects(cs, bytes).value) == ReadBacks(cs, json, files, sequenceNumber)
  {
    hide ManifestObjects, ContainerBytes, EncodeAll, DataValues, ReadDataEntries, ReadBacks, Writable, EntryFits, IsI64;
    DataObjects(cs, json, files, snapshotId, sequenceNumber, schemaText, extra);
    EntriesReadBack(cs, json, files, snapshotId, sequenceNumber);
  }

  // ---- statistics ----------------------------------------------------------------

  /** The value under an integer key of a nullable key-value array. */
  function MapGet(items: Vals, id: int): Option<Value> {
    match items
    case VNil => None
    case VCons(VRecord(VCons(VInt(k), VCons(v, VNil))), t) => if k == id then Some(v) else MapGet(t, id)
    case VCons(_, t) => MapGet(t, id)
  }

  function StatOf(v: Option<Value>, id: int): Option<Value> {
    match v
    case Some(VUnion(_, VArray(items))) => MapGet(items, id)
    case _ => None
  }

  function StatField(which: Stat): string {
    match which
    case ColumnSize => "column_sizes"
    case ValueCount => "value_counts"
    case NullCount => "null_value_counts"
    case LowerBound => "lower_bounds"
    case UpperBound => "upper_bounds"
  }

  ghost predicate DistinctKeys(stats: Stats) {
    forall i, j :: 0 <= i < j < |stats| ==> stats[i].0 != stats[j].0
  }

  lemma {:induction false} MapGetSnoc(vs: seq<Value>, entry: (int, Value), id: int)
    ensures MapGet(MakeVals(vs + [PairValue(entry)]), id)
         == if MapGet(MakeVals(vs), id).Some? then MapGet(MakeVals(vs), id)
            else if entry.0 == id then Some(entry.1) else None
    decreases |vs|
  {
    if vs == [] {
      assert [] + [PairValue(entry)] == [PairValue(entry)] && [PairValue(entry)][1..] == [];
      var pair := [VInt(entry.0), entry.1];
      assert pair[1..] == [entry.1] && [entry.1][1..] == [];
      assert MakeVals(pair) == VCons(VInt(entry.0), MakeVals(pair[1..]));
      assert MakeVals([entry.1]) == VCons(entry.1, MakeVals([]));
    } else {
      assert (vs + [PairValue(entry)])[1..] == vs[1..] + [PairValue(entry)];
      MapGetSnoc(vs[1..], entry, id);
    }
  }

  function Written(stats: Stats, which: Stat, id: int): Option<Value> {
    MapGet(MakeVals(PairValues(Selected(stats, which))), id)
  }

  lemma {:induction false} WrittenStep(stats: Stats, which: Stat, id: int)
    requires stats != []
    ensures var front, last := Written(stats[..|stats| - 1], which, id), stats[|stats| - 1];
      Written(stats, which, id) == if front.Some? then front else if last.0 == id then which.Of(last.1) else None
  {
    hide PairValue, MapGet;
    var last, before := stats[|stats| - 1], Selected(stats[..|stats| - 1], which);
    if which.Of(last.1).Some? {
      var entry := (last.0, which.Of(last.1).value);
      assert PairValues(before + [entry]) == PairValues(before) + [PairValue(entry)];
      MapGetSnoc(PairValues(before), entry, id);
    } else {
      assert Selected(stats, which) == before;
    }
  }

  /** In the written array each field id leads to its own statistic, and no other id to any. */
  lemma {:induction false} SelectedFound(stats: Stats, which: Stat, id: int)
    requires DistinctKeys(stats)
    ensures forall i :: 0 <= i < |stats| && stats[i].0 == id ==> Written(stats, which, id) == which.Of(stats[i].1)
    ensures (forall i :: 0 <= i < |stats| ==> stats[i].0 != id) ==> Written(stats, which, id) == None
    decreases |stats|
  {
    hide Written, Stat.Of;
    if stats == [] {
      WrittenNothing(which, id);
    } else {
      var n := |stats| - 1;
      var front := stats[..n];
      SelectedFound(front, which, id);
      WrittenStep(stats, which, id);
      assert forall k :: 0 <= k < n ==> front[k] == stats[k];
    }
  }

  lemma {:induction false} WrittenNothing(which: Stat, id: int)
    ensures Written([], which, id) == None
  {
    EmptyPairs();
    NoEntry(id);
  }

  lemma {:induction false} NoEntry(id: int)
    ensures MapGet(MakeVals([]), id) == None
  {
  }

  lemma {:induction false} StatNames(cs: seq<Column>, f: FileFields, which: Stat)
    ensures FileField(cs, MakeVals(DataFileVals(f)), StatField(which)) == Some(MapValue(f.stats, which))
  {
    hide DataFileDefs, DataFileVals, MakeFields, MakeVals, FieldNamed, MapValue;
    var defs, vals := DataFileDefs(cs), DataFileVals(f);
    Layout(cs, f);
    FileNames(cs);
    StatPositions(cs);
    FieldFound(defs, vals, 6);
    FieldFound(defs, vals, 7);
    FieldFound(defs, vals, 8);
    FieldFound(defs, vals, 10);
    FieldFound(defs, vals, 11);
  }

  lemma {:induction false} StatPositions(cs: seq<Column>)
    ensures var defs := DataFileDefs(cs);
      && defs[6].0 == "column_sizes" && defs[7].0 == "value_counts" && defs[8].0 == "null_value_counts"
      && defs[10].0 == "lower_bounds" && defs[11].0 == "upper_bounds"
  {
    hide MapSchema, Nullable, PartitionDefs, MakeFields;
  }

  /** A reader that looks a statistic up by the standard's field name and the column's field id
      finds exactly what the file entry carried, for each of the five statistics. */
  lemma {:induction false} StatisticsReadable(cs: seq<Column>, f: FileFields, which: Stat, i: nat)
    requires f.stats.Some? && DistinctKeys(f.stats.value) && i < |f.stats.value|
    ensures StatOf(FileField(cs, MakeVals(DataFileVals(f)), StatField(which)), f.stats.value[i].0)
         == which.Of(f.stats.value[i].1)
  {
    hide FileField, DataFileVals, Selected, MapGet, StatField, PairValues, Stat.Of;
    StatNames(cs, f, which);
    SelectedFound(f.stats.value, which, f.stats.value[i].0);
    if Selected(f.stats.value, which) == [] {
      EmptyPairs();
      NoEntry(f.stats.value[i].0);
    }
  }

  lemma {:induction false} EmptyPairs()
    ensures PairValues([]) == []
  {
  }

  /** Status, snapshot id and file sequence number are found under their names too. */
  lemma {:induction false} EntryHeadReadable(cs: seq<Column>, snapshotId: int, sequenceNumber: int, f: FileFields)
    ensures var fields, entry := MakeFields(EntryDefs(cs)), MakeVals(EntryVals(snapshotId, sequenceNumber, f));
      && FieldNamed(fields, entry, "status") == Some(VInt(1))
      && NullableLongOf(FieldNamed(fields, entry, "snapshot_id")) == Some(snapshotId)
      && NullableLongOf(FieldNamed(fields, entry, "file_sequence_number")) == Some(sequenceNumber)
  {
    hide DataFileDefs, DataFileVals, Nullable;
    var defs, vals := EntryDefs(cs), EntryVals(snapshotId, sequenceNumber, f);
    assert |"status"| == 6 && |"snapshot_id"| == 11 && |"sequence_number"| == 15 && |"file_sequence_number"| == 20;
    FieldFound(defs, vals, 0);
    FieldFound(defs, vals, 1);
    FieldFound(defs, vals, 3);
  }

  /** The header of a data manifest, looked up by key: the schema and spec texts, the number of
      the spec, version 3 or 2, and that it holds data. */
  lemma {:induction false} DataHeaderReadable(
    schemaText: Bytes, tableSchema: Bytes, specJson: Bytes, formatVersion: nat, spec: Option<T.ResolvedSpec>)
    ensures var meta := WrittenMeta(schemaText, DataMeta(tableSchema, specJson, formatVersion, spec));
      && Lookup(meta, Ascii("schema")) == Some(tableSchema) && Lookup(meta, Ascii("partition-spec")) == Some(specJson)
      && Lookup(meta, Ascii("format-version")) == Some([if formatVersion >= 3 then 0x33 else 0x32])
      && Lookup(meta, Ascii("content")) == Some([0x64, 0x61, 0x74, 0x61])
      && var id := Lookup(meta, Ascii("partition-spec-id"));
      && id.Some? && DecimalText.ParseInt(id.value) == Some(if spec.None? then 0 else spec.value.id)
  {
    hide Lookup, DecimalText.ParseInt, DecimalText.ShowInt;
    var id := if spec.None? then 0 else spec.value.id;
    var version: Bytes := [if formatVersion >= 3 then 0x33 else 0x32];
    assert Ascii(if formatVersion >= 3 then "3" else "2") == version;
    assert Ascii("data") == [0x64, 0x61, 0x74, 0x61];
    HeaderPairs(schemaText, tableSchema, specJson, DecimalText.ShowInt(id), version, Ascii("data"));
    DecimalText.IntRoundTrip(id);
  }

  /** Every file of a data manifest is marked as data. */
  lemma {:induction false} DataContentReadable(cs: seq<Column>, json: Json, f: DataFileEntry)
    ensures FieldNamed(MakeFields(DataFileDefs(cs)), MakeVals(DataFileVals(DataFields(cs, json, f))), "content") == Some(VInt(0))
  {
    hide FieldNamed, MapValue, MapSchema, SlotValues, PartsOf, PartitionDefs;
    FieldFound(DataFileDefs(cs), DataFileVals(DataFields(cs, json, f)), 0);
  }
}
