/** Manifest lists: one record per manifest with its path and content kind. */
module ManifestLists {
  import opened Wrappers
  import opened AvroBinary
  import opened AvroContainer
  import opened AvroRecords
  import opened PartitionCodec
  import opened ManifestCodec
  import opened ManifestFiles
  import opened DeleteManifests

  /** A manifest to list: content 0 for data, 1 for deletes. */
  datatype Listed = Listed(path: Bytes, length: int, content: int)

  function SummaryDefs(): seq<FieldDef> {
    [ ("contains_null", SBoolean),
      ("contains_nan", Nullable(SBoolean)),
      ("lower_bound", Nullable(SBytes)),
      ("upper_bound", Nullable(SBytes)) ]
  }

  function ListDefs(): (r: seq<FieldDef>)
    ensures |r| == 14
  {
    [ ("manifest_path", SString),
      ("manifest_length", SLong),
      ("partition_spec_id", SInt),
      ("content", SInt),
      ("sequence_number", SLong),
      ("min_sequence_number", SLong),
      ("added_snapshot_id", SLong),
      ("added_data_files_count", SInt),
      ("existing_data_files_count", SInt),
      ("deleted_data_files_count", SInt),
      ("added_rows_count", SLong),
      ("existing_rows_count", SLong),
      ("deleted_rows_count", SLong),
      ("partitions", SArray(SRecord(MakeFields(SummaryDefs())))) ]
  }

  function ListSchema(): Schema {
    SRecord(MakeFields(ListDefs()))
  }

  function ListVals(m: Listed, snapshotId: int, sequenceNumber: int, rows: int): (r: seq<Value>)
    ensures |r| == 14
  {
    [ VString(m.path),
      VLong(m.length),
      VInt(0),
      VInt(m.content),
      VLong(sequenceNumber),
      VLong(sequenceNumber),
      VLong(snapshotId),
      VInt(1),
      VInt(0),
      VInt(0),
      VLong(rows),
      VLong(0),
      VLong(0),
      VArray(VNil) ]
  }

  function ListValue(m: Listed, snapshotId: int, sequenceNumber: int, rows: int): Value {
    VRecord(MakeVals(ListVals(m, snapshotId, sequenceNumber, rows)))
  }

  predicate ListedFits(m: Listed) {
    |m.path| <= I64_MAX && IsI64(m.length) && IsI32(m.content)
  }

  lemma {:induction false} ListTyped(m: Listed, snapshotId: int, sequenceNumber: int, rows: int)
    requires ListedFits(m) && IsI64(snapshotId) && IsI64(sequenceNumber) && IsI64(rows)
    ensures HasType(ListSchema(), ListValue(m, snapshotId, sequenceNumber, rows))
  {
    hide FieldsHaveType, HasType, ListDefs, ListVals;
    var defs, vals := ListDefs(), ListVals(m, snapshotId, sequenceNumber, rows);
    ListLayout(m, snapshotId, sequenceNumber, rows);
    var none := SRecord(MakeFields(SummaryDefs()));
    Scalars(m.length, m.content, m.path, none);
    Scalars(sequenceNumber, 0, [], none);
    Scalars(snapshotId, 1, [], none);
    Scalars(rows, 0, [], none);
    Scalars(0, 0, [], none);
    assert Typed(defs, vals);
    RecordTyped(defs, vals);
    WholeRecord(MakeFields(defs), MakeVals(vals));
  }

  lemma {:induction false} Scalars(n: int, k: int, b: Bytes, e: Schema)
    requires IsI64(n) && IsI32(k) && |b| <= I64_MAX
    ensures HasType(SLong, VLong(n)) && HasType(SInt, VInt(k)) && HasType(SString, VString(b))
    ensures HasType(SArray(e), VArray(VNil))
  {
  }

  lemma {:induction false} ListEncoding(m: Listed, snapshotId: int, sequenceNumber: int, rows: int)
    ensures Encode(ListSchema(), ListValue(m, snapshotId, sequenceNumber, rows))
         == EncodePrefix(ListDefs(), ListVals(m, snapshotId, sequenceNumber, rows), 14)
  {
    hide EncodeFields, EncodePrefix, ListDefs, ListVals;
    RecordEncoding(ListDefs(), ListVals(m, snapshotId, sequenceNumber, rows));
  }

  lemma {:induction false} ListLayout(m: Listed, snapshotId: int, sequenceNumber: int, rows: int)
    ensures var defs, vals := ListDefs(), ListVals(m, snapshotId, sequenceNumber, rows);
      && (defs[0].1, vals[0]) == (SString, VString(m.path))
      && (defs[1].1, vals[1]) == (SLong, VLong(m.length))
      && (defs[2].1, vals[2]) == (SInt, VInt(0))
      && (defs[3].1, vals[3]) == (SInt, VInt(m.content))
      && (defs[4].1, vals[4]) == (SLong, VLong(sequenceNumber))
      && (defs[5].1, vals[5]) == (SLong, VLong(sequenceNumber))
      && (defs[6].1, vals[6]) == (SLong, VLong(snapshotId))
      && (defs[7].1, vals[7]) == (SInt, VInt(1))
      && (defs[8].1, vals[8]) == (SInt, VInt(0))
      && (defs[9].1, vals[9]) == (SInt, VInt(0))
      && (defs[10].1, vals[10]) == (SLong, VLong(rows))
      && (defs[11].1, vals[11]) == (SLong, VLong(0))
      && (defs[12].1, vals[12]) == (SLong, VLong(0))
      && (defs[13].1, vals[13]) == (SArray(SRecord(MakeFields(SummaryDefs()))), VArray(VNil))
      && defs[0].0 == "manifest_path" && defs[3].0 == "content"
      && (forall j :: 0 <= j < 3 ==> defs[j].0 != "content")
  {
    hide SummaryDefs, MakeFields;
    assert |"manifest_path"| == 13 && |"manifest_length"| == 15 && |"partition_spec_id"| == 17 && |"content"| == 7;
  }

  method EncodeListHead(buf: ByteBuffer, m: Listed, snapshotId: int, sequenceNumber: int, ghost rows: int)
    requires ListedFits(m) && IsI64(snapshotId) && IsI64(sequenceNumber)
    modifies buf
    ensures buf.data == old(buf.data) + EncodePrefix(ListDefs(), ListVals(m, snapshotId, sequenceNumber, rows), 7)
  {
    hide EncLong, EncBytes, Encode, EncodePrefix, ListDefs, ListVals;
    ghost var defs, vals, start := ListDefs(), ListVals(m, snapshotId, sequenceNumber, rows), buf.data;
    EmptyPrefix(start, defs, vals);
    ListLayout(m, snapshotId, sequenceNumber, rows);
    ScalarEncoding(m.length, m.path);
    ScalarEncoding(0, []);
    ScalarEncoding(m.content, []);
    ScalarEncoding(sequenceNumber, []);
    ScalarEncoding(snapshotId, []);
    Appended(start, buf.data, EncBytes(m.path), defs, vals, 0);
    buf.EncodeBytesField(m.path);
    Appended(start, buf.data, EncLong(m.length), defs, vals, 1);
    buf.EncodeLong(m.length);
    Appended(start, buf.data, EncLong(0), defs, vals, 2);
    buf.EncodeInt(0);
    Appended(start, buf.data, EncLong(m.content), defs, vals, 3);
    buf.EncodeInt(m.content);
    Appended(start, buf.data, EncLong(sequenceNumber), defs, vals, 4);
    buf.EncodeLong(sequenceNumber);
    Appended(start, buf.data, EncLong(sequenceNumber), defs, vals, 5);
    buf.EncodeLong(sequenceNumber);
    Appended(start, buf.data, EncLong(snapshotId), defs, vals, 6);
    buf.EncodeLong(snapshotId);
  }

  /** One record of the list. */
  method EncodeListed(m: Listed, snapshotId: int, sequenceNumber: int, rows: int) returns (rec: Bytes)
    requires ListedFits(m) && IsI64(snapshotId) && IsI64(sequenceNumber) && IsI64(rows)
    ensures rec == Encode(ListSchema(), ListValue(m, snapshotId, sequenceNumber, rows))
  {
    hide EncLong, Encode, EncodePrefix, ListDefs, ListVals, SummaryDefs, MakeFields, MakeVals;
    ghost var defs, vals, start := ListDefs(), ListVals(m, snapshotId, sequenceNumber, rows), [];
    ListLayout(m, snapshotId, sequenceNumber, rows);
    ScalarEncoding(0, []);
    ScalarEncoding(1, []);
    ScalarEncoding(rows, []);
    EmptyArray(SRecord(MakeFields(SummaryDefs())));
    var buf := new ByteBuffer();
    EncodeListHead(buf, m, snapshotId, sequenceNumber, rows);
    Appended(start, buf.data, EncLong(1), defs, vals, 7);
    buf.EncodeInt(1);
    Appended(start, buf.data, EncLong(0), defs, vals, 8);
    buf.EncodeInt(0);
    Appended(start, buf.data, EncLong(0), defs, vals, 9);
    buf.EncodeInt(0);
    Appended(start, buf.data, EncLong(rows), defs, vals, 10);
    buf.EncodeLong(rows);
    Appended(start, buf.data, EncLong(0), defs, vals, 11);
    buf.EncodeLong(0);
    Appended(start, buf.data, EncLong(0), defs, vals, 12);
    buf.EncodeLong(0);
    Appended(start, buf.data, EncLong(0), defs, vals, 13);
    buf.EncodeLong(0);
    rec := buf.data;
    ListEncoding(m, snapshotId, sequenceNumber, rows);
  }

  lemma {:induction false} EmptyArray(e: Schema)
    ensures Encode(SArray(e), VArray(VNil)) == EncLong(0)
  {
    hide EncLong;
  }

  // ---- whole lists ---------------------------------------------------------------

  /** Added rows are counted on the last manifest of the list. */
  function RowsAt(n: nat, i: nat, addedRows: int): int {
    if i + 1 == n then addedRows else 0
  }

  function ListValues(ms: seq<Listed>, snapshotId: int, sequenceNumber: int, addedRows: int): (r: seq<Value>)
    ensures |r| == |ms|
    ensures forall i :: 0 <= i < |r| ==>
      r[i] == ListValue(ms[i], snapshotId, sequenceNumber, RowsAt(|ms|, i, addedRows))
  {
    seq(|ms|, i requires 0 <= i < |ms| => ListValue(ms[i], snapshotId, sequenceNumber, RowsAt(|ms|, i, addedRows)))
  }

  method WriteManifestList(
    ms: seq<Listed>, snapshotId: int, sequenceNumber: int, addedRows: int, schemaText: Bytes) returns (out: Bytes)
    requires IsI64(snapshotId) && IsI64(sequenceNumber) && IsI64(addedRows)
    requires forall i :: 0 <= i < |ms| ==> ListedFits(ms[i])
    requires Writable(schemaText, [], EncodeAll(ListSchema(), ListValues(ms, snapshotId, sequenceNumber, addedRows)))
    ensures out == ContainerBytes(schemaText, [],
                                  EncodeAll(ListSchema(), ListValues(ms, snapshotId, sequenceNumber, addedRows)))
  {
    hide ListSchema, ListValue, Encode, Writable, ListedFits, ContainerBytes;
    ghost var all := EncodeAll(ListSchema(), ListValues(ms, snapshotId, sequenceNumber, addedRows));
    var records: seq<Bytes> := [];
    for i := 0 to |ms|
      invariant records == all[..i]
    {
      var rows := if i + 1 == |ms| then addedRows else 0;
      var rec := EncodeListed(ms[i], snapshotId, sequenceNumber, rows);
      records := records + [rec];
    }
    assert all[..|ms|] == all;
    out := WriteAvroContainer(schemaText, [], records);
  }

  /** A listed path with its content, or nothing without a path. */
  function ReadListed(v: Value): seq<(Bytes, int)> {
    if !v.VRecord? then []
    else
      var fields := MakeFields(ListDefs());
      var path := StringOf(FieldNamed(fields, v.vals, "manifest_path"));
      if path.None? then [] else [(path.value, IntOf(FieldNamed(fields, v.vals, "content")))]
  }

  function ReadList(vs: seq<Value>): seq<(Bytes, int)> {
    if vs == [] then [] else ReadList(vs[..|vs| - 1]) + ReadListed(vs[|vs| - 1])
  }

  function ListObjects(data: Bytes): Option<seq<Value>> {
    var file := ReadContainer(data);
    if file.None? then None else ReadObjects(ListSchema(), file.value.blocks)
  }

  method ReadManifestList(data: Bytes) returns (r: Option<seq<(Bytes, int)>>)
    ensures r == var vs := ListObjects(data); if vs.None? then None else Some(ReadList(vs.value))
  {
    hide ReadListed, ListObjects;
    var values := ListObjects(data);
    if values.None? {
      return None;
    }
    var vs, results := values.value, [];
    for i := 0 to |vs|
      invariant results == ReadList(vs[..i])
    {
      assert vs[..i + 1][..i] == vs[..i];
      results := results + ReadListed(vs[i]);
    }
    assert vs[..|vs|] == vs;
    r := Some(results);
  }

  lemma {:induction false} ListedReadBack(m: Listed, snapshotId: int, sequenceNumber: int, rows: int)
    ensures ReadListed(ListValue(m, snapshotId, sequenceNumber, rows)) == [(m.path, m.content)]
  {
    hide ListDefs, ListVals, MakeFields, MakeVals, FieldNamed;
    var defs, vals := ListDefs(), ListVals(m, snapshotId, sequenceNumber, rows);
    ListLayout(m, snapshotId, sequenceNumber, rows);
    FieldFound(defs, vals, 0);
    FieldFound(defs, vals, 3);
  }

  lemma {:induction false} ListNames()
    ensures var defs := ListDefs();
      && defs[1].0 == "manifest_length" && defs[4].0 == "sequence_number" && defs[6].0 == "added_snapshot_id"
      && defs[10].0 == "added_rows_count"
      && (forall j :: 0 <= j < 1 ==> defs[j].0 != "manifest_length") && (forall j :: 0 <= j < 4 ==> defs[j].0 != "sequence_number")
      && (forall j :: 0 <= j < 6 ==> defs[j].0 != "added_snapshot_id")
      && (forall j :: 0 <= j < 10 ==> defs[j].0 != "added_rows_count")
  {
    hide SummaryDefs, MakeFields;
    assert |"manifest_path"| == 13 && |"manifest_length"| == 15 && |"partition_spec_id"| == 17 && |"content"| == 7;
    assert |"sequence_number"| == 15 && |"min_sequence_number"| == 19 && |"added_snapshot_id"| == 17;
    assert |"added_data_files_count"| == 22 && |"existing_data_files_count"| == 25 && |"deleted_data_files_count"| == 24;
    assert |"added_rows_count"| == 16;
    assert "manifest_length"[0] == 'm' && "sequence_number"[0] == 's' && "partition_spec_id"[0] == 'p' && "added_snapshot_id"[0] == 'a';
  }

  /** What a reader that looks fields up by name finds in a record of the list. */
  ghost predicate Summarises(v: Value, m: Listed, snapshotId: int, sequenceNumber: int, rows: int) {
    && v.VRecord?
    && var fields := MakeFields(ListDefs());
    && FieldNamed(fields, v.vals, "manifest_length") == Some(VLong(m.length))
    && FieldNamed(fields, v.vals, "sequence_number") == Some(VLong(sequenceNumber))
    && FieldNamed(fields, v.vals, "added_snapshot_id") == Some(VLong(snapshotId))
    && FieldNamed(fields, v.vals, "added_rows_count") == Some(VLong(rows))
  }

  lemma {:induction false} ListedSummary(m: Listed, snapshotId: int, sequenceNumber: int, rows: int)
    ensures Summarises(ListValue(m, snapshotId, sequenceNumber, rows), m, snapshotId, sequenceNumber, rows)
  {
    hide ListDefs, ListVals, MakeFields, MakeVals, FieldNamed;
    var defs, vals := ListDefs(), ListVals(m, snapshotId, sequenceNumber, rows);
    ListLayout(m, snapshotId, sequenceNumber, rows);
    ListNames();
    FieldFound(defs, vals, 1);
    FieldFound(defs, vals, 4);
    FieldFound(defs, vals, 6);
    FieldFound(defs, vals, 10);
  }

  function PathsAndContents(ms: seq<Listed>): (r: seq<(Bytes, int)>)
    ensures |r| == |ms| && forall i :: 0 <= i < |r| ==> r[i] == (ms[i].path, ms[i].content)
  {
    seq(|ms|, i requires 0 <= i < |ms| => (ms[i].path, ms[i].content))
  }

  lemma {:induction false} ReadPrefix(ms: seq<Listed>, k: nat, snapshotId: int, sequenceNumber: int, addedRows: int)
    requires k <= |ms|
    ensures ReadList(ListValues(ms, snapshotId, sequenceNumber, addedRows)[..k]) == PathsAndContents(ms)[..k]
  {
    hide ReadListed, ListValue;
    var vs := ListValues(ms, snapshotId, sequenceNumber, addedRows);
    if k > 0 {
      ReadPrefix(ms, k - 1, snapshotId, sequenceNumber, addedRows);
      assert vs[..k][..k - 1] == vs[..k - 1];
      ListedReadBack(ms[k - 1], snapshotId, sequenceNumber, RowsAt(|ms|, k - 1, addedRows));
    }
  }

  /** Reading a written list gives every manifest's path and content kind, in order. Each record
      carries its manifest's length and the commit's snapshot and sequence number, and the rows
      added are counted on the last record and on no other. */
  lemma {:induction false} ManifestListRoundTrip(
    ms: seq<Listed>, snapshotId: int, sequenceNumber: int, addedRows: int, schemaText: Bytes)
    requires IsI64(snapshotId) && IsI64(sequenceNumber) && IsI64(addedRows)
    requires forall i :: 0 <= i < |ms| ==> ListedFits(ms[i])
    requires Writable(schemaText, [], EncodeAll(ListSchema(), ListValues(ms, snapshotId, sequenceNumber, addedRows)))
    ensures var bytes := ContainerBytes(schemaText, [],
                           EncodeAll(ListSchema(), ListValues(ms, snapshotId, sequenceNumber, addedRows)));
      && ListObjects(bytes).Some?
      && ReadList(ListObjects(bytes).value) == PathsAndContents(ms)
      && |ListObjects(bytes).value| == |ms|
      && forall i :: 0 <= i < |ms| ==>
           Summarises(ListObjects(bytes).value[i], ms[i], snapshotId, sequenceNumber, if i == |ms| - 1 then addedRows else 0)
  {
    hide ListSchema, ListValue, HasType, Writable, ListedFits, ContainerBytes, ReadContainer, ReadObjects,
         WrittenMeta, WrittenBlocks, EncodeAll, ReadList;
    var vs := ListValues(ms, snapshotId, sequenceNumber, addedRows);
    forall i | 0 <= i < |vs| ensures HasType(ListSchema(), vs[i]) {
      ListTyped(ms[i], snapshotId, sequenceNumber, RowsAt(|ms|, i, addedRows));
    }
    ContainerRoundTrip(schemaText, [], EncodeAll(ListSchema(), vs));
    RecordsRoundTrip(ListSchema(), vs);
    ReadPrefix(ms, |ms|, snapshotId, sequenceNumber, addedRows);
    assert vs[..|ms|] == vs && PathsAndContents(ms)[..|ms|] == PathsAndContents(ms);
    hide Summarises;
    forall i | 0 <= i < |ms| ensures Summarises(vs[i], ms[i], snapshotId, sequenceNumber, if i == |ms| - 1 then addedRows else 0) {
      ListedSummary(ms[i], snapshotId, sequenceNumber, RowsAt(|ms|, i, addedRows));
    }
  }
}
