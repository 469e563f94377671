/** Equality-delete manifests: the entries of `content = 2`, their writer and reader. */
module DeleteManifests {
  import opened Wrappers
  import opened AvroBinary
  import opened AvroContainer
  import opened AvroRecords
  import opened PartitionCodec
  import opened ManifestCodec
  import opened ManifestFiles
  import T = TableModel

  type EqualityDeleteFile = T.EqualityDelete

  function IntValues(ids: seq<int>): (r: seq<Value>)
    ensures |r| == |ids| && forall i :: 0 <= i < |r| ==> r[i] == VInt(ids[i])
  {
    seq(|ids|, i requires 0 <= i < |ids| => VInt(ids[i]))
  }

  function DeleteFields(d: EqualityDeleteFile): FileFields {
    FileFields(2, d.path, Ascii("AVRO"), VRecord(MakeVals([])), d.recordCount, d.fileSize, None, NULL_SLOT,
               VUnion(1, VArray(MakeVals(IntValues(d.equalityIds)))), NULL_SLOT)
  }

  predicate DeleteFits(d: EqualityDeleteFile) {
    && |d.path| <= I64_MAX && IsU64(d.recordCount) && IsU64(d.fileSize)
    && |d.equalityIds| <= I64_MAX && forall i :: 0 <= i < |d.equalityIds| ==> IsI32(d.equalityIds[i])
  }

  lemma {:induction false} DeleteFieldsFit(d: EqualityDeleteFile)
    requires DeleteFits(d)
    ensures FieldsFit([], DeleteFields(d))
  {
    hide Nullable;
    NullableTyped(SLong, VNull);
    NullableTyped(SBytes, VNull);
    ArrayTyped(SInt, IntValues(d.equalityIds));
    RecordTyped(PartitionDefs([]), []);
  }

  function DeleteValue(d: EqualityDeleteFile, snapshotId: int, sequenceNumber: int): Value {
    EntryValue(snapshotId, sequenceNumber, DeleteFields(d))
  }

  /** The bytes written for one delete. With no equality ids the array gets a block count of
      zero and a terminator, one byte more than the encoding of the empty array. */
  function DeleteRecord(d: EqualityDeleteFile, snapshotId: int, sequenceNumber: int): Bytes {
    Encode(EntrySchema([]), DeleteValue(d, snapshotId, sequenceNumber)) + (if d.equalityIds == [] then [0] else [])
  }

  method EncodeDeleteIdentity(buf: ByteBuffer, d: EqualityDeleteFile, ghost fields: FileFields)
    requires DeleteFits(d) && fields == DeleteFields(d)
    modifies buf
    ensures buf.data == old(buf.data) + EncodePrefix(DataFileDefs([]), DataFileVals(fields), 6)
  {
    hide EncLong, EncBytes, Encode, PartitionDefs, Ascii, EncodePrefix, DataFileDefs, DataFileVals;
    ghost var defs, vals, start := DataFileDefs([]), DataFileVals(fields), buf.data;
    EmptyPrefix(start, defs, vals);
    Layout([], fields);
    ScalarEncoding(2, d.path);
    ScalarEncoding(ToI64(d.recordCount), Ascii("AVRO"));
    ScalarEncoding(ToI64(d.fileSize), []);
    Appended(start, buf.data, EncLong(2), defs, vals, 0);
    buf.EncodeInt(2);
    Appended(start, buf.data, EncBytes(d.path), defs, vals, 1);
    buf.EncodeBytesField(d.path);
    Appended(start, buf.data, EncBytes(Ascii("AVRO")), defs, vals, 2);
    buf.EncodeBytesField(Ascii("AVRO"));
    NoPartition();
    Appended(start, buf.data, [], defs, vals, 3);
    assert buf.data + [] == buf.data;
    Appended(start, buf.data, EncLong(ToI64(d.recordCount)), defs, vals, 4);
    buf.EncodeLong(ToI64(d.recordCount));
    Appended(start, buf.data, EncLong(ToI64(d.fileSize)), defs, vals, 5);
    buf.EncodeLong(ToI64(d.fileSize));
  }

  lemma {:induction false} NoPartition()
    ensures Encode(SRecord(MakeFields(PartitionDefs([]))), VRecord(MakeVals([]))) == []
  {
    assert PartitionDefs([]) == [];
  }

  lemma {:induction false} NoStats(which: Stat)
    ensures MapValue(None, which) == NULL_SLOT
  {
  }

  /** Six null statistics, null key metadata and null split offsets. */
  method EncodeDeleteNulls(buf: ByteBuffer, ghost start: Bytes, ghost fields: FileFields)
    requires fields.stats == None && fields.keyMetadata == NULL_SLOT
    requires buf.data == start + EncodePrefix(DataFileDefs([]), DataFileVals(fields), 6)
    modifies buf
    ensures buf.data == start + EncodePrefix(DataFileDefs([]), DataFileVals(fields), 14)
  {
    hide EncLong, Encode, EncodePrefix, DataFileDefs, DataFileVals, MapValue, MapSchema, Nullable;
    ghost var defs, vals := DataFileDefs([]), DataFileVals(fields);
    Layout([], fields);
    NullMapEncoding(SLong);
    NullMapEncoding(SBytes);
    NullEncodings();
    NoStats(ColumnSize);
    NoStats(ValueCount);
    NoStats(NullCount);
    NoStats(LowerBound);
    NoStats(UpperBound);
    for i := 6 to 14
      invariant buf.data == start + EncodePrefix(defs, vals, i)
    {
      assert Encode(defs[i].1, vals[i]) == EncLong(0);
      Appended(start, buf.data, EncLong(0), defs, vals, i);
      buf.EncodeUnionNull();
    }
  }

  function IdsWritten(ids: seq<int>): Bytes {
    EncLong(1) + (EncLong(|ids|) + EncodeItems(SInt, MakeVals(IntValues(ids))) + EncLong(0))
  }

  /** The ids as an array: union index, block count, the ids, terminator. */
  method EncodeEqualityIds(buf: ByteBuffer, ids: seq<int>)
    requires |ids| <= I64_MAX && forall i :: 0 <= i < |ids| ==> IsI32(ids[i])
    modifies buf
    ensures buf.data == old(buf.data) + IdsWritten(ids)
  {
    hide EncLong, EncodeItems, Encode;
    ghost var items := IntValues(ids);
    buf.EncodeLong(1);
    buf.EncodeLong(|ids|);
    ghost var head := buf.data;
    assert items[..0] == [];
    NoItems(SInt);
    for i := 0 to |ids|
      invariant buf.data == head + EncodeItems(SInt, MakeVals(items[..i]))
    {
      assert items[..i + 1] == items[..i] + [items[i]];
      ItemsSnoc(SInt, items[..i], items[i]);
      ScalarEncoding(ids[i], []);
      buf.EncodeInt(ids[i]);
    }
    assert items[..|ids|] == items;
    buf.EncodeLong(0);
  }

  /** What `EncodeEqualityIds` and the two nulls after it amount to. */
  lemma {:induction false} IdsEncoding(ids: seq<int>)
    ensures IdsWritten(ids) + EncLong(0) + EncLong(0)
         == Encode(Nullable(SArray(SInt)), VUnion(1, VArray(MakeVals(IntValues(ids))))) + EncLong(0) + EncLong(0)
            + (if ids == [] then [0] else [])
  {
    if ids == [] {
      NullableEncoding(SArray(SInt), VArray(VNil));
      assert IntValues(ids) == [];
      NoItems(SInt);
      assert EncLong(0) == [0];
    } else {
      ArrayEncoding(SInt, IntValues(ids));
    }
  }

  method EncodeDeleteEntry(d: EqualityDeleteFile, snapshotId: int, sequenceNumber: int) returns (rec: Bytes)
    requires DeleteFits(d) && IsI64(snapshotId) && IsI64(sequenceNumber)
    ensures rec == DeleteRecord(d, snapshotId, sequenceNumber)
  {
    hide EncodePrefix, DataFileDefs, DataFileVals, EntryDefs, EntryVals, Encode, EncLong, IdsWritten, DeleteRecord;
    ghost var fields := DeleteFields(d);
    var buf := new ByteBuffer();
    EncodeEntryHead(buf, [], snapshotId, sequenceNumber, fields);
    ghost var start := buf.data;
    EncodeDeleteIdentity(buf, d, fields);
    EncodeDeleteNulls(buf, start, fields);
    ghost var mid := buf.data;
    EncodeEqualityIds(buf, d.equalityIds);
    buf.EncodeUnionNull();
    buf.EncodeUnionNull();
    rec := buf.data;
    DeleteAssembled(d, snapshotId, sequenceNumber, start, mid);
  }

  lemma {:induction false} DeleteAssembled(
    d: EqualityDeleteFile, snapshotId: int, sequenceNumber: int, start: Bytes, mid: Bytes)
    requires start == EncodePrefix(EntryDefs([]), EntryVals(snapshotId, sequenceNumber, DeleteFields(d)), 4)
    requires mid == start + EncodePrefix(DataFileDefs([]), DataFileVals(DeleteFields(d)), 14)
    ensures mid + IdsWritten(d.equalityIds) + EncLong(0) + EncLong(0) == DeleteRecord(d, snapshotId, sequenceNumber)
  {
    hide EncodePrefix, DataFileDefs, DataFileVals, EntryDefs, EntryVals, Encode, EncLong, IdsWritten, IntValues, MakeVals, Ascii;
    var fields := DeleteFields(d);
    DeleteTail(start, mid, fields);
    EntryEncoding([], snapshotId, sequenceNumber, fields);
    IdsEncoding(d.equalityIds);
    var stray: Bytes := if d.equalityIds == [] then [0] else [];
    var ids := Encode(Nullable(SArray(SInt)), fields.equalityIds);
    assert mid + IdsWritten(d.equalityIds) + EncLong(0) + EncLong(0)
        == mid + (IdsWritten(d.equalityIds) + EncLong(0) + EncLong(0));
    assert mid + (ids + EncLong(0) + EncLong(0) + stray) == (mid + ids + EncLong(0) + EncLong(0)) + stray;
  }

  lemma {:induction false} DeleteTail(start: Bytes, mid: Bytes, fields: FileFields)
    requires fields.firstRowId == NULL_SLOT
    requires mid == start + EncodePrefix(DataFileDefs([]), DataFileVals(fields), 14)
    ensures mid + Encode(Nullable(SArray(SInt)), fields.equalityIds) + EncLong(0) + EncLong(0)
         == start + EncodePrefix(DataFileDefs([]), DataFileVals(fields), 17)
  {
    hide EncLong, Encode, EncodePrefix, DataFileDefs, DataFileVals, Nullable;
    var defs, vals := DataFileDefs([]), DataFileVals(fields);
    Layout([], fields);
    NullEncodings();
    var ids := Encode(Nullable(SArray(SInt)), fields.equalityIds);
    Appended(start, mid, ids, defs, vals, 14);
    Appended(start, mid + ids, EncLong(0), defs, vals, 15);
    Appended(start, mid + ids + EncLong(0), EncLong(0), defs, vals, 16);
  }

  // ---- whole manifests -----------------------------------------------------------

  function DeleteValues(ds: seq<EqualityDeleteFile>, snapshotId: int, sequenceNumber: int): (r: seq<Value>)
    ensures |r| == |ds| && forall i :: 0 <= i < |r| ==> r[i] == DeleteValue(ds[i], snapshotId, sequenceNumber)
  {
    seq(|ds|, i requires 0 <= i < |ds| => DeleteValue(ds[i], snapshotId, sequenceNumber))
  }

  function DeleteRecords(ds: seq<EqualityDeleteFile>, snapshotId: int, sequenceNumber: int): (r: seq<Bytes>)
    ensures |r| == |ds| && forall i :: 0 <= i < |r| ==> r[i] == DeleteRecord(ds[i], snapshotId, sequenceNumber)
  {
    seq(|ds|, i requires 0 <= i < |ds| => DeleteRecord(ds[i], snapshotId, sequenceNumber))
  }

  function DeleteMeta(emptySchema: Bytes, emptySpec: Bytes): seq<Pair> {
    [ (Ascii("schema"), emptySchema),
      (Ascii("partition-spec"), emptySpec),
      (Ascii("partition-spec-id"), Ascii("0")),
      (Ascii("format-version"), Ascii("2")),
      (Ascii("content"), Ascii("deletes")) ]
  }

  method WriteEqualityDeleteManifest(
    ds: seq<EqualityDeleteFile>, snapshotId: int, sequenceNumber: int,
    schemaText: Bytes, emptySchema: Bytes, emptySpec: Bytes) returns (out: Bytes)
    requires IsI64(snapshotId) && IsI64(sequenceNumber)
    requires forall i :: 0 <= i < |ds| ==> DeleteFits(ds[i])
    requires Writable(schemaText, DeleteMeta(emptySchema, emptySpec), DeleteRecords(ds, snapshotId, sequenceNumber))
    ensures out == ContainerBytes(schemaText, DeleteMeta(emptySchema, emptySpec),
                                  DeleteRecords(ds, snapshotId, sequenceNumber))
  {
    hide DeleteRecord, Writable, DeleteFits, ContainerBytes, DeleteMeta;
    ghost var all := DeleteRecords(ds, snapshotId, sequenceNumber);
    var records: seq<Bytes> := [];
    for i := 0 to |ds|
      invariant records == all[..i]
    {
      var rec := EncodeDeleteEntry(ds[i], snapshotId, sequenceNumber);
      records := records + [rec];
    }
    assert all[..|ds|] == all;
    out := WriteAvroContainer(schemaText, DeleteMeta(emptySchema, emptySpec), records);
  }

  predicate NonEmptyIds(ds: seq<EqualityDeleteFile>) {
    forall i :: 0 <= i < |ds| ==> ds[i].equalityIds != []
  }

  /** An entry whose first byte is zero has status 0, which no written entry has. */
  lemma {:induction false} ZeroStatus(bs: Bytes)
    requires bs != [] && bs[0] == 0
    ensures var r := Decode(EntrySchema([]), bs);
      r.Done? ==> r.value.VRecord? && r.value.vals.VCons? && r.value.vals.head == VInt(0)
  {
    hide DataFileDefs, Nullable;
    assert DecodeVarint(bs, 10) == Done(0, bs[1..]);
    assert Decode(SInt, bs) == Done(VInt(0), bs[1..]);
    var defs := EntryDefs([]);
    assert defs[0] == ("status", SInt);
    assert MakeFields(defs) == FCons("status", SInt, MakeFields(defs[1..]));
  }

  lemma {:induction false} WrittenStatus(d: EqualityDeleteFile, snapshotId: int, sequenceNumber: int)
    ensures DeleteValue(d, snapshotId, sequenceNumber).vals.head == VInt(1)
  {
    hide DataFileVals;
  }

  lemma {:induction false} DeleteObjects(ds: seq<EqualityDeleteFile>, snapshotId: int, sequenceNumber: int)
    requires IsI64(snapshotId) && IsI64(sequenceNumber)
    requires forall i :: 0 <= i < |ds| ==> DeleteFits(ds[i])
    ensures DecodeObjects(EntrySchema([]), |ds|, Flatten(DeleteRecords(ds, snapshotId, sequenceNumber)))
         == Done(DeleteValues(ds, snapshotId, sequenceNumber), [])
       <==> NonEmptyIds(ds)
    decreases |ds|
  {
    hide EntrySchema, DeleteValue, Encode, Decode, HasType, DeleteFits, IsI64;
    var records, vs := DeleteRecords(ds, snapshotId, sequenceNumber), DeleteValues(ds, snapshotId, sequenceNumber);
    if ds != [] {
      var more, data := ds[1..], Flatten(records);
      var moreRecords, moreVs := DeleteRecords(more, snapshotId, sequenceNumber), DeleteValues(more, snapshotId, sequenceNumber);
      assert records[1..] == moreRecords && vs == [vs[0]] + moreVs;
      DeleteTyped(ds[0], snapshotId, sequenceNumber);
      var stray: Bytes := if ds[0].equalityIds == [] then [0] else [];
      var rest := stray + Flatten(moreRecords);
      assert data == Encode(EntrySchema([]), vs[0]) + rest;
      RoundTrip(EntrySchema([]), vs[0], rest);
      DeleteObjects(more, snapshotId, sequenceNumber);
      Cons(vs[0], DecodeObjects(EntrySchema([]), |more|, rest), moreVs);
      if ds[0].equalityIds != [] {
        assert rest == Flatten(moreRecords);
        NonEmptyIdsTail(ds);
      } else {
        assert !NonEmptyIds(ds);
        StrayByte(ds, snapshotId, sequenceNumber, rest);
      }
    }
  }

  lemma {:induction false} Cons(v: Value, tail: Parse<seq<Value>>, more: seq<Value>)
    ensures tail.Done? ==> ([v] + tail.value == [v] + more <==> tail.value == more)
  {
    if tail.Done? && [v] + tail.value == [v] + more {
      assert ([v] + tail.value)[1..] == tail.value && ([v] + more)[1..] == more;
    }
  }

  lemma {:induction false} NonEmptyIdsTail(ds: seq<EqualityDeleteFile>)
    requires ds != [] && ds[0].equalityIds != []
    ensures NonEmptyIds(ds) <==> NonEmptyIds(ds[1..])
  {
    if NonEmptyIds(ds[1..]) {
      forall i | 0 <= i < |ds| ensures ds[i].equalityIds != [] {
        assert i > 0 ==> ds[i] == ds[1..][i - 1];
      }
    }
  }

  lemma {:induction false} DeleteTyped(d: EqualityDeleteFile, snapshotId: int, sequenceNumber: int)
    requires DeleteFits(d) && IsI64(snapshotId) && IsI64(sequenceNumber)
    ensures HasType(EntrySchema([]), DeleteValue(d, snapshotId, sequenceNumber))
  {
    hide HasType, EntrySchema, EntryValue, FieldsFit, DeleteFields, DeleteFits;
    DeleteFieldsFit(d);
    EntryTyped([], snapshotId, sequenceNumber, DeleteFields(d));
  }

  /** After a stray zero byte the remaining entries cannot all come back. */
  lemma {:induction false} StrayByte(ds: seq<EqualityDeleteFile>, snapshotId: int, sequenceNumber: int, rest: Bytes)
    requires ds != [] && rest != [] && rest[0] == 0
    ensures DecodeObjects(EntrySchema([]), |ds| - 1, rest)
         != Done(DeleteValues(ds[1..], snapshotId, sequenceNumber), [])
  {
    hide EntrySchema, DeleteValue, Decode;
    if |ds| > 1 {
      ZeroStatus(rest);
      WrittenStatus(ds[1], snapshotId, sequenceNumber);
      assert DeleteValues(ds[1..], snapshotId, sequenceNumber)[0] == DeleteValue(ds[1], snapshotId, sequenceNumber);
    }
  }

  /** The records of a delete manifest for a reader that accepts no left-over bytes. */
  function StrictManifestObjects(data: Bytes): Option<seq<Value>> {
    var file := ReadContainer(data);
    if file.None? then None else StrictObjects(EntrySchema([]), file.value.blocks)
  }

  /** A strict reader gets exactly the written entries back if and only if every delete names
      at least one field. */
  lemma {:induction false} DeleteManifestStrict(
    ds: seq<EqualityDeleteFile>, snapshotId: int, sequenceNumber: int, schemaText: Bytes, extra: seq<Pair>)
    requires IsI64(snapshotId) && IsI64(sequenceNumber)
    requires forall i :: 0 <= i < |ds| ==> DeleteFits(ds[i])
    requires Writable(schemaText, extra, DeleteRecords(ds, snapshotId, sequenceNumber))
    ensures StrictManifestObjects(ContainerBytes(schemaText, extra, DeleteRecords(ds, snapshotId, sequenceNumber)))
         == Some(DeleteValues(ds, snapshotId, sequenceNumber))
       <==> NonEmptyIds(ds)
  {
    hide EntrySchema, Writable, DeleteFits, ContainerBytes, ReadContainer, WrittenMeta, IsI64, DecodeObjects, Flatten,
         DeleteRecord, DeleteValue;
    var records, vs := DeleteRecords(ds, snapshotId, sequenceNumber), DeleteValues(ds, snapshotId, sequenceNumber);
    ContainerRoundTrip(schemaText, extra, records);
    DeleteObjects(ds, snapshotId, sequenceNumber);
    var blocks := WrittenBlocks(records);
    if ds != [] {
      assert blocks[1..] == [];
      assert StrictObjects(EntrySchema([]), blocks[1..]) == Some([]);
      var got := DecodeObjects(EntrySchema([]), |ds|, Flatten(records));
      assert got.Done? ==> got.value + [] == got.value;
    }
  }

  // ---- reading -------------------------------------------------------------------

  function IntOf(v: Option<Value>): int {
    match v case Some(VInt(n)) => n case _ => 0
  }

  function Ints(vs: Vals): seq<int> {
    match vs
    case VNil => []
    case VCons(v, t) => (if v.VInt? then [v.n] else []) + Ints(t)
  }

  function IdsOf(v: Option<Value>): seq<int> {
    match v
    case Some(VUnion(_, VArray(items))) => Ints(items)
    case Some(VArray(items)) => Ints(items)
    case _ => []
  }

  /** What one decoded record contributes: a delete, or nothing unless `content` is 2. */
  function ReadDelete(v: Value): seq<EqualityDeleteFile> {
    if !v.VRecord? then []
    else
      var file := DataFileOf([], v.vals);
      if file.None? || !file.value.VRecord? then []
      else
        var vals := file.value.vals;
        var path := StringOf(FileField([], vals, "file_path"));
        if IntOf(FileField([], vals, "content")) != 2 || path.None? then []
        else
          [ T.EqualityDelete(
              path.value,
              IdsOf(FileField([], vals, "equality_ids")),
              UnsignedOf(FileField([], vals, "record_count")),
              UnsignedOf(FileField([], vals, "file_size_in_bytes")),
              SequenceNumberOf([], v.vals)) ]
  }

  function ReadDeletes(vs: seq<Value>): seq<EqualityDeleteFile> {
    if vs == [] then [] else ReadDeletes(vs[..|vs| - 1]) + ReadDelete(vs[|vs| - 1])
  }

  /** What the catalog's reader makes of a manifest: nothing when a record does not decode. */
  function DecodedDeletes(data: Bytes): Option<seq<EqualityDeleteFile>> {
    var vs := ManifestObjects([], data);
    if vs.None? then None else Some(ReadDeletes(vs.value))
  }

  method ReadEqualityDeleteManifest(data: Bytes) returns (r: Option<seq<EqualityDeleteFile>>)
    ensures r == DecodedDeletes(data)
  {
    hide ReadDelete, ManifestObjects;
    var values := ManifestObjects([], data);
    if values.None? {
      return None;
    }
    var vs, results := values.value, [];
    for i := 0 to |vs|
      invariant results == ReadDeletes(vs[..i])
    {
      assert vs[..i + 1][..i] == vs[..i];
      results := results + ReadDelete(vs[i]);
    }
    assert vs[..|vs|] == vs;
    r := Some(results);
  }

  lemma {:induction false} IntsOfValues(ids: seq<int>)
    ensures Ints(MakeVals(IntValues(ids))) == ids
    decreases |ids|
  {
    if ids != [] {
      assert IntValues(ids)[1..] == IntValues(ids[1..]);
      IntsOfValues(ids[1..]);
      assert [ids[0]] + ids[1..] == ids;
    }
  }

  lemma {:induction false} DeleteReadBack(d: EqualityDeleteFile, snapshotId: int, sequenceNumber: int)
    requires DeleteFits(d)
    ensures ReadDelete(DeleteValue(d, snapshotId, sequenceNumber)) == [d.(sequenceNumber := sequenceNumber)]
  {
    hide FileField, DataFileOf, SequenceNumberOf, MakeVals, DataFileVals, EntryVals, Ascii, IntValues, Ints;
    var fields := DeleteFields(d);
    EntryLookups([], snapshotId, sequenceNumber, fields);
    FileLookups([], fields);
    IntsOfValues(d.equalityIds);
  }

  function Stamped(ds: seq<EqualityDeleteFile>, sequenceNumber: int): (r: seq<EqualityDeleteFile>)
    ensures |r| == |ds| && forall i :: 0 <= i < |r| ==> r[i] == ds[i].(sequenceNumber := sequenceNumber)
  {
    seq(|ds|, i requires 0 <= i < |ds| => ds[i].(sequenceNumber := sequenceNumber))
  }

  lemma {:induction false} DeletesReadBack(ds: seq<EqualityDeleteFile>, snapshotId: int, sequenceNumber: int)
    requires forall i :: 0 <= i < |ds| ==> DeleteFits(ds[i])
    ensures ReadDeletes(DeleteValues(ds, snapshotId, sequenceNumber)) == Stamped(ds, sequenceNumber)
    decreases |ds|
  {
    hide ReadDelete, DeleteValue, DeleteFits;
    if ds != [] {
      var n := |ds| - 1;
      DeletesReadBack(ds[..n], snapshotId, sequenceNumber);
      assert DeleteValues(ds, snapshotId, sequenceNumber)[..n] == DeleteValues(ds[..n], snapshotId, sequenceNumber);
      DeleteReadBack(ds[n], snapshotId, sequenceNumber);
    }
  }

  /** The header of a delete manifest, looked up by key: version 2, spec 0, and that it holds
      deletes. */
  lemma {:induction false} DeleteHeaderReadable(schemaText: Bytes, emptySchema: Bytes, emptySpec: Bytes)
    ensures var meta := WrittenMeta(schemaText, DeleteMeta(emptySchema, emptySpec));
      && Lookup(meta, Ascii("schema")) == Some(emptySchema) && Lookup(meta, Ascii("partition-spec")) == Some(emptySpec)
      && Lookup(meta, Ascii("partition-spec-id")) == Some([0x30]) && Lookup(meta, Ascii("format-version")) == Some([0x32])
      && Lookup(meta, Ascii("content")) == Some([0x64, 0x65, 0x6C, 0x65, 0x74, 0x65, 0x73])
  {
    hide Lookup;
    assert Ascii("0") == [0x30] && Ascii("2") == [0x32];
    assert Ascii("deletes") == [0x64, 0x65, 0x6C, 0x65, 0x74, 0x65, 0x73];
    HeaderPairs(schemaText, emptySchema, emptySpec, Ascii("0"), Ascii("2"), Ascii("deletes"));
  }
}
