/** The manifest entry record that data and delete manifests share: its layout and types, and
    the writers of its head and its statistics maps. JSON documents are opaque bytes; base64
    bounds are taken already decoded. */
module ManifestCodec {
  import opened Wrappers
  import opened AvroBinary
  import opened AvroContainer
  import opened AvroRecords
  import opened PartitionCodec

  // ---- scalars -------------------------------------------------------------------

  /** `n as i64` of an unsigned 64-bit number, and back. */
  function ToI64(n: int): int {
    if n > I64_MAX then n - U64_MAX - 1 else n
  }

  function FromI64(n: int): int {
    if n < 0 then n + U64_MAX + 1 else n
  }

  lemma {:induction false} ScalarEncoding(n: int, b: Bytes)
    ensures Encode(SInt, VInt(n)) == EncLong(n)
    ensures Encode(SLong, VLong(n)) == EncLong(n)
    ensures Encode(SBytes, VBytes(b)) == EncBytes(b)
    ensures Encode(SString, VString(b)) == EncBytes(b)
    ensures Encode(Nullable(SLong), VUnion(1, VLong(n))) == EncLong(1) + EncLong(n)
    ensures Encode(Nullable(SBytes), VUnion(1, VBytes(b))) == EncLong(1) + EncBytes(b)
  {
    hide EncLong, EncBytes;
    NullableEncoding(SLong, VLong(n));
    NullableEncoding(SBytes, VBytes(b));
  }

  lemma {:induction false} NullableTyped(s: Schema, v: Value)
    ensures HasType(Nullable(s), NULL_SLOT)
    ensures HasType(s, v) ==> HasType(Nullable(s), VUnion(1, v))
  {
    assert BranchHasType(BCons(SNull, BCons(s, BNil)), 0, VNull);
    assert BranchHasType(BCons(SNull, BCons(s, BNil)), 1, v) == BranchHasType(BCons(s, BNil), 0, v) == HasType(s, v);
  }

  // ---- arrays behind a nullable union --------------------------------------------

  lemma {:induction false} ArrayEncoding(e: Schema, vs: seq<Value>)
    requires vs != []
    ensures Encode(Nullable(SArray(e)), VUnion(1, VArray(MakeVals(vs))))
         == EncLong(1) + (EncLong(|vs|) + EncodeItems(e, MakeVals(vs)) + EncLong(0))
  {
    hide EncLong, EncodeItems;
    NullableEncoding(SArray(e), VArray(MakeVals(vs)));
    assert MakeVals(vs) != VNil;
  }

  lemma {:induction false} ArrayTyped(e: Schema, vs: seq<Value>)
    requires |vs| <= I64_MAX && forall i :: 0 <= i < |vs| ==> HasType(e, vs[i])
    ensures HasType(Nullable(SArray(e)), VUnion(1, VArray(MakeVals(vs))))
  {
    hide ItemsHaveType;
    ItemsTyped(e, vs);
    NullableTyped(SArray(e), VArray(MakeVals(vs)));
  }

  // ---- integer-keyed maps --------------------------------------------------------

  datatype FieldStats = FieldStats(
    valueCount: int, nullCount: int, columnSize: int, lower: Option<Bytes>, upper: Option<Bytes>)

  /** Statistics by field id, in ascending order of id. */
  type Stats = seq<(int, FieldStats)>

  datatype Stat = ColumnSize | ValueCount | NullCount | LowerBound | UpperBound {
    predicate IsBound() {
      LowerBound? || UpperBound?
    }

    function ValueSchema(): Schema {
      if IsBound() then SBytes else SLong
    }

    function Of(s: FieldStats): Option<Value> {
      match this
      case ColumnSize => Some(VLong(s.columnSize))
      case ValueCount => Some(VLong(s.valueCount))
      case NullCount => Some(VLong(s.nullCount))
      case LowerBound => if s.lower.Some? then Some(VBytes(s.lower.value)) else None
      case UpperBound => if s.upper.Some? then Some(VBytes(s.upper.value)) else None
    }
  }

  function PairDefs(value: Schema): seq<FieldDef> {
    [("key", SInt), ("value", value)]
  }

  function PairSchema(value: Schema): Schema {
    SRecord(MakeFields(PairDefs(value)))
  }

  function MapSchema(value: Schema): Schema {
    Nullable(SArray(PairSchema(value)))
  }

  function PairValue(entry: (int, Value)): Value {
    VRecord(MakeVals([VInt(entry.0), entry.1]))
  }

  function PairValues(entries: seq<(int, Value)>): (r: seq<Value>)
    ensures |r| == |entries| && forall i :: 0 <= i < |r| ==> r[i] == PairValue(entries[i])
  {
    seq(|entries|, i requires 0 <= i < |entries| => PairValue(entries[i]))
  }

  /** The entries that have the statistic. */
  function Selected(stats: Stats, which: Stat): seq<(int, Value)> {
    if stats == [] then []
    else
      var last := stats[|stats| - 1];
      Selected(stats[..|stats| - 1], which)
      + (if which.Of(last.1).Some? then [(last.0, which.Of(last.1).value)] else [])
  }

  /** Null when no entry has the statistic. */
  function MapValue(stats: Option<Stats>, which: Stat): Value {
    var entries := if stats.None? then [] else Selected(stats.value, which);
    if entries == [] then NULL_SLOT else VUnion(1, VArray(MakeVals(PairValues(entries))))
  }

  /** Field ids, counts and lengths have their Rust types' range. */
  predicate StatsFit(stats: Option<Stats>) {
    stats.Some? ==> |stats.value| <= I64_MAX &&
                    forall i :: 0 <= i < |stats.value| ==> EntryFits(stats.value[i])
  }

  predicate EntryFits(entry: (int, FieldStats)) {
    && IsI32(entry.0)
    && IsI64(entry.1.valueCount) && IsI64(entry.1.nullCount) && IsI64(entry.1.columnSize)
    && (entry.1.lower.Some? ==> |entry.1.lower.value| <= I64_MAX)
    && (entry.1.upper.Some? ==> |entry.1.upper.value| <= I64_MAX)
  }

  lemma {:induction false} PairEncoding(s: Schema, entry: (int, Value))
    ensures Encode(PairSchema(s), PairValue(entry)) == EncLong(entry.0) + Encode(s, entry.1)
  {
    hide EncLong, EncodeFields;
    var defs, vals := PairDefs(s), [VInt(entry.0), entry.1];
    RecordEncoding(defs, vals);
    assert EncodePrefix(defs, vals, 1) == EncodePrefix(defs, vals, 0) + Encode(SInt, VInt(entry.0));
    assert EncodePrefix(defs, vals, 2) == EncodePrefix(defs, vals, 1) + Encode(s, entry.1);
    assert Encode(SInt, VInt(entry.0)) == EncLong(entry.0);
  }

  lemma {:induction false} PairTyped(s: Schema, entry: (int, Value))
    requires IsI32(entry.0) && HasType(s, entry.1)
    ensures HasType(PairSchema(s), PairValue(entry))
  {
    hide FieldsHaveType;
    var defs, vals := PairDefs(s), [VInt(entry.0), entry.1];
    assert HasType(SInt, VInt(entry.0));
    RecordTyped(defs, vals);
  }

  lemma {:induction false} SelectedTyped(stats: Stats, which: Stat)
    requires forall i :: 0 <= i < |stats| ==> EntryFits(stats[i])
    ensures var r := Selected(stats, which);
      && |r| <= |stats|
      && forall i :: 0 <= i < |r| ==> IsI32(r[i].0) && HasType(which.ValueSchema(), r[i].1)
  {
    if stats != [] {
      var last := stats[|stats| - 1];
      SelectedTyped(stats[..|stats| - 1], which);
      assert EntryFits(last);
    }
  }

  lemma {:induction false} MapTyped(stats: Option<Stats>, which: Stat)
    requires StatsFit(stats)
    ensures HasType(MapSchema(which.ValueSchema()), MapValue(stats, which))
  {
    hide PairSchema, PairValue, HasType, Selected, EntryFits;
    var e := PairSchema(which.ValueSchema());
    NullableTyped(SArray(e), VNull);
    if stats.Some? {
      var entries := Selected(stats.value, which);
      SelectedTyped(stats.value, which);
      var items := PairValues(entries);
      forall i | 0 <= i < |items| ensures HasType(e, items[i]) {
        PairTyped(which.ValueSchema(), entries[i]);
      }
      ArrayTyped(e, items);
    }
  }

  method Collect(stats: Option<Stats>, which: Stat) returns (entries: seq<(int, Value)>)
    ensures entries == if stats.None? then [] else Selected(stats.value, which)
  {
    entries := [];
    if stats.Some? {
      var all := stats.value;
      for i := 0 to |all|
        invariant entries == Selected(all[..i], which)
      {
        assert all[..i + 1][..i] == all[..i];
        var value := which.Of(all[i].1);
        if value.Some? {
          entries := entries + [(all[i].0, value.value)];
        }
      }
      assert all[..|all|] == all;
    }
  }

  lemma {:induction false} PairsSnoc(s: Schema, entries: seq<(int, Value)>, i: nat)
    requires i < |entries|
    ensures EncodeItems(PairSchema(s), MakeVals(PairValues(entries)[..i + 1]))
         == EncodeItems(PairSchema(s), MakeVals(PairValues(entries)[..i])) + (EncLong(entries[i].0) + Encode(s, entries[i].1))
  {
    hide EncodeItems, Encode, EncLong, PairSchema, PairValue;
    var items := PairValues(entries);
    assert items[..i + 1] == items[..i] + [items[i]];
    ItemsSnoc(PairSchema(s), items[..i], items[i]);
    PairEncoding(s, entries[i]);
  }

  /** The union index, block count, pairs and terminator of a map; null when it is empty. */
  lemma {:induction false} MapEncoding(stats: Option<Stats>, which: Stat)
    ensures var entries := if stats.None? then [] else Selected(stats.value, which);
      var e := PairSchema(which.ValueSchema());
      Encode(MapSchema(which.ValueSchema()), MapValue(stats, which))
      == if entries == [] then EncLong(0)
         else EncLong(1) + (EncLong(|entries|) + EncodeItems(e, MakeVals(PairValues(entries))) + EncLong(0))
  {
    hide EncLong, Encode, EncodeItems, PairSchema, PairValue, Selected, MakeVals;
    var entries := if stats.None? then [] else Selected(stats.value, which);
    var e := PairSchema(which.ValueSchema());
    if entries == [] {
      NullableEncoding(SArray(e), VNull);
    } else {
      ArrayEncoding(e, PairValues(entries));
    }
  }

  lemma {:induction false} EntriesTyped(stats: Option<Stats>, which: Stat)
    requires StatsFit(stats) && stats.Some?
    ensures var r := Selected(stats.value, which);
      && |r| <= I64_MAX
      && forall i :: 0 <= i < |r| ==> IsI32(r[i].0) && HasType(which.ValueSchema(), r[i].1)
  {
    hide Selected, EntryFits, HasType;
    SelectedTyped(stats.value, which);
  }

  lemma {:induction false} Grouped(a: Bytes, b: Bytes, c: Bytes, d: Bytes, e: Bytes)
    ensures a + b + c + d + e == a + (b + (c + d + e))
  {
  }

  method EncodeLongPairs(buf: ByteBuffer, entries: seq<(int, Value)>)
    requires forall i :: 0 <= i < |entries| ==> IsI32(entries[i].0) && HasType(SLong, entries[i].1)
    modifies buf
    ensures buf.data == old(buf.data) + EncodeItems(PairSchema(SLong), MakeVals(PairValues(entries)))
  {
    hide EncLong, EncBytes, Encode, EncodeItems, PairSchema, PairValue, HasType;
    ghost var e, items, head := PairSchema(SLong), PairValues(entries), buf.data;
    assert items[..0] == [];
    NoItems(e);
    for i := 0 to |entries|
      invariant buf.data == head + EncodeItems(e, MakeVals(items[..i]))
    {
      LongFits(entries[i].1);
      buf.EncodeInt(entries[i].0);
      buf.EncodeLong(entries[i].1.n);
      PairsSnoc(SLong, entries, i);
      ScalarEncoding(entries[i].1.n, []);
    }
    assert items[..|entries|] == items;
  }

  /** Counts as a nullable array of key-value records, one block. */
  method EncodeIntLongMap(buf: ByteBuffer, stats: Option<Stats>, which: Stat)
    requires StatsFit(stats) && !which.IsBound()
    modifies buf
    ensures buf.data == old(buf.data) + Encode(MapSchema(SLong), MapValue(stats, which))
  {
    hide EncLong, Encode, EncodeItems, MakeVals, MapSchema, MapValue, PairSchema, PairValues, Selected, StatsFit, HasType;
    var entries := Collect(stats, which);
    MapEncoding(stats, which);
    if entries == [] {
      buf.EncodeUnionNull();
      return;
    }
    EntriesTyped(stats, which);
    buf.EncodeLong(1);
    buf.EncodeLong(|entries|);
    EncodeLongPairs(buf, entries);
    buf.EncodeLong(0);
    Grouped(old(buf.data), EncLong(1), EncLong(|entries|),
            EncodeItems(PairSchema(SLong), MakeVals(PairValues(entries))), EncLong(0));
  }

  method EncodeBytesPairs(buf: ByteBuffer, entries: seq<(int, Value)>)
    requires forall i :: 0 <= i < |entries| ==> IsI32(entries[i].0) && HasType(SBytes, entries[i].1)
    modifies buf
    ensures buf.data == old(buf.data) + EncodeItems(PairSchema(SBytes), MakeVals(PairValues(entries)))
  {
    hide EncLong, EncBytes, Encode, EncodeItems, PairSchema, PairValue, HasType;
    ghost var e, items, head := PairSchema(SBytes), PairValues(entries), buf.data;
    assert items[..0] == [];
    NoItems(e);
    for i := 0 to |entries|
      invariant buf.data == head + EncodeItems(e, MakeVals(items[..i]))
    {
      BytesFit(entries[i].1);
      buf.EncodeInt(entries[i].0);
      buf.EncodeBytesField(entries[i].1.bytes);
      PairsSnoc(SBytes, entries, i);
      ScalarEncoding(0, entries[i].1.bytes);
    }
    assert items[..|entries|] == items;
  }

  /** Bounds in the same shape, as length-prefixed bytes. */
  method EncodeIntBytesMap(buf: ByteBuffer, stats: Option<Stats>, which: Stat)
    requires StatsFit(stats) && which.IsBound()
    modifies buf
    ensures buf.data == old(buf.data) + Encode(MapSchema(SBytes), MapValue(stats, which))
  {
    hide EncLong, Encode, EncodeItems, MakeVals, MapSchema, MapValue, PairSchema, PairValues, Selected, StatsFit, HasType;
    var entries := Collect(stats, which);
    MapEncoding(stats, which);
    if entries == [] {
      buf.EncodeUnionNull();
      return;
    }
    EntriesTyped(stats, which);
    buf.EncodeLong(1);
    buf.EncodeLong(|entries|);
    EncodeBytesPairs(buf, entries);
    buf.EncodeLong(0);
    Grouped(old(buf.data), EncLong(1), EncLong(|entries|),
            EncodeItems(PairSchema(SBytes), MakeVals(PairValues(entries))), EncLong(0));
  }

  lemma {:induction false} NoItems(e: Schema)
    ensures EncodeItems(e, MakeVals([])) == []
  {
  }

  lemma {:induction false} LongFits(v: Value)
    requires HasType(SLong, v)
    ensures v.VLong? && IsI64(v.n)
  {
  }

  lemma {:induction false} BytesFit(v: Value)
    requires HasType(SBytes, v)
    ensures v.VBytes? && |v.bytes| <= I64_MAX
  {
  }

  // ---- the manifest entry layout -------------------------------------------------

  function DataFileDefs(cs: seq<Column>): (r: seq<FieldDef>)
    ensures |r| == 17
  {
    [ ("content", SInt),
      ("file_path", SString),
      ("file_format", SString),
      ("partition", SRecord(MakeFields(PartitionDefs(cs)))),
      ("record_count", SLong),
      ("file_size_in_bytes", SLong),
      ("column_sizes", MapSchema(SLong)),
      ("value_counts", MapSchema(SLong)),
      ("null_value_counts", MapSchema(SLong)),
      ("nan_value_counts", MapSchema(SLong)),
      ("lower_bounds", MapSchema(SBytes)),
      ("upper_bounds", MapSchema(SBytes)),
      ("key_metadata", Nullable(SBytes)),
      ("split_offsets", Nullable(SArray(SLong))),
      ("equality_ids", Nullable(SArray(SInt))),
      ("sort_order_id", Nullable(SInt)),
      ("first_row_id", Nullable(SLong)) ]
  }

  function EntryDefs(cs: seq<Column>): (r: seq<FieldDef>)
    ensures |r| == 5
  {
    [ ("status", SInt),
      ("snapshot_id", Nullable(SLong)),
      ("sequence_number", Nullable(SLong)),
      ("file_sequence_number", Nullable(SLong)),
      ("data_file", SRecord(MakeFields(DataFileDefs(cs)))) ]
  }

  function EntrySchema(cs: seq<Column>): Schema {
    SRecord(MakeFields(EntryDefs(cs)))
  }

  /** The values that differ between entries; every other field is constant. */
  datatype FileFields = FileFields(
    content: int,
    path: Bytes,
    format: Bytes,
    partition: Value,
    recordCount: int,
    fileSize: int,
    stats: Option<Stats>,
    keyMetadata: Value,
    equalityIds: Value,
    firstRowId: Value)

  function DataFileVals(f: FileFields): (r: seq<Value>)
    ensures |r| == 17
  {
    [ VInt(f.content),
      VString(f.path),
      VString(f.format),
      f.partition,
      VLong(ToI64(f.recordCount)),
      VLong(ToI64(f.fileSize)),
      MapValue(f.stats, ColumnSize),
      MapValue(f.stats, ValueCount),
      MapValue(f.stats, NullCount),
      NULL_SLOT,
      MapValue(f.stats, LowerBound),
      MapValue(f.stats, UpperBound),
      f.keyMetadata,
      NULL_SLOT,
      f.equalityIds,
      NULL_SLOT,
      f.firstRowId ]
  }

  function EntryVals(snapshotId: int, sequenceNumber: int, f: FileFields): (r: seq<Value>)
    ensures |r| == 5
  {
    [ VInt(1),
      VUnion(1, VLong(snapshotId)),
      VUnion(1, VLong(sequenceNumber)),
      VUnion(1, VLong(sequenceNumber)),
      VRecord(MakeVals(DataFileVals(f))) ]
  }

  function EntryValue(snapshotId: int, sequenceNumber: int, f: FileFields): Value {
    VRecord(MakeVals(EntryVals(snapshotId, sequenceNumber, f)))
  }

  predicate FieldsFit(cs: seq<Column>, f: FileFields) {
    && IsI32(f.content) && |f.path| <= I64_MAX && |f.format| <= I64_MAX
    && IsU64(f.recordCount) && IsU64(f.fileSize) && StatsFit(f.stats)
    && HasType(SRecord(MakeFields(PartitionDefs(cs))), f.partition)
    && HasType(Nullable(SBytes), f.keyMetadata)
    && HasType(Nullable(SArray(SInt)), f.equalityIds)
    && HasType(Nullable(SLong), f.firstRowId)
  }

  lemma {:induction false} Layout(cs: seq<Column>, f: FileFields)
    ensures var defs, vals := DataFileDefs(cs), DataFileVals(f);
      && (defs[0].1, vals[0]) == (SInt, VInt(f.content))
      && (defs[1].1, vals[1]) == (SString, VString(f.path))
      && (defs[2].1, vals[2]) == (SString, VString(f.format))
      && (defs[3].1, vals[3]) == (SRecord(MakeFields(PartitionDefs(cs))), f.partition)
      && (defs[4].1, vals[4]) == (SLong, VLong(ToI64(f.recordCount)))
      && (defs[5].1, vals[5]) == (SLong, VLong(ToI64(f.fileSize)))
      && (defs[6].1, vals[6]) == (MapSchema(SLong), MapValue(f.stats, ColumnSize))
      && (defs[7].1, vals[7]) == (MapSchema(SLong), MapValue(f.stats, ValueCount))
      && (defs[8].1, vals[8]) == (MapSchema(SLong), MapValue(f.stats, NullCount))
      && (defs[9].1, vals[9]) == (MapSchema(SLong), NULL_SLOT)
      && (defs[10].1, vals[10]) == (MapSchema(SBytes), MapValue(f.stats, LowerBound))
      && (defs[11].1, vals[11]) == (MapSchema(SBytes), MapValue(f.stats, UpperBound))
      && (defs[12].1, vals[12]) == (Nullable(SBytes), f.keyMetadata)
      && (defs[13].1, vals[13]) == (Nullable(SArray(SLong)), NULL_SLOT)
      && (defs[14].1, vals[14]) == (Nullable(SArray(SInt)), f.equalityIds)
      && (defs[15].1, vals[15]) == (Nullable(SInt), NULL_SLOT)
      && (defs[16].1, vals[16]) == (Nullable(SLong), f.firstRowId)
  {
    hide MapSchema, MapValue, Nullable, PartitionDefs, MakeFields;
  }

  lemma {:induction false} DataFileTyped(cs: seq<Column>, f: FileFields)
    requires FieldsFit(cs, f)
    ensures HasType(SRecord(MakeFields(DataFileDefs(cs))), VRecord(MakeVals(DataFileVals(f))))
  {
    hide FieldsHaveType, HasType, MapValue, MapSchema, StatsFit, PartitionDefs, Nullable, DataFileDefs, DataFileVals;
    var defs, vals := DataFileDefs(cs), DataFileVals(f);
    Layout(cs, f);
    ScalarsTyped(f);
    MapTyped(f.stats, ColumnSize);
    MapTyped(f.stats, ValueCount);
    MapTyped(f.stats, NullCount);
    MapTyped(f.stats, LowerBound);
    MapTyped(f.stats, UpperBound);
    NullMapTyped(SLong);
    NullableTyped(SArray(SLong), VNull);
    NullableTyped(SInt, VNull);
    assert Typed(defs, vals);
    RecordTyped(defs, vals);
    WholeRecord(MakeFields(defs), MakeVals(vals));
  }

  lemma {:induction false} WholeRecord(fs: Fields, vs: Vals)
    requires FieldsHaveType(fs, vs)
    ensures HasType(SRecord(fs), VRecord(vs))
  {
  }

  lemma {:induction false} NullMapTyped(s: Schema)
    ensures HasType(MapSchema(s), NULL_SLOT)
  {
    NullableTyped(SArray(PairSchema(s)), VNull);
  }

  lemma {:induction false} ScalarsTyped(f: FileFields)
    requires IsI32(f.content) && |f.path| <= I64_MAX && |f.format| <= I64_MAX
    requires IsU64(f.recordCount) && IsU64(f.fileSize)
    ensures HasType(SInt, VInt(f.content)) && HasType(SString, VString(f.path)) && HasType(SString, VString(f.format))
    ensures HasType(SLong, VLong(ToI64(f.recordCount))) && HasType(SLong, VLong(ToI64(f.fileSize)))
  {
  }

  lemma {:induction false} EntryTyped(cs: seq<Column>, snapshotId: int, sequenceNumber: int, f: FileFields)
    requires FieldsFit(cs, f) && IsI64(snapshotId) && IsI64(sequenceNumber)
    ensures HasType(EntrySchema(cs), EntryValue(snapshotId, sequenceNumber, f))
  {
    hide FieldsHaveType, FieldsFit, DataFileVals, DataFileDefs, Nullable;
    var defs, vals := EntryDefs(cs), EntryVals(snapshotId, sequenceNumber, f);
    DataFileTyped(cs, f);
    NullableTyped(SLong, VLong(snapshotId));
    NullableTyped(SLong, VLong(sequenceNumber));
    assert HasType(SInt, VInt(1)) && HasType(SLong, VLong(snapshotId)) && HasType(SLong, VLong(sequenceNumber));
    forall i | 0 <= i < 5 ensures HasType(defs[i].1, vals[i]) {
      hide HasType;
    }
    RecordTyped(defs, vals);
  }

  // ---- writing an entry ----------------------------------------------------------

  /** Status and sequence numbers, up to the nested data file record. */
  method EncodeEntryHead(buf: ByteBuffer, ghost cs: seq<Column>, snapshotId: int, sequenceNumber: int, ghost f: FileFields)
    requires IsI64(snapshotId) && IsI64(sequenceNumber)
    modifies buf
    ensures buf.data == old(buf.data) + EncodePrefix(EntryDefs(cs), EntryVals(snapshotId, sequenceNumber, f), 4)
  {
    hide EncLong, Encode, DataFileVals, DataFileDefs, Nullable;
    ghost var defs, vals, start := EntryDefs(cs), EntryVals(snapshotId, sequenceNumber, f), buf.data;
    ScalarEncoding(1, []);
    ScalarEncoding(snapshotId, []);
    ScalarEncoding(sequenceNumber, []);
    buf.EncodeInt(1);
    assert buf.data == start + EncodePrefix(defs, vals, 1);
    buf.EncodeUnionLong(1, snapshotId);
    assert buf.data == start + EncodePrefix(defs, vals, 2);
    buf.EncodeUnionLong(1, sequenceNumber);
    assert buf.data == start + EncodePrefix(defs, vals, 3);
    buf.EncodeUnionLong(1, sequenceNumber);
    assert buf.data == start + EncodePrefix(defs, vals, 4);
  }
}
