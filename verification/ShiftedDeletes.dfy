/** Reading delete manifests as the catalog does. A delete without equality ids is written one
    byte too long, and every record after it is read one byte off; this module works out what
    becomes of them. */
module ShiftedDeletes {
  import opened Wrappers
  import opened AvroBinary
  import opened AvroContainer
  import opened AvroRecords
  import opened PartitionCodec
  import opened ManifestCodec
  import opened ManifestFiles
  import opened DeleteManifests

  /** Every delete but the last names a field. */
  predicate NamedButLast(ds: seq<EqualityDeleteFile>) {
    forall i :: 0 <= i < |ds| - 1 ==> ds[i].equalityIds != []
  }

  // ---- a record read one byte off ------------------------------------------------

  lemma {:induction false} NullableLongDecoding(n: int, rest: Bytes)
    requires IsI64(n)
    ensures Decode(Nullable(SLong), EncLong(n) + rest)
         == if n == 0 then Done(NULL_SLOT, rest)
            else if n == 1 && DecodeLong(rest).Done? then Done(VUnion(1, VLong(DecodeLong(rest).value)), DecodeLong(rest).rest)
            else Fail
  {
    hide EncLong, DecodeLong;
    LongRoundTrip(n, rest);
    var branches := BCons(SNull, BCons(SLong, BNil));
    assert DecodeBranch(branches, 0, rest) == Decode(SNull, rest);
    assert DecodeBranch(branches, 1, rest) == DecodeBranch(BCons(SLong, BNil), 0, rest) == Decode(SLong, rest);
    assert n > 1 ==> DecodeBranch(branches, n, rest) == DecodeBranch(BCons(SLong, BNil), n - 1, rest) == DecodeBranch(BNil, n - 2, rest);
  }

  const FILE_SCHEMA := SRecord(MakeFields(DataFileDefs([])))

  function Record5(a: Value, b: Value, c: Value, d: Value, e: Value): Value {
    VRecord(VCons(a, VCons(b, VCons(c, VCons(d, VCons(e, VNil))))))
  }

  /** An entry decodes field by field. */
  lemma {:induction false} EntryDecoded(bs: Bytes)
    ensures var r := Decode(EntrySchema([]), bs);
      r.Done? ==>
        && var status := Decode(SInt, bs);
        && status.Done?
        && var id := Decode(Nullable(SLong), status.rest);
        && id.Done?
        && var number := Decode(Nullable(SLong), id.rest);
        && number.Done?
        && var fileNumber := Decode(Nullable(SLong), number.rest);
        && fileNumber.Done?
        && var file := Decode(FILE_SCHEMA, fileNumber.rest);
        && file.Done?
        && r.value == Record5(status.value, id.value, number.value, fileNumber.value, file.value)
  {
    hide DataFileDefs, Nullable, Decode;
    var defs := EntryDefs([]);
    assert MakeFields(defs) == FCons("status", SInt, MakeFields(defs[1..]));
    assert MakeFields(defs[1..]) == FCons("snapshot_id", Nullable(SLong), MakeFields(defs[2..]));
    assert MakeFields(defs[2..]) == FCons("sequence_number", Nullable(SLong), MakeFields(defs[3..]));
    assert MakeFields(defs[3..]) == FCons("file_sequence_number", Nullable(SLong), MakeFields(defs[4..]));
    assert MakeFields(defs[4..]) == FCons("data_file", FILE_SCHEMA, FNil);
    RecordDecoding(MakeFields(defs), bs);
    if Decode(EntrySchema([]), bs).Done? {
      FieldDecoded("status", SInt, MakeFields(defs[1..]), bs);
      var status := Decode(SInt, bs);
      FieldDecoded("snapshot_id", Nullable(SLong), MakeFields(defs[2..]), status.rest);
      var id := Decode(Nullable(SLong), status.rest);
      FieldDecoded("sequence_number", Nullable(SLong), MakeFields(defs[3..]), id.rest);
      var number := Decode(Nullable(SLong), id.rest);
      FieldDecoded("file_sequence_number", Nullable(SLong), MakeFields(defs[4..]), number.rest);
      var fileNumber := Decode(Nullable(SLong), number.rest);
      FieldDecoded("data_file", FILE_SCHEMA, FNil, fileNumber.rest);
    }
  }

  lemma {:induction false} FieldDecoded(name: string, s: Schema, tail: Fields, bs: Bytes)
    ensures DecodeFields(FNil, bs) == Done(VNil, bs)
    ensures var r := DecodeFields(FCons(name, s, tail), bs);
      r.Done? ==>
        && var v := Decode(s, bs);
        && v.Done?
        && var vs := DecodeFields(tail, v.rest);
        && vs.Done? && r.value == VCons(v.value, vs.value)
    ensures var v := Decode(s, bs); v.Done? ==> DecodeFields(FNil, v.rest) == Done(VNil, v.rest)
  {
  }

  lemma {:induction false} RecordDecoding(fs: Fields, bs: Bytes)
    ensures Decode(SRecord(fs), bs) == var vs := DecodeFields(fs, bs); if vs.Fail? then Fail else Done(VRecord(vs.value), vs.rest)
  {
  }

  /** A data file record that starts with the encoding of 1 has content 1. */
  lemma {:induction false} ContentOne(tail: Bytes)
    ensures var file := Decode(FILE_SCHEMA, EncLong(1) + tail);
      file.Done? ==> file.value.VRecord? && FileField([], file.value.vals, "content") == Some(VInt(1))
  {
    hide EncLong, Decode, MakeFields, FieldNamed, DecodeFields, DataFileDefs;
    var more := FileFieldsAfterContent();
    var bs := EncLong(1) + tail;
    RecordDecoding(MakeFields(DataFileDefs([])), bs);
    FieldDecoded("content", SInt, more, bs);
    OneDecoded(tail);
    var file := Decode(FILE_SCHEMA, bs);
    if file.Done? {
      assert FieldNamed(FCons("content", SInt, more), file.value.vals, "content") == Some(VInt(1)) by {
        FirstNamed("content", SInt, more, file.value.vals);
      }
    }
  }

  lemma {:induction false} FileFieldsAfterContent() returns (more: Fields)
    ensures MakeFields(DataFileDefs([])) == FCons("content", SInt, more)
  {
    hide Nullable, MapSchema, PartitionDefs;
    more := MakeFields(DataFileDefs([])[1..]);
  }

  lemma {:induction false} FirstNamed(name: string, s: Schema, tail: Fields, vs: Vals)
    requires vs.VCons?
    ensures FieldNamed(FCons(name, s, tail), vs, name) == Some(vs.head)
  {
  }

  lemma {:induction false} OneDecoded(tail: Bytes)
    ensures Decode(SInt, EncLong(1) + tail) == Done(VInt(1), tail)
    ensures DecodeLong(EncLong(1) + tail) == Done(1, tail)
    ensures Decode(SInt, [0] + tail) == Done(VInt(0), tail)
  {
    LongRoundTrip(1, tail);
    LongRoundTrip(0, tail);
    assert EncLong(0) == [0];
  }

  /** The head of an entry: status, then an index and a number for each of three ids. */
  function Nested(one: Bytes, i: Bytes, n: Bytes, body: Bytes): Bytes {
    one + (one + (i + (one + (n + (one + (n + body))))))
  }

  lemma {:induction false} Regrouped(one: Bytes, i: Bytes, n: Bytes, body: Bytes, rest: Bytes)
    ensures one + (one + i) + (one + n) + (one + n) + body == Nested(one, i, n, body)
    ensures Nested(one, i, n, body) + rest == Nested(one, i, n, body + rest)
  {
  }

  /** What the head of a written entry looks like to a reader that is one byte late: status
      zero, then the written indices and numbers in the wrong slots. If the record decodes at
      all, its data file starts at a written 1. */
  lemma {:induction false} ShiftedHead(id: int, number: int, body: Bytes)
    requires IsI64(id) && IsI64(number)
    ensures var r := Decode(EntrySchema([]), [0] + Nested(EncLong(1), EncLong(id), EncLong(number), body));
      r.Done? ==> ReadDelete(r.value) == []
  {
    hide EncLong, Decode, Nullable, DataFileDefs, EntrySchema, ReadDelete, DecodeLong;
    var one := EncLong(1);
    var z := one + (EncLong(number) + body);
    var y := one + (EncLong(number) + z);
    var x := EncLong(id) + y;
    var late := [0] + (one + (one + x));
    EntryDecoded(late);
    OneDecoded(one + (one + x));
    NullableLongDecoding(1, one + x);
    OneDecoded(x);
    NullableLongDecoding(id, y);
    OneDecoded(EncLong(number) + z);
    NullableLongDecoding(1, EncLong(number) + z);
    LongRoundTrip(number, z);
    NullableLongDecoding(number, z);
    OneDecoded(EncLong(number) + body);
    ContentOne(EncLong(number) + body);
    ContentOne(body);
    var r := Decode(EntrySchema([]), late);
    if r.Done? {
      var vs := r.value.vals;
      NotADelete(vs.head, vs.tail.head, vs.tail.tail.head, vs.tail.tail.tail.head, vs.tail.tail.tail.tail.head);
    }
  }

  lemma {:induction false} NotADelete(a: Value, b: Value, c: Value, d: Value, file: Value)
    requires file.VRecord? && FileField([], file.vals, "content") == Some(VInt(1))
    ensures ReadDelete(Record5(a, b, c, d, file)) == []
  {
    hide DataFileDefs, Nullable, FileField, MakeFields, FieldNamed;
    var defs, vals := EntryDefs([]), [a, b, c, d, file];
    assert |"status"| == 6 && |"snapshot_id"| == 11 && |"sequence_number"| == 15;
    assert |"file_sequence_number"| == 20 && |"data_file"| == 9;
    FieldFound(defs, vals, 4);
    FiveValues(a, b, c, d, file);
  }

  lemma {:induction false} FiveValues(a: Value, b: Value, c: Value, d: Value, e: Value)
    ensures VRecord(MakeVals([a, b, c, d, e])) == Record5(a, b, c, d, e)
  {
    assert [e][1..] == [] && [d, e][1..] == [e] && [c, d, e][1..] == [d, e];
    assert [b, c, d, e][1..] == [c, d, e] && [a, b, c, d, e][1..] == [b, c, d, e];
    assert MakeVals([e]) == VCons(e, VNil);
    assert MakeVals([d, e]) == VCons(d, MakeVals([e]));
    assert MakeVals([c, d, e]) == VCons(c, MakeVals([d, e]));
    assert MakeVals([b, c, d, e]) == VCons(b, MakeVals([c, d, e]));
  }

  /** The head of a written entry, piece by piece. */
  lemma {:induction false} WrittenHead(d: EqualityDeleteFile, id: int, number: int) returns (body: Bytes)
    ensures Encode(EntrySchema([]), DeleteValue(d, id, number))
         == Nested(EncLong(1), EncLong(id), EncLong(number), body)
  {
    hide EncLong, Encode, DataFileVals, DataFileDefs, Nullable, EncodePrefix, Nested, DeleteFields;
    var f := DeleteFields(d);
    EntryEncoding([], id, number, f);
    body := EncodePrefix(DataFileDefs([]), DataFileVals(f), 17);
    HeadPrefix(id, number, f);
    Regrouped(EncLong(1), EncLong(id), EncLong(number), body, []);
  }

  lemma {:induction false} HeadPrefix(id: int, number: int, f: FileFields)
    ensures EncodePrefix(EntryDefs([]), EntryVals(id, number, f), 4)
         == EncLong(1) + (EncLong(1) + EncLong(id)) + (EncLong(1) + EncLong(number)) + (EncLong(1) + EncLong(number))
  {
    hide EncLong, Encode, DataFileVals, DataFileDefs, Nullable;
    var defs, vals := EntryDefs([]), EntryVals(id, number, f);
    ScalarEncoding(1, []);
    ScalarEncoding(id, []);
    ScalarEncoding(number, []);
    assert EncodePrefix(defs, vals, 0) == [];
    assert EncodePrefix(defs, vals, 1) == EncLong(1);
    assert EncodePrefix(defs, vals, 2) == EncLong(1) + (EncLong(1) + EncLong(id));
    assert EncodePrefix(defs, vals, 3) == EncodePrefix(defs, vals, 2) + (EncLong(1) + EncLong(number));
  }

  /** Read one byte late, a written entry is never a delete. */
  lemma {:induction false} LateEntry(d: EqualityDeleteFile, id: int, number: int, rest: Bytes)
    requires IsI64(id) && IsI64(number)
    ensures var r := Decode(EntrySchema([]), [0] + (Encode(EntrySchema([]), DeleteValue(d, id, number)) + rest));
      r.Done? ==> ReadDelete(r.value) == []
  {
    hide EncLong, Encode, Decode, EntrySchema, DeleteValue, ReadDelete, IsI64, Nested;
    var body := WrittenHead(d, id, number);
    ShiftedHead(id, number, body + rest);
    Regrouped(EncLong(1), EncLong(id), EncLong(number), body, rest);
  }

  // ---- counting what comes back --------------------------------------------------

  lemma {:induction false} AtMostOne(v: Value)
    ensures |ReadDelete(v)| <= 1
  {
    hide DataFileOf, FileField, SequenceNumberOf;
  }

  lemma {:induction false} ReadDeletesCons(v: Value, vs: seq<Value>)
    ensures ReadDeletes([v] + vs) == ReadDelete(v) + ReadDeletes(vs)
    ensures |ReadDeletes(vs)| <= |vs|
    decreases |vs|
  {
    hide ReadDelete;
    var all := [v] + vs;
    assert all[..|all| - 1] == if vs == [] then [] else [v] + vs[..|vs| - 1];
    AtMostOne(v);
    if vs != [] {
      ReadDeletesCons(v, vs[..|vs| - 1]);
      AtMostOne(vs[|vs| - 1]);
      assert all[|all| - 1] == vs[|vs| - 1];
    }
  }

  lemma {:induction false} ObjectCount(s: Schema, n: nat, bs: Bytes)
    ensures DecodeObjects(s, n, bs).Done? ==> |DecodeObjects(s, n, bs).value| == n
    decreases n
  {
    if n > 0 && Decode(s, bs).Done? {
      ObjectCount(s, n - 1, Decode(s, bs).rest);
    }
  }

  /** After the stray byte one record is lost whatever the rest decodes to. */
  lemma {:induction false} LateObjects(ds: seq<EqualityDeleteFile>, id: int, number: int)
    requires ds != [] && IsI64(id) && IsI64(number)
    ensures var r := DecodeObjects(EntrySchema([]), |ds|, [0] + Flatten(DeleteRecords(ds, id, number)));
      r.Done? ==> |ReadDeletes(r.value)| < |ds|
  {
    hide EntrySchema, DeleteValue, Encode, Decode, ReadDelete, IsI64, ReadDeletes;
    var records := DeleteRecords(ds, id, number);
    var stray: Bytes := if ds[0].equalityIds == [] then [0] else [];
    var rest := stray + Flatten(records[1..]);
    var late := [0] + (Encode(EntrySchema([]), DeleteValue(ds[0], id, number)) + rest);
    assert [0] + Flatten(records) == late;
    LateEntry(ds[0], id, number, rest);
    var v := Decode(EntrySchema([]), late);
    if v.Done? {
      var more := DecodeObjects(EntrySchema([]), |ds| - 1, v.rest);
      ObjectCount(EntrySchema([]), |ds| - 1, v.rest);
      if more.Done? {
        ReadDeletesCons(v.value, more.value);
      }
    }
  }

  lemma {:induction false} NamedButLastTail(ds: seq<EqualityDeleteFile>)
    requires |ds| > 1
    ensures NamedButLast(ds) <==> ds[0].equalityIds != [] && NamedButLast(ds[1..])
  {
    if ds[0].equalityIds != [] && NamedButLast(ds[1..]) {
      forall i | 0 <= i < |ds| - 1 ensures ds[i].equalityIds != [] {
        assert i > 0 ==> ds[i] == ds[1..][i - 1];
      }
    }
  }

  predicate AllOrFewer(ds: seq<EqualityDeleteFile>, all: seq<Value>, r: Parse<seq<Value>>) {
    && (NamedButLast(ds) ==> r.Done? && r.value == all)
    && (!NamedButLast(ds) && r.Done? ==> |ReadDeletes(r.value)| < |ds|)
  }

  /** Reading the written records by count gives every entry back when all deletes but the
      last name a field, and fewer deletes than were written when one of them does not. */
  lemma {:induction false} CountedObjects(ds: seq<EqualityDeleteFile>, id: int, number: int)
    requires IsI64(id) && IsI64(number) && forall i :: 0 <= i < |ds| ==> DeleteFits(ds[i])
    ensures AllOrFewer(ds, DeleteValues(ds, id, number),
                       DecodeObjects(EntrySchema([]), |ds|, Flatten(DeleteRecords(ds, id, number))))
    decreases |ds|
  {
    hide EntrySchema, DeleteValue, Encode, Decode, HasType, DeleteFits, IsI64, ReadDelete, ReadDeletes, NamedButLast;
    var records, vs := DeleteRecords(ds, id, number), DeleteValues(ds, id, number);
    if ds == [] {
      AtMostOneNamed(ds);
    } else {
      var more := ds[1..];
      assert records[1..] == DeleteRecords(more, id, number) && vs == [vs[0]] + DeleteValues(more, id, number);
      DeleteTyped(ds[0], id, number);
      var stray: Bytes := if ds[0].equalityIds == [] then [0] else [];
      var rest := stray + Flatten(records[1..]);
      assert Flatten(records) == Encode(EntrySchema([]), vs[0]) + rest;
      RoundTrip(EntrySchema([]), vs[0], rest);
      var tail := DecodeObjects(EntrySchema([]), |more|, rest);
      if tail.Done? {
        ReadDeletesCons(vs[0], tail.value);
        AtMostOne(vs[0]);
      }
      if more == [] {
        AtMostOneNamed(ds);
      } else {
        NamedButLastTail(ds);
        if ds[0].equalityIds == [] {
          LateObjects(more, id, number);
        } else {
          assert rest == Flatten(records[1..]);
          CountedObjects(more, id, number);
        }
      }
    }
  }

  lemma {:induction false} AtMostOneNamed(ds: seq<EqualityDeleteFile>)
    requires |ds| <= 1
    ensures NamedButLast(ds)
  {
  }

  // ---- whole manifests -----------------------------------------------------------

  predicate DeletesFit(ds: seq<EqualityDeleteFile>, id: int, number: int) {
    IsI64(id) && IsI64(number) && forall i :: 0 <= i < |ds| ==> DeleteFits(ds[i])
  }

  lemma {:induction false} ObjectsOfManifest(ds: seq<EqualityDeleteFile>, id: int, number: int, schemaText: Bytes, extra: seq<Pair>)
    requires Writable(schemaText, extra, DeleteRecords(ds, id, number))
    ensures var r := DecodeObjects(EntrySchema([]), |ds|, Flatten(DeleteRecords(ds, id, number)));
      ManifestObjects([], ContainerBytes(schemaText, extra, DeleteRecords(ds, id, number)))
      == if r.Done? then Some(r.value) else None
  {
    hide EntrySchema, Writable, ContainerBytes, ReadContainer, WrittenMeta, Decode, Flatten, DeleteRecord;
    var records := DeleteRecords(ds, id, number);
    ContainerRoundTrip(schemaText, extra, records);
    var blocks := WrittenBlocks(records);
    if ds == [] {
      assert DecodeObjects(EntrySchema([]), 0, Flatten(records)).value == [];
    } else {
      hide DecodeObjects;
      assert blocks[1..] == [];
      assert ReadObjects(EntrySchema([]), blocks[1..]) == Some([]);
      var got := DecodeObjects(EntrySchema([]), |ds|, Flatten(records));
      assert got.Done? ==> got.value + [] == got.value;
    }
  }

  /** The catalog's reader gets exactly the written entries back if and only if every delete
      but the last names at least one field. */
  lemma {:induction false} DeleteManifestReadable(
    ds: seq<EqualityDeleteFile>, id: int, number: int, schemaText: Bytes, extra: seq<Pair>)
    requires DeletesFit(ds, id, number) && Writable(schemaText, extra, DeleteRecords(ds, id, number))
    ensures ManifestObjects([], ContainerBytes(schemaText, extra, DeleteRecords(ds, id, number)))
         == Some(DeleteValues(ds, id, number))
       <==> NamedButLast(ds)
  {
    hide EntrySchema, Writable, DeleteFits, ContainerBytes, ManifestObjects, IsI64, DecodeObjects, Flatten, DeleteRecords,
         DeleteValues, NamedButLast, ReadDeletes;
    ObjectsOfManifest(ds, id, number, schemaText, extra);
    CountedObjects(ds, id, number);
    DeletesReadBack(ds, id, number);
  }

  /** Reading a delete manifest gives the deletes back in order, stamped with the manifest's
      sequence number, if and only if every delete but the last names at least one field;
      otherwise the reader fails or reports fewer deletes. */
  lemma {:induction false} DeleteManifestRoundTrip(
    ds: seq<EqualityDeleteFile>, id: int, number: int, schemaText: Bytes, extra: seq<Pair>)
    requires DeletesFit(ds, id, number) && Writable(schemaText, extra, DeleteRecords(ds, id, number))
    ensures var r := DecodedDeletes(ContainerBytes(schemaText, extra, DeleteRecords(ds, id, number)));
      && (r == Some(Stamped(ds, number)) <==> NamedButLast(ds))
      && (!NamedButLast(ds) ==> r.None? || |r.value| < |ds|)
  {
    hide EntrySchema, Writable, DeleteFits, ContainerBytes, ManifestObjects, IsI64, DecodeObjects, Flatten, DeleteRecords,
         DeleteValues, NamedButLast, ReadDeletes;
    ObjectsOfManifest(ds, id, number, schemaText, extra);
    CountedObjects(ds, id, number);
    DeletesReadBack(ds, id, number);
  }
}
