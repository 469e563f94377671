/** Partition values in a manifest entry: the separator-joined text of a data file becomes
    one nullable slot per partition column, and is rebuilt from the slots on read. */
module PartitionCodec {
  import opened Wrappers
  import opened AvroBinary
  import opened AvroContainer
  import opened AvroRecords
  import opened DecimalText
  import T = TableModel

  type Column = T.ResolvedField

  function Nullable(s: Schema): Schema {
    SUnion(BCons(SNull, BCons(s, BNil)))
  }

  const NULL_SLOT := VUnion(0, VNull)

  function SlotType(c: Column): Schema {
    if c.sourceType == "int" || c.sourceType == "integer" then SInt
    else if c.sourceType == "long" then SLong
    else SString
  }

  /** The text can be stored in the column: non-empty, and an integer in range where the
      column is an integer. */
  predicate Stored(c: Column, p: Bytes) {
    && p != []
    && (SlotType(c) == SInt ==> ParseInt(p).Some? && IsI32(ParseInt(p).value))
    && (SlotType(c) == SLong ==> ParseInt(p).Some? && IsI64(ParseInt(p).value))
  }

  /** Stored, and printed back as the same text. */
  predicate Clean(c: Column, p: Bytes) {
    Stored(c, p) && (SlotType(c) != SString ==> ShowInt(ParseInt(p).value) == p)
  }

  function SlotValue(c: Column, p: Bytes): Value {
    if !Stored(c, p) then NULL_SLOT
    else if SlotType(c) == SInt then VUnion(1, VInt(ParseInt(p).value))
    else if SlotType(c) == SLong then VUnion(1, VLong(ParseInt(p).value))
    else VUnion(1, VString(p))
  }

  /** `parts.get(i)`, with a missing part like an empty one. */
  function PartAt(parts: seq<Bytes>, i: nat): Bytes {
    if i < |parts| then parts[i] else []
  }

  function PartitionDefs(cs: seq<Column>): (r: seq<FieldDef>)
    ensures |r| == |cs| && forall i :: 0 <= i < |cs| ==> r[i] == (cs[i].name, Nullable(SlotType(cs[i])))
  {
    seq(|cs|, i requires 0 <= i < |cs| => (cs[i].name, Nullable(SlotType(cs[i]))))
  }

  function SlotValues(cs: seq<Column>, parts: seq<Bytes>): (r: seq<Value>)
    ensures |r| == |cs| && forall i :: 0 <= i < |cs| ==> r[i] == SlotValue(cs[i], PartAt(parts, i))
  {
    seq(|cs|, i requires 0 <= i < |cs| => SlotValue(cs[i], PartAt(parts, i)))
  }

  function PartsOf(partition: Option<Bytes>): seq<Bytes> {
    Split(if partition.None? then [] else partition.value)
  }

  predicate TextSized(partition: Option<Bytes>) {
    partition.Some? ==> |partition.value| <= I64_MAX
  }

  // ---- writing -------------------------------------------------------------------

  lemma {:induction false} NullableEncoding(s: Schema, v: Value)
    ensures Encode(Nullable(s), NULL_SLOT) == EncLong(0)
    ensures Encode(Nullable(s), VUnion(1, v)) == EncLong(1) + Encode(s, v)
  {
    hide EncLong;
    assert EncodeBranch(BCons(SNull, BCons(s, BNil)), 0, VNull) == Encode(SNull, VNull) == [];
    assert EncodeBranch(BCons(SNull, BCons(s, BNil)), 1, v) == EncodeBranch(BCons(s, BNil), 0, v) == Encode(s, v);
    assert EncLong(0) + [] == EncLong(0);
  }

  /** One slot. A value that is not an integer of the column's type overwrites the union
      index already written, which turns the slot into a well-formed null. */
  method EncodePartitionValue(buf: ByteBuffer, c: Column, value: Option<Bytes>)
    requires value.Some? ==> value.value != [] && |value.value| <= I64_MAX
    modifies buf
    ensures buf.data == old(buf.data)
                      + Encode(Nullable(SlotType(c)), SlotValue(c, if value.Some? then value.value else []))
  {
    hide EncBytes, ParseInt;
    ghost var t := SlotType(c);
    assert EncLong(0) == [0] && EncLong(1) == [2];
    if value.None? {
      buf.EncodeLong(0);
      NullableEncoding(t, VNull);
    } else {
      var v := value.value;
      buf.EncodeLong(1);
      var n := ParseInt(v);
      if c.sourceType == "int" || c.sourceType == "integer" {
        if n.Some? && IsI32(n.value) {
          buf.EncodeLong(n.value);
          NullableEncoding(t, VInt(n.value));
        } else {
          buf.data := buf.data[|buf.data| - 1 := 0];
          NullableEncoding(t, VNull);
        }
      } else if c.sourceType == "long" {
        if n.Some? && IsI64(n.value) {
          buf.EncodeLong(n.value);
          NullableEncoding(t, VLong(n.value));
        } else {
          buf.data := buf.data[|buf.data| - 1 := 0];
          NullableEncoding(t, VNull);
        }
      } else {
        buf.EncodeBytesField(v);
        NullableEncoding(t, VString(v));
      }
    }
  }

  lemma {:induction false} SplitSized(s: Bytes)
    ensures forall i :: 0 <= i < |Split(s)| ==> |Split(s)[i]| <= |s|
  {
    if s != [] {
      SplitSized(s[1..]);
    }
  }

  /** The partition record: one slot per column, in order. */
  method EncodePartition(buf: ByteBuffer, cs: seq<Column>, partition: Option<Bytes>)
    requires TextSized(partition)
    modifies buf
    ensures buf.data == old(buf.data)
      + Encode(SRecord(MakeFields(PartitionDefs(cs))), VRecord(MakeVals(SlotValues(cs, PartsOf(partition)))))
  {
    hide Split, Encode, SlotValue, SlotType;
    ghost var defs := PartitionDefs(cs);
    var parts := Split(if partition.None? then [] else partition.value);
    ghost var vals := SlotValues(cs, parts);
    SplitSized(if partition.None? then [] else partition.value);
    for i := 0 to |cs|
      invariant buf.data == old(buf.data) + EncodePrefix(defs, vals, i)
    {
      var val := if i < |parts| && parts[i] != [] then Some(parts[i]) else None;
      EncodePartitionValue(buf, cs[i], val);
      assert (if val.Some? then val.value else []) == PartAt(parts, i);
      assert Encode(defs[i].1, vals[i]) == Encode(Nullable(SlotType(cs[i])), SlotValue(cs[i], PartAt(parts, i)));
    }
    PartitionEncoding(defs, vals);
  }

  lemma {:induction false} PartitionEncoding(defs: seq<FieldDef>, vals: seq<Value>)
    requires |defs| == |vals|
    ensures Encode(SRecord(MakeFields(defs)), VRecord(MakeVals(vals))) == EncodePrefix(defs, vals, |defs|)
  {
    hide EncodeFields, EncodePrefix;
    RecordEncoding(defs, vals);
  }

  /** Every slot decodes, malformed integers included: the partition record is well typed. */
  lemma {:induction false} PartitionTyped(cs: seq<Column>, partition: Option<Bytes>)
    requires TextSized(partition)
    ensures HasType(SRecord(MakeFields(PartitionDefs(cs))), VRecord(MakeVals(SlotValues(cs, PartsOf(partition)))))
  {
    hide Split, ParseInt, FieldsHaveType;
    var parts := PartsOf(partition);
    SplitSized(if partition.None? then [] else partition.value);
    var defs, vals := PartitionDefs(cs), SlotValues(cs, parts);
    forall i | 0 <= i < |cs| ensures HasType(defs[i].1, vals[i]) {
      SlotTyped(cs[i], PartAt(parts, i));
    }
    RecordTyped(defs, vals);
  }

  lemma {:induction false} SlotTyped(c: Column, p: Bytes)
    requires |p| <= I64_MAX
    ensures HasType(Nullable(SlotType(c)), SlotValue(c, p))
  {
    hide ParseInt;
    var t := SlotType(c);
    assert BranchHasType(BCons(SNull, BCons(t, BNil)), 0, VNull);
    var v := SlotValue(c, p);
    if v.index == 1 {
      assert BranchHasType(BCons(t, BNil), 0, v.value) == HasType(t, v.value);
      assert BranchHasType(BCons(SNull, BCons(t, BNil)), 1, v.value);
    }
  }

  // ---- reading -------------------------------------------------------------------

  function PlainText(v: Value): seq<Bytes> {
    match v
    case VString(s) => [s]
    case VInt(n) => [ShowInt(n)]
    case VLong(n) => [ShowInt(n)]
    case _ => []
  }

  /** The text of one slot, or nothing for null. */
  function SlotText(v: Value): seq<Bytes> {
    if v.VUnion? then (if v.index > 0 then PlainText(v.value) else []) else PlainText(v)
  }

  function SlotTexts(vs: Vals): seq<Bytes> {
    match vs case VNil => [] case VCons(v, t) => SlotText(v) + SlotTexts(t)
  }

  /** The partition text rebuilt from the partition record. */
  function NativePartition(v: Option<Value>): Option<Bytes> {
    if v.None? || !v.value.VRecord? || SlotTexts(v.value.vals) == [] then None
    else Some(Join(SlotTexts(v.value.vals)))
  }

  /** What a reader reports: the record's text, or else the copy in the key metadata. */
  function ReadPartition(cs: seq<Column>, partition: Option<Bytes>): Option<Bytes> {
    var native := NativePartition(Some(VRecord(MakeVals(SlotValues(cs, PartsOf(partition))))));
    if native.Some? then native else partition
  }

  function Texts(cs: seq<Column>, parts: seq<Bytes>): (r: seq<Bytes>)
    ensures |r| <= |cs| && |r| <= |parts|
  {
    if cs == [] || parts == [] then []
    else SlotText(SlotValue(cs[0], parts[0])) + Texts(cs[1..], parts[1..])
  }

  lemma {:induction false} TextsOfSlots(cs: seq<Column>, parts: seq<Bytes>)
    ensures SlotTexts(MakeVals(SlotValues(cs, parts))) == Texts(cs, parts)
    decreases |cs|
  {
    hide SlotType, ParseInt;
    if cs != [] {
      var vals := SlotValues(cs, parts);
      var tail := if parts == [] then [] else parts[1..];
      assert forall i :: 0 <= i < |cs| - 1 ==> PartAt(parts, i + 1) == PartAt(tail, i);
      assert vals[1..] == SlotValues(cs[1..], tail);
      TextsOfSlots(cs[1..], tail);
      if parts == [] {
        assert Texts(cs[1..], tail) == [];
      }
    }
  }

  lemma {:induction false} TextsSeparatorFree(cs: seq<Column>, parts: seq<Bytes>)
    requires forall i :: 0 <= i < |parts| ==> SEPARATOR !in parts[i]
    ensures forall i :: 0 <= i < |Texts(cs, parts)| ==> SEPARATOR !in Texts(cs, parts)[i]
    decreases |cs|
  {
    hide ParseInt;
    if cs != [] && parts != [] {
      TextsSeparatorFree(cs[1..], parts[1..]);
      assert SEPARATOR !in parts[0];
    }
  }

  predicate AllClean(cs: seq<Column>, parts: seq<Bytes>) {
    |parts| <= |cs| && forall i :: 0 <= i < |parts| ==> Clean(cs[i], parts[i])
  }

  predicate NoneStored(cs: seq<Column>, parts: seq<Bytes>) {
    forall i :: 0 <= i < |parts| && i < |cs| ==> !Stored(cs[i], parts[i])
  }

  lemma {:induction false} SlotTextOf(c: Column, p: Bytes)
    ensures |SlotText(SlotValue(c, p))| <= 1
    ensures SlotText(SlotValue(c, p)) == [p] <==> Clean(c, p)
    ensures SlotText(SlotValue(c, p)) == [] <==> !Stored(c, p)
  {
    hide ParseInt;
  }

  lemma {:induction false} TextsEqualParts(cs: seq<Column>, parts: seq<Bytes>)
    ensures Texts(cs, parts) == parts <==> AllClean(cs, parts)
    decreases |cs|
  {
    hide SlotText, SlotValue, Clean;
    if cs == [] || parts == [] {
    } else {
      TextsEqualParts(cs[1..], parts[1..]);
      SlotTextOf(cs[0], parts[0]);
      var slot := SlotText(SlotValue(cs[0], parts[0]));
      var more := Texts(cs[1..], parts[1..]);
      if Texts(cs, parts) == parts {
        assert |slot| == 1;
        assert (slot + more)[1..] == more && (slot + more)[0] == slot[0];
        assert Clean(cs[0], parts[0]);
        forall i | 0 <= i < |parts| ensures Clean(cs[i], parts[i]) {
          if i > 0 {
            assert Clean(cs[1..][i - 1], parts[1..][i - 1]);
          }
        }
      }
      if AllClean(cs, parts) {
        assert Clean(cs[0], parts[0]) && slot == [parts[0]];
        forall i | 0 <= i < |parts[1..]| ensures Clean(cs[1..][i], parts[1..][i]) {
          assert Clean(cs[i + 1], parts[i + 1]);
        }
        assert [parts[0]] + parts[1..] == parts;
      }
    }
  }

  lemma {:induction false} TextsEmpty(cs: seq<Column>, parts: seq<Bytes>)
    ensures Texts(cs, parts) == [] <==> NoneStored(cs, parts)
    decreases |cs|
  {
    hide SlotText, SlotValue, Stored;
    if cs != [] && parts != [] {
      TextsEmpty(cs[1..], parts[1..]);
      SlotTextOf(cs[0], parts[0]);
      var slot := SlotText(SlotValue(cs[0], parts[0]));
      assert slot == [] <==> !Stored(cs[0], parts[0]);
      if NoneStored(cs, parts) {
        assert !Stored(cs[0], parts[0]);
        forall i | 0 <= i < |parts[1..]| && i < |cs[1..]| ensures !Stored(cs[1..][i], parts[1..][i]) {
          assert !Stored(cs[i + 1], parts[i + 1]);
        }
      }
      if Texts(cs, parts) == [] {
        forall i | 0 <= i < |parts| && i < |cs| ensures !Stored(cs[i], parts[i]) {
          if i > 0 {
            assert !Stored(cs[1..][i - 1], parts[1..][i - 1]);
          }
        }
      }
    }
  }

  /** The partition text survives exactly when no part of it is stored natively, or there
      are no more parts than columns and every part is clean for its column. */
  lemma {:induction false} PartitionRoundTrip(cs: seq<Column>, partition: Option<Bytes>)
    ensures ReadPartition(cs, partition) == partition
       <==> NoneStored(cs, PartsOf(partition)) || AllClean(cs, PartsOf(partition))
  {
    hide Split, Join, AllClean, NoneStored, Texts, SlotTexts, SlotValues;
    var parts := PartsOf(partition);
    var texts := Texts(cs, parts);
    TextsOfSlots(cs, parts);
    TextsEmpty(cs, parts);
    TextsEqualParts(cs, parts);
    if partition.None? {
      assert parts == [[]] by { EmptySplit(); }
      NothingStored(cs);
    } else if texts != [] {
      TextsSeparatorFree(cs, parts);
      SplitJoin(texts);
      JoinSplit(partition.value);
    }
  }

  /** Without the copy in the key metadata only clean text survives. */
  lemma {:induction false} NativeRoundTrip(cs: seq<Column>, partition: Option<Bytes>)
    ensures NativePartition(Some(VRecord(MakeVals(SlotValues(cs, PartsOf(partition)))))) == partition
       <==> partition.None? || AllClean(cs, PartsOf(partition))
  {
    hide Split, Join, AllClean, NoneStored, Texts, SlotTexts, SlotValues;
    var parts := PartsOf(partition);
    var texts := Texts(cs, parts);
    TextsOfSlots(cs, parts);
    TextsEmpty(cs, parts);
    TextsEqualParts(cs, parts);
    if partition.None? {
      assert parts == [[]] by { EmptySplit(); }
      NothingStored(cs);
    } else {
      JoinSplit(partition.value);
      if texts != [] {
        TextsSeparatorFree(cs, parts);
        SplitJoin(texts);
      }
    }
  }

  lemma {:induction false} EmptySplit()
    ensures Split([]) == [[]]
  {
  }

  lemma {:induction false} NothingStored(cs: seq<Column>)
    ensures NoneStored(cs, [[]])
  {
  }

  /** An integer with leading zeros does not survive: `007` is read back as `7`. */
  lemma {:induction false} LeadingZerosLost(day: Column)
    requires day.sourceType == "int"
    ensures ReadPartition([day], Some([48, 48, 55])) == Some([55])
  {
    hide Split, SlotTexts, SlotValues, SlotType;
    var zeros: Bytes := [48, 48, 55];
    assert SlotType(day) == SInt by { ColumnTypes(day); }
    SplitPart(zeros);
    assert zeros[..2] == [48, 48] && zeros[..2][..1] == [48];
    assert DigitsValue([48]) == Some(0) && DigitsValue(zeros[..2]) == Some(0);
    assert ParseInt(zeros) == Some(7);
    TextsOfSlots([day], [zeros]);
    assert Texts([day], [zeros]) == [[55]] + Texts([], []);
  }

  /** Nor does an empty part before a stored one: its separator is gone. */
  lemma {:induction false} EmptyPartLost(day: Column, region: Column, name: Bytes)
    requires day.sourceType == "int" && region.sourceType == "string" && name != [] && SEPARATOR !in name
    ensures ReadPartition([day, region], Some([SEPARATOR] + name)) == Some(name)
  {
    hide Split, SlotTexts, SlotValues, SlotType, ParseInt;
    ColumnTypes(day);
    ColumnTypes(region);
    SplitPart(name);
    SplitAfter([], name);
    assert [] + [SEPARATOR] + name == [SEPARATOR] + name;
    assert [[]] + [name] == [[], name];
    var cs, parts := [day, region], [[], name];
    TextsOfSlots(cs, parts);
    assert cs[1..] == [region] && parts[1..] == [name];
    assert Texts([region], [name]) == [name] + Texts([], []);
  }

  lemma {:induction false} ColumnTypes(c: Column)
    ensures c.sourceType == "int" ==> SlotType(c) == SInt
    ensures c.sourceType == "string" ==> SlotType(c) == SString
  {
    assert |"string"| != |"int"| && |"string"| != |"integer"| && |"string"| != |"long"|;
  }
}
