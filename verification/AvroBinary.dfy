/** Avro binary encoding and object container files, written from the Apache Avro 1.11
    specification (sections "Binary Encoding" and "Object Container Files"): a decoder for
    the schema constructs the catalog uses, a reference encoder, and the round trip between
    them. */
module AvroBinary {

  type Byte = b: int | 0 <= b < 256
  type Bytes = seq<Byte>

  const I32_MIN := -0x8000_0000
  const I32_MAX := 0x7FFF_FFFF
  const I64_MIN := -0x8000_0000_0000_0000
  const I64_MAX := 0x7FFF_FFFF_FFFF_FFFF
  const U64_MAX := 0xFFFF_FFFF_FFFF_FFFF

  predicate IsI32(n: int) { I32_MIN <= n <= I32_MAX }
  predicate IsI64(n: int) { I64_MIN <= n <= I64_MAX }
  predicate IsU64(n: int) { 0 <= n <= U64_MAX }

  /** A parse either fails or yields a value and the unread input. */
  datatype Parse<+T> = Fail | Done(value: T, rest: Bytes)

  // ---- variable-length zig-zag integers ------------------------------------------

  function ZigZag(n: int): nat {
    if n >= 0 then 2 * n else -2 * n - 1
  }

  function UnZigZag(v: nat): int {
    if v % 2 == 0 then v / 2 else -(v / 2) - 1
  }

  function Varint(v: nat): Bytes {
    if v < 128 then [v] else [v % 128 + 128] + Varint(v / 128)
  }

  function EncLong(n: int): Bytes {
    Varint(ZigZag(n))
  }

  /** Seven bits per byte, least significant first, at most `limit` bytes. */
  function DecodeVarint(bs: Bytes, limit: nat): (r: Parse<nat>)
    ensures r.Done? ==> |r.rest| < |bs|
  {
    if bs == [] || limit == 0 then Fail
    else if bs[0] < 128 then Done(bs[0], bs[1..])
    else
      var r := DecodeVarint(bs[1..], limit - 1);
      if r.Fail? then Fail else Done(bs[0] - 128 + 128 * r.value, r.rest)
  }

  /** A long takes at most ten bytes and must fit 64 bits. */
  function DecodeLong(bs: Bytes): (r: Parse<int>)
    ensures r.Done? ==> |r.rest| < |bs| && IsI64(r.value)
  {
    var r := DecodeVarint(bs, 10);
    if r.Fail? || !IsU64(r.value) then Fail else Done(UnZigZag(r.value), r.rest)
  }

  function DecodeInt(bs: Bytes): (r: Parse<int>)
    ensures r.Done? ==> |r.rest| < |bs| && IsI32(r.value)
  {
    var r := DecodeLong(bs);
    if r.Fail? || !IsI32(r.value) then Fail else r
  }

  function Pow128(k: nat): nat {
    if k == 0 then 1 else 128 * Pow128(k - 1)
  }

  lemma {:induction false} VarintLength(v: nat, k: nat)
    requires k > 0 && v < Pow128(k)
    ensures 1 <= |Varint(v)| <= k
  {
    if v >= 128 {
      VarintLength(v / 128, k - 1);
    }
  }

  lemma {:induction false} VarintRoundTrip(v: nat, limit: nat, rest: Bytes)
    requires |Varint(v)| <= limit
    ensures DecodeVarint(Varint(v) + rest, limit) == Done(v, rest)
  {
    var bs := Varint(v) + rest;
    if v < 128 {
      assert bs[1..] == rest;
    } else {
      assert bs[1..] == Varint(v / 128) + rest;
      VarintRoundTrip(v / 128, limit - 1, rest);
    }
  }

  /** Every 64-bit integer takes between one and ten bytes. */
  lemma {:induction false} LongLength(n: int)
    requires IsI64(n)
    ensures 1 <= |EncLong(n)| <= 10
  {
    assert Pow128(2) == 0x4000;
    assert Pow128(4) == 128 * Pow128(3) == 0x1000_0000;
    assert Pow128(6) == 128 * Pow128(5) == 0x400_0000_0000;
    assert Pow128(8) == 128 * Pow128(7) == 0x100_0000_0000_0000;
    assert Pow128(10) == 128 * Pow128(9) == 0x40_0000_0000_0000_0000;
    VarintLength(ZigZag(n), 10);
  }

  /** Every 64-bit integer round-trips, whatever follows it. */
  lemma {:induction false} LongRoundTrip(n: int, rest: Bytes)
    requires IsI64(n)
    ensures DecodeLong(EncLong(n) + rest) == Done(n, rest)
  {
    LongLength(n);
    VarintRoundTrip(ZigZag(n), 10, rest);
  }

  // ---- schemas and values --------------------------------------------------------

  datatype Schema =
    | SNull
    | SBoolean
    | SInt
    | SLong
    | SBytes
    | SString
    | SRecord(fields: Fields)
    | SArray(items: Schema)
    | SUnion(branches: Branches)

  datatype Fields = FNil | FCons(name: string, schema: Schema, tail: Fields)
  datatype Branches = BNil | BCons(head: Schema, tail: Branches)

  /** Strings are kept as their UTF-8 bytes. */
  datatype Value =
    | VNull
    | VBoolean(b: bool)
    | VInt(n: int)
    | VLong(n: int)
    | VBytes(bytes: Bytes)
    | VString(bytes: Bytes)
    | VRecord(vals: Vals)
    | VArray(vals: Vals)
    | VUnion(index: nat, value: Value)

  datatype Vals = VNil | VCons(head: Value, tail: Vals)

  function Count(vs: Vals): nat {
    match vs case VNil => 0 case VCons(_, tail) => 1 + Count(tail)
  }

  function Append(a: Vals, b: Vals): Vals {
    match a case VNil => b case VCons(h, t) => VCons(h, Append(t, b))
  }

  predicate HasType(s: Schema, v: Value)
    decreases s, 0, v
  {
    match (s, v)
    case (SNull, VNull) => true
    case (SBoolean, VBoolean(_)) => true
    case (SInt, VInt(n)) => IsI32(n)
    case (SLong, VLong(n)) => IsI64(n)
    case (SBytes, VBytes(b)) => |b| <= I64_MAX
    case (SString, VString(b)) => |b| <= I64_MAX
    case (SRecord(fs), VRecord(vs)) => FieldsHaveType(fs, vs)
    case (SArray(e), VArray(vs)) => Count(vs) <= I64_MAX && ItemsHaveType(e, vs)
    case (SUnion(bs), VUnion(i, w)) => i <= I64_MAX && BranchHasType(bs, i, w)
    case _ => false
  }

  predicate FieldsHaveType(fs: Fields, vs: Vals)
    decreases fs, 0, vs
  {
    match (fs, vs)
    case (FNil, VNil) => true
    case (FCons(_, s, ft), VCons(v, vt)) => HasType(s, v) && FieldsHaveType(ft, vt)
    case _ => false
  }

  predicate ItemsHaveType(e: Schema, vs: Vals)
    decreases e, 1, vs
  {
    vs.VCons? ==> HasType(e, vs.head) && ItemsHaveType(e, vs.tail)
  }

  predicate BranchHasType(bs: Branches, i: nat, v: Value)
    decreases bs, 0, i
  {
    match bs
    case BNil => false
    case BCons(s, t) => if i == 0 then HasType(s, v) else BranchHasType(t, i - 1, v)
  }

  // ---- the reference encoder -----------------------------------------------------

  function EncBytes(b: Bytes): Bytes {
    EncLong(|b|) + b
  }

  /** The encoding of a value of schema `s`; an array is written as one block. */
  function Encode(s: Schema, v: Value): Bytes
    decreases s, 0, v
  {
    match (s, v)
    case (SBoolean, VBoolean(b)) => [if b then 1 else 0]
    case (SInt, VInt(n)) => EncLong(n)
    case (SLong, VLong(n)) => EncLong(n)
    case (SBytes, VBytes(b)) => EncBytes(b)
    case (SString, VString(b)) => EncBytes(b)
    case (SRecord(fs), VRecord(vs)) => EncodeFields(fs, vs)
    case (SArray(e), VArray(vs)) =>
      if vs == VNil then EncLong(0) else EncLong(Count(vs)) + EncodeItems(e, vs) + EncLong(0)
    case (SUnion(bs), VUnion(i, w)) => EncLong(i) + EncodeBranch(bs, i, w)
    case _ => []
  }

  function EncodeFields(fs: Fields, vs: Vals): Bytes
    decreases fs, 0, vs
  {
    match (fs, vs)
    case (FCons(_, s, ft), VCons(v, vt)) => Encode(s, v) + EncodeFields(ft, vt)
    case _ => []
  }

  function EncodeItems(e: Schema, vs: Vals): Bytes
    decreases e, 1, vs
  {
    match vs case VNil => [] case VCons(v, t) => Encode(e, v) + EncodeItems(e, t)
  }

  function EncodeBranch(bs: Branches, i: nat, v: Value): Bytes
    decreases bs, 0, i
  {
    match bs
    case BNil => []
    case BCons(s, t) => if i == 0 then Encode(s, v) else EncodeBranch(t, i - 1, v)
  }

  // ---- the decoder ---------------------------------------------------------------

  function DecodeBytes(bs: Bytes): (r: Parse<Bytes>)
    ensures r.Done? ==> |r.rest| < |bs|
  {
    var n := DecodeLong(bs);
    if n.Fail? || !(0 <= n.value <= |n.rest|) then Fail
    else Done(n.rest[..n.value], n.rest[n.value..])
  }

  function Decode(s: Schema, bs: Bytes): (r: Parse<Value>)
    ensures r.Done? ==> |r.rest| <= |bs|
    decreases s, 0, |bs|
  {
    match s
    case SNull => Done(VNull, bs)
    case SBoolean =>
      if bs == [] || bs[0] > 1 then Fail else Done(VBoolean(bs[0] == 1), bs[1..])
    case SInt =>
      var n := DecodeInt(bs);
      if n.Fail? then Fail else Done(VInt(n.value), n.rest)
    case SLong =>
      var n := DecodeLong(bs);
      if n.Fail? then Fail else Done(VLong(n.value), n.rest)
    case SBytes =>
      var b := DecodeBytes(bs);
      if b.Fail? then Fail else Done(VBytes(b.value), b.rest)
    case SString =>
      var b := DecodeBytes(bs);
      if b.Fail? then Fail else Done(VString(b.value), b.rest)
    case SRecord(fs) =>
      var vs := DecodeFields(fs, bs);
      if vs.Fail? then Fail else Done(VRecord(vs.value), vs.rest)
    case SArray(e) =>
      var vs := DecodeBlocks(e, bs);
      if vs.Fail? then Fail else Done(VArray(vs.value), vs.rest)
    case SUnion(branches) =>
      var i := DecodeLong(bs);
      if i.Fail? || i.value < 0 then Fail
      else
        var v := DecodeBranch(branches, i.value, i.rest);
        if v.Fail? then Fail else Done(VUnion(i.value, v.value), v.rest)
  }

  function DecodeFields(fs: Fields, bs: Bytes): (r: Parse<Vals>)
    ensures r.Done? ==> |r.rest| <= |bs|
    decreases fs, 0, |bs|
  {
    match fs
    case FNil => Done(VNil, bs)
    case FCons(_, s, t) =>
      var v := Decode(s, bs);
      if v.Fail? then Fail
      else
        var vs := DecodeFields(t, v.rest);
        if vs.Fail? then Fail else Done(VCons(v.value, vs.value), vs.rest)
  }

  function DecodeItems(e: Schema, n: nat, bs: Bytes): (r: Parse<Vals>)
    ensures r.Done? ==> |r.rest| <= |bs|
    decreases e, 1, n
  {
    if n == 0 then Done(VNil, bs)
    else
      var v := Decode(e, bs);
      if v.Fail? then Fail
      else
        var vs := DecodeItems(e, n - 1, v.rest);
        if vs.Fail? then Fail else Done(VCons(v.value, vs.value), vs.rest)
  }

  /** Blocks up to the zero count; a negative count is followed by the block's byte size. */
  function DecodeBlocks(e: Schema, bs: Bytes): (r: Parse<Vals>)
    ensures r.Done? ==> |r.rest| <= |bs|
    decreases e, 2, |bs|
  {
    var n := DecodeLong(bs);
    if n.Fail? then Fail
    else if n.value == 0 then Done(VNil, n.rest)
    else
      var size := if n.value < 0 then DecodeLong(n.rest) else Done(0, n.rest);
      if size.Fail? then Fail
      else
        var vs := DecodeItems(e, if n.value < 0 then -n.value else n.value, size.rest);
        if vs.Fail? then Fail
        else
          var more := DecodeBlocks(e, vs.rest);
          if more.Fail? then Fail else Done(Append(vs.value, more.value), more.rest)
  }

  function DecodeBranch(branches: Branches, i: nat, bs: Bytes): (r: Parse<Value>)
    ensures r.Done? ==> |r.rest| <= |bs|
    decreases branches, 0, |bs|
  {
    match branches
    case BNil => Fail
    case BCons(s, t) => if i == 0 then Decode(s, bs) else DecodeBranch(t, i - 1, bs)
  }

  // ---- the round trip ------------------------------------------------------------

  lemma {:induction false} BytesRoundTrip(b: Bytes, rest: Bytes)
    requires |b| <= I64_MAX
    ensures DecodeBytes(EncBytes(b) + rest) == Done(b, rest)
  {
    hide EncLong, DecodeLong;
    assert EncBytes(b) + rest == EncLong(|b|) + (b + rest);
    LongRoundTrip(|b|, b + rest);
    assert (b + rest)[..|b|] == b && (b + rest)[|b|..] == rest;
  }

  lemma {:induction false} AppendNil(vs: Vals)
    ensures Append(vs, VNil) == vs
  {
    if vs.VCons? {
      AppendNil(vs.tail);
    }
  }

  /** Decoding what the encoder wrote gives the value back and leaves exactly what follows. */
  lemma {:induction false} RoundTrip(s: Schema, v: Value, rest: Bytes)
    requires HasType(s, v)
    ensures Decode(s, Encode(s, v) + rest) == Done(v, rest)
    decreases s, 0, v
  {
    hide EncLong, DecodeLong, EncBytes, DecodeBytes;
    match (s, v)
    case (SNull, VNull) =>
      assert Encode(s, v) + rest == rest;
    case (SBoolean, VBoolean(b)) =>
      var bs := Encode(s, v) + rest;
      assert bs[1..] == rest;
    case (SInt, VInt(n)) => LongRoundTrip(n, rest);
    case (SLong, VLong(n)) => LongRoundTrip(n, rest);
    case (SBytes, VBytes(b)) => BytesRoundTrip(b, rest);
    case (SString, VString(b)) => BytesRoundTrip(b, rest);
    case (SRecord(fs), VRecord(vs)) => FieldsRoundTrip(fs, vs, rest);
    case (SArray(e), VArray(vs)) => BlocksRoundTrip(e, vs, rest);
    case (SUnion(bs), VUnion(i, w)) =>
      var body := EncodeBranch(bs, i, w) + rest;
      assert Encode(s, v) + rest == EncLong(i) + body;
      LongRoundTrip(i, body);
      BranchRoundTrip(bs, i, w, rest);
  }

  lemma {:induction false} FieldsRoundTrip(fs: Fields, vs: Vals, rest: Bytes)
    requires FieldsHaveType(fs, vs)
    ensures DecodeFields(fs, EncodeFields(fs, vs) + rest) == Done(vs, rest)
    decreases fs, 0, vs
  {
    hide HasType, Encode, Decode;
    if fs.FNil? {
      assert EncodeFields(fs, vs) + rest == rest;
    } else {
      var body := EncodeFields(fs.tail, vs.tail) + rest;
      assert EncodeFields(fs, vs) + rest == Encode(fs.schema, vs.head) + body;
      RoundTrip(fs.schema, vs.head, body);
      FieldsRoundTrip(fs.tail, vs.tail, rest);
    }
  }

  lemma {:induction false} ItemsRoundTrip(e: Schema, vs: Vals, rest: Bytes)
    requires ItemsHaveType(e, vs)
    ensures DecodeItems(e, Count(vs), EncodeItems(e, vs) + rest) == Done(vs, rest)
    decreases e, 1, vs
  {
    hide HasType, Encode, Decode;
    if vs.VNil? {
      assert EncodeItems(e, vs) + rest == rest;
    } else {
      var body := EncodeItems(e, vs.tail) + rest;
      assert EncodeItems(e, vs) + rest == Encode(e, vs.head) + body;
      RoundTrip(e, vs.head, body);
      ItemsRoundTrip(e, vs.tail, rest);
    }
  }

  lemma {:induction false} BlocksRoundTrip(e: Schema, vs: Vals, rest: Bytes)
    requires Count(vs) <= I64_MAX && ItemsHaveType(e, vs)
    ensures DecodeBlocks(e, Encode(SArray(e), VArray(vs)) + rest) == Done(vs, rest)
    decreases e, 2, vs
  {
    hide EncLong, DecodeLong, EncodeItems, DecodeItems, ItemsHaveType;
    LongRoundTrip(0, rest);
    if vs.VCons? {
      var tail := EncLong(0) + rest;
      var body := EncodeItems(e, vs) + tail;
      assert Encode(SArray(e), VArray(vs)) + rest == EncLong(Count(vs)) + body;
      LongRoundTrip(Count(vs), body);
      ItemsRoundTrip(e, vs, tail);
      AppendNil(vs);
    }
  }

  lemma {:induction false} BranchRoundTrip(bs: Branches, i: nat, v: Value, rest: Bytes)
    requires BranchHasType(bs, i, v)
    ensures DecodeBranch(bs, i, EncodeBranch(bs, i, v) + rest) == Done(v, rest)
    decreases bs, 0, i
  {
    hide HasType, Encode, Decode;
    if i == 0 {
      RoundTrip(bs.head, v, rest);
    } else {
      BranchRoundTrip(bs.tail, i - 1, v, rest);
    }
  }

  /** Encodings of one schema are prefix-free, so values need no separators. */
  lemma {:induction false} PrefixFree(s: Schema, v: Value, w: Value, afterV: Bytes, afterW: Bytes)
    requires HasType(s, v) && HasType(s, w)
    requires Encode(s, v) + afterV == Encode(s, w) + afterW
    ensures v == w && afterV == afterW
  {
    hide HasType, Encode, Decode;
    RoundTrip(s, v, afterV);
    RoundTrip(s, w, afterW);
  }
}
