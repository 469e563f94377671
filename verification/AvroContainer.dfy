/** Avro object container files: a reader written from the Apache Avro 1.11 specification
    (section "Object Container Files"), the hand-written encoders of `avro_raw.rs` as
    methods on a byte buffer, and the proof that the reader recovers what they wrote. */
module AvroContainer {
  import opened Wrappers
  import opened AvroBinary

  type Pair = (Bytes, Bytes)

  /** A block of `count` objects serialised back to back in `data`. */
  datatype Block = Block(count: int, data: Bytes)

  datatype File = File(meta: seq<Pair>, blocks: seq<Block>)

  const MAGIC: Bytes := [0x4F, 0x62, 0x6A, 0x01]

  const SYNC_MARKER: Bytes :=
    [0xDE, 0xAD, 0xBE, 0xEF, 0xCA, 0xFE, 0xBA, 0xBE, 0xDE, 0xAD, 0xBE, 0xEF, 0xCA, 0xFE, 0xBA, 0xBE]

  function Ascii(s: string): (r: Bytes)
    ensures |r| == |s|
  {
    seq(|s|, i requires 0 <= i < |s| => if s[i] < 128 as char then s[i] as int else 0)
  }

  // ---- reading -------------------------------------------------------------------

  function DecodePairs(n: nat, bs: Bytes): (r: Parse<seq<Pair>>)
    ensures r.Done? ==> |r.rest| <= |bs|
    decreases n
  {
    if n == 0 then Done([], bs)
    else
      var key := DecodeBytes(bs);
      if key.Fail? then Fail
      else
        var val := DecodeBytes(key.rest);
        if val.Fail? then Fail
        else
          var more := DecodePairs(n - 1, val.rest);
          if more.Fail? then Fail else Done([(key.value, val.value)] + more.value, more.rest)
  }

  /** The file metadata map: blocks of pairs up to a zero count. */
  function DecodeMeta(bs: Bytes): (r: Parse<seq<Pair>>)
    ensures r.Done? ==> |r.rest| <= |bs|
    decreases |bs|
  {
    var n := DecodeLong(bs);
    if n.Fail? then Fail
    else if n.value == 0 then Done([], n.rest)
    else
      var size := if n.value < 0 then DecodeLong(n.rest) else Done(0, n.rest);
      if size.Fail? then Fail
      else
        var ps := DecodePairs(if n.value < 0 then -n.value else n.value, size.rest);
        if ps.Fail? then Fail
        else
          var more := DecodeMeta(ps.rest);
          if more.Fail? then Fail else Done(ps.value + more.value, more.rest)
  }

  /** Data blocks to the end of the file, each closed by the file's sync marker. */
  function DecodeBlockList(sync: Bytes, bs: Bytes): Option<seq<Block>>
    decreases |bs|
  {
    if bs == [] then Some([])
    else
      var count := DecodeLong(bs);
      if count.Fail? || count.value < 0 then None
      else
        var data := DecodeBytes(count.rest);
        if data.Fail? || !(sync <= data.rest) then None
        else
          var more := DecodeBlockList(sync, data.rest[|sync|..]);
          if more.None? then None else Some([Block(count.value, data.value)] + more.value)
  }

  function ReadContainer(bs: Bytes): Option<File> {
    if !(MAGIC <= bs) then None
    else
      var meta := DecodeMeta(bs[|MAGIC|..]);
      if meta.Fail? || |meta.rest| < 16 then None
      else
        var blocks := DecodeBlockList(meta.rest[..16], meta.rest[16..]);
        if blocks.None? then None else Some(File(meta.value, blocks.value))
  }

  /** Metadata is a map: a repeated key takes its last value. */
  function Lookup(meta: seq<Pair>, key: Bytes): Option<Bytes> {
    if meta == [] then None
    else if meta[|meta| - 1].0 == key then Some(meta[|meta| - 1].1)
    else Lookup(meta[..|meta| - 1], key)
  }

  /** `n` objects of schema `s`, one after the other. */
  function DecodeObjects(s: Schema, n: nat, bs: Bytes): Parse<seq<Value>>
    decreases n
  {
    if n == 0 then Done([], bs)
    else
      var v := Decode(s, bs);
      if v.Fail? then Fail
      else
        var more := DecodeObjects(s, n - 1, v.rest);
        if more.Fail? then Fail else Done([v.value] + more.value, more.rest)
  }

  /** The objects of every block in order. The reader the catalog uses goes by each block's
      object count and never looks at bytes left over after the last object. */
  function ReadObjects(s: Schema, blocks: seq<Block>): Option<seq<Value>> {
    if blocks == [] then Some([])
    else if blocks[0].count < 0 then None
    else
      var vs := DecodeObjects(s, blocks[0].count, blocks[0].data);
      var more := ReadObjects(s, blocks[1..]);
      if vs.Fail? || more.None? then None else Some(vs.value + more.value)
  }

  /** A stricter reader: every block must be used up exactly. */
  function StrictObjects(s: Schema, blocks: seq<Block>): Option<seq<Value>> {
    if blocks == [] then Some([])
    else if blocks[0].count < 0 then None
    else
      var vs := DecodeObjects(s, blocks[0].count, blocks[0].data);
      var more := StrictObjects(s, blocks[1..]);
      if vs.Fail? || vs.rest != [] || more.None? then None else Some(vs.value + more.value)
  }

  // ---- what the writer produces --------------------------------------------------

  function EncPairs(ps: seq<Pair>): Bytes {
    if ps == [] then [] else EncBytes(ps[0].0) + EncBytes(ps[0].1) + EncPairs(ps[1..])
  }

  function Flatten(records: seq<Bytes>): Bytes {
    if records == [] then [] else records[0] + Flatten(records[1..])
  }

  function WrittenMeta(schemaText: Bytes, extra: seq<Pair>): seq<Pair> {
    [(Ascii("avro.schema"), schemaText), (Ascii("avro.codec"), Ascii("null"))] + extra
  }

  function WrittenBlocks(records: seq<Bytes>): seq<Block> {
    if records == [] then [] else [Block(|records|, Flatten(records))]
  }

  function EncBlocks(records: seq<Bytes>): Bytes {
    if records == [] then []
    else EncLong(|records|) + EncBytes(Flatten(records)) + SYNC_MARKER
  }

  function ContainerBytes(schemaText: Bytes, extra: seq<Pair>, records: seq<Bytes>): Bytes {
    var meta := WrittenMeta(schemaText, extra);
    MAGIC + (EncLong(|meta|) + (EncPairs(meta) + (EncLong(0) + (SYNC_MARKER + EncBlocks(records)))))
  }

  /** Lengths a Rust vector can have. */
  predicate Sized(ps: seq<Pair>) {
    |ps| <= I64_MAX && forall i :: 0 <= i < |ps| ==> |ps[i].0| <= I64_MAX && |ps[i].1| <= I64_MAX
  }

  predicate Writable(schemaText: Bytes, extra: seq<Pair>, records: seq<Bytes>) {
    && Sized(WrittenMeta(schemaText, extra))
    && |records| <= I64_MAX && |Flatten(records)| <= I64_MAX
  }

  // ---- the round trip ------------------------------------------------------------

  lemma {:induction false} PairsRoundTrip(ps: seq<Pair>, rest: Bytes)
    requires Sized(ps)
    ensures DecodePairs(|ps|, EncPairs(ps) + rest) == Done(ps, rest)
  {
    hide EncBytes, DecodeBytes;
    if ps == [] {
      assert EncPairs(ps) + rest == rest;
    } else {
      var body := EncPairs(ps[1..]) + rest;
      assert EncPairs(ps) + rest == EncBytes(ps[0].0) + (EncBytes(ps[0].1) + body);
      BytesRoundTrip(ps[0].0, EncBytes(ps[0].1) + body);
      BytesRoundTrip(ps[0].1, body);
      PairsRoundTrip(ps[1..], rest);
      assert [(ps[0].0, ps[0].1)] + ps[1..] == ps;
    }
  }

  lemma {:induction false} MetaRoundTrip(ps: seq<Pair>, rest: Bytes)
    requires Sized(ps) && ps != []
    ensures DecodeMeta(EncLong(|ps|) + (EncPairs(ps) + (EncLong(0) + rest))) == Done(ps, rest)
  {
    hide EncLong, DecodeLong, EncPairs, DecodePairs;
    var tail := EncLong(0) + rest;
    LongRoundTrip(|ps|, EncPairs(ps) + tail);
    PairsRoundTrip(ps, tail);
    LongRoundTrip(0, rest);
    assert DecodeMeta(tail) == Done([], rest);
    assert ps + [] == ps;
  }

  lemma {:induction false} BlocksDecoded(records: seq<Bytes>)
    requires |records| <= I64_MAX && |Flatten(records)| <= I64_MAX
    ensures DecodeBlockList(SYNC_MARKER, EncBlocks(records)) == Some(WrittenBlocks(records))
  {
    hide EncLong, DecodeLong, EncBytes, DecodeBytes, Flatten;
    if records != [] {
      var data := Flatten(records);
      var bs := EncBlocks(records);
      assert bs == EncLong(|records|) + (EncBytes(data) + SYNC_MARKER);
      LongRoundTrip(|records|, EncBytes(data) + SYNC_MARKER);
      BytesRoundTrip(data, SYNC_MARKER);
      assert |bs| >= |SYNC_MARKER|;
      assert SYNC_MARKER <= SYNC_MARKER && SYNC_MARKER[|SYNC_MARKER|..] == [];
      assert DecodeBlockList(SYNC_MARKER, []) == Some([]);
      assert [Block(|records|, data)] + [] == [Block(|records|, data)];
    }
  }

  /** A reader that follows the standard recovers the metadata pairs and the records. */
  lemma {:induction false} ContainerRoundTrip(schemaText: Bytes, extra: seq<Pair>, records: seq<Bytes>)
    requires Writable(schemaText, extra, records)
    ensures ReadContainer(ContainerBytes(schemaText, extra, records))
         == Some(File(WrittenMeta(schemaText, extra), WrittenBlocks(records)))
  {
    hide EncLong, EncPairs, EncBlocks, DecodeMeta, DecodeBlockList, WrittenBlocks, Flatten;
    var meta := WrittenMeta(schemaText, extra);
    var bs := ContainerBytes(schemaText, extra, records);
    var tail := SYNC_MARKER + EncBlocks(records);
    var body := EncLong(|meta|) + (EncPairs(meta) + (EncLong(0) + tail));
    assert bs == MAGIC + body;
    assert MAGIC <= bs && bs[|MAGIC|..] == body;
    MetaRoundTrip(meta, tail);
    assert |SYNC_MARKER| == 16;
    assert tail[..16] == SYNC_MARKER && tail[16..] == EncBlocks(records);
    BlocksDecoded(records);
  }

  /** The schema text comes back unless an extra pair reuses its key. */
  lemma {:induction false} SchemaTextRecovered(schemaText: Bytes, extra: seq<Pair>)
    requires forall i :: 0 <= i < |extra| ==> extra[i].0 != Ascii("avro.schema")
    ensures Lookup(WrittenMeta(schemaText, extra), Ascii("avro.schema")) == Some(schemaText)
    decreases |extra|
  {
    hide Ascii;
    var meta := WrittenMeta(schemaText, extra);
    if extra == [] {
      assert |Ascii("avro.schema")| != |Ascii("avro.codec")|;
      assert Lookup(meta[..1], Ascii("avro.schema")) == Some(schemaText);
    } else {
      var most := extra[..|extra| - 1];
      SchemaTextRecovered(schemaText, most);
      assert meta[..|meta| - 1] == WrittenMeta(schemaText, most);
    }
  }

  /** The last pair with a key decides. */
  lemma {:induction false} LookupAt(meta: seq<Pair>, i: nat)
    requires i < |meta| && forall j :: i < j < |meta| ==> meta[j].0 != meta[i].0
    ensures Lookup(meta, meta[i].0) == Some(meta[i].1)
    decreases |meta|
  {
    var n := |meta| - 1;
    if i < n {
      assert meta[n].0 != meta[i].0;
      forall j | i < j < n ensures meta[..n][j].0 != meta[..n][i].0 {
        assert meta[j].0 != meta[i].0;
      }
      LookupAt(meta[..n], i);
    }
  }

  /** Looked up by key, the five pairs of a manifest header are found. */
  lemma {:induction false} HeaderPairs(schemaText: Bytes, schema: Bytes, spec: Bytes, specId: Bytes, version: Bytes, content: Bytes)
    ensures var meta := WrittenMeta(schemaText,
                          [ (Ascii("schema"), schema), (Ascii("partition-spec"), spec), (Ascii("partition-spec-id"), specId),
                            (Ascii("format-version"), version), (Ascii("content"), content) ]);
      && Lookup(meta, Ascii("schema")) == Some(schema) && Lookup(meta, Ascii("partition-spec")) == Some(spec)
      && Lookup(meta, Ascii("partition-spec-id")) == Some(specId) && Lookup(meta, Ascii("format-version")) == Some(version)
      && Lookup(meta, Ascii("content")) == Some(content)
  {
    hide Lookup;
    var meta := WrittenMeta(schemaText,
                  [ (Ascii("schema"), schema), (Ascii("partition-spec"), spec), (Ascii("partition-spec-id"), specId),
                    (Ascii("format-version"), version), (Ascii("content"), content) ]);
    assert |Ascii("schema")| == 6 && |Ascii("partition-spec")| == 14 && |Ascii("partition-spec-id")| == 17;
    assert |Ascii("format-version")| == 14 && |Ascii("content")| == 7;
    assert Ascii("partition-spec")[0] != Ascii("format-version")[0];
    assert |meta| == 7 && meta[2] == (Ascii("schema"), schema) && meta[3] == (Ascii("partition-spec"), spec);
    assert meta[4] == (Ascii("partition-spec-id"), specId) && meta[5] == (Ascii("format-version"), version);
    assert meta[6] == (Ascii("content"), content);
    hide Ascii;
    LookupAt(meta, 2);
    LookupAt(meta, 3);
    LookupAt(meta, 4);
    LookupAt(meta, 5);
    LookupAt(meta, 6);
  }

  function EncodeAll(s: Schema, vs: seq<Value>): (r: seq<Bytes>)
    ensures |r| == |vs| && forall i :: 0 <= i < |vs| ==> r[i] == Encode(s, vs[i])
  {
    seq(|vs|, i requires 0 <= i < |vs| => Encode(s, vs[i]))
  }

  lemma {:induction false} ObjectsRoundTrip(s: Schema, vs: seq<Value>, rest: Bytes)
    requires forall i :: 0 <= i < |vs| ==> HasType(s, vs[i])
    ensures DecodeObjects(s, |vs|, Flatten(EncodeAll(s, vs)) + rest) == Done(vs, rest)
    decreases |vs|
  {
    hide HasType, Encode, Decode;
    if vs == [] {
      assert Flatten(EncodeAll(s, vs)) + rest == rest;
    } else {
      var body := Flatten(EncodeAll(s, vs[1..])) + rest;
      assert EncodeAll(s, vs)[1..] == EncodeAll(s, vs[1..]);
      assert Flatten(EncodeAll(s, vs)) + rest == Encode(s, vs[0]) + body;
      RoundTrip(s, vs[0], body);
      ObjectsRoundTrip(s, vs[1..], rest);
      assert [vs[0]] + vs[1..] == vs;
    }
  }

  /** Encoded records come back as the same values in the same order, from either reader. */
  lemma {:induction false} RecordsRoundTrip(s: Schema, vs: seq<Value>)
    requires forall i :: 0 <= i < |vs| ==> HasType(s, vs[i])
    ensures ReadObjects(s, WrittenBlocks(EncodeAll(s, vs))) == Some(vs)
    ensures StrictObjects(s, WrittenBlocks(EncodeAll(s, vs))) == Some(vs)
  {
    hide HasType, DecodeObjects, Flatten, EncodeAll;
    var records := EncodeAll(s, vs);
    if vs != [] {
      ObjectsRoundTrip(s, vs, []);
      assert Flatten(records) + [] == Flatten(records);
      var blocks := WrittenBlocks(records);
      assert blocks[1..] == [];
      assert ReadObjects(s, blocks[1..]) == Some([]) && StrictObjects(s, blocks[1..]) == Some([]);
      assert vs + [] == vs;
    }
  }

  // ---- the encoders --------------------------------------------------------------

  /** The growing byte vector every encoder appends to. */
  class ByteBuffer {
    var data: Bytes

    constructor ()
      ensures data == []
    {
      data := [];
    }

    /** Zig-zag then base-128 groups; the shift and sign mask work on 64-bit words. */
    method EncodeLong(n: int)
      requires IsI64(n)
      modifies this
      ensures data == old(data) + EncLong(n)
    {
      var shifted := (2 * n) % (U64_MAX + 1);
      var v := if n < 0 then U64_MAX - shifted else shifted;
      assert v == ZigZag(n);
      while true
        invariant v >= 0
        invariant data + Varint(v) == old(data) + EncLong(n)
        decreases v
      {
        var b := v % 128;
        ghost var was := data;
        assert Varint(v) == if v < 128 then [v] else [v % 128 + 128] + Varint(v / 128);
        v := v / 128;
        if v == 0 {
          data := data + [b];
          return;
        }
        data := data + [b + 128];
        assert data + Varint(v) == was + ([b + 128] + Varint(v));
      }
    }

    method EncodeInt(n: int)
      requires IsI32(n)
      modifies this
      ensures data == old(data) + EncLong(n)
    {
      EncodeLong(n);
    }

    /** Strings are given as their UTF-8 bytes, so this serves strings and bytes. */
    method EncodeBytesField(b: Bytes)
      requires |b| <= I64_MAX
      modifies this
      ensures data == old(data) + EncBytes(b)
    {
      hide EncLong;
      EncodeLong(|b|);
      data := data + b;
      assert data == old(data) + (EncLong(|b|) + b);
    }

    method EncodeUnionNull()
      modifies this
      ensures data == old(data) + EncLong(0)
    {
      EncodeLong(0);
    }

    method EncodeUnionLong(index: int, val: int)
      requires IsI64(index) && IsI64(val)
      modifies this
      ensures data == old(data) + (EncLong(index) + EncLong(val))
    {
      hide EncLong;
      EncodeLong(index);
      EncodeLong(val);
    }

    method EncodeUnionBytes(index: int, val: Bytes)
      requires IsI64(index) && |val| <= I64_MAX
      modifies this
      ensures data == old(data) + (EncLong(index) + EncBytes(val))
    {
      hide EncLong, EncBytes;
      EncodeLong(index);
      EncodeBytesField(val);
    }

    method Extend(b: Bytes)
      modifies this
      ensures data == old(data) + b
    {
      data := data + b;
    }
  }

  lemma {:induction false} FlattenSnoc(records: seq<Bytes>, r: Bytes)
    ensures Flatten(records + [r]) == Flatten(records) + r
  {
    if records == [] {
      assert [r][1..] == [] && ([] + [r]) == [r];
      assert Flatten([r]) == r;
    } else {
      assert (records + [r])[1..] == records[1..] + [r];
      FlattenSnoc(records[1..], r);
    }
  }

  lemma {:induction false} EncPairsSnoc(ps: seq<Pair>, p: Pair)
    ensures EncPairs(ps + [p]) == EncPairs(ps) + (EncBytes(p.0) + EncBytes(p.1))
  {
    hide EncBytes;
    if ps == [] {
      assert [p][1..] == [] && [] + [p] == [p];
    } else {
      assert (ps + [p])[1..] == ps[1..] + [p];
      EncPairsSnoc(ps[1..], p);
    }
  }

  method Concatenate(records: seq<Bytes>) returns (block: Bytes)
    ensures block == Flatten(records)
  {
    block := [];
    for i := 0 to |records|
      invariant block == Flatten(records[..i])
    {
      FlattenSnoc(records[..i], records[i]);
      assert records[..i] + [records[i]] == records[..i + 1];
      block := block + records[i];
    }
    assert records[..|records|] == records;
  }

  lemma {:induction false} FirstPairs(schemaText: Bytes, extra: seq<Pair>)
    ensures var meta := WrittenMeta(schemaText, extra);
      EncPairs(meta[..2])
      == EncBytes(Ascii("avro.schema")) + EncBytes(schemaText) + EncBytes(Ascii("avro.codec")) + EncBytes(Ascii("null"))
  {
    hide EncBytes, Ascii;
    var meta := WrittenMeta(schemaText, extra);
    EncPairsSnoc([], meta[0]);
    EncPairsSnoc([meta[0]], meta[1]);
    assert [] + [meta[0]] == [meta[0]] && [meta[0]] + [meta[1]] == meta[..2];
  }

  /** The two entries every container has. */
  method WriteBaseMeta(buf: ByteBuffer, schemaText: Bytes, extra: seq<Pair>)
    requires |schemaText| <= I64_MAX
    modifies buf
    ensures buf.data == old(buf.data) + EncPairs(WrittenMeta(schemaText, extra)[..2])
  {
    hide EncBytes, EncPairs, Ascii;
    buf.EncodeBytesField(Ascii("avro.schema"));
    buf.EncodeBytesField(schemaText);
    buf.EncodeBytesField(Ascii("avro.codec"));
    buf.EncodeBytesField(Ascii("null"));
    FirstPairs(schemaText, extra);
  }

  method WriteMeta(buf: ByteBuffer, schemaText: Bytes, extra: seq<Pair>)
    requires Sized(WrittenMeta(schemaText, extra))
    modifies buf
    ensures buf.data == old(buf.data) + EncPairs(WrittenMeta(schemaText, extra))
  {
    hide EncBytes, EncPairs, Ascii;
    var meta := WrittenMeta(schemaText, extra);
    assert meta[0].1 == schemaText;
    WriteBaseMeta(buf, schemaText, extra);
    for i := 0 to |extra|
      invariant buf.data == old(buf.data) + EncPairs(meta[..i + 2])
    {
      assert extra[i] == meta[i + 2];
      EncPairsSnoc(meta[..i + 2], extra[i]);
      assert meta[..i + 2] + [extra[i]] == meta[..i + 3];
      buf.EncodeBytesField(extra[i].0);
      buf.EncodeBytesField(extra[i].1);
    }
    assert meta[..|extra| + 2] == meta;
  }

  lemma {:induction false} Regroup(a: Bytes, b: Bytes, c: Bytes, d: Bytes, e: Bytes)
    ensures a + b + c + d + e == a + (b + (c + d) + e)
  {
  }

  method WriteBlock(buf: ByteBuffer, records: seq<Bytes>)
    requires |records| <= I64_MAX && |Flatten(records)| <= I64_MAX
    modifies buf
    ensures buf.data == old(buf.data) + EncBlocks(records)
  {
    hide EncLong, Flatten;
    if records != [] {
      var block := Concatenate(records);
      buf.EncodeLong(|records|);
      buf.EncodeLong(|block|);
      buf.Extend(block);
      buf.Extend(SYNC_MARKER);
      Regroup(old(buf.data), EncLong(|records|), EncLong(|block|), block, SYNC_MARKER);
    }
  }

  /** The container writer; a reader that follows the standard recovers the metadata pairs,
      and the records as one block, or no block when there are none. */
  method WriteAvroContainer(schemaText: Bytes, extra: seq<Pair>, records: seq<Bytes>) returns (out: Bytes)
    requires Writable(schemaText, extra, records)
    ensures out == ContainerBytes(schemaText, extra, records)
    ensures ReadContainer(out) == Some(File(WrittenMeta(schemaText, extra), WrittenBlocks(records)))
  {
    hide EncLong, EncPairs, EncBlocks, Flatten, ReadContainer, Ascii;
    var buf := new ByteBuffer();
    buf.Extend(MAGIC);
    buf.EncodeLong(2 + |extra|);
    WriteMeta(buf, schemaText, extra);
    buf.EncodeLong(0);
    buf.Extend(SYNC_MARKER);
    WriteBlock(buf, records);
    out := buf.data;
    ContainerRoundTrip(schemaText, extra, records);
  }
}
