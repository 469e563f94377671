/** Avro records given as lists of named fields: field lookup, and typing and encoding
    field by field. */
module AvroRecords {
  import opened Wrappers
  import opened AvroBinary

  type FieldDef = (string, Schema)

  function MakeFields(fs: seq<FieldDef>): Fields {
    if fs == [] then FNil else FCons(fs[0].0, fs[0].1, MakeFields(fs[1..]))
  }

  function MakeVals(vs: seq<Value>): (r: Vals)
    ensures Count(r) == |vs|
  {
    if vs == [] then VNil else VCons(vs[0], MakeVals(vs[1..]))
  }

  /** `fields.iter().find(|(k, _)| k == name)`. */
  function FieldNamed(fs: Fields, vs: Vals, name: string): Option<Value> {
    if fs.FNil? || vs.VNil? then None
    else if fs.name == name then Some(vs.head)
    else FieldNamed(fs.tail, vs.tail, name)
  }

  /** The encodings of the first `k` fields. */
  function EncodePrefix(fs: seq<FieldDef>, vs: seq<Value>, k: nat): Bytes
    requires k <= |fs| == |vs|
  {
    if k == 0 then [] else EncodePrefix(fs, vs, k - 1) + Encode(fs[k - 1].1, vs[k - 1])
  }

  ghost predicate Typed(fs: seq<FieldDef>, vs: seq<Value>) {
    |fs| == |vs| && forall i :: 0 <= i < |fs| ==> HasType(fs[i].1, vs[i])
  }

  lemma {:induction false} RecordTyped(fs: seq<FieldDef>, vs: seq<Value>)
    requires Typed(fs, vs)
    ensures FieldsHaveType(MakeFields(fs), MakeVals(vs))
    decreases |fs|
  {
    hide HasType;
    if fs != [] {
      assert HasType(fs[0].1, vs[0]);
      RecordTyped(fs[1..], vs[1..]);
    }
  }

  lemma {:induction false} FieldFound(fs: seq<FieldDef>, vs: seq<Value>, i: nat)
    requires i < |fs| == |vs|
    requires forall j :: 0 <= j < i ==> fs[j].0 != fs[i].0
    ensures FieldNamed(MakeFields(fs), MakeVals(vs), fs[i].0) == Some(vs[i])
    decreases i
  {
    if i > 0 {
      assert fs[0].0 != fs[i].0;
      forall j | 0 <= j < i - 1 ensures fs[1..][j].0 != fs[1..][i - 1].0 {
        assert fs[j + 1].0 != fs[i].0;
      }
      FieldFound(fs[1..], vs[1..], i - 1);
    }
  }

  /** Appending the encoding of the next field extends the prefix by one. */
  lemma {:induction false} Appended(start: Bytes, data: Bytes, piece: Bytes, fs: seq<FieldDef>, vs: seq<Value>, k: nat)
    requires k < |fs| == |vs|
    requires data == start + EncodePrefix(fs, vs, k) && piece == Encode(fs[k].1, vs[k])
    ensures data + piece == start + EncodePrefix(fs, vs, k + 1)
  {
    hide Encode;
  }

  lemma {:induction false} PrefixStep(fs: seq<FieldDef>, vs: seq<Value>, k: nat)
    requires k < |fs| == |vs|
    ensures EncodePrefix(fs, vs, k + 1) == Encode(fs[0].1, vs[0]) + EncodePrefix(fs[1..], vs[1..], k)
    decreases k
  {
    hide Encode;
    if k > 0 {
      PrefixStep(fs, vs, k - 1);
      assert fs[k] == fs[1..][k - 1] && vs[k] == vs[1..][k - 1];
    } else {
      assert EncodePrefix(fs, vs, 0) == [];
      assert EncodePrefix(fs[1..], vs[1..], 0) == [];
    }
  }

  lemma {:induction false} RecordEncoding(fs: seq<FieldDef>, vs: seq<Value>)
    requires |fs| == |vs|
    ensures EncodeFields(MakeFields(fs), MakeVals(vs)) == EncodePrefix(fs, vs, |fs|)
    decreases |fs|
  {
    hide Encode;
    if fs != [] {
      RecordEncoding(fs[1..], vs[1..]);
      PrefixStep(fs, vs, |fs| - 1);
    }
  }

  // ---- arrays --------------------------------------------------------------------

  lemma {:induction false} ItemsSnoc(e: Schema, vs: seq<Value>, v: Value)
    ensures EncodeItems(e, MakeVals(vs + [v])) == EncodeItems(e, MakeVals(vs)) + Encode(e, v)
    decreases |vs|
  {
    hide Encode;
    if vs == [] {
      assert [] + [v] == [v] && [v][1..] == [];
      assert EncodeItems(e, VCons(v, VNil)) == Encode(e, v) + EncodeItems(e, VNil);
    } else {
      assert (vs + [v])[1..] == vs[1..] + [v];
      ItemsSnoc(e, vs[1..], v);
    }
  }

  lemma {:induction false} ItemsTyped(e: Schema, vs: seq<Value>)
    requires forall i :: 0 <= i < |vs| ==> HasType(e, vs[i])
    ensures ItemsHaveType(e, MakeVals(vs))
    decreases |vs|
  {
    hide HasType;
    if vs != [] {
      ItemsTyped(e, vs[1..]);
    }
  }
}
