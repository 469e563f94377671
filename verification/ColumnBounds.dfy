/** Column bounds of a data file: statistics of the row groups reduced to one lower and one
    upper bound, byte strings cut to sixteen bytes. Bounds are raw bytes; base64 is left to
    the manifest. */
module ColumnBounds {
  import opened Wrappers
  import opened AvroBinary

  datatype Type = Boolean | Int32 | Int64 | Int96 | Float | Double | ByteArray | FixedBytes {
    predicate IsBytes() {
      ByteArray? || FixedBytes?
    }

    /** The byte length of a value, where the comparison insists on one. */
    function Width(): nat {
      match this
      case Int32 => 4
      case Float => 4
      case Int64 => 8
      case Double => 8
      case _ => 0
    }
  }

  datatype Ordering = Less | Equal | Greater

  const TRUNCATE_LEN := 16

  // ---- comparing statistics ------------------------------------------------------

  function Cmp(x: int, y: int): Ordering {
    if x < y then Less else if x == y then Equal else Greater
  }

  function LittleEndian(b: Bytes): nat {
    if b == [] then 0 else b[0] + 256 * LittleEndian(b[1..])
  }

  /** Two's complement on `|b|` bytes of four or eight. */
  function Signed(b: Bytes): int {
    var half := if |b| == 4 then 0x8000_0000 else 0x8000_0000_0000_0000;
    var n := LittleEndian(b);
    if n < half then n else n - 2 * half
  }

  /** The integer whose order is the IEEE total order of the float with these bits: the bits
      as a signed integer, with the magnitude flipped below zero. */
  function TotalOrderKey(b: Bytes): int {
    var half := if |b| == 4 then 0x8000_0000 else 0x8000_0000_0000_0000;
    var n := Signed(b);
    if n >= 0 then n else -1 - (n + half)
  }

  function First(b: Bytes): int {
    if b == [] then -1 else b[0]
  }

  /** Lexicographic order of byte strings. */
  predicate Lex(a: Bytes, b: Bytes) {
    a == [] || (b != [] && (a[0] < b[0] || (a[0] == b[0] && Lex(a[1..], b[1..]))))
  }

  function CmpBytes(a: Bytes, b: Bytes): Ordering {
    if a == b then Equal else if Lex(a, b) then Less else Greater
  }

  /** Bytes of the wrong length compare equal to everything. */
  function CmpStat(ty: Type, a: Bytes, b: Bytes): Ordering {
    match ty
    case Boolean => Cmp(First(a), First(b))
    case Int96 => Equal
    case ByteArray => CmpBytes(a, b)
    case FixedBytes => CmpBytes(a, b)
    case _ =>
      if |a| != ty.Width() || |b| != ty.Width() then Equal
      else if ty.Int32? || ty.Int64? then Cmp(Signed(a), Signed(b))
      else Cmp(TotalOrderKey(a), TotalOrderKey(b))
  }

  predicate WellFormed(ty: Type, b: Bytes) {
    ty.Width() > 0 ==> |b| == ty.Width()
  }

  /** The order of values of a column: numeric for integers, the total order for floats,
      lexicographic for byte strings. */
  predicate Leq(ty: Type, a: Bytes, b: Bytes) {
    CmpStat(ty, a, b) != Greater
  }

  lemma {:induction false} LexTotal(a: Bytes, b: Bytes)
    ensures Lex(a, b) || Lex(b, a)
    ensures Lex(a, b) && Lex(b, a) ==> a == b
  {
    if a != [] && b != [] {
      LexTotal(a[1..], b[1..]);
      assert a == [a[0]] + a[1..] && b == [b[0]] + b[1..];
    }
  }

  lemma {:induction false} LexTransitive(a: Bytes, b: Bytes, c: Bytes)
    requires Lex(a, b) && Lex(b, c)
    ensures Lex(a, c)
  {
    if a != [] && a[0] == b[0] == c[0] {
      LexTransitive(a[1..], b[1..], c[1..]);
    }
  }

  lemma {:induction false} LexSelf(a: Bytes)
    ensures Lex(a, a)
  {
    LexTotal(a, a);
  }

  lemma {:induction false} LeqTotal(ty: Type, a: Bytes, b: Bytes)
    ensures Leq(ty, a, b) || Leq(ty, b, a)
    ensures CmpStat(ty, a, b) != Less ==> Leq(ty, b, a)
    ensures ty.IsBytes() ==> (Leq(ty, a, b) <==> Lex(a, b))
  {
    hide Lex, Signed, TotalOrderKey;
    if ty.IsBytes() {
      LexTotal(a, b);
      LexSelf(a);
    }
  }

  lemma {:induction false} LeqTransitive(ty: Type, a: Bytes, b: Bytes, c: Bytes)
    requires WellFormed(ty, b) && Leq(ty, a, b) && Leq(ty, b, c)
    ensures Leq(ty, a, c)
  {
    hide Lex, Signed, TotalOrderKey;
    if ty.IsBytes() {
      LeqTotal(ty, a, b);
      LeqTotal(ty, b, c);
      LeqTotal(ty, a, c);
      LexTransitive(a, b, c);
    }
  }

  /** For integers of the right length the order is the numeric one. */
  lemma {:induction false} IntegersCompareNumerically(ty: Type, a: Bytes, b: Bytes)
    requires (ty.Int32? || ty.Int64?) && WellFormed(ty, a) && WellFormed(ty, b)
    ensures Leq(ty, a, b) <==> Signed(a) <= Signed(b)
  {
    hide Signed;
  }

  // ---- truncation ----------------------------------------------------------------

  /** The least string of at most `|p|` bytes above every extension of `p`. */
  function Bump(p: Bytes): Option<Bytes> {
    if p == [] then None
    else
      var t := Bump(p[1..]);
      if t.Some? then Some([p[0]] + t.value)
      else if p[0] < 0xFF then Some([p[0] + 1])
      else None
  }

  lemma {:induction false} BumpLast(q: Bytes, x: Byte)
    ensures Bump(q + [x]) == if x < 0xFF then Some(q + [x + 1]) else Bump(q)
  {
    var p := q + [x];
    if q == [] {
      assert p == [x] && p[1..] == [];
      assert x < 0xFF ==> q + [x + 1] == [x + 1];
    } else {
      assert p[1..] == q[1..] + [x];
      BumpLast(q[1..], x);
      assert x < 0xFF ==> [q[0]] + (q[1..] + [x + 1]) == q + [x + 1];
    }
  }

  lemma {:induction false} BumpAbove(p: Bytes, tail: Bytes)
    requires Bump(p).Some?
    ensures Lex(p + tail, Bump(p).value)
  {
    assert (p + tail)[1..] == p[1..] + tail;
    var r := Bump(p).value;
    if Bump(p[1..]).Some? {
      BumpAbove(p[1..], tail);
      assert r[1..] == Bump(p[1..]).value;
    }
  }

  lemma {:induction false} BumpLeast(p: Bytes, tail: Bytes, s: Bytes)
    requires tail != [] && |s| <= |p| && Lex(p + tail, s)
    ensures Bump(p).Some? && Lex(Bump(p).value, s)
  {
    if p != [] {
      assert (p + tail)[1..] == p[1..] + tail;
      if s[0] == p[0] {
        BumpLeast(p[1..], tail, s[1..]);
      }
      var r := Bump(p);
      if r.Some? && Bump(p[1..]).Some? {
        assert r.value[1..] == Bump(p[1..]).value;
      }
    }
  }

  lemma {:induction false} BumpNone(p: Bytes)
    ensures Bump(p).None? <==> forall i :: 0 <= i < |p| ==> p[i] == 0xFF
  {
    if p != [] {
      BumpNone(p[1..]);
      assert p == [p[0]] + p[1..];
    }
  }

  function TruncateLower(b: Bytes): Bytes {
    if |b| <= TRUNCATE_LEN then b else b[..TRUNCATE_LEN]
  }

  function CutUpper(b: Bytes): Option<Bytes> {
    if |b| <= TRUNCATE_LEN then Some(b) else Bump(b[..TRUNCATE_LEN])
  }

  /** Cuts to sixteen bytes, then drops trailing 0xFF bytes and increments the last other
      byte. */
  method TruncateUpper(b: Bytes) returns (r: Option<Bytes>)
    ensures r == CutUpper(b)
  {
    if |b| <= TRUNCATE_LEN {
      return Some(b);
    }
    var truncated := b[..TRUNCATE_LEN];
    while truncated != []
      invariant Bump(truncated) == CutUpper(b)
      decreases |truncated|
    {
      var n := |truncated| - 1;
      var last := truncated[n];
      assert truncated == truncated[..n] + [last];
      BumpLast(truncated[..n], last);
      if last < 0xFF {
        ghost var front := truncated[..n];
        truncated := truncated[n := last + 1];
        assert truncated == front + [last + 1];
        return Some(truncated);
      }
      truncated := truncated[..n];
    }
    r := None;
  }

  lemma {:induction false} PrefixBelow(p: Bytes, rest: Bytes)
    ensures Lex(p, p + rest)
  {
    if p != [] {
      assert (p + rest)[1..] == p[1..] + rest;
      PrefixBelow(p[1..], rest);
    }
  }

  /** The cut lower bound is at most the bound, so it stays below every value. */
  lemma {:induction false} LowerStaysBelow(b: Bytes, v: Bytes)
    requires Lex(b, v)
    ensures Lex(TruncateLower(b), v) && |TruncateLower(b)| <= TRUNCATE_LEN
  {
    if |b| > TRUNCATE_LEN {
      assert b == b[..TRUNCATE_LEN] + b[TRUNCATE_LEN..];
      PrefixBelow(b[..TRUNCATE_LEN], b[TRUNCATE_LEN..]);
      LexTransitive(TruncateLower(b), b, v);
    }
  }

  lemma {:induction false} BumpLength(p: Bytes)
    ensures Bump(p).Some? ==> |Bump(p).value| <= |p|
  {
    if p != [] {
      BumpLength(p[1..]);
    }
  }

  /** The cut upper bound stays above every value the bound covered. */
  lemma {:induction false} UpperStaysAbove(b: Bytes, v: Bytes)
    requires Lex(v, b) && CutUpper(b).Some?
    ensures Lex(v, CutUpper(b).value) && |CutUpper(b).value| <= TRUNCATE_LEN
  {
    if |b| > TRUNCATE_LEN {
      var p, rest := b[..TRUNCATE_LEN], b[TRUNCATE_LEN..];
      assert b == p + rest;
      BumpAbove(p, rest);
      BumpLength(p);
      LexTransitive(v, b, CutUpper(b).value);
    }
  }

  /** It is the tightest: any string of at most sixteen bytes above the bound is above the cut,
      and the cut is omitted exactly when the first sixteen bytes are all 0xFF, in which case
      no such string exists. */
  lemma {:induction false} UpperIsTightest(b: Bytes, s: Bytes)
    ensures CutUpper(b).None? <==>
      |b| > TRUNCATE_LEN && forall i :: 0 <= i < TRUNCATE_LEN ==> b[i] == 0xFF
    ensures |s| <= TRUNCATE_LEN && Lex(b, s) ==> CutUpper(b).Some? && Lex(CutUpper(b).value, s)
  {
    if |b| > TRUNCATE_LEN {
      var p, rest := b[..TRUNCATE_LEN], b[TRUNCATE_LEN..];
      assert b == p + rest;
      BumpNone(p);
      if |s| <= TRUNCATE_LEN && Lex(b, s) {
        BumpLeast(p, rest, s);
      }
    }
  }

  // ---- reduction over row groups -------------------------------------------------

  datatype Statistics = Statistics(deprecated: bool, min: Option<Bytes>, max: Option<Bytes>, nullCount: Option<nat>)

  /** One row group's part of a column: what its metadata says, and the non-null values it
      holds. */
  datatype Chunk = Chunk(numValues: int, compressedSize: int, stats: Option<Statistics>, values: seq<Bytes>) {
    /** The statistics enter the reduction. */
    predicate Contributes() {
      stats.Some? && stats.value.min.Some? && stats.value.max.Some? && !stats.value.deprecated
    }

    function Min(): Bytes
      requires Contributes()
    {
      stats.value.min.value
    }

    function Max(): Bytes
      requires Contributes()
    {
      stats.value.max.value
    }
  }

  /** The current lower bound is replaced only by one that compares strictly smaller. */
  function LowerOf(ty: Type, chunks: seq<Chunk>): Option<Bytes> {
    if chunks == [] then None
    else
      var cur, last := LowerOf(ty, chunks[..|chunks| - 1]), chunks[|chunks| - 1];
      if !last.Contributes() || (cur.Some? && CmpStat(ty, cur.value, last.Min()) != Greater) then cur
      else Some(last.Min())
  }

  function UpperOf(ty: Type, chunks: seq<Chunk>): Option<Bytes> {
    if chunks == [] then None
    else
      var cur, last := UpperOf(ty, chunks[..|chunks| - 1]), chunks[|chunks| - 1];
      if !last.Contributes() || (cur.Some? && CmpStat(ty, cur.value, last.Max()) != Less) then cur
      else Some(last.Max())
  }

  function EmitLower(ty: Type, lower: Option<Bytes>): Option<Bytes> {
    if lower.Some? && ty.IsBytes() then Some(TruncateLower(lower.value)) else lower
  }

  function EmitUpper(ty: Type, upper: Option<Bytes>): Option<Bytes> {
    if upper.Some? && ty.IsBytes() then CutUpper(upper.value) else upper
  }

  datatype FieldStats = FieldStats(valueCount: int, nullCount: int, columnSize: int, lower: Option<Bytes>, upper: Option<Bytes>)

  function ValueCount(chunks: seq<Chunk>): int {
    if chunks == [] then 0 else ValueCount(chunks[..|chunks| - 1]) + chunks[|chunks| - 1].numValues
  }

  function ColumnSize(chunks: seq<Chunk>): int {
    if chunks == [] then 0 else ColumnSize(chunks[..|chunks| - 1]) + chunks[|chunks| - 1].compressedSize
  }

  function NullCount(chunks: seq<Chunk>): int {
    if chunks == [] then 0
    else
      var stats := chunks[|chunks| - 1].stats;
      NullCount(chunks[..|chunks| - 1])
      + (if stats.Some? && stats.value.nullCount.Some? then stats.value.nullCount.value else 0)
  }

  class Accum {
    var valueCount: int
    var nullCount: int
    var columnSize: int
    var physicalType: Option<Type>
    var lower: Option<Bytes>
    var upper: Option<Bytes>

    constructor ()
      ensures valueCount == 0 && nullCount == 0 && columnSize == 0
      ensures physicalType == None && lower == None && upper == None
    {
      valueCount, nullCount, columnSize := 0, 0, 0;
      physicalType, lower, upper := None, None, None;
    }

    method MergeBounds(ty: Type, deprecated: bool, min: Bytes, max: Bytes)
      modifies this`physicalType, this`lower, this`upper
      ensures deprecated ==> physicalType == old(physicalType) && lower == old(lower) && upper == old(upper)
      ensures !deprecated ==> physicalType == Some(ty)
      ensures !deprecated ==>
        lower == if old(lower).Some? && CmpStat(ty, old(lower).value, min) != Greater then old(lower) else Some(min)
      ensures !deprecated ==>
        upper == if old(upper).Some? && CmpStat(ty, old(upper).value, max) != Less then old(upper) else Some(max)
    {
      if deprecated {
        return;
      }
      physicalType := Some(ty);
      if !(lower.Some? && CmpStat(ty, lower.value, min) != Greater) {
        lower := Some(min);
      }
      if !(upper.Some? && CmpStat(ty, upper.value, max) != Less) {
        upper := Some(max);
      }
    }

    /** Cuts byte-string bounds; an upper bound that cannot be cut is left out. */
    method Finish() returns (r: FieldStats)
      requires lower.Some? || upper.Some? ==> physicalType.Some?
      ensures r.valueCount == valueCount && r.nullCount == nullCount && r.columnSize == columnSize
      ensures physicalType.Some? ==>
        r.lower == EmitLower(physicalType.value, lower) && r.upper == EmitUpper(physicalType.value, upper)
      ensures physicalType.None? ==> r.lower == None && r.upper == None
    {
      var isBytes := physicalType.Some? && physicalType.value.IsBytes();
      var lo, hi := lower, upper;
      if isBytes && lower.Some? {
        lo := Some(TruncateLower(lower.value));
      }
      if isBytes && upper.Some? {
        hi := TruncateUpper(upper.value);
      }
      r := FieldStats(valueCount, nullCount, columnSize, lo, hi);
    }
  }

  /** One column over all row groups. */
  method ExtractColumn(ty: Type, chunks: seq<Chunk>) returns (r: FieldStats)
    ensures r.valueCount == ValueCount(chunks) && r.columnSize == ColumnSize(chunks) && r.nullCount == NullCount(chunks)
    ensures r.lower == EmitLower(ty, LowerOf(ty, chunks)) && r.upper == EmitUpper(ty, UpperOf(ty, chunks))
  {
    hide CmpStat, EmitLower, EmitUpper, ValueCount, ColumnSize, NullCount, LowerOf, UpperOf;
    var acc := new Accum();
    NoChunks(ty, chunks[..0]);
    for i := 0 to |chunks|
      invariant acc.valueCount == ValueCount(chunks[..i]) && acc.columnSize == ColumnSize(chunks[..i])
      invariant acc.nullCount == NullCount(chunks[..i])
      invariant acc.lower == LowerOf(ty, chunks[..i]) && acc.upper == UpperOf(ty, chunks[..i])
      invariant acc.physicalType == if acc.lower.Some? then Some(ty) else None
      invariant acc.lower.Some? <==> acc.upper.Some?
    {
      var c := chunks[i];
      NextChunk(ty, chunks, i);
      acc.valueCount := acc.valueCount + c.numValues;
      acc.columnSize := acc.columnSize + c.compressedSize;
      if c.stats.Some? {
        var stats := c.stats.value;
        acc.nullCount := acc.nullCount + (if stats.nullCount.Some? then stats.nullCount.value else 0);
        if stats.min.Some? && stats.max.Some? {
          acc.MergeBounds(ty, stats.deprecated, stats.min.value, stats.max.value);
        }
      }
    }
    assert chunks[..|chunks|] == chunks;
    r := acc.Finish();
    NoBounds(ty);
  }

  lemma {:induction false} NoChunks(ty: Type, chunks: seq<Chunk>)
    requires chunks == []
    ensures ValueCount(chunks) == 0 && ColumnSize(chunks) == 0 && NullCount(chunks) == 0
    ensures LowerOf(ty, chunks) == None && UpperOf(ty, chunks) == None
  {
  }

  /** What one more row group does to the counts and bounds. */
  lemma {:induction false} NextChunk(ty: Type, chunks: seq<Chunk>, i: nat)
    requires i < |chunks|
    ensures var c, before, after := chunks[i], chunks[..i], chunks[..i + 1];
      && ValueCount(after) == ValueCount(before) + c.numValues && ColumnSize(after) == ColumnSize(before) + c.compressedSize
      && NullCount(after) == NullCount(before)
           + (if c.stats.Some? && c.stats.value.nullCount.Some? then c.stats.value.nullCount.value else 0)
      && (!c.Contributes() ==> LowerOf(ty, after) == LowerOf(ty, before) && UpperOf(ty, after) == UpperOf(ty, before))
      && (c.Contributes() ==>
            var lo, hi := LowerOf(ty, before), UpperOf(ty, before);
            && LowerOf(ty, after) == (if lo.Some? && CmpStat(ty, lo.value, c.Min()) != Greater then lo else Some(c.Min()))
            && UpperOf(ty, after) == (if hi.Some? && CmpStat(ty, hi.value, c.Max()) != Less then hi else Some(c.Max())))
  {
    hide CmpStat;
    assert chunks[..i + 1][..i] == chunks[..i];
  }

  lemma {:induction false} NoBounds(ty: Type)
    ensures EmitLower(ty, None) == None && EmitUpper(ty, None) == None
  {
  }

  // ---- bounds bracket values -----------------------------------------------------

  /** The first chunk that contributes. */
  function FirstContributing(chunks: seq<Chunk>): (r: Option<Chunk>)
    ensures r.Some? ==> r.value.Contributes()
  {
    if chunks == [] then None
    else
      var front := FirstContributing(chunks[..|chunks| - 1]);
      if front.Some? then front
      else if chunks[|chunks| - 1].Contributes() then Some(chunks[|chunks| - 1])
      else None
  }

  predicate FirstMinFits(ty: Type, chunks: seq<Chunk>) {
    FirstContributing(chunks).Some? ==> WellFormed(ty, FirstContributing(chunks).value.Min())
  }

  predicate FirstMaxFits(ty: Type, chunks: seq<Chunk>) {
    FirstContributing(chunks).Some? ==> WellFormed(ty, FirstContributing(chunks).value.Max())
  }

  lemma {:induction false} FirstContributes(chunks: seq<Chunk>)
    ensures forall i :: 0 <= i < |chunks| && chunks[i].Contributes() ==> FirstContributing(chunks).Some?
  {
    if chunks != [] {
      var n := |chunks| - 1;
      FirstContributes(chunks[..n]);
      forall i | 0 <= i < |chunks| && chunks[i].Contributes() ensures FirstContributing(chunks).Some? {
        if i < n {
          assert chunks[..n][i].Contributes();
        }
      }
    }
  }

  lemma {:induction false} GreaterIsWellFormed(ty: Type, a: Bytes, b: Bytes)
    requires ty.Width() > 0 && CmpStat(ty, a, b) != Equal
    ensures WellFormed(ty, a) && WellFormed(ty, b)
  {
  }

  /** Whether the reduced bounds have the right length is decided by the first contributing
      row group alone; from then on malformed statistics change nothing, and if the first is
      malformed nothing else ever gets in. */
  lemma {:induction false} FirstGroupDecides(ty: Type, chunks: seq<Chunk>)
    ensures var f := FirstContributing(chunks);
      && (LowerOf(ty, chunks).Some? <==> f.Some?) && (UpperOf(ty, chunks).Some? <==> f.Some?)
      && (f.Some? ==> (WellFormed(ty, LowerOf(ty, chunks).value) <==> WellFormed(ty, f.value.Min())))
      && (f.Some? ==> (WellFormed(ty, UpperOf(ty, chunks).value) <==> WellFormed(ty, f.value.Max())))
  {
    hide CmpStat;
    if chunks != [] {
      var n := |chunks| - 1;
      var last := chunks[n];
      FirstGroupDecides(ty, chunks[..n]);
      if last.Contributes() && FirstContributing(chunks[..n]).Some? && ty.Width() > 0 {
        var lo, hi := LowerOf(ty, chunks[..n]).value, UpperOf(ty, chunks[..n]).value;
        if CmpStat(ty, lo, last.Min()) == Greater {
          GreaterIsWellFormed(ty, lo, last.Min());
        }
        if CmpStat(ty, hi, last.Max()) == Less {
          GreaterIsWellFormed(ty, hi, last.Max());
        }
      }
    }
  }

  lemma {:induction false} LowerBelowAll(ty: Type, chunks: seq<Chunk>, i: nat)
    requires i < |chunks| && chunks[i].Contributes()
    requires FirstMinFits(ty, chunks)
    ensures LowerOf(ty, chunks).Some? && Leq(ty, LowerOf(ty, chunks).value, chunks[i].Min())
    decreases |chunks|
  {
    hide CmpStat;
    var n := |chunks| - 1;
    var last := chunks[n];
    FirstContributes(chunks[..n]);
    FirstGroupDecides(ty, chunks[..n]);
    LeqTotalBoth(ty, chunks[i].Min(), chunks[i].Min());
    if i < n {
      LowerBelowAll(ty, chunks[..n], i);
      var cur := LowerOf(ty, chunks[..n]).value;
      if last.Contributes() && CmpStat(ty, cur, last.Min()) == Greater {
        LeqTotalBoth(ty, cur, last.Min());
        LeqTransitive(ty, last.Min(), cur, chunks[i].Min());
      }
    }
  }

  lemma {:induction false} UpperAboveAll(ty: Type, chunks: seq<Chunk>, i: nat)
    requires i < |chunks| && chunks[i].Contributes()
    requires FirstMaxFits(ty, chunks)
    ensures UpperOf(ty, chunks).Some? && Leq(ty, chunks[i].Max(), UpperOf(ty, chunks).value)
    decreases |chunks|
  {
    hide CmpStat;
    var n := |chunks| - 1;
    var last := chunks[n];
    FirstContributes(chunks[..n]);
    FirstGroupDecides(ty, chunks[..n]);
    LeqTotalBoth(ty, chunks[i].Max(), chunks[i].Max());
    var before := UpperOf(ty, chunks[..n]);
    if last.Contributes() && before.Some? {
      LeqTotalBoth(ty, before.value, last.Max());
    }
    if i < n {
      UpperAboveAll(ty, chunks[..n], i);
      var cur := before.value;
      if last.Contributes() && CmpStat(ty, cur, last.Max()) == Less {
        LeqTransitive(ty, chunks[i].Max(), cur, last.Max());
      }
    }
  }

  lemma {:induction false} LeqTotalBoth(ty: Type, a: Bytes, b: Bytes)
    ensures CmpStat(ty, a, b) == Greater ==> Leq(ty, b, a)
    ensures CmpStat(ty, a, b) != Less ==> Leq(ty, b, a)
    ensures CmpStat(ty, a, b) == Less ==> Leq(ty, a, b)
    ensures a == b ==> Leq(ty, a, b)
  {
    hide CmpStat;
    LeqTotal(ty, a, b);
    LeqTotal(ty, b, a);
  }

  /** The statistics of the chunk are complete and cover its values. */
  ghost predicate Honest(ty: Type, c: Chunk) {
    && c.Contributes() && WellFormed(ty, c.Min()) && WellFormed(ty, c.Max())
    && forall j :: 0 <= j < |c.values| ==>
         WellFormed(ty, c.values[j]) && Leq(ty, c.Min(), c.values[j]) && Leq(ty, c.values[j], c.Max())
  }

  /** Every row group that holds a non-null value has honest statistics, and so has the first
      one that contributes any. */
  ghost predicate Trustworthy(ty: Type, chunks: seq<Chunk>) {
    && (forall i :: 0 <= i < |chunks| && chunks[i].values != [] ==> Honest(ty, chunks[i]))
    && FirstMinFits(ty, chunks) && FirstMaxFits(ty, chunks)
  }

  /** The emitted bounds bracket every value of the file: numerically for integers, in
      lexicographic order for byte strings even after truncation. The lower bound is always
      there. */
  lemma {:induction false} BoundsBracket(ty: Type, chunks: seq<Chunk>, i: nat, j: nat)
    requires !ty.Int96? && Trustworthy(ty, chunks) && i < |chunks| && j < |chunks[i].values|
    ensures var v, lo, hi := chunks[i].values[j], EmitLower(ty, LowerOf(ty, chunks)), EmitUpper(ty, UpperOf(ty, chunks));
      && lo.Some? && WellFormed(ty, lo.value) && Leq(ty, lo.value, v)
      && (hi.Some? ==> WellFormed(ty, hi.value) && Leq(ty, v, hi.value))
      && (ty.Int32? || ty.Int64? ==> hi.Some? && Signed(lo.value) <= Signed(v) <= Signed(hi.value))
      && (ty.IsBytes() ==> Lex(lo.value, v) && (hi.Some? ==> Lex(v, hi.value)))
  {
    hide CmpStat, Lex, CutUpper, TruncateLower, Leq, Signed;
    var v := chunks[i].values[j];
    assert Honest(ty, chunks[i]);
    LowerBelowAll(ty, chunks, i);
    UpperAboveAll(ty, chunks, i);
    FirstGroupDecides(ty, chunks);
    var lo, hi := LowerOf(ty, chunks).value, UpperOf(ty, chunks).value;
    LeqTransitive(ty, lo, chunks[i].Min(), v);
    LeqTransitive(ty, v, chunks[i].Max(), hi);
    if ty.Int32? || ty.Int64? {
      IntegersCompareNumerically(ty, lo, v);
      IntegersCompareNumerically(ty, v, hi);
    }
    if ty.IsBytes() {
      LeqTotal(ty, lo, v);
      LowerStaysBelow(lo, v);
      LeqTotal(ty, TruncateLower(lo), v);
      if CutUpper(hi).Some? {
        LeqTotal(ty, v, hi);
        UpperStaysAbove(hi, v);
        LeqTotal(ty, v, CutUpper(hi).value);
      }
    }
  }

  /** The upper bound is left out only when the maximum starts with sixteen 0xFF bytes. */
  lemma {:induction false} UpperOmitted(ty: Type, chunks: seq<Chunk>)
    requires UpperOf(ty, chunks).Some?
    ensures EmitUpper(ty, UpperOf(ty, chunks)).None? <==>
      ty.IsBytes() && |UpperOf(ty, chunks).value| > TRUNCATE_LEN
      && forall i :: 0 <= i < TRUNCATE_LEN ==> UpperOf(ty, chunks).value[i] == 0xFF
  {
    hide CutUpper, UpperOf;
    UpperIsTightest(UpperOf(ty, chunks).value, []);
  }

  /** Malformed statistics after the first contributing group are ignored altogether, so the
      bounds are not widened to cover that group's values either. */
  lemma {:induction false} MalformedLaterIgnored(ty: Type, chunks: seq<Chunk>, bad: Chunk)
    requires ty.Width() > 0 && FirstContributing(chunks).Some?
    requires bad.Contributes() && !WellFormed(ty, bad.Min()) && !WellFormed(ty, bad.Max())
    ensures LowerOf(ty, chunks + [bad]) == LowerOf(ty, chunks) && UpperOf(ty, chunks + [bad]) == UpperOf(ty, chunks)
  {
    hide CmpStat;
    FirstGroupDecides(ty, chunks);
    assert (chunks + [bad])[..|chunks|] == chunks;
    var lo, hi := LowerOf(ty, chunks).value, UpperOf(ty, chunks).value;
    assert CmpStat(ty, lo, bad.Min()) == Equal by { MalformedEqual(ty, lo, bad.Min()); }
    assert CmpStat(ty, hi, bad.Max()) == Equal by { MalformedEqual(ty, hi, bad.Max()); }
  }

  lemma {:induction false} MalformedEqual(ty: Type, a: Bytes, b: Bytes)
    requires ty.Width() > 0 && !WellFormed(ty, b)
    ensures CmpStat(ty, a, b) == Equal
  {
  }

  /** Statistics with bounds of the wrong length. */
  predicate Malformed(ty: Type, c: Chunk) {
    c.Contributes() && !WellFormed(ty, c.Min()) && !WellFormed(ty, c.Max())
  }

  /** The row groups without the malformed ones after the first that contributes. */
  function DropMalformed(ty: Type, chunks: seq<Chunk>): seq<Chunk> {
    if chunks == [] then []
    else
      var front, last := chunks[..|chunks| - 1], chunks[|chunks| - 1];
      DropMalformed(ty, front) + (if FirstContributing(front).Some? && Malformed(ty, last) then [] else [last])
  }

  /** Wherever they stand, malformed groups after the first contributing one have no part in
      the bounds. */
  lemma {:induction false} MalformedHaveNoPart(ty: Type, chunks: seq<Chunk>)
    requires ty.Width() > 0
    ensures LowerOf(ty, DropMalformed(ty, chunks)) == LowerOf(ty, chunks)
    ensures UpperOf(ty, DropMalformed(ty, chunks)) == UpperOf(ty, chunks)
  {
    hide LowerOf, UpperOf, FirstContributing, Malformed;
    if chunks != [] {
      var front, last := chunks[..|chunks| - 1], chunks[|chunks| - 1];
      MalformedHaveNoPart(ty, front);
      assert front + [last] == chunks;
      if FirstContributing(front).Some? && Malformed(ty, last) {
        MalformedLast(ty, front, last);
        assert DropMalformed(ty, chunks) == DropMalformed(ty, front) + [] == DropMalformed(ty, front);
      } else {
        SameAfter(ty, DropMalformed(ty, front), front, last);
      }
    }
  }

  lemma {:induction false} MalformedLast(ty: Type, chunks: seq<Chunk>, bad: Chunk)
    requires ty.Width() > 0 && FirstContributing(chunks).Some? && Malformed(ty, bad)
    ensures LowerOf(ty, chunks + [bad]) == LowerOf(ty, chunks) && UpperOf(ty, chunks + [bad]) == UpperOf(ty, chunks)
  {
    hide LowerOf, UpperOf, FirstContributing;
    MalformedLaterIgnored(ty, chunks, bad);
  }

  /** The bounds after one more group depend on the groups before only through their bounds. */
  lemma {:induction false} SameAfter(ty: Type, a: seq<Chunk>, b: seq<Chunk>, c: Chunk)
    requires LowerOf(ty, a) == LowerOf(ty, b) && UpperOf(ty, a) == UpperOf(ty, b)
    ensures LowerOf(ty, a + [c]) == LowerOf(ty, b + [c]) && UpperOf(ty, a + [c]) == UpperOf(ty, b + [c])
  {
    hide LowerOf, UpperOf, CmpStat;
    assert (a + [c])[..|a|] == a && (a + [c])[..|a| + 1] == a + [c];
    assert (b + [c])[..|b|] == b && (b + [c])[..|b| + 1] == b + [c];
    NextChunk(ty, a + [c], |a|);
    NextChunk(ty, b + [c], |b|);
  }

  const ZERO: Bytes := [0, 0, 0, 0]
  const FIVE: Bytes := [5, 0, 0, 0]

  /** So a value of such a group can lie outside the bounds: a group holding 0, then one that
      holds 5 and has one-byte statistics. */
  lemma {:induction false} MalformedNotCovered()
    ensures var good := Chunk(1, 1, Some(Statistics(false, Some(ZERO), Some(ZERO), None)), [ZERO]);
      var bad := Chunk(1, 1, Some(Statistics(false, Some([5]), Some([5]), None)), [FIVE]);
      var hi := EmitUpper(Int32, UpperOf(Int32, [good, bad]));
      hi == Some(ZERO) && Signed(FIVE) == 5 && Signed(ZERO) == 0
  {
    var good := Chunk(1, 1, Some(Statistics(false, Some(ZERO), Some(ZERO), None)), [ZERO]);
    var bad := Chunk(1, 1, Some(Statistics(false, Some([5]), Some([5]), None)), [FIVE]);
    assert [good, bad][..1] == [good] && [good][..0] == [];
    assert UpperOf(Int32, [good]) == Some(ZERO);
    SmallSigned(0);
    SmallSigned(5);
  }

  lemma {:induction false} SmallSigned(n: Byte)
    ensures Signed([n, 0, 0, 0]) == n
  {
    assert [n, 0, 0, 0][1..] == [0, 0, 0] && [0, 0, 0][1..] == [0, 0] && [0, 0][1..] == [0] && [0][1..] == [];
    assert LittleEndian([0]) == 0 && LittleEndian([0, 0]) == 0 && LittleEndian([0, 0, 0]) == 0;
    assert LittleEndian([n, 0, 0, 0]) == n;
  }

  /** A corrupt row group does not only loosen the bound: as the first contributing one it
      leaves a malformed bound behind, whatever honest groups follow. */
  lemma {:induction false} CorruptFirstGroupWitness(honest: Chunk)
    requires Honest(Int32, honest)
    ensures var corrupt := Chunk(1, 1, Some(Statistics(false, Some([7]), Some([7]), None)), []);
      LowerOf(Int32, [corrupt, honest]) == Some([7]) && !WellFormed(Int32, [7])
  {
    var corrupt := Chunk(1, 1, Some(Statistics(false, Some([7]), Some([7]), None)), []);
    var chunks := [corrupt, honest];
    assert chunks[..1] == [corrupt] && [corrupt][..0] == [];
    assert LowerOf(Int32, [corrupt]) == Some([7]);
  }
}
