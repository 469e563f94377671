/** Bounds of a decimal column stored as fixed-length bytes. Parquet writes such a decimal as a
    big-endian two's complement number, while the reduction over row groups compares the bytes
    lexicographically: the two orders agree exactly between numbers of the same sign. */
module DecimalBounds {
  import opened Wrappers
  import opened AvroBinary
  import opened ColumnBounds

  // ---- the two orders ------------------------------------------------------------

  function Pow256(n: nat): (p: nat)
    ensures p > 0
  {
    if n == 0 then 1 else 256 * Pow256(n - 1)
  }

  function BigEndian(b: Bytes): nat {
    if b == [] then 0 else b[0] * Pow256(|b| - 1) + BigEndian(b[1..])
  }

  predicate Negative(b: Bytes) {
    b != [] && b[0] >= 0x80
  }

  /** Two's complement on `|b|` bytes, most significant first. */
  function Unscaled(b: Bytes): int {
    if Negative(b) then BigEndian(b) - Pow256(|b|) else BigEndian(b)
  }

  lemma {:induction false} MulLess(x: nat, y: nat, p: nat)
    requires x < y
    ensures x * p + p <= y * p
  {
    assert (y - x - 1) * p >= 0;
    assert y * p == x * p + p + (y - x - 1) * p;
  }

  lemma {:induction false} BigEndianFits(b: Bytes)
    ensures BigEndian(b) < Pow256(|b|)
  {
    if b != [] {
      BigEndianFits(b[1..]);
      MulLess(b[0], 256, Pow256(|b| - 1));
    }
  }

  lemma {:induction false} LexIsUnsigned(a: Bytes, b: Bytes)
    requires |a| == |b|
    ensures Lex(a, b) <==> BigEndian(a) <= BigEndian(b)
  {
    if a != [] {
      var p := Pow256(|a| - 1);
      LexIsUnsigned(a[1..], b[1..]);
      BigEndianFits(a[1..]);
      BigEndianFits(b[1..]);
      if a[0] < b[0] {
        MulLess(a[0], b[0], p);
      } else if b[0] < a[0] {
        MulLess(b[0], a[0], p);
      }
    }
  }

  lemma {:induction false} NegativeIsLarge(b: Bytes)
    requires b != []
    ensures Negative(b) <==> Unscaled(b) < 0
    ensures Negative(b) ==> 2 * BigEndian(b) >= Pow256(|b|)
    ensures !Negative(b) ==> 2 * BigEndian(b) < Pow256(|b|)
  {
    var p := Pow256(|b| - 1);
    BigEndianFits(b);
    BigEndianFits(b[1..]);
    if Negative(b) {
      assert b[0] == 0x80 || 0x80 < b[0];
      if 0x80 < b[0] {
        MulLess(0x80, b[0], p);
      }
    } else {
      MulLess(b[0], 0x80, p);
    }
  }

  /** Between byte strings of one length the lexicographic order is the order of the decimals
      exactly when both have the same sign. */
  lemma {:induction false} LexIsNumericWithinSign(a: Bytes, b: Bytes)
    requires |a| == |b| && a != []
    ensures (Lex(a, b) <==> Unscaled(a) <= Unscaled(b)) <==> Negative(a) == Negative(b)
  {
    hide BigEndian, Lex, Pow256;
    LexIsUnsigned(a, b);
    NegativeIsLarge(a);
    NegativeIsLarge(b);
  }

  // ---- the reduction -------------------------------------------------------------

  /** Every statistic that enters the reduction is a decimal of `width` bytes. */
  ghost predicate DecimalStats(chunks: seq<Chunk>, width: nat) {
    forall i :: 0 <= i < |chunks| && chunks[i].Contributes() ==>
      |chunks[i].Min()| == width && |chunks[i].Max()| == width
  }

  ghost predicate BelowAllMinima(lo: Bytes, chunks: seq<Chunk>) {
    forall i :: 0 <= i < |chunks| && chunks[i].Contributes() ==> Unscaled(lo) <= Unscaled(chunks[i].Min())
  }

  ghost predicate AboveAllMaxima(hi: Bytes, chunks: seq<Chunk>) {
    forall i :: 0 <= i < |chunks| && chunks[i].Contributes() ==> Unscaled(chunks[i].Max()) <= Unscaled(hi)
  }

  ghost predicate MinimaOfOneSign(chunks: seq<Chunk>) {
    forall i, j :: 0 <= i < |chunks| && 0 <= j < |chunks| && chunks[i].Contributes() && chunks[j].Contributes() ==>
      Negative(chunks[i].Min()) == Negative(chunks[j].Min())
  }

  ghost predicate MaximaOfOneSign(chunks: seq<Chunk>) {
    forall i, j :: 0 <= i < |chunks| && 0 <= j < |chunks| && chunks[i].Contributes() && chunks[j].Contributes() ==>
      Negative(chunks[i].Max()) == Negative(chunks[j].Max())
  }

  /** The reduced bounds are statistics of two of the row groups. */
  lemma {:induction false} BoundsAreStatistics(chunks: seq<Chunk>) returns (l: nat, u: nat)
    requires FirstContributing(chunks).Some?
    ensures l < |chunks| && chunks[l].Contributes() && LowerOf(FixedBytes, chunks) == Some(chunks[l].Min())
    ensures u < |chunks| && chunks[u].Contributes() && UpperOf(FixedBytes, chunks) == Some(chunks[u].Max())
  {
    hide CmpStat;
    var n := |chunks| - 1;
    FirstGroupDecides(FixedBytes, chunks[..n]);
    l, u := n, n;
    if FirstContributing(chunks[..n]).Some? {
      var l', u' := BoundsAreStatistics(chunks[..n]);
      var last := chunks[n];
      if !last.Contributes() || CmpStat(FixedBytes, chunks[l'].Min(), last.Min()) != Greater {
        l := l';
      }
      if !last.Contributes() || CmpStat(FixedBytes, chunks[u'].Max(), last.Max()) != Less {
        u := u';
      }
    }
  }

  lemma {:induction false} LowerOfDecimals(chunks: seq<Chunk>, width: nat, l: nat)
    requires width > 0 && DecimalStats(chunks, width)
    requires l < |chunks| && chunks[l].Contributes() && LowerOf(FixedBytes, chunks) == Some(chunks[l].Min())
    ensures BelowAllMinima(chunks[l].Min(), chunks) <==> MinimaOfOneSign(chunks)
  {
    hide CmpStat, Lex, Unscaled, LowerOf, Negative;
    var lo := chunks[l].Min();
    forall i | 0 <= i < |chunks| && chunks[i].Contributes()
      ensures Lex(lo, chunks[i].Min())
      ensures Unscaled(lo) <= Unscaled(chunks[i].Min()) <==> Negative(lo) == Negative(chunks[i].Min())
    {
      LowerBelowAll(FixedBytes, chunks, i);
      LeqTotal(FixedBytes, lo, chunks[i].Min());
      LexIsNumericWithinSign(lo, chunks[i].Min());
    }
  }

  lemma {:induction false} UpperOfDecimals(chunks: seq<Chunk>, width: nat, u: nat)
    requires width > 0 && DecimalStats(chunks, width)
    requires u < |chunks| && chunks[u].Contributes() && UpperOf(FixedBytes, chunks) == Some(chunks[u].Max())
    ensures AboveAllMaxima(chunks[u].Max(), chunks) <==> MaximaOfOneSign(chunks)
  {
    hide CmpStat, Lex, Unscaled, UpperOf, Negative;
    var hi := chunks[u].Max();
    forall i | 0 <= i < |chunks| && chunks[i].Contributes()
      ensures Lex(chunks[i].Max(), hi)
      ensures Unscaled(chunks[i].Max()) <= Unscaled(hi) <==> Negative(chunks[i].Max()) == Negative(hi)
    {
      UpperAboveAll(FixedBytes, chunks, i);
      LeqTotal(FixedBytes, chunks[i].Max(), hi);
      LexIsNumericWithinSign(chunks[i].Max(), hi);
    }
  }

  /** The bounds emitted for a decimal column of up to sixteen bytes bracket the row groups'
      statistics as numbers exactly when the minima are all of one sign, and the maxima are. */
  lemma {:induction false} DecimalBoundsBracket(chunks: seq<Chunk>, width: nat)
    requires 0 < width <= TRUNCATE_LEN && DecimalStats(chunks, width) && FirstContributing(chunks).Some?
    ensures var lo, hi := EmitLower(FixedBytes, LowerOf(FixedBytes, chunks)), EmitUpper(FixedBytes, UpperOf(FixedBytes, chunks));
      && lo.Some? && (BelowAllMinima(lo.value, chunks) <==> MinimaOfOneSign(chunks))
      && hi.Some? && (AboveAllMaxima(hi.value, chunks) <==> MaximaOfOneSign(chunks))
  {
    hide CmpStat, LowerOf, UpperOf, BelowAllMinima, AboveAllMaxima, MinimaOfOneSign, MaximaOfOneSign;
    var l, u := BoundsAreStatistics(chunks);
    LowerOfDecimals(chunks, width, l);
    UpperOfDecimals(chunks, width, u);
  }

  const MINUS_ONE: Bytes := [0xFF, 0xFF]
  const ONE: Bytes := [0x00, 0x01]

  /** One row group holding -1 and one holding 1: the emitted lower bound is 1. */
  lemma {:induction false} DecimalBoundsWitness()
    ensures var a := Chunk(1, 1, Some(Statistics(false, Some(MINUS_ONE), Some(MINUS_ONE), None)), [MINUS_ONE]);
      var b := Chunk(1, 1, Some(Statistics(false, Some(ONE), Some(ONE), None)), [ONE]);
      && EmitLower(FixedBytes, LowerOf(FixedBytes, [a, b])) == Some(ONE)
      && Unscaled(MINUS_ONE) == -1 && Unscaled(ONE) == 1
  {
    var a := Chunk(1, 1, Some(Statistics(false, Some(MINUS_ONE), Some(MINUS_ONE), None)), [MINUS_ONE]);
    var b := Chunk(1, 1, Some(Statistics(false, Some(ONE), Some(ONE), None)), [ONE]);
    assert [a, b][..1] == [a] && [a][..0] == [];
    assert LowerOf(FixedBytes, [a]) == Some(MINUS_ONE);
    assert MINUS_ONE[1..] == [0xFF] && ONE[1..] == [0x01];
    assert Pow256(0) == 1 && Pow256(1) == 256 && Pow256(2) == 65536;
    assert BigEndian([0xFF]) == 0xFF && BigEndian([0x01]) == 1;
  }
}
