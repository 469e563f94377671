/** Column statistics read as numbers. Parquet stores integers as little-endian two's complement,
    floats as IEEE 754 words and decimals as big-endian two's complement; here the bytes of a
    number are given by division and remainder, without the decoders of the reduction. */
module NumberBytes {
  import opened Wrappers
  import opened AvroBinary
  import opened ColumnBounds
  import opened DecimalBounds

  /** Byte `k` of a number on `w` bytes, counted from the least significant one. */
  function ByteOf(n: int, w: nat, k: nat): (b: Byte) {
    n % Pow256(w) / Pow256(k) % 256
  }

  function LittleBytes(n: int, w: nat): (b: Bytes)
    ensures |b| == w && forall k :: 0 <= k < w ==> b[k] == ByteOf(n, w, k)
  {
    seq(w, k requires 0 <= k < w => ByteOf(n, w, k))
  }

  function BigBytes(n: int, w: nat): (b: Bytes)
    ensures |b| == w && forall k :: 0 <= k < w ==> b[k] == ByteOf(n, w, w - 1 - k)
  {
    seq(w, k requires 0 <= k < w => ByteOf(n, w, w - 1 - k))
  }

  /** The range of a two's complement number on `w` bytes. */
  predicate Fits(n: int, w: nat) {
    0 <= 2 * n + Pow256(w) < 2 * Pow256(w)
  }

  // ---- division ------------------------------------------------------------------

  lemma {:induction false} Quotient(m: nat, d: nat, q: nat, r: nat)
    requires 0 <= r < d && m == q * d + r
    ensures m / d == q
  {
    var q2, r2 := m / d, m % d;
    assert m == q2 * d + r2;
    if q < q2 {
      MulLess(q, q2, d);
    } else if q2 < q {
      MulLess(q2, q, d);
    }
  }

  lemma {:induction false} DivideTwice(m: nat, b: nat)
    requires b > 0
    ensures m / 256 / b == m / (256 * b)
  {
    var q := m / 256 / b;
    assert m / 256 == q * b + m / 256 % b;
    Quotient(m, 256 * b, q, 256 * (m / 256 % b) + m % 256);
  }

  /** Dropping the lowest byte divides by 256. */
  lemma {:induction false} NextByte(m: nat, w: nat, k: nat)
    requires m < Pow256(w + 1) && k < w
    ensures m / 256 < Pow256(w) && ByteOf(m, w + 1, k + 1) == ByteOf(m / 256, w, k)
  {
    hide Pow256;
    assert Pow256(w + 1) == 256 * Pow256(w) && Pow256(k + 1) == 256 * Pow256(k) by { PowerSteps(w, k); }
    Small(m, Pow256(w + 1));
    Small(m / 256, Pow256(w));
    DivideTwice(m, Pow256(k));
  }

  lemma {:induction false} PowerSteps(w: nat, k: nat)
    ensures Pow256(w + 1) == 256 * Pow256(w) && Pow256(k + 1) == 256 * Pow256(k)
  {
  }

  lemma {:induction false} Small(m: nat, d: nat)
    requires m < d
    ensures m % d == m
  {
  }

  lemma {:induction false} FirstByte(m: nat, w: nat)
    requires m < Pow256(w + 1)
    ensures ByteOf(m, w + 1, 0) == m % 256
  {
    Small(m, Pow256(w + 1));
  }

  // ---- the decoders give the numbers back ----------------------------------------

  lemma {:induction false} LittleEndianBack(m: nat, w: nat)
    requires m < Pow256(w)
    ensures LittleEndian(LittleBytes(m, w)) == m
    decreases w
  {
    hide ByteOf;
    var b := LittleBytes(m, w);
    if w > 0 {
      assert Pow256(w) == 256 * Pow256(w - 1);
      forall k | 0 <= k < w - 1 ensures b[1..][k] == ByteOf(m / 256, w - 1, k) {
        NextByte(m, w - 1, k);
      }
      FirstByte(m, w - 1);
      assert b[1..] == LittleBytes(m / 256, w - 1);
      LittleEndianBack(m / 256, w - 1);
    }
  }

  lemma {:induction false} BigEndianLast(b: Bytes, x: Byte)
    ensures BigEndian(b + [x]) == 256 * BigEndian(b) + x
    decreases |b|
  {
    if b == [] {
      assert b + [x] == [x] && [x][1..] == [];
      assert BigEndian([x]) == x * Pow256(0) + BigEndian([]);
    } else {
      assert (b + [x])[1..] == b[1..] + [x];
      BigEndianLast(b[1..], x);
      assert Pow256(|b|) == 256 * Pow256(|b| - 1);
      Shift(b[0], Pow256(|b| - 1));
    }
  }

  lemma {:induction false} Shift(x: nat, p: nat)
    ensures x * (256 * p) == 256 * (x * p)
  {
  }

  lemma {:induction false} BigEndianBack(m: nat, w: nat)
    requires m < Pow256(w)
    ensures BigEndian(BigBytes(m, w)) == m
    decreases w
  {
    hide ByteOf, BigEndian;
    var b := BigBytes(m, w);
    if w > 0 {
      assert Pow256(w) == 256 * Pow256(w - 1);
      var front, rest := b[..w - 1], BigBytes(m / 256, w - 1);
      forall k | 0 <= k < w - 1 ensures front[k] == rest[k] {
        NextByte(m, w - 1, w - 2 - k);
      }
      FirstByte(m, w - 1);
      assert front == rest;
      assert b == front + [b[w - 1]];
      BigEndianBack(m / 256, w - 1);
      BigEndianLast(front, b[w - 1]);
    } else {
      assert b == [];
      assert BigEndian(b) == 0 by { EmptyBigEndian(); }
    }
  }

  lemma {:induction false} EmptyBigEndian()
    ensures BigEndian([]) == 0
  {
  }

  /** A number and its remainder have the same bytes. */
  lemma {:induction false} BytesOfRemainder(n: int, w: nat)
    ensures LittleBytes(n, w) == LittleBytes(n % Pow256(w), w) && BigBytes(n, w) == BigBytes(n % Pow256(w), w)
  {
    hide Pow256;
    Small(n % Pow256(w), Pow256(w));
  }

  lemma {:induction false} Remainder(n: int, w: nat)
    requires Fits(n, w)
    ensures n % Pow256(w) == if n < 0 then n + Pow256(w) else n
  {
    hide Pow256;
    if n < 0 {
      Wrap(n, Pow256(w));
    } else {
      Small(n, Pow256(w));
    }
  }

  lemma {:induction false} Wrap(n: int, d: nat)
    requires 0 <= n + d < d
    ensures n % d == n + d
  {
    var q := n / d;
    Sign(q, d);
    Sign(-2 - q, d);
    assert (-2 - q) * d == -2 * d - q * d;
    assert q == -1;
  }

  lemma {:induction false} Sign(q: int, d: nat)
    ensures q >= 0 ==> q * d >= 0
  {
  }

  /** Decoding the bytes of an integer gives it back, over the whole signed range. */
  lemma {:induction false} SignedBack(n: int, w: nat)
    requires (w == 4 || w == 8) && Fits(n, w)
    ensures Signed(LittleBytes(n, w)) == n
  {
    hide LittleEndian, ByteOf;
    BytesOfRemainder(n, w);
    LittleEndianBack(n % Pow256(w), w);
    Remainder(n, w);
    Powers();
  }

  lemma {:induction false} Powers()
    ensures Pow256(1) == 0x100 && Pow256(2) == 0x1_0000 && Pow256(3) == 0x100_0000 && Pow256(4) == 0x1_0000_0000
    ensures Pow256(8) == 0x1_0000_0000_0000_0000
  {
    assert Pow256(1) == 256 * Pow256(0);
    assert Pow256(2) == 256 * Pow256(1);
    assert Pow256(3) == 256 * Pow256(2);
    assert Pow256(4) == 256 * Pow256(3);
    assert Pow256(5) == 256 * Pow256(4);
    assert Pow256(6) == 256 * Pow256(5);
    assert Pow256(7) == 256 * Pow256(6);
    assert Pow256(8) == 256 * Pow256(7);
  }

  /** Decoding the bytes of a decimal gives it back, at every width. */
  lemma {:induction false} UnscaledBack(n: int, w: nat)
    requires w > 0 && Fits(n, w)
    ensures Unscaled(BigBytes(n, w)) == n
  {
    hide BigEndian, ByteOf, Pow256;
    BytesOfRemainder(n, w);
    Remainder(n, w);
    BigEndianBack(n % Pow256(w), w);
    NegativeIsLarge(BigBytes(n, w));
  }

  // ---- integer columns -----------------------------------------------------------

  /** The numbers behind a row group: its statistics and its non-null values. */
  datatype Numbers = Numbers(lo: int, hi: int, values: seq<int>)

  /** The row group holds these numbers, and its statistics cover its values. */
  ghost predicate Holds(ty: Type, c: Chunk, n: Numbers) {
    var w := ty.Width();
    && c.Contributes() && Fits(n.lo, w) && Fits(n.hi, w)
    && c.Min() == LittleBytes(n.lo, w) && c.Max() == LittleBytes(n.hi, w)
    && |c.values| == |n.values|
    && forall j :: 0 <= j < |c.values| ==>
         c.values[j] == LittleBytes(n.values[j], w) && n.lo <= n.values[j] <= n.hi
  }

  /** Each row group holds numbers, or has neither statistics nor values. */
  ghost predicate AllHold(ty: Type, chunks: seq<Chunk>, ns: seq<Option<Numbers>>) {
    && |chunks| == |ns|
    && forall i :: 0 <= i < |chunks| ==>
         if ns[i].Some? then Holds(ty, chunks[i], ns[i].value) else !chunks[i].Contributes() && chunks[i].values == []
  }

  function Smallest(ns: seq<Option<Numbers>>): Option<int> {
    if ns == [] then None
    else
      var cur, last := Smallest(ns[..|ns| - 1]), ns[|ns| - 1];
      if last.None? || (cur.Some? && cur.value <= last.value.lo) then cur else Some(last.value.lo)
  }

  function Largest(ns: seq<Option<Numbers>>): Option<int> {
    if ns == [] then None
    else
      var cur, last := Largest(ns[..|ns| - 1]), ns[|ns| - 1];
      if last.None? || (cur.Some? && cur.value >= last.value.hi) then cur else Some(last.value.hi)
  }

  lemma {:induction false} Extremes(ns: seq<Option<Numbers>>)
    ensures forall i :: 0 <= i < |ns| && ns[i].Some? ==>
      Smallest(ns).Some? && Smallest(ns).value <= ns[i].value.lo && Largest(ns).Some? && ns[i].value.hi <= Largest(ns).value
    ensures Smallest(ns).Some? ==> exists i :: 0 <= i < |ns| && ns[i].Some? && ns[i].value.lo == Smallest(ns).value
    ensures Largest(ns).Some? ==> exists i :: 0 <= i < |ns| && ns[i].Some? && ns[i].value.hi == Largest(ns).value
  {
    if ns != [] {
      var n := |ns| - 1;
      Extremes(ns[..n]);
      assert forall i :: 0 <= i < n ==> ns[..n][i] == ns[i];
    }
  }

  lemma {:induction false} CompareNumbers(ty: Type, a: int, b: int)
    requires (ty.Int32? || ty.Int64?) && Fits(a, ty.Width()) && Fits(b, ty.Width())
    ensures CmpStat(ty, LittleBytes(a, ty.Width()), LittleBytes(b, ty.Width())) == Cmp(a, b)
  {
    hide Signed, ByteOf, Fits;
    SignedBack(a, ty.Width());
    SignedBack(b, ty.Width());
  }

  lemma {:induction false} ReducedNumbers(ty: Type, chunks: seq<Chunk>, ns: seq<Option<Numbers>>)
    requires (ty.Int32? || ty.Int64?) && AllHold(ty, chunks, ns)
    ensures var lo, hi := Smallest(ns), Largest(ns);
      && (lo.Some? <==> hi.Some?) && (lo.Some? ==> Fits(lo.value, ty.Width()) && Fits(hi.value, ty.Width()))
      && LowerOf(ty, chunks) == (if lo.Some? then Some(LittleBytes(lo.value, ty.Width())) else None)
      && UpperOf(ty, chunks) == (if hi.Some? then Some(LittleBytes(hi.value, ty.Width())) else None)
    decreases |chunks|
  {
    hide CmpStat, LittleBytes, Fits;
    if chunks != [] {
      var n := |chunks| - 1;
      assert AllHold(ty, chunks[..n], ns[..n]);
      ReducedNumbers(ty, chunks[..n], ns[..n]);
      if ns[n].Some? && Smallest(ns[..n]).Some? {
        CompareNumbers(ty, Smallest(ns[..n]).value, ns[n].value.lo);
        CompareNumbers(ty, Largest(ns[..n]).value, ns[n].value.hi);
      }
    }
  }

  /** The emitted bounds of an integer column are the bytes of the least minimum and of the
      greatest maximum, so as numbers they bracket every value of the file. */
  lemma {:induction false} IntegerBounds(ty: Type, chunks: seq<Chunk>, ns: seq<Option<Numbers>>, lo: int, hi: int)
    requires (ty.Int32? || ty.Int64?) && AllHold(ty, chunks, ns)
    requires Fits(lo, ty.Width()) && EmitLower(ty, LowerOf(ty, chunks)) == Some(LittleBytes(lo, ty.Width()))
    requires Fits(hi, ty.Width()) && EmitUpper(ty, UpperOf(ty, chunks)) == Some(LittleBytes(hi, ty.Width()))
    ensures exists i :: 0 <= i < |ns| && ns[i].Some? && ns[i].value.lo == lo
    ensures exists i :: 0 <= i < |ns| && ns[i].Some? && ns[i].value.hi == hi
    ensures forall i :: 0 <= i < |ns| && ns[i].Some? ==> lo <= ns[i].value.lo && ns[i].value.hi <= hi
    ensures forall i, j :: 0 <= i < |ns| && ns[i].Some? && 0 <= j < |ns[i].value.values| ==>
      lo <= ns[i].value.values[j] <= hi
  {
    hide LowerOf, UpperOf, LittleBytes, Signed, Fits;
    ReducedNumbers(ty, chunks, ns);
    Extremes(ns);
    SignedBack(lo, ty.Width());
    SignedBack(hi, ty.Width());
    SignedBack(Smallest(ns).value, ty.Width());
    SignedBack(Largest(ns).value, ty.Width());
    assert lo == Smallest(ns).value && hi == Largest(ns).value;
    forall i | 0 <= i < |ns| && ns[i].Some? ensures Holds(ty, chunks[i], ns[i].value) {
    }
  }

  /** There are bounds as soon as one row group holds numbers, and they are bytes of numbers. */
  lemma {:induction false} IntegerBoundsEmitted(ty: Type, chunks: seq<Chunk>, ns: seq<Option<Numbers>>)
    requires (ty.Int32? || ty.Int64?) && AllHold(ty, chunks, ns)
    ensures (exists i :: 0 <= i < |ns| && ns[i].Some?) ==>
      && (exists lo :: Fits(lo, ty.Width()) && EmitLower(ty, LowerOf(ty, chunks)) == Some(LittleBytes(lo, ty.Width())))
      && (exists hi :: Fits(hi, ty.Width()) && EmitUpper(ty, UpperOf(ty, chunks)) == Some(LittleBytes(hi, ty.Width())))
  {
    hide LowerOf, UpperOf, LittleBytes, Fits;
    ReducedNumbers(ty, chunks, ns);
    Extremes(ns);
  }

  // ---- float columns -------------------------------------------------------------

  function At(b: Bytes, i: nat): int
    requires i < |b|
  {
    b[i]
  }

  predicate SignBit(b: Bytes)
    requires |b| == 4 || |b| == 8
  {
    b[|b| - 1] >= 0x80
  }

  /** The exponent field: eight bits of a float, eleven of a double. */
  function Exponent(b: Bytes): nat
    requires |b| == 4 || |b| == 8
  {
    if |b| == 4 then At(b, 3) % 0x80 * 2 + At(b, 2) / 0x80 else At(b, 7) % 0x80 * 16 + At(b, 6) / 0x10
  }

  /** The fraction field: 23 bits of a float, 52 of a double. */
  function Fraction(b: Bytes): nat
    requires |b| == 4 || |b| == 8
  {
    if |b| == 4 then At(b, 2) % 0x80 * 0x1_0000 + At(b, 1) * 0x100 + At(b, 0)
    else At(b, 6) % 0x10 * 0x1_0000_0000_0000 + At(b, 5) * 0x100_0000_0000 + At(b, 4) * 0x1_0000_0000
         + At(b, 3) * 0x100_0000 + At(b, 2) * 0x1_0000 + At(b, 1) * 0x100 + At(b, 0)
  }

  /** Order of magnitudes: by exponent, then by fraction. */
  predicate Smaller(a: Bytes, b: Bytes)
    requires |a| == |b| && (|b| == 4 || |b| == 8)
  {
    Exponent(a) < Exponent(b) || (Exponent(a) == Exponent(b) && Fraction(a) <= Fraction(b))
  }

  function FractionBits(w: nat): nat {
    if w == 4 then 0x80_0000 else 0x10_0000_0000_0000
  }

  lemma {:induction false} LittleEndianStep(b: Bytes)
    requires b != []
    ensures LittleEndian(b) == b[0] + 256 * LittleEndian(b[1..])
  {
  }

  lemma {:induction false} LittleEndianOfFour(b: Bytes)
    requires |b| == 4
    ensures LittleEndian(b) == At(b, 0) + 0x100 * At(b, 1) + 0x1_0000 * At(b, 2) + 0x100_0000 * At(b, 3)
  {
    hide LittleEndian;
    LittleEndianStep(b);
    LittleEndianStep(b[1..]);
    LittleEndianStep(b[1..][1..]);
    LittleEndianStep(b[1..][1..][1..]);
    assert b[1..][1..][1..][1..] == [];
    assert LittleEndian([]) == 0 by { LittleEndianEmpty(); }
  }

  lemma {:induction false} LittleEndianEmpty()
    ensures LittleEndian([]) == 0
  {
  }

  lemma {:induction false} LittleEndianSplit(b: Bytes)
    requires |b| == 8
    ensures LittleEndian(b) == LittleEndian(b[..4]) + 0x1_0000_0000 * LittleEndian(b[4..])
  {
    hide LittleEndian;
    LittleEndianStep(b);
    LittleEndianStep(b[1..]);
    LittleEndianStep(b[1..][1..]);
    LittleEndianStep(b[1..][1..][1..]);
    assert b[1..][1..][1..][1..] == b[4..];
    LittleEndianOfFour(b[..4]);
  }

  /** The key as sign and magnitude. */
  lemma {:induction false} KeyOfWord(b: Bytes)
    requires |b| == 4 || |b| == 8
    ensures var m := Exponent(b) * FractionBits(|b|) + Fraction(b);
      TotalOrderKey(b) == if SignBit(b) then -1 - m else m
    ensures Fraction(b) < FractionBits(|b|)
  {
    hide LittleEndian, TotalOrderKey, Exponent, Fraction;
    if |b| == 4 {
      KeyOfFloat(b);
    } else {
      KeyOfDouble(b);
    }
  }

  lemma {:induction false} KeyOfFloat(b: Bytes)
    requires |b| == 4
    ensures var m := Exponent(b) * 0x80_0000 + Fraction(b);
      TotalOrderKey(b) == if SignBit(b) then -1 - m else m
    ensures Fraction(b) < 0x80_0000
  {
    hide LittleEndian;
    LittleEndianOfFour(b);
  }

  lemma {:induction false} KeyOfDouble(b: Bytes)
    requires |b| == 8
    ensures var m := Exponent(b) * 0x10_0000_0000_0000 + Fraction(b);
      TotalOrderKey(b) == if SignBit(b) then -1 - m else m
    ensures Fraction(b) < 0x10_0000_0000_0000
  {
    hide LittleEndian;
    LittleEndianSplit(b);
    LittleEndianOfFour(b[..4]);
    LittleEndianOfFour(b[4..]);
  }

  lemma {:induction false} MagnitudeOrder(e: nat, f: nat, e2: nat, f2: nat, p: nat)
    requires f < p && f2 < p
    ensures e * p + f <= e2 * p + f2 <==> e < e2 || (e == e2 && f <= f2)
  {
    if e < e2 {
      MulLess(e, e2, p);
    } else if e2 < e {
      MulLess(e2, e, p);
    }
  }

  /** Floats are ordered by sign, then by exponent and fraction, the other way round below
      zero. */
  lemma {:induction false} FloatsByFields(ty: Type, a: Bytes, b: Bytes)
    requires (ty.Float? || ty.Double?) && WellFormed(ty, a) && WellFormed(ty, b)
    ensures Leq(ty, a, b) <==>
      if SignBit(a) != SignBit(b) then SignBit(a) else if SignBit(a) then Smaller(b, a) else Smaller(a, b)
  {
    hide TotalOrderKey, Exponent, Fraction, FractionBits, SignBit;
    KeyOfWord(a);
    KeyOfWord(b);
    MagnitudeOrder(Exponent(a), Fraction(a), Exponent(b), Fraction(b), FractionBits(|a|));
    MagnitudeOrder(Exponent(b), Fraction(b), Exponent(a), Fraction(a), FractionBits(|a|));
  }

  function Pow2(n: nat): (p: nat)
    ensures p > 0
  {
    if n == 0 then 1 else 2 * Pow2(n - 1)
  }

  predicate Finite(b: Bytes)
    requires |b| == 4 || |b| == 8
  {
    Exponent(b) < if |b| == 4 then 0xFF else 0x7FF
  }

  function Scaled(e: nat, f: nat, p: nat): nat {
    if e == 0 then 2 * f else (p + f) * Pow2(e)
  }

  /** The value of a finite float as a multiple of half the least positive one. */
  function Magnitude(b: Bytes): nat
    requires |b| == 4 || |b| == 8
  {
    Scaled(Exponent(b), Fraction(b), FractionBits(|b|))
  }

  function Value(b: Bytes): int
    requires |b| == 4 || |b| == 8
  {
    var m: int := Magnitude(b);
    if SignBit(b) then -m else m
  }

  lemma {:induction false} Doubles(e: nat, e2: nat)
    requires e < e2
    ensures 2 * Pow2(e) <= Pow2(e2)
    decreases e2
  {
    if e + 1 < e2 {
      Doubles(e, e2 - 1);
    }
  }

  lemma {:induction false} ProductsKeepOrder(x: nat, y: nat, p: nat, q: nat)
    requires x <= y && p <= q
    ensures x * p <= y * q
  {
    assert (y - x) * p >= 0 && y * (q - p) >= 0;
    assert y * q == y * p + y * (q - p) && y * p == x * p + (y - x) * p;
  }

  lemma {:induction false} SmallerMagnitude(a: Bytes, b: Bytes)
    requires |a| == |b| && (|b| == 4 || |b| == 8) && Smaller(a, b)
    ensures Magnitude(a) <= Magnitude(b)
  {
    hide Exponent, Fraction, FractionBits, Pow2;
    KeyOfWord(a);
    KeyOfWord(b);
    var e, e2, f, f2, p := Exponent(a), Exponent(b), Fraction(a), Fraction(b), FractionBits(|a|);
    if e == e2 {
      ProductsKeepOrder(p + f, p + f2, Pow2(e), Pow2(e));
    } else {
      Doubles(e, e2);
      ProductsKeepOrder(p, p + f2, Pow2(e2), Pow2(e2));
      if e == 0 {
        assert Pow2(e) >= 1;
        ProductsKeepOrder(p, p, 2, Pow2(e2));
      } else {
        ProductsKeepOrder(p + f, 2 * p, Pow2(e), Pow2(e));
        ProductsKeepOrder(p, p, 2 * Pow2(e), Pow2(e2));
      }
    }
  }

  /** So finite floats compare as the numbers they are. */
  lemma {:induction false} FloatsCompareNumerically(ty: Type, a: Bytes, b: Bytes)
    requires (ty.Float? || ty.Double?) && WellFormed(ty, a) && WellFormed(ty, b) && Finite(a) && Finite(b)
    ensures Leq(ty, a, b) ==> Value(a) <= Value(b)
    ensures Value(a) < Value(b) ==> Leq(ty, a, b)
  {
    hide CmpStat, Smaller, Magnitude, SignBit;
    FloatsByFields(ty, a, b);
    FloatsByFields(ty, b, a);
    LeqTotal(ty, a, b);
    if Smaller(a, b) {
      SmallerMagnitude(a, b);
    }
    if Smaller(b, a) {
      SmallerMagnitude(b, a);
    }
  }

  /** Finite bounds of a float column bracket its finite values as numbers. */
  lemma {:induction false} FloatBounds(ty: Type, chunks: seq<Chunk>, i: nat, j: nat)
    requires (ty.Float? || ty.Double?) && Trustworthy(ty, chunks) && i < |chunks| && j < |chunks[i].values|
    ensures var v, lo, hi := chunks[i].values[j], EmitLower(ty, LowerOf(ty, chunks)), EmitUpper(ty, UpperOf(ty, chunks));
      && WellFormed(ty, v) && lo.Some? && WellFormed(ty, lo.value) && hi.Some? && WellFormed(ty, hi.value)
      && (Finite(v) && Finite(lo.value) ==> Value(lo.value) <= Value(v))
      && (Finite(v) && Finite(hi.value) ==> Value(v) <= Value(hi.value))
  {
    hide LowerOf, UpperOf, Value, Finite, Leq;
    assert Honest(ty, chunks[i]);
    FirstGroupDecides(ty, chunks);
    BoundsBracket(ty, chunks, i, j);
    var v, lo, hi := chunks[i].values[j], LowerOf(ty, chunks).value, UpperOf(ty, chunks).value;
    if Finite(v) && Finite(lo) {
      FloatsCompareNumerically(ty, lo, v);
    }
    if Finite(v) && Finite(hi) {
      FloatsCompareNumerically(ty, v, hi);
    }
  }
}
