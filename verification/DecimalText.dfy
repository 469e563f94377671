/** Decimal integer text as Rust's `parse` and `to_string` treat it, and the
    separator-joined text of multi-column partition values. Text is UTF-8 bytes. */
module DecimalText {
  import opened Wrappers
  import opened AvroBinary

  const MINUS: Byte := 45
  const PLUS: Byte := 43
  const SEPARATOR: Byte := 0x1F

  predicate IsDigit(b: Byte) { 48 <= b <= 57 }

  function Digits(n: nat): (r: Bytes)
    ensures r != [] && forall i :: 0 <= i < |r| ==> IsDigit(r[i])
  {
    if n < 10 then [48 + n] else Digits(n / 10) + [48 + n % 10]
  }

  function ShowInt(n: int): Bytes {
    if n < 0 then [MINUS] + Digits(-n) else Digits(n)
  }

  function DigitsValue(s: Bytes): Option<nat> {
    if s == [] || !IsDigit(s[|s| - 1]) then None
    else if |s| == 1 then Some(s[0] - 48)
    else
      var front := DigitsValue(s[..|s| - 1]);
      if front.None? then None else Some(10 * front.value + (s[|s| - 1] - 48))
  }

  /** An optional sign and at least one digit. */
  function ParseInt(s: Bytes): Option<int> {
    if s == [] then None
    else if s[0] == MINUS || s[0] == PLUS then
      var v := DigitsValue(s[1..]);
      if v.None? then None
      else
        var n: int := v.value;
        Some(if s[0] == MINUS then -n else n)
    else
      var v := DigitsValue(s);
      if v.None? then None else Some(v.value)
  }

  lemma {:induction false} DigitsRoundTrip(n: nat)
    ensures DigitsValue(Digits(n)) == Some(n)
  {
    if n >= 10 {
      DigitsRoundTrip(n / 10);
      assert Digits(n)[..|Digits(n)| - 1] == Digits(n / 10);
    }
  }

  lemma {:induction false} IntRoundTrip(n: int)
    ensures ParseInt(ShowInt(n)) == Some(n)
    ensures ShowInt(n) != [] && (ShowInt(n)[0] == MINUS <==> n < 0)
  {
    DigitsRoundTrip(if n < 0 then -n else n);
    if n < 0 {
      assert ShowInt(n)[1..] == Digits(-n);
    }
  }

  // ---- separator-joined parts ----------------------------------------------------

  function Split(s: Bytes): (r: seq<Bytes>)
    ensures r != []
    ensures forall i :: 0 <= i < |r| ==> SEPARATOR !in r[i]
  {
    if s == [] then [[]]
    else
      var more := Split(s[1..]);
      if s[0] == SEPARATOR then [[]] + more else [[s[0]] + more[0]] + more[1..]
  }

  function Join(parts: seq<Bytes>): Bytes {
    if parts == [] then []
    else if |parts| == 1 then parts[0]
    else parts[0] + [SEPARATOR] + Join(parts[1..])
  }

  lemma {:induction false} JoinSplit(s: Bytes)
    ensures Join(Split(s)) == s
  {
    if s != [] {
      JoinSplit(s[1..]);
      var more := Split(s[1..]);
      var parts := Split(s);
      if s[0] == SEPARATOR {
        assert parts[1..] == more;
        assert Join(parts) == [SEPARATOR] + s[1..];
      } else if |more| == 1 {
        assert parts == [[s[0]] + more[0]];
      } else {
        assert parts[1..] == more[1..];
        assert Join(parts) == [s[0]] + (more[0] + [SEPARATOR] + Join(more[1..]));
      }
    }
  }

  lemma {:induction false} SplitPart(p: Bytes)
    requires SEPARATOR !in p
    ensures Split(p) == [p]
  {
    if p != [] {
      SplitPart(p[1..]);
      assert [p[0]] + p[1..] == p;
    }
  }

  lemma {:induction false} SplitAfter(p: Bytes, rest: Bytes)
    requires SEPARATOR !in p
    ensures Split(p + [SEPARATOR] + rest) == [p] + Split(rest)
  {
    var s := p + [SEPARATOR] + rest;
    if p == [] {
      assert s[1..] == rest;
    } else {
      assert s[1..] == p[1..] + [SEPARATOR] + rest;
      SplitAfter(p[1..], rest);
      assert ([p[1..]] + Split(rest))[1..] == Split(rest);
      assert [p[0]] + p[1..] == p;
    }
  }

  lemma {:induction false} SplitJoin(parts: seq<Bytes>)
    requires parts != [] && forall i :: 0 <= i < |parts| ==> SEPARATOR !in parts[i]
    ensures Split(Join(parts)) == parts
  {
    if |parts| == 1 {
      SplitPart(parts[0]);
    } else {
      SplitJoin(parts[1..]);
      SplitAfter(parts[0], Join(parts[1..]));
      assert [parts[0]] + parts[1..] == parts;
    }
  }
}
