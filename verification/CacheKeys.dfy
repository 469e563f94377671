/** Cache keys as text: how kind, scope, snapshot and identity are joined, and why two
    different reads of one store never share a key. */
module CacheKeys {
  import opened Wrappers
  import AvroBinary
  import DecimalText

  datatype Kind = Query | Metadata | Index {
    function Text(): string {
      match this
      case Query => "query"
      case Metadata => "metadata"
      case Index => "index"
    }
  }

  // ---- text ----------------------------------------------------------------------

  predicate FoundAt(s: string, part: string, i: nat) {
    i + |part| <= |s| && s[i..i + |part|] == part
  }

  predicate Contains(s: string, part: string) {
    exists i: nat :: i <= |s| && FoundAt(s, part, i)
  }

  predicate EndsWith(s: string, part: string) {
    |part| <= |s| && s[|s| - |part|..] == part
  }

  predicate StartsWith(s: string, part: string) {
    part <= s
  }

  predicate Digit(c: char) {
    '0' <= c <= '9'
  }

  /** Bytes below 128 as text. */
  function Chars(b: AvroBinary.Bytes): (r: string)
    ensures |r| == |b| && forall i :: 0 <= i < |r| ==> r[i] == b[i] as char
  {
    seq(|b|, i requires 0 <= i < |b| => b[i] as char)
  }

  function Decimal(n: nat): (r: string)
    ensures r != "" && forall i :: 0 <= i < |r| ==> Digit(r[i])
  {
    Chars(DecimalText.Digits(n))
  }

  function IntText(n: int): string {
    Chars(DecimalText.ShowInt(n))
  }

  lemma {:induction false} DecimalInjective(a: nat, b: nat)
    requires Decimal(a) == Decimal(b)
    ensures a == b
  {
    var x, y := DecimalText.Digits(a), DecimalText.Digits(b);
    assert forall i :: 0 <= i < |x| ==> x[i] == Chars(x)[i] as int == Chars(y)[i] as int == y[i];
    assert x == y;
    DecimalText.DigitsRoundTrip(a);
    DecimalText.DigitsRoundTrip(b);
  }

  lemma {:induction false} IntTextInjective(a: int, b: int)
    requires IntText(a) == IntText(b)
    ensures a == b
  {
    hide DecimalText.ShowInt;
    var x, y := DecimalText.ShowInt(a), DecimalText.ShowInt(b);
    assert forall i :: 0 <= i < |x| ==> x[i] == Chars(x)[i] as int == Chars(y)[i] as int == y[i];
    assert x == y;
    DecimalText.IntRoundTrip(a);
    DecimalText.IntRoundTrip(b);
  }

  lemma {:induction false} SamePrefix(a: string, x: string, y: string)
    requires a + x == a + y
    ensures x == y
  {
    assert (a + x)[|a|..] == x && (a + y)[|a|..] == y;
  }

  /** Text up to the first separator is determined by the whole. */
  lemma {:induction false} FirstSeparator(c: char, a: string, x: string, b: string, y: string)
    requires c !in a && c !in b && a + [c] + x == b + [c] + y
    ensures a == b && x == y
  {
    var s := a + [c] + x;
    assert s[|a|] == c && s[|b|] == c;
    assert forall i :: 0 <= i < |a| ==> s[i] == a[i];
    assert forall i :: 0 <= i < |b| ==> s[i] == b[i];
    assert |a| == |b|;
    assert s[..|a|] == a && s[..|b|] == b && s[|a| + 1..] == x && s[|b| + 1..] == y;
  }

  /** And so is text after the last separator. */
  lemma {:induction false} LastSeparator(c: char, x: string, a: string, y: string, b: string)
    requires c !in a && c !in b && x + [c] + a == y + [c] + b
    ensures x == y && a == b
  {
    var s := x + [c] + a;
    assert s[|x|] == c && s[|y|] == c;
    assert forall i :: 0 <= i < |a| ==> s[|x| + 1 + i] == a[i];
    assert forall i :: 0 <= i < |b| ==> s[|y| + 1 + i] == b[i];
    assert |x| == |y|;
    assert s[..|x|] == x && s[..|y|] == y && s[|x| + 1..] == a && s[|y| + 1..] == b;
  }

  // ---- keys ----------------------------------------------------------------------

  function Key(ns: string, kind: Kind, scope: string, snapshot: string, identity: string): string {
    ns + ":" + (kind.Text() + ":" + (scope + ":" + (snapshot + ":" + identity)))
  }

  function SnapshotText(snapshot: Option<int>): (r: string)
    ensures ':' !in r
  {
    if snapshot.None? then "current" else IntText(snapshot.value)
  }

  /** The identity of a byte range of a path. */
  function RangeIdentity(path: string, from: nat, to: nat): string {
    path + "#" + (Decimal(from) + "-" + Decimal(to))
  }

  /** The text could be a range of some path. */
  ghost predicate IsRange(identity: string) {
    exists path, from, to :: identity == RangeIdentity(path, from, to)
  }

  lemma {:induction false} RangeInjective(p: string, a: nat, b: nat, q: string, c: nat, d: nat)
    requires RangeIdentity(p, a, b) == RangeIdentity(q, c, d)
    ensures p == q && a == c && b == d
  {
    LastSeparator('#', p, Decimal(a) + "-" + Decimal(b), q, Decimal(c) + "-" + Decimal(d));
    FirstSeparator('-', Decimal(a), Decimal(b), Decimal(c), Decimal(d));
    DecimalInjective(a, c);
    DecimalInjective(b, d);
  }

  /** Only paths with a `#` can be mistaken for ranges. */
  lemma {:induction false} PlainPath(path: string)
    requires '#' !in path
    ensures !IsRange(path)
  {
    forall p, a, b ensures path != RangeIdentity(p, a, b) {
      assert RangeIdentity(p, a, b)[|p|] == '#';
    }
  }

  /** Under one namespace and scope a key determines kind, snapshot and identity. */
  lemma {:induction false} KeyInjective(ns: string, scope: string, k: Kind, t: string, id: string, l: Kind, u: string, jd: string)
    requires ':' !in t && ':' !in u && Key(ns, k, scope, t, id) == Key(ns, l, scope, u, jd)
    ensures k.Text() == l.Text() && t == u && id == jd
  {
    hide Kind.Text;
    var x, y := scope + ":" + (t + ":" + id), scope + ":" + (u + ":" + jd);
    SamePrefix(ns + ":", k.Text() + ":" + x, l.Text() + ":" + y);
    NoColon(k);
    NoColon(l);
    FirstSeparator(':', k.Text(), x, l.Text(), y);
    SamePrefix(scope + ":", t + ":" + id, u + ":" + jd);
    FirstSeparator(':', t, id, u, jd);
  }

  lemma {:induction false} NoColon(k: Kind)
    ensures ':' !in k.Text()
  {
  }

  /** Every key of a scope carries the scope's marker and ends with its identity. */
  lemma {:induction false} KeyShape(ns: string, k: Kind, scope: string, t: string, id: string)
    ensures Contains(Key(ns, k, scope, t, id), ":" + scope + ":")
    ensures EndsWith(Key(ns, k, scope, t, id), id)
  {
    hide Kind.Text;
    var key := Key(ns, k, scope, t, id);
    var head := ns + ":" + k.Text();
    var marker := ":" + scope + ":";
    assert key == head + marker + (t + ":" + id);
    assert FoundAt(key, marker, |head|);
    assert key == head + marker + t + ":" + id;
  }

  // ---- which paths are cached, and how -------------------------------------------

  predicate Cacheable(path: string) {
    !(|| Contains(path, "ailake-serve")
      || Contains(path, "ailake-jobs")
      || Contains(path, "ailake_jobs")
      || Contains(path, "index-jobs")
      || EndsWith(path, ".lock")
      || EndsWith(path, ".cancel"))
  }

  function KindOf(path: string): Kind {
    if StartsWith(path, "metadata/") && !Contains(path, "manifest") then Metadata else Index
  }

  /** The text occurs in `s`, said by concatenation. */
  ghost predicate Occurs(s: string, part: string) {
    exists a: string, b: string :: s == a + part + b
  }

  lemma {:induction false} OccursExactly(s: string, part: string)
    ensures Contains(s, part) <==> Occurs(s, part)
  {
    if i: nat :| i <= |s| && FoundAt(s, part, i) {
      assert s == s[..i] + part + s[i + |part|..];
    }
    if a: string, b: string :| s == a + part + b {
      assert FoundAt(s, part, |a|);
    }
  }

  lemma {:induction false} EndsExactly(s: string, part: string)
    ensures EndsWith(s, part) <==> exists a: string :: s == a + part
  {
    if EndsWith(s, part) {
      assert s == s[..|s| - |part|] + part;
    }
    if a: string :| s == a + part {
      assert s[|s| - |part|..] == part;
    }
  }

  /** Paths below `metadata/` that are no manifests are of the metadata kind, all others of the
      index kind; coordination files of servers and jobs are not cached at all. */
  lemma {:induction false} PathClasses(path: string)
    ensures KindOf(path) == Metadata <==> (exists rest: string :: path == "metadata/" + rest) && !Occurs(path, "manifest")
    ensures KindOf(path) != Metadata ==> KindOf(path) == Index
    ensures !Cacheable(path) <==>
      || Occurs(path, "ailake-serve") || Occurs(path, "ailake-jobs") || Occurs(path, "ailake_jobs") || Occurs(path, "index-jobs")
      || (exists a: string :: path == a + ".lock") || (exists a: string :: path == a + ".cancel")
  {
    hide Contains, Occurs, EndsWith;
    OccursExactly(path, "manifest");
    OccursExactly(path, "ailake-serve");
    OccursExactly(path, "ailake-jobs");
    OccursExactly(path, "ailake_jobs");
    OccursExactly(path, "index-jobs");
    EndsExactly(path, ".lock");
    EndsExactly(path, ".cancel");
    if StartsWith(path, "metadata/") {
      assert path == "metadata/" + path[|"metadata/"|..];
    }
  }

  lemma {:induction false} SliceOfSlice(s: string, from: nat, to: nat, p: nat, q: nat)
    requires from <= to <= |s| && p <= q <= to - from
    ensures s[from..to][p..q] == s[from + p..from + q]
  {
    var l, r := s[from..to][p..q], s[from + p..from + q];
    forall k | 0 <= k < |r| ensures l[k] == r[k] {
      assert l[k] == s[from..to][p + k];
    }
  }

  lemma {:induction false} FoundInside(s: string, x: string, i: nat, from: nat, to: nat)
    requires from <= i && i + |x| <= to <= |s|
    ensures FoundAt(s[from..to], x, i - from) <==> FoundAt(s, x, i)
  {
    SliceOfSlice(s, from, to, i - from, i - from + |x|);
  }

  /** An occurrence of `:part:` is before the field between two colons, exactly the field, or
      after it. */
  lemma {:induction false} OneField(s: string, part: string, i: nat, a: nat, b: nat)
    requires ':' !in part && FoundAt(s, ":" + part + ":", i)
    requires a < b < |s| && s[a] == ':' && s[b] == ':' && ':' !in s[a + 1..b]
    ensures i + |part| + 2 <= a + 1 || (i == a && s[a + 1..b] == part) || b <= i
  {
    var e, found := i + |part| + 1, s[i..i + |part| + 2];
    assert s[i] == found[0] == ':' && s[e] == found[|part| + 1] == ':';
    forall p | i < p < e ensures s[p] != ':' {
      assert s[p] == found[p - i] == part[p - i - 1];
    }
    forall p | a < p < b ensures s[p] != ':' {
      assert s[p] == s[a + 1..b][p - a - 1];
    }
    if i == a && e == b {
      assert s[a + 1..b] == found[1..|part| + 1] == part;
    }
  }

  lemma {:induction false} ContainsWider(s: string, x: string, from: nat, to: nat)
    requires from <= to <= |s| && Contains(s[from..to], x)
    ensures Contains(s, x)
  {
    var inner := s[from..to];
    var i: nat :| i <= |inner| && FoundAt(inner, x, i);
    FoundInside(s, x, from + i, from, to);
  }

  /** Where `:part:` can be found in a text with a field between two colons. */
  lemma {:induction false} FieldBetweenColons(s: string, part: string, a: nat, b: nat)
    requires ':' !in part && a < b < |s| && s[a] == ':' && s[b] == ':' && ':' !in s[a + 1..b]
    ensures Contains(s, ":" + part + ":") <==>
      s[a + 1..b] == part || Contains(s[0..a + 1], ":" + part + ":") || Contains(s[b..|s|], ":" + part + ":")
  {
    var x := ":" + part + ":";
    if Contains(s, x) {
      var i: nat :| i <= |s| && FoundAt(s, x, i);
      OneField(s, part, i, a, b);
      if i + |x| <= a + 1 {
        FoundInside(s, x, i, 0, a + 1);
      } else if b <= i {
        FoundInside(s, x, i, b, |s|);
      }
    } else {
      if s[a + 1..b] == part {
        assert s[a..a + |x|] == [s[a]] + s[a + 1..b] + [s[b]];
        assert FoundAt(s, x, a);
      }
      if Contains(s[0..a + 1], x) {
        ContainsWider(s, x, 0, a + 1);
      }
      if Contains(s[b..|s|], x) {
        ContainsWider(s, x, b, |s|);
      }
    }
  }

  /** A snapshot text in a key is found between its colons, or spelled elsewhere. */
  lemma {:induction false} SnapshotInKey(ns: string, k: Kind, scope: string, t: string, id: string, part: string)
    requires ':' !in t && ':' !in part
    ensures Contains(Key(ns, k, scope, t, id), ":" + part + ":") <==>
      t == part || Contains(ns + ":" + k.Text() + ":" + scope + ":", ":" + part + ":") || Contains(":" + id, ":" + part + ":")
  {
    hide Contains, Kind.Text;
    var key, head := Key(ns, k, scope, t, id), ns + ":" + k.Text() + ":" + scope;
    var a, b := |head|, |head| + 1 + |t|;
    assert key == head + ":" + t + (":" + id);
    assert key[a + 1..b] == t && key[0..a + 1] == head + ":" && key[b..|key|] == ":" + id;
    FieldBetweenColons(key, part, a, b);
  }

  lemma {:induction false} ScopeInKey(ns: string, k: Kind, scope: string, t: string, id: string)
    ensures Contains(Key(ns, k, scope, t, id), scope + ":")
  {
    hide Kind.Text;
    var key, head := Key(ns, k, scope, t, id), ns + ":" + k.Text() + ":";
    assert key == head + (scope + ":") + (t + ":" + id);
    assert FoundAt(key, scope + ":", |head|);
  }
}
