/** IVF-PQ search over the reals: cells probed in order of centroid distance, and entries
    ranked by lookup-table distances. Distances from the query to the coarse centroids are
    a parameter, since the metric only decides the order of the cells. */
module IvfPq {
  type Vector = seq<real>

  /** An inverted-list entry: its cell and its position in the cell. */
  type Entry = (nat, nat)

  datatype Index = Index(
    nprobe: nat,
    residual: bool,
    dim: nat,
    coarse: seq<Vector>,
    m: nat,
    k: nat,
    centroids: seq<Vector>,  // [m * k][subDim]
    rowIds: seq<seq<nat>>,
    codes: seq<seq<nat>>)    // flat, stride m
  {
    function SubDim(): nat
      requires m >= 1
    {
      dim / m
    }

    function At(j: nat, c: nat): nat {
      j * k + c
    }

    /** The entry's codes lie inside the cell's code array. */
    predicate Fits(e: Entry) {
      e.0 < |codes| && (e.1 + 1) * m <= |codes[e.0]|
    }

    predicate IsEntry(e: Entry) {
      e.0 < |rowIds| && e.1 < |rowIds[e.0]| && Fits(e)
    }
  }

  /** What the search needs in order not to fail on an index and a query. */
  predicate Searchable(idx: Index, q: Vector) {
    && idx.m >= 1 && idx.m * idx.SubDim() <= |q|
    && (forall i :: 0 <= i < |idx.centroids| ==> idx.SubDim() <= |idx.centroids[i]|)
    && |idx.coarse| <= |idx.rowIds| && |idx.coarse| <= |idx.codes|
    && (idx.residual ==> forall i :: 0 <= i < |idx.coarse| ==> |q| <= |idx.coarse[i]|)
  }

  // ---- squared distances ---------------------------------------------------------

  function Sq(x: real): real {
    x * x
  }

  function SqDist(a: Vector, b: Vector): real
    requires |a| <= |b|
  {
    if a == [] then 0.0 else SqDist(a[..|a| - 1], b) + Sq(a[|a| - 1] - b[|a| - 1])
  }

  function Minus(a: Vector, b: Vector): (r: Vector)
    requires |a| <= |b|
    ensures |r| == |a| && forall i :: 0 <= i < |a| ==> r[i] == a[i] - b[i]
  {
    seq(|a|, i requires 0 <= i < |a| => a[i] - b[i])
  }

  function Plus(a: Vector, b: Vector): (r: Vector)
    requires |b| <= |a|
    ensures |r| == |b| && forall i :: 0 <= i < |b| ==> r[i] == a[i] + b[i]
  {
    seq(|b|, i requires 0 <= i < |b| => a[i] + b[i])
  }

  lemma {:induction false} SqDistAgree(a: Vector, b: Vector, c: Vector)
    requires |a| <= |b| && |a| <= |c| && forall i :: 0 <= i < |a| ==> b[i] == c[i]
    ensures SqDist(a, b) == SqDist(a, c)
  {
    if a != [] {
      SqDistAgree(a[..|a| - 1], b, c);
    }
  }

  lemma {:induction false} SqDistConcat(a: Vector, x: Vector, b: Vector, y: Vector)
    requires |a| == |b| && |x| <= |y|
    ensures SqDist(a + x, b + y) == SqDist(a, b) + SqDist(x, y)
    decreases |x|
  {
    hide Sq;
    if x == [] {
      assert a + x == a;
      SqDistAgree(a, b + y, b);
    } else {
      var n := |x| - 1;
      SqDistConcat(a, x[..n], b, y);
      assert (a + x)[..|a| + n] == a + x[..n];
      assert (a + x)[|a| + n] == x[n] && (b + y)[|a| + n] == y[n];
    }
  }

  /** Subtracting the centroid from the query or adding it to the decoded vector is the same. */
  lemma {:induction false} ResidualShift(q: Vector, c: Vector, v: Vector)
    requires |q| <= |v| && |v| <= |c|
    ensures SqDist(Minus(q, c), v) == SqDist(q, Plus(c, v))
    decreases |q|
  {
    hide Sq;
    if q != [] {
      var n := |q| - 1;
      ResidualShift(q[..n], c, v);
      assert Minus(q, c)[..n] == Minus(q[..n], c);
      assert (q[n] - c[n]) - v[n] == q[n] - (c[n] + v[n]);
    }
  }

  method SqEuclidean(a: Vector, b: Vector) returns (sum: real)
    requires |a| <= |b|
    ensures sum == SqDist(a, b)
  {
    sum := 0.0;
    for i := 0 to |a|
      invariant sum == SqDist(a[..i], b)
    {
      var d := a[i] - b[i];
      assert a[..i + 1][..i] == a[..i];
      sum := sum + d * d;
    }
    assert a[..|a|] == a;
  }

  // ---- lookup tables -------------------------------------------------------------

  lemma {:induction false} SlicesFit(j: nat, m: nat, sub: nat)
    requires j < m
    ensures j * sub <= (j + 1) * sub <= m * sub
  {
  }

  function SubQuery(idx: Index, q: Vector, j: nat): (r: Vector)
    requires Searchable(idx, q) && j < idx.m
    ensures |r| == idx.SubDim()
  {
    SlicesFit(j, idx.m, idx.SubDim());
    q[j * idx.SubDim()..(j + 1) * idx.SubDim()]
  }

  /** The table entry for code `c` of sub-space `j`; zero where the codebook ends early. */
  function Lut(idx: Index, q: Vector, j: nat, c: nat): real
    requires Searchable(idx, q) && j < idx.m
  {
    if idx.At(j, c) < |idx.centroids| then SqDist(SubQuery(idx, q, j), idx.centroids[idx.At(j, c)]) else 0.0
  }

  /** Fills the table, one row per sub-space and one column per code. */
  method BuildADCTable(idx: Index, q: Vector) returns (lut: array2<real>)
    requires Searchable(idx, q)
    ensures fresh(lut) && lut.Length0 == idx.m && lut.Length1 == idx.k
    ensures forall j, c :: 0 <= j < idx.m && 0 <= c < idx.k ==> lut[j, c] == Lut(idx, q, j, c)
  {
    hide SqDist;
    lut := new real[idx.m, idx.k]((_, _) => 0.0);
    for j := 0 to idx.m
      invariant forall i, c :: 0 <= i < j && 0 <= c < idx.k ==> lut[i, c] == Lut(idx, q, i, c)
      invariant forall i, c :: j <= i < idx.m && 0 <= c < idx.k ==> lut[i, c] == 0.0
    {
      var qSub := SubQuery(idx, q, j);
      for c := 0 to idx.k
        invariant forall i, b :: 0 <= i < j && 0 <= b < idx.k ==> lut[i, b] == Lut(idx, q, i, b)
        invariant forall b :: 0 <= b < c ==> lut[j, b] == Lut(idx, q, j, b)
        invariant forall b :: c <= b < idx.k ==> lut[j, b] == 0.0
        invariant forall i, b :: j < i < idx.m && 0 <= b < idx.k ==> lut[i, b] == 0.0
      {
        if idx.At(j, c) < |idx.centroids| {
          var dist := SqEuclidean(qSub, idx.centroids[idx.At(j, c)]);
          lut[j, c] := dist;
        }
      }
    }
  }

  // ---- entry distances -----------------------------------------------------------

  /** The first `n` table lookups of a code; a code outside the table adds nothing. */
  function Adc(idx: Index, q: Vector, code: seq<nat>, n: nat): real
    requires Searchable(idx, q) && n <= idx.m && n <= |code|
  {
    if n == 0 then 0.0
    else Adc(idx, q, code, n - 1) + (if code[n - 1] < idx.k then Lut(idx, q, n - 1, code[n - 1]) else 0.0)
  }

  function CodesOf(idx: Index, e: Entry): (r: seq<nat>)
    requires idx.Fits(e)
    ensures |r| == idx.m
  {
    assert e.1 * idx.m + idx.m == (e.1 + 1) * idx.m;
    idx.codes[e.0][e.1 * idx.m..e.1 * idx.m + idx.m]
  }

  /** The query, relative to the cell's centroid when codes are residuals. */
  function QueryFor(idx: Index, q: Vector, cell: nat): (r: Vector)
    requires Searchable(idx, q) && cell < |idx.coarse|
    ensures Searchable(idx, r) && |r| == |q|
  {
    if idx.residual then Minus(q, idx.coarse[cell]) else q
  }

  function EntryDist(idx: Index, q: Vector, e: Entry): real {
    if Searchable(idx, q) && e.0 < |idx.coarse| && idx.Fits(e)
    then Adc(idx, QueryFor(idx, q, e.0), CodesOf(idx, e), idx.m)
    else 0.0
  }

  /** A complete index: the codebook has every centroid, at the right length, and codes
      stay inside it. */
  predicate WellFormed(idx: Index, q: Vector) {
    && Searchable(idx, q)
    && idx.dim == idx.m * idx.SubDim() == |q|
    && |idx.centroids| == idx.m * idx.k
    && (forall i :: 0 <= i < |idx.centroids| ==> |idx.centroids[i]| == idx.SubDim())
    && (forall i, p :: 0 <= i < |idx.codes| && 0 <= p < |idx.codes[i]| ==> idx.codes[i][p] < idx.k)
  }

  lemma {:induction false} InCodebook(j: nat, c: nat, m: nat, k: nat)
    requires j < m && c < k
    ensures j * k + c < m * k
  {
    assert (j + 1) * k <= m * k;
  }

  predicate InRange(idx: Index, code: seq<nat>) {
    forall j :: 0 <= j < |code| ==> code[j] < idx.k
  }

  /** The vector the first `n` codes stand for. */
  function Decoded(idx: Index, q: Vector, code: seq<nat>, n: nat): (r: Vector)
    requires WellFormed(idx, q) && n <= idx.m && n <= |code| && InRange(idx, code)
    ensures |r| == n * idx.SubDim()
  {
    if n == 0 then []
    else
      InCodebook(n - 1, code[n - 1], idx.m, idx.k);
      assert (n - 1) * idx.SubDim() + idx.SubDim() == n * idx.SubDim();
      Decoded(idx, q, code, n - 1) + idx.centroids[idx.At(n - 1, code[n - 1])]
  }

  lemma {:induction false} AdcPrefix(idx: Index, q: Vector, code: seq<nat>, n: nat)
    requires WellFormed(idx, q) && n <= idx.m && n <= |code| && InRange(idx, code)
    ensures n * idx.SubDim() <= |q|
    ensures Adc(idx, q, code, n) == SqDist(q[..n * idx.SubDim()], Decoded(idx, q, code, n))
  {
    hide SqDist;
    var sub := idx.SubDim();
    assert n * sub <= idx.m * sub;
    if n == 0 {
      assert q[..0] == [];
      NoDistance();
    } else {
      AdcPrefix(idx, q, code, n - 1);
      InCodebook(n - 1, code[n - 1], idx.m, idx.k);
      var front, back := q[..(n - 1) * sub], SubQuery(idx, q, n - 1);
      var x := idx.centroids[idx.At(n - 1, code[n - 1])];
      assert q[..n * sub] == front + back;
      SqDistConcat(front, back, Decoded(idx, q, code, n - 1), x);
    }
  }

  lemma {:induction false} NoDistance()
    ensures SqDist([], []) == 0.0
  {
  }

  /** The vector an entry stands for: decoded codes, plus the cell centroid for residuals. */
  function Reconstructed(idx: Index, q: Vector, e: Entry): (r: Vector)
    requires WellFormed(idx, q) && e.0 < |idx.coarse| && idx.Fits(e)
    ensures |r| == |q|
  {
    EntryCodesInRange(idx, q, e);
    var v := Decoded(idx, QueryFor(idx, q, e.0), CodesOf(idx, e), idx.m);
    if idx.residual then Plus(idx.coarse[e.0], v) else v
  }

  lemma {:induction false} EntryCodesInRange(idx: Index, q: Vector, e: Entry)
    requires WellFormed(idx, q) && e.0 < |idx.coarse| && idx.Fits(e)
    ensures InRange(idx, CodesOf(idx, e)) && WellFormed(idx, QueryFor(idx, q, e.0))
  {
    var code := CodesOf(idx, e);
    forall j | 0 <= j < |code| ensures code[j] < idx.k {
      assert code[j] == idx.codes[e.0][e.1 * idx.m + j];
    }
  }

  /** The lookup-table distance of every entry is the squared Euclidean distance from the
      query to the vector the entry stands for, in plain and in residual mode. */
  lemma {:induction false} AdcIsSquaredDistance(idx: Index, q: Vector, e: Entry)
    requires WellFormed(idx, q) && e.0 < |idx.coarse| && idx.Fits(e)
    ensures EntryDist(idx, q, e) == SqDist(q, Reconstructed(idx, q, e))
  {
    hide SqDist, Adc, Decoded, Searchable;
    EntryCodesInRange(idx, q, e);
    var rq, code := QueryFor(idx, q, e.0), CodesOf(idx, e);
    AdcPrefix(idx, rq, code, idx.m);
    assert rq[..|rq|] == rq;
    if idx.residual {
      assert Searchable(idx, q) ==> |q| <= |idx.coarse[e.0]| by { CoarseLong(idx, q, e.0); }
      ResidualShift(q, idx.coarse[e.0], Decoded(idx, rq, code, idx.m));
    }
  }

  lemma {:induction false} CoarseLong(idx: Index, q: Vector, cell: nat)
    requires Searchable(idx, q) && idx.residual && cell < |idx.coarse|
    ensures |q| <= |idx.coarse[cell]|
  {
  }
}
