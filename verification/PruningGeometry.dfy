/** Why pruning by centroid and radius is safe, and where it is not: graph files report the
    distance that the pruning test uses, quantised files report its square. */
module PruningGeometry {
  import opened TopK
  import opened VectorSearch
  import IvfPq
  import IvfPqSearch

  /** The pruning test: no centroid, or the near edge of the file's ball is within reach. */
  predicate Kept(f: DataFile, metric: Metric, q: Vector, threshold: real) {
    f.centroid == [] || metric(q, f.centroid) - f.radius <= threshold
  }

  /** The triangle inequality, among vectors of one dimension. */
  ghost predicate Triangle(metric: Metric, n: nat) {
    forall a, b, c :: |a| == n && |b| == n && |c| == n ==> metric(a, c) <= metric(a, b) + metric(b, c)
  }

  /** The metric is the Euclidean distance on vectors of one dimension. */
  ghost predicate Euclidean(metric: Metric, n: nat) {
    forall a, b :: |a| == n && |b| == n ==> metric(a, b) >= 0.0 && metric(a, b) * metric(a, b) == IvfPq.SqDist(a, b)
  }

  /** A quantised file that the pruning test can drop. */
  predicate PrunableQuantised(f: DataFile) {
    f.index.Quantised? && f.centroid != []
  }

  /** The ball of centroid and radius covers what the file's rows stand for: the stored
      vectors, or the reconstructed ones of a complete quantised index. */
  ghost predicate Covered(f: DataFile, metric: Metric, q: Vector) {
    f.centroid != [] ==>
      && |f.centroid| == |q|
      && (f.index.Quantised? ==> CoversEntries(f, metric, q))
      && (!f.index.Quantised? ==> CoversVectors(f, metric, q))
  }

  ghost predicate CoversVectors(f: DataFile, metric: Metric, q: Vector) {
    forall x :: 0 <= x < |f.vectors| ==> |f.vectors[x]| == |q| && metric(f.vectors[x], f.centroid) <= f.radius
  }

  ghost predicate CoversEntries(f: DataFile, metric: Metric, q: Vector)
    requires f.index.Quantised?
  {
    var ivf := f.index.ivf;
    && IvfPq.WellFormed(ivf, q)
    && forall e :: e in IvfPqSearch.AllEntries(ivf) ==> metric(IvfPq.Reconstructed(ivf, q, e), f.centroid) <= f.radius
  }

  /** Quantised files that can be pruned are measured by the Euclidean distance. */
  ghost predicate Measured(f: DataFile, metric: Metric, q: Vector) {
    PrunableQuantised(f) ==> Euclidean(metric, |q|)
  }

  /** The reported distance puts the row within the threshold of the pruning test. */
  predicate InReach(f: DataFile, dist: real, threshold: real) {
    if PrunableQuantised(f) then threshold >= 0.0 && dist <= threshold * threshold else dist <= threshold
  }

  function Mul(a: real, b: real): real {
    a * b
  }

  lemma {:induction false} Distributes(a: real, b: real, c: real)
    ensures Mul(b, c) == Mul(a, c) + Mul(b - a, c)
    ensures Mul(c, b) == Mul(c, a) + Mul(c, b - a)
  {
  }

  lemma {:induction false} Signs(a: real, b: real)
    requires a >= 0.0 && b >= 0.0
    ensures Mul(a, b) >= 0.0
    ensures a > 0.0 && b > 0.0 ==> Mul(a, b) > 0.0
  {
  }

  lemma {:induction false} SquaresIncrease(t: real, m: real)
    requires 0.0 <= t < m
    ensures Mul(t, t) < Mul(m, m)
  {
    hide Mul;
    Distributes(t, m, m);
    Signs(m - t, m);
    Distributes(t, m, t);
    Signs(t, m - t);
  }

  lemma {:induction false} SquaresOrder(m: real, t: real)
    requires m >= 0.0 && t >= 0.0 && m * m <= t * t
    ensures m <= t
  {
    if m > t {
      SquaresIncrease(t, m);
    }
  }

  /** A quantised row reports the square of its distance to the reconstructed vector. */
  lemma {:induction false} ReportsSquare(f: DataFile, metric: Metric, q: Vector, e: IvfPq.Entry)
    requires f.index.Quantised? && CoversEntries(f, metric, q) && Euclidean(metric, |q|)
    requires e in IvfPqSearch.AllEntries(f.index.ivf)
    ensures var m := metric(q, IvfPq.Reconstructed(f.index.ivf, q, e));
      m >= 0.0 && RowDist(f, metric, q, Cell(e)) == m * m
  {
    hide IvfPq.EntryDist, IvfPq.Reconstructed, IvfPq.WellFormed, IvfPq.SqDist;
    IvfPq.AdcIsSquaredDistance(f.index.ivf, q, e);
  }

  lemma {:induction false} EntryInReach(f: DataFile, metric: Metric, q: Vector, threshold: real, e: IvfPq.Entry)
    requires PrunableQuantised(f) && |f.centroid| == |q| && CoversEntries(f, metric, q)
    requires Triangle(metric, |q|) && Euclidean(metric, |q|)
    requires e in IvfPqSearch.AllEntries(f.index.ivf) && InReach(f, RowDist(f, metric, q, Cell(e)), threshold)
    ensures Kept(f, metric, q, threshold)
  {
    hide IvfPq.EntryDist, IvfPq.Reconstructed, IvfPq.WellFormed, IvfPq.SqDist, Euclidean, RowDist;
    var v := IvfPq.Reconstructed(f.index.ivf, q, e);
    ReportsSquare(f, metric, q, e);
    SquaresOrder(metric(q, v), threshold);
    assert metric(q, f.centroid) <= metric(q, v) + metric(v, f.centroid);
  }

  /** A file that holds a row in reach is never pruned. */
  lemma {:induction false} InReachIsKept(files: seq<DataFile>, i: nat, metric: Metric, q: Vector, threshold: real, row: Row)
    requires i < |files| && Triangle(metric, |q|) && Covered(files[i], metric, q) && Measured(files[i], metric, q)
    requires row in RowsOf(files, i) && InReach(files[i], Dist(files, metric, q)(row), threshold)
    ensures Kept(files[i], metric, q, threshold)
  {
    hide IvfPq.EntryDist, CoversEntries, IvfPqSearch.AllEntries, Euclidean;
    var f := files[i];
    if f.centroid != [] {
      if f.index.Quantised? {
        hide Triangle, Kept;
        EntryInReach(f, metric, q, threshold, row.1.entry);
      } else {
        var v := f.vectors[row.1.node];
        assert metric(q, f.centroid) <= metric(q, v) + metric(v, f.centroid);
      }
    }
  }

  /** The threshold means the same to the pruning test and to the reported distances. */
  predicate SafeThreshold(f: DataFile, threshold: real) {
    PrunableQuantised(f) ==> !(0.0 < threshold < 1.0)
  }

  /** With a safe threshold, a reported distance within the threshold is in reach. */
  lemma {:induction false} WithinIsInReach(files: seq<DataFile>, i: nat, metric: Metric, q: Vector, threshold: real, row: Row)
    requires i < |files| && Covered(files[i], metric, q) && Measured(files[i], metric, q)
    requires SafeThreshold(files[i], threshold)
    requires row in RowsOf(files, i) && Dist(files, metric, q)(row) <= threshold
    ensures InReach(files[i], Dist(files, metric, q)(row), threshold)
  {
    hide IvfPq.EntryDist, IvfPq.Reconstructed, IvfPq.WellFormed, IvfPq.SqDist, IvfPqSearch.AllEntries, Euclidean;
    var f := files[i];
    if PrunableQuantised(f) {
      ReportsSquare(f, metric, q, row.1.entry);
      assert threshold >= 0.0;
      assert threshold >= 1.0 ==> threshold <= threshold * threshold;
    }
  }

  /** A file that holds a row with a reported distance within the threshold is never pruned:
      any graph file, and a quantised file at any threshold outside `(0, 1)`. */
  lemma {:induction false} NeverPrunesAHit(files: seq<DataFile>, i: nat, metric: Metric, q: Vector, threshold: real, row: Row)
    requires i < |files| && Triangle(metric, |q|) && Covered(files[i], metric, q) && Measured(files[i], metric, q)
    requires SafeThreshold(files[i], threshold)
    requires row in RowsOf(files, i) && Dist(files, metric, q)(row) <= threshold
    ensures Kept(files[i], metric, q, threshold)
  {
    hide Covered, Measured, SafeThreshold, InReach, Kept, RowsOf, Dist, Triangle;
    WithinIsInReach(files, i, metric, q, threshold, row);
    InReachIsKept(files, i, metric, q, threshold, row);
  }

  // ---- thresholds between zero and one -------------------------------------------

  /** Distance on the line; zero on vectors of any other dimension. */
  function LineMetric(a: Vector, b: Vector): real {
    if |a| != 1 || |b| != 1 then 0.0
    else if a[0] >= b[0] then a[0] - b[0]
    else b[0] - a[0]
  }

  lemma {:induction false} LineIsEuclidean(a: Vector, b: Vector)
    requires |a| == 1 && |b| == 1
    ensures LineMetric(a, b) >= 0.0 && LineMetric(a, b) * LineMetric(a, b) == IvfPq.SqDist(a, b)
  {
    assert a[..0] == [];
    assert IvfPq.SqDist(a, b) == IvfPq.SqDist([], b) + IvfPq.Sq(a[0] - b[0]);
    var d := a[0] - b[0];
    assert (-d) * (-d) == d * d;
  }

  /** One vector at the origin of the line, as the only entry of a quantised file. */
  const ORIGIN_INDEX := IvfPq.Index(1, false, 1, [[0.0]], 1, 1, [[0.0]], [[7]], [[0]])
  const ORIGIN_FILE := DataFile("origin", "", [0.0], 0.0, [], Quantised(ORIGIN_INDEX), {})

  /** A query farther than `t` whose squared distance is at most `t`. */
  function Between(t: real): real
    requires 0.0 < t < 1.0
  {
    2.0 * t / (1.0 + t)
  }

  /** A product with a positive number has the sign of the other factor. */
  lemma {:induction false} Factor(a: real, b: real)
    requires b > 0.0
    ensures Mul(a, b) >= 0.0 ==> a >= 0.0
    ensures Mul(a, b) > 0.0 ==> a > 0.0
  {
    if a <= 0.0 {
      Signs(-a, b);
      assert Mul(-a, b) == -Mul(a, b);
    }
  }

  lemma {:induction false} BetweenFacts(t: real)
    requires 0.0 < t < 1.0
    ensures Between(t) > t && Mul(Between(t), Between(t)) <= t
  {
    hide Mul, Between;
    var s, x := 1.0 + t, Between(t);
    BetweenIdentities(t);
    Signs(t, 1.0 - t);
    Factor(x - t, s);
    Signs(1.0 - t, 1.0 - t);
    Signs(t, Mul(1.0 - t, 1.0 - t));
    Signs(s, s);
    Factor(t - Mul(x, x), Mul(s, s));
  }

  lemma {:induction false} BetweenIdentities(t: real)
    requires 0.0 < t < 1.0
    ensures var s, x := 1.0 + t, Between(t);
      && Mul(x - t, s) == Mul(t, 1.0 - t)
      && Mul(t - Mul(x, x), Mul(s, s)) == Mul(t, Mul(1.0 - t, 1.0 - t))
  {
    var s, x := 1.0 + t, Between(t);
    assert x * s == 2.0 * t;
    assert (x * x) * (s * s) == (x * s) * (x * s);
    assert t * (s * s) - (2.0 * t) * (2.0 * t) == t * ((1.0 - t) * (1.0 - t));
  }

  lemma {:induction false} OriginIndex(q: Vector)
    requires |q| == 1
    ensures IvfPq.WellFormed(ORIGIN_INDEX, q) && IvfPqSearch.AllEntries(ORIGIN_INDEX) == {(0, 0)}
    ensures IvfPq.Reconstructed(ORIGIN_INDEX, q, (0, 0)) == [0.0]
  {
    assert ORIGIN_INDEX.SubDim() == 1;
    assert Nodes(1) == {0} by { assert Nodes(0) == {}; }
    assert IvfPq.WellFormed(ORIGIN_INDEX, q);
    forall e ensures e in IvfPqSearch.AllEntries(ORIGIN_INDEX) <==> e == (0, 0) {
      assert ORIGIN_INDEX.IsEntry(e) ==> e == (0, 0);
    }
    var e: IvfPq.Entry := (0, 0);
    IvfPq.EntryCodesInRange(ORIGIN_INDEX, q, e);
    var code := IvfPq.CodesOf(ORIGIN_INDEX, e);
    assert code == [0];
    assert IvfPq.Decoded(ORIGIN_INDEX, q, code, 0) == [];
    assert IvfPq.Decoded(ORIGIN_INDEX, q, code, 1) == [] + [0.0];
  }

  /** For every threshold strictly between zero and one, the default of 0.8 included, there is
      a covered quantised file with a row whose reported distance is within the threshold, and
      yet the file is pruned. */
  lemma {:induction false} SquaredThresholdWitness(t: real)
    requires 0.0 < t < 1.0
    ensures var q := [Between(t)];
      && Triangle(LineMetric, 1) && Euclidean(LineMetric, 1) && Covered(ORIGIN_FILE, LineMetric, q)
      && (0, Cell((0, 0))) in RowsOf([ORIGIN_FILE], 0)
      && Dist([ORIGIN_FILE], LineMetric, q)((0, Cell((0, 0)))) <= t
      && !Kept(ORIGIN_FILE, LineMetric, q, t)
  {
    hide IvfPq.EntryDist, IvfPq.Reconstructed, IvfPq.WellFormed, IvfPq.SqDist, IvfPqSearch.AllEntries, Between;
    hide Triangle, Euclidean, Covered;
    var q := [Between(t)];
    LineGeometry();
    OriginCovered(q);
    OriginIndex(q);
    BetweenFacts(t);
    ReportsSquare(ORIGIN_FILE, LineMetric, q, (0, 0));
    assert LineMetric(q, [0.0]) == Between(t);
  }

  lemma {:induction false} LineGeometry()
    ensures Triangle(LineMetric, 1) && Euclidean(LineMetric, 1)
  {
    hide IvfPq.SqDist;
    forall a, b | |a| == 1 && |b| == 1
      ensures LineMetric(a, b) >= 0.0 && LineMetric(a, b) * LineMetric(a, b) == IvfPq.SqDist(a, b)
    {
      LineIsEuclidean(a, b);
    }
  }

  lemma {:induction false} OriginCovered(q: Vector)
    requires |q| == 1
    ensures CoversEntries(ORIGIN_FILE, LineMetric, q) && Covered(ORIGIN_FILE, LineMetric, q)
  {
    hide IvfPq.Reconstructed, IvfPq.WellFormed, IvfPqSearch.AllEntries;
    OriginIndex(q);
    assert LineMetric([0.0], [0.0]) == 0.0;
  }

  /** Everything the safety of pruning assumes of a quantised file, a query and a row. */
  ghost predicate QuantisedHit(f: DataFile, metric: Metric, q: Vector, e: IvfPq.Entry, t: real) {
    && PrunableQuantised(f) && Triangle(metric, |q|) && Euclidean(metric, |q|) && Covered(f, metric, q)
    && e in IvfPqSearch.AllEntries(f.index.ivf) && RowDist(f, metric, q, Cell(e)) <= t
  }

  /** At threshold `t` no quantised file with a row within the threshold is ever pruned. */
  ghost predicate QuantisedPruningSafe(t: real) {
    forall f, metric, q, e :: QuantisedHit(f, metric, q, e, t) ==> Kept(f, metric, q, t)
  }

  /** That is the case exactly for thresholds outside `(0, 1)`. */
  lemma {:induction false} SafeThresholds(t: real)
    ensures QuantisedPruningSafe(t) <==> !(0.0 < t < 1.0)
  {
    hide IvfPq.EntryDist, IvfPqSearch.AllEntries, Covered, Triangle, Euclidean, RowDist;
    if 0.0 < t < 1.0 {
      SquaredThresholdWitness(t);
      assert QuantisedHit(ORIGIN_FILE, LineMetric, [Between(t)], (0, 0), t);
    } else {
      forall f, metric, q, e | QuantisedHit(f, metric, q, e, t) ensures Kept(f, metric, q, t) {
        NeverPrunesAHit([f], 0, metric, q, t, (0, Cell(e)));
      }
    }
  }
}
