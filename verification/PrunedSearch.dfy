/** Pruning and merging: which files a search reads, and when the merged list is the true
    top-K of the whole table. */
module PrunedSearch {
  import opened Wrappers
  import opened TopK
  import opened Sorting
  import opened VectorSearch
  import opened PruningGeometry

  // ---- which files are read ------------------------------------------------------

  predicate Matches(f: DataFile, filter: string) {
    filter == "" || f.partitionValue == filter
  }

  /** `chosen` lists the files that satisfy `p`, in order. */
  ghost predicate Listing(files: seq<DataFile>, chosen: seq<nat>, p: nat -> bool) {
    && (forall i :: 0 <= i < |chosen| ==> chosen[i] < |files| && p(chosen[i]))
    && (forall i, j :: 0 <= i < j < |chosen| ==> chosen[i] < chosen[j])
    && (forall x: nat :: x < |files| && p(x) ==> x in chosen)
  }

  method FilterPartition(files: seq<DataFile>, filter: string) returns (chosen: seq<nat>)
    ensures Listing(files, chosen, (i: nat) => i < |files| && Matches(files[i], filter))
  {
    chosen := [];
    for i := 0 to |files|
      invariant forall j :: 0 <= j < |chosen| ==> chosen[j] < i && Matches(files[chosen[j]], filter)
      invariant forall j, k :: 0 <= j < k < |chosen| ==> chosen[j] < chosen[k]
      invariant forall x: nat :: x < i && Matches(files[x], filter) ==> x in chosen
    {
      if filter == "" || files[i].partitionValue == filter {
        chosen := chosen + [i];
      }
    }
  }

  /** Keeps the files the pruning test cannot rule out. */
  method Prune(files: seq<DataFile>, chosen: seq<nat>, metric: Metric, q: Vector, threshold: real)
    returns (survivors: seq<nat>)
    requires forall i :: 0 <= i < |chosen| ==> chosen[i] < |files|
    requires forall i, j :: 0 <= i < j < |chosen| ==> chosen[i] < chosen[j]
    ensures Listing(files, survivors, (i: nat) => i < |files| && i in chosen && Kept(files[i], metric, q, threshold))
  {
    survivors := [];
    for i := 0 to |chosen|
      invariant forall j :: 0 <= j < |survivors| ==>
        survivors[j] in chosen[..i] && Kept(files[survivors[j]], metric, q, threshold)
      invariant forall j, k :: 0 <= j < k < |survivors| ==> survivors[j] < survivors[k]
      invariant forall x :: x in chosen[..i] && Kept(files[x], metric, q, threshold) ==> x in survivors
    {
      var f := files[chosen[i]];
      assert forall j :: 0 <= j < |survivors| ==> survivors[j] < chosen[i];
      if f.centroid == [] {
        survivors := survivors + [chosen[i]];
      } else {
        var d := metric(q, f.centroid);
        var edge := d - f.radius;
        if edge <= threshold {
          survivors := survivors + [chosen[i]];
        }
      }
      assert chosen[..i + 1] == chosen[..i] + [chosen[i]];
    }
    assert chosen[..|chosen|] == chosen;
  }

  // ---- rows of several files -----------------------------------------------------

  lemma {:induction false} RowsIn(files: seq<DataFile>, chosen: seq<nat>, row: Row)
    requires forall i :: 0 <= i < |chosen| ==> chosen[i] < |files|
    ensures row in RowsOfAll(files, chosen) <==> row.0 in chosen && row.0 < |files| && row in RowsOf(files, row.0)
    decreases |chosen|
  {
    if chosen != [] {
      var n := |chosen| - 1;
      assert chosen == chosen[..n] + [chosen[n]];
      RowsIn(files, chosen[..n], row);
      RowsTagged(files, chosen[n], row);
    }
  }

  lemma {:induction false} RowsTagged(files: seq<DataFile>, i: nat, row: Row)
    requires i < |files|
    ensures row in RowsOf(files, i) ==> row.0 == i
  {
  }

  /** What the safety of pruning needs to know about the files of the partition. */
  ghost predicate Geometry(files: seq<DataFile>, chosen: seq<nat>, metric: Metric, q: Vector) {
    && Triangle(metric, |q|)
    && forall i :: i in chosen && i < |files| ==> Covered(files[i], metric, q) && Measured(files[i], metric, q)
  }

  /** The rows that survive pruning include every row in reach. */
  lemma {:induction false} HitsSurvive(
    files: seq<DataFile>, chosen: seq<nat>, survivors: seq<nat>, metric: Metric, q: Vector, threshold: real, row: Row)
    requires Geometry(files, chosen, metric, q)
    requires forall i :: 0 <= i < |chosen| ==> chosen[i] < |files|
    requires Listing(files, survivors, (i: nat) => i < |files| && i in chosen && Kept(files[i], metric, q, threshold))
    requires row in RowsOfAll(files, chosen)
    requires row.0 < |files| ==> InReach(files[row.0], Dist(files, metric, q)(row), threshold)
    ensures row in RowsOfAll(files, survivors)
  {
    hide Covered, Measured, InReach, Triangle, Kept, RowsOf, RowsOfAll, Dist;
    RowsIn(files, chosen, row);
    InReachIsKept(files, row.0, metric, q, threshold, row);
    RowsIn(files, survivors, row);
  }

  lemma {:induction false} SurvivorsAreRows(files: seq<DataFile>, chosen: seq<nat>, survivors: seq<nat>)
    requires forall i :: 0 <= i < |chosen| ==> chosen[i] < |files|
    requires forall i :: 0 <= i < |survivors| ==> survivors[i] < |files| && survivors[i] in chosen
    ensures RowsOfAll(files, survivors) <= RowsOfAll(files, chosen)
  {
    hide RowsOf, RowsOfAll;
    forall row | row in RowsOfAll(files, survivors) ensures row in RowsOfAll(files, chosen) {
      RowsIn(files, survivors, row);
      RowsIn(files, chosen, row);
    }
  }

  // ---- merging -------------------------------------------------------------------

  function Flat<T>(parts: seq<seq<Hit<T>>>): seq<Hit<T>> {
    if parts == [] then [] else Flat(parts[..|parts| - 1]) + parts[|parts| - 1]
  }

  /** One list per survivor, each the hits its file's search returned. */
  ghost predicate PerFile(files: seq<DataFile>, survivors: seq<nat>, parts: seq<seq<Hit<Row>>>, d: Row -> real) {
    && |parts| == |survivors|
    && (forall i :: 0 <= i < |survivors| ==> survivors[i] < |files|)
    && (forall i, j :: 0 <= i < j < |survivors| ==> survivors[i] < survivors[j])
    && (forall i :: 0 <= i < |parts| ==> HitsOf(parts[i], RowsOf(files, survivors[i]), d))
  }

  lemma {:induction false} PrefixPerFile(files: seq<DataFile>, survivors: seq<nat>, parts: seq<seq<Hit<Row>>>, d: Row -> real)
    requires PerFile(files, survivors, parts, d) && parts != []
    ensures PerFile(files, survivors[..|parts| - 1], parts[..|parts| - 1], d)
  {
    hide HitsOf, RowsOf;
  }

  lemma {:induction false} LastFileDisjoint(files: seq<DataFile>, survivors: seq<nat>)
    requires survivors != [] && forall i :: 0 <= i < |survivors| ==> survivors[i] < |files|
    requires forall i, j :: 0 <= i < j < |survivors| ==> survivors[i] < survivors[j]
    ensures RowsOfAll(files, survivors[..|survivors| - 1]) !! RowsOf(files, survivors[|survivors| - 1])
  {
    hide RowsOf, RowsOfAll;
    var n := |survivors| - 1;
    forall row | row in RowsOf(files, survivors[n]) ensures row !in RowsOfAll(files, survivors[..n]) {
      RowsTagged(files, survivors[n], row);
      RowsIn(files, survivors[..n], row);
    }
  }

  lemma {:induction false} FlatHits(files: seq<DataFile>, survivors: seq<nat>, parts: seq<seq<Hit<Row>>>, d: Row -> real)
    requires PerFile(files, survivors, parts, d)
    ensures HitsOf(Flat(parts), RowsOfAll(files, survivors), d)
    decreases |parts|
  {
    hide HitsOf, RowsOf, PerFile;
    if parts == [] {
      NoHits({}, d);
      assert |survivors| == 0 by { SameLength(files, survivors, parts, d); }
    } else {
      SameLength(files, survivors, parts, d);
      var n := |parts| - 1;
      PrefixPerFile(files, survivors, parts, d);
      FlatHits(files, survivors[..n], parts[..n], d);
      LastFileDisjoint(files, survivors);
      ConcatHits(Flat(parts[..n]), RowsOfAll(files, survivors[..n]), parts[n], RowsOf(files, survivors[n]), d);
    }
  }

  lemma {:induction false} SameLength(files: seq<DataFile>, survivors: seq<nat>, parts: seq<seq<Hit<Row>>>, d: Row -> real)
    requires PerFile(files, survivors, parts, d)
    ensures |parts| == |survivors|
    ensures forall i :: 0 <= i < |survivors| ==> survivors[i] < |files|
    ensures forall i, j :: 0 <= i < j < |survivors| ==> survivors[i] < survivors[j]
    ensures forall i :: 0 <= i < |parts| ==> HitsOf(parts[i], RowsOf(files, survivors[i]), d)
  {
  }

  /** Merging exact per-file answers gives the exact answer over all their rows; `rest` are
      rows merged alongside. */
  lemma {:induction false} MergeExact(
    files: seq<DataFile>, survivors: seq<nat>, parts: seq<seq<Hit<Row>>>, d: Row -> real, k: nat,
    r: seq<Hit<Row>>, rest: set<Row>)
    requires PerFile(files, survivors, parts, d)
    requires forall i :: 0 <= i < |parts| ==> TopOf(parts[i], RowsOf(files, survivors[i]), d, k)
    requires rest !! RowsOfAll(files, survivors)
    requires TopOf(r, Ids(Flat(parts)) + rest, d, k)
    ensures TopOf(r, RowsOfAll(files, survivors) + rest, d, k)
    decreases |parts|
  {
    hide HitsOf, TopOf, RowsOf, PerFile;
    SameLength(files, survivors, parts, d);
    if parts == [] {
      assert Ids(Flat(parts)) == {};
      assert Ids(Flat(parts)) + rest == RowsOfAll(files, survivors) + rest;
    } else {
      var n := |parts| - 1;
      var front, last := parts[..n], parts[n];
      var frontRows, lastRows := RowsOfAll(files, survivors[..n]), RowsOf(files, survivors[n]);
      PrefixPerFile(files, survivors, parts, d);
      LastFileDisjoint(files, survivors);
      ConcatIds(Flat(front), last);
      TopSize(last, lastRows, d, k);
      FrontIds(files, survivors[..n], front, d);
      Regroup(Ids(Flat(front)), Ids(last), frontRows, lastRows, rest);
      PartByItsTop(last, lastRows, r, Ids(Flat(front)) + rest, d, k);
      MergeExact(files, survivors[..n], front, d, k, r, lastRows + rest);
    }
  }

  lemma {:induction false} Regroup(a: set<Row>, b: set<Row>, aRows: set<Row>, bRows: set<Row>, rest: set<Row>)
    requires a <= aRows && b <= bRows && aRows !! bRows && rest !! (aRows + bRows)
    ensures (a + b) + rest == b + (a + rest) && bRows !! (a + rest)
    ensures bRows + (a + rest) == a + (bRows + rest) && (bRows + rest) !! aRows
    ensures aRows + (bRows + rest) == (aRows + bRows) + rest
  {
  }

  lemma {:induction false} FrontIds(files: seq<DataFile>, survivors: seq<nat>, parts: seq<seq<Hit<Row>>>, d: Row -> real)
    requires PerFile(files, survivors, parts, d)
    ensures Ids(Flat(parts)) <= RowsOfAll(files, survivors)
  {
    hide PerFile, RowsOf;
    FlatHits(files, survivors, parts, d);
  }

  // ---- the whole search ----------------------------------------------------------

  /** Searches every survivor and keeps the lists apart for the record. */
  method SearchFiles(files: seq<DataFile>, survivors: seq<nat>, metric: Metric, q: Vector, opts: Options)
    returns (all: seq<Hit<Row>>, ghost parts: seq<seq<Hit<Row>>>)
    requires forall i :: 0 <= i < |files| ==> Consistent(files[i], q)
    requires forall i :: 0 <= i < |survivors| ==> survivors[i] < |files|
    requires forall i, j :: 0 <= i < j < |survivors| ==> survivors[i] < survivors[j]
    ensures HitsOf(all, RowsOfAll(files, survivors), Dist(files, metric, q))
    ensures PerFile(files, survivors, parts, Dist(files, metric, q)) && all == Flat(parts)
    ensures forall i :: 0 <= i < |parts| ==> FileAnswer(files, survivors[i], metric, q, opts, parts[i])
    ensures forall i :: 0 <= i < |parts| && ExactFile(files[survivors[i]], opts) ==>
      TopOf(parts[i], RowsOf(files, survivors[i]), Dist(files, metric, q), opts.TopK())
  {
    hide Consistent, HitsOf, TopOf, RowsOf, ExactFile, Dist, FileAnswer;
    ghost var d := Dist(files, metric, q);
    all, parts := [], [];
    for i := 0 to |survivors|
      invariant |parts| == i && all == Flat(parts)
      invariant forall j :: 0 <= j < i ==> HitsOf(parts[j], RowsOf(files, survivors[j]), d)
      invariant forall j :: 0 <= j < i ==> FileAnswer(files, survivors[j], metric, q, opts, parts[j])
      invariant forall j :: 0 <= j < i && ExactFile(files[survivors[j]], opts) ==>
        TopOf(parts[j], RowsOf(files, survivors[j]), d, opts.TopK())
    {
      var hits := SearchFile(files, survivors[i], metric, q, opts);
      assert (parts + [hits])[..i] == parts;
      all, parts := all + hits, parts + [hits];
    }
    FlatHits(files, survivors, parts, d);
  }

  /** The answer over the rows of the chosen files. */
  ghost predicate TrueTop(files: seq<DataFile>, chosen: seq<nat>, d: Row -> real, k: nat, g: seq<Hit<Row>>)
    requires forall i :: 0 <= i < |chosen| ==> chosen[i] < |files|
  {
    Sorted(g) && TopOf(g, RowsOfAll(files, chosen), d, k)
  }

  /** Every hit is in reach of the pruning test at this threshold. */
  ghost predicate Reachable(files: seq<DataFile>, g: seq<Hit<Row>>, threshold: real) {
    forall i :: 0 <= i < |g| && g[i].id.0 < |files| ==> InReach(files[g[i].id.0], g[i].dist, threshold)
  }

  ghost predicate Within(g: seq<Hit<Row>>, threshold: real) {
    forall i :: 0 <= i < |g| ==> g[i].dist <= threshold
  }

  /** A true answer in reach is also the answer over the survivors. */
  lemma {:induction false} AnswerSurvives(
    files: seq<DataFile>, chosen: seq<nat>, survivors: seq<nat>, metric: Metric, q: Vector, threshold: real, k: nat,
    g: seq<Hit<Row>>)
    requires Geometry(files, chosen, metric, q)
    requires forall i :: 0 <= i < |chosen| ==> chosen[i] < |files|
    requires Listing(files, survivors, (i: nat) => i < |files| && i in chosen && Kept(files[i], metric, q, threshold))
    requires TrueTop(files, chosen, Dist(files, metric, q), k, g) && Reachable(files, g, threshold)
    ensures TopOf(g, RowsOfAll(files, survivors), Dist(files, metric, q), k)
  {
    hide Geometry, InReach, Kept, RowsOf, RowsOfAll, Dist;
    var d := Dist(files, metric, q);
    var all, left := RowsOfAll(files, chosen), RowsOfAll(files, survivors);
    SurvivorsAreRows(files, chosen, survivors);
    forall row | row in Ids(g) ensures row in left {
      var i :| 0 <= i < |g| && g[i].id == row;
      HitsSurvive(files, chosen, survivors, metric, q, threshold, row);
    }
    TopSize(g, all, d, k);
    SubsetCard(Ids(g), left);
    SubsetCard(left, all);
  }

  /** The threshold is safe for every file of the partition: outside `(0, 1)`, or no quantised
      one can be pruned. */
  ghost predicate AllSafe(files: seq<DataFile>, chosen: seq<nat>, threshold: real) {
    forall i :: i in chosen && i < |files| ==> SafeThreshold(files[i], threshold)
  }

  lemma {:induction false} WithinIsReachable(
    files: seq<DataFile>, chosen: seq<nat>, metric: Metric, q: Vector, threshold: real, k: nat, g: seq<Hit<Row>>)
    requires Geometry(files, chosen, metric, q) && AllSafe(files, chosen, threshold)
    requires forall i :: 0 <= i < |chosen| ==> chosen[i] < |files|
    requires TrueTop(files, chosen, Dist(files, metric, q), k, g) && Within(g, threshold)
    ensures Reachable(files, g, threshold)
  {
    hide Covered, Measured, InReach, SafeThreshold, Triangle, RowsOf, RowsOfAll, Dist;
    forall i | 0 <= i < |g| && g[i].id.0 < |files| ensures InReach(files[g[i].id.0], g[i].dist, threshold) {
      var row := g[i].id;
      assert row in Ids(g);
      RowsIn(files, chosen, row);
      WithinIsInReach(files, row.0, metric, q, threshold, row);
    }
  }

  /** The searches of the surviving files are exact. */
  ghost predicate AllExact(files: seq<DataFile>, survivors: seq<nat>, opts: Options) {
    forall i :: 0 <= i < |survivors| && survivors[i] < |files| ==> ExactFile(files[survivors[i]], opts)
  }

  function PartitionTest(files: seq<DataFile>, opts: Options): nat -> bool {
    (i: nat) => i < |files| && (opts.partitionFilter == "" || files[i].partitionValue == opts.partitionFilter)
  }

  function PruneTest(files: seq<DataFile>, chosen: seq<nat>, metric: Metric, q: Vector, threshold: real): nat -> bool {
    (i: nat) => i < |files| && i in chosen && Kept(files[i], metric, q, threshold)
  }

  /** The merge: all hits sorted, the first `k` kept. */
  method Merge(all: seq<Hit<Row>>, k: nat, ghost s: set<Row>, ghost d: Row -> real) returns (hits: seq<Hit<Row>>)
    requires HitsOf(all, s, d)
    ensures Sorted(hits) && HitsOf(hits, s, d) && |hits| <= k && TopOf(hits, Ids(all), d, k)
  {
    hide TopOf, Sorted, HitsOf;
    hits := SortHits(all);
    OwnIds(all, s, d);
    SortAndTrim(all, hits, Ids(all), d, k);
    if |hits| > k {
      hits := hits[..k];
    }
    TopSize(hits, Ids(all), d, k);
    StillHits(hits, Ids(all), s, d, k);
  }

  lemma {:induction false} OwnIds(all: seq<Hit<Row>>, s: set<Row>, d: Row -> real)
    requires HitsOf(all, s, d)
    ensures AllOf(all, Ids(all), d) && Ids(all) <= s
  {
  }

  lemma {:induction false} StillHits(hits: seq<Hit<Row>>, t: set<Row>, s: set<Row>, d: Row -> real, k: nat)
    requires TopOf(hits, t, d, k) && t <= s
    ensures HitsOf(hits, s, d)
  {
  }

  method ReportHits(files: seq<DataFile>, hits: seq<Hit<Row>>, ghost survivors: seq<nat>, ghost d: Row -> real)
    returns (out: seq<Hit<(nat, string)>>)
    requires forall i :: 0 <= i < |survivors| ==> survivors[i] < |files|
    requires HitsOf(hits, RowsOfAll(files, survivors), d)
    ensures Reported(files, hits, out)
  {
    hide RowsOfAll, RowsOf, RowId;
    out := [];
    for i := 0 to |hits|
      invariant Reported(files, hits[..i], out)
    {
      assert hits[i].id in Ids(hits);
      RowsIn(files, survivors, hits[i].id);
      var f := files[hits[i].id.0];
      out := out + [Hit((RowId(f, hits[i].id.1), f.path), hits[i].dist)];
    }
    assert hits[..|hits|] == hits;
  }

  /** Each result carries the row id, the file path and the distance of its hit. */
  ghost predicate Reported(files: seq<DataFile>, hits: seq<Hit<Row>>, out: seq<Hit<(nat, string)>>) {
    && |out| == |hits|
    && forall i :: 0 <= i < |hits| ==>
         && hits[i].id.0 < |files|
         && out[i] == Hit((RowId(files[hits[i].id.0], hits[i].id.1), files[hits[i].id.0].path), hits[i].dist)
  }

  /** One part per surviving file, each what the search of that file contributes. */
  ghost predicate Parts(files: seq<DataFile>, survivors: seq<nat>, metric: Metric, q: Vector, opts: Options, parts: seq<seq<Hit<Row>>>) {
    && |parts| == |survivors|
    && forall i :: 0 <= i < |parts| ==>
         survivors[i] < |files| && FileAnswer(files, survivors[i], metric, q, opts, parts[i])
  }

  /** Filters by partition, prunes, searches each survivor and merges: the result is the top-K
      of the files' answers. Exact per-file searches make it exact over the survivors. If besides the triangle inequality holds
      and the balls cover their files, then whenever a true answer is in reach of the pruning
      test the result has exactly its distances; with a safe threshold that means whenever it
      lies within the threshold. */
  method Search(files: seq<DataFile>, tableDim: Option<nat>, metric: Metric, q: Vector, opts: Options)
    returns (out: Result<seq<Hit<(nat, string)>>>, ghost chosen: seq<nat>, ghost survivors: seq<nat>, ghost hits: seq<Hit<Row>>,
             ghost parts: seq<seq<Hit<Row>>>)
    requires forall i :: 0 <= i < |files| ==> Consistent(files[i], q)
    ensures out.Err? <==> tableDim.Some? && tableDim.value != |q|
    ensures out.Ok? ==> Listing(files, chosen, PartitionTest(files, opts))
    ensures out.Ok? ==>
      Listing(files, survivors, PruneTest(files, chosen, metric, q, if opts.threshold == 0.0 then 0.8 else opts.threshold))
    ensures out.Ok? ==> Reported(files, hits, out.value) && |hits| <= if opts.topK > 0 then opts.topK else 10
    ensures out.Ok? ==> Sorted(hits) && HitsOf(hits, RowsOfAll(files, survivors), Dist(files, metric, q))
    ensures out.Ok? ==> Parts(files, survivors, metric, q, opts, parts)
    ensures out.Ok? ==> TopOf(hits, Ids(Flat(parts)), Dist(files, metric, q), if opts.topK > 0 then opts.topK else 10)
    ensures out.Ok? && AllExact(files, survivors, opts) ==>
      TopOf(hits, RowsOfAll(files, survivors), Dist(files, metric, q), opts.TopK())
    ensures out.Ok? && AllExact(files, survivors, opts) && Geometry(files, chosen, metric, q) ==>
      forall g :: TrueTop(files, chosen, Dist(files, metric, q), opts.TopK(), g) && Reachable(files, g, opts.Threshold()) ==>
        Dists(hits) == Dists(g)
    ensures out.Ok? && AllExact(files, survivors, opts) && Geometry(files, chosen, metric, q) && AllSafe(files, chosen, opts.Threshold()) ==>
      forall g :: TrueTop(files, chosen, Dist(files, metric, q), opts.TopK(), g) && Within(g, opts.Threshold()) ==>
        Dists(hits) == Dists(g)
  {
    hide Consistent, HitsOf, TopOf, Sorted, RowsOf, RowsOfAll, Dist, PerFile, Kept, Geometry, Reported, ExactFile,
         TrueTop, Reachable, Within, AllSafe, FileAnswer;
    if tableDim.Some? && tableDim.value != |q| {
      return Err("query dimension does not match the table"), [], [], [], [];
    }
    var partitioned := FilterPartition(files, opts.partitionFilter);
    var kept := Prune(files, partitioned, metric, q, opts.Threshold());
    chosen, survivors := partitioned, kept;
    ghost var d := Dist(files, metric, q);
    var all;
    all, parts := SearchFiles(files, kept, metric, q, opts);
    SameLength(files, kept, parts, d);
    var merged := Merge(all, opts.TopK(), RowsOfAll(files, kept), d);
    hits := merged;
    var rows := ReportHits(files, merged, kept, d);
    out := Ok(rows);
    if AllExact(files, survivors, opts) {
      assert forall i :: 0 <= i < |kept| ==> ExactFile(files[kept[i]], opts);
      ExactMerge(files, kept, parts, d, opts.TopK(), merged);
      if Geometry(files, chosen, metric, q) {
        forall g | TrueTop(files, chosen, d, opts.TopK(), g) && Reachable(files, g, opts.Threshold())
          ensures Dists(hits) == Dists(g)
        {
          TrueTopSorted(files, chosen, d, opts.TopK(), g);
          AnswerSurvives(files, chosen, survivors, metric, q, opts.Threshold(), opts.TopK(), g);
          SameDistances(hits, g, RowsOfAll(files, survivors), d, opts.TopK());
        }
        if AllSafe(files, chosen, opts.Threshold()) {
          forall g | TrueTop(files, chosen, d, opts.TopK(), g) && Within(g, opts.Threshold())
            ensures Reachable(files, g, opts.Threshold())
          {
            WithinIsReachable(files, chosen, metric, q, opts.Threshold(), opts.TopK(), g);
          }
        }
      }
    }
  }

  lemma {:induction false} TrueTopSorted(files: seq<DataFile>, chosen: seq<nat>, d: Row -> real, k: nat, g: seq<Hit<Row>>)
    requires forall i :: 0 <= i < |chosen| ==> chosen[i] < |files|
    requires TrueTop(files, chosen, d, k, g)
    ensures Sorted(g)
  {
  }

  lemma {:induction false} ExactMerge(
    files: seq<DataFile>, survivors: seq<nat>, parts: seq<seq<Hit<Row>>>, d: Row -> real, k: nat, r: seq<Hit<Row>>)
    requires PerFile(files, survivors, parts, d)
    requires forall i :: 0 <= i < |parts| ==> TopOf(parts[i], RowsOf(files, survivors[i]), d, k)
    requires TopOf(r, Ids(Flat(parts)), d, k)
    ensures TopOf(r, RowsOfAll(files, survivors), d, k)
  {
    hide PerFile, TopOf, RowsOf, RowsOfAll;
    SameLength(files, survivors, parts, d);
    assert Ids(Flat(parts)) + {} == Ids(Flat(parts));
    MergeExact(files, survivors, parts, d, k, r, {});
    assert RowsOfAll(files, survivors) + {} == RowsOfAll(files, survivors);
  }
}
