/** The files of a table as the search sees them, and the search of one file: by its index
    kind, then without the rows its deletion vector names. */
module VectorSearch {
  import opened Wrappers
  import opened TopK
  import opened Sorting
  import Hnsw
  import HnswSearch
  import IvfPq
  import IvfPqSearch

  type Vector = IvfPq.Vector
  type Metric = (Vector, Vector) -> real

  /** The index blob of a data file, if indexing is complete. */
  datatype FileIndex =
    | NotReady
    | Graph(hnsw: Hnsw.Index)
    | Quantised(ivf: IvfPq.Index)

  /** A data file: `vectors` are its stored vectors by node, `centroid` is empty when the
      catalog has none, and `deleted` is its deletion vector. */
  datatype DataFile = DataFile(
    path: string,
    partitionValue: string,
    centroid: Vector,
    radius: real,
    vectors: seq<Vector>,
    index: FileIndex,
    deleted: set<nat>)

  datatype Options = Options(topK: int, efSearch: int, threshold: real, partitionFilter: string) {
    function TopK(): nat {
      if topK <= 0 then 10 else topK
    }

    function Ef(): int {
      if efSearch > 0 then efSearch else TopK() * 5
    }

    function Threshold(): real {
      if threshold == 0.0 then 0.8 else threshold
    }
  }

  /** A row of a file: a graph node or an inverted-list entry. */
  datatype RowRef = Node(node: nat) | Cell(entry: IvfPq.Entry)

  /** A row of the table: the file's position in the listing, and the row. */
  type Row = (nat, RowRef)

  // ---- rows and distances --------------------------------------------------------

  /** The distance a file's index reports for one of its rows: to the stored vector, or the
      lookup-table distance of a quantised entry. */
  function RowDist(f: DataFile, metric: Metric, q: Vector, r: RowRef): real {
    match r
    case Node(x) => if x < |f.vectors| then metric(q, f.vectors[x]) else 0.0
    case Cell(e) => if f.index.Quantised? then IvfPq.EntryDist(f.index.ivf, q, e) else 0.0
  }

  function Dist(files: seq<DataFile>, metric: Metric, q: Vector): Row -> real {
    (row: Row) => if row.0 < |files| then RowDist(files[row.0], metric, q, row.1) else 0.0
  }

  /** The rows of file `i`. */
  function RowsOf(files: seq<DataFile>, i: nat): set<Row>
    requires i < |files|
  {
    if files[i].index.Quantised?
    then set e | e in IvfPqSearch.AllEntries(files[i].index.ivf) :: (i, Cell(e))
    else set x | x in Nodes(|files[i].vectors|) :: (i, Node(x))
  }

  function RowsOfAll(files: seq<DataFile>, chosen: seq<nat>): set<Row>
    requires forall i :: 0 <= i < |chosen| ==> chosen[i] < |files|
  {
    if chosen == [] then {}
    else RowsOfAll(files, chosen[..|chosen| - 1]) + RowsOf(files, chosen[|chosen| - 1])
  }

  function RowId(f: DataFile, r: RowRef): nat {
    match r
    case Node(x) => if f.index.Graph? && x < |f.index.hnsw.rowIds| then f.index.hnsw.rowIds[x] else 0
    case Cell(e) => if f.index.Quantised? && f.index.ivf.IsEntry(e) then f.index.ivf.rowIds[e.0][e.1] else 0
  }

  /** The index belongs to the file and can be searched with the query. */
  ghost predicate Consistent(f: DataFile, q: Vector) {
    match f.index
    case NotReady => true
    case Graph(h) => h.WellFormed() && |h.rowIds| == |f.vectors|
    case Quantised(ivf) => IvfPq.Searchable(ivf, q)
  }

  /** The file's search is exhaustive: a scan, a connected graph with a wide enough beam, or
      all cells probed; and nothing is deleted. */
  ghost predicate ExactFile(f: DataFile, opts: Options) {
    && f.deleted == {}
    && match f.index
       case NotReady => false
       case Graph(h) =>
         h.entry.Some? && h.neighbors != [] ==> HnswSearch.StronglyConnected(h) && opts.Ef() >= |h.rowIds|
       case Quantised(ivf) => IvfPqSearch.Probes(ivf, ivf.nprobe) == |ivf.coarse|
  }

  // ---- relabelling hits ----------------------------------------------------------

  function Relabel<T, U>(hs: seq<Hit<T>>, f: T -> U): (r: seq<Hit<U>>)
    ensures |r| == |hs| && forall i :: 0 <= i < |r| ==> r[i] == Hit(f(hs[i].id), hs[i].dist)
  {
    seq(|hs|, i requires 0 <= i < |hs| => Hit(f(hs[i].id), hs[i].dist))
  }

  /** `f` and `g` are inverse to each other between `s` and `t`, and keep distances. */
  ghost predicate Renames<T(!new), U(!new)>(s: set<T>, t: set<U>, f: T -> U, g: U -> T, d: T -> real, e: U -> real) {
    && (forall x :: x in s ==> f(x) in t && g(f(x)) == x && e(f(x)) == d(x))
    && (forall u :: u in t ==> g(u) in s && f(g(u)) == u)
  }

  lemma {:induction false} SameSize<T(!new), U(!new)>(s: set<T>, t: set<U>, f: T -> U, g: U -> T)
    requires forall x :: x in s ==> f(x) in t && g(f(x)) == x
    requires forall u :: u in t ==> g(u) in s && f(g(u)) == u
    ensures |s| == |t|
    decreases |s|
  {
    if s == {} {
      assert t == {};
    } else {
      var x :| x in s;
      SameSize(s - {x}, t - {f(x)}, f, g);
    }
  }

  lemma {:induction false} RelabelHits<T(!new), U(!new)>(
    hs: seq<Hit<T>>, s: set<T>, d: T -> real, t: set<U>, e: U -> real, f: T -> U, g: U -> T)
    requires HitsOf(hs, s, d) && Renames(s, t, f, g, d, e)
    ensures HitsOf(Relabel(hs, f), t, e)
  {
    var r := Relabel(hs, f);
    forall i | 0 <= i < |hs| ensures hs[i].id in s {
      assert hs[i].id in Ids(hs);
    }
    forall i, j | 0 <= i < j < |r| ensures r[i].id != r[j].id {
      assert g(r[i].id) == hs[i].id && g(r[j].id) == hs[j].id;
    }
    forall u | u in Ids(r) ensures u in t {
      var i :| 0 <= i < |r| && r[i].id == u;
    }
  }

  lemma {:induction false} RelabelTop<T(!new), U(!new)>(
    hs: seq<Hit<T>>, s: set<T>, d: T -> real, k: nat, t: set<U>, e: U -> real, f: T -> U, g: U -> T)
    requires Sorted(hs) && TopOf(hs, s, d, k) && Renames(s, t, f, g, d, e)
    ensures Sorted(Relabel(hs, f)) && TopOf(Relabel(hs, f), t, e, k)
  {
    RelabelHits(hs, s, d, t, e, f, g);
    SameSize(s, t, f, g);
    var r := Relabel(hs, f);
    forall u, i | u in t && u !in Ids(r) && 0 <= i < |r| ensures r[i].dist <= e(u) {
      assert g(u) !in Ids(hs);
      assert hs[i].dist <= d(g(u));
    }
  }

  // ---- one file ------------------------------------------------------------------

  function ToNode(i: nat): nat -> Row { (x: nat) => (i, Node(x)) }
  function FromNode(): Row -> nat { (r: Row) => if r.1.Node? then r.1.node else 0 }
  function ToCell(i: nat): IvfPq.Entry -> Row { (e: IvfPq.Entry) => (i, Cell(e)) }
  function FromCell(): Row -> IvfPq.Entry { (r: Row) => if r.1.Cell? then r.1.entry else (0, 0) }

  function NodeDist(f: DataFile, metric: Metric, q: Vector): nat -> real {
    (x: nat) => RowDist(f, metric, q, Node(x))
  }

  function CellDist(ivf: IvfPq.Index, metric: Metric, q: Vector): nat -> real {
    (c: nat) => if c < |ivf.coarse| then metric(q, ivf.coarse[c]) else 0.0
  }

  lemma {:induction false} NodeRenames(files: seq<DataFile>, i: nat, metric: Metric, q: Vector)
    requires i < |files| && !files[i].index.Quantised?
    ensures Renames(Nodes(|files[i].vectors|), RowsOf(files, i), ToNode(i), FromNode(),
                    NodeDist(files[i], metric, q), Dist(files, metric, q))
  {
    hide RowDist;
  }

  lemma {:induction false} CellRenames(files: seq<DataFile>, i: nat, metric: Metric, q: Vector)
    requires i < |files| && files[i].index.Quantised?
    ensures Renames(IvfPqSearch.AllEntries(files[i].index.ivf), RowsOf(files, i), ToCell(i), FromCell(),
                    IvfPqSearch.DistanceTo(files[i].index.ivf, q), Dist(files, metric, q))
  {
    hide IvfPqSearch.AllEntries, IvfPq.EntryDist;
  }

  /** The index search of the file reported these row ids and distances for the hits. */
  ghost predicate ReportedAs(f: DataFile, found: seq<Hit<Row>>, rows: seq<Hit<nat>>) {
    |rows| == |found| && forall k :: 0 <= k < |rows| ==> rows[k] == Hit(RowId(f, found[k].id.1), found[k].dist)
  }

  /** What the search of a graph finds: the `topK` nearest of what a beam of width `ef` visits
      from the end of the descent, or without a graph the `topK` nearest of all. */
  ghost predicate GraphAnswer(h: Hnsw.Index, d: nat -> real, topK: nat, ef: int, nodes: seq<Hit<nat>>) {
    if h.entry.Some? && h.neighbors != [] then
      exists visited, start, beam :: HnswSearch.Searched(h, d, topK, ef, nodes, visited, start, beam)
    else HnswSearch.Exact(h, d, topK, nodes)
  }

  /** A graph file: beam search when there is a graph, otherwise a scan. */
  method SearchGraph(files: seq<DataFile>, i: nat, metric: Metric, q: Vector, opts: Options)
    returns (hits: seq<Hit<Row>>, rows: seq<Hit<nat>>, ghost nodes: seq<Hit<nat>>)
    requires i < |files| && files[i].index.Graph? && Consistent(files[i], q)
    ensures HitsOf(hits, RowsOf(files, i), Dist(files, metric, q))
    ensures GraphAnswer(files[i].index.hnsw, NodeDist(files[i], metric, q), opts.TopK(), opts.Ef(), nodes)
    ensures hits == Relabel(nodes, ToNode(i)) && HnswSearch.Rows(files[i].index.hnsw, rows, nodes)
    ensures ReportedAs(files[i], hits, rows)
    ensures ExactFile(files[i], opts) ==> Sorted(hits) && TopOf(hits, RowsOf(files, i), Dist(files, metric, q), opts.TopK())
  {
    hide HnswSearch.StronglyConnected, HnswSearch.Rows, TopOf, Sorted, HitsOf, RowsOf, Renames, Nodes, HnswSearch.Searched,
         ReportedAs;
    var f := files[i];
    var h := f.index.hnsw;
    var d := NodeDist(f, metric, q);
    NodeRenames(files, i, metric, q);
    var found: seq<Hit<nat>>;
    ghost var within;
    if h.entry.Some? && h.neighbors != [] {
      ghost var start, beam;
      rows, found, within, start, beam := HnswSearch.Search(h, d, opts.TopK(), opts.Ef());
      SearchedTop(h, d, opts.TopK(), opts.Ef(), found, within, start, beam);
    } else {
      rows, found := HnswSearch.FlatSearch(h, d, opts.TopK());
      within := Nodes(|h.rowIds|);
    }
    nodes := found;
    hits := Relabel(found, ToNode(i));
    HitsWithin(h, rows, found, within, d, opts.TopK());
    RelabelHits(found, Nodes(|f.vectors|), d, RowsOf(files, i), Dist(files, metric, q), ToNode(i), FromNode());
    GraphRows(f, i, found, rows);
    if ExactFile(f, opts) {
      RelabelTop(found, Nodes(|f.vectors|), d, opts.TopK(), RowsOf(files, i), Dist(files, metric, q), ToNode(i), FromNode());
    }
  }

  lemma {:induction false} SearchedTop(
    h: Hnsw.Index, d: nat -> real, topK: nat, ef: int, nodes: seq<Hit<nat>>, visited: set<nat>, start: nat, beam: seq<Hit<nat>>)
    requires HnswSearch.Searched(h, d, topK, ef, nodes, visited, start, beam)
    ensures TopOf(nodes, visited, d, topK)
  {
    hide TopOf;
  }

  lemma {:induction false} GraphRows(f: DataFile, i: nat, nodes: seq<Hit<nat>>, rows: seq<Hit<nat>>)
    requires f.index.Graph? && HnswSearch.Rows(f.index.hnsw, rows, nodes)
    ensures ReportedAs(f, Relabel(nodes, ToNode(i)), rows)
  {
  }

  lemma {:induction false} EntryRows(f: DataFile, i: nat, entries: seq<Hit<IvfPq.Entry>>, rows: seq<Hit<nat>>)
    requires f.index.Quantised? && IvfPqSearch.RowsOf(f.index.ivf, rows, entries)
    ensures ReportedAs(f, Relabel(entries, ToCell(i)), rows)
  {
  }

  lemma {:induction false} HitsWithin(
    h: Hnsw.Index, rows: seq<Hit<nat>>, nodes: seq<Hit<nat>>, within: set<nat>, d: nat -> real, k: nat)
    requires HnswSearch.Rows(h, rows, nodes) && TopOf(nodes, within, d, k)
    ensures HitsOf(nodes, Nodes(|h.rowIds|), d)
  {
    forall x | x in Ids(nodes) ensures x in Nodes(|h.rowIds|) {
      var i :| 0 <= i < |nodes| && nodes[i].id == x;
      assert rows[i].dist == nodes[i].dist;
    }
  }

  lemma {:induction false} EntriesWithin(
    ivf: IvfPq.Index, hits: seq<Hit<IvfPq.Entry>>, cells: set<nat>, d: IvfPq.Entry -> real, k: nat)
    requires TopOf(hits, IvfPqSearch.Entries(ivf, cells), d, k) && cells <= Nodes(|ivf.coarse|)
    ensures HitsOf(hits, IvfPqSearch.AllEntries(ivf), d)
  {
  }

  lemma {:induction false} StableSorter()
    ensures Sorts((hs: seq<Hit<nat>>) => StableSort(hs))
  {
    forall hs: seq<Hit<nat>> ensures Sorted(StableSort(hs)) && multiset(StableSort(hs)) == multiset(hs) {
      StableSorts(hs);
    }
  }

  /** What the search of a quantised file finds: the `topK` nearest entries of its `nprobe`
      nearest cells. */
  ghost predicate QuantisedAnswer(ivf: IvfPq.Index, metric: Metric, q: Vector, topK: nat, entries: seq<Hit<IvfPq.Entry>>) {
    exists probed :: NearestCells(ivf, metric, q, probed)
      && Sorted(entries) && TopOf(entries, IvfPqSearch.Entries(ivf, Ids(probed)), IvfPqSearch.DistanceTo(ivf, q), topK)
  }

  ghost predicate NearestCells(ivf: IvfPq.Index, metric: Metric, q: Vector, probed: seq<Hit<nat>>) {
    && TopOf(probed, Nodes(|ivf.coarse|), CellDist(ivf, metric, q), ivf.nprobe)
    && |probed| == if ivf.nprobe < |ivf.coarse| then ivf.nprobe else |ivf.coarse|
  }

  /** A quantised file, probing as many cells as its index says. */
  method SearchQuantised(files: seq<DataFile>, i: nat, metric: Metric, q: Vector, opts: Options)
    returns (hits: seq<Hit<Row>>, rows: seq<Hit<nat>>, ghost entries: seq<Hit<IvfPq.Entry>>)
    requires i < |files| && files[i].index.Quantised? && Consistent(files[i], q)
    ensures HitsOf(hits, RowsOf(files, i), Dist(files, metric, q))
    ensures QuantisedAnswer(files[i].index.ivf, metric, q, opts.TopK(), entries)
    ensures hits == Relabel(entries, ToCell(i)) && IvfPqSearch.RowsOf(files[i].index.ivf, rows, entries)
    ensures ReportedAs(files[i], hits, rows)
    ensures ExactFile(files[i], opts) ==> Sorted(hits) && TopOf(hits, RowsOf(files, i), Dist(files, metric, q), opts.TopK())
  {
    hide TopOf, Sorted, HitsOf, RowsOf, Renames, Nodes, IvfPqSearch.AllEntries, IvfPqSearch.Entries, IvfPqSearch.RowsOf;
    hide IvfPq.Searchable, IvfPq.EntryDist, ReportedAs, NearestCells, IvfPqSearch.Probes, IvfPqSearch.Answer, IvfPqSearch.Probed;
    var f := files[i];
    var ivf := f.index.ivf;
    ghost var d := IvfPqSearch.DistanceTo(ivf, q);
    CellRenames(files, i, metric, q);
    StableSorter();
    var found;
    ghost var probed;
    rows, found, probed :=
      IvfPqSearch.Search(ivf, q, CellDist(ivf, metric, q), hs => StableSort(hs), opts.TopK(), ivf.nprobe);
    entries := found;
    hits := Relabel(found, ToCell(i));
    OwnProbes(ivf, metric, q, probed);
    EntriesWithin(ivf, entries, Ids(probed), d, opts.TopK());
    RelabelHits(entries, IvfPqSearch.AllEntries(ivf), d, RowsOf(files, i), Dist(files, metric, q), ToCell(i), FromCell());
    EntryRows(f, i, entries, rows);
    if ExactFile(f, opts) {
      RelabelTop(entries, IvfPqSearch.AllEntries(ivf), d, opts.TopK(), RowsOf(files, i), Dist(files, metric, q), ToCell(i), FromCell());
    }
  }

  lemma {:induction false} OwnProbes(ivf: IvfPq.Index, metric: Metric, q: Vector, probed: seq<Hit<nat>>)
    requires TopOf(probed, Nodes(|ivf.coarse|), CellDist(ivf, metric, q), IvfPqSearch.Probes(ivf, ivf.nprobe))
    ensures NearestCells(ivf, metric, q, probed) && Ids(probed) <= Nodes(|ivf.coarse|)
  {
    hide Nodes;
  }

  /** The row, as a 32-bit position, is in the file's deletion vector. */
  predicate IsDeleted(f: DataFile, h: Hit<Row>) {
    RowId(f, h.id.1) % 0x1_0000_0000 in f.deleted
  }

  /** The hits outside the deletion vector, in order. */
  function Undeleted(f: DataFile, hits: seq<Hit<Row>>): seq<Hit<Row>> {
    if hits == [] then []
    else
      var n := |hits| - 1;
      Undeleted(f, hits[..n]) + (if IsDeleted(f, hits[n]) then [] else [hits[n]])
  }

  /** Keeps exactly the hits outside the deletion vector, in order. */
  method DropDeleted(f: DataFile, hits: seq<Hit<Row>>, ghost s: set<Row>, ghost d: Row -> real) returns (kept: seq<Hit<Row>>)
    requires HitsOf(hits, s, d)
    ensures kept == Undeleted(f, hits) && HitsOf(kept, s, d)
    ensures f.deleted == {} ==> kept == hits
    ensures forall h :: h in kept <==> h in hits && !IsDeleted(f, h)
  {
    hide IsDeleted, HitsOf;
    kept := [];
    for i := 0 to |hits|
      invariant kept == Undeleted(f, hits[..i])
    {
      assert hits[..i + 1][..i] == hits[..i];
      if !IsDeleted(f, hits[i]) {
        kept := kept + [hits[i]];
      }
    }
    assert hits[..|hits|] == hits;
    UndeletedHits(f, hits, s, d);
  }

  lemma {:induction false} UndeletedMembers(f: DataFile, hits: seq<Hit<Row>>, h: Hit<Row>)
    ensures h in Undeleted(f, hits) <==> h in hits && !IsDeleted(f, h)
  {
    hide IsDeleted;
    if hits != [] {
      var n := |hits| - 1;
      UndeletedMembers(f, hits[..n], h);
      assert hits == hits[..n] + [hits[n]];
    }
  }

  lemma {:induction false} UndeletedDistinct(f: DataFile, hits: seq<Hit<Row>>)
    requires Distinct(hits)
    ensures Distinct(Undeleted(f, hits))
  {
    hide IsDeleted;
    if hits != [] {
      var n := |hits| - 1;
      var front := Undeleted(f, hits[..n]);
      UndeletedDistinct(f, hits[..n]);
      forall i | 0 <= i < |front| ensures front[i].id != hits[n].id {
        UndeletedMembers(f, hits[..n], front[i]);
        var k :| 0 <= k < n && hits[k] == front[i];
      }
    }
  }

  lemma {:induction false} NothingDeleted(f: DataFile, hits: seq<Hit<Row>>)
    requires f.deleted == {}
    ensures Undeleted(f, hits) == hits
  {
    if hits != [] {
      NothingDeleted(f, hits[..|hits| - 1]);
    }
  }

  lemma {:induction false} UndeletedHits(f: DataFile, hits: seq<Hit<Row>>, s: set<Row>, d: Row -> real)
    requires HitsOf(hits, s, d)
    ensures HitsOf(Undeleted(f, hits), s, d)
    ensures f.deleted == {} ==> Undeleted(f, hits) == hits
    ensures forall h :: h in Undeleted(f, hits) <==> h in hits && !IsDeleted(f, h)
  {
    hide IsDeleted, Undeleted;
    var kept := Undeleted(f, hits);
    UndeletedDistinct(f, hits);
    forall h ensures h in kept <==> h in hits && !IsDeleted(f, h) {
      UndeletedMembers(f, hits, h);
    }
    forall x | x in Ids(kept) ensures x in s {
      var j :| 0 <= j < |kept| && kept[j].id == x;
      assert kept[j] in hits;
      var k :| 0 <= k < |hits| && hits[k] == kept[j];
      assert hits[k].id in Ids(hits);
    }
    forall j | 0 <= j < |kept| ensures kept[j].dist == d(kept[j].id) {
      assert kept[j] in hits;
    }
    if f.deleted == {} {
      NothingDeleted(f, hits);
    }
  }

  /** What the search of one file contributes, exhaustive or not: the undeleted part, in order,
      of what its index search finds. */
  ghost predicate FileAnswer(files: seq<DataFile>, i: nat, metric: Metric, q: Vector, opts: Options, hits: seq<Hit<Row>>)
    requires i < |files|
  {
    var f := files[i];
    var k: nat := if opts.topK > 0 then opts.topK else 10;
    match f.index
    case NotReady => hits == []
    case Graph(h) =>
      exists nodes, rows :: GraphAnswer(h, NodeDist(f, metric, q), k, if opts.efSearch > 0 then opts.efSearch else 5 * k, nodes)
        && HnswSearch.Rows(h, rows, nodes) && ReportedAs(f, Relabel(nodes, ToNode(i)), rows)
        && hits == Undeleted(f, Relabel(nodes, ToNode(i)))
    case Quantised(ivf) =>
      exists entries, rows :: QuantisedAnswer(ivf, metric, q, k, entries)
        && IvfPqSearch.RowsOf(ivf, rows, entries) && ReportedAs(f, Relabel(entries, ToCell(i)), rows)
        && hits == Undeleted(f, Relabel(entries, ToCell(i)))
  }

  /** Searches one file; a file whose index is not ready contributes nothing. */
  method SearchFile(files: seq<DataFile>, i: nat, metric: Metric, q: Vector, opts: Options) returns (hits: seq<Hit<Row>>)
    requires i < |files| && Consistent(files[i], q)
    ensures HitsOf(hits, RowsOf(files, i), Dist(files, metric, q))
    ensures FileAnswer(files, i, metric, q, opts, hits)
    ensures ExactFile(files[i], opts) ==> Sorted(hits) && TopOf(hits, RowsOf(files, i), Dist(files, metric, q), opts.TopK())
  {
    hide TopOf, Sorted, HitsOf, RowsOf, Consistent, GraphAnswer, QuantisedAnswer, HnswSearch.Rows, IvfPqSearch.RowsOf, ReportedAs,
         Undeleted, IsDeleted;
    match files[i].index
    case NotReady =>
      hits := [];
      NoHits(RowsOf(files, i), Dist(files, metric, q));
    case Graph(_) =>
      var found, rows, nodes := SearchGraph(files, i, metric, q, opts);
      hits := DropDeleted(files[i], found, RowsOf(files, i), Dist(files, metric, q));
    case Quantised(_) =>
      var found, rows, entries := SearchQuantised(files, i, metric, q, opts);
      hits := DropDeleted(files[i], found, RowsOf(files, i), Dist(files, metric, q));
  }

  lemma {:induction false} NoHits(s: set<Row>, d: Row -> real)
    ensures HitsOf<Row>([], s, d)
  {
    assert Ids<Row>([]) == {};
  }
}
