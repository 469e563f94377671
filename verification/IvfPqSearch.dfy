/** The IVF-PQ search: which cells are probed, and what the answer is over their entries. */
module IvfPqSearch {
  import opened TopK
  import opened Sorting
  import opened IvfPq

  /** The entries of the given cells. */
  function Entries(idx: Index, cells: set<nat>): (r: set<Entry>)
    ensures forall e :: e in r <==> e.0 in cells && idx.IsEntry(e)
  {
    set c: nat, p: nat | c in cells && c < |idx.rowIds| && p < |idx.rowIds[c]| && idx.Fits((c, p)) :: (c, p)
  }

  /** Every entry of every cell. */
  function AllEntries(idx: Index): set<Entry> {
    Entries(idx, Nodes(|idx.coarse|))
  }

  function DistanceTo(idx: Index, q: Vector): Entry -> real {
    (e: Entry) => EntryDist(idx, q, e)
  }

  /** The number of cells to probe: the argument, or the index's own setting. */
  function Probes(idx: Index, nprobe: int): nat {
    var n := if nprobe <= 0 then idx.nprobe else nprobe;
    Min(n, |idx.coarse|)
  }

  ghost predicate TableFor(idx: Index, q: Vector, lut: array2<real>)
    reads lut
    requires Searchable(idx, q)
  {
    && lut.Length0 == idx.m && lut.Length1 == idx.k
    && forall j, c :: 0 <= j < idx.m && 0 <= c < idx.k ==> lut[j, c] == Lut(idx, q, j, c)
  }

  /** The lookups for one entry. */
  method SumLookups(idx: Index, q: Vector, lut: array2<real>, e: Entry) returns (dist: real)
    requires Searchable(idx, q) && TableFor(idx, q, lut) && idx.Fits(e)
    ensures dist == Adc(idx, q, CodesOf(idx, e), idx.m)
  {
    hide Lut, Searchable;
    var code := CodesOf(idx, e);
    dist := 0.0;
    for j := 0 to idx.m
      invariant dist == Adc(idx, q, code, j)
    {
      if code[j] < lut.Length1 {
        dist := dist + lut[j, code[j]];
      }
    }
  }

  lemma {:induction false} NoneAfter(idx: Index, cell: nat, r: nat, p: nat)
    requires !idx.Fits((cell, r)) && r <= p
    ensures !idx.Fits((cell, p))
  {
    assert (r + 1) * idx.m <= (p + 1) * idx.m;
  }

  /** Scans one cell up to the first entry whose codes are missing. */
  method ScanCell(idx: Index, q: Vector, cell: nat, lut: array2<real>) returns (found: seq<Hit<Entry>>)
    requires Searchable(idx, q) && cell < |idx.coarse| && TableFor(idx, QueryFor(idx, q, cell), lut)
    ensures AllOf(found, Entries(idx, {cell}), DistanceTo(idx, q))
  {
    hide TableFor, QueryFor, Adc, Lut;
    var rows := idx.rowIds[cell];
    found := [];
    var r := 0;
    while r < |rows|
      invariant r <= |rows| && |found| == r
      invariant forall i :: 0 <= i < r ==>
        idx.Fits((cell, i)) && found[i] == Hit((cell, i), EntryDist(idx, q, (cell, i)))
    {
      var start := r * idx.m;
      assert start + idx.m == (r + 1) * idx.m;
      if start + idx.m > |idx.codes[cell]| {
        break;
      }
      var dist := SumLookups(idx, QueryFor(idx, q, cell), lut, (cell, r));
      found := found + [Hit((cell, r), dist)];
      r := r + 1;
    }
    Complete(idx, q, cell, found);
  }

  lemma {:induction false} Complete(idx: Index, q: Vector, cell: nat, found: seq<Hit<Entry>>)
    requires cell < |idx.rowIds| && |found| <= |idx.rowIds[cell]|
    requires forall i :: 0 <= i < |found| ==>
      idx.Fits((cell, i)) && found[i] == Hit((cell, i), EntryDist(idx, q, (cell, i)))
    requires |found| == |idx.rowIds[cell]| || !idx.Fits((cell, |found|))
    ensures AllOf(found, Entries(idx, {cell}), DistanceTo(idx, q))
  {
    hide EntryDist;
    var all := Entries(idx, {cell});
    forall e | e in all ensures e in Ids(found) {
      if e.1 >= |found| {
        NoneAfter(idx, cell, |found|, e.1);
        assert false;
      }
      assert found[e.1].id == e;
    }
    forall e | e in Ids(found) ensures e in all {
      var i :| 0 <= i < |found| && found[i].id == e;
    }
  }

  lemma {:induction false} OneMoreCell(idx: Index, cells: set<nat>, cell: nat)
    ensures Entries(idx, cells + {cell}) == Entries(idx, cells) + Entries(idx, {cell})
    ensures cell !in cells ==> Entries(idx, cells) !! Entries(idx, {cell})
  {
  }

  type Sorter = seq<Hit<nat>> -> seq<Hit<nat>>

  function AllCells(idx: Index, cellDist: nat -> real): (r: seq<Hit<nat>>)
    ensures |r| == |idx.coarse| && forall i :: 0 <= i < |r| ==> r[i] == Hit(i, cellDist(i))
  {
    seq(|idx.coarse|, i requires 0 <= i < |idx.coarse| => Hit(i, cellDist(i)))
  }

  /** The ranking of the cells by distance, as the library's sort leaves it. */
  function Rank(idx: Index, cellDist: nat -> real, sort: Sorter): seq<Hit<nat>> {
    sort(AllCells(idx, cellDist))
  }

  /** The cells a search with this `nprobe` looks into. */
  function Probed(idx: Index, cellDist: nat -> real, sort: Sorter, nprobe: int): seq<Hit<nat>> {
    var cells, n := Rank(idx, cellDist, sort), Probes(idx, nprobe);
    if |cells| > n then cells[..n] else cells
  }

  method RankCells(idx: Index, cellDist: nat -> real, sort: Sorter) returns (cells: seq<Hit<nat>>)
    requires Sorts(sort)
    ensures cells == Rank(idx, cellDist, sort)
    ensures Sorted(cells) && TopOf(cells, Nodes(|idx.coarse|), cellDist, |idx.coarse|)
  {
    var all: seq<Hit<nat>> := [];
    for i := 0 to |idx.coarse|
      invariant |all| == i && forall j :: 0 <= j < i ==> all[j] == Hit(j, cellDist(j))
    {
      all := all + [Hit(i, cellDist(i))];
    }
    assert all == AllCells(idx, cellDist);
    EveryCell(all, cellDist);
    cells := sort(all);
    SortAndTrim(all, cells, Nodes(|idx.coarse|), cellDist, |idx.coarse|);
    TrimNothing(cells, all, |idx.coarse|);
  }

  lemma {:induction false} EveryCell(all: seq<Hit<nat>>, cellDist: nat -> real)
    requires forall j :: 0 <= j < |all| ==> all[j] == Hit(j, cellDist(j))
    ensures AllOf(all, Nodes(|all|), cellDist)
  {
    forall x | x in Nodes(|all|) ensures x in Ids(all) {
      assert all[x].id == x;
    }
    forall x | x in Ids(all) ensures x in Nodes(|all|) {
      var i :| 0 <= i < |all| && all[i].id == x;
    }
  }

  lemma {:induction false} TrimNothing(a: seq<Hit<nat>>, b: seq<Hit<nat>>, n: nat)
    requires multiset(a) == multiset(b) && |b| == n
    ensures |a| == n
  {
    assert |multiset(a)| == |a| && |multiset(b)| == |b|;
  }

  /** Scans the probed cells. In residual mode each cell gets a table of its own. */
  method ScanCells(idx: Index, q: Vector, probed: seq<Hit<nat>>) returns (candidates: seq<Hit<Entry>>)
    requires Searchable(idx, q) && Distinct(probed) && Ids(probed) <= Nodes(|idx.coarse|)
    ensures AllOf(candidates, Entries(idx, Ids(probed)), DistanceTo(idx, q))
  {
    hide Searchable, AllOf, Lut, Distinct, Ids;
    ghost var d := DistanceTo(idx, q);
    candidates := [];
    var lut := BuildADCTable(idx, q);
    NoCells(idx, d, probed);
    for i := 0 to |probed|
      invariant TableFor(idx, q, lut) || idx.residual
      invariant AllOf(candidates, Entries(idx, Ids(probed[..i])), d)
    {
      NextCell(probed, i);
      var cell := probed[i].id;
      if idx.residual {
        lut := BuildADCTable(idx, QueryFor(idx, q, cell));
      }
      var found := ScanCell(idx, q, cell, lut);
      OneMoreCell(idx, Ids(probed[..i]), cell);
      ConcatAll(candidates, Entries(idx, Ids(probed[..i])), found, Entries(idx, {cell}), d);
      candidates := candidates + found;
    }
    assert probed[..|probed|] == probed;
  }

  lemma {:induction false} NoCells(idx: Index, d: Entry -> real, probed: seq<Hit<nat>>)
    ensures AllOf<Entry>([], Entries(idx, Ids(probed[..0])), d)
  {
    assert Ids(probed[..0]) == {};
    assert Ids<Entry>([]) == {} == Entries(idx, {});
  }

  lemma {:induction false} NextCell(probed: seq<Hit<nat>>, i: nat)
    requires i < |probed| && Distinct(probed)
    ensures probed[i].id in Ids(probed) && probed[i].id !in Ids(probed[..i])
    ensures Ids(probed[..i + 1]) == Ids(probed[..i]) + {probed[i].id}
  {
    assert probed[..i + 1] == probed[..i] + [probed[i]];
    ConcatIds(probed[..i], [probed[i]]);
    assert [probed[i]][0].id in Ids([probed[i]]) && Ids([probed[i]]) == {probed[i].id};
    if probed[i].id in Ids(probed[..i]) {
      var j := PrefixOf(probed, i, probed[i].id);
      assert false;
    }
  }

  /** `out` reports the row ids and distances of `hits`. */
  ghost predicate RowsOf(idx: Index, out: seq<Hit<nat>>, hits: seq<Hit<Entry>>) {
    && |out| == |hits|
    && forall i :: 0 <= i < |out| ==>
         idx.IsEntry(hits[i].id) && out[i] == Hit(idx.rowIds[hits[i].id.0][hits[i].id.1], hits[i].dist)
  }

  method ReportEntries(idx: Index, hits: seq<Hit<Entry>>, ghost cells: set<nat>) returns (out: seq<Hit<nat>>)
    requires Ids(hits) <= Entries(idx, cells)
    ensures RowsOf(idx, out, hits)
  {
    out := [];
    for i := 0 to |hits|
      invariant |out| == i && forall j :: 0 <= j < i ==>
        idx.IsEntry(hits[j].id) && out[j] == Hit(idx.rowIds[hits[j].id.0][hits[j].id.1], hits[j].dist)
    {
      assert hits[i].id in Entries(idx, cells);
      out := out + [Hit(idx.rowIds[hits[i].id.0][hits[i].id.1], hits[i].dist)];
    }
  }

  /** What a search returns: the `topK` nearest entries of the cells it probes. */
  ghost predicate Answer(idx: Index, q: Vector, cellDist: nat -> real, sort: Sorter, topK: nat, nprobe: int, hits: seq<Hit<Entry>>) {
    Sorted(hits) && TopOf(hits, Entries(idx, Ids(Probed(idx, cellDist, sort, nprobe))), DistanceTo(idx, q), topK)
  }

  /** Probes the nearest cells and returns the `topK` nearest of their entries. Probing
      every cell makes the answer exhaustive. */
  method Search(idx: Index, q: Vector, cellDist: nat -> real, sort: Sorter, topK: nat, nprobe: int)
    returns (out: seq<Hit<nat>>, hits: seq<Hit<Entry>>, ghost probed: seq<Hit<nat>>)
    requires Searchable(idx, q) && Sorts(sort)
    ensures probed == Probed(idx, cellDist, sort, nprobe) && Answer(idx, q, cellDist, sort, topK, nprobe, hits)
    ensures Sorted(probed) && TopOf(probed, Nodes(|idx.coarse|), cellDist, Probes(idx, nprobe))
    ensures var wanted := if nprobe > 0 then nprobe else idx.nprobe;
      |probed| == if wanted < |idx.coarse| then wanted else |idx.coarse|
    ensures Sorted(hits) && TopOf(hits, Entries(idx, Ids(probed)), DistanceTo(idx, q), topK)
    ensures RowsOf(idx, out, hits)
    ensures Probes(idx, nprobe) == |idx.coarse| ==> TopOf(hits, AllEntries(idx), DistanceTo(idx, q), topK)
  {
    hide Searchable, TopOf, Sorted, AllOf, EntryDist, RowsOf, Sorts, Rank;
    var cells := RankCells(idx, cellDist, sort);
    var n := Probes(idx, nprobe);
    TopSize(cells, Nodes(|idx.coarse|), cellDist, |idx.coarse|);
    ShorterTop(cells, Nodes(|idx.coarse|), cellDist, |idx.coarse|, n);
    var nearest := cells[..n];
    assert nearest == if |cells| > n then cells[..n] else cells;
    probed := nearest;
    TopDistinct(nearest, Nodes(|idx.coarse|), cellDist, n);
    var candidates := ScanCells(idx, q, nearest);
    var sorted := SortHits(candidates);
    SortAndTrim(candidates, sorted, Entries(idx, Ids(nearest)), DistanceTo(idx, q), topK);
    if |sorted| > topK {
      sorted := sorted[..topK];
    }
    hits := sorted;
    TopSize(sorted, Entries(idx, Ids(nearest)), DistanceTo(idx, q), topK);
    out := ReportEntries(idx, sorted, Ids(nearest));
    if n == |idx.coarse| {
      SubsetCard(Ids(nearest), Nodes(|idx.coarse|));
    }
  }

  lemma {:induction false} TopDistinct(hs: seq<Hit<nat>>, s: set<nat>, d: nat -> real, k: nat)
    requires TopOf(hs, s, d, k)
    ensures Distinct(hs) && Ids(hs) <= s && |Ids(hs)| == Min(k, |s|)
  {
    IdsCard(hs);
  }

  /** Of two searches of one index with one query, the one that probes more cells is at no
      position farther than the other. */
  lemma {:induction false} MoreProbesNoWorse(
    idx: Index, q: Vector, cellDist: nat -> real, sort: Sorter, topK: nat, few: int, many: int,
    a: seq<Hit<Entry>>, b: seq<Hit<Entry>>, i: nat)
    requires Probes(idx, few) <= Probes(idx, many) && i < |a|
    requires Answer(idx, q, cellDist, sort, topK, few, a) && Answer(idx, q, cellDist, sort, topK, many, b)
    ensures |a| <= |b| && b[i].dist <= a[i].dist
  {
    hide TopOf, Sorted, EntryDist, Rank, Probes;
    var fewCells, manyCells := Probed(idx, cellDist, sort, few), Probed(idx, cellDist, sort, many);
    assert fewCells == manyCells[..|fewCells|];
    forall x | x in Ids(fewCells) ensures x in Ids(manyCells) {
      var p := PrefixOf(manyCells, |fewCells|, x);
      PrefixIds(manyCells, |manyCells|, p);
      assert manyCells[..|manyCells|] == manyCells;
    }
    LargerIsNearer(a, Entries(idx, Ids(fewCells)), b, Entries(idx, Ids(manyCells)), DistanceTo(idx, q), topK, i);
  }
}
