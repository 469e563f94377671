/** The two entry points of the HNSW index: graph search and brute-force scan, and when
    they agree. */
module HnswSearch {
  import opened Wrappers
  import opened TopK
  import opened Hnsw

  /** `out` reports the row ids and distances of `nodes`, the nodes found. */
  ghost predicate Rows(h: Index, out: seq<Hit<nat>>, nodes: seq<Candidate>) {
    && |out| == |nodes|
    && forall i :: 0 <= i < |out| ==>
         nodes[i].id < |h.rowIds| && out[i] == Hit(h.rowIds[nodes[i].id], nodes[i].dist)
  }

  /** `nodes` is the exact answer over the whole index. */
  ghost predicate Exact(h: Index, d: nat -> real, topK: nat, nodes: seq<Candidate>) {
    Sorted(nodes) && TopOf(nodes, Nodes(|h.rowIds|), d, topK)
  }

  // ---- insertion sort ------------------------------------------------------------

  /** The first `n` are in order, except that the one at `j` may still have to move left. */
  ghost predicate SortedExcept(s: seq<Candidate>, n: nat, j: nat)
    requires n <= |s|
  {
    forall p, q :: 0 <= p < q < n && q != j ==> s[p].dist <= s[q].dist
  }

  /** `t` is `s` with the elements at `j - 1` and `j` exchanged. */
  ghost predicate Swapped<T>(s: seq<T>, t: seq<T>, j: nat) {
    && 0 < j < |s| == |t| && t[j] == s[j - 1] && t[j - 1] == s[j]
    && forall i :: 0 <= i < |s| && i != j && i != j - 1 ==> t[i] == s[i]
  }

  lemma {:induction false} SwapLeft(s: seq<Candidate>, t: seq<Candidate>, n: nat, j: nat)
    requires Swapped(s, t, j) && j < n <= |s| && SortedExcept(s, n, j) && s[j].dist < s[j - 1].dist
    ensures SortedExcept(t, n, j - 1) && multiset(t) == multiset(s)
  {
    assert t == s[j := s[j - 1]][j - 1 := s[j]];
    forall p, q | 0 <= p < q < n && q != j - 1 ensures t[p].dist <= t[q].dist {
      var p0 := if p == j then j - 1 else if p == j - 1 then j else p;
      var q0 := if q == j then j - 1 else q;
      if p0 < q0 {
        assert s[p0].dist <= s[q0].dist;
      }
    }
  }

  lemma {:induction false} InPlace(s: seq<Candidate>, n: nat, j: nat)
    requires j < n <= |s| && SortedExcept(s, n, j) && (j == 0 || s[j].dist >= s[j - 1].dist)
    ensures SortedExcept(s, n, n) && SortedExcept(s, n, 0) && (n == |s| ==> Sorted(s))
  {
    forall p, q | 0 <= p < q < n ensures s[p].dist <= s[q].dist {
      if q == j && p < j - 1 {
        assert s[p].dist <= s[j - 1].dist;
      }
    }
  }

  /** The inner loop: moves `c[i]` left into the sorted part before it. */
  method MoveLeft(c: array<Candidate>, i: nat)
    requires i < c.Length && SortedExcept(c[..], i, 0)
    modifies c
    ensures SortedExcept(c[..], i + 1, 0) && multiset(c[..]) == multiset(old(c[..]))
  {
    hide SortedExcept, Sorted;
    var j := i;
    OneLonger(c[..], i);
    while j > 0 && c[j].dist < c[j - 1].dist
      invariant 0 <= j <= i
      invariant SortedExcept(c[..], i + 1, j)
      invariant multiset(c[..]) == multiset(old(c[..]))
    {
      ghost var s := c[..];
      c[j], c[j - 1] := c[j - 1], c[j];
      SwapLeft(s, c[..], i + 1, j);
      j := j - 1;
    }
    InPlace(c[..], i + 1, j);
  }

  /** In-place insertion sort by distance. */
  method SortCandidates(c: array<Candidate>)
    modifies c
    ensures Sorted(c[..]) && multiset(c[..]) == multiset(old(c[..]))
  {
    hide SortedExcept, Sorted;
    var i := 1;
    Few(c[..], Min(i, c.Length));
    while i < c.Length
      invariant 1 <= i && SortedExcept(c[..], Min(i, c.Length), 0)
      invariant multiset(c[..]) == multiset(old(c[..]))
    {
      MoveLeft(c, i);
      i := i + 1;
    }
    AllInOrder(c[..], Min(i, c.Length));
  }

  lemma {:induction false} Few(s: seq<Candidate>, n: nat)
    requires n <= 1 && n <= |s|
    ensures SortedExcept(s, n, 0)
  {
  }

  lemma {:induction false} OneLonger(s: seq<Candidate>, n: nat)
    requires n < |s| && SortedExcept(s, n, 0)
    ensures SortedExcept(s, n + 1, n)
  {
  }

  lemma {:induction false} AllInOrder(s: seq<Candidate>, n: nat)
    requires n == |s| && SortedExcept(s, n, 0)
    ensures Sorted(s)
  {
  }

  // ---- strong connectivity -------------------------------------------------------

  ghost predicate Walk(h: Index, path: seq<nat>, from: nat, to: nat) {
    && path != [] && path[0] == from && path[|path| - 1] == to
    && forall i :: 0 <= i < |path| - 1 ==> path[i + 1] in h.Links(path[i], 0)
  }

  /** On layer 0 every node can be reached from every other. */
  ghost predicate StronglyConnected(h: Index) {
    forall x, y :: x in Nodes(|h.rowIds|) && y in Nodes(|h.rowIds|) ==> exists path :: Walk(h, path, x, y)
  }

  lemma {:induction false} WalkStays(h: Index, path: seq<nat>, from: nat, to: nat, s: set<nat>, i: nat)
    requires Walk(h, path, from, to) && from in s && LinksWithin(h, 0, s, s) && i < |path|
    ensures path[i] in s
  {
    if i > 0 {
      WalkStays(h, path, from, to, s, i - 1);
      assert path[(i - 1) + 1] in h.Links(path[i - 1], 0);
    }
  }

  /** A beam at least as wide as the graph stops only when it has seen every node. */
  lemma {:induction false} BeamSeesAll(h: Index, d: nat -> real, entry: nat, ef: int, results: seq<Candidate>, visited: set<nat>)
    requires BeamResult(h, d, entry, 0, ef, results, visited)
    requires StronglyConnected(h) && ef >= |h.rowIds|
    ensures visited == Nodes(|h.rowIds|)
  {
    hide HitsOf, Nearest, Ids;
    VisitedBound(h, visited);
    TopSize(results, visited, d, Width(ef));
    SubsetCard(Ids(results), visited);
    forall y | y in Nodes(|h.rowIds|) ensures y in visited {
      var path :| Walk(h, path, entry, y);
      WalkStays(h, path, entry, y, visited, |path| - 1);
    }
  }

  /** Greedy descent on every layer from `layer` down to 1 leads from `from` to `to`. */
  ghost predicate Descends(h: Index, d: nat -> real, layer: nat, from: nat, to: nat) {
    if layer == 0 then to == from
    else exists mid :: Greedy(h, d, layer, from, mid) && Descends(h, d, layer - 1, mid, to)
  }

  /** The beam starts where the descent from the entry point ends. */
  ghost predicate Descended(h: Index, d: nat -> real, start: nat) {
    h.entry.Some? && Descends(h, d, h.maxLayer, h.entry.value, start)
  }

  // ---- searches ------------------------------------------------------------------

  /** Greedy descent through the layers above 0. */
  method Descend(h: Index, d: nat -> real) returns (ep: nat)
    requires h.WellFormed() && h.entry.Some?
    ensures ep < |h.rowIds| && d(ep) <= d(h.entry.value) && Descended(h, d, ep)
  {
    hide Greedy;
    ep := h.entry.value;
    var layer := h.maxLayer;
    while layer > 0
      invariant 0 <= layer <= h.maxLayer && ep < |h.rowIds| && d(ep) <= d(h.entry.value)
      invariant forall to :: Descends(h, d, layer, ep, to) ==> Descends(h, d, h.maxLayer, h.entry.value, to)
    {
      ghost var from := ep;
      ep := GreedyNearest(h, d, ep, layer);
      assert forall to :: Descends(h, d, layer - 1, ep, to) ==> Descends(h, d, layer, from, to);
      layer := layer - 1;
    }
  }

  /** What a graph search achieves, starting its beam where the descent ended: `beam` are the
      `max(topK, efSearch)` nearest of the visited nodes, every layer-0 link of theirs has been
      followed, and `nodes` are the `topK` nearest of them. */
  ghost predicate Searched(h: Index, d: nat -> real, topK: nat, efSearch: int, nodes: seq<Candidate>, visited: set<nat>,
                           start: nat, beam: seq<Candidate>) {
    && h.entry.Some? && d(start) <= d(h.entry.value) && Descended(h, d, start)
    && BeamResult(h, d, start, 0, if efSearch < topK then topK else efSearch, beam, visited)
    && Sorted(nodes) && TopOf(nodes, visited, d, topK) && Ids(nodes) <= Ids(beam)
  }

  /** No layer-0 neighbour of a result that was left out is closer than any result, and a
      search with fewer than `topK` results has seen all that layer 0 reaches from it. */
  lemma {:induction false} SearchIsLocal(
    h: Index, d: nat -> real, topK: nat, efSearch: int, nodes: seq<Candidate>, visited: set<nat>, start: nat, beam: seq<Candidate>)
    requires Searched(h, d, topK, efSearch, nodes, visited, start, beam)
    ensures LinksWithin(h, 0, Ids(nodes), visited) && start in visited && visited <= Nodes(|h.rowIds|)
    ensures forall i, j, x :: 0 <= i < |nodes| && 0 <= j < |nodes| && x in h.Links(nodes[i].id, 0) && x !in Ids(nodes) ==>
      nodes[j].dist <= d(x)
    ensures |nodes| < topK ==> LinksWithin(h, 0, visited, visited)
  {
    hide Descended, Sorted, TopOf, LinksWithin;
    var ef := if efSearch < topK then topK else efSearch;
    FromExpanded(h, 0, Ids(nodes), Ids(beam), visited);
    TopSize(nodes, visited, d, topK);
    if |nodes| < topK {
      AllReturned(beam, visited, d, Width(ef));
    }
    forall i, j, x | 0 <= i < |nodes| && 0 <= j < |nodes| && x in h.Links(nodes[i].id, 0) && x !in Ids(nodes)
      ensures nodes[j].dist <= d(x)
    {
      Neighbour(h, nodes, visited, d, topK, i, j, x);
    }
  }

  lemma {:induction false} AllReturned(hs: seq<Candidate>, s: set<nat>, d: nat -> real, k: nat)
    requires TopOf(hs, s, d, k) && |s| <= k
    ensures Ids(hs) == s
  {
    IdsCard(hs);
    SubsetCard(Ids(hs), s);
  }

  lemma {:induction false} Neighbour(
    h: Index, nodes: seq<Candidate>, visited: set<nat>, d: nat -> real, topK: nat, i: nat, j: nat, x: nat)
    requires TopOf(nodes, visited, d, topK) && LinksWithin(h, 0, Ids(nodes), visited)
    requires i < |nodes| && j < |nodes| && x in h.Links(nodes[i].id, 0) && x !in Ids(nodes)
    ensures nodes[j].dist <= d(x)
  {
    assert nodes[i].id in Ids(nodes);
    assert x in visited;
  }

  /** Greedy descent from the top layer, beam search on layer 0, then the `topK` nearest of
      what was visited. With a strongly connected layer 0 and a beam as wide as the graph
      the answer is exact, so its distances are those of any exact scan. */
  method Search(h: Index, d: nat -> real, topK: nat, efSearch: int)
    returns (out: seq<Hit<nat>>, nodes: seq<Candidate>, ghost visited: set<nat>, ghost start: nat, ghost beam: seq<Candidate>)
    requires h.WellFormed()
    ensures Rows(h, out, nodes)
    ensures h.entry.None? ==> nodes == []
    ensures h.entry.Some? ==> Searched(h, d, topK, efSearch, nodes, visited, start, beam)
    ensures h.entry.Some? && topK >= 1 ==> out != [] && out[0].dist <= d(start)
    ensures h.entry.Some? && StronglyConnected(h) && efSearch >= |h.rowIds| ==> Exact(h, d, topK, nodes)
    ensures h.entry.Some? && StronglyConnected(h) && efSearch >= |h.rowIds| ==>
      forall flat :: Exact(h, d, topK, flat) ==> Dists(out) == Dists(flat)
  {
    hide TopOf, LinksWithin, StronglyConnected, Ids, Descended, Rows, HitsOf;
    if h.entry.None? || h.rowIds == [] {
      out, nodes, visited, start, beam := [], [], {}, 0, [];
      NoRows(h);
      return;
    }
    var ef := if efSearch < topK then topK else efSearch;
    var ep := Descend(h, d);
    start := ep;
    var found;
    found, visited := BeamSearch(h, d, ep, 0, ef);
    beam := found;
    var candidates := ToArray(found);
    SortCandidates(candidates);
    var sorted := candidates[..];
    ReorderedTop(found, sorted, visited, d, Width(ef));
    ReorderedIds(found, sorted);
    ShorterTop(sorted, visited, d, Width(ef), topK);
    if |sorted| > topK {
      ShorterIds(sorted, topK);
      sorted := sorted[..topK];
    }
    nodes := sorted;
    out := ReportRows(h, sorted, visited, d, topK);
    RowsDist(h, out, nodes);
    if topK >= 1 {
      FirstIsNearest(nodes, visited, d, topK, ep);
    }
    Agreement(h, d, ep, ef, topK, found, visited, nodes, out);
  }

  lemma {:induction false} ReorderedIds(a: seq<Candidate>, b: seq<Candidate>)
    requires multiset(a) == multiset(b)
    ensures Ids(b) <= Ids(a)
  {
    forall x | x in Ids(b) ensures x in Ids(a) {
      var i :| 0 <= i < |b| && b[i].id == x;
      assert b[i] in multiset(b);
      assert b[i] in a;
    }
  }

  lemma {:induction false} ShorterIds(a: seq<Candidate>, k: nat)
    requires k <= |a|
    ensures Ids(a[..k]) <= Ids(a)
  {
    forall x | x in Ids(a[..k]) ensures x in Ids(a) {
      var i :| 0 <= i < k && a[..k][i].id == x;
      assert a[i].id == x;
    }
  }

  /** When the beam saw every node, the answer is exact and has the distances of any other. */
  lemma {:induction false} Agreement(
    h: Index, d: nat -> real, ep: nat, ef: int, topK: nat, found: seq<Candidate>, visited: set<nat>,
    nodes: seq<Candidate>, out: seq<Hit<nat>>)
    requires BeamResult(h, d, ep, 0, ef, found, visited)
    requires Rows(h, out, nodes) && Sorted(nodes) && TopOf(nodes, visited, d, topK)
    ensures StronglyConnected(h) && ef >= |h.rowIds| ==> Exact(h, d, topK, nodes)
    ensures StronglyConnected(h) && ef >= |h.rowIds| ==>
      forall flat :: Exact(h, d, topK, flat) ==> Dists(out) == Dists(flat)
  {
    hide TopOf, Sorted, StronglyConnected, BeamResult;
    if StronglyConnected(h) && ef >= |h.rowIds| {
      BeamSeesAll(h, d, ep, ef, found, visited);
      assert Dists(out) == Dists(nodes);
      forall flat | Exact(h, d, topK, flat) ensures Dists(out) == Dists(flat) {
        SameDistances(nodes, flat, visited, d, topK);
      }
    }
  }

  lemma {:induction false} EmptyTop(d: nat -> real, k: nat)
    ensures TopOf<nat>([], {}, d, k)
  {
    assert Ids<nat>([]) == {};
  }

  method ToArray(hs: seq<Candidate>) returns (a: array<Candidate>)
    ensures fresh(a) && a[..] == hs
  {
    a := new Candidate[|hs|](i requires 0 <= i < |hs| => hs[i]);
  }

  lemma {:induction false} FirstIsNearest(hs: seq<Candidate>, s: set<nat>, d: nat -> real, k: nat, x: nat)
    requires Sorted(hs) && TopOf(hs, s, d, k) && x in s && k >= 1
    ensures hs != [] && hs[0].dist <= d(x)
  {
    if x in Ids(hs) {
      var i :| 0 <= i < |hs| && hs[i].id == x;
    }
  }

  method ReportRows(h: Index, hs: seq<Candidate>, ghost s: set<nat>, ghost d: nat -> real, ghost k: nat)
    returns (out: seq<Hit<nat>>)
    requires TopOf(hs, s, d, k) && s <= Nodes(|h.rowIds|)
    ensures Rows(h, out, hs)
  {
    out := [];
    for i := 0 to |hs|
      invariant |out| == i
      invariant forall j :: 0 <= j < i ==> hs[j].id < |h.rowIds| && out[j] == Hit(h.rowIds[hs[j].id], hs[j].dist)
    {
      assert hs[i].id in Ids(hs);
      out := out + [Hit(h.rowIds[hs[i].id], hs[i].dist)];
    }
  }

  // ---- brute force ---------------------------------------------------------------

  /** Moves the last hit left to its place in a list sorted up to there. */
  method InsertLast(ghost h: Index, hits: seq<Hit<nat>>, nodes: seq<Candidate>)
    returns (sorted: seq<Hit<nat>>, sortedNodes: seq<Candidate>)
    requires nodes != [] && Rows(h, hits, nodes) && Sorted(nodes[..|nodes| - 1])
    ensures Rows(h, sorted, sortedNodes) && Sorted(sortedNodes) && multiset(sortedNodes) == multiset(nodes)
  {
    hide SortedExcept, Sorted, Rows;
    RowsDist(h, hits, nodes);
    sorted, sortedNodes := hits, nodes;
    ghost var n := |nodes|;
    var j := |sorted| - 1;
    LastMayMove(nodes);
    while j > 0 && sorted[j].dist < sorted[j - 1].dist
      invariant 0 <= j < n == |sortedNodes| == |sorted|
      invariant Rows(h, sorted, sortedNodes)
      invariant SortedExcept(sortedNodes, n, j)
      invariant multiset(sortedNodes) == multiset(nodes)
    {
      ghost var before, from := sortedNodes, sorted;
      RowsDist(h, from, before);
      sorted := sorted[j := sorted[j - 1]][j - 1 := sorted[j]];
      sortedNodes := sortedNodes[j := sortedNodes[j - 1]][j - 1 := sortedNodes[j]];
      SwapLeft(before, sortedNodes, n, j);
      SwapRows(h, from, before, sorted, sortedNodes, j);
      j := j - 1;
    }
    RowsDist(h, sorted, sortedNodes);
    InPlace(sortedNodes, n, j);
  }

  lemma {:induction false} SwapRows(
    h: Index, out: seq<Hit<nat>>, nodes: seq<Candidate>, out': seq<Hit<nat>>, nodes': seq<Candidate>, j: nat)
    requires Rows(h, out, nodes) && Swapped(out, out', j) && Swapped(nodes, nodes', j)
    ensures Rows(h, out', nodes')
  {
  }

  lemma {:induction false} LastMayMove(nodes: seq<Candidate>)
    requires nodes != [] && Sorted(nodes[..|nodes| - 1])
    ensures SortedExcept(nodes, |nodes|, |nodes| - 1)
  {
    var front := nodes[..|nodes| - 1];
    forall p, q | 0 <= p < q < |nodes| && q != |nodes| - 1 ensures nodes[p].dist <= nodes[q].dist {
      assert front[p].dist <= front[q].dist;
    }
  }

  lemma {:induction false} SameNodes(a: seq<Candidate>, b: seq<Candidate>, s: set<nat>, d: nat -> real)
    requires multiset(a) == multiset(b) && HitsOf(a, s, d) && Nearest(a, s, d)
    ensures |a| == |b| && HitsOf(b, s, d) && Nearest(b, s, d)
  {
    Reordered(a, b);
    forall i | 0 <= i < |b| ensures b[i] in a {
      assert b[i] in multiset(a);
    }
  }

  lemma {:induction false} AllNodesWith(nodes: seq<Candidate>, next: seq<Candidate>, i: nat, d: nat -> real, topK: nat)
    requires TopOf(nodes, Nodes(i), d, topK)
    requires |nodes| < topK || (nodes != [] && d(i) < nodes[|nodes| - 1].dist)
    requires multiset(next) == multiset(nodes + [Hit(i, d(i))])
    ensures |next| == |nodes| + 1 && HitsOf(next, Nodes(i + 1), d) && Nearest(next, Nodes(i + 1), d)
  {
    hide HitsOf, Nearest, TopOf;
    Pushed(nodes, Nodes(i), d, topK, i, if nodes == [] then 0 else |nodes| - 1);
    assert Nodes(i) + {i} == Nodes(i + 1);
    SameNodes(nodes + [Hit(i, d(i))], next, Nodes(i + 1), d);
  }

  /** The answer over one more node: insert it, then trim to `topK`. */
  lemma {:induction false} OneMore(nodes: seq<Candidate>, next: seq<Candidate>, i: nat, d: nat -> real, topK: nat)
    requires topK >= 1 && TopOf(nodes, Nodes(i), d, topK)
    requires |nodes| < topK || d(i) < nodes[|nodes| - 1].dist
    requires Sorted(next) && multiset(next) == multiset(nodes + [Hit(i, d(i))])
    ensures |next| == |nodes| + 1
    ensures var r := if |next| > topK then next[..topK] else next; Sorted(r) && TopOf(r, Nodes(i + 1), d, topK)
  {
    hide HitsOf, Nearest, Nodes;
    AllNodesWith(nodes, next, i, d, topK);
    TopSize(nodes, Nodes(i), d, topK);
    if |next| > topK {
      hide TopOf;
      DroppedFarthest(next, Nodes(i + 1), d, topK, topK);
      assert Without(next, topK) == next[..topK];
    }
  }

  /** Exact brute-force scan keeping a sorted list of at most `topK` hits. */
  method FlatSearch(h: Index, d: nat -> real, topK: nat)
    returns (out: seq<Hit<nat>>, nodes: seq<Candidate>)
    requires topK >= 1
    ensures Rows(h, out, nodes) && Exact(h, d, topK, nodes)
  {
    hide TopOf, Rows, Sorted, Nodes;
    var n := |h.rowIds|;
    out, nodes := [], [];
    var worst := 0.0;
    EmptyTop(d, topK);
    NoRows(h);
    for i := 0 to n
      invariant Rows(h, out, nodes) && Sorted(nodes) && TopOf(nodes, Nodes(i), d, topK)
      invariant |out| == topK ==> worst == out[topK - 1].dist
    {
      TopSize(nodes, Nodes(i), d, topK);
      RowsDist(h, out, nodes);
      var dist := d(i);
      if |out| < topK || dist < worst {
        ghost var before := nodes;
        RowsWith(h, out, nodes, i, dist);
        assert (nodes + [Hit(i, dist)])[..|nodes|] == nodes;
        out, nodes := InsertLast(h, out + [Hit(h.rowIds[i], dist)], nodes + [Hit(i, dist)]);
        RowsDist(h, out, nodes);
        ghost var trimmed := if |nodes| > topK then nodes[..topK] else nodes;
        OneMore(before, nodes, i, d, topK);
        assert TopOf(trimmed, Nodes(i + 1), d, topK);
        if |out| > topK {
          RowsPrefix(h, out, nodes, topK);
          out, nodes := out[..topK], nodes[..topK];
        }
        if |out| == topK {
          worst := out[topK - 1].dist;
        }
      } else {
        StaysFull(nodes, i, d, topK);
      }
    }
  }

  lemma {:induction false} NoRows(h: Index)
    ensures Rows(h, [], []) && Sorted<nat>([])
  {
  }

  lemma {:induction false} RowsDist(h: Index, out: seq<Hit<nat>>, nodes: seq<Candidate>)
    requires Rows(h, out, nodes)
    ensures |out| == |nodes| && forall i :: 0 <= i < |out| ==> out[i].dist == nodes[i].dist
  {
  }

  lemma {:induction false} RowsWith(h: Index, out: seq<Hit<nat>>, nodes: seq<Candidate>, i: nat, dist: real)
    requires Rows(h, out, nodes) && i < |h.rowIds|
    ensures Rows(h, out + [Hit(h.rowIds[i], dist)], nodes + [Hit(i, dist)])
  {
  }

  lemma {:induction false} RowsPrefix(h: Index, out: seq<Hit<nat>>, nodes: seq<Candidate>, k: nat)
    requires Rows(h, out, nodes) && k <= |out|
    ensures Rows(h, out[..k], nodes[..k])
  {
  }

  lemma {:induction false} StaysFull(nodes: seq<Candidate>, i: nat, d: nat -> real, topK: nat)
    requires topK >= 1 && Sorted(nodes) && TopOf(nodes, Nodes(i), d, topK) && |nodes| == topK
    requires d(i) >= nodes[topK - 1].dist
    ensures TopOf(nodes, Nodes(i + 1), d, topK)
  {
    NotNearer(nodes, Nodes(i), d, topK, i);
    assert Nodes(i) + {i} == Nodes(i + 1);
  }
}
