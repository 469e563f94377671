/** The two loops of HNSW search over a layered neighbour graph: greedy descent in one layer
    and beam search on layer 0. The distance from the query to each node is a parameter. */
module Hnsw {
  import opened Wrappers
  import opened TopK

  type Candidate = Hit<nat>

  datatype Index = Index(
    rowIds: seq<nat>,
    neighbors: seq<seq<seq<nat>>>,  // [node][layer]
    entry: Option<nat>,
    maxLayer: nat)
  {
    /** The links of a node on a layer; none where the graph has no such node or layer. */
    function Links(node: nat, layer: nat): seq<nat> {
      if node < |neighbors| && layer < |neighbors[node]| then neighbors[node][layer] else []
    }

    /** Links and entry point name existing nodes. */
    ghost predicate WellFormed() {
      && (entry.Some? ==> entry.value < |rowIds|)
      && forall node: nat, layer: nat, x :: x in Links(node, layer) ==> x < |rowIds|
    }
  }

  // ---- greedy descent ------------------------------------------------------------

  function Closer(n: nat, d: nat -> real, limit: real): set<nat> {
    set x: nat | x < n && d(x) < limit
  }

  lemma {:induction false} CloserShrinks(n: nat, d: nat -> real, x: nat, limit: real)
    requires x < n && d(x) < limit
    ensures |Closer(n, d, d(x))| < |Closer(n, d, limit)|
  {
    SubsetCard(Closer(n, d, d(x)) + {x}, Closer(n, d, limit));
  }

  /** Every step of the path leads to the nearest neighbour, which is strictly nearer. */
  ghost predicate Downhill(h: Index, d: nat -> real, layer: nat, path: seq<nat>) {
    && path != []
    && forall i :: 0 <= i < |path| - 1 ==> DownStep(h, d, layer, path[i], path[i + 1])
  }

  ghost predicate DownStep(h: Index, d: nat -> real, layer: nat, from: nat, to: nat) {
    && to in h.Links(from, layer) && d(to) < d(from)
    && forall y :: y in h.Links(from, layer) ==> d(to) <= d(y)
  }

  /** Greedy descent on the layer leads from `from` to `to`, a local minimum. */
  ghost predicate Greedy(h: Index, d: nat -> real, layer: nat, from: nat, to: nat) {
    && (exists path :: Downhill(h, d, layer, path) && path[0] == from && path[|path| - 1] == to)
    && forall x :: x in h.Links(to, layer) ==> d(to) <= d(x)
  }

  lemma {:induction false} OneStepDown(h: Index, d: nat -> real, layer: nat, path: seq<nat>, to: nat)
    requires Downhill(h, d, layer, path) && DownStep(h, d, layer, path[|path| - 1], to)
    ensures Downhill(h, d, layer, path + [to])
  {
    hide DownStep;
  }

  /** Moves to the nearest neighbour as long as that is strictly nearer: a local minimum of the
      layer no farther than the entry. */
  method GreedyNearest(h: Index, d: nat -> real, entry: nat, layer: nat) returns (best: nat)
    requires h.WellFormed() && entry < |h.rowIds|
    ensures best < |h.rowIds| && d(best) <= d(entry) && Greedy(h, d, layer, entry, best)
  {
    best := entry;
    var bestDist := d(entry);
    ghost var path := [entry];
    while true
      invariant best < |h.rowIds| && bestDist == d(best) <= d(entry)
      invariant Downhill(h, d, layer, path) && path[0] == entry && path[|path| - 1] == best
      decreases |Closer(|h.rowIds|, d, bestDist)|
    {
      var improved := false;
      var links := h.Links(best, layer);
      ghost var start, from := bestDist, best;
      for i := 0 to |links|
        invariant best < |h.rowIds| && bestDist == d(best) <= start
        invariant improved <==> bestDist < start
        invariant if improved then best in links else best == from
        invariant forall k :: 0 <= k < i ==> bestDist <= d(links[k])
      {
        assert links[i] in h.Links(from, layer);
        var dist := d(links[i]);
        if dist < bestDist {
          bestDist := dist;
          best := links[i];
          improved := true;
        }
      }
      if !improved {
        return;
      }
      assert DownStep(h, d, layer, from, best);
      OneStepDown(h, d, layer, path, best);
      path := path + [best];
      CloserShrinks(|h.rowIds|, d, best, start);
    }
  }

  // ---- the two heaps -------------------------------------------------------------

  function Without<T>(hs: seq<Hit<T>>, k: nat): seq<Hit<T>>
    requires k < |hs|
  {
    hs[..k] + hs[k + 1..]
  }

  lemma {:induction false} WithoutIds<T>(hs: seq<Hit<T>>, k: nat)
    requires k < |hs| && Distinct(hs)
    ensures Distinct(Without(hs, k)) && Ids(Without(hs, k)) == Ids(hs) - {hs[k].id}
  {
    var r := Without(hs, k);
    forall x | x in Ids(hs) - {hs[k].id} ensures x in Ids(r) {
      var i :| 0 <= i < |hs| && hs[i].id == x;
      assert r[if i < k then i else i - 1] == hs[i];
    }
    forall x | x in Ids(r) ensures x in Ids(hs) - {hs[k].id} {
      var i :| 0 <= i < |r| && r[i].id == x;
      assert r[i] == hs[if i < k then i else i + 1];
    }
  }

  /** The least element of a min-heap, ties in any order. */
  method PopNearest(hs: seq<Candidate>) returns (c: Candidate, rest: seq<Candidate>, ghost k: nat)
    requires hs != []
    ensures k < |hs| && c == hs[k] && rest == Without(hs, k)
    ensures forall i :: 0 <= i < |hs| ==> c.dist <= hs[i].dist
  {
    var least := 0;
    for i := 1 to |hs|
      invariant least < i && forall j :: 0 <= j < i ==> hs[least].dist <= hs[j].dist
    {
      if hs[i].dist < hs[least].dist {
        least := i;
      }
    }
    k := least;
    c, rest := hs[least], Without(hs, least);
  }

  method FarthestAt(hs: seq<Candidate>) returns (k: nat)
    requires hs != []
    ensures k < |hs| && forall i :: 0 <= i < |hs| ==> hs[i].dist <= hs[k].dist
  {
    k := 0;
    for i := 1 to |hs|
      invariant k < i && forall j :: 0 <= j < i ==> hs[j].dist <= hs[k].dist
    {
      if hs[i].dist > hs[k].dist {
        k := i;
      }
    }
  }

  // ---- beam search ---------------------------------------------------------------

  function Width(ef: int): nat {
    if ef > 1 then ef else 1
  }

  lemma {:induction false} Added(hs: seq<Candidate>, s: set<nat>, d: nat -> real, x: nat)
    requires HitsOf(hs, s, d) && x !in s
    ensures HitsOf(hs + [Hit(x, d(x))], s + {x}, d) && Ids(hs + [Hit(x, d(x))]) == Ids(hs) + {x}
  {
    var r := hs + [Hit(x, d(x))];
    forall y | y in Ids(r) ensures y in Ids(hs) + {x} {
      var i :| 0 <= i < |r| && r[i].id == y;
      if i < |hs| {
        assert hs[i].id == y;
      }
    }
    forall y | y in Ids(hs) + {x} ensures y in Ids(r) {
      if y == x {
        assert r[|hs|].id == x;
      } else {
        var i :| 0 <= i < |hs| && hs[i].id == y;
        assert r[i].id == y;
      }
    }
  }

  /** A new item that does not beat a full answer leaves it as it is. */
  lemma {:induction false} NotNearer(hs: seq<Candidate>, s: set<nat>, d: nat -> real, k: nat, x: nat)
    requires TopOf(hs, s, d, k) && x !in s && |hs| == k
    requires forall i :: 0 <= i < |hs| ==> hs[i].dist <= d(x)
    ensures TopOf(hs, s + {x}, d, k)
  {
  }

  /** A new item extends an answer that has room or that it beats. */
  lemma {:induction false} Pushed(hs: seq<Candidate>, s: set<nat>, d: nat -> real, k: nat, x: nat, far: nat)
    requires TopOf(hs, s, d, k) && x !in s
    requires |hs| < k || (far < |hs| && d(x) < hs[far].dist)
    ensures var r := hs + [Hit(x, d(x))]; HitsOf(r, s + {x}, d) && Nearest(r, s + {x}, d)
  {
    Added(hs, s, d, x);
    IdsCard(hs);
    if |hs| < k {
      SubsetCard(Ids(hs), s);
    }
  }

  /** Dropping the farthest of `k + 1` leaves the `k` nearest. */
  lemma {:induction false} DroppedFarthest(hs: seq<Candidate>, s: set<nat>, d: nat -> real, k: nat, far: nat)
    requires HitsOf(hs, s, d) && Nearest(hs, s, d) && |hs| == k + 1 && far < |hs|
    requires forall i :: 0 <= i < |hs| ==> hs[i].dist <= hs[far].dist
    ensures TopOf(Without(hs, far), s, d, k)
  {
    WithoutIds(hs, far);
    IdsCard(hs);
    SubsetCard(Ids(hs), s);
    var r := Without(hs, far);
    forall i | 0 <= i < |r| ensures r[i] in hs {
      assert r[i] == hs[if i < far then i else i + 1];
    }
    forall x, i | x in s && x !in Ids(r) && 0 <= i < |r| ensures r[i].dist <= d(x) {
      assert r[i] == hs[if i < far then i else i + 1];
    }
  }

  /** Offers a newly visited node to the answer: the two heap pushes and the pop. */
  method Offer(results: seq<Candidate>, ghost s: set<nat>, d: nat -> real, ef: int, x: nat)
    returns (r: seq<Candidate>, taken: bool)
    requires TopOf(results, s, d, Width(ef)) && s != {} && x !in s
    ensures TopOf(r, s + {x}, d, Width(ef)) && Ids(r) <= Ids(results) + {x}
    ensures !taken ==> x !in Ids(r)
  {
    var dist := d(x);
    assert |s| > 0;
    var far := FarthestAt(results);
    if |results| < ef || dist < results[far].dist {
      Pushed(results, s, d, Width(ef), x, far);
      Added(results, s, d, x);
      taken := true;
      r := results + [Hit(x, dist)];
      if |r| > ef {
        far := FarthestAt(r);
        DroppedFarthest(r, s + {x}, d, Width(ef), far);
        WithoutIds(r, far);
        r := Without(r, far);
      }
    } else {
      taken, r := false, results;
      NotNearer(results, s, d, Width(ef), x);
    }
  }

  /** Every link of a node in `s` on the layer leads into `t`. */
  ghost predicate LinksWithin(h: Index, layer: nat, s: set<nat>, t: set<nat>) {
    forall node, x :: node in s && x in h.Links(node, layer) ==> x in t
  }

  /** What one beam search achieves: of the nodes it visited, the answer is the nearest `ef`
      (at least one), and it has looked at every link of every node it returns. */
  ghost predicate BeamResult(h: Index, d: nat -> real, entry: nat, layer: nat, ef: int,
                             results: seq<Candidate>, visited: set<nat>) {
    && TopOf(results, visited, d, Width(ef))
    && entry in visited && visited <= Nodes(|h.rowIds|)
    && LinksWithin(h, layer, Ids(results), visited)
  }

  /** Both heaps mid-search: `results` answers for what was visited, and a returned node is
      either still queued or already expanded. */
  ghost predicate BeamState(h: Index, d: nat -> real, layer: nat, ef: int, visited: set<nat>,
                            queue: seq<Candidate>, results: seq<Candidate>, expanded: set<nat>) {
    && visited != {} && visited <= Nodes(|h.rowIds|)
    && TopOf(results, visited, d, Width(ef))
    && HitsOf(queue, visited, d)
    && Ids(results) <= Ids(queue) + expanded
    && LinksWithin(h, layer, expanded, visited)
  }

  lemma {:induction false} VisitedBound(h: Index, visited: set<nat>)
    requires visited <= Nodes(|h.rowIds|)
    ensures |visited| <= |h.rowIds|
  {
    SubsetCard(visited, Nodes(|h.rowIds|));
  }

  /** Once the nearest queued node is farther than a returned one of a full answer, no
      returned node is still queued. */
  lemma {:induction false} NothingQueued(queue: seq<Candidate>, results: seq<Candidate>, visited: set<nat>, d: nat -> real,
                                         k: nat, far: nat)
    requires HitsOf(queue, visited, d) && HitsOf(results, visited, d) && k < |queue| && far < |results|
    requires forall i :: 0 <= i < |queue| ==> queue[k].dist <= queue[i].dist
    requires forall i :: 0 <= i < |results| ==> results[i].dist <= results[far].dist
    requires queue[k].dist > results[far].dist
    ensures Ids(queue) !! Ids(results)
  {
    forall x | x in Ids(queue) ensures x !in Ids(results) {
      var i :| 0 <= i < |queue| && queue[i].id == x;
      assert d(x) > results[far].dist;
    }
  }

  /** The state while the links of `node` are being visited. */
  ghost predicate Expanding(h: Index, d: nat -> real, layer: nat, ef: int, visited: set<nat>,
                            queue: seq<Candidate>, results: seq<Candidate>, expanded: set<nat>, node: nat) {
    && visited != {} && visited <= Nodes(|h.rowIds|)
    && TopOf(results, visited, d, Width(ef))
    && HitsOf(queue, visited, d)
    && Ids(results) <= Ids(queue) + expanded + {node}
    && LinksWithin(h, layer, expanded, visited)
  }

  /** Visits one new link. */
  method Visit(h: Index, d: nat -> real, layer: nat, ef: int, x: nat, ghost seen: set<nat>,
               waiting: seq<Candidate>, answer: seq<Candidate>, ghost expanded: set<nat>, ghost node: nat)
    returns (queue: seq<Candidate>, results: seq<Candidate>)
    requires Expanding(h, d, layer, ef, seen, waiting, answer, expanded, node)
    requires x < |h.rowIds| && x !in seen
    ensures Expanding(h, d, layer, ef, seen + {x}, queue, results, expanded, node)
  {
    hide TopOf, HitsOf, LinksWithin, Ids;
    var taken;
    queue := waiting;
    results, taken := Offer(answer, seen, d, ef, x);
    StillWithin(h, layer, expanded, seen, x);
    if taken {
      Added(waiting, seen, d, x);
      queue := waiting + [Hit(x, d(x))];
    } else {
      MoreItems(waiting, seen, d, x);
    }
  }

  /** Visits the unvisited links of `node`, offering each to the answer and queueing the
      ones it takes. */
  method Expand(h: Index, d: nat -> real, layer: nat, ef: int, node: nat, seen: set<nat>,
                waiting: seq<Candidate>, answer: seq<Candidate>, ghost expanded: set<nat>)
    returns (visited: set<nat>, queue: seq<Candidate>, results: seq<Candidate>)
    requires h.WellFormed() && Expanding(h, d, layer, ef, seen, waiting, answer, expanded, node)
    ensures seen <= visited && (visited == seen ==> queue == waiting)
    ensures BeamState(h, d, layer, ef, visited, queue, results, expanded + {node})
  {
    hide Expanding, BeamState;
    visited, queue, results := seen, waiting, answer;
    var links := h.Links(node, layer);
    for i := 0 to |links|
      invariant seen <= visited && (visited == seen ==> queue == waiting)
      invariant Expanding(h, d, layer, ef, visited, queue, results, expanded, node)
      invariant forall j :: 0 <= j < i ==> links[j] in visited
    {
      var x := links[i];
      assert x in h.Links(node, layer);
      if x !in visited {
        queue, results := Visit(h, d, layer, ef, x, visited, queue, results, expanded, node);
        visited := visited + {x};
      }
    }
    Expanded(h, d, layer, ef, visited, queue, results, expanded, node);
  }

  lemma {:induction false} Expanded(h: Index, d: nat -> real, layer: nat, ef: int, visited: set<nat>,
                                    queue: seq<Candidate>, results: seq<Candidate>, expanded: set<nat>, node: nat)
    requires Expanding(h, d, layer, ef, visited, queue, results, expanded, node)
    requires forall j :: 0 <= j < |h.Links(node, layer)| ==> h.Links(node, layer)[j] in visited
    ensures BeamState(h, d, layer, ef, visited, queue, results, expanded + {node})
  {
    hide TopOf, HitsOf, LinksWithin, Ids;
    AllWithin(h, layer, expanded, node, visited);
  }

  lemma {:induction false} StillWithin(h: Index, layer: nat, s: set<nat>, t: set<nat>, x: nat)
    requires LinksWithin(h, layer, s, t)
    ensures LinksWithin(h, layer, s, t + {x})
  {
  }

  lemma {:induction false} MoreItems(hs: seq<Candidate>, s: set<nat>, d: nat -> real, x: nat)
    requires HitsOf(hs, s, d)
    ensures HitsOf(hs, s + {x}, d)
  {
  }

  lemma {:induction false} AllWithin(h: Index, layer: nat, s: set<nat>, node: nat, t: set<nat>)
    requires LinksWithin(h, layer, s, t)
    requires forall j :: 0 <= j < |h.Links(node, layer)| ==> h.Links(node, layer)[j] in t
    ensures LinksWithin(h, layer, s + {node}, t)
  {
  }

  /** Best-first search from `entry` keeping the `ef` nearest nodes seen so far. */
  method BeamSearch(h: Index, d: nat -> real, entry: nat, layer: nat, ef: int)
    returns (results: seq<Candidate>, ghost visited: set<nat>)
    requires h.WellFormed() && entry < |h.rowIds|
    ensures 1 <= |results| <= Width(ef) && HitsOf(results, Nodes(|h.rowIds|), d)
    ensures BeamResult(h, d, entry, layer, ef, results, visited)
  {
    hide TopOf, HitsOf, LinksWithin;
    var seen := {entry};
    var queue := [Hit(entry, d(entry))];
    results := [Hit(entry, d(entry))];
    ghost var expanded: set<nat> := {};
    Started(h, d, entry, layer, ef);
    while queue != []
      invariant entry in seen && BeamState(h, d, layer, ef, seen, queue, results, expanded)
      decreases |h.rowIds| - |seen|, |queue|
    {
      ghost var before, was := seen, queue;
      var c, rest, k := PopNearest(queue);
      var far := FarthestIn(results, seen, d, ef);
      if |results| >= ef && c.dist > results[far].dist {
        TopHits(results, seen, d, Width(ef));
        NothingQueued(queue, results, seen, d, k, far);
        FromExpanded(h, layer, Ids(results), expanded, seen);
        visited := seen;
        Found(h, results, seen, d, ef);
        return;
      }
      Popped(queue, seen, d, k);
      seen, queue, results := Expand(h, d, layer, ef, c.id, seen, rest, results, expanded);
      expanded := expanded + {c.id};
      VisitedBound(h, seen);
      SubsetCard(before, seen);
    }
    assert Ids(queue) == {};
    FromExpanded(h, layer, Ids(results), expanded, seen);
    visited := seen;
    Found(h, results, seen, d, ef);
  }

  lemma {:induction false} Found(h: Index, results: seq<Candidate>, s: set<nat>, d: nat -> real, ef: int)
    requires TopOf(results, s, d, Width(ef)) && s != {} && s <= Nodes(|h.rowIds|)
    ensures 1 <= |results| <= Width(ef) && HitsOf(results, Nodes(|h.rowIds|), d)
  {
    hide Ids;
  }

  method FarthestIn(results: seq<Candidate>, ghost s: set<nat>, d: nat -> real, ef: int) returns (k: nat)
    requires TopOf(results, s, d, Width(ef)) && s != {}
    ensures k < |results| && forall i :: 0 <= i < |results| ==> results[i].dist <= results[k].dist
  {
    k := FarthestAt(results);
  }

  lemma {:induction false} Started(h: Index, d: nat -> real, entry: nat, layer: nat, ef: int)
    requires entry < |h.rowIds|
    ensures var hs := [Hit(entry, d(entry))]; BeamState(h, d, layer, ef, {entry}, hs, hs, {})
  {
    var hs := [Hit(entry, d(entry))];
    assert hs[0].id in Ids(hs) && Ids(hs) == {entry};
  }

  lemma {:induction false} TopHits(hs: seq<Candidate>, s: set<nat>, d: nat -> real, k: nat)
    requires TopOf(hs, s, d, k)
    ensures HitsOf(hs, s, d)
  {
  }

  lemma {:induction false} Popped(queue: seq<Candidate>, s: set<nat>, d: nat -> real, k: nat)
    requires HitsOf(queue, s, d) && k < |queue|
    ensures HitsOf(Without(queue, k), s, d) && Ids(queue) == Ids(Without(queue, k)) + {queue[k].id}
    ensures |Without(queue, k)| == |queue| - 1
  {
    WithoutIds(queue, k);
    var r := Without(queue, k);
    forall i | 0 <= i < |r| ensures r[i].dist == d(r[i].id) {
      assert r[i] == queue[if i < k then i else i + 1];
    }
  }

  lemma {:induction false} FromExpanded(h: Index, layer: nat, s: set<nat>, expanded: set<nat>, t: set<nat>)
    requires LinksWithin(h, layer, expanded, t) && s <= expanded
    ensures LinksWithin(h, layer, s, t)
  {
  }

  /** No neighbour of a returned node that was left out is closer than a returned one. */
  lemma {:induction false} NoNearerNeighbour(h: Index, d: nat -> real, entry: nat, layer: nat, ef: int,
                                             results: seq<Candidate>, visited: set<nat>, i: nat, j: nat, x: nat)
    requires BeamResult(h, d, entry, layer, ef, results, visited) && i < |results| && j < |results|
    requires x in h.Links(results[i].id, layer) && x !in Ids(results)
    ensures results[j].dist <= d(x)
  {
    assert results[i].id in Ids(results);
    assert x in visited;
  }
}
