/** Sorting hits by distance, with ties in any order. */
module Sorting {
  import opened TopK

  /** Where `h` goes in a sorted list. */
  method Place<T>(hs: seq<Hit<T>>, h: Hit<T>) returns (k: nat)
    requires Sorted(hs)
    ensures k <= |hs|
    ensures forall i :: 0 <= i < k ==> hs[i].dist <= h.dist
    ensures forall i :: k <= i < |hs| ==> h.dist <= hs[i].dist
  {
    k := |hs|;
    while k > 0 && hs[k - 1].dist > h.dist
      invariant k <= |hs| && forall i :: k <= i < |hs| ==> h.dist <= hs[i].dist
    {
      k := k - 1;
    }
  }

  lemma {:induction false} Placed<T>(hs: seq<Hit<T>>, h: Hit<T>, k: nat)
    requires Sorted(hs) && k <= |hs|
    requires forall i :: 0 <= i < k ==> hs[i].dist <= h.dist
    requires forall i :: k <= i < |hs| ==> h.dist <= hs[i].dist
    ensures var r := hs[..k] + [h] + hs[k..]; Sorted(r) && multiset(r) == multiset(hs) + multiset{h}
  {
    assert hs == hs[..k] + hs[k..];
  }

  /** `sort.Slice` on distances: a sorted reordering, nothing more. */
  method SortHits<T>(hs: seq<Hit<T>>) returns (r: seq<Hit<T>>)
    ensures Sorted(r) && multiset(r) == multiset(hs)
  {
    r := [];
    for i := 0 to |hs|
      invariant Sorted(r) && multiset(r) == multiset(hs[..i])
    {
      var k := Place(r, hs[i]);
      Placed(r, hs[i], k);
      r := r[..k] + [hs[i]] + r[k..];
      assert hs[..i + 1] == hs[..i] + [hs[i]];
    }
    assert hs[..|hs|] == hs;
  }

  // ---- sorting as a function -----------------------------------------------------

  /** A way of sorting: whatever its rule for ties, it is a function of its input. */
  ghost predicate Sorts<T(!new)>(sort: seq<Hit<T>> -> seq<Hit<T>>) {
    forall hs :: Sorted(sort(hs)) && multiset(sort(hs)) == multiset(hs)
  }

  function Insert<T>(hs: seq<Hit<T>>, h: Hit<T>): seq<Hit<T>> {
    if hs == [] || hs[|hs| - 1].dist <= h.dist then hs + [h]
    else Insert(hs[..|hs| - 1], h) + [hs[|hs| - 1]]
  }

  /** One such way: insertion, ties in input order. */
  function StableSort<T>(hs: seq<Hit<T>>): seq<Hit<T>> {
    if hs == [] then [] else Insert(StableSort(hs[..|hs| - 1]), hs[|hs| - 1])
  }

  lemma {:induction false} InsertPermutes<T>(hs: seq<Hit<T>>, h: Hit<T>)
    ensures multiset(Insert(hs, h)) == multiset(hs) + multiset{h}
  {
    if hs != [] && hs[|hs| - 1].dist > h.dist {
      InsertPermutes(hs[..|hs| - 1], h);
      assert hs == hs[..|hs| - 1] + [hs[|hs| - 1]];
    }
  }

  lemma {:induction false} InsertSorted<T>(hs: seq<Hit<T>>, h: Hit<T>)
    requires Sorted(hs)
    ensures Sorted(Insert(hs, h))
  {
    if hs != [] && hs[|hs| - 1].dist > h.dist {
      var front, last := hs[..|hs| - 1], hs[|hs| - 1];
      var r := Insert(front, h);
      InsertSorted(front, h);
      InsertPermutes(front, h);
      forall i | 0 <= i < |r| ensures r[i].dist <= last.dist {
        assert r[i] in multiset(r);
        assert r[i] in front || r[i] == h;
      }
    }
  }

  lemma {:induction false} StableSorts<T>(hs: seq<Hit<T>>)
    ensures Sorted(StableSort(hs)) && multiset(StableSort(hs)) == multiset(hs)
  {
    if hs != [] {
      var n := |hs| - 1;
      StableSorts(hs[..n]);
      InsertSorted(StableSort(hs[..n]), hs[n]);
      InsertPermutes(StableSort(hs[..n]), hs[n]);
      assert hs == hs[..n] + [hs[n]];
    }
  }
}
