/** Exact nearest-neighbour answers: a list of hits that are the `k` nearest items of a set.
    The distances of a sorted answer are determined by the set alone, answers of parts merge
    into an answer of the whole, and a larger set never gives a worse answer. */
module TopK {

  datatype Hit<T> = Hit(id: T, dist: real)

  function Ids<T>(hs: seq<Hit<T>>): (r: set<T>)
    ensures forall i :: 0 <= i < |hs| ==> hs[i].id in r
    ensures forall x :: x in r ==> exists i :: 0 <= i < |hs| && hs[i].id == x
  {
    set i | 0 <= i < |hs| :: hs[i].id
  }

  function Dists<T>(hs: seq<Hit<T>>): (r: seq<real>)
    ensures |r| == |hs| && forall i :: 0 <= i < |r| ==> r[i] == hs[i].dist
  {
    seq(|hs|, i requires 0 <= i < |hs| => hs[i].dist)
  }

  predicate Distinct<T(==)>(hs: seq<Hit<T>>) {
    forall i, j :: 0 <= i < j < |hs| ==> hs[i].id != hs[j].id
  }

  predicate Sorted<T>(hs: seq<Hit<T>>) {
    forall i, j :: 0 <= i < j < |hs| ==> hs[i].dist <= hs[j].dist
  }

  function Min(a: nat, b: nat): nat {
    if a < b then a else b
  }

  /** Every hit is an item of `s` at its true distance, listed once. */
  ghost predicate HitsOf<T(!new)>(hs: seq<Hit<T>>, s: set<T>, d: T -> real) {
    Distinct(hs) && Ids(hs) <= s && forall i :: 0 <= i < |hs| ==> hs[i].dist == d(hs[i].id)
  }

  /** No item outside `hs` is closer than one inside. */
  ghost predicate Nearest<T(!new)>(hs: seq<Hit<T>>, s: set<T>, d: T -> real) {
    forall x, i :: x in s && x !in Ids(hs) && 0 <= i < |hs| ==> hs[i].dist <= d(x)
  }

  /** `hs` is the `k` nearest items of `s`, or all of them when there are fewer. */
  ghost predicate TopOf<T(!new)>(hs: seq<Hit<T>>, s: set<T>, d: T -> real, k: nat) {
    HitsOf(hs, s, d) && |hs| == Min(k, |s|) && Nearest(hs, s, d)
  }

  /** The items `0 .. n - 1`. */
  function Nodes(n: nat): (r: set<nat>)
    ensures |r| == n && forall x: nat :: x in r <==> x < n
  {
    if n == 0 then {} else Nodes(n - 1) + {n - 1}
  }

  // ---- counting ------------------------------------------------------------------

  lemma {:induction false} SubsetCard<T>(a: set<T>, b: set<T>)
    requires a <= b
    ensures |a| <= |b|
    ensures |a| == |b| ==> a == b
    decreases |a|
  {
    if a != {} {
      var x :| x in a;
      SubsetCard(a - {x}, b - {x});
      assert a == (a - {x}) + {x} && b == (b - {x}) + {x};
    } else if |a| == |b| {
      assert b == {};
    }
  }

  lemma {:induction false} IdsSplit<T>(hs: seq<Hit<T>>)
    requires hs != []
    ensures Ids(hs) == {hs[0].id} + Ids(hs[1..])
  {
    forall x | x in Ids(hs) ensures x in {hs[0].id} + Ids(hs[1..]) {
      var i :| 0 <= i < |hs| && hs[i].id == x;
      if i > 0 {
        assert hs[1..][i - 1].id == x;
      }
    }
    forall x | x in Ids(hs[1..]) ensures x in Ids(hs) {
      var i :| 0 <= i < |hs[1..]| && hs[1..][i].id == x;
      assert hs[i + 1].id == x;
    }
  }

  /** A list has as many ids as hits exactly when no id repeats. */
  lemma {:induction false} IdsCard<T>(hs: seq<Hit<T>>)
    ensures |Ids(hs)| <= |hs|
    ensures |Ids(hs)| == |hs| <==> Distinct(hs)
  {
    if hs == [] {
      assert Ids(hs) == {};
    } else {
      var tail := hs[1..];
      IdsCard(tail);
      IdsSplit(hs);
      if hs[0].id in Ids(tail) {
        assert Ids(hs) == Ids(tail);
        var i :| 0 <= i < |tail| && tail[i].id == hs[0].id;
        assert hs[0].id == hs[i + 1].id;
      } else {
        assert |Ids(hs)| == 1 + |Ids(tail)|;
        DistinctTail(hs);
      }
    }
  }

  lemma {:induction false} DistinctTail<T>(hs: seq<Hit<T>>)
    requires hs != [] && hs[0].id !in Ids(hs[1..])
    ensures Distinct(hs) <==> Distinct(hs[1..])
  {
    var tail := hs[1..];
    if Distinct(tail) {
      forall i, j | 0 <= i < j < |hs| ensures hs[i].id != hs[j].id {
        if i == 0 {
          assert tail[j - 1].id == hs[j].id;
        } else {
          assert tail[i - 1].id != tail[j - 1].id;
        }
      }
    } else {
      var i, j :| 0 <= i < j < |tail| && tail[i].id == tail[j].id;
      assert hs[i + 1].id == hs[j + 1].id;
    }
  }

  /** Reordering changes neither the ids nor whether they repeat. */
  lemma {:induction false} Reordered<T>(a: seq<Hit<T>>, b: seq<Hit<T>>)
    requires multiset(a) == multiset(b)
    ensures |a| == |b| && Ids(a) == Ids(b) && (Distinct(a) <==> Distinct(b))
  {
    assert |multiset(a)| == |a| && |multiset(b)| == |b|;
    forall x | x in Ids(a) ensures x in Ids(b) {
      var i :| 0 <= i < |a| && a[i].id == x;
      assert a[i] in multiset(b);
    }
    forall x | x in Ids(b) ensures x in Ids(a) {
      var i :| 0 <= i < |b| && b[i].id == x;
      assert b[i] in multiset(a);
    }
    IdsCard(a);
    IdsCard(b);
  }

  lemma {:induction false} ReorderedTop<T(!new)>(a: seq<Hit<T>>, b: seq<Hit<T>>, s: set<T>, d: T -> real, k: nat)
    requires multiset(a) == multiset(b) && TopOf(a, s, d, k)
    ensures TopOf(b, s, d, k)
  {
    Reordered(a, b);
    forall i | 0 <= i < |b| ensures b[i] in a {
      assert b[i] in multiset(a);
    }
  }

  // ---- uniqueness, merging, monotonicity -----------------------------------------

  lemma {:induction false} PrefixIds<T>(hs: seq<Hit<T>>, i: nat, q: nat)
    requires q < i <= |hs|
    ensures hs[q].id in Ids(hs[..i])
  {
    assert hs[..i][q] == hs[q];
  }

  lemma {:induction false} PrefixOf<T>(hs: seq<Hit<T>>, i: nat, x: T) returns (q: nat)
    requires i <= |hs| && x in Ids(hs[..i])
    ensures q < i && hs[q].id == x
  {
    q :| 0 <= q < |hs[..i]| && hs[..i][q].id == x;
  }

  /** An item nearer than the hit at `i` is among the hits before `i`. */
  lemma {:induction false} NearerIsBefore<T(!new)>(hs: seq<Hit<T>>, s: set<T>, d: T -> real, k: nat, x: T, i: nat)
    requires Sorted(hs) && TopOf(hs, s, d, k) && x in s && i < |hs| && d(x) < hs[i].dist
    ensures x in Ids(hs[..i])
  {
    assert x in Ids(hs);
    var q :| 0 <= q < |hs| && hs[q].id == x;
    assert q < i;
    PrefixIds(hs, i, q);
  }

  lemma {:induction false} PrefixCard<T>(hs: seq<Hit<T>>, i: nat)
    requires Distinct(hs) && i <= |hs|
    ensures |Ids(hs[..i])| == i
  {
    IdsCard(hs[..i]);
  }

  /** An answer over a larger set is position by position at least as near. */
  lemma {:induction false} LargerIsNearer<T(!new)>(
    a: seq<Hit<T>>, s: set<T>, b: seq<Hit<T>>, t: set<T>, d: T -> real, k: nat, i: nat)
    requires Sorted(a) && TopOf(a, s, d, k) && Sorted(b) && TopOf(b, t, d, k) && s <= t && i < |a|
    ensures |a| <= |b| && b[i].dist <= a[i].dist
  {
    hide Nearest;
    SubsetCard(s, t);
    if b[i].dist > a[i].dist {
      forall x | x in Ids(a[..i + 1]) ensures x in Ids(b[..i]) {
        var p := PrefixOf(a, i + 1, x);
        NearerIsBefore(b, t, d, k, x, i);
      }
      SubsetCard(Ids(a[..i + 1]), Ids(b[..i]));
      PrefixCard(a, i + 1);
      PrefixCard(b, i);
      assert false;
    }
  }

  /** Two sorted answers for the same set have the same distances. */
  lemma {:induction false} SameDistances<T(!new)>(a: seq<Hit<T>>, b: seq<Hit<T>>, s: set<T>, d: T -> real, k: nat)
    requires Sorted(a) && TopOf(a, s, d, k) && Sorted(b) && TopOf(b, s, d, k)
    ensures Dists(a) == Dists(b)
  {
    hide TopOf, Sorted;
    assert |a| == |b| == Min(k, |s|) by { TopSize(a, s, d, k); TopSize(b, s, d, k); }
    forall i | 0 <= i < |a| ensures Dists(a)[i] == Dists(b)[i] {
      LargerIsNearer(a, s, b, s, d, k, i);
      LargerIsNearer(b, s, a, s, d, k, i);
    }
  }

  lemma {:induction false} TopSize<T(!new)>(a: seq<Hit<T>>, s: set<T>, d: T -> real, k: nat)
    requires TopOf(a, s, d, k)
    ensures |a| == Min(k, |s|) && Ids(a) <= s && |Ids(a)| == |a|
  {
    IdsCard(a);
  }

  /** A part with an item left out is full, and its items all beat that item. */
  lemma {:induction false} PartIsFull<T(!new)>(part: seq<Hit<T>>, s: set<T>, d: T -> real, k: nat, x: T)
    requires TopOf(part, s, d, k) && x in s && x !in Ids(part)
    ensures |Ids(part)| == k && forall y :: y in Ids(part) ==> d(y) <= d(x)
  {
    TopSize(part, s, d, k);
    SubsetCard(Ids(part) + {x}, s);
    forall y | y in Ids(part) ensures d(y) <= d(x) {
      var p :| 0 <= p < |part| && part[p].id == y;
    }
  }

  /** An item left out of a part's own answer cannot beat a hit of the merged answer. */
  lemma {:induction false} LeftOut<T(!new)>(
    part: seq<Hit<T>>, s: set<T>, r: seq<Hit<T>>, t: set<T>, d: T -> real, k: nat, x: T, i: nat)
    requires TopOf(part, s, d, k) && TopOf(r, Ids(part) + t, d, k)
    requires x in s && x !in Ids(part) && i < |r|
    ensures r[i].dist <= d(x)
  {
    PartIsFull(part, s, d, k, x);
    if r[i].dist > d(x) {
      TopSize(r, Ids(part) + t, d, k);
      assert r[i].dist == d(r[i].id);
      assert r[i].id !in Ids(part);
      forall y | y in Ids(part) ensures y in Ids(r) {
        assert d(y) < r[i].dist;
      }
      SubsetCard(Ids(part) + {r[i].id}, Ids(r));
      assert false;
    }
  }

  /** Replacing a part by its own `k` nearest items does not change the answer. */
  lemma {:induction false} PartByItsTop<T(!new)>(
    part: seq<Hit<T>>, s: set<T>, r: seq<Hit<T>>, t: set<T>, d: T -> real, k: nat)
    requires TopOf(part, s, d, k) && s !! t && TopOf(r, Ids(part) + t, d, k)
    ensures TopOf(r, s + t, d, k)
  {
    TopSize(part, s, d, k);
    TopSize(r, Ids(part) + t, d, k);
    assert |Ids(part) + t| == |Ids(part)| + |t| && |s + t| == |s| + |t|;
    forall x, i | x in s + t && x !in Ids(r) && 0 <= i < |r| ensures r[i].dist <= d(x) {
      if x in s && x !in Ids(part) {
        LeftOut(part, s, r, t, d, k, x, i);
      }
    }
  }

  /** The first `j` of a sorted answer are the `j` nearest. */
  lemma {:induction false} ShorterTop<T(!new)>(hs: seq<Hit<T>>, s: set<T>, d: T -> real, k: nat, j: nat)
    requires Sorted(hs) && TopOf(hs, s, d, k) && j <= k
    ensures var r := if |hs| > j then hs[..j] else hs; Sorted(r) && TopOf(r, s, d, j)
  {
    if |hs| > j {
      var r := hs[..j];
      forall x | x in Ids(r) ensures x in Ids(hs) {
        var q := PrefixOf(hs, j, x);
      }
      forall x, i | x in s && x !in Ids(r) && 0 <= i < |r| ensures r[i].dist <= d(x) {
        if d(x) < hs[i].dist {
          NearerIsBefore(hs, s, d, k, x, i);
          var q := PrefixOf(hs, i, x);
          PrefixIds(hs, j, q);
          assert false;
        }
      }
    }
  }

  // ---- complete lists ------------------------------------------------------------

  /** A list of everything in the set. */
  ghost predicate AllOf<T(!new)>(hs: seq<Hit<T>>, s: set<T>, d: T -> real) {
    HitsOf(hs, s, d) && Ids(hs) == s
  }

  lemma {:induction false} AllIsTop<T(!new)>(hs: seq<Hit<T>>, s: set<T>, d: T -> real, k: nat)
    requires AllOf(hs, s, d) && k >= |hs|
    ensures TopOf(hs, s, d, k)
  {
    IdsCard(hs);
  }

  lemma {:induction false} ConcatIds<T>(a: seq<Hit<T>>, b: seq<Hit<T>>)
    ensures Ids(a + b) == Ids(a) + Ids(b)
  {
    var r := a + b;
    forall x | x in Ids(r) ensures x in Ids(a) + Ids(b) {
      var i :| 0 <= i < |r| && r[i].id == x;
      if i < |a| {
        assert a[i].id == x;
      } else {
        assert b[i - |a|].id == x;
      }
    }
    forall x | x in Ids(a) ensures x in Ids(r) {
      var i :| 0 <= i < |a| && a[i].id == x;
      assert r[i].id == x;
    }
    forall x | x in Ids(b) ensures x in Ids(r) {
      var i :| 0 <= i < |b| && b[i].id == x;
      assert r[|a| + i].id == x;
    }
  }

  lemma {:induction false} ConcatHits<T(!new)>(a: seq<Hit<T>>, s: set<T>, b: seq<Hit<T>>, t: set<T>, d: T -> real)
    requires HitsOf(a, s, d) && HitsOf(b, t, d) && s !! t
    ensures HitsOf(a + b, s + t, d)
  {
    ConcatIds(a, b);
    IdsCard(a);
    IdsCard(b);
    assert |Ids(a) + Ids(b)| == |Ids(a)| + |Ids(b)|;
    IdsCard(a + b);
  }

  lemma {:induction false} ConcatAll<T(!new)>(a: seq<Hit<T>>, s: set<T>, b: seq<Hit<T>>, t: set<T>, d: T -> real)
    requires AllOf(a, s, d) && AllOf(b, t, d) && s !! t
    ensures AllOf(a + b, s + t, d)
  {
    hide HitsOf;
    ConcatHits(a, s, b, t, d);
    ConcatIds(a, b);
  }

  /** Sorting a complete list and keeping the first `k` gives the answer. */
  lemma {:induction false} SortAndTrim<T(!new)>(hs: seq<Hit<T>>, sorted: seq<Hit<T>>, s: set<T>, d: T -> real, k: nat)
    requires AllOf(hs, s, d) && Sorted(sorted) && multiset(sorted) == multiset(hs)
    ensures var r := if |sorted| > k then sorted[..k] else sorted; Sorted(r) && TopOf(r, s, d, k)
  {
    hide Sorted, TopOf, HitsOf, AllOf;
    var all := if |hs| > k then |hs| else k;
    AllIsTop(hs, s, d, all);
    ReorderedTop(hs, sorted, s, d, all);
    ShorterTop(sorted, s, d, all, k);
  }
}
