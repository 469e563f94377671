/** The local tier of the cache: a byte-bounded map with a recency queue. Sizes are
    unbounded naturals; the clock is a parameter. */
module LruCache {
  type Bytes = seq<int>

  datatype Entry = Entry(value: Bytes, expiresAt: int, size: nat)

  /** `order` lists the keys from least to most recently used. */
  datatype LocalState = LocalState(entries: map<string, Entry>, order: seq<string>, bytes: nat)

  const EMPTY := LocalState(map[], [], 0)

  // ---- the operations as functions -----------------------------------------------

  /** `order.retain(|item| item != key)`. */
  function Retain(order: seq<string>, key: string): seq<string> {
    if order == [] then []
    else
      var front := Retain(order[..|order| - 1], key);
      if order[|order| - 1] == key then front else front + [order[|order| - 1]]
  }

  function SizeOf(entries: map<string, Entry>, key: string): nat {
    if key in entries then entries[key].size else 0
  }

  function Sub(a: nat, b: nat): nat {
    if a >= b then a - b else 0
  }

  function Remove(s: LocalState, key: string): LocalState {
    LocalState(s.entries - {key}, Retain(s.order, key), Sub(s.bytes, SizeOf(s.entries, key)))
  }

  /** A hit moves the key to the recent end. */
  function Touch(s: LocalState, key: string): LocalState {
    s.(order := Retain(s.order, key) + [key])
  }

  function Evict(s: LocalState, maxBytes: nat): LocalState
    decreases |s.order|
  {
    if s.bytes <= maxBytes || s.order == [] then s
    else
      var oldest := s.order[0];
      Evict(LocalState(s.entries - {oldest}, s.order[1..], Sub(s.bytes, SizeOf(s.entries, oldest))), maxBytes)
  }

  /** The state after adding an entry at the recent end, before any eviction. */
  function Added(s: LocalState, key: string, value: Bytes, expiresAt: int): LocalState {
    var r := Remove(s, key);
    LocalState(r.entries[key := Entry(value, expiresAt, |value|)], r.order + [key], r.bytes + |value|)
  }

  function Insert(s: LocalState, key: string, value: Bytes, expiresAt: int, maxBytes: nat): LocalState {
    Evict(Added(s, key, value, expiresAt), maxBytes)
  }

  function RemoveAll(s: LocalState, keys: seq<string>): LocalState {
    if keys == [] then s else Remove(RemoveAll(s, keys[..|keys| - 1]), keys[|keys| - 1])
  }

  // ---- the invariant -------------------------------------------------------------

  function Total(entries: map<string, Entry>, order: seq<string>): nat {
    if order == [] then 0 else SizeOf(entries, order[0]) + Total(entries, order[1..])
  }

  ghost predicate NoRepeats(order: seq<string>) {
    forall i, j :: 0 <= i < j < |order| ==> order[i] != order[j]
  }

  /** The queue lists every key once, sizes are the values' lengths, and the byte count is
      their sum. */
  ghost predicate Consistent(s: LocalState) {
    && NoRepeats(s.order)
    && (forall k :: k in s.order <==> k in s.entries)
    && (forall k :: k in s.entries ==> s.entries[k].size == |s.entries[k].value|)
    && s.bytes == Total(s.entries, s.order)
  }

  ghost predicate Valid(s: LocalState, maxBytes: nat) {
    Consistent(s) && s.bytes <= maxBytes
  }

  lemma {:induction false} EmptyValid(maxBytes: nat)
    ensures Valid(EMPTY, maxBytes)
  {
  }

  lemma {:induction false} TotalAgree(a: map<string, Entry>, b: map<string, Entry>, order: seq<string>)
    requires forall k :: k in order ==> SizeOf(a, k) == SizeOf(b, k)
    ensures Total(a, order) == Total(b, order)
  {
    if order != [] {
      TotalAgree(a, b, order[1..]);
    }
  }

  lemma {:induction false} TotalConcat(entries: map<string, Entry>, a: seq<string>, b: seq<string>)
    ensures Total(entries, a + b) == Total(entries, a) + Total(entries, b)
  {
    if a == [] {
      assert a + b == b;
    } else {
      assert (a + b)[1..] == a[1..] + b;
      TotalConcat(entries, a[1..], b);
    }
  }

  lemma {:induction false} RetainMembers(order: seq<string>, key: string, k: string)
    ensures k in Retain(order, key) <==> k in order && k != key
  {
    if order != [] {
      var n := |order| - 1;
      RetainMembers(order[..n], key, k);
      assert order == order[..n] + [order[n]];
    }
  }

  lemma {:induction false} RetainAbsent(order: seq<string>, key: string)
    requires key !in order
    ensures Retain(order, key) == order
  {
    if order != [] {
      var n := |order| - 1;
      RetainAbsent(order[..n], key);
      assert order == order[..n] + [order[n]];
    }
  }

  lemma {:induction false} RetainNoRepeats(order: seq<string>, key: string)
    requires NoRepeats(order)
    ensures NoRepeats(Retain(order, key))
  {
    if order != [] {
      var n := |order| - 1;
      RetainNoRepeats(order[..n], key);
      RetainMembers(order[..n], key, order[n]);
      assert order[n] !in order[..n];
    }
  }

  /** Retaining drops the key and nothing else. */
  lemma {:induction false} RetainFacts(order: seq<string>, key: string)
    requires NoRepeats(order)
    ensures var r := Retain(order, key);
      && NoRepeats(r) && (forall k :: k in r <==> k in order && k != key)
      && (key !in order ==> r == order)
  {
    hide NoRepeats, Retain;
    RetainNoRepeats(order, key);
    forall k ensures k in Retain(order, key) <==> k in order && k != key {
      RetainMembers(order, key, k);
    }
    if key !in order {
      RetainAbsent(order, key);
    }
  }

  lemma {:induction false} RetainTotal(entries: map<string, Entry>, order: seq<string>, key: string)
    requires NoRepeats(order)
    ensures Total(entries, order) == Total(entries, Retain(order, key)) + (if key in order then SizeOf(entries, key) else 0)
  {
    hide SizeOf;
    if order != [] {
      var n := |order| - 1;
      var last := order[n];
      RetainTotal(entries, order[..n], key);
      RetainFacts(order[..n], key);
      assert order == order[..n] + [last] && last !in order[..n];
      TotalConcat(entries, order[..n], [last]);
      TotalConcat(entries, Retain(order[..n], key), [last]);
      assert Total(entries, [last]) == SizeOf(entries, last) + Total(entries, []);
    }
  }

  lemma {:induction false} RemoveKeeps(s: LocalState, key: string)
    requires Consistent(s)
    ensures Consistent(Remove(s, key)) && Remove(s, key).bytes <= s.bytes
  {
    RetainFacts(s.order, key);
    RetainTotal(s.entries, s.order, key);
    TotalAgree(s.entries, s.entries - {key}, Retain(s.order, key));
  }

  lemma {:induction false} TouchKeeps(s: LocalState, key: string)
    requires Consistent(s) && key in s.entries
    ensures Consistent(Touch(s, key))
  {
    RetainFacts(s.order, key);
    RetainTotal(s.entries, s.order, key);
    TotalConcat(s.entries, Retain(s.order, key), [key]);
  }

  lemma {:induction false} OneTotal(entries: map<string, Entry>, key: string)
    ensures Total(entries, [key]) == SizeOf(entries, key)
  {
    assert Total(entries, []) == 0;
  }

  lemma {:induction false} AddedConsistent(s: LocalState, key: string, value: Bytes, expiresAt: int)
    requires Consistent(s)
    ensures Consistent(Added(s, key, value, expiresAt))
    ensures Added(s, key, value, expiresAt).order == Retain(s.order, key) + [key]
  {
    hide Retain, Total;
    var r := Remove(s, key);
    var a := Added(s, key, value, expiresAt);
    RemoveKeeps(s, key);
    OneTotal(a.entries, key);
    RetainFacts(s.order, key);
    TotalAgree(r.entries, a.entries, r.order);
    TotalConcat(a.entries, r.order, [key]);
  }

  lemma {:induction false} DropOldest(s: LocalState)
    requires Consistent(s) && s.order != []
    ensures var oldest := s.order[0];
      var r := LocalState(s.entries - {oldest}, s.order[1..], Sub(s.bytes, SizeOf(s.entries, oldest)));
      Consistent(r) && r.bytes == s.bytes - SizeOf(s.entries, oldest)
  {
    var oldest, rest := s.order[0], s.order[1..];
    assert s.order == [oldest] + rest;
    assert oldest !in rest;
    TotalAgree(s.entries, s.entries - {oldest}, rest);
  }

  /** What eviction keeps: the longest run of most recent keys that fits, with their values. */
  ghost predicate LongestFittingSuffix(before: LocalState, after: LocalState, maxBytes: nat, k: nat) {
    && k <= |before.order| && after.order == before.order[k..]
    && Total(before.entries, before.order[k..]) <= maxBytes
    && (forall j :: 0 <= j < k ==> Total(before.entries, before.order[j..]) > maxBytes)
    && (forall x :: x in after.entries <==> x in before.entries && x in before.order[k..])
    && (forall x :: x in after.entries ==> after.entries[x] == before.entries[x])
  }

  lemma {:induction false} EvictSurvivors(s: LocalState, maxBytes: nat) returns (k: nat)
    requires Consistent(s)
    ensures LongestFittingSuffix(s, Evict(s, maxBytes), maxBytes, k)
    ensures Valid(Evict(s, maxBytes), maxBytes)
    decreases |s.order|
  {
    hide LongestFittingSuffix, NoRepeats;
    if s.bytes <= maxBytes || s.order == [] {
      k := 0;
      NoEviction(s, maxBytes);
    } else {
      var oldest := s.order[0];
      var t := LocalState(s.entries - {oldest}, s.order[1..], Sub(s.bytes, SizeOf(s.entries, oldest)));
      DropOldest(s);
      var j := EvictSurvivors(t, maxBytes);
      k := j + 1;
      SuffixStep(s, t, Evict(t, maxBytes), maxBytes, j);
    }
  }

  lemma {:induction false} NoEviction(s: LocalState, maxBytes: nat)
    requires Consistent(s) && (s.bytes <= maxBytes || s.order == [])
    ensures LongestFittingSuffix(s, s, maxBytes, 0) && s.bytes <= maxBytes
  {
    assert s.order[0..] == s.order;
  }

  lemma {:induction false} OldestNotLater(order: seq<string>, j: nat)
    requires NoRepeats(order) && order != [] && j < |order|
    ensures order[0] !in order[j + 1..]
  {
  }

  /** Totals of corresponding suffixes agree once the oldest entry is gone. */
  lemma {:induction false} SuffixTotals(s: LocalState, t: LocalState, i: nat)
    requires NoRepeats(s.order) && s.order != [] && i < |s.order|
    requires t.entries == s.entries - {s.order[0]} && t.order == s.order[1..]
    ensures t.order[i..] == s.order[i + 1..]
    ensures Total(s.entries, s.order[i + 1..]) == Total(t.entries, t.order[i..])
  {
    assert t.order[i..] == s.order[i + 1..];
    OldestNotLater(s.order, i);
    TotalAgree(t.entries, s.entries, t.order[i..]);
  }

  lemma {:induction false} SuffixStep(s: LocalState, t: LocalState, after: LocalState, maxBytes: nat, j: nat)
    requires NoRepeats(s.order) && s.order != [] && Total(s.entries, s.order) > maxBytes
    requires t.entries == s.entries - {s.order[0]} && t.order == s.order[1..]
    requires LongestFittingSuffix(t, after, maxBytes, j)
    ensures LongestFittingSuffix(s, after, maxBytes, j + 1)
  {
    hide NoRepeats, Total;
    SuffixTotals(s, t, j);
    OldestNotLater(s.order, j);
    forall i | 0 <= i < j + 1 ensures Total(s.entries, s.order[i..]) > maxBytes {
      if i > 0 {
        SuffixTotals(s, t, i - 1);
      } else {
        assert s.order[0..] == s.order;
      }
    }
  }

  /** After an insert the survivors are the longest suffix that fits of the old recency order
      with the new key at its end; the cache stays within its limit. */
  lemma {:induction false} InsertSurvivors(s: LocalState, key: string, value: Bytes, expiresAt: int, maxBytes: nat)
    returns (k: nat)
    requires Consistent(s)
    ensures Valid(Insert(s, key, value, expiresAt, maxBytes), maxBytes)
    ensures Added(s, key, value, expiresAt).order == Retain(s.order, key) + [key]
    ensures LongestFittingSuffix(Added(s, key, value, expiresAt), Insert(s, key, value, expiresAt, maxBytes), maxBytes, k)
  {
    AddedConsistent(s, key, value, expiresAt);
    k := EvictSurvivors(Added(s, key, value, expiresAt), maxBytes);
  }

  /** A value larger than the whole cache evicts everything, itself included. */
  lemma {:induction false} OversizedEvictsAll(s: LocalState, key: string, value: Bytes, expiresAt: int, maxBytes: nat)
    requires Consistent(s) && |value| > maxBytes
    ensures Insert(s, key, value, expiresAt, maxBytes).entries == map[]
  {
    hide Evict, Consistent, Added;
    var a := Added(s, key, value, expiresAt);
    var k := InsertSurvivors(s, key, value, expiresAt, maxBytes);
    LastIsLarge(s, key, value, expiresAt, k);
    assert a.order[k..] == [];
  }

  lemma {:induction false} LastIsLarge(s: LocalState, key: string, value: Bytes, expiresAt: int, k: nat)
    requires Consistent(s) && k <= |Added(s, key, value, expiresAt).order|
    ensures var a := Added(s, key, value, expiresAt);
      k < |a.order| ==> Total(a.entries, a.order[k..]) >= |value|
  {
    var a := Added(s, key, value, expiresAt);
    if k < |a.order| {
      var n := |a.order| - 1;
      assert a.order[k..] == a.order[k..n] + [key];
      TotalConcat(a.entries, a.order[k..n], [key]);
    }
  }

  /** Removing entries keeps the rest as they were. */
  lemma {:induction false} RemoveAllFacts(s: LocalState, keys: seq<string>)
    requires Consistent(s)
    ensures var r := RemoveAll(s, keys);
      && Consistent(r) && r.bytes <= s.bytes
      && (forall k :: k in r.entries <==> k in s.entries && k !in keys)
      && (forall k :: k in r.entries ==> r.entries[k] == s.entries[k])
  {
    if keys != [] {
      var n := |keys| - 1;
      RemoveAllFacts(s, keys[..n]);
      RemoveKeeps(RemoveAll(s, keys[..n]), keys[n]);
      assert keys == keys[..n] + [keys[n]];
    }
  }

  // ---- the queue is the recency order --------------------------------------------

  /** What happens to the cache: a hit, an insertion, a removal. */
  datatype CacheOp = Hit(key: string) | Add(key: string, value: Bytes, expiresAt: int) | Drop(key: string)

  function Apply(s: LocalState, op: CacheOp, maxBytes: nat): LocalState {
    match op
    case Hit(key) => if key in s.entries then Touch(s, key) else s
    case Add(key, value, expiresAt) => Insert(s, key, value, expiresAt, maxBytes)
    case Drop(key) => Remove(s, key)
  }

  function Replay(ops: seq<CacheOp>, maxBytes: nat): LocalState {
    if ops == [] then EMPTY else Apply(Replay(ops[..|ops| - 1], maxBytes), ops[|ops| - 1], maxBytes)
  }

  /** When a key was last hit or inserted: a position counted from one, zero for never. */
  function LastUse(ops: seq<CacheOp>, key: string): (r: nat)
    ensures r <= |ops|
  {
    if ops == [] then 0
    else if !ops[|ops| - 1].Drop? && ops[|ops| - 1].key == key then |ops|
    else LastUse(ops[..|ops| - 1], key)
  }

  ghost predicate ByLastUse(order: seq<string>, ops: seq<CacheOp>) {
    forall i, j :: 0 <= i < j < |order| ==> LastUse(ops, order[i]) < LastUse(ops, order[j])
  }

  lemma {:induction false} RetainByLastUse(order: seq<string>, ops: seq<CacheOp>, key: string)
    requires ByLastUse(order, ops)
    ensures ByLastUse(Retain(order, key), ops)
  {
    hide LastUse;
    if order != [] {
      var n := |order| - 1;
      RetainByLastUse(order[..n], ops, key);
      var front := Retain(order[..n], key);
      forall i | 0 <= i < |front| ensures LastUse(ops, front[i]) < LastUse(ops, order[n]) {
        RetainMembers(order[..n], key, front[i]);
        var q :| 0 <= q < n && order[q] == front[i];
      }
    }
  }

  /** Moving a key to the recent end when it is used keeps the queue in order of last use. */
  lemma {:induction false} UsedByLastUse(order: seq<string>, ops: seq<CacheOp>, op: CacheOp)
    requires NoRepeats(order) && ByLastUse(order, ops) && !op.Drop?
    ensures ByLastUse(Retain(order, op.key) + [op.key], ops + [op])
  {
    hide Retain;
    var kept := Retain(order, op.key);
    RetainByLastUse(order, ops, op.key);
    assert (ops + [op])[..|ops|] == ops;
    forall i | 0 <= i < |kept| ensures LastUse(ops + [op], kept[i]) == LastUse(ops, kept[i]) {
      RetainMembers(order, op.key, kept[i]);
    }
  }

  lemma {:induction false} UnusedByLastUse(order: seq<string>, ops: seq<CacheOp>, op: CacheOp)
    requires ByLastUse(order, ops) && (op.Drop? || op.key !in order)
    ensures ByLastUse(order, ops + [op])
  {
    assert (ops + [op])[..|ops|] == ops;
    forall i | 0 <= i < |order| ensures LastUse(ops + [op], order[i]) == LastUse(ops, order[i]) {
    }
  }

  lemma {:induction false} SuffixByLastUse(order: seq<string>, ops: seq<CacheOp>, k: nat)
    requires ByLastUse(order, ops) && k <= |order|
    ensures ByLastUse(order[k..], ops)
  {
    hide LastUse;
  }

  /** In every run of hits, insertions with their evictions, and removals, the queue lists the
      entries in order of last use and the cache invariant holds; so what an insertion keeps is
      the most recently used part. */
  lemma {:induction false} QueueIsRecencyOrder(ops: seq<CacheOp>, maxBytes: nat)
    ensures Valid(Replay(ops, maxBytes), maxBytes) && ByLastUse(Replay(ops, maxBytes).order, ops)
    decreases |ops|
  {
    hide Consistent, Evict, LastUse;
    if ops == [] {
      EmptyValid(maxBytes);
    } else {
      var before, last := ops[..|ops| - 1], ops[|ops| - 1];
      var s := Replay(before, maxBytes);
      QueueIsRecencyOrder(before, maxBytes);
      assert before + [last] == ops;
      NoRepeatsOf(s);
      match last
      case Hit(key) =>
        if key in s.entries {
          TouchKeeps(s, key);
          UsedByLastUse(s.order, before, last);
        } else {
          UnusedByLastUse(s.order, before, last);
        }
      case Add(key, value, expiresAt) =>
        var k := InsertSurvivors(s, key, value, expiresAt, maxBytes);
        UsedByLastUse(s.order, before, last);
        SuffixByLastUse(Retain(s.order, key) + [key], ops, k);
      case Drop(key) =>
        RemoveKeeps(s, key);
        RetainByLastUse(s.order, before, key);
        UnusedByLastUse(Retain(s.order, key), before, last);
    }
  }

  lemma {:induction false} NoRepeatsOf(s: LocalState)
    requires Consistent(s)
    ensures NoRepeats(s.order) && forall k :: k in s.order <==> k in s.entries
  {
  }
}
