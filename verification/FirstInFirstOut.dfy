/** The cache is first in, first out: in which order runs record and evict. */
module FirstInFirstOut {
  import opened Wrappers
  import opened CachedStores

  ghost predicate KeyBefore(entries: seq<CacheEntry>, a: Key, b: Key) {
    exists i, j :: 0 <= i < j < |entries| && entries[i].key == a && entries[j].key == b
  }

  lemma SomeIndex(entries: seq<CacheEntry>, key: Key) returns (i: nat)
    requires HasKey(entries, key)
    ensures i < |entries| && entries[i].key == key
  {
    i :| 0 <= i < |entries| && entries[i].key == key;
  }

  /** In a suffix, what came later is left if what came earlier is. */
  lemma SuffixOrder(entries: seq<CacheEntry>, k: nat, a: Key, b: Key)
    requires UniqueKeys(entries) && k <= |entries| && KeyBefore(entries, a, b)
    ensures HasKey(entries[k..], a) ==> KeyBefore(entries[k..], a, b)
    ensures !HasKey(entries[k..], b) ==> !HasKey(entries[k..], a)
  {
    var i, j :| 0 <= i < j < |entries| && entries[i].key == a && entries[j].key == b;
    if HasKey(entries[k..], a) {
      var m := SomeIndex(entries[k..], a);
      assert entries[m + k].key == a && m + k == i;
      assert entries[k..][i - k].key == a && entries[k..][j - k].key == b;
    }
  }

  lemma AppendedOrder(entries: seq<CacheEntry>, e: CacheEntry, a: Key, b: Key)
    requires a != b && e.key != a && HasKey(entries, a)
    requires (HasKey(entries, b) ==> KeyBefore(entries, a, b))
    ensures HasKey(entries + [e], b) ==> KeyBefore(entries + [e], a, b)
  {
    var all := entries + [e];
    if HasKey(entries, b) {
      var i, j :| 0 <= i < j < |entries| && entries[i].key == a && entries[j].key == b;
      assert all[i].key == a && all[j].key == b;
    } else if HasKey(all, b) {
      var i := SomeIndex(entries, a);
      var j := SomeIndex(all, b);
      assert forall k :: 0 <= k < |entries| ==> all[k] == entries[k];
      assert all[i].key == a && j == |entries|;
    }
  }

  lemma SuffixHas(entries: seq<CacheEntry>, k: nat, key: Key)
    requires k <= |entries| && HasKey(entries[k..], key)
    ensures HasKey(entries, key)
  {
    var i := SomeIndex(entries[k..], key);
    assert entries[k + i].key == key;
  }

  /** Recording drops from the front and adds at the end. */
  lemma InsertedShape(entries: seq<CacheEntry>, maxSize: Option<nat>, e: CacheEntry) returns (k: nat)
    ensures k <= |entries|
    ensures var fits := !HasKey(entries, e.key) && (maxSize.Some? ==> e.size <= maxSize.value);
      if fits then Inserted(entries, maxSize, e) == entries[k..] + [e]
        else Inserted(entries, maxSize, e) == entries && k == 0
    ensures k > 0 ==> maxSize.Some? && Total(entries[k - 1..]) + e.size > maxSize.value
  {
    k := 0;
    if !HasKey(entries, e.key) && maxSize.Some? && e.size <= maxSize.value {
      k := Evictions(entries, e.size, maxSize.value);
    }
    assert entries[0..] == entries;
  }

  lemma InsertedOrder(entries: seq<CacheEntry>, maxSize: Option<nat>, e: CacheEntry, a: Key, b: Key)
    requires UniqueKeys(entries) && a != b && HasKey(entries, a) && (HasKey(entries, b) ==> KeyBefore(entries, a, b))
    ensures var next := Inserted(entries, maxSize, e);
      && (HasKey(next, a) && HasKey(next, b) ==> KeyBefore(next, a, b))
      && (HasKey(entries, b) && !HasKey(next, b) ==> !HasKey(next, a))
  {
    var next := Inserted(entries, maxSize, e);
    var k := InsertedShape(entries, maxSize, e);
    if next != entries {
      assert e.key != a;
      AppendedHasKey(entries[k..], e, a);
      if HasKey(entries, b) { SuffixOrder(entries, k, a, b); }
      if HasKey(next, a) {
        if HasKey(entries[k..], b) { SuffixHas(entries, k, b); }
        AppendedOrder(entries[k..], e, a, b);
      }
      if e.key != b { AppendedHasKey(entries[k..], e, b); }
    }
  }

  lemma WithoutOrder(entries: seq<CacheEntry>, key: Key, a: Key, b: Key)
    requires UniqueKeys(entries) && a != b && (HasKey(entries, b) ==> KeyBefore(entries, a, b))
    ensures var next := Without(entries, key);
      && (HasKey(next, a) && HasKey(next, b) ==> KeyBefore(next, a, b))
      && (key != b && HasKey(entries, b) ==> HasKey(next, b))
  {
    if HasKey(entries, key) {
      var n := SomeIndex(entries, key);
      WithoutOne(entries, n);
      RemovedOrder(entries, n, a, b);
    } else {
      WithoutAbsent(entries, key);
    }
  }

  lemma RemovedOrder(entries: seq<CacheEntry>, n: nat, a: Key, b: Key)
    requires n < |entries| && UniqueKeys(entries) && (HasKey(entries, b) ==> KeyBefore(entries, a, b))
    ensures var rest := entries[..n] + entries[n + 1..];
      && (HasKey(rest, a) && HasKey(rest, b) ==> KeyBefore(rest, a, b))
      && (entries[n].key != b && HasKey(entries, b) ==> HasKey(rest, b))
  {
    var rest := entries[..n] + entries[n + 1..];
    TakenOut(entries, n);
    if entries[n].key != a { OthersStayCached(entries, n, a); }
    if entries[n].key != b { OthersStayCached(entries, n, b); }
    if HasKey(rest, a) && HasKey(rest, b) {
      var i, j :| 0 <= i < j < |entries| && entries[i].key == a && entries[j].key == b;
      RemovedBefore(entries, n, i, j);
    }
  }

  lemma RemovedBefore(entries: seq<CacheEntry>, n: nat, i: nat, j: nat)
    requires i < j < |entries| && n < |entries| && n != i && n != j
    ensures KeyBefore(entries[..n] + entries[n + 1..], entries[i].key, entries[j].key)
  {
    var rest := entries[..n] + entries[n + 1..];
    var i', j' := if i < n then i else i - 1, if j < n then j else j - 1;
    assert rest[i'] == entries[i] && rest[j'] == entries[j];
  }

  // ---- runs ----

  /** States that follow one another by these operations. */
  ghost predicate IsRun(trace: seq<State>, maxSize: Option<nat>, ops: seq<Operation>) {
    |trace| == |ops| + 1 && forall i :: 0 <= i < |ops| ==> Stepped(trace[i], trace[i + 1], maxSize, ops[i])
  }

  lemma StepKeepsOrder(s: State, t: State, maxSize: Option<nat>, op: Operation, a: Key, b: Key)
    requires Stepped(s, t, maxSize, op) && a != b && HasKey(s.entries, a)
    requires HasKey(s.entries, b) ==> KeyBefore(s.entries, a, b)
    ensures HasKey(t.entries, a) && HasKey(t.entries, b) ==> KeyBefore(t.entries, a, b)
    ensures HasKey(s.entries, b) && !HasKey(t.entries, b) && op != Operation.Delete(b) ==> !HasKey(t.entries, a)
  {
    match op
    case Persist(id) => RecordedOrder(s, maxSize, id, a, b);
    case PersistAndRewind(id) => RecordedOrder(s, maxSize, id, a, b);
    case Delete(key) => WithoutOrder(s.entries, key, a, b);
    case _ =>
  }

  lemma RecordedOrder(s: State, maxSize: Option<nat>, id: nat, a: Key, b: Key)
    requires UniqueKeys(s.entries) && a != b && HasKey(s.entries, a)
    requires HasKey(s.entries, b) ==> KeyBefore(s.entries, a, b)
    ensures id in s.readers ==>
      var next := Recorded(s, maxSize, id);
      && (HasKey(next, a) && HasKey(next, b) ==> KeyBefore(next, a, b))
      && (HasKey(s.entries, b) && !HasKey(next, b) ==> !HasKey(next, a))
  {
    if id in s.readers && s.readers[id].Caching? {
      var r := s.readers[id];
      InsertedOrder(s.entries, maxSize, CacheEntry(r.key, r.guard, r.pos), a, b);
    }
  }

  lemma {:induction false} OrderAlong(trace: seq<State>, maxSize: Option<nat>, ops: seq<Operation>, m: nat, n: nat,
                                      a: Key, b: Key)
    requires IsRun(trace, maxSize, ops) && m <= n <= |ops| && a != b
    requires (forall i :: m <= i <= n ==> HasKey(trace[i].entries, a)) && !HasKey(trace[m].entries, b)
    ensures HasKey(trace[n].entries, b) ==> KeyBefore(trace[n].entries, a, b)
    decreases n - m
  {
    if m < n {
      OrderAlong(trace, maxSize, ops, m, n - 1, a, b);
      assert Stepped(trace[n - 1], trace[n], maxSize, ops[n - 1]);
      StepKeepsOrder(trace[n - 1], trace[n], maxSize, ops[n - 1], a, b);
    }
  }

  /** First in, first out, over every run: of two cached keys the one that was recorded while
      the other was cached already never goes before it, unless it is deleted. */
  lemma EarlierGoesFirst(trace: seq<State>, maxSize: Option<nat>, ops: seq<Operation>, m: nat, n: nat, a: Key, b: Key)
    requires IsRun(trace, maxSize, ops) && m <= n < |ops| && a != b
    requires (forall i :: m <= i <= n ==> HasKey(trace[i].entries, a)) && !HasKey(trace[m].entries, b)
    requires HasKey(trace[n].entries, b) && ops[n] != Operation.Delete(b)
    ensures !HasKey(trace[n + 1].entries, b) ==> !HasKey(trace[n + 1].entries, a)
  {
    OrderAlong(trace, maxSize, ops, m, n, a, b);
    assert Stepped(trace[n], trace[n + 1], maxSize, ops[n]);
    StepKeepsOrder(trace[n], trace[n + 1], maxSize, ops[n], a, b);
  }

  /** An operation evicts something only where there is no room for all of it and the new
      entry: with one of the evicted entries left in, the cache would be too large. */
  lemma EvictsNoMore(s: State, t: State, maxSize: Option<nat>, op: Operation, key: Key)
    requires Stepped(s, t, maxSize, op) && HasKey(s.entries, key) && !HasKey(t.entries, key)
    requires op != Operation.Delete(key)
    ensures maxSize.Some?
    ensures exists x :: x in s.entries && !HasKey(t.entries, x.key) && Total(t.entries) + x.size > maxSize.value
  {
    match op
    case Persist(id) => var x := RecordedEvictsNoMore(s, maxSize, id, key);
    case PersistAndRewind(id) => var x := RecordedEvictsNoMore(s, maxSize, id, key);
    case Delete(other) => DeletesOne(s.entries, other, key);
    case _ =>
  }

  lemma DeletesOne(entries: seq<CacheEntry>, other: Key, key: Key)
    requires UniqueKeys(entries) && HasKey(entries, key) && other != key
    ensures HasKey(Without(entries, other), key)
  {
    if HasKey(entries, other) {
      var n := SomeIndex(entries, other);
      WithoutOne(entries, n);
      OthersStayCached(entries, n, key);
    } else {
      WithoutAbsent(entries, other);
    }
  }

  lemma RecordedEvictsNoMore(s: State, maxSize: Option<nat>, id: nat, key: Key) returns (x: CacheEntry)
    requires UniqueKeys(s.entries) && id in s.readers && HasKey(s.entries, key)
    requires !HasKey(Recorded(s, maxSize, id), key)
    ensures maxSize.Some? && x in s.entries && !HasKey(Recorded(s, maxSize, id), x.key)
    ensures Total(Recorded(s, maxSize, id)) + x.size > maxSize.value
  {
    var r := s.readers[id];
    var e := CacheEntry(r.key, r.guard, r.pos);
    var k := InsertedShape(s.entries, maxSize, e);
    if k == 0 {
      assert s.entries[0..] == s.entries;
      if e.key != key { AppendedHasKey(s.entries, e, key); }
    }
    x := s.entries[k - 1];
    TotalAppend(s.entries[k..], e);
    assert s.entries[k - 1..][1..] == s.entries[k..] && s.entries[k - 1..][0] == x;
    forall i | k <= i < |s.entries| ensures s.entries[i].key != x.key {}
    assert !HasKey(s.entries[k..], x.key);
    AppendedHasKey(s.entries[k..], e, x.key);
  }

  /** What a copy that is stopped leaves in the cache: an entry of its key with as many bytes
      as were copied, unless the key was cached already or the copy is too large. */
  lemma RecordsTheCopy(s: State, t: State, maxSize: Option<nat>, op: Operation, id: nat)
    requires Stepped(s, t, maxSize, op) && (op == Persist(id) || op == PersistAndRewind(id))
    requires id in s.readers && s.readers[id].Caching? && !HasKey(s.entries, s.readers[id].key)
    requires maxSize.Some? ==> s.readers[id].pos <= maxSize.value
    ensures var r := s.readers[id]; CacheEntry(r.key, r.guard, r.pos) in t.entries
  {
    var r := s.readers[id];
    var k := InsertedShape(s.entries, maxSize, CacheEntry(r.key, r.guard, r.pos));
  }
}
