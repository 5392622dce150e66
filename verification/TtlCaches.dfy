/** A map whose entries expire: every insertion also puts an expiry in a delay queue, and a
    purge removes the entries of all elapsed expiries.  Overwriting an entry leaves the
    expiry of the old value behind. */
module TtlCaches {
  import opened Wrappers

  type Key = string
  type Value = string

  /** `slot` is the entry's own expiry. */
  datatype Entry = Entry(value: Value, slot: nat)
  datatype Expiry = Expiry(key: Key, deadline: nat)

  /** The two collections, the clock, when each value was inserted and the last purge. */
  datatype State = State(
    entries: map<Key, Entry>, expirations: map<nat, Expiry>, now: nat, inserted: map<Key, nat>, lastPurge: nat)

  datatype Event = Insert(key: Key, value: Value, slot: nat) | Remove(key: Key) | Purge | Elapse(time: nat)

  // ---- what events do ----

  function Inserted(s: State, ttl: nat, key: Key, value: Value, slot: nat): State {
    if ttl == 0 then s
    else s.(entries := s.entries[key := Entry(value, slot)],
            expirations := s.expirations[slot := Expiry(key, s.now + ttl)],
            inserted := s.inserted[key := s.now])
  }

  function Removed(s: State, key: Key): State {
    if key !in s.entries then s
    else s.(entries := s.entries - {key}, expirations := s.expirations - {s.entries[key].slot},
      inserted := s.inserted - {key})
  }

  predicate Elapsed(s: State, slot: nat) { slot in s.expirations && s.expirations[slot].deadline <= s.now }

  function ElapsedSlots(s: State): set<nat> { set slot | slot in s.expirations && Elapsed(s, slot) }

  function ElapsedKeys(s: State): set<Key> { set slot | slot in ElapsedSlots(s) :: s.expirations[slot].key }

  function Purged(s: State): State {
    s.(entries := s.entries - ElapsedKeys(s), expirations := s.expirations - ElapsedSlots(s),
       inserted := s.inserted - ElapsedKeys(s), lastPurge := s.now)
  }

  function After(s: State, ttl: nat, e: Event): State {
    match e
    case Insert(key, value, slot) => Inserted(s, ttl, key, value, slot)
    case Remove(key) => Removed(s, key)
    case Purge => Purged(s)
    case Elapse(time) => s.(now := s.now + time)
  }

  /** The queue hands out a free slot, and the purge task wakes up every `ttl`. */
  predicate Possible(s: State, ttl: nat, e: Event) {
    match e
    case Insert(_, _, slot) => slot !in s.expirations
    case Elapse(time) => s.now + time <= s.lastPurge + ttl
    case _ => true
  }

  // ---- invariant ----

  /** The entry's own expiry is in the queue and is due one time-to-live after the
      insertion. */
  ghost predicate EntryOk(s: State, ttl: nat, key: Key) {
    && key in s.entries && key in s.inserted && s.inserted[key] <= s.now
    && s.entries[key].slot in s.expirations
    && s.expirations[s.entries[key].slot] == Expiry(key, s.inserted[key] + ttl)
  }

  /** No expiry in the queue was due at the last purge. */
  ghost predicate Inv(s: State, ttl: nat) {
    && (forall slot :: slot in s.expirations ==> s.lastPurge < s.expirations[slot].deadline)
    && s.entries.Keys == s.inserted.Keys
    && (forall key :: key in s.entries ==> EntryOk(s, ttl, key))
    && s.lastPurge <= s.now <= s.lastPurge + ttl
  }

  /** Two entries never share an expiry, so removing one leaves the other's in place. */
  lemma SlotsAreDistinct(s: State, ttl: nat, a: Key, b: Key)
    requires Inv(s, ttl) && a in s.entries && b in s.entries && s.entries[a].slot == s.entries[b].slot
    ensures a == b
  {
    assert EntryOk(s, ttl, a) && EntryOk(s, ttl, b);
  }

  lemma InsertKeepsInv(s: State, ttl: nat, key: Key, value: Value, slot: nat)
    requires Inv(s, ttl) && slot !in s.expirations
    ensures Inv(Inserted(s, ttl, key, value, slot), ttl)
  {
    var s' := Inserted(s, ttl, key, value, slot);
    forall k | k in s'.entries ensures EntryOk(s', ttl, k) {
      assert k in s.entries ==> EntryOk(s, ttl, k);
    }
  }

  lemma RemoveKeepsInv(s: State, ttl: nat, key: Key)
    requires Inv(s, ttl)
    ensures Inv(Removed(s, key), ttl)
  {
    var s' := Removed(s, key);
    forall k | k in s'.entries ensures EntryOk(s', ttl, k) {
      assert EntryOk(s, ttl, k);
      if key in s.entries && s.entries[k].slot == s.entries[key].slot { SlotsAreDistinct(s, ttl, k, key); }
    }
  }

  lemma ElapsedKey(s: State, key: Key)
    requires key !in ElapsedKeys(s)
    ensures forall slot :: slot in s.expirations && s.expirations[slot].key == key ==> slot !in ElapsedSlots(s)
  {
  }

  lemma PurgeKeepsInv(s: State, ttl: nat)
    requires Inv(s, ttl)
    ensures Inv(Purged(s), ttl)
  {
    var s' := Purged(s);
    forall k | k in s'.entries ensures EntryOk(s', ttl, k) {
      assert EntryOk(s, ttl, k);
      var slot := s.entries[k].slot;
      ElapsedKey(s, k);
    }
  }

  lemma EventKeepsInv(s: State, ttl: nat, e: Event)
    requires Inv(s, ttl) && Possible(s, ttl, e)
    ensures Inv(After(s, ttl, e), ttl)
  {
    match e
    case Insert(key, value, slot) => InsertKeepsInv(s, ttl, key, value, slot);
    case Remove(key) => RemoveKeepsInv(s, ttl, key);
    case Purge => PurgeKeepsInv(s, ttl);
    case Elapse(time) =>
      forall k | k in s.entries ensures EntryOk(After(s, ttl, e), ttl, k) { assert EntryOk(s, ttl, k); }
  }

  // ---- whole runs ----

  function Empty(now: nat): State { State(map[], map[], now, map[], now) }

  ghost predicate Reaches(s: State, ttl: nat, events: seq<Event>, s': State)
    decreases |events|
  {
    if events == [] then s == s'
      else Possible(s, ttl, events[0]) && Reaches(After(s, ttl, events[0]), ttl, events[1..], s')
  }

  lemma {:induction false} RunsKeepInv(s: State, ttl: nat, events: seq<Event>, s': State)
    requires Inv(s, ttl) && Reaches(s, ttl, events, s')
    ensures Inv(s', ttl)
    decreases |events|
  {
    if events != [] {
      EventKeepsInv(s, ttl, events[0]);
      RunsKeepInv(After(s, ttl, events[0]), ttl, events[1..], s');
    }
  }

  /** After any run of insertions, overwrites, removals and purges, the expiry that removing
      an entry takes out of the queue is there, and no value is as old as twice the
      time-to-live. */
  lemma NoValueOutlivesTwice(start: nat, ttl: nat, events: seq<Event>, s: State, key: Key)
    requires Reaches(Empty(start), ttl, events, s) && key in s.entries
    ensures s.entries[key].slot in s.expirations && s.expirations[s.entries[key].slot].key == key
    ensures key in s.inserted && s.now < s.inserted[key] + 2 * ttl
  {
    RunsKeepInv(Empty(start), ttl, events, s);
    assert EntryOk(s, ttl, key);
  }

  lemma ReachesBack(s: State, ttl: nat, e: Event, rest: seq<Event>, s': State)
    requires Possible(s, ttl, e) && Reaches(After(s, ttl, e), ttl, rest, s')
    ensures Reaches(s, ttl, [e] + rest, s')
  {
    assert ([e] + rest)[1..] == rest;
  }

  ghost predicate Serves(s: State, key: Key, value: Value, age: int) {
    key in s.entries && s.entries[key].value == value && key in s.inserted && s.now == s.inserted[key] + age
  }

  /** The bound is met: a value inserted one unit after a purge is still served when it is
      `2 * ttl - 1` old, longer than the time-to-live. */
  lemma ServedForAlmostTwice(ttl: nat, key: Key, value: Value)
    requires ttl >= 1
    ensures exists events, s :: Reaches(Empty(0), ttl, events, s) && Serves(s, key, value, 2 * ttl - 1)
  {
    var e0, e1, e2, e3, e4 := Elapse(1), Insert(key, value, 0), Elapse(ttl - 1), Purge, Elapse(ttl);
    var s0 := Empty(0);
    var s1 := After(s0, ttl, e0);
    var s2 := After(s1, ttl, e1);
    var s3 := After(s2, ttl, e2);
    assert s3.expirations == map[0 := Expiry(key, 1 + ttl)] && s3.now == ttl;
    assert ElapsedSlots(s3) == {} && ElapsedKeys(s3) == {};
    var s4 := After(s3, ttl, e3);
    var s5 := After(s4, ttl, e4);
    assert Reaches(s5, ttl, [], s5);
    ReachesBack(s4, ttl, e4, [], s5);
    ReachesBack(s3, ttl, e3, [e4], s5);
    ReachesBack(s2, ttl, e2, [e3, e4], s5);
    ReachesBack(s1, ttl, e1, [e2, e3, e4], s5);
    ReachesBack(s0, ttl, e0, [e1, e2, e3, e4], s5);
  }

  /** The other way round, the expiry of an overwritten value takes the new value with it: at
      any age below the time-to-live, the new value can be served and gone with a purge. */
  lemma OverwrittenExpiresEarly(ttl: nat, age: nat, key: Key, first: Value, second: Value)
    requires age < ttl
    ensures exists events, s ::
      Reaches(Empty(0), ttl, events, s) && Serves(s, key, second, age) && key !in Purged(s).entries
  {
    var e0, e1, e2, e3 := Insert(key, first, 0), Elapse(ttl - age), Insert(key, second, 1), Elapse(age);
    var s0 := Empty(0);
    var s1 := After(s0, ttl, e0);
    var s2 := After(s1, ttl, e1);
    var s3 := After(s2, ttl, e2);
    var s4 := After(s3, ttl, e3);
    assert Elapsed(s4, 0) && 0 in ElapsedSlots(s4);
    assert Reaches(s4, ttl, [], s4);
    ReachesBack(s3, ttl, e3, [], s4);
    ReachesBack(s2, ttl, e2, [e3], s4);
    ReachesBack(s1, ttl, e1, [e2, e3], s4);
    ReachesBack(s0, ttl, e0, [e1, e2, e3], s4);
  }

  /** Some expiry of the key, its own or one of an overwritten value, is due by then. */
  ghost predicate Due(s: State, key: Key, time: nat) {
    exists slot :: slot in s.expirations && s.expirations[slot].key == key && s.expirations[slot].deadline <= time
  }

  ghost predicate Touches(e: Event, key: Key) {
    (e.Insert? || e.Remove?) && e.key == key
  }

  /** The entry of a key is the same, and so are the expiries of that key. */
  ghost predicate SameFor(s: State, t: State, key: Key) {
    && key in s.entries && key in t.entries && s.entries[key] == t.entries[key]
    && (forall slot :: slot in s.expirations && s.expirations[slot].key == key ==>
        slot in t.expirations && t.expirations[slot] == s.expirations[slot])
    && (forall slot :: slot in t.expirations && t.expirations[slot].key == key ==>
        slot in s.expirations && t.expirations[slot] == s.expirations[slot])
  }

  /** An event on other keys takes an entry away exactly when it is a purge with an expiry of
      that key due. */
  lemma OneEvent(s: State, ttl: nat, e: Event, key: Key)
    requires Inv(s, ttl) && Possible(s, ttl, e) && key in s.entries && !Touches(e, key)
    ensures if e.Purge? && Due(s, key, s.now) then key !in After(s, ttl, e).entries
      else SameFor(s, After(s, ttl, e), key)
  {
    match e
    case Insert(_, _, _) =>
    case Remove(other) => if other in s.entries { assert EntryOk(s, ttl, other); }
    case Elapse(_) =>
    case Purge =>
      if Due(s, key, s.now) {
        var slot :| slot in s.expirations && s.expirations[slot].key == key && s.expirations[slot].deadline <= s.now;
        assert slot in ElapsedSlots(s);
      } else {
        assert forall slot :: slot in ElapsedSlots(s) ==> s.expirations[slot].key != key;
      }
  }

  lemma {:induction false} StaysGone(s: State, ttl: nat, events: seq<Event>, s': State, key: Key)
    requires Inv(s, ttl) && Reaches(s, ttl, events, s') && key !in s.entries
    requires forall i :: 0 <= i < |events| ==> !Touches(events[i], key)
    ensures key !in s'.entries && s.lastPurge <= s'.lastPurge
    decreases |events|
  {
    if events != [] {
      assert !Touches(events[0], key);
      EventKeepsInv(s, ttl, events[0]);
      StaysGone(After(s, ttl, events[0]), ttl, events[1..], s', key);
    }
  }

  /** Over every run that neither inserts nor removes the key, its value stays if and only if
      no expiry of that key in the queue was due at the last purge. */
  lemma {:induction false} StaysExactly(s: State, ttl: nat, events: seq<Event>, s': State, key: Key)
    requires Inv(s, ttl) && Reaches(s, ttl, events, s') && key in s.entries
    requires forall i :: 0 <= i < |events| ==> !Touches(events[i], key)
    ensures key in s'.entries <==> !Due(s, key, s'.lastPurge)
    ensures key in s'.entries ==> s'.entries[key] == s.entries[key]
    ensures s.lastPurge <= s'.lastPurge
    decreases |events|
  {
    if events != [] {
      var t := After(s, ttl, events[0]);
      assert !Touches(events[0], key);
      EventKeepsInv(s, ttl, events[0]);
      OneEvent(s, ttl, events[0], key);
      if key in t.entries {
        StaysExactly(t, ttl, events[1..], s', key);
      } else {
        StaysGone(t, ttl, events[1..], s', key);
        var slot :| slot in s.expirations && s.expirations[slot].key == key && s.expirations[slot].deadline <= s.now;
      }
    }
  }

  lemma OneEventElsewhere(s: State, ttl: nat, e: Event, key: Key)
    requires key !in s.entries && !(e.Insert? && e.key == key)
    ensures key !in After(s, ttl, e).entries
  {
  }

  /** A key comes back by an insertion only. */
  lemma {:induction false} OnlyInsertionsBring(s: State, ttl: nat, events: seq<Event>, s': State, key: Key)
    requires Reaches(s, ttl, events, s') && key !in s.entries
    requires forall i :: 0 <= i < |events| ==> !(events[i].Insert? && events[i].key == key)
    ensures key !in s'.entries
    decreases |events|
  {
    if events != [] {
      assert !(events[0].Insert? && events[0].key == key);
      OneEventElsewhere(s, ttl, events[0], key);
      OnlyInsertionsBring(After(s, ttl, events[0]), ttl, events[1..], s', key);
    }
  }

  /** A removed key is gone, and stays so over every run that does not insert it again; all
      other keys have kept their values and their expiries. */
  lemma RemovedIsGone(s: State, ttl: nat, key: Key, events: seq<Event>, s': State)
    requires Inv(s, ttl) && Reaches(After(s, ttl, Remove(key)), ttl, events, s')
    requires forall i :: 0 <= i < |events| ==> !(events[i].Insert? && events[i].key == key)
    ensures key !in s'.entries
    ensures forall other :: other in s.entries && other != key ==> SameFor(s, After(s, ttl, Remove(key)), other)
  {
    OnlyInsertionsBring(After(s, ttl, Remove(key)), ttl, events, s', key);
    forall other | other in s.entries && other != key ensures SameFor(s, After(s, ttl, Remove(key)), other) {
      OneEvent(s, ttl, Remove(key), other);
    }
  }

  /** Every expiry in the queue is that of an entry. */
  ghost predicate NothingStale(s: State) {
    forall slot :: slot in s.expirations ==>
      s.expirations[slot].key in s.entries && s.entries[s.expirations[slot].key].slot == slot
  }

  /** The run inserts no key that is cached at that point. */
  ghost predicate NeverOverwrites(s: State, ttl: nat, events: seq<Event>)
    decreases |events|
  {
    events == [] || (!(events[0].Insert? && events[0].key in s.entries)
      && NeverOverwrites(After(s, ttl, events[0]), ttl, events[1..]))
  }

  lemma EventLeavesNothingStale(s: State, ttl: nat, e: Event)
    requires Inv(s, ttl) && Possible(s, ttl, e) && NothingStale(s) && !(e.Insert? && e.key in s.entries)
    ensures NothingStale(After(s, ttl, e))
  {
    match e
    case Insert(_, _, _) =>
    case Elapse(_) =>
    case Remove(key) => if key in s.entries { assert EntryOk(s, ttl, key); }
    case Purge =>
  }

  lemma {:induction false} RunLeavesNothingStale(s: State, ttl: nat, events: seq<Event>, s': State)
    requires Inv(s, ttl) && NothingStale(s) && Reaches(s, ttl, events, s') && NeverOverwrites(s, ttl, events)
    ensures NothingStale(s')
    decreases |events|
  {
    if events != [] {
      EventKeepsInv(s, ttl, events[0]);
      EventLeavesNothingStale(s, ttl, events[0]);
      RunLeavesNothingStale(After(s, ttl, events[0]), ttl, events[1..], s');
    }
  }

  /** Where nothing is overwritten, values expire on time, also those inserted again after a
      removal: a purge takes one away if and only if it is as old as the time-to-live. */
  lemma ExpiresOnTime(start: nat, ttl: nat, events: seq<Event>, s: State, key: Key)
    requires Reaches(Empty(start), ttl, events, s) && NeverOverwrites(Empty(start), ttl, events) && key in s.entries
    ensures key in s.inserted && (key !in Purged(s).entries <==> s.now >= s.inserted[key] + ttl)
  {
    RunsKeepInv(Empty(start), ttl, events, s);
    RunLeavesNothingStale(Empty(start), ttl, events, s);
    assert EntryOk(s, ttl, key);
    if s.now >= s.inserted[key] + ttl {
      assert s.entries[key].slot in ElapsedSlots(s);
    }
  }

  /** The `i`th event inserted this value, and no later one touches the key. */
  ghost predicate InsertedLast(events: seq<Event>, i: nat, key: Key, value: Value) {
    && i < |events| && events[i].Insert? && events[i].key == key && events[i].value == value
    && forall j :: i < j < |events| ==> !Touches(events[j], key)
  }

  /** What is served is what was inserted last. */
  lemma {:induction false} ServesLatest(start: nat, ttl: nat, events: seq<Event>, s: State, key: Key) returns (i: nat)
    requires Reaches(Empty(start), ttl, events, s) && key in s.entries
    ensures InsertedLast(events, i, key, s.entries[key].value)
    decreases |events|
  {
    i := |events| - 1;
    var t := ReachesInit(Empty(start), ttl, events, s);
    RunsKeepInv(Empty(start), ttl, events[..i], t);
    if !Touches(events[i], key) {
      StillServed(t, ttl, events[i], key);
      i := ServesLatest(start, ttl, events[..i], t, key);
    } else {
      RemovedOrInserted(t, ttl, events[i], key);
    }
  }

  lemma StillServed(t: State, ttl: nat, e: Event, key: Key)
    requires Inv(t, ttl) && Possible(t, ttl, e) && !Touches(e, key) && key in After(t, ttl, e).entries
    ensures key in t.entries && t.entries[key] == After(t, ttl, e).entries[key]
  {
    if key !in t.entries { OneEventElsewhere(t, ttl, e, key); }
    OneEvent(t, ttl, e, key);
  }

  lemma RemovedOrInserted(t: State, ttl: nat, e: Event, key: Key)
    requires Inv(t, ttl) && Touches(e, key) && key in After(t, ttl, e).entries
    ensures e.Insert? && After(t, ttl, e).entries[key].value == e.value
  {
    if key in t.entries { assert EntryOk(t, ttl, key); }
  }

  lemma {:induction false} ReachesInit(s: State, ttl: nat, events: seq<Event>, s': State) returns (t: State)
    requires Reaches(s, ttl, events, s') && events != []
    ensures Reaches(s, ttl, events[..|events| - 1], t)
    ensures Possible(t, ttl, events[|events| - 1]) && After(t, ttl, events[|events| - 1]) == s'
    decreases |events|
  {
    if |events| == 1 {
      t := s;
      assert Reaches(After(s, ttl, events[0]), ttl, [], s') by { assert events[1..] == []; }
    } else {
      var rest := events[1..];
      t := ReachesInit(After(s, ttl, events[0]), ttl, rest, s');
      assert events[..|events| - 1][1..] == rest[..|rest| - 1];
    }
  }

  // ---- the cache ----

  class Cache {
    const ttl: nat
    var entries: map<Key, Entry>
    var expirations: map<nat, Expiry>
    ghost var now: nat
    ghost var inserted: map<Key, nat>
    ghost var lastPurge: nat

    ghost function Now(): State
      reads this
    {
      State(entries, expirations, now, inserted, lastPurge)
    }

    ghost predicate Valid()
      reads this
    {
      Inv(Now(), ttl)
    }

    constructor (ttl: nat, ghost start: nat)
      ensures Valid() && this.ttl == ttl && Now() == Empty(start)
    {
      this.ttl := ttl;
      entries, expirations := map[], map[];
      now, inserted, lastPurge := start, map[], start;
    }

    /** A new expiry goes to any free slot of the queue; the previous value is returned. */
    method Insert(key: Key, value: Value, clock: nat) returns (previous: Option<Value>, slot: nat)
      requires Valid() && clock == now
      modifies this
      ensures Valid() && slot !in old(expirations) && Now() == Inserted(old(Now()), ttl, key, value, slot)
      ensures previous == if ttl > 0 && key in old(entries) then Some(old(entries)[key].value) else None
    {
      slot := FreeSlot();
      InsertKeepsInv(Now(), ttl, key, value, slot);
      if ttl == 0 {
        return None, slot;
      }
      previous := if key in entries then Some(entries[key].value) else None;
      expirations := expirations[slot := Expiry(key, clock + ttl)];
      entries := entries[key := Entry(value, slot)];
      inserted := inserted[key := now];
    }

    method FreeSlot() returns (slot: nat)
      ensures slot !in expirations
    {
      slot := 0;
      var taken := expirations.Keys;
      while slot in taken
        invariant forall i :: i in expirations && i >= slot ==> i in taken
        decreases |taken|
      {
        taken := taken - {slot};
        slot := slot + 1;
      }
    }

    method Get(key: Key) returns (value: Option<Value>)
      ensures value == if key in entries then Some(entries[key].value) else None
    {
      value := if key in entries then Some(entries[key].value) else None;
    }

    /** The entry's expiry, which is known to be in the queue, is removed too. */
    method Remove(key: Key) returns (value: Option<Value>)
      requires Valid()
      modifies this
      ensures Valid() && Now() == Removed(old(Now()), key)
      ensures value == if key in old(entries) then Some(old(entries)[key].value) else None
    {
      RemoveKeepsInv(Now(), ttl, key);
      if key !in entries {
        return None;
      }
      var entry := entries[key];
      entries := entries - {key};
      assert EntryOk(old(Now()), ttl, key);
      assert entry.slot in expirations;
      expirations := expirations - {entry.slot};
      inserted := inserted - {key};
      return Some(entry.value);
    }

    method Pop(slot: nat)
      requires slot in expirations
      modifies this`expirations, this`entries, this`inserted
      ensures Now() == Popped(old(Now()), slot)
    {
      var key := expirations[slot].key;
      expirations := expirations - {slot};
      entries := entries - {key};
      inserted := inserted - {key};
    }

    /** Pops elapsed expiries, one at a time and in no particular order, until none is
        left. */
    method PollPurge(clock: nat)
      requires Valid() && clock == now
      modifies this
      ensures Valid() && Now() == Purged(old(Now()))
    {
      ghost var before := Now();
      while exists slot :: slot in expirations && expirations[slot].deadline <= clock
        invariant PartlyPurged(before, Now())
        decreases |expirations|
      {
        var slot :| slot in expirations && expirations[slot].deadline <= clock;
        OneFewer(expirations, slot);
        PurgeStep(before, Now(), slot);
        Pop(slot);
      }
      PurgeDone(before, Now(), ttl);
      lastPurge := now;
    }
  }

  /** Some elapsed expiries have been popped, with the entries of their keys. */
  ghost predicate PartlyPurged(s: State, t: State) {
    && t.now == s.now && t.lastPurge == s.lastPurge
    && t.expirations.Keys <= s.expirations.Keys
    && (forall slot :: slot in t.expirations ==> t.expirations[slot] == s.expirations[slot])
    && (forall slot :: slot in s.expirations && slot !in t.expirations ==> Elapsed(s, slot))
    && t.entries == s.entries - PoppedKeys(s, t) && t.inserted == s.inserted - PoppedKeys(s, t)
  }

  ghost function PoppedKeys(s: State, t: State): set<Key> {
    set slot | slot in s.expirations && slot !in t.expirations :: s.expirations[slot].key
  }

  lemma OneFewer(m: map<nat, Expiry>, slot: nat)
    requires slot in m
    ensures |m - {slot}| == |m| - 1
  {
    assert (m - {slot}).Keys == m.Keys - {slot};
  }

  function Popped(s: State, slot: nat): State
    requires slot in s.expirations
  {
    var key := s.expirations[slot].key;
    s.(expirations := s.expirations - {slot}, entries := s.entries - {key}, inserted := s.inserted - {key})
  }

  lemma PurgeStep(s: State, t: State, slot: nat)
    requires PartlyPurged(s, t) && Elapsed(t, slot)
    ensures PartlyPurged(s, Popped(t, slot))
  {
    assert PoppedKeys(s, Popped(t, slot)) == PoppedKeys(s, t) + {t.expirations[slot].key};
  }

  lemma PurgeDone(s: State, t: State, ttl: nat)
    requires Inv(s, ttl) && PartlyPurged(s, t)
    requires forall slot :: slot in t.expirations ==> t.expirations[slot].deadline > t.now
    ensures t.(lastPurge := t.now) == Purged(s) && Inv(Purged(s), ttl)
  {
    PurgeKeepsInv(s, ttl);
    forall slot | slot in s.expirations ensures slot !in t.expirations <==> slot in ElapsedSlots(s) {}
    assert PoppedKeys(s, t) == ElapsedKeys(s);
    assert t.expirations == s.expirations - ElapsedSlots(s);
  }
}
