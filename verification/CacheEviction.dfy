/** What eviction keeps: which gets hit, for any capacity. */
module CacheEviction {
  import opened CacheSpec
  import opened CacheRuns
  import opened Ids

  // ----- how many entries are ahead of a key -----

  ghost function KeysAhead(entries: seq<Entry>, key: Key): set<Key>
  {
    if entries == [] || entries[0].key == key then {} else {entries[0].key} + KeysAhead(entries[1..], key)
  }

  lemma {:induction false} AheadAreKeys(entries: seq<Entry>, key: Key, x: Key)
    requires x in KeysAhead(entries, key)
    ensures exists e :: e in entries && e.key == x
  {
    if x == entries[0].key {
      assert entries[0] in entries;
    } else {
      AheadAreKeys(entries[1..], key, x);
    }
  }

  /** Taking out another key leaves a key where it is among the others. */
  lemma {:induction false} WithoutAhead(entries: seq<Entry>, other: Key, key: Key)
    requires other != key
    ensures Find(Without(entries, other), key) == Find(entries, key)
    ensures KeysAhead(Without(entries, other), key) == KeysAhead(entries, key) - {other}
  {
    if entries != [] {
      WithoutAhead(entries[1..], other, key);
    }
  }

  lemma {:induction false} AheadWithin(entries: seq<Entry>, key: Key)
    requires DistinctKeys(entries) && Find(entries, key).Some?
    ensures |KeysAhead(entries, key)| < |entries|
  {
    if entries[0].key != key {
      assert DistinctKeys(entries[1..]);
      AheadWithin(entries[1..], key);
      HeadNotAhead(entries, key);
    }
  }

  lemma HeadNotAhead(entries: seq<Entry>, key: Key)
    requires DistinctKeys(entries) && entries != []
    ensures entries[0].key !in KeysAhead(entries[1..], key)
  {
    if entries[0].key in KeysAhead(entries[1..], key) {
      AheadAreKeys(entries[1..], key, entries[0].key);
    }
  }

  lemma PushAhead(e: Entry, rest: seq<Entry>, key: Key)
    ensures Find([e] + rest, key) == if e.key == key then Some(e) else Find(rest, key)
    ensures KeysAhead([e] + rest, key) == if e.key == key then {} else {e.key} + KeysAhead(rest, key)
  {
    assert ([e] + rest)[1..] == rest;
  }

  /** One more entry in front of a truncated list. */
  lemma TruncateNext(e: Entry, rest: seq<Entry>, capacity: nat, key: Key)
    requires capacity > 0 && e.key != key && e.key !in KeysAhead(rest, key)
    ensures var kept := Truncate([e] + rest, capacity);
      && Find(kept, key) == Find(Truncate(rest, capacity - 1), key)
      && KeysAhead(kept, key) == {e.key} + KeysAhead(Truncate(rest, capacity - 1), key)
    ensures |KeysAhead([e] + rest, key)| == 1 + |KeysAhead(rest, key)|
  {
    assert Truncate([e] + rest, capacity) == [e] + Truncate(rest, capacity - 1);
    PushAhead(e, rest, key);
    PushAhead(e, Truncate(rest, capacity - 1), key);
    hide Find, KeysAhead, Truncate;
  }

  lemma TruncateFirst(entries: seq<Entry>, capacity: nat, key: Key)
    requires entries != [] && (capacity == 0 || entries[0].key == key)
    ensures KeysAhead(Truncate(entries, capacity), key) == {}
    ensures entries[0].key == key ==> KeysAhead(entries, key) == {}
    ensures Find(Truncate(entries, capacity), key) == if capacity == 0 then None else Find(entries, key)
  {
    assert capacity > 0 ==> Truncate(entries, capacity) == [entries[0]] + Truncate(entries, capacity)[1..];
  }

  /** Truncation keeps a key exactly when fewer keys than the capacity are ahead of it. */
  lemma {:induction false} TruncateAhead(entries: seq<Entry>, capacity: nat, key: Key)
    requires DistinctKeys(entries) && Find(entries, key).Some?
    ensures var kept := Truncate(entries, capacity);
      if |KeysAhead(entries, key)| < capacity
      then Find(kept, key) == Find(entries, key) && KeysAhead(kept, key) == KeysAhead(entries, key)
      else Find(kept, key).None?
  {
    if capacity == 0 || entries[0].key == key {
      TruncateFirst(entries, capacity, key);
    } else {
      var e, rest := entries[0], entries[1..];
      assert DistinctKeys(rest) && entries == [e] + rest;
      HeadNotAhead(entries, key);
      PushAhead(e, rest, key);
      hide Find, KeysAhead, DistinctKeys, Truncate;
      TruncateNext(e, rest, capacity, key);
      TruncateAhead(rest, capacity - 1, key);
    }
  }

  // ----- what a step does to a key -----

  /** The key that a step makes the newest one: that of a put, or of a hit. */
  function Touched(s: State, ev: Event): Option<Key>
  {
    match ev.op
    case Get(text, kind) => if GetResult(s, text, kind, ev.at).Some? then Some(CurrentKey(s, text, kind)) else None
    case Put(text, kind, _) => Some(CurrentKey(s, text, kind))
    case InvalidateKind(_) => None
  }

  /** The key whose expired entry a get takes out. */
  function Dropped(s: State, ev: Event): Option<Key>
  {
    match ev.op
    case Get(text, kind) =>
      var key := CurrentKey(s, text, kind);
      if Find(s.entries, key).Some? && GetResult(s, text, kind, ev.at).None? then Some(key) else None
    case _ => None
  }

  function PutKey(s: State, ev: Event): Option<Key>
  {
    if ev.op.Put? then Touched(s, ev) else None
  }

  function SetOf(key: Option<Key>): set<Key>
  {
    if key.Some? then {key.value} else {}
  }

  /** The keys ahead of `key` after a step. */
  ghost function AheadNext(s: State, ev: Event, key: Key, ahead: set<Key>): set<Key>
  {
    if Touched(s, ev) == Some(key) then {} else ahead + SetOf(Touched(s, ev)) - SetOf(Dropped(s, ev))
  }

  /** Where `key` stands after a step. */
  ghost predicate Moved(s: State, t: State, capacity: int, ev: Event, key: Key)
  {
    var ahead := AheadNext(s, ev, key, KeysAhead(s.entries, key));
    && (Find(t.entries, key).Some? <==>
          && (PutKey(s, ev) == Some(key) || Find(s.entries, key).Some?)
          && Dropped(s, ev) != Some(key) && |ahead| < capacity)
    && (Find(t.entries, key).Some? ==> KeysAhead(t.entries, key) == ahead)
  }

  /** The list of a put before it is truncated. */
  function Pushed(s: State, e: Entry): seq<Entry>
  {
    [e] + Without(s.entries, e.key)
  }

  lemma PushedAhead(s: State, e: Entry, key: Key)
    requires DistinctKeys(s.entries)
    ensures DistinctKeys(Pushed(s, e))
    ensures Find(Pushed(s, e), key).Some? <==> e.key == key || Find(s.entries, key).Some?
    ensures KeysAhead(Pushed(s, e), key) == if e.key == key then {} else {e.key} + KeysAhead(s.entries, key)
  {
    WithoutFacts(s.entries, e.key);
    PushAhead(e, Without(s.entries, e.key), key);
    if e.key != key {
      WithoutAhead(s.entries, e.key, key);
    }
    hide Find, KeysAhead, Without;
  }

  lemma GetMoves(s: State, capacity: int, text: string, kind: string, at: int, key: Key)
    requires Bounded(s, capacity)
    ensures Moved(s, GetState(s, text, kind, at), capacity, Event(Get(text, kind), at), key)
  {
    var ev, found := Event(Get(text, kind), at), Find(s.entries, CurrentKey(s, text, kind));
    assert Touched(s, ev) == if found.Some? && at <= found.value.expiresAt then Some(found.value.key) else None;
    assert Dropped(s, ev) == if found.Some? && at > found.value.expiresAt then Some(found.value.key) else None;
    assert GetState(s, text, kind, at).entries ==
      if found.None? then s.entries
      else if at > found.value.expiresAt then Without(s.entries, found.value.key) else Pushed(s, found.value);
    var t := GetState(s, text, kind, at);
    StepBounded(s, capacity, 0, ev);
    hide GetState, Touched, Dropped, DistinctKeys, CurrentKey;
    if found.None? {
      SamePlace(s, t, capacity, ev, key);
    } else if at > found.value.expiresAt {
      WithoutFacts(s.entries, found.value.key);
      DroppedMoves(s, t, capacity, ev, found.value.key, key);
    } else {
      HitMoves(s, t, capacity, ev, found.value, key);
    }
  }

  lemma SamePlace(s: State, t: State, capacity: int, ev: Event, key: Key)
    requires Bounded(t, capacity) && t.entries == s.entries && Touched(s, ev) == Dropped(s, ev) == None
    ensures Moved(s, t, capacity, ev, key)
  {
    assert AheadNext(s, ev, key, KeysAhead(s.entries, key)) == KeysAhead(s.entries, key);
    if Find(t.entries, key).Some? {
      AheadWithin(t.entries, key);
    }
    hide Find, KeysAhead, DistinctKeys, Touched, Dropped, AheadNext;
  }

  lemma DroppedMoves(s: State, t: State, capacity: int, ev: Event, k: Key, key: Key)
    requires Bounded(t, capacity) && t.entries == Without(s.entries, k) && Find(t.entries, k).None?
    requires ev.op.Get? && Touched(s, ev) == None && Dropped(s, ev) == Some(k)
    ensures Moved(s, t, capacity, ev, key)
  {
    if k != key {
      WithoutAhead(s.entries, k, key);
      assert AheadNext(s, ev, key, KeysAhead(s.entries, key)) == KeysAhead(t.entries, key);
    }
    if Find(t.entries, key).Some? {
      AheadWithin(t.entries, key);
    }
    hide Find, KeysAhead, DistinctKeys, Touched, Dropped, AheadNext, Without;
  }

  lemma HitMoves(s: State, t: State, capacity: int, ev: Event, e: Entry, key: Key)
    requires Bounded(s, capacity) && Bounded(t, capacity) && t.entries == Pushed(s, e) && Find(s.entries, e.key).Some?
    requires ev.op.Get? && Touched(s, ev) == Some(e.key) && Dropped(s, ev) == None
    ensures Moved(s, t, capacity, ev, key)
  {
    PushedAhead(s, e, key);
    assert AheadNext(s, ev, key, KeysAhead(s.entries, key)) == KeysAhead(t.entries, key);
    if Find(t.entries, key).Some? {
      AheadWithin(t.entries, key);
    }
    hide Find, KeysAhead, DistinctKeys, Touched, Dropped, AheadNext, Pushed;
  }

  lemma PutMoves(s: State, capacity: int, ttl: int, text: string, kind: string, v: Vector, at: int, key: Key)
    requires Bounded(s, capacity)
    ensures Moved(s, PutState(s, capacity, ttl, text, kind, v, at), capacity, Event(Put(text, kind, v), at), key)
  {
    var e := Entry(CurrentKey(s, text, kind), v, at + ttl, kind);
    var t, ev := PutState(s, capacity, ttl, text, kind, v, at), Event(Put(text, kind, v), at);
    assert t.entries == Truncate(Pushed(s, e), capacity);
    assert Touched(s, ev) == Some(e.key) && Dropped(s, ev) == None;
    hide *;
    BoundedKeys(s, capacity);
    PushMoves(s, t, capacity, ev, e, key);
  }

  lemma BoundedKeys(s: State, capacity: int)
    requires Bounded(s, capacity)
    ensures DistinctKeys(s.entries)
  {
  }

  lemma PushMoves(s: State, t: State, capacity: int, ev: Event, e: Entry, key: Key)
    requires DistinctKeys(s.entries) && t.entries == Truncate(Pushed(s, e), capacity)
    requires ev.op.Put? && Touched(s, ev) == Some(e.key) && Dropped(s, ev) == None
    ensures Moved(s, t, capacity, ev, key)
  {
    var all := Pushed(s, e);
    PushedAhead(s, e, key);
    assert AheadNext(s, ev, key, KeysAhead(s.entries, key)) == KeysAhead(all, key);
    if capacity < 0 {
      assert t.entries == [];
    }
    hide Touched, Dropped, KeysAhead, AheadNext, DistinctKeys, Pushed, Truncate;
    if Find(all, key).None? {
      TruncateAbsent(all, capacity, key);
    } else if capacity >= 0 {
      TruncateAhead(all, capacity, key);
    }
  }

  lemma TruncateAbsent(entries: seq<Entry>, capacity: int, key: Key)
    requires Find(entries, key).None?
    ensures Find(Truncate(entries, capacity), key).None?
  {
    var found := Find(Truncate(entries, capacity), key);
    if found.Some? {
      TruncateMembers(entries, capacity, found.value);
    }
  }

  lemma StepMoves(s: State, capacity: int, ttl: int, ev: Event, key: Key)
    requires Bounded(s, capacity)
    ensures Moved(s, Step(s, capacity, ttl, ev), capacity, ev, key)
  {
    match ev.op
    case Get(text, kind) => GetMoves(s, capacity, text, kind, ev.at, key);
    case Put(text, kind, v) => PutMoves(s, capacity, ttl, text, kind, v, ev.at, key);
    case InvalidateKind(_) =>
      if Find(s.entries, key).Some? {
        AheadWithin(s.entries, key);
      }
  }

  // ----- which keys a run keeps -----

  /** The keys put or hit since `key` was, without those whose expired entries were taken out since. */
  ghost function Ahead(capacity: int, ttl: int, events: seq<Event>, key: Key): set<Key>
  {
    if events == [] then {}
    else
      var before, ev := events[..|events| - 1], events[|events| - 1];
      AheadNext(Run(capacity, ttl, before), ev, key, Ahead(capacity, ttl, before, key))
  }

  /** Ever since `key` was last put, fewer keys than the capacity were ahead of it. */
  ghost predicate Uncrowded(capacity: int, ttl: int, events: seq<Event>, key: Key)
  {
    events != [] &&
    var before, ev := events[..|events| - 1], events[|events| - 1];
    && |Ahead(capacity, ttl, events, key)| < capacity
    && (PutKey(Run(capacity, ttl, before), ev) == Some(key) || Uncrowded(capacity, ttl, before, key))
  }

  /** Since `key` was last put, its entry was not taken out as expired. */
  ghost predicate Undropped(capacity: int, ttl: int, events: seq<Event>, key: Key)
  {
    events != [] &&
    var before, ev := events[..|events| - 1], events[|events| - 1];
    && Dropped(Run(capacity, ttl, before), ev) != Some(key)
    && (PutKey(Run(capacity, ttl, before), ev) == Some(key) || Undropped(capacity, ttl, before, key))
  }

  /** A key is stored exactly when it was put and since then neither crowded out nor dropped. */
  lemma {:induction false} StoredExactly(capacity: int, ttl: int, events: seq<Event>, key: Key)
    ensures var s := Run(capacity, ttl, events);
      && (Find(s.entries, key).Some? <==>
           Uncrowded(capacity, ttl, events, key) && Undropped(capacity, ttl, events, key))
      && (Find(s.entries, key).Some? ==> KeysAhead(s.entries, key) == Ahead(capacity, ttl, events, key))
  {
    if events != [] {
      var before, ev := events[..|events| - 1], events[|events| - 1];
      StoredExactly(capacity, ttl, before, key);
      RunBounded(capacity, ttl, before);
      StepMoves(Run(capacity, ttl, before), capacity, ttl, ev, key);
      hide Step, Touched, Dropped, Find, KeysAhead;
    }
  }

  // ----- when a get hits -----

  /** The key of a text and kind before and after a step that is not their put and keeps the kind. */
  lemma KeyStays(s: State, capacity: int, ttl: int, ev: Event, text: string, kind: string)
    requires ev.op.InvalidateKind? ==> ev.op.kind != kind
    ensures CurrentKey(Step(s, capacity, ttl, ev), text, kind) == CurrentKey(s, text, kind)
  {
  }

  /** A live entry is never taken out as expired. */
  lemma {:induction false} LiveUndropped(capacity: int, ttl: int, events: seq<Event>, text: string, kind: string,
                                         now: int)
    requires CleanKinds(events) && |events| < GENERATIONS && NoNul(kind) && ClockMonotone(events)
    requires events != [] ==> events[|events| - 1].at <= now
    requires Latest(events, text, kind).Some? && now <= Latest(events, text, kind).value.1 + ttl
    ensures Undropped(capacity, ttl, events, CurrentKey(Run(capacity, ttl, events), text, kind))
  {
    var before, ev := events[..|events| - 1], events[|events| - 1];
    var s := Run(capacity, ttl, before);
    assert events == before + [ev] && ev in events;
    assert forall e :: e in before ==> e in events;
    KeyStays(s, capacity, ttl, ev, text, kind);
    var key := CurrentKey(s, text, kind);
    if PutKey(s, ev) != Some(key) {
      RunFaithful(capacity, ttl, before);
      NotDropped(s, ttl, before, ev, text, kind);
      hide CurrentKey, Step, Faithful, CleanKinds;
      LiveUndropped(capacity, ttl, before, text, kind, now);
    }
  }

  lemma NotDropped(s: State, ttl: int, before: seq<Event>, ev: Event, text: string, kind: string)
    requires Faithful(s, ttl, before) && NoNul(kind)
    requires Latest(before, text, kind).Some? && ev.at <= Latest(before, text, kind).value.1 + ttl
    ensures Dropped(s, ev) != Some(CurrentKey(s, text, kind))
  {
    var key := CurrentKey(s, text, kind);
    if Find(s.entries, key).Some? {
      assert HoldsLatest(s, ttl, before, Find(s.entries, key).value, text, kind);
    }
  }

  /** For any capacity: a get hits exactly when the latest put of the text and kind, since the kind
      was last invalidated, is within its time to live, and ever since fewer keys than the capacity
      were ahead of it. */
  lemma HitExactly(capacity: int, ttl: int, events: seq<Event>, text: string, kind: string, now: int)
    requires CleanKinds(events) && |events| < 0x1_0000_0000_0000_0000 && NoNul(kind) && ClockMonotone(events)
    requires events != [] ==> events[|events| - 1].at <= now
    ensures GetResult(Run(capacity, ttl, events), text, kind, now) ==
      match Latest(events, text, kind)
      case None => None
      case Some((v, t)) =>
        if now <= t + ttl && Uncrowded(capacity, ttl, events, CurrentKey(Run(capacity, ttl, events), text, kind))
        then Some(v) else None
  {
    var s := Run(capacity, ttl, events);
    var key := CurrentKey(s, text, kind);
    StoredExactly(capacity, ttl, events, key);
    if GetResult(s, text, kind, now).Some? {
      HitIsLatest(capacity, ttl, events, text, kind, now);
    } else if Latest(events, text, kind).Some? && now <= Latest(events, text, kind).value.1 + ttl {
      LiveUndropped(capacity, ttl, events, text, kind, now);
      RunFaithful(capacity, ttl, events);
      if Find(s.entries, key).Some? {
        assert HoldsLatest(s, ttl, events, Find(s.entries, key).value, text, kind);
      }
    }
  }

  // ----- without eviction -----

  /** The keys put during a run. */
  function PutKeys(capacity: int, ttl: int, events: seq<Event>): set<Key>
  {
    if events == [] then {}
    else
      var before, e := events[..|events| - 1], events[|events| - 1];
      PutKeys(capacity, ttl, before)
      + if e.op.Put? then {CurrentKey(Run(capacity, ttl, before), e.op.text, e.op.kind)} else {}
  }

  lemma {:induction false} RunKeys(capacity: int, ttl: int, events: seq<Event>)
    ensures KeysOf(Run(capacity, ttl, events).entries) <= PutKeys(capacity, ttl, events)
  {
    if events != [] {
      var before, ev := events[..|events| - 1], events[|events| - 1];
      RunKeys(capacity, ttl, before);
      var s := Run(capacity, ttl, before);
      forall e | e in Step(s, capacity, ttl, ev).entries
        ensures e.key in PutKeys(capacity, ttl, events)
      {
        StepEntries(s, capacity, ttl, ev, e);
        assert e in s.entries ==> e.key in KeysOf(s.entries);
      }
    }
  }

  lemma {:induction false} AheadWasPut(capacity: int, ttl: int, events: seq<Event>, key: Key)
    ensures Ahead(capacity, ttl, events, key) <= PutKeys(capacity, ttl, events) - {key}
  {
    if events != [] {
      var before, ev := events[..|events| - 1], events[|events| - 1];
      var s := Run(capacity, ttl, before);
      AheadWasPut(capacity, ttl, before, key);
      RunKeys(capacity, ttl, before);
      if ev.op.Get? && Touched(s, ev).Some? {
        assert Find(s.entries, CurrentKey(s, ev.op.text, ev.op.kind)).value.key in KeysOf(s.entries);
      }
    }
  }

  lemma {:induction false} RoomyUncrowded(capacity: int, ttl: int, events: seq<Event>, text: string, kind: string)
    requires |PutKeys(capacity, ttl, events)| <= capacity && Latest(events, text, kind).Some?
    ensures CurrentKey(Run(capacity, ttl, events), text, kind) in PutKeys(capacity, ttl, events)
    ensures Uncrowded(capacity, ttl, events, CurrentKey(Run(capacity, ttl, events), text, kind))
  {
    var before, ev := events[..|events| - 1], events[|events| - 1];
    var s, puts := Run(capacity, ttl, before), PutKeys(capacity, ttl, events);
    KeyStays(s, capacity, ttl, ev, text, kind);
    var key := CurrentKey(s, text, kind);
    if PutKey(s, ev) != Some(key) {
      SubsetSize(PutKeys(capacity, ttl, before), puts);
      RoomyUncrowded(capacity, ttl, before, text, kind);
    }
    AheadWasPut(capacity, ttl, events, key);
    SubsetSize(Ahead(capacity, ttl, events, key) + {key}, puts);
  }

  /** A cache with room for every key it was given hits exactly when the latest put of the
      text and kind, since the last invalidation, is within its time to live. */
  lemma RoomyCacheIsExact(capacity: int, ttl: int, events: seq<Event>, text: string, kind: string, now: int)
    requires CleanKinds(events) && |events| < 0x1_0000_0000_0000_0000 && NoNul(kind) && ClockMonotone(events)
    requires |PutKeys(capacity, ttl, events)| <= capacity
    requires events != [] ==> events[|events| - 1].at <= now
    ensures GetResult(Run(capacity, ttl, events), text, kind, now) ==
      match Latest(events, text, kind)
      case None => None
      case Some((v, t)) => if now <= t + ttl then Some(v) else None
  {
    HitExactly(capacity, ttl, events, text, kind, now);
    if Latest(events, text, kind).Some? {
      RoomyUncrowded(capacity, ttl, events, text, kind);
    }
  }
}
