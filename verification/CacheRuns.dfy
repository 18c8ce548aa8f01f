/** Whole runs of the query cache: what more capacity can change, and what a hit returns. */
module CacheRuns {
  import opened CacheSpec
  import opened Ids

  // ----- more capacity never turns a hit into a miss -----

  /** `S` is `L` with some entries left out. */
  ghost predicate Sublist(S: seq<Entry>, L: seq<Entry>)
  {
    S == [] ||
    (L != [] && ((S[0] == L[0] && Sublist(S[1..], L[1..])) || Sublist(S, L[1..])))
  }

  lemma {:induction false} SublistMember(S: seq<Entry>, L: seq<Entry>, e: Entry)
    requires Sublist(S, L) && e in S
    ensures e in L
  {
    if S[0] == L[0] && Sublist(S[1..], L[1..]) {
      if e != S[0] {
        SublistMember(S[1..], L[1..], e);
      }
    } else {
      SublistMember(S, L[1..], e);
    }
  }

  lemma {:induction false} SublistTail(S: seq<Entry>, L: seq<Entry>)
    requires S != [] && Sublist(S, L)
    ensures Sublist(S[1..], L)
  {
    if !(S[0] == L[0] && Sublist(S[1..], L[1..])) {
      SublistTail(S, L[1..]);
    }
  }

  lemma {:induction false} SublistWithout(S: seq<Entry>, L: seq<Entry>, key: Key)
    requires Sublist(S, L)
    ensures Sublist(Without(S, key), Without(L, key))
  {
    if S != [] {
      if S[0] == L[0] && Sublist(S[1..], L[1..]) {
        SublistWithout(S[1..], L[1..], key);
        if S[0].key != key {
          var T := [L[0]] + Without(L[1..], key);
          assert T[1..] == Without(L[1..], key);
        }
      } else {
        SublistWithout(S, L[1..], key);
        if L[0].key != key {
          var T := [L[0]] + Without(L[1..], key);
          assert T[1..] == Without(L[1..], key);
        }
      }
    }
  }

  lemma {:induction false} WithoutAbsent(S: seq<Entry>, key: Key)
    requires Find(S, key).None?
    ensures Without(S, key) == S
  {
    if S != [] {
      WithoutAbsent(S[1..], key);
    }
  }

  lemma SublistPush(S: seq<Entry>, L: seq<Entry>, e: Entry)
    requires Sublist(S, L)
    ensures Sublist([e] + S, [e] + L)
    ensures Sublist(S, [e] + L)
  {
    assert ([e] + S)[1..] == S && ([e] + L)[1..] == L;
  }

  lemma {:induction false} SublistLonger(S: seq<Entry>, L: seq<Entry>)
    requires Sublist(S, L)
    ensures |S| <= |L|
  {
    if S != [] {
      if S[0] == L[0] && Sublist(S[1..], L[1..]) {
        SublistLonger(S[1..], L[1..]);
      } else {
        SublistLonger(S, L[1..]);
      }
    }
  }

  /** Dropping the last entry of both lists, or of the shorter one, keeps the relation. */
  lemma {:induction false} SublistDropLast(S: seq<Entry>, L: seq<Entry>)
    requires S != [] && Sublist(S, L)
    ensures Sublist(S[..|S| - 1], L[..|L| - 1])
    ensures Sublist(S[..|S| - 1], L)
  {
    var s, l := S[..|S| - 1], L[..|L| - 1];
    if S[0] == L[0] && Sublist(S[1..], L[1..]) {
      if |S| > 1 {
        SublistDropLast(S[1..], L[1..]);
        assert s[1..] == S[1..][..|S[1..]| - 1] && l[1..] == L[1..][..|L[1..]| - 1];
      }
    } else {
      SublistDropLast(S, L[1..]);
      SublistLonger(S, L[1..]);
      assert l[1..] == L[1..][..|L[1..]| - 1];
    }
  }

  function Cap(capacity: int): nat
  {
    if capacity < 0 then 0 else capacity
  }

  /** The smaller cache holds a sublist of the larger one, and the larger one has no less room. */
  ghost predicate Included(s: State, c: int, l: State, d: int)
  {
    && s.generation == l.generation
    && Sublist(s.entries, l.entries)
    && Bounded(s, c) && Bounded(l, d)
    && Cap(c) - |s.entries| <= Cap(d) - |l.entries|
  }

  lemma SublistFind(S: seq<Entry>, L: seq<Entry>, key: Key)
    requires Sublist(S, L) && DistinctKeys(L) && Find(S, key).Some?
    ensures Find(L, key) == Find(S, key)
  {
    SublistMember(S, L, Find(S, key).value);
    FindUnique(L, Find(S, key).value);
  }

  lemma GetIncluded(s: State, c: int, l: State, d: int, text: string, kind: string, now: int)
    requires Included(s, c, l, d)
    ensures Included(GetState(s, text, kind, now), c, GetState(l, text, kind, now), d)
  {
    var key := CurrentKey(s, text, kind);
    StepBounded(s, c, 0, Event(Get(text, kind), now));
    StepBounded(l, d, 0, Event(Get(text, kind), now));
    WithoutFacts(s.entries, key);
    WithoutFacts(l.entries, key);
    SublistWithout(s.entries, l.entries, key);
    match Find(s.entries, key)
    case Some(e) =>
      SublistFind(s.entries, l.entries, key);
      SublistPush(Without(s.entries, key), Without(l.entries, key), e);
    case None =>
      WithoutAbsent(s.entries, key);
      match Find(l.entries, key)
      case Some(e) => SublistPush(s.entries, Without(l.entries, key), e);
      case None =>
  }

  lemma PutIncluded(s: State, c: int, l: State, d: int, ttl: int, text: string, kind: string, v: Vector, now: int)
    requires Included(s, c, l, d)
    ensures Included(PutState(s, c, ttl, text, kind, v, now), c, PutState(l, d, ttl, text, kind, v, now), d)
  {
    var key := CurrentKey(s, text, kind);
    StepBounded(s, c, ttl, Event(Put(text, kind, v), now));
    StepBounded(l, d, ttl, Event(Put(text, kind, v), now));
    WithoutFacts(s.entries, key);
    WithoutFacts(l.entries, key);
    SublistWithout(s.entries, l.entries, key);
    if Find(s.entries, key).Some? {
      SublistFind(s.entries, l.entries, key);
    }
    var e := Entry(key, v, now + ttl, kind);
    var S, L := [e] + Without(s.entries, key), [e] + Without(l.entries, key);
    SublistPush(Without(s.entries, key), Without(l.entries, key), e);
    SublistDropLast(S, L);
    assert Truncate(S, c) == if |S| <= Cap(c) then S else S[..|S| - 1];
    assert Truncate(L, d) == if |L| <= Cap(d) then L else L[..|L| - 1];
  }

  lemma {:induction false} InclusionInvariant(c: int, d: int, ttl: int, events: seq<Event>)
    requires c <= d
    ensures Included(Run(c, ttl, events), c, Run(d, ttl, events), d)
  {
    if events != [] {
      var before, e := events[..|events| - 1], events[|events| - 1];
      InclusionInvariant(c, d, ttl, before);
      var s, l := Run(c, ttl, before), Run(d, ttl, before);
      match e.op
      case Get(text, kind) => GetIncluded(s, c, l, d, text, kind, e.at);
      case Put(text, kind, v) => PutIncluded(s, c, l, d, ttl, text, kind, v, e.at);
      case InvalidateKind(kind) =>
    }
  }

  /** On the same run every entry of a smaller cache is in a larger one, with the same vector
      and expiry, and every hit of the smaller cache is the same hit in the larger one. */
  lemma LargerCacheIncludesSmaller(c: int, d: int, ttl: int, events: seq<Event>, text: string, kind: string, now: int)
    requires c <= d
    ensures forall e :: e in Run(c, ttl, events).entries ==> e in Run(d, ttl, events).entries
    ensures
      var small := GetResult(Run(c, ttl, events), text, kind, now);
      small.Some? ==> GetResult(Run(d, ttl, events), text, kind, now) == small
  {
    InclusionInvariant(c, d, ttl, events);
    var s, l := Run(c, ttl, events), Run(d, ttl, events);
    forall e | e in s.entries
      ensures e in l.entries
    {
      SublistMember(s.entries, l.entries, e);
    }
    if Find(s.entries, CurrentKey(s, text, kind)).Some? {
      SublistFind(s.entries, l.entries, CurrentKey(s, text, kind));
    }
  }

  // ----- a hit returns the latest live vector -----

  /** The vector last put for a text and kind since the kind was last invalidated, and when. */
  function Latest(events: seq<Event>, text: string, kind: string): Option<(Vector, int)>
  {
    if events == [] then None
    else
      var e := events[|events| - 1];
      match e.op
      case Put(t, k, v) =>
        if t == text && k == kind then Some((v, e.at)) else Latest(events[..|events| - 1], text, kind)
      case InvalidateKind(k) => if k == kind then None else Latest(events[..|events| - 1], text, kind)
      case Get(_, _) => Latest(events[..|events| - 1], text, kind)
  }

  ghost predicate CleanKinds(events: seq<Event>)
  {
    forall e :: e in events ==> NoNul(e.op.kind)
  }

  ghost predicate ClockMonotone(events: seq<Event>)
  {
    forall i, j :: 0 <= i < j < |events| ==> events[i].at <= events[j].at
  }

  /** `e` was put under generation `g` of its kind, which is not to come. */
  ghost predicate PutUnder(s: State, e: Entry, text: string, g: nat)
  {
    NoNul(e.kind) && e.key == KeyText(text, e.kind, g) && g <= Generation(s, e.kind)
  }

  ghost predicate Tagged(s: State, e: Entry)
  {
    exists text, g: nat :: PutUnder(s, e, text, g)
  }

  /** If `e` is the current entry of a text and kind, it is the latest put. */
  ghost predicate HoldsLatest(s: State, ttl: int, events: seq<Event>, e: Entry, text: string, kind: string)
  {
    NoNul(kind) && e.key == CurrentKey(s, text, kind) ==>
      Latest(events, text, kind) == Some((e.vector, e.expiresAt - ttl))
  }

  ghost predicate Faithful(s: State, ttl: int, events: seq<Event>)
  {
    && (forall e :: e in s.entries ==> Tagged(s, e))
    && (forall e, text, kind {:trigger HoldsLatest(s, ttl, events, e, text, kind)} ::
          e in s.entries ==> HoldsLatest(s, ttl, events, e, text, kind))
    && (forall kind :: Generation(s, kind) <= |events|)
  }

  lemma {:induction false} TruncateMembers(entries: seq<Entry>, capacity: int, e: Entry)
    requires e in Truncate(entries, capacity)
    ensures e in entries
  {
  }

  lemma {:induction false} WithoutMembers(entries: seq<Entry>, key: Key, e: Entry)
    requires e in Without(entries, key)
    ensures e in entries && e.key != key
  {
    if entries[0].key == key || e != entries[0] {
      WithoutMembers(entries[1..], key, e);
    } else if e in Without(entries[1..], key) {
      WithoutMembers(entries[1..], key, e);
    }
  }

  /** Every entry after a step was there before, except the one just put. */
  lemma StepEntries(s: State, capacity: int, ttl: int, ev: Event, e: Entry)
    requires e in Step(s, capacity, ttl, ev).entries
    ensures ev.op.Put? ==>
      || (e in s.entries && e.key != CurrentKey(s, ev.op.text, ev.op.kind))
      || e == Entry(CurrentKey(s, ev.op.text, ev.op.kind), ev.op.vector, ev.at + ttl, ev.op.kind)
    ensures !ev.op.Put? ==> e in s.entries
  {
    match ev.op
    case Get(text, kind) =>
      if e in Without(s.entries, CurrentKey(s, text, kind)) {
        WithoutMembers(s.entries, CurrentKey(s, text, kind), e);
      }
    case Put(text, kind, v) =>
      var key := CurrentKey(s, text, kind);
      TruncateMembers([Entry(key, v, ev.at + ttl, kind)] + Without(s.entries, key), capacity, e);
      if e in Without(s.entries, key) {
        WithoutMembers(s.entries, key, e);
      }
    case InvalidateKind(_) =>
  }

  lemma StepTagged(s: State, capacity: int, ttl: int, events: seq<Event>, ev: Event, e: Entry)
    requires Faithful(s, ttl, events) && |events| + 1 < GENERATIONS && NoNul(ev.op.kind)
    requires e in Step(s, capacity, ttl, ev).entries
    ensures Tagged(Step(s, capacity, ttl, ev), e)
  {
    var after := Step(s, capacity, ttl, ev);
    StepEntries(s, capacity, ttl, ev, e);
    if e in s.entries {
      assert Tagged(s, e);
      var text, g: nat :| PutUnder(s, e, text, g);
      assert Generation(s, e.kind) <= Generation(after, e.kind);
      assert PutUnder(after, e, text, g);
    } else {
      assert PutUnder(after, e, ev.op.text, Generation(s, ev.op.kind));
    }
  }

  lemma StepHoldsLatest(s: State, capacity: int, ttl: int, events: seq<Event>, ev: Event, e: Entry, text: string,
                        kind: string)
    requires Faithful(s, ttl, events) && |events| + 1 < GENERATIONS && NoNul(ev.op.kind)
    requires e in Step(s, capacity, ttl, ev).entries
    ensures HoldsLatest(Step(s, capacity, ttl, ev), ttl, events + [ev], e, text, kind)
  {
    var after := Step(s, capacity, ttl, ev);
    assert (events + [ev])[..|events|] == events;
    StepEntries(s, capacity, ttl, ev, e);
    if NoNul(kind) && e.key == CurrentKey(after, text, kind) {
      if ev.op.InvalidateKind? && ev.op.kind == kind {
        assert Tagged(s, e);
        var t, g: nat :| PutUnder(s, e, t, g);
        KeyTextInjective(t, e.kind, g, text, kind, Generation(after, kind));
        assert false;
      } else if ev.op.Put? && e.key == CurrentKey(s, ev.op.text, ev.op.kind) {
        KeyTextInjective(ev.op.text, ev.op.kind, Generation(s, ev.op.kind), text, kind, Generation(s, kind));
      } else {
        assert HoldsLatest(s, ttl, events, e, text, kind);
      }
    }
  }

  lemma {:induction false} RunFaithful(capacity: int, ttl: int, events: seq<Event>)
    requires CleanKinds(events) && |events| < GENERATIONS
    ensures Faithful(Run(capacity, ttl, events), ttl, events)
  {
    if events != [] {
      var before, ev := events[..|events| - 1], events[|events| - 1];
      assert events == before + [ev];
      assert ev in events && forall e :: e in before ==> e in events;
      RunFaithful(capacity, ttl, before);
      var s := Run(capacity, ttl, before);
      var after := Step(s, capacity, ttl, ev);
      forall e | e in after.entries
        ensures Tagged(after, e)
      {
        StepTagged(s, capacity, ttl, before, ev, e);
      }
      forall e, text, kind | e in after.entries
        ensures HoldsLatest(after, ttl, events, e, text, kind)
      {
        StepHoldsLatest(s, capacity, ttl, before, ev, e, text, kind);
      }
      forall kind
        ensures Generation(after, kind) <= |events|
      {
        assert Generation(s, kind) <= |before|;
      }
    }
  }

  /** A hit is the vector of the latest put of that text and kind since the kind was last
      invalidated, and its time to live has not passed. */
  lemma HitIsLatest(capacity: int, ttl: int, events: seq<Event>, text: string, kind: string, now: int)
    requires CleanKinds(events) && |events| < 0x1_0000_0000_0000_0000 && NoNul(kind)
    requires GetResult(Run(capacity, ttl, events), text, kind, now).Some?
    ensures Latest(events, text, kind).Some?
    ensures GetResult(Run(capacity, ttl, events), text, kind, now) == Some(Latest(events, text, kind).value.0)
    ensures now <= Latest(events, text, kind).value.1 + ttl
  {
    RunFaithful(capacity, ttl, events);
    var s := Run(capacity, ttl, events);
    var e := Find(s.entries, CurrentKey(s, text, kind)).value;
    assert HoldsLatest(s, ttl, events, e, text, kind);
  }
}
