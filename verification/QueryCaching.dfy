/** The query cache itself: a map of list elements and a recency list of the same elements. */
module QueryCaching {
  import opened CacheSpec
  import opened Ids
  import CacheRuns

  /** One element of the recency list; its key never changes. */
  class Element {
    ghost const key: Key
    var value: Entry

    constructor (value: Entry)
      ensures this.value == value && key == value.key
    {
      this.value := value;
      this.key := value.key;
    }
  }

  ghost function ValuesOf(order: seq<Element>): (r: seq<Entry>)
    reads order
    ensures |r| == |order| && forall i :: 0 <= i < |order| ==> r[i] == order[i].value
  {
    seq(|order|, i requires 0 <= i < |order| reads order => order[i].value)
  }

  function Remove<T(==)>(xs: seq<T>, x: T): (r: seq<T>)
    ensures forall y :: y in r ==> y in xs
  {
    if xs == [] then [] else if xs[0] == x then xs[1..] else [xs[0]] + Remove(xs[1..], x)
  }

  lemma {:induction false} RemoveFacts(xs: seq<Element>, x: Element)
    requires forall i, j :: 0 <= i < j < |xs| ==> xs[i] != xs[j]
    ensures forall i, j :: 0 <= i < j < |Remove(xs, x)| ==> Remove(xs, x)[i] != Remove(xs, x)[j]
    ensures forall y :: y in Remove(xs, x) <==> y in xs && y != x
    ensures |Remove(xs, x)| == if x in xs then |xs| - 1 else |xs|
  {
    if xs != [] {
      RemoveFacts(xs[1..], x);
      assert xs == [xs[0]] + xs[1..];
      assert forall y :: y in Remove(xs[1..], x) ==> y != xs[0];
      var r := Remove(xs[1..], x);
      assert xs[0] != x ==> Remove(xs, x) == [xs[0]] + r;
      forall i, j | 0 <= i < j < |Remove(xs, x)|
        ensures Remove(xs, x)[i] != Remove(xs, x)[j]
      {
        assert xs[0] != x ==> r[j - 1] in r;
      }
    }
  }

  /** Removing an element removes the entry with its key. */
  lemma {:induction false} RemoveIsWithout(order: seq<Element>, e: Element)
    requires DistinctKeys(ValuesOf(order)) && e in order
    ensures ValuesOf(Remove(order, e)) == Without(ValuesOf(order), e.value.key)
  {
    var vs := ValuesOf(order);
    var rest := order[1..];
    assert ValuesOf(rest) == vs[1..];
    assert DistinctKeys(vs[1..]);
    if order[0] == e {
      assert Find(vs[1..], e.value.key).None?;
      CacheRuns.WithoutAbsent(vs[1..], e.value.key);
    } else {
      RemoveIsWithout(rest, e);
      var k :| 0 <= k < |order| && order[k] == e;
      assert vs[0].key != vs[k].key;
      assert ValuesOf(Remove(order, e)) == [vs[0]] + ValuesOf(Remove(rest, e));
    }
  }

  // ----- the map and the list hold the same elements, each under its own key -----

  ghost predicate Mapped(items: map<Key, Element>, e: Element)
  {
    e.key in items && items[e.key] == e
  }

  ghost predicate Kept(items: map<Key, Element>, order: seq<Element>, k: Key)
  {
    k in items && items[k] in order && items[k].key == k
  }

  ghost predicate Linked(items: map<Key, Element>, order: seq<Element>)
  {
    && (forall i, j :: 0 <= i < j < |order| ==> order[i] != order[j])
    && (forall e {:trigger Mapped(items, e)} :: e in order ==> Mapped(items, e))
    && (forall k {:trigger Kept(items, order, k)} :: k in items ==> Kept(items, order, k))
  }

  /** Every listed element stores an entry with its own key. */
  ghost predicate Stored(order: seq<Element>)
    reads order
  {
    forall i :: 0 <= i < |order| ==> order[i].value.key == order[i].key
  }

  lemma RemoveLinked(items: map<Key, Element>, order: seq<Element>, e: Element)
    requires Linked(items, order) && e in order
    ensures Linked(items - {e.key}, Remove(order, e))
    ensures Linked(items, [e] + Remove(order, e))
    ensures forall x :: x in [e] + Remove(order, e) <==> x in order
    ensures |Remove(order, e)| == |order| - 1
  {
    RemoveFacts(order, e);
    assert Mapped(items, e);
    forall x | x in Remove(order, e)
      ensures Mapped(items - {e.key}, x) && Mapped(items, x)
    {
      assert Mapped(items, x);
    }
    forall k | k in items
      ensures k != e.key ==> Kept(items - {e.key}, Remove(order, e), k)
      ensures Kept(items, [e] + Remove(order, e), k)
    {
      assert Kept(items, order, k);
    }
  }

  lemma PushLinked(items: map<Key, Element>, order: seq<Element>, e: Element)
    requires Linked(items, order) && e.key !in items
    ensures Linked(items[e.key := e], [e] + order)
  {
    forall x | x in order
      ensures Mapped(items[e.key := e], x) && x != e
    {
      assert Mapped(items, x);
    }
    assert Mapped(items[e.key := e], e);
    var more := items[e.key := e];
    forall k | k in more
      ensures Kept(more, [e] + order, k)
    {
      assert k != e.key ==> Kept(items, order, k);
    }
    assert e !in order;
  }

  lemma LinkedKeys(items: map<Key, Element>, order: seq<Element>, i: nat)
    requires Linked(items, order) && i < |order|
    ensures order[i].key in items && items[order[i].key] == order[i]
  {
    assert order[i] in order && Mapped(items, order[i]);
  }

  lemma LinkedView(items: map<Key, Element>, order: seq<Element>)
    requires Linked(items, order) && Stored(order)
    ensures DistinctKeys(ValuesOf(order))
    ensures forall k :: k in items ==> items[k] in order && Find(ValuesOf(order), k) == Some(items[k].value)
    ensures forall k :: k !in items ==> Find(ValuesOf(order), k).None?
    ensures |items| == |order|
  {
    var vs := ValuesOf(order);
    forall i | 0 <= i < |vs|
      ensures vs[i].key in items && items[vs[i].key] == order[i]
    {
      LinkedKeys(items, order, i);
    }
    assert DistinctKeys(vs);
    forall k | k in items
      ensures items[k] in order && Find(vs, k) == Some(items[k].value) && k in KeysOf(vs)
    {
      assert Kept(items, order, k);
      var i :| 0 <= i < |order| && order[i] == items[k];
      assert vs[i] in vs && vs[i].key == k;
      FindUnique(vs, vs[i]);
    }
    assert KeysOf(vs) == items.Keys;
    DistinctKeyCount(vs);
  }

  class QueryCache {
    const capacity: int
    const ttl: int
    var items: map<Key, Element>
    var order: seq<Element>
    var generation: map<string, nat>

    ghost predicate Valid()
      reads this, order
    {
      Linked(items, order) && Stored(order) && |order| <= CacheRuns.Cap(capacity)
    }

    ghost function View(): State
      reads this, order
    {
      State(ValuesOf(order), generation)
    }

    constructor (capacity: int, ttl: int)
      ensures Valid() && View() == Run(capacity, ttl, []) && this.capacity == capacity && this.ttl == ttl
    {
      this.capacity, this.ttl := capacity, ttl;
      items, order, generation := map[], [], map[];
    }

    function KeyFor(text: string, kind: string): Key
      reads this
    {
      KeyText(text, kind, if kind in generation then generation[kind] else 0)
    }

    method Get(text: string, kind: string, now: int) returns (hit: Option<Vector>)
      requires Valid()
      modifies this
      ensures Valid() && (forall i :: 0 <= i < |order| ==> order[i] in old(order))
      ensures View() == GetState(old(View()), text, kind, now)
      ensures hit == GetResult(old(View()), text, kind, now)
    {
      hide Linked, Stored;
      ghost var before := View();
      var key := KeyFor(text, kind);
      assert key == CurrentKey(before, text, kind);
      LookUp(items, order, key);
      if key !in items {
        return None;
      }
      var elem := items[key];
      var item := elem.value;
      TakeOut(items, order, elem);
      if now > item.expiresAt {
        order := Remove(order, elem);
        items := items - {key};
        assert View() == before.(entries := Without(before.entries, key));
        return None;
      }
      order := [elem] + Remove(order, elem);
      assert View() == before.(entries := [item] + Without(before.entries, key));
      return Some(item.vector);
    }

    method Put(text: string, kind: string, vector: Vector, now: int)
      requires Valid()
      modifies this, order
      ensures Valid() && (forall e :: e in order ==> e in old(order) || fresh(e))
      ensures View() == PutState(old(View()), capacity, ttl, text, kind, vector, now)
    {
      hide Linked, Stored;
      ghost var before := View();
      var key := KeyFor(text, kind);
      assert key == CurrentKey(before, text, kind);
      LookUp(items, order, key);
      var entry := Entry(key, vector, now + ttl, kind);
      if key in items {
        Refresh(items[key], entry);
      } else {
        Insert(entry);
      }
    }

    /** Entries of the kind stay until they are evicted; their keys are no longer asked for. */
    method InvalidateKind(kind: string)
      requires Valid()
      modifies this`generation
      ensures Valid() && View() == InvalidateState(old(View()), kind)
    {
      var current := if kind in generation then generation[kind] else 0;
      generation := generation[kind := (current + 1) % GENERATIONS];
    }

    /** Store a new element as the newest, and drop the oldest beyond the capacity. */
    method Insert(entry: Entry)
      requires Valid() && entry.key !in items
      modifies this`order, this`items
      ensures Valid() && (forall e :: e in order ==> e in old(order) || fresh(e))
      ensures ValuesOf(order) == Truncate([entry] + Without(old(ValuesOf(order)), entry.key), capacity)
    {
      hide Linked, Without, Truncate, Find;
      ghost var before := ValuesOf(order);
      LookUp(items, order, entry.key);
      CacheRuns.WithoutAbsent(before, entry.key);
      var elem := new Element(entry);
      PushLinked(items, order, elem);
      order := [elem] + order;
      items := items[entry.key := elem];
      assert ValuesOf(order) == [entry] + before;
      Evict();
    }

    /** Replace the value of a stored element, and make it the newest. */
    method Refresh(elem: Element, entry: Entry)
      requires Valid() && elem in order && elem.value.key == entry.key
      modifies this`order, elem
      ensures Valid() && (forall e :: e in order <==> e in old(order))
      ensures ValuesOf(order) == Truncate([entry] + Without(old(ValuesOf(order)), entry.key), capacity)
    {
      hide Linked;
      ghost var before := ValuesOf(order);
      StoredKeys(items, order, elem);
      elem.value := entry;
      SameElsewhere(before, ValuesOf(order), entry.key);
      TakeOut(items, order, elem);
      order := [elem] + Remove(order, elem);
      assert ValuesOf(order) == [entry] + Without(before, entry.key);
    }

    /** Drop the oldest elements until the capacity holds. */
    method Evict()
      requires Linked(items, order) && Stored(order)
      modifies this`order, this`items
      ensures Valid() && (forall e :: e in order ==> e in old(order))
      ensures ValuesOf(order) == Truncate(old(ValuesOf(order)), capacity)
    {
      hide Linked;
      ghost var all := order;
      LinkedSize(items, order);
      while |items| > capacity
        invariant Linked(items, order) && |items| == |order| && order <= all && Stored(order)
        invariant |all| <= CacheRuns.Cap(capacity) ==> order == all
        invariant |all| > CacheRuns.Cap(capacity) ==> |order| >= CacheRuns.Cap(capacity)
        decreases |order|
      {
        if order == [] {
          break;
        }
        var last := order[|order| - 1];
        DropLast(items, order);
        order := order[..|order| - 1];
        items := items - {last.value.key};
        LinkedSize(items, order);
      }
      assert ValuesOf(order) == ValuesOf(all)[..|order|];
    }
  }

  lemma LinkedSize(items: map<Key, Element>, order: seq<Element>)
    requires Linked(items, order) && Stored(order)
    ensures |items| == |order|
  {
    LinkedView(items, order);
  }

  lemma LookUp(items: map<Key, Element>, order: seq<Element>, key: Key)
    requires Linked(items, order) && Stored(order)
    ensures key in items ==>
      items[key] in order && items[key].key == key && items[key].value.key == key
      && Find(ValuesOf(order), key) == Some(items[key].value)
    ensures key !in items ==> Find(ValuesOf(order), key).None?
  {
    LinkedView(items, order);
    assert key in items ==> Kept(items, order, key);
  }

  lemma StoredKeys(items: map<Key, Element>, order: seq<Element>, elem: Element)
    requires Linked(items, order) && elem in order
    ensures forall i :: 0 <= i < |order| && order[i] != elem ==> order[i].key != elem.key
  {
    assert Mapped(items, elem);
    forall i | 0 <= i < |order|
      ensures Mapped(items, order[i])
    {
      assert order[i] in order;
    }
  }

  /** Taking an element out of the list, for good or to put it in front. */
  lemma TakeOut(items: map<Key, Element>, order: seq<Element>, elem: Element)
    requires Linked(items, order) && Stored(order) && elem in order
    ensures elem.value.key == elem.key
    ensures
      var rest := Remove(order, elem);
      && Linked(items - {elem.key}, rest) && Stored(rest) && |rest| == |order| - 1
      && Linked(items, [elem] + rest) && Stored([elem] + rest)
      && (forall e :: e in [elem] + rest <==> e in order)
      && ValuesOf(rest) == Without(ValuesOf(order), elem.key)
      && ValuesOf([elem] + rest) == [elem.value] + Without(ValuesOf(order), elem.key)
  {
    hide *;
    LinkedDistinct(items, order);
    RemoveLinked(items, order, elem);
    RemoveIsWithout(order, elem);
    var rest := Remove(order, elem);
    RestWithin(order, elem, rest);
    StoredWithin(order, rest);
    StoredWithin(order, [elem] + rest);
    StoredMember(order, elem);
    ValuesPush(elem, rest);
  }

  lemma LinkedDistinct(items: map<Key, Element>, order: seq<Element>)
    requires Linked(items, order) && Stored(order)
    ensures DistinctKeys(ValuesOf(order))
  {
    LinkedView(items, order);
  }

  lemma RestWithin(order: seq<Element>, elem: Element, rest: seq<Element>)
    requires forall e :: e in [elem] + rest <==> e in order
    ensures forall e :: e in rest ==> e in order
  {
    assert forall e :: e in rest ==> e in [elem] + rest;
  }

  lemma ValuesPush(elem: Element, rest: seq<Element>)
    ensures ValuesOf([elem] + rest) == [elem.value] + ValuesOf(rest)
  {
  }

  lemma StoredWithin(order: seq<Element>, some: seq<Element>)
    requires Stored(order) && forall e :: e in some ==> e in order
    ensures Stored(some)
  {
    forall i | 0 <= i < |some|
      ensures some[i].value.key == some[i].key
    {
      assert some[i] in order;
    }
  }

  lemma StoredMember(order: seq<Element>, e: Element)
    requires Stored(order) && e in order
    ensures e.value.key == e.key
  {
  }

  /** Changing the value of one key changes nothing else. */
  lemma {:induction false} SameElsewhere(a: seq<Entry>, b: seq<Entry>, key: Key)
    requires |a| == |b| && forall i :: 0 <= i < |a| ==> a[i].key == b[i].key && (a[i].key != key ==> a[i] == b[i])
    ensures Without(a, key) == Without(b, key)
  {
    if a != [] {
      SameElsewhere(a[1..], b[1..], key);
    }
  }

  lemma {:induction false} RemoveLast(xs: seq<Element>)
    requires xs != [] && forall i, j :: 0 <= i < j < |xs| ==> xs[i] != xs[j]
    ensures Remove(xs, xs[|xs| - 1]) == xs[..|xs| - 1]
  {
    if |xs| > 1 {
      RemoveLast(xs[1..]);
      assert xs[0] != xs[|xs| - 1];
    }
  }

  lemma DropLast(items: map<Key, Element>, order: seq<Element>)
    requires Linked(items, order) && Stored(order) && order != []
    ensures Linked(items - {order[|order| - 1].value.key}, order[..|order| - 1])
  {
    RemoveLast(order);
    RemoveLinked(items, order, order[|order| - 1]);
  }

  // ----- the caching client -----

  datatype Result = Ok(vectors: seq<Vector>) | Failed(error: string)

  /** What the wrapped client may answer to texts of a kind; answers may differ from call to call. */
  type MayAnswer = (seq<string>, string, Result) -> bool

  function CacheText(namespace: string, text: string): string
  {
    namespace + "\0" + text
  }

  /** Namespaces without NUL keep their texts apart, and a namespace all of its own. */
  lemma CacheTextInjective(n: string, t: string, m: string, u: string)
    requires NoNul(n) && NoNul(m)
    ensures CacheText(n, t) == CacheText(m, u) <==> n == m && t == u
  {
    var a, b := CacheText(n, t), CacheText(m, u);
    assert a == n + "\0" + t && b == m + "\0" + u;
    if a == b {
      assert a[|n|] == '\0' && a[|m|] == '\0';
      assert forall i :: 0 <= i < |n| ==> a[i] == n[i];
      assert forall i :: 0 <= i < |m| ==> a[i] == m[i];
      assert |n| == |m|;
      assert n == a[..|n|] && m == a[..|m|] && t == a[|n| + 1..] && u == a[|m| + 1..];
    }
  }

  /** An entry for a text of the namespace, of any generation, is an answer that the wrapped client
      may give for the text. */
  ghost predicate CoherentEntry(e: Entry, namespace: string, may: MayAnswer)
  {
    forall text, kind, g: nat {:trigger KeyText(CacheText(namespace, text), kind, g)} ::
      NoNul(kind) && e.key == KeyText(CacheText(namespace, text), kind, g) ==> may([text], kind, Ok([e.vector]))
  }

  ghost predicate Coherent(s: State, namespace: string, may: MayAnswer)
  {
    forall e :: e in s.entries ==> CoherentEntry(e, namespace, may)
  }

  /** An operation that stores only answers in the namespace. */
  ghost predicate Honest(ev: Event, namespace: string, may: MayAnswer)
  {
    && NoNul(ev.op.kind)
    && (ev.op.Put? ==>
          forall text :: ev.op.text == CacheText(namespace, text) ==> may([text], ev.op.kind, Ok([ev.op.vector])))
  }

  lemma CoherentStep(s: State, capacity: int, ttl: int, namespace: string, may: MayAnswer, ev: Event)
    requires Coherent(s, namespace, may) && Honest(ev, namespace, may)
    ensures Coherent(Step(s, capacity, ttl, ev), namespace, may)
  {
    hide CoherentEntry;
    forall e | e in Step(s, capacity, ttl, ev).entries
      ensures CoherentEntry(e, namespace, may)
    {
      CacheRuns.StepEntries(s, capacity, ttl, ev, e);
      if e !in s.entries {
        PutCoherent(s, ttl, namespace, may, ev);
      }
    }
  }

  lemma PutCoherent(s: State, ttl: int, namespace: string, may: MayAnswer, ev: Event)
    requires Honest(ev, namespace, may) && ev.op.Put?
    ensures CoherentEntry(Entry(CurrentKey(s, ev.op.text, ev.op.kind), ev.op.vector, ev.at + ttl, ev.op.kind),
      namespace, may)
  {
    var g0 := Generation(s, ev.op.kind);
    forall text, kind, g: nat | NoNul(kind)
      && KeyText(ev.op.text, ev.op.kind, g0) == KeyText(CacheText(namespace, text), kind, g)
      ensures may([text], kind, Ok([ev.op.vector]))
    {
      KeyTextInjective(ev.op.text, ev.op.kind, g0, CacheText(namespace, text), kind, g);
    }
  }

  lemma HitCoherent(s: State, namespace: string, may: MayAnswer, text: string, kind: string, now: int)
    requires Coherent(s, namespace, may) && NoNul(kind)
    ensures var hit := GetResult(s, CacheText(namespace, text), kind, now);
      hit.Some? ==> may([text], kind, Ok([hit.value]))
  {
    var found := Find(s.entries, CurrentKey(s, CacheText(namespace, text), kind));
    assert found.Some? ==> CoherentEntry(found.value, namespace, may);
  }

  lemma OwnAnswer(namespace: string, may: MayAnswer, text: string, kind: string, vector: Vector, at: int)
    requires NoNul(kind) && may([text], kind, Ok([vector]))
    ensures Honest(Event(Put(CacheText(namespace, text), kind, vector), at), namespace, may)
  {
    forall t | CacheText(namespace, text) == CacheText(namespace, t)
      ensures t == text
    {
      assert text == CacheText(namespace, text)[|namespace| + 1..];
      assert t == CacheText(namespace, t)[|namespace| + 1..];
    }
  }

  // ----- other callers of the cache -----

  /** The state after operations of other callers. */
  function Replay(s: State, capacity: int, ttl: int, events: seq<Event>): State
  {
    if events == [] then s
    else Step(Replay(s, capacity, ttl, events[..|events| - 1]), capacity, ttl, events[|events| - 1])
  }

  ghost predicate AllHonest(events: seq<Event>, namespace: string, may: MayAnswer)
  {
    forall ev :: ev in events ==> Honest(ev, namespace, may)
  }

  /** One operation of another caller. */
  method Perform(cache: QueryCache, ev: Event)
    requires cache.Valid()
    modifies cache, cache.order
    ensures cache.Valid() && (forall e :: e in cache.order ==> e in old(cache.order) || fresh(e))
    ensures cache.View() == Step(old(cache.View()), cache.capacity, cache.ttl, ev)
  {
    match ev.op
    case Get(text, kind) => var _ := cache.Get(text, kind, ev.at);
    case Put(text, kind, vector) => cache.Put(text, kind, vector, ev.at);
    case InvalidateKind(kind) => cache.InvalidateKind(kind);
  }

  lemma {:induction false} ReplayCoherent(s: State, capacity: int, ttl: int, events: seq<Event>, namespace: string,
                                          may: MayAnswer)
    requires Coherent(s, namespace, may) && AllHonest(events, namespace, may)
    ensures Coherent(Replay(s, capacity, ttl, events), namespace, may)
  {
    hide Coherent, Honest, Step;
    if events != [] {
      var before, ev := events[..|events| - 1], events[|events| - 1];
      ReplayCoherent(s, capacity, ttl, before, namespace, may);
      CoherentStep(Replay(s, capacity, ttl, before), capacity, ttl, namespace, may, ev);
    }
  }

  /** What other callers do while this one waits for its answer. */
  method Interleave(cache: QueryCache, others: seq<Event>)
    requires cache.Valid()
    modifies cache, cache.order
    ensures cache.Valid() && (forall e :: e in cache.order ==> e in old(cache.order) || fresh(e))
    ensures cache.View() == Replay(old(cache.View()), cache.capacity, cache.ttl, others)
  {
    for i := 0 to |others|
      invariant cache.Valid() && (forall e :: e in cache.order ==> e in old(cache.order) || fresh(e))
      invariant cache.View() == Replay(old(cache.View()), cache.capacity, cache.ttl, others[..i])
    {
      hide Linked, Stored, Step, ValuesOf;
      assert others[..i + 1][..i] == others[..i];
      assert forall k :: 0 <= k < |cache.order| ==> cache.order[k] in old(cache.order) || fresh(cache.order[k]);
      Perform(cache, others[i]);
    }
    assert others[..|others|] == others;
  }

  // ----- one call -----

  /** A stored answer is there for the next look-up of the same text within its lifetime, and an
      answer that is not stored leaves no new entry. */
  lemma StoredForNext(s: State, capacity: int, ttl: int, namespace: string, text: string, kind: string, reply: Result,
                      others: seq<Event>, now: int, done: int, later: int)
    requires capacity > 0 && GetResult(s, CacheText(namespace, text), kind, now).None?
    ensures
      var after := AfterCall(s, capacity, ttl, namespace, text, kind, reply, others, now, done);
      && (reply.Ok? && |reply.vectors| == 1 ==>
            GetResult(after, CacheText(namespace, text), kind, later) ==
              if later <= done + ttl then Some(reply.vectors[0]) else None)
      && (!(reply.Ok? && |reply.vectors| == 1) ==>
            after == Replay(GetState(s, CacheText(namespace, text), kind, now), capacity, ttl, others))
  {
    hide Replay, GetState, CacheText;
    var before := Replay(GetState(s, CacheText(namespace, text), kind, now), capacity, ttl, others);
    if reply.Ok? && |reply.vectors| == 1 {
      PutThenGet(before, capacity, ttl, CacheText(namespace, text), kind, reply.vectors[0], done, later);
    }
  }

  lemma PutThenGet(s: State, capacity: int, ttl: int, text: string, kind: string, v: Vector, at: int, later: int)
    requires capacity > 0
    ensures GetResult(PutState(s, capacity, ttl, text, kind, v, at), text, kind, later) ==
      if later <= at + ttl then Some(v) else None
  {
    var key := CurrentKey(s, text, kind);
    var all := [Entry(key, v, at + ttl, kind)] + Without(s.entries, key);
    assert Truncate(all, capacity)[0] == all[0];
  }

  /** The cached vector of a single interactive text. */
  function CacheHit(s: State, namespace: string, texts: seq<string>, kind: string, worker: bool,
                    now: int): Option<Vector>
  {
    if |texts| != 1 || worker then None else GetResult(s, CacheText(namespace, texts[0]), kind, now)
  }

  /** The cache after a call that looked a text up, waited while others acted, and got its reply. */
  ghost function AfterCall(s: State, capacity: int, ttl: int, namespace: string, text: string, kind: string,
                           reply: Result, others: seq<Event>, now: int, done: int): State
  {
    var looked := GetState(s, CacheText(namespace, text), kind, now);
    if GetResult(s, CacheText(namespace, text), kind, now).Some? then looked
    else
      var later := Replay(looked, capacity, ttl, others);
      if reply.Ok? && |reply.vectors| == 1
      then PutState(later, capacity, ttl, CacheText(namespace, text), kind, reply.vectors[0], done)
      else later
  }

  /** Only a single interactive text is cached, and only a successful answer of one vector is
      stored.  Whatever others do to the cache between the look-up and the store, a hit is an answer
      that the wrapped client may give. */
  method CachedEmbed(cache: QueryCache, namespace: string, texts: seq<string>, kind: string, worker: bool,
                     reply: Result, others: seq<Event>, ghost may: MayAnswer, now: int, done: int) returns (r: Result)
    requires cache.Valid() && NoNul(kind) && Coherent(cache.View(), namespace, may)
    requires may(texts, kind, reply) && AllHonest(others, namespace, may)
    modifies cache, cache.order
    ensures cache.Valid() && Coherent(cache.View(), namespace, may)
    ensures may(texts, kind, r)
    ensures r == match CacheHit(old(cache.View()), namespace, texts, kind, worker, now)
                 case Some(vector) => Ok([vector])
                 case None => reply
    ensures cache.View() ==
      if |texts| != 1 || worker then old(cache.View())
      else AfterCall(old(cache.View()), cache.capacity, cache.ttl, namespace, texts[0], kind, reply, others, now, done)
  {
    if |texts| != 1 || worker {
      return reply;
    }
    hide *;
    var text := texts[0];
    OneText(texts);
    var cacheText := CacheText(namespace, text);
    ghost var before, capacity, ttl := cache.View(), cache.capacity, cache.ttl;
    HitCoherent(before, namespace, may, text, kind, now);
    var hit := cache.Get(cacheText, kind, now);
    CallCoherent(before, capacity, ttl, namespace, may, text, kind, reply, others, now, done);
    CallCases(before, capacity, ttl, namespace, texts, kind, worker, reply, others, now, done);
    if hit.Some? {
      return Ok([hit.value]);
    }
    ghost var looked := cache.order;
    assert forall e :: e in looked ==> e in old(cache.order);
    Interleave(cache, others);
    forall k | 0 <= k < |cache.order|
      ensures cache.order[k] in old(cache.order) || fresh(cache.order[k])
    {
      assert cache.order[k] in cache.order;
    }
    if reply.Ok? && |reply.vectors| == 1 {
      cache.Put(cacheText, kind, reply.vectors[0], done);
    }
    return reply;
  }

  lemma OneText(texts: seq<string>)
    requires |texts| == 1
    ensures texts == [texts[0]]
  {
  }

  /** The state after a call, case by case. */
  lemma CallCases(s: State, capacity: int, ttl: int, namespace: string, texts: seq<string>, kind: string, worker: bool,
                  reply: Result, others: seq<Event>, now: int, done: int)
    requires |texts| == 1 && !worker
    ensures CacheHit(s, namespace, texts, kind, worker, now) == GetResult(s, CacheText(namespace, texts[0]), kind, now)
    ensures
      var text := CacheText(namespace, texts[0]);
      var after := AfterCall(s, capacity, ttl, namespace, texts[0], kind, reply, others, now, done);
      var looked := GetState(s, text, kind, now);
      var later := Replay(looked, capacity, ttl, others);
      && (GetResult(s, text, kind, now).Some? ==> after == looked)
      && (GetResult(s, text, kind, now).None? && !(reply.Ok? && |reply.vectors| == 1) ==> after == later)
      && (GetResult(s, text, kind, now).None? && reply.Ok? && |reply.vectors| == 1 ==>
            after == PutState(later, capacity, ttl, text, kind, reply.vectors[0], done))
  {
    hide GetState, GetResult, PutState, Replay;
  }

  lemma CallCoherent(s: State, capacity: int, ttl: int, namespace: string, may: MayAnswer, text: string, kind: string,
                     reply: Result, others: seq<Event>, now: int, done: int)
    requires Coherent(s, namespace, may) && NoNul(kind) && may([text], kind, reply) && AllHonest(others, namespace, may)
    ensures Coherent(AfterCall(s, capacity, ttl, namespace, text, kind, reply, others, now, done), namespace, may)
  {
    hide Coherent, Honest, AllHonest, Replay, GetState, PutState, GetResult, CacheText;
    var cacheText := CacheText(namespace, text);
    GetHonest(namespace, may, cacheText, kind, now);
    CoherentStep(s, capacity, ttl, namespace, may, Event(Get(cacheText, kind), now));
    var looked := GetState(s, cacheText, kind, now);
    ReplayCoherent(looked, capacity, ttl, others, namespace, may);
    if reply.Ok? && |reply.vectors| == 1 {
      var v := reply.vectors[0];
      assert reply.vectors == [v];
      OwnAnswer(namespace, may, text, kind, v, done);
      CoherentStep(Replay(looked, capacity, ttl, others), capacity, ttl, namespace, may,
        Event(Put(cacheText, kind, v), done));
    }
  }

  lemma GetHonest(namespace: string, may: MayAnswer, text: string, kind: string, at: int)
    requires NoNul(kind)
    ensures Honest(Event(Get(text, kind), at), namespace, may)
  {
  }
}
