/** The query cache as a recency list of entries, and what a run of operations stores. */
module CacheSpec {

  import opened Ids

  type Key = string
  type Vector = seq<real>

  datatype Entry = Entry(key: Key, vector: Vector, expiresAt: int, kind: string)

  /** Entries in recency order, newest first, and the generation of each kind. */
  datatype State = State(entries: seq<Entry>, generation: map<string, nat>)

  // ----- keys -----

  const GENERATIONS := 0x1_0000_0000_0000_0000

  function Decimal(n: nat): (r: string)
    ensures r != [] && forall i :: 0 <= i < |r| ==> '0' <= r[i] <= '9'
  {
    if n < 10 then [('0' as int + n) as char] else Decimal(n / 10) + [('0' as int + n % 10) as char]
  }

  /** The text that is hashed into the cache key; equal hashes are taken to mean equal texts. */
  function KeyText(text: string, kind: string, generation: nat): Key
  {
    text + "\0" + kind + "\0" + Decimal(generation)
  }

  predicate NoNul(s: string)
  {
    forall i :: 0 <= i < |s| ==> s[i] != '\0'
  }

  lemma {:induction false} DecimalInjective(m: nat, n: nat)
    requires Decimal(m) == Decimal(n)
    ensures m == n
  {
    var dm, dn := Decimal(m), Decimal(n);
    assert dm[|dm| - 1] == ('0' as int + m % 10) as char;
    assert dn[|dn| - 1] == ('0' as int + n % 10) as char;
    assert |dm| >= 2 <==> m >= 10;
    assert |dn| >= 2 <==> n >= 10;
    if m >= 10 {
      assert Decimal(m / 10) == dm[..|dm| - 1] == dn[..|dn| - 1] == Decimal(n / 10);
      DecimalInjective(m / 10, n / 10);
    }
  }

  /** The last NUL of a text splits it in one way only. */
  lemma LastNulSplit(a: string, b: string, c: string, d: string)
    requires a + "\0" + b == c + "\0" + d && NoNul(b) && NoNul(d)
    ensures a == c && b == d
  {
    var s := a + "\0" + b;
    assert s[|a|] == '\0' && s[|c|] == '\0';
    assert forall i :: |a| < i < |s| ==> s[i] == b[i - |a| - 1];
    assert forall i :: |c| < i < |s| ==> s[i] == d[i - |c| - 1];
    assert a == s[..|a|] && b == s[|a| + 1..];
  }

  /** Kinds without NUL keep the NUL-separated key text injective, whatever the text holds. */
  lemma KeyTextInjective(t1: string, k1: string, g1: nat, t2: string, k2: string, g2: nat)
    requires NoNul(k1) && NoNul(k2)
    requires KeyText(t1, k1, g1) == KeyText(t2, k2, g2)
    ensures t1 == t2 && k1 == k2 && g1 == g2
  {
    assert KeyText(t1, k1, g1) == (t1 + "\0" + k1) + "\0" + Decimal(g1);
    assert KeyText(t2, k2, g2) == (t2 + "\0" + k2) + "\0" + Decimal(g2);
    LastNulSplit(t1 + "\0" + k1, Decimal(g1), t2 + "\0" + k2, Decimal(g2));
    DecimalInjective(g1, g2);
    LastNulSplit(t1, k1, t2, k2);
  }

  /** `k` ends with a NUL and then `l`. */
  ghost predicate EndsWithNul(k: string, l: string)
  {
    exists x: string :: k == x + "\0" + l
  }

  /** Some requests of the two kinds share a key. */
  ghost predicate KindsCollide(k: string, l: string)
  {
    exists t: string, g: nat, u: string, h: nat :: KeyText(t, k, g) == KeyText(u, l, h)
  }

  /** Requests of two kinds share a key exactly when one kind ends with a NUL and then the other. */
  lemma CollisionExactly(k: string, l: string)
    requires k != l
    ensures KindsCollide(k, l) <==> EndsWithNul(k, l) || EndsWithNul(l, k)
  {
    hide KeyText;
    if KindsCollide(k, l) {
      var t: string, g: nat, u: string, h: nat :| KeyText(t, k, g) == KeyText(u, l, h);
      SharedKey(t, k, g, u, l, h);
    }
    if EndsWithNul(k, l) {
      var x: string :| k == x + "\0" + l;
      SameText(x, l);
    }
    if EndsWithNul(l, k) {
      var x: string :| l == x + "\0" + k;
      SameText(x, k);
    }
  }

  lemma SameText(x: string, l: string)
    ensures KeyText([], x + "\0" + l, 0) == KeyText("\0" + x, l, 0)
  {
  }

  lemma SharedKey(t: string, k: string, g: nat, u: string, l: string, h: nat)
    requires KeyText(t, k, g) == KeyText(u, l, h) && k != l
    ensures EndsWithNul(k, l) || EndsWithNul(l, k)
  {
    var a, b := t + "\0" + k, u + "\0" + l;
    assert KeyText(t, k, g) == a + "\0" + Decimal(g);
    assert KeyText(u, l, h) == b + "\0" + Decimal(h);
    LastNulSplit(a, Decimal(g), b, Decimal(h));
    assert k == a[|t| + 1..] && l == b[|u| + 1..];
    if |t| < |u| {
      LongerKind(t, k, u, l);
    } else if |u| < |t| {
      LongerKind(u, l, t, k);
    }
  }

  lemma LongerKind(t: string, k: string, u: string, l: string)
    requires t + "\0" + k == u + "\0" + l && |t| < |u|
    ensures EndsWithNul(k, l)
  {
    var all := t + "\0" + k;
    var x := u[|t| + 1..];
    assert k == all[|t| + 1..];
    assert all == u + "\0" + l;
    assert (u + "\0" + l)[|t| + 1..] == x + "\0" + l;
  }

  // ----- recency lists -----

  function Find(entries: seq<Entry>, key: Key): (r: Option<Entry>)
    ensures r.Some? ==> r.value in entries && r.value.key == key
    ensures r.None? ==> forall e :: e in entries ==> e.key != key
  {
    if entries == [] then None
    else if entries[0].key == key then Some(entries[0])
    else Find(entries[1..], key)
  }

  function Without(entries: seq<Entry>, key: Key): seq<Entry>
  {
    if entries == [] then []
    else if entries[0].key == key then Without(entries[1..], key)
    else [entries[0]] + Without(entries[1..], key)
  }

  function Truncate(entries: seq<Entry>, capacity: int): seq<Entry>
  {
    if capacity < 0 then [] else if |entries| <= capacity then entries else entries[..capacity]
  }

  function Generation(s: State, kind: string): nat
  {
    if kind in s.generation then s.generation[kind] else 0
  }

  function CurrentKey(s: State, text: string, kind: string): Key
  {
    KeyText(text, kind, Generation(s, kind))
  }

  // ----- operations -----

  /** A hit becomes the newest entry; an expired entry is dropped. */
  function GetState(s: State, text: string, kind: string, now: int): State
  {
    var key := CurrentKey(s, text, kind);
    match Find(s.entries, key)
    case None => s
    case Some(e) =>
      if now > e.expiresAt then s.(entries := Without(s.entries, key))
      else s.(entries := [e] + Without(s.entries, key))
  }

  function GetResult(s: State, text: string, kind: string, now: int): Option<Vector>
  {
    match Find(s.entries, CurrentKey(s, text, kind))
    case None => None
    case Some(e) => if now > e.expiresAt then None else Some(e.vector)
  }

  function PutState(s: State, capacity: int, ttl: int, text: string, kind: string, vector: Vector, now: int): State
  {
    var key := CurrentKey(s, text, kind);
    s.(entries := Truncate([Entry(key, vector, now + ttl, kind)] + Without(s.entries, key), capacity))
  }

  function InvalidateState(s: State, kind: string): State
  {
    s.(generation := s.generation[kind := (Generation(s, kind) + 1) % GENERATIONS])
  }

  // ----- runs -----

  datatype Op =
    | Get(text: string, kind: string)
    | Put(text: string, kind: string, vector: Vector)
    | InvalidateKind(kind: string)

  datatype Event = Event(op: Op, at: int)

  function Step(s: State, capacity: int, ttl: int, e: Event): State
  {
    match e.op
    case Get(text, kind) => GetState(s, text, kind, e.at)
    case Put(text, kind, vector) => PutState(s, capacity, ttl, text, kind, vector, e.at)
    case InvalidateKind(kind) => InvalidateState(s, kind)
  }

  function Run(capacity: int, ttl: int, events: seq<Event>): State
  {
    if events == [] then State([], map[])
    else Step(Run(capacity, ttl, events[..|events| - 1]), capacity, ttl, events[|events| - 1])
  }

  // ----- keys stay distinct, size stays bounded -----

  ghost predicate DistinctKeys(entries: seq<Entry>)
  {
    forall i, j :: 0 <= i < j < |entries| ==> entries[i].key != entries[j].key
  }

  ghost function KeysOf(entries: seq<Entry>): set<Key>
  {
    set e | e in entries :: e.key
  }

  lemma {:induction false} DistinctKeyCount(entries: seq<Entry>)
    requires DistinctKeys(entries)
    ensures |KeysOf(entries)| == |entries|
  {
    if entries != [] {
      DistinctKeyCount(entries[1..]);
      assert entries == [entries[0]] + entries[1..];
      assert KeysOf(entries) == {entries[0].key} + KeysOf(entries[1..]);
    }
  }

  lemma {:induction false} WithoutFacts(entries: seq<Entry>, key: Key)
    requires DistinctKeys(entries)
    ensures DistinctKeys(Without(entries, key))
    ensures forall e :: e in Without(entries, key) <==> e in entries && e.key != key
    ensures |Without(entries, key)| == if Find(entries, key).Some? then |entries| - 1 else |entries|
  {
    if entries != [] {
      var rest := entries[1..];
      assert DistinctKeys(rest);
      WithoutFacts(rest, key);
      assert entries == [entries[0]] + rest;
      forall e | e in rest
        ensures e.key != entries[0].key
      {
      }
      if entries[0].key == key {
        assert Find(rest, key).None?;
      }
    }
  }

  lemma {:induction false} FindUnique(entries: seq<Entry>, e: Entry)
    requires DistinctKeys(entries) && e in entries
    ensures Find(entries, e.key) == Some(e)
  {
    var r := Find(entries, e.key).value;
    var i :| 0 <= i < |entries| && entries[i] == e;
    var j :| 0 <= j < |entries| && entries[j] == r;
  }

  /** The map of keys and the recency list stay in bijection, within the capacity. */
  ghost predicate Bounded(s: State, capacity: int)
  {
    DistinctKeys(s.entries) && |s.entries| <= if capacity < 0 then 0 else capacity
  }

  lemma {:induction false} StepBounded(s: State, capacity: int, ttl: int, e: Event)
    requires Bounded(s, capacity)
    ensures Bounded(Step(s, capacity, ttl, e), capacity)
  {
    if !e.op.InvalidateKind? {
      WithoutFacts(s.entries, CurrentKey(s, e.op.text, e.op.kind));
    }
  }

  lemma {:induction false} RunBounded(capacity: int, ttl: int, events: seq<Event>)
    ensures Bounded(Run(capacity, ttl, events), capacity)
  {
    if events != [] {
      RunBounded(capacity, ttl, events[..|events| - 1]);
      StepBounded(Run(capacity, ttl, events[..|events| - 1]), capacity, ttl, events[|events| - 1]);
    }
  }
}
