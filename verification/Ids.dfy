/** Identifiers, their order, and sorting by identifier.

Both sides of the API compare identifiers as strings.  `Before` is the strict
lexicographic order; the proofs elsewhere use only that it is a strict total
order.
*/
module Ids {

  type Id = string

  datatype Option<+T> = None | Some(value: T)

  /** Strict lexicographic order. */
  predicate Before(a: Id, b: Id)
  {
    b != [] && (a == [] || a[0] < b[0] || (a[0] == b[0] && Before(a[1..], b[1..])))
  }

  predicate AtMost(a: Id, b: Id)
  {
    a == b || Before(a, b)
  }

  /** `a` and `b` agree before position `i`, and there `a` ends or has the smaller character. */
  ghost predicate DiffersAt(a: Id, b: Id, i: nat)
  {
    i <= |a| && i < |b| && a[..i] == b[..i] && (i == |a| || a[i] < b[i])
  }

  /** The order is decided where two identifiers first differ; a prefix comes first. */
  lemma {:induction false} BeforeByFirstDifference(a: Id, b: Id)
    ensures Before(a, b) <==> exists i: nat :: DiffersAt(a, b, i)
  {
    if b != [] && a != [] && a[0] == b[0] {
      BeforeByFirstDifference(a[1..], b[1..]);
      assert a == [a[0]] + a[1..] && b == [b[0]] + b[1..];
      if Before(a, b) {
        var i: nat :| DiffersAt(a[1..], b[1..], i);
        assert a[..i + 1] == [a[0]] + a[1..][..i] && b[..i + 1] == [b[0]] + b[1..][..i];
        assert DiffersAt(a, b, i + 1);
      }
      if i: nat :| DiffersAt(a, b, i) {
        assert i > 0;
        assert a[1..][..i - 1] == a[..i][1..] && b[1..][..i - 1] == b[..i][1..];
        assert DiffersAt(a[1..], b[1..], i - 1);
      }
    } else {
      assert Before(a, b) ==> DiffersAt(a, b, 0);
      forall i: nat | 0 < i <= |a| && i < |b|
        ensures a[..i] == b[..i] ==> a[0] == b[0]
      {
        assert a[..i][0] == a[0] && b[..i][0] == b[0];
      }
    }
  }

  lemma {:induction false} BeforeIrreflexive(a: Id)
    ensures !Before(a, a)
  {
    if a != [] {
      BeforeIrreflexive(a[1..]);
    }
  }

  lemma {:induction false} BeforeTransitive(a: Id, b: Id, c: Id)
    requires Before(a, b) && Before(b, c)
    ensures Before(a, c)
  {
    if a != [] && a[0] == b[0] && b[0] == c[0] {
      BeforeTransitive(a[1..], b[1..], c[1..]);
    }
  }

  lemma {:induction false} BeforeTotal(a: Id, b: Id)
    ensures Before(a, b) || a == b || Before(b, a)
  {
    if a != [] && b != [] && a[0] == b[0] {
      BeforeTotal(a[1..], b[1..]);
      assert a == [a[0]] + a[1..] && b == [b[0]] + b[1..];
    }
  }

  lemma BeforeAsymmetric(a: Id, b: Id)
    requires Before(a, b)
    ensures !Before(b, a) && a != b
  {
    BeforeIrreflexive(a);
    if Before(b, a) {
      BeforeTransitive(a, b, a);
    }
  }

  /** `xs` is in non-decreasing key order. */
  ghost predicate SortedBy<T>(key: T -> Id, xs: seq<T>)
  {
    forall i, j :: 0 <= i < j < |xs| ==> AtMost(key(xs[i]), key(xs[j]))
  }

  /** `xs` is in strictly increasing key order, so its keys are distinct. */
  ghost predicate StrictlySortedBy<T>(key: T -> Id, xs: seq<T>)
  {
    forall i, j :: 0 <= i < j < |xs| ==> Before(key(xs[i]), key(xs[j]))
  }

  ghost predicate DistinctBy<T>(key: T -> Id, xs: seq<T>)
  {
    forall i, j :: 0 <= i < j < |xs| ==> key(xs[i]) != key(xs[j])
  }

  function Insert<T>(key: T -> Id, x: T, xs: seq<T>): (r: seq<T>)
    ensures multiset(r) == multiset{x} + multiset(xs)
  {
    if xs == [] then [x]
    else if Before(key(xs[0]), key(x)) then
      assert xs == [xs[0]] + xs[1..];
      [xs[0]] + Insert(key, x, xs[1..])
    else [x] + xs
  }

  /** A stable sort by key. */
  function SortBy<T>(key: T -> Id, xs: seq<T>): (r: seq<T>)
    ensures multiset(r) == multiset(xs)
  {
    if xs == [] then []
    else
      assert xs == [xs[0]] + xs[1..];
      Insert(key, xs[0], SortBy(key, xs[1..]))
  }

  lemma {:induction false} InsertSorted<T>(key: T -> Id, x: T, xs: seq<T>)
    requires SortedBy(key, xs)
    ensures SortedBy(key, Insert(key, x, xs))
  {
    if xs != [] {
      if Before(key(xs[0]), key(x)) {
        InsertSorted(key, x, xs[1..]);
        var rest := Insert(key, x, xs[1..]);
        forall y | y in rest
          ensures AtMost(key(xs[0]), key(y))
        {
          assert y in multiset(rest);
          assert y == x || y in xs[1..];
        }
      } else {
        BeforeTotal(key(xs[0]), key(x));
        forall y | y in xs
          ensures AtMost(key(x), key(y))
        {
          if key(x) != key(xs[0]) && key(y) != key(xs[0]) {
            BeforeTransitive(key(x), key(xs[0]), key(y));
          }
        }
      }
    }
  }

  lemma {:induction false} SortBySorted<T>(key: T -> Id, xs: seq<T>)
    ensures SortedBy(key, SortBy(key, xs))
    ensures forall x :: x in SortBy(key, xs) <==> x in xs
    ensures |SortBy(key, xs)| == |xs|
  {
    if xs != [] {
      SortBySorted(key, xs[1..]);
      InsertSorted(key, xs[0], SortBy(key, xs[1..]));
    }
    SameMembers(SortBy(key, xs), xs);
  }

  /** The records with a given key, in order. */
  function WithKey<T>(key: T -> Id, xs: seq<T>, k: Id): seq<T>
  {
    if xs == [] then [] else (if key(xs[0]) == k then [xs[0]] else []) + WithKey(key, xs[1..], k)
  }

  lemma {:induction false} InsertStable<T>(key: T -> Id, x: T, xs: seq<T>, k: Id)
    ensures WithKey(key, Insert(key, x, xs), k) == (if key(x) == k then [x] else []) + WithKey(key, xs, k)
  {
    if xs != [] && Before(key(xs[0]), key(x)) {
      var r := Insert(key, x, xs[1..]);
      InsertStable(key, x, xs[1..], k);
      assert ([xs[0]] + r)[1..] == r;
      BeforeAsymmetric(key(xs[0]), key(x));
    } else {
      assert ([x] + xs)[1..] == xs;
    }
  }

  /** Records with equal keys keep their order. */
  lemma {:induction false} SortByStable<T>(key: T -> Id, xs: seq<T>, k: Id)
    ensures WithKey(key, SortBy(key, xs), k) == WithKey(key, xs, k)
  {
    if xs != [] {
      SortByStable(key, xs[1..], k);
      InsertStable(key, xs[0], SortBy(key, xs[1..]), k);
    }
  }

  lemma SameMembers<T>(a: seq<T>, b: seq<T>)
    requires multiset(a) == multiset(b)
    ensures |a| == |b| && forall x :: x in a <==> x in b
  {
    assert |multiset(a)| == |a| && |multiset(b)| == |b|;
    forall x
      ensures x in a <==> x in b
    {
      assert x in a <==> x in multiset(a);
      assert x in b <==> x in multiset(b);
    }
  }

  /** Reordering records does not repeat a key. */
  lemma DistinctReordered<T>(key: T -> Id, xs: seq<T>, s: seq<T>)
    requires DistinctBy(key, xs) && multiset(s) == multiset(xs)
    ensures DistinctBy(key, s)
  {
    forall i, j | 0 <= i < j < |s|
      ensures key(s[i]) != key(s[j])
    {
      if key(s[i]) == key(s[j]) {
        var x, y := s[i], s[j];
        assert x in multiset(xs) && y in multiset(xs);
        assert x in xs && y in xs;
        assert x == y;
        Twice(s, i, j);
        Once(key, xs, x);
      }
    }
  }

  /** Distinct keys make the sorted order strict. */
  lemma SortByStrict<T>(key: T -> Id, xs: seq<T>)
    requires DistinctBy(key, xs)
    ensures StrictlySortedBy(key, SortBy(key, xs))
  {
    SortBySorted(key, xs);
    DistinctReordered(key, xs, SortBy(key, xs));
  }

  lemma Twice<T>(s: seq<T>, i: nat, j: nat)
    requires i < j < |s| && s[i] == s[j]
    ensures multiset(s)[s[i]] >= 2
  {
    assert s == s[..j] + [s[j]] + s[j + 1..];
    assert s[i] in s[..j];
    assert multiset(s) == multiset(s[..j]) + multiset{s[j]} + multiset(s[j + 1..]);
  }

  lemma Once<T>(key: T -> Id, s: seq<T>, x: T)
    requires DistinctBy(key, s)
    ensures multiset(s)[x] <= 1
  {
    if s != [] {
      assert s == [s[0]] + s[1..];
      Once(key, s[1..], x);
      if s[0] == x {
        assert forall k :: 0 <= k < |s[1..]| ==> s[1..][k] == s[k + 1];
        assert x !in s[1..];
      }
    }
  }

  /** The identifiers of a list of keyed records. */
  ghost function KeySet<T>(key: T -> Id, xs: seq<T>): set<Id>
  {
    set x | x in xs :: key(x)
  }

  /** Distinct keys: as many identifiers as records. */
  lemma {:induction false} DistinctKeysCount<T>(key: T -> Id, xs: seq<T>)
    requires DistinctBy(key, xs)
    ensures |KeySet(key, xs)| == |xs|
  {
    if xs != [] {
      var rest := xs[1..];
      assert xs == [xs[0]] + rest;
      DistinctKeysCount(key, rest);
      assert KeySet(key, xs) == {key(xs[0])} + KeySet(key, rest);
      assert key(xs[0]) !in KeySet(key, rest);
    }
  }

  // ----- small helpers on collections -----

  function Self(x: Id): Id { x }

  function Lookup<T>(m: map<Id, T>, x: Id): Option<T>
  {
    if x in m then Some(m[x]) else None
  }

  function Limit<T>(rows: seq<T>, n: nat): seq<T>
  {
    if |rows| > n then rows[..n] else rows
  }

  predicate NoColon(s: string)
  {
    forall i :: 0 <= i < |s| ==> s[i] != ':'
  }

  lemma SubsetSize<T>(a: set<T>, b: set<T>)
    requires a <= b
    ensures |a| <= |b|
  {
    assert b == a + (b - a);
  }
}
