/** Undirected reachability over a finite set of links. */
module Walks {
  import opened Ids

  type Links = set<(Id, Id)>

  ghost predicate Adjacent(links: Links, x: Id, y: Id)
  {
    (x, y) in links || (y, x) in links
  }

  ghost predicate IsWalk(links: Links, p: seq<Id>)
  {
    && p != []
    && forall i :: 0 <= i < |p| - 1 ==> Adjacent(links, p[i], p[i + 1])
  }

  /** `p` is a walk from `x` to `y`; its length is `|p| - 1`. */
  ghost predicate WalkFrom(links: Links, p: seq<Id>, x: Id, y: Id)
  {
    IsWalk(links, p) && p[0] == x && p[|p| - 1] == y
  }

  ghost predicate Connected(links: Links, x: Id, y: Id)
  {
    exists p :: WalkFrom(links, p, x, y)
  }

  /** `S` has no link that leaves it. */
  ghost predicate ClosedSet(links: Links, S: set<Id>)
  {
    forall x, y :: x in S && Adjacent(links, x, y) ==> y in S
  }

  lemma ConnectedReflexive(links: Links, x: Id)
    ensures Connected(links, x, x)
  {
    assert WalkFrom(links, [x], x, x);
  }

  lemma {:induction false} WalkReversed(links: Links, p: seq<Id>)
    requires IsWalk(links, p)
    ensures Connected(links, p[|p| - 1], p[0])
  {
    if |p| == 1 {
      ConnectedReflexive(links, p[0]);
    } else {
      assert Adjacent(links, p[0], p[1]);
      WalkReversed(links, p[1..]);
      ConnectedStep(links, p[1], p[0]);
      ConnectedTransitive(links, p[|p| - 1], p[1], p[0]);
    }
  }

  lemma ConnectedSymmetric(links: Links, x: Id, y: Id)
    requires Connected(links, x, y)
    ensures Connected(links, y, x)
  {
    var p :| WalkFrom(links, p, x, y);
    WalkReversed(links, p);
  }

  lemma ConnectedTransitive(links: Links, x: Id, y: Id, z: Id)
    requires Connected(links, x, y) && Connected(links, y, z)
    ensures Connected(links, x, z)
  {
    var p :| WalkFrom(links, p, x, y);
    var q :| WalkFrom(links, q, y, z);
    assert WalkFrom(links, p + q[1..], x, z);
  }

  lemma ConnectedStep(links: Links, x: Id, y: Id)
    requires Adjacent(links, x, y)
    ensures Connected(links, x, y)
  {
    assert WalkFrom(links, [x, y], x, y);
  }

  lemma ConnectedMonotone(links: Links, more: Links, x: Id, y: Id)
    requires links <= more && Connected(links, x, y)
    ensures Connected(more, x, y)
  {
    var p :| WalkFrom(links, p, x, y);
    assert WalkFrom(more, p, x, y);
  }

  /** A walk cannot leave a closed set. */
  lemma {:induction false} WalkConfined(links: Links, S: set<Id>, p: seq<Id>)
    requires IsWalk(links, p) && ClosedSet(links, S) && p[0] in S
    ensures p[|p| - 1] in S
  {
    if |p| > 1 {
      assert Adjacent(links, p[0], p[1]);
      WalkConfined(links, S, p[1..]);
    }
  }

  lemma ConnectedConfined(links: Links, S: set<Id>, x: Id, y: Id)
    requires ClosedSet(links, S) && Connected(links, x, y)
    ensures x in S <==> y in S
  {
    if x in S {
      var p :| WalkFrom(links, p, x, y);
      WalkConfined(links, S, p);
    }
    if y in S {
      ConnectedSymmetric(links, x, y);
      var p :| WalkFrom(links, p, y, x);
      WalkConfined(links, S, p);
    }
  }
}
