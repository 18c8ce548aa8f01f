/** Parent pointers and the pass that cuts their cycles. */
module ParentCycles {
  import opened Ids

  type Pointers = map<Id, Id>

  ghost predicate Points(P: Pointers, x: Id, y: Id)
  {
    x in P && P[x] == y
  }

  ghost predicate Chain(P: Pointers, w: seq<Id>)
  {
    w != [] && forall i :: 0 <= i < |w| - 1 ==> Points(P, w[i], w[i + 1])
  }

  /** `w` follows one or more pointers from `x` to `y`. */
  ghost predicate ChainFrom(P: Pointers, w: seq<Id>, x: Id, y: Id)
  {
    |w| >= 2 && Chain(P, w) && w[0] == x && w[|w| - 1] == y
  }

  /** Following one or more pointers from `x` reaches `y`; `x` is on a cycle when it reaches itself. */
  ghost predicate Reaches(P: Pointers, x: Id, y: Id)
  {
    exists w :: ChainFrom(P, w, x, y)
  }

  ghost predicate StaysIn(P: Pointers, S: set<Id>, x: Id)
  {
    x in P ==> P[x] in S
  }

  ghost predicate ClosedUnder(P: Pointers, S: set<Id>)
  {
    forall x {:trigger StaysIn(P, S, x)} :: x in S ==> StaysIn(P, S, x)
  }

  lemma {:induction false} ChainConfined(P: Pointers, S: set<Id>, w: seq<Id>)
    requires ClosedUnder(P, S) && Chain(P, w) && w[0] in S
    ensures w[|w| - 1] in S
  {
    if |w| > 1 {
      assert Points(P, w[0], w[1]) && StaysIn(P, S, w[0]);
      ChainConfined(P, S, w[1..]);
    }
  }

  lemma ReachesConfined(P: Pointers, S: set<Id>, x: Id, y: Id)
    requires ClosedUnder(P, S) && x in S && Reaches(P, x, y)
    ensures y in S
  {
    var w :| ChainFrom(P, w, x, y);
    ChainConfined(P, S, w);
  }

  // ----- depths: the height of a node above the end of its chain -----

  ghost predicate DepthAt(P: Pointers, C: set<Id>, depth: map<Id, nat>, x: Id)
  {
    && x in depth
    && if x in P then P[x] in C && P[x] in depth && depth[x] == depth[P[x]] + 1 else depth[x] == 0
  }

  /** Every chain from `C` stays in `C` and ends; `depth` counts its pointers. */
  ghost predicate Depths(P: Pointers, C: set<Id>, depth: map<Id, nat>)
  {
    depth.Keys == C && forall x {:trigger DepthAt(P, C, depth, x)} :: x in C ==> DepthAt(P, C, depth, x)
  }

  lemma {:induction false} DepthDrops(P: Pointers, C: set<Id>, depth: map<Id, nat>, w: seq<Id>)
    requires Depths(P, C, depth) && Chain(P, w) && w[0] in C
    ensures w[|w| - 1] in C && depth[w[0]] == depth[w[|w| - 1]] + |w| - 1
  {
    if |w| > 1 {
      assert Points(P, w[0], w[1]) && DepthAt(P, C, depth, w[0]);
      DepthDrops(P, C, depth, w[1..]);
    }
  }

  /** Depths leave no room for a cycle. */
  lemma NoCycle(P: Pointers, C: set<Id>, depth: map<Id, nat>, x: Id)
    requires Depths(P, C, depth) && x in C
    ensures !Reaches(P, x, x)
  {
    if Reaches(P, x, x) {
      var w :| ChainFrom(P, w, x, x);
      DepthDrops(P, C, depth, w);
    }
  }

  lemma {:induction false} DepthsAgree(P: Pointers, C: set<Id>, d: map<Id, nat>, e: map<Id, nat>, x: Id)
    requires Depths(P, C, d) && Depths(P, C, e) && x in C
    ensures d[x] == e[x]
    decreases d[x]
  {
    assert DepthAt(P, C, d, x) && DepthAt(P, C, e, x);
    if x in P {
      DepthsAgree(P, C, d, e, P[x]);
    }
  }

  lemma DepthsUnique(P: Pointers, C: set<Id>, d: map<Id, nat>, e: map<Id, nat>)
    requires Depths(P, C, d) && Depths(P, C, e)
    ensures d == e
  {
    forall x | x in C
      ensures d[x] == e[x]
    {
      DepthsAgree(P, C, d, e, x);
    }
  }

  ghost function Elements(w: seq<Id>): set<Id>
  {
    set x | x in w
  }

  ghost predicate Distinct(w: seq<Id>)
  {
    forall i, j :: 0 <= i < j < |w| ==> w[i] != w[j]
  }

  /** `w` climbs new ground outside `C`. */
  ghost predicate Trail(P: Pointers, C: set<Id>, w: seq<Id>)
  {
    Chain(P, w) && Distinct(w) && Elements(w) !! C
  }

  /** Chains that end, or run into `C`, have depths too. */
  lemma {:induction false} Grow(P: Pointers, C: set<Id>, depth: map<Id, nat>, w: seq<Id>) returns (more: map<Id, nat>)
    requires Depths(P, C, depth) && Trail(P, C, w)
    requires w[|w| - 1] in P ==> P[w[|w| - 1]] in C
    ensures Depths(P, C + Elements(w), more)
    decreases |w|
  {
    var n := |w| - 1;
    var x := w[n];
    more := GrowOne(P, C, depth, x);
    assert w == w[..n] + [x];
    if n > 0 {
      assert Points(P, w[n - 1], w[n]);
      more := Grow(P, C + {x}, more, w[..n]);
      assert C + {x} + Elements(w[..n]) == C + Elements(w);
    } else {
      assert C + {x} == C + Elements(w);
    }
  }

  lemma GrowOne(P: Pointers, C: set<Id>, depth: map<Id, nat>, x: Id) returns (more: map<Id, nat>)
    requires Depths(P, C, depth) && x !in C && (x in P ==> P[x] in C)
    ensures Depths(P, C + {x}, more)
  {
    assert x in P ==> P[x] in depth;
    more := depth[x := if x in P then depth[P[x]] + 1 else 0];
    forall y | y in C + {x}
      ensures DepthAt(P, C + {x}, more, y)
    {
      if y != x {
        assert DepthAt(P, C, depth, y);
      }
    }
  }

  lemma CutOutside(P: Pointers, C: set<Id>, depth: map<Id, nat>, c: Id)
    requires Depths(P, C, depth) && c !in C
    ensures Depths(P - {c}, C, depth)
  {
    forall y | y in C
      ensures DepthAt(P - {c}, C, depth, y)
    {
      assert DepthAt(P, C, depth, y);
    }
  }

  // ----- climbing from one node -----

  /** What a climb from `id` met: new nodes `w`, then an end, a checked node, or a repeated node. */
  ghost predicate Climbed(P: Pointers, checked: set<Id>, id: Id, w: seq<Id>, path: set<Id>, current: Option<Id>)
  {
    && path == Elements(w)
    && (if w == [] then current == Some(id)
         else id != "" && Trail(P, checked, w) && w[0] == id && current == Lookup(P, w[|w| - 1]))
  }

  lemma ClimbOn(P: Pointers, checked: set<Id>, id: Id, w: seq<Id>, path: set<Id>, x: Id)
    requires Climbed(P, checked, id, w, path, Some(x)) && x != "" && x !in path && x !in checked
    ensures Climbed(P, checked, id, w + [x], path + {x}, Lookup(P, x))
  {
    var v := w + [x];
    assert Elements(v) == Elements(w) + {x};
    forall i | 0 <= i < |w|
      ensures v[i] != x
    {
      assert w[i] in Elements(w);
    }
    forall i | 0 <= i < |v| - 1
      ensures Points(P, v[i], v[i + 1])
    {
      assert i < |w| - 1 ==> Points(P, w[i], w[i + 1]);
    }
  }

  method Climb(parentOf: Pointers, checked: set<Id>, id: Id, ghost ids: set<Id>)
    returns (path: set<Id>, repeated: Option<Id>, ghost w: seq<Id>)
    requires id in ids && ClosedUnder(parentOf, ids)
    ensures repeated.Some? ==> Climbed(parentOf, checked, id, w, path, repeated) && repeated.value in path
    ensures repeated.None? ==> exists current ::
      && Climbed(parentOf, checked, id, w, path, current)
      && (current.None? || current.value == "" || current.value in checked)
    ensures path <= ids
  {
    path, w := {}, [];
    var current := Some(id);
    while current.Some? && current.value != "" && current.value !in checked
      invariant Climbed(parentOf, checked, id, w, path, current)
      invariant path <= ids && (current.Some? ==> current.value in ids)
      decreases ids - path
    {
      hide Climbed;
      if current.value in path {
        return path, current, w;
      }
      ClimbOn(parentOf, checked, id, w, path, current.value);
      assert StaysIn(parentOf, ids, current.value);
      path, w, current := path + {current.value}, w + [current.value], Lookup(parentOf, current.value);
    }
    return path, None, w;
  }

  // ----- the pass -----

  /** Every cut is on a cycle of `P0`, and no two are on the same one. */
  ghost predicate CutsApart(P0: Pointers, cuts: seq<Id>)
  {
    && (forall c :: c in cuts ==> c in P0 && Reaches(P0, c, c))
    && (forall i, j :: 0 <= i < j < |cuts| ==>
          cuts[i] != cuts[j] && !Reaches(P0, cuts[i], cuts[j]) && !Reaches(P0, cuts[j], cuts[i]))
  }

  /** What the pass keeps: `C` is checked, `cuts` are removed from `P0`. */
  ghost predicate Passing(P0: Pointers, P: Pointers, C: set<Id>, cuts: seq<Id>, depth: map<Id, nat>)
  {
    && P == P0 - Elements(cuts)
    && Elements(cuts) <= C
    && Depths(P, C, depth)
    && ClosedUnder(P0, C)
    && CutsApart(P0, cuts)
  }

  /** A climb that ends, or reaches a checked node, is checked. */
  lemma PassOpen(P0: Pointers, P: Pointers, C: set<Id>, cuts: seq<Id>, depth: map<Id, nat>, w: seq<Id>)
    returns (more: map<Id, nat>)
    requires Passing(P0, P, C, cuts, depth) && Trail(P, C, w)
    requires w[|w| - 1] in P ==> P[w[|w| - 1]] in C
    ensures Passing(P0, P, C + Elements(w), cuts, more)
  {
    hide CutsApart;
    more := Grow(P, C, depth, w);
    TrailUncut(P0, P, C, cuts, w);
    hide Depths;
    forall x | x in C + Elements(w)
      ensures StaysIn(P0, C + Elements(w), x)
    {
      if x in C {
        assert StaysIn(P0, C, x);
      } else {
        var i :| 0 <= i < |w| && w[i] == x;
        assert i < |w| - 1 ==> Points(P, w[i], w[i + 1]) && w[i + 1] in Elements(w);
      }
    }
  }

  lemma TrailUncut(P0: Pointers, P: Pointers, C: set<Id>, cuts: seq<Id>, w: seq<Id>)
    requires P == P0 - Elements(cuts) && Elements(cuts) <= C && Trail(P, C, w)
    ensures forall i :: 0 <= i < |w| ==> (w[i] in P0 <==> w[i] in P) && (w[i] in P ==> P0[w[i]] == P[w[i]])
    ensures Trail(P0, C, w)
  {
    forall i | 0 <= i < |w|
      ensures w[i] !in Elements(cuts)
    {
      assert w[i] in Elements(w);
    }
    forall i | 0 <= i < |w| - 1
      ensures Points(P0, w[i], w[i + 1])
    {
      assert Points(P, w[i], w[i + 1]);
    }
  }

  /** A trail that turns back on itself is closed under its pointers, and turns on a cycle. */
  lemma TrailTurns(P0: Pointers, C: set<Id>, w: seq<Id>, c: Id)
    requires Trail(P0, C, w) && Points(P0, w[|w| - 1], c) && c in w
    ensures c in P0 && Reaches(P0, c, c) && ClosedUnder(P0, Elements(w))
  {
    var j :| 0 <= j < |w| && w[j] == c;
    assert j < |w| - 1 ==> Points(P0, w[j], w[j + 1]);
    var v := w[j..] + [c];
    forall i | 0 <= i < |v| - 1
      ensures Points(P0, v[i], v[i + 1])
    {
      assert j + i < |w| - 1 ==> Points(P0, w[j + i], w[j + i + 1]);
    }
    assert ChainFrom(P0, v, c, c);
    forall x | x in Elements(w)
      ensures StaysIn(P0, Elements(w), x)
    {
      var i :| 0 <= i < |w| && w[i] == x;
      assert i < |w| - 1 ==> Points(P0, w[i], w[i + 1]) && w[i + 1] in Elements(w);
    }
  }

  lemma CutApart(P0: Pointers, C: set<Id>, cuts: seq<Id>, w: seq<Id>, c: Id)
    requires CutsApart(P0, cuts) && Elements(cuts) <= C && ClosedUnder(P0, C)
    requires Trail(P0, C, w) && Points(P0, w[|w| - 1], c) && c in w
    ensures CutsApart(P0, cuts + [c])
  {
    TrailTurns(P0, C, w, c);
    hide Trail;
    assert c in Elements(w) && c !in C by { assert Trail(P0, C, w); TrailOutside(P0, C, w, c); }
    forall i | 0 <= i < |cuts|
      ensures cuts[i] != c && !Reaches(P0, cuts[i], c) && !Reaches(P0, c, cuts[i])
    {
      assert cuts[i] in Elements(cuts);
      if Reaches(P0, cuts[i], c) {
        ReachesConfined(P0, C, cuts[i], c);
      }
      TrailOutside(P0, C, w, cuts[i]);
      if Reaches(P0, c, cuts[i]) {
        ReachesConfined(P0, Elements(w), c, cuts[i]);
      }
    }
  }

  lemma TrailOutside(P: Pointers, C: set<Id>, w: seq<Id>, x: Id)
    requires Trail(P, C, w)
    ensures x in w ==> x !in C
    ensures x in C ==> x !in Elements(w)
  {
    assert x in w <==> x in Elements(w);
  }

  /** After the cut, the climb has depths: first up to the cut, then the rest of the cycle. */
  lemma CutGrow(P: Pointers, C: set<Id>, depth: map<Id, nat>, w: seq<Id>, c: Id) returns (more: map<Id, nat>)
    requires Depths(P, C, depth) && Trail(P, C, w) && Points(P, w[|w| - 1], c) && c in w
    ensures Depths(P - {c}, C + Elements(w), more)
  {
    var j :| 0 <= j < |w| && w[j] == c;
    var Q := P - {c};
    TrailOutside(P, C, w, c);
    CutOutside(P, C, depth, c);
    var a, b := w[..j + 1], w[j + 1..];
    assert w == a + b;
    assert Elements(a) + Elements(b) == Elements(w);
    assert Trail(Q, C, a) by {
      forall i | 0 <= i < |a| - 1
        ensures Points(Q, a[i], a[i + 1])
      {
        assert Points(P, w[i], w[i + 1]) && w[i] != w[j];
      }
    }
    more := Grow(Q, C, depth, a);
    if b != [] {
      assert Trail(Q, C + Elements(a), b) by {
        forall i | 0 <= i < |b| - 1
          ensures Points(Q, b[i], b[i + 1])
        {
          assert Points(P, w[j + 1 + i], w[j + 2 + i]) && w[j + 1 + i] != w[j];
        }
      }
      assert c in a;
      more := Grow(Q, C + Elements(a), more, b);
      assert C + Elements(a) + Elements(b) == C + Elements(w);
    } else {
      assert C + Elements(a) == C + Elements(w);
    }
  }

  /** A climb that turns back loses the pointer of the repeated node. */
  lemma PassCycle(P0: Pointers, P: Pointers, C: set<Id>, cuts: seq<Id>, depth: map<Id, nat>, w: seq<Id>, c: Id)
    returns (more: map<Id, nat>)
    requires Passing(P0, P, C, cuts, depth) && Trail(P, C, w) && Points(P, w[|w| - 1], c) && c in w
    ensures Passing(P0, P - {c}, C + Elements(w), cuts + [c], more)
  {
    hide Reaches;
    more := CutGrow(P, C, depth, w, c);
    TrailUncut(P0, P, C, cuts, w);
    CutApart(P0, C, cuts, w, c);
    TrailTurns(P0, C, w, c);
    hide Depths, CutsApart, Trail;
    assert Elements(cuts + [c]) == Elements(cuts) + {c};
    assert c in Elements(w);
    forall x | x in C + Elements(w)
      ensures StaysIn(P0, C + Elements(w), x)
    {
      assert StaysIn(P0, C, x) || x in Elements(w);
      assert x in Elements(w) ==> StaysIn(P0, Elements(w), x);
    }
  }

  lemma PassStart(P0: Pointers)
    ensures Passing(P0, P0, {}, [], map[])
  {
    assert P0 - Elements([]) == P0;
  }

  /** The accepted pointers run between the listed nodes, none of them to the empty identifier. */
  ghost predicate Accepted(P0: Pointers, ids: set<Id>)
  {
    && P0.Keys <= ids
    && ClosedUnder(P0, ids)
    && "" !in P0.Values
  }

  /** One climb of the pass: the nodes of the path become checked, and a cycle loses a pointer. */
  method PassOne(ghost P0: Pointers, parentOf0: Pointers, checked0: set<Id>, cuts0: seq<Id>, ghost depth0: map<Id, nat>,
                 ghost ids: set<Id>, id: Id)
    returns (parentOf: Pointers, checked: set<Id>, cuts: seq<Id>, ghost depth: map<Id, nat>)
    requires Accepted(P0, ids) && id in ids && checked0 <= ids - {""}
    requires Passing(P0, parentOf0, checked0, cuts0, depth0)
    ensures Passing(P0, parentOf, checked, cuts, depth)
    ensures checked0 <= checked <= ids - {""} && (id != "" ==> id in checked)
  {
    hide *;
    parentOf, cuts := parentOf0, cuts0;
    PointersInside(P0, parentOf0, checked0, cuts0, depth0, ids);
    ghost var w: seq<Id>;
    var path, repeated;
    path, repeated, w := Climb(parentOf, checked0, id, ids);
    depth := ClimbPasses(P0, parentOf0, checked0, cuts0, depth0, ids, id, w, path, repeated);
    if repeated.Some? {
      cuts := cuts + [repeated.value];
      parentOf := parentOf - {repeated.value};
    }
    checked := checked0 + path;
  }

  lemma PointersInside(P0: Pointers, P: Pointers, C: set<Id>, cuts: seq<Id>, depth: map<Id, nat>, ids: set<Id>)
    requires Accepted(P0, ids) && Passing(P0, P, C, cuts, depth)
    ensures ClosedUnder(P, ids)
  {
    forall x | x in ids
      ensures StaysIn(P, ids, x)
    {
      assert StaysIn(P0, ids, x);
    }
  }

  lemma ClimbPasses(P0: Pointers, P: Pointers, C: set<Id>, cuts: seq<Id>, depth: map<Id, nat>, ids: set<Id>, id: Id,
                    w: seq<Id>, path: set<Id>, repeated: Option<Id>) returns (more: map<Id, nat>)
    requires Accepted(P0, ids) && id in ids && C <= ids - {""} && path <= ids
    requires Passing(P0, P, C, cuts, depth)
    requires repeated.Some? ==> Climbed(P, C, id, w, path, repeated) && repeated.value in path
    requires repeated.None? ==> exists current ::
      && Climbed(P, C, id, w, path, current)
      && (current.None? || current.value == "" || current.value in C)
    ensures if repeated.Some? then Passing(P0, P - {repeated.value}, C + path, cuts + [repeated.value], more)
            else Passing(P0, P, C + path, cuts, more)
    ensures "" !in path && (id != "" ==> id in C + path)
  {
    hide Depths, ClosedUnder, CutsApart;
    NoEmptyPath(P0, P, C, cuts, depth, ids, id, w, path);
    hide Trail;
    if repeated.Some? {
      assert w != [];
      more := PassCycle(P0, P, C, cuts, depth, w, repeated.value);
    } else if w == [] {
      more := depth;
      assert C + path == C;
    } else {
      assert w[|w| - 1] in P ==> P[w[|w| - 1]] in C by {
        if w[|w| - 1] in P {
          assert P[w[|w| - 1]] in P0.Values by { assert P0[w[|w| - 1]] == P[w[|w| - 1]]; }
        }
      }
      more := PassOpen(P0, P, C, cuts, depth, w);
    }
  }

  lemma NoEmptyPath(P0: Pointers, P: Pointers, C: set<Id>, cuts: seq<Id>, depth: map<Id, nat>, ids: set<Id>, id: Id,
                    w: seq<Id>, path: set<Id>)
    requires Accepted(P0, ids) && Passing(P0, P, C, cuts, depth)
    requires w != [] ==> Trail(P, C, w) && w[0] == id && id != ""
    requires path == Elements(w)
    ensures "" !in path && (w != [] ==> id in path)
  {
    forall i | 0 <= i < |w|
      ensures w[i] != ""
    {
      if i > 0 {
        assert Points(P, w[i - 1], w[i]);
        assert P0[w[i - 1]] in P0.Values;
      }
    }
  }

  /** `P` is `P0` without one pointer of every cycle, and no other. */
  ghost predicate CutsEveryCycleOnce(P0: Pointers, P: Pointers, cuts: seq<Id>)
  {
    && P == P0 - Elements(cuts)
    && CutsApart(P0, cuts)
    && forall x :: Reaches(P0, x, x) ==> exists c :: CutOf(P0, cuts, x, c)
  }

  /** `c` is the cut of the cycle through `x`. */
  ghost predicate CutOf(P0: Pointers, cuts: seq<Id>, x: Id, c: Id)
  {
    c in cuts && Reaches(P0, x, c)
  }

  /** A cycle that kept all its pointers would have no depths. */
  lemma EveryCycleCut(P0: Pointers, P: Pointers, C: set<Id>, cuts: seq<Id>, depth: map<Id, nat>, x: Id)
    requires Passing(P0, P, C, cuts, depth) && x in C && Reaches(P0, x, x)
    ensures exists c :: CutOf(P0, cuts, x, c)
  {
    var w :| ChainFrom(P0, w, x, x);
    if forall i :: 0 <= i < |w| - 1 ==> w[i] !in cuts {
      forall i | 0 <= i < |w| - 1
        ensures Points(P, w[i], w[i + 1])
      {
        assert Points(P0, w[i], w[i + 1]);
      }
      assert ChainFrom(P, w, x, x);
      NoCycle(P, C, depth, x);
    } else {
      var i :| 0 <= i < |w| - 1 && w[i] in cuts;
      var v := if i == 0 then w else w[..i + 1];
      assert ChainFrom(P0, v, x, w[i]);
      assert CutOf(P0, cuts, x, w[i]);
    }
  }

  /** Whatever a node on a cycle reaches is on that cycle. */
  lemma {:induction false} CycleReturns(P: Pointers, c: seq<Id>, q: seq<Id>, x: Id, r: Id)
    requires ChainFrom(P, c, x, x) && ChainFrom(P, q, x, r)
    ensures Reaches(P, r, x)
    decreases |q|
  {
    var n := |c| - 1;
    var m := if |q| < |c| then |q| else |c|;
    Determined(P, c, q, m);
    if |q| < |c| {
      assert ChainFrom(P, c[|q| - 1..], r, x);
    } else if |q| == |c| {
      assert ChainFrom(P, c, r, x);
    } else {
      assert ChainFrom(P, q[n..], x, r);
      CycleReturns(P, c, q[n..], x, r);
    }
  }

  /** Chains from one node agree as far as both go. */
  lemma {:induction false} Determined(P: Pointers, c: seq<Id>, q: seq<Id>, m: nat)
    requires Chain(P, c) && Chain(P, q) && c[0] == q[0] && 0 < m <= |c| && m <= |q|
    ensures c[m - 1] == q[m - 1]
  {
    if m > 1 {
      Determined(P, c, q, m - 1);
      assert Points(P, c[m - 2], c[m - 1]) && Points(P, q[m - 2], q[m - 1]);
    }
  }

  lemma ReachesOn(P: Pointers, x: Id, y: Id, z: Id)
    requires Reaches(P, x, y) && Reaches(P, y, z)
    ensures Reaches(P, x, z)
  {
    var p :| ChainFrom(P, p, x, y);
    var q :| ChainFrom(P, q, y, z);
    var w := p + q[1..];
    forall i | 0 <= i < |w| - 1
      ensures Points(P, w[i], w[i + 1])
    {
      assert i < |p| - 1 ==> Points(P, p[i], p[i + 1]);
      assert i >= |p| - 1 ==> Points(P, q[i + 1 - |p|], q[i + 2 - |p|]);
    }
    assert ChainFrom(P, w, x, z);
  }

  /** The cut of a cycle is the only one. */
  lemma OneCutPerCycle(P0: Pointers, cuts: seq<Id>, x: Id, c: Id, d: Id)
    requires CutsApart(P0, cuts) && Reaches(P0, x, x) && CutOf(P0, cuts, x, c) && CutOf(P0, cuts, x, d)
    ensures c == d
  {
    var w :| ChainFrom(P0, w, x, x);
    var q :| ChainFrom(P0, q, x, c);
    CycleReturns(P0, w, q, x, c);
    ReachesOn(P0, c, x, d);
  }

  /** Cut every cycle of the accepted pointers, in identifier order. */
  method CutCycles(accepted: Pointers, ids: seq<Id>)
    returns (parentOf: Pointers, cuts: seq<Id>, ghost depth: map<Id, nat>)
    requires Accepted(accepted, Elements(ids))
    ensures CutsEveryCycleOnce(accepted, parentOf, cuts)
    ensures Depths(parentOf, Elements(ids), depth)
  {
    hide *;
    parentOf, cuts, depth := accepted, [], map[];
    var checked: set<Id> := {};
    PassStart(accepted);
    for i := 0 to |ids|
      invariant Passing(accepted, parentOf, checked, cuts, depth)
      invariant checked <= Elements(ids) - {""}
      invariant forall j :: 0 <= j < i ==> ids[j] in checked || ids[j] == ""
    {
      ElementIn(ids, i);
      parentOf, checked, cuts, depth := PassOne(accepted, parentOf, checked, cuts, depth, Elements(ids), ids[i]);
    }
    depth := PassDone(accepted, parentOf, checked, cuts, depth, ids);
  }

  lemma ElementIn(ids: seq<Id>, i: nat)
    requires i < |ids|
    ensures ids[i] in Elements(ids)
  {
  }

  /** The empty identifier is never climbed; nothing points to it. */
  lemma PassDone(P0: Pointers, P: Pointers, C: set<Id>, cuts: seq<Id>, depth: map<Id, nat>, ids: seq<Id>)
    returns (more: map<Id, nat>)
    requires Accepted(P0, Elements(ids)) && Passing(P0, P, C, cuts, depth) && C <= Elements(ids) - {""}
    requires forall j :: 0 <= j < |ids| ==> ids[j] in C || ids[j] == ""
    ensures CutsEveryCycleOnce(P0, P, cuts) && Depths(P, Elements(ids), more)
  {
    more := depth;
    if "" in ids {
      EmptyPointer(P0, P, cuts, ids);
      more := GrowOne(P, C, depth, "");
      assert C + {""} == Elements(ids);
    } else {
      assert C == Elements(ids);
    }
    hide Depths, CutsApart;
    forall x | Reaches(P0, x, x)
      ensures exists c :: CutOf(P0, cuts, x, c)
    {
      OnCycleChecked(P0, Elements(ids), C, x);
      EveryCycleCut(P0, P, C, cuts, depth, x);
    }
  }

  lemma EmptyPointer(P0: Pointers, P: Pointers, cuts: seq<Id>, ids: seq<Id>)
    requires Accepted(P0, Elements(ids)) && P == P0 - Elements(cuts) && "" in ids
    ensures "" in P ==> P[""] in Elements(ids) && P[""] != ""
  {
    assert StaysIn(P0, Elements(ids), "");
    assert "" in P ==> P0[""] in P0.Values;
  }

  lemma OnCycleChecked(P0: Pointers, ids: set<Id>, C: set<Id>, x: Id)
    requires Accepted(P0, ids) && ids - {""} <= C && Reaches(P0, x, x)
    ensures x in C
  {
    var w :| ChainFrom(P0, w, x, x);
    assert Points(P0, w[0], w[1]) && Points(P0, w[|w| - 2], w[|w| - 1]);
    assert P0[w[|w| - 2]] in P0.Values;
  }
}
