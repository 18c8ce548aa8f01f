/** Connected components of the drawn graph, by union-find with path compression. */
module RelationshipGroups {
  import opened Ids
  import opened Walks

  datatype Relationship = Relationship(source: Id, target: Id)

  type Parents = map<Id, Id>

  ghost predicate StepsDown(parents: Parents, x: Id)
    requires x in parents
  {
    parents[x] in parents && AtMost(parents[x], x)
  }

  /** Parents are known and never larger, so following them stops. */
  ghost predicate Descending(parents: Parents)
  {
    forall x {:trigger StepsDown(parents, x)} :: x in parents ==> StepsDown(parents, x)
  }

  ghost function Below(parents: Parents, x: Id): set<Id>
  {
    set y | y in parents && Before(y, x)
  }

  lemma BelowShrinks(parents: Parents, x: Id)
    requires Descending(parents) && x in parents && parents[x] != x
    ensures |Below(parents, parents[x])| < |Below(parents, x)|
  {
    var p := parents[x];
    assert StepsDown(parents, x);
    forall y | y in Below(parents, p)
      ensures y in Below(parents, x)
    {
      BeforeTransitive(y, p, x);
    }
    BeforeIrreflexive(p);
    assert Below(parents, p) + {p} <= Below(parents, x);
    SubsetSize(Below(parents, p) + {p}, Below(parents, x));
  }

  /** Where the parents of `x` end. */
  ghost function RootOf(parents: Parents, x: Id): (r: Id)
    requires Descending(parents) && x in parents
    ensures r in parents && parents[r] == r && AtMost(r, x)
    decreases |Below(parents, x)|
  {
    assert StepsDown(parents, x);
    if parents[x] == x then x
    else
      BelowShrinks(parents, x);
      var r := RootOf(parents, parents[x]);
      assert AtMost(r, x) by {
        if r != parents[x] {
          BeforeTransitive(r, parents[x], x);
        }
      }
      r
  }

  /** Pointing a node at its own root changes no root. */
  lemma {:induction false} CompressionKeepsRoots(parents: Parents, z: Id, x: Id)
    requires Descending(parents) && z in parents && x in parents
    ensures Descending(parents[z := RootOf(parents, z)])
    ensures RootOf(parents[z := RootOf(parents, z)], x) == RootOf(parents, x)
    decreases |Below(parents, x)|
  {
    var after := parents[z := RootOf(parents, z)];
    forall y | y in after
      ensures StepsDown(after, y)
    {
      assert StepsDown(parents, y);
    }
    assert StepsDown(parents, x);
    if parents[x] != x {
      BelowShrinks(parents, x);
      CompressionKeepsRoots(parents, z, parents[x]);
      if x == z {
        CompressedRoot(after, RootOf(parents, z), x);
      }
    }
  }

  lemma CompressedRoot(parents: Parents, r: Id, x: Id)
    requires Descending(parents) && x in parents && r in parents && parents[r] == r && parents[x] == r
    ensures RootOf(parents, x) == r
  {
  }

  /** Pointing the larger of two roots at the smaller merges exactly their two trees. */
  lemma {:induction false} LinkMergesRoots(parents: Parents, hi: Id, lo: Id, x: Id)
    requires Descending(parents) && hi in parents && lo in parents && x in parents
    requires parents[hi] == hi && parents[lo] == lo && AtMost(lo, hi)
    ensures Descending(parents[hi := lo])
    ensures RootOf(parents[hi := lo], x) == if RootOf(parents, x) == hi then lo else RootOf(parents, x)
    decreases |Below(parents, x)|
  {
    var after := parents[hi := lo];
    forall y | y in after
      ensures StepsDown(after, y)
    {
      assert StepsDown(parents, y);
    }
    assert StepsDown(parents, x);
    if parents[x] != x {
      BelowShrinks(parents, x);
      LinkMergesRoots(parents, hi, lo, parents[x]);
    } else if x == hi {
      CompressedRoot(after, lo, x);
    }
  }

  ghost predicate SameRoot(before: Parents, after: Parents, x: Id)
    requires Descending(before) && Descending(after) && x in before && x in after
  {
    RootOf(after, x) == RootOf(before, x)
  }

  /** Both maps have the same nodes and the same root for each. */
  ghost predicate SameRoots(before: Parents, after: Parents)
  {
    && Descending(before) && Descending(after) && before.Keys == after.Keys
    && forall x {:trigger SameRoot(before, after, x)} :: x in before ==> SameRoot(before, after, x)
  }

  /** The links of the relationships with both endpoints present. */
  ghost function LinksOf(ids: set<Id>, edges: seq<Relationship>): Links
  {
    set e | e in edges && e.source in ids && e.target in ids :: (e.source, e.target)
  }

  ghost predicate RootsTellConnection(parents: Parents, links: Links, x: Id, y: Id)
    requires Descending(parents) && x in parents && y in parents
  {
    RootOf(parents, x) == RootOf(parents, y) <==> Connected(links, x, y)
  }

  /** Two nodes have the same root exactly when they are connected. */
  ghost predicate GroupsConnected(parents: Parents, links: Links)
    requires Descending(parents)
  {
    && (forall l :: l in links ==> l.0 in parents && l.1 in parents)
    && forall x, y {:trigger RootsTellConnection(parents, links, x, y)} ::
         x in parents && y in parents ==> RootsTellConnection(parents, links, x, y)
  }

  /** The forest represents the components of `links`. */
  ghost predicate Represents(parents: Parents, links: Links)
  {
    Descending(parents) && GroupsConnected(parents, links)
  }

  lemma RepresentsDescending(parents: Parents, links: Links)
    requires Represents(parents, links)
    ensures Descending(parents)
  {
  }

  class UnionFind {
    var parents: Parents

    constructor (ids: seq<Id>)
      ensures parents == map x | x in ids :: x
    {
      parents := map x | x in ids :: x;
    }

    /** Find a root, then point every node on the way at it. */
    method Root(id0: Id) returns (current: Id)
      requires Descending(parents) && id0 in parents
      modifies this
      ensures SameRoots(old(parents), parents)
      ensures current == RootOf(old(parents), id0)
    {
      hide SameRoots, Descending;
      ghost var before := parents;
      current := id0;
      while parents[current] != current
        invariant parents == before
        invariant current in parents && RootOf(parents, current) == RootOf(parents, id0)
        decreases |Below(parents, current)|
      {
        BelowShrinks(parents, current);
        ParentRoot(parents, current);
        current := parents[current];
      }
      SameRootsReflexive(parents);
      var id := id0;
      while id != current
        invariant SameRoots(before, parents) && Descending(parents)
        invariant id in parents && RootOf(parents, id) == current
        decreases |Below(parents, id)|
      {
        var next := parents[id];
        BelowShrinks(parents, id);
        Compress(before, parents, id, next);
        SameRootsParts(before, parents[id := current]);
        assert Below(parents[id := current], next) == Below(parents, next);
        parents := parents[id := current];
        id := next;
      }
    }

    /** Merge the groups of the two endpoints, keeping the smaller root. */
    method Merge(edge: Relationship, ghost links: Links)
      requires Represents(parents, links)
      requires edge.source in parents && edge.target in parents
      modifies this
      ensures parents.Keys == old(parents.Keys)
      ensures Represents(parents, links + {(edge.source, edge.target)})
    {
      hide SameRoots, Descending, GroupsConnected, RootOf, Represents;
      ghost var before := parents;
      RepresentsDescending(parents, links);
      var a := Root(edge.source);
      ghost var middle := parents;
      SameRootsRepresents(before, middle, links);
      RepresentsDescending(middle, links);
      var b := Root(edge.target);
      SameRootsRepresents(middle, parents, links);
      LinkRepresents(before, middle, parents, links, edge, a, b);
      ghost var after := if Before(a, b) then parents[b := a] else parents[a := b];
      if Before(a, b) {
        parents := parents[b := a];
      } else {
        parents := parents[a := b];
      }
      assert parents == after;
    }

    /** The group of every node. */
    method Groups(ids: seq<Id>) returns (groups: map<Id, Id>)
      requires Descending(parents) && parents.Keys == (set x | x in ids)
      modifies this
      ensures GroupsOf(groups, old(parents), ids)
    {
      ghost var before := parents;
      groups := map[];
      SameRootsReflexive(parents);
      hide *;
      NoGroups(before, ids);
      for i := 0 to |ids|
        invariant SameRoots(before, parents)
        invariant GroupsOf(groups, before, ids[..i])
      {
        ghost var middle := parents;
        SameRootsParts(before, middle);
        assert ids[i] in ids;
        var r := Root(ids[i]);
        MoreGroups(groups, before, middle, ids, i, r);
        SameRootsChain(before, middle, parents);
        groups := groups[ids[i] := r];
      }
      assert ids[..|ids|] == ids;
    }
  }

  /** `groups` maps each listed node to its root. */
  ghost predicate GroupsOf(groups: map<Id, Id>, parents: Parents, ids: seq<Id>)
  {
    && Descending(parents)
    && groups.Keys == (set x | x in ids)
    && forall x :: x in groups ==> x in parents && groups[x] == RootOf(parents, x)
  }

  lemma NoGroups(parents: Parents, ids: seq<Id>)
    requires Descending(parents)
    ensures GroupsOf(map[], parents, ids[..0])
  {
  }

  lemma MoreGroups(groups: map<Id, Id>, before: Parents, parents: Parents, ids: seq<Id>, i: nat, r: Id)
    requires i < |ids| && GroupsOf(groups, before, ids[..i]) && SameRoots(before, parents)
    requires Descending(parents) && ids[i] in parents && r == RootOf(parents, ids[i])
    ensures GroupsOf(groups[ids[i] := r], before, ids[..i + 1])
  {
    hide Descending, RootOf;
    SameRootRests(before, parents, ids[i]);
    assert ids[..i + 1] == ids[..i] + [ids[i]];
  }

  lemma SameRootsParts(before: Parents, after: Parents)
    requires SameRoots(before, after)
    ensures Descending(after) && before.Keys == after.Keys
  {
  }

  lemma Compress(before: Parents, parents: Parents, id: Id, next: Id)
    requires SameRoots(before, parents) && id in parents && parents[id] == next && next != id
    ensures SameRoots(before, parents[id := RootOf(parents, id)])
    ensures next in parents && RootOf(parents[id := RootOf(parents, id)], next) == RootOf(parents, id)
  {
    hide RootOf, Descending;
    var after := parents[id := RootOf(parents, id)];
    CompressionKeepsRoots(parents, id, id);
    forall x | x in parents
      ensures SameRoot(before, after, x)
    {
      CompressionKeepsRoots(parents, id, x);
      assert SameRoot(before, parents, x);
    }
    ParentRoot(parents, id);
    CompressionKeepsRoots(parents, id, next);
  }

  lemma ParentRoot(parents: Parents, x: Id)
    requires Descending(parents) && x in parents
    ensures parents[x] in parents && RootOf(parents, parents[x]) == RootOf(parents, x)
  {
    assert StepsDown(parents, x);
  }

  lemma SameRootsChain(before: Parents, middle: Parents, after: Parents)
    requires SameRoots(before, middle) && SameRoots(middle, after)
    ensures SameRoots(before, after)
  {
    hide RootOf, Descending;
    forall x | x in before
      ensures SameRoot(before, after, x)
    {
      assert SameRoot(before, middle, x) && SameRoot(middle, after, x);
    }
  }

  lemma SameRootsReflexive(parents: Parents)
    requires Descending(parents)
    ensures SameRoots(parents, parents)
  {
    hide Descending;
  }

  lemma SameRootsRepresents(before: Parents, after: Parents, links: Links)
    requires SameRoots(before, after) && Represents(before, links)
    ensures Represents(after, links) && before.Keys == after.Keys
  {
    hide RootOf, Descending;
    forall x, y | x in after && y in after
      ensures RootsTellConnection(after, links, x, y)
    {
      assert RootsTellConnection(before, links, x, y);
      assert SameRoot(before, after, x) && SameRoot(before, after, y);
    }
  }

  lemma SameRootRests(before: Parents, after: Parents, x: Id)
    requires SameRoots(before, after) && x in before
    ensures RootOf(after, x) == RootOf(before, x)
  {
    hide RootOf, Descending;
    assert SameRoot(before, after, x);
  }

  /** Linking the roots of the endpoints connects exactly what the new link connects. */
  lemma LinkConnects(parents: Parents, links: Links, edge: Relationship, a: Id, b: Id)
    requires Descending(parents) && GroupsConnected(parents, links)
    requires edge.source in parents && edge.target in parents
    requires a == RootOf(parents, edge.source) && b == RootOf(parents, edge.target)
    ensures
      var lo, hi := if Before(a, b) then a else b, if Before(a, b) then b else a;
      Descending(parents[hi := lo]) && GroupsConnected(parents[hi := lo], links + {(edge.source, edge.target)})
  {
    BeforeTotal(a, b);
    var lo, hi := if Before(a, b) then a else b, if Before(a, b) then b else a;
    var after := parents[hi := lo];
    var more := links + {(edge.source, edge.target)};
    LinkMergesRoots(parents, hi, lo, a);
    forall x, y | x in after && y in after
      ensures RootsTellConnection(after, more, x, y)
    {
      LinkMergesRoots(parents, hi, lo, x);
      LinkMergesRoots(parents, hi, lo, y);
      assert RootOf(after, x) == RootOf(after, y) <==> Merged(parents, edge, x, y);
      if Merged(parents, edge, x, y) {
        MergedConnected(parents, links, edge, x, y);
      } else if Connected(more, x, y) {
        ConnectedMerged(parents, links, edge, x, y);
      }
    }
  }

  lemma LinkRepresents(before: Parents, middle: Parents, parents: Parents, links: Links, edge: Relationship, a: Id,
                       b: Id)
    requires Represents(parents, links) && SameRoots(before, middle) && SameRoots(middle, parents)
    requires edge.source in before && edge.target in before
    requires Descending(before) && a == RootOf(before, edge.source)
    requires Descending(middle) && edge.target in middle && b == RootOf(middle, edge.target)
    ensures a in parents && b in parents && before.Keys == parents.Keys
    ensures parents[b := a].Keys == before.Keys && parents[a := b].Keys == before.Keys
    ensures Represents(if Before(a, b) then parents[b := a] else parents[a := b], links + {(edge.source, edge.target)})
  {
    hide Descending, GroupsConnected, RootOf;
    SameRootRests(before, middle, edge.source);
    SameRootRests(middle, parents, edge.source);
    SameRootRests(middle, parents, edge.target);
    LinkConnects(parents, links, edge, a, b);
  }

  /** `x` and `y` have one root once the groups of the edge's endpoints are merged. */
  ghost predicate Merged(parents: Parents, edge: Relationship, x: Id, y: Id)
    requires Descending(parents) && x in parents && y in parents && edge.source in parents && edge.target in parents
  {
    var a, b := RootOf(parents, edge.source), RootOf(parents, edge.target);
    var rx, ry := RootOf(parents, x), RootOf(parents, y);
    rx == ry || ((rx == a || rx == b) && (ry == a || ry == b))
  }

  lemma MergedConnected(parents: Parents, links: Links, edge: Relationship, x: Id, y: Id)
    requires Descending(parents) && GroupsConnected(parents, links)
    requires x in parents && y in parents && edge.source in parents && edge.target in parents
    requires Merged(parents, edge, x, y)
    ensures Connected(links + {(edge.source, edge.target)}, x, y)
  {
    var more := links + {(edge.source, edge.target)};
    if RootOf(parents, x) == RootOf(parents, y) {
      assert RootsTellConnection(parents, links, x, y);
      ConnectedMonotone(links, more, x, y);
    } else {
      var u := if RootOf(parents, x) == RootOf(parents, edge.source) then edge.source else edge.target;
      var v := if u == edge.source then edge.target else edge.source;
      assert RootsTellConnection(parents, links, x, u) && RootsTellConnection(parents, links, v, y);
      ConnectedMonotone(links, more, x, u);
      ConnectedMonotone(links, more, v, y);
      ConnectedStep(more, u, v);
      ConnectedTransitive(more, x, u, v);
      ConnectedTransitive(more, x, v, y);
    }
  }

  lemma ConnectedMerged(parents: Parents, links: Links, edge: Relationship, x: Id, y: Id)
    requires Descending(parents) && GroupsConnected(parents, links)
    requires x in parents && y in parents && edge.source in parents && edge.target in parents
    requires Connected(links + {(edge.source, edge.target)}, x, y)
    ensures Merged(parents, edge, x, y)
  {
    var more := links + {(edge.source, edge.target)};
    var S := set z | z in parents && Merged(parents, edge, x, z);
    forall u, v | u in S && Adjacent(more, u, v)
      ensures v in S
    {
      if Adjacent(links, u, v) {
        ConnectedStep(links, u, v);
        assert RootsTellConnection(parents, links, u, v);
      }
    }
    ConnectedConfined(more, S, x, y);
  }

  /** `g` is the smallest node of the component of `x`. */
  ghost predicate SmallestConnected(ids: set<Id>, links: Links, x: Id, g: Id)
  {
    && g in ids && Connected(links, x, g)
    && forall y :: y in ids && Connected(links, x, y) ==> AtMost(g, y)
  }

  lemma RootIsSmallest(parents: Parents, links: Links, x: Id)
    requires Represents(parents, links) && x in parents
    ensures Descending(parents) && SmallestConnected(parents.Keys, links, x, RootOf(parents, x))
  {
    var g := RootOf(parents, x);
    assert RootOf(parents, g) == g;
    assert RootsTellConnection(parents, links, x, g);
    forall y | y in parents && Connected(links, x, y)
      ensures AtMost(g, y)
    {
      assert RootsTellConnection(parents, links, x, y);
    }
  }

  lemma Unlinked(ids: set<Id>)
    ensures Represents(map x | x in ids :: x, {})
  {
    var parents := map x | x in ids :: x;
    assert Descending(parents);
    forall x, y | x in parents && y in parents
      ensures RootsTellConnection(parents, {}, x, y)
    {
      ConnectedReflexive({}, x);
      if Connected({}, x, y) {
        ConnectedConfined({}, {x}, x, y);
      }
    }
  }

  lemma GroupsSmallest(groups: map<Id, Id>, parents: Parents, ids: seq<Id>, edges: seq<Relationship>)
    requires GroupsOf(groups, parents, ids) && parents.Keys == (set x | x in ids)
    requires Represents(parents, LinksOf(parents.Keys, edges))
    ensures groups.Keys == parents.Keys
    ensures forall x :: x in groups ==> SmallestConnected(groups.Keys, LinksOf(groups.Keys, edges), x, groups[x])
  {
    hide Represents, SmallestConnected, Descending, RootOf, LinksOf;
    forall x | x in groups
      ensures SmallestConnected(groups.Keys, LinksOf(groups.Keys, edges), x, groups[x])
    {
      RootIsSmallest(parents, LinksOf(parents.Keys, edges), x);
    }
  }

  lemma MoreLinks(known: set<Id>, edges: seq<Relationship>, i: nat)
    requires i < |edges|
    ensures LinksOf(known, edges[..i + 1]) ==
      if edges[i].source in known && edges[i].target in known
      then LinksOf(known, edges[..i]) + {(edges[i].source, edges[i].target)}
      else LinksOf(known, edges[..i])
  {
    assert edges[..i + 1] == edges[..i] + [edges[i]];
  }

  /** Every node is mapped to the smallest node of its component, over the relationships
      with both endpoints present. */
  method BuildRelationshipGroups(ids: seq<Id>, edges: seq<Relationship>) returns (groups: map<Id, Id>)
    ensures groups.Keys == (set x | x in ids)
    ensures forall x :: x in groups ==>
      SmallestConnected(groups.Keys, LinksOf(groups.Keys, edges), x, groups[x])
  {
    ghost var known := set x | x in ids;
    var forest := new UnionFind(ids);
    Unlinked(known);
    assert LinksOf(known, edges[..0]) == {};
    assert forest.parents == map x | x in known :: x;
    hide *;
    for i := 0 to |edges|
      invariant forest.parents.Keys == known
      invariant Represents(forest.parents, LinksOf(known, edges[..i]))
    {
      var edge := edges[i];
      MoreLinks(known, edges, i);
      if edge.source in forest.parents && edge.target in forest.parents {
        forest.Merge(edge, LinksOf(known, edges[..i]));
      }
    }
    assert edges[..|edges|] == edges;
    ghost var final := forest.parents;
    RepresentsDescending(final, LinksOf(known, edges));
    groups := forest.Groups(ids);
    GroupsSmallest(groups, final, ids, edges);
  }
}
