/** The presentation forest that the server derives from association evidence. */
module PresentationTree {
  import opened Ids
  import opened Walks
  import opened GraphModel
  import opened PresentationForest

  // ----- the traversal -----

  /** The records that the traversal writes: node and edge slices, the visited set, the roots. */
  datatype Working = Working(nodes: seq<GraphNode>, edges: seq<GraphEdge>, visited: set<Id>, rootIds: seq<Id>)

  ghost predicate Mirrors(w: Working, f: Forest, base: seq<GraphNode>, edges: seq<GraphEdge>)
  {
    && |w.nodes| == |base| && |w.edges| == |edges|
    && (forall i :: 0 <= i < |base| ==>
          w.nodes[i] == base[i].(parentId := Lookup(f.parent, base[i].id), depth := Lookup(f.depth, base[i].id)))
    && (forall j :: 0 <= j < |edges| ==>
          w.edges[j] == edges[j].(treeRole := if j in f.via.Values then Tree else Secondary))
    && w.visited == f.depth.Keys
    && w.rootIds == f.rootIds
  }

  ghost predicate IsIndex(nodes: seq<GraphNode>, byId: map<Id, nat>)
  {
    && (forall i :: 0 <= i < |nodes| ==> nodes[i].id in byId && byId[nodes[i].id] == i)
    && (forall x :: x in byId ==> byId[x] < |nodes| && nodes[byId[x]].id == x)
  }

  ghost predicate ClosedEdges(edges: seq<GraphEdge>, byId: map<Id, nat>)
  {
    forall e :: e in edges ==> e.source in byId && e.target in byId
  }

  function Neighbours(adjacency: map<Id, seq<nat>>, x: Id): seq<nat>
  {
    if x in adjacency then adjacency[x] else []
  }

  ghost predicate AtEdge(edges: seq<GraphEdge>, x: Id, j: nat)
  {
    j < |edges| && IsAssociationEdge(edges[j]) && Touches(edges[j], x)
  }

  /** `list` is exactly the association edges at `x` among the first `n`, in edge order. */
  ghost predicate ListsEdgesOf(edges: seq<GraphEdge>, list: seq<nat>, x: Id, n: nat)
  {
    && (forall k :: 0 <= k < |list| ==> list[k] < n && AtEdge(edges, x, list[k]))
    && (forall k, l :: 0 <= k < l < |list| ==> list[k] < list[l])
    && (forall j {:trigger AtEdge(edges, x, j)} :: 0 <= j < n && AtEdge(edges, x, j) ==> j in list)
  }

  ghost predicate IsAdjacency(edges: seq<GraphEdge>, adjacency: map<Id, seq<nat>>, n: nat)
  {
    forall x :: ListsEdgesOf(edges, Neighbours(adjacency, x), x, n)
  }

  /** Between two visits: whole components are visited. */
  ghost predicate Between(w: Working, f: Forest, base: seq<GraphNode>, edges: seq<GraphEdge>, byId: map<Id, nat>)
  {
    && Mirrors(w, f, base, edges)
    && Sound(f, edges)
    && Levelled(f, Associations(edges), |f.order|)
    && f.depth.Keys <= byId.Keys
  }

  lemma StartMirrors(w: Working, f: Forest, base: seq<GraphNode>, edges: seq<GraphEdge>, byId: map<Id, nat>, id: Id)
    requires Mirrors(w, f, base, edges) && IsIndex(base, byId) && id in byId && id !in f.depth
    requires f.parent.Keys <= f.depth.Keys
    ensures Mirrors(Working(w.nodes[byId[id] := w.nodes[byId[id]].(depth := Some(0))], w.edges,
                            w.visited + {id}, w.rootIds + [id]), Start(f, id), base, edges)
  {
  }

  lemma DiscoverMirrors(w: Working, f: Forest, base: seq<GraphNode>, edges: seq<GraphEdge>, byId: map<Id, nat>,
                        j: nat, parent: Id, child: Id)
    requires Mirrors(w, f, base, edges) && IsIndex(base, byId) && child in byId && parent in f.depth
    requires f.via.Keys == f.parent.Keys <= f.depth.Keys && child !in f.depth && j < |edges|
    ensures Mirrors(Working(w.nodes[byId[child] :=
      w.nodes[byId[child]].(parentId := Some(parent), depth := Some(f.depth[parent] + 1))],
                            w.edges[j := w.edges[j].(treeRole := Tree)],
                            w.visited + {child}, w.rootIds), Discover(f, j, parent, child), base, edges)
  {
    var g := Discover(f, j, parent, child);
    assert g.via.Values == f.via.Values + {j} by {
      assert g.via[child] == j;
      forall v | v in f.via.Values
        ensures v in g.via.Values
      {
        var x :| x in f.via && f.via[x] == v;
        assert x != child && g.via[x] == v;
      }
    }
  }

  lemma {:induction false} ListedSize(f: Forest, keys: set<Id>)
    requires Listed(f) && f.depth.Keys <= keys
    ensures |f.order| <= |keys|
  {
    OrderSize(f, |f.order|);
    SubsetSize(set i | 0 <= i < |f.order| :: f.order[i], keys);
  }

  lemma {:induction false} OrderSize(f: Forest, n: nat)
    requires Listed(f) && n <= |f.order|
    ensures |set i | 0 <= i < n :: f.order[i]| == n
  {
    var s := set i | 0 <= i < n :: f.order[i];
    if n == 0 {
      assert s == {};
    } else {
      OrderSize(f, n - 1);
      assert s == (set i | 0 <= i < n - 1 :: f.order[i]) + {f.order[n - 1]};
    }
  }

  /** During a visit that began at place `start`, with the nodes before `n` processed
      and only nodes before `m` used as parents. */
  ghost predicate During(w: Working, f: Forest, base: seq<GraphNode>, edges: seq<GraphEdge>, byId: map<Id, nat>,
                         start: nat, n: nat, m: nat)
  {
    && Mirrors(w, f, base, edges)
    && Sound(f, edges)
    && Frontier(f, Associations(edges), start, n)
    && ParentsWithin(f, m)
    && f.depth.Keys <= byId.Keys
  }

  /** `g` comes later than `f` in the same visit. */
  ghost predicate Later(f: Forest, g: Forest)
  {
    g.rootIds == f.rootIds && f.depth.Keys <= g.depth.Keys && f.order <= g.order
  }

  lemma EdgeReadable(w: Working, f: Forest, base: seq<GraphNode>, edges: seq<GraphEdge>, byId: map<Id, nat>,
                     start: nat, n: nat, j: nat)
    requires During(w, f, base, edges, byId, start, n, n + 1) && IsIndex(base, byId) && ClosedEdges(edges, byId)
    requires n < |f.order| && j < |edges|
    ensures |w.edges| == |edges| && w.edges[j].source == edges[j].source && w.edges[j].target == edges[j].target
    ensures edges[j].source in byId && edges[j].target in byId
    ensures w.visited == f.depth.Keys && w.rootIds == f.rootIds && f.order[n] in byId && f.order[n] in f.depth
    ensures |w.nodes| == |base| && forall x :: x in byId ==> byId[x] < |base|
    ensures w.nodes[byId[f.order[n]]].depth == Some(f.depth[f.order[n]])
  {
    assert edges[j] in edges;
  }

  lemma VisitedEdge(w: Working, f: Forest, base: seq<GraphNode>, edges: seq<GraphEdge>, byId: map<Id, nat>,
                    start: nat, n: nat, j: nat)
    requires During(w, f, base, edges, byId, start, n, n + 1)
    requires n < |f.order| && j < |edges| && IsAssociationEdge(edges[j]) && Touches(edges[j], f.order[n])
    requires Followed(f, edges, f.order[n], j) && OtherEnd(edges[j], f.order[n]) in f.depth
    ensures Followed(f, edges, f.order[n], j + 1)
  {
    AlreadyVisited(f, edges, start, n, j);
  }

  lemma NewEdgeDiscoverable(w: Working, f: Forest, base: seq<GraphNode>, edges: seq<GraphEdge>, byId: map<Id, nat>,
                            start: nat, n: nat, j: nat, child: Id)
    requires During(w, f, base, edges, byId, start, n, n + 1)
    requires n < |f.order| && j < |edges| && IsAssociationEdge(edges[j]) && Touches(edges[j], f.order[n])
    requires Followed(f, edges, f.order[n], j) && child == OtherEnd(edges[j], f.order[n]) && child !in f.depth
    ensures Discoverable(f, edges, n, j, child)
    ensures f.via.Keys == f.parent.Keys <= f.depth.Keys
  {
  }

  lemma NewEdge(w: Working, f: Forest, base: seq<GraphNode>, edges: seq<GraphEdge>, byId: map<Id, nat>,
                start: nat, n: nat, j: nat, child: Id)
    requires During(w, f, base, edges, byId, start, n, n + 1) && IsIndex(base, byId)
    requires n < |f.order| && j < |edges| && IsAssociationEdge(edges[j]) && Touches(edges[j], f.order[n])
    requires Followed(f, edges, f.order[n], j) && child == OtherEnd(edges[j], f.order[n]) && child !in f.depth
    requires child in byId && f.order[n] in f.depth && byId[child] < |w.nodes| && |w.edges| == |edges|
    ensures During(Working(w.nodes[byId[child] := w.nodes[byId[child]].(
                             parentId := Some(f.order[n]), depth := Some(f.depth[f.order[n]] + 1))],
                           w.edges[j := w.edges[j].(treeRole := Tree)], w.visited + {child}, w.rootIds),
                   Discover(f, j, f.order[n], child), base, edges, byId, start, n, n + 1)
    ensures Followed(Discover(f, j, f.order[n], child), edges, f.order[n], j + 1)
  {
    hide Sound, Mirrors, Frontier, ParentsWithin, Followed, IsIndex, IsAssociationEdge, Discoverable;
    NewEdgeDiscoverable(w, f, base, edges, byId, start, n, j, child);
    DiscoverStep(f, edges, start, n, j, child);
    DiscoverMirrors(w, f, base, edges, byId, j, f.order[n], child);
  }

  /** Follow one edge of the node at place `n` of the discovery order. */
  method FollowEdge(w0: Working, ghost base: seq<GraphNode>, edges: seq<GraphEdge>, byId: map<Id, nat>,
                    parent: Id, j: nat, queue0: seq<Id>, ghost start: nat, ghost n: nat, ghost f0: Forest)
    returns (w: Working, queue: seq<Id>, ghost f: Forest)
    requires IsIndex(base, byId) && ClosedEdges(edges, byId)
    requires During(w0, f0, base, edges, byId, start, n, n + 1)
    requires n < |f0.order| && f0.order[n] == parent
    requires j < |edges| && IsAssociationEdge(edges[j]) && Touches(edges[j], parent)
    requires Followed(f0, edges, parent, j)
    ensures During(w, f, base, edges, byId, start, n, n + 1)
    ensures Followed(f, edges, parent, j + 1)
    ensures Later(f0, f) && queue0 <= queue && f.order == f0.order + queue[|queue0|..]
  {
    hide During, IsIndex, ClosedEdges, Followed, IsAssociationEdge;
    EdgeReadable(w0, f0, base, edges, byId, start, n, j);
    w, queue, f := w0, queue0, f0;
    var child := w.edges[j].source;
    if child == parent {
      child := w.edges[j].target;
    }
    if child in w.visited {
      VisitedEdge(w, f, base, edges, byId, start, n, j);
    } else {
      NewEdge(w, f, base, edges, byId, start, n, j, child);
      w := Working(w.nodes[byId[child] := w.nodes[byId[child]].(
                     parentId := Some(parent), depth := Some(w.nodes[byId[parent]].depth.value + 1))],
                   w.edges[j := w.edges[j].(treeRole := Tree)], w.visited + {child}, w.rootIds);
      queue := queue + [child];
      f := Discover(f, j, parent, child);
    }
  }

  /** Follow all edges of the node at place `n` of the discovery order. */
  method FollowEdges(w0: Working, ghost base: seq<GraphNode>, edges: seq<GraphEdge>, byId: map<Id, nat>,
                     adjacency: map<Id, seq<nat>>, parent: Id, queue0: seq<Id>,
                     ghost start: nat, ghost n: nat, ghost f0: Forest)
    returns (w: Working, queue: seq<Id>, ghost f: Forest)
    requires IsIndex(base, byId) && ClosedEdges(edges, byId) && IsAdjacency(edges, adjacency, |edges|)
    requires During(w0, f0, base, edges, byId, start, n, n)
    requires n < |f0.order| && f0.order[n] == parent
    ensures During(w, f, base, edges, byId, start, n + 1, n + 1)
    ensures Later(f0, f) && queue0 <= queue && f.order == f0.order + queue[|queue0|..]
  {
    hide During, IsIndex, ClosedEdges, IsAdjacency, Followed;
    w, queue, f := w0, queue0, f0;
    var list := Neighbours(adjacency, parent);
    var k := 0;
    BeginNode(w, f, base, edges, byId, start, n);
    while k < |list|
      invariant 0 <= k <= |list|
      invariant During(w, f, base, edges, byId, start, n, n + 1)
      invariant Later(f0, f) && queue0 <= queue && f.order == f0.order + queue[|queue0|..]
      invariant Followed(f, edges, parent, if k == 0 then 0 else list[k - 1] + 1)
    {
      SkipToNext(f, edges, adjacency, parent, k);
      ghost var queued := queue;
      w, queue, f := FollowEdge(w, base, edges, byId, parent, list[k], queue, start, n, f);
      assert queue[|queue0|..] == queued[|queue0|..] + queue[|queued|..];
      k := k + 1;
    }
    LastFollowed(f, edges, adjacency, parent);
    EndNode(w, f, base, edges, byId, start, n);
  }

  lemma BeginNode(w: Working, f: Forest, base: seq<GraphNode>, edges: seq<GraphEdge>, byId: map<Id, nat>, start: nat,
                  n: nat)
    requires During(w, f, base, edges, byId, start, n, n) && n < |f.order|
    ensures During(w, f, base, edges, byId, start, n, n + 1)
    ensures Followed(f, edges, f.order[n], 0)
  {
  }

  lemma EndNode(w: Working, f: Forest, base: seq<GraphNode>, edges: seq<GraphEdge>, byId: map<Id, nat>, start: nat,
                n: nat)
    requires During(w, f, base, edges, byId, start, n, n + 1) && n < |f.order|
    requires Followed(f, edges, f.order[n], |edges|)
    ensures During(w, f, base, edges, byId, start, n + 1, n + 1)
  {
    Processed(f, edges, start, n);
  }

  lemma BeginVisit(w: Working, f: Forest, base: seq<GraphNode>, edges: seq<GraphEdge>, byId: map<Id, nat>, id: Id)
    requires Between(w, f, base, edges, byId) && IsIndex(base, byId) && id in byId && id !in w.visited
    ensures id !in f.depth && byId[id] < |w.nodes|
    ensures During(Working(w.nodes[byId[id] := w.nodes[byId[id]].(depth := Some(0))], w.edges,
                           w.visited + {id}, w.rootIds + [id]),
                   Start(f, id), base, edges, byId, |f.order|, |f.order|, |f.order|)
  {
    StartSound(f, edges, id);
    StartFrontier(f, Associations(edges), id);
    StartMirrors(w, f, base, edges, byId, id);
  }

  lemma DuringSize(w: Working, f: Forest, base: seq<GraphNode>, edges: seq<GraphEdge>, byId: map<Id, nat>, start: nat,
                   n: nat)
    requires During(w, f, base, edges, byId, start, n, n)
    ensures |f.order| <= |byId.Keys|
  {
    ListedSize(f, byId.Keys);
  }

  lemma EndVisit(w: Working, f: Forest, base: seq<GraphNode>, edges: seq<GraphEdge>, byId: map<Id, nat>, start: nat)
    requires During(w, f, base, edges, byId, start, |f.order|, |f.order|)
    ensures Between(w, f, base, edges, byId)
  {
  }

  /** Breadth-first discovery of the component of `id`. */
  method Visit(w0: Working, ghost base: seq<GraphNode>, edges: seq<GraphEdge>, byId: map<Id, nat>,
               adjacency: map<Id, seq<nat>>, id: Id, ghost f0: Forest)
    returns (w: Working, ghost f: Forest)
    requires IsIndex(base, byId) && ClosedEdges(edges, byId) && IsAdjacency(edges, adjacency, |edges|)
    requires Between(w0, f0, base, edges, byId)
    requires id in byId && id !in w0.visited
    ensures Between(w, f, base, edges, byId)
    ensures f.rootIds == f0.rootIds + [id]
    ensures f0.depth.Keys + {id} <= f.depth.Keys
  {
    hide During, Between, IsIndex, ClosedEdges, IsAdjacency;
    ghost var start := |f0.order|;
    BeginVisit(w0, f0, base, edges, byId, id);
    f := Start(f0, id);
    w := Working(w0.nodes[byId[id] := w0.nodes[byId[id]].(depth := Some(0))], w0.edges, w0.visited + {id},
      w0.rootIds + [id]);
    ghost var first := f;
    var queue := [id];
    var head := 0;
    while head < |queue|
      invariant 0 <= head <= |queue|
      invariant f.order == f0.order + queue
      invariant During(w, f, base, edges, byId, start, start + head, start + head)
      invariant Later(first, f)
      decreases |byId.Keys| - start - head
    {
      DuringSize(w, f, base, edges, byId, start, start + head);
      w, queue, f := FollowEdges(w, base, edges, byId, adjacency, queue[head], queue, start, start + head, f);
      head := head + 1;
    }
    EndVisit(w, f, base, edges, byId, start);
  }

  /** Between two consecutive edges of a node there is no other edge of it. */
  lemma SkipToNext(f: Forest, edges: seq<GraphEdge>, adjacency: map<Id, seq<nat>>, p: Id, k: nat)
    requires IsAdjacency(edges, adjacency, |edges|) && k < |Neighbours(adjacency, p)|
    requires Followed(f, edges, p, if k == 0 then 0 else Neighbours(adjacency, p)[k - 1] + 1)
    ensures var j := Neighbours(adjacency, p)[k];
      j < |edges| && IsAssociationEdge(edges[j]) && Touches(edges[j], p) && Followed(f, edges, p, j)
  {
    var list := Neighbours(adjacency, p);
    forall i | 0 <= i < list[k] && i < |edges| && IsAssociationEdge(edges[i]) && Touches(edges[i], p)
      ensures i < if k == 0 then 0 else list[k - 1] + 1
    {
      assert AtEdge(edges, p, i);
      var l :| 0 <= l < |list| && list[l] == i;
      assert l < k;
    }
  }

  lemma LastFollowed(f: Forest, edges: seq<GraphEdge>, adjacency: map<Id, seq<nat>>, p: Id)
    requires IsAdjacency(edges, adjacency, |edges|)
    requires var list := Neighbours(adjacency, p); Followed(f, edges, p, if list == [] then 0 else list[|list| - 1] + 1)
    ensures Followed(f, edges, p, |edges|)
  {
    var list := Neighbours(adjacency, p);
    forall i | 0 <= i < |edges| && IsAssociationEdge(edges[i]) && Touches(edges[i], p)
      ensures i < if list == [] then 0 else list[|list| - 1] + 1
    {
      assert AtEdge(edges, p, i);
      var l :| 0 <= l < |list| && list[l] == i;
    }
  }

  /** A neighbour that is already visited is at most one level deeper. */
  lemma AlreadyVisited(f: Forest, edges: seq<GraphEdge>, base: nat, n: nat, j: nat)
    requires Listed(f) && Frontier(f, Associations(edges), base, n) && n < |f.order| && j < |edges|
    requires IsAssociationEdge(edges[j]) && Touches(edges[j], f.order[n])
    requires Followed(f, edges, f.order[n], j)
    requires OtherEnd(edges[j], f.order[n]) in f.depth
    ensures Followed(f, edges, f.order[n], j + 1)
  {
    var p, c := f.order[n], OtherEnd(edges[j], f.order[n]);
    AssociationEdge(edges, j);
    assert Adjacent(Associations(edges), c, p);
    assert Adjacent(Associations(edges), p, c);
    assert f.pos[c] >= base;
    assert f.order[f.pos[c]] == c;
  }

  // ----- preparation: sorting, closing, indexing -----

  function ResetNode(n: GraphNode): GraphNode
  {
    n.(parentId := None, depth := None, role := if n.kind == "device" then "client" else n.kind)
  }

  function AllSecondary(edges: seq<GraphEdge>): (r: seq<GraphEdge>)
    ensures |r| == |edges| && forall j :: 0 <= j < |edges| ==> r[j] == edges[j].(treeRole := Secondary)
  {
    seq(|edges|, j requires 0 <= j < |edges| => edges[j].(treeRole := Secondary))
  }

  /** The edges with both endpoints present, all secondary, in their given order. */
  function CloseEdges(edges: seq<GraphEdge>, ids: set<Id>): seq<GraphEdge>
  {
    AllSecondary(KeepClosed(edges, ids))
  }

  lemma CloseEdgesMembers(edges: seq<GraphEdge>, ids: set<Id>, e: GraphEdge)
    requires e in CloseEdges(edges, ids)
    ensures e.source in ids && e.target in ids && e.treeRole == Secondary
    ensures exists o :: o in edges && o.kind == e.kind
  {
    var kept := KeepClosed(edges, ids);
    var j :| 0 <= j < |kept| && e == kept[j].(treeRole := Secondary);
    KeepClosedMembers(edges, ids);
    assert kept[j] in kept;
  }

  method IndexNodes(sorted: seq<GraphNode>) returns (nodes: seq<GraphNode>, byId: map<Id, nat>)
    requires UniqueNodes(sorted)
    ensures |nodes| == |sorted| && forall i :: 0 <= i < |nodes| ==> nodes[i] == ResetNode(sorted[i])
    ensures IsIndex(nodes, byId)
  {
    nodes, byId := sorted, map[];
    var i := 0;
    while i < |nodes|
      invariant 0 <= i <= |nodes| == |sorted|
      invariant forall k :: 0 <= k < i ==> nodes[k] == ResetNode(sorted[k])
      invariant forall k :: i <= k < |nodes| ==> nodes[k] == sorted[k]
      invariant forall k :: 0 <= k < i ==> nodes[k].id in byId && byId[nodes[k].id] == k
      invariant forall x :: x in byId ==> byId[x] < i && nodes[byId[x]].id == x
    {
      assert forall k :: 0 <= k < i ==> NodeId(sorted[k]) != NodeId(sorted[i]);
      byId := byId[nodes[i].id := i];
      nodes := nodes[i := nodes[i].(parentId := None, depth := None, role := nodes[i].kind)];
      if nodes[i].kind == "device" {
        nodes := nodes[i := nodes[i].(role := "client")];
      }
      i := i + 1;
    }
  }

  method CloseOver(sorted: seq<GraphEdge>, byId: map<Id, nat>) returns (closed: seq<GraphEdge>)
    ensures closed == CloseEdges(sorted, byId.Keys)
    ensures ClosedEdges(closed, byId)
  {
    closed := [];
    for i := 0 to |sorted|
      invariant closed == CloseEdges(sorted[..i], byId.Keys)
    {
      assert sorted[..i + 1][..i] == sorted[..i];
      var edge := sorted[i];
      if edge.source in byId && edge.target in byId {
        closed := closed + [edge.(treeRole := Secondary)];
      }
    }
    assert sorted[..|sorted|] == sorted;
    forall e | e in closed
      ensures e.source in byId && e.target in byId
    {
      CloseEdgesMembers(sorted, byId.Keys, e);
    }
  }

  method BuildAdjacency(edges: seq<GraphEdge>) returns (adjacency: map<Id, seq<nat>>)
    ensures IsAdjacency(edges, adjacency, |edges|)
  {
    adjacency := map[];
    for i := 0 to |edges|
      invariant IsAdjacency(edges, adjacency, i)
    {
      hide *;
      var edge := edges[i];
      ListMore(edges, adjacency, i);
      if IsGraphAssociation(edge.kind) && edge.source != edge.target {
        adjacency := adjacency[edge.source := Neighbours(adjacency, edge.source) + [i]];
        adjacency := adjacency[edge.target := Neighbours(adjacency, edge.target) + [i]];
      }
    }
  }

  lemma ListMore(edges: seq<GraphEdge>, adjacency: map<Id, seq<nat>>, i: nat)
    requires i < |edges| && IsAdjacency(edges, adjacency, i)
    ensures
      var e := edges[i];
      if IsGraphAssociation(e.kind) && e.source != e.target then
        var half := adjacency[e.source := Neighbours(adjacency, e.source) + [i]];
        IsAdjacency(edges, half[e.target := Neighbours(half, e.target) + [i]], i + 1)
      else IsAdjacency(edges, adjacency, i + 1)
  {
    var e := edges[i];
    var half := adjacency[e.source := Neighbours(adjacency, e.source) + [i]];
    var full := half[e.target := Neighbours(half, e.target) + [i]];
    if IsAssociationEdge(e) {
      forall x
        ensures ListsEdgesOf(edges, Neighbours(full, x), x, i + 1)
      {
        NeighboursNext(adjacency, e, i, x);
        ListAt(edges, adjacency, i, x);
      }
    } else {
      forall x
        ensures ListsEdgesOf(edges, Neighbours(adjacency, x), x, i + 1)
      {
        ListAt(edges, adjacency, i, x);
      }
    }
    hide ListsEdgesOf;
  }

  /** Both ends of an edge get it as one more neighbour edge. */
  lemma NeighboursNext(adjacency: map<Id, seq<nat>>, e: GraphEdge, i: nat, x: Id)
    requires e.source != e.target
    ensures var half := adjacency[e.source := Neighbours(adjacency, e.source) + [i]];
      Neighbours(half[e.target := Neighbours(half, e.target) + [i]], x) ==
        if Touches(e, x) then Neighbours(adjacency, x) + [i] else Neighbours(adjacency, x)
  {
  }

  lemma ListAt(edges: seq<GraphEdge>, adjacency: map<Id, seq<nat>>, i: nat, x: Id)
    requires i < |edges| && IsAdjacency(edges, adjacency, i)
    ensures ListsEdgesOf(edges,
      if IsAssociationEdge(edges[i]) && Touches(edges[i], x) then Neighbours(adjacency, x) + [i]
        else Neighbours(adjacency, x), x, i + 1)
  {
    assert ListsEdgesOf(edges, Neighbours(adjacency, x), x, i);
    hide IsAdjacency, ListsEdgesOf;
    ListNext(edges, Neighbours(adjacency, x), x, i);
  }

  lemma ListNext(edges: seq<GraphEdge>, list: seq<nat>, x: Id, i: nat)
    requires i < |edges| && ListsEdgesOf(edges, list, x, i)
    ensures ListsEdgesOf(edges, if IsAssociationEdge(edges[i]) && Touches(edges[i], x) then list + [i]
      else list, x, i + 1)
  {
    assert AtEdge(edges, x, i) <==> IsAssociationEdge(edges[i]) && Touches(edges[i], x);
    hide AtEdge, IsAssociationEdge, Touches;
    if AtEdge(edges, x, i) {
      ListGrows(edges, list, x, i);
    }
  }

  lemma ListGrows(edges: seq<GraphEdge>, list: seq<nat>, x: Id, i: nat)
    requires ListsEdgesOf(edges, list, x, i) && AtEdge(edges, x, i)
    ensures ListsEdgesOf(edges, list + [i], x, i + 1)
  {
    hide AtEdge;
    var more := list + [i];
    forall j {:trigger AtEdge(edges, x, j)} | 0 <= j < i + 1 && AtEdge(edges, x, j)
      ensures j in more
    {
      assert j < i ==> j in list;
      assert more[|list|] == i;
    }
  }

  // ----- the whole forest -----

  /** The role shown for a node of the given kind. */
  function RoleOf(id: Id, kind: string, rootId: Id): string
  {
    if id == rootId then (if kind == "ap" then "root_ap" else "root")
    else if kind == "device" then "client"
    else kind
  }

  /** Everything visited so far grew from leaders. */
  ghost predicate Led(f: Forest, kinds: map<Id, string>, links: Links, rootId: Id)
  {
    && (forall r :: r in f.rootIds ==> Leads(kinds, links, rootId, r))
    && RootsRanked(kinds, rootId, f.rootIds) && RootsAhead(f, kinds, rootId)
  }

  /** `kinds` describes the sorted, indexed nodes. */
  ghost predicate Described(base: seq<GraphNode>, kinds: map<Id, string>)
  {
    && (forall i :: 0 <= i < |base| ==> base[i].id in kinds && kinds[base[i].id] == base[i].kind)
    && (forall x :: x in kinds ==> exists i :: 0 <= i < |base| && base[i].id == x)
    && SortedBy(NodeId, base)
  }

  /** The nodes of `kind` (of any kind when it is empty) before `n` are visited. */
  ghost predicate Swept(f: Forest, base: seq<GraphNode>, kind: string, n: nat)
  {
    forall i :: 0 <= i < n && i < |base| && (kind == "" || base[i].kind == kind) ==> base[i].id in f.depth
  }

  lemma NextInSweep(f: Forest, base: seq<GraphNode>, kinds: map<Id, string>, links: Links, rootId: Id, kind: string,
                    i: nat)
    requires Listed(f) && Levelled(f, links, |f.order|) && Described(base, kinds)
    requires i < |base| && base[i].id !in f.depth && (kind == "" || base[i].kind == kind)
    requires kind == "ap" || (kind == "" && Swept(f, base, "ap", |base|))
    requires Swept(f, base, kind, i) && (rootId in kinds ==> rootId in f.depth)
    ensures Leads(kinds, links, rootId, base[i].id)
    ensures base[i].id in kinds && forall x :: x in kinds && x !in f.depth ==> Outranks(kinds, base[i].id, x)
  {
    var r := base[i].id;
    forall x | x in kinds && x !in f.depth
      ensures Outranks(kinds, r, x)
    {
      var j :| 0 <= j < |base| && base[j].id == x;
      if i < j {
        assert AtMost(NodeId(base[i]), NodeId(base[j]));
      }
    }
    NextLeads(f, kinds, links, rootId, r);
  }

  /** What a sweep keeps. */
  ghost predicate Sweeping(w: Working, f: Forest, base: seq<GraphNode>, edges: seq<GraphEdge>, byId: map<Id, nat>,
                           kinds: map<Id, string>, rootId: Id)
  {
    && IsIndex(base, byId)
    && Between(w, f, base, edges, byId)
    && Led(f, kinds, Associations(edges), rootId)
    && (rootId in kinds ==> rootId in f.depth)
  }

  lemma SweepReads(w: Working, f: Forest, base: seq<GraphNode>, edges: seq<GraphEdge>, byId: map<Id, nat>,
                   kinds: map<Id, string>, rootId: Id)
    requires Sweeping(w, f, base, edges, byId, kinds, rootId)
    ensures |w.nodes| == |base| && w.visited == f.depth.Keys && f.depth.Keys <= byId.Keys
    ensures forall i :: 0 <= i < |base| ==>
      w.nodes[i].id == base[i].id && w.nodes[i].kind == base[i].kind && base[i].id in byId
    ensures Listed(f) && Levelled(f, Associations(edges), |f.order|)
  {
  }

  lemma Swell(w: Working, f: Forest, g: Forest, base: seq<GraphNode>, edges: seq<GraphEdge>, byId: map<Id, nat>,
              kinds: map<Id, string>, rootId: Id, id: Id)
    requires IsIndex(base, byId) && Between(w, g, base, edges, byId)
    requires Led(f, kinds, Associations(edges), rootId) && Leads(kinds, Associations(edges), rootId, id)
    requires g.rootIds == f.rootIds + [id] && f.depth.Keys + {id} <= g.depth.Keys
    requires rootId in kinds ==> rootId in f.depth
    requires id in kinds && id !in f.depth && forall x :: x in kinds && x !in f.depth ==> Outranks(kinds, id, x)
    ensures Sweeping(w, g, base, edges, byId, kinds, rootId)
  {
    hide Between, IsIndex, Leads, RootsRanked, RootsAhead, Outranks;
    RootAdded(f, g, kinds, rootId, id);
  }

  /** Visit every unvisited node of `kind`, or of any kind, in identifier order. */
  method Sweep(w0: Working, ghost base: seq<GraphNode>, edges: seq<GraphEdge>, byId: map<Id, nat>,
               adjacency: map<Id, seq<nat>>, ghost kinds: map<Id, string>, ghost rootId: Id, kind: string,
               ghost f0: Forest)
    returns (w: Working, ghost f: Forest)
    requires ClosedEdges(edges, byId) && IsAdjacency(edges, adjacency, |edges|) && Described(base, kinds)
    requires Sweeping(w0, f0, base, edges, byId, kinds, rootId)
    requires kind == "ap" || (kind == "" && Swept(f0, base, "ap", |base|))
    ensures Sweeping(w, f, base, edges, byId, kinds, rootId)
    ensures Swept(f, base, kind, |base|)
  {
    hide Between, Described, IsAdjacency, ClosedEdges, IsIndex, Sweeping, Led, Listed, Levelled, Leads, Swept;
    assert Swept(f0, base, kind, 0) by { NoneSwept(f0, base, kind); }
    w, f := w0, f0;
    var i := 0;
    SweepReads(w, f, base, edges, byId, kinds, rootId);
    while i < |w.nodes|
      invariant 0 <= i <= |w.nodes| == |base|
      invariant Sweeping(w, f, base, edges, byId, kinds, rootId)
      invariant kind == "ap" || Swept(f, base, "ap", |base|)
      invariant Swept(f, base, kind, i)
    {
      SweepReads(w, f, base, edges, byId, kinds, rootId);
      var node := w.nodes[i];
      if node.id !in w.visited && (kind == "" || node.kind == kind) {
        SweepBetween(w, f, base, edges, byId, kinds, rootId);
        NextInSweep(f, base, kinds, Associations(edges), rootId, kind, i);
        ghost var before := f;
        w, f := Visit(w, base, edges, byId, adjacency, node.id, f);
        Swell(w, before, f, base, edges, byId, kinds, rootId, node.id);
        SweepReads(w, f, base, edges, byId, kinds, rootId);
        SweptStays(before, f, base, "ap", |base|);
        SweptStays(before, f, base, kind, i);
      }
      SweptMore(f, base, kind, i);
      i := i + 1;
    }
  }

  lemma NoneSwept(f: Forest, base: seq<GraphNode>, kind: string)
    ensures Swept(f, base, kind, 0)
  {
  }

  lemma SweptStays(f: Forest, g: Forest, base: seq<GraphNode>, kind: string, n: nat)
    requires f.depth.Keys <= g.depth.Keys
    ensures Swept(f, base, kind, n) ==> Swept(g, base, kind, n)
  {
  }

  lemma SweptMore(f: Forest, base: seq<GraphNode>, kind: string, i: nat)
    requires Swept(f, base, kind, i) && i < |base|
    requires (kind == "" || base[i].kind == kind) ==> base[i].id in f.depth
    ensures Swept(f, base, kind, i + 1)
  {
  }

  lemma SweepBetween(w: Working, f: Forest, base: seq<GraphNode>, edges: seq<GraphEdge>, byId: map<Id, nat>,
                     kinds: map<Id, string>, rootId: Id)
    requires Sweeping(w, f, base, edges, byId, kinds, rootId)
    ensures IsIndex(base, byId) && Between(w, f, base, edges, byId) && Led(f, kinds, Associations(edges), rootId)
    ensures rootId in kinds ==> rootId in f.depth
  {
  }

  lemma KindMapOf(nodes: seq<GraphNode>, n: GraphNode)
    requires UniqueNodes(nodes) && n in nodes
    ensures n.id in KindMap(nodes) && KindMap(nodes)[n.id] == n.kind
  {
    assert NodeId(n) == n.id;
  }

  lemma SortedKinds(nodesIn: seq<GraphNode>, sorted: seq<GraphNode>, nodes: seq<GraphNode>, i: nat)
    requires UniqueNodes(nodesIn) && i < |nodes| == |sorted| && sorted[i] in nodesIn
    requires nodes[i] == ResetNode(sorted[i])
    ensures nodes[i].id in KindMap(nodesIn) && KindMap(nodesIn)[nodes[i].id] == nodes[i].kind
  {
    KindMapOf(nodesIn, sorted[i]);
  }

  lemma SortedHolds(nodesIn: seq<GraphNode>, sorted: seq<GraphNode>, nodes: seq<GraphNode>, x: Id)
    requires UniqueNodes(nodesIn) && x in KindMap(nodesIn)
    requires forall n :: n in nodesIn ==> n in sorted
    requires |nodes| == |sorted| && forall i :: 0 <= i < |nodes| ==> nodes[i] == ResetNode(sorted[i])
    ensures exists i :: 0 <= i < |nodes| && nodes[i].id == x
  {
    var n :| n in nodesIn && n.id == x;
    var i :| 0 <= i < |sorted| && sorted[i] == n;
    assert nodes[i].id == x;
  }

  lemma SortedDescription(nodesIn: seq<GraphNode>, sorted: seq<GraphNode>, nodes: seq<GraphNode>)
    requires UniqueNodes(nodesIn) && SortedBy(NodeId, sorted) && (forall n :: n in sorted <==> n in nodesIn)
    requires |nodes| == |sorted| && forall i :: 0 <= i < |nodes| ==> nodes[i] == ResetNode(sorted[i])
    ensures Described(nodes, KindMap(nodesIn))
  {
    hide UniqueNodes, KindMap;
    forall i | 0 <= i < |nodes|
      ensures nodes[i].id in KindMap(nodesIn) && KindMap(nodesIn)[nodes[i].id] == nodes[i].kind
    {
      assert sorted[i] in sorted;
      SortedKinds(nodesIn, sorted, nodes, i);
    }
    forall x | x in KindMap(nodesIn)
      ensures exists i :: 0 <= i < |nodes| && nodes[i].id == x
    {
      SortedHolds(nodesIn, sorted, nodes, x);
    }
    assert forall i :: 0 <= i < |nodes| ==> NodeId(nodes[i]) == NodeId(sorted[i]);
  }

  lemma EmptyBetween(nodes: seq<GraphNode>, edges: seq<GraphEdge>, byId: map<Id, nat>)
    requires IsIndex(nodes, byId)
    requires forall i :: 0 <= i < |nodes| ==> nodes[i].parentId == None && nodes[i].depth == None
    requires forall e :: e in edges ==> e.treeRole == Secondary
    ensures Between(Working(nodes, edges, {}, []), Forest(map[], map[], map[], [], map[], []), nodes, edges, byId)
  {
  }

  lemma RoleBetween(w: Working, f: Forest, base: seq<GraphNode>, edges: seq<GraphEdge>, byId: map<Id, nat>, i: nat,
                    role: string)
    requires Between(w, f, base, edges, byId) && IsIndex(base, byId) && i < |base|
    ensures i < |w.nodes|
    ensures Between(w.(nodes := w.nodes[i := w.nodes[i].(role := role)]), f, base[i := base[i].(role := role)], edges,
      byId)
    ensures IsIndex(base[i := base[i].(role := role)], byId)
  {
  }

  /** The result keeps the records of the input in identifier order; only the traversal's own
      fields are new. */
  ghost predicate KeepsRecords(nodesIn: seq<GraphNode>, edgesIn: seq<GraphEdge>, rootId: Id,
                               nodes: seq<GraphNode>, edges: seq<GraphEdge>)
  {
    var sorted := SortBy(NodeId, nodesIn);
    var closed := CloseEdges(SortBy(EdgeId, edgesIn), NodeIds(nodesIn));
    && |nodes| == |sorted| && |edges| == |closed|
    && (forall i :: 0 <= i < |nodes| ==> nodes[i] == sorted[i].(
          parentId := nodes[i].parentId, depth := nodes[i].depth,
          role := RoleOf(sorted[i].id, sorted[i].kind, rootId)))
    && (forall j :: 0 <= j < |edges| ==> edges[j] == closed[j].(treeRole := edges[j].treeRole))
  }

  lemma KindMapKeys(nodes: seq<GraphNode>)
    requires UniqueNodes(nodes)
    ensures KindMap(nodes).Keys == NodeIds(nodes)
  {
  }

  lemma AllVisited(f: Forest, kinds: map<Id, string>, base: seq<GraphNode>, byId: map<Id, nat>)
    requires Described(base, kinds) && IsIndex(base, byId) && Swept(f, base, "", |base|) && f.depth.Keys <= byId.Keys
    ensures f.depth.Keys == kinds.Keys
  {
    forall x | x in f.depth.Keys
      ensures x in kinds
    {
      assert base[byId[x]].id == x;
    }
  }

  lemma MirrorShows(w: Working, f: Forest, base: seq<GraphNode>, edges: seq<GraphEdge>, byId: map<Id, nat>)
    requires Mirrors(w, f, base, edges) && IsIndex(base, byId)
    requires Swept(f, base, "", |base|) && f.depth.Keys <= byId.Keys
    ensures Shows(f, w.nodes, w.edges) && SameEvidence(edges, w.edges)
  {
    forall x | x in f.depth.Keys
      ensures x in NodeIds(w.nodes)
    {
      assert w.nodes[byId[x]] in w.nodes;
    }
  }

  /** Everything the sweeps achieve, in terms of the final records. */
  lemma Finish(w: Working, f: Forest, kinds: map<Id, string>, base: seq<GraphNode>, edges: seq<GraphEdge>,
               byId: map<Id, nat>, rootId: Id)
    requires Described(base, kinds)
    requires Sweeping(w, f, base, edges, byId, kinds, rootId) && Swept(f, base, "", |base|)
    ensures Shows(f, w.nodes, w.edges) && Complete(f, kinds, rootId, w.edges)
    ensures w.rootIds == f.rootIds && SameEvidence(edges, w.edges)
  {
    hide Described, IsIndex, Mirrors, Sound, Levelled, Swept, SameEvidence, Leads;
    SweepReads(w, f, base, edges, byId, kinds, rootId);
    AllVisited(f, kinds, base, byId);
    MirrorShows(w, f, base, edges, byId);
    MirrorRoots(w, f, base, edges);
    CompleteRoles(f, kinds, rootId, edges, w.edges);
  }

  lemma MirrorRoots(w: Working, f: Forest, base: seq<GraphNode>, edges: seq<GraphEdge>)
    requires Mirrors(w, f, base, edges)
    ensures w.rootIds == f.rootIds
  {
  }

  /** The base records: sorted, reset, with the role the root will be shown with. */
  ghost predicate IsBase(nodesIn: seq<GraphNode>, base: seq<GraphNode>, rootId: Id, rooted: bool)
  {
    var sorted := SortBy(NodeId, nodesIn);
    |base| == |sorted| && forall i :: 0 <= i < |base| ==>
      base[i] == if rooted then ResetNode(sorted[i]).(role := RoleOf(sorted[i].id, sorted[i].kind, rootId))
                 else ResetNode(sorted[i])
  }

  /** Sort, reset and index the nodes; sort and close the edges. */
  method Prepare(nodesIn: seq<GraphNode>, edgesIn: seq<GraphEdge>, ghost rootId: Id)
    returns (nodes: seq<GraphNode>, edges: seq<GraphEdge>, byId: map<Id, nat>)
    requires UniqueNodes(nodesIn)
    ensures IsBase(nodesIn, nodes, rootId, false) && Described(nodes, KindMap(nodesIn))
    ensures edges == CloseEdges(SortBy(EdgeId, edgesIn), NodeIds(nodesIn))
    ensures IsIndex(nodes, byId) && ClosedEdges(edges, byId) && byId.Keys == NodeIds(nodesIn)
    ensures Between(Working(nodes, edges, {}, []), Forest(map[], map[], map[], [], map[], []), nodes, edges, byId)
  {
    var sorted := SortBy(NodeId, nodesIn);
    SameMembers(sorted, nodesIn);
    SortBySorted(NodeId, nodesIn);
    DistinctReordered(NodeId, nodesIn, sorted);
    hide SortBy, SortedBy, Between, ClosedEdges, Described, CloseEdges, UniqueNodes;
    UniqueMeansDistinct(sorted);
    nodes, byId := IndexNodes(sorted);
    IndexKeys(nodesIn, sorted, nodes, byId);
    edges := CloseOver(SortBy(EdgeId, edgesIn), byId);
    SortedDescription(nodesIn, sorted, nodes);
    forall e | e in edges
      ensures e.treeRole == Secondary
    {
      CloseEdgesMembers(SortBy(EdgeId, edgesIn), byId.Keys, e);
    }
    EmptyBetween(nodes, edges, byId);
  }

  lemma UniqueMeansDistinct(nodes: seq<GraphNode>)
    requires DistinctBy(NodeId, nodes)
    ensures UniqueNodes(nodes)
  {
  }

  lemma IndexKeys(nodesIn: seq<GraphNode>, sorted: seq<GraphNode>, nodes: seq<GraphNode>, byId: map<Id, nat>)
    requires IsIndex(nodes, byId) && (forall n :: n in sorted <==> n in nodesIn)
    requires |nodes| == |sorted| && forall i :: 0 <= i < |nodes| ==> nodes[i] == ResetNode(sorted[i])
    ensures byId.Keys == NodeIds(nodesIn)
  {
    forall x | x in byId
      ensures x in NodeIds(nodesIn)
    {
      assert sorted[byId[x]] in sorted;
    }
    forall n | n in nodesIn
      ensures n.id in byId
    {
      var i :| 0 <= i < |sorted| && sorted[i] == n;
      assert nodes[i].id == n.id;
    }
  }

  /** The records that a finished traversal leaves. */
  lemma FinalRecords(nodesIn: seq<GraphNode>, edgesIn: seq<GraphEdge>, rootId: Id,
                     base: seq<GraphNode>, edges: seq<GraphEdge>, w: Working, f: Forest)
    requires IsBase(nodesIn, base, rootId, true)
    requires edges == CloseEdges(SortBy(EdgeId, edgesIn), NodeIds(nodesIn))
    requires Mirrors(w, f, base, edges) && SameEvidence(edges, w.edges)
    ensures KeepsRecords(nodesIn, edgesIn, rootId, w.nodes, w.edges)
  {
    hide SortBy, CloseEdges, RoleOf;
  }

  lemma RoleDescribed(base: seq<GraphNode>, kinds: map<Id, string>, i: nat, role: string)
    requires Described(base, kinds) && i < |base|
    ensures Described(base[i := base[i].(role := role)], kinds)
  {
    var b := base[i := base[i].(role := role)];
    forall k | 0 <= k < |b|
      ensures b[k].id == base[k].id && b[k].kind == base[k].kind && NodeId(b[k]) == NodeId(base[k])
    {
    }
    forall x | x in kinds
      ensures exists k :: 0 <= k < |b| && b[k].id == x
    {
      var k :| 0 <= k < |base| && base[k].id == x;
      assert b[k].id == x;
    }
  }

  lemma RootRole(nodesIn: seq<GraphNode>, base: seq<GraphNode>, byId: map<Id, nat>, rootId: Id)
    requires IsBase(nodesIn, base, rootId, false) && IsIndex(base, byId)
    ensures rootId !in byId ==> IsBase(nodesIn, base, rootId, true)
    ensures rootId in byId ==>
      var i := byId[rootId];
      IsBase(nodesIn, base[i := base[i].(role := if base[i].kind == "ap" then "root_ap" else "root")], rootId, true)
  {
    hide SortBy;
  }

  /** The requested root leads its component, and is visited first. */
  lemma RootSweeping(w: Working, f: Forest, base: seq<GraphNode>, edges: seq<GraphEdge>, byId: map<Id, nat>,
                     kinds: map<Id, string>, rootId: Id)
    requires IsIndex(base, byId) && Between(w, f, base, edges, byId) && kinds.Keys == byId.Keys
    requires if rootId in byId then f.rootIds == [rootId] && rootId in f.depth else f.rootIds == []
    ensures Sweeping(w, f, base, edges, byId, kinds, rootId)
  {
    hide Between, IsIndex;
  }

  lemma SweepMirrors(w: Working, f: Forest, base: seq<GraphNode>, edges: seq<GraphEdge>, byId: map<Id, nat>,
                     kinds: map<Id, string>, rootId: Id)
    requires Sweeping(w, f, base, edges, byId, kinds, rootId)
    ensures Mirrors(w, f, base, edges)
  {
  }

  lemma CompleteSound(f: Forest, kinds: map<Id, string>, rootId: Id, edges: seq<GraphEdge>)
    requires Complete(f, kinds, rootId, edges)
    ensures Sound(f, edges)
  {
  }

  /** Visit the requested root, when it is present, and show its role. */
  method VisitRoot(ghost nodesIn: seq<GraphNode>, base0: seq<GraphNode>, edges: seq<GraphEdge>, byId: map<Id, nat>,
                   adjacency: map<Id, seq<nat>>, ghost kinds: map<Id, string>, rootId: Id)
    returns (w: Working, ghost base: seq<GraphNode>, ghost f: Forest)
    requires IsBase(nodesIn, base0, rootId, false) && Described(base0, kinds)
    requires IsIndex(base0, byId) && ClosedEdges(edges, byId) && IsAdjacency(edges, adjacency, |edges|)
    requires Between(Working(base0, edges, {}, []), Forest(map[], map[], map[], [], map[], []), base0, edges, byId)
    requires kinds.Keys == byId.Keys
    ensures IsBase(nodesIn, base, rootId, true) && Described(base, kinds)
    ensures Sweeping(w, f, base, edges, byId, kinds, rootId)
  {
    hide IsBase, Described, IsIndex, ClosedEdges, IsAdjacency, Between, Sweeping;
    w, f, base := Working(base0, edges, {}, []), Forest(map[], map[], map[], [], map[], []), base0;
    RootRole(nodesIn, base, byId, rootId);
    if rootId in byId {
      w, f := Visit(w, base, edges, byId, adjacency, rootId, f);
      var i := byId[rootId];
      BetweenReads(w, f, base, edges, byId, i, rootId);
      var role := if w.nodes[i].kind == "ap" then "root_ap" else "root";
      RoleBetween(w, f, base, edges, byId, i, role);
      RoleDescribed(base, kinds, i, role);
      w := w.(nodes := w.nodes[i := w.nodes[i].(role := role)]);
      base := base[i := base[i].(role := role)];
    }
    RootSweeping(w, f, base, edges, byId, kinds, rootId);
  }

  lemma BetweenReads(w: Working, f: Forest, base: seq<GraphNode>, edges: seq<GraphEdge>, byId: map<Id, nat>, i: nat,
                     id: Id)
    requires Between(w, f, base, edges, byId) && IsIndex(base, byId) && id in byId && byId[id] == i
    ensures i < |base| == |w.nodes| && w.nodes[i].kind == base[i].kind
  {
  }

  /** An undirected spanning forest of the association evidence, grown breadth first from
      one leader of each component. */
  method BuildPresentationTree(nodesIn: seq<GraphNode>, edgesIn: seq<GraphEdge>, rootId: Id)
    returns (nodes: seq<GraphNode>, edges: seq<GraphEdge>, hierarchy: GraphHierarchy, ghost f: Forest)
    requires UniqueNodes(nodesIn)
    ensures KeepsRecords(nodesIn, edgesIn, rootId, nodes, edges)
    ensures hierarchy.rootId == rootId
    ensures RootsLead(KindMap(nodesIn), edges, rootId, hierarchy.rootIds)
    ensures ShortestDepths(nodes, edges, hierarchy.rootIds)
    ensures ParentsMarked(nodes, edges, hierarchy.rootIds)
    ensures Shows(f, nodes, edges) && Complete(f, KindMap(nodesIn), rootId, edges) && f.rootIds == hierarchy.rootIds
  {
    hide *;
    ghost var kinds := KindMap(nodesIn);
    var ns, es, byId := Prepare(nodesIn, edgesIn, rootId);
    KindMapKeys(nodesIn);
    var adjacency := BuildAdjacency(es);
    var w;
    ghost var base;
    w, base, f := VisitRoot(nodesIn, ns, es, byId, adjacency, kinds, rootId);
    w, f := Sweep(w, base, es, byId, adjacency, kinds, rootId, "ap", f);
    w, f := Sweep(w, base, es, byId, adjacency, kinds, rootId, "", f);
    Finish(w, f, kinds, base, es, byId, rootId);
    SweepMirrors(w, f, base, es, byId, kinds, rootId);
    nodes, edges, hierarchy := w.nodes, w.edges, GraphHierarchy(rootId, w.rootIds);
    FinalRecords(nodesIn, edgesIn, rootId, base, es, w, f);
    ForestRoots(f, kinds, rootId, edges);
    ForestDepths(f, kinds, rootId, nodes, edges);
    CompleteSound(f, kinds, rootId, edges);
    ForestParents(f, nodes, edges);
  }
}
