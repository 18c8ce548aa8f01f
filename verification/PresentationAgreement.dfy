/** The forest that the server builds is the one that the client draws. */
module PresentationAgreement {
  import opened Ids
  import opened Walks
  import opened GraphModel
  import opened PresentationForest
  import PresentationTree
  import opened ParentCycles
  import opened HierarchyEvidence
  import opened HierarchyLayout

  /** The records carry mapped edge kinds and no empty identifier. */
  ghost predicate Wired(nodes: seq<GraphNode>, edges: seq<GraphEdge>)
  {
    && UniqueNodes(nodes)
    && "" !in NodeIds(nodes)
    && (forall e :: e in edges ==> e.kind != "observed_at" && e.source in NodeIds(nodes) && e.target in NodeIds(nodes))
  }

  /** A finished forest whose requested root is one of the nodes. */
  ghost predicate ServedForest(f: Forest, kinds: map<Id, string>, rootId: Id, nodes: seq<GraphNode>,
                               edges: seq<GraphEdge>)
  {
    Wired(nodes, edges) && Shows(f, nodes, edges) && Complete(f, kinds, rootId, edges) && rootId in NodeIds(nodes)
  }

  ghost function Served(f: Forest, rootId: Id): Option<GraphHierarchy>
  {
    Some(GraphHierarchy(rootId, f.rootIds))
  }

  // ----- what the client sees of a served forest -----

  /** `x` hangs one level below an adjacent parent, with evidence for the client. */
  ghost predicate Hung(f: Forest, edges: seq<GraphEdge>, x: Id)
  {
    && x in f.parent && x in f.depth && f.parent[x] in f.depth
    && f.depth[x] == f.depth[f.parent[x]] + 1
    && Pair(x, f.parent[x]) in TreePairs(edges)
    && Adjacent(Associations(edges), x, f.parent[x])
  }

  ghost predicate RootOrHung(f: Forest, edges: seq<GraphEdge>, x: Id)
  {
    if x in f.parent then x !in f.rootIds && Hung(f, edges, x) else x in f.rootIds && x in f.depth && f.depth[x] == 0
  }

  /** Every node is a root or hangs from its parent, and the records say so. */
  ghost predicate Drawable(f: Forest, rootId: Id, nodes: seq<GraphNode>, edges: seq<GraphEdge>)
  {
    && UniqueNodes(nodes)
    && "" !in f.depth && f.depth.Keys == NodeIds(nodes) && f.parent.Keys <= f.depth.Keys
    && rootId in f.rootIds
    && (forall x {:trigger RootOrHung(f, edges, x)} :: x in f.depth ==> RootOrHung(f, edges, x))
    && (forall n {:trigger ShownNode(f, n)} :: n in nodes ==> ShownNode(f, n))
  }

  /** Two connected roots are the same. */
  ghost predicate OneRootEach(f: Forest, edges: seq<GraphEdge>)
  {
    forall r, s :: r in f.rootIds && s in f.rootIds && Connected(Associations(edges), r, s) ==> r == s
  }

  lemma ServedHung(f: Forest, nodes: seq<GraphNode>, edges: seq<GraphEdge>, x: Id)
    requires Wired(nodes, edges) && Shows(f, nodes, edges) && Sound(f, edges) && x in f.parent
    ensures Hung(f, edges, x)
  {
    assert Hangs(f, Associations(edges), x);
    hide Sound;
    ParentFacts(f, edges, x);
    var e := edges[f.via[x]];
    assert e in edges && e.treeRole == Tree;
    assert IsTreeEvidence(e) && Joins(e, x, f.parent[x]);
    TreePairJoins(edges, x, f.parent[x]);
  }

  /** A finished forest is drawable, with one root in each component. */
  lemma ServedDrawable(f: Forest, kinds: map<Id, string>, rootId: Id, nodes: seq<GraphNode>, edges: seq<GraphEdge>)
    requires ServedForest(f, kinds, rootId, nodes, edges)
    ensures Drawable(f, rootId, nodes, edges) && OneRootEach(f, edges)
  {
    assert forall x :: x in f.rootIds ==> x in f.depth && f.depth[x] == 0;
    assert f.parent.Keys <= f.depth.Keys;
    hide Sound;
    ForestRoots(f, kinds, rootId, edges);
    ViaKeys(f, edges);
    assert Leads(kinds, Associations(edges), rootId, rootId);
    forall x | x in f.depth
      ensures RootOrHung(f, edges, x)
    {
      if x in f.parent {
        ServedHung(f, nodes, edges, x);
      }
    }
    hide Leads, Connected, Hung;
    forall r, s | r in f.rootIds && s in f.rootIds && Connected(Associations(edges), r, s)
      ensures r == s
    {
      LeaderUnique(kinds, Associations(edges), rootId, r, s);
    }
  }

  lemma ByIdUnique(nodes: seq<GraphNode>, n: GraphNode)
    requires UniqueNodes(nodes) && n in nodes
    ensures n.id in ById(nodes) && ById(nodes)[n.id] == n
  {
    var i :| 0 <= i < |nodes| && nodes[i] == n;
    assert forall j :: 0 <= j < i ==> NodeId(nodes[j]) != NodeId(nodes[i]);
    ByIdFirst(nodes, i);
  }

  // ----- what the client makes of it -----

  lemma ServedVerdict(f: Forest, rootId: Id, nodes: seq<GraphNode>, edges: seq<GraphEdge>, x: Id)
    requires Drawable(f, rootId, nodes, edges) && x in ById(nodes)
    ensures Judge(ById(nodes), RootIds(Served(f, rootId)), TreePairs(edges), x) ==
      if x in f.parent then Accept(f.parent[x]) else NoParent
  {
    hide TreePairs, Pair, ById;
    var n :| n in nodes && n.id == x;
    ByIdUnique(nodes, n);
    hide UniqueNodes;
    assert RootOrHung(f, edges, x) && ShownNode(f, n);
  }

  lemma ServedAccepted(f: Forest, rootId: Id, nodes: seq<GraphNode>, edges: seq<GraphEdge>)
    requires Drawable(f, rootId, nodes, edges)
    ensures AcceptedParents(nodes, edges, Served(f, rootId)) == f.parent
  {
    hide Judge, TreePairs, RootIds;
    forall x | x in ById(nodes)
      ensures Judge(ById(nodes), RootIds(Served(f, rootId)), TreePairs(edges), x) ==
        if x in f.parent then Accept(f.parent[x]) else NoParent
    {
      ServedVerdict(f, rootId, nodes, edges, x);
    }
  }

  lemma ServedRejections(f: Forest, rootId: Id, nodes: seq<GraphNode>, edges: seq<GraphEdge>, ids: seq<Id>)
    requires Drawable(f, rootId, nodes, edges) && forall i :: 0 <= i < |ids| ==> ids[i] in ById(nodes)
    ensures Rejections(ById(nodes), RootIds(Served(f, rootId)), TreePairs(edges), ids) == []
  {
    hide *;
    var byId, rootIds, pairs := ById(nodes), RootIds(Served(f, rootId)), TreePairs(edges);
    forall i | 0 <= i < |ids|
      ensures !Judge(byId, rootIds, pairs, ids[i]).Rejected?
    {
      ServedVerdict(f, rootId, nodes, edges, ids[i]);
    }
    NoRejections(byId, rootIds, pairs, ids);
  }

  lemma ServedDepths(f: Forest, rootId: Id, nodes: seq<GraphNode>, edges: seq<GraphEdge>)
    requires Drawable(f, rootId, nodes, edges)
    ensures Depths(f.parent, NodeIds(nodes), f.depth) && f.parent.Keys <= NodeIds(nodes)
  {
    hide TreePairs, Pair, Associations, Adjacent;
    forall x | x in NodeIds(nodes)
      ensures DepthAt(f.parent, NodeIds(nodes), f.depth, x)
    {
      assert RootOrHung(f, edges, x);
    }
  }

  /** A forest has no cycle to cut. */
  lemma NothingCut(P0: Pointers, P: Pointers, cuts: seq<Id>, C: set<Id>, depth: map<Id, nat>)
    requires CutsEveryCycleOnce(P0, P, cuts) && Depths(P0, C, depth) && P0.Keys <= C
    ensures cuts == [] && P == P0
  {
    if cuts != [] {
      assert cuts[0] in cuts;
      NoCycle(P0, C, depth, cuts[0]);
    }
  }

  lemma {:induction false} AncestorIsRoot(f: Forest, rootId: Id, nodes: seq<GraphNode>, edges: seq<GraphEdge>, x: Id)
    requires Drawable(f, rootId, nodes, edges) && x in NodeIds(nodes) && Depths(f.parent, NodeIds(nodes), f.depth)
    ensures var r := Ancestor(f.parent, NodeIds(nodes), f.depth, x);
      r in f.rootIds && Connected(Associations(edges), x, r)
    decreases f.depth[x]
  {
    var links := Associations(edges);
    assert DepthAt(f.parent, NodeIds(nodes), f.depth, x);
    assert RootOrHung(f, edges, x);
    if x in f.parent {
      var p := f.parent[x];
      AncestorIsRoot(f, rootId, nodes, edges, p);
      ConnectedStep(links, x, p);
      ConnectedTransitive(links, x, p, Ancestor(f.parent, NodeIds(nodes), f.depth, p));
    } else {
      ConnectedReflexive(links, x);
    }
  }

  /** The end of a chain is the root that it is connected to. */
  lemma AncestorOf(f: Forest, rootId: Id, nodes: seq<GraphNode>, edges: seq<GraphEdge>, x: Id, r: Id)
    requires Drawable(f, rootId, nodes, edges) && OneRootEach(f, edges)
    requires x in NodeIds(nodes) && Depths(f.parent, NodeIds(nodes), f.depth)
    requires r in f.rootIds && Connected(Associations(edges), x, r)
    ensures Ancestor(f.parent, NodeIds(nodes), f.depth, x) == r
  {
    hide Depths, Connected, Ancestor, Drawable;
    var links := Associations(edges);
    var a := Ancestor(f.parent, NodeIds(nodes), f.depth, x);
    AncestorIsRoot(f, rootId, nodes, edges, x);
    ConnectedSymmetric(links, x, r);
    ConnectedTransitive(links, r, x, a);
  }

  // ----- across the interface -----

  function MapKind(e: GraphEdge): GraphEdge
  {
    e.(kind := MapGraphEdgeKind(e.kind))
  }

  /** The edges as they are read from the projection. */
  function MapKinds(rows: seq<GraphEdge>): (r: seq<GraphEdge>)
    ensures |r| == |rows| && forall i :: 0 <= i < |rows| ==> r[i] == MapKind(rows[i])
  {
    seq(|rows|, i requires 0 <= i < |rows| => MapKind(rows[i]))
  }

  /** Two edge kinds are renamed on the way to the client; nothing else of an edge changes. */
  lemma KindsMapped(rows: seq<GraphEdge>, i: nat)
    requires i < |rows|
    ensures var e := MapKinds(rows)[i];
      && e.id == rows[i].id && e.source == rows[i].source && e.target == rows[i].target
           && e.treeRole == rows[i].treeRole
      && (rows[i].kind == "observed_at" ==> e.kind == "association")
      && (rows[i].kind == "identity_member" ==> e.kind == "cluster_member")
      && (rows[i].kind !in {"observed_at", "identity_member"} ==> e.kind == rows[i].kind)
  {
  }

  lemma BuiltNodes(nodesIn: seq<GraphNode>, edgesIn: seq<GraphEdge>, rootId: Id, nodes: seq<GraphNode>,
                   edges: seq<GraphEdge>)
    requires UniqueNodes(nodesIn) && PresentationTree.KeepsRecords(nodesIn, edgesIn, rootId, nodes, edges)
    ensures UniqueNodes(nodes) && NodeIds(nodes) == NodeIds(nodesIn)
  {
    hide SortBy, PresentationTree.CloseEdges;
    var sorted := SortBy(NodeId, nodesIn);
    SortBySorted(NodeId, nodesIn);
    DistinctReordered(NodeId, nodesIn, sorted);
    assert forall i :: 0 <= i < |nodes| ==> NodeId(nodes[i]) == NodeId(sorted[i]);
    assert NodeIds(sorted) == NodeIds(nodesIn);
    forall x | x in NodeIds(sorted)
      ensures x in NodeIds(nodes)
    {
      var i :| 0 <= i < |sorted| && sorted[i].id == x;
      assert nodes[i] in nodes;
    }
    forall x | x in NodeIds(nodes)
      ensures x in NodeIds(sorted)
    {
      var i :| 0 <= i < |nodes| && nodes[i].id == x;
      assert sorted[i] in sorted;
    }
  }

  lemma BuiltEdges(nodesIn: seq<GraphNode>, rows: seq<GraphEdge>, rootId: Id, nodes: seq<GraphNode>,
                   edges: seq<GraphEdge>)
    requires PresentationTree.KeepsRecords(nodesIn, MapKinds(rows), rootId, nodes, edges)
    ensures forall e :: e in edges ==>
      e.kind != "observed_at" && e.source in NodeIds(nodesIn) && e.target in NodeIds(nodesIn)
  {
    hide SortBy, PresentationTree.CloseEdges, PresentationTree.RoleOf;
    var sorted := SortBy(EdgeId, MapKinds(rows));
    SortBySorted(EdgeId, MapKinds(rows));
    var closed := PresentationTree.CloseEdges(sorted, NodeIds(nodesIn));
    forall e | e in edges
      ensures e.kind != "observed_at" && e.source in NodeIds(nodesIn) && e.target in NodeIds(nodesIn)
    {
      var j :| 0 <= j < |edges| && edges[j] == e;
      var c := closed[j];
      assert c in closed;
      PresentationTree.CloseEdgesMembers(sorted, NodeIds(nodesIn), c);
      var o :| o in sorted && o.kind == c.kind;
      assert o in MapKinds(rows);
    }
  }

  /** The depth that the client draws: the server's depth, one more exactly under a root that is
      neither an access point nor the requested root. */
  ghost predicate SameDepths(nodes: seq<GraphNode>, edges: seq<GraphEdge>, hierarchy: GraphHierarchy,
                             layoutDepth: map<Id, nat>)
  {
    forall n, r ::
      n in nodes && r in nodes && r.id in hierarchy.rootIds && Connected(Associations(edges), n.id, r.id) ==>
      && n.id in layoutDepth && n.depth.Some?
      && layoutDepth[n.id] == n.depth.value + if r.kind != "ap" && r.id != hierarchy.rootId then 1 else 0
  }

  ghost predicate SameParents(nodes: seq<GraphNode>, parentOf: Pointers)
  {
    forall n :: n in nodes ==> Lookup(parentOf, n.id) == n.parentId
  }

  lemma DrawnDepth(f: Forest, rootId: Id, nodes: seq<GraphNode>, edges: seq<GraphEdge>, layout: Layout, m: Making,
                   n: GraphNode, r: GraphNode)
    requires Drawable(f, rootId, nodes, edges) && OneRootEach(f, edges) && Depths(f.parent, NodeIds(nodes), f.depth)
    requires m.frame.unattached == UnattachedIds(f.parent, ById(nodes), Served(f, rootId))
    requires LayoutDepths(layout.layoutDepth, m.frame, f.parent, NodeIds(nodes), f.depth)
    requires n in nodes && r in nodes && r.id in f.rootIds && Connected(Associations(edges), n.id, r.id)
    ensures n.id in layout.layoutDepth && n.depth.Some?
    ensures layout.layoutDepth[n.id] == n.depth.value + if r.kind != "ap" && r.id != rootId then 1 else 0
  {
    hide Depths, Ancestor, Connected, Associations, ById, UnattachedIds, RootOrHung, UniqueNodes, OneRootEach;
    assert n.id in NodeIds(nodes) && ShownNode(f, n);
    assert HangsUnattached(m.frame, f.parent, NodeIds(nodes), f.depth, n.id)
      <==> Ancestor(f.parent, NodeIds(nodes), f.depth, n.id) in m.frame.unattached;
    AncestorOf(f, rootId, nodes, edges, n.id, r.id);
    UnattachedRoot(f, rootId, nodes, edges, r);
  }

  lemma SameLayout(f: Forest, rootId: Id, nodes: seq<GraphNode>, edges: seq<GraphEdge>, layout: Layout, m: Making)
    requires Drawable(f, rootId, nodes, edges) && OneRootEach(f, edges) && Depths(f.parent, NodeIds(nodes), f.depth)
    requires layout.parentOf == f.parent
    requires m.frame.unattached == UnattachedIds(f.parent, ById(nodes), Served(f, rootId))
    requires LayoutDepths(layout.layoutDepth, m.frame, f.parent, NodeIds(nodes), f.depth)
    ensures SameParents(nodes, layout.parentOf)
    ensures SameDepths(nodes, edges, GraphHierarchy(rootId, f.rootIds), layout.layoutDepth)
  {
    hide Depths, LayoutDepths, Connected, Associations, RootOrHung, UniqueNodes, OneRootEach, UnattachedIds, ById,
      Served;
    forall n | n in nodes
      ensures Lookup(layout.parentOf, n.id) == n.parentId
    {
      assert ShownNode(f, n);
    }
    forall n, r | n in nodes && r in nodes && r.id in f.rootIds && Connected(Associations(edges), n.id, r.id)
      ensures n.id in layout.layoutDepth && n.depth.Some?
      ensures layout.layoutDepth[n.id] == n.depth.value + if r.kind != "ap" && r.id != rootId then 1 else 0
    {
      hide Drawable;
      DrawnDepth(f, rootId, nodes, edges, layout, m, n, r);
    }
  }

  lemma UnattachedRoot(f: Forest, rootId: Id, nodes: seq<GraphNode>, edges: seq<GraphEdge>, r: GraphNode)
    requires Drawable(f, rootId, nodes, edges) && r in nodes && r.id in f.rootIds
    ensures r.id in UnattachedIds(f.parent, ById(nodes), Served(f, rootId)) <==> r.kind != "ap" && r.id != rootId
  {
    hide ById;
    assert r.id in f.depth && RootOrHung(f, edges, r.id);
    ByIdUnique(nodes, r);
  }

  lemma NoIssues(f: Forest, rootId: Id, nodes: seq<GraphNode>, edges: seq<GraphEdge>, ids: seq<Id>, missing: nat,
                 issues: seq<Issue>)
    requires Drawable(f, rootId, nodes, edges) && Wired(nodes, edges) && rootId in NodeIds(nodes)
    requires IssuesAre(nodes, edges, Served(f, rootId), ids, [], missing, issues)
    requires missing == |edges| - |KeepClosed(edges, NodeIds(nodes))|
    ensures issues == [] && missing == 0
  {
    hide Drawable, Rejections, ById, Duplicates, KeepClosed;
    NoDuplicates(nodes);
    ServedRejections(f, rootId, nodes, edges, ids);
    KeepClosedAll(edges, NodeIds(nodes));
  }

  lemma IsServed(f: Forest, rootId: Id, nodesIn: seq<GraphNode>, rows: seq<GraphEdge>, nodes: seq<GraphNode>,
                 edges: seq<GraphEdge>)
    requires UniqueNodes(nodesIn) && "" !in NodeIds(nodesIn) && rootId in NodeIds(nodesIn)
    requires PresentationTree.KeepsRecords(nodesIn, MapKinds(rows), rootId, nodes, edges)
    requires Shows(f, nodes, edges) && Complete(f, KindMap(nodesIn), rootId, edges)
    ensures ServedForest(f, KindMap(nodesIn), rootId, nodes, edges)
  {
    hide Shows, Complete, MapKinds, PresentationTree.KeepsRecords;
    BuiltNodes(nodesIn, MapKinds(rows), rootId, nodes, edges);
    BuiltEdges(nodesIn, rows, rootId, nodes, edges);
  }

  /** What the server builds for a root among the nodes, the client draws without an issue: the same
      parents, and depths that differ only under the roots it groups as unattached. */
  method ServeAndDraw(nodesIn: seq<GraphNode>, rows: seq<GraphEdge>, rootId: Id)
    returns (nodes: seq<GraphNode>, edges: seq<GraphEdge>, hierarchy: GraphHierarchy, layout: Layout)
    requires UniqueNodes(nodesIn) && "" !in NodeIds(nodesIn) && rootId in NodeIds(nodesIn)
    ensures PresentationTree.KeepsRecords(nodesIn, MapKinds(rows), rootId, nodes, edges)
    ensures hierarchy.rootId == rootId && RootsLead(KindMap(nodesIn), edges, rootId, hierarchy.rootIds)
    ensures ParentsMarked(nodes, edges, hierarchy.rootIds) && IsLayoutOf(nodes, edges, Some(hierarchy), layout)
    ensures layout.issues == [] && layout.missingRelationships == 0
    ensures SameParents(nodes, layout.parentOf)
    ensures SameDepths(nodes, edges, hierarchy, layout.layoutDepth)
    ensures ShortestDepths(nodes, edges, hierarchy.rootIds)
  {
    hide *;
    ghost var f;
    nodes, edges, hierarchy, f := PresentationTree.BuildPresentationTree(nodesIn, MapKinds(rows), rootId);
    IsServed(f, rootId, nodesIn, rows, nodes, edges);
    ServedHierarchy(f, rootId, hierarchy);
    layout := BuildHierarchyLayout(nodes, edges, Some(hierarchy));
    Agree(f, KindMap(nodesIn), rootId, nodes, edges, layout);
  }

  /** Any forest the server can build is accepted unchanged. */
  lemma Agree(f: Forest, kinds: map<Id, string>, rootId: Id, nodes: seq<GraphNode>, edges: seq<GraphEdge>,
              layout: Layout)
    requires ServedForest(f, kinds, rootId, nodes, edges)
    requires IsLayoutOf(nodes, edges, Served(f, rootId), layout)
    ensures layout.issues == [] && layout.missingRelationships == 0
    ensures SameParents(nodes, layout.parentOf)
    ensures SameDepths(nodes, edges, GraphHierarchy(rootId, f.rootIds), layout.layoutDepth)
  {
    hide *;
    var m := LayoutMaking(nodes, edges, Served(f, rootId), layout);
    AgreeMade(f, kinds, rootId, nodes, edges, layout, m);
  }

  lemma LayoutMaking(nodes: seq<GraphNode>, edges: seq<GraphEdge>, hierarchy: Option<GraphHierarchy>, layout: Layout)
    returns (m: Making)
    requires IsLayoutOf(nodes, edges, hierarchy, layout)
    ensures MadeBy(nodes, edges, hierarchy, layout, m)
  {
    hide MadeBy;
    m :| MadeBy(nodes, edges, hierarchy, layout, m);
  }

  lemma ServedHierarchy(f: Forest, rootId: Id, hierarchy: GraphHierarchy)
    requires hierarchy.rootId == rootId && hierarchy.rootIds == f.rootIds
    ensures Served(f, rootId) == Some(hierarchy) && hierarchy == GraphHierarchy(rootId, f.rootIds)
  {
  }

  lemma AgreeMade(f: Forest, kinds: map<Id, string>, rootId: Id, nodes: seq<GraphNode>, edges: seq<GraphEdge>,
                  layout: Layout, m: Making)
    requires ServedForest(f, kinds, rootId, nodes, edges) && MadeBy(nodes, edges, Served(f, rootId), layout, m)
    ensures layout.issues == [] && layout.missingRelationships == 0
    ensures SameParents(nodes, layout.parentOf)
    ensures SameDepths(nodes, edges, GraphHierarchy(rootId, f.rootIds), layout.layoutDepth)
  {
    ServedDrawable(f, kinds, rootId, nodes, edges);
    hide Drawable, OneRootEach, Wired, Shows, Complete, Served, CutsEveryCycleOnce, AcceptedParents, Depths, SingleTree,
      LayoutDepths, IssuesAre, KeepClosed, SortBy, SameParents, SameDepths, NodeIds, ById, UnattachedIds, RowsFor,
        IdList, FreshFrame;
    ServedAccepted(f, rootId, nodes, edges);
    ServedDepths(f, rootId, nodes, edges);
    NothingCut(f.parent, layout.parentOf, m.cuts, NodeIds(nodes), f.depth);
    DepthsUnique(f.parent, NodeIds(nodes), m.depth, f.depth);
    SortBySorted(EdgeId, KeepClosed(edges, NodeIds(nodes)));
    NoIssues(f, rootId, nodes, edges, m.ids, layout.missingRelationships, layout.issues);
    SameLayout(f, rootId, nodes, edges, layout, m);
  }
}
