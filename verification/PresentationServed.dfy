/** The records that the server sends for a presentation tree, said of the records it read. */
module PresentationServed {
  import opened Ids
  import opened Walks
  import opened GraphModel
  import opened PresentationForest
  import opened PresentationTree

  /** The nodes come once each, in identifier order, with their kind and caption, and with the role of
      their kind; the requested root has a role of its own. */
  lemma NodesServed(nodesIn: seq<GraphNode>, edgesIn: seq<GraphEdge>, rootId: Id, nodes: seq<GraphNode>,
                    edges: seq<GraphEdge>)
    requires UniqueNodes(nodesIn) && KeepsRecords(nodesIn, edgesIn, rootId, nodes, edges)
    ensures StrictlySortedBy(NodeId, nodes) && |nodes| == |nodesIn|
    ensures forall n :: n in nodes ==>
      exists m :: m in nodesIn && m.id == n.id && m.kind == n.kind && m.caption == n.caption
    ensures forall n :: n in nodes ==>
      n.role == if n.id == rootId then (if n.kind == "ap" then "root_ap" else "root")
                else if n.kind == "device" then "client"
                else n.kind
  {
    var sorted := SortBy(NodeId, nodesIn);
    SortBySorted(NodeId, nodesIn);
    UniqueMeansStrict(nodesIn);
    hide SortBy, CloseEdges, UniqueNodes;
    forall i | 0 <= i < |nodes|
      ensures nodes[i].id == sorted[i].id && sorted[i] in nodesIn
    {
      assert sorted[i] in sorted;
    }
    forall i, j | 0 <= i < j < |nodes|
      ensures Before(NodeId(nodes[i]), NodeId(nodes[j]))
    {
      assert Before(NodeId(sorted[i]), NodeId(sorted[j]));
    }
  }

  lemma UniqueMeansStrict(nodes: seq<GraphNode>)
    requires UniqueNodes(nodes)
    ensures StrictlySortedBy(NodeId, SortBy(NodeId, nodes))
  {
    SortByStrict(NodeId, nodes);
  }

  /** `e` and `o` are one edge, but for its mark. */
  predicate SameEdge(e: GraphEdge, o: GraphEdge)
  {
    e.id == o.id && e.source == o.source && e.target == o.target && e.kind == o.kind
  }

  /** The edges between nodes come in identifier order, each marked as in the tree or as secondary. */
  lemma EdgesServed(nodesIn: seq<GraphNode>, edgesIn: seq<GraphEdge>, rootId: Id, nodes: seq<GraphNode>,
                    edges: seq<GraphEdge>, f: Forest)
    requires KeepsRecords(nodesIn, edgesIn, rootId, nodes, edges) && Shows(f, nodes, edges)
    ensures SortedBy(EdgeId, edges)
    ensures forall e :: e in edges ==> e.treeRole == Tree || e.treeRole == Secondary
    ensures forall e :: e in edges ==>
      e.source in NodeIds(nodesIn) && e.target in NodeIds(nodesIn) && exists o :: o in edgesIn && SameEdge(e, o)
    ensures forall o :: o in edgesIn && o.source in NodeIds(nodesIn) && o.target in NodeIds(nodesIn) ==>
      exists e :: e in edges && SameEdge(e, o)
    ensures |edges| == |KeepClosed(SortBy(EdgeId, edgesIn), NodeIds(nodesIn))|
  {
    var ids := NodeIds(nodesIn);
    var sorted := SortBy(EdgeId, edgesIn);
    var kept := KeepClosed(sorted, ids);
    SortBySorted(EdgeId, edgesIn);
    KeptSorted(sorted, ids);
    KeepClosedMembers(sorted, ids);
    RolesMarked(f, nodes, edges);
    EdgesKept(nodesIn, edgesIn, rootId, nodes, edges);
    hide SortBy, KeepClosed, KeepsRecords, Shows, NodeIds;
    forall i, j | 0 <= i < j < |edges|
      ensures AtMost(EdgeId(edges[i]), EdgeId(edges[j]))
    {
      assert AtMost(EdgeId(kept[i]), EdgeId(kept[j]));
    }
    forall e | e in edges
      ensures e.source in ids && e.target in ids && exists o :: o in edgesIn && SameEdge(e, o)
    {
      var i :| 0 <= i < |edges| && edges[i] == e;
      assert kept[i] in kept && SameEdge(e, kept[i]);
    }
    forall o | o in edgesIn && o.source in ids && o.target in ids
      ensures exists e :: e in edges && SameEdge(e, o)
    {
      assert o in kept;
      var i :| 0 <= i < |kept| && kept[i] == o;
      assert edges[i] in edges && SameEdge(edges[i], o);
    }
  }

  lemma EdgesKept(nodesIn: seq<GraphNode>, edgesIn: seq<GraphEdge>, rootId: Id, nodes: seq<GraphNode>,
                  edges: seq<GraphEdge>)
    requires KeepsRecords(nodesIn, edgesIn, rootId, nodes, edges)
    ensures var kept := KeepClosed(SortBy(EdgeId, edgesIn), NodeIds(nodesIn));
      |edges| == |kept| && forall i :: 0 <= i < |edges| ==> SameEdge(edges[i], kept[i])
  {
    hide SortBy, KeepClosed, NodeIds;
  }

  lemma RolesMarked(f: Forest, nodes: seq<GraphNode>, edges: seq<GraphEdge>)
    requires Shows(f, nodes, edges)
    ensures forall e :: e in edges ==> e.treeRole == Tree || e.treeRole == Secondary
  {
  }

  lemma {:induction false} KeptSorted(edges: seq<GraphEdge>, ids: set<Id>)
    requires SortedBy(EdgeId, edges)
    ensures SortedBy(EdgeId, KeepClosed(edges, ids))
  {
    if edges != [] {
      var front, last := edges[..|edges| - 1], edges[|edges| - 1];
      KeptSorted(front, ids);
      KeepClosedMembers(front, ids);
      forall e | e in KeepClosed(front, ids)
        ensures AtMost(EdgeId(e), EdgeId(last))
      {
        var i :| 0 <= i < |front| && front[i] == e;
        assert AtMost(EdgeId(edges[i]), EdgeId(edges[|edges| - 1]));
      }
    }
  }

  /** An edge of one of the three association kinds joins nodes of one component. */
  lemma SameComponent(edges: seq<GraphEdge>, e: GraphEdge)
    requires e in edges && e.kind in {"association", "observed_at", "observed_association"}
    ensures Connected(Associations(edges), e.source, e.target)
  {
    if e.source == e.target {
      ConnectedReflexive(Associations(edges), e.source);
    } else {
      AssociationKinds(edges, e.source, e.target);
      ConnectedStep(Associations(edges), e.source, e.target);
    }
  }
}
