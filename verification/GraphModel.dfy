/** The graph records that the server sends and the client draws. */
module GraphModel {
  import opened Ids
  import opened Walks

  datatype TreeRole = Unset | Secondary | Tree

  datatype GraphNode = GraphNode(
    id: Id,
    kind: string,
    caption: string,
    parentId: Option<Id>,
    depth: Option<nat>,
    role: string)

  datatype GraphEdge = GraphEdge(
    id: Id,
    source: Id,
    target: Id,
    kind: string,
    treeRole: TreeRole)

  datatype GraphHierarchy = GraphHierarchy(rootId: Id, rootIds: seq<Id>)

  function NodeId(n: GraphNode): Id { n.id }

  function EdgeId(e: GraphEdge): Id { e.id }

  function NodeIds(nodes: seq<GraphNode>): set<Id>
  {
    set n | n in nodes :: n.id
  }

  ghost predicate UniqueNodes(nodes: seq<GraphNode>)
  {
    DistinctBy(NodeId, nodes)
  }

  /** The kinds of evidence that may carry a presentation parent. */
  predicate IsGraphAssociation(kind: string)
  {
    kind == "association" || kind == "observed_at" || kind == "observed_association"
  }

  predicate IsAssociationEdge(e: GraphEdge)
  {
    IsGraphAssociation(e.kind) && e.source != e.target
  }

  /** `e` joins `x` and `y`, in either direction. */
  predicate Joins(e: GraphEdge, x: Id, y: Id)
  {
    (e.source == x && e.target == y) || (e.source == y && e.target == x)
  }

  ghost function Associations(edges: seq<GraphEdge>): Links
  {
    set e | e in edges && IsAssociationEdge(e) :: (e.source, e.target)
  }

  /** Edges of three kinds join their nodes, and no others do. */
  lemma AssociationKinds(edges: seq<GraphEdge>, x: Id, y: Id)
    ensures Adjacent(Associations(edges), x, y) <==> x != y && exists e ::
      && e in edges && ((e.source == x && e.target == y) || (e.source == y && e.target == x))
      && e.kind in {"association", "observed_at", "observed_association"}
  {
  }

  lemma AssociationEdge(edges: seq<GraphEdge>, j: nat)
    requires j < |edges| && IsAssociationEdge(edges[j])
    ensures Adjacent(Associations(edges), edges[j].source, edges[j].target)
    ensures Adjacent(Associations(edges), edges[j].target, edges[j].source)
  {
    assert edges[j] in edges;
    assert (edges[j].source, edges[j].target) in Associations(edges);
  }

  lemma AdjacentByEdge(edges: seq<GraphEdge>, x: Id, y: Id)
    requires Adjacent(Associations(edges), x, y)
    ensures exists j :: 0 <= j < |edges| && IsAssociationEdge(edges[j]) && Joins(edges[j], x, y)
  {
    var e :| e in edges && IsAssociationEdge(e) && Joins(e, x, y);
    var j :| 0 <= j < |edges| && edges[j] == e;
  }

  /** The server's wire mapping of edge kinds. */
  function MapGraphEdgeKind(kind: string): string
  {
    match kind
    case "observed_at" => "association"
    case "identity_member" => "cluster_member"
    case _ => kind
  }

  predicate Touches(e: GraphEdge, p: Id)
  {
    e.source == p || e.target == p
  }

  function OtherEnd(e: GraphEdge, p: Id): Id
  {
    if e.source == p then e.target else e.source
  }

  function KindMap(nodes: seq<GraphNode>): map<Id, string>
    requires UniqueNodes(nodes)
  {
    assert forall n, m :: n in nodes && m in nodes && NodeId(n) == NodeId(m) ==> n == m;
    map n | n in nodes :: n.id := n.kind
  }

  /** The edges with both endpoints among `ids`, in order. */
  function KeepClosed(edges: seq<GraphEdge>, ids: set<Id>): seq<GraphEdge>
  {
    if edges == [] then []
    else
      var e := edges[|edges| - 1];
      KeepClosed(edges[..|edges| - 1], ids) + if e.source in ids && e.target in ids then [e] else []
  }

  lemma {:induction false} KeepClosedMembers(edges: seq<GraphEdge>, ids: set<Id>)
    ensures forall e :: e in KeepClosed(edges, ids) <==> e in edges && e.source in ids && e.target in ids
    ensures |KeepClosed(edges, ids)| <= |edges|
  {
    if edges != [] {
      KeepClosedMembers(edges[..|edges| - 1], ids);
      assert edges == edges[..|edges| - 1] + [edges[|edges| - 1]];
    }
  }

  /** An edge is kept as often as it occurs, exactly when both its endpoints are present. */
  lemma {:induction false} KeepClosedCount(edges: seq<GraphEdge>, ids: set<Id>, e: GraphEdge)
    ensures multiset(KeepClosed(edges, ids))[e] ==
      if e.source in ids && e.target in ids then multiset(edges)[e] else 0
  {
    if edges != [] {
      var front, last := edges[..|edges| - 1], edges[|edges| - 1];
      KeepClosedCount(front, ids, e);
      assert edges == front + [last];
      assert multiset(edges) == multiset(front) + multiset{last};
    }
  }
}
