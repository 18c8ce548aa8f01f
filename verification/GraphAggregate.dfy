/** Above a size threshold, devices are drawn as one summary node per access point. */
module GraphAggregate {
  import opened Ids
  import opened Walks
  import opened GraphModel
  import opened Quotient

  // ----- which access point stands for a device -----

  /** The access points that `x` is associated with. */
  ghost function Candidates(kinds: map<Id, string>, edges: seq<GraphEdge>, x: Id): set<Id>
  {
    set e | e in edges && e.kind == "association" && Touches(e, x)
            && OtherEnd(e, x) in kinds && kinds[OtherEnd(e, x)] == "ap" :: OtherEnd(e, x)
  }

  lemma SmallerOfTwo(s: set<Id>, x: Id, m: Id)
    requires x in s && m in s && forall c :: c in s - {x} ==> AtMost(m, c)
    ensures forall c :: c in s ==> AtMost(if Before(x, m) then x else m, c)
  {
    BeforeTotal(x, m);
    forall c | c in s && c != x && c != m && Before(x, m)
      ensures Before(x, c)
    {
      assert c in s - {x} && AtMost(m, c);
      BeforeTransitive(x, m, c);
    }
  }

  ghost function Least(s: set<Id>): (m: Id)
    requires s != {}
    ensures m in s && forall c :: c in s ==> AtMost(m, c)
  {
    var x :| x in s;
    if s == {x} then x
    else
      var m := Least(s - {x});
      SmallerOfTwo(s, x, m);
      if Before(x, m) then x else m
  }

  lemma LeastUnique(s: set<Id>, m: Id)
    requires m in s && forall c :: c in s ==> AtMost(m, c)
    ensures m == Least(s)
  {
    var l := Least(s);
    if m != l {
      BeforeAsymmetric(m, l);
    }
  }

  /** The presentation parent when it is a candidate, else the smallest candidate. */
  ghost function Chosen(candidates: set<Id>, parent: Option<Id>): Option<Id>
  {
    if parent.Some? && parent.value != "" && parent.value in candidates then parent
    else if candidates == {} then None
    else Some(Least(candidates))
  }

  /** The access point a node is grouped under; only devices are grouped. */
  ghost function GroupOf(kinds: map<Id, string>, edges: seq<GraphEdge>, n: GraphNode): (r: Option<Id>)
    ensures r.Some? ==> n.kind == "device" && r.value != "" && r.value in Candidates(kinds, edges, n.id)
  {
    if n.kind != "device" then None
    else
      var c := Chosen(Candidates(kinds, edges, n.id), n.parentId);
      if c == Some("") then None else c
  }

  // ----- what is drawn for each node -----

  const AGGREGATE := "aggregate:"

  function SummaryId(ap: Id): Id
  {
    AGGREGATE + ap
  }

  predicate IsSummaryId(x: Id)
  {
    AGGREGATE <= x
  }

  lemma SummaryIdInjective(a: Id, b: Id)
    requires SummaryId(a) == SummaryId(b)
    ensures a == b
  {
    assert a == SummaryId(a)[|AGGREGATE|..] && b == SummaryId(b)[|AGGREGATE|..];
  }

  // ----- the drawing of one scene -----

  const GRAPH_AGGREGATE_THRESHOLD := 400

  /** The group of every grouped device. */
  ghost function Groups(nodes: seq<GraphNode>, kinds: map<Id, string>, edges: seq<GraphEdge>): map<Id, Id>
    requires UniqueNodes(nodes)
  {
    assert forall n, m :: n in nodes && m in nodes && NodeId(n) == NodeId(m) ==> n == m;
    map n | n in nodes && GroupOf(kinds, edges, n).Some? :: n.id := GroupOf(kinds, edges, n).value
  }

  ghost function MembersOf(groups: map<Id, Id>, ap: Id): set<Id>
  {
    set x | x in groups && groups[x] == ap
  }

  /** A group of several devices that is not expanded is drawn as one summary. */
  ghost predicate Summarised(groups: map<Id, Id>, expanded: set<Id>, ap: Id)
  {
    ap !in expanded && |MembersOf(groups, ap)| > 1
  }

  /** Where the drawing puts each node. */
  ghost function ImageMap(ids: set<Id>, groups: map<Id, Id>, expanded: set<Id>): Images
  {
    map x | x in ids ::
      if x in groups && Summarised(groups, expanded, groups[x]) then SummaryId(groups[x]) else x
  }

  datatype RenderNode =
    | Individual(node: GraphNode, groupId: Option<Id>)
    | Summary(summaryId: Id, apId: Id, occurrenceCount: nat)

  function RenderId(r: RenderNode): Id
  {
    match r
    case Individual(n, _) => n.id
    case Summary(id, _, _) => id
  }

  /** The group shown with a node drawn by itself. */
  ghost function TagOf(groups: map<Id, Id>, n: GraphNode): Option<Id>
  {
    if n.kind == "ap" then Some(n.id) else if n.id in groups then Some(groups[n.id]) else None
  }

  /** `r` is the right drawing of the node or group it stands for. */
  ghost predicate DrawnRight(nodes: seq<GraphNode>, groups: map<Id, Id>, expanded: set<Id>, r: RenderNode)
  {
    match r
    case Individual(n, tag) =>
      n in nodes && tag == TagOf(groups, n) && (n.id in groups ==> !Summarised(groups, expanded, groups[n.id]))
    case Summary(id, ap, count) =>
      id == SummaryId(ap) && Summarised(groups, expanded, ap) && count == |MembersOf(groups, ap)|
  }

  /** The drawing shows every node, alone or in its group's summary, with distinct identifiers. */
  ghost predicate Draws(nodes: seq<GraphNode>, groups: map<Id, Id>, expanded: set<Id>, rendered: seq<RenderNode>)
  {
    && (forall r :: r in rendered ==> DrawnRight(nodes, groups, expanded, r))
    && (forall n :: n in nodes ==> ImageMap(NodeIds(nodes), groups, expanded)[n.id] in RenderIds(rendered))
    && DistinctBy(RenderId, rendered)
  }

  ghost function RenderIds(rendered: seq<RenderNode>): set<Id>
  {
    set r | r in rendered :: RenderId(r)
  }

  // ----- conservation -----

  /** The nodes that a drawn node stands for. */
  ghost function Cover(groups: map<Id, Id>, r: RenderNode): set<Id>
  {
    match r
    case Individual(n, _) => {n.id}
    case Summary(_, ap, _) => MembersOf(groups, ap)
  }

  ghost function Shown(rendered: seq<RenderNode>): nat
  {
    if rendered == [] then 0
    else Shown(rendered[1..]) + match rendered[0] case Individual(_, _) => 1 case Summary(_, _, count) => count
  }

  ghost function CoverAll(groups: map<Id, Id>, rendered: seq<RenderNode>): set<Id>
  {
    if rendered == [] then {} else Cover(groups, rendered[0]) + CoverAll(groups, rendered[1..])
  }

  lemma CoversDisjoint(nodes: seq<GraphNode>, groups: map<Id, Id>, expanded: set<Id>, r: RenderNode, t: RenderNode)
    requires DrawnRight(nodes, groups, expanded, r) && DrawnRight(nodes, groups, expanded, t)
    requires RenderId(r) != RenderId(t)
    ensures Cover(groups, r) !! Cover(groups, t)
  {
  }

  lemma {:induction false} CoverAllMember(groups: map<Id, Id>, rendered: seq<RenderNode>, x: Id)
    ensures x in CoverAll(groups, rendered) <==> exists r :: r in rendered && x in Cover(groups, r)
  {
    if rendered != [] {
      CoverAllMember(groups, rendered[1..], x);
      assert rendered == [rendered[0]] + rendered[1..];
    }
  }

  lemma {:induction false} ShownIsCover(nodes: seq<GraphNode>, groups: map<Id, Id>, expanded: set<Id>,
                                        rendered: seq<RenderNode>)
    requires forall r :: r in rendered ==> DrawnRight(nodes, groups, expanded, r)
    requires DistinctBy(RenderId, rendered)
    ensures |CoverAll(groups, rendered)| == Shown(rendered)
  {
    if rendered != [] {
      var r, rest := rendered[0], rendered[1..];
      assert rendered == [r] + rest;
      ShownIsCover(nodes, groups, expanded, rest);
      forall x | x in Cover(groups, r)
        ensures x !in CoverAll(groups, rest)
      {
        CoverAllMember(groups, rest, x);
        forall t | t in rest
          ensures x !in Cover(groups, t)
        {
          CoversDisjoint(nodes, groups, expanded, r, t);
        }
      }
      assert DrawnRight(nodes, groups, expanded, r);
    }
  }

  /** Member counts plus nodes drawn alone are all the nodes. */
  lemma Conservation(nodes: seq<GraphNode>, groups: map<Id, Id>, expanded: set<Id>, rendered: seq<RenderNode>)
    requires UniqueNodes(nodes) && groups.Keys <= NodeIds(nodes)
    requires forall n :: n in nodes ==> !IsSummaryId(n.id)
    requires Draws(nodes, groups, expanded, rendered)
    ensures Shown(rendered) == |nodes|
  {
    ShownIsCover(nodes, groups, expanded, rendered);
    DistinctKeysCount(NodeId, nodes);
    assert KeySet(NodeId, nodes) == NodeIds(nodes);
    hide UniqueNodes, DistinctBy, KeySet, Shown, CoverAll;
    forall x | x in NodeIds(nodes)
      ensures x in CoverAll(groups, rendered)
    {
      Covered(nodes, groups, expanded, rendered, x);
    }
    forall x | x in CoverAll(groups, rendered)
      ensures x in NodeIds(nodes)
    {
      CoveredIsNode(nodes, groups, expanded, rendered, x);
    }
    assert CoverAll(groups, rendered) == NodeIds(nodes);
  }

  lemma Covered(nodes: seq<GraphNode>, groups: map<Id, Id>, expanded: set<Id>, rendered: seq<RenderNode>, x: Id)
    requires (forall n :: n in nodes ==> !IsSummaryId(n.id)) && Draws(nodes, groups, expanded, rendered)
      && x in NodeIds(nodes)
    ensures x in CoverAll(groups, rendered)
  {
    var n :| n in nodes && n.id == x;
    var r :| r in rendered && RenderId(r) == ImageMap(NodeIds(nodes), groups, expanded)[x];
    CoverAllMember(groups, rendered, x);
    assert DrawnRight(nodes, groups, expanded, r);
    DrawnFor(nodes, groups, expanded, r, x);
  }

  lemma CoveredIsNode(nodes: seq<GraphNode>, groups: map<Id, Id>, expanded: set<Id>, rendered: seq<RenderNode>, x: Id)
    requires Draws(nodes, groups, expanded, rendered) && groups.Keys <= NodeIds(nodes)
      && x in CoverAll(groups, rendered)
    ensures x in NodeIds(nodes)
  {
    CoverAllMember(groups, rendered, x);
    var r :| r in rendered && x in Cover(groups, r);
    assert DrawnRight(nodes, groups, expanded, r);
  }

  lemma DrawnFor(nodes: seq<GraphNode>, groups: map<Id, Id>, expanded: set<Id>, r: RenderNode, x: Id)
    requires DrawnRight(nodes, groups, expanded, r) && x in NodeIds(nodes)
    requires forall n :: n in nodes ==> !IsSummaryId(n.id)
    requires RenderId(r) == ImageMap(NodeIds(nodes), groups, expanded)[x]
    ensures x in Cover(groups, r)
  {
    if x in groups {
      assert AGGREGATE <= SummaryId(groups[x]);
      if r.Summary? && Summarised(groups, expanded, groups[x]) {
        SummaryIdInjective(r.apId, groups[x]);
      }
    }
    if r.Summary? {
      assert AGGREGATE <= SummaryId(r.apId);
    }
  }

  // ----- connectivity -----

  ghost function ClosedLinks(edges: seq<GraphEdge>): Links
  {
    set e | e in edges :: (e.source, e.target)
  }

  lemma GroupAdjacent(kinds: map<Id, string>, edges: seq<GraphEdge>, n: GraphNode)
    requires GroupOf(kinds, edges, n).Some?
    ensures Connected(ClosedLinks(edges), n.id, GroupOf(kinds, edges, n).value)
  {
    var ap := GroupOf(kinds, edges, n).value;
    var e :| e in edges && Touches(e, n.id) && OtherEnd(e, n.id) == ap;
    assert (e.source, e.target) in ClosedLinks(edges);
    ConnectedStep(ClosedLinks(edges), n.id, ap);
  }

  /** Nodes drawn as one are connected in the input, through their access point. */
  lemma ImagesContract(nodes: seq<GraphNode>, kinds: map<Id, string>, edges: seq<GraphEdge>, expanded: set<Id>)
    requires UniqueNodes(nodes) && forall n :: n in nodes ==> !IsSummaryId(n.id)
    ensures ContractsConnected(ClosedLinks(edges), ImageMap(NodeIds(nodes), Groups(nodes, kinds, edges), expanded))
  {
    var links, groups := ClosedLinks(edges), Groups(nodes, kinds, edges);
    var image := ImageMap(NodeIds(nodes), groups, expanded);
    forall x | x in groups
      ensures Connected(links, x, groups[x])
    {
      var n :| n in nodes && n.id == x && GroupOf(kinds, edges, n).Some?;
      GroupAdjacent(kinds, edges, n);
    }
    forall x, y | x in image && y in image && image[x] == image[y]
      ensures Connected(links, x, y)
    {
      ConnectedReflexive(links, x);
      if x != y {
        SameImage(nodes, groups, expanded, x, y);
        ConnectedSymmetric(links, y, groups[y]);
        ConnectedTransitive(links, x, groups[x], y);
      }
    }
  }

  lemma SameImage(nodes: seq<GraphNode>, groups: map<Id, Id>, expanded: set<Id>, x: Id, y: Id)
    requires forall n :: n in nodes ==> !IsSummaryId(n.id)
    requires x in NodeIds(nodes) && y in NodeIds(nodes) && x != y
    requires var image := ImageMap(NodeIds(nodes), groups, expanded); image[x] == image[y]
    ensures x in groups && y in groups && groups[x] == groups[y]
  {
    if x in groups {
      assert AGGREGATE <= SummaryId(groups[x]);
      if y in groups && SummaryId(groups[x]) == SummaryId(groups[y]) {
        SummaryIdInjective(groups[x], groups[y]);
      }
    }
    if y in groups {
      assert AGGREGATE <= SummaryId(groups[y]);
    }
  }

  // ----- drawn edges -----

  function EdgeKey(kind: string, s: Id, t: Id): Id
  {
    kind + ":" + s + ":" + t
  }

  /** An edge between the images of its endpoints, named by its kind and those images. */
  function Remapped(image: Images, e: GraphEdge): GraphEdge
    requires e.source in image && e.target in image
  {
    e.(id := EdgeKey(e.kind, image[e.source], image[e.target]), source := image[e.source], target := image[e.target])
  }

  ghost predicate EdgesInside(edges: seq<GraphEdge>, image: Images)
  {
    forall e :: e in edges ==> e.source in image && e.target in image
  }

  /** Edge `k` joins different images, and no earlier such edge has its key. */
  ghost predicate FirstWithKey(edges: seq<GraphEdge>, image: Images, k: nat)
    requires EdgesInside(edges, image)
  {
    && k < |edges| && image[edges[k].source] != image[edges[k].target]
    && forall j :: 0 <= j < k && image[edges[j].source] != image[edges[j].target] ==>
         Remapped(image, edges[j]).id != Remapped(image, edges[k]).id
  }

  /** `d` is drawn for edge `k`, the first with its key. */
  ghost predicate DrawnAs(edges: seq<GraphEdge>, image: Images, k: nat, d: GraphEdge)
    requires EdgesInside(edges, image)
  {
    FirstWithKey(edges, image, k) && d == Remapped(image, edges[k])
  }

  /** One drawn edge for each key, from the first edge with that key. */
  ghost predicate EdgesDrawn(edges: seq<GraphEdge>, image: Images, drawn: seq<GraphEdge>)
    requires EdgesInside(edges, image)
  {
    && DistinctBy(EdgeId, drawn)
    && (forall d :: d in drawn ==> exists k: nat :: DrawnAs(edges, image, k, d))
    && (forall e :: e in edges && image[e.source] != image[e.target] ==>
          exists d :: d in drawn && d.id == Remapped(image, e).id)
  }

  lemma EdgesDrawnFrom(edges: seq<GraphEdge>, image: Images, drawn: seq<GraphEdge>)
    requires EdgesInside(edges, image) && EdgesDrawn(edges, image, drawn)
    ensures DrawnFrom(ClosedLinks(edges), image, ClosedLinks(drawn))
  {
    forall l | l in ClosedLinks(drawn)
      ensures exists o :: IsImage(ClosedLinks(edges), image, o, l)
    {
      var d :| d in drawn && l == (d.source, d.target);
      var k: nat :| DrawnAs(edges, image, k, d);
      assert edges[k] in edges;
      assert IsImage(ClosedLinks(edges), image, (edges[k].source, edges[k].target), l);
    }
  }
}
