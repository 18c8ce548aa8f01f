/** What an aggregated drawing shows of each device, access point and edge, said of the records. */
module DrawnMeaning {
  import opened Ids
  import opened GraphModel
  import opened Quotient
  import opened GraphAggregate
  import opened GraphRender
  import opened DrawnConnectivity

  // ----- groups -----

  /** An association edge joins `x` to the access point `ap`. */
  ghost predicate AssociatedWith(nodes: seq<GraphNode>, closed: seq<GraphEdge>, x: Id, ap: Id)
  {
    && (exists e :: e in closed && e.kind == "association"
                    && ((e.source == x && e.target == ap) || (e.source == ap && e.target == x)))
    && (exists a :: a in nodes && a.id == ap && a.kind == "ap")
  }

  lemma KindOfNode(nodes: seq<GraphNode>, x: Id)
    requires UniqueNodes(nodes)
    ensures x in KindMap(nodes) && KindMap(nodes)[x] == "ap" <==> exists a :: a in nodes && a.id == x && a.kind == "ap"
  {
    forall n, m | n in nodes && m in nodes && n.id == m.id
      ensures n == m
    {
      assert NodeId(n) == NodeId(m);
    }
  }

  lemma CandidatesStated(nodes: seq<GraphNode>, closed: seq<GraphEdge>, x: Id, ap: Id)
    requires UniqueNodes(nodes)
    ensures ap in Candidates(KindMap(nodes), closed, x) <==> AssociatedWith(nodes, closed, x, ap)
  {
    KindOfNode(nodes, ap);
    hide KindMap, UniqueNodes;
    if AssociatedWith(nodes, closed, x, ap) {
      var e :| e in closed && e.kind == "association"
        && ((e.source == x && e.target == ap) || (e.source == ap && e.target == x));
      assert Touches(e, x) && OtherEnd(e, x) == ap;
    }
  }

  /** A device belongs to its parent when that is an associated access point, and else to the
      smallest associated access point; nothing else belongs to a group. */
  lemma GroupStated(nodes: seq<GraphNode>, closed: seq<GraphEdge>, n: GraphNode, ap: Id)
    requires UniqueNodes(nodes)
    ensures GroupOf(KindMap(nodes), closed, n) == Some(ap) <==>
      && n.kind == "device" && ap != "" && AssociatedWith(nodes, closed, n.id, ap)
      && if n.parentId.Some? && n.parentId.value != "" && AssociatedWith(nodes, closed, n.id, n.parentId.value)
         then ap == n.parentId.value
         else forall other :: AssociatedWith(nodes, closed, n.id, other) ==> AtMost(ap, other)
  {
    var candidates := Candidates(KindMap(nodes), closed, n.id);
    forall other
      ensures other in candidates <==> AssociatedWith(nodes, closed, n.id, other)
    {
      CandidatesStated(nodes, closed, n.id, other);
    }
    hide AssociatedWith, Candidates, KindMap;
    if ap in candidates && forall other :: other in candidates ==> AtMost(ap, other) {
      LeastUnique(candidates, ap);
    }
  }

  // ----- what is drawn for a node -----

  ghost function Grouped(nodes: seq<GraphNode>, closed: seq<GraphEdge>, ap: Id): set<Id>
    requires UniqueNodes(nodes)
  {
    set n | n in nodes && GroupOf(KindMap(nodes), closed, n) == Some(ap) :: n.id
  }

  lemma GroupedAreMembers(nodes: seq<GraphNode>, closed: seq<GraphEdge>, ap: Id)
    requires UniqueNodes(nodes)
    ensures MembersOf(Groups(nodes, KindMap(nodes), closed), ap) == Grouped(nodes, closed, ap)
  {
    var kinds := KindMap(nodes);
    var groups := Groups(nodes, kinds, closed);
    forall x | x in MembersOf(groups, ap)
      ensures x in Grouped(nodes, closed, ap)
    {
      var n :| n in nodes && n.id == x && GroupOf(kinds, closed, n).Some?;
      GroupsKeys(nodes, kinds, closed, n);
    }
    forall n | n in nodes && GroupOf(kinds, closed, n) == Some(ap)
      ensures n.id in MembersOf(groups, ap)
    {
      GroupsKeys(nodes, kinds, closed, n);
    }
  }

  /** A group is one summary that counts its members, unless it is expanded or has one member only. */
  lemma SummaryStated(nodes: seq<GraphNode>, closed: seq<GraphEdge>, expanded: set<Id>, rendered: seq<RenderNode>,
                      ap: Id)
    requires UniqueNodes(nodes) && forall n :: n in nodes ==> !IsSummaryId(n.id)
    requires Draws(nodes, Groups(nodes, KindMap(nodes), closed), expanded, rendered)
    ensures (exists r :: r in rendered && r.Summary? && r.apId == ap) <==>
      ap !in expanded && |Grouped(nodes, closed, ap)| >= 2
    ensures forall r :: r in rendered && r.Summary? && r.apId == ap ==>
      r.occurrenceCount == |Grouped(nodes, closed, ap)| && r.summaryId == "aggregate:" + ap
  {
    var groups := Groups(nodes, KindMap(nodes), closed);
    GroupedAreMembers(nodes, closed, ap);
    if ap !in expanded && |Grouped(nodes, closed, ap)| >= 2 {
      assert Summarised(groups, expanded, ap);
      var x :| x in MembersOf(groups, ap);
      var n :| n in nodes && n.id == x;
      SummaryDrawn(nodes, groups, expanded, rendered, n);
    }
    hide Groups, Grouped, MembersOf, IsSummaryId;
  }

  lemma SummaryDrawn(nodes: seq<GraphNode>, groups: map<Id, Id>, expanded: set<Id>, rendered: seq<RenderNode>,
                     n: GraphNode)
    requires Draws(nodes, groups, expanded, rendered) && n in nodes && forall m :: m in nodes ==> !IsSummaryId(m.id)
    requires n.id in groups && Summarised(groups, expanded, groups[n.id])
    ensures exists r :: r in rendered && r.Summary? && r.apId == groups[n.id]
  {
    var r :| r in rendered && RenderId(r) == ImageMap(NodeIds(nodes), groups, expanded)[n.id];
    assert DrawnRight(nodes, groups, expanded, r);
    assert IsSummaryId(SummaryId(groups[n.id]));
    if r.Summary? {
      SummaryIdInjective(r.apId, groups[n.id]);
    }
  }

  /** A node is drawn by itself unless it shares its group with another one and the group is not
      expanded. */
  lemma DrawnAlone(nodes: seq<GraphNode>, closed: seq<GraphEdge>, expanded: set<Id>, rendered: seq<RenderNode>,
                   n: GraphNode)
    requires UniqueNodes(nodes) && n in nodes && forall m :: m in nodes ==> !IsSummaryId(m.id)
    requires Draws(nodes, Groups(nodes, KindMap(nodes), closed), expanded, rendered)
    ensures (exists r :: r in rendered && r.Individual? && r.node == n) <==>
      match GroupOf(KindMap(nodes), closed, n)
      case None => true
      case Some(ap) => ap in expanded || |Grouped(nodes, closed, ap)| == 1
  {
    AloneExactly(nodes, Groups(nodes, KindMap(nodes), closed), expanded, rendered, n);
    SummarisedExactly(nodes, closed, expanded, n);
    hide *;
  }

  lemma SummarisedExactly(nodes: seq<GraphNode>, closed: seq<GraphEdge>, expanded: set<Id>, n: GraphNode)
    requires UniqueNodes(nodes) && n in nodes
    ensures var groups := Groups(nodes, KindMap(nodes), closed);
      !(n.id in groups && Summarised(groups, expanded, groups[n.id])) <==>
        match GroupOf(KindMap(nodes), closed, n)
        case None => true
        case Some(ap) => ap in expanded || |Grouped(nodes, closed, ap)| == 1
  {
    var groups := Groups(nodes, KindMap(nodes), closed);
    GroupsKeys(nodes, KindMap(nodes), closed, n);
    if n.id in groups {
      GroupedAreMembers(nodes, closed, groups[n.id]);
      assert n.id in MembersOf(groups, groups[n.id]);
    }
    hide Groups, Grouped, GroupOf, KindMap, UniqueNodes, MembersOf;
  }

  lemma AloneExactly(nodes: seq<GraphNode>, groups: map<Id, Id>, expanded: set<Id>, rendered: seq<RenderNode>,
                     n: GraphNode)
    requires UniqueNodes(nodes) && Draws(nodes, groups, expanded, rendered) && n in nodes
    requires forall m :: m in nodes ==> !IsSummaryId(m.id)
    ensures (exists r :: r in rendered && r.Individual? && r.node == n) <==>
      !(n.id in groups && Summarised(groups, expanded, groups[n.id]))
  {
    hide Summarised, IsSummaryId, UniqueNodes;
    if !(n.id in groups && Summarised(groups, expanded, groups[n.id])) {
      AloneDrawn(nodes, groups, expanded, rendered, n);
    }
    forall r | r in rendered && r.Individual? && r.node == n
      ensures !(n.id in groups && Summarised(groups, expanded, groups[n.id]))
    {
      assert DrawnRight(nodes, groups, expanded, r);
    }
  }

  lemma AloneDrawn(nodes: seq<GraphNode>, groups: map<Id, Id>, expanded: set<Id>, rendered: seq<RenderNode>,
                   n: GraphNode)
    requires UniqueNodes(nodes) && Draws(nodes, groups, expanded, rendered) && n in nodes
    requires forall m :: m in nodes ==> !IsSummaryId(m.id)
    requires !(n.id in groups && Summarised(groups, expanded, groups[n.id]))
    ensures exists r :: r in rendered && r.Individual? && r.node == n
  {
    var r :| r in rendered && RenderId(r) == ImageMap(NodeIds(nodes), groups, expanded)[n.id];
    assert DrawnRight(nodes, groups, expanded, r) && RenderId(r) == n.id;
    forall ap
      ensures IsSummaryId(SummaryId(ap))
    {
    }
    assert r.Individual? ==> NodeId(r.node) == NodeId(n);
  }

  /** The scene on the canvas: aggregated beyond 400 nodes when groups are shown, and else as given. */
  method DrawScene(nodes: seq<GraphNode>, edges: seq<GraphEdge>, expanded: set<Id>, groupsShown: bool)
    returns (model: RenderModel)
    requires UniqueNodes(nodes) && forall n :: n in nodes ==> !IsSummaryId(n.id)
    ensures model.Aggregated? <==> groupsShown && |nodes| > 400
    ensures model.AsGiven? ==> model.givenNodes == nodes && model.givenEdges == edges
    ensures model.hiddenRelationshipCount == |edges| - |KeepClosed(edges, NodeIds(nodes))|
  {
    var r;
    if groupsShown {
      r := BuildGraphRenderModel(nodes, edges, expanded);
    } else {
      // a threshold that is never exceeded
      r := BuildGraphRenderModel(nodes, edges, expanded, |nodes|);
    }
    return r.value;
  }

  // ----- what is drawn for an edge -----

  /** `d` shows the relation of `e`, in one direction or the other. */
  ghost predicate Shows(image: Images, e: GraphEdge, d: GraphEdge)
    requires e.source in image && e.target in image
  {
    d.kind == e.kind && SamePair((d.source, d.target), (image[e.source], image[e.target]))
  }

  lemma RelationDrawn(edges: seq<GraphEdge>, kinds: set<string>, image: Images, drawn: seq<GraphEdge>, e: GraphEdge)
    returns (d: GraphEdge)
    requires EdgesOver(edges, kinds, image) && EdgesDrawn(edges, image, drawn)
    requires NoClash(kinds, image.Values) && forall k :: k in kinds ==> NoColon(k)
    requires e in edges && image[e.source] != image[e.target]
    ensures d in drawn && Shows(image, e, d)
  {
    d :| d in drawn && d.id == Remapped(image, e).id;
    var k: nat :| DrawnAs(edges, image, k, d);
    var f := edges[k];
    assert f in edges && e.kind in kinds && f.kind in kinds;
    var s, t, u, v := image[e.source], image[e.target], image[f.source], image[f.target];
    assert d.kind == f.kind && d.source == u && d.target == v && EdgeKey(e.kind, s, t) == EdgeKey(f.kind, u, v);
    assert s in image.Values && t in image.Values && u in image.Values && v in image.Values;
    hide *;
    SameKeySameRelation(kinds, image.Values, e.kind, s, t, f.kind, u, v);
    IsShown(image, e, d);
  }

  lemma IsShown(image: Images, e: GraphEdge, d: GraphEdge)
    requires e.source in image && e.target in image
    requires d.kind == e.kind && SamePair((d.source, d.target), (image[e.source], image[e.target]))
    ensures Shows(image, e, d)
  {
  }

  lemma DrawnIsRelation(edges: seq<GraphEdge>, image: Images, drawn: seq<GraphEdge>, d: GraphEdge)
    returns (e: GraphEdge)
    requires EdgesInside(edges, image) && EdgesDrawn(edges, image, drawn) && d in drawn
    ensures e in edges && e.kind == d.kind && e.treeRole == d.treeRole && Runs(image, e, d)
    ensures d.id == EdgeKey(d.kind, d.source, d.target)
  {
    var k: nat :| DrawnAs(edges, image, k, d);
    e := edges[k];
    assert e in edges;
  }

  /** Every relation between two drawn nodes is drawn with its kind. */
  ghost predicate AllShown(edges: seq<GraphEdge>, image: Images, drawn: seq<GraphEdge>)
    requires EdgesInside(edges, image)
  {
    forall e :: e in edges && image[e.source] != image[e.target] ==> exists d :: d in drawn && Shows(image, e, d)
  }

  /** `d` is drawn from an edge between other nodes, with its direction. */
  ghost predicate IsRelation(edges: seq<GraphEdge>, image: Images, d: GraphEdge)
    requires EdgesInside(edges, image)
  {
    exists e :: e in edges && e.kind == d.kind && e.treeRole == d.treeRole && Runs(image, e, d)
  }

  ghost predicate Runs(image: Images, e: GraphEdge, d: GraphEdge)
    requires e.source in image && e.target in image
  {
    d.source == image[e.source] != image[e.target] == d.target
  }

  ghost predicate NoneTwice(drawn: seq<GraphEdge>)
  {
    forall i, j :: 0 <= i < j < |drawn| ==>
      !(drawn[i].kind == drawn[j].kind && drawn[i].source == drawn[j].source && drawn[i].target == drawn[j].target)
  }

  /** Where keys do not clash, every relation between two drawn nodes is drawn with its kind, and only
      such relations are; none is drawn twice. */
  lemma RelationsDrawn(edges: seq<GraphEdge>, kinds: set<string>, image: Images, drawn: seq<GraphEdge>)
    requires EdgesOver(edges, kinds, image) && EdgesDrawn(edges, image, drawn)
    requires NoClash(kinds, image.Values) && forall k :: k in kinds ==> NoColon(k)
    ensures AllShown(edges, image, drawn) && NoneTwice(drawn)
    ensures forall d :: d in drawn ==> IsRelation(edges, image, d)
  {
    hide NoClash, EdgesDrawn, Shows, Runs;
    forall e | e in edges && image[e.source] != image[e.target]
      ensures exists d :: d in drawn && Shows(image, e, d)
    {
      var d := RelationDrawn(edges, kinds, image, drawn, e);
    }
    forall d | d in drawn
      ensures IsRelation(edges, image, d)
    {
      var e := DrawnIsRelation(edges, image, drawn, d);
    }
    forall i, j | 0 <= i < j < |drawn|
      ensures !(drawn[i].kind == drawn[j].kind && drawn[i].source == drawn[j].source
        && drawn[i].target == drawn[j].target)
    {
      DrawnApart(edges, image, drawn, i, j);
    }
  }

  lemma DrawnApart(edges: seq<GraphEdge>, image: Images, drawn: seq<GraphEdge>, i: nat, j: nat)
    requires EdgesInside(edges, image) && EdgesDrawn(edges, image, drawn) && i < j < |drawn|
    ensures !(drawn[i].kind == drawn[j].kind && drawn[i].source == drawn[j].source
      && drawn[i].target == drawn[j].target)
  {
    assert drawn[i] in drawn && drawn[j] in drawn && EdgeId(drawn[i]) != EdgeId(drawn[j]);
    hide EdgesDrawn, EdgeKey;
    var e := DrawnIsRelation(edges, image, drawn, drawn[i]);
    var f := DrawnIsRelation(edges, image, drawn, drawn[j]);
  }

  lemma SameKeySameRelation(kinds: set<string>, ids: set<Id>, k: string, s: Id, t: Id, l: string, u: Id, v: Id)
    requires NoClash(kinds, ids) && k in kinds && l in kinds && s in ids && t in ids && u in ids && v in ids
    requires (forall m :: m in kinds ==> NoColon(m)) && s != t && u != v && EdgeKey(k, s, t) == EdgeKey(l, u, v)
    ensures k == l && SamePair((u, v), (s, t))
  {
    assert !Clash(k, s, t, l, u, v);
    hide NoClash, NoColon;
    KeyParts(k, s, t);
    KeyParts(l, u, v);
    FirstColon(k, s + ":" + t, l, u + ":" + v);
    hide EdgeKey;
  }

  lemma KeyParts(k: string, s: Id, t: Id)
    ensures EdgeKey(k, s, t) == k + ":" + (s + ":" + t)
  {
  }
}
