/** Building the drawing: group devices, draw groups, remap edges. */
module GraphRender {
  import opened Ids
  import opened GraphModel
  import opened Quotient
  import opened GraphAggregate

  // ----- edges with both endpoints -----

  method PartitionEdges(ids: set<Id>, edges: seq<GraphEdge>) returns (resolved: seq<GraphEdge>)
    ensures resolved == KeepClosed(edges, ids)
  {
    resolved := [];
    for i := 0 to |edges|
      invariant resolved == KeepClosed(edges[..i], ids)
    {
      assert edges[..i + 1][..i] == edges[..i];
      if edges[i].source in ids && edges[i].target in ids {
        resolved := resolved + [edges[i]];
      }
    }
    assert edges[..|edges|] == edges;
  }

  // ----- edges by node -----

  function Bucket(edgesByNode: map<Id, seq<GraphEdge>>, x: Id): seq<GraphEdge>
  {
    if x in edgesByNode then edgesByNode[x] else []
  }

  ghost predicate IsBucket(edges: seq<GraphEdge>, bucket: seq<GraphEdge>, x: Id)
  {
    forall e :: e in bucket <==> e in edges && Touches(e, x)
  }

  ghost predicate Indexes(edges: seq<GraphEdge>, edgesByNode: map<Id, seq<GraphEdge>>)
  {
    forall x :: IsBucket(edges, Bucket(edgesByNode, x), x)
  }

  method IndexEdges(edges: seq<GraphEdge>) returns (edgesByNode: map<Id, seq<GraphEdge>>)
    ensures Indexes(edges, edgesByNode)
  {
    edgesByNode := map[];
    for i := 0 to |edges|
      invariant Indexes(edges[..i], edgesByNode)
    {
      hide IsBucket;
      IndexMore(edges, edgesByNode, i);
      var edge := edges[i];
      edgesByNode := edgesByNode[edge.source := Bucket(edgesByNode, edge.source) + [edge]];
      edgesByNode := edgesByNode[edge.target := Bucket(edgesByNode, edge.target) + [edge]];
    }
    assert edges[..|edges|] == edges;
  }

  lemma IndexMore(edges: seq<GraphEdge>, edgesByNode: map<Id, seq<GraphEdge>>, i: nat)
    requires i < |edges| && Indexes(edges[..i], edgesByNode)
    ensures
      var e := edges[i];
      var half := edgesByNode[e.source := Bucket(edgesByNode, e.source) + [e]];
      Indexes(edges[..i + 1], half[e.target := Bucket(half, e.target) + [e]])
  {
    var e := edges[i];
    var half := edgesByNode[e.source := Bucket(edgesByNode, e.source) + [e]];
    var full := half[e.target := Bucket(half, e.target) + [e]];
    assert edges[..i + 1] == edges[..i] + [e];
    forall x
      ensures IsBucket(edges[..i + 1], Bucket(full, x), x)
    {
      assert IsBucket(edges[..i], Bucket(edgesByNode, x), x);
    }
  }

  // ----- the access point of a device -----

  method DeviceApId(node: GraphNode, edges: seq<GraphEdge>, edgesByNode: map<Id, seq<GraphEdge>>,
                    kinds: map<Id, string>)
    returns (r: Option<Id>)
    requires Indexes(edges, edgesByNode)
    ensures r == Chosen(Candidates(kinds, edges, node.id), node.parentId)
  {
    var bucket := Bucket(edgesByNode, node.id);
    assert IsBucket(edges, bucket, node.id);
    var apIds: seq<Id> := [];
    for i := 0 to |bucket|
      invariant forall x :: x in apIds <==> x in Candidates(kinds, bucket[..i], node.id)
    {
      var edge := bucket[i];
      assert bucket[..i + 1] == bucket[..i] + [edge];
      CandidatesMore(kinds, bucket[..i], edge, node.id);
      assert edge in bucket;
      if edge.kind == "association" {
        var other := OtherEnd(edge, node.id);
        if other in kinds && kinds[other] == "ap" && other !in apIds {
          apIds := apIds + [other];
        }
      }
    }
    assert bucket[..|bucket|] == bucket;
    SameCandidates(kinds, bucket, edges, node.id);
    ghost var candidates := Candidates(kinds, edges, node.id);
    if node.parentId.Some? && node.parentId.value != "" && node.parentId.value in apIds {
      return node.parentId;
    }
    if apIds == [] {
      assert candidates == {};
      return None;
    }
    var sorted := SortBy(Self, apIds);
    FirstIsLeast(apIds, sorted, candidates);
    return Some(sorted[0]);
  }

  lemma CandidatesMore(kinds: map<Id, string>, edges: seq<GraphEdge>, e: GraphEdge, x: Id)
    requires Touches(e, x)
    ensures Candidates(kinds, edges + [e], x) == Candidates(kinds, edges, x) +
      (if e.kind == "association" && OtherEnd(e, x) in kinds && kinds[OtherEnd(e, x)] == "ap" then {OtherEnd(e, x)}
        else {})
  {
  }

  lemma SameCandidates(kinds: map<Id, string>, bucket: seq<GraphEdge>, edges: seq<GraphEdge>, x: Id)
    requires IsBucket(edges, bucket, x)
    ensures Candidates(kinds, bucket, x) == Candidates(kinds, edges, x)
  {
  }

  lemma FirstIsLeast(apIds: seq<Id>, sorted: seq<Id>, candidates: set<Id>)
    requires apIds != [] && sorted == SortBy(Self, apIds) && forall x :: x in apIds <==> x in candidates
    ensures sorted != [] && candidates != {} && sorted[0] == Least(candidates)
  {
    SortBySorted(Self, apIds);
    SameMembers(sorted, apIds);
    assert sorted[0] in sorted;
    forall c | c in candidates
      ensures AtMost(sorted[0], c)
    {
      assert c in sorted;
      var j :| 0 <= j < |sorted| && sorted[j] == c;
      assert j > 0 ==> AtMost(Self(sorted[0]), Self(sorted[j]));
    }
    LeastUnique(candidates, sorted[0]);
  }

  // ----- sorting nodes into classes and groups -----

  /** The nodes that satisfy `p`, in order. */
  ghost function Filtered(nodes: seq<GraphNode>, p: GraphNode -> bool): seq<GraphNode>
  {
    if nodes == [] then []
    else
      var last := nodes[|nodes| - 1];
      Filtered(nodes[..|nodes| - 1], p) + if p(last) then [last] else []
  }

  /** `list` holds the nodes of `prefix` that satisfy `p`, once each, in order. */
  ghost predicate Lists(prefix: seq<GraphNode>, p: GraphNode -> bool, list: seq<GraphNode>)
  {
    (forall n :: n in list <==> n in prefix && p(n)) && DistinctBy(NodeId, list) && list == Filtered(prefix, p)
  }

  lemma ListMore(prefix: seq<GraphNode>, p: GraphNode -> bool, list: seq<GraphNode>, n: GraphNode)
    requires Lists(prefix, p, list) && UniqueNodes(prefix + [n])
    ensures Lists(prefix + [n], p, if p(n) then list + [n] else list)
  {
    assert (prefix + [n])[..|prefix|] == prefix;
    forall m | m in list
      ensures NodeId(m) != NodeId(n)
    {
      var i :| 0 <= i < |prefix| && prefix[i] == m;
      assert (prefix + [n])[i] == m && (prefix + [n])[|prefix|] == n;
    }
  }

  ghost function InClass(kinds: map<Id, string>, edges: seq<GraphEdge>, c: nat): GraphNode -> bool
  {
    (n: GraphNode) =>
      if c == 0 then n.kind == "ap"
      else if c == 1 then n.kind == "cluster"
      else if c == 2 then n.kind != "device" && n.kind != "ap" && n.kind != "cluster"
      else n.kind == "device" && GroupOf(kinds, edges, n).None?
  }

  ghost function InGroup(kinds: map<Id, string>, edges: seq<GraphEdge>, ap: Id): GraphNode -> bool
  {
    (n: GraphNode) => GroupOf(kinds, edges, n) == Some(ap)
  }

  function MembersIn(members: map<Id, seq<GraphNode>>, ap: Id): seq<GraphNode>
  {
    if ap in members then members[ap] else []
  }

  ghost predicate ClassesOf(kinds: map<Id, string>, edges: seq<GraphEdge>, prefix: seq<GraphNode>,
                            classes: seq<seq<GraphNode>>)
  {
    |classes| == 4 && forall c :: 0 <= c < 4 ==> Lists(prefix, InClass(kinds, edges, c), classes[c])
  }

  ghost predicate GroupsIn(kinds: map<Id, string>, edges: seq<GraphEdge>, prefix: seq<GraphNode>,
                           members: map<Id, seq<GraphNode>>, order: seq<Id>)
  {
    && (forall ap :: Lists(prefix, InGroup(kinds, edges, ap), MembersIn(members, ap)))
    && (forall ap :: ap in members <==> ap in order)
    && (forall ap :: ap in members ==> members[ap] != [])
    && DistinctBy(Self, order)
  }

  lemma OneClass(kinds: map<Id, string>, edges: seq<GraphEdge>, n: GraphNode, c: nat, d: nat)
    requires c < 4 && d < 4 && InClass(kinds, edges, c)(n)
    ensures InClass(kinds, edges, d)(n) <==> c == d
  {
    hide GroupOf;
  }

  lemma ClassMore(kinds: map<Id, string>, edges: seq<GraphEdge>, prefix: seq<GraphNode>, classes: seq<seq<GraphNode>>,
                  n: GraphNode, c: nat)
    requires ClassesOf(kinds, edges, prefix, classes) && UniqueNodes(prefix + [n]) && c < 4
    requires InClass(kinds, edges, c)(n)
    ensures ClassesOf(kinds, edges, prefix + [n], classes[c := classes[c] + [n]])
  {
    hide InClass, Lists, UniqueNodes;
    forall d | 0 <= d < 4
      ensures Lists(prefix + [n], InClass(kinds, edges, d), classes[c := classes[c] + [n]][d])
    {
      OneClass(kinds, edges, n, c, d);
      ListMore(prefix, InClass(kinds, edges, d), classes[d], n);
    }
  }

  lemma ClassesSame(kinds: map<Id, string>, edges: seq<GraphEdge>, prefix: seq<GraphNode>,
                    classes: seq<seq<GraphNode>>, n: GraphNode)
    requires ClassesOf(kinds, edges, prefix, classes) && UniqueNodes(prefix + [n])
    requires GroupOf(kinds, edges, n).Some?
    ensures ClassesOf(kinds, edges, prefix + [n], classes)
  {
    forall d | 0 <= d < 4
      ensures Lists(prefix + [n], InClass(kinds, edges, d), classes[d])
    {
      ListMore(prefix, InClass(kinds, edges, d), classes[d], n);
    }
  }

  lemma GroupMore(kinds: map<Id, string>, edges: seq<GraphEdge>, prefix: seq<GraphNode>,
                  members: map<Id, seq<GraphNode>>, order: seq<Id>, n: GraphNode)
    requires GroupsIn(kinds, edges, prefix, members, order) && UniqueNodes(prefix + [n])
    ensures
      match GroupOf(kinds, edges, n)
      case None => GroupsIn(kinds, edges, prefix + [n], members, order)
      case Some(ap) =>
        GroupsIn(kinds, edges, prefix + [n], members[ap := MembersIn(members, ap) + [n]],
                 if ap in members then order else order + [ap])
  {
    hide GroupOf, Lists, UniqueNodes;
    forall ap
      ensures Lists(prefix + [n], InGroup(kinds, edges, ap),
                    if GroupOf(kinds, edges, n) == Some(ap) then MembersIn(members, ap) + [n]
                    else MembersIn(members, ap))
    {
      assert Lists(prefix, InGroup(kinds, edges, ap), MembersIn(members, ap));
      ListMore(prefix, InGroup(kinds, edges, ap), MembersIn(members, ap), n);
    }
  }

  lemma Grouping(kinds: map<Id, string>, edges: seq<GraphEdge>, n: GraphNode)
    ensures
      if n.kind != "device" then
        Loose(kinds, edges, n, if n.kind == "ap" then 0 else if n.kind == "cluster" then 1 else 2)
      else
        var c := Chosen(Candidates(kinds, edges, n.id), n.parentId);
        if c == None || c == Some("") then Loose(kinds, edges, n, 3) else GroupOf(kinds, edges, n) == c
  {
  }

  /** The nodes so far are in their classes and groups. */
  ghost predicate Sorted(kinds: map<Id, string>, edges: seq<GraphEdge>, prefix: seq<GraphNode>,
                         classes: seq<seq<GraphNode>>, members: map<Id, seq<GraphNode>>, order: seq<Id>)
  {
    ClassesOf(kinds, edges, prefix, classes) && GroupsIn(kinds, edges, prefix, members, order)
  }

  lemma SortedParts(kinds: map<Id, string>, edges: seq<GraphEdge>, prefix: seq<GraphNode>,
                    classes: seq<seq<GraphNode>>, members: map<Id, seq<GraphNode>>, order: seq<Id>)
    requires Sorted(kinds, edges, prefix, classes, members, order)
    ensures ClassesOf(kinds, edges, prefix, classes) && GroupsIn(kinds, edges, prefix, members, order)
  {
  }

  lemma NothingSorted(kinds: map<Id, string>, edges: seq<GraphEdge>)
    ensures Sorted(kinds, edges, [], [[], [], [], []], map[], [])
  {
  }

  /** Whether `n` stands by itself in class `c`. */
  ghost predicate Loose(kinds: map<Id, string>, edges: seq<GraphEdge>, n: GraphNode, c: nat)
  {
    GroupOf(kinds, edges, n).None? && c < 4 && InClass(kinds, edges, c)(n)
  }

  lemma LooseSorted(kinds: map<Id, string>, edges: seq<GraphEdge>, prefix: seq<GraphNode>,
                    classes: seq<seq<GraphNode>>, members: map<Id, seq<GraphNode>>, order: seq<Id>,
                    n: GraphNode, c: nat)
    requires Sorted(kinds, edges, prefix, classes, members, order) && |classes| == 4 && UniqueNodes(prefix + [n])
    requires c < 4 && Loose(kinds, edges, n, c)
    ensures Sorted(kinds, edges, prefix + [n], classes[c := classes[c] + [n]], members, order)
  {
    hide ClassesOf, GroupsIn, InClass, GroupOf, UniqueNodes;
    GroupMore(kinds, edges, prefix, members, order, n);
    ClassMore(kinds, edges, prefix, classes, n, c);
  }

  lemma GroupSorted(kinds: map<Id, string>, edges: seq<GraphEdge>, prefix: seq<GraphNode>,
                    classes: seq<seq<GraphNode>>, members: map<Id, seq<GraphNode>>, order: seq<Id>,
                    n: GraphNode)
    requires Sorted(kinds, edges, prefix, classes, members, order) && UniqueNodes(prefix + [n])
    requires GroupOf(kinds, edges, n).Some?
    ensures
      var ap := GroupOf(kinds, edges, n).value;
      Sorted(kinds, edges, prefix + [n], classes, members[ap := MembersIn(members, ap) + [n]],
             if ap in members then order else order + [ap])
  {
    hide ClassesOf, GroupsIn, InClass, GroupOf, UniqueNodes;
    GroupMore(kinds, edges, prefix, members, order, n);
    ClassesSame(kinds, edges, prefix, classes, n);
  }

  /** Sort nodes into access points, clusters, alerts, loose devices and groups. */
  method Classify(nodes: seq<GraphNode>, edges: seq<GraphEdge>, edgesByNode: map<Id, seq<GraphEdge>>,
                  kinds: map<Id, string>)
    returns (classes: seq<seq<GraphNode>>, members: map<Id, seq<GraphNode>>, order: seq<Id>)
    requires UniqueNodes(nodes) && Indexes(edges, edgesByNode)
    ensures ClassesOf(kinds, edges, nodes, classes) && GroupsIn(kinds, edges, nodes, members, order)
  {
    NothingSorted(kinds, edges);
    classes, members, order := [[], [], [], []], map[], [];
    assert nodes[..0] == [];
    hide *;
    for i := 0 to |nodes|
      invariant |classes| == 4 && Sorted(kinds, edges, nodes[..i], classes, members, order)
    {
      var node := nodes[i];
      assert nodes[..i + 1] == nodes[..i] + [node];
      UniquePrefix(nodes, i + 1);
      Grouping(kinds, edges, node);
      var c := 3;
      if node.kind != "device" {
        c := if node.kind == "ap" then 0 else if node.kind == "cluster" then 1 else 2;
      } else {
        var apId := DeviceApId(node, edges, edgesByNode, kinds);
        if apId.Some? && apId.value != "" {
          GroupSorted(kinds, edges, nodes[..i], classes, members, order, node);
          var ap := apId.value;
          if ap !in members {
            order := order + [ap];
          }
          members := members[ap := MembersIn(members, ap) + [node]];
          continue;
        }
      }
      LooseSorted(kinds, edges, nodes[..i], classes, members, order, node, c);
      classes := classes[c := classes[c] + [node]];
    }
    assert nodes[..|nodes|] == nodes;
    SortedParts(kinds, edges, nodes, classes, members, order);
  }

  lemma ClassCount(kinds: map<Id, string>, edges: seq<GraphEdge>, prefix: seq<GraphNode>, classes: seq<seq<GraphNode>>)
    requires ClassesOf(kinds, edges, prefix, classes)
    ensures |classes| == 4
  {
  }

  lemma UniquePrefix(nodes: seq<GraphNode>, i: nat)
    requires UniqueNodes(nodes) && i <= |nodes|
    ensures UniqueNodes(nodes[..i])
  {
  }

  // ----- drawing the nodes -----

  /** `r` is drawn for an ungrouped node or for a group in `done`. */
  ghost predicate DoneFor(groups: map<Id, Id>, done: set<Id>, r: RenderNode)
  {
    match r
    case Individual(n, _) => n.id in groups ==> groups[n.id] in done
    case Summary(_, ap, _) => ap in done
  }

  ghost predicate Ready(groups: map<Id, Id>, done: set<Id>, x: Id)
  {
    x in groups ==> groups[x] in done
  }

  /** The ungrouped nodes and the groups in `done` are drawn. */
  ghost predicate RenderedUpTo(nodes: seq<GraphNode>, groups: map<Id, Id>, expanded: set<Id>, done: set<Id>,
                               rendered: seq<RenderNode>)
  {
    && (forall r :: r in rendered ==> DrawnRight(nodes, groups, expanded, r) && DoneFor(groups, done, r))
    && (forall n :: n in nodes && Ready(groups, done, n.id) ==>
          ImageMap(NodeIds(nodes), groups, expanded)[n.id] in RenderIds(rendered))
    && DistinctBy(RenderId, rendered)
  }

  function Individuals(ns: seq<GraphNode>, ap: Option<Id>): (r: seq<RenderNode>)
    ensures |r| == |ns| && forall i :: 0 <= i < |ns| ==> r[i] == Individual(ns[i], ap)
  {
    seq(|ns|, i requires 0 <= i < |ns| => Individual(ns[i], ap))
  }

  function ApIndividuals(ns: seq<GraphNode>): (r: seq<RenderNode>)
    ensures |r| == |ns| && forall i :: 0 <= i < |ns| ==> r[i] == Individual(ns[i], Some(ns[i].id))
  {
    seq(|ns|, i requires 0 <= i < |ns| => Individual(ns[i], Some(ns[i].id)))
  }

  /** The nodes that are drawn alone, class by class. */
  function SingleNodes(classes: seq<seq<GraphNode>>): seq<RenderNode>
    requires |classes| == 4
  {
    ApIndividuals(classes[0]) + Individuals(classes[1], None) + Individuals(classes[2], None)
    + Individuals(classes[3], None)
  }

  /** Appending drawings with new, distinct identifiers. */
  lemma DistinctAppend(a: seq<RenderNode>, b: seq<RenderNode>)
    requires DistinctBy(RenderId, a) && DistinctBy(RenderId, b)
    requires forall x, y :: x in a && y in b ==> RenderId(x) != RenderId(y)
    ensures DistinctBy(RenderId, a + b)
  {
    forall i, j | 0 <= i < j < |a + b|
      ensures RenderId((a + b)[i]) != RenderId((a + b)[j])
    {
      if i < |a| <= j {
        assert a[i] in a && b[j - |a|] in b;
      }
    }
  }

  lemma IndividualsDistinct(ns: seq<GraphNode>, rs: seq<RenderNode>)
    requires DistinctBy(NodeId, ns) && |rs| == |ns|
    requires forall i :: 0 <= i < |ns| ==> rs[i].Individual? && rs[i].node == ns[i]
    ensures DistinctBy(RenderId, rs)
    ensures forall n :: n in ns ==> n.id in RenderIds(rs)
    ensures forall r :: r in rs ==> r.Individual? && r.node in ns
  {
    forall i, j | 0 <= i < j < |rs|
      ensures RenderId(rs[i]) != RenderId(rs[j])
    {
      assert NodeId(ns[i]) != NodeId(ns[j]);
    }
    forall n | n in ns
      ensures n.id in RenderIds(rs)
    {
      var i :| 0 <= i < |ns| && ns[i] == n;
      assert rs[i] in rs;
    }
  }

  lemma GroupsKeys(nodes: seq<GraphNode>, kinds: map<Id, string>, edges: seq<GraphEdge>, n: GraphNode)
    requires UniqueNodes(nodes) && n in nodes
    ensures var groups := Groups(nodes, kinds, edges);
      if GroupOf(kinds, edges, n).Some? then n.id in groups && groups[n.id] == GroupOf(kinds, edges, n).value
      else n.id !in groups
  {
    assert forall m :: m in nodes && NodeId(m) == NodeId(n) ==> m == n;
  }

  /** `part` draws the nodes of `S`, once each and alone. */
  ghost predicate ClassDrawn(S: set<GraphNode>, part: seq<RenderNode>)
  {
    && DistinctBy(RenderId, part)
    && (forall n :: n in S ==> n.id in RenderIds(part))
    && (forall r :: r in part ==> r.Individual? && r.node in S)
  }

  ghost function ClassSet(nodes: seq<GraphNode>, kinds: map<Id, string>, edges: seq<GraphEdge>, c: nat): set<GraphNode>
  {
    set n | n in nodes && InClass(kinds, edges, c)(n)
  }

  lemma ClassDraws(nodes: seq<GraphNode>, kinds: map<Id, string>, edges: seq<GraphEdge>, classes: seq<seq<GraphNode>>,
                   c: nat,
                   part: seq<RenderNode>)
    requires ClassesOf(kinds, edges, nodes, classes) && c < 4 && |part| == |classes[c]|
    requires forall i :: 0 <= i < |part| ==> part[i].Individual? && part[i].node == classes[c][i]
    ensures ClassDrawn(ClassSet(nodes, kinds, edges, c), part)
  {
    assert Lists(nodes, InClass(kinds, edges, c), classes[c]);
    IndividualsDistinct(classes[c], part);
    hide InClass, ClassesOf;
  }

  /** Classes without a common identifier are drawn together. */
  lemma ClassesJoin(S: set<GraphNode>, a: seq<RenderNode>, T: set<GraphNode>, b: seq<RenderNode>)
    requires ClassDrawn(S, a) && ClassDrawn(T, b)
    requires forall n, m :: n in S && m in T ==> n.id != m.id
    ensures ClassDrawn(S + T, a + b)
  {
    forall r, t | r in a && t in b
      ensures RenderId(r) != RenderId(t)
    {
      assert r.node in S && t.node in T;
    }
    DistinctAppend(a, b);
    assert forall r :: r in a || r in b ==> r in a + b;
  }

  lemma ClassesApart(nodes: seq<GraphNode>, kinds: map<Id, string>, edges: seq<GraphEdge>, c: nat, d: nat)
    requires UniqueNodes(nodes) && c < d < 4
    ensures forall n, m :: n in ClassSet(nodes, kinds, edges, c) && m in ClassSet(nodes, kinds, edges, d) ==>
      n.id != m.id
  {
    forall n, m | n in ClassSet(nodes, kinds, edges, c) && m in ClassSet(nodes, kinds, edges, d)
      ensures n.id != m.id
    {
      if n.id == m.id {
        SameNode(nodes, n, m);
      }
    }
  }

  lemma SameNode(nodes: seq<GraphNode>, n: GraphNode, m: GraphNode)
    requires UniqueNodes(nodes) && n in nodes && m in nodes && n.id == m.id
    ensures n == m
  {
    assert NodeId(n) == NodeId(m);
  }

  ghost function Ungrouped(nodes: seq<GraphNode>, kinds: map<Id, string>, edges: seq<GraphEdge>): set<GraphNode>
  {
    ClassSet(nodes, kinds, edges, 0) + ClassSet(nodes, kinds, edges, 1) + ClassSet(nodes, kinds, edges, 2)
    + ClassSet(nodes, kinds, edges, 3)
  }

  lemma BaseDrawn(nodes: seq<GraphNode>, kinds: map<Id, string>, edges: seq<GraphEdge>, classes: seq<seq<GraphNode>>)
    requires UniqueNodes(nodes) && ClassesOf(kinds, edges, nodes, classes)
    ensures ClassDrawn(Ungrouped(nodes, kinds, edges),
      SingleNodes(classes))
  {
    var a, b, c, d := ApIndividuals(classes[0]), Individuals(classes[1], None), Individuals(classes[2], None),
      Individuals(classes[3], None);
    hide ClassSet, ClassDrawn, ClassesOf;
    var A, B, C, D := ClassSet(nodes, kinds, edges, 0), ClassSet(nodes, kinds, edges, 1),
      ClassSet(nodes, kinds, edges, 2),
      ClassSet(nodes, kinds, edges, 3);
    ClassDraws(nodes, kinds, edges, classes, 0, a);
    ClassDraws(nodes, kinds, edges, classes, 1, b);
    ClassDraws(nodes, kinds, edges, classes, 2, c);
    ClassDraws(nodes, kinds, edges, classes, 3, d);
    ClassesApart(nodes, kinds, edges, 0, 1);
    ClassesJoin(A, a, B, b);
    ClassesApart(nodes, kinds, edges, 0, 2);
    ClassesApart(nodes, kinds, edges, 1, 2);
    ClassesJoin(A + B, a + b, C, c);
    ClassesApart(nodes, kinds, edges, 0, 3);
    ClassesApart(nodes, kinds, edges, 1, 3);
    ClassesApart(nodes, kinds, edges, 2, 3);
    ClassesJoin(A + B + C, a + b + c, D, d);
  }

  /** The four ungrouped classes together. */
  lemma BaseRendered(nodes: seq<GraphNode>, kinds: map<Id, string>, edges: seq<GraphEdge>, expanded: set<Id>,
                     classes: seq<seq<GraphNode>>)
    requires UniqueNodes(nodes) && ClassesOf(kinds, edges, nodes, classes)
    ensures RenderedUpTo(nodes, Groups(nodes, kinds, edges), expanded, {},
      SingleNodes(classes))
  {
    BaseDrawn(nodes, kinds, edges, classes);
    var all := SingleNodes(classes);
    hide ClassesOf, InClass, Individuals, ApIndividuals, Ungrouped, UniqueNodes, DistinctBy, GroupOf, Groups;
    var groups := Groups(nodes, kinds, edges);
    forall r | r in all
      ensures DrawnRight(nodes, groups, expanded, r) && DoneFor(groups, {}, r)
    {
      BaseRight(nodes, kinds, edges, expanded, classes, r);
    }
    forall n | n in nodes && Ready(groups, {}, n.id)
      ensures ImageMap(NodeIds(nodes), groups, expanded)[n.id] in RenderIds(all)
    {
      GroupsKeys(nodes, kinds, edges, n);
      UngroupedClass(nodes, kinds, edges, n);
    }
  }

  lemma UngroupedClass(nodes: seq<GraphNode>, kinds: map<Id, string>, edges: seq<GraphEdge>, n: GraphNode)
    requires n in nodes
    ensures GroupOf(kinds, edges, n).None? <==> n in Ungrouped(nodes, kinds, edges)
  {
  }

  lemma BaseRight(nodes: seq<GraphNode>, kinds: map<Id, string>, edges: seq<GraphEdge>, expanded: set<Id>,
                  classes: seq<seq<GraphNode>>, r: RenderNode)
    requires UniqueNodes(nodes) && ClassesOf(kinds, edges, nodes, classes)
    requires r in SingleNodes(classes)
    ensures DrawnRight(nodes, Groups(nodes, kinds, edges), expanded, r) && DoneFor(Groups(nodes, kinds, edges), {}, r)
  {
    var n := r.node;
    var c :| 0 <= c < 4 && n in classes[c] && r.groupId == if c == 0 then Some(n.id) else None;
    assert Lists(nodes, InClass(kinds, edges, c), classes[c]);
    GroupsKeys(nodes, kinds, edges, n);
  }

  lemma MembersAreGroup(nodes: seq<GraphNode>, kinds: map<Id, string>, edges: seq<GraphEdge>, ap: Id,
                        members: seq<GraphNode>)
    requires UniqueNodes(nodes) && Lists(nodes, InGroup(kinds, edges, ap), members)
    ensures var groups := Groups(nodes, kinds, edges);
      && |MembersOf(groups, ap)| == |members|
      && (forall n :: n in members <==> n in nodes && n.id in groups && groups[n.id] == ap)
  {
    var groups := Groups(nodes, kinds, edges);
    forall n | n in nodes
      ensures n in members <==> n.id in groups && groups[n.id] == ap
    {
      GroupsKeys(nodes, kinds, edges, n);
    }
    DistinctKeysCount(NodeId, members);
    assert KeySet(NodeId, members) == MembersOf(groups, ap) by {
      forall x | x in MembersOf(groups, ap)
        ensures x in KeySet(NodeId, members)
      {
        var n :| n in nodes && n.id == x;
        assert NodeId(n) == x;
      }
    }
  }

  /** Draw one more group as a summary. */
  lemma SummaryRendered(nodes: seq<GraphNode>, groups: map<Id, Id>, expanded: set<Id>, done: set<Id>,
                        rendered: seq<RenderNode>, ap: Id)
    requires forall n :: n in nodes ==> !IsSummaryId(n.id)
    requires groups.Keys <= NodeIds(nodes)
    requires RenderedUpTo(nodes, groups, expanded, done, rendered) && ap !in done && Summarised(groups, expanded, ap)
    ensures RenderedUpTo(nodes, groups, expanded, done + {ap},
      rendered + [Summary(SummaryId(ap), ap, |MembersOf(groups, ap)|)])
  {
    var r := Summary(SummaryId(ap), ap, |MembersOf(groups, ap)|);
    var more := rendered + [r];
    assert AGGREGATE <= SummaryId(ap);
    forall t | t in rendered
      ensures RenderId(t) != RenderId(r)
    {
      assert DrawnRight(nodes, groups, expanded, t) && DoneFor(groups, done, t);
      if t.Summary? && SummaryId(t.apId) == SummaryId(ap) {
        SummaryIdInjective(t.apId, ap);
      }
    }
    DistinctAppend(rendered, [r]);
    assert forall t :: t in rendered ==> t in more;
    assert r in more;
    forall n | n in nodes && Ready(groups, done + {ap}, n.id)
      ensures ImageMap(NodeIds(nodes), groups, expanded)[n.id] in RenderIds(more)
    {
      if Ready(groups, done, n.id) {
        assert ImageMap(NodeIds(nodes), groups, expanded)[n.id] in RenderIds(rendered);
      }
    }
  }

  /** Draw one more group as its members. */
  lemma MembersRendered(nodes: seq<GraphNode>, groups: map<Id, Id>, expanded: set<Id>, done: set<Id>,
                        rendered: seq<RenderNode>, ap: Id, members: seq<GraphNode>)
    requires UniqueNodes(nodes) && forall n :: n in nodes ==>
      !IsSummaryId(n.id) && (n.id in groups ==> n.kind == "device")
    requires DistinctBy(NodeId, members)
    requires forall n :: n in members <==> n in nodes && n.id in groups && groups[n.id] == ap
    requires RenderedUpTo(nodes, groups, expanded, done, rendered) && ap !in done && !Summarised(groups, expanded, ap)
    ensures RenderedUpTo(nodes, groups, expanded, done + {ap}, rendered + Individuals(members, Some(ap)))
  {
    var rs := Individuals(members, Some(ap));
    var more := rendered + rs;
    IndividualsDistinct(members, rs);
    forall t, r | t in rendered && r in rs
      ensures RenderId(t) != RenderId(r)
    {
      assert DrawnRight(nodes, groups, expanded, t) && DoneFor(groups, done, t);
      assert t.Summary? ==> AGGREGATE <= SummaryId(t.apId);
    }
    DistinctAppend(rendered, rs);
    forall r | r in rs
      ensures DrawnRight(nodes, groups, expanded, r) && DoneFor(groups, done + {ap}, r)
    {
      var i :| 0 <= i < |members| && rs[i] == r;
      assert members[i] in members;
    }
    forall n | n in nodes && Ready(groups, done + {ap}, n.id)
      ensures ImageMap(NodeIds(nodes), groups, expanded)[n.id] in RenderIds(more)
    {
      if Ready(groups, done, n.id) {
        assert ImageMap(NodeIds(nodes), groups, expanded)[n.id] in RenderIds(rendered);
      } else {
        assert n in members && n.id in RenderIds(rs);
      }
      assert forall t :: t in rendered || t in rs ==> t in more;
    }
  }

  /** The grouped nodes of the groups in `done` are mapped to what is drawn for them. */
  ghost predicate MappedFor(nodes: seq<GraphNode>, groups: map<Id, Id>, expanded: set<Id>, done: set<Id>,
                            nodeIdMap: map<Id, Id>)
  {
    && (forall x :: x in nodeIdMap <==> x in groups && groups[x] in done)
    && (forall x :: x in nodeIdMap ==>
         x in NodeIds(nodes) && nodeIdMap[x] == ImageMap(NodeIds(nodes), groups, expanded)[x])
  }

  /** What the group drawing keeps: the drawing so far and the images of the grouped nodes. */
  ghost predicate Drawing(nodes: seq<GraphNode>, groups: map<Id, Id>, expanded: set<Id>, done: set<Id>,
                          rendered: seq<RenderNode>, nodeIdMap: map<Id, Id>)
  {
    RenderedUpTo(nodes, groups, expanded, done, rendered) && MappedFor(nodes, groups, expanded, done, nodeIdMap)
  }

  /** Where the members of a group go: to themselves, or to the group's summary. */
  function MemberImages(members: seq<GraphNode>, summaryId: Option<Id>): map<Id, Id>
  {
    if members == [] then map[]
    else
      var n := members[|members| - 1];
      MemberImages(members[..|members| - 1], summaryId)[n.id := if summaryId.Some? then summaryId.value else n.id]
  }

  lemma {:induction false} MemberImagesAt(members: seq<GraphNode>, summaryId: Option<Id>)
    ensures forall x :: x in MemberImages(members, summaryId) <==> exists k :: 0 <= k < |members| && members[k].id == x
    ensures forall x :: x in MemberImages(members, summaryId) ==>
      MemberImages(members, summaryId)[x] == if summaryId.Some? then summaryId.value else x
  {
    if members != [] {
      var front, last := members[..|members| - 1], members[|members| - 1];
      MemberImagesAt(front, summaryId);
      assert forall k :: 0 <= k < |front| ==> members[k] == front[k];
      forall x
        ensures x in MemberImages(members, summaryId) <==> exists k :: 0 <= k < |members| && members[k].id == x
      {
        if x in MemberImages(front, summaryId) {
          var k :| 0 <= k < |front| && front[k].id == x;
          assert members[k].id == x;
        }
        assert members[|members| - 1].id == last.id;
      }
    }
  }

  lemma MembersNext(members: seq<GraphNode>, ap: Id, i: nat)
    requires i < |members|
    ensures Individuals(members[..i + 1], Some(ap)) == Individuals(members[..i], Some(ap)) +
      [Individual(members[i], Some(ap))]
    ensures MemberImages(members[..i + 1], None) == MemberImages(members[..i], None)[members[i].id := members[i].id]
  {
    assert members[..i + 1][..i] == members[..i];
  }

  method DrawMembers(rendered0: seq<RenderNode>, nodeIdMap0: map<Id, Id>, ap: Id, members: seq<GraphNode>)
    returns (rendered: seq<RenderNode>, nodeIdMap: map<Id, Id>)
    ensures rendered == rendered0 + Individuals(members, Some(ap))
    ensures nodeIdMap == nodeIdMap0 + MemberImages(members, None)
  {
    rendered, nodeIdMap := rendered0, nodeIdMap0;
    for i := 0 to |members|
      invariant rendered == rendered0 + Individuals(members[..i], Some(ap))
      invariant nodeIdMap == nodeIdMap0 + MemberImages(members[..i], None)
    {
      var member := members[i];
      MembersNext(members, ap, i);
      hide MemberImages, Individuals;
      rendered := rendered + [Individual(member, Some(ap))];
      nodeIdMap := nodeIdMap[member.id := member.id];
    }
    assert members[..|members|] == members;
  }

  method MapMembers(nodeIdMap0: map<Id, Id>, summaryId: Id, members: seq<GraphNode>) returns (nodeIdMap: map<Id, Id>)
    ensures nodeIdMap == nodeIdMap0 + MemberImages(members, Some(summaryId))
  {
    nodeIdMap := nodeIdMap0;
    for i := 0 to |members|
      invariant nodeIdMap == nodeIdMap0 + MemberImages(members[..i], Some(summaryId))
    {
      assert members[..i + 1][..i] == members[..i];
      nodeIdMap := nodeIdMap[members[i].id := summaryId];
    }
    assert members[..|members|] == members;
  }

  /** `members` are the nodes grouped under `ap`, once each. */
  ghost predicate IsGroup(nodes: seq<GraphNode>, groups: map<Id, Id>, ap: Id, members: seq<GraphNode>)
  {
    && DistinctBy(NodeId, members)
    && members != []
    && |MembersOf(groups, ap)| == |members|
    && forall n :: n in members <==> n in nodes && n.id in groups && groups[n.id] == ap
  }

  /** Only devices of the scene are grouped, and no identifier is a summary's. */
  ghost predicate Scene(nodes: seq<GraphNode>, groups: map<Id, Id>)
  {
    && UniqueNodes(nodes)
    && groups.Keys <= NodeIds(nodes)
    && forall n :: n in nodes ==> !IsSummaryId(n.id) && (n.id in groups ==> n.kind == "device")
  }

  /** Draw one group: its members, or one summary of several. */
  method DrawGroup(ghost nodes: seq<GraphNode>, ghost groups: map<Id, Id>, expanded: set<Id>, ghost done: set<Id>,
                   rendered0: seq<RenderNode>, nodeIdMap0: map<Id, Id>, ap: Id, members: seq<GraphNode>)
    returns (rendered: seq<RenderNode>, nodeIdMap: map<Id, Id>)
    requires Scene(nodes, groups) && IsGroup(nodes, groups, ap, members)
    requires Drawing(nodes, groups, expanded, done, rendered0, nodeIdMap0) && ap !in done
    ensures Drawing(nodes, groups, expanded, done + {ap}, rendered, nodeIdMap)
    ensures rendered == rendered0 + GroupDrawn(expanded, ap, members)
  {
    GroupedInside(nodes, groups);
    hide RenderedUpTo, Scene, MappedFor, IsGroup, NodeIds, MemberImages, Summarised, MembersOf;
    GroupSize(nodes, groups, expanded, ap, members);
    if ap in expanded || |members| == 1 {
      GroupRendered(nodes, groups, expanded, done, rendered0, nodeIdMap0, ap, members);
      rendered, nodeIdMap := DrawMembers(rendered0, nodeIdMap0, ap, members);
      GroupImages(nodes, groups, ap, members, None);
      GroupMapped(NodeIds(nodes), nodes, groups, expanded, done, nodeIdMap0, ap, MemberImages(members, None));
    } else {
      var summaryId := SummaryId(ap);
      GroupRendered(nodes, groups, expanded, done, rendered0, nodeIdMap0, ap, members);
      rendered := rendered0 + [Summary(summaryId, ap, |members|)];
      nodeIdMap := MapMembers(nodeIdMap0, summaryId, members);
      GroupImages(nodes, groups, ap, members, Some(summaryId));
      GroupMapped(NodeIds(nodes), nodes, groups, expanded, done, nodeIdMap0, ap,
        MemberImages(members, Some(summaryId)));
    }
  }

  lemma GroupedInside(nodes: seq<GraphNode>, groups: map<Id, Id>)
    requires Scene(nodes, groups)
    ensures groups.Keys <= NodeIds(nodes)
  {
  }

  lemma GroupSize(nodes: seq<GraphNode>, groups: map<Id, Id>, expanded: set<Id>, ap: Id, members: seq<GraphNode>)
    requires IsGroup(nodes, groups, ap, members)
    ensures Summarised(groups, expanded, ap) <==> !(ap in expanded || |members| == 1)
  {
  }

  lemma GroupRendered(nodes: seq<GraphNode>, groups: map<Id, Id>, expanded: set<Id>, done: set<Id>,
                      rendered: seq<RenderNode>, nodeIdMap: map<Id, Id>, ap: Id, members: seq<GraphNode>)
    requires Scene(nodes, groups) && IsGroup(nodes, groups, ap, members)
    requires Drawing(nodes, groups, expanded, done, rendered, nodeIdMap) && ap !in done
    ensures RenderedUpTo(nodes, groups, expanded, done + {ap},
      if Summarised(groups, expanded, ap) then rendered + [Summary(SummaryId(ap), ap, |members|)]
      else rendered + Individuals(members, Some(ap)))
  {
    hide RenderedUpTo, Summarised, UniqueNodes, DistinctBy;
    if Summarised(groups, expanded, ap) {
      SummaryRendered(nodes, groups, expanded, done, rendered, ap);
    } else {
      MembersRendered(nodes, groups, expanded, done, rendered, ap, members);
    }
  }

  lemma GroupMapped(ids: set<Id>, nodes: seq<GraphNode>, groups: map<Id, Id>, expanded: set<Id>, done: set<Id>,
                    nodeIdMap: map<Id, Id>, ap: Id, extra: map<Id, Id>)
    requires ids == NodeIds(nodes) && groups.Keys <= ids && MappedFor(nodes, groups, expanded, done, nodeIdMap)
    requires forall x :: x in extra <==> x in groups && groups[x] == ap
    requires forall x :: x in extra ==> extra[x] == if Summarised(groups, expanded, ap) then SummaryId(ap) else x
    ensures MappedFor(nodes, groups, expanded, done + {ap}, nodeIdMap + extra)
  {
    hide Summarised, SummaryId, NodeIds;
  }

  lemma GroupImages(nodes: seq<GraphNode>, groups: map<Id, Id>, ap: Id, members: seq<GraphNode>, summaryId: Option<Id>)
    requires Scene(nodes, groups) && IsGroup(nodes, groups, ap, members)
    ensures forall x :: x in MemberImages(members, summaryId) <==> x in groups && groups[x] == ap
    ensures forall x :: x in MemberImages(members, summaryId) ==>
      MemberImages(members, summaryId)[x] == if summaryId.Some? then summaryId.value else x
  {
    hide UniqueNodes, DistinctBy, MemberImages;
    MemberImagesAt(members, summaryId);
    forall x
      ensures x in MemberImages(members, summaryId) <==> x in groups && groups[x] == ap
    {
      if x in groups && groups[x] == ap {
        var n :| n in nodes && n.id == x;
        assert n in members;
        var k :| 0 <= k < |members| && members[k] == n;
      }
      if x in MemberImages(members, summaryId) {
        var k :| 0 <= k < |members| && members[k].id == x;
        assert members[k] in members;
      }
    }
  }

  // ----- every group -----

  lemma GroupAt(nodes: seq<GraphNode>, kinds: map<Id, string>, edges: seq<GraphEdge>,
                members: map<Id, seq<GraphNode>>, order: seq<Id>, ap: Id)
    requires UniqueNodes(nodes) && GroupsIn(kinds, edges, nodes, members, order) && ap in order
    ensures ap in members && IsGroup(nodes, Groups(nodes, kinds, edges), ap, members[ap])
  {
    assert Lists(nodes, InGroup(kinds, edges, ap), MembersIn(members, ap));
    MembersAreGroup(nodes, kinds, edges, ap, members[ap]);
  }

  lemma GroupsListed(nodes: seq<GraphNode>, kinds: map<Id, string>, edges: seq<GraphEdge>,
                     members: map<Id, seq<GraphNode>>, order: seq<Id>, x: Id)
    requires UniqueNodes(nodes) && GroupsIn(kinds, edges, nodes, members, order)
    requires x in Groups(nodes, kinds, edges)
    ensures Groups(nodes, kinds, edges)[x] in order
  {
    var n :| n in nodes && n.id == x && GroupOf(kinds, edges, n).Some?;
    GroupsKeys(nodes, kinds, edges, n);
    var ap := GroupOf(kinds, edges, n).value;
    assert Lists(nodes, InGroup(kinds, edges, ap), MembersIn(members, ap));
    assert n in MembersIn(members, ap);
  }

  lemma SceneOf(nodes: seq<GraphNode>, kinds: map<Id, string>, edges: seq<GraphEdge>)
    requires UniqueNodes(nodes) && forall n :: n in nodes ==> !IsSummaryId(n.id)
    ensures Scene(nodes, Groups(nodes, kinds, edges))
  {
    forall n | n in nodes
      ensures n.id in Groups(nodes, kinds, edges) ==> n.kind == "device"
    {
      GroupsKeys(nodes, kinds, edges, n);
    }
  }

  /** How one group is drawn. */
  function GroupDrawn(expanded: set<Id>, ap: Id, members: seq<GraphNode>): seq<RenderNode>
  {
    if ap in expanded || |members| == 1 then Individuals(members, Some(ap))
    else [Summary(SummaryId(ap), ap, |members|)]
  }

  /** The access points, the clusters, the other nodes and the devices without a group. */
  ghost function SinglesInOrder(nodes: seq<GraphNode>, kinds: map<Id, string>, edges: seq<GraphEdge>): seq<RenderNode>
  {
    ApIndividuals(Filtered(nodes, InClass(kinds, edges, 0)))
    + Individuals(Filtered(nodes, InClass(kinds, edges, 1)), None)
    + Individuals(Filtered(nodes, InClass(kinds, edges, 2)), None)
    + Individuals(Filtered(nodes, InClass(kinds, edges, 3)), None)
  }

  /** The groups of the access points `keys`, one after the other. */
  ghost function GroupsInOrder(nodes: seq<GraphNode>, kinds: map<Id, string>, edges: seq<GraphEdge>, expanded: set<Id>,
                               keys: seq<Id>): seq<RenderNode>
  {
    if keys == [] then []
    else
      var ap := keys[|keys| - 1];
      GroupsInOrder(nodes, kinds, edges, expanded, keys[..|keys| - 1])
      + GroupDrawn(expanded, ap, Filtered(nodes, InGroup(kinds, edges, ap)))
  }

  /** The order of the drawing: single nodes by class, each class as given, and then the groups by the
      identifiers of their access points. */
  ghost predicate DrawnInOrder(nodes: seq<GraphNode>, kinds: map<Id, string>, edges: seq<GraphEdge>, expanded: set<Id>,
                               rendered: seq<RenderNode>)
  {
    exists keys :: IsDrawnFor(nodes, kinds, edges, expanded, keys, rendered)
  }

  ghost predicate IsDrawnFor(nodes: seq<GraphNode>, kinds: map<Id, string>, edges: seq<GraphEdge>, expanded: set<Id>,
                             keys: seq<Id>, rendered: seq<RenderNode>)
  {
    && StrictlySortedBy(Self, keys)
    && (forall ap :: ap in keys <==> Filtered(nodes, InGroup(kinds, edges, ap)) != [])
    && rendered == SinglesInOrder(nodes, kinds, edges) + GroupsInOrder(nodes, kinds, edges, expanded, keys)
  }

  lemma FirstInOrder(nodes: seq<GraphNode>, kinds: map<Id, string>, edges: seq<GraphEdge>, expanded: set<Id>,
                     classes: seq<seq<GraphNode>>, keys: seq<Id>)
    requires ClassesOf(kinds, edges, nodes, classes)
    ensures |classes| == 4 && SingleNodes(classes) ==
      SinglesInOrder(nodes, kinds, edges) + GroupsInOrder(nodes, kinds, edges, expanded, keys[..0])
  {
    hide InClass;
    assert Lists(nodes, InClass(kinds, edges, 0), classes[0]) && Lists(nodes, InClass(kinds, edges, 1), classes[1])
      && Lists(nodes, InClass(kinds, edges, 2), classes[2]) && Lists(nodes, InClass(kinds, edges, 3), classes[3]);
    hide Filtered, ApIndividuals, Individuals;
    assert keys[..0] == [];
    assert SinglesInOrder(nodes, kinds, edges) == SingleNodes(classes);
    assert SingleNodes(classes) + [] == SingleNodes(classes);
  }

  lemma NextInOrder(nodes: seq<GraphNode>, kinds: map<Id, string>, edges: seq<GraphEdge>, expanded: set<Id>,
                    members: map<Id, seq<GraphNode>>, order: seq<Id>, keys: seq<Id>, i: nat, rendered: seq<RenderNode>)
    requires GroupsIn(kinds, edges, nodes, members, order) && i < |keys| && keys[i] in members
    requires rendered == SinglesInOrder(nodes, kinds, edges) + GroupsInOrder(nodes, kinds, edges, expanded, keys[..i])
    ensures rendered + GroupDrawn(expanded, keys[i], members[keys[i]]) ==
      SinglesInOrder(nodes, kinds, edges) + GroupsInOrder(nodes, kinds, edges, expanded, keys[..i + 1])
  {
    hide *;
    MembersFiltered(nodes, kinds, edges, members, order, keys[i]);
    MembersListed(members, keys[i]);
    GroupsNext(nodes, kinds, edges, expanded, keys, i);
    Regroup(SinglesInOrder(nodes, kinds, edges), GroupsInOrder(nodes, kinds, edges, expanded, keys[..i]),
            GroupDrawn(expanded, keys[i], members[keys[i]]));
  }

  lemma MembersListed(members: map<Id, seq<GraphNode>>, ap: Id)
    requires ap in members
    ensures MembersIn(members, ap) == members[ap]
  {
  }

  lemma GroupsNext(nodes: seq<GraphNode>, kinds: map<Id, string>, edges: seq<GraphEdge>, expanded: set<Id>,
                   keys: seq<Id>, i: nat)
    requires i < |keys|
    ensures GroupsInOrder(nodes, kinds, edges, expanded, keys[..i + 1]) ==
      GroupsInOrder(nodes, kinds, edges, expanded, keys[..i])
      + GroupDrawn(expanded, keys[i], Filtered(nodes, InGroup(kinds, edges, keys[i])))
  {
    assert keys[..i + 1][..i] == keys[..i];
    hide GroupDrawn, Filtered, InGroup;
  }

  lemma Regroup(a: seq<RenderNode>, b: seq<RenderNode>, c: seq<RenderNode>)
    ensures (a + b) + c == a + (b + c)
  {
  }

  lemma MembersFiltered(nodes: seq<GraphNode>, kinds: map<Id, string>, edges: seq<GraphEdge>,
                        members: map<Id, seq<GraphNode>>, order: seq<Id>, ap: Id)
    requires GroupsIn(kinds, edges, nodes, members, order)
    ensures MembersIn(members, ap) == Filtered(nodes, InGroup(kinds, edges, ap))
    ensures ap in order <==> MembersIn(members, ap) != []
  {
    hide InGroup, Filtered;
    assert Lists(nodes, InGroup(kinds, edges, ap), MembersIn(members, ap));
  }

  lemma AllInOrder(nodes: seq<GraphNode>, kinds: map<Id, string>, edges: seq<GraphEdge>, expanded: set<Id>,
                   members: map<Id, seq<GraphNode>>, order: seq<Id>, rendered: seq<RenderNode>)
    requires GroupsIn(kinds, edges, nodes, members, order)
    requires var keys := SortBy(Self, order);
      rendered == SinglesInOrder(nodes, kinds, edges) + GroupsInOrder(nodes, kinds, edges, expanded, keys[..|keys|])
    ensures DrawnInOrder(nodes, kinds, edges, expanded, rendered)
  {
    hide *;
    var keys := SortBy(Self, order);
    GroupOrderDistinct(kinds, edges, nodes, members, order);
    SortByStrict(Self, order);
    SortBySorted(Self, order);
    assert keys[..|keys|] == keys;
    forall ap
      ensures ap in keys <==> Filtered(nodes, InGroup(kinds, edges, ap)) != []
    {
      MembersFiltered(nodes, kinds, edges, members, order, ap);
    }
    OrderShown(nodes, kinds, edges, expanded, keys, rendered);
  }

  lemma GroupOrderDistinct(kinds: map<Id, string>, edges: seq<GraphEdge>, nodes: seq<GraphNode>,
                           members: map<Id, seq<GraphNode>>, order: seq<Id>)
    requires GroupsIn(kinds, edges, nodes, members, order)
    ensures DistinctBy(Self, order)
  {
  }

  lemma OrderShown(nodes: seq<GraphNode>, kinds: map<Id, string>, edges: seq<GraphEdge>, expanded: set<Id>,
                   keys: seq<Id>, rendered: seq<RenderNode>)
    requires StrictlySortedBy(Self, keys)
    requires forall ap :: ap in keys <==> Filtered(nodes, InGroup(kinds, edges, ap)) != []
    requires rendered == SinglesInOrder(nodes, kinds, edges) + GroupsInOrder(nodes, kinds, edges, expanded, keys)
    ensures DrawnInOrder(nodes, kinds, edges, expanded, rendered)
  {
    hide StrictlySortedBy, Filtered, InGroup, SinglesInOrder, GroupsInOrder;
    assert IsDrawnFor(nodes, kinds, edges, expanded, keys, rendered);
  }

  lemma OrderStep(keys: seq<Id>, i: nat)
    requires DistinctBy(Self, keys) && i < |keys|
    ensures keys[i] !in Prefix(keys, i) && Prefix(keys, i + 1) == Prefix(keys, i) + {keys[i]}
  {
    assert forall j :: 0 <= j < i ==> Self(keys[j]) != Self(keys[i]);
    assert keys[..i + 1] == keys[..i] + [keys[i]];
  }

  ghost function Prefix(keys: seq<Id>, i: nat): set<Id>
    requires i <= |keys|
  {
    set x | x in keys[..i]
  }

  lemma StartDrawing(nodes: seq<GraphNode>, kinds: map<Id, string>, edges: seq<GraphEdge>, expanded: set<Id>,
                     classes: seq<seq<GraphNode>>)
    requires UniqueNodes(nodes) && ClassesOf(kinds, edges, nodes, classes)
    ensures Drawing(nodes, Groups(nodes, kinds, edges), expanded, {},
      SingleNodes(classes), map[])
  {
    hide RenderedUpTo;
    BaseRendered(nodes, kinds, edges, expanded, classes);
  }

  function ImageIn(nodeIdMap: map<Id, Id>, x: Id): Id
  {
    if x in nodeIdMap then nodeIdMap[x] else x
  }

  ghost predicate Locates(nodeIdMap: map<Id, Id>, image: Images)
  {
    forall x :: x in image ==> ImageIn(nodeIdMap, x) == image[x]
  }

  lemma EndDrawing(nodes: seq<GraphNode>, groups: map<Id, Id>, expanded: set<Id>, done: set<Id>,
                   rendered: seq<RenderNode>, nodeIdMap: map<Id, Id>)
    requires Drawing(nodes, groups, expanded, done, rendered, nodeIdMap)
    requires forall x :: x in groups ==> groups[x] in done
    ensures Draws(nodes, groups, expanded, rendered)
    ensures Locates(nodeIdMap, ImageMap(NodeIds(nodes), groups, expanded))
  {
  }

  /** Draw the nodes: single nodes first, then the groups in identifier order. */
  method DrawNodes(nodes: seq<GraphNode>, edges: seq<GraphEdge>, expanded: set<Id>, kinds: map<Id, string>)
    returns (rendered: seq<RenderNode>, nodeIdMap: map<Id, Id>)
    requires UniqueNodes(nodes) && forall n :: n in nodes ==> !IsSummaryId(n.id)
    ensures Draws(nodes, Groups(nodes, kinds, edges), expanded, rendered)
    ensures DrawnInOrder(nodes, kinds, edges, expanded, rendered)
    ensures Locates(nodeIdMap, ImageMap(NodeIds(nodes), Groups(nodes, kinds, edges), expanded))
  {
    hide *;
    var edgesByNode := IndexEdges(edges);
    var classes, members, order := Classify(nodes, edges, edgesByNode, kinds);
    ghost var groups := Groups(nodes, kinds, edges);
    SceneOf(nodes, kinds, edges);
    ClassCount(kinds, edges, nodes, classes);
    StartDrawing(nodes, kinds, edges, expanded, classes);
    rendered := SingleNodes(classes);
    nodeIdMap := map[];
    var keys := SortBy(Self, order);
    KeysOfGroups(kinds, edges, nodes, members, order);
    NoPrefix(keys);
    FirstInOrder(nodes, kinds, edges, expanded, classes, keys);
    for i := 0 to |keys|
      invariant rendered ==
        SinglesInOrder(nodes, kinds, edges) + GroupsInOrder(nodes, kinds, edges, expanded, keys[..i])
      invariant Drawing(nodes, groups, expanded, Prefix(keys, i), rendered, nodeIdMap)
    {
      OrderStep(keys, i);
      assert keys[i] in keys;
      GroupAt(nodes, kinds, edges, members, order, keys[i]);
      NextInOrder(nodes, kinds, edges, expanded, members, order, keys, i, rendered);
      rendered, nodeIdMap := DrawGroup(nodes, groups, expanded, Prefix(keys, i), rendered, nodeIdMap, keys[i],
        members[keys[i]]);
    }
    forall x | x in groups
      ensures groups[x] in Prefix(keys, |keys|)
    {
      GroupsListed(nodes, kinds, edges, members, order, x);
      PrefixWhole(keys, groups[x]);
    }
    EndDrawing(nodes, groups, expanded, Prefix(keys, |keys|), rendered, nodeIdMap);
    AllInOrder(nodes, kinds, edges, expanded, members, order, rendered);
  }

  lemma NoPrefix(keys: seq<Id>)
    ensures Prefix(keys, 0) == {}
  {
  }

  lemma PrefixWhole(keys: seq<Id>, x: Id)
    ensures x in Prefix(keys, |keys|) <==> x in keys
  {
    assert keys[..|keys|] == keys;
  }

  lemma KeysOfGroups(kinds: map<Id, string>, edges: seq<GraphEdge>, nodes: seq<GraphNode>,
                     members: map<Id, seq<GraphNode>>, order: seq<Id>)
    requires GroupsIn(kinds, edges, nodes, members, order)
    ensures forall x :: x in SortBy(Self, order) <==> x in order
    ensures DistinctBy(Self, SortBy(Self, order))
  {
    SortBySorted(Self, order);
    DistinctReordered(Self, order, SortBy(Self, order));
  }

  // ----- drawing the edges -----

  ghost predicate HasEdge(drawn: seq<GraphEdge>, id: Id)
  {
    exists d :: d in drawn && d.id == id
  }

  /** What was drawn for a prefix is drawn for the longer prefix. */
  lemma DrawnLater(prefix: seq<GraphEdge>, longer: seq<GraphEdge>, image: Images, drawn: seq<GraphEdge>)
    requires prefix <= longer && EdgesInside(longer, image)
    requires EdgesInside(prefix, image) && EdgesDrawn(prefix, image, drawn)
    ensures forall c :: c in drawn ==> exists k: nat :: DrawnAs(longer, image, k, c)
  {
    forall c | c in drawn
      ensures exists k: nat :: DrawnAs(longer, image, k, c)
    {
      var k: nat :| DrawnAs(prefix, image, k, c);
      assert DrawnAs(longer, image, k, c);
    }
  }

  /** The first edge with its key. */
  lemma DrawnNow(edges: seq<GraphEdge>, image: Images, i: nat, drawn: seq<GraphEdge>)
    requires EdgesInside(edges, image) && i < |edges|
    requires EdgesInside(edges[..i], image) && EdgesDrawn(edges[..i], image, drawn)
    requires EdgesInside(edges[..i + 1], image)
    requires image[edges[i].source] != image[edges[i].target] && !HasEdge(drawn, Remapped(image, edges[i]).id)
    ensures DrawnAs(edges[..i + 1], image, i, Remapped(image, edges[i]))
  {
    var prefix := edges[..i];
    forall j | 0 <= j < i && image[prefix[j].source] != image[prefix[j].target]
      ensures Remapped(image, edges[j]).id != Remapped(image, edges[i]).id
    {
      assert prefix[j] in prefix;
      assert HasEdge(drawn, Remapped(image, prefix[j]).id);
    }
  }

  /** An edge between one image, or whose key is drawn, adds nothing. */
  lemma EdgeSkipped(edges: seq<GraphEdge>, image: Images, i: nat, drawn: seq<GraphEdge>)
    requires EdgesInside(edges, image) && i < |edges|
    requires EdgesInside(edges[..i], image) && EdgesDrawn(edges[..i], image, drawn)
    requires image[edges[i].source] == image[edges[i].target] || HasEdge(drawn, Remapped(image, edges[i]).id)
    ensures EdgesInside(edges[..i + 1], image) && EdgesDrawn(edges[..i + 1], image, drawn)
  {
    assert edges[..i + 1] == edges[..i] + [edges[i]];
    DrawnLater(edges[..i], edges[..i + 1], image, drawn);
    hide DrawnAs, Remapped;
  }

  /** The drawn edges in order: each edge that is first with its key. */
  ghost function RemappedAll(edges: seq<GraphEdge>, image: Images): seq<GraphEdge>
    requires EdgesInside(edges, image)
  {
    if edges == [] then []
    else
      var n := |edges| - 1;
      assert edges[n] in edges && EdgesInside(edges[..n], image);
      var front, d := RemappedAll(edges[..n], image), Remapped(image, edges[n]);
      if d.source == d.target || HasEdge(front, d.id) then front else front + [d]
  }

  lemma KeysDistinct(drawn: seq<GraphEdge>, d: GraphEdge)
    requires DistinctBy(EdgeId, drawn) && !HasEdge(drawn, d.id)
    ensures DistinctBy(EdgeId, drawn + [d])
  {
    forall i | 0 <= i < |drawn|
      ensures EdgeId(drawn[i]) != EdgeId(d)
    {
      assert drawn[i] in drawn;
    }
  }

  ghost predicate KeysCovered(edges: seq<GraphEdge>, image: Images, drawn: seq<GraphEdge>)
    requires EdgesInside(edges, image)
  {
    forall e :: e in edges && image[e.source] != image[e.target] ==> HasEdge(drawn, Remapped(image, e).id)
  }

  lemma CoveredMore(prefix: seq<GraphEdge>, e: GraphEdge, image: Images, drawn: seq<GraphEdge>)
    requires EdgesInside(prefix + [e], image) && EdgesInside(prefix, image) && e.source in image && e.target in image
    requires KeysCovered(prefix, image, drawn)
    ensures KeysCovered(prefix + [e], image, drawn + [Remapped(image, e)])
  {
    var d := Remapped(image, e);
    assert d in drawn + [d];
    forall c | c in drawn
      ensures c in drawn + [d]
    {
    }
    hide Remapped;
    forall f | f in prefix + [e] && image[f.source] != image[f.target]
      ensures HasEdge(drawn + [d], Remapped(image, f).id)
    {
      if f != e {
        assert f in prefix && HasEdge(drawn, Remapped(image, f).id);
      }
    }
  }

  lemma EdgeAdded(edges: seq<GraphEdge>, image: Images, i: nat, drawn: seq<GraphEdge>)
    requires EdgesInside(edges, image) && i < |edges|
    requires EdgesInside(edges[..i], image) && EdgesDrawn(edges[..i], image, drawn)
    requires image[edges[i].source] != image[edges[i].target] && !HasEdge(drawn, Remapped(image, edges[i]).id)
    ensures EdgesInside(edges[..i + 1], image) && EdgesDrawn(edges[..i + 1], image, drawn + [Remapped(image, edges[i])])
  {
    var d := Remapped(image, edges[i]);
    assert edges[..i + 1] == edges[..i] + [edges[i]];
    DrawnLater(edges[..i], edges[..i + 1], image, drawn);
    DrawnNow(edges, image, i, drawn);
    hide DrawnAs, Remapped;
    KeysDistinct(drawn, d);
    assert KeysCovered(edges[..i], image, drawn);
    CoveredMore(edges[..i], edges[i], image, drawn);
    hide DistinctBy;
  }

  lemma EdgeMore(edges: seq<GraphEdge>, image: Images, i: nat, drawn: seq<GraphEdge>)
    requires EdgesInside(edges, image) && i < |edges|
    requires EdgesInside(edges[..i], image) && EdgesDrawn(edges[..i], image, drawn)
    ensures EdgesInside(edges[..i + 1], image)
    ensures
      var e := edges[i];
      var d := Remapped(image, e);
      EdgesDrawn(edges[..i + 1], image, if d.source == d.target || HasEdge(drawn, d.id) then drawn else drawn + [d])
  {
    hide EdgesDrawn, HasEdge;
    assert edges[i] in edges;
    var d := Remapped(image, edges[i]);
    if d.source == d.target || HasEdge(drawn, d.id) {
      EdgeSkipped(edges, image, i, drawn);
    } else {
      EdgeAdded(edges, image, i, drawn);
    }
  }

  /** Remap every closed edge; `None` is the error for a lost endpoint. */
  method RemapEdges(closed: seq<GraphEdge>, nodeIdMap: map<Id, Id>, renderedIds: set<Id>, ghost image: Images)
    returns (r: Option<seq<GraphEdge>>)
    requires EdgesInside(closed, image) && Locates(nodeIdMap, image) && image.Values <= renderedIds
    ensures r.Some? && EdgesDrawn(closed, image, r.value) && r.value == RemappedAll(closed, image)
  {
    var drawn: seq<GraphEdge> := [];
    var keys: set<Id> := {};
    for i := 0 to |closed|
      invariant EdgesInside(closed[..i], image) && EdgesDrawn(closed[..i], image, drawn)
      invariant drawn == RemappedAll(closed[..i], image)
      invariant forall id :: id in keys <==> HasEdge(drawn, id)
    {
      hide EdgesDrawn;
      EdgeMore(closed, image, i, drawn);
      assert closed[..i + 1][..i] == closed[..i];
      var edge := closed[i];
      assert edge in closed;
      var source := ImageIn(nodeIdMap, edge.source);
      var target := ImageIn(nodeIdMap, edge.target);
      assert source == image[edge.source] && target == image[edge.target];
      if source == target {
        continue;
      }
      if source !in renderedIds || target !in renderedIds {
        return None;
      }
      var id := EdgeKey(edge.kind, source, target);
      if id in keys {
        continue;
      }
      KeysMore(drawn, keys, edge.(id := id, source := source, target := target));
      drawn := drawn + [edge.(id := id, source := source, target := target)];
      keys := keys + {id};
    }
    assert closed[..|closed|] == closed;
    return Some(drawn);
  }

  lemma KeysMore(drawn: seq<GraphEdge>, keys: set<Id>, d: GraphEdge)
    requires forall id :: id in keys <==> HasEdge(drawn, id)
    ensures forall id :: id in keys + {d.id} <==> HasEdge(drawn + [d], id)
  {
    forall id
      ensures id in keys + {d.id} <==> HasEdge(drawn + [d], id)
    {
      if HasEdge(drawn, id) {
        var c :| c in drawn && c.id == id;
        assert c in drawn + [d];
      }
      assert d in drawn + [d];
    }
  }

  // ----- the whole model -----

  datatype RenderModel =
    | AsGiven(givenNodes: seq<GraphNode>, givenEdges: seq<GraphEdge>, hiddenRelationshipCount: nat)
    | Aggregated(nodes: seq<RenderNode>, edges: seq<GraphEdge>, hiddenRelationshipCount: nat)

  ghost function ImageOf(nodes: seq<GraphNode>, closed: seq<GraphEdge>, expanded: set<Id>): Images
    requires UniqueNodes(nodes)
  {
    ImageMap(NodeIds(nodes), Groups(nodes, KindMap(nodes), closed), expanded)
  }

  lemma ClosedInside(nodes: seq<GraphNode>, edges: seq<GraphEdge>, expanded: set<Id>)
    requires UniqueNodes(nodes)
    ensures var closed := KeepClosed(edges, NodeIds(nodes));
      && EdgesInside(closed, ImageOf(nodes, closed, expanded))
      && |closed| <= |edges|
      && forall e :: e in closed ==> e.source in NodeIds(nodes) && e.target in NodeIds(nodes)
  {
    KeepClosedMembers(edges, NodeIds(nodes));
  }

  lemma ImagesDrawn(nodes: seq<GraphNode>, groups: map<Id, Id>, expanded: set<Id>, rendered: seq<RenderNode>)
    requires Draws(nodes, groups, expanded, rendered)
    ensures ImageMap(NodeIds(nodes), groups, expanded).Values <= RenderIds(rendered)
  {
    var image := ImageMap(NodeIds(nodes), groups, expanded);
    forall v | v in image.Values
      ensures v in RenderIds(rendered)
    {
      var x :| x in image && image[x] == v;
      var n :| n in nodes && n.id == x;
      assert image[n.id] in RenderIds(rendered);
    }
  }

  /** The drawing of a scene.  Small scenes are drawn as given; larger ones are aggregated, never
      failing, with every node counted once and every closed edge drawn between its images. */
  method BuildGraphRenderModel(nodes: seq<GraphNode>, edges: seq<GraphEdge>, expanded: set<Id>,
                               threshold: int := GRAPH_AGGREGATE_THRESHOLD)
    returns (r: Option<RenderModel>)
    requires UniqueNodes(nodes) && forall n :: n in nodes ==> !IsSummaryId(n.id)
    ensures r.Some? && r.value.Aggregated? == (|nodes| > threshold)
    ensures r.value.hiddenRelationshipCount == |edges| - |KeepClosed(edges, NodeIds(nodes))|
    ensures r.value.AsGiven? ==> r.value.givenNodes == nodes && r.value.givenEdges == edges
    ensures r.value.Aggregated? ==>
      var closed := KeepClosed(edges, NodeIds(nodes));
      && Draws(nodes, Groups(nodes, KindMap(nodes), closed), expanded, r.value.nodes)
      && DrawnInOrder(nodes, KindMap(nodes), closed, expanded, r.value.nodes)
      && EdgesInside(closed, ImageOf(nodes, closed, expanded))
      && EdgesDrawn(closed, ImageOf(nodes, closed, expanded), r.value.edges)
      && r.value.edges == RemappedAll(closed, ImageOf(nodes, closed, expanded))
      && Shown(r.value.nodes) == |nodes|
  {
    var ids := NodeIds(nodes);
    ClosedInside(nodes, edges, expanded);
    hide KeepClosed, EdgesDrawn, EdgesInside, Draws, Groups, KindMap, ImageMap, UniqueNodes;
    var closed := PartitionEdges(ids, edges);
    var hidden := |edges| - |closed|;
    if |nodes| <= threshold {
      return Some(AsGiven(nodes, edges, hidden));
    }
    var rendered, nodeIdMap := DrawNodes(nodes, closed, expanded, KindMap(nodes));
    ghost var groups := Groups(nodes, KindMap(nodes), closed);
    ImagesDrawn(nodes, groups, expanded, rendered);
    var renderedIds := set n | n in rendered :: RenderId(n);
    SceneOf(nodes, KindMap(nodes), closed);
    Conservation(nodes, groups, expanded, rendered);
    var drawn := RemapEdges(closed, nodeIdMap, renderedIds, ImageOf(nodes, closed, expanded));
    return Some(Aggregated(rendered, drawn.value, hidden));
  }
}
