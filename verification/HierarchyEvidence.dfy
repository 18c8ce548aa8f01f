/** What the client makes of the records of a hierarchy: first records, roots, and parents that a
tree edge supports. */
module HierarchyEvidence {
  import opened Ids
  import opened GraphModel
  import opened ParentCycles

  datatype Issue =
    | DuplicateNode(id: Id)
    | MissingRoot(id: Id)
    | MissingParent(id: Id, parent: Id)
    | NoTreeRelationship(id: Id, parent: Id)
    | ParentCycle(id: Id)
    | MissingEndpoints(count: nat)

  // ----- nodes by identifier -----

  /** The first record with each identifier. */
  function ById(nodes: seq<GraphNode>): (m: map<Id, GraphNode>)
    ensures m.Keys == NodeIds(nodes)
  {
    if nodes == [] then map[]
    else
      var n := nodes[|nodes| - 1];
      assert nodes == nodes[..|nodes| - 1] + [n];
      var m := ById(nodes[..|nodes| - 1]);
      if n.id in m then m else m[n.id := n]
  }

  lemma {:induction false} ByIdFirst(nodes: seq<GraphNode>, i: nat)
    requires i < |nodes| && forall j :: 0 <= j < i ==> nodes[j].id != nodes[i].id
    ensures nodes[i].id in ById(nodes) && ById(nodes)[nodes[i].id] == nodes[i]
  {
    var front := nodes[..|nodes| - 1];
    if i < |nodes| - 1 {
      ByIdFirst(front, i);
    } else {
      assert nodes[i].id !in NodeIds(front);
    }
  }

  function Duplicates(nodes: seq<GraphNode>): seq<Issue>
  {
    if nodes == [] then []
    else
      var n := nodes[|nodes| - 1];
      var front := nodes[..|nodes| - 1];
      Duplicates(front) + if n.id in ById(front) then [DuplicateNode(n.id)] else []
  }

  lemma {:induction false} NoDuplicates(nodes: seq<GraphNode>)
    ensures Duplicates(nodes) == [] <==> UniqueNodes(nodes)
  {
    if nodes != [] {
      var front, n := nodes[..|nodes| - 1], nodes[|nodes| - 1];
      assert nodes == front + [n];
      NoDuplicates(front);
      UniqueMore(front, n);
      hide UniqueNodes, ById, NodeIds;
    }
  }

  lemma UniqueMore(front: seq<GraphNode>, n: GraphNode)
    ensures UniqueNodes(front + [n]) <==> UniqueNodes(front) && n.id !in NodeIds(front)
  {
    var all := front + [n];
    if UniqueNodes(all) {
      forall i, j | 0 <= i < j < |front|
        ensures NodeId(front[i]) != NodeId(front[j])
      {
        assert NodeId(all[i]) != NodeId(all[j]);
      }
      forall i | 0 <= i < |front|
        ensures front[i].id != n.id
      {
        assert NodeId(all[i]) != NodeId(all[|front|]);
      }
    } else if UniqueNodes(front) {
      var i, j :| 0 <= i < j < |all| && NodeId(all[i]) == NodeId(all[j]);
      assert front[i] in front;
    }
  }

  /** The identifiers of the records, each once, in identifier order. */
  ghost predicate IdList(nodes: seq<GraphNode>, ids: seq<Id>)
  {
    Elements(ids) == NodeIds(nodes) && StrictlySortedBy(Self, ids)
  }

  lemma IndexStep(nodes: seq<GraphNode>, i: nat, keys: seq<Id>)
    requires i < |nodes| && Elements(keys) == NodeIds(nodes[..i]) && DistinctBy(Self, keys)
    ensures var n, before, after := nodes[i], nodes[..i], nodes[..i + 1];
      if n.id in ById(before) then
        && ById(after) == ById(before) && Duplicates(after) == Duplicates(before) + [DuplicateNode(n.id)]
        && Elements(keys) == NodeIds(after)
      else
        && ById(after) == ById(before)[n.id := n] && Duplicates(after) == Duplicates(before)
        && Elements(keys + [n.id]) == NodeIds(after) && DistinctBy(Self, keys + [n.id])
  {
    var n, before, after := nodes[i], nodes[..i], nodes[..i + 1];
    assert after[..i] == before && after[i] == n;
    assert after == before + [n];
    NodeIdsMore(before, n);
    hide NodeIds;
    if n.id !in ById(before) {
      KeysMore(keys, n.id);
    }
    hide Elements, DistinctBy;
  }

  lemma NodeIdsMore(nodes: seq<GraphNode>, n: GraphNode)
    ensures NodeIds(nodes + [n]) == NodeIds(nodes) + {n.id}
  {
    assert n in nodes + [n];
  }

  method IndexNodes(nodes: seq<GraphNode>) returns (byId: map<Id, GraphNode>, ids: seq<Id>, issues: seq<Issue>)
    ensures byId == ById(nodes) && issues == Duplicates(nodes)
    ensures IdList(nodes, ids)
  {
    byId, issues := map[], [];
    var keys: seq<Id> := [];
    for i := 0 to |nodes|
      invariant byId == ById(nodes[..i]) && issues == Duplicates(nodes[..i])
      invariant Elements(keys) == NodeIds(nodes[..i]) && DistinctBy(Self, keys)
    {
      hide *;
      var node := nodes[i];
      IndexStep(nodes, i, keys);
      if node.id in byId {
        issues := issues + [DuplicateNode(node.id)];
      } else {
        byId := byId[node.id := node];
        keys := keys + [node.id];
      }
    }
    assert nodes[..|nodes|] == nodes;
    ids := SortBy(Self, keys);
    SortBySorted(Self, keys);
    SortByStrict(Self, keys);
  }

  lemma KeysMore(keys: seq<Id>, x: Id)
    requires DistinctBy(Self, keys) && x !in Elements(keys)
    ensures DistinctBy(Self, keys + [x]) && Elements(keys + [x]) == Elements(keys) + {x}
  {
    forall i | 0 <= i < |keys|
      ensures Self(keys[i]) != Self(x)
    {
      assert keys[i] in Elements(keys);
    }
  }

  // ----- roots and tree evidence -----

  function RootIds(hierarchy: Option<GraphHierarchy>): set<Id>
  {
    if hierarchy.None? then {}
    else (set r | r in hierarchy.value.rootIds) + if hierarchy.value.rootId != "" then {hierarchy.value.rootId} else {}
  }

  function RootIssues(nodes: seq<GraphNode>, hierarchy: Option<GraphHierarchy>): seq<Issue>
  {
    if hierarchy.Some? && hierarchy.value.rootId != "" && hierarchy.value.rootId !in ById(nodes)
    then [MissingRoot(hierarchy.value.rootId)] else []
  }

  predicate IsRequestedRoot(hierarchy: Option<GraphHierarchy>, id: Id)
  {
    hierarchy.Some? && id == hierarchy.value.rootId
  }

  function Pair(a: Id, b: Id): (Id, Id)
  {
    if Before(b, a) then (b, a) else (a, b)
  }

  lemma PairUnordered(a: Id, b: Id, c: Id, d: Id)
    ensures Pair(a, b) == Pair(c, d) <==> (a == c && b == d) || (a == d && b == c)
  {
    BeforeTotal(a, b);
    BeforeTotal(c, d);
    if Before(a, b) {
      BeforeAsymmetric(a, b);
    }
    if Before(b, a) {
      BeforeAsymmetric(b, a);
    }
  }

  predicate IsTreeEvidence(e: GraphEdge)
  {
    e.treeRole == Tree && (e.kind == "association" || e.kind == "observed_association")
  }

  function TreePairs(edges: seq<GraphEdge>): set<(Id, Id)>
  {
    set e | e in edges && IsTreeEvidence(e) :: Pair(e.source, e.target)
  }

  /** A pair is evidence exactly when some tree edge joins the two, in either direction. */
  lemma TreePairJoins(edges: seq<GraphEdge>, x: Id, p: Id)
    ensures Pair(x, p) in TreePairs(edges) <==> exists e :: e in edges && IsTreeEvidence(e) && Joins(e, x, p)
  {
    forall e: GraphEdge
      ensures Pair(e.source, e.target) == Pair(x, p) <==> Joins(e, x, p)
    {
      PairUnordered(e.source, e.target, x, p);
    }
    if Pair(x, p) in TreePairs(edges) {
      var e :| e in edges && IsTreeEvidence(e) && Pair(e.source, e.target) == Pair(x, p);
      assert Joins(e, x, p);
    }
  }

  datatype Verdict = NoParent | Rejected(issue: Issue) | Accept(parent: Id)

  /** What the client makes of the parent that a record claims. */
  function Judge(byId: map<Id, GraphNode>, rootIds: set<Id>, pairs: set<(Id, Id)>, id: Id): Verdict
    requires id in byId
  {
    var parent := byId[id].parentId;
    if parent.None? || parent.value == "" || id in rootIds then NoParent
    else if parent.value !in byId then Rejected(MissingParent(id, parent.value))
    else if Pair(id, parent.value) !in pairs then Rejected(NoTreeRelationship(id, parent.value))
    else Accept(parent.value)
  }

  function Accepting(byId: map<Id, GraphNode>, rootIds: set<Id>, pairs: set<(Id, Id)>): Pointers
  {
    map id | id in byId && Judge(byId, rootIds, pairs, id).Accept? :: Judge(byId, rootIds, pairs, id).parent
  }

  function Rejections(byId: map<Id, GraphNode>, rootIds: set<Id>, pairs: set<(Id, Id)>, ids: seq<Id>): seq<Issue>
    requires forall i :: 0 <= i < |ids| ==> ids[i] in byId
  {
    if ids == [] then []
    else
      var j := Judge(byId, rootIds, pairs, ids[|ids| - 1]);
      Rejections(byId, rootIds, pairs, ids[..|ids| - 1]) + if j.Rejected? then [j.issue] else []
  }

  lemma {:induction false} NoRejections(byId: map<Id, GraphNode>, rootIds: set<Id>, pairs: set<(Id, Id)>, ids: seq<Id>)
    requires forall i :: 0 <= i < |ids| ==> ids[i] in byId && !Judge(byId, rootIds, pairs, ids[i]).Rejected?
    ensures Rejections(byId, rootIds, pairs, ids) == []
  {
    hide Judge;
    if ids != [] {
      NoRejections(byId, rootIds, pairs, ids[..|ids| - 1]);
    }
  }

  method AcceptParents(byId: map<Id, GraphNode>, rootIds: set<Id>, pairs: set<(Id, Id)>, ids: seq<Id>)
    returns (parentOf: Pointers, issues: seq<Issue>)
    requires Elements(ids) == byId.Keys && forall i :: 0 <= i < |ids| ==> ids[i] in byId
    ensures parentOf == Accepting(byId, rootIds, pairs)
    ensures issues == Rejections(byId, rootIds, pairs, ids)
  {
    parentOf, issues := map[], [];
    for i := 0 to |ids|
      invariant forall x :: x in parentOf <==> x in ids[..i] && Judge(byId, rootIds, pairs, x).Accept?
      invariant forall x :: x in parentOf ==> parentOf[x] == Judge(byId, rootIds, pairs, x).parent
      invariant issues == Rejections(byId, rootIds, pairs, ids[..i])
    {
      hide *;
      var id := ids[i];
      assert ids[..i + 1][..i] == ids[..i];
      assert ids[..i + 1] == ids[..i] + [id];
      RejectMore(byId, rootIds, pairs, ids, i);
      match Judge(byId, rootIds, pairs, id)
      case NoParent =>
      case Rejected(issue) => issues := issues + [issue];
      case Accept(parent) => parentOf := parentOf[id := parent];
    }
    assert ids[..|ids|] == ids;
    forall x | x in byId
      ensures x in ids
    {
      assert x in Elements(ids);
    }
  }

  lemma RejectMore(byId: map<Id, GraphNode>, rootIds: set<Id>, pairs: set<(Id, Id)>, ids: seq<Id>, i: nat)
    requires i < |ids| && forall i :: 0 <= i < |ids| ==> ids[i] in byId
    ensures Rejections(byId, rootIds, pairs, ids[..i + 1]) == Rejections(byId, rootIds, pairs, ids[..i]) +
      match Judge(byId, rootIds, pairs, ids[i]) case Rejected(issue) => [issue] case _ => []
  {
    assert ids[..i + 1][..i] == ids[..i];
  }

  lemma AcceptedPointers(byId: map<Id, GraphNode>, rootIds: set<Id>, pairs: set<(Id, Id)>)
    ensures Accepted(Accepting(byId, rootIds, pairs), byId.Keys)
  {
  }

  // ----- the same, said of the records alone -----

  /** `n` is the first record with its identifier. */
  ghost predicate FirstRecord(nodes: seq<GraphNode>, n: GraphNode)
  {
    exists i :: 0 <= i < |nodes| && nodes[i] == n && forall j :: 0 <= j < i ==> nodes[j].id != n.id
  }

  /** `x` is named as a root. */
  predicate NamedRoot(hierarchy: Option<GraphHierarchy>, x: Id)
  {
    hierarchy.Some? && (x in hierarchy.value.rootIds || (x != "" && x == hierarchy.value.rootId))
  }

  /** The first record of `x` names `p` as its parent, and `x` is not named as a root. */
  ghost predicate Claims(nodes: seq<GraphNode>, hierarchy: Option<GraphHierarchy>, x: Id, p: Id)
  {
    p != "" && !NamedRoot(hierarchy, x) && exists n :: FirstRecord(nodes, n) && n.id == x && n.parentId == Some(p)
  }

  /** Some tree edge of an association kind joins `x` and `p`. */
  ghost predicate HasTreeEdge(edges: seq<GraphEdge>, x: Id, p: Id)
  {
    exists e :: e in edges && e.treeRole == Tree && (e.kind == "association" || e.kind == "observed_association")
                && ((e.source == x && e.target == p) || (e.source == p && e.target == x))
  }

  /** `x` claims the node `p` as its parent, with evidence. */
  ghost predicate Supported(nodes: seq<GraphNode>, edges: seq<GraphEdge>, hierarchy: Option<GraphHierarchy>, x: Id,
                            p: Id)
  {
    Claims(nodes, hierarchy, x, p) && p in NodeIds(nodes) && HasTreeEdge(edges, x, p)
  }

  lemma {:induction false} EarliestRecord(nodes: seq<GraphNode>, i: nat) returns (n: GraphNode)
    requires i < |nodes|
    ensures FirstRecord(nodes, n) && n.id == nodes[i].id
  {
    if j :| 0 <= j < i && nodes[j].id == nodes[i].id {
      n := EarliestRecord(nodes, j);
    } else {
      n := nodes[i];
    }
  }

  /** The indexed record is the first one. */
  lemma IndexedIsFirst(nodes: seq<GraphNode>, n: GraphNode)
    ensures FirstRecord(nodes, n) <==> n.id in ById(nodes) && ById(nodes)[n.id] == n
  {
    if FirstRecord(nodes, n) {
      var i :| 0 <= i < |nodes| && nodes[i] == n && forall j :: 0 <= j < i ==> nodes[j].id != n.id;
      ByIdFirst(nodes, i);
    }
    if n.id in ById(nodes) {
      var m :| m in nodes && m.id == n.id;
      var i :| 0 <= i < |nodes| && nodes[i] == m;
      var first := EarliestRecord(nodes, i);
      var k :| 0 <= k < |nodes| && nodes[k] == first && forall j :: 0 <= j < k ==> nodes[j].id != first.id;
      ByIdFirst(nodes, k);
    }
  }

  lemma RootsNamed(hierarchy: Option<GraphHierarchy>, x: Id)
    ensures x in RootIds(hierarchy) <==> NamedRoot(hierarchy, x)
  {
  }

  lemma ClaimIndexed(nodes: seq<GraphNode>, hierarchy: Option<GraphHierarchy>, x: Id, p: Id)
    ensures Claims(nodes, hierarchy, x, p) <==>
      x in ById(nodes) && p != "" && x !in RootIds(hierarchy) && ById(nodes)[x].parentId == Some(p)
  {
    RootsNamed(hierarchy, x);
    hide ById, FirstRecord, RootIds, NamedRoot;
    if Claims(nodes, hierarchy, x, p) {
      var n :| FirstRecord(nodes, n) && n.id == x && n.parentId == Some(p);
      IndexedIsFirst(nodes, n);
    }
    if x in ById(nodes) {
      IdKept(nodes, x);
      IndexedIsFirst(nodes, ById(nodes)[x]);
    }
  }

  lemma {:induction false} IdKept(nodes: seq<GraphNode>, x: Id)
    requires x in ById(nodes)
    ensures ById(nodes)[x].id == x
  {
    if nodes[|nodes| - 1].id != x || x in ById(nodes[..|nodes| - 1]) {
      IdKept(nodes[..|nodes| - 1], x);
    }
  }

  lemma TreeEdgePaired(edges: seq<GraphEdge>, x: Id, p: Id)
    ensures Pair(x, p) in TreePairs(edges) <==> HasTreeEdge(edges, x, p)
  {
    TreePairJoins(edges, x, p);
    hide TreePairs, Pair;
    if HasTreeEdge(edges, x, p) {
      var e :| e in edges && e.treeRole == Tree && (e.kind == "association" || e.kind == "observed_association")
        && ((e.source == x && e.target == p) || (e.source == p && e.target == x));
      assert IsTreeEvidence(e) && Joins(e, x, p);
    }
  }

  /** The verdict on a record, case by case. */
  lemma Judged(nodes: seq<GraphNode>, edges: seq<GraphEdge>, hierarchy: Option<GraphHierarchy>, x: Id, p: Id)
    requires x in ById(nodes)
    ensures var verdict := Judge(ById(nodes), RootIds(hierarchy), TreePairs(edges), x);
      && (verdict == Accept(p) <==> Supported(nodes, edges, hierarchy, x, p))
      && (verdict == Rejected(MissingParent(x, p)) <==> Claims(nodes, hierarchy, x, p) && p !in NodeIds(nodes))
      && (verdict == Rejected(NoTreeRelationship(x, p)) <==>
            Claims(nodes, hierarchy, x, p) && p in NodeIds(nodes) && !HasTreeEdge(edges, x, p))
      && (verdict.Rejected? ==> verdict.issue.MissingParent? || verdict.issue.NoTreeRelationship?)
      && (verdict.Rejected? ==> verdict.issue.id == x)
  {
    ClaimIndexed(nodes, hierarchy, x, p);
    TreeEdgePaired(edges, x, p);
    hide ById, RootIds, TreePairs, Pair, Claims, HasTreeEdge, NodeIds;
  }

  lemma {:induction false} RejectionMembers(byId: map<Id, GraphNode>, rootIds: set<Id>, pairs: set<(Id, Id)>,
                                            ids: seq<Id>,
                                            issue: Issue)
    requires forall i :: 0 <= i < |ids| ==> ids[i] in byId
    ensures issue in Rejections(byId, rootIds, pairs, ids) <==>
      exists i :: 0 <= i < |ids| && Judge(byId, rootIds, pairs, ids[i]) == Rejected(issue)
  {
    hide Judge;
    if ids != [] {
      var n := |ids| - 1;
      RejectionMembers(byId, rootIds, pairs, ids[..n], issue);
      if i :| 0 <= i < |ids| && Judge(byId, rootIds, pairs, ids[i]) == Rejected(issue) {
        assert i < n ==> ids[..n][i] == ids[i];
      }
    }
  }

  ghost predicate TwiceIn(nodes: seq<GraphNode>, x: Id)
  {
    exists i, j :: 0 <= i < j < |nodes| && nodes[i].id == nodes[j].id == x
  }

  lemma TwiceMore(front: seq<GraphNode>, n: GraphNode, x: Id)
    ensures TwiceIn(front + [n], x) <==> TwiceIn(front, x) || (n.id == x && x in NodeIds(front))
  {
    var all := front + [n];
    if TwiceIn(all, x) {
      var i, j :| 0 <= i < j < |all| && all[i].id == all[j].id == x;
      if j < |front| {
        assert front[i].id == front[j].id == x;
      } else {
        assert front[i] in front;
      }
    }
    if TwiceIn(front, x) {
      var i, j :| 0 <= i < j < |front| && front[i].id == front[j].id == x;
      assert all[i].id == all[j].id == x;
    }
    if n.id == x && x in NodeIds(front) {
      var m :| m in front && m.id == x;
      var i :| 0 <= i < |front| && front[i] == m;
      assert all[i].id == all[|front|].id == x;
    }
  }

  lemma {:induction false} DuplicateMembers(nodes: seq<GraphNode>, issue: Issue)
    ensures issue in Duplicates(nodes) <==> issue.DuplicateNode? && TwiceIn(nodes, issue.id)
  {
    if nodes != [] {
      var n := |nodes| - 1;
      DuplicateMembers(nodes[..n], issue);
      assert nodes == nodes[..n] + [nodes[n]];
      hide TwiceIn, ById, NodeIds;
      if issue.DuplicateNode? {
        TwiceMore(nodes[..n], nodes[n], issue.id);
      }
    }
  }

  /** As many issues as further records. */
  lemma {:induction false} DuplicateCount(nodes: seq<GraphNode>)
    ensures |Duplicates(nodes)| + |NodeIds(nodes)| == |nodes|
  {
    if nodes != [] {
      var front, n := nodes[..|nodes| - 1], nodes[|nodes| - 1];
      DuplicateCount(front);
      assert nodes == front + [n];
      NodeIdsMore(front, n);
    }
  }
}
