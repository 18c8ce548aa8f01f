/** The client's hierarchy: parent evidence is checked again, cycles are cut, and the rows form
one tree. */
module HierarchyLayout {
  import opened Ids
  import opened GraphModel
  import opened ParentCycles
  import opened HierarchyEvidence

  // ----- fresh identifiers -----

  /** A name that no record has, longer than `base` only when needed. */
  method FreshId(base: Id, taken: set<Id>) returns (id: Id)
    ensures id !in taken && base <= id
    ensures forall i :: |base| <= i < |id| ==> id[i] == '_' && id[..i] in taken
  {
    id := base;
    ghost var longer := taken;
    while id in taken
      invariant base <= id && longer <= taken
      invariant forall i :: |base| <= i < |id| ==> id[i] == '_' && id[..i] in taken
      invariant forall x :: x in taken && |x| >= |id| ==> x in longer
      decreases longer
    {
      longer := longer - {id};
      ghost var before := id;
      id := id + "_";
      assert forall i :: |base| <= i <= |before| ==> id[..i] == before[..i];
      assert before[..|before|] == before;
    }
  }

  // ----- rows -----

  datatype TreeRow = TreeRow(id: Id, parentId: Option<Id>, node: Option<GraphNode>)

  function RowId(r: TreeRow): Id { r.id }

  predicate IsUnattached(parentOf: Pointers, byId: map<Id, GraphNode>, hierarchy: Option<GraphHierarchy>, id: Id)
    requires id in byId
  {
    id !in parentOf && byId[id].kind != "ap" && !IsRequestedRoot(hierarchy, id)
  }

  function UnattachedIds(parentOf: Pointers, byId: map<Id, GraphNode>, hierarchy: Option<GraphHierarchy>): set<Id>
  {
    set id | id in byId && IsUnattached(parentOf, byId, hierarchy, id)
  }

  datatype Frame = Frame(virtualId: Id, unattachedId: Id, unattached: set<Id>)

  predicate RootName(id: Id)
  {
    "__hierarchy_root__" <= id
  }

  predicate GroupName(id: Id)
  {
    "__hierarchy_unattached__" <= id
  }

  /** The names of the two added rows are new and differ. */
  ghost predicate FreshFrame(g: Frame, ids: set<Id>, parentOf: Pointers)
  {
    && g.virtualId !in ids && g.unattachedId !in ids && g.virtualId != g.unattachedId
    && RootName(g.virtualId) && GroupName(g.unattachedId)
    && g.unattached <= ids - parentOf.Keys
  }

  function RowParent(g: Frame, parentOf: Pointers, id: Id): Id
  {
    if id in parentOf then parentOf[id] else if id in g.unattached then g.unattachedId else g.virtualId
  }

  function NodeRow(g: Frame, parentOf: Pointers, byId: map<Id, GraphNode>, id: Id): TreeRow
    requires id in byId
  {
    TreeRow(id, Some(RowParent(g, parentOf, id)), Some(byId[id]))
  }

  function Extra(g: Frame): nat
  {
    if g.unattached != {} then 2 else 1
  }

  /** The rows are the added rows, then one row for every identifier in order. */
  ghost predicate RowsFor(g: Frame, parentOf: Pointers, byId: map<Id, GraphNode>, ids: seq<Id>, rows: seq<TreeRow>)
  {
    && |rows| == Extra(g) + |ids|
    && rows[0] == TreeRow(g.virtualId, None, None)
    && (g.unattached != {} ==> rows[1] == TreeRow(g.unattachedId, Some(g.virtualId), None))
    && forall i :: 0 <= i < |ids| ==> ids[i] in byId && rows[Extra(g) + i] == NodeRow(g, parentOf, byId, ids[i])
  }

  method BuildRows(g: Frame, parentOf: Pointers, byId: map<Id, GraphNode>, ids: seq<Id>) returns (rows: seq<TreeRow>)
    requires forall i :: 0 <= i < |ids| ==> ids[i] in byId
    ensures RowsFor(g, parentOf, byId, ids, rows)
  {
    rows := [TreeRow(g.virtualId, None, None)];
    if g.unattached != {} {
      rows := rows + [TreeRow(g.unattachedId, Some(g.virtualId), None)];
    }
    for i := 0 to |ids|
      invariant RowsFor(g, parentOf, byId, ids[..i], rows)
    {
      rows := rows + [NodeRow(g, parentOf, byId, ids[i])];
    }
    assert ids[..|ids|] == ids;
  }

  ghost function RowIds(rows: seq<TreeRow>): set<Id>
  {
    set r | r in rows :: r.id
  }

  function RowPointers(rows: seq<TreeRow>): Pointers
    requires DistinctBy(RowId, rows)
  {
    assert forall a, b :: a in rows && b in rows && RowId(a) == RowId(b) ==> a == b;
    map r | r in rows && r.parentId.Some? :: r.id := r.parentId.value
  }

  /** The rows have distinct identifiers, one of them has no parent, and every chain of parents
      stays among the rows and ends, so it ends there: a stratification cannot fail. */
  ghost predicate SingleTree(rows: seq<TreeRow>, rowDepth: map<Id, nat>)
  {
    && DistinctBy(RowId, rows)
    && rows != [] && rows[0].parentId.None?
    && (forall i :: 0 < i < |rows| ==> rows[i].parentId.Some?)
    && Depths(RowPointers(rows), RowIds(rows), rowDepth)
  }

  // ----- depths of the rows -----

  /** The end of the chain of parents of `x`. */
  ghost function Ancestor(P: Pointers, C: set<Id>, depth: map<Id, nat>, x: Id): (r: Id)
    requires Depths(P, C, depth) && x in C
    ensures r in C && r !in P
    decreases depth[x]
  {
    assert DepthAt(P, C, depth, x);
    if x in P then Ancestor(P, C, depth, P[x]) else x
  }

  ghost predicate HangsUnattached(g: Frame, P: Pointers, C: set<Id>, depth: map<Id, nat>, x: Id)
    requires Depths(P, C, depth) && x in C
  {
    Ancestor(P, C, depth, x) in g.unattached
  }

  /** The depth of every row below the virtual root. */
  ghost function RowDepths(g: Frame, P: Pointers, C: set<Id>, depth: map<Id, nat>): map<Id, nat>
    requires Depths(P, C, depth)
  {
    (map x | x in C :: depth[x] + if HangsUnattached(g, P, C, depth, x) then 2 else 1)
    + (if g.unattached != {} then map[g.unattachedId := 1] else map[]) + map[g.virtualId := 0]
  }

  /** A row as the frame and the pointers want it. */
  ghost predicate RowRight(g: Frame, P: Pointers, ids: set<Id>, r: TreeRow)
  {
    || (r.id == g.virtualId && r.parentId == None)
    || (g.unattached != {} && r.id == g.unattachedId && r.parentId == Some(g.virtualId))
    || (r.id in ids && r.parentId == Some(RowParent(g, P, r.id)))
  }

  ghost function FrameIds(g: Frame, ids: set<Id>): set<Id>
  {
    ids + {g.virtualId} + (if g.unattached != {} then {g.unattachedId} else {})
  }

  lemma RowsRight(g: Frame, P: Pointers, byId: map<Id, GraphNode>, ids: seq<Id>, rows: seq<TreeRow>)
    requires RowsFor(g, P, byId, ids, rows)
    ensures forall i :: 0 <= i < |rows| ==> RowRight(g, P, Elements(ids), rows[i])
    ensures RowIds(rows) == FrameIds(g, Elements(ids))
  {
    hide RowParent;
    forall i | 0 <= i < |rows|
      ensures RowRight(g, P, Elements(ids), rows[i])
    {
      if i >= Extra(g) {
        assert ids[i - Extra(g)] in Elements(ids);
        assert rows[Extra(g) + (i - Extra(g))] == NodeRow(g, P, byId, ids[i - Extra(g)]);
      }
    }
    forall x | x in FrameIds(g, Elements(ids))
      ensures x in RowIds(rows)
    {
      if x in Elements(ids) {
        var i :| 0 <= i < |ids| && ids[i] == x;
        assert rows[Extra(g) + i] in rows;
      } else if x == g.virtualId {
        assert rows[0] in rows;
      } else {
        assert rows[1] in rows;
      }
    }
  }

  lemma RowAt(g: Frame, P: Pointers, byId: map<Id, GraphNode>, ids: seq<Id>, rows: seq<TreeRow>, i: nat)
    requires RowsFor(g, P, byId, ids, rows) && i < |rows|
    ensures |rows| == Extra(g) + |ids|
    ensures i == 0 ==> rows[i].id == g.virtualId && rows[i].parentId.None?
    ensures 0 < i < Extra(g) ==> rows[i].id == g.unattachedId && rows[i].parentId.Some?
    ensures Extra(g) <= i ==> rows[i].id == ids[i - Extra(g)] && rows[i].id in Elements(ids) && rows[i].parentId.Some?
  {
    if Extra(g) <= i {
      assert rows[Extra(g) + (i - Extra(g))] == NodeRow(g, P, byId, ids[i - Extra(g)]);
    }
  }

  lemma RowsDistinct(g: Frame, P: Pointers, byId: map<Id, GraphNode>, ids: seq<Id>, rows: seq<TreeRow>)
    requires RowsFor(g, P, byId, ids, rows) && FreshFrame(g, Elements(ids), P) && DistinctBy(Self, ids)
    ensures DistinctBy(RowId, rows)
    ensures rows != [] && rows[0].parentId.None? && forall i :: 0 < i < |rows| ==> rows[i].parentId.Some?
  {
    assert rows != [];
    hide RowsFor;
    RowAt(g, P, byId, ids, rows, 0);
    forall i | 0 < i < |rows|
      ensures rows[i].parentId.Some?
    {
      RowAt(g, P, byId, ids, rows, i);
    }
    forall i, j | 0 <= i < j < |rows|
      ensures RowId(rows[i]) != RowId(rows[j])
    {
      RowAt(g, P, byId, ids, rows, i);
      RowAt(g, P, byId, ids, rows, j);
      assert Extra(g) <= i ==> Self(ids[i - Extra(g)]) != Self(ids[j - Extra(g)]);
    }
  }

  lemma RowPointer(g: Frame, P: Pointers, ids: set<Id>, rows: seq<TreeRow>, x: Id)
    requires FreshFrame(g, ids, P) && DistinctBy(RowId, rows)
    requires forall i :: 0 <= i < |rows| ==> RowRight(g, P, ids, rows[i])
    requires RowIds(rows) == FrameIds(g, ids) && x in FrameIds(g, ids)
    ensures Lookup(RowPointers(rows), x) ==
      if x == g.virtualId then None else if x in ids then Some(RowParent(g, P, x)) else Some(g.virtualId)
  {
    hide RowParent;
    var r :| r in rows && r.id == x;
    assert forall a, b :: a in rows && b in rows && RowId(a) == RowId(b) ==> a == b;
  }

  /** The tree of the rows: every node one level below its row parent. */
  lemma RowsFormTree(g: Frame, P: Pointers, byId: map<Id, GraphNode>, ids: seq<Id>, rows: seq<TreeRow>,
                     depth: map<Id, nat>)
    requires RowsFor(g, P, byId, ids, rows) && FreshFrame(g, Elements(ids), P) && DistinctBy(Self, ids)
    requires Depths(P, Elements(ids), depth)
    ensures SingleTree(rows, RowDepths(g, P, Elements(ids), depth))
  {
    hide Depths, RowsFor, DistinctBy, FreshFrame;
    RowsDistinct(g, P, byId, ids, rows);
    RowsRight(g, P, byId, ids, rows);
    var C := Elements(ids);
    var Q, all, d := RowPointers(rows), RowIds(rows), RowDepths(g, P, C, depth);
    forall x | x in all
      ensures DepthAt(Q, all, d, x)
    {
      RowPointer(g, P, C, rows, x);
      RowDepthStep(g, P, C, depth, x);
    }
    assert Depths(Q, all, d) by { RowDepthKeys(g, P, C, depth); DepthsFrom(Q, all, d); }
  }

  lemma DepthsFrom(Q: Pointers, all: set<Id>, d: map<Id, nat>)
    requires d.Keys == all && forall x :: x in all ==> DepthAt(Q, all, d, x)
    ensures Depths(Q, all, d)
  {
  }

  lemma RowDepthKeys(g: Frame, P: Pointers, C: set<Id>, depth: map<Id, nat>)
    requires Depths(P, C, depth)
    ensures RowDepths(g, P, C, depth).Keys == FrameIds(g, C)
  {
  }

  lemma RowDepthStep(g: Frame, P: Pointers, C: set<Id>, depth: map<Id, nat>, x: Id)
    requires Depths(P, C, depth) && FreshFrame(g, C, P) && x in FrameIds(g, C)
    ensures var d := RowDepths(g, P, C, depth);
      && d.Keys == FrameIds(g, C)
      && (x == g.virtualId ==> d[x] == 0)
      && (x in C ==> RowParent(g, P, x) in FrameIds(g, C) && d[x] == d[RowParent(g, P, x)] + 1)
      && (x !in C && x != g.virtualId ==> d[x] == d[g.virtualId] + 1)
      && g.virtualId !in C && g.virtualId in FrameIds(g, C)
  {
    if x in C {
      assert DepthAt(P, C, depth, x);
      if x in P {
        assert Ancestor(P, C, depth, x) == Ancestor(P, C, depth, P[x]);
      } else {
        assert Ancestor(P, C, depth, x) == x;
      }
    }
  }

  // ----- the layout -----

  datatype Layout = Layout(
    rows: seq<TreeRow>,
    parentOf: Pointers,
    layoutDepth: map<Id, nat>,
    edges: seq<GraphEdge>,
    issues: seq<Issue>,
    missingRelationships: nat)

  lemma {:induction false} KeepClosedAll(edges: seq<GraphEdge>, ids: set<Id>)
    ensures |KeepClosed(edges, ids)| <= |edges|
    ensures |KeepClosed(edges, ids)| == |edges| <==> forall e :: e in edges ==> e.source in ids && e.target in ids
  {
    if edges != [] {
      KeepClosedAll(edges[..|edges| - 1], ids);
      assert edges == edges[..|edges| - 1] + [edges[|edges| - 1]];
    }
  }

  function CycleIssues(cuts: seq<Id>): (r: seq<Issue>)
    ensures |r| == |cuts| && forall i :: 0 <= i < |cuts| ==> r[i] == ParentCycle(cuts[i])
  {
    seq(|cuts|, i requires 0 <= i < |cuts| => ParentCycle(cuts[i]))
  }

  function EndpointIssues(missing: nat): seq<Issue>
  {
    if missing > 0 then [MissingEndpoints(missing)] else []
  }

  function AcceptedParents(nodes: seq<GraphNode>, edges: seq<GraphEdge>, hierarchy: Option<GraphHierarchy>): Pointers
  {
    Accepting(ById(nodes), RootIds(hierarchy), TreePairs(edges))
  }

  /** Every node has one row, under its kept parent, or under the group of unattached nodes, or
      under the virtual root. */
  ghost predicate RowsPlace(nodes: seq<GraphNode>, parentOf: Pointers, hierarchy: Option<GraphHierarchy>,
                            rows: seq<TreeRow>, g: Frame, ids: seq<Id>)
  {
    && IdList(nodes, ids)
    && FreshFrame(g, NodeIds(nodes), parentOf)
    && g.unattached == UnattachedIds(parentOf, ById(nodes), hierarchy)
    && RowsFor(g, parentOf, ById(nodes), ids, rows)
  }

  ghost predicate IssuesAre(nodes: seq<GraphNode>, edges: seq<GraphEdge>, hierarchy: Option<GraphHierarchy>,
                            ids: seq<Id>,
                            cuts: seq<Id>, missing: nat, issues: seq<Issue>)
  {
    && (forall i :: 0 <= i < |ids| ==> ids[i] in ById(nodes))
    && issues == Duplicates(nodes) + RootIssues(nodes, hierarchy)
                 + Rejections(ById(nodes), RootIds(hierarchy), TreePairs(edges), ids)
                 + CycleIssues(cuts) + EndpointIssues(missing)
  }

  lemma IssuesCollected(nodes: seq<GraphNode>, edges: seq<GraphEdge>, hierarchy: Option<GraphHierarchy>, ids: seq<Id>,
                        cuts: seq<Id>, missing: nat)
    requires forall i :: 0 <= i < |ids| ==> ids[i] in ById(nodes)
    ensures IssuesAre(nodes, edges, hierarchy, ids, cuts, missing,
      Duplicates(nodes) + RootIssues(nodes, hierarchy)
      + Rejections(ById(nodes), RootIds(hierarchy), TreePairs(edges), ids) + CycleIssues(cuts) +
        EndpointIssues(missing))
  {
  }

  lemma FrameFresh(g: Frame, nodes: seq<GraphNode>, parentOf: Pointers, hierarchy: Option<GraphHierarchy>)
    requires g.virtualId !in ById(nodes) && g.unattachedId !in ById(nodes) && g.virtualId != g.unattachedId
    requires RootName(g.virtualId) && GroupName(g.unattachedId)
    requires g.unattached == UnattachedIds(parentOf, ById(nodes), hierarchy)
    ensures FreshFrame(g, NodeIds(nodes), parentOf)
  {
  }

  lemma IdListFacts(nodes: seq<GraphNode>, ids: seq<Id>)
    requires IdList(nodes, ids)
    ensures DistinctBy(Self, ids)
    ensures Elements(ids) == ById(nodes).Keys && forall i :: 0 <= i < |ids| ==> ids[i] in ById(nodes)
  {
    hide ById;
    forall i, j | 0 <= i < j < |ids|
      ensures Self(ids[i]) != Self(ids[j])
    {
      BeforeIrreflexive(ids[i]);
    }
    forall i | 0 <= i < |ids|
      ensures ids[i] in Elements(ids)
    {
    }
  }

  /** The depth of a node in the layout: its depth below the end of its chain, one more when that
      end hangs under the group of unattached nodes. */
  ghost predicate LayoutDepths(layoutDepth: map<Id, nat>, g: Frame, P: Pointers, C: set<Id>, depth: map<Id, nat>)
    requires Depths(P, C, depth)
  {
    layoutDepth.Keys == C
    && forall x :: x in C ==> layoutDepth[x] == depth[x] + if HangsUnattached(g, P, C, depth, x) then 1 else 0
  }

  /** How many parents a row has above it, less one for the virtual root. */
  method MeasureDepths(parents: Pointers, ids: seq<Id>, ghost all: set<Id>, ghost rowDepth: map<Id, nat>)
    returns (layoutDepth: map<Id, nat>)
    requires Depths(parents, all, rowDepth)
    requires forall i :: 0 <= i < |ids| ==> ids[i] in all && ids[i] in parents
    ensures layoutDepth.Keys == Elements(ids)
    ensures forall i :: 0 <= i < |ids| ==> rowDepth[ids[i]] == layoutDepth[ids[i]] + 1
  {
    layoutDepth := map[];
    for i := 0 to |ids|
      invariant forall x :: x in layoutDepth <==> x in ids[..i]
      invariant forall j :: 0 <= j < i ==> rowDepth[ids[j]] == layoutDepth[ids[j]] + 1
    {
      var current, count := ids[i], 0;
      while current in parents
        invariant current in all && rowDepth[ids[i]] == rowDepth[current] + count
        invariant current != ids[i] ==> count > 0
        decreases rowDepth[current]
      {
        assert DepthAt(parents, all, rowDepth, current);
        current, count := parents[current], count + 1;
      }
      assert DepthAt(parents, all, rowDepth, current);
      layoutDepth := layoutDepth[ids[i] := count - 1];
      assert ids[..i + 1] == ids[..i] + [ids[i]];
    }
    assert ids[..|ids|] == ids;
  }

  lemma LayoutMeasured(g: Frame, P: Pointers, ids: seq<Id>, depth: map<Id, nat>, layoutDepth: map<Id, nat>)
    requires Depths(P, Elements(ids), depth) && FreshFrame(g, Elements(ids), P)
    requires layoutDepth.Keys == Elements(ids)
    requires forall i :: 0 <= i < |ids| ==>
      ids[i] in RowDepths(g, P, Elements(ids), depth)
        && RowDepths(g, P, Elements(ids), depth)[ids[i]] == layoutDepth[ids[i]] + 1
    ensures LayoutDepths(layoutDepth, g, P, Elements(ids), depth)
  {
    forall x | x in Elements(ids)
      ensures layoutDepth[x] == depth[x] + if HangsUnattached(g, P, Elements(ids), depth, x) then 1 else 0
    {
      var i :| 0 <= i < |ids| && ids[i] == x;
    }
  }

  /** The row pointers of the listed nodes can be followed. */
  lemma RowsFollowed(g: Frame, P: Pointers, byId: map<Id, GraphNode>, ids: seq<Id>, rows: seq<TreeRow>,
                     depth: map<Id, nat>)
    requires RowsFor(g, P, byId, ids, rows) && FreshFrame(g, Elements(ids), P) && DistinctBy(Self, ids)
    requires Depths(P, Elements(ids), depth)
    ensures var d := RowDepths(g, P, Elements(ids), depth);
      && DistinctBy(RowId, rows) && Depths(RowPointers(rows), RowIds(rows), d)
      && SingleTree(rows, d)
      && forall i :: 0 <= i < |ids| ==> ids[i] in RowIds(rows) && ids[i] in RowPointers(rows) && ids[i] in d
  {
    hide RowDepths;
    RowsFormTree(g, P, byId, ids, rows, depth);
    RowsRight(g, P, byId, ids, rows);
    hide RowsFor, DistinctBy, RowPointers;
    forall i | 0 <= i < |ids|
      ensures ids[i] in RowIds(rows) && ids[i] in RowPointers(rows)
    {
      assert ids[i] in Elements(ids);
      RowPointer(g, P, Elements(ids), rows, ids[i]);
    }
  }

  lemma PlaceAll(nodes: seq<GraphNode>, parentOf: Pointers, hierarchy: Option<GraphHierarchy>,
                 rows: seq<TreeRow>, g: Frame, ids: seq<Id>)
    requires IdList(nodes, ids) && FreshFrame(g, NodeIds(nodes), parentOf)
    requires g.unattached == UnattachedIds(parentOf, ById(nodes), hierarchy)
    requires RowsFor(g, parentOf, ById(nodes), ids, rows)
    ensures RowsPlace(nodes, parentOf, hierarchy, rows, g, ids)
  {
  }

  /** How a layout came about: the cuts, the depths of the kept parents, the added rows, the order. */
  datatype Making = Making(cuts: seq<Id>, depth: map<Id, nat>, frame: Frame, ids: seq<Id>)

  /** The kept parents are the accepted ones without one pointer of every cycle; the rows form a single
      tree that holds every node once; depths, issues and edges are the right ones. */
  ghost predicate MadeBy(nodes: seq<GraphNode>, edges: seq<GraphEdge>, hierarchy: Option<GraphHierarchy>,
                         layout: Layout, m: Making)
  {
    && CutsEveryCycleOnce(AcceptedParents(nodes, edges, hierarchy), layout.parentOf, m.cuts)
    && Depths(layout.parentOf, NodeIds(nodes), m.depth)
    && RowsPlace(nodes, layout.parentOf, hierarchy, layout.rows, m.frame, m.ids)
    && SingleTree(layout.rows, RowDepths(m.frame, layout.parentOf, NodeIds(nodes), m.depth))
    && LayoutDepths(layout.layoutDepth, m.frame, layout.parentOf, NodeIds(nodes), m.depth)
    && IssuesAre(nodes, edges, hierarchy, m.ids, m.cuts, layout.missingRelationships, layout.issues)
    && layout.edges == SortBy(EdgeId, KeepClosed(edges, NodeIds(nodes)))
    && layout.missingRelationships == |edges| - |layout.edges|
  }

  ghost predicate IsLayoutOf(nodes: seq<GraphNode>, edges: seq<GraphEdge>, hierarchy: Option<GraphHierarchy>,
                             layout: Layout)
  {
    exists m :: MadeBy(nodes, edges, hierarchy, layout, m)
  }

  /** For any records, even with cyclic parents: a layout as it should be. */
  method BuildHierarchyLayout(nodes: seq<GraphNode>, edges: seq<GraphEdge>, hierarchy: Option<GraphHierarchy>)
    returns (layout: Layout)
    ensures IsLayoutOf(nodes, edges, hierarchy, layout)
    ensures ParentsStated(nodes, edges, hierarchy, layout) && IssuesStated(nodes, edges, hierarchy, layout)
    ensures RowsStated(nodes, hierarchy, layout) && DepthsStated(nodes, hierarchy, layout)
    ensures EdgesStated(nodes, edges, layout)
  {
    AcceptedAre(nodes, edges, hierarchy);
    hide *;
    var byId, ids, issues := IndexNodes(nodes);
    IdListFacts(nodes, ids);
    issues := issues + RootIssues(nodes, hierarchy);
    var accepted, rejections := AcceptParents(byId, RootIds(hierarchy), TreePairs(edges), ids);
    AcceptedPointers(byId, RootIds(hierarchy), TreePairs(edges));
    var parentOf, cuts;
    ghost var depth;
    parentOf, cuts, depth := CutCycles(accepted, ids);
    var virtualId := FreshId("__hierarchy_root__", byId.Keys);
    var unattachedId := FreshId("__hierarchy_unattached__", byId.Keys + {virtualId});
    var g := Frame(virtualId, unattachedId, UnattachedIds(parentOf, byId, hierarchy));
    NamesExtend(virtualId, unattachedId);
    FrameFresh(g, nodes, parentOf, hierarchy);
    var rows := BuildRows(g, parentOf, byId, ids);
    RowsFollowed(g, parentOf, byId, ids, rows, depth);
    var layoutDepth := MeasureDepths(RowPointers(rows), ids, RowIds(rows), RowDepths(g, parentOf, byId.Keys, depth));
    LayoutMeasured(g, parentOf, ids, depth, layoutDepth);
    var validEdges := SortBy(EdgeId, KeepClosed(edges, byId.Keys));
    SortBySorted(EdgeId, KeepClosed(edges, byId.Keys));
    KeepClosedAll(edges, byId.Keys);
    var missing := |edges| - |validEdges|;
    layout := Layout(rows, parentOf, layoutDepth, validEdges,
                     issues + rejections + CycleIssues(cuts) + EndpointIssues(missing), missing);
    PlaceAll(nodes, parentOf, hierarchy, rows, g, ids);
    IssuesCollected(nodes, edges, hierarchy, ids, cuts, missing);
    LayoutMade(nodes, edges, hierarchy, layout, cuts, depth, g, ids);
    LayoutStated(nodes, edges, hierarchy, layout);
  }

  lemma NamesExtend(v: Id, u: Id)
    requires "__hierarchy_root__" <= v && "__hierarchy_unattached__" <= u
    ensures RootName(v) && GroupName(u)
  {
  }

  lemma AcceptedAre(nodes: seq<GraphNode>, edges: seq<GraphEdge>, hierarchy: Option<GraphHierarchy>)
    ensures AcceptedParents(nodes, edges, hierarchy) == Accepting(ById(nodes), RootIds(hierarchy), TreePairs(edges))
  {
  }

  lemma LayoutMade(nodes: seq<GraphNode>, edges: seq<GraphEdge>, hierarchy: Option<GraphHierarchy>, layout: Layout,
                   cuts: seq<Id>, depth: map<Id, nat>, g: Frame, ids: seq<Id>)
    requires CutsEveryCycleOnce(AcceptedParents(nodes, edges, hierarchy), layout.parentOf, cuts)
    requires Depths(layout.parentOf, NodeIds(nodes), depth)
    requires RowsPlace(nodes, layout.parentOf, hierarchy, layout.rows, g, ids)
    requires SingleTree(layout.rows, RowDepths(g, layout.parentOf, NodeIds(nodes), depth))
    requires LayoutDepths(layout.layoutDepth, g, layout.parentOf, NodeIds(nodes), depth)
    requires IssuesAre(nodes, edges, hierarchy, ids, cuts, layout.missingRelationships, layout.issues)
    requires layout.edges == SortBy(EdgeId, KeepClosed(edges, NodeIds(nodes)))
    requires layout.missingRelationships == |edges| - |layout.edges|
    ensures IsLayoutOf(nodes, edges, hierarchy, layout)
  {
    hide CutsEveryCycleOnce, Depths, RowsPlace, SingleTree, LayoutDepths, IssuesAre, SortBy, KeepClosed,
      AcceptedParents;
    assert MadeBy(nodes, edges, hierarchy, layout, Making(cuts, depth, g, ids));
  }

  // ----- the layout, said of the records alone -----

  /** A node has the parent it claims with evidence, unless that pointer was cut from a cycle. */
  ghost predicate ParentsStated(nodes: seq<GraphNode>, edges: seq<GraphEdge>, hierarchy: Option<GraphHierarchy>,
                                layout: Layout)
  {
    && (forall x :: x in layout.parentOf ==>
          Supported(nodes, edges, hierarchy, x, layout.parentOf[x]) && ParentCycle(x) !in layout.issues)
    && (forall x :: x in layout.parentOf || ParentCycle(x) in layout.issues <==>
          exists p :: Supported(nodes, edges, hierarchy, x, p))
  }

  /** Each issue is reported exactly when there is cause. */
  ghost predicate IssuesStated(nodes: seq<GraphNode>, edges: seq<GraphEdge>, hierarchy: Option<GraphHierarchy>,
                               layout: Layout)
  {
    && (forall x, p :: MissingParent(x, p) in layout.issues <==>
          Claims(nodes, hierarchy, x, p) && p !in NodeIds(nodes))
    && (forall x, p :: NoTreeRelationship(x, p) in layout.issues <==>
          Claims(nodes, hierarchy, x, p) && p in NodeIds(nodes) && !HasTreeEdge(edges, x, p))
    && (forall x :: DuplicateNode(x) in layout.issues <==>
          TwiceIn(nodes, x))
    && (forall x :: MissingRoot(x) in layout.issues <==>
          hierarchy.Some? && hierarchy.value.rootId == x && x != "" && x !in NodeIds(nodes))
    && (forall n :: MissingEndpoints(n) in layout.issues <==> n == |edges| - |layout.edges| > 0)
  }

  /** A node that no parent was kept for is shown as unattached, unless it is an access point or the
      requested root. */
  ghost predicate StandsAlone(nodes: seq<GraphNode>, hierarchy: Option<GraphHierarchy>, parentOf: Pointers, x: Id)
  {
    && x !in parentOf && !(hierarchy.Some? && x == hierarchy.value.rootId)
    && exists n :: FirstRecord(nodes, n) && n.id == x && n.kind != "ap"
  }

  ghost predicate SomeAlone(nodes: seq<GraphNode>, hierarchy: Option<GraphHierarchy>, parentOf: Pointers)
  {
    exists x :: StandsAlone(nodes, hierarchy, parentOf, x)
  }

  /** The row of node `x`, below the rows `v` for the root and `u` for the unattached nodes. */
  ghost predicate RowStated(nodes: seq<GraphNode>, hierarchy: Option<GraphHierarchy>, layout: Layout, v: Id, u: Id,
                            x: Id)
  {
    exists i, n ::
      && 0 <= i < |layout.rows| && FirstRecord(nodes, n) && n.id == x
      && layout.rows[i] == TreeRow(x,
           Some(if x in layout.parentOf then layout.parentOf[x]
                else if StandsAlone(nodes, hierarchy, layout.parentOf, x) then u
                else v), Some(n))
  }

  /** One row for every node, and one or two more. */
  ghost predicate RowsStatedFor(nodes: seq<GraphNode>, hierarchy: Option<GraphHierarchy>, layout: Layout, v: Id, u: Id)
  {
    && v !in NodeIds(nodes) && u !in NodeIds(nodes) && v != u
    && RootName(v) && GroupName(u)
    && DistinctBy(RowId, layout.rows)
    && layout.rows != [] && layout.rows[0] == TreeRow(v, None, None)
    && (forall x :: x in NodeIds(nodes) ==> RowStated(nodes, hierarchy, layout, v, u, x))
    && |layout.rows| == |NodeIds(nodes)| + (if SomeAlone(nodes, hierarchy, layout.parentOf) then 2 else 1)
    && (SomeAlone(nodes, hierarchy, layout.parentOf) ==>
          |layout.rows| > 1 && layout.rows[1] == TreeRow(u, Some(v), None))
  }

  ghost predicate RowsStated(nodes: seq<GraphNode>, hierarchy: Option<GraphHierarchy>, layout: Layout)
  {
    exists v, u :: RowsStatedFor(nodes, hierarchy, layout, v, u)
  }

  /** A node is one level below its parent; without one it is on the first level, or on the second
      below the group of unattached nodes. */
  ghost predicate DepthsStated(nodes: seq<GraphNode>, hierarchy: Option<GraphHierarchy>, layout: Layout)
  {
    && layout.layoutDepth.Keys == NodeIds(nodes)
    && forall x :: x in NodeIds(nodes) ==> DepthStated(nodes, hierarchy, layout, x)
  }

  ghost predicate DepthStated(nodes: seq<GraphNode>, hierarchy: Option<GraphHierarchy>, layout: Layout, x: Id)
    requires x in layout.layoutDepth
  {
    layout.layoutDepth[x] ==
      if x in layout.parentOf && layout.parentOf[x] in layout.layoutDepth
      then layout.layoutDepth[layout.parentOf[x]] + 1
      else if StandsAlone(nodes, hierarchy, layout.parentOf, x) then 1
      else 0
  }

  /** The edges between nodes, each as often as it was given, in identifier order. */
  ghost predicate EdgesStated(nodes: seq<GraphNode>, edges: seq<GraphEdge>, layout: Layout)
  {
    && SortedBy(EdgeId, layout.edges)
    && (forall e :: multiset(layout.edges)[e] ==
          if e.source in NodeIds(nodes) && e.target in NodeIds(nodes) then multiset(edges)[e] else 0)
    && layout.missingRelationships + |layout.edges| == |edges|
  }

  lemma AloneIsUnattached(nodes: seq<GraphNode>, hierarchy: Option<GraphHierarchy>, parentOf: Pointers, x: Id)
    ensures StandsAlone(nodes, hierarchy, parentOf, x) <==> x in UnattachedIds(parentOf, ById(nodes), hierarchy)
  {
    hide ById, FirstRecord;
    if StandsAlone(nodes, hierarchy, parentOf, x) {
      var n :| FirstRecord(nodes, n) && n.id == x && n.kind != "ap";
      IndexedIsFirst(nodes, n);
    }
    if x in UnattachedIds(parentOf, ById(nodes), hierarchy) {
      IdKept(nodes, x);
      IndexedIsFirst(nodes, ById(nodes)[x]);
    }
  }

  lemma SupportAccepted(nodes: seq<GraphNode>, edges: seq<GraphEdge>, hierarchy: Option<GraphHierarchy>, x: Id, p: Id)
    ensures var accepted := AcceptedParents(nodes, edges, hierarchy);
      x in accepted && accepted[x] == p <==> Supported(nodes, edges, hierarchy, x, p)
  {
    ClaimIndexed(nodes, hierarchy, x, p);
    if x in ById(nodes) {
      Judged(nodes, edges, hierarchy, x, p);
    }
    hide Claims, HasTreeEdge, Judge, ById;
  }

  /** There is cause to report the issue. */
  ghost predicate HasCause(nodes: seq<GraphNode>, edges: seq<GraphEdge>, hierarchy: Option<GraphHierarchy>,
                           cuts: seq<Id>,
                           missing: nat, issue: Issue)
  {
    match issue
    case DuplicateNode(x) => TwiceIn(nodes, x)
    case MissingRoot(x) => hierarchy.Some? && hierarchy.value.rootId == x && x != "" && x !in NodeIds(nodes)
    case MissingParent(x, p) => Claims(nodes, hierarchy, x, p) && p !in NodeIds(nodes)
    case NoTreeRelationship(x, p) =>
      Claims(nodes, hierarchy, x, p) && p in NodeIds(nodes) && !HasTreeEdge(edges, x, p)
    case ParentCycle(x) => x in cuts
    case MissingEndpoints(n) => n == missing > 0
  }

  lemma IssueOrigin(nodes: seq<GraphNode>, edges: seq<GraphEdge>, hierarchy: Option<GraphHierarchy>, ids: seq<Id>,
                    cuts: seq<Id>, missing: nat, issues: seq<Issue>, issue: Issue)
    requires IssuesAre(nodes, edges, hierarchy, ids, cuts, missing, issues) && IdList(nodes, ids)
    ensures issue in issues <==> HasCause(nodes, edges, hierarchy, cuts, missing, issue)
  {
    DuplicateMembers(nodes, issue);
    RejectionMembers(ById(nodes), RootIds(hierarchy), TreePairs(edges), ids, issue);
    RejectionCause(nodes, edges, hierarchy, ids, issue);
    CycleMembers(cuts, issue);
    assert hierarchy.Some? && hierarchy.value.rootId in NodeIds(nodes) ==> hierarchy.value.rootId in ById(nodes);
    hide Duplicates, Rejections, ById, Claims, HasTreeEdge, Judge, CycleIssues, RootIds, TreePairs, NodeIds;
  }

  lemma CycleMembers(cuts: seq<Id>, issue: Issue)
    ensures issue in CycleIssues(cuts) <==> issue.ParentCycle? && issue.id in cuts
  {
    if issue.ParentCycle? && issue.id in cuts {
      var i :| 0 <= i < |cuts| && cuts[i] == issue.id;
      assert CycleIssues(cuts)[i] == issue;
    }
  }

  lemma RejectionCause(nodes: seq<GraphNode>, edges: seq<GraphEdge>, hierarchy: Option<GraphHierarchy>, ids: seq<Id>,
                       issue: Issue)
    requires IdList(nodes, ids) && forall i :: 0 <= i < |ids| ==> ids[i] in ById(nodes)
    ensures (exists i :: 0 <= i < |ids|
               && Judge(ById(nodes), RootIds(hierarchy), TreePairs(edges), ids[i]) == Rejected(issue)) <==>
            (issue.MissingParent? || issue.NoTreeRelationship?) && HasCause(nodes, edges, hierarchy, [], 0, issue)
  {
    var p := if issue.MissingParent? || issue.NoTreeRelationship? then issue.parent else "";
    forall i | 0 <= i < |ids|
      ensures var verdict := Judge(ById(nodes), RootIds(hierarchy), TreePairs(edges), ids[i]);
        verdict == Rejected(issue) ==> issue.MissingParent? || issue.NoTreeRelationship?
    {
      Judged(nodes, edges, hierarchy, ids[i], p);
    }
    hide Judge, HasTreeEdge, ById, RootIds, TreePairs;
    if issue.MissingParent? || issue.NoTreeRelationship? {
      ClaimIndexed(nodes, hierarchy, issue.id, p);
      forall i | 0 <= i < |ids| && ids[i] != issue.id
        ensures Judge(ById(nodes), RootIds(hierarchy), TreePairs(edges), ids[i]) != Rejected(issue)
      {
        Judged(nodes, edges, hierarchy, ids[i], p);
      }
      if issue.id in ById(nodes) {
        Judged(nodes, edges, hierarchy, issue.id, p);
        assert issue.id in Elements(ids);
        var i :| 0 <= i < |ids| && ids[i] == issue.id;
      } else {
        forall i | 0 <= i < |ids|
          ensures ids[i] != issue.id
        {
        }
      }
    }
  }

  lemma ParentFromCuts(nodes: seq<GraphNode>, edges: seq<GraphEdge>, hierarchy: Option<GraphHierarchy>,
                       parentOf: Pointers,
                       cuts: seq<Id>, x: Id)
    requires CutsEveryCycleOnce(AcceptedParents(nodes, edges, hierarchy), parentOf, cuts)
    ensures x in parentOf ==> Supported(nodes, edges, hierarchy, x, parentOf[x]) && x !in cuts
    ensures x in parentOf || x in cuts <==> exists p :: Supported(nodes, edges, hierarchy, x, p)
  {
    var accepted := AcceptedParents(nodes, edges, hierarchy);
    assert parentOf == accepted - Elements(cuts) && (x in cuts <==> x in Elements(cuts))
      && (x in cuts ==> x in accepted);
    hide CutsEveryCycleOnce, AcceptedParents, Supported, Elements;
    if x in accepted {
      SupportAccepted(nodes, edges, hierarchy, x, accepted[x]);
    }
    if p :| Supported(nodes, edges, hierarchy, x, p) {
      SupportAccepted(nodes, edges, hierarchy, x, p);
    }
  }

  lemma ParentsFromCuts(nodes: seq<GraphNode>, edges: seq<GraphEdge>, hierarchy: Option<GraphHierarchy>, layout: Layout,
                        cuts: seq<Id>)
    requires CutsEveryCycleOnce(AcceptedParents(nodes, edges, hierarchy), layout.parentOf, cuts)
    requires forall x :: ParentCycle(x) in layout.issues <==> x in cuts
    ensures ParentsStated(nodes, edges, hierarchy, layout)
  {
    hide CutsEveryCycleOnce, AcceptedParents, Supported;
    forall x | x in layout.parentOf
      ensures Supported(nodes, edges, hierarchy, x, layout.parentOf[x]) && ParentCycle(x) !in layout.issues
    {
      ParentFromCuts(nodes, edges, hierarchy, layout.parentOf, cuts, x);
    }
    forall x
      ensures x in layout.parentOf || ParentCycle(x) in layout.issues <==>
        exists p :: Supported(nodes, edges, hierarchy, x, p)
    {
      ParentFromCuts(nodes, edges, hierarchy, layout.parentOf, cuts, x);
    }
  }

  lemma IdCount(nodes: seq<GraphNode>, ids: seq<Id>)
    requires IdList(nodes, ids)
    ensures |ids| == |NodeIds(nodes)|
  {
    IdListFacts(nodes, ids);
    DistinctKeysCount(Self, ids);
    assert KeySet(Self, ids) == Elements(ids);
  }

  lemma RowFromPlace(nodes: seq<GraphNode>, hierarchy: Option<GraphHierarchy>, layout: Layout, g: Frame, ids: seq<Id>,
                     x: Id)
    requires RowsPlace(nodes, layout.parentOf, hierarchy, layout.rows, g, ids) && x in NodeIds(nodes)
    ensures RowStated(nodes, hierarchy, layout, g.virtualId, g.unattachedId, x)
  {
    assert x in Elements(ids);
    var i :| 0 <= i < |ids| && ids[i] == x;
    assert layout.rows[Extra(g) + i] == NodeRow(g, layout.parentOf, ById(nodes), ids[i]);
    var n := ById(nodes)[x];
    IdKept(nodes, x);
    IndexedIsFirst(nodes, n);
    AloneIsUnattached(nodes, hierarchy, layout.parentOf, x);
    hide ById, FirstRecord, StandsAlone, UnattachedIds;
  }

  lemma AloneExactly(nodes: seq<GraphNode>, hierarchy: Option<GraphHierarchy>, parentOf: Pointers)
    ensures SomeAlone(nodes, hierarchy, parentOf) <==> UnattachedIds(parentOf, ById(nodes), hierarchy) != {}
  {
    hide StandsAlone, UnattachedIds, ById;
    var unattached := UnattachedIds(parentOf, ById(nodes), hierarchy);
    if unattached != {} {
      var x :| x in unattached;
      AloneIsUnattached(nodes, hierarchy, parentOf, x);
    }
    if x :| StandsAlone(nodes, hierarchy, parentOf, x) {
      AloneIsUnattached(nodes, hierarchy, parentOf, x);
    }
  }

  lemma FrameRows(nodes: seq<GraphNode>, hierarchy: Option<GraphHierarchy>, layout: Layout, g: Frame, ids: seq<Id>)
    requires RowsPlace(nodes, layout.parentOf, hierarchy, layout.rows, g, ids)
    ensures g.virtualId !in NodeIds(nodes) && g.unattachedId !in NodeIds(nodes) && g.virtualId != g.unattachedId
    ensures RootName(g.virtualId) && GroupName(g.unattachedId)
    ensures layout.rows != [] && layout.rows[0] == TreeRow(g.virtualId, None, None)
    ensures |layout.rows| == |ids| + if g.unattached != {} then 2 else 1
    ensures g.unattached != {} ==>
      |layout.rows| > 1 && layout.rows[1] == TreeRow(g.unattachedId, Some(g.virtualId), None)
    ensures IdList(nodes, ids) && g.unattached == UnattachedIds(layout.parentOf, ById(nodes), hierarchy)
  {
    hide IdList, UnattachedIds, NodeRow, NodeIds, ById;
  }

  lemma RowsFromPlace(nodes: seq<GraphNode>, hierarchy: Option<GraphHierarchy>, layout: Layout, g: Frame, ids: seq<Id>)
    requires RowsPlace(nodes, layout.parentOf, hierarchy, layout.rows, g, ids) && DistinctBy(RowId, layout.rows)
    ensures RowsStatedFor(nodes, hierarchy, layout, g.virtualId, g.unattachedId)
  {
    hide *;
    FrameRows(nodes, hierarchy, layout, g, ids);
    IdCount(nodes, ids);
    AloneExactly(nodes, hierarchy, layout.parentOf);
    forall x | x in NodeIds(nodes)
      ensures RowStated(nodes, hierarchy, layout, g.virtualId, g.unattachedId, x)
    {
      RowFromPlace(nodes, hierarchy, layout, g, ids, x);
    }
    RowsTogether(nodes, hierarchy, layout, g.virtualId, g.unattachedId);
  }

  lemma RowsTogether(nodes: seq<GraphNode>, hierarchy: Option<GraphHierarchy>, layout: Layout, v: Id, u: Id)
    requires v !in NodeIds(nodes) && u !in NodeIds(nodes) && v != u && RootName(v) && GroupName(u)
    requires DistinctBy(RowId, layout.rows)
    requires layout.rows != [] && layout.rows[0] == TreeRow(v, None, None)
    requires forall x :: x in NodeIds(nodes) ==> RowStated(nodes, hierarchy, layout, v, u, x)
    requires |layout.rows| == |NodeIds(nodes)| + if SomeAlone(nodes, hierarchy, layout.parentOf) then 2 else 1
    requires SomeAlone(nodes, hierarchy, layout.parentOf) ==>
      |layout.rows| > 1 && layout.rows[1] == TreeRow(u, Some(v), None)
    ensures RowsStatedFor(nodes, hierarchy, layout, v, u)
  {
    hide NodeIds, RowStated, SomeAlone, DistinctBy, RootName, GroupName;
  }

  lemma DepthFromChain(nodes: seq<GraphNode>, hierarchy: Option<GraphHierarchy>, layout: Layout, g: Frame,
                       depth: map<Id, nat>, x: Id)
    requires Depths(layout.parentOf, NodeIds(nodes), depth) && x in NodeIds(nodes)
    requires LayoutDepths(layout.layoutDepth, g, layout.parentOf, NodeIds(nodes), depth)
    requires forall y :: StandsAlone(nodes, hierarchy, layout.parentOf, y) <==> y in g.unattached
    ensures x in layout.layoutDepth && DepthStated(nodes, hierarchy, layout, x)
  {
    var P, C := layout.parentOf, NodeIds(nodes);
    assert DepthAt(P, C, depth, x);
    if x in P {
      assert Ancestor(P, C, depth, x) == Ancestor(P, C, depth, P[x]);
    } else {
      assert Ancestor(P, C, depth, x) == x;
    }
    hide StandsAlone, Ancestor, NodeIds;
  }

  /** What any layout comes to. */
  lemma LayoutStated(nodes: seq<GraphNode>, edges: seq<GraphEdge>, hierarchy: Option<GraphHierarchy>, layout: Layout)
    requires IsLayoutOf(nodes, edges, hierarchy, layout)
    ensures ParentsStated(nodes, edges, hierarchy, layout) && IssuesStated(nodes, edges, hierarchy, layout)
    ensures RowsStated(nodes, hierarchy, layout) && DepthsStated(nodes, hierarchy, layout)
    ensures EdgesStated(nodes, edges, layout)
  {
    hide MadeBy;
    var m :| MadeBy(nodes, edges, hierarchy, layout, m);
    MadeParts(nodes, edges, hierarchy, layout, m);
    hide *;
    IssuesFromMaking(nodes, edges, hierarchy, layout, m);
    ParentsFromCuts(nodes, edges, hierarchy, layout, m.cuts);
    RowsFromMaking(nodes, hierarchy, layout, m);
    DepthsFromMaking(nodes, hierarchy, layout, m);
    EdgesFromSort(nodes, edges, layout);
  }

  lemma MadeParts(nodes: seq<GraphNode>, edges: seq<GraphEdge>, hierarchy: Option<GraphHierarchy>, layout: Layout,
                  m: Making)
    requires MadeBy(nodes, edges, hierarchy, layout, m)
    ensures CutsEveryCycleOnce(AcceptedParents(nodes, edges, hierarchy), layout.parentOf, m.cuts)
    ensures Depths(layout.parentOf, NodeIds(nodes), m.depth)
    ensures RowsPlace(nodes, layout.parentOf, hierarchy, layout.rows, m.frame, m.ids) && IdList(nodes, m.ids)
    ensures DistinctBy(RowId, layout.rows)
    ensures m.frame.unattached == UnattachedIds(layout.parentOf, ById(nodes), hierarchy)
    ensures LayoutDepths(layout.layoutDepth, m.frame, layout.parentOf, NodeIds(nodes), m.depth)
    ensures IssuesAre(nodes, edges, hierarchy, m.ids, m.cuts, layout.missingRelationships, layout.issues)
    ensures layout.edges == SortBy(EdgeId, KeepClosed(edges, NodeIds(nodes)))
    ensures layout.missingRelationships == |edges| - |layout.edges|
  {
    hide CutsEveryCycleOnce, Depths, LayoutDepths, IssuesAre, SortBy, KeepClosed, AcceptedParents, IdList, RowsFor;
  }

  lemma IssuesFromMaking(nodes: seq<GraphNode>, edges: seq<GraphEdge>, hierarchy: Option<GraphHierarchy>,
                         layout: Layout,
                         m: Making)
    requires IssuesAre(nodes, edges, hierarchy, m.ids, m.cuts, layout.missingRelationships, layout.issues)
    requires IdList(nodes, m.ids) && layout.missingRelationships == |edges| - |layout.edges|
    ensures IssuesStated(nodes, edges, hierarchy, layout)
    ensures forall x :: ParentCycle(x) in layout.issues <==> x in m.cuts
  {
    hide IssuesAre, IdList, Claims, HasTreeEdge, NodeIds, IssuesStated;
    var missing := layout.missingRelationships;
    forall x, p
      ensures MissingParent(x, p) in layout.issues <==> Claims(nodes, hierarchy, x, p) && p !in NodeIds(nodes)
      ensures NoTreeRelationship(x, p) in layout.issues <==>
        Claims(nodes, hierarchy, x, p) && p in NodeIds(nodes) && !HasTreeEdge(edges, x, p)
    {
      IssueOrigin(nodes, edges, hierarchy, m.ids, m.cuts, missing, layout.issues, MissingParent(x, p));
      IssueOrigin(nodes, edges, hierarchy, m.ids, m.cuts, missing, layout.issues, NoTreeRelationship(x, p));
    }
    forall x
      ensures DuplicateNode(x) in layout.issues <==> TwiceIn(nodes, x)
      ensures MissingRoot(x) in layout.issues <==>
        hierarchy.Some? && hierarchy.value.rootId == x && x != "" && x !in NodeIds(nodes)
      ensures ParentCycle(x) in layout.issues <==> x in m.cuts
    {
      IssueOrigin(nodes, edges, hierarchy, m.ids, m.cuts, missing, layout.issues, DuplicateNode(x));
      IssueOrigin(nodes, edges, hierarchy, m.ids, m.cuts, missing, layout.issues, MissingRoot(x));
      IssueOrigin(nodes, edges, hierarchy, m.ids, m.cuts, missing, layout.issues, ParentCycle(x));
    }
    forall n
      ensures MissingEndpoints(n) in layout.issues <==> n == missing > 0
    {
      IssueOrigin(nodes, edges, hierarchy, m.ids, m.cuts, missing, layout.issues, MissingEndpoints(n));
    }
    IssuesTogether(nodes, edges, hierarchy, layout);
  }

  lemma IssuesTogether(nodes: seq<GraphNode>, edges: seq<GraphEdge>, hierarchy: Option<GraphHierarchy>, layout: Layout)
    requires forall x, p :: MissingParent(x, p) in layout.issues <==>
      Claims(nodes, hierarchy, x, p) && p !in NodeIds(nodes)
    requires forall x, p :: NoTreeRelationship(x, p) in layout.issues <==>
      Claims(nodes, hierarchy, x, p) && p in NodeIds(nodes) && !HasTreeEdge(edges, x, p)
    requires forall x :: DuplicateNode(x) in layout.issues <==>
      TwiceIn(nodes, x)
    requires forall x :: MissingRoot(x) in layout.issues <==>
      hierarchy.Some? && hierarchy.value.rootId == x && x != "" && x !in NodeIds(nodes)
    requires forall n :: MissingEndpoints(n) in layout.issues <==> n == |edges| - |layout.edges| > 0
    ensures IssuesStated(nodes, edges, hierarchy, layout)
  {
    hide Claims, HasTreeEdge, NodeIds;
  }

  lemma RowsFromMaking(nodes: seq<GraphNode>, hierarchy: Option<GraphHierarchy>, layout: Layout, m: Making)
    requires RowsPlace(nodes, layout.parentOf, hierarchy, layout.rows, m.frame, m.ids) && DistinctBy(RowId, layout.rows)
    ensures RowsStated(nodes, hierarchy, layout)
  {
    RowsFromPlace(nodes, hierarchy, layout, m.frame, m.ids);
    hide RowsStatedFor;
  }

  lemma DepthsFromMaking(nodes: seq<GraphNode>, hierarchy: Option<GraphHierarchy>, layout: Layout, m: Making)
    requires Depths(layout.parentOf, NodeIds(nodes), m.depth)
    requires LayoutDepths(layout.layoutDepth, m.frame, layout.parentOf, NodeIds(nodes), m.depth)
    requires m.frame.unattached == UnattachedIds(layout.parentOf, ById(nodes), hierarchy)
    ensures DepthsStated(nodes, hierarchy, layout)
  {
    forall y
      ensures StandsAlone(nodes, hierarchy, layout.parentOf, y) <==> y in m.frame.unattached
    {
      AloneIsUnattached(nodes, hierarchy, layout.parentOf, y);
    }
    assert layout.layoutDepth.Keys == NodeIds(nodes);
    hide StandsAlone, UnattachedIds, ById, LayoutDepths, Depths, DepthStated;
    forall x | x in NodeIds(nodes)
      ensures x in layout.layoutDepth && DepthStated(nodes, hierarchy, layout, x)
    {
      DepthFromChain(nodes, hierarchy, layout, m.frame, m.depth, x);
    }
  }

  lemma EdgesFromSort(nodes: seq<GraphNode>, edges: seq<GraphEdge>, layout: Layout)
    requires layout.edges == SortBy(EdgeId, KeepClosed(edges, NodeIds(nodes)))
    requires layout.missingRelationships == |edges| - |layout.edges|
    ensures EdgesStated(nodes, edges, layout)
  {
    hide NodeIds, SortedBy, KeepClosed, SortBy;
    SortBySorted(EdgeId, KeepClosed(edges, NodeIds(nodes)));
    assert multiset(layout.edges) == multiset(KeepClosed(edges, NodeIds(nodes)));
    forall e
      ensures multiset(layout.edges)[e] ==
        if e.source in NodeIds(nodes) && e.target in NodeIds(nodes) then multiset(edges)[e] else 0
    {
      KeepClosedCount(edges, NodeIds(nodes), e);
    }
  }
}
