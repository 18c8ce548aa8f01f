/** The server's pages of a graph: two independent keyset cursors, and the endpoint rows that
close each page. */
module GraphPaging {
  import opened Ids
  import opened GraphModel

  // ----- a keyset query -----

  /** The rows whose key follows `after`; the empty key asks for all rows. */
  function RowsAfter<T>(key: T -> Id, rows: seq<T>, after: Id): seq<T>
  {
    if rows == [] then []
    else (if after == "" || Before(after, key(rows[0])) then [rows[0]] else []) + RowsAfter(key, rows[1..], after)
  }

  lemma {:induction false} AllAfter<T>(key: T -> Id, rows: seq<T>, after: Id)
    requires after == "" || forall i :: 0 <= i < |rows| ==> Before(after, key(rows[i]))
    ensures RowsAfter(key, rows, after) == rows
  {
    if rows != [] {
      AllAfter(key, rows[1..], after);
    }
  }

  /** In key order, the rows after row `i - 1` are the rows from `i` on. */
  lemma {:induction false} AfterPosition<T>(key: T -> Id, rows: seq<T>, i: nat)
    requires StrictlySortedBy(key, rows) && 0 < i <= |rows| && key(rows[i - 1]) != ""
    ensures RowsAfter(key, rows, key(rows[i - 1])) == rows[i..]
  {
    var after := key(rows[i - 1]);
    if i > 1 {
      BeforeAsymmetric(key(rows[0]), after);
      assert rows[1..][i - 2] == rows[i - 1];
      AfterPosition(key, rows[1..], i - 1);
      assert rows[1..][i - 1..] == rows[i..];
    } else {
      BeforeIrreflexive(after);
      AllAfter(key, rows[1..], after);
    }
  }

  // ----- the snapshot and the cursor -----

  /** The filtered nodes and edges, each in identifier order. */
  datatype Snapshot = Snapshot(nodes: seq<GraphNode>, edges: seq<GraphEdge>)

  ghost predicate EdgeInside(s: Snapshot, e: GraphEdge)
  {
    e.id != "" && e.source in NodeIds(s.nodes) && e.target in NodeIds(s.nodes)
  }

  ghost predicate ValidSnapshot(s: Snapshot)
  {
    && StrictlySortedBy(NodeId, s.nodes)
    && StrictlySortedBy(EdgeId, s.edges)
    && (forall n :: n in s.nodes ==> n.id != "")
    && (forall e {:trigger EdgeInside(s, e)} :: e in s.edges ==> EdgeInside(s, e))
  }

  datatype Cursor = Cursor(nodeAfter: Id, edgeAfter: Id, nodesDone: bool, edgesDone: bool)

  const NO_CURSOR := Cursor("", "", false, false)

  datatype Page = Page(nodes: seq<GraphNode>, edges: seq<GraphEdge>, next: Option<Cursor>, totalNodes: nat,
                       totalEdges: nat)

  const DEFAULT_PAGE_SIZE := 500
  const MAX_PAGE_SIZE := 1000

  function NormalizePageSize(size: int): (p: nat)
    ensures 1 <= p <= MAX_PAGE_SIZE
    ensures 1 <= size <= 1000 ==> p == size
    ensures size <= 0 ==> p == 500
    ensures size > 1000 ==> p == 1000
  {
    if size <= 0 then DEFAULT_PAGE_SIZE else if size > MAX_PAGE_SIZE then MAX_PAGE_SIZE else size
  }

  // ----- closing a page over the endpoints of its edges -----

  ghost function Endpoints(edges: seq<GraphEdge>): set<Id>
  {
    (set e | e in edges :: e.source) + (set e | e in edges :: e.target)
  }

  /** The rows with the given identifiers, in order. */
  function Selected(rows: seq<GraphNode>, ids: set<Id>): seq<GraphNode>
  {
    if rows == [] then []
    else (if rows[0].id in ids then [rows[0]] else []) + Selected(rows[1..], ids)
  }

  lemma {:induction false} SelectedMembers(rows: seq<GraphNode>, ids: set<Id>)
    ensures forall n :: n in Selected(rows, ids) <==> n in rows && n.id in ids
  {
    if rows != [] {
      SelectedMembers(rows[1..], ids);
      assert rows == [rows[0]] + rows[1..];
    }
  }

  /** Add the rows of endpoints that the page lacks; the cursor is not touched. */
  method CompleteGraphEdgeEndpoints(s: Snapshot, nodes: seq<GraphNode>, edges: seq<GraphEdge>)
    returns (r: seq<GraphNode>)
    ensures r == nodes + Selected(s.nodes, Endpoints(edges) - NodeIds(nodes))
  {
    var known := set n | n in nodes :: n.id;
    var missing: seq<Id> := [];
    for i := 0 to |edges|
      invariant known == NodeIds(nodes) + Endpoints(edges[..i])
      invariant forall x :: x in missing <==> x in Endpoints(edges[..i]) - NodeIds(nodes)
    {
      assert edges[..i + 1] == edges[..i] + [edges[i]];
      EndpointsMore(edges[..i], edges[i]);
      hide Endpoints, NodeIds;
      if edges[i].source !in known {
        known := known + {edges[i].source};
        missing := missing + [edges[i].source];
      }
      if edges[i].target !in known {
        known := known + {edges[i].target};
        missing := missing + [edges[i].target];
      }
    }
    assert edges[..|edges|] == edges;
    var ids := set x | x in missing;
    assert ids == Endpoints(edges) - NodeIds(nodes);
    if missing == [] {
      assert ids == {};
      SelectedNone(s.nodes);
      return nodes;
    }
    return nodes + Selected(s.nodes, ids);
  }

  lemma EndpointsMore(edges: seq<GraphEdge>, e: GraphEdge)
    ensures Endpoints(edges + [e]) == Endpoints(edges) + {e.source, e.target}
  {
    assert e in edges + [e];
  }

  lemma {:induction false} SelectedNone(rows: seq<GraphNode>)
    ensures Selected(rows, {}) == []
  {
    if rows != [] {
      SelectedNone(rows[1..]);
    }
  }

  /** Every edge of a page finds its endpoints on the page. */
  lemma PageClosed(s: Snapshot, nodes: seq<GraphNode>, edges: seq<GraphEdge>)
    requires forall e :: e in edges ==> e.source in NodeIds(s.nodes) && e.target in NodeIds(s.nodes)
    ensures var r := nodes + Selected(s.nodes, Endpoints(edges) - NodeIds(nodes));
      && NodeIds(r) == NodeIds(nodes) + Endpoints(edges)
      && forall n :: n in r ==> n in nodes || n in s.nodes
  {
    var ids := Endpoints(edges) - NodeIds(nodes);
    var r := nodes + Selected(s.nodes, ids);
    SelectedMembers(s.nodes, ids);
    forall x | x in ids
      ensures x in NodeIds(r)
    {
      var n :| n in s.nodes && n.id == x;
      assert n in Selected(s.nodes, ids) && n in r;
    }
    assert forall n :: n in nodes ==> n in r;
    forall x | x in NodeIds(r)
      ensures x in NodeIds(nodes) + Endpoints(edges)
    {
      var n :| n in r && n.id == x;
    }
  }

  lemma {:induction false} SelectedSorted(rows: seq<GraphNode>, ids: set<Id>)
    requires StrictlySortedBy(NodeId, rows)
    ensures StrictlySortedBy(NodeId, Selected(rows, ids))
  {
    if rows != [] {
      SelectedSorted(rows[1..], ids);
      SelectedMembers(rows[1..], ids);
      var rest := Selected(rows[1..], ids);
      forall j | 0 <= j < |rest|
        ensures Before(NodeId(rows[0]), NodeId(rest[j]))
      {
        assert rest[j] in rows[1..];
        var i :| 0 <= i < |rows[1..]| && rows[1..][i] == rest[j];
        assert rows[i + 1] == rest[j];
      }
    }
  }

  /** The added rows come in identifier order, and no node is twice on a page. */
  lemma PageDistinct(s: Snapshot, nodes: seq<GraphNode>, edges: seq<GraphEdge>)
    requires ValidSnapshot(s) && DistinctBy(NodeId, nodes)
    ensures var added := Selected(s.nodes, Endpoints(edges) - NodeIds(nodes));
      StrictlySortedBy(NodeId, added) && DistinctBy(NodeId, nodes + added)
  {
    var ids := Endpoints(edges) - NodeIds(nodes);
    var added := Selected(s.nodes, ids);
    SelectedSorted(s.nodes, ids);
    SelectedMembers(s.nodes, ids);
    var all := nodes + added;
    forall i, j | 0 <= i < j < |all|
      ensures NodeId(all[i]) != NodeId(all[j])
    {
      if i >= |nodes| {
        assert Before(NodeId(added[i - |nodes|]), NodeId(added[j - |nodes|]));
        BeforeIrreflexive(NodeId(all[i]));
      } else if j >= |nodes| {
        assert added[j - |nodes|] in added && nodes[i] in nodes;
      }
    }
  }

  // ----- one page -----

  function LastId<T>(key: T -> Id, rows: seq<T>, otherwise: Id): Id
  {
    if rows == [] then otherwise else key(rows[|rows| - 1])
  }

  /** One cursor's half of a page: at most `p` rows, and whether more follow. */
  function HalfPage<T>(key: T -> Id, rows: seq<T>, after: Id, done: bool, p: nat): (seq<T>, bool)
  {
    if done then ([], false)
    else
      var found := Limit(RowsAfter(key, rows, after), p + 1);
      (Limit(found, p), |found| > p)
  }

  /** The page at a cursor. */
  function PageAt(s: Snapshot, cursor: Cursor, p: nat): (seq<GraphNode>, seq<GraphEdge>, Option<Cursor>)
  {
    var (nodes, nodesMore) := HalfPage(NodeId, s.nodes, cursor.nodeAfter, cursor.nodesDone, p);
    var (edges, edgesMore) := HalfPage(EdgeId, s.edges, cursor.edgeAfter, cursor.edgesDone, p);
    var next := Cursor(LastId(NodeId, nodes, cursor.nodeAfter), LastId(EdgeId, edges, cursor.edgeAfter), !nodesMore,
      !edgesMore);
    (nodes, edges, if nodesMore || edgesMore then Some(next) else None)
  }

  /** One request: a node slice and an edge slice, closed over endpoints, and the next cursor. */
  method GraphPage(s: Snapshot, cursor0: Cursor, p: nat) returns (page: Page)
    ensures var (nodes, edges, next) := PageAt(s, cursor0, p);
      page == Page(nodes + Selected(s.nodes, Endpoints(edges) - NodeIds(nodes)), edges, next, |s.nodes|, |s.edges|)
  {
    hide RowsAfter, Endpoints, NodeIds, Selected;
    var cursor := cursor0;
    var nodes: seq<GraphNode>, nodesMore := [], false;
    if !cursor.nodesDone {
      nodes := Limit(RowsAfter(NodeId, s.nodes, cursor.nodeAfter), p + 1);
      if |nodes| > p {
        nodesMore := true;
        nodes := nodes[..p];
      }
    }
    var edges, edgesMore := FetchGraphEdgePage(s, cursor.edgeAfter, cursor.edgesDone, p);
    var nodeAfter := LastId(NodeId, nodes, cursor.nodeAfter);
    var closed := CompleteGraphEdgeEndpoints(s, nodes, edges);
    var next := None;
    if nodesMore || edgesMore {
      cursor := cursor.(nodesDone := !nodesMore, edgesDone := !edgesMore, nodeAfter := nodeAfter);
      if |edges| > 0 {
        cursor := cursor.(edgeAfter := edges[|edges| - 1].id);
      }
      next := Some(cursor);
    }
    page := Page(closed, edges, next, |s.nodes|, |s.edges|);
  }

  method FetchGraphEdgePage(s: Snapshot, after: Id, done: bool, p: nat) returns (edges: seq<GraphEdge>, more: bool)
    ensures (edges, more) == HalfPage(EdgeId, s.edges, after, done, p)
  {
    hide RowsAfter;
    if done {
      return [], false;
    }
    edges := Limit(RowsAfter(EdgeId, s.edges, after), p + 1);
    more := |edges| > p;
    if more {
      edges := edges[..p];
    }
  }

  // ----- where a run of pages stands -----

  /** How many of `n` rows the first `k` pages of size `p` list. */
  function Reached(n: nat, p: nat, k: nat): (i: nat)
    ensures i <= n
  {
    if k * p <= n then k * p else n
  }

  lemma ReachedStep(n: nat, p: nat, k: nat)
    ensures Reached(n, p, k) <= Reached(n, p, k + 1)
    ensures Reached(n, p, k + 1) == if Reached(n, p, k) + p <= n then Reached(n, p, k) + p else n
    ensures n > (k + 1) * p ==> Reached(n, p, k) == k * p
    ensures Reached(n, p, 0) == 0
  {
    assert (k + 1) * p == k * p + p;
  }

  function AfterRow<T>(key: T -> Id, rows: seq<T>, i: nat): Id
    requires i <= |rows|
  {
    if i == 0 then "" else key(rows[i - 1])
  }

  /** The cursor that the server hands out after `k` pages. */
  function CursorAfter(s: Snapshot, p: nat, k: nat): Cursor
  {
    var i, j := Reached(|s.nodes|, p, k), Reached(|s.edges|, p, k);
    if k == 0 then NO_CURSOR
    else Cursor(AfterRow(NodeId, s.nodes, i), AfterRow(EdgeId, s.edges, j), |s.nodes| <= k * p, |s.edges| <= k * p)
  }

  /** One cursor's half of page `k` lists rows `Reached(k)` to `Reached(k + 1)`. */
  lemma HalfPageFrom<T>(key: T -> Id, rows: seq<T>, after: Id, i: nat, j: nat, p: nat)
    requires i <= |rows| && j == if i + p <= |rows| then i + p else |rows|
    requires RowsAfter(key, rows, after) == rows[i..]
    ensures HalfPage(key, rows, after, false, p) == (rows[i..j], |rows| > i + p)
  {
    hide RowsAfter, Limit;
    LimitSlice(rows, i, j, p);
  }

  lemma HalfPageSlice<T>(key: T -> Id, rows: seq<T>, p: nat, k: nat, done: bool)
    requires StrictlySortedBy(key, rows) && (forall i :: 0 <= i < |rows| ==> key(rows[i]) != "") && p > 0
    requires done == (k > 0 && |rows| <= k * p)
    ensures var i, j := Reached(|rows|, p, k), Reached(|rows|, p, k + 1);
      && i <= j
      && HalfPage(key, rows, AfterRow(key, rows, i), done, p) == (rows[i..j], |rows| > (k + 1) * p)
      && LastId(key, rows[i..j], AfterRow(key, rows, i)) == AfterRow(key, rows, j)
  {
    var i, j := Reached(|rows|, p, k), Reached(|rows|, p, k + 1);
    ReachedStep(|rows|, p, k);
    assert (k + 1) * p == k * p + p;
    if done {
      assert i == |rows| && j == |rows| && rows[i..j] == [];
    } else {
      if i == 0 {
        AllAfter(key, rows, "");
        assert rows[0..] == rows;
      } else {
        AfterPosition(key, rows, i);
      }
      assert RowsAfter(key, rows, AfterRow(key, rows, i)) == rows[i..];
      NotDoneReached(|rows|, p, k);
      HalfPageFrom(key, rows, AfterRow(key, rows, i), i, j, p);
      hide RowsAfter, StrictlySortedBy, HalfPage;
    }
  }

  /** Asking for one row more than a page tells whether more follow. */
  lemma LimitSlice<T>(rows: seq<T>, i: nat, j: nat, p: nat)
    requires i <= |rows| && j == if i + p <= |rows| then i + p else |rows|
    ensures Limit(Limit(rows[i..], p + 1), p) == rows[i..j]
    ensures |Limit(rows[i..], p + 1)| > p <==> |rows| > i + p
  {
    if |rows| > i + p {
      assert rows[i..][..p + 1][..p] == rows[i..j];
    } else {
      assert rows[i..] == rows[i..j];
    }
  }

  lemma NotDoneReached(n: nat, p: nat, k: nat)
    requires !(k > 0 && n <= k * p)
    ensures Reached(n, p, k) == k * p
  {
  }

  lemma SortedKeys(s: Snapshot)
    requires ValidSnapshot(s)
    ensures forall i :: 0 <= i < |s.nodes| ==> NodeId(s.nodes[i]) != ""
    ensures forall i :: 0 <= i < |s.edges| ==> EdgeId(s.edges[i]) != ""
  {
    forall i | 0 <= i < |s.edges|
      ensures EdgeId(s.edges[i]) != ""
    {
      assert s.edges[i] in s.edges && EdgeInside(s, s.edges[i]);
    }
  }

  /** Page `k` of a run over a fixed snapshot: the `k`-th slices, and the cursor of page `k + 1`
      exactly when rows remain. */
  lemma PageOfRun(s: Snapshot, p: nat, k: nat)
    requires ValidSnapshot(s) && p > 0
    ensures
      var n0, n1 := Reached(|s.nodes|, p, k), Reached(|s.nodes|, p, k + 1);
      var e0, e1 := Reached(|s.edges|, p, k), Reached(|s.edges|, p, k + 1);
      && n0 <= n1 && e0 <= e1
      && PageAt(s, CursorAfter(s, p, k), p) ==
         (s.nodes[n0..n1], s.edges[e0..e1],
          if |s.nodes| > (k + 1) * p || |s.edges| > (k + 1) * p then Some(CursorAfter(s, p, k + 1)) else None)
  {
    SortedKeys(s);
    ReachedStep(|s.nodes|, p, k);
    ReachedStep(|s.edges|, p, k);
    HalfPageSlice(NodeId, s.nodes, p, k, k > 0 && |s.nodes| <= k * p);
    HalfPageSlice(EdgeId, s.edges, p, k, k > 0 && |s.edges| <= k * p);
    hide HalfPage, ValidSnapshot;
  }

  // ----- how many pages -----

  function PagesFor(n: nat, p: nat): nat
    requires p > 0
  {
    (n + p - 1) / p
  }

  /** The pages that a run takes: enough for the nodes and for the edges, and at least one. */
  function PagesNeeded(s: Snapshot, p: nat): (r: nat)
    requires p > 0
    ensures r >= 1
  {
    var a, b := PagesFor(|s.nodes|, p), PagesFor(|s.edges|, p);
    if a > 1 && a >= b then a else if b > 1 then b else 1
  }

  lemma PagesForExact(n: nat, p: nat, k: nat)
    requires p > 0
    ensures n <= k * p <==> PagesFor(n, p) <= k
  {
    var q, r := PagesFor(n, p), (n + p - 1) % p;
    assert n + p - 1 == q * p + r;
    if q <= k {
      Multiples(q, k, p);
    } else {
      Multiples(k + 1, q, p);
      assert (k + 1) * p == k * p + p;
    }
  }

  lemma Multiples(a: nat, b: nat, p: nat)
    requires a <= b
    ensures a * p <= b * p
  {
    assert b * p == a * p + (b - a) * p;
  }

  /** After `k >= 1` pages nothing remains exactly when `k` pages were enough. */
  lemma Remaining(s: Snapshot, p: nat, k: nat)
    requires p > 0 && k >= 1
    ensures (|s.nodes| > k * p || |s.edges| > k * p) <==> k < PagesNeeded(s, p)
  {
    PagesForExact(|s.nodes|, p, k);
    PagesForExact(|s.edges|, p, k);
  }

  /** No cursor is handed out twice. */
  lemma CursorsDiffer(s: Snapshot, p: nat, i: nat, j: nat)
    requires ValidSnapshot(s) && p > 0 && i < j < PagesNeeded(s, p)
    ensures CursorAfter(s, p, i) != CursorAfter(s, p, j)
  {
    SortedKeys(s);
    Remaining(s, p, j);
    Multiples(i + 1, j, p);
    assert (i + 1) * p == i * p + p;
    if |s.nodes| > j * p {
      RowsDiffer(NodeId, s.nodes, i * p, j * p);
    } else {
      RowsDiffer(EdgeId, s.edges, i * p, j * p);
    }
  }

  lemma RowsDiffer<T>(key: T -> Id, rows: seq<T>, i: nat, j: nat)
    requires StrictlySortedBy(key, rows) && (forall k :: 0 <= k < |rows| ==> key(rows[k]) != "")
    requires i < j <= |rows|
    ensures AfterRow(key, rows, i) != AfterRow(key, rows, j)
  {
    if i > 0 {
      BeforeAsymmetric(key(rows[i - 1]), key(rows[j - 1]));
    }
  }
}
