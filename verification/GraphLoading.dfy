/** The client's loop over all pages of a graph. */
module GraphLoading {
  import opened Ids
  import opened GraphModel
  import opened GraphPaging

  const MAX_PAGES := 400

  // ----- merging a page by identifier -----

  /** The accumulated rows and the rows of the page with new identifiers, in order of arrival. */
  function Merged<T>(key: T -> Id, acc: seq<T>, page: seq<T>): seq<T>
  {
    if page == [] then acc
    else
      var m := Merged(key, acc, page[..|page| - 1]);
      var x := page[|page| - 1];
      if HasKey(key, m, key(x)) then m else m + [x]
  }

  predicate HasKey<T>(key: T -> Id, rows: seq<T>, id: Id)
  {
    exists i :: 0 <= i < |rows| && key(rows[i]) == id
  }

  lemma {:induction false} MergedRows<T(!new)>(key: T -> Id, acc: seq<T>, page: seq<T>)
    requires DistinctBy(key, acc)
    ensures var m := Merged(key, acc, page);
      && DistinctBy(key, m)
      && KeySet(key, m) == KeySet(key, acc) + KeySet(key, page)
      && acc <= m
      && forall x :: x in m ==> x in acc || x in page
  {
    if page != [] {
      var front, x := page[..|page| - 1], page[|page| - 1];
      assert page == front + [x];
      MergedRows(key, acc, front);
      var m := Merged(key, acc, front);
      MergeOne(key, m, x);
      hide DistinctBy;
      assert KeySet(key, page) == KeySet(key, front) + {key(x)} by {
        assert x in page && forall y :: y in front ==> y in page;
      }
    }
  }

  lemma MergeOne<T(!new)>(key: T -> Id, m: seq<T>, x: T)
    requires DistinctBy(key, m)
    ensures HasKey(key, m, key(x)) <==> key(x) in KeySet(key, m)
    ensures !HasKey(key, m, key(x)) ==> DistinctBy(key, m + [x]) && KeySet(key, m + [x]) == KeySet(key, m) + {key(x)}
  {
    if HasKey(key, m, key(x)) {
      var i :| 0 <= i < |m| && key(m[i]) == key(x);
      assert m[i] in m;
    }
    if key(x) in KeySet(key, m) {
      var y :| y in m && key(y) == key(x);
      var i :| 0 <= i < |m| && m[i] == y;
    }
    assert x in m + [x] && forall y :: y in m ==> y in m + [x];
  }

  method Merge<T(!new)>(key: T -> Id, acc: seq<T>, ids: set<Id>, page: seq<T>) returns (rows: seq<T>, seen: set<Id>)
    requires DistinctBy(key, acc) && ids == KeySet(key, acc)
    ensures rows == Merged(key, acc, page) && seen == KeySet(key, rows)
  {
    rows, seen := acc, ids;
    for i := 0 to |page|
      invariant rows == Merged(key, acc, page[..i]) && seen == KeySet(key, rows) && DistinctBy(key, rows)
    {
      hide DistinctBy, KeySet, HasKey;
      assert page[..i + 1][..i] == page[..i];
      MergeOne(key, rows, page[i]);
      if key(page[i]) in seen {
        continue;
      }
      seen := seen + {key(page[i])};
      rows := rows + [page[i]];
    }
    assert page[..|page|] == page;
  }

  // ----- what the loop has accumulated -----

  /** The nodes of the first `k` pages in order of arrival: on each page its slice, then the endpoints
      of its edges that the slice lacks; each node where it arrives first. */
  ghost function Arrived(s: Snapshot, p: nat, k: nat): seq<GraphNode>
  {
    if k == 0 then []
    else
      var n0, n1 := Reached(|s.nodes|, p, k - 1), Reached(|s.nodes|, p, k);
      var e0, e1 := Reached(|s.edges|, p, k - 1), Reached(|s.edges|, p, k);
      if n0 <= n1 && e0 <= e1 then
        var slice, edges := s.nodes[n0..n1], s.edges[e0..e1];
        Merged(NodeId, Arrived(s, p, k - 1), slice + Selected(s.nodes, Endpoints(edges) - NodeIds(slice)))
      else []
  }

  /** After `k` pages: the edges are the first edges in order, and the nodes are the first nodes
      and the endpoints of those edges, each once. */
  ghost predicate Accumulated(s: Snapshot, p: nat, k: nat, nodes: seq<GraphNode>, edges: seq<GraphEdge>)
  {
    && edges == s.edges[..Reached(|s.edges|, p, k)] && nodes == Arrived(s, p, k)
    && DistinctBy(NodeId, nodes)
    && (forall n :: n in nodes ==> n in s.nodes)
    && NodeIds(nodes) == NodeIds(s.nodes[..Reached(|s.nodes|, p, k)]) + Endpoints(edges)
  }

  lemma NothingAccumulated(s: Snapshot, p: nat)
    ensures Accumulated(s, p, 0, [], [])
  {
    ReachedStep(|s.nodes|, p, 0);
    ReachedStep(|s.edges|, p, 0);
  }

  lemma NewKey(rows: seq<GraphEdge>, b: nat)
    requires DistinctBy(EdgeId, rows) && b < |rows|
    ensures !HasKey(EdgeId, rows[..b], EdgeId(rows[b]))
  {
  }

  /** Rows with new keys are all appended. */
  lemma {:induction false} AllNew(rows: seq<GraphEdge>, a: nat, b: nat)
    requires DistinctBy(EdgeId, rows) && a <= b <= |rows|
    ensures Merged(EdgeId, rows[..a], rows[a..b]) == rows[..b]
    decreases b
  {
    if a < b {
      var page := rows[a..b];
      assert page[..|page| - 1] == rows[a..b - 1] && page[|page| - 1] == rows[b - 1];
      assert rows[..b] == rows[..b - 1] + [rows[b - 1]];
      NewKey(rows, b - 1);
      AllNew(rows, a, b - 1);
      hide HasKey, DistinctBy;
    } else {
      assert rows[a..b] == [];
    }
  }

  lemma EdgesDistinct(s: Snapshot)
    requires ValidSnapshot(s)
    ensures DistinctBy(EdgeId, s.edges)
  {
    forall a, b | 0 <= a < b < |s.edges|
      ensures EdgeId(s.edges[a]) != EdgeId(s.edges[b])
    {
      BeforeIrreflexive(EdgeId(s.edges[a]));
    }
  }

  lemma MergePageNodes(s: Snapshot, n0: nat, n1: nat, nodes: seq<GraphNode>, edges: seq<GraphEdge>,
                       pageEdges: seq<GraphEdge>)
    requires ValidSnapshot(s) && n0 <= n1 <= |s.nodes| && DistinctBy(NodeId, nodes)
    requires (forall n :: n in nodes ==> n in s.nodes) && (forall e :: e in pageEdges ==> e in s.edges)
    requires NodeIds(nodes) == NodeIds(s.nodes[..n0]) + Endpoints(edges)
    ensures var pageNodes := s.nodes[n0..n1];
      var m := Merged(NodeId, nodes, pageNodes + Selected(s.nodes, Endpoints(pageEdges) - NodeIds(pageNodes)));
      && DistinctBy(NodeId, m)
      && (forall n :: n in m ==> n in s.nodes)
      && NodeIds(m) == NodeIds(s.nodes[..n1]) + Endpoints(edges + pageEdges)
  {
    hide ValidSnapshot, DistinctBy, Merged, Selected;
    var pageNodes := s.nodes[n0..n1];
    var closed := pageNodes + Selected(s.nodes, Endpoints(pageEdges) - NodeIds(pageNodes));
    PageNodes(s, pageNodes, pageEdges);
    MergedNodes(nodes, closed);
    assert s.nodes[..n1] == s.nodes[..n0] + pageNodes;
    IdsAppend(s.nodes[..n0], pageNodes);
    EndpointsAppend(edges, pageEdges);
    hide NodeIds, Endpoints;
  }

  lemma MergedNodes(nodes: seq<GraphNode>, page: seq<GraphNode>)
    requires DistinctBy(NodeId, nodes)
    ensures var m := Merged(NodeId, nodes, page);
      && DistinctBy(NodeId, m)
      && NodeIds(m) == NodeIds(nodes) + NodeIds(page)
      && forall n :: n in m ==> n in nodes || n in page
  {
    MergedRows(NodeId, nodes, page);
    hide Merged, DistinctBy;
    KeysAreIds(Merged(NodeId, nodes, page));
    KeysAreIds(nodes);
    KeysAreIds(page);
    hide KeySet, NodeIds;
  }

  /** Merging page `k` accumulates it. */
  lemma MergePage(s: Snapshot, p: nat, k: nat, nodes: seq<GraphNode>, edges: seq<GraphEdge>)
    requires ValidSnapshot(s) && p > 0 && Accumulated(s, p, k, nodes, edges)
    ensures var (pageNodes, pageEdges, next) := PageAt(s, CursorAfter(s, p, k), p);
      var closed := pageNodes + Selected(s.nodes, Endpoints(pageEdges) - NodeIds(pageNodes));
      Accumulated(s, p, k + 1, Merged(NodeId, nodes, closed), Merged(EdgeId, edges, pageEdges))
  {
    hide ValidSnapshot, Reached, CursorAfter, PageAt, Merged, DistinctBy, NodeIds, Endpoints, Selected;
    var n0, n1 := Reached(|s.nodes|, p, k), Reached(|s.nodes|, p, k + 1);
    var e0, e1 := Reached(|s.edges|, p, k), Reached(|s.edges|, p, k + 1);
    PageOfRun(s, p, k);
    EdgesDistinct(s);
    AllNew(s.edges, e0, e1);
    assert edges + s.edges[e0..e1] == s.edges[..e1];
    MergePageNodes(s, n0, n1, nodes, edges, s.edges[e0..e1]);
    assert Arrived(s, p, k + 1) == Merged(NodeId, nodes,
      s.nodes[n0..n1] + Selected(s.nodes, Endpoints(s.edges[e0..e1]) - NodeIds(s.nodes[n0..n1])));
  }

  lemma PageNodes(s: Snapshot, pageNodes: seq<GraphNode>, pageEdges: seq<GraphEdge>)
    requires ValidSnapshot(s) && (forall n :: n in pageNodes ==> n in s.nodes)
      && (forall e :: e in pageEdges ==> e in s.edges)
    ensures var closed := pageNodes + Selected(s.nodes, Endpoints(pageEdges) - NodeIds(pageNodes));
      && NodeIds(closed) == NodeIds(pageNodes) + Endpoints(pageEdges)
      && forall n :: n in closed ==> n in s.nodes
  {
    assert forall e :: e in pageEdges ==> EdgeInside(s, e);
    PageClosed(s, pageNodes, pageEdges);
  }

  lemma KeysAreIds(nodes: seq<GraphNode>)
    ensures KeySet(NodeId, nodes) == NodeIds(nodes)
  {
  }

  lemma IdsAppend(a: seq<GraphNode>, b: seq<GraphNode>)
    ensures NodeIds(a + b) == NodeIds(a) + NodeIds(b)
  {
  }

  lemma EndpointsAppend(a: seq<GraphEdge>, b: seq<GraphEdge>)
    ensures Endpoints(a + b) == Endpoints(a) + Endpoints(b)
  {
  }

  /** When nothing remains, the accumulated rows are the snapshot: the edges in order, and a
      reordering of the nodes. */
  lemma AllAccumulated(s: Snapshot, p: nat, k: nat, nodes: seq<GraphNode>, edges: seq<GraphEdge>)
    requires ValidSnapshot(s) && Accumulated(s, p, k, nodes, edges)
    requires p > 0 && k == PagesNeeded(s, p)
    ensures edges == s.edges && multiset(nodes) == multiset(s.nodes) && nodes == Arrived(s, p, k)
  {
    Remaining(s, p, k);
    hide PagesNeeded, ValidSnapshot, DistinctBy, Endpoints;
    assert s.edges[..|s.edges|] == s.edges && s.nodes[..|s.nodes|] == s.nodes;
    assert NodeIds(s.nodes) <= NodeIds(nodes);
    hide Reached, Accumulated;
    forall n | n in s.nodes
      ensures n in nodes
    {
      assert n.id in NodeIds(nodes);
      var m :| m in nodes && m.id == n.id;
      SameRecord(s, m, n);
    }
    NodesDistinct(s);
    SameElements(nodes, s.nodes);
  }

  lemma SameRecord(s: Snapshot, m: GraphNode, n: GraphNode)
    requires ValidSnapshot(s) && m in s.nodes && n in s.nodes && m.id == n.id
    ensures m == n
  {
    var i :| 0 <= i < |s.nodes| && s.nodes[i] == m;
    var j :| 0 <= j < |s.nodes| && s.nodes[j] == n;
    BeforeIrreflexive(m.id);
    assert i < j ==> Before(NodeId(s.nodes[i]), NodeId(s.nodes[j]));
    assert j < i ==> Before(NodeId(s.nodes[j]), NodeId(s.nodes[i]));
  }

  lemma NodesDistinct(s: Snapshot)
    requires ValidSnapshot(s)
    ensures DistinctBy(NodeId, s.nodes)
  {
    forall a, b | 0 <= a < b < |s.nodes|
      ensures NodeId(s.nodes[a]) != NodeId(s.nodes[b])
    {
      BeforeIrreflexive(NodeId(s.nodes[a]));
    }
  }

  lemma SameElements(a: seq<GraphNode>, b: seq<GraphNode>)
    requires DistinctBy(NodeId, a) && DistinctBy(NodeId, b) && forall n :: n in a <==> n in b
    ensures multiset(a) == multiset(b)
  {
    forall n
      ensures multiset(a)[n] == multiset(b)[n]
    {
      Once(NodeId, a, n);
      Once(NodeId, b, n);
      assert n in a <==> n in multiset(a);
      assert n in b <==> n in multiset(b);
    }
  }

  // ----- the loop -----

  datatype Outcome =
    | Finished(complete: bool, pages: nat, nodes: seq<GraphNode>, edges: seq<GraphEdge>, totalNodes: nat,
      totalEdges: nat)
    | TooManyPages
    | Rejected(pages: nat)

  /** What disturbs a run: the signal fires before request `cancelledAt`, and stays so; request
      `rejectedAt` is rejected, by the signal during it or by a failure. */
  datatype Signal = Signal(cancelledAt: Option<nat>, rejectedAt: Option<nat>)

  predicate Aborted(signal: Signal, k: nat)
  {
    signal.cancelledAt.Some? && signal.cancelledAt.value <= k
  }

  predicate Rejects(signal: Signal, k: nat)
  {
    signal.rejectedAt == Some(k)
  }

  /** The first `k` requests were made and answered. */
  ghost predicate Undisturbed(signal: Signal, k: nat)
  {
    && (signal.cancelledAt.Some? ==> k <= signal.cancelledAt.value)
    && (signal.rejectedAt.Some? ==> k <= signal.rejectedAt.value)
  }

  /** The cursors already seen: those after 1 to `k` pages. */
  ghost predicate SeenCursors(s: Snapshot, p: nat, k: nat, cursors: set<Cursor>)
  {
    forall c :: c in cursors ==> exists i :: 1 <= i <= k && c == CursorAfter(s, p, i)
  }

  lemma NewCursor(s: Snapshot, p: nat, k: nat, cursors: set<Cursor>)
    requires ValidSnapshot(s) && p > 0 && k + 1 < PagesNeeded(s, p) && SeenCursors(s, p, k, cursors)
    ensures CursorAfter(s, p, k + 1) !in cursors
    ensures SeenCursors(s, p, k + 1, cursors + {CursorAfter(s, p, k + 1)})
  {
    hide CursorAfter;
    forall i | 1 <= i <= k
      ensures CursorAfter(s, p, i) != CursorAfter(s, p, k + 1)
    {
      CursorsDiffer(s, p, i, k + 1);
    }
  }

  /** The totals are unknown before the first page, and then those of the snapshot. */
  ghost predicate ReportedTotals(s: Snapshot, pages: nat, totalNodes: nat, totalEdges: nat)
  {
    && totalNodes == (if pages == 0 then 0 else |s.nodes|)
    && totalEdges == (if pages == 0 then 0 else |s.edges|)
  }

  /** The outcome of a run.  Undisturbed it is complete, with exactly the edges in order and exactly
      the nodes, when the run needs at most 400 pages, and an error when it needs more.  A cancelled
      run reports the pages it has, and a rejected request rejects the call. */
  ghost predicate RightOutcome(s: Snapshot, p: nat, signal: Signal, r: Outcome)
    requires p > 0
  {
    && (r.TooManyPages? <==> PagesNeeded(s, p) > 400 && Undisturbed(signal, 400))
    && (r.Finished? && r.complete <==> PagesNeeded(s, p) <= 400 && Undisturbed(signal, PagesNeeded(s, p)))
    && (r.Finished? && r.complete ==>
          && r.pages == PagesNeeded(s, p)
          && r.edges == s.edges && multiset(r.nodes) == multiset(s.nodes) && r.nodes == Arrived(s, p, r.pages)
          && r.totalNodes == |s.nodes| && r.totalEdges == |s.edges|)
    && (r.Finished? && !r.complete ==>
          && Undisturbed(signal, r.pages) && Aborted(signal, r.pages)
          && Accumulated(s, p, r.pages, r.nodes, r.edges)
          && ReportedTotals(s, r.pages, r.totalNodes, r.totalEdges))
    && (r.Rejected? ==>
          && r.pages < PagesNeeded(s, p) && r.pages < 400
          && Undisturbed(signal, r.pages) && !Aborted(signal, r.pages) && Rejects(signal, r.pages))
  }

  lemma CancelledOutcome(s: Snapshot, p: nat, signal: Signal, k: nat, nodes: seq<GraphNode>, edges: seq<GraphEdge>,
                         totalNodes: nat, totalEdges: nat)
    requires p > 0 && k < MAX_PAGES && k < PagesNeeded(s, p) && Undisturbed(signal, k) && Aborted(signal, k)
    requires Accumulated(s, p, k, nodes, edges) && ReportedTotals(s, k, totalNodes, totalEdges)
    ensures RightOutcome(s, p, signal, Finished(false, k, nodes, edges, totalNodes, totalEdges))
  {
    hide Accumulated, PagesNeeded;
  }

  lemma RejectedOutcome(s: Snapshot, p: nat, signal: Signal, k: nat)
    requires p > 0 && k < MAX_PAGES && k < PagesNeeded(s, p)
    requires Undisturbed(signal, k) && !Aborted(signal, k) && Rejects(signal, k)
    ensures RightOutcome(s, p, signal, Rejected(k))
  {
    hide Accumulated, PagesNeeded;
  }

  lemma CompleteOutcome(s: Snapshot, p: nat, signal: Signal, k: nat, nodes: seq<GraphNode>, edges: seq<GraphEdge>)
    requires ValidSnapshot(s) && p > 0 && k <= MAX_PAGES && k == PagesNeeded(s, p) && Undisturbed(signal, k)
    requires Accumulated(s, p, k, nodes, edges)
    ensures RightOutcome(s, p, signal, Finished(true, k, nodes, edges, |s.nodes|, |s.edges|))
  {
    hide Accumulated, PagesNeeded, Undisturbed, Arrived;
    AllAccumulated(s, p, k, nodes, edges);
  }

  /** One request merged: the accumulated rows of one more page, and its cursor if rows remain. */
  ghost predicate Loaded(s: Snapshot, p: nat, k: nat, nodes: seq<GraphNode>, nodeIds: set<Id>,
                         edges: seq<GraphEdge>, edgeIds: set<Id>)
  {
    && Accumulated(s, p, k, nodes, edges)
    && nodeIds == KeySet(NodeId, nodes) && edgeIds == KeySet(EdgeId, edges)
    && DistinctBy(NodeId, nodes) && DistinctBy(EdgeId, edges)
  }

  method LoadPage(s: Snapshot, p: nat, ghost k: nat, cursor: Cursor, nodes0: seq<GraphNode>, nodeIds0: set<Id>,
                  edges0: seq<GraphEdge>, edgeIds0: set<Id>)
    returns (page: Page, nodes: seq<GraphNode>, nodeIds: set<Id>, edges: seq<GraphEdge>, edgeIds: set<Id>)
    requires ValidSnapshot(s) && p > 0 && k < PagesNeeded(s, p) && cursor == CursorAfter(s, p, k)
    requires Loaded(s, p, k, nodes0, nodeIds0, edges0, edgeIds0)
    ensures Loaded(s, p, k + 1, nodes, nodeIds, edges, edgeIds)
    ensures page.next.Some? <==> k + 1 < PagesNeeded(s, p)
    ensures page.next.Some? ==> page.next.value == CursorAfter(s, p, k + 1)
    ensures page.totalNodes == |s.nodes| && page.totalEdges == |s.edges|
  {
    hide Accumulated, ValidSnapshot, PagesNeeded, CursorAfter, PageAt, KeySet, DistinctBy, Merged, Endpoints, NodeIds,
      Selected;
    page := GraphPage(s, cursor, p);
    MergePage(s, p, k, nodes0, edges0);
    NextStep(s, p, k);
    nodes, nodeIds := Merge(NodeId, nodes0, nodeIds0, page.nodes);
    edges, edgeIds := Merge(EdgeId, edges0, edgeIds0, page.edges);
    AccumulatedDistinct(s, p, k + 1, nodes, edges);
  }

  datatype Progress = Progress(pages: nat, nodes: seq<GraphNode>, nodeIds: set<Id>, edges: seq<GraphEdge>,
                               edgeIds: set<Id>,
                               totalNodes: nat, totalEdges: nat, cursor: Cursor, cursors: set<Cursor>)

  /** The loop goes on: pages remain, and the cursor is the next one, not seen before. */
  ghost predicate Going(s: Snapshot, p: nat, signal: Signal, g: Progress)
    requires p > 0
  {
    && g.pages < MAX_PAGES && g.pages < PagesNeeded(s, p)
    && g.cursor == CursorAfter(s, p, g.pages)
    && Loaded(s, p, g.pages, g.nodes, g.nodeIds, g.edges, g.edgeIds)
    && SeenCursors(s, p, g.pages, g.cursors)
    && Undisturbed(signal, g.pages)
    && ReportedTotals(s, g.pages, g.totalNodes, g.totalEdges)
  }

  /** One request, unless the signal has fired: a `Some` outcome ends the loop. */
  method LoadNext(s: Snapshot, p: nat, signal: Signal, g: Progress) returns (r: Option<Outcome>, next: Progress)
    requires ValidSnapshot(s) && p > 0 && Going(s, p, signal, g)
    ensures r.Some? ==> RightOutcome(s, p, signal, r.value)
    ensures r.None? ==> Going(s, p, signal, next) && next.pages == g.pages + 1
  {
    hide RightOutcome, ValidSnapshot, Loaded, Accumulated, SeenCursors, Undisturbed, PagesNeeded, CursorAfter;
    next := g;
    if Aborted(signal, g.pages) {
      LoadedAccumulated(s, p, g.pages, g.nodes, g.nodeIds, g.edges, g.edgeIds);
      CancelledOutcome(s, p, signal, g.pages, g.nodes, g.edges, g.totalNodes, g.totalEdges);
      return Some(Finished(false, g.pages, g.nodes, g.edges, g.totalNodes, g.totalEdges)), next;
    }
    if Rejects(signal, g.pages) {
      RejectedOutcome(s, p, signal, g.pages);
      return Some(Rejected(g.pages)), next;
    }
    StillUndisturbed(signal, g.pages);
    var response, nodes, nodeIds, edges, edgeIds :=
      LoadPage(s, p, g.pages, g.cursor, g.nodes, g.nodeIds, g.edges, g.edgeIds);
    var pages := g.pages + 1;
    if response.next.None? {
      LoadedAccumulated(s, p, pages, nodes, nodeIds, edges, edgeIds);
      CompleteOutcome(s, p, signal, pages, nodes, edges);
      return Some(Finished(true, pages, nodes, edges, response.totalNodes, response.totalEdges)), next;
    }
    if pages >= MAX_PAGES {
      TooManyOutcome(s, p, signal, pages);
      return Some(TooManyPages), next;
    }
    var cursor := response.next.value;
    NewCursor(s, p, g.pages, g.cursors);
    if cursor in g.cursors {
      return Some(Finished(false, pages, nodes, edges, response.totalNodes, response.totalEdges)), next;
    }
    next := Progress(pages, nodes, nodeIds, edges, edgeIds, response.totalNodes, response.totalEdges, cursor,
      g.cursors + {cursor});
    return None, next;
  }

  /** Load every page, with a signal that may fire before or during any request. */
  method LoadAllGraphPages(s: Snapshot, pageSize: Option<int>, signal: Signal) returns (r: Outcome)
    requires ValidSnapshot(s)
    ensures RightOutcome(s, NormalizePageSize(if pageSize.Some? then pageSize.value else DEFAULT_PAGE_SIZE), signal, r)
  {
    var p := NormalizePageSize(if pageSize.Some? then pageSize.value else DEFAULT_PAGE_SIZE);
    hide RightOutcome, ValidSnapshot, NormalizePageSize;
    NothingLoaded(s, p, signal);
    var g := Progress(0, [], {}, [], {}, 0, 0, NO_CURSOR, {});
    while true
      invariant Going(s, p, signal, g)
      decreases MAX_PAGES - g.pages
    {
      var outcome, next := LoadNext(s, p, signal, g);
      if outcome.Some? {
        return outcome.value;
      }
      assert next.pages < MAX_PAGES;
      g := next;
    }
  }

  lemma LoadedAccumulated(s: Snapshot, p: nat, k: nat, nodes: seq<GraphNode>, nodeIds: set<Id>,
                          edges: seq<GraphEdge>, edgeIds: set<Id>)
    requires Loaded(s, p, k, nodes, nodeIds, edges, edgeIds)
    ensures Accumulated(s, p, k, nodes, edges)
  {
  }

  lemma TooManyOutcome(s: Snapshot, p: nat, signal: Signal, k: nat)
    requires p > 0 && k == MAX_PAGES && k < PagesNeeded(s, p) && Undisturbed(signal, k)
    ensures RightOutcome(s, p, signal, TooManyPages)
  {
  }

  lemma NothingLoaded(s: Snapshot, p: nat, signal: Signal)
    ensures SeenCursors(s, p, 0, {}) && Undisturbed(signal, 0) && CursorAfter(s, p, 0) == NO_CURSOR
    ensures Loaded(s, p, 0, [], {}, [], {})
  {
    NothingAccumulated(s, p);
  }

  lemma StillUndisturbed(signal: Signal, k: nat)
    requires Undisturbed(signal, k) && !Aborted(signal, k) && !Rejects(signal, k)
    ensures Undisturbed(signal, k + 1)
  {
  }

  lemma AccumulatedDistinct(s: Snapshot, p: nat, k: nat, nodes: seq<GraphNode>, edges: seq<GraphEdge>)
    requires ValidSnapshot(s) && Accumulated(s, p, k, nodes, edges)
    ensures DistinctBy(NodeId, nodes) && DistinctBy(EdgeId, edges)
  {
    EdgesDistinct(s);
  }

  lemma NextStep(s: Snapshot, p: nat, k: nat)
    requires ValidSnapshot(s) && p > 0 && k < PagesNeeded(s, p)
    ensures PageAt(s, CursorAfter(s, p, k), p).2 ==
      if k + 1 < PagesNeeded(s, p) then Some(CursorAfter(s, p, k + 1)) else None
  {
    PageOfRun(s, p, k);
    Remaining(s, p, k + 1);
    hide PageAt, CursorAfter, PagesNeeded;
  }
}
