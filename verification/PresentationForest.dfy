/** Breadth-first spanning forests of the association graph: the invariant of their
discovery, and what a finished forest means. */
module PresentationForest {
  import opened Ids
  import opened Walks
  import opened GraphModel

  // ----- the forest as maps: what the traversal has decided so far -----

  /** `order` lists the visited nodes as they were discovered, `pos` is its inverse;
      `via` is the index of the tree edge of a node that has a parent. */
  datatype Forest = Forest(
    parent: map<Id, Id>,
    depth: map<Id, nat>,
    via: map<Id, nat>,
    order: seq<Id>,
    pos: map<Id, nat>,
    rootIds: seq<Id>)

  ghost predicate Listed(f: Forest)
  {
    && f.pos.Keys == f.depth.Keys
    && (forall x :: x in f.pos ==> f.pos[x] < |f.order| && f.order[f.pos[x]] == x)
    && (forall i :: 0 <= i < |f.order| ==> f.order[i] in f.pos && f.pos[f.order[i]] == i)
  }

  /** `x` hangs one level below an adjacent parent discovered earlier. */
  ghost predicate Hangs(f: Forest, links: Links, x: Id)
  {
    && x in f.parent && x in f.depth && f.parent[x] in f.depth
    && Adjacent(links, x, f.parent[x])
    && f.depth[x] == f.depth[f.parent[x]] + 1
  }

  /** Roots have depth 0; every other node hangs one level below an adjacent parent. */
  ghost predicate Parented(f: Forest, links: Links)
  {
    && (forall i, j :: 0 <= i < j < |f.rootIds| ==> f.rootIds[i] != f.rootIds[j])
    && (forall r :: r in f.rootIds ==> r in f.depth && r !in f.parent && f.depth[r] == 0)
    && f.parent.Keys <= f.depth.Keys
    && (forall x :: x in f.depth ==> x in f.parent || x in f.rootIds)
    && (forall x {:trigger Hangs(f, links, x)} :: x in f.parent ==> Hangs(f, links, x))
  }

  ghost predicate FirstEdge(edges: seq<GraphEdge>, x: Id, p: Id, k: nat)
  {
    && k < |edges| && IsAssociationEdge(edges[k]) && Joins(edges[k], x, p)
    && (forall j :: 0 <= j < k && IsAssociationEdge(edges[j]) ==> !Joins(edges[j], x, p))
  }

  /** The tree edge of a node is the first association edge that joins it to its parent. */
  ghost predicate FirstEdges(f: Forest, edges: seq<GraphEdge>)
  {
    && f.via.Keys == f.parent.Keys
    && (forall x {:trigger f.via[x]} :: x in f.parent ==> FirstEdge(edges, x, f.parent[x], f.via[x]))
  }

  /** The parent of `x` is discovered no later than its visited neighbour `y`. */
  ghost predicate ParentFirst(f: Forest, x: Id, y: Id)
  {
    x in f.parent && y in f.pos ==> f.parent[x] in f.pos && f.pos[f.parent[x]] <= f.pos[y]
  }

  /** The discoverers of `x` and `y`, and then their edges, come in this order. */
  ghost predicate Precedes(f: Forest, x: Id, y: Id)
  {
    && x in f.parent && y in f.parent && f.parent[x] in f.pos && f.parent[y] in f.pos
    && x in f.via && y in f.via
    && (|| f.pos[f.parent[x]] < f.pos[f.parent[y]]
        || (f.parent[x] == f.parent[y] && f.via[x] < f.via[y]))
  }

  ghost predicate Earlier(f: Forest, x: Id, y: Id)
  {
    x in f.pos && y in f.pos && f.pos[x] < f.pos[y]
  }

  /** Breadth-first order: a node hangs from its first discovered neighbour, and nodes
      are discovered in the order of their parents, then of their tree edges. */
  ghost predicate BreadthFirst(f: Forest, links: Links)
  {
    && (forall x, y {:trigger ParentFirst(f, x, y)} :: Adjacent(links, x, y) ==> ParentFirst(f, x, y))
    && (forall x, y {:trigger Precedes(f, x, y)} :: Precedes(f, x, y) ==> Earlier(f, x, y))
  }

  ghost predicate Sound(f: Forest, edges: seq<GraphEdge>)
  {
    && Listed(f)
    && Parented(f, Associations(edges))
    && FirstEdges(f, edges)
    && BreadthFirst(f, Associations(edges))
  }

  ghost predicate LevelStep(f: Forest, x: Id, y: Id)
  {
    x in f.depth && y in f.depth && f.depth[y] <= f.depth[x] + 1
  }

  /** The first `n` discovered nodes are processed: every neighbour is visited,
      at most one level deeper. */
  ghost predicate Levelled(f: Forest, links: Links, n: nat)
  {
    forall x, y {:trigger Adjacent(links, x, y)} ::
      x in f.pos && f.pos[x] < n && Adjacent(links, x, y) ==> LevelStep(f, x, y)
  }

  /** Discovery of one component began at `base` and has processed the nodes before `n`. */
  ghost predicate Frontier(f: Forest, links: Links, base: nat, n: nat)
  {
    && base <= n <= |f.order|
    && f.pos.Keys == f.depth.Keys
    && (forall i :: 0 <= i < |f.order| ==> f.order[i] in f.depth)
    && Levelled(f, links, n)
    && Sealed(f, links, base)
    && (forall i, j :: base <= i < j < |f.order| ==> f.depth[f.order[i]] <= f.depth[f.order[j]])
    && (n < |f.order| ==> f.depth[f.order[|f.order| - 1]] <= f.depth[f.order[n]] + 1)
  }

  /** No link leaves the first `base` discovered nodes. */
  ghost predicate Sealed(f: Forest, links: Links, base: nat)
  {
    forall x, y {:trigger Adjacent(links, x, y)} ::
      x in f.pos && f.pos[x] < base && Adjacent(links, x, y) ==> y in f.pos && f.pos[y] < base
  }

  /** Only the first `n` discovered nodes are parents. */
  ghost predicate ParentsWithin(f: Forest, n: nat)
  {
    forall x {:trigger f.parent[x]} :: x in f.parent ==> f.parent[x] in f.pos && f.pos[f.parent[x]] < n
  }

  /** The edges of `p` before index `j` are followed, and no later edge is used yet. */
  ghost predicate Followed(f: Forest, edges: seq<GraphEdge>, p: Id, j: nat)
  {
    && (forall i :: 0 <= i < j && i < |edges| && IsAssociationEdge(edges[i]) && Touches(edges[i], p) ==>
          LevelStep(f, p, OtherEnd(edges[i], p)))
    && (forall x {:trigger f.via[x]} :: x in f.parent && x in f.via && f.parent[x] == p ==> f.via[x] < j)
  }

  function Start(f: Forest, id: Id): Forest
  {
    f.(depth := f.depth[id := 0], order := f.order + [id], pos := f.pos[id := |f.order|], rootIds := f.rootIds + [id])
  }

  function Discover(f: Forest, j: nat, parent: Id, child: Id): Forest
    requires parent in f.depth
  {
    f.(parent := f.parent[child := parent], depth := f.depth[child := f.depth[parent] + 1],
       via := f.via[child := j], order := f.order + [child], pos := f.pos[child := |f.order|])
  }

  // ----- starting a component -----

  lemma StartParented(f: Forest, links: Links, id: Id)
    requires Parented(f, links) && id !in f.depth
    ensures Parented(Start(f, id), links)
  {
    var g := Start(f, id);
    assert id !in f.parent && id !in f.rootIds;
    forall x | x in g.parent
      ensures Hangs(g, links, x)
    {
      assert Hangs(f, links, x);
    }
  }

  lemma StartBreadthFirst(f: Forest, links: Links, id: Id)
    requires Listed(f) && Parented(f, links) && BreadthFirst(f, links) && id !in f.depth
    ensures BreadthFirst(Start(f, id), links)
  {
    var g := Start(f, id);
    forall x, y | Precedes(g, x, y)
      ensures Earlier(g, x, y)
    {
      assert Hangs(f, links, x) && Hangs(f, links, y);
      assert Precedes(f, x, y);
    }
    forall x, y | Adjacent(links, x, y)
      ensures ParentFirst(g, x, y)
    {
      if x in g.parent {
        assert Hangs(f, links, x) && ParentFirst(f, x, y);
      }
    }
  }

  lemma StartListed(f: Forest, id: Id)
    requires Listed(f) && id !in f.depth
    ensures Listed(Start(f, id))
  {
  }

  lemma StartSound(f: Forest, edges: seq<GraphEdge>, id: Id)
    requires Sound(f, edges) && id !in f.depth
    ensures Sound(Start(f, id), edges)
  {
    var g := Start(f, id);
    StartListed(f, id);
    StartParented(f, Associations(edges), id);
    StartBreadthFirst(f, Associations(edges), id);
    assert FirstEdges(g, edges);
  }

  lemma StartFrontier(f: Forest, links: Links, id: Id)
    requires Listed(f) && Parented(f, links) && Levelled(f, links, |f.order|) && id !in f.depth
    ensures Frontier(Start(f, id), links, |f.order|, |f.order|)
    ensures ParentsWithin(Start(f, id), |f.order|)
  {
    var g := Start(f, id);
    forall x | x in f.parent
      ensures f.parent[x] in f.pos && f.pos[f.parent[x]] < |f.order|
    {
      assert Hangs(f, links, x);
    }
    forall x, y | x in g.pos && g.pos[x] < |f.order| && Adjacent(links, x, y)
      ensures LevelStep(g, x, y)
    {
      assert LevelStep(f, x, y);
    }
  }

  // ----- discovering one node -----

  /** `child` is an unvisited neighbour of the node being processed, along edge `j`. */
  ghost predicate Discoverable(f: Forest, edges: seq<GraphEdge>, n: nat, j: nat, child: Id)
  {
    && n < |f.order| && j < |edges|
    && IsAssociationEdge(edges[j]) && Joins(edges[j], child, f.order[n])
    && child !in f.depth && f.order[n] in f.depth
    && Followed(f, edges, f.order[n], j)
  }

  lemma DiscoverListed(f: Forest, j: nat, parent: Id, child: Id)
    requires Listed(f) && child !in f.depth && parent in f.depth
    ensures Listed(Discover(f, j, parent, child))
  {
  }

  lemma DiscoverParented(f: Forest, links: Links, j: nat, parent: Id, child: Id)
    requires Parented(f, links) && child !in f.depth && parent in f.depth && Adjacent(links, child, parent)
    ensures Parented(Discover(f, j, parent, child), links)
  {
    var g := Discover(f, j, parent, child);
    forall x | x in g.parent
      ensures Hangs(g, links, x)
    {
      if x != child {
        assert Hangs(f, links, x);
      }
    }
  }

  lemma DiscoverFirstEdges(f: Forest, edges: seq<GraphEdge>, n: nat, j: nat, child: Id)
    requires FirstEdges(f, edges) && Discoverable(f, edges, n, j, child)
    ensures FirstEdges(Discover(f, j, f.order[n], child), edges)
  {
    var p := f.order[n];
    forall i | 0 <= i < j && IsAssociationEdge(edges[i])
      ensures !Joins(edges[i], child, p)
    {
      assert Touches(edges[i], p) ==> LevelStep(f, p, OtherEnd(edges[i], p));
    }
    assert FirstEdge(edges, child, p, j);
  }

  lemma DiscoverParentFirst(f: Forest, links: Links, n: nat, j: nat, child: Id, x: Id, y: Id)
    requires Listed(f) && ParentFirst(f, x, y) && Adjacent(links, x, y)
    requires Levelled(f, links, n) && ParentsWithin(f, n + 1)
    requires n < |f.order| && child !in f.depth && f.order[n] in f.depth
    ensures ParentFirst(Discover(f, j, f.order[n], child), x, y)
  {
    assert Adjacent(links, y, x);
    assert y in f.pos && f.pos[y] < n ==> LevelStep(f, y, x);
  }

  lemma DiscoverEarlier(f: Forest, edges: seq<GraphEdge>, n: nat, j: nat, child: Id, x: Id, y: Id)
    requires Listed(f) && Parented(f, Associations(edges)) && BreadthFirst(f, Associations(edges))
    requires ParentsWithin(f, n + 1) && Discoverable(f, edges, n, j, child)
    requires Precedes(Discover(f, j, f.order[n], child), x, y)
    ensures Earlier(Discover(f, j, f.order[n], child), x, y)
  {
    if x != child {
      assert Hangs(f, Associations(edges), x);
      if y != child {
        assert Hangs(f, Associations(edges), y);
        assert Precedes(f, x, y);
      }
    }
  }

  lemma DiscoverBreadthFirst(f: Forest, edges: seq<GraphEdge>, n: nat, j: nat, child: Id)
    requires Listed(f) && Parented(f, Associations(edges)) && BreadthFirst(f, Associations(edges))
    requires Levelled(f, Associations(edges), n) && ParentsWithin(f, n + 1)
    requires Discoverable(f, edges, n, j, child)
    ensures BreadthFirst(Discover(f, j, f.order[n], child), Associations(edges))
  {
    var g := Discover(f, j, f.order[n], child);
    forall x, y | Adjacent(Associations(edges), x, y)
      ensures ParentFirst(g, x, y)
    {
      assert ParentFirst(f, x, y);
      DiscoverParentFirst(f, Associations(edges), n, j, child, x, y);
    }
    forall x, y | Precedes(g, x, y)
      ensures Earlier(g, x, y)
    {
      DiscoverEarlier(f, edges, n, j, child, x, y);
    }
  }

  lemma DiscoverLevelled(f: Forest, links: Links, n: nat, j: nat, parent: Id, child: Id)
    requires Levelled(f, links, n) && n <= |f.order|
    requires parent in f.depth && child !in f.depth && child !in f.pos
    ensures Levelled(Discover(f, j, parent, child), links, n)
  {
    var g := Discover(f, j, parent, child);
    forall x, y | x in g.pos && g.pos[x] < n && Adjacent(links, x, y)
      ensures LevelStep(g, x, y)
    {
      assert LevelStep(f, x, y);
    }
  }

  lemma DiscoverFrontier(f: Forest, links: Links, base: nat, n: nat, j: nat, child: Id)
    requires Frontier(f, links, base, n) && ParentsWithin(f, n + 1)
    requires n < |f.order| && child !in f.depth && f.order[n] in f.pos && f.pos[f.order[n]] == n
    ensures Frontier(Discover(f, j, f.order[n], child), links, base, n)
    ensures ParentsWithin(Discover(f, j, f.order[n], child), n + 1)
  {
    var g := Discover(f, j, f.order[n], child);
    DiscoverLevelled(f, links, n, j, f.order[n], child);
    forall i | base <= i < |f.order|
      ensures g.depth[g.order[i]] == f.depth[f.order[i]] <= f.depth[f.order[|f.order| - 1]]
    {
    }
  }

  lemma DiscoverFollowed(f: Forest, edges: seq<GraphEdge>, n: nat, j: nat, child: Id)
    requires Discoverable(f, edges, n, j, child)
    ensures Followed(Discover(f, j, f.order[n], child), edges, f.order[n], j + 1)
  {
    var g := Discover(f, j, f.order[n], child);
    forall i | 0 <= i < j + 1 && IsAssociationEdge(edges[i]) && Touches(edges[i], f.order[n])
      ensures LevelStep(g, f.order[n], OtherEnd(edges[i], f.order[n]))
    {
      if i < j {
        assert LevelStep(f, f.order[n], OtherEnd(edges[i], f.order[n]));
      }
    }
  }

  /** One discovery keeps the whole invariant. */
  lemma DiscoverStep(f: Forest, edges: seq<GraphEdge>, base: nat, n: nat, j: nat, child: Id)
    requires Sound(f, edges) && Frontier(f, Associations(edges), base, n) && ParentsWithin(f, n + 1)
    requires Discoverable(f, edges, n, j, child)
    ensures var g := Discover(f, j, f.order[n], child);
      && Sound(g, edges)
      && Frontier(g, Associations(edges), base, n)
      && ParentsWithin(g, n + 1)
      && Followed(g, edges, f.order[n], j + 1)
  {
    AssociationEdge(edges, j);
    DiscoverListed(f, j, f.order[n], child);
    DiscoverParented(f, Associations(edges), j, f.order[n], child);
    DiscoverFirstEdges(f, edges, n, j, child);
    DiscoverBreadthFirst(f, edges, n, j, child);
    DiscoverFrontier(f, Associations(edges), base, n, j, child);
    DiscoverFollowed(f, edges, n, j, child);
  }

  /** When all edges of a node are followed, the node is processed. */
  lemma Processed(f: Forest, edges: seq<GraphEdge>, base: nat, n: nat)
    requires Listed(f) && Frontier(f, Associations(edges), base, n) && n < |f.order|
    requires Followed(f, edges, f.order[n], |edges|)
    ensures Frontier(f, Associations(edges), base, n + 1)
  {
    var links := Associations(edges);
    forall x, y | x in f.pos && f.pos[x] < n + 1 && Adjacent(links, x, y)
      ensures LevelStep(f, x, y)
    {
      if f.pos[x] == n {
        AdjacentByEdge(edges, x, y);
        var i :| 0 <= i < |edges| && IsAssociationEdge(edges[i]) && Joins(edges[i], x, y);
        assert y == OtherEnd(edges[i], x);
      }
    }
  }

  // ----- what the finished forest means -----

  /** `d` is the length of a shortest walk from `x` to `y`. */
  ghost predicate Distance(links: Links, x: Id, y: Id, d: nat)
  {
    && (exists p :: WalkFrom(links, p, x, y) && |p| == d + 1)
    && (forall p :: WalkFrom(links, p, x, y) ==> |p| >= d + 1)
  }

  /** Every visited node is reached from a root by parent steps, as many as its depth. */
  lemma {:induction false} WalkFromRoot(f: Forest, links: Links, x: Id) returns (r: Id, p: seq<Id>)
    requires Parented(f, links) && x in f.depth
    ensures r in f.rootIds && WalkFrom(links, p, r, x) && |p| == f.depth[x] + 1
    decreases f.depth[x]
  {
    if x in f.rootIds {
      r, p := x, [x];
    } else {
      assert Hangs(f, links, x);
      var q;
      r, q := WalkFromRoot(f, links, f.parent[x]);
      p := q + [x];
    }
  }

  /** No walk from a root is shorter than the depth of its end. */
  lemma {:induction false} DepthBound(f: Forest, links: Links, p: seq<Id>)
    requires Listed(f) && Levelled(f, links, |f.order|)
    requires IsWalk(links, p) && p[0] in f.depth && f.depth[p[0]] == 0
    ensures p[|p| - 1] in f.depth && f.depth[p[|p| - 1]] < |p|
  {
    if |p| > 1 {
      var q := p[..|p| - 1];
      assert IsWalk(links, q);
      DepthBound(f, links, q);
      assert Adjacent(links, p[|p| - 2], p[|p| - 2 + 1]);
      assert LevelStep(f, p[|p| - 2], p[|p| - 1]);
    }
  }

  lemma DepthIsDistance(f: Forest, links: Links, x: Id) returns (r: Id)
    requires Listed(f) && Parented(f, links) && Levelled(f, links, |f.order|) && x in f.depth
    ensures r in f.rootIds && Distance(links, r, x, f.depth[x])
  {
    var p;
    r, p := WalkFromRoot(f, links, x);
    forall q | WalkFrom(links, q, r, x)
      ensures |q| >= f.depth[x] + 1
    {
      DepthBound(f, links, q);
    }
  }

  // ----- root selection -----

  /** `r` is the root of its component: the requested root if it is there, else the
      smallest access point there, else the smallest node there. */
  ghost predicate Leads(kinds: map<Id, string>, links: Links, rootId: Id, r: Id)
  {
    && r in kinds
    && (|| r == rootId
        || (&& !(rootId in kinds && Connected(links, r, rootId))
            && forall x :: x in kinds && Connected(links, r, x) ==> Outranks(kinds, r, x)))
  }

  /** Access points come before other nodes, and smaller identifiers first. */
  ghost predicate Outranks(kinds: map<Id, string>, r: Id, x: Id)
    requires r in kinds && x in kinds
  {
    if kinds[x] == "ap" then kinds[r] == "ap" && AtMost(r, x)
    else kinds[r] == "ap" || AtMost(r, x)
  }

  /** `r` comes before the root `x`: it is the requested one, or outranks `x`, which is not. */
  ghost predicate RootBefore(kinds: map<Id, string>, rootId: Id, r: Id, x: Id)
  {
    x != rootId && (r == rootId || (r in kinds && x in kinds && Outranks(kinds, r, x)))
  }

  /** The roots come in the order of their ranks, the requested one before all others. */
  ghost predicate RootsRanked(kinds: map<Id, string>, rootId: Id, rootIds: seq<Id>)
  {
    && (forall i :: 0 <= i < |rootIds| ==> rootIds[i] in kinds)
    && (forall i, j :: 0 <= i < j < |rootIds| ==> RootBefore(kinds, rootId, rootIds[i], rootIds[j]))
  }

  /** The roots so far outrank all that is not visited yet. */
  ghost predicate RootsAhead(f: Forest, kinds: map<Id, string>, rootId: Id)
  {
    forall i, x :: 0 <= i < |f.rootIds| && f.rootIds[i] in kinds && x in kinds && x !in f.depth ==>
      f.rootIds[i] == rootId || Outranks(kinds, f.rootIds[i], x)
  }

  lemma RootAdded(f: Forest, g: Forest, kinds: map<Id, string>, rootId: Id, id: Id)
    requires RootsRanked(kinds, rootId, f.rootIds) && RootsAhead(f, kinds, rootId)
    requires g.rootIds == f.rootIds + [id] && f.depth.Keys <= g.depth.Keys && id in kinds && id !in f.depth
    requires id != rootId || f.rootIds == []
    requires id == rootId || forall x :: x in kinds && x !in f.depth ==> Outranks(kinds, id, x)
    ensures RootsRanked(kinds, rootId, g.rootIds) && RootsAhead(g, kinds, rootId)
  {
    var n := |f.rootIds|;
    assert g.rootIds[n] == id && forall i :: 0 <= i < n ==> g.rootIds[i] == f.rootIds[i];
    forall i | 0 <= i < n
      ensures RootBefore(kinds, rootId, f.rootIds[i], id)
    {
      assert f.rootIds[i] in kinds;
    }
    hide RootBefore, Outranks;
    forall i, j | 0 <= i < j <= n
      ensures RootBefore(kinds, rootId, g.rootIds[i], g.rootIds[j])
    {
      if j < n {
        assert RootBefore(kinds, rootId, f.rootIds[i], f.rootIds[j]);
      }
    }
    forall i, x | 0 <= i <= n && g.rootIds[i] in kinds && x in kinds && x !in g.depth
      ensures g.rootIds[i] == rootId || Outranks(kinds, g.rootIds[i], x)
    {
      assert x !in f.depth;
      if i < n {
        assert f.rootIds[i] in kinds;
      }
    }
  }

  /** A component has only one leader. */
  lemma LeaderUnique(kinds: map<Id, string>, links: Links, rootId: Id, r: Id, s: Id)
    requires Leads(kinds, links, rootId, r) && Leads(kinds, links, rootId, s) && Connected(links, r, s)
    ensures r == s
  {
    ConnectedSymmetric(links, r, s);
    if r != rootId && s != rootId {
      assert Outranks(kinds, r, s) && Outranks(kinds, s, r);
      if r != s {
        BeforeAsymmetric(if Before(r, s) then r else s, if Before(r, s) then s else r);
      }
    }
  }

  /** Nothing unvisited is connected to a finished component. */
  lemma UnvisitedComponent(f: Forest, links: Links, x: Id, y: Id)
    requires Listed(f) && Levelled(f, links, |f.order|) && x !in f.depth && Connected(links, x, y)
    ensures y !in f.depth
  {
    forall u, v | u in f.depth.Keys && Adjacent(links, u, v)
      ensures v in f.depth.Keys
    {
      assert LevelStep(f, u, v);
    }
    ConnectedConfined(links, f.depth.Keys, x, y);
  }

  /** The next unvisited node leads its component when everything that outranks it is visited. */
  lemma NextLeads(f: Forest, kinds: map<Id, string>, links: Links, rootId: Id, r: Id)
    requires Listed(f) && Levelled(f, links, |f.order|) && r in kinds && r !in f.depth
    requires rootId in kinds ==> rootId in f.depth
    requires forall x :: x in kinds && x !in f.depth ==> Outranks(kinds, r, x)
    ensures Leads(kinds, links, rootId, r)
  {
    if rootId in kinds && Connected(links, r, rootId) {
      UnvisitedComponent(f, links, r, rootId);
    }
    forall x | x in kinds && Connected(links, r, x)
      ensures Outranks(kinds, r, x)
    {
      UnvisitedComponent(f, links, r, x);
    }
  }

  /** When every node is visited from leaders, the roots are exactly the leaders. */
  lemma RootsAreLeaders(f: Forest, kinds: map<Id, string>, links: Links, rootId: Id, x: Id)
    requires Parented(f, links) && f.depth.Keys == kinds.Keys && x in kinds
    requires forall r :: r in f.rootIds ==> Leads(kinds, links, rootId, r)
    ensures x in f.rootIds <==> Leads(kinds, links, rootId, x)
  {
    if Leads(kinds, links, rootId, x) {
      var r, p := WalkFromRoot(f, links, x);
      LeaderUnique(kinds, links, rootId, r, x);
    }
  }

  // ----- counting tree edges -----

  /** No edge is the tree edge of two nodes. */
  lemma ViaInjective(f: Forest, edges: seq<GraphEdge>, x: Id, y: Id)
    requires Parented(f, Associations(edges)) && FirstEdges(f, edges)
    requires x in f.via && y in f.via && f.via[x] == f.via[y]
    ensures x == y
  {
    assert Hangs(f, Associations(edges), x) && Hangs(f, Associations(edges), y);
  }

  lemma {:induction false} InjectiveValues(m: map<Id, nat>)
    requires forall x, y :: x in m && y in m && m[x] == m[y] ==> x == y
    ensures |m.Values| == |m.Keys|
  {
    if m != map[] {
      var x :| x in m;
      var rest := m - {x};
      InjectiveValues(rest);
      assert m.Values == rest.Values + {m[x]};
      assert m.Keys == rest.Keys + {x};
    }
  }

  lemma {:induction false} DistinctSize(s: seq<Id>)
    requires forall i, j :: 0 <= i < j < |s| ==> s[i] != s[j]
    ensures |set x | x in s| == |s|
  {
    if s == [] {
      assert (set x | x in s) == {};
    } else {
      DistinctSize(s[1..]);
      assert (set x | x in s) == {s[0]} + (set x | x in s[1..]);
    }
  }

  lemma TreeEdgeCount(f: Forest, edges: seq<GraphEdge>)
    requires Sound(f, edges)
    ensures |f.via.Values| + |f.rootIds| == |f.depth|
  {
    forall x, y | x in f.via && y in f.via && f.via[x] == f.via[y]
      ensures x == y
    {
      ViaInjective(f, edges, x, y);
    }
    InjectiveValues(f.via);
    DistinctSize(f.rootIds);
    var roots := set r | r in f.rootIds;
    assert f.depth.Keys == f.parent.Keys + roots;
    assert f.parent.Keys !! roots;
  }

  // ----- the forest as the client receives it -----

  ghost predicate ShownNode(f: Forest, n: GraphNode)
  {
    n.parentId == Lookup(f.parent, n.id) && n.depth == Lookup(f.depth, n.id)
  }

  /** The records show the forest `f`. */
  ghost predicate Shows(f: Forest, nodes: seq<GraphNode>, edges: seq<GraphEdge>)
  {
    && f.depth.Keys == NodeIds(nodes)
    && (forall n {:trigger ShownNode(f, n)} :: n in nodes ==> ShownNode(f, n))
    && (forall j :: 0 <= j < |edges| ==> edges[j].treeRole == if j in f.via.Values then Tree else Secondary)
  }

  /** `f` is a finished forest, grown from leaders only. */
  ghost predicate Complete(f: Forest, kinds: map<Id, string>, rootId: Id, edges: seq<GraphEdge>)
  {
    && Sound(f, edges)
    && Levelled(f, Associations(edges), |f.order|)
    && f.depth.Keys == kinds.Keys
    && (forall r :: r in f.rootIds ==> Leads(kinds, Associations(edges), rootId, r))
    && RootsRanked(kinds, rootId, f.rootIds)
  }

  /** The depth of every node is the length of a shortest association path from a root. */
  ghost predicate ShortestDepths(nodes: seq<GraphNode>, edges: seq<GraphEdge>, rootIds: seq<Id>)
  {
    forall n :: n in nodes ==>
      n.depth.Some? && exists r :: r in rootIds && Distance(Associations(edges), r, n.id, n.depth.value)
  }

  /** The roots are distinct, are exactly the leaders of the association components, and come in rank
      order. */
  ghost predicate RootsLead(kinds: map<Id, string>, edges: seq<GraphEdge>, rootId: Id, rootIds: seq<Id>)
  {
    && (forall i, j :: 0 <= i < j < |rootIds| ==> rootIds[i] != rootIds[j])
    && (forall x :: x in rootIds <==> Leads(kinds, Associations(edges), rootId, x))
    && RootsRanked(kinds, rootId, rootIds)
  }

  /** `n` hangs from the node `p` one level above, by the first association edge between them. */
  ghost predicate HungFrom(nodes: seq<GraphNode>, edges: seq<GraphEdge>, n: GraphNode, p: Id)
  {
    && (exists m :: m in nodes && m.id == p && m.depth.Some? && n.depth == Some(m.depth.value + 1))
    && (exists k: nat :: FirstEdge(edges, n.id, p, k) && edges[k].treeRole == Tree)
  }

  /** Roots have no parent, other nodes hang from theirs, every tree edge joins a node to
      its parent, and there are as many tree edges as nodes that are not roots. */
  ghost predicate ParentsMarked(nodes: seq<GraphNode>, edges: seq<GraphEdge>, rootIds: seq<Id>)
  {
    && (forall n :: n in nodes ==> (n.id in rootIds <==> n.parentId == None))
    && (forall n :: n in nodes && n.parentId.Some? ==> HungFrom(nodes, edges, n, n.parentId.value))
    && (forall k :: 0 <= k < |edges| && edges[k].treeRole == Tree ==>
          exists n :: n in nodes && n.parentId.Some? && Joins(edges[k], n.id, n.parentId.value))
    && |TreeIndices(edges)| + |rootIds| == |NodeIds(nodes)|
  }

  ghost function TreeIndices(edges: seq<GraphEdge>): set<nat>
  {
    set j: nat | 0 <= j < |edges| && edges[j].treeRole == Tree
  }

  lemma ForestDepths(f: Forest, kinds: map<Id, string>, rootId: Id, nodes: seq<GraphNode>, edges: seq<GraphEdge>)
    requires Shows(f, nodes, edges) && Complete(f, kinds, rootId, edges)
    ensures ShortestDepths(nodes, edges, f.rootIds)
  {
    forall n | n in nodes
      ensures n.depth.Some? && exists r :: r in f.rootIds && Distance(Associations(edges), r, n.id, n.depth.value)
    {
      assert n.id in f.depth && ShownNode(f, n);
      var r := DepthIsDistance(f, Associations(edges), n.id);
    }
  }

  lemma ForestRoots(f: Forest, kinds: map<Id, string>, rootId: Id, edges: seq<GraphEdge>)
    requires Complete(f, kinds, rootId, edges)
    ensures RootsLead(kinds, edges, rootId, f.rootIds)
  {
    forall x
      ensures x in f.rootIds <==> Leads(kinds, Associations(edges), rootId, x)
    {
      if x in kinds {
        RootsAreLeaders(f, kinds, Associations(edges), rootId, x);
      }
    }
  }

  lemma ParentFacts(f: Forest, edges: seq<GraphEdge>, x: Id)
    requires Sound(f, edges) && x in f.parent
    ensures x in f.depth && f.parent[x] in f.depth && f.depth[x] == f.depth[f.parent[x]] + 1
    ensures x in f.via && f.via[x] in f.via.Values && FirstEdge(edges, x, f.parent[x], f.via[x])
  {
    assert Hangs(f, Associations(edges), x);
  }

  lemma ForestHangs(f: Forest, edges: seq<GraphEdge>, nodes: seq<GraphNode>, n: GraphNode)
    requires Shows(f, nodes, edges) && Sound(f, edges) && n in nodes && n.parentId.Some?
    ensures HungFrom(nodes, edges, n, n.parentId.value)
  {
    hide Sound, FirstEdge;
    assert ShownNode(f, n);
    var p := f.parent[n.id];
    ParentFacts(f, edges, n.id);
    assert p in NodeIds(nodes);
    var m :| m in nodes && m.id == p;
    assert ShownNode(f, m) && m.depth == Some(f.depth[p]);
    assert FirstEdge(edges, n.id, p, f.via[n.id]) && edges[f.via[n.id]].treeRole == Tree by {
      FirstEdgeBound(edges, n.id, p, f.via[n.id]);
    }
  }

  lemma FirstEdgeBound(edges: seq<GraphEdge>, x: Id, p: Id, k: nat)
    requires FirstEdge(edges, x, p, k)
    ensures k < |edges| && Joins(edges[k], x, p)
  {
  }

  lemma ForestTreeEdge(f: Forest, edges: seq<GraphEdge>, nodes: seq<GraphNode>, k: nat)
    requires Shows(f, nodes, edges) && Sound(f, edges) && k < |edges| && edges[k].treeRole == Tree
    ensures exists n :: n in nodes && n.parentId.Some? && Joins(edges[k], n.id, n.parentId.value)
  {
    hide Sound, FirstEdge;
    var x :| x in f.via && f.via[x] == k;
    ViaKeys(f, edges);
    ParentFacts(f, edges, x);
    FirstEdgeBound(edges, x, f.parent[x], k);
    var n :| n in nodes && n.id == x;
    assert ShownNode(f, n) && n.parentId == Some(f.parent[x]);
  }

  lemma ViaKeys(f: Forest, edges: seq<GraphEdge>)
    requires Sound(f, edges)
    ensures f.via.Keys == f.parent.Keys
    ensures forall v :: v in f.via.Values ==> v < |edges|
    ensures forall x :: x in f.depth ==> (x in f.rootIds <==> x !in f.parent)
  {
    forall v | v in f.via.Values
      ensures v < |edges|
    {
      var x :| x in f.via && f.via[x] == v;
      assert FirstEdge(edges, x, f.parent[x], f.via[x]);
    }
  }

  lemma TreeIndicesAreVia(f: Forest, nodes: seq<GraphNode>, edges: seq<GraphEdge>)
    requires Shows(f, nodes, edges) && Sound(f, edges)
    ensures |TreeIndices(edges)| + |f.rootIds| == |NodeIds(nodes)|
  {
    hide Sound;
    TreeEdgeCount(f, edges);
    ViaKeys(f, edges);
    assert TreeIndices(edges) == f.via.Values;
  }

  lemma ForestParents(f: Forest, nodes: seq<GraphNode>, edges: seq<GraphEdge>)
    requires Shows(f, nodes, edges) && Sound(f, edges)
    ensures ParentsMarked(nodes, edges, f.rootIds)
  {
    hide Sound, HungFrom;
    TreeIndicesAreVia(f, nodes, edges);
    ViaKeys(f, edges);
    forall n | n in nodes
      ensures n.id in f.rootIds <==> n.parentId == None
      ensures n.parentId.Some? ==> HungFrom(nodes, edges, n, n.parentId.value)
    {
      assert n.id in f.depth && ShownNode(f, n);
      if n.parentId.Some? {
        ForestHangs(f, edges, nodes, n);
      }
    }
    forall k | 0 <= k < |edges| && edges[k].treeRole == Tree
      ensures exists n :: n in nodes && n.parentId.Some? && Joins(edges[k], n.id, n.parentId.value)
    {
      ForestTreeEdge(f, edges, nodes, k);
    }
  }

  /** The two edge lists differ in tree roles only. */
  ghost predicate SameEvidence(a: seq<GraphEdge>, b: seq<GraphEdge>)
  {
    |a| == |b| && forall j :: 0 <= j < |a| ==> b[j] == a[j].(treeRole := b[j].treeRole)
  }

  lemma RolesIrrelevant(a: seq<GraphEdge>, b: seq<GraphEdge>)
    requires SameEvidence(a, b)
    ensures Associations(a) <= Associations(b)
  {
    forall l | l in Associations(a)
      ensures l in Associations(b)
    {
      var e :| e in a && IsAssociationEdge(e) && (e.source, e.target) == l;
      var j :| 0 <= j < |a| && a[j] == e;
      assert b[j] in b && IsAssociationEdge(b[j]);
    }
  }

  lemma FirstEdgesRoles(f: Forest, a: seq<GraphEdge>, b: seq<GraphEdge>)
    requires SameEvidence(a, b) && FirstEdges(f, a)
    ensures FirstEdges(f, b)
  {
    forall x | x in f.parent
      ensures FirstEdge(b, x, f.parent[x], f.via[x])
    {
      assert FirstEdge(a, x, f.parent[x], f.via[x]);
    }
  }

  lemma CompleteRoles(f: Forest, kinds: map<Id, string>, rootId: Id, a: seq<GraphEdge>, b: seq<GraphEdge>)
    requires SameEvidence(a, b) && Complete(f, kinds, rootId, a)
    ensures Complete(f, kinds, rootId, b)
  {
    assert SameEvidence(b, a);
    hide Listed, Parented, BreadthFirst, Levelled, Leads, FirstEdges, SameEvidence, Associations;
    RolesIrrelevant(a, b);
    RolesIrrelevant(b, a);
    assert Associations(a) == Associations(b);
    FirstEdgesRoles(f, a, b);
  }
}
