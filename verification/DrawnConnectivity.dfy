/** Which connections between nodes an aggregated drawing keeps. */
module DrawnConnectivity {
  import opened Ids
  import opened Walks
  import opened GraphModel
  import opened Quotient
  import opened GraphAggregate
  import opened GraphRender

  // ----- the links that merging by key leaves -----

  function ImageLink(image: Images, e: GraphEdge): (Id, Id)
    requires e.source in image && e.target in image
  {
    (image[e.source], image[e.target])
  }

  predicate SamePair(p: (Id, Id), q: (Id, Id))
  {
    p == q || p == (q.1, q.0)
  }

  /** The images of the edges that are first with their key. */
  ghost function FirstLinks(edges: seq<GraphEdge>, image: Images): Links
    requires EdgesInside(edges, image)
  {
    set k: nat | k < |edges| && FirstWithKey(edges, image, k) :: ImageLink(image, edges[k])
  }

  /** The key of edge `k` was taken by edge `j`, which joins other images. */
  ghost predicate Shadows(edges: seq<GraphEdge>, image: Images, j: nat, k: nat)
    requires EdgesInside(edges, image)
  {
    && j < k < |edges| && FirstWithKey(edges, image, j) && image[edges[k].source] != image[edges[k].target]
    && Remapped(image, edges[j]).id == Remapped(image, edges[k]).id
    && !SamePair(ImageLink(image, edges[j]), ImageLink(image, edges[k]))
  }

  /** The images of a shadowed edge are connected without it. */
  ghost predicate ShadowsHarmless(edges: seq<GraphEdge>, image: Images)
    requires EdgesInside(edges, image)
  {
    forall j: nat, k: nat :: Shadows(edges, image, j, k) ==>
      Connected(FirstLinks(edges, image), image[edges[k].source], image[edges[k].target])
  }

  /** Exactly the first edges are drawn. */
  lemma FirstLinksDrawn(edges: seq<GraphEdge>, image: Images, drawn: seq<GraphEdge>)
    requires EdgesInside(edges, image) && EdgesDrawn(edges, image, drawn)
    ensures ClosedLinks(drawn) == FirstLinks(edges, image)
  {
    forall l | l in ClosedLinks(drawn)
      ensures l in FirstLinks(edges, image)
    {
      var d :| d in drawn && l == (d.source, d.target);
      var k: nat :| DrawnAs(edges, image, k, d);
      assert l == ImageLink(image, edges[k]);
    }
    forall l | l in FirstLinks(edges, image)
      ensures l in ClosedLinks(drawn)
    {
      var k: nat :| k < |edges| && FirstWithKey(edges, image, k) && l == ImageLink(image, edges[k]);
      assert edges[k] in edges;
      var d :| d in drawn && d.id == Remapped(image, edges[k]).id;
      var m: nat :| DrawnAs(edges, image, m, d);
      OneFirst(edges, image, k, m);
    }
  }

  lemma OneFirst(edges: seq<GraphEdge>, image: Images, k: nat, m: nat)
    requires EdgesInside(edges, image) && FirstWithKey(edges, image, k) && FirstWithKey(edges, image, m)
    requires Remapped(image, edges[k]).id == Remapped(image, edges[m]).id
    ensures k == m
  {
    hide Remapped;
  }

  /** Some edge is first with the key of edge `k`. */
  lemma {:induction false} FirstExists(edges: seq<GraphEdge>, image: Images, k: nat) returns (j: nat)
    requires EdgesInside(edges, image) && k < |edges| && image[edges[k].source] != image[edges[k].target]
    ensures j <= k && FirstWithKey(edges, image, j) && Remapped(image, edges[j]).id == Remapped(image, edges[k]).id
  {
    hide Remapped;
    j := k;
    if !FirstWithKey(edges, image, k) {
      var i :| 0 <= i < k && image[edges[i].source] != image[edges[i].target]
               && Remapped(image, edges[i]).id == Remapped(image, edges[k]).id;
      j := FirstExists(edges, image, i);
    }
  }

  /** The first edges connect the images of every edge exactly when no shadowed edge loses its own. */
  lemma CoversExactly(edges: seq<GraphEdge>, image: Images)
    requires EdgesInside(edges, image)
    ensures Inside(ClosedLinks(edges), image)
    ensures CoversLinks(ClosedLinks(edges), image, FirstLinks(edges, image)) <==> ShadowsHarmless(edges, image)
  {
    var first := FirstLinks(edges, image);
    if CoversLinks(ClosedLinks(edges), image, first) {
      forall j: nat, k: nat | Shadows(edges, image, j, k)
        ensures Connected(first, image[edges[k].source], image[edges[k].target])
      {
        assert edges[k] in edges;
        assert (edges[k].source, edges[k].target) in ClosedLinks(edges);
      }
    }
    if ShadowsHarmless(edges, image) {
      forall l | l in ClosedLinks(edges)
        ensures Connected(first, image[l.0], image[l.1])
      {
        var e :| e in edges && l == (e.source, e.target);
        var k: nat :| k < |edges| && edges[k] == e;
        EdgeCovered(edges, image, k);
      }
    }
  }

  lemma EdgeCovered(edges: seq<GraphEdge>, image: Images, k: nat)
    requires EdgesInside(edges, image) && ShadowsHarmless(edges, image) && k < |edges|
    ensures Connected(FirstLinks(edges, image), image[edges[k].source], image[edges[k].target])
  {
    var first, s, t := FirstLinks(edges, image), image[edges[k].source], image[edges[k].target];
    if s == t {
      ConnectedReflexive(first, s);
    } else {
      var j := FirstExists(edges, image, k);
      assert ImageLink(image, edges[j]) in first;
      if SamePair(ImageLink(image, edges[j]), ImageLink(image, edges[k])) {
        ConnectedStep(first, s, t);
      } else {
        assert Shadows(edges, image, j, k);
      }
    }
  }

  // ----- one drawing -----

  ghost predicate IsDrawing(nodes: seq<GraphNode>, edges: seq<GraphEdge>, expanded: set<Id>, drawn: seq<GraphEdge>)
    requires UniqueNodes(nodes)
  {
    var closed := KeepClosed(edges, NodeIds(nodes));
    && EdgesInside(closed, ImageOf(nodes, closed, expanded))
    && EdgesDrawn(closed, ImageOf(nodes, closed, expanded), drawn)
  }

  /** Two nodes are connected exactly when what is drawn for them is. */
  ghost predicate KeepsConnections(nodes: seq<GraphNode>, edges: seq<GraphEdge>, expanded: set<Id>,
                                   drawn: seq<GraphEdge>)
    requires UniqueNodes(nodes)
  {
    var closed := KeepClosed(edges, NodeIds(nodes));
    PreservesConnectivity(ClosedLinks(closed), ImageOf(nodes, closed, expanded), ClosedLinks(drawn))
  }

  /** Connections are kept exactly when every edge whose key was taken by an edge between other
      images has its own images connected by the first edges; none is ever added. */
  lemma AggregationConnectivity(nodes: seq<GraphNode>, kinds: map<Id, string>, closed: seq<GraphEdge>,
                                expanded: set<Id>, drawn: seq<GraphEdge>)
    requires UniqueNodes(nodes) && forall n :: n in nodes ==> !IsSummaryId(n.id)
    requires EdgesInside(closed, ImageMap(NodeIds(nodes), Groups(nodes, kinds, closed), expanded))
    requires EdgesDrawn(closed, ImageMap(NodeIds(nodes), Groups(nodes, kinds, closed), expanded), drawn)
    ensures var image := ImageMap(NodeIds(nodes), Groups(nodes, kinds, closed), expanded);
      && (PreservesConnectivity(ClosedLinks(closed), image, ClosedLinks(drawn)) <==> ShadowsHarmless(closed, image))
      && (forall x, y :: x in image && y in image && Connected(ClosedLinks(drawn), image[x], image[y]) ==>
            Connected(ClosedLinks(closed), x, y))
  {
    var image := ImageMap(NodeIds(nodes), Groups(nodes, kinds, closed), expanded);
    ImagesContract(nodes, kinds, closed, expanded);
    hide ImageMap, Groups, EdgesDrawn, ShadowsHarmless;
    EdgesDrawnFrom(closed, image, drawn);
    FirstLinksDrawn(closed, image, drawn);
    CoversExactly(closed, image);
    ConnectivityExact(ClosedLinks(closed), image, ClosedLinks(drawn));
    forall x, y | x in image && y in image && Connected(ClosedLinks(drawn), image[x], image[y])
      ensures Connected(ClosedLinks(closed), x, y)
    {
      DrawnNeverConnectsMore(ClosedLinks(closed), image, ClosedLinks(drawn), x, y);
    }
  }

  /** The same for the drawing of a whole scene. */
  lemma ModelConnectivity(nodes: seq<GraphNode>, edges: seq<GraphEdge>, expanded: set<Id>, drawn: seq<GraphEdge>)
    requires UniqueNodes(nodes) && forall n :: n in nodes ==> !IsSummaryId(n.id)
    requires IsDrawing(nodes, edges, expanded, drawn)
    ensures
      var closed := KeepClosed(edges, NodeIds(nodes));
      var image := ImageOf(nodes, closed, expanded);
      && (KeepsConnections(nodes, edges, expanded, drawn) <==> ShadowsHarmless(closed, image))
      && (forall x, y :: x in image && y in image && Connected(ClosedLinks(drawn), image[x], image[y]) ==>
            Connected(ClosedLinks(closed), x, y))
  {
    hide KeepClosed, EdgesDrawn, Groups, KindMap, ImageMap, ShadowsHarmless;
    AggregationConnectivity(nodes, KindMap(nodes), KeepClosed(edges, NodeIds(nodes)), expanded, drawn);
  }

  // ----- every edge list -----

  ghost predicate EdgesOver(edges: seq<GraphEdge>, kinds: set<string>, image: Images)
  {
    EdgesInside(edges, image) && forall e :: e in edges ==> e.kind in kinds
  }

  /** Edges between different pairs of identifiers have one key. */
  predicate Clash(k: string, s: Id, t: Id, l: string, u: Id, v: Id)
  {
    s != t && u != v && EdgeKey(k, s, t) == EdgeKey(l, u, v) && !SamePair((s, t), (u, v))
  }

  ghost predicate NoClash(kinds: set<string>, ids: set<Id>)
  {
    forall k, l, s, t, u, v ::
      k in kinds && l in kinds && s in ids && t in ids && u in ids && v in ids ==> !Clash(k, s, t, l, u, v)
  }

  /** Two edges that clash: the second is not drawn, and its images are apart. */
  lemma ClashLoses(e: GraphEdge, f: GraphEdge, image: Images)
    requires EdgesInside([e, f], image)
    requires Clash(e.kind, image[e.source], image[e.target], f.kind, image[f.source], image[f.target])
    ensures !ShadowsHarmless([e, f], image)
    ensures !Connected(FirstLinks([e, f], image), image[f.source], image[f.target])
  {
    var edges, u, v := [e, f], image[f.source], image[f.target];
    assert edges[0] == e && edges[1] == f;
    assert FirstWithKey(edges, image, 0) && Shadows(edges, image, 0, 1);
    var first := FirstLinks(edges, image);
    assert !FirstWithKey(edges, image, 1);
    assert first == {ImageLink(image, e)};
    if Connected(first, u, v) {
      var x := if u == image[e.source] || u == image[e.target] then v else u;
      ConnectedConfined(first, {x}, u, v);
    }
  }

  lemma NoClashHarmless(edges: seq<GraphEdge>, kinds: set<string>, image: Images)
    requires EdgesOver(edges, kinds, image) && NoClash(kinds, image.Values)
    ensures ShadowsHarmless(edges, image)
  {
    forall j: nat, k: nat | j < k < |edges|
      ensures !Shadows(edges, image, j, k)
    {
      var e, f := edges[j], edges[k];
      assert e in edges && f in edges;
      var s, t, u, v := image[e.source], image[e.target], image[f.source], image[f.target];
      assert Shadows(edges, image, j, k) ==> Clash(e.kind, s, t, f.kind, u, v);
    }
  }

  lemma ClashingEdges(kinds: set<string>, image: Images) returns (edges: seq<GraphEdge>)
    requires !NoClash(kinds, image.Values)
    ensures EdgesOver(edges, kinds, image) && !ShadowsHarmless(edges, image)
  {
    hide Clash, ShadowsHarmless;
    var k, l, s, t, u, v :| k in kinds && l in kinds && s in image.Values && t in image.Values
      && u in image.Values && v in image.Values && Clash(k, s, t, l, u, v);
    var a :| a in image && image[a] == s;
    var b :| b in image && image[b] == t;
    var c :| c in image && image[c] == u;
    var d :| d in image && image[d] == v;
    var e, f := GraphEdge("1", a, b, k, Unset), GraphEdge("2", c, d, l, Unset);
    edges := [e, f];
    assert EdgesOver(edges, kinds, image);
    ClashLoses(e, f, image);
  }

  /** Every edge list over these kinds and images keeps its connections exactly when no two keys
      clash. */
  lemma KeysExactly(kinds: set<string>, image: Images)
    ensures (forall edges :: EdgesOver(edges, kinds, image) ==> ShadowsHarmless(edges, image)) <==>
            NoClash(kinds, image.Values)
  {
    hide ShadowsHarmless, NoClash, EdgesInside;
    if !NoClash(kinds, image.Values) {
      var edges := ClashingEdges(kinds, image);
    }
    forall edges | NoClash(kinds, image.Values) && EdgesOver(edges, kinds, image)
      ensures ShadowsHarmless(edges, image)
    {
      NoClashHarmless(edges, kinds, image);
    }
  }

  // ----- what a clash looks like -----

  /** Identifiers `s` and `v` that `w` continues, one to its right and one to its left. */
  predicate Overlap(ids: set<Id>, s: Id, w: string, v: Id)
  {
    && s in ids && v in ids && s + ":" + w in ids && w + ":" + v in ids
    && s != w + ":" + v && s + ":" + w != v && !(s == v && s + ":" + w == w + ":" + v)
  }

  ghost predicate NoOverlap(ids: set<Id>)
  {
    forall s, w, v :: !Overlap(ids, s, w, v)
  }

  lemma FirstColon(a: string, b: string, c: string, d: string)
    requires a + ":" + b == c + ":" + d && NoColon(a) && NoColon(c)
    ensures a == c && b == d
  {
    var s := a + ":" + b;
    assert s[|a|] == ':' && s[|c|] == ':';
    assert forall i :: 0 <= i < |a| ==> s[i] == a[i];
    assert forall i :: 0 <= i < |c| ==> s[i] == c[i];
    assert |a| == |c|;
    assert a == s[..|a|] && b == s[|a| + 1..];
  }

  /** Equal texts with different first parts overlap. */
  lemma SplitOverlap(s: Id, t: Id, u: Id, v: Id) returns (w: string)
    requires |s| < |u| && s + ":" + t == u + ":" + v
    ensures u == s + ":" + w && t == w + ":" + v
  {
    var all := s + ":" + t;
    w := u[|s| + 1..];
    assert all[..|u|] == u && all[..|s| + 1] == s + ":";
    assert u[..|s| + 1] == all[..|s| + 1];
    assert u == u[..|s| + 1] + w;
    assert t == all[|s| + 1..];
    assert all == s + ":" + (w + ":" + v);
    assert (s + ":" + (w + ":" + v))[|s| + 1..] == w + ":" + v;
  }

  lemma SameLengthSplit(s: Id, t: Id, u: Id, v: Id)
    requires |s| == |u| && s + ":" + t == u + ":" + v
    ensures s == u && t == v
  {
    var all := s + ":" + t;
    assert s == all[..|s|] && t == all[|s| + 1..];
    assert u == all[..|u|] && v == all[|u| + 1..];
  }

  lemma ClashOverlaps(ids: set<Id>, k: string, s: Id, t: Id, l: string, u: Id, v: Id)
    requires NoColon(k) && NoColon(l) && s in ids && t in ids && u in ids && v in ids && Clash(k, s, t, l, u, v)
    ensures !NoOverlap(ids)
  {
    assert EdgeKey(k, s, t) == k + ":" + (s + ":" + t);
    assert EdgeKey(l, u, v) == l + ":" + (u + ":" + v);
    FirstColon(k, s + ":" + t, l, u + ":" + v);
    if |s| < |u| {
      var w := SplitOverlap(s, t, u, v);
      assert Overlap(ids, s, w, v);
    } else if |u| < |s| {
      var w := SplitOverlap(u, v, s, t);
      assert Overlap(ids, u, w, t);
    } else {
      SameLengthSplit(s, t, u, v);
    }
  }

  lemma OverlapClashes(k: string, ids: set<Id>, s: Id, w: string, v: Id)
    requires Overlap(ids, s, w, v)
    ensures Clash(k, s, w + ":" + v, k, s + ":" + w, v)
  {
    assert EdgeKey(k, s, w + ":" + v) == EdgeKey(k, s + ":" + w, v);
    assert |s + ":" + w| > |s|;
  }

  /** For kinds without a colon, keys clash exactly when identifiers overlap. */
  lemma OverlapExactly(kinds: set<string>, ids: set<Id>)
    requires kinds != {} && forall k :: k in kinds ==> NoColon(k)
    ensures NoClash(kinds, ids) <==> NoOverlap(ids)
  {
    if !NoOverlap(ids) {
      var s, w, v :| Overlap(ids, s, w, v);
      var k :| k in kinds;
      OverlapClashes(k, ids, s, w, v);
    }
    if !NoClash(kinds, ids) {
      var k, l, s, t, u, v :| k in kinds && l in kinds && s in ids && t in ids && u in ids && v in ids
        && Clash(k, s, t, l, u, v);
      ClashOverlaps(ids, k, s, t, l, u, v);
    }
  }

  // ----- scenes without summaries -----

  lemma {:induction false} DrawingExists(edges: seq<GraphEdge>, image: Images) returns (drawn: seq<GraphEdge>)
    requires EdgesInside(edges, image)
    ensures EdgesDrawn(edges, image, drawn)
  {
    if edges == [] {
      drawn := [];
    } else {
      var n := |edges| - 1;
      drawn := DrawingExists(edges[..n], image);
      EdgeMore(edges, image, n, drawn);
      assert edges[..n + 1] == edges;
      var d := Remapped(image, edges[n]);
      drawn := if d.source == d.target || HasEdge(drawn, d.id) then drawn else drawn + [d];
    }
  }

  lemma NothingSummarised(ids: set<Id>, groups: map<Id, Id>, expanded: set<Id>)
    requires forall x :: x in groups ==> groups[x] in expanded
    ensures ImageMap(ids, groups, expanded) == map x | x in ids :: x
    ensures ImageMap(ids, groups, expanded).Values == ids
  {
    var image := ImageMap(ids, groups, expanded);
    forall x | x in ids
      ensures x in image.Values
    {
      assert image[x] == x;
    }
  }

  /** With every access point expanded each node is drawn by itself. */
  lemma ExpandedImage(nodes: seq<GraphNode>, closed: seq<GraphEdge>)
    requires UniqueNodes(nodes)
    ensures ImageOf(nodes, closed, NodeIds(nodes)) == map x | x in NodeIds(nodes) :: x
    ensures ImageOf(nodes, closed, NodeIds(nodes)).Values == NodeIds(nodes)
  {
    GroupsAreNodes(nodes, closed);
    hide Groups, KindMap, NodeIds, UniqueNodes;
    NothingSummarised(NodeIds(nodes), Groups(nodes, KindMap(nodes), closed), NodeIds(nodes));
  }

  ghost predicate KindsOf(edges: seq<GraphEdge>, kinds: set<string>)
  {
    forall e :: e in edges ==> e.kind in kinds
  }

  /** Drawn with every access point expanded, all edge lists over these kinds keep their
      connections exactly when no identifiers overlap. */
  lemma ExpandedExactly(nodes: seq<GraphNode>, kinds: set<string>)
    requires UniqueNodes(nodes) && forall n :: n in nodes ==> !IsSummaryId(n.id)
    requires kinds != {} && forall k :: k in kinds ==> NoColon(k)
    ensures
      (forall edges, drawn :: KindsOf(edges, kinds) && IsDrawing(nodes, edges, NodeIds(nodes), drawn) ==>
         KeepsConnections(nodes, edges, NodeIds(nodes), drawn)) <==> NoOverlap(NodeIds(nodes))
  {
    hide *;
    var ids := NodeIds(nodes);
    if NoOverlap(ids) {
      forall edges, drawn | KindsOf(edges, kinds) && IsDrawing(nodes, edges, ids, drawn)
        ensures KeepsConnections(nodes, edges, ids, drawn)
      {
        ExpandedKeeps(nodes, edges, kinds, drawn);
      }
    } else {
      var edges, drawn := ExpandedLoses(nodes, kinds);
    }
  }

  lemma ExpandedKeeps(nodes: seq<GraphNode>, edges: seq<GraphEdge>, kinds: set<string>, drawn: seq<GraphEdge>)
    requires UniqueNodes(nodes) && (forall n :: n in nodes ==> !IsSummaryId(n.id)) && NoOverlap(NodeIds(nodes))
    requires kinds != {} && forall k :: k in kinds ==> NoColon(k)
    requires KindsOf(edges, kinds) && IsDrawing(nodes, edges, NodeIds(nodes), drawn)
    ensures KeepsConnections(nodes, edges, NodeIds(nodes), drawn)
  {
    hide KeepClosed, ImageOf, IsDrawing, NoOverlap, NoClash, ShadowsHarmless, KeepsConnections;
    var closed := KeepClosed(edges, NodeIds(nodes));
    var image := ImageOf(nodes, closed, NodeIds(nodes));
    ExpandedImage(nodes, closed);
    KeepClosedMembers(edges, NodeIds(nodes));
    OverlapExactly(kinds, image.Values);
    NoClashHarmless(closed, kinds, image);
    ModelConnectivity(nodes, edges, NodeIds(nodes), drawn);
  }

  lemma ExpandedLoses(nodes: seq<GraphNode>, kinds: set<string>) returns (edges: seq<GraphEdge>, drawn: seq<GraphEdge>)
    requires UniqueNodes(nodes) && (forall n :: n in nodes ==> !IsSummaryId(n.id)) && !NoOverlap(NodeIds(nodes))
    requires kinds != {}
    ensures KindsOf(edges, kinds) && IsDrawing(nodes, edges, NodeIds(nodes), drawn)
    ensures !KeepsConnections(nodes, edges, NodeIds(nodes), drawn)
  {
    hide KeepClosed, ImageOf, Clash, EdgeKey, EdgesDrawn, NodeIds, ShadowsHarmless, KeepsConnections;
    var ids := NodeIds(nodes);
    var s, w, v :| Overlap(ids, s, w, v);
    var k :| k in kinds;
    OverlapClashes(k, ids, s, w, v);
    var e, f := GraphEdge("1", s, w + ":" + v, k, Unset), GraphEdge("2", s + ":" + w, v, k, Unset);
    edges := [e, f];
    PairClosed(e, f, ids);
    ExpandedImage(nodes, edges);
    var image := ImageOf(nodes, edges, ids);
    ClashLoses(e, f, image);
    drawn := DrawingExists(edges, image);
    ModelConnectivity(nodes, edges, ids, drawn);
  }

  lemma PairClosed(e: GraphEdge, f: GraphEdge, ids: set<Id>)
    requires e.source in ids && e.target in ids && f.source in ids && f.target in ids
    ensures KeepClosed([e, f], ids) == [e, f]
  {
    assert [e, f][..1] == [e] && [e][..0] == [];
    assert KeepClosed([e], ids) == [e];
  }

  // ----- a condition on the input for every drawing -----

  /** No identifier continues another one after a colon. */
  ghost predicate ColonFree(ids: set<Id>)
  {
    forall a, b :: a in ids && b in ids && a != b ==> !(a + ":" <= b)
  }

  lemma ColonFreeNoOverlap(ids: set<Id>)
    requires ColonFree(ids)
    ensures NoOverlap(ids)
  {
    forall s, w, v
      ensures !Overlap(ids, s, w, v)
    {
      assert s + ":" <= s + ":" + w && |s + ":" + w| > |s|;
    }
  }

  lemma PlainBeforeSummary(a: Id, g: Id)
    requires a + ":" <= SummaryId(g)
    ensures a == "aggregate" || IsSummaryId(a)
  {
    var b := SummaryId(g);
    assert b[..|a|] == a && b[|a|] == ':';
    assert forall i :: 0 <= i < 9 ==> AGGREGATE[i] != ':' && b[i] == AGGREGATE[i];
    assert b[..10] == AGGREGATE && AGGREGATE[..9] == "aggregate";
    if |a| == 9 {
      assert a == b[..10][..9];
    } else {
      assert a[..10] == b[..10];
    }
  }

  lemma SummaryBeforeSummary(g: Id, h: Id)
    requires SummaryId(g) + ":" <= SummaryId(h)
    ensures g + ":" <= h
  {
    assert g + ":" == (SummaryId(g) + ":")[10..] && h == SummaryId(h)[10..];
  }

  lemma SummaryBeforePlain(g: Id, b: Id)
    requires SummaryId(g) + ":" <= b
    ensures IsSummaryId(b)
  {
    assert b[..10] == (SummaryId(g) + ":")[..10] == AGGREGATE;
  }

  /** The condition on the input: identifiers that do not continue one another, none of them
      the summary prefix. */
  lemma InputKeysApart(ids: set<Id>, groups: map<Id, Id>, expanded: set<Id>)
    requires ColonFree(ids) && "aggregate" !in ids && (forall x :: x in ids ==> !IsSummaryId(x))
    requires forall x :: x in groups ==> groups[x] in ids
    ensures ColonFree(ImageMap(ids, groups, expanded).Values)
  {
    hide SummaryId, IsSummaryId, Summarised;
    var image := ImageMap(ids, groups, expanded);
    forall x, y | x in image && y in image && image[x] != image[y]
      ensures !(image[x] + ":" <= image[y])
    {
      var a, b := image[x], image[y];
      if a + ":" <= b {
        if a in ids && b !in ids {
          PlainBeforeSummary(a, groups[y]);
        } else if a !in ids && b in ids {
          SummaryBeforePlain(groups[x], b);
        } else if a !in ids && b !in ids {
          SummaryBeforeSummary(groups[x], groups[y]);
        }
      }
    }
  }

  /** Everything that a scene with these nodes can draw. */
  function PossibleImages(nodes: seq<GraphNode>): set<Id>
  {
    NodeIds(nodes) + set n | n in nodes && n.kind == "ap" :: SummaryId(n.id)
  }

  lemma ImagesPossible(nodes: seq<GraphNode>, closed: seq<GraphEdge>, expanded: set<Id>)
    requires UniqueNodes(nodes)
    ensures ImageOf(nodes, closed, expanded).Values <= PossibleImages(nodes)
  {
    var kinds := KindMap(nodes);
    var groups := Groups(nodes, kinds, closed);
    forall x | x in groups
      ensures SummaryId(groups[x]) in PossibleImages(nodes)
    {
      assert kinds[groups[x]] == "ap";
    }
  }

  /** Possible images that do not overlap keep every connection of every edge list, whatever is
      expanded. */
  lemma NoOverlapKeeps(nodes: seq<GraphNode>, edges: seq<GraphEdge>, expanded: set<Id>, drawn: seq<GraphEdge>)
    requires UniqueNodes(nodes) && NoOverlap(PossibleImages(nodes))
    requires (forall n :: n in nodes ==> !IsSummaryId(n.id)) && forall e :: e in edges ==> NoColon(e.kind)
    requires IsDrawing(nodes, edges, expanded, drawn)
    ensures KeepsConnections(nodes, edges, expanded, drawn)
  {
    var closed := KeepClosed(edges, NodeIds(nodes));
    var image := ImageOf(nodes, closed, expanded);
    KeepClosedMembers(edges, NodeIds(nodes));
    ImagesPossible(nodes, closed, expanded);
    FewerOverlaps(image.Values, PossibleImages(nodes));
    hide ImageOf, KeepClosed, NoOverlap, NoClash, ShadowsHarmless, PossibleImages;
    var kinds := (set e | e in edges :: e.kind) + {""};
    OverlapExactly(kinds, image.Values);
    NoClashHarmless(closed, kinds, image);
    ModelConnectivity(nodes, edges, expanded, drawn);
  }

  /** Every edge list over these kinds keeps its connections, whatever is expanded. */
  ghost predicate AlwaysKeeps(nodes: seq<GraphNode>, kinds: set<string>)
    requires UniqueNodes(nodes)
  {
    forall edges, expanded, drawn :: KindsOf(edges, kinds) && IsDrawing(nodes, edges, expanded, drawn) ==>
      KeepsConnections(nodes, edges, expanded, drawn)
  }

  /** It is enough that no possible images overlap, and necessary that no identifiers do; without
      access points the two are one. */
  lemma AnyExpansion(nodes: seq<GraphNode>, kinds: set<string>)
    requires UniqueNodes(nodes) && forall n :: n in nodes ==> !IsSummaryId(n.id)
    requires kinds != {} && forall k :: k in kinds ==> NoColon(k)
    ensures NoOverlap(PossibleImages(nodes)) ==> AlwaysKeeps(nodes, kinds)
    ensures AlwaysKeeps(nodes, kinds) ==> NoOverlap(NodeIds(nodes))
    ensures (forall n :: n in nodes ==> n.kind != "ap") ==> PossibleImages(nodes) == NodeIds(nodes)
  {
    if NoOverlap(PossibleImages(nodes)) {
      forall edges, expanded, drawn | KindsOf(edges, kinds) && IsDrawing(nodes, edges, expanded, drawn)
        ensures KeepsConnections(nodes, edges, expanded, drawn)
      {
        hide IsDrawing, KeepsConnections, NoOverlap, PossibleImages;
        NoOverlapKeeps(nodes, edges, expanded, drawn);
      }
    }
    if !NoOverlap(NodeIds(nodes)) {
      hide IsDrawing, KeepsConnections, NoOverlap, PossibleImages;
      var edges, drawn := ExpandedLoses(nodes, kinds);
    }
  }

  lemma FewerOverlaps(ids: set<Id>, more: set<Id>)
    requires ids <= more && NoOverlap(more)
    ensures NoOverlap(ids)
  {
    forall s, w, v
      ensures !Overlap(ids, s, w, v)
    {
      assert !Overlap(more, s, w, v);
    }
  }

  /** Identifiers that do not continue one another keep every connection, whatever is expanded. */
  lemma ColonFreeKeeps(nodes: seq<GraphNode>, edges: seq<GraphEdge>, expanded: set<Id>, drawn: seq<GraphEdge>)
    requires UniqueNodes(nodes) && ColonFree(NodeIds(nodes)) && "aggregate" !in NodeIds(nodes)
    requires (forall n :: n in nodes ==> !IsSummaryId(n.id)) && forall e :: e in edges ==> NoColon(e.kind)
    requires IsDrawing(nodes, edges, expanded, drawn)
    ensures KeepsConnections(nodes, edges, expanded, drawn)
  {
    var closed := KeepClosed(edges, NodeIds(nodes));
    var image := ImageOf(nodes, closed, expanded);
    var groups := Groups(nodes, KindMap(nodes), closed);
    KeepClosedMembers(edges, NodeIds(nodes));
    GroupsAreNodes(nodes, closed);
    InputKeysApart(NodeIds(nodes), groups, expanded);
    ColonFreeNoOverlap(image.Values);
    var kinds := (set e | e in edges :: e.kind) + {""};
    OverlapExactly(kinds, image.Values);
    NoClashHarmless(closed, kinds, image);
    ModelConnectivity(nodes, edges, expanded, drawn);
  }

  lemma GroupsAreNodes(nodes: seq<GraphNode>, closed: seq<GraphEdge>)
    requires UniqueNodes(nodes)
    ensures var groups := Groups(nodes, KindMap(nodes), closed); forall x :: x in groups ==> groups[x] in NodeIds(nodes)
  {
  }

  // ----- a scene that loses a connection -----

  function Alert(id: Id): GraphNode
  {
    GraphNode(id, "alert", id, None, None, "")
  }

  const CLASH_NODES := [Alert("a"), Alert("b:c"), Alert("a:b"), Alert("c")]

  const CLASH_EDGES := [GraphEdge("1", "a", "b:c", "alert", Unset), GraphEdge("2", "a:b", "c", "alert", Unset)]

  lemma NoDevicesImage(nodes: seq<GraphNode>, closed: seq<GraphEdge>, expanded: set<Id>)
    requires UniqueNodes(nodes) && forall n :: n in nodes ==> n.kind != "device"
    ensures ImageOf(nodes, closed, expanded) == map x | x in NodeIds(nodes) :: x
  {
    assert Groups(nodes, KindMap(nodes), closed) == map[];
    NothingSummarised(NodeIds(nodes), map[], expanded);
  }

  lemma FourAlerts(a: Id, b: Id, c: Id, d: Id)
    requires a != b && a != c && a != d && b != c && b != d && c != d
    ensures var nodes := [Alert(a), Alert(b), Alert(c), Alert(d)];
      UniqueNodes(nodes) && NodeIds(nodes) == {a, b, c, d} && forall n :: n in nodes ==> n == Alert(n.id)
  {
    var nodes := [Alert(a), Alert(b), Alert(c), Alert(d)];
    assert nodes[0] in nodes && nodes[1] in nodes && nodes[2] in nodes && nodes[3] in nodes;
  }

  /** Four nodes and two edges whose keys clash. */
  lemma ClashingScene()
    ensures UniqueNodes(CLASH_NODES) && forall n :: n in CLASH_NODES ==>
      n.id in NodeIds(CLASH_NODES) && n.kind != "device"
    ensures NodeIds(CLASH_NODES) == {"a", "b:c", "a:b", "c"}
  {
    hide UniqueNodes, NodeIds;
    FourAlerts("a", "b:c", "a:b", "c");
  }

  lemma PairLoses(nodes: seq<GraphNode>, e: GraphEdge, f: GraphEdge, drawn: seq<GraphEdge>)
    requires UniqueNodes(nodes) && forall n :: n in nodes ==> n.kind != "device"
    requires e.source in NodeIds(nodes) && e.target in NodeIds(nodes)
    requires f.source in NodeIds(nodes) && f.target in NodeIds(nodes)
    requires Clash(e.kind, e.source, e.target, f.kind, f.source, f.target)
    requires IsDrawing(nodes, [e, f], {}, drawn)
    ensures Connected(ClosedLinks(KeepClosed([e, f], NodeIds(nodes))), f.source, f.target)
    ensures !Connected(ClosedLinks(drawn), f.source, f.target)
  {
    hide EdgesDrawn, Clash, NodeIds, UniqueNodes, ImageOf, ShadowsHarmless;
    var image := ImageOf(nodes, [e, f], {});
    PairClosed(e, f, NodeIds(nodes));
    NoDevicesImage(nodes, [e, f], {});
    FirstLinksDrawn([e, f], image, drawn);
    ClashLoses(e, f, image);
    assert [e, f][1] in [e, f];
    assert (f.source, f.target) in ClosedLinks([e, f]);
    ConnectedStep(ClosedLinks([e, f]), f.source, f.target);
  }

  /** Above a threshold of three nodes this scene is drawn without its second edge. */
  method DrawClashingScene() returns (model: RenderModel)
    ensures UniqueNodes(CLASH_NODES)
    ensures model.Aggregated? && IsDrawing(CLASH_NODES, CLASH_EDGES, {}, model.edges)
    ensures Connected(ClosedLinks(KeepClosed(CLASH_EDGES, NodeIds(CLASH_NODES))), "a:b", "c")
    ensures !Connected(ClosedLinks(model.edges), "a:b", "c")
  {
    ClashingScene();
    hide NodeIds, UniqueNodes, EdgesDrawn, ImageOf, Draws, KeepClosed, DrawnInOrder, RemappedAll;
    var r := BuildGraphRenderModel(CLASH_NODES, CLASH_EDGES, {}, 3);
    model := r.value;
    assert EdgeKey("alert", "a", "b:c") == "alert:a:b:c" == EdgeKey("alert", "a:b", "c");
    assert CLASH_EDGES == [CLASH_EDGES[0], CLASH_EDGES[1]];
    PairLoses(CLASH_NODES, CLASH_EDGES[0], CLASH_EDGES[1], model.edges);
  }
}
