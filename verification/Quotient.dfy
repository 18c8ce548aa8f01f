/** Contracting a graph: when two nodes are connected exactly if their images are. */
module Quotient {
  import opened Ids
  import opened Walks

  type Images = map<Id, Id>

  /** Nodes with one image are connected. */
  ghost predicate ContractsConnected(links: Links, image: Images)
  {
    forall x, y :: x in image && y in image && image[x] == image[y] ==> Connected(links, x, y)
  }

  /** Every link joins nodes that have images. */
  ghost predicate Inside(links: Links, image: Images)
  {
    forall l :: l in links ==> l.0 in image && l.1 in image
  }

  /** Every drawn link is the image of a link. */
  ghost predicate DrawnFrom(links: Links, image: Images, drawn: Links)
  {
    forall d :: d in drawn ==> exists l :: IsImage(links, image, l, d)
  }

  ghost predicate IsImage(links: Links, image: Images, l: (Id, Id), d: (Id, Id))
  {
    l in links && l.0 in image && l.1 in image && d == (image[l.0], image[l.1])
  }

  /** The drawing connects the images of every link. */
  ghost predicate CoversLinks(links: Links, image: Images, drawn: Links)
    requires Inside(links, image)
  {
    forall l :: l in links ==> Connected(drawn, image[l.0], image[l.1])
  }

  /** Two nodes are connected exactly when their images are. */
  ghost predicate PreservesConnectivity(links: Links, image: Images, drawn: Links)
  {
    forall x, y :: x in image && y in image ==> (Connected(links, x, y) <==> Connected(drawn, image[x], image[y]))
  }

  lemma DrawnStep(links: Links, image: Images, drawn: Links, x: Id, v: Id) returns (b: Id)
    requires ContractsConnected(links, image) && DrawnFrom(links, image, drawn)
    requires x in image && Adjacent(drawn, image[x], v)
    ensures b in image && image[b] == v && Connected(links, x, b)
  {
    var d := if (image[x], v) in drawn then (image[x], v) else (v, image[x]);
    var l :| IsImage(links, image, l, d);
    var a := if d.0 == image[x] && d.1 == v then l.0 else l.1;
    b := if a == l.0 then l.1 else l.0;
    assert image[a] == image[x];
    ConnectedStep(links, l.0, l.1);
    ConnectedStep(links, l.1, l.0);
    if image[b] != v {
      assert false;
    }
    ConnectedTransitive(links, x, a, b);
  }

  /** A walk of the drawing lifts to the graph. */
  lemma {:induction false} DrawnWalk(links: Links, image: Images, drawn: Links, p: seq<Id>, x: Id, y: Id)
    requires ContractsConnected(links, image) && DrawnFrom(links, image, drawn)
    requires x in image && y in image && WalkFrom(drawn, p, image[x], image[y])
    ensures Connected(links, x, y)
    decreases |p|
  {
    if |p| > 1 {
      assert Adjacent(drawn, p[0], p[1]);
      var b := DrawnStep(links, image, drawn, x, p[1]);
      DrawnWalk(links, image, drawn, p[1..], b, y);
      ConnectedTransitive(links, x, b, y);
    }
  }

  /** A walk of the graph is drawn. */
  lemma {:induction false} InputWalk(links: Links, image: Images, drawn: Links, p: seq<Id>)
    requires Inside(links, image) && CoversLinks(links, image, drawn)
    requires IsWalk(links, p) && p[0] in image
    ensures p[|p| - 1] in image && Connected(drawn, image[p[0]], image[p[|p| - 1]])
    decreases |p|
  {
    if |p| == 1 {
      ConnectedReflexive(drawn, image[p[0]]);
    } else {
      assert Adjacent(links, p[0], p[1]);
      InputWalk(links, image, drawn, p[1..]);
      if (p[0], p[1]) !in links {
        ConnectedSymmetric(drawn, image[p[1]], image[p[0]]);
      }
      ConnectedTransitive(drawn, image[p[0]], image[p[1]], image[p[|p| - 1]]);
    }
  }

  lemma DrawnNeverConnectsMore(links: Links, image: Images, drawn: Links, x: Id, y: Id)
    requires ContractsConnected(links, image) && DrawnFrom(links, image, drawn)
    requires x in image && y in image && Connected(drawn, image[x], image[y])
    ensures Connected(links, x, y)
  {
    var p :| WalkFrom(drawn, p, image[x], image[y]);
    DrawnWalk(links, image, drawn, p, x, y);
  }

  /** A drawing made of link images never connects more than the graph, and connects exactly as
      much when, and only when, the images of every link stay connected. */
  lemma ConnectivityExact(links: Links, image: Images, drawn: Links)
    requires ContractsConnected(links, image) && Inside(links, image) && DrawnFrom(links, image, drawn)
    ensures PreservesConnectivity(links, image, drawn) <==> CoversLinks(links, image, drawn)
  {
    if PreservesConnectivity(links, image, drawn) {
      forall l | l in links
        ensures Connected(drawn, image[l.0], image[l.1])
      {
        ConnectedStep(links, l.0, l.1);
      }
    }
    if CoversLinks(links, image, drawn) {
      forall x, y | x in image && y in image
        ensures Connected(links, x, y) <==> Connected(drawn, image[x], image[y])
      {
        if Connected(links, x, y) {
          var p :| WalkFrom(links, p, x, y);
          InputWalk(links, image, drawn, p);
        }
        if Connected(drawn, image[x], image[y]) {
          DrawnNeverConnectsMore(links, image, drawn, x, y);
        }
      }
    }
  }
}
