/** Bounding boxes: the least box around given points, and what it depends on. */
module Boxes {
  import opened Bytes
  import opened Rings

  datatype Box = Box(west: real, south: real, east: real, north: real)

  predicate Inside(p: Point, b: Box) {
    b.west <= p.x <= b.east && b.south <= p.y <= b.north
  }

  predicate Covers(b: Box, points: Ring) {
    forall p <- points :: Inside(p, b)
  }

  predicate Contains(outer: Box, inner: Box) {
    outer.west <= inner.west && outer.south <= inner.south && inner.east <= outer.east && inner.north <= outer.north
  }

  ghost predicate IsLeast(b: Box, points: Ring) {
    Covers(b, points) && forall c: Box :: Covers(c, points) ==> Contains(c, b)
  }

  function Min(a: real, b: real): real {
    if b < a then b else a
  }

  function Max(a: real, b: real): real {
    if b > a then b else a
  }

  function Union(a: Box, b: Box): Box {
    Box(Min(a.west, b.west), Min(a.south, b.south), Max(a.east, b.east), Max(a.north, b.north))
  }

  function BoxOf(points: Ring): Box
    requires points != []
  {
    var n := |points| - 1;
    var last := Box(points[n].x, points[n].y, points[n].x, points[n].y);
    if n == 0 then last else Union(BoxOf(points[..n]), last)
  }

  lemma {:induction false} BoxIsLeast(points: Ring)
    requires points != []
    ensures IsLeast(BoxOf(points), points)
    ensures BoxOf(points).west <= BoxOf(points).east && BoxOf(points).south <= BoxOf(points).north
  {
    var n := |points| - 1;
    assert points[n] in points;
    if n == 0 {
    } else {
      BoxIsLeast(points[..n]);
      forall c: Box | Covers(c, points) ensures Contains(c, BoxOf(points)) {
        assert Covers(c, points[..n]);
      }
      forall p | p in points ensures Inside(p, BoxOf(points)) {
        assert p == points[n] || p in points[..n];
      }
    }
  }

  lemma LeastIsUnique(a: Box, b: Box, points: Ring)
    requires IsLeast(a, points) && IsLeast(b, points)
    ensures a == b
  {
    assert Contains(a, b) && Contains(b, a);
  }

  /** Closing, reversing, regrouping: a box does not depend on the order or number of occurrences of its points. */
  lemma SamePointsSameBox(a: Ring, b: Ring)
    requires a != [] && b != [] && forall p :: p in a <==> p in b
    ensures BoxOf(a) == BoxOf(b)
  {
    BoxIsLeast(a);
    BoxIsLeast(b);
    assert forall c: Box :: Covers(c, a) <==> Covers(c, b);
    LeastIsUnique(BoxOf(a), BoxOf(b), a);
  }

  lemma UnionIsLeast(a: Ring, b: Ring)
    requires a != [] && b != []
    ensures IsLeast(Union(BoxOf(a), BoxOf(b)), a + b)
  {
    BoxIsLeast(a);
    BoxIsLeast(b);
    forall c: Box | Covers(c, a + b) ensures Contains(c, Union(BoxOf(a), BoxOf(b))) {
      assert forall p <- a :: p in a + b;
      assert forall p <- b :: p in a + b;
      assert Covers(c, a) && Covers(c, b);
    }
  }

  /** The rings as written into GeoJSON have the box of the rings as read. */
  lemma TurnedRingsKeepTheBox(rings: seq<Ring>)
    requires Joined(rings) != []
    ensures Joined(TurnedAll(rings)) != [] && BoxOf(Joined(TurnedAll(rings))) == BoxOf(Joined(rings))
  {
    var turned := TurnedAll(rings);
    forall p ensures p in Joined(turned) <==> p in Joined(rings) {
      JoinedHas(turned, p);
      JoinedHas(rings, p);
      forall k | 0 <= k < |rings| ensures p in turned[k] <==> p in rings[k] {
        TurnedRingIsGeoJson(rings[k]);
      }
    }
    assert Joined(rings)[0] in Joined(turned);
    SamePointsSameBox(Joined(turned), Joined(rings));
  }
}
