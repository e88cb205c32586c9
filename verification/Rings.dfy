/** Ring closing, orientation and grouping: from the rings of a polygon record to GeoJSON coordinates. */
module Rings {
  import opened Wrappers
  import opened Bytes

  /** Coordinates are exact reals. */
  datatype Point = Point(x: real, y: real)

  type Ring = seq<Point>

  datatype Geometry = Polygon(rings: seq<Ring>) | MultiPolygon(polygons: seq<seq<Ring>>)

  // ---------- area

  function Edge(p: Point, q: Point): real {
    p.x * q.y - q.x * p.y
  }

  /** Twice the signed shoelace area: positive for a counterclockwise ring. */
  function Shoelace(ring: Ring): real {
    if |ring| < 2 then 0.0
    else Shoelace(ring[..|ring| - 1]) + Edge(ring[|ring| - 2], ring[|ring| - 1])
  }

  function Area(ring: Ring): real {
    Shoelace(ring) / 2.0
  }

  method RingArea(ring: Ring) returns (area: real)
    ensures area == Area(ring)
  {
    area := 0.0;
    var i := 0;
    while i < |ring| - 1
      invariant 0 <= i && (ring == [] || i < |ring|)
      invariant ring == [] ==> area == 0.0
      invariant ring != [] ==> area == Shoelace(ring[..i + 1])
    {
      var p, q := ring[i], ring[i + 1];
      assert ring[..i + 2][..i + 1] == ring[..i + 1];
      area := area + (p.x * q.y - q.x * p.y);
      i := i + 1;
    }
    assert ring != [] ==> ring[..i + 1] == ring;
    area := area / 2.0;
  }

  function Reversed<T>(s: seq<T>): (r: seq<T>)
    ensures |r| == |s| && forall i :: 0 <= i < |s| ==> r[i] == s[|s| - 1 - i]
  {
    if s == [] then [] else [s[|s| - 1]] + Reversed(s[..|s| - 1])
  }

  /** Putting a position in front adds one edge. */
  lemma {:induction false} ShoelaceFromFront(p: Point, ring: Ring)
    requires ring != []
    ensures Shoelace([p] + ring) == Edge(p, ring[0]) + Shoelace(ring)
  {
    var n, longer := |ring| - 1, [p] + ring;
    assert longer[..|longer| - 1] == [p] + ring[..n];
    if n == 0 {
      assert Shoelace([p]) == 0.0;
    } else {
      ShoelaceFromFront(p, ring[..n]);
      assert longer[n] == ring[n - 1] && longer[n + 1] == ring[n];
    }
  }

  /** Walking a ring backwards negates its area. */
  lemma {:induction false} ReversalNegatesArea(ring: Ring)
    ensures Shoelace(Reversed(ring)) == -Shoelace(ring)
  {
    if |ring| < 2 {
    } else {
      var n := |ring| - 1;
      ReversalNegatesArea(ring[..n]);
      ShoelaceFromFront(ring[n], Reversed(ring[..n]));
      assert Reversed(ring[..n])[0] == ring[n - 1];
    }
  }

  // ---------- closing

  function Closed(ring: Ring): Ring {
    if ring != [] && ring[0] != ring[|ring| - 1] then ring + [ring[0]] else ring
  }

  predicate Closable(ring: Ring) {
    |ring| >= 3 && |Closed(ring)| >= 4
  }

  /** Too short means: fewer than three points, or three of which the last is the first. */
  function CloseRing(ring: Ring): (r: Option<Ring>)
    ensures r.Some? <==> |ring| > 3 || (|ring| == 3 && ring[0] != ring[2])
  {
    if Closable(ring) then Some(Closed(ring)) else None
  }

  // ---------- grouping

  function Turned(ring: Ring): Ring {
    Reversed(Closed(ring))
  }

  function TurnedAll(rings: seq<Ring>): (r: seq<Ring>)
    ensures |r| == |rings|
  {
    seq(|rings|, i requires 0 <= i < |rings| => Turned(rings[i]))
  }

  /** A ring with non-positive area starts a polygon; any other one is a hole of the polygon before it. */
  function AddRing(polygons: seq<seq<Ring>>, ring: Ring): seq<seq<Ring>> {
    if Area(Closed(ring)) <= 0.0 || polygons == [] then polygons + [[Turned(ring)]]
    else polygons[|polygons| - 1 := polygons[|polygons| - 1] + [Turned(ring)]]
  }

  function Grouped(rings: seq<Ring>): seq<seq<Ring>> {
    if rings == [] then [] else AddRing(Grouped(rings[..|rings| - 1]), rings[|rings| - 1])
  }

  function AsGeometry(polygons: seq<seq<Ring>>): Option<Geometry> {
    if polygons == [] then None
    else if |polygons| == 1 then Some(Polygon(polygons[0]))
    else Some(MultiPolygon(polygons))
  }

  lemma OneMoreRing(rings: seq<Ring>, i: nat)
    requires i < |rings|
    ensures Grouped(rings[..i + 1]) == AddRing(Grouped(rings[..i]), rings[i])
  {
    hide AddRing;
    assert rings[..i + 1][..i] == rings[..i];
  }

  method RingsToGeometry(rings: seq<Ring>) returns (geometry: Option<Geometry>)
    ensures geometry == if forall ring <- rings :: Closable(ring) then AsGeometry(Grouped(rings)) else None
  {
    hide Grouped, Shoelace, AsGeometry;
    var polygons: seq<seq<Ring>> := [];
    NoRings(rings);
    for i := 0 to |rings|
      invariant forall k :: 0 <= k < i ==> Closable(rings[k])
      invariant polygons == Grouped(rings[..i])
    {
      OneMoreRing(rings, i);
      var closed := CloseRing(rings[i]);
      if closed.None? {
        assert rings[i] in rings;
        return None;
      }
      var area := RingArea(closed.value);
      var turned := Reversed(closed.value);
      if area <= 0.0 || polygons == [] {
        polygons := polygons + [[turned]];
      } else {
        var current := polygons[|polygons| - 1];
        polygons := polygons[|polygons| - 1 := current + [turned]];
      }
    }
    assert rings[..|rings|] == rings;
    geometry := AsGeometry(polygons);
  }

  lemma NoRings(rings: seq<Ring>)
    ensures Grouped(rings[..0]) == []
  {}

  lemma TurnedAllGrows(rings: seq<Ring>)
    requires rings != []
    ensures TurnedAll(rings) == TurnedAll(rings[..|rings| - 1]) + [Turned(rings[|rings| - 1])]
  {
    hide Turned;
  }

  lemma RingIsAppended(polygons: seq<seq<Ring>>, ring: Ring)
    ensures Joined(AddRing(polygons, ring)) == Joined(polygons) + [Turned(ring)]
  {
    hide Area, Closed, Turned;
    var m := |polygons| - 1;
    if Area(Closed(ring)) <= 0.0 || polygons == [] {
      JoinedGrows(polygons, [Turned(ring)]);
    } else {
      assert AddRing(polygons, ring)[..m] == polygons[..m];
      assert Joined(polygons[..m]) + (polygons[m] + [Turned(ring)]) == Joined(polygons) + [Turned(ring)];
    }
  }

  /** Nothing is lost, added or reordered: the polygons list the closed and reversed rings. */
  lemma {:induction false} RingsAreConserved(rings: seq<Ring>)
    ensures Joined(Grouped(rings)) == TurnedAll(rings)
    ensures Grouped(rings) == [] <==> rings == []
  {
    hide Area, Turned, TurnedAll;
    if rings == [] {
      assert TurnedAll(rings) == [];
    } else {
      var n := |rings| - 1;
      RingsAreConserved(rings[..n]);
      TurnedAllGrows(rings);
      RingIsAppended(Grouped(rings[..n]), rings[n]);
    }
  }

  function RingsIn(g: Geometry): seq<Ring> {
    match g
    case Polygon(rings) => rings
    case MultiPolygon(polygons) => Joined(polygons)
  }

  /** Whether one polygon or many: a geometry lists the record's rings, closed and reversed, in their order. */
  lemma GeometryListsRings(rings: seq<Ring>)
    requires rings != []
    ensures AsGeometry(Grouped(rings)).Some? && RingsIn(AsGeometry(Grouped(rings)).value) == TurnedAll(rings)
  {
    hide Grouped;
    RingsAreConserved(rings);
    var polygons := Grouped(rings);
    if |polygons| == 1 {
      assert polygons[..0] == [];
      assert Joined(polygons) == [] + polygons[0] == polygons[0];
    }
  }

  predicate GeoJsonRing(ring: Ring) {
    |ring| >= 4 && ring[0] == ring[|ring| - 1]
  }

  lemma TurnedRingIsGeoJson(ring: Ring)
    ensures Closable(ring) ==> GeoJsonRing(Turned(ring))
    ensures Area(Turned(ring)) == -Area(Closed(ring))
    ensures forall p :: p in Turned(ring) <==> p in ring
  {
    var closed, turned := Closed(ring), Turned(ring);
    ReversalNegatesArea(closed);
    forall p ensures p in turned <==> p in ring {
      if p in turned {
        var k :| 0 <= k < |turned| && turned[k] == p;
        assert closed[|closed| - 1 - k] == p && p in closed;
      }
      if p in ring {
        var k :| 0 <= k < |ring| && ring[k] == p;
        assert turned[|closed| - 1 - k] == p;
      }
    }
  }

  /** Exteriors are counterclockwise or flat, holes clockwise: in every polygon but for the first one's exterior. */
  predicate Oriented(polygons: seq<seq<Ring>>) {
    forall k :: 0 <= k < |polygons| ==> OrientedPolygon(polygons[k], k > 0)
  }

  predicate OrientedPolygon(polygon: seq<Ring>, later: bool) {
    polygon != [] && (later ==> Area(polygon[0]) >= 0.0) && forall j :: 1 <= j < |polygon| ==> Area(polygon[j]) < 0.0
  }

  /** The exterior of the first polygon is rightly wound exactly if the leading ring of the record is. */
  lemma {:induction false} GroupsAreOriented(rings: seq<Ring>)
    ensures Oriented(Grouped(rings))
    ensures rings != [] ==>
      && Grouped(rings) != [] && Grouped(rings)[0] != []
      && (Area(Grouped(rings)[0][0]) >= 0.0 <==> Area(Closed(rings[0])) <= 0.0)
  {
    hide Turned, Closed, Area;
    if rings == [] {
    } else {
      var n := |rings| - 1;
      GroupsAreOriented(rings[..n]);
      TurnedRingIsGeoJson(rings[n]);
    }
  }

  // ---------- which way round is which

  /** Walked with the interior on the left a rectangle has its width times its height as area. */
  function Counterclockwise(x0: real, y0: real, x1: real, y1: real): Ring {
    [Point(x0, y0), Point(x1, y0), Point(x1, y1), Point(x0, y1)]
  }

  function Clockwise(x0: real, y0: real, x1: real, y1: real): Ring {
    [Point(x0, y0), Point(x0, y1), Point(x1, y1), Point(x1, y0)]
  }

  lemma TriangleArea(a: Point, b: Point, c: Point)
    ensures Area([a, b, c, a]) == ((b.x - a.x) * (c.y - a.y) - (c.x - a.x) * (b.y - a.y)) / 2.0
  {
    ShoelaceFromFront(a, [b, c, a]);
    ShoelaceFromFront(b, [c, a]);
    ShoelaceFromFront(c, [a]);
    assert [a] + [b, c, a] == [a, b, c, a] && [b] + [c, a] == [b, c, a] && [c] + [a] == [c, a];
  }

  lemma QuadrangleShoelace(a: Point, b: Point, c: Point, d: Point)
    ensures Shoelace([a, b, c, d, a]) == Edge(a, b) + Edge(b, c) + Edge(c, d) + Edge(d, a)
  {
    ShoelaceFromFront(a, [b, c, d, a]);
    ShoelaceFromFront(b, [c, d, a]);
    ShoelaceFromFront(c, [d, a]);
    ShoelaceFromFront(d, [a]);
    assert [a] + [b, c, d, a] == [a, b, c, d, a] && [b] + [c, d, a] == [b, c, d, a];
    assert [c] + [d, a] == [c, d, a] && [d] + [a] == [d, a];
  }

  lemma RectangleAreas(x0: real, y0: real, x1: real, y1: real)
    requires x0 < x1 && y0 < y1
    ensures Area(Closed(Counterclockwise(x0, y0, x1, y1))) == (x1 - x0) * (y1 - y0)
    ensures Area(Closed(Clockwise(x0, y0, x1, y1))) == -((x1 - x0) * (y1 - y0))
  {
    hide Shoelace;
    var a, b, c, d := Point(x0, y0), Point(x1, y0), Point(x1, y1), Point(x0, y1);
    assert Closed([a, b, c, d]) == [a, b, c, d, a] && Closed([a, d, c, b]) == [a, d, c, b, a];
    QuadrangleShoelace(a, b, c, d);
    QuadrangleShoelace(a, d, c, b);
  }

  lemma RectanglesHaveArea(x0: real, y0: real, x1: real, y1: real)
    requires x0 < x1 && y0 < y1
    ensures (x1 - x0) * (y1 - y0) > 0.0
  {
    var width, height := x1 - x0, y1 - y0;
    assert width * height > 0.0;
  }

  lemma TwoRings(first: Ring, second: Ring)
    ensures Grouped([first, second]) ==
      if Area(Closed(second)) <= 0.0 then [[Turned(first)], [Turned(second)]] else [[Turned(first), Turned(second)]]
  {
    hide Area, Closed, Turned;
    var rings := [first, second];
    assert rings[..1] == [first] && [first][..0] == [];
    assert Grouped([first]) == AddRing([], first) == [[Turned(first)]];
    assert Grouped(rings) == AddRing([[Turned(first)]], second);
    assert [[Turned(first)]] + [[Turned(second)]] == [[Turned(first)], [Turned(second)]];
    assert [Turned(first)] + [Turned(second)] == [Turned(first), Turned(second)];
    assert [[Turned(first)]][0 := [Turned(first)] + [Turned(second)]] == [[Turned(first), Turned(second)]];
  }

  /** A clockwise exterior with a counterclockwise hole is one polygon of two rings; two clockwise rings are two. */
  lemma RectanglesAreGrouped(x0: real, y0: real, x1: real, y1: real, u0: real, v0: real, u1: real, v1: real)
    requires x0 < x1 && y0 < y1 && u0 < u1 && v0 < v1
    ensures var outer, hole, other := Clockwise(x0, y0, x1, y1), Counterclockwise(u0, v0, u1, v1),
      Clockwise(u0, v0, u1, v1);
      && AsGeometry(Grouped([outer, hole])) == Some(Polygon([Turned(outer), Turned(hole)]))
      && AsGeometry(Grouped([outer, other])) == Some(MultiPolygon([[Turned(outer)], [Turned(other)]]))
  {
    hide Area, Closed, Turned, Grouped, Clockwise, Counterclockwise;
    RectangleAreas(u0, v0, u1, v1);
    RectanglesHaveArea(u0, v0, u1, v1);
    TwoRings(Clockwise(x0, y0, x1, y1), Counterclockwise(u0, v0, u1, v1));
    TwoRings(Clockwise(x0, y0, x1, y1), Clockwise(u0, v0, u1, v1));
  }
}
