/** The tiles that cover a box at one zoom level, the canvas they are cut from, and the TMS row order. */
module TileCover {

  /** A map projection: monotone, but otherwise unknown. Tile rows grow southwards. */
  datatype Projection = Projection(x: (real, nat) -> real, y: (real, nat) -> real)

  ghost predicate Monotone(p: Projection) {
    && (forall a: real, b: real, z: nat :: a <= b ==> p.x(a, z) <= p.x(b, z))
    && (forall a: real, b: real, z: nat :: a <= b ==> p.y(b, z) <= p.y(a, z))
  }

  datatype Area = Area(west: real, south: real, east: real, north: real)
  type Tile = (nat, nat)

  function Pow2(z: nat): (p: nat)
    ensures p > 0
  {
    if z == 0 then 1 else 2 * Pow2(z - 1)
  }

  /** A tile index is kept inside the zoom square. */
  function Clamped(i: int, side: nat): (k: nat)
    requires side > 0
    ensures k < side
  {
    if i < 0 then 0 else if i >= side then side - 1 else i
  }

  function Column(p: Projection, lon: real, z: nat): nat {
    Clamped(p.x(lon, z).Floor, Pow2(z))
  }

  function Row(p: Projection, lat: real, z: nat): nat {
    Clamped(p.y(lat, z).Floor, Pow2(z))
  }

  /** Column by column, each from the first row to the last. */
  function ColumnTiles(column: nat, y0: nat, y1: nat): (s: seq<Tile>)
    requires y0 <= y1
    ensures |s| == y1 - y0 + 1 && forall k :: 0 <= k < |s| ==> s[k] == (column, y0 + k)
  {
    seq(y1 - y0 + 1, k requires 0 <= k < y1 - y0 + 1 => (column, y0 + k))
  }

  function Rectangle(x0: nat, x1: nat, y0: nat, y1: nat): seq<Tile>
    requires x0 <= x1 + 1 && y0 <= y1
    decreases x1 + 1 - x0
  {
    if x0 == x1 + 1 then [] else ColumnTiles(x0, y0, y1) + Rectangle(x0 + 1, x1, y0, y1)
  }

  function Ordered(a: nat, b: nat): (nat, nat) {
    if b < a then (b, a) else (a, b)
  }

  predicate InSquare(t: Tile, z: nat) {
    t.0 < Pow2(z) && t.1 < Pow2(z)
  }

  function Cover(p: Projection, box: Area, z: nat): (s: seq<Tile>)
    ensures s != [] && Distinct(s) && forall t <- s :: InSquare(t, z)
  {
    var (x0, x1) := Ordered(Column(p, box.west, z), Column(p, box.east, z));
    var (y0, y1) := Ordered(Row(p, box.north, z), Row(p, box.south, z));
    RectangleIsFull(x0, x1, y0, y1);
    Rectangle(x0, x1, y0, y1)
  }

  // ---------- the cover is a full rectangle without repetition

  predicate InRectangle(t: Tile, x0: nat, x1: nat, y0: nat, y1: nat) {
    x0 <= t.0 <= x1 && y0 <= t.1 <= y1
  }

  predicate Distinct<T(==)>(s: seq<T>) {
    forall i, j :: 0 <= i < j < |s| ==> s[i] != s[j]
  }

  lemma {:induction false} RectangleIsFull(x0: nat, x1: nat, y0: nat, y1: nat)
    requires x0 <= x1 + 1 && y0 <= y1
    ensures var s := Rectangle(x0, x1, y0, y1);
      && Distinct(s) && (forall t :: t in s <==> InRectangle(t, x0, x1, y0, y1))
      && |s| == (x1 + 1 - x0) * (y1 + 1 - y0)
    decreases x1 + 1 - x0
  {
    if x0 > x1 {
    } else {
      RectangleIsFull(x0 + 1, x1, y0, y1);
      var first, rest := ColumnTiles(x0, y0, y1), Rectangle(x0 + 1, x1, y0, y1);
      FirstColumn(first, rest, x0, x1, y0, y1);
      assert (x1 + 1 - x0) * (y1 + 1 - y0) == (y1 + 1 - y0) + (x1 - x0) * (y1 + 1 - y0);
    }
  }

  lemma FirstColumn(first: seq<Tile>, rest: seq<Tile>, x0: nat, x1: nat, y0: nat, y1: nat)
    requires x0 <= x1 && y0 <= y1 && first == ColumnTiles(x0, y0, y1)
    requires Distinct(rest) && forall t :: t in rest <==> InRectangle(t, x0 + 1, x1, y0, y1)
    ensures Distinct(first + rest) && forall t :: t in first + rest <==> InRectangle(t, x0, x1, y0, y1)
  {
    var all := first + rest;
    forall i, j | 0 <= i < j < |all| ensures all[i] != all[j] {
      if i < |first| <= j {
        assert all[j] in rest;
      }
    }
    forall t: Tile ensures t in all <==> InRectangle(t, x0, x1, y0, y1) {
      if InRectangle(t, x0, x1, y0, y1) && t.0 == x0 {
        assert first[t.1 - y0] == t;
      }
    }
  }

  lemma FloorsFollow(a: real, b: real)
    requires a <= b
    ensures a.Floor <= b.Floor
  {}

  /** The cover is the whole rectangle between the corners' tiles; it lies in the zoom square and misses no point. */
  lemma CoverCovers(p: Projection, box: Area, z: nat)
    requires Monotone(p) && box.west <= box.east && box.south <= box.north
    ensures var s := Cover(p, box, z); var x0, x1 := Column(p, box.west, z), Column(p, box.east, z);
      var y0, y1 := Row(p, box.north, z), Row(p, box.south, z);
      && x0 <= x1 && y0 <= y1 && Distinct(s) && |s| == (x1 - x0 + 1) * (y1 - y0 + 1)
      && (forall t :: t in s <==> InRectangle(t, x0, x1, y0, y1))
      && (forall lon: real, lat: real :: box.west <= lon <= box.east && box.south <= lat <= box.north ==>
           (Column(p, lon, z), Row(p, lat, z)) in s)
  {
    hide Pow2;
    var x0, x1 := Column(p, box.west, z), Column(p, box.east, z);
    var y0, y1 := Row(p, box.north, z), Row(p, box.south, z);
    ColumnsFollow(p, box.west, box.east, z);
    RowsFollow(p, box.south, box.north, z);
    RectangleIsFull(x0, x1, y0, y1);
    forall lon: real, lat: real | box.west <= lon <= box.east && box.south <= lat <= box.north
      ensures (Column(p, lon, z), Row(p, lat, z)) in Cover(p, box, z)
    {
      ColumnsFollow(p, box.west, lon, z);
      ColumnsFollow(p, lon, box.east, z);
      RowsFollow(p, box.south, lat, z);
      RowsFollow(p, lat, box.north, z);
    }
  }

  lemma ColumnsFollow(p: Projection, a: real, b: real, z: nat)
    requires Monotone(p) && a <= b
    ensures Column(p, a, z) <= Column(p, b, z)
  {
    FloorsFollow(p.x(a, z), p.x(b, z));
  }

  lemma RowsFollow(p: Projection, a: real, b: real, z: nat)
    requires Monotone(p) && a <= b
    ensures Row(p, b, z) <= Row(p, a, z)
  {
    FloorsFollow(p.y(b, z), p.y(a, z));
  }

  // ---------- crop boxes

  const TILE_SIZE := 256

  datatype Crop = Crop(left: int, top: int, right: int, bottom: int)

  function CropOf(t: Tile, originX: nat, originY: nat): Crop {
    Crop((t.0 - originX) * TILE_SIZE, (t.1 - originY) * TILE_SIZE,
         (t.0 - originX + 1) * TILE_SIZE, (t.1 - originY + 1) * TILE_SIZE)
  }

  predicate InCrop(x: int, y: int, c: Crop) {
    c.left <= x < c.right && c.top <= y < c.bottom
  }

  /** Each pixel of the canvas is in the crop box of exactly one tile, and no crop box leaves the canvas. */
  lemma CropsPartitionTheCanvas(s: seq<Tile>, x0: nat, x1: nat, y0: nat, y1: nat, x: int, y: int)
    requires x0 <= x1 && y0 <= y1 && (forall t :: t in s <==> InRectangle(t, x0, x1, y0, y1))
    ensures var width, height := (x1 - x0 + 1) * TILE_SIZE, (y1 - y0 + 1) * TILE_SIZE;
      && (forall t <- s :: InCrop(x, y, CropOf(t, x0, y0)) ==> 0 <= x < width && 0 <= y < height)
      && (0 <= x < width && 0 <= y < height ==>
           var owner := (x0 + x / TILE_SIZE, y0 + y / TILE_SIZE);
           owner in s && forall t <- s :: InCrop(x, y, CropOf(t, x0, y0)) <==> t == owner)
  {
    forall t | t in s
      ensures InCrop(x, y, CropOf(t, x0, y0)) ==>
        0 <= x < (x1 - x0 + 1) * TILE_SIZE && 0 <= y < (y1 - y0 + 1) * TILE_SIZE
      ensures InCrop(x, y, CropOf(t, x0, y0)) <==> t.0 == x0 + x / TILE_SIZE && t.1 == y0 + y / TILE_SIZE
    {
      assert InRectangle(t, x0, x1, y0, y1);
    }
    if 0 <= x < (x1 - x0 + 1) * TILE_SIZE && 0 <= y < (y1 - y0 + 1) * TILE_SIZE {
      assert InRectangle((x0 + x / TILE_SIZE, y0 + y / TILE_SIZE), x0, x1, y0, y1);
    }
  }

  // ---------- TMS rows

  /** The same rows counted from the south. */
  function TmsRow(z: nat, y: nat): (r: nat)
    requires y < Pow2(z)
    ensures r < Pow2(z)
  {
    Pow2(z) - 1 - y
  }

  /**
    Row and TMS row add up to the last row, so the northernmost row becomes the last and further north is further up.
  */
  lemma TmsRowsRunNorth(z: nat, y: nat, other: nat)
    requires y < Pow2(z) && other < Pow2(z)
    ensures y + TmsRow(z, y) == Pow2(z) - 1
    ensures y < other <==> TmsRow(z, other) < TmsRow(z, y)
    ensures TmsRow(z, 0) == Pow2(z) - 1 && TmsRow(z, Pow2(z) - 1) == 0
  {
    hide Pow2;
  }

  /** Counting from the other side is its own inverse, so no two rows meet and none is missed. */
  lemma TmsFlipIsABijection(z: nat, y: nat, other: nat)
    requires y < Pow2(z) && other < Pow2(z)
    ensures TmsRow(z, TmsRow(z, y)) == y
    ensures TmsRow(z, y) == TmsRow(z, other) <==> y == other
  {
    hide Pow2;
  }
}
