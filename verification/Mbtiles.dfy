/** The tile table: how the rasterizer fills it, what the writer stores, and what the inspector admits. */
module Mbtiles {
  import opened Wrappers
  import opened Bytes
  import opened Text
  import opened TileCover

  const MAX_TILES := 2048
  const MAX_CANVAS_PIXELS := 80 * 1024 * 1024
  const MAX_ZOOM := 22
  const PNG_MAGIC: Data := [0x89, 0x50, 0x4E, 0x47, 0x0D, 0x0A, 0x1A, 0x0A]
  const REGION_ID := "buffalo-niagara"
  const APPROVED_LICENSE := "ODbL-1.0"
  const APPROVED_PROVIDER := "openstreetmap-derived"
  const DEFAULT_ATTRIBUTION := "\U{00A9} OpenStreetMap contributors"

  /** One row of the table; `row` counts from the south. */
  datatype Entry = Entry(zoom: nat, column: nat, row: nat, data: Data)

  datatype Table = Table(metadata: map<string, string>, rows: seq<Entry>)

  /** The encoded picture of one tile at one zoom. */
  type Painter = (nat, Tile) -> Data

  datatype Color = Color(red: nat, green: nat, blue: nat)

  /** The colour at a column and a row counted from the upper left corner. */
  type Canvas = (int, int) -> Color

  /** Rows of colours. */
  type Picture = seq<seq<Color>>

  /** The canvas of one zoom level: the tile in its upper left corner, and its size in pixels. */
  datatype Frame = Frame(zoom: nat, originX: nat, originY: nat, width: int, height: int)

  /** How the features are drawn on the canvas of a level, and how a picture is encoded. */
  type Artist = Frame -> Canvas
  type Encoder = Picture -> Data

  predicate IsPng(data: Data) {
    PNG_MAGIC <= data
  }

  predicate ZoomsHold(minZoom: int, maxZoom: int) {
    0 <= minZoom <= maxZoom <= MAX_ZOOM
  }

  predicate AreaHolds(box: Area) {
    box.west < box.east && box.south < box.north
  }

  // ---------- the rasterizer

  function FrameOf(z: nat, tiles: seq<Tile>): (f: Frame)
    ensures f.zoom == z
  {
    var (x0, x1) := Bounds(tiles, (t: Tile) => t.0);
    var (y0, y1) := Bounds(tiles, (t: Tile) => t.1);
    Frame(z, x0, y0, (x1 - x0 + 1) * TILE_SIZE, (y1 - y0 + 1) * TILE_SIZE)
  }

  function CanvasPixels(tiles: seq<Tile>): int {
    var frame := FrameOf(0, tiles);
    frame.width * frame.height
  }

  /** The part of a canvas inside a crop box. */
  function Cut(canvas: Canvas, c: Crop): (r: Picture)
    requires c.left <= c.right && c.top <= c.bottom
    ensures |r| == c.bottom - c.top
    ensures forall y, x :: 0 <= y < |r| && 0 <= x < c.right - c.left ==>
      |r[y]| == c.right - c.left && r[y][x] == canvas(c.left + x, c.top + y)
  {
    seq(c.bottom - c.top, y requires 0 <= y < c.bottom - c.top =>
      seq(c.right - c.left, x requires 0 <= x < c.right - c.left => canvas(c.left + x, c.top + y)))
  }

  function TilePicture(canvas: Canvas, frame: Frame, t: Tile): Picture {
    Cut(canvas, CropOf(t, frame.originX, frame.originY))
  }

  /** Each level is drawn once, and each tile is encoded from its cut. */
  function PainterOf(p: Projection, box: Area, draw: Artist, encode: Encoder): Painter {
    (z: nat, t: Tile) =>
      var frame := FrameOf(z, Cover(p, box, z));
      encode(TilePicture(draw(frame), frame, t))
  }

  lemma PainterPaints(p: Projection, box: Area, draw: Artist, encode: Encoder, z: nat)
    ensures var frame := FrameOf(z, Cover(p, box, z));
      forall t :: PainterOf(p, box, draw, encode)(z, t) == encode(TilePicture(draw(frame), frame, t))
  {
    hide FrameOf, Cover, TilePicture;
  }

  /** Least and greatest value of a coordinate. */
  function Bounds(tiles: seq<Tile>, f: Tile -> nat): (nat, nat) {
    if tiles == [] then (0, 0)
    else
      var n := |tiles| - 1;
      var v := f(tiles[n]);
      if n == 0 then (v, v)
      else
        var (least, greatest) := Bounds(tiles[..n], f);
        (if v < least then v else least, if v > greatest then v else greatest)
  }

  lemma {:induction false} BoundsAreTight(tiles: seq<Tile>, f: Tile -> nat)
    requires tiles != []
    ensures var (least, greatest) := Bounds(tiles, f);
      && (forall t <- tiles :: least <= f(t) <= greatest)
      && (exists t :: t in tiles && f(t) == least) && (exists t :: t in tiles && f(t) == greatest)
  {
    var n := |tiles| - 1;
    assert tiles[n] in tiles;
    if n == 0 {
    } else {
      BoundsAreTight(tiles[..n], f);
      assert forall t <- tiles[..n] :: t in tiles;
      assert tiles == tiles[..n] + [tiles[n]];
    }
  }

  lemma RectangleBounds(x0: nat, x1: nat, y0: nat, y1: nat)
    requires x0 <= x1 && y0 <= y1
    ensures var tiles := Rectangle(x0, x1, y0, y1);
      Bounds(tiles, (t: Tile) => t.0) == (x0, x1) && Bounds(tiles, (t: Tile) => t.1) == (y0, y1)
  {
    hide Rectangle, Bounds;
    var tiles := Rectangle(x0, x1, y0, y1);
    RectangleIsFull(x0, x1, y0, y1);
    var first: Tile, last: Tile := (x0, y0), (x1, y1);
    assert first in tiles && last in tiles;
    BoundsAreTight(tiles, (t: Tile) => t.0);
    BoundsAreTight(tiles, (t: Tile) => t.1);
  }

  lemma PixelsOfTiles(w: nat, h: nat, n: nat)
    requires n == w * h
    ensures w * TILE_SIZE * (h * TILE_SIZE) == n * (TILE_SIZE * TILE_SIZE)
  {
    assert w * 256 * (h * 256) == w * h * 65536;
  }

  /** The canvas of a rectangle of tiles starts at its corner and holds exactly these tiles. */
  lemma CanvasIsTheRectangle(x0: nat, x1: nat, y0: nat, y1: nat)
    requires x0 <= x1 && y0 <= y1
    ensures var tiles := Rectangle(x0, x1, y0, y1);
      && Bounds(tiles, (t: Tile) => t.0) == (x0, x1) && Bounds(tiles, (t: Tile) => t.1) == (y0, y1)
      && CanvasPixels(tiles) == |tiles| * (TILE_SIZE * TILE_SIZE)
  {
    hide Rectangle, Bounds, Distinct, InRectangle;
    RectangleIsFull(x0, x1, y0, y1);
    RectangleBounds(x0, x1, y0, y1);
    PixelsOfTiles(x1 + 1 - x0, y1 + 1 - y0, |Rectangle(x0, x1, y0, y1)|);
  }

  function EntryFor(z: nat, t: Tile, paint: Painter): Entry
    requires InSquare(t, z)
  {
    Entry(z, t.0, TmsRow(z, t.1), paint(z, t))
  }

  function EntriesFor(z: nat, tiles: seq<Tile>, paint: Painter): (r: seq<Entry>)
    requires forall t <- tiles :: InSquare(t, z)
    ensures |r| == |tiles|
    ensures forall k :: 0 <= k < |tiles| ==> tiles[k] in tiles && r[k] == EntryFor(z, tiles[k], paint)
  {
    if tiles == [] then []
    else
      var n := |tiles| - 1;
      assert tiles[n] in tiles;
      EntriesFor(z, tiles[..n], paint) + [EntryFor(z, tiles[n], paint)]
  }

  /** The bounds that one more zoom level has to keep. */
  predicate LevelFits(done: nat, tiles: seq<Tile>) {
    done + |tiles| <= MAX_TILES && CanvasPixels(tiles) <= MAX_CANVAS_PIXELS
  }

  predicate LevelHolds(done: nat, tiles: seq<Tile>, z: nat, paint: Painter) {
    LevelFits(done, tiles) && forall t <- tiles :: IsPng(paint(z, t))
  }

  /** All entries of one zoom level. */
  function LevelOf(p: Projection, box: Area, paint: Painter, z: nat): seq<Entry> {
    EntriesFor(z, Cover(p, box, z), paint)
  }

  /** The entries of the zoom levels from `from` up to but not including `end`, or a refusal. */
  function EntriesBefore(p: Projection, box: Area, paint: Painter, from: nat, end: nat): Option<seq<Entry>>
    requires from <= end
  {
    if from == end then Some([])
    else
      var before :- EntriesBefore(p, box, paint, from, end - 1);
      var tiles := Cover(p, box, end - 1);
      if LevelHolds(|before|, tiles, end - 1, paint) then Some(before + LevelOf(p, box, paint, end - 1)) else None
  }

  /** `features` is the number of styled features of the export; an export without any is refused. */
  function Rasterized(p: Projection, box: Area, paint: Painter, features: nat, minZoom: int,
      maxZoom: int): Option<seq<Entry>>
  {
    if AreaHolds(box) && ZoomsHold(minZoom, maxZoom) && features > 0
    then EntriesBefore(p, box, paint, minZoom, maxZoom + 1) else None
  }

  lemma {:induction false} RefusalStays(p: Projection, box: Area, paint: Painter, from: nat, k: nat, end: nat)
    requires from <= k <= end && EntriesBefore(p, box, paint, from, k).None?
    ensures EntriesBefore(p, box, paint, from, end).None?
  {
    hide LevelHolds, Cover, LevelOf;
    if k == end {
    } else {
      RefusalStays(p, box, paint, from, k, end - 1);
    }
  }

  method PillowRaster(p: Projection, box: Area, draw: Artist, encode: Encoder, features: nat, minZoom: int,
      maxZoom: int)
    returns (entries: Option<seq<Entry>>)
    ensures entries == Rasterized(p, box, PainterOf(p, box, draw, encode), features, minZoom, maxZoom)
  {
    hide LevelFits, EntriesFor, Cover, FrameOf, TilePicture, IsPng, PainterOf, InSquare;
    if !AreaHolds(box) || !ZoomsHold(minZoom, maxZoom) || features == 0 {
      return None;
    }
    ghost var paint := PainterOf(p, box, draw, encode);
    var found: seq<Entry> := [];
    for z := minZoom to maxZoom + 1
      invariant EntriesBefore(p, box, paint, minZoom, z) == Some(found)
      invariant z > minZoom ==> found != []
    {
      var covers := Cover(p, box, z);
      if !LevelFits(|found|, covers) {
        RefusalStays(p, box, paint, minZoom, z + 1, maxZoom + 1);
        return None;
      }
      var frame := FrameOf(z, covers);
      PainterPaints(p, box, draw, encode, z);
      var level := CropTiles(frame, draw(frame), covers, encode, paint);
      if level.None? {
        RefusalStays(p, box, paint, minZoom, z + 1, maxZoom + 1);
        return None;
      }
      found := found + level.value;
    }
    entries := if found == [] then None else Some(found);
  }

  /** The crop loop of one level: each tile's cut of the canvas is encoded, or refused. */
  method CropTiles(frame: Frame, canvas: Canvas, covers: seq<Tile>, encode: Encoder, ghost paint: Painter)
    returns (level: Option<seq<Entry>>)
    requires forall t <- covers :: InSquare(t, frame.zoom)
    requires forall t <- covers :: paint(frame.zoom, t) == encode(TilePicture(canvas, frame, t))
    ensures level == if forall t <- covers :: IsPng(paint(frame.zoom, t))
      then Some(EntriesFor(frame.zoom, covers, paint)) else None
  {
    hide InSquare, TilePicture, IsPng, EntriesFor;
    var z, found: seq<Entry> := frame.zoom, [];
    for k := 0 to |covers|
      invariant found == EntriesFor(z, covers[..k], paint)
      invariant forall i :: 0 <= i < k ==> IsPng(paint(z, covers[i]))
    {
      var tile := covers[k];
      assert tile in covers;
      OneMoreTile(z, covers, k, paint);
      var data := encode(TilePicture(canvas, frame, tile));
      if !IsPng(data) {
        return None;
      }
      found := found + [Entry(z, tile.0, TmsRow(z, tile.1), data)];
    }
    assert covers[..|covers|] == covers;
    level := Some(found);
  }

  lemma OneMoreTile(z: nat, tiles: seq<Tile>, k: nat, paint: Painter)
    requires (forall t <- tiles :: InSquare(t, z)) && k < |tiles|
    ensures InSquare(tiles[k], z)
    ensures EntriesFor(z, tiles[..k + 1], paint) == EntriesFor(z, tiles[..k], paint) + [EntryFor(z, tiles[k], paint)]
  {
    hide InSquare, EntryFor;
    assert tiles[..k + 1][..k] == tiles[..k];
  }

  // ---------- writer and inspector

  function Identity(e: Entry): (nat, nat, nat) {
    (e.zoom, e.column, e.row)
  }

  predicate DistinctEntries(rows: seq<Entry>) {
    forall i, j :: 0 <= i < j < |rows| ==> Identity(rows[i]) != Identity(rows[j])
  }

  /** The rule for metadata texts: not blank, not too long, no public tile service named. */
  type TextRule = string -> bool

  /** What the rasterizer hands to the writer; `bounds` and `center` are the texts of the box. */
  datatype Rendered = Rendered(
    tiles: seq<Entry>, format: string, provider: string, attribution: string, license: string, name: Option<string>,
    minZoom: nat, maxZoom: nat, bounds: string, center: string)

  predicate TilesHold(rows: seq<Entry>) {
    1 <= |rows| <= MAX_TILES && DistinctEntries(rows) && forall e <- rows :: IsPng(e.data)
  }

  predicate LabelsHold(r: Rendered, isText: TextRule) {
    && r.format == "png" && r.provider == APPROVED_PROVIDER && isText(r.attribution) && r.license == APPROVED_LICENSE
    && (r.name.Some? ==> r.name.value == REGION_ID)
  }

  predicate Writable(r: Rendered, box: Area, isText: TextRule) {
    LabelsHold(r, isText) && AreaHolds(box) && TilesHold(r.tiles)
  }

  function Metadata(r: Rendered): map<string, string> {
    map["format" := "png", "minzoom" := Decimal(r.minZoom), "maxzoom" := Decimal(r.maxZoom), "bounds" := r.bounds,
        "center" := r.center, "provider" := APPROVED_PROVIDER, "attribution" := r.attribution,
        "license" := APPROVED_LICENSE, "name" := REGION_ID]
  }

  /** The identities of the first k rows. */
  predicate Seen(identities: set<(nat, nat, nat)>, rows: seq<Entry>, k: nat)
    requires k <= |rows|
  {
    && (forall i :: 0 <= i < k ==> Identity(rows[i]) in identities)
    && forall id <- identities :: exists i :: 0 <= i < k && Identity(rows[i]) == id
  }

  method WriteMbtiles(r: Rendered, box: Area, isText: TextRule) returns (table: Option<Table>)
    ensures table == if Writable(r, box, isText) then Some(Table(Metadata(r), r.tiles)) else None
  {
    hide IsPng, Metadata, LabelsHold;
    if r.tiles == [] || |r.tiles| > MAX_TILES || !LabelsHold(r, isText) || !AreaHolds(box) {
      return None;
    }
    var entries := r.tiles;
    var identities: set<(nat, nat, nat)> := {};
    var rows: seq<Entry> := [];
    for k := 0 to |entries|
      invariant rows == entries[..k] && Seen(identities, entries, k)
      invariant DistinctEntries(entries[..k]) && forall i :: 0 <= i < k ==> IsPng(entries[i].data)
    {
      var e := entries[k];
      if Identity(e) in identities || !IsPng(e.data) {
        assert e in entries;
        return None;
      }
      identities, rows := identities + {Identity(e)}, rows + [e];
    }
    assert entries[..|entries|] == entries;
    table := Some(Table(Metadata(r), rows));
  }

  /** What is in a written table: pictures from the approved provider under its licence, each tile once. */
  lemma WrittenTableMeans(r: Rendered, box: Area, isText: TextRule)
    requires Writable(r, box, isText)
    ensures r.format == "png" && r.provider == "openstreetmap-derived" && r.license == "ODbL-1.0"
    ensures r.name in {None, Some("buffalo-niagara")} && isText(r.attribution)
    ensures box.west < box.east && box.south < box.north && 1 <= |r.tiles| <= 2048
    ensures forall i, j :: 0 <= i < |r.tiles| && 0 <= j < |r.tiles| && i != j ==>
      (r.tiles[i].zoom, r.tiles[i].column, r.tiles[i].row) != (r.tiles[j].zoom, r.tiles[j].column, r.tiles[j].row)
    ensures forall e <- r.tiles :: exists picture :: e.data == PNG_MAGIC + picture
  {
    forall e | e in r.tiles ensures exists picture :: e.data == PNG_MAGIC + picture {
      assert e.data == PNG_MAGIC + e.data[|PNG_MAGIC|..];
    }
  }

  function ZoomOf(metadata: map<string, string>, key: string): Option<nat> {
    if key !in metadata then Some(0)
    else if metadata[key] != "" && AllDigits(metadata[key]) then Some(ValueOf(metadata[key])) else None
  }

  predicate MetadataHolds(metadata: map<string, string>, bounds: string, isText: TextRule) {
    && (forall key <- metadata.Keys :: isText(metadata[key]))
    && "provider" in metadata && metadata["provider"] == APPROVED_PROVIDER && "attribution" in metadata
    && "format" in metadata && metadata["format"] == "png"
    && ("license" in metadata ==> metadata["license"] == APPROVED_LICENSE)
    && ("name" in metadata ==> metadata["name"] == REGION_ID)
    && "bounds" in metadata && metadata["bounds"] == bounds
    && ZoomOf(metadata, "minzoom").Some? && ZoomOf(metadata, "maxzoom").Some?
    && ZoomsHold(ZoomOf(metadata, "minzoom").value, ZoomOf(metadata, "maxzoom").value)
  }

  predicate RowHolds(e: Entry, minZoom: nat, maxZoom: nat) {
    minZoom <= e.zoom <= maxZoom && e.column < Pow2(e.zoom) && e.row < Pow2(e.zoom) && IsPng(e.data)
  }

  /** What the inspector admits, whatever the order of the rows. */
  predicate Inspectable(t: Table, bounds: string, isText: TextRule) {
    && MetadataHolds(t.metadata, bounds, isText)
    && 1 <= |t.rows| <= MAX_TILES && DistinctEntries(t.rows)
    && forall e <- t.rows :: RowHolds(e, ZoomOf(t.metadata, "minzoom").value, ZoomOf(t.metadata, "maxzoom").value)
  }

  /** The receipt of an admitted table: number of tiles and zoom range. */
  method InspectRasterMbtiles(t: Table, bounds: string, isText: TextRule) returns (receipt: Option<(nat, nat, nat)>)
    ensures receipt == if Inspectable(t, bounds, isText)
      then Some((|t.rows|, ZoomOf(t.metadata, "minzoom").value, ZoomOf(t.metadata, "maxzoom").value)) else None
  {
    hide RowHolds, ZoomOf;
    if !MetadataHolds(t.metadata, bounds, isText) {
      return None;
    }
    var minZoom, maxZoom := ZoomOf(t.metadata, "minzoom").value, ZoomOf(t.metadata, "maxzoom").value;
    var identities: set<(nat, nat, nat)>, count := {}, 0;
    for k := 0 to |t.rows|
      invariant count == k <= MAX_TILES && Seen(identities, t.rows, k)
      invariant DistinctEntries(t.rows[..k]) && forall i :: 0 <= i < k ==> RowHolds(t.rows[i], minZoom, maxZoom)
    {
      var e := t.rows[k];
      if !RowHolds(e, minZoom, maxZoom) || Identity(e) in identities {
        assert e in t.rows;
        return None;
      }
      identities, count := identities + {Identity(e)}, count + 1;
      if count > MAX_TILES {
        return None;
      }
    }
    assert t.rows[..|t.rows|] == t.rows;
    receipt := if count < 1 then None else Some((count, minZoom, maxZoom));
  }

  /** What an inspected table holds: different tiles of the declared levels, each inside the square of its level. */
  lemma InspectedTableMeans(t: Table, bounds: string, isText: TextRule)
    requires Inspectable(t, bounds, isText)
    ensures forall key <- t.metadata.Keys :: isText(t.metadata[key])
    ensures t.metadata["provider"] == "openstreetmap-derived" && t.metadata["format"] == "png"
    ensures t.metadata["bounds"] == bounds && "attribution" in t.metadata
    ensures "license" in t.metadata ==> t.metadata["license"] == "ODbL-1.0"
    ensures "name" in t.metadata ==> t.metadata["name"] == "buffalo-niagara"
    ensures var low, high := ZoomOf(t.metadata, "minzoom"), ZoomOf(t.metadata, "maxzoom");
      && low.Some? && high.Some? && low.value <= high.value <= 22
      && forall e <- t.rows ::
           low.value <= e.zoom <= high.value && e.column <= Pow2(e.zoom) - 1 && e.row <= Pow2(e.zoom) - 1
           && PNG_MAGIC <= e.data
    ensures 0 < |t.rows| <= 2048
    ensures forall i, j :: 0 <= i < |t.rows| && 0 <= j < |t.rows| && i != j ==>
      (t.rows[i].zoom, t.rows[i].column, t.rows[i].row) != (t.rows[j].zoom, t.rows[j].column, t.rows[j].row)
  {
    hide Pow2, ZoomOf;
    assert forall e <- t.rows :: RowHolds(e, ZoomOf(t.metadata, "minzoom").value, ZoomOf(t.metadata, "maxzoom").value);
  }

  // ---------- what the producer emits, the inspector admits

  predicate LevelEntries(rows: seq<Entry>, from: nat, end: nat) {
    && |rows| <= MAX_TILES && DistinctEntries(rows)
    && forall e <- rows :: from <= e.zoom < end && e.column < Pow2(e.zoom) && e.row < Pow2(e.zoom) && IsPng(e.data)
  }

  lemma LevelIsDistinct(z: nat, tiles: seq<Tile>, paint: Painter)
    requires Distinct(tiles) && forall t <- tiles :: InSquare(t, z)
    ensures DistinctEntries(EntriesFor(z, tiles, paint))
    ensures forall e <- EntriesFor(z, tiles, paint) :: exists t :: t in tiles && e == EntryFor(z, t, paint)
  {
    hide Pow2;
    var rows := EntriesFor(z, tiles, paint);
    forall i, j | 0 <= i < j < |rows| ensures Identity(rows[i]) != Identity(rows[j]) {
      assert rows[i] == EntryFor(z, tiles[i], paint) && rows[j] == EntryFor(z, tiles[j], paint);
      TmsFlipIsABijection(z, tiles[i].1, tiles[j].1);
    }
  }

  lemma OneLevelHolds(done: nat, z: nat, tiles: seq<Tile>, paint: Painter)
    requires Distinct(tiles) && (forall t <- tiles :: InSquare(t, z)) && LevelHolds(done, tiles, z, paint)
    ensures LevelEntries(EntriesFor(z, tiles, paint), z, z + 1) && done + |EntriesFor(z, tiles, paint)| <= MAX_TILES
  {
    hide IsPng, Pow2, CanvasPixels, EntriesFor;
    LevelIsDistinct(z, tiles, paint);
  }

  lemma LastLevel(p: Projection, box: Area, paint: Painter, from: nat, end: nat)
    requires from < end && EntriesBefore(p, box, paint, from, end).Some?
    ensures EntriesBefore(p, box, paint, from, end - 1).Some?
    ensures var before := EntriesBefore(p, box, paint, from, end - 1).value;
      && LevelHolds(|before|, Cover(p, box, end - 1), end - 1, paint)
      && EntriesBefore(p, box, paint, from, end).value == before + LevelOf(p, box, paint, end - 1)
  {
    hide LevelHolds, Cover, LevelOf, InSquare;
  }

  lemma NoLevel(p: Projection, box: Area, paint: Painter, from: nat)
    ensures EntriesBefore(p, box, paint, from, from) == Some([]) && LevelEntries([], from, from)
  {}

  lemma {:induction false} LevelsHold(p: Projection, box: Area, paint: Painter, from: nat, end: nat)
    requires from <= end && EntriesBefore(p, box, paint, from, end).Some?
    ensures LevelEntries(EntriesBefore(p, box, paint, from, end).value, from, end)
    ensures from < end ==> EntriesBefore(p, box, paint, from, end).value != []
  {
    hide LevelHolds, Cover, EntriesFor, LevelEntries, InSquare, EntriesBefore;
    if from == end {
      NoLevel(p, box, paint, from);
    } else {
      LastLevel(p, box, paint, from, end);
      LevelsHold(p, box, paint, from, end - 1);
      var tiles := Cover(p, box, end - 1);
      var before, level := EntriesBefore(p, box, paint, from, end - 1).value, EntriesFor(end - 1, tiles, paint);
      OneLevelHolds(|before|, end - 1, tiles, paint);
      LevelsStack(before, level, from, end);
    }
  }

  lemma LevelsStack(before: seq<Entry>, level: seq<Entry>, from: nat, end: nat)
    requires from < end && LevelEntries(before, from, end - 1) && LevelEntries(level, end - 1, end)
      && |before| + |level| <= MAX_TILES
    ensures LevelEntries(before + level, from, end)
  {
    hide IsPng, Pow2;
    var all := before + level;
    forall i, j | 0 <= i < j < |all| ensures Identity(all[i]) != Identity(all[j]) {
      if i < |before| <= j {
        assert all[i] in before && all[j] in level;
      }
    }
  }

  /** The rasterizer's own labels around its tiles. */
  function RenderedFrom(tiles: seq<Entry>, minZoom: nat, maxZoom: nat, bounds: string, center: string): Rendered {
    Rendered(tiles, "png", APPROVED_PROVIDER, DEFAULT_ATTRIBUTION, APPROVED_LICENSE, Some(REGION_ID), minZoom, maxZoom,
             bounds, center)
  }

  lemma RangeReadsBack(r: Rendered, isText: TextRule)
    requires ZoomsHold(r.minZoom, r.maxZoom)
    ensures var m := Metadata(r);
      && (MetadataHolds(m, r.bounds, isText) <==> forall key <- m.Keys :: isText(m[key]))
      && ZoomOf(m, "minzoom") == Some(r.minZoom) && ZoomOf(m, "maxzoom") == Some(r.maxZoom)
      && m["bounds"] == r.bounds && m["center"] == r.center && m["attribution"] == r.attribution
  {
    DecimalReadsBack(r.minZoom);
    DecimalReadsBack(r.maxZoom);
  }

  lemma AnyOrder(rows: seq<Entry>, stored: seq<Entry>, from: nat, end: nat)
    requires LevelEntries(rows, from, end) && multiset(rows) == multiset(stored)
    ensures LevelEntries(stored, from, end) && |stored| == |rows|
  {
    hide IsPng, Pow2;
    assert |multiset(rows)| == |multiset(stored)|;
    forall e | e in stored ensures e in rows {
      assert e in multiset(stored);
    }
    forall i, j | 0 <= i < j < |stored| ensures Identity(stored[i]) != Identity(stored[j]) {
      var a, b := ReorderedPair(rows, stored, i, j);
      assert rows[a] in {stored[i], stored[j]} && rows[b] in {stored[i], stored[j]};
      assert stored[i] in {rows[a], rows[b]} && stored[j] in {rows[a], rows[b]};
    }
  }

  /**
    Whatever the rasterizer emits is written if its attribution is an admitted text, and the inspector admits the
    written table, in any row order, exactly if all its metadata are, with the tile count and the zoom range of the
    request.
  */
  lemma ProducerSatisfiesInspector(p: Projection, box: Area, paint: Painter, features: nat, minZoom: int, maxZoom: int,
                                   bounds: string, center: string, isText: TextRule, stored: seq<Entry>)
    requires Rasterized(p, box, paint, features, minZoom, maxZoom).Some?
    requires multiset(stored) == multiset(Rasterized(p, box, paint, features, minZoom, maxZoom).value)
    ensures var entries := Rasterized(p, box, paint, features, minZoom, maxZoom).value;
      var r := RenderedFrom(entries, minZoom, maxZoom, bounds, center); var t := Table(Metadata(r), stored);
      && (Writable(r, box, isText) <==> isText(DEFAULT_ATTRIBUTION)) && |stored| == |entries|
      && (Inspectable(t, bounds, isText) <==> forall key <- t.metadata.Keys :: isText(t.metadata[key]))
      && ZoomOf(t.metadata, "minzoom") == Some(minZoom) && ZoomOf(t.metadata, "maxzoom") == Some(maxZoom)
  {
    hide EntriesBefore, Pow2, IsPng, ZoomOf, MetadataHolds, Metadata;
    var entries := Rasterized(p, box, paint, features, minZoom, maxZoom).value;
    LevelsHold(p, box, paint, minZoom, maxZoom + 1);
    AnyOrder(entries, stored, minZoom, maxZoom + 1);
    RangeReadsBack(RenderedFrom(entries, minZoom, maxZoom, bounds, center), isText);
  }

  function TileOf(p: Projection, lon: real, lat: real, z: nat): (t: Tile)
    ensures InSquare(t, z)
  {
    (Column(p, lon, z), Row(p, lat, z))
  }

  lemma PointInLevel(p: Projection, box: Area, paint: Painter, z: nat, lon: real, lat: real)
    requires Monotone(p) && box.west <= lon <= box.east && box.south <= lat <= box.north
    ensures EntryFor(z, TileOf(p, lon, lat, z), paint) in EntriesFor(z, Cover(p, box, z), paint)
  {
    hide Pow2, Cover;
    CoverCovers(p, box, z);
    var tiles := Cover(p, box, z);
    var k :| 0 <= k < |tiles| && tiles[k] == TileOf(p, lon, lat, z);
    assert EntriesFor(z, tiles, paint)[k] == EntryFor(z, tiles[k], paint);
  }

  /** Every point of the box has its tile among the entries of every zoom level. */
  lemma {:induction false} EveryPointHasATile(p: Projection, box: Area, paint: Painter, from: nat, end: nat, z: nat,
      lon: real, lat: real)
    requires Monotone(p) && from <= z < end && EntriesBefore(p, box, paint, from, end).Some?
    requires box.west <= lon <= box.east && box.south <= lat <= box.north
    ensures EntryFor(z, TileOf(p, lon, lat, z), paint) in EntriesBefore(p, box, paint, from, end).value
    decreases end
  {
    hide LevelHolds, Cover, EntriesFor, EntryFor, TileOf, InSquare, Monotone, EntriesBefore;
    LastLevel(p, box, paint, from, end);
    if z < end - 1 {
      EveryPointHasATile(p, box, paint, from, end - 1, z, lon, lat);
    } else {
      PointInLevel(p, box, paint, z, lon, lat);
    }
  }

  // ---------- when the rasterizer refuses

  /** How many tiles cover the box on these levels. */
  function TilesOn(p: Projection, box: Area, from: nat, end: nat): nat
    requires from <= end
  {
    if from == end then 0 else TilesOn(p, box, from, end - 1) + |Cover(p, box, end - 1)|
  }

  /** A level that can be drawn on one canvas and encoded. */
  predicate Drawable(p: Projection, box: Area, paint: Painter, z: nat) {
    CanvasPixels(Cover(p, box, z)) <= MAX_CANVAS_PIXELS && forall t <- Cover(p, box, z) :: IsPng(paint(z, t))
  }

  /** The bounds that are kept level by level come to one bound on all tiles and one on each canvas. */
  lemma {:induction false} RefusedExactlyIf(p: Projection, box: Area, paint: Painter, from: nat, end: nat)
    requires from <= end
    ensures EntriesBefore(p, box, paint, from, end).Some? <==>
      TilesOn(p, box, from, end) <= MAX_TILES && forall z :: from <= z < end ==> Drawable(p, box, paint, z)
    ensures var entries := EntriesBefore(p, box, paint, from, end);
      entries.Some? ==> |entries.value| == TilesOn(p, box, from, end)
  {
    hide Cover, CanvasPixels, IsPng, EntryFor;
    if from == end {
    } else {
      RefusedExactlyIf(p, box, paint, from, end - 1);
      LastLevelHolds(p, box, paint, from, end);
    }
  }

  lemma LastLevelHolds(p: Projection, box: Area, paint: Painter, from: nat, end: nat)
    requires from < end
    ensures var before := EntriesBefore(p, box, paint, from, end - 1);
      EntriesBefore(p, box, paint, from, end).Some? <==>
        before.Some? && |before.value| + |Cover(p, box, end - 1)| <= MAX_TILES && Drawable(p, box, paint, end - 1)
  {
    hide Cover, CanvasPixels, IsPng, LevelOf;
  }

  // ---------- what the tiles show

  /** The pictures can be recovered from what is stored. */
  ghost predicate Lossless(encode: Encoder, decode: Data -> Picture) {
    forall picture :: decode(encode(picture)) == picture
  }

  /** The pixel of the canvas that belongs to a point. */
  function PixelOf(p: Projection, frame: Frame, lon: real, lat: real): (int, int) {
    (((p.x(lon, frame.zoom) - frame.originX as real) * TILE_SIZE as real).Floor,
     ((p.y(lat, frame.zoom) - frame.originY as real) * TILE_SIZE as real).Floor)
  }

  lemma PixelInItsTile(x: real, origin: nat, last: nat)
    requires origin <= x.Floor <= last
    ensures var pixel := ((x - origin as real) * TILE_SIZE as real).Floor;
      pixel / TILE_SIZE == x.Floor - origin && 0 <= pixel < (last - origin + 1) * TILE_SIZE
  {
    var k, pixel := x.Floor - origin, ((x - origin as real) * TILE_SIZE as real).Floor;
    assert k as real * 256.0 <= (x - origin as real) * 256.0 < (k + 1) as real * 256.0;
    assert k * 256 <= pixel < (k + 1) * 256;
  }

  /** Any pixel inside a tile's crop box is found in the tile's picture, at the remainders by the tile size. */
  lemma CutShowsPixel(canvas: Canvas, frame: Frame, t: Tile, x: int, y: int)
    requires x / TILE_SIZE == t.0 - frame.originX && y / TILE_SIZE == t.1 - frame.originY
    ensures var picture := TilePicture(canvas, frame, t);
      |picture| == TILE_SIZE && |picture[y % TILE_SIZE]| == TILE_SIZE
      && picture[y % TILE_SIZE][x % TILE_SIZE] == canvas(x, y)
  {
    var c := CropOf(t, frame.originX, frame.originY);
    assert c.left + x % TILE_SIZE == x && c.top + y % TILE_SIZE == y;
  }

  /** The tile's place inside the canvas, and the entry of the tile. */
  lemma OwnerIsEntered(p: Projection, box: Area, paint: Painter, z: nat, x: int, y: int)
    requires Monotone(p) && AreaHolds(box)
    requires var frame := FrameOf(z, Cover(p, box, z)); 0 <= x < frame.width && 0 <= y < frame.height
    ensures var frame := FrameOf(z, Cover(p, box, z));
      var owner := (frame.originX + x / TILE_SIZE, frame.originY + y / TILE_SIZE);
      InSquare(owner, z) && EntryFor(z, owner, paint) in EntriesFor(z, Cover(p, box, z), paint)
  {
    hide Pow2, Cover, Rectangle, Bounds, Row, Column, EntryFor, EntriesFor, CropOf;
    CoverIsRectangle(p, box, z);
    var x0, x1 := Column(p, box.west, z), Column(p, box.east, z);
    var y0, y1 := Row(p, box.north, z), Row(p, box.south, z);
    RectangleBounds(x0, x1, y0, y1);
    var tiles := Cover(p, box, z);
    CropsPartitionTheCanvas(tiles, x0, x1, y0, y1, x, y);
    var owner := (x0 + x / TILE_SIZE, y0 + y / TILE_SIZE);
    var k :| 0 <= k < |tiles| && tiles[k] == owner;
    assert EntriesFor(z, tiles, paint)[k] == EntryFor(z, owner, paint);
  }

  lemma CoverIsRectangle(p: Projection, box: Area, z: nat)
    requires Monotone(p) && AreaHolds(box)
    ensures var x0, x1 := Column(p, box.west, z), Column(p, box.east, z);
      var y0, y1 := Row(p, box.north, z), Row(p, box.south, z);
      x0 <= x1 && y0 <= y1 && Cover(p, box, z) == Rectangle(x0, x1, y0, y1)
      && forall t :: t in Cover(p, box, z) <==> InRectangle(t, x0, x1, y0, y1)
  {
    hide Pow2, Rectangle, Row, Column;
    CoverCovers(p, box, z);
  }

  lemma {:induction false} LevelIsEntered(p: Projection, box: Area, paint: Painter, from: nat, end: nat, z: nat,
      e: Entry)
    requires from <= z < end && EntriesBefore(p, box, paint, from, end).Some? && e in LevelOf(p, box, paint, z)
    ensures e in EntriesBefore(p, box, paint, from, end).value
    decreases end
  {
    hide LevelHolds, Cover, LevelOf, EntriesBefore;
    LastLevel(p, box, paint, from, end);
    if z < end - 1 {
      LevelIsEntered(p, box, paint, from, end - 1, z, e);
    } else {
      assert z == end - 1;
    }
  }

  /**
    The mosaic: at every zoom level each pixel of the canvas is shown, in its place, by the picture stored for its tile,
    and no other entry of the table is stored for that tile.
  */
  lemma MosaicIsTheCanvas(p: Projection, box: Area, draw: Artist, encode: Encoder, decode: Data -> Picture,
                          features: nat, minZoom: int, maxZoom: int, z: nat, x: int, y: int)
    requires Monotone(p) && Lossless(encode, decode)
    requires Rasterized(p, box, PainterOf(p, box, draw, encode), features, minZoom, maxZoom).Some?
    requires minZoom <= z <= maxZoom
    requires var frame := FrameOf(z, Cover(p, box, z)); 0 <= x < frame.width && 0 <= y < frame.height
    ensures var entries := Rasterized(p, box, PainterOf(p, box, draw, encode), features, minZoom, maxZoom).value;
      var frame := FrameOf(z, Cover(p, box, z));
      var owner := (frame.originX + x / TILE_SIZE, frame.originY + y / TILE_SIZE);
      && InSquare(owner, z) && DistinctEntries(entries)
      && exists e ::
           e in entries && Identity(e) == (z, owner.0, TmsRow(z, owner.1)) && Shows(decode(e.data), x, y, draw(frame))
  {
    hide Pow2, Cover, FrameOf, EntriesBefore, EntriesFor, IsPng, TilePicture;
    var paint := PainterOf(p, box, draw, encode);
    var entries := Rasterized(p, box, paint, features, minZoom, maxZoom).value;
    var frame := FrameOf(z, Cover(p, box, z));
    var owner := (frame.originX + x / TILE_SIZE, frame.originY + y / TILE_SIZE);
    OwnerIsEntered(p, box, paint, z, x, y);
    var e := EntryFor(z, owner, paint);
    LevelsHold(p, box, paint, minZoom, maxZoom + 1);
    LevelIsEntered(p, box, paint, minZoom, maxZoom + 1, z, e);
    CutShowsPixel(draw(frame), frame, owner, x, y);
    assert decode(e.data) == TilePicture(draw(frame), frame, owner);
  }

  /** A tile's picture has the colour of this pixel of the canvas at the place that belongs to it. */
  predicate Shows(picture: Picture, x: int, y: int, canvas: Canvas) {
    && |picture| == TILE_SIZE && |picture[y % TILE_SIZE]| == TILE_SIZE
    && picture[y % TILE_SIZE][x % TILE_SIZE] == canvas(x, y)
  }

  /**
    A point inside the zoom square has its pixel on the canvas of the level, and there in the crop box of its own tile.
  */
  lemma PointIsOnTheCanvas(p: Projection, box: Area, z: nat, lon: real, lat: real)
    requires Monotone(p) && AreaHolds(box) && box.west <= lon <= box.east && box.south <= lat <= box.north
    requires 0 <= p.x(lon, z).Floor < Pow2(z) && 0 <= p.y(lat, z).Floor < Pow2(z)
    ensures var frame := FrameOf(z, Cover(p, box, z)); var (x, y) := PixelOf(p, frame, lon, lat);
      && 0 <= x < frame.width && 0 <= y < frame.height
      && TileOf(p, lon, lat, z) == (frame.originX + x / TILE_SIZE, frame.originY + y / TILE_SIZE)
  {
    hide Pow2, Cover, Rectangle, FrameOf, Monotone;
    var x0, x1 := Column(p, box.west, z), Column(p, box.east, z);
    var y0, y1 := Row(p, box.north, z), Row(p, box.south, z);
    FrameOfCover(p, box, z);
    ColumnsFollow(p, box.west, lon, z);
    ColumnsFollow(p, lon, box.east, z);
    RowsFollow(p, box.south, lat, z);
    RowsFollow(p, lat, box.north, z);
    PixelInItsTile(p.x(lon, z), x0, x1);
    PixelInItsTile(p.y(lat, z), y0, y1);
  }

  lemma FrameOfCover(p: Projection, box: Area, z: nat)
    requires Monotone(p) && AreaHolds(box)
    ensures var x0, x1 := Column(p, box.west, z), Column(p, box.east, z);
      var y0, y1 := Row(p, box.north, z), Row(p, box.south, z);
      && x0 <= x1 && y0 <= y1
      && FrameOf(z, Cover(p, box, z)) == Frame(z, x0, y0, (x1 - x0 + 1) * TILE_SIZE, (y1 - y0 + 1) * TILE_SIZE)
  {
    hide Pow2, Cover, Rectangle, Bounds, Row, Column;
    CoverIsRectangle(p, box, z);
    RectangleBounds(Column(p, box.west, z), Column(p, box.east, z), Row(p, box.north, z), Row(p, box.south, z));
  }

  /**
    The table is the right way up: of two points of the box the one further north never has the smaller row, and what
    is stored as row r is tile row 2^z - 1 - r.
  */
  lemma TableIsUpright(p: Projection, box: Area, paint: Painter, from: nat, end: nat, z: nat, lon: real, north: real,
                       south: real)
    requires Monotone(p) && from <= z < end && EntriesBefore(p, box, paint, from, end).Some?
    requires box.west <= lon <= box.east && box.south <= south <= north <= box.north
    ensures var entries := EntriesBefore(p, box, paint, from, end).value;
      var upper, lower := TileOf(p, lon, north, z), TileOf(p, lon, south, z);
      exists a, b :: a in entries && b in entries
        && Identity(a) == (z, upper.0, Pow2(z) - 1 - upper.1) && Identity(b) == (z, lower.0, Pow2(z) - 1 - lower.1)
        && a.row >= b.row && (a.row == b.row <==> upper == lower)
  {
    hide Pow2, LevelHolds, EntriesBefore;
    EveryPointHasATile(p, box, paint, from, end, z, lon, north);
    EveryPointHasATile(p, box, paint, from, end, z, lon, south);
    var upper, lower := TileOf(p, lon, north, z), TileOf(p, lon, south, z);
    RowsFollow(p, south, north, z);
    TmsRowsRunNorth(z, upper.1, lower.1);
    TmsRowsRunNorth(z, lower.1, upper.1);
    var a, b := EntryFor(z, upper, paint), EntryFor(z, lower, paint);
    assert Identity(a) == (z, upper.0, Pow2(z) - 1 - upper.1);
  }

  /** Every entry of the table: its row and the row of the tile it was made from add up to the last row. */
  lemma {:induction false} RowsAddUp(p: Projection, box: Area, paint: Painter, from: nat, end: nat)
    requires from <= end && EntriesBefore(p, box, paint, from, end).Some?
    ensures forall e <- EntriesBefore(p, box, paint, from, end).value :: MadeFrom(p, box, paint, e)
  {
    hide Cover, EntriesBefore, MadeFrom, LevelHolds, LevelOf;
    if from == end {
      NoLevel(p, box, paint, from);
    } else {
      LastLevel(p, box, paint, from, end);
      RowsAddUp(p, box, paint, from, end - 1);
      LevelIsMade(p, box, paint, end - 1);
    }
  }

  ghost predicate MadeFrom(p: Projection, box: Area, paint: Painter, e: Entry) {
    exists y: nat :: (e.column, y) in Cover(p, box, e.zoom) && y + e.row == Pow2(e.zoom) - 1
                     && e.data == paint(e.zoom, (e.column, y))
  }

  lemma LevelIsMade(p: Projection, box: Area, paint: Painter, z: nat)
    ensures forall e <- LevelOf(p, box, paint, z) :: MadeFrom(p, box, paint, e)
  {
    hide Pow2;
    var tiles := Cover(p, box, z);
    forall e | e in LevelOf(p, box, paint, z) ensures MadeFrom(p, box, paint, e) {
      var k :| 0 <= k < |tiles| && LevelOf(p, box, paint, z)[k] == e;
      assert tiles[k] in tiles && e == EntryFor(z, tiles[k], paint);
      TmsRowsRunNorth(z, tiles[k].1, tiles[k].1);
      assert (e.column, tiles[k].1) == tiles[k];
    }
  }
}
