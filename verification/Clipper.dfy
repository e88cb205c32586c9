/** The reader of the extracted collection: three ways to a bounding box, and why they agree. */
module Clipper {
  import opened Wrappers
  import opened Bytes
  import opened Rings
  import opened Boxes
  import opened PolygonRecord
  import opened Clip
  import Dbf
  import Shp

  /** A decoded GeoJSON document. A feature's or the document's own box may be missing. */
  datatype Document = Document(features: seq<Feature>, bbox: Option<Box>)

  predicate Proper(b: Box) {
    b.west < b.east && b.south < b.north
  }

  function AdmitBox(b: Box): Option<Box> {
    if Proper(b) then Some(b) else None
  }

  function GeometryBox(g: Geometry): Option<Box> {
    if (exists ring <- RingsIn(g) :: |ring| < 4) || Joined(RingsIn(g)) == [] then None
    else Some(BoxOf(Joined(RingsIn(g))))
  }

  function FeatureBox(f: Feature): Option<Box> {
    if f.bbox.Some? then AdmitBox(f.bbox.value) else GeometryBox(f.geometry)
  }

  predicate FeatureHolds(f: Feature) {
    f.geoid in LOCKED_GEOIDS && f.name in LOCKED_NAMES && FeatureBox(f).Some?
  }

  /** The box around two features that hold. */
  function Around(a: Feature, b: Feature): Box
    requires FeatureHolds(a) && FeatureHolds(b)
  {
    Union(FeatureBox(a).value, FeatureBox(b).value)
  }

  /** The two counties in their order, each with its name and a box, and a proper box around both. */
  predicate FeaturesHold(features: seq<Feature>) {
    && |features| == 2 && FeatureHolds(features[0]) && FeatureHolds(features[1])
    && features[0].geoid == ERIE && features[1].geoid == NIAGARA
    && features[0].name == LOCKED_NAMES[0] && features[1].name == LOCKED_NAMES[1]
    && Proper(Around(features[0], features[1]))
  }

  method AdmitGeojsonFeatures(features: seq<Feature>) returns (admitted: Option<(seq<string>, Box)>)
    ensures admitted == if FeaturesHold(features)
      then Some((LOCKED_GEOIDS, Around(features[0], features[1]))) else None
  {
    hide FeatureBox, Proper;
    if |features| != 2 {
      return None;
    }
    var geoids: seq<string>, names: seq<string>, boxes: seq<Box> := [], [], [];
    for i := 0 to 2
      invariant |geoids| == |names| == |boxes| == i
      invariant forall k :: 0 <= k < i ==>
        && FeatureHolds(features[k]) && geoids[k] == features[k].geoid && names[k] == features[k].name
        && boxes[k] == FeatureBox(features[k]).value
    {
      var f := features[i];
      if f.geoid !in LOCKED_GEOIDS || f.name !in LOCKED_NAMES || FeatureBox(f).None? {
        assert !FeatureHolds(features[i]);
        return None;
      }
      geoids, names, boxes := geoids + [f.geoid], names + [f.name], boxes + [FeatureBox(f).value];
    }
    assert features == [features[0], features[1]];
    assert geoids == [features[0].geoid, features[1].geoid] && names == [features[0].name, features[1].name];
    if geoids != LOCKED_GEOIDS || names != LOCKED_NAMES {
      return None;
    }
    var computed := AdmitBox(Union(boxes[0], boxes[1]));
    if computed.Some? {
      admitted := Some((geoids, computed.value));
    } else {
      admitted := None;
    }
  }

  function BoxFromGeojson(d: Document): Option<(seq<string>, Box)> {
    var _ :- Require(FeaturesHold(d.features));
    if d.bbox.Some? then
      var b :- AdmitBox(d.bbox.value);
      Some((LOCKED_GEOIDS, b))
    else Some((LOCKED_GEOIDS, Around(d.features[0], d.features[1])))
  }

  method ReadClip(d: Document) returns (clip: Option<(seq<string>, Box)>)
    ensures clip == BoxFromGeojson(d)
  {
    var admitted := AdmitGeojsonFeatures(d.features);
    if admitted.Some? && d.bbox.Some? {
      clip := if Proper(d.bbox.value) then Some((admitted.value.0, d.bbox.value)) else None;
    } else {
      clip := admitted;
    }
  }

  /** Only the two counties are read, in their order, and only with a box that has an extent. */
  lemma ReadClipMeans(d: Document)
    requires BoxFromGeojson(d).Some?
    ensures var (geoids, box) := BoxFromGeojson(d).value;
      && geoids == ["36029", "36063"] && HasExtent(box) && |d.features| == 2
      && d.features[0].geoid == "36029" && d.features[0].name == "Erie County"
      && d.features[1].geoid == "36063" && d.features[1].name == "Niagara County"
      && (d.bbox.Some? ==> box == d.bbox.value)
      && forall k :: 0 <= k < 2 && d.features[k].bbox.Some? ==> HasExtent(d.features[k].bbox.value)
  {
    hide GeometryBox;
    assert FeatureHolds(d.features[0]) && FeatureHolds(d.features[1]);
  }

  // ---------- agreement

  /** The box that the extractor writes for the whole collection: least and greatest sides of the two boxes. */
  function CollectionBox(a: Box, b: Box): Box {
    Box(Min(Min(a.west, b.west), Min(a.east, b.east)), Min(Min(a.south, b.south), Min(a.north, b.north)),
        Max(Max(a.west, b.west), Max(a.east, b.east)), Max(Max(a.south, b.south), Max(a.north, b.north)))
  }

  /** What the extractor makes of two usable records. */
  function Collected(erie: Data, niagara: Data, dbl: Decoder): Document
    requires RecordUsable(erie, dbl) && RecordUsable(niagara, dbl)
  {
    var a, b := GeometryOf(erie, dbl), GeometryOf(niagara, dbl);
    Document([Feature(ERIE, LOCKED_NAMES[0], a.0, Some(a.1)), Feature(NIAGARA, LOCKED_NAMES[1], b.0, Some(b.1))],
             Some(CollectionBox(a.1, b.1)))
  }

  function Kept(f: Feature, keep: bool): Feature {
    if keep then f else f.(bbox := None)
  }

  /** The same document without some of its boxes. */
  function Stripped(d: Document, keepErie: bool, keepNiagara: bool, keepAll: bool): Document
    requires |d.features| == 2
  {
    Document([Kept(d.features[0], keepErie), Kept(d.features[1], keepNiagara)], if keepAll then d.bbox else None)
  }

  /** A written geometry has the box of the points that were read. */
  lemma WrittenGeometryKeepsTheBox(content: Data, dbl: Decoder)
    requires RecordUsable(content, dbl)
    ensures var (g, b) := GeometryOf(content, dbl);
      && GeometryBox(g) == Some(b) && Points(content, dbl) != [] && b == BoxOf(Points(content, dbl))
      && b.west <= b.east && b.south <= b.north
  {
    hide RingsOf, Grouped, BoxOf, Closable, TurnedAll, Joined;
    var rings := RingsOf(content, dbl);
    UsableRecordHasGeometry(content, dbl);
    JoinedOfNone(rings);
    GeometryListsRings(rings);
    TurnedRingsKeepTheBox(rings);
    BoxIsLeast(Points(content, dbl));
    forall ring | ring in TurnedAll(rings) ensures |ring| >= 4 {
      TurnedIsLong(rings, ring);
    }
  }

  lemma JoinedOfNone(rings: seq<Ring>)
    ensures rings == [] ==> Joined(rings) == []
  {}

  lemma TurnedIsLong(rings: seq<Ring>, ring: Ring)
    requires AllClosable(rings) && ring in TurnedAll(rings)
    ensures |ring| >= 4
  {
    var i :| 0 <= i < |rings| && TurnedAll(rings)[i] == ring;
    assert rings[i] in rings;
    TurnedRingIsGeoJson(rings[i]);
  }

  lemma BoxesCombine(a: Box, b: Box)
    requires a.west <= a.east && a.south <= a.north && b.west <= b.east && b.south <= b.north
    ensures CollectionBox(a, b) == Union(a, b)
  {}

  lemma KeptBox(f: Feature, keep: bool)
    requires f.bbox.Some? && f.bbox == GeometryBox(f.geometry)
    ensures FeatureBox(Kept(f, keep)) == if keep && !Proper(f.bbox.value) then None else f.bbox
  {}

  /**
    Whichever boxes the collected document still carries, the reader gets the same, or refuses a box without extent.
  */
  lemma CollectedBoxesAgree(erie: Data, niagara: Data, dbl: Decoder, keepErie: bool, keepNiagara: bool, keepAll: bool)
    requires RecordUsable(erie, dbl) && RecordUsable(niagara, dbl)
    ensures var written := Collected(erie, niagara, dbl); var box := written.bbox.value;
      && IsLeast(box, Points(erie, dbl) + Points(niagara, dbl))
      && BoxFromGeojson(Stripped(written, keepErie, keepNiagara, keepAll)) ==
           if Proper(box) && (keepErie ==> Proper(GeometryOf(erie, dbl).1))
              && (keepNiagara ==> Proper(GeometryOf(niagara, dbl).1))
           then Some((LOCKED_GEOIDS, box)) else None
  {
    hide GeometryOf, GeometryBox, FeatureBox, Points, BoxOf, Proper, CollectionBox, Union, IsLeast, CountsHold,
      PartsFit;
    hide AllClosable;
    WrittenGeometryKeepsTheBox(erie, dbl);
    WrittenGeometryKeepsTheBox(niagara, dbl);
    UnionIsLeast(Points(erie, dbl), Points(niagara, dbl));
    BoxesCombine(GeometryOf(erie, dbl).1, GeometryOf(niagara, dbl).1);
    var written := Collected(erie, niagara, dbl);
    KeptBox(written.features[0], keepErie);
    KeptBox(written.features[1], keepNiagara);
  }

  /** The document that the extractor writes: two features, each with its box, and the box around both. */
  function Written(features: seq<Feature>): Document
    requires |features| == 2 && features[0].bbox.Some? && features[1].bbox.Some?
  {
    Document(features, Some(CollectionBox(features[0].bbox.value, features[1].bbox.value)))
  }

  /** The record of a county: the one found under the number of the county's only row. */
  function CountyRecord(shp: Data, dbf: Data, shx: Option<Data>, county: nat): Option<Data>
    requires county < 2
  {
    var rows :- Dbf.ReadTable(dbf);
    var _ :- Require(Selectable(rows));
    var offsets :- Offsets(shp, shx, |rows|);
    var choice := Selection(rows)[county];
    Shp.ReadRecord(shp, offsets[choice.index], choice.index + 1)
  }

  /** What is extracted is what two usable records give, the counties' own. */
  lemma ExtractedIsCollected(shp: Data, dbf: Data, shx: Option<Data>, dbl: Decoder)
    requires Extraction(shp, dbf, shx, dbl).Some?
    ensures var features := Extraction(shp, dbf, shx, dbl).value;
      var erie, niagara := CountyRecord(shp, dbf, shx, 0), CountyRecord(shp, dbf, shx, 1);
      && erie.Some? && niagara.Some? && RecordUsable(erie.value, dbl) && RecordUsable(niagara.value, dbl)
      && |features| == 2 && features[0].bbox.Some? && features[1].bbox.Some?
      && Written(features) == Collected(erie.value, niagara.value, dbl)
  {
    hide Dbf.ReadTable, Selectable, Offsets, RecordUsable, GeometryOf, Shp.ReadRecord, Shp.ParseShpHeader, RowsOf;
    var rows := Dbf.ReadTable(dbf).value;
    var chosen, offsets := Selection(rows), Offsets(shp, shx, |rows|).value;
    assert ExtractAll(shp, offsets, chosen, dbl).Some?;
    var rest := ExtractAll(shp, offsets, chosen[1..], dbl);
    assert rest.Some? && chosen[1..][0] == chosen[1];
    assert ExtractAll(shp, offsets, chosen[1..][1..], dbl) == Some([]);
  }

  /** A box that is wider than a line and higher than a line. */
  predicate HasExtent(b: Box) {
    b.east - b.west > 0.0 && b.north - b.south > 0.0
  }

  /**
    Of whatever files the extractor accepts, and whichever boxes its document still carries, the clipper gets both
    counties and the least box around all points of the two records; it refuses exactly if that box, or one that a
    feature carries, has no width or no height.
  */
  lemma BoxesAgree(shp: Data, dbf: Data, shx: Option<Data>, dbl: Decoder, keepErie: bool, keepNiagara: bool,
      keepAll: bool)
    requires Extraction(shp, dbf, shx, dbl).Some?
    ensures var features := Extraction(shp, dbf, shx, dbl).value;
      var erie, niagara := CountyRecord(shp, dbf, shx, 0), CountyRecord(shp, dbf, shx, 1);
      && erie.Some? && niagara.Some? && RecordUsable(erie.value, dbl) && RecordUsable(niagara.value, dbl)
      && |features| == 2 && features[0].bbox.Some? && features[1].bbox.Some?
      && var box := Written(features).bbox.value;
      && IsLeast(box, Points(erie.value, dbl) + Points(niagara.value, dbl))
      && BoxFromGeojson(Stripped(Written(features), keepErie, keepNiagara, keepAll)) ==
           if HasExtent(box) && (keepErie ==> HasExtent(features[0].bbox.value))
              && (keepNiagara ==> HasExtent(features[1].bbox.value))
           then Some((LOCKED_GEOIDS, box)) else None
  {
    hide Extraction, CountyRecord, RecordUsable, GeometryOf, BoxFromGeojson, Stripped, IsLeast, Points;
    ExtractedIsCollected(shp, dbf, shx, dbl);
    var erie, niagara := CountyRecord(shp, dbf, shx, 0).value, CountyRecord(shp, dbf, shx, 1).value;
    CollectedBoxesAgree(erie, niagara, dbl, keepErie, keepNiagara, keepAll);
  }
}
