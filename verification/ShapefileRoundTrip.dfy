/** A shapefile printed from a table and its shapes is extracted completely, with or without its index. */
module ShapefileRoundTrip {
  import opened Wrappers
  import opened Bytes
  import opened Binary
  import opened Rings
  import opened PolygonRecord
  import opened Clip
  import Dbf
  import DbfPrint
  import Shp

  /** One file set: line i of the table describes shape i, deleted lines included. */
  datatype FileSet = FileSet(header: Shp.Header, shapes: seq<Shape>, table: DbfPrint.Table)

  function Contents(shapes: seq<Shape>): (r: seq<Data>)
    requires forall s <- shapes :: GoodShape(s)
    ensures |r| == |shapes|
  {
    seq(|shapes|, i requires 0 <= i < |shapes| => assert shapes[i] in shapes; PrintShape(shapes[i]))
  }

  predicate GoodFiles(f: FileSet) {
    && (forall s <- f.shapes :: GoodShape(s)) && DbfPrint.GoodTable(f.table) && |f.shapes| == |f.table.lines|
    && Shp.Printable(f.header, Contents(f.shapes))
  }

  function Rows(f: FileSet): (r: seq<Dbf.Row>)
    requires GoodFiles(f)
    ensures |r| == |f.shapes|
  {
    DbfPrint.RowsOf(f.table.lines, f.table.columns)
  }

  function Shx(f: FileSet, indexed: bool): Option<Data>
    requires GoodFiles(f)
  {
    if indexed then Some(Shp.PrintShx(f.header, Contents(f.shapes))) else None
  }

  /** Both ways to find the records lead to the same places. */
  lemma OffsetsReadBack(f: FileSet, indexed: bool)
    requires GoodFiles(f)
    ensures var contents := Contents(f.shapes);
      Offsets(Shp.PrintShp(f.header, contents), Shx(f, indexed), |contents|)
        == Some(Shp.OffsetsFrom(contents, Shp.HEADER_SIZE))
  {
    hide GoodShape, PrintShape, Shp.PrintShp, Shp.PrintShx, Shp.OffsetsFrom, BigI32, Shp.Scan, Shp.ReadRecord, Contents;
    hide DbfPrint.GoodTable;
    var contents := Contents(f.shapes);
    Shp.ShpReadsBack(f.header, contents, |contents|);
    Shp.ShxReadsBack(f.header, contents);
    if indexed {
      var offsets := Offsets(Shp.PrintShp(f.header, contents), Shx(f, indexed), |contents|);
      assert offsets.Some?;
      assert offsets.value == Shp.OffsetsFrom(contents, Shp.HEADER_SIZE);
    }
  }

  /** A part of three points must not end where it starts; longer ones can always be closed. */
  predicate PartClosable(part: seq<Data>, dbl: Decoder) {
    |part| > 3 || (|part| == 3 && |part[0]| == |part[2]| == 16 && PointAt(part[0], dbl) != PointAt(part[2], dbl))
  }

  /** The parser accepts a printed shape exactly if each of its parts can be closed. */
  lemma ShapeIsUsable(s: Shape, dbl: Decoder)
    requires GoodShape(s)
    ensures RecordUsable(PrintShape(s), dbl) <==> forall part <- s.parts :: PartClosable(part, dbl)
  {
    hide PrintShape, RecordHolds, RingsOf, GoodShape;
    ShapeReadsBack(s, dbl);
    var rings := RingsOf(PrintShape(s), dbl);
    forall i | 0 <= i < |s.parts| ensures Closable(rings[i]) <==> PartClosable(s.parts[i], dbl) {
      assert RingIsPart(rings[i], s, i, dbl);
      var closed := CloseRing(rings[i]);
    }
  }

  /** The feature that shape i should give. */
  function FeatureOf(f: FileSet, choice: Choice, dbl: Decoder): Option<Feature>
    requires GoodFiles(f) && choice.index < |f.shapes|
  {
    var s, content := f.shapes[choice.index], Contents(f.shapes)[choice.index];
    if forall part <- s.parts :: PartClosable(part, dbl) then
      assert s in f.shapes;
      ShapeIsUsable(s, dbl);
      Some(Feature(choice.geoid, choice.name, GeometryOf(content, dbl).0, Some(GeometryOf(content, dbl).1)))
    else None
  }

  lemma ShapeIsExtracted(f: FileSet, choice: Choice, dbl: Decoder)
    requires GoodFiles(f) && choice.index < |f.shapes|
    ensures var contents := Contents(f.shapes);
      ExtractOne(Shp.PrintShp(f.header, contents), Shp.OffsetsFrom(contents, Shp.HEADER_SIZE)[choice.index], choice,
        dbl)
        == FeatureOf(f, choice, dbl)
  {
    hide GoodShape, PrintShape, Shp.PrintShp, Shp.OffsetsFrom, Shp.ReadRecord, RecordUsable, GeometryOf, Shp.Scan;
    hide DbfPrint.GoodTable, PartClosable;
    assert f.shapes[choice.index] in f.shapes;
    ShapeIsUsable(f.shapes[choice.index], dbl);
    Shp.ShpReadsBack(f.header, Contents(f.shapes), 0);
  }

  /**
    From a printed file set the extractor returns the two counties' shapes, each found by the row that names it, or
    refuses: exactly when the table does not single them out or one of the two shapes has a part that cannot be
    closed.
  */
  lemma FilesAreExtracted(f: FileSet, indexed: bool, dbl: Decoder)
    requires GoodFiles(f)
    ensures var shp, dbf := Shp.PrintShp(f.header, Contents(f.shapes)), DbfPrint.PrintTable(f.table);
      Extraction(shp, dbf, Shx(f, indexed), dbl) ==
        if !Selectable(Rows(f)) then None
        else
          var chosen := Selection(Rows(f));
          var erie, niagara := FeatureOf(f, chosen[0], dbl), FeatureOf(f, chosen[1], dbl);
          if erie.None? || niagara.None? then None else Some([erie.value, niagara.value])
  {
    hide GoodShape, PrintShape, Shp.PrintShp, Shp.OffsetsFrom, Shp.ReadRecord, Shp.ParseShpHeader, Shp.Scan, Contents;
    hide DbfPrint.GoodTable, DbfPrint.PrintTable, Dbf.ReadTable, DbfPrint.RowsOf, Offsets, ExtractOne, FeatureOf, Shx;
    hide Selectable, Selection;
    Shp.ShpReadsBack(f.header, Contents(f.shapes), 0);
    DbfPrint.TableReadsBack(f.table);
    OffsetsReadBack(f, indexed);
    if Selectable(Rows(f)) {
      var chosen := Selection(Rows(f));
      ShapeIsExtracted(f, chosen[0], dbl);
      ShapeIsExtracted(f, chosen[1], dbl);
      TwoAreExtracted(Shp.PrintShp(f.header, Contents(f.shapes)), Shp.OffsetsFrom(Contents(f.shapes), Shp.HEADER_SIZE),
        chosen, dbl);
    }
  }

  lemma TwoAreExtracted(shp: Data, offsets: seq<int>, chosen: seq<Choice>, dbl: Decoder)
    requires |chosen| == 2 && Listed(chosen, offsets)
    ensures ExtractAll(shp, offsets, chosen, dbl) ==
      var a, b := ExtractOne(shp, offsets[chosen[0].index], chosen[0], dbl),
        ExtractOne(shp, offsets[chosen[1].index], chosen[1], dbl);
      if a.None? || b.None? then None else Some([a.value, b.value])
  {
    hide ExtractOne;
    var a, b := ExtractOne(shp, offsets[chosen[0].index], chosen[0], dbl),
      ExtractOne(shp, offsets[chosen[1].index], chosen[1], dbl);
    assert ExtractAll(shp, offsets, chosen[1..][1..], dbl) == Some([]);
    assert chosen[1..][0] == chosen[1];
    assert b.Some? ==> ExtractAll(shp, offsets, chosen[1..], dbl) == Some([b.value] + []);
    assert a.Some? && b.Some? ==> [a.value] + ([b.value] + []) == [a.value, b.value];
  }

  /** The rings of an extracted shape are the decoded parts, and its polygons are these closed and reversed. */
  lemma ExtractedRings(f: FileSet, k: nat, dbl: Decoder)
    requires GoodFiles(f) && k < |f.shapes| && RecordUsable(Contents(f.shapes)[k], dbl)
    ensures var content := Contents(f.shapes)[k]; var rings := RingsOf(content, dbl);
      && |rings| == |f.shapes[k].parts| && RingsIn(GeometryOf(content, dbl).0) == TurnedAll(rings)
      && forall i :: 0 <= i < |rings| ==> GoodShape(f.shapes[k]) && RingIsPart(rings[i], f.shapes[k], i, dbl)
  {
    hide RecordHolds, PrintShape, RingsOf, DbfPrint.GoodTable, Shp.PrintShp, Grouped, TurnedAll, Joined, Closable;
    assert f.shapes[k] in f.shapes;
    ShapeReadsBack(f.shapes[k], dbl);
    UsableRecordHasGeometry(Contents(f.shapes)[k], dbl);
    GeometryListsRings(RingsOf(Contents(f.shapes)[k], dbl));
  }
}
