/** Extraction of the two locked counties from a shapefile, and the clipper that reads the result. */
module Clip {
  import opened Wrappers
  import opened Bytes
  import opened Binary
  import opened Rings
  import opened Boxes
  import opened PolygonRecord
  import Dbf
  import Shp

  const ERIE := "36029"
  const NIAGARA := "36063"
  const LOCKED_GEOIDS := [ERIE, NIAGARA]
  const LOCKED_NAMES := ["Erie County", "Niagara County"]

  // ---------- choosing the rows

  function Cell(row: Dbf.Row, key: string): string {
    if key in row then row[key] else ""
  }

  function RecordGeoid(row: Dbf.Row): Option<string> {
    if Cell(row, "GEOID") != "" then Some(row["GEOID"])
    else if Cell(row, "STATEFP") != "" && Cell(row, "COUNTYFP") != "" then Some(row["STATEFP"] + row["COUNTYFP"])
    else None
  }

  function CountyName(value: string): string {
    var suffix := " County";
    if |value| >= |suffix| && value[|value| - |suffix|..] == suffix then value else value + suffix
  }

  function RecordName(row: Dbf.Row, geoid: string): string
    requires geoid in LOCKED_GEOIDS
  {
    if Cell(row, "NAMELSAD") != "" then CountyName(row["NAMELSAD"])
    else if Cell(row, "NAME") != "" then CountyName(row["NAME"])
    else if geoid == ERIE then LOCKED_NAMES[0] else LOCKED_NAMES[1]
  }

  datatype Choice = Choice(index: nat, geoid: string, name: string)

  /** The rows of one county, in order. */
  function RowsOf(rows: seq<Dbf.Row>, geoid: string): (r: seq<nat>)
    ensures forall k :: 0 <= k < |r| ==> r[k] < |rows|
  {
    if rows == [] then []
    else
      var n := |rows| - 1;
      RowsOf(rows[..n], geoid) + if RecordGeoid(rows[n]) == Some(geoid) then [n] else []
  }

  /** Each locked county has exactly one row, and under its own name. */
  predicate Selectable(rows: seq<Dbf.Row>) {
    var erie, niagara := RowsOf(rows, ERIE), RowsOf(rows, NIAGARA);
    && |erie| == 1 && |niagara| == 1
    && RecordName(rows[erie[0]], ERIE) == LOCKED_NAMES[0] && RecordName(rows[niagara[0]], NIAGARA) == LOCKED_NAMES[1]
  }

  function Selection(rows: seq<Dbf.Row>): (r: seq<Choice>)
    requires Selectable(rows)
    ensures |r| == 2 && r[0].index < |rows| && r[1].index < |rows|
  {
    [Choice(RowsOf(rows, ERIE)[0], ERIE, LOCKED_NAMES[0]), Choice(RowsOf(rows, NIAGARA)[0], NIAGARA, LOCKED_NAMES[1])]
  }

  lemma {:induction false} RowsOnlyGrow(rows: seq<Dbf.Row>, k: nat, geoid: string)
    requires k <= |rows|
    ensures RowsOf(rows[..k], geoid) <= RowsOf(rows, geoid)
    decreases |rows|
  {
    if k < |rows| {
      RowsOnlyGrow(rows[..|rows| - 1], k, geoid);
      assert rows[..|rows| - 1][..k] == rows[..k];
    } else {
      assert rows[..k] == rows;
    }
  }

  lemma OneMoreRow(rows: seq<Dbf.Row>, i: nat, geoid: string)
    requires i < |rows|
    ensures RowsOf(rows[..i + 1], geoid) ==
      RowsOf(rows[..i], geoid) + if RecordGeoid(rows[i]) == Some(geoid) then [i] else []
    ensures |RowsOf(rows[..i + 1], geoid)| <= |RowsOf(rows, geoid)|
  {
    assert rows[..i + 1][..i] == rows[..i];
    RowsOnlyGrow(rows, i + 1, geoid);
  }

  /** `selected` holds the one row met so far of each county met. */
  predicate Tracks(selected: map<string, Choice>, rows: seq<Dbf.Row>, geoid: string)
    requires geoid in LOCKED_GEOIDS
  {
    var met := RowsOf(rows, geoid);
    if geoid in selected
    then |met| == 1 && selected[geoid] == Choice(met[0], geoid, RecordName(rows[met[0]], geoid))
    else met == []
  }

  /** One more row for one county: seen twice it spoils the table, otherwise the choice is noted or left. */
  lemma OneMoreTracked(selected: map<string, Choice>, rows: seq<Dbf.Row>, i: nat, geoid: string, other: string,
      c: Choice)
    requires i < |rows| && geoid in LOCKED_GEOIDS && other != geoid && Tracks(selected, rows[..i], geoid)
    ensures var hit := RecordGeoid(rows[i]) == Some(geoid);
      && (hit && geoid in selected ==> |RowsOf(rows, geoid)| > 1)
      && (hit && geoid !in selected ==>
            Tracks(selected[geoid := Choice(i, geoid, RecordName(rows[i], geoid))], rows[..i + 1], geoid))
      && (!hit ==> Tracks(selected, rows[..i + 1], geoid) && Tracks(selected[other := c], rows[..i + 1], geoid))
  {
    hide RecordName, RecordGeoid, RowsOf;
    OneMoreRow(rows, i, geoid);
    var met := RowsOf(rows[..i], geoid);
    assert met != [] ==> rows[..i][met[0]] == rows[..i + 1][met[0]];
  }

  method SelectLockedRows(rows: seq<Dbf.Row>) returns (ordered: Option<seq<Choice>>)
    ensures ordered == if Selectable(rows) then Some(Selection(rows)) else None
  {
    hide RecordName, RecordGeoid, RowsOf, Tracks;
    var selected: map<string, Choice> := map[];
    NothingTracked(rows);
    for i := 0 to |rows|
      invariant Tracks(selected, rows[..i], ERIE) && Tracks(selected, rows[..i], NIAGARA)
    {
      var geoid := RecordGeoid(rows[i]);
      var choice := if geoid.Some? && geoid.value in LOCKED_GEOIDS
        then Choice(i, geoid.value, RecordName(rows[i], geoid.value)) else Choice(i, "", "");
      OneMoreTracked(selected, rows, i, ERIE, NIAGARA, choice);
      OneMoreTracked(selected, rows, i, NIAGARA, ERIE, choice);
      if geoid.Some? && geoid.value in LOCKED_GEOIDS {
        if geoid.value in selected {
          return None;
        }
        selected := selected[geoid.value := choice];
      }
    }
    assert rows[..|rows|] == rows;
    ordered := Ordered(rows, selected);
  }

  lemma NothingTracked(rows: seq<Dbf.Row>)
    ensures Tracks(map[], rows[..0], ERIE) && Tracks(map[], rows[..0], NIAGARA)
  {}

  /** Both counties must have been met, and under their own names. */
  function Ordered(rows: seq<Dbf.Row>, selected: map<string, Choice>): (r: Option<seq<Choice>>)
    requires Tracks(selected, rows, ERIE) && Tracks(selected, rows, NIAGARA)
    ensures r == if Selectable(rows) then Some(Selection(rows)) else None
  {
    if ERIE !in selected || NIAGARA !in selected then None
    else if [selected[ERIE].name, selected[NIAGARA].name] != LOCKED_NAMES then None
    else Some([selected[ERIE], selected[NIAGARA]])
  }

  /** A row is selected exactly if it, and no other row, carries the county's identifier. */
  lemma {:induction false} RowsOfAreTheMatches(rows: seq<Dbf.Row>, geoid: string, k: nat)
    requires k < |rows|
    ensures k in RowsOf(rows, geoid) <==> RecordGeoid(rows[k]) == Some(geoid)
    decreases |rows|
  {
    hide RecordGeoid;
    var n := |rows| - 1;
    if k == n {
    } else {
      RowsOfAreTheMatches(rows[..n], geoid, k);
    }
  }

  /** A row of the county, by its full identifier or by the codes of state and county. */
  predicate CarriesCounty(row: Dbf.Row, state: string, county: string) {
    Cell(row, "GEOID") == state + county
    || (Cell(row, "GEOID") == "" && Cell(row, "STATEFP") == state && Cell(row, "COUNTYFP") == county)
  }

  /** Its long name, else its short one, is the county's, with or without the word County; or it has none. */
  predicate NamedFor(row: Dbf.Row, name: string) {
    var text := if Cell(row, "NAMELSAD") != "" then Cell(row, "NAMELSAD") else Cell(row, "NAME");
    text in {"", name, name + " County"}
  }

  /** The word is added where it is missing, and only there. */
  lemma CountyNames(name: string)
    ensures CountyName(name + " County") == name + " County"
    ensures CountyName(name) == if exists front :: name == front + " County" then name else name + " County"
  {
    var suffix := " County";
    assert (name + suffix)[|name|..] == suffix;
    if |name| >= |suffix| && name[|name| - |suffix|..] == suffix {
      assert name == name[..|name| - |suffix|] + suffix;
    }
    if front :| name == front + " County" {
      assert name[|front|..] == suffix;
    }
  }

  lemma ShortNames(name: string)
    requires name in {"Erie", "Niagara"}
    ensures CountyName(name) == name + " County"
  {
    assert "Niagara"[7 - 7..] == "Niagara";
  }

  lemma RowIsNamed(row: Dbf.Row, name: string, geoid: string)
    requires geoid in LOCKED_GEOIDS && NamedFor(row, name) && CountyName(name) == name + " County"
    requires geoid == ERIE ==> LOCKED_NAMES[0] == name + " County"
    requires geoid == NIAGARA ==> LOCKED_NAMES[1] == name + " County"
    ensures RecordName(row, geoid) == name + " County"
  {
    hide CountyName;
    CountyNames(name);
  }

  lemma RowIsIdentified(row: Dbf.Row, state: string, county: string)
    requires CarriesCounty(row, state, county) && state != "" && county != ""
    ensures RecordGeoid(row) == Some(state + county)
  {}

  lemma {:induction false} OneMatch(rows: seq<Dbf.Row>, geoid: string, e: nat)
    requires forall k :: 0 <= k < |rows| ==> (RecordGeoid(rows[k]) == Some(geoid) <==> k == e)
    ensures RowsOf(rows, geoid) == if e < |rows| then [e] else []
  {
    hide RecordGeoid;
    if rows == [] {
    } else {
      OneMatch(rows[..|rows| - 1], geoid, e);
    }
  }

  /** A table with one well-named row for each county, in any order and among any other rows, is selected from. */
  lemma CountiesAreSelected(rows: seq<Dbf.Row>, e: nat, n: nat)
    requires e < |rows| && n < |rows| && e != n
    requires CarriesCounty(rows[e], "36", "029") && NamedFor(rows[e], "Erie")
    requires CarriesCounty(rows[n], "36", "063") && NamedFor(rows[n], "Niagara")
    requires forall k :: 0 <= k < |rows| && k != e && k != n ==> RecordGeoid(rows[k]) !in {Some(ERIE), Some(NIAGARA)}
    ensures Selectable(rows)
    ensures Selection(rows) == [Choice(e, "36029", "Erie County"), Choice(n, "36063", "Niagara County")]
  {
    hide RecordGeoid, RecordName, RowsOf, CarriesCounty, NamedFor;
    assert "36" + "029" == ERIE && "36" + "063" == NIAGARA;
    assert "Erie" + " County" == LOCKED_NAMES[0] && "Niagara" + " County" == LOCKED_NAMES[1];
    RowIsIdentified(rows[e], "36", "029");
    RowIsIdentified(rows[n], "36", "063");
    ShortNames("Erie");
    ShortNames("Niagara");
    RowIsNamed(rows[e], "Erie", ERIE);
    RowIsNamed(rows[n], "Niagara", NIAGARA);
    OneMatch(rows, ERIE, e);
    OneMatch(rows, NIAGARA, n);
  }

  // ---------- one feature

  datatype Feature = Feature(geoid: string, name: string, geometry: Geometry, bbox: Option<Box>)

  predicate AllClosable(rings: seq<Ring>) {
    forall ring <- rings :: Closable(ring)
  }

  predicate RecordUsable(content: Data, dbl: Decoder) {
    RecordHolds(content) && AllClosable(RingsOf(content, dbl))
  }

  lemma UsableRecordHasGeometry(content: Data, dbl: Decoder)
    requires RecordUsable(content, dbl)
    ensures var rings := RingsOf(content, dbl);
      AsGeometry(Grouped(rings)).Some? && Joined(rings) == Points(content, dbl) && Joined(rings) != []
  {
    RingsAreConserved(RingsOf(content, dbl));
    RingsJoinToThePoints(content, dbl);
  }

  function GeometryOf(content: Data, dbl: Decoder): (Geometry, Box)
    requires RecordUsable(content, dbl)
  {
    UsableRecordHasGeometry(content, dbl);
    var rings := RingsOf(content, dbl);
    (AsGeometry(Grouped(rings)).value, BoxOf(Joined(rings)))
  }

  method ParsePolygonContent(content: Data, dbl: Decoder) returns (parsed: Option<(Geometry, Box)>)
    ensures parsed == if RecordUsable(content, dbl) then Some(GeometryOf(content, dbl)) else None
  {
    hide RecordHolds, RingsOf, Closable, Grouped, BoxOf, AsGeometry, Joined;
    var rings := ParseRings(content, dbl);
    if rings.None? {
      return None;
    }
    var geometry := RingsToGeometry(rings.value);
    if geometry.None? {
      if RecordUsable(content, dbl) {
        UsableRecordHasGeometry(content, dbl);
      }
      return None;
    }
    assert RecordUsable(content, dbl) by {
      RingsOrNothing(rings.value);
    }
    UsableRecordHasGeometry(content, dbl);
    parsed := Some((geometry.value, BoxOf(Joined(rings.value))));
  }

  lemma RingsOrNothing(rings: seq<Ring>)
    ensures AllClosable(rings) <==> forall ring <- rings :: Closable(ring)
  {}

  // ---------- the extraction

  /** Where the records start: from the index if there is one, otherwise by scanning. */
  function Offsets(shp: Data, shx: Option<Data>, count: nat): (r: Option<seq<int>>)
    ensures r.Some? ==> |r.value| == count
  {
    if shx.Some? && shx.value != [] then
      if Shp.ShxHolds(shx.value, count)
      then Some(seq(count, i requires 0 <= i < count => BigI32(shx.value, Shp.HEADER_SIZE + i * 8) * 2))
      else None
    else Shp.Scan(shp, count)
  }

  function ExtractOne(shp: Data, offset: int, choice: Choice, dbl: Decoder): Option<Feature> {
    var content :- Shp.ReadRecord(shp, offset, choice.index + 1);
    if RecordUsable(content, dbl) then
      var (geometry, box) := GeometryOf(content, dbl);
      Some(Feature(choice.geoid, choice.name, geometry, Some(box)))
    else None
  }

  predicate Listed(chosen: seq<Choice>, offsets: seq<int>) {
    forall k :: 0 <= k < |chosen| ==> chosen[k].index < |offsets|
  }

  function ExtractAll(shp: Data, offsets: seq<int>, chosen: seq<Choice>, dbl: Decoder): Option<seq<Feature>>
    requires Listed(chosen, offsets)
  {
    if chosen == [] then Some([])
    else
      var first :- ExtractOne(shp, offsets[chosen[0].index], chosen[0], dbl);
      var rest :- ExtractAll(shp, offsets, chosen[1..], dbl);
      Some([first] + rest)
  }

  method ExtractChosen(shp: Data, offsets: seq<int>, chosen: seq<Choice>, dbl: Decoder)
      returns (features: Option<seq<Feature>>)
    requires Listed(chosen, offsets)
    ensures features == ExtractAll(shp, offsets, chosen, dbl)
  {
    hide RecordUsable, GeometryOf, Shp.ReadRecord;
    var found: seq<Feature> := [];
    ghost var all := ExtractAll(shp, offsets, chosen, dbl);
    LoopStarts(all);
    assert chosen[0..] == chosen;
    for k := 0 to |chosen|
      invariant GoesOn(all, found, ExtractAll(shp, offsets, chosen[k..], dbl))
    {
      var choice, rest := chosen[k], chosen[k + 1..];
      assert chosen[k..][0] == choice && chosen[k..][1..] == rest;
      var content := Shp.ReadRecord(shp, offsets[choice.index], choice.index + 1);
      if content.None? {
        return None;
      }
      var parsed := ParsePolygonContent(content.value, dbl);
      if parsed.None? {
        return None;
      }
      var feature := Feature(choice.geoid, choice.name, parsed.value.0, Some(parsed.value.1));
      LoopSteps(all, found, feature, ExtractAll(shp, offsets, rest, dbl));
      found := found + [feature];
    }
    LoopEnds(all, found);
    features := Some(found);
  }

  function Extraction(shp: Data, dbf: Data, shx: Option<Data>, dbl: Decoder): Option<seq<Feature>> {
    var _ :- Require(Shp.ParseShpHeader(shp).Some?);
    var rows :- Dbf.ReadTable(dbf);
    var _ :- Require(Selectable(rows));
    var offsets :- Offsets(shp, shx, |rows|);
    ExtractAll(shp, offsets, Selection(rows), dbl)
  }

  method ExtractLockedFeatures(shp: Data, dbf: Data, shx: Option<Data>, dbl: Decoder)
      returns (features: Option<seq<Feature>>)
    ensures features == Extraction(shp, dbf, shx, dbl)
  {
    hide Dbf.ReadTable, Shp.ParseShpHeader, Shp.Scan, ExtractAll, RowsOf, RecordName, Offsets, Selectable;
    if Shp.ParseShpHeader(shp).None? {
      return None;
    }
    var rows := Dbf.ParseDbfRecords(dbf);
    if rows.None? {
      return None;
    }
    var selected := SelectLockedRows(rows.value);
    if selected.None? {
      return None;
    }
    var offsets := FindOffsets(shp, shx, |rows.value|);
    if offsets.None? {
      return None;
    }
    features := ExtractChosen(shp, offsets.value, selected.value, dbl);
  }

  method FindOffsets(shp: Data, shx: Option<Data>, count: nat) returns (offsets: Option<seq<int>>)
    ensures offsets == Offsets(shp, shx, count)
  {
    hide Shp.Scan, Shp.ShxHolds, BigI32;
    if shx.Some? && shx.value != [] {
      offsets := Shp.ParseShxOffsets(shx.value, count);
      assert offsets.Some? ==> offsets.value == Offsets(shp, shx, count).value;
    } else {
      offsets := Shp.ScanShpOffsets(shp, count);
    }
  }
}
