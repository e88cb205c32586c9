/** The SHP and SHX members of a shapefile: header, records, and the two ways to find where a record starts. */
module Shp {
  import opened Wrappers
  import opened Bytes
  import opened Binary

  const FILE_CODE := 9994
  const VERSION := 1000
  const POLYGON_TYPES: set<int> := {5, 15, 25}
  const NULL_SHAPE := 0
  const HEADER_SIZE := 100

  // ---------- reading

  predicate HeaderHolds(data: Data) {
    && Within(data, 0, HEADER_SIZE)
    && BigI32(data, 0) == FILE_CODE && I32(data, 28) == VERSION && BigI32(data, 24) * 2 == |data|
  }

  function ParseShpHeader(data: Data): Option<int> {
    if HeaderHolds(data) && I32(data, 32) in POLYGON_TYPES + {NULL_SHAPE} then Some(I32(data, 32)) else None
  }

  /** Walking the records: each says how long it is, in 16-bit words, and the last one ends the file. */
  function ScanFrom(shp: Data, cursor: int, left: nat): (r: Option<seq<int>>)
    ensures r.Some? ==> |r.value| == left
    decreases left
  {
    if left == 0 then
      if cursor == |shp| then Some([]) else None
    else
      var _ :- Require(Within(shp, cursor, 8));
      var rest :- ScanFrom(shp, cursor + 8 + BigI32(shp, cursor + 4) * 2, left - 1);
      Some([cursor] + rest)
  }

  function Scan(shp: Data, count: nat): (r: Option<seq<int>>)
    ensures r.Some? ==> |r.value| == count
  {
    var _ :- Require(ParseShpHeader(shp).Some?);
    ScanFrom(shp, HEADER_SIZE, count)
  }

  method ScanShpOffsets(shp: Data, count: nat) returns (offsets: Option<seq<int>>)
    ensures offsets == Scan(shp, count)
  {
    hide FromBig;
    if ParseShpHeader(shp).None? {
      return None;
    }
    var found: seq<int>, cursor := [], HEADER_SIZE;
    ghost var all := ScanFrom(shp, HEADER_SIZE, count);
    LoopStarts(all);
    for i := 0 to count
      invariant GoesOn(all, found, ScanFrom(shp, cursor, count - i))
    {
      if !Within(shp, cursor, 8) {
        return None;
      }
      var next := cursor + 8 + BigI32(shp, cursor + 4) * 2;
      LoopSteps(all, found, cursor, ScanFrom(shp, next, count - i - 1));
      found, cursor := found + [cursor], next;
    }
    if cursor != |shp| {
      return None;
    }
    LoopEnds(all, found);
    return Some(found);
  }

  /** The index has one offset for each record of the attribute table. */
  predicate ShxHolds(data: Data, count: nat) {
    HeaderHolds(data) && (|data| - HEADER_SIZE) / 8 == count
  }

  method ParseShxOffsets(data: Data, count: nat) returns (offsets: Option<seq<int>>)
    ensures offsets.Some? <==> ShxHolds(data, count)
    ensures offsets.Some? ==>
      && |offsets.value| == count
      && forall i :: 0 <= i < count ==> offsets.value[i] == BigI32(data, HEADER_SIZE + i * 8) * 2
  {
    if !HeaderHolds(data) || (|data| - HEADER_SIZE) / 8 != count {
      return None;
    }
    var found: seq<int> := [];
    for i := 0 to count
      invariant |found| == i
      invariant forall k :: 0 <= k < i ==> found[k] == BigI32(data, HEADER_SIZE + k * 8) * 2
    {
      found := found + [BigI32(data, HEADER_SIZE + i * 8) * 2];
    }
    return Some(found);
  }

  function ReadRecord(shp: Data, offset: int, number: int): Option<Data> {
    var _ :- Require(Within(shp, offset, 8) && BigI32(shp, offset) == number);
    var size := BigI32(shp, offset + 4) * 2;
    var _ :- Require(Within(shp, offset + 8, size));
    Some(shp[offset + 8..offset + 8 + size])
  }

  // ---------- printing

  datatype Header = Header(unused: Data, shapeType: nat, box: Data)

  predicate GoodHeader(h: Header) {
    |h.unused| == 20 && |h.box| == 64 && h.shapeType in POLYGON_TYPES + {NULL_SHAPE}
  }

  function PrintHeader(h: Header, size: nat): (s: Data)
    requires GoodHeader(h)
    ensures |s| == HEADER_SIZE
  {
    ToBig(FILE_CODE, 4) + h.unused + ToBig(size / 2, 4) + ToLittle(VERSION, 4) + ToLittle(h.shapeType, 4) + h.box
  }

  function PrintRecord(number: nat, content: Data): (s: Data)
    ensures |s| == 8 + |content|
  {
    ToBig(number, 4) + ToBig(|content| / 2, 4) + content
  }

  function PrintRecords(contents: seq<Data>, number: nat): (s: Data)
    ensures |s| >= 8 * |contents|
  {
    if contents == [] then [] else PrintRecord(number, contents[0]) + PrintRecords(contents[1..], number + 1)
  }

  /** Where the records lie when the first is at `start`. */
  function OffsetsFrom(contents: seq<Data>, start: nat): (s: seq<int>)
    ensures |s| == |contents|
  {
    if contents == [] then [] else [start] + OffsetsFrom(contents[1..], start + 8 + |contents[0]|)
  }

  predicate Even(contents: seq<Data>) {
    forall c <- contents :: |c| % 2 == 0
  }

  function WithHeader(h: Header, body: Data): (s: Data)
    requires GoodHeader(h)
    ensures |s| == HEADER_SIZE + |body| && s[HEADER_SIZE..] == body
  {
    PrintHeader(h, HEADER_SIZE + |body|) + body
  }

  function PrintShp(h: Header, contents: seq<Data>): (s: Data)
    requires GoodHeader(h)
  {
    WithHeader(h, PrintRecords(contents, 1))
  }

  function PrintEntries(contents: seq<Data>, start: nat): (s: Data)
    ensures |s| == 8 * |contents|
  {
    if contents == [] then []
    else ToBig(start / 2, 4) + ToBig(|contents[0]| / 2, 4) + PrintEntries(contents[1..], start + 8 + |contents[0]|)
  }

  function PrintShx(h: Header, contents: seq<Data>): Data
    requires GoodHeader(h)
  {
    WithHeader(h, PrintEntries(contents, HEADER_SIZE))
  }

  /** The format's own limit: lengths are signed 32-bit counts of 16-bit words. */
  predicate Printable(h: Header, contents: seq<Data>) {
    GoodHeader(h) && Even(contents) && |PrintShp(h, contents)| < 2 * LIMIT_32
  }

  // ---------- the parser inverts the printer

  lemma {:induction false} RecordsAreEven(contents: seq<Data>, number: nat)
    requires Even(contents)
    ensures |PrintRecords(contents, number)| % 2 == 0
  {
    hide ToBig, PrintRecord;
    if contents == [] {
    } else {
      assert contents[0] in contents;
      RecordsAreEven(contents[1..], number + 1);
    }
  }

  lemma HeaderReadsBack(h: Header, body: Data)
    requires GoodHeader(h) && |body| % 2 == 0 && HEADER_SIZE + |body| < 2 * LIMIT_32
    ensures HeaderHolds(WithHeader(h, body)) && ParseShpHeader(WithHeader(h, body)) == Some(h.shapeType)
  {
    hide ToBig, ToLittle, FromBig, FromLittle, Pow256;
    var size := HEADER_SIZE + |body|;
    var data := PrintHeader(h, size) + body;
    assert At(data, 0, ToBig(FILE_CODE, 4)) && At(data, 24, ToBig(size / 2, 4));
    assert At(data, 28, ToLittle(VERSION, 4)) && At(data, 32, ToLittle(h.shapeType, 4));
    ReadsAt(data, 0, FILE_CODE);
    ReadsAt(data, 24, size / 2);
    ReadsAt(data, 28, VERSION);
    ReadsAt(data, 32, h.shapeType);
  }

  /** One printed record, wherever it lies. */
  lemma RecordReadsBack(shp: Data, offset: nat, number: nat, content: Data)
    requires At(shp, offset, PrintRecord(number, content))
    requires number < LIMIT_32 && |content| < 2 * LIMIT_32 && |content| % 2 == 0
    ensures ReadRecord(shp, offset, number) == Some(content) && BigI32(shp, offset + 4) * 2 == |content|
  {
    hide ToBig, ToLittle, FromBig, FromLittle, Pow256;
    var piece := PrintRecord(number, content);
    assert At(piece, 0, ToBig(number, 4)) && At(piece, 4, ToBig(|content| / 2, 4)) && At(piece, 8, content);
    InnerIsAt(shp, offset, piece, 0, ToBig(number, 4));
    InnerIsAt(shp, offset, piece, 4, ToBig(|content| / 2, 4));
    InnerIsAt(shp, offset, piece, 8, content);
    ReadsAt(shp, offset, number);
    ReadsAt(shp, offset + 4, |content| / 2);
  }

  /** The rest of the file is these records. */
  predicate Remain(shp: Data, cursor: nat, contents: seq<Data>, number: nat) {
    && cursor <= |shp| < 2 * LIMIT_32 && shp[cursor..] == PrintRecords(contents, number)
    && Even(contents) && number + |contents| <= LIMIT_32
  }

  lemma FirstRecord(shp: Data, cursor: nat, contents: seq<Data>, number: nat)
    requires contents != [] && Remain(shp, cursor, contents, number)
    ensures ReadRecord(shp, cursor, number) == Some(contents[0]) && BigI32(shp, cursor + 4) * 2 == |contents[0]|
    ensures cursor + 8 <= |shp| && Remain(shp, cursor + 8 + |contents[0]|, contents[1..], number + 1)
  {
    hide PrintRecord, ReadRecord, BigI32;
    assert contents[0] in contents;
    NextPiece(shp, cursor, PrintRecord(number, contents[0]), PrintRecords(contents[1..], number + 1));
    RecordReadsBack(shp, cursor, number, contents[0]);
  }

  lemma NothingRemains(shp: Data, cursor: nat, number: nat)
    requires Remain(shp, cursor, [], number)
    ensures cursor == |shp|
  {
    assert shp[cursor..] == [];
  }

  /** Records up to the end of the file are scanned one after the other; any other record count is refused. */
  lemma {:induction false} RecordsAreScanned(shp: Data, cursor: nat, contents: seq<Data>, number: nat, count: nat)
    requires Remain(shp, cursor, contents, number)
    ensures ScanFrom(shp, cursor, count) == if count == |contents| then Some(OffsetsFrom(contents, cursor)) else None
    decreases |contents|
  {
    hide BigI32, ReadRecord, Remain;
    if contents == [] {
      NothingRemains(shp, cursor, number);
    } else {
      FirstRecord(shp, cursor, contents, number);
      if count == 0 {
      } else {
        RecordsAreScanned(shp, cursor + 8 + |contents[0]|, contents[1..], number + 1, count - 1);
      }
    }
  }

  lemma {:induction false} RecordIsRead(shp: Data, cursor: nat, contents: seq<Data>, number: nat, i: nat)
    requires Remain(shp, cursor, contents, number) && i < |contents|
    ensures ReadRecord(shp, OffsetsFrom(contents, cursor)[i], number + i) == Some(contents[i])
    decreases i
  {
    hide ReadRecord, PrintRecords, BigI32;
    FirstRecord(shp, cursor, contents, number);
    if i == 0 {
    } else {
      RecordIsRead(shp, cursor + 8 + |contents[0]|, contents[1..], number + 1, i - 1);
    }
  }

  lemma PrintedRecordsRemain(h: Header, contents: seq<Data>)
    requires Printable(h, contents)
    ensures Remain(PrintShp(h, contents), HEADER_SIZE, contents, 1)
      && ParseShpHeader(PrintShp(h, contents)) == Some(h.shapeType)
  {
    hide WithHeader, PrintRecords, HeaderHolds, ParseShpHeader;
    RecordsAreEven(contents, 1);
    HeaderReadsBack(h, PrintRecords(contents, 1));
  }

  /** Scanning a printed file finds each record's place, record i + 1 holds content i, and the count must fit. */
  lemma ShpReadsBack(h: Header, contents: seq<Data>, count: nat)
    requires Printable(h, contents)
    ensures var shp := PrintShp(h, contents); var offsets := OffsetsFrom(contents, HEADER_SIZE);
      && ParseShpHeader(shp) == Some(h.shapeType)
      && Scan(shp, count) == (if count == |contents| then Some(offsets) else None)
      && forall i :: 0 <= i < |contents| ==> ReadRecord(shp, offsets[i], i + 1) == Some(contents[i])
  {
    hide PrintShp, ReadRecord, ScanFrom, OffsetsFrom, ParseShpHeader, Remain;
    PrintedRecordsRemain(h, contents);
    RecordsAreScanned(PrintShp(h, contents), HEADER_SIZE, contents, 1, count);
    forall i | 0 <= i < |contents|
      ensures ReadRecord(PrintShp(h, contents), OffsetsFrom(contents, HEADER_SIZE)[i], i + 1) == Some(contents[i])
    {
      RecordIsRead(PrintShp(h, contents), HEADER_SIZE, contents, 1, i);
    }
  }

  lemma {:induction false} OffsetIsInside(contents: seq<Data>, start: nat, i: nat)
    requires Even(contents) && start % 2 == 0 && i < |contents|
    ensures var offset := OffsetsFrom(contents, start)[i];
      offset % 2 == 0 && start <= offset && offset + 8 <= start + |PrintRecords(contents, 1)|
    decreases i
  {
    hide PrintRecord;
    RecordsNumberFreely(contents[1..], 2, 1);
    assert contents[0] in contents;
    if i == 0 {
    } else {
      OffsetIsInside(contents[1..], start + 8 + |contents[0]|, i - 1);
    }
  }

  lemma {:induction false} EntryAt(contents: seq<Data>, start: nat, i: nat)
    requires i < |contents| && OffsetsFrom(contents, start)[i] >= 0
    ensures At(PrintEntries(contents, start), 8 * i, ToBig(OffsetsFrom(contents, start)[i] / 2, 4))
    decreases i
  {
    hide ToBig;
    var piece, offset := PrintEntries(contents, start), OffsetsFrom(contents, start)[i];
    if i == 0 {
      assert At(piece, 0, ToBig(start / 2, 4));
    } else {
      EntryAt(contents[1..], start + 8 + |contents[0]|, i - 1);
      var rest := PrintEntries(contents[1..], start + 8 + |contents[0]|);
      assert At(piece, 8, rest);
      assert 8 * (i - 1) + 8 == 8 * i;
      InnerIsAt(piece, 8, rest, 8 * (i - 1), ToBig(offset / 2, 4));
    }
  }

  lemma RecordsNumberFreely(contents: seq<Data>, m: nat, n: nat)
    ensures |PrintRecords(contents, m)| == |PrintRecords(contents, n)|
  {
    hide ToBig, ToLittle, FromBig, FromLittle, Pow256;
    if contents == [] {
    } else {
      RecordsNumberFreely(contents[1..], m + 1, n + 1);
    }
  }

  lemma ShxHeaderReadsBack(h: Header, contents: seq<Data>)
    requires GoodHeader(h) && HEADER_SIZE + 8 * |contents| < 2 * LIMIT_32
    ensures ShxHolds(PrintShx(h, contents), |contents|)
  {
    hide WithHeader, PrintEntries, HeaderHolds, ParseShpHeader;
    HeaderReadsBack(h, PrintEntries(contents, HEADER_SIZE));
  }

  lemma ShxEntryReadsBack(h: Header, contents: seq<Data>, i: nat)
    requires Printable(h, contents) && i < |contents|
    ensures var shx := PrintShx(h, contents);
      && HEADER_SIZE + i * 8 + 4 <= |shx|
      && BigI32(shx, HEADER_SIZE + i * 8) * 2 == OffsetsFrom(contents, HEADER_SIZE)[i]
  {
    hide WithHeader, PrintEntries, PrintRecords, OffsetsFrom, ToBig, FromBig, BigI32;
    var shx, entries := PrintShx(h, contents), PrintEntries(contents, HEADER_SIZE);
    var offset := OffsetsFrom(contents, HEADER_SIZE)[i];
    OffsetIsInside(contents, HEADER_SIZE, i);
    EntryAt(contents, HEADER_SIZE, i);
    assert At(shx, HEADER_SIZE, entries);
    InnerIsAt(shx, HEADER_SIZE, entries, 8 * i, ToBig(offset / 2, 4));
    ReadsAt(shx, HEADER_SIZE + 8 * i, offset / 2);
  }

  /** The index printed beside a file names the places a scan of the file would find. */
  lemma ShxReadsBack(h: Header, contents: seq<Data>)
    requires Printable(h, contents)
    ensures var shx, offsets := PrintShx(h, contents), OffsetsFrom(contents, HEADER_SIZE);
      && ShxHolds(shx, |contents|)
      && forall i :: 0 <= i < |contents| ==> BigI32(shx, HEADER_SIZE + i * 8) * 2 == offsets[i]
  {
    hide PrintHeader, PrintRecords, PrintEntries, OffsetsFrom, PrintShx, ToBig, BigI32;
    assert 8 * |contents| <= |PrintRecords(contents, 1)|;
    ShxHeaderReadsBack(h, contents);
    forall i | 0 <= i < |contents|
      ensures BigI32(PrintShx(h, contents), HEADER_SIZE + i * 8) * 2 == OffsetsFrom(contents, HEADER_SIZE)[i]
    {
      ShxEntryReadsBack(h, contents, i);
    }
  }

  /** Both ways to find the records agree on every printed pair of files. */
  method IndexAgreesWithScan(h: Header, contents: seq<Data>)
      returns (scanned: Option<seq<int>>, indexed: Option<seq<int>>)
    requires Printable(h, contents)
    ensures scanned == indexed == Some(OffsetsFrom(contents, HEADER_SIZE))
  {
    hide PrintShp, PrintShx, OffsetsFrom, BigI32, ReadRecord;
    ShpReadsBack(h, contents, |contents|);
    ShxReadsBack(h, contents);
    scanned := ScanShpOffsets(PrintShp(h, contents), |contents|);
    indexed := ParseShxOffsets(PrintShx(h, contents), |contents|);
    assert indexed.value == OffsetsFrom(contents, HEADER_SIZE);
  }

  // ---------- the printer inverts the parser

  predicate ReadsAs(shp: Data, offsets: seq<int>, number: int, contents: seq<Data>) {
    |offsets| == |contents| && forall i :: 0 <= i < |contents| ==>
      ReadRecord(shp, offsets[i], number + i) == Some(contents[i])
  }

  /** A record that can be read is its own printed form. */
  lemma RecordPrintsBack(shp: Data, offset: nat, number: nat, content: Data)
    requires ReadRecord(shp, offset, number) == Some(content)
    ensures At(shp, offset, PrintRecord(number, content)) && BigI32(shp, offset + 4) * 2 == |content|
  {
    hide ToBig, FromBig, Pow256;
    PositivePrintsBack(shp, offset);
    PositivePrintsBack(shp, offset + 4);
    var next := offset + 8 + |content|;
    assert shp[offset..next] == shp[offset..offset + 4] + shp[offset + 4..offset + 8] + shp[offset + 8..next];
  }

  lemma PositivePrintsBack(data: Data, offset: nat)
    requires Within(data, offset, 4) && BigI32(data, offset) >= 0
    ensures ToBig(BigI32(data, offset), 4) == data[offset..offset + 4]
  {
    hide ToBig, ToLittle, FromBig, FromLittle, Pow256;
    BigPrintsBack(data[offset..offset + 4]);
  }

  /**
    A file that is scanned and whose records can all be read is exactly those records: nothing lies between them, they
    do not overlap, and each is as long as it says.
  */
  lemma {:induction false} ScannedRecordsTileTheFile(shp: Data, cursor: nat, number: nat, contents: seq<Data>)
    requires cursor <= |shp|
    requires ScanFrom(shp, cursor, |contents|).Some?
      && ReadsAs(shp, ScanFrom(shp, cursor, |contents|).value, number, contents)
    ensures shp[cursor..] == PrintRecords(contents, number)
    decreases |contents|
  {
    hide PrintRecord, ReadRecord, BigI32;
    if contents == [] {
    } else {
      var offsets := ScanFrom(shp, cursor, |contents|).value;
      var next, rest := cursor + 8 + |contents[0]|, contents[1..];
      assert ReadRecord(shp, offsets[0], number) == Some(contents[0]);
      RecordPrintsBack(shp, cursor, number, contents[0]);
      forall i | 0 <= i < |rest| ensures ReadRecord(shp, offsets[1..][i], number + 1 + i) == Some(rest[i]) {
        assert contents[i + 1] == rest[i];
      }
      ScannedRecordsTileTheFile(shp, next, number + 1, rest);
      assert shp[cursor..] == shp[cursor..next] + shp[next..];
    }
  }

  /** What the format lets one write: contents of even size, and record numbers and sizes that fit. */
  predicate WithinLimits(shp: Data, contents: seq<Data>, number: nat) {
    |shp| < 2 * LIMIT_32 && Even(contents) && number + |contents| <= LIMIT_32
  }

  /** Exactly then: a file is its records if and only if it scans and every record that is found can be read as one. */
  lemma FileIsItsRecordsExactlyIfReadable(shp: Data, cursor: nat, number: nat, contents: seq<Data>)
    requires cursor <= |shp| && WithinLimits(shp, contents, number)
    ensures var scanned := ScanFrom(shp, cursor, |contents|);
      scanned.Some? && ReadsAs(shp, scanned.value, number, contents) <==>
        shp[cursor..] == PrintRecords(contents, number)
  {
    hide ScanFrom, ReadRecord, PrintRecords, OffsetsFrom;
    var scanned := ScanFrom(shp, cursor, |contents|);
    if scanned.Some? && ReadsAs(shp, scanned.value, number, contents) {
      ScannedRecordsTileTheFile(shp, cursor, number, contents);
    }
    if shp[cursor..] == PrintRecords(contents, number) {
      RecordsAreScanned(shp, cursor, contents, number, |contents|);
      forall i | 0 <= i < |contents| ensures ReadRecord(shp, scanned.value[i], number + i) == Some(contents[i]) {
        RecordIsRead(shp, cursor, contents, number, i);
      }
    }
  }

  // ---------- what an accepted header says

  lemma BigIsPrinted(data: Data, offset: nat, n: nat)
    requires Within(data, offset, 4) && BigI32(data, offset) == n
    ensures At(data, offset, ToBig(n, 4))
  {
    Pow256Values();
    BigPrintsBack(data[offset..offset + 4]);
  }

  /** An accepted file begins with the printed file code, says its own length, and then version and shape type. */
  lemma AcceptedHeaderMeans(shp: Data)
    requires ParseShpHeader(shp).Some?
    ensures |shp| >= 100 && |shp| % 2 == 0 && At(shp, 0, [0x00, 0x00, 0x27, 0x0A]) && At(shp, 24, ToBig(|shp| / 2, 4))
    ensures I32(shp, 28) == 1000 && I32(shp, 32) == ParseShpHeader(shp).value
    ensures ParseShpHeader(shp).value in {0, 5, 15, 25}
  {
    hide ToBig, BigI32, I32;
    BigIsPrinted(shp, 0, FILE_CODE);
    BigIsPrinted(shp, 24, |shp| / 2);
    FileCodeBytes();
  }

  lemma FileCodeBytes()
    ensures ToBig(FILE_CODE, 4) == [0x00, 0x00, 0x27, 0x0A]
  {
    assert ToBig(9994 / 256, 3) == [0x00, 0x00, 0x27] by {
      assert ToBig(39 / 256, 2) == [0x00, 0x00];
    }
  }

  // ---------- a scan that goes back

  /** Twenty-four bytes: record 1 with a second record header inside it, and a third header that points back. */
  function BackwardRecords(): (s: Data)
    ensures |s| == 24
  {
    ToBig(1, 4) + ToBig(4, 4) + (ToBig(3, 4) + ToBig(4, 4)) + (ToBig(2, 4) + [0xFF, 0xFF, 0xFF, 0xF8])
  }

  lemma MinusEight(data: Data, offset: nat)
    requires At(data, offset, [0xFF, 0xFF, 0xFF, 0xF8])
    ensures BigI32(data, offset) == -8
  {
    Pow256Values();
    var s: Data := [0xFF, 0xFF, 0xFF, 0xF8];
    assert s[..3] == [0xFF, 0xFF, 0xFF] && s[..3][..2] == [0xFF, 0xFF] && s[..3][..2][..1] == [0xFF];
    assert FromBig(s[..3][..2][..1]) == 0xFF && FromBig(s[..3][..2]) == 0xFFFF && FromBig(s[..3]) == 0xFF_FFFF;
    assert FromBig(s) == 0xFFFF_FFF8;
  }

  lemma ScanStep(shp: Data, cursor: nat, left: nat)
    requires left > 0 && Within(shp, cursor, 8)
    ensures var rest := ScanFrom(shp, cursor + 8 + BigI32(shp, cursor + 4) * 2, left - 1);
      ScanFrom(shp, cursor, left) == if rest.None? then None else Some([cursor] + rest.value)
  {}

  lemma BackwardLengths(shp: Data)
    requires At(shp, HEADER_SIZE, BackwardRecords())
    ensures BigI32(shp, 104) == 4 && BigI32(shp, 112) == 4 && BigI32(shp, 120) == -8
  {
    hide ToBig, FromBig, Pow256, BigI32;
    var body := BackwardRecords();
    assert At(body, 4, ToBig(4, 4)) && At(body, 12, ToBig(4, 4)) && At(body, 20, [0xFF, 0xFF, 0xFF, 0xF8]);
    InnerIsAt(shp, HEADER_SIZE, body, 4, ToBig(4, 4));
    InnerIsAt(shp, HEADER_SIZE, body, 12, ToBig(4, 4));
    InnerIsAt(shp, HEADER_SIZE, body, 20, [0xFF, 0xFF, 0xFF, 0xF8]);
    ReadsAt(shp, 104, 4);
    ReadsAt(shp, 112, 4);
    MinusEight(shp, 120);
  }

  /** Such a file scans, in the order 100, 116, 108; but its second record has a negative size and cannot be read. */
  lemma ScanMayGoBack(h: Header)
    requires GoodHeader(h)
    ensures var shp := WithHeader(h, BackwardRecords());
      Scan(shp, 3) == Some([100, 116, 108]) && forall number :: ReadRecord(shp, 116, number) == None
  {
    hide WithHeader, BackwardRecords, ParseShpHeader, HeaderHolds, BigI32, ScanFrom;
    var shp := WithHeader(h, BackwardRecords());
    HeaderReadsBack(h, BackwardRecords());
    BackwardLengths(shp);
    ScanEnds(shp);
    ScanStep(shp, 108, 1);
    ScanStep(shp, 116, 2);
    ScanStep(shp, 100, 3);
    assert [108] + [] == [108] && [116] + [108] == [116, 108] && [100] + [116, 108] == [100, 116, 108];
  }

  lemma ScanEnds(shp: Data)
    ensures ScanFrom(shp, |shp|, 0) == Some([])
  {}
}
