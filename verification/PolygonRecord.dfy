/** The content of one polygon record: counts, part indices and points, cut into rings. */
module PolygonRecord {
  import opened Wrappers
  import opened Bytes
  import opened Binary
  import opened Rings
  import Shp

  /** How eight bytes are read as a coordinate. */
  type Decoder = Data -> real

  const PARTS_AT := 44

  // ---------- reading

  predicate CountsHold(content: Data) {
    && Within(content, 0, PARTS_AT) && I32(content, 0) in Shp.POLYGON_TYPES
    && I32(content, 36) > 0 && I32(content, 40) >= 4
    && Within(content, PARTS_AT, I32(content, 36) * 4 + I32(content, 40) * 16)
  }

  function PartCount(content: Data): nat
    requires CountsHold(content)
  {
    I32(content, 36)
  }

  function PointCount(content: Data): nat
    requires CountsHold(content)
  {
    I32(content, 40)
  }

  function Starts(content: Data): (r: seq<int>)
    requires CountsHold(content)
    ensures |r| == PartCount(content)
  {
    seq(PartCount(content), i requires 0 <= i < PartCount(content) => I32(content, PARTS_AT + 4 * i))
  }

  function PointAt(raw: Data, dbl: Decoder): Point
    requires |raw| == 16
  {
    Point(dbl(raw[..8]), dbl(raw[8..]))
  }

  function Points(content: Data, dbl: Decoder): (r: Ring)
    requires CountsHold(content)
    ensures |r| == PointCount(content)
  {
    var from := PARTS_AT + 4 * PartCount(content);
    seq(PointCount(content), i requires 0 <= i < PointCount(content) =>
      PointAt(content[from + 16 * i..from + 16 * i + 16], dbl))
  }

  /** A part ends where the next one starts, the last one at the last point. */
  function End(starts: seq<int>, n: nat, i: nat): int
    requires i < |starts|
  {
    if i + 1 < |starts| then starts[i + 1] else n
  }

  predicate PartFits(starts: seq<int>, n: nat, i: nat)
    requires i < |starts|
  {
    0 <= starts[i] && End(starts, n, i) <= n && End(starts, n, i) - starts[i] >= 3
  }

  /** The first `k` parts are pieces of the points. */
  predicate AllFit(starts: seq<int>, n: nat, k: nat) {
    k <= |starts| && forall i {:trigger starts[i]} {:trigger PartFits(starts, n, i)} :: 0 <= i < k ==>
      PartFits(starts, n, i)
  }

  predicate PartsFit(starts: seq<int>, n: nat) {
    starts != [] && starts[0] == 0 && AllFit(starts, n, |starts|)
  }

  function Slices(points: Ring, starts: seq<int>, k: nat): (r: seq<Ring>)
    requires AllFit(starts, |points|, k)
    ensures |r| == k
    ensures forall i :: 0 <= i < k ==> r[i] == points[starts[i]..End(starts, |points|, i)]
  {
    if k == 0 then [] else Slices(points, starts, k - 1) + [points[starts[k - 1]..End(starts, |points|, k - 1)]]
  }

  predicate RecordHolds(content: Data) {
    CountsHold(content) && PartsFit(Starts(content), PointCount(content))
  }

  function RingsOf(content: Data, dbl: Decoder): (r: seq<Ring>)
    requires RecordHolds(content)
    ensures |r| == PartCount(content)
  {
    Slices(Points(content, dbl), Starts(content), PartCount(content))
  }

  method ParseRings(content: Data, dbl: Decoder) returns (rings: Option<seq<Ring>>)
    ensures rings == if RecordHolds(content) then Some(RingsOf(content, dbl)) else None
  {
    if !CountsHold(content) {
      return None;
    }
    rings := CutIntoRings(Points(content, dbl), Starts(content));
  }

  method CutIntoRings(points: Ring, starts: seq<int>) returns (rings: Option<seq<Ring>>)
    requires starts != []
    ensures rings == if PartsFit(starts, |points|) then Some(Slices(points, starts, |starts|)) else None
  {
    if starts[0] != 0 {
      return None;
    }
    var found: seq<Ring> := [];
    for i := 0 to |starts|
      invariant AllFit(starts, |points|, i)
      invariant found == Slices(points, starts, i)
    {
      var start, end := starts[i], if i + 1 < |starts| then starts[i + 1] else |points|;
      if start < 0 || end > |points| || end - start < 3 {
        assert !PartFits(starts, |points|, i);
        return None;
      }
      found := found + [points[start..end]];
    }
    return Some(found);
  }

  lemma CutsMeet(points: Ring, i: int, j: int)
    requires 0 <= i <= j <= |points|
    ensures points[..i] + points[i..j] == points[..j]
  {}

  /** The rings are the points: cut into pieces of at least three, in order, without gap or overlap. */
  lemma {:induction false} SlicesJoin(points: Ring, starts: seq<int>, k: nat)
    requires PartsFit(starts, |points|) && 0 < k <= |starts|
    ensures PartFits(starts, |points|, k - 1)
    ensures Joined(Slices(points, starts, k)) == points[..End(starts, |points|, k - 1)]
  {
    hide Joined;
    assert PartFits(starts, |points|, k - 1);
    var slices, cut := Slices(points, starts, k - 1), points[starts[k - 1]..End(starts, |points|, k - 1)];
    JoinedGrows(slices, cut);
    if k == 1 {
      NothingJoined(slices);
      assert points[..0] + cut == cut;
    } else {
      SlicesJoin(points, starts, k - 1);
    }
    CutsMeet(points, starts[k - 1], End(starts, |points|, k - 1));
  }

  lemma NothingJoined<T>(pieces: seq<seq<T>>)
    requires pieces == []
    ensures Joined(pieces) == []
  {}

  lemma RingsJoinToThePoints(content: Data, dbl: Decoder)
    requires RecordHolds(content)
    ensures Joined(RingsOf(content, dbl)) == Points(content, dbl)
    ensures forall ring <- RingsOf(content, dbl) :: |ring| >= 3
  {
    hide Joined, CountsHold;
    var points, starts := Points(content, dbl), Starts(content);
    SlicesJoin(points, starts, |starts|);
    assert points[..|points|] == points;
    forall ring | ring in RingsOf(content, dbl) ensures |ring| >= 3 {
      var i :| 0 <= i < |starts| && RingsOf(content, dbl)[i] == ring;
      assert PartFits(starts, |points|, i);
    }
  }

  // ---------- printing

  /** A record as written: points are 16 raw bytes, `box` and `measures` are bytes the parser passes over. */
  datatype Shape = Shape(shapeType: nat, box: Data, parts: seq<seq<Data>>, measures: Data)

  predicate GoodShape(s: Shape) {
    && s.shapeType in Shp.POLYGON_TYPES && |s.box| == 32 && s.parts != [] && |Joined(s.parts)| >= 4
    && 44 + 4 * |s.parts| + 16 * |Joined(s.parts)| < LIMIT_32
    && (forall part <- s.parts :: |part| >= 3) && (forall raw <- Joined(s.parts) :: |raw| == 16)
  }

  function PrintStarts(parts: seq<seq<Data>>, at: nat): (b: Data)
    ensures |b| == 4 * |parts|
  {
    if parts == [] then [] else ToLittle(at, 4) + PrintStarts(parts[1..], at + |parts[0]|)
  }

  function PrintPoints(raws: seq<Data>): (b: Data)
    requires forall raw <- raws :: |raw| == 16
    ensures |b| == 16 * |raws|
  {
    if raws == [] then [] else raws[0] + PrintPoints(raws[1..])
  }

  function PrintCounts(s: Shape): (b: Data)
    requires GoodShape(s)
    ensures |b| == PARTS_AT
  {
    ToLittle(s.shapeType, 4) + s.box + ToLittle(|s.parts|, 4) + ToLittle(|Joined(s.parts)|, 4)
  }

  function PrintShape(s: Shape): (b: Data)
    requires GoodShape(s)
  {
    PrintCounts(s) + (PrintStarts(s.parts, 0) + (PrintPoints(Joined(s.parts)) + s.measures))
  }

  function Decoded(raws: seq<Data>, dbl: Decoder): (r: Ring)
    requires forall raw <- raws :: |raw| == 16
    ensures |r| == |raws|
  {
    seq(|raws|, i requires 0 <= i < |raws| => assert raws[i] in raws; PointAt(raws[i], dbl))
  }

  /** Where the i-th part starts among the points. */
  function Before(parts: seq<seq<Data>>, i: nat): nat
    requires i <= |parts|
  {
    |Joined(parts[..i])|
  }

  // ---------- the parser inverts the printer

  lemma ShapeFits(s: Shape)
    requires GoodShape(s)
    ensures |s.box| == 32 && s.shapeType < LIMIT_32 && |s.parts| < LIMIT_32 && |Joined(s.parts)| < LIMIT_32
  {
    hide Joined;
  }

  lemma CountsReadBack(s: Shape, content: Data)
    requires GoodShape(s) && At(content, 0, PrintCounts(s))
    ensures I32(content, 0) == s.shapeType && I32(content, 36) == |s.parts| && I32(content, 40) == |Joined(s.parts)|
  {
    hide ToLittle, FromLittle, Joined, I32, Pow256, GoodShape;
    ShapeFits(s);
    var piece := PrintCounts(s);
    var t, m, n := ToLittle(s.shapeType, 4), ToLittle(|s.parts|, 4), ToLittle(|Joined(s.parts)|, 4);
    assert At(piece, 0, t) && At(piece, 36, m) && At(piece, 40, n);
    InnerIsAt(content, 0, piece, 0, t);
    InnerIsAt(content, 0, piece, 36, m);
    InnerIsAt(content, 0, piece, 40, n);
    ReadsAt(content, 0, s.shapeType);
    ReadsAt(content, 36, |s.parts|);
    ReadsAt(content, 40, |Joined(s.parts)|);
  }

  lemma {:induction false} JoinedFromFront<T>(pieces: seq<seq<T>>)
    requires pieces != []
    ensures Joined(pieces) == pieces[0] + Joined(pieces[1..])
  {
    var n := |pieces| - 1;
    if n > 0 {
      JoinedFromFront(pieces[..n]);
      assert pieces[..n][1..] == pieces[1..][..n - 1];
    } else {
      assert pieces[..0] == [] && pieces[1..] == [];
    }
  }

  lemma {:induction false} StartReadsBack(content: Data, at: nat, parts: seq<seq<Data>>, base: nat, rest: Data, i: nat)
    requires at <= |content| && content[at..] == PrintStarts(parts, base) + rest
    requires i < |parts| && base + |Joined(parts)| < LIMIT_32
    ensures at + 4 * i + 4 <= |content| && I32(content, at + 4 * i) == base + Before(parts, i)
    decreases i
  {
    hide ToLittle, I32, Joined;
    var first, others := ToLittle(base, 4), PrintStarts(parts[1..], base + |parts[0]|);
    assert PrintStarts(parts, base) + rest == first + (others + rest);
    NextPiece(content, at, first, others + rest);
    JoinedFromFront(parts);
    if i == 0 {
      ReadsAt(content, at, base);
      NothingJoined(parts[..0]);
    } else {
      StartReadsBack(content, at + 4, parts[1..], base + |parts[0]|, rest, i - 1);
      JoinedFromFront(parts[..i]);
      assert parts[..i][1..] == parts[1..][..i - 1];
      assert at + 4 + 4 * (i - 1) == at + 4 * i;
    }
  }

  lemma {:induction false} PointReadsBack(content: Data, at: nat, raws: seq<Data>, rest: Data, i: nat)
    requires (forall raw <- raws :: |raw| == 16) && at <= |content| && content[at..] == PrintPoints(raws) + rest
    requires i < |raws|
    ensures At(content, at + 16 * i, raws[i])
    decreases i
  {
    assert raws[0] in raws;
    var first, others := raws[0], PrintPoints(raws[1..]);
    assert PrintPoints(raws) + rest == first + (others + rest);
    NextPiece(content, at, first, others + rest);
    if i == 0 {
    } else {
      PointReadsBack(content, at + 16, raws[1..], rest, i - 1);
      assert at + 16 + 16 * (i - 1) == at + 16 * i;
    }
  }

  lemma PartsOfShape(s: Shape)
    requires GoodShape(s)
    ensures var b := PrintShape(s); var starts, points := PrintStarts(s.parts, 0), PrintPoints(Joined(s.parts));
      && 44 + 4 * |s.parts| + 16 * |Joined(s.parts)| <= |b| && At(b, 0, PrintCounts(s))
      && b[44..] == starts + (points + s.measures) && b[44 + 4 * |s.parts|..] == points + s.measures
  {
    hide PrintCounts, PrintStarts, PrintPoints, Joined;
    var b, starts, points := PrintShape(s), PrintStarts(s.parts, 0), PrintPoints(Joined(s.parts));
    assert b[0..] == b;
    NextPiece(b, 0, PrintCounts(s), starts + (points + s.measures));
    NextPiece(b, 44, starts, points + s.measures);
    NextPiece(b, 44 + 4 * |s.parts|, points, s.measures);
  }

  lemma ShapeCountsHold(s: Shape)
    requires GoodShape(s)
    ensures var b := PrintShape(s);
      CountsHold(b) && PartCount(b) == |s.parts| && PointCount(b) == |Joined(s.parts)|
  {
    hide PrintShape, PrintStarts, PrintPoints, PrintCounts, I32, Joined;
    PartsOfShape(s);
    CountsReadBack(s, PrintShape(s));
  }

  lemma ShapePointsReadBack(s: Shape, dbl: Decoder)
    requires GoodShape(s) && CountsHold(PrintShape(s)) && PartCount(PrintShape(s)) == |s.parts|
    requires PointCount(PrintShape(s)) == |Joined(s.parts)|
    ensures Points(PrintShape(s), dbl) == Decoded(Joined(s.parts), dbl)
  {
    hide PrintShape, PrintStarts, PrintPoints, PrintCounts, I32, Joined;
    var b, raws := PrintShape(s), Joined(s.parts);
    PartsOfShape(s);
    forall i | 0 <= i < |raws| ensures Points(b, dbl)[i] == Decoded(raws, dbl)[i] {
      PointReadsBack(b, 44 + 4 * |s.parts|, raws, s.measures, i);
    }
  }

  lemma ShapeStartsReadBack(s: Shape, i: nat)
    requires GoodShape(s) && CountsHold(PrintShape(s)) && PartCount(PrintShape(s)) == |s.parts| && i < |s.parts|
    ensures Starts(PrintShape(s))[i] == Before(s.parts, i)
  {
    hide PrintShape, PrintStarts, PrintPoints, PrintCounts, I32, Joined, Before;
    PartsOfShape(s);
    StartReadsBack(PrintShape(s), 44, s.parts, 0, PrintPoints(Joined(s.parts)) + s.measures, i);
  }

  lemma {:induction false} PartIsASlice(parts: seq<seq<Data>>, i: nat)
    requires i < |parts|
    ensures Before(parts, i) + |parts[i]| == Before(parts, i + 1) <= |Joined(parts)|
    ensures Joined(parts)[Before(parts, i)..Before(parts, i + 1)] == parts[i]
    decreases |parts|
  {
    var n := |parts| - 1;
    assert parts[..i + 1][..i] == parts[..i];
    if i < n {
      PartIsASlice(parts[..n], i);
      assert parts[..n][..i] == parts[..i] && parts[..n][..i + 1] == parts[..i + 1];
      assert Joined(parts)[..|Joined(parts[..n])|] == Joined(parts[..n]);
    } else {
      assert parts[..i + 1] == parts;
    }
  }

  /** The rings that were written are the rings that are read, decoded point by point. */
  lemma ShapeReadsBack(s: Shape, dbl: Decoder)
    requires GoodShape(s)
    ensures var b := PrintShape(s);
      && RecordHolds(b) && |RingsOf(b, dbl)| == |s.parts|
      && forall i :: 0 <= i < |s.parts| ==> RingIsPart(RingsOf(b, dbl)[i], s, i, dbl)
  {
    hide PrintShape, I32, Joined, Starts, Points, Decoded, CountsHold;
    var b, n := PrintShape(s), |Joined(s.parts)|;
    ShapeCountsHold(s);
    ShapePointsReadBack(s, dbl);
    forall i | 0 <= i < |s.parts|
      ensures Starts(b)[i] == Before(s.parts, i) && End(Starts(b), n, i) == Before(s.parts, i + 1)
      ensures PartFits(Starts(b), n, i)
    {
      EndOfPart(s, i);
    }
    ShapeStartsReadBack(s, 0);
    NothingJoined(s.parts[..0]);
    forall i | 0 <= i < |s.parts| ensures RingIsPart(RingsOf(b, dbl)[i], s, i, dbl) {
      EndOfPart(s, i);
      SliceOfDecoded(s, i, dbl);
    }
  }

  predicate RingIsPart(ring: Ring, s: Shape, i: nat, dbl: Decoder)
    requires GoodShape(s) && i < |s.parts|
  {
    |ring| == |s.parts[i]| && forall k :: 0 <= k < |ring| ==>
      |s.parts[i][k]| == 16 && ring[k] == PointAt(s.parts[i][k], dbl)
  }

  lemma EndOfPart(s: Shape, i: nat)
    requires GoodShape(s) && CountsHold(PrintShape(s)) && PartCount(PrintShape(s)) == |s.parts| && i < |s.parts|
    ensures var starts, n := Starts(PrintShape(s)), |Joined(s.parts)|;
      starts[i] == Before(s.parts, i) && End(starts, n, i) == Before(s.parts, i + 1) && PartFits(starts, n, i)
  {
    hide PrintShape, Joined, Starts;
    ShapeStartsReadBack(s, i);
    PartIsASlice(s.parts, i);
    assert s.parts[i] in s.parts;
    if i + 1 < |s.parts| {
      ShapeStartsReadBack(s, i + 1);
    } else {
      assert s.parts[..i + 1] == s.parts;
    }
  }

  lemma SliceOfDecoded(s: Shape, i: nat, dbl: Decoder)
    requires GoodShape(s) && i < |s.parts|
    ensures Before(s.parts, i) <= Before(s.parts, i + 1) <= |Joined(s.parts)|
    ensures RingIsPart(Decoded(Joined(s.parts), dbl)[Before(s.parts, i)..Before(s.parts, i + 1)], s, i, dbl)
  {
    hide Joined, Before;
    PartIsASlice(s.parts, i);
    var raws, from, to := Joined(s.parts), Before(s.parts, i), Before(s.parts, i + 1);
    forall k | 0 <= k < |s.parts[i]|
      ensures |s.parts[i][k]| == 16 && Decoded(raws, dbl)[from..to][k] == PointAt(s.parts[i][k], dbl)
    {
      assert raws[from + k] == raws[from..to][k] == s.parts[i][k];
      assert raws[from + k] in raws;
    }
  }
}
