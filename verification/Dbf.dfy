/** The DBF member of a shapefile: a header that describes the fields, and fixed-width rows. */
module Dbf {
  import opened Wrappers
  import opened Bytes
  import opened Binary

  // ---------- text in Latin-1

  /** What `str.strip` removes among the first 256 code points. */
  predicate IsSpace(c: char) {
    var n := c as int;
    9 <= n <= 13 || 28 <= n <= 32 || n == 0x85 || n == 0xA0
  }

  lemma SpacesAre(c: char)
    ensures IsSpace(c) <==> c as int in {9, 10, 11, 12, 13, 28, 29, 30, 31, 32, 133, 160}
  {}

  function StripLeft(s: string): string {
    if s != "" && IsSpace(s[0]) then StripLeft(s[1..]) else s
  }

  function StripRight(s: string): string {
    if s != "" && IsSpace(s[|s| - 1]) then StripRight(s[..|s| - 1]) else s
  }

  function Strip(s: string): string {
    StripRight(StripLeft(s))
  }

  predicate OnlySpaces(s: string) {
    forall c <- s :: IsSpace(c)
  }

  lemma {:induction false} StripLeftMeans(s: string) returns (front: string)
    ensures s == front + StripLeft(s) && OnlySpaces(front)
    ensures StripLeft(s) != "" ==> !IsSpace(StripLeft(s)[0])
  {
    if s != "" && IsSpace(s[0]) {
      var rest := StripLeftMeans(s[1..]);
      front := [s[0]] + rest;
      assert s == [s[0]] + s[1..];
    } else {
      front := "";
    }
  }

  lemma {:induction false} StripRightMeans(s: string) returns (back: string)
    ensures s == StripRight(s) + back && OnlySpaces(back)
    ensures StripRight(s) != "" ==> !IsSpace(StripRight(s)[|StripRight(s)| - 1])
  {
    if s != "" && IsSpace(s[|s| - 1]) {
      var rest := StripRightMeans(s[..|s| - 1]);
      back := rest + [s[|s| - 1]];
      assert s == s[..|s| - 1] + [s[|s| - 1]];
    } else {
      back := "";
    }
  }

  /** Only space is taken off, on both sides, and none is left there. */
  lemma StripMeans(s: string) returns (front: string, back: string)
    ensures s == front + Strip(s) + back && OnlySpaces(front) && OnlySpaces(back)
    ensures var t := Strip(s); t != "" ==> !IsSpace(t[0]) && !IsSpace(t[|t| - 1])
  {
    hide IsSpace;
    front := StripLeftMeans(s);
    back := StripRightMeans(StripLeft(s));
  }

  function Latin1(b: Data): (s: string)
    ensures |s| == |b|
  {
    seq(|b|, i requires 0 <= i < |b| => b[i] as int as char)
  }

  predicate IsLatin1(s: string) {
    forall c <- s :: c as int < 256
  }

  function Encode(s: string): (b: Data)
    requires IsLatin1(s)
    ensures |b| == |s|
  {
    seq(|s|, i requires 0 <= i < |s| => assert s[i] in s; s[i] as int as byte)
  }

  function Blanks(n: nat): (b: Data)
    ensures |b| == n
  {
    if n == 0 then [] else Blanks(n - 1) + [0x20]
  }

  function Upper(s: string): (r: string)
    ensures |r| == |s|
  {
    seq(|s|, i requires 0 <= i < |s| => if 'a' <= s[i] <= 'z' then (s[i] as int - 32) as char else s[i])
  }

  /** Small letters become capitals, and nothing else changes. */
  lemma UpperMeans(s: string, k: nat)
    requires k < |s|
    ensures var n := s[k] as int; Upper(s)[k] as int == if 96 < n < 123 then n - 32 else n
  {}

  // ---------- reading

  datatype Field = Field(name: string, length: nat)
  type Row = map<string, string>

  const END_OF_FIELDS: byte := 0x0D

  function UpToNul(b: Data): Data {
    if b == [] || b[0] == 0 then [] else [b[0]] + UpToNul(b[1..])
  }

  /** A field name is the ASCII text up to the first NUL, stripped and in capitals; it must not be empty. */
  function ParseName(b: Data): Option<string> {
    var raw := UpToNul(b);
    var _ :- Require(forall x <- raw :: x < 128);
    var name := Strip(Latin1(raw));
    if name == "" then None else Some(Upper(name))
  }

  function ParseField(descriptor: Data): Option<Field>
    requires |descriptor| == 32
  {
    var name :- ParseName(descriptor[..11]);
    if descriptor[16] == 0 then None else Some(Field(name, descriptor[16] as nat))
  }

  /** The descriptors from `cursor` up to the terminator or the end of the header. */
  function FieldsFrom(data: Data, cursor: nat, end: nat): Option<seq<Field>>
    requires end <= |data|
    decreases end - cursor
  {
    if cursor + 32 > end || data[cursor] == END_OF_FIELDS then Some([])
    else
      var field :- ParseField(data[cursor..cursor + 32]);
      var rest :- FieldsFrom(data, cursor + 32, end);
      Some([field] + rest)
  }

  method ParseFields(data: Data, end: nat) returns (fields: Option<seq<Field>>)
    requires 32 <= end <= |data|
    ensures fields == FieldsFrom(data, 32, end)
  {
    var found: seq<Field>, cursor := [], 32;
    ghost var all := FieldsFrom(data, 32, end);
    LoopStarts(all);
    while cursor + 32 <= end && data[cursor] != END_OF_FIELDS
      invariant GoesOn(all, found, FieldsFrom(data, cursor, end))
    {
      var field := ParseField(data[cursor..cursor + 32]);
      if field.None? {
        return None;
      }
      LoopSteps(all, found, field.value, FieldsFrom(data, cursor + 32, end));
      found, cursor := found + [field.value], cursor + 32;
    }
    LoopEnds(all, found);
    return Some(found);
  }

  function Width(fields: seq<Field>): nat {
    if fields == [] then 0 else Width(fields[..|fields| - 1]) + fields[|fields| - 1].length
  }

  /** The raw bytes of each field, one after the other. */
  function Cells(body: Data, fields: seq<Field>): (r: seq<Data>)
    requires Width(fields) <= |body|
    ensures |r| == |fields|
  {
    if fields == [] then []
    else
      var n := |fields| - 1;
      Cells(body, fields[..n]) + [body[Width(fields[..n])..Width(fields)]]
  }

  /** A later field of the same name replaces an earlier one. */
  function ValuesOf(cells: seq<Data>, fields: seq<Field>): Row
    requires |cells| == |fields|
  {
    if fields == [] then map[]
    else
      var n := |fields| - 1;
      ValuesOf(cells[..n], fields[..n])[fields[n].name := Strip(Latin1(cells[n]))]
  }

  /** A deleted row stays in the list as an empty one, so row numbers keep meaning shape numbers. */
  function ParseRow(row: Data, fields: seq<Field>): Option<Row>
    requires |row| == 1 + Width(fields)
  {
    if row[0] == 0x2A then Some(map[])
    else if row[0] !in {0x20, 0} then None
    else Some(ValuesOf(Cells(row[1..], fields), fields))
  }

  method ParseValues(row: Data, fields: seq<Field>) returns (values: Row)
    requires |row| == 1 + Width(fields)
    ensures values == ValuesOf(Cells(row[1..], fields), fields)
  {
    hide Strip, Latin1, ValuesOf, Cells;
    values := map[];
    var offset := 1;
    ghost var body := row[1..];
    NoFields(body, fields);
    for k := 0 to |fields|
      invariant offset == 1 + Width(fields[..k]) <= |row|
      invariant values == ValuesOf(Cells(body, fields[..k]), fields[..k])
    {
      FieldEnds(fields, k);
      CellsGrow(body, fields, k);
      var raw := row[offset..offset + fields[k].length];
      TailSlice(row, offset, offset + fields[k].length);
      values := values[fields[k].name := Strip(Latin1(raw))];
      offset := offset + fields[k].length;
    }
    assert fields[..|fields|] == fields;
  }

  lemma TailSlice(row: Data, from: nat, to: nat)
    requires 1 <= from <= to <= |row|
    ensures row[1..][from - 1..to - 1] == row[from..to]
  {}

  lemma NoFields(body: Data, fields: seq<Field>)
    ensures Width(fields[..0]) == 0 && ValuesOf(Cells(body, fields[..0]), fields[..0]) == map[]
  {}

  lemma {:induction false} FieldEnds(fields: seq<Field>, k: nat)
    requires k < |fields|
    ensures Width(fields[..k + 1]) == Width(fields[..k]) + fields[k].length <= Width(fields)
    decreases |fields|
  {
    var n := |fields| - 1;
    assert fields[..k + 1][..k] == fields[..k];
    if k < n {
      FieldEnds(fields[..n], k);
      assert fields[..n][..k + 1] == fields[..k + 1] && fields[..n][..k] == fields[..k];
    } else {
      assert fields[..k + 1] == fields;
    }
  }

  lemma CellsGrow(body: Data, fields: seq<Field>, k: nat)
    requires k < |fields| && Width(fields) <= |body|
    ensures Width(fields[..k]) <= Width(fields[..k + 1]) <= |body|
    ensures ValuesOf(Cells(body, fields[..k + 1]), fields[..k + 1])
      == ValuesOf(Cells(body, fields[..k]), fields[..k])[
        fields[k].name := Strip(Latin1(body[Width(fields[..k])..Width(fields[..k + 1])]))]
  {
    hide Strip, Latin1;
    FieldEnds(fields, k);
    assert fields[..k + 1][..k] == fields[..k];
    var cells := Cells(body, fields[..k + 1]);
    assert cells[..k] == Cells(body, fields[..k]);
  }

  function RowsFrom(data: Data, at: nat, fields: seq<Field>, left: nat): (r: Option<seq<Row>>)
    ensures r.Some? ==> |r.value| == left
    decreases left
  {
    if left == 0 then Some([])
    else
      var size := 1 + Width(fields);
      var _ :- Require(Within(data, at, size));
      var row :- ParseRow(data[at..at + size], fields);
      var rest :- RowsFrom(data, at + size, fields, left - 1);
      Some([row] + rest)
  }

  predicate HeaderHolds(data: Data) {
    && Within(data, 0, 32) && U16(data, 8) >= 33 && U16(data, 10) >= 1
    && Within(data, 0, U16(data, 8)) && data[U16(data, 8) - 1] in {END_OF_FIELDS, 0}
  }

  function ReadTable(data: Data): Option<seq<Row>> {
    var _ :- Require(HeaderHolds(data));
    var fields :- FieldsFrom(data, 32, U16(data, 8) - 1);
    var _ :- Require(fields != [] && 1 + Width(fields) == U16(data, 10));
    RowsFrom(data, U16(data, 8), fields, U32(data, 4))
  }

  method ParseDbfRecords(data: Data) returns (records: Option<seq<Row>>)
    ensures records == ReadTable(data)
  {
    if !HeaderHolds(data) {
      return None;
    }
    var headerLen, recordLen := U16(data, 8), U16(data, 10);
    var parsed := ParseFields(data, headerLen - 1);
    if parsed.None? || parsed.value == [] || 1 + Width(parsed.value) != recordLen {
      return None;
    }
    records := ParseRows(data, headerLen, parsed.value, U32(data, 4));
  }

  method ParseOneRow(row: Data, fields: seq<Field>) returns (values: Option<Row>)
    requires |row| == 1 + Width(fields)
    ensures values == ParseRow(row, fields)
  {
    if row[0] == 0x2A {
      return Some(map[]);
    }
    if row[0] !in {0x20, 0} {
      return None;
    }
    var cells := ParseValues(row, fields);
    return Some(cells);
  }

  method ParseRows(data: Data, start: nat, fields: seq<Field>, count: nat) returns (records: Option<seq<Row>>)
    ensures records == RowsFrom(data, start, fields, count)
  {
    hide ParseRow, Width;
    var found: seq<Row>, body: nat, size := [], start, 1 + Width(fields);
    ghost var all := RowsFrom(data, start, fields, count);
    LoopStarts(all);
    for i := 0 to count
      invariant GoesOn(all, found, RowsFrom(data, body, fields, count - i))
    {
      if !Within(data, body, size) {
        return None;
      }
      var row := ParseOneRow(data[body..body + size], fields);
      if row.None? {
        return None;
      }
      LoopSteps(all, found, row.value, RowsFrom(data, body + size, fields, count - i - 1));
      found, body := found + [row.value], body + size;
    }
    LoopEnds(all, found);
    return Some(found);
  }

  lemma RowIsCutAt(body: Data, i: nat, j: nat)
    requires i <= j <= |body|
    ensures body[..i] + body[i..j] == body[..j]
  {}

  lemma LastCell(body: Data, fields: seq<Field>)
    requires fields != [] && Width(fields) <= |body|
    ensures var n := |fields| - 1;
      && Width(fields[..n]) + fields[n].length == Width(fields)
      && Cells(body, fields) == Cells(body, fields[..n]) + [body[Width(fields[..n])..Width(fields)]]
  {}

  /** The cells of a row are all of it: nothing of a record is read twice or left out. */
  lemma {:induction false} CellsTileTheRow(body: Data, fields: seq<Field>)
    requires Width(fields) <= |body|
    ensures Joined(Cells(body, fields)) == body[..Width(fields)]
    ensures forall k :: 0 <= k < |fields| ==> |Cells(body, fields)[k]| == fields[k].length
  {
    if fields == [] {
    } else {
      hide Joined, Cells, Width;
      var n := |fields| - 1;
      LastCell(body, fields);
      CellsTileTheRow(body, fields[..n]);
      JoinedGrows(Cells(body, fields[..n]), body[Width(fields[..n])..Width(fields)]);
      RowIsCutAt(body, Width(fields[..n]), Width(fields));
    }
  }
}
