/** A printer of attribute tables, and the proof that the parser inverts it. */
module DbfPrint {
  import opened Wrappers
  import opened Bytes
  import opened Binary
  import opened Dbf

  /** A column as written; `kind` and `unused` are bytes the parser passes over. */
  datatype Column = Column(name: Data, kind: Data, length: nat, unused: Data)

  datatype Line = Deleted(bytes: Data) | Live(flag: byte, cells: seq<string>)

  datatype Table = Table(date: Data, reserved: Data, columns: seq<Column>, lines: seq<Line>, trailer: Data)

  predicate GoodColumn(c: Column) {
    && 1 <= |c.name| <= 11 && |c.kind| == 5 && |c.unused| == 15 && 0 < c.length < 256
    && (forall b <- c.name :: 0 < b < 128) && c.name[0] != END_OF_FIELDS && Strip(Latin1(c.name)) != ""
  }

  /** No blank at either end. */
  predicate Clean(s: string) {
    s == "" || (!IsSpace(s[0]) && !IsSpace(s[|s| - 1]))
  }

  predicate GoodLine(line: Line, columns: seq<Column>) {
    match line
    case Deleted(bytes) => |bytes| == Width(FieldsOf(columns))
    case Live(flag, cells) =>
      && flag in {0x20, 0} && |cells| == |columns|
      && forall k :: 0 <= k < |cells| ==> |cells[k]| <= columns[k].length && Clean(cells[k]) && IsLatin1(cells[k])
  }

  predicate GoodTable(t: Table) {
    && |t.date| == 4 && |t.reserved| == 20 && t.columns != [] && |t.lines| < 0x1_0000_0000
    && 33 + 32 * |t.columns| < 0x1_0000 && 1 + Width(FieldsOf(t.columns)) < 0x1_0000
    && (forall c <- t.columns :: GoodColumn(c)) && (forall line <- t.lines :: GoodLine(line, t.columns))
  }

  function FieldsOf(columns: seq<Column>): (r: seq<Field>)
    ensures |r| == |columns|
  {
    seq(|columns|, k requires 0 <= k < |columns| => Field(Upper(Strip(Latin1(columns[k].name))), columns[k].length))
  }

  /** What a reader of the table should get from a line. */
  function RowOf(line: Line, columns: seq<Column>): Row
    requires GoodLine(line, columns)
  {
    match line
    case Deleted(_) => map[]
    case Live(_, cells) => Assigned(cells, FieldsOf(columns))
  }

  function Assigned(cells: seq<string>, fields: seq<Field>): Row
    requires |cells| == |fields|
  {
    if fields == [] then map[]
    else
      var n := |fields| - 1;
      Assigned(cells[..n], fields[..n])[fields[n].name := cells[n]]
  }

  // ---------- printing

  function Zeros(n: nat): (b: Data)
    ensures |b| == n && forall x <- b :: x == 0
  {
    seq(n, _ => 0)
  }

  function PrintColumn(c: Column): (b: Data)
    requires GoodColumn(c)
    ensures |b| == 32
  {
    c.name + Zeros(11 - |c.name|) + c.kind + [c.length as byte] + c.unused
  }

  function PrintColumns(columns: seq<Column>): (b: Data)
    requires forall c <- columns :: GoodColumn(c)
    ensures |b| == 32 * |columns|
  {
    if columns == [] then [] else PrintColumn(columns[0]) + PrintColumns(columns[1..])
  }

  function PrintCells(cells: seq<string>, columns: seq<Column>): (b: Data)
    requires GoodLine(Live(0, cells), columns)
    ensures |b| == Width(FieldsOf(columns))
    decreases |cells|
  {
    if cells == [] then []
    else
      var n := |cells| - 1;
      ShorterLine(cells, columns);
      PrintCells(cells[..n], columns[..n]) + (Encode(cells[n]) + Blanks(columns[n].length - |cells[n]|))
  }

  lemma ShorterLine(cells: seq<string>, columns: seq<Column>)
    requires cells != [] && GoodLine(Live(0, cells), columns)
    ensures var n := |cells| - 1;
      && GoodLine(Live(0, cells[..n]), columns[..n]) && FieldsOf(columns)[..n] == FieldsOf(columns[..n])
      && Width(FieldsOf(columns)) == Width(FieldsOf(columns[..n])) + columns[n].length
  {
    assert FieldsOf(columns)[..|cells| - 1] == FieldsOf(columns[..|cells| - 1]);
  }

  function PrintLine(line: Line, columns: seq<Column>): (b: Data)
    requires GoodLine(line, columns)
    ensures |b| == 1 + Width(FieldsOf(columns))
  {
    match line
    case Deleted(bytes) => [0x2A] + bytes
    case Live(flag, cells) => [flag] + PrintCells(cells, columns)
  }

  function PrintLines(lines: seq<Line>, columns: seq<Column>): Data
    requires forall line <- lines :: GoodLine(line, columns)
  {
    if lines == [] then [] else PrintLine(lines[0], columns) + PrintLines(lines[1..], columns)
  }

  function PrintPreface(t: Table): (b: Data)
    requires GoodTable(t)
    ensures |b| == 32
  {
    t.date + ToLittle(|t.lines|, 4) + ToLittle(33 + 32 * |t.columns|, 2) + ToLittle(1 + Width(FieldsOf(t.columns)), 2)
      + t.reserved
  }

  /** Preface, columns, terminator, lines, and whatever follows them. */
  function PrintTable(t: Table): Data
    requires GoodTable(t)
  {
    PrintPreface(t) + (PrintColumns(t.columns) + ([END_OF_FIELDS] + (PrintLines(t.lines, t.columns) + t.trailer)))
  }

  // ---------- reading it back

  lemma {:induction false} NamePrefix(name: Data, zeros: nat)
    requires forall b <- name :: 0 < b
    ensures UpToNul(name + Zeros(zeros)) == name
  {
    if name == [] {
      assert name + Zeros(zeros) == Zeros(zeros);
    } else {
      assert (name + Zeros(zeros))[1..] == name[1..] + Zeros(zeros);
      forall b | b in name[1..] ensures 0 < b { assert b in name; }
      assert name[0] in name;
      NamePrefix(name[1..], zeros);
    }
  }

  lemma ColumnReadsBack(c: Column)
    requires GoodColumn(c)
    ensures ParseField(PrintColumn(c)) == Some(Field(Upper(Strip(Latin1(c.name))), c.length))
    ensures PrintColumn(c)[0] != END_OF_FIELDS
  {
    hide Strip, Latin1, Upper;
    var b, padded := PrintColumn(c), c.name + Zeros(11 - |c.name|);
    assert b[..11] == padded && b[16] == c.length as byte;
    NamePrefix(c.name, 11 - |c.name|);
  }

  lemma {:induction false} ColumnsReadBack(data: Data, cursor: nat, columns: seq<Column>, rest: Data)
    requires (forall c <- columns :: GoodColumn(c)) && cursor <= |data| && rest != [] && rest[0] == END_OF_FIELDS
    requires data[cursor..] == PrintColumns(columns) + rest
    ensures FieldsFrom(data, cursor, cursor + 32 * |columns|) == Some(FieldsOf(columns))
    decreases |columns|
  {
    hide PrintColumn, ParseField, Strip, Latin1, Upper;
    if columns == [] {
      assert FieldsOf(columns) == [];
    } else {
      assert columns[0] in columns;
      ColumnReadsBack(columns[0]);
      var first, others := PrintColumn(columns[0]), PrintColumns(columns[1..]);
      assert PrintColumns(columns) + rest == first + (others + rest);
      NextPiece(data, cursor, first, others + rest);
      assert data[cursor] == data[cursor..cursor + 32][0];
      ColumnsReadBack(data, cursor + 32, columns[1..], rest);
      assert FieldsOf(columns) == [FieldsOf(columns)[0]] + FieldsOf(columns[1..]);
    }
  }

  lemma {:induction false} BlanksAreStripped(s: string, n: nat)
    requires Clean(s)
    ensures StripRight(s + Latin1(Blanks(n))) == s
  {
    var t := s + Latin1(Blanks(n));
    if n == 0 {
      assert t == s;
    } else {
      assert t[..|t| - 1] == s + Latin1(Blanks(n - 1));
      BlanksAreStripped(s, n - 1);
    }
  }

  lemma {:induction false} AllBlank(n: nat)
    ensures Strip(Latin1(Blanks(n))) == ""
  {
    if n == 0 {
    } else {
      AllBlank(n - 1);
      assert Latin1(Blanks(n))[1..] == Latin1(Blanks(n - 1)) by {
        BlanksEverywhere(n);
        BlanksEverywhere(n - 1);
      }
      BlanksEverywhere(n);
    }
  }

  lemma {:induction false} BlanksEverywhere(n: nat)
    ensures forall k :: 0 <= k < n ==> Blanks(n)[k] == 0x20
  {
    if n == 0 {
    } else {
      BlanksEverywhere(n - 1);
    }
  }

  /** A clean text padded with blanks is read back without them. */
  lemma CellReadsBack(cell: string, blanks: nat)
    requires Clean(cell) && IsLatin1(cell)
    ensures Strip(Latin1(Encode(cell) + Blanks(blanks))) == cell
  {
    var s := Latin1(Encode(cell) + Blanks(blanks));
    assert s == cell + Latin1(Blanks(blanks));
    if cell == "" {
      assert s == Latin1(Blanks(blanks));
      AllBlank(blanks);
    } else {
      BlanksAreStripped(cell, blanks);
    }
  }

  function LastCell(cells: seq<string>, columns: seq<Column>): Data
    requires cells != [] && GoodLine(Live(0, cells), columns)
  {
    var n := |cells| - 1;
    Encode(cells[n]) + Blanks(columns[n].length - |cells[n]|)
  }

  lemma CellsOfLine(cells: seq<string>, columns: seq<Column>, body: Data)
    requires cells != [] && GoodLine(Live(0, cells), columns)
    requires |body| >= Width(FieldsOf(columns)) && body[..Width(FieldsOf(columns))] == PrintCells(cells, columns)
    ensures var n, raw := |cells| - 1, Cells(body, FieldsOf(columns));
      && GoodLine(Live(0, cells[..n]), columns[..n])
      && Width(FieldsOf(columns[..n])) <= |body| && raw[..n] == Cells(body, FieldsOf(columns[..n]))
      && body[..Width(FieldsOf(columns[..n]))] == PrintCells(cells[..n], columns[..n])
      && raw[n] == LastCell(cells, columns)
  {
    hide FieldsOf, Encode, Blanks;
    var n, fields := |cells| - 1, FieldsOf(columns);
    ShorterLine(cells, columns);
    var w := Width(fields[..n]);
    assert body[..w] == body[..Width(fields)][..w];
    assert body[w..Width(fields)] == body[..Width(fields)][w..];
    assert Cells(body, fields)[..n] == Cells(body, fields[..n]);
  }

  lemma {:induction false} CellsReadBack(cells: seq<string>, columns: seq<Column>, body: Data)
    requires GoodLine(Live(0, cells), columns)
    requires |body| >= Width(FieldsOf(columns)) && body[..Width(FieldsOf(columns))] == PrintCells(cells, columns)
    ensures ValuesOf(Cells(body, FieldsOf(columns)), FieldsOf(columns)) == Assigned(cells, FieldsOf(columns))
    decreases |cells|
  {
    hide Strip, Latin1, Encode, Blanks, Cells, PrintCells, FieldsOf;
    if cells == [] {
    } else {
      var n := |cells| - 1;
      ShorterLine(cells, columns);
      CellsOfLine(cells, columns, body);
      CellsReadBack(cells[..n], columns[..n], body);
      CellReadsBack(cells[n], columns[n].length - |cells[n]|);
    }
  }

  lemma LineReadsBack(line: Line, columns: seq<Column>)
    requires GoodLine(line, columns)
    ensures ParseRow(PrintLine(line, columns), FieldsOf(columns)) == Some(RowOf(line, columns))
  {
    hide Strip, Latin1, Upper, FieldsOf, ValuesOf, Cells, Assigned, PrintCells;
    match line
    case Deleted(_) =>
    case Live(flag, cells) =>
      var body := PrintCells(cells, columns);
      assert PrintLine(line, columns)[1..] == body;
      assert body[..Width(FieldsOf(columns))] == body;
      CellsReadBack(cells, columns, body);
  }

  function RowsOf(lines: seq<Line>, columns: seq<Column>): (r: seq<Row>)
    requires forall line <- lines :: GoodLine(line, columns)
    ensures |r| == |lines| && forall i :: 0 <= i < |lines| ==> r[i] == RowOf(lines[i], columns)
  {
    if lines == [] then [] else [RowOf(lines[0], columns)] + RowsOf(lines[1..], columns)
  }

  lemma {:induction false} LinesReadBack(data: Data, at: nat, lines: seq<Line>, columns: seq<Column>, rest: Data)
    requires (forall line <- lines :: GoodLine(line, columns)) && at <= |data|
    requires data[at..] == PrintLines(lines, columns) + rest
    ensures RowsFrom(data, at, FieldsOf(columns), |lines|) == Some(RowsOf(lines, columns))
    decreases |lines|
  {
    hide GoodLine, RowOf, FieldsOf, PrintLine, ParseRow;
    if lines == [] {
    } else {
      assert lines[0] in lines;
      var first, others := PrintLine(lines[0], columns), PrintLines(lines[1..], columns);
      assert PrintLines(lines, columns) + rest == first + (others + rest);
      NextPiece(data, at, first, others + rest);
      LineReadsBack(lines[0], columns);
      LinesReadBack(data, at + |first|, lines[1..], columns, rest);
    }
  }

  lemma PrefaceReadsBack(t: Table, data: Data)
    requires GoodTable(t) && At(data, 0, PrintPreface(t))
    ensures U32(data, 4) == |t.lines| && U16(data, 8) == 33 + 32 * |t.columns|
      && U16(data, 10) == 1 + Width(FieldsOf(t.columns))
  {
    hide ToLittle, FromLittle, GoodLine, GoodColumn, FieldsOf, Width, Pow256;
    var piece := PrintPreface(t);
    var n, h, w := ToLittle(|t.lines|, 4), ToLittle(33 + 32 * |t.columns|, 2),
      ToLittle(1 + Width(FieldsOf(t.columns)), 2);
    assert At(piece, 4, n) && At(piece, 8, h) && At(piece, 10, w);
    InnerIsAt(data, 0, piece, 4, n);
    InnerIsAt(data, 0, piece, 8, h);
    InnerIsAt(data, 0, piece, 10, w);
    ReadsAt(data, 4, |t.lines|);
    ReadsAt(data, 8, 33 + 32 * |t.columns|);
    ReadsAt(data, 10, 1 + Width(FieldsOf(t.columns)));
  }

  /** The four parts of a printed table, each where the parser looks for it. */
  lemma PartsOfTable(t: Table)
    requires GoodTable(t)
    ensures var data := PrintTable(t); var body := PrintLines(t.lines, t.columns) + t.trailer;
      var h := 33 + 32 * |t.columns|;
      && h <= |data| && At(data, 0, PrintPreface(t)) && data[32..] == PrintColumns(t.columns) + ([END_OF_FIELDS] + body)
      && data[h - 1] == END_OF_FIELDS && data[h..] == body
  {
    hide PrintPreface, PrintColumns, PrintLines, GoodLine, GoodColumn, FieldsOf;
    var data, body := PrintTable(t), PrintLines(t.lines, t.columns) + t.trailer;
    var columns := PrintColumns(t.columns);
    assert data[0..] == data;
    NextPiece(data, 0, PrintPreface(t), columns + ([END_OF_FIELDS] + body));
    NextPiece(data, 32, columns, [END_OF_FIELDS] + body);
    NextPiece(data, 32 + |columns|, [END_OF_FIELDS], body);
    assert data[32 + |columns|] == data[32 + |columns|..32 + |columns| + 1][0];
  }

  /** The parser returns every line of a printed table in its place: live lines with their cells, deleted ones empty. */
  lemma TableReadsBack(t: Table)
    requires GoodTable(t)
    ensures ReadTable(PrintTable(t)) == Some(RowsOf(t.lines, t.columns))
  {
    hide PrintTable, PrintPreface, PrintColumns, PrintLines, GoodLine, GoodColumn, FieldsFrom, RowsFrom, RowsOf, U16,
      U32;
    var data, body := PrintTable(t), PrintLines(t.lines, t.columns) + t.trailer;
    PartsOfTable(t);
    PrefaceReadsBack(t, data);
    ColumnsReadBack(data, 32, t.columns, [END_OF_FIELDS] + body);
    LinesReadBack(data, 33 + 32 * |t.columns|, t.lines, t.columns, t.trailer);
  }
}
