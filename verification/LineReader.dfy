/** Reading newline-delimited records from a stream that arrives in chunks. */
module LineReader {
  import opened Wrappers
  import opened Bytes

  const NEWLINE: byte := 10
  const RECORD_SEPARATOR: byte := 0x1E

  // ---------- one line

  /** What `bytes.strip` removes. */
  predicate IsBlank(b: byte) {
    9 <= b <= 13 || b == 32
  }

  lemma BlanksAre(b: byte)
    ensures IsBlank(b) <==> b in {9, 10, 11, 12, 13, 32}
  {}

  function StripBlanks(s: Data): Data
    decreases |s|
  {
    if s == [] then s
    else if IsBlank(s[0]) then StripBlanks(s[1..])
    else if IsBlank(s[|s| - 1]) then StripBlanks(s[..|s| - 1])
    else s
  }

  function DropSeparators(s: Data): Data {
    if s != [] && s[0] == RECORD_SEPARATOR then DropSeparators(s[1..]) else s
  }

  function TextOf(line: Data): Data {
    DropSeparators(StripBlanks(line))
  }

  predicate OnlyBlanks(s: Data) {
    forall b <- s :: IsBlank(b)
  }

  /** Only blanks are taken off, on both sides, and none is left there. */
  lemma {:induction false} StripMeans(s: Data) returns (front: Data, back: Data)
    ensures s == front + StripBlanks(s) + back && OnlyBlanks(front) && OnlyBlanks(back)
    ensures var t := StripBlanks(s); t != [] ==> !IsBlank(t[0]) && !IsBlank(t[|t| - 1])
    decreases |s|
  {
    hide IsBlank;
    front, back := [], [];
    if s == [] {
    } else if IsBlank(s[0]) {
      front, back := StripMeans(s[1..]);
      front := [s[0]] + front;
      assert s == [s[0]] + s[1..];
    } else if IsBlank(s[|s| - 1]) {
      front, back := StripMeans(s[..|s| - 1]);
      back := back + [s[|s| - 1]];
      assert s == s[..|s| - 1] + [s[|s| - 1]];
    }
  }

  /** Record separators in front are taken off, and nothing else. */
  lemma {:induction false} DropMeans(s: Data) returns (front: Data)
    ensures s == front + DropSeparators(s) && forall b <- front :: b == RECORD_SEPARATOR
    ensures DropSeparators(s) != [] ==> DropSeparators(s)[0] != RECORD_SEPARATOR
  {
    front := [];
    if s != [] && s[0] == RECORD_SEPARATOR {
      front := DropMeans(s[1..]);
      front := [s[0]] + front;
      assert s == [s[0]] + s[1..];
    }
  }

  /** `parse` is the decoder; a text that it refuses is passed over. */
  function DocumentsOfLine<T>(line: Data, parse: Data -> Option<T>): seq<T> {
    if TextOf(line) == [] then []
    else match parse(TextOf(line))
      case None => []
      case Some(document) => [document]
  }

  // ---------- the whole stream at once

  function FirstNewline(s: Data): (i: nat)
    ensures i <= |s| && (i < |s| ==> s[i] == NEWLINE) && forall k :: 0 <= k < i ==> s[k] != NEWLINE
  {
    if s == [] || s[0] == NEWLINE then 0 else 1 + FirstNewline(s[1..])
  }

  /** The lines of a stream; what follows the last newline is a line too, if only an empty one. */
  function Lines(s: Data): seq<Data>
    decreases |s|
  {
    var i := FirstNewline(s);
    if i == |s| then [s] else [s[..i]] + Lines(s[i + 1..])
  }

  function DocumentsOfLines<T>(lines: seq<Data>, parse: Data -> Option<T>): seq<T> {
    if lines == [] then [] else DocumentsOfLine(lines[0], parse) + DocumentsOfLines(lines[1..], parse)
  }

  function Documents<T>(s: Data, parse: Data -> Option<T>): seq<T> {
    DocumentsOfLines(Lines(s), parse)
  }

  // ---------- complete lines and the rest

  function Complete(s: Data): seq<Data>
    decreases |s|
  {
    var i := FirstNewline(s);
    if i == |s| then [] else [s[..i]] + Complete(s[i + 1..])
  }

  function Rest(s: Data): Data
    decreases |s|
  {
    var i := FirstNewline(s);
    if i == |s| then s else Rest(s[i + 1..])
  }

  /** One line comes off the front. */
  lemma FirstLine(s: Data)
    ensures var i := FirstNewline(s);
      if i == |s| then Complete(s) == [] && Rest(s) == s
      else Complete(s) == [s[..i]] + Complete(s[i + 1..]) && Rest(s) == Rest(s[i + 1..])
  {
    hide FirstNewline;
    var i := FirstNewline(s);
    if i == |s| {
    } else {
      assert Complete(s) == [s[..i]] + Complete(s[i + 1..]);
      assert Rest(s) == Rest(s[i + 1..]);
    }
  }

  lemma {:induction false} LinesAreCompleteAndRest(s: Data)
    ensures Lines(s) == Complete(s) + [Rest(s)]
    decreases |s|
  {
    hide FirstNewline, Complete, Rest;
    var i := FirstNewline(s);
    FirstLine(s);
    if i == |s| {
      assert [] + [Rest(s)] == [s];
    } else {
      var tail := s[i + 1..];
      LinesAreCompleteAndRest(tail);
      assert [s[..i]] + (Complete(tail) + [Rest(tail)]) == Complete(s) + [Rest(s)];
    }
  }

  lemma FirstNewlineStays(s: Data, more: Data)
    requires FirstNewline(s) < |s|
    ensures FirstNewline(s + more) == FirstNewline(s)
  {
    var i := FirstNewline(s);
    assert (s + more)[i] == NEWLINE;
    assert forall k :: 0 <= k < i ==> (s + more)[k] == s[k];
  }

  /** More input never changes the lines that are complete; it continues the rest. */
  lemma {:induction false} MoreInput(s: Data, more: Data)
    ensures Complete(s + more) == Complete(s) + Complete(Rest(s) + more)
    ensures Rest(s + more) == Rest(Rest(s) + more)
    decreases |s|
  {
    hide FirstNewline, Complete, Rest;
    var i := FirstNewline(s);
    FirstLine(s);
    if i == |s| {
    } else {
      var tail := s[i + 1..];
      FirstNewlineStays(s, more);
      FirstLine(s + more);
      assert (s + more)[..i] == s[..i] && (s + more)[i + 1..] == tail + more;
      MoreInput(tail, more);
      assert [s[..i]] + (Complete(tail) + Complete(Rest(tail) + more)) == Complete(s) + Complete(Rest(s) + more);
    }
  }

  lemma {:induction false} DocumentsAdd<T>(a: seq<Data>, b: seq<Data>, parse: Data -> Option<T>)
    ensures DocumentsOfLines(a + b, parse) == DocumentsOfLines(a, parse) + DocumentsOfLines(b, parse)
  {
    if a == [] {
      assert a + b == b;
    } else {
      assert (a + b)[1..] == a[1..] + b;
      DocumentsAdd(a[1..], b, parse);
    }
  }

  lemma OneLine<T>(line: Data, parse: Data -> Option<T>)
    ensures DocumentsOfLines([line], parse) == DocumentsOfLine(line, parse)
  {
    assert [line][1..] == [];
  }

  lemma OneLineTaken<T>(s: Data, parse: Data -> Option<T>)
    requires FirstNewline(s) < |s|
    ensures var i := FirstNewline(s);
      && DocumentsOfLines(Complete(s), parse) == DocumentsOfLine(s[..i], parse)
         + DocumentsOfLines(Complete(s[i + 1..]), parse)
      && Rest(s) == Rest(s[i + 1..])
  {
    hide DocumentsOfLine, FirstNewline;
    var i := FirstNewline(s);
    DocumentsAdd([s[..i]], Complete(s[i + 1..]), parse);
    OneLine(s[..i], parse);
  }

  lemma NothingTaken<T>(s: Data, parse: Data -> Option<T>)
    requires FirstNewline(s) == |s|
    ensures DocumentsOfLines(Complete(s), parse) == [] && Rest(s) == s
  {}

  /** The inner loop: take complete lines off the buffer. */
  method TakeLines<T>(buffer: Data, parse: Data -> Option<T>) returns (documents: seq<T>, leftover: Data)
    ensures documents == DocumentsOfLines(Complete(buffer), parse) && leftover == Rest(buffer)
  {
    hide DocumentsOfLine, DocumentsOfLines, FirstNewline, Complete, Rest;
    documents, leftover := [], buffer;
    while FirstNewline(leftover) < |leftover|
      invariant documents + DocumentsOfLines(Complete(leftover), parse) == DocumentsOfLines(Complete(buffer), parse)
      invariant Rest(leftover) == Rest(buffer)
      decreases |leftover|
    {
      var i := FirstNewline(leftover);
      var raw, after := leftover[..i], leftover[i + 1..];
      OneLineTaken(leftover, parse);
      documents, leftover := documents + DocumentsOfLine(raw, parse), after;
    }
    NothingTaken(leftover, parse);
  }

  /** However the stream is cut into chunks, the reader yields the documents of the whole stream. */
  method ReadFeatures<T>(chunks: seq<Data>, parse: Data -> Option<T>) returns (documents: seq<T>)
    ensures documents == Documents(Joined(chunks), parse)
  {
    documents := [];
    var leftover: Data := [];
    for k := 0 to |chunks|
      invariant documents == DocumentsOfLines(Complete(Joined(chunks[..k])), parse)
      invariant leftover == Rest(Joined(chunks[..k]))
    {
      assert chunks[..k + 1] == chunks[..k] + [chunks[k]];
      JoinedGrows(chunks[..k], chunks[k]);
      MoreInput(Joined(chunks[..k]), chunks[k]);
      DocumentsAdd(Complete(Joined(chunks[..k])), Complete(leftover + chunks[k]), parse);
      var found, rest := TakeLines(leftover + chunks[k], parse);
      documents, leftover := documents + found, rest;
    }
    assert chunks[..|chunks|] == chunks;
    LinesAreCompleteAndRest(Joined(chunks));
    DocumentsAdd(Complete(Joined(chunks)), [leftover], parse);
    OneLine(leftover, parse);
    documents := documents + DocumentsOfLine(leftover, parse);
  }

  // ---------- text sequences

  /** A text that survives as it is between a separator and a newline. */
  predicate Sequenced(text: Data) {
    && text != [] && NEWLINE !in text && text[0] != RECORD_SEPARATOR && !IsBlank(text[0]) && !IsBlank(text[|text| - 1])
  }

  function PrintSequence(texts: seq<Data>): Data {
    if texts == [] then [] else [RECORD_SEPARATOR] + texts[0] + [NEWLINE] + PrintSequence(texts[1..])
  }

  function Parsed<T>(texts: seq<Data>, parse: Data -> Option<T>): seq<T> {
    if texts == [] then []
    else (match parse(texts[0]) case None => [] case Some(document) => [document]) + Parsed(texts[1..], parse)
  }

  lemma SequencedTextReadsBack(text: Data)
    requires Sequenced(text)
    ensures TextOf([RECORD_SEPARATOR] + text) == text
  {
    var line := [RECORD_SEPARATOR] + text;
    assert StripBlanks(line) == line;
    assert line[1..] == text && DropSeparators(text) == text;
  }

  lemma NewlineFound(text: Data, rest: Data)
    requires Sequenced(text)
    ensures FirstNewline([RECORD_SEPARATOR] + text + [NEWLINE] + rest) == 1 + |text|
  {
    var s := [RECORD_SEPARATOR] + text + [NEWLINE] + rest;
    assert s[1 + |text|] == NEWLINE;
    forall k | 0 <= k < 1 + |text| ensures s[k] != NEWLINE {
      assert k > 0 ==> s[k] == text[k - 1] && text[k - 1] in text;
    }
  }

  /** A GeoJSON text sequence (RFC 8142, section 2) is read back text by text. */
  lemma {:induction false} SequenceReadsBack<T>(texts: seq<Data>, parse: Data -> Option<T>)
    requires forall text <- texts :: Sequenced(text)
    ensures Documents(PrintSequence(texts), parse) == Parsed(texts, parse)
  {
    if texts == [] {
      OneLine([], parse);
    } else {
      var text, rest := texts[0], PrintSequence(texts[1..]);
      assert text in texts;
      var line := [RECORD_SEPARATOR] + text;
      var s := line + [NEWLINE] + rest;
      NewlineFound(text, rest);
      SequencedTextReadsBack(text);
      assert s[..|line|] == line && s[|line| + 1..] == rest;
      SequenceReadsBack(texts[1..], parse);
      DocumentsAdd([line], Lines(rest), parse);
      OneLine(line, parse);
    }
  }
}
