/**
 Editor positions (internal/lsp/document.go): a line and a count of UTF-16 code
 units, against byte offsets into UTF-8 text.
 */
module Positions {
  import opened Encodings
  import opened Prelude

  /** How far the index moves over a character of a string. */
  function Utf8Len(c: char): nat
  {
    var r := c as int;
    if r < 0x80 then 1 else if r < 0x800 then 2 else if r < 0x1_0000 then 3 else 4
  }

  function Utf16RuneLen(c: char): nat
  {
    if (c as int) <= 0xFFFF then 1 else 2
  }

  /** The length of a text in UTF-8. */
  function Bytes(line: string): nat
  {
    |Utf8(line)|
  }

  /** The length of a text in UTF-16. */
  function Units(line: string): nat
  {
    |Utf16(line)|
  }

  lemma PrefixStep(line: string, k: nat)
    requires k < |line|
    ensures Bytes(line[..k + 1]) == Bytes(line[..k]) + Utf8Len(line[k])
    ensures Units(line[..k + 1]) == Units(line[..k]) + Utf16RuneLen(line[k])
  {
    assert line[..k + 1] == line[..k] + [line[k]];
    EncodedPieces(line[..k], [line[k]]);
    assert [line[k]][1..] == "";
  }

  lemma {:induction false} PrefixesGrow(line: string, i: nat, j: nat)
    requires i <= j <= |line|
    ensures Bytes(line[..i]) + (j - i) <= Bytes(line[..j]) && Units(line[..i]) + (j - i) <= Units(line[..j])
    decreases j
  {
    if i < j {
      PrefixStep(line, j - 1);
      PrefixesGrow(line, i, j - 1);
    }
  }

  /** A character boundary at or before a UTF-16 position, as far as the line goes. */
  ghost predicate FloorUnits(line: string, pos: int, k: nat)
  {
    k <= |line| && (k > 0 ==> Units(line[..k]) <= pos) && (k < |line| ==> pos < Units(line[..k + 1]))
  }

  /** A character boundary at or behind a byte offset, as far as the line goes. */
  ghost predicate CeilBytes(line: string, offset: int, k: nat)
  {
    k <= |line| && (k < |line| ==> offset <= Bytes(line[..k])) && (k > 0 ==> Bytes(line[..k - 1]) < offset)
  }

  /** The last boundary that does not pass the position: a position inside a surrogate pair goes down to the character's start. */
  method Utf16PosToByteOffset(line: string, utf16Pos: int) returns (offset: nat)
    ensures exists k: nat :: FloorUnits(line, utf16Pos, k) && offset == Bytes(line[..k])
  {
    if utf16Pos <= 0 {
      if line != "" {
        PrefixStep(line, 0);
      }
      assert FloorUnits(line, utf16Pos, 0);
      return 0;
    }
    var utf16Count, idx := 0, 0;
    for i := 0 to |line|
      invariant utf16Count == Units(line[..i]) <= utf16Pos && idx == Bytes(line[..i])
    {
      PrefixStep(line, i);
      utf16Count := utf16Count + Utf16RuneLen(line[i]);
      if utf16Count > utf16Pos {
        assert FloorUnits(line, utf16Pos, i);
        return idx;
      }
      idx := idx + Utf8Len(line[i]);
    }
    assert line[..|line|] == line;
    assert FloorUnits(line, utf16Pos, |line|);
    return idx;
  }

  /** The units before the first boundary not before the offset. */
  method ByteOffsetToUtf16Pos(line: string, byteOffset: int) returns (pos: nat)
    ensures exists k: nat :: CeilBytes(line, byteOffset, k) && pos == Units(line[..k])
  {
    if byteOffset <= 0 {
      assert CeilBytes(line, byteOffset, 0);
      return 0;
    }
    pos := 0;
    var idx := 0;
    for i := 0 to |line|
      invariant pos == Units(line[..i]) && idx == Bytes(line[..i])
      invariant i > 0 ==> Bytes(line[..i - 1]) < byteOffset
    {
      if idx >= byteOffset {
        assert CeilBytes(line, byteOffset, i);
        return pos;
      }
      PrefixStep(line, i);
      pos := pos + Utf16RuneLen(line[i]);
      idx := idx + Utf8Len(line[i]);
    }
    assert CeilBytes(line, byteOffset, |line|);
    return pos;
  }

  /** A position that is a character boundary of the line. */
  ghost predicate OnUnit(line: string, pos: int)
  {
    exists k :: 0 <= k <= |line| && pos == Units(line[..k])
  }

  ghost predicate OnByte(line: string, offset: int)
  {
    exists k :: 0 <= k <= |line| && offset == Bytes(line[..k])
  }

  lemma FloorUnique(line: string, pos: int, k: nat, j: nat)
    requires FloorUnits(line, pos, k) && j <= |line| && pos == Units(line[..j])
    ensures k == j
  {
    if k < j {
      PrefixesGrow(line, k + 1, j);
    } else if j < k {
      PrefixesGrow(line, j, k);
    }
  }

  lemma CeilUnique(line: string, offset: int, k: nat, j: nat)
    requires CeilBytes(line, offset, k) && j <= |line| && offset == Bytes(line[..j])
    ensures k == j
  {
    if k < j {
      PrefixesGrow(line, k, j);
    } else if j < k {
      PrefixesGrow(line, j, k - 1);
    }
  }

  /** Units to bytes and back is the identity exactly on character boundaries, and bytes to units and back likewise. */
  lemma LineRoundTrips(line: string, pos: int, k: nat, offset: int, j: nat, k': nat, j': nat)
    requires FloorUnits(line, pos, k) && CeilBytes(line, Bytes(line[..k]), k')
    requires CeilBytes(line, offset, j) && FloorUnits(line, Units(line[..j]), j')
    ensures Units(line[..k']) == pos <==> OnUnit(line, pos)
    ensures Bytes(line[..j']) == offset <==> OnByte(line, offset)
  {
    CeilUnique(line, Bytes(line[..k]), k', k);
    FloorUnique(line, Units(line[..j]), j', j);
    if OnUnit(line, pos) {
      var b :| 0 <= b <= |line| && pos == Units(line[..b]);
      FloorUnique(line, pos, k, b);
    }
    if OnByte(line, offset) {
      var b :| 0 <= b <= |line| && offset == Bytes(line[..b]);
      CeilUnique(line, offset, j, b);
    }
  }

  /** A position between the two units of one character. */
  predicate SplitsPair(line: string, pos: int)
  {
    0 < pos < |Utf16(line)| && IsHigh(Utf16(line)[pos - 1]) && IsLow(Utf16(line)[pos])
  }

  /** The units of a line around one of its characters. */
  lemma UnitsAround(line: string, k: nat)
    requires k < |line|
    ensures (
      var start := Units(line[..k]);
      && start + |Utf16Char(line[k])| <= |Utf16(line)|
      && Utf16(line)[start..start + |Utf16Char(line[k])|] == Utf16Char(line[k]))
  {
    assert line == line[..k] + ([line[k]] + line[k + 1..]);
    EncodedPieces(line[..k], [line[k]] + line[k + 1..]);
    EncodedPieces([line[k]], line[k + 1..]);
    assert [line[k]][1..] == "";
  }

  /** No character ends in a high surrogate. */
  lemma BoundarySplitsNone(line: string, k: nat)
    requires k <= |line|
    ensures !SplitsPair(line, Units(line[..k]))
  {
    if k > 0 {
      PrefixStep(line, k - 1);
      UnitsAround(line, k - 1);
      var units, start, end := Utf16(line), Units(line[..k - 1]), Units(line[..k]);
      assert units[end - 1] == units[start..end][end - 1 - start];
    } else {
      assert line[..k] == "";
    }
  }

  /** Between the two units of a character. */
  lemma InsideSplits(line: string, pos: nat, k: nat)
    requires k < |line| && Units(line[..k]) < pos < Units(line[..k + 1])
    ensures SplitsPair(line, pos) && pos == Units(line[..k]) + 1
  {
    hide Utf16;
    PrefixStep(line, k);
    UnitsAround(line, k);
    var units, start := Utf16(line), Units(line[..k]);
    assert units[start..start + 2][0] == units[start] && units[start..start + 2][1] == units[start + 1];
  }

  /** Between surrogates is the only place in a line that is no boundary, and such a position goes to the start of its character. */
  lemma BoundaryExactly(line: string, pos: nat, k: nat)
    requires FloorUnits(line, pos, k) && pos <= Units(line)
    ensures OnUnit(line, pos) <==> !SplitsPair(line, pos)
    ensures pos == Units(line[..k]) + if SplitsPair(line, pos) then 1 else 0
  {
    hide SplitsPair;
    assert line[..|line|] == line && line[..0] == "";
    if OnUnit(line, pos) {
      var b :| 0 <= b <= |line| && pos == Units(line[..b]);
      FloorUnique(line, pos, k, b);
      BoundarySplitsNone(line, b);
    } else {
      InsideSplits(line, pos, k);
    }
  }

  // ----- Documents -----

  datatype Position = Position(line: nat, character: nat)

  /** Lines with their newlines. */
  function LinesText(lines: seq<string>): string
  {
    if lines == [] then "" else LinesText(Front(lines)) + Last(lines) + "\n"
  }

  function LinesBytes(lines: seq<string>): nat
  {
    Bytes(LinesText(lines))
  }

  lemma LineStep(lines: seq<string>, i: nat)
    requires i < |lines|
    ensures LinesBytes(lines[..i + 1]) == LinesBytes(lines[..i]) + Bytes(lines[i]) + 1
  {
    assert Front(lines[..i + 1]) == lines[..i];
    EncodedPieces(LinesText(lines[..i]) + lines[i], "\n");
    EncodedPieces(LinesText(lines[..i]), lines[i]);
    assert Utf8("\n") == Utf8Char('\n') + Utf8("\n"[1..]);
  }

  lemma {:induction false} LinesGrow(lines: seq<string>, i: nat, j: nat)
    requires i <= j <= |lines|
    ensures LinesBytes(lines[..i]) <= LinesBytes(lines[..j])
    decreases j
  {
    hide LinesText, Utf8;
    if i < j {
      LineStep(lines, j - 1);
      LinesGrow(lines, i, j - 1);
    }
  }

  /** A place in the document: a line and a number of its characters. */
  ghost predicate IsPlace(lines: seq<string>, line: nat, k: nat)
  {
    line < |lines| && k <= |lines[line]|
  }

  function PlaceOffset(lines: seq<string>, line: nat, k: nat): nat
    requires IsPlace(lines, line, k)
  {
    LinesBytes(lines[..line]) + Bytes(lines[line][..k])
  }

  function PlacePosition(lines: seq<string>, line: nat, k: nat): Position
    requires IsPlace(lines, line, k)
  {
    Position(line, Units(lines[line][..k]))
  }

  /** Positions past the last line give the length of the text with a final newline. */
  method PositionToOffset(lines: seq<string>, pos: Position) returns (offset: nat)
    ensures pos.line < |lines| ==>
      exists k: nat :: FloorUnits(lines[pos.line], pos.character, k) && offset == PlaceOffset(lines, pos.line, k)
    ensures pos.line >= |lines| ==> offset == LinesBytes(lines)
  {
    offset := 0;
    var i := 0;
    while i < pos.line && i < |lines|
      invariant 0 <= i <= pos.line && i <= |lines| && offset == LinesBytes(lines[..i])
    {
      LineStep(lines, i);
      offset := offset + Bytes(lines[i]) + 1;
      i := i + 1;
    }
    if pos.line < |lines| {
      var inLine := Utf16PosToByteOffset(lines[pos.line], pos.character);
      offset := offset + inLine;
    } else {
      assert lines[..|lines|] == lines;
    }
  }

  /** The line an offset falls in, its end counting as its last column; offsets past the text give its end. */
  ghost predicate Locates(lines: seq<string>, offset: int, line: nat, k: nat)
  {
    && IsPlace(lines, line, k)
    && (line > 0 ==> LinesBytes(lines[..line]) <= offset)
    && if offset < LinesBytes(lines[..line + 1])
       then CeilBytes(lines[line], offset - LinesBytes(lines[..line]), k)
       else line == |lines| - 1 && k == |lines[line]|
  }

  method OffsetToPosition(lines: seq<string>, offset: int) returns (pos: Position)
    requires |lines| > 0
    ensures exists k: nat :: Locates(lines, offset, pos.line, k) && pos == PlacePosition(lines, pos.line, k)
  {
    hide Utf8Char, Utf16;
    var currentOffset := 0;
    var line := 0;
    while line < |lines|
      invariant 0 <= line <= |lines| && currentOffset == LinesBytes(lines[..line])
      invariant line > 0 ==> LinesBytes(lines[..line]) <= offset
    {
      var content := lines[line];
      var lineEnd := currentOffset + Bytes(content) + 1;
      LineStep(lines, line);
      if offset < lineEnd {
        var byteInLine := Min(Max(offset - currentOffset, 0), Bytes(content));
        var character := ByteOffsetToUtf16Pos(content, byteInLine);
        ghost var k: nat :| CeilBytes(content, byteInLine, k) && character == Units(content[..k]);
        ClampedCeil(content, offset - currentOffset, k);
        assert Locates(lines, offset, line, k);
        return Position(line, character);
      }
      currentOffset := lineEnd;
      line := line + 1;
    }
    LinesGrow(lines, |lines| - 1, |lines|);
    var last := lines[|lines| - 1];
    var character := ByteOffsetToUtf16Pos(last, Bytes(last));
    ghost var k: nat :| CeilBytes(last, Bytes(last), k) && character == Units(last[..k]);
    assert last[..|last|] == last;
    CeilUnique(last, Bytes(last), k, |last|);
    assert Locates(lines, offset, |lines| - 1, k);
    return Position(|lines| - 1, character);
  }

  lemma ClampedCeil(line: string, offset: int, k: nat)
    requires offset <= Bytes(line) && CeilBytes(line, Min(Max(offset, 0), Bytes(line)), k)
    ensures CeilBytes(line, offset, k)
  {
  }

  /** A place's offset locates that place. */
  lemma PlaceLocated(lines: seq<string>, line: nat, k: nat, line': nat, k': nat)
    requires IsPlace(lines, line, k) && Locates(lines, PlaceOffset(lines, line, k), line', k')
    ensures line' == line && k' == k
  {
    var offset := PlaceOffset(lines, line, k);
    LineStep(lines, line);
    PrefixesGrow(lines[line], k, |lines[line]|);
    assert lines[line][..|lines[line]|] == lines[line];
    if line' < line {
      LinesGrow(lines, line' + 1, line);
    } else if line < line' {
      LinesGrow(lines, line + 1, line');
    }
    CeilUnique(lines[line], offset - LinesBytes(lines[..line]), k', k);
  }

  /** An offset that is a character boundary of the document, line ends included. */
  ghost predicate OnBoundary(lines: seq<string>, offset: int)
  {
    exists line, k :: IsPlace(lines, line, k) && offset == PlaceOffset(lines, line, k)
  }

  /** Whatever the two conversions return, offset to position to offset is the identity exactly on character boundaries of the document. */
  lemma OffsetRoundTrip(lines: seq<string>, offset: int, line: nat, k: nat, k': nat)
    requires Locates(lines, offset, line, k) && FloorUnits(lines[line], PlacePosition(lines, line, k).character, k')
    ensures PlaceOffset(lines, line, k') == offset <==> OnBoundary(lines, offset)
  {
    FloorUnique(lines[line], Units(lines[line][..k]), k', k);
    if OnBoundary(lines, offset) {
      var l, b :| IsPlace(lines, l, b) && offset == PlaceOffset(lines, l, b);
      PlaceLocated(lines, l, b, line, k);
    }
  }

  /** Position to offset to position is the identity exactly on positions in the document that split no surrogate pair. */
  lemma PositionRoundTrip(lines: seq<string>, pos: Position, k: nat, line': nat, k': nat)
    requires pos.line < |lines| && FloorUnits(lines[pos.line], pos.character, k)
    requires Locates(lines, PlaceOffset(lines, pos.line, k), line', k')
    ensures PlacePosition(lines, line', k') == pos <==> OnUnit(lines[pos.line], pos.character)
  {
    PlaceLocated(lines, pos.line, k, line', k');
    if OnUnit(lines[pos.line], pos.character) {
      var b :| 0 <= b <= |lines[pos.line]| && pos.character == Units(lines[pos.line][..b]);
      FloorUnique(lines[pos.line], pos.character, k, b);
    }
  }
}
