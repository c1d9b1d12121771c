/** Text of multi-line string literals before it is spliced back (internal/lexer/lexer.go). */
module TripleQuote {
  import opened Prelude
  import opened LexText

  /** The characters that are not spaces, tabs or line ends. */
  function Solid(s: string): string
  {
    if s == "" then "" else (if IsBlank(s[0]) || s[0] == '\n' || s[0] == '\r' then "" else [s[0]]) + Solid(s[1..])
  }

  lemma {:induction false} SolidJoin(a: string, b: string)
    ensures Solid(a + b) == Solid(a) + Solid(b)
  {
    if a == "" {
      assert a + b == b;
    } else {
      assert (a + b)[1..] == a[1..] + b;
      SolidJoin(a[1..], b);
    }
  }

  lemma {:induction false} SolidCount(s: string, c: char)
    requires c == '"' || c == '\''
    ensures Count(s, c) == Count(Solid(s), c)
  {
    if s != "" {
      SolidCount(s[1..], c);
      CountJoin(if IsBlank(s[0]) || s[0] == '\n' || s[0] == '\r' then "" else [s[0]], Solid(s[1..]), c);
    }
  }

  /** The pieces between newlines. */
  function SplitLines(s: string): (r: seq<string>)
    ensures |r| > 0
  {
    if s == "" then [""]
    else
      var rest := SplitLines(s[1..]);
      if s[0] == '\n' then [""] + rest else [[s[0]] + rest[0]] + rest[1..]
  }

  /** Lines with a newline between each two. */
  function JoinLines(lines: seq<string>): string
  {
    if lines == [] then "" else lines[0] + (if |lines| > 1 then "\n" else "") + JoinLines(lines[1..])
  }

  ghost predicate Unbroken(lines: seq<string>)
  {
    forall i :: 0 <= i < |lines| ==> '\n' !in lines[i]
  }

  /** A line in front, and what follows its end. */
  lemma {:induction false} SplitFirst(line: string, rest: string)
    requires '\n' !in line
    ensures SplitLines(line) == [line] && SplitLines(line + ("\n" + rest)) == [line] + SplitLines(rest)
  {
    if line == "" {
      assert line + ("\n" + rest) == "\n" + rest && ("\n" + rest)[1..] == rest;
    } else {
      SplitFirst(line[1..], rest);
      assert line == [line[0]] + line[1..];
      assert (line + ("\n" + rest))[1..] == line[1..] + ("\n" + rest);
      assert [[line[0]] + line[1..]] + ([line[1..]] + SplitLines(rest))[1..] == [line] + SplitLines(rest);
    }
  }

  /** Lines without line ends in them are exactly the lines of their text. */
  lemma {:induction false} SplitJoined(lines: seq<string>)
    requires lines != [] && Unbroken(lines)
    ensures SplitLines(JoinLines(lines)) == lines
  {
    hide SplitLines;
    var rest := lines[1..];
    assert lines == [lines[0]] + rest && (forall i :: 0 <= i < |rest| ==> rest[i] == lines[i + 1]);
    SplitFirst(lines[0], JoinLines(rest));
    if rest == [] {
      assert JoinLines(lines) == lines[0];
    } else {
      SplitJoined(rest);
      assert JoinLines(lines) == lines[0] + ("\n" + JoinLines(rest));
    }
  }

  /** A text is its lines, joined. */
  lemma {:induction false} JoinedSplit(s: string)
    ensures Unbroken(SplitLines(s)) && JoinLines(SplitLines(s)) == s
  {
    if s != "" {
      JoinedSplit(s[1..]);
      var rest, lines := SplitLines(s[1..]), SplitLines(s);
      assert s == [s[0]] + s[1..];
      assert lines[1..] == if s[0] == '\n' then rest else rest[1..];
    }
  }

  function SolidLines(lines: seq<string>): string
  {
    if lines == [] then "" else Solid(lines[0]) + SolidLines(lines[1..])
  }

  lemma {:induction false} SolidSplit(s: string)
    ensures SolidLines(SplitLines(s)) == Solid(s)
  {
    if s != "" {
      var rest := SplitLines(s[1..]);
      SolidSplit(s[1..]);
      if s[0] == '\n' {
        assert ([""] + rest)[1..] == rest;
      } else {
        assert ([s[0]] + rest[0])[1..] == rest[0];
        assert ([[s[0]] + rest[0]] + rest[1..])[1..] == rest[1..];
      }
    }
  }

  function TrimRight(s: string): string
  {
    if s != "" && (IsBlank(Last(s)) || Last(s) == '\r') then TrimRight(Front(s)) else s
  }

  /** The columns of a line's leading blanks, a tab counting four. */
  function Width(line: string): nat
  {
    if line != "" && IsBlank(line[0]) then (if line[0] == ' ' then 1 else 4) + Width(line[1..]) else 0
  }

  /** The smallest indentation of the lines that are not blank; -1 if all are blank. */
  function LeastIndent(lines: seq<string>): (r: int)
    ensures r >= -1
  {
    if lines == [] then -1
    else
      var least, line := LeastIndent(Front(lines)), Last(lines);
      if TrimRight(line) == "" then least
      else if least < 0 || Width(line) < least then Width(line)
      else least
  }

  /** It is a lower bound that some line reaches. */
  lemma {:induction false} LeastIndentIsLeast(lines: seq<string>)
    ensures var least := LeastIndent(lines);
      && (forall i :: 0 <= i < |lines| && TrimRight(lines[i]) != "" ==> 0 <= least <= Width(lines[i]))
      && (least >= 0 ==> exists i :: 0 <= i < |lines| && TrimRight(lines[i]) != "" && Width(lines[i]) == least)
  {
    if lines != [] {
      LeastIndentIsLeast(Front(lines));
      assert forall i :: 0 <= i < |lines| - 1 ==> Front(lines)[i] == lines[i];
      var least := LeastIndent(lines);
      if least >= 0 && least == LeastIndent(Front(lines)) {
        var i :| 0 <= i < |Front(lines)| && TrimRight(Front(lines)[i]) != "" && Width(Front(lines)[i]) == least;
        assert TrimRight(lines[i]) != "" && Width(lines[i]) == least;
      } else if least >= 0 {
        assert TrimRight(lines[|lines| - 1]) != "" && Width(lines[|lines| - 1]) == least;
      }
    }
  }

  method MinIndent(lines: seq<string>) returns (minIndent: int)
    ensures minIndent == LeastIndent(lines)
  {
    minIndent := -1;
    for k := 0 to |lines|
      invariant minIndent == LeastIndent(lines[..k])
    {
      var line := lines[k];
      assert Front(lines[..k + 1]) == lines[..k] && Last(lines[..k + 1]) == line;
      if TrimRight(line) == "" {
        continue;
      }
      var indent, i := 0, 0;
      while i < |line| && IsBlank(line[i])
        invariant 0 <= i <= |line| && indent >= 0
        invariant indent + Width(line[i..]) == Width(line)
      {
        assert line[i..][1..] == line[i + 1..];
        indent := indent + (if line[i] == ' ' then 1 else 4);
        i := i + 1;
      }
      if minIndent < 0 || indent < minIndent {
        minIndent := indent;
      }
    }
    assert lines[..|lines|] == lines;
  }

  /** A line without its first n columns of blanks; a tab that reaches beyond them goes as a whole. */
  function Stripped(line: string, n: int): string
  {
    if line == "" || n <= 0 || !IsBlank(line[0]) then line else Stripped(line[1..], n - (if line[0] == ' ' then 1 else 4))
  }

  /** A line loses its first blanks: as few as make up the columns, or all of them if they do not. */
  lemma {:induction false} StrippedExactly(line: string, n: int) returns (j: nat)
    ensures j <= |line| && Stripped(line, n) == line[j..] && forall i :: 0 <= i < j ==> IsBlank(line[i])
    ensures j > 0 ==> Width(line[..j - 1]) < n
    ensures Width(line[..j]) >= n || j == |line| || !IsBlank(line[j])
  {
    if line == "" || n <= 0 || !IsBlank(line[0]) {
      j := 0;
    } else {
      var k := StrippedExactly(line[1..], n - (if line[0] == ' ' then 1 else 4));
      j := k + 1;
      assert line[..j] == [line[0]] + line[1..][..k] && line[..j][1..] == line[1..][..k];
      if k > 0 {
        assert line[..k][1..] == line[1..][..k - 1];
      }
    }
  }

  lemma {:induction false} StrippedSolid(line: string, n: int)
    ensures Solid(Stripped(line, n)) == Solid(line)
  {
    if line != "" && n > 0 && IsBlank(line[0]) {
      StrippedSolid(line[1..], n - (if line[0] == ' ' then 1 else 4));
    }
  }

  method StripIndent(line: string, minIndent: int) returns (rest: string)
    ensures rest == Stripped(line, minIndent)
  {
    var stripped, j := 0, 0;
    while j < |line| && stripped < minIndent && IsBlank(line[j])
      invariant 0 <= j <= |line|
      invariant Stripped(line[j..], minIndent - stripped) == Stripped(line, minIndent)
    {
      assert line[j..][1..] == line[j + 1..];
      if line[j] == ' ' {
        stripped := stripped + 1;
      } else if stripped + 4 > minIndent {
        StrippedNone(line[j + 1..], minIndent - stripped - 4);
        stripped := minIndent;
      } else {
        stripped := stripped + 4;
      }
      j := j + 1;
    }
    rest := line[j..];
  }

  lemma StrippedNone(line: string, n: int)
    requires n <= 0
    ensures Stripped(line, n) == line
  {
  }

  /** Lines without their first n columns, joined again. */
  function StrippedLines(lines: seq<string>, n: int): string
  {
    if lines == [] then ""
    else Stripped(lines[0], n) + (if |lines| > 1 then "\n" else "") + StrippedLines(lines[1..], n)
  }

  function StrippedAll(lines: seq<string>, n: int): seq<string>
  {
    seq(|lines|, i requires 0 <= i < |lines| => Stripped(lines[i], n))
  }

  lemma {:induction false} StrippedLinesJoin(lines: seq<string>, n: int)
    ensures StrippedLines(lines, n) == JoinLines(StrippedAll(lines, n))
  {
    if lines != [] {
      StrippedLinesJoin(lines[1..], n);
      assert StrippedAll(lines, n)[1..] == StrippedAll(lines[1..], n);
    }
  }

  lemma {:induction false} StrippedLinesSolid(lines: seq<string>, n: int)
    ensures Solid(StrippedLines(lines, n)) == SolidLines(lines)
  {
    SolidEnds();
    if lines != [] {
      var end := if |lines| > 1 then "\n" else "";
      StrippedSolid(lines[0], n);
      StrippedLinesSolid(lines[1..], n);
      SolidJoin(Stripped(lines[0], n), end);
      SolidJoin(Stripped(lines[0], n) + end, StrippedLines(lines[1..], n));
    }
  }

  lemma SolidEnds()
    ensures Solid("") == "" && Solid("\n") == ""
  {
  }

  /** The text behind the line end that may follow the opening quotes. */
  function DropFirstEnd(text: string): string
  {
    if |text| > 0 && text[0] == '\n' then text[1..] else if |text| > 1 && text[0] == '\r' && text[1] == '\n' then text[2..] else text
  }

  function DropLastEnd(text: string): string
  {
    if |text| > 0 && Last(text) == '\n' then
      var raw := Front(text);
      if |raw| > 0 && Last(raw) == '\r' then Front(raw) else raw
    else text
  }

  /** A multi-line literal's value: first and last line end and the common indentation are removed. */
  function Dedented(text: string): string
  {
    var raw := DropLastEnd(DropFirstEnd(text));
    var least := LeastIndent(SplitLines(raw));
    if least <= 0 then raw else StrippedLines(SplitLines(raw), least)
  }

  /** The lines of a literal's value are those of its text, each without the indentation that all lines with text share. */
  lemma DedentedLines(text: string)
    ensures
      var raw := DropLastEnd(DropFirstEnd(text));
      var lines, out := SplitLines(raw), SplitLines(Dedented(text));
      && |out| == |lines|
      && forall i :: 0 <= i < |lines| ==> out[i] == Stripped(lines[i], LeastIndent(lines))
  {
    hide LeastIndent, SplitLines, Stripped, JoinLines, StrippedLines, Unbroken;
    var raw := DropLastEnd(DropFirstEnd(text));
    var lines := SplitLines(raw);
    var least := LeastIndent(lines);
    forall i | 0 <= i < |lines| && least <= 0
      ensures Stripped(lines[i], least) == lines[i]
    {
      StrippedNone(lines[i], least);
    }
    if least > 0 {
      JoinedSplit(raw);
      StrippedLinesJoin(lines, least);
      StrippedUnbroken(lines, least);
      SplitJoined(StrippedAll(lines, least));
    }
  }

  lemma StrippedUnbroken(lines: seq<string>, n: int)
    requires Unbroken(lines)
    ensures Unbroken(StrippedAll(lines, n))
  {
    forall i | 0 <= i < |lines|
      ensures '\n' !in Stripped(lines[i], n)
    {
      var j := StrippedExactly(lines[i], n);
    }
  }

  predicate AtMostOneEnd(s: string)
  {
    s == "" || s == "\n" || s == "\r\n"
  }

  /** One line end in front is no part of the value. */
  lemma FirstEndDropped(text: string) returns (head: string)
    ensures text == head + DropFirstEnd(text) && AtMostOneEnd(head)
    ensures head == "" ==> text == "" || (text[0] != '\n' && !("\r\n" <= text))
  {
    var first := DropFirstEnd(text);
    head := text[..|text| - |first|];
    if |first| + 2 == |text| {
      assert head == [text[0], text[1]];
    }
  }

  /** And one behind, with the carriage return before it. */
  lemma LastEndDropped(text: string) returns (tail: string)
    ensures text == DropLastEnd(text) + tail && AtMostOneEnd(tail)
    ensures tail == "" ==> text == "" || Last(text) != '\n'
    ensures tail == "\n" ==> DropLastEnd(text) == "" || Last(DropLastEnd(text)) != '\r'
  {
    var raw := DropLastEnd(text);
    tail := text[|raw|..];
    if |raw| + 2 == |text| {
      assert tail == [text[|raw|], text[|raw| + 1]];
    } else if |raw| + 1 == |text| {
      assert tail == [text[|raw|]];
    }
  }

  lemma EndsSolid(text: string)
    ensures Solid(DropFirstEnd(text)) == Solid(text) && Solid(DropLastEnd(text)) == Solid(text)
  {
    SolidEnds();
    if |text| > 1 {
      assert text[1..][1..] == text[2..];
    }
    if |text| > 0 && Last(text) == '\n' {
      var raw := Front(text);
      assert text == raw + "\n";
      SolidJoin(raw, "\n");
      if |raw| > 0 && Last(raw) == '\r' {
        assert raw == Front(raw) + "\r";
        SolidJoin(Front(raw), "\r");
      }
    }
  }

  /** Nothing but blanks and line ends is lost. */
  lemma DedentedSolid(text: string)
    ensures Solid(Dedented(text)) == Solid(text)
  {
    hide Solid;
    var first := DropFirstEnd(text);
    var raw := DropLastEnd(first);
    EndsSolid(text);
    EndsSolid(first);
    SolidSplit(raw);
    StrippedLinesSolid(SplitLines(raw), LeastIndent(SplitLines(raw)));
  }

  method DedentTripleQuote(text: string) returns (out: string)
    ensures out == Dedented(text) && Solid(out) == Solid(text)
  {
    hide Solid, LeastIndent, StrippedLines, SplitLines;
    DedentedSolid(text);
    var raw := text;
    if |raw| > 0 && raw[0] == '\n' {
      raw := raw[1..];
    } else if |raw| > 1 && raw[0] == '\r' && raw[1] == '\n' {
      raw := raw[2..];
    }
    assert raw == DropFirstEnd(text);
    if |raw| > 0 && raw[|raw| - 1] == '\n' {
      raw := raw[..|raw| - 1];
      if |raw| > 0 && raw[|raw| - 1] == '\r' {
        raw := raw[..|raw| - 1];
      }
    }
    var lines := SplitLines(raw);
    var minIndent := MinIndent(lines);
    if minIndent <= 0 {
      return raw;
    }
    out := StripLines(lines, minIndent);
  }

  method StripLines(lines: seq<string>, minIndent: int) returns (out: string)
    ensures out == StrippedLines(lines, minIndent)
  {
    hide Stripped;
    out := "";
    assert lines[0..] == lines;
    for i := 0 to |lines|
      invariant out + StrippedLines(lines[i..], minIndent) == StrippedLines(lines, minIndent)
    {
      assert lines[i..][0] == lines[i] && lines[i..][1..] == lines[i + 1..];
      var line := StripIndent(lines[i], minIndent);
      var end := if i < |lines| - 1 then "\n" else "";
      assert out + (line + end + StrippedLines(lines[i + 1..], minIndent)) == (out + line + end) + StrippedLines(lines[i + 1..], minIndent);
      out := out + line + end;
    }
    assert lines[|lines|..] == [];
  }

  /** The text of a triple-quoted literal, and what follows its closing quotes; to the end of the source if there are none. */
  function TripleText(s: string): (r: (string, string))
    ensures |r.1| <= |s|
  {
    if s == "" then ("", "")
    else if |s| >= 3 && s[..3] == "\"\"\"" then ("", s[3..])
    else Further([s[0]], TripleText(s[1..]))
  }

  /** The text of a single-quoted literal, its escaped quotes plain, and what follows. */
  function SingleText(s: string): (r: (string, string))
    ensures |r.1| <= |s|
  {
    if s == "" then ("", "")
    else if s[0] == '\'' then ("", s[1..])
    else if |s| >= 2 && s[0] == '\\' && s[1] == '\'' then Further("'", SingleText(s[2..]))
    else Further([s[0]], SingleText(s[1..]))
  }

  /** The same literal with text in front. */
  function Further(raw: string, rest: (string, string)): (string, string)
  {
    (raw + rest.0, rest.1)
  }

  /** Content as it is spliced into the source: bare quotes and newlines escaped, carriage returns dropped. */
  function Injected(s: string): string
  {
    if s == "" then ""
    else if s[0] == '\\' && |s| >= 2 then s[..2] + Injected(s[2..])
    else Piece(s[0]) + Injected(s[1..])
  }

  function Piece(ch: char): string
  {
    if ch == '"' then "\\\"" else if ch == '\n' then "\\n" else if ch == '\r' then "" else [ch]
  }

  method Inject(content: string) returns (inject: string)
    ensures inject == Injected(content)
  {
    hide Injected;
    inject := "";
    InjectedNone();
    var i := 0;
    while i < |content|
      invariant 0 <= i <= |content|
      invariant inject + Injected(content[i..]) == Injected(content)
    {
      var ch := content[i];
      InjectStep(inject, content[i..]);
      assert content[i..][0] == ch && |content[i..]| >= 2 <==> i + 1 < |content|;
      assert content[i..][1..] == content[i + 1..];
      if ch == '\\' && i + 1 < |content| {
        assert content[i..][..2] == [ch, content[i + 1]] && content[i..][2..] == content[i + 2..];
        inject := inject + [ch, content[i + 1]];
        i := i + 1;
      } else if ch == '"' {
        inject := inject + "\\\"";
      } else if ch == '\n' {
        inject := inject + "\\n";
      } else if ch == '\r' {
      } else {
        inject := inject + [ch];
      }
      i := i + 1;
    }
    assert content[i..] == "";
  }

  lemma InjectedNone()
    ensures Injected("") == ""
  {
  }

  lemma InjectStep(before: string, s: string)
    requires s != ""
    ensures if s[0] == '\\' && |s| >= 2 then before + Injected(s) == before + s[..2] + Injected(s[2..])
      else before + Injected(s) == before + Piece(s[0]) + Injected(s[1..])
  {
    hide Piece;
    if s[0] == '\\' && |s| >= 2 {
      Associate(before, s[..2], Injected(s[2..]));
    } else {
      Associate(before, Piece(s[0]), Injected(s[1..]));
    }
  }

  lemma Associate(a: string, b: string, c: string)
    ensures a + (b + c) == a + b + c
  {
  }

  /** Splicing adds no quotes of its own. */
  lemma {:induction false} InjectedCount(s: string, c: char)
    requires c == '"' || c == '\''
    ensures Count(Injected(s), c) == Count(s, c)
    decreases |s|
  {
    if s == "" {
    } else if s[0] == '\\' && |s| >= 2 {
      InjectedCount(s[2..], c);
      CountJoin(s[..2], Injected(s[2..]), c);
      CountJoin(s[..2], s[2..], c);
      assert s == s[..2] + s[2..];
    } else {
      InjectedCount(s[1..], c);
      PieceCount(s[0], c);
      CountJoin(Piece(s[0]), Injected(s[1..]), c);
    }
  }

  lemma PieceCount(ch: char, c: char)
    requires c == '"' || c == '\''
    ensures Count(Piece(ch), c) == if ch == c then 1 else 0
  {
    var piece := Piece(ch);
    if |piece| == 1 {
      assert piece[1..] == "";
    } else if |piece| == 2 {
      var second := piece[1..];
      assert second == [piece[1]] && second[1..] == "";
      assert Count(second, c) == (if second[0] == c then 1 else 0) + Count("", c);
      assert Count(piece, c) == (if piece[0] == c then 1 else 0) + Count(second, c);
    }
  }

  /** The spliced text has the quotes of the literal's content and one more double quote. */
  lemma SplicedCounts(raw: string, content: string, after: string)
    requires Solid(content) == Solid(raw)
    ensures var rest := ScanBody(Injected(content) + ("\"" + after), '"', "").rest;
      && Count(rest, '"') <= Count(raw, '"') + 1 + Count(after, '"')
      && Count(rest, '\'') <= Count(raw, '\'') + Count(after, '\'')
  {
    var inject := Injected(content);
    var spliced := inject + ("\"" + after);
    SolidQuotes(raw, content, after, '"');
    SolidQuotes(raw, content, after, '\'');
    BodySuffix(spliced, '"', "");
    var rest := ScanBody(spliced, '"', "").rest;
    assert spliced[0..] == spliced;
    CountSuffix(spliced, 0, |spliced| - |rest|, '"');
    CountSuffix(spliced, 0, |spliced| - |rest|, '\'');
  }

  lemma SolidQuotes(raw: string, content: string, after: string, c: char)
    requires Solid(content) == Solid(raw) && (c == '"' || c == '\'')
    ensures Count(Injected(content) + ("\"" + after), c) == Count(raw, c) + (if c == '"' then 1 else 0) + Count(after, c)
  {
    CountJoin(Injected(content), "\"" + after, c);
    CountJoin("\"", after, c);
    InjectedCount(content, c);
    SolidCount(content, c);
    SolidCount(raw, c);
    assert Count("\"", c) == if c == '"' then 1 else 0;
  }
}
