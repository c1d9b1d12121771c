/**
 Pipe chains in program text: the tokens of a source made of lines, and why a chain
 may be written on one line or over several.
 */
module LayoutText {
  import opened Prelude
  import opened LexText
  import opened Layout
  import opened MergeLines
  import opened LineScan
  import opened PipeLayout

  // ----- A token in front of more text -----

  /** Text that ends whatever stands before it. */
  predicate Stops(y: string)
  {
    y != "" && (y[0] == ' ' || y[0] == '\n')
  }

  lemma {:induction false} BlanksBefore(a: string, y: string)
    requires y != "" && (BlanksEnd(a) < |a| || !IsBlank(y[0]))
    ensures BlanksEnd(a + y) == BlanksEnd(a)
  {
    if a == "" {
      assert a + y == y;
    } else if IsBlank(a[0]) {
      assert (a + y)[1..] == a[1..] + y;
      BlanksBefore(a[1..], y);
    }
  }

  lemma {:induction false} WordBefore(a: string, y: string)
    requires Stops(y)
    ensures WordEnd(a + y) == WordEnd(a)
  {
    if a == "" {
      assert a + y == y;
    } else {
      assert (a + y)[1..] == a[1..] + y;
      WordBefore(a[1..], y);
    }
  }

  lemma {:induction false} DigitsBefore(a: string, y: string, base: nat)
    requires Stops(y)
    ensures DigitsEnd(a + y, base) == DigitsEnd(a, base)
  {
    if a == "" {
      assert a + y == y;
    } else {
      assert (a + y)[1..] == a[1..] + y;
      DigitsBefore(a[1..], y, base);
    }
  }

  lemma {:induction false} CommentBefore(a: string, y: string)
    requires y != "" && y[0] == '\n'
    ensures CommentEnd(a + y) == CommentEnd(a)
  {
    if a == "" {
      assert a + y == y;
    } else {
      assert (a + y)[1..] == a[1..] + y;
      CommentBefore(a[1..], y);
    }
  }

  lemma {:induction false} RawBefore(a: string, y: string)
    requires RawEnd(a).Some?
    ensures RawEnd(a + y) == RawEnd(a)
  {
    assert (a + y)[1..] == a[1..] + y;
    if a[0] != '`' {
      RawBefore(a[1..], y);
    }
  }

  lemma Shift(a: string, y: string, n: nat)
    requires n <= |a|
    ensures (a + y)[n..] == a[n..] + y && (a + y)[..n] == a[..n]
  {
  }

  lemma NumberBefore(a: string, y: string)
    requires a != "" && Stops(y) && NumberEnd(a).Some?
    ensures NumberEnd(a + y) == NumberEnd(a)
  {
    hide DigitsEnd;
    var base := if a[0] == '0' then BaseOf(CharAt(a, 1)) else 0;
    if base != 0 {
      Shift(a, y, 2);
      DigitsBefore(a[2..], y, base);
    } else {
      DecimalBefore(a, y);
    }
  }

  lemma DecimalBefore(a: string, y: string)
    requires a != "" && Stops(y) && !(a[0] == '0' && BaseOf(CharAt(a, 1)) != 0)
    ensures NumberEnd(a + y) == NumberEnd(a)
  {
    hide DigitsEnd, BaseOf, IsDigit, CharAt;
    Shift(a, y, 1);
    DigitsBefore(a[1..], y, 10);
    var n := 1 + DigitsEnd(a[1..], 10);
    CharBefore(a, y, n);
    CharBefore(a, y, 1);
    if n < |a| {
      CharBefore(a, y, n + 1);
      Shift(a, y, n + 1);
      DigitsBefore(a[n + 1..], y, 10);
    }
  }

  /** What stands at a position, or in place of it at the end, is as good as nothing for a number. */
  lemma CharBefore(a: string, y: string, i: nat)
    requires Stops(y) && i <= |a|
    ensures i < |a| ==> CharAt(a + y, i) == CharAt(a, i)
    ensures i == |a| ==> CharAt(a + y, i) == y[0] && CharAt(a, i) == '\0'
    ensures BaseOf(CharAt(a + y, i)) == BaseOf(CharAt(a, i)) && IsDigit(CharAt(a + y, i)) == IsDigit(CharAt(a, i))
    ensures CharAt(a + y, i) == '.' <==> CharAt(a, i) == '.'
  {
  }

  lemma {:induction false} OctalBefore(a: string, y: string, n: nat, more: nat)
    requires Stops(y)
    ensures OctalTail(a + y, n, more) == (OctalTail(a, n, more).0, OctalTail(a, n, more).1 + y)
    decreases more
  {
    if a == "" {
      assert a + y == y;
    } else if more > 0 && IsOctal(a[0]) {
      assert (a + y)[1..] == a[1..] + y;
      OctalBefore(a[1..], y, n * 8 + ((a[0] as int) - ('0' as int)), more - 1);
    }
  }

  lemma EscapeBefore(a: string, y: string)
    requires Stops(y) && ScanEscape(a).rest != "" && ScanEscape(a).errors == 0
    ensures ScanEscape(a + y) == ScanEscape(a).(rest := ScanEscape(a).rest + y)
  {
    hide OctalTail;
    Shift(a, y, 1);
    if IsOctal(a[0]) {
      OctalBefore(a[1..], y, (a[0] as int) - ('0' as int), 2);
    } else if |a| >= 3 {
      Shift(a[1..], y, 2);
    }
  }

  lemma {:induction false} BodyBefore(a: string, y: string, quote: char, value: string)
    requires Stops(y)
    requires var r := ScanBody(a, quote, value); !r.end.Broken? && r.errors == 0
    ensures ScanBody(a + y, quote, value) == ScanBody(a, quote, value).(rest := ScanBody(a, quote, value).rest + y)
    decreases |a|
  {
    hide ScanEscape;
    Shift(a, y, 1);
    if a[0] == quote {
    } else if a[0] == '\n' {
      BodyBefore(a[1..], y, quote, value + "\n");
    } else if a[0] == '\\' {
      var e := ScanEscape(a[1..]);
      EscapeBefore(a[1..], y);
      BodyBefore(e.rest, y, quote, value + e.text);
    } else if !InterpStart(a) {
      BodyBefore(a[1..], y, quote, value + [a[0]]);
    }
  }

  /** The same token or blanks, and the same mode, with more text behind. */
  function With(t: Option<Taken>, y: string): Option<Taken>
  {
    if t.Some? then Some(t.value.(rest := t.value.rest + y)) else None
  }

  lemma TakeBefore(a: string, y: string, n: nat, kind: Kind, m: Mode)
    requires n <= |a|
    ensures Some(Take(a + y, n, kind, m)) == With(Some(Take(a, n, kind, m)), y)
  {
    hide KeywordAfter;
    Shift(a, y, n);
  }

  lemma TakeStringBefore(a: string, y: string, m: Mode)
    requires a != "" && Stops(y) && TakeString(a, m).Some?
    ensures TakeString(a + y, m) == With(TakeString(a, m), y)
  {
    hide ScanBody;
    Shift(a, y, 1);
    var s := a[1..];
    if s != "" && s[0] == '"' {
      Shift(s, y, 1);
    } else {
      BodyBefore(s, y, '"', "");
    }
  }

  lemma TakeCloseBefore(a: string, y: string, m: Mode)
    requires a != "" && Stops(y) && TakeCloseBrace(a, m).Some?
    ensures TakeCloseBrace(a + y, m) == With(TakeCloseBrace(a, m), y)
  {
    hide ScanBody, Take, Bumped;
    Shift(a, y, 1);
    if m.interps != [] && Last(m.interps).braceDepth == 0 {
      BodyBefore(a[1..], y, Last(m.interps).quote, "");
    } else if m.braceStack != [] && Last(m.braceStack) {
      TakeBefore(a, y, 1, Dedent, m.(interps := Bumped(m.interps, -1), braceStack := Front(m.braceStack)));
    } else {
      TakeBefore(a, y, 1, Symbol, m.(
        interps := Bumped(m.interps, -1),
        braceStack := if m.braceStack == [] then [] else Front(m.braceStack),
        braces := if m.braces > 0 then m.braces - 1 else 0));
    }
  }

  lemma TakeBracketBefore(a: string, y: string, m: Mode)
    requires a != "" && Stops(y) && TakeBracket(a, m).Some?
    ensures TakeBracket(a + y, m) == With(TakeBracket(a, m), y)
  {
    hide TakeCloseBrace, Bumped, KeywordAfter;
    Shift(a, y, 1);
    if a[0] == '}' {
      TakeCloseBefore(a, y, m);
    }
  }

  lemma TakeOtherBefore(a: string, y: string, m: Mode)
    requires a != "" && Stops(y) && TakeOther(a, m).Some?
    ensures TakeOther(a + y, m) == With(TakeOther(a, m), y)
  {
    hide NumberEnd, WordEnd, Take;
    if IsDigit(a[0]) {
      NumberBefore(a, y);
      TakeBefore(a, y, NumberEnd(a).value.1, NumberEnd(a).value.0, m);
    } else if IsAlpha(a[0]) {
      WordBefore(a, y);
      TakeBefore(a, y, WordEnd(a), Word, m);
    } else {
      assert Combine(a[0], CharAt(a + y, 1)) == Combine(a[0], CharAt(a, 1));
      TakeBefore(a, y, if Combine(a[0], CharAt(a, 1)) then 2 else 1, Symbol, m);
    }
  }

  /** A scanning step does not depend on what stands behind a blank or a line end; only blanks and comments could go on. */
  lemma NextBefore(a: string, y: string, m: Mode)
    requires a != "" && Stops(y) && Next(a, m).Some?
    requires IsBlank(a[0]) ==> BlanksEnd(a) < |a| || y[0] == '\n'
    requires a[0] == '#' ==> y[0] == '\n'
    ensures Next(a + y, m) == With(Next(a, m), y)
  {
    hide BlanksEnd, CommentEnd, CommentKind, Take, TakeString, RawEnd, TakeBracket, TakeOther;
    var c := a[0];
    if IsBlank(c) {
      BlanksBefore(a, y);
      Shift(a, y, BlanksEnd(a));
    } else if c == '#' {
      CommentBefore(a, y);
      TakeBefore(a, y, CommentEnd(a), CommentKind(a[..CommentEnd(a)]), m);
      Shift(a, y, CommentEnd(a));
    } else if c == '"' {
      TakeStringBefore(a, y, m);
    } else if c == '`' {
      Shift(a, y, 1);
      RawBefore(a[1..], y);
      RawPieces(a, y);
    } else if IsBracket(c) {
      TakeBracketBefore(a, y, m);
    } else {
      TakeOtherBefore(a, y, m);
    }
  }

  lemma RawPieces(a: string, y: string)
    requires a != ""
    ensures forall n :: 0 <= n < |a[1..]| ==> (a[1..] + y)[..n] == a[1..][..n] && (a[1..] + y)[n + 1..] == a[1..][n + 1..] + y
  {
  }

  // ----- Lines -----

  /** The tokens of a line's text, and the mode at its end. */
  datatype Scanned = Scanned(toks: seq<Token>, mode: Mode)

  function ScanLine(s: string, m: Mode): Option<Scanned>
    decreases |s|
  {
    if s == "" then Some(Scanned([], m))
    else
      var t := Next(s, m);
      if t.Some? then Behind(t.value.toks, ScanLine(t.value.rest, t.value.mode)) else None
  }

  function Behind(toks: seq<Token>, r: Option<Scanned>): Option<Scanned>
  {
    if r.Some? then Some(Scanned(toks + r.value.toks, r.value.mode)) else None
  }

  lemma BehindTwice(a: seq<Token>, b: seq<Token>, r: Option<Scanned>)
    ensures Behind(a, Behind(b, r)) == Behind(a + b, r)
  {
    if r.Some? {
      assert a + (b + r.value.toks) == a + b + r.value.toks;
    }
  }

  lemma ScanLineStep(s: string, m: Mode)
    requires s != ""
    ensures ScanLine(s, m) == if Next(s, m).Some? then Behind(Next(s, m).value.toks, ScanLine(Next(s, m).value.rest, Next(s, m).value.mode)) else None
  {
  }

  /** A step outside a comment takes no comment, and outside blanks one token. */
  lemma OneToken(s: string, m: Mode)
    requires s != "" && Next(s, m).Some?
    ensures var toks := Next(s, m).value.toks;
      if IsBlank(s[0]) then toks == [] else |toks| == 1 && (IsRemark(toks[0]) <==> s[0] == '#')
  {
    hide BlanksEnd, CommentEnd, RawEnd, WordEnd, Combine, ScanBody, DigitsEnd, KeywordAfter, Bumped;
  }

  /** No comment, and no blank at the end: text another text can be put behind. */
  predicate Open(a: string, m: Mode)
  {
    && ScanLine(a, m).Some? && (a == "" || !IsBlank(Last(a)))
    && forall i :: 0 <= i < |ScanLine(a, m).value.toks| ==> !IsRemark(ScanLine(a, m).value.toks[i])
  }

  /** A step in such text leaves such text, and is no comment. */
  lemma StepOpen(a: string, m: Mode)
    requires a != "" && Open(a, m)
    ensures Next(a, m).Some? && a[0] != '#' && Open(Next(a, m).value.rest, Next(a, m).value.mode)
  {
    hide Next, ScanLine, IsRemark, BlanksEnd;
    ScanLineStep(a, m);
    var t := Next(a, m).value;
    var rest := ScanLine(t.rest, t.mode).value;
    OneToken(a, m);
    RestEnds(a, m);
    FrontToks(t.toks, rest.toks);
  }

  lemma FrontToks(a: seq<Token>, b: seq<Token>)
    requires forall i :: 0 <= i < |a + b| ==> !IsRemark((a + b)[i])
    ensures (forall i :: 0 <= i < |b| ==> !IsRemark(b[i])) && (a != [] ==> !IsRemark(a[0]))
  {
    assert forall i :: 0 <= i < |b| ==> b[i] == (a + b)[|a| + i];
    assert a != [] ==> (a + b)[0] == a[0];
  }

  /** A step in such text is the same with another text behind. */
  lemma StepBefore(a: string, y: string, m: Mode)
    requires a != "" && Open(a, m) && Stops(y)
    ensures Next(a, m).Some? && Next(a + y, m) == With(Next(a, m), y)
    ensures var t := Next(a, m).value; Open(t.rest, t.mode)
  {
    hide Next, ScanLine, IsRemark, BlanksEnd, Stops;
    StepOpen(a, m);
    RestEnds(a, m);
    NextBefore(a, y, m);
  }

  /** Text that scans to a line's end goes on as the text behind it does. */
  lemma {:induction false} ScanLineJoin(a: string, y: string, m: Mode)
    requires Open(a, m) && Stops(y)
    ensures ScanLine(a + y, m) == Behind(ScanLine(a, m).value.toks, ScanLine(y, ScanLine(a, m).value.mode))
    decreases |a|
  {
    hide Next, ScanLine, Stops, IsBlank, IsRemark;
    if a == "" {
      assert a + y == y;
      EmptyText(y, m);
    } else {
      ScanLineStep(a, m);
      ScanLineStep(a + y, m);
      StepBefore(a, y, m);
      var t := Next(a, m).value;
      ScanLineJoin(t.rest, y, t.mode);
      var rest := ScanLine(t.rest, t.mode).value;
      BehindTwice(t.toks, rest.toks, ScanLine(y, rest.mode));
    }
  }

  lemma EmptyText(y: string, m: Mode)
    ensures ScanLine("", m) == Some(Scanned([], m)) && Behind([], ScanLine(y, m)) == ScanLine(y, m)
  {
    var r := ScanLine(y, m);
    assert r.Some? ==> [] + r.value.toks == r.value.toks;
  }

  /** What a step leaves is the end of the text, so blanks in front of a last character that is none do not reach the end. */
  lemma RestEnds(s: string, m: Mode)
    requires s != "" && Next(s, m).Some? && !IsBlank(Last(s))
    ensures var rest := Next(s, m).value.rest; rest == "" || !IsBlank(Last(rest))
    ensures IsBlank(s[0]) ==> BlanksEnd(s) < |s|
  {
    NextSuffix(s, m);
    if IsBlank(s[0]) && BlanksEnd(s) == |s| {
      AllBlank(s);
    }
  }

  lemma {:induction false} AllBlank(s: string)
    requires s != "" && BlanksEnd(s) == |s|
    ensures IsBlank(Last(s))
  {
    if |s| > 1 {
      AllBlank(s[1..]);
    }
  }

  /** What may open a closure's body at the end of a line's text. */
  function Beyond(s: string, m: Mode, g: Margin): (r: Margin)
    ensures SameLine(r) == SameLine(g)
    decreases |s|
  {
    if s == "" then g
    else
      var t := Next(s, m);
      if t.Some? then Beyond(t.value.rest, t.value.mode, Noted(g, t.value.toks)) else g
  }

  /** Text that scans, before a line end or open to more text: the lexer makes its tokens of it, and goes on behind it. */
  lemma {:induction false} LineScans(a: string, m: Mode, g: Margin, y: string, last: string)
    requires ScanLine(a, m).Some? && g.indents != [] && Stops(y) && (y[0] == '\n' || Open(a, m))
    ensures ScanRest(a + y, m, g, last) == Before(ScanLine(a, m).value.toks, ScanRest(y, ScanLine(a, m).value.mode, Beyond(a, m, g), ""))
    decreases |a|
  {
    hide Next, NextAny, ScanLine, ScanRest, ScanLines, Before, Noted, Open, LastText;
    if a == "" {
      assert a + y == y;
      EmptyText(y, m);
      AnyLast(y, m, g, last, "");
      BeforeEmpty(ScanRest(y, m, g, ""));
    } else {
      ScanLineStep(a, m);
      var t := Next(a, m).value;
      if y[0] == '\n' {
        NextBefore(a, y, m);
      } else {
        StepBefore(a, y, m);
      }
      var rest := ScanLine(t.rest, t.mode).value;
      StepScans(a, m, g, y, last);
      NotedIndents(g, t.toks);
      LineScans(t.rest, t.mode, Noted(g, t.toks), y, LastText(a + y, m));
      BeforeTwice(t.toks, rest.toks, ScanRest(y, rest.mode, Beyond(a, m, g), ""));
    }
  }

  lemma NotedIndents(g: Margin, toks: seq<Token>)
    ensures Noted(g, toks).indents == g.indents
  {
  }

  /** The first step of a line. */
  lemma StepScans(a: string, m: Mode, g: Margin, y: string, last: string)
    requires a != "" && Next(a, m).Some? && g.indents != [] && Next(a + y, m) == With(Next(a, m), y)
    ensures var t := Next(a, m).value;
      ScanRest(a + y, m, g, last) == Before(t.toks, ScanRest(t.rest + y, t.mode, Noted(g, t.toks), LastText(a + y, m)))
  {
    hide Next, NextAny, ScanRest, Before, Noted, LastText;
    if LineEnd(a) > 0 {
      NoReturns(a, m);
    }
    NextIsAny(a + y, m);
    RestStep(a + y, m, g, last);
  }

  // ----- Sources -----

  /** A line of a source: its leading spaces, and its text from there on. */
  datatype TextLine = TextLine(indent: nat, text: string)

  function Source(lines: seq<TextLine>): string
  {
    if lines == [] then "" else Spaces(lines[0].indent) + (lines[0].text + ("\n" + Source(lines[1..])))
  }

  /** The line's text scans by itself, with nothing left open. */
  predicate Complete(line: TextLine)
  {
    (line.text == "" || !IsBlank(line.text[0])) && ScanLine(line.text, AT_REST).Some? && Rests(ScanLine(line.text, AT_REST).value.mode)
  }

  function LineOf(line: TextLine): SourceLine
  {
    var r := ScanLine(line.text, AT_REST);
    SourceLine(line.indent, if r.Some? then r.value.toks else [])
  }

  function LinesOf(lines: seq<TextLine>): (r: seq<SourceLine>)
    ensures |r| == |lines|
  {
    seq(|lines|, i requires 0 <= i < |lines| => LineOf(lines[i]))
  }

  /** Every line's indentation is legal from the levels open then. */
  predicate Indented(indents: seq<int>, lines: seq<SourceLine>)
    requires |indents| > 0
    decreases |lines|
  {
    lines == []
    || (if Idle(lines[0]) then Indented(indents, lines[1..])
        else GoodIndent(indents, lines[0].indent) && Indented(StackAfter(indents, lines[0].indent, false), lines[1..]))
  }

  lemma LinesStepOf(lines: seq<TextLine>)
    requires lines != []
    ensures LinesOf(lines)[0] == LineOf(lines[0]) && LinesOf(lines)[1..] == LinesOf(lines[1..])
  {
  }

  lemma {:induction false} SpacesEnd(n: nat, s: string)
    requires s != "" && !IsBlank(s[0])
    ensures BlanksEnd(Spaces(n) + s) == n && '\t' !in (Spaces(n) + s)[..n]
    decreases n
  {
    if n == 0 {
      assert Spaces(n) + s == s;
    } else {
      SpacesEnd(n - 1, s);
      assert (Spaces(n) + s)[1..] == Spaces(n - 1) + s;
    }
  }

  /** A line's start: its spaces are consumed and do to the levels what they must. */
  lemma LineStarts(line: TextLine, indents: seq<int>, more: string)
    requires Complete(line) && |indents| > 0 && (Idle(LineOf(line)) || GoodIndent(indents, line.indent))
    ensures var body := line.text + ("\n" + more);
      LineStart(Spaces(line.indent) + body, AT_REST, Flush(indents)) == Some(
        if Idle(LineOf(line)) then Started([], Flush(indents), body)
        else
          var after := StackAfter(indents, line.indent, false);
          Started(StepTokens(|indents|, |after|, Spaces(line.indent)), Flush(after), body))
  {
    hide ScanLine, Next, Rests, StackAfter, StepTokens, BadIndent, BlanksEnd, MarginAfter;
    var body := line.text + ("\n" + more);
    SpacesEnd(line.indent, body);
    assert (Spaces(line.indent) + body)[line.indent..] == body && (Spaces(line.indent) + body)[..line.indent] == Spaces(line.indent);
    FirstOf(line);
    FlushAfter(indents, line.indent);
  }

  /** Without closures only the levels change. */
  lemma FlushAfter(indents: seq<int>, spaces: nat)
    requires |indents| > 0
    ensures MarginAfter(Flush(indents), 0, spaces) == Flush(StackAfter(indents, spaces, false))
  {
    FlushOut(indents, spaces);
  }

  lemma {:induction false} FlushOut(indents: seq<int>, spaces: int)
    ensures Outdented(Flush(indents), spaces) == Flush(Popped(indents, spaces))
  {
    if |indents| > 1 && Last(indents) > spaces {
      FlushOut(Front(indents), spaces);
    }
  }

  /** A line is idle exactly when its text is empty or a comment. */
  lemma FirstOf(line: TextLine)
    requires Complete(line)
    ensures Idle(LineOf(line)) <==> line.text == "" || line.text[0] == '#'
    ensures line.text != "" ==> line.text[0] != '\r' && line.text[0] != '\n'
    ensures Idle(LineOf(line)) ==> |LineOf(line).toks| <= 1
  {
    hide Next, Rests, IsRemark;
    if line.text == "" {
      EmptyText("", AT_REST);
    } else {
      ScanLineStep(line.text, AT_REST);
      OneToken(line.text, AT_REST);
      if line.text[0] == '\r' || line.text[0] == '\n' {
        NoReturns(line.text, AT_REST);
      }
      if line.text[0] == '#' {
        CommentLine(line.text);
      }
    }
  }

  /** A comment reaches to the end of the line's text. */
  lemma CommentLine(s: string)
    requires s != "" && s[0] == '#' && ScanLine(s, AT_REST).Some?
    ensures |ScanLine(s, AT_REST).value.toks| == 1
  {
    hide Next;
    ScanLineStep(s, AT_REST);
    OneToken(s, AT_REST);
    var t := Next(s, AT_REST).value;
    CommentRest(s, AT_REST);
    if t.rest != "" {
      NoReturns(t.rest, t.mode);
      ScanLineStep(t.rest, t.mode);
    }
  }

  lemma CommentRest(s: string, m: Mode)
    requires s != "" && s[0] == '#'
    ensures Next(s, m).Some? && (Next(s, m).value.rest == "" || Next(s, m).value.rest[0] == '\n')
  {
    CommentStops(s);
  }

  lemma {:induction false} CommentStops(s: string)
    ensures CommentEnd(s) < |s| ==> s[CommentEnd(s)] == '\n'
  {
    if s != "" && s[0] != '\n' {
      CommentStops(s[1..]);
    }
  }

  /** A source of complete, well indented lines scans to the tokens of its lines with the layout tokens between them. */
  lemma {:induction false} SourceScans(lines: seq<TextLine>, indents: seq<int>, last: string)
    requires |indents| > 0 && (forall i :: 0 <= i < |lines| ==> Complete(lines[i])) && Indented(indents, LinesOf(lines))
    ensures ScanLines(Source(lines), AT_REST, Flush(indents), last) == Some(Emit(indents, LinesOf(lines), if lines == [] then last else "\n"))
    decreases |lines|
  {
    hide Complete, LineOf, LinesOf, ScanLines, ScanRest, LineStart, Before, StackAfter, GoodIndent;
    if lines == [] {
      NoLines(indents, last);
    } else {
      var line, more := lines[0], Source(lines[1..]);
      var toks := LineOf(line).toks;
      LinesStepOf(lines);
      var after := if Idle(LineOf(line)) then indents else StackAfter(indents, line.indent, false);
      SameIndent(line);
      LineStarts(line, indents, more);
      LinesStep(Source(lines), AT_REST, Flush(indents), last);
      CompleteScans(line, after, more, Source(lines)[..BlanksEnd(Source(lines))]);
      SourceScans(lines[1..], after, "\n");
      var rest := Emit(after, LinesOf(lines[1..]), "\n");
      var steps := if Idle(LineOf(line)) then [] else StepTokens(|indents|, |after|, Spaces(line.indent));
      Pieces(steps, toks, rest);
      if lines[1..] == [] {
        assert Emit(after, LinesOf(lines[1..]), "\n") == rest;
      }
    }
  }

  lemma Pieces(steps: seq<Token>, toks: seq<Token>, rest: seq<Token>)
    ensures Before(steps, Before(toks + [NEWLINE], Some(rest))) == Some(steps + (toks + ([NEWLINE] + rest)))
    ensures [] + (toks + ([NEWLINE] + rest)) == toks + ([NEWLINE] + rest)
  {
    assert steps + (toks + [NEWLINE] + rest) == steps + (toks + ([NEWLINE] + rest));
  }

  lemma NoLines(indents: seq<int>, last: string)
    requires |indents| > 0
    ensures ScanLines("", AT_REST, Flush(indents), last) == Some(Emit(indents, LinesOf([]), last))
  {
  }

  lemma SameIndent(line: TextLine)
    ensures LineOf(line).indent == line.indent
  {
  }

  lemma CompleteScans(line: TextLine, indents: seq<int>, more: string, last: string)
    requires Complete(line) && |indents| > 0
    ensures ScanRest(line.text + ("\n" + more), AT_REST, Flush(indents), last)
      == Before(LineOf(line).toks + [NEWLINE], ScanLines(more, AT_REST, Flush(indents), "\n"))
  {
    hide ScanLine, ScanRest, ScanLines, Before, Beyond;
    var y := "\n" + more;
    var m, g := ScanLine(line.text, AT_REST).value.mode, Beyond(line.text, AT_REST, Flush(indents));
    LineScans(line.text, AT_REST, Flush(indents), y, last);
    assert y[..1] == "\n" && y[1..] == more;
    RestStep(y, m, g, "");
    assert NewLine(m, g) == Flush(indents);
    BeforeTwice(LineOf(line).toks, [NEWLINE], ScanLines(more, AT_REST, Flush(indents), "\n"));
  }

  // ----- A chain in two layouts -----

  /** The tokens the parser gets: the scan, and the pass that joins lines. */
  function TokensOf(source: string): Option<seq<Token>>
  {
    var scanned := ScanProgram(source);
    if scanned.Some? then Some(Merge(scanned.value, 0, false).out) else None
  }

  /** A stage of a chain as text: no blanks at its ends, no comment, and nothing left open at its end. */
  predicate StageText(s: string)
  {
    && s != "" && !IsBlank(s[0]) && !IsBlank(Last(s))
    && ScanLine(s, AT_REST).Some? && ScanLine(s, AT_REST).value.mode == AT_REST
    && Stage(ScanLine(s, AT_REST).value.toks)
  }

  function StageToks(stages: seq<string>): (r: seq<seq<Token>>)
    ensures |r| == |stages|
  {
    seq(|stages|, i requires 0 <= i < |stages| => LineOf(TextLine(0, stages[i])).toks)
  }

  /** The later stages behind their pipes on the first stage's line. */
  function PipedText(stages: seq<string>): string
  {
    if stages == [] then "" else " |> " + stages[0] + PipedText(stages[1..])
  }

  function OneLineText(first: string, others: seq<string>, indent: nat): seq<TextLine>
  {
    [TextLine(indent, first + PipedText(others))]
  }

  /** Every later stage behind its pipe on a line of its own. */
  function StageTextLines(others: seq<string>, indent: nat): (r: seq<TextLine>)
    ensures |r| == |others|
  {
    seq(|others|, i requires 0 <= i < |others| => TextLine(indent, "|> " + others[i]))
  }

  function MultiLineText(first: string, others: seq<string>, indent: nat): seq<TextLine>
  {
    [TextLine(indent, first)] + StageTextLines(others, indent + 4)
  }

  lemma StageToksStep(stages: seq<string>)
    requires stages != []
    ensures StageToks(stages) == [LineOf(TextLine(0, stages[0])).toks] + StageToks(stages[1..])
  {
    assert StageToks(stages)[1..] == StageToks(stages[1..]);
  }

  /** A pipe and a blank in front of a text. */
  lemma PipeInFront(s: string)
    requires s != "" && !IsBlank(s[0])
    ensures ScanLine("|> " + s, AT_REST) == Behind([PIPE], ScanLine(s, AT_REST))
    ensures ScanLine(" |> " + s, AT_REST) == Behind([PIPE], ScanLine(s, AT_REST))
  {
    hide ScanLine, Next;
    var piped, blank, spaced := "|> " + s, " " + s, " |> " + s;
    assert piped[2..] == blank && piped[..2] == "|>" && blank[1..] == s && spaced[1..] == piped;
    NextPipe(piped);
    NextBlank(blank);
    NextBlank(spaced);
    ScanLineStep(piped, AT_REST);
    ScanLineStep(blank, AT_REST);
    ScanLineStep(spaced, AT_REST);
    BehindTwice([PIPE], [], ScanLine(s, AT_REST));
    BehindTwice([], [PIPE], ScanLine(s, AT_REST));
    assert [PIPE] + [] == [PIPE] && [] + [PIPE] == [PIPE];
  }

  lemma NextPipe(s: string)
    requires |s| >= 2 && s[0] == '|' && s[1] == '>'
    ensures Next(s, AT_REST) == Some(Taken([PIPE], s[2..], AT_REST))
  {
    hide TakeBracket, TakeNumber, TakeString;
    assert s[..2] == "|>" && Combine(s[0], CharAt(s, 1));
  }

  lemma NextBlank(s: string)
    requires |s| >= 2 && s[0] == ' ' && !IsBlank(s[1])
    ensures Next(s, AT_REST) == Some(Taken([], s[1..], AT_REST))
  {
    hide TakeBracket, TakeOther, TakeString;
    assert BlanksEnd(s[1..]) == 0;
  }

  /** The chain's one line scans to its stages joined by pipes. */
  lemma {:induction false} OneLineScans(first: string, others: seq<string>)
    requires StageText(first) && forall i :: 0 <= i < |others| ==> StageText(others[i])
    ensures ScanLine(first + PipedText(others), AT_REST)
      == Some(Scanned(ScanLine(first, AT_REST).value.toks + PipedStages(StageToks(others)), AT_REST))
    decreases |others|
  {
    hide ScanLine;
    var toks := ScanLine(first, AT_REST).value.toks;
    if others == [] {
      assert first + PipedText(others) == first;
      assert toks + PipedStages(StageToks(others)) == toks;
    } else {
      var tail := others[0] + PipedText(others[1..]);
      assert PipedText(others) == " |> " + tail;
      OneLineScans(others[0], others[1..]);
      StageToksStep(others);
      var second := LineOf(TextLine(0, others[0])).toks;
      StagesStep(second, StageToks(others[1..]));
      PipeInFront(tail);
      ScanLineJoin(first, " |> " + tail, AT_REST);
    }
  }

  lemma StagesStep(first: seq<Token>, others: seq<seq<Token>>)
    ensures PipedStages([first] + others) == [PIPE] + (first + PipedStages(others))
  {
    assert ([first] + others)[1..] == others;
    assert [PIPE] + first + PipedStages(others) == [PIPE] + (first + PipedStages(others));
  }

  /** The lines of the multi-line layout. */
  lemma {:induction false} StageLinesScan(others: seq<string>, indent: nat)
    requires forall i :: 0 <= i < |others| ==> StageText(others[i])
    ensures LinesOf(StageTextLines(others, indent)) == StageLines(StageToks(others), indent)
    ensures forall i :: 0 <= i < |others| ==> Complete(StageTextLines(others, indent)[i]) && !Idle(LineOf(StageTextLines(others, indent)[i]))
    decreases |others|
  {
    hide ScanLine, Stage;
    if others != [] {
      var lines := StageTextLines(others, indent);
      assert lines[1..] == StageTextLines(others[1..], indent);
      StageLinesScan(others[1..], indent);
      StageToksStep(others);
      LinesStepOf(lines);
      PipeInFront(others[0]);
      assert LinesOf(lines) == [LinesOf(lines)[0]] + LinesOf(lines)[1..];
      forall i | 0 <= i < |others|
        ensures Complete(lines[i]) && !Idle(LineOf(lines[i]))
      {
        if i > 0 {
          assert lines[i] == lines[1..][i - 1];
        }
      }
    }
  }

  // ----- The chain in its source -----

  lemma LinesJoin(a: seq<TextLine>, b: seq<TextLine>)
    ensures LinesOf(a + b) == LinesOf(a) + LinesOf(b)
  {
  }

  /** The levels open behind lines, and the tokens of lines with others behind them. */
  function AfterLines(stack: seq<int>, lines: seq<SourceLine>): (r: seq<int>)
    requires |stack| > 0
    ensures |r| > 0
    decreases |lines|
  {
    if lines == [] then stack
    else AfterLines(if Idle(lines[0]) then stack else StackAfter(stack, lines[0].indent, false), lines[1..])
  }

  function EmitFront(stack: seq<int>, lines: seq<SourceLine>): seq<Token>
    requires |stack| > 0
    decreases |lines|
  {
    if lines == [] then []
    else if Idle(lines[0]) then lines[0].toks + ([NEWLINE] + EmitFront(stack, lines[1..]))
    else
      var after := StackAfter(stack, lines[0].indent, false);
      StepTokens(|stack|, |after|, Spaces(lines[0].indent)) + (lines[0].toks + ([NEWLINE] + EmitFront(after, lines[1..])))
  }

  lemma {:induction false} EmitSplit(stack: seq<int>, pre: seq<SourceLine>, lines: seq<SourceLine>, eof: string)
    requires |stack| > 0
    ensures Emit(stack, pre + lines, eof) == EmitFront(stack, pre) + Emit(AfterLines(stack, pre), lines, eof)
    decreases |pre|
  {
    hide StackAfter, StepTokens;
    if pre == [] {
      assert pre + lines == lines;
    } else {
      assert (pre + lines)[1..] == pre[1..] + lines;
      EmitSplit(if Idle(pre[0]) then stack else StackAfter(stack, pre[0].indent, false), pre[1..], lines, eof);
    }
  }

  lemma {:induction false} IndentedSplit(stack: seq<int>, pre: seq<SourceLine>, lines: seq<SourceLine>)
    requires |stack| > 0
    ensures Indented(stack, pre + lines) <==> Indented(stack, pre) && Indented(AfterLines(stack, pre), lines)
    decreases |pre|
  {
    hide StackAfter, GoodIndent;
    if pre == [] {
      assert pre + lines == lines;
    } else {
      assert (pre + lines)[1..] == pre[1..] + lines;
      IndentedSplit(if Idle(pre[0]) then stack else StackAfter(stack, pre[0].indent, false), pre[1..], lines);
    }
  }

  lemma {:induction false} PoppedLevels(stack: seq<int>, n: int)
    requires Levels(stack)
    ensures Levels(Popped(stack, n))
    decreases |stack|
  {
    if |stack| > 1 && Last(stack) > n {
      PopLevel(stack);
      PoppedLevels(Front(stack), n);
    }
  }

  lemma BaseLevel()
    ensures Levels([0])
  {
  }

  lemma StackLevels(stack: seq<int>, n: int)
    requires Levels(stack)
    ensures |stack| > 0 && Levels(StackAfter(stack, n, false))
  {
    PoppedLevels(stack, n);
    if n > Last(stack) && n % 4 == 0 {
      PushLevel(stack, n);
    }
  }

  lemma {:induction false} AfterLevels(stack: seq<int>, lines: seq<SourceLine>)
    requires Levels(stack)
    ensures |stack| > 0 && Levels(AfterLines(stack, lines))
    decreases |lines|
  {
    hide Levels, StackAfter;
    TopNotNegative(stack);
    if lines != [] {
      StackLevels(stack, lines[0].indent);
      AfterLevels(if Idle(lines[0]) then stack else StackAfter(stack, lines[0].indent, false), lines[1..]);
    }
  }

  /** A legal line is at the top of the levels behind its start. */
  lemma AtTop(stack: seq<int>, n: nat)
    requires Levels(stack) && GoodIndent(stack, n)
    ensures Last(StackAfter(stack, n, false)) == n
  {
  }

  /** A line's start is a step of its own. */
  lemma EmitStart(stack: seq<int>, line: SourceLine, more: seq<SourceLine>, eof: string)
    requires Levels(stack) && GoodIndent(stack, line.indent) && !Idle(line)
    ensures var after := StackAfter(stack, line.indent, false);
      Emit(stack, [line] + more, eof) == StepTokens(|stack|, |after|, Spaces(line.indent)) + Emit(after, [line] + more, eof)
  {
    hide StackAfter, StepTokens, GoodIndent;
    var after := StackAfter(stack, line.indent, false);
    StackLevels(stack, line.indent);
    AtTop(stack, line.indent);
    EmitSameLevel(after, line.toks, more, eof);
    assert ([line] + more)[1..] == more && line == SourceLine(line.indent, line.toks);
  }

  /** Stage lines are legal one level deeper than their chain. */
  lemma {:induction false} StageLinesIndented(stack: seq<int>, others: seq<seq<Token>>, rest: seq<SourceLine>)
    requires Levels(stack) && Last(stack) >= 0 && Indented(stack, rest)
    ensures Indented(stack, StageLines(others, Last(stack)) + rest)
    decreases |others|
  {
    hide Idle;
    if others == [] {
      assert StageLines(others, Last(stack)) + rest == rest;
    } else {
      StageLinesIndented(stack, others[1..], rest);
      var lines := StageLines(others, Last(stack)) + rest;
      assert lines[1..] == StageLines(others[1..], Last(stack)) + rest;
      TopNotNegative(stack);
      assert StackAfter(stack, Last(stack), false) == stack;
    }
  }

  /** What is legal behind the one line is legal behind the stage lines. */
  lemma DeeperIndented(stack: seq<int>, rest: seq<SourceLine>)
    requires Levels(stack) && Indented(stack, rest) && (rest == [] || !Idle(rest[0]))
    ensures Indented(stack + [Last(stack) + 4], rest)
  {
    hide Indented;
    TopNotNegative(stack);
    if rest == [] {
      NoneIndented(stack + [Last(stack) + 4]);
    } else {
      IndentedStep(stack, rest);
      IndentedStep(stack + [Last(stack) + 4], rest);
      if rest[0].indent <= Last(stack) {
        SameStack(stack, Last(stack) + 4, rest[0].indent);
      }
    }
  }

  lemma NoneIndented(stack: seq<int>)
    requires |stack| > 0
    ensures Indented(stack, [])
  {
  }

  lemma IndentedStep(stack: seq<int>, lines: seq<SourceLine>)
    requires |stack| > 0 && lines != [] && !Idle(lines[0])
    ensures Indented(stack, lines) <==> GoodIndent(stack, lines[0].indent) && Indented(StackAfter(stack, lines[0].indent, false), lines[1..])
  {
  }

  lemma {:induction false} GapKeeps(stack: seq<int>, gap: seq<SourceLine>)
    requires |stack| > 0 && Gap(gap)
    ensures AfterLines(stack, gap) == stack && Indented(stack, gap)
    decreases |gap|
  {
    if gap != [] {
      GapKeeps(stack, gap[1..]);
    }
  }

  /** With the chain on one line legal, the multi-line layout is. */
  lemma MultiIndented(stack: seq<int>, first: seq<Token>, others: seq<seq<Token>>, gap: seq<SourceLine>, rest: seq<SourceLine>)
    requires Levels(stack) && Stage(first) && others != [] && Gap(gap) && (rest == [] || !Idle(rest[0]))
    requires Indented(stack, gap + rest)
    ensures Last(stack) >= 0 && Indented(stack, MultiLine(first, others, Last(stack), gap + rest))
  {
    hide Indented, Levels, Gap, StackAfter, GoodIndent, StageLines;
    PushLevelUp(stack);
    GapIndented(stack, gap, rest);
    StageLinesIndented(stack + [Last(stack) + 4], others[1..], gap + rest);
    ChainIndented(stack, first, others, gap + rest);
  }

  lemma GapIndented(stack: seq<int>, gap: seq<SourceLine>, rest: seq<SourceLine>)
    requires Levels(stack) && Gap(gap) && (rest == [] || !Idle(rest[0])) && Indented(stack, gap + rest)
    ensures |stack| > 0 && Indented(stack + [Last(stack) + 4], gap + rest)
  {
    hide Indented, Levels, Gap;
    TopNotNegative(stack);
    var deeper := stack + [Last(stack) + 4];
    IndentedSplit(stack, gap, rest);
    GapKeeps(stack, gap);
    DeeperIndented(stack, rest);
    IndentedSplit(deeper, gap, rest);
    GapKeeps(deeper, gap);
  }

  lemma ChainIndented(stack: seq<int>, first: seq<Token>, others: seq<seq<Token>>, behind: seq<SourceLine>)
    requires Levels(stack) && Stage(first) && others != [] && Last(stack) >= 0
    requires Indented(stack + [Last(stack) + 4], StageLines(others[1..], Last(stack) + 4) + behind)
    ensures Indented(stack, MultiLine(first, others, Last(stack), behind))
  {
    hide Indented, Levels, StackAfter, GoodIndent;
    PushLevelUp(stack);
    var level := Last(stack) + 4;
    var second := SourceLine(level, [PIPE] + others[0]);
    var more := StageLines(others[1..], level) + behind;
    var lines := MultiLine(first, others, Last(stack), behind);
    assert lines == [SourceLine(Last(stack), first)] + ([second] + more);
    assert lines[1..] == [second] + more && lines[1..][1..] == more;
    assert !Idle(second) && !Idle(lines[0]);
    IndentedStep(stack, lines);
    IndentedStep(stack, lines[1..]);
  }

  lemma PushLevelUp(stack: seq<int>)
    requires Levels(stack)
    ensures |stack| > 0 && Levels(stack + [Last(stack) + 4])
    ensures StackAfter(stack, Last(stack), false) == stack && StackAfter(stack, Last(stack) + 4, false) == stack + [Last(stack) + 4]
    ensures Last(stack) >= 0 && GoodIndent(stack, Last(stack)) && GoodIndent(stack, Last(stack) + 4)
  {
    TopNotNegative(stack);
    PushLevel(stack, Last(stack) + 4);
  }

  /** The first token of a complete line is no layout token. */
  lemma FirstInline(line: TextLine)
    requires Complete(line) && !Idle(LineOf(line))
    ensures LineOf(line).toks != [] && Inline(LineOf(line).toks[0])
  {
    hide ScanLine, Next, Rests;
    FirstOf(line);
    ScanLineStep(line.text, AT_REST);
    OneToken(line.text, AT_REST);
    FirstKind(line.text);
  }

  lemma FirstKind(s: string)
    requires s != "" && !IsBlank(s[0]) && Next(s, AT_REST).Some?
    ensures var toks := Next(s, AT_REST).value.toks; |toks| == 1 && !IsLayout(toks[0]) && !toks[0].kind.EndOfFile?
  {
    hide CommentEnd, RawEnd, WordEnd, Combine, ScanBody, DigitsEnd, KeywordAfter, Bumped;
  }

  /** The tokens before a line's own: those of the lines in front, and the layout tokens of its start. */
  function TokensBefore(front: seq<SourceLine>, indent: nat): seq<Token>
  {
    var stack := AfterLines([0], front);
    EmitFront([0], front) + StepTokens(|stack|, |StackAfter(stack, indent, false)|, Spaces(indent))
  }

  /** The dedents still to be absorbed for the lines in front, when a statement starts. */
  function Owed(front: seq<SourceLine>, indent: nat): nat
  {
    Through(TokensBefore(front, indent), 0, false).absorbed
  }

  /** Lines behind other lines, from the levels behind the start of the first of them. */
  lemma EmitBehind(pre: seq<SourceLine>, lines: seq<SourceLine>, eof: string)
    requires lines != [] && !Idle(lines[0]) && GoodIndent(AfterLines([0], pre), lines[0].indent)
    ensures Emit([0], pre + lines, eof) == TokensBefore(pre, lines[0].indent) + Emit(StackAfter(AfterLines([0], pre), lines[0].indent, false), lines, eof)
  {
    hide StackAfter, GoodIndent, Emit, EmitFront, AfterLines, StepTokens;
    EmitSplit([0], pre, lines, eof);
    AfterLevels([0], pre);
    var stack := AfterLines([0], pre);
    EmitStart(stack, lines[0], lines[1..], eof);
    assert lines == [lines[0]] + lines[1..];
    var after := StackAfter(stack, lines[0].indent, false);
    Prefixed(EmitFront([0], pre), StepTokens(|stack|, |after|, Spaces(lines[0].indent)), Emit(after, lines, eof));
  }

  lemma Prefixed(a: seq<Token>, b: seq<Token>, c: seq<Token>)
    ensures a + (b + c) == a + b + c
  {
  }

  /** What a source becomes whose lines are those of a front and of a chain with what follows it. */
  lemma ProgramTokens(source: seq<TextLine>, pre: seq<SourceLine>, lines: seq<SourceLine>)
    requires (forall i :: 0 <= i < |source| ==> Complete(source[i])) && LinesOf(source) == pre + lines
    requires lines != [] && !Idle(lines[0]) && Indented([0], pre + lines)
    requires GoodIndent(AfterLines([0], pre), lines[0].indent)
    ensures TokensOf(Source(source)) == Some(Merge(
        TokensBefore(pre, lines[0].indent) + Emit(StackAfter(AfterLines([0], pre), lines[0].indent, false), lines, "\n"), 0, false).out)
  {
    hide Merge, Complete, LineOf, LinesOf, ScanLines, StackAfter, GoodIndent, Emit, TokensBefore, AfterLines, Indented, Idle;
    SourceScans(source, [0], "");
    EmitBehind(pre, lines, "\n");
  }

  /** What may stand around a chain: complete lines before it, blank lines and comment lines behind it, and then a line that is neither. */
  predicate Around(pre: seq<TextLine>, gap: seq<TextLine>, rest: seq<TextLine>)
  {
    && (forall i :: 0 <= i < |pre| ==> Complete(pre[i]))
    && (forall i :: 0 <= i < |gap| ==> Complete(gap[i]) && Idle(LineOf(gap[i])))
    && (forall i :: 0 <= i < |rest| ==> Complete(rest[i]))
    && (rest != [] ==> !Idle(LinesOf(rest)[0]))
  }

  /** A chain's text: stages that scan by themselves, the first of them starting a statement. */
  predicate ChainText(first: string, others: seq<string>)
  {
    && StageText(first) && Plain(ScanLine(first, AT_REST).value.toks[0])
    && others != [] && forall i :: 0 <= i < |others| ==> StageText(others[i])
  }

  lemma GapLines(gap: seq<TextLine>)
    requires forall i :: 0 <= i < |gap| ==> Complete(gap[i]) && Idle(LineOf(gap[i]))
    ensures Gap(LinesOf(gap))
  {
    hide Complete, LineOf, Idle;
    forall i | 0 <= i < |gap|
      ensures |LinesOf(gap)[i].toks| <= 1 && Idle(LinesOf(gap)[i])
    {
      FirstOf(gap[i]);
    }
  }

  /** The lines of either layout are complete, and their tokens those of the chain's stages. */
  lemma ChainLines(first: string, others: seq<string>, k: nat)
    requires ChainText(first, others)
    ensures var toks, stages := ScanLine(first, AT_REST).value.toks, StageToks(others);
      && LinesOf(OneLineText(first, others, k)) == OneLine(toks, stages, k, [])
      && LinesOf(MultiLineText(first, others, k)) == MultiLine(toks, stages, k, [])
      && Stage(toks) && (forall i :: 0 <= i < |stages| ==> Stage(stages[i]))
    ensures forall line :: line in OneLineText(first, others, k) || line in MultiLineText(first, others, k) ==> Complete(line)
  {
    hide ScanLine, Stage;
    OneLineScans(first, others);
    StageLinesScan(others, k + 4);
    var one, multi, lines := OneLineText(first, others, k), MultiLineText(first, others, k), StageTextLines(others, k + 4);
    assert (first + PipedText(others))[0] == first[0];
    assert LinesOf(one) == [LineOf(one[0])];
    assert one[0].text == first + PipedText(others);
    LinesJoin([TextLine(k, first)], lines);
    assert LinesOf([TextLine(k, first)]) == [LineOf(TextLine(k, first))];
    Ended(OneLine(ScanLine(first, AT_REST).value.toks, StageToks(others), k, []), MultiLine(ScanLine(first, AT_REST).value.toks, StageToks(others), k, []));
    forall i | 0 <= i < |others|
      ensures Stage(StageToks(others)[i])
    {
      assert StageText(others[i]);
    }
  }

  lemma Ended(a: seq<SourceLine>, b: seq<SourceLine>)
    ensures a + [] == a && b + [] == b
  {
  }

  /** The chain's line is legal, and with it both layouts and what follows. */
  lemma ChainFits(stack: seq<int>, k: nat, first: seq<Token>, others: seq<seq<Token>>, gap: seq<SourceLine>, rest: seq<SourceLine>)
    requires Levels(stack) && Stage(first) && others != [] && Gap(gap) && (rest == [] || !Idle(rest[0]))
    requires Indented(stack, OneLine(first, others, k, gap + rest))
    ensures |stack| > 0 && GoodIndent(stack, k)
    ensures var after := StackAfter(stack, k, false); Levels(after) && Last(after) == k && Indented(after, gap + rest)
    ensures Indented(stack, MultiLine(first, others, k, gap + rest))
  {
    hide Indented, Levels, Gap, StackAfter, GoodIndent;
    TopNotNegative(stack);
    var one, multi := OneLine(first, others, k, gap + rest), MultiLine(first, others, k, gap + rest);
    assert one[1..] == gap + rest;
    assert first + PipedStages(others) != [] && (first + PipedStages(others))[0] == first[0] && !Idle(one[0]) && !Idle(multi[0]);
    IndentedStep(stack, one);
    var after := StackAfter(stack, k, false);
    StackLevels(stack, k);
    AtTop(stack, k);
    PushLevelUp(after);
    MultiIndented(after, first, others, gap, rest);
    IndentedStep(after, multi);
    IndentedStep(stack, multi);
  }

  lemma AllComplete(pre: seq<TextLine>, chain: seq<TextLine>, gap: seq<TextLine>, rest: seq<TextLine>)
    requires Around(pre, gap, rest) && forall line :: line in chain ==> Complete(line)
    ensures var source := pre + chain + gap + rest;
      && (forall i :: 0 <= i < |source| ==> Complete(source[i]))
      && LinesOf(source) == LinesOf(pre) + (LinesOf(chain) + (LinesOf(gap) + LinesOf(rest)))
  {
    hide Complete, LineOf, LinesOf, Idle;
    LinesJoin(pre, chain);
    LinesJoin(pre + chain, gap);
    LinesJoin(pre + chain + gap, rest);
  }

  lemma FollowsAfter(stack: seq<int>, gap: seq<SourceLine>, rest: seq<SourceLine>)
    requires Levels(stack) && Gap(gap) && Indented(stack, gap + rest)
    requires rest != [] ==> !Idle(rest[0]) && Inline(rest[0].toks[0])
    ensures |stack| > 0 && Follows(stack, rest)
  {
    hide Indented, Levels, Inline;
    TopNotNegative(stack);
    IndentedSplit(stack, gap, rest);
    GapKeeps(stack, gap);
    if rest != [] {
      IndentedStep(stack, rest);
    }
  }

  lemma WithBehind(first: seq<Token>, others: seq<seq<Token>>, k: nat, behind: seq<SourceLine>)
    ensures OneLine(first, others, k, []) + behind == OneLine(first, others, k, behind)
    ensures MultiLine(first, others, k, []) + behind == MultiLine(first, others, k, behind)
  {
  }

  /** Two sources whose lines are those of the two layouts. */
  lemma LayoutsOf(one: seq<TextLine>, multi: seq<TextLine>, front: seq<SourceLine>, k: nat, first: seq<Token>, others: seq<seq<Token>>,
                  gap: seq<SourceLine>, rest: seq<SourceLine>)
    requires (forall i :: 0 <= i < |one| ==> Complete(one[i])) && forall i :: 0 <= i < |multi| ==> Complete(multi[i])
    requires LinesOf(one) == front + OneLine(first, others, k, gap + rest)
    requires LinesOf(multi) == front + MultiLine(first, others, k, gap + rest)
    requires Stage(first) && Plain(first[0]) && others != [] && (forall i :: 0 <= i < |others| ==> Stage(others[i]))
    requires Gap(gap) && (rest != [] ==> !Idle(rest[0]) && Inline(rest[0].toks[0])) && Indented([0], LinesOf(one))
    ensures TokensOf(Source(one)).Some?
    ensures TokensOf(Source(multi)) == TokensOf(Source(one)) <==> GoesOnDeeper(k, gap, rest) && BracesAlike(first, others, Owed(front, k))
  {
    hide Merge, Complete, LinesOf, StackAfter, GoodIndent, Emit, TokensBefore, AfterLines, Indented, Stage, Gap, Levels;
    hide OneLine, MultiLine, Follows, GoesOnDeeper, BracesAlike, Through, Idle, Inline, Plain;
    ChainStarts(front, k, first, others, gap, rest);
    var after := StackAfter(AfterLines([0], front), k, false);
    StartsLine(first, others);
    ProgramTokens(one, front, OneLine(first, others, k, gap + rest));
    ProgramTokens(multi, front, MultiLine(first, others, k, gap + rest));
    LayoutIrrelevantInProgram(TokensBefore(front, k), after, first, others, gap, rest, "\n");
  }

  /** The levels a chain starts at behind the lines before it, and what is legal from there. */
  lemma ChainStarts(front: seq<SourceLine>, k: nat, first: seq<Token>, others: seq<seq<Token>>, gap: seq<SourceLine>, rest: seq<SourceLine>)
    requires Stage(first) && others != [] && Gap(gap) && (rest != [] ==> !Idle(rest[0]) && Inline(rest[0].toks[0]))
    requires Indented([0], front + OneLine(first, others, k, gap + rest))
    ensures var stack := AfterLines([0], front);
      var after := StackAfter(stack, k, false);
      GoodIndent(stack, k) && Levels(after) && Last(after) == k && Follows(after, rest)
    ensures Indented([0], front + MultiLine(first, others, k, gap + rest))
  {
    hide StackAfter, GoodIndent, AfterLines, Indented, Stage, Gap, Levels, Inline, Idle, OneLine, MultiLine, Follows;
    var stack := AfterLines([0], front);
    BaseLevel();
    AfterLevels([0], front);
    IndentedSplit([0], front, OneLine(first, others, k, gap + rest));
    ChainFits(stack, k, first, others, gap, rest);
    IndentedSplit([0], front, MultiLine(first, others, k, gap + rest));
    FollowsAfter(StackAfter(stack, k, false), gap, rest);
  }

  lemma StartsLine(first: seq<Token>, others: seq<seq<Token>>)
    requires Stage(first)
    ensures forall k, lines :: var one := OneLine(first, others, k, lines); one != [] && !Idle(one[0]) && one[0].indent == k
    ensures forall k, lines :: var multi := MultiLine(first, others, k, lines); multi != [] && !Idle(multi[0]) && multi[0].indent == k
  {
    assert (first + PipedStages(others))[0] == first[0];
  }

  /**
   The layout of a pipe chain in a program's text does not matter: with the chain on
   one line, or every later stage on a line of its own one level deeper, the source
   becomes the same tokens if and only if the next line goes on with the chain
   exactly when it is deeper than the chain, and no dedent of a block brace in a later
   stage is absorbed in place of the one that ends the stage lines.
   */
  lemma LayoutsAgree(pre: seq<TextLine>, k: nat, first: string, others: seq<string>, gap: seq<TextLine>, rest: seq<TextLine>)
    requires ChainText(first, others) && Around(pre, gap, rest)
    requires Indented([0], LinesOf(pre) + OneLine(ScanLine(first, AT_REST).value.toks, StageToks(others), k, LinesOf(gap) + LinesOf(rest)))
    ensures TokensOf(Source(pre + OneLineText(first, others, k) + gap + rest)).Some?
    ensures TokensOf(Source(pre + MultiLineText(first, others, k) + gap + rest)) == TokensOf(Source(pre + OneLineText(first, others, k) + gap + rest))
      <==> (
        && GoesOnDeeper(k, LinesOf(gap), LinesOf(rest))
        && BracesAlike(ScanLine(first, AT_REST).value.toks, StageToks(others), Owed(LinesOf(pre), k)))
  {
    hide Merge, Complete, LineOf, LinesOf, Indented, ScanLine, Stage, Source, OneLine, MultiLine, Idle, Inline, BracesAlike, Owed;
    var toks, stages := ScanLine(first, AT_REST).value.toks, StageToks(others);
    ChainLines(first, others, k);
    GapLines(gap);
    WithBehind(toks, stages, k, LinesOf(gap) + LinesOf(rest));
    AllComplete(pre, OneLineText(first, others, k), gap, rest);
    AllComplete(pre, MultiLineText(first, others, k), gap, rest);
    if rest != [] {
      LinesStepOf(rest);
      FirstInline(rest[0]);
    }
    LayoutsOf(pre + OneLineText(first, others, k) + gap + rest, pre + MultiLineText(first, others, k) + gap + rest,
              LinesOf(pre), k, toks, stages, LinesOf(gap), LinesOf(rest));
  }

  // ----- A closure in a stage -----

  /** `f(func(){})`: the closure's braces are an indent and a dedent. */
  const CLOSURE_STAGE := "f(func(){})"

  lemma WordInFront(word: string, c: char, rest: string, m: Mode)
    requires word != "" && IsAlpha(word[0]) && (forall i :: 0 <= i < |word| ==> IsAlpha(word[i])) && !IsAlpha(c) && !IsDigit(c)
    ensures Next(word + ([c] + rest), m) == Some(Take(word + ([c] + rest), |word|, Word, m))
  {
    hide TakeNumber, TakeOperator, TakeBracket, TakeString, Take;
    WordLength(word, c, rest);
  }

  lemma {:induction false} WordLength(word: string, c: char, rest: string)
    requires (forall i :: 0 <= i < |word| ==> IsAlpha(word[i])) && !IsAlpha(c) && !IsDigit(c)
    ensures WordEnd(word + ([c] + rest)) == |word|
  {
    var s := word + ([c] + rest);
    if word != "" {
      assert s[1..] == word[1..] + ([c] + rest);
      WordLength(word[1..], c, rest);
    } else {
      assert s[0] == c;
    }
  }

  /** A round bracket or the brace of a block. */
  predicate Bracketed(c: char, m: Mode)
  {
    m.interps == [] && (c == '(' || (c == ')' && m.parens > 0) || (c == '{' && m.keyword) || (c == '}' && m.braceStack != [] && Last(m.braceStack)))
  }

  function BracketMode(c: char, m: Mode): Mode
    requires Bracketed(c, m)
  {
    if c == '(' then m.(parens := m.parens + 1)
    else if c == ')' then m.(parens := m.parens - 1)
    else if c == '{' then m.(braceStack := m.braceStack + [true], keyword := false)
    else m.(braceStack := Front(m.braceStack))
  }

  function BracketKind(c: char): Kind
  {
    if c == '{' then Indent else if c == '}' then Dedent else Symbol
  }

  lemma NextBracket(c: char, rest: string, m: Mode)
    requires Bracketed(c, m)
    ensures Next([c] + rest, m) == Some(Taken([Token(BracketKind(c), [c])], rest, BracketMode(c, m)))
  {
    hide TakeString, TakeOther, BlanksEnd, CommentEnd, RawEnd, ScanBody;
    var s := [c] + rest;
    assert s[..1] == [c] && s[1..] == rest;
  }

  /** It stands in front of more text. */
  lemma BracketInFront(c: char, rest: string, m: Mode)
    requires Bracketed(c, m)
    ensures ScanLine([c] + rest, m) == Behind([Token(BracketKind(c), [c])], ScanLine(rest, BracketMode(c, m)))
  {
    hide ScanLine, Next, BracketMode, BracketKind, Bracketed;
    NextBracket(c, rest, m);
    ScanLineStep([c] + rest, m);
  }

  lemma WordScans(word: string, c: char, rest: string, m: Mode)
    requires word != "" && (forall i :: 0 <= i < |word| ==> IsAlpha(word[i])) && !IsAlpha(c) && !IsDigit(c)
    ensures ScanLine(word + ([c] + rest), m)
      == Behind([Token(Word, word)], ScanLine([c] + rest, m.(keyword := KeywordAfter(m.keyword, Token(Word, word)))))
  {
    hide ScanLine, Next, KeywordAfter;
    var s := word + ([c] + rest);
    WordInFront(word, c, rest, m);
    ScanLineStep(s, m);
    assert s[..|word|] == word && s[|word|..] == [c] + rest;
  }

  const CLOSURE_TOKENS := [
    Token(Word, "f"), Token(Symbol, "("), Token(Word, "func"), Token(Symbol, "("), Token(Symbol, ")"), Token(Indent, "{"), Token(Dedent, "}"), Token(Symbol, ")")]

  /** One more of them in front. */
  lemma ClosureToken(k: nat, t: Token)
    requires k < |CLOSURE_TOKENS| && CLOSURE_TOKENS[k] == t
    ensures Behind([t], Some(Scanned(CLOSURE_TOKENS[k + 1..], AT_REST))) == Some(Scanned(CLOSURE_TOKENS[k..], AT_REST))
  {
    assert [t] + CLOSURE_TOKENS[k + 1..] == CLOSURE_TOKENS[k..];
  }

  lemma ClosureScans()
    ensures ScanLine(CLOSURE_STAGE, AT_REST) == Some(Scanned(CLOSURE_TOKENS, AT_REST))
  {
    hide ScanLine, Behind;
    FuncScans();
    assert ['('] + "func(){})" == "(func(){})" && "f" + "(func(){})" == CLOSURE_STAGE;
    BracketInFront('(', "func(){})", AT_REST);
    ClosureToken(1, Token(Symbol, "("));
    WordScans("f", '(', "func(){})", AT_REST);
    ClosureToken(0, Token(Word, "f"));
    assert CLOSURE_TOKENS[0..] == CLOSURE_TOKENS;
  }

  lemma FuncScans()
    ensures ScanLine("func(){})", Mode(1, 0, [], [], false)) == Some(Scanned(CLOSURE_TOKENS[2..], AT_REST))
  {
    hide ScanLine, Behind;
    BehindFuncScans();
    assert ['('] + "){})" == "(){})" && "func" + "(){})" == "func(){})";
    WordScans("func", '(', "){})", Mode(1, 0, [], [], false));
    ClosureToken(2, Token(Word, "func"));
  }

  /** The brackets and braces behind `func`. */
  lemma BehindFuncScans()
    ensures ScanLine("(){})", Mode(1, 0, [], [], true)) == Some(Scanned(CLOSURE_TOKENS[3..], AT_REST))
  {
    hide ScanLine, Behind;
    var waiting := Mode(1, 0, [], [], true);
    BlockScans();
    assert [')'] + "{})" == "){})" && ['('] + "){})" == "(){})";
    BracketInFront(')', "{})", waiting.(parens := 2));
    ClosureToken(4, Token(Symbol, ")"));
    BracketInFront('(', "){})", waiting);
    ClosureToken(3, Token(Symbol, "("));
  }

  /** The block's braces, and the bracket behind them. */
  lemma BlockScans()
    ensures ScanLine("{})", Mode(1, 0, [], [], true)) == Some(Scanned(CLOSURE_TOKENS[5..], AT_REST))
  {
    hide ScanLine, Behind;
    var waiting, inCall := Mode(1, 0, [], [], true), Mode(1, 0, [], [], false);
    EmptyText("", AT_REST);
    assert [')'] + "" == ")" && ['}'] + ")" == "})" && ['{'] + "})" == "{})";
    assert CLOSURE_TOKENS[8..] == [] && waiting.braceStack + [true] == [true];
    BracketInFront(')', "", inCall);
    ClosureToken(7, Token(Symbol, ")"));
    BracketInFront('}', ")", inCall.(braceStack := [true]));
    ClosureToken(6, Token(Dedent, "}"));
    BracketInFront('{', "})", waiting);
    ClosureToken(5, Token(Indent, "{"));
  }

  /** `x |> f(func(){})` with the stage on its own line: the pass drops the dedent of the closure's brace, and the two layouts differ. */
  lemma ClosureLosesItsDedent()
    ensures TokensOf(Source([TextLine(0, "x"), TextLine(4, "|> f(func(){})")])) != TokensOf(Source([TextLine(0, "x |> f(func(){})")]))
  {
    hide ScanLine, TokensOf, Source, ChainText, Indented, OneLine, GoesOnDeeper, BracesAlike, Owed, StageToks;
    var pre, none: seq<TextLine> := [], [];
    var one, multi := OneLineText("x", [CLOSURE_STAGE], 0), MultiLineText("x", [CLOSURE_STAGE], 0);
    ClosureLines();
    ClosureChain();
    assert pre + one + none + none == one && pre + multi + none + none == multi;
    NoneAround();
    LayoutsAgree(pre, 0, "x", [CLOSURE_STAGE], none, none);
  }

  lemma ClosureLines()
    ensures OneLineText("x", [CLOSURE_STAGE], 0) == [TextLine(0, "x |> f(func(){})")]
    ensures MultiLineText("x", [CLOSURE_STAGE], 0) == [TextLine(0, "x"), TextLine(4, "|> f(func(){})")]
  {
    var stages := [CLOSURE_STAGE];
    assert stages[1..] == [] && PipedText([]) == "";
    assert PipedText(stages) == " |> f(func(){})" && "x" + " |> f(func(){})" == "x |> f(func(){})";
    assert "|> " + CLOSURE_STAGE == "|> f(func(){})";
  }

  lemma NoneAround()
    ensures Around([], [], []) && LinesOf([]) == []
  {
  }

  /** The chain is one, its stage has a dedent, and nothing is owed for the lines before it. */
  lemma ClosureChain()
    ensures ChainText("x", [CLOSURE_STAGE])
    ensures var toks, stages := ScanLine("x", AT_REST).value.toks, StageToks([CLOSURE_STAGE]);
      && !BracesAlike(toks, stages, Owed([], 0))
      && Indented([0], LinesOf([]) + OneLine(toks, stages, 0, LinesOf([]) + LinesOf([])))
  {
    hide ScanLine;
    ClosureScans();
    VariableScans();
    var toks, stages := ScanLine("x", AT_REST).value.toks, StageToks([CLOSURE_STAGE]);
    StageToksStep([CLOSURE_STAGE]);
    assert stages[0] == CLOSURE_TOKENS;
    var tail := PipedStages(stages);
    assert tail == [PIPE] + CLOSURE_TOKENS + PipedStages(stages[1..]);
    assert tail[7] == CLOSURE_TOKENS[6];
    SomeDedent(tail, 7);
    assert Owed([], 0) == 0;
    assert LinesOf([]) + OneLine(toks, stages, 0, LinesOf([]) + LinesOf([])) == [SourceLine(0, toks + tail)];
  }

  lemma {:induction false} SomeDedent(s: seq<Token>, i: nat)
    requires i < |s| && s[i].kind.Dedent?
    ensures Dedents(s) > 0
  {
    if i > 0 {
      SomeDedent(s[1..], i - 1);
    }
  }

  lemma VariableScans()
    ensures ScanLine("x", AT_REST) == Some(Scanned([Token(Word, "x")], AT_REST))
  {
    hide ScanLine, Next;
    EmptyText("", AT_REST);
    ScanLineStep("x", AT_REST);
    LoneWord();
    assert [Token(Word, "x")] + [] == [Token(Word, "x")];
  }

  lemma LoneWord()
    ensures Next("x", AT_REST) == Some(Taken([Token(Word, "x")], "", AT_REST))
  {
    hide TakeNumber, TakeOperator, TakeBracket, TakeString;
    assert "x"[1..] == "" && WordEnd("") == 0 && "x"[..1] == "x";
  }
}
