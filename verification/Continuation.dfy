/**
 Lines that go on inside brackets, in calls and between a block's braces
 (scanToken and inParenContinuation of internal/lexer/lexer.go).
 */
module Continuation {
  import opened Prelude
  import opened LexText
  import opened Layout
  import opened MergeLines
  import opened LineScan
  import opened PipeLayout
  import opened LayoutText

  predicate Blank(s: string)
  {
    forall i :: 0 <= i < |s| ==> IsBlank(s[i])
  }

  /** Text that begins with no blank. */
  predicate Begins(s: string)
  {
    s != "" && !IsBlank(s[0])
  }

  lemma {:induction false} BlanksInFront(blanks: string, post: string)
    requires Blank(blanks) && Begins(post)
    ensures (blanks + post)[BlanksEnd(blanks + post)..] == post && BlanksEnd(blanks + post) == |blanks|
  {
    if blanks == "" {
      assert blanks + post == post;
    } else {
      assert (blanks + post)[1..] == blanks[1..] + post;
      BlanksInFront(blanks[1..], post);
    }
  }

  /** Behind a text, a line end where the line goes on is nothing, and neither are the blanks behind it. */
  lemma LineEndIsNothing(a: string, m: Mode, g: Margin, blanks: string, post: string, last: string)
    requires ScanLine(a, m).Some? && g.indents != [] && Blank(blanks) && Begins(post)
    requires !Counts(ScanLine(a, m).value.mode, Beyond(a, m, g), blanks + post)
    ensures ScanRest(a + ("\n" + (blanks + post)), m, g, last)
      == Before(ScanLine(a, m).value.toks, ScanRest(post, ScanLine(a, m).value.mode, SameLine(g), ""))
  {
    hide ScanRest, ScanLine, Next, Before, Beyond, Counts;
    var y := "\n" + (blanks + post);
    assert y[1..] == blanks + post;
    LineScans(a, m, g, y, last);
    RestStep(y, ScanLine(a, m).value.mode, Beyond(a, m, g), "");
    BlanksInFront(blanks, post);
  }

  /** Behind a text, a blank is nothing. */
  lemma BlankIsNothing(a: string, m: Mode, g: Margin, post: string, last: string)
    requires Open(a, m) && g.indents != [] && Begins(post)
    ensures ScanRest(a + (" " + post), m, g, last)
      == Before(ScanLine(a, m).value.toks, ScanRest(post, ScanLine(a, m).value.mode, Beyond(a, m, g), ""))
  {
    hide ScanRest, ScanLine, NextAny, Before, Beyond, LastText;
    var y, me, ge := " " + post, ScanLine(a, m).value.mode, Beyond(a, m, g);
    LineScans(a, m, g, y, last);
    RestStep(y, me, ge, "");
    BlanksInFront(" ", post);
    assert Next(y, me) == Some(Taken([], post, me));
    NextIsAny(y, me);
    AnyLast(post, me, ge, LastText(y, me), "");
    BeforeEmpty(ScanRest(post, me, ge, ""));
  }

  predicate IsFunc(t: Token)
  {
    t == Token(Word, "func") || t == Token(Word, "function")
  }

  /** No function literal and no fat arrow. */
  predicate Headless(toks: seq<Token>)
  {
    forall i :: 0 <= i < |toks| ==> !IsFunc(toks[i]) && toks[i] != Token(Symbol, "=>")
  }

  lemma {:induction false} HeadlessBeyond(a: string, m: Mode, g: Margin)
    requires ScanLine(a, m).Some? && Headless(ScanLine(a, m).value.toks) && SameLine(g) == g
    ensures Beyond(a, m, g) == g
    decreases |a|
  {
    hide Next, ScanLine;
    if a != "" {
      ScanLineStep(a, m);
      var t := Next(a, m).value;
      var all, rest := ScanLine(a, m).value.toks, ScanLine(t.rest, t.mode).value.toks;
      assert forall i :: 0 <= i < |rest| ==> rest[i] == all[|t.toks| + i];
      assert t.toks != [] ==> Last(t.toks) == all[|t.toks| - 1];
      if LineEnd(a) > 0 {
        NoReturns(a, m);
      }
      HeadlessBeyond(t.rest, t.mode, g);
    }
  }

  /** A square bracket, a literal's brace or a call is open behind the text. */
  predicate Inside(m: Mode, g: Margin)
  {
    m.braces > 0 || InCall(m.parens, g.depths)
  }

  /** Inside a bracket, a literal's braces or a call, a line end and the blanks behind it are worth one blank. */
  lemma LineEndIsBlank(a: string, m: Mode, g: Margin, blanks: string, post: string, last: string)
    requires Open(a, m) && Headless(ScanLine(a, m).value.toks) && g.indents != [] && SameLine(g) == g
    requires Inside(ScanLine(a, m).value.mode, g) && Blank(blanks) && Begins(post)
    ensures ScanRest(a + ("\n" + (blanks + post)), m, g, last) == ScanRest(a + (" " + post), m, g, last)
  {
    hide ScanRest, ScanLine, Before, Headless;
    HeadlessBeyond(a, m, g);
    BlankIsNothing(a, m, g, post, last);
    LineEndIsNothing(a, m, g, blanks, post, last);
  }

  // ----- Statements over several lines -----

  /** A further line of a statement: its leading blanks, and its text. */
  datatype Further = Further(blanks: string, text: string)

  /** The further lines as they are written. */
  function Broken(lines: seq<Further>): string
  {
    if lines == [] then "" else "\n" + (lines[0].blanks + (lines[0].text + Broken(lines[1..])))
  }

  /** The same on one line. */
  function Joined(lines: seq<Further>): string
  {
    if lines == [] then "" else " " + (lines[0].text + Joined(lines[1..]))
  }

  /** Each line but the last ends inside a bracket, a literal's braces or a call, with no comment behind it. */
  predicate Continues(text: string, m: Mode, g: Margin, lines: seq<Further>)
    decreases |lines|
  {
    lines == [] || (
      && Open(text, m) && Headless(ScanLine(text, m).value.toks) && Inside(ScanLine(text, m).value.mode, g)
      && Blank(lines[0].blanks) && Begins(lines[0].text)
      && Continues(lines[0].text, ScanLine(text, m).value.mode, g, lines[1..]))
  }

  lemma NoFurther()
    ensures Broken([]) == Joined([]) == ""
  {
  }

  lemma LinesInFront(lines: seq<Further>, tail: string)
    requires lines != []
    ensures Broken(lines) + tail == "\n" + (lines[0].blanks + (lines[0].text + (Broken(lines[1..]) + tail)))
    ensures Joined(lines) + tail == " " + (lines[0].text + (Joined(lines[1..]) + tail))
  {
  }

  /** However many lines it takes, the statement's tokens are those of one line, whatever follows. */
  lemma {:induction false} LinesJoin(text: string, m: Mode, g: Margin, lines: seq<Further>, tail: string, last: string)
    requires Continues(text, m, g, lines) && g.indents != [] && SameLine(g) == g
    ensures ScanRest(text + (Broken(lines) + tail), m, g, last) == ScanRest(text + (Joined(lines) + tail), m, g, last)
    decreases |lines|
  {
    hide ScanRest, ScanLine, Headless, Inside, Blank, Broken, Joined;
    if lines == [] {
      NoFurther();
    } else {
      var line, broken, joined := lines[0], Broken(lines[1..]) + tail, Joined(lines[1..]) + tail;
      LinesInFront(lines, tail);
      LineEndIsBlank(text, m, g, line.blanks, line.text + broken, last);
      HeadlessBeyond(text, m, g);
      LinesJoin(line.text, ScanLine(text, m).value.mode, g, lines[1..], tail, "");
      SameBehindBlank(text, m, g, line.text + broken, line.text + joined, last);
    }
  }

  /** What follows a blank decides. */
  lemma SameBehindBlank(a: string, m: Mode, g: Margin, x: string, y: string, last: string)
    requires Open(a, m) && g.indents != [] && Beyond(a, m, g) == g && Begins(x) && Begins(y)
    requires ScanRest(x, ScanLine(a, m).value.mode, g, "") == ScanRest(y, ScanLine(a, m).value.mode, g, "")
    ensures ScanRest(a + (" " + x), m, g, last) == ScanRest(a + (" " + y), m, g, last)
  {
    hide ScanRest, ScanLine, Before, Open, Beyond;
    BlankIsNothing(a, m, g, x, last);
    BlankIsNothing(a, m, g, y, last);
  }

  /** Behind the same complete lines the same is scanned. */
  lemma {:induction false} SameBehindLines(pre: seq<TextLine>, indents: seq<int>, x: string, y: string, after: Margin, last: string)
    requires |indents| > 0 && (forall i :: 0 <= i < |pre| ==> Complete(pre[i])) && Indented(indents, LinesOf(pre)) && x != "" && y != ""
    requires after == Flush(AfterLines(indents, LinesOf(pre)))
    requires forall l :: ScanLines(x, AT_REST, after, l) == ScanLines(y, AT_REST, after, l)
    ensures ScanLines(Source(pre) + x, AT_REST, Flush(indents), last) == ScanLines(Source(pre) + y, AT_REST, Flush(indents), last)
    decreases |pre|
  {
    hide Complete, LineOf, LinesOf, ScanLines, ScanRest, LineStart, Before, StackAfter, GoodIndent, Source;
    if pre == [] {
      NoSource();
      assert Source(pre) + x == x && Source(pre) + y == y;
      assert LinesOf(pre) == [];
    } else {
      var line, more := pre[0], Source(pre[1..]);
      LinesStepOf(pre);
      var below := if Idle(LineOf(line)) then indents else StackAfter(indents, line.indent, false);
      SameIndent(line);
      SameBehindLines(pre[1..], below, x, y, after, "\n");
      LineInFront(line, indents, more + x, last);
      LineInFront(line, indents, more + y, last);
      SourceInFront(pre, x);
      SourceInFront(pre, y);
    }
  }

  lemma NoSource()
    ensures Source([]) == ""
  {
  }

  lemma SourceInFront(pre: seq<TextLine>, x: string)
    requires pre != []
    ensures Source(pre) + x == Spaces(pre[0].indent) + (pre[0].text + ("\n" + (Source(pre[1..]) + x)))
  {
  }

  /** A complete line, and what follows it. */
  lemma LineInFront(line: TextLine, indents: seq<int>, more: string, last: string)
    requires Complete(line) && |indents| > 0 && (Idle(LineOf(line)) || GoodIndent(indents, line.indent))
    ensures
      var after := if Idle(LineOf(line)) then indents else StackAfter(indents, line.indent, false);
      var steps := if Idle(LineOf(line)) then [] else StepTokens(|indents|, |after|, Spaces(line.indent));
      ScanLines(Spaces(line.indent) + (line.text + ("\n" + more)), AT_REST, Flush(indents), last)
        == Before(steps, Before(LineOf(line).toks + [NEWLINE], ScanLines(more, AT_REST, Flush(after), "\n")))
  {
    hide Complete, LineOf, ScanLines, ScanRest, LineStart, Before, StackAfter, GoodIndent;
    var after := if Idle(LineOf(line)) then indents else StackAfter(indents, line.indent, false);
    LineStarts(line, indents, more);
    var s := Spaces(line.indent) + (line.text + ("\n" + more));
    CompleteScans(line, after, more, s[..BlanksEnd(s)]);
    LinesStep(s, AT_REST, Flush(indents), last);
  }

  /** The first line of the statement, behind its indentation. */
  lemma StatementStarts(k: nat, text: string, indents: seq<int>, x: string, y: string, last: string)
    requires |indents| > 0 && Begins(text)
    requires forall g: Margin, l: string :: g.indents != [] && SameLine(g) == g && g.depths == [] ==>
      ScanRest(text + x, AT_REST, g, l) == ScanRest(text + y, AT_REST, g, l)
    ensures ScanLines(Spaces(k) + (text + x), AT_REST, Flush(indents), last) == ScanLines(Spaces(k) + (text + y), AT_REST, Flush(indents), last)
  {
    hide ScanLines, ScanRest, StackAfter, BadIndent, Before, StepTokens, MarginAfter;
    var s, t := Spaces(k) + (text + x), Spaces(k) + (text + y);
    SpacesEnd(k, text + x);
    SpacesEnd(k, text + y);
    FlushAfter(indents, k);
    assert s[k..] == text + x && t[k..] == text + y && s[..k] == t[..k];
    LinesStep(s, AT_REST, Flush(indents), last);
    LinesStep(t, AT_REST, Flush(indents), last);
  }

  /**
   A program whose statement is spread over lines inside its brackets, its
   literals' braces and its calls has the tokens of the program with the
   statement on one line.
   */
  lemma BracketsSpanLines(pre: seq<TextLine>, k: nat, text: string, lines: seq<Further>, tail: string)
    requires (forall i :: 0 <= i < |pre| ==> Complete(pre[i])) && Indented([0], LinesOf(pre))
    requires Begins(text) && Continues(text, AT_REST, Flush([0]), lines)
    ensures var front := Source(pre) + Spaces(k);
      TokensOf(front + (text + (Broken(lines) + tail))) == TokensOf(front + (text + (Joined(lines) + tail)))
  {
    hide Complete, LinesOf, ScanLines, ScanRest, Continues, Indented, AfterLines, Merge;
    var x, y := Broken(lines) + tail, Joined(lines) + tail;
    var indents := AfterLines([0], LinesOf(pre));
    forall g: Margin, l: string | g.indents != [] && SameLine(g) == g && g.depths == []
      ensures ScanRest(text + x, AT_REST, g, l) == ScanRest(text + y, AT_REST, g, l)
    {
      SameDepths(text, AT_REST, Flush([0]), g, lines);
      LinesJoin(text, AT_REST, g, lines, tail, l);
    }
    forall l: string
      ensures ScanLines(Spaces(k) + (text + x), AT_REST, Flush(indents), l) == ScanLines(Spaces(k) + (text + y), AT_REST, Flush(indents), l)
    {
      StatementStarts(k, text, indents, x, y, l);
    }
    SameBehindLines(pre, [0], Spaces(k) + (text + x), Spaces(k) + (text + y), Flush(indents), "");
    assert Source(pre) + Spaces(k) + (text + x) == Source(pre) + (Spaces(k) + (text + x));
    assert Source(pre) + Spaces(k) + (text + y) == Source(pre) + (Spaces(k) + (text + y));
  }

  /** Only the open closures' depths matter. */
  lemma {:induction false} SameDepths(text: string, m: Mode, g: Margin, h: Margin, lines: seq<Further>)
    requires Continues(text, m, g, lines) && g.depths == h.depths
    ensures Continues(text, m, h, lines)
    decreases |lines|
  {
    hide ScanLine, Headless, Blank;
    if lines != [] {
      SameDepths(lines[0].text, ScanLine(text, m).value.mode, g, h, lines[1..]);
    }
  }

  // ----- Blocks and closures -----

  /** A line end that counts. */
  lemma LineEndCounts(a: string, m: Mode, g: Margin, behind: string, last: string)
    requires ScanLine(a, m).Some? && g.indents != [] && Counts(ScanLine(a, m).value.mode, Beyond(a, m, g), behind)
    ensures var me := ScanLine(a, m).value.mode;
      ScanRest(a + ("\n" + behind), m, g, last)
        == Before(ScanLine(a, m).value.toks + [NEWLINE], ScanLines(behind, me.(keyword := false), NewLine(me, g), "\n"))
  {
    hide ScanRest, ScanLines, ScanLine, Next, NextAny, Before, Beyond, Counts;
    var y := "\n" + behind;
    var me, ge := ScanLine(a, m).value.mode, Beyond(a, m, g);
    assert y[1..] == behind && y[..1] == "\n";
    LineScans(a, m, g, y, last);
    RestStep(y, me, ge, "");
    assert NewLine(me, ge) == NewLine(me, g);
    BeforeTwice(ScanLine(a, m).value.toks, [NEWLINE], ScanLines(behind, me.(keyword := false), NewLine(me, g), "\n"));
  }

  /** Between a block's braces a line end counts, and the blanks of the next line do not. */
  lemma BlockLines(a: string, m: Mode, g: Margin, blanks: string, post: string, last: string)
    requires ScanLine(a, m).Some? && g.indents != [] && Blank(blanks) && Begins(post)
    requires var me := ScanLine(a, m).value.mode; true in me.braceStack && !Inside(me, g)
    ensures ScanRest(a + ("\n" + (blanks + post)), m, g, last)
      == Before(ScanLine(a, m).value.toks + [NEWLINE], ScanRest(post, ScanLine(a, m).value.mode.(keyword := false), SameLine(g), ""))
  {
    hide ScanRest, ScanLines, ScanLine, Next, Before, Beyond;
    var me := ScanLine(a, m).value.mode;
    LineEndCounts(a, m, g, blanks + post, last);
    LinesStep(blanks + post, me.(keyword := false), NewLine(me, g), "\n");
    BlanksInFront(blanks, post);
    AnyLast(post, me.(keyword := false), SameLine(g), (blanks + post)[..|blanks|], "");
    BeforeEmpty(ScanRest(post, me.(keyword := false), SameLine(g), ""));
  }

  /** In a call, behind a fat arrow at the line's end or a function literal, a deeper line is a closure's body: it opens a level, and line ends count from there. */
  lemma ClosureBody(a: string, m: Mode, g: Margin, n: nat, post: string, last: string)
    requires ScanLine(a, m).Some? && g.indents != []
    requires var me := ScanLine(a, m).value.mode; me.braces == 0 && true !in me.braceStack && InCall(me.parens, g.depths)
    requires HasHead(ScanLine(a, m).value.toks)
    requires n > Last(g.indents) && n % 4 == 0 && Begins(post) && post[0] !in "\n\r#"
    ensures var me := ScanLine(a, m).value.mode.(keyword := false);
      ScanRest(a + ("\n" + (Spaces(n) + post)), m, g, last)
      == Before(ScanLine(a, m).value.toks + [NEWLINE] + [Token(Indent, Spaces(n))],
                ScanRest(post, me, Margin(g.indents + [n], g.closures + [n], g.depths + [me.parens], false, false, false), ""))
  {
    hide ScanRest, ScanLines, ScanLine, Next, Before, Beyond, LineStart, BlanksEnd, SpacesIn;
    var me := ScanLine(a, m).value.mode;
    var next, after := me.(keyword := false), Margin(g.indents + [n], g.closures + [n], g.depths + [me.parens], false, false, false);
    SpacesThere(n, post);
    HeadBeyond(a, m, g);
    LineEndCounts(a, m, g, Spaces(n) + post, last);
    BodyStarts(next, NewLine(me, g), n, post);
    var s := Spaces(n) + post;
    LinesStep(s, next, NewLine(me, g), "\n");
    AnyLast(post, next, after, s[..BlanksEnd(s)], "");
    BeforeTwice(ScanLine(a, m).value.toks + [NEWLINE], [Token(Indent, Spaces(n))], ScanRest(post, next, after, ""));
  }

  /** A function literal, or a fat arrow at the end. */
  ghost predicate HasHead(toks: seq<Token>)
  {
    (toks != [] && Last(toks) == Token(Symbol, "=>")) || exists i :: 0 <= i < |toks| && IsFunc(toks[i])
  }

  lemma {:induction false} HeadBeyond(a: string, m: Mode, g: Margin)
    requires ScanLine(a, m).Some? && (HasHead(ScanLine(a, m).value.toks) || g.literal || (g.arrow && ScanLine(a, m).value.toks == []))
    ensures Beyond(a, m, g).arrow || Beyond(a, m, g).literal
    decreases |a|
  {
    hide Next, ScanLine, IsRemark;
    if a == "" {
      EmptyText("", m);
    } else {
      ScanLineStep(a, m);
      OneToken(a, m);
      var t := Next(a, m).value;
      var all, rest := ScanLine(a, m).value.toks, ScanLine(t.rest, t.mode).value.toks;
      if LineEnd(a) > 0 {
        NoReturns(a, m);
      }
      if t.toks == [] {
        assert all == rest;
      } else {
        assert all == t.toks + rest;
        if HasHead(all) {
          HeadInRest(t.toks, rest);
        }
      }
      HeadBeyond(t.rest, t.mode, Noted(g, t.toks));
    }
  }

  lemma HeadInRest(toks: seq<Token>, rest: seq<Token>)
    requires |toks| == 1 && HasHead(toks + rest)
    ensures IsFunc(toks[0]) || HasHead(rest) || (toks[0] == Token(Symbol, "=>") && rest == [])
  {
    var all := toks + rest;
    if exists i :: 0 <= i < |all| && IsFunc(all[i]) {
      var i :| 0 <= i < |all| && IsFunc(all[i]);
      assert i > 0 ==> rest[i - 1] == all[i];
    } else if rest != [] {
      assert Last(rest) == Last(all);
    }
  }

  lemma BodyStarts(m: Mode, g: Margin, n: nat, post: string)
    requires g.indents != [] && true !in m.braceStack && g.pending && n > Last(g.indents) && n % 4 == 0
    requires post != "" && !IsBlank(post[0]) && post[0] !in "\n\r#"
    ensures LineStart(Spaces(n) + post, m, g) == Some(
      Started([Token(Indent, Spaces(n))],
              g.(indents := g.indents + [n], closures := g.closures + [n], depths := g.depths + [m.parens], pending := false), post))
  {
    SpacesEnd(n, post);
    assert (Spaces(n) + post)[n..] == post && (Spaces(n) + post)[..n] == Spaces(n);
  }

  lemma {:induction false} SpacesThere(n: nat, s: string)
    requires s != "" && !IsBlank(s[0])
    ensures SpacesIn(Spaces(n) + s) == n
    decreases n
  {
    if n == 0 {
      assert Spaces(n) + s == s;
    } else {
      SpacesThere(n - 1, s);
      assert (Spaces(n) + s)[1..] == Spaces(n - 1) + s;
    }
  }
}
