/**
 What the tokenizer makes of a program line by line, as functions of the text: the
 tokens of a line outside multi-line literals, and the layout tokens between lines.
 */
module LineScan {
  import opened Prelude
  import opened LexText
  import opened Layout
  import opened TripleQuote

  /** An open interpolated expression: its braces, and the quote of its string. */
  datatype Interp = Interp(braceDepth: nat, quote: char)

  /** Open brackets, braces and interpolations, and whether a block keyword waits for its brace. */
  datatype Mode = Mode(parens: nat, braces: nat, braceStack: seq<bool>, interps: seq<Interp>, keyword: bool)

  const AT_REST := Mode(0, 0, [], [], false)

  /** Tokens taken from the front of a text, what is left, and the mode then. */
  datatype Taken = Taken(toks: seq<Token>, rest: string, mode: Mode)

  // ----- Single tokens -----

  function BlanksEnd(s: string): (n: nat)
    ensures n <= |s|
  {
    if s != "" && IsBlank(s[0]) then 1 + BlanksEnd(s[1..]) else 0
  }

  function WordEnd(s: string): (n: nat)
    ensures n <= |s|
  {
    if s != "" && (IsAlpha(s[0]) || IsDigit(s[0])) then 1 + WordEnd(s[1..]) else 0
  }

  predicate InBase(c: char, base: nat)
  {
    if base == 16 then HexDigit(c).Some? else if base == 8 then IsOctal(c) else if base == 2 then c == '0' || c == '1' else IsDigit(c)
  }

  function DigitsEnd(s: string, base: nat): (n: nat)
    ensures n <= |s|
  {
    if s != "" && (InBase(s[0], base) || s[0] == '_') then 1 + DigitsEnd(s[1..], base) else 0
  }

  /** The base a letter behind a leading zero stands for. */
  function BaseOf(c: char): nat
  {
    if c == 'x' || c == 'X' then 16 else if c == 'o' || c == 'O' then 8 else if c == 'b' || c == 'B' then 2 else 0
  }

  /** The character at a position, NUL past the end. */
  function CharAt(s: string, i: nat): char
  {
    if i < |s| then s[i] else '\0'
  }

  /** Kind and length of the number in front; none when a prefix has no digit behind it. */
  function NumberEnd(s: string): (r: Option<(Kind, nat)>)
    requires s != ""
    ensures r.Some? ==> 0 < r.value.1 <= |s|
  {
    var base := if s[0] == '0' then BaseOf(CharAt(s, 1)) else 0;
    if base != 0 then (if InBase(CharAt(s, 2), base) then Some((Integer, 2 + DigitsEnd(s[2..], base))) else None)
    else
      var n := 1 + DigitsEnd(s[1..], 10);
      if CharAt(s, n) == '.' && IsDigit(CharAt(s, n + 1)) then Some((Float, n + 1 + DigitsEnd(s[n + 1..], 10))) else Some((Integer, n))
  }

  /** The two-character operators. */
  predicate Combine(c: char, d: char)
  {
    || [c, d] == "++" || [c, d] == "--" || [c, d] == ":=" || [c, d] == "==" || [c, d] == "=>" || [c, d] == "!=" || [c, d] == "<-"
    || [c, d] == "<=" || [c, d] == ">=" || [c, d] == "|>" || [c, d] == "||" || [c, d] == "&&" || [c, d] == "&="
  }

  predicate StartsOperator(c: char)
  {
    c in "+-:=!<>|&;,.*/%"
  }

  function CommentEnd(s: string): (n: nat)
    ensures n <= |s|
  {
    if s != "" && s[0] != '\n' then 1 + CommentEnd(s[1..]) else 0
  }

  function CommentKind(lexeme: string): Kind
  {
    if "# kuki:" <= lexeme then Directive else Comment
  }

  /** The length of a raw string's text; none when a NUL or the end of the source comes before the backquote. */
  function RawEnd(s: string): (r: Option<nat>)
    ensures r.Some? ==> r.value < |s| && s[r.value] == '`'
  {
    if s == "" || s[0] == '\0' then None
    else if s[0] == '`' then Some(0)
    else
      var r := RawEnd(s[1..]);
      if r.Some? then Some(1 + r.value) else None
  }

  /** Whether a block keyword waits for its brace behind a token. */
  function KeywordAfter(keyword: bool, t: Token): bool
  {
    if StartsBlock(t) then true else if EndsBlockHead(t) then false else keyword
  }

  /** The first n characters as one token. */
  function Take(s: string, n: nat, kind: Kind, m: Mode): Taken
    requires n <= |s|
  {
    var t := Token(kind, s[..n]);
    Taken([t], s[n..], m.(keyword := KeywordAfter(m.keyword, t)))
  }

  /** One brace more or less in the innermost interpolated expression. */
  function Bumped(interps: seq<Interp>, n: int): seq<Interp>
    requires interps != [] ==> Last(interps).braceDepth + n >= 0
  {
    if interps == [] then [] else Front(interps) + [Last(interps).(braceDepth := Last(interps).braceDepth + n)]
  }

  /** A string body that ends properly becomes one token; an interpolation is left open behind it. */
  function TakeBody(r: Body, interpKind: Kind, endKind: Kind, quote: char, m: Mode): Option<Taken>
  {
    if r.errors > 0 then None
    else match r.end
      case Closed => Some(Taken([Token(endKind, r.value)], r.rest, m))
      case Interpolates => Some(Taken([Token(interpKind, r.value)], r.rest, m.(interps := m.interps + [Interp(0, quote)])))
      case Broken => None
  }

  function TakeString(s: string, m: Mode): Option<Taken>
    requires s != ""
  {
    match ScanQuoted(s[1..])
    case Triple => None
    case Single(body) => TakeBody(body, StrHead, Str, '"', m)
  }

  function TakeCloseBrace(s: string, m: Mode): Option<Taken>
    requires s != ""
  {
    if m.interps != [] && Last(m.interps).braceDepth == 0 then
      var quote := Last(m.interps).quote;
      TakeBody(ScanBody(s[1..], quote, ""), StrMid, StrTail, quote, m.(interps := Front(m.interps)))
    else if m.braceStack != [] && Last(m.braceStack) then
      Some(Take(s, 1, Dedent, m.(interps := Bumped(m.interps, -1), braceStack := Front(m.braceStack))))
    else
      Some(Take(s, 1, Symbol, m.(
        interps := Bumped(m.interps, -1),
        braceStack := if m.braceStack == [] then [] else Front(m.braceStack),
        braces := if m.braces > 0 then m.braces - 1 else 0)))
  }

  /** Brackets and braces count; a brace behind a block keyword opens a block. */
  function TakeBracket(s: string, m: Mode): Option<Taken>
    requires s != ""
  {
    var c := s[0];
    if c == '(' then Some(Take(s, 1, Symbol, m.(parens := m.parens + 1)))
    else if c == ')' then Some(Take(s, 1, Symbol, m.(parens := if m.parens > 0 then m.parens - 1 else 0)))
    else if c == '[' then Some(Take(s, 1, Symbol, m.(braces := m.braces + 1)))
    else if c == ']' then Some(Take(s, 1, Symbol, m.(braces := if m.braces > 0 then m.braces - 1 else 0)))
    else if c == '{' then
      if m.keyword then Some(Take(s, 1, Indent, m.(interps := Bumped(m.interps, 1), braceStack := m.braceStack + [true])))
      else Some(Take(s, 1, Symbol, m.(interps := Bumped(m.interps, 1), braceStack := m.braceStack + [false], braces := m.braces + 1)))
    else if c == '}' then TakeCloseBrace(s, m)
    else None
  }

  function TakeNumber(s: string, m: Mode): Option<Taken>
    requires s != ""
  {
    var n := NumberEnd(s);
    if n.Some? then Some(Take(s, n.value.1, n.value.0, m)) else None
  }

  function TakeOperator(s: string, m: Mode): Option<Taken>
    requires s != ""
  {
    if !StartsOperator(s[0]) then None
    else
      var n := if Combine(s[0], CharAt(s, 1)) then 2 else 1;
      Some(Take(s, n, Symbol, m))
  }

  function TakeOther(s: string, m: Mode): Option<Taken>
    requires s != ""
  {
    if IsDigit(s[0]) then TakeNumber(s, m)
    else if IsAlpha(s[0]) then Some(Take(s, WordEnd(s), Word, m))
    else TakeOperator(s, m)
  }

  predicate IsBracket(c: char)
  {
    c == '(' || c == ')' || c == '[' || c == ']' || c == '{' || c == '}'
  }

  /**
   One scanning step inside a line: blanks, or one token. None for what is no matter
   of one line (line ends and multi-line literals) and for errors.
   */
  function Next(s: string, m: Mode): (r: Option<Taken>)
    requires s != ""
    ensures r.Some? ==> |r.value.rest| < |s|
  {
    var c := s[0];
    if IsBlank(c) then Some(Taken([], s[BlanksEnd(s)..], m))
    else if c == '\n' || c == '\r' || c == '\'' then None
    else if c == '#' then Some(Take(s, CommentEnd(s), CommentKind(s[..CommentEnd(s)]), m))
    else if c == '"' then TakeString(s, m)
    else if c == '`' then
      var n := RawEnd(s[1..]);
      if n.Some? then Some(Taken([Token(StrRaw, s[1..][..n.value])], s[1..][n.value + 1..], m)) else None
    else if IsBracket(c) then TakeBracket(s, m)
    else TakeOther(s, m)
  }

  /** The text is the end of another. */
  predicate Ending(rest: string, s: string)
  {
    |rest| <= |s| && rest == s[|s| - |rest|..]
  }

  lemma NextSuffix(s: string, m: Mode)
    requires s != "" && Next(s, m).Some?
    ensures Ending(Next(s, m).value.rest, s)
  {
    hide BlanksEnd, CommentEnd, CommentKind, RawEnd, TakeString, TakeBracket, TakeOther, KeywordAfter;
    if s[0] == '"' {
      StringSuffix(s, m);
    } else if s[0] == '`' {
      var n := RawEnd(s[1..]).value;
      assert s[1..][n + 1..] == s[n + 2..];
    } else if IsBracket(s[0]) {
      BracketSuffix(s, m);
    } else if !IsBlank(s[0]) && s[0] != '#' {
      OtherSuffix(s, m);
    }
  }

  lemma EndingBehind(rest: string, s: string)
    requires s != "" && Ending(rest, s[1..])
    ensures Ending(rest, s)
  {
    assert s[1..][|s| - 1 - |rest|..] == s[|s| - |rest|..];
  }

  lemma BodyEnding(s: string, quote: char)
    requires s != ""
    ensures Ending(ScanBody(s[1..], quote, "").rest, s)
  {
    hide ScanBody;
    BodySuffix(s[1..], quote, "");
    EndingBehind(ScanBody(s[1..], quote, "").rest, s);
  }

  lemma StringSuffix(s: string, m: Mode)
    requires s != "" && TakeString(s, m).Some?
    ensures Ending(TakeString(s, m).value.rest, s)
  {
    hide ScanBody, Ending;
    if |s| >= 2 && s[1] == '"' {
      EmptyEnding(s);
    } else {
      BodyEnding(s, '"');
    }
  }

  lemma EmptyEnding(s: string)
    requires |s| >= 2
    ensures Ending(s[1..][1..], s)
  {
    assert s[1..][1..] == s[2..];
  }

  lemma BracketSuffix(s: string, m: Mode)
    requires s != "" && TakeBracket(s, m).Some?
    ensures Ending(TakeBracket(s, m).value.rest, s)
  {
    hide ScanBody, Bumped, KeywordAfter;
    BodyEnding(s, if m.interps != [] then Last(m.interps).quote else '"');
  }

  lemma OtherSuffix(s: string, m: Mode)
    requires s != "" && TakeOther(s, m).Some?
    ensures Ending(TakeOther(s, m).value.rest, s)
  {
    hide NumberEnd, WordEnd, KeywordAfter;
  }

  // ----- Literals over several lines -----

  /** A literal's text is dedented, spliced back with a closing quote, and scanned from there. */
  function TakeMultiline(text: (string, string), m: Mode): Option<Taken>
  {
    TakeBody(ScanBody(Injected(Dedented(text.0)) + ("\"" + text.1), '"', ""), StrHead, Str, '"', m)
  }

  lemma MultilineLess(s: string, behind: string, text: (string, string), m: Mode)
    requires Count(text.0, '\'') + Count(text.1, '\'') <= Count(behind, '\'') && Count(text.0, '"') + Count(text.1, '"') <= Count(behind, '"')
    requires Count(behind, '\'') < Count(s, '\'') || (Count(behind, '\'') == Count(s, '\'') && Count(behind, '"') + 1 < Count(s, '"'))
    ensures TakeMultiline(text, m).Some? ==> Less(TakeMultiline(text, m).value.rest, s)
  {
    hide Count, Dedented, Injected, ScanBody, Solid;
    DedentedSolid(text.0);
    SplicedCounts(text.0, Dedented(text.0), text.1);
  }

  lemma {:induction false} TripleCounts(s: string, c: char)
    ensures Count(TripleText(s).0, c) + Count(TripleText(s).1, c) <= Count(s, c)
  {
    if s == "" {
    } else if |s| >= 3 && s[..3] == "\"\"\"" {
      assert s[0..] == s;
      CountSuffix(s, 0, 3, c);
    } else {
      TripleCounts(s[1..], c);
      CountJoin([s[0]], TripleText(s[1..]).0, c);
    }
  }

  lemma {:induction false} SingleCounts(s: string, c: char)
    ensures Count(SingleText(s).0, c) + Count(SingleText(s).1, c) <= Count(s, c)
  {
    if s == "" || s[0] == '\'' {
    } else if |s| >= 2 && s[0] == '\\' && s[1] == '\'' {
      SingleCounts(s[2..], c);
      CountJoin("\'", SingleText(s[2..]).0, c);
      assert s[1..][1..] == s[2..] && s[1..][0] == '\'';
    } else {
      SingleCounts(s[1..], c);
      CountJoin([s[0]], SingleText(s[1..]).0, c);
    }
  }

  lemma SingleLess(s: string, m: Mode)
    requires s != "" && s[0] == '\''
    ensures TakeMultiline(SingleText(s[1..]), m).Some? ==> Less(TakeMultiline(SingleText(s[1..]), m).value.rest, s)
  {
    hide TakeMultiline, SingleText;
    SingleCounts(s[1..], '\'');
    SingleCounts(s[1..], '"');
    MultilineLess(s, s[1..], SingleText(s[1..]), m);
  }

  lemma TripleLess(s: string, m: Mode)
    requires |s| >= 3 && s[0] == '"' && s[1] == '"' && s[2] == '"'
    ensures TakeMultiline(TripleText(s[3..]), m).Some? ==> Less(TakeMultiline(TripleText(s[3..]), m).value.rest, s)
  {
    hide TakeMultiline, TripleText;
    assert s[1..][1..] == s[2..] && s[2..][1..] == s[3..];
    assert Count(s[2..], '"') == 1 + Count(s[3..], '"') && Count(s[2..], '\'') == Count(s[3..], '\'');
    assert Count(s[1..], '"') == 1 + Count(s[2..], '"') && Count(s[1..], '\'') == Count(s[2..], '\'');
    TripleCounts(s[3..], '\'');
    TripleCounts(s[3..], '"');
    MultilineLess(s, s[3..], TripleText(s[3..]), m);
  }

  lemma NextLess(s: string, m: Mode)
    requires s != "" && Next(s, m).Some?
    ensures Less(Next(s, m).value.rest, s)
  {
    hide Next;
    NextSuffix(s, m);
    SuffixLess(s, |s| - |Next(s, m).value.rest|);
  }

  predicate IsTriple(s: string)
  {
    |s| >= 3 && s[0] == '"' && s[1] == '"' && s[2] == '"'
  }

  /** One scanning step that is no line end. */
  function NextAny(s: string, m: Mode): (r: Option<Taken>)
    requires s != ""
    ensures r.Some? ==> Less(r.value.rest, s)
  {
    if s[0] == '\'' then
      SingleLess(s, m);
      TakeMultiline(SingleText(s[1..]), m)
    else if IsTriple(s) then
      TripleLess(s, m);
      TakeMultiline(TripleText(s[3..]), m)
    else
      var r := Next(s, m);
      if r.Some? then NextLess(s, m); r else None
  }

  lemma NextIsAny(s: string, m: Mode)
    requires s != "" && Next(s, m).Some?
    ensures NextAny(s, m) == Next(s, m)
  {
    hide TakeBracket, TakeOther, TakeMultiline, TripleText, SingleText, ScanBody;
  }

  /** A closing brace that ends an interpolated expression. */
  predicate EndsInterpolation(s: string, m: Mode)
    requires s != ""
  {
    s[0] == '}' && m.interps != [] && Last(m.interps).braceDepth == 0
  }

  function SplicedText(s: string, text: (string, string)): string
  {
    (if |text.1| <= |s| then s[..|s| - |text.1|] else "") + (Injected(Dedented(text.0)) + ("\"" + text.1))
  }

  /** The text of the last step, when it reaches the end of the source: that of the token, and of a spliced literal also what was spliced in. */
  function LastText(s: string, m: Mode): string
    requires s != ""
  {
    if s[0] == '\'' then SplicedText(s, SingleText(s[1..]))
    else if IsTriple(s) then SplicedText(s, TripleText(s[3..]))
    else if EndsInterpolation(s, m) then s[1..]
    else s
  }

  // ----- Levels and closures -----

  /**
   The open levels; the levels and bracket depths of the closure bodies among them;
   whether the next deeper line is such a body; and what opens one: a fat arrow at
   the line's end, or a function literal on the line.
   */
  datatype Margin = Margin(indents: seq<int>, closures: seq<int>, depths: seq<nat>, pending: bool, arrow: bool, literal: bool)

  /** Levels only. */
  function Flush(indents: seq<int>): Margin
  {
    Margin(indents, [], [], false, false, false)
  }

  /** Behind a token; comments do not part a fat arrow from the line's end. */
  function ArrowAfter(arrow: bool, toks: seq<Token>): bool
  {
    if toks == [] then arrow
    else IsFatArrow(Last(toks)) || (arrow && (Last(toks).kind.Comment? || Last(toks).kind.Directive?))
  }

  function LiteralAfter(literal: bool, toks: seq<Token>): bool
  {
    literal || (toks != [] && Last(toks).kind.Word? && (Last(toks).lexeme == "func" || Last(toks).lexeme == "function"))
  }

  function Noted(g: Margin, toks: seq<Token>): Margin
  {
    g.(arrow := ArrowAfter(g.arrow, toks), literal := LiteralAfter(g.literal, toks))
  }

  /** In a call, and not in the body of a closure that stands at that depth. */
  predicate InCall(parens: nat, depths: seq<nat>)
  {
    parens != 0 && (depths == [] || parens > Last(depths))
  }

  /** The innermost level goes, and the closure body it is. */
  function Outer(g: Margin): Margin
    requires g.indents != []
  {
    var h := g.(indents := Front(g.indents));
    if g.closures != [] && g.depths != [] && Last(g.closures) == Last(g.indents)
    then h.(closures := Front(g.closures), depths := Front(g.depths)) else h
  }

  function Outdented(g: Margin, spaces: int): (r: Margin)
    ensures r.indents == Popped(g.indents, spaces) && r.(indents := [], closures := [], depths := []) == g.(indents := [], closures := [], depths := [])
    decreases |g.indents|
  {
    if |g.indents| > 1 && Last(g.indents) > spaces then Outdented(Outer(g), spaces) else g
  }

  /** What a line's leading spaces do; a bad indent changes nothing. */
  function MarginAfter(g: Margin, parens: nat, spaces: nat): (r: Margin)
    requires g.indents != []
    ensures r.indents == StackAfter(g.indents, spaces, g.pending)
  {
    if BadIndent(g.indents, spaces, g.pending) then g
    else if spaces > Last(g.indents) then
      var more := g.(indents := g.indents + [spaces], pending := false);
      if g.pending then more.(closures := g.closures + [spaces], depths := g.depths + [parens]) else more
    else Outdented(g, spaces)
  }

  function SpacesIn(s: string): nat
  {
    if s != "" && IsBlank(s[0]) then (if s[0] == ' ' then 1 else 0) + SpacesIn(s[1..]) else 0
  }

  // ----- Lines -----

  function Before(toks: seq<Token>, rest: Option<seq<Token>>): Option<seq<Token>>
  {
    if rest.Some? then Some(toks + rest.value) else None
  }

  /** Nothing is open at the line's end. */
  predicate Rests(m: Mode)
  {
    m.(keyword := false) == AT_REST
  }

  /** The indentation is legal, and a shallower line returns to an open level. */
  predicate GoodIndent(indents: seq<int>, n: nat)
    requires |indents| > 0
  {
    !BadIndent(indents, n, false) && (n < Last(indents) ==> Last(StackAfter(indents, n, false)) == n)
  }

  /** What the leading blanks of a line do: layout tokens, the margin then, and the text behind the blanks. */
  datatype Started = Started(toks: seq<Token>, margin: Margin, rest: string)

  /**
   Within a block's braces blanks are nothing, but the source must not end with
   them; blank lines, comment lines and further lines of a call leave the levels
   alone; tabs and illegal indentation are errors.
   */
  function LineStart(s: string, m: Mode, g: Margin): (r: Option<Started>)
    requires g.indents != []
    ensures r.Some? ==> r.value.margin.indents != [] && |r.value.rest| <= |s|
  {
    var n := BlanksEnd(s);
    var rest := s[n..];
    if true in m.braceStack then (if rest == "" then None else Some(Started([], g, rest)))
    else if '\t' in s[..n] then None
    else if rest == "" || rest[0] == '\n' || rest[0] == '\r' || rest[0] == '#' || (InCall(m.parens, g.depths) && !g.pending) then Some(Started([], g, rest))
    else
      var h := MarginAfter(g, m.parens, n);
      if BadIndent(g.indents, n, g.pending) then None
      else if n < Last(g.indents) && !InCall(m.parens, h.depths) && Last(h.indents) != n then None
      else Some(Started(StepTokens(|g.indents|, |h.indents|, s[..n]), h, rest))
  }

  /** The length of a line end in front of a text; 0 if there is none. */
  function LineEnd(s: string): (n: nat)
    ensures n <= |s| && (n > 0 <==> s != "" && (s[0] == '\n' || s[0] == '\r'))
  {
    if s == "" then 0 else if s[0] == '\n' then 1 else if s[0] != '\r' then 0 else if |s| > 1 && s[1] == '\n' then 2 else 1
  }

  /** A line end counts unless a bracket, a literal's brace or a call is open; in a call it counts where a closure's body follows. */
  predicate Counts(m: Mode, g: Margin, behind: string)
    requires g.indents != []
  {
    m.braces == 0 && (InCall(m.parens, g.depths) ==> (g.arrow || g.literal) && SpacesIn(behind) > Last(g.indents))
  }

  /** Behind a line end that counts. */
  function NewLine(m: Mode, g: Margin): Margin
  {
    g.(arrow := false, literal := false, pending := g.pending || InCall(m.parens, g.depths))
  }

  /** Behind one that does not. */
  function SameLine(g: Margin): Margin
  {
    g.(arrow := false, literal := false)
  }

  /** The end of the source closes the open levels; `last` is the token text scanned last. */
  function Finish(g: Margin, last: string): seq<Token>
  {
    StepTokens(|g.indents|, 1, last) + [Token(EndOfFile, last)]
  }

  /** From the start of a line to the end of the source; none where the source is in error. */
  function ScanLines(s: string, m: Mode, g: Margin, last: string): Option<seq<Token>>
    requires g.indents != []
    decreases Count(s, '\''), Count(s, '"'), |s|, 1
  {
    if s == "" then Some(Finish(g, last))
    else
      var st := LineStart(s, m, g);
      if st.Some? then BehindBlanks(s, m, g); Before(st.value.toks, ScanRest(st.value.rest, m, st.value.margin, s[..BlanksEnd(s)])) else None
  }

  /** The rest of a line, and the lines behind it. */
  function ScanRest(s: string, m: Mode, g: Margin, last: string): Option<seq<Token>>
    requires g.indents != []
    decreases Count(s, '\''), Count(s, '"'), |s|, 0
  {
    if s == "" then Some(Finish(g, last))
    else if LineEnd(s) > 0 then
      var end, behind := s[..LineEnd(s)], s[LineEnd(s)..];
      SuffixLess(s, LineEnd(s));
      if Counts(m, g, behind) then Before([Token(Newline, end)], ScanLines(behind, m.(keyword := false), NewLine(m, g), end))
      else
        SuffixAtMost(behind, BlanksEnd(behind));
        ScanSameLine(behind, m, g, end)
    else
      var t := NextAny(s, m);
      if t.Some? then Before(t.value.toks, ScanRest(t.value.rest, t.value.mode, Noted(g, t.value.toks), LastText(s, m))) else None
  }

  /** Behind a line end that does not count: the source must not end with blanks here. */
  function ScanSameLine(behind: string, m: Mode, g: Margin, end: string): Option<seq<Token>>
    requires g.indents != []
    decreases Count(behind, '\''), Count(behind, '"'), |behind|, 2
  {
    if behind == "" then Some(Finish(g, end))
    else if BlanksEnd(behind) == |behind| then None
    else
      SuffixAtMost(behind, BlanksEnd(behind));
      ScanRest(behind[BlanksEnd(behind)..], m, SameLine(g), "")
  }

  lemma SuffixAtMost(s: string, i: nat)
    requires i <= |s|
    ensures s[i..] == s || Less(s[i..], s)
  {
    if i > 0 {
      SuffixLess(s, i);
    }
  }

  lemma BehindBlanks(s: string, m: Mode, g: Margin)
    requires g.indents != [] && LineStart(s, m, g).Some?
    ensures LineStart(s, m, g).value.rest == s || Less(LineStart(s, m, g).value.rest, s)
  {
    SuffixAtMost(s, BlanksEnd(s));
  }

  /** The tokens of a whole program, before the pass that joins pipe chains. */
  function ScanProgram(source: string): Option<seq<Token>>
  {
    ScanLines(source, AT_REST, Flush([0]), "")
  }

  // ----- One step at a time -----

  lemma BeforeTwice(a: seq<Token>, b: seq<Token>, rest: Option<seq<Token>>)
    ensures Before(a, Before(b, rest)) == Before(a + b, rest)
  {
    if rest.Some? {
      assert a + (b + rest.value) == a + b + rest.value;
    }
  }

  lemma BeforeSome(toks: seq<Token>, rest: Option<seq<Token>>)
    ensures Before(toks, rest).Some? <==> rest.Some?
  {
  }

  lemma BeforeEmpty(rest: Option<seq<Token>>)
    ensures Before([], rest) == rest
  {
    assert rest.Some? ==> [] + rest.value == rest.value;
  }

  /** A line end is no token of the line. */
  lemma NoReturns(s: string, m: Mode)
    requires s != "" && (s[0] == '\n' || s[0] == '\r')
    ensures Next(s, m).None?
  {
  }

  lemma LinesStep(s: string, m: Mode, g: Margin, last: string)
    requires g.indents != [] && s != ""
    ensures var st := LineStart(s, m, g);
      ScanLines(s, m, g, last)
        == if st.Some? then Before(st.value.toks, ScanRest(st.value.rest, m, st.value.margin, s[..BlanksEnd(s)])) else None
  {
  }

  lemma RestStep(s: string, m: Mode, g: Margin, last: string)
    requires g.indents != [] && s != ""
    ensures ScanRest(s, m, g, last) ==
      if LineEnd(s) > 0 then (
        var end, behind := s[..LineEnd(s)], s[LineEnd(s)..];
        if Counts(m, g, behind) then Before([Token(Newline, end)], ScanLines(behind, m.(keyword := false), NewLine(m, g), end))
        else ScanSameLine(behind, m, g, end))
      else (
        var t := NextAny(s, m);
        if t.Some? then Before(t.value.toks, ScanRest(t.value.rest, t.value.mode, Noted(g, t.value.toks), LastText(s, m))) else None)
  {
  }

  /** Behind a line end that does not count, a closure's head is forgotten. */
  lemma SameLineTwice(behind: string, m: Mode, g: Margin, end: string)
    requires g.indents != []
    ensures ScanSameLine(behind, m, SameLine(g), end) == ScanSameLine(behind, m, g, end)
  {
  }

  /** The text scanned before is no matter before the end of the source. */
  lemma AnyLast(s: string, m: Mode, g: Margin, last: string, other: string)
    requires g.indents != [] && s != ""
    ensures ScanRest(s, m, g, last) == ScanRest(s, m, g, other) && ScanLines(s, m, g, last) == ScanLines(s, m, g, other)
  {
    hide ScanRest, ScanLines;
    RestStep(s, m, g, last);
    RestStep(s, m, g, other);
    LinesStep(s, m, g, last);
    LinesStep(s, m, g, other);
  }
}
