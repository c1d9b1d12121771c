/**
 The tokenizer (internal/lexer/lexer.go): one object whose methods move a cursor,
 push and pop the layout stacks, append tokens, and splice text into the source.
 */
module Lexer {
  import opened Prelude
  import opened LexText
  import opened Layout
  import opened TripleQuote
  import opened LineScan

  /** Blanks from a position on. */
  function Blanks(s: string, i: nat): (n: nat)
    requires i <= |s|
    ensures i + n <= |s|
    decreases |s| - i
  {
    if i < |s| && IsBlank(s[i]) then 1 + Blanks(s, i + 1) else 0
  }

  /** The spaces among the blanks from a position on. */
  function SpacesAhead(s: string, i: nat): nat
    requires i <= |s|
    decreases |s| - i
  {
    if i < |s| && IsBlank(s[i]) then (if s[i] == ' ' then 1 else 0) + SpacesAhead(s, i + 1) else 0
  }

  predicate BlankOrComment(s: string, i: nat)
  {
    i >= |s| || s[i] == '\n' || s[i] == '\r' || s[i] == '#'
  }

  /** From some tokens and what was still to come to more tokens and what is still to come now, or an error was found. */
  ghost predicate Kept(program: Option<seq<Token>>, remaining: Option<seq<Token>>, before: seq<Token>, errs: nat, toks: seq<Token>, errs': nat)
  {
    && errs' >= errs
    && (program.Some? ==> errs' == errs && Before(toks, remaining) == Before(before, program))
    && (program.None? ==> errs' > errs || remaining.None?)
  }

  lemma KeptOn(program: Option<seq<Token>>, middle: Option<seq<Token>>, last: Option<seq<Token>>,
               before: seq<Token>, errs: nat, toks: seq<Token>, errs': nat, after: seq<Token>, errs'': nat)
    requires Kept(program, middle, before, errs, toks, errs') && Kept(middle, last, toks, errs', after, errs'')
    ensures Kept(program, last, before, errs, after, errs'')
  {
    hide Before;
    BeforeSome(before, program);
    BeforeSome(toks, middle);
  }

  lemma FailedBehind(program: Option<seq<Token>>, remaining: Option<seq<Token>>, before: seq<Token>, errs: nat, toks: seq<Token>, errs': nat)
    requires program.None? && errs' > errs
    ensures Kept(program, remaining, before, errs, toks, errs')
  {
  }

  /** The order in which the scan makes progress although it also splices text in front of its cursor. */
  ghost predicate Shrinks(s0: string, handled0: bool, s1: string, handled1: bool)
  {
    var q0, q1 := Count(s0, '\''), Count(s1, '\'');
    var d0, d1 := Count(s0, '"'), Count(s1, '"');
    q1 < q0 || (q1 == q0 && (d1 < d0 || (d1 == d0 && (|s1| < |s0| || (|s1| == |s0| && !handled0 && handled1)))))
  }

  /** What the lexer's fields keep to at every step. */
  ghost predicate Consistent(tokens: seq<Token>, indents: seq<int>, closures: seq<int>, parens: seq<nat>, braces: seq<bool>, blockDepth: nat)
  {
    && |indents| > 0 && Levels(indents) && Closures(closures, parens, indents)
    && blockDepth == Trues(braces)
    && Nested(tokens) && Depth(tokens) == |indents| - 1 + blockDepth
  }

  lemma SomeLevel(tokens: seq<Token>, indents: seq<int>, closures: seq<int>, parens: seq<nat>, braces: seq<bool>, blockDepth: nat)
    requires Consistent(tokens, indents, closures, parens, braces, blockDepth)
    ensures |indents| > 0
  {
  }

  class Lexer {
    var source: string
    var start: nat
    var current: nat
    var tokens: seq<Token>
    var errors: nat
    var indentStack: seq<int>
    var atLineStart: bool
    var indentationHandled: bool
    var continuationLine: bool
    var braceDepth: nat
    var parenDepth: nat
    var inFunctionLiteral: bool
    var closureIndentStack: seq<int>
    var closureParenDepthStack: seq<nat>
    var afterFatArrow: bool
    var pendingClosureBlock: bool
    var blockKeywordSeen: bool
    var braceStack: seq<bool>
    var braceBlockDepth: nat
    var interpStack: seq<Interp>

    constructor (text: string)
      ensures Valid() && Fresh() && source == text
    {
      source, start, current, tokens, errors := text, 0, 0, [], 0;
      indentStack, atLineStart, indentationHandled := [0], true, false;
      continuationLine, braceDepth, parenDepth, inFunctionLiteral := false, 0, 0, false;
      closureIndentStack, closureParenDepthStack := [], [];
      afterFatArrow, pendingClosureBlock, blockKeywordSeen := false, false, false;
      braceStack, braceBlockDepth, interpStack := [], 0, [];
    }

    ghost predicate InBounds()
      reads `source, `start, `current
    {
      start <= current <= |source|
    }

    ghost predicate Valid()
      reads this
    {
      InBounds() && Consistent(tokens, indentStack, closureIndentStack, closureParenDepthStack, braceStack, braceBlockDepth)
    }

    /** The text not yet consumed. */
    ghost function Ahead(): string
      requires current <= |source|
      reads `source, `current
    {
      source[current..]
    }

    /** What is open, and whether a block keyword waits for its brace. */
    ghost function Open(): Mode
      reads `parenDepth, `braceDepth, `braceStack, `interpStack, `blockKeywordSeen
    {
      Mode(parenDepth, braceDepth, braceStack, interpStack, blockKeywordSeen)
    }

    /** The open levels and closures, and what may open a closure's body. */
    ghost function Edge(): Margin
      reads `indentStack, `closureIndentStack, `closureParenDepthStack, `pendingClosureBlock, `afterFatArrow, `inFunctionLiteral
    {
      Margin(indentStack, closureIndentStack, closureParenDepthStack, pendingClosureBlock, afterFatArrow, inFunctionLiteral)
    }

    // ----- The cursor -----

    function Peek(): (c: char)
      requires current <= |source|
      reads `source, `current
      ensures c == if Ahead() == "" then '\0' else Ahead()[0]
    {
      if current >= |source| then '\0' else source[current]
    }

    function PeekNext(): char
      reads `source, `current
    {
      if current + 1 >= |source| then '\0' else source[current + 1]
    }

    method Advance() returns (c: char)
      requires InBounds()
      modifies `current
      ensures InBounds() && c == if old(Ahead()) == "" then '\0' else old(Ahead())[0]
      ensures Ahead() == if old(Ahead()) == "" then "" else old(Ahead())[1..]
      ensures current == old(current) + (if old(Ahead()) == "" then 0 else 1)
    {
      if current >= |source| {
        return '\0';
      }
      c := source[current];
      current := current + 1;
    }

    method Match(expected: char) returns (b: bool)
      requires InBounds()
      modifies `current
      ensures InBounds() && b == (old(Ahead()) != "" && old(Ahead())[0] == expected)
      ensures current == old(current) + (if b then 1 else 0)
    {
      if current >= |source| || source[current] != expected {
        return false;
      }
      current := current + 1;
      return true;
    }

    method SkipBlanks()
      requires InBounds()
      modifies `current
      ensures InBounds() && current == old(current) + Blanks(source, old(current))
    {
      while current < |source| && IsBlank(source[current])
        invariant InBounds() && old(current) <= current
        invariant current + Blanks(source, current) == old(current) + Blanks(source, old(current))
      {
        current := current + 1;
      }
    }

    // ----- Tokens -----

    /** At most one token more, and whether a closure's body may follow is as it says. */
    ghost predicate HeadNoted(before: seq<Token>, arrow: bool, literal: bool)
      reads `tokens, `afterFatArrow, `inFunctionLiteral
    {
      && before <= tokens && |tokens| <= |before| + 1
      && afterFatArrow == ArrowAfter(arrow, tokens[|before|..]) && inFunctionLiteral == LiteralAfter(literal, tokens[|before|..])
    }

    lemma NotedToken(before: seq<Token>, arrow: bool, literal: bool, t: Token)
      requires tokens == before + [t] && afterFatArrow == ArrowAfter(arrow, [t]) && inFunctionLiteral == LiteralAfter(literal, [t])
      ensures HeadNoted(before, arrow, literal)
    {
      assert tokens[|before|..] == [t];
    }

    lemma NotedNone()
      ensures HeadNoted(tokens, afterFatArrow, inFunctionLiteral)
    {
      assert tokens[|tokens|..] == [];
    }

    method AddTokenWithLexeme(kind: Kind, lexeme: string)
      modifies `tokens, `afterFatArrow, `blockKeywordSeen
      ensures tokens == old(tokens) + [Token(kind, lexeme)]
      ensures blockKeywordSeen == KeywordAfter(old(blockKeywordSeen), Token(kind, lexeme))
      ensures afterFatArrow == (old(afterFatArrow) && ArrowAfter(true, [Token(kind, lexeme)]))
      ensures Headless(kind, lexeme) ==> HeadNoted(old(tokens), old(afterFatArrow), old(inFunctionLiteral))
      ensures Headless(kind, lexeme) && !kind.Newline? && !kind.Indent? ==> blockKeywordSeen == old(blockKeywordSeen)
      ensures Depth(tokens) == Depth(old(tokens)) + Weight(Token(kind, lexeme))
      ensures Nested(tokens) <==> Nested(old(tokens)) && Depth(tokens) >= 0
      ensures old(Valid()) && Flat(kind) ==> Valid()
    {
      hide Depth, Nested, HeadNoted, ArrowAfter, IsFatArrow;
      var t := Token(kind, lexeme);
      DepthSnoc(tokens, t);
      ArrowOne(afterFatArrow, t);
      tokens := tokens + [t];
      if afterFatArrow && !IsFatArrow(t) && !kind.Comment? && !kind.Directive? {
        afterFatArrow := false;
      }
      if StartsBlock(t) {
        blockKeywordSeen := true;
      } else if EndsBlockHead(t) {
        blockKeywordSeen := false;
      }
      if Headless(kind, lexeme) {
        NotedToken(old(tokens), old(afterFatArrow), old(inFunctionLiteral), t);
      }
    }

    method AddToken(kind: Kind)
      requires InBounds()
      modifies `tokens, `afterFatArrow, `blockKeywordSeen
      ensures tokens == old(tokens) + [Token(kind, source[start..current])]
      ensures blockKeywordSeen == KeywordAfter(old(blockKeywordSeen), Token(kind, source[start..current]))
      ensures afterFatArrow == (old(afterFatArrow) && ArrowAfter(true, [Token(kind, source[start..current])]))
      ensures Headless(kind, source[start..current]) ==> HeadNoted(old(tokens), old(afterFatArrow), old(inFunctionLiteral))
      ensures Headless(kind, source[start..current]) && !kind.Newline? && !kind.Indent? ==> blockKeywordSeen == old(blockKeywordSeen)
      ensures Depth(tokens) == Depth(old(tokens)) + Weight(Last(tokens))
      ensures Nested(tokens) <==> Nested(old(tokens)) && Depth(tokens) >= 0
      ensures old(Valid()) && Flat(kind) ==> Valid()
    {
      AddTokenWithLexeme(kind, source[start..current]);
    }

    method AddDedent()
      requires InBounds()
      modifies `tokens, `afterFatArrow, `blockKeywordSeen
      ensures tokens == old(tokens) + [Token(Dedent, source[start..current])]
      ensures blockKeywordSeen == old(blockKeywordSeen) && !afterFatArrow
      ensures HeadNoted(old(tokens), old(afterFatArrow), old(inFunctionLiteral))
    {
      hide Depth, Nested, HeadNoted, KeywordAfter;
      AddToken(Dedent);
    }

    // ----- Indentation -----

    /** Inside an open parenthesis and not in the body of a closure opened at that depth. */
    predicate InParenContinuation()
      reads `parenDepth, `closureParenDepthStack
    {
      parenDepth != 0 && (closureParenDepthStack == [] || parenDepth > Last(closureParenDepthStack))
    }

    method PeekNextLineIndent() returns (spaces: nat)
      requires InBounds()
      ensures spaces == SpacesAhead(source, current)
    {
      spaces := 0;
      var i := current;
      while i < |source| && IsBlank(source[i])
        invariant current <= i <= |source|
        invariant spaces + SpacesAhead(source, i) == SpacesAhead(source, current)
      {
        if source[i] == ' ' {
          spaces := spaces + 1;
        }
        i := i + 1;
      }
    }

    /** Leading blanks that leave the levels alone: with tabs, before a line end, a comment or the end of the source, and on the further lines of a call. */
    ghost predicate Silent(s: string, n: nat, parens: nat, g: Margin)
      requires n <= |s|
    {
      '\t' in s[..n] || BlankOrComment(s, n) || (InCall(parens, g.depths) && !g.pending)
    }

    /** The stack and the emitted indent or dedents are those of the number of leading blanks, and illegal ones are one error. */
    ghost predicate Stepped(lexeme: string, n: nat, parens: nat, g: Margin, before: seq<Token>, errs: nat)
      requires g.indents != []
      reads `tokens, `errors, `indentStack, `closureIndentStack, `closureParenDepthStack, `pendingClosureBlock, `afterFatArrow, `inFunctionLiteral
    {
      && indentStack == StackAfter(g.indents, n, g.pending)
      && (!g.arrow ==> Edge() == MarginAfter(g, parens, n))
      && tokens == before + StepTokens(|g.indents|, |indentStack|, lexeme)
      && errors == errs + if BadIndent(g.indents, n, g.pending) || BadDedent(parens, g, n) then 1 else 0
    }

    /** What leading blanks do. */
    ghost predicate Handled(s: string, n: nat, parens: nat, g: Margin, before: seq<Token>, errs: nat)
      requires n <= |s| && g.indents != []
      reads `tokens, `errors, `indentStack, `closureIndentStack, `closureParenDepthStack, `pendingClosureBlock, `afterFatArrow, `inFunctionLiteral
    {
      if Silent(s, n, parens, g) then Edge() == g && tokens == before && errors == errs + if '\t' in s[..n] then 1 else 0
      else Stepped(s[..n], n, parens, g, before, errs)
    }

    /** A shallower line outside calls that returns to no open level. */
    ghost predicate BadDedent(parens: nat, g: Margin, n: nat)
      requires g.indents != []
    {
      n < Last(g.indents) && !InCall(parens, Outdented(g, n).depths) && Last(StackAfter(g.indents, n, g.pending)) != n
    }

    lemma SteppedBadly(lexeme: string, n: nat, parens: nat, g: Margin, before: seq<Token>, errs: nat)
      requires g.indents != [] && BadIndent(g.indents, n, g.pending) && Edge() == g && tokens == before && errors == errs + 1
      ensures Stepped(lexeme, n, parens, g, before, errs)
    {
      assert before + [] == before;
    }

    lemma SteppedDeeper(lexeme: string, n: nat, parens: nat, g: Margin, before: seq<Token>, errs: nat)
      requires g.indents != [] && !BadIndent(g.indents, n, g.pending) && n > Last(g.indents)
      requires indentStack == g.indents + [n] && (!g.arrow ==> Edge() == MarginAfter(g, parens, n))
      requires tokens == before + [Token(Indent, lexeme)] && errors == errs
      ensures Stepped(lexeme, n, parens, g, before, errs)
    {
    }

    lemma SteppedBack(lexeme: string, n: nat, parens: nat, g: Margin, before: seq<Token>, errs: nat)
      requires g.indents != [] && !BadIndent(g.indents, n, g.pending) && n <= Last(g.indents)
      requires indentStack == Popped(g.indents, n) && (!g.arrow ==> Edge() == Outdented(g, n))
      requires tokens == before + StepTokens(|g.indents|, |indentStack|, lexeme) && errors == errs + if BadDedent(parens, g, n) then 1 else 0
      ensures Stepped(lexeme, n, parens, g, before, errs)
    {
      hide BadDedent, Outdented, Popped;
    }

    /** Leading blanks of a line. */
    method HandleIndentation()
      requires Valid() && start == current
      modifies `current, `tokens, `errors, `afterFatArrow, `blockKeywordSeen
      modifies `indentStack, `closureIndentStack, `closureParenDepthStack, `pendingClosureBlock
      ensures Valid() && current == old(current) + Blanks(source, old(current)) && |old(indentStack)| > 0 && errors >= old(errors)
      ensures old(tokens) <= tokens
      ensures !old(blockKeywordSeen) ==> !blockKeywordSeen
      ensures Handled(old(Ahead()), current - old(current), parenDepth, old(Edge()), old(tokens), old(errors))
    {
      hide Consistent, Blanks, Silent, Stepped;
      SomeLevel(tokens, indentStack, closureIndentStack, closureParenDepthStack, braceStack, braceBlockDepth);
      ghost var from := current;
      var spaces, tabs := CountBlanks();
      Cut(source, from, current);
      SilentHere(old(Ahead()), from, Edge());
      if tabs > 0 {
        errors := errors + 1;
        return;
      }
      if current >= |source| || source[current] == '\n' || source[current] == '\r' || source[current] == '#' {
        return;
      }
      if InParenContinuation() && !pendingClosureBlock {
        return;
      }
      StepLevels(spaces);
    }

    /** Indentation that counts. */
    method StepLevels(spaces: nat)
      requires Valid()
      modifies `tokens, `errors, `afterFatArrow, `blockKeywordSeen
      modifies `indentStack, `closureIndentStack, `closureParenDepthStack, `pendingClosureBlock
      ensures Valid() && old(tokens) <= tokens && |old(indentStack)| > 0 && errors >= old(errors)
      ensures !old(blockKeywordSeen) ==> !blockKeywordSeen
      ensures Stepped(source[start..current], spaces, parenDepth, old(Edge()), old(tokens), old(errors))
    {
      hide Consistent, Stepped, BadIndent, BadDedent, Outdented, StackAfter, MarginAfter, StepTokens;
      SomeLevel(tokens, indentStack, closureIndentStack, closureParenDepthStack, braceStack, braceBlockDepth);
      ghost var lexeme, g := source[start..current], Edge();
      BadHere(spaces);
      if spaces % 4 != 0 {
        errors := errors + 1;
        SteppedBadly(lexeme, spaces, parenDepth, g, old(tokens), old(errors));
        return;
      }
      var currentIndent := Last(indentStack);
      if spaces > currentIndent {
        if !pendingClosureBlock && spaces != currentIndent + 4 {
          errors := errors + 1;
          SteppedBadly(lexeme, spaces, parenDepth, g, old(tokens), old(errors));
          return;
        }
        OpenLevel(spaces);
        SteppedDeeper(lexeme, spaces, parenDepth, g, old(tokens), old(errors));
      } else if spaces < currentIndent {
        CloseLevels(spaces);
        BackHere(spaces, g);
        if InParenContinuation() {
          SteppedBack(lexeme, spaces, parenDepth, g, old(tokens), old(errors));
          return;
        }
        if Last(indentStack) != spaces {
          errors := errors + 1;
        }
        SteppedBack(lexeme, spaces, parenDepth, g, old(tokens), old(errors));
      } else {
        NoSteps(tokens, lexeme, g, spaces);
        SteppedBack(lexeme, spaces, parenDepth, g, old(tokens), old(errors));
      }
    }

    /** Whether the blanks just counted are silent. */
    lemma SilentHere(s: string, from: nat, g: Margin)
      requires from <= current <= |source| && s == source[from..] && g == Edge()
      ensures Silent(s, current - from, parenDepth, g)
        <==> '\t' in source[from..current] || BlankOrComment(source, current) || (InParenContinuation() && !pendingClosureBlock)
    {
    }

    lemma BadHere(n: nat)
      requires indentStack != []
      ensures BadIndent(indentStack, n, pendingClosureBlock)
        <==> n % 4 != 0 || (n > Last(indentStack) && !pendingClosureBlock && n != Last(indentStack) + 4)
    {
    }

    /** Whether the line returned to an open level. */
    lemma BackHere(n: nat, g: Margin)
      requires g.indents != [] && indentStack == Popped(g.indents, n) && n < Last(g.indents) && !BadIndent(g.indents, n, g.pending)
      requires closureParenDepthStack == Outdented(g, n).depths
      ensures BadDedent(parenDepth, g, n) <==> !InParenContinuation() && Last(indentStack) != n
    {
    }

    lemma NoSteps(toks: seq<Token>, lexeme: string, g: Margin, n: nat)
      requires g.indents != [] && Last(g.indents) == n
      ensures toks == toks + StepTokens(|g.indents|, |g.indents|, lexeme)
      ensures Popped(g.indents, n) == g.indents && Outdented(g, n) == g && !BadDedent(parenDepth, g, n)
    {
    }

    method CountBlanks() returns (spaces: nat, tabs: nat)
      requires InBounds()
      modifies `current
      ensures InBounds() && current == old(current) + Blanks(source, old(current))
      ensures tabs > 0 <==> '\t' in source[old(current)..current]
      ensures spaces + tabs == current - old(current)
    {
      spaces, tabs := 0, 0;
      while current < |source| && IsBlank(source[current])
        invariant InBounds() && old(current) <= current
        invariant current + Blanks(source, current) == old(current) + Blanks(source, old(current))
        invariant tabs > 0 <==> '\t' in source[old(current)..current]
        invariant spaces + tabs == current - old(current)
      {
        assert source[old(current)..current + 1] == source[old(current)..current] + [source[current]];
        if source[current] == ' ' {
          spaces := spaces + 1;
        } else {
          tabs := tabs + 1;
        }
        current := current + 1;
      }
    }

    /** Pushes a level and, behind a closure's head, the closure it opens. */
    method OpenLevel(spaces: nat)
      requires Valid() && spaces > Last(indentStack) && !BadIndent(indentStack, spaces, pendingClosureBlock)
      modifies `tokens, `afterFatArrow, `blockKeywordSeen
      modifies `indentStack, `closureIndentStack, `closureParenDepthStack, `pendingClosureBlock
      ensures Valid() && indentStack == old(indentStack) + [spaces] && old(tokens) <= tokens
      ensures tokens == old(tokens) + [Token(Indent, source[start..current])]
      ensures closureIndentStack == old(closureIndentStack) + if old(pendingClosureBlock) then [spaces as int] else []
      ensures closureParenDepthStack == old(closureParenDepthStack) + if old(pendingClosureBlock) then [parenDepth] else []
      ensures !pendingClosureBlock && !blockKeywordSeen
      ensures !old(afterFatArrow) ==> Edge() == MarginAfter(old(Edge()), parenDepth, spaces)
    {
      hide Depth, Nested, Closures, Levels;
      PushLevel(indentStack, spaces);
      PushClosure(closureIndentStack, closureParenDepthStack, indentStack, spaces, parenDepth);
      indentStack := indentStack + [spaces];
      AddToken(Indent);
      if pendingClosureBlock {
        closureIndentStack := closureIndentStack + [spaces];
        closureParenDepthStack := closureParenDepthStack + [parenDepth];
        pendingClosureBlock := false;
      }
    }

    method CloseLevels(spaces: nat)
      requires Valid()
      modifies `tokens, `afterFatArrow, `blockKeywordSeen
      modifies `indentStack, `closureIndentStack, `closureParenDepthStack
      ensures Valid() && indentStack == Popped(old(indentStack), spaces) && old(tokens) <= tokens
      ensures tokens == old(tokens) + StepTokens(|old(indentStack)|, |indentStack|, source[start..current])
      ensures Edge().(arrow := false) == Outdented(old(Edge()), spaces).(arrow := false) && (!old(afterFatArrow) ==> !afterFatArrow)
      ensures blockKeywordSeen == old(blockKeywordSeen)
    {
      hide Depth, Nested, Closures, Levels;
      assert tokens + [] == tokens;
      while |indentStack| > 1 && indentStack[|indentStack| - 1] > spaces
        invariant Valid() && |indentStack| <= |old(indentStack)| && old(tokens) <= tokens
        invariant Popped(indentStack, spaces) == Popped(old(indentStack), spaces)
        invariant tokens == old(tokens) + StepTokens(|old(indentStack)|, |indentStack|, source[start..current])
        invariant Outdented(Edge(), spaces).(arrow := false) == Outdented(old(Edge()), spaces).(arrow := false)
        invariant !old(afterFatArrow) ==> !afterFatArrow
        invariant blockKeywordSeen == old(blockKeywordSeen)
        decreases |indentStack|
      {
        ghost var g := Edge();
        CloseLevel();
        ArrowApart(Outer(g), spaces);
        MoreDedents(old(tokens), |old(indentStack)|, |indentStack|, source[start..current]);
      }
    }

    /** Pops one level and the closure it opened, if it opened one. */
    method CloseLevel()
      requires Valid() && |indentStack| > 1
      modifies `tokens, `afterFatArrow, `blockKeywordSeen
      modifies `indentStack, `closureIndentStack, `closureParenDepthStack
      ensures Valid() && indentStack == Front(old(indentStack)) && old(tokens) <= tokens
      ensures tokens == old(tokens) + [Token(Dedent, source[start..current])]
      ensures Edge() == Outer(old(Edge())).(arrow := false)
      ensures blockKeywordSeen == old(blockKeywordSeen)
    {
      hide Consistent, HeadNoted;
      LevelCloses(tokens, indentStack, closureIndentStack, closureParenDepthStack, braceStack, braceBlockDepth, Token(Dedent, source[start..current]));
      AddDedent();
      indentStack := indentStack[..|indentStack| - 1];
      if |closureIndentStack| > 0 && indentStack[|indentStack| - 1] < closureIndentStack[|closureIndentStack| - 1] {
        closureIndentStack := closureIndentStack[..|closureIndentStack| - 1];
        closureParenDepthStack := closureParenDepthStack[..|closureParenDepthStack| - 1];
      }
    }

    // ----- Strings -----

    /** One escape sequence, from its backslash. */
    method ScanStringEscape() returns (text: string)
      requires InBounds() && Ahead() != "" && Ahead()[0] == '\\'
      modifies `current, `errors
      ensures InBounds() && old(current) < current
      ensures var e := ScanEscape(old(Ahead())[1..]); text == e.text && Ahead() == e.rest && errors == old(errors) + e.errors
    {
      var slash := Advance();
      if current >= |source| {
        return "";
      }
      var escaped := Advance();
      match escaped {
        case 'n' => text := "\n";
        case 't' => text := "\t";
        case 'r' => text := "\r";
        case '\\' => text := "\\";
        case '"' => text := "\"";
        case '\'' => text := "\'";
        case '{' => text := [OPEN_BRACE];
        case '}' => text := [CLOSE_BRACE];
        case 's' => text := ScanSep();
        case 'x' => text := ScanHexEscape();
        case _ => text := ScanOctalEscape(escaped);
      }
    }

    method ScanSep() returns (text: string)
      requires InBounds()
      modifies `current
      ensures InBounds() && old(current) <= current
      ensures var rest := old(Ahead());
        if |rest| >= 2 && rest[0] == 'e' && rest[1] == 'p' then text == [PATH_SEP] && Ahead() == rest[2..] else text == "s" && Ahead() == rest
    {
      if Peek() == 'e' && PeekNext() == 'p' {
        current := current + 2;
        text := [PATH_SEP];
      } else {
        text := "s";
      }
    }

    method ScanHexEscape() returns (text: string)
      requires InBounds()
      modifies `current, `errors
      ensures InBounds() && old(current) <= current
      ensures var e := ScanEscape("x" + old(Ahead())); text == e.text && Ahead() == e.rest && errors == old(errors) + e.errors
    {
      assert ("x" + Ahead())[1..] == Ahead();
      text := "";
      if current >= |source| {
        errors := errors + 1;
        return;
      }
      var h1 := Advance();
      if current >= |source| {
        errors := errors + 1;
        return;
      }
      var h2 := Advance();
      assert Ahead() == old(Ahead())[2..] && old(Ahead())[..2] == [h1, h2];
      var hi, lo := HexDigit(h1), HexDigit(h2);
      if hi.Some? && lo.Some? {
        text := [(hi.value * 16 + lo.value) as char];
      } else {
        text := "\\x" + [h1, h2];
      }
    }

    method ScanOctalEscape(escaped: char) returns (text: string)
      requires InBounds()
      modifies `current, `errors
      ensures InBounds() && old(current) <= current
      ensures if IsOctal(escaped)
        then (
          var (n, after) := OctalTail(old(Ahead()), (escaped as int) - ('0' as int), 2);
          Ahead() == after && (if n > 255 then text == "" && errors == old(errors) + 1 else text == [n as char] && errors == old(errors)))
        else text == [escaped] && Ahead() == old(Ahead()) && errors == old(errors)
    {
      if !IsOctal(escaped) {
        return [escaped];
      }
      var oct := (escaped as int) - ('0' as int);
      var more := 2;
      while more > 0 && current < |source| && IsOctal(source[current])
        invariant InBounds() && old(current) <= current && 0 <= more <= 2
        invariant oct >= 0 && errors == old(errors)
        invariant OctalTail(Ahead(), oct, more) == OctalTail(old(Ahead()), (escaped as int) - ('0' as int), 2)
      {
        assert Ahead()[1..] == source[current + 1..];
        oct := oct * 8 + ((source[current] as int) - ('0' as int));
        current := current + 1;
        more := more - 1;
      }
      assert OctalTail(Ahead(), oct, more) == (oct, Ahead());
      if oct > 255 {
        errors := errors + 1;
        return "";
      }
      text := [oct as char];
    }

    /** One newline, escape or plain character of a string; not `more` when it breaks the string off. */
    method ScanStringRune(quote: char, value: string) returns (value': string, more: bool)
      requires InBounds() && Ahead() != "" && Ahead()[0] != quote && !InterpStart(Ahead())
      modifies `current, `errors
      ensures InBounds() && old(current) <= current && old(errors) <= errors && (more ==> old(current) < current)
      ensures var r := ScanBody(old(Ahead()), quote, value);
        if more then r == MoreErrors(ScanBody(Ahead(), quote, value'), errors - old(errors))
        else r == Body(Broken, value', Ahead(), errors - old(errors))
    {
      hide ScanEscape;
      value', more := value, true;
      assert Ahead()[1..] == source[current + 1..];
      if source[current] == '\n' {
        if quote == '"' {
          errors := errors + 1;
          return value, false;
        }
        var c := Advance();
        value' := value + [c];
      } else if source[current] == '\\' {
        var text := ScanStringEscape();
        value' := value + text;
      } else {
        var r := Advance();
        if r == '\0' {
          errors := errors + 1;
          return value, false;
        }
        value' := value + [r];
      }
    }

    /** A string's text up to its closing quote, an interpolation, the end of the source or an error. */
    method ScanText(quote: char) returns (value: string, ok: bool)
      requires InBounds()
      modifies `current, `errors
      ensures InBounds() && old(current) <= current && old(errors) <= errors
      ensures ScanBody(old(Ahead()), quote, "") ==
        if ok then MoreErrors(ScanBody(Ahead(), quote, value), errors - old(errors)) else Body(Broken, value, Ahead(), errors - old(errors))
      ensures ok ==> Ahead() == "" || Ahead()[0] == quote || InterpStart(Ahead())
    {
      hide ScanBody;
      value, ok := "", true;
      while current < |source| && source[current] != quote && !(source[current] == '{' && current + 1 < |source| && IsAlpha(source[current + 1]))
        invariant InBounds() && old(current) <= current && old(errors) <= errors
        invariant ScanBody(old(Ahead()), quote, "") == MoreErrors(ScanBody(Ahead(), quote, value), errors - old(errors))
        decreases |source| - current
      {
        value, ok := ScanStringRune(quote, value);
        if !ok {
          return;
        }
      }
      ok := true;
    }

    /** The literal's body became one token, unless it breaks off. */
    ghost predicate BodyScanned(r: Body, interpKind: Kind, endKind: Kind, quote: char, before: seq<Token>, interps: seq<Interp>, errs: nat)
      requires current <= |source|
      reads `source, `current, `tokens, `errors, `interpStack
    {
      && Ahead() == r.rest && errors == errs + r.errors
      && tokens == before + BodyToken(r, interpKind, endKind)
      && interpStack == interps + (if r.end.Interpolates? then [Interp(0, quote)] else [])
    }

    /** Where a string body ends: one token at a quote or an interpolation, an error at the end of the source. */
    method EndStringBody(interpKind: Kind, endKind: Kind, quote: char, value: string)
      requires Valid() && OfString(interpKind) && OfString(endKind)
      requires Ahead() == "" || Ahead()[0] == quote || InterpStart(Ahead())
      modifies `current, `tokens, `errors, `interpStack, `afterFatArrow, `blockKeywordSeen
      ensures Valid() && old(current) <= current && blockKeywordSeen == old(blockKeywordSeen)
      ensures HeadNoted(old(tokens), old(afterFatArrow), old(inFunctionLiteral))
      ensures BodyScanned(ScanBody(old(Ahead()), quote, value), interpKind, endKind, quote, old(tokens), old(interpStack), old(errors))
    {
      hide Consistent, ScanBody, Depth, Nested, Weight, HeadNoted, ArrowAfter, LiteralAfter, KeywordAfter, InterpStart, BodyScanned;
      ghost var s := Ahead();
      if current >= |source| {
        NotedNone();
        errors := errors + 1;
        EndedBody(s, interpKind, endKind, quote, value, old(tokens), old(interpStack), old(errors));
        return;
      }
      var ends := source[current] == quote;
      current := current + 1;
      AddTokenWithLexeme(if ends then endKind else interpKind, value);
      if !ends {
        interpStack := interpStack + [Interp(0, quote)];
      }
      EndedBody(s, interpKind, endKind, quote, value, old(tokens), old(interpStack), old(errors));
    }

    lemma EndedBody(s: string, interpKind: Kind, endKind: Kind, quote: char, value: string, before: seq<Token>, interps: seq<Interp>, errs: nat)
      requires current <= |source| && (s == "" || s[0] == quote || InterpStart(s))
      requires Ahead() == if s == "" then "" else s[1..]
      requires errors == errs + if s == "" then 1 else 0
      requires tokens == before + if s == "" then [] else [Token(if s[0] == quote then endKind else interpKind, value)]
      requires interpStack == interps + if s == "" || s[0] == quote then [] else [Interp(0, quote)]
      ensures BodyScanned(ScanBody(s, quote, value), interpKind, endKind, quote, before, interps, errs)
    {
      hide ScanBody;
      BodyEnds(s, 0, quote, value);
      assert s[0..] == s;
    }

    /** A string body becomes one token, unless it breaks off. */
    method ScanStringBody(interpKind: Kind, endKind: Kind, quote: char)
      requires Valid() && OfString(interpKind) && OfString(endKind)
      modifies `current, `tokens, `errors, `interpStack, `afterFatArrow, `blockKeywordSeen
      ensures Valid() && old(current) <= current && blockKeywordSeen == old(blockKeywordSeen)
      ensures HeadNoted(old(tokens), old(afterFatArrow), old(inFunctionLiteral))
      ensures BodyScanned(ScanBody(old(Ahead()), quote, ""), interpKind, endKind, quote, old(tokens), old(interpStack), old(errors))
    {
      hide Consistent, ScanBody, HeadNoted, InterpStart;
      NotedNone();
      var value, ok := ScanText(quote);
      if ok {
        EndStringBody(interpKind, endKind, quote, value);
      }
    }

    /** Splices prepared text and a closing quote in at the cursor and scans it. */
    method ScanStringFromContent(content: string)
      requires Valid()
      modifies `source, `current, `tokens, `errors, `interpStack, `afterFatArrow, `blockKeywordSeen
      ensures Valid() && old(tokens) <= tokens && blockKeywordSeen == old(blockKeywordSeen)
      ensures HeadNoted(old(tokens), old(afterFatArrow), old(inFunctionLiteral))
      ensures BodyScanned(ScanBody(Injected(content) + ("\"" + old(Ahead())), '"', ""), StrHead, Str, '"',
                          old(tokens), old(interpStack), old(errors))
      ensures source == old(source)[..old(current)] + (Injected(content) + ("\"" + old(Ahead())))
    {
      hide Consistent;
      var inject := Inject(content);
      inject := inject + "\"";
      ghost var after := source[current..];
      source := source[..current] + inject + source[current..];
      assert Ahead() == Injected(content) + ("\"" + after);
      ScanStringBody(StrHead, Str, '"');
    }

    /** The token's text now goes on with what was spliced in. */
    ghost predicate Spliced(before: string, from: nat, text: (string, string))
      reads `source, `start
    {
      && |text.1| <= |before| && start == from
      && source == before[..|before| - |text.1|] + (Injected(Dedented(text.0)) + ("\"" + text.1))
    }

    /** The characters of a triple-quoted literal up to its closing quotes, or to the end of the source. */
    method TripleRaw() returns (raw: string)
      requires InBounds()
      modifies `current
      ensures InBounds() && (raw, Ahead()) == TripleText(old(Ahead()))
    {
      hide TripleText;
      raw := "";
      ghost var all := Ahead();
      TripleStep(all);
      while current < |source|
        invariant InBounds()
        invariant TripleText(all) == Further(raw, TripleText(source[current..]))
        decreases |source| - current
      {
        if source[current] == '"' && current + 1 < |source| && source[current + 1] == '"' && current + 2 < |source| && source[current + 2] == '"' {
          TripleEnds(source, current);
          current := current + 3;
          FurtherNothing(raw);
          return;
        }
        TripleGoesOn(raw, source, current);
        raw := raw + [source[current]];
        current := current + 1;
      }
      assert source[current..] == "";
      TripleStep("");
      FurtherNothing(raw);
    }

    /** A `\"\"\"` literal, from behind its opening quotes: its dedented text as one token; at most one double quote is added to what is ahead. */
    method ScanTripleQuoteString()
      requires Valid()
      modifies `source, `current, `tokens, `errors, `interpStack, `afterFatArrow, `blockKeywordSeen
      ensures Valid() && old(tokens) <= tokens && blockKeywordSeen == old(blockKeywordSeen)
      ensures HeadNoted(old(tokens), old(afterFatArrow), old(inFunctionLiteral))
      ensures var (raw, after) := TripleText(old(Ahead()));
        BodyScanned(ScanBody(Injected(Dedented(raw)) + ("\"" + after), '"', ""), StrHead, Str, '"', old(tokens), old(interpStack), old(errors))
      ensures Spliced(old(source), old(start), TripleText(old(Ahead())))
      ensures Count(Ahead(), '"') <= Count(old(Ahead()), '"') + 1 && Count(Ahead(), '\'') <= Count(old(Ahead()), '\'')
    {
      hide Consistent, Count, ScanBody, TripleText, Dedented;
      TripleCounts(Ahead(), '"');
      TripleCounts(Ahead(), '\'');
      var raw := TripleRaw();
      var content := DedentTripleQuote(raw);
      ghost var after := Ahead();
      ScanStringFromContent(content);
      SplicedCounts(raw, content, after);
    }

    /** The characters of a single-quoted literal, its escaped quotes plain. */
    method SingleRaw() returns (raw: string)
      requires InBounds()
      modifies `current
      ensures InBounds() && (raw, Ahead()) == SingleText(old(Ahead()))
    {
      hide SingleText;
      raw := "";
      ghost var all := Ahead();
      SingleStep(all);
      while current < |source|
        invariant InBounds()
        invariant SingleText(all) == Further(raw, SingleText(source[current..]))
        decreases |source| - current
      {
        if source[current] == '\'' {
          SingleEnds(source, current);
          current := current + 1;
          FurtherNothing(raw);
          return;
        }
        if source[current] == '\\' && current + 1 < |source| && source[current + 1] == '\'' {
          SingleEscaped(raw, source, current);
          current := current + 2;
          raw := raw + ['\''];
          continue;
        }
        SingleGoesOn(raw, source, current);
        raw := raw + [source[current]];
        current := current + 1;
      }
      assert source[current..] == "";
      SingleStep("");
      FurtherNothing(raw);
    }

    /** A `'` literal, from behind its opening quote: its dedented text as one token; no single quote is added to what is ahead. */
    method ScanSingleQuoteString()
      requires Valid()
      modifies `source, `current, `tokens, `errors, `interpStack, `afterFatArrow, `blockKeywordSeen
      ensures Valid() && old(tokens) <= tokens && blockKeywordSeen == old(blockKeywordSeen)
      ensures HeadNoted(old(tokens), old(afterFatArrow), old(inFunctionLiteral))
      ensures var (raw, after) := SingleText(old(Ahead()));
        BodyScanned(ScanBody(Injected(Dedented(raw)) + ("\"" + after), '"', ""), StrHead, Str, '"', old(tokens), old(interpStack), old(errors))
      ensures Spliced(old(source), old(start), SingleText(old(Ahead())))
      ensures Count(Ahead(), '\'') <= Count(old(Ahead()), '\'')
    {
      hide Consistent, Count, ScanBody, SingleText, Dedented;
      SingleCounts(Ahead(), '"');
      SingleCounts(Ahead(), '\'');
      var raw := SingleRaw();
      var content := DedentTripleQuote(raw);
      ghost var after := Ahead();
      ScanStringFromContent(content);
      SplicedCounts(raw, content, after);
    }

    /** The literal behind an opening double quote: an empty one, a triple-quoted one, or a body on one line. */
    ghost predicate StringScanned(ahead: string, before: seq<Token>, interps: seq<Interp>, errs: nat)
      requires current <= |source|
      reads `source, `current, `tokens, `errors, `interpStack
    {
      match ScanQuoted(ahead)
      case Single(body) => BodyScanned(body, StrHead, Str, '"', before, interps, errs)
      case Triple =>
        var (raw, after) := TripleText(ahead[2..]);
        BodyScanned(ScanBody(Injected(Dedented(raw)) + ("\"" + after), '"', ""), StrHead, Str, '"', before, interps, errs)
    }

    /** A double-quoted literal, from behind its opening quote. */
    method ScanString()
      requires Valid()
      modifies `source, `current, `tokens, `errors, `interpStack, `afterFatArrow, `blockKeywordSeen
      ensures Valid() && old(tokens) <= tokens
      ensures HeadNoted(old(tokens), old(afterFatArrow), old(inFunctionLiteral))
      ensures StringScanned(old(Ahead()), old(tokens), old(interpStack), old(errors))
      ensures ScanQuoted(old(Ahead())).Single? ==> source == old(source) && old(current) <= current
      ensures ScanQuoted(old(Ahead())).Triple? ==> Spliced(old(source), old(start), TripleText(old(Ahead())[2..]))
      ensures blockKeywordSeen == old(blockKeywordSeen)
      ensures Count(Ahead(), '"') <= Count(old(Ahead()), '"') && Count(Ahead(), '\'') <= Count(old(Ahead()), '\'')
    {
      hide Consistent, TripleText, Dedented, Injected, ScanBody, Count, Depth, Nested, HeadNoted, ArrowAfter, LiteralAfter, Spliced;
      ghost var from := current;
      if Peek() == '"' {
        assert Ahead()[1..] == source[current + 1..];
        if current + 1 < |source| && source[current + 1] == '"' {
          assert source[current + 2..] == Ahead()[2..];
          TwoQuotes(source, current);
          current := current + 2;
          ScanTripleQuoteString();
          return;
        }
        CountSuffix(source, current, current + 1, '\'');
        CountSuffix(source, current, current + 1, '"');
        current := current + 1;
        AddTokenWithLexeme(Str, "");
        return;
      }
      ScanStringBody(StrHead, Str, '"');
      CountSuffix(source, from, current, '"');
      CountSuffix(source, from, current, '\'');
    }

    /** The characters up to the next backquote; not ok at a NUL or the end of the source. */
    method RawText() returns (value: string, ok: bool)
      requires InBounds()
      modifies `current
      ensures InBounds() && old(current) <= current
      ensures match RawEnd(old(Ahead()))
        case Some(n) => ok && value == old(Ahead())[..n] && Ahead() == old(Ahead())[n + 1..]
        case None => !ok
    {
      hide RawEnd;
      ghost var from, all := current, Ahead();
      value, ok := "", false;
      while current < |source|
        invariant InBounds() && from <= current
        invariant value == source[from..current]
        invariant RawEnd(all) == Shifted(current - from, RawEnd(source[current..]))
        decreases |source| - current
      {
        RawGoesOn(source, from, current);
        var ch := source[current];
        current := current + 1;
        if ch == '`' {
          return value, true;
        }
        if ch == '\0' {
          return;
        }
        value := value + [ch];
      }
      RawStep(source[current..]);
    }

    /** The characters up to the next backquote, as they are, or an error at a NUL or the end of the source. */
    method ScanRawString()
      requires Valid()
      modifies `current, `tokens, `errors, `afterFatArrow, `blockKeywordSeen
      ensures Valid() && old(tokens) <= tokens && old(current) <= current && blockKeywordSeen == old(blockKeywordSeen)
      ensures HeadNoted(old(tokens), old(afterFatArrow), old(inFunctionLiteral))
      ensures match RawEnd(old(Ahead()))
        case Some(n) =>
          Ahead() == old(Ahead())[n + 1..] && tokens == old(tokens) + [Token(StrRaw, old(Ahead())[..n])] && errors == old(errors)
        case None => errors == old(errors) + 1 && tokens == old(tokens)
    {
      hide Consistent, RawEnd, Depth, Nested, HeadNoted, ArrowAfter, LiteralAfter;
      NotedNone();
      var value, ok := RawText();
      if !ok {
        errors := errors + 1;
        return;
      }
      AddTokenWithLexeme(StrRaw, value);
    }

    // ----- What a step takes -----

    /** The scanner did what `Next` takes from the text: those tokens, that rest, that mode, and no error. */
    ghost predicate Took(t: Taken, before: seq<Token>, errs: nat)
      requires current <= |source|
      reads `source, `current, `tokens, `errors, `parenDepth, `braceDepth, `braceStack, `interpStack, `blockKeywordSeen
    {
      Ahead() == t.rest && tokens == before + t.toks && Open() == t.mode && errors == errs
    }

    ghost predicate Follows(next: Option<Taken>, before: seq<Token>, errs: nat)
      requires current <= |source|
      reads `source, `current, `tokens, `errors, `parenDepth, `braceDepth, `braceStack, `interpStack, `blockKeywordSeen
    {
      if next.Some? then Took(next.value, before, errs) else errors > errs
    }

    /** One token from the text between start and cursor. */
    lemma TookToken(s: string, n: nat, kind: Kind, m: Mode, before: seq<Token>, errs: nat)
      requires start <= current <= |source| && s == source[start..] && current == start + n
      requires tokens == before + [Token(kind, source[start..current])] && errors == errs
      requires Open() == m.(keyword := KeywordAfter(m.keyword, Token(kind, source[start..current])))
      ensures n <= |s| && Took(Take(s, n, kind, m), before, errs)
    {
      hide KeywordAfter;
      Cut(source, start, current);
    }

    /** One character is consumed since the token's start. */
    ghost predicate OneIn(c: char)
      reads `source, `start, `current
    {
      start + 1 == current <= |source| && c == source[start]
    }

    // ----- Numbers, words and comments -----

    method SkipDigits(base: nat)
      requires InBounds()
      modifies `current
      ensures InBounds() && old(current) <= current
      ensures current == old(current) + DigitsEnd(source[old(current)..], base)
    {
      while InBase(Peek(), base) || Peek() == '_'
        invariant InBounds() && old(current) <= current
        invariant old(current) + DigitsEnd(source[old(current)..], base) == current + DigitsEnd(source[current..], base)
        decreases |source| - current
      {
        assert source[current..][1..] == source[current + 1..];
        current := current + 1;
      }
    }

    /** The text from the token's start on. */
    ghost function FromStart(): string
      requires start <= |source|
      reads `source, `start
    {
      source[start..]
    }

    /** As far as the base of a number allows; not ok where a base has no digit. */
    method SkipNumber() returns (kind: Kind, ok: bool)
      requires InBounds() && start + 1 == current
      modifies `current
      ensures InBounds() && old(current) <= current
      ensures match NumberEnd(FromStart())
        case Some((k, n)) => ok && kind == k && current == start + n
        case None => !ok && kind == Integer
    {
      hide InBase, DigitsEnd;
      ghost var s := FromStart();
      if source[start] == '0' {
        var next := Peek();
        var base :=
          if next == 'x' || next == 'X' then 16 else if next == 'o' || next == 'O' then 8 else if next == 'b' || next == 'B' then 2 else 0;
        assert base == BaseOf(CharAt(s, 1));
        if base != 0 {
          current := current + 1;
          assert s[2..] == source[current..];
          kind, ok := Integer, InBase(Peek(), base);
          SkipDigits(base);
          return;
        }
      }
      ok := true;
      kind := SkipDecimal();
    }

    /** Digits, and a fraction. */
    method SkipDecimal() returns (kind: Kind)
      requires InBounds() && start + 1 == current && !(source[start] == '0' && BaseOf(CharAt(FromStart(), 1)) != 0)
      modifies `current
      ensures InBounds() && old(current) <= current && NumberEnd(FromStart()) == Some((kind, current - start))
    {
      hide InBase, DigitsEnd, BaseOf, IsDigit;
      ghost var s := FromStart();
      kind := Integer;
      assert s[1..] == source[current..];
      SkipDigits(10);
      ghost var n := current - start;
      assert Peek() == CharAt(s, n) && PeekNext() == CharAt(s, n + 1);
      if Peek() == '.' && IsDigit(PeekNext()) {
        current := current + 1;
        assert s[n + 1..] == source[current..];
        SkipDigits(10);
        kind := Float;
      }
    }

    /** One number token. */
    method ScanNumber()
      requires Valid() && start + 1 == current
      modifies `current, `tokens, `errors, `afterFatArrow, `blockKeywordSeen
      ensures Valid() && old(tokens) <= tokens && old(current) <= current && blockKeywordSeen == old(blockKeywordSeen)
      ensures HeadNoted(old(tokens), old(afterFatArrow), old(inFunctionLiteral))
      ensures match NumberEnd(FromStart())
        case Some((kind, n)) => current == start + n && tokens == old(tokens) + [Token(kind, source[start..current])] && errors == old(errors)
        case None => |tokens| == |old(tokens)| + 1 && errors == old(errors) + 1
    {
      hide Consistent, NumberEnd, Depth, Nested, HeadNoted, ArrowAfter, LiteralAfter;
      NumberKind(FromStart());
      var kind, ok := SkipNumber();
      if !ok {
        errors := errors + 1;
      }
      AddToken(kind);
    }

    /** A number is what `Next` takes. */
    lemma TookNumber(s: string, m: Mode, before: seq<Token>, errs: nat)
      requires start < current <= |source| && s == FromStart() && Open() == m
      requires NumberEnd(s).Some? ==> (
        var (kind, n) := NumberEnd(s).value;
        current == start + n && tokens == before + [Token(kind, source[start..current])] && errors == errs)
      requires NumberEnd(s).None? ==> errors > errs
      ensures Follows(TakeNumber(s, m), before, errs)
    {
      hide NumberEnd, Took, Take, Depth, Nested;
      NumberKind(s);
      if NumberEnd(s).Some? {
        TookToken(s, current - start, NumberEnd(s).value.0, m, before, errs);
      }
    }

    method SkipWord()
      requires InBounds()
      modifies `current
      ensures InBounds() && current == old(current) + WordEnd(source[old(current)..])
    {
      while IsAlpha(Peek()) || IsDigit(Peek())
        invariant InBounds() && old(current) <= current
        invariant old(current) + WordEnd(source[old(current)..]) == current + WordEnd(source[current..])
        decreases |source| - current
      {
        assert source[current..][1..] == source[current + 1..];
        current := current + 1;
      }
    }

    /** The longest word from the start. */
    method ScanIdentifier()
      requires Valid() && start + 1 == current && IsAlpha(source[start])
      modifies `current, `tokens, `afterFatArrow, `blockKeywordSeen, `inFunctionLiteral
      ensures Valid() && old(tokens) <= tokens && old(current) <= current
      ensures HeadNoted(old(tokens), old(afterFatArrow), old(inFunctionLiteral))
      ensures current == start + WordEnd(FromStart()) && tokens == old(tokens) + [Token(Word, source[start..current])]
      ensures Follows(Some(Take(FromStart(), WordEnd(FromStart()), Word, old(Open()))), old(tokens), old(errors))
    {
      hide Consistent, Depth, Nested, KeywordAfter, Took, Take, WordEnd;
      ghost var s, m := FromStart(), Open();
      WordStep(s);
      assert s[1..] == source[current..];
      SkipWord();
      var text := source[start..current];
      AddTokenWithLexeme(Word, text);
      TookToken(s, current - start, Word, m, old(tokens), old(errors));
      if text == "func" || text == "function" {
        inFunctionLiteral := true;
      }
    }

    method SkipToLineEnd()
      requires InBounds()
      modifies `current
      ensures InBounds() && current == old(current) + CommentEnd(source[old(current)..])
    {
      while current < |source| && source[current] != '\n'
        invariant InBounds() && old(current) <= current
        invariant old(current) + CommentEnd(source[old(current)..]) == current + CommentEnd(source[current..])
      {
        assert source[current..][1..] == source[current + 1..];
        current := current + 1;
      }
    }

    /** The rest of the line, as a directive or a comment by its first characters. */
    method ScanComment()
      requires Valid() && start + 1 == current && source[start] == '#'
      modifies `current, `tokens, `afterFatArrow, `blockKeywordSeen
      ensures Valid() && old(tokens) <= tokens && old(current) <= current && blockKeywordSeen == old(blockKeywordSeen)
      ensures HeadNoted(old(tokens), old(afterFatArrow), old(inFunctionLiteral))
      ensures current == start + CommentEnd(FromStart())
      ensures var lexeme := source[start..current]; tokens == old(tokens) + [Token(CommentKind(lexeme), lexeme)]
    {
      hide Consistent, Depth, Nested, CommentEnd, HeadNoted, ArrowAfter, LiteralAfter;
      CommentStep(FromStart());
      assert FromStart()[1..] == source[current..];
      SkipToLineEnd();
      var lexeme := source[start..current];
      AddToken(if "# kuki:" <= lexeme then Directive else Comment);
    }

    // ----- One step -----

    /** A closure's head ends here and a deeper line follows. */
    ghost predicate OpensClosureBody()
      requires current <= |source|
      reads `source, `current, `afterFatArrow, `inFunctionLiteral, `indentStack
    {
      (afterFatArrow || inFunctionLiteral) && indentStack != [] && SpacesAhead(source, current) > Last(indentStack)
    }

    /** A line end: a token, or silence where the line goes on. */
    method ScanNewline()
      requires Valid()
      modifies `tokens, `afterFatArrow, `blockKeywordSeen
      modifies `continuationLine, `pendingClosureBlock, `inFunctionLiteral, `atLineStart, `indentationHandled
      ensures Valid() && old(tokens) <= tokens && atLineStart && !indentationHandled && !afterFatArrow && !inFunctionLiteral
      ensures tokens == old(tokens) + (if old(EndsLine()) then [Token(Newline, source[start..current])] else [])
      ensures continuationLine == (old(continuationLine) || !old(EndsLine()))
      ensures pendingClosureBlock == (old(pendingClosureBlock) || old(EndsLine() && InParenContinuation()))
      ensures blockKeywordSeen == (old(blockKeywordSeen) && !old(EndsLine()))
    {
      hide Consistent, EndsLine, Depth, Nested, HeadNoted, ArrowAfter, LiteralAfter, IsFatArrow, Headless;
      var ends := DecideNewline();
      if ends {
        if InParenContinuation() {
          pendingClosureBlock := true;
        }
        AddToken(Newline);
      } else {
        continuationLine := true;
      }
      afterFatArrow := false;
      inFunctionLiteral := false;
      atLineStart := true;
      indentationHandled := false;
    }

    /** Outside brackets and calls a line end counts; inside a call only where a closure's body begins. */
    ghost predicate EndsLine()
      requires current <= |source|
      reads `source, `current, `afterFatArrow, `inFunctionLiteral, `indentStack, `braceDepth, `parenDepth, `closureParenDepthStack
    {
      braceDepth == 0 && (!InParenContinuation() || OpensClosureBody())
    }

    /** It counts here as it does in the text. */
    lemma CountsHere()
      requires current <= |source| && indentStack != []
      ensures EndsLine() <==> Counts(Open(), Edge(), Ahead())
    {
      SpacesFrom(source, current);
    }

    /** The line end in front of a text was scanned: a token and a new line, or silence and the same line. */
    ghost predicate LineEnded(s: string, m: Mode, g: Margin, before: seq<Token>, errs: nat)
      requires current <= |source| && g.indents != []
      reads this
    {
      var end, behind := s[..LineEnd(s)], s[LineEnd(s)..];
      && Ahead() == behind && errors == errs && atLineStart && !indentationHandled
      && start <= current && source[start..current] == end
      && continuationLine == !Counts(m, g, behind)
      && if Counts(m, g, behind)
         then tokens == before + [Token(Newline, end)] && Open() == m.(keyword := false) && Edge() == NewLine(m, g)
         else tokens == before && Open() == m && Edge() == SameLine(g)
    }

    method DecideNewline() returns (ends: bool)
      requires Valid()
      ensures ends == EndsLine()
    {
      hide Levels, Closures, Nested, Depth, Trues;
      if braceDepth > 0 {
        return false;
      }
      if InParenContinuation() {
        var next := PeekNextLineIndent();
        return (afterFatArrow || inFunctionLiteral) && next > indentStack[|indentStack| - 1];
      }
      return true;
    }

    /** One brace more or less inside the innermost interpolated expression. */
    method BumpInterp(n: int)
      requires interpStack != [] && Last(interpStack).braceDepth + n >= 0
      modifies `interpStack
      ensures interpStack == Front(old(interpStack)) + [Last(old(interpStack)).(braceDepth := Last(old(interpStack)).braceDepth + n)]
    {
      var top := interpStack[|interpStack| - 1];
      interpStack := interpStack[|interpStack| - 1 := top.(braceDepth := top.braceDepth + n)];
    }

    /** `{` opens a block after a block keyword, a literal otherwise. */
    method ScanOpenBrace()
      requires Valid() && OneIn('{')
      modifies `tokens, `afterFatArrow, `blockKeywordSeen, `interpStack, `braceStack, `braceBlockDepth, `braceDepth
      ensures Valid() && old(tokens) <= tokens
      ensures HeadNoted(old(tokens), old(afterFatArrow), old(inFunctionLiteral))
      ensures braceStack == old(braceStack) + [old(blockKeywordSeen)]
      ensures tokens == old(tokens) + [Token(if old(blockKeywordSeen) then Indent else Symbol, source[start..current])]
      ensures braceDepth == old(braceDepth) + (if old(blockKeywordSeen) then 0 else 1)
      ensures interpStack == Bumped(old(interpStack), 1) && !blockKeywordSeen
    {
      hide Depth, Nested, Closures, Levels, Trues, HeadNoted, ArrowAfter, LiteralAfter, IsFatArrow;
      TruesSnoc(braceStack, blockKeywordSeen);
      if |interpStack| > 0 {
        BumpInterp(1);
      }
      if blockKeywordSeen {
        braceStack := braceStack + [true];
        braceBlockDepth := braceBlockDepth + 1;
        blockKeywordSeen := false;
        AddToken(Indent);
      } else {
        braceStack := braceStack + [false];
        braceDepth := braceDepth + 1;
        AddToken(Symbol);
      }
    }

    /** A closing brace here would end the innermost interpolated expression. */
    ghost predicate EndsInterp()
      reads `interpStack
    {
      interpStack != [] && Last(interpStack).braceDepth == 0
    }

    /** `}` ends an interpolated expression, a block or a literal. */
    method ScanCloseBrace()
      requires Valid() && OneIn('}')
      modifies `start, `current, `tokens, `errors, `afterFatArrow, `blockKeywordSeen, `interpStack, `braceStack, `braceBlockDepth, `braceDepth
      ensures Valid() && old(tokens) <= tokens && old(current) <= current
      ensures HeadNoted(old(tokens), old(afterFatArrow), old(inFunctionLiteral))
      ensures if old(EndsInterp())
        then (
          var quote := Last(old(interpStack)).quote;
          && BodyScanned(ScanBody(old(Ahead()), quote, ""), StrMid, StrTail, quote, old(tokens), Front(old(interpStack)), old(errors))
          && start == old(current)
          && braceStack == old(braceStack) && braceDepth == old(braceDepth))
        else (
          && BraceClosed(old(tokens), old(braceStack), old(braceDepth)) && start == old(start) && current == old(current)
          && interpStack == Bumped(old(interpStack), -1) && errors == old(errors))
      ensures blockKeywordSeen == old(blockKeywordSeen)
    {
      hide Consistent, BraceClosed, ScanBody, BodyToken, HeadNoted, ArrowAfter, LiteralAfter, IsFatArrow;
      if |interpStack| > 0 && interpStack[|interpStack| - 1].braceDepth == 0 {
        var quote := interpStack[|interpStack| - 1].quote;
        interpStack := interpStack[..|interpStack| - 1];
        start := current;
        ScanStringBody(StrMid, StrTail, quote);
        return;
      }
      if |interpStack| > 0 {
        BumpInterp(-1);
      }
      PopBrace();
    }

    /** The innermost brace is gone, and its token is a dedent exactly when it opened a block. */
    ghost predicate BraceClosed(before: seq<Token>, stack: seq<bool>, depth: nat)
      requires start <= current <= |source|
      reads `source, `start, `current, `tokens, `braceStack, `braceDepth
    {
      var block := stack != [] && Last(stack);
      && braceStack == (if stack == [] then [] else Front(stack))
      && tokens == before + [Token(if block then Dedent else Symbol, source[start..current])]
      && braceDepth == (if block || depth == 0 then depth else depth - 1)
    }

    method PopBrace()
      requires Valid() && OneIn('}')
      modifies `tokens, `afterFatArrow, `blockKeywordSeen, `braceStack, `braceBlockDepth, `braceDepth
      ensures Valid() && old(tokens) <= tokens && BraceClosed(old(tokens), old(braceStack), old(braceDepth))
      ensures HeadNoted(old(tokens), old(afterFatArrow), old(inFunctionLiteral))
      ensures blockKeywordSeen == old(blockKeywordSeen)
    {
      hide Depth, Nested, Closures, Levels, HeadNoted, ArrowAfter, LiteralAfter, IsFatArrow;
      if |braceStack| > 0 {
        var wasBlock := braceStack[|braceStack| - 1];
        braceStack := braceStack[..|braceStack| - 1];
        if wasBlock {
          braceBlockDepth := braceBlockDepth - 1;
          AddToken(Dedent);
          return;
        }
      }
      if braceDepth > 0 {
        braceDepth := braceDepth - 1;
      }
      AddToken(Symbol);
    }

    /** An operator's token; behind a fat arrow a closure's body may follow. */
    method AddOperator(ghost arrow: bool)
      requires Valid() && afterFatArrow == (arrow || source[start..current] == "=>")
      modifies `tokens, `afterFatArrow, `blockKeywordSeen
      ensures Valid() && tokens == old(tokens) + [Token(Symbol, source[start..current])]
      ensures HeadNoted(old(tokens), arrow, old(inFunctionLiteral))
      ensures blockKeywordSeen == old(blockKeywordSeen) == KeywordAfter(old(blockKeywordSeen), Token(Symbol, source[start..current]))
    {
      hide Consistent, Depth, Nested, HeadNoted;
      AddToken(Symbol);
      NotedToken(old(tokens), arrow, old(inFunctionLiteral), Token(Symbol, source[start..current]));
    }

    /** Operators, by longest match. */
    method ScanOperator(c: char)
      requires Valid() && (OneIn(c) || (c == '\0' && start == current))
      modifies `current, `tokens, `errors, `afterFatArrow, `blockKeywordSeen
      ensures Valid() && old(tokens) <= tokens && old(current) <= current && blockKeywordSeen == old(blockKeywordSeen)
      ensures HeadNoted(old(tokens), old(afterFatArrow), old(inFunctionLiteral))
      ensures if StartsOperator(c) then (
          && current == old(current) + (if Combine(c, old(Peek())) then 1 else 0)
          && tokens == old(tokens) + [Token(Symbol, source[start..current])] && errors == old(errors))
        else current == old(current) && tokens == old(tokens) && errors == old(errors) + 1
      ensures old(OneIn(c)) ==> Follows(TakeOperator(old(FromStart()), old(Open())), old(tokens), old(errors))
    {
      hide Consistent, Combine, StartsOperator, Took, Take, HeadNoted, KeywordAfter, ArrowAfter;
      ghost var m := Open();
      assert OneIn(c) ==> CharAt(FromStart(), 1) == Peek();
      NotedNone();
      var ok := SkipOperator(c);
      if !ok {
        errors := errors + 1;
        return;
      }
      AddOperator(old(afterFatArrow));
      if start < |source| && start < current {
        TookToken(FromStart(), current - start, Symbol, m, old(tokens), old(errors));
      }
    }

    method SkipOperator(c: char) returns (ok: bool)
      requires InBounds()
      modifies `current, `afterFatArrow
      ensures InBounds() && ok == StartsOperator(c)
      ensures current == old(current) + (if ok && Combine(c, old(Peek())) then 1 else 0)
      ensures afterFatArrow == (old(afterFatArrow) || (c == '=' && old(current) < current && source[old(current)] == '>'))
    {
      if c !in "+-:=!<>|&" {
        ok := c in ";,.*/%";
        return;
      }
      ok := true;
      var matched := MatchSecond(c);
      if c == '=' && matched && source[current - 1] == '>' {
        afterFatArrow := true;
      }
    }

    /** The second character of an operator, if it is one of those its first combines with. */
    method MatchSecond(c: char) returns (matched: bool)
      requires InBounds() && c in "+-:=!<>|&"
      modifies `current
      ensures InBounds() && matched == Combine(c, old(Peek()))
      ensures current == old(current) + (if matched then 1 else 0)
    {
      matched := false;
      match c {
        case '+' => matched := Match('+');
        case '-' => matched := Match('-');
        case ':' => matched := Match('=');
        case '=' =>
          matched := Match('=');
          if !matched {
            matched := Match('>');
          }
        case '!' => matched := Match('=');
        case '<' =>
          matched := Match('-');
          if !matched {
            matched := Match('=');
          }
        case '>' => matched := Match('=');
        case '|' =>
          matched := Match('>');
          if !matched {
            matched := Match('|');
          }
        case '&' =>
          matched := Match('&');
          if !matched {
            matched := Match('=');
          }
      }
    }

    /** Brackets and braces. */
    method ScanBracket(c: char)
      requires Valid() && OneIn(c) && IsBracket(c)
      modifies `start, `current, `tokens, `errors, `afterFatArrow, `blockKeywordSeen, `interpStack, `braceStack, `braceBlockDepth, `braceDepth, `parenDepth
      ensures Valid() && old(tokens) <= tokens && old(current) <= current
      ensures HeadNoted(old(tokens), old(afterFatArrow), old(inFunctionLiteral))
      ensures Follows(TakeBracket(old(FromStart()), old(Open())), old(tokens), old(errors))
      ensures InBounds() && FromStart() == if EndsInterpolation(old(FromStart()), old(Open())) then old(FromStart())[1..] else old(FromStart())
    {
      hide Consistent, ScanBody, Depth, Nested, Took, Take, TakeCloseBrace, BraceClosed, BodyScanned, HeadNoted, ArrowAfter, LiteralAfter;
      ghost var s, m := FromStart(), Open();
      match c {
        case '{' =>
          ScanOpenBrace();
          TookOpenBrace(s, m, old(tokens), old(errors));
        case '}' =>
          ghost var from := start;
          ScanCloseBrace();
          TookCloseBrace(s, m, old(tokens), old(errors), old(EndsInterp()), from);
        case _ =>
          ScanPlainBracket(c);
      }
    }

    /** Round and square brackets only count. */
    method ScanPlainBracket(c: char)
      requires Valid() && OneIn(c) && IsBracket(c) && c != '{' && c != '}'
      modifies `tokens, `afterFatArrow, `blockKeywordSeen, `braceDepth, `parenDepth
      ensures Valid() && old(tokens) <= tokens
      ensures HeadNoted(old(tokens), old(afterFatArrow), old(inFunctionLiteral))
      ensures Follows(TakeBracket(old(FromStart()), old(Open())), old(tokens), old(errors))
    {
      hide Consistent, Depth, Nested, Took, Take, TakeCloseBrace, HeadNoted, ArrowAfter, LiteralAfter, IsFatArrow;
      ghost var s, m := FromStart(), Open();
      match c {
        case '(' =>
          parenDepth := parenDepth + 1;
        case ')' =>
          if parenDepth > 0 {
            parenDepth := parenDepth - 1;
          }
        case '[' =>
          braceDepth := braceDepth + 1;
        case ']' =>
          if braceDepth > 0 {
            braceDepth := braceDepth - 1;
          }
      }
      ghost var counted := Open();
      AddSymbol();
      TookToken(s, 1, Symbol, counted, old(tokens), old(errors));
      assert Some(Take(s, 1, Symbol, counted)) == TakeBracket(s, m);
    }

    /** An opening brace is what `Next` takes. */
    lemma TookOpenBrace(s: string, m: Mode, before: seq<Token>, errs: nat)
      requires OneIn('{') && s == FromStart() && errors == errs && parenDepth == m.parens
      requires tokens == before + [Token(if m.keyword then Indent else Symbol, source[start..current])]
      requires braceStack == m.braceStack + [m.keyword] && braceDepth == m.braces + (if m.keyword then 0 else 1)
      requires interpStack == Bumped(m.interps, 1) && !blockKeywordSeen
      ensures Follows(TakeBracket(s, m), before, errs)
    {
      hide Bumped, Took, Take;
      if m.keyword {
        TookToken(s, 1, Indent, m.(interps := Bumped(m.interps, 1), braceStack := m.braceStack + [true]), before, errs);
      } else {
        TookToken(s, 1, Symbol, m.(interps := Bumped(m.interps, 1), braceStack := m.braceStack + [false], braces := m.braces + 1), before, errs);
      }
    }

    /** A closing brace is what `Next` takes. */
    lemma TookCloseBrace(s: string, m: Mode, before: seq<Token>, errs: nat, ends: bool, from: nat)
      requires start <= current <= |source| && from < |source| && s == source[from..] && |s| > 0
      requires ends <==> m.interps != [] && Last(m.interps).braceDepth == 0
      requires parenDepth == m.parens && blockKeywordSeen == m.keyword
      requires if ends then (
          var quote := Last(m.interps).quote;
          && BodyScanned(ScanBody(s[1..], quote, ""), StrMid, StrTail, quote, before, Front(m.interps), errs)
          && braceStack == m.braceStack && braceDepth == m.braces)
        else (
          && BraceClosed(before, m.braceStack, m.braces) && start == from && current == from + 1
          && interpStack == Bumped(m.interps, -1) && errors == errs)
      ensures Follows(TakeCloseBrace(s, m), before, errs)
    {
      hide ScanBody;
      if ends {
        BrokenCounts(s[1..], Last(m.interps).quote, "");
      }
      if !ends && m.braceStack != [] && Last(m.braceStack) {
        TookToken(s, 1, Dedent, m.(interps := Bumped(m.interps, -1), braceStack := Front(m.braceStack)), before, errs);
      } else if !ends {
        TookToken(s, 1, Symbol, m.(
          interps := Bumped(m.interps, -1),
          braceStack := if m.braceStack == [] then [] else Front(m.braceStack),
          braces := if m.braces > 0 then m.braces - 1 else 0), before, errs);
      }
    }

    /** Numbers, words and operators. */
    method ScanOther(c: char)
      requires Valid() && (OneIn(c) || (c == '\0' && start == current))
      modifies `current, `tokens, `errors, `afterFatArrow, `blockKeywordSeen, `inFunctionLiteral
      ensures Valid() && old(tokens) <= tokens && old(current) <= current
      ensures HeadNoted(old(tokens), old(afterFatArrow), old(inFunctionLiteral))
      ensures old(OneIn(c)) ==> Follows(TakeOther(old(FromStart()), old(Open())), old(tokens), old(errors))
      ensures !old(OneIn(c)) ==> errors > old(errors)
    {
      hide Consistent, Depth, Nested, NumberEnd, WordEnd, TakeNumber, TakeOperator, Took, HeadNoted, ArrowAfter, LiteralAfter;
      ghost var s, m := FromStart(), Open();
      if IsDigit(c) {
        ScanNumber();
        TookNumber(s, m, old(tokens), old(errors));
      } else if IsAlpha(c) {
        ScanIdentifier();
      } else {
        ScanOperator(c);
      }
    }

    /** Blanks, comments and raw strings. */
    method ScanRun(c: char)
      requires Valid() && OneIn(c) && (IsBlank(c) || c == '#' || c == '`')
      modifies `current, `tokens, `errors, `afterFatArrow, `blockKeywordSeen
      ensures Valid() && old(tokens) <= tokens && old(current) <= current
      ensures HeadNoted(old(tokens), old(afterFatArrow), old(inFunctionLiteral))
      ensures Follows(Next(old(FromStart()), old(Open())), old(tokens), old(errors))
    {
      hide Consistent, Depth, Nested, CommentEnd, RawEnd, BlanksEnd, Blanks, Take, TakeString, TakeBracket, TakeOther, HeadNoted, ArrowAfter, LiteralAfter;
      ghost var s, m := FromStart(), Open();
      assert s[1..] == source[current..];
      NotedNone();
      if c == '#' {
        hide Took;
        ScanComment();
        Cut(source, start, current);
        TookToken(s, current - start, CommentKind(source[start..current]), m, old(tokens), old(errors));
      } else if c == '`' {
        ScanRawString();
      } else {
        BlanksFrom(source, current);
        BlanksStep(s);
        SkipBlanks();
        Cut(source, start, current);
        assert tokens + [] == tokens;
      }
    }

    /** A carriage return and a line feed are one line end. */
    method SkipLineEnd(c: char)
      requires OneIn(c) && (c == '\n' || c == '\r')
      modifies `current
      ensures InBounds() && old(current) <= current
      ensures source[start..current] == FromStart()[..LineEnd(FromStart())] && Ahead() == FromStart()[LineEnd(FromStart())..]
    {
      ghost var s := FromStart();
      assert s[0] == c && (|s| > 1 <==> current < |source|) && (|s| > 1 ==> s[1] == source[current]);
      if c == '\r' {
        var crlf := Match('\n');
      }
      Cut(source, start, current);
      assert current - start == LineEnd(s);
    }

    /** The end of a line. */
    method ScanLineEnd(c: char)
      requires Valid() && OneIn(c) && (c == '\n' || c == '\r')
      modifies `current, `tokens, `afterFatArrow, `blockKeywordSeen
      modifies `continuationLine, `pendingClosureBlock, `inFunctionLiteral, `atLineStart, `indentationHandled
      ensures Valid() && old(tokens) <= tokens && old(current) <= current && |old(indentStack)| > 0
      ensures !old(continuationLine) ==> LineEnded(old(FromStart()), old(Open()), old(Edge()), old(tokens), old(errors))
    {
      hide Consistent, EndsLine, Counts, LineEnded, LineEnd;
      SomeLevel(tokens, indentStack, closureIndentStack, closureParenDepthStack, braceStack, braceBlockDepth);
      ghost var s, m, g := FromStart(), Open(), Edge();
      SkipLineEnd(c);
      CountsHere();
      ghost var counts := EndsLine();
      ScanNewline();
      if old(!continuationLine) {
        LineEndedAs(s, m, g, old(tokens), old(errors), counts);
      }
    }

    lemma LineEndedAs(s: string, m: Mode, g: Margin, before: seq<Token>, errs: nat, counts: bool)
      requires start <= current <= |source| && g.indents != [] && errors == errs && atLineStart && !indentationHandled
      requires source[start..current] == s[..LineEnd(s)] && Ahead() == s[LineEnd(s)..] && counts == Counts(m, g, Ahead())
      requires continuationLine == !counts && Open() == m.(keyword := m.keyword && !counts)
      requires Edge() == g.(arrow := false, literal := false, pending := g.pending || (counts && InCall(m.parens, g.depths)))
      requires tokens == before + if counts then [Token(Newline, source[start..current])] else []
      ensures LineEnded(s, m, g, before, errs)
    {
      hide Counts, LineEnd;
    }

    /** A double quote. */
    method ScanQuote()
      requires Valid() && OneIn('"')
      modifies `source, `current, `tokens, `errors, `interpStack, `afterFatArrow, `blockKeywordSeen
      ensures Valid() && old(tokens) <= tokens
      ensures HeadNoted(old(tokens), old(afterFatArrow), old(inFunctionLiteral))
      ensures Follows(NextAny(old(FromStart()), old(Open())), old(tokens), old(errors))
      ensures LastHere(old(FromStart()), old(Open()))
      ensures Count(Ahead(), '"') <= Count(old(Ahead()), '"') && Count(Ahead(), '\'') <= Count(old(Ahead()), '\'')
    {
      hide Spliced, LastHere, ScanQuoted, TripleText, Consistent, StringScanned, NextAny, Count, Took, HeadNoted, ArrowAfter, LiteralAfter;
      ghost var s, m := FromStart(), Open();
      Cut(source, start, current);
      ScanString();
      TookString(s, m, old(tokens), old(errors));
      QuotedTriple(s);
      if IsTriple(s) {
        LastSpliced(s, m, old(source), start, TripleText(s[3..]));
      } else {
        LastPlain(s, m);
      }
    }

    /** At the end of the source the last step's text is what it must be. */
    ghost predicate LastHere(s: string, m: Mode)
      requires s != "" && current <= |source|
      reads `source, `start, `current
    {
      Ahead() == "" ==> start <= current && source[start..current] == LastText(s, m)
    }

    lemma LastPlain(s: string, m: Mode)
      requires InBounds() && s != "" && s[0] != '\'' && !IsTriple(s)
      requires source[start..] == if EndsInterpolation(s, m) then s[1..] else s
      ensures LastHere(s, m)
    {
      assert Ahead() == "" ==> source[start..current] == source[start..];
    }

    /** What the next step is by the first character of a text. */
    lemma NextOf(s: string, m: Mode)
      requires s != "" && s[0] != '"' && s[0] != '\'' && s[0] != '\n' && s[0] != '\r'
      ensures !IsTriple(s) && (EndsInterpolation(s, m) ==> s[0] == '}')
      ensures NextAny(s, m) ==
        if IsBlank(s[0]) || s[0] == '#' || s[0] == '`' then Next(s, m)
        else if IsBracket(s[0]) then TakeBracket(s, m)
        else TakeOther(s, m)
    {
    }

    lemma LastSpliced(s: string, m: Mode, before: string, from: nat, text: (string, string))
      requires current <= |source| && from <= |before| && s == before[from..] && |text.1| <= |s| && Spliced(before, from, text)
      requires s != "" && LastText(s, m) == SplicedText(s, text)
      ensures LastHere(s, m)
    {
      hide LastText, Dedented, Injected;
      var spliced := Injected(Dedented(text.0)) + ("\"" + text.1);
      var k := |before| - |text.1|;
      assert before[from..k] == s[..|s| - |text.1|];
      assert source[from..] == before[from..k] + spliced;
      assert Ahead() == "" ==> source[start..current] == source[start..];
    }

    /** A literal in double quotes is what `NextAny` takes. */
    lemma TookString(s: string, m: Mode, before: seq<Token>, errs: nat)
      requires current <= |source| && s != "" && s[0] == '"' && StringScanned(s[1..], before, m.interps, errs)
      requires Open() == m.(interps := interpStack)
      ensures Follows(NextAny(s, m), before, errs)
    {
      hide ScanQuoted, TripleText, Dedented, Injected, ScanBody, TakeBracket, TakeOther;
      QuotedTriple(s);
      if IsTriple(s) {
        assert s[1..][2..] == s[3..];
        var (raw, after) := TripleText(s[3..]);
        BrokenCounts(Injected(Dedented(raw)) + ("\"" + after), '"', "");
      } else {
        SingleBroken(s);
      }
    }

    lemma QuotedTriple(s: string)
      requires s != "" && s[0] == '"'
      ensures ScanQuoted(s[1..]).Triple? <==> IsTriple(s)
      ensures IsTriple(s) ==> s[1..][2..] == s[3..]
    {
    }

    lemma SingleBroken(s: string)
      requires s != "" && ScanQuoted(s[1..]).Single?
      ensures var r := ScanQuoted(s[1..]).body; r.end.Broken? ==> r.errors > 0
    {
      BrokenCounts(s[1..], '"', "");
    }

    /** A literal in single quotes is what `NextAny` takes. */
    lemma TookSingle(s: string, m: Mode, before: seq<Token>, errs: nat)
      requires current <= |source| && s != "" && s[0] == '\'' && Open() == m.(interps := interpStack)
      requires var (raw, after) := SingleText(s[1..]);
        BodyScanned(ScanBody(Injected(Dedented(raw)) + ("\"" + after), '"', ""), StrHead, Str, '"', before, m.interps, errs)
      ensures Follows(NextAny(s, m), before, errs)
    {
      hide SingleText, Dedented, Injected, ScanBody;
      var (raw, after) := SingleText(s[1..]);
      BrokenCounts(Injected(Dedented(raw)) + ("\"" + after), '"', "");
    }

    /** A single quote. */
    method ScanSingle()
      requires Valid() && OneIn('\'')
      modifies `source, `current, `tokens, `errors, `interpStack, `afterFatArrow, `blockKeywordSeen
      ensures Valid() && old(tokens) <= tokens
      ensures HeadNoted(old(tokens), old(afterFatArrow), old(inFunctionLiteral))
      ensures Follows(NextAny(old(FromStart()), old(Open())), old(tokens), old(errors))
      ensures LastHere(old(FromStart()), old(Open()))
      ensures Count(Ahead(), '\'') <= Count(old(Ahead()), '\'')
    {
      hide Spliced, LastHere, Consistent, BodyScanned, NextAny, Count, Took, SingleText, Injected, Dedented, ScanBody;
      ghost var s, m := FromStart(), Open();
      Cut(source, start, current);
      ScanSingleQuoteString();
      TookSingle(s, m, old(tokens), old(errors));
      LastSpliced(s, m, old(source), start, SingleText(s[1..]));
    }

    /** The character just consumed decides what is scanned; that is what the text's next step takes. */
    method Dispatch(c: char)
      requires Valid() && (OneIn(c) || (c == '\0' && start == current))
      modifies this
      ensures Valid() && old(tokens) <= tokens && |old(indentStack)| > 0
      ensures if c == '\'' then Count(Ahead(), '\'') <= Count(old(Ahead()), '\'')
        else if c == '"' then Count(Ahead(), '\'') <= Count(old(Ahead()), '\'') && Count(Ahead(), '"') <= Count(old(Ahead()), '"')
        else source == old(source) && old(current) <= current
      ensures indentStack == old(indentStack) && closureIndentStack == old(closureIndentStack) && closureParenDepthStack == old(closureParenDepthStack)
      ensures c != '\n' && c != '\r' ==> unchanged(`pendingClosureBlock, `continuationLine, `atLineStart, `indentationHandled)
      ensures c != '\n' && c != '\r' ==> HeadNoted(old(tokens), old(afterFatArrow), old(inFunctionLiteral))
      ensures c != '\n' && c != '\r' && old(OneIn(c)) ==>
        Follows(NextAny(old(FromStart()), old(Open())), old(tokens), old(errors)) && LastHere(old(FromStart()), old(Open()))
      ensures if c == '\n' || c == '\r' then errors == old(errors) else !old(OneIn(c)) ==> errors > old(errors)
      ensures (c == '\n' || c == '\r') && old(OneIn(c) && !continuationLine) ==>
        LineEnded(old(FromStart()), old(Open()), old(Edge()), old(tokens), old(errors))
    {
      hide Consistent, Count, Follows, LineEnded, HeadNoted, LastHere, NextAny, Next, TakeBracket, TakeOther, EndsInterpolation;
      SomeLevel(tokens, indentStack, closureIndentStack, closureParenDepthStack, braceStack, braceBlockDepth);
      ghost var s, m := if OneIn(c) then FromStart() else "", Open();
      match c {
        case ' ' => ScanRun(c);
        case '\t' => ScanRun(c);
        case '\n' => ScanLineEnd(c);
        case '\r' => ScanLineEnd(c);
        case '#' => ScanRun(c);
        case '"' => ScanQuote();
        case '\'' => ScanSingle();
        case '`' => ScanRun(c);
        case _ =>
          if IsBracket(c) {
            ScanBracket(c);
          } else {
            ScanOther(c);
          }
      }
      if s != "" && c != '\n' && c != '\r' && c != '"' && c != '\'' {
        NextOf(s, m);
        LastPlain(s, m);
      }
    }

    method AddSymbol()
      requires Valid() && start + 1 == current
      modifies `tokens, `afterFatArrow, `blockKeywordSeen
      ensures Valid() && old(tokens) <= tokens
      ensures HeadNoted(old(tokens), old(afterFatArrow), old(inFunctionLiteral))
      ensures tokens == old(tokens) + [Token(Symbol, source[start..current])] && blockKeywordSeen == old(blockKeywordSeen)
    {
      hide Consistent;
      AddToken(Symbol);
    }

    // ----- Whole lines -----

    /** At the start of a line that counts as one. */
    ghost predicate AtLine()
      reads `atLineStart, `indentationHandled, `continuationLine, `blockKeywordSeen, `afterFatArrow
    {
      atLineStart && !indentationHandled && !continuationLine && !blockKeywordSeen && !afterFatArrow
    }

    /** The line has been started as `LineStart` says; where it is in error there is an error, or nothing is left to scan. */
    ghost predicate StartedAs(st: Option<Started>, blanks: string, m: Mode, before: seq<Token>, errs: nat)
      requires current <= |source|
      reads this
    {
      && atLineStart && !continuationLine && errors >= errs
      && match st
         case Some(started) =>
           && Ahead() == started.rest && tokens == before + started.toks && Edge() == started.margin && errors == errs && Open() == m
           && (Ahead() == "" ==> start <= current && source[start..current] == blanks)
         case None => errors > errs || (true in m.braceStack && Ahead() == "")
    }

    /** Leading blanks of a line: what they do to the levels. */
    method Indentation()
      requires Valid() && start == current && Ahead() != "" && braceBlockDepth == 0
      modifies `current, `tokens, `errors, `afterFatArrow, `blockKeywordSeen, `indentationHandled
      modifies `indentStack, `closureIndentStack, `closureParenDepthStack, `pendingClosureBlock
      ensures Valid() && old(tokens) <= tokens && old(current) <= current && indentationHandled && |old(indentStack)| > 0 && errors >= old(errors)
      ensures old(AtLine()) ==> StartedAs(LineStart(old(Ahead()), old(Open()), old(Edge())), Leading(old(Ahead())), old(Open()), old(tokens), old(errors))
    {
      hide Handled, Silent, Consistent, Blanks, BlanksEnd, MarginAfter, BadIndent, LineStart, StackAfter, StepTokens, StartedAs, HeadNoted, ArrowAfter, LiteralAfter;
      ghost var s, m, g := Ahead(), Open(), Edge();
      SomeLevel(tokens, indentStack, closureIndentStack, closureParenDepthStack, braceStack, braceBlockDepth);
      NoBlockOpen();
      BlanksFrom(source, current);
      indentationHandled := true;
      HandleIndentation();
      Cut(source, start, current);
      if old(AtLine()) {
        LineStarted(s, current - start, m, g, old(tokens), old(errors));
      }
    }

    /** A text's leading blanks. */
    ghost function Leading(s: string): string
    {
      s[..BlanksEnd(s)]
    }

    lemma NoBlockOpen()
      requires Valid()
      ensures braceBlockDepth > 0 <==> true in braceStack
    {
      NoTrues(braceStack);
    }

    /** What the indentation did is what the line's start asks for. */
    lemma LineStarted(s: string, n: nat, m: Mode, g: Margin, before: seq<Token>, errs: nat)
      requires start <= current <= |source| && g.indents != [] && s != "" && n == BlanksEnd(s) && true !in m.braceStack
      requires Ahead() == s[n..] && source[start..current] == s[..n]
      requires atLineStart && !continuationLine && Open() == m && !g.arrow && Handled(s, n, m.parens, g, before, errs)
      ensures StartedAs(LineStart(s, m, g), Leading(s), m, before, errs)
    {
      hide BadIndent, BlanksEnd, InCall, StackAfter, Outdented;
      assert before + [] == before;
    }

    /** The line goes on behind its leading blanks. */
    ghost predicate GoesOn(s: string, m: Mode, g: Margin, before: seq<Token>, errs: nat)
      requires current <= |source|
      reads this
    {
      && Ahead() == s[BlanksEnd(s)..] && Open() == m && Edge() == g && tokens == before && errors == errs
      && atLineStart && !continuationLine && indentationHandled
    }

    /** Leading blanks that are nothing. */
    method SkipIndentation()
      requires InBounds() && start == current
      modifies `start, `current, `indentationHandled
      ensures InBounds() && start == current && old(current) <= current && indentationHandled
      ensures Ahead() == old(Ahead())[BlanksEnd(old(Ahead()))..]
    {
      BlanksFrom(source, current);
      Cut(source, current, current + Blanks(source, current));
      SkipBlanks();
      start := current;
      indentationHandled := true;
    }

    /** Leading blanks, once for every line; `done` when the line's indentation was a step of its own. */
    method StartLine() returns (done: bool)
      requires Valid() && start == current && Ahead() != ""
      modifies `start, `current, `tokens, `errors, `afterFatArrow, `blockKeywordSeen
      modifies `indentStack, `closureIndentStack, `closureParenDepthStack, `pendingClosureBlock, `continuationLine, `indentationHandled
      ensures Valid() && old(tokens) <= tokens && old(current) <= current && |old(indentStack)| > 0
      ensures done ==> old(current) < current || (!old(indentationHandled) && indentationHandled)
      ensures !done ==> start == current
      ensures old(!atLineStart || indentationHandled) ==> !done && unchanged(this)
      ensures old(AtLine()) ==> StartedAs(LineStart(old(Ahead()), old(Open()), old(Edge())), Leading(old(Ahead())), old(Open()), old(tokens), old(errors))
      ensures old(atLineStart && !indentationHandled && continuationLine) ==>
        !done && GoesOn(old(Ahead()), old(Open()), old(Edge()), old(tokens), old(errors))
      ensures done ==> indentationHandled && true !in old(braceStack)
      ensures old(AtLine()) && !done && Ahead() == "" ==> LineStart(old(Ahead()), old(Open()), old(Edge())).None?
      ensures errors >= old(errors) && (old(Tidy()) ==> !continuationLine)
    {
      hide Consistent, LineStart, BlanksEnd, StartedAs;
      SomeLevel(tokens, indentStack, closureIndentStack, closureParenDepthStack, braceStack, braceBlockDepth);
      NoBlockOpen();
      ghost var s := Ahead();
      if atLineStart && continuationLine && !indentationHandled {
        continuationLine := false;
        SkipIndentation();
      }
      if atLineStart && !indentationHandled && braceBlockDepth > 0 {
        BlockLineStart();
        SkipIndentation();
        StartedPlainly(s, s[BlanksEnd(s)..], old(AtLine()), old(Open()), old(Edge()), old(tokens), old(errors));
      }
      if atLineStart && !indentationHandled {
        var c := Peek();
        if c == ' ' || c == '\t' {
          Indentation();
          return true;
        }
        if c != '\n' && c != '\r' && c != '#' {
          if |indentStack| > 1 {
            Indentation();
            return true;
          }
          indentationHandled := true;
        }
        FirstLevelStart();
        StartedPlainly(s, s, old(AtLine()), old(Open()), old(Edge()), old(tokens), old(errors));
      }
      done := false;
    }

    /** A line whose start did nothing but go over blanks. */
    lemma StartedPlainly(s: string, rest: string, atLine: bool, m: Mode, g: Margin, before: seq<Token>, errs: nat)
      requires InBounds() && g.indents != []
      requires LineStart(s, m, g) == (if rest == "" then None else Some(Started([], g, rest))) && (rest == "" ==> true in m.braceStack)
      requires Ahead() == rest && tokens == before && Edge() == g && errors == errs && Open() == m
      requires atLine ==> atLineStart && !continuationLine
      ensures atLine ==> StartedAs(LineStart(s, m, g), Leading(s), m, before, errs)
    {
      hide LineStart;
      assert before + [] == before;
    }

    /** Between a block's braces. */
    lemma BlockLineStart()
      requires Valid() && braceBlockDepth > 0
      ensures |indentStack| > 0 && true in braceStack
      ensures var rest := Ahead()[BlanksEnd(Ahead())..];
        LineStart(Ahead(), Open(), Edge()) == if rest == "" then None else Some(Started([], Edge(), rest))
    {
      NoBlockOpen();
    }

    /** Without blanks and without levels a line starts as it is. */
    lemma FirstLevelStart()
      requires Valid() && Ahead() != "" && !IsBlank(Ahead()[0]) && braceBlockDepth == 0
      ensures |indentStack| > 0
      ensures |indentStack| <= 1 || Ahead()[0] in "\n\r#" ==> LineStart(Ahead(), Open(), Edge()) == Some(Started([], Edge(), Ahead()))
    {
      NoBlockOpen();
      assert BlanksEnd(Ahead()) == 0 && Ahead()[0..] == Ahead() && '\t' !in Ahead()[..0];
      assert StepTokens(|indentStack|, |indentStack|, "") == [];
    }

    /** What is still to come, in the middle of a line. */
    ghost function RestOfLine(): Option<seq<Token>>
      requires InBounds() && indentStack != []
      reads this
    {
      ScanRest(Ahead(), Open(), Edge(), source[start..current])
    }

    /** What is still to come. */
    ghost function Remaining(): Option<seq<Token>>
      requires InBounds() && indentStack != []
      reads this
    {
      if atLineStart && !indentationHandled then
        if continuationLine then ScanSameLine(Ahead(), Open(), Edge(), source[start..current])
        else ScanLines(Ahead(), Open(), Edge(), source[start..current])
      else RestOfLine()
    }

    /** Nothing waits at the start of a line that counts, and only lines that do not count are marked. */
    ghost predicate Tidy()
      reads `atLineStart, `indentationHandled, `continuationLine, `blockKeywordSeen, `afterFatArrow, `inFunctionLiteral
    {
      && (atLineStart && !indentationHandled ==> !afterFatArrow && !inFunctionLiteral && (blockKeywordSeen ==> continuationLine))
      && (continuationLine ==> atLineStart && !indentationHandled)
    }

    /** The line is started: what is still to come is the rest of the line and the lines behind it. */
    lemma StartKept(toks: seq<Token>, m: Mode, g: Margin, s: string, last: string, errs: nat)
      requires InBounds() && g.indents != [] && indentStack != [] && s != ""
      requires StartedAs(LineStart(s, m, g), Leading(s), m, toks, errs)
      ensures Ahead() != "" || true !in m.braceStack ==> Kept(ScanLines(s, m, g, last), RestOfLine(), toks, errs, tokens, errors)
      ensures LineStart(s, m, g).None? ==> ScanLines(s, m, g, last).None?
    {
      hide ScanLines, ScanRest, LineStart, Before, BlanksEnd;
      LinesStep(s, m, g, last);
      var st := LineStart(s, m, g);
      if st.Some? {
        var rest := ScanRest(st.value.rest, m, st.value.margin, Leading(s));
        if Ahead() != "" {
          AnyLast(Ahead(), m, st.value.margin, Leading(s), source[start..current]);
        }
        BeforeTwice(toks, st.value.toks, rest);
        BeforeSome(st.value.toks, rest);
      }
    }

    /** The line goes on: what is still to come is its rest. */
    lemma GoneOn(toks: seq<Token>, m: Mode, g: Margin, s: string, last: string, errs: nat)
      requires InBounds() && g.indents != [] && s != "" && SameLine(g) == g && GoesOn(s, m, g, toks, errs)
      ensures Ahead() != "" ==> Kept(ScanSameLine(s, m, g, last), RestOfLine(), toks, errs, tokens, errors)
      ensures Ahead() == "" ==> ScanSameLine(s, m, g, last).None?
    {
      hide ScanRest, Before;
      if Ahead() != "" {
        AnyLast(Ahead(), m, g, "", source[start..current]);
      }
    }

    lemma AsBefore(program: Option<seq<Token>>)
      requires InBounds() && indentStack != [] && program == RestOfLine()
      ensures Kept(program, RestOfLine(), tokens, errors, tokens, errors)
    {
    }

    /** A step inside a line, or over its end. */
    lemma StepKept(s: string, m: Mode, g: Margin, last: string, before: seq<Token>, errs: nat)
      requires InBounds() && g.indents != [] && indentStack != [] && s != ""
      requires LineEnd(s) == 0 ==>
        && Follows(NextAny(s, m), before, errs) && LastHere(s, m) && !atLineStart
        && before <= tokens && Edge() == Noted(g, tokens[|before|..])
      requires LineEnd(s) > 0 ==> LineEnded(s, m, g, before, errs)
      ensures Kept(ScanRest(s, m, g, last), Remaining(), before, errs, tokens, errors)
    {
      hide ScanLines, ScanRest, ScanSameLine, NextAny, Before, Counts, Noted, BlanksEnd, LastText, LastHere, Took;
      RestStep(s, m, g, last);
      if LineEnd(s) > 0 {
        LineEndKept(s, m, g, last, before, errs);
      } else if NextAny(s, m).Some? {
        TokenKept(s, m, g, last, before, errs);
      }
    }

    lemma LineEndKept(s: string, m: Mode, g: Margin, last: string, before: seq<Token>, errs: nat)
      requires InBounds() && g.indents != [] && indentStack != [] && s != "" && LineEnd(s) > 0 && LineEnded(s, m, g, before, errs)
      ensures Kept(ScanRest(s, m, g, last), Remaining(), before, errs, tokens, errors)
    {
      hide ScanLines, ScanRest, ScanSameLine, Before, Counts;
      RestStep(s, m, g, last);
      var end, behind := s[..LineEnd(s)], s[LineEnd(s)..];
      if Counts(m, g, behind) {
        BeforeTwice(before, [Token(Newline, end)], ScanLines(behind, m.(keyword := false), NewLine(m, g), end));
        BeforeSome([Token(Newline, end)], ScanLines(behind, m.(keyword := false), NewLine(m, g), end));
      } else {
        SameLineTwice(behind, m, g, end);
      }
    }

    lemma TokenKept(s: string, m: Mode, g: Margin, last: string, before: seq<Token>, errs: nat)
      requires InBounds() && g.indents != [] && indentStack != [] && s != "" && LineEnd(s) == 0 && NextAny(s, m).Some? && !atLineStart
      requires Took(NextAny(s, m).value, before, errs) && LastHere(s, m)
      requires before <= tokens && Edge() == Noted(g, tokens[|before|..])
      ensures Kept(ScanRest(s, m, g, last), Remaining(), before, errs, tokens, errors)
    {
      hide ScanRest, NextAny, Before, Noted, LastText;
      RestStep(s, m, g, last);
      var t := NextAny(s, m).value;
      assert tokens[|before|..] == t.toks;
      if Ahead() != "" {
        AnyLast(Ahead(), Open(), Edge(), LastText(s, m), source[start..current]);
      }
      BeforeTwice(before, t.toks, ScanRest(t.rest, t.mode, Noted(g, t.toks), LastText(s, m)));
      BeforeSome(t.toks, ScanRest(t.rest, t.mode, Noted(g, t.toks), LastText(s, m)));
    }

    lemma EdgeNoted(g: Margin, before: seq<Token>)
      requires HeadNoted(before, g.arrow, g.literal)
      requires Edge().(arrow := false, literal := false) == g.(arrow := false, literal := false)
      ensures before <= tokens && Edge() == Noted(g, tokens[|before|..])
    {
    }

    /** The step that scans a token, once the line is started; behind the end of the source it is an error. */
    method ScanStarted()
      requires Valid() && start == current && !continuationLine
      modifies this
      ensures Valid() && old(tokens) <= tokens && |old(indentStack)| > 0 && |indentStack| > 0 && Tidy()
      ensures old(Ahead()) == "" ==> source == old(source) && old(current) <= current && errors > old(errors)
      ensures old(Ahead()) != "" ==>
        var c, behind := old(Ahead())[0], old(Ahead())[1..];
        if c == '\'' then Count(Ahead(), '\'') <= Count(behind, '\'')
        else if c == '"' then Count(Ahead(), '\'') <= Count(behind, '\'') && Count(Ahead(), '"') <= Count(behind, '"')
        else source == old(source) && old(current) < current
      ensures old(Ahead()) != "" ==> Kept(old(RestOfLine()), Remaining(), old(tokens), old(errors), tokens, errors)
    {
      hide Consistent, Count, ScanRest, NextAny, Follows, LineEnded, Remaining, HeadNoted, LastHere, Kept, Tidy;
      SomeLevel(tokens, indentStack, closureIndentStack, closureParenDepthStack, braceStack, braceBlockDepth);
      ghost var s, m, g, last := Ahead(), Open(), Edge(), source[start..current];
      var c := Advance();
      atLineStart := false;
      Dispatch(c);
      SomeLevel(tokens, indentStack, closureIndentStack, closureParenDepthStack, braceStack, braceBlockDepth);
      if s != "" {
        if LineEnd(s) == 0 {
          EdgeNoted(g, old(tokens));
          TidyInside();
        } else {
          TidyBehind(s, m, g, old(tokens), old(errors));
        }
        StepKept(s, m, g, last, old(tokens), old(errors));
      } else {
        TidyInside();
      }
    }

    lemma TidyInside()
      requires !atLineStart && !continuationLine
      ensures Tidy()
    {
    }

    lemma TidyBehind(s: string, m: Mode, g: Margin, before: seq<Token>, errs: nat)
      requires current <= |source| && g.indents != [] && LineEnd(s) > 0 && LineEnded(s, m, g, before, errs)
      ensures Tidy()
    {
      hide Counts;
    }

    method ScanToken()
      requires Valid() && start == current && Ahead() != "" && Tidy()
      modifies this
      ensures Valid() && old(tokens) <= tokens && Tidy()
      ensures Shrinks(old(Ahead()), old(indentationHandled), Ahead(), indentationHandled)
      ensures |old(indentStack)| > 0 && |indentStack| > 0
      ensures Kept(old(Remaining()), Remaining(), old(tokens), old(errors), tokens, errors)
    {
      hide Consistent, Count, Shrinks, ScanLines, ScanRest, ScanSameLine, LineStart, BlanksEnd, StartedAs, GoesOn, Kept, RestOfLine;
      SomeLevel(tokens, indentStack, closureIndentStack, closureParenDepthStack, braceStack, braceBlockDepth);
      ghost var text, from := source, current;
      var done := StartLine();
      SomeLevel(tokens, indentStack, closureIndentStack, closureParenDepthStack, braceStack, braceBlockDepth);
      if old(AtLine()) {
        StartKept(old(tokens), old(Open()), old(Edge()), old(Ahead()), old(source[start..current]), old(errors));
      } else if old(atLineStart && !indentationHandled) {
        GoneOn(old(tokens), old(Open()), old(Edge()), old(Ahead()), old(source[start..current]), old(errors));
      } else {
        AsBefore(old(Remaining()));
      }
      if done {
        StepShrinks(text, from, current, old(indentationHandled), indentationHandled);
        assert Tidy();
        return;
      }
      ghost var at, ahead, toks, errs, rest := current, Ahead(), tokens, errors, RestOfLine();
      var c := Peek();
      ScanStarted();
      if ahead == "" {
        FailedBehind(old(Remaining()), Remaining(), old(tokens), old(errors), tokens, errors);
      } else {
        KeptOn(old(Remaining()), rest, Remaining(), old(tokens), old(errors), toks, errs, tokens, errors);
      }
      if c == '\'' || c == '"' {
        QuoteShrinks(text, from, at, Ahead(), old(indentationHandled), indentationHandled);
      } else {
        StepShrinks(text, from, current, old(indentationHandled), indentationHandled);
      }
    }

    /** Nothing scanned yet. */
    ghost predicate Fresh()
      reads this
    {
      AtLine() && Open() == AT_REST && Edge() == Flush([0]) && tokens == [] && errors == 0 && start == 0 && current == 0
    }

    /** A new token's start is no matter before the end of the source. */
    lemma RestartKept(m: Mode, g: Margin, last: string, other: string)
      requires InBounds() && g.indents != [] && Ahead() != ""
      ensures ScanLines(Ahead(), m, g, last) == ScanLines(Ahead(), m, g, other)
      ensures ScanRest(Ahead(), m, g, last) == ScanRest(Ahead(), m, g, other)
      ensures ScanSameLine(Ahead(), m, g, last) == ScanSameLine(Ahead(), m, g, other)
    {
      hide ScanLines, ScanRest;
      AnyLast(Ahead(), m, g, last, other);
    }

    /** All steps up to the end of the source. */
    method ScanSource()
      requires Valid() && Fresh()
      modifies this
      ensures Valid() && Ahead() == "" && |indentStack| > 0
      ensures Kept(ScanProgram(old(source)), Remaining(), [], 0, tokens, errors)
    {
      hide Count, Consistent, ScanLines, ScanRest, ScanSameLine, Kept;
      SomeLevel(tokens, indentStack, closureIndentStack, closureParenDepthStack, braceStack, braceBlockDepth);
      ghost var program := ScanProgram(source);
      assert source[0..] == source && source[0..0] == "";
      KeptFromStart(program);
      while current < |source|
        invariant Valid() && |indentStack| > 0 && Tidy()
        invariant Kept(program, Remaining(), [], 0, tokens, errors)
        decreases Count(Ahead(), '\''), Count(Ahead(), '"'), |source| - current, if indentationHandled then 0 else 1
      {
        ghost var remaining, toks, errs := Remaining(), tokens, errors;
        RestartKept(Open(), Edge(), source[start..current], "");
        start := current;
        assert source[start..current] == "";
        assert Remaining() == remaining;
        ScanToken();
        KeptOn(program, remaining, Remaining(), [], 0, toks, errs, tokens, errors);
      }
    }

    lemma KeptFromStart(program: Option<seq<Token>>)
      requires tokens == [] && errors == 0
      ensures Kept(program, program, [], 0, tokens, errors)
    {
    }

    /** All tokens of the source before the pass that joins lines; the loop ends on every input. Closures still open at the end are left as they are. */
    method ScanTokens()
      requires Valid() && Fresh()
      modifies this
      ensures InBounds() && Ahead() == "" && indentStack == [0] && Nested(tokens)
      ensures Depth(tokens) == braceBlockDepth == Trues(braceStack)
      ensures Balanced(tokens) <==> true !in braceStack
      ensures |tokens| > 0 && Last(tokens).kind == EndOfFile
      ensures match ScanProgram(old(source)) case Some(toks) => errors == 0 && tokens == toks case None => errors > 0
    {
      hide Count, ScanLines, ScanRest, Before, Nested, Depth, Trues, Increasing, KeywordAfter, HeadNoted;
      hide ArrowAfter, LiteralAfter, Popped, RestOfLine, ScanSameLine;
      ScanSource();
      ghost var scanned, height, last, errs := tokens, |indentStack|, source[start..current], errors;
      SourceEnds(ScanProgram(old(source)));
      while |indentStack| > 1
        invariant InBounds() && Ahead() == "" && source[start..current] == last && |indentStack| <= height
        invariant Consistent(tokens, indentStack, [], [], braceStack, braceBlockDepth)
        invariant tokens == scanned + StepTokens(height, |indentStack|, last)
        invariant errors == errs
        decreases |indentStack|
      {
        AddToken(Dedent);
        MoreDedents(scanned, height, |indentStack| - 1, last);
        PopLevel(indentStack);
        indentStack := indentStack[..|indentStack| - 1];
      }
      AddToken(EndOfFile);
      NoTrues(braceStack);
    }

    /** What is left to emit at the end of the source. */
    lemma SourceEnds(program: Option<seq<Token>>)
      requires InBounds() && |indentStack| > 0 && Ahead() == "" && Kept(program, Remaining(), [], 0, tokens, errors)
      ensures tokens == tokens + StepTokens(|indentStack|, |indentStack|, source[start..current])
      ensures program.Some? ==> (
        errors == 0 && program.value == tokens + StepTokens(|indentStack|, 1, source[start..current]) + [Token(EndOfFile, source[start..current])])
      ensures program.None? ==> errors > 0
    {
      var left, eof := StepTokens(|indentStack|, 1, source[start..current]), [Token(EndOfFile, source[start..current])];
      assert tokens + (left + eof) == tokens + left + eof;
      if program.Some? {
        assert [] + program.value == program.value;
      }
    }
  }

  /** Levels and closures do not depend on a fat arrow. */
  lemma {:induction false} ArrowApart(g: Margin, spaces: int)
    ensures Outdented(g.(arrow := false), spaces) == Outdented(g, spaces).(arrow := false)
    decreases |g.indents|
  {
    if |g.indents| > 1 && Last(g.indents) > spaces {
      ArrowApart(Outer(g), spaces);
    }
  }

  /** A token lets a fat arrow stand, or ends its effect. */
  lemma ArrowOne(arrow: bool, t: Token)
    ensures (arrow && ArrowAfter(true, [t])) == (arrow && (IsFatArrow(t) || t.kind.Comment? || t.kind.Directive?))
    ensures Headless(t.kind, t.lexeme) ==> ArrowAfter(arrow, [t]) == (arrow && ArrowAfter(true, [t]))
  {
  }

  /** The innermost level goes with its dedent, and the closure it is. */
  lemma LevelCloses(tokens: seq<Token>, indents: seq<int>, closures: seq<int>, parens: seq<nat>, braces: seq<bool>, blockDepth: nat, t: Token)
    requires Consistent(tokens, indents, closures, parens, braces, blockDepth) && |indents| > 1 && t.kind.Dedent?
    ensures |closures| == |parens|
    ensures closures != [] ==> (Last(Front(indents)) < Last(closures) <==> Last(closures) == Last(indents))
    ensures
      var closes := closures != [] && Last(closures) == Last(indents);
      Consistent(tokens + [t], Front(indents), if closes then Front(closures) else closures, if closes then Front(parens) else parens, braces, blockDepth)
  {
    hide Depth, Nested, Levels, Closures, Trues;
    PopLevel(indents);
    PopClosure(closures, parens, indents);
    DepthSnoc(tokens, t);
    ClosureLengths(closures, parens, indents);
  }

  lemma ClosureLengths(closures: seq<int>, parens: seq<nat>, indents: seq<int>)
    requires |indents| > 0 && Closures(closures, parens, indents)
    ensures |closures| == |parens|
  {
  }

  /** A token that is no head of a block or a closure. */
  predicate Headless(kind: Kind, lexeme: string)
  {
    !kind.Word? && (kind.Symbol? ==> lexeme != "=>")
  }

  predicate OfString(k: Kind)
  {
    k == Str || k == StrHead || k == StrMid || k == StrTail
  }

  /** Not a layout token. */
  predicate Flat(k: Kind)
  {
    k != Indent && k != Dedent
  }

  lemma FurtherNothing(raw: string)
    ensures forall rest: string :: Further(raw, ("", rest)) == (raw, rest)
  {
    assert raw + "" == raw;
  }

  lemma FurtherChar(raw: string, c: char, rest: (string, string))
    ensures Further(raw, Further([c], rest)) == Further(raw + [c], rest)
  {
    assert raw + ([c] + rest.0) == raw + [c] + rest.0;
  }

  lemma TripleStep(s: string)
    ensures s == "" ==> TripleText(s) == ("", "")
    ensures s != "" ==> TripleText(s) == if IsTriple(s) then ("", s[3..]) else Further([s[0]], TripleText(s[1..]))
    ensures Further("", TripleText(s)) == TripleText(s)
  {
    ThreeQuotes(s);
    assert "" + TripleText(s).0 == TripleText(s).0;
  }

  lemma ThreeQuotes(s: string)
    ensures IsTriple(s) <==> |s| >= 3 && s[..3] == "\"\"\""
  {
    if |s| >= 3 {
      assert s[..3] == [s[0], s[1], s[2]];
    }
  }

  lemma TripleEnds(s: string, i: nat)
    requires i + 2 < |s| && s[i] == '"' && s[i + 1] == '"' && s[i + 2] == '"'
    ensures TripleText(s[i..]) == ("", s[i + 3..])
  {
    TripleStep(s[i..]);
  }

  lemma TripleGoesOn(raw: string, s: string, i: nat)
    requires i < |s| && !(i + 2 < |s| && s[i] == '"' && s[i + 1] == '"' && s[i + 2] == '"')
    ensures Further(raw, TripleText(s[i..])) == Further(raw + [s[i]], TripleText(s[i + 1..]))
  {
    hide TripleText;
    TripleStep(s[i..]);
    assert s[i..][1..] == s[i + 1..];
    FurtherChar(raw, s[i], TripleText(s[i + 1..]));
  }

  lemma SingleStep(s: string)
    ensures s == "" ==> SingleText(s) == ("", "")
    ensures s != "" ==> (SingleText(s) ==
      if s[0] == '\'' then ("", s[1..])
      else if |s| >= 2 && s[0] == '\\' && s[1] == '\'' then Further("'", SingleText(s[2..]))
      else Further([s[0]], SingleText(s[1..])))
    ensures Further("", SingleText(s)) == SingleText(s)
  {
    assert "" + SingleText(s).0 == SingleText(s).0;
  }

  /** A body at its closing quote, at an interpolation, or at the end of the source. */
  lemma BodyEnds(s: string, i: nat, quote: char, value: string)
    requires i <= |s| && (i == |s| || s[i] == quote || InterpStart(s[i..]))
    ensures ScanBody(s[i..], quote, value) ==
      if i == |s| then Body(Broken, value, "", 1) else Body(if s[i] == quote then Closed else Interpolates, value, s[i + 1..], 0)
  {
    hide ScanBody;
    BodyStep(s[i..], quote, value);
    if i < |s| {
      assert s[i..][1..] == s[i + 1..];
    }
  }

  lemma SingleEnds(s: string, i: nat)
    requires i < |s| && s[i] == '\''
    ensures SingleText(s[i..]) == ("", s[i + 1..])
  {
    SingleStep(s[i..]);
  }

  lemma SingleEscaped(raw: string, s: string, i: nat)
    requires i + 1 < |s| && s[i] == '\\' && s[i + 1] == '\''
    ensures Further(raw, SingleText(s[i..])) == Further(raw + ['\''], SingleText(s[i + 2..]))
  {
    hide SingleText;
    SingleStep(s[i..]);
    assert s[i..][2..] == s[i + 2..];
    FurtherChar(raw, '\'', SingleText(s[i + 2..]));
  }

  lemma SingleGoesOn(raw: string, s: string, i: nat)
    requires i < |s| && s[i] != '\'' && !(i + 1 < |s| && s[i] == '\\' && s[i + 1] == '\'')
    ensures Further(raw, SingleText(s[i..])) == Further(raw + [s[i]], SingleText(s[i + 1..]))
  {
    hide SingleText;
    SingleStep(s[i..]);
    assert s[i..][1..] == s[i + 1..];
    FurtherChar(raw, s[i], SingleText(s[i + 1..]));
  }

  lemma WordStep(s: string)
    requires s != "" && IsAlpha(s[0])
    ensures WordEnd(s) == 1 + WordEnd(s[1..])
  {
  }

  lemma CommentStep(s: string)
    requires s != "" && s[0] == '#'
    ensures CommentEnd(s) == 1 + CommentEnd(s[1..])
  {
  }

  lemma NumberKind(s: string)
    requires s != ""
    ensures NumberEnd(s).Some? ==> NumberEnd(s).value.0 == Integer || NumberEnd(s).value.0 == Float
  {
  }

  lemma {:induction false} BlanksFrom(s: string, i: nat)
    requires i <= |s|
    ensures Blanks(s, i) == BlanksEnd(s[i..])
    decreases |s| - i
  {
    if i < |s| {
      assert s[i..][1..] == s[i + 1..];
      BlanksFrom(s, i + 1);
    }
  }

  lemma {:induction false} SpacesFrom(s: string, i: nat)
    requires i <= |s|
    ensures SpacesAhead(s, i) == SpacesIn(s[i..])
    decreases |s| - i
  {
    if i < |s| {
      assert s[i..][1..] == s[i + 1..];
      SpacesFrom(s, i + 1);
    }
  }

  lemma Cut(s: string, i: nat, j: nat)
    requires i <= j <= |s|
    ensures s[i..][..j - i] == s[i..j] && s[i..][j - i..] == s[j..]
  {
  }

  lemma {:induction false} BlanksBehind(s: string)
    ensures var n := BlanksEnd(s); n < |s| ==> !IsBlank(s[n])
  {
    if s != "" && IsBlank(s[0]) {
      BlanksBehind(s[1..]);
    }
  }

  lemma BlanksStep(s: string)
    requires s != "" && IsBlank(s[0])
    ensures BlanksEnd(s) == 1 + BlanksEnd(s[1..])
  {
  }

  function Shifted(n: nat, r: Option<nat>): Option<nat>
  {
    if r.Some? then Some(n + r.value) else None
  }

  /** One character of a raw string. */
  lemma RawGoesOn(s: string, from: nat, at: nat)
    requires from <= at < |s|
    ensures Shifted(at - from, RawEnd(s[at..])) ==
      if s[at] == '\0' then None else if s[at] == '`' then Some(at - from) else Shifted(at + 1 - from, RawEnd(s[at + 1..]))
    ensures s[from..][..at - from] == s[from..at] && s[from..][at - from + 1..] == s[at + 1..] && s[from..at] + [s[at]] == s[from..at + 1]
  {
    hide RawEnd;
    RawStep(s[at..]);
    assert s[at..][1..] == s[at + 1..];
  }

  lemma RawStep(s: string)
    ensures RawEnd(s) == if s == "" || s[0] == '\0' then None else if s[0] == '`' then Some(0) else Shifted(1, RawEnd(s[1..]))
  {
  }

  /** The token a string body ends in, if it does not break off. */
  function BodyToken(r: Body, interpKind: Kind, endKind: Kind): seq<Token>
  {
    if r.end.Closed? then [Token(endKind, r.value)] else if r.end.Interpolates? then [Token(interpKind, r.value)] else []
  }

  function MoreErrors(r: Body, n: nat): Body
  {
    r.(errors := r.errors + n)
  }

  /** Two quotes less. */
  lemma TwoQuotes(s: string, i: nat)
    requires i + 1 < |s| && s[i] == '"' && s[i + 1] == '"'
    ensures Count(s[i + 2..], '"') + 2 == Count(s[i..], '"') && Count(s[i + 2..], '\'') == Count(s[i..], '\'')
  {
    assert s[i..][1..] == s[i + 1..] && s[i + 1..][1..] == s[i + 2..];
  }

  /** A scan step that only moved the cursor, or only handled the line's indentation. */
  lemma StepShrinks(s: string, from: nat, to: nat, h0: bool, h1: bool)
    requires from <= to <= |s| && (from < to || (!h0 && h1))
    ensures Shrinks(s[from..], h0, s[to..], h1)
  {
    CountSuffix(s, from, to, '\'');
    CountSuffix(s, from, to, '"');
  }

  /** A scan step that consumed an opening quote and added none of its kind ahead. */
  lemma QuoteShrinks(s: string, from: nat, at: nat, ahead: string, h0: bool, h1: bool)
    requires from <= at < |s| && (s[at] == '\'' || s[at] == '"')
    requires Count(ahead, '\'') <= Count(s[at + 1..], '\'')
    requires s[at] == '"' ==> Count(ahead, '"') <= Count(s[at + 1..], '"')
    ensures Shrinks(s[from..], h0, ahead, h1)
  {
    assert s[at..] == [s[at]] + s[at + 1..];
    CountJoin([s[at]], s[at + 1..], '\'');
    CountJoin([s[at]], s[at + 1..], '"');
    CountSuffix(s, from, at, '\'');
    CountSuffix(s, from, at, '"');
  }

  lemma TruesSnoc(bs: seq<bool>, b: bool)
    ensures Trues(bs + [b]) == Trues(bs) + (if b then 1 else 0)
  {
    assert Front(bs + [b]) == bs;
  }

  lemma {:induction false} NoTrues(bs: seq<bool>)
    ensures Trues(bs) == 0 <==> true !in bs
  {
    if bs != [] {
      NoTrues(Front(bs));
      assert bs == Front(bs) + [Last(bs)];
    }
  }

  lemma MoreDedents(before: seq<Token>, n: nat, m: nat, lexeme: string)
    requires m < n
    ensures before + StepTokens(n, m, lexeme) == before + StepTokens(n, m + 1, lexeme) + [Token(Dedent, lexeme)]
  {
  }
}
