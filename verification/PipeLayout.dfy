/**
 A pipe chain on one line and the same chain over several lines: what the indent
 machine and the joining pass make of the two layouts.
 */
module PipeLayout {
  import opened Prelude
  import opened Layout
  import opened MergeLines

  /** A line outside brackets: its leading spaces and its tokens. A blank line has none. */
  datatype SourceLine = SourceLine(indent: nat, toks: seq<Token>)

  const PIPE := Token(Symbol, "|>")

  function Spaces(n: nat): string
  {
    seq(n, _ => ' ')
  }

  predicate IsRemark(t: Token)
  {
    t.kind.Comment? || t.kind.Directive?
  }

  /** A blank line or a comment line, which leaves the open levels alone. */
  predicate Idle(line: SourceLine)
  {
    line.toks == [] || IsRemark(line.toks[0])
  }

  /** What the tokenizer emits for lines, from a stack of open levels to the end of the input. */
  function Emit(stack: seq<int>, lines: seq<SourceLine>, eof: string): seq<Token>
    requires |stack| > 0
    decreases |lines|
  {
    if lines == [] then StepTokens(|stack|, 1, eof) + [Token(EndOfFile, eof)]
    else if Idle(lines[0]) then lines[0].toks + ([NEWLINE] + Emit(stack, lines[1..], eof))
    else
      var after := StackAfter(stack, lines[0].indent, false);
      StepTokens(|stack|, |after|, Spaces(lines[0].indent)) + (lines[0].toks + ([NEWLINE] + Emit(after, lines[1..], eof)))
  }

  /** Neither layout nor a comment. */
  predicate Inline(t: Token)
  {
    !IsLayout(t) && !t.kind.EndOfFile? && !IsRemark(t)
  }

  /** A token inside a line: the braces of a block are an indent and a dedent there. */
  predicate OfLine(t: Token)
  {
    Inline(t) || t.kind.Indent? || t.kind.Dedent?
  }

  /** Tokens of a line that do not end with a pipe. */
  predicate Closed(s: seq<Token>)
  {
    (forall i :: 0 <= i < |s| ==> OfLine(s[i])) && (s != [] ==> !IsPipe(Last(s)))
  }

  /** The tokens of one stage of a chain. */
  predicate Stage(s: seq<Token>)
  {
    s != [] && Closed(s)
  }

  function Dedents(s: seq<Token>): nat
  {
    if s == [] then 0 else (if s[0].kind.Dedent? then 1 else 0) + Dedents(s[1..])
  }

  /** What is left when so many dedents are absorbed, the first ones first. */
  function Kept(s: seq<Token>, absorbed: nat): seq<Token>
  {
    if s == [] then []
    else if s[0].kind.Dedent? && absorbed > 0 then Kept(s[1..], absorbed - 1)
    else [s[0]] + Kept(s[1..], absorbed)
  }

  /** What is still owed behind so many dedents. */
  function Less(absorbed: nat, dedents: nat): nat
  {
    if absorbed >= dedents then absorbed - dedents else 0
  }

  /** Stages joined by pipes, from the second one on. */
  function PipedStages(stages: seq<seq<Token>>): seq<Token>
  {
    if stages == [] then [] else [PIPE] + stages[0] + PipedStages(stages[1..])
  }

  function OneLine(first: seq<Token>, others: seq<seq<Token>>, indent: nat, rest: seq<SourceLine>): seq<SourceLine>
  {
    [SourceLine(indent, first + PipedStages(others))] + rest
  }

  /** The formatter's layout: every further stage on its own line, one level deeper. */
  function StageLines(others: seq<seq<Token>>, indent: nat): seq<SourceLine>
  {
    if others == [] then [] else [SourceLine(indent, [PIPE] + others[0])] + StageLines(others[1..], indent)
  }

  function MultiLine(first: seq<Token>, others: seq<seq<Token>>, indent: nat, rest: seq<SourceLine>): seq<SourceLine>
  {
    [SourceLine(indent, first)] + StageLines(others, indent + 4) + rest
  }

  /** Blank lines and comment lines between a chain and what follows it. */
  predicate Gap(lines: seq<SourceLine>)
  {
    forall i :: 0 <= i < |lines| ==> |lines[i].toks| <= 1 && Idle(lines[i])
  }

  /** Their tokens. */
  function GapTokens(gap: seq<SourceLine>): seq<Token>
  {
    if gap == [] then [] else gap[0].toks + ([NEWLINE] + GapTokens(gap[1..]))
  }

  /** The chain's newline and the tokens of the lines behind it, up to the last newline. */
  function GapBefore(gap: seq<SourceLine>): seq<Token>
  {
    if gap == [] then [] else [NEWLINE] + gap[0].toks + GapBefore(gap[1..])
  }

  /** What follows the chain and the gap starts at most one level deeper, at a multiple of four, with a token of a line. */
  predicate Follows(stack: seq<int>, rest: seq<SourceLine>)
    requires |stack| > 0
  {
    rest == [] || (rest[0].toks != [] && Inline(rest[0].toks[0]) && rest[0].indent % 4 == 0 && rest[0].indent <= Last(stack) + 4)
  }

  // ----- Merging the pieces -----

  lemma {:induction false} KeptJoin(a: seq<Token>, b: seq<Token>, absorbed: nat)
    ensures Dedents(a + b) == Dedents(a) + Dedents(b)
    ensures Kept(a + b, absorbed) == Kept(a, absorbed) + Kept(b, Less(absorbed, Dedents(a)))
  {
    if a == [] {
      assert a + b == b;
    } else {
      assert (a + b)[1..] == a[1..] + b;
      KeptJoin(a[1..], b, if a[0].kind.Dedent? && absorbed > 0 then absorbed - 1 else absorbed);
    }
  }

  /** One more absorbed dedent makes no difference when all are absorbed. */
  lemma {:induction false} KeptAtMost(s: seq<Token>, absorbed: nat)
    requires absorbed >= Dedents(s)
    ensures Kept(s, absorbed + 1) == Kept(s, absorbed)
  {
    if s != [] {
      KeptAtMost(s[1..], if s[0].kind.Dedent? then absorbed - 1 else absorbed);
    }
  }

  /** One more absorbed dedent is one dedent fewer when one is left. */
  lemma {:induction false} KeptFewer(s: seq<Token>, absorbed: nat) returns (a: seq<Token>, d: Token, b: seq<Token>)
    requires absorbed < Dedents(s)
    ensures d.kind.Dedent? && Kept(s, absorbed) == a + [d] + b && Kept(s, absorbed + 1) == a + b
  {
    if s[0].kind.Dedent? && absorbed == 0 {
      a, d, b := [], s[0], s[1..];
      KeptZero(s[1..]);
    } else if s[0].kind.Dedent? {
      a, d, b := KeptFewer(s[1..], absorbed - 1);
    } else {
      a, d, b := KeptFewer(s[1..], absorbed);
      assert [s[0]] + (a + [d] + b) == [s[0]] + a + [d] + b && [s[0]] + (a + b) == [s[0]] + a + b;
      a := [s[0]] + a;
    }
  }

  lemma {:induction false} KeptZero(s: seq<Token>)
    ensures Kept(s, 0) == s
  {
    if s != [] {
      KeptZero(s[1..]);
      assert s == [s[0]] + s[1..];
    }
  }

  predicate HasPipe(s: seq<Token>)
  {
    exists i :: 0 <= i < |s| && IsPipe(s[i])
  }

  lemma {:induction false} MergeInline(s: seq<Token>, rest: seq<Token>, absorbed: nat, inPipeChain: bool)
    requires Closed(s)
    ensures Merge(s + rest, absorbed, inPipeChain) == Emits(Kept(s, absorbed), Merge(rest, Less(absorbed, Dedents(s)), inPipeChain || HasPipe(s)))
    decreases |s|
  {
    hide Merge, OfLine;
    if s == [] {
      assert s + rest == rest;
      EmitsNothing(Merge(rest, absorbed, inPipeChain));
    } else {
      var ts, more := s + rest, s[1..] + rest;
      assert ts[1..] == more && ts[0] == s[0] && s == [s[0]] + s[1..];
      var p, left := inPipeChain || IsPipe(s[0]), if s[0].kind.Dedent? && absorbed > 0 then absorbed - 1 else absorbed;
      MergeInline(s[1..], rest, left, p);
      assert HasPipe(s) <==> IsPipe(s[0]) || HasPipe(s[1..]) by {
        assert HasPipe(s[1..]) ==> exists i :: 1 <= i < |s| && IsPipe(s[i]);
      }
      MergeInlineStep(ts, absorbed, inPipeChain);
      EmitsTwice([s[0]], Kept(s[1..], left), Merge(rest, Less(left, Dedents(s[1..])), p || HasPipe(s[1..])));
    }
  }

  lemma MergeInlineStep(ts: seq<Token>, absorbed: nat, inPipeChain: bool)
    requires ts != [] && OfLine(ts[0]) && (IsPipe(ts[0]) ==> |ts| > 1 && OfLine(ts[1]))
    ensures Merge(ts, absorbed, inPipeChain) ==
      if ts[0].kind.Dedent? && absorbed > 0 then Merge(ts[1..], absorbed - 1, inPipeChain)
      else Emits([ts[0]], Merge(ts[1..], absorbed, inPipeChain || IsPipe(ts[0])))
  {
    assert ts[..1] == [ts[0]];
  }

  /** A stage behind its pipe. */
  lemma MergePiped(s: seq<Token>, rest: seq<Token>, absorbed: nat, inPipeChain: bool)
    requires Stage(s)
    ensures Merge([PIPE] + s + rest, absorbed, inPipeChain) == Emits(Kept([PIPE] + s, absorbed), Merge(rest, Less(absorbed, Dedents([PIPE] + s)), true))
  {
    var all := [PIPE] + s;
    assert Last(all) == Last(s) && IsPipe(all[0]);
    MergeInline(all, rest, absorbed, inPipeChain);
  }

  /** Behind the first stage line, every stage line costs only its newline. */
  lemma {:induction false} MergeStageLines(stack: seq<int>, others: seq<seq<Token>>, rest: seq<SourceLine>, absorbed: nat, eof: string)
    requires Levels(stack) && (forall i :: 0 <= i < |others| ==> Stage(others[i]))
    ensures Last(stack) >= 0
    ensures Merge([NEWLINE] + Emit(stack, StageLines(others, Last(stack)) + rest, eof), absorbed, true)
      == Emits(Kept(PipedStages(others), absorbed), Merge([NEWLINE] + Emit(stack, rest, eof), Less(absorbed, Dedents(PipedStages(others))), true))
    decreases |others|
  {
    hide Merge, Stage, Kept, Dedents, Levels, Emit, IsOnerr, OfLine;
    TopNotNegative(stack);
    if others == [] {
      assert [] + rest == rest;
      KeptNothing(absorbed);
      EmitsNothing(Merge([NEWLINE] + Emit(stack, rest, eof), absorbed, true));
    } else {
      var lines := StageLines(others[1..], Last(stack)) + rest;
      var behind := [NEWLINE] + Emit(stack, lines, eof);
      var second, left := [PIPE] + others[0], Less(absorbed, Dedents([PIPE] + others[0]));
      MergeStageLines(stack, others[1..], rest, left, eof);
      assert StageLines(others, Last(stack)) + rest == [SourceLine(Last(stack), second)] + lines;
      EmitSameLevel(stack, second, lines, eof);
      MergePiped(others[0], behind, absorbed, true);
      NewlineDropped(second + behind, absorbed, true);
      KeptJoin(second, PipedStages(others[1..]), absorbed);
      EmitsTwice(Kept(second, absorbed), Kept(PipedStages(others[1..]), left),
                 Merge([NEWLINE] + Emit(stack, rest, eof), Less(left, Dedents(PipedStages(others[1..]))), true));
    }
  }

  lemma KeptNothing(absorbed: nat)
    ensures Kept([], absorbed) == [] && Less(absorbed, Dedents([])) == absorbed
  {
  }

  lemma TopNotNegative(stack: seq<int>)
    requires Levels(stack)
    ensures |stack| > 0 && Last(stack) >= 0 && Last(stack) % 4 == 0
  {
    if |stack| > 1 {
      assert stack[0] < stack[|stack| - 1];
    }
  }

  /** A line at the current level emits no layout in front. */
  lemma EmitSameLevel(stack: seq<int>, toks: seq<Token>, rest: seq<SourceLine>, eof: string)
    requires Levels(stack) && toks != [] && !IsRemark(toks[0])
    ensures Last(stack) >= 0
    ensures Emit(stack, [SourceLine(Last(stack), toks)] + rest, eof) == toks + ([NEWLINE] + Emit(stack, rest, eof))
  {
    TopNotNegative(stack);
    var lines := [SourceLine(Last(stack), toks)] + rest;
    assert lines[1..] == rest && StackAfter(stack, Last(stack), false) == stack;
    assert StepTokens(|stack|, |stack|, Spaces(Last(stack))) == [];
    assert [] + (toks + ([NEWLINE] + Emit(stack, rest, eof))) == toks + ([NEWLINE] + Emit(stack, rest, eof));
  }

  /** A line one level deeper emits one indent. */
  lemma EmitDeeper(stack: seq<int>, toks: seq<Token>, rest: seq<SourceLine>, eof: string)
    requires Levels(stack) && toks != [] && !IsRemark(toks[0])
    ensures Last(stack) >= 0
    ensures Emit(stack, [SourceLine(Last(stack) + 4, toks)] + rest, eof)
      == [Token(Indent, Spaces(Last(stack) + 4))] + (toks + ([NEWLINE] + Emit(stack + [Last(stack) + 4], rest, eof)))
  {
    TopNotNegative(stack);
    var lines := [SourceLine(Last(stack) + 4, toks)] + rest;
    assert lines[1..] == rest && StackAfter(stack, Last(stack) + 4, false) == stack + [Last(stack) + 4];
  }

  lemma NewlineIndentBeforePipe(ts: seq<Token>, lexeme: string, absorbed: nat, inPipeChain: bool)
    requires ts != [] && IsPipe(ts[0])
    ensures Merge([NEWLINE] + ([Token(Indent, lexeme)] + ts), absorbed, inPipeChain) == Merge(ts, absorbed + 1, inPipeChain)
  {
    var more := [Token(Indent, lexeme)] + ts;
    var all := [NEWLINE] + more;
    assert all[1..] == more && more[1..] == ts && Run(ts, Indent) == 0 && Run(more, Indent) == 1;
    assert all[2..] == ts;
  }

  // ----- Behind the chain -----

  lemma {:induction false} EmitGap(stack: seq<int>, gap: seq<SourceLine>, rest: seq<SourceLine>, eof: string)
    requires |stack| > 0 && Gap(gap)
    ensures Emit(stack, gap + rest, eof) == GapTokens(gap) + Emit(stack, rest, eof)
    decreases |gap|
  {
    hide IsOnerr, IsRemark, Idle, StackAfter;
    if gap == [] {
      assert gap + rest == rest;
    } else {
      EmitGap(stack, gap[1..], rest, eof);
      var lines := gap + rest;
      assert lines[0] == gap[0] && lines[1..] == gap[1..] + rest;
    }
  }

  /** Of the newlines up to the next line only the last can be dropped; an onerr is joined only to a chain directly above it. */
  lemma {:induction false} MergeGap(gap: seq<SourceLine>, rest: seq<Token>, absorbed: nat, inPipeChain: bool)
    requires Gap(gap)
    ensures Merge([NEWLINE] + (GapTokens(gap) + rest), absorbed, inPipeChain)
      == Emits(GapBefore(gap), Merge([NEWLINE] + rest, absorbed, inPipeChain && gap == []))
    decreases |gap|
  {
    hide Merge;
    if gap == [] {
      assert GapTokens(gap) + rest == rest;
      EmitsNothing(Merge([NEWLINE] + rest, absorbed, inPipeChain));
    } else {
      var more := [NEWLINE] + (GapTokens(gap[1..]) + rest);
      assert GapTokens(gap) + rest == gap[0].toks + more;
      MergeGap(gap[1..], rest, absorbed, false);
      MergeIdle(gap[0], more, absorbed, inPipeChain);
      EmitsTwice([NEWLINE] + gap[0].toks, GapBefore(gap[1..]), Merge([NEWLINE] + rest, absorbed, false));
    }
  }

  lemma MergeIdle(line: SourceLine, more: seq<Token>, absorbed: nat, inPipeChain: bool)
    requires |line.toks| <= 1 && Idle(line) && more != [] && more[0] == NEWLINE
    ensures Merge([NEWLINE] + (line.toks + more), absorbed, inPipeChain) == Emits([NEWLINE] + line.toks, Merge(more, absorbed, false))
  {
    hide Merge;
    NewlineKept(line.toks + more, absorbed, inPipeChain);
    if line.toks == [] {
      assert line.toks + more == more && [NEWLINE] + line.toks == [NEWLINE];
    } else {
      var ts := line.toks + more;
      assert ts[1..] == more && ts[..1] == line.toks;
      MergeRound(ts, absorbed, false);
      EmitsTwice([NEWLINE], line.toks, Merge(more, absorbed, false));
    }
  }

  lemma NewlineKept(ts: seq<Token>, absorbed: nat, inPipeChain: bool)
    requires ts == [] || (!ts[0].kind.Indent? && !IsPipe(ts[0]) && !(inPipeChain && IsOnerr(ts[0])))
    ensures Merge([NEWLINE] + ts, absorbed, inPipeChain) == Emits([NEWLINE], Merge(ts, absorbed, false))
  {
    var all := [NEWLINE] + ts;
    assert all[1..] == ts && all[..1] == [NEWLINE];
  }

  /** Before a pipe, or an onerr of the chain, the newline is dropped. */
  lemma NewlineDropped(ts: seq<Token>, absorbed: nat, inPipeChain: bool)
    requires ts != [] && (IsPipe(ts[0]) || (IsOnerr(ts[0]) && inPipeChain))
    ensures Merge([NEWLINE] + ts, absorbed, inPipeChain) == Merge(ts, absorbed, inPipeChain)
  {
    hide Merge;
    var all := [NEWLINE] + ts;
    assert all[1..] == ts && Run(ts, Indent) == 0;
    MergeRound(all, absorbed, inPipeChain);
  }

  lemma FirstEmitted(ts: seq<Token>, absorbed: nat, inPipeChain: bool)
    requires ts != [] && Inline(ts[0])
    ensures var out := Merge(ts, absorbed, inPipeChain).out; |out| > 0 && out[0] == ts[0]
  {
  }

  /** One more open level is one more dedent in front of what follows. */
  lemma EmitFromDeeper(stack: seq<int>, level: int, rest: seq<SourceLine>, eof: string)
    requires Levels(stack) && level > Last(stack) && Follows(stack, rest) && (rest == [] || rest[0].indent <= Last(stack))
    ensures exists lexeme :: Emit(stack + [level], rest, eof) == [Token(Dedent, lexeme)] + Emit(stack, rest, eof)
  {
    if rest == [] {
      DedentFirst(|stack|, 1, eof);
      assert Emit(stack + [level], rest, eof) == [Token(Dedent, eof)] + Emit(stack, rest, eof);
    } else {
      LineFromDeeper(stack, level, rest, eof);
    }
  }

  lemma LineFromDeeper(stack: seq<int>, level: int, rest: seq<SourceLine>, eof: string)
    requires |stack| > 0 && level > Last(stack) && Follows(stack, rest) && rest != [] && rest[0].indent <= Last(stack)
    ensures Emit(stack + [level], rest, eof) == [Token(Dedent, Spaces(rest[0].indent))] + Emit(stack, rest, eof)
  {
    hide Spaces, IsRemark, StepTokens, Popped;
    var lexeme := Spaces(rest[0].indent);
    var after := StackAfter(stack, rest[0].indent, false);
    SameStack(stack, level, rest[0].indent);
    DedentFirst(|stack|, |after|, lexeme);
    Prepend(Token(Dedent, lexeme), StepTokens(|stack|, |after|, lexeme), rest[0].toks + ([NEWLINE] + Emit(after, rest[1..], eof)));
  }

  lemma SameStack(stack: seq<int>, level: int, spaces: int)
    requires |stack| > 0 && level > Last(stack) && spaces <= Last(stack) && spaces % 4 == 0
    ensures StackAfter(stack + [level], spaces, false) == StackAfter(stack, spaces, false)
    ensures |StackAfter(stack, spaces, false)| <= |stack|
  {
    assert Front(stack + [level]) == stack;
  }

  lemma DedentFirst(height: nat, after: nat, lexeme: string)
    requires after <= height
    ensures StepTokens(height + 1, after, lexeme) == [Token(Dedent, lexeme)] + StepTokens(height, after, lexeme)
  {
  }

  lemma Prepend(t: Token, a: seq<Token>, b: seq<Token>)
    ensures [t] + a + b == [t] + (a + b)
  {
  }

  /** A line one level deeper emits the same from both stacks, but for its indent. */
  lemma DeeperFromBoth(stack: seq<int>, rest: seq<SourceLine>, eof: string)
    requires Levels(stack) && rest != [] && Follows(stack, rest) && rest[0].indent > Last(stack)
    ensures exists lexeme :: Emit(stack, rest, eof) == [Token(Indent, lexeme)] + Emit(stack + [Last(stack) + 4], rest, eof)
    ensures var ts := Emit(stack + [Last(stack) + 4], rest, eof); ts != [] && ts[0] == rest[0].toks[0]
  {
    TopNotNegative(stack);
    var level := Last(stack) + 4;
    PushLevel(stack, level);
    assert rest[0].indent == level;
    EmitDeeper(stack, rest[0].toks, rest[1..], eof);
    EmitSameLevel(stack + [level], rest[0].toks, rest[1..], eof);
    assert rest == [SourceLine(level, rest[0].toks)] + rest[1..];
  }

  /** The next line's first token joins it to a chain above it. */
  predicate Joins(gap: seq<SourceLine>, t: Token)
  {
    IsPipe(t) || (gap == [] && IsOnerr(t))
  }

  /** The next line does not go on with the chain when it is no deeper, and goes on with it when it is deeper. */
  predicate GoesOnDeeper(level: int, gap: seq<SourceLine>, rest: seq<SourceLine>)
    requires rest != [] ==> rest[0].toks != []
  {
    rest != [] && rest[0].indent >= level ==> (Joins(gap, rest[0].toks[0]) <==> rest[0].indent > level)
  }

  /** First token behind the chain, from the chain's own stack, when the next line is not deeper. */
  lemma NextToken(stack: seq<int>, gap: seq<SourceLine>, rest: seq<SourceLine>, eof: string)
    requires Levels(stack) && Follows(stack, rest) && (rest == [] || rest[0].indent <= Last(stack))
    ensures var ts := Emit(stack, rest, eof);
      && ts != [] && (rest != [] && rest[0].indent == Last(stack) ==> ts[0] == rest[0].toks[0])
      && (rest == [] || rest[0].indent < Last(stack) ==> ts[0].kind.Dedent? || ts[0].kind.EndOfFile?)
  {
    if rest != [] {
      var after := StackAfter(stack, rest[0].indent, false);
      if rest[0].indent == Last(stack) {
        EmitSameLevel(stack, rest[0].toks, rest[1..], eof);
        assert rest == [SourceLine(Last(stack), rest[0].toks)] + rest[1..];
      } else {
        assert |after| < |stack| by {
          TopNotNegative(stack);
        }
      }
    }
  }

  // ----- The two layouts -----

  /** The chain's further stages behind their pipes are tokens of a line. */
  lemma {:induction false} PipedClosed(others: seq<seq<Token>>)
    requires others != [] && (forall i :: 0 <= i < |others| ==> Stage(others[i]))
    ensures Stage(PipedStages(others)) && PipedStages(others)[0] == PIPE
    decreases |others|
  {
    var tail := PipedStages(others[1..]);
    assert PipedStages(others) == [PIPE] + others[0] + tail;
    if |others| > 1 {
      PipedClosed(others[1..]);
    }
  }

  lemma ClosedJoin(a: seq<Token>, b: seq<Token>)
    requires Closed(a) && Stage(b)
    ensures Stage(a + b) && (HasPipe(b) ==> HasPipe(a + b))
  {
    if HasPipe(b) {
      var i :| 0 <= i < |b| && IsPipe(b[i]);
      assert IsPipe((a + b)[|a| + i]);
    }
  }

  lemma MergeOneLine(stack: seq<int>, first: seq<Token>, others: seq<seq<Token>>, lines: seq<SourceLine>, absorbed: nat, inPipeChain: bool, eof: string)
    requires Levels(stack) && Stage(first) && !IsRemark(first[0]) && others != [] && (forall i :: 0 <= i < |others| ==> Stage(others[i]))
    ensures Last(stack) >= 0
    ensures var tail, left := PipedStages(others), Less(absorbed, Dedents(first));
      Merge(Emit(stack, OneLine(first, others, Last(stack), lines), eof), absorbed, inPipeChain)
      == Emits(Kept(first, absorbed) + Kept(tail, left), Merge([NEWLINE] + Emit(stack, lines, eof), Less(left, Dedents(tail)), true))
  {
    hide Merge, Emit, Kept, Dedents, Levels;
    TopNotNegative(stack);
    var tail := PipedStages(others);
    EmitSameLevel(stack, first + tail, lines, eof);
    PipedClosed(others);
    assert IsPipe(tail[0]);
    ClosedJoin(first, tail);
    MergeInline(first + tail, [NEWLINE] + Emit(stack, lines, eof), absorbed, inPipeChain);
    KeptJoin(first, tail, absorbed);
  }

  lemma MergeMultiLine(stack: seq<int>, first: seq<Token>, others: seq<seq<Token>>, lines: seq<SourceLine>, absorbed: nat, inPipeChain: bool, eof: string)
    requires Levels(stack) && Stage(first) && !IsRemark(first[0]) && others != [] && (forall i :: 0 <= i < |others| ==> Stage(others[i]))
    ensures Last(stack) >= 0
    ensures var tail, left := PipedStages(others), Less(absorbed, Dedents(first)) + 1;
      Merge(Emit(stack, MultiLine(first, others, Last(stack), lines), eof), absorbed, inPipeChain)
      == Emits(Kept(first, absorbed) + Kept(tail, left), Merge([NEWLINE] + Emit(stack + [Last(stack) + 4], lines, eof), Less(left, Dedents(tail)), true))
  {
    hide Merge, Emit, Kept, Dedents, Levels, OfLine;
    TopNotNegative(stack);
    var level := Last(stack) + 4;
    PushLevel(stack, level);
    var more := StageLines(others[1..], level) + lines;
    var second := [PIPE] + others[0];
    assert MultiLine(first, others, Last(stack), lines) == [SourceLine(Last(stack), first)] + ([SourceLine(level, second)] + more);
    EmitSameLevel(stack, first, [SourceLine(level, second)] + more, eof);
    EmitDeeper(stack, second, more, eof);
    var behind := [Token(Indent, Spaces(level))] + (second + ([NEWLINE] + Emit(stack + [level], more, eof)));
    MergeInline(first, [NEWLINE] + behind, absorbed, inPipeChain);
    var left, p := Less(absorbed, Dedents(first)), inPipeChain || HasPipe(first);
    MergeSecond(stack, others, lines, left, p, eof);
    EmitsTwice(Kept(first, absorbed), Kept(PipedStages(others), left + 1),
               Merge([NEWLINE] + Emit(stack + [level], lines, eof), Less(left + 1, Dedents(PipedStages(others))), true));
  }

  /** The stage lines, from the newline of the first stage: their indent is absorbed. */
  lemma MergeSecond(stack: seq<int>, others: seq<seq<Token>>, lines: seq<SourceLine>, absorbed: nat, inPipeChain: bool, eof: string)
    requires Levels(stack) && others != [] && (forall i :: 0 <= i < |others| ==> Stage(others[i]))
    ensures |stack| > 0 && Last(stack) >= 0
    ensures var level, tail := Last(stack) + 4, PipedStages(others);
      var more := StageLines(others[1..], level) + lines;
      Merge([NEWLINE] + ([Token(Indent, Spaces(level))] + ([PIPE] + others[0] + ([NEWLINE] + Emit(stack + [level], more, eof)))), absorbed, inPipeChain)
      == Emits(Kept(tail, absorbed + 1), Merge([NEWLINE] + Emit(stack + [level], lines, eof), Less(absorbed + 1, Dedents(tail)), true))
  {
    hide Merge, Emit, Kept, Dedents, Levels, Stage;
    TopNotNegative(stack);
    var level := Last(stack) + 4;
    PushLevel(stack, level);
    var second := [PIPE] + others[0];
    var behind := [NEWLINE] + Emit(stack + [level], StageLines(others[1..], level) + lines, eof);
    NewlineIndentBeforePipe(second + behind, Spaces(level), absorbed, inPipeChain);
    MergePiped(others[0], behind, absorbed + 1, inPipeChain);
    var left := Less(absorbed + 1, Dedents(second));
    MergeStageLines(stack + [level], others[1..], lines, left, eof);
    KeptJoin(second, PipedStages(others[1..]), absorbed + 1);
    EmitsTwice(Kept(second, absorbed + 1), Kept(PipedStages(others[1..]), left),
               Merge([NEWLINE] + Emit(stack + [level], lines, eof), Less(left, Dedents(PipedStages(others[1..]))), true));
  }

  /** The dedents of the later stages are all absorbed by indents from before the chain; without block braces there are none. */
  predicate BracesAlike(first: seq<Token>, others: seq<seq<Token>>, absorbed: nat)
  {
    Dedents(PipedStages(others)) <= Less(absorbed, Dedents(first))
  }

  /**
   The multi-line layout of a chain gives the same tokens as the one-line layout,
   for any stages, any blank and comment lines behind the chain and any following
   line, if and only if the next line goes on with the chain (with a pipe or,
   directly below, with onerr) exactly when it is deeper than the chain, and no
   dedent of a block brace in a later stage is taken for the one of the stage lines.
   */
  lemma LayoutIrrelevant(stack: seq<int>, first: seq<Token>, others: seq<seq<Token>>, gap: seq<SourceLine>, rest: seq<SourceLine>, absorbed: nat, inPipeChain: bool, eof: string)
    requires Levels(stack) && Stage(first) && !IsRemark(first[0]) && others != [] && (forall i :: 0 <= i < |others| ==> Stage(others[i]))
    requires Gap(gap) && Follows(stack, rest)
    ensures Last(stack) >= 0
    ensures Merge(Emit(stack, MultiLine(first, others, Last(stack), gap + rest), eof), absorbed, inPipeChain).out
         == Merge(Emit(stack, OneLine(first, others, Last(stack), gap + rest), eof), absorbed, inPipeChain).out
      <==> GoesOnDeeper(Last(stack), gap, rest) && BracesAlike(first, others, absorbed)
  {
    hide Merge, Emit, Gap, Stage, Levels, Kept, Dedents, GoesOnDeeper, Follows, IsRemark;
    TopNotNegative(stack);
    var level := Last(stack) + 4;
    var tail, left := PipedStages(others), Less(absorbed, Dedents(first));
    MergeOneLine(stack, first, others, gap + rest, absorbed, inPipeChain, eof);
    MergeMultiLine(stack, first, others, gap + rest, absorbed, inPipeChain, eof);
    var owed := Less(left, Dedents(tail));
    var b := Merge([NEWLINE] + Emit(stack, gap + rest, eof), owed, true);
    if Dedents(tail) <= left {
      var a := Merge([NEWLINE] + Emit(stack + [level], gap + rest, eof), owed + 1, true);
      KeptAtMost(tail, left);
      BehindGap(stack, gap, rest, owed, eof);
      SamePrefix(Kept(first, absorbed) + Kept(tail, left), a, b);
    } else {
      var a := Merge([NEWLINE] + Emit(stack + [level], gap + rest, eof), 0, true);
      NoDedentFirst(stack, gap, rest, 0, eof);
      OneDedentFewer(Kept(first, absorbed), tail, left, a, b);
    }
  }

  /** The chains differ when one of them has lost a dedent. */
  lemma OneDedentFewer(first: seq<Token>, tail: seq<Token>, absorbed: nat, m: Merged, n: Merged)
    requires absorbed < Dedents(tail) && m.out != [] && !m.out[0].kind.Dedent?
    ensures Emits(first + Kept(tail, absorbed + 1), m).out != Emits(first + Kept(tail, absorbed), n).out
  {
    hide Kept, Dedents, Run;
    var a, d, b := KeptFewer(tail, absorbed);
    var multi, one := b + m.out, [d] + b + n.out;
    RunStops(b, m.out, Dedent);
    RunAtLeast([d], b, n.out);
    assert multi != one;
    assert (first + (a + b) + m.out)[|first| + |a|..] == multi;
    assert (first + (a + [d] + b) + n.out)[|first| + |a|..] == one;
  }

  lemma RunAtLeast(d: seq<Token>, b: seq<Token>, rest: seq<Token>)
    requires |d| == 1 && d[0].kind.Dedent?
    ensures Run(d + b + rest, Dedent) > Run(b, Dedent)
  {
    var ts := d + b + rest;
    assert ts[1..] == b + rest;
    RunFront(b, rest);
  }

  lemma {:induction false} RunFront(b: seq<Token>, rest: seq<Token>)
    ensures Run(b + rest, Dedent) >= Run(b, Dedent)
  {
    if b != [] {
      assert (b + rest)[1..] == b[1..] + rest;
      RunFront(b[1..], rest);
    }
  }

  /** Behind the stage lines the pass never emits a dedent first. */
  lemma NoDedentFirst(stack: seq<int>, gap: seq<SourceLine>, rest: seq<SourceLine>, absorbed: nat, eof: string)
    requires Levels(stack) && Gap(gap) && Follows(stack, rest)
    ensures |stack| > 0
    ensures var out := Merge([NEWLINE] + Emit(stack + [Last(stack) + 4], gap + rest, eof), absorbed, true).out; out != [] && !out[0].kind.Dedent?
  {
    hide Merge, Emit, Gap, Levels;
    TopNotNegative(stack);
    var level := Last(stack) + 4;
    EmitGap(stack + [level], gap, rest, eof);
    var ts := Emit(stack + [level], rest, eof);
    MergeGap(gap, ts, absorbed, true);
    if gap == [] {
      if rest != [] && rest[0].indent > Last(stack) {
        DeeperFromBoth(stack, rest, eof);
        NewlineFirst(ts, absorbed, true);
      } else {
        EmitFromDeeper(stack, level, rest, eof);
        NewlineFirst(ts, absorbed, true);
      }
    } else {
      assert GapBefore(gap)[0] == NEWLINE;
    }
  }

  lemma NewlineFirst(ts: seq<Token>, absorbed: nat, inPipeChain: bool)
    requires ts != [] && (Inline(ts[0]) || ts[0].kind.Dedent?)
    ensures var out := Merge([NEWLINE] + ts, absorbed, inPipeChain).out; out != [] && !out[0].kind.Dedent?
  {
    hide Merge;
    if IsPipe(ts[0]) || (IsOnerr(ts[0]) && inPipeChain) {
      NewlineDropped(ts, absorbed, inPipeChain);
      FirstEmitted(ts, absorbed, inPipeChain);
    } else {
      NewlineKept(ts, absorbed, inPipeChain);
    }
  }

  /** The chain's newline, the gap and what follows. */
  lemma BehindGap(stack: seq<int>, gap: seq<SourceLine>, rest: seq<SourceLine>, absorbed: nat, eof: string)
    requires Levels(stack) && Gap(gap) && Follows(stack, rest)
    ensures |stack| > 0
    ensures Merge([NEWLINE] + Emit(stack + [Last(stack) + 4], gap + rest, eof), absorbed + 1, true).out
         == Merge([NEWLINE] + Emit(stack, gap + rest, eof), absorbed, true).out
      <==> GoesOnDeeper(Last(stack), gap, rest)
  {
    hide Merge, Emit, Gap, Levels, GoesOnDeeper, Follows;
    TopNotNegative(stack);
    var level := Last(stack) + 4;
    EmitGap(stack, gap, rest, eof);
    EmitGap(stack + [level], gap, rest, eof);
    var one, multi := Emit(stack, rest, eof), Emit(stack + [level], rest, eof);
    MergeGap(gap, one, absorbed, true);
    MergeGap(gap, multi, absorbed + 1, true);
    BehindChain(stack, gap, rest, absorbed, eof);
    SamePrefix(GapBefore(gap), Merge([NEWLINE] + multi, absorbed + 1, gap == []), Merge([NEWLINE] + one, absorbed, gap == []));
  }

  /** The last newline before the next line, and what follows. */
  lemma BehindChain(stack: seq<int>, gap: seq<SourceLine>, rest: seq<SourceLine>, absorbed: nat, eof: string)
    requires Levels(stack) && Follows(stack, rest)
    ensures Merge([NEWLINE] + Emit(stack + [Last(stack) + 4], rest, eof), absorbed + 1, gap == []).out
         == Merge([NEWLINE] + Emit(stack, rest, eof), absorbed, gap == []).out
      <==> GoesOnDeeper(Last(stack), gap, rest)
  {
    hide Merge, Emit, Levels;
    TopNotNegative(stack);
    var one, multi := Emit(stack, rest, eof), Emit(stack + [Last(stack) + 4], rest, eof);
    if rest != [] && rest[0].indent > Last(stack) {
      DeeperFromBoth(stack, rest, eof);
      var lexeme :| one == [Token(Indent, lexeme)] + multi;
      if Joins(gap, multi[0]) {
        JoinedDeeper(multi, lexeme, absorbed, gap == []);
      } else {
        NotJoinedDeeper(multi, lexeme, absorbed, gap == []);
      }
    } else {
      EmitFromDeeper(stack, Last(stack) + 4, rest, eof);
      var lexeme :| multi == [Token(Dedent, lexeme)] + one;
      NextToken(stack, gap, rest, eof);
      NotDeeper(one, lexeme, absorbed, gap == []);
    }
  }

  /** The next line goes on with the chain from one level deeper: its indent is absorbed. */
  lemma JoinedDeeper(ts: seq<Token>, lexeme: string, absorbed: nat, inPipeChain: bool)
    requires ts != [] && (IsPipe(ts[0]) || (IsOnerr(ts[0]) && inPipeChain))
    ensures Merge([NEWLINE] + ts, absorbed + 1, inPipeChain) == Merge([NEWLINE] + ([Token(Indent, lexeme)] + ts), absorbed, inPipeChain)
  {
    hide Merge;
    NewlineDropped(ts, absorbed + 1, inPipeChain);
    var more := [Token(Indent, lexeme)] + ts;
    var all := [NEWLINE] + more;
    assert all[1..] == more && more[1..] == ts && Run(ts, Indent) == 0 && Run(more, Indent) == 1;
    assert all[2..] == ts;
    MergeRound(all, absorbed, inPipeChain);
  }

  /** The next line is deeper and starts something else: one layout indents it and the other does not. */
  lemma NotJoinedDeeper(ts: seq<Token>, lexeme: string, absorbed: nat, inPipeChain: bool)
    requires ts != [] && Inline(ts[0]) && !IsPipe(ts[0]) && !(IsOnerr(ts[0]) && inPipeChain)
    ensures Merge([NEWLINE] + ts, absorbed + 1, inPipeChain).out != Merge([NEWLINE] + ([Token(Indent, lexeme)] + ts), absorbed, inPipeChain).out
  {
    hide Merge;
    NewlineKept(ts, absorbed + 1, inPipeChain);
    FirstEmitted(ts, absorbed + 1, false);
    var more := [Token(Indent, lexeme)] + ts;
    var all := [NEWLINE] + more;
    assert all[1..] == more && more[1..] == ts && Run(ts, Indent) == 0 && Run(more, Indent) == 1 && all[..1] == [NEWLINE];
    MergeRound(all, absorbed, inPipeChain);
    MergeRound(more, absorbed, false);
    assert more[..1] == [Token(Indent, lexeme)];
    assert Merge(all, absorbed, inPipeChain).out[1] == Token(Indent, lexeme);
    assert Merge([NEWLINE] + ts, absorbed + 1, inPipeChain).out[1] == ts[0];
  }

  /** The next line is not deeper: the dedent of the stage lines is absorbed, and only a line that joins makes a difference. */
  lemma NotDeeper(ts: seq<Token>, lexeme: string, absorbed: nat, inPipeChain: bool)
    requires ts != [] && (Inline(ts[0]) || ts[0].kind.Dedent? || ts[0].kind.EndOfFile?)
    ensures Merge([NEWLINE] + ([Token(Dedent, lexeme)] + ts), absorbed + 1, inPipeChain).out == Merge([NEWLINE] + ts, absorbed, inPipeChain).out
      <==> !(IsPipe(ts[0]) || (IsOnerr(ts[0]) && inPipeChain))
  {
    hide Merge;
    var closing := [Token(Dedent, lexeme)] + ts;
    assert closing[1..] == ts;
    NewlineKept(closing, absorbed + 1, inPipeChain);
    MergeRound(closing, absorbed + 1, false);
    if IsPipe(ts[0]) || (IsOnerr(ts[0]) && inPipeChain) {
      NewlineDropped(ts, absorbed, inPipeChain);
      FirstEmitted(ts, absorbed, inPipeChain);
      assert Merge([NEWLINE] + closing, absorbed + 1, inPipeChain).out[0] == NEWLINE;
    } else {
      NewlineKept(ts, absorbed, inPipeChain);
    }
  }

  // ----- In the middle of a program -----

  /** A token at which the pass has nothing pending: a statement's first. */
  predicate Plain(t: Token)
  {
    Inline(t) && !IsPipe(t) && !IsOnerr(t)
  }

  /** One round of the pass: tokens consumed, tokens emitted, and its state afterwards. */
  datatype Round = Round(skip: nat, keep: seq<Token>, absorbed: nat, inPipeChain: bool)

  /** A round inside `pre`, behind which a plain token follows. */
  function RoundAt(pre: seq<Token>, absorbed: nat, inPipeChain: bool): (r: Round)
    requires pre != []
    ensures 0 < r.skip <= |pre|
  {
    if pre[0].kind.Dedent? && absorbed > 0 then Round(1, [], absorbed - 1, inPipeChain)
    else if IsPipe(pre[0]) then
      var c := 1 + Run(pre[1..], Comment);
      var rest := pre[c..];
      if rest == [] || !rest[0].kind.Newline? then Round(c, pre[..c], absorbed, true)
      else
        var j := 1 + Run(rest[1..], Indent);
        if j < |rest| && (rest[j].kind == Dedent || rest[j].kind == EndOfFile) then Round(c, pre[..c], absorbed, true)
        else Round(c + j, pre[..c], absorbed + j - 1, true)
    else if pre[0].kind.Newline? then
      var j := 1 + Run(pre[1..], Indent);
      if j < |pre| && (IsPipe(pre[j]) || (IsOnerr(pre[j]) && inPipeChain)) then Round(j, [], absorbed + j - 1, inPipeChain)
      else Round(1, pre[..1], absorbed, false)
    else Round(1, pre[..1], absorbed, inPipeChain)
  }

  lemma {:induction false} RunStops(a: seq<Token>, x: seq<Token>, kind: Kind)
    requires x != [] && x[0].kind != kind
    ensures Run(a + x, kind) == Run(a, kind)
  {
    if a == [] {
      assert a + x == x;
    } else {
      assert (a + x)[1..] == a[1..] + x;
      RunStops(a[1..], x, kind);
    }
  }

  lemma RoundOf(pre: seq<Token>, x: seq<Token>, absorbed: nat, inPipeChain: bool)
    requires pre != [] && x != [] && Plain(x[0])
    ensures var r := RoundAt(pre, absorbed, inPipeChain);
      Merge(pre + x, absorbed, inPipeChain) == Emits(r.keep, Merge(pre[r.skip..] + x, r.absorbed, r.inPipeChain))
  {
    hide Merge, Run, IsPipe, IsOnerr, Emits, Continues;
    var ts, r := pre + x, RoundAt(pre, absorbed, inPipeChain);
    assert ts[1..] == pre[1..] + x && ts[..1] == pre[..1] && ts[0] == pre[0];
    MergeRound(ts, absorbed, inPipeChain);
    if IsPipe(ts[0]) && !(ts[0].kind.Dedent? && absorbed > 0) {
      PipeRoundOf(pre, x, absorbed, inPipeChain);
    } else if ts[0].kind.Newline? {
      NewlineRoundOf(pre, x, absorbed, inPipeChain);
    } else {
      EmitsNothing(Merge(ts[1..], r.absorbed, inPipeChain));
    }
  }

  lemma MergeNewlineCut(ts: seq<Token>, behind: seq<Token>, after: seq<Token>, absorbed: nat, inPipeChain: bool)
    requires ts != [] && ts[0].kind.Newline? && after == ts[1..] && behind == ts[1 + Run(after, Indent)..]
    ensures Merge(ts, absorbed, inPipeChain) ==
      if behind != [] && (IsPipe(behind[0]) || (IsOnerr(behind[0]) && inPipeChain)) then Merge(behind, absorbed + Run(after, Indent), inPipeChain)
      else Emits(ts[..1], Merge(after, absorbed, false))
  {
    hide Merge, Run, Emits;
    MergeRound(ts, absorbed, inPipeChain);
  }

  lemma NewlineRoundOf(pre: seq<Token>, x: seq<Token>, absorbed: nat, inPipeChain: bool)
    requires pre != [] && x != [] && Plain(x[0]) && pre[0].kind.Newline?
    ensures var r := RoundAt(pre, absorbed, inPipeChain);
      Merge(pre + x, absorbed, inPipeChain) == Emits(r.keep, Merge(pre[r.skip..] + x, r.absorbed, r.inPipeChain))
  {
    hide Merge, Run, Emits;
    var n := Run(pre[1..], Indent);
    NotComment(x[0]);
    RunStops(pre[1..], x, Indent);
    PipeSlices(pre, x, 1);
    PipeSlices(pre, x, 1 + n);
    MergeNewlineCut(pre + x, pre[1 + n..] + x, pre[1..] + x, absorbed, inPipeChain);
    EmitsNothing(Merge(pre[1 + n..] + x, absorbed + n, inPipeChain));
  }

  lemma RoundPipe(pre: seq<Token>, absorbed: nat, inPipeChain: bool)
    requires pre != [] && IsPipe(pre[0])
    ensures var c := 1 + Run(pre[1..], Comment);
      var rest := pre[c..];
      RoundAt(pre, absorbed, inPipeChain) ==
        if rest == [] || !rest[0].kind.Newline? then Round(c, pre[..c], absorbed, true)
        else
          var j := 1 + Run(rest[1..], Indent);
          if j < |rest| && (rest[j].kind == Dedent || rest[j].kind == EndOfFile) then Round(c, pre[..c], absorbed, true)
          else Round(c + j, pre[..c], absorbed + j - 1, true)
  {
  }

  /** What the pass makes of a pipe with its comments, and of the rest behind them. */
  ghost predicate PipePassed(m: Merged, keep: seq<Token>, rest: seq<Token>, absorbed: nat)
  {
    m == if Trails(rest) then Emits(keep, Merge(rest[1 + Run(rest[1..], Indent)..], absorbed + Run(rest[1..], Indent), true))
      else Emits(keep, Merge(rest, absorbed, true))
  }

  /** The pass at the pipe of `pre + x`, cut at the end of its comments. */
  lemma MergePipeBefore(pre: seq<Token>, x: seq<Token>, absorbed: nat, inPipeChain: bool)
    requires pre != [] && x != [] && Plain(x[0]) && IsPipe(pre[0])
    ensures var c := 1 + Run(pre[1..], Comment);
      PipePassed(Merge(pre + x, absorbed, inPipeChain), pre[..c], pre[c..] + x, absorbed)
  {
    hide Merge, Run, PipePassed, Plain, IsPipe, IsOnerr;
    var ts := pre + x;
    assert ts[1..] == pre[1..] + x;
    NotComment(x[0]);
    RunStops(pre[1..], x, Comment);
    var c := 1 + Run(pre[1..], Comment);
    PipeSlices(pre, x, c);
    MergePipeCut(ts, pre[..c], pre[c..] + x, absorbed, inPipeChain);
  }

  lemma MergePipeCut(ts: seq<Token>, keep: seq<Token>, rest: seq<Token>, absorbed: nat, inPipeChain: bool)
    requires ts != [] && IsPipe(ts[0]) && |keep| == 1 + Run(ts[1..], Comment) && ts[..|keep|] == keep && ts[|keep|..] == rest
    ensures PipePassed(Merge(ts, absorbed, inPipeChain), keep, rest, absorbed)
  {
    hide Merge, Run, Emits, Trails, IsPipe;
    MergePipe(ts, absorbed, inPipeChain);
  }

  lemma PipeRoundOf(pre: seq<Token>, x: seq<Token>, absorbed: nat, inPipeChain: bool)
    requires pre != [] && x != [] && Plain(x[0]) && IsPipe(pre[0])
    ensures var r := RoundAt(pre, absorbed, inPipeChain);
      Merge(pre + x, absorbed, inPipeChain) == Emits(r.keep, Merge(pre[r.skip..] + x, r.absorbed, r.inPipeChain))
  {
    hide Merge, Run, Emits, Trails, IsPipe, IsOnerr, RoundAt, Plain;
    MergePipeBefore(pre, x, absorbed, inPipeChain);
    RoundPipe(pre, absorbed, inPipeChain);
    var c := 1 + Run(pre[1..], Comment);
    TrailsOf(pre[c..], x);
    TailSlices(pre, c);
  }

  lemma TailSlices(pre: seq<Token>, c: nat)
    requires c <= |pre|
    ensures forall j :: 0 <= j <= |pre[c..]| ==> pre[c..][j..] == pre[c + j..]
  {
  }

  lemma NotComment(t: Token)
    requires Plain(t)
    ensures t.kind != Comment && t.kind != Indent
  {
  }

  lemma PipeSlices(pre: seq<Token>, x: seq<Token>, c: nat)
    requires c <= |pre|
    ensures (pre + x)[c..] == pre[c..] + x && (pre + x)[..c] == pre[..c]
  {
  }

  lemma TrailsOf(rest: seq<Token>, x: seq<Token>)
    requires x != [] && Plain(x[0])
    ensures rest == [] || !rest[0].kind.Newline? ==> !Trails(rest + x)
    ensures rest != [] && rest[0].kind.Newline? ==>
      var j := 1 + Run(rest[1..], Indent);
      && (Trails(rest + x) <==> !(j < |rest| && (rest[j].kind == Dedent || rest[j].kind == EndOfFile)))
      && j == 1 + Run((rest + x)[1..], Indent) && (rest + x)[j..] == rest[j..] + x
  {
    hide Run;
    if rest != [] {
      assert (rest + x)[1..] == rest[1..] + x;
      RunStops(rest[1..], x, Indent);
    }
  }

  /** What the pass makes of the tokens before a plain token: what it emits, the dedents it owes then, and whether a chain is open. */
  datatype Passed = Passed(out: seq<Token>, absorbed: nat, inPipeChain: bool)

  function Through(pre: seq<Token>, absorbed: nat, inPipeChain: bool): Passed
    decreases |pre|
  {
    if pre == [] then Passed([], absorbed, inPipeChain)
    else
      var r := RoundAt(pre, absorbed, inPipeChain);
      var p := Through(pre[r.skip..], r.absorbed, r.inPipeChain);
      p.(out := r.keep + p.out)
  }

  /** How the pass goes through what precedes a plain token does not depend on what follows. */
  lemma {:induction false} MergeThrough(pre: seq<Token>, x: seq<Token>, absorbed: nat, inPipeChain: bool)
    requires x != [] && Plain(x[0])
    ensures var p := Through(pre, absorbed, inPipeChain);
      Merge(pre + x, absorbed, inPipeChain) == Emits(p.out, Merge(x, p.absorbed, p.inPipeChain))
    decreases |pre|
  {
    hide Merge, Emits, RoundAt, Plain;
    if pre == [] {
      assert pre + x == x;
      EmitsNothing(Merge(x, absorbed, inPipeChain));
    } else {
      var r := RoundAt(pre, absorbed, inPipeChain);
      RoundOf(pre, x, absorbed, inPipeChain);
      MergeThrough(pre[r.skip..], x, r.absorbed, r.inPipeChain);
      var p := Through(pre[r.skip..], r.absorbed, r.inPipeChain);
      EmitsTwice(r.keep, p.out, Merge(x, p.absorbed, p.inPipeChain));
    }
  }

  /** In any program, whatever precedes the chain and whatever follows it, the two layouts end in the same token stream if and only if the next line goes on with the chain exactly when it is deeper, and the block braces of the later stages keep their dedents. */
  lemma LayoutIrrelevantInProgram(pre: seq<Token>, stack: seq<int>, first: seq<Token>, others: seq<seq<Token>>, gap: seq<SourceLine>, rest: seq<SourceLine>, eof: string)
    requires Levels(stack) && Stage(first) && Plain(first[0]) && others != [] && (forall i :: 0 <= i < |others| ==> Stage(others[i]))
    requires Gap(gap) && Follows(stack, rest)
    ensures Last(stack) >= 0
    ensures Merge(pre + Emit(stack, MultiLine(first, others, Last(stack), gap + rest), eof), 0, false).out
         == Merge(pre + Emit(stack, OneLine(first, others, Last(stack), gap + rest), eof), 0, false).out
      <==> GoesOnDeeper(Last(stack), gap, rest) && BracesAlike(first, others, Through(pre, 0, false).absorbed)
  {
    hide Merge, Levels, Stage, Gap, Follows, GoesOnDeeper, BracesAlike, Through, Emit;
    TopNotNegative(stack);
    var lines := gap + rest;
    var multi, one := Emit(stack, MultiLine(first, others, Last(stack), lines), eof), Emit(stack, OneLine(first, others, Last(stack), lines), eof);
    StartWith(stack, first, others, lines, eof);
    var p := Through(pre, 0, false);
    MergeThrough(pre, multi, 0, false);
    MergeThrough(pre, one, 0, false);
    LayoutIrrelevant(stack, first, others, gap, rest, p.absorbed, p.inPipeChain, eof);
    SamePrefix(p.out, Merge(multi, p.absorbed, p.inPipeChain), Merge(one, p.absorbed, p.inPipeChain));
  }

  lemma StartWith(stack: seq<int>, first: seq<Token>, others: seq<seq<Token>>, lines: seq<SourceLine>, eof: string)
    requires Levels(stack) && Stage(first) && Plain(first[0])
    ensures Last(stack) >= 0
    ensures var multi, one := Emit(stack, MultiLine(first, others, Last(stack), lines), eof), Emit(stack, OneLine(first, others, Last(stack), lines), eof);
      multi != [] && one != [] && multi[0] == one[0] == first[0]
  {
    hide Emit;
    TopNotNegative(stack);
    EmitSameLevel(stack, first + PipedStages(others), lines, eof);
    var more := StageLines(others, Last(stack) + 4) + lines;
    assert MultiLine(first, others, Last(stack), lines) == [SourceLine(Last(stack), first)] + more;
    EmitSameLevel(stack, first, more, eof);
  }

  lemma SamePrefix(out: seq<Token>, a: Merged, b: Merged)
    ensures Emits(out, a).out == Emits(out, b).out <==> a.out == b.out
  {
    assert (out + a.out)[|out|..] == a.out && (out + b.out)[|out|..] == b.out;
  }
}
