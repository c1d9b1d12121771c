/** Layout tokens, their depth, and the indentation stacks (internal/lexer/lexer.go). */
module Layout {
  import opened Prelude

  /** Keywords and identifiers are `Word`s, operators and delimiters `Symbol`s; their lexemes tell them apart. */
  datatype Kind = Newline | Indent | Dedent | EndOfFile | Comment | Directive | Str | StrHead | StrMid | StrTail | StrRaw | Integer | Float | Word | Symbol
  datatype Token = Token(kind: Kind, lexeme: string)

  const NEWLINE := Token(Newline, "\n")

  predicate IsPipe(t: Token) { t == Token(Symbol, "|>") }

  predicate IsOnerr(t: Token) { t == Token(Word, "onerr") }

  predicate IsFatArrow(t: Token) { t == Token(Symbol, "=>") }

  predicate StartsBlock(t: Token)
  {
    t.kind.Word? && t.lexeme in {"if", "for", "func", "function", "switch", "else", "select", "go", "defer"}
  }

  predicate EndsBlockHead(t: Token)
  {
    t.kind.Newline? || t.kind.Indent? || t == Token(Word, "of")
  }

  function Weight(t: Token): int
  {
    if t.kind.Indent? then 1 else if t.kind.Dedent? then -1 else 0
  }

  /** Indents minus dedents. */
  function Depth(ts: seq<Token>): int
  {
    if ts == [] then 0 else Depth(Front(ts)) + Weight(Last(ts))
  }

  /** No prefix closes more than it opens. */
  predicate Nested(ts: seq<Token>)
  {
    ts == [] || (Depth(ts) >= 0 && Nested(Front(ts)))
  }

  predicate Balanced(ts: seq<Token>)
  {
    Nested(ts) && Depth(ts) == 0
  }

  lemma DepthSnoc(ts: seq<Token>, t: Token)
    ensures Depth(ts + [t]) == Depth(ts) + Weight(t)
    ensures Nested(ts + [t]) <==> Nested(ts) && Depth(ts) + Weight(t) >= 0
  {
    assert Front(ts + [t]) == ts;
  }

  lemma {:induction false} DepthJoin(a: seq<Token>, b: seq<Token>)
    ensures Depth(a + b) == Depth(a) + Depth(b)
  {
    if b == [] {
      assert a + b == a;
    } else {
      assert Front(a + b) == a + Front(b);
      DepthJoin(a, Front(b));
    }
  }

  /** Every prefix of a nested stream is nested, so its depth is never negative. */
  lemma {:induction false} NestedPrefix(ts: seq<Token>, n: nat)
    requires Nested(ts) && n <= |ts|
    ensures Nested(ts[..n]) && Depth(ts[..n]) >= 0
    decreases |ts|
  {
    if n == |ts| {
      assert ts[..n] == ts;
    } else {
      NestedPrefix(Front(ts), n);
      assert Front(ts)[..n] == ts[..n];
    }
  }

  function Trues(bs: seq<bool>): nat
  {
    if bs == [] then 0 else Trues(Front(bs)) + (if Last(bs) then 1 else 0)
  }

  ghost predicate Increasing(levels: seq<int>)
  {
    forall i, j :: 0 <= i < j < |levels| ==> levels[i] < levels[j]
  }

  /** From 0 up, in multiples of four. */
  ghost predicate Levels(indents: seq<int>)
  {
    && |indents| > 0 && indents[0] == 0 && Increasing(indents)
    && forall i :: 0 <= i < |indents| ==> indents[i] % 4 == 0
  }

  /** Open closure bodies are some of the open indent levels, in the same order, one parenthesis depth for each. */
  ghost predicate Closures(closures: seq<int>, parens: seq<nat>, indents: seq<int>)
    requires |indents| > 0
  {
    && |closures| == |parens| && Increasing(closures)
    && forall i :: 0 <= i < |closures| ==> closures[i] in indents[1..]
  }

  lemma PushLevel(indents: seq<int>, level: int)
    requires Levels(indents) && level > Last(indents) && level % 4 == 0
    ensures Levels(indents + [level])
  {
  }

  lemma PopLevel(indents: seq<int>)
    requires Levels(indents) && |indents| > 1
    ensures Levels(Front(indents)) && Last(Front(indents)) < Last(indents)
  {
  }

  lemma PushClosure(closures: seq<int>, parens: seq<nat>, indents: seq<int>, level: int, paren: nat)
    requires Levels(indents) && Closures(closures, parens, indents) && level > Last(indents)
    ensures Closures(closures, parens, indents + [level])
    ensures Closures(closures + [level], parens + [paren], indents + [level])
  {
    var more := indents + [level];
    assert more[1..] == indents[1..] + [level];
    forall i | 0 <= i < |closures|
      ensures closures[i] in more[1..] && closures[i] < level
    {
      BelowTop(closures, parens, indents, i);
    }
  }

  lemma BelowTop(closures: seq<int>, parens: seq<nat>, indents: seq<int>, i: nat)
    requires Levels(indents) && Closures(closures, parens, indents) && i < |closures|
    ensures closures[i] <= Last(indents)
  {
    assert closures[i] in indents[1..];
    var k :| 0 <= k < |indents[1..]| && indents[1..][k] == closures[i];
    assert indents[k + 1] == closures[i];
    if k + 1 < |indents| - 1 {
      assert indents[k + 1] < Last(indents);
    }
  }

  /**
   Popping one indent level closes the innermost closure exactly when that level
   opened it, and never more than one.
   */
  lemma PopClosure(closures: seq<int>, parens: seq<nat>, indents: seq<int>)
    requires Levels(indents) && |indents| > 1 && Closures(closures, parens, indents)
    ensures var closes := closures != [] && Last(Front(indents)) < Last(closures);
      && (closes <==> closures != [] && Last(closures) == Last(indents))
      && (if closes then Closures(Front(closures), Front(parens), Front(indents)) else Closures(closures, parens, Front(indents)))
  {
    var below := Front(indents);
    assert indents[1..] == below[1..] + [Last(indents)];
    if closures != [] {
      var top := Last(closures);
      assert top in indents[1..];
      BelowTop(closures, parens, indents, |closures| - 1);
      if top != Last(indents) {
        var k :| 0 <= k < |below[1..]| && below[1..][k] == top;
        assert below[k + 1] == top;
      }
      assert Last(below) < Last(indents);
    }
  }

  // ----- What one line's leading spaces do -----

  /** Levels deeper than `spaces` are popped. */
  function Popped(indents: seq<int>, spaces: int): (r: seq<int>)
    ensures |r| <= |indents| && r == indents[..|r|] && (|indents| > 0 ==> |r| > 0)
  {
    if |indents| > 1 && Last(indents) > spaces then Popped(Front(indents), spaces) else indents
  }

  /** Not a multiple of four, or more than one level deeper where only one is allowed. */
  predicate BadIndent(indents: seq<int>, spaces: int, anyDepth: bool)
    requires |indents| > 0
  {
    spaces % 4 != 0 || (spaces > Last(indents) && !anyDepth && spaces != Last(indents) + 4)
  }

  /** The stack after a line with so many spaces; a bad indent changes nothing. */
  function StackAfter(indents: seq<int>, spaces: int, anyDepth: bool): (r: seq<int>)
    requires |indents| > 0
    ensures |r| > 0
  {
    var top := Last(indents);
    if BadIndent(indents, spaces, anyDepth) then indents
    else if spaces > top then indents + [spaces]
    else Popped(indents, spaces)
  }

  /** The indent or the dedents that take a stack of one height to another. */
  function StepTokens(before: nat, after: nat, lexeme: string): seq<Token>
  {
    if after > before then [Token(Indent, lexeme)] else seq(before - after, _ => Token(Dedent, lexeme))
  }
}
