/**
 The recursive-descent expression parser (internal/parser/parser_expr.go and the
 cursor helpers of internal/parser/parser.go): as functions on the tokens that
 remain, and as a class with a cursor that is proved against them.
 */
module Parser {
  import opened Prelude
  import opened Syntax

  datatype Parse = Parse(e: Expr, rest: seq<Tok>, errors: nat)
  datatype ParsedArgs = ParsedArgs(args: seq<Expr>, rest: seq<Tok>, errors: nat)

  /** Comments, semicolons and directives do not count. */
  function Skip(ts: seq<Tok>): (r: seq<Tok>)
    ensures |r| <= |ts|
    ensures r != [] ==> !r[0].Ignorable?
  {
    if ts != [] && ts[0].Ignorable? then Skip(ts[1..]) else ts
  }

  predicate Starts(ts: seq<Tok>, t: Tok)
  {
    ts != [] && ts[0] == t
  }

  /** The infix operator of a level at the head, and the tokens behind it; level 1 is the pipe. */
  function OpAt(level: int, ts: seq<Tok>): (r: Option<(string, seq<Tok>)>)
    ensures r.Some? ==> |r.value.1| < |ts|
  {
    if ts == [] then None
    else if level == 1 then (if ts[0] == PipeTok then Some(("|>", ts[1..])) else None)
    else if ts[0].Word? && WordLevel(ts[0].lexeme) == level >= 0 then Some((ts[0].lexeme, ts[1..]))
    else if level == 5 && ts[0] == Word("not") then
      var next := Skip(ts[1..]);
      if Starts(next, Word("equals")) then Some(("not equals", next[1..]))
      else if Starts(next, Word("in")) then Some(("not in", next[1..]))
      else None
    else None
  }

  /** The operator at the head and the tokens left once it is stepped over, or none and the skipped tokens. */
  function Taken(level: int, ts: seq<Tok>): (Option<string>, seq<Tok>)
  {
    var s := Skip(ts);
    var found := OpAt(level, s);
    if found.Some? then (Some(found.value.0), found.value.1) else (None, s)
  }

  function Build(level: int, op: string, left: Expr, right: Expr): Expr
  {
    if level == 1 then Pipe(left, right) else Binary(op, left, right)
  }

  /** Levels 0 (or) to 7 (multiplicative) are left-associative loops; 8 is unary, 9 postfix. */
  function ParseLevel(level: nat, ts: seq<Tok>): (r: Parse)
    requires level <= 9
    ensures |r.rest| <= |ts|
    decreases |ts|, 10 - level
  {
    if level <= 7 then
      var l := ParseLevel(level + 1, ts);
      ParseLoop(level, l.e, l.rest, l.errors)
    else if level == 8 then
      var s := Skip(ts);
      if s != [] && s[0].Word? && PrefixWord(s[0].lexeme) then
        var r := ParseLevel(8, s[1..]);
        Parse(Unary(PrefixOp(s[0].lexeme), r.e), r.rest, r.errors)
      else ParseLevel(9, s)
    else
      var p := ParsePrimary(ts);
      PostfixLoop(p.e, p.rest, p.errors)
  }

  function ParseLoop(level: nat, left: Expr, ts: seq<Tok>, errors: nat): (r: Parse)
    requires level <= 7
    ensures |r.rest| <= |ts|
    decreases |ts|, 0
  {
    var s := Skip(ts);
    var op := OpAt(level, s);
    if op.None? then Parse(left, s, errors)
    else
      var r := ParseLevel(level + 1, op.value.1);
      ParseLoop(level, Build(level, op.value.0, left, r.e), r.rest, errors + r.errors)
  }

  /** A closing parenthesis, or an error and no progress. */
  function CloseParen(ts: seq<Tok>): (r: (seq<Tok>, nat))
    ensures |r.0| <= |ts|
  {
    var s := Skip(ts);
    if Starts(s, RParen) then (s[1..], 0) else (s, 1)
  }

  function PostfixLoop(e: Expr, ts: seq<Tok>, errors: nat): (r: Parse)
    ensures |r.rest| <= |ts|
    decreases |ts|, 0
  {
    var s := Skip(ts);
    if !Starts(s, LParen) then Parse(e, s, errors)
    else
      var a := ParseArgs(s[1..]);
      var (rest, missing) := CloseParen(a.rest);
      PostfixLoop(Call(e, a.args), rest, errors + a.errors + missing)
  }

  /** Call arguments up to the closing parenthesis; a trailing comma is allowed. */
  function ParseArgs(ts: seq<Tok>): (r: ParsedArgs)
    ensures |r.rest| <= |ts|
    decreases |ts|, 15
  {
    var s := Skip(ts);
    if Starts(s, RParen) then ParsedArgs([], s, 0) else ParseArgLoop(s)
  }

  function ParseArgLoop(ts: seq<Tok>): (r: ParsedArgs)
    ensures |r.rest| <= |ts|
    decreases |ts|, 14
  {
    var a := ParseLevel(0, ts);
    var s := Skip(a.rest);
    if !Starts(s, Comma) then ParsedArgs([a.e], s, a.errors)
    else
      var s' := Skip(s[1..]);
      if Starts(s', RParen) then ParsedArgs([a.e], s', a.errors)
      else
        var more := ParseArgLoop(s');
        ParsedArgs([a.e] + more.args, more.rest, a.errors + more.errors)
  }

  /** A leaf, a grouped expression, or an error that consumes one token unless at the end. */
  function ParsePrimary(ts: seq<Tok>): (r: Parse)
    ensures |r.rest| <= |ts|
    decreases |ts|, 0
  {
    var s := Skip(ts);
    if s != [] && s[0].Prim? then Parse(Leaf(s[0].text), s[1..], 0)
    else if Starts(s, LParen) then
      var r := ParseLevel(0, s[1..]);
      var (rest, missing) := CloseParen(r.rest);
      Parse(r.e, rest, r.errors + missing)
    else if s == [] || s[0].Eof? then Parse(Leaf("_"), s, 1)
    else Parse(Leaf("_"), s[1..], 1)
  }

  function ParseExpression(ts: seq<Tok>): Parse
  {
    ParseLevel(0, ts)
  }

  /** The parser's own form: a cursor into the tokens that every method moves. */
  class Cursor {
    const tokens: seq<Tok>
    var pos: nat
    var errors: nat

    constructor (ts: seq<Tok>)
      ensures tokens == ts && pos == 0 && errors == 0
    {
      tokens := ts;
      pos := 0;
      errors := 0;
    }

    ghost predicate Valid()
      reads this
    {
      pos <= |tokens|
    }

    ghost function Rest(): seq<Tok>
      requires Valid()
      reads this
    {
      tokens[pos..]
    }

    method SkipIgnoredTokens()
      requires Valid()
      modifies this`pos
      ensures Valid() && Rest() == Skip(old(Rest())) && old(pos) <= pos
    {
      while pos < |tokens| && tokens[pos].Ignorable?
        invariant Valid() && old(pos) <= pos
        invariant Skip(Rest()) == Skip(old(Rest()))
      {
        assert Rest()[1..] == tokens[pos + 1..];
        pos := pos + 1;
      }
    }

    method PeekToken() returns (t: Tok)
      requires Valid()
      modifies this`pos
      ensures Valid() && Rest() == Skip(old(Rest())) && old(pos) <= pos
      ensures t == if Rest() == [] then Eof else Rest()[0]
    {
      SkipIgnoredTokens();
      t := if pos >= |tokens| then Eof else tokens[pos];
    }

    /** The token after the current one, without moving to it. */
    method PeekNextToken() returns (t: Tok)
      requires Valid()
      modifies this`pos
      ensures Valid() && Rest() == Skip(old(Rest())) && old(pos) <= pos
      ensures var next := if Rest() == [] then [] else Skip(Rest()[1..]); t == if next == [] then Eof else next[0]
    {
      SkipIgnoredTokens();
      if pos == |tokens| {
        return Eof;
      }
      var i := pos + 1;
      assert Rest()[1..] == tokens[i..];
      while i < |tokens| && tokens[i].Ignorable?
        invariant pos < i <= |tokens|
        invariant Skip(tokens[i..]) == Skip(Rest()[1..])
      {
        assert tokens[i..][1..] == tokens[i + 1..];
        i := i + 1;
      }
      t := if i >= |tokens| then Eof else tokens[i];
    }

    /** Steps over the current token unless at the end. */
    method Advance()
      requires Valid()
      modifies this`pos
      ensures Valid() && old(pos) <= pos
      ensures var s := Skip(old(Rest())); Rest() == if s == [] || s[0].Eof? then s else s[1..]
    {
      var t := PeekToken();
      if t != Eof {
        pos := pos + 1;
      }
    }

    method Check(t: Tok) returns (b: bool)
      requires Valid() && t != Eof
      modifies this`pos
      ensures Valid() && Rest() == Skip(old(Rest())) && old(pos) <= pos
      ensures b <==> Starts(Rest(), t)
    {
      var cur := PeekToken();
      b := cur == t;
    }

    method Match(t: Tok) returns (b: bool)
      requires Valid() && t != Eof
      modifies this`pos
      ensures Valid() && old(pos) <= pos
      ensures var s := Skip(old(Rest())); b <==> Starts(s, t)
      ensures var s := Skip(old(Rest())); Rest() == if b then s[1..] else s
      ensures b ==> old(pos) < pos
    {
      b := Check(t);
      if b {
        pos := pos + 1;
      }
    }

    /** Matches one of the operator words of a level. */
    method MatchWord(level: int) returns (op: Option<string>)
      requires Valid() && level >= 0 && level != 1
      modifies this`pos
      ensures Valid() && old(pos) <= pos && (op.Some? ==> old(pos) < pos)
      ensures level != 5 ==> (op, Rest()) == Taken(level, old(Rest()))
      ensures level == 5 ==> var s := Skip(old(Rest()));
        if s != [] && s[0].Word? && WordLevel(s[0].lexeme) == level
        then op == Some(s[0].lexeme) && Rest() == s[1..]
        else op == None && Rest() == s
    {
      var t := PeekToken();
      op := None;
      if t.Word? && WordLevel(t.lexeme) == level {
        op := Some(t.lexeme);
        pos := pos + 1;
      }
    }

    method ConsumeRParen()
      requires Valid()
      modifies this
      ensures Valid() && old(pos) <= pos
      ensures var (rest, missing) := CloseParen(old(Rest())); Rest() == rest && errors == old(errors) + missing
    {
      var ok := Match(RParen);
      if !ok {
        errors := errors + 1;
      }
    }

    /** Matches `|>`. */
    method MatchPipe() returns (op: Option<string>)
      requires Valid()
      modifies this`pos
      ensures Valid() && old(pos) <= pos && (op.Some? ==> old(pos) < pos)
      ensures (op, Rest()) == Taken(1, old(Rest()))
    {
      var more := Match(PipeTok);
      op := if more then Some("|>") else None;
    }

    method ParseOrExpr() returns (left: Expr)
      requires Valid()
      modifies this
      ensures Valid() && old(pos) <= pos
      ensures Parse(left, Rest(), errors) == Shift(ParseLevel(0, old(Rest())), old(errors))
      decreases |tokens| - pos, 10
    {
      hide ParseLevel, ParseLoop, Taken;
      ghost var whole := Shift(ParseLevel(0, Rest()), errors);
      LevelStart(0, Rest(), errors);
      left := ParsePipeExpr();
      LoopStep(0, left, Rest(), errors);
      var op := MatchWord(0);
      while op.Some?
        invariant Valid() && old(pos) <= pos && (op.Some? ==> old(pos) < pos)
        invariant whole == Pending(0, op, left, Rest(), errors)
        decreases |tokens| - pos, op.Some?
      {
        var right := ParsePipeExpr();
        left := Binary(op.value, left, right);
        LoopStep(0, left, Rest(), errors);
        op := MatchWord(0);
      }
    }

    method ParsePipeExpr() returns (left: Expr)
      requires Valid()
      modifies this
      ensures Valid() && old(pos) <= pos
      ensures Parse(left, Rest(), errors) == Shift(ParseLevel(1, old(Rest())), old(errors))
      decreases |tokens| - pos, 9
    {
      hide ParseLevel, ParseLoop, Taken;
      ghost var whole := Shift(ParseLevel(1, Rest()), errors);
      LevelStart(1, Rest(), errors);
      left := ParseAndExpr();
      LoopStep(1, left, Rest(), errors);
      var op := MatchPipe();
      while op.Some?
        invariant Valid() && old(pos) <= pos && (op.Some? ==> old(pos) < pos)
        invariant whole == Pending(1, op, left, Rest(), errors)
        decreases |tokens| - pos, op.Some?
      {
        var right := ParseAndExpr();
        left := Pipe(left, right);
        LoopStep(1, left, Rest(), errors);
        op := MatchPipe();
      }
    }

    method ParseAndExpr() returns (left: Expr)
      requires Valid()
      modifies this
      ensures Valid() && old(pos) <= pos
      ensures Parse(left, Rest(), errors) == Shift(ParseLevel(2, old(Rest())), old(errors))
      decreases |tokens| - pos, 8
    {
      hide ParseLevel, ParseLoop, Taken;
      ghost var whole := Shift(ParseLevel(2, Rest()), errors);
      LevelStart(2, Rest(), errors);
      left := ParseBitwiseOrExpr();
      LoopStep(2, left, Rest(), errors);
      var op := MatchWord(2);
      while op.Some?
        invariant Valid() && old(pos) <= pos && (op.Some? ==> old(pos) < pos)
        invariant whole == Pending(2, op, left, Rest(), errors)
        decreases |tokens| - pos, op.Some?
      {
        var right := ParseBitwiseOrExpr();
        left := Binary(op.value, left, right);
        LoopStep(2, left, Rest(), errors);
        op := MatchWord(2);
      }
    }

    method ParseBitwiseOrExpr() returns (left: Expr)
      requires Valid()
      modifies this
      ensures Valid() && old(pos) <= pos
      ensures Parse(left, Rest(), errors) == Shift(ParseLevel(3, old(Rest())), old(errors))
      decreases |tokens| - pos, 7
    {
      hide ParseLevel, ParseLoop, Taken;
      ghost var whole := Shift(ParseLevel(3, Rest()), errors);
      LevelStart(3, Rest(), errors);
      left := ParseBitwiseAndExpr();
      LoopStep(3, left, Rest(), errors);
      var op := MatchWord(3);
      while op.Some?
        invariant Valid() && old(pos) <= pos && (op.Some? ==> old(pos) < pos)
        invariant whole == Pending(3, op, left, Rest(), errors)
        decreases |tokens| - pos, op.Some?
      {
        var right := ParseBitwiseAndExpr();
        left := Binary(op.value, left, right);
        LoopStep(3, left, Rest(), errors);
        op := MatchWord(3);
      }
    }

    method ParseBitwiseAndExpr() returns (left: Expr)
      requires Valid()
      modifies this
      ensures Valid() && old(pos) <= pos
      ensures Parse(left, Rest(), errors) == Shift(ParseLevel(4, old(Rest())), old(errors))
      decreases |tokens| - pos, 6
    {
      hide ParseLevel, ParseLoop, Taken;
      ghost var whole := Shift(ParseLevel(4, Rest()), errors);
      LevelStart(4, Rest(), errors);
      left := ParseComparisonExpr();
      LoopStep(4, left, Rest(), errors);
      var op := MatchWord(4);
      while op.Some?
        invariant Valid() && old(pos) <= pos && (op.Some? ==> old(pos) < pos)
        invariant whole == Pending(4, op, left, Rest(), errors)
        decreases |tokens| - pos, op.Some?
      {
        var right := ParseComparisonExpr();
        left := Binary(op.value, left, right);
        LoopStep(4, left, Rest(), errors);
        op := MatchWord(4);
      }
    }

    /** A comparison operator: one word, or `not` followed by `equals` or `in`. */
    method MatchComparison() returns (op: Option<string>)
      requires Valid()
      modifies this`pos
      ensures Valid() && old(pos) <= pos && (op.Some? ==> old(pos) < pos)
      ensures (op, Rest()) == Taken(5, old(Rest()))
    {
      op := MatchWord(5);
      if op.None? {
        var isNot := Check(Word("not"));
        if isNot {
          var next := PeekNextToken();
          if next == Word("equals") || next == Word("in") {
            Advance();
            Advance();
            op := Some(if next == Word("equals") then "not equals" else "not in");
          }
        }
      }
    }

    method ParseComparisonExpr() returns (left: Expr)
      requires Valid()
      modifies this
      ensures Valid() && old(pos) <= pos
      ensures Parse(left, Rest(), errors) == Shift(ParseLevel(5, old(Rest())), old(errors))
      decreases |tokens| - pos, 5
    {
      hide ParseLevel, ParseLoop, Taken;
      ghost var whole := Shift(ParseLevel(5, Rest()), errors);
      LevelStart(5, Rest(), errors);
      left := ParseAdditiveExpr();
      LoopStep(5, left, Rest(), errors);
      var op := MatchComparison();
      while op.Some?
        invariant Valid() && old(pos) <= pos && (op.Some? ==> old(pos) < pos)
        invariant whole == Pending(5, op, left, Rest(), errors)
        decreases |tokens| - pos, op.Some?
      {
        var right := ParseAdditiveExpr();
        left := Binary(op.value, left, right);
        LoopStep(5, left, Rest(), errors);
        op := MatchComparison();
      }
    }

    method ParseAdditiveExpr() returns (left: Expr)
      requires Valid()
      modifies this
      ensures Valid() && old(pos) <= pos
      ensures Parse(left, Rest(), errors) == Shift(ParseLevel(6, old(Rest())), old(errors))
      decreases |tokens| - pos, 4
    {
      hide ParseLevel, ParseLoop, Taken;
      ghost var whole := Shift(ParseLevel(6, Rest()), errors);
      LevelStart(6, Rest(), errors);
      left := ParseMultiplicativeExpr();
      LoopStep(6, left, Rest(), errors);
      var op := MatchWord(6);
      while op.Some?
        invariant Valid() && old(pos) <= pos && (op.Some? ==> old(pos) < pos)
        invariant whole == Pending(6, op, left, Rest(), errors)
        decreases |tokens| - pos, op.Some?
      {
        var right := ParseMultiplicativeExpr();
        left := Binary(op.value, left, right);
        LoopStep(6, left, Rest(), errors);
        op := MatchWord(6);
      }
    }

    method ParseMultiplicativeExpr() returns (left: Expr)
      requires Valid()
      modifies this
      ensures Valid() && old(pos) <= pos
      ensures Parse(left, Rest(), errors) == Shift(ParseLevel(7, old(Rest())), old(errors))
      decreases |tokens| - pos, 3
    {
      hide ParseLevel, ParseLoop, Taken;
      ghost var whole := Shift(ParseLevel(7, Rest()), errors);
      LevelStart(7, Rest(), errors);
      left := ParseUnaryExpr();
      LoopStep(7, left, Rest(), errors);
      var op := MatchWord(7);
      while op.Some?
        invariant Valid() && old(pos) <= pos && (op.Some? ==> old(pos) < pos)
        invariant whole == Pending(7, op, left, Rest(), errors)
        decreases |tokens| - pos, op.Some?
      {
        var right := ParseUnaryExpr();
        left := Binary(op.value, left, right);
        LoopStep(7, left, Rest(), errors);
        op := MatchWord(7);
      }
    }

    method ParseUnaryExpr() returns (e: Expr)
      requires Valid()
      modifies this
      ensures Valid() && old(pos) <= pos
      ensures Parse(e, Rest(), errors) == Shift(ParseLevel(8, old(Rest())), old(errors))
      decreases |tokens| - pos, 2
    {
      var t := PeekToken();
      if t.Word? && PrefixWord(t.lexeme) {
        Advance();
        var right := ParseUnaryExpr();
        e := Unary(PrefixOp(t.lexeme), right);
      } else {
        e := ParsePostfixExpr();
      }
    }

    method ParsePostfixExpr() returns (e: Expr)
      requires Valid()
      modifies this
      ensures Valid() && old(pos) <= pos
      ensures Parse(e, Rest(), errors) == Shift(ParseLevel(9, old(Rest())), old(errors))
      decreases |tokens| - pos, 1
    {
      hide ParseLevel, ParseLoop, Taken, Starts;
      hide ParseLevel, ParsePrimary, PostfixLoop, ParseArgs, CloseParen, Skip;
      ghost var whole := Shift(ParseLevel(9, Rest()), errors);
      PostfixStart(Rest(), errors);
      e := ParsePrimaryExpr();
      PostfixStep(e, Rest(), errors);
      var call := Match(LParen);
      while call
        invariant Valid() && old(pos) <= pos && (call ==> old(pos) < pos)
        invariant whole == PendingCall(call, e, Rest(), errors)
        decreases |tokens| - pos, call
      {
        ghost var r := ParseArgs(Rest());
        var args := ParseCallArguments();
        assert [] + r.args == r.args;
        ConsumeRParen();
        e := Call(e, args);
        PostfixStep(e, Rest(), errors);
        call := Match(LParen);
      }
    }

    method ParseCallArguments() returns (args: seq<Expr>)
      requires Valid()
      modifies this
      ensures Valid() && old(pos) <= pos
      ensures ParsedArgs(args, Rest(), errors) == ShiftArgs([], ParseArgs(old(Rest())), old(errors))
      decreases |tokens| - pos, 15
    {
      hide ParseLevel, ParseArgLoop, CloseParen, Skip, Starts;
      args := [];
      var close := Check(RParen);
      if close {
        return;
      }
      ghost var all := ShiftArgs([], ParseArgLoop(Rest()), errors);
      var more := true;
      while more
        invariant Valid() && old(pos) <= pos
        invariant all == if more then ShiftArgs(args, ParseArgLoop(Rest()), errors) else ParsedArgs(args, Rest(), errors)
        decreases |tokens| - pos, more
      {
        ArgStep(args, Rest(), errors);
        var a := ParseOrExpr();
        args := args + [a];
        more := Match(Comma);
        if more {
          var trailing := Check(RParen);
          more := !trailing;
        }
      }
    }

    method ParsePrimaryExpr() returns (e: Expr)
      requires Valid()
      modifies this
      ensures Valid() && old(pos) <= pos
      ensures Parse(e, Rest(), errors) == Shift(ParsePrimary(old(Rest())), old(errors))
      decreases |tokens| - pos, 0
    {
      var t := PeekToken();
      if t.Prim? {
        Advance();
        e := Leaf(t.text);
      } else if t == LParen {
        Advance();
        e := ParseOrExpr();
        ConsumeRParen();
      } else {
        errors := errors + 1;
        Advance();
        e := Leaf("_");
      }
    }
  }

  /** The same parse with errors counted from `base`. */
  function Shift(r: Parse, base: nat): Parse
  {
    Parse(r.e, r.rest, base + r.errors)
  }

  /** What a loop at this level still yields once it has, or has not, matched an operator. */
  function Pending(level: nat, op: Option<string>, left: Expr, ts: seq<Tok>, errors: nat): Parse
    requires level <= 7
  {
    if op.None? then Parse(left, ts, errors)
    else
      var r := ParseLevel(level + 1, ts);
      ParseLoop(level, Build(level, op.value, left, r.e), r.rest, errors + r.errors)
  }

  function PendingCall(call: bool, e: Expr, ts: seq<Tok>, errors: nat): Parse
  {
    if !call then Parse(e, ts, errors)
    else
      var a := ParseArgs(ts);
      var (rest, missing) := CloseParen(a.rest);
      PostfixLoop(Call(e, a.args), rest, errors + a.errors + missing)
  }

  /** Arguments behind those already parsed. */
  function ShiftArgs(before: seq<Expr>, r: ParsedArgs, base: nat): ParsedArgs
  {
    ParsedArgs(before + r.args, r.rest, base + r.errors)
  }

  /** One round of the argument loop. */
  lemma ArgStep(before: seq<Expr>, ts: seq<Tok>, base: nat)
    ensures var a := ParseLevel(0, ts);
      var s := Skip(a.rest);
      var whole := ShiftArgs(before, ParseArgLoop(ts), base);
      if !Starts(s, Comma) then whole == ParsedArgs(before + [a.e], s, base + a.errors)
      else
        var s' := Skip(s[1..]);
        if Starts(s', RParen) then whole == ParsedArgs(before + [a.e], s', base + a.errors)
        else whole == ShiftArgs(before + [a.e], ParseArgLoop(s'), base + a.errors)
  {
    var a := ParseLevel(0, ts);
    var s := Skip(a.rest);
    if Starts(s, Comma) && !Starts(Skip(s[1..]), RParen) {
      var more := ParseArgLoop(Skip(s[1..]));
      assert before + ([a.e] + more.args) == before + [a.e] + more.args;
    }
  }

  /** A level starts by parsing its left operand one level down. */
  lemma LevelStart(level: nat, ts: seq<Tok>, base: nat)
    requires level <= 7
    ensures var l := Shift(ParseLevel(level + 1, ts), base);
      Shift(ParseLevel(level, ts), base) == ParseLoop(level, l.e, l.rest, l.errors)
  {
    var l := ParseLevel(level + 1, ts);
    LoopShift(level, l.e, l.rest, l.errors, base);
  }

  /** A loop at a level looks for that level's operator. */
  lemma LoopStep(level: nat, left: Expr, ts: seq<Tok>, errors: nat)
    requires level <= 7
    ensures var (op, rest) := Taken(level, ts);
      ParseLoop(level, left, ts, errors) == Pending(level, op, left, rest, errors)
  {
  }

  lemma PostfixStep(e: Expr, ts: seq<Tok>, errors: nat)
    ensures var s := Skip(ts); var call := Starts(s, LParen);
      PostfixLoop(e, ts, errors) == PendingCall(call, e, if call then s[1..] else s, errors)
  {
  }

  lemma PostfixStart(ts: seq<Tok>, base: nat)
    ensures var p := Shift(ParsePrimary(ts), base);
      Shift(ParseLevel(9, ts), base) == PostfixLoop(p.e, p.rest, p.errors)
  {
    var p := ParsePrimary(ts);
    PostfixShift(p.e, p.rest, p.errors, base);
  }

  /** Errors only accumulate: a loop started with more errors ends with as many more. */
  lemma {:induction false} LoopShift(level: nat, left: Expr, ts: seq<Tok>, errors: nat, base: nat)
    requires level <= 7
    ensures ParseLoop(level, left, ts, base + errors) == Shift(ParseLoop(level, left, ts, errors), base)
    decreases |ts|
  {
    var op := OpAt(level, Skip(ts));
    if op.Some? {
      var r := ParseLevel(level + 1, op.value.1);
      LoopShift(level, Build(level, op.value.0, left, r.e), r.rest, errors + r.errors, base);
    }
  }

  lemma {:induction false} PostfixShift(e: Expr, ts: seq<Tok>, errors: nat, base: nat)
    ensures PostfixLoop(e, ts, base + errors) == Shift(PostfixLoop(e, ts, errors), base)
    decreases |ts|
  {
    var s := Skip(ts);
    if Starts(s, LParen) {
      var a := ParseArgs(s[1..]);
      var (rest, missing) := CloseParen(a.rest);
      PostfixShift(Call(e, a.args), rest, errors + a.errors + missing, base);
    }
  }
}
