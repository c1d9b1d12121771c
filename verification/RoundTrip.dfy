/**
 Printing an expression and parsing the result: the exact set of trees that come
 back unchanged. A derivation relation sits between the two programs; the parser
 is sound and complete for it, and printed text is read against it.
 */
module RoundTrip {
  import opened Prelude
  import opened Syntax
  import opened Printer
  import opened Parser

  // ----- The grammar -----

  /** The parser level at which a tree can stand without parentheses. */
  function NodeLevel(e: Expr): int
  {
    match e
    case Leaf(_) => 9
    case Call(_, _) => 9
    case Unary(_, _) => 8
    case Binary(op, _, _) => OpLevel(op)
    case Pipe(_, _) => 1
  }

  predicate IsInfix(e: Expr)
  {
    e.Binary? || e.Pipe?
  }

  function InfixTokens(e: Expr): (ts: seq<Tok>)
    requires IsInfix(e)
    ensures |ts| > 0
  {
    if e.Pipe? then [PipeTok] else OpTokens(e.op)
  }

  ghost predicate Derives(e: Expr, level: int, ts: seq<Tok>)
    decreases |ts|, 2
  {
    || Grouped(e, ts)
    || (0 <= level <= NodeLevel(e) && DerivesBare(e, ts))
  }

  ghost predicate Grouped(e: Expr, ts: seq<Tok>)
    decreases |ts|, 1
  {
    |ts| > 2 && ts[0] == LParen && Last(ts) == RParen && Derives(e, 0, ts[1..|ts| - 1])
  }

  /** A derivation whose outermost construct is not a parenthesis. */
  ghost predicate DerivesBare(e: Expr, ts: seq<Tok>)
    decreases |ts|, 1
  {
    match e
    case Leaf(text) => ts == [Prim(text)]
    case Call(_, _) => exists i :: CallAt(e, ts, i)
    case Unary(op, operand) =>
      |ts| > 1 && ts[0].Word? && PrefixWord(ts[0].lexeme) && PrefixOp(ts[0].lexeme) == op && Derives(operand, 8, ts[1..])
    case _ => NodeLevel(e) >= 0 && exists i :: InfixAt(e, ts, i)
  }

  /** The argument list opens at i. */
  ghost predicate CallAt(e: Expr, ts: seq<Tok>, i: int)
    requires e.Call?
    decreases |ts|, 0
  {
    0 < i < |ts| - 1 && ts[i] == LParen && Last(ts) == RParen
    && Derives(e.fn, 9, ts[..i]) && DerivesArgs(e.args, ts[i + 1..|ts| - 1])
  }

  /** The operator stands at i; the right operand is one level tighter. */
  ghost predicate InfixAt(e: Expr, ts: seq<Tok>, i: int)
    requires IsInfix(e)
    decreases |ts|, 0
  {
    var n := |InfixTokens(e)|;
    0 < i && i + n < |ts| && ts[i..i + n] == InfixTokens(e)
    && Derives(e.left, NodeLevel(e), ts[..i]) && Derives(e.right, NodeLevel(e) + 1, ts[i + n..])
  }

  ghost predicate DerivesArgs(args: seq<Expr>, ts: seq<Tok>)
    decreases |ts|, 3
  {
    if |args| == 0 then ts == []
    else if |args| == 1 then Derives(args[0], 0, ts)
    else exists i :: CommaAt(args, ts, i)
  }

  /** The first argument ends at i. */
  ghost predicate CommaAt(args: seq<Expr>, ts: seq<Tok>, i: int)
    requires |args| > 1
    decreases |ts|, 0
  {
    0 <= i < |ts| && ts[i] == Comma && Derives(args[0], 0, ts[..i]) && DerivesArgs(args[1..], ts[i + 1..])
  }

  lemma CallSplit(e: Expr, ts: seq<Tok>) returns (i: int)
    requires e.Call? && DerivesBare(e, ts)
    ensures CallAt(e, ts, i)
  {
    i :| CallAt(e, ts, i);
  }

  lemma InfixSplit(e: Expr, ts: seq<Tok>) returns (i: int)
    requires IsInfix(e) && DerivesBare(e, ts)
    ensures NodeLevel(e) >= 0 && InfixAt(e, ts, i)
  {
    i :| InfixAt(e, ts, i);
  }

  lemma CommaSplit(args: seq<Expr>, ts: seq<Tok>) returns (i: int)
    requires |args| > 1 && DerivesArgs(args, ts)
    ensures CommaAt(args, ts, i)
  {
    i :| CommaAt(args, ts, i);
  }

  // ----- The trees on which printer and parser agree -----

  /** A child that is printed without parentheses must be able to stand at the level its place asks for. */
  predicate Stands(child: Expr, parens: bool, level: int)
  {
    parens || NodeLevel(child) >= level
  }

  predicate Agreed(e: Expr)
  {
    match e
    case Leaf(_) => true
    case Call(fn, args) => NodeLevel(fn) == 9 && Agreed(fn) && forall i :: 0 <= i < |args| ==> Agreed(args[i])
    case Unary(op, operand) =>
      && Agreed(operand)
      && (op == "not" || op == "!" || op == "-" || op == "&" || op == "dereference")
      && Stands(operand, (op == "not" || op == "!") && NeedsParensAfterNot(operand), 8)
      && (op == "-" ==> !(operand.Unary? && operand.op == "-"))
    case Binary(op, left, right) =>
      var prec := OperatorPrecedence(op);
      && OpLevel(op) >= 0 && Agreed(left) && Agreed(right)
      && Stands(left, NeedsParens(left, prec, false), OpLevel(op))
      && Stands(right, NeedsParens(right, prec, true), OpLevel(op) + 1)
    case Pipe(left, right) => Agreed(left) && Agreed(right) && NodeLevel(left) >= 1 && NodeLevel(right) >= 2
  }

  // ----- Completeness of the parser -----

  /** What follows is no operator of this level or a tighter one, nor a call. */
  ghost predicate Stops(level: int, ts: seq<Tok>)
  {
    !Starts(Skip(ts), LParen) && forall j :: level <= j <= 7 ==> OpAt(j, Skip(ts)).None?
  }

  lemma SkipTwice(ts: seq<Tok>)
    ensures Skip(Skip(ts)) == Skip(ts)
  {
  }

  lemma SkipLoop(level: nat, e: Expr, ts: seq<Tok>)
    requires level <= 7
    ensures ParseLoop(level, e, Skip(ts), 0) == ParseLoop(level, e, ts, 0)
  {
    SkipTwice(ts);
  }

  /** An infix operator's tokens, followed by anything, are found at its level and at no tighter one. */
  lemma OpFound(op: string, ts: seq<Tok>)
    requires OpLevel(op) >= 0
    ensures var s := OpTokens(op) + ts; Skip(s) == s && OpAt(OpLevel(op), s) == Some((op, ts)) && Stops(OpLevel(op) + 1, s)
  {
    var s := OpTokens(op) + ts;
    if |OpTokens(op)| == 2 {
      assert s[1..] == [OpTokens(op)[1]] + ts;
      assert s[1..][1..] == ts;
    } else {
      assert s[1..] == ts;
    }
  }

  lemma PipeFound(ts: seq<Tok>)
    ensures var s := [PipeTok] + ts; Skip(s) == s && OpAt(1, s) == Some(("|>", ts)) && Stops(2, s)
  {
    assert ([PipeTok] + ts)[1..] == ts;
  }

  /** What parsing at a level makes of a derived text with `rest` behind it. */
  ghost predicate Consumes(e: Expr, level: nat, ts: seq<Tok>, rest: seq<Tok>)
    requires level <= 9
  {
    var r := ParseLevel(level, ts + rest);
    if level <= 7 then r == ParseLoop(level, e, rest, 0)
    else if level == 8 then r == Parse(e, Skip(rest), 0)
    else r == PostfixLoop(e, rest, 0)
  }

  lemma {:induction false} Complete(e: Expr, level: nat, ts: seq<Tok>, rest: seq<Tok>)
    requires level <= 9 && Derives(e, level, ts)
    requires level <= 8 ==> Stops(level + 1, rest)
    ensures Consumes(e, level, ts, rest)
    decreases |ts|, 13 - level
  {
    if level == 9 {
      CompletePostfix(e, ts, rest);
    } else if level == 8 {
      CompleteUnary(e, ts, rest);
    } else if Derives(e, level + 1, ts) {
      Complete(e, level + 1, ts, rest);
      SkipLoop(level, e, rest);
    } else {
      CompleteInfix(e, level, ts, rest);
    }
  }

  lemma {:induction false} CompletePostfix(e: Expr, ts: seq<Tok>, rest: seq<Tok>)
    requires Derives(e, 9, ts)
    ensures Consumes(e, 9, ts, rest)
    decreases |ts|, 1
  {
    var all := ts + rest;
    if Grouped(e, ts) {
      var inner, close := ts[1..|ts| - 1], [RParen] + rest;
      assert all[1..] == inner + close && close[1..] == rest;
      Complete(e, 0, inner, close);
    } else if e.Leaf? {
      assert all[1..] == rest;
    } else {
      CompleteCall(e, ts, rest);
    }
  }

  lemma {:induction false} CompleteCall(e: Expr, ts: seq<Tok>, rest: seq<Tok>)
    requires e.Call? && DerivesBare(e, ts)
    ensures Consumes(e, 9, ts, rest)
    decreases |ts|, 0
  {
    var i := CallSplit(e, ts);
    var args, close := ts[i + 1..|ts| - 1], [RParen] + rest;
    var open := [LParen] + (args + close);
    assert ts + rest == ts[..i] + open;
    CompletePostfix(e.fn, ts[..i], open);
    assert open[1..] == args + close && close[1..] == rest;
    CompleteArgs(e.args, args, close);
  }

  lemma {:induction false} CompleteArgs(args: seq<Expr>, ts: seq<Tok>, rest: seq<Tok>)
    requires DerivesArgs(args, ts) && Starts(rest, RParen)
    ensures ParseArgs(ts + rest) == ParsedArgs(args, rest, 0)
    decreases |ts|, 22
  {
    if |args| == 0 {
      assert ts + rest == rest;
    } else {
      DerivedArgsHead(args, ts);
      assert (ts + rest)[0] == ts[0];
      CompleteArgLoop(args, ts, rest);
    }
  }

  lemma {:induction false} CompleteArgLoop(args: seq<Expr>, ts: seq<Tok>, rest: seq<Tok>)
    requires DerivesArgs(args, ts) && Starts(rest, RParen) && |args| > 0
    ensures ParseArgLoop(ts + rest) == ParsedArgs(args, rest, 0)
    decreases |ts|, 21
  {
    if |args| == 1 {
      Complete(args[0], 0, ts, rest);
      assert args == [args[0]];
    } else {
      var i := CommaSplit(args, ts);
      var more := ts[i + 1..];
      var behind := [Comma] + (more + rest);
      assert ts + rest == ts[..i] + behind;
      Complete(args[0], 0, ts[..i], behind);
      assert behind[1..] == more + rest;
      DerivedArgsHead(args[1..], more);
      assert (more + rest)[0] == more[0];
      CompleteArgLoop(args[1..], more, rest);
      ArgLoopStep(args, behind, more + rest, ts + rest, rest);
    }
  }

  /** One argument and a comma, then the others. */
  lemma ArgLoopStep(args: seq<Expr>, behind: seq<Tok>, next: seq<Tok>, all: seq<Tok>, rest: seq<Tok>)
    requires |args| > 1 && ParseLevel(0, all) == Parse(args[0], behind, 0)
    requires Skip(behind) == behind && Starts(behind, Comma) && behind[1..] == next
    requires Skip(next) == next && !Starts(next, RParen) && ParseArgLoop(next) == ParsedArgs(args[1..], rest, 0)
    ensures ParseArgLoop(all) == ParsedArgs(args, rest, 0)
  {
    assert args == [args[0]] + args[1..];
  }

  /** A derived text starts an operand: with a leaf, an opening parenthesis or a prefix operator. */
  predicate OperandHead(t: Tok)
  {
    t.Prim? || t == LParen || (t.Word? && PrefixWord(t.lexeme))
  }

  lemma {:induction false} DerivedHead(e: Expr, level: int, ts: seq<Tok>)
    requires Derives(e, level, ts)
    ensures |ts| > 0 && OperandHead(ts[0])
    decreases |ts|
  {
    if !Grouped(e, ts) {
      if e.Call? {
        var i := CallSplit(e, ts);
        DerivedHead(e.fn, 9, ts[..i]);
      } else if IsInfix(e) {
        var i := InfixSplit(e, ts);
        DerivedHead(e.left, NodeLevel(e), ts[..i]);
      }
    }
  }

  lemma DerivedArgsHead(args: seq<Expr>, ts: seq<Tok>)
    requires DerivesArgs(args, ts) && |args| > 0
    ensures |ts| > 0 && OperandHead(ts[0])
  {
    if |args| == 1 {
      DerivedHead(args[0], 0, ts);
    } else {
      var i := CommaSplit(args, ts);
      DerivedHead(args[0], 0, ts[..i]);
    }
  }

  lemma {:induction false} CompleteUnary(e: Expr, ts: seq<Tok>, rest: seq<Tok>)
    requires Derives(e, 8, ts) && Stops(9, rest)
    ensures Consumes(e, 8, ts, rest)
    decreases |ts|, 2
  {
    var all := ts + rest;
    DerivedHead(e, 8, ts);
    assert all[0] == ts[0] && Skip(all) == all;
    if e.Unary? && DerivesBare(e, ts) {
      assert all[1..] == ts[1..] + rest;
      CompleteUnary(e.operand, ts[1..], rest);
    } else {
      HeadOfPostfix(e, ts);
      CompletePostfix(e, ts, rest);
    }
  }

  /** A text derived at postfix level starts with a leaf or an opening parenthesis. */
  lemma {:induction false} HeadOfPostfix(e: Expr, ts: seq<Tok>)
    requires Derives(e, 9, ts)
    ensures |ts| > 0 && (ts[0].Prim? || ts[0] == LParen)
    decreases |ts|
  {
    if !Grouped(e, ts) && e.Call? {
      var i := CallSplit(e, ts);
      HeadOfPostfix(e.fn, ts[..i]);
    }
  }

  lemma InfixFound(e: Expr, ts: seq<Tok>)
    requires IsInfix(e) && NodeLevel(e) >= 0
    ensures var s := InfixTokens(e) + ts;
      Skip(s) == s && OpAt(NodeLevel(e), s) == Some((if e.Pipe? then "|>" else e.op, ts)) && Stops(NodeLevel(e) + 1, s)
  {
    if e.Pipe? {
      PipeFound(ts);
    } else {
      OpFound(e.op, ts);
    }
  }

  lemma {:induction false} CompleteInfix(e: Expr, level: nat, ts: seq<Tok>, rest: seq<Tok>)
    requires level <= 7 && Derives(e, level, ts) && !Derives(e, level + 1, ts) && Stops(level + 1, rest)
    ensures Consumes(e, level, ts, rest)
    decreases |ts|, 0
  {
    hide ParseLevel, ParseLoop, OpAt, Skip, InfixAt, InfixTokens;
    assert NodeLevel(e) == level && DerivesBare(e, ts) && IsInfix(e);
    var n := |InfixTokens(e)|;
    var i := InfixSplit(e, ts);
    var lt, rt := ts[..i], ts[i + n..];
    var fromOp := InfixTokens(e) + (rt + rest);
    assert ts == lt + ts[i..i + n] + rt;
    assert ts + rest == lt + fromOp;
    InfixFound(e, rt + rest);
    Complete(e.left, level, lt, fromOp);
    assert Stops(level + 2, rest);
    Complete(e.right, level + 1, rt, rest);
    InfixStep(e, level, lt, fromOp, rt + rest, rest);
  }

  /** The level's loop takes the operator and its right operand. */
  lemma InfixStep(e: Expr, level: nat, lt: seq<Tok>, fromOp: seq<Tok>, fromRight: seq<Tok>, rest: seq<Tok>)
    requires IsInfix(e) && NodeLevel(e) == level <= 7 && Stops(level + 1, rest)
    requires Skip(fromOp) == fromOp && OpAt(level, fromOp) == Some((if e.Pipe? then "|>" else e.op, fromRight))
    requires ParseLevel(level, lt + fromOp) == ParseLoop(level, e.left, fromOp, 0)
    requires var r := ParseLevel(level + 1, fromRight);
      if level + 1 <= 7 then r == ParseLoop(level + 1, e.right, rest, 0) else r == Parse(e.right, Skip(rest), 0)
    ensures ParseLevel(level, lt + fromOp) == ParseLoop(level, e, rest, 0)
  {
    SkipLoop(level, e, rest);
    assert level + 1 <= 7 ==> OpAt(level + 1, Skip(rest)).None?;
    assert ParseLevel(level + 1, fromRight) == Parse(e.right, Skip(rest), 0);
    assert Build(level, if e.Pipe? then "|>" else e.op, e.left, e.right) == e;
  }

  // ----- Agreed trees round-trip -----

  lemma DerivesLower(e: Expr, level: int, lower: int, ts: seq<Tok>)
    requires Derives(e, level, ts) && 0 <= lower <= level
    ensures Derives(e, lower, ts)
  {
  }

  lemma DerivesGroup(e: Expr, level: int, ts: seq<Tok>)
    requires Derives(e, 0, ts)
    ensures Derives(e, level, Group(ts))
  {
    DerivedHead(e, 0, ts);
    var g := Group(ts);
    assert g[1..|g| - 1] == ts;
  }

  lemma {:induction false} AgreedDerives(e: Expr)
    requires Agreed(e)
    ensures NodeLevel(e) >= 0 && Derives(e, NodeLevel(e), Print(e))
    decreases e, 1
  {
    match e
    case Leaf(_) =>
    case Call(fn, args) =>
      AgreedDerives(fn);
      AgreedArgs(args);
      var ts, i := Print(e), |Print(fn)|;
      DerivedHead(fn, 9, Print(fn));
      assert ts[..i] == Print(fn) && ts[i + 1..|ts| - 1] == PrintArgs(args);
      assert CallAt(e, ts, i);
    case Unary(_, operand) =>
      AgreedUnary(e);
    case Binary(op, left, right) =>
      var prec := OperatorPrecedence(op);
      AgreedOperand(left, NeedsParens(left, prec, false), OpLevel(op));
      AgreedOperand(right, NeedsParens(right, prec, true), OpLevel(op) + 1);
      InfixDerives(e, PrintOperand(left, prec, false), PrintOperand(right, prec, true));
    case Pipe(left, right) =>
      AgreedOperand(left, false, 1);
      AgreedOperand(right, false, 2);
      InfixDerives(e, Print(left), Print(right));
  }

  function MaybeGroup(child: Expr, parens: bool): seq<Tok>
  {
    if parens then Group(Print(child)) else Print(child)
  }

  lemma {:induction false} AgreedOperand(child: Expr, parens: bool, level: int)
    requires Agreed(child) && Stands(child, parens, level) && 0 <= level
    ensures Derives(child, level, MaybeGroup(child, parens))
    decreases child, 2
  {
    AgreedDerives(child);
    DerivesLower(child, NodeLevel(child), 0, Print(child));
    if parens {
      DerivesGroup(child, level, Print(child));
    }
  }

  lemma InfixDerives(e: Expr, lt: seq<Tok>, rt: seq<Tok>)
    requires IsInfix(e) && NodeLevel(e) >= 0
    requires Derives(e.left, NodeLevel(e), lt) && Derives(e.right, NodeLevel(e) + 1, rt)
    ensures DerivesBare(e, lt + InfixTokens(e) + rt)
  {
    hide OpTokens, OpLevel, WordLevel;
    var op := InfixTokens(e);
    var ts := lt + op + rt;
    DerivedHead(e.left, NodeLevel(e), lt);
    DerivedHead(e.right, NodeLevel(e) + 1, rt);
    assert ts[..|lt|] == lt && ts[|lt|..|lt| + |op|] == op && ts[|lt| + |op|..] == rt;
    assert InfixAt(e, ts, |lt|);
  }

  lemma {:induction false} AgreedUnary(e: Expr)
    requires e.Unary? && Agreed(e)
    ensures DerivesBare(e, Print(e))
    decreases e, 0
  {
    var op, operand := e.op, e.operand;
    var parens := (op == "not" || op == "!") && NeedsParensAfterNot(operand);
    AgreedOperand(operand, parens, 8);
    var right := MaybeGroup(operand, parens);
    DerivedHead(operand, 8, right);
    if op == "-" {
      MinusHead(operand);
      assert Negated(right) == [Word("-")] + right;
    }
    assert Print(e)[1..] == right;
  }

  /** Only a negation that is printed bare starts with a minus sign. */
  lemma MinusHead(e: Expr)
    requires Agreed(e) && Derives(e, 8, Print(e)) && !(e.Unary? && e.op == "-")
    requires NodeLevel(e) >= 8
    ensures |Print(e)| > 0 && Print(e)[0] != Word("-") && Print(e)[0] != Word("--")
  {
    if !e.Unary? {
      AgreedDerives(e);
      HeadOfPostfix(e, Print(e));
    }
  }

  lemma {:induction false} AgreedArgs(args: seq<Expr>)
    requires forall i :: 0 <= i < |args| ==> Agreed(args[i])
    ensures DerivesArgs(args, PrintArgs(args))
    decreases args, 0
  {
    if |args| > 0 {
      AgreedOperand(args[0], false, 0);
    }
    if |args| > 1 {
      AgreedArgs(args[1..]);
      var ts, i := PrintArgs(args), |Print(args[0])|;
      assert ts[..i] == Print(args[0]) && ts[i + 1..] == PrintArgs(args[1..]);
      assert CommaAt(args, ts, i);
    }
  }

  /** Whatever follows an agreed tree's text, if it continues no operator or call, the tree comes back and exactly its text is consumed. */
  lemma PrintedParses(e: Expr, rest: seq<Tok>)
    requires Agreed(e) && Stops(0, rest)
    ensures ParseExpression(Print(e) + rest) == Parse(e, Skip(rest), 0)
  {
    AgreedDerives(e);
    DerivesLower(e, NodeLevel(e), 0, Print(e));
    Complete(e, 0, Print(e), rest);
  }
}
