/**
 How expressions group, by the operators as they are written: the last of the
 loosest operators is the root (parseOrExpr to parseUnaryExpr of
 internal/parser/parser_expr.go).
 */
module Grouping {
  import opened Prelude
  import opened Syntax
  import opened Parser
  import opened RoundTrip
  import E = RoundTripExact

  /** The infix operators, loosest first. */
  const GROUPS: seq<set<string>> := [
    {"or", "||"},
    {"|>"},
    {"and", "&&"},
    {"|"},
    {"&"},
    {"==", "!=", "<", ">", "<=", ">=", "equals", "isnt", "in", "not equals", "not in"},
    {"+", "-"},
    {"*", "/", "%"}]

  const PREFIXES: set<string> := {"not", "!", "-", "&", "reference of", "dereference"}

  /** The number of an operator's group, -1 for what is no infix operator. */
  function Rank(op: string): (i: int)
    ensures -1 <= i < |GROUPS|
    ensures forall j :: 0 <= j < |GROUPS| ==> (op in GROUPS[j] <==> i == j)
  {
    if op in GROUPS[0] then 0
    else if op in GROUPS[1] then 1
    else if op in GROUPS[2] then 2
    else if op in GROUPS[3] then 3
    else if op in GROUPS[4] then 4
    else if op in GROUPS[5] then 5
    else if op in GROUPS[6] then 6
    else if op in GROUPS[7] then 7
    else -1
  }

  /** An operator as tokens. */
  function Written(op: string): (ts: seq<Tok>)
    ensures |ts| > 0
  {
    if op == "|>" then [PipeTok]
    else if op == "not equals" then [Word("not"), Word("equals")]
    else if op == "not in" then [Word("not"), Word("in")]
    else [Word(op)]
  }

  /** An operator with its operands. */
  function Node(op: string, left: Expr, right: Expr): Expr
  {
    if op == "|>" then Pipe(left, right) else Binary(op, left, right)
  }

  // ----- Expressions as they are written -----

  /** Operands with operators between them. */
  datatype Flat = Flat(operands: seq<Operand>, ops: seq<string>)

  /** Prefix operators before a name, a parenthesised expression or a call. */
  datatype Operand = Operand(prefixes: seq<string>, atom: Atom)
  datatype Atom = Name(text: string) | Paren(inner: Flat) | Called(fn: Atom, args: seq<Flat>)

  ghost predicate WellWritten(xs: seq<Operand>, ops: seq<string>)
    decreases xs
  {
    && |xs| == |ops| + 1 && (forall i :: 0 <= i < |ops| ==> Rank(ops[i]) >= 0)
    && forall i :: 0 <= i < |xs| ==> WellOperand(xs[i])
  }

  ghost predicate WellOperand(x: Operand)
    decreases x
  {
    (forall i :: 0 <= i < |x.prefixes| ==> x.prefixes[i] in PREFIXES) && WellAtom(x.atom)
  }

  ghost predicate WellAtom(a: Atom)
    decreases a
  {
    match a
    case Name(_) => true
    case Paren(inner) => WellWritten(inner.operands, inner.ops)
    case Called(fn, args) => WellAtom(fn) && forall i :: 0 <= i < |args| ==> WellWritten(args[i].operands, args[i].ops)
  }

  function Tokens(xs: seq<Operand>, ops: seq<string>): seq<Tok>
    requires |xs| == |ops| + 1
    decreases xs
  {
    OperandTokens(xs[0]) + if ops == [] then [] else Written(ops[0]) + Tokens(xs[1..], ops[1..])
  }

  function OperandTokens(x: Operand): seq<Tok>
    decreases x
  {
    Words(x.prefixes) + AtomTokens(x.atom)
  }

  function Words(lexemes: seq<string>): seq<Tok>
  {
    if lexemes == [] then [] else [Word(lexemes[0])] + Words(lexemes[1..])
  }

  function AtomTokens(a: Atom): seq<Tok>
    decreases a
  {
    match a
    case Name(text) => [Prim(text)]
    case Paren(inner) => [LParen] + (if |inner.operands| == |inner.ops| + 1 then Tokens(inner.operands, inner.ops) else []) + [RParen]
    case Called(fn, args) => AtomTokens(fn) + ([LParen] + ArgTokens(args) + [RParen])
  }

  function ArgTokens(args: seq<Flat>): seq<Tok>
    decreases args
  {
    if args == [] then []
    else
      var first := if |args[0].operands| == |args[0].ops| + 1 then Tokens(args[0].operands, args[0].ops) else [];
      if |args| == 1 then first else first + [Comma] + ArgTokens(args[1..])
  }

  /** The last of the loosest operators. */
  function Root(ops: seq<string>): (k: nat)
    requires ops != []
    ensures k < |ops|
    ensures forall i :: 0 <= i < |ops| ==> Rank(ops[k]) <= Rank(ops[i]) && (i > k ==> Rank(ops[k]) < Rank(ops[i]))
  {
    if |ops| == 1 then 0
    else
      var k := Root(Front(ops));
      if Rank(Last(ops)) <= Rank(ops[k]) then |ops| - 1 else k
  }

  /** The tree: what stands before the root operator, and what stands behind it. */
  function Tree(xs: seq<Operand>, ops: seq<string>): Expr
    requires |xs| == |ops| + 1
    decreases xs
  {
    if ops == [] then OperandTree(xs[0])
    else
      var k := Root(ops);
      Node(ops[k], Tree(xs[..k + 1], ops[..k]), Tree(xs[k + 1..], ops[k + 1..]))
  }

  function OperandTree(x: Operand): Expr
    decreases x
  {
    Prefixed(x.prefixes, AtomTree(x.atom))
  }

  /** Prefix operators bind the tighter the nearer they stand; `reference of` is another spelling of `&`. */
  function Prefixed(prefixes: seq<string>, e: Expr): Expr
  {
    if prefixes == [] then e
    else Unary(if prefixes[0] == "reference of" then "&" else prefixes[0], Prefixed(prefixes[1..], e))
  }

  function AtomTree(a: Atom): Expr
    decreases a
  {
    match a
    case Name(text) => Leaf(text)
    case Paren(inner) => if |inner.operands| == |inner.ops| + 1 then Tree(inner.operands, inner.ops) else Leaf("_")
    case Called(fn, args) => Call(AtomTree(fn), ArgTrees(args))
  }

  function ArgTrees(args: seq<Flat>): seq<Expr>
    decreases args
  {
    if args == [] then []
    else [if |args[0].operands| == |args[0].ops| + 1 then Tree(args[0].operands, args[0].ops) else Leaf("_")] + ArgTrees(args[1..])
  }

  // ----- The parser groups so -----

  /** The groups are the parser's levels. */
  lemma RankIsLevel(op: string, left: Expr, right: Expr)
    requires Rank(op) >= 0
    ensures var e := Node(op, left, right);
      IsInfix(e) && NodeLevel(e) == Rank(op) && InfixTokens(e) == Written(op) && e.left == left && e.right == right
  {
    hide Rank;
    if op != "|>" {
      GroupLevel(op);
    } else {
      PipeRank();
    }
  }

  lemma PipeRank()
    ensures Rank("|>") == 1
  {
  }

  lemma GroupLevel(op: string)
    requires Rank(op) >= 0 && op != "|>"
    ensures OpLevel(op) == Rank(op) && OpTokens(op) == Written(op)
  {
    hide Rank;
    assert op in GROUPS[Rank(op)];
    if Rank(op) == 5 {
      ComparisonLevel(op);
    } else {
      OtherLevel(op, Rank(op));
    }
  }

  lemma ComparisonLevel(op: string)
    requires op in GROUPS[5]
    ensures OpLevel(op) == 5 && OpTokens(op) == Written(op)
  {
    assert op == "==" || op == "!=" || op == "<" || op == ">" || op == "<=" || op == ">="
      || op == "equals" || op == "isnt" || op == "in" || op == "not equals" || op == "not in";
  }

  lemma OtherLevel(op: string, i: nat)
    requires i < |GROUPS| && i != 1 && i != 5 && op in GROUPS[i]
    ensures OpLevel(op) == i && OpTokens(op) == Written(op)
  {
    if i == 0 {
      assert op == "or" || op == "||";
    } else if i == 2 {
      assert op == "and" || op == "&&";
    } else if i == 6 {
      assert op == "+" || op == "-";
    } else if i == 7 {
      assert op == "*" || op == "/" || op == "%";
    }
  }

  /** The level of an expression's loosest operator; that of a prefix operator if there is none. */
  function Tightness(ops: seq<string>): int
  {
    if ops == [] then 8 else Rank(ops[Root(ops)])
  }

  /** Before and behind an operator. */
  lemma {:induction false} TokensSplit(xs: seq<Operand>, ops: seq<string>, k: nat)
    requires |xs| == |ops| + 1 && k < |ops|
    ensures Tokens(xs, ops) == Tokens(xs[..k + 1], ops[..k]) + Written(ops[k]) + Tokens(xs[k + 1..], ops[k + 1..])
  {
    hide Written, OperandTokens;
    if k > 0 {
      TokensSplit(xs[1..], ops[1..], k - 1);
      assert xs[1..][..k] == xs[..k + 1][1..] && ops[1..][..k - 1] == ops[..k][1..];
      assert xs[1..][k..] == xs[k + 1..] && ops[1..][k..] == ops[k + 1..];
    } else {
      assert ops[..k] == [];
    }
  }

  lemma {:induction false} TreeDerives(xs: seq<Operand>, ops: seq<string>)
    requires WellWritten(xs, ops)
    ensures 0 <= Tightness(ops) && Derives(Tree(xs, ops), Tightness(ops), Tokens(xs, ops))
    decreases xs
  {
    hide Derives, Rank, Written, Node;
    if ops == [] {
      OperandDerives(xs[0]);
      assert OperandTokens(xs[0]) + [] == OperandTokens(xs[0]);
    } else {
      var k := Root(ops);
      var e := Tree(xs, ops);
      TreeDerives(xs[..k + 1], ops[..k]);
      TreeDerives(xs[k + 1..], ops[k + 1..]);
      TokensSplit(xs, ops, k);
      RankIsLevel(ops[k], Tree(xs[..k + 1], ops[..k]), Tree(xs[k + 1..], ops[k + 1..]));
      assert Rank(ops[k]) <= 7;
      DerivesLower(e.left, Tightness(ops[..k]), Rank(ops[k]), Tokens(xs[..k + 1], ops[..k]));
      DerivesLower(e.right, Tightness(ops[k + 1..]), Rank(ops[k]) + 1, Tokens(xs[k + 1..], ops[k + 1..]));
      E.InfixAtLevel(e, Rank(ops[k]), Tokens(xs[..k + 1], ops[..k]), Tokens(xs[k + 1..], ops[k + 1..]));
    }
  }

  lemma {:induction false} OperandDerives(x: Operand)
    requires WellOperand(x)
    ensures Derives(OperandTree(x), 8, OperandTokens(x))
    decreases x
  {
    hide Derives;
    AtomDerives(x.atom);
    DerivesLower(AtomTree(x.atom), 9, 8, AtomTokens(x.atom));
    PrefixesDerive(x.prefixes, AtomTree(x.atom), AtomTokens(x.atom));
    assert OperandTree(x) == Prefixed(x.prefixes, AtomTree(x.atom));
  }

  lemma {:induction false} PrefixesDerive(prefixes: seq<string>, e: Expr, ts: seq<Tok>)
    requires Derives(e, 8, ts) && forall i :: 0 <= i < |prefixes| ==> prefixes[i] in PREFIXES
    ensures Derives(Prefixed(prefixes, e), 8, Words(prefixes) + ts)
  {
    hide Derives;
    if prefixes == [] {
      assert Words(prefixes) + ts == ts;
    } else {
      var more := prefixes[1..];
      PrefixesDerive(more, e, ts);
      assert Words(prefixes) + ts == [Word(prefixes[0])] + (Words(more) + ts);
      PrefixNamed(prefixes[0]);
      E.UnaryDerives(prefixes[0], Prefixed(more, e), Words(more) + ts);
    }
  }

  lemma PrefixNamed(w: string)
    requires w in PREFIXES
    ensures PrefixWord(w) && PrefixOp(w) == if w == "reference of" then "&" else w
  {
  }

  lemma {:induction false} AtomDerives(a: Atom)
    requires WellAtom(a)
    ensures Derives(AtomTree(a), 9, AtomTokens(a))
    decreases a
  {
    match a
    case Name(_) =>
    case Paren(inner) =>
      hide Derives;
      TreeDerives(inner.operands, inner.ops);
      DerivesLower(AtomTree(a), Tightness(inner.ops), 0, Tokens(inner.operands, inner.ops));
      DerivesGroup(AtomTree(a), 9, Tokens(inner.operands, inner.ops));
    case Called(fn, args) =>
      hide Derives, DerivesArgs;
      AtomDerives(fn);
      ArgsDerive(args);
      E.CallDerives(AtomTree(fn), ArgTrees(args), AtomTokens(fn), ArgTokens(args));
  }

  lemma {:induction false} ArgsDerive(args: seq<Flat>)
    requires forall i :: 0 <= i < |args| ==> WellWritten(args[i].operands, args[i].ops)
    ensures DerivesArgs(ArgTrees(args), ArgTokens(args)) && |ArgTrees(args)| == |args|
    decreases args
  {
    hide Derives;
    if args != [] {
      var first := args[0];
      TreeDerives(first.operands, first.ops);
      var e, ts := Tree(first.operands, first.ops), Tokens(first.operands, first.ops);
      DerivesLower(e, Tightness(first.ops), 0, ts);
      ArgsDerive(args[1..]);
      if |args| > 1 {
        E.ArgsDerive(e, ArgTrees(args[1..]), ts, ArgTokens(args[1..]));
      } else {
        assert ArgTrees(args[1..]) == [];
      }
    }
  }

  /** Every expression, however it is written, is parsed without error to the tree whose root is the last of its loosest operators. */
  lemma GroupsSo(xs: seq<Operand>, ops: seq<string>)
    requires WellWritten(xs, ops)
    ensures ParseExpression(Tokens(xs, ops) + [Eof]) == Parse(Tree(xs, ops), [Eof], 0)
  {
    hide ParseLevel, Derives, Tree, Tokens;
    TreeDerives(xs, ops);
    DerivesLower(Tree(xs, ops), Tightness(ops), 0, Tokens(xs, ops));
    Complete(Tree(xs, ops), 0, Tokens(xs, ops), [Eof]);
    AtEnd(Tree(xs, ops));
  }

  lemma AtEnd(e: Expr)
    ensures ParseLoop(0, e, [Eof], 0) == Parse(e, [Eof], 0) && RoundTrip.Stops(1, [Eof])
  {
  }

  /** Of two operators the one of the later group binds tighter, and of one group the left one. */
  lemma TwoOperators(a: Operand, op1: string, b: Operand, op2: string, c: Operand, i: nat, j: nat)
    requires i < |GROUPS| && op1 in GROUPS[i] && j < |GROUPS| && op2 in GROUPS[j]
    requires WellOperand(a) && WellOperand(b) && WellOperand(c)
    ensures ParseExpression(OperandTokens(a) + Written(op1) + OperandTokens(b) + Written(op2) + OperandTokens(c) + [Eof])
      == Parse(
        if i < j then Node(op1, OperandTree(a), Node(op2, OperandTree(b), OperandTree(c)))
        else Node(op2, Node(op1, OperandTree(a), OperandTree(b)), OperandTree(c)), [Eof], 0)
  {
    hide ParseExpression, Rank, Written, OperandTokens, OperandTree, WellOperand;
    var xs, ops := [a, b, c], [op1, op2];
    assert Rank(op1) == i && Rank(op2) == j;
    assert forall k :: 0 <= k < |ops| ==> Rank(ops[k]) >= 0;
    GroupsSo(xs, ops);
    ThreeTokens(a, op1, b, op2, c);
    ThreeTree(a, op1, b, op2, c);
  }

  lemma ThreeTokens(a: Operand, op1: string, b: Operand, op2: string, c: Operand)
    ensures Tokens([a, b, c], [op1, op2]) == OperandTokens(a) + Written(op1) + OperandTokens(b) + Written(op2) + OperandTokens(c)
  {
    hide Written, OperandTokens;
    assert [a, b, c][1..] == [b, c] && [b, c][1..] == [c] && [op1, op2][1..] == [op2] && [op2][1..] == [];
    assert Tokens([c], []) == OperandTokens(c) + [];
    assert Tokens([b, c], [op2]) == OperandTokens(b) + (Written(op2) + Tokens([c], []));
  }

  lemma ThreeTree(a: Operand, op1: string, b: Operand, op2: string, c: Operand)
    ensures Tree([a, b, c], [op1, op2])
      == if Rank(op1) < Rank(op2) then Node(op1, OperandTree(a), Node(op2, OperandTree(b), OperandTree(c)))
         else Node(op2, Node(op1, OperandTree(a), OperandTree(b)), OperandTree(c))
  {
    hide Rank, OperandTree;
    var xs, ops := [a, b, c], [op1, op2];
    assert Root(ops) == if Rank(op1) < Rank(op2) then 0 else 1;
    assert xs[..1] == [a] && xs[1..] == [b, c] && xs[..2] == [a, b] && xs[2..] == [c];
    assert ops[..0] == [] && ops[1..] == [op2] && ops[..1] == [op1] && ops[2..] == [];
    assert [b, c][..1] == [b] && [b, c][1..] == [c] && [a, b][..1] == [a] && [a, b][1..] == [b];
    assert Tree([b, c], [op2]) == Node(op2, OperandTree(b), OperandTree(c));
    assert Tree([a, b], [op1]) == Node(op1, OperandTree(a), OperandTree(b));
  }
}
