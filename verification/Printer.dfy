/** The formatter's expression printer (internal/formatter/printer.go), as the tokens its text lexes to. */
module Printer {
  import opened Prelude
  import opened Syntax

  /** Higher binds tighter; operators without an entry, such as `not in`, have 0. */
  function OperatorPrecedence(op: string): int
  {
    if op == "or" || op == "||" then 1
    else if op == "and" || op == "&&" then 2
    else if op == "|" then 3
    else if op == "^" then 4
    else if op == "&" then 5
    else if op == "equals" || op == "not equals" || op == "==" || op == "!=" || op == "isnt" then 6
    else if op == "<" || op == ">" || op == "<=" || op == ">=" || op == "in" then 7
    else if op == "<<" || op == ">>" then 8
    else if op == "+" || op == "-" then 9
    else if op == "*" || op == "/" || op == "%" then 10
    else 0
  }

  /** Only binary children are ever parenthesised, by comparing precedence numbers. */
  predicate NeedsParens(child: Expr, parentPrec: int, isRight: bool)
  {
    child.Binary? &&
    var childPrec := OperatorPrecedence(child.op);
    childPrec < parentPrec || (isRight && childPrec == parentPrec)
  }

  predicate NeedsParensAfterNot(e: Expr)
  {
    e.Binary? || e.Pipe?
  }

  function Group(ts: seq<Tok>): seq<Tok>
  {
    [LParen] + ts + [RParen]
  }

  /** Minus signs at the start of the text, and what follows them. */
  function LeadingMinuses(ts: seq<Tok>): (nat, seq<Tok>)
  {
    if ts != [] && ts[0] == Word("-") then var (n, rest) := LeadingMinuses(ts[1..]); (n + 1, rest)
    else if ts != [] && ts[0] == Word("--") then var (n, rest) := LeadingMinuses(ts[1..]); (n + 2, rest)
    else (0, ts)
  }

  /** What a run of adjacent minus signs lexes to: pairs first. */
  function MinusRun(n: nat): seq<Tok>
  {
    if n == 0 then [] else if n == 1 then [Word("-")] else [Word("--")] + MinusRun(n - 2)
  }

  /** A minus sign written directly before the text. */
  function Negated(ts: seq<Tok>): seq<Tok>
  {
    var (n, rest) := LeadingMinuses(ts);
    MinusRun(n + 1) + rest
  }

  function PrintOperand(child: Expr, parentPrec: int, isRight: bool): seq<Tok>
    decreases child, 1
  {
    if NeedsParens(child, parentPrec, isRight) then Group(Print(child)) else Print(child)
  }

  function PrintArgs(args: seq<Expr>): seq<Tok>
    decreases args, 0
  {
    if args == [] then []
    else if |args| == 1 then Print(args[0])
    else Print(args[0]) + [Comma] + PrintArgs(args[1..])
  }

  function Print(e: Expr): seq<Tok>
    decreases e, 0
  {
    match e
    case Leaf(text) => [Prim(text)]
    case Call(fn, args) => Print(fn) + Group(PrintArgs(args))
    case Unary(op, operand) =>
      var right := Print(operand);
      if op == "not" || op == "!" then [Word(op)] + (if NeedsParensAfterNot(operand) then Group(right) else right)
      else if op == "&" then [Word("reference of")] + right
      else if op == "dereference" then [Word("dereference")] + right
      else if op == "-" then Negated(right)
      else [Word(op)] + right
    case Binary(op, left, right) =>
      var prec := OperatorPrecedence(op);
      PrintOperand(left, prec, false) + OpTokens(op) + PrintOperand(right, prec, true)
    case Pipe(left, right) => Print(left) + [PipeTok] + Print(right)
  }

  /** The stages of a pipe chain, leftmost first. */
  function Stages(e: Expr): seq<Expr>
  {
    if e.Pipe? then Stages(e.left) + [e.right] else [e]
  }

  function Reverse<T>(s: seq<T>): (r: seq<T>)
    ensures |r| == |s|
    ensures forall i :: 0 <= i < |s| ==> r[i] == s[|s| - 1 - i]
  {
    if s == [] then [] else Reverse(s[1..]) + [s[0]]
  }

  /** Walks down the left spine, then reverses what it collected in place. */
  method FlattenPipeChain(e: Expr) returns (out: seq<Expr>)
    requires e.Pipe?
    ensures out == Stages(e)
  {
    var stages: seq<Expr> := [];
    var current := e;
    while current.Pipe?
      invariant Stages(current) + Reverse(stages) == Stages(e)
      decreases current
    {
      assert Stages(current) + Reverse(stages) == Stages(current.left) + ([current.right] + Reverse(stages));
      ReverseSnoc(stages, current.right);
      stages := stages + [current.right];
      current := current.left;
    }
    ReverseSnoc(stages, current);
    stages := stages + [current];
    var a := new Expr[|stages|](i requires 0 <= i < |stages| => stages[i]);
    assert a[..] == stages;
    ReverseInPlace(a);
    out := a[..];
  }

  /** The first and the last i elements have changed places. */
  ghost predicate Swapped(s: seq<Expr>, t: seq<Expr>, i: nat)
  {
    && |t| == |s| && 2 * i <= |s| + 1
    && (forall k :: i <= k < |s| - i ==> t[k] == s[k])
    && (forall k :: 0 <= k < i || |s| - i <= k < |s| ==> t[k] == s[|s| - 1 - k])
  }

  method ReverseInPlace(a: array<Expr>)
    modifies a
    ensures a[..] == Reverse(old(a[..]))
  {
    hide Reverse, Swapped;
    ghost var s := a[..];
    SwappedNone(s);
    var i, j := 0, a.Length - 1;
    while i < j
      invariant 0 <= i && i + j == a.Length - 1 && i <= j + 2
      invariant Swapped(s, a[..], i)
    {
      ghost var t := a[..];
      a[i], a[j] := a[j], a[i];
      assert a[..] == t[i := t[j]][j := t[i]];
      SwapOne(s, t, i, j);
      i, j := i + 1, j - 1;
    }
    SwappedAll(s, a[..], i);
  }

  lemma SwappedNone(s: seq<Expr>)
    ensures Swapped(s, s, 0)
  {
  }

  lemma SwapOne(s: seq<Expr>, t: seq<Expr>, i: nat, j: nat)
    requires Swapped(s, t, i) && i < j && i + j == |s| - 1
    ensures |t| == |s| && Swapped(s, t[i := t[j]][j := t[i]], i + 1)
  {
    var u := t[i := t[j]][j := t[i]];
    assert u[i] == s[j] && u[j] == s[i];
    forall k | 0 <= k < i + 1 || |s| - (i + 1) <= k < |s|
      ensures u[k] == s[|s| - 1 - k]
    {
      assert k != i && k != j ==> u[k] == t[k];
    }
  }

  lemma SwappedAll(s: seq<Expr>, t: seq<Expr>, i: nat)
    requires Swapped(s, t, i) && 2 * i >= |s| - 1
    ensures t == Reverse(s)
  {
    Mirrored(s, t);
  }

  lemma Mirrored(s: seq<Expr>, t: seq<Expr>)
    requires |t| == |s| && forall k :: 0 <= k < |s| ==> t[k] == s[|s| - 1 - k]
    ensures t == Reverse(s)
  {
  }

  lemma ReverseSnoc<T>(s: seq<T>, x: T)
    ensures Reverse(s + [x]) == [x] + Reverse(s)
  {
    if s == [] {
      assert s + [x] == [x] && [x][1..] == [];
    } else {
      assert (s + [x])[1..] == s[1..] + [x];
      ReverseSnoc(s[1..], x);
    }
  }

  /** The stages' texts joined by pipes. */
  function Joined(stages: seq<Expr>): seq<Tok>
  {
    if stages == [] then []
    else if |stages| == 1 then Print(stages[0])
    else Joined(Front(stages)) + [PipeTok] + Print(Last(stages))
  }

  /** Joining the stages is printing the chain: the printer never groups a chain by parentheses. */
  lemma {:induction false} JoinedIsPrint(e: Expr)
    ensures Joined(Stages(e)) == Print(e)
  {
    if e.Pipe? {
      JoinedIsPrint(e.left);
      assert Front(Stages(e)) == Stages(e.left);
      StagesNonEmpty(e.left);
    }
  }

  lemma StagesNonEmpty(e: Expr)
    ensures |Stages(e)| >= 1
  {
  }
}
