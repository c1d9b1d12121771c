/**
 Where the formatter's precedence numbers and the parser's levels agree, by the
 operators as they are written (operatorPrecedence and binaryOperandToString of
 internal/formatter/printer.go).
 */
module Fragment {
  import opened Syntax
  import opened Printer
  import opened Parser
  import opened RoundTrip
  import opened Grouping
  import E = RoundTripExact

  /** One group for the parser, two for the formatter, which has no entry for `not in`. */
  const EQUALITIES: set<string> := {"==", "!=", "equals", "isnt", "not equals"}
  const RELATIONS: set<string> := {"<", ">", "<=", ">=", "in"}

  /** An infix operator of a binary expression. */
  predicate Listed(op: string)
  {
    Rank(op) >= 0 && op != "|>"
  }

  /** A left operand the formatter puts in parentheses. */
  predicate ParensLeft(op: string, child: string)
  {
    op != "not in" && (Rank(child) < Rank(op) || child == "not in" || (op in RELATIONS && child in EQUALITIES))
  }

  predicate ParensRight(op: string, child: string)
  {
    if op == "not in" then child == "not in"
    else child == "not in" || (Rank(child) <= Rank(op) && !(op in EQUALITIES && child in RELATIONS))
  }

  /** A comparison is an equality, a relation or `not in`. */
  lemma Comparisons(op: string)
    ensures op in GROUPS[5] <==> op in EQUALITIES || op in RELATIONS || op == "not in"
    ensures !(op in EQUALITIES && op in RELATIONS) && "not in" !in EQUALITIES && "not in" !in RELATIONS
  {
  }

  lemma ComparisonPrecedence(op: string)
    ensures op in EQUALITIES ==> OperatorPrecedence(op) == 6
    ensures op in RELATIONS ==> OperatorPrecedence(op) == 7
    ensures OperatorPrecedence("not in") == 0
  {
    if op in EQUALITIES {
      assert op == "equals" || op == "not equals" || op == "==" || op == "!=" || op == "isnt";
    }
    if op in RELATIONS {
      assert op == "<" || op == ">" || op == "<=" || op == ">=" || op == "in";
    }
  }

  lemma LogicalPrecedence(op: string)
    ensures op in GROUPS[0] ==> OperatorPrecedence(op) == 1
    ensures op in GROUPS[2] ==> OperatorPrecedence(op) == 2
    ensures op in GROUPS[3] ==> OperatorPrecedence(op) == 3
    ensures op in GROUPS[4] ==> OperatorPrecedence(op) == 5
  {
    if op in GROUPS[0] {
      assert op == "or" || op == "||";
    } else if op in GROUPS[2] {
      assert op == "and" || op == "&&";
    }
  }

  lemma ArithmeticPrecedence(op: string)
    ensures op in GROUPS[6] ==> OperatorPrecedence(op) == 9
    ensures op in GROUPS[7] ==> OperatorPrecedence(op) == 10
  {
    if op in GROUPS[6] {
      assert op == "+" || op == "-";
    } else if op in GROUPS[7] {
      assert op == "*" || op == "/" || op == "%";
    }
  }

  /** The formatter's number of an operator, by its group. */
  lemma PrecedenceOf(op: string)
    requires Listed(op)
    ensures OperatorPrecedence(op) ==
      if Rank(op) == 0 then 1
      else if Rank(op) == 2 then 2
      else if Rank(op) == 3 then 3
      else if Rank(op) == 4 then 5
      else if Rank(op) == 6 then 9
      else if Rank(op) == 7 then 10
      else if op in EQUALITIES then 6
      else if op in RELATIONS then 7
      else 0
    ensures Rank(op) != 1 && (Rank(op) == 5 <==> op in EQUALITIES || op in RELATIONS || op == "not in")
    ensures !(op in EQUALITIES && op in RELATIONS) && "not in" !in EQUALITIES && "not in" !in RELATIONS
  {
    hide Rank, OperatorPrecedence, EQUALITIES, RELATIONS;
    var i := Rank(op);
    assert op in GROUPS[i];
    LogicalPrecedence(op);
    ArithmeticPrecedence(op);
    ComparisonPrecedence(op);
    Comparisons(op);
  }

  /** Exactly where parentheses are printed. */
  lemma ParensExactly(op: string, child: Expr)
    requires Listed(op) && (child.Binary? ==> Listed(child.op))
    ensures NeedsParens(child, OperatorPrecedence(op), false) <==> child.Binary? && ParensLeft(op, child.op)
    ensures NeedsParens(child, OperatorPrecedence(op), true) <==> child.Binary? && ParensRight(op, child.op)
  {
    hide OperatorPrecedence, Rank;
    PrecedenceOf(op);
    if child.Binary? {
      PrecedenceOf(child.op);
    }
  }

  // ----- The trees that come back -----

  /** No infix operator at the root. */
  predicate Compact(e: Expr)
  {
    !e.Binary? && !e.Pipe?
  }

  predicate LoosestRoot(e: Expr)
  {
    e.Binary? && (e.op == "or" || e.op == "||")
  }

  /** Looser than a comparison. */
  predicate LooseRoot(e: Expr)
  {
    e.Pipe? || (e.Binary? && (e.op == "or" || e.op == "||" || e.op == "and" || e.op == "&&" || e.op == "|" || e.op == "&"))
  }

  /** A left operand that can stand there as it is printed: no pipe but under `or`, and nothing looser than a comparison under `not in`. */
  predicate LeftKept(op: string, child: Expr)
  {
    && (child.Pipe? ==> op == "or" || op == "||")
    && (op == "not in" ==> !LooseRoot(child))
  }

  /** A right operand: besides, no relation under an equality, and under `not in` no comparison but `not in`. */
  predicate RightKept(op: string, child: Expr)
  {
    && LeftKept(op, child)
    && (op in EQUALITIES && child.Binary? ==> child.op !in RELATIONS)
    && (op == "not in" && child.Binary? ==> child.op !in EQUALITIES && child.op !in RELATIONS)
  }

  /** The trees on which formatter and parser agree. */
  predicate Kept(e: Expr)
  {
    match e
    case Leaf(_) => true
    case Call(fn, args) => (fn.Leaf? || fn.Call?) && Kept(fn) && forall i :: 0 <= i < |args| ==> Kept(args[i])
    case Unary(op, operand) =>
      && Kept(operand)
      && (op == "not" || op == "!" || ((op == "-" || op == "&" || op == "dereference") && Compact(operand)))
      && (op == "-" ==> !(operand.Unary? && operand.op == "-"))
    case Binary(op, left, right) => Listed(op) && Kept(left) && Kept(right) && LeftKept(op, left) && RightKept(op, right)
    case Pipe(left, right) => Kept(left) && Kept(right) && !LoosestRoot(left) && !LoosestRoot(right) && !right.Pipe?
  }

  /** Levels by groups. */
  lemma LevelOf(e: Expr)
    requires e.Binary? ==> Listed(e.op)
    ensures NodeLevel(e) == if e.Binary? then Rank(e.op) else if e.Pipe? then 1 else if e.Unary? then 8 else 9
    ensures e.Binary? ==> 0 <= Rank(e.op) <= 7 && Rank(e.op) != 1
    ensures LoosestRoot(e) <==> e.Binary? && Rank(e.op) == 0
    ensures LooseRoot(e) <==> e.Pipe? || (e.Binary? && Rank(e.op) < 5)
  {
    hide OpLevel, Rank;
    if e.Binary? {
      GroupLevel(e.op);
      LooseOps(e.op);
    }
  }

  lemma LooseOps(op: string)
    requires Listed(op)
    ensures op == "or" || op == "||" <==> Rank(op) == 0
    ensures op == "or" || op == "||" || op == "and" || op == "&&" || op == "|" || op == "&" <==> Rank(op) < 5
    ensures Rank(op) != 1
  {
    hide Rank;
    assert op in GROUPS[Rank(op)];
    assert forall j :: 0 <= j < |GROUPS| ==> (op in GROUPS[j] <==> Rank(op) == j);
    assert op in GROUPS[0] <==> op == "or" || op == "||";
    assert op in GROUPS[2] <==> op == "and" || op == "&&";
    assert op in GROUPS[3] <==> op == "|";
    assert op in GROUPS[4] <==> op == "&";
    assert op in GROUPS[1] <==> op == "|>";
  }

  lemma OperandsAgree(op: string, left: Expr, right: Expr)
    requires Listed(op) && (left.Binary? ==> Listed(left.op)) && (right.Binary? ==> Listed(right.op))
    ensures OpLevel(op) == Rank(op)
    ensures Stands(left, NeedsParens(left, OperatorPrecedence(op), false), Rank(op)) <==> LeftKept(op, left)
    ensures Stands(right, NeedsParens(right, OperatorPrecedence(op), true), Rank(op) + 1) <==> RightKept(op, right)
  {
    hide OperatorPrecedence, Rank, NeedsParens, OpLevel, NodeLevel, LoosestRoot, LooseRoot;
    GroupLevel(op);
    LooseOps(op);
    PrecedenceOf(op);
    ParensExactly(op, left);
    ParensExactly(op, right);
    LevelOf(left);
    LevelOf(right);
    if left.Binary? {
      PrecedenceOf(left.op);
    }
    if right.Binary? {
      PrecedenceOf(right.op);
    }
  }

  /** Only listed operators have a level. */
  lemma ListedExactly(op: string)
    ensures OpLevel(op) >= 0 <==> Listed(op)
  {
    hide Rank;
    if Listed(op) {
      GroupLevel(op);
    } else {
      Unlisted(op);
    }
  }

  lemma Unlisted(op: string)
    requires !Listed(op)
    ensures OpLevel(op) < 0
  {
    hide Rank;
    assert forall j :: 0 <= j < |GROUPS| && j != 1 ==> op !in GROUPS[j];
    assert op !in GROUPS[0] && op !in GROUPS[2] && op !in GROUPS[3] && op !in GROUPS[4] && op !in GROUPS[5] && op !in GROUPS[6] && op !in GROUPS[7];
  }

  lemma {:induction false} KeptAgreed(e: Expr)
    ensures Agreed(e) <==> Kept(e)
  {
    hide OperatorPrecedence, Rank, NeedsParens, OpLevel, LeftKept, RightKept, NodeLevel;
    match e
    case Leaf(_) =>
    case Call(fn, args) =>
      KeptAgreed(fn);
      forall i | 0 <= i < |args|
        ensures Agreed(args[i]) <==> Kept(args[i])
      {
        KeptAgreed(args[i]);
      }
      if Agreed(fn) {
        AgreedListed(fn);
      }
      assert Agreed(fn) ==> (NodeLevel(fn) == 9 <==> fn.Leaf? || fn.Call?);
    case Unary(op, operand) =>
      KeptAgreed(operand);
      if Agreed(operand) {
        AgreedListed(operand);
      }
    case Binary(op, left, right) =>
      KeptAgreed(left);
      KeptAgreed(right);
      ListedExactly(op);
      if Listed(op) && Agreed(left) && Agreed(right) {
        AgreedListed(left);
        AgreedListed(right);
        OperandsAgree(op, left, right);
      }
    case Pipe(left, right) =>
      KeptAgreed(left);
      KeptAgreed(right);
      if Agreed(left) && Agreed(right) {
        AgreedListed(left);
        AgreedListed(right);
      }
  }

  lemma AgreedListed(e: Expr)
    requires Agreed(e) || Kept(e)
    ensures e.Binary? ==> Listed(e.op)
    ensures NodeLevel(e) == if e.Binary? then Rank(e.op) else if e.Pipe? then 1 else if e.Unary? then 8 else 9
    ensures e.Binary? ==> 0 <= Rank(e.op) <= 7 && Rank(e.op) != 1
    ensures LoosestRoot(e) <==> e.Binary? && Rank(e.op) == 0
  {
    hide OperatorPrecedence, Rank, NeedsParens, OpLevel, LeftKept, RightKept, NodeLevel, LoosestRoot, LooseRoot;
    if e.Binary? {
      ListedExactly(e.op);
    }
    LevelOf(e);
  }

  /**
   The printed text parses back to the tree it was printed from exactly when no
   operand is one of these: a relation on the right of an equality; a pipe under
   any operator but `or`; anything looser than a comparison under `not in`, or
   another comparison on its right; `or` under a pipe, or a pipe on a pipe's
   right; an infix expression under a minus sign, `&` or `dereference`, or a
   minus sign under a minus sign; anything but a name or a call as a callee.
   */
  lemma ComesBackExactly(e: Expr)
    ensures ParseExpression(Print(e) + [Eof]) == Parse(e, [Eof], 0) <==> Kept(e)
  {
    hide ParseExpression, Print, Agreed, Kept;
    E.RoundTripExactly(e);
    KeptAgreed(e);
  }
}
