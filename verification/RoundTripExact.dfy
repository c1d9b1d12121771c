/**
 The converse of the round trip: the parser accepts nothing it should not, and a
 tree whose printed text parses back to it is one of the agreed trees.
 */
module RoundTripExact {
  import opened Prelude
  import opened Syntax
  import opened Printer
  import opened Parser
  import opened RoundTrip

  // ----- Soundness of the parser -----

  /** No skipped tokens and no trailing comma: the texts on which the parser drops nothing. */
  predicate Clean(ts: seq<Tok>)
  {
    ts == [] || (!ts[0].Ignorable? && (ts[0] == Comma ==> !Starts(ts[1..], RParen)) && Clean(ts[1..]))
  }

  lemma {:induction false} CleanRest(done: seq<Tok>, rest: seq<Tok>)
    requires Clean(done + rest)
    ensures Clean(rest) && Skip(rest) == rest
  {
    if done == [] {
      assert done + rest == rest;
    } else {
      assert (done + rest)[1..] == done[1..] + rest;
      CleanRest(done[1..], rest);
    }
  }

  lemma CleanTail(ts: seq<Tok>)
    requires Clean(ts) && ts != []
    ensures Clean(ts[1..]) && Skip(ts[1..]) == ts[1..] && Skip(ts) == ts && ts == [ts[0]] + ts[1..]
  {
  }

  lemma CleanSkip(ts: seq<Tok>)
    requires Clean(ts)
    ensures Skip(ts) == ts
  {
  }

  lemma Assoc(a: seq<Tok>, b: seq<Tok>, c: seq<Tok>)
    ensures a + (b + c) == a + b + c
  {
  }

  /** Without errors, exactly `done` was consumed, and it derives the tree returned. */
  ghost predicate Explains(level: nat, ts: seq<Tok>, done: seq<Tok>, r: Parse)
  {
    r.errors == 0 ==> ts == done + r.rest && Derives(r.e, level, done)
  }

  lemma {:induction false} Sound(level: nat, ts: seq<Tok>) returns (done: seq<Tok>)
    requires level <= 9 && Clean(ts)
    ensures Explains(level, ts, done, ParseLevel(level, ts))
    decreases |ts|, 40 - level
  {
    if level <= 7 {
      var l := ParseLevel(level + 1, ts);
      done := Sound(level + 1, ts);
      ErrorsGrow(level, l.e, l.rest, l.errors);
      if l.errors == 0 {
        DerivesLower(l.e, level + 1, level, done);
        CleanRest(done, l.rest);
        done := LoopSound(level, l.e, done, l.rest);
      }
    } else if level == 8 {
      done := SoundUnary(ts);
    } else {
      done := SoundPostfix(ts);
    }
  }

  lemma {:induction false} ErrorsGrow(level: nat, left: Expr, ts: seq<Tok>, errors: nat)
    requires level <= 7
    ensures ParseLoop(level, left, ts, errors).errors >= errors
  {
    LoopShift(level, left, ts, 0, errors);
  }

  lemma UnaryDerives(w: string, operand: Expr, ts: seq<Tok>)
    requires PrefixWord(w) && Derives(operand, 8, ts)
    ensures Derives(Unary(PrefixOp(w), operand), 8, [Word(w)] + ts)
  {
    DerivedHead(operand, 8, ts);
    assert ([Word(w)] + ts)[1..] == ts;
  }

  lemma SoundUnary(ts: seq<Tok>) returns (done: seq<Tok>)
    requires Clean(ts)
    ensures Explains(8, ts, done, ParseLevel(8, ts))
    decreases |ts|, 31
  {
    CleanSkip(ts);
    if ts != [] && ts[0].Word? && PrefixWord(ts[0].lexeme) {
      var tail := ts[1..];
      CleanTail(ts);
      var operand := Sound(8, tail);
      var r := ParseLevel(8, tail);
      done := [ts[0]] + operand;
      if r.errors == 0 {
        UnaryDerives(ts[0].lexeme, r.e, operand);
        Assoc([ts[0]], operand, r.rest);
      }
    } else {
      done := SoundPostfix(ts);
      var r := ParseLevel(9, ts);
      if r.errors == 0 {
        DerivesLower(r.e, 9, 8, done);
      }
    }
  }

  /** The operator found at a level is that level's, in its own tokens. */
  lemma OpSound(level: nat, ts: seq<Tok>, left: Expr, right: Expr)
    requires level <= 7 && Clean(ts) && OpAt(level, ts).Some?
    ensures var found := OpAt(level, ts).value; var e := Build(level, found.0, left, right);
      && IsInfix(e) && NodeLevel(e) == level && e.left == left && e.right == right
      && ts == InfixTokens(e) + found.1
  {
    CleanTail(ts);
    if level == 1 {
    } else if ts[0].Word? && WordLevel(ts[0].lexeme) == level {
      OneWord(ts[0].lexeme);
    } else {
      hide Clean, WordLevel;
      CleanTail(ts[1..]);
      assert ts == [ts[0], ts[1]] + ts[1..][1..];
    }
  }

  /** A word with a level is not one of the two-word operators. */
  lemma OneWord(op: string)
    requires WordLevel(op) >= 0
    ensures OpTokens(op) == [Word(op)] && OpLevel(op) == WordLevel(op)
  {
  }

  /** A level's loop behind a left operand that was derived from `before`. */
  lemma {:induction false} LoopSound(level: nat, left: Expr, before: seq<Tok>, ts: seq<Tok>) returns (done: seq<Tok>)
    requires level <= 7 && Clean(ts) && Derives(left, level, before)
    ensures Explains(level, before + ts, done, ParseLoop(level, left, ts, 0))
    decreases |ts|, 29
  {
    hide OpAt, InfixTokens, NodeLevel, Build, Derives, ParseLevel, Clean;
    CleanSkip(ts);
    var found := OpAt(level, ts);
    done := before;
    if found.Some? {
      var fromRight := found.value.1;
      var r := ParseLevel(level + 1, fromRight);
      var e := Build(level, found.value.0, left, r.e);
      OpSound(level, ts, left, r.e);
      CleanRest(InfixTokens(e), fromRight);
      var rt := Sound(level + 1, fromRight);
      ErrorsGrow(level, e, r.rest, r.errors);
      if r.errors == 0 {
        CleanRest(rt, r.rest);
        InfixAtLevel(e, level, before, rt);
        Regroup(before, InfixTokens(e), rt, r.rest);
        done := LoopSound(level, e, before + InfixTokens(e) + rt, r.rest);
      }
    }
  }

  lemma InfixAtLevel(e: Expr, level: nat, lt: seq<Tok>, rt: seq<Tok>)
    requires IsInfix(e) && NodeLevel(e) == level && Derives(e.left, level, lt) && Derives(e.right, level + 1, rt)
    ensures Derives(e, level, lt + InfixTokens(e) + rt)
  {
    InfixDerives(e, lt, rt);
  }

  lemma Regroup(a: seq<Tok>, b: seq<Tok>, c: seq<Tok>, d: seq<Tok>)
    ensures a + (b + (c + d)) == a + b + c + d
  {
  }

  lemma SoundPrimary(ts: seq<Tok>) returns (done: seq<Tok>)
    requires Clean(ts)
    ensures Explains(9, ts, done, ParsePrimary(ts))
    decreases |ts|, 20
  {
    CleanSkip(ts);
    done := [];
    if Starts(ts, LParen) {
      done := SoundGroup(ts);
    } else if ts != [] && ts[0].Prim? {
      CleanTail(ts);
      done := [ts[0]];
    }
  }

  lemma SoundGroup(ts: seq<Tok>) returns (done: seq<Tok>)
    requires Clean(ts) && Starts(ts, LParen)
    ensures Explains(9, ts, done, ParsePrimary(ts))
    decreases |ts|, 19
  {
    hide Derives, ParseLevel, Clean;
    CleanTail(ts);
    var inner := Sound(0, ts[1..]);
    var r := ParseLevel(0, ts[1..]);
    done := Group(inner);
    if r.errors == 0 {
      CleanRest(inner, r.rest);
      if Starts(r.rest, RParen) {
        CleanTail(r.rest);
        DerivesGroup(r.e, 9, inner);
        CallText([], ts, inner, r.rest[1..]);
      }
    }
  }

  lemma PostfixErrorsGrow(e: Expr, ts: seq<Tok>, errors: nat)
    ensures PostfixLoop(e, ts, errors).errors >= errors
  {
    PostfixShift(e, ts, 0, errors);
  }

  lemma SoundPostfix(ts: seq<Tok>) returns (done: seq<Tok>)
    requires Clean(ts)
    ensures Explains(9, ts, done, ParseLevel(9, ts))
    decreases |ts|, 30
  {
    var p := ParsePrimary(ts);
    done := SoundPrimary(ts);
    PostfixErrorsGrow(p.e, p.rest, p.errors);
    if p.errors == 0 {
      CleanRest(done, p.rest);
      done := CallsSound(p.e, done, p.rest);
    }
  }

  lemma {:induction false} CallsSound(e: Expr, before: seq<Tok>, ts: seq<Tok>) returns (done: seq<Tok>)
    requires Clean(ts) && Derives(e, 9, before)
    ensures Explains(9, before + ts, done, PostfixLoop(e, ts, 0))
    decreases |ts|, 4
  {
    hide Derives, ParseArgs, DerivesArgs, Clean;
    CleanSkip(ts);
    done := before;
    if Starts(ts, LParen) {
      CleanTail(ts);
      var a := ParseArgs(ts[1..]);
      var (after, missing) := CloseParen(a.rest);
      var at := ArgsSound(ts[1..]);
      PostfixErrorsGrow(Call(e, a.args), after, a.errors + missing);
      if a.errors + missing == 0 {
        CleanRest(at, a.rest);
        CleanTail(a.rest);
        CallDerives(e, a.args, before, at);
        CallText(before, ts, at, after);
        done := CallsSound(Call(e, a.args), before + Group(at), after);
      }
    }
  }

  lemma CallText(before: seq<Tok>, ts: seq<Tok>, at: seq<Tok>, after: seq<Tok>)
    requires ts == [LParen] + (at + ([RParen] + after))
    ensures before + ts == before + Group(at) + after
  {
  }

  lemma CallDerives(fn: Expr, args: seq<Expr>, ft: seq<Tok>, at: seq<Tok>)
    requires Derives(fn, 9, ft) && DerivesArgs(args, at)
    ensures Derives(Call(fn, args), 9, ft + Group(at))
  {
    DerivedHead(fn, 9, ft);
    var ts, i := ft + Group(at), |ft|;
    assert ts[..i] == ft && ts[i + 1..|ts| - 1] == at;
    assert CallAt(Call(fn, args), ts, i);
  }

  lemma ArgsSound(ts: seq<Tok>) returns (done: seq<Tok>)
    requires Clean(ts)
    ensures var r := ParseArgs(ts); r.errors == 0 ==> ts == done + r.rest && DerivesArgs(r.args, done)
    decreases |ts|, 45
  {
    hide ParseLevel, Derives, Clean, ParseArgLoop, Skip;
    CleanSkip(ts);
    done := [];
    if !Starts(ts, RParen) {
      done := ArgLoopSound(ts);
    }
  }

  lemma {:induction false} ArgLoopSound(ts: seq<Tok>) returns (done: seq<Tok>)
    requires Clean(ts)
    ensures var r := ParseArgLoop(ts);
      r.errors == 0 ==> |r.args| > 0 && ts == done + r.rest && DerivesArgs(r.args, done)
    decreases |ts|, 44
  {
    hide Derives, ParseLevel;
    done := Sound(0, ts);
    var a := ParseLevel(0, ts);
    if a.errors == 0 {
      CleanRest(done, a.rest);
      if Starts(a.rest, Comma) {
        CleanTail(a.rest);
        var next := a.rest[1..];
        assert !Starts(next, RParen);
        var more := ParseArgLoop(next);
        var others := ArgLoopSound(next);
        if more.errors == 0 {
          ArgsDerive(a.e, more.args, done, others);
          Regroup(done, [Comma], others, more.rest);
          done := done + [Comma] + others;
        }
      }
    }
  }

  lemma ArgsDerive(first: Expr, others: seq<Expr>, ft: seq<Tok>, ot: seq<Tok>)
    requires |others| > 0 && Derives(first, 0, ft) && DerivesArgs(others, ot)
    ensures DerivesArgs([first] + others, ft + [Comma] + ot)
  {
    var args, ts := [first] + others, ft + [Comma] + ot;
    assert args[1..] == others && ts[..|ft|] == ft && ts[|ft| + 1..] == ot;
    assert CommaAt(args, ts, |ft|);
  }

  // ----- What the printer writes -----

  lemma {:induction false} CleanJoin(ts: seq<Tok>, rest: seq<Tok>)
    requires Clean(ts) && Clean(rest) && (ts != [] ==> Last(ts) != Comma)
    ensures Clean(ts + rest)
  {
    if ts == [] {
      assert ts + rest == rest;
    } else {
      assert (ts + rest)[1..] == ts[1..] + rest;
      CleanJoin(ts[1..], rest);
    }
  }

  lemma CleanOne(t: Tok, rest: seq<Tok>)
    requires Clean(rest) && !t.Ignorable? && (t == Comma ==> !Starts(rest, RParen))
    ensures Clean([t] + rest)
  {
    assert ([t] + rest)[1..] == rest;
  }

  lemma {:induction false} CleanWords(ws: seq<Tok>, rest: seq<Tok>)
    requires Clean(rest) && forall i :: 0 <= i < |ws| ==> ws[i].Word? || ws[i] == PipeTok
    ensures Clean(ws + rest)
  {
    if ws == [] {
      assert ws + rest == rest;
    } else {
      CleanWords(ws[1..], rest);
      CleanOne(ws[0], ws[1..] + rest);
      assert ws + rest == [ws[0]] + (ws[1..] + rest);
    }
  }

  /** The text of an operand begins with something other than a closing parenthesis. */
  predicate Opens(ts: seq<Tok>)
  {
    ts != [] && ts[0] != RParen
  }

  lemma {:induction false} PrintOpens(e: Expr)
    ensures Opens(Print(e))
  {
    match e
    case Leaf(_) =>
    case Call(fn, _) => PrintOpens(fn);
    case Unary(op, operand) => if op == "-" { MinusesOpen(Print(operand)); }
    case Binary(op, left, _) => PrintOpens(left);
    case Pipe(left, _) => PrintOpens(left);
  }

  lemma MinusesOpen(ts: seq<Tok>)
    ensures Opens(Negated(ts))
  {
  }

  /** The printer writes nothing the parser would skip, whatever clean text follows. */
  lemma {:induction false} PrintClean(e: Expr, rest: seq<Tok>)
    requires Clean(rest)
    ensures Clean(Print(e) + rest)
    decreases e, 1
  {
    match e
    case Leaf(text) => CleanOne(Prim(text), rest);
    case Call(fn, args) => CallClean(e, rest);
    case Unary(op, operand) => UnaryClean(e, rest);
    case Binary(op, left, right) =>
      var prec := OperatorPrecedence(op);
      InfixClean(e, NeedsParens(left, prec, false), NeedsParens(right, prec, true), rest);
    case Pipe(left, right) => InfixClean(e, false, false, rest);
  }

  lemma {:induction false} CallClean(e: Expr, rest: seq<Tok>)
    requires Clean(rest) && e.Call?
    ensures Clean(Print(e) + rest)
    decreases e, 0
  {
    hide Clean;
    var at, close := PrintArgs(e.args), [RParen] + rest;
    CleanOne(RParen, rest);
    ArgsClean(e.args, close);
    CleanOne(LParen, at + close);
    PrintClean(e.fn, [LParen] + (at + close));
    assert Print(e) + rest == Print(e.fn) + ([LParen] + (at + close));
  }

  lemma {:induction false} UnaryClean(e: Expr, rest: seq<Tok>)
    requires Clean(rest) && e.Unary?
    ensures Clean(Print(e) + rest)
    decreases e, 0
  {
    hide Clean, Negated;
    var op, operand := e.op, e.operand;
    var parens := (op == "not" || op == "!") && NeedsParensAfterNot(operand);
    var right := MaybeGroup(operand, parens);
    OperandClean(operand, parens, rest);
    if op == "-" {
      NegatedClean(right, rest);
    } else {
      var w := Print(e)[0];
      assert Print(e) == [w] + right;
      CleanOne(w, right + rest);
      Assoc([w], right, rest);
    }
  }

  lemma {:induction false} InfixClean(e: Expr, lp: bool, rp: bool, rest: seq<Tok>)
    requires Clean(rest) && IsInfix(e)
    requires Print(e) == MaybeGroup(e.left, lp) + InfixTokens(e) + MaybeGroup(e.right, rp)
    ensures Clean(Print(e) + rest)
    decreases e, 0
  {
    hide Clean, Print, MaybeGroup;
    var lt, op, rt := MaybeGroup(e.left, lp), InfixTokens(e), MaybeGroup(e.right, rp);
    OperandClean(e.right, rp, rest);
    CleanWords(op, rt + rest);
    OperandClean(e.left, lp, op + (rt + rest));
    Regroup(lt, op, rt, rest);
  }

  lemma {:induction false} OperandClean(child: Expr, parens: bool, rest: seq<Tok>)
    requires Clean(rest)
    ensures Clean(MaybeGroup(child, parens) + rest)
    decreases child, 2
  {
    if parens {
      CleanOne(RParen, rest);
      PrintClean(child, [RParen] + rest);
      CleanOne(LParen, Print(child) + ([RParen] + rest));
      assert Group(Print(child)) + rest == [LParen] + (Print(child) + ([RParen] + rest));
    } else {
      PrintClean(child, rest);
    }
  }

  lemma {:induction false} ArgsClean(args: seq<Expr>, rest: seq<Tok>)
    requires Clean(rest)
    ensures Clean(PrintArgs(args) + rest)
    decreases args, 0
  {
    if args == [] {
      assert PrintArgs(args) + rest == rest;
    } else if |args| == 1 {
      PrintClean(args[0], rest);
    } else {
      hide Clean, Print, PrintArgs;
      var others := PrintArgs(args[1..]);
      ArgsClean(args[1..], rest);
      ArgsOpen(args[1..], rest);
      CleanOne(Comma, others + rest);
      PrintClean(args[0], [Comma] + (others + rest));
      ArgsCons(args, rest);
    }
  }

  lemma ArgsOpen(args: seq<Expr>, rest: seq<Tok>)
    requires args != []
    ensures !Starts(PrintArgs(args) + rest, RParen)
  {
    PrintOpens(args[0]);
    assert PrintArgs(args)[0] == Print(args[0])[0];
  }

  lemma ArgsCons(args: seq<Expr>, rest: seq<Tok>)
    requires |args| > 1
    ensures PrintArgs(args) + rest == Print(args[0]) + ([Comma] + (PrintArgs(args[1..]) + rest))
  {
    Regroup(Print(args[0]), [Comma], PrintArgs(args[1..]), rest);
  }

  lemma NegatedClean(ts: seq<Tok>, rest: seq<Tok>)
    requires Clean(ts + rest)
    ensures Clean(Negated(ts) + rest)
  {
    hide Clean, LeadingMinuses, MinusRun, Nest, Weight;
    var (n, tail) := LeadingMinuses(ts);
    var lead := MinusesSplit(ts);
    Assoc(lead, tail, rest);
    CleanRest(lead, tail + rest);
    MinusRunWords(n + 1);
    CleanWords(MinusRun(n + 1), tail + rest);
    Assoc(MinusRun(n + 1), tail, rest);
  }

  lemma {:induction false} MinusesSplit(ts: seq<Tok>) returns (lead: seq<Tok>)
    ensures var (n, tail) := LeadingMinuses(ts); ts == lead + tail && Weight(lead) == n && Nest(lead, 0) == Some(0)
  {
    lead := [];
    if ts != [] && (ts[0] == Word("-") || ts[0] == Word("--")) {
      var more := MinusesSplit(ts[1..]);
      lead := [ts[0]] + more;
      assert lead[1..] == more;
    }
  }

  lemma {:induction false} MinusRunWords(n: nat)
    ensures var r := MinusRun(n); Weight(r) == n && Nest(r, 0) == Some(0) && forall i :: 0 <= i < |r| ==> r[i].Word?
  {
    if n > 1 {
      MinusRunWords(n - 2);
      assert MinusRun(n)[1..] == MinusRun(n - 2);
    }
  }

  // ----- Counting tokens and nesting parentheses -----

  function TokWeight(t: Tok): nat
  {
    if t == LParen || t == RParen then 0 else if t == Word("--") then 2 else 1
  }

  /** Tokens that are not parentheses; `--` counts as the two minus signs it is made of. */
  function Weight(ts: seq<Tok>): nat
  {
    if ts == [] then 0 else TokWeight(ts[0]) + Weight(ts[1..])
  }

  /** The parenthesis depth behind the text when it is d before it; none when it closes too much. */
  function Nest(ts: seq<Tok>, d: nat): Option<nat>
  {
    if ts == [] then Some(d)
    else if ts[0] == LParen then Nest(ts[1..], d + 1)
    else if ts[0] == RParen then (if d == 0 then None else Nest(ts[1..], d - 1))
    else Nest(ts[1..], d)
  }

  predicate Balanced(ts: seq<Tok>)
  {
    Nest(ts, 0) == Some(0)
  }

  lemma {:induction false} Join(a: seq<Tok>, b: seq<Tok>, d: nat)
    ensures Weight(a + b) == Weight(a) + Weight(b)
    ensures Nest(a + b, d) == if Nest(a, d).Some? then Nest(b, Nest(a, d).value) else None
  {
    if a == [] {
      assert a + b == b;
    } else {
      assert (a + b)[1..] == a[1..] + b;
      var d' := if a[0] == LParen then d + 1 else if a[0] == RParen && d > 0 then d - 1 else d;
      Join(a[1..], b, d');
    }
  }

  lemma {:induction false} Deeper(ts: seq<Tok>, d: nat, k: nat)
    requires Nest(ts, d).Some?
    ensures Nest(ts, d + k) == Some(Nest(ts, d).value + k)
  {
    if ts != [] {
      var d' := if ts[0] == LParen then d + 1 else if ts[0] == RParen then d - 1 else d;
      Deeper(ts[1..], d', k);
    }
  }

  lemma GroupShape(ts: seq<Tok>)
    requires Balanced(ts)
    ensures Balanced(Group(ts)) && Weight(Group(ts)) == Weight(ts)
  {
    Join([LParen] + ts, [RParen], 0);
    Join([LParen], ts, 0);
    Deeper(ts, 0, 1);
  }

  /** The opening parenthesis of a group closes at its end and nowhere before. */
  lemma GroupIsTight(inner: seq<Tok>, a: seq<Tok>, b: seq<Tok>)
    requires Balanced(inner) && Group(inner) == a + b && a != [] && b != []
    ensures !Balanced(a)
  {
    var n := |a| - 1;
    var a', c := inner[..n], inner[n..];
    assert inner == a' + c;
    assert a == Group(inner)[..|a|] == [LParen] + a';
    Join(a', c, 0);
    Join([LParen], a', 0);
    Deeper(a', 0, 1);
  }

  lemma NotGrouped(e: Expr, a: seq<Tok>, b: seq<Tok>)
    requires Balanced(a) && a != [] && b != []
    ensures !Grouped(e, a + b)
  {
    var ts := a + b;
    if Grouped(e, ts) {
      var inner := ts[1..|ts| - 1];
      DerivedShape(e, 0, inner);
      assert ts == Group(inner);
      GroupIsTight(inner, a, b);
    }
  }

  /** Words, leaves and pipes at the same count are at the same place. */
  lemma SamePlace(a: seq<Tok>, b: seq<Tok>, a': seq<Tok>, b': seq<Tok>)
    requires a + b == a' + b' && Weight(a) == Weight(a') && |a| <= |a'|
    requires b != [] && TokWeight(b[0]) > 0
    ensures a == a' && b == b'
  {
    hide Weight, TokWeight;
    var mid := LongerFront(a, b, a', b');
    Join(a, mid, 0);
    if mid != [] {
      HeavyFront(mid);
    }
  }

  /** Of two cuts of one text the later one's front has more text in it. */
  lemma LongerFront(a: seq<Tok>, b: seq<Tok>, a': seq<Tok>, b': seq<Tok>) returns (mid: seq<Tok>)
    requires a + b == a' + b' && |a| <= |a'|
    ensures a' == a + mid && b == mid + b'
  {
    var all := a + b;
    mid := all[|a|..|a'|];
    assert a == all[..|a|] && a' == all[..|a'|] && b == all[|a|..] && b' == all[|a'|..];
  }

  lemma HeavyFront(ts: seq<Tok>)
    requires ts != [] && TokWeight(ts[0]) > 0
    ensures Weight(ts) > 0
  {
  }

  // ----- Sizes -----

  function Size(e: Expr): nat
    decreases e, 0
  {
    match e
    case Leaf(_) => 1
    case Call(fn, args) => Size(fn) + ArgsSize(args)
    case Unary(op, operand) => TokWeight(Word(op)) + Size(operand)
    case Binary(op, left, right) => Size(left) + Weight(OpTokens(op)) + Size(right)
    case Pipe(left, right) => Size(left) + 1 + Size(right)
  }

  function ArgsSize(args: seq<Expr>): nat
    decreases args, 0
  {
    if args == [] then 0
    else if |args| == 1 then Size(args[0])
    else Size(args[0]) + 1 + ArgsSize(args[1..])
  }

  ghost predicate Shaped(ts: seq<Tok>, n: nat)
  {
    Balanced(ts) && Weight(ts) == n
  }

  lemma ShapeJoin(a: seq<Tok>, m: nat, b: seq<Tok>, n: nat)
    requires Shaped(a, m) && Shaped(b, n)
    ensures Shaped(a + b, m + n)
  {
    Join(a, b, 0);
  }

  lemma ShapeGroup(a: seq<Tok>, n: nat)
    requires Shaped(a, n)
    ensures Shaped(Group(a), n)
  {
    GroupShape(a);
  }

  lemma ShapeOne(t: Tok)
    requires t != LParen && t != RParen
    ensures Shaped([t], TokWeight(t))
  {
  }

  lemma ShapeOp(op: string)
    ensures Shaped(OpTokens(op), Weight(OpTokens(op)))
  {
    if |OpTokens(op)| == 2 {
      var a, b := OpTokens(op)[0], OpTokens(op)[1];
      assert OpTokens(op) == [a] + [b];
      ShapeJoin([a], 1, [b], 1);
    }
  }

  lemma {:induction false} DerivedShape(e: Expr, level: int, ts: seq<Tok>)
    requires Derives(e, level, ts)
    ensures Shaped(ts, Size(e))
    decreases |ts|, 5
  {
    if Grouped(e, ts) {
      var inner := ts[1..|ts| - 1];
      DerivedShape(e, 0, inner);
      ShapeGroup(inner, Size(e));
      assert ts == Group(inner);
    } else if e.Call? {
      var i := CallSplit(e, ts);
      DerivedShape(e.fn, 9, ts[..i]);
      var at := ts[i + 1..|ts| - 1];
      DerivedArgsShape(e.args, at);
      ShapeGroup(at, ArgsSize(e.args));
      ShapeJoin(ts[..i], Size(e.fn), Group(at), ArgsSize(e.args));
      assert ts == ts[..i] + Group(at);
    } else if e.Unary? {
      DerivedShape(e.operand, 8, ts[1..]);
      ShapeOne(ts[0]);
      ShapeJoin([ts[0]], 1, ts[1..], Size(e.operand));
      assert ts == [ts[0]] + ts[1..];
    } else if IsInfix(e) {
      DerivedInfixShape(e, ts);
    } else {
      ShapeOne(ts[0]);
    }
  }

  lemma {:induction false} DerivedInfixShape(e: Expr, ts: seq<Tok>)
    requires IsInfix(e) && DerivesBare(e, ts)
    ensures Shaped(ts, Size(e))
    decreases |ts|, 4
  {
    var i := InfixSplit(e, ts);
    var op := InfixTokens(e);
    var lt, rt := ts[..i], ts[i + |op|..];
    DerivedShape(e.left, NodeLevel(e), lt);
    DerivedShape(e.right, NodeLevel(e) + 1, rt);
    InfixShape(e, lt, rt);
    assert ts == lt + op + rt;
  }

  lemma InfixShape(e: Expr, lt: seq<Tok>, rt: seq<Tok>)
    requires IsInfix(e) && Shaped(lt, Size(e.left)) && Shaped(rt, Size(e.right))
    ensures Shaped(lt + InfixTokens(e) + rt, Size(e))
  {
    if e.Binary? {
      ShapeOp(e.op);
    } else {
      ShapeOne(PipeTok);
    }
    ShapeJoin(lt, Size(e.left), InfixTokens(e), Weight(InfixTokens(e)));
    ShapeJoin(lt + InfixTokens(e), Size(e.left) + Weight(InfixTokens(e)), rt, Size(e.right));
  }

  lemma {:induction false} DerivedArgsShape(args: seq<Expr>, ts: seq<Tok>)
    requires DerivesArgs(args, ts)
    ensures Shaped(ts, ArgsSize(args))
    decreases |ts|, 6
  {
    if |args| == 1 {
      DerivedShape(args[0], 0, ts);
    } else if |args| > 1 {
      var i := CommaSplit(args, ts);
      DerivedShape(args[0], 0, ts[..i]);
      DerivedArgsShape(args[1..], ts[i + 1..]);
      CommaShape(ts[..i], Size(args[0]), ts[i + 1..], ArgsSize(args[1..]));
      assert ts == ts[..i] + [Comma] + ts[i + 1..];
    }
  }

  lemma CommaShape(a: seq<Tok>, m: nat, b: seq<Tok>, n: nat)
    requires Shaped(a, m) && Shaped(b, n)
    ensures Shaped(a + [Comma] + b, m + 1 + n)
  {
    ShapeOne(Comma);
    ShapeJoin(a, m, [Comma], 1);
    ShapeJoin(a + [Comma], m + 1, b, n);
  }

  lemma {:induction false} PrintedShape(e: Expr)
    ensures Shaped(Print(e), Size(e))
    decreases e, 1
  {
    match e
    case Leaf(text) => ShapeOne(Prim(text));
    case Call(fn, args) =>
      PrintedShape(fn);
      PrintedArgsShape(args);
      ShapeGroup(PrintArgs(args), ArgsSize(args));
      ShapeJoin(Print(fn), Size(fn), Group(PrintArgs(args)), ArgsSize(args));
    case Unary(op, operand) =>
      var parens := (op == "not" || op == "!") && NeedsParensAfterNot(operand);
      OperandShape(operand, parens);
      if op == "-" {
        NegatedShape(Print(operand), Size(operand));
      } else {
        ShapeOne(Print(e)[0]);
        ShapeJoin([Print(e)[0]], TokWeight(Word(op)), MaybeGroup(operand, parens), Size(operand));
      }
    case Binary(op, left, right) =>
      var prec := OperatorPrecedence(op);
      OperandShape(left, NeedsParens(left, prec, false));
      OperandShape(right, NeedsParens(right, prec, true));
      InfixShape(e, PrintOperand(left, prec, false), PrintOperand(right, prec, true));
    case Pipe(left, right) =>
      PrintedShape(left);
      PrintedShape(right);
      InfixShape(e, Print(left), Print(right));
  }

  lemma {:induction false} OperandShape(child: Expr, parens: bool)
    ensures Shaped(MaybeGroup(child, parens), Size(child))
    decreases child, 2
  {
    PrintedShape(child);
    if parens {
      ShapeGroup(Print(child), Size(child));
    }
  }

  lemma {:induction false} PrintedArgsShape(args: seq<Expr>)
    ensures Shaped(PrintArgs(args), ArgsSize(args))
    decreases args, 0
  {
    if |args| == 1 {
      PrintedShape(args[0]);
    } else if |args| > 1 {
      PrintedShape(args[0]);
      PrintedArgsShape(args[1..]);
      CommaShape(Print(args[0]), Size(args[0]), PrintArgs(args[1..]), ArgsSize(args[1..]));
    }
  }

  lemma NegatedShape(ts: seq<Tok>, n: nat)
    requires Shaped(ts, n)
    ensures Shaped(Negated(ts), 1 + n)
  {
    var (k, tail) := LeadingMinuses(ts);
    var lead := MinusesSplit(ts);
    Join(lead, tail, 0);
    MinusRunWords(k + 1);
    Join(MinusRun(k + 1), tail, 0);
  }

  // ----- Only agreed trees round-trip -----

  /** A tree whose own printed text derives it, at some level, is agreed and stands at that level. */
  lemma {:induction false} DerivedAgrees(e: Expr, level: nat)
    requires Derives(e, level, Print(e))
    ensures Agreed(e) && NodeLevel(e) >= level
    decreases e, 1
  {
    match e
    case Leaf(text) =>
    case Call(fn, args) => CallAgrees(e);
    case Unary(op, operand) => UnaryAgrees(e);
    case Binary(op, left, right) =>
      var prec := OperatorPrecedence(op);
      InfixAgrees(e, NeedsParens(left, prec, false), NeedsParens(right, prec, true));
    case Pipe(left, right) => InfixAgrees(e, false, false);
  }

  lemma {:induction false} OperandAgrees(child: Expr, parens: bool, level: nat)
    requires Derives(child, level, MaybeGroup(child, parens)) && (parens ==> IsInfix(child))
    ensures Agreed(child) && Stands(child, parens, level)
    decreases child, 2
  {
    hide Weight, Balanced, DerivesArgs, DerivesBare, InfixAt, Print;
    if !parens {
      DerivedAgrees(child, level);
    } else {
      var ts := Group(Print(child));
      assert ts[1..|ts| - 1] == Print(child);
      if Grouped(child, ts) {
        DerivedAgrees(child, 0);
      } else {
        var i := InfixSplit(child, ts);
        DerivedShape(child.left, NodeLevel(child), ts[..i]);
        PrintedShape(child);
        GroupIsTight(Print(child), ts[..i], ts[i..]);
        assert false;
      }
    }
  }

  lemma {:induction false} InfixAgrees(e: Expr, lp: bool, rp: bool)
    requires IsInfix(e) && Print(e) == MaybeGroup(e.left, lp) + InfixTokens(e) + MaybeGroup(e.right, rp)
    requires (lp ==> IsInfix(e.left)) && (rp ==> IsInfix(e.right))
    requires DerivesBare(e, Print(e)) || Grouped(e, Print(e))
    ensures DerivesBare(e, Print(e)) && !Grouped(e, Print(e)) && NodeLevel(e) >= 0
    ensures Agreed(e.left) && Agreed(e.right)
    ensures Stands(e.left, lp, NodeLevel(e)) && Stands(e.right, rp, NodeLevel(e) + 1)
    decreases e, 0
  {
    hide Print, MaybeGroup, Derives, Weight, Balanced, Size;
    var ts, op := Print(e), InfixTokens(e);
    var lt, rt := MaybeGroup(e.left, lp), MaybeGroup(e.right, rp);
    OperandShape(e.left, lp);
    OperandOpens(e.left, lp);
    Assoc(lt, op, rt);
    NotGrouped(e, lt, op + rt);
    var i := InfixSplit(e, ts);
    DerivedShape(e.left, NodeLevel(e), ts[..i]);
    OpHeavy(e);
    OperatorPlace(ts, i, lt, op, rt);
    OperandAgrees(e.left, lp, NodeLevel(e));
    OperandAgrees(e.right, rp, NodeLevel(e) + 1);
  }

  lemma OperandOpens(child: Expr, parens: bool)
    ensures MaybeGroup(child, parens) != []
  {
    PrintOpens(child);
  }

  /** The operator of the derivation is the operator that was printed. */
  lemma OperatorPlace(ts: seq<Tok>, i: nat, lt: seq<Tok>, op: seq<Tok>, rt: seq<Tok>)
    requires ts == lt + op + rt && i + |op| < |ts| && ts[i..i + |op|] == op && op != [] && TokWeight(op[0]) > 0
    requires Weight(ts[..i]) == Weight(lt)
    ensures ts[..i] == lt && ts[i + |op|..] == rt
  {
    hide Weight;
    Assoc(lt, op, rt);
    assert ts == ts[..i] + ts[i..];
    assert ts[i..][0] == ts[i..i + |op|][0];
    if i <= |lt| {
      SamePlace(ts[..i], ts[i..], lt, op + rt);
    } else {
      SamePlace(lt, op + rt, ts[..i], ts[i..]);
    }
  }

  lemma OpHeavy(e: Expr)
    requires IsInfix(e)
    ensures TokWeight(InfixTokens(e)[0]) > 0
  {
  }

  lemma {:induction false} UnaryAgrees(e: Expr)
    requires e.Unary? && (DerivesBare(e, Print(e)) || Grouped(e, Print(e)))
    ensures Agreed(e) && !Grouped(e, Print(e))
    decreases e, 0
  {
    var op, operand := e.op, e.operand;
    var parens := (op == "not" || op == "!") && NeedsParensAfterNot(operand);
    if op == "-" {
      MinusAlone(Print(operand));
    }
    assert Print(e)[1..] == MaybeGroup(operand, parens);
    OperandAgrees(operand, parens, 8);
  }

  /** A minus sign stays a token of its own only before a text that does not begin with one. */
  lemma MinusAlone(ts: seq<Tok>)
    ensures var r := Negated(ts);
      r != [] && r[0].Word? && (PrefixWord(r[0].lexeme) ==> r == [Word("-")] + ts && !Starts(ts, Word("-")) && !Starts(ts, Word("--")))
  {
    var (n, rest) := LeadingMinuses(ts);
    if Starts(ts, Word("-")) || Starts(ts, Word("--")) {
      assert n > LeadingMinuses(ts[1..]).0;
    }
    if n == 0 {
      assert MinusRun(n + 1) == [Word("-")] && rest == ts;
    } else {
      assert MinusRun(n + 1)[0] == Word("--");
      assert !PrefixWord("--");
    }
  }

  lemma {:induction false} CallAgrees(e: Expr)
    requires e.Call? && (DerivesBare(e, Print(e)) || Grouped(e, Print(e)))
    ensures Agreed(e) && !Grouped(e, Print(e))
    decreases e, 0
  {
    hide Weight, Balanced, Derives, CallAt, Stands;
    var ts, ft, at := Print(e), Print(e.fn), PrintArgs(e.args);
    PrintedShape(e.fn);
    PrintedArgsShape(e.args);
    PrintOpens(e.fn);
    NotGrouped(e, ft, Group(at));
    var i := CallSplit(e, ts);
    DerivedShape(e.fn, 9, ts[..i]);
    var at' := ts[i + 1..|ts| - 1];
    DerivedArgsShape(e.args, at');
    assert ts == ts[..i] + Group(at');
    SameCall(ts[..i], at', ft, at);
    DerivedAgrees(e.fn, 9);
    ArgsAgree(e.args);
  }

  /** A text splits in one way into a balanced text and a group. */
  lemma SameCall(a: seq<Tok>, x: seq<Tok>, b: seq<Tok>, y: seq<Tok>)
    requires a + Group(x) == b + Group(y)
    requires Balanced(a) && Balanced(b) && Balanced(x) && Balanced(y)
    ensures a == b && x == y
  {
    NoLonger(a, x, b, y);
    NoLonger(b, y, a, x);
    assert a == (a + Group(x))[..|a|] == b;
    assert Group(x) == (a + Group(x))[|a|..] == Group(y);
    assert x == Group(x)[1..|x| + 1];
  }

  lemma NoLonger(a: seq<Tok>, x: seq<Tok>, b: seq<Tok>, y: seq<Tok>)
    requires a + Group(x) == b + Group(y)
    requires Balanced(a) && Balanced(b) && Balanced(x)
    ensures |b| <= |a|
  {
    if |a| < |b| {
      var mid := b[|a|..];
      assert b == (a + Group(x))[..|b|];
      assert b == a + mid;
      assert Group(x) == (a + Group(x))[|a|..] == (b + Group(y))[|a|..] == mid + Group(y);
      Join(a, mid, 0);
      GroupIsTight(x, mid, Group(y));
    }
  }

  lemma {:induction false} ArgsAgree(args: seq<Expr>)
    requires DerivesArgs(args, PrintArgs(args))
    ensures forall k :: 0 <= k < |args| ==> Agreed(args[k])
    decreases args, 0
  {
    if |args| == 1 {
      DerivedAgrees(args[0], 0);
    } else if |args| > 1 {
      var ts, ft, ot := PrintArgs(args), Print(args[0]), PrintArgs(args[1..]);
      var i := CommaSplit(args, ts);
      DerivedShape(args[0], 0, ts[..i]);
      PrintedShape(args[0]);
      assert ts == ts[..i] + ts[i..] && ts == ft + ([Comma] + ot);
      if i <= |ft| {
        SamePlace(ts[..i], ts[i..], ft, [Comma] + ot);
      } else {
        SamePlace(ft, [Comma] + ot, ts[..i], ts[i..]);
      }
      assert ts[i + 1..] == ot;
      DerivedAgrees(args[0], 0);
      ArgsAgree(args[1..]);
    }
  }

  /** The exact set of round-tripping trees: the printed text, up to the end of the input, parses without error to the tree it was printed from if and only if the tree is agreed. */
  lemma RoundTripExactly(e: Expr)
    ensures ParseExpression(Print(e) + [Eof]) == Parse(e, [Eof], 0) <==> Agreed(e)
  {
    if Agreed(e) {
      PrintedParses(e, [Eof]);
    }
    if ParseExpression(Print(e) + [Eof]) == Parse(e, [Eof], 0) {
      CleanOne(Eof, []);
      PrintClean(e, [Eof]);
      var done := Sound(0, Print(e) + [Eof]);
      assert done == (done + [Eof])[..|done|] == (Print(e) + [Eof])[..|done|] == Print(e);
      DerivedAgrees(e, 0);
    }
  }

  /** A concrete loss: `a == (b < c)` is printed without parentheses and comes back as `(a == b) < c`. */
  lemma ComparisonRegrouped()
    ensures var a, b, c := Leaf("a"), Leaf("b"), Leaf("c");
      var e, back := Binary("==", a, Binary("<", b, c)), Binary("<", Binary("==", a, b), c);
      !Agreed(e) && ParseExpression(Print(e) + [Eof]) == Parse(back, [Eof], 0)
  {
    hide ParseLevel, Derives, Print;
    var a, b, c := Leaf("a"), Leaf("b"), Leaf("c");
    var e, back := Binary("==", a, Binary("<", b, c)), Binary("<", Binary("==", a, b), c);
    ComparisonPrinted(a, b, c);
    ComparisonDerives(a, b, c);
    Complete(back, 0, Print(e), [Eof]);
  }

  /** The right operand is printed without parentheses. */
  lemma ComparisonPrinted(a: Expr, b: Expr, c: Expr)
    requires a == Leaf("a") && b == Leaf("b") && c == Leaf("c")
    ensures Print(Binary("==", a, Binary("<", b, c))) == [Prim("a")] + [Word("==")] + [Prim("b")] + [Word("<")] + [Prim("c")]
  {
    var inner := Binary("<", b, c);
    assert Print(inner) == [Prim("b")] + [Word("<")] + [Prim("c")];
    assert Print(Binary("==", a, inner)) == [Prim("a")] + [Word("==")] + Print(inner);
  }

  lemma ComparisonDerives(a: Expr, b: Expr, c: Expr)
    requires a == Leaf("a") && b == Leaf("b") && c == Leaf("c")
    ensures Derives(Binary("<", Binary("==", a, b), c), 0, [Prim("a")] + [Word("==")] + [Prim("b")] + [Word("<")] + [Prim("c")])
  {
    var left := Binary("==", a, b);
    InfixDerives(left, [Prim("a")], [Prim("b")]);
    InfixDerives(Binary("<", left, c), [Prim("a")] + [Word("==")] + [Prim("b")], [Prim("c")]);
  }
}
