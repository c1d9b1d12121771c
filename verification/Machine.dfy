/** Facts about the IR machine: scopes, jumps, and when evaluating again changes nothing. */
module Machine {
  import opened Prelude
  import opened Ir

  // ----- Traces -----

  /** The calls of a trace that are not to pure functions. */
  function Visible(t: Trace, pure: set<string>): Trace
  {
    if |t| == 0 then []
    else
      var before, event := t[..|t| - 1], t[|t| - 1];
      if event.fn in pure then Visible(before, pure) else Visible(before, pure) + [event]
  }

  lemma VisibleSnoc(t: Trace, e: Event, pure: set<string>)
    ensures Visible(t + [e], pure) == Visible(t, pure) + (if e.fn in pure then [] else [e])
  {
    assert (t + [e])[..|t|] == t;
  }

  lemma {:induction false} VisibleAll(t: Trace)
    ensures Visible(t, {}) == t
  {
    if |t| != 0 {
      VisibleAll(t[..|t| - 1]);
      assert t == t[..|t| - 1] + [t[|t| - 1]];
    }
  }

  ghost predicate Harmless(o: Oracle, event: Event, t: Trace, u: Trace)
  {
    o(t, event) == o(u, event) && o(t, event).Returns?
  }

  ghost predicate SameReply(o: Oracle, event: Event, t: Trace, u: Trace)
  {
    o(t, event) == o(u, event)
  }

  /** Functions in `pure` depend on their arguments alone and do not panic; the others never notice calls to them. */
  ghost predicate Respects(o: Oracle, pure: set<string>)
  {
    && (forall t: Trace, u: Trace, event: Event :: event.fn in pure ==> Harmless(o, event, t, u))
    && (forall t: Trace, u: Trace, event: Event :: Visible(t, pure) == Visible(u, pure) ==> SameReply(o, event, t, u))
  }

  /** With nothing declared pure, every oracle qualifies. */
  lemma EveryOracleRespectsNothing(o: Oracle)
    ensures Respects(o, {})
  {
    forall t: Trace, u: Trace, event: Event | Visible(t, {}) == Visible(u, {})
      ensures SameReply(o, event, t, u)
    {
      VisibleAll(t);
      VisibleAll(u);
    }
  }

  // ----- Scopes -----

  ghost predicate AgreeOn(f: Frames, g: Frames, names: set<string>)
  {
    forall x :: x in names ==> Lookup(f, x) == Lookup(g, x)
  }

  lemma {:induction false} LookupUpdate(f: Frames, x: string, v: Value, y: string)
    ensures Lookup(Update(f, x, v), y) == if x == y && Lookup(f, x).Some? then Some(v) else Lookup(f, y)
  {
    if f.Scope? {
      LookupUpdate(f.outer, x, v, y);
    }
  }

  // ----- Expressions -----

  function Vars(e: Expr): set<string>
  {
    match e
    case Var(name) => {name}
    case Literal(_) => {}
    case New(_, _) => {}
    case Select(operand, _) => Vars(operand)
    case Explain(_, err) => Vars(err)
    case Describe(_, err) => Vars(err)
    case Call(_, args, _) => VarsOfAll(args)
  }

  function VarsOfAll(es: seq<Expr>): set<string>
  {
    if es == [] then {} else Vars(es[0]) + VarsOfAll(es[1..])
  }

  /** The functions an expression calls. */
  function Calls(e: Expr): set<string>
  {
    match e
    case Var(_) => {}
    case Literal(_) => {}
    case New(_, _) => {}
    case Select(operand, _) => Calls(operand)
    case Explain(_, err) => Calls(err)
    case Describe(_, err) => Calls(err)
    case Call(fn, args, _) => {fn} + CallsOfAll(args)
  }

  function CallsOfAll(es: seq<Expr>): set<string>
  {
    if es == [] then {} else Calls(es[0]) + CallsOfAll(es[1..])
  }

  /** Same result, and traces that differ in pure calls only. */
  ghost predicate Alike(r: Evaluation, s: Evaluation, pure: set<string>)
  {
    match r
    case Val(values, trace) => s.Val? && s.values == values && Visible(s.trace, pure) == Visible(trace, pure)
    case Boom(value, trace) => s.Boom? && s.value == value && Visible(s.trace, pure) == Visible(trace, pure)
    case Meaningless => s.Meaningless?
  }

  lemma AskAlike(o: Oracle, pure: set<string>, t: Trace, u: Trace, event: Event)
    requires Respects(o, pure) && Visible(t, pure) == Visible(u, pure)
    ensures Alike(Ask(o, t, event), Ask(o, u, event), pure)
  {
    assert SameReply(o, event, t, u);
    VisibleSnoc(t, event, pure);
    VisibleSnoc(u, event, pure);
    var t', u' := t + [event], u + [event];
    assert Visible(t', pure) == Visible(u', pure);
    var reply := o(t, event);
    match reply
    case Returns(values) =>
      assert Ask(o, t, event) == Val(values, t');
      assert Ask(o, u, event) == Val(values, u');
    case Panics(value) =>
      assert Ask(o, t, event) == Boom(value, t');
      assert Ask(o, u, event) == Boom(value, u');
  }

  /** Evaluating from visibly equal histories in scopes that agree gives like results. */
  lemma {:induction false} EvalAlike(e: Expr, f: Frames, g: Frames, t: Trace, u: Trace, o: Oracle, pure: set<string>)
    requires Respects(o, pure) && Visible(t, pure) == Visible(u, pure) && AgreeOn(f, g, Vars(e))
    ensures Alike(Eval(e, f, t, o), Eval(e, g, u, o), pure)
    decreases e
  {
    match e
    case Var(_) =>
    case Literal(_) =>
    case New(_, _) =>
    case Select(operand, _) => EvalAlike(operand, f, g, t, u, o, pure);
    case Explain(_, err) => EvalAlike(err, f, g, t, u, o, pure);
    case Describe(_, err) => EvalAlike(err, f, g, t, u, o, pure);
    case Call(fn, args, spread) =>
      EvalAllAlike(args, f, g, t, u, o, pure);
      var r, s := EvalAll(args, f, t, o), EvalAll(args, g, u, o);
      if r.Val? {
        AskAlike(o, pure, r.trace, s.trace, Event(fn, r.values, spread));
      }
  }

  lemma {:induction false} EvalAllAlike(es: seq<Expr>, f: Frames, g: Frames, t: Trace, u: Trace, o: Oracle, pure: set<string>)
    requires Respects(o, pure) && Visible(t, pure) == Visible(u, pure) && AgreeOn(f, g, VarsOfAll(es))
    ensures Alike(EvalAll(es, f, t, o), EvalAll(es, g, u, o), pure)
    decreases es
  {
    if es != [] {
      EvalAlike(es[0], f, g, t, u, o, pure);
      var r, s := Single(Eval(es[0], f, t, o)), Single(Eval(es[0], g, u, o));
      if r.Val? {
        EvalAllAlike(es[1..], f, g, r.trace, s.trace, o, pure);
      }
    }
  }

  lemma SameTrace(r: Evaluation, s: Evaluation)
    requires Alike(r, s, {})
    ensures r == s
  {
    if r.Val? || r.Boom? {
      VisibleAll(r.trace);
      VisibleAll(s.trace);
    }
  }

  /** Evaluating looks at the variables it mentions and no others. */
  lemma EvalSame(e: Expr, f: Frames, g: Frames, t: Trace, o: Oracle)
    requires AgreeOn(f, g, Vars(e))
    ensures Eval(e, f, t, o) == Eval(e, g, t, o)
  {
    EveryOracleRespectsNothing(o);
    EvalAlike(e, f, g, t, t, o, {});
    SameTrace(Eval(e, f, t, o), Eval(e, g, t, o));
  }

  /** An expression that calls pure functions only leaves the visible trace alone. */
  lemma {:induction false} PureEval(e: Expr, f: Frames, t: Trace, o: Oracle, pure: set<string>)
    requires Respects(o, pure) && Calls(e) <= pure
    ensures var r := Eval(e, f, t, o); !r.Boom? && (r.Val? ==> Visible(r.trace, pure) == Visible(t, pure))
    decreases e
  {
    match e
    case Var(_) =>
    case Literal(_) =>
    case New(_, _) =>
    case Select(operand, _) => PureEval(operand, f, t, o, pure);
    case Explain(_, err) => PureEval(err, f, t, o, pure);
    case Describe(_, err) => PureEval(err, f, t, o, pure);
    case Call(fn, args, spread) =>
      PureEvalAll(args, f, t, o, pure);
      var r := EvalAll(args, f, t, o);
      if r.Val? {
        var event := Event(fn, r.values, spread);
        assert Harmless(o, event, r.trace, r.trace);
        VisibleSnoc(r.trace, event, pure);
      }
  }

  lemma {:induction false} PureEvalAll(es: seq<Expr>, f: Frames, t: Trace, o: Oracle, pure: set<string>)
    requires Respects(o, pure) && CallsOfAll(es) <= pure
    ensures var r := EvalAll(es, f, t, o); !r.Boom? && (r.Val? ==> Visible(r.trace, pure) == Visible(t, pure))
    decreases es
  {
    if es != [] {
      PureEval(es[0], f, t, o, pure);
      var r := Single(Eval(es[0], f, t, o));
      if r.Val? {
        PureEvalAll(es[1..], f, r.trace, o, pure);
      }
    }
  }

  /** Pure calls can be made again later: same values, nothing visible. */
  lemma {:induction false} EvalAgain(e: Expr, f: Frames, g: Frames, t: Trace, u: Trace, o: Oracle, pure: set<string>)
    requires Respects(o, pure) && Calls(e) <= pure && AgreeOn(f, g, Vars(e)) && Eval(e, f, t, o).Val?
    ensures var r, s := Eval(e, f, t, o), Eval(e, g, u, o);
      s.Val? && s.values == r.values && Visible(s.trace, pure) == Visible(u, pure)
    decreases e
  {
    PureEval(e, g, u, o, pure);
    match e
    case Var(_) =>
    case Literal(_) =>
    case New(_, _) =>
    case Select(operand, _) => EvalAgain(operand, f, g, t, u, o, pure);
    case Explain(_, err) => EvalAgain(err, f, g, t, u, o, pure);
    case Describe(_, err) => EvalAgain(err, f, g, t, u, o, pure);
    case Call(fn, args, spread) =>
      EvalAllAgain(args, f, g, t, u, o, pure);
      var r, s := EvalAll(args, f, t, o), EvalAll(args, g, u, o);
      assert Harmless(o, Event(fn, r.values, spread), r.trace, s.trace);
  }

  lemma {:induction false} EvalAllAgain(es: seq<Expr>, f: Frames, g: Frames, t: Trace, u: Trace, o: Oracle, pure: set<string>)
    requires Respects(o, pure) && CallsOfAll(es) <= pure && AgreeOn(f, g, VarsOfAll(es)) && EvalAll(es, f, t, o).Val?
    ensures var r, s := EvalAll(es, f, t, o), EvalAll(es, g, u, o); s.Val? && s.values == r.values
    decreases es
  {
    if es != [] {
      EvalAgain(es[0], f, g, t, u, o, pure);
      EvalAllAgain(es[1..], f, g, Eval(es[0], f, t, o).trace, Eval(es[0], g, u, o).trace, o, pure);
    }
  }

  // ----- Blocks -----

  predicate NoLabels(nodes: seq<Node>)
  {
    forall i :: 0 <= i < |nodes| ==> !nodes[i].Label?
  }

  lemma {:induction false} FindNoLabel(nodes: seq<Node>, dest: string)
    requires NoLabels(nodes)
    ensures FindLabel(nodes, dest) == |nodes|
  {
    if nodes != [] {
      FindNoLabel(nodes[1..], dest);
    }
  }

  /** What a block does after its first node. */
  function Then(out: Outcome, rest: seq<Node>, o: Oracle): Outcome
  {
    match out
    case Done(st) => ExecBlock(rest, st, o)
    case Jump(dest, st) =>
      var k := FindLabel(rest, dest);
      if k < |rest| then ExecBlock(rest[k..], st, o) else out
    case _ => out
  }

  lemma ExecCons(n: Node, rest: seq<Node>, st: State, o: Oracle)
    ensures ExecBlock([n] + rest, st, o) == Then(ExecNode(n, st, o), rest, o)
  {
    var nodes := [n] + rest;
    assert nodes[1..] == rest;
    assert forall k :: 0 <= k < |rest| ==> nodes[1 + k..] == rest[k..];
  }

  lemma {:induction false} ExecAppend(a: seq<Node>, b: seq<Node>, st: State, o: Oracle)
    requires NoLabels(a)
    ensures ExecBlock(a + b, st, o) == Then(ExecBlock(a, st, o), b, o)
  {
    hide ExecNode, Eval, EvalAll;
    if a == [] {
      assert a + b == b;
    } else {
      hide ExecBlock;
      var n, rest := a[0], a[1..];
      assert a == [n] + rest && a + b == [n] + (rest + b);
      ExecCons(n, rest, st, o);
      ExecCons(n, rest + b, st, o);
      var out := ExecNode(n, st, o);
      if out.Done? {
        ExecAppend(rest, b, out.st, o);
      } else if out.Jump? {
        JumpPast(rest, b, out.dest, out.st, o);
      }
    }
  }

  /** A jump passes what has no labels. */
  lemma JumpPast(a: seq<Node>, b: seq<Node>, dest: string, st: State, o: Oracle)
    requires NoLabels(a)
    ensures Then(Jump(dest, st), a, o) == Jump(dest, st)
    ensures Then(Jump(dest, st), a + b, o) == Then(Jump(dest, st), b, o)
  {
    FindNoLabel(a, dest);
    FindPast(a, b, dest);
    var k := FindLabel(b, dest);
    assert (a + b)[|a| + k..] == b[k..];
  }

  lemma {:induction false} FindPast(a: seq<Node>, b: seq<Node>, dest: string)
    requires NoLabels(a)
    ensures FindLabel(a + b, dest) == |a| + FindLabel(b, dest)
  {
    if a == [] {
      assert a + b == b;
    } else {
      assert (a + b)[1..] == a[1..] + b;
      FindPast(a[1..], b, dest);
    }
  }
}
