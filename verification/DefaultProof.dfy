/**
 Default-value handlers (`onerr 8080`) in the inline form: where the default
 reaches the variable, and where it is lost.
 */
module DefaultProof {
  import opened Prelude
  import opened Ir
  import opened Names
  import opened Pipes
  import opened Lowering
  import opened Machine
  import opened StepProof
  import opened HandlerProof
  import opened ChainProof
  import opened StatementProof
  import opened Signatures

  /** `onerr d` for a call-free value d. */
  function DefaultClause(d: Expr): Clause
  {
    Clause(false, false, false, "", Some(DefaultHandler(Mention(d))))
  }

  /** What `x := chain onerr d`, `x = chain onerr d` and `chain onerr d` mean: the chain's value, or the default once a step fails. */
  function RunWithDefault(c: Chain, form: Form, d: Value, f: Frames, t: Trace, o: Oracle): Outcome
  {
    DefaultOutcome(RunChain(c, f, t, o), form, d, f)
  }

  function DefaultOutcome(r: Run, form: Form, d: Value, f: Frames): Outcome
  {
    match r
    case Got(v, t') => Done(State(Put(form, f, v), t'))
    case Failed(_, t') => Done(State(Put(form, f, d), t'))
    case Panicking(p, t') => Leave(Panicked(p), t')
    case Malformed => Stuck
  }

  /** The variable declared, or updated; as a statement the value goes nowhere. */
  function Put(form: Form, f: Frames, v: Value): Frames
  {
    match form
    case DeclForm(x) => Declare(f, x, v)
    case AssignForm(x) => Update(f, x, v)
    case StmtForm => f
  }

  /** The chain's only error check is that of its last step. */
  predicate OnlyLastFails(c: Chain)
  {
    !c.baseFallible && c.steps != [] && Last(c.steps).kind == Fallible && !StepsCanFail(Front(c.steps))
  }

  /** The body of the check that assigns the default. */
  lemma DefaultRuns(d: Expr, zeros: seq<Zero>, x: string, errVar: string, v: Value, f: Frames, t: Trace, o: Oracle)
    requires Peek(d, f) == Some(v) && x != "_" && Lookup(f, x).Some? && f.Scope?
    ensures CloseScope(ExecBlock(LowerHandler(DefaultClause(d), zeros, [x], errVar), InnerScope(State(f, t)), o))
      == Done(State(Update(f, x, v), t))
  {
    var inner := Scope(f, map[]);
    var st := State(inner, t);
    var assign := Assign([x], d, false);
    assert Peek(d, inner) == Some(v) by {
      PeekAgree(d, inner, f);
    }
    PeekEval(d, inner, t, o);
    assert AssignAll(inner, [x], [v], false) == Update(inner, x, v) by {
      assert [x][1..] == [] && [v][1..] == [];
    }
    assert Assignable(inner, [x], false);
    ExecOne(assign, st, o);
    ExecOne(RawStmt([assign]), st, o);
    assert LowerHandler(DefaultClause(d), zeros, [x], errVar) == [RawStmt([assign])];
  }

  /** A check whose handler completes: either way the block goes on. */
  lemma CheckGoesOn(stepNum: nat, names: seq<string>, call: Expr, errVar: string, body: seq<Node>, rest: seq<Node>, st: State, next: State, o: Oracle)
    requires 1 <= |names| <= 2 && "_" !in names && errVar == Last(names) && !DeclaredHere(st.frames, errVar)
    requires var r := Eval(call, st.frames, st.trace, o); r.Val? && |r.values| == |names|
    requires var r := Eval(call, st.frames, st.trace, o);
      var st' := State(AfterAssign(st.frames, names, r.values), r.trace);
      if Last(r.values) == Nil then next == st' else CloseScope(ExecBlock(body, InnerScope(st'), o)) == Done(next)
    ensures ExecBlock(Checked(stepNum, names, call, errVar, body) + rest, st, o) == ExecBlock(rest, next, o)
  {
    hide ExecBlock, Eval, EvalAll;
    var r := Eval(call, st.frames, st.trace, o);
    var st' := State(AfterAssign(st.frames, names, r.values), r.trace);
    var comment, assign, check := StepComment(stepNum), Assign(names, call, true), IfErrCheck(errVar, body);
    assert Checked(stepNum, names, call, errVar, body) + rest == [comment] + ([assign] + ([check] + rest));
    Proceeds(comment, [assign] + ([check] + rest), st, st, o);
    RunAssign(names, call, st, o);
    Proceeds(assign, [check] + rest, st, st', o);
    assert Lookup(st'.frames, errVar) == Some(Last(r.values));
    Proceeds(check, rest, st', next, o);
  }

  /** On a step that is not the target's own, the default handler is no handler: the chain goes on with whatever the failed call returned. */
  lemma DefaultIgnoredInside(d: Expr, zeros: seq<Zero>, stepNum: nat, names: seq<string>, call: Expr, errVar: string, rest: seq<Node>, st: State, o: Oracle)
    requires 1 <= |names| <= 2 && "_" !in names && errVar == Last(names) && !DeclaredHere(st.frames, errVar)
    requires var r := Eval(call, st.frames, st.trace, o); r.Val? && |r.values| == |names|
    ensures var r := Eval(call, st.frames, st.trace, o);
      ExecBlock(Checked(stepNum, names, call, errVar, LowerHandler(DefaultClause(d), zeros, [], errVar)) + rest, st, o)
        == ExecBlock(rest, State(AfterAssign(st.frames, names, r.values), r.trace), o)
  {
    var r := Eval(call, st.frames, st.trace, o);
    var st' := State(AfterAssign(st.frames, names, r.values), r.trace);
    var body := LowerHandler(DefaultClause(d), zeros, [], errVar);
    assert body == [RawStmt([])];
    ExecOne(RawStmt([]), InnerScope(st'), o);
    CheckGoesOn(stepNum, names, call, errVar, body, rest, st, st', o);
  }

  /** In the assignment form the default is assigned and then overwritten: the variable ends with what the failed call returned. */
  lemma DefaultOverwritten(d: Expr, v: Value, zeros: seq<Zero>, stepNum: nat, temp: string, errVar: string, call: Expr, x: string, st: State, o: Oracle)
    requires temp != errVar && temp != "_" && errVar != "_" && x != "_" && x != temp && x != errVar && Vars(d) !! {temp, errVar}
    requires st.frames.Scope? && !DeclaredHere(st.frames, errVar) && Lookup(st.frames, x).Some? && Peek(d, st.frames) == Some(v)
    requires var r := Eval(call, st.frames, st.trace, o); r.Val? && |r.values| == 2 && r.values[1] != Nil
    ensures var r := Eval(call, st.frames, st.trace, o);
      var out := ExecBlock(Checked(stepNum, [temp, errVar], call, errVar, LowerHandler(DefaultClause(d), zeros, [x], errVar))
                           + FinalNodes(AssignForm(x), Var(temp)), st, o);
      out.Done? && Lookup(out.st.frames, x) == Some(r.values[0])
  {
    var r := Eval(call, st.frames, st.trace, o);
    var f' := AfterAssign(st.frames, [temp, errVar], r.values);
    PeekAgree(d, f', st.frames);
    DefaultRuns(d, zeros, x, errVar, v, f', r.trace, o);
    var next := State(Update(f', x, v), r.trace);
    var final := Assign([x], Var(temp), false);
    CheckGoesOn(stepNum, [temp, errVar], call, errVar, LowerHandler(DefaultClause(d), zeros, [x], errVar), [final], st, next, o);
    LookupUpdate(f', x, v, temp);
    LookupUpdate(f', x, v, x);
    ExecOne(final, next, o);
    assert Assignable(next.frames, [x], false);
    assert AssignAll(next.frames, [x], [r.values[0]], false) == Update(next.frames, x, r.values[0]) by {
      assert [x][1..] == [] && [r.values[0]][1..] == [];
    }
    LookupUpdate(next.frames, x, r.values[0], x);
  }

  // ----- Where the default arrives -----

  /** In front of any steps, plain ones emit nothing. */
  lemma {:induction false} PlainPrefixLowers(front: seq<Step>, tail: seq<Step>, current: Expr, counter: nat, stepNum: nat, reserved: set<string>, mode: Mode)
    requires !StepsCanFail(front)
    ensures var l := LowerSteps(front, current, counter, stepNum, reserved, mode);
      l.Some? ==> (
        && l.value.nodes == [] && l.value.counter == counter && l.value.stepNum == stepNum
        && LowerSteps(front + tail, current, counter, stepNum, reserved, mode)
           == LowerSteps(tail, l.value.current, counter, stepNum, reserved, mode))
    decreases |front|
  {
    if front == [] {
      assert front + tail == tail;
    } else {
      var steps := front + tail;
      assert steps[0] == front[0] && steps[1..] == front[1..] + tail;
      CanFailTail(front);
      var call := StepCall(front[0].target, current);
      if call.Some? {
        PlainPrefixLowers(front[1..], tail, call.value, counter, stepNum, reserved, mode);
        PlainLowers(front, current, counter, stepNum, reserved, mode);
        PlainLowers(steps, current, counter, stepNum, reserved, mode);
      }
    }
  }

  lemma {:induction false} RunPrefix(front: seq<Step>, last: Step, v: Value, f: Frames, t: Trace, o: Oracle)
    ensures var r := RunSteps(front, v, f, t, o);
      RunSteps(front + [last], v, f, t, o) == if r.Got? then RunSteps([last], r.value, f, r.trace, o) else r
    decreases |front|
  {
    var steps := front + [last];
    if front == [] {
      assert steps == [last];
    } else {
      assert steps[0] == front[0] && steps[1..] == front[1..] + [last];
      var r := Settle(front[0].kind, v, Invoke(front[0].target, v, f, t, o));
      if r.Got? {
        RunPrefix(front[1..], last, r.value, f, r.trace, o);
      }
    }
  }

  lemma {:induction false} PlainNeedsNothing(steps: seq<Step>, pending: set<string>)
    requires !StepsCanFail(steps)
    ensures PendingCallsPure(steps, pending, {}) && !HasFallible(steps)
    decreases |steps|
  {
    if steps != [] {
      CanFailTail(steps);
      FallibleTail(steps);
      PlainNeedsNothing(steps[1..], pending + CalleeOf(steps[0].target));
    }
  }

  /** Same outcome, same calls, and for a statement that completes the same user variables and target. */
  ghost predicate EndsAs(out: Outcome, meant: Outcome, x: string, user: set<string>)
  {
    match meant
    case Done(st) => out.Done? && out.st.trace == st.trace && AgreeOn(out.st.frames, st.frames, user)
                     && Lookup(out.st.frames, x) == Lookup(st.frames, x)
    case Leave(exit, t) => out == Leave(exit, t)
    case _ => false
  }

  /**
   `x := chain onerr d` is right for every oracle when only the last step can fail:
   the variable gets the chain's value or the default, and the calls are the chain's.
   */
  lemma DefaultAssigned(c: Chain, d: Expr, dv: Value, zeros: seq<Zero>, x: string, f: Frames, t: Trace, o: Oracle,
                        reserved: set<string>, user: set<string>, counter: nat)
    requires StatementInScope(c, DeclForm(x), f, reserved, user) && AllRendered(c.steps) && OnlyLastFails(c)
    requires Peek(d, f) == Some(dv) && Vars(d) <= user
    requires RunChain(c, f, t, o) != Malformed
    ensures var nodes := LowerStatement(c, DefaultClause(d), zeros, DeclForm(x), counter, reserved);
      nodes.Some? && EndsAs(ExecBlock(nodes.value, State(f, t), o), RunWithDefault(c, DeclForm(x), dv, f, t, o), x, user)
  {
    hide ExecBlock, ExecNode, Eval, EvalAll, Visible, Respects, LowerHandler, LowerSteps, RunSteps, StatementInScope, RunChain;
    var front, last := Front(c.steps), Last(c.steps);
    var before := Chain(c.base, false, front);
    Targets(c, x, f, reserved, user);
    var s := SettingOf(DefaultClause(d), zeros, DeclForm(x), f, reserved, user, o, {});
    var current := BeforeLast(c, d, zeros, x, f, t, o, reserved, user, counter);
    BaseInFront(c, counter, reserved, s.mode);
    RunBefore(c, f, t, o);
    LastWithDefault(s, last, d, dv, zeros, x, current, State(f, t), counter, RunChain(before, f, t, o));
    PlainPrefixLowers(front, [last], c.base, counter, 0, reserved, s.mode);
    assert c.steps == front + [last];
  }

  lemma Targets(c: Chain, x: string, f: Frames, reserved: set<string>, user: set<string>)
    requires StatementInScope(c, DeclForm(x), f, reserved, user) && AllRendered(c.steps) && c.steps != []
    ensures x in reserved && x !in user && x != "_" && x != "" && !DeclaredHere(f, x) && f.Scope? && (forall y :: y in f.vars ==> y in reserved)
    ensures StepsInScope([Last(c.steps)], f, user)
  {
    FrontInScope(c.steps, f, user);
  }

  /** Up to the last step nothing is emitted; its operand holds the value so far, or its panic. */
  lemma BeforeLast(c: Chain, d: Expr, zeros: seq<Zero>, x: string, f: Frames, t: Trace, o: Oracle,
                   reserved: set<string>, user: set<string>, counter: nat) returns (current: Expr)
    requires StatementInScope(c, DeclForm(x), f, reserved, user) && AllRendered(c.steps) && OnlyLastFails(c)
    requires RunChain(c, f, t, o) != Malformed
    ensures f.Scope?
    ensures var s := SettingOf(DefaultClause(d), zeros, DeclForm(x), f, reserved, user, o, {});
      var run := RunChain(Chain(c.base, false, Front(c.steps)), f, t, o);
      var l := LowerSteps(Front(c.steps), c.base, counter, 0, reserved, s.mode);
      && l.Some? && l.value.current == current && WellSet(s)
      && (run.Got? ==> At(s, f, counter, current)) && Owed(s, Last(c.steps), current, State(f, t), run)
  {
    hide ExecBlock, ExecNode, Eval, EvalAll, Visible, Respects, LowerHandler, LowerSteps, RunSteps;
    var front := Front(c.steps);
    var before := Chain(c.base, false, front);
    var s := SettingOf(DefaultClause(d), zeros, DeclForm(x), f, reserved, user, o, {});
    EveryOracleRespectsNothing(o);
    PlainNeedsNothing(front, BasePending(before));
    RunBefore(c, f, t, o);
    FrontInScope(c.steps, f, user);
    assert ChainReady(s, before, State(f, t), counter);
    ChainSimulates(s, before, State(f, t), counter);
    BaseInFront(before, counter, reserved, s.mode);
    var l := LowerChain(before, counter, reserved, s.mode).value;
    PlainPrefixLowers(front, [], c.base, counter, 0, reserved, s.mode);
    NothingRuns(l.nodes, State(f, t), o);
    NeverFails(before, f, t, o);
    current := l.current;
  }

  lemma FrontInScope(steps: seq<Step>, g: Frames, user: set<string>)
    requires steps != [] && TargetsInScope(steps, g, user) && AllRendered(steps)
    ensures StepsInScope(Front(steps), g, user) && StepsInScope([Last(steps)], g, user)
  {
    assert RendersFaithfully(Last(steps).target) && TargetInScope(Last(steps).target, g, user);
  }

  lemma NothingRuns(nodes: seq<Node>, st: State, o: Oracle)
    requires nodes == []
    ensures ExecBlock(nodes, st, o) == Done(st)
  {
  }

  lemma RunBefore(c: Chain, f: Frames, t: Trace, o: Oracle)
    requires OnlyLastFails(c)
    ensures var r := RunChain(Chain(c.base, false, Front(c.steps)), f, t, o);
      RunChain(c, f, t, o) == WithLast(r, Last(c.steps), f, o)
  {
    var r := Settle(Plain, Nil, Eval(c.base, f, t, o));
    assert c.steps == Front(c.steps) + [Last(c.steps)];
    if r.Got? {
      RunPrefix(Front(c.steps), Last(c.steps), r.value, f, r.trace, o);
    }
  }

  /** The chain's run, its last step included. */
  function WithLast(r: Run, last: Step, f: Frames, o: Oracle): Run
  {
    if r.Got? then RunSteps([last], r.value, f, r.trace, o) else r
  }

  /** Before the last step the owed expression yields the value so far, or panics. */
  ghost predicate Owed(s: Setting, last: Step, current: Expr, st: State, run: Run)
  {
    match run
    case Got(v, u) => Holds(s, current, st, v, u) && RunSteps([last], v, s.g, u, s.o) != Malformed
    case Panicking(p, u) => Explodes(s, current, st, p, u)
    case _ => false
  }

  /** The last step, with everything before it nested in its call. */
  lemma LastWithDefault(s: Setting, last: Step, d: Expr, dv: Value, zeros: seq<Zero>, x: string, current: Expr, st: State, counter: nat, run: Run)
    requires WellSet(s) && s.mode.Inline? && s.pure == {} && st.frames == s.g && st.frames.Scope?
    requires run.Got? ==> At(s, st.frames, counter, current)
    requires StepsInScope([last], s.g, s.user) && last.kind == Fallible
    requires x in s.reserved && x !in s.user && x != "_" && x != "" && !DeclaredHere(s.g, x) && (forall y :: y in s.g.vars ==> y in s.reserved)
    requires Peek(d, s.g) == Some(dv) && Vars(d) <= s.user
    requires Owed(s, last, current, st, run)
    ensures var l := LowerSteps([last], current, counter, 0, s.reserved, ModeOf(DefaultClause(d), zeros, DeclForm(x)));
      && l.Some? && l.value.current == Var(x)
      && EndsAs(ExecBlock(l.value.nodes + FinalNodes(DeclForm(x), l.value.current), st, s.o),
                DefaultOutcome(WithLast(run, last, s.g, s.o), DeclForm(x), dv, s.g), x, s.user)
  {
    hide ExecBlock, ExecNode, EvalAll, Visible, Respects, LowerHandler;
    var errVar := Numbered("err", NextId(s.reserved, NextId(s.reserved, counter, "pipe"), "err"));
    NextIsNew(s.reserved, NextId(s.reserved, counter, "pipe"), "err");
    assert RendersFaithfully([last][0].target) && TargetInScope([last][0].target, s.g, s.user);
    StepCallMeaning(last.target, current, st.frames, s.g, s.user, st.trace, s.o);
    var call := StepCall(last.target, current).value;
    var body := LowerHandler(DefaultClause(d), zeros, [x], errVar);
    LastLowers(last, current, counter, s.reserved, d, zeros, x, errVar);
    var r := Eval(call, st.frames, st.trace, s.o);
    match run
    case Got(v, u) =>
      CallAlike(s, last, current, st, counter, v, u);
      var meant := Invoke(last.target, v, s.g, u, s.o);
      OneStep(last, v, s.g, u, s.o);
      SameTrace(r, meant);
      if r.Val? {
        LastChecked(s, d, dv, zeros, x, errVar, call, st, r);
      } else {
        LastPanics([x, errVar], call, errVar, body, st, s.o);
      }
    case Panicking(p, u) =>
      VisibleAll(r.trace);
      VisibleAll(u);
      LastPanics([x, errVar], call, errVar, body, st, s.o);
  }

  lemma OneStep(step: Step, v: Value, f: Frames, t: Trace, o: Oracle)
    ensures RunSteps([step], v, f, t, o) == Settle(step.kind, v, Invoke(step.target, v, f, t, o))
  {
    assert [step][1..] == [];
  }

  lemma LastLowers(last: Step, current: Expr, counter: nat, reserved: set<string>, d: Expr, zeros: seq<Zero>, x: string, errVar: string)
    requires last.kind == Fallible && StepCall(last.target, current).Some? && x != ""
    requires errVar == Numbered("err", NextId(reserved, NextId(reserved, counter, "pipe"), "err"))
    ensures var l := LowerSteps([last], current, counter, 0, reserved, ModeOf(DefaultClause(d), zeros, DeclForm(x)));
      && l.Some? && l.value.current == Var(x)
      && l.value.nodes + FinalNodes(DeclForm(x), l.value.current)
         == Checked(1, [x, errVar], StepCall(last.target, current).value, errVar, LowerHandler(DefaultClause(d), zeros, [x], errVar)) + []
  {
    assert [last][1..] == [];
  }

  lemma LastPanics(names: seq<string>, call: Expr, errVar: string, body: seq<Node>, st: State, o: Oracle)
    requires |names| == 2 && "_" !in names && errVar == names[1] && !DeclaredHere(st.frames, errVar)
    requires Eval(call, st.frames, st.trace, o).Boom?
    ensures var r := Eval(call, st.frames, st.trace, o);
      ExecBlock(Checked(1, names, call, errVar, body) + [], st, o) == Leave(Panicked(r.value), r.trace)
  {
    RunChecked(1, names, call, errVar, body, [], st, o);
  }

  lemma LastChecked(s: Setting, d: Expr, dv: Value, zeros: seq<Zero>, x: string, errVar: string, call: Expr, st: State, r: Evaluation)
    requires st.frames == s.g && st.frames.Scope? && !DeclaredHere(st.frames, errVar) && x != errVar && x != "_" && errVar != "_"
    requires x !in s.user && errVar !in s.user && Peek(d, s.g) == Some(dv) && Vars(d) <= s.user
    requires r == Eval(call, st.frames, st.trace, s.o) && r.Val? && |r.values| == 2
    ensures var out := ExecBlock(Checked(1, [x, errVar], call, errVar, LowerHandler(DefaultClause(d), zeros, [x], errVar)) + [], st, s.o);
      var v := if r.values[1] == Nil then r.values[0] else dv;
      out.Done? && out.st.trace == r.trace && AgreeOn(out.st.frames, s.g, s.user) && Lookup(out.st.frames, x) == Some(v)
  {
    var names := [x, errVar];
    var f' := AfterAssign(st.frames, names, r.values);
    var body := LowerHandler(DefaultClause(d), zeros, [x], errVar);
    var next := State(f', r.trace);
    if r.values[1] != Nil {
      PeekAgree(d, f', s.g);
      DefaultRuns(d, zeros, x, errVar, dv, f', r.trace, s.o);
      next := State(Update(f', x, dv), r.trace);
      forall y
        ensures Lookup(next.frames, y) == if y == x then Some(dv) else Lookup(f', y)
      {
        LookupUpdate(f', x, dv, y);
      }
    }
    CheckGoesOn(1, names, call, errVar, body, [], st, next, s.o);
    NothingRuns([], next, s.o);
  }
}
