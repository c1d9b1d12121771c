/**
 The exact condition under which a default value (`onerr 8080`) means what it
 should, for declarations and for assignments.
 */
module DefaultExact {
  import opened Prelude
  import opened Ir
  import opened Names
  import opened Pipes
  import opened Lowering
  import opened Machine
  import opened StepProof
  import opened HandlerProof
  import opened ChainProof
  import opened StatementProof
  import opened CountProof
  import opened Signatures
  import opened ShapeProof
  import opened ExactProof
  import opened DefaultProof

  /** The statement ends as it means: the same calls, the same user variables, and the same value in the target, if it has one. */
  ghost predicate EndsIn(form: Form, user: set<string>, out: Outcome, meant: Outcome)
  {
    if form.StmtForm? then Agrees(form, user, out, meant, {}) else EndsAs(out, meant, form.target, user)
  }

  /** Under this default, oracle and history the lowered statement ends as it means, down to the last call. */
  ghost predicate DefaultCorrectUnder(c: Chain, d: Value, zeros: seq<Zero>, form: Form, f: Frames, reserved: set<string>,
                                      user: set<string>, counter: nat, t: Trace, o: Oracle)
  {
    var meant := RunWithDefault(c, form, d, f, t, o);
    var nodes := LowerStatement(c, DefaultClause(Literal(d)), zeros, form, counter, reserved);
    meant != Stuck ==> nodes.Some? && EndsIn(form, user, ExecBlock(nodes.value, State(f, t), o), meant)
  }

  /** `x = x |> check() onerr d`: the default is assigned, and then x to itself. */
  predicate OnlyRechecks(c: Chain, x: string)
  {
    c.base == Var(x) && !c.baseFallible && |c.steps| == 1 && c.steps[0].kind == ErrorOnly
  }

  predicate DefaultFits(c: Chain, form: Form)
    requires !form.StmtForm?
  {
    AllRendered(c.steps) &&
    (!ChainCanFail(c) || if form.DeclForm? then OnlyLastFails(c) else OnlyRechecks(c, form.target))
  }

  // ----- Where it is right -----

  lemma {:induction false} PlainNotRedeclared(steps: seq<Step>)
    requires !StepsCanFail(steps)
    ensures !RedeclaresTarget(steps)
    decreases |steps|
  {
    if steps != [] {
      CanFailTail(steps);
      PlainNotRedeclared(steps[1..]);
    }
  }

  /** Nothing can fail: the chain's value, and no default. */
  lemma NeverNeeded(c: Chain, d: Value, zeros: seq<Zero>, form: Form, f: Frames, reserved: set<string>, user: set<string>,
                    counter: nat, t: Trace, o: Oracle)
    requires StatementInScope(c, form, f, reserved, user) && AllRendered(c.steps) && !ChainCanFail(c)
    ensures DefaultCorrectUnder(c, d, zeros, form, f, reserved, user, counter, t, o)
  {
    hide RunChain, LowerStatement, ExecBlock, Visible, Respects, TargetsInScope, PackagesApart;
    var clause := DefaultClause(Literal(d));
    EveryOracleRespectsNothing(o);
    PlainNeedsNothing(c.steps, BasePending(c));
    PlainNotRedeclared(c.steps);
    NeverFails(c, f, t, o);
    if RunChain(c, f, t, o) != Malformed {
      StatementMeans(c, clause, zeros, form, f, t, o, {}, reserved, user, counter);
      var nodes := LowerStatement(c, clause, zeros, form, counter, reserved);
      if !form.StmtForm? {
        AgreesEndsAs(form, user, ExecBlock(nodes.value, State(f, t), o), RunAsLowered(c, clause, zeros, form, f, t, o, counter, reserved));
      }
    }
  }

  lemma AgreesEndsAs(form: Form, user: set<string>, out: Outcome, meant: Outcome)
    requires Agrees(form, user, out, meant, {}) && !form.StmtForm?
    requires form.AssignForm? ==> form.target in user
    ensures EndsAs(out, meant, form.target, user)
  {
    match meant
    case Done(st) =>
      VisibleAll(out.st.trace);
      VisibleAll(st.trace);
    case Leave(_, t) =>
      VisibleAll(out.trace);
      VisibleAll(t);
    case _ =>
  }

  /** A variable that is only checked again keeps its value, or gets the default. */
  lemma RecheckRight(c: Chain, d: Value, zeros: seq<Zero>, x: string, f: Frames, reserved: set<string>, user: set<string>,
                     counter: nat, t: Trace, o: Oracle)
    requires StatementInScope(c, AssignForm(x), f, reserved, user) && AllRendered(c.steps) && OnlyRechecks(c, x)
    ensures DefaultCorrectUnder(c, d, zeros, AssignForm(x), f, reserved, user, counter, t, o)
  {
    hide ExecBlock, Eval, EvalAll, LowerHandler, Invoke, FirstPlaceholder, LowerStatement, RunChain, Received;
    var step, v := c.steps[0], Lookup(f, x).value;
    var clause := DefaultClause(Literal(d));
    assert TargetInScope(step.target, f, user) && RendersFaithfully(step.target);
    RecheckRun(c, x, v, f, t, o, user);
    var call := StepCall(step.target, Var(x)).value;
    var errVar := Numbered("err", NextId(reserved, counter, "err"));
    NextIsNew(reserved, counter, "err");
    var body := LowerHandler(clause, zeros, [x], errVar);
    var final := [Assign([x], Var(x), false)];
    RecheckLowers(c, clause, zeros, x, counter, reserved, errVar);
    var r := Eval(call, f, t, o);
    if r.Boom? {
      RunChecked(1, [errVar], call, errVar, body, final, State(f, t), o);
    } else if r.Val? && |r.values| == 1 {
      var f' := Declare(f, errVar, r.values[0]);
      var next := State(if r.values[0] == Nil then f' else Update(f', x, d), r.trace);
      if r.values[0] != Nil {
        DefaultRuns(Literal(d), zeros, x, errVar, d, f', r.trace, o);
        UpdateKeepsNames(f', x, d);
      }
      UpdateKeepsNames(f, x, if r.values[0] == Nil then v else d);
      CheckGoesOn(1, [errVar], call, errVar, body, final, State(f, t), next, o);
      AssignsItself(x, next, o);
    }
  }

  lemma RecheckRun(c: Chain, x: string, v: Value, f: Frames, t: Trace, o: Oracle, user: set<string>)
    requires OnlyRechecks(c, x) && Lookup(f, x) == Some(v) && RendersFaithfully(c.steps[0].target) && TargetInScope(c.steps[0].target, f, user)
    ensures StepCall(c.steps[0].target, Var(x)).Some?
    ensures RunChain(c, f, t, o) == Settle(ErrorOnly, v, Eval(StepCall(c.steps[0].target, Var(x)).value, f, t, o))
  {
    hide Invoke, StepCall, Settle;
    var step := c.steps[0];
    assert Eval(Var(x), f, t, o) == Val([v], t);
    assert Settle(Plain, Nil, Val([v], t)) == Got(v, t) by { SettlePlain(v, t); }
    StepCallMeaning(step.target, Var(x), f, f, user, t, o);
    assert c.steps == [step];
    OneStep(step, v, f, t, o);
  }

  lemma SettlePlain(v: Value, t: Trace)
    ensures Settle(Plain, Nil, Val([v], t)) == Got(v, t)
  {
  }

  lemma RecheckLowers(c: Chain, clause: Clause, zeros: seq<Zero>, x: string, counter: nat, reserved: set<string>, errVar: string)
    requires OnlyRechecks(c, x) && StepCall(c.steps[0].target, Var(x)).Some? && x != "_"
    requires errVar == Numbered("err", NextId(reserved, counter, "err"))
    ensures LowerStatement(c, clause, zeros, AssignForm(x), counter, reserved)
      == Some(Checked(1, [errVar], StepCall(c.steps[0].target, Var(x)).value, errVar, LowerHandler(clause, zeros, [x], errVar))
              + [Assign([x], Var(x), false)])
  {
    hide LowerHandler, StepCall, NextId;
    var mode := ModeOf(clause, zeros, AssignForm(x));
    var call := StepCall(c.steps[0].target, Var(x)).value;
    var nodes := Checked(1, [errVar], call, errVar, LowerHandler(clause, zeros, [x], errVar));
    assert c.steps[1..] == [] && nodes + [] == nodes;
    BaseInFront(c, counter, reserved, mode);
    assert LowerStep(c.steps[0], [], Var(x), counter, 0, reserved, mode).value.nodes == nodes;
    assert LowerChain(c, counter, reserved, mode).value.nodes == nodes;
  }

  lemma AssignsItself(x: string, st: State, o: Oracle)
    requires x != "_" && Lookup(st.frames, x).Some?
    ensures var v := Lookup(st.frames, x).value;
      ExecBlock([Assign([x], Var(x), false)], st, o) == Done(State(Update(st.frames, x, v), st.trace))
    ensures forall y :: Lookup(Update(st.frames, x, Lookup(st.frames, x).value), y) == Lookup(st.frames, y)
  {
    var v := Lookup(st.frames, x).value;
    ExecOne(Assign([x], Var(x), false), st, o);
    assert Assignable(st.frames, [x], false);
    assert AssignAll(st.frames, [x], [v], false) == Update(st.frames, x, v) by {
      assert [x][1..] == [] && [v][1..] == [];
    }
    UpdateKeepsNames(st.frames, x, v);
  }

  // ----- Where no check assigns the variable -----

  lemma {:induction false} SameSteps(steps: seq<Step>, d: Value, e: Value, zeros: seq<Zero>, x: string, current: Expr, counter: nat, stepNum: nat, reserved: set<string>)
    requires !HasFallible(steps) && x != ""
    ensures LowerSteps(steps, current, counter, stepNum, reserved, Inline(DefaultClause(Literal(d)), zeros, [], x))
         == LowerSteps(steps, current, counter, stepNum, reserved, Inline(DefaultClause(Literal(e)), zeros, [], x))
    decreases |steps|
  {
    if steps != [] {
      FallibleTail(steps);
      var first := LowerStep(steps[0], steps[1..], current, counter, stepNum, reserved, Inline(DefaultClause(Literal(d)), zeros, [], x));
      if first.Some? {
        SameSteps(steps[1..], d, e, zeros, x, first.value.current, first.value.counter, first.value.stepNum, reserved);
      }
    }
  }

  /** A handler without a variable ignores the default: the code is the same for all. */
  lemma SameCode(c: Chain, d: Value, e: Value, zeros: seq<Zero>, x: string, counter: nat, reserved: set<string>)
    requires !TargetCanFail(c) && x in reserved && x != ""
    ensures LowerStatement(c, DefaultClause(Literal(d)), zeros, DeclForm(x), counter, reserved)
         == LowerStatement(c, DefaultClause(Literal(e)), zeros, DeclForm(x), counter, reserved)
  {
    NextIdIsFirstFree(reserved, counter, "pipe");
    var b := LowerBase(c, counter, reserved, Inline(DefaultClause(Literal(d)), zeros, [], x));
    SameSteps(c.steps, d, e, zeros, x, b.current, b.counter, b.stepNum, reserved);
  }

  /** So one of two defaults is not what the variable gets. */
  lemma IgnoredShows(c: Chain, zeros: seq<Zero>, x: string, f: Frames, reserved: set<string>, user: set<string>, counter: nat, sig: string -> Kind)
    requires StatementInScope(c, DeclForm(x), f, reserved, user) && Typed(c, sig, f)
    requires ChainCanFail(c) && !TargetCanFail(c)
    ensures exists d, t, o :: !DefaultCorrectUnder(c, d, zeros, DeclForm(x), f, reserved, user, counter, t, o)
  {
    hide RunChain, LowerStatement, ExecBlock, Typed, TargetCanFail, FailsAt;
    var k := SomeCheck(c);
    var o := FailsAt(sig, CallsBefore(c, k), PLAIN_FAILURE);
    ChainFails(c, k, sig, f, 0, {}, PLAIN_FAILURE);
    var d, e := Nil, Data(0);
    SameCode(c, d, e, zeros, x, counter, reserved);
    if DefaultCorrectUnder(c, d, zeros, DeclForm(x), f, reserved, user, counter, [], o) {
      assert !DefaultCorrectUnder(c, e, zeros, DeclForm(x), f, reserved, user, counter, [], o);
    }
  }

  // ----- Where the chain goes on calling -----

  /** A default handler, if it completes, has called nothing. */
  lemma DefaultKeepsTrace(d: Value, zeros: seq<Zero>, names: seq<string>, errVar: string, st: State, o: Oracle)
    ensures var out := ExecBlock(LowerHandler(DefaultClause(Literal(d)), zeros, names, errVar), st, o);
      !out.Jump? && (out.Done? ==> out.st.trace == st.trace)
  {
    var code := RenderHandler(DefaultHandler(Mention(Literal(d))), zeros, names, errVar);
    assert LowerHandler(DefaultClause(Literal(d)), zeros, names, errVar) == [RawStmt(code)];
    ExecOne(RawStmt(code), st, o);
    if names == [] {
      ExecEmpty(st, o);
    } else {
      ExecOne(Assign([names[0]], Literal(d), false), st, o);
    }
  }

  /** Passed or failed, a check with a default handler goes on behind its call. */
  lemma DefaultCheckPassed(d: Value, zeros: seq<Zero>, handled: seq<string>, stepNum: nat, names: seq<string>, call: Expr, errVar: string,
                           rest: seq<Node>, st: State, o: Oracle) returns (st': State)
    requires 1 <= |names| <= 2 && "_" !in names && errVar == Last(names)
    requires ExecBlock(Checked(stepNum, names, call, errVar, LowerHandler(DefaultClause(Literal(d)), zeros, handled, errVar)) + rest, st, o).Done?
    ensures ExecBlock(Checked(stepNum, names, call, errVar, LowerHandler(DefaultClause(Literal(d)), zeros, handled, errVar)) + rest, st, o)
      == ExecBlock(rest, st', o)
    ensures |st'.trace| == |st.trace| + CallCount(call)
  {
    hide ExecBlock, Eval, LowerHandler, CallCount;
    var body := LowerHandler(DefaultClause(Literal(d)), zeros, handled, errVar);
    CheckPassed(stepNum, names, call, errVar, body, rest, st, o);
    EvalCount(call, st.frames, st.trace, o);
    var r := Eval(call, st.frames, st.trace, o);
    var st1 := State(AfterAssign(st.frames, names, r.values), r.trace);
    if Last(r.values) == Nil {
      st' := st1;
    } else {
      DefaultKeepsTrace(d, zeros, handled, errVar, InnerScope(st1), o);
      st' := FailedGoesOn(stepNum, names, call, errVar, body, rest, st, o);
    }
  }

  lemma FailedGoesOn(stepNum: nat, names: seq<string>, call: Expr, errVar: string, body: seq<Node>, rest: seq<Node>, st: State, o: Oracle)
      returns (st': State)
    requires 1 <= |names| <= 2 && "_" !in names && errVar == Last(names)
    requires ExecBlock(Checked(stepNum, names, call, errVar, body) + rest, st, o).Done?
    requires var r := Eval(call, st.frames, st.trace, o); r.Val? && |r.values| == |names| && Last(r.values) != Nil
    requires var r := Eval(call, st.frames, st.trace, o);
      !ExecBlock(body, InnerScope(State(AfterAssign(st.frames, names, r.values), r.trace)), o).Jump?
    ensures var r := Eval(call, st.frames, st.trace, o);
      CloseScope(ExecBlock(body, InnerScope(State(AfterAssign(st.frames, names, r.values), r.trace)), o)) == Done(st')
    ensures ExecBlock(Checked(stepNum, names, call, errVar, body) + rest, st, o) == ExecBlock(rest, st', o)
  {
    hide ExecBlock, Eval;
    var comment, assign, check := StepComment(stepNum), Assign(names, call, true), IfErrCheck(errVar, body);
    assert Checked(stepNum, names, call, errVar, body) + rest == [comment] + ([assign] + ([check] + rest));
    Proceeds(comment, [assign] + ([check] + rest), st, st, o);
    ExecCons(assign, [check] + rest, st, o);
    var r := Eval(call, st.frames, st.trace, o);
    DeclaresAll(st.frames, names, r.values);
    var st1 := State(AfterAssign(st.frames, names, r.values), r.trace);
    assert ExecNode(assign, st, o) == Done(st1);
    assert Lookup(st1.frames, errVar) == Some(Last(r.values));
    ExecCons(check, rest, st1, o);
    st' := CloseScope(ExecBlock(body, InnerScope(st1), o)).st;
  }

  // ----- The first check of a chain -----

  predicate IsFirst(c: Chain, k: int)
  {
    IsCheck(c, k) && (k >= 0 ==> !c.baseFallible && !StepsCanFail(c.steps[..k]))
  }

  lemma {:induction false} FirstStep(steps: seq<Step>) returns (k: nat)
    requires StepsCanFail(steps)
    ensures k < |steps| && steps[k].kind != Plain && !StepsCanFail(steps[..k])
    decreases |steps|
  {
    CanFailTail(steps);
    if steps[0].kind != Plain {
      k := 0;
    } else {
      var m := FirstStep(steps[1..]);
      k := m + 1;
      assert steps[..k][1..] == steps[1..][..m];
      CanFailTail(steps[..k]);
    }
  }

  lemma FirstCheck(c: Chain) returns (k: int)
    requires ChainCanFail(c)
    ensures IsFirst(c, k)
  {
    if c.baseFallible {
      k := -1;
    } else {
      k := FirstStep(c.steps);
    }
  }

  function StepsBehind(c: Chain, k: int): seq<Step>
    requires IsCheck(c, k)
  {
    if k < 0 then c.steps else c.steps[k + 1..]
  }

  function KindAt(c: Chain, k: int): Kind
    requires IsCheck(c, k)
  {
    if k < 0 then Fallible else c.steps[k].kind
  }

  /** The calls still to be made when the first check is passed: those it looks at but does not keep, and those of later steps. */
  function CallsAfter(c: Chain, k: int): nat
    requires IsFirst(c, k)
  {
    (if KindAt(c, k) == ErrorOnly then CallsBefore(c, k) else 0) + StepCalls(StepsBehind(c, k))
  }

  lemma {:induction false} PeekTyped(e: Expr, sig: string -> Kind, f: Frames)
    requires Peek(e, f).Some?
    ensures ExprTyped(e, Plain, sig, f)
  {
    match e
    case Select(operand, _) => PeekTyped(operand, sig, f);
    case _ =>
  }

  lemma StepCallTyped(step: Step, left: Expr, sig: string -> Kind, f: Frames, user: set<string>)
    requires StepTyped(step, sig) && RendersFaithfully(step.target) && TargetInScope(step.target, f, user) && ExprTyped(left, Plain, sig, f)
    ensures StepCall(step.target, left).Some? && ExprTyped(StepCall(step.target, left).value, step.kind, sig, f)
  {
    match step.target
    case CallTarget(fn, args, _) =>
      var es := PipeArgs(left, args);
      var p := FirstPlaceholder(args);
      forall i | 0 <= i < |es|
        ensures ExprTyped(es[i], Plain, sig, f)
      {
        if i != if p < |args| then p else 0 {
          var e := if p < |args| then args[i].e else args[i - 1].e;
          PeekTyped(e, sig, f);
        }
      }
    case _ =>
  }

  /** Plain steps nest their calls. */
  lemma {:induction false} NestedFront(front: seq<Step>, current: Expr, counter: nat, stepNum: nat, reserved: set<string>, mode: Mode,
                                       sig: string -> Kind, f: Frames, user: set<string>)
    requires !StepsCanFail(front) && AllRendered(front) && TargetsInScope(front, f, user) && StepsTyped(front, sig)
    ensures var l := LowerSteps(front, current, counter, stepNum, reserved, mode);
      && l.Some? && l.value.nodes == []
      && CallCount(l.value.current) == CallCount(current) + StepCalls(front)
      && (if front == [] then l.value.current == current else !l.value.current.Var?)
      && (ExprTyped(current, Plain, sig, f) ==> ExprTyped(l.value.current, Plain, sig, f))
    decreases |front|
  {
    hide StepCall, CallCount, ExprTyped, CalleeCount, TargetInScope, StepTyped;
    if front != [] {
      var step := front[0];
      assert TargetInScope(step.target, f, user) && StepTyped(step, sig) && RendersFaithfully(step.target);
      CanFailTail(front);
      RenderedTail(front);
      StepCallCount(step.target, current, f, user);
      NeverVar(step.target, current);
      if ExprTyped(current, Plain, sig, f) {
        StepCallTyped(step, current, sig, f, user);
      }
      var call := StepCall(step.target, current).value;
      NestedFront(front[1..], call, counter, stepNum, reserved, mode, sig, f, user);
      PlainLowers(front, current, counter, stepNum, reserved, mode);
    }
  }

  /** The parts of a first check that do not depend on the default. */
  datatype Check = Check(num: nat, names: seq<string>, call: Expr, errVar: string, temp: string, after: Expr, counter: nat)

  predicate Heads(lowered: Option<Lowered>, first: Check, rest: Option<Lowered>, mode: Mode)
  {
    lowered.Some? && rest.Some? && lowered.value.current == rest.value.current &&
    lowered.value.nodes == Checked(first.num, first.names, first.call, first.errVar, OnFail(mode, first.temp, first.errVar)) + rest.value.nodes
  }

  ghost predicate IsFirstCheck(c: Chain, k: int, first: Check, sig: string -> Kind, f: Frames, reserved: set<string>, mode: Mode)
    requires IsFirst(c, k)
  {
    && CheckNames(first.names, mode) && first.errVar == Last(first.names) && first.errVar !in reserved
    && |first.names| == (if KindAt(c, k) == Fallible then 2 else 1)
    && (|first.names| == 2 ==> first.after == Var(first.names[0]) && (!HasTarget(mode) ==> first.names[0] !in reserved))
    && (|first.names| == 1 && first.after.Var? ==> k == 0 && first.after == c.base)
    && CallCount(first.call) == CallsBefore(c, k) + 1
    && CallCount(first.after) == (if KindAt(c, k) == ErrorOnly then CallsBefore(c, k) else 0)
    && ExprTyped(first.call, KindAt(c, k), sig, f) && (KindAt(c, k) == ErrorOnly ==> ExprTyped(first.after, Plain, sig, f))
  }

  /** The chain begins with its first check in this mode. */
  ghost predicate BeginsWith(c: Chain, k: int, first: Check, counter: nat, reserved: set<string>, mode: Mode)
    requires IsFirst(c, k)
  {
    Heads(LowerChain(c, counter, reserved, mode), first, LowerSteps(StepsBehind(c, k), first.after, first.counter, first.num, reserved, mode), mode)
  }

  /** The lowered chain begins with its first check, the same for two clauses but for the handler. */
  lemma SplitAtFirst(c: Chain, k: int, a: Clause, b: Clause, zeros: seq<Zero>, form: Form, f: Frames, reserved: set<string>, user: set<string>,
                     counter: nat, sig: string -> Kind) returns (first: Check)
    requires StatementInScope(c, form, f, reserved, user) && AllRendered(c.steps) && Typed(c, sig, f) && IsFirst(c, k)
    ensures IsFirstCheck(c, k, first, sig, f, reserved, ModeOf(a, zeros, form))
    ensures BeginsWith(c, k, first, counter, reserved, ModeOf(a, zeros, form))
    ensures BeginsWith(c, k, first, counter, reserved, ModeOf(b, zeros, form))
  {
    hide CallCount, ExprTyped, LowerSteps, LowerChain, LowerBase, NextId, Numbered, StepCalls, TargetInScope, StepTyped, Checked, OnFail;
    var m1, m2 := ModeOf(a, zeros, form), ModeOf(b, zeros, form);
    if k < 0 {
      NamesCallNothing();
      BaseInFront(c, counter, reserved, m1);
      BaseInFront(c, counter, reserved, m2);
      first := SplitAtBase(c, m1, m2, reserved, counter);
      TypedLowers(c.steps, sig, first.after, first.counter, first.num, reserved, m1);
      TypedLowers(c.steps, sig, first.after, first.counter, first.num, reserved, m2);
    } else {
      first := SplitBehindPlain(c, k, m1, m2, f, reserved, user, counter, sig);
    }
  }

  /** Plain steps in front are nested in the call of the first check. */
  lemma SplitBehindPlain(c: Chain, k: nat, m1: Mode, m2: Mode, f: Frames, reserved: set<string>, user: set<string>,
                         counter: nat, sig: string -> Kind) returns (first: Check)
    requires TargetsInScope(c.steps, f, user) && AllRendered(c.steps) && Typed(c, sig, f) && IsFirst(c, k) && SameTarget(m1, m2)
    ensures IsFirstCheck(c, k, first, sig, f, reserved, m1)
    ensures BeginsWith(c, k, first, counter, reserved, m1) && BeginsWith(c, k, first, counter, reserved, m2)
  {
    hide CallCount, ExprTyped, LowerSteps, LowerChain, LowerStep, NextId, Numbered, StepCalls, TargetInScope, StepTyped, StepCall, Checked, OnFail;
    NamesCallNothing();
    var front, rest := c.steps[..k], c.steps[k + 1..];
    assert StepTyped(c.steps[k], sig) && TargetInScope(c.steps[k].target, f, user) && RendersFaithfully(c.steps[k].target);
    NestedFront(front, c.base, counter, 0, reserved, m1, sig, f, user);
    SameFront(front, c.base, counter, 0, reserved, m1, m2);
    var current := LowerSteps(front, c.base, counter, 0, reserved, m1).value.current;
    StepCallCount(c.steps[k].target, current, f, user);
    CheckedStepCalls(c.steps[k], sig);
    StepCallTyped(c.steps[k], current, sig, f, user);
    first := SplitAtStep(c.steps[k], rest, current, m1, m2, reserved, counter);
    FirstInFront(c, k, first, current, counter, reserved, m1, sig);
    FirstInFront(c, k, first, current, counter, reserved, m2, sig);
  }

  lemma FirstInFront(c: Chain, k: nat, first: Check, current: Expr, counter: nat, reserved: set<string>, mode: Mode, sig: string -> Kind)
    requires IsFirst(c, k) && StepsTyped(c.steps, sig)
    requires var l := LowerSteps(c.steps[..k], c.base, counter, 0, reserved, mode); l.Some? && l.value.current == current
    requires var b := LowerStep(c.steps[k], c.steps[k + 1..], current, counter, 0, reserved, mode);
      && b.Some? && b.value.nodes == Checked(first.num, first.names, first.call, first.errVar, OnFail(mode, first.temp, first.errVar))
      && b.value.current == first.after && b.value.counter == first.counter && b.value.stepNum == first.num
    ensures BeginsWith(c, k, first, counter, reserved, mode)
  {
    hide LowerSteps, LowerChain, LowerStep, Checked, OnFail, StepTyped;
    var front, tail, rest := c.steps[..k], c.steps[k..], c.steps[k + 1..];
    assert c.steps == front + tail && tail[0] == c.steps[k] && tail[1..] == rest;
    BaseInFront(c, counter, reserved, mode);
    PlainPrefixLowers(front, tail, c.base, counter, 0, reserved, mode);
    StepInFront(tail, current, counter, 0, reserved, mode);
    TypedLowers(rest, sig, first.after, first.counter, first.num, reserved, mode);
  }

  lemma CheckedStepCalls(step: Step, sig: string -> Kind)
    requires StepTyped(step, sig) && step.kind != Plain
    ensures CalleeCount(step.target) == 1
  {
  }

  lemma StepInFront(steps: seq<Step>, current: Expr, counter: nat, stepNum: nat, reserved: set<string>, mode: Mode)
    requires steps != [] && LowerStep(steps[0], steps[1..], current, counter, stepNum, reserved, mode).Some?
    ensures var first := LowerStep(steps[0], steps[1..], current, counter, stepNum, reserved, mode).value;
      LowerSteps(steps, current, counter, stepNum, reserved, mode)
        == Behind(first.nodes, LowerSteps(steps[1..], first.current, first.counter, first.stepNum, reserved, mode))
  {
  }

  lemma {:induction false} SameFront(front: seq<Step>, current: Expr, counter: nat, stepNum: nat, reserved: set<string>, m1: Mode, m2: Mode)
    requires !StepsCanFail(front)
    ensures LowerSteps(front, current, counter, stepNum, reserved, m1) == LowerSteps(front, current, counter, stepNum, reserved, m2)
    decreases |front|
  {
    if front != [] {
      CanFailTail(front);
      var call := StepCall(front[0].target, current);
      if call.Some? {
        SameFront(front[1..], call.value, counter, stepNum, reserved, m1, m2);
      }
    }
  }

  /** The modes name the same target. */
  predicate SameTarget(m1: Mode, m2: Mode)
  {
    m1.Inline? && m2.Inline? && m1.target == m2.target && m1.target != "_"
  }

  lemma SplitAtBase(c: Chain, m1: Mode, m2: Mode, reserved: set<string>, counter: nat) returns (first: Check)
    requires c.baseFallible && SameTarget(m1, m2)
    ensures CheckNames(first.names, m1) && |first.names| == 2 && first.errVar == Last(first.names) && first.errVar !in reserved
    ensures !HasTarget(m1) ==> first.names[0] !in reserved
    ensures var b := LowerBase(c, counter, reserved, m1);
      && first == Check(1, first.names, c.base, first.errVar, first.names[0], Var(first.names[0]), b.counter) && b.stepNum == 1
      && b.nodes == Checked(1, first.names, c.base, first.errVar, OnFail(m1, first.temp, first.errVar)) && b.current == first.after
    ensures var b := LowerBase(c, counter, reserved, m2);
      && b.nodes == Checked(1, first.names, c.base, first.errVar, OnFail(m2, first.temp, first.errVar)) && b.current == first.after
      && b.counter == first.counter && b.stepNum == 1
  {
    BaseCheckNames(c, counter, reserved, m1);
    var b := LowerBase(c, counter, reserved, m1);
    var k := NextId(reserved, counter, "pipe");
    NextIdIsFirstFree(reserved, counter, "pipe");
    NextIdIsFirstFree(reserved, k, "err");
    first := Check(1, b.nodes[1].names, c.base, b.nodes[2].errVar, b.nodes[1].names[0], b.current, b.counter);
  }

  lemma SplitAtStep(step: Step, rest: seq<Step>, current: Expr, m1: Mode, m2: Mode, reserved: set<string>, counter: nat) returns (first: Check)
    requires step.kind != Plain && StepCall(step.target, current).Some? && SameTarget(m1, m2)
    ensures LowerStep(step, rest, current, counter, 0, reserved, m1).Some? && LowerStep(step, rest, current, counter, 0, reserved, m2).Some?
    ensures first.call == StepCall(step.target, current).value && first.num == 1
    ensures var b := LowerStep(step, rest, current, counter, 0, reserved, m1).value;
      && b.nodes == Checked(1, first.names, first.call, first.errVar, OnFail(m1, first.temp, first.errVar))
      && b.current == first.after && b.counter == first.counter && b.stepNum == 1
    ensures var b := LowerStep(step, rest, current, counter, 0, reserved, m2).value;
      && b.nodes == Checked(1, first.names, first.call, first.errVar, OnFail(m2, first.temp, first.errVar))
      && b.current == first.after && b.counter == first.counter && b.stepNum == 1
    ensures CheckNames(first.names, m1) && |first.names| == (if step.kind == Fallible then 2 else 1)
    ensures first.errVar == Last(first.names) && first.errVar !in reserved
    ensures first.after == if step.kind == Fallible then Var(first.names[0]) else current
    ensures |first.names| == 2 && !HasTarget(m1) ==> first.names[0] !in reserved
  {
    StepCheckNames(step, rest, current, counter, 0, reserved, m1);
    var b := LowerStep(step, rest, current, counter, 0, reserved, m1).value;
    var k := NextId(reserved, counter, "pipe");
    NextIdIsFirstFree(reserved, counter, "pipe");
    NextIdIsFirstFree(reserved, k, "err");
    NextIdIsFirstFree(reserved, counter, "err");
    var names := b.nodes[1].names;
    first := Check(1, names, StepCall(step.target, current).value, b.nodes[2].errVar, if |names| == 2 then names[0] else "", b.current, b.counter);
  }

  // ----- Where the chain goes on -----

  lemma RestInScope(c: Chain, k: int, f: Frames, user: set<string>, sig: string -> Kind)
    requires IsCheck(c, k) && AllRendered(c.steps) && TargetsInScope(c.steps, f, user) && StepsTyped(c.steps, sig)
    ensures AllRendered(StepsBehind(c, k)) && TargetsInScope(StepsBehind(c, k), f, user) && StepsTyped(StepsBehind(c, k), sig)
  {
  }

  /** If the lowered chain completes although its first check failed, it has made the calls of all later steps. */
  lemma GoesOnCalling(c: Chain, k: int, d: Value, zeros: seq<Zero>, form: Form, f: Frames, reserved: set<string>, user: set<string>,
                      counter: nat, sig: string -> Kind)
    requires StatementInScope(c, form, f, reserved, user) && AllRendered(c.steps) && Typed(c, sig, f) && IsFirst(c, k)
    ensures var l := LowerChain(c, counter, reserved, ModeOf(DefaultClause(Literal(d)), zeros, form));
      var n := CallsBefore(c, k);
      && l.Some?
      && var out := ExecBlock(l.value.nodes, State(f, []), FailsAt(sig, n, PLAIN_FAILURE));
        out.Done? ==> |out.st.trace| + CallCount(l.value.current) >= n + 1 + CallsAfter(c, k)
  {
    hide ExecBlock, LowerChain, LowerSteps, CallCount, ExprTyped, StepCalls, FailsAt, TargetsInScope, StepsTyped, CallsBefore, AllRendered, Checked;
    var mode := ModeOf(DefaultClause(Literal(d)), zeros, form);
    var n, o, st := CallsBefore(c, k), FailsAt(sig, CallsBefore(c, k), PLAIN_FAILURE), State(f, []);
    var first := SplitAtFirst(c, k, DefaultClause(Literal(d)), DefaultClause(Literal(d)), zeros, form, f, reserved, user, counter, sig);
    var rest := StepsBehind(c, k);
    RestInScope(c, k, f, user, sig);
    var l := LowerChain(c, counter, reserved, mode).value;
    var tail := LowerSteps(rest, first.after, first.counter, first.num, reserved, mode).value;
    if ExecBlock(l.nodes, st, o).Done? {
      var handled := if mode.names == [] && mode.target != "" && first.temp == mode.target then [mode.target] else mode.names;
      var st' := DefaultCheckPassed(d, zeros, handled, first.num, first.names, first.call, first.errVar, tail.nodes, st, o);
      StepsCall(rest, sig, n, PLAIN_FAILURE, first.after, st', first.counter, first.num, reserved, mode, f, user);
    }
  }

  /** Calls behind a failed check are calls too many. */
  lemma LaterCallsShow(c: Chain, k: int, d: Value, zeros: seq<Zero>, form: Form, f: Frames, reserved: set<string>, user: set<string>,
                       counter: nat, sig: string -> Kind)
    requires StatementInScope(c, form, f, reserved, user) && AllRendered(c.steps) && Typed(c, sig, f)
    requires IsFirst(c, k) && CallsAfter(c, k) > 0
    ensures !DefaultCorrectUnder(c, d, zeros, form, f, reserved, user, counter, [], FailsAt(sig, CallsBefore(c, k), PLAIN_FAILURE))
  {
    hide ExecBlock, LowerChain, CallCount, FailsAt, CallsBefore, CallsAfter, RunChain, FinalNodes, StatementInScope, Typed, Eval, IsCheck, EndsIn, Put,
      ErrNameAt, ChainErrVar, ChainAtHand, OwnCheck;
    var n := CallsBefore(c, k);
    var o := FailsAt(sig, n, PLAIN_FAILURE);
    ChainFails(c, k, sig, f, 0, {}, PLAIN_FAILURE);
    GoesOnCalling(c, k, d, zeros, form, f, reserved, user, counter, sig);
    var l := LowerChain(c, counter, reserved, ModeOf(DefaultClause(Literal(d)), zeros, form)).value;
    var out := ExecBlock(l.nodes + FinalNodes(form, l.current), State(f, []), o);
    if out.Done? {
      var st := StoredFrom(c, DefaultClause(Literal(d)), zeros, form, f, reserved, user, counter, o);
    }
    EndsWithTrace(form, user, out, RunWithDefault(c, form, d, f, [], o));
  }

  lemma EndsWithTrace(form: Form, user: set<string>, out: Outcome, meant: Outcome)
    requires meant.Done?
    ensures EndsIn(form, user, out, meant) ==> out.Done? && out.st.trace == meant.st.trace
  {
    VisibleAll(meant.st.trace);
    if out.Done? {
      VisibleAll(out.st.trace);
    }
  }

  /** A statement that completes has completed its chain and then computed the value. */
  lemma StoredFrom(c: Chain, clause: Clause, zeros: seq<Zero>, form: Form, f: Frames, reserved: set<string>, user: set<string>,
                   counter: nat, o: Oracle) returns (st: State)
    requires StatementInScope(c, form, f, reserved, user)
    requires LowerChain(c, counter, reserved, ModeOf(clause, zeros, form)).Some?
    requires var l := LowerChain(c, counter, reserved, ModeOf(clause, zeros, form)).value;
      ExecBlock(l.nodes + FinalNodes(form, l.current), State(f, []), o).Done?
    ensures var l := LowerChain(c, counter, reserved, ModeOf(clause, zeros, form)).value;
      var out := ExecBlock(l.nodes + FinalNodes(form, l.current), State(f, []), o);
      && ExecBlock(l.nodes, State(f, []), o) == Done(st)
      && out == ExecBlock(FinalNodes(form, l.current), st, o)
      && |out.st.trace| == |st.trace| + CallCount(l.current)
  {
    hide ExecBlock, LowerChain, CallCount, FinalNodes, StatementInScope, Eval;
    var l := LowerChain(c, counter, reserved, ModeOf(clause, zeros, form)).value;
    var final := FinalNodes(form, l.current);
    ChainHasNoLabels(c, counter, reserved, ModeOf(clause, zeros, form));
    ExecAppend(l.nodes, final, State(f, []), o);
    FinalNeedsDone(ExecBlock(l.nodes, State(f, []), o), form, l.current, o);
    st := ExecBlock(l.nodes, State(f, []), o).st;
    AssignTarget(c, form, f, reserved, user);
    FinalComputes(form, l.current, st, o);
    EvalCount(l.current, st.frames, st.trace, o);
    NamesCallNothing();
  }

  // ----- Declarations -----

  lemma {:induction false} NoCallsAllPlain(steps: seq<Step>, sig: string -> Kind)
    requires StepsTyped(steps, sig) && StepCalls(steps) == 0
    ensures !StepsCanFail(steps)
    decreases |steps|
  {
    if steps != [] {
      assert StepTyped(steps[0], sig);
      CanFailTail(steps);
      NoCallsAllPlain(steps[1..], sig);
    }
  }

  lemma PlainHasNoFallible(steps: seq<Step>)
    requires !StepsCanFail(steps)
    ensures !HasFallible(steps) && (steps != [] ==> HasPlain(steps) && !AllErrorOnly(steps))
  {
    if steps != [] {
      assert steps[0].kind == Plain;
    }
  }

  lemma {:induction false} RedeclaredBehind(steps: seq<Step>, k: nat)
    requires k < |steps| && !StepsCanFail(steps[..k]) && steps[k].kind == Fallible && !HasFallible(steps[k + 1..])
    ensures RedeclaresTarget(steps) <==> HasPlain(steps[k + 1..])
    decreases k
  {
    if k > 0 {
      CanFailTail(steps[..k]);
      assert steps[..k][1..] == steps[1..][..k - 1] && steps[1..][k..] == steps[k + 1..];
      RedeclaredBehind(steps[1..], k - 1);
    } else {
      FallibleTail(steps);
    }
  }

  lemma FallibleWhere(steps: seq<Step>, k: nat)
    requires k < |steps| && !StepsCanFail(steps[..k]) && !HasFallible(steps[k + 1..])
    ensures HasFallible(steps) <==> steps[k].kind == Fallible
  {
    forall i | 0 <= i < |steps| && i != k
      ensures steps[i].kind != Fallible
    {
      if i < k {
        assert steps[..k][i] == steps[i];
      } else {
        assert steps[k + 1..][i - k - 1] == steps[i];
      }
    }
  }

  /** A sound declaration whose default can be needed, and is not needed at the last step only, goes on calling or has no check of its own. */
  lemma OwnCheckLast(c: Chain, k: int, x: string, sig: string -> Kind)
    requires c.steps != [] && StepsTyped(c.steps, sig) && IsFirst(c, k)
    requires !RedeclaresTarget(c.steps) && TargetCanFail(c) && !OnlyLastFails(c)
    ensures CallsAfter(c, k) > 0
  {
    hide StepTyped;
    var rest := StepsBehind(c, k);
    if StepCalls(rest) == 0 {
      NoCallsAllPlain(rest, sig);
      PlainHasNoFallible(rest);
      if k >= 0 {
        FallibleWhere(c.steps, k);
        RedeclaredBehind(c.steps, k);
      }
    }
  }

  /**
   The exact condition for `x := chain onerr d`. For every well-scoped, well-typed
   chain: the variable gets the chain's value or the default, after exactly the
   chain's calls, for every default literal, history and oracle, if and only if every
   step is rendered as meant and either nothing can fail or the last step is the one
   that can.
   */
  lemma DefaultDeclaredExactly(c: Chain, zeros: seq<Zero>, x: string, f: Frames, reserved: set<string>, user: set<string>,
                               counter: nat, sig: string -> Kind)
    requires StatementInScope(c, DeclForm(x), f, reserved, user) && Typed(c, sig, f) && c.steps != []
    ensures (forall d: Value, t: Trace, o: Oracle :: DefaultCorrectUnder(c, d, zeros, DeclForm(x), f, reserved, user, counter, t, o))
      <==> DefaultFits(c, DeclForm(x))
  {
    hide StatementInScope, Typed, DefaultCorrectUnder, CallsAfter, OnlyLastFails, ChainCanFail, TargetCanFail, RedeclaresTarget, ChainRepeats, IsFirst;
    var form := DeclForm(x);
    if DefaultFits(c, form) {
      forall d: Value, t: Trace, o: Oracle
        ensures DefaultCorrectUnder(c, d, zeros, form, f, reserved, user, counter, t, o)
      {
        if ChainCanFail(c) {
          LastDefaultRight(c, d, zeros, x, f, reserved, user, counter, t, o);
        } else {
          NeverNeeded(c, d, zeros, form, f, reserved, user, counter, t, o);
        }
      }
    } else if !Sound(c, form) {
      UnsoundDefault(c, Nil, zeros, form, f, reserved, user, counter, sig);
    } else if !TargetCanFail(c) {
      IgnoredShows(c, zeros, x, f, reserved, user, counter, sig);
    } else {
      var k := FirstCheck(c);
      TypedSteps(c, sig, f);
      OwnCheckLast(c, k, x, sig);
      LaterCallsShow(c, k, Nil, zeros, form, f, reserved, user, counter, sig);
    }
  }

  lemma TypedSteps(c: Chain, sig: string -> Kind, f: Frames)
    requires Typed(c, sig, f)
    ensures StepsTyped(c.steps, sig)
  {
  }

  lemma LastDefaultRight(c: Chain, d: Value, zeros: seq<Zero>, x: string, f: Frames, reserved: set<string>, user: set<string>,
                         counter: nat, t: Trace, o: Oracle)
    requires StatementInScope(c, DeclForm(x), f, reserved, user) && AllRendered(c.steps) && OnlyLastFails(c)
    ensures DefaultCorrectUnder(c, d, zeros, DeclForm(x), f, reserved, user, counter, t, o)
  {
    hide StatementInScope, OnlyLastFails, LowerStatement, ExecBlock, RunChain, EndsAs;
    if RunChain(c, f, t, o) != Malformed {
      DefaultAssigned(c, Literal(d), d, zeros, x, f, t, o, reserved, user, counter);
    }
  }

  /** An unsound chain is wrong with a default, too, when everything succeeds. */
  lemma UnsoundDefault(c: Chain, d: Value, zeros: seq<Zero>, form: Form, f: Frames, reserved: set<string>, user: set<string>,
                       counter: nat, sig: string -> Kind)
    requires StatementInScope(c, form, f, reserved, user) && Typed(c, sig, f) && !Sound(c, form)
    ensures !DefaultCorrectUnder(c, d, zeros, form, f, reserved, user, counter, [], Succeeds(sig))
  {
    hide StatementInScope, Typed, Sound, LowerStatement, ExecBlock, RunChain, Succeeds;
    UnsoundDiffers(c, DefaultClause(Literal(d)), zeros, form, f, reserved, user, counter, sig);
    var nodes := LowerStatement(c, DefaultClause(Literal(d)), zeros, form, counter, reserved);
    if nodes.Some? && ExecBlock(nodes.value, State(f, []), Succeeds(sig)).Done? {
      VisibleAll(ExecBlock(nodes.value, State(f, []), Succeeds(sig)).st.trace);
      VisibleAll(RunChain(c, f, [], Succeeds(sig)).trace);
    }
  }

  // ----- Assignments -----

  function Depth(v: Value): nat
  {
    match v
    case Explained(_, cause) => 1 + Depth(cause)
    case Described(_, cause) => 1 + Depth(cause)
    case Member(base, _) => 1 + Depth(base)
    case _ => 0
  }

  /** A call-free expression around a variable never has the variable's own value. */
  lemma {:induction false} DeeperThanLeaf(e: Expr, x: string, d: Value, f: Frames, t: Trace, o: Oracle)
    requires CallCount(e) == 0 && x in Vars(e) && Lookup(f, x) == Some(d)
    ensures var r := Single(Eval(e, f, t, o)); r.Val? ==> Depth(r.values[0]) >= Depth(d) + (if e == Var(x) then 0 else 1)
    decreases e
  {
    match e
    case Var(_) =>
    case Select(operand, _) => DeeperThanLeaf(operand, x, d, f, t, o);
    case Explain(_, err) => DeeperThanLeaf(err, x, d, f, t, o);
    case Describe(_, err) => DeeperThanLeaf(err, x, d, f, t, o);
    case _ =>
  }

  /** In the assignment form a failed first check assigns the default and goes on. */
  lemma AssignedAndGoesOn(c: Chain, k: int, first: Check, d: Value, zeros: seq<Zero>, x: string, rest: seq<Node>, f: Frames,
                          reserved: set<string>, user: set<string>, sig: string -> Kind)
    requires StatementInScope(c, AssignForm(x), f, reserved, user) && IsFirst(c, k)
    requires IsFirstCheck(c, k, first, sig, f, reserved, ModeOf(DefaultClause(Literal(d)), zeros, AssignForm(x)))
    ensures var o := FailsAt(sig, CallsBefore(c, k), PLAIN_FAILURE);
      var r := Eval(first.call, f, [], o);
      var nodes := Checked(first.num, first.names, first.call, first.errVar, LowerHandler(DefaultClause(Literal(d)), zeros, [x], first.errVar));
      && r.Val? && |r.values| == |first.names|
      && ExecBlock(nodes + rest, State(f, []), o) == ExecBlock(rest, State(Update(AfterAssign(f, first.names, r.values), x, d), r.trace), o)
  {
    hide ExecBlock, Eval, LowerHandler, FailsAt, CallCount, ExprTyped, CallsBefore, Checked;
    var o := FailsAt(sig, CallsBefore(c, k), PLAIN_FAILURE);
    EvalFails(first.call, KindAt(c, k), sig, f, [], PLAIN_FAILURE);
    var r := Eval(first.call, f, [], o);
    var f' := AfterAssign(f, first.names, r.values);
    assert Last(r.values) != Nil;
    assert Lookup(f', x).Some?;
    DefaultRuns(Literal(d), zeros, x, first.errVar, d, f', r.trace, o);
    CheckGoesOn(first.num, first.names, first.call, first.errVar, LowerHandler(DefaultClause(Literal(d)), zeros, [x], first.errVar), rest,
                State(f, []), State(Update(f', x, d), r.trace), o);
  }

  /** The value assigned in the end, if no call is left behind the failed check. */
  lemma AssignedInTheEnd(c: Chain, k: int, first: Check, final: Expr, d: Value, zeros: seq<Zero>, x: string, f: Frames,
                         reserved: set<string>, user: set<string>, counter: nat, sig: string -> Kind)
    requires StatementInScope(c, AssignForm(x), f, reserved, user) && Typed(c, sig, f) && IsFirst(c, k)
    requires var mode := ModeOf(DefaultClause(Literal(d)), zeros, AssignForm(x));
      && IsFirstCheck(c, k, first, sig, f, reserved, mode)
      && BeginsWith(c, k, first, counter, reserved, mode)
      && LowerSteps(StepsBehind(c, k), first.after, first.counter, first.num, reserved, mode).value.nodes == []
      && LowerChain(c, counter, reserved, mode).value.current == final
    requires DefaultCorrectUnder(c, d, zeros, AssignForm(x), f, reserved, user, counter, [], FailsAt(sig, CallsBefore(c, k), PLAIN_FAILURE))
    ensures var o := FailsAt(sig, CallsBefore(c, k), PLAIN_FAILURE);
      var r := Eval(first.call, f, [], o);
      && r.Val? && |r.values| == |first.names|
      && var v := Eval(final, Update(AfterAssign(f, first.names, r.values), x, d), r.trace, o);
        v.Val? && v.values == [d]
  {
    hide ExecBlock, Eval, LowerHandler, LowerChain, LowerSteps, FailsAt, CallsBefore, RunChain, ExprTyped, CallCount, Typed, Checked, OnFail, TargetsInScope, PackagesApart;
    var o := FailsAt(sig, CallsBefore(c, k), PLAIN_FAILURE);
    var mode := ModeOf(DefaultClause(Literal(d)), zeros, AssignForm(x));
    var l := LowerChain(c, counter, reserved, mode).value;
    var nodes := Checked(first.num, first.names, first.call, first.errVar, LowerHandler(DefaultClause(Literal(d)), zeros, [x], first.errVar));
    HandledIsX(d, zeros, x, first.temp, first.errVar);
    var store := [Assign([x], final, false)];
    assert nodes + [] == nodes;
    ChainFails(c, k, sig, f, 0, {}, PLAIN_FAILURE);
    AssignedAndGoesOn(c, k, first, d, zeros, x, store, f, reserved, user, sig);
    var r := Eval(first.call, f, [], o);
    var st := State(Update(AfterAssign(f, first.names, r.values), x, d), r.trace);
    UpdateKeepsNames(f, x, d);
    StoresOne(x, final, st, o);
  }

  lemma HandledIsX(d: Value, zeros: seq<Zero>, x: string, temp: string, errVar: string)
    ensures OnFail(ModeOf(DefaultClause(Literal(d)), zeros, AssignForm(x)), temp, errVar) == LowerHandler(DefaultClause(Literal(d)), zeros, [x], errVar)
  {
  }

  lemma StoresOne(x: string, e: Expr, st: State, o: Oracle)
    requires x != "_" && Lookup(st.frames, x).Some?
    ensures var out := ExecBlock([Assign([x], e, false)], st, o); var v := Eval(e, st.frames, st.trace, o);
      out.Done? ==> v.Val? && |v.values| == 1 && Lookup(out.st.frames, x) == Some(v.values[0])
  {
    ExecOne(Assign([x], e, false), st, o);
    var v := Eval(e, st.frames, st.trace, o);
    if v.Val? && |v.values| == 1 {
      assert AssignAll(st.frames, [x], v.values, false) == Update(st.frames, x, v.values[0]) by {
        assert [x][1..] == [] && v.values[1..] == [];
      }
      UpdateKeepsNames(st.frames, x, v.values[0]);
    }
  }

  /** Without a call left, one of two defaults is not what the variable gets, unless it is only checked again. */
  lemma AssignedShows(c: Chain, k: int, zeros: seq<Zero>, x: string, f: Frames, reserved: set<string>, user: set<string>,
                      counter: nat, sig: string -> Kind)
    requires StatementInScope(c, AssignForm(x), f, reserved, user) && AllRendered(c.steps) && Typed(c, sig, f)
    requires IsFirst(c, k) && CallsAfter(c, k) == 0 && !OnlyRechecks(c, x)
    ensures exists d, t, o :: !DefaultCorrectUnder(c, d, zeros, AssignForm(x), f, reserved, user, counter, t, o)
  {
    hide ExecBlock, Eval, LowerChain, LowerSteps, FailsAt, CallsBefore, DefaultCorrectUnder, CallCount, ExprTyped, StepCalls, Vars;
    var d, e := Nil, Data(0);
    var o := FailsAt(sig, CallsBefore(c, k), PLAIN_FAILURE);
    var form := AssignForm(x);
    var first := SplitAtFirst(c, k, DefaultClause(Literal(d)), DefaultClause(Literal(e)), zeros, form, f, reserved, user, counter, sig);
    var m1, m2 := ModeOf(DefaultClause(Literal(d)), zeros, form), ModeOf(DefaultClause(Literal(e)), zeros, form);
    var rest := StepsBehind(c, k);
    RestInScope(c, k, f, user, sig);
    NoCallsAllPlain(rest, sig);
    NestedFront(rest, first.after, first.counter, first.num, reserved, m1, sig, f, user);
    SameFront(rest, first.after, first.counter, first.num, reserved, m1, m2);
    var final := LowerSteps(rest, first.after, first.counter, first.num, reserved, m1).value.current;
    assert final != Var(x);
    if DefaultCorrectUnder(c, d, zeros, form, f, reserved, user, counter, [], o)
      && DefaultCorrectUnder(c, e, zeros, form, f, reserved, user, counter, [], o) {
      AssignedInTheEnd(c, k, first, final, d, zeros, x, f, reserved, user, counter, sig);
      AssignedInTheEnd(c, k, first, final, e, zeros, x, f, reserved, user, counter, sig);
      var r := Eval(first.call, f, [], o);
      var g := AfterAssign(f, first.names, r.values);
      NotBoth(final, x, d, e, g, r.trace, o);
    }
  }

  lemma NotBoth(final: Expr, x: string, d: Value, e: Value, g: Frames, t: Trace, o: Oracle)
    requires CallCount(final) == 0 && final != Var(x) && Lookup(g, x).Some? && d != e
    ensures var r, s := Eval(final, Update(g, x, d), t, o), Eval(final, Update(g, x, e), t, o);
      !(r.Val? && r.values == [d] && s.Val? && s.values == [e])
  {
    UpdateKeepsNames(g, x, d);
    UpdateKeepsNames(g, x, e);
    if x in Vars(final) {
      DeeperThanLeaf(final, x, d, Update(g, x, d), t, o);
    } else {
      EvalSame(final, Update(g, x, d), Update(g, x, e), t, o);
    }
  }

  /**
   The exact condition for `x = chain onerr d`: nothing can fail, or the statement is
   `x = x |> check() onerr d`. In all other chains the default is assigned and then
   overwritten, or calls are made behind the failure.
   */
  lemma DefaultReassignedExactly(c: Chain, zeros: seq<Zero>, x: string, f: Frames, reserved: set<string>, user: set<string>,
                                 counter: nat, sig: string -> Kind)
    requires StatementInScope(c, AssignForm(x), f, reserved, user) && Typed(c, sig, f)
    ensures (forall d: Value, t: Trace, o: Oracle :: DefaultCorrectUnder(c, d, zeros, AssignForm(x), f, reserved, user, counter, t, o))
      <==> DefaultFits(c, AssignForm(x))
  {
    hide StatementInScope, Typed, DefaultCorrectUnder, CallsAfter, ChainCanFail, ChainRepeats, OnlyRechecks, IsFirst;
    var form := AssignForm(x);
    if DefaultFits(c, form) {
      forall d: Value, t: Trace, o: Oracle
        ensures DefaultCorrectUnder(c, d, zeros, form, f, reserved, user, counter, t, o)
      {
        if ChainCanFail(c) {
          RecheckRight(c, d, zeros, x, f, reserved, user, counter, t, o);
        } else {
          NeverNeeded(c, d, zeros, form, f, reserved, user, counter, t, o);
        }
      }
    } else if !AllRendered(c.steps) {
      UnsoundDefault(c, Nil, zeros, form, f, reserved, user, counter, sig);
    } else {
      var k := FirstCheck(c);
      if CallsAfter(c, k) > 0 {
        LaterCallsShow(c, k, Nil, zeros, form, f, reserved, user, counter, sig);
      } else {
        AssignedShows(c, k, zeros, x, f, reserved, user, counter, sig);
      }
    }
  }

  /** `x = f() |> g() onerr 8080`, when g fails: x is what g returned with its error, not the default. */
  lemma DefaultLost(f: Frames, zeros: seq<Zero>, counter: nat)
    requires f.Scope? && f.vars.Keys == {"x"}
    ensures var o: Oracle := (_, event: Event) => if event.fn == "g" then Returns([Data(1), Raised(0)]) else Returns([Nil]);
      var nodes := LowerStatement(CALL_AND_CHECK, DefaultClause(Literal(Data(8080))), zeros, AssignForm("x"), counter, {"x"});
      var meant := RunWithDefault(CALL_AND_CHECK, AssignForm("x"), Data(8080), f, [], o);
      && meant.Done? && Lookup(meant.st.frames, "x") == Some(Data(8080))
      && nodes.Some? && var out := ExecBlock(nodes.value, State(f, []), o); out.Done? && Lookup(out.st.frames, "x") == Some(Data(1))
  {
    hide ExecBlock, LowerHandler, NextId, Numbered, RunChain, Eval, EvalAll, LowerChain;
    var o: Oracle := (_, event: Event) => if event.fn == "g" then Returns([Data(1), Raised(0)]) else Returns([Nil]);
    var d := Literal(Data(8080));
    var mode := ModeOf(DefaultClause(d), zeros, AssignForm("x"));
    var call := Call("g", [CALL_AND_CHECK.base], false);
    NextIsNew({"x"}, counter, "pipe");
    var k := NextId({"x"}, counter, "pipe");
    NextIsNew({"x"}, k, "err");
    var temp, errVar := Numbered("pipe", k), Numbered("err", NextId({"x"}, k, "err"));
    CallAndCheckLowers(d, zeros, counter, temp, errVar);
    CallAndCheckRuns(f, o);
    UpdateKeepsNames(f, "x", Data(8080));
    DefaultOverwritten(d, Data(8080), zeros, 1, temp, errVar, call, "x", State(f, []), o);
  }

  lemma CallAndCheckLowers(d: Expr, zeros: seq<Zero>, counter: nat, temp: string, errVar: string)
    requires var k := NextId({"x"}, counter, "pipe"); temp == Numbered("pipe", k) && errVar == Numbered("err", NextId({"x"}, k, "err"))
    ensures LowerChain(CALL_AND_CHECK, counter, {"x"}, ModeOf(DefaultClause(d), zeros, AssignForm("x"))).Some?
    ensures var l := LowerChain(CALL_AND_CHECK, counter, {"x"}, ModeOf(DefaultClause(d), zeros, AssignForm("x"))).value;
      && l.current == Var(temp)
      && l.nodes == Checked(1, [temp, errVar], Call("g", [CALL_AND_CHECK.base], false), errVar, LowerHandler(DefaultClause(d), zeros, ["x"], errVar))
  {
    hide LowerHandler, NextId, Numbered;
    var c, mode := CALL_AND_CHECK, ModeOf(DefaultClause(d), zeros, AssignForm("x"));
    assert c.steps[1..] == [] && PipeArgs(c.base, []) == [c.base];
    BaseInFront(c, counter, {"x"}, mode);
    var first := LowerStep(c.steps[0], [], c.base, counter, 0, {"x"}, mode).value;
    assert first.nodes + [] == first.nodes;
  }

  /** f is called, then g with its value. */
  lemma CallAndCheckRuns(f: Frames, o: Oracle)
    requires forall t: Trace, event: Event :: o(t, event) == if event.fn == "g" then Returns([Data(1), Raised(0)]) else Returns([Nil])
    ensures var t := [Event("f", [], false)] + [Event("g", [Nil], false)];
      && Eval(Call("g", [CALL_AND_CHECK.base], false), f, [], o) == Val([Data(1), Raised(0)], t)
      && RunChain(CALL_AND_CHECK, f, [], o) == Failed(Raised(0), t)
  {
    var c := CALL_AND_CHECK;
    assert c.steps[1..] == [];
    assert Eval(c.base, f, [], o) == Val([Nil], [Event("f", [], false)]);
    assert EvalAll([c.base], f, [], o) == Val([Nil], [Event("f", [], false)]) by {
      assert [c.base][1..] == [] && [Nil] + [] == [Nil];
    }
    assert Received([], Nil, f) == [Nil];
  }
}
