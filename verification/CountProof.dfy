/**
 Conservation of calls: the lowered chain calls what the chain calls, plus exactly
 the calls that error-only steps make again.
 */
module CountProof {
  import opened Ir
  import opened Pipes
  import opened Lowering
  import opened Machine
  import opened StepProof
  import opened ChainProof
  import opened StatementProof

  function CallCount(e: Expr): nat
  {
    match e
    case Var(_) => 0
    case Literal(_) => 0
    case New(_, _) => 0
    case Select(operand, _) => CallCount(operand)
    case Explain(_, err) => CallCount(err)
    case Describe(_, err) => CallCount(err)
    case Call(_, args, _) => 1 + CallCountAll(args)
  }

  function CallCountAll(es: seq<Expr>): nat
  {
    if es == [] then 0 else CallCount(es[0]) + CallCountAll(es[1..])
  }

  /** An evaluation that yields results made each of its calls once. */
  lemma {:induction false} EvalCount(e: Expr, f: Frames, t: Trace, o: Oracle)
    ensures var r := Eval(e, f, t, o); r.Val? ==> |r.trace| == |t| + CallCount(e)
    decreases e
  {
    match e
    case Var(_) =>
    case Literal(_) =>
    case New(_, _) =>
    case Select(operand, _) => EvalCount(operand, f, t, o);
    case Explain(_, err) => EvalCount(err, f, t, o);
    case Describe(_, err) => EvalCount(err, f, t, o);
    case Call(fn, args, spread) => EvalAllCount(args, f, t, o);
  }

  lemma {:induction false} EvalAllCount(es: seq<Expr>, f: Frames, t: Trace, o: Oracle)
    ensures var r := EvalAll(es, f, t, o); r.Val? ==> |r.trace| == |t| + CallCountAll(es)
    decreases es
  {
    if es != [] {
      EvalCount(es[0], f, t, o);
      var r := Single(Eval(es[0], f, t, o));
      if r.Val? {
        EvalAllCount(es[1..], f, r.trace, o);
      }
    }
  }

  lemma {:induction false} NoCallsNoCount(e: Expr)
    ensures CallCount(e) == 0 <==> Calls(e) == {}
    decreases e
  {
    match e
    case Var(_) =>
    case Literal(_) =>
    case New(_, _) =>
    case Select(operand, _) => NoCallsNoCount(operand);
    case Explain(_, err) => NoCallsNoCount(err);
    case Describe(_, err) => NoCallsNoCount(err);
    case Call(fn, args, spread) => assert fn in Calls(e);
  }

  lemma {:induction false} PlacedCount(es: seq<Expr>, k: int, f: Frames)
    requires OthersPeek(es, k, f)
    ensures CallCountAll(es) == if 0 <= k < |es| then CallCount(es[k]) else 0
  {
    if es != [] {
      if k != 0 {
        PeekEval(es[0], f, [], (_, _) => Returns([]));
        NoCallsNoCount(es[0]);
      }
      PlacedCount(es[1..], k - 1, f);
    }
  }

  function CalleeCount(target: Target): nat
  {
    if target.ShorthandField? then 0 else 1
  }

  lemma StepCallCount(target: Target, left: Expr, f: Frames, user: set<string>)
    requires RendersFaithfully(target) && TargetInScope(target, f, user)
    ensures StepCall(target, left).Some? && CallCount(StepCall(target, left).value) == CallCount(left) + CalleeCount(target)
  {
    match target
    case CallTarget(fn, args, spread) =>
      var es := PipeArgs(left, args);
      var p := FirstPlaceholder(args);
      var k := if p < |args| then p else 0;
      forall i | 0 <= i < |es| && i != k
        ensures Peek(es[i], f).Some?
      {
        assert es[i] == if p < |args| then args[i].e else args[i - 1].e;
      }
      assert es[k] == left;
      PlacedCount(es, k, f);
    case Bare(name) =>
      PlacedCount([left], 0, f);
    case _ =>
  }

  function StepCalls(steps: seq<Step>): nat
  {
    if steps == [] then 0 else CalleeCount(steps[0].target) + StepCalls(steps[1..])
  }

  /** The calls made again: at every error-only step, all that are nested in the value it looks at. */
  function Repeats(steps: seq<Step>, pending: nat): nat
  {
    if steps == [] then 0
    else match steps[0].kind
      case Plain => Repeats(steps[1..], pending + CalleeCount(steps[0].target))
      case Fallible => Repeats(steps[1..], 0)
      case ErrorOnly => pending + Repeats(steps[1..], pending)
  }

  function ChainRepeats(c: Chain): nat
  {
    Repeats(c.steps, if c.baseFallible then 0 else CallCount(c.base))
  }

  lemma {:induction false} NoRepeatsExactly(steps: seq<Step>, g: Frames, user: set<string>, pending: set<string>, count: nat)
    requires StepsInScope(steps, g, user) && (count == 0 <==> pending == {})
    ensures Repeats(steps, count) == 0 <==> PendingCallsPure(steps, pending, {})
    decreases |steps|
  {
    if steps != [] {
      var step, rest := steps[0], steps[1..];
      assert RendersFaithfully(step.target);
      match step.kind
      case Plain => NoRepeatsExactly(rest, g, user, pending + CalleeOf(step.target), count + CalleeCount(step.target));
      case Fallible => NoRepeatsExactly(rest, g, user, {}, 0);
      case ErrorOnly => NoRepeatsExactly(rest, g, user, pending, count);
    }
  }

  /** The chain's meaning calls every step once. */
  lemma {:induction false} MeaningCount(steps: seq<Step>, v: Value, g: Frames, u: Trace, o: Oracle)
    ensures var r := RunSteps(steps, v, g, u, o);
      r.Got? ==> |r.trace| == |u| + StepCalls(steps)
  {
    if steps != [] {
      var r := Settle(steps[0].kind, v, Invoke(steps[0].target, v, g, u, o));
      if r.Got? {
        MeaningCount(steps[1..], r.value, g, r.trace, o);
      }
    }
  }

  /** What a completed run of the lowered steps has called and declared. */
  ghost predicate Counted(s: Setting, steps: seq<Step>, current: Expr, st: State, out: Outcome, final: Expr)
  {
    && out.Done?
    && |out.st.trace| + CallCount(final)
       == |st.trace| + CallCount(current) + StepCalls(steps) + Repeats(steps, CallCount(current))
    && (forall x :: DeclaredHere(st.frames, x) ==> DeclaredHere(out.st.frames, x))
    && (HasTarget(s.mode) && HasFallible(steps) ==> DeclaredHere(out.st.frames, s.mode.target))
  }

  /** Conservation of calls: the lowered steps call what the chain calls, plus exactly the repeats. */
  lemma {:induction false} StepsCount(s: Setting, steps: seq<Step>, current: Expr, st: State, counter: nat, stepNum: nat, v: Value, u: Trace)
    requires Ready(s, steps, current, st, counter, v, u) && RunSteps(steps, v, s.g, u, s.o).Got?
    ensures var l := LowerSteps(steps, current, counter, stepNum, s.reserved, s.mode);
      l.Some? && Counted(s, steps, current, st, ExecBlock(l.value.nodes, st, s.o), l.value.current)
    decreases |steps|, 1
  {
    if steps != [] {
      if steps[0].kind == Plain {
        PlainStepCount(s, steps, current, st, counter, stepNum, v, u);
      } else {
        CheckedStepCount(s, steps, current, st, counter, stepNum, v, u);
      }
    }
  }

  lemma {:induction false} PlainStepCount(s: Setting, steps: seq<Step>, current: Expr, st: State, counter: nat, stepNum: nat, v: Value, u: Trace)
    requires Ready(s, steps, current, st, counter, v, u) && RunSteps(steps, v, s.g, u, s.o).Got?
    requires steps != [] && steps[0].kind == Plain
    ensures var l := LowerSteps(steps, current, counter, stepNum, s.reserved, s.mode);
      l.Some? && Counted(s, steps, current, st, ExecBlock(l.value.nodes, st, s.o), l.value.current)
    decreases |steps|, 0
  {
    hide Ready, Eval, EvalAll, ExecBlock, ExecNode, Invoke, Settle, At, Holds, StepsInScope, LowerStep;
    var rest := steps[1..];
    FallibleTail(steps);
    CallOf(s, steps, current, st, counter, v, u);
    var call := StepCall(steps[0].target, current).value;
    var r := Settle(Plain, v, Invoke(steps[0].target, v, s.g, u, s.o));
    ReadyAfterPlain(s, steps, current, st, counter, v, u);
    StepsCount(s, rest, call, st, counter, stepNum, r.value, r.trace);
    PlainLowers(steps, current, counter, stepNum, s.reserved, s.mode);
  }

  lemma {:induction false} CheckedStepCount(s: Setting, steps: seq<Step>, current: Expr, st: State, counter: nat, stepNum: nat, v: Value, u: Trace)
    requires Ready(s, steps, current, st, counter, v, u) && RunSteps(steps, v, s.g, u, s.o).Got?
    requires steps != [] && steps[0].kind != Plain
    ensures var l := LowerSteps(steps, current, counter, stepNum, s.reserved, s.mode);
      l.Some? && Counted(s, steps, current, st, ExecBlock(l.value.nodes, st, s.o), l.value.current)
    decreases |steps|, 0
  {
    hide Ready, Eval, EvalAll, ExecBlock, ExecNode, Invoke, Settle, At, Holds, StepsInScope, LowerStep, StepCall, CallCount, Simulates, WellSet, HasFallible;
    var rest := steps[1..];
    FallibleTail(steps);
    LowerStepSome(s, steps, current, st, counter, stepNum, v, u);
    CallOf(s, steps, current, st, counter, v, u);
    var call := StepCall(steps[0].target, current).value;
    EvalCount(call, st.frames, st.trace, s.o);
    var r := Settle(steps[0].kind, v, Invoke(steps[0].target, v, s.g, u, s.o));
    var first := LowerStep(steps[0], rest, current, counter, stepNum, s.reserved, s.mode).value;
    LowerStepsSome(s, rest, first.current, first.counter, first.stepNum);
    var tail := LowerSteps(rest, first.current, first.counter, first.stepNum, s.reserved, s.mode).value;
    var st' := CheckedStep(s, steps, current, st, counter, stepNum, v, u, tail.nodes);
    StepsCount(s, rest, first.current, st', first.counter, first.stepNum, r.value, r.trace);
    FirstHolds(s, steps, current, counter, stepNum);
  }

  lemma CallOf(s: Setting, steps: seq<Step>, current: Expr, st: State, counter: nat, v: Value, u: Trace)
    requires Ready(s, steps, current, st, counter, v, u) && steps != []
    ensures StepCall(steps[0].target, current).Some?
    ensures CallCount(StepCall(steps[0].target, current).value) == CallCount(current) + CalleeCount(steps[0].target)
  {
    assert RendersFaithfully(steps[0].target) && TargetInScope(steps[0].target, s.g, s.user);
    StepCallCount(steps[0].target, current, s.g, s.user);
  }

  /** What one lowered step leaves as the holder of the value. */
  lemma FirstHolds(s: Setting, steps: seq<Step>, current: Expr, counter: nat, stepNum: nat)
    requires steps != [] && steps[0].kind != Plain
    requires LowerStep(steps[0], steps[1..], current, counter, stepNum, s.reserved, s.mode).Some?
    ensures var first := LowerStep(steps[0], steps[1..], current, counter, stepNum, s.reserved, s.mode).value;
      && (steps[0].kind == ErrorOnly ==> first.current == current)
      && (steps[0].kind == Fallible ==> CallCount(first.current) == 0)
      && (steps[0].kind == Fallible && HasTarget(s.mode) && !HasFallible(steps[1..]) ==> first.current == Var(s.mode.target))
  {
  }

  /** Conservation for the whole chain, base included. */
  lemma ChainCount(s: Setting, c: Chain, st: State, counter: nat)
    requires ChainReady(s, c, st, counter) && RunChain(c, s.g, st.trace, s.o).Got?
    ensures LowerChain(c, counter, s.reserved, s.mode).Some?
    ensures var l := LowerChain(c, counter, s.reserved, s.mode); var out := ExecBlock(l.value.nodes, st, s.o);
      && out.Done?
      && |out.st.trace| + CallCount(l.value.current) == |RunChain(c, s.g, st.trace, s.o).trace| + ChainRepeats(c)
      && (HasTarget(s.mode) && HasFallible(c.steps) ==> DeclaredHere(out.st.frames, s.mode.target))
  {
    hide Visible, Respects, Eval, EvalAll, ExecBlock, LowerStep, LowerBase, LowerSteps, LowerChain, FailsAs, At, WellSet;
    var b := LowerBase(c, counter, s.reserved, s.mode);
    LowerStepsSome(s, c.steps, b.current, b.counter, b.stepNum);
    BaseInFront(c, counter, s.reserved, s.mode);
    var tail := LowerSteps(c.steps, b.current, b.counter, b.stepNum, s.reserved, s.mode).value;
    EvalCount(c.base, st.frames, st.trace, s.o);
    EvalCount(c.base, s.g, st.trace, s.o);
    var r := Settle(if c.baseFallible then Fallible else Plain, Nil, Eval(c.base, s.g, st.trace, s.o));
    MeaningCount(c.steps, r.value, s.g, r.trace, s.o);
    if c.baseFallible {
      var st' := FallibleBase(s, c, st, counter, tail.nodes);
      StepsCount(s, c.steps, b.current, st', b.counter, b.stepNum, r.value, r.trace);
    } else {
      LowerStepsSome(s, c.steps, c.base, counter, 0);
      PlainBase(s, c, st, counter);
      StepsCount(s, c.steps, c.base, st, counter, 0, r.value, r.trace);
    }
  }
}
