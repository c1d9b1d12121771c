/**
 Well-typed chains, and oracles that answer by signature: everything succeeds, or
 everything but one call does.
 */
module Signatures {
  import opened Prelude
  import opened Ir
  import opened Pipes
  import opened Lowering
  import opened Machine
  import opened ChainProof
  import opened StatementProof
  import opened CountProof

  // ----- Types -----

  /** Every function has one signature; only the outermost call may return more than a value. */
  ghost predicate ExprTyped(e: Expr, kind: Kind, sig: string -> Kind, f: Frames)
  {
    match e
    case Var(name) => kind == Plain && Lookup(f, name).Some?
    case Literal(_) => kind == Plain
    case New(_, _) => kind == Plain
    case Select(operand, _) => kind == Plain && ExprTyped(operand, Plain, sig, f)
    case Explain(_, err) => kind == Plain && ExprTyped(err, Plain, sig, f)
    case Describe(_, err) => kind == Plain && ExprTyped(err, Plain, sig, f)
    case Call(fn, args, _) => sig(fn) == kind && forall i :: 0 <= i < |args| ==> ExprTyped(args[i], Plain, sig, f)
  }

  ghost predicate Wider(f: Frames, g: Frames)
  {
    forall y :: Lookup(f, y).Some? ==> Lookup(g, y).Some?
  }

  lemma {:induction false} TypedWider(e: Expr, kind: Kind, sig: string -> Kind, f: Frames, g: Frames)
    requires ExprTyped(e, kind, sig, f) && Wider(f, g)
    ensures ExprTyped(e, kind, sig, g)
    decreases e
  {
    match e
    case Select(operand, _) => TypedWider(operand, Plain, sig, f, g);
    case Explain(_, err) => TypedWider(err, Plain, sig, f, g);
    case Describe(_, err) => TypedWider(err, Plain, sig, f, g);
    case Call(_, args, _) =>
      forall i | 0 <= i < |args|
        ensures ExprTyped(args[i], Plain, sig, g)
      {
        TypedWider(args[i], Plain, sig, f, g);
      }
    case _ =>
  }

  predicate StepTyped(step: Step, sig: string -> Kind)
  {
    match step.target
    case CallTarget(fn, _, _) => sig(fn) == step.kind
    case Shorthand(name, _, _) => sig("." + name) == step.kind
    case ShorthandField(_) => step.kind == Plain
    case Qualified(pkg, name) => sig(pkg + "." + name) == step.kind
    case Bare(name) => sig(BuiltinName(name)) == step.kind
    case Unsupported => false
  }

  predicate StepsTyped(steps: seq<Step>, sig: string -> Kind)
  {
    forall i :: 0 <= i < |steps| ==> StepTyped(steps[i], sig)
  }

  /** What a call looks like from outside: the function and the number of its arguments. */
  type Shape = (string, nat)

  function Shapes(e: Expr): set<Shape>
  {
    match e
    case Var(_) => {}
    case Literal(_) => {}
    case New(_, _) => {}
    case Select(operand, _) => Shapes(operand)
    case Explain(_, err) => Shapes(err)
    case Describe(_, err) => Shapes(err)
    case Call(fn, args, _) => {(fn, |args|)} + ShapesOfAll(args)
  }

  function ShapesOfAll(es: seq<Expr>): set<Shape>
  {
    if es == [] then {} else Shapes(es[0]) + ShapesOfAll(es[1..])
  }

  /** The call a step means. */
  function MeantShape(target: Target): set<Shape>
  {
    match target
    case CallTarget(fn, args, _) => {(fn, if FirstPlaceholder(args) < |args| then |args| else 1 + |args|)}
    case Shorthand(name, args, _) => {("." + name, 1 + |args|)}
    case Qualified(pkg, name) => {(pkg + "." + name, 1)}
    case Bare(name) => {(BuiltinName(name), 1)}
    case _ => {}
  }

  function MeantShapes(steps: seq<Step>): set<Shape>
  {
    if steps == [] then {} else MeantShape(steps[0].target) + MeantShapes(steps[1..])
  }

  /** The call a shorthand method is rendered as, with the piped value once too often. */
  function MistakenShape(target: Target): set<Shape>
  {
    if target.Shorthand? then {("." + target.name, 2 + |target.args|)} else {}
  }

  function MistakenShapes(steps: seq<Step>): set<Shape>
  {
    if steps == [] then {} else MistakenShape(steps[0].target) + MistakenShapes(steps[1..])
  }

  /**
   One signature a function. A method that a shorthand step calls is not called with
   one argument more in the same chain, as no method in Go takes both but a variadic one.
   */
  ghost predicate Typed(c: Chain, sig: string -> Kind, f: Frames)
  {
    && ExprTyped(c.base, if c.baseFallible then Fallible else Plain, sig, f)
    && StepsTyped(c.steps, sig)
    && (Shapes(c.base) + MeantShapes(c.steps)) !! MistakenShapes(c.steps)
  }

  // ----- Oracles -----

  function SuccessReply(kind: Kind): Reply
  {
    Returns(if kind == Fallible then [Nil, Nil] else [Nil])
  }

  /** What a failing call returns: an error, and a value in front of it where there is one. */
  datatype Failing = Failing(value: Value, error: Value)
  type Failure = w: Failing | w.error != Nil witness Failing(Nil, Raised(0))

  const PLAIN_FAILURE: Failure := Failing(Nil, Raised(0))

  function FailureReply(kind: Kind, w: Failure): Reply
  {
    match kind
    case Plain => Returns([Nil])
    case Fallible => Returns([w.value, w.error])
    case ErrorOnly => Returns([w.error])
  }

  /** The call with n calls before it fails if it can; all others succeed. */
  function FailsAt(sig: string -> Kind, n: int, w: Failure): Oracle
  {
    (t: Trace, event: Event) => if |t| == n then FailureReply(sig(event.fn), w) else SuccessReply(sig(event.fn))
  }

  function Succeeds(sig: string -> Kind): Oracle
  {
    FailsAt(sig, -1, PLAIN_FAILURE)
  }

  lemma SuccessRespectsAll(sig: string -> Kind, pure: set<string>)
    ensures Respects(Succeeds(sig), pure)
  {
    var o := Succeeds(sig);
    forall t: Trace, u: Trace, event: Event
      ensures Harmless(o, event, t, u) && SameReply(o, event, t, u)
    {
      assert o(t, event) == SuccessReply(sig(event.fn)) == o(u, event);
    }
  }

  /** As many results as the kind has, the last of a call that can fail a nil error. */
  predicate Successful(r: Evaluation, kind: Kind)
  {
    && r.Val? && |r.values| == (if kind == Fallible then 2 else 1)
    && (kind != Plain ==> Last(r.values) == Nil)
  }

  lemma {:induction false} EvalTyped(e: Expr, kind: Kind, sig: string -> Kind, f: Frames, t: Trace, n: int, w: Failure)
    requires ExprTyped(e, kind, sig, f) && (n < |t| || n >= |t| + CallCount(e))
    ensures Successful(Eval(e, f, t, FailsAt(sig, n, w)), kind)
    decreases e
  {
    var o := FailsAt(sig, n, w);
    EvalCount(e, f, t, o);
    match e
    case Var(_) =>
    case Literal(_) =>
    case New(_, _) =>
    case Select(operand, _) => EvalTyped(operand, Plain, sig, f, t, n, w);
    case Explain(_, err) => EvalTyped(err, Plain, sig, f, t, n, w);
    case Describe(_, err) => EvalTyped(err, Plain, sig, f, t, n, w);
    case Call(fn, args, _) =>
      EvalAllTyped(args, sig, f, t, n, w);
  }

  lemma {:induction false} EvalAllTyped(es: seq<Expr>, sig: string -> Kind, f: Frames, t: Trace, n: int, w: Failure)
    requires forall i :: 0 <= i < |es| ==> ExprTyped(es[i], Plain, sig, f)
    requires n < |t| || n >= |t| + CallCountAll(es)
    ensures var r := EvalAll(es, f, t, FailsAt(sig, n, w)); r.Val? && |r.trace| == |t| + CallCountAll(es)
    decreases es
  {
    if es != [] {
      assert ExprTyped(es[0], Plain, sig, f);
      EvalTyped(es[0], Plain, sig, f, t, n, w);
      EvalCount(es[0], f, t, FailsAt(sig, n, w));
      var r := Single(Eval(es[0], f, t, FailsAt(sig, n, w)));
      EvalAllTyped(es[1..], sig, f, r.trace, n, w);
    }
  }

  /** The outermost call fails. */
  lemma EvalFails(e: Expr, kind: Kind, sig: string -> Kind, f: Frames, t: Trace, w: Failure)
    requires ExprTyped(e, kind, sig, f) && kind != Plain
    ensures var n := |t| + CallCount(e) - 1; var r := Eval(e, f, t, FailsAt(sig, n, w));
      e.Call? && r.Val? && r.values == (if kind == Fallible then [w.value, w.error] else [w.error]) && |r.trace| == n + 1
  {
    EvalAllTyped(e.args, sig, f, t, |t| + CallCount(e) - 1, w);
  }

  /** A call that is made later than the failing one, and yields results, has succeeded. */
  lemma LaterCallSucceeds(step: Step, sig: string -> Kind, n: int, w: Failure, left: Expr, f: Frames, t: Trace)
    requires StepTyped(step, sig) && StepCall(step.target, left).Some? && step.kind != Plain && n < |t|
    ensures var r := Eval(StepCall(step.target, left).value, f, t, FailsAt(sig, n, w));
      r.Val? && |r.values| == (if step.kind == Fallible then 2 else 1) ==> step.target.Qualified? || Last(r.values) == Nil
  {
    var call := StepCall(step.target, left).value;
    if call.Call? {
      EvalAllCount(call.args, f, t, FailsAt(sig, n, w));
    }
  }

  lemma StepSucceeds(step: Step, sig: string -> Kind, v: Value, g: Frames, u: Trace, n: int, w: Failure)
    requires StepTyped(step, sig) && (n != |u| || CalleeCount(step.target) == 0)
    ensures var r := Settle(step.kind, v, Invoke(step.target, v, g, u, FailsAt(sig, n, w)));
      r.Got? && |r.trace| == |u| + CalleeCount(step.target)
  {
  }

  lemma {:induction false} StepsSucceed(steps: seq<Step>, sig: string -> Kind, v: Value, g: Frames, u: Trace, n: int, w: Failure)
    requires StepsTyped(steps, sig) && (n < |u| || n >= |u| + StepCalls(steps))
    ensures RunSteps(steps, v, g, u, FailsAt(sig, n, w)).Got?
    decreases |steps|
  {
    if steps != [] {
      assert StepTyped(steps[0], sig);
      StepSucceeds(steps[0], sig, v, g, u, n, w);
      var r := Settle(steps[0].kind, v, Invoke(steps[0].target, v, g, u, FailsAt(sig, n, w)));
      StepsSucceed(steps[1..], sig, r.value, g, r.trace, n, w);
    }
  }

  lemma ChainSucceeds(c: Chain, sig: string -> Kind, f: Frames)
    requires Typed(c, sig, f)
    ensures RunChain(c, f, [], Succeeds(sig)).Got?
  {
    var kind := if c.baseFallible then Fallible else Plain;
    EvalTyped(c.base, kind, sig, f, [], -1, PLAIN_FAILURE);
    var r := Settle(kind, Nil, Eval(c.base, f, [], Succeeds(sig)));
    StepsSucceed(c.steps, sig, r.value, f, r.trace, -1, PLAIN_FAILURE);
  }

  // ----- A chain that fails at a chosen check -----

  /** The check of step k, or of the base for a negative k, is there. */
  predicate IsCheck(c: Chain, k: int)
  {
    if k < 0 then c.baseFallible else k < |c.steps| && c.steps[k].kind != Plain
  }

  /** The check assigns the target of a declaration. */
  predicate OwnCheck(c: Chain, k: int)
    requires IsCheck(c, k)
  {
    if k < 0 then AllErrorOnly(c.steps) else c.steps[k].kind == Fallible && !HasFallible(c.steps[k + 1..])
  }

  /** How many calls a run makes before the call that is checked there. */
  function CallsBefore(c: Chain, k: int): int
    requires IsCheck(c, k)
  {
    if k < 0 then CallCount(c.base) - 1 else CallCount(c.base) + StepCalls(c.steps[..k])
  }

  lemma StepFails(step: Step, sig: string -> Kind, v: Value, g: Frames, u: Trace, w: Failure)
    requires StepTyped(step, sig) && step.kind != Plain
    ensures var a := Invoke(step.target, v, g, u, FailsAt(sig, |u|, w)); var r := Settle(step.kind, v, a);
      r.Failed? && r.err == w.error && |r.trace| == |u| + 1 && (step.kind == Fallible ==> a.values[0] == w.value)
  {
    hide Invoke, StepTyped;
    var event := InvokeFails(step, sig, v, g, u, w);
  }

  /** The step's call is the one that fails. */
  lemma InvokeFails(step: Step, sig: string -> Kind, v: Value, g: Frames, u: Trace, w: Failure) returns (event: Event)
    requires StepTyped(step, sig) && step.kind != Plain
    ensures sig(event.fn) == step.kind && Invoke(step.target, v, g, u, FailsAt(sig, |u|, w)) == Val(FailureReply(step.kind, w).values, u + [event])
  {
    hide Received, BuiltinName, ArgValue;
    match step.target
    case CallTarget(fn, args, spread) => event := Event(fn, Received(args, v, g), spread);
    case Shorthand(name, args, spread) => event := Event("." + name, [v] + seq(|args|, i requires 0 <= i < |args| => ArgValue(args[i], v, g)), spread);
    case Qualified(pkg, name) => event := Event(pkg + "." + name, [v], false);
    case Bare(name) => event := Event(BuiltinName(name), [v], false);
  }

  /** The counter behind steps. */
  ghost function StepsCounter(steps: seq<Step>, counter: nat, reserved: set<string>): nat
  {
    if steps == [] then counter else StepsCounter(steps[1..], CounterAfter(steps[0].kind, counter, reserved), reserved)
  }

  /** The error variable that the check of step k, or of the base for a negative k, draws. */
  ghost function ErrNameAt(c: Chain, k: int, counter: nat, reserved: set<string>): string
    requires IsCheck(c, k)
  {
    if k < 0 then ErrName(Fallible, counter, reserved)
    else ErrName(c.steps[k].kind, StepsCounter(c.steps[..k], BaseCounter(c, counter, reserved), reserved), reserved)
  }

  lemma {:induction false} StepsFail(steps: seq<Step>, k: nat, sig: string -> Kind, v: Value, g: Frames, u: Trace,
                                     counter: nat, reserved: set<string>, w: Failure)
    requires StepsTyped(steps, sig) && k < |steps| && steps[k].kind != Plain
    ensures var n := |u| + StepCalls(steps[..k]); var r := RunSteps(steps, v, g, u, FailsAt(sig, n, w));
      && r.Failed? && r.err == w.error && |r.trace| == n + 1
      && StepsAtHand(steps, v, g, u, FailsAt(sig, n, w))
         == (if steps[k].kind == Fallible && !HasFallible(steps[k + 1..]) then Some(w.value) else None)
      && StepsErrVar(steps, v, g, u, FailsAt(sig, n, w), counter, reserved)
         == ErrName(steps[k].kind, StepsCounter(steps[..k], counter, reserved), reserved)
    decreases k
  {
    hide FailsAt, Invoke, Settle, CalleeCount, StepTyped, CounterAfter, ErrName;
    var n := |u| + StepCalls(steps[..k]);
    assert StepTyped(steps[0], sig);
    if k == 0 {
      assert steps[..k] == [];
      StepFails(steps[0], sig, v, g, u, w);
    } else {
      var rest := steps[1..];
      assert steps[..k][0] == steps[0] && steps[..k][1..] == rest[..k - 1] && rest[k - 1] == steps[k] && rest[k..] == steps[k + 1..];
      StepSucceeds(steps[0], sig, v, g, u, n, w);
      var r := Settle(steps[0].kind, v, Invoke(steps[0].target, v, g, u, FailsAt(sig, n, w)));
      StepsFail(rest, k - 1, sig, r.value, g, r.trace, CounterAfter(steps[0].kind, counter, reserved), reserved, w);
    }
  }

  lemma ChainFails(c: Chain, k: int, sig: string -> Kind, f: Frames, counter: nat, reserved: set<string>, w: Failure)
    requires Typed(c, sig, f) && IsCheck(c, k)
    ensures var o := FailsAt(sig, CallsBefore(c, k), w); var r := RunChain(c, f, [], o);
      && r.Failed? && r.err == w.error && |r.trace| == CallsBefore(c, k) + 1
      && ChainAtHand(c, f, [], o) == (if OwnCheck(c, k) then Some(w.value) else None)
      && ChainErrVar(c, f, [], o, counter, reserved) == ErrNameAt(c, k, counter, reserved)
  {
    hide FailsAt, Eval, CallCount, ExprTyped, StepCalls, StepsAtHand, RunSteps, StepsErrVar, ErrName, CounterAfter, StepsCounter;
    var n := CallsBefore(c, k);
    if k < 0 {
      EvalFails(c.base, Fallible, sig, f, [], w);
    } else {
      var kind := if c.baseFallible then Fallible else Plain;
      EvalTyped(c.base, kind, sig, f, [], n, w);
      EvalCount(c.base, f, [], FailsAt(sig, n, w));
      var r := Settle(kind, Nil, Eval(c.base, f, [], FailsAt(sig, n, w)));
      StepsFail(c.steps, k, sig, r.value, f, r.trace, BaseCounter(c, counter, reserved), reserved, w);
    }
  }

  /** Whichever check fails, its error variable is one of those drawn. */
  lemma {:induction false} StepsDraw(steps: seq<Step>, v: Value, f: Frames, t: Trace, o: Oracle, counter: nat, reserved: set<string>) returns (k: nat)
    requires RunSteps(steps, v, f, t, o).Failed?
    ensures k < |steps| && steps[k].kind != Plain
    ensures StepsErrVar(steps, v, f, t, o, counter, reserved) == ErrName(steps[k].kind, StepsCounter(steps[..k], counter, reserved), reserved)
    decreases |steps|
  {
    hide Invoke, CounterAfter, ErrName;
    var r := Settle(steps[0].kind, v, Invoke(steps[0].target, v, f, t, o));
    if r.Got? {
      var m := StepsDraw(steps[1..], r.value, f, r.trace, o, CounterAfter(steps[0].kind, counter, reserved), reserved);
      k := m + 1;
      assert steps[..k][0] == steps[0] && steps[..k][1..] == steps[1..][..m];
    } else {
      k := 0;
      assert steps[..k] == [];
    }
  }

  lemma ChainDraws(c: Chain, f: Frames, t: Trace, o: Oracle, counter: nat, reserved: set<string>) returns (k: int)
    requires RunChain(c, f, t, o).Failed?
    ensures IsCheck(c, k) && ChainErrVar(c, f, t, o, counter, reserved) == ErrNameAt(c, k, counter, reserved)
  {
    var r := Settle(if c.baseFallible then Fallible else Plain, Nil, Eval(c.base, f, t, o));
    if r.Got? {
      k := StepsDraw(c.steps, r.value, f, r.trace, o, BaseCounter(c, counter, reserved), reserved);
    } else {
      k := -1;
    }
  }

  /** Some check assigns the target. */
  predicate TargetCanFail(c: Chain)
  {
    HasFallible(c.steps) || (c.baseFallible && AllErrorOnly(c.steps))
  }

  lemma {:induction false} LastFallibleStep(steps: seq<Step>) returns (k: nat)
    requires HasFallible(steps)
    ensures k < |steps| && steps[k].kind == Fallible && !HasFallible(steps[k + 1..])
    decreases |steps|
  {
    FallibleTail(steps);
    if HasFallible(steps[1..]) {
      var m := LastFallibleStep(steps[1..]);
      assert steps[1..][m + 1..] == steps[m + 2..];
      k := m + 1;
    } else {
      k := 0;
    }
  }

  /** A check to let fail: the target's own where there is one. */
  lemma SomeCheck(c: Chain) returns (k: int)
    requires ChainCanFail(c)
    ensures IsCheck(c, k) && (OwnCheck(c, k) <==> TargetCanFail(c))
  {
    if HasFallible(c.steps) {
      k := LastFallibleStep(c.steps);
    } else if c.baseFallible {
      k := -1;
    } else {
      k :| 0 <= k < |c.steps| && c.steps[k].kind != Plain;
    }
  }

  // ----- What cannot fail does not -----

  lemma {:induction false} StepsNeverFail(steps: seq<Step>, v: Value, f: Frames, t: Trace, o: Oracle)
    requires !StepsCanFail(steps)
    ensures !RunSteps(steps, v, f, t, o).Failed?
    decreases |steps|
  {
    if steps != [] {
      CanFailTail(steps);
      var r := Settle(Plain, v, Invoke(steps[0].target, v, f, t, o));
      if r.Got? {
        StepsNeverFail(steps[1..], r.value, f, r.trace, o);
      }
    }
  }

  lemma NeverFails(c: Chain, f: Frames, t: Trace, o: Oracle)
    requires !ChainCanFail(c)
    ensures !RunChain(c, f, t, o).Failed?
  {
    var r := Settle(Plain, Nil, Eval(c.base, f, t, o));
    if r.Got? {
      StepsNeverFail(c.steps, r.value, f, r.trace, o);
    }
  }

  lemma {:induction false} StepsHandNeedsTarget(steps: seq<Step>, v: Value, f: Frames, t: Trace, o: Oracle)
    requires StepsAtHand(steps, v, f, t, o).Some?
    ensures HasFallible(steps)
    decreases |steps|
  {
    FallibleTail(steps);
    var r := Settle(steps[0].kind, v, Invoke(steps[0].target, v, f, t, o));
    if r.Got? {
      StepsHandNeedsTarget(steps[1..], r.value, f, r.trace, o);
    }
  }

  lemma HandNeedsTarget(c: Chain, f: Frames, t: Trace, o: Oracle)
    requires ChainAtHand(c, f, t, o).Some?
    ensures TargetCanFail(c)
  {
    var r := Settle(if c.baseFallible then Fallible else Plain, Nil, Eval(c.base, f, t, o));
    if r.Got? {
      StepsHandNeedsTarget(c.steps, r.value, f, r.trace, o);
    }
  }
}
