/**
 Steps that are rendered wrong show: a shorthand method gives itself away by the
 call it makes with one argument too many, a bare `pkg.Func` by not being a value.
 */
module ShapeProof {
  import opened Prelude
  import opened Ir
  import opened Names
  import opened Pipes
  import opened Lowering
  import opened Machine
  import opened StepProof
  import opened HandlerProof
  import opened ChainProof
  import opened StatementProof
  import opened CountProof
  import opened Signatures

  function TraceShapes(t: Trace): set<Shape>
  {
    set i | 0 <= i < |t| :: (t[i].fn, |t[i].args|)
  }

  lemma TraceGrows(t: Trace, e: Event)
    ensures TraceShapes(t + [e]) == TraceShapes(t) + {(e.fn, |e.args|)}
  {
    var u := t + [e];
    forall sh
      ensures sh in TraceShapes(u) <==> sh in TraceShapes(t) || sh == (e.fn, |e.args|)
    {
      if sh in TraceShapes(t) {
        var i :| 0 <= i < |t| && sh == (t[i].fn, |t[i].args|);
        assert u[i] == t[i];
      }
      assert u[|t|] == e;
    }
  }

  /** Evaluating makes calls of exactly the shapes written down. */
  lemma {:induction false} EvalShapes(e: Expr, f: Frames, t: Trace, o: Oracle)
    ensures var r := Eval(e, f, t, o); r.Val? ==> TraceShapes(r.trace) == TraceShapes(t) + Shapes(e)
    decreases e
  {
    match e
    case Var(_) =>
    case Literal(_) =>
    case New(_, _) =>
    case Select(operand, _) => EvalShapes(operand, f, t, o);
    case Explain(_, err) => EvalShapes(err, f, t, o);
    case Describe(_, err) => EvalShapes(err, f, t, o);
    case Call(fn, args, spread) =>
      EvalAllShapes(args, f, t, o);
      var r := EvalAll(args, f, t, o);
      if r.Val? {
        TraceGrows(r.trace, Event(fn, r.values, spread));
      }
  }

  lemma {:induction false} EvalAllShapes(es: seq<Expr>, f: Frames, t: Trace, o: Oracle)
    ensures var r := EvalAll(es, f, t, o); r.Val? ==> TraceShapes(r.trace) == TraceShapes(t) + ShapesOfAll(es)
    decreases es
  {
    if es != [] {
      EvalShapes(es[0], f, t, o);
      var first := Single(Eval(es[0], f, t, o));
      if first.Val? {
        EvalAllShapes(es[1..], f, first.trace, o);
      }
    }
  }

  /** A name that is not in scope has no value. */
  lemma {:induction false} EvalUnbound(e: Expr, x: string, f: Frames, t: Trace, o: Oracle)
    requires x in Vars(e) && Lookup(f, x).None?
    ensures !Eval(e, f, t, o).Val?
    decreases e
  {
    match e
    case Var(_) =>
    case Select(operand, _) => EvalUnbound(operand, x, f, t, o);
    case Explain(_, err) => EvalUnbound(err, x, f, t, o);
    case Describe(_, err) => EvalUnbound(err, x, f, t, o);
    case Call(_, args, _) => EvalAllUnbound(args, x, f, t, o);
    case _ =>
  }

  lemma {:induction false} EvalAllUnbound(es: seq<Expr>, x: string, f: Frames, t: Trace, o: Oracle)
    requires x in VarsOfAll(es) && Lookup(f, x).None?
    ensures !EvalAll(es, f, t, o).Val?
    decreases es
  {
    if x in Vars(es[0]) {
      EvalUnbound(es[0], x, f, t, o);
    } else {
      var first := Single(Eval(es[0], f, t, o));
      if first.Val? {
        EvalAllUnbound(es[1..], x, f, first.trace, o);
      }
    }
  }

  // ----- What a chain calls -----

  lemma InvokeShape(target: Target, v: Value, f: Frames, t: Trace, o: Oracle)
    ensures var r := Invoke(target, v, f, t, o); r.Val? ==> TraceShapes(r.trace) == TraceShapes(t) + MeantShape(target)
  {
    match target
    case CallTarget(fn, args, spread) => TraceGrows(t, Event(fn, Received(args, v, f), spread));
    case Shorthand(name, args, spread) =>
      TraceGrows(t, Event("." + name, [v] + seq(|args|, i requires 0 <= i < |args| => ArgValue(args[i], v, f)), spread));
    case Qualified(pkg, name) => TraceGrows(t, Event(pkg + "." + name, [v], false));
    case Bare(name) => TraceGrows(t, Event(BuiltinName(name), [v], false));
    case _ =>
  }

  lemma {:induction false} StepsShapes(steps: seq<Step>, v: Value, f: Frames, t: Trace, o: Oracle)
    ensures var r := RunSteps(steps, v, f, t, o); r.Got? ==> TraceShapes(r.trace) == TraceShapes(t) + MeantShapes(steps)
    decreases |steps|
  {
    hide Invoke, MeantShape, TraceShapes;
    if steps != [] {
      InvokeShape(steps[0].target, v, f, t, o);
      var r := Settle(steps[0].kind, v, Invoke(steps[0].target, v, f, t, o));
      if r.Got? {
        StepsShapes(steps[1..], r.value, f, r.trace, o);
      }
    }
  }

  lemma ChainShapes(c: Chain, f: Frames, o: Oracle)
    ensures var r := RunChain(c, f, [], o); r.Got? ==> TraceShapes(r.trace) == Shapes(c.base) + MeantShapes(c.steps)
  {
    hide Eval, RunSteps;
    EvalShapes(c.base, f, [], o);
    var r := Settle(if c.baseFallible then Fallible else Plain, Nil, Eval(c.base, f, [], o));
    if r.Got? {
      StepsShapes(c.steps, r.value, f, r.trace, o);
    }
  }

  // ----- What its lowering calls -----

  lemma ShapesOfOne(es: seq<Expr>, k: nat)
    requires k < |es|
    ensures Shapes(es[k]) <= ShapesOfAll(es)
  {
    if k > 0 {
      ShapesOfOne(es[1..], k - 1);
    }
  }

  /** Rendering keeps what the left side calls and mentions, but for a bare qualified name. */
  lemma StepCallKeeps(target: Target, left: Expr)
    requires StepCall(target, left).Some?
    ensures var call := StepCall(target, left).value;
      && (!target.Qualified? ==> Shapes(left) <= Shapes(call) && Vars(left) <= Vars(call))
      && (target.Qualified? ==> call == Select(Var(target.pkg), target.name))
      && (RendersFaithfully(target) ==> !target.Qualified?)
  {
    match target
    case CallTarget(fn, args, _) =>
      var k := if FirstPlaceholder(args) < |args| then FirstPlaceholder(args) else 0;
      ShapesOfOne(PipeArgs(left, args), k);
      VarsOfOne(PipeArgs(left, args), k);
    case Shorthand(_, args, _) =>
      ShapesOfOne([left] + PipeArgs(left, args), 0);
      VarsOfOne([left] + PipeArgs(left, args), 0);
    case Bare(_) =>
      ShapesOfOne([left], 0);
      VarsOfOne([left], 0);
    case _ =>
  }

  function Packages(steps: seq<Step>): set<string>
  {
    if steps == [] then {}
    else (if steps[0].target.Qualified? then {steps[0].target.pkg} else {}) + Packages(steps[1..])
  }

  /** A mistake shows in the value still owed or in the calls made: a mistaken call, or a package in the place of a value. */
  ghost predicate Mistaken(current: Expr, st: State, bad: set<Shape>, pkgs: set<string>)
  {
    || !(bad !! (Shapes(current) + TraceShapes(st.trace)))
    || !(pkgs !! Vars(current))
  }

  ghost predicate NoneBound(pkgs: set<string>, f: Frames)
  {
    forall p :: p in pkgs ==> Lookup(f, p).None?
  }

  /** A step that is rendered wrong makes the mistake, one that is rendered right keeps it. */
  lemma StepMistaken(target: Target, left: Expr, st: State, bad: set<Shape>, pkgs: set<string>)
    requires StepCall(target, left).Some? && MistakenShape(target) <= bad && (target.Qualified? ==> target.pkg in pkgs)
    requires target.Shorthand? ==> forall i :: 0 <= i < |target.args| ==> target.args[i].Operand?
    requires !RendersFaithfully(target) || Mistaken(left, st, bad, pkgs)
    ensures Mistaken(StepCall(target, left).value, st, bad, pkgs)
  {
    StepCallKeeps(target, left);
    var call := StepCall(target, left).value;
    match target
    case Qualified(pkg, _) => assert pkg in pkgs && pkg in Vars(call);
    case Shorthand(name, args, _) =>
      assert FirstPlaceholder(args) == |args|;
      assert |call.args| == 2 + |args|;
      assert ("." + name, 2 + |args|) in Shapes(call);
      assert ("." + name, 2 + |args|) in bad;
    case _ =>
  }

  /** If a mistaken value can be computed at all, the mistaken call has been made. */
  lemma MistakeComputed(e: Expr, st: State, o: Oracle, bad: set<Shape>, pkgs: set<string>)
    requires Mistaken(e, st, bad, pkgs) && NoneBound(pkgs, st.frames)
    ensures var r := Eval(e, st.frames, st.trace, o); r.Val? ==> !(bad !! TraceShapes(r.trace))
  {
    EvalShapes(e, st.frames, st.trace, o);
    if !(pkgs !! Vars(e)) {
      var p :| p in pkgs && p in Vars(e);
      EvalUnbound(e, p, st.frames, st.trace, o);
    }
  }

  /** Control stays in the statement. */
  predicate Goes(out: Outcome)
  {
    out.Done? || out.Jump?
  }

  /** A check that is passed leaves the names declared and the calls made. */
  lemma CheckPassed(stepNum: nat, names: seq<string>, call: Expr, errVar: string, body: seq<Node>, rest: seq<Node>, st: State, o: Oracle)
    requires 1 <= |names| <= 2 && "_" !in names && errVar == Last(names)
    requires Goes(ExecBlock(Checked(stepNum, names, call, errVar, body) + rest, st, o))
    ensures var r := Eval(call, st.frames, st.trace, o);
      && r.Val? && |r.values| == |names|
      && (Last(r.values) == Nil ==> ExecBlock(Checked(stepNum, names, call, errVar, body) + rest, st, o)
                                    == ExecBlock(rest, State(AfterAssign(st.frames, names, r.values), r.trace), o))
  {
    hide ExecBlock, Eval, EvalAll;
    var comment, assign, check := StepComment(stepNum), Assign(names, call, true), IfErrCheck(errVar, body);
    assert Checked(stepNum, names, call, errVar, body) + rest == [comment] + ([assign] + ([check] + rest));
    Proceeds(comment, [assign] + ([check] + rest), st, st, o);
    ExecCons(assign, [check] + rest, st, o);
    var r := Eval(call, st.frames, st.trace, o);
    assert ExecNode(assign, st, o).Done?;
    DeclaresAll(st.frames, names, r.values);
    var st' := State(AfterAssign(st.frames, names, r.values), r.trace);
    assert ExecNode(assign, st, o) == Done(st');
    assert Lookup(st'.frames, errVar) == Some(Last(r.values));
    if Last(r.values) == Nil {
      Proceeds(check, rest, st', st', o);
    }
  }

  /** Names an error check declares are generated, or the target. */
  ghost predicate CheckNames(names: seq<string>, mode: Mode)
  {
    && 1 <= |names| <= 2 && "_" !in names
    && forall x :: x in names ==> Generated(x) || (HasTarget(mode) && x == mode.target)
  }

  ghost predicate PackagesFree(pkgs: set<string>, mode: Mode)
  {
    && (forall p :: p in pkgs ==> !Generated(p))
    && (HasTarget(mode) ==> mode.target !in pkgs && mode.target != "_")
  }

  lemma StepCheckNames(step: Step, rest: seq<Step>, current: Expr, counter: nat, stepNum: nat, reserved: set<string>, mode: Mode)
    requires step.kind != Plain && StepCall(step.target, current).Some?
    requires HasTarget(mode) ==> mode.target != "_"
    ensures var first := LowerStep(step, rest, current, counter, stepNum, reserved, mode).value;
      && |first.nodes| == 3 && first.nodes[1].Assign? && first.nodes[2].IfErrCheck?
      && var names := first.nodes[1].names; var errVar := first.nodes[2].errVar;
      && CheckNames(names, mode) && errVar == Last(names)
      && first.nodes == Checked(stepNum + 1, names, StepCall(step.target, current).value, errVar, first.nodes[2].body)
      && (step.kind == ErrorOnly ==> |names| == 1 && first.current == current && first.nodes[2].body == OnFail(mode, "", errVar))
      && (step.kind == Fallible ==> |names| == 2 && first.current == Var(names[0]) && first.nodes[2].body == OnFail(mode, names[0], errVar))
  {
    if step.kind == Fallible {
      var k := NextId(reserved, counter, "pipe");
      var k' := NextId(reserved, k, "err");
      assert Generated(Numbered("pipe", k)) && Generated(Numbered("err", k'));
      assert |Numbered("pipe", k)| >= 2 && |Numbered("err", k')| >= 2;
    } else {
      var k := NextId(reserved, counter, "err");
      assert Generated(Numbered("err", k)) && |Numbered("err", k)| >= 2;
    }
  }

  lemma AssignBindsNone(f: Frames, names: seq<string>, values: seq<Value>, pkgs: set<string>, mode: Mode)
    requires CheckNames(names, mode) && |values| == |names| && NoneBound(pkgs, f) && PackagesFree(pkgs, mode)
    ensures NoneBound(pkgs, AfterAssign(f, names, values))
  {
    forall p | p in pkgs
      ensures Lookup(AfterAssign(f, names, values), p).None?
    {
      assert forall i :: 0 <= i < |names| ==> names[i] in names;
      assert forall i :: 0 <= i < |names| ==> p != names[i];
    }
  }

  ghost predicate StepsPlaced(steps: seq<Step>, bad: set<Shape>, pkgs: set<string>)
  {
    && MistakenShapes(steps) <= bad && Packages(steps) <= pkgs
    && forall i :: 0 <= i < |steps| && steps[i].target.Shorthand? ==> OwnArgs(steps[i].target)
  }

  predicate OwnArgs(target: Target)
    requires target.Shorthand?
  {
    forall i :: 0 <= i < |target.args| ==> target.args[i].Operand?
  }

  lemma {:induction false} TypedLowers(steps: seq<Step>, sig: string -> Kind, current: Expr, counter: nat, stepNum: nat, reserved: set<string>, mode: Mode)
    requires StepsTyped(steps, sig)
    ensures LowerSteps(steps, current, counter, stepNum, reserved, mode).Some?
    decreases |steps|
  {
    hide NextId, Numbered, OnFail;
    if steps != [] {
      assert StepTyped(steps[0], sig);
      var first := LowerStep(steps[0], steps[1..], current, counter, stepNum, reserved, mode).value;
      TypedLowers(steps[1..], sig, first.current, first.counter, first.stepNum, reserved, mode);
    }
  }

  lemma PlacedTail(steps: seq<Step>, bad: set<Shape>, pkgs: set<string>)
    requires steps != [] && StepsPlaced(steps, bad, pkgs)
    ensures StepsPlaced(steps[1..], bad, pkgs)
    ensures MistakenShape(steps[0].target) <= bad && (steps[0].target.Qualified? ==> steps[0].target.pkg in pkgs)
    ensures steps[0].target.Shorthand? ==> OwnArgs(steps[0].target)
  {
  }

  /** When the lowered steps complete under the oracle of successes, the mistake is in the value still owed or in the calls made. */
  lemma {:induction false} MistakeStays(steps: seq<Step>, sig: string -> Kind, current: Expr, st: State, counter: nat, stepNum: nat,
                                        reserved: set<string>, mode: Mode, bad: set<Shape>, pkgs: set<string>)
    requires StepsTyped(steps, sig) && StepsPlaced(steps, bad, pkgs) && PackagesFree(pkgs, mode) && NoneBound(pkgs, st.frames)
    requires !AllRendered(steps) || Mistaken(current, st, bad, pkgs)
    ensures LowerSteps(steps, current, counter, stepNum, reserved, mode).Some?
    ensures var l := LowerSteps(steps, current, counter, stepNum, reserved, mode).value; var out := ExecBlock(l.nodes, st, Succeeds(sig));
      !out.Jump? && (out.Done? ==> Mistaken(l.current, out.st, bad, pkgs) && NoneBound(pkgs, out.st.frames))
    decreases |steps|
  {
    hide ExecBlock, Eval, LowerStep, StepsPlaced, Mistaken, NoneBound, PackagesFree, StepTyped, StepCall, Succeeds;
    var o := Succeeds(sig);
    TypedLowers(steps, sig, current, counter, stepNum, reserved, mode);
    if steps == [] {
      ExecEmpty(st, o);
    } else {
      var step, rest := steps[0], steps[1..];
      PlacedTail(steps, bad, pkgs);
      RenderedTail(steps);
      TypedStepLowers(step, rest, sig, current, counter, stepNum, reserved, mode);
      var call := StepCall(step.target, current).value;
      if step.kind == Plain {
        if !RendersFaithfully(step.target) || AllRendered(rest) {
          StepMistaken(step.target, current, st, bad, pkgs);
        }
        MistakeStays(rest, sig, call, st, counter, stepNum, reserved, mode, bad, pkgs);
        PlainLowers(steps, current, counter, stepNum, reserved, mode);
      } else {
        var first := LowerStep(step, rest, current, counter, stepNum, reserved, mode).value;
        TypedLowers(rest, sig, first.current, first.counter, first.stepNum, reserved, mode);
        var tail := LowerSteps(rest, first.current, first.counter, first.stepNum, reserved, mode).value;
        if Goes(ExecBlock(first.nodes + tail.nodes, st, o)) {
          var st' := MistakeChecked(step, rest, sig, current, st, counter, stepNum, reserved, mode, bad, pkgs, tail.nodes);
          MistakeStays(rest, sig, first.current, st', first.counter, first.stepNum, reserved, mode, bad, pkgs);
        }
      }
    }
  }

  lemma ExecEmpty(st: State, o: Oracle)
    ensures ExecBlock([], st, o) == Done(st)
  {
  }

  lemma RenderedTail(steps: seq<Step>)
    requires steps != []
    ensures AllRendered(steps) <==> RendersFaithfully(steps[0].target) && AllRendered(steps[1..])
  {
    if RendersFaithfully(steps[0].target) && AllRendered(steps[1..]) {
      forall i | 0 <= i < |steps|
        ensures RendersFaithfully(steps[i].target)
      {
        assert i > 0 ==> RendersFaithfully(steps[1..][i - 1].target);
      }
    }
  }

  lemma TypedStepLowers(step: Step, rest: seq<Step>, sig: string -> Kind, current: Expr, counter: nat, stepNum: nat, reserved: set<string>, mode: Mode)
    requires StepTyped(step, sig)
    ensures StepCall(step.target, current).Some? && LowerStep(step, rest, current, counter, stepNum, reserved, mode).Some?
  {
  }

  /** One passed check: a mistake in the checked call is made. */
  lemma MistakeChecked(step: Step, rest: seq<Step>, sig: string -> Kind, current: Expr, st: State, counter: nat, stepNum: nat,
                       reserved: set<string>, mode: Mode, bad: set<Shape>, pkgs: set<string>, tail: seq<Node>) returns (st': State)
    requires StepTyped(step, sig) && step.kind != Plain && StepCall(step.target, current).Some?
    requires MistakenShape(step.target) <= bad && (step.target.Qualified? ==> step.target.pkg in pkgs)
    requires step.target.Shorthand? ==> OwnArgs(step.target)
    requires PackagesFree(pkgs, mode) && NoneBound(pkgs, st.frames)
    requires LowerStep(step, rest, current, counter, stepNum, reserved, mode).Some?
    requires Goes(ExecBlock(LowerStep(step, rest, current, counter, stepNum, reserved, mode).value.nodes + tail, st, Succeeds(sig)))
    ensures var first := LowerStep(step, rest, current, counter, stepNum, reserved, mode).value;
      && ExecBlock(first.nodes + tail, st, Succeeds(sig)) == ExecBlock(tail, st', Succeeds(sig))
      && NoneBound(pkgs, st'.frames)
      && (!RendersFaithfully(step.target) || Mistaken(current, st, bad, pkgs) ==> Mistaken(first.current, st', bad, pkgs))
  {
    hide ExecBlock, Eval, LowerStep, StepCall, FailsAt, TraceShapes, Shapes, AfterAssign;
    var o := Succeeds(sig);
    StepCheckNames(step, rest, current, counter, stepNum, reserved, mode);
    var first := LowerStep(step, rest, current, counter, stepNum, reserved, mode).value;
    var names, errVar, call := first.nodes[1].names, first.nodes[2].errVar, StepCall(step.target, current).value;
    CheckPassed(stepNum + 1, names, call, errVar, first.nodes[2].body, tail, st, o);
    var r := Eval(call, st.frames, st.trace, o);
    st' := State(AfterAssign(st.frames, names, r.values), r.trace);
    AssignBindsNone(st.frames, names, r.values, pkgs, mode);
    LaterCallSucceeds(step, sig, -1, PLAIN_FAILURE, current, st.frames, st.trace);
    StepCallKeeps(step.target, current);
    if step.target.Qualified? {
      EvalUnbound(call, step.target.pkg, st.frames, st.trace, o);
    }
    if !RendersFaithfully(step.target) || Mistaken(current, st, bad, pkgs) {
      StepMistaken(step.target, current, st, bad, pkgs);
      MistakeComputed(call, st, o, bad, pkgs);
    }
  }

  // ----- Whole statements -----

  /** When every call succeeds, the lowered statement does not complete with the calls the chain means. */
  ghost predicate SuccessDiffers(c: Chain, clause: Clause, zeros: seq<Zero>, form: Form, f: Frames, reserved: set<string>,
                                 counter: nat, sig: string -> Kind)
  {
    var run := RunChain(c, f, [], Succeeds(sig));
    var nodes := LowerStatement(c, clause, zeros, form, counter, reserved);
    run.Got? && (nodes.Some? ==> EndsElsewhere(ExecBlock(nodes.value, State(f, []), Succeeds(sig)), run.trace))
  }

  predicate EndsElsewhere(out: Outcome, t: Trace)
  {
    out.Done? ==> out.st.trace != t
  }

  lemma {:induction false} PackagesOf(steps: seq<Step>, p: string)
    requires p in Packages(steps)
    ensures exists i :: 0 <= i < |steps| && steps[i].target.Qualified? && steps[i].target.pkg == p
    decreases |steps|
  {
    if steps[0].target.Qualified? && steps[0].target.pkg == p {
    } else {
      PackagesOf(steps[1..], p);
      var i :| 0 <= i < |steps[1..]| && steps[1..][i].target.Qualified? && steps[1..][i].target.pkg == p;
      assert steps[i + 1].target.pkg == p;
    }
  }

  lemma PackagesAreFree(c: Chain, clause: Clause, zeros: seq<Zero>, form: Form, f: Frames, reserved: set<string>, user: set<string>)
    requires StatementInScope(c, form, f, reserved, user)
    ensures PackagesFree(Packages(c.steps), ModeOf(clause, zeros, form)) && NoneBound(Packages(c.steps), f)
    ensures StepsPlaced(c.steps, MistakenShapes(c.steps), Packages(c.steps))
    ensures form.DeclForm? ==> form.target !in Packages(c.steps)
  {
    forall p | p in Packages(c.steps)
      ensures PackageApart(p, form, f)
    {
      PackagesOf(c.steps, p);
    }
    forall i | 0 <= i < |c.steps| && c.steps[i].target.Shorthand?
      ensures OwnArgs(c.steps[i].target)
    {
      assert TargetInScope(c.steps[i].target, f, user);
    }
  }

  lemma BaseCheckNames(c: Chain, counter: nat, reserved: set<string>, mode: Mode)
    requires c.baseFallible && (HasTarget(mode) ==> mode.target != "_")
    ensures var b := LowerBase(c, counter, reserved, mode);
      && |b.nodes| == 3 && b.nodes[1].Assign? && b.nodes[2].IfErrCheck?
      && var names := b.nodes[1].names; var errVar := b.nodes[2].errVar;
      && CheckNames(names, mode) && |names| == 2 && errVar == Last(names)
      && b.nodes == Checked(1, names, c.base, errVar, OnFail(mode, names[0], errVar)) && b.current == Var(names[0])
  {
    var k := NextId(reserved, counter, "pipe");
    var k' := NextId(reserved, k, "err");
    assert Generated(Numbered("pipe", k)) && Generated(Numbered("err", k'));
    assert |Numbered("pipe", k)| >= 2 && |Numbered("err", k')| >= 2;
  }

  /** The mistake of a chain, base included. */
  lemma ChainMistake(c: Chain, sig: string -> Kind, f: Frames, counter: nat, reserved: set<string>, mode: Mode, bad: set<Shape>, pkgs: set<string>)
    requires Typed(c, sig, f) && !AllRendered(c.steps)
    requires StepsPlaced(c.steps, bad, pkgs) && PackagesFree(pkgs, mode) && NoneBound(pkgs, f)
    ensures LowerChain(c, counter, reserved, mode).Some?
    ensures var l := LowerChain(c, counter, reserved, mode).value; var out := ExecBlock(l.nodes, State(f, []), Succeeds(sig));
      !out.Jump? && (out.Done? ==> Mistaken(l.current, out.st, bad, pkgs) && NoneBound(pkgs, out.st.frames))
  {
    hide ExecBlock, Eval, LowerBase, LowerSteps, LowerChain, StepsPlaced, Mistaken, NoneBound, Succeeds, AfterAssign, StepTyped;
    var o, st := Succeeds(sig), State(f, []);
    var b := LowerBase(c, counter, reserved, mode);
    BaseInFront(c, counter, reserved, mode);
    TypedLowers(c.steps, sig, b.current, b.counter, b.stepNum, reserved, mode);
    var tail := LowerSteps(c.steps, b.current, b.counter, b.stepNum, reserved, mode).value;
    if !c.baseFallible {
      TypedLowers(c.steps, sig, c.base, counter, 0, reserved, mode);
      MistakeStays(c.steps, sig, c.base, st, counter, 0, reserved, mode, bad, pkgs);
    } else if Goes(ExecBlock(b.nodes + tail.nodes, st, o)) {
      BaseCheckNames(c, counter, reserved, mode);
      var names, errVar := b.nodes[1].names, b.nodes[2].errVar;
      CheckPassed(1, names, c.base, errVar, b.nodes[2].body, tail.nodes, st, o);
      BaseSucceeds(c, sig, f);
      var r := Eval(c.base, f, [], o);
      var st' := State(AfterAssign(f, names, r.values), r.trace);
      AssignBindsNone(f, names, r.values, pkgs, mode);
      MistakeStays(c.steps, sig, b.current, st', b.counter, b.stepNum, reserved, mode, bad, pkgs);
    }
  }

  lemma BaseSucceeds(c: Chain, sig: string -> Kind, f: Frames)
    requires Typed(c, sig, f) && c.baseFallible
    ensures Successful(Eval(c.base, f, [], Succeeds(sig)), Fallible)
  {
    EvalTyped(c.base, Fallible, sig, f, [], -1, PLAIN_FAILURE);
  }

  // ----- How many calls are made -----

  /** The lowered steps make all their calls, and the repeated ones, once past the call that fails. */
  lemma {:induction false} StepsCall(steps: seq<Step>, sig: string -> Kind, n: int, w: Failure, current: Expr, st: State, counter: nat, stepNum: nat,
                                     reserved: set<string>, mode: Mode, f: Frames, user: set<string>)
    requires StepsTyped(steps, sig) && AllRendered(steps) && TargetsInScope(steps, f, user) && n < |st.trace|
    requires HasTarget(mode) ==> mode.target != "_"
    ensures LowerSteps(steps, current, counter, stepNum, reserved, mode).Some?
    ensures var l := LowerSteps(steps, current, counter, stepNum, reserved, mode).value; var out := ExecBlock(l.nodes, st, FailsAt(sig, n, w));
      && !out.Jump?
      && (out.Done? ==> |out.st.trace| + CallCount(l.current)
                        >= |st.trace| + CallCount(current) + StepCalls(steps) + Repeats(steps, CallCount(current)))
    decreases |steps|
  {
    hide ExecBlock, Eval, LowerStep, FailsAt, StepTyped, StepCall, CallCount, TargetInScope, CalleeCount;
    var o := FailsAt(sig, n, w);
    TypedLowers(steps, sig, current, counter, stepNum, reserved, mode);
    if steps == [] {
      ExecEmpty(st, o);
    } else {
      var step, rest := steps[0], steps[1..];
      assert StepTyped(step, sig) && TargetInScope(step.target, f, user);
      RenderedTail(steps);
      TypedStepLowers(step, rest, sig, current, counter, stepNum, reserved, mode);
      StepCallCount(step.target, current, f, user);
      var call := StepCall(step.target, current).value;
      if step.kind == Plain {
        StepsCall(rest, sig, n, w, call, st, counter, stepNum, reserved, mode, f, user);
        PlainLowers(steps, current, counter, stepNum, reserved, mode);
      } else {
        var first := LowerStep(step, rest, current, counter, stepNum, reserved, mode).value;
        TypedLowers(rest, sig, first.current, first.counter, first.stepNum, reserved, mode);
        var tail := LowerSteps(rest, first.current, first.counter, first.stepNum, reserved, mode).value;
        if Goes(ExecBlock(first.nodes + tail.nodes, st, o)) {
          var st' := StepPassed(step, rest, sig, n, w, current, st, counter, stepNum, reserved, mode, tail.nodes);
          StepsCall(rest, sig, n, w, first.current, st', first.counter, first.stepNum, reserved, mode, f, user);
        }
      }
    }
  }

  lemma StepPassed(step: Step, rest: seq<Step>, sig: string -> Kind, n: int, w: Failure, current: Expr, st: State, counter: nat, stepNum: nat,
                   reserved: set<string>, mode: Mode, tail: seq<Node>) returns (st': State)
    requires StepTyped(step, sig) && step.kind != Plain && StepCall(step.target, current).Some? && RendersFaithfully(step.target) && n < |st.trace|
    requires HasTarget(mode) ==> mode.target != "_"
    requires LowerStep(step, rest, current, counter, stepNum, reserved, mode).Some?
    requires Goes(ExecBlock(LowerStep(step, rest, current, counter, stepNum, reserved, mode).value.nodes + tail, st, FailsAt(sig, n, w)))
    ensures var first := LowerStep(step, rest, current, counter, stepNum, reserved, mode).value;
      && ExecBlock(first.nodes + tail, st, FailsAt(sig, n, w)) == ExecBlock(tail, st', FailsAt(sig, n, w))
      && |st'.trace| == |st.trace| + CallCount(StepCall(step.target, current).value)
      && CallCount(first.current) == if step.kind == Fallible then 0 else CallCount(current)
  {
    hide ExecBlock, Eval, LowerStep, StepCall, FailsAt, AfterAssign, StepTyped;
    var o := FailsAt(sig, n, w);
    StepCheckNames(step, rest, current, counter, stepNum, reserved, mode);
    var first := LowerStep(step, rest, current, counter, stepNum, reserved, mode).value;
    var names, errVar, call := first.nodes[1].names, first.nodes[2].errVar, StepCall(step.target, current).value;
    CheckPassed(stepNum + 1, names, call, errVar, first.nodes[2].body, tail, st, o);
    LaterCallSucceeds(step, sig, n, w, current, st.frames, st.trace);
    EvalCount(call, st.frames, st.trace, o);
    var r := Eval(call, st.frames, st.trace, o);
    st' := State(AfterAssign(st.frames, names, r.values), r.trace);
  }

  /** The whole chain makes its calls, and the repeated ones, when every call succeeds. */
  lemma ChainCalls(c: Chain, sig: string -> Kind, g: Frames, counter: nat, reserved: set<string>, mode: Mode, f: Frames, user: set<string>)
    requires Typed(c, sig, g) && AllRendered(c.steps) && TargetsInScope(c.steps, f, user) && (HasTarget(mode) ==> mode.target != "_")
    ensures LowerChain(c, counter, reserved, mode).Some?
    ensures var l := LowerChain(c, counter, reserved, mode).value; var out := ExecBlock(l.nodes, State(g, []), Succeeds(sig));
      && !out.Jump?
      && (out.Done? ==> |out.st.trace| + CallCount(l.current) >= CallCount(c.base) + StepCalls(c.steps) + ChainRepeats(c))
  {
    hide ExecBlock, Eval, LowerBase, LowerSteps, LowerChain, FailsAt, AfterAssign, StepTyped, CallCount, StepCalls, Repeats, TargetInScope;
    var o, st := Succeeds(sig), State(g, []);
    var b := LowerBase(c, counter, reserved, mode);
    BaseInFront(c, counter, reserved, mode);
    TypedLowers(c.steps, sig, b.current, b.counter, b.stepNum, reserved, mode);
    var tail := LowerSteps(c.steps, b.current, b.counter, b.stepNum, reserved, mode).value;
    if !c.baseFallible {
      StepsCall(c.steps, sig, -1, PLAIN_FAILURE, c.base, st, counter, 0, reserved, mode, f, user);
    } else if Goes(ExecBlock(b.nodes + tail.nodes, st, o)) {
      BaseCheckNames(c, counter, reserved, mode);
      var names, errVar := b.nodes[1].names, b.nodes[2].errVar;
      CheckPassed(1, names, c.base, errVar, b.nodes[2].body, tail.nodes, st, o);
      BaseSucceeds(c, sig, g);
      EvalCount(c.base, g, [], o);
      NamesCallNothing();
      var r := Eval(c.base, g, [], o);
      StepsCall(c.steps, sig, -1, PLAIN_FAILURE, b.current, State(AfterAssign(g, names, r.values), r.trace), b.counter, b.stepNum, reserved, mode, f, user);
    }
  }

  lemma NamesCallNothing()
    ensures forall x :: CallCount(Var(x)) == 0
  {
  }

  /** Storing a value computes it. */
  lemma FinalComputes(form: Form, current: Expr, st: State, o: Oracle)
    requires form.AssignForm? ==> form.target != "_"
    ensures var out := ExecBlock(FinalNodes(form, current), st, o);
      out.Done? ==> if form.DeclForm? && current == Var(form.target) then out.st == st
                    else Eval(current, st.frames, st.trace, o).Val? && out.st.trace == Eval(current, st.frames, st.trace, o).trace
  {
    match form
    case DeclForm(x) =>
      if current == Var(x) {
        ExecEmpty(st, o);
      } else {
        ExecOne(Assign([x], current, true), st, o);
      }
    case AssignForm(x) => ExecOne(Assign([x], current, false), st, o);
    case StmtForm => ExecOne(Assign(["_"], current, false), st, o);
  }

  /** A jump or an exit does not reach the storing. */
  lemma FinalNeedsDone(out: Outcome, form: Form, current: Expr, o: Oracle)
    requires Then(out, FinalNodes(form, current), o).Done?
    ensures out.Done?
  {
    forall dest
      ensures FindLabel(FinalNodes(form, current), dest) == |FinalNodes(form, current)|
    {
      FindNoLabel(FinalNodes(form, current), dest);
    }
  }

  /** A chain with a step that is rendered wrong already differs when every call succeeds. */
  lemma UnrenderedDiffers(c: Chain, clause: Clause, zeros: seq<Zero>, form: Form, f: Frames, reserved: set<string>,
                          user: set<string>, counter: nat, sig: string -> Kind)
    requires StatementInScope(c, form, f, reserved, user) && Typed(c, sig, f) && !AllRendered(c.steps)
    ensures SuccessDiffers(c, clause, zeros, form, f, reserved, counter, sig)
  {
    hide ExecBlock, Eval, LowerChain, RunChain, Succeeds, FinalNodes, StepsTyped, ExprTyped, StepsPlaced, PackagesFree;
    var o, st, mode := Succeeds(sig), State(f, []), ModeOf(clause, zeros, form);
    var bad, pkgs := MistakenShapes(c.steps), Packages(c.steps);
    PackagesAreFree(c, clause, zeros, form, f, reserved, user);
    ChainMistake(c, sig, f, counter, reserved, mode, bad, pkgs);
    ChainSucceeds(c, sig, f);
    ChainShapes(c, f, o);
    var l := LowerChain(c, counter, reserved, mode).value;
    var final := FinalNodes(form, l.current);
    var out := ExecBlock(l.nodes + final, st, o);
    if out.Done? {
      ChainHasNoLabels(c, counter, reserved, mode);
      ExecAppend(l.nodes, final, st, o);
      FinalNeedsDone(ExecBlock(l.nodes, st, o), form, l.current, o);
      var st' := ExecBlock(l.nodes, st, o).st;
      FinalComputes(form, l.current, st', o);
      MistakeComputed(l.current, st', o, bad, pkgs);
      assert !(bad !! TraceShapes(out.st.trace));
    }
  }

  lemma {:induction false} StepsHaveNoLabels(steps: seq<Step>, current: Expr, counter: nat, stepNum: nat, reserved: set<string>, mode: Mode)
    ensures var l := LowerSteps(steps, current, counter, stepNum, reserved, mode); l.Some? ==> NoLabels(l.value.nodes)
    decreases |steps|
  {
    hide NextId, Numbered, OnFail;
    if steps != [] {
      var first := LowerStep(steps[0], steps[1..], current, counter, stepNum, reserved, mode);
      if first.Some? {
        StepsHaveNoLabels(steps[1..], first.value.current, first.value.counter, first.value.stepNum, reserved, mode);
      }
    }
  }

  lemma ChainHasNoLabels(c: Chain, counter: nat, reserved: set<string>, mode: Mode)
    requires LowerChain(c, counter, reserved, mode).Some?
    ensures NoLabels(LowerChain(c, counter, reserved, mode).value.nodes)
  {
    hide NextId, Numbered, OnFail;
    var b := LowerBase(c, counter, reserved, mode);
    StepsHaveNoLabels(c.steps, b.current, b.counter, b.stepNum, reserved, mode);
  }
}
