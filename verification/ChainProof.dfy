/**
 Simulation: the lowered steps, run on the machine, keep an expression whose
 evaluation is still owed, and evaluating it yields what the chain has by then.
 */
module ChainProof {
  import opened Prelude
  import opened Ir
  import opened Names
  import opened Pipes
  import opened Lowering
  import opened Machine
  import opened StepProof
  import opened HandlerProof

  // ----- Generated names never collide -----

  /** A user's name, or one generated so far. */
  ghost predicate Known(x: string, reserved: set<string>, counter: nat)
  {
    x in reserved || exists p, k: nat :: k <= counter && x == Numbered(p, k)
  }

  lemma NextIsNew(reserved: set<string>, counter: nat, prefix: string)
    ensures var k := NextId(reserved, counter, prefix); var x := Numbered(prefix, k);
      && !Known(x, reserved, counter) && Known(x, reserved, k) && x !in reserved && x != "_"
  {
    var k := NextId(reserved, counter, prefix);
    var x := Numbered(prefix, k);
    NextIdIsFirstFree(reserved, counter, prefix);
    if Known(x, reserved, counter) {
      var p, j: nat :| j <= counter && x == Numbered(p, j);
      NumberedInjective(prefix, k, p, j);
    }
    assert |x| >= 2;
  }

  lemma KnownLater(x: string, reserved: set<string>, counter: nat, later: nat)
    requires Known(x, reserved, counter) && counter <= later
    ensures Known(x, reserved, later)
  {
    if x !in reserved {
      var p, k: nat :| k <= counter && x == Numbered(p, k);
      assert k <= later && x == Numbered(p, k);
    }
  }

  // ----- The setting of one chain -----

  /** Everything fixed while a chain runs; `user` are the user variables in sight, with values in `g`. */
  datatype Setting = Setting(reserved: set<string>, mode: Mode, o: Oracle, pure: set<string>,
                             user: set<string>, g: Frames, outer: Frames)

  ghost predicate WellSet(s: Setting)
  {
    && Respects(s.o, s.pure)
    && s.user <= s.reserved
    && match s.mode
       case Inline(_, _, names, target) =>
         && (target != "" ==> target in s.reserved && target !in s.user && target != "_")
         && (names != [] ==> names[0] in s.user && Lookup(s.g, names[0]).Some?)
       case Labels(_, pipeErr) => pipeErr !in s.user && pipeErr != "_" && pipeErr !in s.reserved
  }

  /** A point of the run: user variables are untouched and every name in play is known. */
  ghost predicate At(s: Setting, f: Frames, counter: nat, current: Expr)
  {
    && f.Scope? && f.outer == s.outer
    && AgreeOn(f, s.g, s.user)
    && (forall x :: x in f.vars ==> Known(x, s.reserved, counter))
    && (forall x :: x in Vars(current) ==> Known(x, s.reserved, counter))
    && (s.mode.Labels? ==> forall x :: x in f.vars ==> x !in s.reserved)
    && (s.mode.Labels? ==> s.mode.pipeErr !in f.vars && Lookup(f, s.mode.pipeErr).Some? && Known(s.mode.pipeErr, s.reserved, counter))
  }

  /** Once declared, the target is part of the expression that holds the value. */
  ghost predicate TargetHeld(s: Setting, f: Frames, current: Expr)
  {
    HasTarget(s.mode) && DeclaredHere(f, s.mode.target) ==> s.mode.target in Vars(current)
  }

  /** Evaluating `e` now yields `v`, after visibly the calls of `u`. */
  ghost predicate Holds(s: Setting, e: Expr, st: State, v: Value, u: Trace)
  {
    var r := Eval(e, st.frames, st.trace, s.o);
    r.Val? && r.values == [v] && Visible(r.trace, s.pure) == Visible(u, s.pure)
  }

  ghost predicate Explodes(s: Setting, e: Expr, st: State, p: Value, u: Trace)
  {
    var r := Eval(e, st.frames, st.trace, s.o);
    r.Boom? && r.value == p && Visible(r.trace, s.pure) == Visible(u, s.pure)
  }

  /** The lowered clause leaves, and the clause mentions what is in scope. */
  ghost predicate ClauseFits(clause: Clause, g: Frames, user: set<string>)
  {
    LeavesLowered(clause) && ClauseInScope(clause, g, user) && NamesApart(clause, user)
  }

  /** The value a handler finds at hand: of the assigned variable, or what the target's own call returned. */
  function Offered(names: seq<string>, g: Frames, hand: Option<Value>): Option<Value>
  {
    if names != [] then Lookup(g, names[0]) else hand
  }

  ghost predicate FailsAs(s: Setting, out: Outcome, err: Value, u: Trace, site: Site)
  {
    match s.mode
    case Inline(clause, zeros, names, _) =>
      ClauseFits(clause, s.g, s.user) ==>
        LeavesAlike(out, LoweredHandle(clause, zeros, site.(hand := Offered(names, s.g, site.hand)), err, s.g, u, s.o), s.pure)
    case Labels(onErr, pipeErr) =>
      && out.Jump? && out.dest == onErr && Visible(out.st.trace, s.pure) == Visible(u, s.pure)
      && out.st.frames.Scope? && out.st.frames.outer == Update(s.outer, pipeErr, err)
  }

  ghost predicate PanicsAs(s: Setting, out: Outcome, final: Expr, p: Value, u: Trace)
  {
    || (out.Leave? && out.exit == Panicked(p) && Visible(out.trace, s.pure) == Visible(u, s.pure))
    || (out.Done? && Explodes(s, final, out.st, p, u))
  }

  /** When the last fallible step fails: the first value its call returned nevertheless. */
  function StepsAtHand(steps: seq<Step>, v: Value, f: Frames, t: Trace, o: Oracle): Option<Value>
  {
    if steps == [] then None
    else
      var a := Invoke(steps[0].target, v, f, t, o);
      var r := Settle(steps[0].kind, v, a);
      if r.Got? then StepsAtHand(steps[1..], r.value, f, r.trace, o)
      else if r.Failed? && steps[0].kind == Fallible && !HasFallible(steps[1..]) then Some(a.values[0])
      else None
  }

  /** The counter behind a step, which draws a name for its value and one for its error. */
  ghost function CounterAfter(kind: Kind, counter: nat, reserved: set<string>): nat
  {
    match kind
    case Plain => counter
    case Fallible => NextId(reserved, NextId(reserved, counter, "pipe"), "err")
    case ErrorOnly => NextId(reserved, counter, "err")
  }

  /** The error variable a checked step draws. */
  ghost function ErrName(kind: Kind, counter: nat, reserved: set<string>): string
  {
    Numbered("err", CounterAfter(kind, counter, reserved))
  }

  /** The error variable of the check that fails, if one does. */
  ghost function StepsErrVar(steps: seq<Step>, v: Value, f: Frames, t: Trace, o: Oracle, counter: nat, reserved: set<string>): string
  {
    if steps == [] then ""
    else
      var r := Settle(steps[0].kind, v, Invoke(steps[0].target, v, f, t, o));
      if r.Got? then StepsErrVar(steps[1..], r.value, f, r.trace, o, CounterAfter(steps[0].kind, counter, reserved), reserved)
      else ErrName(steps[0].kind, counter, reserved)
  }

  ghost function StepsSite(s: Setting, steps: seq<Step>, counter: nat, v: Value, u: Trace): Site
  {
    Site(if HasTarget(s.mode) then StepsAtHand(steps, v, s.g, u, s.o) else None, StepsErrVar(steps, v, s.g, u, s.o, counter, s.reserved))
  }

  /** The lowered run against the chain's meaning. */
  ghost predicate Simulates(s: Setting, out: Outcome, final: Expr, counter: nat, r: Run, site: Site)
  {
    match r
    case Got(v, u) => out.Done? && At(s, out.st.frames, counter, final) && TargetHeld(s, out.st.frames, final) && Holds(s, final, out.st, v, u)
    case Panicking(p, u) => PanicsAs(s, out, final, p, u)
    case Failed(err, u) => FailsAs(s, out, err, u, site)
    case Malformed => true
  }

  ghost predicate StepsInScope(steps: seq<Step>, g: Frames, user: set<string>)
  {
    forall i :: 0 <= i < |steps| ==> RendersFaithfully(steps[i].target) && TargetInScope(steps[i].target, g, user)
  }

  /** Whenever an error-only step is reached, the calls still nested in the value so far are pure. */
  predicate PendingCallsPure(steps: seq<Step>, pending: set<string>, pure: set<string>)
  {
    steps == [] ||
    match steps[0].kind
    case Plain => PendingCallsPure(steps[1..], pending + CalleeOf(steps[0].target), pure)
    case Fallible => PendingCallsPure(steps[1..], {}, pure)
    case ErrorOnly => pending <= pure && PendingCallsPure(steps[1..], pending, pure)
  }

  // ----- One error check -----

  function AfterAssign(f: Frames, names: seq<string>, values: seq<Value>): Frames
    requires 1 <= |names| == |values| <= 2
  {
    if |names| == 1 then Declare(f, names[0], values[0])
    else Declare(Declare(f, names[0], values[0]), names[1], values[1])
  }

  lemma DeclaresOne(f: Frames, x: string, v: Value)
    requires x != "_"
    ensures AssignAll(f, [x], [v], true) == Declare(f, x, v)
  {
    assert [x][1..] == [] && [v][1..] == [];
  }

  lemma DeclaresAll(f: Frames, names: seq<string>, values: seq<Value>)
    requires 1 <= |names| == |values| <= 2 && "_" !in names
    ensures AssignAll(f, names, values, true) == AfterAssign(f, names, values)
  {
    if |names| == 1 {
      DeclaresOne(f, names[0], values[0]);
      assert names == [names[0]] && values == [values[0]];
    } else {
      assert names[1..] == [names[1]] && values[1..] == [values[1]];
      DeclaresOne(Declare(f, names[0], values[0]), names[1], values[1]);
    }
  }

  /** The assignment of a checked call: it declares its names, or the callee's panic leaves. */
  lemma RunAssign(names: seq<string>, call: Expr, st: State, o: Oracle)
    requires 1 <= |names| <= 2 && "_" !in names && !DeclaredHere(st.frames, Last(names))
    ensures var r := Eval(call, st.frames, st.trace, o); var out := ExecNode(Assign(names, call, true), st, o);
      && (r.Boom? ==> out == Leave(Panicked(r.value), r.trace))
      && (r.Val? && |r.values| == |names| ==> out == Done(State(AfterAssign(st.frames, names, r.values), r.trace)))
  {
    var r := Eval(call, st.frames, st.trace, o);
    if r.Val? && |r.values| == |names| {
      DeclaresAll(st.frames, names, r.values);
      assert Last(names) in names;
      assert Assignable(st.frames, names, true);
    }
  }

  /** The check: goes on when the error is nil, else runs its body; a body that leaves ends the block. */
  lemma RunCheck(errVar: string, body: seq<Node>, rest: seq<Node>, st: State, o: Oracle)
    requires Lookup(st.frames, errVar).Some? && NoLabels(rest)
    ensures var out := ExecBlock([IfErrCheck(errVar, body)] + rest, st, o);
      if Lookup(st.frames, errVar).value == Nil then out == ExecBlock(rest, st, o)
      else var inner := CloseScope(ExecBlock(body, InnerScope(st), o)); !inner.Done? ==> out == inner
  {
    ExecCons(IfErrCheck(errVar, body), rest, st, o);
    var inner := CloseScope(ExecBlock(body, InnerScope(st), o));
    if inner.Jump? {
      FindNoLabel(rest, inner.dest);
    }
  }

  /** Comment, assignment and check, then the rest. */
  lemma RunChecked(stepNum: nat, names: seq<string>, call: Expr, errVar: string, body: seq<Node>, rest: seq<Node>, st: State, o: Oracle)
    requires 1 <= |names| <= 2 && "_" !in names && errVar == Last(names) && !DeclaredHere(st.frames, errVar)
    requires NoLabels(rest)
    ensures var r := Eval(call, st.frames, st.trace, o); var out := ExecBlock(Checked(stepNum, names, call, errVar, body) + rest, st, o);
      && (r.Boom? ==> out == Leave(Panicked(r.value), r.trace))
      && (r.Val? && |r.values| == |names| ==>
            var st' := State(AfterAssign(st.frames, names, r.values), r.trace);
            if Last(r.values) == Nil then out == ExecBlock(rest, st', o)
            else var inner := CloseScope(ExecBlock(body, InnerScope(st'), o));
              !inner.Done? ==> out == inner)
  {
    hide Eval, EvalAll, NoLabels, ExecBlock;
    var comment, assign, check := StepComment(stepNum), Assign(names, call, true), IfErrCheck(errVar, body);
    var fromCheck := [check] + rest;
    var fromAssign := [assign] + fromCheck;
    assert Checked(stepNum, names, call, errVar, body) + rest == [comment] + fromAssign;
    Proceeds(comment, fromAssign, st, st, o);
    RunAssign(names, call, st, o);
    var r := Eval(call, st.frames, st.trace, o);
    if r.Boom? {
      ExecCons(assign, fromCheck, st, o);
    } else if r.Val? && |r.values| == |names| {
      var st' := State(AfterAssign(st.frames, names, r.values), r.trace);
      Proceeds(assign, fromCheck, st, st', o);
      assert Lookup(st'.frames, errVar) == Some(Last(r.values));
      RunCheck(errVar, body, rest, st', o);
    }
  }

  lemma Proceeds(n: Node, rest: seq<Node>, st: State, st': State, o: Oracle)
    requires ExecNode(n, st, o) == Done(st')
    ensures ExecBlock([n] + rest, st, o) == ExecBlock(rest, st', o)
  {
    ExecCons(n, rest, st, o);
  }

  /** The body of an error check, run on a caught error. */
  lemma RunOnFail(s: Setting, temp: string, errVar: string, err: Value, f: Frames, counter: nat, t: Trace, u: Trace)
    requires WellSet(s) && At(s, f, counter, Var(errVar))
    requires Lookup(f, errVar) == Some(err) && errVar !in s.user && errVar != "_" && Generated(errVar) && errVar !in s.reserved
    requires Visible(t, s.pure) == Visible(u, s.pure)
    requires temp != "" ==> Lookup(f, temp).Some?
    ensures FailsAs(s, CloseScope(ExecBlock(OnFail(s.mode, temp, errVar), InnerScope(State(f, t)), s.o)), err, u,
                    Site(if HasTarget(s.mode) && temp == s.mode.target then Lookup(f, temp) else None, errVar))
  {
    hide ExecBlock, ExecNode, Eval, EvalAll, Visible, Respects, Known;
    match s.mode
    case Inline(clause, _, _, _) =>
      if ClauseFits(clause, s.g, s.user) {
        RunInline(s, temp, errVar, err, f, counter, t, u);
      }
    case Labels(_, _) => RunJump(s, temp, errVar, err, f, counter, t);
  }

  /** Inline the body is the handler, in a scope of its own. */
  lemma RunInline(s: Setting, temp: string, errVar: string, err: Value, f: Frames, counter: nat, t: Trace, u: Trace)
    requires WellSet(s) && s.mode.Inline? && ClauseFits(s.mode.clause, s.g, s.user) && At(s, f, counter, Var(errVar))
    requires Lookup(f, errVar) == Some(err) && errVar !in s.user && errVar != "_" && Generated(errVar) && errVar !in s.reserved
    requires Visible(t, s.pure) == Visible(u, s.pure)
    requires temp != "" ==> Lookup(f, temp).Some?
    ensures FailsAs(s, CloseScope(ExecBlock(OnFail(s.mode, temp, errVar), InnerScope(State(f, t)), s.o)), err, u,
                    Site(if HasTarget(s.mode) && temp == s.mode.target then Lookup(f, temp) else None, errVar))
  {
    hide ExecBlock, ExecNode, Eval, EvalAll, Visible, Respects, LoweredHandle, RoomFor, ClauseInScope, LeavesLowered, LowerHandler, Known;
    var clause, zeros, names, target := s.mode.clause, s.mode.zeros, s.mode.names, s.mode.target;
    var f' := Scope(f, map[]);
    var handlerNames := if names == [] && target != "" && temp == target then [target] else names;
    FreshScopeHasRoom(clause, zeros, errVar, f');
    HandlerMeaning(clause, zeros, handlerNames, errVar, err, f', s.g, s.user, t, u, s.o, s.pure);
  }

  /** In the goto form the body records the error and jumps. */
  lemma RunJump(s: Setting, temp: string, errVar: string, err: Value, f: Frames, counter: nat, t: Trace)
    requires WellSet(s) && s.mode.Labels? && At(s, f, counter, Var(errVar)) && Lookup(f, errVar) == Some(err)
    ensures CloseScope(ExecBlock(OnFail(s.mode, temp, errVar), InnerScope(State(f, t)), s.o))
      == Jump(s.mode.onErr, State(Scope(Update(f.outer, s.mode.pipeErr, err), f.vars), t))
  {
    var f' := Scope(f, map[]);
    var onErr, pipeErr := s.mode.onErr, s.mode.pipeErr;
    assert OnFail(s.mode, temp, errVar) == [Assign([pipeErr], Var(errVar), false), Goto(onErr)];
    assert Update(f, pipeErr, err) == Scope(Update(f.outer, pipeErr, err), f.vars);
    RecordAndJump(pipeErr, errVar, onErr, err, f', t, s.o);
  }

  lemma RecordAndJump(pipeErr: string, errVar: string, onErr: string, err: Value, f: Frames, t: Trace, o: Oracle)
    requires Lookup(f, errVar) == Some(err) && Lookup(f, pipeErr).Some? && pipeErr != "_"
    ensures ExecBlock([Assign([pipeErr], Var(errVar), false), Goto(onErr)], State(f, t), o) == Jump(onErr, State(Update(f, pipeErr, err), t))
  {
    var assign, jump := Assign([pipeErr], Var(errVar), false), Goto(onErr);
    assert [assign, jump] == [assign] + [jump];
    ExecCons(assign, [jump], State(f, t), o);
    assert Eval(Var(errVar), f, t, o) == Val([err], t);
    assert Assignable(f, [pipeErr], false);
    assert AssignAll(f, [pipeErr], [err], false) == Update(f, pipeErr, err) by {
      assert [pipeErr][1..] == [] && [err][1..] == [];
    }
    ExecOne(jump, State(Update(f, pipeErr, err), t), o);
  }

  // ----- Handing on the value -----

  lemma InvokeAlike(target: Target, v: Value, g: Frames, t: Trace, u: Trace, o: Oracle, pure: set<string>)
    requires Respects(o, pure) && Visible(t, pure) == Visible(u, pure) && RendersFaithfully(target)
    ensures Alike(Invoke(target, v, g, t, o), Invoke(target, v, g, u, o), pure)
  {
    match target
    case CallTarget(fn, args, spread) => AskAlike(o, pure, t, u, Event(fn, Received(args, v, g), spread));
    case Bare(name) => AskAlike(o, pure, t, u, Event(BuiltinName(name), [v], false));
    case _ =>
  }

  /** The rendered call of a step, evaluated where its left side still has to be evaluated. */
  lemma CallAlike(s: Setting, step: Step, current: Expr, st: State, counter: nat, v: Value, u: Trace)
    requires WellSet(s) && At(s, st.frames, counter, current) && Holds(s, current, st, v, u)
    requires StepsInScope([step], s.g, s.user)
    ensures StepCall(step.target, current).Some?
    ensures var call := StepCall(step.target, current).value;
      && Alike(Eval(call, st.frames, st.trace, s.o), Invoke(step.target, v, s.g, u, s.o), s.pure)
      && Calls(call) == Calls(current) + CalleeOf(step.target)
      && At(s, st.frames, counter, call)
      && Vars(current) <= Vars(call) <= Vars(current) + s.user
  {
    assert RendersFaithfully([step][0].target) && TargetInScope([step][0].target, s.g, s.user);
    StepCallMeaning(step.target, current, st.frames, s.g, s.user, st.trace, s.o);
    var r := Eval(current, st.frames, st.trace, s.o);
    InvokeAlike(step.target, v, s.g, r.trace, u, s.o, s.pure);
  }

  /** The names an error-returning step assigns are fresh, but for the target. */
  lemma NewNames(s: Setting, step: Step, rest: seq<Step>, current: Expr, f: Frames, counter: nat, stepNum: nat)
    requires WellSet(s) && step.kind != Plain && StepCall(step.target, current).Some?
    requires At(s, f, counter, current)
    ensures var first := LowerStep(step, rest, current, counter, stepNum, s.reserved, s.mode).value;
      && |first.nodes| == 3 && first.nodes[1].Assign? && first.nodes[2].IfErrCheck?
      && var names := first.nodes[1].names; var errVar := first.nodes[2].errVar;
      && first.nodes == Checked(stepNum + 1, names, StepCall(step.target, current).value, errVar, first.nodes[2].body)
      && NoLabels(first.nodes)
      && 1 <= |names| <= 2 && "_" !in names && Last(names) == errVar
      && !Known(errVar, s.reserved, counter) && Known(errVar, s.reserved, first.counter) && errVar !in s.user
      && errVar !in s.reserved && Generated(errVar)
      && (|names| == 2 && HasTarget(s.mode) ==> (names[0] == s.mode.target <==> !HasFallible(rest)))
      && (|names| == 2 <==> step.kind == Fallible)
      && (|names| == 2 ==> names[0] != errVar && names[0] !in s.user && Known(names[0], s.reserved, first.counter)
                           && (s.mode.Labels? ==> names[0] !in s.reserved)
                           && first.current == Var(names[0]) && first.nodes[2].body == OnFail(s.mode, names[0], errVar))
      && (|names| == 1 ==> first.current == current && first.nodes[2].body == OnFail(s.mode, "", errVar))
      && counter <= first.counter
      && (s.mode.Labels? ==> s.mode.pipeErr !in names)
  {
    if step.kind == Fallible {
      var k := NextId(s.reserved, counter, "pipe");
      NextIsNew(s.reserved, counter, "pipe");
      var k' := NextId(s.reserved, k, "err");
      NextIsNew(s.reserved, k, "err");
      var pipe, err := Numbered("pipe", k), Numbered("err", k');
      KnownLater(pipe, s.reserved, k, k');
      if Known(err, s.reserved, counter) {
        KnownLater(err, s.reserved, counter, k);
      }
    } else {
      NextIsNew(s.reserved, counter, "err");
    }
  }

  /** Once the owed evaluation panics, it is the next thing the lowered code does. */
  lemma {:induction false} PanicStays(s: Setting, steps: seq<Step>, current: Expr, st: State, counter: nat, stepNum: nat, p: Value, u: Trace)
    requires WellSet(s) && At(s, st.frames, counter, current) && Explodes(s, current, st, p, u)
    requires StepsInScope(steps, s.g, s.user)
    ensures var l := LowerSteps(steps, current, counter, stepNum, s.reserved, s.mode);
      && l.Some? && NoLabels(l.value.nodes)
      && PanicsAs(s, ExecBlock(l.value.nodes, st, s.o), l.value.current, p, u)
    decreases |steps|
  {
    hide Visible, Respects, ExecNode, EvalAll;
    if steps != [] {
      var step, rest := steps[0], steps[1..];
      StepCallMeaning(step.target, current, st.frames, s.g, s.user, st.trace, s.o);
      var call := StepCall(step.target, current).value;
      var first := LowerStep(step, rest, current, counter, stepNum, s.reserved, s.mode).value;
      if step.kind == Plain {
        PanicStays(s, rest, call, st, counter, stepNum, p, u);
        assert [] + LowerSteps(rest, call, counter, stepNum, s.reserved, s.mode).value.nodes
            == LowerSteps(rest, call, counter, stepNum, s.reserved, s.mode).value.nodes;
      } else {
        LowerStepsSome(s, rest, first.current, first.counter, first.stepNum);
        var tail := LowerSteps(rest, first.current, first.counter, first.stepNum, s.reserved, s.mode).value.nodes;
        var names, errVar := first.nodes[1].names, first.nodes[2].errVar;
        NewNames(s, step, rest, current, st.frames, counter, stepNum);
        RunChecked(stepNum + 1, names, call, errVar, first.nodes[2].body, tail, st, s.o);
      }
    }
  }

  lemma {:induction false} LowerStepsSome(s: Setting, steps: seq<Step>, current: Expr, counter: nat, stepNum: nat)
    requires StepsInScope(steps, s.g, s.user)
    ensures var l := LowerSteps(steps, current, counter, stepNum, s.reserved, s.mode); l.Some? && NoLabels(l.value.nodes)
    decreases |steps|
  {
    hide Eval, EvalAll, ExecBlock, ExecNode, TargetInScope, NextId, Numbered, OnFail;
    if steps != [] {
      assert RendersFaithfully(steps[0].target);
      var first := LowerStep(steps[0], steps[1..], current, counter, stepNum, s.reserved, s.mode).value;
      LowerStepsSome(s, steps[1..], first.current, first.counter, first.stepNum);
    }
  }

  // ----- The simulation -----

  /** The names of one error check are fresh; `temp` is the variable for the value, if there is one. */
  ghost predicate FreshNames(s: Setting, names: seq<string>, errVar: string, temp: string, counter: nat, counter': nat)
  {
    && counter <= counter'
    && 1 <= |names| <= 2 && "_" !in names && Last(names) == errVar
    && !Known(errVar, s.reserved, counter) && Known(errVar, s.reserved, counter') && errVar !in s.user
    && errVar !in s.reserved && Generated(errVar)
    && (|names| == 1 ==> temp == "")
    && (|names| == 2 ==> names[0] == temp && temp != errVar && temp !in s.user && Known(temp, s.reserved, counter')
                         && (s.mode.Labels? ==> temp !in s.reserved))
    && (s.mode.Labels? ==> s.mode.pipeErr !in names)
  }

  /** After the assignment the machine is at a point again, with the new names declared. */
  lemma AssignKeepsPoint(s: Setting, names: seq<string>, errVar: string, temp: string, current: Expr, f: Frames,
                         counter: nat, counter': nat, values: seq<Value>)
    requires WellSet(s) && At(s, f, counter, current) && FreshNames(s, names, errVar, temp, counter, counter')
    requires |values| == |names|
    ensures var f' := AfterAssign(f, names, values);
      && At(s, f', counter', current) && At(s, f', counter', Var(errVar))
      && (|names| == 2 ==> At(s, f', counter', Var(temp)) && Lookup(f', temp) == Some(values[0]))
      && Lookup(f', errVar) == Some(Last(values))
      && (|names| == 1 ==> AgreeOn(f, f', Vars(current)))
  {
    hide Numbered, Generated;
    var f' := AfterAssign(f, names, values);
    forall x | Known(x, s.reserved, counter)
      ensures Known(x, s.reserved, counter')
    {
      KnownLater(x, s.reserved, counter, counter');
    }
    forall x | x in f'.vars
      ensures Known(x, s.reserved, counter')
    {
      assert x in f.vars || x == errVar || (|names| == 2 && x == temp);
    }
  }

  /** What the failing call left in the target, if its check is the target's own. */
  function FirstAtHand(mode: Mode, temp: string, meant: Evaluation): Option<Value>
  {
    if HasTarget(mode) && temp == mode.target && meant.Val? && meant.values != [] then Some(meant.values[0]) else None
  }

  /** One error check against the settled result of the step it renders. */
  lemma CheckedMeaning(s: Setting, kind: Kind, stepNum: nat, names: seq<string>, call: Expr, errVar: string, temp: string,
                       current: Expr, counter: nat, counter': nat, tail: seq<Node>, st: State, v: Value, u: Trace, meant: Evaluation)
      returns (st': State)
    requires WellSet(s) && At(s, st.frames, counter, current) && FreshNames(s, names, errVar, temp, counter, counter')
    requires NoLabels(tail) && Alike(Eval(call, st.frames, st.trace, s.o), meant, s.pure)
    requires Settle(kind, v, meant) != Malformed
    requires TargetHeld(s, st.frames, current) && (|names| == 2 && HasTarget(s.mode) ==> !DeclaredHere(st.frames, s.mode.target))
    requires if |names| == 2 then kind == Fallible
             else kind == ErrorOnly && Holds(s, current, st, v, u) && Calls(current) <= s.pure
    ensures var out := ExecBlock(Checked(stepNum, names, call, errVar, OnFail(s.mode, temp, errVar)) + tail, st, s.o);
      var next := if |names| == 2 then Var(temp) else current;
      match Settle(kind, v, meant)
      case Got(w, u') => out == ExecBlock(tail, st', s.o) && At(s, st'.frames, counter', next) && TargetHeld(s, st'.frames, next)
                         && Holds(s, next, st', w, u') && Eval(call, st.frames, st.trace, s.o).Val?
                         && st'.trace == Eval(call, st.frames, st.trace, s.o).trace
                         && (forall x :: DeclaredHere(st.frames, x) || (|names| == 2 && x == temp) ==> DeclaredHere(st'.frames, x))
      case Failed(err, u') => FailsAs(s, out, err, u', Site(FirstAtHand(s.mode, temp, meant), errVar))
      case Panicking(p, u') => out.Leave? && out.exit == Panicked(p) && Visible(out.trace, s.pure) == Visible(u', s.pure)
      case Malformed => true
  {
    RunChecked(stepNum, names, call, errVar, OnFail(s.mode, temp, errVar), tail, st, s.o);
    var r := Eval(call, st.frames, st.trace, s.o);
    st' := st;
    if r.Val? {
      AssignKeepsPoint(s, names, errVar, temp, current, st.frames, counter, counter', r.values);
      st' := State(AfterAssign(st.frames, names, r.values), r.trace);
      if Last(r.values) == Nil {
        if |names| == 1 {
          EvalAgain(current, st.frames, st'.frames, st.trace, st'.trace, s.o, s.pure);
        }
      } else {
        RunOnFail(s, temp, errVar, Last(r.values), st'.frames, counter', r.trace, meant.trace);
      }
    }
  }

  /** A point of the run with steps still to go, all of them well scoped and none without meaning. */
  ghost predicate Ready(s: Setting, steps: seq<Step>, current: Expr, st: State, counter: nat, v: Value, u: Trace)
  {
    && WellSet(s) && At(s, st.frames, counter, current) && Holds(s, current, st, v, u)
    && StepsInScope(steps, s.g, s.user) && PendingCallsPure(steps, Calls(current), s.pure)
    && RunSteps(steps, v, s.g, u, s.o) != Malformed
    && TargetHeld(s, st.frames, current)
    && (HasTarget(s.mode) && s.mode.target in Vars(current) ==> !HasFallible(steps))
  }

  /** From such a point the lowered steps do what the steps mean. */
  ghost predicate Simulated(s: Setting, steps: seq<Step>, current: Expr, st: State, counter: nat, stepNum: nat, v: Value, u: Trace)
  {
    var l := LowerSteps(steps, current, counter, stepNum, s.reserved, s.mode);
    && l.Some? && NoLabels(l.value.nodes)
    && Simulates(s, ExecBlock(l.value.nodes, st, s.o), l.value.current, l.value.counter, RunSteps(steps, v, s.g, u, s.o),
                 StepsSite(s, steps, counter, v, u))
  }

  /** The simulation, for every chain and whatever the oracle answers. */
  lemma {:induction false} StepsSimulate(s: Setting, steps: seq<Step>, current: Expr, st: State, counter: nat, stepNum: nat, v: Value, u: Trace)
    requires Ready(s, steps, current, st, counter, v, u)
    ensures Simulated(s, steps, current, st, counter, stepNum, v, u)
    decreases |steps|, 1
  {
    if steps != [] {
      if steps[0].kind == Plain {
        PlainStepSimulates(s, steps, current, st, counter, stepNum, v, u);
      } else {
        CheckedStepSimulates(s, steps, current, st, counter, stepNum, v, u);
      }
    }
  }

  lemma FallibleTail(steps: seq<Step>)
    requires steps != []
    ensures HasFallible(steps) <==> steps[0].kind == Fallible || HasFallible(steps[1..])
  {
    if HasFallible(steps[1..]) {
      var i :| 0 <= i < |steps[1..]| && steps[1..][i].kind == Fallible;
      assert steps[i + 1].kind == Fallible;
    }
    if HasFallible(steps) {
      var i :| 0 <= i < |steps| && steps[i].kind == Fallible;
      assert i > 0 ==> steps[1..][i - 1].kind == Fallible;
    }
  }

  /** What is ready after a step that can fail and did not. */
  lemma ReadyAfter(s: Setting, steps: seq<Step>, current: Expr, st: State, counter: nat, stepNum: nat, v: Value, u: Trace,
                   first: Lowered, st': State, r: Run)
    requires Ready(s, steps, current, st, counter, v, u) && steps != [] && steps[0].kind != Plain
    requires Some(first) == LowerStep(steps[0], steps[1..], current, counter, stepNum, s.reserved, s.mode)
    requires r.Got? && r == Settle(steps[0].kind, v, Invoke(steps[0].target, v, s.g, u, s.o))
    requires At(s, st'.frames, first.counter, first.current) && TargetHeld(s, st'.frames, first.current)
    requires Holds(s, first.current, st', r.value, r.trace)
    ensures Ready(s, steps[1..], first.current, st', first.counter, r.value, r.trace)
  {
    FallibleTail(steps);
    if steps[0].kind == Fallible {
      NextIsNew(s.reserved, counter, "pipe");
    }
  }

  /** What is ready after a plain step that completed. */
  lemma ReadyAfterPlain(s: Setting, steps: seq<Step>, current: Expr, st: State, counter: nat, v: Value, u: Trace)
    requires Ready(s, steps, current, st, counter, v, u) && steps != [] && steps[0].kind == Plain
    ensures StepCall(steps[0].target, current).Some? && StepsInScope(steps[1..], s.g, s.user)
    ensures var call := StepCall(steps[0].target, current).value;
      var r := Settle(Plain, v, Invoke(steps[0].target, v, s.g, u, s.o));
      && (r.Got? ==> Ready(s, steps[1..], call, st, counter, r.value, r.trace))
      && (r.Panicking? ==> WellSet(s) && At(s, st.frames, counter, call) && Explodes(s, call, st, r.value, r.trace))
      && !r.Failed?
  {
    hide Visible, Respects, EvalAll, ExecBlock;
    FallibleTail(steps);
    CallAlike(s, steps[0], current, st, counter, v, u);
  }

  /** A plain step nests its call and leaves it owed. */
  lemma {:induction false} PlainStepSimulates(s: Setting, steps: seq<Step>, current: Expr, st: State, counter: nat, stepNum: nat, v: Value, u: Trace)
    requires Ready(s, steps, current, st, counter, v, u) && steps != [] && steps[0].kind == Plain
    ensures Simulated(s, steps, current, st, counter, stepNum, v, u)
    decreases |steps|, 0
  {
    hide Eval, EvalAll, ExecBlock, ExecNode, Invoke, At, Holds, StepsInScope, LowerStep, Explodes, WellSet;
    var rest := steps[1..];
    ReadyAfterPlain(s, steps, current, st, counter, v, u);
    var call := StepCall(steps[0].target, current).value;
    var r := Settle(Plain, v, Invoke(steps[0].target, v, s.g, u, s.o));
    PlainLowers(steps, current, counter, stepNum, s.reserved, s.mode);
    if r.Got? {
      StepsSimulate(s, rest, call, st, counter, stepNum, r.value, r.trace);
    } else if r.Panicking? {
      PanicStays(s, rest, call, st, counter, stepNum, r.value, r.trace);
    }
  }

  lemma PlainLowers(steps: seq<Step>, current: Expr, counter: nat, stepNum: nat, reserved: set<string>, mode: Mode)
    requires steps != [] && steps[0].kind == Plain && StepCall(steps[0].target, current).Some?
    ensures LowerSteps(steps, current, counter, stepNum, reserved, mode)
      == LowerSteps(steps[1..], StepCall(steps[0].target, current).value, counter, stepNum, reserved, mode)
  {
    var rest := LowerSteps(steps[1..], StepCall(steps[0].target, current).value, counter, stepNum, reserved, mode);
    if rest.Some? {
      assert [] + rest.value.nodes == rest.value.nodes;
    }
  }

  /** The nodes of one step that can fail, with its fresh names. */
  lemma StepNames(s: Setting, step: Step, rest: seq<Step>, current: Expr, f: Frames, counter: nat, stepNum: nat)
      returns (names: seq<string>, errVar: string, temp: string)
    requires WellSet(s) && step.kind != Plain && StepCall(step.target, current).Some?
    requires At(s, f, counter, current)
    ensures LowerStep(step, rest, current, counter, stepNum, s.reserved, s.mode).Some?
    ensures var first := LowerStep(step, rest, current, counter, stepNum, s.reserved, s.mode).value;
      && first.nodes == Checked(stepNum + 1, names, StepCall(step.target, current).value, errVar, OnFail(s.mode, temp, errVar))
      && NoLabels(first.nodes) && FreshNames(s, names, errVar, temp, counter, first.counter)
      && (|names| == 2 <==> step.kind == Fallible)
      && (HasTarget(s.mode) ==> (temp == s.mode.target <==> step.kind == Fallible && !HasFallible(rest)))
      && first.current == (if |names| == 2 then Var(temp) else current)
      && errVar == ErrName(step.kind, counter, s.reserved) && first.counter == CounterAfter(step.kind, counter, s.reserved)
  {
    hide At, WellSet, OnFail;
    NewNames(s, step, rest, current, f, counter, stepNum);
    var first := LowerStep(step, rest, current, counter, stepNum, s.reserved, s.mode).value;
    names, errVar := first.nodes[1].names, first.nodes[2].errVar;
    temp := if |names| == 2 then names[0] else "";
  }

  /** One step that can fail, in front of the lowered rest: it hands over to the rest, or is where the chain ends. */
  lemma CheckedStep(s: Setting, steps: seq<Step>, current: Expr, st: State, counter: nat, stepNum: nat, v: Value, u: Trace, tail: seq<Node>)
      returns (st': State)
    requires Ready(s, steps, current, st, counter, v, u) && steps != [] && steps[0].kind != Plain && NoLabels(tail)
    requires LowerStep(steps[0], steps[1..], current, counter, stepNum, s.reserved, s.mode).Some?
    ensures var first := LowerStep(steps[0], steps[1..], current, counter, stepNum, s.reserved, s.mode).value;
      var r := Settle(steps[0].kind, v, Invoke(steps[0].target, v, s.g, u, s.o));
      var out := ExecBlock(first.nodes + tail, st, s.o);
      && NoLabels(first.nodes) && first.counter == CounterAfter(steps[0].kind, counter, s.reserved)
      && if r.Got? then out == ExecBlock(tail, st', s.o) && Ready(s, steps[1..], first.current, st', first.counter, r.value, r.trace)
         else Simulates(s, out, first.current, first.counter, r, StepsSite(s, steps, counter, v, u)) && (r.Panicking? ==> out.Leave?)
    ensures StepCall(steps[0].target, current).Some?
    ensures var first := LowerStep(steps[0], steps[1..], current, counter, stepNum, s.reserved, s.mode).value;
      var call := Eval(StepCall(steps[0].target, current).value, st.frames, st.trace, s.o);
      Settle(steps[0].kind, v, Invoke(steps[0].target, v, s.g, u, s.o)).Got? ==>
        && call.Val? && st'.trace == call.trace
        && (forall x :: DeclaredHere(st.frames, x) ==> DeclaredHere(st'.frames, x))
        && (steps[0].kind == Fallible ==> first.current.Var? && DeclaredHere(st'.frames, first.current.name))
  {
    hide ExecBlock, ExecNode, Eval, EvalAll, OnFail, Visible, Respects, LowerStep;
    var step, rest := steps[0], steps[1..];
    FallibleTail(steps);
    CallAlike(s, step, current, st, counter, v, u);
    var call := StepCall(step.target, current).value;
    var meant := Invoke(step.target, v, s.g, u, s.o);
    var r := Settle(step.kind, v, meant);
    var first := LowerStep(step, rest, current, counter, stepNum, s.reserved, s.mode).value;
    var names, errVar, temp := StepNames(s, step, rest, current, st.frames, counter, stepNum);
    TargetUndeclared(s, steps, current, st, counter, v, u, names);
    st' := CheckedMeaning(s, step.kind, stepNum + 1, names, call, errVar, temp, current, counter, first.counter, tail, st, v, u, meant);
    if r.Got? {
      ReadyAfter(s, steps, current, st, counter, stepNum, v, u, first, st', r);
    }
  }

  lemma TargetUndeclared(s: Setting, steps: seq<Step>, current: Expr, st: State, counter: nat, v: Value, u: Trace, names: seq<string>)
    requires Ready(s, steps, current, st, counter, v, u) && steps != [] && (|names| == 2 ==> steps[0].kind == Fallible)
    ensures |names| == 2 && HasTarget(s.mode) ==> !DeclaredHere(st.frames, s.mode.target)
  {
  }

  /** A step that can fail materialises what is owed and checks the error. */
  lemma {:induction false} CheckedStepSimulates(s: Setting, steps: seq<Step>, current: Expr, st: State, counter: nat, stepNum: nat, v: Value, u: Trace)
    requires Ready(s, steps, current, st, counter, v, u) && steps != [] && steps[0].kind != Plain
    ensures Simulated(s, steps, current, st, counter, stepNum, v, u)
    decreases |steps|, 0
  {
    hide Ready, ExecBlock, Simulates, Eval, EvalAll, LowerStep, Settle, Invoke, At, Holds, StepCall, StepsInScope, CounterAfter, PendingCallsPure;
    var rest := steps[1..];
    LowerStepSome(s, steps, current, st, counter, stepNum, v, u);
    var first := LowerStep(steps[0], rest, current, counter, stepNum, s.reserved, s.mode).value;
    LowerStepsSome(s, rest, first.current, first.counter, first.stepNum);
    var tail := LowerSteps(rest, first.current, first.counter, first.stepNum, s.reserved, s.mode).value;
    var st' := CheckedStep(s, steps, current, st, counter, stepNum, v, u, tail.nodes);
    var r := Settle(steps[0].kind, v, Invoke(steps[0].target, v, s.g, u, s.o));
    assert LowerSteps(steps, current, counter, stepNum, s.reserved, s.mode) == Some(tail.(nodes := first.nodes + tail.nodes));
    if r.Got? {
      StepsSimulate(s, rest, first.current, st', first.counter, first.stepNum, r.value, r.trace);
    } else {
      EndsHere(s, ExecBlock(first.nodes + tail.nodes, st, s.o), first.current, first.counter, tail.current, tail.counter, r,
               StepsSite(s, steps, counter, v, u));
    }
  }

  lemma LowerStepSome(s: Setting, steps: seq<Step>, current: Expr, st: State, counter: nat, stepNum: nat, v: Value, u: Trace)
    requires Ready(s, steps, current, st, counter, v, u) && steps != []
    ensures LowerStep(steps[0], steps[1..], current, counter, stepNum, s.reserved, s.mode).Some?
    ensures StepsInScope(steps[1..], s.g, s.user)
  {
    assert RendersFaithfully(steps[0].target);
  }

  /** A chain that stops at a failed check ends the same whatever the rest would have held. */
  lemma EndsHere(s: Setting, out: Outcome, current: Expr, counter: nat, final: Expr, counter': nat, r: Run, site: Site)
    requires !r.Got? && Simulates(s, out, current, counter, r, site) && (r.Panicking? ==> out.Leave?)
    ensures Simulates(s, out, final, counter', r, site)
  {
  }
}
