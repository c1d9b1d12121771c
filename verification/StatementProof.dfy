/**
 The main theorems on `onerr` pipe chains: the lowered statement does what the
 chain means, and the exact condition under which it does so for every oracle.
 */
module StatementProof {
  import opened Prelude
  import opened Ir
  import opened Names
  import opened Pipes
  import opened Lowering
  import opened Machine
  import opened StepProof
  import opened HandlerProof
  import opened ChainProof

  /** The calls nested in the base when the first step is reached. */
  function BasePending(c: Chain): set<string>
  {
    if c.baseFallible then {} else Calls(c.base)
  }

  ghost predicate ChainReady(s: Setting, c: Chain, st: State, counter: nat)
  {
    && WellSet(s) && At(s, st.frames, counter, Literal(Nil)) && TargetHeld(s, st.frames, Literal(Nil))
    && Vars(c.base) <= s.user && StepsInScope(c.steps, s.g, s.user)
    && PendingCallsPure(c.steps, BasePending(c), s.pure)
    && RunChain(c, s.g, st.trace, s.o) != Malformed
  }

  /** The names of a fallible base's check are fresh, but for the target. */
  lemma BaseNames(s: Setting, c: Chain, counter: nat)
    requires WellSet(s) && c.baseFallible
    requires s.mode.Labels? ==> Known(s.mode.pipeErr, s.reserved, counter)
    ensures var b := LowerBase(c, counter, s.reserved, s.mode);
      && |b.nodes| == 3 && b.nodes[1].Assign? && b.nodes[2].IfErrCheck?
      && var names := b.nodes[1].names; var errVar := b.nodes[2].errVar;
      && |names| == 2 && b.current == Var(names[0])
      && b.nodes == Checked(1, names, c.base, errVar, OnFail(s.mode, names[0], errVar))
      && FreshNames(s, names, errVar, names[0], counter, b.counter)
      && NoLabels(b.nodes)
      && (HasTarget(s.mode) ==> (names[0] == s.mode.target <==> AllErrorOnly(c.steps)))
  {
    var k := NextId(s.reserved, counter, "pipe");
    NextIsNew(s.reserved, counter, "pipe");
    var k' := NextId(s.reserved, k, "err");
    NextIsNew(s.reserved, k, "err");
    KnownLater(Numbered("pipe", k), s.reserved, k, k');
    if Known(Numbered("err", k'), s.reserved, counter) {
      KnownLater(Numbered("err", k'), s.reserved, counter, k);
    }
  }

  /** What a failing check of the target's own leaves at hand, the base's included. */
  function ChainAtHand(c: Chain, f: Frames, t: Trace, o: Oracle): Option<Value>
  {
    var a := Eval(c.base, f, t, o);
    var r := Settle(if c.baseFallible then Fallible else Plain, Nil, a);
    if r.Got? then StepsAtHand(c.steps, r.value, f, r.trace, o)
    else if r.Failed? && AllErrorOnly(c.steps) then Some(a.values[0])
    else None
  }

  /** The counter behind the base. */
  ghost function BaseCounter(c: Chain, counter: nat, reserved: set<string>): nat
  {
    if c.baseFallible then CounterAfter(Fallible, counter, reserved) else counter
  }

  /** The error variable of the check that fails, the base's included. */
  ghost function ChainErrVar(c: Chain, f: Frames, t: Trace, o: Oracle, counter: nat, reserved: set<string>): string
  {
    var r := Settle(if c.baseFallible then Fallible else Plain, Nil, Eval(c.base, f, t, o));
    if r.Got? then StepsErrVar(c.steps, r.value, f, r.trace, o, BaseCounter(c, counter, reserved), reserved)
    else ErrName(Fallible, counter, reserved)
  }

  ghost function ChainSite(s: Setting, c: Chain, t: Trace, counter: nat): Site
  {
    Site(if HasTarget(s.mode) then ChainAtHand(c, s.g, t, s.o) else None, ChainErrVar(c, s.g, t, s.o, counter, s.reserved))
  }

  /** The base takes the target's name only when no step needs it. */
  lemma BaseTarget(s: Setting, c: Chain, counter: nat)
    requires WellSet(s) && c.baseFallible
    ensures var b := LowerBase(c, counter, s.reserved, s.mode);
      HasTarget(s.mode) && s.mode.target in Vars(b.current) ==> AllErrorOnly(c.steps) && !HasFallible(c.steps)
  {
    NextIsNew(s.reserved, counter, "pipe");
  }

  /** A fallible base in front of the lowered steps: it hands over to them, or is where the chain ends. */
  lemma FallibleBase(s: Setting, c: Chain, st: State, counter: nat, tail: seq<Node>) returns (st': State)
    requires ChainReady(s, c, st, counter) && c.baseFallible && NoLabels(tail)
    ensures var b := LowerBase(c, counter, s.reserved, s.mode);
      var r := Settle(Fallible, Nil, Eval(c.base, s.g, st.trace, s.o));
      var out := ExecBlock(b.nodes + tail, st, s.o);
      && NoLabels(b.nodes) && b.counter == BaseCounter(c, counter, s.reserved)
      && if r.Got? then out == ExecBlock(tail, st', s.o) && Ready(s, c.steps, b.current, st', b.counter, r.value, r.trace)
         else Simulates(s, out, b.current, b.counter, r, ChainSite(s, c, st.trace, counter))
              && (r.Panicking? ==> out.Leave?)
    ensures var b := LowerBase(c, counter, s.reserved, s.mode);
      var base := Eval(c.base, st.frames, st.trace, s.o);
      Settle(Fallible, Nil, Eval(c.base, s.g, st.trace, s.o)).Got? ==>
        base.Val? && st'.trace == base.trace && b.current.Var? && DeclaredHere(st'.frames, b.current.name)
  {
    hide Visible, Respects, ExecNode, Eval, EvalAll, ExecBlock, FailsAs, OnFail;
    EvalAlike(c.base, st.frames, s.g, st.trace, st.trace, s.o, s.pure);
    var meant := Eval(c.base, s.g, st.trace, s.o);
    BaseNames(s, c, counter);
    BaseTarget(s, c, counter);
    var b := LowerBase(c, counter, s.reserved, s.mode);
    var names := b.nodes[1].names;
    st' := CheckedMeaning(s, Fallible, 1, names, c.base, b.nodes[2].errVar, names[0], Literal(Nil), counter, b.counter,
                          tail, st, Nil, st.trace, meant);
  }

  /** Any other base is still owed when the steps begin. */
  lemma PlainBase(s: Setting, c: Chain, st: State, counter: nat)
    requires ChainReady(s, c, st, counter) && !c.baseFallible
    ensures var r := Settle(Plain, Nil, Eval(c.base, s.g, st.trace, s.o));
      && (r.Got? ==> Ready(s, c.steps, c.base, st, counter, r.value, r.trace))
      && (r.Panicking? ==> At(s, st.frames, counter, c.base) && Explodes(s, c.base, st, r.value, r.trace))
      && !r.Failed?
  {
    hide Visible, Respects, EvalAll;
    EvalAlike(c.base, st.frames, s.g, st.trace, st.trace, s.o, s.pure);
  }

  lemma BaseInFront(c: Chain, counter: nat, reserved: set<string>, mode: Mode)
    ensures var b := LowerBase(c, counter, reserved, mode);
      LowerChain(c, counter, reserved, mode) == Behind(b.nodes, LowerSteps(c.steps, b.current, b.counter, b.stepNum, reserved, mode))
    ensures !c.baseFallible ==> LowerChain(c, counter, reserved, mode) == LowerSteps(c.steps, c.base, counter, 0, reserved, mode)
  {
    var l := LowerSteps(c.steps, c.base, counter, 0, reserved, mode);
    if !c.baseFallible && l.Some? {
      assert [] + l.value.nodes == l.value.nodes;
    }
  }

  /** The whole chain, base included. */
  lemma ChainSimulates(s: Setting, c: Chain, st: State, counter: nat)
    requires ChainReady(s, c, st, counter)
    ensures var l := LowerChain(c, counter, s.reserved, s.mode);
      && l.Some? && NoLabels(l.value.nodes)
      && Simulates(s, ExecBlock(l.value.nodes, st, s.o), l.value.current, l.value.counter, RunChain(c, s.g, st.trace, s.o),
                   ChainSite(s, c, st.trace, counter))
  {
    hide Visible, Respects, Eval, EvalAll, ExecBlock, LowerStep, LowerBase, LowerSteps, LowerChain, FailsAs, Explodes, Holds, At, WellSet;
    var b := LowerBase(c, counter, s.reserved, s.mode);
    LowerStepsSome(s, c.steps, b.current, b.counter, b.stepNum);
    BaseInFront(c, counter, s.reserved, s.mode);
    var tail := LowerSteps(c.steps, b.current, b.counter, b.stepNum, s.reserved, s.mode).value;
    if c.baseFallible {
      var r := Settle(Fallible, Nil, Eval(c.base, s.g, st.trace, s.o));
      var st' := FallibleBase(s, c, st, counter, tail.nodes);
      if r.Got? {
        StepsSimulate(s, c.steps, b.current, st', b.counter, b.stepNum, r.value, r.trace);
      } else {
        EndsHere(s, ExecBlock(b.nodes + tail.nodes, st, s.o), b.current, b.counter, tail.current, tail.counter, r, ChainSite(s, c, st.trace, counter));
      }
    } else {
      LowerStepsSome(s, c.steps, c.base, counter, 0);
      var r := Settle(Plain, Nil, Eval(c.base, s.g, st.trace, s.o));
      PlainBase(s, c, st, counter);
      if r.Got? {
        StepsSimulate(s, c.steps, c.base, st, counter, 0, r.value, r.trace);
      } else if r.Panicking? {
        PanicStays(s, c.steps, c.base, st, counter, 0, r.value, r.trace);
      }
    }
  }

  // ----- Statements -----

  ghost predicate TargetsInScope(steps: seq<Step>, f: Frames, user: set<string>)
  {
    forall i :: 0 <= i < |steps| ==> TargetInScope(steps[i].target, f, user)
  }

  /** Every step is rendered as it is meant. */
  predicate AllRendered(steps: seq<Step>)
  {
    forall i :: 0 <= i < |steps| ==> RendersFaithfully(steps[i].target)
  }

  /** Packages are not variables: neither the program's, nor generated, nor the target. */
  ghost predicate PackagesApart(steps: seq<Step>, form: Form, f: Frames)
  {
    forall i :: 0 <= i < |steps| && steps[i].target.Qualified? ==> PackageApart(steps[i].target.pkg, form, f)
  }

  ghost predicate PackageApart(pkg: string, form: Form, f: Frames)
  {
    Lookup(f, pkg).None? && !Generated(pkg) && form != DeclForm(pkg)
  }

  /** The statement's names are in scope and reserved, its target is a fresh or an existing variable as its form asks. */
  ghost predicate StatementInScope(c: Chain, form: Form, f: Frames, reserved: set<string>, user: set<string>)
  {
    && f.Scope? && user <= reserved && (forall x :: x in f.vars ==> x in reserved)
    && Vars(c.base) <= user && TargetsInScope(c.steps, f, user) && PackagesApart(c.steps, form, f)
    && match form
       case DeclForm(x) => x in reserved && x !in user && x != "_" && x != "" && !DeclaredHere(f, x)
       case AssignForm(x) => x in user && x != "_" && Lookup(f, x).Some?
       case StmtForm => true
  }

  /** The value that a handler finds at hand when the chain fails. */
  function FormAtHand(c: Chain, form: Form, f: Frames, t: Trace, o: Oracle): Option<Value>
  {
    match form
    case DeclForm(_) => ChainAtHand(c, f, t, o)
    case AssignForm(x) => Lookup(f, x)
    case StmtForm => None
  }

  ghost function SiteOf(c: Chain, form: Form, f: Frames, t: Trace, o: Oracle, counter: nat, reserved: set<string>): Site
  {
    Site(FormAtHand(c, form, f, t, o), ChainErrVar(c, f, t, o, counter, reserved))
  }

  /** What the lowered statement does: the statement's meaning, with the handler as it is lowered. */
  ghost function RunAsLowered(c: Chain, clause: Clause, zeros: seq<Zero>, form: Form, f: Frames, t: Trace, o: Oracle,
                              counter: nat, reserved: set<string>): Outcome
  {
    match RunChain(c, f, t, o)
    case Failed(err, t') => LoweredHandle(clause, zeros, SiteOf(c, form, f, t, o, counter, reserved), err, f, t', o)
    case _ => RunStatement(c, clause, zeros, form, f, t, o)
  }

  /** Lowered outcome against meaning: same exit or same values, visibly the same calls. */
  ghost predicate Agrees(form: Form, user: set<string>, out: Outcome, meant: Outcome, pure: set<string>)
  {
    match meant
    case Done(st) =>
      && out.Done? && Visible(out.st.trace, pure) == Visible(st.trace, pure)
      && AgreeOn(out.st.frames, st.frames, user)
      && (form.DeclForm? ==> Lookup(out.st.frames, form.target) == Lookup(st.frames, form.target))
    case Leave(_, _) => LeavesAlike(out, meant, pure)
    case _ => false
  }

  function SettingOf(clause: Clause, zeros: seq<Zero>, form: Form, f: Frames, reserved: set<string>, user: set<string>,
                     o: Oracle, pure: set<string>): Setting
    requires f.Scope?
  {
    Setting(reserved, ModeOf(clause, zeros, form), o, pure, user, f, f.outer)
  }

  predicate HasPlain(steps: seq<Step>)
  {
    exists i :: 0 <= i < |steps| && steps[i].kind == Plain
  }

  /** A plain step stands behind the last fallible one. */
  predicate RedeclaresTarget(steps: seq<Step>)
  {
    steps != [] &&
    if steps[0].kind == Fallible && !HasFallible(steps[1..]) then HasPlain(steps[1..]) else RedeclaresTarget(steps[1..])
  }

  /** Where the value of a declaration ends up: in the target itself, or in an expression that must still be assigned to it. */
  lemma {:induction false} FinalHolder(s: Setting, steps: seq<Step>, current: Expr, counter: nat, stepNum: nat)
    requires WellSet(s) && HasTarget(s.mode) && StepsInScope(steps, s.g, s.user)
    ensures var l := LowerSteps(steps, current, counter, stepNum, s.reserved, s.mode);
      && l.Some?
      && (HasFallible(steps) ==> s.mode.target in Vars(l.value.current)
                                 && (l.value.current == Var(s.mode.target) <==> !RedeclaresTarget(steps)))
      && (!HasFallible(steps) ==>
            && Vars(current) <= Vars(l.value.current) <= Vars(current) + s.user
            && (HasPlain(steps) ==> !l.value.current.Var?)
            && (!HasPlain(steps) ==> l.value.current == current)
            && !RedeclaresTarget(steps))
    decreases |steps|
  {
    if steps != [] {
      var step, rest := steps[0], steps[1..];
      StepCallMeaning(step.target, current, s.g, s.g, s.user, [], s.o);
      var first := LowerStep(step, rest, current, counter, stepNum, s.reserved, s.mode).value;
      FinalHolder(s, rest, first.current, first.counter, first.stepNum);
      FallibleTail(steps);
      PlainTail(steps);
      NeverVar(step.target, current);
      if step.kind == Plain && !HasFallible(rest) && HasPlain(rest) {
      }
    }
  }

  lemma NeverVar(target: Target, left: Expr)
    requires RendersFaithfully(target)
    ensures StepCall(target, left).Some? && !StepCall(target, left).value.Var?
  {
  }

  lemma PlainTail(steps: seq<Step>)
    requires steps != []
    ensures HasPlain(steps) <==> steps[0].kind == Plain || HasPlain(steps[1..])
  {
    if HasPlain(steps[1..]) {
      var i :| 0 <= i < |steps[1..]| && steps[1..][i].kind == Plain;
      assert steps[i + 1].kind == Plain;
    }
    if HasPlain(steps) {
      var i :| 0 <= i < |steps| && steps[i].kind == Plain;
      assert i > 0 ==> steps[1..][i - 1].kind == Plain;
    }
  }

  /** The chain as a whole ends in the target's own variable, or leaves the target undeclared. */
  lemma ChainHolder(s: Setting, c: Chain, counter: nat)
    requires WellSet(s) && HasTarget(s.mode) && StepsInScope(c.steps, s.g, s.user) && Vars(c.base) <= s.user
    ensures var l := LowerChain(c, counter, s.reserved, s.mode);
      && l.Some?
      && (!RedeclaresTarget(c.steps) ==> l.value.current == Var(s.mode.target) || s.mode.target !in Vars(l.value.current))
      && (RedeclaresTarget(c.steps) ==> HasFallible(c.steps) && l.value.current != Var(s.mode.target))
  {
    var b := LowerBase(c, counter, s.reserved, s.mode);
    FinalHolder(s, c.steps, b.current, b.counter, b.stepNum);
    if c.baseFallible {
      BaseTarget(s, c, counter);
    }
  }

  /** The value is where the form puts it and no other user variable changed. */
  ghost predicate Stored(form: Form, f: Frames, s: Setting, v: Value)
  {
    match form
    case DeclForm(x) => AgreeOn(f, s.g, s.user) && Lookup(f, x) == Some(v)
    case AssignForm(x) => AgreeOn(f, Update(s.g, x, v), s.user)
    case StmtForm => AgreeOn(f, s.g, s.user)
  }

  /** The nodes that store the value, run at the end of a chain that has one. */
  lemma FinalStores(s: Setting, form: Form, clause: Clause, zeros: seq<Zero>, current: Expr, st: State, v: Value, u: Trace)
    requires Holds(s, current, st, v, u) && st.frames.Scope?
    requires form.DeclForm? ==> form.target != "_" && (current == Var(form.target) || !DeclaredHere(st.frames, form.target))
    requires form.DeclForm? ==> form.target !in s.user
    requires form.AssignForm? ==> form.target != "_" && form.target in s.user && Lookup(s.g, form.target).Some?
    requires AgreeOn(st.frames, s.g, s.user)
    ensures var out := ExecBlock(FinalNodes(form, current), st, s.o);
      && out.Done? && Visible(out.st.trace, s.pure) == Visible(u, s.pure)
      && Stored(form, out.st.frames, s, v)
  {
    var r := Eval(current, st.frames, st.trace, s.o);
    match form
    case DeclForm(x) =>
      if current != Var(x) {
        ExecOne(Assign([x], current, true), st, s.o);
        DeclaresOne(st.frames, x, v);
        assert x in [x];
      }
    case AssignForm(x) =>
      ExecOne(Assign([x], current, false), st, s.o);
      assert AssignAll(st.frames, [x], [v], false) == Update(st.frames, x, v) by {
        assert [x][1..] == [] && [v][1..] == [];
      }
      forall y | y in s.user
        ensures Lookup(Update(st.frames, x, v), y) == Lookup(Update(s.g, x, v), y)
      {
        LookupUpdate(st.frames, x, v, y);
        LookupUpdate(s.g, x, v, y);
      }
    case StmtForm =>
      ExecOne(Assign(["_"], current, false), st, s.o);
      assert AssignAll(st.frames, ["_"], [v], false) == st.frames by {
        assert ["_"][1..] == [] && [v][1..] == [];
      }
  }

  /** A panic that is still owed happens when the value is stored. */
  lemma FinalExplodes(s: Setting, form: Form, current: Expr, st: State, p: Value, u: Trace)
    requires Explodes(s, current, st, p, u)
    requires form.AssignForm? ==> form.target != "_"
    ensures var out := ExecBlock(FinalNodes(form, current), st, s.o);
      out.Leave? && out.exit == Panicked(p) && Visible(out.trace, s.pure) == Visible(u, s.pure)
  {
    match form
    case DeclForm(x) => ExecOne(Assign([x], current, true), st, s.o);
    case AssignForm(x) => ExecOne(Assign([x], current, false), st, s.o);
    case StmtForm => ExecOne(Assign(["_"], current, false), st, s.o);
  }

  /** The statement's setting is one the simulation starts from. */
  lemma StatementReady(c: Chain, clause: Clause, zeros: seq<Zero>, form: Form, f: Frames, t: Trace, o: Oracle,
                       pure: set<string>, reserved: set<string>, user: set<string>, counter: nat)
    requires StatementInScope(c, form, f, reserved, user) && AllRendered(c.steps)
    requires Respects(o, pure) && PendingCallsPure(c.steps, BasePending(c), pure)
    requires RunChain(c, f, t, o) != Malformed
    ensures ChainReady(SettingOf(clause, zeros, form, f, reserved, user, o, pure), c, State(f, t), counter)
  {
    hide Respects, PendingCallsPure, RunChain, Visible;
  }

  /**
   Soundness of the lowering. For every chain whose steps are rendered as meant,
   every clause whose code leaves, every form and every oracle: if the calls nested
   in a value that an error-only step looks at are pure, and the declared target is
   not declared twice, running the lowered statement ends as the chain means, with the
   handler as it is lowered, after visibly the same calls.
   */
  lemma StatementMeans(c: Chain, clause: Clause, zeros: seq<Zero>, form: Form, f: Frames, t: Trace, o: Oracle,
                       pure: set<string>, reserved: set<string>, user: set<string>, counter: nat)
    requires StatementInScope(c, form, f, reserved, user) && AllRendered(c.steps)
    requires RunChain(c, f, t, o).Failed? ==> ClauseFits(clause, f, user)
    requires Respects(o, pure) && PendingCallsPure(c.steps, BasePending(c), pure)
    requires form.DeclForm? ==> !RedeclaresTarget(c.steps)
    requires RunChain(c, f, t, o) != Malformed
    ensures var nodes := LowerStatement(c, clause, zeros, form, counter, reserved);
      && nodes.Some?
      && Agrees(form, user, ExecBlock(nodes.value, State(f, t), o), RunAsLowered(c, clause, zeros, form, f, t, o, counter, reserved), pure)
  {
    hide Eval, EvalAll, ExecNode, ExecBlock, Visible, Respects, Handle, LoweredHandle, ChainAtHand, RunChain, LowerChain, FinalNodes, Known;
    hide PendingCallsPure, BasePending, RedeclaresTarget, TargetsInScope, PackagesApart;
    var s := SettingOf(clause, zeros, form, f, reserved, user, o, pure);
    var st := State(f, t);
    StatementReady(c, clause, zeros, form, f, t, o, pure, reserved, user, counter);
    ChainSimulates(s, c, st, counter);
    var l := LowerChain(c, counter, reserved, s.mode).value;
    var out := ExecBlock(l.nodes, st, o);
    ExecAppend(l.nodes, FinalNodes(form, l.current), st, o);
    if form.DeclForm? {
      ChainHolder(s, c, counter);
    }
    match RunChain(c, f, t, o)
    case Got(v, u) => FinalStores(s, form, clause, zeros, l.current, out.st, v, u);
    case Panicking(p, u) =>
      if out.Done? {
        FinalExplodes(s, form, l.current, out.st, p, u);
      }
    case Failed(_, _) =>
    case Malformed =>
  }
}
