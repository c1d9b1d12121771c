/**
 The exact condition under which the goto form is a legal Go program that means
 what the piped switch with its `onerr` clause means.
 */
module SwitchExact {
  import opened Prelude
  import opened Ir
  import opened Names
  import opened Pipes
  import opened Lowering
  import opened Machine
  import opened StepProof
  import opened HandlerProof
  import opened HidingProof
  import opened ChainProof
  import opened StatementProof
  import opened CountProof
  import opened Signatures
  import opened ShapeProof
  import opened GotoProof
  import opened SwitchProof
  import opened VarUse

  // ----- The statement -----

  ghost predicate LeftInScope(x: string, left: Piped, f: Frames, user: set<string>)
  {
    match left
    case ChainLeft(c) => Vars(c.base) <= user && TargetsInScope(c.steps, f, user) && PackagesApart(c.steps, DeclForm(x), f)
    case SingleLeft(expr, _) => Vars(expr) <= user
  }

  ghost predicate SwitchWellScoped(x: string, left: Piped, clause: Clause, f: Frames, reserved: set<string>, user: set<string>)
  {
    && f.Scope? && user <= reserved && (forall y :: y in f.vars ==> y in reserved)
    && LeftInScope(x, left, f, user) && SwitchClauseFits(clause, f, user)
    && x in reserved && x !in user && x != "_" && !DeclaredHere(f, x)
  }

  /** One signature a function, the switch's included. */
  ghost predicate SwitchTyped(left: Piped, switchFn: string, sig: string -> Kind, f: Frames)
  {
    && sig(switchFn) == Plain
    && match left
       case ChainLeft(c) => Typed(c, sig, f) && (switchFn, 1) !in MistakenShapes(c.steps)
       case SingleLeft(expr, fallible) => ExprTyped(expr, if fallible then Fallible else Plain, sig, f)
  }

  ghost predicate SwitchCorrectUnder(x: string, typ: string, zero: Value, left: Piped, clause: Clause, zeros: seq<Zero>, switchFn: string,
                                     f: Frames, reserved: set<string>, user: set<string>, counter: nat, t: Trace, o: Oracle)
  {
    var meant := RunSwitch(x, zero, left, clause, zeros, switchFn, f, t, o);
    var nodes := LowerSwitch(x, typ, zero, left, clause, zeros, [x], switchFn, counter, reserved);
    meant != Stuck ==> nodes.Some? && SwitchAgrees(x, user, ExecBlock(nodes.value, State(f, t), o), meant, {})
  }

  /** Go accepts the code: no goto skips a declaration, every label is used, and the variable that records the error is read. */
  ghost predicate SwitchLegal(x: string, typ: string, zero: Value, left: Piped, clause: Clause, zeros: seq<Zero>, switchFn: string,
                              reserved: set<string>, counter: nat)
  {
    var nodes := LowerSwitch(x, typ, zero, left, clause, zeros, [x], switchFn, counter, reserved);
    && nodes.Some? && GotosLegal(nodes.value, {}) && LabelNames(nodes.value) == GotoTargets(nodes.value)
    && PipeErrName(counter, reserved) in Reads(nodes.value)
  }

  // ----- The condition -----

  predicate PipedSound(left: Piped)
  {
    left.ChainLeft? ==> AllRendered(left.chain.steps) && ChainRepeats(left.chain) == 0
  }

  /** `onerr error ...` returns the variable, still zero, in front of the error, unless there are three results or more. */
  predicate SwitchErrorsFit(clause: Clause, zeros: seq<Zero>, zero: Value, left: Piped)
  {
    !HandsErrorOn(clause) || |zeros| > 2 || !CanFail(left) || (|zeros| == 2 && zero == zeros[0].value)
  }

  /** `onerr empty` initialises the variable with nil, which is the zero value of some types only. */
  predicate EmptyFits(clause: Clause, zero: Value, left: Piped)
  {
    GivesEmpty(clause) && CanFail(left) ==> zero == Nil
  }

  /** What the code computes is right. */
  predicate SwitchComputes(clause: Clause, zeros: seq<Zero>, zero: Value, left: Piped)
  {
    PipedSound(left) && SwitchErrorsFit(clause, zeros, zero, left) && EmptyFits(clause, zero, left)
  }

  /** And it is a Go program. */
  predicate SwitchFits(clause: Clause, zeros: seq<Zero>, zero: Value, left: Piped)
  {
    && SwitchComputes(clause, zeros, zero, left)
    && NothingDeclared(clause, zeros) && CanFail(left) && ExtractDefault(clause).None? && UsesError(clause)
  }

  // ----- It suffices -----

  lemma SoundInScope(x: string, left: Piped, clause: Clause, zeros: seq<Zero>, f: Frames, reserved: set<string>, user: set<string>)
    requires SwitchWellScoped(x, left, clause, f, reserved, user) && PipedSound(left) && NothingDeclared(clause, zeros)
    ensures SwitchInScope(x, left, clause, f, reserved, user, {}) && forall pipeErr :: SpliceFits(x, pipeErr, clause, zeros, f)
  {
    if left.ChainLeft? {
      var c := left.chain;
      assert StepsInScope(c.steps, f, user);
      NoCallsNoCount(c.base);
      NoRepeatsExactly(c.steps, f, user, BasePending(c), if c.baseFallible then 0 else CallCount(c.base));
    }
  }

  lemma PipedNeverFails(left: Piped, f: Frames, t: Trace, o: Oracle)
    requires !CanFail(left)
    ensures !RunPiped(left, f, t, o).Failed?
  {
    match left
    case ChainLeft(c) => NeverFails(c, f, t, o);
    case SingleLeft(_, _) =>
  }

  /** A block that declares nothing hides nothing. */
  lemma {:induction false} NothingHidden(body: seq<HandlerStmt>, errVar: string)
    requires DeclaredIn(body) == {}
    ensures !Hides(body, errVar, {})
  {
    if body != [] {
      assert !body[0].DeclareStmt?;
      NothingHidden(body[1..], errVar);
    }
  }

  lemma ComputesMeansSame(x: string, zero: Value, left: Piped, clause: Clause, zeros: seq<Zero>, switchFn: string, pipeErr: string,
                          f: Frames, user: set<string>, t: Trace, o: Oracle)
    requires SwitchComputes(clause, zeros, zero, left) && NothingDeclared(clause, zeros) && SwitchClauseFits(clause, f, user)
    ensures ConcludeAsLowered(x, zero, clause, zeros, switchFn, pipeErr, f, RunPiped(left, f, t, o), o)
      == Conclude(x, zero, clause, zeros, switchFn, f, RunPiped(left, f, t, o), o)
  {
    hide RunPiped, Handle, LoweredHandle, TakeSwitch, CanFail, PipedSound, ClauseInScope;
    var r := RunPiped(left, f, t, o);
    if r.Failed? && !CanFail(left) {
      PipedNeverFails(left, f, t, o);
    } else if r.Failed? && ExtractDefault(clause).None? && !SuppliesDefault(clause) {
      var site := Site(Some(zero), pipeErr);
      if RunsBlock(clause) {
        NothingHidden(clause.handler.value.body, pipeErr);
        NotHiddenRight(clause, zeros, site, r.err, f, user, r.trace, o);
      } else {
        HandsOnRight(clause, zeros, site, r.err, f, r.trace, o);
      }
    }
  }

  lemma FitsCorrect(x: string, typ: string, zero: Value, left: Piped, clause: Clause, zeros: seq<Zero>, switchFn: string,
                    f: Frames, reserved: set<string>, user: set<string>, counter: nat, t: Trace, o: Oracle)
    requires SwitchWellScoped(x, left, clause, f, reserved, user) && SwitchComputes(clause, zeros, zero, left) && NothingDeclared(clause, zeros)
    ensures SwitchCorrectUnder(x, typ, zero, left, clause, zeros, switchFn, f, reserved, user, counter, t, o)
  {
    hide PipedSound, NothingDeclared, SwitchErrorsFit, EmptyFits, SwitchInScope, SpliceFits, RunPiped, Conclude, ConcludeAsLowered, LowerSwitch, ExecBlock;
    hide SwitchClauseFits, LeftInScope, PipeErrName;
    SoundInScope(x, left, clause, zeros, f, reserved, user);
    EveryOracleRespectsNothing(o);
    ComputesMeansSame(x, zero, left, clause, zeros, switchFn, PipeErrName(counter, reserved), f, user, t, o);
    if RunSwitch(x, zero, left, clause, zeros, switchFn, f, t, o) != Stuck {
      SwitchMeans(x, typ, zero, left, clause, zeros, switchFn, f, t, o, {}, reserved, user, counter);
    }
  }

  // ----- It is needed: errors handed on -----

  /** Where to let what is piped fail. */
  lemma PipedFails(left: Piped, switchFn: string, sig: string -> Kind, f: Frames) returns (o: Oracle)
    requires SwitchTyped(left, switchFn, sig, f) && CanFail(left)
    ensures RunPiped(left, f, [], o).Failed?
  {
    hide FailsAt, Eval;
    match left
    case ChainLeft(c) =>
      var k := SomeCheck(c);
      o := FailsAt(sig, CallsBefore(c, k), PLAIN_FAILURE);
      ChainFails(c, k, sig, f, 0, {}, PLAIN_FAILURE);
    case SingleLeft(expr, _) =>
      o := FailsAt(sig, CallCount(expr) - 1, PLAIN_FAILURE);
      EvalFails(expr, Fallible, sig, f, [], PLAIN_FAILURE);
  }

  lemma UnfitShows(x: string, typ: string, zero: Value, left: Piped, clause: Clause, zeros: seq<Zero>, switchFn: string,
                   f: Frames, reserved: set<string>, user: set<string>, counter: nat, sig: string -> Kind) returns (o: Oracle)
    requires SwitchWellScoped(x, left, clause, f, reserved, user) && SwitchTyped(left, switchFn, sig, f)
    requires PipedSound(left) && NothingDeclared(clause, zeros) && (!SwitchErrorsFit(clause, zeros, zero, left) || !EmptyFits(clause, zero, left))
    ensures !SwitchCorrectUnder(x, typ, zero, left, clause, zeros, switchFn, f, reserved, user, counter, [], o)
  {
    hide SwitchWellScoped, SwitchTyped, PipedSound, NothingDeclared, SwitchInScope, SpliceFits, RunPiped, LowerSwitch, ExecBlock, TakeSwitch, CanFail, Visible;
    hide PipeErrName;
    o := PipedFails(left, switchFn, sig, f);
    var r := RunPiped(left, f, [], o);
    SoundInScope(x, left, clause, zeros, f, reserved, user);
    EveryOracleRespectsNothing(o);
    var pipeErr := PipeErrName(counter, reserved);
    SwitchMeans(x, typ, zero, left, clause, zeros, switchFn, f, [], o, {}, reserved, user, counter);
    if HandsErrorOn(clause) {
      var site := Site(Some(zero), pipeErr);
      HandsOnRight(clause, zeros, site, r.err, f, r.trace, o);
      assert Conclude(x, zero, clause, zeros, switchFn, f, r, o) == Handle(clause, zeros, r.err, f, r.trace, o);
      assert ConcludeAsLowered(x, zero, clause, zeros, switchFn, pipeErr, f, r, o) == LoweredHandle(clause, zeros, site, r.err, f, r.trace, o);
    }
  }

  // ----- It is needed: calls -----

  /** A goto form that completes without having failed has called the switch on its value. */
  lemma SwitchTrace(x: string, switchFn: string, onErr: string, end: string, current: Expr, nodes: seq<Node>, h: seq<Node>, inside: State, o: Oracle)
    requires NoLabels(nodes) && NoLabels(h) && onErr != end && x != "_"
    requires !ExecBlock(nodes, inside, o).Jump?
    ensures var ran := ExecBlock(nodes, inside, o);
      var call := Call(switchFn, [current], false);
      var out := Then(CloseScope(ExecBlock(nodes + Finish(x, switchFn, end, current), inside, o)), [Label(onErr)] + (h + [Label(end)]), o);
      out.Done? ==> ran.Done? && Eval(call, ran.st.frames, ran.st.trace, o).Val? && out.st.trace == Eval(call, ran.st.frames, ran.st.trace, o).trace
  {
    hide ExecBlock, Eval;
    var finish := Finish(x, switchFn, end, current);
    var store := Assign([x], Call(switchFn, [current], false), false);
    ExecAppend(nodes, finish, inside, o);
    var ran := ExecBlock(nodes, inside, o);
    if ran.Done? {
      assert finish == [store] + [Goto(end)];
      ExecCons(store, [Goto(end)], ran.st, o);
      var stored := ExecNode(store, ran.st, o);
      if stored.Done? {
        ExecOne(Goto(end), stored.st, o);
        Landing(onErr, end, h, CloseScope(Jump(end, stored.st)).st, o);
      }
    }
  }

  /** When everything succeeds: what the chain means. */
  lemma MeantTrace(x: string, zero: Value, c: Chain, clause: Clause, zeros: seq<Zero>, switchFn: string, sig: string -> Kind, f: Frames)
    requires SwitchTyped(ChainLeft(c), switchFn, sig, f)
    ensures var meant := RunSwitch(x, zero, ChainLeft(c), clause, zeros, switchFn, f, [], Succeeds(sig));
      && meant.Done? && |meant.st.trace| == CallCount(c.base) + StepCalls(c.steps) + 1
      && TraceShapes(meant.st.trace) == Shapes(c.base) + MeantShapes(c.steps) + {(switchFn, 1)}
  {
    hide Eval, CallCount, StepCalls, RunSteps, ExprTyped, StepsTyped, TraceShapes;
    var o := Succeeds(sig);
    ChainSucceeds(c, sig, f);
    ChainShapes(c, f, o);
    var r := RunChain(c, f, [], o);
    EvalCount(c.base, f, [], o);
    var b := Settle(if c.baseFallible then Fallible else Plain, Nil, Eval(c.base, f, [], o));
    MeaningCount(c.steps, b.value, f, b.trace, o);
    TraceGrows(r.trace, Event(switchFn, [r.value], false));
    assert o(r.trace, Event(switchFn, [r.value], false)) == Returns([Nil]);
  }

  /** The scope inside the goto form: the statement's, its two variables, and the block's own. */
  function Inside(f: Frames, pipeErr: string, x: string, v: Value): Frames
  {
    Scope(Declare(Declare(f, pipeErr, Nil), x, v), map[])
  }

  lemma InsideTyped(c: Chain, switchFn: string, sig: string -> Kind, f: Frames, g: Frames)
    requires SwitchTyped(ChainLeft(c), switchFn, sig, f) && Wider(f, g)
    ensures Typed(c, sig, g)
  {
    TypedWider(c.base, if c.baseFallible then Fallible else Plain, sig, f, g);
  }

  lemma InsidePackages(x: string, c: Chain, clause: Clause, f: Frames, reserved: set<string>, user: set<string>, onErr: string, pipeErr: string, v: Value)
    requires SwitchWellScoped(x, ChainLeft(c), clause, f, reserved, user) && Generated(pipeErr)
    ensures PackagesFree(Packages(c.steps), Labels(onErr, pipeErr)) && NoneBound(Packages(c.steps), Inside(f, pipeErr, x, v))
    ensures StepsPlaced(c.steps, MistakenShapes(c.steps), Packages(c.steps))
  {
    forall p | p in Packages(c.steps)
      ensures PackageApart(p, DeclForm(x), f)
    {
      PackagesOf(c.steps, p);
    }
    forall i | 0 <= i < |c.steps| && c.steps[i].target.Shorthand?
      ensures OwnArgs(c.steps[i].target)
    {
      assert TargetInScope(c.steps[i].target, f, user);
    }
  }

  /** What the lowered switch has called when it completes although it is unsound: not what it means. */
  lemma UnsoundCalls(x: string, c: Chain, clause: Clause, switchFn: string, f: Frames, reserved: set<string>, user: set<string>,
                     counter: nat, sig: string -> Kind, onErr: string, pipeErr: string, v: Value)
    requires SwitchWellScoped(x, ChainLeft(c), clause, f, reserved, user) && SwitchTyped(ChainLeft(c), switchFn, sig, f)
    requires !PipedSound(ChainLeft(c)) && Generated(pipeErr)
    ensures var l := LowerChain(c, counter, reserved, Labels(onErr, pipeErr)); var o := Succeeds(sig);
      var inside := State(Inside(f, pipeErr, x, v), []);
      && l.Some? && NoLabels(l.value.nodes)
      && var ran := ExecBlock(l.value.nodes, inside, o);
        && !ran.Jump?
        && (ran.Done? ==>
              var r := Eval(Call(switchFn, [l.value.current], false), ran.st.frames, ran.st.trace, o);
              r.Val? ==> |r.trace| > CallCount(c.base) + StepCalls(c.steps) + 1
                         || !(MistakenShapes(c.steps) !! TraceShapes(r.trace)))
  {
    hide ExecBlock, Eval, LowerChain, Succeeds, Typed, TraceShapes, Packages, MistakenShapes, NoneBound, PackagesFree, StepsPlaced, ChainRepeats, AllRendered, Inside;
    var mode, g := Labels(onErr, pipeErr), Inside(f, pipeErr, x, v);
    var bad, pkgs := MistakenShapes(c.steps), Packages(c.steps);
    InsideWider(f, pipeErr, x, v);
    InsideTyped(c, switchFn, sig, f, g);
    if !AllRendered(c.steps) {
      InsidePackages(x, c, clause, f, reserved, user, onErr, pipeErr, v);
      ChainMistake(c, sig, g, counter, reserved, mode, bad, pkgs);
    } else {
      ChainCalls(c, sig, g, counter, reserved, mode, f, user);
    }
    ChainHasNoLabels(c, counter, reserved, mode);
    var l := LowerChain(c, counter, reserved, mode).value;
    var ran := ExecBlock(l.nodes, State(g, []), Succeeds(sig));
    var call := Call(switchFn, [l.current], false);
    if ran.Done? {
      EvalCount(call, ran.st.frames, ran.st.trace, Succeeds(sig));
      SwitchCallCounts(switchFn, l.current);
      if !AllRendered(c.steps) {
        MistakeComputed(call, ran.st, Succeeds(sig), bad, pkgs);
      }
    }
  }

  lemma InsideWider(f: Frames, pipeErr: string, x: string, v: Value)
    ensures Wider(f, Inside(f, pipeErr, x, v))
  {
  }

  lemma SwitchCallCounts(switchFn: string, current: Expr)
    ensures CallCount(Call(switchFn, [current], false)) == CallCount(current) + 1
    ensures Vars(current) <= Vars(Call(switchFn, [current], false)) && Shapes(current) <= Shapes(Call(switchFn, [current], false))
  {
    assert CallCountAll([current]) == CallCount(current) + CallCountAll([current][1..]);
    ShapesOfOne([current], 0);
    VarsOfOne([current], 0);
  }

  lemma UnsoundShows(x: string, typ: string, zero: Value, c: Chain, clause: Clause, zeros: seq<Zero>, switchFn: string,
                     f: Frames, reserved: set<string>, user: set<string>, counter: nat, sig: string -> Kind)
    requires SwitchWellScoped(x, ChainLeft(c), clause, f, reserved, user) && SwitchTyped(ChainLeft(c), switchFn, sig, f)
    requires !PipedSound(ChainLeft(c))
    ensures !SwitchCorrectUnder(x, typ, zero, ChainLeft(c), clause, zeros, switchFn, f, reserved, user, counter, [], Succeeds(sig))
  {
    hide ExecBlock, Eval, LowerChain, Succeeds, Typed, TraceShapes, MistakenShapes, LeftInScope, SwitchClauseFits, PipedSound, RunSwitch, Shapes, MeantShapes, CallCount, StepCalls;
    var o := Succeeds(sig);
    var k1 := NextId(reserved, counter, "onerr");
    var k2 := NextId(reserved, k1, "end");
    var k3 := NextId(reserved, k2, "pipeErr");
    var onErr, end, pipeErr := Numbered("onerr", k1), Numbered("end", k2), Numbered("pipeErr", k3);
    NextIsNew(reserved, k2, "pipeErr");
    assert Generated(pipeErr);
    if onErr == end {
      NumberedInjective("onerr", k1, "end", k2);
    }
    var default := ExtractDefault(clause);
    var v := if default.Some? then default.value.value else zero;
    var inside := State(Inside(f, pipeErr, x, v), []);
    UnsoundCalls(x, c, clause, switchFn, f, reserved, user, k3, sig, onErr, pipeErr, v);
    MeantTrace(x, zero, c, clause, zeros, switchFn, sig, f);
    var l := LowerChain(c, k3, reserved, Labels(onErr, pipeErr)).value;
    var h := if default.Some? then [] else LowerHandler(clause, zeros, [x], pipeErr);
    HandlerHasNoLabels(clause, zeros, [x], pipeErr);
    SwitchTrace(x, switchFn, onErr, end, l.current, l.nodes, h, inside, o);
    SwitchPrefix(x, typ, zero, clause, zeros, onErr, end, pipeErr, l.nodes + Finish(x, switchFn, end, l.current), f, [], o);
    var meant := RunSwitch(x, zero, ChainLeft(c), clause, zeros, switchFn, f, [], o);
    var nodes := LowerSwitch(x, typ, zero, ChainLeft(c), clause, zeros, [x], switchFn, counter, reserved);
    var out := ExecBlock(nodes.value, State(f, []), o);
    if out.Done? {
      VisibleAll(out.st.trace);
      VisibleAll(meant.st.trace);
      ShapesApart(c, switchFn, sig, f);
    }
  }

  lemma ShapesApart(c: Chain, switchFn: string, sig: string -> Kind, f: Frames)
    requires SwitchTyped(ChainLeft(c), switchFn, sig, f)
    ensures MistakenShapes(c.steps) !! (Shapes(c.base) + MeantShapes(c.steps) + {(switchFn, 1)})
  {
  }

  /**
   What the goto form computes. For every well-scoped, well-typed statement whose
   clause leaves control or supplies a value, and declares no variable: the code agrees
   with the meaning under every oracle and history if and only if every step is
   rendered as meant, nothing is called twice, `onerr error ...` returns the right
   values, and nil is the zero value where `onerr empty` may be asked for it.
   */
  lemma SwitchComputesExactly(x: string, typ: string, zero: Value, left: Piped, clause: Clause, zeros: seq<Zero>, switchFn: string,
                              f: Frames, reserved: set<string>, user: set<string>, counter: nat, sig: string -> Kind)
    requires SwitchWellScoped(x, left, clause, f, reserved, user) && SwitchTyped(left, switchFn, sig, f) && NothingDeclared(clause, zeros)
    ensures (forall t: Trace, o: Oracle :: SwitchCorrectUnder(x, typ, zero, left, clause, zeros, switchFn, f, reserved, user, counter, t, o))
      <==> SwitchComputes(clause, zeros, zero, left)
  {
    hide SwitchWellScoped, SwitchTyped, SwitchErrorsFit, EmptyFits, NothingDeclared, SwitchCorrectUnder, LowerSwitch, CanFail;
    if SwitchComputes(clause, zeros, zero, left) {
      forall t: Trace, o: Oracle
        ensures SwitchCorrectUnder(x, typ, zero, left, clause, zeros, switchFn, f, reserved, user, counter, t, o)
      {
        FitsCorrect(x, typ, zero, left, clause, zeros, switchFn, f, reserved, user, counter, t, o);
      }
    } else if !PipedSound(left) {
      UnsoundShows(x, typ, zero, left.chain, clause, zeros, switchFn, f, reserved, user, counter, sig);
    } else {
      var o := UnfitShows(x, typ, zero, left, clause, zeros, switchFn, f, reserved, user, counter, sig);
    }
  }

  // ----- What Go accepts -----

  lemma PipedReads(x: string, left: Piped, clause: Clause, f: Frames, reserved: set<string>, user: set<string>, counter: nat, onErr: string, k: nat)
    requires SwitchWellScoped(x, left, clause, f, reserved, user) && PipedSound(left) && Numbered("pipeErr", k) !in user
    ensures var l := LowerPiped(left, counter, reserved, Labels(onErr, Numbered("pipeErr", k)));
      l.Some? ==> Numbered("pipeErr", k) !in Reads(l.value.nodes) + Vars(l.value.current)
  {
    match left
    case ChainLeft(c) => ChainReads(c, counter, reserved, onErr, k, f, user);
    case SingleLeft(expr, fallible) => SingleReads(expr, fallible, counter, reserved, onErr, k);
  }

  /** The frame around the scoped part reads the recorded error only where the handler does. */
  lemma FrameReads(x: string, typ: string, zero: Value, clause: Clause, zeros: seq<Zero>, switchFn: string, onErr: string, end: string,
                   pipeErr: string, l: Lowered)
    requires pipeErr !in Reads(l.nodes) + Vars(l.current)
    ensures var h := if ExtractDefault(clause).Some? then [] else LowerHandler(clause, zeros, [x], pipeErr);
      pipeErr in Reads(SwitchNodes(x, typ, zero, clause, zeros, [x], switchFn, onErr, end, pipeErr, l)) <==> pipeErr in Reads(h)
  {
    hide LowerHandler, Reads;
    var h := if ExtractDefault(clause).Some? then [] else LowerHandler(clause, zeros, [x], pipeErr);
    var inner := l.nodes + Finish(x, switchFn, end, l.current);
    InnerReads(x, switchFn, end, pipeErr, l);
    FrameShape(x, typ, zero, clause, zeros, [x], onErr, end, pipeErr, inner, h);
    var nodes := SwitchFrame(x, typ, zero, clause, zeros, [x], onErr, end, pipeErr, inner);
    FirstNodes(x, typ, zero, clause, zeros, onErr, end, pipeErr, inner);
    PartsRead(nodes[0], nodes[1], inner, onErr, h, end);
  }

  lemma PartsRead(d1: Node, d2: Node, inner: seq<Node>, onErr: string, h: seq<Node>, end: string)
    requires NodeReads(d1) == {} && NodeReads(d2) == {}
    ensures Reads([d1] + ([d2] + ([ScopedBlock(inner)] + ([Label(onErr)] + (h + [Label(end)]))))) == Reads(inner) + Reads(h)
  {
    hide Reads;
    var tail := h + [Label(end)];
    ReadsJoin(h, [Label(end)]);
    LabelReadsNothing(onErr);
    LabelReadsNothing(end);
    ReadsCons(Label(onErr), tail);
    ReadsCons(ScopedBlock(inner), [Label(onErr)] + tail);
    ReadsCons(d2, [ScopedBlock(inner)] + ([Label(onErr)] + tail));
    ReadsCons(d1, [d2] + ([ScopedBlock(inner)] + ([Label(onErr)] + tail)));
    assert NodeReads(ScopedBlock(inner)) == Reads(inner);
  }

  lemma LabelReadsNothing(name: string)
    ensures Reads([Label(name)]) == {} && NodeReads(Label(name)) == {}
  {
    ReadsOne(Label(name));
  }

  lemma ReadsCons(n: Node, rest: seq<Node>)
    ensures Reads([n] + rest) == NodeReads(n) + Reads(rest)
  {
    hide Reads, NodeReads;
    ReadsJoin([n], rest);
    ReadsOne(n);
  }

  lemma FirstNodes(x: string, typ: string, zero: Value, clause: Clause, zeros: seq<Zero>, onErr: string, end: string, pipeErr: string, inner: seq<Node>)
    ensures var nodes := SwitchFrame(x, typ, zero, clause, zeros, [x], onErr, end, pipeErr, inner);
      NodeReads(nodes[0]) == {} && NodeReads(nodes[1]) == {}
  {
    hide LowerHandler;
  }

  lemma InnerReads(x: string, switchFn: string, end: string, pipeErr: string, l: Lowered)
    requires pipeErr !in Reads(l.nodes) + Vars(l.current)
    ensures pipeErr !in Reads(l.nodes + Finish(x, switchFn, end, l.current))
  {
    var call := Call(switchFn, [l.current], false);
    var store := Assign([x], call, false);
    VarsOfAllIn([l.current], pipeErr);
    ReadsOne(store);
    ReadsOne(Goto(end));
    ReadsJoin([store], [Goto(end)]);
    ReadsJoin(l.nodes, [store] + [Goto(end)]);
    assert Finish(x, switchFn, end, l.current) == [store] + [Goto(end)];
  }

  /** The recorded error is read exactly when the handler is there and makes use of it. */
  lemma ErrorRead(x: string, typ: string, zero: Value, left: Piped, clause: Clause, zeros: seq<Zero>, switchFn: string,
                  f: Frames, reserved: set<string>, user: set<string>, counter: nat)
    requires SwitchWellScoped(x, left, clause, f, reserved, user) && PipedSound(left) && NothingDeclared(clause, zeros)
    requires LowerSwitch(x, typ, zero, left, clause, zeros, [x], switchFn, counter, reserved).Some?
    ensures PipeErrName(counter, reserved) in Reads(LowerSwitch(x, typ, zero, left, clause, zeros, [x], switchFn, counter, reserved).value)
      <==> ExtractDefault(clause).None? && UsesError(clause)
  {
    hide LowerPiped, LowerHandler, SwitchNodes, Reads, LeftInScope, PipedSound, UsesError;
    var k1 := NextId(reserved, counter, "onerr");
    var k2 := NextId(reserved, k1, "end");
    var k3 := NextId(reserved, k2, "pipeErr");
    var onErr, end, pipeErr := Numbered("onerr", k1), Numbered("end", k2), Numbered("pipeErr", k3);
    NextIsNew(reserved, k2, "pipeErr");
    PipedReads(x, left, clause, f, reserved, user, k3, onErr, k3);
    var l := LowerPiped(left, k3, reserved, Labels(onErr, pipeErr)).value;
    FrameReads(x, typ, zero, clause, zeros, switchFn, onErr, end, pipeErr, l);
    if ExtractDefault(clause).Some? {
      ReadsNothing();
    } else {
      forall i: nat
        ensures ZeroName(i) != pipeErr
      {
        ZeroNameNotNumbered(i, "pipeErr", k3);
      }
      HandlerThere(clause, f, user);
      HandlerReads(clause, zeros, [x], pipeErr, f, user);
    }
  }

  lemma HandlerThere(clause: Clause, f: Frames, user: set<string>)
    requires SwitchClauseFits(clause, f, user) && ExtractDefault(clause).None?
    ensures ClauseInScope(clause, f, user) && (clause.handler.None? && clause.explain == "" ==> LeavesControl(clause))
  {
  }

  /**
   The exact condition for `x := left |> switch ... onerr clause`. For every well-scoped,
   well-typed statement whose clause leaves control or supplies a value: Go accepts the
   gotos, the labels and the recorded error of the goto form, and it agrees with the
   meaning under every oracle and history, if and only if it computes what it should,
   something on the left can fail, and the handler declares no variable where it
   stands, is no default that initialises the variable, and makes use of the error.
   */
  lemma SwitchCorrectExactly(x: string, typ: string, zero: Value, left: Piped, clause: Clause, zeros: seq<Zero>, switchFn: string,
                             f: Frames, reserved: set<string>, user: set<string>, counter: nat, sig: string -> Kind)
    requires SwitchWellScoped(x, left, clause, f, reserved, user) && SwitchTyped(left, switchFn, sig, f)
    ensures (&& SwitchLegal(x, typ, zero, left, clause, zeros, switchFn, reserved, counter)
             && forall t: Trace, o: Oracle ::
                  SwitchCorrectUnder(x, typ, zero, left, clause, zeros, switchFn, f, reserved, user, counter, t, o))
      <==> SwitchFits(clause, zeros, zero, left)
  {
    hide SwitchWellScoped, SwitchTyped, SwitchErrorsFit, EmptyFits, PipedSound, NothingDeclared, SwitchCorrectUnder, LowerSwitch, GotosLegal, LabelNames,
      GotoTargets, CanFail, Reads, UsesError, PipeErrName;
    AlwaysLowers(x, typ, zero, left, clause, zeros, switchFn, f, counter, reserved, sig);
    SwitchObeysGo(x, typ, zero, left, clause, zeros, [x], switchFn, counter, reserved);
    if NothingDeclared(clause, zeros) {
      SwitchComputesExactly(x, typ, zero, left, clause, zeros, switchFn, f, reserved, user, counter, sig);
      if PipedSound(left) {
        ErrorRead(x, typ, zero, left, clause, zeros, switchFn, f, reserved, user, counter);
      }
    }
  }

  // ----- Statements that Go refuses -----

  /** `x := v |> switch ... onerr return`: nothing on the left can fail, and no goto uses the handler's label. */
  lemma UnusedLabelRefused(x: string, typ: string, zero: Value, zeros: seq<Zero>, switchFn: string, reserved: set<string>, counter: nat)
    ensures !SwitchLegal(x, typ, zero, SingleLeft(Var("v"), false), Clause(true, false, false, "", None), zeros, switchFn, reserved, counter)
  {
    hide LowerSwitch, GotosLegal, LabelNames, GotoTargets, Reads;
    var left, clause := SingleLeft(Var("v"), false), Clause(true, false, false, "", None);
    var nodes := LowerSwitch(x, typ, zero, left, clause, zeros, [x], switchFn, counter, reserved);
    if nodes.Some? {
      SwitchObeysGo(x, typ, zero, left, clause, zeros, [x], switchFn, counter, reserved);
    }
  }

  /** `x := f() |> switch ... onerr 8080`: the error is recorded and never read. */
  lemma UnreadErrorRefused(x: string, typ: string, zero: Value, zeros: seq<Zero>, switchFn: string, f: Frames, counter: nat)
    requires f.Scope? && f.vars == map[] && x != "_"
    ensures var clause := Clause(false, false, false, "", Some(DefaultHandler(Mention(Literal(Data(8080))))));
      !SwitchLegal(x, typ, zero, SingleLeft(Call("f", [], false), true), clause, zeros, switchFn, {x}, counter)
  {
    hide LowerSwitch, GotosLegal, LabelNames, GotoTargets, Reads, PipeErrName;
    var left := SingleLeft(Call("f", [], false), true);
    var clause := Clause(false, false, false, "", Some(DefaultHandler(Mention(Literal(Data(8080))))));
    var nodes := LowerSwitch(x, typ, zero, left, clause, zeros, [x], switchFn, counter, {x});
    if nodes.Some? {
      ErrorRead(x, typ, zero, left, clause, zeros, switchFn, f, {x}, {}, counter);
    }
  }

  lemma AlwaysLowers(x: string, typ: string, zero: Value, left: Piped, clause: Clause, zeros: seq<Zero>, switchFn: string,
                     f: Frames, counter: nat, reserved: set<string>, sig: string -> Kind)
    requires SwitchTyped(left, switchFn, sig, f)
    ensures LowerSwitch(x, typ, zero, left, clause, zeros, [x], switchFn, counter, reserved).Some?
  {
    hide NextId, Numbered, SwitchNodes, LowerSteps;
    var k1 := NextId(reserved, counter, "onerr");
    var k2 := NextId(reserved, k1, "end");
    var k3 := NextId(reserved, k2, "pipeErr");
    var mode := Labels(Numbered("onerr", k1), Numbered("pipeErr", k3));
    match left
    case ChainLeft(c) =>
      var b := LowerBase(c, k3, reserved, mode);
      TypedLowers(c.steps, sig, b.current, b.counter, b.stepNum, reserved, mode);
    case SingleLeft(_, _) =>
  }
}
