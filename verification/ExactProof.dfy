/**
 The exact condition under which a lowered `onerr` pipe chain means what it should,
 for clauses that leave control.
 */
module ExactProof {
  import opened Prelude
  import opened Ir
  import opened Pipes
  import opened Lowering
  import opened Machine
  import opened StepProof
  import opened HandlerProof
  import opened HidingProof
  import opened ChainProof
  import opened StatementProof
  import opened CountProof
  import opened Signatures
  import opened ShapeProof

  /** Under this oracle and history the lowered statement agrees with the meaning, down to the last call. */
  ghost predicate CorrectUnder(c: Chain, clause: Clause, zeros: seq<Zero>, form: Form, f: Frames, reserved: set<string>,
                               user: set<string>, counter: nat, t: Trace, o: Oracle)
  {
    var meant := RunStatement(c, clause, zeros, form, f, t, o);
    var nodes := LowerStatement(c, clause, zeros, form, counter, reserved);
    meant != Stuck ==> nodes.Some? && Agrees(form, user, ExecBlock(nodes.value, State(f, t), o), meant, {})
  }

  /** Every step is rendered as meant, nothing is called twice, and no declaration is emitted twice. */
  predicate Sound(c: Chain, form: Form)
  {
    AllRendered(c.steps) && ChainRepeats(c) == 0 && (form.DeclForm? ==> !RedeclaresTarget(c.steps))
  }

  /**
   `onerr error ...` returns the right values: three results or more, or no check
   that can fail, or one result and no variable at hand, or two results and the zero
   value in the variable that is assigned.
   */
  predicate ErrorsFit(c: Chain, clause: Clause, zeros: seq<Zero>, form: Form, f: Frames)
  {
    !HandsErrorOn(clause) || |zeros| > 2 || !ChainCanFail(c) ||
    match form
    case DeclForm(_) => |zeros| <= 1 && !TargetCanFail(c)
    case AssignForm(x) => |zeros| == 2 && Lookup(f, x) == Some(zeros[0].value)
    case StmtForm => |zeros| <= 1
  }

  /** No block handler hides its error under a name that a check draws for it. */
  ghost predicate ErrorsSeen(c: Chain, clause: Clause, counter: nat, reserved: set<string>)
  {
    forall k: int :: IsCheck(c, k) ==> !HidesError(clause, ErrNameAt(c, k, counter, reserved))
  }

  ghost predicate Faithful(c: Chain, clause: Clause, zeros: seq<Zero>, form: Form, f: Frames, counter: nat, reserved: set<string>)
  {
    Sound(c, form) && ErrorsFit(c, clause, zeros, form, f) && ErrorsSeen(c, clause, counter, reserved)
  }

  // ----- Calls made again -----

  /** All functions that can be nested somewhere. */
  function AllCallees(steps: seq<Step>): set<string>
  {
    if steps == [] then {} else CalleeOf(steps[0].target) + AllCallees(steps[1..])
  }

  lemma {:induction false} AllPending(steps: seq<Step>, pending: set<string>, pure: set<string>)
    requires pending <= pure && AllCallees(steps) <= pure
    ensures PendingCallsPure(steps, pending, pure)
    decreases |steps|
  {
    if steps != [] {
      match steps[0].kind
      case Plain => AllPending(steps[1..], pending + CalleeOf(steps[0].target), pure);
      case Fallible => AllPending(steps[1..], {}, pure);
      case ErrorOnly => AllPending(steps[1..], pending, pure);
    }
  }

  /** When everything succeeds, the lowered chain completes, with the repeats made and the target declared. */
  lemma SuccessPoint(c: Chain, clause: Clause, zeros: seq<Zero>, form: Form, f: Frames, reserved: set<string>,
                     user: set<string>, counter: nat, sig: string -> Kind) returns (l: Lowered, st: State)
    requires StatementInScope(c, form, f, reserved, user) && Typed(c, sig, f) && AllRendered(c.steps)
    ensures LowerChain(c, counter, reserved, ModeOf(clause, zeros, form)) == Some(l)
    ensures ExecBlock(l.nodes, State(f, []), Succeeds(sig)) == Done(st) && NoLabels(l.nodes)
    ensures Eval(l.current, st.frames, st.trace, Succeeds(sig)).Val? && |Eval(l.current, st.frames, st.trace, Succeeds(sig)).values| == 1
    ensures var r := RunChain(c, f, [], Succeeds(sig)); r.Got? && |st.trace| + CallCount(l.current) == |r.trace| + ChainRepeats(c)
    ensures form.DeclForm? && RedeclaresTarget(c.steps) ==> DeclaredHere(st.frames, form.target) && l.current != Var(form.target)
  {
    hide Succeeds, RunChain, LowerChain, Eval, ExecBlock, ExprTyped, StepsTyped, Visible, Respects;
    var o := Succeeds(sig);
    var pure := BasePending(c) + AllCallees(c.steps);
    var s := SettingOf(clause, zeros, form, f, reserved, user, o, pure);
    SuccessRespectsAll(sig, pure);
    ChainSucceeds(c, sig, f);
    AllPending(c.steps, BasePending(c), pure);
    StatementReady(c, clause, zeros, form, f, [], o, pure, reserved, user, counter);
    ChainSimulates(s, c, State(f, []), counter);
    ChainCount(s, c, State(f, []), counter);
    l := LowerChain(c, counter, reserved, s.mode).value;
    st := ExecBlock(l.nodes, State(f, []), o).st;
    if form.DeclForm? {
      ChainHolder(s, c, counter);
    }
  }

  /** Declaring the target again is not Go. */
  lemma StoreStuck(x: string, current: Expr, st: State, o: Oracle)
    requires current != Var(x) && DeclaredHere(st.frames, x) && Eval(current, st.frames, st.trace, o).Val?
    ensures ExecBlock(FinalNodes(DeclForm(x), current), st, o) == Stuck
  {
    ExecOne(Assign([x], current, true), st, o);
    assert !Assignable(st.frames, [x], true);
  }

  /** When everything succeeds, an unsound chain shows: it is not a Go program, or its calls differ. */
  lemma UnsoundDiffers(c: Chain, clause: Clause, zeros: seq<Zero>, form: Form, f: Frames, reserved: set<string>,
                       user: set<string>, counter: nat, sig: string -> Kind)
    requires StatementInScope(c, form, f, reserved, user) && Typed(c, sig, f) && !Sound(c, form)
    ensures SuccessDiffers(c, clause, zeros, form, f, reserved, counter, sig)
  {
    hide Eval, EvalAll, Respects, AgreeOn, Known, LowerChain, Visible, RunChain, ExecNode, Typed, Succeeds, StatementInScope, FinalNodes;
    if !AllRendered(c.steps) {
      UnrenderedDiffers(c, clause, zeros, form, f, reserved, user, counter, sig);
    } else {
      var o := Succeeds(sig);
      var l, st := SuccessPoint(c, clause, zeros, form, f, reserved, user, counter, sig);
      var last := FinalNodes(form, l.current);
      ExecAppend(l.nodes, last, State(f, []), o);
      assert ExecBlock(l.nodes + last, State(f, []), o) == ExecBlock(last, st, o);
      if form.DeclForm? && RedeclaresTarget(c.steps) {
        StoreStuck(form.target, l.current, st, o);
      } else {
        AssignTarget(c, form, f, reserved, user);
        FinalComputes(form, l.current, st, o);
        EvalCount(l.current, st.frames, st.trace, o);
      }
    }
  }

  lemma AssignTarget(c: Chain, form: Form, f: Frames, reserved: set<string>, user: set<string>)
    requires StatementInScope(c, form, f, reserved, user)
    ensures form.AssignForm? ==> form.target != "_" && Lookup(f, form.target).Some?
  {
  }

  // ----- Errors handed on -----

  /** Handed on as meant and seen, whatever fails. */
  lemma FitMeansSame(c: Chain, clause: Clause, zeros: seq<Zero>, form: Form, f: Frames, t: Trace, o: Oracle,
                     user: set<string>, counter: nat, reserved: set<string>)
    requires LeavesControl(clause) && ClauseFits(clause, f, user)
    requires ErrorsFit(c, clause, zeros, form, f) && ErrorsSeen(c, clause, counter, reserved)
    ensures RunAsLowered(c, clause, zeros, form, f, t, o, counter, reserved) == RunStatement(c, clause, zeros, form, f, t, o)
  {
    hide RunChain, Handle, LoweredHandle, ChainAtHand, TargetCanFail, ChainCanFail, ChainErrVar, HidesError, ClauseInScope, IsCheck;
    var r := RunChain(c, f, t, o);
    if r.Failed? {
      var site := SiteOf(c, form, f, t, o, counter, reserved);
      if RunsBlock(clause) {
        var k := ChainDraws(c, f, t, o, counter, reserved);
        NotHiddenRight(clause, zeros, site, r.err, f, user, r.trace, o);
      } else {
        HandsOnRight(clause, zeros, site, r.err, f, r.trace, o);
        if !ChainCanFail(c) {
          NeverFails(c, f, t, o);
        } else if form.DeclForm? && ChainAtHand(c, f, t, o).Some? {
          HandNeedsTarget(c, f, t, o);
        }
      }
    }
  }

  /** A value that is not the given one. */
  function Other(v: Value): Value
  {
    Member(v, "")
  }

  lemma OtherDiffers(v: Value)
    ensures Other(v) != v
  {
  }

  /** A sound chain leaves one way: as lowered, and so not as meant where the two differ. */
  lemma LeavesOneWay(c: Chain, clause: Clause, zeros: seq<Zero>, form: Form, f: Frames, o: Oracle, reserved: set<string>,
                     user: set<string>, counter: nat)
    requires StatementInScope(c, form, f, reserved, user) && ClauseFits(clause, f, user) && Sound(c, form)
    requires var lowered, meant := RunAsLowered(c, clause, zeros, form, f, [], o, counter, reserved), RunStatement(c, clause, zeros, form, f, [], o);
      meant.Leave? && RunChain(c, f, [], o).Failed? && lowered != meant
    ensures !CorrectUnder(c, clause, zeros, form, f, reserved, user, counter, [], o)
  {
    hide RunChain, LowerStatement, ExecBlock, RunAsLowered, RunStatement, StatementInScope, ClauseFits, Sound, Visible;
    SoundAgrees(c, clause, zeros, form, f, [], o, reserved, user, counter);
    var lowered, meant := RunAsLowered(c, clause, zeros, form, f, [], o, counter, reserved), RunStatement(c, clause, zeros, form, f, [], o);
    VisibleAll(meant.trace);
    if lowered.Leave? {
      VisibleAll(lowered.trace);
    }
  }

  /** Otherwise some failure returns the wrong values. */
  lemma UnfitShows(c: Chain, clause: Clause, zeros: seq<Zero>, form: Form, f: Frames, reserved: set<string>,
                   user: set<string>, counter: nat, sig: string -> Kind) returns (o: Oracle)
    requires StatementInScope(c, form, f, reserved, user) && ClauseFits(clause, f, user) && Typed(c, sig, f)
    requires Sound(c, form) && !ErrorsFit(c, clause, zeros, form, f)
    ensures !CorrectUnder(c, clause, zeros, form, f, reserved, user, counter, [], o)
  {
    hide RunChain, LowerStatement, ChainAtHand, TargetCanFail, ExecBlock, StatementInScope, ClauseFits, FailsAt, IsCheck, OwnCheck, CallsBefore, Typed,
      Visible, ErrNameAt, ChainErrVar, LoweredHandle, Handle;
    var k := SomeCheck(c);
    var w: Failure := Failing(if |zeros| == 0 then Nil else Other(zeros[0].value), Raised(0));
    o := FailsAt(sig, CallsBefore(c, k), w);
    ChainFails(c, k, sig, f, counter, reserved, w);
    AssignTarget(c, form, f, reserved, user);
    if zeros != [] {
      OtherDiffers(zeros[0].value);
    }
    var r := RunChain(c, f, [], o);
    HandsOnRight(clause, zeros, SiteOf(c, form, f, [], o, counter, reserved), r.err, f, r.trace, o);
    assert RunAsLowered(c, clause, zeros, form, f, [], o, counter, reserved) != RunStatement(c, clause, zeros, form, f, [], o);
    HandledLeaves(clause, zeros, SiteOf(c, form, f, [], o, counter, reserved), r.err, f, r.trace, o);
    LeavesOneWay(c, clause, zeros, form, f, o, reserved, user, counter);
  }

  lemma HandledLeaves(clause: Clause, zeros: seq<Zero>, site: Site, err: Value, f: Frames, t: Trace, o: Oracle)
    requires HandsErrorOn(clause)
    ensures LoweredHandle(clause, zeros, site, err, f, t, o).Leave? && Handle(clause, zeros, err, f, t, o).Leave?
  {
  }

  /** Where a check's error is hidden, an error like no other value shows it. */
  lemma UnseenShows(c: Chain, clause: Clause, zeros: seq<Zero>, form: Form, f: Frames, reserved: set<string>,
                    user: set<string>, counter: nat, sig: string -> Kind) returns (o: Oracle)
    requires StatementInScope(c, form, f, reserved, user) && LeavesControl(clause) && ClauseFits(clause, f, user) && Typed(c, sig, f)
    requires Sound(c, form) && !ErrorsSeen(c, clause, counter, reserved)
    ensures !CorrectUnder(c, clause, zeros, form, f, reserved, user, counter, [], o)
  {
    hide RunChain, LowerStatement, ChainAtHand, TargetCanFail, ExecBlock, StatementInScope, FailsAt, IsCheck, OwnCheck, CallsBefore, Typed, Visible,
      ErrNameAt, ChainErrVar, LoweredHandle, Handle, Hides, ClauseInScope, LeavesControl, RunsBlock;
    var k: int :| IsCheck(c, k) && HidesError(clause, ErrNameAt(c, k, counter, reserved));
    var hand := if form.DeclForm? then (if OwnCheck(c, k) then Some(Nil) else None) else if form.AssignForm? then Lookup(f, form.target) else None;
    var site := Site(hand, ErrNameAt(c, k, counter, reserved));
    var id := HiddenShows(clause, zeros, site, f, user);
    var w: Failure := Failing(Nil, Raised(id));
    o := FailsAt(sig, CallsBefore(c, k), w);
    ChainFails(c, k, sig, f, counter, reserved, w);
    var r := RunChain(c, f, [], o);
    assert SiteOf(c, form, f, [], o, counter, reserved) == site;
    ReturnsBehind(sig, CallsBefore(c, k), w, r.trace);
    assert RunAsLowered(c, clause, zeros, form, f, [], o, counter, reserved) != RunStatement(c, clause, zeros, form, f, [], o);
    BlockMeansLeave(clause, zeros, r.err, f, user, r.trace, o);
    LeavesOneWay(c, clause, zeros, form, f, o, reserved, user, counter);
  }

  lemma ReturnsBehind(sig: string -> Kind, n: int, w: Failure, t: Trace)
    requires |t| == n + 1
    ensures Returning(FailsAt(sig, n, w), t)
  {
    var o := FailsAt(sig, n, w);
    forall u: Trace, event: Event | |t| <= |u|
      ensures o(u, event).Returns?
    {
      assert o(u, event) == SuccessReply(sig(event.fn));
    }
  }

  lemma BlockMeansLeave(clause: Clause, zeros: seq<Zero>, err: Value, f: Frames, user: set<string>, t: Trace, o: Oracle)
    requires RunsBlock(clause) && LeavesControl(clause) && ClauseInScope(clause, f, user) && Returning(o, t)
    ensures Handle(clause, zeros, err, f, t, o).Leave?
  {
    BlockLeaves(clause.handler.value.body, Explanation(clause, err), Scope(f, map[]), user, t, o);
  }

  /** A sound chain runs as lowered under every oracle. */
  lemma SoundAgrees(c: Chain, clause: Clause, zeros: seq<Zero>, form: Form, f: Frames, t: Trace, o: Oracle,
                    reserved: set<string>, user: set<string>, counter: nat)
    requires StatementInScope(c, form, f, reserved, user) && ClauseFits(clause, f, user) && Sound(c, form)
    requires RunChain(c, f, t, o) != Malformed
    ensures var nodes := LowerStatement(c, clause, zeros, form, counter, reserved);
      nodes.Some? && Agrees(form, user, ExecBlock(nodes.value, State(f, t), o), RunAsLowered(c, clause, zeros, form, f, t, o, counter, reserved), {})
  {
    hide RunChain, LowerStatement, ExecBlock, RunAsLowered, Respects, Visible;
    assert StepsInScope(c.steps, f, user);
    NoCallsNoCount(c.base);
    NoRepeatsExactly(c.steps, f, user, BasePending(c), if c.baseFallible then 0 else CallCount(c.base));
    EveryOracleRespectsNothing(o);
    StatementMeans(c, clause, zeros, form, f, t, o, {}, reserved, user, counter);
  }

  /**
   The exact condition. For every well-scoped, well-typed statement whose clause
   leaves control: the lowered code agrees with the meaning under every oracle and
   every history, same exit, same values, same calls, if and only if
   - every step is rendered as meant,
   - no error-only step looks at a value with calls still nested in it,
   - for a declaration, no plain step stands behind the last fallible one, and
   - for `onerr error ...`, the values returned with the error are the right ones, and
   - no block handler hides its error under the name that a check draws for it.
   */
  lemma LoweringCorrectExactly(c: Chain, clause: Clause, zeros: seq<Zero>, form: Form, f: Frames, reserved: set<string>,
                               user: set<string>, counter: nat, sig: string -> Kind)
    requires StatementInScope(c, form, f, reserved, user) && LeavesControl(clause) && ClauseFits(clause, f, user) && Typed(c, sig, f)
    ensures (forall t: Trace, o: Oracle :: CorrectUnder(c, clause, zeros, form, f, reserved, user, counter, t, o))
      <==> Faithful(c, clause, zeros, form, f, counter, reserved)
  {
    hide Sound, ErrorsFit, ErrorsSeen, StatementInScope, ClauseFits, LeavesControl, Typed, CorrectUnder;
    if Faithful(c, clause, zeros, form, f, counter, reserved) {
      forall t: Trace, o: Oracle
        ensures CorrectUnder(c, clause, zeros, form, f, reserved, user, counter, t, o)
      {
        FaithfulCorrect(c, clause, zeros, form, f, t, o, reserved, user, counter);
      }
    } else if !Sound(c, form) {
      UnsoundShows(c, clause, zeros, form, f, reserved, user, counter, sig);
    } else if !ErrorsFit(c, clause, zeros, form, f) {
      var o := UnfitShows(c, clause, zeros, form, f, reserved, user, counter, sig);
    } else {
      var o := UnseenShows(c, clause, zeros, form, f, reserved, user, counter, sig);
    }
  }

  lemma FaithfulCorrect(c: Chain, clause: Clause, zeros: seq<Zero>, form: Form, f: Frames, t: Trace, o: Oracle,
                        reserved: set<string>, user: set<string>, counter: nat)
    requires StatementInScope(c, form, f, reserved, user) && LeavesControl(clause) && ClauseFits(clause, f, user)
    requires Faithful(c, clause, zeros, form, f, counter, reserved)
    ensures CorrectUnder(c, clause, zeros, form, f, reserved, user, counter, t, o)
  {
    hide RunChain, LowerStatement, ExecBlock, Sound, ErrorsFit, ErrorsSeen, StatementInScope, ClauseFits, LeavesControl, Agrees;
    if RunStatement(c, clause, zeros, form, f, t, o) != Stuck {
      FitMeansSame(c, clause, zeros, form, f, t, o, user, counter, reserved);
      SoundAgrees(c, clause, zeros, form, f, t, o, reserved, user, counter);
    }
  }

  lemma UnsoundShows(c: Chain, clause: Clause, zeros: seq<Zero>, form: Form, f: Frames, reserved: set<string>,
                     user: set<string>, counter: nat, sig: string -> Kind)
    requires StatementInScope(c, form, f, reserved, user) && Typed(c, sig, f) && !Sound(c, form)
    ensures !CorrectUnder(c, clause, zeros, form, f, reserved, user, counter, [], Succeeds(sig))
  {
    hide RunChain, LowerStatement, ExecBlock, Sound, StatementInScope, Typed, Succeeds;
    UnsoundDiffers(c, clause, zeros, form, f, reserved, user, counter, sig);
    var nodes := LowerStatement(c, clause, zeros, form, counter, reserved);
    var meant := RunStatement(c, clause, zeros, form, f, [], Succeeds(sig));
    if nodes.Some? {
      var out := ExecBlock(nodes.value, State(f, []), Succeeds(sig));
      if out.Done? {
        VisibleAll(out.st.trace);
        VisibleAll(meant.st.trace);
      }
    }
  }

  // ----- A statement that is not Go -----

  /** `f() |> g() onerr error "bad: {error}"` */
  const HAND_ON := Clause(false, false, false, "", Some(ErrorHandler(ErrorText("bad: {error}"))))
  const CALL_AND_CHECK := Chain(Call("f", [], false), false, [Step(CallTarget("g", [], false), Fallible)])

  /** In a function that returns a number and an error it returns the error alone: one value for two results. */
  lemma ErrorWithoutItsZero(f: Frames, counter: nat)
    requires f.Scope? && f.vars == map[]
    ensures var zeros := [Spelled(Data(0)), Spelled(Nil)];
      var o: Oracle := (_, event: Event) => if event.fn == "g" then Returns([Nil, Raised(0)]) else Returns([Nil]);
      var nodes := LowerStatement(CALL_AND_CHECK, HAND_ON, zeros, StmtForm, counter, {});
      && RunStatement(CALL_AND_CHECK, HAND_ON, zeros, StmtForm, f, [], o).Leave?
      && RunStatement(CALL_AND_CHECK, HAND_ON, zeros, StmtForm, f, [], o).exit == Returned([Data(0), Described("bad: {error}", Raised(0))])
      && nodes.Some? && ExecBlock(nodes.value, State(f, []), o).Leave?
      && ExecBlock(nodes.value, State(f, []), o).exit == Returned([Described("bad: {error}", Raised(0))])
  {
    hide ExecBlock, LowerStatement;
    var zeros := [Spelled(Data(0)), Spelled(Nil)];
    var o: Oracle := (_, event: Event) => if event.fn == "g" then Returns([Nil, Raised(0)]) else Returns([Nil]);
    var c := CALL_AND_CHECK;
    assert Eval(c.base, f, [], o) == Ask(o, [], Event("f", [], false));
    assert c.steps[1..] == [];
    var u := [Event("f", [], false)];
    assert RunChain(c, f, [], o).Failed? && RunChain(c, f, [], o).err == Raised(0);
    assert WithZeros(zeros, Described("bad: {error}", Raised(0))) == [Data(0), Described("bad: {error}", Raised(0))];
    assert TargetInScope(c.steps[0].target, f, {});
    assert BasePending(c) == {"f"};
    EveryOracleRespectsNothing(o);
    StatementMeans(c, HAND_ON, zeros, StmtForm, f, [], o, {}, {}, {}, counter);
  }
}
