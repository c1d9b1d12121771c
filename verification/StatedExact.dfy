/**
 `chain onerr d` as a statement: the default goes nowhere, and a failed check should
 end the chain. The exact condition under which the lowered code makes no call more.
 */
module StatedExact {
  import opened Prelude
  import opened Ir
  import opened Pipes
  import opened Lowering
  import opened Machine
  import opened StepProof
  import opened HandlerProof
  import opened ChainProof
  import opened StatementProof
  import opened CountProof
  import opened Signatures
  import opened ShapeProof
  import opened ExactProof
  import opened DefaultProof
  import opened DefaultExact

  /** No call is made behind the first check: a second check would need one. */
  ghost predicate NothingBehind(c: Chain)
  {
    forall k: int :: IsFirst(c, k) ==> CallsAfter(c, k) == 0
  }

  /** `chain onerr continue` stands in for a clause that leaves. */
  const LEAVE := Clause(false, true, false, "", None)

  // ----- Without calls behind the first check -----

  /** A call-free, well-typed expression has a value, whatever the oracle. */
  lemma {:induction false} CallFree(e: Expr, sig: string -> Kind, f: Frames, t: Trace, o: Oracle)
    requires ExprTyped(e, Plain, sig, f) && CallCount(e) == 0
    ensures var r := Eval(e, f, t, o); r.Val? && |r.values| == 1 && r.trace == t
  {
    match e
    case Select(operand, _) => CallFree(operand, sig, f, t, o);
    case Explain(_, err) => CallFree(err, sig, f, t, o);
    case Describe(_, err) => CallFree(err, sig, f, t, o);
    case _ =>
  }

  lemma {:induction false} NoRepeatsInFront(steps: seq<Step>, k: nat, pending: nat, sig: string -> Kind)
    requires StepsTyped(steps, sig) && k < |steps| && steps[k].kind != Plain && !StepsCanFail(steps[..k]) && StepCalls(steps[k + 1..]) == 0
    requires steps[k].kind == ErrorOnly ==> pending + StepCalls(steps[..k]) == 0
    ensures Repeats(steps, pending) == 0
    decreases k
  {
    hide StepTyped;
    if k == 0 {
      assert steps[1..] == steps[k + 1..];
      NoCallsAllPlain(steps[1..], sig);
      PlainRepeats(steps[1..], if steps[0].kind == Fallible then 0 else pending);
    } else {
      assert steps[..k][0] == steps[0] && steps[..k][1..] == steps[1..][..k - 1] && steps[1..][k..] == steps[k + 1..];
      CanFailTail(steps[..k]);
      NoRepeatsInFront(steps[1..], k - 1, pending + CalleeCount(steps[0].target), sig);
    }
  }

  lemma {:induction false} PlainRepeats(steps: seq<Step>, pending: nat)
    requires !StepsCanFail(steps)
    ensures Repeats(steps, pending) == 0
    decreases |steps|
  {
    if steps != [] {
      CanFailTail(steps);
      PlainRepeats(steps[1..], pending + CalleeCount(steps[0].target));
    }
  }

  /** Then no call is made twice. */
  lemma NothingRepeated(c: Chain, sig: string -> Kind, f: Frames)
    requires Typed(c, sig, f) && NothingBehind(c)
    ensures ChainRepeats(c) == 0
  {
    hide ExprTyped, StepTyped;
    if ChainCanFail(c) {
      var k := FirstCheck(c);
      assert CallsAfter(c, k) == 0;
      if k < 0 {
        NoCallsAllPlain(c.steps, sig);
        PlainRepeats(c.steps, 0);
      } else {
        NoRepeatsInFront(c.steps, k, CallCount(c.base), sig);
      }
    } else {
      PlainRepeats(c.steps, CallCount(c.base));
    }
  }

  /** As long as nothing fails, the statement runs as it means. */
  lemma StatedRight(c: Chain, d: Value, zeros: seq<Zero>, f: Frames, reserved: set<string>, user: set<string>, counter: nat, t: Trace, o: Oracle)
    requires StatementInScope(c, StmtForm, f, reserved, user) && AllRendered(c.steps) && ChainRepeats(c) == 0
    requires !RunChain(c, f, t, o).Failed?
    ensures DefaultCorrectUnder(c, d, zeros, StmtForm, f, reserved, user, counter, t, o)
  {
    hide RunChain, LowerStatement, ExecBlock, Respects, Visible;
    assert StepsInScope(c.steps, f, user);
    NoCallsNoCount(c.base);
    NoRepeatsExactly(c.steps, f, user, BasePending(c), if c.baseFallible then 0 else CallCount(c.base));
    EveryOracleRespectsNothing(o);
    if RunChain(c, f, t, o) != Malformed {
      StatementMeans(c, DefaultClause(Literal(d)), zeros, StmtForm, f, t, o, {}, reserved, user, counter);
    }
  }

  // ----- When the first check fails -----

  /** A checked call whose failure leaves: it is the call that failed, with the trace at which the code left. */
  lemma FailedCall(num: nat, names: seq<string>, call: Expr, errVar: string, rest: Node, st: State, o: Oracle, u: Trace)
    requires 1 <= |names| <= 2 && "_" !in names && errVar == Last(names) && !DeclaredHere(st.frames, errVar) && rest.Assign?
    requires ExecBlock(Checked(num, names, call, errVar, [ContinueStmt]) + [rest], st, o) == Leave(Continued, u)
    ensures var r := Eval(call, st.frames, st.trace, o); r.Val? && |r.values| == |names| && Last(r.values) != Nil && r.trace == u
  {
    hide ExecBlock, Eval;
    var r := Eval(call, st.frames, st.trace, o);
    var comment, assign, check := StepComment(num), Assign(names, call, true), IfErrCheck(errVar, [ContinueStmt]);
    assert Checked(num, names, call, errVar, [ContinueStmt]) + [rest] == [comment] + ([assign] + ([check] + [rest]));
    Proceeds(comment, [assign] + ([check] + [rest]), st, st, o);
    ExecCons(assign, [check] + [rest], st, o);
    if r.Val? && |r.values| == |names| {
      RunChecked(num, names, call, errVar, [ContinueStmt], [rest], st, o);
      var st' := State(AfterAssign(st.frames, names, r.values), r.trace);
      ExecOne(ContinueStmt, InnerScope(st'), o);
      ExecOne(rest, st', o);
      NeverContinues(rest, st', o);
    }
  }

  lemma NeverContinues(n: Node, st: State, o: Oracle)
    requires n.Assign?
    ensures forall u :: ExecNode(n, st, o) != Leave(Continued, u)
  {
  }

  /** Field selections behind the check: no code, and a value without calls. */
  lemma FieldsBehind(rest: seq<Step>, after: Expr, counter: nat, num: nat, reserved: set<string>, mode: Mode, sig: string -> Kind, f: Frames,
                     user: set<string>, t: Trace, o: Oracle)
    requires StepsTyped(rest, sig) && AllRendered(rest) && StepCalls(rest) == 0 && CallCount(after) == 0 && ExprTyped(after, Plain, sig, f)
    ensures var l := LowerSteps(rest, after, counter, num, reserved, mode);
      && l.Some? && l.value.nodes == []
      && var r := Eval(l.value.current, f, t, o); r.Val? && |r.values| == 1 && r.trace == t
  {
    NoCallsAllPlain(rest, sig);
    FieldsInScope(rest, f, user);
    NestedFront(rest, after, counter, num, reserved, mode, sig, f, user);
    CallFree(LowerSteps(rest, after, counter, num, reserved, mode).value.current, sig, f, t, o);
  }

  lemma {:induction false} FieldsInScope(steps: seq<Step>, f: Frames, user: set<string>)
    requires StepCalls(steps) == 0
    ensures TargetsInScope(steps, f, user)
    decreases |steps|
  {
    if steps != [] {
      FieldsInScope(steps[1..], f, user);
      forall i | 0 <= i < |steps|
        ensures TargetInScope(steps[i].target, f, user)
      {
        assert i > 0 ==> steps[i] == steps[1..][i - 1];
      }
    }
  }

  /** What the lowered statement is, with either clause: the first check, and the value. */
  ghost predicate CheckAndValue(nodes: Option<seq<Node>>, first: Check, body: seq<Node>, current: Expr)
  {
    nodes == Some(Checked(first.num, first.names, first.call, first.errVar, body) + [Assign(["_"], current, false)])
  }

  lemma OnlyFirstCheck(c: Chain, k: int, clause: Clause, first: Check, zeros: seq<Zero>, counter: nat, reserved: set<string>,
                       sig: string -> Kind, f: Frames, user: set<string>) returns (current: Expr)
    requires IsFirst(c, k) && BeginsWith(c, k, first, counter, reserved, ModeOf(clause, zeros, StmtForm))
    requires StepsTyped(StepsBehind(c, k), sig) && AllRendered(StepsBehind(c, k)) && StepCalls(StepsBehind(c, k)) == 0
    ensures CheckAndValue(LowerStatement(c, clause, zeros, StmtForm, counter, reserved), first, LowerHandler(clause, zeros, [], first.errVar), current)
    ensures var l := LowerSteps(StepsBehind(c, k), first.after, first.counter, first.num, reserved, ModeOf(clause, zeros, StmtForm));
      l.Some? && l.value.current == current
  {
    hide LowerChain, LowerHandler, StepTyped;
    var rest, mode := StepsBehind(c, k), ModeOf(clause, zeros, StmtForm);
    NoCallsAllPlain(rest, sig);
    FieldsInScope(rest, f, user);
    NestedFront(rest, first.after, first.counter, first.num, reserved, mode, sig, f, user);
    var l := LowerChain(c, counter, reserved, mode).value;
    current := l.current;
    var checked := Checked(first.num, first.names, first.call, first.errVar, LowerHandler(clause, zeros, [], first.errVar));
    assert OnFail(mode, first.temp, first.errVar) == LowerHandler(clause, zeros, [], first.errVar);
    assert checked + [] == checked;
  }

  /** A failed first check goes on to the value, which makes no call. */
  lemma StatedFails(c: Chain, d: Value, zeros: seq<Zero>, f: Frames, reserved: set<string>, user: set<string>, counter: nat, sig: string -> Kind,
                    t: Trace, o: Oracle)
    requires StatementInScope(c, StmtForm, f, reserved, user) && AllRendered(c.steps) && Typed(c, sig, f) && NothingBehind(c)
    requires RunChain(c, f, t, o).Failed?
    ensures DefaultCorrectUnder(c, d, zeros, StmtForm, f, reserved, user, counter, t, o)
  {
    hide RunChain, LowerStatement, LowerChain, LowerSteps, ExecBlock, Typed, NothingBehind, IsFirst, CallsAfter, IsFirstCheck, BeginsWith, LowerHandler;
    var k := CheckThatFails(c, f, t, o);
    var clause := DefaultClause(Literal(d));
    var first := SplitAtFirst(c, k, LEAVE, clause, zeros, StmtForm, f, reserved, user, counter, sig);
    var r := FailedFirst(c, k, first, clause, zeros, f, reserved, user, counter, sig, t, o);
    GoesOnToValue(c, k, first, clause, d, zeros, f, reserved, user, counter, sig, t, o, r);
  }

  lemma CheckThatFails(c: Chain, f: Frames, t: Trace, o: Oracle) returns (k: int)
    requires RunChain(c, f, t, o).Failed?
    ensures IsFirst(c, k)
  {
    if !ChainCanFail(c) {
      NeverFails(c, f, t, o);
    }
    k := FirstCheck(c);
  }

  /** With a clause that leaves instead, the code leaves where the chain fails: so that is where its first check's call ends. */
  lemma FailedFirst(c: Chain, k: int, first: Check, clause: Clause, zeros: seq<Zero>, f: Frames, reserved: set<string>, user: set<string>, counter: nat,
                    sig: string -> Kind, t: Trace, o: Oracle) returns (r: Evaluation)
    requires StatementInScope(c, StmtForm, f, reserved, user) && AllRendered(c.steps) && Typed(c, sig, f) && NothingBehind(c) && IsFirst(c, k)
    requires IsFirstCheck(c, k, first, sig, f, reserved, ModeOf(LEAVE, zeros, StmtForm))
    requires BeginsWith(c, k, first, counter, reserved, ModeOf(LEAVE, zeros, StmtForm))
    requires RunChain(c, f, t, o).Failed?
    ensures r == Eval(first.call, f, t, o) && r.Val? && |r.values| == |first.names| && Last(r.values) != Nil && r.trace == RunChain(c, f, t, o).trace
  {
    hide RunChain, LowerStatement, LowerChain, LowerSteps, ExecBlock, BeginsWith, LowerHandler, Eval, CallCount, ExprTyped, StepCalls, Visible;
    NothingRepeated(c, sig, f);
    RestInScope(c, k, f, user, sig);
    NothingLater(c, k);
    var current := OnlyFirstCheck(c, k, LEAVE, first, zeros, counter, reserved, sig, f, user);
    SoundAgrees(c, LEAVE, zeros, StmtForm, f, t, o, reserved, user, counter);
    LeavesThere(c, zeros, f, t, o, counter, reserved, user);
    IsContinue(zeros, first.errVar);
    r := Eval(first.call, f, t, o);
    FailedCall(first.num, first.names, first.call, first.errVar, Assign(["_"], current, false), State(f, t), o, RunChain(c, f, t, o).trace);
  }

  lemma IsContinue(zeros: seq<Zero>, errVar: string)
    ensures LowerHandler(LEAVE, zeros, [], errVar) == [ContinueStmt]
  {
  }

  lemma NothingLater(c: Chain, k: int)
    requires NothingBehind(c) && IsFirst(c, k)
    ensures StepCalls(StepsBehind(c, k)) == 0 && (KindAt(c, k) == ErrorOnly ==> CallsBefore(c, k) == 0)
  {
    assert CallsAfter(c, k) == 0;
  }

  lemma LeavesThere(c: Chain, zeros: seq<Zero>, f: Frames, t: Trace, o: Oracle, counter: nat, reserved: set<string>, user: set<string>)
    requires RunChain(c, f, t, o).Failed?
    ensures RunAsLowered(c, LEAVE, zeros, StmtForm, f, t, o, counter, reserved) == Leave(Continued, RunChain(c, f, t, o).trace)
    ensures forall out :: Agrees(StmtForm, user, out, Leave(Continued, RunChain(c, f, t, o).trace), {}) ==> out == Leave(Continued, RunChain(c, f, t, o).trace)
  {
    hide RunChain, Visible;
    var u := RunChain(c, f, t, o).trace;
    VisibleAll(u);
    forall out | Agrees(StmtForm, user, out, Leave(Continued, u), {})
      ensures out == Leave(Continued, u)
    {
      VisibleAll(out.trace);
    }
  }

  lemma GoesOnToValue(c: Chain, k: int, first: Check, clause: Clause, d: Value, zeros: seq<Zero>, f: Frames, reserved: set<string>, user: set<string>,
                      counter: nat, sig: string -> Kind, t: Trace, o: Oracle, r: Evaluation)
    requires StatementInScope(c, StmtForm, f, reserved, user) && AllRendered(c.steps) && Typed(c, sig, f) && NothingBehind(c) && IsFirst(c, k)
    requires clause == DefaultClause(Literal(d)) && IsFirstCheck(c, k, first, sig, f, reserved, ModeOf(LEAVE, zeros, StmtForm))
    requires BeginsWith(c, k, first, counter, reserved, ModeOf(clause, zeros, StmtForm))
    requires r == Eval(first.call, f, t, o) && r.Val? && |r.values| == |first.names| && Last(r.values) != Nil
    requires RunChain(c, f, t, o).Failed? && r.trace == RunChain(c, f, t, o).trace
    ensures DefaultCorrectUnder(c, d, zeros, StmtForm, f, reserved, user, counter, t, o)
  {
    hide RunChain, LowerStatement, LowerChain, LowerSteps, ExecBlock, BeginsWith, LowerHandler, Eval, CallCount, ExprTyped, StepCalls, Visible;
    RestInScope(c, k, f, user, sig);
    NothingLater(c, k);
    var current := OnlyFirstCheck(c, k, clause, first, zeros, counter, reserved, sig, f, user);
    var body := LowerHandler(clause, zeros, [], first.errVar);
    var f' := AfterAssign(f, first.names, r.values);
    var st' := State(f', r.trace);
    IgnoresDefault(d, zeros, first.errVar, st', o);
    var final := Assign(["_"], current, false);
    CheckGoesOn(first.num, first.names, first.call, first.errVar, body, [final], State(f, t), st', o);
    AfterTyped(c, k, first, sig, f, reserved, zeros, r.values);
    FieldsBehind(StepsBehind(c, k), first.after, first.counter, first.num, reserved, ModeOf(clause, zeros, StmtForm), sig, f', user, r.trace, o);
    Discards(current, st', o);
    StaysAgreed(f, first.names, r.values, user, reserved);
    VisibleAll(r.trace);
  }

  lemma IgnoresDefault(d: Value, zeros: seq<Zero>, errVar: string, st: State, o: Oracle)
    ensures CloseScope(ExecBlock(LowerHandler(DefaultClause(Literal(d)), zeros, [], errVar), InnerScope(st), o)) == Done(st)
  {
    assert LowerHandler(DefaultClause(Literal(d)), zeros, [], errVar) == [RawStmt([])];
    ExecOne(RawStmt([]), InnerScope(st), o);
  }

  /** The value goes nowhere. */
  lemma Discards(current: Expr, st: State, o: Oracle)
    requires var r := Eval(current, st.frames, st.trace, o); r.Val? && |r.values| == 1 && r.trace == st.trace
    ensures ExecBlock([Assign(["_"], current, false)], st, o) == Done(st)
  {
    hide Eval;
    var v := Eval(current, st.frames, st.trace, o).values;
    ExecOne(Assign(["_"], current, false), st, o);
    assert AssignAll(st.frames, ["_"], v, false) == st.frames by {
      assert ["_"][1..] == [] && v[1..] == [];
    }
  }

  /** Behind the check, what is left of the value is typed. */
  lemma AfterTyped(c: Chain, k: int, first: Check, sig: string -> Kind, f: Frames, reserved: set<string>, zeros: seq<Zero>, values: seq<Value>)
    requires f.Scope? && IsFirst(c, k) && IsFirstCheck(c, k, first, sig, f, reserved, ModeOf(LEAVE, zeros, StmtForm)) && |values| == |first.names|
    requires KindAt(c, k) == ErrorOnly ==> CallsBefore(c, k) == 0
    ensures ExprTyped(first.after, Plain, sig, AfterAssign(f, first.names, values)) && CallCount(first.after) == 0
  {
    hide CallCount;
    var f' := AfterAssign(f, first.names, values);
    if KindAt(c, k) == ErrorOnly {
      assert Wider(f, f');
      TypedWider(first.after, Plain, sig, f, f');
    } else {
      NamesCallNothing();
    }
  }

  lemma StaysAgreed(f: Frames, names: seq<string>, values: seq<Value>, user: set<string>, reserved: set<string>)
    requires f.Scope? && 1 <= |names| == |values| <= 2 && user <= reserved && forall x :: x in names ==> x !in reserved
    ensures AgreeOn(AfterAssign(f, names, values), f, user)
  {
    assert forall i :: 0 <= i < |names| ==> names[i] in names;
  }

  /**
   The exact condition for `chain onerr d` as a statement. For every well-scoped,
   well-typed chain: the lowered code makes exactly the chain's calls, for every
   default, history and oracle, if and only if every step is rendered as meant and no
   call is made behind the first check, be it a later step's or one of the value's
   again.
   */
  lemma DefaultStatedExactly(c: Chain, zeros: seq<Zero>, f: Frames, reserved: set<string>, user: set<string>, counter: nat, sig: string -> Kind)
    requires StatementInScope(c, StmtForm, f, reserved, user) && Typed(c, sig, f)
    ensures (forall d: Value, t: Trace, o: Oracle :: DefaultCorrectUnder(c, d, zeros, StmtForm, f, reserved, user, counter, t, o))
      <==> AllRendered(c.steps) && NothingBehind(c)
  {
    hide StatementInScope, Typed, DefaultCorrectUnder, CallsAfter, IsFirst, RunChain, AllRendered;
    if !AllRendered(c.steps) {
      UnsoundDefault(c, Nil, zeros, StmtForm, f, reserved, user, counter, sig);
    } else if NothingBehind(c) {
      NothingRepeated(c, sig, f);
      forall d: Value, t: Trace, o: Oracle
        ensures DefaultCorrectUnder(c, d, zeros, StmtForm, f, reserved, user, counter, t, o)
      {
        if RunChain(c, f, t, o).Failed? {
          StatedFails(c, d, zeros, f, reserved, user, counter, sig, t, o);
        } else {
          StatedRight(c, d, zeros, f, reserved, user, counter, t, o);
        }
      }
    } else {
      var k: int :| IsFirst(c, k) && CallsAfter(c, k) != 0;
      LaterCallsShow(c, k, Nil, zeros, StmtForm, f, reserved, user, counter, sig);
    }
  }
}
