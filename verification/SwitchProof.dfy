/**
 The goto form: `x := chain |> switch ... onerr clause`. What it computes, and
 that its gotos and labels obey the rules of the Go language specification.
 */
module SwitchProof {
  import opened Prelude
  import opened Ir
  import opened Names
  import opened Pipes
  import opened Lowering
  import opened Machine
  import opened StepProof
  import opened HandlerProof
  import opened ChainProof
  import opened StatementProof

  // ----- Meaning -----

  function RunPiped(left: Piped, f: Frames, t: Trace, o: Oracle): Run
  {
    match left
    case ChainLeft(chain) => RunChain(chain, f, t, o)
    case SingleLeft(expr, fallible) => Settle(if fallible then Fallible else Plain, Nil, Eval(expr, f, t, o))
  }

  /** The switch applied to a value: its result is the variable's. */
  function TakeSwitch(x: string, switchFn: string, v: Value, f: Frames, u: Trace, o: Oracle): Outcome
  {
    match Ask(o, u, Event(switchFn, [v], false))
    case Val(values, u') => if |values| == 1 then Done(State(Declare(f, x, values[0]), u')) else Stuck
    case Boom(p, u') => Leave(Panicked(p), u')
    case Meaningless => Stuck
  }

  /** The handler supplies a value instead of leaving. */
  predicate SuppliesDefault(clause: Clause)
  {
    && !clause.shorthandReturn && !clause.shorthandContinue && !clause.shorthandBreak
    && clause.handler.Some? && clause.handler.value.DefaultHandler?
  }

  function Supplied(clause: Clause, err: Value, f: Frames): Value
    requires SuppliesDefault(clause)
  {
    HandlerValue(clause.handler.value.value, Explanation(clause, err), f)
  }

  /** The default a clause means: a literal, or for `onerr empty` the zero value of the switch's type. */
  function MeantDefault(clause: Clause, zero: Value): Option<Value>
  {
    if GivesEmpty(clause) then Some(zero) else LoweredDefault(clause)
  }

  /** The default the variable is initialised with. */
  function LoweredDefault(clause: Clause): Option<Value>
  {
    var default := ExtractDefault(clause);
    if default.Some? then Some(default.value.value) else None
  }

  /** A default is the variable's value then, a literal one or any other; or else the handler has its way. */
  function AfterFailure(x: string, default: Option<Value>, clause: Clause, err: Value, f: Frames, u: Trace, handled: Outcome): Outcome
  {
    if default.Some? then Done(State(Declare(f, x, default.value), u))
    else if SuppliesDefault(clause) then Done(State(Declare(f, x, Supplied(clause, err, f)), u))
    else handled
  }

  /** The switch on the value, or the handler on the first error; `zero` is the zero value of the switch's type. */
  function Conclude(x: string, zero: Value, clause: Clause, zeros: seq<Zero>, switchFn: string, f: Frames, run: Run, o: Oracle): Outcome
  {
    match run
    case Got(v, u) => TakeSwitch(x, switchFn, v, f, u, o)
    case Failed(err, u) => AfterFailure(x, MeantDefault(clause, zero), clause, err, f, u, Handle(clause, zeros, err, f, u, o))
    case Panicking(p, u) => Leave(Panicked(p), u)
    case Malformed => Stuck
  }

  function RunSwitch(x: string, zero: Value, left: Piped, clause: Clause, zeros: seq<Zero>, switchFn: string, f: Frames, t: Trace, o: Oracle): Outcome
  {
    Conclude(x, zero, clause, zeros, switchFn, f, RunPiped(left, f, t, o), o)
  }

  /** The variable that records the error. */
  ghost function PipeErrName(counter: nat, reserved: set<string>): string
  {
    Numbered("pipeErr", NextId(reserved, NextId(reserved, NextId(reserved, counter, "onerr"), "end"), "pipeErr"))
  }

  /** The same with the handler as it is lowered: the variable, still zero, is what `onerr error ...` finds at hand. */
  function ConcludeAsLowered(x: string, zero: Value, clause: Clause, zeros: seq<Zero>, switchFn: string, pipeErr: string, f: Frames, run: Run, o: Oracle): Outcome
  {
    match run
    case Failed(err, u) =>
      AfterFailure(x, LoweredDefault(clause), clause, err, f, u, LoweredHandle(clause, zeros, Site(Some(zero), pipeErr), err, f, u, o))
    case _ => Conclude(x, zero, clause, zeros, switchFn, f, run, o)
  }

  // ----- What the lowered statement computes -----

  ghost predicate PipedInScope(left: Piped, f: Frames, user: set<string>, pure: set<string>)
  {
    match left
    case ChainLeft(c) => Vars(c.base) <= user && StepsInScope(c.steps, f, user) && PendingCallsPure(c.steps, BasePending(c), pure)
    case SingleLeft(expr, _) => Vars(expr) <= user
  }

  /** Where a check of the scoped part stands. */
  ghost function PipedSite(s: Setting, left: Piped, t: Trace, counter: nat): Site
  {
    match left
    case ChainLeft(c) => ChainSite(s, c, t, counter)
    case SingleLeft(_, _) => Site(None, ErrName(Fallible, counter, s.reserved))
  }

  lemma PipedSimulates(s: Setting, left: Piped, st: State, counter: nat)
    requires s.mode.Labels? && WellSet(s) && At(s, st.frames, counter, Literal(Nil)) && PipedInScope(left, s.g, s.user, s.pure)
    requires RunPiped(left, s.g, st.trace, s.o) != Malformed
    ensures var l := LowerPiped(left, counter, s.reserved, s.mode);
      && l.Some? && NoLabels(l.value.nodes)
      && Simulates(s, ExecBlock(l.value.nodes, st, s.o), l.value.current, l.value.counter, RunPiped(left, s.g, st.trace, s.o),
                   PipedSite(s, left, st.trace, counter))
  {
    match left
    case ChainLeft(c) => ChainSimulates(s, c, st, counter);
    case SingleLeft(expr, fallible) =>
      if fallible {
        SingleSimulates(s, expr, st, counter);
      } else {
        EvalAlike(expr, st.frames, s.g, st.trace, st.trace, s.o, s.pure);
      }
  }

  lemma SingleSimulates(s: Setting, expr: Expr, st: State, counter: nat)
    requires s.mode.Labels? && WellSet(s) && At(s, st.frames, counter, Literal(Nil)) && Vars(expr) <= s.user
    requires RunPiped(SingleLeft(expr, true), s.g, st.trace, s.o) != Malformed
    ensures var l := LowerPiped(SingleLeft(expr, true), counter, s.reserved, s.mode);
      && l.Some? && NoLabels(l.value.nodes)
      && Simulates(s, ExecBlock(l.value.nodes, st, s.o), l.value.current, l.value.counter,
                   RunPiped(SingleLeft(expr, true), s.g, st.trace, s.o), PipedSite(s, SingleLeft(expr, true), st.trace, counter))
  {
    hide ExecBlock, Eval, EvalAll, Known, Respects, Visible, Numbered, NextId;
    hide Lookup, Update, AfterAssign, OnFail;
    ExecNothing(s.o);
    EvalAlike(expr, st.frames, s.g, st.trace, st.trace, s.o, s.pure);
    var c := Chain(expr, true, []);
    BaseNames(s, c, counter);
    var b := LowerBase(c, counter, s.reserved, s.mode);
    var names := b.nodes[1].names;
    var rest := [b.nodes[1], b.nodes[2]];
    var st' := CheckedMeaning(s, Fallible, 1, names, expr, b.nodes[2].errVar, names[0], Literal(Nil), counter, b.counter,
                              [], st, Nil, st.trace, Eval(expr, s.g, st.trace, s.o));
    Proceeds(b.nodes[0], rest, st, st, s.o);
    assert b.nodes + [] == [b.nodes[0]] + rest;
    assert LowerPiped(SingleLeft(expr, true), counter, s.reserved, s.mode).value.nodes == rest;
  }

  ghost predicate Skipped(s: Setting, x: string, end: string, st: State, out: Outcome, a: Evaluation)
    requires st.frames.Scope?
  {
    match a
    case Val(values, u) => |values| == 1 ==>
      out.Jump? && out.dest == end && out.st.frames == Scope(Update(st.frames.outer, x, values[0]), st.frames.vars)
      && Visible(out.st.trace, s.pure) == Visible(u, s.pure)
    case Boom(p, u) => out.Leave? && out.exit == Panicked(p) && Visible(out.trace, s.pure) == Visible(u, s.pure)
    case Meaningless => true
  }

  /** The switch is one call on the value that is still owed. */
  lemma SwitchCalled(switchFn: string, current: Expr, f: Frames, t: Trace, o: Oracle, v: Value)
    requires var r := Eval(current, f, t, o); r.Val? && r.values == [v]
    ensures Eval(Call(switchFn, [current], false), f, t, o) == Ask(o, Eval(current, f, t, o).trace, Event(switchFn, [v], false))
  {
    assert OthersPeek([current], 0, f);
    EvalPlaced([current], 0, f, t, o);
    assert PlacedValues([current], 0, v, f) == [v];
  }

  /** Store the result of a call and jump. */
  lemma StoreRuns(x: string, call: Expr, end: string, f: Frames, t: Trace, o: Oracle)
    requires f.Scope? && x !in f.vars && Lookup(f, x).Some? && x != "_"
    ensures var a := Eval(call, f, t, o);
      var out := ExecBlock([Assign([x], call, false), Goto(end)], State(f, t), o);
      && (a.Val? && |a.values| == 1 ==> out == Jump(end, State(Scope(Update(f.outer, x, a.values[0]), f.vars), a.trace)))
      && (a.Boom? ==> out == Leave(Panicked(a.value), a.trace))
  {
    hide Eval, EvalAll, ExecBlock;
    var store := Assign([x], call, false);
    assert [store, Goto(end)] == [store] + [Goto(end)];
    ExecCons(store, [Goto(end)], State(f, t), o);
    var a := Eval(call, f, t, o);
    if a.Val? && |a.values| == 1 {
      assert AssignAll(f, [x], a.values, false) == Update(f, x, a.values[0]) by {
        assert [x][1..] == [] && a.values[1..] == [];
      }
      ExecOne(Goto(end), State(Update(f, x, a.values[0]), a.trace), o);
    }
  }

  /** The scoped part at its end: store the switch's value and jump over the handler. */
  lemma StoreAndSkip(s: Setting, x: string, switchFn: string, end: string, current: Expr, st: State, v: Value, u: Trace)
    requires Respects(s.o, s.pure) && Holds(s, current, st, v, u)
    requires st.frames.Scope? && x !in st.frames.vars && Lookup(st.frames, x).Some? && x != "_"
    ensures var out := ExecBlock([Assign([x], Call(switchFn, [current], false), false), Goto(end)], st, s.o);
      Skipped(s, x, end, st, out, Ask(s.o, u, Event(switchFn, [v], false)))
  {
    hide Eval, EvalAll, ExecBlock, Ask, Visible, Respects, Lookup, Update;
    var r := Eval(current, st.frames, st.trace, s.o);
    SwitchCalled(switchFn, current, st.frames, st.trace, s.o, v);
    AskAlike(s.o, s.pure, r.trace, u, Event(switchFn, [v], false));
    StoreRuns(x, Call(switchFn, [current], false), end, st.frames, st.trace, s.o);
  }

  /** The clause supplies a value or leaves, and mentions what is in scope. */
  ghost predicate SwitchClauseFits(clause: Clause, f: Frames, user: set<string>)
  {
    ExtractDefault(clause).Some? || (SuppliesDefault(clause) && ClauseInScope(clause, f, user)) || ClauseFits(clause, f, user)
  }

  ghost predicate SwitchInScope(x: string, left: Piped, clause: Clause, f: Frames, reserved: set<string>, user: set<string>, pure: set<string>)
  {
    && f.Scope? && user <= reserved && (forall y :: y in f.vars ==> y in reserved)
    && PipedInScope(left, f, user, pure) && SwitchClauseFits(clause, f, user)
    && x in reserved && x !in user && x != "_" && !DeclaredHere(f, x)
  }

  /** What the handler declares is new in the function's own scope, where the handler stands. */
  predicate SpliceFits(x: string, pipeErr: string, clause: Clause, zeros: seq<Zero>, f: Frames)
  {
    ExtractDefault(clause).Some? || forall y :: y in DeclaredBy(clause, zeros) ==> !DeclaredHere(f, y) && y != x && y != pipeErr
  }

  lemma {:induction false} BodyHasNoLabels(body: seq<HandlerStmt>, errVar: string)
    ensures NoLabels(RenderBody(body, errVar))
  {
    if body != [] {
      BodyHasNoLabels(body[1..], errVar);
      RenderOneHasNoLabels(body[0], errVar);
    }
  }

  lemma HandlerHasNoLabels(clause: Clause, zeros: seq<Zero>, names: seq<string>, errVar: string)
    ensures NoLabels(LowerHandler(clause, zeros, names, errVar))
  {
    DeclsHaveNoLabels(ResultExprs(zeros, Var(errVar)));
  }

  /** A default that is no literal is assigned where the handler stands. */
  lemma SuppliedRuns(x: string, clause: Clause, zeros: seq<Zero>, pipeErr: string, err: Value, f: Frames, g: Frames, user: set<string>, t: Trace, o: Oracle)
    requires SuppliesDefault(clause) && ClauseInScope(clause, g, user) && AgreeOn(f, g, user)
    requires Lookup(f, pipeErr) == Some(err) && pipeErr !in user && pipeErr != "_" && pipeErr != x
    requires x !in user && x != "_" && Lookup(f, x).Some?
    ensures var out := ExecBlock(LowerHandler(clause, zeros, [x], pipeErr), State(f, t), o);
      && out.Done? && out.st.trace == t && AgreeOn(out.st.frames, g, user) && Lookup(out.st.frames, x) == Some(Supplied(clause, err, g))
  {
    hide EvalAll, ExecBlock, Eval, AssignAll, Assignable, Update;
    var value := clause.handler.value.value;
    var error := Explanation(clause, err);
    var assign := Assign([x], RenderValue(value, pipeErr), false);
    var body := [RawStmt([assign])];
    var f' := if clause.explain == "" then f else Update(f, pipeErr, error);
    UpdateKeepsNames(f, pipeErr, error);
    if clause.explain == "" {
      assert LowerHandler(clause, zeros, [x], pipeErr) == body;
    } else {
      WrapRuns(clause.explain, pipeErr, err, body, f, t, o);
    }
    var v := HandlerValue(value, error, g);
    RenderedValue(value, pipeErr, error, f', g, user, t, o);
    AssignRuns(x, RenderValue(value, pipeErr), v, f', t, o);
    UpdateKeepsNames(f', x, v);
  }

  /** One assignment, spliced in as it is. */
  lemma AssignRuns(x: string, e: Expr, v: Value, f: Frames, t: Trace, o: Oracle)
    requires Eval(e, f, t, o) == Val([v], t) && x != "_" && Lookup(f, x).Some?
    ensures ExecBlock([RawStmt([Assign([x], e, false)])], State(f, t), o) == Done(State(Update(f, x, v), t))
  {
    hide Eval;
    var assign := Assign([x], e, false);
    ExecOne(RawStmt([assign]), State(f, t), o);
    ExecOne(assign, State(f, t), o);
    assert AssignAll(f, [x], [v], false) == Update(f, x, v) by {
      assert [x][1..] == [] && [v][1..] == [];
    }
    assert Assignable(f, [x], false);
  }

  /** Without a literal default, from the handler's label on: a value for the variable, or the handler's exit. */
  ghost predicate AfterLabel(x: string, clause: Clause, out: Outcome, err: Value, g: Frames, user: set<string>, handled: Outcome, u: Trace, pure: set<string>)
  {
    SwitchAgrees(x, user, out, AfterFailure(x, LoweredDefault(clause), clause, err, g, u, handled), pure)
  }

  lemma AfterOnErr(x: string, zero: Value, clause: Clause, zeros: seq<Zero>, pipeErr: string, onErr: string, end: string,
                   err: Value, f: Frames, g: Frames, user: set<string>, t: Trace, u: Trace, o: Oracle, pure: set<string>)
    requires Respects(o, pure) && Visible(t, pure) == Visible(u, pure) && AgreeOn(f, g, user)
    requires SwitchClauseFits(clause, g, user) && f.Scope? && x !in user && x != "_" && x != pipeErr
    requires Lookup(f, pipeErr) == Some(err) && pipeErr !in user && pipeErr != "_"
    requires Lookup(f, x) == Some(if ExtractDefault(clause).Some? then ExtractDefault(clause).value.value else zero)
    requires ExtractDefault(clause).None? ==> RoomFor(clause, zeros, f, pipeErr)
    ensures var h := if ExtractDefault(clause).Some? then [] else LowerHandler(clause, zeros, [x], pipeErr);
      var out := ExecBlock([Label(onErr)] + (h + [Label(end)]), State(f, t), o);
      AfterLabel(x, clause, out, err, g, user, LoweredHandle(clause, zeros, Site(Some(zero), pipeErr), err, g, u, o), u, pure)
  {
    hide LoweredHandle, LowerHandler, Respects, Visible, ClauseInScope, LeavesLowered, RoomFor;
    var h := if ExtractDefault(clause).Some? then [] else LowerHandler(clause, zeros, [x], pipeErr);
    Proceeds(Label(onErr), h + [Label(end)], State(f, t), State(f, t), o);
    if ExtractDefault(clause).Some? {
      assert h + [Label(end)] == [Label(end)];
      ExecOne(Label(end), State(f, t), o);
    } else {
      HandlerHasNoLabels(clause, zeros, [x], pipeErr);
      ExecAppend(h, [Label(end)], State(f, t), o);
      if SuppliesDefault(clause) {
        SuppliedInScope(clause, g, user);
        SuppliedRuns(x, clause, zeros, pipeErr, err, f, g, user, t, o);
        ExecOne(Label(end), ExecBlock(h, State(f, t), o).st, o);
      } else {
        HandlerMeaning(clause, zeros, [x], pipeErr, err, f, g, user, t, u, o, pure);
        assert AtHand([x], f) == Some(zero);
      }
    }
  }

  lemma SuppliedInScope(clause: Clause, g: Frames, user: set<string>)
    requires SwitchClauseFits(clause, g, user) && SuppliesDefault(clause) && ExtractDefault(clause).None?
    ensures ClauseInScope(clause, g, user)
  {
  }

  /** Where the two jumps of the scoped part land. */
  lemma Landing(onErr: string, end: string, h: seq<Node>, st: State, o: Oracle)
    requires NoLabels(h) && onErr != end
    ensures var tail := [Label(onErr)] + (h + [Label(end)]);
      && Then(Jump(onErr, st), tail, o) == ExecBlock(tail, st, o)
      && Then(Jump(end, st), tail, o) == Done(st)
  {
    var tail := [Label(onErr)] + (h + [Label(end)]);
    assert tail[1..] == h + [Label(end)] && tail[0..] == tail;
    FindPast(h, [Label(end)], end);
    assert tail[1 + |h|..] == [Label(end)];
    ExecOne(Label(end), st, o);
  }

  /** Lowered outcome against meaning. */
  ghost predicate SwitchAgrees(x: string, user: set<string>, out: Outcome, meant: Outcome, pure: set<string>)
  {
    Agrees(DeclForm(x), user, out, meant, pure)
  }

  /** No step failed: the variable gets the switch's value, or the switch panics. */
  lemma SwitchTaken(s: Setting, x: string, switchFn: string, onErr: string, end: string, h: seq<Node>,
                    current: Expr, st: State, v: Value, u: Trace)
    requires Respects(s.o, s.pure) && Holds(s, current, st, v, u) && NoLabels(h) && onErr != end
    requires st.frames.Scope? && x !in st.frames.vars && Lookup(st.frames, x).Some? && x != "_" && x !in s.user
    requires AgreeOn(st.frames.outer, s.g, s.user) && Lookup(st.frames.outer, x).Some?
    requires TakeSwitch(x, switchFn, v, s.g, u, s.o) != Stuck
    ensures var meant := TakeSwitch(x, switchFn, v, s.g, u, s.o);
      var finish := [Assign([x], Call(switchFn, [current], false), false), Goto(end)];
      SwitchAgrees(x, s.user,
                   Then(CloseScope(ExecBlock(finish, st, s.o)), [Label(onErr)] + (h + [Label(end)]), s.o), meant, s.pure)
  {
    hide Eval, EvalAll, ExecBlock, Visible, Respects, Ask, Update, Holds;
    StoreAndSkip(s, x, switchFn, end, current, st, v, u);
    var finish := [Assign([x], Call(switchFn, [current], false), false), Goto(end)];
    var out := ExecBlock(finish, st, s.o);
    var a := Ask(s.o, u, Event(switchFn, [v], false));
    if a.Val? {
      var f := st.frames.outer;
      Landing(onErr, end, h, State(Update(f, x, a.values[0]), out.st.trace), s.o);
      UpdateKeepsNames(f, x, a.values[0]);
    }
  }

  /** A step failed: the default is the value, or the handler leaves. */
  lemma SwitchFailed(s: Setting, x: string, zero: Value, clause: Clause, zeros: seq<Zero>, pipeErr: string, onErr: string, end: string,
                     f2: Frames, err: Value, t: Trace, u: Trace)
    requires Respects(s.o, s.pure) && Visible(t, s.pure) == Visible(u, s.pure) && onErr != end && f2.Scope?
    requires AgreeOn(f2, s.g, s.user) && Lookup(f2, pipeErr).Some? && x != pipeErr && x != "_"
    requires pipeErr !in s.user && pipeErr != "_" && x !in s.user
    requires SwitchClauseFits(clause, s.g, s.user)
    requires Lookup(f2, x) == Some(if ExtractDefault(clause).Some? then ExtractDefault(clause).value.value else zero)
    requires ExtractDefault(clause).None? ==> RoomFor(clause, zeros, f2, pipeErr)
    ensures var meant := AfterFailure(x, LoweredDefault(clause), clause, err, s.g, u, LoweredHandle(clause, zeros, Site(Some(zero), pipeErr), err, s.g, u, s.o));
      var h := if ExtractDefault(clause).Some? then [] else LowerHandler(clause, zeros, [x], pipeErr);
      SwitchAgrees(x, s.user, Then(Jump(onErr, State(Update(f2, pipeErr, err), t)), [Label(onErr)] + (h + [Label(end)]), s.o), meant, s.pure)
  {
    hide ExecBlock, LowerHandler, LoweredHandle, AfterFailure, Visible, Respects, SwitchClauseFits, DeclaredBy;
    var h := if ExtractDefault(clause).Some? then [] else LowerHandler(clause, zeros, [x], pipeErr);
    var f := Update(f2, pipeErr, err);
    UpdateKeepsNames(f2, pipeErr, err);
    HandlerHasNoLabels(clause, zeros, [x], pipeErr);
    Landing(onErr, end, h, State(f, t), s.o);
    AfterOnErr(x, zero, clause, zeros, pipeErr, onErr, end, err, f, s.g, s.user, t, u, s.o, s.pure);
  }

  /**
   The goto form for every chain, clause and oracle: when nothing fails the variable
   gets the switch's value and the handler does not run; otherwise no step after the
   failing one runs and the handler gets that step's error, or the default is the value.
   */
  lemma SwitchMeans(x: string, typ: string, zero: Value, left: Piped, clause: Clause, zeros: seq<Zero>, switchFn: string,
                    f: Frames, t: Trace, o: Oracle, pure: set<string>, reserved: set<string>, user: set<string>, counter: nat)
    requires SwitchInScope(x, left, clause, f, reserved, user, pure) && SpliceFits(x, PipeErrName(counter, reserved), clause, zeros, f) && Respects(o, pure)
    requires Conclude(x, zero, clause, zeros, switchFn, f, RunPiped(left, f, t, o), o) != Stuck
    ensures var nodes := LowerSwitch(x, typ, zero, left, clause, zeros, [x], switchFn, counter, reserved);
      && nodes.Some?
      && SwitchAgrees(x, user, ExecBlock(nodes.value, State(f, t), o),
                      ConcludeAsLowered(x, zero, clause, zeros, switchFn, PipeErrName(counter, reserved), f, RunPiped(left, f, t, o), o), pure)
  {
    hide Eval, EvalAll, ExecNode, ExecBlock, Visible, Respects, RunPiped, AfterFailure, LoweredHandle, LowerHandler, Handle, Update, PipedSite, NextId;
    hide PendingCallsPure, StepsInScope, TakeSwitch, LowerPiped, SwitchClauseFits, DeclaredBy;
    var k1 := NextId(reserved, counter, "onerr");
    var k2 := NextId(reserved, k1, "end");
    var k3 := NextId(reserved, k2, "pipeErr");
    var onErr, end, pipeErr := Numbered("onerr", k1), Numbered("end", k2), Numbered("pipeErr", k3);
    NextIsNew(reserved, k2, "pipeErr");
    if onErr == end {
      NumberedInjective("onerr", k1, "end", k2);
    }
    var default := ExtractDefault(clause);
    var f2 := Declare(Declare(f, pipeErr, Nil), x, if default.Some? then default.value.value else zero);
    var s := Setting(reserved, Labels(onErr, pipeErr), o, pure, user, f, f2);
    var inside := State(Scope(f2, map[]), t);
    PipedSimulates(s, left, inside, k3);
    var l := LowerPiped(left, k3, reserved, s.mode).value;
    SwitchPrefix(x, typ, zero, clause, zeros, onErr, end, pipeErr, l.nodes + Finish(x, switchFn, end, l.current), f, t, o);
    RoomBehind(x, clause, zeros, f, pipeErr, k3);
    SwitchEnds(s, x, zero, clause, zeros, switchFn, end, f2, l, inside, RunPiped(left, f, t, o), PipedSite(s, left, t, k3));
  }

  /** Behind the two declarations there is room for what the handler declares. */
  lemma RoomBehind(x: string, clause: Clause, zeros: seq<Zero>, f: Frames, pipeErr: string, k: nat)
    requires f.Scope? && SpliceFits(x, pipeErr, clause, zeros, f) && pipeErr == Numbered("pipeErr", k)
    ensures ExtractDefault(clause).None? ==> forall v, w :: RoomFor(clause, zeros, Declare(Declare(f, pipeErr, v), x, w), pipeErr)
  {
    if ExtractDefault(clause).None? {
      forall i: nat
        ensures ZeroName(i) != pipeErr
      {
        ZeroNameNotNumbered(i, "pipeErr", k);
      }
    }
  }

  function Finish(x: string, switchFn: string, end: string, current: Expr): seq<Node>
  {
    [Assign([x], Call(switchFn, [current], false), false), Goto(end)]
  }

  /** The scoped part and what follows, for each way the chain can go. */
  lemma SwitchEnds(s: Setting, x: string, zero: Value, clause: Clause, zeros: seq<Zero>, switchFn: string, end: string,
                   f2: Frames, l: Lowered, inside: State, run: Run, site: Site)
    requires s.mode.Labels? && Respects(s.o, s.pure) && s.outer == f2 && f2.Scope? && s.user <= s.reserved
    requires NoLabels(l.nodes) && Simulates(s, ExecBlock(l.nodes, inside, s.o), l.current, l.counter, run, site)
    requires s.mode.onErr != end && s.mode.pipeErr != x && s.mode.pipeErr != "_" && s.mode.pipeErr !in s.user
    requires x != "_" && x !in s.user && x in s.reserved
    requires AgreeOn(f2, s.g, s.user) && Lookup(f2, s.mode.pipeErr).Some?
    requires Lookup(f2, x) == Some(if ExtractDefault(clause).Some? then ExtractDefault(clause).value.value else zero)
    requires SwitchClauseFits(clause, s.g, s.user)
    requires ExtractDefault(clause).None? ==> RoomFor(clause, zeros, f2, s.mode.pipeErr)
    requires Conclude(x, zero, clause, zeros, switchFn, s.g, run, s.o) != Stuck
    ensures var h := if ExtractDefault(clause).Some? then [] else LowerHandler(clause, zeros, [x], s.mode.pipeErr);
      SwitchAgrees(x, s.user,
                   Then(CloseScope(ExecBlock(l.nodes + Finish(x, switchFn, end, l.current), inside, s.o)),
                        [Label(s.mode.onErr)] + (h + [Label(end)]), s.o),
                   ConcludeAsLowered(x, zero, clause, zeros, switchFn, s.mode.pipeErr, s.g, run, s.o), s.pure)
  {
    hide ExecBlock, LowerHandler, LoweredHandle, Handle, AfterFailure, Visible, Respects, SwitchClauseFits, Eval, TakeSwitch, Known, RoomFor, ExtractDefault;
    var onErr, pipeErr := s.mode.onErr, s.mode.pipeErr;
    var finish := Finish(x, switchFn, end, l.current);
    var ran := ExecBlock(l.nodes, inside, s.o);
    ExecAppend(l.nodes, finish, inside, s.o);
    match run
    case Got(v, u) =>
      HandlerHasNoLabels(clause, zeros, [x], pipeErr);
      SwitchTaken(s, x, switchFn, onErr, end,
                  if ExtractDefault(clause).Some? then [] else LowerHandler(clause, zeros, [x], pipeErr), l.current, ran.st, v, u);
    case Panicking(p, u) =>
      if ran.Done? {
        EvalPanics(s, x, switchFn, end, l.current, ran.st, p, u);
      }
    case Failed(err, u) =>
      FinishHasNoLabels(finish, onErr);
      SwitchFailed(s, x, zero, clause, zeros, pipeErr, onErr, end, f2, err, ran.st.trace, u);
    case Malformed =>
  }

  lemma FinishHasNoLabels(finish: seq<Node>, dest: string)
    requires |finish| == 2 && finish[0].Assign? && finish[1].Goto?
    ensures FindLabel(finish, dest) == 2
  {
    FindNoLabel(finish, dest);
  }

  lemma EvalPanics(s: Setting, x: string, switchFn: string, end: string, current: Expr, st: State, p: Value, u: Trace)
    requires Explodes(s, current, st, p, u)
    ensures var out := ExecBlock([Assign([x], Call(switchFn, [current], false), false), Goto(end)], st, s.o);
      out.Leave? && out.exit == Panicked(p) && Visible(out.trace, s.pure) == Visible(u, s.pure)
  {
    var store := Assign([x], Call(switchFn, [current], false), false);
    assert [store, Goto(end)] == [store] + [Goto(end)];
    assert EvalAll([current], st.frames, st.trace, s.o) == Eval(current, st.frames, st.trace, s.o) by {
      assert [current][0] == current;
    }
    ExecCons(store, [Goto(end)], st, s.o);
  }

  /** The two declarations, then the scoped part, then the labelled tail. */
  lemma SwitchPrefix(x: string, typ: string, zero: Value, clause: Clause, zeros: seq<Zero>, onErr: string, end: string, pipeErr: string,
                     inner: seq<Node>, f: Frames, t: Trace, o: Oracle)
    requires f.Scope? && !DeclaredHere(f, pipeErr) && !DeclaredHere(f, x) && x != pipeErr
    ensures var default := ExtractDefault(clause);
      var h := if default.Some? then [] else LowerHandler(clause, zeros, [x], pipeErr);
      var f2 := Declare(Declare(f, pipeErr, Nil), x, if default.Some? then default.value.value else zero);
      ExecBlock(SwitchFrame(x, typ, zero, clause, zeros, [x], onErr, end, pipeErr, inner), State(f, t), o)
      == Then(CloseScope(ExecBlock(inner, State(Scope(f2, map[]), t), o)), [Label(onErr)] + (h + [Label(end)]), o)
  {
    hide Eval, ExecBlock, LowerHandler, SwitchFrame;
    var default := ExtractDefault(clause);
    var h := if default.Some? then [] else LowerHandler(clause, zeros, [x], pipeErr);
    var init := if default.Some? then default.value else Literal(zero);
    var f1 := Declare(f, pipeErr, Nil);
    var f2 := Declare(f1, x, init.value);
    var tail := [Label(onErr)] + (h + [Label(end)]);
    var d1, d2 := VarDecl(pipeErr, "error", Literal(Nil)), VarDecl(x, typ, init);
    FrameParts(x, typ, zero, clause, zeros, onErr, end, pipeErr, inner);
    Declares(pipeErr, "error", Nil, [d2] + ([ScopedBlock(inner)] + tail), f, t, o);
    Declares(x, typ, init.value, [ScopedBlock(inner)] + tail, f1, t, o);
    ExecCons(ScopedBlock(inner), tail, State(f2, t), o);
  }

  lemma FrameParts(x: string, typ: string, zero: Value, clause: Clause, zeros: seq<Zero>, onErr: string, end: string, pipeErr: string, inner: seq<Node>)
    ensures var default := ExtractDefault(clause);
      var h := if default.Some? then [] else LowerHandler(clause, zeros, [x], pipeErr);
      SwitchFrame(x, typ, zero, clause, zeros, [x], onErr, end, pipeErr, inner)
      == [VarDecl(pipeErr, "error", Literal(Nil))]
       + ([VarDecl(x, typ, if default.Some? then default.value else Literal(zero))] + ([ScopedBlock(inner)] + ([Label(onErr)] + (h + [Label(end)]))))
  {
    hide LowerHandler, ExtractDefault;
  }

  lemma Declares(x: string, typ: string, v: Value, rest: seq<Node>, f: Frames, t: Trace, o: Oracle)
    requires !DeclaredHere(f, x)
    ensures ExecBlock([VarDecl(x, typ, Literal(v))] + rest, State(f, t), o) == ExecBlock(rest, State(Declare(f, x, v), t), o)
  {
    Proceeds(VarDecl(x, typ, Literal(v)), rest, State(f, t), State(Declare(f, x, v), t), o);
  }
}
