/**
 `onerr empty`: documented as a default, the zero value; rendered as a bare return.
 The exact condition under which that makes no difference.
 */
module EmptyExact {
  import opened Prelude
  import opened Ir
  import opened Pipes
  import opened Lowering
  import opened Machine
  import opened StepProof
  import opened StatementProof
  import opened Signatures
  import opened ExactProof
  import opened DefaultProof
  import opened DefaultExact

  /** Under this oracle and history the lowered statement ends as it means, with `zero` as the variable's zero value. */
  ghost predicate EmptyCorrectUnder(c: Chain, clause: Clause, zero: Value, zeros: seq<Zero>, form: Form, f: Frames, reserved: set<string>,
                                    user: set<string>, counter: nat, t: Trace, o: Oracle)
  {
    var meant := RunWithDefault(c, form, zero, f, t, o);
    var nodes := LowerStatement(c, clause, zeros, form, counter, reserved);
    meant != Stuck ==> nodes.Some? && Agrees(form, user, ExecBlock(nodes.value, State(f, t), o), meant, {})
  }

  /** While nothing fails a default is not asked for. */
  lemma SameWithoutFailure(c: Chain, clause: Clause, zero: Value, zeros: seq<Zero>, form: Form, f: Frames, t: Trace, o: Oracle)
    requires !RunChain(c, f, t, o).Failed?
    ensures RunWithDefault(c, form, zero, f, t, o) == RunStatement(c, clause, zeros, form, f, t, o)
  {
  }

  lemma NeverEmpty(c: Chain, clause: Clause, zero: Value, zeros: seq<Zero>, form: Form, f: Frames, reserved: set<string>, user: set<string>,
                   counter: nat, t: Trace, o: Oracle)
    requires StatementInScope(c, form, f, reserved, user) && AllRendered(c.steps) && !ChainCanFail(c)
    ensures EmptyCorrectUnder(c, clause, zero, zeros, form, f, reserved, user, counter, t, o)
  {
    hide RunChain, LowerStatement, ExecBlock, Visible, Respects, TargetsInScope, PackagesApart, StatementInScope;
    EveryOracleRespectsNothing(o);
    PlainNeedsNothing(c.steps, BasePending(c));
    PlainNotRedeclared(c.steps);
    NeverFails(c, f, t, o);
    SameWithoutFailure(c, clause, zero, zeros, form, f, t, o);
    if RunChain(c, f, t, o) != Malformed {
      StatementMeans(c, clause, zeros, form, f, t, o, {}, reserved, user, counter);
    }
  }

  /** Any check that can fail returns from the function instead. */
  lemma EmptyLeaves(c: Chain, clause: Clause, zero: Value, zeros: seq<Zero>, form: Form, f: Frames, reserved: set<string>, user: set<string>,
                    counter: nat, sig: string -> Kind) returns (o: Oracle)
    requires StatementInScope(c, form, f, reserved, user) && Typed(c, sig, f) && GivesEmpty(clause)
    requires Sound(c, form) && ChainCanFail(c)
    ensures RunChain(c, f, [], o).Failed? && RunWithDefault(c, form, zero, f, [], o).Done?
    ensures var nodes := LowerStatement(c, clause, zeros, form, counter, reserved);
      nodes.Some? && var out := ExecBlock(nodes.value, State(f, []), o); out.Leave? && out.exit == Returned([])
  {
    hide RunChain, LowerStatement, ExecBlock, StatementInScope, Typed, FailsAt, ChainErrVar, ErrNameAt, ChainAtHand, IsCheck, Sound, Visible;
    var k := SomeCheck(c);
    o := FailsAt(sig, CallsBefore(c, k), PLAIN_FAILURE);
    ChainFails(c, k, sig, f, counter, reserved, PLAIN_FAILURE);
    SoundAgrees(c, clause, zeros, form, f, [], o, reserved, user, counter);
  }

  /**
   The exact condition for `onerr empty`. For every well-scoped, well-typed statement
   in any of the three forms, and whatever the zero value is: the lowered code ends as
   the statement means, under every oracle and history, if and only if every step is
   rendered as meant and nothing can fail.
   */
  lemma EmptyCorrectExactly(c: Chain, clause: Clause, zero: Value, zeros: seq<Zero>, form: Form, f: Frames, reserved: set<string>,
                            user: set<string>, counter: nat, sig: string -> Kind)
    requires StatementInScope(c, form, f, reserved, user) && Typed(c, sig, f) && GivesEmpty(clause)
    ensures (forall t: Trace, o: Oracle :: EmptyCorrectUnder(c, clause, zero, zeros, form, f, reserved, user, counter, t, o))
      <==> AllRendered(c.steps) && !ChainCanFail(c)
  {
    hide StatementInScope, Typed, RunChain, LowerStatement, ExecBlock, Sound, ChainCanFail, AllRendered, Visible;
    if AllRendered(c.steps) && !ChainCanFail(c) {
      forall t: Trace, o: Oracle
        ensures EmptyCorrectUnder(c, clause, zero, zeros, form, f, reserved, user, counter, t, o)
      {
        NeverEmpty(c, clause, zero, zeros, form, f, reserved, user, counter, t, o);
      }
    } else if !Sound(c, form) {
      UnsoundShows(c, clause, zeros, form, f, reserved, user, counter, sig);
      ChainSucceeds(c, sig, f);
      SameWithoutFailure(c, clause, zero, zeros, form, f, [], Succeeds(sig));
      assert !EmptyCorrectUnder(c, clause, zero, zeros, form, f, reserved, user, counter, [], Succeeds(sig));
    } else {
      assert ChainCanFail(c) by {
        SoundRendered(c, form);
      }
      var o := EmptyLeaves(c, clause, zero, zeros, form, f, reserved, user, counter, sig);
      assert !EmptyCorrectUnder(c, clause, zero, zeros, form, f, reserved, user, counter, [], o);
    }
  }

  lemma SoundRendered(c: Chain, form: Form)
    ensures Sound(c, form) ==> AllRendered(c.steps)
  {
  }

  // ----- A fallback that returns -----

  const EMPTY := Clause(false, false, false, "", Some(EmptyHandler))

  /** `x := f() |> g() onerr empty` with a failing g: x should be its zero value, and the function returns without values. */
  lemma EmptyReturns(f: Frames, zero: Value, zeros: seq<Zero>, counter: nat) returns (o: Oracle)
    requires f.Scope? && f.vars == map[]
    ensures var meant := RunWithDefault(CALL_AND_CHECK, DeclForm("x"), zero, f, [], o);
      meant.Done? && Lookup(meant.st.frames, "x") == Some(zero)
    ensures var nodes := LowerStatement(CALL_AND_CHECK, EMPTY, zeros, DeclForm("x"), counter, {"x"});
      nodes.Some? && var out := ExecBlock(nodes.value, State(f, []), o); out.Leave? && out.exit == Returned([])
  {
    hide RunChain, LowerStatement, ExecBlock;
    var sig := (fn: string) => if fn == "g" then Fallible else Plain;
    var c := CALL_AND_CHECK;
    assert c.steps[0].target == CallTarget("g", [], false) && MistakenShapes(c.steps[1..]) == {};
    assert Typed(c, sig, f);
    assert TargetInScope(c.steps[0].target, f, {});
    assert StatementInScope(c, DeclForm("x"), f, {"x"}, {});
    assert c.steps[1..] == [];
    o := EmptyLeaves(c, EMPTY, zero, zeros, DeclForm("x"), f, {"x"}, {}, counter, sig);
  }
}
