/** A lowered handler leaves the statement the way the clause says. */
module HandlerProof {
  import opened Prelude
  import opened Ir
  import opened Names
  import opened Pipes
  import opened Lowering
  import opened Machine
  import opened StepProof

  ghost predicate ValueInScope(h: HandlerExpr, f: Frames, user: set<string>)
  {
    h.Mention? ==> OperandInScope(h.e, f, user)
  }

  ghost predicate ValuesInScope(hs: seq<HandlerExpr>, f: Frames, user: set<string>)
  {
    forall i :: 0 <= i < |hs| ==> ValueInScope(hs[i], f, user)
  }

  ghost predicate StmtInScope(s: HandlerStmt, f: Frames, user: set<string>)
  {
    match s
    case CallStmt(_, args) => ValuesInScope(args, f, user)
    case DeclareStmt(_, init) => ValueInScope(init, f, user)
    case PanicWith(value) => ValueInScope(value, f, user)
    case ReturnWith(values) => ValuesInScope(values, f, user)
    case _ => true
  }

  // ----- What a handler declares -----

  function NewPlaces(hs: seq<HandlerExpr>): set<string>
  {
    set i | 0 <= i < |hs| && hs[i].Mention? && hs[i].e.New? :: ZeroName(i)
  }

  /** The names a rendered block brings into the scope it is rendered in. */
  function DeclaredIn(body: seq<HandlerStmt>): set<string>
  {
    if body == [] then {}
    else
      (match body[0]
       case DeclareStmt(name, _) => {name}
       case ReturnWith(values) => NewPlaces(values)
       case _ => {}) + DeclaredIn(body[1..])
  }

  /** The stand-ins that a return of zero values and an error declares. */
  function DeclaredZeros(zeros: seq<Zero>): set<string>
  {
    set i | 0 <= i < |zeros| - 1 && zeros[i].Allocated? :: ZeroName(i)
  }

  /** The names a lowered clause brings into the scope it stands in, by its handler and the result types. */
  function DeclaredBy(clause: Clause, zeros: seq<Zero>): set<string>
  {
    if clause.shorthandReturn then DeclaredZeros(zeros)
    else if clause.shorthandContinue || clause.shorthandBreak then {}
    else match clause.handler
      case None => if clause.explain == "" then {} else DeclaredZeros(zeros)
      case Some(ErrorHandler(error)) =>
        if |zeros| <= 2 then {}
        else DeclaredZeros(zeros) + (if error.Mention? && error.e.New? then {ZeroName(|zeros| - 1)} else {})
      case Some(BlockHandler(body)) => DeclaredIn(body)
      case _ => {}
  }

  // ----- Scopes -----

  /** Names that no stand-in for a zero value hides. */
  ghost predicate NoStandIn(names: set<string>)
  {
    forall i: nat :: ZeroName(i) !in names
  }

  /** Where a handler returns user variables behind stand-ins, none of them has the name of one. */
  ghost predicate NamesApart(clause: Clause, user: set<string>)
  {
    clause.handler.Some? && (clause.handler.value.ErrorHandler? || clause.handler.value.BlockHandler?) ==> NoStandIn(user)
  }

  /** Each statement mentions what is in scope there, declarations of earlier statements included; no name is declared twice. */
  ghost predicate BodyInScope(body: seq<HandlerStmt>, f: Frames, user: set<string>)
    decreases |body|
  {
    body == [] ||
    (&& StmtInScope(body[0], f, user)
     && match body[0]
        case DeclareStmt(name, _) =>
          && name != "_" && NoStandIn({name}) && !DeclaredHere(f, name) && name !in DeclaredIn(body[1..])
          && forall v: Value :: BodyInScope(body[1..], Declare(f, name, v), user + {name})
        case _ => BodyInScope(body[1..], f, user))
  }

  /** The handler mentions user variables that are in scope. */
  ghost predicate ClauseInScope(clause: Clause, f: Frames, user: set<string>)
  {
    match clause.handler
    case None => true
    case Some(PanicHandler(message)) => ValueInScope(message, f, user)
    case Some(ErrorHandler(error)) => ValueInScope(error, f, user)
    case Some(ReturnHandler(values)) => ValuesInScope(values, f, user)
    case Some(EmptyHandler) => true
    case Some(CallHandler(_, args)) => ValuesInScope(args, f, user)
    case Some(DefaultHandler(value)) => ValueInScope(value, f, user)
    case Some(BlockHandler(body)) => BodyInScope(body, Scope(f, map[]), user)
  }

  /** What the clause declares is new in f. */
  ghost predicate RoomFor(clause: Clause, zeros: seq<Zero>, f: Frames, errVar: string)
  {
    && NoStandIn({errVar})
    && forall x :: x in DeclaredBy(clause, zeros) ==> !DeclaredHere(f, x)
  }

  // ----- What a lowered clause does -----

  /** The lowered clause always leaves: where the clause does, and for `onerr empty`. */
  predicate LeavesLowered(clause: Clause)
  {
    LeavesControl(clause) || GivesEmpty(clause)
  }

  /** `onerr error ...`, the one handler whose rendering depends on the number of results. */
  predicate HandsErrorOn(clause: Clause)
  {
    && !clause.shorthandReturn && !clause.shorthandContinue && !clause.shorthandBreak
    && clause.handler.Some? && clause.handler.value.ErrorHandler?
  }

  function Explanation(clause: Clause, caught: Value): Value
  {
    if clause.explain != "" then Explained(clause.explain, caught) else caught
  }

  /** Where a handler stands: the value of the variable at hand, if one is, and the name of the error's variable. */
  datatype Site = Site(hand: Option<Value>, errVar: string)

  /** What a rendered block does: from its own declaration of the error's variable on, that is what it takes for the error. */
  function LoweredStmts(body: seq<HandlerStmt>, errVar: string, err: Value, f: Frames, t: Trace, o: Oracle): Outcome
  {
    if body == [] then Done(State(f, t))
    else
      match body[0]
      case CallStmt(fn, args) =>
        (match Ask(o, t, Event(fn, HandlerValues(args, err, f), false))
         case Val(_, t') => LoweredStmts(body[1..], errVar, err, f, t', o)
         case Boom(value, t') => Leave(Panicked(value), t')
         case Meaningless => Stuck)
      case DeclareStmt(name, init) =>
        var v := HandlerValue(init, err, f);
        if DeclaredHere(f, name) then Stuck
        else LoweredStmts(body[1..], errVar, if name == errVar then v else err, Declare(f, name, v), t, o)
      case PanicWith(value) => Leave(Panicked(HandlerValue(value, err, f)), t)
      case ReturnWith(values) => Leave(Returned(HandlerValues(values, err, f)), t)
      case ContinueLoop => Leave(Continued, t)
      case BreakLoop => Leave(Broke, t)
  }

  /** A block handler, which is the one kind of handler that can hide its error. */
  predicate RunsBlock(clause: Clause)
  {
    && !clause.shorthandReturn && !clause.shorthandContinue && !clause.shorthandBreak
    && clause.handler.Some? && clause.handler.value.BlockHandler?
  }

  /**
   What the lowered clause does with a caught error: what the clause means, but that
   - `onerr error ...` in a function with one or two results returns the error behind
     the value at hand, if a variable is at hand, and else alone,
   - a block may hide the error's variable, and
   - `onerr empty` returns nothing.
   */
  function LoweredHandle(clause: Clause, zeros: seq<Zero>, site: Site, caught: Value, f: Frames, t: Trace, o: Oracle): Outcome
  {
    if HandsErrorOn(clause) && |zeros| <= 2 then
      var error := HandlerValue(clause.handler.value.error, Explanation(clause, caught), f);
      Leave(Returned(if site.hand.Some? then [site.hand.value, error] else [error]), t)
    else if RunsBlock(clause) then
      CloseScope(LoweredStmts(clause.handler.value.body, site.errVar, Explanation(clause, caught), Scope(f, map[]), t, o))
    else if GivesEmpty(clause) then Leave(Returned([]), t)
    else Handle(clause, zeros, caught, f, t, o)
  }

  /** `onerr error ...` returns what it means exactly when the values at hand are the zero values of the function. */
  lemma HandsOnRight(clause: Clause, zeros: seq<Zero>, site: Site, caught: Value, f: Frames, t: Trace, o: Oracle)
    requires !RunsBlock(clause) && !GivesEmpty(clause)
    ensures LoweredHandle(clause, zeros, site, caught, f, t, o) == Handle(clause, zeros, caught, f, t, o)
      <==> (!HandsErrorOn(clause) || |zeros| > 2 || (site.hand.None? && |zeros| <= 1) || (|zeros| == 2 && site.hand == Some(zeros[0].value)))
  {
    if HandsErrorOn(clause) && |zeros| <= 2 {
      var error := HandlerValue(clause.handler.value.error, Explanation(clause, caught), f);
      var returned := if site.hand.Some? then [site.hand.value, error] else [error];
      assert Handle(clause, zeros, caught, f, t, o) == Leave(Returned(WithZeros(zeros, error)), t);
      assert |returned| == if site.hand.Some? then 2 else 1;
      if |zeros| == 2 {
        assert WithZeros(zeros, error)[0] == zeros[0].value;
        assert site.hand == Some(zeros[0].value) ==> returned == WithZeros(zeros, error);
      } else {
        assert WithZeros(zeros, error) == [error];
      }
    }
  }

  // ----- Returned values -----

  lemma ZeroNameInjective(i: nat, j: nat)
    requires ZeroName(i) == ZeroName(j)
    ensures i == j
  {
    assert ZeroName(i)[5..] == Digits(i) && ZeroName(j)[5..] == Digits(j);
    DigitsRoundTrip(i);
    DigitsRoundTrip(j);
  }

  /** No generated name stands in for a zero value. */
  lemma ZeroNameNotNumbered(i: nat, p: string, k: nat)
    ensures ZeroName(i) != Numbered(p, k)
  {
    LastUnderscore(p, k);
    var s, numbered := ZeroName(i), Numbered(p, k);
    forall m | 1 <= m < |s|
      ensures s[m] != '_'
    {
      assert m >= 5 ==> s[m] == Digits(i)[m - 5];
    }
    assert s[1] == 'z' && numbered[|p| + 1] == numbered[|p| + 1..][0];
  }

  lemma ExecOne(n: Node, st: State, o: Oracle)
    ensures ExecBlock([n], st, o) == ExecNode(n, st, o)
  {
    ExecCons(n, [], st, o);
    assert [n] + [] == [n];
  }

  /** A scope of its own has room for everything a handler declares. */
  lemma FreshScopeHasRoom(clause: Clause, zeros: seq<Zero>, errVar: string, f: Frames)
    requires Generated(errVar) && f.Scope? && f.vars == map[]
    ensures RoomFor(clause, zeros, f, errVar)
  {
    var p, k: nat :| errVar == Numbered(p, k);
    forall i: nat
      ensures ZeroName(i) != errVar
    {
      ZeroNameNotNumbered(i, p, k);
    }
  }

  /** The scope behind the declarations. */
  function AfterDecls(exprs: seq<Expr>, f: Frames): Frames
  {
    if exprs == [] then f
    else
      var i := |exprs| - 1;
      var g := AfterDecls(exprs[..i], f);
      if exprs[i].New? then Declare(g, ZeroName(i), exprs[i].zero) else g
  }

  ghost predicate FreshStandIns(exprs: seq<Expr>, f: Frames)
  {
    forall i :: 0 <= i < |exprs| && exprs[i].New? ==> !DeclaredHere(f, ZeroName(i))
  }

  lemma {:induction false} DeclsScope(exprs: seq<Expr>, f: Frames)
    requires f.Scope?
    ensures AfterDecls(exprs, f).Scope?
    ensures forall i: nat :: |exprs| <= i ==> (DeclaredHere(AfterDecls(exprs, f), ZeroName(i)) <==> DeclaredHere(f, ZeroName(i)))
    ensures forall i :: 0 <= i < |exprs| && exprs[i].New? ==> Lookup(AfterDecls(exprs, f), ZeroName(i)) == Some(exprs[i].zero)
    ensures forall x :: NoStandIn({x}) ==> Lookup(AfterDecls(exprs, f), x) == Lookup(f, x)
  {
    if exprs != [] {
      var i := |exprs| - 1;
      DeclsScope(exprs[..i], f);
      forall j: nat | ZeroName(j) == ZeroName(i)
        ensures j == i
      {
        ZeroNameInjective(i, j);
      }
      assert forall x :: NoStandIn({x}) ==> x != ZeroName(i);
    }
  }

  lemma {:induction false} DeclsRun(exprs: seq<Expr>, f: Frames, t: Trace, o: Oracle)
    requires f.Scope? && FreshStandIns(exprs, f)
    ensures ExecBlock(ZeroDecls(exprs), State(f, t), o) == Done(State(AfterDecls(exprs, f), t)) && NoLabels(ZeroDecls(exprs))
  {
    if exprs == [] {
      ExecNothing(o);
    } else {
      var i := |exprs| - 1;
      var before := exprs[..i];
      DeclsRun(before, f, t, o);
      DeclsScope(before, f);
      if exprs[i].New? {
        var decl := VarDecl(ZeroName(i), exprs[i].typ, Literal(exprs[i].zero));
        ExecAppend(ZeroDecls(before), [decl], State(f, t), o);
        ExecOne(decl, State(AfterDecls(before, f), t), o);
      } else {
        assert ZeroDecls(before) + [] == ZeroDecls(before);
      }
    }
  }

  lemma ExecNothing(o: Oracle)
    ensures forall st :: ExecBlock([], st, o) == Done(st)
  {
  }

  /** The expression yields v and calls nothing. */
  ghost predicate Steady(e: Expr, v: Value, f: Frames, t: Trace, o: Oracle)
  {
    Eval(e, f, t, o) == Val([v], t)
  }

  ghost predicate AllSteady(es: seq<Expr>, vs: seq<Value>, f: Frames, t: Trace, o: Oracle)
  {
    |es| == |vs| && forall i :: 0 <= i < |es| ==> Steady(es[i], vs[i], f, t, o)
  }

  lemma {:induction false} EvalSteady(es: seq<Expr>, vs: seq<Value>, f: Frames, t: Trace, o: Oracle)
    requires AllSteady(es, vs, f, t, o)
    ensures EvalAll(es, f, t, o) == Val(vs, t)
  {
    if es != [] {
      assert Steady(es[0], vs[0], f, t, o);
      assert AllSteady(es[1..], vs[1..], f, t, o) by {
        forall i | 0 <= i < |es[1..]|
          ensures Steady(es[1..][i], vs[1..][i], f, t, o)
        {
          assert Steady(es[i + 1], vs[i + 1], f, t, o);
        }
      }
      EvalSteady(es[1..], vs[1..], f, t, o);
      assert [vs[0]] + vs[1..] == vs;
    }
  }

  /** Replaced or not, each returned expression keeps its value behind the declarations. */
  lemma StandInKeeps(exprs: seq<Expr>, i: nat, v: Value, f: Frames, t: Trace, o: Oracle)
    requires f.Scope? && i < |exprs| && Steady(exprs[i], v, f, t, o) && NoStandIn(Vars(exprs[i]))
    ensures Steady(WithoutNew(exprs)[i], v, AfterDecls(exprs, f), t, o)
  {
    hide AfterDecls, Vars;
    var g := AfterDecls(exprs, f);
    DeclsScope(exprs, f);
    if !exprs[i].New? {
      forall x | x in Vars(exprs[i])
        ensures Lookup(f, x) == Lookup(g, x)
      {
        assert NoStandIn({x});
      }
      EvalSame(exprs[i], f, g, t, o);
    }
  }

  /** A return behind its declarations returns the values, whatever the declarations. */
  lemma ReturnsAll(exprs: seq<Expr>, vs: seq<Value>, f: Frames, t: Trace, o: Oracle)
    requires f.Scope? && FreshStandIns(exprs, f) && AllSteady(exprs, vs, f, t, o)
    requires forall i :: 0 <= i < |exprs| ==> NoStandIn(Vars(exprs[i]))
    ensures ExecBlock(ReturnNodes(exprs), State(f, t), o) == Leave(Returned(vs), t)
  {
    hide Eval, EvalAll, ExecBlock, Vars, AfterDecls, ZeroDecls, NoStandIn, Steady;
    var g := AfterDecls(exprs, f);
    var es := WithoutNew(exprs);
    DeclsRun(exprs, f, t, o);
    forall i | 0 <= i < |es|
      ensures Steady(es[i], vs[i], g, t, o)
    {
      assert NoStandIn(Vars(exprs[i])) && Steady(exprs[i], vs[i], f, t, o);
      StandInKeeps(exprs, i, vs[i], f, t, o);
    }
    EvalSteady(es, vs, g, t, o);
    ExecAppend(ZeroDecls(exprs), [ReturnStmt(es)], State(f, t), o);
    ExecOne(ReturnStmt(es), State(g, t), o);
  }

  /** The built return: zero values, declared first where Go needs it, and the error in the last place. */
  lemma ReturnsZeros(zeros: seq<Zero>, last: Expr, v: Value, f: Frames, t: Trace, o: Oracle)
    requires f.Scope? && Steady(last, v, f, t, o) && NoStandIn(Vars(last))
    requires FreshStandIns(ResultExprs(zeros, last), f)
    ensures ExecBlock(ErrorReturn(zeros, last), State(f, t), o) == Leave(Returned(WithZeros(zeros, v)), t)
  {
    var exprs, vs := ResultExprs(zeros, last), WithZeros(zeros, v);
    forall i | 0 <= i < |exprs|
      ensures Steady(exprs[i], vs[i], f, t, o) && NoStandIn(Vars(exprs[i]))
    {
      if i < |exprs| - 1 {
        assert exprs[i] == ZeroExpr(zeros[i]) && vs[i] == zeros[i].value;
      }
    }
    ReturnsAll(exprs, vs, f, t, o);
  }

  lemma RenderedValue(h: HandlerExpr, errVar: string, err: Value, f: Frames, g: Frames, user: set<string>, t: Trace, o: Oracle)
    requires ValueInScope(h, g, user) && AgreeOn(f, g, user) && Lookup(f, errVar) == Some(err)
    ensures Eval(RenderValue(h, errVar), f, t, o) == Val([HandlerValue(h, err, g)], t)
  {
    if h.Mention? {
      PeekAgree(h.e, f, g);
      PeekEval(h.e, f, t, o);
    }
  }

  lemma {:induction false} RenderedValues(hs: seq<HandlerExpr>, errVar: string, err: Value, f: Frames, g: Frames, user: set<string>, t: Trace, o: Oracle)
    requires ValuesInScope(hs, g, user) && AgreeOn(f, g, user) && Lookup(f, errVar) == Some(err)
    ensures EvalAll(RenderValues(hs, errVar), f, t, o) == Val(HandlerValues(hs, err, g), t)
  {
    if hs != [] {
      assert RenderValues(hs, errVar) == [RenderValue(hs[0], errVar)] + RenderValues(hs[1..], errVar);
      assert HandlerValues(hs, err, g) == [HandlerValue(hs[0], err, g)] + HandlerValues(hs[1..], err, g);
      RenderedValue(hs[0], errVar, err, f, g, user, t, o);
      RenderedValues(hs[1..], errVar, err, f, g, user, t, o);
    }
  }

  /** The two outcomes leave alike: the same exit, visibly the same calls. */
  ghost predicate LeavesAlike(a: Outcome, b: Outcome, pure: set<string>)
  {
    a.Leave? && b.Leave? && a.exit == b.exit && Visible(a.trace, pure) == Visible(b.trace, pure)
  }

  lemma RenderedReturn(values: seq<HandlerExpr>, errVar: string, err: Value, f: Frames, g: Frames, user: set<string>, t: Trace, o: Oracle)
    requires ValuesInScope(values, g, user) && AgreeOn(f, g, user) && Lookup(f, errVar) == Some(err)
    requires f.Scope? && NoStandIn(user + {errVar}) && forall x :: x in NewPlaces(values) ==> !DeclaredHere(f, x)
    ensures ExecBlock(ReturnNodes(RenderValues(values, errVar)), State(f, t), o) == Leave(Returned(HandlerValues(values, err, g)), t)
  {
    var es, vs := RenderValues(values, errVar), HandlerValues(values, err, g);
    forall i | 0 <= i < |es|
      ensures Steady(es[i], vs[i], f, t, o) && NoStandIn(Vars(es[i]))
    {
      assert ValueInScope(values[i], g, user);
      RenderedValue(values[i], errVar, err, f, g, user, t, o);
      assert Vars(es[i]) <= user + {errVar};
    }
    forall i | 0 <= i < |es| && es[i].New?
      ensures !DeclaredHere(f, ZeroName(i))
    {
      assert ZeroName(i) in NewPlaces(values);
    }
    ReturnsAll(es, vs, f, t, o);
  }

  lemma RenderOneHasNoLabels(s: HandlerStmt, errVar: string)
    ensures NoLabels(RenderStmt(s, errVar))
  {
    if s.ReturnWith? {
      DeclsHaveNoLabels(RenderValues(s.values, errVar));
    }
  }

  lemma {:induction false} DeclsHaveNoLabels(exprs: seq<Expr>)
    ensures NoLabels(ZeroDecls(exprs))
  {
    if exprs != [] {
      DeclsHaveNoLabels(exprs[..|exprs| - 1]);
    }
  }

  /** A statement that leaves: its rendering leaves alike. */
  lemma LeavingStmtMeaning(s: HandlerStmt, errVar: string, err: Value,
                           f: Frames, g: Frames, user: set<string>, t: Trace, u: Trace, o: Oracle, pure: set<string>)
    requires StmtInScope(s, g, user) && Leaving(s) && AgreeOn(f, g, user) && Lookup(f, errVar) == Some(err)
    requires f.Scope? && NoStandIn(user + {errVar}) && forall x :: x in DeclaredIn([s]) ==> !DeclaredHere(f, x)
    requires Visible(t, pure) == Visible(u, pure)
    ensures forall rest :: LeavesAlike(ExecBlock(RenderStmt(s, errVar), State(f, t), o), LoweredStmts([s] + rest, errVar, err, g, u, o), pure)
  {
    match s
    case PanicWith(value) =>
      RenderedValue(value, errVar, err, f, g, user, t, o);
      ExecOne(PanicStmt(RenderValue(value, errVar)), State(f, t), o);
    case ReturnWith(values) =>
      assert DeclaredIn([s]) == NewPlaces(values);
      RenderedReturn(values, errVar, err, f, g, user, t, o);
    case ContinueLoop => ExecOne(ContinueStmt, State(f, t), o);
    case BreakLoop => ExecOne(BreakStmt, State(f, t), o);
  }

  /** A rendered block that leaves somewhere leaves as its statements do, with the error's variable as they declare it. */
  lemma {:induction false} BodyMeaning(body: seq<HandlerStmt>, errVar: string, err: Value,
                    f: Frames, g: Frames, user: set<string>, t: Trace, u: Trace, o: Oracle, pure: set<string>)
    requires BodyInScope(body, g, user) && AgreeOn(f, g, user) && Lookup(f, errVar) == Some(err)
    requires f.Scope? && NoStandIn(user + {errVar}) && forall x :: x in DeclaredIn(body) ==> !DeclaredHere(f, x)
    requires Respects(o, pure) && Visible(t, pure) == Visible(u, pure)
    requires exists i :: 0 <= i < |body| && Leaving(body[i])
    ensures LeavesAlike(ExecBlock(RenderBody(body, errVar), State(f, t), o), LoweredStmts(body, errVar, err, g, u, o), pure)
    decreases |body|
  {
    hide Eval, EvalAll, ExecNode, ExecBlock, Visible, Respects, RenderStmt;
    var s, rest := body[0], body[1..];
    assert body == [s] + rest && DeclaredIn(rest) <= DeclaredIn(body);
    RenderOneHasNoLabels(s, errVar);
    ExecAppend(RenderStmt(s, errVar), RenderBody(rest, errVar), State(f, t), o);
    if Leaving(s) {
      assert DeclaredIn([s]) <= DeclaredIn(body);
      LeavingStmtMeaning(s, errVar, err, f, g, user, t, u, o, pure);
      assert LeavesAlike(ExecBlock(RenderStmt(s, errVar), State(f, t), o), LoweredStmts([s] + rest, errVar, err, g, u, o), pure);
    } else {
      var i :| 0 <= i < |body| && Leaving(body[i]);
      assert rest[i - 1] == body[i];
      if s.CallStmt? {
        var event := Event(s.fn, HandlerValues(s.args, err, g), false);
        RenderedValues(s.args, errVar, err, f, g, user, t, o);
        AskAlike(o, pure, t, u, event);
        var r, r' := Ask(o, t, event), Ask(o, u, event);
        CallStmtStep(s, errVar, HandlerValues(s.args, err, g), f, t, o);
        if r.Val? {
          BodyMeaning(rest, errVar, err, f, g, user, r.trace, r'.trace, o, pure);
        }
      } else {
        var v := HandlerValue(s.init, err, g);
        DeclareStmtStep(s, errVar, err, f, g, user, t, o);
        BodyMeaning(rest, errVar, if s.name == errVar then v else err, Declare(f, s.name, v), Declare(g, s.name, v), user + {s.name}, t, u, o, pure);
      }
    }
  }

  function AfterCall(r: Evaluation, f: Frames): Outcome
  {
    match r
    case Val(_, t) => Done(State(f, t))
    case Boom(value, t) => Leave(Panicked(value), t)
    case Meaningless => Stuck
  }

  lemma CallStmtStep(s: HandlerStmt, errVar: string, vs: seq<Value>, f: Frames, t: Trace, o: Oracle)
    requires s.CallStmt? && EvalAll(RenderValues(s.args, errVar), f, t, o) == Val(vs, t)
    ensures ExecBlock(RenderStmt(s, errVar), State(f, t), o) == AfterCall(Ask(o, t, Event(s.fn, vs, false)), f)
  {
    ExecOne(ExprStmt(Call(s.fn, RenderValues(s.args, errVar), false)), State(f, t), o);
  }

  lemma DeclareStmtStep(s: HandlerStmt, errVar: string, err: Value, f: Frames, g: Frames, user: set<string>, t: Trace, o: Oracle)
    requires s.DeclareStmt? && s.name != "_" && !DeclaredHere(f, s.name)
    requires ValueInScope(s.init, g, user) && AgreeOn(f, g, user) && Lookup(f, errVar) == Some(err)
    ensures var v := HandlerValue(s.init, err, g);
      ExecBlock(RenderStmt(s, errVar), State(f, t), o) == Done(State(Declare(f, s.name, v), t))
  {
    var v := HandlerValue(s.init, err, g);
    var declare := Assign([s.name], RenderValue(s.init, errVar), true);
    RenderedValue(s.init, errVar, err, f, g, user, t, o);
    ExecOne(declare, State(f, t), o);
    assert s.name in [s.name];
    assert AssignAll(f, [s.name], [v], true) == Declare(f, s.name, v) by {
      assert [s.name][1..] == [] && [v][1..] == [];
    }
  }

  /** `return x, e` and `return e`. */
  lemma ReturnsOwn(named: seq<Expr>, hand: seq<Value>, e: Expr, v: Value, st: State, o: Oracle)
    requires AllSteady(named, hand, st.frames, st.trace, o) && Steady(e, v, st.frames, st.trace, o)
    ensures ExecBlock([ReturnStmt(named + [e])], st, o) == Leave(Returned(hand + [v]), st.trace)
  {
    EvalSteady(named + [e], hand + [v], st.frames, st.trace, o);
    ExecOne(ReturnStmt(named + [e]), st, o);
  }

  /** The variable a handler finds at hand. */
  function AtHand(names: seq<string>, f: Frames): Option<Value>
  {
    if names == [] then None else Lookup(f, names[0])
  }

  /** The rendered `onerr error ...`. */
  lemma RenderedErrorHandler(clause: Clause, zeros: seq<Zero>, names: seq<string>, errVar: string, caught: Value,
                             f: Frames, g: Frames, user: set<string>, t: Trace, u: Trace, o: Oracle)
    requires HandsErrorOn(clause) && ClauseInScope(clause, g, user) && RoomFor(clause, zeros, f, errVar) && NoStandIn(user)
    requires f.Scope? && AgreeOn(f, g, user) && Lookup(f, errVar) == Some(Explanation(clause, caught))
    requires names != [] ==> Lookup(f, names[0]).Some?
    ensures ExecBlock(RenderHandler(clause.handler.value, zeros, names, errVar), State(f, t), o)
      == Leave(LoweredHandle(clause, zeros, Site(AtHand(names, f), errVar), caught, g, u, o).exit, t)
    ensures LoweredHandle(clause, zeros, Site(AtHand(names, f), errVar), caught, g, u, o).Leave?
      && LoweredHandle(clause, zeros, Site(AtHand(names, f), errVar), caught, g, u, o).trace == u
  {
    hide LoweredHandle, LoweredStmts, RunHandler;
    HandedOn(clause, zeros, Site(AtHand(names, f), errVar), caught, g, u, o);
    var error, err := clause.handler.value.error, Explanation(clause, caught);
    var e, v := RenderValue(error, errVar), HandlerValue(error, err, g);
    var st := State(f, t);
    RenderedValue(error, errVar, err, f, g, user, t, o);
    if |zeros| > 2 {
      assert Vars(e) <= user + {errVar};
      var exprs := ResultExprs(zeros, e);
      forall i | 0 <= i < |exprs| && exprs[i].New?
        ensures !DeclaredHere(f, ZeroName(i))
      {
        assert ZeroName(i) in DeclaredBy(clause, zeros);
      }
      ReturnsZeros(zeros, e, v, f, t, o);
    } else if |names| > 0 {
      ReturnsOwn([Var(names[0])], [Lookup(f, names[0]).value], e, v, st, o);
      assert [Var(names[0])] + [e] == [Var(names[0]), e];
      assert [Lookup(f, names[0]).value] + [v] == [Lookup(f, names[0]).value, v];
    } else {
      ReturnsOwn([], [], e, v, st, o);
      assert [] + [e] == [e] && [] + [v] == [v];
    }
  }

  lemma HandedOn(clause: Clause, zeros: seq<Zero>, site: Site, caught: Value, f: Frames, t: Trace, o: Oracle)
    requires HandsErrorOn(clause)
    ensures var v := HandlerValue(clause.handler.value.error, Explanation(clause, caught), f);
      LoweredHandle(clause, zeros, site, caught, f, t, o)
      == Leave(Returned(if |zeros| > 2 then WithZeros(zeros, v) else if site.hand.Some? then [site.hand.value, v] else [v]), t)
  {
  }

  /** The rendered handler of a clause, run on the (possibly explained) error. */
  lemma RenderedHandler(clause: Clause, zeros: seq<Zero>, names: seq<string>, errVar: string, caught: Value,
                        f: Frames, g: Frames, user: set<string>, t: Trace, u: Trace, o: Oracle, pure: set<string>)
    requires clause.handler.Some? && LeavesLowered(clause) && ClauseInScope(clause, g, user)
    requires !clause.shorthandReturn && !clause.shorthandContinue && !clause.shorthandBreak
    requires AgreeOn(f, g, user) && Lookup(f, errVar) == Some(Explanation(clause, caught))
    requires f.Scope? && RoomFor(clause, zeros, f, errVar) && NamesApart(clause, user)
    requires names != [] ==> Lookup(f, names[0]).Some?
    requires Respects(o, pure) && Visible(t, pure) == Visible(u, pure)
    ensures LeavesAlike(ExecBlock(RenderHandler(clause.handler.value, zeros, names, errVar), State(f, t), o),
                        LoweredHandle(clause, zeros, Site(AtHand(names, f), errVar), caught, g, u, o), pure)
  {
    hide Visible, Respects, LoweredHandle;
    var st, err := State(f, t), Explanation(clause, caught);
    LoweredKinds(clause, zeros, Site(AtHand(names, f), errVar), caught, g, u, o);
    match clause.handler.value
    case PanicHandler(message) =>
      RenderedValue(message, errVar, err, f, g, user, t, o);
      ExecOne(PanicStmt(RenderValue(message, errVar)), st, o);
    case ErrorHandler(error) =>
      RenderedErrorHandler(clause, zeros, names, errVar, caught, f, g, user, t, u, o);
    case ReturnHandler(values) =>
      RenderedValues(values, errVar, err, f, g, user, t, o);
      ExecOne(ReturnStmt(RenderValues(values, errVar)), st, o);
    case EmptyHandler =>
      ExecOne(ReturnStmt([]), st, o);
    case BlockHandler(body) =>
      BodyMeaning(body, errVar, err, f, Scope(g, map[]), user, t, u, o, pure);
    case _ =>
  }

  lemma LoweredKinds(clause: Clause, zeros: seq<Zero>, site: Site, caught: Value, f: Frames, t: Trace, o: Oracle)
    requires !clause.shorthandReturn && !clause.shorthandContinue && !clause.shorthandBreak && clause.handler.Some?
    ensures var h, out := clause.handler.value, LoweredHandle(clause, zeros, site, caught, f, t, o);
      && (h.BlockHandler? ==> out == CloseScope(LoweredStmts(h.body, site.errVar, Explanation(clause, caught), Scope(f, map[]), t, o)))
      && (h.EmptyHandler? ==> out == Leave(Returned([]), t))
      && (!h.ErrorHandler? && !h.BlockHandler? && !h.EmptyHandler? ==> out == RunHandler(h, zeros, Explanation(clause, caught), f, t, o))
  {
  }

  /** An explanation rewraps the caught error in place. */
  lemma WrapRuns(text: string, errVar: string, caught: Value, body: seq<Node>, f: Frames, t: Trace, o: Oracle)
    requires Lookup(f, errVar) == Some(caught) && errVar != "_"
    ensures ExecBlock([Assign([errVar], Explain(text, Var(errVar)), false)] + body, State(f, t), o)
      == ExecBlock(body, State(Update(f, errVar, Explained(text, caught)), t), o)
  {
    var wrap, st, err := Assign([errVar], Explain(text, Var(errVar)), false), State(f, t), Explained(text, caught);
    ExecCons(wrap, body, st, o);
    assert AssignAll(f, [errVar], [err], false) == Update(f, errVar, err) by {
      assert [errVar][1..] == [] && [err][1..] == [];
    }
    assert Eval(wrap.expr, f, t, o) == Val([err], t);
    assert Assignable(f, [errVar], false);
  }

  lemma UpdateKeepsNames(f: Frames, x: string, v: Value)
    ensures f.Scope? ==> Update(f, x, v).Scope?
    ensures forall y :: DeclaredHere(Update(f, x, v), y) <==> DeclaredHere(f, y)
    ensures forall y :: Lookup(Update(f, x, v), y) == if x == y && Lookup(f, x).Some? then Some(v) else Lookup(f, y)
  {
    forall y
      ensures Lookup(Update(f, x, v), y) == if x == y && Lookup(f, x).Some? then Some(v) else Lookup(f, y)
    {
      LookupUpdate(f, x, v, y);
    }
  }

  /** A return with zero values in front, for a bare `onerr return` or an explanation on its own. */
  lemma ReturnMeaning(zeros: seq<Zero>, errVar: string, err: Value, f: Frames, t: Trace, o: Oracle)
    requires f.Scope? && Lookup(f, errVar) == Some(err) && NoStandIn({errVar})
    requires forall x :: x in DeclaredZeros(zeros) ==> !DeclaredHere(f, x)
    ensures ExecBlock(ErrorReturn(zeros, Var(errVar)), State(f, t), o) == Leave(Returned(WithZeros(zeros, err)), t)
  {
    var exprs := ResultExprs(zeros, Var(errVar));
    forall i | 0 <= i < |exprs| && exprs[i].New?
      ensures !DeclaredHere(f, ZeroName(i))
    {
      assert zeros[i].Allocated?;
      assert ZeroName(i) in DeclaredZeros(zeros);
    }
    ReturnsZeros(zeros, Var(errVar), err, f, t, o);
  }

  /** The lowered clause in a scope where `errVar` holds the caught error. */
  lemma HandlerMeaning(clause: Clause, zeros: seq<Zero>, names: seq<string>, errVar: string, caught: Value,
                       f: Frames, g: Frames, user: set<string>, t: Trace, u: Trace, o: Oracle, pure: set<string>)
    requires LeavesLowered(clause) && ClauseInScope(clause, g, user)
    requires AgreeOn(f, g, user) && Lookup(f, errVar) == Some(caught) && errVar !in user && errVar != "_"
    requires f.Scope? && RoomFor(clause, zeros, f, errVar) && NamesApart(clause, user)
    requires names != [] ==> Lookup(f, names[0]).Some? && names[0] != errVar
    requires Respects(o, pure) && Visible(t, pure) == Visible(u, pure)
    ensures LeavesAlike(ExecBlock(LowerHandler(clause, zeros, names, errVar), State(f, t), o),
                        LoweredHandle(clause, zeros, Site(AtHand(names, f), errVar), caught, g, u, o), pure)
  {
    hide Visible, Respects, Eval, EvalAll, RunHandler, RenderHandler, ErrorReturn, Lookup, Update, DeclaredHere, BodyInScope, DeclaredIn, WithZeros;
    var st := State(f, t);
    if clause.shorthandReturn {
      ReturnMeaning(zeros, errVar, caught, f, t, o);
    } else if clause.shorthandContinue {
      ExecOne(ContinueStmt, st, o);
    } else if clause.shorthandBreak {
      ExecOne(BreakStmt, st, o);
    } else {
      var body := if clause.handler.None? then ErrorReturn(zeros, Var(errVar))
                  else [RawStmt(RenderHandler(clause.handler.value, zeros, names, errVar))];
      var err := Explanation(clause, caught);
      var f' := if clause.explain == "" then f else Update(f, errVar, err);
      if clause.explain == "" {
        assert LowerHandler(clause, zeros, names, errVar) == body by { assert [] + body == body; }
      } else {
        WrapRuns(clause.explain, errVar, caught, body, f, t, o);
      }
      assert ExecBlock(LowerHandler(clause, zeros, names, errVar), st, o) == ExecBlock(body, State(f', t), o);
      UpdateKeepsNames(f, errVar, err);
      assert AtHand(names, f') == AtHand(names, f);
      if clause.handler.None? {
        ReturnMeaning(zeros, errVar, err, f', t, o);
      } else {
        ExecOne(body[0], State(f', t), o);
        RenderedHandler(clause, zeros, names, errVar, caught, f', g, user, t, u, o, pure);
      }
    }
  }

  // ----- A handler that hides its error -----

  /** An `onerr` block that declares `err_1` and returns the caught error. */
  const HIDING := Clause(false, false, false, "", Some(BlockHandler(
    [DeclareStmt("err_1", Mention(Literal(Data(7)))), ReturnWith([Caught])])))

  /**
   Names that a block handler declares are not collected as reserved, so the generated
   error variable may carry one of them: then the handler returns its own variable.
   */
  lemma HandlerHidesError(zeros: seq<Zero>, f: Frames, t: Trace, o: Oracle)
    requires f.Scope? && Lookup(f, Numbered("err", 1)) == Some(Raised(0)) && !DeclaredHere(f, Numbered("err", 1))
    ensures Handle(HIDING, zeros, Raised(0), f, t, o) == Leave(Returned([Raised(0)]), t)
    ensures ExecBlock(LowerHandler(HIDING, zeros, [], Numbered("err", 1)), State(f, t), o) == Leave(Returned([Data(7)]), t)
  {
    hide ExecBlock, ExecNode, RenderBody, ReturnNodes, RunHandlerBlock, Digits;
    var errVar := Numbered("err", 1);
    HidingName();
    HidingMeans(f, t, o);
    HidingRendered();
    var declare := Assign([errVar], Literal(Data(7)), true);
    var code := [declare] + ReturnNodes([Var(errVar)]);
    ExecCons(declare, ReturnNodes([Var(errVar)]), State(f, t), o);
    DeclaresSeven(errVar, f, t, o);
    ReturnsVariable(errVar, Data(7), Declare(f, errVar, Data(7)), t, o);
    assert LowerHandler(HIDING, zeros, [], errVar) == [RawStmt(code)];
    ExecOne(RawStmt(code), State(f, t), o);
    RunsRaw(code, State(f, t), o);
  }

  lemma RunsRaw(code: seq<Node>, st: State, o: Oracle)
    ensures ExecNode(RawStmt(code), st, o) == ExecBlock(code, st, o)
  {
  }

  lemma HidingName()
    ensures Numbered("err", 1) == "err_1" && NoStandIn({"err_1"})
  {
    assert Digits(1) == "1";
    forall i: nat
      ensures ZeroName(i) != "err_1"
    {
      assert ZeroName(i)[0] == '_';
    }
  }

  lemma HidingRendered()
    ensures RenderBody(HIDING.handler.value.body, "err_1")
      == [Assign(["err_1"], Literal(Data(7)), true)] + ReturnNodes([Var("err_1")])
  {
    var body, leave := HIDING.handler.value.body, ReturnWith([Caught]);
    assert body[1..] == [leave] && [leave][1..] == [];
    assert RenderValues([Caught], "err_1") == [Var("err_1")];
    assert RenderBody([leave], "err_1") == ReturnNodes([Var("err_1")]) + [];
  }

  lemma ReturnsVariable(x: string, v: Value, f: Frames, t: Trace, o: Oracle)
    requires f.Scope? && Lookup(f, x) == Some(v) && NoStandIn({x})
    ensures ExecBlock(ReturnNodes([Var(x)]), State(f, t), o) == Leave(Returned([v]), t)
  {
    assert AllSteady([Var(x)], [v], f, t, o);
    ReturnsAll([Var(x)], [v], f, t, o);
  }

  lemma DeclaresSeven(x: string, f: Frames, t: Trace, o: Oracle)
    requires x != "_" && !DeclaredHere(f, x)
    ensures ExecNode(Assign([x], Literal(Data(7)), true), State(f, t), o) == Done(State(Declare(f, x, Data(7)), t))
  {
    assert Assignable(f, [x], true) by {
      assert x in [x];
    }
    assert AssignAll(f, [x], [Data(7)], true) == Declare(f, x, Data(7)) by {
      assert [x][1..] == [] && [Data(7)][1..] == [];
    }
  }

  lemma HidingMeans(f: Frames, t: Trace, o: Oracle)
    ensures RunHandlerBlock(HIDING.handler.value.body, Raised(0), f, t, o) == Leave(Returned([Raised(0)]), t)
  {
    var body := HIDING.handler.value.body;
    var g := Declare(Scope(f, map[]), "err_1", Data(7));
    assert body[1..] == [ReturnWith([Caught])];
    assert HandlerValues([Caught], Raised(0), g) == [Raised(0)];
    assert RunHandlerStmts(body[1..], Raised(0), g, t, o) == Leave(Returned([Raised(0)]), t);
  }
}
