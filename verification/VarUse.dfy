/**
 Which variables generated code reads and writes: Go refuses a variable that is
 declared and never read, and a handler leaves the user's variables as they are.
 */
module VarUse {
  import opened Ir
  import opened Names
  import opened Pipes
  import opened Lowering
  import opened Machine
  import opened StepProof
  import opened HandlerProof
  import opened ChainProof

  // ----- Reading -----

  /** The variables some expression of the code mentions, at any depth. */
  function Reads(nodes: seq<Node>): set<string>
    decreases nodes, 1
  {
    set i, x | 0 <= i < |nodes| && x in NodeReads(nodes[i]) :: x
  }

  function NodeReads(n: Node): set<string>
    decreases n, 0
  {
    match n
    case Assign(_, expr, _) => Vars(expr)
    case VarDecl(_, _, init) => Vars(init)
    case IfErrCheck(errVar, body) => {errVar} + Reads(body)
    case ScopedBlock(body) => Reads(body)
    case RawStmt(code) => Reads(code)
    case ReturnStmt(values) => VarsOfAll(values)
    case ExprStmt(expr) => Vars(expr)
    case PanicStmt(expr) => Vars(expr)
    case _ => {}
  }

  lemma ReadsJoin(a: seq<Node>, b: seq<Node>)
    ensures Reads(a + b) == Reads(a) + Reads(b)
  {
    forall x
      ensures x in Reads(a + b) <==> x in Reads(a) || x in Reads(b)
    {
      if x in Reads(a) {
        var i :| 0 <= i < |a| && x in NodeReads(a[i]);
        assert x in NodeReads((a + b)[i]);
      }
      if x in Reads(b) {
        var i :| 0 <= i < |b| && x in NodeReads(b[i]);
        assert x in NodeReads((a + b)[|a| + i]);
      }
    }
  }

  lemma ReadsOne(n: Node)
    ensures Reads([n]) == NodeReads(n)
  {
    assert forall x :: x in NodeReads(n) ==> x in NodeReads([n][0]);
  }

  lemma ReadsNothing()
    ensures Reads([]) == {}
  {
  }

  lemma {:induction false} VarsOfAllIn(es: seq<Expr>, x: string)
    ensures x in VarsOfAll(es) <==> exists i :: 0 <= i < |es| && x in Vars(es[i])
  {
    if es != [] {
      VarsOfAllIn(es[1..], x);
      if i :| 0 <= i < |es| && x in Vars(es[i]) {
        assert i > 0 ==> x in Vars(es[1..][i - 1]);
      }
      if i :| 0 <= i < |es[1..]| && x in Vars(es[1..][i]) {
        assert x in Vars(es[i + 1]);
      }
    }
  }

  // ----- What a handler reads -----

  predicate MentionsError(h: HandlerExpr)
  {
    h.Caught? || h.ErrorText?
  }

  predicate AnyMentionsError(hs: seq<HandlerExpr>)
  {
    exists i :: 0 <= i < |hs| && MentionsError(hs[i])
  }

  predicate StmtMentionsError(s: HandlerStmt)
  {
    match s
    case CallStmt(_, args) => AnyMentionsError(args)
    case DeclareStmt(_, init) => MentionsError(init)
    case PanicWith(value) => MentionsError(value)
    case ReturnWith(values) => AnyMentionsError(values)
    case _ => false
  }

  predicate HandlerMentionsError(h: Handler)
  {
    match h
    case PanicHandler(message) => MentionsError(message)
    case ErrorHandler(error) => MentionsError(error)
    case ReturnHandler(values) => AnyMentionsError(values)
    case EmptyHandler => false
    case CallHandler(_, args) => AnyMentionsError(args)
    case DefaultHandler(value) => MentionsError(value)
    case BlockHandler(body) => exists i :: 0 <= i < |body| && StmtMentionsError(body[i])
  }

  /** The clause makes use of the error: it returns it, explains it or mentions it. */
  predicate UsesError(clause: Clause)
  {
    clause.shorthandReturn ||
    (&& !clause.shorthandContinue && !clause.shorthandBreak
     && (clause.explain != "" || (clause.handler.Some? && HandlerMentionsError(clause.handler.value))))
  }

  /** A value of the program's own does not mention the error's variable. */
  ghost predicate Foreign(h: HandlerExpr, errVar: string)
  {
    h.Mention? ==> errVar !in Vars(h.e)
  }

  ghost predicate AllForeign(hs: seq<HandlerExpr>, errVar: string)
  {
    forall i :: 0 <= i < |hs| ==> Foreign(hs[i], errVar)
  }

  lemma ValueReads(h: HandlerExpr, errVar: string)
    requires Foreign(h, errVar)
    ensures errVar in Vars(RenderValue(h, errVar)) <==> MentionsError(h)
  {
  }

  lemma ValuesRead(hs: seq<HandlerExpr>, errVar: string)
    requires AllForeign(hs, errVar)
    ensures errVar in VarsOfAll(RenderValues(hs, errVar)) <==> AnyMentionsError(hs)
  {
    var es := RenderValues(hs, errVar);
    VarsOfAllIn(es, errVar);
    forall i | 0 <= i < |hs|
      ensures errVar in Vars(es[i]) <==> MentionsError(hs[i])
    {
      assert Foreign(hs[i], errVar);
      ValueReads(hs[i], errVar);
    }
  }

  lemma {:induction false} DeclsRead(es: seq<Expr>)
    ensures Reads(ZeroDecls(es)) == {}
  {
    if es == [] {
      ReadsNothing();
    } else {
      var i := |es| - 1;
      DeclsRead(es[..i]);
      var decl := if es[i].New? then [VarDecl(ZeroName(i), es[i].typ, Literal(es[i].zero))] else [];
      ReadsJoin(ZeroDecls(es[..i]), decl);
      ReadsNothing();
      if es[i].New? {
        ReadsOne(decl[0]);
      }
    }
  }

  /** A return with its declarations reads what its values mention, but for stand-ins. */
  lemma ReturnReads(es: seq<Expr>, x: string)
    requires NoStandIn({x})
    ensures x in Reads(ReturnNodes(es)) <==> x in VarsOfAll(es)
  {
    var leave := ReturnStmt(WithoutNew(es));
    DeclsRead(es);
    ReadsJoin(ZeroDecls(es), [leave]);
    ReadsOne(leave);
    VarsOfAllIn(es, x);
    VarsOfAllIn(WithoutNew(es), x);
    forall i | 0 <= i < |es|
      ensures x in Vars(WithoutNew(es)[i]) <==> x in Vars(es[i])
    {
      if es[i].New? {
        assert ZeroName(i) != x;
      }
    }
  }

  lemma ErrorReturnReads(zeros: seq<Zero>, e: Expr, x: string)
    requires NoStandIn({x})
    ensures x in Reads(ErrorReturn(zeros, e)) <==> x in Vars(e)
  {
    hide Reads, ReturnNodes;
    var es := ResultExprs(zeros, e);
    ReturnReads(es, x);
    VarsOfAllIn(es, x);
    assert es[|es| - 1] == e;
    forall i | 0 <= i < |es| - 1
      ensures x !in Vars(es[i])
    {
      assert es[i] == ZeroExpr(zeros[i]);
    }
  }

  ghost predicate StmtForeign(s: HandlerStmt, errVar: string)
  {
    match s
    case CallStmt(_, args) => AllForeign(args, errVar)
    case DeclareStmt(_, init) => Foreign(init, errVar)
    case PanicWith(value) => Foreign(value, errVar)
    case ReturnWith(values) => AllForeign(values, errVar)
    case _ => true
  }

  lemma StmtReads(s: HandlerStmt, errVar: string)
    requires StmtForeign(s, errVar) && NoStandIn({errVar})
    ensures errVar in Reads(RenderStmt(s, errVar)) <==> StmtMentionsError(s)
  {
    match s
    case CallStmt(fn, args) =>
      ValuesRead(args, errVar);
      ReadsOne(ExprStmt(Call(fn, RenderValues(args, errVar), false)));
    case DeclareStmt(name, init) =>
      ValueReads(init, errVar);
      ReadsOne(Assign([name], RenderValue(init, errVar), true));
    case PanicWith(value) =>
      ValueReads(value, errVar);
      ReadsOne(PanicStmt(RenderValue(value, errVar)));
    case ReturnWith(values) =>
      ValuesRead(values, errVar);
      ReturnReads(RenderValues(values, errVar), errVar);
    case ContinueLoop => ReadsOne(ContinueStmt);
    case BreakLoop => ReadsOne(BreakStmt);
  }

  lemma {:induction false} BodyReads(body: seq<HandlerStmt>, errVar: string)
    requires (forall i :: 0 <= i < |body| ==> StmtForeign(body[i], errVar)) && NoStandIn({errVar})
    ensures errVar in Reads(RenderBody(body, errVar)) <==> exists i :: 0 <= i < |body| && StmtMentionsError(body[i])
  {
    if body == [] {
      ReadsNothing();
    } else {
      StmtReads(body[0], errVar);
      BodyReads(body[1..], errVar);
      ReadsJoin(RenderStmt(body[0], errVar), RenderBody(body[1..], errVar));
      if i :| 0 <= i < |body| && StmtMentionsError(body[i]) {
        assert i > 0 ==> StmtMentionsError(body[1..][i - 1]);
      }
      if i :| 0 <= i < |body[1..]| && StmtMentionsError(body[1..][i]) {
        assert StmtMentionsError(body[i + 1]);
      }
    }
  }

  /** In a block that declares nothing every statement mentions user variables only. */
  lemma {:induction false} BodyForeign(body: seq<HandlerStmt>, f: Frames, user: set<string>, errVar: string)
    requires BodyInScope(body, f, user) && DeclaredIn(body) == {} && errVar !in user
    ensures forall i :: 0 <= i < |body| ==> StmtForeign(body[i], errVar)
    decreases |body|
  {
    if body != [] {
      assert !body[0].DeclareStmt?;
      BodyForeign(body[1..], f, user, errVar);
      forall i | 0 < i < |body|
        ensures StmtForeign(body[i], errVar)
      {
        assert body[i] == body[1..][i - 1];
      }
    }
  }

  lemma RenderedReads(clause: Clause, zeros: seq<Zero>, names: seq<string>, errVar: string, g: Frames, user: set<string>)
    requires clause.handler.Some? && ClauseInScope(clause, g, user) && errVar !in user && NoStandIn({errVar})
    requires !clause.shorthandReturn && !clause.shorthandContinue && !clause.shorthandBreak && DeclaredBy(clause, zeros) == {}
    requires names != [] && names[0] != errVar
    ensures errVar in Reads(RenderHandler(clause.handler.value, zeros, names, errVar)) <==> HandlerMentionsError(clause.handler.value)
  {
    var code := RenderHandler(clause.handler.value, zeros, names, errVar);
    match clause.handler.value
    case PanicHandler(message) =>
      ValueReads(message, errVar);
      ReadsOne(code[0]);
    case ErrorHandler(error) =>
      ValueReads(error, errVar);
      var e := RenderValue(error, errVar);
      if |zeros| > 2 {
        ErrorReturnReads(zeros, e, errVar);
      } else {
        ReadsOne(code[0]);
        VarsOfAllIn(code[0].values, errVar);
        assert code[0].values[|code[0].values| - 1] == e;
      }
    case ReturnHandler(values) =>
      ValuesRead(values, errVar);
      ReadsOne(code[0]);
    case EmptyHandler => ReadsOne(code[0]);
    case CallHandler(_, args) =>
      ValuesRead(args, errVar);
      ReadsOne(code[0]);
    case DefaultHandler(value) =>
      ValueReads(value, errVar);
      if names != [] {
        ReadsOne(code[0]);
      }
    case BlockHandler(body) =>
      BodyForeign(body, Scope(g, map[]), user, errVar);
      BodyReads(body, errVar);
  }

  /** A lowered clause that declares nothing reads its error exactly when the clause makes use of it. */
  lemma HandlerReads(clause: Clause, zeros: seq<Zero>, names: seq<string>, errVar: string, g: Frames, user: set<string>)
    requires ClauseInScope(clause, g, user) && errVar !in user && NoStandIn({errVar}) && DeclaredBy(clause, zeros) == {}
    requires names != [] && names[0] != errVar && (clause.handler.None? && clause.explain == "" ==> LeavesControl(clause))
    ensures errVar in Reads(LowerHandler(clause, zeros, names, errVar)) <==> UsesError(clause)
  {
    hide Reads, RenderHandler, ErrorReturn, HandlerMentionsError, DeclaredBy, ClauseInScope;
    if clause.shorthandReturn {
      ErrorReturnReads(zeros, Var(errVar), errVar);
    } else if clause.shorthandContinue {
      ReadsOne(ContinueStmt);
    } else if clause.shorthandBreak {
      ReadsOne(BreakStmt);
    } else {
      var wrap := Assign([errVar], Explain(clause.explain, Var(errVar)), false);
      ReadsOne(wrap);
      assert Vars(Var(errVar)) == {errVar} && errVar in Vars(wrap.expr);
      if clause.handler.None? {
        ErrorReturnReads(zeros, Var(errVar), errVar);
        ReadsJoin([wrap], ErrorReturn(zeros, Var(errVar)));
      } else {
        var raw := RawStmt(RenderHandler(clause.handler.value, zeros, names, errVar));
        RenderedReads(clause, zeros, names, errVar, g, user);
        ReadsOne(raw);
        ReadsJoin([wrap], [raw]);
        assert [] + [raw] == [raw];
        assert LowerHandler(clause, zeros, names, errVar) == if clause.explain == "" then [raw] else [wrap] + [raw];
      }
    }
  }

  // ----- What the scoped part reads -----

  /** A generated name of another kind. */
  lemma OtherKind(p: string, k: nat, q: string, m: nat)
    requires p != q
    ensures Numbered(p, k) != Numbered(q, m)
  {
    if Numbered(p, k) == Numbered(q, m) {
      NumberedInjective(p, k, q, m);
    }
  }

  lemma CheckReads(stepNum: nat, names: seq<string>, call: Expr, errVar: string, onErr: string, pipeErr: string)
    requires pipeErr !in Vars(call) && errVar != pipeErr
    ensures pipeErr !in Reads(Checked(stepNum, names, call, errVar, OnFail(Labels(onErr, pipeErr), "", errVar)))
  {
    hide Reads;
    var body := OnFail(Labels(onErr, pipeErr), "", errVar);
    var assign, check := Assign(names, call, true), IfErrCheck(errVar, body);
    ReadsOne(body[0]);
    ReadsOne(body[1]);
    ReadsJoin([body[0]], [body[1]]);
    assert body == [body[0]] + [body[1]];
    ReadsOne(StepComment(stepNum));
    ReadsOne(assign);
    ReadsOne(check);
    ReadsJoin([StepComment(stepNum)], [assign] + [check]);
    ReadsJoin([assign], [check]);
    assert Checked(stepNum, names, call, errVar, body) == [StepComment(stepNum)] + ([assign] + [check]);
  }

  /** The scoped part of the goto form records the error and never reads it. */
  lemma {:induction false} StepsRead(steps: seq<Step>, current: Expr, counter: nat, stepNum: nat, reserved: set<string>, onErr: string,
                                     k: nat, g: Frames, user: set<string>)
    requires StepsInScope(steps, g, user) && Numbered("pipeErr", k) !in Vars(current) + user
    ensures var l := LowerSteps(steps, current, counter, stepNum, reserved, Labels(onErr, Numbered("pipeErr", k)));
      l.Some? ==> Numbered("pipeErr", k) !in Reads(l.value.nodes) + Vars(l.value.current)
    decreases |steps|
  {
    hide NextId, Eval;
    var pipeErr := Numbered("pipeErr", k);
    var mode := Labels(onErr, pipeErr);
    if steps == [] {
      ReadsNothing();
    } else {
      var step, rest := steps[0], steps[1..];
      var first := LowerStep(step, rest, current, counter, stepNum, reserved, mode);
      if first.Some? {
        StepReads(step, rest, current, counter, stepNum, reserved, onErr, k, g, user);
        StepsRead(rest, first.value.current, first.value.counter, first.value.stepNum, reserved, onErr, k, g, user);
        var tail := LowerSteps(rest, first.value.current, first.value.counter, first.value.stepNum, reserved, mode);
        if tail.Some? {
          ReadsJoin(first.value.nodes, tail.value.nodes);
        }
      }
    }
  }

  lemma StepReads(step: Step, rest: seq<Step>, current: Expr, counter: nat, stepNum: nat, reserved: set<string>, onErr: string,
                  k: nat, g: Frames, user: set<string>)
    requires RendersFaithfully(step.target) && TargetInScope(step.target, g, user) && Numbered("pipeErr", k) !in Vars(current) + user
    ensures var l := LowerStep(step, rest, current, counter, stepNum, reserved, Labels(onErr, Numbered("pipeErr", k)));
      l.Some? ==> Numbered("pipeErr", k) !in Reads(l.value.nodes) + Vars(l.value.current)
  {
    hide NextId, Eval, Reads;
    var pipeErr := Numbered("pipeErr", k);
    var o: Oracle := (_, _) => Returns([]);
    StepCallMeaning(step.target, current, g, g, user, [], o);
    var call := StepCall(step.target, current).value;
    match step.kind
    case Plain => ReadsNothing();
    case Fallible =>
      var k1 := NextId(reserved, counter, "pipe");
      var k2 := NextId(reserved, k1, "err");
      OtherKind("pipe", k1, "pipeErr", k);
      OtherKind("err", k2, "pipeErr", k);
      CheckReads(stepNum + 1, [Numbered("pipe", k1), Numbered("err", k2)], call, Numbered("err", k2), onErr, pipeErr);
    case ErrorOnly =>
      var k1 := NextId(reserved, counter, "err");
      OtherKind("err", k1, "pipeErr", k);
      CheckReads(stepNum + 1, [Numbered("err", k1)], call, Numbered("err", k1), onErr, pipeErr);
  }

  lemma ChainReads(c: Chain, counter: nat, reserved: set<string>, onErr: string, k: nat, g: Frames, user: set<string>)
    requires Vars(c.base) <= user && StepsInScope(c.steps, g, user) && Numbered("pipeErr", k) !in user
    ensures var l := LowerChain(c, counter, reserved, Labels(onErr, Numbered("pipeErr", k)));
      l.Some? ==> Numbered("pipeErr", k) !in Reads(l.value.nodes) + Vars(l.value.current)
  {
    hide NextId, Reads, LowerSteps;
    var pipeErr := Numbered("pipeErr", k);
    var mode := Labels(onErr, pipeErr);
    var b := LowerBase(c, counter, reserved, mode);
    ReadsNothing();
    if c.baseFallible {
      var k1 := NextId(reserved, counter, "pipe");
      var k2 := NextId(reserved, k1, "err");
      OtherKind("pipe", k1, "pipeErr", k);
      OtherKind("err", k2, "pipeErr", k);
      CheckReads(1, [Numbered("pipe", k1), Numbered("err", k2)], c.base, Numbered("err", k2), onErr, pipeErr);
    }
    StepsRead(c.steps, b.current, b.counter, b.stepNum, reserved, onErr, k, g, user);
    var l := LowerSteps(c.steps, b.current, b.counter, b.stepNum, reserved, mode);
    if l.Some? {
      ReadsJoin(b.nodes, l.value.nodes);
    }
  }

  lemma SingleReads(expr: Expr, fallible: bool, counter: nat, reserved: set<string>, onErr: string, k: nat)
    requires Numbered("pipeErr", k) !in Vars(expr)
    ensures var l := LowerPiped(SingleLeft(expr, fallible), counter, reserved, Labels(onErr, Numbered("pipeErr", k)));
      l.Some? && Numbered("pipeErr", k) !in Reads(l.value.nodes) + Vars(l.value.current)
  {
    hide NextId, Reads;
    var pipeErr := Numbered("pipeErr", k);
    ReadsNothing();
    if fallible {
      var k1 := NextId(reserved, counter, "pipe");
      var k2 := NextId(reserved, k1, "err");
      OtherKind("pipe", k1, "pipeErr", k);
      OtherKind("err", k2, "pipeErr", k);
      var names := [Numbered("pipe", k1), Numbered("err", k2)];
      var checked := Checked(1, names, expr, Numbered("err", k2), OnFail(Labels(onErr, pipeErr), "", Numbered("err", k2)));
      CheckReads(1, names, expr, Numbered("err", k2), onErr, pipeErr);
      ReadsJoin([checked[0]], [checked[1], checked[2]]);
      assert checked == [checked[0]] + [checked[1], checked[2]];
    }
  }
  // ----- Writing -----

  /** The variables the code assigns with `=` at any depth, or declares in the scope it stands in. */
  function Writes(nodes: seq<Node>, own: bool): set<string>
    decreases nodes, 1
  {
    set i, x | 0 <= i < |nodes| && x in NodeWrites(nodes[i], own) :: x
  }

  function NodeWrites(n: Node, own: bool): set<string>
    decreases n, 0
  {
    match n
    case Assign(names, _, walrus) => if walrus && !own then {} else set x | x in names
    case VarDecl(name, _, _) => if own then {name} else {}
    case IfErrCheck(_, body) => Writes(body, false)
    case ScopedBlock(body) => Writes(body, false)
    case RawStmt(code) => Writes(code, own)
    case _ => {}
  }

  lemma WritesJoin(a: seq<Node>, b: seq<Node>, own: bool)
    ensures Writes(a + b, own) == Writes(a, own) + Writes(b, own)
  {
    forall x
      ensures x in Writes(a + b, own) <==> x in Writes(a, own) || x in Writes(b, own)
    {
      if x in Writes(a, own) {
        var i :| 0 <= i < |a| && x in NodeWrites(a[i], own);
        assert x in NodeWrites((a + b)[i], own);
      }
      if x in Writes(b, own) {
        var i :| 0 <= i < |b| && x in NodeWrites(b[i], own);
        assert x in NodeWrites((a + b)[|a| + i], own);
      }
    }
  }

  lemma WritesOne(n: Node, own: bool)
    ensures Writes([n], own) == NodeWrites(n, own)
  {
    assert forall x :: x in NodeWrites(n, own) ==> x in NodeWrites([n][0], own);
  }

  lemma {:induction false} DeclsWrite(es: seq<Expr>)
    ensures Writes(ReturnNodes(es), false) == {}
  {
    OnlyDecls(es);
    WritesJoin(ZeroDecls(es), [ReturnStmt(WithoutNew(es))], false);
  }

  lemma {:induction false} OnlyDecls(es: seq<Expr>)
    ensures Writes(ZeroDecls(es), false) == {}
  {
    if es != [] {
      var i := |es| - 1;
      OnlyDecls(es[..i]);
      WritesJoin(ZeroDecls(es[..i]), if es[i].New? then [VarDecl(ZeroName(i), es[i].typ, Literal(es[i].zero))] else [], false);
    }
  }

  lemma {:induction false} BodyWrites(body: seq<HandlerStmt>, errVar: string)
    ensures Writes(RenderBody(body, errVar), false) == {}
  {
    if body != [] {
      BodyWrites(body[1..], errVar);
      if body[0].ReturnWith? {
        DeclsWrite(RenderValues(body[0].values, errVar));
      }
      WritesJoin(RenderStmt(body[0], errVar), RenderBody(body[1..], errVar), false);
    }
  }

  /** In a scope of its own a handler that leaves assigns nothing but its error's variable. */
  lemma HandlerWrites(clause: Clause, zeros: seq<Zero>, names: seq<string>, errVar: string)
    requires LeavesLowered(clause)
    ensures Writes(LowerHandler(clause, zeros, names, errVar), false) <= {errVar}
  {
    hide RenderHandler, ErrorReturn;
    var wrap := Assign([errVar], Explain(clause.explain, Var(errVar)), false);
    WritesOne(wrap, false);
    DeclsWrite(ResultExprs(zeros, Var(errVar)));
    assert ErrorReturn(zeros, Var(errVar)) == ReturnNodes(ResultExprs(zeros, Var(errVar))) by { IsReturn(zeros, Var(errVar)); }
    if clause.shorthandReturn || clause.shorthandContinue || clause.shorthandBreak {
    } else if clause.handler.None? {
      WritesJoin([wrap], ErrorReturn(zeros, Var(errVar)), false);
    } else {
      var raw := RawStmt(RenderHandler(clause.handler.value, zeros, names, errVar));
      RenderedWrites(clause.handler.value, zeros, names, errVar);
      WritesOne(raw, false);
      WritesJoin([wrap], [raw], false);
      assert LowerHandler(clause, zeros, names, errVar) == if clause.explain == "" then [raw] else [wrap] + [raw] by {
        assert [] + [raw] == [raw];
      }
    }
  }

  lemma IsReturn(zeros: seq<Zero>, e: Expr)
    ensures ErrorReturn(zeros, e) == ReturnNodes(ResultExprs(zeros, e))
  {
  }

  lemma RenderedWrites(h: Handler, zeros: seq<Zero>, names: seq<string>, errVar: string)
    requires !h.DefaultHandler?
    ensures Writes(RenderHandler(h, zeros, names, errVar), false) == {}
  {
    match h
    case BlockHandler(body) => BodyWrites(body, errVar);
    case ErrorHandler(error) => DeclsWrite(ResultExprs(zeros, RenderValue(error, errVar)));
    case _ =>
  }

  /** Generated, or the target. */
  predicate Untouched(written: set<string>, reserved: set<string>, target: string)
  {
    forall x :: x in written ==> x !in reserved || x == target
  }

  lemma CheckWrites(stepNum: nat, names: seq<string>, call: Expr, errVar: string, clause: Clause, zeros: seq<Zero>, handlerNames: seq<string>)
    requires LeavesLowered(clause) && errVar in names
    ensures Writes(Checked(stepNum, names, call, errVar, LowerHandler(clause, zeros, handlerNames, errVar)), true) <= (set x | x in names)
  {
    hide LowerHandler;
    HandlerWrites(clause, zeros, handlerNames, errVar);
  }

  lemma {:induction false} StepsWrite(steps: seq<Step>, current: Expr, counter: nat, stepNum: nat, reserved: set<string>,
                                      clause: Clause, zeros: seq<Zero>, names: seq<string>, target: string)
    requires LeavesLowered(clause)
    ensures var l := LowerSteps(steps, current, counter, stepNum, reserved, Inline(clause, zeros, names, target));
      l.Some? ==> Untouched(Writes(l.value.nodes, true), reserved, target)
    decreases |steps|
  {
    hide NextId, Writes, LowerHandler, LeavesLowered;
    var mode := Inline(clause, zeros, names, target);
    if steps == [] {
      NothingWritten();
    } else {
      var first := LowerStep(steps[0], steps[1..], current, counter, stepNum, reserved, mode);
      if first.Some? {
        StepWrites(steps[0], steps[1..], current, counter, stepNum, reserved, clause, zeros, names, target);
        StepsWrite(steps[1..], first.value.current, first.value.counter, first.value.stepNum, reserved, clause, zeros, names, target);
        var tail := LowerSteps(steps[1..], first.value.current, first.value.counter, first.value.stepNum, reserved, mode);
        if tail.Some? {
          WritesJoin(first.value.nodes, tail.value.nodes, true);
        }
      }
    }
  }

  lemma NothingWritten()
    ensures Writes([], true) == {}
  {
  }

  lemma StepWrites(step: Step, rest: seq<Step>, current: Expr, counter: nat, stepNum: nat, reserved: set<string>,
                   clause: Clause, zeros: seq<Zero>, names: seq<string>, target: string)
    requires LeavesLowered(clause)
    ensures var l := LowerStep(step, rest, current, counter, stepNum, reserved, Inline(clause, zeros, names, target));
      l.Some? ==> Untouched(Writes(l.value.nodes, true), reserved, target)
  {
    hide NextId, Writes, LowerHandler, LeavesLowered;
    var call := StepCall(step.target, current);
    if call.Some? {
      match step.kind
      case Plain => NothingWritten();
      case Fallible =>
        var k := NextId(reserved, counter, "pipe");
        var next := if target != "" && !HasFallible(rest) then target else Numbered("pipe", k);
        var errVar := Numbered("err", NextId(reserved, k, "err"));
        NextIsNew(reserved, counter, "pipe");
        NextIsNew(reserved, k, "err");
        CheckWrites(stepNum + 1, [next, errVar], call.value, errVar, clause, zeros, if names == [] && target != "" && next == target then [target] else names);
      case ErrorOnly =>
        var errVar := Numbered("err", NextId(reserved, counter, "err"));
        NextIsNew(reserved, counter, "err");
        CheckWrites(stepNum + 1, [errVar], call.value, errVar, clause, zeros, if names == [] && target != "" && "" == target then [target] else names);
    }
  }

  /**
   Whatever a chain with a clause that leaves does before it leaves, it assigns and
   declares nothing but generated names and the target: the variables of the program
   are as they were, behind a `continue` or `break` too.
   */
  lemma UserVariablesKept(c: Chain, clause: Clause, zeros: seq<Zero>, names: seq<string>, target: string, counter: nat,
                          reserved: set<string>, user: set<string>)
    requires LeavesLowered(clause) && user <= reserved && target !in user
    ensures var l := LowerChain(c, counter, reserved, Inline(clause, zeros, names, target)); l.Some? ==> Writes(l.value.nodes, true) !! user
  {
    hide NextId, Writes, LowerHandler, LeavesLowered, LowerSteps;
    var mode := Inline(clause, zeros, names, target);
    var b := LowerBase(c, counter, reserved, mode);
    if c.baseFallible {
      var k := NextId(reserved, counter, "pipe");
      var temp := if target != "" && AllErrorOnly(c.steps) then target else Numbered("pipe", k);
      var errVar := Numbered("err", NextId(reserved, k, "err"));
      NextIsNew(reserved, counter, "pipe");
      NextIsNew(reserved, k, "err");
      CheckWrites(1, [temp, errVar], c.base, errVar, clause, zeros, if names == [] && target != "" && temp == target then [target] else names);
    } else {
      NothingWritten();
    }
    StepsWrite(c.steps, b.current, b.counter, b.stepNum, reserved, clause, zeros, names, target);
    var l := LowerSteps(c.steps, b.current, b.counter, b.stepNum, reserved, mode);
    if l.Some? {
      WritesJoin(b.nodes, l.value.nodes, true);
    }
  }
}
