/**
 Labels and gotos of the lowered piped switch against the Go specification,
 sections "Goto statements" and "Labeled statements".
 */
module GotoProof {
  import opened Prelude
  import opened Ir
  import opened Names
  import opened Pipes
  import opened Lowering
  import opened Machine
  import opened HandlerProof

  predicate DeclaresVar(n: Node)
  {
    n.VarDecl? || (n.Assign? && n.walrus)
  }

  predicate AnyDecl(nodes: seq<Node>)
  {
    exists i :: 0 <= i < |nodes| && DeclaresVar(nodes[i])
  }

  /** The node brings a variable into the scope of its block; raw code does so with what it holds. */
  predicate Declares(n: Node)
  {
    DeclaresVar(n) || (n.RawStmt? && AnyDecl(n.code))
  }

  /** Labels a goto inside node i may name: those of this block it does not reach across a declaration, and outer ones. */
  ghost function ReachableLabels(nodes: seq<Node>, i: nat, outer: set<string>): set<string>
  {
    outer + set j | 0 <= j < |nodes| && nodes[j].Label? && (j <= i || forall m :: i < m < j ==> !Declares(nodes[m])) :: nodes[j].name
  }

  /** No goto enters a block, and none skips a declaration of the block its label is in. */
  ghost predicate GotosLegal(nodes: seq<Node>, outer: set<string>)
    decreases nodes, 1
  {
    forall i :: 0 <= i < |nodes| ==> NodeLegal(nodes[i], ReachableLabels(nodes, i, outer))
  }

  ghost predicate NodeLegal(n: Node, reach: set<string>)
    decreases n, 0
  {
    match n
    case Goto(dest) => dest in reach
    case IfErrCheck(_, body) => GotosLegal(body, reach)
    case ScopedBlock(body) => GotosLegal(body, reach)
    case RawStmt(code) => GotosLegal(code, reach)
    case _ => true
  }

  /** Labels declared anywhere inside. */
  function LabelNames(nodes: seq<Node>): set<string>
    decreases nodes, 1
  {
    set i, x | 0 <= i < |nodes| && x in NodeLabels(nodes[i]) :: x
  }

  function NodeLabels(n: Node): set<string>
    decreases n, 0
  {
    match n
    case Label(name) => {name}
    case IfErrCheck(_, body) => LabelNames(body)
    case ScopedBlock(body) => LabelNames(body)
    case RawStmt(code) => LabelNames(code)
    case _ => {}
  }

  /** Labels some goto inside names. */
  function GotoTargets(nodes: seq<Node>): set<string>
    decreases nodes, 1
  {
    set i, x | 0 <= i < |nodes| && x in NodeTargets(nodes[i]) :: x
  }

  function NodeTargets(n: Node): set<string>
    decreases n, 0
  {
    match n
    case Goto(dest) => {dest}
    case IfErrCheck(_, body) => GotoTargets(body)
    case ScopedBlock(body) => GotoTargets(body)
    case RawStmt(code) => GotoTargets(code)
    case _ => {}
  }

  lemma LabelsAppend(a: seq<Node>, b: seq<Node>)
    ensures LabelNames(a + b) == LabelNames(a) + LabelNames(b)
    ensures GotoTargets(a + b) == GotoTargets(a) + GotoTargets(b)
  {
    var c := a + b;
    forall x
      ensures x in LabelNames(c) <==> x in LabelNames(a) || x in LabelNames(b)
      ensures x in GotoTargets(c) <==> x in GotoTargets(a) || x in GotoTargets(b)
    {
      assert forall i :: 0 <= i < |a| ==> a[i] == c[i];
      assert forall i :: 0 <= i < |b| ==> b[i] == c[|a| + i];
    }
  }

  /** A node list without labels, whose gotos all leave to one outer label. */
  predicate JumpsOnlyTo(nodes: seq<Node>, dest: string)
  {
    LabelNames(nodes) == {} && GotoTargets(nodes) <= {dest}
  }

  lemma NoTopLabels(nodes: seq<Node>)
    requires LabelNames(nodes) == {}
    ensures NoLabels(nodes)
  {
    forall i | 0 <= i < |nodes|
      ensures !nodes[i].Label?
    {
      assert nodes[i].Label? ==> nodes[i].name in NodeLabels(nodes[i]);
      assert forall x :: x in NodeLabels(nodes[i]) ==> x in LabelNames(nodes);
    }
  }

  lemma NoLabelsReach(nodes: seq<Node>, i: nat, reach: set<string>)
    requires LabelNames(nodes) == {}
    ensures ReachableLabels(nodes, i, reach) == reach
  {
    NoTopLabels(nodes);
  }

  /** Code without labels is legal wherever the labels it names are in reach, however it is nested. */
  lemma {:induction false} LabelFreeLegal(nodes: seq<Node>, reach: set<string>)
    requires LabelNames(nodes) == {} && GotoTargets(nodes) <= reach
    ensures GotosLegal(nodes, reach)
    decreases nodes
  {
    forall i | 0 <= i < |nodes|
      ensures NodeLegal(nodes[i], ReachableLabels(nodes, i, reach))
    {
      var n := nodes[i];
      NoLabelsReach(nodes, i, reach);
      assert forall x :: x in NodeLabels(n) ==> x in LabelNames(nodes);
      assert forall x :: x in NodeTargets(n) ==> x in GotoTargets(nodes);
      match n
      case IfErrCheck(_, body) => LabelFreeLegal(body, reach);
      case ScopedBlock(body) => LabelFreeLegal(body, reach);
      case RawStmt(code) => LabelFreeLegal(code, reach);
      case _ =>
    }
  }

  lemma One(n: Node)
    ensures LabelNames([n]) == NodeLabels(n) && GotoTargets([n]) == NodeTargets(n)
  {
    assert [n][0] == n;
  }

  lemma Prepend(n: Node, rest: seq<Node>)
    ensures LabelNames([n] + rest) == NodeLabels(n) + LabelNames(rest) && GotoTargets([n] + rest) == NodeTargets(n) + GotoTargets(rest)
  {
    One(n);
    LabelsAppend([n], rest);
  }

  /** The body of an error check jumps to the handler. */
  lemma FailBodyJumps(errVar: string, onErr: string, pipeErr: string)
    ensures var body := OnFail(Labels(onErr, pipeErr), "", errVar);
      LabelNames(body) == {} && GotoTargets(body) == {onErr}
  {
    var save := Assign([pipeErr], Var(errVar), false);
    One(Goto(onErr));
    Prepend(save, [Goto(onErr)]);
    assert [save] + [Goto(onErr)] == [save, Goto(onErr)];
  }

  /** An assignment and an error check with such a body. */
  lemma CheckJumps(names: seq<string>, call: Expr, errVar: string, body: seq<Node>, dest: string)
    requires LabelNames(body) == {} && GotoTargets(body) == {dest}
    ensures var nodes := [Assign(names, call, true), IfErrCheck(errVar, body)];
      LabelNames(nodes) == {} && GotoTargets(nodes) == {dest}
  {
    var assign, check := Assign(names, call, true), IfErrCheck(errVar, body);
    One(check);
    Prepend(assign, [check]);
    assert [assign] + [check] == [assign, check];
  }

  lemma CheckedJumps(stepNum: nat, names: seq<string>, call: Expr, errVar: string, body: seq<Node>, dest: string)
    requires LabelNames(body) == {} && GotoTargets(body) == {dest}
    ensures var nodes := Checked(stepNum, names, call, errVar, body);
      LabelNames(nodes) == {} && GotoTargets(nodes) == {dest}
  {
    CheckJumps(names, call, errVar, body, dest);
    var rest := [Assign(names, call, true), IfErrCheck(errVar, body)];
    Prepend(StepComment(stepNum), rest);
    assert [StepComment(stepNum)] + rest == Checked(stepNum, names, call, errVar, body);
  }

  lemma {:induction false} StepsJump(steps: seq<Step>, current: Expr, counter: nat, stepNum: nat, reserved: set<string>, onErr: string, pipeErr: string)
    requires LowerSteps(steps, current, counter, stepNum, reserved, Labels(onErr, pipeErr)).Some?
    ensures var nodes := LowerSteps(steps, current, counter, stepNum, reserved, Labels(onErr, pipeErr)).value.nodes;
      JumpsOnlyTo(nodes, onErr) && (onErr in GotoTargets(nodes) <==> StepsCanFail(steps))
    decreases |steps|
  {
    if steps != [] {
      var step, rest := steps[0], steps[1..];
      var first := LowerStep(step, rest, current, counter, stepNum, reserved, Labels(onErr, pipeErr)).value;
      StepsJump(rest, first.current, first.counter, first.stepNum, reserved, onErr, pipeErr);
      var tail := LowerSteps(rest, first.current, first.counter, first.stepNum, reserved, Labels(onErr, pipeErr)).value.nodes;
      if step.kind != Plain {
        FailBodyJumps(first.nodes[2].errVar, onErr, pipeErr);
        CheckedJumps(stepNum + 1, first.nodes[1].names, first.nodes[1].expr, first.nodes[2].errVar, first.nodes[2].body, onErr);
      } else {
        assert LabelNames(first.nodes) == {} && GotoTargets(first.nodes) == {};
      }
      LabelsAppend(first.nodes, tail);
      CanFailTail(steps);
    }
  }

  predicate CanFail(left: Piped)
  {
    match left
    case ChainLeft(c) => ChainCanFail(c)
    case SingleLeft(_, fallible) => fallible
  }

  lemma PipedJumps(left: Piped, counter: nat, reserved: set<string>, onErr: string, pipeErr: string)
    requires LowerPiped(left, counter, reserved, Labels(onErr, pipeErr)).Some?
    ensures var nodes := LowerPiped(left, counter, reserved, Labels(onErr, pipeErr)).value.nodes;
      JumpsOnlyTo(nodes, onErr) && (onErr in GotoTargets(nodes) <==> CanFail(left))
  {
    var mode := Labels(onErr, pipeErr);
    match left
    case ChainLeft(c) =>
      var b := LowerBase(c, counter, reserved, mode);
      StepsJump(c.steps, b.current, b.counter, b.stepNum, reserved, onErr, pipeErr);
      var tail := LowerSteps(c.steps, b.current, b.counter, b.stepNum, reserved, mode).value.nodes;
      if c.baseFallible {
        FailBodyJumps(b.nodes[2].errVar, onErr, pipeErr);
        CheckedJumps(1, b.nodes[1].names, c.base, b.nodes[2].errVar, b.nodes[2].body, onErr);
      }
      LabelsAppend(b.nodes, tail);
    case SingleLeft(expr, fallible) =>
      if fallible {
        SingleJumps(expr, counter, reserved, onErr, pipeErr);
      }
  }

  lemma SingleJumps(expr: Expr, counter: nat, reserved: set<string>, onErr: string, pipeErr: string)
    ensures var nodes := LowerPiped(SingleLeft(expr, true), counter, reserved, Labels(onErr, pipeErr)).value.nodes;
      JumpsOnlyTo(nodes, onErr) && onErr in GotoTargets(nodes)
  {
    var nodes := LowerPiped(SingleLeft(expr, true), counter, reserved, Labels(onErr, pipeErr)).value.nodes;
    FailBodyJumps(nodes[1].errVar, onErr, pipeErr);
    CheckJumps(nodes[0].names, expr, nodes[1].errVar, nodes[1].body, onErr);
  }

  // ----- Handlers -----

  /** A rendered handler neither jumps nor labels. */
  predicate Straight(nodes: seq<Node>)
  {
    LabelNames(nodes) == {} && GotoTargets(nodes) == {}
  }

  /** Some node declares a variable in the scope the nodes stand in. */
  predicate DeclaresAtTop(nodes: seq<Node>)
  {
    exists i :: 0 <= i < |nodes| && Declares(nodes[i])
  }

  lemma StraightOne(n: Node)
    requires NodeLabels(n) == {} && NodeTargets(n) == {}
    ensures Straight([n])
    ensures AnyDecl([n]) <==> DeclaresVar(n)
    ensures DeclaresAtTop([n]) <==> Declares(n)
  {
    One(n);
    assert [n][0] == n;
  }

  lemma StraightAppend(a: seq<Node>, b: seq<Node>)
    requires Straight(a) && Straight(b)
    ensures Straight(a + b)
    ensures AnyDecl(a + b) <==> AnyDecl(a) || AnyDecl(b)
    ensures DeclaresAtTop(a + b) <==> DeclaresAtTop(a) || DeclaresAtTop(b)
  {
    LabelsAppend(a, b);
    var c := a + b;
    assert forall i :: 0 <= i < |a| ==> a[i] == c[i];
    assert forall i :: 0 <= i < |b| ==> b[i] == c[|a| + i];
  }

  predicate AnyNew(exprs: seq<Expr>)
  {
    exists i :: 0 <= i < |exprs| && exprs[i].New?
  }

  lemma {:induction false} ZeroDeclsDeclare(exprs: seq<Expr>)
    ensures Straight(ZeroDecls(exprs)) && forall i :: 0 <= i < |ZeroDecls(exprs)| ==> ZeroDecls(exprs)[i].VarDecl?
    ensures AnyDecl(ZeroDecls(exprs)) <==> AnyNew(exprs)
  {
    if exprs != [] {
      var i := |exprs| - 1;
      var before := exprs[..i];
      ZeroDeclsDeclare(before);
      assert AnyNew(exprs) <==> AnyNew(before) || exprs[i].New? by {
        assert forall j :: 0 <= j < i ==> before[j] == exprs[j];
      }
      if exprs[i].New? {
        var decl := VarDecl(ZeroName(i), exprs[i].typ, Literal(exprs[i].zero));
        StraightOne(decl);
        StraightAppend(ZeroDecls(before), [decl]);
      } else {
        assert ZeroDecls(before) + [] == ZeroDecls(before);
      }
    }
  }

  /** A return declares exactly when a value needs a stand-in. */
  lemma ReturnDeclares(exprs: seq<Expr>)
    ensures Straight(ReturnNodes(exprs))
    ensures AnyDecl(ReturnNodes(exprs)) <==> AnyNew(exprs)
    ensures DeclaresAtTop(ReturnNodes(exprs)) <==> AnyNew(exprs)
  {
    var decls := ZeroDecls(exprs);
    ZeroDeclsDeclare(exprs);
    StraightOne(ReturnStmt(WithoutNew(exprs)));
    StraightAppend(decls, [ReturnStmt(WithoutNew(exprs))]);
    assert DeclaresAtTop(decls) <==> AnyDecl(decls);
  }

  lemma {:induction false} BodyStraight(body: seq<HandlerStmt>, errVar: string)
    ensures Straight(RenderBody(body, errVar))
    ensures AnyDecl(RenderBody(body, errVar)) <==> DeclaredIn(body) != {}
  {
    if body != [] {
      BodyStraight(body[1..], errVar);
      StatementDeclares(body[0], errVar);
      StraightAppend(RenderStmt(body[0], errVar), RenderBody(body[1..], errVar));
      assert DeclaredIn([body[0]]) + DeclaredIn(body[1..]) == DeclaredIn(body);
    }
  }

  lemma StatementDeclares(s: HandlerStmt, errVar: string)
    ensures Straight(RenderStmt(s, errVar))
    ensures AnyDecl(RenderStmt(s, errVar)) <==> DeclaredIn([s]) != {}
  {
    if s.ReturnWith? {
      ReturnDeclares(RenderValues(s.values, errVar));
      NewPlacesWhere(s.values, errVar);
      assert DeclaredIn([s]) == NewPlaces(s.values);
    } else {
      StraightOne(RenderStmt(s, errVar)[0]);
      if s.DeclareStmt? {
        assert s.name in DeclaredIn([s]);
      }
    }
  }

  lemma NewPlacesWhere(hs: seq<HandlerExpr>, errVar: string)
    ensures AnyNew(RenderValues(hs, errVar)) <==> NewPlaces(hs) != {}
  {
    var es := RenderValues(hs, errVar);
    if AnyNew(es) {
      var i :| 0 <= i < |es| && es[i].New?;
      assert hs[i].Mention? && hs[i].e.New?;
      assert ZeroName(i) in NewPlaces(hs);
    }
    if NewPlaces(hs) != {} {
      var x :| x in NewPlaces(hs);
      var i :| 0 <= i < |hs| && hs[i].Mention? && hs[i].e.New? && x == ZeroName(i);
      assert es[i].New?;
    }
  }

  /** Zero values and an error that is no zero value itself. */
  lemma ResultsNew(zeros: seq<Zero>, err: Expr)
    ensures AnyNew(ResultExprs(zeros, err)) <==> DeclaredZeros(zeros) != {} || err.New?
  {
    var es := ResultExprs(zeros, err);
    if AnyNew(es) && !err.New? {
      var i :| 0 <= i < |es| && es[i].New?;
      assert zeros[i].Allocated?;
      assert ZeroName(i) in DeclaredZeros(zeros);
    }
    if DeclaredZeros(zeros) != {} {
      var x :| x in DeclaredZeros(zeros);
      var i :| 0 <= i < |zeros| - 1 && zeros[i].Allocated? && x == ZeroName(i);
      assert es[i].New?;
    }
    assert es[|es| - 1] == err;
  }

  lemma RenderStraight(clause: Clause, zeros: seq<Zero>, names: seq<string>, errVar: string)
    requires clause.handler.Some? && !clause.shorthandReturn && !clause.shorthandContinue && !clause.shorthandBreak
    ensures var code := RenderHandler(clause.handler.value, zeros, names, errVar);
      Straight(code) && (AnyDecl(code) <==> DeclaredBy(clause, zeros) != {})
  {
    var code := RenderHandler(clause.handler.value, zeros, names, errVar);
    match clause.handler.value
    case BlockHandler(body) => BodyStraight(body, errVar);
    case ErrorHandler(error) =>
      if |zeros| > 2 {
        var e := RenderValue(error, errVar);
        ReturnDeclares(ResultExprs(zeros, e));
        ResultsNew(zeros, e);
        assert e.New? ==> ZeroName(|zeros| - 1) in DeclaredBy(clause, zeros);
      } else {
        StraightOne(code[0]);
      }
    case _ =>
      if code != [] {
        StraightOne(code[0]);
        assert code == [code[0]];
      }
  }

  lemma RawDeclares(code: seq<Node>)
    requires Straight(code)
    ensures Straight([RawStmt(code)]) && (DeclaresAtTop([RawStmt(code)]) <==> AnyDecl(code))
  {
    StraightOne(RawStmt(code));
  }

  /** A lowered clause declares variables exactly when it names some to be declared. */
  lemma HandlerStraight(clause: Clause, zeros: seq<Zero>, names: seq<string>, errVar: string)
    ensures Straight(LowerHandler(clause, zeros, names, errVar))
    ensures DeclaresAtTop(LowerHandler(clause, zeros, names, errVar)) <==> DeclaredBy(clause, zeros) != {}
  {
    hide ErrorReturn, RenderHandler, DeclaredZeros;
    var wrap := Assign([errVar], Explain(clause.explain, Var(errVar)), false);
    StraightOne(wrap);
    StraightOne(ContinueStmt);
    StraightOne(BreakStmt);
    ErrorReturnDeclares(zeros, errVar);
    if clause.shorthandReturn || clause.shorthandContinue || clause.shorthandBreak {
    } else if clause.handler.Some? {
      var code := RenderHandler(clause.handler.value, zeros, names, errVar);
      RenderStraight(clause, zeros, names, errVar);
      RawDeclares(code);
      StraightAppend([wrap], [RawStmt(code)]);
      assert [] + [RawStmt(code)] == [RawStmt(code)];
    } else {
      StraightAppend([wrap], ErrorReturn(zeros, Var(errVar)));
    }
  }

  lemma ErrorReturnDeclares(zeros: seq<Zero>, errVar: string)
    ensures Straight(ErrorReturn(zeros, Var(errVar)))
    ensures DeclaresAtTop(ErrorReturn(zeros, Var(errVar))) <==> DeclaredZeros(zeros) != {}
  {
    ReturnDeclares(ResultExprs(zeros, Var(errVar)));
    ResultsNew(zeros, Var(errVar));
  }

  /** Nothing is spliced in at the handler's label, or nothing that declares a variable. */
  predicate NothingDeclared(clause: Clause, zeros: seq<Zero>)
  {
    ExtractDefault(clause).Some? || DeclaredBy(clause, zeros) == {}
  }

  /**
   The lowered piped switch against Go's rules: no goto enters a block or skips a
   declaration exactly when the handler declares no variable, be it in its own
   statements or as the stand-in for the zero value of a result. Both labels are
   declared once, and both are used exactly when some part of the chain can fail.
   */
  lemma SwitchObeysGo(x: string, typ: string, zero: Value, left: Piped, clause: Clause, zeros: seq<Zero>, names: seq<string>,
                      switchFn: string, counter: nat, reserved: set<string>)
    requires LowerSwitch(x, typ, zero, left, clause, zeros, names, switchFn, counter, reserved).Some?
    ensures var nodes := LowerSwitch(x, typ, zero, left, clause, zeros, names, switchFn, counter, reserved).value;
      && (GotosLegal(nodes, {}) <==> NothingDeclared(clause, zeros))
      && |LabelNames(nodes)| == 2
      && (LabelNames(nodes) == GotoTargets(nodes) <==> CanFail(left))
  {
    var k1 := NextId(reserved, counter, "onerr");
    var k2 := NextId(reserved, k1, "end");
    var k3 := NextId(reserved, k2, "pipeErr");
    var onErr, end, pipeErr := Numbered("onerr", k1), Numbered("end", k2), Numbered("pipeErr", k3);
    if onErr == end {
      NumberedInjective("onerr", k1, "end", k2);
    }
    NamedSwitchObeysGo(x, typ, zero, left, clause, zeros, names, switchFn, onErr, end, pipeErr, k3, reserved);
  }

  lemma NamedSwitchObeysGo(x: string, typ: string, zero: Value, left: Piped, clause: Clause, zeros: seq<Zero>, names: seq<string>,
                           switchFn: string, onErr: string, end: string, pipeErr: string, counter: nat, reserved: set<string>)
    requires onErr != end && LowerPiped(left, counter, reserved, Labels(onErr, pipeErr)).Some?
    ensures var l := LowerPiped(left, counter, reserved, Labels(onErr, pipeErr)).value;
      var nodes := SwitchNodes(x, typ, zero, clause, zeros, names, switchFn, onErr, end, pipeErr, l);
      && (GotosLegal(nodes, {}) <==> NothingDeclared(clause, zeros))
      && |LabelNames(nodes)| == 2
      && (LabelNames(nodes) == GotoTargets(nodes) <==> CanFail(left))
  {
    hide SwitchNodes, LowerPiped, LowerHandler, ExtractDefault, GotosLegal, DeclaredBy, CanFail;
    var l := LowerPiped(left, counter, reserved, Labels(onErr, pipeErr)).value;
    PipedJumps(left, counter, reserved, onErr, pipeErr);
    var h := if ExtractDefault(clause).Some? then [] else LowerHandler(clause, zeros, names, pipeErr);
    HandlerOrDefaultStraight(clause, zeros, names, pipeErr);
    FrameObeysGo(x, typ, zero, clause, zeros, names, switchFn, onErr, end, pipeErr, l, h);
    LabelsUsed(onErr, end, GotoTargets(l.nodes), CanFail(left));
  }

  lemma HandlerOrDefaultStraight(clause: Clause, zeros: seq<Zero>, names: seq<string>, errVar: string)
    ensures var h := if ExtractDefault(clause).Some? then [] else LowerHandler(clause, zeros, names, errVar);
      Straight(h) && (DeclaresAtTop(h) <==> !NothingDeclared(clause, zeros))
  {
    if ExtractDefault(clause).None? {
      HandlerStraight(clause, zeros, names, errVar);
    }
  }

  lemma LabelsUsed(onErr: string, end: string, targets: set<string>, used: bool)
    requires onErr != end && targets <= {onErr} && (onErr in targets <==> used)
    ensures |{onErr, end}| == 2 && ({onErr, end} == targets + {end} <==> used)
  {
    assert onErr in {onErr, end};
  }

  lemma FrameShape(x: string, typ: string, zero: Value, clause: Clause, zeros: seq<Zero>, names: seq<string>,
                   onErr: string, end: string, pipeErr: string, inner: seq<Node>, h: seq<Node>)
    requires h == if ExtractDefault(clause).Some? then [] else LowerHandler(clause, zeros, names, pipeErr)
    ensures var nodes := SwitchFrame(x, typ, zero, clause, zeros, names, onErr, end, pipeErr, inner);
      && |nodes| == 5 + |h| && nodes[0].VarDecl? && nodes[1].VarDecl?
      && nodes == [nodes[0]] + ([nodes[1]] + ([ScopedBlock(inner)] + ([Label(onErr)] + (h + [Label(end)]))))
  {
  }

  lemma InnerNames(chain: seq<Node>, store: Node, end: string)
    requires LabelNames(chain) == {} && store.Assign?
    ensures var inner := chain + [store, Goto(end)];
      LabelNames(inner) == {} && GotoTargets(inner) == GotoTargets(chain) + {end}
  {
    One(Goto(end));
    Prepend(store, [Goto(end)]);
    assert [store] + [Goto(end)] == [store, Goto(end)];
    LabelsAppend(chain, [store, Goto(end)]);
  }

  lemma FrameObeysGo(x: string, typ: string, zero: Value, clause: Clause, zeros: seq<Zero>, names: seq<string>, switchFn: string,
                     onErr: string, end: string, pipeErr: string, l: Lowered, h: seq<Node>)
    requires onErr != end && JumpsOnlyTo(l.nodes, onErr) && Straight(h)
    requires h == if ExtractDefault(clause).Some? then [] else LowerHandler(clause, zeros, names, pipeErr)
    ensures var nodes := SwitchNodes(x, typ, zero, clause, zeros, names, switchFn, onErr, end, pipeErr, l);
      && (GotosLegal(nodes, {}) <==> !DeclaresAtTop(h))
      && LabelNames(nodes) == {onErr, end}
      && GotoTargets(nodes) == GotoTargets(l.nodes) + {end}
  {
    var store := Assign([x], Call(switchFn, [l.current], false), false);
    var inner := l.nodes + [store, Goto(end)];
    InnerNames(l.nodes, store, end);
    LabelFreeLegal(inner, {onErr, end});
    FrameShape(x, typ, zero, clause, zeros, names, onErr, end, pipeErr, inner, h);
    var nodes := SwitchFrame(x, typ, zero, clause, zeros, names, onErr, end, pipeErr, inner);
    assert Last(inner) == Goto(end);
    SwitchShape(nodes[0], nodes[1], inner, onErr, end, h);
  }

  /** The labels and jumps of two declarations, a scoped part, a label, straight code and a label. */
  lemma ShapeNames(d1: Node, d2: Node, inner: seq<Node>, onErr: string, end: string, h: seq<Node>)
    requires d1.VarDecl? && d2.VarDecl? && Straight(h) && LabelNames(inner) == {}
    ensures var nodes := [d1] + ([d2] + ([ScopedBlock(inner)] + ([Label(onErr)] + (h + [Label(end)]))));
      LabelNames(nodes) == {onErr, end} && GotoTargets(nodes) == GotoTargets(inner)
  {
    var p1 := h + [Label(end)];
    LabelsAppend(h, [Label(end)]);
    One(Label(end));
    var p2 := [Label(onErr)] + p1;
    Prepend(Label(onErr), p1);
    var p3 := [ScopedBlock(inner)] + p2;
    Prepend(ScopedBlock(inner), p2);
    var p4 := [d2] + p3;
    Prepend(d2, p3);
    Prepend(d1, p4);
  }

  lemma SwitchShape(d1: Node, d2: Node, inner: seq<Node>, onErr: string, end: string, h: seq<Node>)
    requires d1.VarDecl? && d2.VarDecl? && Straight(h) && onErr != end
    requires LabelNames(inner) == {} && GotosLegal(inner, {onErr, end}) && inner != [] && Last(inner) == Goto(end)
    ensures var nodes := [d1] + ([d2] + ([ScopedBlock(inner)] + ([Label(onErr)] + (h + [Label(end)]))));
      && (GotosLegal(nodes, {}) <==> !DeclaresAtTop(h))
      && LabelNames(nodes) == {onErr, end} && GotoTargets(nodes) == GotoTargets(inner)
  {
    hide GotosLegal, LabelNames, GotoTargets;
    var nodes := [d1] + ([d2] + ([ScopedBlock(inner)] + ([Label(onErr)] + (h + [Label(end)]))));
    ShapeNames(d1, d2, inner, onErr, end, h);
    if DeclaresAtTop(h) {
      ShapeIllegal(nodes, inner, onErr, end, h);
    } else {
      ShapeLegal(nodes, inner, onErr, end, h);
    }
  }

  ghost predicate Shaped(nodes: seq<Node>, inner: seq<Node>, onErr: string, end: string, h: seq<Node>)
  {
    && |nodes| == 5 + |h| && Straight(h)
    && nodes[0].VarDecl? && nodes[1].VarDecl? && nodes[2] == ScopedBlock(inner) && nodes[3] == Label(onErr)
    && nodes[|nodes| - 1] == Label(end) && forall i :: 0 <= i < |h| ==> nodes[4 + i] == h[i]
  }

  lemma ShapeLegal(nodes: seq<Node>, inner: seq<Node>, onErr: string, end: string, h: seq<Node>)
    requires Shaped(nodes, inner, onErr, end, h) && GotosLegal(inner, {onErr, end}) && !DeclaresAtTop(h)
    ensures GotosLegal(nodes, {})
  {
    ShapeReach(nodes, inner, onErr, end, h);
    forall i | 0 <= i < |nodes|
      ensures NodeLegal(nodes[i], ReachableLabels(nodes, i, {}))
    {
      if 3 < i < |nodes| - 1 {
        LabelFreeLegal(h, ReachableLabels(nodes, i, {}));
        NoLabelsReach(h, i - 4, ReachableLabels(nodes, i, {}));
        assert nodes[i] == h[i - 4];
      }
    }
  }

  /** From the scoped part both labels, and nothing else, are in reach. */
  lemma ShapeReach(nodes: seq<Node>, inner: seq<Node>, onErr: string, end: string, h: seq<Node>)
    requires Shaped(nodes, inner, onErr, end, h) && !DeclaresAtTop(h)
    ensures ReachableLabels(nodes, 2, {}) == {onErr, end}
  {
    var e := |nodes| - 1;
    NoTopLabels(h);
    forall m | 2 < m < e
      ensures !Declares(nodes[m]) && (nodes[m].Label? ==> m == 3)
    {
      assert m > 3 ==> nodes[m] == h[m - 4];
    }
    forall name
      ensures name in ReachableLabels(nodes, 2, {}) <==> name in {onErr, end}
    {
      if name == onErr {
        assert nodes[3].Label? && nodes[3].name == name;
      }
      if name == end {
        assert nodes[e].Label? && nodes[e].name == name;
      }
    }
  }

  /** A declaration in the handler stands between the jump over it and its label. */
  lemma ShapeIllegal(nodes: seq<Node>, inner: seq<Node>, onErr: string, end: string, h: seq<Node>)
    requires Shaped(nodes, inner, onErr, end, h) && DeclaresAtTop(h) && onErr != end
    requires LabelNames(inner) == {} && inner != [] && Last(inner) == Goto(end)
    ensures !GotosLegal(nodes, {})
  {
    var reach := ReachableLabels(nodes, 2, {});
    EndOutOfReach(nodes, inner, onErr, end, h);
    NoLabelsReach(inner, |inner| - 1, reach);
    var last := |inner| - 1;
    assert !NodeLegal(inner[last], ReachableLabels(inner, last, reach));
    assert !GotosLegal(inner, reach);
    assert !NodeLegal(nodes[2], reach);
  }

  lemma EndOutOfReach(nodes: seq<Node>, inner: seq<Node>, onErr: string, end: string, h: seq<Node>)
    requires Shaped(nodes, inner, onErr, end, h) && DeclaresAtTop(h) && onErr != end
    ensures end !in ReachableLabels(nodes, 2, {})
  {
    NoTopLabels(h);
    var i :| 0 <= i < |h| && Declares(h[i]);
    assert Declares(nodes[4 + i]);
    forall j | 4 <= j < |nodes| - 1
      ensures !nodes[j].Label?
    {
      assert nodes[j] == h[j - 4];
    }
  }

  // ----- A switch that Go refuses -----

  /**
   In a function that returns a struct and an error, `x := chain |> switch ... onerr return`
   declares a stand-in for the zero struct behind the label: the jump over the handler skips it.
   */
  lemma StructReturnRefused(x: string, typ: string, zero: Value, expr: Expr, fallible: bool, switchFn: string, counter: nat,
                            reserved: set<string>, empty: Value)
    ensures var zeros := [Allocated("Config", empty), Spelled(Nil)];
      var nodes := LowerSwitch(x, typ, zero, SingleLeft(expr, fallible), Clause(true, false, false, "", None), zeros, [x], switchFn, counter, reserved);
      nodes.Some? && !GotosLegal(nodes.value, {})
  {
    var clause := Clause(true, false, false, "", None);
    var zeros := [Allocated("Config", empty), Spelled(Nil)];
    assert zeros[0].Allocated? && ZeroName(0) in DeclaredZeros(zeros);
    SwitchObeysGo(x, typ, zero, SingleLeft(expr, fallible), clause, zeros, [x], switchFn, counter, reserved);
  }
}
