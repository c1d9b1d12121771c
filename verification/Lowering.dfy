/**
 Lowering of pipe chains with `onerr` to IR (internal/codegen/lower.go and the
 step rendering of internal/codegen/codegen_onerr.go).

 Each lowering is written twice: as a function over the remaining steps, which
 the theorems speak about, and as the method that builds a block step by step.
 */
module Lowering {
  import opened Prelude
  import opened Ir
  import opened Names
  import opened Pipes

  // ----- Rendering one step -----

  function ArgExpr(arg: Arg): Expr
  {
    match arg
    case Placeholder => Var("_")
    case Operand(e) => e
  }

  /** The rendered argument list: the piped expression replaces the first placeholder, else goes in front. */
  function PipeArgs(left: Expr, args: seq<Arg>): seq<Expr>
  {
    var own := seq(|args|, i requires 0 <= i < |args| => ArgExpr(args[i]));
    var k := FirstPlaceholder(args);
    if k < |args| then own[k := left] else [left] + own
  }

  method BuildPipeArgs(left: Expr, args: seq<Arg>) returns (out: seq<Expr>)
    ensures out == PipeArgs(left, args)
  {
    var placeholderIndex := -1;
    var i := 0;
    while i < |args| && placeholderIndex == -1
      invariant 0 <= i <= |args|
      invariant placeholderIndex == -1 ==> forall j :: 0 <= j < i ==> args[j].Operand?
      invariant placeholderIndex != -1 ==> placeholderIndex == FirstPlaceholder(args) < |args|
      decreases |args| - i + (if placeholderIndex == -1 then 1 else 0)
    {
      if args[i].Placeholder? {
        placeholderIndex := i;
      } else {
        i := i + 1;
      }
    }
    out := [];
    if placeholderIndex != -1 {
      for j := 0 to |args|
        invariant out == PipeArgs(left, args)[..j]
      {
        if j == placeholderIndex {
          out := out + [left];
        } else {
          out := out + [ArgExpr(args[j])];
        }
      }
    } else {
      out := out + [left];
      for j := 0 to |args|
        invariant out == PipeArgs(left, args)[..j + 1]
      {
        out := out + [ArgExpr(args[j])];
      }
    }
  }

  /**
   The call a step renders to. A bare `pkg.Func` renders to the selector alone,
   and a shorthand method passes the piped expression both as receiver and as
   an argument.
   */
  function StepCall(target: Target, left: Expr): Option<Expr>
  {
    match target
    case CallTarget(fn, args, spread) => Some(Call(fn, PipeArgs(left, args), spread))
    case Shorthand(name, args, spread) => Some(Call("." + name, [left] + PipeArgs(left, args), spread))
    case ShorthandField(field) => Some(Select(left, field))
    case Qualified(pkg, name) => Some(Select(Var(pkg), name))
    case Bare(name) => Some(Call(BuiltinName(name), [left], false))
    case Unsupported => None
  }

  method GeneratePipedStepCall(target: Target, left: Expr) returns (call: Option<Expr>)
    ensures call == StepCall(target, left)
  {
    match target {
      case CallTarget(fn, arguments, spread) =>
        var args := BuildPipeArgs(left, arguments);
        call := Some(Call(fn, args, spread));
      case Shorthand(name, arguments, spread) =>
        var args := BuildPipeArgs(left, arguments);
        call := Some(Call("." + name, [left] + args, spread));
      case ShorthandField(field) =>
        call := Some(Select(left, field));
      case Qualified(pkg, name) =>
        call := Some(Select(Var(pkg), name));
      case Bare(name) =>
        call := Some(Call(BuiltinName(name), [left], false));
      case Unsupported =>
        call := None;
    }
  }

  // ----- Handlers -----

  /** A handler value with the caught error's variable filled in. */
  function RenderValue(h: HandlerExpr, errVar: string): Expr
  {
    match h
    case Caught => Var(errVar)
    case Mention(e) => e
    case ErrorText(template) => Describe(template, Var(errVar))
  }

  function RenderValues(hs: seq<HandlerExpr>, errVar: string): seq<Expr>
  {
    seq(|hs|, i requires 0 <= i < |hs| => RenderValue(hs[i], errVar))
  }

  /** The declared stand-in for the i-th of several returned values. */
  function ZeroName(i: nat): string
  {
    "_zero" + Digits(i)
  }

  /** The declarations that returned values need: one for each `*new(T)`. */
  function ZeroDecls(exprs: seq<Expr>): seq<Node>
  {
    if exprs == [] then []
    else
      var i := |exprs| - 1;
      ZeroDecls(exprs[..i]) + (if exprs[i].New? then [VarDecl(ZeroName(i), exprs[i].typ, Literal(exprs[i].zero))] else [])
  }

  function WithoutNew(exprs: seq<Expr>): seq<Expr>
  {
    seq(|exprs|, i requires 0 <= i < |exprs| => if exprs[i].New? then Var(ZeroName(i)) else exprs[i])
  }

  /** A `return` and the declarations in front of it. */
  function ReturnNodes(exprs: seq<Expr>): seq<Node>
  {
    ZeroDecls(exprs) + [ReturnStmt(WithoutNew(exprs))]
  }

  method ReplaceGenericZeroExprs(exprs: seq<Expr>) returns (preDecls: seq<Node>, replaced: seq<Expr>)
    ensures preDecls == ZeroDecls(exprs) && replaced == WithoutNew(exprs)
  {
    preDecls, replaced := [], [];
    for i := 0 to |exprs|
      invariant preDecls == ZeroDecls(exprs[..i]) && replaced == WithoutNew(exprs)[..i]
    {
      assert exprs[..i + 1][..i] == exprs[..i];
      match exprs[i] {
        case New(typ, zero) =>
          preDecls := preDecls + [VarDecl(ZeroName(i), typ, Literal(zero))];
          replaced := replaced + [Var(ZeroName(i))];
        case _ =>
          replaced := replaced + [exprs[i]];
      }
    }
    assert exprs[..|exprs|] == exprs;
  }

  /** The declarations, then the `return`. */
  method AddReturn(out: Block, exprs: seq<Expr>)
    modifies out
    ensures out.nodes == old(out.nodes) + ReturnNodes(exprs)
  {
    var preDecls, replaced := ReplaceGenericZeroExprs(exprs);
    for i := 0 to |preDecls|
      invariant out.nodes == old(out.nodes) + preDecls[..i]
    {
      out.Add(preDecls[i]);
    }
    out.Add(ReturnStmt(replaced));
  }

  function RenderStmt(s: HandlerStmt, errVar: string): seq<Node>
  {
    match s
    case CallStmt(fn, args) => [ExprStmt(Call(fn, RenderValues(args, errVar), false))]
    case DeclareStmt(name, init) => [Assign([name], RenderValue(init, errVar), true)]
    case PanicWith(value) => [PanicStmt(RenderValue(value, errVar))]
    case ReturnWith(values) => ReturnNodes(RenderValues(values, errVar))
    case ContinueLoop => [ContinueStmt]
    case BreakLoop => [BreakStmt]
  }

  function RenderBody(body: seq<HandlerStmt>, errVar: string): seq<Node>
  {
    if body == [] then [] else RenderStmt(body[0], errVar) + RenderBody(body[1..], errVar)
  }

  method GenerateStatement(out: Block, s: HandlerStmt, errVar: string)
    modifies out
    ensures out.nodes == old(out.nodes) + RenderStmt(s, errVar)
  {
    match s {
      case CallStmt(fn, args) => out.Add(ExprStmt(Call(fn, RenderValues(args, errVar), false)));
      case DeclareStmt(name, init) => out.Add(Assign([name], RenderValue(init, errVar), true));
      case PanicWith(value) => out.Add(PanicStmt(RenderValue(value, errVar)));
      case ReturnWith(values) => AddReturn(out, RenderValues(values, errVar));
      case ContinueLoop => out.Add(ContinueStmt);
      case BreakLoop => out.Add(BreakStmt);
    }
  }

  method GenerateBlock(out: Block, body: seq<HandlerStmt>, errVar: string)
    modifies out
    ensures out.nodes == old(out.nodes) + RenderBody(body, errVar)
  {
    assert body[0..] == body;
    for i := 0 to |body|
      invariant out.nodes + RenderBody(body[i..], errVar) == old(out.nodes) + RenderBody(body, errVar)
    {
      ghost var before, rest := out.nodes, RenderBody(body[i + 1..], errVar);
      assert body[i..][0] == body[i] && body[i..][1..] == body[i + 1..];
      GenerateStatement(out, body[i], errVar);
      assert before + (RenderStmt(body[i], errVar) + rest) == out.nodes + rest;
    }
    assert out.nodes + [] == out.nodes;
  }

  /** How Go spells the zero value of a result type. */
  function ZeroExpr(zero: Zero): Expr
  {
    match zero
    case Spelled(value) => Literal(value)
    case Allocated(typ, value) => New(typ, value)
  }

  function ZeroExprs(zeros: seq<Zero>): seq<Expr>
  {
    seq(|zeros|, i requires 0 <= i < |zeros| => ZeroExpr(zeros[i]))
  }

  /** Zero values for all results but the last, the error's. */
  function ResultExprs(zeros: seq<Zero>, err: Expr): seq<Expr>
  {
    if zeros == [] then [err] else ZeroExprs(Front(zeros)) + [err]
  }

  function ErrorReturn(zeros: seq<Zero>, err: Expr): seq<Node>
  {
    ReturnNodes(ResultExprs(zeros, err))
  }

  /** One part a result type, the error in the last place. */
  method ResultParts(zeros: seq<Zero>, err: Expr) returns (parts: seq<Expr>)
    requires zeros != []
    ensures parts == ResultExprs(zeros, err)
  {
    parts := [];
    for i := 0 to |zeros|
      invariant parts == ResultExprs(zeros, err)[..i]
    {
      if i == |zeros| - 1 {
        parts := parts + [err];
      } else {
        parts := parts + [ZeroExpr(zeros[i])];
      }
    }
  }

  method BuildReturnNode(zeros: seq<Zero>, errVar: string) returns (block: Block)
    ensures fresh(block) && block.nodes == ErrorReturn(zeros, Var(errVar))
  {
    block := new Block();
    if |zeros| == 0 {
      block.Add(ReturnStmt([Var(errVar)]));
      assert WithoutNew([Var(errVar)]) == [Var(errVar)] && ZeroDecls([Var(errVar)]) == [];
      return;
    }
    var parts := ResultParts(zeros, Var(errVar));
    AddReturn(block, parts);
  }

  /** The statements a handler renders to; `names` are the variables a default value may be assigned to. */
  function RenderHandler(h: Handler, zeros: seq<Zero>, names: seq<string>, errVar: string): seq<Node>
  {
    match h
    case PanicHandler(message) => [PanicStmt(RenderValue(message, errVar))]
    case ErrorHandler(error) =>
      var e := RenderValue(error, errVar);
      if |zeros| > 2 then ErrorReturn(zeros, e)
      else if |names| > 0 then [ReturnStmt([Var(names[0]), e])]
      else [ReturnStmt([e])]
    case ReturnHandler(values) => [ReturnStmt(RenderValues(values, errVar))]
    case EmptyHandler => [ReturnStmt([])]
    case CallHandler(fn, args) => [ExprStmt(Call(fn, RenderValues(args, errVar), false))]
    case DefaultHandler(value) => if |names| > 0 then [Assign([names[0]], RenderValue(value, errVar), false)] else []
    case BlockHandler(body) => RenderBody(body, errVar)
  }

  method GenerateOnErrHandler(h: Handler, zeros: seq<Zero>, names: seq<string>, errVar: string) returns (code: Block)
    ensures fresh(code) && code.nodes == RenderHandler(h, zeros, names, errVar)
  {
    code := new Block();
    assert forall nodes: seq<Node> :: [] + nodes == nodes;
    match h {
      case PanicHandler(message) =>
        code.Add(PanicStmt(RenderValue(message, errVar)));
      case ErrorHandler(error) =>
        var errExpr := RenderValue(error, errVar);
        if |zeros| > 2 {
          var parts := ResultParts(zeros, errExpr);
          AddReturn(code, parts);
        } else if |names| > 0 {
          code.Add(ReturnStmt([Var(names[0]), errExpr]));
        } else {
          code.Add(ReturnStmt([errExpr]));
        }
      case ReturnHandler(vs) =>
        var values: seq<Expr> := [];
        for i := 0 to |vs|
          invariant values == RenderValues(vs, errVar)[..i]
        {
          values := values + [RenderValue(vs[i], errVar)];
        }
        assert values == RenderValues(vs, errVar);
        code.Add(ReturnStmt(values));
      case EmptyHandler =>
        code.Add(ReturnStmt([]));
      case CallHandler(fn, args) =>
        code.Add(ExprStmt(Call(fn, RenderValues(args, errVar), false)));
      case DefaultHandler(value) =>
        if |names| > 0 {
          code.Add(Assign([names[0]], RenderValue(value, errVar), false));
        }
      case BlockHandler(body) =>
        GenerateBlock(code, body, errVar);
    }
  }

  function LowerHandler(clause: Clause, zeros: seq<Zero>, names: seq<string>, errVar: string): seq<Node>
  {
    if clause.shorthandReturn then ErrorReturn(zeros, Var(errVar))
    else if clause.shorthandContinue then [ContinueStmt]
    else if clause.shorthandBreak then [BreakStmt]
    else
      var wrap := if clause.explain == "" then []
                  else [Assign([errVar], Explain(clause.explain, Var(errVar)), false)];
      match clause.handler
      case None => if clause.explain == "" then [] else wrap + ErrorReturn(zeros, Var(errVar))
      case Some(h) => wrap + [RawStmt(RenderHandler(h, zeros, names, errVar))]
  }

  method LowerOnErrHandler(clause: Clause, zeros: seq<Zero>, names: seq<string>, errVar: string) returns (body: Block)
    ensures fresh(body) && body.nodes == LowerHandler(clause, zeros, names, errVar)
  {
    body := new Block();
    if clause.shorthandReturn {
      var ret := BuildReturnNode(zeros, errVar);
      body.AddAll(ret);
      return;
    }
    if clause.shorthandContinue {
      body.Add(ContinueStmt);
      return;
    }
    if clause.shorthandBreak {
      body.Add(BreakStmt);
      return;
    }
    if clause.explain != "" {
      body.Add(Assign([errVar], Explain(clause.explain, Var(errVar)), false));
      if clause.handler.None? {
        var ret := BuildReturnNode(zeros, errVar);
        body.AddAll(ret);
        return;
      }
    }
    if clause.handler.None? {
      return;
    }
    var code := GenerateOnErrHandler(clause.handler.value, zeros, names, errVar);
    body.Add(RawStmt(code.nodes));
  }

  // ----- Chains -----

  /** What a failing step does: run the handler in place, or record the error and jump to the handler. */
  datatype Mode =
    | Inline(clause: Clause, zeros: seq<Zero>, names: seq<string>, target: string)
    | Labels(onErr: string, pipeErr: string)

  /** The body of an error check; `temp` is the variable the step's value went to, if it had one. */
  function OnFail(mode: Mode, temp: string, errVar: string): seq<Node>
  {
    match mode
    case Inline(clause, zeros, names, target) =>
      var handlerNames := if names == [] && target != "" && temp == target then [target] else names;
      LowerHandler(clause, zeros, handlerNames, errVar)
    case Labels(onErr, pipeErr) => [Assign([pipeErr], Var(errVar), false), Goto(onErr)]
  }

  predicate HasTarget(mode: Mode)
  {
    mode.Inline? && mode.target != ""
  }

  predicate HasFallible(steps: seq<Step>)
  {
    exists i :: 0 <= i < |steps| && steps[i].kind == Fallible
  }

  predicate AllErrorOnly(steps: seq<Step>)
  {
    forall i :: 0 <= i < |steps| ==> steps[i].kind == ErrorOnly
  }

  function StepComment(n: nat): Node
  {
    Comment("pipe step " + Digits(n))
  }

  /** Lowered nodes, the expression that holds the value so far, and the two counters. */
  datatype Lowered = Lowered(nodes: seq<Node>, current: Expr, counter: nat, stepNum: nat)

  function Checked(stepNum: nat, names: seq<string>, call: Expr, errVar: string, body: seq<Node>): seq<Node>
  {
    [StepComment(stepNum), Assign(names, call, true), IfErrCheck(errVar, body)]
  }

  /** One step, given what follows it. Only error-returning steps emit nodes; plain calls nest. */
  ghost function LowerStep(step: Step, rest: seq<Step>, current: Expr, counter: nat, stepNum: nat,
                           reserved: set<string>, mode: Mode): Option<Lowered>
  {
    var call := StepCall(step.target, current);
    if call.None? then None
    else match step.kind
      case Plain => Some(Lowered([], call.value, counter, stepNum))
      case Fallible =>
        var k := NextId(reserved, counter, "pipe");
        var next := if HasTarget(mode) && !HasFallible(rest) then mode.target else Numbered("pipe", k);
        var k' := NextId(reserved, k, "err");
        var errVar := Numbered("err", k');
        Some(Lowered(Checked(stepNum + 1, [next, errVar], call.value, errVar, OnFail(mode, next, errVar)),
                     Var(next), k', stepNum + 1))
      case ErrorOnly =>
        var k := NextId(reserved, counter, "err");
        var errVar := Numbered("err", k);
        Some(Lowered(Checked(stepNum + 1, [errVar], call.value, errVar, OnFail(mode, "", errVar)),
                     current, k, stepNum + 1))
  }

  /** `rest` as it stands after `nodes` have been emitted. */
  ghost function Behind(nodes: seq<Node>, rest: Option<Lowered>): Option<Lowered>
  {
    if rest.None? then None else Some(rest.value.(nodes := nodes + rest.value.nodes))
  }

  ghost function LowerSteps(steps: seq<Step>, current: Expr, counter: nat, stepNum: nat,
                            reserved: set<string>, mode: Mode): Option<Lowered>
  {
    if steps == [] then Some(Lowered([], current, counter, stepNum))
    else
      var first := LowerStep(steps[0], steps[1..], current, counter, stepNum, reserved, mode);
      if first.None? then None
      else
        Behind(first.value.nodes,
               LowerSteps(steps[1..], first.value.current, first.value.counter, first.value.stepNum, reserved, mode))
  }

  ghost function LowerBase(c: Chain, counter: nat, reserved: set<string>, mode: Mode): Lowered
  {
    if !c.baseFallible then Lowered([], c.base, counter, 0)
    else
      var k := NextId(reserved, counter, "pipe");
      var temp := if HasTarget(mode) && AllErrorOnly(c.steps) then mode.target else Numbered("pipe", k);
      var k' := NextId(reserved, k, "err");
      var errVar := Numbered("err", k');
      Lowered(Checked(1, [temp, errVar], c.base, errVar, OnFail(mode, temp, errVar)), Var(temp), k', 1)
  }

  ghost function LowerChain(c: Chain, counter: nat, reserved: set<string>, mode: Mode): Option<Lowered>
  {
    var b := LowerBase(c, counter, reserved, mode);
    Behind(b.nodes, LowerSteps(c.steps, b.current, b.counter, b.stepNum, reserved, mode))
  }

  /** The pre-scan for the step that may assign the target directly. */
  method LastErrStep(steps: seq<Step>, targetName: string) returns (lastErrStep: int)
    ensures -1 <= lastErrStep < |steps|
    ensures targetName == "" ==> lastErrStep == -1
    ensures lastErrStep != -1 ==> steps[lastErrStep].kind == Fallible
    ensures targetName != "" ==> forall j :: lastErrStep < j < |steps| ==> steps[j].kind != Fallible
  {
    lastErrStep := -1;
    if targetName != "" {
      for i := 0 to |steps|
        invariant -1 <= lastErrStep < i
        invariant lastErrStep != -1 ==> steps[lastErrStep].kind == Fallible
        invariant forall j :: lastErrStep < j < i ==> steps[j].kind != Fallible
      {
        if steps[i].kind == Fallible {
          lastErrStep := i;
        }
      }
    }
  }

  /** The lowerer; it draws its names from the generator it shares. */
  class Lowerer {
    const gen: Generator

    constructor (g: Generator)
      ensures gen == g
    {
      gen := g;
    }

    /** Comment, assignment and error check of an inline handler. */
    method AddInlineCheck(out: Block, stepNum: nat, lhs: seq<string>, call: Expr, errVar: string,
                          clause: Clause, zeros: seq<Zero>, handlerNames: seq<string>)
      modifies out
      ensures out.nodes == old(out.nodes)
           + Checked(stepNum, lhs, call, errVar, LowerHandler(clause, zeros, handlerNames, errVar))
    {
      out.Add(StepComment(stepNum));
      out.Add(Assign(lhs, call, true));
      var handlerBlock := LowerOnErrHandler(clause, zeros, handlerNames, errVar);
      out.Add(IfErrCheck(errVar, handlerBlock.nodes));
    }

    method LowerInlineBase(out: Block, c: Chain, clause: Clause, zeros: seq<Zero>, names: seq<string>,
                           targetName: string, lastErrStep: int)
        returns (current: Expr, stepNum: nat)
      requires out.nodes == []
      requires targetName != "" ==> (lastErrStep == -1 <==> !HasFallible(c.steps))
      modifies gen, out
      ensures Lowered(out.nodes, current, gen.tempCounter, stepNum)
           == LowerBase(c, old(gen.tempCounter), gen.reservedNames, Inline(clause, zeros, names, targetName))
    {
      current, stepNum := c.base, 0;
      if c.baseFallible {
        var tempVar := gen.UniqueId("pipe");
        if targetName != "" && lastErrStep == -1 {
          var hasValueStep := false;
          for i := 0 to |c.steps|
            invariant hasValueStep <==> exists j :: 0 <= j < i && c.steps[j].kind != ErrorOnly
          {
            hasValueStep := hasValueStep || c.steps[i].kind != ErrorOnly;
          }
          if !hasValueStep {
            tempVar := targetName;
          }
        }
        var errVar := gen.UniqueId("err");
        stepNum := 1;
        var handlerNames := names;
        if |handlerNames| == 0 && tempVar == targetName && targetName != "" {
          handlerNames := [targetName];
        }
        AddInlineCheck(out, stepNum, [tempVar, errVar], current, errVar, clause, zeros, handlerNames);
        current := Var(tempVar);
      }
    }

    method LowerInlineStep(out: Block, step: Step, ghost rest: seq<Step>, isLast: bool, left: Expr, num: nat,
                           clause: Clause, zeros: seq<Zero>, names: seq<string>, targetName: string)
        returns (ok: bool, current: Expr, stepNum: nat, ghost emitted: seq<Node>)
      requires targetName != "" && step.kind == Fallible ==> (isLast <==> !HasFallible(rest))
      modifies gen, out
      ensures out.nodes == old(out.nodes) + emitted
      ensures LowerStep(step, rest, left, old(gen.tempCounter), num, gen.reservedNames, Inline(clause, zeros, names, targetName))
           == if ok then Some(Lowered(emitted, current, gen.tempCounter, stepNum)) else None
    {
      emitted, current, stepNum, ok := [], left, num, true;
      var call := GeneratePipedStepCall(step.target, left);
      if call.None? {
        ok := false;
      } else if step.kind == Fallible {
        var next := gen.UniqueId("pipe");
        if targetName != "" && isLast {
          next := targetName;
        }
        var errVar := gen.UniqueId("err");
        stepNum := num + 1;
        var handlerNames := names;
        if |handlerNames| == 0 && next == targetName && targetName != "" {
          handlerNames := [targetName];
        }
        AddInlineCheck(out, stepNum, [next, errVar], call.value, errVar, clause, zeros, handlerNames);
        emitted := Checked(stepNum, [next, errVar], call.value, errVar, LowerHandler(clause, zeros, handlerNames, errVar));
        current := Var(next);
      } else if step.kind == ErrorOnly {
        var errVar := gen.UniqueId("err");
        stepNum := num + 1;
        AddInlineCheck(out, stepNum, [errVar], call.value, errVar, clause, zeros, names);
        emitted := Checked(stepNum, [errVar], call.value, errVar, LowerHandler(clause, zeros, names, errVar));
      } else {
        current := call.value;
      }
    }

    method LowerOnErrPipeChain(c: Chain, clause: Clause, zeros: seq<Zero>, names: seq<string>, targetName: string)
        returns (block: Block?, current: Expr)
      modifies gen
      ensures var l := LowerChain(c, old(gen.tempCounter), gen.reservedNames, Inline(clause, zeros, names, targetName));
        && (block == null <==> l.None?)
        && (block != null ==> fresh(block) && block.nodes == l.value.nodes && current == l.value.current
                              && gen.tempCounter == l.value.counter)
    {
      ghost var mode := Inline(clause, zeros, names, targetName);
      ghost var whole := LowerChain(c, gen.tempCounter, gen.reservedNames, mode);
      var steps := c.steps;
      var lastErrStep := LastErrStep(steps, targetName);
      var out := new Block();
      var stepNum;
      current, stepNum := LowerInlineBase(out, c, clause, zeros, names, targetName, lastErrStep);

      var i := 0;
      assert steps[0..] == steps;
      while i < |steps|
        invariant 0 <= i <= |steps|
        invariant fresh(out)
        invariant whole == Behind(out.nodes, LowerSteps(steps[i..], current, gen.tempCounter, stepNum, gen.reservedNames, mode))
      {
        ghost var before, rest := out.nodes, steps[i + 1..];
        assert steps[i..][0] == steps[i] && steps[i..][1..] == rest;
        LastFallible(steps, i, lastErrStep, targetName);
        var ok;
        ghost var emitted;
        ok, current, stepNum, emitted :=
          LowerInlineStep(out, steps[i], rest, i == lastErrStep, current, stepNum, clause, zeros, names, targetName);
        if !ok {
          return null, current;
        }
        BehindStep(before, emitted, LowerSteps(rest, current, gen.tempCounter, stepNum, gen.reservedNames, mode));
        i := i + 1;
      }
      assert steps[i..] == [] && out.nodes + [] == out.nodes;
      block := out;
    }

    /** Assignment and error check whose body records the error and jumps to the handler. */
    method AddLabelCheck(out: Block, stepNum: nat, lhs: seq<string>, call: Expr, errVar: string, onErrLabel: string, pipeErrVar: string)
      modifies out
      ensures out.nodes == old(out.nodes) + Checked(stepNum, lhs, call, errVar, OnFail(Labels(onErrLabel, pipeErrVar), "", errVar))
    {
      out.Add(StepComment(stepNum));
      out.Add(Assign(lhs, call, true));
      out.Add(IfErrCheck(errVar, [Assign([pipeErrVar], Var(errVar), false), Goto(onErrLabel)]));
    }

    method LowerLabelStep(out: Block, step: Step, ghost rest: seq<Step>, left: Expr, num: nat, onErrLabel: string, pipeErrVar: string)
        returns (ok: bool, current: Expr, stepNum: nat, ghost emitted: seq<Node>)
      modifies gen, out
      ensures out.nodes == old(out.nodes) + emitted
      ensures LowerStep(step, rest, left, old(gen.tempCounter), num, gen.reservedNames, Labels(onErrLabel, pipeErrVar))
           == if ok then Some(Lowered(emitted, current, gen.tempCounter, stepNum)) else None
    {
      emitted, current, stepNum, ok := [], left, num, true;
      var call := GeneratePipedStepCall(step.target, left);
      if call.None? {
        ok := false;
      } else if step.kind == Fallible {
        var next := gen.UniqueId("pipe");
        var errVar := gen.UniqueId("err");
        stepNum := num + 1;
        AddLabelCheck(out, stepNum, [next, errVar], call.value, errVar, onErrLabel, pipeErrVar);
        emitted := Checked(stepNum, [next, errVar], call.value, errVar, OnFail(Labels(onErrLabel, pipeErrVar), "", errVar));
        current := Var(next);
      } else if step.kind == ErrorOnly {
        var errVar := gen.UniqueId("err");
        stepNum := num + 1;
        AddLabelCheck(out, stepNum, [errVar], call.value, errVar, onErrLabel, pipeErrVar);
        emitted := Checked(stepNum, [errVar], call.value, errVar, OnFail(Labels(onErrLabel, pipeErrVar), "", errVar));
      } else {
        current := call.value;
      }
    }

    method LowerOnErrPipeChainWithLabels(c: Chain, onErrLabel: string, pipeErrVar: string)
        returns (block: Block?, current: Expr)
      modifies gen
      ensures var l := LowerChain(c, old(gen.tempCounter), gen.reservedNames, Labels(onErrLabel, pipeErrVar));
        && (block == null <==> l.None?)
        && (block != null ==> fresh(block) && block.nodes == l.value.nodes && current == l.value.current
                              && gen.tempCounter == l.value.counter)
    {
      ghost var mode := Labels(onErrLabel, pipeErrVar);
      ghost var whole := LowerChain(c, gen.tempCounter, gen.reservedNames, mode);
      var steps := c.steps;
      var out := new Block();
      var stepNum := 0;
      current := c.base;
      if c.baseFallible {
        var tempVar := gen.UniqueId("pipe");
        var errVar := gen.UniqueId("err");
        stepNum := stepNum + 1;
        AddLabelCheck(out, stepNum, [tempVar, errVar], current, errVar, onErrLabel, pipeErrVar);
        current := Var(tempVar);
      }
      assert Lowered(out.nodes, current, gen.tempCounter, stepNum) == LowerBase(c, old(gen.tempCounter), gen.reservedNames, mode);

      var i := 0;
      assert steps[0..] == steps;
      while i < |steps|
        invariant 0 <= i <= |steps|
        invariant fresh(out)
        invariant whole == Behind(out.nodes, LowerSteps(steps[i..], current, gen.tempCounter, stepNum, gen.reservedNames, mode))
      {
        ghost var before, rest := out.nodes, steps[i + 1..];
        assert steps[i..][0] == steps[i] && steps[i..][1..] == rest;
        var ok;
        ghost var emitted;
        ok, current, stepNum, emitted := LowerLabelStep(out, steps[i], rest, current, stepNum, onErrLabel, pipeErrVar);
        if !ok {
          return null, current;
        }
        BehindStep(before, emitted, LowerSteps(rest, current, gen.tempCounter, stepNum, gen.reservedNames, mode));
        i := i + 1;
      }
      assert steps[i..] == [] && out.nodes + [] == out.nodes;
      block := out;
    }
  }

  // ----- Whole statements -----

  /** The rendered text contains a parenthesis, that is, the expression calls something. */
  predicate NestsCall(e: Expr)
  {
    match e
    case Var(_) => false
    case Literal(_) => false
    case New(_, _) => true
    case Select(operand, _) => NestsCall(operand)
    case _ => true
  }

  function ModeOf(clause: Clause, zeros: seq<Zero>, form: Form): Mode
  {
    match form
    case DeclForm(x) => Inline(clause, zeros, [], x)
    case AssignForm(x) => Inline(clause, zeros, [x], "")
    case StmtForm => Inline(clause, zeros, [], "")
  }

  /** What becomes of the chain's value. */
  function FinalNodes(form: Form, current: Expr): seq<Node>
  {
    match form
    case DeclForm(x) => if current == Var(x) then [] else [Assign([x], current, true)]
    case AssignForm(x) => if x != "_" || !NestsCall(current) then [Assign([x], current, false)] else []
    case StmtForm => [Assign(["_"], current, false)]
  }

  ghost function LowerStatement(c: Chain, clause: Clause, zeros: seq<Zero>, form: Form, counter: nat, reserved: set<string>): Option<seq<Node>>
  {
    var l := LowerChain(c, counter, reserved, ModeOf(clause, zeros, form));
    if l.None? then None else Some(l.value.nodes + FinalNodes(form, l.value.current))
  }

  method GenerateOnErrVarDecl(l: Lowerer, c: Chain, clause: Clause, zeros: seq<Zero>, target: string) returns (out: Block?)
    modifies l.gen
    ensures var nodes := LowerStatement(c, clause, zeros, DeclForm(target), old(l.gen.tempCounter), l.gen.reservedNames);
      (out == null <==> nodes.None?) && (out != null ==> out.nodes == nodes.value)
  {
    var block, finalVar := l.LowerOnErrPipeChain(c, clause, zeros, [], target);
    if block != null {
      if finalVar != Var(target) {
        block.Add(Assign([target], finalVar, true));
      } else {
        assert block.nodes + [] == block.nodes;
      }
    }
    out := block;
  }

  method GenerateOnErrAssign(l: Lowerer, c: Chain, clause: Clause, zeros: seq<Zero>, target: string) returns (out: Block?)
    modifies l.gen
    ensures var nodes := LowerStatement(c, clause, zeros, AssignForm(target), old(l.gen.tempCounter), l.gen.reservedNames);
      (out == null <==> nodes.None?) && (out != null ==> out.nodes == nodes.value)
  {
    var block, finalVar := l.LowerOnErrPipeChain(c, clause, zeros, [target], "");
    if block != null {
      if target != "_" || !NestsCall(finalVar) {
        block.Add(Assign([target], finalVar, false));
      } else {
        assert block.nodes + [] == block.nodes;
      }
    }
    out := block;
  }

  method GenerateOnErrStmt(l: Lowerer, c: Chain, clause: Clause, zeros: seq<Zero>) returns (out: Block?)
    modifies l.gen
    ensures var nodes := LowerStatement(c, clause, zeros, StmtForm, old(l.gen.tempCounter), l.gen.reservedNames);
      (out == null <==> nodes.None?) && (out != null ==> out.nodes == nodes.value)
  {
    var block, finalVar := l.LowerOnErrPipeChain(c, clause, zeros, [], "");
    if block != null {
      block.Add(Assign(["_"], finalVar, false));
    }
    out := block;
  }

  // ----- Piped switch -----

  /** What is piped into the switch: a chain, or a single expression. */
  datatype Piped = ChainLeft(chain: Chain) | SingleLeft(expr: Expr, fallible: bool)

  /** A literal default can initialise the variable up front; the other handlers run after the label. */
  function ExtractDefault(clause: Clause): Option<Expr>
  {
    match clause.handler
    case Some(DefaultHandler(Mention(Literal(v)))) => Some(Literal(v))
    case Some(EmptyHandler) => Some(Literal(Nil))
    case _ => None
  }

  ghost function LowerPiped(left: Piped, counter: nat, reserved: set<string>, mode: Mode): Option<Lowered>
    requires mode.Labels?
  {
    match left
    case ChainLeft(chain) => LowerChain(chain, counter, reserved, mode)
    case SingleLeft(expr, fallible) =>
      if !fallible then Some(Lowered([], expr, counter, 0))
      else
        var k := NextId(reserved, counter, "pipe");
        var k' := NextId(reserved, k, "err");
        var temp, errVar := Numbered("pipe", k), Numbered("err", k');
        Some(Lowered([Assign([temp, errVar], expr, true), IfErrCheck(errVar, OnFail(mode, temp, errVar))], Var(temp), k', 0))
  }

  /** The nodes of `x := left |> switch ... onerr clause`; `zero` is the zero value of the switch's type. */
  function SwitchFrame(x: string, typ: string, zero: Value, clause: Clause, zeros: seq<Zero>, names: seq<string>,
                       onErr: string, end: string, pipeErr: string, inner: seq<Node>): seq<Node>
  {
    var default := ExtractDefault(clause);
    [VarDecl(pipeErr, "error", Literal(Nil)),
     VarDecl(x, typ, if default.Some? then default.value else Literal(zero)),
     ScopedBlock(inner),
     Label(onErr)]
    + (if default.Some? then [] else LowerHandler(clause, zeros, names, pipeErr))
    + [Label(end)]
  }

  function SwitchNodes(x: string, typ: string, zero: Value, clause: Clause, zeros: seq<Zero>, names: seq<string>, switchFn: string,
                       onErr: string, end: string, pipeErr: string, l: Lowered): seq<Node>
  {
    SwitchFrame(x, typ, zero, clause, zeros, names, onErr, end, pipeErr,
                l.nodes + [Assign([x], Call(switchFn, [l.current], false), false), Goto(end)])
  }

  ghost function LowerSwitch(x: string, typ: string, zero: Value, left: Piped, clause: Clause, zeros: seq<Zero>, names: seq<string>,
                             switchFn: string, counter: nat, reserved: set<string>): Option<seq<Node>>
  {
    var k1 := NextId(reserved, counter, "onerr");
    var k2 := NextId(reserved, k1, "end");
    var k3 := NextId(reserved, k2, "pipeErr");
    var onErr, end, pipeErr := Numbered("onerr", k1), Numbered("end", k2), Numbered("pipeErr", k3);
    var l := LowerPiped(left, k3, reserved, Labels(onErr, pipeErr));
    if l.None? then None
    else Some(SwitchNodes(x, typ, zero, clause, zeros, names, switchFn, onErr, end, pipeErr, l.value))
  }

  /** The scoped part before the switch: the chain, or the split of a single fallible expression. */
  method LowerPipedLeft(low: Lowerer, left: Piped, onErrLabel: string, pipeErrVar: string) returns (inner: Block?, finalPipeVar: Expr)
    modifies low.gen
    ensures var l := LowerPiped(left, old(low.gen.tempCounter), low.gen.reservedNames, Labels(onErrLabel, pipeErrVar));
      && (inner == null <==> l.None?)
      && (inner != null ==> fresh(inner) && inner.nodes == l.value.nodes && finalPipeVar == l.value.current)
  {
    match left {
      case ChainLeft(chain) =>
        inner, finalPipeVar := low.LowerOnErrPipeChainWithLabels(chain, onErrLabel, pipeErrVar);
      case SingleLeft(expr, fallible) =>
        inner := new Block();
        finalPipeVar := expr;
        if fallible {
          var tempVar := low.gen.UniqueId("pipe");
          var errVar := low.gen.UniqueId("err");
          inner.Add(Assign([tempVar, errVar], expr, true));
          inner.Add(IfErrCheck(errVar, [Assign([pipeErrVar], Var(errVar), false), Goto(onErrLabel)]));
          finalPipeVar := Var(tempVar);
        }
    }
  }

  /** The switch becomes an immediately called function literal that reads its operand once. */
  method LowerPipedSwitchVarDecl(low: Lowerer, x: string, typ: string, zero: Value, left: Piped, clause: Clause, zeros: seq<Zero>,
                                 names: seq<string>, switchFn: string) returns (block: Block?)
    modifies low.gen
    ensures var nodes := LowerSwitch(x, typ, zero, left, clause, zeros, names, switchFn, old(low.gen.tempCounter), low.gen.reservedNames);
      (block == null <==> nodes.None?) && (block != null ==> block.nodes == nodes.value)
  {
    var onErrLabel := low.gen.UniqueId("onerr");
    var endLabel := low.gen.UniqueId("end");
    var pipeErrVar := low.gen.UniqueId("pipeErr");
    var inner, finalPipeVar := LowerPipedLeft(low, left, onErrLabel, pipeErrVar);
    if inner == null {
      return null;
    }
    ghost var l := inner.nodes;
    inner.Add(Assign([x], Call(switchFn, [finalPipeVar], false), false));
    inner.Add(Goto(endLabel));
    assert inner.nodes == l + [Assign([x], Call(switchFn, [finalPipeVar], false), false), Goto(endLabel)];
    block := AssembleSwitch(x, typ, zero, clause, zeros, names, onErrLabel, endLabel, pipeErrVar, inner.nodes);
  }

  /** Declarations, the scoped part, and the handler between its two labels. */
  method AssembleSwitch(x: string, typ: string, zero: Value, clause: Clause, zeros: seq<Zero>, names: seq<string>,
                        onErrLabel: string, endLabel: string, pipeErrVar: string, inner: seq<Node>) returns (out: Block)
    ensures fresh(out)
    ensures out.nodes == SwitchFrame(x, typ, zero, clause, zeros, names, onErrLabel, endLabel, pipeErrVar, inner)
  {
    var handlerDefault := ExtractDefault(clause);
    out := new Block();
    out.Add(VarDecl(pipeErrVar, "error", Literal(Nil)));
    out.Add(VarDecl(x, typ, if handlerDefault.Some? then handlerDefault.value else Literal(zero)));
    out.Add(ScopedBlock(inner));
    out.Add(Label(onErrLabel));
    if handlerDefault.None? {
      var handlerBlock := LowerOnErrHandler(clause, zeros, names, pipeErrVar);
      out.AddAll(handlerBlock);
    }
    out.Add(Label(endLabel));
  }

  lemma BehindStep(before: seq<Node>, emitted: seq<Node>, tail: Option<Lowered>)
    ensures Behind(before, Behind(emitted, tail)) == Behind(before + emitted, tail)
  {
    if tail.Some? {
      assert before + (emitted + tail.value.nodes) == before + emitted + tail.value.nodes;
    }
  }

  /** The prescan's index and the lookahead of the specification pick the same step. */
  lemma LastFallible(steps: seq<Step>, i: nat, last: int, target: string)
    requires i < |steps| && -1 <= last < |steps|
    requires target != "" ==> (last != -1 ==> steps[last].kind == Fallible)
    requires target != "" ==> forall j :: last < j < |steps| ==> steps[j].kind != Fallible
    ensures target != "" && steps[i].kind == Fallible ==> (i == last <==> !HasFallible(steps[i + 1..]))
  {
    if target != "" && steps[i].kind == Fallible && i != last {
      assert steps[i + 1..][last - i - 1].kind == Fallible;
    }
  }
}
