/**
 Pipe chains with an `onerr` clause, and what they mean: each step is called in
 turn with the value so far, and the first error goes to the handler.
 */
module Pipes {
  import opened Prelude
  import opened Ir

  /** What semantic analysis knows about a step: one value, a value and an error, or just an error. */
  datatype Kind = Plain | Fallible | ErrorOnly

  /** An extra argument of a step; operands make no calls. */
  datatype Arg = Placeholder | Operand(e: Expr)

  datatype Target =
    | CallTarget(fn: string, args: seq<Arg>, spread: bool)     // f(args), obj.m(args)
    | Shorthand(name: string, args: seq<Arg>, spread: bool)    // .m(args)
    | ShorthandField(field: string)                            // .f
    | Qualified(pkg: string, name: string)                     // pkg.Func, no parentheses
    | Bare(name: string)                                       // f, no parentheses
    | Unsupported

  datatype Step = Step(target: Target, kind: Kind)
  datatype Chain = Chain(base: Expr, baseFallible: bool, steps: seq<Step>)

  predicate StepsCanFail(steps: seq<Step>)
  {
    exists i :: 0 <= i < |steps| && steps[i].kind != Plain
  }

  predicate ChainCanFail(c: Chain)
  {
    c.baseFallible || StepsCanFail(c.steps)
  }

  lemma CanFailTail(steps: seq<Step>)
    requires steps != []
    ensures StepsCanFail(steps) <==> steps[0].kind != Plain || StepsCanFail(steps[1..])
  {
    if StepsCanFail(steps[1..]) {
      var i :| 0 <= i < |steps[1..]| && steps[1..][i].kind != Plain;
      assert steps[i + 1].kind != Plain;
    }
    if StepsCanFail(steps) {
      var i :| 0 <= i < |steps| && steps[i].kind != Plain;
      assert i > 0 ==> steps[1..][i - 1].kind != Plain;
    }
  }

  /** A value a handler mentions; `Caught` is the caught error under whatever name. */
  datatype HandlerExpr = Caught | Mention(e: Expr) | ErrorText(template: string)

  datatype HandlerStmt =
    | CallStmt(fn: string, args: seq<HandlerExpr>)
    | DeclareStmt(name: string, init: HandlerExpr)   // x := value
    | PanicWith(value: HandlerExpr)
    | ReturnWith(values: seq<HandlerExpr>)
    | ContinueLoop
    | BreakLoop

  datatype Handler =
    | PanicHandler(message: HandlerExpr)
    | ErrorHandler(error: HandlerExpr)             // onerr error "..."
    | ReturnHandler(values: seq<HandlerExpr>)      // onerr return a, b, error
    | EmptyHandler                                 // onerr empty: the zero value
    | CallHandler(fn: string, args: seq<HandlerExpr>)
    | DefaultHandler(value: HandlerExpr)           // onerr 8080
    | BlockHandler(body: seq<HandlerStmt>)

  datatype Clause = Clause(
    shorthandReturn: bool,
    shorthandContinue: bool,
    shorthandBreak: bool,
    explain: string,
    handler: Option<Handler>)

  /** The zero value of a result type: spelled as a literal, or as `*new(T)` for a named type that is no interface. */
  datatype Zero = Spelled(value: Value) | Allocated(typ: string, value: Value)

  /** Where the statement puts the chain's value. */
  datatype Form = DeclForm(target: string) | AssignForm(target: string) | StmtForm

  // ----- Operands -----

  /** The value of a call-free expression. */
  function Peek(e: Expr, f: Frames): Option<Value>
  {
    match e
    case Var(name) => Lookup(f, name)
    case Literal(value) => Some(value)
    case New(_, zero) => Some(zero)
    case Select(operand, field) =>
      var v := Peek(operand, f);
      if v.Some? then Some(Member(v.value, field)) else None
    case _ => None
  }

  function FirstPlaceholder(args: seq<Arg>): (k: nat)
    ensures k <= |args|
    ensures k < |args| ==> args[k].Placeholder?
    ensures forall i :: 0 <= i < k ==> args[i].Operand?
  {
    if args == [] || args[0].Placeholder? then 0 else 1 + FirstPlaceholder(args[1..])
  }

  function ArgValue(arg: Arg, v: Value, f: Frames): Value
  {
    match arg
    case Placeholder => v
    case Operand(e) => if Peek(e, f).Some? then Peek(e, f).value else Nil
  }

  /** What the callee receives: the piped value at the placeholder, or in front of all arguments. */
  function Received(args: seq<Arg>, v: Value, f: Frames): seq<Value>
  {
    var own := seq(|args|, i requires 0 <= i < |args| => ArgValue(args[i], v, f));
    if FirstPlaceholder(args) < |args| then own else [v] + own
  }

  function BuiltinName(name: string): string
  {
    if name == "print" then "fmt.Println" else name
  }

  // ----- Meaning of a chain -----

  /** A chain so far: its value, the first error, a panic of a callee, or no meaning. */
  datatype Run = Got(value: Value, trace: Trace) | Failed(err: Value, trace: Trace) | Panicking(value: Value, trace: Trace) | Malformed

  /** Hands the piped value to one step. */
  function Invoke(target: Target, v: Value, f: Frames, t: Trace, o: Oracle): Evaluation
  {
    match target
    case CallTarget(fn, args, spread) => Ask(o, t, Event(fn, Received(args, v, f), spread))
    case Shorthand(name, args, spread) =>
      Ask(o, t, Event("." + name, [v] + seq(|args|, i requires 0 <= i < |args| => ArgValue(args[i], v, f)), spread))
    case ShorthandField(field) => Val([Member(v, field)], t)
    case Qualified(pkg, name) => Ask(o, t, Event(pkg + "." + name, [v], false))
    case Bare(name) => Ask(o, t, Event(BuiltinName(name), [v], false))
    case Unsupported => Meaningless
  }

  /** Splits a step's results by its kind; an error-only step keeps the value it was given. */
  function Settle(kind: Kind, before: Value, r: Evaluation): Run
  {
    match r
    case Boom(value, trace) => Panicking(value, trace)
    case Meaningless => Malformed
    case Val(values, trace) =>
      match kind
      case Plain => if |values| == 1 then Got(values[0], trace) else Malformed
      case Fallible =>
        if |values| != 2 then Malformed
        else if values[1] == Nil then Got(values[0], trace) else Failed(values[1], trace)
      case ErrorOnly =>
        if |values| != 1 then Malformed
        else if values[0] == Nil then Got(before, trace) else Failed(values[0], trace)
  }

  function RunSteps(steps: seq<Step>, v: Value, f: Frames, t: Trace, o: Oracle): Run
  {
    if steps == [] then Got(v, t)
    else
      var r := Settle(steps[0].kind, v, Invoke(steps[0].target, v, f, t, o));
      if r.Got? then RunSteps(steps[1..], r.value, f, r.trace, o) else r
  }

  function RunChain(c: Chain, f: Frames, t: Trace, o: Oracle): Run
  {
    var r := Settle(if c.baseFallible then Fallible else Plain, Nil, Eval(c.base, f, t, o));
    if r.Got? then RunSteps(c.steps, r.value, f, r.trace, o) else r
  }

  // ----- Meaning of a handler -----

  function HandlerValue(h: HandlerExpr, err: Value, f: Frames): Value
  {
    match h
    case Caught => err
    case Mention(e) => if Peek(e, f).Some? then Peek(e, f).value else Nil
    case ErrorText(template) => Described(template, err)
  }

  function HandlerValues(hs: seq<HandlerExpr>, err: Value, f: Frames): seq<Value>
  {
    seq(|hs|, i requires 0 <= i < |hs| => HandlerValue(hs[i], err, f))
  }

  function ZeroValues(zeros: seq<Zero>): seq<Value>
  {
    seq(|zeros|, i requires 0 <= i < |zeros| => zeros[i].value)
  }

  /** Zero values for all results but the last, which is the error. */
  function WithZeros(zeros: seq<Zero>, err: Value): seq<Value>
  {
    if zeros == [] then [err] else ZeroValues(Front(zeros)) + [err]
  }

  function RunHandlerStmts(body: seq<HandlerStmt>, err: Value, f: Frames, t: Trace, o: Oracle): Outcome
  {
    if body == [] then Done(State(f, t))
    else
      match body[0]
      case CallStmt(fn, args) =>
        (match Ask(o, t, Event(fn, HandlerValues(args, err, f), false))
         case Val(_, t') => RunHandlerStmts(body[1..], err, f, t', o)
         case Boom(value, t') => Leave(Panicked(value), t')
         case Meaningless => Stuck)
      case DeclareStmt(name, init) =>
        if DeclaredHere(f, name) then Stuck
        else RunHandlerStmts(body[1..], err, Declare(f, name, HandlerValue(init, err, f)), t, o)
      case PanicWith(value) => Leave(Panicked(HandlerValue(value, err, f)), t)
      case ReturnWith(values) => Leave(Returned(HandlerValues(values, err, f)), t)
      case ContinueLoop => Leave(Continued, t)
      case BreakLoop => Leave(Broke, t)
  }

  /** A block handler is a scope of its own. */
  function RunHandlerBlock(body: seq<HandlerStmt>, err: Value, f: Frames, t: Trace, o: Oracle): Outcome
  {
    CloseScope(RunHandlerStmts(body, err, Scope(f, map[]), t, o))
  }

  function RunHandler(h: Handler, zeros: seq<Zero>, err: Value, f: Frames, t: Trace, o: Oracle): Outcome
  {
    match h
    case PanicHandler(message) => Leave(Panicked(HandlerValue(message, err, f)), t)
    case ErrorHandler(error) => Leave(Returned(WithZeros(zeros, HandlerValue(error, err, f))), t)
    case ReturnHandler(values) => Leave(Returned(HandlerValues(values, err, f)), t)
    case CallHandler(fn, args) => RunHandlerBlock([CallStmt(fn, args)], err, f, t, o)
    case EmptyHandler => Done(State(f, t))
    case DefaultHandler(_) => Done(State(f, t))
    case BlockHandler(body) => RunHandlerBlock(body, err, f, t, o)
  }

  /** Runs the clause for a caught error, in a function whose results have the given zero values. */
  function Handle(clause: Clause, zeros: seq<Zero>, caught: Value, f: Frames, t: Trace, o: Oracle): Outcome
  {
    var err := if clause.explain != "" then Explained(clause.explain, caught) else caught;
    if clause.shorthandReturn then Leave(Returned(WithZeros(zeros, caught)), t)
    else if clause.shorthandContinue then Leave(Continued, t)
    else if clause.shorthandBreak then Leave(Broke, t)
    else if clause.handler.Some? then RunHandler(clause.handler.value, zeros, err, f, t, o)
    else if clause.explain != "" then Leave(Returned(WithZeros(zeros, err)), t)
    else Done(State(f, t))
  }

  /** `onerr empty`: the zero value as a default. */
  predicate GivesEmpty(clause: Clause)
  {
    && !clause.shorthandReturn && !clause.shorthandContinue && !clause.shorthandBreak
    && clause.handler == Some(EmptyHandler)
  }

  predicate Leaving(s: HandlerStmt)
  {
    !s.CallStmt? && !s.DeclareStmt?
  }

  /** The clause always leaves the statement: return, panic, continue or break. */
  predicate LeavesControl(clause: Clause)
  {
    || clause.shorthandReturn || clause.shorthandContinue || clause.shorthandBreak
    || match clause.handler
       case None => clause.explain != ""
       case Some(BlockHandler(body)) => exists i :: 0 <= i < |body| && Leaving(body[i])
       case Some(h) => h.PanicHandler? || h.ErrorHandler? || h.ReturnHandler?
  }

  /** The meaning of `x := chain onerr clause`, `x = chain onerr clause` or `chain onerr clause`. */
  function RunStatement(c: Chain, clause: Clause, zeros: seq<Zero>, form: Form, f: Frames, t: Trace, o: Oracle): Outcome
  {
    match RunChain(c, f, t, o)
    case Got(v, t') =>
      (match form
       case DeclForm(x) => Done(State(Declare(f, x, v), t'))
       case AssignForm(x) => Done(State(Update(f, x, v), t'))
       case StmtForm => Done(State(f, t')))
    case Failed(err, t') => Handle(clause, zeros, err, f, t', o)
    case Panicking(p, t') => Leave(Panicked(p), t')
    case Malformed => Stuck
  }
}
