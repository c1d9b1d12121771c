/**
 The lowering's target language (internal/ir/ir.go) and a machine that runs it.

 The lowerer renders expressions to Go text; here an expression is the tree that
 text denotes. Every call is answered by an oracle that sees the whole history of
 calls, so nothing is assumed about what a called function does.
 */
module Ir {
  import opened Prelude

  /** Go values. Errors are values; `Nil` is the absent error. */
  datatype Value =
    | Nil
    | Data(n: int)
    | Raised(id: int)
    | Explained(text: string, cause: Value)
    | Described(template: string, cause: Value)
    | Member(base: Value, field: string)

  datatype Expr =
    | Var(name: string)
    | Literal(value: Value)
    | New(typ: string, zero: Value)          // *new(T)
    | Select(operand: Expr, field: string)
    | Call(fn: string, args: seq<Expr>, spread: bool)
    | Explain(text: string, err: Expr)       // fmt.Errorf("text: %w", err)
    | Describe(template: string, err: Expr)  // an error text that interpolates the caught error

  datatype Event = Event(fn: string, args: seq<Value>, spread: bool)
  type Trace = seq<Event>

  /** What a called function does: hand back its results, or panic. */
  datatype Reply = Returns(values: seq<Value>) | Panics(value: Value)
  type Oracle = (Trace, Event) -> Reply

  /** Nested lexical scopes, innermost on top. */
  datatype Frames = Universe | Scope(outer: Frames, vars: map<string, Value>)

  function Lookup(f: Frames, x: string): Option<Value>
  {
    match f
    case Universe => None
    case Scope(outer, vars) => if x in vars then Some(vars[x]) else Lookup(outer, x)
  }

  /** `x = v`: updates the innermost declaration of x. */
  function Update(f: Frames, x: string, v: Value): Frames
  {
    match f
    case Universe => Universe
    case Scope(outer, vars) => if x in vars then Scope(outer, vars[x := v]) else Scope(Update(outer, x, v), vars)
  }

  /** Declares x in the innermost scope. */
  function Declare(f: Frames, x: string, v: Value): Frames
  {
    match f
    case Universe => Scope(Universe, map[x := v])
    case Scope(outer, vars) => Scope(outer, vars[x := v])
  }

  function Pop(f: Frames): Frames
  {
    if f.Scope? then f.outer else f
  }

  predicate DeclaredHere(f: Frames, x: string)
  {
    f.Scope? && x in f.vars
  }

  /** The result of evaluating an expression: its results, a panic of a callee, or no meaning in Go. */
  datatype Evaluation = Val(values: seq<Value>, trace: Trace) | Boom(value: Value, trace: Trace) | Meaningless

  /** An expression used as one value. */
  function Single(r: Evaluation): Evaluation
  {
    if r.Val? && |r.values| != 1 then Meaningless else r
  }

  function Wrap(r: Evaluation, f: Value -> Value): Evaluation
  {
    var s := Single(r);
    if s.Val? then Val([f(s.values[0])], s.trace) else s
  }

  function Ask(o: Oracle, t: Trace, event: Event): Evaluation
  {
    match o(t, event)
    case Returns(values) => Val(values, t + [event])
    case Panics(value) => Boom(value, t + [event])
  }

  function Eval(e: Expr, f: Frames, t: Trace, o: Oracle): Evaluation
    decreases e
  {
    match e
    case Var(name) => if Lookup(f, name).Some? then Val([Lookup(f, name).value], t) else Meaningless
    case Literal(value) => Val([value], t)
    case New(_, zero) => Val([zero], t)
    case Select(operand, field) => Wrap(Eval(operand, f, t, o), v => Member(v, field))
    case Explain(text, err) => Wrap(Eval(err, f, t, o), v => Explained(text, v))
    case Describe(template, err) => Wrap(Eval(err, f, t, o), v => Described(template, v))
    case Call(fn, args, spread) =>
      var r := EvalAll(args, f, t, o);
      if r.Val? then Ask(o, r.trace, Event(fn, r.values, spread)) else r
  }

  /** Operands from left to right. */
  function EvalAll(es: seq<Expr>, f: Frames, t: Trace, o: Oracle): (r: Evaluation)
    ensures r.Val? ==> |r.values| == |es|
    decreases es
  {
    if es == [] then Val([], t)
    else
      var first := Single(Eval(es[0], f, t, o));
      if !first.Val? then first
      else
        var rest := EvalAll(es[1..], f, first.trace, o);
        if rest.Val? then Val(first.values + rest.values, rest.trace) else rest
  }

  datatype Node =
    | Assign(names: seq<string>, expr: Expr, walrus: bool)
    | VarDecl(name: string, typ: string, init: Expr)  // a zero value when the source has no initialiser
    | IfErrCheck(errVar: string, body: seq<Node>)
    | Goto(dest: string)
    | Label(name: string)
    | ScopedBlock(body: seq<Node>)
    | RawStmt(code: seq<Node>)                        // pre-rendered statements, spliced in place
    | ReturnStmt(values: seq<Expr>)
    | ExprStmt(expr: Expr)
    | PanicStmt(expr: Expr)
    | ContinueStmt
    | BreakStmt
    | Comment(text: string)

  /** A block under construction; the lowerer appends to it. */
  class Block {
    var nodes: seq<Node>

    constructor ()
      ensures nodes == []
    {
      nodes := [];
    }

    method Add(n: Node)
      modifies this
      ensures nodes == old(nodes) + [n]
    {
      nodes := nodes + [n];
    }

    /** Appending no block at all is a no-op. */
    method AddAll(other: Block?)
      modifies this
      ensures nodes == old(nodes) + (if other == null then [] else old(other.nodes))
    {
      if other != null {
        nodes := nodes + other.nodes;
      }
    }
  }

  datatype State = State(frames: Frames, trace: Trace)

  /** How control leaves the statement for good. */
  datatype Exit = Returned(values: seq<Value>) | Panicked(value: Value) | Continued | Broke

  datatype Outcome =
    | Done(st: State)
    | Jump(dest: string, st: State)
    | Leave(exit: Exit, trace: Trace)
    | Stuck  // not a Go program: wrong value count, unbound name, redeclaration, backward goto

  function AssignAll(f: Frames, names: seq<string>, values: seq<Value>, walrus: bool): Frames
    requires |names| == |values|
    decreases names
  {
    if names == [] then f
    else
      var g := if names[0] == "_" then f
               else if walrus then Declare(f, names[0], values[0])
               else Update(f, names[0], values[0]);
      AssignAll(g, names[1..], values[1..], walrus)
  }

  /** `:=` needs a new name on its left; `=` needs every name in scope. */
  predicate Assignable(f: Frames, names: seq<string>, walrus: bool)
  {
    if walrus then exists x :: x in names && x != "_" && !DeclaredHere(f, x)
    else forall x :: x in names && x != "_" ==> Lookup(f, x).Some?
  }

  function AfterEval(r: Evaluation, k: (Trace, seq<Value>) -> Outcome): Outcome
  {
    match r
    case Val(values, trace) => k(trace, values)
    case Boom(value, trace) => Leave(Panicked(value), trace)
    case Meaningless => Stuck
  }

  function InnerScope(st: State): State
  {
    State(Scope(st.frames, map[]), st.trace)
  }

  function CloseScope(out: Outcome): Outcome
  {
    match out
    case Done(st) => Done(State(Pop(st.frames), st.trace))
    case Jump(dest, st) => Jump(dest, State(Pop(st.frames), st.trace))
    case _ => out
  }

  function ExecNode(n: Node, st: State, o: Oracle): Outcome
    decreases n, 0
  {
    match n
    case Assign(names, expr, walrus) =>
      AfterEval(Eval(expr, st.frames, st.trace, o), (t, values) =>
        if |values| == |names| && Assignable(st.frames, names, walrus)
        then Done(State(AssignAll(st.frames, names, values, walrus), t)) else Stuck)
    case VarDecl(name, _, init) =>
      AfterEval(Single(Eval(init, st.frames, st.trace, o)), (t, values) =>
        if |values| == 1 && !DeclaredHere(st.frames, name)
        then Done(State(Declare(st.frames, name, values[0]), t)) else Stuck)
    case IfErrCheck(errVar, body) =>
      var err := Lookup(st.frames, errVar);
      if err.None? then Stuck
      else if err.value == Nil then Done(st)
      else CloseScope(ExecBlock(body, InnerScope(st), o))
    case Goto(dest) => Jump(dest, st)
    case Label(_) => Done(st)
    case ScopedBlock(body) => CloseScope(ExecBlock(body, InnerScope(st), o))
    case RawStmt(code) => ExecBlock(code, st, o)
    case ReturnStmt(values) =>
      AfterEval(EvalAll(values, st.frames, st.trace, o), (t, vs) => Leave(Returned(vs), t))
    case ExprStmt(expr) =>
      AfterEval(Eval(expr, st.frames, st.trace, o), (t, _) => Done(State(st.frames, t)))
    case PanicStmt(expr) =>
      AfterEval(Single(Eval(expr, st.frames, st.trace, o)), (t, vs) =>
        if |vs| == 1 then Leave(Panicked(vs[0]), t) else Stuck)
    case ContinueStmt => Leave(Continued, st.trace)
    case BreakStmt => Leave(Broke, st.trace)
    case Comment(_) => Done(st)
  }

  /** The position of a label among the nodes, or their number when it is not there. */
  function FindLabel(nodes: seq<Node>, dest: string): (k: nat)
    ensures k <= |nodes|
  {
    if nodes == [] then 0
    else if nodes[0] == Label(dest) then 0
    else 1 + FindLabel(nodes[1..], dest)
  }

  /** Statements in order; a jump resumes at its label further down, or leaves the block in search of it. */
  function ExecBlock(nodes: seq<Node>, st: State, o: Oracle): Outcome
    decreases nodes, 1
  {
    if nodes == [] then Done(st)
    else
      var out := ExecNode(nodes[0], st, o);
      match out
      case Done(st') => ExecBlock(nodes[1..], st', o)
      case Jump(dest, st') =>
        var k := FindLabel(nodes[1..], dest);
        if k < |nodes| - 1 then ExecBlock(nodes[1 + k..], st', o) else out
      case _ => out
  }
}
