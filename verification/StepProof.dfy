/** One lowered step: the rendered call hands the callee exactly what the chain's meaning hands it. */
module StepProof {
  import opened Prelude
  import opened Ir
  import opened Pipes
  import opened Lowering
  import opened Machine

  /** Targets whose rendering passes the piped value as the chain's meaning says. */
  predicate RendersFaithfully(target: Target)
  {
    target.CallTarget? || target.ShorthandField? || target.Bare?
  }

  ghost predicate OperandInScope(e: Expr, f: Frames, user: set<string>)
  {
    Vars(e) <= user && Peek(e, f).Some?
  }

  /** At most one placeholder, and every operand is a call-free expression over user variables. */
  ghost predicate TargetInScope(target: Target, f: Frames, user: set<string>)
  {
    match target
    case CallTarget(_, args, _) => forall i :: 0 <= i < |args| && i != FirstPlaceholder(args) ==>
      args[i].Operand? && OperandInScope(args[i].e, f, user)
    case Shorthand(_, args, _) => forall i :: 0 <= i < |args| ==>
      args[i].Operand? && OperandInScope(args[i].e, f, user)
    case _ => true
  }

  lemma {:induction false} PeekAgree(e: Expr, f: Frames, g: Frames)
    requires AgreeOn(f, g, Vars(e))
    ensures Peek(e, f) == Peek(e, g)
  {
    match e
    case Var(_) =>
    case Select(operand, _) => PeekAgree(operand, f, g);
    case _ =>
  }

  lemma {:induction false} PeekEval(e: Expr, f: Frames, t: Trace, o: Oracle)
    requires Peek(e, f).Some?
    ensures Eval(e, f, t, o) == Val([Peek(e, f).value], t) && Calls(e) == {}
  {
    match e
    case Var(_) =>
    case Literal(_) =>
    case Select(operand, _) => PeekEval(operand, f, t, o);
    case _ =>
  }

  function PeekOr(e: Expr, f: Frames): Value
  {
    if Peek(e, f).Some? then Peek(e, f).value else Nil
  }

  function PlacedValues(es: seq<Expr>, k: int, v: Value, f: Frames): seq<Value>
  {
    seq(|es|, i requires 0 <= i < |es| => if i == k then v else PeekOr(es[i], f))
  }

  ghost predicate OthersPeek(es: seq<Expr>, k: int, f: Frames)
  {
    forall i :: 0 <= i < |es| && i != k ==> Peek(es[i], f).Some?
  }

  lemma {:induction false} EvalOperands(es: seq<Expr>, f: Frames, t: Trace, o: Oracle)
    requires OthersPeek(es, -1, f)
    ensures EvalAll(es, f, t, o) == Val(PlacedValues(es, -1, Nil, f), t) && CallsOfAll(es) == {}
  {
    if es != [] {
      PeekEval(es[0], f, t, o);
      EvalOperands(es[1..], f, t, o);
      assert PlacedValues(es, -1, Nil, f) == [PeekOr(es[0], f)] + PlacedValues(es[1..], -1, Nil, f);
    }
  }

  /** An argument list evaluates to its operands around the one argument that may call. */
  lemma {:induction false} EvalPlaced(es: seq<Expr>, k: nat, f: Frames, t: Trace, o: Oracle)
    requires k < |es| && OthersPeek(es, k, f)
    ensures var r := Single(Eval(es[k], f, t, o));
      EvalAll(es, f, t, o) == if r.Val? then Val(PlacedValues(es, k, r.values[0], f), r.trace) else r
    ensures CallsOfAll(es) == Calls(es[k])
  {
    var rest := es[1..];
    var r := Single(Eval(es[k], f, t, o));
    if k == 0 {
      assert OthersPeek(rest, -1, f);
      if r.Val? {
        EvalOperands(rest, f, r.trace, o);
        assert PlacedValues(es, 0, r.values[0], f) == r.values + PlacedValues(rest, -1, Nil, f);
      } else {
        EvalOperands(rest, f, t, o);
      }
    } else {
      PeekEval(es[0], f, t, o);
      EvalPlaced(rest, k - 1, f, t, o);
      if r.Val? {
        assert PlacedValues(es, k, r.values[0], f) == [PeekOr(es[0], f)] + PlacedValues(rest, k - 1, r.values[0], f);
      }
    }
  }

  lemma {:induction false} VarsOfAllBound(es: seq<Expr>, bound: set<string>)
    requires forall i :: 0 <= i < |es| ==> Vars(es[i]) <= bound
    ensures VarsOfAll(es) <= bound
  {
    if es != [] {
      VarsOfAllBound(es[1..], bound);
    }
  }

  lemma {:induction false} VarsOfOne(es: seq<Expr>, k: nat)
    requires k < |es|
    ensures Vars(es[k]) <= VarsOfAll(es)
  {
    if k > 0 {
      VarsOfOne(es[1..], k - 1);
    }
  }

  /** The functions a step adds to the expression that holds the value so far. */
  function CalleeOf(target: Target): set<string>
  {
    match target
    case CallTarget(fn, _, _) => {fn}
    case Bare(name) => {BuiltinName(name)}
    case _ => {}
  }

  /** The argument list of a call, evaluated: what the callee receives. */
  lemma PipeArgsMeaning(args: seq<Arg>, left: Expr, f: Frames, g: Frames, user: set<string>, t: Trace, o: Oracle)
    requires TargetInScope(CallTarget("", args, false), g, user) && AgreeOn(f, g, user)
    ensures var es := PipeArgs(left, args); var r := Single(Eval(left, f, t, o));
      && EvalAll(es, f, t, o) == (if r.Val? then Val(Received(args, r.values[0], g), r.trace) else r)
      && CallsOfAll(es) == Calls(left)
      && Vars(left) <= VarsOfAll(es) <= Vars(left) + user
  {
    hide Visible, Respects, EvalAll, Eval, Received, PlacedValues, FirstPlaceholder;
    var es := PipeArgs(left, args);
    var p := FirstPlaceholder(args);
    var k := if p < |args| then p else 0;
    forall i | 0 <= i < |args| && i != p
      ensures Peek(args[i].e, f) == Peek(args[i].e, g) && Peek(args[i].e, f).Some? && Vars(args[i].e) <= user
    {
      PeekAgree(args[i].e, f, g);
    }
    assert es[k] == left;
    forall i | 0 <= i < |es| && i != k
      ensures Peek(es[i], f).Some? && Vars(es[i]) <= user
    {
      assert es[i] == if p < |args| then args[i].e else args[i - 1].e;
    }
    EvalPlaced(es, k, f, t, o);
    VarsOfAllBound(es, Vars(left) + user);
    VarsOfOne(es, k);
    var r := Single(Eval(left, f, t, o));
    if r.Val? {
      PlacedIsReceived(args, left, k, r.values[0], f, g);
    }
  }

  /** Placed among the evaluated arguments, the piped value makes up what the callee receives. */
  lemma PlacedIsReceived(args: seq<Arg>, left: Expr, k: nat, v: Value, f: Frames, g: Frames)
    requires var p := FirstPlaceholder(args); k == if p < |args| then p else 0
    requires forall i :: 0 <= i < |args| && i != FirstPlaceholder(args) ==>
      args[i].Operand? && Peek(args[i].e, f) == Peek(args[i].e, g) && Peek(args[i].e, f).Some?
    requires var es := PipeArgs(left, args); k < |es| && OthersPeek(es, k, f)
    ensures PlacedValues(PipeArgs(left, args), k, v, f) == Received(args, v, g)
  {
    var es := PipeArgs(left, args);
    var placed, got := PlacedValues(es, k, v, f), Received(args, v, g);
    var p := FirstPlaceholder(args);
    forall i | 0 <= i < |es|
      ensures placed[i] == got[i]
    {
      if i != k {
        assert es[i] == if p < |args| then args[i].e else args[i - 1].e;
      }
    }
  }

  /**
   Rendered call against meaning: whatever `left` evaluates to is handed to the
   callee, in the right place and after `left`'s own calls.
   */
  lemma StepCallMeaning(target: Target, left: Expr, f: Frames, g: Frames, user: set<string>, t: Trace, o: Oracle)
    requires RendersFaithfully(target) && TargetInScope(target, g, user) && AgreeOn(f, g, user)
    ensures StepCall(target, left).Some?
    ensures var call := StepCall(target, left).value; var r := Single(Eval(left, f, t, o));
      && Eval(call, f, t, o) == (if r.Val? then Invoke(target, r.values[0], g, r.trace, o) else r)
      && Calls(call) == Calls(left) + CalleeOf(target)
      && Vars(left) <= Vars(call) <= Vars(left) + user
  {
    match target
    case CallTarget(fn, args, spread) =>
      PipeArgsMeaning(args, left, f, g, user, t, o);
    case Bare(name) => BareCallMeaning(name, left, f, g, user, t, o);
    case _ =>
  }

  lemma BareCallMeaning(name: string, left: Expr, f: Frames, g: Frames, user: set<string>, t: Trace, o: Oracle)
    requires AgreeOn(f, g, user)
    ensures var target := Bare(name); StepCall(target, left).Some?
    ensures var target := Bare(name); var call := StepCall(target, left).value; var r := Single(Eval(left, f, t, o));
      && Eval(call, f, t, o) == (if r.Val? then Invoke(target, r.values[0], g, r.trace, o) else r)
      && Calls(call) == Calls(left) + CalleeOf(target)
      && Vars(left) <= Vars(call) <= Vars(left) + user
  {
    PipeArgsMeaning([], left, f, g, user, t, o);
    assert PipeArgs(left, []) == [left];
    var r := Single(Eval(left, f, t, o));
    if r.Val? {
      assert Received([], r.values[0], g) == [r.values[0]];
    }
  }

  /** The rendering of a step means what the step means, for every value, history and oracle. */
  ghost predicate StepCorrect(target: Target, f: Frames)
  {
    StepCall(target, Var("piped")).Some? &&
    forall v, t, o :: Eval(StepCall(target, Var("piped")).value, Declare(f, "piped", v), t, o) == Invoke(target, v, f, t, o)
  }

  /**
   Exactly the faithful targets are rendered correctly: a bare `pkg.Func` never
   calls, and a shorthand method receives the piped value once too often.
   */
  lemma StepCorrectExactly(target: Target, f: Frames, user: set<string>)
    requires TargetInScope(target, f, user) && f.Scope? && "piped" !in user
    ensures StepCorrect(target, f) <==> RendersFaithfully(target)
  {
    var call := StepCall(target, Var("piped"));
    if RendersFaithfully(target) {
      forall v, t, o
        ensures Eval(StepCall(target, Var("piped")).value, Declare(f, "piped", v), t, o) == Invoke(target, v, f, t, o)
      {
        StepCallMeaning(target, Var("piped"), Declare(f, "piped", v), f, user, t, o);
      }
      StepCallMeaning(target, Var("piped"), f, f, user, [], (_, _) => Returns([]));
    } else if call.Some? {
      var o: Oracle := (_, _) => Returns([]);
      var g := Declare(f, "piped", Nil);
      if target.Qualified? {
        assert Eval(call.value, g, [], o) != Invoke(target, Nil, f, [], o);
      } else {
        // One argument too many reaches the callee.
        var es := [Var("piped")] + PipeArgs(Var("piped"), target.args);
        assert |es| > 1 + |target.args|;
        var r := EvalAll(es, g, [], o);
        if r.Val? {
          var event := Event("." + target.name, r.values, target.spread);
          assert Eval(call.value, g, [], o).trace == r.trace + [event];
          assert |Last(Eval(call.value, g, [], o).trace).args| > 1 + |target.args|;
          assert |Last(Invoke(target, Nil, f, [], o).trace).args| == 1 + |target.args|;
        }
        assert Eval(call.value, g, [], o) != Invoke(target, Nil, f, [], o);
      }
    }
  }
}
