/**
 A block handler that declares a variable under the name of its own error: exactly
 when it leaves as it means all the same.
 */
module HidingProof {
  import opened Prelude
  import opened Ir
  import opened Pipes
  import opened Lowering
  import opened Machine
  import opened StepProof
  import opened HandlerProof

  // ----- The condition -----

  /** The value is the caught error itself, under its own name or that of a copy. */
  predicate IsError(h: HandlerExpr, copies: set<string>)
  {
    h.Caught? || (h.Mention? && h.e.Var? && h.e.name in copies)
  }

  /** The value is another one when the error is: it mentions the error, or a variable that is wrong already. */
  predicate Affected(h: HandlerExpr, wrong: set<string>)
  {
    h.Caught? || h.ErrorText? || (h.Mention? && Vars(h.e) * wrong != {})
  }

  predicate AnyAffected(hs: seq<HandlerExpr>, wrong: set<string>)
  {
    exists i :: 0 <= i < |hs| && Affected(hs[i], wrong)
  }

  /** A wrong error reaches a call, a panic or a returned value. */
  predicate Shows(body: seq<HandlerStmt>, wrong: set<string>)
  {
    body != [] &&
    match body[0]
    case CallStmt(_, args) => AnyAffected(args, wrong) || Shows(body[1..], wrong)
    case DeclareStmt(name, init) => Shows(body[1..], if Affected(init, wrong) then wrong + {name} else wrong)
    case PanicWith(value) => Affected(value, wrong)
    case ReturnWith(values) => AnyAffected(values, wrong)
    case _ => false
  }

  /** The block declares the error's variable anew, as something else than the error, and that shows. */
  predicate Hides(body: seq<HandlerStmt>, errVar: string, copies: set<string>)
  {
    body != [] &&
    match body[0]
    case CallStmt(_, _) => Hides(body[1..], errVar, copies)
    case DeclareStmt(name, init) =>
      if IsError(init, copies) then Hides(body[1..], errVar, copies + {name})
      else if name == errVar then Shows(body[1..], {})
      else Hides(body[1..], errVar, copies - {name})
    case _ => false
  }

  predicate HidesError(clause: Clause, errVar: string)
  {
    RunsBlock(clause) && Hides(clause.handler.value.body, errVar, {})
  }

  predicate LeavesSomewhere(body: seq<HandlerStmt>)
  {
    exists i :: 0 <= i < |body| && Leaving(body[i])
  }

  lemma LeavesLater(body: seq<HandlerStmt>)
    requires LeavesSomewhere(body) && !Leaving(body[0])
    ensures LeavesSomewhere(body[1..])
  {
    var i :| 0 <= i < |body| && Leaving(body[i]);
    assert body[1..][i - 1] == body[i];
  }

  // ----- Two runs of a block -----

  /** The same variables, with the same values but for the wrong ones. */
  ghost predicate Alike(f: Frames, g: Frames, user: set<string>, wrong: set<string>)
  {
    && AgreeOn(f, g, user - wrong) && (forall x :: DeclaredHere(f, x) <==> DeclaredHere(g, x))
    && (forall x :: x in wrong ==> DeclaredHere(f, x))
  }

  lemma {:induction false} ValueSame(h: HandlerExpr, e1: Value, e2: Value, f: Frames, g: Frames, user: set<string>, wrong: set<string>)
    requires ValueInScope(h, f, user) && Alike(f, g, user, wrong) && (Affected(h, wrong) ==> e1 == e2 && wrong == {})
    ensures HandlerValue(h, e1, f) == HandlerValue(h, e2, g)
  {
    if h.Mention? {
      assert AgreeOn(f, g, Vars(h.e));
      PeekAgree(h.e, f, g);
    }
  }

  lemma ValuesSame(hs: seq<HandlerExpr>, e1: Value, e2: Value, f: Frames, g: Frames, user: set<string>, wrong: set<string>)
    requires ValuesInScope(hs, f, user) && Alike(f, g, user, wrong) && !AnyAffected(hs, wrong)
    ensures HandlerValues(hs, e1, f) == HandlerValues(hs, e2, g)
  {
    forall i | 0 <= i < |hs|
      ensures HandlerValue(hs[i], e1, f) == HandlerValue(hs[i], e2, g)
    {
      assert ValueInScope(hs[i], f, user) && !Affected(hs[i], wrong);
      ValueSame(hs[i], e1, e2, f, g, user, wrong);
    }
  }

  /** What does not show does not matter. */
  lemma {:induction false} NotShown(body: seq<HandlerStmt>, e1: Value, e2: Value, f: Frames, g: Frames, user: set<string>, wrong: set<string>,
                                    t: Trace, o: Oracle)
    requires f.Scope? && g.Scope? && BodyInScope(body, f, user) && BodyInScope(body, g, user) && Alike(f, g, user, wrong)
    requires LeavesSomewhere(body) && !Shows(body, wrong)
    ensures RunHandlerStmts(body, e1, f, t, o) == RunHandlerStmts(body, e2, g, t, o)
    decreases |body|
  {
    var s, rest := body[0], body[1..];
    match s
    case CallStmt(fn, args) =>
      ValuesSame(args, e1, e2, f, g, user, wrong);
      var r := Ask(o, t, Event(fn, HandlerValues(args, e1, f), false));
      LeavesLater(body);
      if r.Val? {
        NotShown(rest, e1, e2, f, g, user, wrong, r.trace, o);
      }
    case DeclareStmt(name, init) =>
      var v, w := HandlerValue(init, e1, f), HandlerValue(init, e2, g);
      var wrong' := if Affected(init, wrong) then wrong + {name} else wrong;
      LeavesLater(body);
      NextAlike(init, e1, e2, f, g, user, wrong, name);
      NotShown(rest, e1, e2, Declare(f, name, v), Declare(g, name, w), user + {name}, wrong', t, o);
    case PanicWith(value) => ValueSame(value, e1, e2, f, g, user, wrong);
    case ReturnWith(values) => ValuesSame(values, e1, e2, f, g, user, wrong);
    case _ =>
  }

  lemma LookupDeclare(f: Frames, x: string, v: Value, y: string)
    requires f.Scope?
    ensures Lookup(Declare(f, x, v), y) == if x == y then Some(v) else Lookup(f, y)
  {
  }

  lemma NextAlike(init: HandlerExpr, e1: Value, e2: Value, f: Frames, g: Frames, user: set<string>, wrong: set<string>, name: string)
    requires f.Scope? && g.Scope? && ValueInScope(init, f, user) && Alike(f, g, user, wrong) && !DeclaredHere(f, name)
    ensures var wrong' := if Affected(init, wrong) then wrong + {name} else wrong;
      Alike(Declare(f, name, HandlerValue(init, e1, f)), Declare(g, name, HandlerValue(init, e2, g)), user + {name}, wrong')
  {
    if !Affected(init, wrong) {
      ValueSame(init, e1, e2, f, g, user, wrong);
    }
    var f', g' := Declare(f, name, HandlerValue(init, e1, f)), Declare(g, name, HandlerValue(init, e2, g));
    forall x
      ensures DeclaredHere(f', x) <==> DeclaredHere(g', x)
    {
      assert DeclaredHere(f, x) <==> DeclaredHere(g, x);
    }
    forall x | x in user && x !in wrong && x != name
      ensures Lookup(f', x) == Lookup(g', x)
    {
      LookupDeclare(f, name, HandlerValue(init, e1, f), x);
      LookupDeclare(g, name, HandlerValue(init, e2, g), x);
    }
  }

  /** Wrong variables differ. */
  ghost predicate Differ(f: Frames, g: Frames, wrong: set<string>)
  {
    forall x :: x in wrong ==> Lookup(f, x).Some? && Lookup(g, x).Some? && Lookup(f, x) != Lookup(g, x)
  }

  lemma {:induction false} PeekDiffers(e: Expr, f: Frames, g: Frames, wrong: set<string>)
    requires Differ(f, g, wrong) && Vars(e) * wrong != {} && Peek(e, f).Some? && Peek(e, g).Some?
    ensures Peek(e, f) != Peek(e, g)
  {
    if e.Select? {
      PeekDiffers(e.operand, f, g, wrong);
    }
  }

  lemma ValueDiffers(h: HandlerExpr, e1: Value, e2: Value, f: Frames, g: Frames, user: set<string>, wrong: set<string>)
    requires ValueInScope(h, f, user) && ValueInScope(h, g, user) && Differ(f, g, wrong) && e1 != e2 && Affected(h, wrong)
    ensures HandlerValue(h, e1, f) != HandlerValue(h, e2, g)
  {
    if h.Mention? {
      PeekDiffers(h.e, f, g, wrong);
    }
  }

  lemma ValuesDiffer(hs: seq<HandlerExpr>, e1: Value, e2: Value, f: Frames, g: Frames, user: set<string>, wrong: set<string>)
    requires ValuesInScope(hs, f, user) && ValuesInScope(hs, g, user) && Differ(f, g, wrong) && e1 != e2 && AnyAffected(hs, wrong)
    ensures HandlerValues(hs, e1, f) != HandlerValues(hs, e2, g)
  {
    var i :| 0 <= i < |hs| && Affected(hs[i], wrong);
    assert ValueInScope(hs[i], f, user) && ValueInScope(hs[i], g, user);
    ValueDiffers(hs[i], e1, e2, f, g, user, wrong);
    assert HandlerValues(hs, e1, f)[i] != HandlerValues(hs, e2, g)[i];
  }

  /** From a point on, every call returns. */
  ghost predicate Returning(o: Oracle, t: Trace)
  {
    forall u: Trace, event: Event :: |t| <= |u| ==> o(u, event).Returns?
  }

  /** A block whose calls return leaves, with its calls behind those made before. */
  lemma {:induction false} BlockLeaves(body: seq<HandlerStmt>, err: Value, f: Frames, user: set<string>, t: Trace, o: Oracle)
    requires f.Scope? && BodyInScope(body, f, user) && LeavesSomewhere(body) && Returning(o, t)
    ensures var out := RunHandlerStmts(body, err, f, t, o); out.Leave? && t <= out.trace
    decreases |body|
  {
    var s, rest := body[0], body[1..];
    if !Leaving(s) {
      LeavesLater(body);
      match s
      case CallStmt(fn, args) =>
        var event := Event(fn, HandlerValues(args, err, f), false);
        assert o(t, event).Returns?;
        BlockLeaves(rest, err, f, user, t + [event], o);
      case DeclareStmt(name, init) =>
        BlockLeaves(rest, err, Declare(f, name, HandlerValue(init, err, f)), user + {name}, t, o);
    }
  }

  /** What shows makes the runs differ as soon as calls return. */
  lemma {:induction false} ShownDiffers(body: seq<HandlerStmt>, e1: Value, e2: Value, f: Frames, g: Frames, user: set<string>, wrong: set<string>,
                                        t: Trace, o: Oracle)
    requires f.Scope? && g.Scope? && BodyInScope(body, f, user) && BodyInScope(body, g, user) && Alike(f, g, user, wrong)
    requires LeavesSomewhere(body) && Shows(body, wrong) && Differ(f, g, wrong) && e1 != e2 && Returning(o, t)
    ensures RunHandlerStmts(body, e1, f, t, o) != RunHandlerStmts(body, e2, g, t, o)
    decreases |body|
  {
    var s, rest := body[0], body[1..];
    match s
    case CallStmt(fn, args) =>
      LeavesLater(body);
      CallDiffers(body, e1, e2, f, g, user, wrong, t, o);
    case DeclareStmt(name, init) =>
      var v, w := HandlerValue(init, e1, f), HandlerValue(init, e2, g);
      LeavesLater(body);
      NextAlike(init, e1, e2, f, g, user, wrong, name);
      NextDiffer(init, e1, e2, f, g, user, wrong, name);
      ShownDiffers(rest, e1, e2, Declare(f, name, v), Declare(g, name, w), user + {name}, if Affected(init, wrong) then wrong + {name} else wrong, t, o);
    case PanicWith(value) => ValueDiffers(value, e1, e2, f, g, user, wrong);
    case ReturnWith(values) => ValuesDiffer(values, e1, e2, f, g, user, wrong);
    case _ =>
  }

  lemma {:induction false} CallDiffers(body: seq<HandlerStmt>, e1: Value, e2: Value, f: Frames, g: Frames, user: set<string>, wrong: set<string>,
                                       t: Trace, o: Oracle)
    requires f.Scope? && g.Scope? && BodyInScope(body, f, user) && BodyInScope(body, g, user) && Alike(f, g, user, wrong)
    requires LeavesSomewhere(body) && Shows(body, wrong) && Differ(f, g, wrong) && e1 != e2 && Returning(o, t)
    requires body[0].CallStmt? && LeavesSomewhere(body[1..])
    ensures RunHandlerStmts(body, e1, f, t, o) != RunHandlerStmts(body, e2, g, t, o)
    decreases |body|, 0
  {
    var s, rest := body[0], body[1..];
    var a, b := HandlerValues(s.args, e1, f), HandlerValues(s.args, e2, g);
    var u, u' := t + [Event(s.fn, a, false)], t + [Event(s.fn, b, false)];
    assert o(t, Event(s.fn, a, false)).Returns? && o(t, Event(s.fn, b, false)).Returns?;
    BlockLeaves(rest, e1, f, user, u, o);
    BlockLeaves(rest, e2, g, user, u', o);
    if AnyAffected(s.args, wrong) {
      ValuesDiffer(s.args, e1, e2, f, g, user, wrong);
      assert u[|t|] != u'[|t|];
    } else {
      ValuesSame(s.args, e1, e2, f, g, user, wrong);
      ShownDiffers(rest, e1, e2, f, g, user, wrong, u, o);
    }
  }

  lemma NextDiffer(init: HandlerExpr, e1: Value, e2: Value, f: Frames, g: Frames, user: set<string>, wrong: set<string>, name: string)
    requires f.Scope? && g.Scope? && ValueInScope(init, f, user) && ValueInScope(init, g, user) && Differ(f, g, wrong) && e1 != e2
    requires Alike(f, g, user, wrong) && !DeclaredHere(f, name)
    ensures Differ(Declare(f, name, HandlerValue(init, e1, f)), Declare(g, name, HandlerValue(init, e2, g)), if Affected(init, wrong) then wrong + {name} else wrong)
  {
    if Affected(init, wrong) {
      ValueDiffers(init, e1, e2, f, g, user, wrong);
    }
  }

  // ----- The lowered block against its meaning -----

  /** Behind the last declaration of that name the lowered block takes one value for the error. */
  lemma {:induction false} NoLongerHides(body: seq<HandlerStmt>, errVar: string, err: Value, f: Frames, t: Trace, o: Oracle)
    requires errVar !in DeclaredIn(body)
    ensures LoweredStmts(body, errVar, err, f, t, o) == RunHandlerStmts(body, err, f, t, o)
    decreases |body|
  {
    if body != [] {
      match body[0]
      case CallStmt(fn, args) =>
        var r := Ask(o, t, Event(fn, HandlerValues(args, err, f), false));
        if r.Val? {
          NoLongerHides(body[1..], errVar, err, f, r.trace, o);
        }
      case DeclareStmt(name, init) =>
        if !DeclaredHere(f, name) {
          NoLongerHides(body[1..], errVar, err, Declare(f, name, HandlerValue(init, err, f)), t, o);
        }
      case _ =>
    }
  }

  /** Copies hold the error. */
  ghost predicate Copies(copies: set<string>, err: Value, f: Frames)
  {
    forall x :: x in copies ==> Lookup(f, x) == Some(err)
  }

  lemma ErrorItself(h: HandlerExpr, err: Value, f: Frames, copies: set<string>)
    requires IsError(h, copies) && Copies(copies, err, f)
    ensures HandlerValue(h, err, f) == err
  {
  }

  lemma AlikeItself(f: Frames, user: set<string>)
    ensures Alike(f, f, user, {})
  {
  }

  lemma {:induction false} NotHidden(body: seq<HandlerStmt>, errVar: string, err: Value, f: Frames, user: set<string>, copies: set<string>,
                                     t: Trace, o: Oracle)
    requires f.Scope? && BodyInScope(body, f, user) && LeavesSomewhere(body) && !Hides(body, errVar, copies) && Copies(copies, err, f)
    ensures LoweredStmts(body, errVar, err, f, t, o) == RunHandlerStmts(body, err, f, t, o)
    decreases |body|
  {
    var s, rest := body[0], body[1..];
    if !Leaving(s) {
      LeavesLater(body);
      match s
      case CallStmt(fn, args) =>
        var r := Ask(o, t, Event(fn, HandlerValues(args, err, f), false));
        if r.Val? {
          NotHidden(rest, errVar, err, f, user, copies, r.trace, o);
        }
      case DeclareStmt(name, init) =>
        var v := HandlerValue(init, err, f);
        var g := Declare(f, name, v);
        if IsError(init, copies) {
          ErrorItself(init, err, f, copies);
          NotHidden(rest, errVar, err, g, user + {name}, copies + {name}, t, o);
        } else if name == errVar {
          NoLongerHides(rest, errVar, v, g, t, o);
          AlikeItself(g, user + {name});
          NotShown(rest, v, err, g, g, user + {name}, {}, t, o);
        } else {
          NotHidden(rest, errVar, err, g, user + {name}, copies - {name}, t, o);
        }
    }
  }

  // ----- An error like no other value -----

  /** The identities of the errors a value is made of. */
  function Ids(v: Value): set<int>
  {
    match v
    case Raised(id) => {id}
    case Explained(_, cause) => Ids(cause)
    case Described(_, cause) => Ids(cause)
    case Member(base, _) => Ids(base)
    case _ => {}
  }

  function Height(v: Value): nat
  {
    match v
    case Explained(_, cause) => 1 + Height(cause)
    case Described(_, cause) => 1 + Height(cause)
    case Member(base, _) => 1 + Height(base)
    case _ => 0
  }

  /** Made of other errors, or built around this one: in either case another value. */
  predicate Apart(v: Value, err: Value, k: int)
  {
    k !in Ids(v) || Height(v) > Height(err)
  }

  lemma ApartDiffers(v: Value, err: Value, k: int)
    requires Apart(v, err, k) && k in Ids(err)
    ensures v != err
  {
  }

  function ExprIds(e: Expr): set<int>
  {
    match e
    case Literal(value) => Ids(value)
    case New(_, zero) => Ids(zero)
    case Select(operand, _) => ExprIds(operand)
    case _ => {}
  }

  function ValueIds(h: HandlerExpr): set<int>
  {
    if h.Mention? then ExprIds(h.e) else {}
  }

  function BodyIds(body: seq<HandlerStmt>): set<int>
  {
    if body == [] then {}
    else (if body[0].DeclareStmt? then ValueIds(body[0].init) else {}) + BodyIds(body[1..])
  }

  function UserIds(user: set<string>, f: Frames): set<int>
  {
    set x, i | x in user && Lookup(f, x).Some? && i in Ids(Lookup(f, x).value) :: i
  }

  /** No variable but a copy holds the error. */
  ghost predicate OthersApart(user: set<string>, copies: set<string>, f: Frames, err: Value, k: int)
  {
    forall x :: x in user && x !in copies && Lookup(f, x).Some? ==> Apart(Lookup(f, x).value, err, k)
  }

  lemma {:induction false} PeekApart(e: Expr, f: Frames, user: set<string>, copies: set<string>, err: Value, k: int)
    requires Peek(e, f).Some? && Vars(e) <= user && OthersApart(user, copies, f, err, k) && Copies(copies, err, f)
    requires k !in ExprIds(e) && k in Ids(err)
    ensures Apart(Peek(e, f).value, err, k) || (e.Var? && e.name in copies)
    ensures e.Var? && e.name in copies ==> Peek(e, f).value == err
  {
    match e
    case Select(operand, _) => PeekApart(operand, f, user, copies, err, k);
    case _ =>
  }

  lemma ValueApart(h: HandlerExpr, err: Value, f: Frames, user: set<string>, copies: set<string>, k: int)
    requires ValueInScope(h, f, user) && OthersApart(user, copies, f, err, k) && Copies(copies, err, f)
    requires k !in ValueIds(h) && k in Ids(err) && !IsError(h, copies)
    ensures Apart(HandlerValue(h, err, f), err, k)
  {
    if h.Mention? {
      PeekApart(h.e, f, user, copies, err, k);
    }
  }

  /** Where a block hides its error, an error like no other value shows it as soon as calls return. */
  lemma {:induction false} HiddenDiffers(body: seq<HandlerStmt>, errVar: string, err: Value, k: int, f: Frames, user: set<string>, copies: set<string>,
                                         t: Trace, o: Oracle)
    requires f.Scope? && BodyInScope(body, f, user) && LeavesSomewhere(body) && Hides(body, errVar, copies)
    requires Copies(copies, err, f) && OthersApart(user, copies, f, err, k) && k in Ids(err) && k !in BodyIds(body) && Returning(o, t)
    ensures LoweredStmts(body, errVar, err, f, t, o) != RunHandlerStmts(body, err, f, t, o)
    decreases |body|
  {
    var s, rest := body[0], body[1..];
    LeavesLater(body);
    match s
    case CallStmt(fn, args) =>
      var event := Event(fn, HandlerValues(args, err, f), false);
      assert o(t, event).Returns?;
      HiddenDiffers(rest, errVar, err, k, f, user, copies, t + [event], o);
    case DeclareStmt(name, init) =>
      var v := HandlerValue(init, err, f);
      var g := Declare(f, name, v);
      if IsError(init, copies) {
        ErrorItself(init, err, f, copies);
        HiddenDiffers(rest, errVar, err, k, g, user + {name}, copies + {name}, t, o);
      } else {
        ValueApart(init, err, f, user, copies, k);
        ApartDiffers(v, err, k);
        if name == errVar {
          NoLongerHides(rest, errVar, v, g, t, o);
          AlikeItself(g, user + {name});
          ShownDiffers(rest, v, err, g, g, user + {name}, {}, t, o);
        } else {
          HiddenDiffers(rest, errVar, err, k, g, user + {name}, copies - {name}, t, o);
        }
      }
  }

  lemma FreshId(s: set<int>) returns (k: int)
    ensures k !in s
  {
    var m := AtLeastAll(s);
    k := m + 1;
  }

  lemma AtLeastAll(s: set<int>) returns (m: int)
    ensures forall x :: x in s ==> x <= m
  {
    m := 0;
    if x :| x in s {
      m := AtLeastAll(s - {x});
      assert forall y :: y in s ==> y == x || y in s - {x};
      m := if x >= m then x else m;
    }
  }

  // ----- The exact condition -----

  /** In the check of a caught error: its variable, and the block's own scope. */
  function InCheck(g: Frames, errVar: string, caught: Value): Frames
  {
    Scope(Declare(g, errVar, caught), map[])
  }

  /** With any error but one like no other value, the lowered block may still leave as it means. */
  lemma NotHiddenRight(clause: Clause, zeros: seq<Zero>, site: Site, caught: Value, g: Frames, user: set<string>, t: Trace, o: Oracle)
    requires RunsBlock(clause) && LeavesControl(clause) && ClauseInScope(clause, g, user) && !HidesError(clause, site.errVar)
    ensures LoweredHandle(clause, zeros, site, caught, g, t, o) == Handle(clause, zeros, caught, g, t, o)
  {
    NotHidden(clause.handler.value.body, site.errVar, Explanation(clause, caught), Scope(g, map[]), user, {}, t, o);
  }

  /** An error that shows, as soon as calls return, that a clause hides it. */
  lemma HiddenShows(clause: Clause, zeros: seq<Zero>, site: Site, g: Frames, user: set<string>) returns (id: int)
    requires RunsBlock(clause) && LeavesControl(clause) && ClauseInScope(clause, g, user) && HidesError(clause, site.errVar)
    ensures forall t: Trace, o: Oracle :: Returning(o, t) ==>
      LoweredHandle(clause, zeros, site, Raised(id), g, t, o) != Handle(clause, zeros, Raised(id), g, t, o)
  {
    var body, f := clause.handler.value.body, Scope(g, map[]);
    id := FreshId(BodyIds(body) + UserIds(user, f));
    var err := Explanation(clause, Raised(id));
    assert OthersApart(user, {}, f, err, id);
    forall t: Trace, o: Oracle | Returning(o, t)
      ensures LoweredHandle(clause, zeros, site, Raised(id), g, t, o) != Handle(clause, zeros, Raised(id), g, t, o)
    {
      HiddenDiffers(body, site.errVar, err, id, f, user, {}, t, o);
      BlockLeaves(body, err, f, user, t, o);
      LoweredDiffers(body, site.errVar, err, f, t, o);
    }
  }

  /** Closing the block's scope does not make a difference good when one of the runs leaves. */
  lemma LoweredDiffers(body: seq<HandlerStmt>, errVar: string, err: Value, f: Frames, t: Trace, o: Oracle)
    requires RunHandlerStmts(body, err, f, t, o).Leave? && LoweredStmts(body, errVar, err, f, t, o) != RunHandlerStmts(body, err, f, t, o)
    ensures CloseScope(LoweredStmts(body, errVar, err, f, t, o)) != CloseScope(RunHandlerStmts(body, err, f, t, o))
  {
  }

  /** What the lowered clause does in a check, and what it means. */
  ghost predicate RightInCheck(clause: Clause, zeros: seq<Zero>, errVar: string, caught: Value, g: Frames, t: Trace, o: Oracle)
  {
    ExecBlock(LowerHandler(clause, zeros, [], errVar), State(InCheck(g, errVar, caught), t), o) == Handle(clause, zeros, caught, g, t, o)
  }

  /**
   The exact condition for block handlers. For every block that leaves and every name
   its error variable may have: the rendered handler leaves as the clause means, for
   every caught error, history and oracle, if and only if it does not declare that
   name as something else than the error and let the difference reach a call, a panic
   or a returned value.
   */
  lemma BlockRightExactly(clause: Clause, zeros: seq<Zero>, errVar: string, g: Frames, user: set<string>)
    requires RunsBlock(clause) && LeavesControl(clause) && ClauseInScope(clause, g, user)
    requires g.Scope? && errVar !in user && errVar != "_" && NoStandIn(user + {errVar})
    ensures (forall caught: Value, t: Trace, o: Oracle :: RightInCheck(clause, zeros, errVar, caught, g, t, o))
      <==> !HidesError(clause, errVar)
  {
    hide LoweredHandle, Handle, LowerHandler, ExecBlock, Hides, ClauseInScope, LeavesControl, RunsBlock;
    var site := Site(None, errVar);
    forall caught: Value, t: Trace, o: Oracle
      ensures ExecBlock(LowerHandler(clause, zeros, [], errVar), State(InCheck(g, errVar, caught), t), o)
        == LoweredHandle(clause, zeros, site, caught, g, t, o)
    {
      InCheckMeaning(clause, zeros, errVar, caught, g, user, t, o);
    }
    if HidesError(clause, errVar) {
      var id := HiddenShows(clause, zeros, site, g, user);
      var o: Oracle := (_, _) => Returns([]);
      assert Returning(o, []);
      assert !RightInCheck(clause, zeros, errVar, Raised(id), g, [], o);
    } else {
      forall caught: Value, t: Trace, o: Oracle
        ensures RightInCheck(clause, zeros, errVar, caught, g, t, o)
      {
        NotHiddenRight(clause, zeros, site, caught, g, user, t, o);
      }
    }
  }

  lemma InCheckMeaning(clause: Clause, zeros: seq<Zero>, errVar: string, caught: Value, g: Frames, user: set<string>,
                       t: Trace, o: Oracle)
    requires RunsBlock(clause) && LeavesControl(clause) && ClauseInScope(clause, g, user)
    requires g.Scope? && errVar !in user && errVar != "_" && NoStandIn(user + {errVar})
    ensures ExecBlock(LowerHandler(clause, zeros, [], errVar), State(InCheck(g, errVar, caught), t), o)
      == LoweredHandle(clause, zeros, Site(None, errVar), caught, g, t, o)
  {
    hide LoweredHandle, LowerHandler, ExecBlock, ClauseInScope, LeavesControl, Visible;
    EveryOracleRespectsNothing(o);
    var f := InCheck(g, errVar, caught);
    assert RoomFor(clause, zeros, f, errVar);
    forall x | x in user
      ensures Lookup(f, x) == Lookup(g, x)
    {
      LookupDeclare(g, errVar, caught, x);
    }
    HandlerMeaning(clause, zeros, [], errVar, caught, f, g, user, t, t, o, {});
    VisibleAll(ExecBlock(LowerHandler(clause, zeros, [], errVar), State(f, t), o).trace);
    VisibleAll(LoweredHandle(clause, zeros, Site(None, errVar), caught, g, t, o).trace);
  }
  // ----- Names that do no harm -----

  /**
   Three blocks that are right: a declared name that only looks generated, whatever
   the error's variable is; a hidden error that goes no further than a variable; and a
   copy of the error under its own name.
   */
  lemma HarmlessNames(errVar: string)
    ensures !Hides([DeclareStmt("item_7", Caught), ReturnWith([Caught])], errVar, {})
    ensures !Hides([DeclareStmt("err_1", Mention(Literal(Data(7)))), DeclareStmt("y", Caught), ReturnWith([Mention(Literal(Data(5)))])], "err_1", {})
    ensures !Hides([DeclareStmt("y", Caught), DeclareStmt("err_1", Mention(Var("y"))), ReturnWith([Caught])], "err_1", {})
  {
    var a := [DeclareStmt("item_7", Caught), ReturnWith([Caught])];
    assert a[1..] == [ReturnWith([Caught])];
    var five := ReturnWith([Mention(Literal(Data(5)))]);
    var b := [DeclareStmt("err_1", Mention(Literal(Data(7)))), DeclareStmt("y", Caught), five];
    assert b[1..] == [DeclareStmt("y", Caught), five] && b[1..][1..] == [five];
    assert !AnyAffected([Mention(Literal(Data(5)))], {"y"});
    assert {} + {"y"} == {"y"};
    var c := [DeclareStmt("y", Caught), DeclareStmt("err_1", Mention(Var("y"))), ReturnWith([Caught])];
    assert c[1..] == [DeclareStmt("err_1", Mention(Var("y"))), ReturnWith([Caught])] && c[1..][1..] == [ReturnWith([Caught])];
  }
}
