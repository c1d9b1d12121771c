/**
 The pass that joins pipe chains over several lines (mergeLineContinuations of
 internal/lexer/lexer.go), and why the layout of a chain does not matter.
 */
module MergeLines {
  import opened Prelude
  import opened Layout

  /** Leading tokens of a kind. */
  function Run(ts: seq<Token>, kind: Kind): (n: nat)
    ensures n <= |ts|
    ensures n < |ts| ==> ts[n].kind != kind
    ensures forall i :: 0 <= i < n ==> ts[i].kind == kind
  {
    if ts != [] && ts[0].kind == kind then 1 + Run(ts[1..], kind) else 0
  }

  /** What is emitted, and the absorbed indents whose dedents are still to come. */
  datatype Merged = Merged(out: seq<Token>, absorbed: nat)

  function Emits(ts: seq<Token>, m: Merged): Merged
  {
    Merged(ts + m.out, m.absorbed)
  }

  /** A newline and the indents behind it are dropped before a pipe, and before an onerr of a chain. */
  predicate Continues(ts: seq<Token>, inPipeChain: bool)
    requires ts != [] && ts[0].kind.Newline?
  {
    var j := 1 + Run(ts[1..], Indent);
    j < |ts| && (IsPipe(ts[j]) || (IsOnerr(ts[j]) && inPipeChain))
  }

  /** A newline behind a pipe is dropped with its indents unless the next line is less deep or missing. */
  predicate Trails(ts: seq<Token>)
  {
    ts != [] && ts[0].kind.Newline? &&
    var j := 1 + Run(ts[1..], Indent);
    j < |ts| && ts[j].kind != Dedent && ts[j].kind != EndOfFile
  }

  function Merge(ts: seq<Token>, absorbed: nat, inPipeChain: bool): Merged
    decreases |ts|
  {
    if ts == [] then Merged([], absorbed)
    else if ts[0].kind.Dedent? && absorbed > 0 then Merge(ts[1..], absorbed - 1, inPipeChain)
    else if IsPipe(ts[0]) then
      var c := 1 + Run(ts[1..], Comment);
      var rest := ts[c..];
      if Trails(rest) then
        var indents := Run(rest[1..], Indent);
        Emits(ts[..c], Merge(rest[1 + indents..], absorbed + indents, true))
      else Emits(ts[..c], Merge(rest, absorbed, true))
    else if ts[0].kind.Newline? && Continues(ts, inPipeChain) then
      var indents := Run(ts[1..], Indent);
      Merge(ts[1 + indents..], absorbed + indents, inPipeChain)
    else Emits(ts[..1], Merge(ts[1..], absorbed, inPipeChain && !ts[0].kind.Newline?))
  }

  lemma EmitsTwice(a: seq<Token>, b: seq<Token>, m: Merged)
    ensures Emits(a, Emits(b, m)) == Emits(a + b, m)
  {
  }

  /** One round of the pass, by indices into the whole stream. */
  lemma MergeAt(tokens: seq<Token>, i: nat, absorbed: nat, inPipeChain: bool)
    requires i < |tokens|
    ensures var m, t, c, j := Merge(tokens[i..], absorbed, inPipeChain), tokens[i], i + 1 + Run(tokens[i + 1..], Comment), i + 1 + Run(tokens[i + 1..], Indent);
      if t.kind.Dedent? && absorbed > 0 then m == Merge(tokens[i + 1..], absorbed - 1, inPipeChain)
      else if IsPipe(t) then PipeRound(tokens, i, c, absorbed, m)
      else if t.kind.Newline? && j < |tokens| && (IsPipe(tokens[j]) || (IsOnerr(tokens[j]) && inPipeChain)) then
        m == Merge(tokens[j..], absorbed + (j - i - 1), inPipeChain)
      else m == Emits([t], Merge(tokens[i + 1..], absorbed, inPipeChain && !t.kind.Newline?))
  {
    hide Merge, Run, PipeRound, Continues;
    var ts := tokens[i..];
    assert ts[1..] == tokens[i + 1..] && ts[..1] == [tokens[i]];
    MergeRound(ts, absorbed, inPipeChain);
    if IsPipe(ts[0]) && !(ts[0].kind.Dedent? && absorbed > 0) {
      PipeAt(tokens, i, absorbed, inPipeChain);
    } else if ts[0].kind.Newline? {
      ContinuesAt(tokens, i, inPipeChain);
    }
  }

  /** The definition, without its recursion. */
  lemma MergeRound(ts: seq<Token>, absorbed: nat, inPipeChain: bool)
    requires ts != []
    ensures var m := Merge(ts, absorbed, inPipeChain);
      if ts[0].kind.Dedent? && absorbed > 0 then m == Merge(ts[1..], absorbed - 1, inPipeChain)
      else if IsPipe(ts[0]) then true
      else if ts[0].kind.Newline? && Continues(ts, inPipeChain) then
        m == Merge(ts[1 + Run(ts[1..], Indent)..], absorbed + Run(ts[1..], Indent), inPipeChain)
      else m == Emits(ts[..1], Merge(ts[1..], absorbed, inPipeChain && !ts[0].kind.Newline?))
  {
  }

  lemma ContinuesAt(tokens: seq<Token>, i: nat, inPipeChain: bool)
    requires i < |tokens| && tokens[i].kind.Newline?
    ensures var ts, j := tokens[i..], i + 1 + Run(tokens[i + 1..], Indent);
      && (Continues(ts, inPipeChain) <==> j < |tokens| && (IsPipe(tokens[j]) || (IsOnerr(tokens[j]) && inPipeChain)))
      && ts[1 + Run(ts[1..], Indent)..] == tokens[j..] && j == i + 1 + Run(ts[1..], Indent)
  {
    hide Run;
    var ts := tokens[i..];
    assert ts[1..] == tokens[i + 1..];
  }

  lemma PipeAt(tokens: seq<Token>, i: nat, absorbed: nat, inPipeChain: bool)
    requires i < |tokens| && IsPipe(tokens[i])
    ensures PipeRound(tokens, i, i + 1 + Run(tokens[i + 1..], Comment), absorbed, Merge(tokens[i..], absorbed, inPipeChain))
  {
    hide Run, Merge, Trails, IsPipe, Emits;
    var ts := tokens[i..];
    assert ts[1..] == tokens[i + 1..];
    var k := 1 + Run(ts[1..], Comment);
    MergePipe(ts, absorbed, inPipeChain);
    Slices(tokens, i, k);
  }

  lemma Slices(tokens: seq<Token>, i: nat, k: nat)
    requires i + k <= |tokens|
    ensures tokens[i..][k..] == tokens[i + k..] && tokens[i..][..k] == tokens[i..i + k]
  {
  }

  lemma MergePipe(ts: seq<Token>, absorbed: nat, inPipeChain: bool)
    requires ts != [] && IsPipe(ts[0])
    ensures var c := 1 + Run(ts[1..], Comment);
      var rest := ts[c..];
      Merge(ts, absorbed, inPipeChain) ==
        if Trails(rest) then Emits(ts[..c], Merge(rest[1 + Run(rest[1..], Indent)..], absorbed + Run(rest[1..], Indent), true))
        else Emits(ts[..c], Merge(rest, absorbed, true))
  {
    hide Run, Emits, IsOnerr;
  }

  lemma TrailsAt(tokens: seq<Token>, c: nat)
    requires c <= |tokens|
    ensures var rest := tokens[c..];
      if c < |tokens| && tokens[c].kind.Newline? then
        var j := c + 1 + Run(tokens[c + 1..], Indent);
        && (Trails(rest) <==> j < |tokens| && tokens[j].kind != Dedent && tokens[j].kind != EndOfFile)
        && rest[1 + Run(rest[1..], Indent)..] == tokens[j..] && j == c + 1 + Run(rest[1..], Indent)
      else !Trails(rest)
  {
    hide Run;
    if c < |tokens| {
      assert tokens[c..][1..] == tokens[c + 1..];
    }
  }

  /** The round at a pipe whose comments end at c. */
  ghost predicate PipeRound(tokens: seq<Token>, i: nat, c: nat, absorbed: nat, m: Merged)
    requires i <= c <= |tokens|
  {
    var rest := tokens[c..];
    if Trails(rest) then
      var indents := Run(rest[1..], Indent);
      m == Emits(tokens[i..c], Merge(rest[1 + indents..], absorbed + indents, true))
    else m == Emits(tokens[i..c], Merge(rest, absorbed, true))
  }

  method SkipRun(tokens: seq<Token>, from: nat, kind: Kind) returns (j: nat)
    requires from <= |tokens|
    ensures j == from + Run(tokens[from..], kind) && j <= |tokens|
  {
    j := from;
    while j < |tokens| && tokens[j].kind == kind
      invariant from <= j <= |tokens|
      invariant j + Run(tokens[j..], kind) == from + Run(tokens[from..], kind)
    {
      assert tokens[j..][1..] == tokens[j + 1..];
      j := j + 1;
    }
  }

  /** Behind a pipe: where the pass goes on, and how many indents it skips. */
  method SkipTrailing(tokens: seq<Token>, c: nat) returns (next: nat, indents: nat)
    requires c <= |tokens|
    ensures c <= next <= |tokens|
    ensures var rest := tokens[c..];
      if Trails(rest) then indents == Run(rest[1..], Indent) && tokens[next..] == rest[1 + indents..] else next == c && indents == 0
  {
    hide Run, Trails;
    TrailsAt(tokens, c);
    next, indents := c, 0;
    if c < |tokens| && tokens[c].kind == Newline {
      var j := SkipRun(tokens, c + 1, Indent);
      if j < |tokens| && tokens[j].kind != Dedent && tokens[j].kind != EndOfFile {
        next, indents := j, j - c - 1;
      }
    }
  }

  /** Where a pipe's comments end, and what follows. */
  method PassPipe(tokens: seq<Token>, i: nat, ghost absorbed: nat, ghost inPipeChain: bool) returns (c: nat, next: nat, indents: nat)
    requires i < |tokens| && IsPipe(tokens[i])
    ensures i < c <= next <= |tokens|
    ensures Merge(tokens[i..], absorbed, inPipeChain) == Emits(tokens[i..c], Merge(tokens[next..], absorbed + indents, true))
  {
    hide Merge, Run, Emits, Trails, IsPipe;
    PipeAt(tokens, i, absorbed, inPipeChain);
    c := SkipRun(tokens, i + 1, Comment);
    next, indents := SkipTrailing(tokens, c);
  }

  /** The pass itself: an index, and the absorbed indents. */
  method MergeLineContinuations(tokens: seq<Token>) returns (result: seq<Token>)
    ensures result == Merge(tokens, 0, false).out
  {
    hide Merge, Run, Continues, Trails, Emits, PipeRound;
    result := [];
    var absorbedIndents: nat, inPipeChain := 0, false;
    var i := 0;
    assert tokens[0..] == tokens;
    EmitsNothing(Merge(tokens, 0, false));
    while i < |tokens|
      invariant 0 <= i <= |tokens|
      invariant Merge(tokens, 0, false) == Emits(result, Merge(tokens[i..], absorbedIndents, inPipeChain))
      decreases |tokens| - i
    {
      var tok := tokens[i];
      MergeAt(tokens, i, absorbedIndents, inPipeChain);
      if tok.kind == Dedent && absorbedIndents > 0 {
        absorbedIndents := absorbedIndents - 1;
        i := i + 1;
        continue;
      }
      if IsPipe(tok) {
        var c, next, indents := PassPipe(tokens, i, absorbedIndents, inPipeChain);
        EmitsTwice(result, tokens[i..c], Merge(tokens[next..], absorbedIndents + indents, true));
        result := result + tokens[i..c];
        inPipeChain := true;
        absorbedIndents := absorbedIndents + indents;
        i := next;
        continue;
      }
      if tok.kind == Newline {
        var j := SkipRun(tokens, i + 1, Indent);
        if j < |tokens| && (IsPipe(tokens[j]) || (IsOnerr(tokens[j]) && inPipeChain)) {
          absorbedIndents := absorbedIndents + (j - i - 1);
          i := j;
          continue;
        }
        inPipeChain := false;
      }
      EmitsTwice(result, [tok], Merge(tokens[i + 1..], absorbedIndents, inPipeChain));
      result := result + [tok];
      i := i + 1;
    }
    MergeNothing(tokens[i..], result, absorbedIndents, inPipeChain);
  }

  lemma EmitsNothing(m: Merged)
    ensures Emits([], m) == m
  {
  }

  lemma MergeNothing(ts: seq<Token>, result: seq<Token>, left: nat, inPipeChain: bool)
    requires ts == []
    ensures Emits(result, Merge(ts, left, inPipeChain)) == Merged(result, left)
  {
  }

  // ----- What the pass keeps -----

  predicate IsLayout(t: Token)
  {
    t.kind.Newline? || t.kind.Indent? || t.kind.Dedent?
  }

  /** The tokens that are not layout. */
  function Content(ts: seq<Token>): seq<Token>
  {
    if ts == [] then [] else (if IsLayout(ts[0]) then [] else [ts[0]]) + Content(ts[1..])
  }

  lemma {:induction false} ContentJoin(a: seq<Token>, b: seq<Token>)
    ensures Content(a + b) == Content(a) + Content(b)
  {
    if a == [] {
      assert a + b == b;
    } else {
      assert (a + b)[1..] == a[1..] + b;
      ContentJoin(a[1..], b);
    }
  }

  /** The depth after each token, from d on, is never negative. */
  predicate NestedFrom(ts: seq<Token>, d: int)
  {
    d >= 0 && (ts == [] || NestedFrom(ts[1..], d + Weight(ts[0])))
  }

  lemma {:induction false} NestedFromJoin(a: seq<Token>, b: seq<Token>, d: int)
    ensures NestedFrom(a + b, d) <==> NestedFrom(a, d) && NestedFrom(b, d + Depth(a))
  {
    if a == [] {
      assert a + b == b;
    } else {
      assert (a + b)[1..] == a[1..] + b;
      DepthJoin([a[0]], a[1..]);
      assert a == [a[0]] + a[1..];
      DepthOne(a[0]);
      NestedFromJoin(a[1..], b, d + Weight(a[0]));
    }
  }

  lemma DepthOne(t: Token)
    ensures Depth([t]) == Weight(t)
  {
    assert Front([t]) == [];
  }

  lemma {:induction false} NestedIsNestedFrom(ts: seq<Token>)
    ensures Nested(ts) <==> NestedFrom(ts, 0)
    decreases |ts|
  {
    if ts != [] {
      var front, last := Front(ts), Last(ts);
      NestedIsNestedFrom(front);
      NestedFromJoin(front, [last], 0);
      assert ts == front + [last];
      assert [last][1..] == [];
    }
  }

  /** Runs of one kind: their depth, content and nesting. */
  lemma {:induction false} RunEffect(ts: seq<Token>, n: nat, kind: Kind)
    requires n <= Run(ts, kind) && kind in {Indent, Comment}
    ensures Depth(ts[..n]) == if kind == Indent then n else 0
    ensures kind == Indent ==> Content(ts[..n]) == []
    ensures forall d :: d >= 0 ==> NestedFrom(ts[..n], d)
    decreases n
  {
    if n > 0 {
      RunTail(ts, kind);
      RunEffect(ts[1..], n - 1, kind);
      assert ts[..n] == [ts[0]] + ts[1..][..n - 1];
      DepthJoin([ts[0]], ts[1..][..n - 1]);
      DepthOne(ts[0]);
      assert ts[..n][1..] == ts[1..][..n - 1];
    }
  }

  lemma RunTail(ts: seq<Token>, kind: Kind)
    requires Run(ts, kind) > 0
    ensures ts[0].kind == kind && Run(ts[1..], kind) == Run(ts, kind) - 1
  {
  }

  /** The stretch that is dropped where a line continues: a newline and its indents. */
  lemma DroppedStretch(ts: seq<Token>, indents: nat)
    requires ts != [] && ts[0].kind.Newline? && indents == Run(ts[1..], Indent)
    ensures ts == ts[..1 + indents] + ts[1 + indents..]
    ensures Depth(ts[..1 + indents]) == indents && Content(ts[..1 + indents]) == []
  {
    hide Run;
    var dropped, run := ts[..1 + indents], ts[1..][..indents];
    RunEffect(ts[1..], indents, Indent);
    assert dropped == [ts[0]] + run && dropped[1..] == run;
    DepthOne(ts[0]);
    DepthJoin([ts[0]], run);
  }

  lemma DroppedEffect(ts: seq<Token>, indents: nat)
    requires ts != [] && ts[0].kind.Newline? && indents == Run(ts[1..], Indent)
    ensures Depth(ts) == indents + Depth(ts[1 + indents..]) && Content(ts) == Content(ts[1 + indents..])
    ensures forall d :: NestedFrom(ts, d) ==> NestedFrom(ts[1 + indents..], d + indents)
  {
    hide Depth, Content, NestedFrom, Run;
    var dropped, rest := ts[..1 + indents], ts[1 + indents..];
    DroppedStretch(ts, indents);
    DepthJoin(dropped, rest);
    ContentJoin(dropped, rest);
    forall d | NestedFrom(ts, d)
      ensures NestedFrom(rest, d + indents)
    {
      NestedFromJoin(dropped, rest, d);
    }
  }

  /** The pass conserves depth, given that what it absorbed is still owed; keeps nesting; and loses no token but layout. */
  ghost predicate Keeps(ts: seq<Token>, absorbed: nat, m: Merged)
  {
    && Depth(ts) + absorbed == Depth(m.out) + m.absorbed
    && Content(m.out) == Content(ts)
    && forall d :: d >= absorbed && NestedFrom(ts, d) ==> NestedFrom(m.out, d - absorbed)
  }

  lemma KeepsEmitted(done: seq<Token>, rest: seq<Token>, absorbed: nat, m: Merged)
    requires Keeps(rest, absorbed, m)
    requires forall d :: d >= absorbed && NestedFrom(done, d) ==> NestedFrom(done, d - absorbed) && d + Depth(done) >= absorbed
    ensures Keeps(done + rest, absorbed, Emits(done, m))
  {
    DepthJoin(done, rest);
    DepthJoin(done, m.out);
    ContentJoin(done, rest);
    ContentJoin(done, m.out);
    forall d | d >= absorbed && NestedFrom(done + rest, d)
      ensures NestedFrom(done + m.out, d - absorbed)
    {
      NestedFromJoin(done, rest, d);
      NestedFromJoin(done, m.out, d - absorbed);
      assert d + Depth(done) - absorbed == d - absorbed + Depth(done);
    }
  }

  lemma KeepsDropped(ts: seq<Token>, indents: nat, absorbed: nat, m: Merged)
    requires ts != [] && ts[0].kind.Newline? && indents == Run(ts[1..], Indent)
    requires Keeps(ts[1 + indents..], absorbed + indents, m)
    ensures Keeps(ts, absorbed, m)
  {
    DroppedEffect(ts, indents);
    forall d | d >= absorbed && NestedFrom(ts, d)
      ensures NestedFrom(m.out, d - absorbed)
    {
      assert NestedFrom(ts[1 + indents..], d + indents);
      assert d + indents - (absorbed + indents) == d - absorbed;
    }
  }

  lemma {:induction false} MergeKeeps(ts: seq<Token>, absorbed: nat, inPipeChain: bool)
    ensures Keeps(ts, absorbed, Merge(ts, absorbed, inPipeChain))
    decreases |ts|
  {
    hide Keeps, Merge, Run, Emits, Continues, IsPipe;
    if ts == [] {
      KeepsNothing(absorbed, inPipeChain);
      return;
    }
    MergeRound(ts, absorbed, inPipeChain);
    if ts[0].kind.Dedent? && absorbed > 0 {
      MergeKeeps(ts[1..], absorbed - 1, inPipeChain);
      KeepsDedent(ts, absorbed, Merge(ts[1..], absorbed - 1, inPipeChain));
    } else if IsPipe(ts[0]) {
      MergePipeKeeps(ts, absorbed, inPipeChain);
    } else if ts[0].kind.Newline? && Continues(ts, inPipeChain) {
      var indents := Run(ts[1..], Indent);
      MergeKeeps(ts[1 + indents..], absorbed + indents, inPipeChain);
      KeepsDropped(ts, indents, absorbed, Merge(ts[1 + indents..], absorbed + indents, inPipeChain));
    } else {
      MergeKeeps(ts[1..], absorbed, inPipeChain && !ts[0].kind.Newline?);
      KeepsOne(ts, absorbed, Merge(ts[1..], absorbed, inPipeChain && !ts[0].kind.Newline?));
    }
  }

  lemma KeepsNothing(absorbed: nat, inPipeChain: bool)
    ensures Keeps([], absorbed, Merge([], absorbed, inPipeChain))
  {
  }

  lemma KeepsDedent(ts: seq<Token>, absorbed: nat, m: Merged)
    requires ts != [] && ts[0].kind.Dedent? && absorbed > 0 && Keeps(ts[1..], absorbed - 1, m)
    ensures Keeps(ts, absorbed, m)
  {
    DepthOne(ts[0]);
    DepthJoin([ts[0]], ts[1..]);
    assert ts == [ts[0]] + ts[1..];
    forall d | d >= absorbed && NestedFrom(ts, d)
      ensures NestedFrom(m.out, d - absorbed)
    {
      assert NestedFrom(ts[1..], d - 1);
      assert d - 1 - (absorbed - 1) == d - absorbed;
    }
  }

  lemma KeepsOne(ts: seq<Token>, absorbed: nat, m: Merged)
    requires ts != [] && Keeps(ts[1..], absorbed, m) && (ts[0].kind.Dedent? ==> absorbed == 0)
    ensures Keeps(ts, absorbed, Emits(ts[..1], m))
  {
    var done := ts[..1];
    assert ts == done + ts[1..] && done == [ts[0]] && done[1..] == [];
    DepthOne(ts[0]);
    KeepsEmitted(done, ts[1..], absorbed, m);
  }

  lemma {:induction false} MergePipeKeeps(ts: seq<Token>, absorbed: nat, inPipeChain: bool)
    requires ts != [] && IsPipe(ts[0])
    ensures Keeps(ts, absorbed, Merge(ts, absorbed, inPipeChain))
    decreases |ts|, 0
  {
    hide Keeps, Merge, IsPipe, Run, Emits;
    MergePipe(ts, absorbed, inPipeChain);
    var c := 1 + Run(ts[1..], Comment);
    var rest := ts[c..];
    PipeAndComments(ts, c, absorbed);
    assert ts == ts[..c] + rest;
    if Trails(rest) {
      var indents := Run(rest[1..], Indent);
      var m := Merge(rest[1 + indents..], absorbed + indents, true);
      MergeKeeps(rest[1 + indents..], absorbed + indents, true);
      KeepsDropped(rest, indents, absorbed, m);
      KeepsEmitted(ts[..c], rest, absorbed, m);
    } else {
      MergeKeeps(rest, absorbed, true);
      KeepsEmitted(ts[..c], rest, absorbed, Merge(rest, absorbed, true));
    }
  }

  lemma PipeAndComments(ts: seq<Token>, c: nat, absorbed: nat)
    requires ts != [] && IsPipe(ts[0]) && c == 1 + Run(ts[1..], Comment)
    ensures forall d :: d >= absorbed && NestedFrom(ts[..c], d) ==> NestedFrom(ts[..c], d - absorbed) && d + Depth(ts[..c]) >= absorbed
  {
    var done := ts[..c];
    RunEffect(ts[1..], c - 1, Comment);
    assert done == [ts[0]] + ts[1..][..c - 1] && done[1..] == ts[1..][..c - 1];
    DepthOne(ts[0]);
    DepthJoin([ts[0]], ts[1..][..c - 1]);
  }

  /** On every nested stream the output is nested and input depth is output depth plus what stays absorbed; a balanced stream stays balanced with nothing left; all other tokens survive in order. */
  lemma MergeConserves(tokens: seq<Token>)
    ensures var m := Merge(tokens, 0, false);
      && Depth(tokens) == Depth(m.out) + m.absorbed
      && Content(m.out) == Content(tokens)
      && (Nested(tokens) ==> Nested(m.out))
      && (Balanced(tokens) ==> Balanced(m.out) && m.absorbed == 0)
  {
    var m := Merge(tokens, 0, false);
    MergeKeeps(tokens, 0, false);
    NestedIsNestedFrom(tokens);
    NestedIsNestedFrom(m.out);
    if Nested(m.out) && m.out != [] {
      NestedPrefix(m.out, |m.out|);
    }
  }
}
