/** Applying source edits (Apply of internal/blend/apply.go). */
module BlendApply {
  datatype Suggestion = Suggestion(start: int, end: int, replacement: string)

  /** Strictly later start first, and for one start the longer span first. */
  predicate Before(s: Suggestion, t: Suggestion)
  {
    if s.start != t.start then s.start > t.start else s.end > t.end
  }

  ghost predicate Ordered(ss: seq<Suggestion>)
  {
    forall i, j :: 0 <= i < j < |ss| ==> !Before(ss[j], ss[i])
  }

  predicate InRange(s: Suggestion, n: nat)
  {
    0 <= s.start < s.end <= n
  }

  predicate Disjoint(s: Suggestion, t: Suggestion)
  {
    s.end <= t.start || t.end <= s.start
  }

  /** An order the sort may leave: an unstable sort decides between equal spans. */
  ghost predicate SortedFrom(sorted: seq<Suggestion>, ss: seq<Suggestion>)
  {
    Ordered(sorted) && multiset(sorted) == multiset(ss)
  }

  method Sort(ss: seq<Suggestion>) returns (sorted: seq<Suggestion>)
    ensures SortedFrom(sorted, ss)
  {
    sorted := [];
    var i := 0;
    while i < |ss|
      invariant 0 <= i <= |ss|
      invariant Ordered(sorted) && multiset(sorted) == multiset(ss[..i])
    {
      sorted := Insert(sorted, ss[i]);
      assert ss[..i + 1] == ss[..i] + [ss[i]];
      i := i + 1;
    }
    assert ss[..i] == ss;
  }

  method Insert(sorted: seq<Suggestion>, s: Suggestion) returns (r: seq<Suggestion>)
    requires Ordered(sorted)
    ensures Ordered(r) && multiset(r) == multiset(sorted) + multiset{s}
  {
    var k := 0;
    while k < |sorted| && !Before(s, sorted[k])
      invariant 0 <= k <= |sorted|
      invariant forall i :: 0 <= i < k ==> !Before(s, sorted[i])
    {
      k := k + 1;
    }
    r := sorted[..k] + [s] + sorted[k..];
    assert sorted == sorted[..k] + sorted[k..];
    Placed(sorted, s, k);
  }

  /** In order, a suggestion that precedes the next one precedes, or ties with, all that follow. */
  lemma Placed(sorted: seq<Suggestion>, s: Suggestion, k: nat)
    requires Ordered(sorted) && k <= |sorted|
    requires (forall i :: 0 <= i < k ==> !Before(s, sorted[i])) && (k < |sorted| ==> Before(s, sorted[k]))
    ensures Ordered(sorted[..k] + [s] + sorted[k..])
  {
    var r := sorted[..k] + [s] + sorted[k..];
    forall i, j | 0 <= i < j < |r|
      ensures !Before(r[j], r[i])
    {
      var i', j' := if i <= k then i else i - 1, if j <= k then j else j - 1;
      if i != k && j != k {
        assert !Before(sorted[j'], sorted[i']);
      } else if i == k && j > k + 1 {
        assert !Before(sorted[j'], sorted[k]);
      }
    }
  }

  /** Edits from right to left, in range, each ending where the one before it starts or earlier. */
  predicate RightToLeft(edits: seq<Suggestion>, upto: int)
  {
    edits == [] || (0 <= edits[0].start < edits[0].end <= upto && RightToLeft(edits[1..], edits[0].start))
  }

  /** The suggestions that are performed, in the order of processing. */
  function Chosen(sorted: seq<Suggestion>, last: int): (r: seq<Suggestion>)
    ensures RightToLeft(r, last)
  {
    if sorted == [] then []
    else
      var s := sorted[0];
      if s.start < 0 || s.start >= s.end || s.end > last then Chosen(sorted[1..], last)
      else
        var rest := Chosen(sorted[1..], s.start);
        assert ([s] + rest)[1..] == rest;
        [s] + rest
  }

  /** The source with the edits put in place: unedited stretches and replacements in alternation. */
  function Spliced(src: string, edits: seq<Suggestion>, upto: int): string
    requires 0 <= upto <= |src| && RightToLeft(edits, upto)
  {
    if edits == [] then src[..upto]
    else Spliced(src, edits[1..], edits[0].start) + edits[0].replacement + src[edits[0].end..upto]
  }

  /** One replacement in the buffer is one edit more in place. */
  lemma EditStep(src: string, last: nat, tail: string, s: Suggestion, todo: seq<Suggestion>)
    requires last <= |src| && todo != [] && todo[0] == s && 0 <= s.start < s.end <= last
    ensures Spliced(src, Chosen(todo, last), last) + tail == Spliced(src, Chosen(todo[1..], s.start), s.start) + (s.replacement + (src[s.end..last] + tail))
  {
    var rest := Chosen(todo[1..], s.start);
    assert ([s] + rest)[1..] == rest;
    Regroup(Spliced(src, rest, s.start), s.replacement, src[s.end..last], tail);
  }

  lemma Regroup(a: string, b: string, c: string, d: string)
    ensures a + b + c + d == a + (b + (c + d))
  {
  }

  lemma Cut(src: string, last: nat, tail: string, s: Suggestion)
    requires last <= |src| && 0 <= s.start < s.end <= last
    ensures var result := src[..last] + tail; result[..s.start] == src[..s.start] && result[s.end..] == src[s.end..last] + tail
  {
  }

  /** Rebuilds the result once for every edit, from the back. */
  method Apply(src: string, suggestions: seq<Suggestion>) returns (result: string)
    ensures exists sorted :: SortedFrom(sorted, suggestions) && result == Spliced(src, Chosen(sorted, |src|), |src|)
  {
    hide Spliced, Ordered;
    var todo := Sort(suggestions);
    result := src;
    var last := |src|;
    ghost var tail := "";
    ghost var whole := Spliced(src, Chosen(todo, |src|), |src|);
    var i := 0;
    assert todo[0..] == todo;
    while i < |todo|
      invariant 0 <= i <= |todo| && 0 <= last <= |src|
      invariant result == src[..last] + tail
      invariant whole == Spliced(src, Chosen(todo[i..], last), last) + tail
    {
      var s := todo[i];
      assert todo[i..][0] == s && todo[i..][1..] == todo[i + 1..];
      if s.start < 0 || s.end > |result| || s.start >= s.end {
      } else if s.end > last {
      } else {
        EditStep(src, last, tail, s, todo[i..]);
        Cut(src, last, tail, s);
        var before, after := result[..s.start], result[s.end..];
        tail := s.replacement + (src[s.end..last] + tail);
        result := before + s.replacement + after;
        last := s.start;
      }
      i := i + 1;
    }
    NothingLeft(src, last, todo[i..]);
  }

  lemma NothingLeft(src: string, last: nat, todo: seq<Suggestion>)
    requires todo == [] && last <= |src|
    ensures Spliced(src, Chosen(todo, last), last) == src[..last]
  {
  }

  // ----- The choice is a largest one -----

  ghost predicate Compatible(other: set<Suggestion>, from: seq<Suggestion>, last: int)
  {
    && (forall s :: s in other ==> s in from && 0 <= s.start < s.end <= last)
    && (forall s, t :: s in other && t in other && s != t ==> Disjoint(s, t))
  }

  /** Taking the latest start first leaves room for as many edits as any other choice. */
  lemma {:induction false} LatestStartIsOptimal(sorted: seq<Suggestion>, last: int, other: set<Suggestion>)
    requires Ordered(sorted) && Compatible(other, sorted, last)
    ensures |other| <= |Chosen(sorted, last)|
    decreases |sorted|
  {
    if sorted == [] {
      assert other == {};
    } else {
      var s, rest := sorted[0], sorted[1..];
      if s.start < 0 || s.start >= s.end || s.end > last {
        assert forall t :: t in other ==> t in rest;
        LatestStartIsOptimal(rest, last, other);
      } else {
        var left := set t | t in other && t.end <= s.start;
        assert forall t :: t in left ==> t in rest;
        LatestStartIsOptimal(rest, s.start, left);
        AtMostOneRemoved(sorted, last, other, left);
      }
    }
  }

  /** All edits that reach past the latest start contain the position there, so only one fits. */
  lemma AtMostOneRemoved(sorted: seq<Suggestion>, last: int, other: set<Suggestion>, left: set<Suggestion>)
    requires sorted != [] && Ordered(sorted) && Compatible(other, sorted, last)
    requires left == set t | t in other && t.end <= sorted[0].start
    ensures |other| <= |left| + 1
  {
    var removed := other - left;
    forall t | t in removed
      ensures t.start <= sorted[0].start < t.end
    {
      StartsNoLater(sorted, t);
    }
    AllContain(removed, sorted[0].start);
    assert other == left + removed;
  }

  lemma StartsNoLater(sorted: seq<Suggestion>, t: Suggestion)
    requires Ordered(sorted) && t in sorted
    ensures t.start <= sorted[0].start
  {
    var i :| 0 <= i < |sorted| && sorted[i] == t;
    assert i == 0 || !Before(sorted[i], sorted[0]);
  }

  lemma AllContain(ss: set<Suggestion>, pos: int)
    requires forall t :: t in ss ==> t.start <= pos < t.end
    requires forall s, t :: s in ss && t in ss && s != t ==> Disjoint(s, t)
    ensures |ss| <= 1
  {
    if ss != {} {
      var t :| t in ss;
      forall u | u in ss
        ensures u == t
      {
      }
      assert ss == {t};
    }
  }

  ghost predicate Independent(other: set<Suggestion>, from: seq<Suggestion>, n: nat)
  {
    && (forall s :: s in other ==> s in from && InRange(s, n))
    && (forall s, t :: s in other && t in other && s != t ==> Disjoint(s, t))
  }

  /** Whatever order the sort leaves, the performed edits are a largest set of pairwise disjoint in-range suggestions, and each one skipped is out of range or overlaps one that is performed. */
  lemma ApplyPerformsLargestSet(suggestions: seq<Suggestion>, sorted: seq<Suggestion>, n: nat, other: set<Suggestion>)
    requires SortedFrom(sorted, suggestions) && Independent(other, suggestions, n)
    ensures var done := Chosen(sorted, n);
      && Independent((set s | s in done), suggestions, n)
      && |(set s | s in done)| == |done|
      && |other| <= |done|
      && forall s :: s in suggestions && InRange(s, n) && s !in done ==> exists t :: t in done && !Disjoint(s, t)
  {
    hide Ordered;
    var done := Chosen(sorted, n);
    SameMembers(suggestions, sorted);
    LatestStartIsOptimal(sorted, n, other);
    ChosenMembers(sorted, n);
    ChosenDisjoint(done, n);
    forall s | s in suggestions && InRange(s, n) && s !in done
      ensures exists t :: t in done && !Disjoint(s, t)
    {
      var t := SkippedOverlaps(sorted, n, s);
    }
  }

  lemma SameMembers(a: seq<Suggestion>, b: seq<Suggestion>)
    requires multiset(a) == multiset(b)
    ensures forall s :: s in a <==> s in b
  {
    forall s ensures s in a <==> s in b {
      assert s in a <==> s in multiset(a);
      assert s in b <==> s in multiset(b);
    }
  }

  lemma {:induction false} ChosenMembers(sorted: seq<Suggestion>, last: int)
    ensures forall s :: s in Chosen(sorted, last) ==> s in sorted
  {
    if sorted != [] {
      ChosenMembers(sorted[1..], last);
      ChosenMembers(sorted[1..], sorted[0].start);
    }
  }

  lemma {:induction false} ChosenDisjoint(ss: seq<Suggestion>, last: int)
    requires RightToLeft(ss, last)
    ensures forall s :: s in ss ==> 0 <= s.start < s.end <= last
    ensures forall s, t :: s in ss && t in ss && s != t ==> Disjoint(s, t)
    ensures |(set s | s in ss)| == |ss|
  {
    if ss == [] {
      assert (set s | s in ss) == {};
    } else {
      ChosenDisjoint(ss[1..], ss[0].start);
      assert (set s | s in ss) == {ss[0]} + (set s | s in ss[1..]);
      assert ss[0] !in ss[1..];
    }
  }

  lemma {:induction false} SkippedOverlaps(sorted: seq<Suggestion>, last: nat, s: Suggestion) returns (t: Suggestion)
    requires Ordered(sorted) && s in sorted && InRange(s, last) && s !in Chosen(sorted, last)
    ensures t in Chosen(sorted, last) && !Disjoint(s, t)
    decreases |sorted|
  {
    var head, rest := sorted[0], sorted[1..];
    if head.start < 0 || head.start >= head.end || head.end > last {
      assert s in rest;
      t := SkippedOverlaps(rest, last, s);
    } else {
      assert s != head;
      assert s in rest;
      var i :| 0 <= i < |rest| && rest[i] == s;
      assert !Before(sorted[i + 1], sorted[0]);
      if s.end <= head.start {
        t := SkippedOverlaps(rest, head.start, s);
      } else {
        t := head;
      }
    }
  }

  // ----- The shape of the result -----

  /** What the edits add to the length. */
  function Growth(edits: seq<Suggestion>): int
  {
    if edits == [] then 0
    else |edits[0].replacement| - (edits[0].end - edits[0].start) + Growth(edits[1..])
  }

  lemma {:induction false} SplicedLength(src: string, edits: seq<Suggestion>, upto: nat)
    requires upto <= |src|
    requires RightToLeft(edits, upto)
    ensures |Spliced(src, edits, upto)| == upto + Growth(edits)
    decreases |edits|
  {
    if edits != [] {
      SplicedLength(src, edits[1..], edits[0].start);
    }
  }

  /** How far the edits that end at or before a position move it. */
  function Shift(edits: seq<Suggestion>, pos: int): int
  {
    if edits == [] then 0
    else (if edits[0].end <= pos then |edits[0].replacement| - (edits[0].end - edits[0].start) else 0) + Shift(edits[1..], pos)
  }

  predicate Untouched(edits: seq<Suggestion>, pos: int)
  {
    forall s :: s in edits ==> !(s.start <= pos < s.end)
  }

  /** Edits that end at or before a position all move it. */
  lemma {:induction false} ShiftAll(edits: seq<Suggestion>, last: int, pos: int)
    requires RightToLeft(edits, last) && last <= pos
    ensures Shift(edits, pos) == Growth(edits)
  {
    if edits != [] {
      ShiftAll(edits[1..], edits[0].start, pos);
    }
  }

  lemma {:induction false} EditAt(edits: seq<Suggestion>, last: int, k: nat)
    requires RightToLeft(edits, last) && k < |edits|
    ensures 0 <= edits[k].start < edits[k].end <= last
  {
    if k > 0 {
      EditAt(edits[1..], edits[0].start, k - 1);
    }
  }

  /** Every untouched source character is in the result, moved by exactly the edits before it. */
  lemma {:induction false} UntouchedSurvives(src: string, edits: seq<Suggestion>, upto: nat, pos: nat)
    requires upto <= |src| && pos < upto && Untouched(edits, pos)
    requires RightToLeft(edits, upto)
    ensures var r := Spliced(src, edits, upto); var at := pos + Shift(edits, pos);
      0 <= at < |r| && r[at] == src[pos]
    decreases |edits|
  {
    if edits != [] {
      var s, rest := edits[0], edits[1..];
      SplicedLength(src, rest, s.start);
      if pos < s.start {
        UntouchedSurvives(src, rest, s.start, pos);
      } else {
        ShiftAll(rest, s.start, pos);
      }
    }
  }

  predicate StandsAt(r: string, at: int, text: string)
  {
    0 <= at && at + |text| <= |r| && r[at..at + |text|] == text
  }

  lemma StandsInFront(front: string, mid: string, tail: string, at: int, text: string)
    requires StandsAt(front, at, text)
    ensures StandsAt(front + mid + tail, at, text)
  {
    assert (front + mid + tail)[at..at + |text|] == front[at..at + |text|];
  }

  lemma StandsInMiddle(front: string, mid: string, tail: string)
    ensures StandsAt(front + mid + tail, |front|, mid)
  {
  }

  /** Every performed replacement is in the result, whole, where its source text was. */
  lemma {:induction false} ReplacementPlaced(src: string, edits: seq<Suggestion>, upto: nat, k: nat)
    requires upto <= |src| && k < |edits|
    requires RightToLeft(edits, upto)
    ensures StandsAt(Spliced(src, edits, upto), edits[k].start + Shift(edits, edits[k].start), edits[k].replacement)
    decreases |edits|
  {
    hide StandsAt;
    var s, rest := edits[0], edits[1..];
    var front, tail := Spliced(src, rest, s.start), src[s.end..upto];
    if k == 0 {
      SplicedLength(src, rest, s.start);
      ShiftAll(rest, s.start, s.start);
      StandsInMiddle(front, s.replacement, tail);
    } else {
      ReplacementPlaced(src, rest, s.start, k - 1);
      EditAt(rest, s.start, k - 1);
      StandsInFront(front, s.replacement, tail, edits[k].start + Shift(rest, edits[k].start), edits[k].replacement);
    }
  }

  /**
   Of two nested edits, in whatever order the sort leaves them, one is performed: the
   outer one, as the comment says, if and only if both start at the same place, and
   the inner one otherwise.
   */
  lemma OuterEditWinsExactly(outer: Suggestion, inner: Suggestion, n: nat, sorted: seq<Suggestion>)
    requires InRange(outer, n) && InRange(inner, n) && SortedFrom(sorted, [outer, inner])
    requires outer.start <= inner.start && inner.end <= outer.end && (outer.start < inner.start || inner.end < outer.end)
    ensures Chosen(sorted, n) == if outer.start == inner.start then [outer] else [inner]
  {
    var first, second := if outer.start == inner.start then outer else inner, if outer.start == inner.start then inner else outer;
    TwoOrders(sorted, outer, inner);
    assert sorted == [first, second];
    assert sorted[1..] == [second] && [second][1..] == [];
    assert Chosen([second], first.start) == [];
  }

  lemma TwoOrders(sorted: seq<Suggestion>, a: Suggestion, b: Suggestion)
    requires multiset(sorted) == multiset([a, b])
    ensures sorted == [a, b] || sorted == [b, a]
  {
    assert |sorted| == |multiset(sorted)| == |multiset([a, b])| == 2;
    assert sorted == [sorted[0], sorted[1]];
    assert sorted[0] in multiset(sorted) && sorted[1] in multiset(sorted);
    assert multiset([a, b]) == multiset{a, b} && multiset(sorted) == multiset{sorted[0], sorted[1]};
    assert multiset{sorted[0], sorted[1]} - multiset{sorted[0]} == multiset{a, b} - multiset{sorted[0]};
  }
}
