/** Unified-diff hunks (computeHunks of internal/blend/apply.go) and the patch they make. */
module BlendHunks {
  import opened Prelude
  import opened BlendDiff

  datatype Annotated = Annotated(kind: Edit, origIdx: int, newIdx: int)
  datatype Region = Region(start: int, end: int)
  datatype BodyLine = BodyLine(kind: Edit, text: string)

  /** The header prints both starts plus one. */
  datatype Hunk = Hunk(origStart: int, origCount: nat, newStart: int, newCount: nat, body: seq<BodyLine>)

  // ----- What the hunks are -----

  /** Line indices of an edit: -1 on the side it does not touch. */
  function Note(edits: seq<Edit>, k: nat): Annotated
    requires k < |edits|
  {
    Annotated(edits[k], if edits[k].Insert? then -1 else OldAt(edits, k), if edits[k].Delete? then -1 else NewAt(edits, k))
  }

  ghost predicate Notes(ann: seq<Annotated>, edits: seq<Edit>)
  {
    |ann| == |edits| && forall k :: 0 <= k < |edits| ==> ann[k] == Note(edits, k)
  }

  predicate Changed(edits: seq<Edit>, k: int)
  {
    0 <= k < |edits| && !edits[k].Keep?
  }

  /** Within the context of a change. */
  ghost predicate Near(edits: seq<Edit>, j: int, context: nat)
  {
    0 <= j < |edits| && exists k :: Changed(edits, k) && j - context <= k <= j + context
  }

  predicate Covers(r: Region, j: int)
  {
    r.start <= j < r.end
  }

  ghost predicate Covered(rs: seq<Region>, j: int)
  {
    exists i :: 0 <= i < |rs| && Covers(rs[i], j)
  }

  /** In range, not empty, and apart by more than `gap` from left to right. */
  ghost predicate Separated(rs: seq<Region>, n: nat, gap: int)
  {
    && (forall i :: 0 <= i < |rs| ==> 0 <= rs[i].start < rs[i].end <= n)
    && (forall i, j :: 0 <= i < j < |rs| ==> rs[j].start - rs[i].end > gap)
  }

  function OldAt(edits: seq<Edit>, k: nat): nat
    requires k <= |edits|
  {
    OldLen(edits[..k])
  }

  function NewAt(edits: seq<Edit>, k: nat): nat
    requires k <= |edits|
  {
    NewLen(edits[..k])
  }

  lemma Counts(edits: seq<Edit>, k: nat)
    requires k < |edits|
    ensures OldAt(edits, k + 1) == OldAt(edits, k) + (if edits[k].Insert? then 0 else 1)
    ensures NewAt(edits, k + 1) == NewAt(edits, k) + (if edits[k].Delete? then 0 else 1)
  {
    assert Front(edits[..k + 1]) == edits[..k];
  }

  lemma {:induction false} CountsGrow(edits: seq<Edit>, i: nat, j: nat)
    requires i <= j <= |edits|
    ensures OldAt(edits, i) <= OldAt(edits, j) && NewAt(edits, i) <= NewAt(edits, j)
    decreases j
  {
    if i < j {
      Counts(edits, j - 1);
      CountsGrow(edits, i, j - 1);
    }
  }

  /** Every edit of a script that turns a into b finds its lines. */
  lemma {:induction false} LinesExist(edits: seq<Edit>, a: seq<string>, b: seq<string>, k: nat)
    requires Turns(edits, a, b) && k < |edits|
    ensures !edits[k].Insert? ==> OldAt(edits, k) < |a|
    ensures !edits[k].Delete? ==> NewAt(edits, k) < |b|
    ensures edits[k].Keep? ==> a[OldAt(edits, k)] == b[NewAt(edits, k)]
  {
    var front := Front(edits);
    var a', b' := if Last(edits).Insert? then a else Front(a), if Last(edits).Delete? then b else Front(b);
    if k == |edits| - 1 {
      TurnsCounts(front, a', b');
    } else {
      LinesExist(front, a', b', k);
      assert front[..k] == edits[..k];
    }
  }

  ghost predicate AllLines(edits: seq<Edit>, a: seq<string>, b: seq<string>)
  {
    forall k :: 0 <= k < |edits| ==>
      && (!edits[k].Insert? ==> OldAt(edits, k) < |a|)
      && (!edits[k].Delete? ==> NewAt(edits, k) < |b|)
      && (edits[k].Keep? ==> a[OldAt(edits, k)] == b[NewAt(edits, k)])
  }

  lemma TurnsLines(edits: seq<Edit>, a: seq<string>, b: seq<string>)
    requires Turns(edits, a, b)
    ensures AllLines(edits, a, b) && OldAt(edits, |edits|) == |a| && NewAt(edits, |edits|) == |b|
  {
    forall k | 0 <= k < |edits|
      ensures
        && (!edits[k].Insert? ==> OldAt(edits, k) < |a|)
        && (!edits[k].Delete? ==> NewAt(edits, k) < |b|)
        && (edits[k].Keep? ==> a[OldAt(edits, k)] == b[NewAt(edits, k)])
    {
      LinesExist(edits, a, b, k);
    }
    TurnsCounts(edits, a, b);
    assert edits[..|edits|] == edits;
  }

  function Line(edits: seq<Edit>, a: seq<string>, b: seq<string>, k: nat): BodyLine
    requires AllLines(edits, a, b) && k < |edits|
  {
    BodyLine(edits[k], if edits[k].Insert? then b[NewAt(edits, k)] else a[OldAt(edits, k)])
  }

  function Body(edits: seq<Edit>, a: seq<string>, b: seq<string>, i: nat, j: nat): seq<BodyLine>
    requires AllLines(edits, a, b) && i <= j <= |edits|
    decreases j
  {
    if i == j then [] else Body(edits, a, b, i, j - 1) + [Line(edits, a, b, j - 1)]
  }

  /** The hunk of a stretch of the script: its true positions and line counts on both sides. */
  function HunkOf(edits: seq<Edit>, a: seq<string>, b: seq<string>, r: Region): Hunk
    requires AllLines(edits, a, b) && 0 <= r.start <= r.end <= |edits|
  {
    CountsGrow(edits, r.start, r.end);
    Hunk(OldAt(edits, r.start), OldAt(edits, r.end) - OldAt(edits, r.start),
         NewAt(edits, r.start), NewAt(edits, r.end) - NewAt(edits, r.start), Body(edits, a, b, r.start, r.end))
  }

  // ----- The algorithm -----

  method Annotate(edits: seq<Edit>) returns (ann: seq<Annotated>)
    ensures Notes(ann, edits)
  {
    ann := [];
    var oi, ni := 0, 0;
    for k := 0 to |edits|
      invariant |ann| == k && oi == OldAt(edits, k) && ni == NewAt(edits, k)
      invariant forall i :: 0 <= i < k ==> ann[i] == Note(edits, i)
    {
      Counts(edits, k);
      match edits[k] {
        case Keep =>
          ann := ann + [Annotated(Keep, oi, ni)];
          oi, ni := oi + 1, ni + 1;
        case Delete =>
          ann := ann + [Annotated(Delete, oi, -1)];
          oi := oi + 1;
        case Insert =>
          ann := ann + [Annotated(Insert, -1, ni)];
          ni := ni + 1;
      }
    }
  }

  /** The runs of changes. */
  method FindRegions(ann: seq<Annotated>, ghost edits: seq<Edit>) returns (regions: seq<Region>)
    requires Notes(ann, edits)
    ensures Separated(regions, |ann|, 0)
    ensures forall j :: Covered(regions, j) <==> Changed(edits, j)
  {
    hide Near;
    regions := [];
    var i := 0;
    while i < |ann|
      invariant 0 <= i <= |ann|
      invariant Separated(regions, i, 0)
      invariant regions != [] && Last(regions).end == i < |ann| ==> ann[i].kind.Keep?
      invariant forall j :: Covered(regions, j) <==> Changed(edits, j) && j < i
    {
      assert ann[i] == Note(edits, i);
      if !ann[i].kind.Keep? {
        var start := i;
        while i < |ann| && !ann[i].kind.Keep?
          invariant start <= i <= |ann|
          invariant forall j :: start <= j < i ==> Changed(edits, j)
        {
          assert ann[i] == Note(edits, i);
          i := i + 1;
        }
        CoveredSnoc(regions, Region(start, i));
        regions := regions + [Region(start, i)];
      } else {
        i := i + 1;
      }
    }
  }

  lemma CoveredSnoc(rs: seq<Region>, r: Region)
    ensures forall j :: Covered(rs + [r], j) <==> Covered(rs, j) || Covers(r, j)
  {
    var all := rs + [r];
    forall j
      ensures Covered(all, j) <==> Covered(rs, j) || Covers(r, j)
    {
      if Covered(rs, j) {
        var i :| 0 <= i < |rs| && Covers(rs[i], j);
        assert Covers(all[i], j);
      }
      if Covers(r, j) {
        assert Covers(all[|rs|], j);
      }
    }
  }

  /** Merged regions begin and end with a change, lie within the context of changes, and are apart by more than twice the context. */
  ghost predicate Merges(merged: seq<Region>, edits: seq<Edit>, context: nat)
  {
    && Separated(merged, |edits|, 2 * context)
    && (forall i :: 0 <= i < |merged| ==> Changed(edits, merged[i].start) && Changed(edits, merged[i].end - 1))
    && (forall j :: Covered(merged, j) ==> Near(edits, j, context))
  }

  method MergeRegions(regions: seq<Region>, ghost edits: seq<Edit>, context: nat) returns (merged: seq<Region>)
    requires Separated(regions, |edits|, 0)
    requires forall j :: Covered(regions, j) <==> Changed(edits, j)
    ensures Merges(merged, edits, context)
    ensures forall j :: Changed(edits, j) ==> Covered(merged, j)
  {
    hide Covered, Merges;
    merged := [];
    Empty(edits, context);
    for k := 0 to |regions|
      invariant Merges(merged, edits, context)
      invariant k == 0 ==> merged == []
      invariant k > 0 ==> merged != [] && Last(merged).end == regions[k - 1].end
      invariant forall j :: Covered(regions[..k], j) ==> Covered(merged, j)
    {
      var r := regions[k];
      assert regions[..k + 1] == regions[..k] + [r];
      CoveredSnoc(regions[..k], r);
      RegionChanged(regions, edits, k);
      if |merged| > 0 && r.start - merged[|merged| - 1].end <= 2 * context {
        var wider := Region(merged[|merged| - 1].start, r.end);
        ExtendLast(merged, r, edits, context);
        merged := merged[|merged| - 1 := wider];
      } else {
        AppendRegion(merged, r, edits, context);
        merged := merged + [r];
      }
    }
    assert regions[..|regions|] == regions;
  }

  lemma Empty(edits: seq<Edit>, context: nat)
    ensures Merges([], edits, context) && forall j :: !Covered([], j)
  {
  }

  lemma AppendRegion(merged: seq<Region>, r: Region, edits: seq<Edit>, context: nat)
    requires Merges(merged, edits, context) && 0 <= r.start < r.end <= |edits|
    requires merged != [] ==> r.start - Last(merged).end > 2 * context
    requires forall j :: Covers(r, j) ==> Changed(edits, j)
    ensures Merges(merged + [r], edits, context)
    ensures forall j :: Covered(merged, j) || Covers(r, j) ==> Covered(merged + [r], j)
  {
    hide Covered;
    CoveredSnoc(merged, r);
    forall j | Covers(r, j)
      ensures Near(edits, j, context)
    {
      assert Changed(edits, j);
    }
    assert Covers(r, r.start) && Covers(r, r.end - 1);
  }

  lemma RegionChanged(regions: seq<Region>, edits: seq<Edit>, k: nat)
    requires k < |regions| && forall j :: Covered(regions, j) <==> Changed(edits, j)
    ensures forall j :: Covers(regions[k], j) ==> Changed(edits, j)
  {
    forall j | Covers(regions[k], j)
      ensures Changed(edits, j)
    {
      assert Covered(regions, j);
    }
  }

  /** The last merged region grows over the gap to the next one. */
  lemma ExtendLast(merged: seq<Region>, r: Region, edits: seq<Edit>, context: nat)
    requires merged != [] && Merges(merged, edits, context)
    requires Last(merged).end < r.start < r.end <= |edits| && r.start - Last(merged).end <= 2 * context
    requires forall j :: Covers(r, j) ==> Changed(edits, j)
    ensures var m := merged[|merged| - 1 := Region(Last(merged).start, r.end)];
      && Merges(m, edits, context) && Last(m).end == r.end
      && forall j :: Covered(merged, j) || Covers(r, j) ==> Covered(m, j)
  {
    hide Covered;
    var last := Last(merged);
    var wider := Region(last.start, r.end);
    var m := merged[|merged| - 1 := wider];
    assert m == Front(merged) + [wider] && merged == Front(merged) + [last];
    CoveredSnoc(Front(merged), wider);
    CoveredSnoc(Front(merged), last);
    assert Covers(r, r.start) && Covers(r, r.end - 1);
    forall j | Covers(wider, j)
      ensures Near(edits, j, context)
    {
      if j < last.end {
        assert Covers(last, j);
      } else if j >= r.start {
        assert Covers(r, j);
      } else {
        assert Changed(edits, last.end - 1) && Changed(edits, r.start);
      }
    }
  }

  /** The entry behind the nearest keep before `from`, or the first. */
  function Lookback(edits: seq<Edit>, from: nat): (r: nat)
    requires from <= |edits|
    ensures r <= from
  {
    if from == 0 || edits[from - 1].Keep? then from else Lookback(edits, from - 1)
  }

  method FindNewStart(ann: seq<Annotated>, from: nat, ghost edits: seq<Edit>) returns (r: nat)
    requires Notes(ann, edits) && from < |ann|
    ensures r == NewAt(edits, Lookback(edits, from))
  {
    var i := from - 1;
    while i >= 0
      invariant -1 <= i < from
      invariant Lookback(edits, i + 1) == Lookback(edits, from)
    {
      assert ann[i] == Note(edits, i);
      if ann[i].kind.Keep? {
        Counts(edits, i);
        return ann[i].newIdx + 1;
      }
      i := i - 1;
    }
    return 0;
  }

  method FindOrigStart(ann: seq<Annotated>, from: nat, ghost edits: seq<Edit>) returns (r: nat)
    requires Notes(ann, edits) && from < |ann|
    ensures r == OldAt(edits, Lookback(edits, from))
  {
    var i := from - 1;
    while i >= 0
      invariant -1 <= i < from
      invariant Lookback(edits, i + 1) == Lookback(edits, from)
    {
      assert ann[i] == Note(edits, i);
      if ann[i].kind.Keep? {
        Counts(edits, i);
        return ann[i].origIdx + 1;
      }
      i := i - 1;
    }
    return 0;
  }

  /** The look-back gives the new position of an entry exactly when no line is inserted since the last keep; it would be wrong inside a run of changes. */
  lemma {:induction false} LookbackExact(edits: seq<Edit>, from: nat)
    requires from <= |edits|
    ensures NewAt(edits, Lookback(edits, from)) == NewAt(edits, from) <==> forall k :: Lookback(edits, from) <= k < from ==> !edits[k].Insert?
    ensures OldAt(edits, Lookback(edits, from)) == OldAt(edits, from) <==> forall k :: Lookback(edits, from) <= k < from ==> !edits[k].Delete?
  {
    if from == 0 || edits[from - 1].Keep? {
    } else {
      LookbackExact(edits, from - 1);
      Counts(edits, from - 1);
      CountsGrow(edits, Lookback(edits, from), from - 1);
      assert edits[from - 1].Delete? || edits[from - 1].Insert?;
    }
  }

  /** One hunk, line by line. */
  method BuildHunk(a: seq<string>, b: seq<string>, ann: seq<Annotated>, r: Region, ghost edits: seq<Edit>) returns (h: Hunk)
    requires Notes(ann, edits) && AllLines(edits, a, b)
    requires 0 <= r.start < r.end <= |ann|
    requires Changed(edits, r.start) ==> Lookback(edits, r.start) == r.start
    ensures h == HunkOf(edits, a, b, r)
  {
    hide OldAt, NewAt, Lookback;
    var origStart, newStart := -1, -1;
    var origCount, newCount := 0, 0;
    var body := [];
    var j := r.start;
    while j < r.end
      invariant r.start <= j <= r.end
      invariant body == Body(edits, a, b, r.start, j)
      invariant j == r.start ==> origStart == -1
      invariant j > r.start ==> origStart == OldAt(edits, r.start) && newStart == NewAt(edits, r.start)
      invariant origCount == OldAt(edits, j) - OldAt(edits, r.start)
      invariant newCount == NewAt(edits, j) - NewAt(edits, r.start)
    {
      var e := ann[j];
      assert e == Note(edits, j);
      Counts(edits, j);
      match e.kind {
        case Keep =>
          if origStart == -1 {
            origStart, newStart := e.origIdx, e.newIdx;
          }
          body := body + [BodyLine(Keep, a[e.origIdx])];
          origCount, newCount := origCount + 1, newCount + 1;
        case Delete =>
          if origStart == -1 {
            origStart := e.origIdx;
            newStart := FindNewStart(ann, j, edits);
          }
          body := body + [BodyLine(Delete, a[e.origIdx])];
          origCount := origCount + 1;
        case Insert =>
          if origStart == -1 {
            origStart := FindOrigStart(ann, j, edits);
            newStart := e.newIdx;
          }
          body := body + [BodyLine(Insert, b[e.newIdx])];
          newCount := newCount + 1;
      }
      j := j + 1;
    }
    h := Hunk(origStart, origCount, newStart, newCount, body);
  }

  /** The hunks are the maximal stretches of entries within the context of a change, in order, each with its true header. */
  ghost predicate HunksOf(hunks: seq<Hunk>, spans: seq<Region>, edits: seq<Edit>, a: seq<string>, b: seq<string>, context: nat)
    requires AllLines(edits, a, b)
  {
    && Separated(spans, |edits|, 0)
    && (forall j :: Covered(spans, j) <==> Near(edits, j, context))
    && |hunks| == |spans|
    && (forall i :: 0 <= i < |spans| ==> hunks[i] == HunkOf(edits, a, b, spans[i]))
  }

  /** The hunks of a shortest script, in its stretches near a change. */
  ghost predicate Describes(hunks: seq<Hunk>, spans: seq<Region>, edits: seq<Edit>, a: seq<string>, b: seq<string>, context: nat)
  {
    Turns(edits, a, b) && Keeps(edits) == Lcs(a, b, 0, 0) && AllLines(edits, a, b) && HunksOf(hunks, spans, edits, a, b, context)
  }

  method ComputeHunks(a: seq<string>, b: seq<string>, context: nat) returns (hunks: seq<Hunk>)
    ensures exists spans, edits :: Describes(hunks, spans, edits, a, b, context)
    ensures Patch(a, hunks, 0, 0) == Some(b) && Patch(b, Flips(hunks), 0, 0) == Some(a)
  {
    ghost var edits, spans;
    hunks, edits, spans := DiffAndGroup(a, b, context);
    PatchRoundTrip(hunks, spans, edits, a, b, context);
  }

  /** Script, regions, merged regions and hunks, in this order. */
  method DiffAndGroup(a: seq<string>, b: seq<string>, context: nat) returns (hunks: seq<Hunk>, ghost edits: seq<Edit>, ghost spans: seq<Region>)
    ensures Describes(hunks, spans, edits, a, b, context)
  {
    hide Covered, Near, Lcs, Turns, Keeps, Lookback, HunkOf, Merges, Separated, AllLines;
    var script := DiffLines(a, b);
    edits := script;
    TurnsLines(edits, a, b);
    var hasChanges := false;
    for i := 0 to |script|
      invariant hasChanges <==> exists k :: 0 <= k < i && Changed(edits, k)
    {
      assert script[i] != Keep <==> Changed(edits, i);
      if script[i] != Keep {
        hasChanges := true;
        break;
      }
    }
    if !hasChanges {
      hunks, spans := [], [];
      NoHunks(edits, a, b, context);
      return;
    }
    var ann := Annotate(script);
    var regions := FindRegions(ann, edits);
    var merged := MergeRegions(regions, edits, context);
    hunks, spans := [], [];
    for i := 0 to |merged|
      invariant |hunks| == |spans| == i && spans == Widened(merged, |edits|, context)[..i]
      invariant forall k :: 0 <= k < i ==> 0 <= spans[k].start <= spans[k].end <= |edits| && hunks[k] == HunkOf(edits, a, b, spans[k])
    {
      var r := merged[i];
      var span := Region(Max(r.start - context, 0), Min(r.end + context, |ann|));
      MergedStarts(merged, edits, context, i);
      var h := BuildHunk(a, b, ann, span, edits);
      hunks := hunks + [h];
      spans := spans + [span];
    }
    assert spans == Widened(merged, |edits|, context);
    WidenedIsNear(merged, edits, context);
  }

  lemma NoHunks(edits: seq<Edit>, a: seq<string>, b: seq<string>, context: nat)
    requires AllLines(edits, a, b) && forall k :: !Changed(edits, k)
    ensures HunksOf([], [], edits, a, b, context)
  {
  }

  function Widen(r: Region, n: nat, context: nat): Region
  {
    Region(Max(r.start - context, 0), Min(r.end + context, n))
  }

  function Widened(merged: seq<Region>, n: nat, context: nat): seq<Region>
  {
    seq(|merged|, i requires 0 <= i < |merged| => Widen(merged[i], n, context))
  }

  /** A hunk starts at the first entry, at a keep, or, without context, at a change behind a keep. */
  ghost predicate StartsWell(r: Region, edits: seq<Edit>)
  {
    0 <= r.start < r.end <= |edits| && (Changed(edits, r.start) ==> Lookback(edits, r.start) == r.start)
  }

  lemma MergedStarts(merged: seq<Region>, edits: seq<Edit>, context: nat, i: nat)
    requires Merges(merged, edits, context) && (forall j :: Changed(edits, j) ==> Covered(merged, j)) && i < |merged|
    ensures StartsWell(Widen(merged[i], |edits|, context), edits)
  {
    hide Covered, Lookback, Near;
    var start := merged[i].start - context;
    if start > 0 {
      if context > 0 && Changed(edits, start) {
        OnlyBetween(merged, edits, context, i, start);
      } else if context == 0 && Changed(edits, start - 1) {
        OnlyBetween(merged, edits, context, i, start - 1);
      }
    }
    LookbackAtKeep(edits);
  }

  lemma LookbackAtKeep(edits: seq<Edit>)
    ensures Lookback(edits, 0) == 0
    ensures forall k :: 0 < k <= |edits| && !Changed(edits, k - 1) ==> Lookback(edits, k) == k
  {
  }

  /** Up to twice the context before a merged region there is no change. */
  lemma OnlyBetween(merged: seq<Region>, edits: seq<Edit>, context: nat, i: nat, j: int)
    requires Merges(merged, edits, context) && Covered(merged, j) && i < |merged|
    ensures !(merged[i].start - 2 * context - 1 <= j < merged[i].start)
  {
    var k :| 0 <= k < |merged| && Covers(merged[k], j);
    if k < i {
      assert merged[i].start - merged[k].end > 2 * context;
    } else if i < k {
      assert merged[k].start - merged[i].end > 2 * context;
    }
  }

  lemma WidenedIsNear(merged: seq<Region>, edits: seq<Edit>, context: nat)
    requires Merges(merged, edits, context) && forall j :: Changed(edits, j) ==> Covered(merged, j)
    ensures var spans := Widened(merged, |edits|, context);
      Separated(spans, |edits|, 0) && forall j :: Covered(spans, j) <==> Near(edits, j, context)
  {
    hide Covered, Near, Changed, Separated, Widened;
    var spans := Widened(merged, |edits|, context);
    WidenedSeparated(merged, edits, context);
    forall j
      ensures Covered(spans, j) <==> Near(edits, j, context)
    {
      WidenedCovers(merged, edits, context, j);
    }
  }

  lemma WidenedSeparated(merged: seq<Region>, edits: seq<Edit>, context: nat)
    requires Separated(merged, |edits|, 2 * context)
    ensures Separated(Widened(merged, |edits|, context), |edits|, 0)
  {
  }

  lemma WidenedCovers(merged: seq<Region>, edits: seq<Edit>, context: nat, j: int)
    requires Merges(merged, edits, context) && forall j :: Changed(edits, j) ==> Covered(merged, j)
    ensures Covered(Widened(merged, |edits|, context), j) <==> Near(edits, j, context)
  {
    hide Merges, Separated;
    var spans := Widened(merged, |edits|, context);
    if Covered(spans, j) {
      var i :| 0 <= i < |spans| && Covers(spans[i], j);
      SpanNear(merged, edits, context, i, j);
    }
    if Near(edits, j, context) {
      var k :| Changed(edits, k) && j - context <= k <= j + context;
      var i :| 0 <= i < |merged| && Covers(merged[i], k);
      assert Covers(spans[i], j);
    }
  }

  lemma SpanNear(merged: seq<Region>, edits: seq<Edit>, context: nat, i: nat, j: int)
    requires Merges(merged, edits, context) && i < |merged| && Covers(Widen(merged[i], |edits|, context), j)
    ensures Near(edits, j, context)
  {
    var r := merged[i];
    assert Changed(edits, r.start) && Changed(edits, r.end - 1);
    if Covers(r, j) {
      assert Covered(merged, j);
    } else if j < r.start {
      assert j - context <= r.start <= j + context;
    } else {
      assert j - context <= r.end - 1 <= j + context;
    }
  }

  /** Every changed entry lies in exactly one hunk. */
  lemma EachChangeInOneHunk(spans: seq<Region>, edits: seq<Edit>, context: nat, k: int)
    requires Separated(spans, |edits|, 0) && (forall j :: Covered(spans, j) <==> Near(edits, j, context))
    requires Changed(edits, k)
    ensures exists i :: 0 <= i < |spans| && Covers(spans[i], k) && forall i' :: 0 <= i' < |spans| && Covers(spans[i'], k) ==> i' == i
  {
    assert Near(edits, k, context);
    assert Covered(spans, k);
    var i :| 0 <= i < |spans| && Covers(spans[i], k);
    forall i' | 0 <= i' < |spans| && Covers(spans[i'], k)
      ensures i' == i
    {
    }
  }

  // ----- Applying the hunks -----

  /** The texts of the context and deleted lines. */
  function OldSide(body: seq<BodyLine>): seq<string>
  {
    if body == [] then [] else OldSide(Front(body)) + (if Last(body).kind.Insert? then [] else [Last(body).text])
  }

  /** The texts of the context and inserted lines. */
  function NewSide(body: seq<BodyLine>): seq<string>
  {
    if body == [] then [] else NewSide(Front(body)) + (if Last(body).kind.Delete? then [] else [Last(body).text])
  }

  /**
   A strict patch program: a hunk applies only at its header position on both
   sides, with the header's counts, and where the old lines are exactly its own.
   */
  function Patch(before: seq<string>, hunks: seq<Hunk>, pos: nat, newPos: nat): Option<seq<string>>
    requires pos <= |before|
    decreases |hunks|
  {
    if hunks == [] then Some(before[pos..])
    else
      var h := hunks[0];
      var o, n := OldSide(h.body), NewSide(h.body);
      if !(pos <= h.origStart && h.origStart - pos == h.newStart - newPos) then None
      else if !(h.origCount == |o| && h.newCount == |n|) then None
      else if !(h.origStart + |o| <= |before| && before[h.origStart..h.origStart + |o|] == o) then None
      else
        var rest := Patch(before, hunks[1..], h.origStart + |o|, h.newStart + |n|);
        if rest.None? then None else Some(before[pos..h.origStart] + n + rest.value)
  }

  lemma {:induction false} BodySides(edits: seq<Edit>, a: seq<string>, b: seq<string>, i: nat, j: nat)
    requires AllLines(edits, a, b) && i <= j <= |edits| && OldAt(edits, j) <= |a| && NewAt(edits, j) <= |b|
    ensures OldAt(edits, i) <= OldAt(edits, j) && NewAt(edits, i) <= NewAt(edits, j)
    ensures OldSide(Body(edits, a, b, i, j)) == a[OldAt(edits, i)..OldAt(edits, j)]
    ensures NewSide(Body(edits, a, b, i, j)) == b[NewAt(edits, i)..NewAt(edits, j)]
    decreases j
  {
    hide OldSide, NewSide, OldAt, NewAt;
    CountsGrow(edits, i, j);
    if i < j {
      Counts(edits, j - 1);
      CountsGrow(edits, i, j - 1);
      BodySides(edits, a, b, i, j - 1);
      SideSnoc(Body(edits, a, b, i, j - 1), Line(edits, a, b, j - 1));
    } else {
      SideNone();
    }
  }

  lemma SideSnoc(body: seq<BodyLine>, line: BodyLine)
    ensures OldSide(body + [line]) == OldSide(body) + (if line.kind.Insert? then [] else [line.text])
    ensures NewSide(body + [line]) == NewSide(body) + (if line.kind.Delete? then [] else [line.text])
  {
    assert Front(body + [line]) == body && Last(body + [line]) == line;
  }

  lemma SideNone()
    ensures OldSide([]) == [] && NewSide([]) == []
  {
  }

  /** Between hunks both sides have the same lines. */
  lemma {:induction false} GapLines(edits: seq<Edit>, a: seq<string>, b: seq<string>, i: nat, j: nat)
    requires AllLines(edits, a, b) && i <= j <= |edits| && OldAt(edits, j) <= |a| && NewAt(edits, j) <= |b|
    requires forall k :: i <= k < j ==> !Changed(edits, k)
    ensures OldAt(edits, j) - OldAt(edits, i) == NewAt(edits, j) - NewAt(edits, i) == j - i
    ensures a[OldAt(edits, i)..OldAt(edits, j)] == b[NewAt(edits, i)..NewAt(edits, j)]
    decreases j
  {
    hide OldAt, NewAt;
    if i < j {
      Counts(edits, j - 1);
      assert !Changed(edits, j - 1);
      GapLines(edits, a, b, i, j - 1);
      SliceSnoc(a, OldAt(edits, i), OldAt(edits, j - 1));
      SliceSnoc(b, NewAt(edits, i), NewAt(edits, j - 1));
    }
  }

  lemma SliceSnoc(lines: seq<string>, i: nat, j: nat)
    requires i <= j < |lines|
    ensures lines[i..j + 1] == lines[i..j] + [lines[j]]
  {
  }

  function Hunks(edits: seq<Edit>, a: seq<string>, b: seq<string>, spans: seq<Region>): seq<Hunk>
    requires AllLines(edits, a, b) && Separated(spans, |edits|, 0)
  {
    seq(|spans|, i requires 0 <= i < |spans| => HunkOf(edits, a, b, spans[i]))
  }

  /** From any entry before the first span on, the hunks turn the rest of the old lines into the rest of the new ones. */
  lemma {:induction false} PatchFrom(edits: seq<Edit>, a: seq<string>, b: seq<string>, spans: seq<Region>, from: nat)
    requires AllLines(edits, a, b) && OldAt(edits, |edits|) == |a| && NewAt(edits, |edits|) == |b|
    requires Separated(spans, |edits|, 0) && from <= |edits| && (spans != [] ==> from <= spans[0].start)
    requires forall k :: from <= k && Changed(edits, k) ==> Covered(spans, k)
    ensures OldAt(edits, from) <= |a| && NewAt(edits, from) <= |b|
    ensures Patch(a, Hunks(edits, a, b, spans), OldAt(edits, from), NewAt(edits, from)) == Some(b[NewAt(edits, from)..])
    decreases |spans|
  {
    hide OldAt, NewAt, Applies, Covered, AllLines, HunkOf;
    CountsGrow(edits, from, |edits|);
    if spans == [] {
      NoneCovered();
      GapLines(edits, a, b, from, |edits|);
      assert a[OldAt(edits, from)..|a|] == a[OldAt(edits, from)..];
      assert b[NewAt(edits, from)..|b|] == b[NewAt(edits, from)..];
    } else {
      PatchFirst(edits, a, b, spans, from);
      var r := spans[0];
      SpansTail(edits, spans, r.end);
      PatchFrom(edits, a, b, spans[1..], r.end);
      var hunks := Hunks(edits, a, b, spans);
      assert hunks[1..] == Hunks(edits, a, b, spans[1..]);
      PatchStep(a, b, hunks, OldAt(edits, from), NewAt(edits, from), OldAt(edits, r.end), NewAt(edits, r.end));
    }
  }

  lemma NoneCovered()
    ensures forall k :: !Covered([], k)
  {
  }

  lemma SpansTail(edits: seq<Edit>, spans: seq<Region>, from: nat)
    requires spans != [] && Separated(spans, |edits|, 0) && from == spans[0].end
    requires forall k :: spans[0].start <= k && Changed(edits, k) ==> Covered(spans, k)
    ensures Separated(spans[1..], |edits|, 0) && (|spans| > 1 ==> from <= spans[1].start)
    ensures forall k :: from <= k && Changed(edits, k) ==> Covered(spans[1..], k)
  {
    forall k | from <= k && Changed(edits, k)
      ensures Covered(spans[1..], k)
    {
      var i :| 0 <= i < |spans| && Covers(spans[i], k);
      assert Covers(spans[1..][i - 1], k);
    }
  }

  /** The first hunk applies where the header says. */
  lemma PatchFirst(edits: seq<Edit>, a: seq<string>, b: seq<string>, spans: seq<Region>, from: nat)
    requires AllLines(edits, a, b) && OldAt(edits, |edits|) == |a| && NewAt(edits, |edits|) == |b|
    requires Separated(spans, |edits|, 0) && spans != [] && from <= spans[0].start
    requires forall k :: from <= k && Changed(edits, k) ==> Covered(spans, k)
    ensures Applies(HunkOf(edits, a, b, spans[0]), a, b, OldAt(edits, from), NewAt(edits, from), OldAt(edits, spans[0].end), NewAt(edits, spans[0].end))
  {
    var r := spans[0];
    forall k | from <= k < r.start
      ensures !Changed(edits, k)
    {
    }
    CountsGrow(edits, from, r.start);
    CountsGrow(edits, r.start, r.end);
    CountsGrow(edits, r.end, |edits|);
    GapLines(edits, a, b, from, r.start);
    BodySides(edits, a, b, r.start, r.end);
  }

  ghost predicate Applies(h: Hunk, a: seq<string>, b: seq<string>, pos: nat, newPos: nat, pos': nat, newPos': nat)
  {
    && pos <= h.origStart <= pos' <= |a| && newPos <= h.newStart <= newPos' <= |b|
    && a[pos..h.origStart] == b[newPos..h.newStart]
    && OldSide(h.body) == a[h.origStart..pos'] && NewSide(h.body) == b[h.newStart..newPos']
    && h.origCount == pos' - h.origStart && h.newCount == newPos' - h.newStart
  }

  lemma PatchStep(a: seq<string>, b: seq<string>, hunks: seq<Hunk>, pos: nat, newPos: nat, pos': nat, newPos': nat)
    requires hunks != [] && Applies(hunks[0], a, b, pos, newPos, pos', newPos')
    requires Patch(a, hunks[1..], pos', newPos') == Some(b[newPos'..])
    ensures Patch(a, hunks, pos, newPos) == Some(b[newPos..])
  {
    var h := hunks[0];
    assert |a[pos..h.origStart]| == |b[newPos..h.newStart]|;
    assert b[newPos..] == b[newPos..h.newStart] + b[h.newStart..newPos'] + b[newPos'..];
  }

  // ----- Reversing -----

  function FlipEdit(e: Edit): Edit
  {
    match e case Keep => Keep case Delete => Insert case Insert => Delete
  }

  function FlipScript(edits: seq<Edit>): seq<Edit>
  {
    seq(|edits|, k requires 0 <= k < |edits| => FlipEdit(edits[k]))
  }

  function FlipBody(body: seq<BodyLine>): seq<BodyLine>
  {
    seq(|body|, k requires 0 <= k < |body| => BodyLine(FlipEdit(body[k].kind), body[k].text))
  }

  /** The hunk that undoes a hunk. */
  function Flip(h: Hunk): Hunk
  {
    Hunk(h.newStart, h.newCount, h.origStart, h.origCount, FlipBody(h.body))
  }

  lemma {:induction false} FlipCounts(edits: seq<Edit>, k: nat)
    requires k <= |edits|
    ensures OldAt(FlipScript(edits), k) == NewAt(edits, k) && NewAt(FlipScript(edits), k) == OldAt(edits, k)
    decreases k
  {
    if k > 0 {
      FlipCounts(edits, k - 1);
      Counts(edits, k - 1);
      Counts(FlipScript(edits), k - 1);
    }
  }

  lemma FlipLines(edits: seq<Edit>, a: seq<string>, b: seq<string>)
    requires AllLines(edits, a, b)
    ensures AllLines(FlipScript(edits), b, a)
  {
    var back := FlipScript(edits);
    forall k | 0 <= k < |back|
      ensures
        && (!back[k].Insert? ==> OldAt(back, k) < |b|)
        && (!back[k].Delete? ==> NewAt(back, k) < |a|)
        && (back[k].Keep? ==> b[OldAt(back, k)] == a[NewAt(back, k)])
    {
      FlipCounts(edits, k);
    }
  }

  lemma {:induction false} FlipBodies(edits: seq<Edit>, a: seq<string>, b: seq<string>, i: nat, j: nat)
    requires AllLines(edits, a, b) && AllLines(FlipScript(edits), b, a) && i <= j <= |edits|
    ensures Body(FlipScript(edits), b, a, i, j) == FlipBody(Body(edits, a, b, i, j))
    decreases j
  {
    hide AllLines, Line, FlipBody, FlipScript;
    if i < j {
      FlipBodies(edits, a, b, i, j - 1);
      FlipLine(edits, a, b, j - 1);
      FlipBodySnoc(Body(edits, a, b, i, j - 1), Line(edits, a, b, j - 1));
    } else {
      FlipNone();
    }
  }

  lemma FlipNone()
    ensures FlipBody([]) == []
  {
  }

  lemma FlipLine(edits: seq<Edit>, a: seq<string>, b: seq<string>, k: nat)
    requires AllLines(edits, a, b) && AllLines(FlipScript(edits), b, a) && k < |edits|
    ensures |FlipScript(edits)| == |edits|
    ensures var line := Line(edits, a, b, k); Line(FlipScript(edits), b, a, k) == BodyLine(FlipEdit(line.kind), line.text)
  {
    FlipCounts(edits, k);
  }

  lemma FlipBodySnoc(body: seq<BodyLine>, line: BodyLine)
    ensures FlipBody(body + [line]) == FlipBody(body) + [BodyLine(FlipEdit(line.kind), line.text)]
  {
  }

  lemma FlipHunks(edits: seq<Edit>, a: seq<string>, b: seq<string>, spans: seq<Region>, hunks: seq<Hunk>)
    requires AllLines(edits, a, b) && AllLines(FlipScript(edits), b, a) && Separated(spans, |edits|, 0)
    requires hunks == Hunks(edits, a, b, spans)
    ensures Hunks(FlipScript(edits), b, a, spans) == seq(|hunks|, i requires 0 <= i < |hunks| => Flip(hunks[i]))
  {
    hide AllLines, Line;
    forall i | 0 <= i < |spans|
      ensures HunkOf(FlipScript(edits), b, a, spans[i]) == Flip(hunks[i])
    {
      var r := spans[i];
      FlipCounts(edits, r.start);
      FlipCounts(edits, r.end);
      FlipBodies(edits, a, b, r.start, r.end);
    }
  }

  function Flips(hunks: seq<Hunk>): seq<Hunk>
  {
    seq(|hunks|, i requires 0 <= i < |hunks| => Flip(hunks[i]))
  }

  lemma PatchAll(edits: seq<Edit>, a: seq<string>, b: seq<string>, spans: seq<Region>)
    requires AllLines(edits, a, b) && OldAt(edits, |edits|) == |a| && NewAt(edits, |edits|) == |b| && Separated(spans, |edits|, 0)
    requires forall k :: Changed(edits, k) ==> Covered(spans, k)
    ensures Patch(a, Hunks(edits, a, b, spans), 0, 0) == Some(b)
  {
    hide AllLines, Separated, Covered, Hunks, Patch;
    SpansStart(spans, |edits|);
    assert OldAt(edits, 0) == NewAt(edits, 0) == 0;
    PatchFrom(edits, a, b, spans, 0);
    assert b[0..] == b;
  }

  lemma SpansStart(spans: seq<Region>, n: nat)
    requires Separated(spans, n, 0)
    ensures spans != [] ==> 0 <= spans[0].start
  {
  }

  lemma ChangesCovered(hunks: seq<Hunk>, spans: seq<Region>, edits: seq<Edit>, a: seq<string>, b: seq<string>, context: nat)
    requires AllLines(edits, a, b) && HunksOf(hunks, spans, edits, a, b, context)
    ensures hunks == Hunks(edits, a, b, spans) && forall k :: Changed(edits, k) ==> Covered(spans, k)
  {
    hide AllLines, HunkOf;
    forall k | Changed(edits, k)
      ensures Covered(spans, k)
    {
      assert Near(edits, k, context);
    }
  }

  lemma SpansApart(hunks: seq<Hunk>, spans: seq<Region>, edits: seq<Edit>, a: seq<string>, b: seq<string>, context: nat)
    requires AllLines(edits, a, b) && HunksOf(hunks, spans, edits, a, b, context)
    ensures Separated(spans, |edits|, 0)
  {
  }

  /** The same entries change in both directions. */
  lemma FlipChanges(edits: seq<Edit>, spans: seq<Region>)
    requires forall k :: Changed(edits, k) ==> Covered(spans, k)
    ensures |FlipScript(edits)| == |edits| && forall k :: Changed(FlipScript(edits), k) ==> Covered(spans, k)
  {
    hide Covered;
    forall k | Changed(FlipScript(edits), k)
      ensures Covered(spans, k)
    {
      assert Changed(edits, k);
    }
  }

  lemma FlipsAll(hunks: seq<Hunk>)
    ensures Flips(hunks) == seq(|hunks|, i requires 0 <= i < |hunks| => Flip(hunks[i]))
  {
  }

  /** Applying the hunks at their header positions gives exactly the new lines, and applying their reverses to the new lines gives back the old ones, for every context. */
  lemma PatchRoundTrip(hunks: seq<Hunk>, spans: seq<Region>, edits: seq<Edit>, a: seq<string>, b: seq<string>, context: nat)
    requires Describes(hunks, spans, edits, a, b, context)
    ensures Patch(a, hunks, 0, 0) == Some(b)
    ensures Patch(b, Flips(hunks), 0, 0) == Some(a)
  {
    hide AllLines, HunksOf, Covered, Hunks, Patch, Flips;
    TurnsLines(edits, a, b);
    ChangesCovered(hunks, spans, edits, a, b, context);
    SpansApart(hunks, spans, edits, a, b, context);
    PatchAll(edits, a, b, spans);
    FlipLines(edits, a, b);
    FlipHunks(edits, a, b, spans, hunks);
    FlipsAll(hunks);
    FlipCounts(edits, |edits|);
    FlipChanges(edits, spans);
    PatchAll(FlipScript(edits), b, a, spans);
  }
}
