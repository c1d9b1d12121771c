/** The line diff (diffLines of internal/blend/apply.go) and why it is a shortest one. */
module BlendDiff {
  import opened Prelude

  datatype Edit = Keep | Delete | Insert

  /** Old lines a script reads. */
  function OldLen(script: seq<Edit>): nat
  {
    if script == [] then 0 else OldLen(Front(script)) + (if Last(script).Insert? then 0 else 1)
  }

  /** New lines a script writes. */
  function NewLen(script: seq<Edit>): nat
  {
    if script == [] then 0 else NewLen(Front(script)) + (if Last(script).Delete? then 0 else 1)
  }

  function Keeps(script: seq<Edit>): nat
  {
    if script == [] then 0 else Keeps(Front(script)) + (if Last(script).Keep? then 1 else 0)
  }

  /** Insertions and deletions. */
  function Changes(script: seq<Edit>): nat
  {
    if script == [] then 0 else Changes(Front(script)) + (if Last(script).Keep? then 0 else 1)
  }

  /** The script reads all of a, writes all of b, and keeps only equal lines. */
  ghost predicate Turns(script: seq<Edit>, a: seq<string>, b: seq<string>)
  {
    if script == [] then a == [] && b == []
    else match Last(script)
      case Keep => a != [] && b != [] && Last(a) == Last(b) && Turns(Front(script), Front(a), Front(b))
      case Delete => a != [] && Turns(Front(script), Front(a), b)
      case Insert => b != [] && Turns(Front(script), a, Front(b))
  }

  lemma {:induction false} TurnsCounts(script: seq<Edit>, a: seq<string>, b: seq<string>)
    requires Turns(script, a, b)
    ensures OldLen(script) == |a| && NewLen(script) == |b|
    ensures Changes(script) + 2 * Keeps(script) == |a| + |b|
  {
    if script != [] {
      match Last(script)
      case Keep => TurnsCounts(Front(script), Front(a), Front(b));
      case Delete => TurnsCounts(Front(script), Front(a), b);
      case Insert => TurnsCounts(Front(script), a, Front(b));
    }
  }

  // ----- Common subsequences -----

  ghost predicate Subsequence(xs: seq<string>, a: seq<string>)
  {
    xs == [] || (a != [] && ((xs[0] == a[0] && Subsequence(xs[1..], a[1..])) || Subsequence(xs, a[1..])))
  }

  ghost predicate Common(xs: seq<string>, a: seq<string>, b: seq<string>)
  {
    Subsequence(xs, a) && Subsequence(xs, b)
  }

  lemma {:induction false} SubTail(xs: seq<string>, a: seq<string>)
    requires Subsequence(xs, a) && xs != []
    ensures a != [] && Subsequence(xs[1..], a[1..])
    decreases |a|
  {
    if !(xs[0] == a[0] && Subsequence(xs[1..], a[1..])) {
      SubTail(xs, a[1..]);
      SubWeaken(xs[1..], a[1..]);
    }
  }

  lemma {:induction false} SubWeaken(xs: seq<string>, a: seq<string>)
    requires a != [] && Subsequence(xs, a[1..])
    ensures Subsequence(xs, a)
  {
  }

  /** The table's recurrence, from the last lines up. */
  function Lcs(a: seq<string>, b: seq<string>, i: nat, j: nat): nat
    requires i <= |a| && j <= |b|
    decreases |a| - i + |b| - j
  {
    if i == |a| || j == |b| then 0
    else if a[i] == b[j] then Lcs(a, b, i + 1, j + 1) + 1
    else Max(Lcs(a, b, i + 1, j), Lcs(a, b, i, j + 1))
  }

  /** No common subsequence of the remaining lines is longer than the table says. */
  lemma {:induction false} LcsBounds(a: seq<string>, b: seq<string>, i: nat, j: nat, xs: seq<string>)
    requires i <= |a| && j <= |b| && Common(xs, a[i..], b[j..])
    ensures |xs| <= Lcs(a, b, i, j)
    decreases |a| - i + |b| - j
  {
    if xs != [] {
      assert a[i..][1..] == a[i + 1..] && b[j..][1..] == b[j + 1..];
      if a[i] == b[j] {
        SubTail(xs, a[i..]);
        SubTail(xs, b[j..]);
        LcsBounds(a, b, i + 1, j + 1, xs[1..]);
      } else if Subsequence(xs, a[i + 1..]) {
        LcsBounds(a, b, i + 1, j, xs);
      } else {
        LcsBounds(a, b, i, j + 1, xs);
      }
    }
  }

  /** The lines a script keeps. */
  function Kept(script: seq<Edit>, a: seq<string>): seq<string>
    requires OldLen(script) == |a|
  {
    if script == [] then []
    else match Last(script)
      case Keep => Kept(Front(script), Front(a)) + [Last(a)]
      case Delete => Kept(Front(script), Front(a))
      case Insert => Kept(Front(script), a)
  }

  lemma {:induction false} SubGrow(xs: seq<string>, a: seq<string>, x: string)
    requires Subsequence(xs, a)
    ensures Subsequence(xs, a + [x]) && Subsequence(xs + [x], a + [x])
    decreases |a|
  {
    if a == [] {
      assert xs + [x] == [x] && a + [x] == [x] && [x][1..] == [];
    } else {
      assert (a + [x])[1..] == a[1..] + [x];
      if xs == [] || Subsequence(xs, a[1..]) {
        SubGrow(xs, a[1..], x);
      } else {
        SubGrow(xs[1..], a[1..], x);
        assert (xs + [x])[1..] == xs[1..] + [x];
      }
    }
  }

  /** What a script keeps is a common subsequence. */
  lemma {:induction false} KeptIsCommon(script: seq<Edit>, a: seq<string>, b: seq<string>)
    requires Turns(script, a, b)
    ensures OldLen(script) == |a| && |Kept(script, a)| == Keeps(script) && Common(Kept(script, a), a, b)
  {
    TurnsCounts(script, a, b);
    if script != [] {
      assert a != [] ==> a == Front(a) + [Last(a)];
      assert b != [] ==> b == Front(b) + [Last(b)];
      match Last(script)
      case Keep =>
        KeptIsCommon(Front(script), Front(a), Front(b));
        SubGrow(Kept(Front(script), Front(a)), Front(a), Last(a));
        SubGrow(Kept(Front(script), Front(a)), Front(b), Last(b));
      case Delete =>
        KeptIsCommon(Front(script), Front(a), b);
        SubGrow(Kept(Front(script), Front(a)), Front(a), Last(a));
      case Insert =>
        KeptIsCommon(Front(script), a, Front(b));
        SubGrow(Kept(Front(script), a), Front(b), Last(b));
    }
  }

  // ----- The diff -----

  /** Fills the table from the last row and column, then walks it from the first. */
  method DiffLines(a: seq<string>, b: seq<string>) returns (edits: seq<Edit>)
    ensures Turns(edits, a, b) && Keeps(edits) == Lcs(a, b, 0, 0)
  {
    var n, m := |a|, |b|;
    if n == 0 && m == 0 {
      return [];
    }
    var dp := FillTable(a, b);
    edits := [];
    var i, j := 0, 0;
    assert a[..0] == [] && b[..0] == [];
    while i < n && j < m
      invariant 0 <= i <= n && 0 <= j <= m
      invariant Turns(edits, a[..i], b[..j])
      invariant Keeps(edits) + Lcs(a, b, i, j) == Lcs(a, b, 0, 0)
      modifies {}
      decreases n - i + m - j
    {
      Fronts(a, i);
      Fronts(b, j);
      assert dp[i + 1, j] == Lcs(a, b, i + 1, j) && dp[i, j + 1] == Lcs(a, b, i, j + 1);
      if a[i] == b[j] {
        SnocKeep(edits, a[..i], b[..j], a[i]);
        edits := edits + [Keep];
        i, j := i + 1, j + 1;
      } else if dp[i + 1, j] >= dp[i, j + 1] {
        SnocDelete(edits, a[..i], b[..j], a[i]);
        edits := edits + [Delete];
        i := i + 1;
      } else {
        SnocInsert(edits, a[..i], b[..j], b[j]);
        edits := edits + [Insert];
        j := j + 1;
      }
    }
    while i < n
      invariant 0 <= i <= n && 0 <= j <= m && (i == n || j == m)
      invariant Turns(edits, a[..i], b[..j])
      invariant Keeps(edits) == Lcs(a, b, 0, 0)
    {
      Fronts(a, i);
      SnocDelete(edits, a[..i], b[..j], a[i]);
      edits := edits + [Delete];
      i := i + 1;
    }
    while j < m
      invariant 0 <= j <= m
      invariant Turns(edits, a[..n], b[..j])
      invariant Keeps(edits) == Lcs(a, b, 0, 0)
    {
      Fronts(b, j);
      SnocInsert(edits, a[..n], b[..j], b[j]);
      edits := edits + [Insert];
      j := j + 1;
    }
    assert a[..n] == a && b[..m] == b;
  }

  lemma Fronts(a: seq<string>, i: nat)
    requires i < |a|
    ensures a[..i + 1] == a[..i] + [a[i]]
  {
  }

  lemma SnocKeep(script: seq<Edit>, a: seq<string>, b: seq<string>, x: string)
    requires Turns(script, a, b)
    ensures Turns(script + [Keep], a + [x], b + [x]) && Keeps(script + [Keep]) == Keeps(script) + 1
  {
    assert Front(script + [Keep]) == script && Front(a + [x]) == a && Front(b + [x]) == b;
  }

  lemma SnocDelete(script: seq<Edit>, a: seq<string>, b: seq<string>, x: string)
    requires Turns(script, a, b)
    ensures Turns(script + [Delete], a + [x], b) && Keeps(script + [Delete]) == Keeps(script)
  {
    assert Front(script + [Delete]) == script && Front(a + [x]) == a;
  }

  lemma SnocInsert(script: seq<Edit>, a: seq<string>, b: seq<string>, x: string)
    requires Turns(script, a, b)
    ensures Turns(script + [Insert], a, b + [x]) && Keeps(script + [Insert]) == Keeps(script)
  {
    assert Front(script + [Insert]) == script && Front(b + [x]) == b;
  }

  method FillTable(a: seq<string>, b: seq<string>) returns (dp: array2<nat>)
    ensures dp.Length0 == |a| + 1 && dp.Length1 == |b| + 1
    ensures forall i, j :: 0 <= i <= |a| && 0 <= j <= |b| ==> dp[i, j] == Lcs(a, b, i, j)
  {
    var n, m := |a|, |b|;
    dp := new nat[n + 1, m + 1]((_, _) => 0);
    var i := n;
    while i > 0
      invariant 0 <= i <= n
      invariant forall x, y :: i <= x <= n && 0 <= y <= m ==> dp[x, y] == Lcs(a, b, x, y)
      invariant forall x, y :: 0 <= x < i && 0 <= y <= m ==> dp[x, y] == 0
    {
      i := i - 1;
      FillRow(a, b, dp, i);
    }
  }

  method FillRow(a: seq<string>, b: seq<string>, dp: array2<nat>, i: nat)
    requires i < |a| && dp.Length0 == |a| + 1 && dp.Length1 == |b| + 1
    requires forall x, y :: x == i + 1 && 0 <= y <= |b| ==> dp[x, y] == Lcs(a, b, x, y)
    requires dp[i, |b|] == 0
    modifies dp
    ensures forall y :: 0 <= y <= |b| ==> dp[i, y] == Lcs(a, b, i, y)
    ensures forall x, y :: 0 <= x <= |a| && x != i && 0 <= y <= |b| ==> dp[x, y] == old(dp[x, y])
  {
    var j := |b|;
    while j > 0
      invariant 0 <= j <= |b|
      invariant forall y :: j <= y <= |b| ==> dp[i, y] == Lcs(a, b, i, y)
      invariant forall x, y :: 0 <= x <= |a| && x != i && 0 <= y <= |b| ==> dp[x, y] == old(dp[x, y])
    {
      j := j - 1;
      if a[i] == b[j] {
        dp[i, j] := dp[i + 1, j + 1] + 1;
      } else {
        dp[i, j] := Max(dp[i + 1, j], dp[i, j + 1]);
      }
    }
  }

  /** The diff keeps a longest common subsequence, so no script that turns a into b has fewer insertions and deletions. */
  lemma ShortestScript(a: seq<string>, b: seq<string>, script: seq<Edit>, other: seq<Edit>, xs: seq<string>)
    requires Turns(script, a, b) && Keeps(script) == Lcs(a, b, 0, 0)
    requires Turns(other, a, b) && Common(xs, a, b)
    ensures OldLen(script) == |a| && Common(Kept(script, a), a, b) && |Kept(script, a)| == Keeps(script)
    ensures |xs| <= |Kept(script, a)|
    ensures Changes(script) <= Changes(other)
  {
    assert a[0..] == a && b[0..] == b;
    KeptIsCommon(script, a, b);
    LcsBounds(a, b, 0, 0, xs);
    KeptIsCommon(other, a, b);
    LcsBounds(a, b, 0, 0, Kept(other, a));
    TurnsCounts(script, a, b);
    TurnsCounts(other, a, b);
  }
}
