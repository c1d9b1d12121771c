/** Numeric for loops (generateForNumericStmt of internal/codegen/codegen_stmt.go) under 64-bit wrap-around. */
module ForLoop {
  const TWO_64 := 0x1_0000_0000_0000_0000
  const MIN_INT := -0x8000_0000_0000_0000
  const MAX_INT := 0x7FFF_FFFF_FFFF_FFFF

  predicate IsInt(x: int) { MIN_INT <= x <= MAX_INT }

  /** Go's int arithmetic: the representative in range. */
  function Wrap(x: int): (r: int)
    ensures IsInt(r) && (r - x) % TWO_64 == 0
  {
    (x - MIN_INT) % TWO_64 + MIN_INT
  }

  lemma WrapUnique(x: int, y: int)
    requires IsInt(y) && (y - x) % TWO_64 == 0
    ensures Wrap(x) == y
  {
    var k := (y - x) / TWO_64;
    assert y - x == k * TWO_64;
    ModShift(x - MIN_INT, k);
  }

  lemma ModShift(a: int, k: int)
    ensures (a + k * TWO_64) % TWO_64 == a % TWO_64
  {
  }

  /** What `for i from start to end` (or `through` end) means: every value between, in the direction of the end. */
  function Visits(start: int, end: int, through: bool): seq<int>
  {
    var more := if through then 1 else 0;
    if start <= end then seq(end - start + more, k => start + k) else seq(start - end + more, k => start - k)
  }

  /** The two inclusive ranges that hold every integer. */
  predicate FullRange(start: int, end: int, through: bool)
  {
    through && ((start == MIN_INT && end == MAX_INT) || (start == MAX_INT && end == MIN_INT))
  }

  function Step(start: int, end: int): int
  {
    if start > end then -1 else 1
  }

  /** The value that stops the emitted loop. */
  function Bound(start: int, end: int, through: bool): int
  {
    if through then Wrap(end + Step(start, end)) else end
  }

  /** After k steps the variable has its k-th value, and it equals the bound exactly when the whole range is done. */
  lemma AtStep(start: int, end: int, through: bool, k: nat, i: int)
    requires IsInt(start) && IsInt(end) && !FullRange(start, end, through)
    requires k <= |Visits(start, end, through)| && i == Wrap(start + k * Step(start, end))
    ensures i == Bound(start, end, through) <==> k == |Visits(start, end, through)|
    ensures k < |Visits(start, end, through)| ==> i == Visits(start, end, through)[k]
  {
    var n, step := |Visits(start, end, through)|, Step(start, end);
    var last := start + n * step;
    assert n < TWO_64;
    assert last == if through then end + step else end;
    if k == n {
      if !through {
        WrapUnique(last, end);
      }
    } else {
      var here := start + k * step;
      WrapUnique(here, here);
      NotYet(start, n, k, step);
      if through {
        assert (Wrap(last) - last) % TWO_64 == 0;
      }
    }
  }

  /** Two values of the loop less than a full turn apart are different integers. */
  lemma NotYet(start: int, n: nat, k: nat, step: int)
    requires k < n < TWO_64 && (step == 1 || step == -1) && IsInt(start + k * step)
    ensures Wrap(start + n * step) != start + k * step
  {
    var a, b := start + n * step, start + k * step;
    assert b - a == (k - n) * step;
    assert (b - a) % TWO_64 != 0;
  }

  /** A full inclusive range starts at its own bound, so it visits nothing. */
  lemma FullRangeBound(start: int, end: int)
    requires FullRange(start, end, true)
    ensures Bound(start, end, true) == start
  {
    WrapUnique(end + Step(start, end), start);
  }

  /** The emitted loop: a start, a bound and a step, with wrap-around. It ends on all inputs. */
  method RunSteppingLoop(start: int, end: int, through: bool) returns (visited: seq<int>)
    requires IsInt(start) && IsInt(end)
    ensures visited == if FullRange(start, end, through) then [] else Visits(start, end, through)
  {
    var step := 1;
    if start > end {
      step := -1;
    }
    visited := [];
    var i := start;
    ghost var full := FullRange(start, end, through);
    ghost var all := Visits(start, end, through);
    if full {
      FullRangeBound(start, end);
    } else {
      WrapUnique(start, start);
    }
    while i != (if through then Wrap(end + step) else end)
      invariant full ==> i == Bound(start, end, through) && visited == []
      invariant !full ==> |visited| <= |all| && visited == all[..|visited|] && i == Wrap(start + |visited| * step)
      decreases |all| - |visited|
    {
      AtStep(start, end, through, |visited|, i);
      visited := visited + [i];
      NextWrap(start, |visited| - 1, step, i);
      i := Wrap(i + step);
    }
    if !full {
      AtStep(start, end, through, |visited|, i);
    }
  }

  lemma NextWrap(start: int, k: nat, step: int, i: int)
    requires i == Wrap(start + k * step)
    ensures Wrap(i + step) == Wrap(start + (k + 1) * step)
  {
    var x := start + k * step;
    var q := (i - x) / TWO_64;
    assert i == x + q * TWO_64;
    assert start + (k + 1) * step == x + step;
    ModShift(x + step - MIN_INT, q);
  }

  /** Go's `range n` over an integer. */
  method RunRangeOver(n: int) returns (visited: seq<int>)
    requires IsInt(n)
    ensures visited == if n > 0 then seq(n, k => k) else []
  {
    visited := [];
    var i := 0;
    while i < n
      invariant 0 <= i && (i <= n || i == 0) && visited == seq(i, k => k)
    {
      visited := visited + [i];
      i := i + 1;
    }
  }

  /** The start is recognised by its text. */
  datatype Start = LiteralZero | Computed(value: int)

  function ValueOf(s: Start): int
  {
    if s.LiteralZero? then 0 else s.value
  }

  /** The compiled statement: an integer range for a literal zero and `to`, the stepping loop otherwise. */
  method RunForNumeric(start: Start, end: int, through: bool) returns (visited: seq<int>)
    requires IsInt(ValueOf(start)) && IsInt(end)
    ensures visited == Visits(ValueOf(start), end, through) <==> Compiles(start, end, through)
    ensures !Compiles(start, end, through) ==> visited == []
  {
    if !through && start == LiteralZero {
      visited := RunRangeOver(end);
      if end < 0 {
        assert |Visits(0, end, false)| > 0;
      }
    } else {
      visited := RunSteppingLoop(ValueOf(start), end, through);
      if FullRange(ValueOf(start), end, through) {
        assert |Visits(ValueOf(start), end, through)| > 0;
      }
    }
  }

  /** Exactly when the compiled loop visits what the statement means: not for a negative bound below a literal zero, and not for the two full inclusive ranges. */
  predicate Compiles(start: Start, end: int, through: bool)
  {
    if !through && start == LiteralZero then end >= 0 else !FullRange(ValueOf(start), end, through)
  }

  /** The range is every integer from the start to the end, each once, in order. */
  lemma VisitsAreTheRange(start: int, end: int, through: bool, x: int)
    ensures x in Visits(start, end, through) <==>
      (if start <= end then start <= x && (x < end || (through && x == end)) else x <= start && (x > end || (through && x == end)))
    ensures forall i, j :: 0 <= i < j < |Visits(start, end, through)| ==>
      if start <= end then Visits(start, end, through)[i] < Visits(start, end, through)[j] else Visits(start, end, through)[i] > Visits(start, end, through)[j]
  {
    var all := Visits(start, end, through);
    if start <= end && start <= x && (x < end || (through && x == end)) {
      assert all[x - start] == x;
    }
    if start > end && x <= start && (x > end || (through && x == end)) {
      assert all[start - x] == x;
    }
  }
}
