/**
 Generated identifiers: the counter behind every temporary, label and error
 variable that the lowering invents (internal/codegen/codegen.go).
 */
module Names {

  /** The decimal rendering that `%d` gives a natural number. */
  function Digits(n: nat): (s: string)
    ensures |s| > 0 && forall i :: 0 <= i < |s| ==> '0' <= s[i] <= '9'
  {
    var last := ['0' + (n % 10) as char];
    if n < 10 then last else Digits(n / 10) + last
  }

  /** Reads a decimal numeral back. */
  function ValueOf(s: string): int
  {
    if |s| == 0 then 0 else 10 * ValueOf(s[..|s| - 1]) + (s[|s| - 1] as int - '0' as int)
  }

  lemma {:induction false} DigitsRoundTrip(n: nat)
    ensures ValueOf(Digits(n)) == n
  {
    var last := ['0' + (n % 10) as char];
    if n < 10 {
      assert last[..0] == [];
    } else {
      DigitsRoundTrip(n / 10);
      assert (Digits(n / 10) + last)[..|Digits(n / 10)|] == Digits(n / 10);
    }
  }

  /** The shape of every generated name: prefix, underscore, number. */
  function Numbered(prefix: string, k: nat): string
  {
    prefix + "_" + Digits(k)
  }

  /** The name looks like one the generator makes. */
  ghost predicate Generated(x: string)
  {
    exists p, k: nat :: x == Numbered(p, k)
  }

  lemma LastUnderscore(p: string, i: nat)
    ensures var s := Numbered(p, i);
      && |p| < |s| && s[|p|] == '_' && s[..|p|] == p && s[|p| + 1..] == Digits(i)
      && forall m :: |p| < m < |s| ==> s[m] != '_'
  {
    var s, d := Numbered(p, i), Digits(i);
    forall m | |p| < m < |s|
      ensures s[m] != '_'
    {
      assert s[m] == d[m - |p| - 1];
    }
  }

  /** No two (prefix, number) pairs share a name, whatever underscores and digits the prefixes hold. */
  lemma NumberedInjective(p: string, i: nat, q: string, j: nat)
    requires Numbered(p, i) == Numbered(q, j)
    ensures p == q && i == j
  {
    LastUnderscore(p, i);
    LastUnderscore(q, j);
    assert |p| == |q|;
    DigitsRoundTrip(i);
    DigitsRoundTrip(j);
  }

  /** The number the next generated name carries: the first one above `counter` whose name is free. */
  ghost function NextId(reserved: set<string>, counter: nat, prefix: string): (k: nat)
    ensures counter < k
    decreases |reserved|
  {
    var name := Numbered(prefix, counter + 1);
    if name !in reserved then counter + 1 else NextId(reserved - {name}, counter + 1, prefix)
  }

  /** The chosen name is free, every smaller one was taken, and the search is bounded by the reserved names. */
  lemma {:induction false} NextIdIsFirstFree(reserved: set<string>, counter: nat, prefix: string)
    ensures var k := NextId(reserved, counter, prefix);
      && Numbered(prefix, k) !in reserved
      && (forall j :: counter < j < k ==> Numbered(prefix, j) in reserved)
      && k <= counter + |reserved| + 1
    decreases |reserved|
  {
    var name := Numbered(prefix, counter + 1);
    if name in reserved {
      var k := NextId(reserved, counter, prefix);
      NextIdIsFirstFree(reserved - {name}, counter + 1, prefix);
      if Numbered(prefix, k) == name {
        NumberedInjective(prefix, k, prefix, counter + 1);
      }
    }
  }

  /** The numbers a run of calls hands out, one prefix a call. */
  ghost function Run(reserved: set<string>, counter: nat, prefixes: seq<string>): (ids: seq<nat>)
    ensures |ids| == |prefixes|
    decreases |prefixes|
  {
    if prefixes == [] then []
    else
      var k := NextId(reserved, counter, prefixes[0]);
      [k] + Run(reserved, k, prefixes[1..])
  }

  lemma {:induction false} RunIncreases(reserved: set<string>, counter: nat, prefixes: seq<string>)
    ensures var ids := Run(reserved, counter, prefixes);
      && (forall i :: 0 <= i < |ids| ==> counter < ids[i])
      && (forall i, j :: 0 <= i < j < |ids| ==> ids[i] < ids[j])
      && (forall i :: 0 <= i < |ids| ==> Numbered(prefixes[i], ids[i]) !in reserved)
    decreases |prefixes|
  {
    if prefixes != [] {
      var k := NextId(reserved, counter, prefixes[0]);
      NextIdIsFirstFree(reserved, counter, prefixes[0]);
      RunIncreases(reserved, k, prefixes[1..]);
    }
  }

  /** Whatever prefixes one generator is asked for, its names are pairwise distinct and none is reserved. */
  lemma RunNamesAreDistinctAndFree(reserved: set<string>, counter: nat, prefixes: seq<string>)
    ensures var ids := Run(reserved, counter, prefixes);
      && (forall i :: 0 <= i < |ids| ==> Numbered(prefixes[i], ids[i]) !in reserved)
      && (forall i, j :: 0 <= i < j < |ids| ==> Numbered(prefixes[i], ids[i]) != Numbered(prefixes[j], ids[j]))
  {
    var ids := Run(reserved, counter, prefixes);
    RunIncreases(reserved, counter, prefixes);
    forall i, j | 0 <= i < j < |ids|
      ensures Numbered(prefixes[i], ids[i]) != Numbered(prefixes[j], ids[j])
    {
      if Numbered(prefixes[i], ids[i]) == Numbered(prefixes[j], ids[j]) {
        NumberedInjective(prefixes[i], ids[i], prefixes[j], ids[j]);
      }
    }
  }

  /** The part of the generator that names temporaries. */
  class Generator {
    var tempCounter: nat
    const reservedNames: set<string>

    constructor (reserved: set<string>)
      ensures tempCounter == 0 && reservedNames == reserved
    {
      tempCounter := 0;
      reservedNames := reserved;
    }

    /** Counts up until the name is free; the number of rounds is bounded by the reserved names. */
    method UniqueId(prefix: string) returns (name: string)
      modifies this
      ensures tempCounter == NextId(reservedNames, old(tempCounter), prefix)
      ensures name == Numbered(prefix, tempCounter)
      ensures name !in reservedNames
    {
      ghost var left := reservedNames;
      NextIdIsFirstFree(reservedNames, tempCounter, prefix);
      while true
        invariant left <= reservedNames && old(tempCounter) <= tempCounter
        invariant forall k: nat :: tempCounter < k && Numbered(prefix, k) in reservedNames ==> Numbered(prefix, k) in left
        invariant NextId(left, tempCounter, prefix) == NextId(reservedNames, old(tempCounter), prefix)
        decreases |left|
      {
        tempCounter := tempCounter + 1;
        name := Numbered(prefix, tempCounter);
        if name !in reservedNames {
          return;
        }
        forall k: nat | tempCounter < k && Numbered(prefix, k) in reservedNames
          ensures Numbered(prefix, k) in left - {name}
        {
          if Numbered(prefix, k) == name {
            NumberedInjective(prefix, k, prefix, tempCounter);
          }
        }
        left := left - {name};
      }
    }
  }
}
