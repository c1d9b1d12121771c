/** Characters, counts of them, and the scanning of string bodies (internal/lexer/lexer.go). */
module LexText {
  import opened Prelude

  predicate IsDigit(c: char) { '0' <= c <= '9' }

  predicate IsAlpha(c: char) { 'a' <= c <= 'z' || 'A' <= c <= 'Z' || c == '_' }

  predicate IsOctal(c: char) { '0' <= c <= '7' }

  predicate IsBlank(c: char) { c == ' ' || c == '\t' }

  function HexDigit(c: char): Option<nat>
  {
    if IsDigit(c) then Some((c as int) - ('0' as int))
    else if 'a' <= c <= 'f' then Some((c as int) - ('a' as int) + 10)
    else if 'A' <= c <= 'F' then Some((c as int) - ('A' as int) + 10)
    else None
  }

  /** Stand-ins for an escaped brace and for the path separator. */
  const OPEN_BRACE := '\U{E000}'
  const CLOSE_BRACE := '\U{E001}'
  const PATH_SEP := '\U{E002}'

  function Count(s: string, c: char): nat
  {
    if s == "" then 0 else (if s[0] == c then 1 else 0) + Count(s[1..], c)
  }

  lemma {:induction false} CountJoin(a: string, b: string, c: char)
    ensures Count(a + b, c) == Count(a, c) + Count(b, c)
  {
    if a == "" {
      assert a + b == b;
    } else {
      assert (a + b)[1..] == a[1..] + b;
      CountJoin(a[1..], b, c);
    }
  }

  lemma CountSuffix(s: string, i: nat, j: nat, c: char)
    requires i <= j <= |s|
    ensures Count(s[j..], c) <= Count(s[i..], c)
  {
    assert s[i..] == s[i..j] + s[j..];
    CountJoin(s[i..j], s[j..], c);
  }

  /** Fewer single quotes, or as many and fewer double quotes, or as many of both and shorter. */
  ghost predicate Less(s1: string, s0: string)
  {
    var q0, q1 := Count(s0, '\''), Count(s1, '\'');
    var d0, d1 := Count(s0, '"'), Count(s1, '"');
    q1 < q0 || (q1 == q0 && (d1 < d0 || (d1 == d0 && |s1| < |s0|)))
  }

  lemma SuffixLess(s: string, i: nat)
    requires 0 < i <= |s|
    ensures Less(s[i..], s)
  {
    assert s[0..] == s;
    CountSuffix(s, 0, i, '\'');
    CountSuffix(s, 0, i, '"');
  }

  /** What one escape sequence writes, what follows it, and whether it is an error. */
  datatype Escape = Escape(text: string, rest: string, errors: nat)

  /** How a string body ends; `rest` is what has not been consumed. */
  datatype BodyEnd = Closed | Interpolates | Broken
  datatype Body = Body(end: BodyEnd, value: string, rest: string, errors: nat)

  /** At most two further octal digits. */
  function OctalTail(s: string, n: nat, more: nat): (r: (nat, string))
    ensures |r.1| <= |s|
    decreases more
  {
    if more == 0 || s == "" || !IsOctal(s[0]) then (n, s)
    else OctalTail(s[1..], n * 8 + ((s[0] as int) - ('0' as int)), more - 1)
  }

  /** The text after a backslash. */
  function ScanEscape(s: string): (r: Escape)
    ensures |r.rest| <= |s|
  {
    if s == "" then Escape("", "", 0)
    else
      var c, rest := s[0], s[1..];
      if c == 'n' then Escape("\n", rest, 0)
      else if c == 't' then Escape("\t", rest, 0)
      else if c == 'r' then Escape("\r", rest, 0)
      else if c == '\\' || c == '"' || c == '\'' then Escape([c], rest, 0)
      else if c == '{' then Escape([OPEN_BRACE], rest, 0)
      else if c == '}' then Escape([CLOSE_BRACE], rest, 0)
      else if c == 's' then
        if |rest| >= 2 && rest[0] == 'e' && rest[1] == 'p' then Escape([PATH_SEP], rest[2..], 0) else Escape("s", rest, 0)
      else if c == 'x' then
        if rest == "" then Escape("", "", 1)
        else if |rest| == 1 then Escape("", "", 1)
        else
          var hi, lo := HexDigit(rest[0]), HexDigit(rest[1]);
          if hi.Some? && lo.Some? then Escape([(hi.value * 16 + lo.value) as char], rest[2..], 0)
          else Escape("\\x" + rest[..2], rest[2..], 0)
      else if IsOctal(c) then
        var (n, after) := OctalTail(rest, (c as int) - ('0' as int), 2);
        if n > 255 then Escape("", after, 1) else Escape([n as char], after, 0)
      else Escape([c], rest, 0)
  }

  /** A brace before a letter or an underscore starts an interpolated expression. */
  predicate InterpStart(s: string)
  {
    |s| >= 2 && s[0] == '{' && IsAlpha(s[1])
  }

  /** A brace directly before a letter or an underscore. */
  predicate HasInterp(s: string)
  {
    exists i :: 0 <= i < |s| && InterpStart(s[i..])
  }

  lemma HasInterpStep(s: string)
    requires s != ""
    ensures HasInterp(s) <==> InterpStart(s) || HasInterp(s[1..])
  {
    assert s[0..] == s;
    if HasInterp(s) {
      var i :| 0 <= i < |s| && InterpStart(s[i..]);
      if i > 0 {
        assert s[1..][i - 1..] == s[i..];
      }
    }
    if HasInterp(s[1..]) {
      var i :| 0 <= i < |s| - 1 && InterpStart(s[1..][i..]);
      assert s[1..][i..] == s[i + 1..];
    }
  }

  /** The body of a string from here on, with what has been read so far. */
  function ScanBody(s: string, quote: char, value: string): (r: Body)
    ensures |r.rest| <= |s|
    decreases |s|
  {
    if s == "" then Body(Broken, value, "", 1)
    else if s[0] == quote then Body(Closed, value, s[1..], 0)
    else if s[0] == '\n' then
      if quote == '"' then Body(Broken, value, s, 1) else ScanBody(s[1..], quote, value + "\n")
    else if s[0] == '\\' then
      var e := ScanEscape(s[1..]);
      var r := ScanBody(e.rest, quote, value + e.text);
      r.(errors := r.errors + e.errors)
    else if InterpStart(s) then Body(Interpolates, value, s[1..], 0)
    else if s[0] == '\0' then Body(Broken, value, s[1..], 1)
    else ScanBody(s[1..], quote, value + [s[0]])
  }

  /** What scanning makes of the text after an opening double quote: three quotes in a row are another literal. */
  datatype Quoted = Triple | Single(body: Body)

  function ScanQuoted(s: string): Quoted
  {
    if s != "" && s[0] == '"' then (if |s| >= 2 && s[1] == '"' then Triple else Single(Body(Closed, "", s[1..], 0)))
    else Single(ScanBody(s, '"', ""))
  }

  lemma OctalSuffix(s: string, n: nat, more: nat)
    ensures var r := OctalTail(s, n, more); r.1 == s[|s| - |r.1|..]
    decreases more
  {
    if !(more == 0 || s == "" || !IsOctal(s[0])) {
      OctalSuffix(s[1..], n * 8 + ((s[0] as int) - ('0' as int)), more - 1);
    }
  }

  lemma EscapeSuffix(s: string)
    ensures var e := ScanEscape(s); e.rest == s[|s| - |e.rest|..]
  {
    if s != "" && IsOctal(s[0]) {
      OctalSuffix(s[1..], (s[0] as int) - ('0' as int), 2);
    }
  }

  /** What a string body leaves is the end of what was there. */
  lemma {:induction false} BodySuffix(s: string, quote: char, value: string)
    ensures var r := ScanBody(s, quote, value); r.rest == s[|s| - |r.rest|..]
    decreases |s|
  {
    if s == "" || s[0] == quote {
    } else if s[0] == '\n' {
      BodySuffix(s[1..], quote, value + "\n");
    } else if s[0] == '\\' {
      EscapeSuffix(s[1..]);
      var e := ScanEscape(s[1..]);
      BodySuffix(e.rest, quote, value + e.text);
    } else if !InterpStart(s) && s[0] != '\0' {
      BodySuffix(s[1..], quote, value + [s[0]]);
    }
  }

  /** One step of the body scan. */
  lemma BodyStep(s: string, quote: char, value: string)
    ensures ScanBody(s, quote, value) ==
      if s == "" then Body(Broken, value, "", 1)
      else if s[0] == quote then Body(Closed, value, s[1..], 0)
      else if s[0] == '\n' && quote == '"' then Body(Broken, value, s, 1)
      else if s[0] == '\\' then
        var e := ScanEscape(s[1..]);
        var r := ScanBody(e.rest, quote, value + e.text);
        r.(errors := r.errors + e.errors)
      else if InterpStart(s) then Body(Interpolates, value, s[1..], 0)
      else if s[0] == '\0' then Body(Broken, value, s[1..], 1)
      else ScanBody(s[1..], quote, value + [s[0]])
  {
  }

  /** A body that breaks off is an error. */
  lemma {:induction false} BrokenCounts(s: string, quote: char, value: string)
    ensures var r := ScanBody(s, quote, value); r.end.Broken? ==> r.errors > 0
    decreases |s|
  {
    if s == "" || s[0] == quote {
    } else if s[0] == '\n' {
      if quote != '"' {
        BrokenCounts(s[1..], quote, value + "\n");
      }
    } else if s[0] == '\\' {
      var e := ScanEscape(s[1..]);
      BrokenCounts(e.rest, quote, value + e.text);
    } else if !InterpStart(s) && s[0] != '\0' {
      BrokenCounts(s[1..], quote, value + [s[0]]);
    }
  }
}
