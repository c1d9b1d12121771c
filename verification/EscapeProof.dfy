/** Printing a string value and scanning it back (escapeStringValue of internal/formatter/printer.go). */
module EscapeProof {
  import opened Prelude
  import opened LexText
  import opened Layout
  import opened LineScan

  function HexChar(n: nat): char
    requires n < 16
  {
    if n < 10 then (n + ('0' as int)) as char else (n - 10 + ('a' as int)) as char
  }

  function EscapeChar(c: char): string
  {
    if c == '\\' then "\\\\"
    else if c == '"' then "\\\""
    else if c == '\n' then "\\n"
    else if c == '\t' then "\\t"
    else if c == '\r' then "\\r"
    else if c == OPEN_BRACE then "\\{"
    else if c == CLOSE_BRACE then "\\}"
    else if c == PATH_SEP then "\\sep"
    else if (c as int) < 0x20 || (c as int) == 0x7F then "\\x" + [HexChar((c as int) / 16), HexChar((c as int) % 16)]
    else [c]
  }

  function Escaped(s: string): string
  {
    if s == "" then "" else EscapeChar(s[0]) + Escaped(s[1..])
  }

  /** One builder, written rune by rune. */
  method EscapeStringValue(s: string) returns (b: string)
    ensures b == Escaped(s)
  {
    b := "";
    for i := 0 to |s|
      invariant b + Escaped(s[i..]) == Escaped(s)
    {
      assert s[i..][0] == s[i] && s[i..][1..] == s[i + 1..];
      assert b + (EscapeChar(s[i]) + Escaped(s[i + 1..])) == (b + EscapeChar(s[i])) + Escaped(s[i + 1..]);
      b := b + EscapeChar(s[i]);
    }
    assert s[|s|..] == "";
  }

  lemma HexBack(n: nat)
    requires n < 256
    ensures HexDigit(HexChar(n / 16)) == Some(n / 16) && HexDigit(HexChar(n % 16)) == Some(n % 16)
  {
  }

  /** Behind the backslash of an escaped character, the scanner reads exactly that character. */
  lemma EscapeRead(c: char, rest: string)
    requires EscapeChar(c) != [c]
    ensures EscapeChar(c)[0] == '\\' && ScanEscape(EscapeChar(c)[1..] + rest) == Escape([c], rest, 0)
  {
    var e := EscapeChar(c);
    var s := e[1..] + rest;
    assert s[|e| - 1..] == rest;
    if e[1] == 'x' {
      HexBack(c as int);
      assert s[0] == 'x' && s[1..][0] == e[2] && s[1..][1] == e[3] && s[1..][2..] == rest;
    } else if e[1] == 's' {
      assert s[0] == 's' && s[1..][0] == 'e' && s[1..][1] == 'p' && s[1..][2..] == rest;
    } else {
      assert s[1..] == rest;
    }
  }

  /** A character that is not escaped is read as itself, unless it starts an interpolation. */
  lemma PlainRead(c: char, rest: string, value: string)
    requires EscapeChar(c) == [c]
    ensures var s := [c] + rest;
      ScanBody(s, '"', value) == if InterpStart(s) then Body(Interpolates, value, rest, 0) else ScanBody(rest, '"', value + [c])
  {
    var s := [c] + rest;
    assert s[1..] == rest;
  }

  /** The character after a brace is a letter in the escaped form exactly when it is one in the value. */
  lemma SameInterp(s: string, tail: string)
    requires s != "" && (tail == "" || !IsAlpha(tail[0]))
    ensures EscapeChar(s[0]) == [s[0]] ==> (InterpStart([s[0]] + (Escaped(s[1..]) + tail)) <==> InterpStart(s))
  {
    if |s| > 1 {
      assert (Escaped(s[1..]) + tail)[0] == EscapeChar(s[1])[0];
    } else {
      assert Escaped(s[1..]) + tail == tail;
    }
  }

  lemma {:induction false} ScanEscaped(s: string, value: string, rest: string)
    ensures var r := ScanBody(Escaped(s) + ("\"" + rest), '"', value);
      if HasInterp(s) then r.end == Interpolates else r == Body(Closed, value + s, rest, 0)
    decreases |s|
  {
    var tail := "\"" + rest;
    if s == "" {
      assert Escaped(s) + tail == tail && tail[1..] == rest;
      assert value + s == value;
    } else {
      var c, more := s[0], Escaped(s[1..]) + tail;
      assert Escaped(s) + tail == EscapeChar(c) + more;
      assert s == [c] + s[1..];
      HasInterpStep(s);
      if EscapeChar(c) != [c] {
        EscapedStarts(s);
      }
      SameInterp(s, tail);
      ScanEscaped(s[1..], value + [c], rest);
      assert value + [c] + s[1..] == value + s;
      if EscapeChar(c) == [c] {
        PlainRead(c, more, value);
      } else {
        EscapeRead(c, more);
        EscapedStep(c, more, value);
      }
    }
  }

  lemma EscapedStep(c: char, more: string, value: string)
    requires EscapeChar(c) != [c] && EscapeChar(c)[0] == '\\' && ScanEscape(EscapeChar(c)[1..] + more) == Escape([c], more, 0)
    ensures ScanBody(EscapeChar(c) + more, '"', value) == ScanBody(more, '"', value + [c])
  {
    assert (EscapeChar(c) + more)[1..] == EscapeChar(c)[1..] + more;
  }

  lemma EscapedStarts(s: string)
    requires s != "" && EscapeChar(s[0]) != [s[0]]
    ensures !InterpStart(s)
  {
  }

  /** The quoted form of a value scans back to one string token with that value, before whatever follows, if and only if no brace of the value stands directly before a letter or underscore (and an empty literal is not followed by a third quote). */
  lemma QuotedRoundTrip(s: string, rest: string)
    ensures ScanQuoted(Escaped(s) + ("\"" + rest)) == Single(Body(Closed, s, rest, 0))
      <==> !HasInterp(s) && !(s == "" && rest != "" && rest[0] == '"')
  {
    var text := Escaped(s) + ("\"" + rest);
    ScanEscaped(s, "", rest);
    assert "" + s == s;
    if s == "" {
      assert text == "\"" + rest && text[1..] == rest;
    } else {
      assert text[0] == EscapeChar(s[0])[0] != '"';
    }
  }
  /** A printed literal in a program's text is scanned in one step to one STRING token with the value, under the same condition. */
  lemma QuotedIsOneToken(s: string, rest: string, m: Mode)
    ensures Next("\"" + (Escaped(s) + ("\"" + rest)), m) == Some(Taken([Token(Str, s)], rest, m))
      <==> !HasInterp(s) && !(s == "" && rest != "" && rest[0] == '"')
  {
    hide Escaped, HasInterp, ScanQuoted, TakeBracket, TakeOther;
    var text := Escaped(s) + ("\"" + rest);
    assert ("\"" + text)[1..] == text;
    QuotedRoundTrip(s, rest);
    if ScanQuoted(text).Single? {
      TokenOfBody(ScanQuoted(text).body, s, rest, m);
    }
  }

  lemma TokenOfBody(r: Body, s: string, rest: string, m: Mode)
    ensures TakeBody(r, StrHead, Str, '"', m) == Some(Taken([Token(Str, s)], rest, m)) <==> r == Body(Closed, s, rest, 0)
  {
  }
}
