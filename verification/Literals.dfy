/**
 Multi-line string literals of the source and the values they stand for
 (scanTripleQuoteString, scanSingleQuoteString, scanStringFromContent of
 internal/lexer/lexer.go).
 */
module Literals {
  import opened Prelude
  import opened LexText
  import opened Layout
  import opened LineScan
  import opened TripleQuote

  /** Line ends of two characters become one. */
  function WithoutReturns(s: string): string
  {
    if s == "" then "" else (if s[0] == '\r' then "" else [s[0]]) + WithoutReturns(s[1..])
  }

  /** A letter follows the content's start in the spliced text exactly when it does in the content. */
  lemma {:induction false} FirstLetter(s: string, tail: string)
    requires '\\' !in s && tail != "" && !IsAlpha(tail[0])
    ensures var value := WithoutReturns(s);
      IsAlpha((Injected(s) + tail)[0]) <==> value != "" && IsAlpha(value[0])
  {
    if s == "" {
      assert Injected(s) + tail == tail;
    } else if s[0] == '\r' {
      FirstLetter(s[1..], tail);
      assert Injected(s) == Injected(s[1..]) && WithoutReturns(s) == WithoutReturns(s[1..]);
    } else {
      assert (Injected(s) + tail)[0] == Piece(s[0])[0];
    }
  }

  /** One character that is spliced as it is. */
  lemma PlainChar(c: char, s: string, more: string, value: string)
    requires Piece(c) == [c] && c != '\\' && more != ""
    requires IsAlpha(more[0]) <==> WithoutReturns(s) != "" && IsAlpha(WithoutReturns(s)[0])
    ensures ScanBody([c] + more, '"', value) ==
      if InterpStart([c] + WithoutReturns(s)) then Body(Interpolates, value, more, 0)
      else if c == '\0' then Body(Broken, value, more, 1)
      else ScanBody(more, '"', value + [c])
  {
    assert ([c] + more)[1..] == more;
  }

  /** One character that is spliced as an escape. */
  lemma EscapedChar(c: char, more: string, value: string)
    requires c == '"' || c == '\n'
    ensures ScanBody(Piece(c) + more, '"', value) == ScanBody(more, '"', value + [c])
  {
    var s := Piece(c) + more;
    assert s[1..] == [s[1]] + more && s[1..][1..] == more;
    assert ScanEscape(s[1..]) == Escape([c], more, 0);
  }

  /** The text was read to its end, unless something is interpolated in it or it holds a NUL. */
  ghost predicate ReadTo(r: Body, value: string, text: string, after: string)
  {
    if '\0' !in text && !HasInterp(text) then r == Body(Closed, value + text, after, 0) else !r.end.Closed?
  }

  /**
   Content without backslashes is scanned to itself, up to the synthetic quote
   and no further, if and only if nothing is interpolated in it and it holds no NUL.
   */
  lemma {:induction false} SplicedValue(s: string, value: string, after: string)
    requires '\\' !in s
    ensures ReadTo(ScanBody(Injected(s) + ("\"" + after), '"', value), value, WithoutReturns(s), after)
    decreases |s|
  {
    hide ScanBody, Injected, Piece, ReadTo;
    var tail := "\"" + after;
    if s == "" {
      NothingSpliced(value, after);
    } else {
      var c, more := s[0], Injected(s[1..]) + tail;
      SplicedStep(s);
      assert Injected(s) + tail == Piece(c) + more;
      if c == '\r' {
        SplicedValue(s[1..], value, after);
        ReturnDropped();
        assert Piece(c) + more == more;
        assert WithoutReturns(s) == WithoutReturns(s[1..]);
      } else {
        SplicedValue(s[1..], value + [c], after);
        FirstLetter(s[1..], tail);
        SplicedChar(c, s[1..], more, value, after);
      }
    }
  }

  lemma SplicedStep(s: string)
    requires s != "" && s[0] != '\\'
    ensures Injected(s) == Piece(s[0]) + Injected(s[1..])
  {
  }

  lemma ReturnDropped()
    ensures Piece('\r') == ""
  {
  }

  lemma PieceItself(c: char)
    requires c != '"' && c != '\n' && c != '\r'
    ensures Piece(c) == [c]
  {
  }

  lemma SplicedChar(c: char, s: string, more: string, value: string, after: string)
    requires c != '\\' && c != '\r' && more != "" && (IsAlpha(more[0]) <==> WithoutReturns(s) != "" && IsAlpha(WithoutReturns(s)[0]))
    requires ReadTo(ScanBody(more, '"', value + [c]), value + [c], WithoutReturns(s), after)
    ensures ReadTo(ScanBody(Piece(c) + more, '"', value), value, [c] + WithoutReturns(s), after)
  {
    hide ScanBody, InterpStart, HasInterp, Piece, WithoutReturns;
    var text := [c] + WithoutReturns(s);
    assert text[1..] == WithoutReturns(s) && value + [c] + text[1..] == value + text;
    HasInterpStep(text);
    if c == '"' || c == '\n' {
      EscapedChar(c, more, value);
      NoInterp(text);
    } else {
      PieceItself(c);
      PlainChar(c, s, more, value);
    }
  }

  lemma NoInterp(text: string)
    requires text != "" && text[0] != '{'
    ensures !InterpStart(text)
  {
  }

  lemma NothingSpliced(value: string, after: string)
    ensures ReadTo(ScanBody(Injected("") + ("\"" + after), '"', value), value, WithoutReturns(""), after)
  {
    assert Injected("") + ("\"" + after) == "\"" + after && ("\"" + after)[1..] == after && value + "" == value;
  }

  // ----- Where the literals end -----

  /** Nowhere in the content, nor over its end, do three quotes stand in a row. */
  ghost predicate NoTriple(content: string)
  {
    forall i :: 0 <= i < |content| ==> !("\"\"\"" <= (content + "\"\"")[i..])
  }

  /** The literal ends at the first three quotes in a row. */
  lemma {:induction false} TripleEndsFirst(content: string, after: string)
    requires NoTriple(content)
    ensures TripleText(content + ("\"\"\"" + after)) == (content, after)
  {
    var s := content + ("\"\"\"" + after);
    if content == "" {
      assert s == "\"\"\"" + after && s[..3] == "\"\"\"" && s[3..] == after;
    } else {
      var ends := (content + "\"\"")[0..];
      assert ends[..3] == s[..3];
      assert s[1..] == content[1..] + ("\"\"\"" + after) && content == [content[0]] + content[1..];
      forall i | 0 <= i < |content[1..]|
        ensures !("\"\"\"" <= (content[1..] + "\"\"")[i..])
      {
        assert (content[1..] + "\"\"")[i..] == (content + "\"\"")[i + 1..];
      }
      TripleEndsFirst(content[1..], after);
    }
  }

  /** Single quotes stand for themselves behind a backslash, and end the literal otherwise. */
  lemma {:induction false} SingleEndsFirst(content: string, after: string)
    requires '\'' !in content && (content == "" || Last(content) != '\\')
    ensures SingleText(content + ("\'" + after)) == (content, after)
  {
    var s := content + ("\'" + after);
    if content == "" {
      assert s == "\'" + after && s[1..] == after;
    } else {
      assert s[1..] == content[1..] + ("\'" + after) && content == [content[0]] + content[1..];
      if |content| == 1 {
        assert s[1] == '\'';
      } else {
        assert s[1] == content[1] && Last(content[1..]) == Last(content);
      }
      SingleEndsFirst(content[1..], after);
    }
  }

  // ----- The tokens of the literals -----

  /** Dedenting neither makes nor loses a character that is no blank and no line end. */
  lemma {:induction false} SolidHas(s: string, c: char)
    requires c != ' ' && c != '\t' && c != '\n' && c != '\r'
    ensures c in s <==> c in Solid(s)
  {
    if s != "" {
      SolidHas(s[1..], c);
      assert s == [s[0]] + s[1..];
    }
  }

  lemma DedentedHas(text: string, c: char)
    requires c != ' ' && c != '\t' && c != '\n' && c != '\r'
    ensures c in Dedented(text) <==> c in text
  {
    hide Dedented, Solid;
    DedentedSolid(text);
    SolidHas(text, c);
    SolidHas(Dedented(text), c);
  }

  /** The value is one token: nothing is interpolated in it, and it holds no NUL. */
  predicate OneValue(value: string)
  {
    '\0' !in value && !HasInterp(value)
  }

  /** What a literal's text and the text behind it are scanned to. */
  lemma MultilineValue(text: string, after: string, m: Mode)
    requires '\\' !in text
    ensures var value := WithoutReturns(Dedented(text));
      TakeMultiline((text, after), m) == Some(Taken([Token(Str, value)], after, m)) <==> OneValue(value)
  {
    hide ScanBody, Dedented, Injected, HasInterp, WithoutReturns;
    DedentedHas(text, '\\');
    var value := WithoutReturns(Dedented(text));
    SplicedValue(Dedented(text), "", after);
    assert "" + value == value;
  }

  /**
   A literal between three quotes is one STRING token with its dedented text as
   value, and what follows its closing quotes is what is scanned next, if and only
   if nothing is interpolated in the value and it holds no NUL.
   */
  lemma TripleLiteral(text: string, after: string, m: Mode)
    requires NoTriple(text) && '\\' !in text
    ensures var value := WithoutReturns(Dedented(text));
      NextAny("\"\"\"" + (text + ("\"\"\"" + after)), m) == Some(Taken([Token(Str, value)], after, m)) <==> OneValue(value)
  {
    hide TakeMultiline, Next, Dedented, NoTriple, OneValue, WithoutReturns;
    var behind := text + ("\"\"\"" + after);
    var s := "\"\"\"" + behind;
    assert IsTriple(s) && s[3..] == behind;
    TripleEndsFirst(text, after);
    MultilineValue(text, after, m);
  }

  /** And so is a literal between single quotes. */
  lemma SingleLiteral(text: string, after: string, m: Mode)
    requires '\'' !in text && '\\' !in text
    ensures var value := WithoutReturns(Dedented(text));
      NextAny("\'" + (text + ("\'" + after)), m) == Some(Taken([Token(Str, value)], after, m)) <==> OneValue(value)
  {
    hide TakeMultiline, Next, Dedented, OneValue, WithoutReturns;
    var behind := text + ("\'" + after);
    var s := "\'" + behind;
    assert s[1..] == behind;
    SingleEndsFirst(text, after);
    MultilineValue(text, after, m);
  }
}
