/**
 The words, characters and digits that the tokenizer tells apart, by themselves
 (scanNumber, scanIdentifier, addToken and mergeLineContinuations of
 internal/lexer/lexer.go).
 */
module Lexemes {
  import opened Prelude
  import opened LexText
  import opened Layout
  import opened MergeLines
  import opened LineScan
  import opened LayoutText
  import TripleQuote

  // ----- Characters -----

  const DIGITS: set<char> := {'0', '1', '2', '3', '4', '5', '6', '7', '8', '9'}
  const OCTALS: set<char> := {'0', '1', '2', '3', '4', '5', '6', '7'}
  const LOWER: set<char> := {
    'a', 'b', 'c', 'd', 'e', 'f', 'g', 'h', 'i', 'j', 'k', 'l', 'm', 'n', 'o', 'p', 'q', 'r', 's', 't', 'u',
    'v', 'w', 'x', 'y', 'z'}
  const UPPER: set<char> := {
    'A', 'B', 'C', 'D', 'E', 'F', 'G', 'H', 'I', 'J', 'K', 'L', 'M', 'N', 'O', 'P', 'Q', 'R', 'S', 'T', 'U',
    'V', 'W', 'X', 'Y', 'Z'}

  function HexValue(c: char): Option<nat>
  {
    match c {
      case '0' => Some(0)
      case '1' => Some(1)
      case '2' => Some(2)
      case '3' => Some(3)
      case '4' => Some(4)
      case '5' => Some(5)
      case '6' => Some(6)
      case '7' => Some(7)
      case '8' => Some(8)
      case '9' => Some(9)
      case 'a' => Some(10)
      case 'A' => Some(10)
      case 'b' => Some(11)
      case 'B' => Some(11)
      case 'c' => Some(12)
      case 'C' => Some(12)
      case 'd' => Some(13)
      case 'D' => Some(13)
      case 'e' => Some(14)
      case 'E' => Some(14)
      case 'f' => Some(15)
      case 'F' => Some(15)
      case _ => None
    }
  }

  /** The characters of numbers and words. */
  lemma Characters(c: char)
    ensures IsDigit(c) <==> c in DIGITS
    ensures IsOctal(c) <==> c in OCTALS
    ensures IsAlpha(c) <==> c in LOWER || c in UPPER || c == '_'
    ensures IsBlank(c) <==> c == ' ' || c == '\t'
    ensures HexDigit(c) == HexValue(c)
  {
  }

  /** A line counts as blank for the common indentation when nothing but blanks and carriage returns are on it. */
  lemma {:induction false} BlankLine(line: string)
    ensures TripleQuote.TrimRight(line) == "" <==> forall i :: 0 <= i < |line| ==> line[i] in " \t\r"
  {
    if line != "" {
      BlankLine(Front(line));
      assert forall i :: 0 <= i < |line| - 1 ==> Front(line)[i] == line[i];
    }
  }

  // ----- Numbers -----

  /** The digits behind a prefix. */
  function DigitsBehind(letter: char): set<char>
  {
    if letter == 'x' || letter == 'X' then DIGITS + {'a', 'b', 'c', 'd', 'e', 'f', 'A', 'B', 'C', 'D', 'E', 'F'}
    else if letter == 'o' || letter == 'O' then OCTALS
    else {'0', '1'}
  }

  predicate BaseLetter(letter: char)
  {
    letter == 'x' || letter == 'X' || letter == 'o' || letter == 'O' || letter == 'b' || letter == 'B'
  }

  lemma BaseDigits(letter: char, c: char)
    requires BaseLetter(letter)
    ensures BaseOf(letter) != 0 && (InBase(c, BaseOf(letter)) <==> c in DigitsBehind(letter))
  {
    if letter == 'x' || letter == 'X' {
      HexDigits(c);
    } else {
      Characters(c);
    }
  }

  lemma HexDigits(c: char)
    ensures HexDigit(c).Some? <==> c in DIGITS + {'a', 'b', 'c', 'd', 'e', 'f', 'A', 'B', 'C', 'D', 'E', 'F'}
  {
  }

  /** Zero, a letter for the base and digits of that base, separated by underscores, are one integer. */
  lemma BasedNumber(letter: char, digits: string, rest: string, m: Mode)
    requires BaseLetter(letter) && digits != "" && digits[0] in DigitsBehind(letter)
    requires forall i :: 0 <= i < |digits| ==> digits[i] in DigitsBehind(letter) || digits[i] == '_'
    requires rest == "" || (rest[0] !in DigitsBehind(letter) && rest[0] != '_')
    ensures Next("0" + ([letter] + (digits + rest)), m) == Some(Taken([Token(Integer, "0" + ([letter] + digits))], rest, m))
  {
    hide InBase, DigitsEnd, TakeBracket, TakeString, TakeOperator, DigitsBehind, BaseOf;
    var s := "0" + ([letter] + (digits + rest));
    BaseDigits(letter, digits[0]);
    assert s[1] == letter && s[2] == digits[0] && s[2..] == digits + rest;
    DigitRun(letter, digits, rest);
    var n := 2 + |digits|;
    assert NumberEnd(s) == Some((Integer, n));
    assert s[..n] == "0" + ([letter] + digits) && s[n..] == rest;
  }

  lemma {:induction false} DigitRun(letter: char, digits: string, rest: string)
    requires BaseLetter(letter)
    requires forall i :: 0 <= i < |digits| ==> digits[i] in DigitsBehind(letter) || digits[i] == '_'
    requires rest == "" || (rest[0] !in DigitsBehind(letter) && rest[0] != '_')
    ensures DigitsEnd(digits + rest, BaseOf(letter)) == |digits|
  {
    hide InBase, DigitsBehind, BaseOf;
    var s := digits + rest;
    if s != "" {
      BaseDigits(letter, s[0]);
    }
    if digits == "" {
      assert s == rest;
    } else {
      assert s[1..] == digits[1..] + rest;
      DigitRun(letter, digits[1..], rest);
    }
  }

  /** Digits and underscores without a base letter are one integer, and a point with a digit behind it makes it a fraction. */
  lemma DecimalNumber(digits: string, rest: string, m: Mode)
    requires Decimal(digits) && !(digits == "0" && rest != "" && BaseLetter(rest[0])) && !(|digits| > 1 && digits[0] == '0' && BaseLetter(digits[1]))
    requires rest == "" || (rest[0] !in DIGITS && rest[0] != '_')
    requires !(|rest| > 1 && rest[0] == '.' && rest[1] in DIGITS)
    ensures Next(digits + rest, m) == Some(Taken([Token(Integer, digits)], rest, m))
  {
    hide DigitsEnd, TakeBracket, TakeString, TakeOperator, BaseOf;
    var s := digits + rest;
    Characters(s[0]);
    NoBase(s);
    assert s[1..] == digits[1..] + rest;
    DecimalRun(digits[1..], rest);
    if |rest| > 1 {
      Characters(rest[1]);
    }
    NumberOf(s, digits, rest);
    assert s[..|digits|] == digits && s[|digits|..] == rest;
  }

  /** Digits first, then digits and underscores. */
  predicate Decimal(digits: string)
  {
    digits != "" && digits[0] in DIGITS && forall i :: 0 <= i < |digits| ==> digits[i] in DIGITS || digits[i] == '_'
  }

  lemma NoBase(s: string)
    requires s != "" && !(|s| > 1 && s[0] == '0' && BaseLetter(s[1]))
    ensures s[0] == '0' ==> BaseOf(CharAt(s, 1)) == 0
  {
  }

  lemma NumberOf(s: string, digits: string, rest: string)
    requires s == digits + rest && digits != "" && (s[0] == '0' ==> BaseOf(CharAt(s, 1)) == 0)
    requires DigitsEnd(s[1..], 10) == |digits| - 1 && (|rest| > 1 && rest[0] == '.' ==> !IsDigit(rest[1]))
    ensures NumberEnd(s) == Some((Integer, |digits|))
  {
    hide DigitsEnd, BaseOf;
    assert CharAt(s, |digits|) == CharAt(rest, 0) && CharAt(s, |digits| + 1) == CharAt(rest, 1);
  }

  lemma {:induction false} DecimalRun(digits: string, rest: string)
    requires forall i :: 0 <= i < |digits| ==> digits[i] in DIGITS || digits[i] == '_'
    requires rest == "" || (rest[0] !in DIGITS && rest[0] != '_')
    ensures DigitsEnd(digits + rest, 10) == |digits|
  {
    var s := digits + rest;
    if s != "" {
      Characters(s[0]);
    }
    if digits == "" {
      assert s == rest;
    } else {
      assert s[1..] == digits[1..] + rest;
      DecimalRun(digits[1..], rest);
    }
  }

  // ----- Brackets and operators -----

  /** Brackets are tokens, and are counted. */
  lemma Brackets(rest: string, m: Mode)
    ensures Next("(" + rest, m) == Some(Taken([Token(Symbol, "(")], rest, m.(parens := m.parens + 1)))
    ensures Next("[" + rest, m) == Some(Taken([Token(Symbol, "[")], rest, m.(braces := m.braces + 1)))
    ensures Next(")" + rest, m) == Some(Taken([Token(Symbol, ")")], rest, m.(parens := if m.parens > 0 then m.parens - 1 else 0)))
    ensures Next("]" + rest, m) == Some(Taken([Token(Symbol, "]")], rest, m.(braces := if m.braces > 0 then m.braces - 1 else 0)))
  {
    hide TakeString, TakeOther, TakeCloseBrace, KeywordAfter;
    Muted(m, "(");
    Muted(m, "[");
    Muted(m, ")");
    Muted(m, "]");
    assert ("(" + rest)[1..] == rest && ("[" + rest)[1..] == rest && (")" + rest)[1..] == rest && ("]" + rest)[1..] == rest;
  }

  lemma Muted(m: Mode, lexeme: string)
    ensures KeywordAfter(m.keyword, Token(Symbol, lexeme)) == m.keyword
  {
  }

  const PAIRS: set<string> := {"++", "--", ":=", "==", "=>", "!=", "<-", "<=", ">=", "|>", "||", "&&", "&="}
  const SINGLES: set<char> := {'+', '-', ':', '=', '!', '<', '>', '|', '&', ';', ',', '.', '*', '/', '%'}

  /** Operators of two characters are one token where they stand, and those of one character where they make no pair with the next. */
  lemma Operators(c: char, rest: string, m: Mode)
    requires c in SINGLES
    ensures
      var op := if rest != "" && [c, rest[0]] in PAIRS then [c, rest[0]] else [c];
      Next([c] + rest, m) == Some(Taken([Token(Symbol, op)], ([c] + rest)[|op|..], m))
  {
    hide Next, PAIRS, SINGLES, KeywordAfter, Combine;
    var s := [c] + rest;
    OperatorStart(c);
    OperatorNext(s, m);
    if rest != "" {
      Pairs(c, rest[0]);
      Muted(m, s[..2]);
      assert s[..2] == [c, rest[0]];
    } else {
      NoPair(c);
    }
    Muted(m, s[..1]);
    assert s[..1] == [c];
  }

  lemma OperatorNext(s: string, m: Mode)
    requires s != "" && StartsOperator(s[0])
    requires !IsDigit(s[0]) && !IsAlpha(s[0]) && !IsBracket(s[0]) && !IsBlank(s[0]) && s[0] !in "\n\r\'#\"`"
    ensures Next(s, m) == Some(Take(s, if Combine(s[0], CharAt(s, 1)) then 2 else 1, Symbol, m))
  {
    hide TakeString, TakeBracket, TakeNumber, Combine, StartsOperator;
  }

  lemma OperatorStart(c: char)
    requires c in SINGLES
    ensures StartsOperator(c) && !IsDigit(c) && !IsAlpha(c) && !IsBracket(c) && !IsBlank(c) && c !in "\n\r\'#\"`"
  {
  }

  lemma Pairs(c: char, d: char)
    ensures Combine(c, d) <==> [c, d] in PAIRS
  {
  }

  lemma NoPair(c: char)
    ensures !Combine(c, '\0')
  {
  }

  // ----- Braces -----

  predicate BlockWord(t: Token)
  {
    || t == Token(Word, "if") || t == Token(Word, "for") || t == Token(Word, "func") || t == Token(Word, "function")
    || t == Token(Word, "switch") || t == Token(Word, "else") || t == Token(Word, "select") || t == Token(Word, "go") || t == Token(Word, "defer")
  }

  /** What a brace behind a block keyword does not get past: the brace of a block, and `of` of a composite literal's type. */
  predicate Shuts(t: Token)
  {
    t.kind.Indent? || t == Token(Word, "of")
  }

  /** A block keyword, and nothing behind it that shuts it off. */
  ghost predicate Waits(toks: seq<Token>)
  {
    exists i :: 0 <= i < |toks| && BlockWord(toks[i]) && NoneShuts(toks[i + 1..])
  }

  ghost predicate NoneShuts(toks: seq<Token>)
  {
    forall j :: 0 <= j < |toks| ==> !Shuts(toks[j])
  }

  lemma StepKeyword(s: string, m: Mode)
    requires s != "" && Next(s, m).Some?
    ensures var t := Next(s, m).value;
      |t.toks| <= 1 && t.mode.keyword == if t.toks == [] then m.keyword else if BlockWord(t.toks[0]) then true else m.keyword && !Shuts(t.toks[0])
  {
    hide BlanksEnd, CommentEnd, RawEnd, WordEnd, Combine, ScanBody, DigitsEnd, Bumped, Shuts, BlockWord;
    var t := Next(s, m).value;
    if t.toks != [] {
      KeywordStep(m.keyword, t.toks[0]);
    }
  }

  lemma KeywordStep(keyword: bool, t: Token)
    ensures !t.kind.Newline? ==> KeywordAfter(keyword, t) == (BlockWord(t) || (keyword && !Shuts(t)))
    ensures !t.kind.Word? && !t.kind.Indent? ==> !BlockWord(t) && !Shuts(t)
  {
  }

  lemma WaitsStep(t: Token, rest: seq<Token>)
    ensures Waits([t] + rest) <==> Waits(rest) || (BlockWord(t) && NoneShuts(rest))
    ensures NoneShuts([t] + rest) <==> !Shuts(t) && NoneShuts(rest)
  {
    hide BlockWord, Shuts, NoneShuts;
    var all := [t] + rest;
    assert all[1..] == rest;
    NoneShutsStep(t, rest);
    if Waits(rest) {
      var i :| 0 <= i < |rest| && BlockWord(rest[i]) && NoneShuts(rest[i + 1..]);
      assert all[i + 2..] == rest[i + 1..] && BlockWord(all[i + 1]) && NoneShuts(all[i + 2..]);
    }
    if BlockWord(t) && NoneShuts(rest) {
      assert BlockWord(all[0]) && NoneShuts(all[1..]);
    }
    if Waits(all) {
      var i :| 0 <= i < |all| && BlockWord(all[i]) && NoneShuts(all[i + 1..]);
      if i > 0 {
        assert all[i + 1..] == rest[i..] && BlockWord(rest[i - 1]);
      }
    }
  }

  lemma NoneShutsStep(t: Token, rest: seq<Token>)
    ensures NoneShuts([t] + rest) <==> !Shuts(t) && NoneShuts(rest)
  {
    hide Shuts;
    var all := [t] + rest;
    assert all[0] == t && forall j :: 0 <= j < |rest| ==> rest[j] == all[j + 1];
  }

  lemma {:induction false} KeywordWaits(a: string, m: Mode)
    requires ScanLine(a, m).Some?
    ensures var r := ScanLine(a, m).value; r.mode.keyword <==> Waits(r.toks) || (m.keyword && NoneShuts(r.toks))
    decreases |a|
  {
    hide Next, ScanLine, Waits, NoneShuts, BlockWord, Shuts;
    if a == "" {
      EmptyText("", m);
      NoneWaits();
    } else {
      ScanLineStep(a, m);
      StepKeyword(a, m);
      var t := Next(a, m).value;
      KeywordWaits(t.rest, t.mode);
      var rest := ScanLine(t.rest, t.mode).value.toks;
      if t.toks == [] {
        assert t.toks + rest == rest;
      } else {
        assert t.toks == [t.toks[0]];
        WaitsStep(t.toks[0], rest);
        if BlockWord(t.toks[0]) {
          BlockWordKeeps(t.toks[0]);
        }
      }
    }
  }

  lemma NoneWaits()
    ensures !Waits([]) && NoneShuts([])
  {
  }

  lemma BlockWordKeeps(t: Token)
    requires BlockWord(t)
    ensures !Shuts(t)
  {
  }

  /** An opening brace opens a block exactly when a block keyword stands before it on the line and neither `of` nor another block's brace between. */
  lemma BraceOpensBlock(a: string, m: Mode, rest: string)
    requires ScanLine(a, m).Some? && !m.keyword
    ensures var r := ScanLine(a, m).value;
      Next("{" + rest, r.mode).Some? && Next("{" + rest, r.mode).value.toks == [Token(if Waits(r.toks) then Indent else Symbol, "{")]
  {
    hide ScanLine, Waits, Bumped, KeywordAfter;
    KeywordWaits(a, m);
    assert ("{" + rest)[..1] == "{";
  }

  // ----- Lines of a chain -----

  /** In a chain, a line that begins with `onerr` or with a pipe is joined to the line above, its indents owed as dedents. */
  lemma JoinedLine(indents: seq<Token>, t: Token, rest: seq<Token>, absorbed: nat, inPipeChain: bool)
    requires (forall i :: 0 <= i < |indents| ==> indents[i].kind.Indent?)
    requires t == Token(Symbol, "|>") || (t == Token(Word, "onerr") && inPipeChain)
    ensures Merge([NEWLINE] + (indents + ([t] + rest)), absorbed, inPipeChain) == Merge([t] + rest, absorbed + |indents|, inPipeChain)
  {
    hide Merge;
    var ts := [NEWLINE] + (indents + ([t] + rest));
    assert ts[1..] == indents + ([t] + rest);
    RunOf(indents, t, rest);
    assert ts[1 + |indents|..] == [t] + rest && ts[1 + |indents|] == t;
    MergeRound(ts, absorbed, inPipeChain);
  }

  lemma {:induction false} RunOf(indents: seq<Token>, t: Token, rest: seq<Token>)
    requires (forall i :: 0 <= i < |indents| ==> indents[i].kind.Indent?) && !t.kind.Indent?
    ensures Run(indents + ([t] + rest), Indent) == |indents|
  {
    if indents == [] {
      assert indents + ([t] + rest) == [t] + rest;
    } else {
      assert (indents + ([t] + rest))[1..] == indents[1..] + ([t] + rest);
      RunOf(indents[1..], t, rest);
    }
  }
}
