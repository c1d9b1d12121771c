/**
 The two encodings between which editor positions are converted: UTF-16 code
 units (section 2 of RFC 2781) and UTF-8 bytes (section 3 of RFC 3629), each
 with the decoder that gives the text back.
 */
module Encodings {
  import opened Prelude

  type Unit = u: int | 0 <= u < 0x1_0000
  type Byte = b: int | 0 <= b < 0x100

  /** A character that is no surrogate, or nothing. */
  function Scalar(r: int): Option<char>
  {
    if 0 <= r < 0xD800 || 0xE000 <= r < 0x11_0000 then Some(r as char) else None
  }

  // ----- UTF-16 -----

  /** One unit, or a high and a low surrogate with ten bits each. */
  function Utf16Char(c: char): (units: seq<Unit>)
  {
    var r := c as int;
    if r < 0x1_0000 then [r]
    else [0xD800 + (r - 0x1_0000) / 0x400, 0xDC00 + (r - 0x1_0000) % 0x400]
  }

  function Utf16(line: string): (units: seq<Unit>)
  {
    if line == "" then [] else Utf16Char(line[0]) + Utf16(line[1..])
  }

  predicate IsHigh(u: Unit)
  {
    0xD800 <= u < 0xDC00
  }

  predicate IsLow(u: Unit)
  {
    0xDC00 <= u < 0xE000
  }

  /** The first character of a text in UTF-16 and the number of its units; no lone surrogate is one. */
  function FirstOfUnits(units: seq<Unit>): Option<(char, nat)>
    requires units != []
  {
    if IsHigh(units[0]) then
      if 1 < |units| && IsLow(units[1])
      then var high: int, low: int := units[0] - 0xD800, units[1] - 0xDC00;
           Some(((0x1_0000 + high * 0x400 + low) as char, 2))
      else None
    else match Scalar(units[0]) { case Some(c) => Some((c, 1)) case None => None }
  }

  function FromUtf16(units: seq<Unit>): Option<string>
  {
    if units == [] then Some("")
    else match FirstOfUnits(units) {
      case None => None
      case Some(first) => if first.1 > |units| then None else
        match FromUtf16(units[first.1..]) { case Some(rest) => Some([first.0] + rest) case None => None }
    }
  }

  // ----- UTF-8 -----

  /** One to four bytes: a lead byte that tells the number, and six bits in each byte behind it. */
  function Utf8Char(c: char): (bytes: seq<Byte>)
  {
    var r := c as int;
    var s := r / 0x40;
    var t := s / 0x40;
    if r < 0x80 then [r]
    else if r < 0x800 then [0xC0 + s, 0x80 + r % 0x40]
    else if r < 0x1_0000 then [0xE0 + t, 0x80 + s % 0x40, 0x80 + r % 0x40]
    else [0xF0 + t / 0x40, 0x80 + t % 0x40, 0x80 + s % 0x40, 0x80 + r % 0x40]
  }

  function Utf8(line: string): (bytes: seq<Byte>)
  {
    if line == "" then [] else Utf8Char(line[0]) + Utf8(line[1..])
  }

  /** The number of bytes of the character that a lead byte begins; 0 for a byte that begins none. */
  function LeadCount(b: Byte): (n: nat)
  {
    if b < 0x80 then 1
    else if b < 0xC0 then 0
    else if b < 0xE0 then 2
    else if b < 0xF0 then 3
    else if b < 0xF8 then 4
    else 0
  }

  predicate IsTail(b: Byte)
  {
    0x80 <= b < 0xC0
  }

  /** Six bits more. */
  function More(bits: int, tail: Byte): int
  {
    bits * 0x40 + (tail as int - 0x80)
  }

  /** The first character of a text in UTF-8 and the number of its bytes; longer forms than needed are none. */
  function FirstOfBytes(b: seq<Byte>): Option<(char, nat)>
    requires b != []
  {
    var n := LeadCount(b[0]);
    if n == 0 || n > |b| || !(forall i :: 1 <= i < n ==> IsTail(b[i])) then None
    else
      var r := if n == 1 then b[0]
               else if n == 2 then More(b[0] - 0xC0, b[1])
               else if n == 3 then More(More(b[0] - 0xE0, b[1]), b[2])
               else More(More(More(b[0] - 0xF0, b[1]), b[2]), b[3]);
      if (n == 2 && r < 0x80) || (n == 3 && r < 0x800) || (n == 4 && r < 0x1_0000) then None
      else match Scalar(r) { case Some(c) => Some((c, n)) case None => None }
  }

  function FromUtf8(bytes: seq<Byte>): Option<string>
  {
    if bytes == [] then Some("")
    else match FirstOfBytes(bytes) {
      case None => None
      case Some(first) => if first.1 == 0 || first.1 > |bytes| then None else
        match FromUtf8(bytes[first.1..]) { case Some(rest) => Some([first.0] + rest) case None => None }
    }
  }

  // ----- Both are exact -----

  lemma FirstUnits(c: char, rest: seq<Unit>)
    ensures FirstOfUnits(Utf16Char(c) + rest) == Some((c, |Utf16Char(c)|))
  {
  }

  lemma FirstUnitsOnly(units: seq<Unit>)
    requires units != [] && FirstOfUnits(units).Some?
    ensures (
      var first := FirstOfUnits(units).value;
      0 < first.1 <= |units| && Utf16Char(first.0) == units[..first.1])
  {
  }

  /** A sequence of code units is the text's UTF-16 form exactly when decoding it gives the text. */
  lemma {:induction false} Utf16Exact(units: seq<Unit>, line: string)
    ensures units == Utf16(line) <==> FromUtf16(units) == Some(line)
    decreases |line| + |units|
  {
    if units == Utf16(line) && line != "" {
      FirstUnits(line[0], Utf16(line[1..]));
      assert units[|Utf16Char(line[0])|..] == Utf16(line[1..]);
      Utf16Exact(Utf16(line[1..]), line[1..]);
      assert [line[0]] + line[1..] == line;
    }
    if FromUtf16(units) == Some(line) && units != [] {
      FirstUnitsOnly(units);
      var n := FirstOfUnits(units).value.1;
      Utf16Exact(units[n..], line[1..]);
      assert units == units[..n] + units[n..];
    }
  }

  lemma FirstBytes(c: char, rest: seq<Byte>)
    ensures FirstOfBytes(Utf8Char(c) + rest) == Some((c, |Utf8Char(c)|))
  {
    var b := Utf8Char(c) + rest;
    assert forall i :: 1 <= i < |Utf8Char(c)| ==> IsTail(b[i]);
  }

  lemma MoreBack(bits: int, tail: Byte)
    requires IsTail(tail)
    ensures More(bits, tail) / 0x40 == bits && More(bits, tail) % 0x40 == tail as int - 0x80
  {
  }

  lemma FirstBytesOnly(bytes: seq<Byte>)
    requires bytes != [] && FirstOfBytes(bytes).Some?
    ensures (
      var first := FirstOfBytes(bytes).value;
      0 < first.1 <= |bytes| && Utf8Char(first.0) == bytes[..first.1])
  {
    var b, n := bytes, LeadCount(bytes[0]);
    assert forall i :: 1 <= i < n ==> IsTail(b[i]);
    if n == 2 {
      MoreBack(b[0] - 0xC0, b[1]);
    } else if n == 3 {
      MoreBack(b[0] - 0xE0, b[1]);
      MoreBack(More(b[0] - 0xE0, b[1]), b[2]);
    } else if n == 4 {
      MoreBack(b[0] - 0xF0, b[1]);
      MoreBack(More(b[0] - 0xF0, b[1]), b[2]);
      MoreBack(More(More(b[0] - 0xF0, b[1]), b[2]), b[3]);
    }
    hide More;
  }

  /** A sequence of bytes is the text's UTF-8 form exactly when decoding it gives the text. */
  lemma {:induction false} Utf8Exact(bytes: seq<Byte>, line: string)
    ensures bytes == Utf8(line) <==> FromUtf8(bytes) == Some(line)
    decreases |line| + |bytes|
  {
    if bytes == Utf8(line) && line != "" {
      FirstBytes(line[0], Utf8(line[1..]));
      assert bytes[|Utf8Char(line[0])|..] == Utf8(line[1..]);
      Utf8Exact(Utf8(line[1..]), line[1..]);
      assert [line[0]] + line[1..] == line;
    }
    if FromUtf8(bytes) == Some(line) && bytes != [] {
      FirstBytesOnly(bytes);
      var n := FirstOfBytes(bytes).value.1;
      Utf8Exact(bytes[n..], line[1..]);
      assert bytes == bytes[..n] + bytes[n..];
    }
  }

  /** Both encode a text piece by piece. */
  lemma {:induction false} EncodedPieces(a: string, b: string)
    ensures Utf16(a + b) == Utf16(a) + Utf16(b) && Utf8(a + b) == Utf8(a) + Utf8(b)
  {
    hide Utf16Char, Utf8Char;
    if a == "" {
      assert a + b == b;
    } else {
      assert (a + b)[1..] == a[1..] + b && (a + b)[0] == a[0];
      EncodedPieces(a[1..], b);
      assert Utf16(a + b) == Utf16Char(a[0]) + (Utf16(a[1..]) + Utf16(b));
      assert Utf8(a + b) == Utf8Char(a[0]) + (Utf8(a[1..]) + Utf8(b));
    }
  }
}
