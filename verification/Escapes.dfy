/** What the decoder reads for every form of escape, and what the default flags make of every byte. */
module Escapes {
  import opened GoBytes
  import opened Govis
  import opened GovisLaws

  const OCTAL := "01234567"
  const LOWER_HEX := "0123456789abcdef"
  const UPPER_HEX := "0123456789ABCDEF"

  /** The text reads as these bytes, and does not disturb what follows. */
  ghost predicate Reads(text: Bytes, out: Bytes, rest: Bytes, flags: VisFlag) {
    Decode(text + rest, flags) == Prepend(out, Decode(rest, flags))
  }

  /** One element of ASCII text, then the rest. */
  lemma ElementReads(text: Bytes, out: Bytes, rest: Bytes, flags: VisFlag)
    requires IsAscii(text) && text != [] && Known(flags)
    requires Element(text + Runes(rest), flags) == Ok(Step(out, |text|))
    ensures Reads(text, out, rest, flags)
  {
    hide Element;
    RunesOfAsciiPrefix(text, rest);
    assert (text + Runes(rest))[|text|..] == Runes(rest);
  }

  lemma HexDigits(i: nat)
    requires i < 16
    ensures DigitValue(LOWER_HEX[i]) == i && DigitValue(UPPER_HEX[i]) == i
    ensures LOWER_HEX[i] as int < 128 && UPPER_HEX[i] as int < 128
  {
  }

  lemma OctalDigits(i: nat)
    requires i < 8
    ensures DigitValue(OCTAL[i]) == i && '0' <= OCTAL[i] <= '7'
  {
  }

  lemma NumberOfTwo(a: char, b: char, base: int)
    ensures NumberValue([a, b], base) == DigitValue(a) * base + DigitValue(b) && NumberValue([a], base) == DigitValue(a)
  {
    assert [a, b][..1] == [a] && [a][..0] == [];
    assert NumberValue([a], base) == NumberValue([], base) * base + DigitValue(a);
    assert NumberValue([a, b], base) == NumberValue([a], base) * base + DigitValue(b);
  }

  lemma NumberOfThree(a: char, b: char, c: char, base: int)
    ensures NumberValue([a, b, c], base) == (DigitValue(a) * base + DigitValue(b)) * base + DigitValue(c)
  {
    assert [a, b, c][..2] == [a, b];
    NumberOfTwo(a, b, base);
  }

  lemma {:induction false} TwoDigits(a: Byte, b: Byte, i: nat, j: nat, rest: seq<char>)
    requires DigitValue(a) == i < 16 && DigitValue(b) == j < 16
    ensures Digits([a, b] + rest, 16, 2, true) == Ok(Step([(16 * i + j) as char], 2))
  {
    var s := [a, b] + rest;
    DigitRunIs(s, 16, 2, 2);
    assert s[..2] == [a, b];
    NumberOfTwo(a, b, 16);
  }

  /** "\x" and two hexadecimal digits are the byte of that number, in either case; so is "%" in the HTTP style. */
  lemma {:induction false} HexRead(i: nat, j: nat, a: Byte, b: Byte, rest: Bytes, flags: VisFlag)
    requires i < 16 && j < 16 && Known(flags)
    requires (a == LOWER_HEX[i] || a == UPPER_HEX[i]) && (b == LOWER_HEX[j] || b == UPPER_HEX[j])
    ensures Reads(['\\', 'x', a, b], [(16 * i + j) as char], rest, flags)
    ensures Has(flags, VIS_HTTPSTYLE) ==> Reads(['%', a, b], [(16 * i + j) as char], rest, flags)
  {
    hide Digits, DigitValue, Reads;
    HexDigits(i);
    HexDigits(j);
    var out, rs := [(16 * i + j) as char], Runes(rest);
    TwoDigits(a, b, i, j, rs);
    assert (['\\', 'x', a, b] + rs)[1..] == ['x', a, b] + rs && (['x', a, b] + rs)[1..] == [a, b] + rs;
    ElementReads(['\\', 'x', a, b], out, rest, flags);
    if Has(flags, VIS_HTTPSTYLE) {
      assert (['%', a, b] + rs)[1..] == [a, b] + rs;
      ElementReads(['%', a, b], out, rest, flags);
    }
  }

  /** A backslash and one to three octal digits, as many as there are, are the byte of that number. */
  lemma {:induction false} OctalRead(digits: seq<nat>, rest: Bytes, flags: VisFlag)
    requires 1 <= |digits| <= 3 && Known(flags) && forall k :: 0 <= k < |digits| ==> digits[k] < 8
    requires |digits| < 3 ==> rest == [] || !('0' <= rest[0] <= '7')
    requires OctalNumber(digits) < 256
    ensures Reads(['\\'] + OctalText(digits), [OctalNumber(digits) as char], rest, flags)
  {
    hide Digits, Reads, OctalText, OctalNumber;
    var text, rs := OctalText(digits), Runes(rest);
    OctalDigitsRead(digits, rest);
    OctalDigits(digits[0]);
    assert text[0] == OCTAL[digits[0]];
    assert (['\\'] + text + rs)[1..] == text + rs;
    ElementReads(['\\'] + text, [OctalNumber(digits) as char], rest, flags);
  }

  lemma OctalBytes(digits: seq<nat>)
    requires forall k :: 0 <= k < |digits| ==> digits[k] < 8
    ensures forall k :: 0 <= k < |digits| ==> DigitValue(OctalText(digits)[k]) == digits[k] && '0' <= OctalText(digits)[k] <= '7'
  {
    forall k | 0 <= k < |digits|
      ensures DigitValue(OctalText(digits)[k]) == digits[k] && '0' <= OctalText(digits)[k] <= '7'
    {
      OctalDigits(digits[k]);
    }
  }

  lemma {:induction false} OctalDigitsRead(digits: seq<nat>, rest: Bytes)
    requires 1 <= |digits| <= 3 && forall k :: 0 <= k < |digits| ==> digits[k] < 8
    requires |digits| < 3 ==> rest == [] || !('0' <= rest[0] <= '7')
    requires OctalNumber(digits) < 256
    ensures Digits(OctalText(digits) + Runes(rest), 8, 3, false) == Ok(Step([OctalNumber(digits) as char], |digits|))
  {
    hide DigitValue, NumberValue, OctalNumber, OctalText, DigitRun;
    var text, rs := OctalText(digits), Runes(rest);
    OctalBytes(digits);
    FirstRune(rest);
    var s := text + rs;
    DigitRunIs(s, 8, 3, |digits|);
    assert s[..|digits|] == text;
    OctalValue(digits);
  }

  /** Three octal digits above 377 are an error. */
  lemma {:induction false} OctalTooLarge(digits: seq<nat>, rest: Bytes, flags: VisFlag)
    requires |digits| == 3 && Known(flags) && (forall k :: 0 <= k < 3 ==> digits[k] < 8) && digits[0] >= 4
    ensures Decode(['\\'] + OctalText(digits) + rest, flags) == Err(OutsideLatin1)
  {
    hide DigitValue;
    var text, rs := OctalText(digits), Runes(rest);
    OctalBytes(digits);
    var s := text + rs;
    DigitRunIs(s, 8, 3, 3);
    assert s[..3] == text;
    OctalValue(digits);
    RunesOfAsciiPrefix(['\\'] + text, rest);
    assert (['\\'] + text + rs)[1..] == s;
  }

  function OctalText(digits: seq<nat>): (text: Bytes)
    requires forall k :: 0 <= k < |digits| ==> digits[k] < 8
    ensures |text| == |digits| && forall k :: 0 <= k < |digits| ==> text[k] == OCTAL[digits[k]]
  {
    seq(|digits|, k requires 0 <= k < |digits| => OCTAL[digits[k]])
  }

  function OctalNumber(digits: seq<nat>): nat
    requires 1 <= |digits| <= 3
  {
    if |digits| == 1 then digits[0] else if |digits| == 2 then 8 * digits[0] + digits[1] else 64 * digits[0] + 8 * digits[1] + digits[2]
  }

  lemma {:induction false} OctalValue(digits: seq<nat>)
    requires 1 <= |digits| <= 3 && forall k :: 0 <= k < |digits| ==> digits[k] < 8
    ensures NumberValue(OctalText(digits), 8) == OctalNumber(digits)
  {
    hide DigitValue, NumberValue;
    var t := OctalText(digits);
    forall k | 0 <= k < |digits|
      ensures DigitValue(t[k]) == digits[k]
    {
      OctalDigits(digits[k]);
    }
    if |digits| == 3 {
      assert t == [t[0], t[1], t[2]];
      NumberOfThree(t[0], t[1], t[2], 8);
    } else if |digits| == 2 {
      assert t == [t[0], t[1]];
      NumberOfTwo(t[0], t[1], 8);
    } else {
      assert t == [t[0]];
      NumberOfTwo(t[0], t[0], 8);
    }
  }

  lemma FirstRune(rest: Bytes)
    ensures Runes(rest) != [] && '0' <= Runes(rest)[0] <= '7' ==> rest != [] && '0' <= rest[0] <= '7'
    ensures Runes(rest) != [] && '0' <= Runes(rest)[0] <= '7' ==> DigitValue(Runes(rest)[0]) < 8
    ensures Runes(rest) != [] && !('0' <= Runes(rest)[0] <= '7') ==> DigitValue(Runes(rest)[0]) >= 8
  {
  }

  /** What follows a backslash as one letter or sign, and what it stands for. */
  function LetterMeaning(c: Byte): Option<Bytes> {
    if c == 'n' then Some([10 as char])
    else if c == 'r' then Some([13 as char])
    else if c == 'b' then Some([8 as char])
    else if c == 'a' then Some([7 as char])
    else if c == 'v' then Some([11 as char])
    else if c == 't' then Some([9 as char])
    else if c == 'f' then Some([12 as char])
    else if c == 's' then Some([32 as char])
    else if c == 'E' then Some([27 as char])
    else if c as int == 10 || c == '$' then Some([])
    else if c == '\\' || c == '"' then Some([c])
    else None
  }

  /** Letters stand for control characters, a newline and "$" for nothing, "\" and the quote for themselves; other ASCII
      characters that begin no number, control or meta escape are errors. */
  lemma {:induction false} LettersRead(c: Byte, rest: Bytes, flags: VisFlag)
    requires c as int < 128 && Known(flags)
    ensures LetterMeaning(c).Some? ==> Reads(['\\', c], LetterMeaning(c).value, rest, flags)
    ensures LetterMeaning(c).None? && !('0' <= c <= '7') && c != 'x' && c != '^' && c != 'M' ==>
      Decode(['\\', c] + rest, flags) == Err(UnknownEscapeChar)
  {
    hide Escape, Reads, LetterMeaning;
    var rs := Runes(rest);
    assert (['\\', c] + rs)[1..] == [c] + rs;
    LetterStep(c, rs);
    if LetterMeaning(c).Some? {
      ElementReads(['\\', c], LetterMeaning(c).value, rest, flags);
    } else {
      RunesOfAsciiPrefix(['\\', c], rest);
    }
  }

  lemma LetterStep(c: Byte, rs: seq<char>)
    ensures LetterMeaning(c).Some? ==> Escape([c] + rs) == Ok(Step(LetterMeaning(c).value, 1))
    ensures LetterMeaning(c).None? && !('0' <= c <= '7') && c != 'x' && c != '^' && c != 'M' ==> Escape([c] + rs) == Err(UnknownEscapeChar)
  {
    hide Digits, Ctrl, Meta;
  }

  /** "\^c" is the control character of c, "\M-c" has the high bit, "\M^c" both; "?" is DEL. */
  lemma {:induction false} ControlsRead(c: Byte, rest: Bytes, flags: VisFlag)
    requires c as int < 128 && Known(flags)
    ensures var control := if c == '?' then 127 else c as int % 32;
      && Reads(['\\', '^', c], [control as char], rest, flags)
      && Reads(['\\', 'M', '^', c], [(128 + control) as char], rest, flags)
      && Reads(['\\', 'M', '-', c], [(128 + c as int) as char], rest, flags)
  {
    hide Digits, Reads;
    var rs := Runes(rest);
    var control := if c == '?' then 127 else c as int % 32;
    assert (['\\', '^', c] + rs)[1..] == ['^', c] + rs && (['^', c] + rs)[1..] == [c] + rs;
    ElementReads(['\\', '^', c], [control as char], rest, flags);
    assert (['\\', 'M', '^', c] + rs)[1..] == ['M', '^', c] + rs && (['M', '^', c] + rs)[1..] == ['^', c] + rs;
    ElementReads(['\\', 'M', '^', c], [(128 + control) as char], rest, flags);
    assert (['\\', 'M', '-', c] + rs)[1..] == ['M', '-', c] + rs && (['M', '-', c] + rs)[1..] == ['-', c] + rs;
    ElementReads(['\\', 'M', '-', c], [(128 + c as int) as char], rest, flags);
  }

  // ---------- the default flags ----------

  /** With the flags mtree uses, graphical bytes but '#', '*', '?', '[' and the backslash encode as themselves, the
      backslash doubled, and everything else as three octal digits of its number. */
  lemma {:induction false} DefaultEncoding(ch: Byte)
    ensures var e := VisByte(ch, DEFAULT_VIS_FLAGS);
      if ch == '\\' then e == "\\\\"
      else if 33 <= ch as int <= 126 && ch != '#' && ch != '*' && ch != '?' && ch != '[' then e == [ch]
      else
        && |e| == 4 && e[0] == '\\' && (forall k :: 1 <= k < 4 ==> '0' <= e[k] <= '7')
        && 64 * (e[1] as int - 48) + 8 * (e[2] as int - 48) + (e[3] as int - 48) == ch as int
  {
    hide Has, OctalEscape, MetaCtrlEscape, CStyleLetter, PercentHex;
    DefaultFlags();
    DefaultBits();
    OctalOf(ch);
  }

  lemma OctalOf(ch: Byte)
    ensures var e := OctalEscape(ch);
      && |e| == 4 && e[0] == '\\' && (forall k :: 1 <= k < 4 ==> '0' <= e[k] <= '7')
      && 64 * (e[1] as int - 48) + 8 * (e[2] as int - 48) + (e[3] as int - 48) == ch as int
  {
  }

  lemma DefaultBits()
    ensures !Has(DEFAULT_VIS_FLAGS, VIS_HTTPSTYLE) && !Has(DEFAULT_VIS_FLAGS, VIS_CSTYLE) && !Has(DEFAULT_VIS_FLAGS, VIS_DOUBLEQUOTE)
    ensures Has(DEFAULT_VIS_FLAGS, VIS_GLOB) && Has(DEFAULT_VIS_FLAGS, VIS_OCTAL) && Has(DEFAULT_VIS_FLAGS, VIS_SPACE)
    ensures Has(DEFAULT_VIS_FLAGS, VIS_TAB) && Has(DEFAULT_VIS_FLAGS, VIS_NEWLINE)
    ensures DEFAULT_VIS_FLAGS & VIS_NOSLASH == 0 && DEFAULT_VIS_FLAGS & VIS_SAFE == 0
  {
  }

  // ---------- other flags ----------

  predicate IsHttpByte(ch: Byte) {
    || 48 <= ch as int <= 57 || 65 <= ch as int <= 90 || 97 <= ch as int <= 122
    || ch in "$-_.+!*'(),"
  }

  /** In the HTTP style letters, digits and a few signs encode as without it, and everything else as "%" and two upper-case
      hexadecimal digits. */
  lemma {:induction false} HttpEncoding(ch: Byte, flags: VisFlag)
    requires Has(flags, VIS_HTTPSTYLE)
    ensures !IsHttpByte(ch) ==> VisByte(ch, flags) == ['%', UPPER_HEX[ch as int / 16], UPPER_HEX[ch as int % 16]]
    ensures IsHttpByte(ch) && !(Has(flags, VIS_GLOB) && ch == '*') ==> VisByte(ch, flags) == [ch]
  {
    HexDigitIs(ch as int / 16);
    HexDigitIs(ch as int % 16);
    hide Has, HexDigit;
  }

  lemma HexDigitIs(n: nat)
    requires n < 16
    ensures HexDigit(n) == UPPER_HEX[n]
  {
  }

  /** In the C style control characters that have a letter, and the space, are written with it wherever they may not stand for
      themselves; NUL is three zeros. */
  lemma {:induction false} CStyleEncoding(ch: Byte, letter: Byte, flags: VisFlag)
    requires Has(flags, VIS_CSTYLE) && !Has(flags, VIS_HTTPSTYLE) && flags & VIS_SAFE == 0
    requires letter != '$' && letter != '\\' && letter != '"' && letter != 'E' && letter as int != 10 && LetterMeaning(letter) == Some([ch])
    ensures VisByte(ch, flags) ==
      if (ch == ' ' && !Has(flags, VIS_SPACE)) || (ch as int == 9 && !Has(flags, VIS_TAB)) || (ch as int == 10 && !Has(flags, VIS_NEWLINE))
      then [ch] else ['\\', letter]
    ensures VisByte(0 as char, flags) == "\\000"
  {
    hide Has;
  }

  /** Without the octal and other styles a control character is a caret and the character 64 above it, DEL a caret and "?", and a
      byte with the high bit "M" and what its low part would be, "-" before what is no control; but a space with the high bit is octal. */
  lemma {:induction false} ControlEncoding(ch: Byte, flags: VisFlag)
    requires !Has(flags, VIS_CSTYLE) && !Has(flags, VIS_HTTPSTYLE) && !Has(flags, VIS_OCTAL) && flags & VIS_SAFE == 0 && flags & VIS_NOSLASH == 0
    ensures ch as int < 32 && ch as int != 9 && ch as int != 10 ==> VisByte(ch, flags) == ['\\', '^', (ch as int + 64) as char]
    ensures ch as int == 127 ==> VisByte(ch, flags) == "\\^?"
    ensures 128 <= ch as int < 160 ==> VisByte(ch, flags) == ['\\', 'M', '^', (ch as int - 64) as char]
    ensures 160 < ch as int < 255 ==> VisByte(ch, flags) == ['\\', 'M', '-', (ch as int - 128) as char]
    ensures ch as int == 255 ==> VisByte(ch, flags) == "\\M^?"
    ensures ch as int == 160 ==> VisByte(ch, flags) == "\\240"
  {
    hide Has;
  }

  /** There are ten flags. */
  lemma KnownIs(flags: VisFlag)
    ensures Known(flags) <==> flags < 0x400
  {
  }
}
