/** The vis(3) encoder and its decoder, pkg/govis. */
module Govis {
  import opened GoBytes

  type VisFlag = bv64

  const VIS_OCTAL: VisFlag := 0x1
  const VIS_CSTYLE: VisFlag := 0x2
  const VIS_SPACE: VisFlag := 0x4
  const VIS_TAB: VisFlag := 0x8
  const VIS_NEWLINE: VisFlag := 0x10
  const VIS_SAFE: VisFlag := 0x20
  const VIS_NOSLASH: VisFlag := 0x40
  const VIS_HTTPSTYLE: VisFlag := 0x80
  const VIS_GLOB: VisFlag := 0x100
  const VIS_DOUBLEQUOTE: VisFlag := 0x200
  const VIS_MASK: VisFlag := 0x3FF

  /** The flags mtree encodes names with: white space and glob characters, in octal. */
  const DEFAULT_VIS_FLAGS: VisFlag := 0x11D

  predicate Has(flags: VisFlag, bit: VisFlag) {
    flags & bit == bit
  }

  predicate Known(flags: VisFlag) {
    flags & !VIS_MASK == 0
  }

  datatype VisError =
    | UnknownVisFlags
    | EndOfString
    | UnknownEscapeChar
    | OutsideLatin1
    | ParseDigit

  // ---------- encoding ----------

  predicate IsUnsafe(ch: Byte) {
    ch as int == 8 || ch as int == 7 || ch == '\r'
  }

  predicate IsGlob(ch: Byte) {
    ch == '*' || ch == '?' || ch == '[' || ch == '#'
  }

  predicate IsHttp(ch: Byte) {
    || '0' <= ch <= '9' || 'a' <= ch <= 'z' || 'A' <= ch <= 'Z'
    || ch == '$' || ch == '-' || ch == '_' || ch == '.' || ch == '+'
    || ch == '!' || ch == '*' || ch == '\'' || ch == '(' || ch == ')' || ch == ','
  }

  predicate IsGraph(ch: Byte) {
    0x21 <= ch as int <= 0x7E
  }

  /** unicode.IsControl on a byte read as a rune: C0, DEL and C1. */
  predicate IsCtrl(ch: Byte) {
    ch as int < 0x20 || 0x7F <= ch as int < 0xA0
  }

  function HexDigit(n: int): Byte
    requires 0 <= n < 16
  {
    if n < 10 then (n + '0' as int) as char else (n - 10 + 'A' as int) as char
  }

  /** "%%%.2X" */
  function PercentHex(ch: Byte): Bytes {
    ['%', HexDigit(ch as int / 16), HexDigit(ch as int % 16)]
  }

  /** "\\%.3o" */
  function OctalEscape(ch: Byte): Bytes {
    var n := ch as int;
    ['\\', (n / 64 + '0' as int) as char, (n / 8 % 8 + '0' as int) as char, (n % 8 + '0' as int) as char]
  }

  function CStyleLetter(ch: Byte): Option<Byte> {
    match ch as int
    case 32 => Some('s')
    case 10 => Some('n')
    case 13 => Some('r')
    case 8 => Some('b')
    case 7 => Some('a')
    case 11 => Some('v')
    case 9 => Some('t')
    case 12 => Some('f')
    case _ => None
  }

  /** The character is written as itself: graphical, or white or unsafe and not asked to be encoded. */
  predicate IsPlain(ch: Byte, flags: VisFlag) {
    || IsGraph(ch)
    || (!Has(flags, VIS_SPACE) && ch == ' ')
    || (!Has(flags, VIS_TAB) && ch == '\t')
    || (!Has(flags, VIS_NEWLINE) && ch == '\n')
    || (flags & VIS_SAFE != 0 && IsUnsafe(ch))
  }

  function MetaCtrlEscape(ch: Byte, flags: VisFlag): Bytes {
    var slash: Bytes := if flags & VIS_NOSLASH == 0 then "\\" else "";
    var meta: Bytes := if ch as int >= 0x80 then "M" else "";
    var low: Byte := (ch as int % 0x80) as char;
    slash + meta +
    if IsCtrl(low) then
      if low as int == 0x7F then "^?" else ['^', (low as int + '@' as int) as char]
    else
      ['-', low]
  }

  /** The bytes vis writes for one byte. */
  function VisByte(ch: Byte, flags: VisFlag): Bytes {
    if Has(flags, VIS_HTTPSTYLE) && !IsHttp(ch) then
      PercentHex(ch)
    else if ch as int <= 0x7F && !(Has(flags, VIS_GLOB) && IsGlob(ch))
         && ((flags & VIS_NOSLASH == 0 && ch == '\\') || (Has(flags, VIS_DOUBLEQUOTE) && ch == '"')) then
      ['\\', ch]
    else if ch as int <= 0x7F && !(Has(flags, VIS_GLOB) && IsGlob(ch)) && IsPlain(ch, flags) then
      [ch]
    else if Has(flags, VIS_CSTYLE) && CStyleLetter(ch).Some? then
      ['\\', CStyleLetter(ch).value]
    else if Has(flags, VIS_CSTYLE) && ch as int == 0 then
      "\\000"
    else if Has(flags, VIS_OCTAL) || IsGraph(ch) || ch as int % 0x80 == ' ' as int then
      OctalEscape(ch)
    else
      MetaCtrlEscape(ch, flags)
  }

  function VisBytes(src: Bytes, flags: VisFlag): Bytes {
    if src == [] then [] else VisByte(src[0], flags) + VisBytes(src[1..], flags)
  }

  lemma {:induction false} VisBytesConcat(a: Bytes, b: Bytes, flags: VisFlag)
    ensures VisBytes(a + b, flags) == VisBytes(a, flags) + VisBytes(b, flags)
    ensures |b| == 1 ==> VisBytes(b, flags) == VisByte(b[0], flags)
  {
    if a == [] {
      assert a + b == b;
    } else {
      assert (a + b)[1..] == a[1..] + b;
      VisBytesConcat(a[1..], b, flags);
    }
  }

  /** What Vis returns. */
  function Encode(src: Bytes, flags: VisFlag): Result<Bytes, VisError> {
    if !Known(flags) then Err(UnknownVisFlags) else Ok(VisBytes(src, flags))
  }

  method Vis(src: Bytes, flags: VisFlag) returns (r: Result<Bytes, VisError>)
    ensures r == Encode(src, flags)
  {
    if flags & !VIS_MASK != 0 {
      return Err(UnknownVisFlags);
    }
    var output: Bytes := [];
    for i := 0 to |src|
      invariant output == VisBytes(src[..i], flags)
    {
      VisBytesConcat(src[..i], [src[i]], flags);
      assert src[..i + 1] == src[..i] + [src[i]];
      output := output + VisByte(src[i], flags);
    }
    assert src[..|src|] == src;
    return Ok(output);
  }

  // ---------- decoding: the grammar ----------

  /** What one production writes, and how many runes it consumes. */
  datatype Step = Step(out: Bytes, used: nat)

  function DigitValue(c: char): int {
    if '0' <= c <= '9' then c as int - '0' as int
    else if 'a' <= c <= 'z' then c as int - 'a' as int + 10
    else if 'A' <= c <= 'Z' then c as int - 'A' as int + 10
    else 36
  }

  /** The number of digits at the front of s, at most max. */
  function DigitRun(s: seq<char>, base: int, max: nat): (n: nat)
    ensures n <= |s| && n <= max
  {
    if max == 0 || s == [] || DigitValue(s[0]) >= base then 0 else 1 + DigitRun(s[1..], base, max - 1)
  }

  function NumberValue(s: seq<char>, base: int): int {
    if s == [] then 0 else NumberValue(s[..|s| - 1], base) * base + DigitValue(s[|s| - 1])
  }

  /** One to max digits, or exactly max of them when forced, naming a Latin-1 code. */
  function Digits(s: seq<char>, base: int, max: nat, force: bool): Result<Step, VisError> {
    var n := DigitRun(s, base, max);
    if n == 0 || (force && n < max) then
      Err(if n == |s| then EndOfString else ParseDigit)
    else
      var code := NumberValue(s[..n], base);
      if 0 <= code < 256 then Ok(Step([code as char], n)) else Err(OutsideLatin1)
  }

  lemma {:induction false} DigitRunIs(s: seq<char>, base: int, max: nat, n: nat)
    requires n <= max && n <= |s| && forall k :: 0 <= k < n ==> DigitValue(s[k]) < base
    requires n == max || n == |s| || DigitValue(s[n]) >= base
    ensures DigitRun(s, base, max) == n
  {
    if n > 0 {
      DigitRunIs(s[1..], base, max - 1, n - 1);
    }
  }

  lemma NumberSnoc(s: seq<char>, base: int, n: nat)
    requires n < |s|
    ensures NumberValue(s[..n + 1], base) == NumberValue(s[..n], base) * base + DigitValue(s[n])
  {
    assert s[..n + 1][..n] == s[..n];
  }

  lemma {:induction false} NumberNonNegative(s: seq<char>, base: int)
    requires base >= 0
    ensures NumberValue(s, base) >= 0
  {
    if s != [] {
      NumberNonNegative(s[..|s| - 1], base);
    }
  }

  /** The digit loop's counter after n digits: 0xFF divided n times by the base. */
  function Countdown(base: int, n: nat): int
    requires base == 8 || base == 16
  {
    if n == 0 then 255 else if base == 16 then (if n == 1 then 15 else 0)
    else if n == 1 then 31 else if n == 2 then 3 else 0
  }

  function WithMask(mask: int, b: Byte): Byte
    requires mask == 0 || mask == 0x80
  {
    if mask == 0 then b else (b as int % 0x80 + 0x80) as char
  }

  function Ctrl(s: seq<char>, mask: int): Result<Step, VisError>
    requires mask == 0 || mask == 0x80
  {
    if s == [] then Err(EndOfString)
    else if s[0] as int > 255 then Err(OutsideLatin1)
    else Ok(Step([WithMask(mask, if s[0] == '?' then 0x7F as char else (s[0] as int % 0x20) as char)], 1))
  }

  function Further(r: Result<Step, VisError>, n: nat): Result<Step, VisError> {
    match r case Ok(st) => Ok(Step(st.out, st.used + n)) case Err(_) => r
  }

  function Meta(s: seq<char>): Result<Step, VisError> {
    if s == [] then Err(EndOfString)
    else if s[0] == '^' then Further(Ctrl(s[1..], 0x80), 1)
    else if s[0] != '-' then Err(UnknownEscapeChar)
    else if |s| == 1 then Err(EndOfString)
    else if s[1] as int > 255 then Err(OutsideLatin1)
    else Ok(Step([WithMask(0x80, s[1])], 2))
  }

  function CStyle(s: seq<char>): Result<Step, VisError> {
    if s == [] then Err(EndOfString)
    else match s[0]
      case 'n' => Ok(Step("\n", 1))
      case 'r' => Ok(Step("\r", 1))
      case 'b' => Ok(Step([8 as char], 1))
      case 'a' => Ok(Step([7 as char], 1))
      case 'v' => Ok(Step([11 as char], 1))
      case 't' => Ok(Step("\t", 1))
      case 'f' => Ok(Step([12 as char], 1))
      case 's' => Ok(Step(" ", 1))
      case 'E' => Ok(Step([27 as char], 1))
      case '\n' => Ok(Step([], 1))
      case '$' => Ok(Step([], 1))
      case _ => Err(UnknownEscapeChar)
  }

  function Escape(s: seq<char>): Result<Step, VisError> {
    if s == [] then Err(EndOfString)
    else if s[0] == '\\' || s[0] == '"' then Ok(Step([s[0]], 1))
    else if '0' <= s[0] <= '7' then Digits(s, 8, 3, false)
    else if s[0] == 'x' then Further(Digits(s[1..], 16, 2, true), 1)
    else if s[0] == '^' then Further(Ctrl(s[1..], 0), 1)
    else if s[0] == 'M' then Further(Meta(s[1..]), 1)
    else CStyle(s)
  }

  /** One element of the input. */
  function Element(s: seq<char>, flags: VisFlag): (r: Result<Step, VisError>)
    requires s != []
    ensures r.Ok? ==> 1 <= r.value.used <= |s|
  {
    if s[0] == '\\' then Further(Escape(s[1..]), 1)
    else if s[0] == '%' && Has(flags, VIS_HTTPSTYLE) then Further(Digits(s[1..], 16, 2, true), 1)
    else Ok(Step(EncodeRune(s[0]), 1))
  }

  function Elements(s: seq<char>, flags: VisFlag): Result<Bytes, VisError> {
    if s == [] then Ok([]) else
    var st :- Element(s, flags);
    Prepend(st.out, Elements(s[st.used..], flags))
  }

  function Prepend(out: Bytes, r: Result<Bytes, VisError>): Result<Bytes, VisError> {
    match r case Ok(more) => Ok(out + more) case Err(_) => r
  }

  lemma PrependTwice(a: Bytes, b: Bytes, r: Result<Bytes, VisError>)
    ensures Prepend(a, Prepend(b, r)) == Prepend(a + b, r)
    ensures Prepend([], r) == r
  {
    if r.Ok? {
      assert a + (b + r.value) == (a + b) + r.value;
      assert [] + r.value == r.value;
    }
  }

  /** What Unvis returns. */
  function Decode(input: Bytes, flags: VisFlag): Result<Bytes, VisError> {
    if !Known(flags) then Err(UnknownVisFlags) else Elements(Runes(input), flags)
  }

  // ---------- decoding: the parser ----------

  class UnvisParser {
    var output: Bytes
    var tokens: seq<char>
    var idx: nat
    const flags: VisFlag

    constructor (flags: VisFlag)
      ensures this.flags == flags
    {
      this.flags := flags;
      output, tokens, idx := [], [], 0;
    }

    ghost predicate Valid()
      reads this
    {
      idx <= |tokens|
    }

    ghost function Rest(): seq<char>
      reads this
      requires Valid()
    {
      tokens[idx..]
    }

    /** The state change a production makes when the grammar answers r. */
    twostate predicate Did(r: Result<Step, VisError>, new err: Option<VisError>)
      reads this
    {
      && tokens == old(tokens)
      && match r
         case Err(e) => err == Some(e) && Valid()
         case Ok(st) =>
           && err == None && Valid()
           && idx == old(idx) + st.used
           && output == old(output) + st.out
    }

    method Input(input: Bytes)
      modifies this
      ensures Valid() && tokens == Runes(input) && idx == 0 && output == []
    {
      output := [];
      tokens := Runes(input);
      idx := 0;
    }

    method Peek() returns (ch: char, err: Option<VisError>)
      ensures err == if idx >= |tokens| then Some(EndOfString) else None
      ensures idx < |tokens| ==> ch == tokens[idx]
    {
      if idx >= |tokens| {
        return RUNE_ERROR, Some(EndOfString);
      }
      return tokens[idx], None;
    }

    method Next() returns (ch: char, err: Option<VisError>)
      requires Valid()
      modifies this`idx
      ensures Valid()
      ensures old(idx) == |tokens| ==> err == Some(EndOfString) && idx == old(idx)
      ensures old(idx) < |tokens| ==> err == None && ch == tokens[old(idx)] && idx == old(idx) + 1
    {
      ch, err := Peek();
      if err == None {
        idx := idx + 1;
      }
    }

    method PlainRune() returns (err: Option<VisError>)
      requires Valid() && idx < |tokens|
      modifies this
      ensures Did(Ok(Step(EncodeRune(old(tokens[idx])), 1)), err)
    {
      var ch;
      ch, err := Next();
      output := output + EncodeRune(ch);
    }

    method EscapeCStyle() returns (err: Option<VisError>)
      requires Valid()
      modifies this
      ensures Did(CStyle(old(Rest())), err)
    {
      var ch;
      ch, err := Next();
      if err != None {
        return;
      }
      match ch
      case 'n' => output := output + "\n";
      case 'r' => output := output + "\r";
      case 'b' => output := output + [8 as char];
      case 'a' => output := output + [7 as char];
      case 'v' => output := output + [11 as char];
      case 't' => output := output + "\t";
      case 'f' => output := output + [12 as char];
      case 's' => output := output + " ";
      case 'E' => output := output + [27 as char];
      case '\n' =>
      case '$' =>
      case _ => err := Some(UnknownEscapeChar);
    }

    method EscapeDigits(base: int, force: bool) returns (err: Option<VisError>)
      requires Valid()
      requires base == 8 || base == 16
      modifies this
      ensures Did(Digits(old(Rest()), base, if base == 8 then 3 else 2, force), err)
    {
      var max := if base == 8 then 3 else 2;
      ghost var rest := Rest();
      var code := 0;
      var i := 0xFF;
      ghost var n := 0;
      while i > 0
        invariant 0 <= n <= max && n <= |rest| && i == Countdown(base, n)
        invariant tokens == old(tokens) && output == old(output)
        invariant idx == old(idx) + n && idx <= |tokens|
        invariant forall k :: 0 <= k < n ==> DigitValue(rest[k]) < base
        invariant code == NumberValue(rest[..n], base)
        decreases i
      {
        var ch, perr := Peek();
        if perr != None {
          DigitRunIs(rest, base, max, n);
          if !force && i != 0xFF {
            break;
          }
          return perr;
        }
        assert ch == rest[n];
        var digit := DigitValue(ch);
        if digit >= base {
          DigitRunIs(rest, base, max, n);
          if !force && i != 0xFF {
            break;
          }
          return Some(ParseDigit);
        }
        NumberSnoc(rest, base, n);
        code := code * base + digit;
        idx := idx + 1;
        n := n + 1;
        i := i / base;
      }
      DigitRunIs(rest, base, max, n);
      NumberNonNegative(rest[..n], base);
      if code > 255 {
        return Some(OutsideLatin1);
      }
      output := output + [code as char];
      return None;
    }

    method EscapeCtrl(mask: int) returns (err: Option<VisError>)
      requires Valid()
      requires mask == 0 || mask == 0x80
      modifies this
      ensures Did(Ctrl(old(Rest()), mask), err)
    {
      var ch;
      ch, err := Next();
      if err != None {
        return;
      }
      if ch as int > 255 {
        return Some(OutsideLatin1);
      }
      var low: Byte := (ch as int % 0x20) as char;
      if ch == '?' {
        low := 0x7F as char;
      }
      output := output + [WithMask(mask, low)];
    }

    method EscapeMeta() returns (err: Option<VisError>)
      requires Valid()
      modifies this
      ensures Did(Meta(old(Rest())), err)
    {
      var ch;
      ch, err := Next();
      if err != None {
        return;
      }
      match ch
      case '^' =>
        err := EscapeCtrl(0x80);
      case '-' =>
        ch, err := Next();
        if err != None {
          return;
        }
        if ch as int > 255 {
          return Some(OutsideLatin1);
        }
        output := output + [WithMask(0x80, ch)];
      case _ =>
        err := Some(UnknownEscapeChar);
    }

    method EscapeSequence() returns (err: Option<VisError>)
      requires Valid()
      modifies this
      ensures Did(Escape(old(Rest())), err)
    {
      var ch;
      ch, err := Peek();
      if err != None {
        return;
      }
      if ch == '\\' || ch == '"' {
        idx := idx + 1;
        output := output + [ch];
      } else if '0' <= ch <= '7' {
        err := EscapeDigits(8, false);
      } else if ch == 'x' {
        idx := idx + 1;
        err := EscapeDigits(16, true);
      } else if ch == '^' {
        idx := idx + 1;
        err := EscapeCtrl(0);
      } else if ch == 'M' {
        idx := idx + 1;
        err := EscapeMeta();
      } else {
        err := EscapeCStyle();
      }
    }

    method NextElement() returns (err: Option<VisError>)
      requires Valid() && idx < |tokens|
      modifies this
      ensures Did(Element(old(Rest()), flags), err)
    {
      var ch;
      ch, err := Peek();
      if ch == '\\' {
        idx := idx + 1;
        err := EscapeSequence();
      } else if ch == '%' && Has(flags, VIS_HTTPSTYLE) {
        idx := idx + 1;
        err := EscapeDigits(16, true);
      } else {
        err := PlainRune();
      }
    }

    method Run(input: Bytes) returns (r: Result<Bytes, VisError>)
      modifies this
      ensures r == Elements(Runes(input), flags)
    {
      Input(input);
      PrependTwice([], [], Elements(tokens, flags));
      assert Rest() == tokens;
      while idx < |tokens|
        invariant Valid() && tokens == Runes(input)
        invariant Elements(tokens, flags) == Prepend(output, Elements(Rest(), flags))
        decreases |tokens| - idx
      {
        ghost var rest, written := Rest(), output;
        var err := NextElement();
        if err.Some? {
          return Err(err.value);
        }
        ghost var st := Element(rest, flags).value;
        assert Rest() == rest[st.used..];
        PrependTwice(written, st.out, Elements(Rest(), flags));
      }
      assert Rest() == [] && output + [] == output;
      return Ok(output);
    }
  }

  method Unvis(input: Bytes, flags: VisFlag) returns (r: Result<Bytes, VisError>)
    ensures r == Decode(input, flags)
  {
    if flags & !VIS_MASK != 0 {
      return Err(UnknownVisFlags);
    }
    var p := new UnvisParser(flags);
    r := p.Run(input);
  }
}
