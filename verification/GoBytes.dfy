/** Go strings are byte strings, Go runes are Unicode scalar values.  This module fixes
    both, gives Go's own conversion between them, and the result types used everywhere. */
module GoBytes {
  datatype Option<+T> = None | Some(value: T)

  datatype Result<+T, +E> = Ok(value: T) | Err(error: E) {
    predicate IsFailure() { Err? }
    function PropagateFailure<U>(): Result<U, E> requires Err? { Err(error) }
    function Extract(): T requires Ok? { value }
  }

  type Byte = c: char | c as int < 256
  type Bytes = seq<Byte>

  const RUNE_ERROR: char := '\U{FFFD}'

  predicate IsAscii(s: seq<char>) {
    forall i :: 0 <= i < |s| ==> s[i] as int < 128
  }

  predicate Within(s: Bytes, i: nat, lo: int, hi: int) {
    i < |s| && lo <= s[i] as int <= hi
  }

  /** One step of the string-to-rune conversion: the rune read and the bytes it took.
      A byte that starts no well-formed sequence reads as U+FFFD and takes one byte. */
  function DecodeRune(s: Bytes): (r: (char, nat))
    requires s != []
    ensures 1 <= r.1 <= |s|
    ensures s[0] as int < 128 ==> r == (s[0], 1)
  {
    var b0 := s[0] as int;
    if b0 < 0x80 then
      (s[0], 1)
    else if 0xC2 <= b0 <= 0xDF && Within(s, 1, 0x80, 0xBF) then
      (((b0 - 0xC0) * 64 + (s[1] as int - 0x80)) as char, 2)
    else if 0xE0 <= b0 <= 0xEF
         && Within(s, 1, if b0 == 0xE0 then 0xA0 else 0x80, if b0 == 0xED then 0x9F else 0xBF)
         && Within(s, 2, 0x80, 0xBF) then
      (((b0 - 0xE0) * 4096 + (s[1] as int - 0x80) * 64 + (s[2] as int - 0x80)) as char, 3)
    else if 0xF0 <= b0 <= 0xF4
         && Within(s, 1, if b0 == 0xF0 then 0x90 else 0x80, if b0 == 0xF4 then 0x8F else 0xBF)
         && Within(s, 2, 0x80, 0xBF) && Within(s, 3, 0x80, 0xBF) then
      (((b0 - 0xF0) * 262144 + (s[1] as int - 0x80) * 4096
        + (s[2] as int - 0x80) * 64 + (s[3] as int - 0x80)) as char, 4)
    else
      (RUNE_ERROR, 1)
  }

  /** The conversion []rune(s). */
  function Runes(s: Bytes): seq<char> {
    if s == [] then [] else
    var (c, n) := DecodeRune(s);
    [c] + Runes(s[n..])
  }

  /** What strings.Builder.WriteRune appends. */
  function EncodeRune(c: char): Bytes {
    var n := c as int;
    if n < 0x80 then
      [c]
    else if n < 0x800 then
      [(0xC0 + n / 64) as char, (0x80 + n % 64) as char]
    else if n < 0x1_0000 then
      [(0xE0 + n / 64 / 64) as char, (0x80 + n / 64 % 64) as char, (0x80 + n % 64) as char]
    else
      [(0xF0 + n / 64 / 64 / 64) as char, (0x80 + n / 64 / 64 % 64) as char,
       (0x80 + n / 64 % 64) as char, (0x80 + n % 64) as char]
  }

  function EncodeRunes(rs: seq<char>): Bytes {
    if rs == [] then [] else EncodeRune(rs[0]) + EncodeRunes(rs[1..])
  }

  /** Writing a rune and reading it back gives the rune, whatever follows it. */
  lemma DecodeEncodedRune(c: char, t: Bytes)
    ensures DecodeRune(EncodeRune(c) + t) == (c, |EncodeRune(c)|)
  {
    var e, n := EncodeRune(c), c as int;
    assert forall i :: 0 <= i < |e| ==> (e + t)[i] == e[i];
    var q := n / 64;
    if 0x800 <= n < 0x1_0000 {
      ThreeByteRune(n, q / 64, q % 64, n % 64);
    } else if 0x1_0000 <= n {
      FourByteRune(n, q / 64 / 64, q / 64 % 64, q % 64, n % 64);
    }
  }

  lemma ThreeByteRune(n: int, p: int, q: int, r: int)
    requires n == (p * 64 + q) * 64 + r && 0 <= q < 64 && 0 <= r < 64
    requires 0x800 <= n < 0xD800 || 0xE000 <= n < 0x1_0000
    ensures 0 <= p < 16 && (p == 0 ==> 0x20 <= q) && (p == 0xD ==> q < 0x20)
    ensures p * 4096 + q * 64 + r == n
  {
  }

  lemma FourByteRune(n: int, o: int, p: int, q: int, r: int)
    requires n == ((o * 64 + p) * 64 + q) * 64 + r && 0 <= p < 64 && 0 <= q < 64 && 0 <= r < 64
    requires 0x1_0000 <= n < 0x11_0000
    ensures 0 <= o <= 4 && (o == 0 ==> 0x10 <= p) && (o == 4 ==> p < 0x10)
    ensures o * 262144 + p * 4096 + q * 64 + r == n
  {
  }

  /** Well-formed UTF-8 reads back as the runes it was written from. */
  lemma {:induction false} RunesOfEncoded(rs: seq<char>)
    ensures Runes(EncodeRunes(rs)) == rs
  {
    if rs == [] {
    } else {
      var e, rest := EncodeRune(rs[0]), EncodeRunes(rs[1..]);
      DecodeEncodedRune(rs[0], rest);
      assert (e + rest)[|e|..] == rest;
      RunesOfEncoded(rs[1..]);
    }
  }

  /** An ASCII prefix reads as itself and does not disturb what follows. */
  lemma {:induction false} RunesOfAsciiPrefix(a: Bytes, t: Bytes)
    requires IsAscii(a)
    ensures Runes(a + t) == a + Runes(t)
  {
    if a == [] {
      assert a + t == t;
      assert a + Runes(t) == Runes(t);
    } else {
      assert (a + t)[0] == a[0];
      assert (a + t)[1..] == a[1..] + t;
      RunesOfAsciiPrefix(a[1..], t);
      assert a + Runes(t) == [a[0]] + (a[1..] + Runes(t));
    }
  }
}
