/** The parts of package strings the program uses, on bytes. */
module GoStrings {
  import opened GoBytes

  /** strings.Split with a one-byte separator. */
  function Split(s: Bytes, sep: Byte): (parts: seq<Bytes>)
    ensures |parts| >= 1
    ensures forall i :: 0 <= i < |parts| ==> sep !in parts[i]
  {
    if s == [] then [[]] else Extend(s[0], Split(s[1..], sep), sep)
  }

  /** The parts of c followed by a string with these parts. */
  function Extend(c: Byte, parts: seq<Bytes>, sep: Byte): (more: seq<Bytes>)
    requires |parts| >= 1
    ensures |more| >= 1
    ensures (forall i :: 0 <= i < |parts| ==> sep !in parts[i]) ==> forall i :: 0 <= i < |more| ==> sep !in more[i]
  {
    if c == sep then [[]] + parts else [[c] + parts[0]] + parts[1..]
  }

  /** strings.Join with a one-byte separator. */
  function Join(parts: seq<Bytes>, sep: Byte): Bytes {
    if parts == [] then []
    else if |parts| == 1 then parts[0]
    else parts[0] + [sep] + Join(parts[1..], sep)
  }

  lemma {:induction false} SplitWithout(s: Bytes, sep: Byte)
    requires sep !in s
    ensures Split(s, sep) == [s]
  {
    if s != [] {
      SplitWithout(s[1..], sep);
      assert [s[0]] + s[1..] == s;
    }
  }

  lemma {:induction false} SplitConcat(a: Bytes, b: Bytes, sep: Byte)
    ensures Split(a + [sep] + b, sep) == Split(a, sep) + Split(b, sep)
  {
    var s := a + [sep] + b;
    if a == [] {
      assert s[1..] == b;
    } else {
      assert s[1..] == a[1..] + [sep] + b;
      SplitConcat(a[1..], b, sep);
      ExtendConcat(a[0], Split(a[1..], sep), Split(b, sep), sep);
    }
  }

  lemma ExtendConcat(c: Byte, first: seq<Bytes>, second: seq<Bytes>, sep: Byte)
    requires |first| >= 1
    ensures Extend(c, first + second, sep) == Extend(c, first, sep) + second
  {
    assert (first + second)[0] == first[0] && (first + second)[1..] == first[1..] + second;
  }

  lemma {:induction false} SplitJoin(parts: seq<Bytes>, sep: Byte)
    requires parts != [] && forall i :: 0 <= i < |parts| ==> sep !in parts[i]
    ensures Split(Join(parts, sep), sep) == parts
  {
    SplitWithout(parts[0], sep);
    if |parts| > 1 {
      SplitConcat(parts[0], Join(parts[1..], sep), sep);
      SplitJoin(parts[1..], sep);
      assert [parts[0]] + parts[1..] == parts;
    } else {
      assert [parts[0]] == parts;
    }
  }

  lemma {:induction false} JoinSplit(s: Bytes, sep: Byte)
    ensures Join(Split(s, sep), sep) == s
  {
    if s != [] {
      JoinSplit(s[1..], sep);
      var parts := Split(s[1..], sep);
      if s[0] != sep && |parts| > 1 {
        assert ([[s[0]] + parts[0]] + parts[1..])[1..] == parts[1..];
      } else if s[0] == sep {
        assert ([[]] + parts)[1..] == parts;
      }
      assert s == [s[0]] + s[1..];
    }
  }

  lemma {:induction false} JoinConcat(a: seq<Bytes>, b: seq<Bytes>, sep: Byte)
    requires a != [] && b != []
    ensures Join(a + b, sep) == Join(a, sep) + [sep] + Join(b, sep)
  {
    assert (a + b)[1..] == a[1..] + b;
    if |a| > 1 {
      JoinConcat(a[1..], b, sep);
    } else {
      assert a[1..] + b == b;
    }
  }

  lemma {:induction false} JoinBytes(parts: seq<Bytes>, sep: Byte, c: Byte)
    requires c in Join(parts, sep)
    ensures c == sep || exists i :: 0 <= i < |parts| && c in parts[i]
  {
    if |parts| > 1 && c !in parts[0] && c != sep {
      JoinBytes(parts[1..], sep, c);
      var i :| 0 <= i < |parts[1..]| && c in parts[1..][i];
      assert c in parts[i + 1];
    }
  }

  predicate HasPrefix(s: Bytes, prefix: Bytes) {
    |s| >= |prefix| && s[..|prefix|] == prefix
  }

  /** strings.TrimPrefix */
  function TrimPrefix(s: Bytes, prefix: Bytes): Bytes {
    if HasPrefix(s, prefix) then s[|prefix|..] else s
  }

  predicate HasSuffix(s: Bytes, suffix: Bytes) {
    |s| >= |suffix| && s[|s| - |suffix|..] == suffix
  }

  /** unicode.IsSpace on ASCII. */
  predicate IsSpace(c: Byte) {
    c == ' ' || 9 <= c as int <= 13
  }

  /** unicode.IsSpace */
  predicate IsSpaceRune(c: char) {
    var n := c as int;
    || c == ' ' || 9 <= n <= 13 || n == 0x85 || n == 0xA0 || n == 0x1680 || 0x2000 <= n <= 0x200A
    || n == 0x2028 || n == 0x2029 || n == 0x202F || n == 0x205F || n == 0x3000
  }

  predicate IsTwoByteSpace(a: Byte, b: Byte) {
    a as int == 0xC2 && (b as int == 0x85 || b as int == 0xA0)
  }

  predicate IsThreeByteSpace(a: Byte, b: Byte, c: Byte) {
    var x, y, z := a as int, b as int, c as int;
    || (x == 0xE1 && y == 0x9A && z == 0x80)
    || (x == 0xE2 && y == 0x80 && (0x80 <= z <= 0x8A || z == 0xA8 || z == 0xA9 || z == 0xAF))
    || (x == 0xE2 && y == 0x81 && z == 0x9F)
    || (x == 0xE3 && y == 0x80 && z == 0x80)
  }

  /** How many bytes the white space character takes that s starts with, if it starts with one. */
  function SpaceLength(s: Bytes): (n: nat)
    ensures n <= |s|
  {
    if |s| >= 1 && IsSpace(s[0]) then 1
    else if |s| >= 2 && IsTwoByteSpace(s[0], s[1]) then 2
    else if |s| >= 3 && IsThreeByteSpace(s[0], s[1], s[2]) then 3
    else 0
  }

  /** The same of the character that s ends with, tried from k bytes on; none is longer than three. */
  function LastSpaceFrom(s: Bytes, k: nat): (n: nat)
    ensures n <= |s|
    decreases 4 - k
  {
    if k > 3 || k > |s| then 0 else if SpaceLength(s[|s| - k..]) == k then k else LastSpaceFrom(s, k + 1)
  }

  function TrimLeft(s: Bytes): Bytes {
    var n := SpaceLength(s);
    if n > 0 then TrimLeft(s[n..]) else s
  }

  function TrimRight(s: Bytes): Bytes {
    var n := LastSpaceFrom(s, 1);
    if n > 0 then TrimRight(s[..|s| - n]) else s
  }

  /** strings.TrimSpace */
  function TrimSpace(s: Bytes): Bytes {
    TrimRight(TrimLeft(s))
  }

  /** The bytes before the first white space character.  None starts inside another character, so going
      byte by byte finds the same one as going character by character (RuneByRune). */
  function WordLength(s: Bytes): (n: nat)
    ensures n <= |s|
    decreases |s|
  {
    if s == [] || SpaceLength(s) > 0 then 0 else 1 + WordLength(s[1..])
  }

  /** A non-empty run of characters without white space. */
  predicate IsWord(s: Bytes) {
    s != [] && WordLength(s) == |s|
  }

  /** strings.Fields: the maximal words, in order. */
  function Fields(s: Bytes): (words: seq<Bytes>)
    decreases |s|
  {
    if s == [] then []
    else if SpaceLength(s) > 0 then Fields(s[SpaceLength(s)..])
    else [s[..WordLength(s)]] + Fields(s[WordLength(s)..])
  }

  // ---------- characters and the bytes around them ----------

  /** White space is what the decoder reads as a white space rune. */
  lemma SpaceIsRune(s: Bytes)
    requires s != []
    ensures SpaceLength(s) == if IsSpaceRune(DecodeRune(s).0) then DecodeRune(s).1 else 0
  {
  }

  /** A byte that continues a character starts none. */
  lemma InsideRune(s: Bytes, i: nat)
    requires s != [] && 0 < i < DecodeRune(s).1
    ensures SpaceLength(s[i..]) == 0
  {
    assert s[i..][0] == s[i];
  }

  /** The bytes before the first white space character, read character by character. */
  function RuneWord(s: Bytes): nat
    decreases |s|
  {
    if s == [] || IsSpaceRune(DecodeRune(s).0) then 0 else DecodeRune(s).1 + RuneWord(s[DecodeRune(s).1..])
  }

  lemma {:induction false} RuneByRune(s: Bytes)
    ensures RuneWord(s) == WordLength(s)
    decreases |s|
  {
    if s != [] {
      SpaceIsRune(s);
      hide DecodeRune, SpaceLength, IsSpaceRune;
      if SpaceLength(s) == 0 {
        var n := DecodeRune(s).1;
        RuneByRune(s[n..]);
        forall i | 0 <= i < n
          ensures SpaceLength(s[i..]) == 0
        {
          if i > 0 {
            InsideRune(s, i);
          } else {
            assert s[0..] == s;
          }
        }
        NoSpaceUpTo(s, n);
      }
    }
  }

  lemma {:induction false} NoSpaceUpTo(s: Bytes, n: nat)
    requires n <= |s| && forall i :: 0 <= i < n ==> SpaceLength(s[i..]) == 0
    ensures WordLength(s) == n + WordLength(s[n..])
  {
    hide SpaceLength;
    if n > 0 {
      assert s[0..] == s;
      forall i | 0 <= i < n - 1
        ensures SpaceLength(s[1..][i..]) == 0
      {
        assert s[1..][i..] == s[i + 1..];
      }
      NoSpaceUpTo(s[1..], n - 1);
      assert s[1..][n - 1..] == s[n..];
    } else {
      assert s[0..] == s;
    }
  }

  /** Whatever ASCII follows completes no character. */
  lemma SpaceBefore(w: Bytes, c: Byte, t: Bytes)
    requires w != [] && c as int < 128
    ensures SpaceLength(w + [c] + t) == SpaceLength(w)
  {
    var s := w + [c] + t;
    assert forall i :: 0 <= i < |w| ==> s[i] == w[i];
    assert s[|w|] == c;
  }

  lemma {:induction false} WordBefore(w: Bytes, t: Bytes)
    requires w == [] || IsWord(w)
    ensures WordLength(w + [' '] + t) == |w|
  {
    var s := w + [' '] + t;
    if w != [] {
      SpaceBefore(w, ' ', t);
      hide SpaceLength;
      assert s[1..] == w[1..] + [' '] + t;
      WordBefore(w[1..], t);
    }
  }

  /** What starts no white space with more behind it starts none. */
  lemma SpacePrefix(s: Bytes, n: nat)
    requires n <= |s| && SpaceLength(s) == 0
    ensures SpaceLength(s[..n]) == 0
  {
  }

  /** What is cut off a string as a word is one. */
  lemma {:induction false} CutIsWord(s: Bytes)
    ensures var n := WordLength(s); WordLength(s[..n]) == n
  {
    if s != [] && SpaceLength(s) == 0 {
      var n := WordLength(s);
      SpacePrefix(s, n);
      hide SpaceLength;
      CutIsWord(s[1..]);
      assert s[..n][1..] == s[1..][..n - 1];
    }
  }

  lemma {:induction false} FieldsAreWords(s: Bytes)
    ensures forall i :: 0 <= i < |Fields(s)| ==> IsWord(Fields(s)[i])
    decreases |s|
  {
    if s != [] {
      hide SpaceLength;
      CutIsWord(s);
      FieldsAreWords(if SpaceLength(s) > 0 then s[SpaceLength(s)..] else s[WordLength(s)..]);
    }
  }

  /** No white space character starts anywhere in a word. */
  lemma {:induction false} NoSpaceInWord(w: Bytes, i: nat)
    requires IsWord(w) && i < |w|
    ensures SpaceLength(w[i..]) == 0 && !IsSpace(w[i])
  {
    if i > 0 {
      assert w[i..] == w[1..][i - 1..];
      NoSpaceInWord(w[1..], i - 1);
    } else {
      assert w[0..] == w;
    }
  }

  lemma NoFirstSpace(w: Bytes)
    requires IsWord(w)
    ensures w != [] && SpaceLength(w) == 0
  {
  }

  lemma {:induction false} NoLastSpace(w: Bytes, k: nat)
    requires IsWord(w) && k > 0
    ensures LastSpaceFrom(w, k) == 0
    decreases 4 - k
  {
    hide SpaceLength, IsWord;
    if k <= 3 && k <= |w| {
      NoSpaceInWord(w, |w| - k);
      NoLastSpace(w, k + 1);
    }
  }

  lemma WordBytes(w: Bytes)
    requires IsWord(w)
    ensures forall i :: 0 <= i < |w| ==> !IsSpace(w[i])
  {
    forall i | 0 <= i < |w|
      ensures !IsSpace(w[i])
    {
      NoSpaceInWord(w, i);
    }
  }

  lemma {:induction false} AsciiWord(w: Bytes)
    requires w != [] && forall i :: 0 <= i < |w| ==> w[i] as int < 128 && !IsSpace(w[i])
    ensures IsWord(w)
  {
    if |w| > 1 {
      AsciiWord(w[1..]);
    }
  }

  lemma FieldsOfWord(w: Bytes)
    requires IsWord(w)
    ensures Fields(w) == [w]
  {
    assert w[..|w|] == w && w[|w|..] == [];
  }

  lemma SkipBlank(s: Bytes)
    ensures Fields([' '] + s) == Fields(s)
  {
    assert ([' '] + s)[1..] == s;
  }

  lemma FieldsOfWordThen(w: Bytes, s: Bytes)
    requires IsWord(w)
    ensures Fields(w + [' '] + s) == [w] + Fields(s)
  {
    var t := w + [' '] + s;
    WordBefore(w, s);
    SkipBlank(s);
    assert t[..|w|] == w && t[|w|..] == [' '] + s;
  }

  lemma {:induction false} FieldsOfJoin(words: seq<Bytes>)
    requires forall i :: 0 <= i < |words| ==> IsWord(words[i])
    ensures Fields(Join(words, ' ')) == words
  {
    if |words| == 1 {
      FieldsOfWord(words[0]);
    } else if |words| > 1 {
      FieldsOfWordThen(words[0], Join(words[1..], ' '));
      FieldsOfJoin(words[1..]);
    }
  }
}
