/** What the codec promises: decoding undoes encoding, and for which flag sets it does. */
module GovisLaws {
  import opened GoBytes
  import opened Govis

  predicate KeepsSlash(flags: VisFlag) {
    flags & VIS_NOSLASH == 0
  }

  /** The flag sets whose encoding can be undone: those that keep the slash of an escape, and those that
      write every byte that needs one as "%" and digits. */
  predicate Invertible(flags: VisFlag) {
    KeepsSlash(flags) || Has(flags, VIS_HTTPSTYLE)
  }

  // ---------- each form of escape is undone, whatever follows it ----------

  lemma OctalRun(a: char, b: char, c: char, t: seq<char>)
    requires '0' <= a <= '7' && '0' <= b <= '7' && '0' <= c <= '7'
    ensures DigitRun([a, b, c] + t, 8, 3) == 3
    ensures NumberValue([a, b, c], 8) == (DigitValue(a) * 8 + DigitValue(b)) * 8 + DigitValue(c)
  {
    var s := [a, b, c] + t;
    assert s[1..] == [b, c] + t && s[1..][1..] == [c] + t && s[1..][1..][1..] == t;
    assert DigitRun(s[1..][1..], 8, 1) == 1;
    assert [a, b, c][..2] == [a, b] && [a, b][..1] == [a] && [a][..0] == [];
    assert NumberValue([a], 8) == DigitValue(a);
    assert NumberValue([a, b], 8) == DigitValue(a) * 8 + DigitValue(b);
  }

  lemma HexRun(a: char, b: char, t: seq<char>)
    requires DigitValue(a) < 16 && DigitValue(b) < 16
    ensures DigitRun([a, b] + t, 16, 2) == 2
    ensures NumberValue([a, b], 16) == DigitValue(a) * 16 + DigitValue(b)
  {
    var s := [a, b] + t;
    assert s[1..] == [b] + t && s[1..][1..] == t;
    assert DigitRun(s[1..], 16, 1) == 1;
    assert [a, b][..1] == [a] && [a][..0] == [];
    assert NumberValue([a], 16) == DigitValue(a);
  }

  lemma OctalEscapeUndone(ch: Byte, t: seq<char>, flags: VisFlag)
    ensures Element(OctalEscape(ch) + t, flags) == Ok(Step([ch], 4))
  {
    var e, n := OctalEscape(ch), ch as int;
    assert e + t == ['\\'] + ([e[1], e[2], e[3]] + t);
    assert (e + t)[1..] == [e[1], e[2], e[3]] + t;
    assert ([e[1], e[2], e[3]] + t)[..3] == [e[1], e[2], e[3]];
    OctalRun(e[1], e[2], e[3], t);
    assert n == (n / 64 * 8 + n / 8 % 8) * 8 + n % 8;
    assert Digits([e[1], e[2], e[3]] + t, 8, 3, false) == Ok(Step([ch], 3));
  }

  lemma PercentHexUndone(ch: Byte, t: seq<char>, flags: VisFlag)
    requires Has(flags, VIS_HTTPSTYLE)
    ensures Element(PercentHex(ch) + t, flags) == Ok(Step([ch], 3))
  {
    var e, n := PercentHex(ch), ch as int;
    assert (e + t)[1..] == [e[1], e[2]] + t;
    assert ([e[1], e[2]] + t)[..2] == [e[1], e[2]];
    HexRun(e[1], e[2], t);
    assert n == n / 16 * 16 + n % 16;
    assert Digits([e[1], e[2]] + t, 16, 2, true) == Ok(Step([ch], 2));
  }

  lemma {:induction false} MetaCtrlUndone(ch: Byte, t: seq<char>, flags: VisFlag)
    requires KeepsSlash(flags)
    requires !IsGraph(ch) && ch as int % 0x80 != ' ' as int
    ensures Element(MetaCtrlEscape(ch, flags) + t, flags) == Ok(Step([ch], |MetaCtrlEscape(ch, flags)|))
  {
    var e := MetaCtrlEscape(ch, flags);
    var low: Byte := (ch as int % 0x80) as char;
    var s := (e + t)[1..];
    if ch as int < 0x80 {
      assert e == ['\\', '^', e[2]];
      assert s == ['^'] + ([e[2]] + t) && s[1..] == [e[2]] + t;
      assert Ctrl(s[1..], 0) == Ok(Step([ch], 1));
    } else {
      assert e == ['\\', 'M', e[2], e[3]];
      assert s == ['M'] + ([e[2], e[3]] + t) && s[1..] == [e[2], e[3]] + t && s[1..][1..] == [e[3]] + t;
      if IsCtrl(low) {
        assert Ctrl([e[3]] + t, 0x80) == Ok(Step([ch], 1));
      }
      assert Meta(s[1..]) == Ok(Step([ch], 2));
    }
  }

  lemma TwoByteUndone(ch: Byte, b: Byte, t: seq<char>, flags: VisFlag)
    requires (ch == b && (b == '\\' || b == '"')) || CStyleLetter(ch) == Some(b)
    ensures Element(['\\', b] + t, flags) == Ok(Step([ch], 2))
  {
    assert (['\\', b] + t)[1..] == [b] + t;
    assert Escape([b] + t) == Ok(Step([ch], 1));
  }

  lemma PlainByteUndone(ch: Byte, t: seq<char>, flags: VisFlag)
    requires ch as int <= 0x7F && ch != '\\' && IsPlain(ch, flags) && !(Has(flags, VIS_HTTPSTYLE) && !IsHttp(ch))
    ensures Element([ch] + t, flags) == Ok(Step([ch], 1))
  {
    assert ([ch] + t)[0] == ch;
  }

  /** The first element of an encoded byte followed by anything is that byte. */
  lemma {:induction false} ByteUndone(ch: Byte, t: seq<char>, flags: VisFlag)
    requires Invertible(flags)
    ensures IsAscii(VisByte(ch, flags)) && VisByte(ch, flags) != []
    ensures Element(VisByte(ch, flags) + t, flags) == Ok(Step([ch], |VisByte(ch, flags)|))
  {
    hide Element;
    var e := VisByte(ch, flags);
    var shown := ch as int <= 0x7F && !(Has(flags, VIS_GLOB) && IsGlob(ch));
    if Has(flags, VIS_HTTPSTYLE) && !IsHttp(ch) {
      PercentHexUndone(ch, t, flags);
    } else if shown && (ch == '\\' || (Has(flags, VIS_DOUBLEQUOTE) && ch == '"')) {
      TwoByteUndone(ch, ch, t, flags);
    } else if shown && IsPlain(ch, flags) {
      PlainByteUndone(ch, t, flags);
    } else if Has(flags, VIS_CSTYLE) && CStyleLetter(ch).Some? {
      TwoByteUndone(ch, CStyleLetter(ch).value, t, flags);
    } else if (Has(flags, VIS_CSTYLE) && ch as int == 0)
            || Has(flags, VIS_OCTAL) || IsGraph(ch) || ch as int % 0x80 == ' ' as int {
      assert e == OctalEscape(ch);
      OctalEscapeUndone(ch, t, flags);
    } else {
      MetaCtrlUndone(ch, t, flags);
    }
  }

  // ---------- the laws ----------

  lemma {:induction false} ElementsAfterVis(a: Bytes, t: seq<char>, flags: VisFlag)
    requires Invertible(flags)
    ensures IsAscii(VisBytes(a, flags))
    ensures Elements(VisBytes(a, flags) + t, flags) == Prepend(a, Elements(t, flags))
  {
    hide VisByte, Element;
    if a == [] {
      assert [] + t == t;
      PrependTwice([], [], Elements(t, flags));
    } else {
      var e, rest := VisByte(a[0], flags), VisBytes(a[1..], flags);
      ByteUndone(a[0], rest + t, flags);
      ElementsAfterVis(a[1..], t, flags);
      assert (e + rest) + t == e + (rest + t) && (e + (rest + t))[|e|..] == rest + t;
      PrependTwice([a[0]], a[1..], Elements(t, flags));
      assert [a[0]] + a[1..] == a;
    }
  }

  /** Decoding an encoded string followed by any suffix gives the string, then the decoded
      suffix; if the suffix is malformed its error is the answer. */
  lemma PrefixLaw(a: Bytes, t: Bytes, flags: VisFlag)
    requires Known(flags) && Invertible(flags)
    ensures Encode(a, flags).Ok?
    ensures Decode(Encode(a, flags).value + t, flags) == Prepend(a, Decode(t, flags))
  {
    ElementsAfterVis(a, Runes(t), flags);
    RunesOfAsciiPrefix(VisBytes(a, flags), t);
  }

  lemma RoundTrip(a: Bytes, flags: VisFlag)
    requires Known(flags) && Invertible(flags)
    ensures Encode(a, flags).Ok? && Decode(Encode(a, flags).value, flags) == Ok(a)
  {
    PrefixLaw(a, [], flags);
    assert VisBytes(a, flags) + [] == VisBytes(a, flags);
    assert a + [] == a;
  }

  lemma Injective(a: Bytes, b: Bytes, flags: VisFlag)
    requires Known(flags) && Invertible(flags)
    ensures Encode(a, flags) == Encode(b, flags) <==> a == b
  {
    RoundTrip(a, flags);
    RoundTrip(b, flags);
  }

  /** A text that is encoded like the control character 1: its escape, without a slash to tell. */
  function LooksLikeOne(flags: VisFlag): Bytes {
    if Has(flags, VIS_OCTAL) then "\\001" else "^A"
  }

  lemma {:induction false} PlainTextShown(text: Bytes, flags: VisFlag)
    requires !Invertible(flags)
    requires forall i :: 0 <= i < |text| ==> IsGraph(text[i]) && !IsGlob(text[i]) && text[i] != '"'
    ensures VisBytes(text, flags) == text
  {
    if text != [] {
      PlainTextShown(text[1..], flags);
      assert VisByte(text[0], flags) == [text[0]];
      assert text == [text[0]] + text[1..];
    }
  }

  lemma ControlShown(flags: VisFlag)
    requires !Invertible(flags)
    ensures VisByte(1 as char, flags) == LooksLikeOne(flags)
  {
    hide OctalEscape, MetaCtrlEscape;
    assert OctalEscape(1 as char) == "\\001" by {
      OctalOfOne();
    }
    assert MetaCtrlEscape(1 as char, flags) == "^A" by {
      CaretOfOne(flags);
    }
    assert CStyleLetter(1 as char) == None;
  }

  lemma OctalOfOne()
    ensures OctalEscape(1 as char) == "\\001"
  {
  }

  lemma CaretOfOne(flags: VisFlag)
    requires !KeepsSlash(flags)
    ensures MetaCtrlEscape(1 as char, flags) == "^A"
  {
    assert "" + "" + "^A" == "^A";
  }

  /** Every other flag set loses bytes: a control character and its escape look alike. */
  lemma {:induction false} NoSlashLosesBytes(flags: VisFlag)
    requires Known(flags) && !Invertible(flags)
    ensures Encode([1 as char], flags) == Encode(LooksLikeOne(flags), flags)
  {
    hide VisByte, Invertible;
    PlainTextShown(LooksLikeOne(flags), flags);
    VisBytesConcat([], [1 as char], flags);
    ControlShown(flags);
  }

  ghost predicate AllRoundTrip(flags: VisFlag) {
    forall a: Bytes :: Encode(a, flags).Ok? && Decode(Encode(a, flags).value, flags) == Ok(a)
  }

  ghost predicate AllDistinct(flags: VisFlag) {
    forall a: Bytes, b: Bytes :: Encode(a, flags) == Encode(b, flags) ==> a == b
  }

  /** Decoding undoes encoding, and different names look different, for exactly these flag sets. */
  lemma {:induction false} RoundTripsExactly(flags: VisFlag)
    requires Known(flags)
    ensures AllRoundTrip(flags) <==> Invertible(flags)
    ensures AllDistinct(flags) <==> Invertible(flags)
  {
    UndoneIsDistinct(flags);
    if Invertible(flags) {
      forall a: Bytes
        ensures Encode(a, flags).Ok? && Decode(Encode(a, flags).value, flags) == Ok(a)
      {
        RoundTrip(a, flags);
      }
    } else {
      hide Encode, Decode, LooksLikeOne;
      NoSlashLosesBytes(flags);
      LooksDifferent(flags);
    }
  }

  lemma UndoneIsDistinct(flags: VisFlag)
    ensures AllRoundTrip(flags) ==> AllDistinct(flags)
  {
    hide Encode, Decode;
    if AllRoundTrip(flags) {
      forall a: Bytes, b: Bytes | Encode(a, flags) == Encode(b, flags)
        ensures a == b
      {
        assert Decode(Encode(a, flags).value, flags) == Ok(a) && Decode(Encode(b, flags).value, flags) == Ok(b);
      }
    }
  }

  lemma LooksDifferent(flags: VisFlag)
    ensures LooksLikeOne(flags) != [1 as char]
  {
  }

  /** Text without escapes decodes to itself: plain runes are copied, not re-encoded. */
  lemma {:induction false} PlainTextKept(rs: seq<char>, flags: VisFlag)
    requires Known(flags)
    requires forall i :: 0 <= i < |rs| ==> rs[i] != '\\' && (rs[i] == '%' ==> !Has(flags, VIS_HTTPSTYLE))
    ensures Decode(EncodeRunes(rs), flags) == Ok(EncodeRunes(rs))
  {
    RunesOfEncoded(rs);
    if rs != [] {
      RunesOfEncoded(rs[1..]);
      PlainTextKept(rs[1..], flags);
    }
  }

  // ---------- names as mtree encodes them ----------

  /** What a name looks like in a manifest: printable ASCII, no blank, no '#', no glob character. */
  predicate IsNameByte(c: Byte) {
    IsGraph(c) && !IsGlob(c)
  }

  lemma DefaultFlags()
    ensures Known(DEFAULT_VIS_FLAGS) && KeepsSlash(DEFAULT_VIS_FLAGS)
    ensures Has(DEFAULT_VIS_FLAGS, VIS_OCTAL) && Has(DEFAULT_VIS_FLAGS, VIS_GLOB)
    ensures Has(DEFAULT_VIS_FLAGS, VIS_SPACE) && Has(DEFAULT_VIS_FLAGS, VIS_TAB) && Has(DEFAULT_VIS_FLAGS, VIS_NEWLINE)
    ensures !Has(DEFAULT_VIS_FLAGS, VIS_CSTYLE) && !Has(DEFAULT_VIS_FLAGS, VIS_HTTPSTYLE)
    ensures DEFAULT_VIS_FLAGS & VIS_SAFE == 0 && !Has(DEFAULT_VIS_FLAGS, VIS_DOUBLEQUOTE)
  {
  }

  lemma EncodedByte(c: Byte)
    ensures var h := VisByte(c, DEFAULT_VIS_FLAGS);
      h != [] && (forall i :: 0 <= i < |h| ==> IsNameByte(h[i])) && ('/' in h <==> c == '/')
  {
    DefaultFlags();
  }

  /** A name survives tokenisation: its encoding is one non-empty word that cannot start a comment,
      and it contains a '/' only where the name does. */
  lemma {:induction false} EncodedName(name: Bytes)
    ensures Encode(name, DEFAULT_VIS_FLAGS) == Ok(VisBytes(name, DEFAULT_VIS_FLAGS))
    ensures var e := VisBytes(name, DEFAULT_VIS_FLAGS);
      && (forall i :: 0 <= i < |e| ==> IsNameByte(e[i]))
      && ('/' in e <==> '/' in name)
      && |e| >= |name|
  {
    hide VisByte;
    DefaultFlags();
    if name != [] {
      EncodedName(name[1..]);
      EncodedByte(name[0]);
      assert name == [name[0]] + name[1..];
    }
  }

  /** Only "." and ".." encode to "." and "..". */
  lemma EncodedDots(name: Bytes)
    ensures VisBytes(name, DEFAULT_VIS_FLAGS) == "." <==> name == "."
    ensures VisBytes(name, DEFAULT_VIS_FLAGS) == ".." <==> name == ".."
  {
    DefaultFlags();
    assert VisByte('.', DEFAULT_VIS_FLAGS) == ".";
    VisBytesConcat(".", ".", DEFAULT_VIS_FLAGS);
    assert "." + "." == "..";
    Injective(name, ".", DEFAULT_VIS_FLAGS);
    Injective(name, "..", DEFAULT_VIS_FLAGS);
  }
}
