/** The three encodings of a modification time: the printed "time" and "tar_time" key-values, the
    conversion compare applies, and the nanoseconds update restores. */
module Times {
  import opened GoBytes
  import opened GoStrings
  import opened Keywords

  const BILLION := 1_000_000_000
  const MAX_INT64 := 0x7FFF_FFFF_FFFF_FFFF

  predicate InInt64(n: int) {
    -MAX_INT64 - 1 <= n <= MAX_INT64
  }

  datatype TimeError = InvalidFormat

  // ---------- printing ----------

  function Digit(n: nat): Byte
    requires n < 10
  {
    (n + '0' as int) as char
  }

  function PrintNat(n: nat): Bytes {
    if n < 10 then [Digit(n)] else PrintNat(n / 10) + [Digit(n % 10)]
  }

  /** "%d" */
  function PrintInt(n: int): Bytes {
    if n < 0 then ['-'] + PrintNat(-n) else PrintNat(n)
  }

  /** The low width digits of n. */
  function Padded(n: nat, width: nat): (s: Bytes)
    ensures |s| == width
  {
    if width == 0 then [] else Padded(n / 10, width - 1) + [Digit(n % 10)]
  }

  /** "%9.9d" of a number of nanoseconds */
  function Fraction(nsec: nat): (s: Bytes)
    ensures |s| == 9
  {
    Padded(nsec, 9)
  }

  function TimeKeyVal(sec: int, nsec: nat): KeyVal {
    MakeKeyVal("time", PrintInt(sec) + ['.'] + Fraction(nsec))
  }

  function TarTimeKeyVal(sec: int): KeyVal {
    MakeKeyVal("tar_time", PrintInt(sec) + ['.'] + Fraction(0))
  }

  // ---------- reading ----------

  predicate IsDigit(c: Byte) {
    '0' <= c <= '9'
  }

  predicate AllDigits(s: Bytes) {
    forall i :: 0 <= i < |s| ==> IsDigit(s[i])
  }

  function DigitsValue(s: Bytes): int {
    if s == [] then 0 else DigitsValue(s[..|s| - 1]) * 10 + (s[|s| - 1] as int - '0' as int)
  }

  function DigitRun(s: Bytes): (n: nat)
    ensures n <= |s|
  {
    if s == [] || !IsDigit(s[0]) then 0 else 1 + DigitRun(s[1..])
  }

  function Sign(s: Bytes): Bytes {
    if s != [] && (s[0] == '-' || s[0] == '+') then s[..1] else []
  }

  function Signed(sign: Bytes, magnitude: int): int {
    if sign == "-" then -magnitude else magnitude
  }

  /** Scanning "%d": a sign, the longest run of digits, and a value that fits; then what is left. */
  function ScanInt(s: Bytes): Option<(int, Bytes)> {
    var sign := Sign(s);
    var rest := s[|sign|..];
    var n := DigitRun(rest);
    var value := Signed(sign, DigitsValue(rest[..n]));
    if n == 0 || !InInt64(value) then None else Some((value, rest[n..]))
  }

  /** strconv.ParseInt in base ten, 64 bits */
  function ParseInt(s: Bytes): Option<int> {
    match ScanInt(s) case Some(r) => if r.1 == [] then Some(r.0) else None case None => None
  }

  /** convertToTarTime: exactly two numbers around a dot, and nothing after them. */
  function ConvertToTarTime(timeVal: Bytes): Result<KeyVal, TimeError> {
    match ScanInt(timeVal)
    case None => Err(InvalidFormat)
    case Some(sec) =>
      if sec.1 == [] || sec.1[0] != '.' then Err(InvalidFormat)
      else
        match ScanInt(sec.1[1..])
        case None => Err(InvalidFormat)
        case Some(nsec) => if nsec.1 == [] then Ok(TarTimeKeyVal(sec.0)) else Err(InvalidFormat)
  }

  /** timeUpdateKeywordFunc: the digits around the first dot, read as one number of nanoseconds. */
  function DecodeTime(value: Bytes): Option<int> {
    if '.' !in value then None else ParseInt(Before(value, '.') + After(value, '.'))
  }

  /** tartimeUpdateKeywordFunc: the seconds before the first dot. */
  function TarSeconds(value: Bytes): Option<int> {
    if '.' !in value then None else ParseInt(Before(value, '.'))
  }

  // ---------- agreement ----------

  function Power10(n: nat): nat {
    if n == 0 then 1 else 10 * Power10(n - 1)
  }

  lemma {:induction false} PrintNatDigits(n: nat)
    ensures AllDigits(PrintNat(n)) && PrintNat(n) != [] && DigitsValue(PrintNat(n)) == n
  {
    if n >= 10 {
      PrintNatDigits(n / 10);
      assert (PrintNat(n / 10) + [Digit(n % 10)])[..|PrintNat(n / 10)|] == PrintNat(n / 10);
    } else {
      assert PrintNat(n)[..0] == [];
    }
  }

  lemma {:induction false} PaddedDigits(n: nat, width: nat)
    ensures AllDigits(Padded(n, width))
    ensures n < Power10(width) ==> DigitsValue(Padded(n, width)) == n
  {
    if width > 0 {
      PaddedDigits(n / 10, width - 1);
      assert Padded(n, width)[..width - 1] == Padded(n / 10, width - 1);
    }
  }

  lemma {:induction false} DigitsConcat(a: Bytes, b: Bytes)
    ensures DigitsValue(a + b) == DigitsValue(a) * Power10(|b|) + DigitsValue(b)
  {
    if b == [] {
      assert a + b == a;
    } else {
      var n := |b| - 1;
      DigitsConcat(a, b[..n]);
      assert (a + b)[..|a + b| - 1] == a + b[..n];
      Scale(DigitsValue(a), Power10(n));
    }
  }

  lemma Scale(a: int, p: int)
    ensures a * p * 10 == a * (10 * p)
  {
  }

  lemma {:induction false} RunOfDigits(a: Bytes, rest: Bytes)
    requires AllDigits(a) && (rest == [] || !IsDigit(rest[0]))
    ensures DigitRun(a + rest) == |a|
  {
    if a == [] {
      assert a + rest == rest;
    } else {
      assert (a + rest)[1..] == a[1..] + rest;
      RunOfDigits(a[1..], rest);
    }
  }

  /** A sign and digits, up to a byte that is no digit, scan as the number they denote. */
  lemma ScanSigned(sign: Bytes, digits: Bytes, rest: Bytes)
    requires sign == [] || sign == "-"
    requires digits != [] && AllDigits(digits) && (rest == [] || !IsDigit(rest[0]))
    ensures var value := Signed(sign, DigitsValue(digits));
      ScanInt(sign + digits + rest) == if InInt64(value) then Some((value, rest)) else None
  {
    var s := sign + digits + rest;
    assert s[|sign|..] == digits + rest;
    assert Sign(s) == sign by {
      if sign == [] {
        assert s[0] == digits[0];
      }
    }
    RunOfDigits(digits, rest);
    assert (digits + rest)[..|digits|] == digits && (digits + rest)[|digits|..] == rest;
  }

  function SignOf(n: int): Bytes {
    if n < 0 then "-" else []
  }

  function Magnitude(n: int): nat {
    if n < 0 then -n else n
  }

  lemma PrintIntIs(n: int)
    ensures PrintInt(n) == SignOf(n) + PrintNat(Magnitude(n))
  {
    assert [] + PrintNat(Magnitude(n)) == PrintNat(Magnitude(n));
  }

  lemma FractionDigits(nsec: nat)
    requires nsec < BILLION
    ensures AllDigits(Fraction(nsec)) && DigitsValue(Fraction(nsec)) == nsec && Power10(|Fraction(nsec)|) == BILLION
  {
    PaddedDigits(nsec, 9);
    assert Power10(9) == BILLION;
  }

  lemma TimeValue(sec: int, nsec: nat)
    requires nsec < BILLION
    ensures ValueOf(TimeKeyVal(sec, nsec)) == SignOf(sec) + PrintNat(Magnitude(sec)) + ['.'] + Fraction(nsec)
  {
    hide Fraction, ValueOf, KeywordOf, PrintNat;
    var value := PrintInt(sec) + ['.'] + Fraction(nsec);
    PrintIntIs(sec);
    PrintNatDigits(Magnitude(sec));
    FractionDigits(nsec);
    WordOfDigits(SignOf(sec), PrintNat(Magnitude(sec)), Fraction(nsec));
    MadeKeyVal("time", value);
  }

  lemma WordOfDigits(sign: Bytes, digits: Bytes, frac: Bytes)
    requires (sign == "-" || sign == []) && AllDigits(digits) && AllDigits(frac)
    ensures IsWord(MakeKeyVal("time", sign + digits + ['.'] + frac))
    ensures IsWord(MakeKeyVal("tar_time", sign + digits + ['.'] + frac))
  {
    AsciiWord(MakeKeyVal("time", sign + digits + ['.'] + frac));
    AsciiWord(MakeKeyVal("tar_time", sign + digits + ['.'] + frac));
  }

  lemma {:induction false} TarTimeValue(sec: int)
    ensures KeywordOf(TarTimeKeyVal(sec)) == "tar_time"
    ensures ValueOf(TarTimeKeyVal(sec)) == SignOf(sec) + PrintNat(Magnitude(sec)) + ['.'] + Fraction(0)
  {
    hide Fraction, KeywordOf, ValueOf, PrintNat;
    PrintIntIs(sec);
    PrintNatDigits(Magnitude(sec));
    FractionDigits(0);
    WordOfDigits(SignOf(sec), PrintNat(Magnitude(sec)), Fraction(0));
    MadeKeyVal("tar_time", PrintInt(sec) + ['.'] + Fraction(0));
  }

  /** The second that update reads in a printed tar_time. */
  lemma {:induction false} TarSecondsRead(sec: int)
    requires InInt64(sec)
    ensures TarSeconds(ValueOf(TarTimeKeyVal(sec))) == Some(sec)
  {
    hide ValueOf, ScanInt, TarTimeKeyVal, Fraction, PrintNat, Before, After;
    TarTimeValue(sec);
    var digits := PrintNat(Magnitude(sec));
    PrintNatDigits(Magnitude(sec));
    var whole := SignOf(sec) + digits;
    assert (whole + ['.'] + Fraction(0))[|whole|] == '.';
    CutAt(whole, Fraction(0), '.');
    ScanSigned(SignOf(sec), digits, []);
    assert whole + [] == whole;
  }

  /** Different seconds print differently. */
  lemma {:induction false} TarTimesDiffer(s: int, t: int)
    requires InInt64(s) && InInt64(t)
    ensures ValueOf(TarTimeKeyVal(s)) == ValueOf(TarTimeKeyVal(t)) <==> s == t
  {
    TarSecondsRead(s);
    TarSecondsRead(t);
  }

  /** Times print as seconds, a point and nine digits. */
  lemma {:induction false} PrintedTimes()
    ensures TimeKeyVal(5, 7) == "time=5.000000007" && TarTimeKeyVal(-12) == "tar_time=-12.000000000"
  {
    hide Fraction, PrintNat;
    PrintedNumbers();
    var time, tarTime := TimeKeyVal(5, 7), TarTimeKeyVal(-12);
    assert time == "time" + ['='] + ("5" + ['.'] + "000000007");
    assert tarTime == "tar_time" + ['='] + ("-12" + ['.'] + "000000000");
  }

  lemma {:induction false} PrintedNumbers()
    ensures PrintNat(5) == "5" && PrintNat(12) == "12" && PrintInt(5) == "5" && PrintInt(-12) == "-12"
    ensures Fraction(7) == "000000007" && Fraction(0) == "000000000"
  {
    assert PrintNat(1) == "1";
    PaddedZeros(9);
    PaddedZeros(8);
    hide Padded;
    assert Padded(0, 9) == "000000000";
    assert Padded(0, 8) == "00000000";
    assert Padded(7, 9) == Padded(0, 8) + "7" by {
      PaddedOnce(7, 9);
    }
  }

  lemma PaddedOnce(n: nat, width: nat)
    requires width > 0
    ensures Padded(n, width) == Padded(n / 10, width - 1) + [Digit(n % 10)]
  {
  }

  lemma {:induction false} PaddedZeros(width: nat)
    ensures forall i :: 0 <= i < width ==> Padded(0, width)[i] == '0'
  {
    if width > 0 {
      PaddedZeros(width - 1);
    }
  }

  /** Converting a printed time gives the printed tar_time, for every instant. */
  lemma TimesAgree(sec: int, nsec: nat)
    requires InInt64(sec) && nsec < BILLION
    ensures ConvertToTarTime(ValueOf(TimeKeyVal(sec, nsec))) == Ok(TarTimeKeyVal(sec))
  {
    hide ValueOf, ScanInt, TimeKeyVal, TarTimeKeyVal, Fraction, PrintNat;
    var digits, frac := PrintNat(Magnitude(sec)), Fraction(nsec);
    TimeValue(sec, nsec);
    PrintNatDigits(Magnitude(sec));
    FractionDigits(nsec);
    ScanSigned(SignOf(sec), digits, ['.'] + frac);
    assert SignOf(sec) + digits + ['.'] + frac == SignOf(sec) + digits + (['.'] + frac);
    assert (['.'] + frac)[1..] == frac;
    ScanSigned([], frac, []);
    assert [] + frac + [] == frac;
  }

  /** Update restores the exact instant from what is printed for it, unless the instant does not fit
      or lies before the epoch with a fraction: there the fraction is taken the wrong way. */
  lemma TimeRestored(sec: int, nsec: nat)
    requires nsec < BILLION
    ensures DecodeTime(ValueOf(TimeKeyVal(sec, nsec))) == Some(sec * BILLION + nsec)
       <==> InInt64(sec * BILLION + nsec) && (sec >= 0 || nsec == 0)
  {
    hide ValueOf, ScanInt, TimeKeyVal, Fraction, PrintNat, Before, After, DigitsValue, Power10;
    var digits, frac := PrintNat(Magnitude(sec)), Fraction(nsec);
    var whole := SignOf(sec) + digits;
    TimeValue(sec, nsec);
    PrintNatDigits(Magnitude(sec));
    FractionDigits(nsec);
    DigitsConcat(digits, frac);
    assert (whole + ['.'] + frac)[|whole|] == '.';
    CutAt(whole, frac, '.');
    ScanSigned(SignOf(sec), digits + frac, []);
    assert whole + frac == SignOf(sec) + (digits + frac) + [];
  }

  /** One second and a half before the epoch is restored as two and a half. */
  lemma {:induction false} BeforeEpochMisread()
    ensures DecodeTime(ValueOf(TimeKeyVal(-2, 500_000_000))) != Some(-2 * BILLION + 500_000_000)
  {
    TimeRestored(-2, 500_000_000);
  }
}
