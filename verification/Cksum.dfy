/** The POSIX CRC of cksum.go: its 32-bit shift register, the polynomial division the register
    performs, and the bursts it detects.  A word is its 32 bits and a polynomial over GF(2) its
    coefficients, both with the most significant first, so a word is also a polynomial. */
module Cksum {
  import opened GoBytes

  type Poly = seq<bool>
  type Word = w: Poly | |w| == 32 witness Zeros(32)

  datatype ReadError = ReadError

  function Zeros(n: nat): (z: Poly)
    ensures |z| == n && forall i :: 0 <= i < n ==> !z[i]
  {
    seq(n, _ => false)
  }

  function Xor(a: Poly, b: Poly): (c: Poly)
    requires |a| == |b|
    ensures |c| == |a| && forall i :: 0 <= i < |a| ==> c[i] == (a[i] != b[i])
  {
    seq(|a|, i requires 0 <= i < |a| => a[i] != b[i])
  }

  function Not(a: Poly): (c: Poly)
    ensures |c| == |a| && forall i :: 0 <= i < |a| ==> c[i] == !a[i]
  {
    seq(|a|, i requires 0 <= i < |a| => !a[i])
  }

  /** The low width bits of n. */
  function BitsOf(n: nat, width: nat): (p: Poly)
    ensures |p| == width
  {
    if width == 0 then [] else BitsOf(n / 2, width - 1) + [n % 2 == 1]
  }

  function OctetBits(b: Byte): (p: Poly)
    ensures |p| == 8
  {
    BitsOf(b as int, 8)
  }

  const POSIX_POLYNOMIAL: nat := 0x04C11DB7
  const WIDTH: nat := 32

  function PosixPolynomial(): Word {
    BitsOf(POSIX_POLYNOMIAL, WIDTH)
  }

  // ---------- the register ----------

  /** sum << 1 */
  function Double(w: Word): Word {
    w[1..] + [false]
  }

  function ShiftWord(w: Word, low: Word): Word {
    if w[0] then Xor(Double(w), low) else Double(w)
  }

  function ShiftWords(w: Word, low: Word, n: nat): Word
    decreases n
  {
    if n == 0 then w else ShiftWords(ShiftWord(w, low), low, n - 1)
  }

  function FeedOctet(w: Word, low: Word, b: Byte): Word {
    Xor(ShiftWords(w, low, 8), Zeros(24) + OctetBits(b))
  }

  function FeedOctets(w: Word, low: Word, data: Bytes): Word
    decreases data
  {
    if data == [] then w else FeedOctets(FeedOctet(w, low, data[0]), low, data[1..])
  }

  lemma {:induction false} FeedConcat(w: Word, low: Word, a: Bytes, b: Bytes)
    ensures FeedOctets(w, low, a + b) == FeedOctets(FeedOctets(w, low, a), low, b)
    ensures |b| == 1 ==> FeedOctets(w, low, b) == FeedOctet(w, low, b[0])
    decreases a
  {
    if a == [] {
      assert a + b == b;
    } else {
      assert (a + b)[1..] == a[1..] + b;
      FeedConcat(FeedOctet(w, low, a[0]), low, a[1..], b);
    }
  }

  /** The length suffix: least significant octet first, at least one octet. */
  function LengthSuffix(m: nat): Bytes {
    [(m % 256) as char] + if m / 256 == 0 then [] else LengthSuffix(m / 256)
  }

  const PADDING: Bytes := [0 as char, 0 as char, 0 as char, 0 as char]

  /** What cksum answers for a readable stream. */
  function Sum(data: Bytes): Word {
    Not(FeedOctets(Zeros(32), PosixPolynomial(), data + LengthSuffix(|data|) + PADDING))
  }

  /** The closure of cksum: eight shifts, then the octet into the low end. */
  method Feed(sum: Word, b: Byte) returns (next: Word)
    ensures next == FeedOctet(sum, PosixPolynomial(), b)
  {
    hide PosixPolynomial, OctetBits, Double, Xor, Zeros;
    next := sum;
    for i := 8 downto 0
      invariant ShiftWords(next, PosixPolynomial(), i) == ShiftWords(sum, PosixPolynomial(), 8)
    {
      var msb := next[0];
      next := Double(next);
      if msb {
        next := Xor(next, PosixPolynomial());
      }
    }
    next := Xor(next, Zeros(24) + OctetBits(b));
  }

  /** Reads the stream until it ends or until reading fails. */
  method Cksum(stream: Bytes, failure: Option<ReadError>)
    returns (result: Word, count: nat, err: Option<ReadError>)
    ensures count == |stream| && err == failure
    ensures result == if failure == None then Sum(stream) else Not(FeedOctets(Zeros(32), PosixPolynomial(), stream))
  {
    hide PosixPolynomial, FeedOctet;
    count := 0;
    var sum: Word := Zeros(32);
    ghost var low := PosixPolynomial();
    while count < |stream|
      invariant count <= |stream|
      invariant sum == FeedOctets(Zeros(32), low, stream[..count])
    {
      assert stream[..count + 1] == stream[..count] + [stream[count]];
      FeedConcat(Zeros(32), low, stream[..count], [stream[count]]);
      sum := Feed(sum, stream[count]);
      count := count + 1;
    }
    assert stream[..count] == stream;
    if failure != None {
      return Not(sum), count, failure;
    }
    FeedConcat(Zeros(32), low, stream, LengthSuffix(count));
    FeedConcat(Zeros(32), low, stream + LengthSuffix(count), PADDING);
    sum := FeedLength(sum, count);
    FourZeros(sum, low);
    sum := Feed(sum, 0 as char);
    sum := Feed(sum, 0 as char);
    sum := Feed(sum, 0 as char);
    sum := Feed(sum, 0 as char);
    return Not(sum), count, None;
  }

  method FeedLength(before: Word, count: nat) returns (sum: Word)
    ensures sum == FeedOctets(before, PosixPolynomial(), LengthSuffix(count))
  {
    sum := before;
    var m := count;
    while true
      invariant FeedOctets(sum, PosixPolynomial(), LengthSuffix(m)) == FeedOctets(before, PosixPolynomial(), LengthSuffix(count))
      decreases m
    {
      FeedConcat(sum, PosixPolynomial(), [(m % 256) as char], if m / 256 == 0 then [] else LengthSuffix(m / 256));
      sum := Feed(sum, (m % 256) as char);
      m := m / 256;
      if m == 0 {
        break;
      }
    }
  }

  lemma FeedOne(w: Word, low: Word, data: Bytes, z: Byte)
    ensures FeedOctets(w, low, data + [z]) == FeedOctet(FeedOctets(w, low, data), low, z)
  {
    hide FeedOctet;
    FeedConcat(w, low, data, [z]);
    var before := FeedOctets(w, low, data);
    FeedConcat(before, low, [], [z]);
  }

  lemma FeedNone(w: Word, low: Word)
    ensures FeedOctets(w, low, []) == w
  {
  }

  lemma FourZeros(w: Word, low: Word)
    ensures var z: Byte := 0 as char;
      FeedOctets(w, low, PADDING) == FeedOctet(FeedOctet(FeedOctet(FeedOctet(w, low, z), low, z), low, z), low, z)
  {
    hide FeedOctet, FeedOctets;
    var z: Byte := 0 as char;
    FeedNone(w, low);
    FeedOne(w, low, [], z);
    FeedOne(w, low, [] + [z], z);
    FeedOne(w, low, [] + [z] + [z], z);
    FeedOne(w, low, [] + [z] + [z] + [z], z);
    assert [] + [z] + [z] + [z] + [z] == PADDING;
  }

  // ---------- polynomial division ----------

  /** q times the generator x^32 + low: the sum of its shifted copies. */
  function Product(q: Poly, low: Word): (p: Poly)
    ensures |p| == |q| + 32
  {
    if q == [] then Zeros(32)
    else Xor((if q[0] then [true] + low else Zeros(33)) + Zeros(|q| - 1), [false] + Product(q[1..], low))
  }

  /** Quotient times generator plus remainder. */
  function Dividend(q: Poly, r: Word, low: Word): (d: Poly)
    ensures |d| == |q| + 32
  {
    Xor(Product(q, low), Zeros(|q|) + r)
  }

  /** d = q * (x^32 + low) + r, on |d| + 32 coefficients. */
  ghost predicate DividesInto(d: Poly, low: Word, q: Poly, r: Word)
  {
    |q| == |d| && Zeros(32) + d == Dividend(q, r, low)
  }

  ghost predicate IsRemainder(d: Poly, low: Word, r: Word)
  {
    exists q :: DividesInto(d, low, q, r)
  }

  /** One step of long division: shift a bit in, subtract the generator if a bit fell out. */
  function Shift(r: Poly, b: bool, low: Poly): (next: Poly)
    requires |r| == |low| == 32
    ensures |next| == 32
  {
    Xor(r[1..] + [b], if r[0] then low else Zeros(32))
  }

  function Divide(r: Word, d: Poly, low: Word): Word
    decreases d
  {
    if d == [] then r else Divide(Shift(r, d[0], low), d[1..], low)
  }

  /** Dividing from register r: r followed by d is a multiple of the generator plus what is left. */
  lemma {:induction false} DivideIsDivision(r: Word, d: Poly, low: Word) returns (q: Poly)
    ensures |q| == |d| && r + d == Xor(Product(q, low), Zeros(|d|) + Divide(r, d, low))
    decreases d
  {
    if d == [] {
      q := [];
      assert r + d == Xor(Product(q, low), Zeros(0) + r);
    } else {
      var tail := DivideIsDivision(Shift(r, d[0], low), d[1..], low);
      q := [r[0]] + tail;
      DivisionStep(r, d, low, tail, Divide(Shift(r, d[0], low), d[1..], low));
    }
  }

  /** One step subtracts the generator exactly when the leading coefficient is set. */
  lemma {:induction false} DivisionStep(r: Word, d: Poly, low: Word, tail: Poly, rest: Word)
    requires d != [] && |tail| == |d| - 1
    requires Shift(r, d[0], low) + d[1..] == Xor(Product(tail, low), Zeros(|tail|) + rest)
    ensures r + d == Xor(Product([r[0]] + tail, low), Zeros(|d|) + rest)
  {
    hide Product, Shift;
    var next, q := Shift(r, d[0], low), [r[0]] + tail;
    var high := (if r[0] then [true] + low else Zeros(33)) + Zeros(|tail|);
    var product := Product(q, low);
    ShiftAt(r, d[0], low);
    ProductCons(r[0], tail, low);
    forall i | 0 <= i < |r + d|
      ensures (r + d)[i] == Xor(product, Zeros(|d|) + rest)[i]
    {
      if i > 0 {
        assert (next + d[1..])[i - 1] == (Product(tail, low)[i - 1] != (Zeros(|tail|) + rest)[i - 1]);
        assert (Zeros(|d|) + rest)[i] == (Zeros(|tail|) + rest)[i - 1];
        if i <= 32 {
          assert high[i] == (r[0] && low[i - 1]);
          assert next[i - 1] == ((r[1..] + [d[0]])[i - 1] != (r[0] && low[i - 1]));
          assert (r + d)[i] == (r[1..] + [d[0]])[i - 1];
        } else {
          assert !high[i] && (next + d[1..])[i - 1] == (r + d)[i];
        }
      }
    }
  }

  lemma ShiftAt(r: Word, b: bool, low: Word)
    ensures forall i :: 0 <= i < 32 ==> Shift(r, b, low)[i] == ((r[1..] + [b])[i] != (r[0] && low[i]))
  {
  }

  lemma ProductCons(b: bool, tail: Poly, low: Word)
    ensures Product([b] + tail, low) == Xor((if b then [true] + low else Zeros(33)) + Zeros(|tail|), [false] + Product(tail, low))
  {
    assert ([b] + tail)[1..] == tail;
  }

  /** Quotient and remainder are determined, from the leading coefficient on. */
  lemma {:induction false} DivisionUnique(q: Poly, p: Poly, r: Word, s: Word, low: Word)
    requires |q| == |p|
    requires Dividend(q, r, low) == Dividend(p, s, low)
    ensures q == p && r == s
    decreases |q|
  {
    if q == [] {
      EmptyQuotient(low, r);
      EmptyQuotient(low, s);
    } else {
      hide Product, Xor, Zeros;
      var left, right := Dividend(q[1..], r, low), Dividend(p[1..], s, low);
      DividendTail(q, r, low, 0);
      DividendTail(p, s, low, 0);
      forall i | 0 <= i < |left|
        ensures left[i] == right[i]
      {
        DividendTail(q, r, low, i);
        DividendTail(p, s, low, i);
      }
      assert left == right;
      DivisionUnique(q[1..], p[1..], r, s, low);
      assert q == [q[0]] + q[1..] && p == [p[0]] + p[1..];
    }
  }

  lemma EmptyQuotient(low: Word, r: Word)
    ensures Dividend([], r, low) == r
  {
  }

  lemma DividendTail(q: Poly, r: Word, low: Word, i: nat)
    requires q != [] && i < |q| - 1 + 32
    ensures Dividend(q, r, low)[0] == q[0]
    ensures Dividend(q, r, low)[i + 1] == (Dividend(q[1..], r, low)[i] != (q[0] && i < 32 && low[i]))
  {
    hide Product;
    ProductTail(q, low, i);
    assert (Zeros(|q|) + r)[i + 1] == (Zeros(|q| - 1) + r)[i];
  }

  lemma ProductTail(q: Poly, low: Word, i: nat)
    requires q != [] && i < |q| - 1 + 32
    ensures Product(q, low)[0] == q[0]
    ensures Product(q, low)[i + 1] == (Product(q[1..], low)[i] != (q[0] && i < 32 && low[i]))
  {
    var high := (if q[0] then [true] + low else Zeros(33)) + Zeros(|q| - 1);
    assert high[i + 1] == (q[0] && i < 32 && low[i]);
  }

  /** The register after d is the remainder of d * x^32... and the only one. */
  lemma RemainderIsDivide(d: Poly, low: Word, r: Word)
    ensures IsRemainder(d, low, r) <==> r == Divide(Zeros(32), d, low)
  {
    var q := DivideIsDivision(Zeros(32), d, low);
    assert DividesInto(d, low, q, Divide(Zeros(32), d, low));
    if IsRemainder(d, low, r) {
      var p :| DividesInto(d, low, p, r);
      DivisionUnique(p, q, r, Divide(Zeros(32), d, low), low);
    }
  }

  // ---------- the register divides ----------

  /** Eight or fewer shifts and one exclusive-or do what as many division steps do. */
  lemma {:induction false} ShiftsAreLinear(w: Word, low: Word, s: Poly, n: nat, k: nat)
    requires n + |s| == 32 && k <= n
    ensures ShiftWords(Xor(w, Zeros(n) + s), low, k) == Xor(ShiftWords(w, low, k), Zeros(n - k) + s + Zeros(k))
    decreases k
  {
    if k == 0 {
      assert Zeros(n - 0) + s + Zeros(0) == Zeros(n) + s;
    } else {
      var x := Xor(w, Zeros(n) + s);
      assert ShiftWord(x, low) == Xor(ShiftWord(w, low), Zeros(n - 1) + (s + [false])) by {
        assert x[0] == w[0];
        assert Double(x) == Xor(Double(w), Zeros(n - 1) + (s + [false]));
      }
      ShiftsAreLinear(ShiftWord(w, low), low, s + [false], n - 1, k - 1);
      assert Zeros(n - 1 - (k - 1)) + (s + [false]) + Zeros(k - 1) == Zeros(n - k) + s + Zeros(k);
    }
  }

  /** Dividing by at most 32 bits is that many shifts, then those bits into the low end. */
  lemma {:induction false} DivideFewBits(w: Word, d: Poly, low: Word)
    requires |d| <= 32
    ensures Divide(w, d, low) == Xor(ShiftWords(w, low, |d|), Zeros(32 - |d|) + d)
    decreases d
  {
    if d == [] {
      assert Xor(w, Zeros(32) + []) == w;
    } else {
      var next, rest := ShiftWord(w, low), d[1..];
      ShiftOneBit(w, d[0], low);
      DivideFewBits(Shift(w, d[0], low), rest, low);
      ShiftsAreLinear(next, low, [d[0]], 31, |rest|);
      CombineBits(ShiftWords(next, low, |rest|), d);
    }
  }

  lemma ShiftOneBit(w: Word, b: bool, low: Word)
    ensures Shift(w, b, low) == Xor(ShiftWord(w, low), Zeros(31) + [b])
  {
    assert w[1..] + [b] == Xor(Double(w), Zeros(31) + [b]);
  }

  lemma CombineBits(w: Word, d: Poly)
    requires 0 < |d| <= 32
    ensures var k := |d| - 1;
      Xor(Xor(w, Zeros(31 - k) + [d[0]] + Zeros(k)), Zeros(32 - k) + d[1..]) == Xor(w, Zeros(32 - |d|) + d)
  {
  }

  function Bits(data: Bytes): (p: Poly)
    ensures |p| == 8 * |data|
  {
    if data == [] then [] else OctetBits(data[0]) + Bits(data[1..])
  }

  lemma {:induction false} DivideConcat(w: Word, a: Poly, b: Poly, low: Word)
    ensures Divide(w, a + b, low) == Divide(Divide(w, a, low), b, low)
    decreases a
  {
    if a == [] {
      assert a + b == b;
    } else {
      assert (a + b)[1..] == a[1..] + b;
      DivideConcat(Shift(w, a[0], low), a[1..], b, low);
    }
  }

  lemma {:induction false} FeedIsDivide(w: Word, low: Word, data: Bytes)
    ensures FeedOctets(w, low, data) == Divide(w, Bits(data), low)
    decreases data
  {
    if data != [] {
      DivideFewBits(w, OctetBits(data[0]), low);
      FeedIsDivide(FeedOctet(w, low, data[0]), low, data[1..]);
      DivideConcat(w, OctetBits(data[0]), Bits(data[1..]), low);
    }
  }

  lemma {:induction false} BitsConcat(a: Bytes, b: Bytes)
    ensures Bits(a + b) == Bits(a) + Bits(b)
  {
    if a == [] {
      assert a + b == b;
    } else {
      assert (a + b)[1..] == a[1..] + b;
      BitsConcat(a[1..], b);
    }
  }

  // ---------- the POSIX definition ----------

  /** The length octets of the standard: as few as represent the length, so none for zero. */
  function PosixLength(n: nat): Bytes {
    if n == 0 then [] else [(n % 256) as char] + PosixLength(n / 256)
  }

  lemma {:induction false} LengthSuffixIsPosix(m: nat)
    ensures m > 0 ==> LengthSuffix(m) == PosixLength(m)
    ensures LengthSuffix(0) == [0 as char]
  {
    if m / 256 > 0 {
      LengthSuffixIsPosix(m / 256);
    }
  }

  lemma {:induction false} DivideZeros(n: nat, low: Word)
    ensures Divide(Zeros(32), Zeros(n), low) == Zeros(32)
  {
    if n > 0 {
      assert Shift(Zeros(32), false, low) == Zeros(32);
      assert Zeros(n)[1..] == Zeros(n - 1);
      DivideZeros(n - 1, low);
    }
  }

  lemma PaddingBits()
    ensures Bits(PADDING) == Zeros(32)
  {
    var z: Bytes := [0 as char];
    assert BitsOf(0, 8) == Zeros(8);
    assert Bits(z) == Zeros(8) + Bits([]);
    BitsConcat(z, z);
    BitsConcat(z + z, z + z);
    assert PADDING == (z + z) + (z + z);
  }

  /** The dividend of the standard: message and length octets, times x^32. */
  function PosixDividend(data: Bytes): Poly {
    Bits(data + PosixLength(|data|)) + Zeros(32)
  }

  /** The extra zero octet for the empty message changes nothing. */
  lemma {:induction false} SumOfPosixBits(data: Bytes)
    ensures Sum(data) == Not(Divide(Zeros(32), PosixDividend(data), PosixPolynomial()))
  {
    var low := PosixPolynomial();
    var fed := data + LengthSuffix(|data|);
    FeedIsDivide(Zeros(32), low, fed + PADDING);
    BitsConcat(fed, PADDING);
    PaddingBits();
    LengthSuffixIsPosix(|data|);
    if data == [] {
      EmptyMessage(low);
      assert fed == [0 as char] && data + PosixLength(0) == [];
    }
  }

  lemma EmptyMessage(low: Word)
    ensures Divide(Zeros(32), Bits([0 as char]) + Zeros(32), low) == Zeros(32)
    ensures Divide(Zeros(32), Bits([]) + Zeros(32), low) == Zeros(32)
  {
    assert BitsOf(0, 8) == Zeros(8);
    assert Bits([0 as char]) + Zeros(32) == Zeros(40);
    assert Bits([]) + Zeros(32) == Zeros(32);
    DivideZeros(40, low);
    DivideZeros(32, low);
  }

  // ---------- numbers ----------

  function Power2(n: nat): (p: nat)
    ensures p > 0
  {
    if n == 0 then 1 else 2 * Power2(n - 1)
  }

  /** Bit k of a number, the least significant being bit 0. */
  predicate BitSet(n: nat, k: nat) {
    n / Power2(k) % 2 == 1
  }

  lemma {:induction false} BitsOfAt(n: nat, width: nat, i: nat)
    requires i < width
    ensures BitsOf(n, width)[i] <==> BitSet(n, width - 1 - i)
    decreases width
  {
    if i < width - 1 {
      BitsOfAt(n / 2, width - 1, i);
      var k := width - 2 - i;
      HalfThenPower(n, k);
    }
  }

  lemma HalfThenPower(n: nat, k: nat)
    ensures n / 2 / Power2(k) == n / Power2(k + 1)
  {
    DivideTwice(n, 2, Power2(k));
  }

  lemma DivideTwice(n: nat, a: nat, b: nat)
    requires a > 0 && b > 0
    ensures n / a / b == n / (a * b)
  {
    var m, y := n / a, n % a;
    TwoQuotients(a, b, m / b, m % b, y);
    assert n == m * a + y && m == m / b * b + m % b;
  }

  lemma TwoQuotients(a: nat, b: nat, q: nat, x: nat, y: nat)
    requires x < b && y < a
    ensures ((q * b + x) * a + y) / (a * b) == q
  {
    Distribute(q, b, x, a);
    SmallRest(x, a, b, y);
    QuotientIs(a * b, q, x * a + y);
  }

  lemma Distribute(q: nat, b: nat, x: nat, a: nat)
    ensures (q * b + x) * a == q * (a * b) + x * a
  {
  }

  lemma SmallRest(x: nat, a: nat, b: nat, y: nat)
    requires x < b && y < a
    ensures 0 <= x * a + y < a * b
  {
    assert x * a <= (b - 1) * a;
  }

  lemma QuotientIs(d: int, q: int, rest: int)
    requires 0 <= rest < d
    ensures (q * d + rest) / d == q
  {
    var n := q * d + rest;
    var p := n / d;
    assert n == p * d + n % d;
    assert (p - q) * d == rest - n % d;
    MultiplesApart(p - q, d);
  }

  lemma MultiplesApart(x: int, d: int)
    requires d > 0
    ensures x >= 1 ==> x * d >= d
    ensures x <= -1 ==> x * d <= -d
  {
    if x >= 1 {
      assert x * d == d + (x - 1) * d;
    } else if x <= -1 {
      assert x * d == (x + 1) * d - d;
    }
  }

  /** The first coefficient of an octet is its most significant bit. */
  lemma {:induction false} OctetBitsAt(b: Byte, i: nat)
    requires i < 8
    ensures OctetBits(b)[i] <==> BitSet(b as int, 7 - i)
  {
    BitsOfAt(b as int, 8, i);
  }

  lemma {:induction false} BitsAt(data: Bytes, k: nat, i: nat)
    requires k < |data| && i < 8
    ensures Bits(data)[8 * k + i] <==> BitSet(data[k] as int, 7 - i)
  {
    if k == 0 {
      OctetBitsAt(data[0], i);
    } else {
      BitsAt(data[1..], k - 1, i);
    }
  }

  /** The number a word is in the program. */
  function Number(w: Poly): (n: nat)
    ensures n < Power2(|w|)
  {
    if w == [] then 0 else 2 * Number(w[..|w| - 1]) + if w[|w| - 1] then 1 else 0
  }

  lemma {:induction false} NumberBits(w: Poly)
    ensures BitsOf(Number(w), |w|) == w
  {
    if w != [] {
      NumberBits(w[..|w| - 1]);
      assert w == w[..|w| - 1] + [w[|w| - 1]];
    }
  }

  /** The first coefficient of a word is bit 31 of its number. */
  lemma {:induction false} NumberAt(w: Word, i: nat)
    requires i < 32
    ensures w[i] <==> BitSet(Number(w), 31 - i)
  {
    NumberBits(w);
    BitsOfAt(Number(w), 32, i);
  }

  lemma {:induction false} NumberOfNot(w: Poly)
    ensures Number(Not(w)) == Power2(|w|) - 1 - Number(w)
  {
    if w != [] {
      var rest := w[..|w| - 1];
      NumberOfNot(rest);
      assert Not(w)[..|w| - 1] == Not(rest);
    }
  }

  lemma {:induction false} NumberInjective(w: Word, v: Word)
    ensures Number(w) == Number(v) <==> w == v
  {
    NumberBits(w);
    NumberBits(v);
  }

  // ---------- the definition of the standard, bit by bit ----------

  function Power256(n: nat): (p: nat)
    ensures p > 0
  {
    if n == 0 then 1 else 256 * Power256(n - 1)
  }

  /** So many octets represent the number, and no fewer. */
  predicate IsLengthIn(n: nat, octets: nat) {
    n < Power256(octets) && (octets > 0 ==> n >= Power256(octets - 1))
  }

  /** The dividend of the standard: the bits of the message octets, most significant first, then those of its
      length in as few octets as represent it, least significant octet first, then 32 zeros. */
  ghost predicate IsPosixDividend(data: Bytes, d: Poly) {
    exists octets: nat :: IsLengthIn(|data|, octets) && HasPosixBits(data, octets, d)
  }

  ghost predicate HasPosixBits(data: Bytes, octets: nat, d: Poly) {
    && |d| == 8 * |data| + 8 * octets + 32
    && (forall k :: 0 <= k < |data| ==> HasOctet(d, k, data[k] as int))
    && (forall k: nat :: k < octets ==> HasOctet(d, |data| + k, |data| / Power256(k) % 256))
    && (forall i :: 8 * |data| + 8 * octets <= i < |d| ==> !d[i])
  }

  /** The eight coefficients of octet k are the bits of n, the most significant first. */
  ghost predicate HasOctet(d: Poly, k: nat, n: nat) {
    8 * k + 8 <= |d| && forall i :: 8 * k <= i < 8 * k + 8 ==> (d[i] <==> BitSet(n, 8 * k + 7 - i))
  }

  lemma {:induction false} PosixLengthIs(n: nat)
    ensures IsLengthIn(n, |PosixLength(n)|)
  {
    if n > 0 {
      PosixLengthIs(n / 256);
    }
  }

  lemma {:induction false} PosixLengthAt(n: nat, k: nat)
    requires k < |PosixLength(n)|
    ensures PosixLength(n)[k] as int == n / Power256(k) % 256
  {
    if k > 0 {
      PosixLengthAt(n / 256, k - 1);
      DivideTwice(n, 256, Power256(k - 1));
    }
  }

  lemma {:induction false} BitsHaveOctet(data: Bytes, k: nat, d: Poly)
    requires k < |data| && Bits(data) <= d
    ensures HasOctet(d, k, data[k] as int)
  {
    forall i | 8 * k <= i < 8 * k + 8
      ensures d[i] <==> BitSet(data[k] as int, 8 * k + 7 - i)
    {
      BitsAt(data, k, i - 8 * k);
    }
  }

  lemma {:induction false} PosixDividendIs(data: Bytes)
    ensures HasPosixBits(data, |PosixLength(|data|)|, PosixDividend(data)) && IsLengthIn(|data|, |PosixLength(|data|)|)
  {
    hide HasOctet, PosixLength, Bits, BitSet;
    var length := PosixLength(|data|);
    var all, d := data + length, PosixDividend(data);
    PosixLengthIs(|data|);
    forall k | 0 <= k < |data|
      ensures HasOctet(d, k, data[k] as int)
    {
      BitsHaveOctet(all, k, d);
    }
    forall k: nat | k < |length|
      ensures HasOctet(d, |data| + k, |data| / Power256(k) % 256)
    {
      BitsHaveOctet(all, |data| + k, d);
      PosixLengthAt(|data|, k);
    }
  }

  lemma {:induction false} LengthUnique(n: nat, a: nat, b: nat)
    requires IsLengthIn(n, a) && IsLengthIn(n, b)
    ensures a == b
  {
    if a < b {
      PowersGrow(a, b - 1);
    } else if b < a {
      PowersGrow(b, a - 1);
    }
  }

  lemma {:induction false} PowersGrow(a: nat, b: nat)
    requires a <= b
    ensures Power256(a) <= Power256(b)
  {
    if a < b {
      PowersGrow(a, b - 1);
    }
  }

  lemma {:induction false} SameBits(data: Bytes, octets: nat, d: Poly, e: Poly)
    requires HasPosixBits(data, octets, d) && HasPosixBits(data, octets, e)
    ensures d == e
  {
    forall i | 0 <= i < |d|
      ensures d[i] == e[i]
    {
      var k := i / 8;
      if k < |data| {
        assert HasOctet(d, k, data[k] as int) && HasOctet(e, k, data[k] as int);
      } else if k < |data| + octets {
        var n := |data| / Power256(k - |data|) % 256;
        assert HasOctet(d, |data| + (k - |data|), n) && HasOctet(e, |data| + (k - |data|), n);
      }
    }
  }

  /** The standard's dividend is the one the register is fed. */
  lemma {:induction false} DividendUnique(data: Bytes, d: Poly)
    ensures IsPosixDividend(data, d) <==> d == PosixDividend(data)
  {
    PosixDividendIs(data);
    if octets: nat :| IsLengthIn(|data|, octets) && HasPosixBits(data, octets, d) {
      LengthUnique(|data|, octets, |PosixLength(|data|)|);
      SameBits(data, octets, d, PosixDividend(data));
    }
  }

  /** cksum is the POSIX checksum: the number complementary to the one remainder of the dividend by the
      generator. */
  lemma {:induction false} SumIsPosix(data: Bytes, d: Poly, r: Word)
    requires IsPosixDividend(data, d)
    ensures IsRemainder(d, PosixPolynomial(), r) <==> Number(Sum(data)) == 0xFFFF_FFFF - Number(r)
  {
    hide PosixPolynomial, IsRemainder, Sum, PosixDividend, IsPosixDividend;
    DividendUnique(data, d);
    SumOfPosixBits(data);
    RemainderIsDivide(d, PosixPolynomial(), r);
    NumberOfNot(r);
    NumberInjective(Sum(data), Not(r));
    NotInjective(Divide(Zeros(32), d, PosixPolynomial()), r);
    assert Power2(32) == 0x1_0000_0000 by {
      Power2Is32();
    }
  }

  lemma Power2Is32()
    ensures Power2(32) == 0x1_0000_0000
  {
    assert Power2(8) == 256;
    assert Power2(16) == 0x1_0000;
    assert Power2(24) == 0x100_0000;
  }

  /** A product's coefficient is the sum over GF(2) of those of the factors whose degrees add up to it. */
  function Convolved(q: Poly, g: Poly, k: nat, n: nat): bool
    requires n <= |q|
  {
    if n == 0 then false else Convolved(q, g, k, n - 1) != (q[n - 1] && n - 1 <= k < n - 1 + |g| && g[k - (n - 1)])
  }

  lemma {:induction false} ConvolvedTail(q: Poly, g: Poly, k: nat, n: nat)
    requires 0 < n <= |q| && k > 0
    ensures Convolved(q, g, k, n) == (Convolved(q[1..], g, k - 1, n - 1) != (q[0] && k < |g| && g[k]))
  {
    if n > 1 {
      ConvolvedTail(q, g, k, n - 1);
    }
  }

  lemma {:induction false} ConvolvedFirst(q: Poly, g: Poly, n: nat)
    requires 0 < n <= |q| && |g| > 0
    ensures Convolved(q, g, 0, n) == (q[0] && g[0])
  {
    if n > 1 {
      ConvolvedFirst(q, g, n - 1);
    }
  }

  /** Product multiplies polynomials. */
  lemma {:induction false} ProductIsProduct(q: Poly, low: Word, k: nat)
    requires k < |q| + 32
    ensures Product(q, low)[k] == Convolved(q, [true] + low, k, |q|)
  {
    if q != [] {
      if k == 0 {
        ProductTail(q, low, 0);
        ConvolvedFirst(q, [true] + low, |q|);
      } else {
        ProductTail(q, low, k - 1);
        ProductIsProduct(q[1..], low, k - 1);
        ConvolvedTail(q, [true] + low, k, |q|);
      }
    }
  }

  /** The generator is the one the standard prints. */
  predicate InGenerator(degree: int) {
    || degree == 26 || degree == 23 || degree == 22 || degree == 16 || degree == 12 || degree == 11 || degree == 10
    || degree == 8 || degree == 7 || degree == 5 || degree == 4 || degree == 2 || degree == 1 || degree == 0
  }

  lemma {:induction false} GeneratorIsPosix(i: nat)
    requires i < 32
    ensures PosixPolynomial()[i] <==> InGenerator(31 - i)
  {
    assert HasGeneratorBits(0x04, 24);
    assert HasGeneratorBits(0x04C1, 16);
    assert HasGeneratorBits(0x04C11D, 8);
    assert HasGeneratorBits(0x04C11DB7, 0);
    GeneratorBit(POSIX_POLYNOMIAL, 0, i);
  }

  predicate HasGeneratorBits(n: nat, degree: nat)
    decreases 32 - degree
  {
    degree >= 32 || ((n % 2 == 1 <==> InGenerator(degree)) && HasGeneratorBits(n / 2, degree + 1))
  }

  lemma {:induction false} GeneratorBit(n: nat, degree: nat, i: nat)
    requires i + degree < 32 && HasGeneratorBits(n, degree)
    ensures BitsOf(n, 32 - degree)[i] <==> InGenerator(31 - i)
    decreases 32 - degree
  {
    if i + degree < 31 {
      GeneratorBit(n / 2, degree + 1, i);
    }
  }

  // ---------- bursts ----------

  lemma {:induction false} DivideXor(w: Word, v: Word, a: Poly, b: Poly, low: Word)
    requires |a| == |b|
    ensures Divide(Xor(w, v), Xor(a, b), low) == Xor(Divide(w, a, low), Divide(v, b, low))
    decreases a
  {
    if a != [] {
      assert Xor(a, b)[1..] == Xor(a[1..], b[1..]);
      ShiftXor(w, v, a[0], b[0], low);
      DivideXor(Shift(w, a[0], low), Shift(v, b[0], low), a[1..], b[1..], low);
    }
  }

  lemma ShiftXor(w: Word, v: Word, a: bool, b: bool, low: Word)
    ensures Shift(Xor(w, v), a != b, low) == Xor(Shift(w, a, low), Shift(v, b, low))
  {
  }

  /** A step loses nothing: the generator ends in one, so the bit that fell out shows in the last place. */
  lemma {:induction false} DivideKeepsNonzero(w: Word, n: nat, low: Word)
    requires low[31] && Divide(w, Zeros(n), low) == Zeros(32)
    ensures w == Zeros(32)
    decreases n
  {
    if n > 0 {
      assert Zeros(n)[1..] == Zeros(n - 1);
      var next := Shift(w, false, low);
      DivideKeepsNonzero(next, n - 1, low);
      assert next[31] == w[0];
      assert forall i :: 0 <= i < 31 ==> next[i] == w[i + 1];
      assert forall i :: 0 < i < 32 ==> w[i] == next[i - 1];
    }
  }

  /** A difference confined to a window leaves the zero register at the window itself. */
  lemma WindowSeen(d: Poly, from: nat, to: nat, low: Word) returns (seen: Word)
    requires from <= to <= |d| && to - from <= 32
    requires forall i :: 0 <= i < |d| && !(from <= i < to) ==> !d[i]
    ensures seen == Zeros(32 - (to - from)) + d[from..to]
    ensures Divide(Zeros(32), d, low) == Divide(seen, Zeros(|d| - to), low)
  {
    var z, window := Zeros(32), d[from..to];
    assert d == (Zeros(from) + window) + Zeros(|d| - to);
    DivideConcat(z, Zeros(from) + window, Zeros(|d| - to), low);
    DivideConcat(z, Zeros(from), window, low);
    DivideZeros(from, low);
    DivideFewBits(z, window, low);
    ShiftsOfZero(|window|, low);
    seen := Divide(z, window, low);
    assert Xor(z, Zeros(32 - |window|) + window) == Zeros(32 - |window|) + window;
  }

  lemma DifferenceVanishes(d: Poly, from: nat, to: nat, low: Word)
    requires from <= to <= |d| && to - from <= 32 && low[31]
    requires forall i :: 0 <= i < |d| && !(from <= i < to) ==> !d[i]
    requires Divide(Zeros(32), d, low) == Zeros(32)
    ensures d == Zeros(|d|)
  {
    hide Divide;
    var seen := WindowSeen(d, from, to, low);
    DivideKeepsNonzero(seen, |d| - to, low);
    var high := 32 - (to - from);
    forall i | from <= i < to
      ensures !d[i]
    {
      assert seen[high + (i - from)] == d[from..to][i - from];
    }
  }

  lemma BurstSeen(a: Poly, b: Poly, from: nat, to: nat, low: Word)
    requires |a| == |b| && from <= to <= |a| && to - from <= 32 && low[31]
    requires forall i :: 0 <= i < |a| && !(from <= i < to) ==> a[i] == b[i]
    ensures Divide(Zeros(32), a, low) == Divide(Zeros(32), b, low) ==> a == b
  {
    var z, d := Zeros(32), Xor(a, b);
    assert Xor(z, z) == z;
    DivideXor(z, z, a, b, low);
    if Divide(z, a, low) == Divide(z, b, low) {
      assert Divide(z, d, low) == z;
      DifferenceVanishes(d, from, to, low);
      forall i | 0 <= i < |a|
        ensures a[i] == b[i]
      {
        assert !d[i];
      }
    }
  }

  lemma {:induction false} ShiftsOfZero(n: nat, low: Word)
    ensures ShiftWords(Zeros(32), low, n) == Zeros(32)
  {
    if n > 0 {
      assert Double(Zeros(32)) == Zeros(32);
      ShiftsOfZero(n - 1, low);
    }
  }

  lemma {:induction false} BitsOfInjective(m: nat, n: nat, width: nat)
    requires m < Power2(width) && n < Power2(width) && BitsOf(m, width) == BitsOf(n, width)
    ensures m == n
    decreases width
  {
    if width > 0 {
      var p, q := BitsOf(m, width), BitsOf(n, width);
      assert p[..width - 1] == BitsOf(m / 2, width - 1) && q[..width - 1] == BitsOf(n / 2, width - 1);
      assert p[width - 1] == q[width - 1];
      BitsOfInjective(m / 2, n / 2, width - 1);
    }
  }

  lemma {:induction false} BitsInjective(m: Bytes, n: Bytes)
    requires |m| == |n| && Bits(m) == Bits(n)
    ensures m == n
  {
    if m != [] {
      assert OctetBits(m[0]) == Bits(m)[..8] && OctetBits(n[0]) == Bits(n)[..8];
      assert Bits(m[1..]) == Bits(m)[8..] && Bits(n[1..]) == Bits(n)[8..];
      assert Power2(8) == 256;
      BitsOfInjective(m[0] as int, n[0] as int, 8);
      BitsInjective(m[1..], n[1..]);
    }
  }

  lemma NotInjective(w: Word, v: Word)
    ensures Not(w) == Not(v) <==> w == v
  {
    if Not(w) == Not(v) {
      assert forall i :: 0 <= i < 32 ==> Not(w)[i] == Not(v)[i];
    }
  }

  /** What the checksum adds to a message of a given length. */
  lemma {:induction false} SumIsDivide(m: Bytes)
    ensures Sum(m) == Not(Divide(Zeros(32), Bits(m) + Bits(LengthSuffix(|m|) + PADDING), PosixPolynomial()))
  {
    var rest := LengthSuffix(|m|) + PADDING;
    assert m + LengthSuffix(|m|) + PADDING == m + rest;
    FeedIsDivide(Zeros(32), PosixPolynomial(), m + rest);
    BitsConcat(m, rest);
  }

  /** Bit i of a message, the most significant bit of its first octet being bit 0. */
  predicate MessageBit(m: Bytes, i: nat)
    requires i < 8 * |m|
  {
    BitSet(m[i / 8] as int, 7 - i % 8)
  }

  lemma MessageBits(m: Bytes, i: nat)
    requires i < 8 * |m|
    ensures MessageBit(m, i) <==> Bits(m)[i]
  {
    hide Bits, BitSet;
    BitsAt(m, i / 8, i % 8);
    assert i == 8 * (i / 8) + i % 8;
  }

  /** Every burst of at most 32 bits changes the checksum. */
  lemma {:induction false} BurstDetected(m: Bytes, n: Bytes, from: nat, to: nat)
    requires |m| == |n| && from <= to <= 8 * |m| && to - from <= 32
    requires forall i :: 0 <= i < 8 * |m| && !(from <= i < to) ==> MessageBit(m, i) == MessageBit(n, i)
    ensures Number(Sum(m)) == Number(Sum(n)) <==> m == n
  {
    hide PosixPolynomial, MessageBit;
    forall i | 0 <= i < 8 * |m| && !(from <= i < to)
      ensures Bits(m)[i] == Bits(n)[i]
    {
      MessageBits(m, i);
      MessageBits(n, i);
    }
    BurstInBits(m, n, from, to);
    NumberInjective(Sum(m), Sum(n));
  }

  lemma {:induction false} BurstInBits(m: Bytes, n: Bytes, from: nat, to: nat)
    requires |m| == |n| && from <= to <= 8 * |m| && to - from <= 32
    requires forall i :: 0 <= i < 8 * |m| && !(from <= i < to) ==> Bits(m)[i] == Bits(n)[i]
    ensures Sum(m) == Sum(n) <==> m == n
  {
    hide PosixPolynomial, Sum, Bits, Divide, LengthSuffix, Not;
    var low, rest := PosixPolynomial(), Bits(LengthSuffix(|m|) + PADDING);
    var a, b := Bits(m) + rest, Bits(n) + rest;
    SumIsDivide(m);
    SumIsDivide(n);
    LastBitSet();
    BurstSeen(a, b, from, to, low);
    NotInjective(Divide(Zeros(32), a, low), Divide(Zeros(32), b, low));
    if a == b {
      assert Bits(m) == a[..8 * |m|] && Bits(n) == b[..8 * |m|];
      BitsInjective(m, n);
    }
  }

  lemma {:induction false} LastBitSet()
    ensures PosixPolynomial()[31]
  {
    GeneratorIsPosix(31);
  }
}
