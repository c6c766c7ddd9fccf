/** The checksum as a remainder: polynomial division by the generator of CRC-32C, section 13.1 of RFC 7143. */
module CrcRemainder {
  import opened Bytes
  import opened Crc

  /** A polynomial over the two-element field: the exponents of its terms. */
  type Poly = set<nat>

  function Plus(p: Poly, q: Poly): Poly { (p - q) + (q - p) }

  /** The polynomial times x. */
  function TimesX(p: Poly): Poly { set e | e in p :: e + 1 }

  function TimesPower(p: Poly, k: nat): Poly { if k == 0 then p else TimesX(TimesPower(p, k - 1)) }

  /** The generator of CRC-32C, 0x1EDC6F41 below its leading term. */
  const GENERATOR: Poly := {32, 28, 27, 26, 25, 23, 22, 20, 19, 18, 14, 13, 11, 10, 9, 8, 6, 0}

  /** The generator times a polynomial, given by the exponents of its terms. */
  function Multiple(ks: seq<nat>): Poly {
    if ks == [] then {} else Plus(Multiple(ks[..|ks| - 1]), TimesPower(GENERATOR, ks[|ks| - 1]))
  }

  ghost predicate IsMultiple(p: Poly) { exists ks :: p == Multiple(ks) }

  /** The message as bits, each byte from its low bit on. */
  function MessageBits(s: seq<byte>): seq<bool> {
    if s == [] then [] else MessageBits(s[..|s| - 1]) + Bits(s[|s| - 1])[..8]
  }

  predicate DividendTerm(bits: seq<bool>, e: nat) {
    e < |bits| + 32 && (e >= 32 && bits[|bits| + 31 - e]) != (e >= |bits|)
  }

  /** The message with 32 zeros appended and its first 32 bits inverted, the first bit at the highest power. */
  ghost function Dividend(bits: seq<bool>): Poly { set e: nat | e < |bits| + 32 && DividendTerm(bits, e) }

  predicate RegisterTerm(c: word, e: nat) { e < 32 && c[31 - e] }

  /** A register, its low bit at the highest power. */
  ghost function RegisterPoly(c: word): Poly { set e: nat | e < 32 && RegisterTerm(c, e) }

  lemma ShiftedPlus(p: Poly, q: Poly)
    ensures TimesX(Plus(p, q)) == Plus(TimesX(p), TimesX(q))
  {
    forall e
      ensures e in TimesX(Plus(p, q)) <==> e in Plus(TimesX(p), TimesX(q))
    {
      if e > 0 { assert (e - 1) + 1 == e; }
    }
  }

  lemma {:induction false} MultipleShifted(ks: seq<nat>) returns (more: seq<nat>)
    ensures TimesX(Multiple(ks)) == Multiple(more)
    decreases |ks|
  {
    if ks == [] {
      more := [];
    } else {
      var front := MultipleShifted(ks[..|ks| - 1]);
      var k := ks[|ks| - 1];
      more := front + [k + 1];
      assert more[..|more| - 1] == front;
      ShiftedPlus(Multiple(ks[..|ks| - 1]), TimesPower(GENERATOR, k));
    }
  }

  // --- one bit at a time ---

  function Flip(c: word, bit: bool): word { c[0 := c[0] != bit] }

  function Fed(c: word, bits: seq<bool>): word {
    if bits == [] then c else BitStep(Flip(Fed(c, bits[..|bits| - 1]), bits[|bits| - 1]))
  }

  /** What is left of a byte in the register after its first i bits. */
  function Left(b: byte, i: nat): word {
    seq(32, j requires 0 <= j < 32 => i + j < 8 && Digit(b, i + j))
  }

  lemma ByteDigits(b: byte)
    ensures Bits(b) == Left(b, 0)
  {
    forall i | 8 <= i < 32
      ensures !Digit(b, i)
    {
      HighDigit(b, i);
    }
  }

  lemma HighDigit(b: byte, i: nat)
    requires i >= 8
    ensures !Digit(b, i)
  {
    Pow2And256(1);
    Pow2AtLeast(8, i);
    DivModUnique(b, Pow2(i), 0, b);
  }

  lemma {:induction false} Pow2AtLeast(a: nat, b: nat)
    requires a <= b
    ensures Pow2(a) <= Pow2(b)
    decreases b
  {
    if a < b { Pow2AtLeast(a, b - 1); }
  }

  /** Folding in a whole byte and then shifting is folding in its bits one by one. */
  lemma {:induction false} BitByBit(c: word, b: byte, n: nat)
    requires n <= 8
    ensures BitSteps(Xor(c, Bits(b)), n) == Xor(Fed(c, Bits(b)[..n]), Left(b, n))
  {
    hide Digit;
    if n == 0 {
      ByteDigits(b);
    } else {
      BitByBit(c, b, n - 1);
      var bits := Bits(b)[..n];
      assert bits[..n - 1] == Bits(b)[..n - 1];
      FeedOne(Fed(c, bits[..n - 1]), b, n - 1);
    }
  }

  lemma FeedOne(f: word, b: byte, i: nat)
    requires i < 8
    ensures BitStep(Xor(f, Left(b, i))) == Xor(BitStep(Flip(f, Bits(b)[i])), Left(b, i + 1))
  {
    hide Digit;
    var s, t := Xor(f, Left(b, i)), Flip(f, Bits(b)[i]);
    assert s[0] == t[0];
    forall j | 0 <= j < 32
      ensures Shr1(s)[j] == Xor(Shr1(t), Left(b, i + 1))[j]
    {
      if j < 31 { assert s[j + 1] == (f[j + 1] != Left(b, i)[j + 1]); }
    }
  }

  lemma FedConcat(c: word, a: seq<bool>, b: seq<bool>)
    ensures Fed(c, a + b) == Fed(Fed(c, a), b)
    decreases |b|
  {
    hide BitStep;
    if b == [] {
      assert a + b == a;
    } else {
      assert (a + b)[..|a + b| - 1] == a + b[..|b| - 1];
      FedConcat(c, a, b[..|b| - 1]);
    }
  }

  lemma {:induction false} RegisterIsFed(c: word, s: seq<byte>)
    ensures Register(c, s) == Fed(c, MessageBits(s))
    decreases |s|
  {
    hide BitStep, Digit;
    if s != [] {
      var front, b := s[..|s| - 1], s[|s| - 1];
      RegisterIsFed(c, front);
      BitByBit(Register(c, front), b, 8);
      assert forall x: word :: Xor(x, Left(b, 8)) == x;
      FedConcat(c, MessageBits(front), Bits(b)[..8]);
    }
  }

  // --- one bit as a step of the division ---

  /** The register's polynomial is the generator without its leading term. */
  lemma PolyIsGenerator()
    ensures RegisterPoly(Bits(POLY)) == GENERATOR - {32}
  {
    PolyDigits();
    forall e: nat
      ensures e in RegisterPoly(Bits(POLY)) <==> e in GENERATOR - {32}
    {
      assert e < 32 ==> RegisterTerm(Bits(POLY), e) == Digit(POLY, 31 - e);
    }
  }

  /** The reflected constant, halved once for each of its digits. */
  const HALVES: seq<nat> := [
    0x82F63B78, 0x417B1DBC, 0x20BD8EDE, 0x105EC76F, 0x82F63B7, 0x417B1DB, 0x20BD8ED, 0x105EC76,
    0x82F63B, 0x417B1D, 0x20BD8E, 0x105EC7, 0x82F63, 0x417B1, 0x20BD8, 0x105EC,
    0x82F6, 0x417B, 0x20BD, 0x105E, 0x82F, 0x417, 0x20B, 0x105,
    0x82, 0x41, 0x20, 0x10, 0x8, 0x4, 0x2, 0x1
  ]

  lemma HalvesHalve()
    ensures |HALVES| == 32 && HALVES[0] == POLY && forall i | 0 < i < 32 :: HALVES[i] == HALVES[i - 1] / 2
  {
  }

  lemma HalvesParity()
    ensures |HALVES| == 32 && forall i: nat | i < 32 :: HALVES[i] % 2 == 1 <==> 31 - i in GENERATOR
  {
  }

  lemma {:induction false} HalvesIs(i: nat)
    requires i < 32
    ensures |HALVES| == 32 && HALVES[i] == POLY / Pow2(i)
  {
    hide HALVES;
    HalvesHalve();
    if i > 0 {
      HalvesIs(i - 1);
      HalfQuotient(POLY, Pow2(i - 1));
    }
  }

  lemma HalfQuotient(n: nat, p: nat)
    requires p > 0
    ensures n / (2 * p) == n / p / 2
  {
    var q, r := n / p, n % p;
    assert n == q * p + r == (q / 2) * (2 * p) + (q % 2 * p + r);
    DivModUnique(n, 2 * p, q / 2, q % 2 * p + r);
  }

  lemma PolyDigits()
    ensures forall i: nat | i < 32 :: Digit(POLY, i) <==> 31 - i in GENERATOR
  {
    hide HALVES;
    HalvesParity();
    forall i: nat | i < 32
      ensures Digit(POLY, i) <==> 31 - i in GENERATOR
    {
      HalvesIs(i);
    }
  }

  /** Taking in a bit multiplies the register by x, and takes the generator off when it overflows. */
  lemma RegisterStep(c: word, bit: bool)
    ensures var r := Plus(RegisterPoly(c), if bit then {31} else {});
      RegisterPoly(BitStep(Flip(c, bit))) == Plus(TimesX(r), if 31 in r then GENERATOR else {})
  {
    hide Bits, GENERATOR;
    var r, t := Plus(RegisterPoly(c), if bit then {31} else {}), Flip(c, bit);
    PolyIsGenerator();
    GeneratorTop();
    forall e: nat
      ensures e in r <==> e < 32 && t[31 - e]
    {
      assert e in RegisterPoly(c) <==> RegisterTerm(c, e);
    }
    forall e: nat
      ensures e in RegisterPoly(BitStep(t)) <==> e in Plus(TimesX(r), if 31 in r then GENERATOR else {})
    {
      assert e in RegisterPoly(BitStep(t)) <==> RegisterTerm(BitStep(t), e);
      assert e in RegisterPoly(Bits(POLY)) <==> RegisterTerm(Bits(POLY), e);
      assert e in TimesX(r) <==> 0 < e && e - 1 in r by { assert e > 0 ==> (e - 1) + 1 == e; }
      if e < 32 { assert Shr1(t)[31 - e] == (e > 0 && t[32 - e]); }
    }
  }

  lemma GeneratorTop()
    ensures 32 in GENERATOR && forall e | e in GENERATOR :: e <= 32
  {
  }

  /** One more bit of the message. */
  lemma DividendStep(bits: seq<bool>, bit: bool)
    ensures Dividend(bits + [bit]) == Plus(TimesX(Dividend(bits)), if bit then {32} else {})
  {
    var more := bits + [bit];
    forall e: nat
      ensures e in Dividend(more) <==> e in Plus(TimesX(Dividend(bits)), if bit then {32} else {})
    {
      assert e in Dividend(more) <==> DividendTerm(more, e);
      if e > 0 {
        assert (e - 1) + 1 == e;
        assert e - 1 in Dividend(bits) <==> DividendTerm(bits, e - 1);
        assert 32 < e < |more| + 32 ==> more[|more| + 31 - e] == bits[|bits| + 31 - (e - 1)];
      }
    }
  }

  lemma {:induction false} Ones(i: nat)
    requires i < 32
    ensures 0xFFFF_FFFF / Pow2(i) == Pow2(32 - i) - 1
  {
    if i == 0 {
      Pow2And256(4);
      Widths();
    } else {
      Ones(i - 1);
      HalfQuotient(0xFFFF_FFFF, Pow2(i - 1));
    }
  }

  lemma OneDigit(i: nat)
    requires i < 32
    ensures Digit(0xFFFF_FFFF, i)
  {
    Ones(i);
    OddBelow(Pow2(31 - i));
  }

  lemma OddBelow(p: nat)
    requires p > 0
    ensures (2 * p - 1) % 2 == 1
  {
    assert 2 * p - 1 == 2 * (p - 1) + 1;
  }

  lemma StartIsOnes()
    ensures Plus(Dividend([]), RegisterPoly(START)) == {}
  {
    hide Digit;
    forall e: nat
      ensures e in Dividend([]) <==> e in RegisterPoly(START)
    {
      assert e in Dividend([]) <==> DividendTerm([], e);
      assert e in RegisterPoly(START) <==> RegisterTerm(START, e);
      if e < 32 { OneDigit(31 - e); }
    }
  }

  /** What is left after every bit differs from the message by a multiple of the generator. */
  lemma {:induction false} Congruent(bits: seq<bool>) returns (ks: seq<nat>)
    ensures Plus(Dividend(bits), RegisterPoly(Fed(START, bits))) == Multiple(ks)
    decreases |bits|
  {
    hide START, BitStep, Dividend, RegisterPoly, GENERATOR, Flip;
    if bits == [] {
      StartIsOnes();
      ks := [];
    } else {
      var front, bit := bits[..|bits| - 1], bits[|bits| - 1];
      var before := Congruent(front);
      var c := Fed(START, front);
      RegisterStep(c, bit);
      DividendStep(front, bit);
      assert front + [bit] == bits;
      var shifted := MultipleShifted(before);
      var r := Plus(RegisterPoly(c), if bit then {31} else {});
      CancelBit(Dividend(front), RegisterPoly(c), bit);
      ShiftedPlus(Dividend(front), RegisterPoly(c));
      if 31 in r {
        ks := shifted + [0];
        assert ks[..|ks| - 1] == shifted;
        PlusAssociates(Plus(TimesX(Dividend(front)), if bit then {32} else {}), TimesX(r), GENERATOR);
      } else {
        ks := shifted;
        PlusNothing(TimesX(r));
      }
    }
  }

  /** The new bit enters the message and the register alike. */
  lemma CancelBit(d: Poly, r: Poly, bit: bool)
    ensures Plus(Plus(TimesX(d), if bit then {32} else {}), TimesX(Plus(r, if bit then {31} else {})))
         == Plus(TimesX(d), TimesX(r))
  {
    ShiftedPlus(r, if bit then {31} else {});
    assert TimesX({31}) == {32};
    assert TimesX({}) == {};
  }

  lemma PlusAssociates(a: Poly, b: Poly, c: Poly)
    ensures Plus(a, Plus(b, c)) == Plus(Plus(a, b), c)
  {
  }

  lemma PlusNothing(a: Poly)
    ensures Plus(a, {}) == a
  {
  }

  lemma LowBitGone(n: nat, low: nat, p: nat)
    requires low <= 1 && p > 0
    ensures (2 * n + low) / (2 * p) == n / p
  {
    var q, r := n / p, n % p;
    assert n == q * p + r;
    assert 2 * n + low == q * (2 * p) + (2 * r + low);
    DivModUnique(2 * n + low, 2 * p, q, 2 * r + low);
  }

  lemma {:induction false} NumberDigit(w: seq<bool>, i: nat)
    requires i < |w|
    ensures Digit(Number(w), i) == w[i]
  {
    var low, rest := if w[0] then 1 else 0, Number(w[1..]);
    if i > 0 {
      NumberDigit(w[1..], i - 1);
      LowBitGone(rest, low, Pow2(i - 1));
    }
  }

  predicate Remains(crc: nat, e: nat) { e < 32 && !Digit(crc, 31 - e) }

  /** The stored number inverted, its low bit at the highest power. */
  ghost function Remainder(crc: nat): Poly { set e: nat | e < 32 && Remains(crc, e) }

  /** The checksum is the inverted remainder of the message on division by the generator of CRC-32C: message and
      remainder differ by a multiple of it, and the remainder is below its degree. */
  lemma ChecksumIsRemainder(kind: byte, payload: seq<byte>)
    ensures IsMultiple(Plus(Dividend(MessageBits([kind] + payload)), Remainder(Crc32c(kind, payload))))
    ensures forall e | e in Remainder(Crc32c(kind, payload)) :: e < 32
  {
    hide START, Dividend, Digit, MessageBits, Number;
    var s := [kind] + payload;
    var c := Register(START, s);
    RegisterIsFed(START, s);
    var ks := Congruent(MessageBits(s));
    forall e: nat
      ensures e in Remainder(Crc32c(kind, payload)) <==> e in RegisterPoly(c)
    {
      assert e in RegisterPoly(c) <==> RegisterTerm(c, e);
      assert e in Remainder(Crc32c(kind, payload)) <==> Remains(Crc32c(kind, payload), e);
      if e < 32 { NumberDigit(Not(c), 31 - e); }
    }
    assert Remainder(Crc32c(kind, payload)) == RegisterPoly(c);
  }
}
