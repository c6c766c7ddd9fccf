/** CRC-32C as in section 13.1 of RFC 7143, with the frame kind chained in front of the payload.
    The 32-bit register is a vector of booleans, least significant bit first. */
module Crc {
  import opened Bytes

  type word = w: seq<bool> | |w| == 32 witness seq(32, i => false)

  const POLY: nat := 0x82F6_3B78

  /** The binary digits of a number, least significant first. */
  function Bits(n: nat): word {
    seq(32, i requires 0 <= i < 32 => Digit(n, i))
  }

  predicate Digit(n: nat, i: nat) {
    n / Pow2(i) % 2 == 1
  }

  function Number(w: seq<bool>): nat {
    if w == [] then 0 else (if w[0] then 1 else 0) + 2 * Number(w[1..])
  }

  function Xor(a: word, b: word): word {
    seq(32, i requires 0 <= i < 32 => a[i] != b[i])
  }

  function Not(a: word): word {
    seq(32, i requires 0 <= i < 32 => !a[i])
  }

  function Shr1(a: word): word {
    a[1..] + [false]
  }

  /** One shift of the register: the polynomial is folded in when the bit shifted out is set. */
  function BitStep(c: word): word {
    if c[0] then Xor(Shr1(c), Bits(POLY)) else Shr1(c)
  }

  function BitSteps(c: word, n: nat): word {
    if n == 0 then c else BitStep(BitSteps(c, n - 1))
  }

  function ByteStep(c: word, b: byte): word {
    BitSteps(Xor(c, Bits(b)), 8)
  }

  function Register(c: word, s: seq<byte>): word
    decreases |s|
  {
    if s == [] then c else ByteStep(Register(c, s[..|s| - 1]), s[|s| - 1])
  }

  const START: word := Bits(0xFFFF_FFFF)

  /** The checksum as the number that is stored in the frame. */
  function Crc32c(kind: byte, payload: seq<byte>): nat {
    Number(Not(Register(START, [kind] + payload)))
  }

  method ComputeCrc32c(kind: byte, payload: seq<byte>) returns (r: nat)
    ensures r == Crc32c(kind, payload)
  {
    hide Bits, Number;
    var crc: word := START;
    var chain := [kind] + payload;
    for i := 0 to |chain|
      invariant crc == Register(START, chain[..i])
    {
      ghost var before := crc;
      crc := Xor(crc, Bits(chain[i]));
      for n := 0 to 8
        invariant crc == BitSteps(Xor(before, Bits(chain[i])), n)
      {
        var low := crc[0];
        crc := Shr1(crc);
        if low { crc := Xor(crc, Bits(POLY)); }
      }
      assert chain[..i + 1][..i] == chain[..i];
    }
    assert chain[..|chain|] == chain;
    r := Number(Not(crc));
  }

  lemma {:induction false} NumberInjective(a: seq<bool>, b: seq<bool>)
    requires |a| == |b| && Number(a) == Number(b)
    ensures a == b
  {
    if a != [] {
      assert a[0] == b[0] && Number(a[1..]) == Number(b[1..]);
      NumberInjective(a[1..], b[1..]);
      assert a == [a[0]] + a[1..] && b == [b[0]] + b[1..];
    }
  }

  /** Numbers with the same low digits agree modulo the power of two. */
  lemma {:induction false} SameDigits(a: nat, b: nat, n: nat)
    requires forall i | 0 <= i < n :: Digit(a, i) == Digit(b, i)
    ensures a % Pow2(n) == b % Pow2(n)
  {
    if n > 0 {
      SameDigits(a, b, n - 1);
      assert Digit(a, n - 1) == Digit(b, n - 1);
      var p := Pow2(n - 1);
      LastDigit(a, p);
      LastDigit(b, p);
    }
  }

  lemma LastDigit(n: nat, p: nat)
    requires p > 0
    ensures n % (2 * p) == n % p + n / p % 2 * p
  {
    var q, r := n / p, n % p;
    assert n == q * p + r == (q / 2) * (2 * p) + (q % 2 * p + r);
    DivModUnique(n, 2 * p, q / 2, q % 2 * p + r);
  }

  lemma {:induction false} NumberRange(w: seq<bool>)
    ensures Number(w) < Pow2(|w|)
  {
    if w != [] { NumberRange(w[1..]); }
  }

  /** The checksum always fits its four bytes. */
  lemma CrcFits(kind: byte, payload: seq<byte>)
    ensures Crc32c(kind, payload) < Pow256(4)
  {
    NumberRange(Not(Register(START, [kind] + payload)));
    Pow2And256(4);
  }

  lemma {:induction false} Pow2And256(w: nat)
    ensures Pow2(8 * w) == Pow256(w)
  {
    if w > 0 {
      Pow2And256(w - 1);
      var k := 8 * (w - 1);
      assert Pow2(k + 2) == 4 * Pow2(k);
      assert Pow2(k + 4) == 4 * Pow2(k + 2);
      assert Pow2(k + 6) == 4 * Pow2(k + 4);
      assert Pow2(k + 8) == 4 * Pow2(k + 6);
    }
  }

  lemma XorCancels(a: word, b: word, x: word)
    requires Xor(a, x) == Xor(b, x)
    ensures a == b
  {
    forall i | 0 <= i < 32
      ensures a[i] == b[i]
    {
      assert Xor(a, x)[i] == Xor(b, x)[i];
    }
  }

  lemma XorSymmetric(a: word, b: word)
    ensures Xor(a, b) == Xor(b, a)
  {
  }

  lemma PolyTopBit()
    ensures Bits(POLY)[31]
  {
    Pow2And256(4);
    Widths();
    assert Pow2(32) == 2 * Pow2(31);
    assert POLY / 0x8000_0000 % 2 == 1;
  }

  /** The top bit of the polynomial is set, so a shift loses nothing. */
  lemma BitStepInjective(c: word, d: word)
    requires BitStep(c) == BitStep(d)
    ensures c == d
  {
    PolyTopBit();
    assert BitStep(c)[31] == c[0] && BitStep(d)[31] == d[0];
    if c[0] { XorCancels(Shr1(c), Shr1(d), Bits(POLY)); }
    forall i | 0 < i < 32
      ensures c[i] == d[i]
    {
      assert Shr1(c)[i - 1] == Shr1(d)[i - 1];
    }
  }

  lemma {:induction false} BitStepsInjective(c: word, d: word, n: nat)
    requires BitSteps(c, n) == BitSteps(d, n)
    ensures c == d
  {
    if n > 0 {
      BitStepInjective(BitSteps(c, n - 1), BitSteps(d, n - 1));
      BitStepsInjective(c, d, n - 1);
    }
  }

  /** A byte step is injective in the register and in the byte. */
  lemma ByteStepInjective(c: word, d: word, a: byte, b: byte)
    requires ByteStep(c, a) == ByteStep(d, b)
    ensures c == d ==> a == b
    ensures a == b ==> c == d
  {
    BitStepsInjective(Xor(c, Bits(a)), Xor(d, Bits(b)), 8);
    if a == b {
      XorCancels(c, d, Bits(a));
    } else if c == d {
      XorSymmetric(c, Bits(a));
      XorSymmetric(c, Bits(b));
      XorCancels(Bits(a), Bits(b), c);
      forall i | 0 <= i < 8
        ensures Digit(a, i) == Digit(b, i)
      {
        assert Bits(a)[i] == Bits(b)[i];
      }
      SameDigits(a, b, 8);
      Pow2And256(1);
    }
  }

  lemma {:induction false} RegisterInjective(c: word, s: seq<byte>, i: nat, b: byte)
    requires i < |s| && b != s[i]
    ensures Register(c, s[i := b]) != Register(c, s)
    decreases |s|
  {
    var t, last := s[i := b], |s| - 1;
    assert i == last ==> t[..last] == s[..last];
    assert i < last ==> t[..last] == s[..last][i := b];
    if i < last { RegisterInjective(c, s[..last], i, b); }
    if Register(c, t) == Register(c, s) {
      ByteStepInjective(Register(c, t[..last]), Register(c, s[..last]), t[last], s[last]);
    }
  }

  lemma ComplementInjective(a: word, b: word)
    requires Number(Not(a)) == Number(Not(b))
    ensures a == b
  {
    NumberInjective(Not(a), Not(b));
    forall i | 0 <= i < 32
      ensures a[i] == b[i]
    {
      assert Not(a)[i] == Not(b)[i];
    }
  }

  /** Changing the kind byte always changes the checksum. */
  lemma KindChangesCrc(kind: byte, kind': byte, payload: seq<byte>)
    requires kind != kind'
    ensures Crc32c(kind', payload) != Crc32c(kind, payload)
  {
    var s := [kind] + payload;
    assert s[0 := kind'] == [kind'] + payload;
    RegisterInjective(START, s, 0, kind');
    if Crc32c(kind', payload) == Crc32c(kind, payload) {
      ComplementInjective(Register(START, [kind'] + payload), Register(START, s));
    }
  }

  /** Changing any one payload byte always changes the checksum. */
  lemma PayloadChangesCrc(kind: byte, payload: seq<byte>, i: nat, b: byte)
    requires i < |payload| && b != payload[i]
    ensures Crc32c(kind, payload[i := b]) != Crc32c(kind, payload)
  {
    var s := [kind] + payload;
    assert s[i + 1 := b] == [kind] + payload[i := b];
    RegisterInjective(START, s, i + 1, b);
    if Crc32c(kind, payload[i := b]) == Crc32c(kind, payload) {
      ComplementInjective(Register(START, [kind] + payload[i := b]), Register(START, s));
    }
  }
}
