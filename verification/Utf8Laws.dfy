/** Well-formed UTF-8 is what encodes a sequence of Unicode scalar values. */
module Utf8Laws {
  import opened Bytes
  import opened Utf8

  /** A code point that is not a surrogate. */
  type scalar = c: int | 0 <= c < 0x11_0000 && !(0xD800 <= c < 0xE000)

  /** Six bits in a byte that continues a scalar value. */
  function Tail(n: nat): byte { 0x80 + n % 64 }

  function EncodeScalar(c: scalar): seq<byte> {
    if c < 0x80 then [c]
    else if c < 0x800 then [0xC0 + c / 64, Tail(c)]
    else if c < 0x1_0000 then [0xE0 + c / 4096, Tail(c / 64), Tail(c)]
    else [0xF0 + c / 262144, Tail(c / 4096), Tail(c / 64), Tail(c)]
  }

  function EncodeScalars(cs: seq<scalar>): seq<byte> {
    if cs == [] then [] else EncodeScalar(cs[0]) + EncodeScalars(cs[1..])
  }

  /** The first two bytes of a scalar value: no overlong form, no surrogate, nothing beyond the last code point. */
  lemma LeadingBytes(c: scalar)
    ensures 0x80 <= c < 0x800 ==> 0xC2 <= 0xC0 + c / 64 <= 0xDF
    ensures 0x800 <= c < 0x1_0000 ==> 0 <= c / 4096 <= 15
    ensures 0x800 <= c < 0x1000 ==> c / 4096 == 0 && Tail(c / 64) >= 0xA0
    ensures 0x1000 <= c < 0x1_0000 ==> c / 4096 > 0 && (c / 4096 == 13 ==> Tail(c / 64) <= 0x9F)
    ensures 0x1_0000 <= c ==> 0 <= c / 262144 <= 4
    ensures 0x1_0000 <= c < 0x4_0000 ==> c / 262144 == 0 && Tail(c / 4096) >= 0x90
    ensures 0x4_0000 <= c ==> c / 262144 > 0 && (c / 262144 == 4 ==> Tail(c / 4096) <= 0x8F)
  {
  }

  lemma ScalarWidth(c: scalar, s: seq<byte>)
    ensures Width(EncodeScalar(c) + s) == |EncodeScalar(c)|
  {
    LeadingBytes(c);
    if c < 0x80 {
      WidthOne(c, s);
    } else if c < 0x800 {
      WidthTwo(0xC0 + c / 64, Tail(c), s);
    } else if c < 0x1_0000 {
      WidthThree(0xE0 + c / 4096, Tail(c / 64), Tail(c), s);
    } else {
      WidthFour(0xF0 + c / 262144, Tail(c / 4096), Tail(c / 64), Tail(c), s);
    }
  }

  lemma WidthOne(a: byte, s: seq<byte>)
    requires a < 0x80
    ensures Width([a] + s) == 1
  {
  }

  lemma WidthTwo(a: byte, b: byte, s: seq<byte>)
    requires 0xC2 <= a <= 0xDF && 0x80 <= b <= 0xBF
    ensures Width([a, b] + s) == 2
  {
  }

  lemma WidthThree(a: byte, b: byte, d: byte, s: seq<byte>)
    requires 0xE0 <= a <= 0xEF && 0x80 <= b <= 0xBF && 0x80 <= d <= 0xBF
    requires (a == 0xE0 ==> b >= 0xA0) && (a == 0xED ==> b <= 0x9F)
    ensures Width([a, b, d] + s) == 3
  {
  }

  lemma WidthFour(a: byte, b: byte, d: byte, e: byte, s: seq<byte>)
    requires 0xF0 <= a <= 0xF4 && 0x80 <= b <= 0xBF && 0x80 <= d <= 0xBF && 0x80 <= e <= 0xBF
    requires (a == 0xF0 ==> b >= 0x90) && (a == 0xF4 ==> b <= 0x8F)
    ensures Width([a, b, d, e] + s) == 4
  {
  }

  /** The bits of up to four bytes, six from each but the first. */
  function Joined(a: int, b: int, c: int, d: int): int { a * 262144 + b * 4096 + c * 64 + d }

  lemma JoinedParts(a: int, b: int, c: int, d: int)
    requires 0 <= a && 0 <= b < 64 && 0 <= c < 64 && 0 <= d < 64
    ensures var n := Joined(a, b, c, d);
      && n / 262144 == a && n / 4096 == a * 64 + b && n / 4096 % 64 == b && n / 64 % 64 == c && n % 64 == d
      && n / 64 == a * 4096 + b * 64 + c
  {
    var n := Joined(a, b, c, d);
    DivModUnique(n, 64, a * 4096 + b * 64 + c, d);
    DivModUnique(n, 4096, a * 64 + b, c * 64 + d);
    DivModUnique(n, 262144, a, b * 4096 + c * 64 + d);
    DivModUnique(n / 64, 64, a * 64 + b, c);
    DivModUnique(n / 4096, 64, a, b);
  }

  /** The first bytes encode a scalar value. */
  lemma ScalarFound(s: seq<byte>) returns (c: scalar)
    requires Width(s) > 0
    ensures s[..Width(s)] == EncodeScalar(c)
  {
    hide Joined;
    var n := Width(s);
    if n == 1 {
      c := s[0];
    } else if n == 2 {
      c := TwoBytes(s[0], s[1]);
      assert s[..2] == [s[0], s[1]];
    } else if n == 3 {
      c := ThreeBytes(s[0], s[1], s[2]);
      assert s[..3] == [s[0], s[1], s[2]];
    } else {
      c := FourBytes(s[0], s[1], s[2], s[3]);
      assert s[..4] == [s[0], s[1], s[2], s[3]];
    }
  }

  lemma TwoBytes(a: byte, b: byte) returns (c: scalar)
    requires 0xC2 <= a <= 0xDF && 0x80 <= b <= 0xBF
    ensures EncodeScalar(c) == [a, b]
  {
    var x: int, y: int := a - 0xC0, b - 0x80;
    JoinedParts(0, 0, x, y);
    c := Joined(0, 0, x, y);
  }

  lemma ThreeBytes(a: byte, b: byte, d: byte) returns (c: scalar)
    requires 0xE0 <= a <= 0xEF && 0x80 <= b <= 0xBF && 0x80 <= d <= 0xBF
    requires (a == 0xE0 ==> b >= 0xA0) && (a == 0xED ==> b <= 0x9F)
    ensures EncodeScalar(c) == [a, b, d]
  {
    var x: int, y: int, z: int := a - 0xE0, b - 0x80, d - 0x80;
    JoinedParts(0, x, y, z);
    c := Joined(0, x, y, z);
  }

  lemma FourBytes(a: byte, b: byte, d: byte, e: byte) returns (c: scalar)
    requires 0xF0 <= a <= 0xF4 && 0x80 <= b <= 0xBF && 0x80 <= d <= 0xBF && 0x80 <= e <= 0xBF
    requires (a == 0xF0 ==> b >= 0x90) && (a == 0xF4 ==> b <= 0x8F)
    ensures EncodeScalar(c) == [a, b, d, e]
  {
    var w: int, x: int, y: int, z: int := a - 0xF0, b - 0x80, d - 0x80, e - 0x80;
    JoinedParts(w, x, y, z);
    c := Joined(w, x, y, z);
  }

  lemma {:induction false} EncodedIsValid(cs: seq<scalar>)
    ensures Valid(EncodeScalars(cs))
    decreases |cs|
  {
    hide Width, EncodeScalar;
    if cs != [] {
      var e, rest := EncodeScalar(cs[0]), EncodeScalars(cs[1..]);
      EncodedIsValid(cs[1..]);
      ScalarWidth(cs[0], rest);
      assert e != [] by { SomeBytes(cs[0]); }
      assert (e + rest)[|e|..] == rest;
    }
  }

  lemma SomeBytes(c: scalar)
    ensures EncodeScalar(c) != []
  {
  }

  lemma {:induction false} ValidIsEncoded(s: seq<byte>) returns (cs: seq<scalar>)
    requires Valid(s)
    ensures s == EncodeScalars(cs)
    decreases |s|
  {
    hide Width, EncodeScalar;
    if s == [] {
      cs := [];
    } else {
      var n := Width(s);
      var rest := ValidIsEncoded(s[n..]);
      var c := ScalarFound(s);
      cs := [c] + rest;
      assert cs[1..] == rest;
      assert s == s[..n] + s[n..];
    }
  }

  /** A byte string is a string if and only if it encodes scalar values: nothing overlong, no surrogates, and
      nothing beyond the last code point. */
  lemma ValidIff(s: seq<byte>)
    ensures Valid(s) <==> exists cs :: s == EncodeScalars(cs)
  {
    hide Valid, EncodeScalars;
    if Valid(s) { var cs := ValidIsEncoded(s); }
    if cs :| s == EncodeScalars(cs) { EncodedIsValid(cs); }
  }
}
