/** Bytes and fixed-width little-endian integers. `LE(n, w)` keeps the low `w` bytes of `n`,
    which is what an `as u16` / `as u32` cast followed by `to_le_bytes` does. */
module Bytes {

  type byte = x: int | 0 <= x < 256

  function Pow256(w: nat): (r: nat)
    ensures r > 0
  {
    if w == 0 then 1 else 256 * Pow256(w - 1)
  }

  function Pow2(n: nat): (r: nat)
    ensures r > 0
  {
    if n == 0 then 1 else 2 * Pow2(n - 1)
  }

  function LE(n: nat, w: nat): (s: seq<byte>)
    ensures |s| == w
  {
    if w == 0 then [] else [n % 256] + LE(n / 256, w - 1)
  }

  function FromLE(s: seq<byte>): (n: nat)
    ensures n < Pow256(|s|)
  {
    if s == [] then 0 else s[0] + 256 * FromLE(s[1..])
  }

  /** The lowest byte comes first. */
  lemma {:induction false} LEBytes(n: nat, w: nat, i: nat)
    requires i < w
    ensures LE(n, w)[i] == n / Pow256(i) % 256
  {
    if i > 0 {
      LEBytes(n / 256, w - 1, i - 1);
      QuotientBy256(n, Pow256(i - 1));
    }
  }

  lemma QuotientBy256(n: nat, p: nat)
    requires p > 0
    ensures n / 256 / p == n / (256 * p)
  {
    var q, r := n / 256, n % 256;
    var a, b := q / p, q % p;
    assert n == 256 * (a * p + b) + r == a * (256 * p) + (256 * b + r);
    DivModUnique(n, 256 * p, a, 256 * b + r);
  }

  lemma Widths()
    ensures Pow256(1) == 256
    ensures Pow256(2) == 0x1_0000
    ensures Pow256(4) == 0x1_0000_0000
    ensures Pow256(8) == 0x1_0000_0000_0000_0000
  {
    assert Pow256(3) == 256 * Pow256(2);
    assert Pow256(5) == 256 * Pow256(4);
    assert Pow256(6) == 256 * Pow256(5);
    assert Pow256(7) == 256 * Pow256(6);
  }

  /** Reading back what was written yields the value truncated to the width. */
  lemma {:induction false} FromToLE(n: nat, w: nat)
    ensures FromLE(LE(n, w)) == n % Pow256(w)
  {
    if w > 0 {
      FromToLE(n / 256, w - 1);
      ModSplit(n, Pow256(w - 1));
      assert LE(n, w)[1..] == LE(n / 256, w - 1);
    }
  }

  /** A value that fits its width survives. */
  lemma FitsLE(n: nat, w: nat)
    requires n < Pow256(w)
    ensures FromLE(LE(n, w)) == n
  {
    FromToLE(n, w);
  }

  lemma ModSplit(n: nat, p: nat)
    requires p > 0
    ensures n % (256 * p) == n % 256 + 256 * ((n / 256) % p)
  {
    var q, r := n / 256, n % 256;
    var a, b := q / p, q % p;
    assert n == 256 * (a * p + b) + r == a * (256 * p) + (256 * b + r);
    DivModUnique(n, 256 * p, a, 256 * b + r);
  }

  lemma DivModUnique(n: nat, d: nat, a: nat, r: nat)
    requires n == a * d + r && r < d
    ensures n / d == a && n % d == r
  {
    var q, t := n / d, n % d;
    assert n == q * d + t && t < d;
    assert (a - q) * d == a * d - q * d && (q - a) * d == q * d - a * d;
    if q < a { MulAtLeast(a - q, d); } else if q > a { MulAtLeast(q - a, d); }
  }

  lemma MulAtLeast(k: nat, d: nat)
    requires k >= 1
    ensures k * d >= d
  {
  }

  /** Every byte string is the encoding of the number it denotes. */
  lemma {:induction false} ToFromLE(s: seq<byte>)
    ensures LE(FromLE(s), |s|) == s
  {
    if s != [] {
      ToFromLE(s[1..]);
      assert FromLE(s) % 256 == s[0] && FromLE(s) / 256 == FromLE(s[1..]);
    }
  }
}
