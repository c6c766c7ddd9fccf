/** Well-formed UTF-8, table 3-7 of the Unicode standard: what makes a byte string a Rust string. */
module Utf8 {
  import opened Bytes

  predicate In(s: seq<byte>, i: nat, lo: byte, hi: byte) {
    i < |s| && lo <= s[i] <= hi
  }

  /** Bytes of the first scalar value, 0 when there is none. */
  function Width(s: seq<byte>): (n: nat)
    ensures n <= |s|
  {
    if s == [] then 0
    else if s[0] < 0x80 then 1
    else if 0xC2 <= s[0] <= 0xDF then if In(s, 1, 0x80, 0xBF) then 2 else 0
    else if 0xE0 <= s[0] <= 0xEF then
      var lo := if s[0] == 0xE0 then 0xA0 else 0x80;
      var hi := if s[0] == 0xED then 0x9F else 0xBF;
      if In(s, 1, lo, hi) && In(s, 2, 0x80, 0xBF) then 3 else 0
    else if 0xF0 <= s[0] <= 0xF4 then
      var lo := if s[0] == 0xF0 then 0x90 else 0x80;
      var hi := if s[0] == 0xF4 then 0x8F else 0xBF;
      if In(s, 1, lo, hi) && In(s, 2, 0x80, 0xBF) && In(s, 3, 0x80, 0xBF) then 4 else 0
    else 0
  }

  predicate Valid(s: seq<byte>)
    decreases |s|
  {
    s == [] || (Width(s) > 0 && Valid(s[Width(s)..]))
  }

  type text = s: seq<byte> | Valid(s) witness []

  lemma {:induction false} AsciiValid(s: seq<byte>)
    requires forall i | 0 <= i < |s| :: s[i] < 0x80
    ensures Valid(s)
    decreases |s|
  {
    if s != [] { AsciiValid(s[1..]); }
  }
}

/** Canonical records and their variable-length payload format. Floats are their bit patterns. */
module Records {
  import opened Wrappers
  import opened Bytes
  import Utf8

  type text = Utf8.text
  type u64 = x: int | 0 <= x < 0x1_0000_0000_0000_0000
  type i64 = x: int | -0x8000_0000_0000_0000 <= x < 0x8000_0000_0000_0000
  type u32 = x: int | 0 <= x < 0x1_0000_0000

  datatype Error = Schema | Codec | Wal | Segment

  datatype ExternalId = Int(v: u64) | Str(s: text)

  datatype Lifecycle = Live | Tombstone | Superseded

  datatype MetaValue =
    | IntValue(i: i64)
    | FloatValue(bits: u64)
    | BoolValue(b: bool)
    | StrValue(s: text)
    | BytesValue(raw: seq<byte>)

  datatype Record = Record(
    externalId: ExternalId,
    vector: seq<u32>,
    norm: Option<u32>,
    text: Option<text>,
    meta: seq<(text, MetaValue)>,
    lifecycle: Lifecycle)

  const NO_TEXT: nat := 0xFFFF_FFFF
  const NO_NORM: nat := 0xFFFF_FFFF

  /** A 32-bit pattern is finite unless its exponent is all ones. */
  predicate Finite(bits: u32) {
    bits / 0x80_0000 % 256 != 255
  }

  function Unsigned(i: i64): u64 {
    if i < 0 then i + 0x1_0000_0000_0000_0000 else i
  }

  function Signed(u: u64): i64 {
    if u >= 0x8000_0000_0000_0000 then u - 0x1_0000_0000_0000_0000 else u
  }

  // --- encoding ---

  function LifecycleByte(l: Lifecycle): byte {
    match l
    case Live => 0
    case Tombstone => 1
    case Superseded => 2
  }

  function IdBytes(id: ExternalId): seq<byte> {
    match id
    case Int(v) => [0] + LE(v, 8)
    case Str(s) => [1] + LE(|s|, 2) + s
  }

  function VectorBytes(v: seq<u32>): seq<byte> {
    if v == [] then [] else LE(v[0], 4) + VectorBytes(v[1..])
  }

  function NormBytes(n: Option<u32>): seq<byte> {
    match n
    case Some(bits) => LE(bits, 4)
    case None => LE(NO_NORM, 4)
  }

  function TextBytes(t: Option<text>): seq<byte> {
    match t
    case Some(s) => LE(|s|, 4) + s
    case None => LE(NO_TEXT, 4)
  }

  function ValueBytes(v: MetaValue): seq<byte> {
    match v
    case IntValue(i) => [0] + LE(Unsigned(i), 8)
    case FloatValue(bits) => [1] + LE(bits, 8)
    case BoolValue(b) => [2, if b then 1 else 0]
    case StrValue(s) => [3] + LE(|s|, 2) + s
    case BytesValue(raw) => [4] + LE(|raw|, 2) + raw
  }

  function MetaBytes(m: seq<(text, MetaValue)>): seq<byte> {
    if m == [] then [] else LE(|m[0].0|, 2) + m[0].0 + ValueBytes(m[0].1) + MetaBytes(m[1..])
  }

  function Body(r: Record): seq<byte> {
    [LifecycleByte(r.lifecycle)] + (IdBytes(r.externalId) + (LE(|r.vector|, 2) + (VectorBytes(r.vector)
    + (NormBytes(r.norm) + (TextBytes(r.text) + (LE(|r.meta|, 2) + MetaBytes(r.meta)))))))
  }

  predicate ValueEncodable(v: MetaValue) {
    (v.StrValue? ==> |v.s| <= 0xFFFF) && (v.BytesValue? ==> |v.raw| <= 0xFFFF)
  }

  /** The checks `encode` makes; note that it bounds neither string ids nor the number of entries. */
  predicate Encodable(r: Record) {
    && |r.vector| <= 0xFFFF
    && (r.text.Some? ==> |r.text.value| <= 0xFFFF_FFFF)
    && (forall i | 0 <= i < |r.meta| :: |r.meta[i].0| <= 0xFFFF && ValueEncodable(r.meta[i].1))
    && (forall i | 0 <= i < |r.vector| :: Finite(r.vector[i]))
    && (r.norm.Some? ==> Finite(r.norm.value))
  }

  function Encode(r: Record): Result<seq<byte>, Error> {
    if Encodable(r) then Ok(Body(r)) else Err(Schema)
  }

  lemma {:induction false} VectorBytesAppend(v: seq<u32>, x: u32)
    ensures VectorBytes(v + [x]) == VectorBytes(v) + LE(x, 4)
  {
    hide LE;
    if v == [] {
      assert [x][1..] == [];
    } else {
      VectorBytesAppend(v[1..], x);
      assert (v + [x])[1..] == v[1..] + [x];
    }
  }

  lemma {:induction false} MetaBytesAppend(m: seq<(text, MetaValue)>, e: (text, MetaValue))
    ensures MetaBytes(m + [e]) == MetaBytes(m) + (LE(|e.0|, 2) + e.0 + ValueBytes(e.1))
  {
    hide ValueBytes, LE;
    if m == [] {
      assert [e][1..] == [];
    } else {
      MetaBytesAppend(m[1..], e);
      assert (m + [e])[1..] == m[1..] + [e];
    }
  }

  lemma NothingYet()
    ensures VectorBytes([]) == [] && MetaBytes([]) == []
  {
  }

  lemma BodyParts(r: Record)
    ensures Body(r) == ([LifecycleByte(r.lifecycle)] + IdBytes(r.externalId) + LE(|r.vector|, 2))
      + VectorBytes(r.vector) + (NormBytes(r.norm) + TextBytes(r.text) + LE(|r.meta|, 2)) + MetaBytes(r.meta)
  {
    hide LE, IdBytes, NormBytes, TextBytes, VectorBytes, MetaBytes;
  }

  method EncodeRecord(r: Record) returns (res: Result<seq<byte>, Error>)
    ensures res == Encode(r)
  {
    hide LE, IdBytes, ValueBytes, NormBytes, TextBytes, VectorBytes, MetaBytes, Body, Finite, ValueEncodable;
    NothingYet();
    if |r.vector| > 0xFFFF {
      return Err(Schema);
    }
    if r.text.Some? && |r.text.value| > 0xFFFF_FFFF {
      return Err(Schema);
    }
    for i := 0 to |r.meta|
      invariant forall j | 0 <= j < i :: |r.meta[j].0| <= 0xFFFF
    {
      if |r.meta[i].0| > 0xFFFF {
        return Err(Schema);
      }
    }
    var head := [LifecycleByte(r.lifecycle)] + IdBytes(r.externalId) + LE(|r.vector|, 2);
    var vec: seq<byte> := [];
    for i := 0 to |r.vector|
      invariant vec == VectorBytes(r.vector[..i])
      invariant forall j | 0 <= j < i :: Finite(r.vector[j])
    {
      if !Finite(r.vector[i]) {
        return Err(Schema);
      }
      vec := vec + LE(r.vector[i], 4);
      VectorBytesAppend(r.vector[..i], r.vector[i]);
      assert r.vector[..i + 1] == r.vector[..i] + [r.vector[i]];
    }
    assert r.vector[..|r.vector|] == r.vector;
    if r.norm.Some? && !Finite(r.norm.value) {
      return Err(Schema);
    }
    var mid := NormBytes(r.norm) + TextBytes(r.text) + LE(|r.meta|, 2);
    var meta: seq<byte> := [];
    for i := 0 to |r.meta|
      invariant meta == MetaBytes(r.meta[..i])
      invariant forall j | 0 <= j < i :: ValueEncodable(r.meta[j].1)
    {
      if !ValueEncodable(r.meta[i].1) {
        return Err(Schema);
      }
      meta := meta + (LE(|r.meta[i].0|, 2) + r.meta[i].0 + ValueBytes(r.meta[i].1));
      MetaBytesAppend(r.meta[..i], r.meta[i]);
      assert r.meta[..i + 1] == r.meta[..i] + [r.meta[i]];
    }
    assert r.meta[..|r.meta|] == r.meta;
    BodyParts(r);
    return Ok(head + vec + mid + meta);
  }

  // --- decoding, as readers that return a value and what is left ---

  function ReadBytes(s: seq<byte>, n: nat): Option<(seq<byte>, seq<byte>)> {
    if |s| < n then None else Some((s[..n], s[n..]))
  }

  function ReadNum(s: seq<byte>, w: nat): (r: Option<(nat, seq<byte>)>)
    ensures r.Some? ==> r.value.0 < Pow256(w)
  {
    var (b, rest) :- ReadBytes(s, w);
    Some((FromLE(b), rest))
  }

  function ReadText(s: seq<byte>, n: nat): Option<(text, seq<byte>)> {
    var (b, rest) :- ReadBytes(s, n);
    if Utf8.Valid(b) then Some((b, rest)) else None
  }

  function ReadId(s: seq<byte>): Option<(ExternalId, seq<byte>)> {
    var (kind, s1) :- ReadNum(s, 1);
    if kind == 0 then
      var (v, rest) :- ReadNum(s1, 8);
      Widths();
      assert v < Pow256(8);
      Some((Int(v), rest))
    else if kind == 1 then
      var (n, s2) :- ReadNum(s1, 2);
      var (t, rest) :- ReadText(s2, n);
      Some((Str(t), rest))
    else None
  }

  function ReadWord(s: seq<byte>): Option<(u32, seq<byte>)> {
    var (n, rest) :- ReadNum(s, 4);
    Widths();
    assert n < Pow256(4);
    Some((n, rest))
  }

  function ReadVector(s: seq<byte>, dim: nat): Option<(seq<u32>, seq<byte>)> {
    if dim == 0 then Some(([], s)) else
    var (x, s1) :- ReadWord(s);
    if !Finite(x) then None else
    var (xs, rest) :- ReadVector(s1, dim - 1);
    Some(([x] + xs, rest))
  }

  function ReadNorm(s: seq<byte>): Option<(Option<u32>, seq<byte>)> {
    var (bits, rest) :- ReadWord(s);
    if bits == NO_NORM then Some((None, rest))
    else if Finite(bits) then Some((Some(bits), rest))
    else None
  }

  function ReadOptText(s: seq<byte>): Option<(Option<text>, seq<byte>)> {
    var (n, s1) :- ReadWord(s);
    if n == NO_TEXT then Some((None, s1)) else
    var (t, rest) :- ReadText(s1, n);
    Some((Some(t), rest))
  }

  function ReadValue(s: seq<byte>): Option<(MetaValue, seq<byte>)> {
    var (kind, s1) :- ReadNum(s, 1);
    Widths();
    if kind == 0 then
      var (n, rest) :- ReadNum(s1, 8);
      assert n < Pow256(8);
      Some((IntValue(Signed(n)), rest))
    else if kind == 1 then
      var (n, rest) :- ReadNum(s1, 8);
      assert n < Pow256(8);
      Some((FloatValue(n), rest))
    else if kind == 2 then
      var (n, rest) :- ReadNum(s1, 1);
      Some((BoolValue(n != 0), rest))
    else if kind == 3 then
      var (n, s2) :- ReadNum(s1, 2);
      var (t, rest) :- ReadText(s2, n);
      Some((StrValue(t), rest))
    else if kind == 4 then
      var (n, s2) :- ReadNum(s1, 2);
      var (raw, rest) :- ReadBytes(s2, n);
      Some((BytesValue(raw), rest))
    else None
  }

  function ReadEntry(s: seq<byte>): Option<((text, MetaValue), seq<byte>)> {
    var (n, s1) :- ReadNum(s, 2);
    var (key, s2) :- ReadText(s1, n);
    var (v, rest) :- ReadValue(s2);
    Some(((key, v), rest))
  }

  function ReadMeta(s: seq<byte>, count: nat): Option<(seq<(text, MetaValue)>, seq<byte>)> {
    if count == 0 then Some(([], s)) else
    var (e, s1) :- ReadEntry(s);
    var (es, rest) :- ReadMeta(s1, count - 1);
    Some(([e] + es, rest))
  }

  function LifecycleOf(n: nat): Option<Lifecycle> {
    if n == 0 then Some(Live) else if n == 1 then Some(Tombstone) else if n == 2 then Some(Superseded) else None
  }

  function ReadRecord(s: seq<byte>): Option<(Record, seq<byte>)> {
    var (l, s1) :- ReadNum(s, 1);
    var life :- LifecycleOf(l);
    var (id, s2) :- ReadId(s1);
    var (dim, s3) :- ReadNum(s2, 2);
    var (v, s4) :- ReadVector(s3, dim);
    var (norm, s5) :- ReadNorm(s4);
    var (t, s6) :- ReadOptText(s5);
    var (count, s7) :- ReadNum(s6, 2);
    var (meta, rest) :- ReadMeta(s7, count);
    Some((Record(id, v, norm, t, meta, life), rest))
  }

  function Decode(buf: seq<byte>): Result<Record, Error> {
    match ReadRecord(buf)
    case Some((r, rest)) => if rest == [] then Ok(r) else Err(Codec)
    case None => Err(Codec)
  }

  // --- the same readers over a buffer and an advancing offset ---

  /** A take at `off` did what the reader does on the rest of the buffer. */
  ghost predicate Took<T>(buf: seq<byte>, r: Option<(T, nat)>, spec: Option<(T, seq<byte>)>) {
    match (r, spec)
    case (Some((v, off')), Some((w, rest))) => v == w && off' <= |buf| && buf[off'..] == rest
    case (None, None) => true
    case _ => false
  }

  method TakeSlice(buf: seq<byte>, off: nat, n: nat) returns (r: Option<(seq<byte>, nat)>)
    requires off <= |buf|
    ensures Took(buf, r, ReadBytes(buf[off..], n))
  {
    if |buf| < off + n {
      return None;
    }
    assert buf[off..][..n] == buf[off..off + n] && buf[off..][n..] == buf[off + n..];
    return Some((buf[off..off + n], off + n));
  }

  method TakeNum(buf: seq<byte>, off: nat, w: nat) returns (r: Option<(nat, nat)>)
    requires off <= |buf|
    ensures Took(buf, r, ReadNum(buf[off..], w))
  {
    var b :- TakeSlice(buf, off, w);
    return Some((FromLE(b.0), b.1));
  }

  method TakeText(buf: seq<byte>, off: nat, n: nat) returns (r: Option<(text, nat)>)
    requires off <= |buf|
    ensures Took(buf, r, ReadText(buf[off..], n))
  {
    var b :- TakeSlice(buf, off, n);
    if !Utf8.Valid(b.0) {
      return None;
    }
    return Some((b.0, b.1));
  }

  method DecodeId(buf: seq<byte>, off: nat) returns (r: Option<(ExternalId, nat)>)
    requires off <= |buf|
    ensures Took(buf, r, ReadId(buf[off..]))
  {
    hide ReadNum, ReadText;
    Widths();
    var kind :- TakeNum(buf, off, 1);
    if kind.0 == 0 {
      var v :- TakeNum(buf, kind.1, 8);
      return Some((Int(v.0), v.1));
    } else if kind.0 == 1 {
      var n :- TakeNum(buf, kind.1, 2);
      var t :- TakeText(buf, n.1, n.0);
      return Some((Str(t.0), t.1));
    }
    return None;
  }

  method DecodeValue(buf: seq<byte>, off: nat) returns (r: Option<(MetaValue, nat)>)
    requires off <= |buf|
    ensures Took(buf, r, ReadValue(buf[off..]))
  {
    hide ReadNum, ReadText, ReadBytes;
    Widths();
    var kind :- TakeNum(buf, off, 1);
    match kind.0 {
      case 0 =>
        var n :- TakeNum(buf, kind.1, 8);
        return Some((IntValue(Signed(n.0)), n.1));
      case 1 =>
        var n :- TakeNum(buf, kind.1, 8);
        return Some((FloatValue(n.0), n.1));
      case 2 =>
        var n :- TakeNum(buf, kind.1, 1);
        return Some((BoolValue(n.0 != 0), n.1));
      case 3 =>
        var n :- TakeNum(buf, kind.1, 2);
        var t :- TakeText(buf, n.1, n.0);
        return Some((StrValue(t.0), t.1));
      case 4 =>
        var n :- TakeNum(buf, kind.1, 2);
        var raw :- TakeSlice(buf, n.1, n.0);
        return Some((BytesValue(raw.0), raw.1));
      case _ =>
        return None;
    }
  }

  lemma {:induction false} ShortVector(s: seq<byte>, dim: nat)
    requires |s| < 4 * dim
    ensures ReadVector(s, dim).None?
  {
    if ReadWord(s).Some? { ShortVector(s[4..], dim - 1); }
  }

  method DecodeVector(buf: seq<byte>, start: nat, dim: nat) returns (r: Option<(seq<u32>, nat)>)
    requires start <= |buf|
    ensures Took(buf, r, ReadVector(buf[start..], dim))
  {
    hide ReadNum;
    if |buf| < start + dim * 4 {
      ShortVector(buf[start..], dim);
      return None;
    }
    var vector: seq<u32> := [];
    var off: nat := start;
    PrependNothing(ReadVector(buf[start..], dim));
    for i := 0 to dim
      invariant off <= |buf|
      invariant ReadVector(buf[start..], dim) == Prepend(vector, ReadVector(buf[off..], dim - i))
    {
      Widths();
      var x :- TakeNum(buf, off, 4);
      if !Finite(x.0) {
        return None;
      }
      PrependMore(vector, x.0, ReadVector(buf[x.1..], dim - i - 1));
      vector := vector + [x.0];
      off := x.1;
    }
    assert vector + [] == vector;
    return Some((vector, off));
  }

  method DecodeMeta(buf: seq<byte>, start: nat, count: nat) returns (r: Option<(seq<(text, MetaValue)>, nat)>)
    requires start <= |buf|
    ensures Took(buf, r, ReadMeta(buf[start..], count))
  {
    hide ReadNum, ReadText, ReadValue;
    var meta: seq<(text, MetaValue)> := [];
    var off: nat := start;
    PrependNothing(ReadMeta(buf[start..], count));
    for i := 0 to count
      invariant off <= |buf|
      invariant ReadMeta(buf[start..], count) == Prepend(meta, ReadMeta(buf[off..], count - i))
    {
      var n :- TakeNum(buf, off, 2);
      var key :- TakeText(buf, n.1, n.0);
      var v :- DecodeValue(buf, key.1);
      PrependMore(meta, (key.0, v.0), ReadMeta(buf[v.1..], count - i - 1));
      meta := meta + [(key.0, v.0)];
      off := v.1;
    }
    assert meta + [] == meta;
    return Some((meta, off));
  }

  /** Elements already read, in front of what is read from the rest. */
  ghost function Prepend<T>(xs: seq<T>, r: Option<(seq<T>, seq<byte>)>): Option<(seq<T>, seq<byte>)> {
    match r
    case None => None
    case Some((ys, rest)) => Some((xs + ys, rest))
  }

  lemma PrependNothing<T>(r: Option<(seq<T>, seq<byte>)>)
    ensures Prepend([], r) == r
  {
    if r.Some? { assert [] + r.value.0 == r.value.0; }
  }

  lemma PrependMore<T>(xs: seq<T>, x: T, r: Option<(seq<T>, seq<byte>)>)
    ensures Prepend(xs, Prepend([x], r)) == Prepend(xs + [x], r)
  {
    if r.Some? { assert xs + ([x] + r.value.0) == (xs + [x]) + r.value.0; }
  }

  method DecodeRecord(buf: seq<byte>) returns (res: Result<Record, Error>)
    ensures res == Decode(buf)
  {
    var r := DecodePrefix(buf);
    if r.None? || r.value.1 != |buf| {
      return Err(Codec);
    }
    return Ok(r.value.0);
  }

  method DecodePrefix(buf: seq<byte>) returns (r: Option<(Record, nat)>)
    ensures Took(buf, r, ReadRecord(buf))
  {
    hide ReadNum, ReadId, ReadVector, ReadText, ReadMeta;
    assert buf[0..] == buf;
    var l :- TakeNum(buf, 0, 1);
    var life := LifecycleOf(l.0);
    if life.None? {
      return None;
    }
    var id :- DecodeId(buf, l.1);
    var dim :- TakeNum(buf, id.1, 2);
    var v :- DecodeVector(buf, dim.1, dim.0);
    Widths();
    var normBits :- TakeNum(buf, v.1, 4);
    var norm: Option<u32> := None;
    if normBits.0 != NO_NORM {
      if !Finite(normBits.0) {
        return None;
      }
      norm := Some(normBits.0);
    }
    var len :- TakeNum(buf, normBits.1, 4);
    var t: Option<text> := None;
    var off := len.1;
    if len.0 != NO_TEXT {
      var s :- TakeText(buf, len.1, len.0);
      t, off := Some(s.0), s.1;
    }
    var count :- TakeNum(buf, off, 2);
    var meta :- DecodeMeta(buf, count.1, count.0);
    return Some((Record(id.0, v.0, norm, t, meta.0, life.value), meta.1));
  }
}
