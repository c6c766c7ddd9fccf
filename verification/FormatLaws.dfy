/** The formats in plain bytes: where every field stands, and exactly which files are read. */
module FormatLaws {
  import opened Wrappers
  import opened Bytes
  import opened Records
  import opened Wal

  // --- fields ---

  /** The number written behind `a` in w bytes, as it reads back. */
  lemma Field(b: seq<byte>, a: seq<byte>, n: nat, w: nat, rest: seq<byte>)
    requires b == a + (LE(n, w) + rest)
    ensures |b| == |a| + w + |rest| && FromLE(b[|a|..|a| + w]) == n % Pow256(w)
  {
    hide LE, FromLE;
    FromToLE(n, w);
    assert b[|a|..|a| + w] == LE(n, w);
  }

  lemma FiniteIff(bits: u32)
    ensures Finite(bits) <==> bits % 0x8000_0000 < 0x7F80_0000
  {
  }

  lemma TwosComplement(i: i64)
    ensures Unsigned(i) == i % 0x1_0000_0000_0000_0000
    ensures Signed(Unsigned(i)) == i
  {
  }

  // --- records ---

  function IdSize(id: ExternalId): nat { if id.Int? then 9 else 3 + |id.s| }

  function TextSize(t: Option<text>): nat { if t.Some? then |t.value| else 0 }

  /** First the lifecycle, the id and the dimension. */
  lemma RecordHead(r: Record)
    ensures var b, p := Body(r), 1 + IdSize(r.externalId);
      && |b| >= p + 2 && FromLE(b[p..p + 2]) == |r.vector| % 0x1_0000
      && b[0] == (if r.lifecycle.Live? then 0 else if r.lifecycle.Tombstone? then 1 else 2)
      && (r.externalId.Int? ==> b[1] == 0 && FromLE(b[2..10]) == r.externalId.v)
      && (r.externalId.Str? ==>
            b[1] == 1 && FromLE(b[2..4]) == |r.externalId.s| % 0x1_0000 && b[4..p] == r.externalId.s)
  {
    hide LE, FromLE, VectorBytes, MetaBytes, Body, IdBytes, NormBytes, TextBytes;
    var id := IdBytes(r.externalId);
    var front := [LifecycleByte(r.lifecycle)] + id;
    Widths();
    IdLayout(r.externalId);
    BodyFrom(r);
    var behind := VectorBytes(r.vector)
      + (NormBytes(r.norm) + (TextBytes(r.text) + (LE(|r.meta|, 2) + MetaBytes(r.meta))));
    Field(Body(r), front, |r.vector|, 2, behind);
    IdFields(Body(r), [LifecycleByte(r.lifecycle)], r.externalId, LE(|r.vector|, 2) + behind);
  }

  /** Then its components, four bytes each. */
  lemma RecordVector(r: Record, i: nat)
    requires i < |r.vector|
    ensures var b, q := Body(r), 3 + IdSize(r.externalId) + 4 * i; |b| >= q + 4 && FromLE(b[q..q + 4]) == r.vector[i]
  {
    hide LE, FromLE, VectorBytes, MetaBytes, Body, IdBytes, NormBytes, TextBytes;
    var b, v := Body(r), VectorBytes(r.vector);
    IdLayout(r.externalId);
    BodyFrom(r);
    Component(r.vector, i);
    RecordPieces(r);
    var k := 3 + IdSize(r.externalId);
    assert b[k..k + |v|][4 * i..4 * i + 4] == b[k + 4 * i..k + 4 * i + 4];
  }

  lemma RecordPieces(r: Record)
    ensures var b, k := Body(r), 3 + IdSize(r.externalId);
      var v, norm, t := VectorBytes(r.vector), NormBytes(r.norm), TextBytes(r.text);
      var q := k + |v| + |norm|;
      && |b| >= q + |t| && b[k..k + |v|] == v && b[k + |v|..q] == norm && b[q..q + |t|] == t
      && b[q + |t|..] == LE(|r.meta|, 2) + MetaBytes(r.meta)
  {
    hide LE, FromLE, VectorBytes, MetaBytes, Body, IdBytes, NormBytes, TextBytes;
    IdLayout(r.externalId);
    BodyFrom(r);
    Pieces(Body(r), [LifecycleByte(r.lifecycle)], IdBytes(r.externalId), LE(|r.vector|, 2), VectorBytes(r.vector),
           NormBytes(r.norm), TextBytes(r.text), LE(|r.meta|, 2) + MetaBytes(r.meta));
  }

  /** Then the norm, the text behind its length, the number of entries, and the entries. */
  lemma RecordTail(r: Record)
    ensures var b, q := Body(r), 3 + IdSize(r.externalId) + 4 * |r.vector|;
      var t := q + 8 + TextSize(r.text);
      && |b| >= t + 2
      && FromLE(b[q..q + 4]) == (if r.norm.Some? then r.norm.value else 0xFFFF_FFFF)
      && FromLE(b[q + 4..q + 8]) == (if r.text.Some? then |r.text.value| % 0x1_0000_0000 else 0xFFFF_FFFF)
      && (r.text.Some? ==> b[q + 8..t] == r.text.value)
      && FromLE(b[t..t + 2]) == |r.meta| % 0x1_0000 && b[t + 2..] == MetaBytes(r.meta)
  {
    hide LE, FromLE, VectorBytes, MetaBytes, Body, IdBytes, NormBytes, TextBytes;
    var b, q := Body(r), 3 + IdSize(r.externalId) + 4 * |r.vector|;
    var t := q + 8 + TextSize(r.text);
    Widths();
    VectorBytesSize(r.vector);
    NormLayout(r.norm);
    TextLayout(r.text);
    RecordPieces(r);
    TextFields(b, r.text, TextBytes(r.text), q + 4);
    Field(b, b[..t], |r.meta|, 2, MetaBytes(r.meta));
  }

  lemma BodyFrom(r: Record)
    ensures var front := [LifecycleByte(r.lifecycle)] + IdBytes(r.externalId);
      var v, norm, t, m := VectorBytes(r.vector), NormBytes(r.norm), TextBytes(r.text), MetaBytes(r.meta);
      && Body(r) == front + (LE(|r.vector|, 2) + (v + (norm + (t + (LE(|r.meta|, 2) + m)))))
      && Body(r) == front + LE(|r.vector|, 2) + v + norm + t + (LE(|r.meta|, 2) + m)
  {
    hide LE, VectorBytes, MetaBytes, IdBytes, NormBytes, TextBytes;
  }

  /** Seven pieces in a row, each where it starts. */
  lemma Pieces(b: seq<byte>, l: seq<byte>, i: seq<byte>, d: seq<byte>, v: seq<byte>, n: seq<byte>, t: seq<byte>,
               m: seq<byte>)
    requires b == l + i + d + v + n + t + m
    ensures b[..|l|] == l && b[|l|..|l| + |i|] == i
    ensures var k := |l| + |i| + |d|; b[k..k + |v|] == v && b[k + |v|..k + |v| + |n|] == n
    ensures var k := |l| + |i| + |d| + |v| + |n|; b[k..k + |t|] == t && b[k + |t|..] == m
  {
  }

  lemma {:induction false} VectorBytesSize(v: seq<u32>)
    ensures |VectorBytes(v)| == 4 * |v|
  {
    if v != [] { VectorBytesSize(v[1..]); }
  }

  lemma {:induction false} Component(v: seq<u32>, i: nat)
    requires i < |v|
    ensures |VectorBytes(v)| == 4 * |v| && FromLE(VectorBytes(v)[4 * i..4 * i + 4]) == v[i]
  {
    hide LE, FromLE;
    VectorBytesSize(v);
    VectorBytesSize(v[1..]);
    Widths();
    if i == 0 {
      FitsLE(v[0], 4);
      assert VectorBytes(v)[..4] == LE(v[0], 4);
    } else {
      Component(v[1..], i - 1);
      assert VectorBytes(v)[4 * i..4 * i + 4] == VectorBytes(v[1..])[4 * (i - 1)..4 * (i - 1) + 4];
    }
  }

  lemma IdLayout(id: ExternalId)
    ensures |IdBytes(id)| == IdSize(id)
  {
    hide LE;
  }

  lemma NormLayout(n: Option<u32>)
    ensures |NormBytes(n)| == 4 && FromLE(NormBytes(n)) == if n.Some? then n.value else 0xFFFF_FFFF
  {
    hide LE, FromLE;
    Widths();
    FitsLE(if n.Some? then n.value else 0xFFFF_FFFF, 4);
  }

  lemma TextLayout(t: Option<text>)
    ensures |TextBytes(t)| == 4 + TextSize(t)
  {
    hide LE;
  }

  lemma IdFields(b: seq<byte>, front: seq<byte>, id: ExternalId, rest: seq<byte>)
    requires |front| == 1 && b == front + IdBytes(id) + rest
    ensures id.Int? ==> |b| >= 10 && b[1] == 0 && FromLE(b[2..10]) == id.v
    ensures id.Str? ==> |b| >= 4 + |id.s| && b[1] == 1 && b[4..4 + |id.s|] == id.s
    ensures id.Str? ==> FromLE(b[2..4]) == |id.s| % 0x1_0000
  {
    hide LE, FromLE;
    Widths();
    match id
    case Int(v) =>
      assert b == front + [0] + LE(v, 8) + rest;
      FitsLE(v, 8);
      assert b[2..10] == LE(v, 8);
    case Str(s) =>
      assert b == front + [1] + LE(|s|, 2) + s + rest;
      FromToLE(|s|, 2);
      assert b[2..4] == LE(|s|, 2);
  }

  lemma TextFields(b: seq<byte>, t: Option<text>, bytes: seq<byte>, k: nat)
    requires bytes == TextBytes(t) && |b| >= k + |bytes| && b[k..k + |bytes|] == bytes
    ensures |bytes| >= 4
    ensures FromLE(b[k..k + 4]) == if t.Some? then |t.value| % 0x1_0000_0000 else 0xFFFF_FFFF
    ensures t.Some? ==> b[k + 4..k + |bytes|] == t.value
  {
    hide LE, FromLE;
    Widths();
    FromToLE(if t.Some? then |t.value| else 0xFFFF_FFFF, 4);
    assert b[k..k + 4] == bytes[..4];
    if t.Some? { assert b[k + 4..k + |bytes|] == bytes[4..] == t.value; }
  }

  /** Text or bytes behind a tag and their length. */
  predicate Sized(b: seq<byte>, tag: byte, s: seq<byte>) {
    |b| == 3 + |s| && b[0] == tag && FromLE(b[1..3]) == |s| % 0x1_0000 && b[3..] == s
  }

  lemma SizedValue(b: seq<byte>, tag: byte, s: seq<byte>)
    requires b == [tag] + LE(|s|, 2) + s
    ensures Sized(b, tag, s)
  {
    hide LE, FromLE;
    Widths();
    FromToLE(|s|, 2);
    assert b[1..3] == LE(|s|, 2);
  }

  /** A value: a tag for its type, then its bits, or its length and bytes. */
  lemma ValueLayout(v: MetaValue)
    ensures var b := ValueBytes(v);
      match v
      case IntValue(i) => |b| == 9 && b[0] == 0 && FromLE(b[1..]) == i % 0x1_0000_0000_0000_0000
      case FloatValue(bits) => |b| == 9 && b[0] == 1 && FromLE(b[1..]) == bits
      case BoolValue(x) => b == [2, if x then 1 else 0]
      case StrValue(s) => Sized(b, 3, s)
      case BytesValue(raw) => Sized(b, 4, raw)
  {
    hide LE, FromLE;
    var b := ValueBytes(v);
    Widths();
    match v
    case IntValue(i) =>
      FitsLE(Unsigned(i), 8);
      TwosComplement(i);
      assert b[1..] == LE(Unsigned(i), 8);
    case FloatValue(bits) =>
      FitsLE(bits, 8);
      assert b[1..] == LE(bits, 8);
    case BoolValue(_) =>
    case StrValue(s) => SizedValue(b, 3, s);
    case BytesValue(raw) => SizedValue(b, 4, raw);
  }

  /** An entry: its key behind the key's length, and its value. */
  lemma EntryLayout(e: (text, MetaValue), more: seq<(text, MetaValue)>)
    ensures var b, p := MetaBytes([e] + more), 2 + |e.0|;
      && |b| >= p && FromLE(b[..2]) == |e.0| % 0x1_0000 && b[2..p] == e.0
      && b[p..] == ValueBytes(e.1) + MetaBytes(more)
  {
    hide LE, FromLE, ValueBytes;
    var all, rest := [e] + more, ValueBytes(e.1) + MetaBytes(more);
    assert all[0] == e && all[1..] == more;
    var b := MetaBytes(all);
    assert b == [] + (LE(|e.0|, 2) + (e.0 + rest));
    Widths();
    Field(b, [], |e.0|, 2, e.0 + rest);
    assert b == (LE(|e.0|, 2) + e.0) + rest;
  }
}
