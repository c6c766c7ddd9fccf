/** What the record format promises: it is self-delimiting and, within its length bounds, lossless. */
module RecordLaws {
  import opened Wrappers
  import opened Bytes
  import opened Records
  import Utf8

  /** The three lengths that `encode` writes into a field too narrow for them, or into a sentinel. */
  predicate InBounds(r: Record) {
    && (r.externalId.Str? ==> |r.externalId.s| <= 0xFFFF)
    && |r.meta| <= 0xFFFF
    && (r.text.Some? ==> |r.text.value| != NO_TEXT)
  }

  // --- each reader undoes its writer and leaves the rest alone ---

  lemma NumBack(n: nat, w: nat, rest: seq<byte>)
    requires n < Pow256(w)
    ensures ReadNum(LE(n, w) + rest, w) == Some((n, rest))
  {
    hide LE, FromLE;
    FitsLE(n, w);
    assert (LE(n, w) + rest)[..w] == LE(n, w) && (LE(n, w) + rest)[w..] == rest;
  }

  lemma ByteBack(b: byte, s: seq<byte>, rest: seq<byte>)
    requires s == [b] + rest
    ensures ReadNum(s, 1) == Some((b as nat, rest))
  {
    assert s[..1] == [b] && s[1..] == rest;
    assert FromLE([b]) == b + 256 * FromLE([b][1..]);
  }

  lemma TextBack(t: text, rest: seq<byte>)
    ensures ReadText(t + rest, |t|) == Some((t, rest))
  {
    assert (t + rest)[..|t|] == t && (t + rest)[|t|..] == rest;
  }

  lemma StringBack(t: text, w: nat, rest: seq<byte>)
    requires |t| < Pow256(w)
    ensures ReadNum(LE(|t|, w) + t + rest, w) == Some((|t|, t + rest))
    ensures ReadText(t + rest, |t|) == Some((t, rest))
  {
    NumBack(|t|, w, t + rest);
    assert LE(|t|, w) + t + rest == LE(|t|, w) + (t + rest);
    TextBack(t, rest);
  }

  lemma IdBack(id: ExternalId, rest: seq<byte>)
    requires id.Str? ==> |id.s| <= 0xFFFF
    ensures ReadId(IdBytes(id) + rest) == Some((id, rest))
  {
    hide ReadNum, ReadText, LE, FromLE;
    Widths();
    match id
    case Int(v) =>
      ByteBack(0, IdBytes(id) + rest, LE(v, 8) + rest);
      NumBack(v, 8, rest);
    case Str(s) =>
      ByteBack(1, IdBytes(id) + rest, LE(|s|, 2) + s + rest);
      StringBack(s, 2, rest);
  }

  lemma SignBack(i: i64)
    ensures Signed(Unsigned(i)) == i
  {
  }

  lemma FixedValueBack(v: MetaValue, rest: seq<byte>)
    requires !v.StrValue? && !v.BytesValue?
    ensures ReadValue(ValueBytes(v) + rest) == Some((v, rest))
  {
    hide Signed, Unsigned, Pow256, ReadNum, ReadText, ReadBytes, LE, FromLE;
    Widths();
    var s := ValueBytes(v) + rest;
    match v
    case IntValue(i) =>
      ByteBack(0, s, LE(Unsigned(i), 8) + rest);
      NumBack(Unsigned(i), 8, rest);
      SignBack(i);
    case FloatValue(bits) =>
      ByteBack(1, s, LE(bits, 8) + rest);
      NumBack(bits, 8, rest);
    case BoolValue(b) =>
      var x: byte := if b then 1 else 0;
      ByteBack(2, s, [x] + rest);
      ByteBack(x, [x] + rest, rest);
  }

  lemma SizedValueBack(v: MetaValue, rest: seq<byte>)
    requires (v.StrValue? || v.BytesValue?) && ValueEncodable(v)
    ensures ReadValue(ValueBytes(v) + rest) == Some((v, rest))
  {
    hide Signed, Unsigned, Pow256, ReadNum, ReadText, ReadBytes, LE, FromLE;
    Widths();
    var raw := if v.StrValue? then v.s else v.raw;
    var tail := raw + rest;
    ByteBack(if v.StrValue? then 3 else 4, ValueBytes(v) + rest, LE(|raw|, 2) + tail);
    NumBack(|raw|, 2, tail);
    if v.StrValue? { TextBack(v.s, rest); } else { RawBack(raw, rest); }
  }

  lemma RawBack(raw: seq<byte>, rest: seq<byte>)
    ensures ReadBytes(raw + rest, |raw|) == Some((raw, rest))
  {
    assert (raw + rest)[..|raw|] == raw && (raw + rest)[|raw|..] == rest;
  }

  lemma ValueBack(v: MetaValue, rest: seq<byte>)
    requires ValueEncodable(v)
    ensures ReadValue(ValueBytes(v) + rest) == Some((v, rest))
  {
    hide ReadValue, ValueBytes;
    if v.StrValue? || v.BytesValue? { SizedValueBack(v, rest); } else { FixedValueBack(v, rest); }
  }

  lemma {:induction false} VectorBack(v: seq<u32>, rest: seq<byte>)
    requires forall i | 0 <= i < |v| :: Finite(v[i])
    ensures ReadVector(VectorBytes(v) + rest, |v|) == Some((v, rest))
  {
    hide ReadNum, LE, FromLE;
    if v == [] {
      assert VectorBytes(v) + rest == rest;
    } else {
      var tail := VectorBytes(v[1..]) + rest;
      Widths();
      NumBack(v[0], 4, tail);
      assert VectorBytes(v) + rest == LE(v[0], 4) + tail;
      VectorBack(v[1..], rest);
      assert [v[0]] + v[1..] == v;
    }
  }

  lemma NormBack(n: Option<u32>, rest: seq<byte>)
    requires n.Some? ==> Finite(n.value)
    ensures ReadNorm(NormBytes(n) + rest) == Some((n, rest))
  {
    hide ReadNum, LE, FromLE;
    Widths();
    NumBack(if n.Some? then n.value else NO_NORM, 4, rest);
  }

  lemma OptTextBack(t: Option<text>, rest: seq<byte>)
    requires t.Some? ==> |t.value| < NO_TEXT
    ensures ReadOptText(TextBytes(t) + rest) == Some((t, rest))
  {
    hide ReadNum, ReadText, LE, FromLE;
    Widths();
    match t
    case Some(s) => StringBack(s, 4, rest);
    case None => NumBack(NO_TEXT, 4, rest);
  }

  lemma EntryBack(e: (text, MetaValue), s: seq<byte>, rest: seq<byte>)
    requires |e.0| <= 0xFFFF && ValueEncodable(e.1)
    requires s == LE(|e.0|, 2) + e.0 + (ValueBytes(e.1) + rest)
    ensures ReadEntry(s) == Some((e, rest))
  {
    hide ReadNum, ReadText, ReadValue, ValueBytes, LE, FromLE;
    Widths();
    StringBack(e.0, 2, ValueBytes(e.1) + rest);
    ValueBack(e.1, rest);
  }

  lemma {:induction false} MetaBack(m: seq<(text, MetaValue)>, rest: seq<byte>)
    requires forall i | 0 <= i < |m| :: |m[i].0| <= 0xFFFF && ValueEncodable(m[i].1)
    ensures ReadMeta(MetaBytes(m) + rest, |m|) == Some((m, rest))
  {
    hide ReadEntry, ValueBytes, LE;
    if m == [] {
      assert MetaBytes(m) + rest == rest;
    } else {
      var tail := MetaBytes(m[1..]) + rest;
      var s := LE(|m[0].0|, 2) + m[0].0 + (ValueBytes(m[0].1) + tail);
      assert MetaBytes(m) + rest == s;
      EntryBack(m[0], s, tail);
      MetaBack(m[1..], rest);
      assert [m[0]] + m[1..] == m;
    }
  }

  lemma RecordBack(r: Record, rest: seq<byte>)
    requires Encodable(r) && InBounds(r)
    ensures ReadRecord(Body(r) + rest) == Some((r, rest))
  {
    hide ReadNum, ReadId, ReadVector, ReadNorm, ReadOptText, ReadMeta, LE;
    hide IdBytes, VectorBytes, NormBytes, TextBytes, MetaBytes;
    Widths();
    var s7 := MetaBytes(r.meta) + rest;
    var s6 := LE(|r.meta|, 2) + s7;
    var s5 := TextBytes(r.text) + s6;
    var s4 := NormBytes(r.norm) + s5;
    var s3 := VectorBytes(r.vector) + s4;
    var s2 := LE(|r.vector|, 2) + s3;
    var s1 := IdBytes(r.externalId) + s2;
    assert Body(r) + rest == [LifecycleByte(r.lifecycle)] + s1;
    ByteBack(LifecycleByte(r.lifecycle), Body(r) + rest, s1);
    IdBack(r.externalId, s2);
    NumBack(|r.vector|, 2, s3);
    VectorBack(r.vector, s4);
    NormBack(r.norm, s5);
    OptTextBack(r.text, s6);
    NumBack(|r.meta|, 2, s7);
    MetaBack(r.meta, rest);
  }

  // --- what a reader accepts is within bounds ---

  lemma {:induction false} ReadVectorBounds(s: seq<byte>, dim: nat)
    ensures ReadVector(s, dim).Some? ==>
      var v := ReadVector(s, dim).value.0;
      |v| == dim && forall i | 0 <= i < |v| :: Finite(v[i])
    decreases dim
  {
    if ReadVector(s, dim).Some? && dim > 0 { ReadVectorBounds(ReadWord(s).value.1, dim - 1); }
  }

  lemma {:induction false} ReadMetaBounds(s: seq<byte>, count: nat)
    ensures ReadMeta(s, count).Some? ==>
      var m := ReadMeta(s, count).value.0;
      |m| == count && forall i | 0 <= i < |m| :: |m[i].0| <= 0xFFFF && ValueEncodable(m[i].1)
    decreases count
  {
    hide ReadNum;
    Widths();
    if ReadMeta(s, count).Some? && count > 0 { ReadMetaBounds(ReadEntry(s).value.1, count - 1); }
  }

  /** Whatever decodes is a record that `encode` accepts and that fits the format. */
  lemma DecodedInBounds(buf: seq<byte>)
    requires Decode(buf).Ok?
    ensures Encodable(Decode(buf).value) && InBounds(Decode(buf).value)
  {
    hide ReadNum, ReadVector, ReadMeta;
    Widths();
    var (_, s1) := ReadNum(buf, 1).value;
    var (_, s2) := ReadId(s1).value;
    var (dim, s3) := ReadNum(s2, 2).value;
    ReadVectorBounds(s3, dim);
    var (_, s4) := ReadVector(s3, dim).value;
    var (_, s5) := ReadNorm(s4).value;
    var (_, s6) := ReadOptText(s5).value;
    var (count, s7) := ReadNum(s6, 2).value;
    ReadMetaBounds(s7, count);
  }

  /** The round trip holds exactly for the records whose lengths fit the format. */
  lemma RoundTripIff(r: Record)
    requires Encode(r).Ok?
    ensures Decode(Encode(r).value) == Ok(r) <==> InBounds(r)
  {
    hide ReadRecord, Body;
    if InBounds(r) {
      RecordBack(r, []);
      assert Body(r) + [] == Body(r);
    }
    if Decode(Body(r)) == Ok(r) { DecodedInBounds(Body(r)); }
  }

  function Repeat(b: byte, n: nat): (s: seq<byte>)
    ensures |s| == n && forall i | 0 <= i < n :: s[i] == b
  {
    seq(n, i => b)
  }

  /** An id of 65536 letters: accepted by `encode`, not given back by `decode`. */
  lemma LongIdIsLost() returns (r: Record)
    ensures Encode(r).Ok? && Decode(Encode(r).value) != Ok(r)
    ensures r.externalId.Str? && |r.externalId.s| == 0x1_0000 && r.vector == [0] && r.meta == [] && r.lifecycle.Live?
    ensures r.norm.None? && r.text.None?
  {
    hide Body, ReadRecord, Utf8.Valid;
    var id := Repeat(97, 0x1_0000);
    Utf8.AsciiValid(id);
    r := Record(Str(id), [0], None, None, [], Live);
    assert Finite(0);
    RoundTripIff(r);
  }

  // --- self-delimiting: a reader that succeeds does not look past what it consumes ---

  ghost predicate Longer<T>(short: Option<(T, seq<byte>)>, long: Option<(T, seq<byte>)>, t: seq<byte>) {
    short.Some? ==> long == Some((short.value.0, short.value.1 + t))
  }

  lemma BytesLonger(s: seq<byte>, n: nat, t: seq<byte>)
    ensures Longer(ReadBytes(s, n), ReadBytes(s + t, n), t)
  {
    if |s| >= n { assert (s + t)[..n] == s[..n] && (s + t)[n..] == s[n..] + t; }
  }

  lemma NumLonger(s: seq<byte>, w: nat, t: seq<byte>)
    ensures Longer(ReadNum(s, w), ReadNum(s + t, w), t)
  {
    hide ReadBytes, FromLE;
    BytesLonger(s, w, t);
  }

  lemma TextLonger(s: seq<byte>, n: nat, t: seq<byte>)
    ensures Longer(ReadText(s, n), ReadText(s + t, n), t)
  {
    hide ReadBytes;
    BytesLonger(s, n, t);
  }

  lemma IdLonger(s: seq<byte>, t: seq<byte>)
    ensures Longer(ReadId(s), ReadId(s + t), t)
  {
    hide ReadNum, ReadText;
    NumLonger(s, 1, t);
    if ReadNum(s, 1).Some? {
      var s1 := ReadNum(s, 1).value.1;
      NumLonger(s1, 8, t);
      NumLonger(s1, 2, t);
      if ReadNum(s1, 2).Some? { TextLonger(ReadNum(s1, 2).value.1, ReadNum(s1, 2).value.0, t); }
    }
  }

  lemma ValueLonger(s: seq<byte>, t: seq<byte>)
    ensures Longer(ReadValue(s), ReadValue(s + t), t)
  {
    hide ReadNum, ReadText, ReadBytes;
    NumLonger(s, 1, t);
    if ReadNum(s, 1).Some? {
      var s1 := ReadNum(s, 1).value.1;
      NumLonger(s1, 8, t);
      NumLonger(s1, 1, t);
      NumLonger(s1, 2, t);
      if ReadNum(s1, 2).Some? {
        TextLonger(ReadNum(s1, 2).value.1, ReadNum(s1, 2).value.0, t);
        BytesLonger(ReadNum(s1, 2).value.1, ReadNum(s1, 2).value.0, t);
      }
    }
  }

  lemma EntryLonger(s: seq<byte>, t: seq<byte>)
    ensures Longer(ReadEntry(s), ReadEntry(s + t), t)
  {
    hide ReadNum, ReadText, ReadValue;
    NumLonger(s, 2, t);
    if ReadNum(s, 2).Some? {
      var (n, s1) := ReadNum(s, 2).value;
      TextLonger(s1, n, t);
      if ReadText(s1, n).Some? { ValueLonger(ReadText(s1, n).value.1, t); }
    }
  }

  lemma {:induction false} VectorLonger(s: seq<byte>, dim: nat, t: seq<byte>)
    ensures Longer(ReadVector(s, dim), ReadVector(s + t, dim), t)
    decreases dim
  {
    hide ReadNum;
    if dim > 0 {
      NumLonger(s, 4, t);
      if ReadWord(s).Some? { VectorLonger(ReadWord(s).value.1, dim - 1, t); }
    }
  }

  lemma {:induction false} MetaLonger(s: seq<byte>, count: nat, t: seq<byte>)
    ensures Longer(ReadMeta(s, count), ReadMeta(s + t, count), t)
    decreases count
  {
    hide ReadEntry;
    if count > 0 {
      EntryLonger(s, t);
      if ReadEntry(s).Some? { MetaLonger(ReadEntry(s).value.1, count - 1, t); }
    }
  }

  lemma OptTextLonger(s: seq<byte>, t: seq<byte>)
    ensures Longer(ReadNorm(s), ReadNorm(s + t), t)
    ensures Longer(ReadOptText(s), ReadOptText(s + t), t)
  {
    hide ReadNum, ReadText;
    NumLonger(s, 4, t);
    if ReadWord(s).Some? { TextLonger(ReadWord(s).value.1, ReadWord(s).value.0, t); }
  }

  lemma RecordLonger(s: seq<byte>, t: seq<byte>)
    ensures Longer(ReadRecord(s), ReadRecord(s + t), t)
  {
    hide ReadNum, ReadId, ReadVector, ReadNorm, ReadOptText, ReadMeta;
    if ReadRecord(s).Some? {
      NumLonger(s, 1, t);
      var (_, s1) := ReadNum(s, 1).value;
      IdLonger(s1, t);
      var (_, s2) := ReadId(s1).value;
      NumLonger(s2, 2, t);
      var (dim, s3) := ReadNum(s2, 2).value;
      VectorLonger(s3, dim, t);
      var (_, s4) := ReadVector(s3, dim).value;
      OptTextLonger(s4, t);
      var (_, s5) := ReadNorm(s4).value;
      OptTextLonger(s5, t);
      var (_, s6) := ReadOptText(s5).value;
      NumLonger(s6, 2, t);
      var (count, s7) := ReadNum(s6, 2).value;
      MetaLonger(s7, count, t);
    }
  }

  /** Every byte string that decodes stops decoding when bytes are added. */
  lemma ExtraBytesRejected(buf: seq<byte>, t: seq<byte>)
    requires Decode(buf).Ok? && t != []
    ensures Decode(buf + t).Err?
  {
    hide ReadRecord;
    RecordLonger(buf, t);
  }

  /** No strict prefix of an encoding decodes. */
  lemma StrictPrefixRejected(r: Record, n: nat)
    requires Encode(r).Ok? && InBounds(r) && n < |Encode(r).value|
    ensures Decode(Encode(r).value[..n]).Err?
  {
    hide ReadRecord, Body;
    var b := Body(r);
    RoundTripIff(r);
    assert b[..n] + b[n..] == b;
    if Decode(b[..n]).Ok? { ExtraBytesRejected(b[..n], b[n..]); }
  }
}
