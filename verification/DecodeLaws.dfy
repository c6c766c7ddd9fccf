/** Exactly which byte strings decode as records: their encodings, and nothing else but other bytes for `true`. */
module DecodeLaws {
  import opened Wrappers
  import opened Bytes
  import opened Records
  import opened RecordLaws

  /** A value as it may stand in a record: as it is encoded, except that any byte but zero is `true`. */
  predicate ValueSpelled(w: seq<byte>, v: MetaValue) {
    ValueEncodable(v) && (w == ValueBytes(v) || (v == BoolValue(true) && |w| == 2 && w[0] == 2 && w[1] != 0))
  }

  function Entries(m: seq<(text, MetaValue)>, ws: seq<seq<byte>>): seq<byte>
    requires |m| == |ws|
  {
    if m == [] then [] else LE(|m[0].0|, 2) + m[0].0 + ws[0] + Entries(m[1..], ws[1..])
  }

  predicate EntriesSpelled(m: seq<(text, MetaValue)>, ws: seq<seq<byte>>) {
    |m| == |ws| && forall i | 0 <= i < |m| :: |m[i].0| <= 0xFFFF && ValueSpelled(ws[i], m[i].1)
  }

  // --- what a reader took is what its writer writes ---

  lemma NumFound(s: seq<byte>, w: nat)
    requires ReadNum(s, w).Some?
    ensures var (n, rest) := ReadNum(s, w).value; s == LE(n, w) + rest && n < Pow256(w)
  {
    hide LE, FromLE;
    ToFromLE(s[..w]);
  }

  lemma ByteFound(s: seq<byte>)
    requires ReadNum(s, 1).Some?
    ensures var (n, rest) := ReadNum(s, 1).value; s == [s[0]] + rest && n == s[0]
  {
    assert s[..1] == [s[0]] && FromLE([s[0]]) == s[0] + 256 * FromLE([s[0]][1..]);
  }

  lemma TextFound(s: seq<byte>, n: nat)
    requires ReadText(s, n).Some?
    ensures var (t, rest) := ReadText(s, n).value; s == t + rest && |t| == n
  {
  }

  lemma IdFound(s: seq<byte>)
    requires ReadId(s).Some?
    ensures var (id, rest) := ReadId(s).value; s == IdBytes(id) + rest && (id.Str? ==> |id.s| <= 0xFFFF)
  {
    hide ReadNum, ReadText, LE, FromLE;
    Widths();
    ByteFound(s);
    var (kind, s1) := ReadNum(s, 1).value;
    if kind == 0 {
      NumFound(s1, 8);
    } else {
      NumFound(s1, 2);
      var (n, s2) := ReadNum(s1, 2).value;
      TextFound(s2, n);
    }
  }

  lemma {:induction false} VectorFound(s: seq<byte>, dim: nat)
    requires ReadVector(s, dim).Some?
    ensures var (v, rest) := ReadVector(s, dim).value; s == VectorBytes(v) + rest
    decreases dim
  {
    hide ReadNum, LE, FromLE;
    if dim > 0 {
      NumFound(s, 4);
      var (x, s1) := ReadWord(s).value;
      VectorFound(s1, dim - 1);
      var (xs, rest) := ReadVector(s1, dim - 1).value;
      assert ([x] + xs)[1..] == xs;
      assert s == LE(x, 4) + (VectorBytes(xs) + rest);
    }
  }

  lemma NormFound(s: seq<byte>)
    requires ReadNorm(s).Some?
    ensures var (n, rest) := ReadNorm(s).value; s == NormBytes(n) + rest
  {
    hide ReadNum, LE, FromLE;
    NumFound(s, 4);
  }

  lemma OptTextFound(s: seq<byte>)
    requires ReadOptText(s).Some?
    ensures var (t, rest) := ReadOptText(s).value; s == TextBytes(t) + rest
  {
    hide ReadNum, ReadText, LE, FromLE;
    NumFound(s, 4);
    var (n, s1) := ReadWord(s).value;
    if n != NO_TEXT { TextFound(s1, n); }
  }

  lemma SignFound(u: u64)
    ensures Unsigned(Signed(u)) == u
  {
  }

  lemma ValueFound(s: seq<byte>) returns (w: seq<byte>)
    requires ReadValue(s).Some?
    ensures var (v, rest) := ReadValue(s).value; s == w + rest && ValueSpelled(w, v)
  {
    hide ReadNum, ReadText, LE, FromLE, Signed, Unsigned;
    Widths();
    ByteFound(s);
    var (kind, s1) := ReadNum(s, 1).value;
    var (v, rest) := ReadValue(s).value;
    if kind == 0 || kind == 1 {
      NumFound(s1, 8);
      if kind == 0 { SignFound(ReadNum(s1, 8).value.0); }
      w := ValueBytes(v);
    } else if kind == 2 {
      ByteFound(s1);
      w := [s[0], s1[0]];
      assert w == if v.b then [2, s1[0]] else [2, 0];
    } else {
      NumFound(s1, 2);
      var (n, s2) := ReadNum(s1, 2).value;
      if kind == 3 { TextFound(s2, n); }
      w := ValueBytes(v);
    }
  }

  lemma {:induction false} MetaFound(s: seq<byte>, count: nat) returns (ws: seq<seq<byte>>)
    requires ReadMeta(s, count).Some?
    ensures var (m, rest) := ReadMeta(s, count).value;
      |m| == count && EntriesSpelled(m, ws) && s == Entries(m, ws) + rest
    decreases count
  {
    hide ReadNum, ReadText, ReadValue, LE, FromLE, ValueSpelled;
    Widths();
    if count == 0 {
      ws := [];
    } else {
      NumFound(s, 2);
      var (n, s1) := ReadNum(s, 2).value;
      TextFound(s1, n);
      var (key, s2) := ReadText(s1, n).value;
      var w := ValueFound(s2);
      var (v, s3) := ReadValue(s2).value;
      var more := MetaFound(s3, count - 1);
      var (es, rest) := ReadMeta(s3, count - 1).value;
      ws := [w] + more;
      assert ws[1..] == more && ([(key, v)] + es)[1..] == es;
      assert s == LE(n, 2) + key + w + (Entries(es, more) + rest);
    }
  }

  // --- and back ---

  lemma ValueRead(w: seq<byte>, v: MetaValue, rest: seq<byte>)
    requires ValueSpelled(w, v)
    ensures ReadValue(w + rest) == Some((v, rest))
  {
    hide ReadNum, ValueBytes;
    if w == ValueBytes(v) {
      ValueBack(v, rest);
    } else {
      ByteBack(2, w + rest, [w[1]] + rest);
      ByteBack(w[1], [w[1]] + rest, rest);
    }
  }

  lemma {:induction false} MetaRead(m: seq<(text, MetaValue)>, ws: seq<seq<byte>>, rest: seq<byte>)
    requires EntriesSpelled(m, ws)
    ensures ReadMeta(Entries(m, ws) + rest, |m|) == Some((m, rest))
    decreases |m|
  {
    hide ReadNum, ReadText, ReadValue, LE, ValueSpelled;
    if m == [] {
      assert Entries(m, ws) + rest == rest;
    } else {
      var key, tail := m[0].0, Entries(m[1..], ws[1..]) + rest;
      var s := LE(|key|, 2) + key + (ws[0] + tail);
      assert Entries(m, ws) + rest == s;
      Widths();
      StringBack(key, 2, ws[0] + tail);
      ValueRead(ws[0], m[0].1, tail);
      MetaRead(m[1..], ws[1..], rest);
      assert [m[0]] + m[1..] == m;
    }
  }

  // --- records ---

  /** A record's bytes up to the number of its entries. */
  function Front(r: Record): seq<byte> {
    [LifecycleByte(r.lifecycle)] + IdBytes(r.externalId) + LE(|r.vector|, 2) + VectorBytes(r.vector)
    + NormBytes(r.norm) + TextBytes(r.text) + LE(|r.meta|, 2)
  }

  predicate RecordSpelled(buf: seq<byte>, r: Record, ws: seq<seq<byte>>) {
    Encodable(r) && InBounds(r) && EntriesSpelled(r.meta, ws) && buf == Front(r) + Entries(r.meta, ws)
  }

  lemma LifecycleFound(n: byte)
    requires LifecycleOf(n).Some?
    ensures LifecycleByte(LifecycleOf(n).value) == n
  {
  }

  lemma RecordFound(buf: seq<byte>) returns (ws: seq<seq<byte>>)
    requires Decode(buf).Ok?
    ensures RecordSpelled(buf, Decode(buf).value, ws)
  {
    DecodedInBounds(buf);
    hide ReadNum, ReadId, ReadVector, ReadNorm, ReadOptText, ReadMeta, LE, FromLE, Encodable, InBounds,
         IdBytes, VectorBytes, NormBytes, TextBytes, Entries, EntriesSpelled;
    var r := Decode(buf).value;
    ByteFound(buf);
    var (l, s1) := ReadNum(buf, 1).value;
    LifecycleFound(l);
    IdFound(s1);
    var (_, s2) := ReadId(s1).value;
    NumFound(s2, 2);
    var (dim, s3) := ReadNum(s2, 2).value;
    VectorFound(s3, dim);
    ReadVectorBounds(s3, dim);
    var (_, s4) := ReadVector(s3, dim).value;
    NormFound(s4);
    var (_, s5) := ReadNorm(s4).value;
    OptTextFound(s5);
    var (_, s6) := ReadOptText(s5).value;
    NumFound(s6, 2);
    var (count, s7) := ReadNum(s6, 2).value;
    ws := MetaFound(s7, count);
    assert s7 == Entries(r.meta, ws) + [];
    InPieces(buf, r, s1, s2, s3, s4, s5, s6, s7);
    assert buf == Front(r) + Entries(r.meta, ws);
  }

  lemma InPieces(buf: seq<byte>, r: Record, s1: seq<byte>, s2: seq<byte>, s3: seq<byte>, s4: seq<byte>,
                 s5: seq<byte>, s6: seq<byte>, s7: seq<byte>)
    requires buf == [LifecycleByte(r.lifecycle)] + s1 && s1 == IdBytes(r.externalId) + s2
    requires s2 == LE(|r.vector|, 2) + s3 && s3 == VectorBytes(r.vector) + s4 && s4 == NormBytes(r.norm) + s5
    requires s5 == TextBytes(r.text) + s6 && s6 == LE(|r.meta|, 2) + s7
    ensures buf == Front(r) + s7
  {
    hide LE, IdBytes, VectorBytes, NormBytes, TextBytes;
  }

  /** The pieces of a record's bytes, each with everything behind it. */
  function Behind(r: Record, meta: seq<byte>): (s: seq<seq<byte>>)
    ensures |s| == 7
  {
    var s7 := meta;
    var s6 := LE(|r.meta|, 2) + s7;
    var s5 := TextBytes(r.text) + s6;
    var s4 := NormBytes(r.norm) + s5;
    var s3 := VectorBytes(r.vector) + s4;
    var s2 := LE(|r.vector|, 2) + s3;
    [IdBytes(r.externalId) + s2, s2, s3, s4, s5, s6, s7]
  }

  lemma FrontSplits(r: Record, meta: seq<byte>)
    ensures Front(r) + meta == [LifecycleByte(r.lifecycle)] + Behind(r, meta)[0]
  {
    hide LE, IdBytes, VectorBytes, NormBytes, TextBytes;
  }

  lemma PiecesRead(r: Record, meta: seq<byte>)
    requires Encodable(r) && InBounds(r)
    ensures var s := Behind(r, meta);
      && ReadId(s[0]) == Some((r.externalId, s[1])) && ReadNum(s[1], 2) == Some((|r.vector|, s[2]))
      && ReadVector(s[2], |r.vector|) == Some((r.vector, s[3])) && ReadNorm(s[3]) == Some((r.norm, s[4]))
      && ReadOptText(s[4]) == Some((r.text, s[5])) && ReadNum(s[5], 2) == Some((|r.meta|, meta))
  {
    hide ReadNum, ReadId, ReadVector, ReadNorm, ReadOptText, LE, IdBytes, VectorBytes, NormBytes, TextBytes;
    Widths();
    var s := Behind(r, meta);
    IdBack(r.externalId, s[1]);
    NumBack(|r.vector|, 2, s[2]);
    VectorBack(r.vector, s[3]);
    NormBack(r.norm, s[4]);
    OptTextBack(r.text, s[5]);
    NumBack(|r.meta|, 2, s[6]);
  }

  /** A record from what each reader gives. */
  lemma DecodedFrom(buf: seq<byte>, r: Record, s: seq<seq<byte>>)
    requires |s| == 7 && ReadNum(buf, 1) == Some((LifecycleByte(r.lifecycle) as nat, s[0]))
    requires ReadId(s[0]) == Some((r.externalId, s[1])) && ReadNum(s[1], 2) == Some((|r.vector|, s[2]))
    requires ReadVector(s[2], |r.vector|) == Some((r.vector, s[3])) && ReadNorm(s[3]) == Some((r.norm, s[4]))
    requires ReadOptText(s[4]) == Some((r.text, s[5])) && ReadNum(s[5], 2) == Some((|r.meta|, s[6]))
    requires ReadMeta(s[6], |r.meta|) == Some((r.meta, []))
    ensures Decode(buf) == Ok(r)
  {
    hide ReadNum, ReadId, ReadVector, ReadNorm, ReadOptText, ReadMeta;
  }

  lemma RecordRead(buf: seq<byte>, r: Record, ws: seq<seq<byte>>)
    requires RecordSpelled(buf, r, ws)
    ensures Decode(buf) == Ok(r)
  {
    var meta := Entries(r.meta, ws);
    hide Decode, ReadNum, ReadId, ReadVector, ReadNorm, ReadOptText, ReadMeta, Entries, EntriesSpelled, Front,
         Encodable, InBounds, LE, IdBytes, VectorBytes, NormBytes, TextBytes;
    FrontSplits(r, meta);
    ByteBack(LifecycleByte(r.lifecycle), buf, Behind(r, meta)[0]);
    PiecesRead(r, meta);
    MetaRead(r.meta, ws, []);
    assert meta + [] == meta;
    DecodedFrom(buf, r, Behind(r, meta));
  }

  /** Bytes decode to a record if and only if they are its encoding, up to the bytes that stand for `true`. */
  lemma DecodeIff(buf: seq<byte>, r: Record)
    ensures Decode(buf) == Ok(r) <==> exists ws :: RecordSpelled(buf, r, ws)
  {
    hide Decode, RecordSpelled;
    if Decode(buf) == Ok(r) { var ws := RecordFound(buf); }
    if ws :| RecordSpelled(buf, r, ws) { RecordRead(buf, r, ws); }
  }
}
