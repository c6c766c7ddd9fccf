/** The frame codec shared by the log and the segments: `len | kind | payload | crc32c`. */
module Frames {
  import opened Wrappers
  import opened Bytes
  import opened Crc

  datatype FrameKind = Record | Commit | Checkpoint

  datatype Frame = Frame(kind: FrameKind, payload: seq<byte>)

  const BASE := 9  // length prefix, kind byte and checksum

  function KindByte(k: FrameKind): byte {
    match k
    case Record => 1
    case Commit => 2
    case Checkpoint => 3
  }

  function KindOf(b: byte): Option<FrameKind> {
    if b == 1 then Some(Record) else if b == 2 then Some(Commit) else if b == 3 then Some(Checkpoint) else None
  }

  function Encode(f: Frame): (s: seq<byte>)
    ensures |s| == Size(f)
  {
    LE(5 + |f.payload|, 4) + [KindByte(f.kind)] + f.payload + LE(Crc32c(KindByte(f.kind), f.payload), 4)
  }

  function EncodeAll(fs: seq<Frame>): seq<byte> {
    if fs == [] then [] else Encode(fs[0]) + EncodeAll(fs[1..])
  }

  lemma EncodeNone()
    ensures EncodeAll([]) == []
  {
  }

  lemma EncodeOne(f: Frame)
    ensures EncodeAll([f]) == Encode(f)
  {
    hide Encode;
    assert [f][1..] == [] && EncodeAll([f]) == Encode(f) + EncodeAll([]);
  }

  function Size(f: Frame): nat { BASE + |f.payload| }

  /** The length prefix is four bytes wide. */
  predicate Fits(f: Frame) {
    5 + |f.payload| < 0x1_0000_0000
  }

  predicate AllFit(fs: seq<Frame>) {
    forall i | 0 <= i < |fs| :: Fits(fs[i])
  }

  /** The frame at the front of `buf`, if a whole valid one is there. */
  function First(buf: seq<byte>): (r: Option<Frame>)
    ensures r.Some? ==> Size(r.value) <= |buf| && Fits(r.value)
  {
    if |buf| < BASE then None else
    var len := FromLE(buf[..4]);
    Widths();
    if len < 5 || |buf| < 4 + len then None else
    var kind := KindOf(buf[4]);
    var payload := buf[5..len];
    if kind.None? || FromLE(buf[len..len + 4]) != Crc32c(buf[4], payload) then None
    else Some(Frame(kind.value, payload))
  }

  /** All frames from the front of `buf`, and how many bytes they take. */
  function Decode(buf: seq<byte>): (r: (seq<Frame>, nat))
    ensures r.1 <= |buf|
    decreases |buf|
  {
    match First(buf)
    case None => ([], 0)
    case Some(f) =>
      var (fs, n) := Decode(buf[Size(f)..]);
      ([f] + fs, Size(f) + n)
  }

  /** `First` of a suffix, spelled with offsets into the whole buffer. */
  lemma FirstAt(buf: seq<byte>, off: nat)
    requires off <= |buf|
    ensures |buf| - off < BASE ==> First(buf[off..]).None?
    ensures |buf| - off >= BASE ==>
      var len := FromLE(buf[off..off + 4]);
      if len < 5 || |buf| - off < 4 + len || KindOf(buf[off + 4]).None?
         || FromLE(buf[off + len..off + len + 4]) != Crc32c(buf[off + 4], buf[off + 5..off + len])
      then First(buf[off..]).None?
      else First(buf[off..]) == Some(Frame(KindOf(buf[off + 4]).value, buf[off + 5..off + len]))
  {
    hide Crc32c, FromLE;
    if |buf| - off >= BASE {
      var rest := buf[off..];
      assert buf[off..off + 4] == rest[..4];
      var len := FromLE(buf[off..off + 4]);
      if len >= 5 && |buf| - off >= 4 + len {
        assert buf[off + len..off + len + 4] == rest[len..len + 4];
        assert buf[off + 5..off + len] == rest[5..len];
      }
    }
  }

  lemma DecodeStep(buf: seq<byte>, off: nat, frames: seq<Frame>)
    requires off <= |buf| && First(buf[off..]).Some?
    ensures var f := First(buf[off..]).value;
      var next := off + Size(f);
      && next <= |buf|
      && frames + Decode(buf[off..]).0 == (frames + [f]) + Decode(buf[next..]).0
      && off + Decode(buf[off..]).1 == next + Decode(buf[next..]).1
  {
    hide First;
    var f := First(buf[off..]).value;
    assert buf[off..][Size(f)..] == buf[off + Size(f)..];
  }

  method DecodeFrames(buf: seq<byte>) returns (frames: seq<Frame>, off: nat)
    ensures frames == Decode(buf).0 && off == Decode(buf).1
  {
    hide First, Crc32c, FromLE;
    frames, off := [], 0;
    assert buf[0..] == buf;
    while |buf| - off >= BASE
      invariant off <= |buf|
      invariant Decode(buf).0 == frames + Decode(buf[off..]).0
      invariant Decode(buf).1 == off + Decode(buf[off..]).1
      decreases |buf| - off
    {
      FirstAt(buf, off);
      var len := FromLE(buf[off..off + 4]);
      if len < 5 || |buf| - off < 4 + len {
        break;
      }
      var kind := KindOf(buf[off + 4]);
      if kind.None? {
        break;
      }
      var end := off + len;
      var actual := ComputeCrc32c(buf[off + 4], buf[off + 5..end]);
      if FromLE(buf[end..end + 4]) != actual {
        break;
      }
      DecodeStep(buf, off, frames);
      frames := frames + [Frame(kind.value, buf[off + 5..end])];
      off := off + 4 + len;
    }
    FirstAt(buf, off);
  }

  method EncodeFrame(f: Frame, out: seq<byte>) returns (out': seq<byte>)
    ensures out' == out + Encode(f)
  {
    out' := out + LE(5 + |f.payload|, 4);
    out' := out' + [KindByte(f.kind)];
    out' := out' + f.payload;
    var crc := ComputeCrc32c(KindByte(f.kind), f.payload);
    out' := out' + LE(crc, 4);
  }

  lemma FirstOfEncoding(f: Frame, rest: seq<byte>)
    requires Fits(f)
    ensures First(Encode(f) + rest) == Some(f)
  {
    hide Encode, Crc32c, LE, FromLE;
    var s, buf, len := Encode(f), Encode(f) + rest, 5 + |f.payload|;
    Layout(f);
    assert buf[..4] == s[..4] && buf[5..len] == s[5..len] && buf[len..len + 4] == s[len..];
  }

  /** Decoding peels whole frames off the front, whatever follows them. */
  lemma DecodeOneMore(f: Frame, tail: seq<byte>)
    requires Fits(f)
    ensures |Encode(f)| == Size(f)
    ensures Decode(Encode(f) + tail).0 == [f] + Decode(tail).0
    ensures Decode(Encode(f) + tail).1 == Size(f) + Decode(tail).1
  {
    hide Encode, First;
    FirstOfEncoding(f, tail);
    assert (Encode(f) + tail)[Size(f)..] == tail;
  }

  lemma {:induction false} DecodeAppend(fs: seq<Frame>, rest: seq<byte>)
    requires AllFit(fs)
    ensures Decode(EncodeAll(fs) + rest).0 == fs + Decode(rest).0
    ensures Decode(EncodeAll(fs) + rest).1 == |EncodeAll(fs)| + Decode(rest).1
  {
    hide Encode, Decode;
    if fs == [] {
      assert EncodeAll(fs) + rest == rest;
    } else {
      var tail := EncodeAll(fs[1..]) + rest;
      assert EncodeAll(fs) + rest == Encode(fs[0]) + tail;
      DecodeOneMore(fs[0], tail);
      DecodeAppend(fs[1..], rest);
      assert [fs[0]] + (fs[1..] + Decode(rest).0) == fs + Decode(rest).0;
    }
  }

  /** A strict prefix of a frame holds no frame, whatever its bytes check out to. */
  lemma TornFrame(f: Frame, n: nat)
    requires Fits(f) && n < Size(f)
    ensures First(Encode(f)[..n]).None?
  {
    hide Encode, Crc32c, LE, FromLE;
    Layout(f);
    if n >= BASE { assert Encode(f)[..n][..4] == Encode(f)[..4]; }
  }

  /** Torn-tail rule: frames followed by any strict prefix of one more frame decode to exactly the frames. */
  lemma TornTail(fs: seq<Frame>, f: Frame, n: nat)
    requires AllFit(fs) && Fits(f) && n < Size(f)
    ensures Decode(EncodeAll(fs) + Encode(f)[..n]).0 == fs
    ensures Decode(EncodeAll(fs) + Encode(f)[..n]).1 == |EncodeAll(fs)|
  {
    hide Encode, First;
    DecodeAppend(fs, Encode(f)[..n]);
    TornFrame(f, n);
  }

  /** A frame of an unknown kind is not skipped: decoding ends there, whatever follows. */
  lemma UnknownKindEnds(fs: seq<Frame>, rest: seq<byte>)
    requires AllFit(fs) && |rest| >= BASE && KindOf(rest[4]).None?
    ensures Decode(EncodeAll(fs) + rest).0 == fs
    ensures Decode(EncodeAll(fs) + rest).1 == |EncodeAll(fs)|
  {
    hide Encode, Crc32c, FromLE;
    DecodeAppend(fs, rest);
    assert First(rest).None?;
  }

  lemma RoundTrip(fs: seq<Frame>)
    requires AllFit(fs)
    ensures Decode(EncodeAll(fs)).0 == fs && Decode(EncodeAll(fs)).1 == |EncodeAll(fs)|
  {
    hide Encode, First;
    DecodeAppend(fs, []);
    assert EncodeAll(fs) + [] == EncodeAll(fs);
  }

  lemma FirstIsEncoding(buf: seq<byte>)
    requires First(buf).Some?
    ensures buf[..Size(First(buf).value)] == Encode(First(buf).value)
  {
    var len := FromLE(buf[..4]);
    Widths();
    ToFromLE(buf[..4]);
    ToFromLE(buf[len..len + 4]);
    assert buf[..4 + len] == buf[..4] + [buf[4]] + buf[5..len] + buf[len..len + 4];
  }

  /** The consumed bytes are the encoding of the decoded frames: there is no second encoding of a frame. */
  lemma {:induction false} DecodeSound(buf: seq<byte>)
    ensures AllFit(Decode(buf).0)
    ensures buf[..Decode(buf).1] == EncodeAll(Decode(buf).0)
    decreases |buf|
  {
    hide Encode, First;
    if First(buf).Some? {
      var f := First(buf).value;
      DecodeSound(buf[Size(f)..]);
      FirstIsEncoding(buf);
      var n := Decode(buf[Size(f)..]).1;
      assert buf[..Size(f) + n] == buf[..Size(f)] + buf[Size(f)..][..n];
    }
  }

  /** Where the fields of an encoded frame are. */
  lemma Layout(f: Frame)
    requires Fits(f)
    ensures var s, len := Encode(f), 5 + |f.payload|;
      && s[..4] == LE(len, 4) && FromLE(s[..4]) == len
      && s[4] == KindByte(f.kind) && s[5..len] == f.payload
      && s[len..] == LE(Crc32c(KindByte(f.kind), f.payload), 4)
      && FromLE(s[len..]) == Crc32c(KindByte(f.kind), f.payload)
  {
    hide Crc32c, LE, FromLE;
    Widths();
    FitsLE(5 + |f.payload|, 4);
    CrcFits(KindByte(f.kind), f.payload);
    FitsLE(Crc32c(KindByte(f.kind), f.payload), 4);
  }

  lemma DamagedFrame(f: Frame, i: nat, b: byte, rest: seq<byte>)
    requires Fits(f) && 4 <= i < Size(f) && b != Encode(f)[i]
    ensures First(Encode(f)[i := b] + rest).None?
  {
    hide Encode, Crc32c, LE, FromLE;
    var s, buf, len := Encode(f), Encode(f)[i := b] + rest, 5 + |f.payload|;
    var kind := KindByte(f.kind);
    Layout(f);
    assert buf[..4] == s[..4];
    if i == 4 {
      assert buf[5..len] == f.payload && buf[len..len + 4] == s[len..];
      KindChangesCrc(kind, b, f.payload);
    } else if i < len {
      assert buf[5..len] == f.payload[i - 5 := b] && buf[len..len + 4] == s[len..];
      PayloadChangesCrc(kind, f.payload, i - 5, b);
    } else {
      assert buf[5..len] == f.payload;
      var stored := buf[len..len + 4];
      assert stored[i - len] == b != s[len..][i - len];
      ToFromLE(stored);
      ToFromLE(s[len..]);
    }
  }

  /** Altering any one byte of a frame outside its length prefix makes decoding stop right before it. */
  lemma DamageIsDetected(before: seq<Frame>, f: Frame, i: nat, b: byte, rest: seq<byte>)
    requires AllFit(before) && Fits(f) && 4 <= i < Size(f) && b != Encode(f)[i]
    ensures Decode(EncodeAll(before) + (Encode(f)[i := b] + rest)).0 == before
    ensures Decode(EncodeAll(before) + (Encode(f)[i := b] + rest)).1 == |EncodeAll(before)|
  {
    hide Encode, First;
    DecodeAppend(before, Encode(f)[i := b] + rest);
    DamagedFrame(f, i, b, rest);
  }

  lemma {:induction false} EncodeAllAppend(fs: seq<Frame>, gs: seq<Frame>)
    ensures EncodeAll(fs + gs) == EncodeAll(fs) + EncodeAll(gs)
  {
    hide Encode, First;
    if fs == [] {
      assert fs + gs == gs;
    } else {
      EncodeAllAppend(fs[1..], gs);
      assert (fs + gs)[1..] == fs[1..] + gs;
    }
  }

  /** Any prefix of an encoded list is some of its frames and a torn one. */
  lemma {:induction false} DecodePrefix(fs: seq<Frame>, n: nat) returns (k: nat)
    requires AllFit(fs) && n <= |EncodeAll(fs)|
    ensures k <= |fs| && |EncodeAll(fs[..k])| <= n
    ensures Decode(EncodeAll(fs)[..n]).0 == fs[..k] && Decode(EncodeAll(fs)[..n]).1 == |EncodeAll(fs[..k])|
    ensures EncodeAll(fs[..k]) == EncodeAll(fs)[..|EncodeAll(fs[..k])|]
    ensures forall j | 0 <= j <= |fs| && |EncodeAll(fs[..j])| <= n :: j <= k
  {
    hide Encode, First;
    if fs == [] || n < Size(fs[0]) {
      k := 0;
      if fs != [] {
        assert EncodeAll(fs)[..n] == Encode(fs[0])[..n];
        TornFrame(fs[0], n);
        forall j | 0 < j <= |fs|
          ensures |EncodeAll(fs[..j])| > n
        {
          assert fs[..j][0] == fs[0];
        }
      }
    } else {
      var s := Size(fs[0]);
      var k' := DecodePrefix(fs[1..], n - s);
      k := k' + 1;
      assert fs[..k][0] == fs[0] && fs[..k][1..] == fs[1..][..k'];
      assert EncodeAll(fs[..k]) == Encode(fs[0]) + EncodeAll(fs[1..][..k']);
      var rest := EncodeAll(fs[1..])[..n - s];
      assert EncodeAll(fs)[..n] == Encode(fs[0]) + rest;
      FirstOfEncoding(fs[0], rest);
      assert (Encode(fs[0]) + rest)[s..] == rest;
      forall j | 0 < j <= |fs| && |EncodeAll(fs[..j])| <= n
        ensures j <= k
      {
        assert fs[..j][0] == fs[0] && fs[..j][1..] == fs[1..][..j - 1];
      }
    }
  }
}
