/** Sealed segment files: `magic | version | count | frames`, read whole or not at all. */
module Segments {
  import opened Wrappers
  import opened Bytes
  import opened Records
  import opened RecordLaws
  import opened Wal
  import opened WalLaws
  import Frames

  const SEG_MAGIC: seq<byte> := [0x4F, 0x4D, 0x56, 0x53]  // "OMVS"
  const SEG_VERSION: nat := 2
  const SEG_HEADER_LEN: nat := 10

  function SegHeader(count: nat): (h: seq<byte>)
    ensures |h| == SEG_HEADER_LEN
  {
    SEG_MAGIC + LE(SEG_VERSION, 2) + LE(count, 4)
  }

  function EntryBody(e: Numbered): Frames.Frame {
    EntryFrame(Write(e.0, e.1))
  }

  function Bodies(es: seq<Numbered>): (fs: seq<Frames.Frame>)
    ensures |fs| == |es|
  {
    seq(|es|, i requires 0 <= i < |es| => EntryBody(es[i]))
  }

  predicate Ascending(es: seq<Numbered>) {
    forall i, j | 0 <= i < j < |es| :: es[i].0 < es[j].0
  }

  predicate AllEncode(es: seq<Numbered>) {
    forall i | 0 <= i < |es| :: Encodable(es[i].1)
  }

  function FileBytes(es: seq<Numbered>): seq<byte> {
    SegHeader(|es|) + Frames.EncodeAll(Bodies(es))
  }

  /** The file content, refused when the sequence numbers do not strictly increase or a record does not encode. */
  method WriteSegment(es: seq<Numbered>) returns (res: Result<seq<byte>, Error>)
    ensures Ascending(es) ==> res == if AllEncode(es) then Ok(FileBytes(es)) else Err(Schema)
    ensures !Ascending(es) ==> res.Err?
  {
    hide Frames.Encode, Records.Body, LE, Encodable;
    var body := SegHeader(|es|);
    assert Bodies(es[..0]) == [];
    for i := 0 to |es|
      invariant forall j, k | 0 <= j < k < i :: es[j].0 < es[k].0
      invariant forall j | 0 <= j < i :: Encodable(es[j].1)
      invariant body == SegHeader(|es|) + Frames.EncodeAll(Bodies(es[..i]))
    {
      if i > 0 && es[i].0 <= es[i - 1].0 {
        return Err(Error.Segment);
      }
      var payload := EncodeRecord(es[i].1);
      if payload.Err? {
        return Err(payload.error);
      }
      body := Frames.EncodeFrame(Frames.Frame(Frames.Record, LE(es[i].0, 8) + payload.value), body);
      assert Bodies(es[..i + 1]) == Bodies(es[..i]) + [EntryBody(es[i])];
      Frames.EncodeAllAppend(Bodies(es[..i]), [EntryBody(es[i])]);
      assert [EntryBody(es[i])][1..] == [];
    }
    assert es[..|es|] == es;
    return Ok(body);
  }

  function ReadEntryFrame(f: Frames.Frame): Result<Numbered, Error> {
    if f.kind != Frames.Record then Err(Error.Segment) else
    match FrameSeq(f.payload)
    case Err(_) => Err(Error.Segment)
    case Ok(sn) =>
      match Decode(f.payload[8..])
      case Err(_) => Err(Error.Segment)
      case Ok(r) => Ok((sn, r))
  }

  /** All frames as entries, each above the one before. */
  function ReadAll(fs: seq<Frames.Frame>): Result<seq<Numbered>, Error> {
    if fs == [] then Ok([]) else
    var front :- ReadAll(fs[..|fs| - 1]);
    var e :- ReadEntryFrame(fs[|fs| - 1]);
    if front != [] && e.0 <= front[|front| - 1].0 then Err(Error.Segment) else Ok(front + [e])
  }

  function Open(bytes: seq<byte>): Result<seq<Numbered>, Error> {
    if |bytes| < SEG_HEADER_LEN then Err(Error.Segment)
    else if bytes[..4] != SEG_MAGIC || FromLE(bytes[4..6]) != SEG_VERSION then Err(Error.Segment)
    else
      var (fs, consumed) := Frames.Decode(bytes[SEG_HEADER_LEN..]);
      if consumed != |bytes| - SEG_HEADER_LEN || |fs| != FromLE(bytes[6..10]) then Err(Error.Segment)
      else ReadAll(fs)
  }

  method OpenSegment(bytes: seq<byte>) returns (res: Result<seq<Numbered>, Error>)
    ensures res == Open(bytes)
  {
    hide Frames.First, FromLE, ReadEntryFrame;
    if |bytes| < SEG_HEADER_LEN {
      return Err(Error.Segment);
    }
    if bytes[..4] != SEG_MAGIC || FromLE(bytes[4..6]) != SEG_VERSION {
      return Err(Error.Segment);
    }
    var fs, consumed := Frames.DecodeFrames(bytes[SEG_HEADER_LEN..]);
    if consumed != |bytes| - SEG_HEADER_LEN || |fs| != FromLE(bytes[6..10]) {
      return Err(Error.Segment);
    }
    var records: seq<Numbered> := [];
    assert fs[..0] == [];
    for i := 0 to |fs|
      invariant ReadAll(fs[..i]) == Ok(records)
    {
      assert fs[..i + 1][..i] == fs[..i];
      ReadAllStops(fs, i + 1);
      var e := OpenEntry(fs[i]);
      if e.Err? || (records != [] && e.value.0 <= records[|records| - 1].0) {
        return Err(Error.Segment);
      }
      records := records + [e.value];
    }
    assert fs[..|fs|] == fs;
    return Ok(records);
  }

  /** The body of the loop over frames: kind, sequence number, record. */
  method OpenEntry(f: Frames.Frame) returns (e: Result<Numbered, Error>)
    ensures e == ReadEntryFrame(f)
  {
    hide Records.Decode, FromLE;
    if f.kind != Frames.Record || |f.payload| < 8 {
      return Err(Error.Segment);
    }
    var r := DecodeRecord(f.payload[8..]);
    if r.Err? {
      return Err(Error.Segment);
    }
    return Ok((FromLE(f.payload[..8]), r.value));
  }

  lemma {:induction false} ReadAllStops(fs: seq<Frames.Frame>, i: nat)
    requires i <= |fs|
    ensures ReadAll(fs[..i]).Err? ==> ReadAll(fs) == Err(Error.Segment)
    decreases |fs| - i
  {
    hide ReadEntryFrame;
    ReadAllErrors(fs);
    if i == |fs| {
      assert fs[..i] == fs;
    } else {
      assert fs[..i + 1][..i] == fs[..i];
      ReadAllStops(fs, i + 1);
    }
  }

  lemma {:induction false} ReadAllErrors(fs: seq<Frames.Frame>)
    ensures ReadAll(fs).Err? ==> ReadAll(fs) == Err(Error.Segment)
  {
    hide Records.Decode, FromLE;
    if fs != [] { ReadAllErrors(fs[..|fs| - 1]); }
  }

  /** What a segment can hold. */
  ghost predicate Sealable(es: seq<Numbered>) {
    Ascending(es) && forall i | 0 <= i < |es| :: es[i].0 < SEQ_LIMIT && Storable(es[i].1)
  }

  lemma EntryBack(e: Numbered)
    requires e.0 < SEQ_LIMIT && Storable(e.1)
    ensures ReadEntryFrame(EntryBody(e)) == Ok(e)
  {
    hide Records.Decode, LE, FromLE, Body;
    SeqBack(Write(e.0, e.1));
    RoundTripIff(e.1);
    assert Encode(e.1) == Ok(Body(e.1));
  }

  lemma {:induction false} ReadAllBack(es: seq<Numbered>)
    requires Sealable(es)
    ensures ReadAll(Bodies(es)) == Ok(es)
    decreases |es|
  {
    hide ReadEntryFrame, EntryBody, Storable;
    if es != [] {
      var k := |es| - 1;
      ReadAllBack(es[..k]);
      assert Bodies(es)[..k] == Bodies(es[..k]);
      EntryBack(es[k]);
      assert es == es[..k] + [es[k]];
    }
  }

  /** The entry count keeps its low 32 bits. */
  lemma HeaderFields(count: nat, rest: seq<byte>)
    ensures var b := SegHeader(count) + rest;
      && b[..4] == SEG_MAGIC && FromLE(b[4..6]) == SEG_VERSION && FromLE(b[6..10]) == count % 0x1_0000_0000
      && b[SEG_HEADER_LEN..] == rest
  {
    hide LE, FromLE;
    Widths();
    FitsLE(SEG_VERSION, 2);
    FromToLE(count, 4);
    var b := SegHeader(count) + rest;
    assert b[4..6] == LE(SEG_VERSION, 2) && b[6..10] == LE(count, 4);
  }

  lemma BodiesFit(es: seq<Numbered>)
    requires Sealable(es)
    ensures Frames.AllFit(Bodies(es))
  {
    hide Body;
  }

  /** A written segment reads back entry for entry, if and only if its count fits 32 bits; else it does not open. */
  lemma SegmentRoundTrip(es: seq<Numbered>)
    requires Sealable(es)
    ensures Open(FileBytes(es)) == if |es| < 0x1_0000_0000 then Ok(es) else Err(Error.Segment)
  {
    hide Frames.EncodeAll, Frames.Decode, ReadAll, SegHeader, FromLE, Bodies;
    BodiesFit(es);
    Frames.RoundTrip(Bodies(es));
    HeaderFields(|es|, Frames.EncodeAll(Bodies(es)));
    ReadAllBack(es);
  }

  /** No strict prefix of a segment opens: there is no prefix recovery for sealed files. */
  lemma TornSegmentRejected(es: seq<Numbered>, n: nat)
    requires Sealable(es) && |es| < 0x1_0000_0000 && n < |FileBytes(es)|
    ensures Open(FileBytes(es)[..n]).Err?
  {
    hide Frames.EncodeAll, Frames.Decode, ReadAll, SegHeader, FromLE, Bodies;
    if n >= SEG_HEADER_LEN {
      var fs := Bodies(es);
      assert fs[..|fs|] == fs;
      BodiesFit(es);
      var k := Frames.DecodePrefix(fs, n - SEG_HEADER_LEN);
      var torn := FileBytes(es)[..n];
      var rest := Frames.EncodeAll(fs)[..n - SEG_HEADER_LEN];
      assert torn == SegHeader(|es|) + rest;
      HeaderFields(|es|, rest);
    }
  }

  /** Nor does a segment with bytes after its last frame. */
  lemma TrailingBytesRejected(es: seq<Numbered>, t: seq<byte>)
    requires Sealable(es) && t != []
    ensures Open(FileBytes(es) + t).Err?
  {
    hide Frames.EncodeAll, ReadAll, SegHeader, FromLE, Bodies, Frames.First;
    var fs := Bodies(es);
    BodiesFit(es);
    Frames.DecodeAppend(fs, t);
    assert FileBytes(es) + t == SegHeader(|es|) + (Frames.EncodeAll(fs) + t);
    HeaderFields(|es|, Frames.EncodeAll(fs) + t);
  }
}
