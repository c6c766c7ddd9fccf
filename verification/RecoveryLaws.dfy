/** Exactly which log and segment files are read, and what is read from them, whatever their bytes. */
module RecoveryLaws {
  import opened Wrappers
  import opened Bytes
  import opened Records
  import opened Wal
  import opened Segments
  import Frames

  /** The kind of a frame stands behind its length. */
  lemma FrameKinds(f: Frames.Frame)
    requires Frames.Fits(f)
    ensures Frames.Encode(f)[4] == if f.kind.Record? then 1 else if f.kind.Commit? then 2 else 3
  {
    Frames.Layout(f);
  }

  /** A log header is "OMVW", version 2 and the first sequence number, which is not zero. */
  predicate IsLogHeader(h: seq<byte>, start: nat) {
    0 < start < Pow256(8) && h == [0x4F, 0x4D, 0x56, 0x57, 2, 0] + LE(start, 8)
  }

  lemma TwoIsLE()
    ensures LE(2, 2) == [2, 0] && FromLE([2, 0]) == 2
  {
    assert LE(2, 2) == [2] + LE(0, 1);
    assert LE(0, 1) == [0] + LE(0, 0);
    FitsLE(2, 2);
    Widths();
  }

  lemma HeaderIff(h: seq<byte>, start: nat)
    requires |h| == HEADER_LEN
    ensures ParseHeader(h) == Ok(start) <==> IsLogHeader(h, start)
  {
    hide LE, FromLE, Pow256;
    TwoIsLE();
    ToFromLE(h[4..6]);
    ToFromLE(h[6..]);
    assert h == h[..4] + h[4..6] + h[6..];
    if IsLogHeader(h, start) {
      FitsLE(start, 8);
      assert h[..4] == MAGIC && h[4..6] == [2, 0] && h[6..] == LE(start, 8);
    }
  }

  // --- the log ---

  function SeqOf(f: Frames.Frame): nat { if |f.payload| < 8 then 0 else FromLE(f.payload[..8]) }

  /** A frame that recovery accepts: a number of at least the first one, a record that decodes, or nothing more. */
  predicate Acceptable(f: Frames.Frame, start: nat) {
    && |f.payload| >= 8 && SeqOf(f) >= start
    && (f.kind.Record? ==> Decode(f.payload[8..]).Ok?)
    && (f.kind.Commit? ==> |f.payload| == 8)
  }

  predicate Climbing(fs: seq<Frames.Frame>) {
    forall i, j | 0 <= i < j < |fs| :: SeqOf(fs[i]) < SeqOf(fs[j])
  }

  predicate AllAcceptable(fs: seq<Frames.Frame>, start: nat) {
    Climbing(fs) && forall i | 0 <= i < |fs| :: Acceptable(fs[i], start)
  }

  /** The records in a run of frames; barriers and checkpoint marks say nothing of records. */
  function RecordsIn(fs: seq<Frames.Frame>): seq<Numbered> {
    if fs == [] then [] else
    var front, f := RecordsIn(fs[..|fs| - 1]), fs[|fs| - 1];
    if f.kind.Record? && |f.payload| >= 8 && Decode(f.payload[8..]).Ok?
    then front + [(SeqOf(f), Decode(f.payload[8..]).value)] else front
  }

  lemma ScanStepIff(st: Scan, f: Frames.Frame, start: nat)
    ensures ScanStep(st, f, start).Ok? <==>
      Acceptable(f, start) && (st.lastSeq.Some? ==> st.lastSeq.value < SeqOf(f))
    ensures ScanStep(st, f, start).Ok? ==> ScanStep(st, f, start).value.lastSeq == Some(SeqOf(f))
  {
    hide Records.Decode, FromLE;
  }

  lemma ClimbingMore(fs: seq<Frames.Frame>, start: nat)
    requires fs != []
    ensures AllAcceptable(fs, start) <==>
      && AllAcceptable(fs[..|fs| - 1], start) && Acceptable(fs[|fs| - 1], start)
      && (|fs| > 1 ==> SeqOf(fs[|fs| - 2]) < SeqOf(fs[|fs| - 1]))
  {
    hide Acceptable, SeqOf;
    var k := |fs| - 1;
    assert forall i | 0 <= i < k :: fs[..k][i] == fs[i];
    if Climbing(fs[..k]) && (k > 0 ==> SeqOf(fs[k - 1]) < SeqOf(fs[k])) {
      forall i, j | 0 <= i < j < |fs|
        ensures SeqOf(fs[i]) < SeqOf(fs[j])
      {
        if j == k && i < k - 1 { assert SeqOf(fs[..k][i]) < SeqOf(fs[..k][k - 1]); }
        if j < k { assert SeqOf(fs[..k][i]) < SeqOf(fs[..k][j]); }
      }
    }
  }

  /** The scan accepts frames if and only if each is acceptable and their numbers strictly rise. */
  lemma {:induction false} ScanIff(fs: seq<Frames.Frame>, start: nat)
    ensures ScanAll(fs, start).Ok? <==> AllAcceptable(fs, start)
    ensures ScanAll(fs, start).Ok? ==>
      ScanAll(fs, start).value.lastSeq == if fs == [] then None else Some(SeqOf(fs[|fs| - 1]))
    decreases |fs|
  {
    hide ScanStep, Acceptable, SeqOf, Climbing;
    if fs == [] {
      assert Climbing(fs) by { NothingClimbs(); }
    } else {
      var k := |fs| - 1;
      ScanIff(fs[..k], start);
      ClimbingMore(fs, start);
      if ScanAll(fs[..k], start).Ok? { ScanStepIff(ScanAll(fs[..k], start).value, fs[k], start); }
    }
  }

  lemma NothingClimbs()
    ensures Climbing([])
  {
  }

  /** The last barrier ends the first c frames, or there is none. */
  predicate LastBarrierAt(fs: seq<Frames.Frame>, c: nat) {
    c <= |fs| && (c > 0 ==> fs[c - 1].kind.Commit?) && forall i | c <= i < |fs| :: !fs[i].kind.Commit?
  }

  /** What a scan keeps are the records up to the last barrier; those behind it are pending. */
  lemma {:induction false} ScanMeaning(fs: seq<Frames.Frame>, start: nat, c: nat)
    requires ScanAll(fs, start).Ok? && LastBarrierAt(fs, c)
    ensures var st := ScanAll(fs, start).value;
      && st.records == RecordsIn(fs[..c]) && st.records + st.pending == RecordsIn(fs)
      && st.committedSeq == (if c == 0 then 0 else SeqOf(fs[c - 1]))
      && st.validEnd == HEADER_LEN + |Frames.EncodeAll(fs[..c])|
    decreases |fs|
  {
    hide Records.Decode, FromLE, Frames.EncodeAll, Frames.Encode;
    ScanEnds(fs, start);
    if fs == [] {
      assert fs[..c] == [];
      Frames.EncodeNone();
    } else {
      var k := |fs| - 1;
      var st := ScanAll(fs[..k], start).value;
      if c == |fs| {
        assert fs[..c] == fs;
        BarrierStep(fs, start);
      } else {
        assert fs[..k][..c] == fs[..c];
        ScanMeaning(fs[..k], start, c);
        OpenStep(st, fs[k], start);
        assert forall x :: st.records + (st.pending + [x]) == (st.records + st.pending) + [x];
      }
    }
  }

  /** A frame that is no barrier leaves what was kept alone. */
  lemma OpenStep(st: Scan, f: Frames.Frame, start: nat)
    requires ScanStep(st, f, start).Ok? && !f.kind.Commit?
    ensures var t := ScanStep(st, f, start).value;
      && t.records == st.records && t.committedSeq == st.committedSeq && t.validEnd == st.validEnd
      && |f.payload| >= 8 && (f.kind.Checkpoint? ==> t.pending == st.pending)
      && (f.kind.Record? ==>
            && Decode(f.payload[8..]).Ok?
            && t.pending == st.pending + [(SeqOf(f), Decode(f.payload[8..]).value)])
  {
    hide Records.Decode, FromLE;
  }

  lemma {:induction false} SeenIs(fs: seq<Frames.Frame>, start: nat)
    requires ScanAll(fs, start).Ok?
    ensures var st := ScanAll(fs, start).value; st.records + st.pending == RecordsIn(fs)
    decreases |fs|
  {
    hide Records.Decode, FromLE;
    if fs != [] {
      var k := |fs| - 1;
      var st := ScanAll(fs[..k], start).value;
      SeenIs(fs[..k], start);
      if fs[k].kind.Commit? {
        assert st.records + st.pending + [] == st.records + st.pending;
      } else {
        OpenStep(st, fs[k], start);
        assert forall x :: st.records + (st.pending + [x]) == (st.records + st.pending) + [x];
      }
    }
  }

  lemma BarrierStep(fs: seq<Frames.Frame>, start: nat)
    requires fs != [] && ScanAll(fs, start).Ok? && fs[|fs| - 1].kind.Commit?
    ensures var st := ScanAll(fs, start).value;
      && st.records == RecordsIn(fs) && st.pending == [] && st.committedSeq == SeqOf(fs[|fs| - 1])
      && st.validEnd == st.frameEnd
  {
    hide Records.Decode, FromLE;
    SeenIs(fs[..|fs| - 1], start);
  }

  /** What recovery reports of frames whose last barrier ends the first c. */
  predicate Reports(r: Recovery, start: nat, fs: seq<Frames.Frame>, c: nat)
    requires c <= |fs|
  {
    && r.startSeq == start
    && r.records == RecordsIn(fs[..c]) && |r.records| + r.droppedUncommitted == |RecordsIn(fs)|
    && r.committedSeq == (if c == 0 then 0 else SeqOf(fs[c - 1]))
    && r.nextSeq == (if fs == [] then start else SeqOf(fs[|fs| - 1]) + 1)
    && r.validEnd == HEADER_LEN + |Frames.EncodeAll(fs[..c])|
  }

  lemma SummaryReports(fs: seq<Frames.Frame>, start: nat, c: nat, size: nat)
    requires ScanAll(fs, start).Ok? && LastBarrierAt(fs, c) && ScanAll(fs, start).value.validEnd <= size
    ensures Reports(Summary(ScanAll(fs, start).value, start, size), start, fs, c)
  {
    hide ScanAll, RecordsIn, SeqOf, Frames.EncodeAll, LastBarrierAt;
    assert c <= |fs| by { BarrierWithin(fs, c); }
    ScanIff(fs, start);
    ScanMeaning(fs, start, c);
  }

  lemma BarrierWithin(fs: seq<Frames.Frame>, c: nat)
    requires LastBarrierAt(fs, c)
    ensures c <= |fs|
  {
  }

  /** For any bytes at least as long as a header: recovery accepts them if and only if they start with a header and
      every whole frame behind it is acceptable; it reports the records up to the last barrier and cuts the file
      behind it. */
  lemma RecoverMeaning(bytes: seq<byte>, fs: seq<Frames.Frame>, c: nat)
    requires |bytes| >= HEADER_LEN && fs == Frames.Decode(bytes[HEADER_LEN..]).0 && LastBarrierAt(fs, c)
    ensures Recover(bytes).Ok? <==>
      exists start: nat :: IsLogHeader(bytes[..HEADER_LEN], start) && AllAcceptable(fs, start)
    ensures Recover(bytes).Ok? ==>
      var (r, left) := Recover(bytes).value;
      && IsLogHeader(bytes[..HEADER_LEN], r.startSeq) && Reports(r, r.startSeq, fs, c)
      && left <= bytes && |left| == r.validEnd && r.truncatedBytes == |bytes| - |left|
  {
    hide Frames.EncodeAll, Frames.Decode, ScanAll, ParseHeader, IsLogHeader, AllAcceptable, RecordsIn, SeqOf, Reports,
         LastBarrierAt;
    var h := bytes[..HEADER_LEN];
    forall start: nat
      ensures ParseHeader(h) == Ok(start) <==> IsLogHeader(h, start)
    {
      HeaderIff(h, start);
    }
    if ParseHeader(h).Ok? {
      var start := ParseHeader(h).value;
      ScanIff(fs, start);
      if ScanAll(fs, start).Ok? {
        ScanEnds(fs, start);
        DecodedSize(bytes[HEADER_LEN..]);
        SummaryReports(fs, start, c, |bytes|);
      }
    }
  }

  // --- segments ---

  /** A segment file: "OMVS", version 2, the number of frames, and a record frame for each entry, in rising order. */
  ghost predicate IsSegment(bytes: seq<byte>, fs: seq<Frames.Frame>, es: seq<Numbered>) {
    && |fs| == |es| < 0x1_0000_0000 && Frames.AllFit(fs) && Ascending(es)
    && bytes == [0x4F, 0x4D, 0x56, 0x53, 2, 0] + LE(|fs|, 4) + Frames.EncodeAll(fs)
    && forall i | 0 <= i < |fs| :: Holds(fs[i], es[i])
  }

  predicate Holds(f: Frames.Frame, e: Numbered) {
    f.kind.Record? && |f.payload| >= 8 && SeqOf(f) == e.0 && Decode(f.payload[8..]) == Ok(e.1)
  }

  lemma EntryIff(f: Frames.Frame, e: Numbered)
    ensures ReadEntryFrame(f) == Ok(e) <==> Holds(f, e)
  {
    hide Records.Decode, FromLE;
  }

  lemma {:induction false} ReadAllIff(fs: seq<Frames.Frame>, es: seq<Numbered>)
    ensures ReadAll(fs) == Ok(es) <==>
      |fs| == |es| && Ascending(es) && forall i | 0 <= i < |fs| :: Holds(fs[i], es[i])
    decreases |fs|
  {
    hide ReadEntryFrame, Holds;
    if fs != [] {
      var k := |fs| - 1;
      if ReadAll(fs) == Ok(es) {
        var front := ReadAll(fs[..k]).value;
        ReadAllIff(fs[..k], front);
        EntryIff(fs[k], es[k]);
        assert es == front + [es[k]];
      }
      if |fs| == |es| && Ascending(es) && forall i | 0 <= i < |fs| :: Holds(fs[i], es[i]) {
        ReadAllIff(fs[..k], es[..k]);
        EntryIff(fs[k], es[k]);
        assert es == es[..k] + [es[k]];
      }
    }
  }

  lemma SegHeaderIff(bytes: seq<byte>, fs: seq<Frames.Frame>)
    requires |bytes| >= SEG_HEADER_LEN && |fs| < 0x1_0000_0000
    ensures bytes[..4] == SEG_MAGIC && FromLE(bytes[4..6]) == SEG_VERSION && FromLE(bytes[6..10]) == |fs|
      <==> bytes[..SEG_HEADER_LEN] == [0x4F, 0x4D, 0x56, 0x53, 2, 0] + LE(|fs|, 4)
  {
    hide LE, FromLE;
    var h := bytes[..SEG_HEADER_LEN];
    TwoIsLE();
    Widths();
    ToFromLE(bytes[4..6]);
    ToFromLE(bytes[6..10]);
    FitsLE(|fs|, 4);
    assert h == bytes[..4] + bytes[4..6] + bytes[6..10];
    if h == [0x4F, 0x4D, 0x56, 0x53, 2, 0] + LE(|fs|, 4) {
      assert bytes[..4] == h[..4] == SEG_MAGIC && bytes[4..6] == h[4..6] == [2, 0] && bytes[6..10] == h[6..10];
    }
  }

  /** Opening a file gives a list of entries if and only if the file is a segment of those entries. */
  lemma OpenIff(bytes: seq<byte>, es: seq<Numbered>)
    ensures Open(bytes) == Ok(es) <==> exists fs :: IsSegment(bytes, fs, es)
  {
    hide LE, FromLE, Frames.EncodeAll, Frames.Decode, ReadAll, Holds, Ascending;
    if Open(bytes) == Ok(es) {
      var rest := bytes[SEG_HEADER_LEN..];
      var fs := Frames.Decode(rest).0;
      Frames.DecodeSound(rest);
      CountFits(bytes);
      SegHeaderIff(bytes, fs);
      ReadAllIff(fs, es);
      assert bytes == bytes[..SEG_HEADER_LEN] + rest && rest[..|rest|] == rest;
      assert IsSegment(bytes, fs, es);
    }
    if fs :| IsSegment(bytes, fs, es) {
      var head := [0x4F, 0x4D, 0x56, 0x53, 2, 0] + LE(|fs|, 4);
      assert bytes[..SEG_HEADER_LEN] == head && bytes[SEG_HEADER_LEN..] == Frames.EncodeAll(fs);
      Frames.RoundTrip(fs);
      SegHeaderIff(bytes, fs);
      ReadAllIff(fs, es);
    }
  }

  lemma CountFits(bytes: seq<byte>)
    requires |bytes| >= 10
    ensures FromLE(bytes[6..10]) < 0x1_0000_0000
  {
    Widths();
  }
}
