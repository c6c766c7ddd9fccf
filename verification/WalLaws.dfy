/** Recovery of logs: what a written log gives back after any cut, and recovery of a recovered log. */
module WalLaws {
  import opened Wrappers
  import opened Bytes
  import opened Records
  import opened RecordLaws
  import opened Wal
  import Frames

  const SEQ_LIMIT: nat := 0x1_0000_0000_0000_0000

  // --- the meaning of a list of entries ---

  function FramesOf(es: seq<Entry>): (fs: seq<Frames.Frame>)
    ensures |fs| == |es|
  {
    seq(|es|, i requires 0 <= i < |es| => EntryFrame(es[i]))
  }

  function LogBytes(es: seq<Entry>): seq<byte> {
    HeaderBytes(FIRST_SEQ) + Frames.EncodeAll(FramesOf(es))
  }

  /** All records in the list, in order. */
  function RecordsOf(es: seq<Entry>): seq<Numbered> {
    if es == [] then [] else
    var last := es[|es| - 1];
    RecordsOf(es[..|es| - 1]) + (if last.Write? then [(last.sn, last.record)] else [])
  }

  /** How many entries the last barrier covers, itself included. */
  function Covered(es: seq<Entry>): (n: nat)
    ensures n <= |es|
  {
    if es == [] then 0
    else if es[|es| - 1].Barrier? then |es|
    else Covered(es[..|es| - 1])
  }

  function LastBarrier(es: seq<Entry>): nat {
    if Covered(es) == 0 then 0 else es[Covered(es) - 1].sn
  }

  function NextSeq(es: seq<Entry>): nat {
    if es == [] then FIRST_SEQ else es[|es| - 1].sn + 1
  }

  /** What the format can carry: lengths within bounds and a frame length that fits its prefix. */
  predicate Storable(r: Record) {
    Encodable(r) && InBounds(r) && |Body(r)| < 0xFFFF_FFF0
  }

  predicate Increasing(es: seq<Entry>) {
    && (forall i | 0 <= i < |es| :: FIRST_SEQ <= es[i].sn < SEQ_LIMIT)
    && (forall i, j | 0 <= i < j < |es| :: es[i].sn < es[j].sn)
  }

  /** A log as the writer leaves it. */
  ghost predicate Written(es: seq<Entry>) {
    Increasing(es) && forall i | 0 <= i < |es| && es[i].Write? :: Storable(es[i].record)
  }

  /** A log of whatever records `encode` accepts, in frames that fit their length prefix. */
  ghost predicate Framed(es: seq<Entry>) {
    && Increasing(es)
    && forall i | 0 <= i < |es| && es[i].Write? ::
         Encodable(es[i].record) && |Body(es[i].record)| < 0xFFFF_FFF0
  }

  /** Recovery can decode what the entry wrote. */
  predicate Decodable(e: Entry) { e.Write? ==> Decode(Body(e.record)).Ok? }

  predicate AllDecode(es: seq<Entry>) { forall i | 0 <= i < |es| :: Decodable(es[i]) }

  /** The entry that recovery finds in place of one that was written. */
  function Reread(e: Entry): Entry {
    if e.Write? && Decodable(e) then Write(e.sn, Decode(Body(e.record)).value) else e
  }

  function ReadBack(es: seq<Entry>): (rs: seq<Entry>)
    ensures |rs| == |es|
  {
    seq(|es|, i requires 0 <= i < |es| => Reread(es[i]))
  }

  /** An entry is read back as it was written exactly when its record is within the format's bounds. */
  lemma RereadIff(e: Entry)
    requires e.Write? ==> Encodable(e.record)
    ensures Decodable(e) && Reread(e) == e <==> (e.Write? ==> InBounds(e.record))
  {
    hide Decode, Body, InBounds, Encodable;
    if e.Write? {
      RoundTripIff(e.record);
      assert Encode(e.record) == Ok(Body(e.record));
    }
  }

  lemma WrittenReads(es: seq<Entry>)
    requires Written(es)
    ensures Framed(es) && AllDecode(es) && ReadBack(es) == es
  {
    hide Decodable, Reread, Body, InBounds, Encodable;
    forall i | 0 <= i < |es|
      ensures Decodable(es[i]) && Reread(es[i]) == es[i]
    {
      RereadIff(es[i]);
    }
  }

  lemma WrittenPrefix(es: seq<Entry>, k: nat)
    requires Written(es) && k <= |es|
    ensures Written(es[..k])
  {
  }

  lemma WrittenAppend(es: seq<Entry>, e: Entry)
    requires Written(es) && NextSeq(es) <= e.sn < SEQ_LIMIT && (e.Write? ==> Storable(e.record))
    ensures Written(es + [e])
  {
    hide Storable;
    assert forall i | 0 <= i < |es| :: es[i].sn < NextSeq(es);
  }

  lemma FramesFit(es: seq<Entry>)
    requires Framed(es)
    ensures Frames.AllFit(FramesOf(es))
  {
    hide Body;
  }

  // --- scanning a log ---

  lemma SeqBack(e: Entry)
    requires e.sn < SEQ_LIMIT
    ensures FrameSeq(EntryFrame(e).payload) == Ok(e.sn)
    ensures e.Write? ==> EntryFrame(e).payload[8..] == Body(e.record)
  {
    hide LE, FromLE, Body;
    Widths();
    FitsLE(e.sn, 8);
    assert EntryFrame(e).payload[..8] == LE(e.sn, 8);
  }

  /** The scan state that stands for a list of entries. */
  ghost predicate Stands(st: Scan, es: seq<Entry>) {
    var c := Covered(es);
    && st.records == RecordsOf(ReadBack(es[..c]))
    && st.pending == RecordsOf(ReadBack(es[c..]))
    && st.lastSeq == (if es == [] then None else Some(es[|es| - 1].sn))
    && st.committedSeq == LastBarrier(es)
    && st.validEnd == |LogBytes(es[..c])|
    && st.frameEnd == |LogBytes(es)|
  }

  lemma LogBytesAppend(es: seq<Entry>, e: Entry)
    ensures LogBytes(es + [e]) == LogBytes(es) + Frames.Encode(EntryFrame(e))
  {
    hide Frames.Encode, EntryFrame;
    assert FramesOf(es + [e]) == FramesOf(es) + [EntryFrame(e)];
    Frames.EncodeAllAppend(FramesOf(es), [EntryFrame(e)]);
    assert [EntryFrame(e)][1..] == [];
    assert Frames.EncodeAll([EntryFrame(e)]) == Frames.Encode(EntryFrame(e)) + Frames.EncodeAll([]);
  }

  lemma RecordsAppend(es: seq<Entry>, e: Entry)
    ensures RecordsOf(es + [e]) == RecordsOf(es) + (if e.Write? then [(e.sn, e.record)] else [])
  {
    assert (es + [e])[..|es|] == es;
  }

  lemma ScanEntry(st: Scan, e: Entry)
    requires FIRST_SEQ <= e.sn < SEQ_LIMIT
    requires st.lastSeq.Some? ==> st.lastSeq.value < e.sn
    ensures ScanStep(st, EntryFrame(e), FIRST_SEQ) ==
      if Decodable(e) then Ok(Scanned(st, e)) else Err(Error.Wal)
  {
    hide LE, FromLE, Body, Records.Decode;
    SeqBack(e);
  }

  lemma {:induction false} RecordsConcat(es: seq<Entry>, c: nat)
    requires c <= |es|
    ensures RecordsOf(es) == RecordsOf(es[..c]) + RecordsOf(es[c..])
    decreases |es|
  {
    if c == |es| {
      assert es[..c] == es && es[c..] == [];
    } else {
      var k := |es| - 1;
      RecordsConcat(es[..k], c);
      assert es[..k][..c] == es[..c] && es[c..] == es[..k][c..] + [es[k]];
      RecordsAppend(es[..k][c..], es[k]);
    }
  }

  function Scanned(st: Scan, e: Entry): Scan {
    var end := st.frameEnd + Frames.Size(EntryFrame(e));
    if e.Write? then st.(pending := st.pending + [(e.sn, Reread(e).record)], lastSeq := Some(e.sn), frameEnd := end)
    else Scan(st.records + st.pending, [], Some(e.sn), e.sn, end, end)
  }

  lemma CoveredAppend(es: seq<Entry>, e: Entry)
    ensures Covered(es + [e]) == if e.Barrier? then |es| + 1 else Covered(es)
    ensures LastBarrier(es + [e]) == if e.Barrier? then e.sn else LastBarrier(es)
  {
    CoveredLast(es + [e]);
    assert (es + [e])[..|es|] == es;
    hide Covered;
    var c := Covered(es + [e]);
    assert c > 0 && e.Write? ==> (es + [e])[c - 1] == es[c - 1];
  }

  lemma CoveredLast(es: seq<Entry>)
    requires es != []
    ensures Covered(es) == if es[|es| - 1].Barrier? then |es| else Covered(es[..|es| - 1])
  {
  }

  lemma ReadBackAppend(es: seq<Entry>, e: Entry)
    ensures ReadBack(es + [e]) == ReadBack(es) + [Reread(e)]
    ensures RecordsOf(ReadBack(es + [e]))
         == RecordsOf(ReadBack(es)) + (if e.Write? then [(e.sn, Reread(e).record)] else [])
  {
    hide Reread, RecordsOf;
    assert Reread(e).Write? == e.Write? && Reread(e).sn == e.sn by { RereadKind(e); }
    RecordsAppend(ReadBack(es), Reread(e));
  }

  lemma RereadKind(e: Entry)
    ensures Reread(e).Write? == e.Write? && Reread(e).sn == e.sn
  {
    hide Decodable, Decode;
  }

  lemma ReadBackConcat(es: seq<Entry>, c: nat)
    requires c <= |es|
    ensures RecordsOf(ReadBack(es)) == RecordsOf(ReadBack(es[..c])) + RecordsOf(ReadBack(es[c..]))
  {
    hide Reread, RecordsOf;
    RecordsConcat(ReadBack(es), c);
    assert ReadBack(es)[..c] == ReadBack(es[..c]) && ReadBack(es)[c..] == ReadBack(es[c..]);
  }

  lemma StandsStep(st: Scan, front: seq<Entry>, e: Entry)
    requires Stands(st, front)
    ensures Stands(Scanned(st, e), front + [e])
  {
    hide EntryFrame, Frames.Encode, LogBytes, Covered, RecordsOf, LastBarrier, ReadBack, Reread;
    var es, c := front + [e], Covered(front);
    LogBytesAppend(front, e);
    CoveredAppend(front, e);
    if e.Write? {
      assert front[..c] == es[..c] && es[c..] == front[c..] + [e];
      ReadBackAppend(front[c..], e);
    } else {
      assert es[..|es|] == es && es[|es|..] == [];
      NothingRead();
      ReadBackConcat(front, c);
      ReadBackAppend(front, e);
    }
  }

  lemma NothingRead()
    ensures RecordsOf(ReadBack([])) == []
  {
    assert ReadBack([]) == [];
  }

  lemma RecordsOfNone()
    ensures RecordsOf([]) == []
  {
  }

  lemma StandsEmpty()
    ensures Stands(START_SCAN, [])
  {
    EmptyLog();
    NothingRead();
    var none: seq<Entry> := [];
    assert none[..0] == none && none[0..] == none;
  }

  /** Scanning a log fails exactly when some record in it does not decode. Otherwise it collects what the
      records up to the last barrier decode to, and keeps the rest pending. */
  lemma {:induction false} ScanFramed(es: seq<Entry>)
    requires Framed(es)
    ensures ScanAll(FramesOf(es), FIRST_SEQ).Err? ==> ScanAll(FramesOf(es), FIRST_SEQ) == Err(Error.Wal)
    ensures ScanAll(FramesOf(es), FIRST_SEQ).Ok? <==> AllDecode(es)
    ensures AllDecode(es) ==> Stands(ScanAll(FramesOf(es), FIRST_SEQ).value, es)
    decreases |es|
  {
    hide ScanStep, EntryFrame, Decodable, AllDecode, Scanned, Stands, Framed;
    ScanErrors(FramesOf(es), FIRST_SEQ);
    if es == [] {
      StandsEmpty();
      AllDecodeParts(es);
      assert FramesOf(es) == [];
    } else {
      var k := |es| - 1;
      assert FramesOf(es)[..k] == FramesOf(es[..k]);
      FramedPrefix(es, k);
      ScanFramed(es[..k]);
      assert es == es[..k] + [es[k]];
      AllDecodeParts(es);
      if AllDecode(es[..k]) {
        var st := ScanAll(FramesOf(es[..k]), FIRST_SEQ).value;
        NextFits(st, es);
        ScanEntry(st, es[k]);
        StandsStep(st, es[..k], es[k]);
      }
    }
  }

  lemma AllDecodeParts(es: seq<Entry>)
    ensures es == [] ==> AllDecode(es)
    ensures es != [] ==> (AllDecode(es) <==> AllDecode(es[..|es| - 1]) && Decodable(es[|es| - 1]))
  {
    hide Decodable;
    if es != [] { assert forall i | 0 <= i < |es| - 1 :: es[..|es| - 1][i] == es[i]; }
  }

  lemma NextFits(st: Scan, es: seq<Entry>)
    requires Framed(es) && es != [] && Stands(st, es[..|es| - 1])
    ensures var e := es[|es| - 1];
      FIRST_SEQ <= e.sn < SEQ_LIMIT && (st.lastSeq.Some? ==> st.lastSeq.value < e.sn)
  {
    hide LogBytes, Covered, RecordsOf, ReadBack, Body, Encodable;
  }

  lemma EmptyLog()
    ensures LogBytes([]) == HeaderBytes(FIRST_SEQ)
  {
    assert FramesOf([]) == [];
  }

  lemma HeaderBack(start: nat)
    requires FIRST_SEQ <= start < SEQ_LIMIT
    ensures ParseHeader(HeaderBytes(start)) == Ok(start)
  {
    hide LE, FromLE;
    Widths();
    FitsLE(VERSION, 2);
    FitsLE(start, 8);
    assert HeaderBytes(start)[4..6] == LE(VERSION, 2) && HeaderBytes(start)[6..] == LE(start, 8);
  }

  /** The report for a log of which `size` bytes were found. */
  function Report(es: seq<Entry>, size: nat): Recovery
    requires |LogBytes(es[..Covered(es)])| <= size
  {
    var kept := es[..Covered(es)];
    Recovery(LastBarrier(es), NextSeq(es), FIRST_SEQ, RecordsOf(ReadBack(kept)), size - |LogBytes(kept)|,
             |LogBytes(kept)|, |RecordsOf(ReadBack(es[Covered(es)..]))|)
  }

  lemma LogBytesPrefix(es: seq<Entry>, k: nat)
    requires k <= |es|
    ensures LogBytes(es[..k]) <= LogBytes(es)
  {
    hide Frames.Encode;
    assert FramesOf(es) == FramesOf(es[..k]) + FramesOf(es[k..]);
    Frames.EncodeAllAppend(FramesOf(es[..k]), FramesOf(es[k..]));
  }

  /** The bytes that hold the first k entries, as a length, grow with k. */
  lemma LongerLog(es: seq<Entry>, j: nat, k: nat)
    requires j <= k <= |es|
    ensures |LogBytes(es[..j])| <= |LogBytes(es[..k])|
    ensures j < k ==> |LogBytes(es[..j])| < |LogBytes(es[..k])|
    decreases k - j
  {
    hide LogBytes;
    if j < k {
      LongerLog(es, j, k - 1);
      assert es[..k] == es[..k - 1] + [es[k - 1]];
      LogBytesAppend(es[..k - 1], es[k - 1]);
    }
  }

  /** Recovery of whole frames, unfolded. */
  lemma RecoverUnfold(bytes: seq<byte>, start: nat, fs: seq<Frames.Frame>)
    requires |bytes| >= HEADER_LEN && ParseHeader(bytes[..HEADER_LEN]) == Ok(start)
    requires Frames.Decode(bytes[HEADER_LEN..]).0 == fs
    ensures ScanAll(fs, start).Err? ==> Recover(bytes).Err?
    ensures ScanAll(fs, start).Ok? ==> var st := ScanAll(fs, start).value;
      st.validEnd <= |bytes| && Recover(bytes) == Ok((Summary(st, start, |bytes|), bytes[..st.validEnd]))
  {
    hide ParseHeader, Frames.Decode, ScanAll, Summary;
    if ScanAll(fs, start).Ok? {
      ScanEnds(fs, start);
      DecodedSize(bytes[HEADER_LEN..]);
    }
  }

  /** Cut a log anywhere: what a whole frame holds must decode, and then recovery keeps what the last
      whole barrier covers, as it decodes, and leaves exactly those entries in the file. */
  lemma RecoverFramed(es: seq<Entry>, n: nat) returns (k: nat)
    requires Framed(es) && n <= |LogBytes(es)|
    ensures k <= |es|
    ensures n < HEADER_LEN ==> k == 0 && Recover(LogBytes(es)[..n]) == Recover([])
    ensures n >= HEADER_LEN ==> |LogBytes(es[..k])| <= n
    ensures n >= HEADER_LEN ==> var c := Covered(es[..k]);
      && |LogBytes(es[..k][..c])| <= n
      && Recover(LogBytes(es)[..n]) ==
         if AllDecode(es[..k]) then Ok((Report(es[..k], n), LogBytes(es[..c]))) else Err(Error.Wal)
    ensures forall j | 0 <= j <= |es| && |LogBytes(es[..j])| <= n :: j <= k
  {
    hide Frames.Decode, ParseHeader, ScanAll, HeaderBytes, ReadBack, AllDecode, LogBytes, Framed, Summary,
         Report, Recover, Covered;
    k := CutFrames(es, n);
    if n < HEADER_LEN {
      TornHeader(es, n);
    } else {
      var c := Covered(es[..k]);
      assert es[..k][..c] == es[..c];
      FramedPrefix(es, k);
      ScanFramed(es[..k]);
      HeaderBack(FIRST_SEQ);
      RecoverUnfold(LogBytes(es)[..n], FIRST_SEQ, FramesOf(es[..k]));
      LogBytesPrefix(es, c);
      LogBytesPrefix(es[..k], c);
      ErrorIsWal(LogBytes(es)[..n]);
      if AllDecode(es[..k]) {
        var st := ScanAll(FramesOf(es[..k]), FIRST_SEQ).value;
        ReportIs(es[..k], n, st);
        assert LogBytes(es)[..n][..st.validEnd] == LogBytes(es)[..st.validEnd] == LogBytes(es[..c]);
      }
    }
  }

  lemma ReportIs(es: seq<Entry>, n: nat, st: Scan)
    requires Stands(st, es) && |LogBytes(es[..Covered(es)])| <= n
    ensures st.validEnd == |LogBytes(es[..Covered(es)])| && Summary(st, FIRST_SEQ, n) == Report(es, n)
  {
    hide LogBytes, Covered, RecordsOf, ReadBack;
  }

  lemma ErrorIsWal(bytes: seq<byte>)
    ensures Recover(bytes).Err? ==> Recover(bytes) == Err(Error.Wal)
  {
    hide Frames.Decode, ScanAll, HeaderBytes, FromLE;
    if |bytes| >= HEADER_LEN {
      var fs := Frames.Decode(bytes[HEADER_LEN..]).0;
      if ParseHeader(bytes[..HEADER_LEN]).Ok? { ScanErrors(fs, ParseHeader(bytes[..HEADER_LEN]).value); }
    }
  }

  lemma {:induction false} ScanErrors(fs: seq<Frames.Frame>, start: nat)
    ensures ScanAll(fs, start).Err? ==> ScanAll(fs, start) == Err(Error.Wal)
  {
    hide FromLE, Records.Decode;
    if fs != [] { ScanErrors(fs[..|fs| - 1], start); }
  }

  lemma FramedPrefix(es: seq<Entry>, k: nat)
    requires Framed(es) && k <= |es|
    ensures Framed(es[..k])
  {
    hide Body, Encodable;
  }

  lemma TornHeader(es: seq<Entry>, n: nat)
    requires n < HEADER_LEN
    ensures n <= |LogBytes(es)| && Recover(LogBytes(es)[..n]) == Recover([])
  {
    hide Frames.EncodeAll;
    assert LogBytes(es)[..n] == HeaderBytes(FIRST_SEQ)[..n];
  }

  /** Where the header and the whole frames of a cut log end. */
  lemma CutFrames(es: seq<Entry>, n: nat) returns (k: nat)
    requires Framed(es) && n <= |LogBytes(es)|
    ensures k <= |es| && (n < HEADER_LEN ==> k == 0)
    ensures n >= HEADER_LEN ==>
      && |LogBytes(es[..k])| <= n && LogBytes(es)[..n][..HEADER_LEN] == HeaderBytes(FIRST_SEQ)
      && Frames.Decode(LogBytes(es)[..n][HEADER_LEN..]).0 == FramesOf(es[..k])
    ensures forall j | 0 <= j <= |es| && |LogBytes(es[..j])| <= n :: j <= k
  {
    hide Frames.Encode, Frames.EncodeAll, Frames.Decode, HeaderBytes, Framed;
    var fs := FramesOf(es);
    forall j | 0 <= j <= |es|
      ensures FramesOf(es[..j]) == fs[..j]
    {
    }
    k := 0;
    if n >= HEADER_LEN {
      FramesFit(es);
      k := Frames.DecodePrefix(fs, n - HEADER_LEN);
      var bytes := LogBytes(es)[..n];
      assert bytes[..HEADER_LEN] == HeaderBytes(FIRST_SEQ);
      assert bytes[HEADER_LEN..] == Frames.EncodeAll(fs)[..n - HEADER_LEN];
    }
  }

  lemma RecoverWhole(es: seq<Entry>)
    requires Framed(es)
    ensures |LogBytes(es[..Covered(es)])| <= |LogBytes(es)|
    ensures Recover(LogBytes(es)) ==
      if AllDecode(es) then Ok((Report(es, |LogBytes(es)|), LogBytes(es[..Covered(es)]))) else Err(Error.Wal)
  {
    hide Frames.EncodeAll, Covered, Recover, Report, Framed, AllDecode;
    var k := RecoverFramed(es, |LogBytes(es)|);
    assert es[..|es|] == es && LogBytes(es)[..|LogBytes(es)|] == LogBytes(es);
    assert |es| <= k;
  }

  /** Cut a written log anywhere: recovery succeeds, keeps what the last whole barrier covers,
      and leaves exactly those entries in the file. */
  lemma RecoverCut(es: seq<Entry>, n: nat) returns (k: nat)
    requires Written(es) && n <= |LogBytes(es)|
    ensures k <= |es|
    ensures n < HEADER_LEN ==> k == 0 && Recover(LogBytes(es)[..n]) == Recover([])
    ensures n >= HEADER_LEN ==> |LogBytes(es[..k])| <= n
    ensures n >= HEADER_LEN ==> var c := Covered(es[..k]);
      && |LogBytes(es[..k][..c])| <= n
      && Recover(LogBytes(es)[..n]) == Ok((Report(es[..k], n), LogBytes(es[..c])))
      && ReadBack(es[..k][..c]) == es[..k][..c]
    ensures forall j | 0 <= j <= |es| && |LogBytes(es[..j])| <= n :: j <= k
  {
    hide LogBytes, Covered, Recover, Report, Framed, AllDecode, Written, ReadBack;
    WrittenReads(es);
    k := RecoverFramed(es, n);
    WrittenPrefix(es, k);
    WrittenPrefix(es[..k], Covered(es[..k]));
    WrittenReads(es[..k]);
    WrittenReads(es[..k][..Covered(es[..k])]);
  }

  lemma {:induction false} SameRecords(es: seq<Entry>, fs: seq<Entry>)
    requires |es| == |fs| && RecordsOf(es) == RecordsOf(fs)
    requires forall i | 0 <= i < |es| :: es[i].Write? == fs[i].Write?
    ensures forall i | 0 <= i < |es| && es[i].Write? :: es[i].record == fs[i].record
    decreases |es|
  {
    if es != [] {
      var k := |es| - 1;
      var a, b := RecordsOf(es[..k]), RecordsOf(fs[..k]);
      if es[k].Write? {
        assert RecordsOf(es) == a + [(es[k].sn, es[k].record)] && RecordsOf(fs) == b + [(fs[k].sn, fs[k].record)];
        SameFronts(a, (es[k].sn, es[k].record), b, (fs[k].sn, fs[k].record));
      } else {
        assert RecordsOf(es) == a && RecordsOf(fs) == b;
      }
      SameRecords(es[..k], fs[..k]);
      assert forall i | 0 <= i < k :: es[..k][i] == es[i] && fs[..k][i] == fs[i];
    }
  }

  lemma SameFronts(a: seq<Numbered>, x: Numbered, b: seq<Numbered>, y: Numbered)
    requires a + [x] == b + [y]
    ensures a == b && x == y
  {
    assert (a + [x])[..|a|] == a && (b + [y])[..|b|] == b && |a| == |b|;
    assert (a + [x])[|a|] == x && (b + [y])[|b|] == y;
  }

  /** A log comes back with exactly its committed records if and only if every one of them is within the
      format's bounds and whatever was written since the last barrier decodes. */
  lemma RecoversExactlyIff(es: seq<Entry>)
    requires Framed(es)
    ensures
      var got, c := Recover(LogBytes(es)), Covered(es);
      got.Ok? && got.value.0.records == RecordsOf(es[..c]) <==>
        (forall i | 0 <= i < c && es[i].Write? :: InBounds(es[i].record)) && AllDecode(es[c..])
  {
    hide LogBytes, Covered, Recover, RecordsOf, Reread, Decodable, InBounds, Body, Encodable;
    var c := Covered(es);
    var kept := es[..c];
    RecoverWhole(es);
    forall i | 0 <= i < |es|
      ensures Decodable(es[i]) && Reread(es[i]) == es[i] <==> (es[i].Write? ==> InBounds(es[i].record))
      ensures Reread(es[i]).Write? == es[i].Write?
    {
      RereadIff(es[i]);
      RereadKind(es[i]);
    }
    assert forall i | c <= i < |es| :: es[i] == es[c..][i - c];
    assert AllDecode(es) <==> (forall i | 0 <= i < c :: Decodable(es[i])) && AllDecode(es[c..]);
    if AllDecode(es) && RecordsOf(ReadBack(kept)) == RecordsOf(kept) {
      SameRecords(ReadBack(kept), kept);
      forall i | 0 <= i < c && es[i].Write?
        ensures InBounds(es[i].record)
      {
        assert kept[i] == es[i] && ReadBack(kept)[i] == Reread(es[i]);
        RereadKind(es[i]);
      }
    }
    if forall i | 0 <= i < c && es[i].Write? :: InBounds(es[i].record) {
      assert ReadBack(kept) == kept;
    }
  }

  // --- recovering a recovered log ---

  function Seen(st: Scan): seq<Numbered> { st.records + st.pending }

  ghost predicate Ordered(st: Scan, start: nat) {
    && (forall i, j | 0 <= i < j < |Seen(st)| :: Seen(st)[i].0 < Seen(st)[j].0)
    && (forall i | 0 <= i < |Seen(st)| :: st.lastSeq.Some? && start <= Seen(st)[i].0 <= st.lastSeq.value)
    && (st.lastSeq.Some? ==> start <= st.lastSeq.value)
  }

  lemma MonotoneStep(st: Scan, f: Frames.Frame, start: nat)
    requires Ordered(st, start) && ScanStep(st, f, start).Ok?
    ensures Ordered(ScanStep(st, f, start).value, start)
  {
    hide Records.Decode, FromLE;
    var after := ScanStep(st, f, start).value;
    assert st.records + st.pending + [] == st.records + st.pending;
    assert forall x :: st.records + (st.pending + [x]) == (st.records + st.pending) + [x];
    assert Seen(after) == Seen(st) || (|Seen(after)| == |Seen(st)| + 1
      && Seen(after)[..|Seen(st)|] == Seen(st) && Seen(after)[|Seen(st)|].0 == after.lastSeq.value);
  }

  lemma {:induction false} Monotone(fs: seq<Frames.Frame>, start: nat)
    requires ScanAll(fs, start).Ok?
    ensures Ordered(ScanAll(fs, start).value, start)
    decreases |fs|
  {
    hide ScanStep;
    if fs != [] {
      Monotone(fs[..|fs| - 1], start);
      MonotoneStep(ScanAll(fs[..|fs| - 1], start).value, fs[|fs| - 1], start);
    } else {
      assert Seen(START_SCAN) == [];
    }
  }

  /** Whatever the bytes, recovered sequence numbers strictly increase and stay below the next one. */
  lemma RecoveredSeqs(bytes: seq<byte>)
    requires Recover(bytes).Ok?
    ensures var r := Recover(bytes).value.0;
      && (forall i, j | 0 <= i < j < |r.records| :: r.records[i].0 < r.records[j].0)
      && (forall i | 0 <= i < |r.records| :: r.startSeq <= r.records[i].0 < r.nextSeq)
  {
    hide Records.Decode, Frames.Decode, ParseHeader;
    if |bytes| >= HEADER_LEN {
      var start := ParseHeader(bytes[..HEADER_LEN]).value;
      var fs := Frames.Decode(bytes[HEADER_LEN..]).0;
      Monotone(fs, start);
      var st := ScanAll(fs, start).value;
      forall i | 0 <= i < |st.records|
        ensures st.records[i] == Seen(st)[i]
      {
      }
    }
  }

  /** The scan of the frames up to the last barrier ends where the whole scan kept its results. */
  lemma {:induction false} ScanUpToBarrier(fs: seq<Frames.Frame>, start: nat) returns (c: nat)
    requires ScanAll(fs, start).Ok?
    ensures c <= |fs| && ScanAll(fs[..c], start).Ok?
    ensures var st, kept := ScanAll(fs, start).value, ScanAll(fs[..c], start).value;
      && kept.records == st.records && kept.pending == [] && kept.committedSeq == st.committedSeq
      && kept.validEnd == kept.frameEnd == st.validEnd
      && (kept.lastSeq.Some? ==> st.lastSeq.Some? && kept.lastSeq.value <= st.lastSeq.value)
      && (kept.lastSeq.None? ==> kept.records == [])
    decreases |fs|
  {
    hide Records.Decode;
    if fs == [] {
      c := 0;
    } else if fs[|fs| - 1].kind == Frames.Commit {
      c := |fs|;
      assert fs[..c] == fs;
    } else {
      c := ScanUpToBarrier(fs[..|fs| - 1], start);
      assert fs[..|fs| - 1][..c] == fs[..c];
    }
  }

  /** For any bytes that recover: recovering what is left gives the same records, barrier and end,
      cuts nothing more, and may only lower the next sequence number. */
  lemma RecoverTwice(bytes: seq<byte>)
    requires Recover(bytes).Ok?
    ensures var (r, left) := Recover(bytes).value;
      && Recover(left).Ok?
      && var (r2, left2) := Recover(left).value;
        && left2 == left
        && r2.records == r.records && r2.committedSeq == r.committedSeq && r2.startSeq == r.startSeq
        && r2.validEnd == r.validEnd == |left|
        && r2.truncatedBytes == 0 && r2.droppedUncommitted == 0
        && r2.nextSeq <= r.nextSeq
  {
    hide Frames.EncodeAll, Frames.Decode, ParseHeader, ScanAll, HeaderBytes;
    if |bytes| < HEADER_LEN {
      var none: seq<Entry> := [];
      EmptyLog();
      RecoverWhole(none);
      assert none[..0] == none;
    } else {
      var start := ParseHeader(bytes[..HEADER_LEN]).value;
      var rest := bytes[HEADER_LEN..];
      var fs := Frames.Decode(rest).0;
      RecoverUnfold(bytes, start, fs);
      Frames.DecodeSound(rest);
      var c := ScanUpToBarrier(fs, start);
      ScanEnds(fs[..c], start);
      ScanEnds(fs, start);
      var left := Recover(bytes).value.1;
      Frames.EncodeAllAppend(fs[..c], fs[c..]);
      assert fs == fs[..c] + fs[c..];
      assert left[HEADER_LEN..] == rest[..|Frames.EncodeAll(fs[..c])|] == Frames.EncodeAll(fs[..c]);
      assert left[..HEADER_LEN] == bytes[..HEADER_LEN];
      Frames.RoundTrip(fs[..c]);
      RecoverUnfold(left, start, fs[..c]);
      Monotone(fs, start);
    }
  }

  lemma WholeReport(es: seq<Entry>)
    requires Written(es)
    ensures Recover(LogBytes(es)).Ok?
    ensures Recover(LogBytes(es)).value.0.nextSeq == NextSeq(es)
    ensures Recover(LogBytes(es)).value.1 == LogBytes(es[..Covered(es)])
  {
    hide LogBytes, Recover, Covered, RecordsOf, Written, NextSeq, Framed, AllDecode, ReadBack;
    WrittenReads(es);
    RecoverWhole(es);
  }

  /** The next sequence number counts dropped entries too: a second recovery reports the same one
      exactly when the first dropped nothing. */
  lemma NextSeqStays(es: seq<Entry>)
    requires Written(es)
    ensures Recover(LogBytes(es)).Ok? && Recover(Recover(LogBytes(es)).value.1).Ok?
    ensures var first := Recover(LogBytes(es)).value;
      Recover(first.1).value.0.nextSeq == first.0.nextSeq <==> Covered(es) == |es|
  {
    hide LogBytes, Recover, Covered, RecordsOf, Report, Written, NextSeq;
    var kept := es[..Covered(es)];
    WrittenPrefix(es, Covered(es));
    WholeReport(es);
    WholeReport(kept);
    PrefixNext(es, Covered(es));
  }

  lemma PrefixNext(es: seq<Entry>, k: nat)
    requires Written(es) && k <= |es|
    ensures NextSeq(es[..k]) == NextSeq(es) <==> k == |es|
  {
    if k < |es| {
      assert es[|es| - 1].sn >= FIRST_SEQ;
    } else {
      assert es[..k] == es;
    }
  }
}
