/** The directory as files of bytes: opening it, with the log file cut anywhere, does what opening does at
    the level of entries. And when a committed store comes back from its files. */
module StoreFiles {
  import opened Wrappers
  import opened Bytes
  import opened Records
  import opened RecordLaws
  import opened Wal
  import opened WalLaws
  import opened Segments
  import opened Views
  import opened StoreModel
  import opened StoreLaws
  import opened StoreDurable
  import opened StoreRuns
  import opened StoreOps
  import opened StoreOrigins
  import opened StoreHistory
  import Frames

  datatype Files = Files(log: seq<byte>, synced: nat, manifest: Option<Manifest>, segs: map<Name, seq<byte>>)

  function FilesOf(d: Disk): Files
    requires d.synced <= |d.log|
  {
    Files(LogBytes(d.log), |LogBytes(d.log[..d.synced])|, d.manifest, d.segs)
  }

  /** A power failure keeps n bytes of the log file. */
  function Cut(f: Files, n: nat): Files
    requires n <= |f.log|
  {
    f.(log := f.log[..n], synced := n)
  }

  /** Opening the files: recover the log, then open on what recovery reports. */
  function OpenFiles(f: Files): (Files, Result<Mem, Error>) {
    var got := Recover(f.log);
    if got.Err? then (f, Err(got.error)) else
    var (r, left) := got.value;
    var cut := |f.log| < HEADER_LEN || r.truncatedBytes > 0;
    var kept := f.(log := left, synced := if cut then |left| else f.synced);
    match OpenMem(f.manifest, f.segs, r.nextSeq, r.committedSeq, r.records)
    case Err(e) => (kept, Err(e))
    case Ok(m) =>
      if Unsupported(f.manifest, f.segs, r.committedSeq)
      then (kept.(manifest := Some(HonestManifest(m)), segs := f.segs - f.segs.Keys), Ok(m))
      else (kept, Ok(m))
  }

  // --- files and entries ---

  /** Every file operation of the log: a record and a barrier append one frame each, and a commit syncs the file. */
  lemma WritesAppendFrames(s: Store, r: Record)
    requires s.disk.synced <= |s.disk.log|
    ensures var f, t := FilesOf(s.disk), FilesOf(WriteLog(s, r).disk);
      t.log == f.log + Frames.Encode(EntryFrame(Write(s.mem.nextSeq, r))) && t.synced == f.synced
    ensures var f, t := FilesOf(s.disk), FilesOf(CommitLog(s).disk);
      t.log == f.log + Frames.Encode(EntryFrame(Barrier(s.mem.nextSeq))) && t.synced == |t.log|
  {
    hide LogBytes, Frames.Encode, EntryFrame;
    LogBytesAppend(s.disk.log, Write(s.mem.nextSeq, r));
    LogBytesAppend(s.disk.log, Barrier(s.mem.nextSeq));
    assert WriteLog(s, r).disk.log[..s.disk.synced] == s.disk.log[..s.disk.synced];
    var d := CommitLog(s).disk;
    assert d.log[..d.synced] == d.log;
  }

  /** How the log file and the reports of recovery look after a cut that leaves k whole entries. */
  ghost predicate Recovered(d: Disk, n: nat, k: nat)
    requires n <= |LogBytes(d.log)| && k <= |d.log|
  {
    var es, got := d.log[..k], Recover(LogBytes(d.log)[..n]);
    if !AllDecode(es) then got == Err(Error.Wal) else
    && got.Ok?
    && got.value.0.nextSeq == NextSeq(es) && got.value.0.committedSeq == LastBarrier(es)
    && got.value.0.records == RecordsOf(ReadBack(es[..Covered(es)]))
    && got.value.1 == LogBytes(es[..Covered(es)])
    && got.value.0.truncatedBytes == n - |LogBytes(es[..Covered(es)])|
  }

  lemma RecoverEntries(d: Disk, n: nat) returns (k: nat)
    requires Framed(d.log) && d.synced <= |d.log|
    requires |LogBytes(d.log[..d.synced])| <= n <= |LogBytes(d.log)|
    ensures d.synced <= k <= |d.log| && HEADER_LEN <= |LogBytes(d.log[..k])| <= n
    ensures k < |d.log| ==> n < |LogBytes(d.log[..k + 1])|
    ensures Recovered(d, n, k)
  {
    hide LogBytes, Recover, RecordsOf, Covered, ReadBack, Framed, AllDecode, LastBarrier, NextSeq;
    k := RecoverFramed(d.log, n);
    HeaderFirst(d.log[..d.synced]);
    HeaderFirst(d.log[..k]);
    assert d.log[..k][..Covered(d.log[..k])] == d.log[..Covered(d.log[..k])];
  }

  lemma HeaderFirst(es: seq<Entry>)
    ensures HEADER_LEN <= |LogBytes(es)|
  {
    hide Frames.EncodeAll;
  }

  /** Cut the log file anywhere behind what was synced: opening the bytes is opening the directory of the
      entries that are still whole, result and files alike. */
  lemma OpenBytes(d: Disk, n: nat) returns (k: nat)
    requires Framed(d.log) && d.synced <= |d.log|
    requires |LogBytes(d.log[..d.synced])| <= n <= |LogBytes(d.log)|
    ensures d.synced <= k <= |d.log| && |LogBytes(d.log[..k])| <= n
    ensures k < |d.log| ==> n < |LogBytes(d.log[..k + 1])|
    ensures var (f, res) := OpenFiles(Cut(FilesOf(d), n));
      var (left, res') := OpenStore(Crashed(d, k));
      && res == res' && left.synced <= |left.log|
      && f == if AllDecode(d.log[..k]) then FilesOf(left) else Cut(FilesOf(d), n)
  {
    hide LogBytes, Recover, RecordsOf, Covered, ReadBack, Framed, AllDecode, LastBarrier, NextSeq, OpenMem, Unsupported;
    k := RecoverEntries(d, n);
    var es := d.log[..k];
    if AllDecode(es) {
      var c := Covered(es);
      LongerLog(es, c, k);
      assert es[..k] == es;
      assert KeptLog(Crashed(d, k)).log[..c] == es[..c];
    }
  }

  /** The same for a log file that is whole. */
  lemma OpenWhole(d: Disk)
    requires Framed(d.log) && d.synced <= |d.log|
    ensures var (f, res) := OpenFiles(FilesOf(d));
      var (left, res') := OpenStore(d);
      && res == res' && left.synced <= |left.log|
      && f == if AllDecode(d.log) then FilesOf(left) else FilesOf(d)
  {
    hide LogBytes, Recover, RecordsOf, Covered, ReadBack, Framed, AllDecode, LastBarrier, NextSeq, OpenMem, Unsupported;
    var bytes, c := LogBytes(d.log), Covered(d.log);
    LongerLog(d.log, d.synced, |d.log|);
    assert d.log[..|d.log|] == d.log && bytes[..|bytes|] == bytes;
    var k := RecoverEntries(d, |bytes|);
    if k < |d.log| { LongerLog(d.log, k + 1, |d.log|); }
    LongerLog(d.log, c, |d.log|);
    assert c == |d.log| ==> KeptLog(d).log[..d.synced] == d.log[..d.synced];
    assert c < |d.log| ==> KeptLog(d).log[..c] == d.log[..c];
  }

  /** The files open and show the view. */
  ghost predicate FilesReopen(f: Files, v: View) {
    OpenFiles(f).1.Ok? && Merged(OpenFiles(f).1.value) == v
  }

  /** Over every run, whatever it rolls back and seals, a power failure that keeps any number of bytes of the log
      file past the synced ones leaves files that open, and show what memory showed at the last published
      checkpoint, overlaid with the acknowledged writes since. */
  lemma FilesOverRuns(states: seq<Store>, ops: seq<Op>, i: nat, n: nat)
    requires CheckpointedRun(states, ops) && i < |states|
    ensures states[i].disk.synced <= |states[i].disk.log|
    ensures var f := FilesOf(states[i].disk);
      f.synced <= n <= |f.log| ==>
        FilesReopen(Cut(f, n), Recalled(StartAt(states, ops, i), RecordsOf(Acked(states[i]))))
  {
    hide CheckpointedRun, Durable, Traced, Merged, ViewOf, RecordsOf, OpenStore, OpenFiles, Covered, LogBytes, Framed,
         AllDecode, ReadBack, StartOf, Recalled, SoundDisk;
    RunReliable(states, ops, i);
    var d := states[i].disk;
    DurableParts(states[i]);
    DiskFramed(d);
    if FilesOf(d).synced <= n <= |FilesOf(d).log| {
      var k := OpenBytes(d, n);
      CrashBetween(states[i], k);
    }
  }

  lemma DiskFramed(d: Disk)
    requires SoundDisk(d)
    ensures Framed(d.log) && AllDecode(d.log)
  {
    hide Storable, SoundManifest, ReadBack, Framed, AllDecode;
    WrittenReads(d.log);
  }

  /** The commit of a reachable store, cut at any byte before its sync returns: all or nothing of what it covers. */
  lemma CommitCrashBytes(s: Store, n: nat)
    requires Durable(s) && Openable(s.disk) && Room(s, 1)
    ensures s.disk.synced <= |s.disk.log|
    ensures var f := FilesOf(Hanging(s));
      f.synced <= n <= |f.log| ==>
        FilesReopen(Cut(f, n), RecalledIn(s.disk, if n == |f.log| then s.disk.log else Acked(s)))
  {
    hide Durable, Merged, ViewOf, RecordsOf, OpenStore, OpenFiles, Covered, LogBytes, Framed, AllDecode, ReadBack,
         SoundDisk, Recalled, StartOf;
    DurableParts(s);
    HangingOk(s);
    var at := Hanging(s);
    DiskFramed(at);
    SoundRises(at);
    if FilesOf(at).synced <= n <= |FilesOf(at).log| {
      var k := OpenBytes(at, n);
      assert at.log[..|at.log|] == at.log;
      if k < |at.log| { LongerLog(at.log, k + 1, |at.log|); }
      CommitCrash(s, k);
    }
  }

  // --- what can come back ---

  lemma {:induction false} ReadBackBounds(es: seq<Entry>, e: Numbered)
    requires AllDecode(es) && e in RecordsOf(ReadBack(es))
    ensures InBounds(e.1) && Encodable(e.1)
    decreases |es|
  {
    hide Decode, Body, InBounds, Encodable, RecordsOf, ReadBack;
    if es == [] {
      NothingRead();
    } else {
      var k := |es| - 1;
      assert es == es[..k] + [es[k]];
      ReadBackAppend(es[..k], es[k]);
      AllDecodeParts(es);
      if e in RecordsOf(ReadBack(es[..k])) {
        ReadBackBounds(es[..k], e);
      } else {
        DecodedInBounds(Body(es[k].record));
      }
    }
  }

  lemma {:induction false} ReadAllBounds(fs: seq<Frames.Frame>, e: Numbered)
    requires ReadAll(fs).Ok? && e in ReadAll(fs).value
    ensures InBounds(e.1) && Encodable(e.1)
    decreases |fs|
  {
    hide Decode, InBounds, Encodable, FromLE;
    var k := |fs| - 1;
    if e in ReadAll(fs[..k]).value { ReadAllBounds(fs[..k], e); } else { DecodedInBounds(fs[k].payload[8..]); }
  }

  lemma {:induction false} FlatBounds(m: Manifest, segs: map<Name, seq<byte>>, n: nat, e: Numbered)
    requires SegsOpen(m, segs) && n <= |m.segments| && e in Flat(SegsOf(m, segs)[..n])
    ensures InBounds(e.1) && Encodable(e.1)
  {
    hide ReadAll, InBounds, Encodable, Frames.Decode, FromLE;
    var all := SegsOf(m, segs);
    if n > 0 {
      assert all[..n][..n - 1] == all[..n - 1] && all[..n][n - 1] == all[n - 1];
      if e in Flat(all[..n - 1]) {
        FlatBounds(m, segs, n - 1, e);
      } else {
        ReadAllBounds(Frames.Decode(segs[m.segments[n - 1]][SEG_HEADER_LEN..]).0, e);
      }
    }
  }

  /** Whatever the directory, an opened store shows only records within the format's bounds. */
  lemma ShownInBounds(d: Disk, id: ExternalId)
    requires OpenStore(d).1.Ok? && id in Merged(OpenStore(d).1.value)
    ensures InBounds(Merged(OpenStore(d).1.value)[id].1)
  {
    hide Covered, RecordsOf, ReadBack, Replay, InBounds, Encodable, Flat, Best, LastBarrier, NextSeq, SegLiveOf,
         SegsOf, SegsOpen, Decodable;
    var rs, m := RecordsOf(ReadBack(KeptLog(d).log)), OpenStore(d).1.value;
    ReplayFrom(BaseMem(d), rs);
    BestFrom(Flat(m.segments));
    var e := Merged(m)[id];
    if e in rs {
      ReadBackBounds(KeptLog(d).log, e);
    } else {
      SealedBounds(d, e);
    }
  }

  lemma SealedBounds(d: Disk, e: Numbered)
    requires e in Flat(BaseMem(d).segments)
    ensures InBounds(e.1)
  {
    hide Flat, InBounds, Encodable, Open, LastBarrier, NextSeq, SegLiveOf;
    NothingSealed();
    var m := d.manifest.value;
    assert SegsOf(m, d.segs)[..|m.segments|] == SegsOf(m, d.segs);
    FlatBounds(m, d.segs, |m.segments|, e);
  }

  /** An encodable record whose frame fits its length prefix; if it is live, whether or not it is within bounds. */
  ghost predicate Writable(s: Store, r: Record) {
    && Encodable(r) && |Body(r)| < 0xFFFF_FFF0 && (r.lifecycle.Live? || InBounds(r))
    && Room(s, 3) && Upsert(s, r).1.Ok?
  }

  function UpsertAndCommit(s: Store, r: Record): Store {
    CommitLog(Upsert(s, r).0)
  }

  lemma LoggedThenCommitted(s: Store, r: Record)
    requires Upsert(s, r).1.Ok?
    ensures RecordsOf(UpsertAndCommit(s, r).disk.log) == RecordsOf(s.disk.log) + [(s.mem.nextSeq, r)]
  {
    hide Encodable, RecordsOf;
    var log, sn := s.disk.log, s.mem.nextSeq;
    RecordsAppend(log, Write(sn, r));
    RecordsAppend(log + [Write(sn, r)], Barrier(sn + 1));
    RecordsAppend(Upsert(s, r).0.disk.log, Barrier(Upsert(s, r).0.mem.nextSeq));
    assert forall rs: seq<Numbered> :: rs + [] == rs;
  }

  /** A committed record comes back, with everything before it, if and only if it is within the bounds that `encode`
      leaves unchecked. Otherwise the store does not open, or opens without the record. */
  lemma CommittedReopensIff(s: Store, r: Record)
    requires Good(s) && Writable(s, r)
    ensures var t := UpsertAndCommit(s, r); var e := (s.mem.nextSeq, r);
      && ViewOf(RecordsOf(t.disk.log)) == (if r.lifecycle.Live? then ViewOf(RecordsOf(s.disk.log))[r.externalId := e]
                                           else ViewOf(RecordsOf(s.disk.log)) - {r.externalId})
      && (Reopens(t.disk, ViewOf(RecordsOf(t.disk.log))) <==> InBounds(r))
      && (InBounds(r) ==> Good(t))
  {
    hide Inv, Merged, ViewOf, RecordsOf, OpenStore, Covered, Upsert, Encodable, InBounds, Body, DiskInv;
    var t := UpsertAndCommit(s, r);
    LoggedThenCommitted(s, r);
    ViewAppend(RecordsOf(s.disk.log), (s.mem.nextSeq, r));
    if InBounds(r) {
      UpsertInv(s, r);
      CommitLogInv(Upsert(s, r).0);
      GoodReopens(t);
    }
    if Reopens(t.disk, ViewOf(RecordsOf(t.disk.log))) && r.lifecycle.Live? {
      ShownInBounds(t.disk, r.externalId);
    }
  }

  lemma GoodReopens(t: Store)
    requires Good(t) && Covered(t.disk.log) == |t.disk.log|
    ensures Reopens(t.disk, ViewOf(RecordsOf(t.disk.log)))
  {
    hide Inv, Merged, ViewOf, RecordsOf, OpenStore, Covered, DiskInv;
    InvParts(t);
    OpenLaw(t.disk);
    assert t.disk.log[..|t.disk.log|] == t.disk.log;
    MergedIsView(Store(OpenStore(t.disk).1.value, OpenStore(t.disk).0));
  }

  /** Upserts one after the other, each accepted and committed. */
  ghost predicate CommittedRun(states: seq<Store>, rs: seq<Record>) {
    && |states| == |rs| + 1 && Good(states[0])
    && forall i | 0 <= i < |rs| :: Writable(states[i], rs[i]) && states[i + 1] == UpsertAndCommit(states[i], rs[i])
  }

  /** A sequence of committed writes can be reopened after each of them, to its own view, if and only if every
      record is within bounds. */
  lemma {:induction false} CommittedRunReopensIff(states: seq<Store>, rs: seq<Record>, n: nat)
    requires CommittedRun(states, rs) && n <= |rs|
    ensures (forall i | 0 < i <= n :: Reopens(states[i].disk, ViewOf(RecordsOf(states[i].disk.log))))
       <==> (forall i | 0 <= i < n :: InBounds(rs[i]))
    ensures (forall i | 0 <= i < n :: InBounds(rs[i])) ==> Good(states[n])
    decreases n
  {
    hide Good, Writable, Reopens, ViewOf, RecordsOf, InBounds, UpsertAndCommit;
    if n > 0 {
      var m := n - 1;
      CommittedRunReopensIff(states, rs, m);
      assert Writable(states[m], rs[m]) && states[m + 1] == UpsertAndCommit(states[m], rs[m]);
      if forall i | 0 <= i < m :: InBounds(rs[i]) {
        CommittedReopensIff(states[m], rs[m]);
      }
    }
  }

  /** The input that shows it: a new store, one record with an id of 65536 letters, committed. */
  lemma LongIdDoesNotReopen() returns (r: Record)
    ensures var s := EmptyStore(); var t := UpsertAndCommit(s, r);
      && Good(s) && Upsert(s, r).1.Ok? && RecordsOf(t.disk.log) == [(FIRST_SEQ, r)]
      && !Reopens(t.disk, ViewOf(RecordsOf(t.disk.log)))
  {
    hide Inv, Merged, ViewOf, RecordsOf, OpenStore, Body, CommitLog, MaybeAutocommit;
    r := LongIdIsLost();
    EmptyDisk();
    var s := EmptyStore();
    SchemaTogether(s);
    LongIdSize(r);
    assert Upsert(s, r).1.Ok?;
    hide Upsert, Encodable, InBounds;
    assert !InBounds(r) by { RoundTripIff(r); }
    CommittedReopensIff(s, r);
    LoggedThenCommitted(s, r);
    EmptyRecords();
  }

  lemma EmptyRecords()
    ensures RecordsOf(EmptyStore().disk.log) == []
  {
    hide Covered;
    assert EmptyStore().disk.log == [];
  }

  lemma LongIdSize(r: Record)
    requires r.externalId.Str? && |r.externalId.s| == 0x1_0000 && r.vector == [0] && r.meta == []
    requires r.norm.None? && r.text.None?
    ensures |Body(r)| < 0xFFFF_FFF0
  {
    hide LE;
    VectorSize(r.vector);
    assert MetaBytes([]) == [];
  }
}
