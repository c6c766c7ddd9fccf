/** What survives the process: the half of a store that opening relies on, and what it then shows. Nothing here
    asks the memory tier, or what a checkpoint sealed, to be the whole view of the log. */
module StoreDurable {
  import opened Wrappers
  import opened Bytes
  import opened Records
  import opened Wal
  import opened WalLaws
  import opened Segments
  import opened Views
  import opened StoreModel
  import opened StoreLaws

  // --- the durable half of a store ---

  /** A sound directory, and numbers, schema and ids in memory that agree with it. */
  ghost predicate Durable(s: Store) {
    var m, d, rs := s.mem, s.disk, RecordsOf(s.disk.log);
    && SoundDisk(d) && Covered(d.log) <= d.synced
    && NextSeq(d.log) <= m.nextSeq && m.committedSeq == LastBarrier(d.log)
    && SchemaOk(m.dim, m.idKind, rs) && (m.idKind.None? ==> rs == [])
    && (d.manifest.Some? && d.manifest.value.idKind.Some? ==>
          d.manifest.value.idKind == m.idKind && d.manifest.value.dim == m.dim)
    && KnownIds(m)
  }

  predicate KnownIds(m: Mem) {
    forall id | id in m.l0.Keys + m.segLive.Keys :: m.idKind == Some(KindOf(id)) && IdFits(id)
  }

  lemma DurableParts(s: Store)
    requires Durable(s)
    ensures SoundDisk(s.disk) && Covered(s.disk.log) <= s.disk.synced <= |s.disk.log|
    ensures s.mem.committedSeq == LastBarrier(s.disk.log) < s.mem.nextSeq && NextSeq(s.disk.log) <= s.mem.nextSeq
    ensures s.mem.dim == 0 <==> s.mem.idKind.None?
  {
    hide RecordsOf, Written, SoundManifest, Covered, KnownIds, LastBarrier, NextSeq;
    DiskBarrier(s.disk);
  }

  lemma InvDurable(s: Store)
    requires Inv(s)
    ensures Durable(s)
  {
    hide RecordsOf, Latest, Flat, Upto, After, Lists, SoundDisk, ManifestOk, Covered, LastBarrier, NextSeq, ViewOf;
    var m, rs := s.mem, RecordsOf(s.disk.log);
    RecordsAscend(s);
    SealedView(m, rs);
    SplitAt(rs, m.checkpointSeq);
    forall id | id in m.l0.Keys + m.segLive.Keys
      ensures m.idKind == Some(KindOf(id)) && IdFits(id)
    {
      LatestFrom(After(rs, m.checkpointSeq), id);
      LatestFrom(Upto(rs, m.checkpointSeq), id);
      var part := if id in m.l0 then After(rs, m.checkpointSeq) else Upto(rs, m.checkpointSeq);
      assert id in Latest(part) by { SealedAreLogged(s, id); }
      assert Latest(part)[id] in rs;
      LogStorable(s, Latest(part)[id]);
    }
  }

  lemma SealedAreLogged(s: Store, id: ExternalId)
    requires Inv(s)
    ensures id in s.mem.segLive ==> id in Latest(Upto(RecordsOf(s.disk.log), s.mem.checkpointSeq))
  {
    hide RecordsOf, Latest, Flat, Upto, After, Lists, DiskInv, Covered, LastBarrier, NextSeq, Tracks;
    SealedView(s.mem, RecordsOf(s.disk.log));
  }

  /** The record fits the store's schema and the formats, and there are numbers left for it and a barrier. */
  ghost predicate Ready(s: Store, r: Record) {
    s.mem.idKind == Some(KindOf(r.externalId)) && |r.vector| == s.mem.dim && Storable(r) && Room(s, 2)
  }

  lemma WriteDurable(s: Store, r: Record)
    requires Durable(s) && Ready(s, r)
    ensures Durable(WriteLog(s, r)) && Room(WriteLog(s, r), 1)
  {
    hide LastBarrier, Covered, RecordsOf, SoundDisk, NextSeq, Encodable, Body;
    var sn, rs := s.mem.nextSeq, RecordsOf(s.disk.log);
    var e := Write(sn, r);
    RecordsAppend(s.disk.log, e);
    CoveredAppend(s.disk.log, e);
    NextAppend(s.disk.log, e);
    assert Homogeneous(rs + [(sn, r)], s.mem.dim, s.mem.idKind.value);
    AppendSound(s.disk, e);
  }

  lemma CommitDurable(s: Store)
    requires Durable(s) && Room(s, 1)
    ensures Durable(CommitLog(s))
    ensures SoundDisk(s.disk.(log := CommitLog(s).disk.log))
    ensures RecordsOf(CommitLog(s).disk.log) == RecordsOf(s.disk.log)
    ensures Covered(CommitLog(s).disk.log) == |CommitLog(s).disk.log|
  {
    hide LastBarrier, Covered, RecordsOf, SoundDisk, NextSeq;
    CommitSound(s.disk, s.mem.nextSeq);
    BarrierLast(s.disk.log, s.mem.nextSeq);
  }

  lemma AutocommitDurable(s: Store)
    requires Durable(s) && Room(s, 1)
    ensures Durable(MaybeAutocommit(s))
    ensures MaybeAutocommit(s).disk.manifest == s.disk.manifest && MaybeAutocommit(s).disk.segs == s.disk.segs
    ensures s.mem.nextSeq <= MaybeAutocommit(s).mem.nextSeq <= s.mem.nextSeq + 1
  {
    hide Durable;
    CommitDurable(s);
  }

  /** Flags do not matter, and a schema may be settled. */
  lemma SettleDurable(s: Store, dim: nat, kind: Option<IdKind>, autocommit: bool, inTx: bool)
    requires Durable(s)
    requires (dim == s.mem.dim && kind == s.mem.idKind) || (s.mem.idKind.None? && 0 < dim <= 0xFFFF && kind.Some?)
    ensures Durable(s.(mem := s.mem.(dim := dim, idKind := kind, autocommit := autocommit, inTx := inTx)))
  {
    hide LastBarrier, Covered, RecordsOf, SoundDisk, NextSeq;
  }

  // --- what opening shows ---

  /** What opening starts from: sealed entries by id, and the number up to which they stand for the log. */
  datatype Start = Start(view: View, upto: nat)

  /** A manifest that is missing or whose files do not open leaves the log alone to start from. */
  function StartOf(d: Disk): Start {
    if d.manifest.None? || !SegsOpen(d.manifest.value, d.segs) then Start(map[], 0)
    else Start(Latest(Flat(SegsOf(d.manifest.value, d.segs))), d.manifest.value.checkpointSeq)
  }

  /** The sealed entries, overlaid with what the log says since. */
  function Recalled(a: Start, rs: seq<Numbered>): View {
    LiveOnly(a.view + Latest(After(rs, a.upto)))
  }

  function RecalledIn(d: Disk, log: seq<Entry>): View {
    Recalled(StartOf(d), RecordsOf(log))
  }

  /** One more record shadows its id if live and removes it otherwise. */
  lemma RecallAppend(a: Start, rs: seq<Numbered>, e: Numbered)
    requires a.upto < e.0
    ensures Recalled(a, rs + [e]) ==
      if e.1.lifecycle.Live? then Recalled(a, rs)[IdOf(e) := e] else Recalled(a, rs) - {IdOf(e)}
  {
    hide Latest, After;
    SplitAppend(rs, e, a.upto);
    LatestAppend(After(rs, a.upto), e);
  }

  /** From nothing sealed, the log is recalled whole. */
  lemma RecallAll(es: seq<Entry>)
    requires Increasing(es)
    ensures Recalled(Start(map[], 0), RecordsOf(es)) == ViewOf(RecordsOf(es))
  {
    hide RecordsOf, Latest, After;
    RecordsRise(es);
    NothingBelowFirst(RecordsOf(es));
    assert map[] + Latest(RecordsOf(es)) == Latest(RecordsOf(es));
  }

  /** What is at or below a number the log has acknowledged stays when the log keeps its acknowledged part. */
  lemma UptoKept(es: seq<Entry>, fs: seq<Entry>, c: nat)
    requires Increasing(es) && Increasing(fs) && es[..Covered(es)] <= fs && c <= LastBarrier(es)
    ensures Upto(RecordsOf(fs), c) == Upto(RecordsOf(es), c)
  {
    hide RecordsOf, Upto, After, Covered;
    var k := Covered(es);
    BarrierBelow(es);
    RecordsConcat(es, k);
    RecordsConcat(fs, k);
    assert fs[..k] == es[..k];
    RecordsAbove(es[k..], c);
    assert forall i | k <= i < |fs| :: c < fs[i].sn by {
      assert k > 0 ==> fs[k - 1] == es[k - 1];
    }
    RecordsAbove(fs[k..], c);
    UptoMore(RecordsOf(es[..k]), RecordsOf(es[k..]), c);
    UptoMore(RecordsOf(es[..k]), RecordsOf(fs[k..]), c);
  }

  /** Sealed entries that are the view of what they stand for recall the view of the log; in general they do
      exactly when they agree with it on every id that was not written since. */
  lemma RecallsViewIff(a: Start, rs: seq<Numbered>)
    requires Ascending(rs)
    ensures var before, since := ViewOf(Upto(rs, a.upto)), Latest(After(rs, a.upto));
      Recalled(a, rs) == ViewOf(rs) <==>
        forall id | id !in since ::
          (id in LiveOnly(a.view) <==> id in before) && (id in before ==> a.view[id] == before[id])
  {
    hide Latest, Upto, After;
    var sealed, since := Upto(rs, a.upto), After(rs, a.upto);
    SplitAt(rs, a.upto);
    LatestConcat(sealed, since);
    var v, w := Recalled(a, rs), ViewOf(rs);
    forall id
      ensures id in Latest(since) ==> (id in v <==> id in w) && (id in v ==> v[id] == w[id])
      ensures id !in Latest(since) ==> (id in v <==> id in LiveOnly(a.view)) && (id in v ==> v[id] == a.view[id])
      ensures id !in Latest(since) ==> (id in w <==> id in ViewOf(sealed)) && (id in w ==> w[id] == ViewOf(sealed)[id])
    {
    }
    if forall id | id !in Latest(since) ::
        && (id in LiveOnly(a.view) <==> id in ViewOf(sealed))
        && (id in ViewOf(sealed) ==> a.view[id] == ViewOf(sealed)[id])
    {
      assert forall id :: (id in v <==> id in w) && (id in v ==> v[id] == w[id]);
    }
  }

  /** A directory that tells the truth recalls the view of every log that keeps its acknowledged part. */
  lemma TruthRecalls(d: Disk, log: seq<Entry>)
    requires DiskInv(d) && Increasing(log) && d.log[..Covered(d.log)] <= log
    ensures RecalledIn(d, log) == ViewOf(RecordsOf(log))
  {
    hide RecordsOf, Latest, After, Upto, Covered, LastBarrier, Flat, Lists, SegsOpen, SegsOf, SealedFrom;
    WrittenRises(d.log);
    if d.manifest.None? {
      RecallAll(log);
    } else {
      var m := d.manifest.value;
      ManifestUsable(d);
      UptoKept(d.log, log, m.checkpointSeq);
      SealedRecalls(Flat(SegsOf(m, d.segs)), log, m.checkpointSeq);
    }
  }

  lemma SealedRecalls(es: seq<Numbered>, log: seq<Entry>, c: nat)
    requires Increasing(log) && Lists(es, ViewOf(Upto(RecordsOf(log), c)))
    ensures Recalled(Start(Latest(es), c), RecordsOf(log)) == ViewOf(RecordsOf(log))
  {
    hide RecordsOf, Latest, After, Upto, Lists, Recalled;
    var rs := RecordsOf(log);
    RecordsRise(log);
    LatestFiled(Upto(rs, c));
    ListsLatest(es, ViewOf(Upto(rs, c)));
    RecallsViewIff(Start(Latest(es), c), rs);
  }

  // --- opening a sound directory ---

  lemma SoundSeqs(d: Disk)
    requires SoundDisk(d)
    ensures var k := KeptLog(d);
      && Written(k.log) && Ascending(RecordsOf(k.log)) && NextSeq(k.log) <= NextSeq(d.log)
      && LastBarrier(k.log) == LastBarrier(d.log)
      && exists dim, kind :: Homogeneous(RecordsOf(k.log), dim, kind)
  {
    hide SoundManifest, Storable, RecordsOf, Covered, LastBarrier, SegsOpen;
    KeptLogSound(d);
    WrittenRises(d.log);
    RecordsRise(KeptLog(d).log) by { WrittenRises(KeptLog(d).log); }
    NextKept(d.log, Covered(d.log));
    BarrierBelow(d.log);
  }

  /** The memory tier before replay: schema, sealed entries and start agree with the log that is kept. */
  lemma SoundBase(d: Disk)
    requires SoundDisk(d) && Openable(d)
    ensures var m, rs := BaseMem(d), RecordsOf(KeptLog(d).log);
      && SchemaBase(m, rs) && SealedFrom(Flat(m.segments), Upto(rs, m.checkpointSeq))
      && m.segLive == SegLiveOf(Flat(m.segments)) && StartOf(d) == Start(Latest(Flat(m.segments)), m.checkpointSeq)
      && m.nextSeq == NextSeq(d.log) && m.committedSeq == LastBarrier(d.log)
      && (!Rebuilds(d) ==> d.manifest.value.idKind == m.idKind && d.manifest.value.dim == m.dim)
  {
    hide Flat, Latest, RecordsOf, Upto, After, Covered, LastBarrier, SegLiveOf, NextSeq, SegsOf, Written;
    var rs := RecordsOf(KeptLog(d).log);
    OpenWritten(d);
    SoundSeqs(d);
    if Rebuilds(d) {
      RecordsRise(KeptLog(d).log) by { WrittenRises(KeptLog(d).log); }
      NothingBelowFirst(rs);
      NothingSealed();
    } else {
      KeptLogSound(d);
    }
  }

  /** What a replay over sealed entries shows. */
  lemma ReplayShows(m: Mem, t: Mem, rs: seq<Numbered>)
    requires Ascending(rs) && Caught(m, t, rs) && SealedFrom(Flat(m.segments), Upto(rs, m.checkpointSeq))
    ensures Merged(t) == Recalled(Start(Latest(Flat(m.segments)), m.checkpointSeq), rs)
  {
    hide Flat, Latest, Best, Upto, After, MergeL0, LiveOnly, Merged;
    var c, es := m.checkpointSeq, Flat(m.segments);
    var newer := Latest(After(rs, c));
    SplitAt(rs, c);
    BestIsLatest(es);
    forall id
      ensures id in Merged(t) <==> id in LiveOnly(Latest(es) + newer)
      ensures id in Merged(t) ==> Merged(t)[id] == LiveOnly(Latest(es) + newer)[id]
    {
      LatestFrom(es, id);
      LatestFrom(After(rs, c), id);
      AllLive(es, rs, c);
      MergedAt(t, Latest(es), newer, id);
    }
  }

  lemma AllLive(es: seq<Numbered>, rs: seq<Numbered>, c: nat)
    requires SealedFrom(es, Upto(rs, c))
    ensures LiveOnly(Latest(es)) == Latest(es)
    ensures forall id | id in Latest(es) :: Latest(es)[id] in Upto(rs, c) && Latest(es)[id].0 <= c
  {
    hide Latest, Upto;
    SplitBounds(rs, c);
    forall id | id in Latest(es)
      ensures Latest(es)[id] in Upto(rs, c) && Latest(es)[id].1.lifecycle.Live?
    {
      LatestFrom(es, id);
    }
  }

  lemma ReplayKnows(m: Mem, t: Mem, log: seq<Entry>)
    requires Written(log) && Caught(m, t, RecordsOf(log)) && m.segLive == SegLiveOf(Flat(m.segments))
    requires SealedFrom(Flat(m.segments), Upto(RecordsOf(log), m.checkpointSeq))
    ensures KnownIds(t)
  {
    hide Flat, Latest, RecordsOf, Upto, After, Storable;
    var rs, c, es := RecordsOf(log), m.checkpointSeq, Flat(m.segments);
    WrittenRises(log);
    RecordsRise(log);
    SplitAt(rs, c);
    AllLive(es, rs, c);
    forall id | id in t.l0.Keys + t.segLive.Keys
      ensures t.idKind == Some(KindOf(id)) && IdFits(id)
    {
      LatestFrom(es, id);
      LatestFrom(After(rs, c), id);
      var e := if id in t.l0 then t.l0[id] else Latest(es)[id];
      assert e in rs;
      RecordsStorable(log, e);
      StorableId(e.1);
    }
  }

  lemma StorableId(r: Record)
    requires Storable(r)
    ensures IdFits(r.externalId)
  {
  }

  lemma NoSegments(m: Manifest, segs: map<Name, seq<byte>>)
    requires m.segments == []
    ensures SegsOpen(m, segs) && SegsOf(m, segs) == []
  {
  }

  lemma OpenedFiles(d: Disk, t: Mem)
    requires SoundDisk(d) && Openable(d) && Caught(BaseMem(d), t, RecordsOf(KeptLog(d).log))
    ensures var left := if Rebuilds(d) then RebuiltFiles(d, t) else KeptLog(d);
      && SoundDisk(left) && Openable(left) && StartOf(left) == StartOf(d)
      && (left.manifest.Some? && left.manifest.value.idKind.Some? ==>
            left.manifest.value.idKind == t.idKind && left.manifest.value.dim == t.dim)
  {
    hide Flat, Latest, RecordsOf, Upto, After, Covered, LastBarrier, NextSeq, SoundDisk, StartMem, SegsOf, Replay;
    KeptLogSound(d);
    OpenWritten(d);
    SoundBase(d);
    if Rebuilds(d) {
      RebuiltSound(KeptLog(d), t);
      RemoveSegsSound(Publish(KeptLog(d), HonestManifest(t)), d.segs.Keys);
      NothingSealed();
      NoSegments(HonestManifest(t), RebuiltFiles(d, t).segs);
    }
  }

  /** Opening a sound directory succeeds unless its manifest is the unreadable one, keeps the acknowledged log,
      and shows the sealed entries overlaid with what that log says since the checkpoint. */
  lemma OpenSound(d: Disk)
    requires SoundDisk(d) && Covered(d.log) <= d.synced && Openable(d)
    ensures var (left, res) := OpenStore(d);
      && res.Ok? && left.log == d.log[..Covered(d.log)]
      && Durable(Store(res.value, left)) && Openable(left) && StartOf(left) == StartOf(d)
      && Merged(res.value) == RecalledIn(d, left.log)
  {
    hide Flat, Latest, RecordsOf, Upto, After, Covered, LastBarrier, NextSeq, SoundDisk, StartMem, SegsOf, Replay,
         Merged, Homogeneous, OpenStore, SegLiveOf, Recalled, KnownIds;
    var m, rs := BaseMem(d), RecordsOf(KeptLog(d).log);
    KeptLogSound(d);
    SoundSeqs(d);
    SoundBase(d);
    OpenWritten(d);
    ReplayCatches(m, rs);
    var t := Replay(m, rs).value;
    OpenedFiles(d, t);
    ReplayShows(m, t, rs);
    ReplayKnows(m, t, KeptLog(d).log);
  }

  /** What a power cut leaves: the store that opens shows the sealed entries overlaid with what the last
      surviving barrier covers. */
  lemma CrashSound(d: Disk, n: nat)
    requires SoundDisk(d) && Openable(d) && d.synced <= n <= |d.log|
    ensures var (left, res) := OpenStore(Crashed(d, n));
      && res.Ok? && left.log == d.log[..Covered(d.log[..n])]
      && Durable(Store(res.value, left)) && Openable(left) && StartOf(left) == StartOf(d)
      && Merged(res.value) == RecalledIn(d, left.log)
  {
    hide Durable, SoundDisk, Merged, OpenStore, Covered, RecordsOf, Recalled, SegsOpen, SegsOf, Flat, Latest;
    SyncedWithin(d);
    CoveredMono(d.log[..n], d.synced);
    assert d.log[..n][..d.synced] == d.log[..d.synced];
    CutSound(d, n, n);
    OpenSound(Crashed(d, n));
    assert d.log[..n][..Covered(d.log[..n])] == d.log[..Covered(d.log[..n])];
  }
}
