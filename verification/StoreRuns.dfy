/** Checkpoints and their crash points, transactions, rollback, and whole runs of the store. */
module StoreRuns {
  import opened Wrappers
  import opened Bytes
  import opened Records
  import opened RecordLaws
  import opened Wal
  import opened WalLaws
  import opened Segments
  import opened Views
  import opened StoreModel
  import opened StoreLaws
  import opened StoreDurable

  // --- checkpoint ---

  /** What a checkpoint seals can be stored: it is in the log. The file reads back unless its count is too large. */
  lemma Sealable(d: Disk, es: seq<Numbered>)
    requires SoundDisk(d) && SealedFrom(es, RecordsOf(d.log))
    ensures AllEncode(es) && Ascending(es)
    ensures Open(FileBytes(es)) == if |es| < 0x1_0000_0000 then Ok(es) else Err(Error.Segment)
  {
    hide RecordsOf, SoundManifest, Open, FileBytes, InBounds, Encodable, Body, SegsOpen;
    forall i | 0 <= i < |es|
      ensures Storable(es[i].1) && es[i].0 < SEQ_LIMIT
    {
      RecordsStorable(d.log, es[i]);
    }
    SegmentRoundTrip(es);
  }

  /** The entries a checkpoint seals, and so the bytes of its file, are determined by the merged view. */
  lemma CheckpointDetermined(s: Store, name: Name, es: seq<Numbered>, es': seq<Numbered>)
    requires Inv(s) && Lists(es, Merged(s.mem)) && Lists(es', Merged(s.mem))
    ensures es == es' && Checkpoint(s, name, es) == Checkpoint(s, name, es')
  {
    MergedIsView(s);
    LatestFiled(RecordsOf(s.disk.log));
    ListsUnique(es, es', Merged(s.mem));
  }

  /** A manifest over everything the log says, when it ends in its barrier. */
  lemma SealedSound(c: Store, name: Name, es: seq<Numbered>)
    requires Durable(c) && FreshName(c.disk, name) && SealedFrom(es, RecordsOf(c.disk.log))
    requires Covered(c.disk.log) == |c.disk.log|
    ensures var m, d := SealedManifest(c, name), WriteSeg(c.disk, name, es);
      && (SegsOpen(m, d.segs) <==> |es| < 0x1_0000_0000)
      && (SegsOpen(m, d.segs) ==> SegsOf(m, d.segs) == [es] && SoundManifest(m, d))
    ensures var rs := RecordsOf(c.disk.log);
      Upto(rs, c.mem.committedSeq) == rs && After(rs, c.mem.committedSeq) == []
    ensures Flat([es]) == es
  {
    hide RecordsOf, Covered, Flat, SoundDisk, Upto, After, SealedFrom, SchemaOk, NextSeq, Open, FileBytes, LastBarrier,
         KnownIds;
    var d, rs := c.disk, RecordsOf(c.disk.log);
    Sealable(d, es);
    AllBelowBarrier(d);
    FlatOne(es);
    assert d.log[..|d.log|] == d.log;
    OneSegment(SealedManifest(c, name), WriteSeg(d, name, es).segs, name, es);
  }

  lemma OneSegment(m: Manifest, segs: map<Name, seq<byte>>, name: Name, es: seq<Numbered>)
    requires m.segments == [name] && name in segs && segs[name] == FileBytes(es)
    ensures SegsOpen(m, segs) <==> Open(FileBytes(es)).Ok?
    ensures Open(FileBytes(es)) == Ok(es) ==> SegsOf(m, segs) == [es]
  {
    hide Open, FileBytes;
    assert m.segments[0] == name;
  }

  lemma FlatOne(es: seq<Numbered>)
    ensures Flat([es]) == es
  {
    assert [es][..0] == [] && Flat([es]) == Flat([]) + es == es;
  }

  /** When the log ends in a barrier every record is below it. */
  lemma AllBelowBarrier(d: Disk)
    requires SoundDisk(d) && Covered(d.log) == |d.log|
    ensures Upto(RecordsOf(d.log), LastBarrier(d.log)) == RecordsOf(d.log)
    ensures After(RecordsOf(d.log), LastBarrier(d.log)) == [] && d.synced <= |d.log|
  {
    hide SoundManifest, Storable;
    RecordsRise(d.log);
    UptoAll(RecordsOf(d.log), LastBarrier(d.log));
  }

  lemma SealedInv(c: Store, name: Name, es: seq<Numbered>, d: Disk)
    requires Inv(c) && FreshName(c.disk, name) && Lists(es, Merged(c.mem)) && |es| < 0x1_0000_0000
    requires Covered(c.disk.log) == |c.disk.log|
    requires d.log == c.disk.log && d.synced == c.disk.synced && name in d.segs && d.segs[name] == FileBytes(es)
    requires DiskInv(d) && d.manifest == Some(SealedManifest(c, name))
    ensures Inv(Store(Sealed(c.mem, es), d))
    ensures Merged(Sealed(c.mem, es)) == Merged(c.mem)
  {
    hide Merged, ViewOf, RecordsOf, Covered, Flat, DiskInv, SoundDisk, Latest, Upto, After, LastBarrier, SegLiveOf,
         NextSeq, Tracks, SchemaOk, Lists, SealedFrom, Open, FileBytes, SegsOpen, SegsOf, Durable, SoundManifest;
    var m, rs := Sealed(c.mem, es), RecordsOf(c.disk.log);
    MergedIsView(c);
    ListedSealed(es, rs);
    InvDurable(c);
    SealedSound(c, name, es);
    DurableParts(c);
    Sealable(c.disk, es);
    TracksNothing(m, rs);
    OneSegment(SealedManifest(c, name), d.segs, name, es);
    MergedIsView(Store(m, d));
  }

  lemma TracksNothing(m: Mem, rs: seq<Numbered>)
    requires m.l0 == map[] && After(rs, m.checkpointSeq) == []
    ensures Tracks(m, rs)
  {
    assert Latest([]) == map[];
  }

  /** The durable states a checkpoint goes through. */
  datatype Stage =
    | NotBegun
    | BarrierWritten
    | BarrierSynced
    | SegmentWritten
    | ManifestPublished
    | Collecting(removed: set<Name>)

  function DiskAt(s: Store, name: Name, es: seq<Numbered>, stage: Stage): Disk {
    var c := CommitLog(s);
    var published := Published(c, name, es);
    match stage
    case NotBegun => s.disk
    case BarrierWritten => s.disk.(log := c.disk.log)
    case BarrierSynced => c.disk
    case SegmentWritten => WriteSeg(c.disk, name, es)
    case ManifestPublished => published
    case Collecting(removed) => RemoveSegs(published, removed)
  }

  /** What a published checkpoint leaves to start from. */
  function PublishedStart(s: Store, es: seq<Numbered>): Start {
    if |es| < 0x1_0000_0000 then Start(Latest(es), s.mem.nextSeq) else Start(map[], 0)
  }

  predicate Publishes(stage: Stage) { stage.ManifestPublished? || stage.Collecting? }

  /** Every durable state of a checkpoint is a sound directory, whatever part of the log's view it seals. */
  lemma StageSound(s: Store, name: Name, es: seq<Numbered>, stage: Stage)
    requires Durable(s) && SealedFrom(es, RecordsOf(s.disk.log)) && FreshName(s.disk, name)
    requires Room(s, 1) && (stage.Collecting? ==> name !in stage.removed)
    ensures var at := DiskAt(s, name, es, stage);
      && SoundDisk(at)
      && RecordsOf(at.log) == RecordsOf(s.disk.log)
      && (Openable(s.disk) && s.mem.idKind.Some? ==> Openable(at))
      && (Publishes(stage) ==> (Openable(at) <==> s.mem.idKind.Some?))
      && StartOf(at) == if Publishes(stage) then PublishedStart(s, es) else StartOf(s.disk)
  {
    hide RecordsOf, SoundDisk, SealedFrom, Covered, LastBarrier, SoundManifest, Durable, FileBytes, Latest, Flat,
         SegsOpen, SegsOf, Upto, After;
    var c := CommitLog(s);
    DurableParts(s);
    CommitDurable(s);
    DurableParts(c);
    SealedSound(c, name, es);
    WriteSegSound(c.disk, name, es);
    if s.disk.manifest.Some? { WriteSegSame(s.disk, name, es); }
    var published := Published(c, name, es);
    PublishSound(WriteSeg(c.disk, name, es), SealedManifest(c, name));
    if stage.Collecting? {
      RemoveSegsSound(published, stage.removed);
      RemoveSegsSame(published, stage.removed);
    }
  }

  lemma CollectedTruth(s: Store, name: Name, es: seq<Numbered>, removed: set<Name>)
    requires Inv(s) && Lists(es, Merged(s.mem)) && FreshName(s.disk, name) && name !in removed
    requires |es| < 0x1_0000_0000 && Room(s, 1)
    ensures DiskInv(DiskAt(s, name, es, Collecting(removed)))
  {
    hide Inv, RecordsOf, SoundDisk, SealedFrom, Covered, LastBarrier, SoundManifest, Durable, FileBytes, Merged, Lists,
         SegsOpen, SegsOf, Upto, After, ViewOf, Flat;
    var c, rs := CommitLog(s), RecordsOf(s.disk.log);
    InvDurable(s);
    MergedIsView(s);
    ListedSealed(es, rs);
    CommitDurable(s);
    CommitLogInv(s);
    DurableParts(c);
    SealedSound(c, name, es);
    InvParts(c);
    WriteSegDisk(c.disk, name, es);
    PublishDisk(WriteSeg(c.disk, name, es), SealedManifest(c, name));
    RemoveSegsDisk(Published(c, name, es), removed);
  }

  /** Checkpoint keeps the invariant and the view, and empties L0; only a view of 2^32 records or more is
      refused, with both tiers kept. It leaves a directory that opens again exactly when the store had an
      id kind, that is, when something had been written. */
  lemma CheckpointLaw(s: Store, name: Name, es: seq<Numbered>)
    requires Inv(s) && Lists(es, Merged(s.mem)) && FreshName(s.disk, name) && Room(s, 1)
    ensures var (t, res) := Checkpoint(s, name, es);
      && (res.Ok? <==> |es| < 0x1_0000_0000)
      && Merged(t.mem) == Merged(s.mem)
      && RecordsOf(t.disk.log) == RecordsOf(s.disk.log)
      && (res.Ok? ==>
          && res.value == s.mem.nextSeq
          && Inv(t)
          && t.mem.l0 == map[]
          && t.disk.segs.Keys == {name})
      && (Openable(t.disk) <==> s.mem.idKind.Some?)
      && t.mem.nextSeq == s.mem.nextSeq + 1
  {
    hide Inv, RecordsOf, Lists, MergeL0, Best, Flat, Open, FileBytes, AllEncode, SealedStore, ViewOf, SoundDisk,
         Covered, Durable, SealedFrom;
    CommitLogInv(s);
    MergedIsView(s);
    InvDurable(s);
    DurableParts(s);
    ListedSealed(es, RecordsOf(s.disk.log));
    Sealable(s.disk, es);
    assert Merged(CommitLog(s).mem) == Merged(s.mem);
    if |es| < 0x1_0000_0000 { SealedStoreLaw(s, name, es); }
  }

  lemma SealedStoreLaw(s: Store, name: Name, es: seq<Numbered>)
    requires Inv(s) && Lists(es, Merged(s.mem)) && FreshName(s.disk, name) && |es| < 0x1_0000_0000 && Room(s, 1)
    ensures var t := SealedStore(CommitLog(s), name, es, es);
      && Inv(t)
      && Merged(t.mem) == Merged(s.mem)
      && RecordsOf(t.disk.log) == RecordsOf(s.disk.log)
      && t.mem.l0 == map[]
      && t.disk.segs.Keys == {name}
      && (Openable(t.disk) <==> s.mem.idKind.Some?)
      && t.mem.nextSeq == s.mem.nextSeq + 1
  {
    hide Inv, RecordsOf, DiskInv, Lists, Covered, MergeL0, Best, Flat, DiskAt, FileBytes, ViewOf;
    var c := CommitLog(s);
    CommitLogInv(s);
    var published := Published(c, name, es);
    var stale := published.segs.Keys - {name};
    CollectedTruth(s, name, es, stale);
    assert Merged(c.mem) == Merged(s.mem);
    CollectingIs(s, name, es, stale);
    SealedInv(c, name, es, RemoveSegs(published, stale));
  }

  lemma CollectingIs(s: Store, name: Name, es: seq<Numbered>, removed: set<Name>)
    ensures DiskAt(s, name, es, Collecting(removed))
         == RemoveSegs(Published(CommitLog(s), name, es), removed)
  {
  }

  /** A checkpoint of any store whose memory holds records of the log, its whole view or not: the durable half is
      kept, and opening starts from what memory showed, or from the log alone when the count is too large. */
  lemma CheckpointSeals(s: Store, name: Name, es: seq<Numbered>)
    requires Durable(s) && s.mem.idKind.Some? && Room(s, 1) && FreshName(s.disk, name)
    requires SealedFrom(es, RecordsOf(s.disk.log))
    ensures var (t, res) := Checkpoint(s, name, es);
      && Durable(t) && Openable(t.disk) && t.disk.log == CommitLog(s).disk.log
      && (res.Ok? <==> |es| < 0x1_0000_0000) && (res.Ok? ==> res.value == s.mem.nextSeq)
      && StartOf(t.disk) == PublishedStart(s, es)
  {
    hide SoundDisk, RecordsOf, Covered, LastBarrier, NextSeq, SegLiveOf, Open, FileBytes, AllEncode, DiskAt, Latest,
         SealedFrom, KnownIds, SchemaOk, Durable;
    var c := CommitLog(s);
    DurableParts(s);
    Sealable(s.disk, es);
    CommitDurable(s);
    StageSound(s, name, es, ManifestPublished);
    PublishedIs(s, name, es);
    if |es| < 0x1_0000_0000 {
      var stale := Published(c, name, es).segs.Keys - {name};
      StageSound(s, name, es, Collecting(stale));
      CollectingIs(s, name, es, stale);
      SealedKnown(s, es);
    }
    CheckpointKeeps(s, name, es);
  }

  lemma PublishedIs(s: Store, name: Name, es: seq<Numbered>)
    ensures DiskAt(s, name, es, ManifestPublished) == Published(CommitLog(s), name, es)
  {
  }

  lemma SealedKnown(s: Store, es: seq<Numbered>)
    requires Durable(s) && SealedFrom(es, RecordsOf(s.disk.log))
    ensures KnownIds(Sealed(CommitLog(s).mem, es))
  {
    hide RecordsOf, Latest, Covered, LastBarrier, NextSeq, SoundManifest, Storable, SegsOpen;
    var rs := RecordsOf(s.disk.log);
    forall id | id in SegLiveOf(es)
      ensures s.mem.idKind == Some(KindOf(id)) && IdFits(id)
    {
      LatestFrom(es, id);
      var e := Latest(es)[id];
      RecordsStorable(s.disk.log, e);
      StorableId(e.1);
    }
  }

  /** The memory half after a checkpoint, over a directory that is sound. */
  lemma CheckpointKeeps(s: Store, name: Name, es: seq<Numbered>)
    requires Durable(CommitLog(s)) && AllEncode(es)
    requires Open(FileBytes(es)) == if |es| < 0x1_0000_0000 then Ok(es) else Err(Error.Segment)
    requires |es| < 0x1_0000_0000 ==> KnownIds(Sealed(CommitLog(s).mem, es))
    requires SoundDisk(Checkpoint(s, name, es).0.disk)
    ensures Durable(Checkpoint(s, name, es).0)
  {
    hide SoundDisk, RecordsOf, Covered, LastBarrier, NextSeq, SegLiveOf, Open, FileBytes, AllEncode, SchemaOk;
  }

  /** Checkpointing a store that was never written publishes a manifest that no longer opens. */
  lemma EmptyCheckpointDoesNotReopen(name: Name)
    ensures var fst := Store(OpenStore(Disk([], 0, None, map[])).1.value, OpenStore(Disk([], 0, None, map[])).0);
      var (t, res) := Checkpoint(fst, name, []);
      res.Ok? && OpenStore(t.disk).1 == Err(Error.Segment)
  {
    hide Inv, Checkpoint, Openable, Merged, Homogeneous, OpenStore, Covered, RecordsOf, ViewOf, DiskInv;
    EmptyDisk();
    EmptyIs();
    var s := EmptyStore();
    MergedIsView(s);
    CheckpointLaw(s, name, []);
    var t := Checkpoint(s, name, []).0;
    assert Inv(t) && !Openable(t.disk);
    InvParts(t);
    OpenLaw(t.disk);
  }

  function EmptyStore(): Store {
    Store(OpenStore(Disk([], 0, None, map[])).1.value, OpenStore(Disk([], 0, None, map[])).0)
  }

  lemma EmptyIs()
    ensures EmptyStore() == Store(Mem(0, None, None, [], map[], 0, 0, map[], false, false, FIRST_SEQ, 0),
                                  Disk([], 0, Some(Manifest(0, 0, 0, None, None, [])), map[]))
  {
    var d := Disk([], 0, None, map[]);
    assert ReadBack([]) == [] && KeptLog(d) == d;
    assert d.segs - d.segs.Keys == map[];
  }

  lemma EmptyDisk()
    ensures var d := Disk([], 0, None, map[]); DiskInv(d) && Openable(d) && OpenStore(d).1.Ok?
    ensures var s := EmptyStore();
      && Inv(s) && Openable(s.disk) && s.mem.idKind.None? && s.mem.nextSeq == FIRST_SEQ
      && ViewOf(RecordsOf(s.disk.log)) == map[] && s.disk.segs == map[]
  {
    var d := Disk([], 0, None, map[]);
    assert Homogeneous(RecordsOf(d.log), 1, IntKind);
    OpenLaw(d);
    NothingSealed();
    assert ReadBack([]) == [];
  }

  lemma InvParts(s: Store)
    requires Inv(s)
    ensures DiskInv(s.disk) && Covered(s.disk.log) <= s.disk.synced <= |s.disk.log|
    ensures s.mem.committedSeq == LastBarrier(s.disk.log) && NextSeq(s.disk.log) <= s.mem.nextSeq
  {
    hide Lists, ViewOf, RecordsOf, Written, ManifestOk, SoundManifest;
  }

  // --- crash points of a rebuilding open ---

  datatype OpenStage = LogRecovered | ManifestWritten | Sweeping(removed: set<Name>)

  function OpenDiskAt(d: Disk, m: Mem, stage: OpenStage): Disk {
    var kept := KeptLog(d);
    match stage
    case LogRecovered => kept
    case ManifestWritten => Publish(kept, HonestManifest(m))
    case Sweeping(removed) => RemoveSegs(Publish(kept, HonestManifest(m)), removed)
  }

  lemma OpenDiskSound(d: Disk, stage: OpenStage)
    requires SoundDisk(d) && Covered(d.log) <= d.synced && Openable(d) && (stage.LogRecovered? || Rebuilds(d))
    ensures OpenStore(d).1.Ok?
    ensures var at := OpenDiskAt(d, OpenStore(d).1.value, stage);
      && SoundDisk(at) && Openable(at) && StartOf(at) == StartOf(d)
      && at.log == KeptLog(d).log && at.synced == KeptLog(d).synced
  {
    hide RecordsOf, SoundDisk, Covered, OpenStore, SoundManifest, Flat, Latest, Upto, KnownIds, LastBarrier, NextSeq;
    OpenSound(d);
    OpenWritten(d);
    KeptLogSound(d);
    NothingSealed();
    var kept, m := KeptLog(d), OpenStore(d).1.value;
    if !stage.LogRecovered? {
      RebuiltSound(kept, m);
      if stage.Sweeping? {
        RemoveSegsSound(Publish(kept, HonestManifest(m)), stage.removed);
        NoSegments(HonestManifest(m), OpenDiskAt(d, m, stage).segs);
      }
    }
  }

  /** Power fails anywhere inside the rebuild: the next open succeeds and shows the same committed view. */
  lemma RebuildCrashSafe(d: Disk, stage: OpenStage)
    requires SoundDisk(d) && Covered(d.log) <= d.synced && Openable(d) && Rebuilds(d)
    ensures OpenStore(d).1.Ok?
    ensures var at := OpenDiskAt(d, OpenStore(d).1.value, stage);
      && at.synced == |at.log|
      && var (left, res) := OpenStore(Crashed(at, |at.log|));
        && res.Ok? && Openable(left) && left.log == d.log[..Covered(d.log)]
        && Merged(res.value) == ViewOf(RecordsOf(d.log[..Covered(d.log)]))
  {
    hide RecordsOf, SoundDisk, Covered, ViewOf, Merged, OpenStore, Durable, OpenDiskAt, Recalled;
    OpenDiskSound(d, stage);
    OpenWritten(d);
    KeptLogSound(d);
    var at := OpenDiskAt(d, OpenStore(d).1.value, stage);
    CrashSound(at, |at.log|);
    assert at.log[..|at.log|] == at.log;
    SoundRises(d);
    RecallAll(d.log[..Covered(d.log)]);
  }

  lemma SoundRises(d: Disk)
    requires SoundDisk(d)
    ensures Increasing(d.log) && Increasing(d.log[..Covered(d.log)]) && d.synced <= |d.log|
  {
    hide SoundManifest, Storable;
  }

  // --- rollback ---

  /** What the acknowledged log says since the checkpoint. */
  function AckedTail(s: Store): View {
    Latest(After(RecordsOf(s.disk.log[..Covered(s.disk.log)]), s.mem.checkpointSeq))
  }

  function Discarded(s: Store): View {
    Latest(RecordsOf(s.disk.log[Covered(s.disk.log)..]))
  }

  /** No discarded write touched an id whose acknowledged version was in L0,
      except to bury again an id that was dead there and not sealed either. */
  ghost predicate Harmless(s: Store) {
    forall id | id in Discarded(s) && id in AckedTail(s) ::
      !AckedTail(s)[id].1.lifecycle.Live? && id !in s.mem.segLive
  }

  /** The two parts of the log past the checkpoint, and where their sequence numbers lie. */
  lemma TailParts(d: Disk, cp: nat)
    requires Increasing(d.log) && cp <= LastBarrier(d.log)
    ensures var kept, dropped := RecordsOf(d.log[..Covered(d.log)]), RecordsOf(d.log[Covered(d.log)..]);
      && RecordsOf(d.log) == kept + dropped && Ascending(kept)
      && After(RecordsOf(d.log), cp) == After(kept, cp) + dropped
      && Upto(RecordsOf(d.log), cp) == Upto(kept, cp)
      && (forall i | 0 <= i < |kept| :: kept[i].0 <= LastBarrier(d.log))
      && (forall i | 0 <= i < |dropped| :: LastBarrier(d.log) < dropped[i].0)
  {
    var log, c := d.log, Covered(d.log);
    RecordsConcat(log, c);
    BarrierBelow(log);
    RecordsAbove(log[c..], LastBarrier(log));
    RecordsRise(log[..c]);
    KeptBelow(log);
    hide RecordsOf, Covered, LastBarrier;
    UptoMore(RecordsOf(log[..c]), RecordsOf(log[c..]), cp);
  }

  lemma InvSeqs(s: Store)
    requires Inv(s)
    ensures Increasing(s.disk.log) && s.mem.checkpointSeq <= LastBarrier(s.disk.log) == s.mem.committedSeq
  {
    hide Storable, ManifestOk, Homogeneous;
  }

  lemma TailViews(s: Store, id: ExternalId)
    requires Inv(s)
    ensures Latest(After(RecordsOf(s.disk.log), s.mem.checkpointSeq)) == AckedTail(s) + Discarded(s)
    ensures id in AckedTail(s) ==> s.mem.checkpointSeq < AckedTail(s)[id].0 <= s.mem.committedSeq
    ensures id in Discarded(s) ==> s.mem.committedSeq < Discarded(s)[id].0
  {
    hide Inv, RecordsOf, Covered, LastBarrier, Latest, After, Upto;
    var log, cp := s.disk.log, s.mem.checkpointSeq;
    var kept, dropped := RecordsOf(log[..Covered(log)]), RecordsOf(log[Covered(log)..]);
    InvSeqs(s);
    TailParts(s.disk, cp);
    LatestConcat(After(kept, cp), dropped);
    LatestFrom(dropped, id);
    LatestFrom(After(kept, cp), id);
    SplitAt(kept, cp);
    assert forall j | 0 <= j < |After(kept, cp)| :: After(kept, cp)[j] == kept[|Upto(kept, cp)| + j];
  }

  /** How the two parts of the log show in the memory tier, id by id. */
  lemma RolledBackIds(s: Store, id: ExternalId)
    requires Inv(s)
    ensures id in Discarded(s) ==> id !in RolledBack(s).mem.l0
    ensures id !in Discarded(s) ==>
      && (id in RolledBack(s).mem.l0 ==> id in AckedTail(s) && RolledBack(s).mem.l0[id] == AckedTail(s)[id])
      && (id in AckedTail(s) && id !in RolledBack(s).mem.l0 ==>
            !AckedTail(s)[id].1.lifecycle.Live? && id !in Latest(Flat(s.mem.segments)))
    ensures id in AckedTail(s) ==> s.mem.checkpointSeq < AckedTail(s)[id].0
  {
    hide RecordsOf, Covered, LastBarrier, Flat, Lists, ViewOf, DiskInv, Latest, After, Upto, SchemaOk, Agrees,
         NextSeq, SegLiveOf, AckedTail, Discarded;
    TailViews(s, id);
  }

  lemma KeptBelow(es: seq<Entry>)
    requires Increasing(es)
    ensures forall i | 0 <= i < |RecordsOf(es[..Covered(es)])| :: RecordsOf(es[..Covered(es)])[i].0 <= LastBarrier(es)
  {
    var kept := es[..Covered(es)];
    RecordsRise(kept);
    BarrierBelow(es);
    CoveredMono(es, Covered(es));
  }

  lemma RollbackDisk(s: Store)
    requires DiskInv(s.disk)
    ensures RolledBack(s).disk.log == s.disk.log[..Covered(s.disk.log)]
    ensures DiskInv(RolledBack(s).disk) && (Openable(RolledBack(s).disk) <==> Openable(s.disk))
  {
    KeptLogInv(s.disk);
  }

  lemma RollbackTracks(s: Store)
    requires Inv(s) && Harmless(s)
    ensures Tracks(RolledBack(s).mem, RecordsOf(RolledBack(s).disk.log))
  {
    hide Inv, RecordsOf, Covered, LastBarrier, Flat, Latest, KeptLog, DiskInv, After, AckedTail, Discarded, NextSeq;
    InvParts(s);
    RollbackDisk(s);
    assert s.mem.segLive == SegLiveOf(Flat(s.mem.segments)) by { SealedIds(s); }
    assert AckedTail(s) == Latest(After(RecordsOf(RolledBack(s).disk.log), s.mem.checkpointSeq)) by { AckedTailIs(s); }
    forall id | id in AckedTail(s) || id in RolledBack(s).mem.l0
      ensures id in RolledBack(s).mem.l0 ==> id in AckedTail(s) && RolledBack(s).mem.l0[id] == AckedTail(s)[id]
      ensures id in AckedTail(s) && id !in RolledBack(s).mem.l0 ==>
            !AckedTail(s)[id].1.lifecycle.Live? && id !in Latest(Flat(s.mem.segments))
    {
      RolledBackIds(s, id);
    }
  }

  lemma SealedIds(s: Store)
    requires Inv(s)
    ensures s.mem.segLive == SegLiveOf(Flat(s.mem.segments))
  {
  }

  lemma AckedTailIs(s: Store)
    ensures AckedTail(s) == Latest(After(RecordsOf(s.disk.log[..Covered(s.disk.log)]), s.mem.checkpointSeq))
  {
  }

  lemma RollbackInv(s: Store)
    requires Inv(s) && Harmless(s)
    ensures Inv(RolledBack(s))
  {
    RollbackDisk(s);
    RollbackTracks(s);
    KeptLogInv(s.disk);
    BarrierBelow(s.disk.log);
    NextKept(s.disk.log, Covered(s.disk.log));
    RollbackSealed(s);
    hide RecordsOf, Covered, LastBarrier, Flat, Lists, ViewOf, DiskInv, After, Upto, Tracks, NextSeq, SegLiveOf;
  }

  lemma RollbackSealed(s: Store)
    requires Inv(s)
    ensures var kept := RecordsOf(s.disk.log[..Covered(s.disk.log)]);
      && Ascending(kept)
      && Lists(Flat(s.mem.segments), ViewOf(Upto(kept, s.mem.checkpointSeq)))
      && SchemaOk(s.mem.dim, s.mem.idKind, kept) && (s.mem.idKind.None? ==> kept == [])
  {
    hide RecordsOf, Covered, LastBarrier, Flat, Lists, ViewOf, Tracks, Latest, After, Upto, Agrees, NextSeq, SegLiveOf;
    var kept := RecordsOf(s.disk.log[..Covered(s.disk.log)]);
    TailParts(s.disk, s.mem.checkpointSeq);
    assert forall i | 0 <= i < |kept| :: kept[i] == RecordsOf(s.disk.log)[i];
  }

  /** Rollback of a reachable store succeeds and always puts the durable log back to the acknowledged one.
      The store in memory then shows the acknowledged view exactly when no discarded write displaced an
      acknowledged version from L0. */
  lemma RollbackLaw(s: Store)
    requires Inv(s)
    ensures var (t, res) := Rollback(s);
      && res.Ok? && t == RolledBack(s)
      && t.disk.log == s.disk.log[..Covered(s.disk.log)] && DiskInv(t.disk)
      && (Merged(t.mem) == ViewOf(RecordsOf(t.disk.log)) <==> Harmless(s))
      && (Harmless(s) ==> Inv(t))
  {
    hide Inv, RolledBack, Merged, ViewOf, RecordsOf, Covered, DiskInv, AckedTail, Discarded, AllDecode, Durable,
         SoundDisk;
    InvParts(s);
    InvDurable(s);
    DurableParts(s);
    RollbackSucceeds(s);
    RollbackDisk(s);
    if Harmless(s) {
      RollbackInv(s);
      MergedIsView(RolledBack(s));
    } else {
      var id :| id in Discarded(s) && id in AckedTail(s)
        && !(!AckedTail(s)[id].1.lifecycle.Live? && id !in s.mem.segLive);
      RollbackLoses(s, id);
    }
  }

  lemma RollbackSucceeds(s: Store)
    requires SoundDisk(s.disk)
    ensures AllDecode(s.disk.log)
  {
    hide AllDecode, SoundManifest, ReadBack;
    WrittenReads(s.disk.log);
  }

  /** The durable half survives any rollback, harmful or not, with exactly the acknowledged log. */
  lemma RollbackDurable(s: Store)
    requires Durable(s)
    ensures var (t, res) := Rollback(s);
      && res.Ok? && Durable(t) && t.disk.log == s.disk.log[..Covered(s.disk.log)]
      && (Openable(t.disk) <==> Openable(s.disk)) && StartOf(t.disk) == StartOf(s.disk)
      && Covered(t.disk.log) == |t.disk.log| == t.disk.synced
      && t.mem.nextSeq <= s.mem.nextSeq && t.mem.idKind == s.mem.idKind
  {
    hide RecordsOf, Covered, SoundDisk, LastBarrier, NextSeq, AllDecode;
    var log, c := s.disk.log, Covered(s.disk.log);
    RollbackSucceeds(s);
    KeptLogSound(s.disk);
    SoundRises(s.disk);
    BarrierBelow(log);
    NextKept(log, c);
    RecordsConcat(log, c);
    assert forall i | 0 <= i < |RecordsOf(log[..c])| :: RecordsOf(log[..c])[i] == RecordsOf(log)[i];
  }

  /** Whatever a rollback does to memory, no discarded write comes back from the log: committing after it and
      opening again shows the acknowledged view. */
  lemma RollbackThenCommitReopens(s: Store)
    requires Inv(s) && Openable(s.disk) && Room(s, 1)
    ensures var d := CommitLog(Rollback(s).0).disk;
      && OpenStore(d).1.Ok?
      && Merged(OpenStore(d).1.value) == ViewOf(RecordsOf(s.disk.log[..Covered(s.disk.log)]))
  {
    hide Durable, Inv, DiskInv, Merged, ViewOf, RecordsOf, Covered, SoundDisk, OpenStore, NextSeq, LastBarrier,
         Rollback, Recalled;
    var t := Rollback(s).0;
    InvDurable(s);
    RollbackDurable(s);
    CommitDurable(t);
    DurableParts(CommitLog(t));
    var d := CommitLog(t).disk;
    OpenSound(d);
    assert d.log[..|d.log|] == d.log;
    InvParts(s);
    SoundRises(s.disk) by { DurableParts(s); }
    TruthRecalls(s.disk, s.disk.log[..Covered(s.disk.log)]);
  }

  lemma ShownBefore(s: Store, id: ExternalId)
    requires Inv(s) && id in AckedTail(s)
    ensures var kept := RecordsOf(s.disk.log[..Covered(s.disk.log)]);
      && (id in ViewOf(kept) <==> AckedTail(s)[id].1.lifecycle.Live?)
      && (id in ViewOf(kept) ==> ViewOf(kept)[id].0 > s.mem.checkpointSeq)
  {
    var kept, cp := RecordsOf(s.disk.log[..Covered(s.disk.log)]), s.mem.checkpointSeq;
    RollbackSealed(s);
    SplitAt(kept, cp);
    LatestConcat(Upto(kept, cp), After(kept, cp));
    UptoBelow(kept, cp, id);
    hide RecordsOf, Covered, Flat, Lists, DiskInv, After, Upto, Latest, Best, Tracks, Agrees, Discarded;
    assert Latest(kept)[id] == AckedTail(s)[id];
  }

  lemma ShownAfter(s: Store, id: ExternalId)
    requires Inv(s) && id in Discarded(s) && id in AckedTail(s)
    ensures id in Merged(RolledBack(s).mem) ==> Merged(RolledBack(s).mem)[id].0 <= s.mem.checkpointSeq
    ensures id in s.mem.segLive ==> id in Merged(RolledBack(s).mem)
  {
    hide Inv, RecordsOf, Covered, Flat, Lists, After, Upto, Latest, Best, Discarded, AckedTail, NextSeq, LastBarrier;
    var kept, cp := RecordsOf(s.disk.log[..Covered(s.disk.log)]), s.mem.checkpointSeq;
    RolledBackIds(s, id);
    RollbackSealed(s);
    SealedIds(s);
    SealedView(s.mem, kept);
    UptoBelow(kept, cp, id);
  }

  lemma RollbackLoses(s: Store, id: ExternalId)
    requires Inv(s) && id in Discarded(s) && id in AckedTail(s)
    requires AckedTail(s)[id].1.lifecycle.Live? || id in s.mem.segLive
    ensures Merged(RolledBack(s).mem) != ViewOf(RecordsOf(s.disk.log[..Covered(s.disk.log)]))
  {
    hide Inv, Rollback, Merged, ViewOf, RecordsOf, Covered, AckedTail, Discarded;
    ShownBefore(s, id);
    ShownAfter(s, id);
  }

  /** An acknowledged record that a rollback drops from memory, and a checkpoint then drops for good:
      written and committed, overwritten, rolled back, sealed, reopened. */
  lemma RollbackThenCheckpointForgets(a: Record, b: Record, name: Name)
    requires ValidNew(EmptyStore().mem, a) && |b.vector| == |a.vector| && Storable(a) && Storable(b)
    requires a.externalId == b.externalId && a.lifecycle.Live?
    ensures var s1 := CommitLog(Upsert(EmptyStore(), a).0);
      var s2 := Rollback(Upsert(s1, b).0).0;
      var s3 := Checkpoint(s2, name, []).0;
      && Upsert(s1, b).1.Ok? && Rollback(Upsert(s1, b).0).1.Ok? && Checkpoint(s2, name, []).1.Ok?
      && a.externalId in Merged(s1.mem)
      && RecordsOf(s2.disk.log) == RecordsOf(s1.disk.log) == [(1, a)]
      && Merged(s2.mem) == map[]
      && OpenStore(s3.disk).1.Ok? && Merged(OpenStore(s3.disk).1.value) == map[]
  {
    hide Inv, Durable, Rollback, Merged, Checkpoint, OpenStore, Storable, Upsert, EmptyStore, RecordsOf, ViewOf,
         SoundDisk, Covered, Openable;
    var s0 := EmptyStore();
    EmptyDisk();
    OverwriteAndRollBack(a, b);
    UpsertInv(s0, a);
    CommitLogInv(Upsert(s0, a).0);
    var s1 := CommitLog(Upsert(s0, a).0);
    UpsertInv(s1, b);
    InvDurable(Upsert(s1, b).0);
    RollbackDurable(Upsert(s1, b).0);
    var s2 := Rollback(Upsert(s1, b).0).0;
    EmptyMerge(s2.mem);
    CheckpointSeals(s2, name, []);
    SealedNothing(s2, Checkpoint(s2, name, []).0);
  }

  /** A store whose start is an empty view over its whole log opens empty. */
  lemma SealedNothing(s: Store, t: Store)
    requires Durable(t) && Openable(t.disk) && StartOf(t.disk) == PublishedStart(s, [])
    requires Durable(s) && Room(s, 1) && t.disk.log == CommitLog(s).disk.log
    ensures OpenStore(t.disk).1.Ok? && Merged(OpenStore(t.disk).1.value) == map[]
  {
    hide Durable, Merged, OpenStore, RecordsOf, SoundDisk, Covered, Openable, LastBarrier;
    DurableParts(t);
    CommitDurable(s);
    DurableParts(CommitLog(s));
    OpenSound(t.disk);
    AllBelowBarrier(CommitLog(s).disk);
    assert t.disk.log[..|t.disk.log|] == t.disk.log;
  }

  lemma OverwriteAndRollBack(a: Record, b: Record)
    requires ValidNew(EmptyStore().mem, a) && |b.vector| == |a.vector| && Storable(a) && Storable(b)
    requires a.externalId == b.externalId && a.lifecycle.Live?
    ensures var s0 := Upsert(EmptyStore(), a).0;
      var s1 := CommitLog(s0);
      var u := Upsert(s1, b);
      var (s2, res) := Rollback(u.0);
      && u.1.Ok? && res.Ok? && a.externalId in Merged(s1.mem)
      && s1.disk.log == s2.disk.log == [Write(1, a), Barrier(2)] && RecordsOf(s1.disk.log) == [(1, a)]
      && s2.mem.segments == [] && s2.mem.l0 == map[] && s2.mem.idKind.Some?
      && s0.mem.nextSeq == 2 && s1.mem.nextSeq == 3 && s2.mem.nextSeq == 4
      && s2.disk.segs == map[] && s2.disk.manifest == Some(Manifest(0, 0, 0, None, None, []))
  {
    hide AllDecode, InBounds, Body, Merged, Encodable, Flat, RolledBack, Covered, LastBarrier, RecordsOf, EmptyStore;
    EmptyIs();
    var s1 := CommitLog(Upsert(EmptyStore(), a).0);
    assert s1.disk.log == [Write(1, a), Barrier(2)];
    ShownOne(s1.mem, (1, a));
    var u := Upsert(s1, b).0;
    assert u.disk.log == [Write(1, a), Barrier(2), Write(3, b)];
    Written3(Write(1, a), Barrier(2), Write(3, b));
    Logs3(Write(1, a), Barrier(2), Write(3, b));
    DropLast(u, a, b);
  }

  lemma ShownOne(m: Mem, e: Numbered)
    requires m.segments == [] && m.l0 == map[IdOf(e) := e] && e.1.lifecycle.Live?
    ensures IdOf(e) in Merged(m)
  {
    assert Flat([]) == [];
  }

  lemma DropLast(u: Store, a: Record, b: Record)
    requires u.disk.log == [Write(1, a), Barrier(2), Write(3, b)] && u.mem.committedSeq == 2
    requires u.mem.l0 == map[b.externalId := (3, b)]
    ensures var t := RolledBack(u);
      && t.disk.log == [Write(1, a), Barrier(2)] && t.disk.segs == u.disk.segs && t.disk.manifest == u.disk.manifest
      && t.mem.l0 == map[] && t.mem.nextSeq == 4
      && t.mem.segments == u.mem.segments && t.mem.dim == u.mem.dim && t.mem.idKind == u.mem.idKind
  {
    hide Covered;
    Logs3(Write(1, a), Barrier(2), Write(3, b));
  }

  lemma Written3(w: Entry, bar: Entry, e: Entry)
    requires w.Write? && bar.Barrier? && FIRST_SEQ <= w.sn < bar.sn < e.sn < SEQ_LIMIT
    requires Storable(w.record) && (e.Write? ==> Storable(e.record))
    ensures AllDecode([w, bar, e]) && ReadBack([w, bar, e]) == [w, bar, e]
  {
    hide Storable;
    WrittenReads([w, bar, e]);
  }

  lemma EmptyMerge(m: Mem)
    requires Flat(m.segments) == [] && m.l0 == map[]
    ensures Merged(m) == map[]
  {
    assert Best([]) == map[];
  }

  lemma Logs3(w: Entry, bar: Entry, e: Entry)
    requires w.Write? && bar.Barrier?
    ensures RecordsOf([w, bar]) == [(w.sn, w.record)] && Covered([w, bar]) == 2 && NextSeq([w, bar]) == bar.sn + 1
    ensures Covered([w, bar, e]) == (if e.Barrier? then 3 else 2)
    ensures e.Barrier? ==> RecordsOf([w, bar, e]) == [(w.sn, w.record)]
    ensures [w, bar, e][..2] == [w, bar] && LastBarrier([w, bar, e]) == (if e.Barrier? then e.sn else bar.sn)
  {
    assert [w, bar, e] == [w, bar] + [e] && [w, bar] == [w] + [bar] && [w] == [] + [w];
    RecordsAppend([], w);
    RecordsAppend([w], bar);
    RecordsAppend([w, bar], e);
    CoveredAppend([w], bar);
    CoveredAppend([w, bar], e);
  }
}
