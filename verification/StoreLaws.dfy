/** The layered store against its specification: invariants, every step, every crash point, reopening. */
module StoreLaws {
  import opened Wrappers
  import opened Bytes
  import opened Records
  import opened RecordLaws
  import opened Wal
  import opened WalLaws
  import opened Segments
  import opened Views
  import opened StoreModel

  // --- invariants ---

  /** All records of the log have one dimension and one kind of id. */
  ghost predicate Homogeneous(rs: seq<Numbered>, dim: nat, kind: IdKind) {
    0 < dim <= 0xFFFF && forall i | 0 <= i < |rs| :: |rs[i].1.vector| == dim && KindOf(IdOf(rs[i])) == kind
  }

  /** A dimension and an id kind, set together, that agree with the log. */
  ghost predicate SchemaOk(dim: nat, kind: Option<IdKind>, rs: seq<Numbered>) {
    (dim == 0 <==> kind.None?) && (kind.Some? ==> Homogeneous(rs, dim, kind.value))
  }

  /** Live entries in order, all of them records of the log. */
  ghost predicate SealedFrom(es: seq<Numbered>, rs: seq<Numbered>) {
    Ascending(es) && forall e | e in es :: e in rs && e.1.lifecycle.Live?
  }

  /** A manifest that the log supports: it seals records up to its checkpoint, but not necessarily their view. */
  ghost predicate SoundManifest(m: Manifest, d: Disk)
    requires SegsOpen(m, d.segs)
  {
    && d.synced <= |d.log| && m.checkpointSeq <= LastBarrier(d.log[..d.synced])
    && (m.idKind.None? ==> Upto(RecordsOf(d.log), m.checkpointSeq) == [])
    && SchemaOk(m.dim, m.idKind, RecordsOf(d.log))
    && SealedFrom(Flat(SegsOf(m, d.segs)), Upto(RecordsOf(d.log), m.checkpointSeq))
  }

  /** A directory that can be opened: the log reads back and has one schema, and the manifest, if its files open,
      is supported by the log. */
  ghost predicate SoundDisk(d: Disk) {
    && Written(d.log) && d.synced <= |d.log|
    && (exists dim, kind :: Homogeneous(RecordsOf(d.log), dim, kind))
    && (d.manifest.Some? && SegsOpen(d.manifest.value, d.segs) ==> SoundManifest(d.manifest.value, d))
  }

  ghost predicate ManifestOk(m: Manifest, d: Disk) {
    && SegsOpen(m, d.segs) && SoundManifest(m, d)
    && Lists(Flat(SegsOf(m, d.segs)), ViewOf(Upto(RecordsOf(d.log), m.checkpointSeq)))
  }

  /** A directory that tells the truth: the manifest, if any, seals exactly the view of the log up to its checkpoint. */
  ghost predicate DiskInv(d: Disk) {
    SoundDisk(d) && (d.manifest.Some? ==> ManifestOk(d.manifest.value, d))
  }

  /** The one manifest that will not open again: segments but no id kind. */
  predicate Openable(d: Disk) {
    d.manifest.Some? ==> Readable(d.manifest.value)
  }

  /** L0 holds the latest state since the checkpoint; only tombstones that hide nothing may be missing. */
  ghost predicate Tracks(m: Mem, rs: seq<Numbered>) {
    var latest := Latest(After(rs, m.checkpointSeq));
    && (forall id | id in m.l0 :: id in latest && m.l0[id] == latest[id])
    && (forall id | id in latest && id !in m.l0 ::
          !latest[id].1.lifecycle.Live? && id !in Latest(Flat(m.segments)))
  }

  ghost predicate Agrees(m: Mem, d: Disk) {
    d.manifest.Some? ==> var mm := d.manifest.value;
      && mm.checkpointSeq == m.checkpointSeq && mm.generation == m.generation
      && SegsOpen(mm, d.segs)
      && SegsOf(mm, d.segs) == m.segments
      && (mm.idKind.Some? ==> mm.idKind == m.idKind && mm.dim == m.dim)
  }

  ghost predicate Inv(s: Store) {
    var m, d, rs := s.mem, s.disk, RecordsOf(s.disk.log);
    && DiskInv(d)
    && Covered(d.log) <= d.synced
    && NextSeq(d.log) <= m.nextSeq && m.committedSeq == LastBarrier(d.log)
    && m.checkpointSeq <= m.committedSeq
    && SchemaOk(m.dim, m.idKind, rs) && (m.idKind.None? ==> rs == [])
    && Agrees(m, d)
    && m.segLive == SegLiveOf(Flat(m.segments))
    && Lists(Flat(m.segments), ViewOf(Upto(rs, m.checkpointSeq)))
    && Tracks(m, rs)
  }

  // --- logs and their records ---

  lemma {:induction false} RecordsRise(es: seq<Entry>)
    requires Increasing(es)
    ensures Ascending(RecordsOf(es))
    ensures forall i | 0 <= i < |RecordsOf(es)| :: FIRST_SEQ <= RecordsOf(es)[i].0 < NextSeq(es)
    decreases |es|
  {
    hide RecordsOf;
    if es == [] {
      RecordsOfNone();
    } else {
      var k := |es| - 1;
      RecordsRise(es[..k]);
      assert es == es[..k] + [es[k]];
      RecordsAppend(es[..k], es[k]);
    }
  }

  lemma {:induction false} RecordsAbove(es: seq<Entry>, c: nat)
    requires forall i | 0 <= i < |es| :: c < es[i].sn
    ensures forall i | 0 <= i < |RecordsOf(es)| :: c < RecordsOf(es)[i].0
    decreases |es|
  {
    if es != [] { RecordsAbove(es[..|es| - 1], c); }
  }

  lemma {:induction false} CoveredMono(es: seq<Entry>, n: nat)
    requires n <= |es|
    ensures Covered(es[..n]) <= Covered(es)
    ensures Covered(es) <= n ==> Covered(es[..n]) == Covered(es)
    decreases |es|
  {
    if n == |es| {
      assert es[..n] == es;
    } else {
      CoveredMono(es[..|es| - 1], n);
      assert es[..|es| - 1][..n] == es[..n];
    }
  }

  lemma BarrierBelow(es: seq<Entry>)
    requires Increasing(es)
    ensures LastBarrier(es) < NextSeq(es)
    ensures forall i | Covered(es) <= i < |es| :: LastBarrier(es) < es[i].sn
    ensures LastBarrier(es[..Covered(es)]) == LastBarrier(es)
  {
    hide Covered;
    CoveredIsBarrier(es);
    CoveredMono(es, Covered(es));
  }

  /** Entries past the last barrier of a prefix have higher sequence numbers than that barrier. */
  lemma BarrierSplits(es: seq<Entry>, n: nat)
    requires Increasing(es) && n <= |es|
    ensures LastBarrier(es[..n]) <= LastBarrier(es)
    ensures forall i | Covered(es[..n]) <= i < |es| :: LastBarrier(es[..n]) < es[i].sn
  {
    CoveredMono(es, n);
    BarrierBelow(es[..n]);
    hide Covered;
    var c := Covered(es[..n]);
    forall i | c <= i < |es|
      ensures LastBarrier(es[..n]) < es[i].sn
    {
      if i < n { assert es[..n][i] == es[i]; }
    }
  }

  lemma {:induction false} CoveredIsBarrier(es: seq<Entry>)
    ensures Covered(es) > 0 ==> es[Covered(es) - 1].Barrier?
    decreases |es|
  {
    if es != [] { CoveredIsBarrier(es[..|es| - 1]); }
  }

  // --- the merged view ---

  lemma {:induction false} BestIsLatest(es: seq<Numbered>)
    requires Ascending(es)
    ensures Best(es) == Latest(es)
    decreases |es|
  {
    if es != [] {
      var front, e := es[..|es| - 1], es[|es| - 1];
      BestIsLatest(front);
      LatestFrom(front, IdOf(e));
    }
  }

  /** The list of a live view has exactly that view as its latest state. */
  lemma SealedView(m: Mem, rs: seq<Numbered>)
    requires Lists(Flat(m.segments), ViewOf(Upto(rs, m.checkpointSeq)))
    ensures Latest(Flat(m.segments)) == Best(Flat(m.segments)) == ViewOf(Upto(rs, m.checkpointSeq))
  {
    LatestFiled(Upto(rs, m.checkpointSeq));
    ListsLatest(Flat(m.segments), ViewOf(Upto(rs, m.checkpointSeq)));
    BestIsLatest(Flat(m.segments));
  }

  lemma UptoBelow(rs: seq<Numbered>, c: nat, id: ExternalId)
    requires Ascending(rs)
    ensures id in Latest(Upto(rs, c)) ==> Latest(Upto(rs, c))[id].0 <= c
    ensures id in Latest(After(rs, c)) ==> c < Latest(After(rs, c))[id].0
  {
    SplitAt(rs, c);
    LatestFrom(Upto(rs, c), id);
    LatestFrom(After(rs, c), id);
  }

  /** Over segments and L0 the store shows exactly the last-write-wins live view of its whole log. */
  lemma MergedIsView(s: Store)
    requires Inv(s)
    ensures Merged(s.mem) == ViewOf(RecordsOf(s.disk.log))
  {
    var m, rs := s.mem, RecordsOf(s.disk.log);
    RecordsRise(s.disk.log);
    MergedTracks(m, rs);
  }

  lemma MergedTracks(m: Mem, rs: seq<Numbered>)
    requires Ascending(rs) && Lists(Flat(m.segments), ViewOf(Upto(rs, m.checkpointSeq))) && Tracks(m, rs)
    ensures Merged(m) == ViewOf(rs)
  {
    hide Best, Flat, Latest, Upto, After, Lists;
    var c := m.checkpointSeq;
    var older, newer := Latest(Upto(rs, c)), Latest(After(rs, c));
    SplitAt(rs, c);
    LatestConcat(Upto(rs, c), After(rs, c));
    SealedView(m, rs);
    assert Latest(rs) == older + newer;
    forall id
      ensures id in Merged(m) <==> id in ViewOf(rs)
      ensures id in Merged(m) ==> Merged(m)[id] == ViewOf(rs)[id]
    {
      UptoBelow(rs, c, id);
      MergedAt(m, older, newer, id);
    }
  }

  /** One id of the merge, when all of L0 is newer than what is sealed. */
  lemma MergedAt(m: Mem, older: View, newer: View, id: ExternalId)
    requires Best(Flat(m.segments)) == LiveOnly(older)
    requires id in older ==> older[id].0 <= m.checkpointSeq
    requires id in newer ==> m.checkpointSeq < newer[id].0
    requires id in m.l0 ==> id in newer && m.l0[id] == newer[id]
    requires id in newer && id !in m.l0 ==> !newer[id].1.lifecycle.Live? && id !in LiveOnly(older)
    ensures id in Merged(m) <==> id in LiveOnly(older + newer)
    ensures id in Merged(m) ==> Merged(m)[id] == LiveOnly(older + newer)[id]
  {
    hide Best, Flat;
  }

  // --- what each durable action keeps of the directory ---

  /** The list of a view holds live records of the log only. */
  lemma ListedSealed(es: seq<Numbered>, rs: seq<Numbered>)
    requires Lists(es, ViewOf(rs))
    ensures SealedFrom(es, rs)
  {
    hide Latest;
    forall e | e in es
      ensures e in rs && e.1.lifecycle.Live?
    {
      LatestFrom(rs, IdOf(e));
    }
  }

  /** The entry may follow in the log. */
  ghost predicate Appendable(d: Disk, e: Entry) {
    && NextSeq(d.log) <= e.sn < SEQ_LIMIT
    && (e.Write? ==>
          && Storable(e.record)
          && (exists dim, kind :: Homogeneous(RecordsOf(d.log) + [(e.sn, e.record)], dim, kind))
          && (d.manifest.Some? && d.manifest.value.idKind.Some? ==>
                && |e.record.vector| == d.manifest.value.dim
                && KindOf(e.record.externalId) == d.manifest.value.idKind.value))
  }

  lemma AppendSound(d: Disk, e: Entry)
    requires SoundDisk(d) && Appendable(d, e)
    ensures SoundDisk(d.(log := d.log + [e]))
  {
    hide LastBarrier, Covered, RecordsOf, Flat, SealedFrom, Upto, After, Storable, SegsOpen, SegsOf;
    var t := d.(log := d.log + [e]);
    WrittenAppend(d.log, e);
    RecordsAppend(d.log, e);
    assert t.log[..t.synced] == d.log[..d.synced];
    assert RecordsOf(d.log) + [] == RecordsOf(d.log);
    if d.manifest.Some? && SegsOpen(d.manifest.value, d.segs) { UptoAppend(d, e, d.manifest.value.checkpointSeq); }
  }

  /** What follows in the log is above every checkpoint. */
  lemma UptoAppend(d: Disk, e: Entry, c: nat)
    requires Written(d.log) && d.synced <= |d.log| && c <= LastBarrier(d.log[..d.synced]) && NextSeq(d.log) <= e.sn
    ensures Upto(RecordsOf(d.log + [e]), c) == Upto(RecordsOf(d.log), c)
  {
    hide LastBarrier, Covered, RecordsOf, Upto, After, Storable;
    RecordsAppend(d.log, e);
    BarrierSplits(d.log, d.synced);
    BarrierBelow(d.log);
    UptoMore(RecordsOf(d.log), if e.Write? then [(e.sn, e.record)] else [], c);
  }

  lemma AppendDisk(d: Disk, e: Entry)
    requires DiskInv(d) && Appendable(d, e)
    ensures DiskInv(d.(log := d.log + [e]))
  {
    hide LastBarrier, RecordsOf, Flat, Lists, ViewOf, Upto, SegsOpen, SegsOf, SealedFrom, Written, Storable;
    AppendSound(d, e);
    if d.manifest.Some? { UptoAppend(d, e, d.manifest.value.checkpointSeq); }
  }

  /** Shorten the log, and move the synced mark, without giving up the barrier the synced prefix had. */
  lemma CutSound(d: Disk, n: nat, synced: nat)
    requires SoundDisk(d) && Covered(d.log[..d.synced]) <= synced <= n <= |d.log|
    ensures SoundDisk(d.(log := d.log[..n], synced := synced))
  {
    hide LastBarrier, Covered, RecordsOf, SoundManifest, Storable, SegsOpen;
    assert d.log == d.log[..n] + d.log[n..];
    WrittenPrefix(d.log, n);
    RecordsConcat(d.log, n);
    var dim, kind :| Homogeneous(RecordsOf(d.log), dim, kind);
    assert Homogeneous(RecordsOf(d.log[..n]), dim, kind) by {
      FewerHomogeneous(RecordsOf(d.log[..n]), RecordsOf(d.log[n..]), dim, kind);
    }
    if d.manifest.Some? && SegsOpen(d.manifest.value, d.segs) { CutManifest(d, n, synced, d.manifest.value); }
  }

  lemma CutDisk(d: Disk, n: nat, synced: nat)
    requires DiskInv(d) && Covered(d.log[..d.synced]) <= synced <= n <= |d.log|
    ensures DiskInv(d.(log := d.log[..n], synced := synced))
  {
    hide LastBarrier, Covered, RecordsOf, SoundManifest, Written, SegsOpen, SegsOf, Flat, Lists, ViewOf, Upto;
    CutSound(d, n, synced);
    assert Written(d.log);
    WrittenRises(d.log);
    if d.manifest.Some? { CutManifest(d, n, synced, d.manifest.value); }
  }

  lemma WrittenRises(es: seq<Entry>)
    requires Written(es)
    ensures Increasing(es)
  {
    hide Storable;
  }

  lemma FewerHomogeneous(a: seq<Numbered>, b: seq<Numbered>, dim: nat, kind: IdKind)
    requires Homogeneous(a + b, dim, kind)
    ensures Homogeneous(a, dim, kind)
  {
    assert forall i | 0 <= i < |a| :: a[i] == (a + b)[i];
  }

  /** What a manifest seals lies below the barrier that is kept. */
  lemma CutManifest(d: Disk, n: nat, synced: nat, m: Manifest)
    requires Increasing(d.log) && SegsOpen(m, d.segs) && SoundManifest(m, d)
    requires Covered(d.log[..d.synced]) <= synced <= n <= |d.log|
    ensures SoundManifest(m, d.(log := d.log[..n], synced := synced))
    ensures Upto(RecordsOf(d.log[..n]), m.checkpointSeq) == Upto(RecordsOf(d.log), m.checkpointSeq)
  {
    hide LastBarrier, Covered, RecordsOf, Flat, SealedFrom, SegsOpen, SegsOf;
    var a, b := d.log[..n], d.log[n..];
    RecordsConcat(d.log, n);
    BarrierSplits(d.log, d.synced);
    KeepsBarrier(d.log, d.synced, synced);
    assert a[..synced] == d.log[..synced];
    RecordsAbove(b, LastBarrier(d.log[..d.synced]));
    UptoMore(RecordsOf(a), RecordsOf(b), m.checkpointSeq);
    if m.idKind.Some? { FewerHomogeneous(RecordsOf(a), RecordsOf(b), m.dim, m.idKind.value); }
  }

  lemma KeepsBarrier(es: seq<Entry>, i: nat, j: nat)
    requires Increasing(es) && i <= |es| && Covered(es[..i]) <= j <= |es|
    ensures LastBarrier(es[..i]) <= LastBarrier(es[..j])
  {
    if j <= i {
      CoveredMono(es[..i], j);
      assert es[..i][..j] == es[..j];
    } else {
      BarrierSplits(es[..j], i);
      assert es[..j][..i] == es[..i];
    }
  }

  /** Names are never reused: there is no such file, nor does the manifest speak of one. */
  predicate FreshName(d: Disk, name: Name) {
    name !in d.segs && (d.manifest.Some? ==> name !in d.manifest.value.segments)
  }

  /** A new segment file leaves what the manifest names alone. */
  lemma WriteSegSame(d: Disk, name: Name, es: seq<Numbered>)
    requires FreshName(d, name) && d.manifest.Some?
    ensures var m, t := d.manifest.value, WriteSeg(d, name, es);
      (SegsOpen(m, t.segs) <==> SegsOpen(m, d.segs)) && (SegsOpen(m, d.segs) ==> SegsOf(m, t.segs) == SegsOf(m, d.segs))
  {
    hide Open, FileBytes;
  }

  lemma WriteSegSound(d: Disk, name: Name, es: seq<Numbered>)
    requires SoundDisk(d) && FreshName(d, name)
    ensures SoundDisk(WriteSeg(d, name, es))
  {
    hide LastBarrier, RecordsOf, Flat, Open, FileBytes, Written, SegsOpen, SegsOf, SealedFrom;
    if d.manifest.Some? { WriteSegSame(d, name, es); }
  }

  lemma WriteSegDisk(d: Disk, name: Name, es: seq<Numbered>)
    requires DiskInv(d) && name !in d.segs
    ensures FreshName(d, name) && DiskInv(WriteSeg(d, name, es))
  {
    hide Lists, ViewOf, LastBarrier, RecordsOf, Flat, Open, FileBytes, Written, SegsOf, SealedFrom;
    WriteSegSound(d, name, es);
    if d.manifest.Some? { WriteSegSame(d, name, es); }
  }

  /** Removing files can only make the manifest unsupported; it leaves it alone when it names none of them. */
  lemma RemoveSegsSame(d: Disk, names: set<Name>)
    requires d.manifest.Some?
    ensures var m, t := d.manifest.value, RemoveSegs(d, names);
      && (SegsOpen(m, t.segs) ==> SegsOpen(m, d.segs) && SegsOf(m, t.segs) == SegsOf(m, d.segs))
      && (SegsOpen(m, d.segs) && (forall i | 0 <= i < |m.segments| :: m.segments[i] !in names) ==> SegsOpen(m, t.segs))
  {
    hide Open;
  }

  lemma RemoveSegsSound(d: Disk, names: set<Name>)
    requires SoundDisk(d)
    ensures SoundDisk(RemoveSegs(d, names))
  {
    hide LastBarrier, RecordsOf, Flat, Written, SegsOpen, SegsOf, SealedFrom;
    if d.manifest.Some? { RemoveSegsSame(d, names); }
  }

  lemma RemoveSegsDisk(d: Disk, names: set<Name>)
    requires DiskInv(d)
    requires d.manifest.Some? ==> var m := d.manifest.value;
      forall i | 0 <= i < |m.segments| :: m.segments[i] !in names
    ensures DiskInv(RemoveSegs(d, names))
  {
    hide Lists, ViewOf, LastBarrier, RecordsOf, Flat, Written, SegsOpen, SegsOf, SealedFrom;
    RemoveSegsSound(d, names);
    if d.manifest.Some? { RemoveSegsSame(d, names); }
  }

  lemma PublishSound(d: Disk, m: Manifest)
    requires SoundDisk(d) && (SegsOpen(m, d.segs) ==> SoundManifest(m, d))
    ensures SoundDisk(Publish(d, m))
  {
    hide LastBarrier, RecordsOf, Flat, Written, SegsOpen, SegsOf, SealedFrom;
  }

  lemma PublishDisk(d: Disk, m: Manifest)
    requires DiskInv(d) && ManifestOk(m, d)
    ensures DiskInv(Publish(d, m))
  {
    hide Lists, ViewOf, LastBarrier, RecordsOf, Flat, Written, SegsOpen, SegsOf, SealedFrom;
    PublishSound(d, m);
  }

  // --- every operation keeps the invariant ---

  /** Sequence numbers are left for so many more entries. */
  predicate Room(s: Store, k: nat) {
    s.mem.nextSeq + k <= SEQ_LIMIT
  }

  /** What `encode` accepts is also within the format's bounds. */
  predicate Fits(r: Record) {
    Encodable(r) ==> Storable(r)
  }

  lemma WriteLogInv(s: Store, r: Record)
    requires Inv(s) && Storable(r) && Room(s, 1)
    requires s.mem.idKind == Some(KindOf(r.externalId)) && |r.vector| == s.mem.dim
    ensures Inv(WriteLog(s, r))
  {
    hide LastBarrier, Covered, RecordsOf, Flat, Lists, ViewOf, LiveOnly, DiskInv, Upto, After, Latest,
         SegLiveOf, NextSeq;
    var sn, rs := s.mem.nextSeq, RecordsOf(s.disk.log);
    var e := Write(sn, r);
    RecordsAppend(s.disk.log, e);
    CoveredAppend(s.disk.log, e);
    NextAppend(s.disk.log, e);
    assert Homogeneous(rs + [(sn, r)], s.mem.dim, s.mem.idKind.value);
    AppendDisk(s.disk, e);
    CommittedBelowNext(s);
    UptoMore(rs, [(sn, r)], s.mem.checkpointSeq);
    LatestAppend(After(rs, s.mem.checkpointSeq), (sn, r));
  }

  lemma CommittedBelowNext(s: Store)
    requires Inv(s)
    ensures s.mem.committedSeq < s.mem.nextSeq
  {
    BarrierBelow(s.disk.log);
  }

  lemma NextAppend(es: seq<Entry>, e: Entry)
    ensures NextSeq(es + [e]) == e.sn + 1
  {
  }

  /** What a barrier does to the log. */
  lemma BarrierLast(log: seq<Entry>, sn: nat)
    ensures var es := log + [Barrier(sn)];
      && RecordsOf(es) == RecordsOf(log) && es[..|es|] == es
      && Covered(es) == |es| && LastBarrier(es) == sn && NextSeq(es) == sn + 1
  {
    hide RecordsOf;
    var e := Barrier(sn);
    RecordsAppend(log, e);
    CoveredAppend(log, e);
    assert RecordsOf(log) + [] == RecordsOf(log);
  }

  lemma CommitSound(d: Disk, sn: nat)
    requires SoundDisk(d) && NextSeq(d.log) <= sn < SEQ_LIMIT
    ensures SoundDisk(d.(log := d.log + [Barrier(sn)]))
    ensures SoundDisk(d.(log := d.log + [Barrier(sn)], synced := |d.log| + 1))
  {
    hide SoundDisk, Covered, RecordsOf, LastBarrier, NextSeq;
    var u := d.(log := d.log + [Barrier(sn)]);
    AppendSound(d, Barrier(sn));
    BarrierLast(d.log, sn);
    SyncedWithin(u);
    CutSound(u, |u.log|, |u.log|);
  }

  lemma SyncedWithin(d: Disk)
    requires SoundDisk(d)
    ensures d.synced <= |d.log| && Covered(d.log[..d.synced]) <= d.synced
  {
    hide Written, SoundManifest;
  }

  lemma CommitDisk(d: Disk, sn: nat)
    requires DiskInv(d) && NextSeq(d.log) <= sn < SEQ_LIMIT
    ensures DiskInv(d.(log := d.log + [Barrier(sn)], synced := |d.log| + 1))
  {
    hide SoundDisk, ManifestOk, Covered, RecordsOf, LastBarrier, NextSeq;
    var u := d.(log := d.log + [Barrier(sn)]);
    AppendDisk(d, Barrier(sn));
    BarrierLast(d.log, sn);
    SyncedWithin(u);
    CutDisk(u, |u.log|, |u.log|);
  }

  lemma CommitLogInv(s: Store)
    requires Inv(s) && Room(s, 1)
    ensures Inv(CommitLog(s))
    ensures RecordsOf(CommitLog(s).disk.log) == RecordsOf(s.disk.log)
    ensures Covered(CommitLog(s).disk.log) == |CommitLog(s).disk.log|
  {
    hide DiskInv, LastBarrier, Covered, RecordsOf, Flat, Lists, ViewOf, SegLiveOf, SchemaOk, NextSeq, Agrees, Tracks;
    CommitDisk(s.disk, s.mem.nextSeq);
    BarrierLast(s.disk.log, s.mem.nextSeq);
    CommittedBelowNext(s);
    CommitKeeps(s);
  }

  lemma DiskBarrier(d: Disk)
    requires SoundDisk(d)
    ensures LastBarrier(d.log) < NextSeq(d.log)
  {
    hide Storable, SoundManifest;
    BarrierBelow(d.log);
  }

  /** A commit touches neither tier. */
  lemma CommitKeeps(s: Store)
    ensures Agrees(CommitLog(s).mem, CommitLog(s).disk) <==> Agrees(s.mem, s.disk)
    ensures forall rs :: Tracks(CommitLog(s).mem, rs) <==> Tracks(s.mem, rs)
  {
    hide Latest, After, Flat;
  }

  lemma MaybeAutocommitInv(s: Store)
    requires Inv(s) && Room(s, 1)
    ensures Inv(MaybeAutocommit(s)) && RecordsOf(MaybeAutocommit(s).disk.log) == RecordsOf(s.disk.log)
    ensures Merged(MaybeAutocommit(s).mem) == Merged(s.mem)
  {
    hide Inv, RecordsOf;
    CommitLogInv(s);
  }

  lemma SchemaInv(s: Store, dim: nat, kind: IdKind)
    requires Inv(s) && (s.mem.idKind.Some? ==> s.mem.idKind.value == kind && s.mem.dim == dim)
    requires 0 < dim <= 0xFFFF
    ensures Inv(s.(mem := s.mem.(dim := dim, idKind := Some(kind))))
  {
    hide LastBarrier, Covered, RecordsOf, Flat, Lists, ViewOf, Latest, After;
  }

  /** A rejected upsert changes nothing; an accepted one adds its record to the view of the log. */
  lemma UpsertInv(s: Store, r: Record)
    requires Inv(s) && Fits(r) && Room(s, 2)
    ensures var (t, res) := Upsert(s, r);
      && Inv(t)
      && (res.Err? ==> t == s)
      && (res.Ok? ==>
          && res.value == s.mem.nextSeq && t.mem.idKind.Some?
          && RecordsOf(t.disk.log) == RecordsOf(s.disk.log) + [(s.mem.nextSeq, r)])
      && t.disk.manifest == s.disk.manifest
      && s.mem.nextSeq <= t.mem.nextSeq <= s.mem.nextSeq + 2
  {
    hide Inv, RecordsOf, WriteLog, Encodable, Storable, Merged;
    SchemaTogether(s);
    if Upsert(s, r).1.Ok? {
      var u := s.(mem := s.mem.(dim := |r.vector|, idKind := Some(KindOf(r.externalId))));
      NewFits(s.mem, r);
      SchemaInv(s, |r.vector|, KindOf(r.externalId));
      WriteLogInv(u, r);
      WrittenRecord(u, r);
      MaybeAutocommitInv(WriteLog(u, r));
    }
  }

  lemma NewFits(m: Mem, r: Record)
    requires ValidNew(m, r)
    ensures |r.vector| <= 0xFFFF
  {
  }

  lemma SchemaTogether(s: Store)
    requires Inv(s)
    ensures s.mem.dim == 0 <==> s.mem.idKind.None?
  {
  }

  lemma WrittenRecord(s: Store, r: Record)
    ensures RecordsOf(WriteLog(s, r).disk.log) == RecordsOf(s.disk.log) + [(s.mem.nextSeq, r)]
    ensures WriteLog(s, r).disk.manifest == s.disk.manifest && WriteLog(s, r).mem.idKind == s.mem.idKind
    ensures WriteLog(s, r).mem.nextSeq == s.mem.nextSeq + 1
  {
    RecordsAppend(s.disk.log, Write(s.mem.nextSeq, r));
  }

  lemma PointReads(m: Mem, rs: seq<Numbered>, id: ExternalId)
    requires Ascending(rs) && Lists(Flat(m.segments), ViewOf(Upto(rs, m.checkpointSeq))) && Tracks(m, rs)
    requires m.segLive == SegLiveOf(Flat(m.segments))
    ensures IsLive(m, id) <==> id in Merged(m)
    ensures id in Merged(m) ==> Merged(m)[id] == (if id in m.l0 then m.l0[id] else Best(Flat(m.segments))[id])
  {
    SealedView(m, rs);
    UptoBelow(rs, m.checkpointSeq, id);
    hide Best, Flat, Latest, Upto, After;
  }

  /** Delete succeeds exactly on the ids the merged view shows, and leaves a tombstone in the log. */
  lemma DeleteInv(s: Store, id: ExternalId)
    requires Inv(s) && Room(s, 2)
    ensures var (t, res) := Delete(s, id);
      && Inv(t)
      && (res.Ok? <==> id in ViewOf(RecordsOf(s.disk.log)))
      && (res.Err? ==> t == s)
      && (res.Ok? ==>
          && res.value == s.mem.nextSeq
          && RecordsOf(t.disk.log) == RecordsOf(s.disk.log) + [(s.mem.nextSeq, Tomb(s.mem, id))])
      && t.disk.manifest == s.disk.manifest
      && s.mem.nextSeq <= t.mem.nextSeq <= s.mem.nextSeq + 2
  {
    hide Inv, RecordsOf, WriteLog, ViewOf, IsLive, Encodable, InBounds, Body;
    LiveIds(s, id);
    if IsLive(s.mem, id) {
      WriteLogInv(s, Tomb(s.mem, id));
      WrittenRecord(s, Tomb(s.mem, id));
      MaybeAutocommitInv(WriteLog(s, Tomb(s.mem, id)));
    }
  }

  /** Liveness is membership in the view; a live id has the store's kind, and its tombstone can be stored. */
  lemma LiveIds(s: Store, id: ExternalId)
    requires Inv(s)
    ensures IsLive(s.mem, id) <==> id in ViewOf(RecordsOf(s.disk.log))
    ensures IsLive(s.mem, id) ==> s.mem.idKind == Some(KindOf(id)) && Storable(Tomb(s.mem, id))
  {
    hide RecordsOf, Latest, Flat, Best, MergeL0, Upto, After, Lists, DiskInv, IsLive, Merged, Tracks, Agrees, Covered,
         LastBarrier, NextSeq, SegLiveOf, Encodable, InBounds, Body;
    var rs := RecordsOf(s.disk.log);
    RecordsAscend(s);
    PointReads(s.mem, rs, id);
    MergedIsView(s);
    LatestFrom(rs, id);
    if id in ViewOf(rs) {
      assert KindOf(id) == s.mem.idKind.value;
      LogStorable(s, Latest(rs)[id]);
      TombStorable(s.mem, id);
    }
  }

  lemma RecordsAscend(s: Store)
    requires Inv(s)
    ensures Ascending(RecordsOf(s.disk.log))
  {
    RecordsRise(s.disk.log);
  }

  lemma {:induction false} RecordsStorable(es: seq<Entry>, e: Numbered)
    requires Written(es) && e in RecordsOf(es)
    ensures Storable(e.1) && FIRST_SEQ <= e.0 < SEQ_LIMIT
    decreases |es|
  {
    hide Storable;
    var k := |es| - 1;
    WrittenPrefix(es, k);
    if e in RecordsOf(es[..k]) { RecordsStorable(es[..k], e); }
  }

  lemma LogStorable(s: Store, e: Numbered)
    requires Inv(s) && e in RecordsOf(s.disk.log)
    ensures IdFits(IdOf(e))
  {
    RecordsStorable(s.disk.log, e);
  }

  predicate IdFits(id: ExternalId) { id.Str? ==> |id.s| <= 0xFFFF }

  /** A tombstone takes its bounds from its id. */
  lemma TombStorable(m: Mem, id: ExternalId)
    requires m.dim <= 0xFFFF && IdFits(id)
    ensures Storable(Tomb(m, id))
  {
    hide LE;
    var r := Tomb(m, id);
    assert Finite(0);
    VectorSize(r.vector);
    assert |IdBytes(id)| <= 0x1_0002 && |NormBytes(None)| == 4 && |TextBytes(None)| == 4 && MetaBytes([]) == [];
  }

  lemma {:induction false} VectorSize(v: seq<u32>)
    ensures |VectorBytes(v)| == 4 * |v|
  {
    hide LE;
    if v != [] { VectorSize(v[1..]); }
  }

  /** The first n of the records were logged, in order. */
  ghost predicate Logged(s: Store, t: Store, rs: seq<Record>, n: nat) {
    var was, now := RecordsOf(s.disk.log), RecordsOf(t.disk.log);
    && n <= |rs| && was <= now && |now| == |was| + n
    && forall i | 0 <= i < n :: now[|was| + i].1 == rs[i]
  }

  /** The outcome is the number of the last record logged. */
  ghost predicate LastLogged(t: Store, res: Outcome) {
    var now := RecordsOf(t.disk.log); now != [] && res == Ok(now[|now| - 1].0)
  }

  /** A batch logs its records in order up to the first that is rejected, and succeeds when none is. */
  lemma {:induction false} UpsertAllInv(s: Store, rs: seq<Record>) returns (n: nat)
    requires Inv(s) && (forall r | r in rs :: Fits(r)) && Room(s, 2 * |rs|)
    ensures var (t, res) := UpsertAll(s, rs);
      && Inv(t) && Logged(s, t, rs, n)
      && (res.Ok? <==> n == |rs|)
      && (n < |rs| ==> Upsert(t, rs[n]).1 == res)
      && (n == |rs| > 0 ==> LastLogged(t, res))
      && t.disk.manifest == s.disk.manifest
      && s.mem.nextSeq <= t.mem.nextSeq <= s.mem.nextSeq + 2 * |rs|
    decreases |rs|
  {
    hide Inv, Upsert, RecordsOf, Fits;
    if rs == [] {
      n := 0;
    } else {
      var k := |rs| - 1;
      n := UpsertAllInv(s, rs[..k]);
      var (u, res) := UpsertAll(s, rs[..k]);
      if res.Ok? {
        UpsertInv(u, rs[k]);
        if Upsert(u, rs[k]).1.Ok? { n := n + 1; }
      }
    }
  }

  lemma AddInv(s: Store, rs: seq<Record>) returns (n: nat)
    requires Inv(s) && (forall r | r in rs :: Fits(r)) && Room(s, 2 * |rs| + 1)
    ensures var (t, res) := Add(s, rs);
      && Inv(t) && Logged(s, t, rs, n)
      && (res.Ok? <==> n == |rs| > 0)
      && (n < |rs| ==> Upsert(t, rs[n]).1 == res)
      && (n == |rs| > 0 ==> LastLogged(t, res))
      && t.disk.manifest == s.disk.manifest
      && s.mem.nextSeq <= t.mem.nextSeq <= s.mem.nextSeq + 2 * |rs| + 1
  {
    hide Inv, UpsertAll, RecordsOf, Upsert, Fits;
    n := UpsertAllInv(s, rs);
    MaybeAutocommitInv(UpsertAll(s, rs).0);
  }

  // --- opening ---

  /** Replay puts the latest state after the checkpoint into L0 and settles the schema. */
  lemma {:induction false} ReplayLaw(m: Mem, rs: seq<Numbered>, dim: nat, kind: IdKind)
    requires m.l0 == map[] && Homogeneous(rs, dim, kind)
    requires m.dim == 0 <==> m.idKind.None?
    requires m.idKind.Some? ==> m.dim == dim && m.idKind.value == kind
    ensures Replay(m, rs).Ok?
    ensures var t, tail := Replay(m, rs).value, After(rs, m.checkpointSeq);
      && t == m.(dim := t.dim, idKind := t.idKind, l0 := Latest(tail))
      && (tail != [] || m.idKind.Some? ==> t.dim == dim && t.idKind == Some(kind))
      && (tail == [] && m.idKind.None? ==> t.dim == 0 && t.idKind == None)
    decreases |rs|
  {
    hide Latest, After;
    if rs == [] {
      SplitNothing(m.checkpointSeq);
      NothingSealed();
    } else {
      var k := |rs| - 1;
      ReplayLaw(m, rs[..k], dim, kind);
      assert rs == rs[..k] + [rs[k]];
      SplitAppend(rs[..k], rs[k], m.checkpointSeq);
      if rs[k].0 > m.checkpointSeq {
        LatestAppend(After(rs[..k], m.checkpointSeq), rs[k]);
      } else {
        assert After(rs[..k], m.checkpointSeq) + [] == After(rs[..k], m.checkpointSeq);
      }
    }
  }

  lemma ManifestUsable(d: Disk)
    requires SoundDisk(d) && d.manifest.Some? && SegsOpen(d.manifest.value, d.segs)
    ensures !Rebuilds(d)
    ensures d.manifest.value.checkpointSeq <= LastBarrier(d.log[..Covered(d.log)]) == LastBarrier(d.log)
  {
    hide Storable, SegsOpen, SealedFrom, SegsOf;
    BarrierSplits(d.log, d.synced);
    BarrierBelow(d.log);
  }

  /** A truthful manifest is supported. */
  lemma TruthIsSupported(d: Disk)
    requires DiskInv(d) && d.manifest.Some?
    ensures SegsOpen(d.manifest.value, d.segs)
  {
    hide SegsOpen, Written, SoundManifest, Lists;
  }

  /** The memory tier before replay. */
  function BaseMem(d: Disk): Mem {
    StartMem(d.manifest, d.segs, NextSeq(d.log), LastBarrier(d.log))
  }

  /** Everything in a sound log decodes to what was written, so that opening replays the log as it is. */
  lemma OpenWritten(d: Disk)
    requires SoundDisk(d)
    ensures OpenStore(d) ==
      if !Rebuilds(d) && !Readable(d.manifest.value) then (KeptLog(d), Err(Error.Segment)) else
      var res := Replay(BaseMem(d), RecordsOf(KeptLog(d).log));
      if res.Err? then (KeptLog(d), res)
      else if Rebuilds(d) then (RebuiltFiles(d, res.value), res)
      else (KeptLog(d), res)
    ensures Rebuilds(d) <==> d.manifest.None? || !SegsOpen(d.manifest.value, d.segs)
  {
    hide Covered, LastBarrier, RecordsOf, Replay, StartMem, AllDecode, ReadBack, Readable, NextSeq, Storable,
         SoundManifest, SegsOpen;
    WrittenReads(d.log);
    WrittenPrefix(d.log, Covered(d.log));
    WrittenReads(KeptLog(d).log);
    if d.manifest.Some? && SegsOpen(d.manifest.value, d.segs) { ManifestUsable(d); }
  }

  function RebuiltFiles(d: Disk, m: Mem): Disk {
    RemoveSegs(Publish(KeptLog(d), HonestManifest(m)), d.segs.Keys)
  }

  lemma KeptParts(d: Disk)
    requires d.synced <= |d.log|
    ensures KeptLog(d).synced <= |KeptLog(d).log|
    ensures Covered(KeptLog(d).log) == |KeptLog(d).log| == Covered(d.log)
    ensures Covered(d.log) < |d.log| || Covered(d.log) <= d.synced ==> KeptLog(d).synced == |KeptLog(d).log|
    ensures Covered(d.log[..d.synced]) <= Covered(d.log)
    ensures Covered(d.log) == |d.log| ==> KeptLog(d) == d
  {
    var c := Covered(d.log);
    CoveredMono(d.log, d.synced);
    CoveredMono(d.log, c);
    if c == |d.log| { assert d.log[..c] == d.log; }
  }

  lemma KeptLogSound(d: Disk)
    requires SoundDisk(d)
    ensures SoundDisk(KeptLog(d)) && KeptLog(d).synced <= |KeptLog(d).log|
    ensures Covered(KeptLog(d).log) == |KeptLog(d).log| == Covered(d.log)
    ensures Covered(d.log) < |d.log| || Covered(d.log) <= d.synced ==> KeptLog(d).synced == |KeptLog(d).log|
  {
    hide SoundDisk, Covered;
    SyncedWithin(d);
    KeptParts(d);
    if Covered(d.log) < |d.log| { CutSound(d, Covered(d.log), Covered(d.log)); }
  }

  lemma KeptLogInv(d: Disk)
    requires DiskInv(d)
    ensures DiskInv(KeptLog(d)) && KeptLog(d).synced <= |KeptLog(d).log|
    ensures Covered(KeptLog(d).log) == |KeptLog(d).log| == Covered(d.log)
    ensures Covered(d.log) < |d.log| || Covered(d.log) <= d.synced ==> KeptLog(d).synced == |KeptLog(d).log|
  {
    hide SoundDisk, ManifestOk, Covered;
    SyncedWithin(d);
    KeptParts(d);
    if Covered(d.log) < |d.log| { CutDisk(d, Covered(d.log), Covered(d.log)); }
  }

  /** The memory tier that opening starts from, before replay: what the manifest seals, or nothing. */
  ghost predicate Base(m: Mem, rs: seq<Numbered>) {
    && SchemaBase(m, rs)
    && Lists(Flat(m.segments), ViewOf(Upto(rs, m.checkpointSeq)))
    && m.segLive == SegLiveOf(Flat(m.segments))
    && m.checkpointSeq <= m.committedSeq
  }

  /** The part of it that replay needs. */
  ghost predicate SchemaBase(m: Mem, rs: seq<Numbered>) {
    && m.l0 == map[] && (m.dim == 0 <==> m.idKind.None?)
    && (m.idKind.None? ==> Upto(rs, m.checkpointSeq) == [])
    && (m.idKind.Some? ==> Homogeneous(rs, m.dim, m.idKind.value))
  }

  lemma BaseSealed(d: Disk)
    requires DiskInv(d) && Openable(d) && d.manifest.Some?
    ensures Base(BaseMem(d), RecordsOf(d.log[..Covered(d.log)]))
  {
    KeptLogInv(d);
    TruthIsSupported(d);
    ManifestUsable(d);
    hide Flat, Lists, ViewOf, RecordsOf, Upto, Covered, LastBarrier, SegLiveOf, NextSeq, Increasing;
  }

  lemma NothingBelowFirst(rs: seq<Numbered>)
    requires Ascending(rs) && forall i | 0 <= i < |rs| :: FIRST_SEQ <= rs[i].0
    ensures Upto(rs, 0) == [] && After(rs, 0) == rs
  {
    UptoMore([], rs, 0);
    assert [] + rs == rs;
  }

  lemma BaseRebuilt(d: Disk)
    requires DiskInv(d) && d.manifest.None?
    ensures Base(BaseMem(d), RecordsOf(d.log[..Covered(d.log)]))
  {
    hide RecordsOf, Upto, After, Covered, LastBarrier, NextSeq, Latest, LiveOnly;
    var rs := RecordsOf(d.log[..Covered(d.log)]);
    KeptLogInv(d);
    RecordsRise(d.log[..Covered(d.log)]);
    NothingBelowFirst(rs);
    NothingSealed();
  }

  lemma NothingSealed()
    ensures Flat([]) == [] && SegLiveOf([]) == map[] && Latest([]) == map[] && ViewOf([]) == map[]
  {
    assert Latest([]) == map[];
  }

  /** The same directory with its manifest published by the rebuild. */
  lemma RebuiltSound(d: Disk, m: Mem)
    requires SoundDisk(d) && SchemaOk(m.dim, m.idKind, RecordsOf(d.log))
    ensures var h := HonestManifest(m);
      && SegsOpen(h, d.segs) && SegsOf(h, d.segs) == [] && SoundManifest(h, d) && SoundDisk(Publish(d, h))
      && Upto(RecordsOf(d.log), 0) == []
  {
    hide RecordsOf, Upto, After, Covered, LastBarrier, NextSeq;
    RecordsRise(d.log);
    NothingBelowFirst(RecordsOf(d.log));
    NothingSealed();
    assert SegsOf(HonestManifest(m), d.segs) == [];
    PublishSound(d, HonestManifest(m));
  }

  lemma RebuiltDisk(d: Disk, m: Mem)
    requires DiskInv(d) && d.manifest.None?
    requires SchemaOk(m.dim, m.idKind, RecordsOf(d.log))
    ensures ManifestOk(HonestManifest(m), d) && DiskInv(Publish(d, HonestManifest(m)))
  {
    hide RecordsOf, Upto, After, Covered, LastBarrier, NextSeq, ViewOf, SoundDisk, SoundManifest;
    RebuiltSound(d, m);
    NothingSealed();
    PublishDisk(d, HonestManifest(m));
  }

  /** Replay over a base gives the memory part of the invariant. */
  ghost predicate Caught(m: Mem, t: Mem, rs: seq<Numbered>) {
    && t == m.(dim := t.dim, idKind := t.idKind, l0 := Latest(After(rs, m.checkpointSeq)))
    && (m.idKind.Some? ==> t.idKind == m.idKind && t.dim == m.dim)
    && SchemaOk(t.dim, t.idKind, rs) && (t.idKind.None? ==> rs == [])
  }

  lemma ReplayCatches(m: Mem, rs: seq<Numbered>)
    requires SchemaBase(m, rs) && Ascending(rs) && exists dim, kind :: Homogeneous(rs, dim, kind)
    ensures Replay(m, rs).Ok? && Caught(m, Replay(m, rs).value, rs)
  {
    SplitAt(rs, m.checkpointSeq);
    var dim, kind :| Homogeneous(rs, dim, kind);
    if m.idKind.Some? { dim, kind := m.dim, m.idKind.value; }
    hide Flat, Lists, ViewOf, Latest, SegLiveOf, Upto;
    ReplayLaw(m, rs, dim, kind);
  }

  lemma CaughtInv(m: Mem, t: Mem, d: Disk)
    requires DiskInv(d) && Covered(d.log) <= d.synced
    requires Base(m, RecordsOf(d.log)) && Caught(m, t, RecordsOf(d.log)) && Agrees(t, d)
    requires NextSeq(d.log) <= m.nextSeq && m.committedSeq == LastBarrier(d.log)
    ensures Inv(Store(t, d))
  {
    hide DiskInv, Flat, Lists, ViewOf, Latest, SegLiveOf, Upto, After, RecordsOf, LastBarrier, Covered,
         SchemaOk, NextSeq;
  }

  lemma BaseAgrees(d: Disk, t: Mem)
    requires DiskInv(d) && Openable(d) && d.manifest.Some? && Caught(BaseMem(d), t, RecordsOf(KeptLog(d).log))
    ensures Agrees(t, KeptLog(d))
  {
    ManifestUsable(d);
    hide Flat, Lists, ViewOf, Latest, SegLiveOf, Upto, After, RecordsOf, LastBarrier, Covered, NextSeq;
  }

  lemma NextKept(es: seq<Entry>, c: nat)
    requires Increasing(es) && c <= |es|
    ensures NextSeq(es[..c]) <= NextSeq(es)
  {
  }

  lemma OpenLoads(d: Disk)
    requires DiskInv(d) && Covered(d.log) <= d.synced && d.manifest.Some? && Openable(d)
    ensures var t := Replay(BaseMem(d), RecordsOf(KeptLog(d).log));
      t.Ok? && Inv(Store(t.value, KeptLog(d)))
  {
    hide Flat, Lists, ViewOf, Latest, SegLiveOf, Upto, After, RecordsOf, LastBarrier, Covered, NextSeq, Replay, Written,
         StartMem, Homogeneous, Open;
    var m := BaseMem(d);
    KeptLogInv(d);
    OpenSeqs(d);
    BaseSealed(d);
    ReplayCatches(m, RecordsOf(KeptLog(d).log));
    var t := Replay(m, RecordsOf(KeptLog(d).log)).value;
    BaseAgrees(d, t);
    CaughtInv(m, t, KeptLog(d));
  }

  lemma OpenRebuilds(d: Disk)
    requires DiskInv(d) && Covered(d.log) <= d.synced && d.manifest.None?
    ensures var t := Replay(BaseMem(d), RecordsOf(KeptLog(d).log));
      t.Ok? && Inv(Store(t.value, RebuiltFiles(d, t.value))) && Openable(RebuiltFiles(d, t.value))
  {
    hide Flat, Lists, ViewOf, Latest, SegLiveOf, Upto, After, RecordsOf, LastBarrier, Covered, NextSeq, Replay, Written,
         StartMem, Homogeneous, Open;
    var m := BaseMem(d);
    KeptLogInv(d);
    OpenSeqs(d);
    BaseRebuilt(d);
    ReplayCatches(m, RecordsOf(KeptLog(d).log));
    var t := Replay(m, RecordsOf(KeptLog(d).log)).value;
    RebuiltDisk(KeptLog(d), t);
    RemoveSegsDisk(Publish(KeptLog(d), HonestManifest(t)), d.segs.Keys);
    assert SegsOf(HonestManifest(t), RebuiltFiles(d, t).segs) == [];
    RebuiltBase(d);
    CaughtInv(m, t, RebuiltFiles(d, t));
  }

  /** Opening a truthful directory fails only on the one unreadable manifest. Otherwise the store it
      yields satisfies the invariant, and so does the directory it leaves, over the committed log. */
  lemma OpenLaw(d: Disk)
    requires DiskInv(d) && Covered(d.log) <= d.synced
    ensures OpenStore(d).1.Ok? <==> Openable(d)
    ensures Openable(d) ==> Inv(Store(OpenStore(d).1.value, OpenStore(d).0)) && Openable(OpenStore(d).0)
    ensures OpenStore(d).0.log == d.log[..Covered(d.log)]
    ensures !Openable(d) ==> OpenStore(d).1 == Err(Error.Segment)
  {
    hide Inv, SoundDisk, ManifestOk, RecordsOf, Covered, Replay, BaseMem, OpenStore, Readable, Rebuilds, SegsOpen;
    if d.manifest.Some? { TruthIsSupported(d); }
    OpenWritten(d);
    if d.manifest.None? { OpenRebuilds(d); } else if Openable(d) { OpenLoads(d); }
  }

  lemma OpenSeqs(d: Disk)
    requires DiskInv(d)
    ensures Ascending(RecordsOf(KeptLog(d).log))
    ensures NextSeq(KeptLog(d).log) <= BaseMem(d).nextSeq
    ensures BaseMem(d).committedSeq == LastBarrier(d.log) == LastBarrier(KeptLog(d).log)
  {
    hide ManifestOk, Storable, RecordsOf, Covered, LastBarrier, Homogeneous, SegLiveOf, Flat, Unsupported, SegsOf;
    WrittenPrefix(d.log, Covered(d.log));
    RecordsRise(KeptLog(d).log);
    NextKept(d.log, Covered(d.log));
    BarrierBelow(d.log);
  }

  lemma RebuiltBase(d: Disk)
    requires d.manifest.None?
    ensures BaseMem(d).segments == [] && BaseMem(d).checkpointSeq == 0 && BaseMem(d).generation == 0
  {
  }

  /** What a power cut leaves: at least the synced entries, and nothing in memory. */
  function Crashed(d: Disk, n: nat): Disk
    requires n <= |d.log|
  {
    d.(log := d.log[..n], synced := n)
  }

  lemma CrashedInv(d: Disk, n: nat)
    requires DiskInv(d) && d.synced <= n <= |d.log|
    ensures DiskInv(Crashed(d, n)) && Covered(d.log[..n]) <= n
    ensures Openable(Crashed(d, n)) <==> Openable(d)
  {
    hide Written, ManifestOk, Homogeneous, RecordsOf;
    CoveredMono(d.log[..n], d.synced);
    CutTwice(d.log, n, d.synced);
    CutDisk(d, n, n);
  }

  lemma CutTwice(es: seq<Entry>, n: nat, k: nat)
    requires k <= n <= |es|
    ensures es[..n][..k] == es[..k]
  {
  }

  /** Cut the log anywhere past its synced prefix: the store that opens shows exactly the last-write-wins
      view of what the last surviving barrier covers, whether it loads the manifest or rebuilds. */
  lemma CrashOpens(d: Disk, n: nat)
    requires DiskInv(d) && d.synced <= n <= |d.log|
    ensures var (left, res) := OpenStore(Crashed(d, n));
      && (res.Ok? <==> Openable(d))
      && left.log == d.log[..Covered(d.log[..n])]
      && (res.Ok? ==> Inv(Store(res.value, left)) && Openable(left)
                      && Merged(res.value) == ViewOf(RecordsOf(d.log[..Covered(d.log[..n])])))
  {
    hide DiskInv, Merged, ViewOf, RecordsOf, OpenStore, Covered, Inv;
    CrashedInv(d, n);
    var c := Covered(d.log[..n]);
    OpenLaw(Crashed(d, n));
    assert d.log[..n][..c] == d.log[..c];
    if Openable(d) { MergedIsView(Store(OpenStore(Crashed(d, n)).1.value, OpenStore(Crashed(d, n)).0)); }
  }

  /** The manifest is only a shortcut: without it the rebuild from the log shows the same view. */
  lemma FastPathIsRebuild(d: Disk)
    requires DiskInv(d) && Covered(d.log) <= d.synced && Openable(d)
    ensures OpenStore(d).1.Ok? && OpenStore(d.(manifest := None)).1.Ok?
    ensures Merged(OpenStore(d).1.value) == Merged(OpenStore(d.(manifest := None)).1.value)
  {
    var bare := d.(manifest := None);
    assert DiskInv(bare);
    OpenLaw(d);
    OpenLaw(bare);
    hide DiskInv, Merged, ViewOf, RecordsOf, OpenStore, Covered, Inv;
    MergedIsView(Store(OpenStore(d).1.value, OpenStore(d).0));
    MergedIsView(Store(OpenStore(bare).1.value, OpenStore(bare).0));
  }
}
