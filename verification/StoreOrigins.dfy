/** Where what the store shows comes from, over every run: harmful rollbacks, dropped guards, refused
    checkpoints and power failures inside operations included. */
module StoreOrigins {
  import opened Wrappers
  import opened Records
  import opened RecordLaws
  import opened Wal
  import opened WalLaws
  import opened Segments
  import opened Views
  import opened StoreModel
  import opened StoreLaws
  import opened StoreRuns
  import opened StoreDurable
  import opened StoreOps

  /** Every entry is one of the records. */
  ghost predicate Within(es: seq<Numbered>, rs: seq<Numbered>) {
    forall e | e in es :: e in rs
  }

  ghost predicate ViewWithin(v: View, rs: seq<Numbered>) {
    forall id | id in v :: v[id] in rs && IdOf(v[id]) == id
  }

  /** What the manifest seals, if its files open, is in the part of the log no crash takes away. */
  ghost predicate TracedDisk(d: Disk) {
    && Written(d.log) && d.synced <= |d.log|
    && (d.manifest.Some? && SegsOpen(d.manifest.value, d.segs) ==>
          Within(Flat(SegsOf(d.manifest.value, d.segs)), RecordsOf(d.log[..Covered(d.log[..d.synced])])))
  }

  /** Everything in either tier is a record of the log. */
  ghost predicate Traced(s: Store) {
    && TracedDisk(s.disk) && Covered(s.disk.log) <= s.disk.synced
    && NextSeq(s.disk.log) <= s.mem.nextSeq && s.mem.committedSeq == LastBarrier(s.disk.log)
    && Within(Flat(s.mem.segments), RecordsOf(Acked(s)))
    && s.mem.segLive == SegLiveOf(Flat(s.mem.segments))
    && ViewWithin(s.mem.l0, RecordsOf(s.disk.log))
  }

  // --- the log ---

  lemma PrefixWithin(es: seq<Entry>, c: nat)
    requires c <= |es|
    ensures Within(RecordsOf(es[..c]), RecordsOf(es))
  {
    RecordsConcat(es, c);
    hide RecordsOf;
  }

  lemma CoveredWithinLonger(es: seq<Entry>, i: nat, j: nat)
    requires i <= j <= |es|
    ensures Covered(es[..i]) <= Covered(es[..j])
    ensures Within(RecordsOf(es[..Covered(es[..i])]), RecordsOf(es[..Covered(es[..j])]))
  {
    hide Covered, RecordsOf;
    assert es[..j][..i] == es[..i];
    CoveredMono(es[..j], i);
    var c := Covered(es[..i]);
    assert es[..Covered(es[..j])][..c] == es[..c];
    PrefixWithin(es[..Covered(es[..j])], c);
  }

  lemma AppendTraced(d: Disk, e: Entry)
    requires TracedDisk(d) && NextSeq(d.log) <= e.sn < SEQ_LIMIT && (e.Write? ==> Storable(e.record))
    ensures TracedDisk(d.(log := d.log + [e]))
  {
    hide Storable, Covered, RecordsOf, Flat, SegsOpen, SegsOf;
    var log := d.log + [e];
    WrittenAppend(d.log, e);
    assert log[..d.synced] == d.log[..d.synced];
    assert log[..Covered(d.log[..d.synced])] == d.log[..Covered(d.log[..d.synced])];
  }

  /** Shorten the log behind the synced mark, and move the mark, without giving up a barrier. */
  lemma CutTraced(d: Disk, n: nat, synced: nat)
    requires TracedDisk(d) && synced <= n <= |d.log| && Covered(d.log[..d.synced]) <= synced
    ensures TracedDisk(d.(log := d.log[..n], synced := synced))
  {
    hide Storable, Covered, RecordsOf, Flat, SegsOpen, SegsOf;
    var log, c := d.log, Covered(d.log[..d.synced]);
    WrittenPrefix(log, n);
    assert log[..n][..synced] == log[..synced];
    CoveredMono(log[..d.synced], c);
    assert log[..d.synced][..c] == log[..c];
    assert c == Covered(log[..c]);
    CoveredWithinLonger(log, c, synced);
    assert log[..n][..Covered(log[..synced])] == log[..Covered(log[..synced])];
  }

  lemma CrashTraced(d: Disk, n: nat)
    requires TracedDisk(d) && d.synced <= n <= |d.log|
    ensures TracedDisk(Crashed(d, n)) && Covered(Crashed(d, n).log) <= Crashed(d, n).synced
  {
    hide Covered, Written;
    CutTraced(d, n, n);
  }

  /** Sealed entries are records of the part of the log up to the barrier that covers their checkpoint. */
  lemma SealedWithinAcked(es: seq<Numbered>, log: seq<Entry>, n: nat, c: nat)
    requires Increasing(log) && n <= |log| && c <= LastBarrier(log[..n])
    requires SealedFrom(es, Upto(RecordsOf(log), c))
    ensures Within(es, RecordsOf(log[..Covered(log[..n])]))
  {
    hide RecordsOf, Covered, LastBarrier, Upto, After;
    var k := Covered(log[..n]);
    assert log[..n][..k] == log[..k];
    UptoKept(log[..n], log, c);
    UptoKept(log[..n], log[..k], c);
    RecordsRise(log[..k]);
    SplitAt(RecordsOf(log[..k]), c);
  }

  lemma InvTraced(s: Store)
    requires Inv(s)
    ensures Traced(s)
  {
    hide RecordsOf, Latest, Flat, Upto, After, Lists, Covered, LastBarrier, NextSeq, SegLiveOf, SegsOpen,
         SegsOf, ViewOf, SealedFrom, Within, Agrees;
    var m, d, rs := s.mem, s.disk, RecordsOf(s.disk.log);
    WrittenRises(d.log);
    RecordsAscend(s);
    assert d.log[..|d.log|] == d.log;
    ListedSealed(Flat(m.segments), Upto(rs, m.checkpointSeq));
    SealedWithinAcked(Flat(m.segments), d.log, |d.log|, m.checkpointSeq);
    if d.manifest.Some? {
      SealedWithinAcked(Flat(SegsOf(d.manifest.value, d.segs)), d.log, d.synced, d.manifest.value.checkpointSeq);
    }
    SplitAt(rs, m.checkpointSeq);
    forall id | id in m.l0
      ensures m.l0[id] in rs && IdOf(m.l0[id]) == id
    {
      LatestFrom(After(rs, m.checkpointSeq), id);
    }
  }

  // --- writes ---

  lemma WriteTraced(s: Store, r: Record)
    requires Traced(s) && Storable(r) && Room(s, 1)
    ensures Traced(WriteLog(s, r))
  {
    hide Storable, Covered, RecordsOf, Flat, SegsOpen, SegsOf, SegLiveOf, LastBarrier, TracedDisk;
    var e := Write(s.mem.nextSeq, r);
    AppendTraced(s.disk, e);
    RecordsAppend(s.disk.log, e);
    CoveredAppend(s.disk.log, e);
    TracedParts(s.disk);
    CoveredIsWithin(s.disk.log, s.disk.log + [e]);
    NextAppend(s.disk.log, e);
  }

  lemma TracedParts(d: Disk)
    requires TracedDisk(d)
    ensures Written(d.log) && Increasing(d.log) && d.synced <= |d.log|
  {
    hide Storable, RecordsOf, Covered, Flat;
  }

  lemma CommitTraced(s: Store)
    requires Traced(s) && Room(s, 1)
    ensures Traced(CommitLog(s)) && RecordsOf(CommitLog(s).disk.log) == RecordsOf(s.disk.log)
    ensures Acked(CommitLog(s)) == CommitLog(s).disk.log && Acked(s) <= CommitLog(s).disk.log
  {
    hide Storable, Covered, RecordsOf, Flat, SegsOpen, SegsOf, SegLiveOf, LastBarrier, TracedDisk;
    var e := Barrier(s.mem.nextSeq);
    var d := s.disk.(log := s.disk.log + [e]);
    AppendTraced(s.disk, e);
    RecordsAppend(s.disk.log, e);
    assert RecordsOf(s.disk.log) + [] == RecordsOf(s.disk.log);
    CoveredAppend(s.disk.log, e);
    CutTraced(d, |d.log|, |d.log|) by { TracedParts(d); WithinLog(d.log, d.synced); }
    assert d.log[..|d.log|] == d.log;
    PrefixWithin(s.disk.log, Covered(s.disk.log));
    NextAppend(s.disk.log, e);
  }

  lemma WithinLog(es: seq<Entry>, n: nat)
    requires n <= |es|
    ensures Covered(es[..n]) <= n
  {
  }

  /** What the flags and the schema are does not matter. */
  lemma SettleTraced(s: Store, u: Store)
    requires Traced(s) && u.disk == s.disk
    requires u.mem == s.mem.(dim := u.mem.dim, idKind := u.mem.idKind,
                             autocommit := u.mem.autocommit, inTx := u.mem.inTx)
    ensures Traced(u)
  {
    hide TracedDisk, Covered, RecordsOf, Flat, LastBarrier, NextSeq;
  }

  lemma AutocommitTraced(s: Store)
    requires Traced(s) && Room(s, 1)
    ensures var t := MaybeAutocommit(s);
      && Traced(t) && RecordsOf(t.disk.log) == RecordsOf(s.disk.log) && Acked(s) <= Acked(t)
      && t.mem.nextSeq <= s.mem.nextSeq + 1
  {
    hide Traced, RecordsOf, Covered;
    CommitTraced(s);
  }

  /** One write: the state is traced, what was acknowledged stays, and the record is new under a new number. */
  ghost predicate Writes(s: Store, t: Store, r: Record) {
    && Traced(t) && Acked(s) <= Acked(t)
    && RecordsOf(t.disk.log) == RecordsOf(s.disk.log) + [(s.mem.nextSeq, r)]
    && s.mem.nextSeq < t.mem.nextSeq <= s.mem.nextSeq + 2
  }

  lemma WriteOrigin(s: Store, r: Record)
    requires Traced(s) && Storable(r) && Room(s, 2)
    ensures Writes(s, MaybeAutocommit(WriteLog(s, r)), r)
    ensures Traced(WriteLog(s, r)) && Acked(WriteLog(s, r)) == Acked(s)
  {
    hide Traced, RecordsOf, Covered, Storable;
    WriteTraced(s, r);
    WrittenRecord(s, r);
    CoveredAppend(s.disk.log, Write(s.mem.nextSeq, r));
    CoveredIsWithin(s.disk.log, WriteLog(s, r).disk.log);
    AutocommitTraced(WriteLog(s, r));
  }

  lemma UpsertOrigin(s: Store, r: Record)
    requires Traced(s) && Fits(r) && Room(s, 2)
    ensures var (t, res) := Upsert(s, r);
      if res.Ok? then Writes(s, t, r) else Traced(t) && t.disk == s.disk && t.mem.nextSeq == s.mem.nextSeq
    ensures Upsert(s, r).1.Ok? ==> Storable(r)
  {
    hide Traced, RecordsOf, Covered, Encodable, InBounds, Body, WriteLog;
    var t := if s.mem.dim == 0 then s.(mem := s.mem.(dim := |r.vector|)) else s;
    var u := t.(mem := t.mem.(idKind := Some(KindOf(r.externalId))));
    SettleTraced(s, t);
    SettleTraced(s, u);
    if Upsert(s, r).1.Ok? { WriteOrigin(u, r); }
  }

  /** An id that is live in memory is the id of a record of the log. */
  lemma LiveIsLogged(s: Store, id: ExternalId)
    requires Traced(s) && IsLive(s.mem, id)
    ensures IdFits(id)
  {
    hide Covered, RecordsOf, Flat, SegsOpen, SegsOf, LastBarrier, Latest, Encodable, Body;
    var e := if id in s.mem.l0 then s.mem.l0[id] else Latest(Flat(s.mem.segments))[id];
    LatestFrom(Flat(s.mem.segments), id);
    PrefixWithin(s.disk.log, Covered(s.disk.log));
    RecordsStorable(s.disk.log, e);
  }

  lemma DeleteOrigin(s: Store, id: ExternalId)
    requires Traced(s) && Room(s, 2)
    ensures var (t, res) := Delete(s, id);
      if res.Ok? then Writes(s, t, Tomb(s.mem, id)) else t == s
    ensures Delete(s, id).1.Ok? ==> Storable(Tomb(s.mem, id))
  {
    hide Traced, RecordsOf, Covered, InBounds, Body, IsLive, WriteLog;
    if Delete(s, id).1.Ok? {
      LiveIsLogged(s, id);
      assert s.mem.dim <= 0xFFFF by { assert |Tomb(s.mem, id).vector| == s.mem.dim; }
      TombStorable(s.mem, id);
      WriteOrigin(s, Tomb(s.mem, id));
    }
  }

  /** What a run of writes may add to the log. */
  ghost predicate Adds(s: Store, t: Store, rs: seq<Record>) {
    && Traced(t) && Acked(s) <= Acked(t)
    && (forall e | e in RecordsOf(t.disk.log) ::
          e in RecordsOf(s.disk.log) || (e.1 in rs && s.mem.nextSeq <= e.0))
    && s.mem.nextSeq <= t.mem.nextSeq
  }

  lemma {:induction false} BatchOrigin(s: Store, rs: seq<Record>)
    requires Traced(s) && (forall r | r in rs :: Fits(r)) && Room(s, 2 * |rs|)
    ensures var t := UpsertAll(s, rs).0; Adds(s, t, rs) && t.mem.nextSeq <= s.mem.nextSeq + 2 * |rs|
    decreases |rs|
  {
    hide Traced, RecordsOf, Covered, Upsert, Fits;
    if rs != [] {
      var k := |rs| - 1;
      BatchOrigin(s, rs[..k]);
      UpsertOrigin(UpsertAll(s, rs[..k]).0, rs[k]);
    }
  }

  // --- reads ---

  lemma {:induction false} BestFrom(es: seq<Numbered>)
    ensures forall id | id in Best(es) :: Best(es)[id] in es && IdOf(Best(es)[id]) == id
    decreases |es|
  {
    if es != [] { BestFrom(es[..|es| - 1]); }
  }

  /** The merged view shows records of the log only. */
  lemma MergedWithin(s: Store)
    requires Traced(s)
    ensures ViewWithin(Merged(s.mem), RecordsOf(s.disk.log))
  {
    hide Best, Flat, RecordsOf, Covered, TracedDisk, LastBarrier, NextSeq;
    BestFrom(Flat(s.mem.segments));
    TracedParts(s.disk) by { assert TracedDisk(s.disk); }
    PrefixWithin(s.disk.log, Covered(s.disk.log));
  }

  /** What lists the merged view is live records of the log, and is that view by id. */
  lemma MergedSeals(s: Store, es: seq<Numbered>)
    requires Traced(s) && Lists(es, Merged(s.mem))
    ensures SealedFrom(es, RecordsOf(s.disk.log)) && Latest(es) == Merged(s.mem)
  {
    hide Traced, RecordsOf, MergeL0;
    MergedWithin(s);
    ListsLatest(es, Merged(s.mem));
  }

  // --- rollback ---

  lemma RollbackTraced(s: Store)
    requires Traced(s)
    ensures Rollback(s).1.Ok? && Traced(Rollback(s).0) && Rollback(s).0.disk.log == Acked(s)
    ensures Acked(Rollback(s).0) == Acked(s)
  {
    hide AllDecode, RecordsOf, Covered, LastBarrier, Flat, SegLiveOf, TracedDisk, ReadBack;
    var log, c := s.disk.log, Covered(s.disk.log);
    TracedParts(s.disk);
    WrittenReads(log);
    KeptTraced(s.disk);
    TailParts(s.disk, 0);
    BarrierBelow(log);
    NextKept(log, c);
    AckedPrefix(log, c);
    var t := Rollback(s).0;
    forall id | id in t.mem.l0
      ensures t.mem.l0[id] in RecordsOf(log[..c]) && IdOf(t.mem.l0[id]) == id
    {
      assert t.mem.l0[id] == s.mem.l0[id] && s.mem.l0[id].0 <= LastBarrier(log);
    }
  }

  lemma AckedPrefix(es: seq<Entry>, n: nat)
    requires Covered(es) <= n <= |es|
    ensures es[..n][..Covered(es[..n])] == es[..Covered(es)]
    ensures es[..Covered(es)][..Covered(es[..Covered(es)])] == es[..Covered(es)]
    ensures Covered(es[..Covered(es)]) == Covered(es)
  {
    CoveredMono(es, n);
    CoveredMono(es, Covered(es));
  }

  lemma KeptTraced(d: Disk)
    requires TracedDisk(d)
    ensures var k := KeptLog(d); TracedDisk(k) && k.log == d.log[..Covered(d.log)] && Covered(k.log) == |k.log|
    ensures Covered(d.log) < |d.log| || Covered(d.log) <= d.synced ==> KeptLog(d).synced == |KeptLog(d).log|
  {
    hide Covered, RecordsOf, Written;
    var c := Covered(d.log);
    AckedPrefix(d.log, c);
    CoveredMono(d.log, d.synced);
    if c < |d.log| { CutTraced(d, c, c); } else { assert d.log[..c] == d.log; }
  }

  // --- checkpoint ---

  lemma ListedStorable(s: Store, es: seq<Numbered>)
    requires Traced(s) && Lists(es, Merged(s.mem))
    ensures Within(es, RecordsOf(s.disk.log)) && AllEncode(es)
    ensures Open(FileBytes(es)) == if |es| < 0x1_0000_0000 then Ok(es) else Err(Error.Segment)
  {
    hide Merged, RecordsOf, Covered, Latest, NextSeq, SegLiveOf, Flat, LastBarrier, Open, FileBytes, InBounds,
         Encodable, Body, Traced;
    MergedWithin(s);
    forall i | 0 <= i < |es|
      ensures Storable(es[i].1) && es[i].0 < SEQ_LIMIT && es[i] in RecordsOf(s.disk.log)
    {
      assert Merged(s.mem)[IdOf(es[i])] == es[i];
      TracedStorable(s, es[i]);
    }
    SegmentRoundTrip(es);
  }

  lemma TracedStorable(s: Store, e: Numbered)
    requires Traced(s) && e in RecordsOf(s.disk.log)
    ensures Storable(e.1) && e.0 < SEQ_LIMIT
  {
    hide Storable;
    RecordsStorable(s.disk.log, e);
  }

  lemma PublishedTraced(d: Disk, m: Manifest, name: Name, es: seq<Numbered>)
    requires TracedDisk(d) && d.synced == |d.log| == Covered(d.log) && Within(es, RecordsOf(d.log))
    requires m.segments == [name] && name in d.segs && d.segs[name] == FileBytes(es)
    requires Open(FileBytes(es)).Ok? ==> Open(FileBytes(es)) == Ok(es)
    ensures TracedDisk(Publish(d, m))
  {
    hide Open, FileBytes, Written, RecordsOf, Flat;
    assert d.log[..|d.log|] == d.log;
    if SegsOpen(m, d.segs) {
      assert SegsOf(m, d.segs) == [es];
      FlatOne(es);
    }
  }

  lemma WriteSegTraced(d: Disk, name: Name, es: seq<Numbered>)
    requires TracedDisk(d) && FreshName(d, name)
    ensures TracedDisk(WriteSeg(d, name, es))
  {
    hide Open, FileBytes, Written, RecordsOf, Flat, Covered;
    if d.manifest.Some? && SegsOpen(d.manifest.value, WriteSeg(d, name, es).segs) {
      var m := d.manifest.value;
      assert SegsOpen(m, d.segs) && SegsOf(m, WriteSeg(d, name, es).segs) == SegsOf(m, d.segs);
    }
  }

  lemma RemoveTraced(d: Disk, names: set<Name>)
    requires TracedDisk(d)
    ensures TracedDisk(RemoveSegs(d, names))
  {
    hide Open, Written, RecordsOf, Flat, Covered;
    if d.manifest.Some? && SegsOpen(d.manifest.value, RemoveSegs(d, names).segs) {
      var m := d.manifest.value;
      assert SegsOpen(m, d.segs) && SegsOf(m, RemoveSegs(d, names).segs) == SegsOf(m, d.segs);
    }
  }

  lemma StageTraced(s: Store, name: Name, es: seq<Numbered>, stage: Stage)
    requires Traced(s) && Room(s, 1) && FreshName(s.disk, name) && Lists(es, Merged(s.mem))
    ensures TracedDisk(DiskAt(s, name, es, stage))
  {
    hide Traced, RecordsOf, Covered, Merged, Open, FileBytes, TracedDisk, WriteSeg, Lists, AllEncode;
    var c := CommitLog(s);
    CommitTraced(s);
    ListedStorable(s, es);
    DiskTraced(s);
    DiskTraced(c);
    AppendHanging(s);
    SegmentTraced(c, name, es);
    if stage.Collecting? { RemoveTraced(DiskAt(s, name, es, ManifestPublished), stage.removed); }
  }

  lemma DiskTraced(s: Store)
    requires Traced(s)
    ensures TracedDisk(s.disk) && Covered(s.disk.log) <= s.disk.synced <= |s.disk.log|
    ensures NextSeq(s.disk.log) <= s.mem.nextSeq
  {
    hide RecordsOf, Covered, Flat, Written;
  }

  lemma AppendHanging(s: Store)
    requires Traced(s) && Room(s, 1)
    ensures TracedDisk(Hanging(s))
    ensures RecordsOf(Hanging(s).log) == RecordsOf(s.disk.log)
  {
    hide RecordsOf, Covered, TracedDisk;
    AppendTraced(s.disk, Barrier(s.mem.nextSeq));
    RecordsAppend(s.disk.log, Barrier(s.mem.nextSeq));
    assert RecordsOf(s.disk.log) + [] == RecordsOf(s.disk.log);
  }

  lemma SegmentTraced(c: Store, name: Name, es: seq<Numbered>)
    requires Traced(c) && FreshName(c.disk, name) && Within(es, RecordsOf(c.disk.log))
    requires c.disk.synced == |c.disk.log| && Acked(c) == c.disk.log
    requires Open(FileBytes(es)).Ok? ==> Open(FileBytes(es)) == Ok(es)
    ensures TracedDisk(WriteSeg(c.disk, name, es))
    ensures TracedDisk(Published(c, name, es))
  {
    hide RecordsOf, Covered, Open, FileBytes, TracedDisk, Within;
    WriteSegTraced(c.disk, name, es);
    PublishedTraced(WriteSeg(c.disk, name, es), SealedManifest(c, name), name, es);
  }

  /** A checkpoint, refused or not, shows and logs what was there before. */
  lemma CheckpointTraced(s: Store, name: Name, es: seq<Numbered>)
    requires Traced(s) && Room(s, 1) && FreshName(s.disk, name) && Lists(es, Merged(s.mem))
    ensures var t := Checkpoint(s, name, es).0;
      && Traced(t) && t.disk.log == CommitLog(s).disk.log && s.mem.nextSeq <= t.mem.nextSeq
  {
    hide RecordsOf, Covered, Merged, Open, FileBytes, TracedDisk, Lists, AllEncode, NextSeq, LastBarrier,
         SegLiveOf, DiskAt;
    var c, t := CommitLog(s), Checkpoint(s, name, es).0;
    CommitTraced(s);
    ListedStorable(s, es);
    FlatOne(es);
    assert TracedDisk(t.disk) by { CheckpointDisk(s, name, es); }
  }

  lemma CheckpointDisk(s: Store, name: Name, es: seq<Numbered>)
    requires Traced(s) && Room(s, 1) && FreshName(s.disk, name) && Lists(es, Merged(s.mem))
    ensures TracedDisk(Checkpoint(s, name, es).0.disk)
  {
    hide Traced, RecordsOf, Covered, Merged, Open, FileBytes, TracedDisk, Lists, AllEncode, WriteSeg;
    ListedStorable(s, es);
    StageTraced(s, name, es, BarrierSynced);
    StageTraced(s, name, es, ManifestPublished);
    var published := DiskAt(s, name, es, ManifestPublished);
    StageTraced(s, name, es, Collecting(published.segs.Keys - {name}));
  }

  // --- opening ---

  /** Replay fills L0 with records it was given and touches nothing else. */
  lemma {:induction false} ReplayFrom(m: Mem, rs: seq<Numbered>)
    requires Replay(m, rs).Ok? && m.l0 == map[]
    ensures var t := Replay(m, rs).value;
      t == m.(dim := t.dim, idKind := t.idKind, l0 := t.l0) && ViewWithin(t.l0, rs)
    decreases |rs|
  {
    if rs != [] {
      var k := |rs| - 1;
      ReplayFrom(m, rs[..k]);
      assert forall e | e in rs[..k] :: e in rs;
    }
  }

  lemma OpenTraced(d: Disk)
    requires TracedDisk(d) && Covered(d.log) <= d.synced && OpenStore(d).1.Ok?
    ensures Traced(Store(OpenStore(d).1.value, OpenStore(d).0)) && OpenStore(d).0.log == d.log[..Covered(d.log)]
  {
    hide RecordsOf, Covered, TracedDisk, Flat, Open, Replay, SegLiveOf, LastBarrier, NextSeq, AllDecode,
         ReadBack, SegsOpen, SegsOf;
    TracedParts(d);
    WrittenPrefix(d.log, Covered(d.log));
    WrittenReads(KeptLog(d).log);
    KeptTraced(d);
    BarrierBelow(d.log);
    NextKept(d.log, Covered(d.log));
    AckedPrefix(d.log, Covered(d.log));
    var m := BaseMem(d);
    ReplayFrom(m, RecordsOf(KeptLog(d).log));
    SealedWithin(d);
    HonestTraced(KeptLog(d), OpenStore(d).1.value, d.segs.Keys);
  }

  lemma HonestTraced(d: Disk, m: Mem, names: set<Name>)
    requires TracedDisk(d)
    ensures TracedDisk(RemoveSegs(Publish(d, HonestManifest(m)), names))
  {
    hide RecordsOf, Covered, Written;
    assert SegsOf(HonestManifest(m), RemoveSegs(Publish(d, HonestManifest(m)), names).segs) == [];
  }

  lemma SealedWithin(d: Disk)
    requires TracedDisk(d) && Covered(d.log) <= d.synced
    ensures Within(Flat(BaseMem(d).segments), RecordsOf(d.log[..Covered(d.log)]))
    ensures BaseMem(d).segLive == SegLiveOf(Flat(BaseMem(d).segments))
  {
    hide RecordsOf, Covered, Open, SegLiveOf, Written;
    CoveredMono(d.log, d.synced);
    NothingSealed();
  }

  // --- steps ---

  /** The operation writes the record, under a number that was not used before it. */
  predicate WritesRecord(s: Store, op: Op, e: Numbered) {
    s.mem.nextSeq <= e.0 &&
    match op
    case DoUpsert(r) => e.1 == r
    case DoAdd(rs) => e.1 in rs
    case DoDelete(id) => e.1 == Tomb(s.mem, id)
    case DoCrashIn(during, _, _) => WritesRecord(s, during, e)
    case _ => false
  }

  /** All that is new in a log was written by the operation. */
  ghost predicate Gains(s: Store, op: Op, log: seq<Entry>) {
    forall e | e in RecordsOf(log) :: e in RecordsOf(s.disk.log) || WritesRecord(s, op, e)
  }

  lemma GainsNothing(s: Store, op: Op, log: seq<Entry>)
    requires RecordsOf(log) == RecordsOf(s.disk.log) || log <= s.disk.log
    ensures Gains(s, op, log)
  {
    if log <= s.disk.log {
      assert log == s.disk.log[..|log|];
      PrefixWithin(s.disk.log, |log|);
    }
    hide RecordsOf;
  }

  lemma GainsLess(s: Store, op: Op, log: seq<Entry>, n: nat)
    requires Gains(s, op, log) && n <= |log|
    ensures Gains(s, op, log[..n])
  {
    hide RecordsOf;
    PrefixWithin(log, n);
  }

  /** What holds inside an operation, of the directory a power failure would find. */
  ghost predicate Safe(s: Store, op: Op, at: Disk) {
    TracedDisk(at) && Acked(s) <= at.log && |Acked(s)| <= at.synced && Gains(s, op, at.log)
  }

  lemma HangingSafe(s: Store, op: Op)
    requires Traced(s) && Room(s, 1)
    ensures Safe(s, op, Hanging(s))
  {
    hide Traced, TracedDisk, RecordsOf, Covered;
    DiskTraced(s);
    AppendHanging(s);
    GainsNothing(s, op, Hanging(s).log);
  }

  lemma HangingWriteSafe(s: Store, op: Op, r: Record)
    requires Traced(s) && Room(s, 2) && Storable(r) && WritesRecord(s, op, (s.mem.nextSeq, r))
    ensures Safe(s, op, HangingWrite(s, r))
  {
    hide Traced, TracedDisk, RecordsOf, Covered, Storable, WritesRecord;
    var w := WriteLog(s, r);
    DiskTraced(s);
    WriteOrigin(s, r);
    WrittenRecord(s, r);
    AppendHanging(w);
    assert Hanging(w) == HangingWrite(s, r);
  }

  lemma InsideSafe(s: Store, op: Op, at: Disk)
    requires Traced(s) && Inside(s, op, at)
    ensures Safe(s, op, at)
  {
    hide Traced, TracedDisk, RecordsOf, Covered, Upsert, UpsertAll, Delete, Rollback, OpenStore, Lists, Merged, Fits,
         DiskAt, OpenDiskAt, Rebuilds, Tomb, HangingWrite, Hanging, Safe, InsideAdd, Storable;
    match op
    case DoUpsert(r) =>
      UpsertOrigin(s, r);
      HangingWriteSafe(s, op, r);
    case DoDelete(id) =>
      DeleteOrigin(s, id);
      HangingWriteSafe(s, op, Tomb(s.mem, id));
    case DoAdd(rs) => InsideAddSafe(s, rs, at);
    case DoCommit => HangingSafe(s, op);
    case DoCommitTx => HangingSafe(s, op);
    case DoCheckpoint(name, es) =>
      var stage: Stage :| (stage.Collecting? ==> name !in stage.removed) && at == DiskAt(s, name, es, stage);
      StageSafe(s, name, es, stage);
    case DoRollback => RollbackSafe(s, op);
    case DoDropTx => RollbackSafe(s, op);
    case DoReopen(_) =>
      var stage: OpenStage :| (stage.LogRecovered? || Rebuilds(s.disk))
                            && at == OpenDiskAt(s.disk, OpenStore(s.disk).1.value, stage);
      ReopenSafe(s, op, stage);
  }

  lemma RollbackSafe(s: Store, op: Op)
    requires Traced(s)
    ensures Safe(s, op, s.disk) && Safe(s, op, Rollback(s).0.disk) && Safe(s, op, DropTx(s).disk)
  {
    hide Traced, TracedDisk, RecordsOf, Covered, Rollback;
    DiskTraced(s);
    RollbackTraced(s);
    DiskTraced(Rollback(s).0);
    GainsNothing(s, op, s.disk.log);
    GainsNothing(s, op, Acked(s));
  }

  lemma StageSafe(s: Store, name: Name, es: seq<Numbered>, stage: Stage)
    requires Traced(s) && Room(s, 1) && FreshName(s.disk, name) && Lists(es, Merged(s.mem))
    ensures Safe(s, DoCheckpoint(name, es), DiskAt(s, name, es, stage))
  {
    hide Traced, TracedDisk, RecordsOf, Covered, Merged, Lists, WriteSeg;
    var log := DiskAt(s, name, es, stage).log;
    DiskTraced(s);
    StageTraced(s, name, es, stage);
    CommitTraced(s);
    assert log == s.disk.log || log == CommitLog(s).disk.log by { StageLog(s, name, es, stage); }
    GainsNothing(s, DoCheckpoint(name, es), log);
    StageLog(s, name, es, stage);
  }

  lemma StageLog(s: Store, name: Name, es: seq<Numbered>, stage: Stage)
    ensures var at := DiskAt(s, name, es, stage);
      && (at.log == s.disk.log || at.log == CommitLog(s).disk.log)
      && (at.synced == s.disk.synced || at.synced == |s.disk.log| + 1)
  {
    hide FileBytes;
  }

  lemma ReopenSafe(s: Store, op: Op, stage: OpenStage)
    requires Traced(s) && OpenStore(s.disk).1.Ok?
    ensures Safe(s, op, OpenDiskAt(s.disk, OpenStore(s.disk).1.value, stage))
  {
    hide Traced, TracedDisk, RecordsOf, Covered, OpenStore;
    var m := OpenStore(s.disk).1.value;
    DiskTraced(s);
    KeptTraced(s.disk);
    HonestTraced(KeptLog(s.disk), m, {});
    if stage.Sweeping? { HonestTraced(KeptLog(s.disk), m, stage.removed); }
    var d := Publish(KeptLog(s.disk), HonestManifest(m));
    assert RemoveSegs(d, {}) == d by { assert d.segs - {} == d.segs; }
    GainsNothing(s, op, Acked(s));
  }

  lemma InsideAddSafe(s: Store, rs: seq<Record>, at: Disk)
    requires Traced(s) && Allowed(s, DoAdd(rs)) && InsideAdd(s, rs, at)
    ensures Safe(s, DoAdd(rs), at)
  {
    hide Traced, TracedDisk, RecordsOf, Covered, Upsert, UpsertAll, Fits, Hanging, HangingWrite, Storable;
    var op := DoAdd(rs);
    var k :| 0 <= k <= |rs| && var (u, res) := UpsertAll(s, rs[..k]);
      res.Ok? && if k < |rs| then Upsert(u, rs[k]).1.Ok? && at == HangingWrite(u, rs[k]) else at == Hanging(u);
    var u := UpsertAll(s, rs[..k]).0;
    BatchOrigin(s, rs[..k]);
    if k < |rs| {
      UpsertOrigin(u, rs[k]);
      HangingWriteSafe(u, op, rs[k]);
    } else {
      HangingSafe(u, op);
    }
    SafeLater(s, u, op, at);
  }

  lemma SafeLater(s: Store, u: Store, op: Op, at: Disk)
    requires Safe(u, op, at) && op.DoAdd? && Adds(s, u, op.rs)
    ensures Safe(s, op, at)
  {
    hide TracedDisk, Traced, RecordsOf, Covered;
  }

  lemma CrashStep(s: Store, op: Op, at: Disk, n: nat, t: Store)
    requires Safe(s, op, at) && at.synced <= n <= |at.log| && Opened(Crashed(at, n), t)
    ensures Traced(t) && Acked(s) <= Acked(t) && Gains(s, op, t.disk.log)
  {
    hide TracedDisk, Traced, RecordsOf, Covered, OpenStore;
    var log := at.log[..n];
    CrashTraced(at, n);
    OpenTraced(Crashed(at, n));
    assert t.disk.log == log[..Covered(log)] == at.log[..Covered(log)];
    GainsLess(s, op, at.log, Covered(log));
    var c := |Acked(s)|;
    AckedPrefix(s.disk.log, c);
    assert log[..c] == Acked(s);
    CoveredMono(log, c);
    AckedPrefix(log, Covered(log));
  }

  /** Every operation, and every power failure, keeps the trace, keeps what was acknowledged, and adds to the
      log only what the operation writes. */
  lemma StepTraced(s: Store, op: Op, t: Store)
    requires Traced(s) && Does(s, op, t)
    ensures Traced(t) && Acked(s) <= Acked(t) && Gains(s, op, t.disk.log)
  {
    hide Traced, TracedDisk, RecordsOf, Covered, Upsert, UpsertAll, Delete, Rollback, OpenStore, Lists, Merged,
         Fits, DiskAt, OpenDiskAt, Rebuilds, Tomb, HangingWrite, Hanging, Safe, Storable, Inside, Checkpoint,
         CommitLog, Opened;
    match op
    case DoUpsert(r) =>
      UpsertOrigin(s, r);
      if Upsert(s, r).1.Err? { SameLog(s, op, t); }
    case DoAdd(rs) => AddOrigin(s, rs);
    case DoDelete(id) =>
      DeleteOrigin(s, id);
      if Delete(s, id).1.Err? { SameLog(s, op, t); }
    case DoCommit => CommitStep(s, op);
    case DoCheckpoint(name, es) =>
      CheckpointTraced(s, name, es);
      CommitStep(s, op);
      AckedOf(t, CommitLog(s));
    case DoBegin =>
      SettleTraced(s, t);
      SameLog(s, op, t);
    case DoCommitTx =>
      var u := s.(mem := s.mem.(inTx := false));
      SettleTraced(s, u);
      CommitStep(u, op);
    case DoDropTx =>
      RollbackTraced(s);
      SettleTraced(Rollback(s).0, Rollback(s).0.(mem := Rollback(s).0.mem.(inTx := false)));
      if s.mem.inTx { GainsNothing(s, op, Acked(s)); } else { SameLog(s, op, t); }
    case DoRollback =>
      RollbackTraced(s);
      GainsNothing(s, op, Acked(s));
    case DoReopen(autocommit) =>
      DiskTraced(s);
      OpenTraced(s.disk);
      var u := Store(OpenStore(s.disk).1.value, OpenStore(s.disk).0);
      SettleTraced(u, t);
      GainsNothing(s, op, Acked(s));
      AckedPrefix(s.disk.log, Covered(s.disk.log));
    case DoCrash(n) =>
      DiskTraced(s);
      GainsNothing(s, op, s.disk.log);
      CrashStep(s, op, s.disk, n, t) by { SafeDisk(s, op); }
    case DoCrashIn(during, at, n) =>
      InsideSafe(s, during, at);
      CrashStep(s, during, at, n, t);
  }

  lemma SafeDisk(s: Store, op: Op)
    requires Traced(s)
    ensures Safe(s, op, s.disk)
  {
    hide Traced, TracedDisk, RecordsOf, Covered;
    DiskTraced(s);
    GainsNothing(s, op, s.disk.log);
  }

  lemma SameLog(s: Store, op: Op, t: Store)
    requires t.disk.log == s.disk.log
    ensures Acked(s) <= Acked(t) && Gains(s, op, t.disk.log)
  {
    GainsNothing(s, op, t.disk.log);
    hide RecordsOf, Covered;
  }

  lemma AckedOf(t: Store, u: Store)
    requires t.disk.log == u.disk.log
    ensures Acked(t) == Acked(u)
  {
  }

  lemma CommitStep(s: Store, op: Op)
    requires Traced(s) && Room(s, 1)
    ensures Traced(CommitLog(s)) && Acked(s) <= Acked(CommitLog(s)) && Gains(s, op, CommitLog(s).disk.log)
  {
    hide Traced, RecordsOf, Covered;
    CommitTraced(s);
    GainsNothing(s, op, CommitLog(s).disk.log);
  }

  lemma AddOrigin(s: Store, rs: seq<Record>)
    requires Traced(s) && Allowed(s, DoAdd(rs))
    ensures var t := Add(s, rs).0;
      Traced(t) && Acked(s) <= Acked(t) && Gains(s, DoAdd(rs), t.disk.log)
  {
    hide Traced, RecordsOf, Covered, UpsertAll, Fits;
    if rs == [] {
      SameLog(s, DoAdd(rs), s);
    } else {
      var u := UpsertAll(s, rs).0;
      BatchOrigin(s, rs);
      AutocommitTraced(u);
    }
  }

  // --- runs ---

  lemma FirstTraced(s: Store)
    requires Opened(Disk([], 0, None, map[]), s)
    ensures Traced(s)
  {
    hide Traced, OpenStore;
    assert TracedDisk(Disk([], 0, None, map[]));
    OpenTraced(Disk([], 0, None, map[]));
  }

  lemma {:induction false} RunTraced(states: seq<Store>, ops: seq<Op>, i: nat)
    requires Run(states, ops) && i < |states|
    ensures Traced(states[i])
  {
    hide Traced, Does, Opened;
    if i == 0 {
      FirstTraced(states[0]);
    } else {
      RunTraced(states, ops, i - 1);
      StepTraced(states[i - 1], ops[i - 1], states[i]);
    }
  }

  /** An acknowledged write is in the acknowledged log of every later state of the run, in its place. */
  lemma {:induction false} NeverLost(states: seq<Store>, ops: seq<Op>, i: nat, j: nat)
    requires Run(states, ops) && i <= j < |states|
    ensures Acked(states[i]) <= Acked(states[j])
    decreases j - i
  {
    hide Does, Traced, Acked, Opened;
    if i < j {
      NeverLost(states, ops, i, j - 1);
      RunTraced(states, ops, j - 1);
      StepTraced(states[j - 1], ops[j - 1], states[j]);
    }
  }

  /** What the store shows, or shows when it opens again after a power failure, is in its log. */
  ghost predicate Shows(s: Store, e: Numbered) {
    || (IdOf(e) in Merged(s.mem) && Merged(s.mem)[IdOf(e)] == e)
    || exists n :: s.disk.synced <= n <= |s.disk.log| && OpenShows(Crashed(s.disk, n), e)
  }

  ghost predicate OpenShows(d: Disk, e: Numbered) {
    var res := OpenStore(d).1;
    res.Ok? && IdOf(e) in Merged(res.value) && Merged(res.value)[IdOf(e)] == e
  }

  lemma ShownIsLogged(s: Store, e: Numbered)
    requires Traced(s) && Shows(s, e)
    ensures e in RecordsOf(s.disk.log)
  {
    hide Traced, Merged, RecordsOf, OpenStore, Covered;
    MergedWithin(s);
    if !(IdOf(e) in Merged(s.mem) && Merged(s.mem)[IdOf(e)] == e) {
      var n :| s.disk.synced <= n <= |s.disk.log| && OpenShows(Crashed(s.disk, n), e);
      var t := Store(OpenStore(Crashed(s.disk, n)).1.value, OpenStore(Crashed(s.disk, n)).0);
      SafeDisk(s, DoCommit);
      CrashStep(s, DoCommit, s.disk, n, t);
      MergedWithin(t);
    }
  }

  lemma {:induction false} WrittenBetween(states: seq<Store>, ops: seq<Op>, i: nat, j: nat, e: Numbered)
    returns (k: nat)
    requires Run(states, ops) && i <= j < |states|
    requires e in RecordsOf(states[j].disk.log) && e !in RecordsOf(states[i].disk.log)
    ensures i <= k < j && WritesRecord(states[k], ops[k], e)
    decreases j - i
  {
    hide Does, Traced, Opened, RecordsOf, WritesRecord, Acked;
    if e in RecordsOf(states[j - 1].disk.log) {
      k := WrittenBetween(states, ops, i, j - 1, e);
    } else {
      k := j - 1;
      RunTraced(states, ops, k);
      StepTraced(states[k], ops[k], states[j]);
    }
  }

  /** A record that is not in the log, because a rollback, a dropped guard or a power failure discarded it, is
      shown by no later state, nor by any store that opens after a power failure in one, unless an operation
      in between wrote it anew. */
  lemma DiscardedStaysAway(states: seq<Store>, ops: seq<Op>, i: nat, j: nat, e: Numbered)
    requires Run(states, ops) && i <= j < |states|
    requires e !in RecordsOf(states[i].disk.log) && Shows(states[j], e)
    ensures exists k :: i <= k < j && WritesRecord(states[k], ops[k], e)
  {
    hide Run, Traced, RecordsOf, WritesRecord, Shows;
    RunTraced(states, ops, j);
    ShownIsLogged(states[j], e);
    var _ := WrittenBetween(states, ops, i, j, e);
  }

  /** A rollback, or a dropped guard, leaves exactly the acknowledged part of the log: what it discarded is gone. */
  lemma RollbackDiscards(states: seq<Store>, ops: seq<Op>, i: nat)
    requires Run(states, ops) && i < |ops|
    requires ops[i].DoRollback? || (ops[i].DoDropTx? && states[i].mem.inTx)
    ensures states[i + 1].disk.log == Acked(states[i])
    ensures forall e | e in RecordsOf(states[i].disk.log[Covered(states[i].disk.log)..]) ::
      e !in RecordsOf(states[i + 1].disk.log) && !Shows(states[i + 1], e)
  {
    hide Traced, RecordsOf, Covered, Shows, Rollback, LastBarrier;
    var s := states[i];
    RunTraced(states, ops, i);
    RunTraced(states, ops, i + 1);
    RollbackTraced(s);
    assert Does(s, ops[i], states[i + 1]);
    DroppedIsNotKept(s);
    forall e | e in RecordsOf(s.disk.log[Covered(s.disk.log)..])
      ensures e !in RecordsOf(states[i + 1].disk.log) && !Shows(states[i + 1], e)
    {
      if Shows(states[i + 1], e) { ShownIsLogged(states[i + 1], e); }
    }
  }

  lemma DroppedIsNotKept(s: Store)
    requires Traced(s)
    ensures forall e | e in RecordsOf(s.disk.log[Covered(s.disk.log)..]) :: e !in RecordsOf(Acked(s))
  {
    hide RecordsOf, Covered, TracedDisk, LastBarrier;
    TracedParts(s.disk);
    TailParts(s.disk, 0);
  }
}
