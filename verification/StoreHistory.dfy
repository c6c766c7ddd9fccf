/** Whole runs of the store: what every reopening shows, whatever is rolled back and sealed, and the view that
    clean runs keep. */
module StoreHistory {
  import opened Wrappers
  import opened Records
  import opened RecordLaws
  import opened Wal
  import opened WalLaws
  import opened Segments
  import opened Views
  import opened StoreModel
  import opened StoreLaws
  import opened StoreDurable
  import opened StoreRuns
  import opened StoreOps
  import opened StoreOrigins

  // --- single writes on the view ---

  /** One more record in the log: it shadows its id if live and removes it otherwise. */
  lemma ViewAppend(rs: seq<Numbered>, e: Numbered)
    ensures ViewOf(rs + [e]) == if e.1.lifecycle.Live? then ViewOf(rs)[IdOf(e) := e] else ViewOf(rs) - {IdOf(e)}
  {
    LatestAppend(rs, e);
    hide Latest;
  }

  /** An accepted upsert replaces its id in the merged view and touches no other. */
  lemma UpsertReplaces(s: Store, r: Record)
    requires Inv(s) && Fits(r) && Room(s, 2) && Upsert(s, r).1.Ok?
    ensures var e := (s.mem.nextSeq, r);
      Merged(Upsert(s, r).0.mem) ==
      if r.lifecycle.Live? then Merged(s.mem)[r.externalId := e] else Merged(s.mem) - {r.externalId}
  {
    hide Inv, Merged, ViewOf, RecordsOf, Upsert, Fits;
    UpsertInv(s, r);
    MergedIsView(s);
    MergedIsView(Upsert(s, r).0);
    ViewAppend(RecordsOf(s.disk.log), (s.mem.nextSeq, r));
  }

  /** A delete succeeds exactly on the ids shown, and removes the id. */
  lemma DeleteRemoves(s: Store, id: ExternalId)
    requires Inv(s) && Room(s, 2)
    ensures Delete(s, id).1.Ok? <==> id in Merged(s.mem)
    ensures Merged(Delete(s, id).0.mem) == Merged(s.mem) - {id}
  {
    hide Inv, Merged, ViewOf, RecordsOf, Delete;
    DeleteInv(s, id);
    MergedIsView(s);
    MergedIsView(Delete(s, id).0);
    ViewAppend(RecordsOf(s.disk.log), (s.mem.nextSeq, Tomb(s.mem, id)));
    assert id !in Merged(s.mem) ==> Merged(s.mem) - {id} == Merged(s.mem);
  }

  // --- single operations on the durable half ---

  /** What every state of a run keeps: a durable half that opens, and only records of the log in memory. */
  ghost predicate Reliable(s: Store) {
    Durable(s) && Openable(s.disk) && Traced(s)
  }

  predicate SameFiles(d: Disk, t: Disk) { t.manifest == d.manifest && t.segs == d.segs }

  lemma SameStart(d: Disk, t: Disk)
    requires SameFiles(d, t)
    ensures StartOf(d) == StartOf(t) && (Openable(d) <==> Openable(t))
  {
  }

  /** An accepted upsert settles the schema, writes its record and commits if it must. */
  lemma UpsertIs(s: Store, r: Record) returns (u: Store)
    requires Durable(s) && Fits(r) && Room(s, 2) && Upsert(s, r).1.Ok?
    ensures Durable(u) && Ready(u, r) && u.disk == s.disk && u.mem.nextSeq == s.mem.nextSeq
    ensures u.mem.autocommit == s.mem.autocommit && u.mem.inTx == s.mem.inTx
    ensures Upsert(s, r).0 == MaybeAutocommit(WriteLog(u, r))
  {
    hide Durable, Encodable, InBounds, Body;
    DurableParts(s);
    var kind := Some(KindOf(r.externalId));
    u := s.(mem := s.mem.(dim := |r.vector|, idKind := kind));
    NewFits(s.mem, r);
    SettleDurable(s, |r.vector|, kind, s.mem.autocommit, s.mem.inTx);
  }

  /** An accepted delete writes its tombstone and commits if it must. */
  lemma DeleteIs(s: Store, id: ExternalId)
    requires Durable(s) && Room(s, 2) && Delete(s, id).1.Ok?
    ensures Ready(s, Tomb(s.mem, id))
    ensures Delete(s, id).0 == MaybeAutocommit(WriteLog(s, Tomb(s.mem, id)))
  {
    hide SoundDisk, RecordsOf, Covered, LastBarrier, NextSeq, InBounds, Body, Homogeneous;
    assert id in s.mem.l0.Keys + s.mem.segLive.Keys;
    assert s.mem.dim <= 0xFFFF by { assert |Tomb(s.mem, id).vector| == s.mem.dim; }
    TombStorable(s.mem, id);
  }

  lemma WriteLaw(s: Store, r: Record)
    requires Durable(s) && Ready(s, r)
    ensures var t := MaybeAutocommit(WriteLog(s, r));
      && Durable(t) && SameFiles(s.disk, t.disk)
      && s.mem.nextSeq <= t.mem.nextSeq <= s.mem.nextSeq + 2
      && RecordsOf(t.disk.log) == RecordsOf(s.disk.log) + [(s.mem.nextSeq, r)]
  {
    hide Durable, RecordsOf, Storable;
    WriteDurable(s, r);
    WrittenRecord(s, r);
    CommitDurable(WriteLog(s, r));
  }

  /** An accepted upsert logs its record; a refused one leaves the store as it was. */
  lemma UpsertDurable(s: Store, r: Record)
    requires Durable(s) && Fits(r) && Room(s, 2)
    ensures var (t, res) := Upsert(s, r);
      && Durable(t) && SameFiles(s.disk, t.disk)
      && s.mem.nextSeq <= t.mem.nextSeq <= s.mem.nextSeq + 2
      && RecordsOf(t.disk.log) == RecordsOf(s.disk.log) + (if res.Ok? then [(s.mem.nextSeq, r)] else [])
  {
    hide Durable, RecordsOf, Fits, Encodable;
    if Upsert(s, r).1.Ok? {
      var u := UpsertIs(s, r);
      WriteLaw(u, r);
    } else {
      DurableParts(s);
      assert Upsert(s, r).0 == s;
      assert RecordsOf(s.disk.log) + [] == RecordsOf(s.disk.log);
    }
  }

  lemma {:induction false} BatchDurable(s: Store, rs: seq<Record>) returns (n: nat)
    requires Durable(s) && (forall r | r in rs :: Fits(r)) && Room(s, 2 * |rs|)
    ensures var (t, res) := UpsertAll(s, rs);
      && Durable(t) && Logged(s, t, rs, n) && (res.Ok? ==> n == |rs|)
      && SameFiles(s.disk, t.disk)
      && s.mem.nextSeq <= t.mem.nextSeq <= s.mem.nextSeq + 2 * |rs|
    decreases |rs|
  {
    hide Durable, Upsert, RecordsOf, Fits;
    if rs == [] {
      n := 0;
    } else {
      var k := |rs| - 1;
      n := BatchDurable(s, rs[..k]);
      var (u, res) := UpsertAll(s, rs[..k]);
      if res.Ok? {
        UpsertDurable(u, rs[k]);
        if Upsert(u, rs[k]).1.Ok? { n := n + 1; }
      }
    }
  }

  lemma DeleteDurable(s: Store, id: ExternalId)
    requires Durable(s) && Room(s, 2)
    ensures Durable(Delete(s, id).0) && SameFiles(s.disk, Delete(s, id).0.disk)
  {
    hide Durable, RecordsOf, IsLive, Encodable, Tomb, Ready;
    if Delete(s, id).1.Ok? {
      DeleteIs(s, id);
      WriteLaw(s, Tomb(s.mem, id));
    }
  }

  lemma DropDurable(s: Store)
    requires Durable(s)
    ensures Durable(DropTx(s)) && StartOf(DropTx(s).disk) == StartOf(s.disk)
    ensures Openable(DropTx(s).disk) <==> Openable(s.disk)
    ensures s.mem.inTx ==> DropTx(s).disk == Rollback(s).0.disk
  {
    hide Durable, Rollback, Covered, SoundDisk;
    if s.mem.inTx {
      RollbackDurable(s);
      var m := Rollback(s).0.mem;
      SettleDurable(Rollback(s).0, m.dim, m.idKind, m.autocommit, false);
    }
  }

  // --- what every operation makes opening start from ---

  /** What opening starts from after an operation: a checkpoint, or a power failure behind its publication,
      replaces it by what memory showed, or by nothing when that was too much for one segment. */
  ghost function NextStart(s: Store, op: Op, a: Start): Start {
    match op
    case DoCheckpoint(_, es) => CheckpointStart(s, es)
    case DoCrashIn(during, at, _) =>
      if during.DoCheckpoint? && at.manifest != s.disk.manifest then CheckpointStart(s, during.es) else a
    case _ => a
  }

  function CheckpointStart(s: Store, es: seq<Numbered>): Start {
    if |es| < 0x1_0000_0000 then Start(Merged(s.mem), s.mem.nextSeq) else Start(map[], 0)
  }

  /** Checkpoints come after a first write. */
  predicate AfterFirstWrite(s: Store, op: Op) {
    match op
    case DoCheckpoint(_, _) => s.mem.idKind.Some?
    case DoCrashIn(during, _, _) => during.DoCheckpoint? ==> s.mem.idKind.Some?
    case _ => true
  }

  /** A checkpoint keeps the durable half, and opening starts from what memory showed. */
  lemma CheckpointReliable(s: Store, name: Name, es: seq<Numbered>)
    requires Reliable(s) && s.mem.idKind.Some? && Room(s, 1) && FreshName(s.disk, name) && Lists(es, Merged(s.mem))
    ensures var (t, res) := Checkpoint(s, name, es);
      && Durable(t) && Openable(t.disk) && t.disk.log == CommitLog(s).disk.log
      && (res.Ok? <==> |es| < 0x1_0000_0000)
      && StartOf(t.disk) == CheckpointStart(s, es)
  {
    hide Durable, Traced, Merged, RecordsOf, Checkpoint, Lists, SealedFrom, Latest;
    MergedSeals(s, es);
    CheckpointSeals(s, name, es);
  }

  /** Every operation, any rollback and any checkpoint after a first write keep the durable half of the store, and
      move what opening starts from as stated. */
  lemma StepDurable(s: Store, op: Op, t: Store)
    requires Reliable(s) && Does(s, op, t) && AfterFirstWrite(s, op)
    ensures Reliable(t) && StartOf(t.disk) == NextStart(s, op, StartOf(s.disk))
  {
    hide Durable, Traced, SoundDisk, Upsert, UpsertAll, Delete, Checkpoint, Rollback, OpenStore, Lists, Merged, Inside,
         Fits, Covered, RecordsOf, Crashed, Ready, CheckpointStart, StartOf, DropTx;
    StepTraced(s, op, t);
    DurableParts(s);
    match op
    case DoUpsert(r) =>
      UpsertDurable(s, r);
      SameStart(s.disk, t.disk);
    case DoAdd(rs) =>
      var _ := BatchDurable(s, rs);
      AutocommitDurable(UpsertAll(s, rs).0);
      SameStart(s.disk, t.disk);
    case DoDelete(id) =>
      DeleteDurable(s, id);
      SameStart(s.disk, t.disk);
    case DoCommit =>
      CommitDurable(s);
      SameStart(s.disk, t.disk);
    case DoCheckpoint(name, es) => CheckpointReliable(s, name, es);
    case DoBegin => SettleDurable(s, s.mem.dim, s.mem.idKind, s.mem.autocommit, true);
    case DoCommitTx =>
      SettleDurable(s, s.mem.dim, s.mem.idKind, s.mem.autocommit, false);
      CommitDurable(s.(mem := s.mem.(inTx := false)));
      SameStart(s.disk, t.disk);
    case DoRollback => RollbackDurable(s);
    case DoDropTx => DropDurable(s);
    case DoReopen(autocommit) => ReopenDurable(s, autocommit, t);
    case DoCrash(n) => CrashReliable(s, s.disk, n, t);
    case DoCrashIn(during, at, n) =>
      InsideOk(s, during, at);
      CrashReliable(s, at, n, t);
  }

  lemma ReopenDurable(s: Store, autocommit: bool, t: Store)
    requires Reliable(s) && Does(s, DoReopen(autocommit), t)
    ensures Durable(t) && Openable(t.disk) && StartOf(t.disk) == StartOf(s.disk)
  {
    hide Durable, Traced, SoundDisk, TracedDisk, OpenStore, Covered, RecordsOf, Recalled, Merged, StartOf;
    DurableParts(s);
    OpenSound(s.disk);
    var m := OpenStore(s.disk).1.value;
    SettleDurable(Store(m, OpenStore(s.disk).0), m.dim, m.idKind, autocommit, m.inTx);
  }

  lemma CrashReliable(s: Store, at: Disk, n: nat, t: Store)
    requires SoundDisk(at) && Openable(at) && at.synced <= n <= |at.log| && Opened(Crashed(at, n), t)
    ensures Durable(t) && Openable(t.disk) && StartOf(t.disk) == StartOf(at)
  {
    hide Durable, SoundDisk, OpenStore, Covered, RecordsOf, Recalled, Merged, StartOf;
    CrashSound(at, n);
  }

  // --- inside an operation ---

  /** Inside an operation the directory is sound and opens again, from what the operation has published. */
  lemma InsideOk(s: Store, op: Op, at: Disk)
    requires Reliable(s) && Inside(s, op, at) && (op.DoCheckpoint? ==> s.mem.idKind.Some?)
    ensures SoundDisk(at) && Openable(at)
    ensures StartOf(at) ==
      if op.DoCheckpoint? && at.manifest != s.disk.manifest then CheckpointStart(s, op.es) else StartOf(s.disk)
    ensures !op.DoCheckpoint? && !op.DoReopen? ==> SameFiles(s.disk, at)
  {
    hide Durable, Traced, SoundDisk, Upsert, UpsertAll, Delete, Rollback, OpenStore, Lists, Merged, Fits, RecordsOf,
         DiskAt, OpenDiskAt, Covered, Rebuilds, Tomb, DropTx, Ready, StartOf, CheckpointStart;
    DurableParts(s);
    match op
    case DoUpsert(r) =>
      var u := UpsertIs(s, r);
      HangingWriteOk(u, r);
      SameHanging(s, u, r);
      SameStart(s.disk, at);
    case DoDelete(id) =>
      DeleteIs(s, id);
      HangingWriteOk(s, Tomb(s.mem, id));
      SameStart(s.disk, at);
    case DoAdd(rs) => InsideAddOk(s, rs, at);
    case DoCommit => HangingOk(s);
    case DoCommitTx => HangingOk(s);
    case DoCheckpoint(name, es) =>
      var stage: Stage :| (stage.Collecting? ==> name !in stage.removed) && at == DiskAt(s, name, es, stage);
      StageStart(s, name, es, stage);
    case DoRollback => RollbackAt(s);
    case DoDropTx => RollbackAt(s);
    case DoReopen(_) =>
      var stage: OpenStage :| (stage.LogRecovered? || Rebuilds(s.disk))
                            && at == OpenDiskAt(s.disk, OpenStore(s.disk).1.value, stage);
      OpenDiskSound(s.disk, stage);
  }

  lemma StageStart(s: Store, name: Name, es: seq<Numbered>, stage: Stage)
    requires Reliable(s) && s.mem.idKind.Some? && Room(s, 1) && FreshName(s.disk, name) && Lists(es, Merged(s.mem))
    requires stage.Collecting? ==> name !in stage.removed
    ensures var at := DiskAt(s, name, es, stage);
      && SoundDisk(at) && Openable(at) && (Publishes(stage) <==> at.manifest != s.disk.manifest)
      && StartOf(at) == if at.manifest != s.disk.manifest then CheckpointStart(s, es) else StartOf(s.disk)
  {
    hide Durable, Traced, SoundDisk, Merged, RecordsOf, Lists, SealedFrom, Latest, StartOf, FileBytes;
    MergedSeals(s, es);
    StageSound(s, name, es, stage);
    var m := SealedManifest(CommitLog(s), name);
    assert m.segments[0] == name;
  }

  lemma HangingOk(s: Store)
    requires Durable(s) && Openable(s.disk) && Room(s, 1)
    ensures SoundDisk(Hanging(s)) && Openable(Hanging(s)) && SameFiles(s.disk, Hanging(s))
    ensures StartOf(Hanging(s)) == StartOf(s.disk)
  {
    hide Durable, SoundDisk;
    CommitDurable(s);
    SameStart(s.disk, Hanging(s));
  }

  lemma HangingWriteOk(s: Store, r: Record)
    requires Durable(s) && Openable(s.disk) && Ready(s, r)
    ensures Durable(WriteLog(s, r)) && Openable(WriteLog(s, r).disk) && Room(WriteLog(s, r), 1)
    ensures HangingWrite(s, r) == Hanging(WriteLog(s, r)) && SameFiles(s.disk, HangingWrite(s, r))
    ensures SoundDisk(HangingWrite(s, r)) && Openable(HangingWrite(s, r))
  {
    hide Durable, SoundDisk, Storable;
    WriteDurable(s, r);
    HangingOk(WriteLog(s, r));
  }

  lemma InsideAddOk(s: Store, rs: seq<Record>, at: Disk)
    requires Reliable(s) && Allowed(s, DoAdd(rs)) && InsideAdd(s, rs, at)
    ensures SoundDisk(at) && Openable(at) && SameFiles(s.disk, at) && StartOf(at) == StartOf(s.disk)
  {
    hide Durable, Traced, SoundDisk, Upsert, UpsertAll, Fits, RecordsOf, Hanging, HangingWrite, Ready, StartOf;
    var k :| 0 <= k <= |rs| && var (u, res) := UpsertAll(s, rs[..k]);
      res.Ok? && if k < |rs| then Upsert(u, rs[k]).1.Ok? && at == HangingWrite(u, rs[k]) else at == Hanging(u);
    var u := UpsertAll(s, rs[..k]).0;
    var _ := BatchDurable(s, rs[..k]);
    SameStart(s.disk, u.disk);
    if k < |rs| {
      var v := UpsertIs(u, rs[k]);
      HangingWriteOk(v, rs[k]);
      SameHanging(u, v, rs[k]);
    } else {
      HangingOk(u);
    }
    SameStart(s.disk, at);
  }

  lemma SameHanging(u: Store, v: Store, r: Record)
    requires u.disk == v.disk && u.mem.nextSeq == v.mem.nextSeq
    ensures HangingWrite(u, r) == HangingWrite(v, r)
  {
  }

  lemma RollbackAt(s: Store)
    requires Reliable(s)
    ensures SoundDisk(Rollback(s).0.disk) && Openable(Rollback(s).0.disk) && SameFiles(s.disk, Rollback(s).0.disk)
    ensures SoundDisk(DropTx(s).disk) && Openable(DropTx(s).disk) && SameFiles(s.disk, DropTx(s).disk)
    ensures StartOf(Rollback(s).0.disk) == StartOf(s.disk) == StartOf(DropTx(s).disk)
  {
    hide Durable, Traced, SoundDisk, Covered, AllDecode;
    RollbackDurable(s);
    DropDurable(s);
    DurableParts(Rollback(s).0);
    DurableParts(DropTx(s));
  }

  // --- runs with any rollback and any checkpoint ---

  ghost predicate CheckpointedRun(states: seq<Store>, ops: seq<Op>) {
    Run(states, ops) && forall i | 0 <= i < |ops| :: AfterFirstWrite(states[i], ops[i])
  }

  /** What opening starts from at each state of a run: what memory showed at the last published checkpoint. */
  ghost function StartAt(states: seq<Store>, ops: seq<Op>, i: nat): Start
    requires |states| == |ops| + 1 && i <= |ops|
  {
    if i == 0 then Start(map[], 0) else NextStart(states[i - 1], ops[i - 1], StartAt(states, ops, i - 1))
  }

  lemma {:induction false} RunReliable(states: seq<Store>, ops: seq<Op>, i: nat)
    requires CheckpointedRun(states, ops) && i < |states|
    ensures Reliable(states[i]) && StartOf(states[i].disk) == StartAt(states, ops, i)
  {
    hide Reliable, Does, Opened, AfterFirstWrite, NextStart, StartOf;
    if i == 0 {
      FirstReliable(states[0]);
    } else {
      RunReliable(states, ops, i - 1);
      StepDurable(states[i - 1], ops[i - 1], states[i]);
    }
  }

  lemma FirstReliable(s: Store)
    requires Opened(Disk([], 0, None, map[]), s)
    ensures Inv(s) && Reliable(s) && StartOf(s.disk) == Start(map[], 0)
  {
    hide Inv, OpenStore, Durable, Traced, SegsOf;
    EmptyDisk();
    EmptyIs();
    InvDurable(s);
    InvTraced(s);
    NothingSealed();
    NoSegments(s.disk.manifest.value, s.disk.segs);
  }

  lemma CrashBetween(s: Store, n: nat)
    requires Durable(s) && Openable(s.disk) && s.disk.synced <= n <= |s.disk.log|
    ensures Reopens(Crashed(s.disk, n), RecalledIn(s.disk, Acked(s)))
  {
    hide Durable, SoundDisk, Merged, ViewOf, RecordsOf, OpenStore, Covered, Recalled, StartOf;
    DurableParts(s);
    CrashSound(s.disk, n);
    CoveredMono(s.disk.log, n);
  }

  /** Over every run, whatever it rolls back and whatever its checkpoints seal, a power failure in any state leaves a
      directory that opens, and shows what memory showed at the last published checkpoint, overlaid with the
      acknowledged writes since. */
  lemma ReopensOverRuns(states: seq<Store>, ops: seq<Op>, i: nat, n: nat)
    requires CheckpointedRun(states, ops) && i < |states|
    requires states[i].disk.synced <= n <= |states[i].disk.log|
    ensures Reopens(Crashed(states[i].disk, n), Recalled(StartAt(states, ops, i), RecordsOf(Acked(states[i]))))
  {
    hide CheckpointedRun, Durable, Traced, Openable, Reopens, Recalled, RecordsOf, Covered, StartOf;
    RunReliable(states, ops, i);
    CrashBetween(states[i], n);
  }

  /** The checkpoint seals the view of the log, and not less because of a rollback before it. */
  ghost predicate SealsView(s: Store, op: Op) {
    (op.DoCheckpoint? || (op.DoCrashIn? && op.during.DoCheckpoint?)) ==> Merged(s.mem) == ViewOf(RecordsOf(s.disk.log))
  }

  /** Sealed entries are the view of what they stand for. */
  ghost predicate Truthful(a: Start, s: Store) {
    a.upto <= LastBarrier(s.disk.log) && a.view == ViewOf(Upto(RecordsOf(s.disk.log), a.upto))
  }

  lemma {:induction false} StartTruthful(states: seq<Store>, ops: seq<Op>, i: nat)
    requires CheckpointedRun(states, ops) && i < |states|
    requires forall j | 0 <= j < i :: SealsView(states[j], ops[j])
    ensures Truthful(StartAt(states, ops, i), states[i])
  {
    hide Reliable, Does, Opened, AfterFirstWrite, NextStart, StartOf, SealsView, Truthful;
    if i == 0 {
      NothingTruthful(states[0]);
    } else {
      StartTruthful(states, ops, i - 1);
      RunReliable(states, ops, i - 1);
      StepDurable(states[i - 1], ops[i - 1], states[i]);
      StepTruthful(states[i - 1], ops[i - 1], states[i], StartAt(states, ops, i - 1));
    }
  }

  lemma NothingTruthful(s: Store)
    requires Opened(Disk([], 0, None, map[]), s)
    ensures Truthful(Start(map[], 0), s)
  {
    hide Inv, OpenStore, Covered, RecordsOf, Latest;
    FirstReliable(s);
    RecordsAscend(s);
    SoundRises(s.disk) by { DurableParts(s); }
    RecordsRise(s.disk.log);
    NothingBelowFirst(RecordsOf(s.disk.log));
    NothingSealed();
  }

  lemma StepTruthful(s: Store, op: Op, t: Store, a: Start)
    requires Reliable(s) && Reliable(t) && Does(s, op, t) && SealsView(s, op) && AfterFirstWrite(s, op)
    requires Truthful(a, s) && StartOf(s.disk) == a && StartOf(t.disk) == NextStart(s, op, a)
    ensures Truthful(NextStart(s, op, a), t)
  {
    hide Durable, Traced, SoundDisk, Covered, RecordsOf, Does, Upto, LastBarrier, Merged, ViewOf, StartOf;
    StepTraced(s, op, t);
    DurableParts(s);
    DurableParts(t);
    SoundRises(s.disk);
    SoundRises(t.disk);
    var b := NextStart(s, op, a);
    if b == a {
      AckedBarrier(s.disk.log, t.disk.log);
      UptoKept(s.disk.log, t.disk.log, a.upto) by { AckedIsPrefix(s, t); }
    } else {
      NewStart(s, op, t);
    }
  }

  lemma AckedIsPrefix(s: Store, t: Store)
    requires Acked(s) <= Acked(t)
    ensures s.disk.log[..Covered(s.disk.log)] <= t.disk.log
  {
    hide Covered;
  }

  lemma AckedBarrier(es: seq<Entry>, fs: seq<Entry>)
    requires Increasing(es) && Increasing(fs) && es[..Covered(es)] <= fs[..Covered(fs)]
    ensures LastBarrier(es) <= LastBarrier(fs)
  {
    hide Covered;
    if Covered(es) > 0 { assert fs[Covered(es) - 1] == es[Covered(es) - 1]; }
  }

  /** What a checkpoint of the log's view starts from stands for the whole log that it covered. */
  lemma NewStart(s: Store, op: Op, t: Store)
    requires Reliable(s) && Reliable(t) && Does(s, op, t) && SealsView(s, op) && AfterFirstWrite(s, op)
    requires StartOf(t.disk) == NextStart(s, op, StartOf(s.disk)) != StartOf(s.disk)
    ensures Truthful(NextStart(s, op, StartOf(s.disk)), t)
  {
    hide Durable, Traced, SoundDisk, Covered, RecordsOf, Upto, LastBarrier, Merged, ViewOf, StartOf, Lists, Checkpoint,
         OpenStore, DiskAt, FreshName;
    var es := if op.DoCheckpoint? then op.es else op.during.es;
    var log := CommitLog(s).disk.log;
    DurableParts(t);
    SoundRises(t.disk);
    CommitDurable(s);
    BarrierLast(s.disk.log, s.mem.nextSeq);
    assert t.disk.log == log by { PublishedLog(s, op, t); }
    if |es| < 0x1_0000_0000 {
      DurableParts(CommitLog(s));
      AllBelowBarrier(CommitLog(s).disk);
    } else {
      RecordsRise(log);
      NothingBelowFirst(RecordsOf(log));
      NothingSealed();
    }
  }

  /** Behind its publication a checkpoint's barrier is synced and stays. */
  lemma PublishedLog(s: Store, op: Op, t: Store)
    requires Reliable(s) && Does(s, op, t) && AfterFirstWrite(s, op)
    requires NextStart(s, op, StartOf(s.disk)) != StartOf(s.disk)
    ensures t.disk.log == CommitLog(s).disk.log
  {
    hide Durable, Traced, SoundDisk, RecordsOf, Merged, StartOf, Lists, OpenStore, FreshName, Covered,
         FileBytes, Latest;
    if op.DoCheckpoint? {
      CheckpointReliable(s, op.name, op.es);
    } else {
      var at := op.at;
      var stage: Stage :| (stage.Collecting? ==> op.during.name !in stage.removed)
                        && at == DiskAt(s, op.during.name, op.during.es, stage);
      StageStart(s, op.during.name, op.during.es, stage);
      assert at.log == CommitLog(s).disk.log && at.synced == |at.log|;
      CommitDurable(s);
      CrashSound(at, op.n);
      assert at.log[..op.n] == at.log && at.log[..|at.log|] == at.log;
    }
  }

  /** When every checkpoint sealed the view of the log, every reopening shows exactly the view of the acknowledged
      writes, whatever was rolled back. */
  lemma SealedRunReopens(states: seq<Store>, ops: seq<Op>, i: nat, n: nat)
    requires CheckpointedRun(states, ops) && i < |states|
    requires forall j | 0 <= j < i :: SealsView(states[j], ops[j])
    requires states[i].disk.synced <= n <= |states[i].disk.log|
    ensures Reopens(Crashed(states[i].disk, n), ViewOf(RecordsOf(Acked(states[i]))))
  {
    hide Does, AfterFirstWrite, Opened, Durable, Traced, Openable, Reopens, Recalled, RecordsOf, Covered, StartOf,
         Upto, ViewOf, SoundDisk, LastBarrier, SealsView, StartAt;
    RunReliable(states, ops, i);
    StartTruthful(states, ops, i);
    ReopensOverRuns(states, ops, i, n);
    DurableParts(states[i]);
    SoundRises(states[i].disk);
    UptoKept(states[i].disk.log, Acked(states[i]), StartAt(states, ops, i).upto);
    RecordsRise(Acked(states[i]));
    TruthfulRecalls(StartAt(states, ops, i), RecordsOf(Acked(states[i])));
  }

  lemma TruthfulRecalls(a: Start, rs: seq<Numbered>)
    requires Ascending(rs) && a.view == ViewOf(Upto(rs, a.upto))
    ensures Recalled(a, rs) == ViewOf(rs)
  {
    hide Upto, After, Latest, Recalled;
    RecallsViewIff(a, rs);
  }

  // --- checkpoints and rollbacks ---

  /** A checkpoint of any store of a run reopens to what memory showed, or, when that was too much for one segment,
      to the view of the log. */
  lemma CheckpointReopens(s: Store, name: Name, es: seq<Numbered>)
    requires Reliable(s) && s.mem.idKind.Some? && Room(s, 1) && FreshName(s.disk, name) && Lists(es, Merged(s.mem))
    ensures var (t, res) := Checkpoint(s, name, es);
      && (res.Ok? <==> |es| < 0x1_0000_0000)
      && Reopens(t.disk, if res.Ok? then Merged(s.mem) else ViewOf(RecordsOf(s.disk.log)))
  {
    hide Durable, Traced, SoundDisk, MergeL0, RecordsOf, Checkpoint, Lists, OpenStore, Covered, LastBarrier,
         Upto, After, StartOf, FreshName;
    var t := Checkpoint(s, name, es).0;
    CheckpointReliable(s, name, es);
    CommitDurable(s);
    DurableParts(CommitLog(s));
    AllBelowBarrier(CommitLog(s).disk);
    DurableParts(t);
    OpenSound(t.disk);
    assert t.disk.log[..|t.disk.log|] == t.disk.log;
    if |es| < 0x1_0000_0000 {
      ShownStays(Merged(s.mem));
    } else {
      SoundRises(t.disk);
      RecallAll(t.disk.log);
    }
  }

  lemma ShownStays(v: View)
    ensures Latest([]) == map[] && v + map[] == v && LiveOnly(LiveOnly(v)) == LiveOnly(v)
  {
  }

  /** Checkpoint after a rollback, then reopen: the acknowledged view is there if and only if no discarded write had
      displaced an acknowledged version from L0, or the checkpoint was too large for its segment to open. */
  lemma RollbackThenCheckpointIff(s: Store, name: Name, es: seq<Numbered>)
    requires Good(s) && s.mem.idKind.Some? && Room(s, 1) && FreshName(s.disk, name)
    requires Lists(es, Merged(Rollback(s).0.mem))
    ensures Reopens(Checkpoint(Rollback(s).0, name, es).0.disk, ViewOf(RecordsOf(Acked(s))))
       <==> Harmless(s) || |es| >= 0x1_0000_0000
  {
    hide Inv, Durable, Traced, SoundDisk, DiskInv, Merged, ViewOf, RecordsOf, Checkpoint, Rollback, RolledBack, Lists,
         OpenStore, Covered, Harmless, Openable;
    var t := Rollback(s).0;
    GoodReliable(s);
    RollbackLaw(s);
    RollbackDurable(s);
    RollbackTraced(s);
    RollbackAt(s);
    CheckpointReopens(t, name, es);
  }

  lemma GoodReliable(s: Store)
    requires Good(s)
    ensures Reliable(s) && DiskInv(s.disk)
    ensures RecalledIn(s.disk, s.disk.log) == ViewOf(RecordsOf(s.disk.log))
    ensures RecalledIn(s.disk, Acked(s)) == ViewOf(RecordsOf(Acked(s)))
  {
    hide Inv, Durable, Traced, SoundDisk, DiskInv, ViewOf, RecordsOf, Covered, Openable, Recalled, StartOf;
    InvDurable(s);
    InvTraced(s);
    InvParts(s);
    SoundRises(s.disk) by { DurableParts(s); }
    TruthRecalls(s.disk, s.disk.log);
    TruthRecalls(s.disk, Acked(s));
  }

  // --- clean runs ---

  ghost predicate Good(s: Store) {
    Inv(s) && Openable(s.disk)
  }

  /** Rollbacks are harmless, and checkpoints come after a first write and have a count that fits. */
  ghost predicate Clean(s: Store, op: Op) {
    match op
    case DoRollback => Harmless(s)
    case DoDropTx => s.mem.inTx ==> Harmless(s)
    case DoCheckpoint(_, es) => s.mem.idKind.Some? && |es| < 0x1_0000_0000
    case DoCrashIn(during, _, _) => during.DoCheckpoint? ==> s.mem.idKind.Some? && |during.es| < 0x1_0000_0000
    case _ => true
  }

  ghost predicate CleanRun(states: seq<Store>, ops: seq<Op>) {
    Run(states, ops) && forall i | 0 <= i < |ops| :: Clean(states[i], ops[i])
  }

  lemma FlagsInv(s: Store, autocommit: bool, inTx: bool)
    requires Inv(s)
    ensures Inv(s.(mem := s.mem.(autocommit := autocommit, inTx := inTx)))
  {
    hide DiskInv, Flat, Lists, ViewOf, Latest, SegLiveOf, Upto, After, RecordsOf, LastBarrier, Covered, NextSeq,
         SchemaOk;
  }

  /** A directory with a truthful one's manifest and segments, over a log that keeps its acknowledged part,
      is truthful. */
  lemma TruthStays(d: Disk, at: Disk)
    requires DiskInv(d) && SoundDisk(at) && SameFiles(d, at) && d.log[..Covered(d.log)] <= at.log
    ensures DiskInv(at)
  {
    hide RecordsOf, Covered, LastBarrier, Flat, Lists, ViewOf, SegsOf, SegsOpen, SealedFrom, Upto, Written;
    SoundRises(d);
    SoundRises(at);
    if d.manifest.Some? {
      ManifestUsable(d);
      UptoKept(d.log, at.log, d.manifest.value.checkpointSeq);
    }
  }

  /** Inside an operation of a clean run the directory tells the truth. */
  lemma InsideTruth(s: Store, op: Op, at: Disk)
    requires Good(s) && Inside(s, op, at)
    requires op.DoCheckpoint? ==> s.mem.idKind.Some? && |op.es| < 0x1_0000_0000
    ensures DiskInv(at) && Openable(at)
  {
    hide Inv, Durable, Traced, TracedDisk, SoundDisk, DiskInv, Lists, FreshName, RecordsOf, OpenStore, Rollback,
         Covered, DiskAt, OpenDiskAt, Hanging, HangingWrite, InsideAdd, Upsert, Delete, DropTx, Merged, StartOf,
         CheckpointStart;
    GoodReliable(s);
    InvParts(s);
    InsideOk(s, op, at);
    InsideSafe(s, op, at);
    match op
    case DoCheckpoint(name, es) =>
      var stage: Stage :| (stage.Collecting? ==> name !in stage.removed) && at == DiskAt(s, name, es, stage);
      StageTruth(s, name, es, stage);
    case DoReopen(_) =>
      var stage: OpenStage :| (stage.LogRecovered? || Rebuilds(s.disk))
                            && at == OpenDiskAt(s.disk, OpenStore(s.disk).1.value, stage);
      RebuildTruth(s.disk, stage);
    case _ => TruthStays(s.disk, at);
  }

  lemma StageTruth(s: Store, name: Name, es: seq<Numbered>, stage: Stage)
    requires Good(s) && Room(s, 1) && FreshName(s.disk, name) && Lists(es, Merged(s.mem))
    requires |es| < 0x1_0000_0000 && (stage.Collecting? ==> name !in stage.removed)
    ensures DiskInv(DiskAt(s, name, es, stage))
  {
    hide Inv, Durable, SoundDisk, DiskInv, RecordsOf, Covered, Merged, FileBytes, Lists, WriteSeg;
    InvParts(s);
    match stage
    case NotBegun =>
    case BarrierWritten => AppendTruth(s);
    case BarrierSynced => CommitTruth(s);
    case SegmentWritten =>
      CommitTruth(s);
      WriteSegDisk(CommitLog(s).disk, name, es);
    case ManifestPublished =>
      CollectedTruth(s, name, es, {});
      CollectingNothing(s, name, es);
    case Collecting(removed) => CollectedTruth(s, name, es, removed);
  }

  lemma CollectingNothing(s: Store, name: Name, es: seq<Numbered>)
    ensures DiskAt(s, name, es, Collecting({})) == DiskAt(s, name, es, ManifestPublished)
  {
    hide FileBytes;
    var d := Published(CommitLog(s), name, es);
    assert d.segs - {} == d.segs;
  }

  lemma AppendTruth(s: Store)
    requires Inv(s) && Room(s, 1)
    ensures DiskInv(s.disk.(log := CommitLog(s).disk.log))
  {
    hide Lists, Covered, LastBarrier, RecordsOf, DiskInv;
    AppendDisk(s.disk, Barrier(s.mem.nextSeq));
  }

  lemma CommitTruth(s: Store)
    requires Inv(s) && Room(s, 1)
    ensures DiskInv(CommitLog(s).disk)
  {
    hide Inv, DiskInv;
    CommitLogInv(s);
    InvParts(CommitLog(s));
  }

  lemma RebuildTruth(d: Disk, stage: OpenStage)
    requires DiskInv(d) && Covered(d.log) <= d.synced && Openable(d) && (stage.LogRecovered? || Rebuilds(d))
    ensures OpenStore(d).1.Ok? && DiskInv(OpenDiskAt(d, OpenStore(d).1.value, stage))
  {
    hide RecordsOf, DiskInv, Covered, OpenStore, SoundDisk, KnownIds, LastBarrier, NextSeq, Recalled, StartOf, Rebuilds;
    assert SoundDisk(d) by { TruthIsSound(d); }
    OpenSound(d);
    OpenWritten(d);
    KeptLogInv(d);
    KeptLogSound(d);
    if d.manifest.Some? { TruthIsSupported(d); }
    if !stage.LogRecovered? {
      RebuiltDisk(KeptLog(d), OpenStore(d).1.value);
      if stage.Sweeping? { RemoveSegsDisk(Publish(KeptLog(d), HonestManifest(OpenStore(d).1.value)), stage.removed); }
    }
  }

  lemma TruthIsSound(d: Disk)
    requires DiskInv(d)
    ensures SoundDisk(d)
  {
  }

  lemma StepGood(s: Store, op: Op, t: Store)
    requires Good(s) && Does(s, op, t) && Clean(s, op)
    ensures Good(t)
  {
    hide Inv, Upsert, UpsertAll, Delete, Checkpoint, Rollback, OpenStore, Harmless, Lists, Merged, Inside,
         Fits, Covered, RecordsOf, DiskInv, Crashed, InsideAdd, ViewOf;
    InvParts(s);
    match op
    case DoUpsert(r) => UpsertInv(s, r);
    case DoAdd(rs) => var _ := AddInv(s, rs);
    case DoDelete(id) => DeleteInv(s, id);
    case DoCommit => CommitLogInv(s);
    case DoCheckpoint(name, es) => CheckpointLaw(s, name, es);
    case DoBegin => FlagsInv(s, s.mem.autocommit, true);
    case DoCommitTx =>
      FlagsInv(s, s.mem.autocommit, false);
      CommitLogInv(s.(mem := s.mem.(inTx := false)));
    case DoRollback => RollbackGood(s);
    case DoDropTx =>
      if s.mem.inTx {
        RollbackGood(s);
        FlagsInv(Rollback(s).0, Rollback(s).0.mem.autocommit, false);
      }
    case DoReopen(autocommit) =>
      OpenLaw(s.disk);
      FlagsInv(Store(OpenStore(s.disk).1.value, OpenStore(s.disk).0), autocommit, OpenStore(s.disk).1.value.inTx);
    case DoCrash(n) => CrashOpens(s.disk, n);
    case DoCrashIn(during, at, n) =>
      InsideTruth(s, during, at);
      CrashOpens(at, n);
  }

  lemma RollbackGood(s: Store)
    requires Good(s) && Harmless(s)
    ensures Good(Rollback(s).0)
  {
    hide Inv, Harmless, DiskInv, Rollback, RolledBack;
    InvParts(s);
    RollbackLaw(s);
    RollbackDisk(s);
  }

  lemma {:induction false} RunGood(states: seq<Store>, ops: seq<Op>, i: nat)
    requires CleanRun(states, ops) && i < |states|
    ensures Good(states[i])
  {
    hide Good, Does, Opened, Clean;
    if i == 0 {
      FirstGood(states[0]);
    } else {
      RunGood(states, ops, i - 1);
      StepGood(states[i - 1], ops[i - 1], states[i]);
    }
  }

  lemma FirstGood(s: Store)
    requires Opened(Disk([], 0, None, map[]), s)
    ensures Good(s)
  {
    hide Inv, OpenStore;
    EmptyDisk();
  }

  /** Over every clean run the merged view is the last-write-wins live view of the whole record log, and a
      crash in any state reopens to that view of the acknowledged part of the log. */
  lemma MergedViewOverRuns(states: seq<Store>, ops: seq<Op>, i: nat, n: nat)
    requires CleanRun(states, ops) && i < |states|
    requires states[i].disk.synced <= n <= |states[i].disk.log|
    ensures Merged(states[i].mem) == ViewOf(RecordsOf(states[i].disk.log))
    ensures Reopens(Crashed(states[i].disk, n), ViewOf(RecordsOf(Acked(states[i]))))
  {
    hide CleanRun, Inv, Durable, Traced, Merged, ViewOf, RecordsOf, OpenStore, Covered, Reopens, DiskInv, Recalled,
         StartOf;
    RunGood(states, ops, i);
    MergedIsView(states[i]);
    GoodReliable(states[i]);
    CrashBetween(states[i], n);
  }

  // --- power failures inside an operation ---

  /** Between the writing of a commit's barrier and the end of its sync, all of the log is recalled if the
      barrier survived, and what was acknowledged before if it did not; after the sync, all of it. */
  lemma CommitCrash(s: Store, n: nat)
    requires Durable(s) && Openable(s.disk) && Room(s, 1) && s.disk.synced <= n <= |s.disk.log| + 1
    ensures Reopens(Crashed(Hanging(s), n),
                    RecalledIn(s.disk, if n == |s.disk.log| + 1 then s.disk.log else Acked(s)))
    ensures Acked(CommitLog(s)) == CommitLog(s).disk.log && CommitLog(s).disk.synced == |CommitLog(s).disk.log|
    ensures RecordsOf(Acked(CommitLog(s))) == RecordsOf(s.disk.log)
  {
    hide Durable, SoundDisk, Merged, RecordsOf, OpenStore, Covered, Openable, Recalled, StartOf;
    var log, at := s.disk.log, Hanging(s);
    DurableParts(s);
    HangingOk(s);
    CrashSound(at, n);
    CommitDurable(s);
    assert CommitLog(s).disk.log == at.log;
    assert at.log[..|log| + 1] == at.log;
    if n <= |log| {
      assert at.log[..n] == log[..n];
      CoveredMono(log, n);
      assert at.log[..Covered(log)] == log[..Covered(log)];
    }
  }

  /** Power fails anywhere inside a checkpoint, keeping any number of unsynced log entries. Before the manifest is
      published the store recalls the whole log or the acknowledged part, as the barrier survived or not;
      behind it the store shows what memory showed. */
  lemma CheckpointCrash(s: Store, name: Name, es: seq<Numbered>, stage: Stage, n: nat)
    requires Reliable(s) && s.mem.idKind.Some? && Room(s, 1) && FreshName(s.disk, name) && Lists(es, Merged(s.mem))
    requires |es| < 0x1_0000_0000 && (stage.Collecting? ==> name !in stage.removed)
    requires DiskAt(s, name, es, stage).synced <= n <= |DiskAt(s, name, es, stage).log|
    ensures Reopens(Crashed(DiskAt(s, name, es, stage), n),
      if Publishes(stage) then Merged(s.mem)
      else RecalledIn(s.disk, if n == |s.disk.log| + 1 then s.disk.log else Acked(s)))
  {
    hide Durable, Traced, SoundDisk, MergeL0, RecordsOf, Lists, OpenStore, Covered, LastBarrier, Upto, After, StartOf,
         FreshName, FileBytes, Openable;
    var at, log, c := DiskAt(s, name, es, stage), s.disk.log, CommitLog(s).disk.log;
    StageStart(s, name, es, stage);
    CommitDurable(s);
    DurableParts(s);
    DurableParts(CommitLog(s));
    AllBelowBarrier(CommitLog(s).disk);
    CrashSound(at, n);
    assert c[..|c|] == c;
    if Publishes(stage) {
      ShownStays(Merged(s.mem));
    } else if n <= |log| {
      assert at.log[..n] == log[..n];
      CoveredMono(log, n);
      assert at.log[..Covered(log)] == log[..Covered(log)];
    }
  }

  /** In a truthful store every one of those is the view of the log, or of its acknowledged part. */
  lemma CheckpointCrashSafe(s: Store, name: Name, es: seq<Numbered>, stage: Stage, n: nat)
    requires Good(s) && s.mem.idKind.Some? && Room(s, 1) && FreshName(s.disk, name) && Lists(es, Merged(s.mem))
    requires |es| < 0x1_0000_0000 && (stage.Collecting? ==> name !in stage.removed)
    requires DiskAt(s, name, es, stage).synced <= n <= |DiskAt(s, name, es, stage).log|
    ensures Reopens(Crashed(DiskAt(s, name, es, stage), n),
                    ViewOf(RecordsOf(if n == |s.disk.log| + 1 then s.disk.log else Acked(s))))
  {
    hide Inv, Durable, Traced, Merged, RecordsOf, Lists, Recalled, StartOf, FreshName, FileBytes, ViewOf, Reopens,
         Covered, DiskInv;
    GoodReliable(s);
    MergedIsView(s);
    CheckpointCrash(s, name, es, stage, n);
  }

  /** What shows after a failure in a write that commits by itself: its record if its barrier survived. */
  ghost predicate WriteLands(s: Store, r: Record, n: nat)
    requires n <= |s.disk.log| + 2
  {
    Reopens(Crashed(HangingWrite(s, r), n),
            if n == |s.disk.log| + 2 then Recalled(StartOf(s.disk), RecordsOf(s.disk.log) + [(s.mem.nextSeq, r)])
            else RecalledIn(s.disk, Acked(s)))
  }

  /** The record is acknowledged, with everything before it. */
  ghost predicate Acknowledges(s: Store, r: Record, t: Store) {
    && Acked(t) == t.disk.log && t.disk.synced == |t.disk.log|
    && RecordsOf(Acked(t)) == RecordsOf(s.disk.log) + [(s.mem.nextSeq, r)]
  }

  lemma WriteCrash(s: Store, r: Record, n: nat)
    requires Durable(s) && Openable(s.disk) && Ready(s, r) && Commits(s) && s.disk.synced <= n <= |s.disk.log| + 2
    ensures WriteLands(s, r, n)
    ensures Acknowledges(s, r, MaybeAutocommit(WriteLog(s, r)))
  {
    hide Durable, RecordsOf, Covered, Openable, Storable, HangingWrite, Reopens, Recalled, StartOf;
    var w := WriteLog(s, r);
    HangingWriteOk(s, r);
    WrittenRecord(s, r);
    CommitCrash(w, n);
    SameStart(s.disk, w.disk);
    CoveredAppend(s.disk.log, Write(s.mem.nextSeq, r));
    assert Acked(w) == Acked(s) by { CoveredIsWithin(s.disk.log, w.disk.log); }
  }

  /** Power fails inside an autocommitted upsert: the record is there if and only if its barrier survived.
      When the upsert returns, it is acknowledged. */
  lemma UpsertCrash(s: Store, r: Record, n: nat)
    requires Durable(s) && Openable(s.disk) && Fits(r) && Room(s, 2) && Commits(s) && Upsert(s, r).1.Ok?
    requires s.disk.synced <= n <= |s.disk.log| + 2
    ensures WriteLands(s, r, n) && Acknowledges(s, r, Upsert(s, r).0)
  {
    hide Durable, RecordsOf, Covered, Upsert, Fits, Ready, HangingWrite, Reopens, Recalled, StartOf;
    var u := UpsertIs(s, r);
    SameHanging(s, u, r);
    WriteCrash(u, r, n);
  }

  /** Power fails inside an autocommitted delete: the id is gone if and only if the barrier survived. */
  lemma DeleteCrash(s: Store, id: ExternalId, n: nat)
    requires Durable(s) && Openable(s.disk) && Room(s, 2) && Commits(s) && Delete(s, id).1.Ok?
    requires s.disk.synced <= n <= |s.disk.log| + 2
    ensures Reopens(Crashed(HangingWrite(s, Tomb(s.mem, id)), n),
      if n == |s.disk.log| + 2 then RecalledIn(s.disk, s.disk.log) - {id} else RecalledIn(s.disk, Acked(s)))
    ensures Acknowledges(s, Tomb(s.mem, id), Delete(s, id).0)
  {
    hide Durable, RecordsOf, Covered, Delete, Ready, HangingWrite, Reopens, Recalled, StartOf, SoundDisk;
    DeleteIs(s, id);
    WriteCrash(s, Tomb(s.mem, id), n);
    StartBelow(s);
    RecallAppend(StartOf(s.disk), RecordsOf(s.disk.log), (s.mem.nextSeq, Tomb(s.mem, id)));
  }

  lemma StartBelow(s: Store)
    requires Durable(s)
    ensures StartOf(s.disk).upto < s.mem.nextSeq
  {
    hide RecordsOf, Covered, SegsOpen, SegsOf, LastBarrier, Latest, SealedFrom;
    DurableParts(s);
    if s.disk.manifest.Some? && SegsOpen(s.disk.manifest.value, s.disk.segs) { ManifestUsable(s.disk); }
  }

  lemma {:induction false} FlagsStay(s: Store, rs: seq<Record>)
    ensures var t := UpsertAll(s, rs).0; t.mem.autocommit == s.mem.autocommit && t.mem.inTx == s.mem.inTx
    decreases |rs|
  {
    hide Encodable;
    if rs != [] { FlagsStay(s, rs[..|rs| - 1]); }
  }

  /** Power fails inside an autocommitted batch, at its upsert k: the first k records are acknowledged already,
      the next one is there if and only if its barrier survived, and none of the others is. */
  lemma AddCrash(s: Store, rs: seq<Record>, k: nat, n: nat)
    requires Durable(s) && Openable(s.disk) && Allowed(s, DoAdd(rs)) && Commits(s) && k < |rs|
    requires UpsertAll(s, rs[..k + 1]).1.Ok?
    requires var d := UpsertAll(s, rs[..k]).0.disk; d.synced <= n <= |d.log| + 2
    ensures var u := UpsertAll(s, rs[..k]).0;
      && Logged(s, u, rs, k) && (k > 0 ==> Acked(u) == u.disk.log) && WriteLands(u, rs[k], n)
      && StartOf(u.disk) == StartOf(s.disk)
  {
    hide Durable, RecordsOf, Covered, Upsert, Fits, WriteLands, Openable, StartOf;
    assert rs[..k + 1][..k] == rs[..k];
    var u := UpsertAll(s, rs[..k]).0;
    BatchReliable(s, rs, k);
    if k > 0 {
      assert rs[..k][..k - 1] == rs[..k - 1];
      BatchReliable(s, rs, k - 1);
      var w := UpsertAll(s, rs[..k - 1]).0;
      DurableParts(w);
      UpsertCrash(w, rs[k - 1], w.disk.synced);
    }
    UpsertCrash(u, rs[k], n);
  }

  lemma BatchReliable(s: Store, rs: seq<Record>, k: nat)
    requires Durable(s) && Openable(s.disk) && Allowed(s, DoAdd(rs)) && Commits(s) && k < |rs|
    requires UpsertAll(s, rs[..k]).1.Ok?
    ensures var u := UpsertAll(s, rs[..k]).0;
      && Durable(u) && Openable(u.disk) && StartOf(u.disk) == StartOf(s.disk)
      && Commits(u) && Room(u, 2) && Logged(s, u, rs, k) && Fits(rs[k])
  {
    hide Durable, RecordsOf, UpsertAll, Fits;
    FlagsStay(s, rs[..k]);
    var n := BatchDurable(s, rs[..k]);
    SameStart(s.disk, UpsertAll(s, rs[..k]).0.disk);
    assert forall i | 0 <= i < k :: rs[..k][i] == rs[i];
  }

  // --- transactions ---

  predicate WriteOp(op: Op) {
    op.DoUpsert? || op.DoDelete? || op.DoAdd?
  }

  /** Upserts, adds and deletes that do not commit by themselves, inside a guard or without autocommit. */
  ghost predicate TxRun(states: seq<Store>, ops: seq<Op>) {
    && |states| == |ops| + 1
    && Reliable(states[0]) && !Commits(states[0])
    && forall i | 0 <= i < |ops| :: WriteOp(ops[i]) && Does(states[i], ops[i], states[i + 1])
  }

  /** Nothing is acknowledged. */
  ghost predicate Defers(s: Store, t: Store) {
    && t.mem.inTx == s.mem.inTx && t.mem.autocommit == s.mem.autocommit
    && Acked(t) == Acked(s) && t.disk.synced == s.disk.synced
    && s.disk.log <= t.disk.log && SameFiles(s.disk, t.disk)
  }

  lemma DeferWrite(s: Store, u: Store, r: Record)
    requires !Commits(s) && u.disk == s.disk && u.mem.inTx == s.mem.inTx && u.mem.autocommit == s.mem.autocommit
    ensures Defers(s, MaybeAutocommit(WriteLog(u, r)))
  {
    CoveredAppend(s.disk.log, Write(u.mem.nextSeq, r));
    hide Covered;
  }

  lemma DeferUpsert(s: Store, r: Record)
    requires !Commits(s)
    ensures Defers(s, Upsert(s, r).0)
  {
    hide Covered, Encodable;
    if Upsert(s, r).1.Ok? {
      DeferWrite(s, s.(mem := s.mem.(dim := |r.vector|, idKind := Some(KindOf(r.externalId)))), r);
    }
  }

  lemma {:induction false} DeferAll(s: Store, rs: seq<Record>)
    requires !Commits(s)
    ensures Defers(s, UpsertAll(s, rs).0)
    decreases |rs|
  {
    hide Acked, Upsert;
    if rs != [] {
      DeferAll(s, rs[..|rs| - 1]);
      DeferUpsert(UpsertAll(s, rs[..|rs| - 1]).0, rs[|rs| - 1]);
    }
  }

  lemma DeferOp(s: Store, op: Op, t: Store)
    requires !Commits(s) && WriteOp(op) && Does(s, op, t)
    ensures Defers(s, t)
  {
    hide Acked, Upsert, UpsertAll, IsLive, Encodable, Fits, Room, Inside;
    match op
    case DoUpsert(r) => DeferUpsert(s, r);
    case DoAdd(rs) => DeferAll(s, rs);
    case DoDelete(id) => DeferWrite(s, s, Tomb(s.mem, id));
  }

  lemma {:induction false} TxDefers(states: seq<Store>, ops: seq<Op>, i: nat)
    requires TxRun(states, ops) && i < |states|
    ensures Reliable(states[i]) && Defers(states[0], states[i])
  {
    hide Does, Acked, Reliable;
    if i > 0 {
      TxDefers(states, ops, i - 1);
      StepDurable(states[i - 1], ops[i - 1], states[i]);
      DeferOp(states[i - 1], ops[i - 1], states[i]);
    }
  }

  /** All or none, for the writes of a guard and for those of a store without autocommit: power failing anywhere
      among them, a rollback, dropping the guard, or power failing inside the commit with the barrier lost
      brings back what was acknowledged before them, whatever unsynced entries survive; with the barrier, and
      after the commit, every one of them is there. */
  lemma TransactionAllOrNone(states: seq<Store>, ops: seq<Op>, i: nat, n: nat)
    requires TxRun(states, ops) && i < |states| && Room(states[i], 1)
    requires states[i].disk.synced <= n <= |states[i].disk.log| + 1
    ensures
      var d, s := states[0].disk, states[i];
      var none, all := RecalledIn(d, Acked(states[0])), RecalledIn(d, s.disk.log);
      && (n <= |s.disk.log| ==> Reopens(Crashed(s.disk, n), none))
      && Reopens(Crashed(Hanging(s), n), if n == |s.disk.log| + 1 then all else none)
      && Reopens(CommitTx(s).disk, all)
      && Rollback(s).0.disk.log == Acked(states[0]) && Reopens(Rollback(s).0.disk, none)
      && (s.mem.inTx ==> DropTx(s).disk == Rollback(s).0.disk)
      && (DiskInv(d) ==> none == ViewOf(RecordsOf(Acked(states[0]))) && all == ViewOf(RecordsOf(s.disk.log)))
  {
    hide Durable, Traced, Openable, TxRun, ViewOf, RecordsOf, Defers, Covered, Rollback, CommitTx, Reopens,
         Recalled, StartOf, SoundDisk, DiskInv;
    var s := states[i];
    TxDefers(states, ops, 0);
    TxDefers(states, ops, i);
    assert Acked(s) == Acked(states[0]) && states[0].disk.log <= s.disk.log
        && SameFiles(states[0].disk, s.disk) by { DefersMeans(states[0], s); }
    SameStart(states[0].disk, s.disk);
    if n <= |s.disk.log| { CrashBetween(s, n); }
    CommitCrash(s, n);
    CommitReopens(s);
    RollbackReopens(s);
    if DiskInv(states[0].disk) {
      SoundRises(states[0].disk) by { DurableParts(states[0]); }
      SoundRises(s.disk) by { DurableParts(s); }
      TruthRecalls(states[0].disk, Acked(states[0]));
      TruthRecalls(states[0].disk, s.disk.log);
    }
  }

  lemma DefersMeans(s: Store, t: Store)
    requires Defers(s, t)
    ensures Acked(t) == Acked(s) && s.disk.log <= t.disk.log && SameFiles(s.disk, t.disk)
  {
  }

  lemma CommitReopens(s: Store)
    requires Durable(s) && Openable(s.disk) && Room(s, 1)
    ensures Reopens(CommitTx(s).disk, RecalledIn(s.disk, s.disk.log))
  {
    hide Durable, SoundDisk, Merged, RecordsOf, OpenStore, Covered, Recalled, StartOf;
    var d := CommitLog(s).disk;
    CommitDurable(s);
    DurableParts(CommitLog(s));
    SameStart(s.disk, d);
    OpenSound(d);
    assert d.log[..|d.log|] == d.log;
  }

  lemma RollbackReopens(s: Store)
    requires Durable(s) && Openable(s.disk)
    ensures Rollback(s).0.disk.log == Acked(s) && Reopens(Rollback(s).0.disk, RecalledIn(s.disk, Acked(s)))
  {
    hide Durable, SoundDisk, Merged, RecordsOf, OpenStore, Covered, Rollback, Recalled, StartOf;
    var d := Rollback(s).0.disk;
    RollbackDurable(s);
    DurableParts(Rollback(s).0);
    OpenSound(d);
    assert d.log[..|d.log|] == d.log;
  }
}
