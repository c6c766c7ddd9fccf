/** The operations of a store, power failures between and inside them, and runs. */
module StoreOps {
  import opened Wrappers
  import opened Records
  import opened Wal
  import opened WalLaws
  import opened Views
  import opened StoreModel
  import opened StoreLaws
  import opened StoreRuns

  // --- operations ---

  datatype Op =
    | DoUpsert(r: Record)
    | DoAdd(rs: seq<Record>)
    | DoDelete(id: ExternalId)
    | DoCommit
    | DoCheckpoint(name: Name, es: seq<Numbered>)
    | DoBegin
    | DoCommitTx
    | DoDropTx
    | DoRollback
    | DoReopen(autocommit: bool)
    | DoCrash(n: nat)
    | DoCrashIn(during: Op, at: Disk, n: nat)

  ghost predicate Opened(d: Disk, t: Store) {
    OpenStore(d).1.Ok? && t == Store(OpenStore(d).1.value, OpenStore(d).0)
  }

  predicate Commits(s: Store) { s.mem.autocommit && !s.mem.inTx }

  /** Records within the formats' bounds, sequence numbers that are left, a fresh segment name. */
  ghost predicate Allowed(s: Store, op: Op) {
    match op
    case DoUpsert(r) => Fits(r) && Room(s, 2)
    case DoAdd(rs) => (forall r | r in rs :: Fits(r)) && Room(s, 2 * |rs| + 1)
    case DoDelete(_) => Room(s, 2)
    case DoCommit => Room(s, 1)
    case DoCommitTx => Room(s, 1)
    case DoCheckpoint(name, es) => Room(s, 1) && FreshName(s.disk, name) && Lists(es, Merged(s.mem))
    case _ => true
  }

  /** One operation, or a power failure between two operations or inside one. */
  ghost predicate Does(s: Store, op: Op, t: Store) {
    && Allowed(s, op)
    && match op
       case DoUpsert(r) => t == Upsert(s, r).0
       case DoAdd(rs) => t == Add(s, rs).0
       case DoDelete(id) => t == Delete(s, id).0
       case DoCommit => t == CommitLog(s)
       case DoCheckpoint(name, es) => t == Checkpoint(s, name, es).0
       case DoBegin => t == Begin(s).0
       case DoCommitTx => t == CommitTx(s)
       case DoDropTx => t == DropTx(s)
       case DoRollback => t == Rollback(s).0
       case DoReopen(autocommit) =>
         OpenStore(s.disk).1.Ok?
         && t == Store(OpenStore(s.disk).1.value.(autocommit := autocommit), OpenStore(s.disk).0)
       case DoCrash(n) => s.disk.synced <= n <= |s.disk.log| && Opened(Crashed(s.disk, n), t)
       case DoCrashIn(during, at, n) =>
         Inside(s, during, at) && at.synced <= n <= |at.log| && Opened(Crashed(at, n), t)
  }

  // --- inside an operation ---

  /** The directory when the barrier of a commit is written and not yet synced. */
  function Hanging(s: Store): Disk {
    s.disk.(log := s.disk.log + [Barrier(s.mem.nextSeq)])
  }

  /** The same for the commit that follows a write. */
  function HangingWrite(s: Store, r: Record): Disk {
    s.disk.(log := s.disk.log + [Write(s.mem.nextSeq, r)] + [Barrier(s.mem.nextSeq + 1)])
  }

  /** The directory at the points inside an operation where more than a part of its unsynced entries can be
      lost: before a sync, between the effects of a checkpoint, of a rollback's recovery or of a rebuild. */
  ghost predicate Inside(s: Store, op: Op, at: Disk) {
    && Allowed(s, op)
    && match op
       case DoUpsert(r) => Upsert(s, r).1.Ok? && Commits(s) && at == HangingWrite(s, r)
       case DoDelete(id) => Delete(s, id).1.Ok? && Commits(s) && at == HangingWrite(s, Tomb(s.mem, id))
       case DoAdd(rs) => InsideAdd(s, rs, at)
       case DoCommit => at == Hanging(s)
       case DoCommitTx => at == Hanging(s)
       case DoCheckpoint(name, es) =>
         exists stage: Stage :: (stage.Collecting? ==> name !in stage.removed) && at == DiskAt(s, name, es, stage)
       case DoRollback => at == s.disk || at == Rollback(s).0.disk
       case DoDropTx => at == s.disk || at == DropTx(s).disk
       case DoReopen(_) =>
         && OpenStore(s.disk).1.Ok?
         && exists stage: OpenStage :: (stage.LogRecovered? || Rebuilds(s.disk))
                                     && at == OpenDiskAt(s.disk, OpenStore(s.disk).1.value, stage)
       case _ => false
  }

  /** At the barrier of one of the upserts, or at the last one. */
  ghost predicate InsideAdd(s: Store, rs: seq<Record>, at: Disk) {
    Commits(s) && exists k | 0 <= k <= |rs| ::
      var (u, res) := UpsertAll(s, rs[..k]);
      res.Ok? && if k < |rs| then Upsert(u, rs[k]).1.Ok? && at == HangingWrite(u, rs[k]) else at == Hanging(u)
  }

  // --- runs ---

  ghost predicate Run(states: seq<Store>, ops: seq<Op>) {
    && |states| == |ops| + 1
    && Opened(Disk([], 0, None, map[]), states[0])
    && forall i | 0 <= i < |ops| :: Does(states[i], ops[i], states[i + 1])
  }

  /** The acknowledged part of the log. */
  function Acked(s: Store): seq<Entry> {
    s.disk.log[..Covered(s.disk.log)]
  }

  /** Opening the directory succeeds and shows the view. */
  ghost predicate Reopens(d: Disk, v: View) {
    OpenStore(d).1.Ok? && Merged(OpenStore(d).1.value) == v
  }

  lemma CoveredIsWithin(a: seq<Entry>, b: seq<Entry>)
    requires a <= b && Covered(a) == Covered(b)
    ensures b[..Covered(b)] == a[..Covered(a)]
  {
    hide Covered;
  }
}
