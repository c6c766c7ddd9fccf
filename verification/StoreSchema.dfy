/** Which writes a store accepts: the schema its first accepted write fixes, and the transaction guard. */
module StoreSchema {
  import opened Wrappers
  import opened Records
  import opened Wal
  import opened WalLaws
  import opened Segments
  import opened Views
  import opened StoreModel
  import opened StoreLaws
  import opened StoreRuns
  import opened StoreDurable
  import opened StoreOps
  import opened StoreOrigins
  import opened StoreHistory
  import Search

  // --- one write ---

  /** An upsert is accepted if and only if its record encodes, has a vector of the store's dimension, when one
      is set, and an id of the store's kind, when one is set. */
  lemma UpsertAccepts(s: Store, r: Record)
    requires s.mem.dim == 0 <==> s.mem.idKind.None?
    ensures Upsert(s, r).1 ==
      if Encode(r).Ok? && r.vector != []
         && (s.mem.dim != 0 ==> |r.vector| == s.mem.dim && KindOf(r.externalId) == s.mem.idKind.value)
      then Ok(s.mem.nextSeq) else Err(Schema)
  {
    hide Encodable, WriteLog, MaybeAutocommit;
  }

  /** The record encodes and has the dimension and the id kind of the other one. */
  predicate Alike(r: Record, like: Record) {
    Encode(r).Ok? && |r.vector| == |like.vector| && (r.externalId.Int? <==> like.externalId.Int?)
  }

  /** The store accepts exactly the records like this one, under its next number. */
  ghost predicate AcceptsLike(s: Store, like: Record) {
    forall r :: Upsert(s, r).1 == if Alike(r, like) then Ok(s.mem.nextSeq) else Err(Schema)
  }

  predicate HasSchemaOf(m: Mem, like: Record) {
    m.dim == |like.vector| > 0 && m.idKind == Some(KindOf(like.externalId))
  }

  lemma SchemaAccepts(s: Store, like: Record)
    requires HasSchemaOf(s.mem, like)
    ensures AcceptsLike(s, like)
  {
    hide Upsert, Encode;
    forall r
      ensures Upsert(s, r).1 == if Alike(r, like) then Ok(s.mem.nextSeq) else Err(Schema)
    {
      UpsertAccepts(s, r);
    }
  }

  /** A delete writes a tombstone for its id: a zero vector of the store's dimension and nothing else. */
  lemma DeleteWrites(s: Store, id: ExternalId)
    requires Delete(s, id).1.Ok?
    ensures exists r ::
      && Delete(s, id).0.disk.log == s.disk.log + [Write(s.mem.nextSeq, r)]
           + (if Commits(s) then [Barrier(s.mem.nextSeq + 1)] else [])
      && r.externalId == id && r.lifecycle == Tombstone && r.norm == None && r.text == None && r.meta == []
      && |r.vector| == s.mem.dim && forall i | 0 <= i < |r.vector| :: r.vector[i] == 0
  {
    hide Encodable, IsLive;
    var log, w := s.disk.log, Write(s.mem.nextSeq, Tomb(s.mem, id));
    assert Delete(s, id).0.disk.log == log + [w] + (if Commits(s) then [Barrier(s.mem.nextSeq + 1)] else []);
  }

  // --- over runs ---

  /** A new store accepts every record that encodes and has a vector. */
  lemma NewStoreAccepts(s: Store, r: Record)
    requires Opened(Disk([], 0, None, map[]), s)
    ensures Upsert(s, r).1 == if Encode(r).Ok? && r.vector != [] then Ok(FIRST_SEQ) else Err(Schema)
  {
    hide Upsert, Encode;
    NewIsEmpty(s);
    UpsertAccepts(s, r);
  }

  lemma NewIsEmpty(s: Store)
    requires Opened(Disk([], 0, None, map[]), s)
    ensures s.mem.dim == 0 && s.mem.idKind == None && s.mem.nextSeq == FIRST_SEQ
  {
    EmptyIs();
  }

  /** A store that shows a record accepts exactly the records like it, in every state of every run. */
  lemma ShownSchemaHolds(states: seq<Store>, ops: seq<Op>, i: nat, e: Numbered)
    requires CheckpointedRun(states, ops) && i < |states| && Shows(states[i], e)
    ensures AcceptsLike(states[i], e.1)
  {
    hide CheckpointedRun, Durable, Traced, Openable, Shows, AcceptsLike, RecordsOf;
    var s := states[i];
    RunReliable(states, ops, i);
    ShownIsLogged(s, e);
    assert HasSchemaOf(s.mem, e.1) by { LoggedSchema(s, e); }
    SchemaAccepts(s, e.1);
  }

  lemma LoggedSchema(s: Store, e: Numbered)
    requires Durable(s) && e in RecordsOf(s.disk.log)
    ensures HasSchemaOf(s.mem, e.1)
  {
    hide RecordsOf, SoundDisk, Covered, KnownIds, LastBarrier, NextSeq;
  }

  /** The operations after which a store keeps what it holds in memory. */
  predicate Restarts(op: Op) { op.DoReopen? || op.DoCrash? || op.DoCrashIn? }

  lemma UpsertSchema(s: Store, r: Record)
    requires s.mem.dim == 0 <==> s.mem.idKind.None?
    ensures var t := Upsert(s, r).0;
      && (t.mem.dim == 0 <==> t.mem.idKind.None?)
      && (s.mem.dim != 0 ==> t.mem.dim == s.mem.dim && t.mem.idKind == s.mem.idKind)
      && (Upsert(s, r).1.Ok? ==> HasSchemaOf(t.mem, r))
  {
    hide Encodable;
  }

  lemma {:induction false} BatchSchema(s: Store, rs: seq<Record>)
    requires s.mem.dim == 0 <==> s.mem.idKind.None?
    ensures var t := UpsertAll(s, rs).0;
      && (t.mem.dim == 0 <==> t.mem.idKind.None?)
      && (s.mem.dim != 0 ==> t.mem.dim == s.mem.dim && t.mem.idKind == s.mem.idKind)
    decreases |rs|
  {
    hide Upsert;
    if rs != [] {
      BatchSchema(s, rs[..|rs| - 1]);
      UpsertSchema(UpsertAll(s, rs[..|rs| - 1]).0, rs[|rs| - 1]);
    }
  }

  lemma StepSchema(s: Store, op: Op, t: Store)
    requires Does(s, op, t) && !Restarts(op) && s.mem.dim != 0 && s.mem.idKind.Some?
    ensures t.mem.dim == s.mem.dim && t.mem.idKind == s.mem.idKind
  {
    hide Upsert, UpsertAll, Inside, Allowed, Encodable, FileBytes, Open, AllDecode, Covered;
    match op
    case DoUpsert(r) => UpsertSchema(s, r);
    case DoAdd(rs) => BatchSchema(s, rs);
    case _ =>
  }

  lemma RunDoes(states: seq<Store>, ops: seq<Op>, i: nat)
    requires CheckpointedRun(states, ops) && i + 1 < |states|
    ensures i < |ops| && Does(states[i], ops[i], states[i + 1])
    ensures states[i].mem.dim == 0 <==> states[i].mem.idKind.None?
  {
    hide Does, Durable, Openable, Traced, Opened, StartOf, StartAt, AfterFirstWrite;
    RunReliable(states, ops, i);
    DurableParts(states[i]);
  }

  lemma {:induction false} SchemaStays(states: seq<Store>, ops: seq<Op>, j: nat, i: nat, r: Record)
    requires CheckpointedRun(states, ops) && j < i < |states|
    requires ops[j] == DoUpsert(r) && Upsert(states[j], r).1.Ok?
    requires forall k | j < k < i :: !Restarts(ops[k])
    ensures HasSchemaOf(states[i].mem, r)
    decreases i
  {
    hide Upsert, Does, CheckpointedRun;
    RunDoes(states, ops, i - 1);
    if i == j + 1 {
      UpsertSchema(states[j], r);
      assert states[i] == Upsert(states[j], r).0 by { DoesUpsert(states[j], r, states[i]); }
    } else {
      SchemaStays(states, ops, j, i - 1, r);
      StepSchema(states[i - 1], ops[i - 1], states[i]);
    }
  }

  lemma DoesUpsert(s: Store, r: Record, t: Store)
    requires Does(s, DoUpsert(r), t)
    ensures t == Upsert(s, r).0
  {
    hide Upsert, Fits;
  }

  /** Once a write is accepted the store accepts exactly the records like it, whatever it does until it is
      opened anew: not even a rollback of that write takes the schema back. */
  lemma AcceptedSchemaStays(states: seq<Store>, ops: seq<Op>, j: nat, i: nat, r: Record)
    requires CheckpointedRun(states, ops) && j < i < |states|
    requires ops[j] == DoUpsert(r) && Upsert(states[j], r).1.Ok?
    requires forall k | j < k < i :: !Restarts(ops[k])
    ensures AcceptsLike(states[i], r)
  {
    hide Upsert, CheckpointedRun, AcceptsLike, HasSchemaOf;
    SchemaStays(states, ops, j, i, r);
    SchemaAccepts(states[i], r);
  }

  // --- one schema in every tier ---

  lemma FlatWithin(segs: seq<seq<Numbered>>, j: nat, e: Numbered)
    requires j < |segs| && e in segs[j]
    ensures e in Flat(segs)
    decreases |segs|
  {
    var k := |segs| - 1;
    if j < k { FlatWithin(segs[..k], j, e); }
  }

  /** A search meets vectors of one dimension, the store's, in every segment and in L0. */
  lemma OneDimension(states: seq<Store>, ops: seq<Op>, i: nat)
    requires CheckpointedRun(states, ops) && i < |states|
    ensures var m := states[i].mem;
      && (forall j, e | 0 <= j < |m.segments| && e in m.segments[j] :: |e.1.vector| == m.dim)
      && (forall j | 0 <= j < |m.segments| && m.segments[j] != [] :: Search.StoredDim(m.segments[j]) == m.dim)
      && (forall id | id in m.l0 :: |m.l0[id].1.vector| == m.dim)
  {
    hide CheckpointedRun, Durable, Openable, RecordsOf, Flat, TracedDisk, LastBarrier, NextSeq, Covered;
    var s := states[i];
    var m := s.mem;
    RunReliable(states, ops, i);
    forall e | e in RecordsOf(s.disk.log)
      ensures |e.1.vector| == m.dim
    {
      LoggedSchema(s, e);
    }
    forall j, e | 0 <= j < |m.segments| && e in m.segments[j]
      ensures |e.1.vector| == m.dim
    {
      FlatWithin(m.segments, j, e);
      PrefixWithin(s.disk.log, Covered(s.disk.log));
    }
  }

  /** The records agree in dimension, but for empty vectors at the start, and in the kind of their ids, and with
      what the manifest says of both. */
  predicate OneSchema(m: Mem, rs: seq<Numbered>) {
    && (forall i | 0 <= i < |rs| ::
          (m.dim != 0 ==> |rs[i].1.vector| == m.dim) && (m.idKind.Some? ==> KindOf(IdOf(rs[i])) == m.idKind.value))
    && (forall i, j | 0 <= i < j < |rs| ::
          (rs[i].1.vector != [] ==> |rs[j].1.vector| == |rs[i].1.vector|)
          && KindOf(IdOf(rs[j])) == KindOf(IdOf(rs[i])))
  }

  /** What replay has come to. */
  ghost predicate CaughtUp(m: Mem, t: Mem, rs: seq<Numbered>) {
    && t.checkpointSeq == m.checkpointSeq && t.l0 == m.l0 + Latest(rs)
    && t.dim == (if m.dim != 0 || rs == [] then m.dim else |rs[|rs| - 1].1.vector|)
    && t.idKind == (if rs == [] then m.idKind else Some(KindOf(IdOf(rs[|rs| - 1]))))
  }

  predicate Suits(m: Mem, e: Numbered) {
    (m.dim != 0 ==> |e.1.vector| == m.dim) && (m.idKind.Some? ==> KindOf(IdOf(e)) == m.idKind.value)
  }

  lemma ReplayedIff(t: Mem, e: Numbered)
    ensures Replayed(t, e).Ok? <==> Suits(t, e)
    ensures Replayed(t, e).Ok? ==>
      Replayed(t, e).value == t.(dim := |e.1.vector|, idKind := Some(KindOf(IdOf(e))), l0 := t.l0[IdOf(e) := e])
  {
  }

  lemma OneMoreSuits(m: Mem, rs: seq<Numbered>, t: Mem, e: Numbered)
    requires OneSchema(m, rs) && CaughtUp(m, t, rs)
    ensures Suits(t, e) <==> OneSchema(m, rs + [e])
  {
    hide Latest;
    var more := rs + [e];
    assert more[|rs|] == e && forall i | 0 <= i < |rs| :: more[i] == rs[i];
    if OneSchema(m, more) && rs != [] { assert more[|rs| - 1] == rs[|rs| - 1]; }
  }

  lemma OneMoreSchema(m: Mem, rs: seq<Numbered>, t: Mem, e: Numbered)
    requires OneSchema(m, rs) && CaughtUp(m, t, rs)
    ensures Replayed(t, e).Ok? <==> OneSchema(m, rs + [e])
    ensures Replayed(t, e).Ok? ==> CaughtUp(m, Replayed(t, e).value, rs + [e])
  {
    hide Latest, Replayed, OneSchema;
    LatestAppend(rs, e);
    ReplayedIff(t, e);
    OneMoreSuits(m, rs, t, e);
  }

  lemma FewerSchema(m: Mem, rs: seq<Numbered>, e: Numbered)
    requires OneSchema(m, rs + [e])
    ensures OneSchema(m, rs)
  {
    assert forall i | 0 <= i < |rs| :: (rs + [e])[i] == rs[i];
  }

  /** Replay succeeds if and only if the records above the checkpoint have one schema, the manifest's if it names
      one; L0 then holds the last of each id. */
  lemma {:induction false} ReplayIff(m: Mem, rs: seq<Numbered>)
    ensures Replay(m, rs).Ok? <==> OneSchema(m, After(rs, m.checkpointSeq))
    ensures Replay(m, rs).Ok? ==> CaughtUp(m, Replay(m, rs).value, After(rs, m.checkpointSeq))
    decreases |rs|
  {
    hide OneSchema, Replayed, CaughtUp;
    var c := m.checkpointSeq;
    if rs == [] {
      NothingReplayed(m);
    } else {
      var front, e := rs[..|rs| - 1], rs[|rs| - 1];
      ReplayIff(m, front);
      var above := After(front, c);
      if Replay(m, front).Ok? {
        SameCheckpoint(m, Replay(m, front).value, above);
        if e.0 > c { OneMoreSchema(m, above, Replay(m, front).value, e); } else { assert above + [] == above; }
      } else if e.0 > c {
        if OneSchema(m, above + [e]) { FewerSchema(m, above, e); }
      } else {
        assert above + [] == above;
      }
    }
  }

  lemma NothingReplayed(m: Mem)
    ensures OneSchema(m, []) && CaughtUp(m, m, [])
  {
    assert m.l0 + map[] == m.l0;
  }

  lemma SameCheckpoint(m: Mem, t: Mem, rs: seq<Numbered>)
    requires CaughtUp(m, t, rs)
    ensures t.checkpointSeq == m.checkpointSeq
  {
  }

  /** Without a manifest, with one ahead of the log's last barrier, or with one whose segments are missing or do not
      open, a store shows the view of its log and nothing else. */
  lemma UnusableManifestIsIgnored(d: Disk)
    requires OpenStore(d).1.Ok? && Increasing(d.log)
    requires d.manifest.Some? ==>
      || d.manifest.value.checkpointSeq > LastBarrier(d.log)
      || exists i | 0 <= i < |d.manifest.value.segments| ::
           var name := d.manifest.value.segments[i]; name !in d.segs || Open(d.segs[name]).Err?
    ensures Merged(OpenStore(d).1.value) == ViewOf(RecordsOf(ReadBack(KeptLog(d).log)))
  {
    hide AllDecode, Covered, LastBarrier, NextSeq, Open, Best, RecordsOf, SegsOf, ReadBack, Latest, Replay;
    var kept, m := KeptLog(d), OpenStore(d).1.value;
    var start := StartMem(d.manifest, d.segs, NextSeq(d.log), LastBarrier(d.log));
    var rs := RecordsOf(ReadBack(kept.log));
    ReplayIff(start, rs);
    AllAboveZero(d);
    ReplayKeepsSegments(start, rs);
    NothingFlat();
  }

  lemma NothingFlat()
    ensures Best(Flat([])) == map[]
  {
  }

  lemma {:induction false} ReplayKeepsSegments(m: Mem, rs: seq<Numbered>)
    ensures Replay(m, rs).Ok? ==> Replay(m, rs).value.segments == m.segments
    decreases |rs|
  {
    if rs != [] { ReplayKeepsSegments(m, rs[..|rs| - 1]); }
  }

  /** No number is as low as the checkpoint of a store that never made one. */
  lemma AllAboveZero(d: Disk)
    requires Increasing(d.log)
    ensures var rs := RecordsOf(ReadBack(KeptLog(d).log)); After(rs, 0) == rs
  {
    hide RecordsOf, After, Covered;
    var back := ReadBack(KeptLog(d).log);
    assert Increasing(back);
    RecordsRise(back);
    AfterNothing(RecordsOf(back), 0);
  }

  lemma {:induction false} AfterNothing(rs: seq<Numbered>, c: nat)
    requires forall i | 0 <= i < |rs| :: c < rs[i].0
    ensures After(rs, c) == rs
    decreases |rs|
  {
    if rs != [] { AfterNothing(rs[..|rs| - 1], c); }
  }

  // --- what a manifest says ---

  /** A checkpoint that succeeds publishes the next generation with the store's schema, its own barrier and its own
      segment, which is the only one left. */
  lemma CheckpointPublishes(s: Store, name: Name, es: seq<Numbered>)
    requires Checkpoint(s, name, es).1.Ok?
    ensures var (t, res) := Checkpoint(s, name, es);
      && t.disk.manifest
           == Some(Manifest(s.mem.generation + 1, s.mem.nextSeq, s.mem.dim, s.mem.idKind, s.mem.metric, [name]))
      && t.disk.segs == map[name := FileBytes(es)] && res == Ok(s.mem.nextSeq)
      && t.mem == s.mem.(generation := s.mem.generation + 1, checkpointSeq := s.mem.nextSeq, l0 := map[],
                         committedSeq := s.mem.nextSeq, nextSeq := s.mem.nextSeq + 1,
                         segments := t.mem.segments, segLive := t.mem.segLive)
  {
    hide FileBytes, Open, AllEncode, SegLiveOf;
  }

  /** Opening without a usable manifest leaves one of generation zero that seals nothing, and no segment. */
  lemma RebuildPublishes(d: Disk)
    requires OpenStore(d).1.Ok? && Rebuilds(d)
    ensures var (kept, m) := (OpenStore(d).0, OpenStore(d).1.value);
      kept.manifest == Some(Manifest(0, 0, m.dim, m.idKind, None, [])) && kept.segs == map[]
  {
    hide AllDecode, Covered, LastBarrier, NextSeq, Open, Flat, RecordsOf, SegsOf, ReadBack, SegsOpen;
    var start := StartMem(d.manifest, d.segs, NextSeq(d.log), LastBarrier(d.log));
    ReplayKeepsFiles(start, RecordsOf(ReadBack(KeptLog(d).log)));
  }

  lemma {:induction false} ReplayKeepsFiles(m: Mem, rs: seq<Numbered>)
    ensures Replay(m, rs).Ok? ==> var t := Replay(m, rs).value; t.generation == m.generation && t.metric == m.metric
    decreases |rs|
  {
    if rs != [] { ReplayKeepsFiles(m, rs[..|rs| - 1]); }
  }

  // --- the transaction guard ---

  /** One guard at a time; while it is there nothing commits by itself, and committing or dropping it ends it
      and brings autocommit back. */
  lemma GuardLaw(s: Store)
    ensures var (t, res) := Begin(s);
      && (res.Err? ==> t == s && Begin(t).1.Err? && !Commits(s))
      && (res.Ok? ==>
          && Begin(t).1.Err? && !Commits(t) && t.disk == s.disk && Merged(t.mem) == Merged(s.mem)
          && Begin(CommitTx(t)).1.Ok? && (Commits(CommitTx(t)) <==> s.mem.autocommit)
          && Begin(DropTx(t)).1.Ok? && (Commits(DropTx(t)) <==> s.mem.autocommit)
          && DropTx(s) == s)
  {
    hide AllDecode, Covered, LastBarrier, NextSeq, Best, Flat;
  }

  /** An opened store has no guard and, unless asked to, does not commit by itself. */
  lemma OpenedWithoutGuard(d: Disk)
    requires OpenStore(d).1.Ok?
    ensures var m := OpenStore(d).1.value; !m.inTx && !m.autocommit
  {
    hide AllDecode, Covered, LastBarrier, NextSeq, Open, Flat, RecordsOf, SegsOf, ReadBack;
    var kept := KeptLog(d);
    var start := StartMem(d.manifest, d.segs, NextSeq(d.log), LastBarrier(d.log));
    ReplayKeepsFlags(start, RecordsOf(ReadBack(kept.log)));
  }

  lemma {:induction false} ReplayKeepsFlags(m: Mem, rs: seq<Numbered>)
    ensures Replay(m, rs).Ok? ==> var t := Replay(m, rs).value; t.inTx == m.inTx && t.autocommit == m.autocommit
    decreases |rs|
  {
    if rs != [] { ReplayKeepsFlags(m, rs[..|rs| - 1]); }
  }
}
