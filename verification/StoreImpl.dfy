/** The store as the object it is: fields updated in place by its methods, over a directory.
    Every method is tied to the value-level operation that StoreLaws and StoreRuns reason about. */
module StoreImpl {
  import opened Wrappers
  import opened Bytes
  import opened Records
  import opened Wal
  import opened WalLaws
  import opened Segments
  import opened Sorting
  import opened Views
  import opened StoreModel
  import opened StoreLaws
  import opened StoreOrigins

  class Directory {
    var log: seq<Entry>
    var synced: nat
    var manifest: Option<Manifest>
    var segs: map<Name, seq<byte>>

    ghost function State(): Disk
      reads this
    {
      Disk(log, synced, manifest, segs)
    }
  }

  /** What recovery reports. */
  datatype LogReport = LogReport(next: nat, barrier: nat, records: seq<Numbered>)

  /** Recovery of the log: decode every record, end the log at the last barrier, report that barrier, the number
      after the last entry seen and the committed records. A record that does not decode leaves the log alone. */
  method RecoverLog(dir: Directory) returns (res: Result<LogReport, Error>)
    modifies dir`log, dir`synced
    ensures !AllDecode(old(dir.log)) ==> res == Err(Error.Wal) && dir.State() == old(dir.State())
    ensures AllDecode(old(dir.log)) ==>
      && dir.State() == KeptLog(old(dir.State()))
      && res == Ok(LogReport(NextSeq(old(dir.log)), LastBarrier(old(dir.log)), RecordsOf(ReadBack(dir.log))))
  {
    hide Covered, LastBarrier, RecordsOf, ReadBack, AllDecode, Decodable, Decode, Body, NextSeq;
    ghost var d := dir.State();
    var log := dir.log;
    var end, barrier, next := 0, 0, FIRST_SEQ;
    var records, pending: seq<Numbered> := [], [];
    NothingLogged();
    assert log[..0] == [];
    for i := 0 to |log|
      invariant dir.State() == d && AllDecode(log[..i])
      invariant end == Covered(log[..i]) && barrier == LastBarrier(log[..i]) && next == NextSeq(log[..i])
      invariant records == RecordsOf(ReadBack(log[..end])) && pending == RecordsOf(ReadBack(log[end..i]))
    {
      var e := log[i];
      LogStep(log, end, i);
      if e.Write? {
        var r := DecodeRecord(Body(e.record));
        if r.Err? {
          return Err(Error.Wal);
        }
        pending := pending + [(e.sn, r.value)];
      } else {
        end, barrier := i + 1, e.sn;
        records, pending := records + pending, [];
      }
      next := e.sn + 1;
    }
    assert log[..|log|] == log;
    if end < |log| {
      dir.log := log[..end];
      dir.synced := end;
    }
    assert log[..end] == dir.log;
    return Ok(LogReport(next, barrier, records));
  }

  lemma NothingLogged()
    ensures Covered([]) == 0 && LastBarrier([]) == 0 && NextSeq([]) == FIRST_SEQ
    ensures AllDecode([]) && RecordsOf(ReadBack([])) == []
  {
    assert ReadBack([]) == [];
  }

  /** One more entry of the log, for the loop of recovery. */
  lemma LogStep(log: seq<Entry>, end: nat, i: nat)
    requires end <= i < |log|
    ensures var e := log[i];
      && Covered(log[..i + 1]) == (if e.Barrier? then i + 1 else Covered(log[..i]))
      && LastBarrier(log[..i + 1]) == (if e.Barrier? then e.sn else LastBarrier(log[..i]))
      && NextSeq(log[..i + 1]) == e.sn + 1
      && (Decodable(e) <==> (e.Write? ==> Decode(Body(e.record)).Ok?))
      && (AllDecode(log[..i]) && Decodable(e) ==> AllDecode(log[..i + 1])) && (!Decodable(e) ==> !AllDecode(log))
    ensures var e, pending := log[i], RecordsOf(ReadBack(log[end..i]));
      if e.Barrier? then RecordsOf(ReadBack(log[..i + 1])) == RecordsOf(ReadBack(log[..end])) + pending
      else Decodable(e) ==>
        RecordsOf(ReadBack(log[end..i + 1])) == pending + [(e.sn, Decode(Body(e.record)).value)]
    ensures log[i + 1..i + 1] == [] && RecordsOf(ReadBack(log[i + 1..i + 1])) == []
  {
    hide Covered, LastBarrier, RecordsOf, ReadBack, Decode, Body;
    var e := log[i];
    assert log[..i + 1] == log[..i] + [e] && log[end..i + 1] == log[end..i] + [e];
    assert log[..i][..end] == log[..end] && log[..i][end..] == log[end..i];
    CoveredAppend(log[..i], e);
    ReadBackAppend(log[end..i], e);
    ReadBackAppend(log[..i], e);
    ReadBackConcat(log[..i], end);
    NothingRead();
    assert RecordsOf(ReadBack(log[..i])) + [] == RecordsOf(ReadBack(log[..i]));
  }

  predicate LeSeq(a: Numbered, b: Numbered) { a.0 <= b.0 }

  /** Sequence numbers identify versions: what merging needs to be able to order its output. */
  ghost predicate Mergeable(m: Mem) {
    Filed(m.l0) && DistinctSeqs(MergeL0(Best(Flat(m.segments)), m.l0))
  }

  lemma {:induction false} BestFiled(es: seq<Numbered>)
    ensures Filed(Best(es))
    decreases |es|
  {
    if es != [] { BestFiled(es[..|es| - 1]); }
  }

  /** Every reachable store can be merged. */
  lemma TracedMergeable(s: Store)
    requires Traced(s)
    ensures Mergeable(s.mem)
  {
    hide Best, Flat, RecordsOf, Covered, LastBarrier, TracedDisk, NextSeq, SegLiveOf;
    var rs := RecordsOf(s.disk.log);
    TracedParts(s.disk);
    RecordsRise(s.disk.log);
    PrefixWithin(s.disk.log, Covered(s.disk.log));
    BestFrom(Flat(s.mem.segments));
    var merged := MergeL0(Best(Flat(s.mem.segments)), s.mem.l0);
    forall a, b | a in merged && b in merged && merged[a].0 == merged[b].0
      ensures a == b
    {
      assert merged[a] in rs && IdOf(merged[a]) == a && merged[b] in rs && IdOf(merged[b]) == b;
    }
  }

  class VectorStore {
    const dir: Directory
    var dim: nat
    var idKind: Option<IdKind>
    var metric: Option<Metric>
    var segments: seq<seq<Numbered>>
    var segLive: map<ExternalId, nat>
    var checkpointSeq: nat
    var generation: nat
    var l0: View
    var autocommit: bool
    var inTx: bool
    var nextSeq: nat
    var committedSeq: nat

    ghost function Mem(): Mem
      reads this
    {
      StoreModel.Mem.Mem(dim, idKind, metric, segments, segLive, checkpointSeq, generation, l0,
                         autocommit, inTx, nextSeq, committedSeq)
    }

    ghost function State(): Store
      reads this, dir
    {
      Store.Store(Mem(), dir.State())
    }

    constructor (dir: Directory, m: Mem)
      ensures this.dir == dir && Mem() == m
    {
      this.dir := dir;
      dim, idKind, metric, segments, segLive := m.dim, m.idKind, m.metric, m.segments, m.segLive;
      checkpointSeq, generation, l0 := m.checkpointSeq, m.generation, m.l0;
      autocommit, inTx, nextSeq, committedSeq := m.autocommit, m.inTx, m.nextSeq, m.committedSeq;
    }

    // --- the log ---

    method AppendRecord(r: Record)
      modifies this, dir
      ensures State() == WriteLog(old(State()), r)
    {
      dir.log := dir.log + [Write(nextSeq, r)];
      l0 := l0[r.externalId := (nextSeq, r)];
      nextSeq := nextSeq + 1;
    }

    method Commit() returns (sn: nat)
      modifies this, dir
      ensures State() == CommitLog(old(State())) && sn == old(nextSeq)
    {
      sn := nextSeq;
      dir.log := dir.log + [Barrier(sn)];
      dir.synced := |dir.log|;
      nextSeq, committedSeq := sn + 1, sn;
    }

    method Autocommit()
      modifies this, dir
      ensures State() == MaybeAutocommit(old(State()))
    {
      if autocommit && !inTx {
        var _ := Commit();
      }
    }

    // --- writes ---

    method Upsert(r: Record) returns (res: Outcome)
      modifies this, dir
      ensures (State(), res) == StoreModel.Upsert(old(State()), r)
    {
      hide Encodable;
      if dim == 0 && r.vector == [] {
        return Err(Schema);
      }
      if dim != 0 && |r.vector| != dim {
        return Err(Schema);
      }
      if !Encodable(r) {
        return Err(Schema);
      }
      if dim == 0 {
        dim := |r.vector|;
      }
      var kind := KindOf(r.externalId);
      if idKind.None? {
        idKind := Some(kind);
      } else if idKind.value != kind {
        return Err(Schema);
      }
      var sn := nextSeq;
      AppendRecord(r);
      Autocommit();
      return Ok(sn);
    }

    method Live(id: ExternalId) returns (b: bool)
      ensures b == IsLive(Mem(), id)
    {
      if id in l0 {
        return l0[id].1.lifecycle.Live?;
      }
      return id in segLive;
    }

    method Delete(id: ExternalId) returns (res: Outcome)
      modifies this, dir
      ensures (State(), res) == StoreModel.Delete(old(State()), id)
    {
      hide Encodable;
      var live := Live(id);
      if !live {
        return Err(Schema);
      }
      var tomb := Record.Record(id, seq(dim, i => 0), None, None, [], Tombstone);
      assert tomb == Tomb(Mem(), id);
      if !Encodable(tomb) {
        return Err(Schema);
      }
      var sn := nextSeq;
      AppendRecord(tomb);
      Autocommit();
      return Ok(sn);
    }

    method Add(rs: seq<Record>) returns (res: Outcome)
      modifies this, dir
      ensures (State(), res) == StoreModel.Add(old(State()), rs)
    {
      hide StoreModel.Upsert;
      if rs == [] {
        return Err(Schema);
      }
      ghost var before := State();
      var last: Outcome := Ok(0);
      assert rs[..0] == [];
      for i := 0 to |rs|
        invariant (State(), last) == UpsertAll(before, rs[..i]) && last.Ok?
      {
        assert rs[..i + 1][..i] == rs[..i];
        last := Upsert(rs[i]);
        if last.Err? {
          FailureStops(before, rs, i + 1);
          return last;
        }
      }
      assert rs[..|rs|] == rs;
      Autocommit();
      return last;
    }

    /** Entries above the committed sequence number leave L0; the log is reopened. */
    method Rollback() returns (res: Outcome)
      modifies this, dir
      ensures (State(), res) == StoreModel.Rollback(old(State()))
    {
      hide Covered, NextSeq, LastBarrier, AllDecode;
      var committed := committedSeq;
      l0 := map id | id in l0 && l0[id].0 <= committed :: l0[id];
      var log := RecoverLog(dir);
      if log.Err? {
        return Err(log.error);
      }
      nextSeq, committedSeq := log.value.next, log.value.barrier;
      return Ok(0);
    }

    // --- transactions ---

    method BeginTransaction() returns (res: Outcome)
      modifies this
      ensures (State(), res) == Begin(old(State()))
    {
      if inTx {
        return Err(Schema);
      }
      inTx := true;
      return Ok(0);
    }

    method CommitTransaction() returns (sn: nat)
      modifies this, dir
      ensures State() == CommitTx(old(State())) && sn == old(nextSeq)
    {
      inTx := false;
      sn := Commit();
    }

    method DropTransaction()
      modifies this, dir
      ensures State() == DropTx(old(State()))
    {
      hide StoreModel.Rollback;
      if inTx {
        var _ := Rollback();
        inTx := false;
      }
    }

    // --- reads ---

    /** The merged live view, each id once, by increasing sequence number. */
    method MergedLive() returns (out: seq<Numbered>)
      requires Mergeable(Mem())
      ensures Lists(out, Merged(Mem()))
    {
      hide Flat, Best;
      var best: View := map[];
      FlatNothing();
      assert segments[..0] == [];
      for i := 0 to |segments|
        invariant best == Best(Flat(segments[..i]))
      {
        var seg := segments[i];
        assert seg[..0] == [] && Flat(segments[..i]) + [] == Flat(segments[..i]);
        for j := 0 to |seg|
          invariant best == Best(Flat(segments[..i]) + seg[..j])
        {
          var e := seg[j];
          BestAppend(Flat(segments[..i]) + seg[..j], e);
          assert Flat(segments[..i]) + seg[..j + 1] == Flat(segments[..i]) + seg[..j] + [e];
          if !(IdOf(e) in best && best[IdOf(e)].0 >= e.0) {
            best := best[IdOf(e) := e];
          }
        }
        assert seg[..|seg|] == seg && segments[..i + 1][..i] == segments[..i];
        FlatAppend(segments[..i + 1]);
      }
      assert segments[..|segments|] == segments;
      ghost var base := best;
      var todo := l0.Keys;
      while todo != {}
        invariant todo <= l0.Keys
        invariant best == MergeL0(base, l0 - todo)
      {
        var id :| id in todo;
        MergeOne(base, l0, todo, id);
        if !(id in best && best[id].0 >= l0[id].0) {
          best := best[id := l0[id]];
        }
        todo := todo - {id};
      }
      assert l0 - {} == l0;
      BestFiled(Flat(segments));
      var items := LiveItems(best);
      out := Sort(items, LeSeq);
      SortedLists(items, out, best);
    }

    /** A live record by id, L0 first, then the first sealed entry with that id. */
    method Get(id: ExternalId) returns (r: Option<Record>)
      requires Lists(Flat(segments), Latest(Flat(segments)))
      requires LiveOnly(Latest(Flat(segments))) == Latest(Flat(segments))
      requires segLive == SegLiveOf(Flat(segments))
      ensures r == if !IsLive(Mem(), id) then None
                   else Some((if id in l0 then l0[id] else Latest(Flat(segments))[id]).1)
    {
      hide Flat, Latest;
      var live := Live(id);
      if !live {
        return None;
      }
      if id in l0 {
        return Some(l0[id].1);
      }
      var es := Flat(segments);
      for i := 0 to |es|
        invariant forall j | 0 <= j < i :: IdOf(es[j]) != id || !es[j].1.lifecycle.Live?
      {
        if IdOf(es[i]) == id && es[i].1.lifecycle.Live? {
          return Some(es[i].1);
        }
      }
      assert Latest(es)[id] in es && id in LiveOnly(Latest(es));
      LatestFrom(es, id);
      assert false;
    }

    /** What text search scores: sealed entries not shadowed by L0, and live L0 entries, that pass the filter. */
    method TextCandidates(keep: Record -> bool) returns (cands: seq<Numbered>)
      requires Filed(l0)
      ensures forall e :: e in cands <==>
        && e.1.lifecycle.Live? && keep(e.1)
        && ((e in Flat(segments) && IdOf(e) !in l0) || (IdOf(e) in l0 && l0[IdOf(e)] == e))
    {
      hide Flat;
      var es := Flat(segments);
      cands := [];
      for i := 0 to |es|
        invariant forall e :: e in cands <==> e in es[..i] && e.1.lifecycle.Live? && keep(e.1) && IdOf(e) !in l0
      {
        assert es[..i + 1] == es[..i] + [es[i]];
        if es[i].1.lifecycle.Live? && IdOf(es[i]) !in l0 && keep(es[i].1) {
          cands := cands + [es[i]];
        }
      }
      assert es[..|es|] == es;
      var todo := l0.Keys;
      while todo != {}
        invariant todo <= l0.Keys
        invariant forall e :: e in cands <==>
          && e.1.lifecycle.Live? && keep(e.1)
          && ((e in es && IdOf(e) !in l0) || (IdOf(e) in l0 && IdOf(e) !in todo && l0[IdOf(e)] == e))
      {
        var id :| id in todo;
        if l0[id].1.lifecycle.Live? && keep(l0[id].1) {
          cands := cands + [l0[id]];
        }
        todo := todo - {id};
      }
    }

    // --- checkpoint ---

    method Checkpoint(name: Name) returns (res: Outcome, ghost es: seq<Numbered>)
      requires Mergeable(Mem()) && name !in dir.segs
      modifies this, dir
      ensures Lists(es, Merged(old(Mem()))) && (State(), res) == StoreModel.Checkpoint(old(State()), name, es)
    {
      hide Mergeable, Merged, StoreModel.Seal, Lists;
      ghost var s := State();
      SameMerge(Mem(), CommitLog(s).mem);
      var _ := Commit();
      var live := MergedLive();
      es := live;
      assert Ascending(live) by { ListsAscend(live, Merged(s.mem)); }
      res := Seal(name, live);
    }

    /** Write the entries to a segment file, publish it, open it again and start over with an empty L0. */
    method Seal(name: Name, live: seq<Numbered>) returns (res: Outcome)
      requires Ascending(live)
      modifies this, dir
      ensures (State(), res) == StoreModel.Seal(old(State()), name, live)
    {
      hide SegLiveOf, FileBytes, Open, AllEncode, Ascending;
      ghost var c := State();
      generation := generation + 1;
      var file := WriteSegment(live);
      if file.Err? {
        return Err(file.error);
      }
      dir.segs := dir.segs[name := file.value];
      dir.manifest := Some(Manifest.Manifest(generation, committedSeq, dim, idKind, metric, [name]));
      assert dir.State() == Published(c, name, live);
      var back := OpenSegment(file.value);
      if back.Err? {
        return Err(Error.Segment);
      }
      segLive := SegLiveOf(back.value);
      segments := [back.value];
      checkpointSeq := committedSeq;
      l0 := map[];
      assert Mem() == Sealed(c.mem, back.value);
      Collect({name});
      assert dir.State() == RemoveSegs(Published(c, name, live), Published(c, name, live).segs.Keys - {name});
      return Ok(committedSeq);
    }

    /** Remove the segment files that are not live, one at a time. */
    method Collect(live: set<Name>)
      modifies dir`segs
      ensures dir.segs == old(dir.segs) - (old(dir.segs).Keys - live)
    {
      var todo := dir.segs.Keys;
      while todo != {}
        invariant todo <= old(dir.segs).Keys
        invariant dir.segs == old(dir.segs) - (old(dir.segs).Keys - live - todo)
      {
        var n :| n in todo;
        if n !in live {
          dir.segs := dir.segs - {n};
        }
        todo := todo - {n};
      }
    }
  }

  /** Open a directory: recover the log, load what the manifest seals or else rebuild, replay the rest. */
  method OpenDirectory(dir: Directory) returns (res: Result<VectorStore, Error>)
    modifies dir
    ensures dir.State() == OpenStore(old(dir.State())).0
    ensures match (res, OpenStore(old(dir.State())).1)
            case (Ok(store), Ok(m)) => fresh(store) && store.dir == dir && store.Mem() == m
            case (Err(e), Err(e')) => e == e'
            case _ => false
  {
    hide Covered, LastBarrier, RecordsOf, ReadBack, AllDecode, Flat, SegLiveOf, KeptLog, NextSeq, SegsOpen, SegsOf;
    ghost var d := dir.State();
    var log := RecoverLog(dir);
    if log.Err? {
      return Err(log.error);
    }
    var next, barrier := log.value.next, log.value.barrier;
    var base := Mem.Mem(0, None, None, [], map[], 0, 0, map[], false, false, next, barrier);
    var rebuild := true;
    if dir.manifest.Some? {
      var m := dir.manifest.value;
      var segs := LoadSegments(dir, m);
      if m.checkpointSeq <= barrier && segs.Some? {
        rebuild := false;
        if (m.dim > 0 || m.segments != []) && m.idKind.None? {
          return Err(Error.Segment);
        }
        base := base.(dim := m.dim, idKind := if m.dim > 0 || m.segments != [] then m.idKind else None,
                      metric := m.metric, segments := segs.value, segLive := SegLiveOf(Flat(segs.value)),
                      checkpointSeq := m.checkpointSeq, generation := m.generation);
      }
    }
    assert rebuild == Rebuilds(d) && base == StartMem(d.manifest, d.segs, next, barrier);
    var replayed := ReplayLog(base, log.value.records);
    if replayed.Err? {
      return Err(replayed.error);
    }
    if rebuild {
      dir.manifest := Some(HonestManifest(replayed.value));
      var todo := dir.segs.Keys;
      while todo != {}
        invariant todo <= d.segs.Keys && dir.segs == d.segs - (d.segs.Keys - todo)
        invariant dir.State() == Publish(KeptLog(d), HonestManifest(replayed.value)).(segs := dir.segs)
      {
        var n :| n in todo;
        dir.segs := dir.segs - {n};
        todo := todo - {n};
      }
    }
    var store := new VectorStore(dir, replayed.value);
    return Ok(store);
  }

  lemma ListsAscend(es: seq<Numbered>, v: View)
    requires Lists(es, v)
    ensures Ascending(es)
  {
  }

  /** The entries of every named segment, or nothing if one is missing or does not open. */
  method LoadSegments(dir: Directory, m: Manifest) returns (segs: Option<seq<seq<Numbered>>>)
    ensures segs.Some? <==> SegsOpen(m, dir.segs)
    ensures segs.Some? ==> segs.value == SegsOf(m, dir.segs)
  {
    hide Open;
    var out: seq<seq<Numbered>> := [];
    for i := 0 to |m.segments|
      invariant forall j | 0 <= j < i :: m.segments[j] in dir.segs && Open(dir.segs[m.segments[j]]).Ok?
      invariant |out| == i && forall j | 0 <= j < i :: out[j] == Open(dir.segs[m.segments[j]]).value
    {
      if m.segments[i] !in dir.segs {
        return None;
      }
      var entries := OpenSegment(dir.segs[m.segments[i]]);
      if entries.Err? {
        return None;
      }
      out := out + [entries.value];
    }
    return Some(out);
  }

  method ReplayLog(base: Mem, rs: seq<Numbered>) returns (res: Result<Mem, Error>)
    ensures res == Replay(base, rs)
  {
    hide Replayed;
    var m := base;
    assert rs[..0] == [];
    for i := 0 to |rs|
      invariant Replay(base, rs[..i]) == Ok(m)
    {
      assert rs[..i + 1][..i] == rs[..i];
      if rs[i].0 > m.checkpointSeq {
        var next := Replayed(m, rs[i]);
        if next.Err? {
          ReplayStops(base, rs, i + 1);
          return next;
        }
        m := next.value;
      }
    }
    assert rs[..|rs|] == rs;
    return Ok(m);
  }

  lemma {:induction false} ReplayStops(m: Mem, rs: seq<Numbered>, i: nat)
    requires i <= |rs| && Replay(m, rs[..i]).Err?
    ensures Replay(m, rs) == Replay(m, rs[..i])
    decreases |rs| - i
  {
    hide Replayed;
    if i == |rs| {
      assert rs[..i] == rs;
    } else {
      assert rs[..i + 1][..i] == rs[..i];
      ReplayStops(m, rs, i + 1);
    }
  }

  lemma SameMerge(m: Mem, t: Mem)
    requires m.segments == t.segments && m.l0 == t.l0
    ensures Merged(m) == Merged(t) && (Mergeable(m) ==> Mergeable(t))
  {
  }

  // --- reads of a store in a reachable state ---

  /** Point reads agree with the merged view: what `Get` needs holds, and it returns the shown record. */
  lemma GetShowsView(s: Store, id: ExternalId)
    requires Inv(s)
    ensures var m, es := s.mem, Flat(s.mem.segments);
      && Lists(es, Latest(es)) && LiveOnly(Latest(es)) == Latest(es) && m.segLive == SegLiveOf(es)
      && (IsLive(m, id) <==> id in Merged(m))
      && (id in Merged(m) ==> Merged(m)[id] == (if id in m.l0 then m.l0[id] else Latest(es)[id]))
  {
    hide Flat, Latest, Upto, After, RecordsOf, Covered, LastBarrier, DiskInv, Agrees, NextSeq;
    var rs := RecordsOf(s.disk.log);
    RecordsAscend(s);
    SealedView(s.mem, rs);
    PointReads(s.mem, rs, id);
  }

  /** The text candidates are exactly the filter applied to the merged view. */
  lemma CandidatesAreView(s: Store, e: Numbered)
    requires Inv(s)
    ensures
      && e.1.lifecycle.Live?
      && ((e in Flat(s.mem.segments) && IdOf(e) !in s.mem.l0) || (IdOf(e) in s.mem.l0 && s.mem.l0[IdOf(e)] == e))
      <==> IdOf(e) in Merged(s.mem) && Merged(s.mem)[IdOf(e)] == e
  {
    hide Flat, Latest, Upto, After, RecordsOf, Covered, LastBarrier, DiskInv, Agrees, NextSeq, Merged, Tracks;
    var es := Flat(s.mem.segments);
    GetShowsView(s, IdOf(e));
    if e in es {
      var i :| 0 <= i < |es| && es[i] == e;
      assert Latest(es)[IdOf(e)] == e;
    }
  }

  lemma {:induction false} FailureStops(s: Store, rs: seq<Record>, i: nat)
    requires i <= |rs| && UpsertAll(s, rs[..i]).1.Err?
    ensures UpsertAll(s, rs) == UpsertAll(s, rs[..i])
    decreases |rs| - i
  {
    hide StoreModel.Upsert;
    if i == |rs| {
      assert rs[..i] == rs;
    } else {
      assert rs[..i + 1][..i] == rs[..i];
      FailureStops(s, rs, i + 1);
    }
  }

  lemma FlatNothing()
    ensures Flat([]) == [] && Best([]) == map[]
  {
  }

  lemma FlatAppend(segs: seq<seq<Numbered>>)
    requires segs != []
    ensures Flat(segs) == Flat(segs[..|segs| - 1]) + segs[|segs| - 1]
  {
  }

  lemma BestAppend(es: seq<Numbered>, e: Numbered)
    ensures Best(es + [e]) ==
      if IdOf(e) in Best(es) && Best(es)[IdOf(e)].0 >= e.0 then Best(es) else Best(es)[IdOf(e) := e]
  {
    assert (es + [e])[..|es|] == es;
  }

  lemma MergeOne(base: View, l0: View, todo: set<ExternalId>, id: ExternalId)
    requires id in todo && todo <= l0.Keys
    ensures var m := MergeL0(base, l0 - todo);
      MergeL0(base, l0 - (todo - {id})) == if id in m && m[id].0 >= l0[id].0 then m else m[id := l0[id]]
  {
    assert (l0 - (todo - {id})).Keys == (l0 - todo).Keys + {id};
  }

  method LiveItems(v: View) returns (items: seq<Numbered>)
    requires Filed(v)
    ensures forall i | 0 <= i < |items| :: IdOf(items[i]) in LiveOnly(v) && v[IdOf(items[i])] == items[i]
    ensures forall id | id in LiveOnly(v) :: v[id] in items
    ensures forall i, j | 0 <= i < j < |items| :: IdOf(items[i]) != IdOf(items[j])
  {
    items := [];
    var todo := v.Keys;
    while todo != {}
      invariant todo <= v.Keys
      invariant forall i | 0 <= i < |items| ::
        IdOf(items[i]) in LiveOnly(v) && IdOf(items[i]) !in todo && v[IdOf(items[i])] == items[i]
      invariant forall id | id in LiveOnly(v) && id !in todo :: v[id] in items
      invariant forall i, j | 0 <= i < j < |items| :: IdOf(items[i]) != IdOf(items[j])
    {
      var id :| id in todo;
      if v[id].1.lifecycle.Live? {
        items := items + [v[id]];
      }
      todo := todo - {id};
    }
  }

  lemma SortedLists(items: seq<Numbered>, out: seq<Numbered>, v: View)
    requires Filed(v) && DistinctSeqs(v) && out == Sort(items, LeSeq)
    requires forall i | 0 <= i < |items| :: IdOf(items[i]) in LiveOnly(v) && v[IdOf(items[i])] == items[i]
    requires forall id | id in LiveOnly(v) :: v[id] in items
    requires forall i, j | 0 <= i < j < |items| :: IdOf(items[i]) != IdOf(items[j])
    ensures Lists(out, LiveOnly(v))
  {
    hide Sort;
    SortPermutes(items, LeSeq);
    SortSorts(items, LeSeq);
    DistinctPermutes(items, out, IdOf);
    assert forall i | 0 <= i < |out| :: out[i] in items;
    forall i, j | 0 <= i < j < |out|
      ensures out[i].0 < out[j].0
    {
      assert LeSeq(out[i], out[j]) && IdOf(out[i]) != IdOf(out[j]);
    }
  }
}
