/** The log over whole runs: appends, commits, crashes that keep any prefix of the unsynced bytes,
    and recoveries. The history of what was written rides along; no step looks at it to decide
    what the file holds. */
module WalRuns {
  import opened Wrappers
  import opened Bytes
  import opened Records
  import opened RecordLaws
  import opened Wal
  import opened WalLaws
  import Frames

  datatype Sys = Sys(
    bytes: seq<byte>,     // the log file
    synced: nat,          // the prefix of it that no crash takes away
    open: bool,           // a handle is open
    nextSeq: nat,
    committedSeq: nat,
    kept: seq<Entry>,     // history: acknowledged or recovered
    tail: seq<Entry>)     // history: written since, perhaps with the barrier that is to cover it

  datatype Event =
    | Append(record: Record)
    | WriteBarrier         // first half of a commit
    | SyncDone             // second half: the acknowledgment
    | Crash(n: nat)        // keep n bytes
    | CreateCrash(n: nat)  // crash while the header is being written
    | Reopen               // recovery, after a crash or in process

  predicate Landing(tail: seq<Entry>) {
    tail != [] && tail[|tail| - 1].Barrier?
  }

  function Init(): Sys {
    Sys([], 0, false, 0, 0, [], [])
  }

  function Logs(s: Sys, e: Entry): Sys {
    s.(bytes := s.bytes + Frames.Encode(EntryFrame(e)), nextSeq := s.nextSeq + 1,
       tail := s.tail + [e])
  }

  /** What recovery is to find: a barrier that landed whole brings its batch. */
  function Survivors(s: Sys): seq<Entry> {
    if Landing(s.tail) && |LogBytes(s.kept + s.tail)| <= |s.bytes| then s.kept + s.tail else s.kept
  }

  ghost predicate Step(s: Sys, ev: Event, t: Sys) {
    match ev
    case Append(r) =>
      s.open && !Landing(s.tail) && Storable(r) && s.nextSeq + 1 < SEQ_LIMIT && t == Logs(s, Write(s.nextSeq, r))
    case WriteBarrier =>
      s.open && !Landing(s.tail) && s.nextSeq + 1 < SEQ_LIMIT && t == Logs(s, Barrier(s.nextSeq))
    case SyncDone =>
      s.open && Landing(s.tail) && s.nextSeq > 0
      && t == s.(synced := |s.bytes|, committedSeq := s.nextSeq - 1, kept := s.kept + s.tail, tail := [])
    case Crash(n) =>
      s.synced <= n <= |s.bytes| && t == s.(bytes := s.bytes[..n], synced := n, open := false)
    case CreateCrash(n) =>
      !s.open && |s.bytes| <= n <= HEADER_LEN && s.bytes <= HeaderBytes(FIRST_SEQ)
      && t == s.(bytes := HeaderBytes(FIRST_SEQ)[..n], synced := n)
    case Reopen =>
      && (s.open ==> !Landing(s.tail))
      && Recover(s.bytes).Ok?
      && var (r, left) := Recover(s.bytes).value;
        t == s.(bytes := left, synced := if |s.bytes| < HEADER_LEN || r.truncatedBytes > 0 then |left| else s.synced,
                open := true, nextSeq := r.nextSeq, committedSeq := r.committedSeq,
                kept := Survivors(s), tail := [])
  }

  ghost predicate History(s: Sys) {
    && Written(s.kept + s.tail) && NextSeq(s.kept + s.tail) < SEQ_LIMIT
    && (s.kept != [] ==> s.kept[|s.kept| - 1].Barrier?)
    && (forall i | 0 <= i < |s.tail| - 1 :: s.tail[i].Write?)
  }

  ghost predicate Inv(s: Sys) {
    var all := s.kept + s.tail;
    && History(s)
    && (s.open ==>
      && s.bytes == LogBytes(all) && |LogBytes(s.kept)| <= s.synced <= |s.bytes|
      && NextSeq(all) <= s.nextSeq < SEQ_LIMIT && (Landing(s.tail) ==> NextSeq(all) == s.nextSeq)
      && s.committedSeq == LastBarrier(s.kept))
    && (!s.open ==> s.bytes <= LogBytes(all) && s.synced == |s.bytes|)
    && (!s.open && |s.bytes| < HEADER_LEN ==> s.kept == [] && s.tail == [])
    && (!s.open && |s.bytes| >= HEADER_LEN ==> |LogBytes(s.kept)| <= |s.bytes|)
  }

  lemma NoneCovered(es: seq<Entry>, c: nat)
    requires c <= |es| && (c > 0 ==> es[c - 1].Barrier?)
    requires forall i | c <= i < |es| :: es[i].Write?
    ensures Covered(es) == c
    decreases |es|
  {
    if |es| > c { NoneCovered(es[..|es| - 1], c); }
  }

  /** In every state the invariant describes, recovery succeeds and returns exactly the survivors:
      what was acknowledged or recovered before, plus the whole in-flight batch or none of it. */
  lemma RecoverySafe(s: Sys)
    requires Inv(s) && (s.open ==> !Landing(s.tail))
    ensures Survivors(s) == s.kept || (Landing(s.tail) && Survivors(s) == s.kept + s.tail)
    ensures Recover(s.bytes).Ok?
    ensures var (r, left) := Recover(s.bytes).value; var es := Survivors(s);
      && r.records == RecordsOf(es)
      && left == LogBytes(es)
      && r.committedSeq == LastBarrier(es)
      && NextSeq(es) <= r.nextSeq <= NextSeq(s.kept + s.tail)
      && r.truncatedBytes + |left| == (if |s.bytes| < HEADER_LEN then |left| else |s.bytes|)
  {
    hide LogBytes, Recover, RecordsOf, LastBarrier, History, NextSeq;
    HistoryShape(s);
    if |s.bytes| < HEADER_LEN {
      LogPrefix(s.kept + s.tail, s.bytes);
      var _ := RecoverCut(s.kept + s.tail, |s.bytes|);
      FreshRecovery(s.bytes);
      NoTail(s);
    } else {
      var all, m := s.kept + s.tail, |s.kept|;
      LogPrefix(all, s.bytes);
      SurvivorsAt(s);
      RecoverHistory(all, m, |s.bytes|);
    }
  }

  lemma SurvivorsAt(s: Sys)
    requires History(s)
    ensures Survivors(s) == SurvivorsOf(s.kept + s.tail, |s.kept|, |s.bytes|)
  {
    hide LogBytes, Written, NextSeq;
    var all, m := s.kept + s.tail, |s.kept|;
    assert all[..m] == s.kept && (s.tail != [] ==> all[|all| - 1] == s.tail[|s.tail| - 1]);
  }

  /** The history to be found in n bytes, when its first m entries are kept. */
  function SurvivorsOf(all: seq<Entry>, m: nat, n: nat): seq<Entry>
    requires m <= |all|
  {
    if |all| > m && all[|all| - 1].Barrier? && |LogBytes(all)| <= n then all else all[..m]
  }

  lemma RecoverHistory(all: seq<Entry>, m: nat, n: nat)
    requires Written(all) && m <= |all| && (m > 0 ==> all[m - 1].Barrier?)
    requires forall i | m <= i < |all| - 1 :: all[i].Write?
    requires HEADER_LEN <= n && |LogBytes(all[..m])| <= n <= |LogBytes(all)|
    ensures var got, es := Recover(LogBytes(all)[..n]), SurvivorsOf(all, m, n);
      && got.Ok?
      && got.value.0.records == RecordsOf(es)
      && got.value.1 == LogBytes(es)
      && got.value.0.committedSeq == LastBarrier(es)
      && NextSeq(es) <= got.value.0.nextSeq <= NextSeq(all)
      && got.value.0.truncatedBytes + |got.value.1| == n
  {
    hide LogBytes, Recover, RecordsOf, Covered, LastBarrier, Storable, Report, NextSeq, ReadBack;
    var k := RecoverCut(all, n);
    assert m <= k;
    if k < |all| { LongerLog(all, k, |all|); }
    assert all[..|all|] == all;
    var c := CutCovers(all, m, k);
    ReportFields(all, k, c, n);
  }

  lemma LogPrefix(all: seq<Entry>, bytes: seq<byte>)
    requires bytes <= LogBytes(all)
    ensures bytes == LogBytes(all)[..|bytes|]
  {
  }

  lemma NoTail(s: Sys)
    requires s.kept == [] && s.tail == []
    ensures Survivors(s) == [] && NextSeq(s.kept + s.tail) == FIRST_SEQ == NextSeq([])
  {
  }

  /** The history as one list of entries. */
  lemma HistoryShape(s: Sys)
    requires History(s)
    ensures var all, m := s.kept + s.tail, |s.kept|;
      && Written(all) && Increasing(all)
      && all[..m] == s.kept && all[..|all|] == all
      && (m > 0 ==> all[m - 1].Barrier?)
      && (forall i | m <= i < |all| - 1 :: all[i].Write?)
      && (Landing(s.tail) <==> |all| > m && all[|all| - 1].Barrier?)
  {
    hide Storable, NextSeq;
    var all, m := s.kept + s.tail, |s.kept|;
    assert forall i | m <= i < |all| :: all[i] == s.tail[i - m];
  }

  /** Where the last barrier of a cut log is: at the end when the in-flight one landed, else where it was. */
  lemma CutCovers(all: seq<Entry>, m: nat, k: nat) returns (c: nat)
    requires m <= k <= |all| && (m > 0 ==> all[m - 1].Barrier?)
    requires forall i | m <= i < |all| - 1 :: all[i].Write?
    ensures c == if k == |all| && |all| > m && all[|all| - 1].Barrier? then |all| else m
    ensures c <= k && Covered(all[..k]) == c && LastBarrier(all[..k]) == LastBarrier(all[..c])
  {
    hide LastBarrier;
    c := if k == |all| && |all| > m && all[|all| - 1].Barrier? then |all| else m;
    NoneCovered(all[..k], c);
    assert all[..k][..c] == all[..c];
    SameBarrier(all[..k], c);
  }

  lemma ReportFields(all: seq<Entry>, k: nat, c: nat, size: nat)
    requires Increasing(all) && c <= k <= |all| && Covered(all[..k]) == c
    requires LastBarrier(all[..k]) == LastBarrier(all[..c]) && |LogBytes(all[..k][..c])| <= size
    requires ReadBack(all[..k][..c]) == all[..k][..c]
    ensures var r := Report(all[..k], size);
      && r.records == RecordsOf(all[..c]) && r.committedSeq == LastBarrier(all[..c])
      && NextSeq(all[..c]) <= r.nextSeq <= NextSeq(all)
      && r.truncatedBytes + |LogBytes(all[..c])| == size
  {
    hide LogBytes, RecordsOf, Covered, LastBarrier, ReadBack;
    assert all[..k][..c] == all[..c] && all[..|all|] == all;
    NextGrows(all, c, k);
    NextGrows(all, k, |all|);
  }

  lemma FreshRecovery(bytes: seq<byte>)
    requires |bytes| < HEADER_LEN && Recover(bytes) == Recover([])
    ensures Recover(bytes).Ok?
    ensures var (r, left) := Recover(bytes).value;
      && r.records == RecordsOf([]) && left == LogBytes([]) && r.committedSeq == LastBarrier([])
      && r.nextSeq == NextSeq([]) && r.truncatedBytes == 0
  {
    EmptyLog();
  }

  lemma SameBarrier(es: seq<Entry>, c: nat)
    requires c <= |es| && Covered(es) == c && (c > 0 ==> es[c - 1].Barrier?)
    ensures LastBarrier(es[..c]) == LastBarrier(es)
  {
    NoneCovered(es[..c], c);
  }

  lemma NextGrows(es: seq<Entry>, j: nat, k: nat)
    requires Increasing(es) && j <= k <= |es|
    ensures FIRST_SEQ <= NextSeq(es[..j]) <= NextSeq(es[..k])
  {
  }

  lemma InitInv()
    ensures Inv(Init())
  {
  }

  lemma LogsHistory(s: Sys, e: Entry)
    requires History(s) && !Landing(s.tail)
    requires NextSeq(s.kept + s.tail) <= e.sn && e.sn + 1 < SEQ_LIMIT && (e.Write? ==> Storable(e.record))
    ensures History(Logs(s, e))
  {
    hide Written, Storable, LogBytes, Frames.Encode, EntryFrame;
    var t, all := Logs(s, e), s.kept + s.tail;
    LoggedEntries(s, e);
    WrittenAppend(all, e);
    forall i | 0 <= i < |t.tail| - 1
      ensures t.tail[i].Write?
    {
      assert t.tail[i] == s.tail[i];
    }
  }

  lemma LoggedEntries(s: Sys, e: Entry)
    ensures var t := Logs(s, e);
      t.kept + t.tail == s.kept + s.tail + [e] && NextSeq(s.kept + s.tail + [e]) == e.sn + 1
  {
    hide Frames.Encode, EntryFrame;
    assert s.kept + (s.tail + [e]) == s.kept + s.tail + [e];
  }

  lemma LogsInv(s: Sys, e: Entry)
    requires Inv(s) && s.open && !Landing(s.tail)
    requires e.sn == s.nextSeq && s.nextSeq + 1 < SEQ_LIMIT && (e.Write? ==> Storable(e.record))
    ensures Inv(Logs(s, e))
  {
    hide LogBytes, Storable, LastBarrier, Frames.Encode, EntryFrame, History, NextSeq;
    LogsHistory(s, e);
    LoggedEntries(s, e);
    LogBytesAppend(s.kept + s.tail, e);
  }

  lemma PrefixHistory(s: Sys, kept: seq<Entry>)
    requires History(s) && kept <= s.kept + s.tail
    requires kept != [] ==> kept[|kept| - 1].Barrier?
    ensures History(s.(kept := kept, tail := []))
  {
    hide Storable;
    var all := s.kept + s.tail;
    assert kept + [] == kept;
    assert kept == all[..|kept|];
    WrittenPrefix(all, |kept|);
    assert all[..|all|] == all;
    NextGrows(all, |kept|, |all|);
  }

  lemma SurvivorsHistory(s: Sys)
    requires History(s)
    ensures History(s.(kept := Survivors(s), tail := []))
  {
    var t := s.(kept := Survivors(s), tail := []);
    assert Survivors(s) <= s.kept + s.tail && (Survivors(s) != [] ==> Survivors(s)[|Survivors(s)| - 1].Barrier?) by {
      hide LogBytes, Written, NextSeq;
    }
    hide LogBytes, Written, NextSeq, Survivors;
    PrefixHistory(s, Survivors(s));
  }

  lemma ReopenInv(s: Sys, t: Sys)
    requires Inv(s) && Step(s, Reopen, t)
    ensures Inv(t)
  {
    hide LogBytes, Recover, RecordsOf, History, Survivors, NextSeq, LastBarrier, Landing, Logs;
    var kept := Survivors(s);
    RecoverySafe(s);
    SurvivorsHistory(s);
    SameHistory(s.(kept := kept, tail := []), t);
    HistoryNext(s);
    NotLanding(t);
    assert kept + [] == kept;
    var left := Recover(s.bytes).value.1;
    assert left == LogBytes(kept);
    if s.open { assert kept == s.kept; }
    assert |s.bytes| >= HEADER_LEN && Recover(s.bytes).value.0.truncatedBytes == 0 ==> |left| == |s.bytes|;
  }

  lemma NotLanding(s: Sys)
    requires s.tail == []
    ensures !Landing(s.tail)
  {
  }

  lemma HistoryNext(s: Sys)
    requires History(s)
    ensures NextSeq(s.kept + s.tail) < SEQ_LIMIT
  {
  }

  lemma SameHistory(s: Sys, t: Sys)
    requires History(s) && t.kept == s.kept && t.tail == s.tail
    ensures History(t)
  {
  }

  lemma CrashInv(s: Sys, n: nat)
    requires Inv(s) && s.synced <= n <= |s.bytes|
    ensures Inv(s.(bytes := s.bytes[..n], synced := n, open := false))
  {
    hide RecordsOf, Storable, Frames.EncodeAll;
  }

  lemma SyncInv(s: Sys, t: Sys)
    requires Inv(s) && Step(s, SyncDone, t)
    ensures Inv(t)
  {
    hide LogBytes, Written, NextSeq, LastBarrier;
    assert t.kept + t.tail == t.kept == s.kept + s.tail;
    SyncedBarrier(s);
  }

  lemma SyncedBarrier(s: Sys)
    requires Landing(s.tail)
    ensures var all := s.kept + s.tail;
      all != [] && LastBarrier(all) == NextSeq(all) - 1 && (s.kept + s.tail)[|s.kept + s.tail| - 1].Barrier?
  {
    CoveredLast(s.kept + s.tail);
  }

  lemma StepInv(s: Sys, ev: Event, t: Sys)
    requires Inv(s) && Step(s, ev, t)
    ensures Inv(t)
  {
    hide LogBytes, Recover, RecordsOf, Storable;
    match ev
    case Append(r) => LogsInv(s, Write(s.nextSeq, r));
    case WriteBarrier => LogsInv(s, Barrier(s.nextSeq));
    case SyncDone => SyncInv(s, t);
    case Crash(n) => CrashInv(s, n);
    case CreateCrash(n) => CreateCrashInv(s, n, t);
    case Reopen => ReopenInv(s, t);
  }

  lemma CreateCrashInv(s: Sys, n: nat, t: Sys)
    requires Inv(s) && Step(s, CreateCrash(n), t)
    ensures Inv(t)
  {
    hide LogBytes, Recover, RecordsOf, Written, NextSeq, LastBarrier, Landing, HeaderBytes;
    EmptyLog();
    if |s.bytes| < HEADER_LEN {
      assert s.kept + s.tail == [] && s.kept == [];
    } else {
      assert t.bytes == s.bytes;
    }
  }

  // --- runs ---

  ghost predicate Run(states: seq<Sys>, events: seq<Event>) {
    && |states| == |events| + 1
    && states[0] == Init()
    && forall i | 0 <= i < |events| :: Step(states[i], events[i], states[i + 1])
  }

  lemma {:induction false} RunInv(states: seq<Sys>, events: seq<Event>, i: nat)
    requires Run(states, events) && i < |states|
    ensures Inv(states[i])
  {
    hide Inv, Step;
    if i == 0 {
      InitInv();
    } else {
      RunInv(states, events, i - 1);
      StepInv(states[i - 1], events[i - 1], states[i]);
    }
  }

  /** Crash safety over every run: whenever the log is closed, or open with no commit half done,
      recovery succeeds and yields what was kept plus at most the one in-flight batch, whole. */
  lemma CrashSafety(states: seq<Sys>, events: seq<Event>, i: nat)
    requires Run(states, events) && i < |states|
    requires states[i].open ==> !Landing(states[i].tail)
    ensures var s := states[i];
      && Recover(s.bytes).Ok?
      && var got := Recover(s.bytes).value.0.records;
        got == RecordsOf(s.kept) || (Landing(s.tail) && got == RecordsOf(s.kept + s.tail))
  {
    hide Run, Inv, Recover, RecordsOf, LogBytes;
    RunInv(states, events, i);
    RecoverySafe(states[i]);
  }

  lemma KeptGrows(s: Sys, ev: Event, t: Sys)
    requires Step(s, ev, t)
    ensures s.kept <= t.kept
    ensures ev == SyncDone ==> t.kept == s.kept + s.tail
  {
    hide LogBytes, Recover, Storable;
  }

  /** What a commit acknowledged (or a recovery returned) stays, in order, in the history. */
  lemma {:induction false} KeptStays(states: seq<Sys>, events: seq<Event>, i: nat, j: nat)
    requires Run(states, events) && i <= j < |states|
    ensures states[i].kept <= states[j].kept
    decreases j - i
  {
    hide Step;
    if i < j {
      KeptStays(states, events, i, j - 1);
      KeptGrows(states[j - 1], events[j - 1], states[j]);
    }
  }

  lemma RecordsPrefix(a: seq<Entry>, b: seq<Entry>)
    requires a <= b
    ensures RecordsOf(a) <= RecordsOf(b)
  {
    RecordsConcat(b, |a|);
    assert b[..|a|] == a;
    hide RecordsOf;
  }

  /** Acknowledged writes stay: the records in the file when a sync returned are a prefix of what recovery
      returns from the bytes of every later state, whatever crashes and recoveries lie between. */
  lemma AcknowledgedStays(states: seq<Sys>, events: seq<Event>, i: nat, j: nat)
    requires Run(states, events) && 0 < i <= j < |states| && events[i - 1] == SyncDone
    requires states[j].open ==> !Landing(states[j].tail)
    ensures Recover(states[i].bytes).Ok? && Recover(states[j].bytes).Ok?
    ensures Recover(states[i].bytes).value.0.records == RecordsOf(states[i - 1].kept + states[i - 1].tail)
    ensures Recover(states[i].bytes).value.0.records <= Recover(states[j].bytes).value.0.records
  {
    var s, t := states[i], states[j];
    assert Step(states[i - 1], SyncDone, s);
    KeptGrows(states[i - 1], SyncDone, s);
    assert s.tail == [] by { hide LogBytes, Recover; }
    hide Run, Step, Inv, Recover, RecordsOf, LogBytes;
    RunInv(states, events, i);
    RunInv(states, events, j);
    RecoverySafe(s);
    RecoverySafe(t);
    KeptStays(states, events, i, j);
    RecordsPrefix(s.kept, Survivors(t));
  }

  /** A record enters the history only by an append under its number. */
  lemma NewByAppend(s: Sys, ev: Event, t: Sys, e: Numbered)
    requires Step(s, ev, t) && e in RecordsOf(t.kept + t.tail) && e !in RecordsOf(s.kept + s.tail)
    ensures ev == Append(e.1) && s.nextSeq == e.0
  {
    hide LogBytes, Recover, Storable, Frames.Encode, EntryFrame, RecordsOf;
    var all, after := s.kept + s.tail, t.kept + t.tail;
    if after <= all {
      RecordsPrefix(after, all);
    } else {
      var e' := if ev.Append? then Write(s.nextSeq, ev.record) else Barrier(s.nextSeq);
      LoggedEntries(s, e');
      RecordsAppend(all, e');
    }
  }

  lemma {:induction false} Appended(states: seq<Sys>, events: seq<Event>, i: nat, j: nat, e: Numbered) returns (k: nat)
    requires Run(states, events) && i <= j < |states|
    requires e in RecordsOf(states[j].kept + states[j].tail) && e !in RecordsOf(states[i].kept + states[i].tail)
    ensures i <= k < j && events[k] == Append(e.1) && states[k].nextSeq == e.0
    decreases j - i
  {
    hide Step, RecordsOf;
    if e in RecordsOf(states[j - 1].kept + states[j - 1].tail) {
      k := Appended(states, events, i, j - 1, e);
    } else {
      k := j - 1;
      NewByAppend(states[k], events[k], states[j], e);
    }
  }

  /** A record that a recovery dropped never comes back by itself: if the bytes of a later state recover
      it, an append between the two wrote it again, under the same number. */
  lemma DroppedStaysDropped(states: seq<Sys>, events: seq<Event>, i: nat, j: nat, e: Numbered)
    requires Run(states, events) && 0 < i <= j < |states| && events[i - 1] == Reopen
    requires states[j].open ==> !Landing(states[j].tail)
    ensures Recover(states[i].bytes).Ok? && Recover(states[j].bytes).Ok?
    ensures e in Recover(states[j].bytes).value.0.records && e !in Recover(states[i].bytes).value.0.records ==>
      exists k :: i <= k < j && events[k] == Append(e.1) && states[k].nextSeq == e.0
  {
    var s, t := states[i], states[j];
    assert Step(states[i - 1], Reopen, s);
    assert s.tail == [] by { hide LogBytes, Recover; }
    hide Run, Step, Inv, Recover, RecordsOf, LogBytes;
    RunInv(states, events, i);
    RunInv(states, events, j);
    RecoverySafe(s);
    RecoverySafe(t);
    assert s.kept + s.tail == s.kept;
    RecordsPrefix(Survivors(t), t.kept + t.tail);
    if e in RecordsOf(Survivors(t)) && e !in RecordsOf(s.kept) {
      var _ := Appended(states, events, i, j, e);
    }
  }

  // --- the log object takes these steps ---

  ghost predicate FileShows(file: LogFile, s: Sys)
    reads file
  {
    file.bytes == s.bytes && file.synced == s.synced
  }

  ghost predicate Shows(w: Wal, s: Sys)
    reads w, w.file
  {
    s.open && FileShows(w.file, s) && w.nextSeq == s.nextSeq && w.committedSeq == s.committedSeq
  }

  /** An append is one step of the run, or is refused and is none. */
  method AppendStep(w: Wal, ghost s: Sys, r: Record) returns (res: Result<nat, Error>, ghost t: Sys)
    requires Shows(w, s) && !Landing(s.tail) && s.nextSeq + 1 < SEQ_LIMIT && (Encodable(r) ==> Storable(r))
    modifies w, w.file
    ensures Shows(w, t)
    ensures if res.Ok? then Step(s, Append(r), t) else t == s
  {
    hide Frames.Encode, EntryFrame, InBounds, Body, Recover;
    res := w.Append(r);
    t := if res.Ok? then Logs(s, Write(s.nextSeq, r)) else s;
  }

  /** A commit is two steps, the barrier and the sync. */
  method CommitSteps(w: Wal, ghost s: Sys) returns (sn: nat, ghost mid: Sys, ghost t: Sys)
    requires Shows(w, s) && !Landing(s.tail) && s.nextSeq + 1 < SEQ_LIMIT
    modifies w, w.file
    ensures Shows(w, t) && sn == t.committedSeq
    ensures Step(s, WriteBarrier, mid) && Step(mid, SyncDone, t)
  {
    hide Frames.Encode, EntryFrame, Recover;
    sn := w.Commit();
    mid := Logs(s, Barrier(s.nextSeq));
    t := mid.(synced := |mid.bytes|, committedSeq := sn, kept := mid.kept + mid.tail, tail := []);
  }

  /** Opening the file again, after a crash or in process, is the recovery step, and never refused in a run. */
  method ReopenStep(file: LogFile, ghost s: Sys) returns (w: Wal, ghost t: Sys)
    requires FileShows(file, s) && Inv(s) && (s.open ==> !Landing(s.tail))
    modifies file
    ensures fresh(w) && w.file == file && Shows(w, t)
    ensures Step(s, Reopen, t) && Inv(t)
  {
    hide Inv, Recover, RecordsOf, LogBytes, Survivors;
    RecoverySafe(s);
    var res := OpenOrRecover(file);
    w := new Wal(file, res.value);
    t := Sys(file.bytes, file.synced, true, w.nextSeq, w.committedSeq, Survivors(s), []);
    ReopenInv(s, t);
  }
}
