/** The store as a value: what every operation does to the memory tier and to the directory, refusals
    included. The log is taken at the level of whole entries; StoreFiles shows that opening the bytes of
    the log file, cut anywhere, does the same. */
module StoreModel {
  import opened Wrappers
  import opened Bytes
  import opened Records
  import opened Wal
  import opened WalLaws
  import opened Segments
  import opened Views

  datatype IdKind = IntKind | StrKind

  datatype Metric = Dot | Cosine | L2

  type Name = nat  // a segment file name; fresh names are never reused

  datatype Manifest = Manifest(
    generation: nat,
    checkpointSeq: nat,
    dim: nat,
    idKind: Option<IdKind>,
    metric: Option<Metric>,
    segments: seq<Name>)

  /** The directory: log entries, how many of them no crash takes away, manifest, and the bytes of the segment files. */
  datatype Disk = Disk(
    log: seq<Entry>,
    synced: nat,
    manifest: Option<Manifest>,
    segs: map<Name, seq<byte>>)

  datatype Mem = Mem(
    dim: nat,
    idKind: Option<IdKind>,
    metric: Option<Metric>,
    segments: seq<seq<Numbered>>,
    segLive: map<ExternalId, nat>,
    checkpointSeq: nat,
    generation: nat,
    l0: View,
    autocommit: bool,
    inTx: bool,
    nextSeq: nat,
    committedSeq: nat)

  datatype Store = Store(mem: Mem, disk: Disk)

  type Outcome = Result<nat, Error>

  function KindOf(id: ExternalId): IdKind {
    match id
    case Int(_) => IntKind
    case Str(_) => StrKind
  }

  // --- reads ---

  function Flat(segs: seq<seq<Numbered>>): seq<Numbered> {
    if segs == [] then [] else Flat(segs[..|segs| - 1]) + segs[|segs| - 1]
  }

  /** Highest sequence number per id; the earlier entry stays on a tie. */
  function Best(es: seq<Numbered>): View {
    if es == [] then map[] else
    var m, e := Best(es[..|es| - 1]), es[|es| - 1];
    if IdOf(e) in m && m[IdOf(e)].0 >= e.0 then m else m[IdOf(e) := e]
  }

  function MergeL0(base: View, l0: View): View {
    map id | id in base.Keys + l0.Keys ::
      if id in base && (id !in l0 || base[id].0 >= l0[id].0) then base[id] else l0[id]
  }

  /** The merged live view over segments and L0. */
  function Merged(m: Mem): View {
    LiveOnly(MergeL0(Best(Flat(m.segments)), m.l0))
  }

  function SegLiveOf(es: seq<Numbered>): map<ExternalId, nat> {
    map id | id in Latest(es) :: Latest(es)[id].0
  }

  predicate IsLive(m: Mem, id: ExternalId) {
    if id in m.l0 then m.l0[id].1.lifecycle.Live? else id in m.segLive
  }

  // --- writes ---

  function WriteLog(s: Store, r: Record): Store {
    var sn := s.mem.nextSeq;
    Store(s.mem.(nextSeq := sn + 1, l0 := s.mem.l0[r.externalId := (sn, r)]),
          s.disk.(log := s.disk.log + [Write(sn, r)]))
  }

  function CommitLog(s: Store): Store {
    var sn := s.mem.nextSeq;
    Store(s.mem.(nextSeq := sn + 1, committedSeq := sn),
          s.disk.(log := s.disk.log + [Barrier(sn)], synced := |s.disk.log| + 1))
  }

  function MaybeAutocommit(s: Store): Store {
    if s.mem.autocommit && !s.mem.inTx then CommitLog(s) else s
  }

  predicate ValidNew(m: Mem, r: Record) {
    (if m.dim == 0 then r.vector != [] else |r.vector| == m.dim) && Encodable(r)
  }

  function Upsert(s: Store, r: Record): (Store, Outcome) {
    if !ValidNew(s.mem, r) then (s, Err(Schema)) else
    var t := if s.mem.dim == 0 then s.(mem := s.mem.(dim := |r.vector|)) else s;
    var kind := KindOf(r.externalId);
    if t.mem.idKind.Some? && t.mem.idKind.value != kind then (t, Err(Schema)) else
    var u := t.(mem := t.mem.(idKind := Some(kind)));
    (MaybeAutocommit(WriteLog(u, r)), Ok(s.mem.nextSeq))
  }

  function Tomb(m: Mem, id: ExternalId): Record {
    Record(id, seq(m.dim, i => 0), None, None, [], Tombstone)
  }

  function Delete(s: Store, id: ExternalId): (Store, Outcome) {
    if !IsLive(s.mem, id) || !Encodable(Tomb(s.mem, id)) then (s, Err(Schema))
    else (MaybeAutocommit(WriteLog(s, Tomb(s.mem, id))), Ok(s.mem.nextSeq))
  }

  /** Upserts in order up to the first that fails. */
  function UpsertAll(s: Store, rs: seq<Record>): (Store, Outcome) {
    if rs == [] then (s, Ok(0)) else
    var (t, res) := UpsertAll(s, rs[..|rs| - 1]);
    if res.Err? then (t, res) else Upsert(t, rs[|rs| - 1])
  }

  function Add(s: Store, rs: seq<Record>): (Store, Outcome) {
    if rs == [] then (s, Err(Schema)) else
    var (t, res) := UpsertAll(s, rs);
    if res.Err? then (t, res) else (MaybeAutocommit(t), res)
  }

  /** What recovery leaves of the log. */
  function KeptLog(d: Disk): Disk {
    var c := Covered(d.log);
    d.(log := d.log[..c], synced := if c < |d.log| then c else d.synced)
  }

  function Forgotten(m: Mem): Mem {
    m.(l0 := map id | id in m.l0 && m.l0[id].0 <= m.committedSeq :: m.l0[id])
  }

  /** L0 is filtered by sequence number and the log is reopened; nothing is put back into L0. */
  function RolledBack(s: Store): Store {
    Store(Forgotten(s.mem).(nextSeq := NextSeq(s.disk.log), committedSeq := LastBarrier(s.disk.log)), KeptLog(s.disk))
  }

  /** Reopening fails, after L0 was filtered, when a record in the log does not decode. */
  function Rollback(s: Store): (Store, Outcome) {
    if AllDecode(s.disk.log) then (RolledBack(s), Ok(0)) else (s.(mem := Forgotten(s.mem)), Err(Error.Wal))
  }

  function Begin(s: Store): (Store, Outcome) {
    if s.mem.inTx then (s, Err(Schema)) else (s.(mem := s.mem.(inTx := true)), Ok(0))
  }

  function CommitTx(s: Store): Store {
    CommitLog(s.(mem := s.mem.(inTx := false)))
  }

  function DropTx(s: Store): Store {
    if s.mem.inTx then var t := Rollback(s).0; t.(mem := t.mem.(inTx := false)) else s
  }

  // --- checkpoint, in the order of its durable effects; `es` lists the merged view ---

  function SealedManifest(s: Store, name: Name): Manifest {
    Manifest(s.mem.generation + 1, s.mem.committedSeq, s.mem.dim, s.mem.idKind, s.mem.metric, [name])
  }

  function WriteSeg(d: Disk, name: Name, es: seq<Numbered>): Disk {
    d.(segs := d.segs[name := FileBytes(es)])
  }

  function Publish(d: Disk, m: Manifest): Disk {
    d.(manifest := Some(m))
  }

  function RemoveSegs(d: Disk, names: set<Name>): Disk {
    d.(segs := d.segs - names)
  }

  function Sealed(m: Mem, es: seq<Numbered>): Mem {
    m.(segments := [es], segLive := SegLiveOf(es), checkpointSeq := m.committedSeq,
       generation := m.generation + 1, l0 := map[])
  }

  function Published(c: Store, name: Name, es: seq<Numbered>): Disk {
    Publish(WriteSeg(c.disk, name, es), SealedManifest(c, name))
  }

  /** The published segment file of `es` reads back as `back`. */
  function SealedStore(c: Store, name: Name, es: seq<Numbered>, back: seq<Numbered>): Store {
    var d := Published(c, name, es);
    Store(Sealed(c.mem, back), RemoveSegs(d, d.segs.Keys - {name}))
  }

  /** A record that does not encode ends it before anything is written, a segment that does not open after
      the manifest is published; the memory tier then keeps what it had. */
  function Seal(c: Store, name: Name, es: seq<Numbered>): (Store, Outcome) {
    var m := c.mem.(generation := c.mem.generation + 1);
    if !AllEncode(es) then (Store(m, c.disk), Err(Schema)) else
    match Open(FileBytes(es))
    case Err(_) => (Store(m, Published(c, name, es)), Err(Error.Segment))
    case Ok(back) => (SealedStore(c, name, es, back), Ok(c.mem.committedSeq))
  }

  function Checkpoint(s: Store, name: Name, es: seq<Numbered>): (Store, Outcome) {
    Seal(CommitLog(s), name, es)
  }

  // --- open ---

  predicate SegsOpen(m: Manifest, segs: map<Name, seq<byte>>) {
    forall i | 0 <= i < |m.segments| :: m.segments[i] in segs && Open(segs[m.segments[i]]).Ok?
  }

  function SegsOf(m: Manifest, segs: map<Name, seq<byte>>): seq<seq<Numbered>>
    requires SegsOpen(m, segs)
  {
    seq(|m.segments|, i requires 0 <= i < |m.segments| => Open(segs[m.segments[i]]).value)
  }

  /** No manifest, or one that the log and the segment files do not support. */
  predicate Unsupported(manifest: Option<Manifest>, segs: map<Name, seq<byte>>, barrier: nat) {
    manifest.None? || manifest.value.checkpointSeq > barrier || !SegsOpen(manifest.value, segs)
  }

  predicate Rebuilds(d: Disk) {
    Unsupported(d.manifest, d.segs, LastBarrier(d.log))
  }

  /** A manifest of records must say what kind their ids are. */
  predicate Readable(m: Manifest) {
    m.dim > 0 || m.segments != [] ==> m.idKind.Some?
  }

  /** The memory tier before replay: what the manifest seals, or nothing. */
  function StartMem(manifest: Option<Manifest>, segs: map<Name, seq<byte>>, next: nat, barrier: nat): Mem {
    if Unsupported(manifest, segs, barrier) then
      Mem(0, None, None, [], map[], 0, 0, map[], false, false, next, barrier)
    else
      var m := manifest.value;
      var sealed := SegsOf(m, segs);
      Mem(m.dim, if m.dim > 0 || m.segments != [] then m.idKind else None, m.metric, sealed, SegLiveOf(Flat(sealed)),
          m.checkpointSeq, m.generation, map[], false, false, next, barrier)
  }

  function Replayed(m: Mem, e: Numbered): Result<Mem, Error> {
    var t := if m.dim == 0 then m.(dim := |e.1.vector|) else m;
    if |e.1.vector| != t.dim then Err(Schema)
    else if t.idKind.Some? && t.idKind.value != KindOf(IdOf(e)) then Err(Schema)
    else Ok(t.(idKind := Some(KindOf(IdOf(e))), l0 := t.l0[IdOf(e) := e]))
  }

  /** Records above the checkpoint go to L0, the rest are already sealed. */
  function Replay(m: Mem, rs: seq<Numbered>): Result<Mem, Error> {
    if rs == [] then Ok(m) else
    var t :- Replay(m, rs[..|rs| - 1]);
    if rs[|rs| - 1].0 > t.checkpointSeq then Replayed(t, rs[|rs| - 1]) else Ok(t)
  }

  /** The memory tier of an opened store, from what recovery of the log reports. */
  function OpenMem(manifest: Option<Manifest>, segs: map<Name, seq<byte>>, next: nat, barrier: nat,
                   rs: seq<Numbered>): Result<Mem, Error> {
    if !Unsupported(manifest, segs, barrier) && !Readable(manifest.value) then Err(Error.Segment)
    else Replay(StartMem(manifest, segs, next, barrier), rs)
  }

  function HonestManifest(m: Mem): Manifest {
    Manifest(m.generation, 0, m.dim, m.idKind, m.metric, [])
  }

  /** The opened store; an error leaves only the log recovery done, and not even that when the log is refused. */
  function OpenStore(d: Disk): (Disk, Result<Mem, Error>) {
    if !AllDecode(d.log) then (d, Err(Error.Wal)) else
    var kept := KeptLog(d);
    match OpenMem(d.manifest, d.segs, NextSeq(d.log), LastBarrier(d.log), RecordsOf(ReadBack(kept.log)))
    case Err(e) => (kept, Err(e))
    case Ok(m) =>
      if Rebuilds(d) then (RemoveSegs(Publish(kept, HonestManifest(m)), d.segs.Keys), Ok(m)) else (kept, Ok(m))
  }
}
