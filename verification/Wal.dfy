/** The write-ahead log: append, commit barrier, and recovery that ends the log at its last barrier. */
module Wal {
  import opened Wrappers
  import opened Bytes
  import opened Records
  import Frames

  const HEADER_LEN: nat := 14
  const FIRST_SEQ: nat := 1
  const VERSION: nat := 2
  const MAGIC: seq<byte> := [0x4F, 0x4D, 0x56, 0x57]  // "OMVW"

  type Numbered = (nat, Record)

  /** What one frame of the log says. */
  datatype Entry = Write(sn: nat, record: Record) | Barrier(sn: nat)

  datatype Recovery = Recovery(
    committedSeq: nat,
    nextSeq: nat,
    startSeq: nat,
    records: seq<Numbered>,
    truncatedBytes: nat,
    validEnd: nat,
    droppedUncommitted: nat)

  function HeaderBytes(start: nat): (h: seq<byte>)
    ensures |h| == HEADER_LEN
  {
    MAGIC + LE(VERSION, 2) + LE(start, 8)
  }

  function ParseHeader(h: seq<byte>): Result<nat, Error>
    requires |h| == HEADER_LEN
  {
    if h[..4] != MAGIC then Err(Error.Wal)
    else if FromLE(h[4..6]) != VERSION then Err(Error.Wal)
    else if FromLE(h[6..]) == 0 then Err(Error.Wal)
    else Ok(FromLE(h[6..]))
  }

  function EntryFrame(e: Entry): Frames.Frame {
    match e
    case Write(sn, r) => Frames.Frame(Frames.Record, LE(sn, 8) + Body(r))
    case Barrier(sn) => Frames.Frame(Frames.Commit, LE(sn, 8))
  }

  // --- the recovery scan ---

  datatype Scan = Scan(
    records: seq<Numbered>,
    pending: seq<Numbered>,
    lastSeq: Option<nat>,
    committedSeq: nat,
    validEnd: nat,
    frameEnd: nat)

  const START_SCAN := Scan([], [], None, 0, HEADER_LEN, HEADER_LEN)

  function FrameSeq(payload: seq<byte>): Result<nat, Error> {
    if |payload| < 8 then Err(Error.Wal) else Ok(FromLE(payload[..8]))
  }

  function ScanStep(st: Scan, f: Frames.Frame, start: nat): Result<Scan, Error> {
    var sn :- FrameSeq(f.payload);
    var end := st.frameEnd + Frames.BASE + |f.payload|;
    if st.lastSeq.Some? && sn <= st.lastSeq.value then Err(Error.Wal)
    else if sn < start then Err(Error.Wal)
    else match f.kind
      case Record =>
        (match Decode(f.payload[8..])
         case Err(_) => Err(Error.Wal)
         case Ok(r) => Ok(st.(pending := st.pending + [(sn, r)], lastSeq := Some(sn), frameEnd := end)))
      case Commit =>
        if |f.payload| != 8 then Err(Error.Wal)
        else Ok(Scan(st.records + st.pending, [], Some(sn), sn, end, end))
      case Checkpoint => Ok(st.(lastSeq := Some(sn), frameEnd := end))
  }

  function ScanAll(fs: seq<Frames.Frame>, start: nat): Result<Scan, Error>
    decreases |fs|
  {
    if fs == [] then Ok(START_SCAN) else
    var st :- ScanAll(fs[..|fs| - 1], start);
    ScanStep(st, fs[|fs| - 1], start)
  }

  function Summary(st: Scan, start: nat, size: nat): Recovery
    requires st.validEnd <= size
  {
    Recovery(st.committedSeq, if st.lastSeq.Some? then st.lastSeq.value + 1 else start, start,
             st.records, size - st.validEnd, st.validEnd, |st.pending|)
  }

  /** Every scan position is inside the bytes that were decoded. */
  lemma {:induction false} ScanEnds(fs: seq<Frames.Frame>, start: nat)
    requires ScanAll(fs, start).Ok?
    ensures var st := ScanAll(fs, start).value;
      st.frameEnd == HEADER_LEN + |Frames.EncodeAll(fs)| && HEADER_LEN <= st.validEnd <= st.frameEnd
    decreases |fs|
  {
    hide Frames.Encode, Frames.EncodeAll, Records.Decode, FromLE;
    if fs == [] {
      assert Frames.EncodeAll(fs) == [] by { Frames.EncodeNone(); }
    } else {
      var last := |fs| - 1;
      ScanEnds(fs[..last], start);
      Frames.EncodeAllAppend(fs[..last], [fs[last]]);
      Frames.EncodeOne(fs[last]);
      assert fs == fs[..last] + [fs[last]];
    }
  }

  lemma DecodedSize(buf: seq<byte>)
    ensures |Frames.EncodeAll(Frames.Decode(buf).0)| <= |buf|
  {
    Frames.DecodeSound(buf);
  }

  /** What recovery reports, and the bytes it leaves in the file. */
  function Recover(bytes: seq<byte>): (r: Result<(Recovery, seq<byte>), Error>)
  {
    if |bytes| < HEADER_LEN then
      if bytes <= HeaderBytes(FIRST_SEQ)
      then Ok((Recovery(0, FIRST_SEQ, FIRST_SEQ, [], 0, HEADER_LEN, 0), HeaderBytes(FIRST_SEQ)))
      else Err(Error.Wal)
    else
      var start :- ParseHeader(bytes[..HEADER_LEN]);
      var fs := Frames.Decode(bytes[HEADER_LEN..]).0;
      var st :- ScanAll(fs, start);
      ScanEnds(fs, start);
      DecodedSize(bytes[HEADER_LEN..]);
      Ok((Summary(st, start, |bytes|), bytes[..st.validEnd]))
  }

  // --- the file and the handle ---

  /** The log file: what the system would read back, and how much of it a crash cannot take away. */
  class LogFile {
    var bytes: seq<byte>
    var synced: nat

    constructor ()
      ensures bytes == [] && synced == 0
    {
      bytes, synced := [], 0;
    }

    method Write(data: seq<byte>)
      modifies this
      ensures bytes == old(bytes) + data && synced == old(synced)
    {
      bytes := bytes + data;
    }

    /** Seek to the start and write over what is there. */
    method Overwrite(data: seq<byte>)
      requires |bytes| <= |data|
      modifies this
      ensures bytes == data && synced == old(synced)
    {
      bytes := data;
    }

    method SetLen(n: nat)
      requires n <= |bytes|
      modifies this
      ensures bytes == old(bytes)[..n] && synced == (if old(synced) < n then old(synced) else n)
    {
      bytes := bytes[..n];
      synced := if synced < n then synced else n;
    }

    method Sync()
      modifies this
      ensures bytes == old(bytes) && synced == |bytes|
    {
      synced := |bytes|;
    }
  }

  /** Recovery leaves an error log untouched; otherwise the file ends at the last barrier. */
  method OpenOrRecover(file: LogFile) returns (res: Result<Recovery, Error>)
    modifies file
    ensures res.Err? == Recover(old(file.bytes)).Err?
    ensures res.Err? ==> file.bytes == old(file.bytes) && file.synced == old(file.synced)
    ensures res.Ok? ==>
      && res.value == Recover(old(file.bytes)).value.0
      && file.bytes == Recover(old(file.bytes)).value.1
      && (|old(file.bytes)| < HEADER_LEN || res.value.truncatedBytes > 0 ==> file.synced == |file.bytes|)
      && (|old(file.bytes)| >= HEADER_LEN && res.value.truncatedBytes == 0 ==> file.synced == old(file.synced))
  {
    hide Records.Decode, Frames.First, Frames.Decode, Frames.EncodeAll, ParseHeader, ScanStep, HeaderBytes;
    if |file.bytes| < HEADER_LEN {
      var wanted := HeaderBytes(FIRST_SEQ);
      if !(file.bytes <= wanted) {
        return Err(Error.Wal);
      }
      file.Overwrite(wanted);
      file.Sync();
      return Ok(Recovery(0, FIRST_SEQ, FIRST_SEQ, [], 0, HEADER_LEN, 0));
    }
    var header := ParseHeader(file.bytes[..HEADER_LEN]);
    if header.Err? {
      return Err(Error.Wal);
    }
    var start := header.value;
    var fs, _ := Frames.DecodeFrames(file.bytes[HEADER_LEN..]);
    var st := START_SCAN;
    assert fs[..0] == [];
    for i := 0 to |fs|
      invariant ScanAll(fs[..i], start) == Ok(st)
      invariant file.bytes == old(file.bytes) && file.synced == old(file.synced)
    {
      assert fs[..i + 1][..i] == fs[..i];
      var next := RecoverFrame(st, fs[i], start);
      if next.Err? {
        ErrorSticks(fs, i + 1, start);
        return Err(Error.Wal);
      }
      st := next.value;
    }
    assert fs[..|fs|] == fs;
    ScanEnds(fs, start);
    DecodedSize(file.bytes[HEADER_LEN..]);
    var truncated := |file.bytes| - st.validEnd;
    var next := if st.lastSeq.Some? then st.lastSeq.value + 1 else start;
    if truncated > 0 {
      file.SetLen(st.validEnd);
      file.Sync();
    } else {
      assert file.bytes[..st.validEnd] == file.bytes;
    }
    return Ok(Recovery(st.committedSeq, next, start, st.records, truncated, st.validEnd, |st.pending|));
  }

  lemma {:induction false} ErrorSticks(fs: seq<Frames.Frame>, i: nat, start: nat)
    requires i <= |fs| && ScanAll(fs[..i], start).Err?
    ensures ScanAll(fs, start).Err?
    decreases |fs| - i
  {
    if i == |fs| {
      assert fs[..i] == fs;
    } else {
      assert fs[..i + 1][..i] == fs[..i];
      ErrorSticks(fs, i + 1, start);
    }
  }

  /** The body of the recovery loop, one frame. */
  method RecoverFrame(st: Scan, f: Frames.Frame, start: nat) returns (res: Result<Scan, Error>)
    ensures res.Err? == ScanStep(st, f, start).Err?
    ensures res.Ok? ==> res == ScanStep(st, f, start)
  {
    hide Records.Decode;
    if |f.payload| < 8 {
      return Err(Error.Wal);
    }
    var sn := FromLE(f.payload[..8]);
    if st.lastSeq.Some? && sn <= st.lastSeq.value {
      return Err(Error.Wal);
    }
    if sn < start {
      return Err(Error.Wal);
    }
    var next := st;
    match f.kind {
      case Record =>
        var r := DecodeRecord(f.payload[8..]);
        if r.Err? {
          return Err(Error.Wal);
        }
        next := next.(pending := next.pending + [(sn, r.value)]);
      case Commit =>
        if |f.payload| != 8 {
          return Err(Error.Wal);
        }
        next := next.(committedSeq := sn, records := next.records + next.pending);
        next := next.(pending := [], validEnd := next.frameEnd + Frames.BASE + |f.payload|);
      case Checkpoint =>
    }
    next := next.(frameEnd := next.frameEnd + Frames.BASE + |f.payload|, lastSeq := Some(sn));
    return Ok(next);
  }

  /** An open log. */
  class Wal {
    const file: LogFile
    var startSeq: nat
    var nextSeq: nat
    var committedSeq: nat

    constructor (file: LogFile, r: Recovery)
      ensures this.file == file
      ensures startSeq == r.startSeq && nextSeq == r.nextSeq && committedSeq == r.committedSeq
    {
      this.file := file;
      startSeq, nextSeq, committedSeq := r.startSeq, r.nextSeq, r.committedSeq;
    }

    /** A record that does not encode leaves no trace; otherwise its frame is appended, not yet durable. */
    method Append(record: Record) returns (res: Result<nat, Error>)
      modifies this, file
      ensures res.Ok? == Encode(record).Ok?
      ensures res.Err? ==> file.bytes == old(file.bytes) && nextSeq == old(nextSeq)
      ensures res.Ok? ==>
        && res.value == old(nextSeq) && nextSeq == old(nextSeq) + 1
        && file.bytes == old(file.bytes) + Frames.Encode(EntryFrame(Write(old(nextSeq), record)))
      ensures file.synced == old(file.synced)
      ensures startSeq == old(startSeq) && committedSeq == old(committedSeq)
    {
      hide Frames.Encode, Records.Body, LE;
      var payload := EncodeRecord(record);
      if payload.Err? {
        return Err(payload.error);
      }
      var sn := nextSeq;
      var frame := Frames.EncodeFrame(Frames.Frame(Frames.Record, LE(sn, 8) + payload.value), []);
      assert frame == Frames.Encode(EntryFrame(Write(sn, record)));
      file.Write(frame);
      nextSeq := nextSeq + 1;
      return Ok(sn);
    }

    /** The barrier is appended and the whole file synced. */
    method Commit() returns (sn: nat)
      modifies this, file
      ensures sn == old(nextSeq) && nextSeq == sn + 1 && committedSeq == sn && startSeq == old(startSeq)
      ensures file.bytes == old(file.bytes) + Frames.Encode(EntryFrame(Barrier(sn)))
      ensures file.synced == |file.bytes|
    {
      hide Frames.Encode, LE;
      sn := nextSeq;
      var frame := Frames.EncodeFrame(Frames.Frame(Frames.Commit, LE(sn, 8)), []);
      assert frame == Frames.Encode(EntryFrame(Barrier(sn)));
      file.Write(frame);
      file.Sync();
      nextSeq := nextSeq + 1;
      committedSeq := sn;
    }
  }
}
