# An embedded vector store, modelled and proved

This project models the storage engine under `crates/engine/src` and proves what it promises: a durable
store of records with ids, vectors, text and metadata; a write-ahead log; sealed segment files and a
manifest; an HNSW graph; exact, segmented, text and fused search; and the parser of where-strings.
`dafny verify dfyconfig.toml` checks everything.

## How the model is laid out

* **Formats.** `Bytes`, `Crc`, `Frames`, `Records` and `Segments` are the byte formats. Reading and writing are
  methods that loop over buffers and offsets, each tied to a function on byte strings; `RecordLaws` and the second
  half of `Frames` and `Segments` prove what those functions mean to each other. `FormatLaws` says where every field
  of a record stands, `DecodeLaws` exactly which bytes decode as records, `RecoveryLaws` exactly which log and
  segment files are read, `Utf8Laws` exactly which byte strings are text. The checksum is CRC-32C of section 13.1 of
  RFC 7143 with the frame kind chained in front of the payload, on a register of 32 booleans; `CrcRemainder` proves
  it the remainder of polynomial division.
* **The log.** `Wal` is the log file and its handle, with the recovery loop. `WalLaws` says what recovery returns
  for a written log cut anywhere and for a log that was recovered before. `WalRuns` is a state machine over
  appends, the two halves of a commit, crashes that keep any prefix of the unsynced bytes, and recoveries; the
  methods of the log object are proved to take its steps.
* **The store.** `Views` is the specification: a log of `(sequence number, record)`, last write per id wins,
  tombstones remove. `StoreModel` gives every operation as a function on memory tier and directory, with every
  refusal; a directory is its log entries, the number of them no crash takes away, a manifest, and the bytes of
  its segment files. `StoreLaws` and `StoreRuns` prove the layered form equal to the specification step by step.
  `StoreDurable` is what survives the process, for any directory that can be opened: what opening shows is the
  sealed entries overlaid with what the log says since. `StoreOps` has the operations, power failures between and
  inside them (a barrier written and not synced, each effect of a checkpoint, a rebuild) and runs; `StoreOrigins`
  follows every shown record back to the write it came from; `StoreHistory` says what every reopening of every run
  shows, and what clean runs show at every moment. `StoreSchema` says which writes are accepted, over every run.
  `StoreFiles` proves that opening the bytes of the log file, cut
  anywhere, is opening the entries, and says exactly when a committed store comes back. `StoreImpl` is the store as
  an object whose methods update fields and directory, each proved to do what `StoreModel` says.
* **Search.** `Hnsw` is the graph (levels are inputs, distances are integers and so an arbitrary total order).
  `Search` and `SearchLaws` are exact search and the merge of per-tier pools. `Bm25` and `Bm25Rank` are the
  inverted index and its ranking, `Fusion` is reciprocal rank fusion, both in exact arithmetic.
* **Filters.** `FilterParse` is the parser as readers of a byte string, `FilterParser` the same as an object with a
  cursor. `FilterSpelling` and `FilterGrammar` are the grammar as syntax trees that keep every choice of spelling, and
  prove that the parser accepts exactly what they write; `FilterPrint` is a printer with as few parentheses as the
  grammar allows. `FilterEval` is the meaning of filters, `FilterLaws` says what they accept in terms of a record's
  entries.

## What the proofs turned up

* A record round-trips exactly when it is within bounds the encoder does not check: a string id shorter than
  65536 bytes, fewer than 65536 metadata entries, and a text whose length is not 0xFFFFFFFF
  (`RecordLaws.RoundTripIff`, with an id that is lost in `RecordLaws.LongIdIsLost`). A log comes back with exactly
  its committed records if and only if each of them is within these bounds and what was written since the last
  barrier decodes (`WalLaws.RecoversExactlyIff`).
* So a store that accepts and commits a record outside the bounds does not come back: it does not open, or opens
  without that record (`StoreFiles.CommittedReopensIff` for one write, `StoreFiles.CommittedRunReopensIff` for any
  sequence of them, `StoreFiles.LongIdDoesNotReopen` for the input). The theorems about runs of the store are
  about writes that `encode` refuses or that are within the bounds.
* After a rollback the store in memory shows the acknowledged view exactly when no discarded write displaced an
  acknowledged version from L0 (`StoreRuns.RollbackLaw`). The directory is not harmed: committing and reopening
  shows the acknowledged view (`StoreRuns.RollbackThenCommitReopens`). A checkpoint then makes the loss permanent:
  reopening shows the acknowledged view if and only if the rollback was harmless, or the checkpoint too large for
  its segment to open (`StoreHistory.RollbackThenCheckpointIff`, with an input in
  `StoreRuns.RollbackThenCheckpointForgets`). Over every run a reopening shows what memory showed at the last
  published checkpoint, overlaid with the acknowledged writes since (`StoreHistory.ReopensOverRuns`), which is the
  acknowledged view when each checkpoint sealed the view of the log (`StoreHistory.SealedRunReopens`). What a
  rollback discarded never comes back in any case (`StoreOrigins.DiscardedStaysAway`).
* The first accepted write fixes dimension and id kind until the store is opened anew. Not even rolling that write
  back, or failing inside its transaction, takes them back: the empty store goes on refusing other records
  (`StoreSchema.AcceptedSchemaStays`).
* A checkpoint of a store that was never written leaves a manifest that no longer opens
  (`StoreRuns.EmptyCheckpointDoesNotReopen`); checkpointed directories open exactly when an id kind was set
  (`StoreRuns.CheckpointLaw`).
* With room for every entry, segmented search answers with a k best of the merged view if and only if every sealed
  version that L0 has replaced is strictly outscored by a live replacement (`SearchLaws.SearchIsOracleIff`); that is
  enough in any pool (`SearchLaws.SearchIsOracle`), and holds when no id is in both tiers. Otherwise the replaced or
  deleted version itself is in the answer (`SearchLaws.SearchGoesStale`), for any id in both tiers when the query
  scores all vectors alike (`SearchLaws.LevelQueryGoesStale`). The scores are still those of the scan exactly when
  each such version scores no better than a live replacement (`SearchLaws.ScoresAgreeIff`).
* A segment file keeps its entry count in 32 bits and does not open with more entries
  (`Segments.SegmentRoundTrip`); a checkpoint of so large a view fails after publishing its manifest
  (`StoreRuns.CheckpointLaw`).
* A second recovery reports the same next sequence number exactly when the first one dropped nothing
  (`WalLaws.NextSeqStays`).
* The comment on frame kinds in `codec.rs` says that unknown kinds are skipped during replay; the code ends
  decoding at the first one, so recovery cuts off whatever follows (`Frames.UnknownKindEnds`).
* The comment on string escapes in `filter/parse.rs` says that a doubled quote is accepted; the code ends the
  string there (`FilterPrint.DoubledQuoteEnds`). The comment on `Neq` in `filter/mod.rs` says that it differs from
  NOT Eq on an absent field; in the code they agree on every record (`FilterEval.NotInIsNoneOf`, for lists of values).
* The grammar that `filter/parse.rs` accepts is stated whole in `FilterGrammar.ParserReadsGrammar`. What its comment
  does not say: no field may be named NOT in any case; the numbers behind `<`, `<=`, `>` and `>=` may have a plus sign
  or start with the dot, which literals may not; and integers too large for 64 bits are doubles there and refused
  elsewhere.
* A range between two doubles leaves out a double between them when both bounds are integers and it is none
  (`FilterLaws.DoubleRangeIff`).
* The comment on `crc32c` in `codec.rs` gives 0xE3069283 for kind 0 and "123456789", the known value of the nine
  bytes alone; the code takes the kind byte in as well, as the vectors further down in that file have it, and so
  does the model.
* Printing and parsing undo each other exactly when no field is named NOT in some case (`FilterPrint.ParsePrint`).

## Model

| member | source | states |
|---|---|---|
| Crc.ComputeCrc32c | crates/engine/src/codec.rs:112-122 | the table-free loop computes the register function over kind byte and payload |
| Crc.BitStepInjective | crates/engine/src/codec.rs:115-119 | one shift step is a bijection: equal outcomes come from equal registers |
| Crc.ByteStepInjective | crates/engine/src/codec.rs:114-119 | a byte step is injective in the register for a fixed byte and in the byte for a fixed register |
| Crc.KindChangesCrc | crates/engine/src/codec.rs:112-122 | another kind byte over the same payload always has another checksum |
| Crc.PayloadChangesCrc | crates/engine/src/codec.rs:112-122 | changing any one payload byte always changes the checksum |
| CrcRemainder.ChecksumIsRemainder | crates/engine/src/codec.rs:107-122 | message and inverted checksum, as polynomials over the two-element field, differ by a multiple of the generator of CRC-32C, and the checksum is below its degree |
| CrcRemainder.PolyIsGenerator | crates/engine/src/codec.rs:16 | the reflected constant of the shift step is 0x1EDC6F41, term by term |
| Frames.EncodeFrame | crates/engine/src/codec.rs:48-55 | appends exactly one encoded frame to the buffer |
| Frames.DecodeFrames | crates/engine/src/codec.rs:76-105 | the loop returns the frames and consumed bytes of the decoding function on any input |
| Frames.Layout | crates/engine/src/codec.rs:5-14 | length prefix, kind, payload and checksum stand at their offsets and read back |
| RecoveryLaws.FrameKinds | crates/engine/src/codec.rs:27-33 | the kind byte is 1 for a record, 2 for a commit, 3 for a checkpoint |
| Frames.DecodeAppend | crates/engine/src/codec.rs:76-105 | frames followed by anything decode to those frames followed by what the rest decodes to |
| Frames.RoundTrip | crates/engine/src/codec.rs:48-105 | any list of frames that fit their prefix decodes back, every byte consumed |
| Frames.TornTail | crates/engine/src/codec.rs:66-75 | frames and any strict prefix of one more frame decode to exactly the frames, consumed at their end, whatever the checksum |
| Frames.UnknownKindEnds | crates/engine/src/codec.rs:86-88 | a frame of an unknown kind ends decoding at the frames before it, whatever follows |
| Frames.DecodePrefix | crates/engine/src/codec.rs:66-105 | an encoded list cut at any byte decodes to the longest whole prefix of the list |
| Frames.DecodeSound | crates/engine/src/codec.rs:76-105 | for any bytes, what is consumed is exactly the encoding of what is returned |
| Frames.DamageIsDetected | crates/engine/src/codec.rs:76-105 | altering any one byte of a frame after its length prefix ends decoding at the frames before it |
| Records.EncodeRecord | crates/engine/src/records.rs:250-303 | the buffer-building loops produce the record format or the same refusal |
| Records.DecodeRecord | crates/engine/src/records.rs:305-367 | the offset-advancing reader returns the record of the format function or the same refusal |
| Records.DecodeId | crates/engine/src/records.rs:64-77 | reads an id at an offset and advances by exactly the bytes the format gives it |
| Records.DecodeValue | crates/engine/src/records.rs:162-185 | reads a metadata value at an offset and advances by exactly its bytes |
| Records.TakeSlice | crates/engine/src/records.rs:410-418 | bounds-checked slice: refuses exactly when the bytes are not there |
| Records.TakeNum | crates/engine/src/records.rs:374-408 | fixed-width little-endian reads: the number and the advance, or a refusal at the end of the payload |
| Records.TakeText | crates/engine/src/records.rs:64-77 | a slice that must be UTF-8, or a refusal |
| Records.DecodeVector | crates/engine/src/records.rs:314-325 | the loop reads exactly the declared number of finite components |
| Records.DecodeMeta | crates/engine/src/records.rs:346-354 | the loop reads exactly the declared number of key-value entries |
| Bytes.LEBytes | crates/engine/src/records.rs:250-303 | byte i of a number is its quotient by 256^i modulo 256: the lowest byte first |
| Utf8Laws.ValidIff | crates/engine/src/records.rs:64-77 | a byte string is text if and only if it encodes a sequence of Unicode scalar values |
| FormatLaws.RecordHead | crates/engine/src/records.rs:265-268 | lifecycle, id with its tag, and dimension stand at their offsets and read back |
| FormatLaws.RecordVector | crates/engine/src/records.rs:269-276 | component i stands four bytes wide at its offset |
| FormatLaws.RecordTail | crates/engine/src/records.rs:277-300 | norm and text length with all ones for none, the text, the number of entries, then the entries |
| FormatLaws.EntryLayout | crates/engine/src/records.rs:296-300 | an entry is its key behind the key's length, its value, and the entries after it |
| FormatLaws.ValueLayout | crates/engine/src/records.rs:128-160 | each type of value has its tag, and its bits in two's complement or IEEE form, or its length and bytes |
| FormatLaws.FiniteIff | crates/engine/src/records.rs:269-286 | a 32-bit pattern is finite if and only if its magnitude is below that of infinity |
| RecordLaws.RecordBack | crates/engine/src/records.rs:250-367 | self-delimiting: an encoding followed by anything reads back the record bit for bit and leaves the rest |
| RecordLaws.RoundTripIff | crates/engine/src/records.rs:250-367 | for every record that encodes: decode gives it back if and only if id length, metadata count and text length are in bounds |
| RecordLaws.LongIdIsLost | crates/engine/src/records.rs:57-60 | a record that encodes and does not decode to itself |
| RecordLaws.DecodedInBounds | crates/engine/src/records.rs:305-367 | whatever bytes decode, the record is within the bounds and encodes again |
| RecordLaws.ExtraBytesRejected | crates/engine/src/records.rs:355-357 | bytes after any decodable record make decoding fail |
| RecordLaws.StrictPrefixRejected | crates/engine/src/records.rs:374-418 | no strict prefix of the encoding of an in-bounds record decodes |
| DecodeLaws.DecodeIff | crates/engine/src/records.rs:250-367 | for any bytes and record: decoding gives the record if and only if it is within the bounds and the bytes are its encoding, but that any byte except zero stands for true |
| DecodeLaws.ValueFound | crates/engine/src/records.rs:162-185 | whatever reads as a value is its encoding, but for other bytes for true |
| Wal.Wal.Append | crates/engine/src/wal.rs:141-152 | a record that does not encode leaves no trace; otherwise its frame is appended, unsynced, under the next number |
| Wal.Wal.Commit | crates/engine/src/wal.rs:156-166 | the barrier is appended and the whole file becomes safe from crashes |
| Wal.OpenOrRecover | crates/engine/src/wal.rs:229-354 | recovery reports and truncates as the scan function says; on an error the file is untouched; what it cut or created is synced |
| Wal.RecoverFrame | crates/engine/src/wal.rs:265-330 | one frame of the recovery loop: pending batch, barrier, checks of order and of frame bodies |
| RecoveryLaws.HeaderIff | crates/engine/src/wal.rs:198-226 | a header is accepted if and only if it is "OMVW", version 2 and a start number that is not zero |
| RecoveryLaws.ScanIff | crates/engine/src/wal.rs:265-330 | a scan succeeds if and only if every frame holds a number from the start one on, a record that decodes or nothing more in a barrier, and the numbers strictly rise |
| RecoveryLaws.ScanMeaning | crates/engine/src/wal.rs:262-340 | what a scan keeps are the records up to the last barrier, checkpoint frames skipped; the others are pending |
| RecoveryLaws.RecoverMeaning | crates/engine/src/wal.rs:229-354 | for any bytes as long as a header: accepted if and only if header and whole frames are, and then exactly which records, numbers and bytes are reported and left |
| WalLaws.ScanFramed | crates/engine/src/wal.rs:262-332 | scanning a log of encodable records fails if and only if one does not decode, and otherwise collects what the records up to the last barrier decode to, the rest pending |
| WalLaws.RecoverFramed | crates/engine/src/wal.rs:229-354 | such a log cut at any byte: refused if and only if a whole frame holds a record that does not decode, else exactly what the last whole barrier covers, as it decodes |
| WalLaws.RecoverCut | crates/engine/src/wal.rs:229-354 | a written log cut at any byte recovers: exactly the batches whose barrier is whole, nothing else, and the file ends there |
| WalLaws.RecoverWhole | crates/engine/src/wal.rs:229-354 | a whole log of encodable records is refused if and only if one does not decode; otherwise it gives what the committed batches decode to and is cut back to its last barrier |
| WalLaws.RecoversExactlyIff | crates/engine/src/wal.rs:141-354 | any log of encodable records in frames that fit comes back with exactly its committed records if and only if each of them is in bounds and each later one decodes |
| WalLaws.RecoveredSeqs | crates/engine/src/wal.rs:286-332 | for any bytes that recover, numbers strictly increase, from the start number and below the next one |
| WalLaws.RecoverTwice | crates/engine/src/wal.rs:229-354 | recovery is idempotent on any bytes: same records, barrier and end, nothing more cut |
| WalLaws.NextSeqStays | crates/engine/src/wal.rs:332-340 | the next number survives a second recovery if and only if nothing was dropped by the first |
| WalRuns.RecoverySafe | crates/engine/src/wal.rs:229-354 | in every reachable state recovery succeeds and returns the kept history, plus the in-flight batch if its barrier landed whole |
| WalRuns.StepInv | crates/engine/src/wal.rs:141-354 | every append, barrier write, sync, crash at any byte and recovery keeps the log invariant |
| WalRuns.CrashSafety | crates/engine/src/wal.rs:229-354 | over every run: recovered records are all acknowledged ones plus at most one whole in-flight batch |
| WalRuns.AcknowledgedStays | crates/engine/src/wal.rs:156-354 | the records recovered from the bytes when a sync returned are a prefix of those recovered from the bytes of every later state |
| WalRuns.DroppedStaysDropped | crates/engine/src/wal.rs:286-354 | a record that recovery does not return after a reopening is in no later recovery's records unless an append in between wrote it again under that number |
| WalRuns.AppendStep | crates/engine/src/wal.rs:141-152 | the append of the log object is one step of the run, or is refused and none |
| WalRuns.CommitSteps | crates/engine/src/wal.rs:156-166 | its commit is the two steps of barrier and sync |
| WalRuns.ReopenStep | crates/engine/src/wal.rs:229-354 | opening the file in any reachable state is the recovery step, and is not refused |
| Segments.WriteSegment | crates/engine/src/segments.rs:193-222 | of ascending entries: the file content, or the encoder's refusal exactly when a record does not encode; lists that do not strictly ascend are refused |
| Segments.OpenSegment | crates/engine/src/segments.rs:118-184 | the reading loop opens exactly what the format function opens |
| Segments.OpenEntry | crates/engine/src/segments.rs:152-176 | one frame of the reading loop: kind, number and record body, or the refusal |
| Segments.SegmentRoundTrip | crates/engine/src/segments.rs:118-222 | every sealable list reads back entry for entry if and only if its count fits 32 bits, and else does not open |
| Segments.TornSegmentRejected | crates/engine/src/segments.rs:118-184 | no strict prefix of a segment file opens |
| Segments.TrailingBytesRejected | crates/engine/src/segments.rs:118-184 | no segment file with bytes after its last frame opens |
| RecoveryLaws.OpenIff | crates/engine/src/segments.rs:118-184 | any bytes open as a list of entries if and only if they are "OMVS", version 2, a count below 2^32 and that many frames of those entries in rising order, and nothing else |
| Views.ViewMeaning | crates/engine/src/store.rs:571-598 | a log's view shows a record under its id if and only if it is the last of that id and live |
| StoreLaws.MergedIsView | crates/engine/src/store.rs:571-598 | segments and L0 together show exactly the last-write-wins live view of the whole log |
| StoreLaws.UpsertInv | crates/engine/src/store.rs:452-472 | an upsert keeps the invariant; a refused one changes nothing, an accepted one logs its record |
| StoreLaws.DeleteInv | crates/engine/src/store.rs:477-490 | delete succeeds if and only if the id is in the view of the log, and logs a tombstone |
| StoreLaws.AddInv | crates/engine/src/store.rs:434-446 | a batch logs its records in order up to the first that is rejected, with that record's refusal, succeeds if and only if it is not empty and none is, and then returns the number of the last |
| StoreLaws.CommitLogInv | crates/engine/src/store.rs:526-528 | a commit covers the whole log and changes no record |
| StoreLaws.PointReads | crates/engine/src/store.rs:560-565 | liveness is membership in the merged view, and the shown version is L0's or else the sealed one |
| StoreLaws.OpenLaw | crates/engine/src/store.rs:196-363 | opening a truthful directory of in-bounds records succeeds if and only if its manifest is readable, and gives a store in the invariant over the committed log |
| StoreLaws.CrashOpens | crates/engine/src/store.rs:196-363 | after a crash that keeps any number of unsynced entries, the next open shows the view of the log up to the last surviving barrier |
| StoreLaws.FastPathIsRebuild | crates/engine/src/store.rs:234-283 | opening by manifest and opening by full rebuild show the same view |
| StoreDurable.OpenSound | crates/engine/src/store.rs:196-363 | opening any sound directory succeeds unless its manifest is the unreadable one, and shows the sealed entries overlaid with what the kept log says since the checkpoint |
| StoreDurable.CrashSound | crates/engine/src/store.rs:196-363 | the same after a crash that keeps any number of unsynced entries, over the log up to the last surviving barrier |
| StoreDurable.TruthRecalls | crates/engine/src/store.rs:196-363 | for a manifest that seals the view of its part of the log, that overlay is the view of the log, for every log that keeps the acknowledged part |
| StoreDurable.RecallsViewIff | crates/engine/src/store.rs:196-363 | in general it is if and only if the sealed entries agree with the view on every id not written since the checkpoint |
| StoreRuns.CheckpointLaw | crates/engine/src/store.rs:931-980 | a checkpoint keeps view and records and is refused only for 2^32 records or more; otherwise it keeps the invariant, empties L0, leaves one segment, and opens again if and only if an id kind is set |
| StoreHistory.CheckpointCrashSafe | crates/engine/src/store.rs:931-980 | in a store of a clean run, a crash at any durable point inside a checkpoint, collection half done included, reopens to all writes if the barrier survived, to the acknowledged ones otherwise |
| StoreRuns.CheckpointDetermined | crates/engine/src/store.rs:931-946 | the entries a checkpoint seals, and so its segment file, are determined by the merged view |
| StoreRuns.CheckpointSeals | crates/engine/src/store.rs:931-980 | a checkpoint of any durable store whose memory holds records of the log keeps its durable half, and reopening starts from what was sealed, or from the log alone when the segment does not open |
| StoreRuns.EmptyCheckpointDoesNotReopen | crates/engine/src/store.rs:256-262 | a checkpoint of a fresh store is refused by the next open |
| StoreRuns.RebuildCrashSafe | crates/engine/src/store.rs:332-354 | a crash anywhere inside the rebuild reopens to the same committed view, whatever the manifest was |
| StoreRuns.RollbackLaw | crates/engine/src/store.rs:513-523 | rollback succeeds and restores the durable log; memory shows the acknowledged view if and only if no discarded write displaced an acknowledged L0 version |
| StoreRuns.RollbackDurable | crates/engine/src/store.rs:513-523 | any rollback, harmful or not, keeps what reopening relies on, over exactly the acknowledged log |
| StoreRuns.RollbackThenCommitReopens | crates/engine/src/store.rs:506-528 | after any rollback in a store of a clean run, a commit and reopening shows exactly the acknowledged view: no discarded record resurrects |
| StoreRuns.RollbackThenCheckpointForgets | crates/engine/src/store.rs:513-523 | the input that loses: commit, overwrite, roll back, checkpoint, reopen, and an acknowledged record is gone |
| StoreHistory.UpsertReplaces | crates/engine/src/store.rs:452-472 | an accepted upsert changes the merged view at its id and nowhere else |
| StoreHistory.DeleteRemoves | crates/engine/src/store.rs:477-490 | delete succeeds if and only if the id is shown, and then removes just that id |
| StoreSchema.UpsertAccepts | crates/engine/src/store.rs:452-558 | an upsert is accepted if and only if the record encodes, has a vector, and has the store's dimension and id kind when these are set; the outcome is the next number |
| StoreSchema.NewStoreAccepts | crates/engine/src/store.rs:540-558 | a new store accepts every record that encodes and has a vector, and refuses every other |
| StoreSchema.ShownSchemaHolds | crates/engine/src/store.rs:452-472 | in every state of every run, a store that shows a record accepts exactly the records that encode and have its dimension and id kind |
| StoreSchema.AcceptedSchemaStays | crates/engine/src/store.rs:452-523 | over every run, after an accepted write the store accepts exactly the records like it until it is opened anew, whatever it rolls back |
| StoreSchema.DeleteWrites | crates/engine/src/store.rs:477-490 | a delete logs a tombstone with the id, a zero vector of the store's dimension and nothing else |
| StoreSchema.OneDimension | crates/engine/src/store.rs:605-633 | in every state of every run all vectors in every segment and in L0 have the store's dimension |
| StoreSchema.ReplayIff | crates/engine/src/store.rs:324-392 | replay succeeds if and only if the records above the checkpoint have one schema, the manifest's if it names one; L0 then holds the last of each id |
| StoreSchema.UnusableManifestIsIgnored | crates/engine/src/store.rs:234-354 | without a manifest, or with one ahead of the log or whose segments are missing or do not open, an opened store shows exactly the view of its log |
| StoreSchema.CheckpointPublishes | crates/engine/src/store.rs:931-980 | a checkpoint that succeeds publishes the next generation with the store's schema, its own barrier and its own segment, the only one left |
| StoreSchema.RebuildPublishes | crates/engine/src/store.rs:332-354 | a rebuild leaves a manifest of generation zero that seals nothing, and no segment |
| StoreSchema.GuardLaw | crates/engine/src/store.rs:492-538 | one guard at a time; inside it nothing commits by itself; committing or dropping it ends it and brings autocommit back |
| StoreSchema.OpenedWithoutGuard | crates/engine/src/store.rs:166-172 | an opened store has no guard and does not commit by itself |
| StoreHistory.StepDurable | crates/engine/src/store.rs:163-1036 | every operation, rollback, dropped guard, checkpoint after a first write and power failure keeps what reopening relies on, and only a published checkpoint changes what it starts from, to what memory showed |
| StoreHistory.ReopensOverRuns | crates/engine/src/store.rs:196-363 | over every run, whatever it rolls back and seals, a crash in any state reopens to what memory showed at the last published checkpoint overlaid with the acknowledged writes since |
| StoreHistory.SealedRunReopens | crates/engine/src/store.rs:196-363 | over every run in which each checkpoint sealed the view of the log, whatever was rolled back, a crash in any state reopens to exactly the view of the acknowledged writes |
| StoreHistory.CheckpointReopens | crates/engine/src/store.rs:931-980 | a checkpoint of any store of a run reopens to what memory showed, or to the view of the log when it was too large for its segment to open |
| StoreHistory.RollbackThenCheckpointIff | crates/engine/src/store.rs:513-523 | after a rollback and a checkpoint the store reopens to the acknowledged view if and only if no discarded write displaced an acknowledged L0 version, or the checkpoint was too large |
| StoreHistory.RunGood | crates/engine/src/store.rs:163-1036 | every state of every run of upserts, adds, deletes, commits, guards, harmless rollbacks, checkpoints, reopenings and crashes between and inside operations is in the invariant |
| StoreHistory.MergedViewOverRuns | crates/engine/src/store.rs:571-598 | over every such run the merged view is the live view of the log, and a crash in any state reopens to its acknowledged part |
| StoreHistory.CommitCrash | crates/engine/src/store.rs:526-528 | a crash between writing and syncing a commit's barrier recalls the whole log if the barrier survived and the acknowledged part otherwise; after the sync all of it is acknowledged |
| StoreHistory.CheckpointCrash | crates/engine/src/store.rs:931-980 | in any store of a run, a crash inside a checkpoint recalls the log or its acknowledged part before the manifest is published, and what memory showed after it |
| StoreHistory.UpsertCrash | crates/engine/src/store.rs:452-538 | a crash inside an autocommitted upsert: its record is there if and only if its barrier survived; when it returns, it is acknowledged |
| StoreHistory.DeleteCrash | crates/engine/src/store.rs:477-538 | a crash inside an autocommitted delete: the id is gone if and only if the barrier survived; when it returns, it is acknowledged |
| StoreHistory.AddCrash | crates/engine/src/store.rs:434-538 | a crash inside an autocommitted batch leaves a prefix of it: what came before the interrupted upsert is acknowledged, that one lands whole or not at all, the rest is not there |
| StoreHistory.TransactionAllOrNone | crates/engine/src/store.rs:1000-1036 | for the writes of a guard, and for those of a store without autocommit: a crash among them, a rollback, a dropped guard, or a crash in the commit that loses the barrier shows the acknowledged view from before them; with the barrier, and after the commit, all of the log |
| StoreOrigins.StepTraced | crates/engine/src/store.rs:163-1036 | over every operation and power failure, everything in either tier stays a record of the log, the acknowledged log grows, and new records are those the operation writes |
| StoreOrigins.NeverLost | crates/engine/src/store.rs:526-538 | over every run, harmful rollbacks included, the acknowledged log of any state is a prefix of that of every later state |
| StoreOrigins.RollbackDiscards | crates/engine/src/store.rs:506-523 | over every run, what a rollback or a dropped guard discarded is neither in the log nor shown afterwards, by the store or by one that reopens after a crash |
| StoreOrigins.DiscardedStaysAway | crates/engine/src/store.rs:506-523 | over every run, a record that is not in the log is shown by no later state or reopening unless an operation in between wrote it anew |
| StoreFiles.OpenBytes | crates/engine/src/store.rs:196-363 | a log file cut at any byte past the synced ones opens, files and result alike, as the directory of its whole entries |
| StoreFiles.OpenWhole | crates/engine/src/store.rs:196-363 | the same for opening the uncut files in process |
| StoreFiles.WritesAppendFrames | crates/engine/src/wal.rs:141-166 | a write and a barrier append exactly their frame to the log file, and a commit syncs all of it |
| StoreFiles.FilesOverRuns | crates/engine/src/store.rs:196-363 | over every such run, keeping any number of bytes past the synced ones leaves files that open to that same view |
| StoreFiles.CommitCrashBytes | crates/engine/src/wal.rs:156-166 | a commit cut at any byte before its sync returns brings back all or nothing of what it covers |
| StoreFiles.ShownInBounds | crates/engine/src/store.rs:196-363 | whatever the directory, an opened store shows only records within the format's bounds |
| StoreFiles.CommittedReopensIff | crates/engine/src/store.rs:452-528 | an accepted and committed record, live or else within the bounds, reopens with the view of everything before it if and only if it is within the bounds |
| StoreFiles.CommittedRunReopensIff | crates/engine/src/store.rs:452-528 | a sequence of committed upserts, of live records of any length and of dead ones within the bounds, reopens to its own view after each of them if and only if every record is within the bounds |
| StoreFiles.LongIdDoesNotReopen | crates/engine/src/store.rs:212-221 | a new store with one committed record whose id has 65536 bytes does not come back |
| StoreImpl.RecoverLog | crates/engine/src/wal.rs:286-354 | decodes every record and refuses a log with one that does not decode, untouched; otherwise the log ends at its last barrier, with the records, barrier and next number reported |
| StoreImpl.VectorStore.Upsert | crates/engine/src/store.rs:452-472 | the object's new state and outcome are those of the specified operation, whose acceptance is StoreSchema.UpsertAccepts |
| StoreImpl.VectorStore.Delete | crates/engine/src/store.rs:477-490 | as specified: an unknown or dead id is refused, otherwise a tombstone is logged and applied |
| StoreImpl.VectorStore.Add | crates/engine/src/store.rs:434-446 | upserts in order, stopping at the first that fails |
| StoreImpl.VectorStore.Rollback | crates/engine/src/store.rs:513-523 | L0 is filtered by number and the log reopened; when that is refused only L0 has changed |
| StoreImpl.VectorStore.DropTransaction | crates/engine/src/store.rs:1025-1036 | a dropped guard rolls back |
| StoreImpl.VectorStore.Commit | crates/engine/src/store.rs:526-528 | appends the barrier, syncs the log and takes the barrier's number as committed |
| StoreImpl.VectorStore.CommitTransaction | crates/engine/src/store.rs:1006-1009 | leaves the guard, then commits everything in it |
| StoreImpl.VectorStore.BeginTransaction | crates/engine/src/store.rs:496-504 | refused inside a guard, otherwise enters one and changes nothing else |
| StoreImpl.VectorStore.Live | crates/engine/src/store.rs:560-565 | L0 decides when it knows the id, else the sealed ids do |
| StoreImpl.VectorStore.Collect | crates/engine/src/segments.rs:259-270 | removes exactly the segment files that are not live |
| StoreImpl.VectorStore.MergedLive | crates/engine/src/store.rs:571-598 | the loops list the merged live view: each id once, strictly increasing numbers |
| StoreImpl.TracedMergeable | crates/engine/src/store.rs:571-598 | every store that a run reaches, harmful rollbacks included, has one number per version, which is what merging needs to order its output |
| StoreImpl.VectorStore.Get | crates/engine/src/store.rs:894-910 | returns a record if and only if the id is live, and the version the tiers show |
| StoreImpl.GetShowsView | crates/engine/src/store.rs:894-910 | in every state of the invariant what point reads need holds, and they agree with the merged view |
| StoreImpl.VectorStore.TextCandidates | crates/engine/src/store.rs:688-709 | the candidates are the unshadowed sealed and the live L0 entries that pass the filter |
| StoreImpl.CandidatesAreView | crates/engine/src/store.rs:688-709 | those are exactly the entries of the merged view |
| StoreImpl.VectorStore.Checkpoint | crates/engine/src/store.rs:931-980 | commit, segment file, manifest, reopening, swap and collection leave the specified state and outcome, refusals included, over a listing of the merged view |
| StoreImpl.VectorStore.Seal | crates/engine/src/store.rs:933-979 | the segment is written, published and read back, and only then taken over; what is refused leaves both tiers as they were |
| StoreImpl.OpenDirectory | crates/engine/src/store.rs:196-363 | the opened object, the directory it leaves and every refusal are those of the specified open |
| StoreImpl.ReplayLog | crates/engine/src/store.rs:324-392 | replays records above the checkpoint with the schema checks, stopping at the first refusal |
| StoreImpl.LoadSegments | crates/engine/src/store.rs:234-246 | all named segments in order, or none when a file is missing or does not open |
| Hnsw.SearchLayer | crates/engine/src/index/hnsw.rs:301-369 | the beam is distinct, nearest first and reachable; a neighbour is missing only if the beam is full and it is no nearer; an unfilled beam is the whole reachable part |
| Hnsw.Offer | crates/engine/src/index/hnsw.rs:347-359 | a neighbour enters the beam unless it is full and no nearer than its worst; nothing nearer is ever displaced |
| Hnsw.Expand | crates/engine/src/index/hnsw.rs:343-360 | after an expansion every neighbour of the node is visited and the beam invariant holds |
| Hnsw.ShortBeamIsComponent | crates/engine/src/index/hnsw.rs:335-361 | fewer than ef results are exactly the nodes reachable from the entry |
| Hnsw.GreedyClosest | crates/engine/src/index/hnsw.rs:279-296 | terminates at a reachable node no farther than the start and than any of its layer neighbours |
| Hnsw.SelectHeuristic | crates/engine/src/index/hnsw.rs:374-406 | the two loops compute the selection with its refill |
| Hnsw.SelectLaw | crates/engine/src/index/hnsw.rs:374-406 | of distinct candidates exactly min(m, number of candidates) are kept, each once |
| Hnsw.PassSpreads | crates/engine/src/index/hnsw.rs:383-397 | every node the first pass selects is nearer to the query than to each node selected before it |
| Hnsw.PassCovers | crates/engine/src/index/hnsw.rs:383-397 | while there was room, a pruned candidate is at least as near to some selected node as to the query |
| Hnsw.SelectPicks | crates/engine/src/index/hnsw.rs:374-406 | of candidates in order of distance: the selected ones are spread out, whatever else there was is hidden by a nearer selected one or no nearer than a full selection, and the refill takes the nearest of the rest |
| Hnsw.NearestIsKept | crates/engine/src/index/hnsw.rs:374-406 | what is so picked keeps the nearest, in first place |
| Hnsw.LeftOutIsHidden | crates/engine/src/index/hnsw.rs:374-406 | a member left out is at least as near to some kept member, itself no farther, as to the owner, unless all that is kept is no farther and fills the cap |
| Hnsw.BackLinkKeeps | crates/engine/src/index/hnsw.rs:253-268 | a neighbour's list after a back link is longer by the node while there is room, and else a pick of cap from its members and the node by their distances from the neighbour |
| Hnsw.ReselectLaw | crates/engine/src/index/hnsw.rs:257-266 | an overfull list shrinks to exactly its cap, to members of itself |
| Hnsw.HnswIndex.Backlink | crates/engine/src/index/hnsw.rs:253-268 | the neighbour's list gains the node while there is room; an overfull one keeps exactly its cap, picked by distance as Hnsw.BackLinkKeeps says; no other list changes |
| Hnsw.HnswIndex.LinkBack | crates/engine/src/index/hnsw.rs:253-268 | every chosen neighbour gets its back link, in turn |
| Hnsw.HnswIndex.Descend | crates/engine/src/index/hnsw.rs:236-241 | ends in the layer to connect first, at a node no farther than the entry; in each layer above it stops at a local minimum reached from where it stopped one layer up |
| Hnsw.HnswIndex.ConnectDown | crates/engine/src/index/hnsw.rs:243-270 | layer by layer, each search starting from the nearest node the layer above found |
| Hnsw.HnswIndex.ConnectLayer | crates/engine/src/index/hnsw.rs:244-270 | one layer: a locally optimal beam, a pick from it as the node's list, each neighbour's list with its back link, picked anew when overfull, every other list untouched |
| Hnsw.HnswIndex.InsertNode | crates/engine/src/index/hnsw.rs:222-276 | keeps the graph invariant (in-layer links, no self-link or duplicate, degree bounds, entry of maximum level, no empty layer-0 list from two nodes on); says layer by layer which lists changed, and what each keeps in terms of the distances; the first search starts at a local minimum of the layer above |
| Hnsw.NewNodeDegree | crates/engine/src/index/hnsw.rs:250-252 | in every layer, the bottom one included, the new node gets m neighbours, or all that were found |
| Hnsw.HnswIndex.SearchGraph | crates/engine/src/index/hnsw.rs:462-468 | greedy descent, in each layer to a local minimum reached from the one above, then a layer-0 beam that is locally optimal from there |
| Search.ExactSearch | crates/engine/src/index/exact.rs:45-68 | an unacceptable query is refused; otherwise scored entries sorted best first, unscorable ones left out, cut to k |
| Search.ExactIsTopK | crates/engine/src/index/exact.rs:45-68 | the result is k best of what can be scored: sorted, distinct, of the right number, nothing better left out |
| Search.TopKByScore | crates/engine/src/index/exact.rs:60-68 | k best in scores: higher ones first, nothing left out while there is room, and nothing left out that scores higher than anything returned |
| Search.SameScores | crates/engine/src/index/exact.rs:45-68 | any two answers to one top-k question agree on the score at every place |
| Search.CoverSuffices | crates/engine/src/store.rs:635-655 | k best of a pool that leaves a hit out only behind k better ones are k best of everything |
| Search.SearchTiers | crates/engine/src/store.rs:605-656 | pools of every segment and of live L0, best hit per id, k best of those; refused when the pool is smaller than k or a tier refuses the query |
| Search.MergeHits | crates/engine/src/store.rs:638-647 | keeps the better hit per id, the earlier one on a tie |
| SearchLaws.InvTiered | crates/engine/src/store.rs:571-598 | every store in the invariant has live sealed entries, one per id, older than all of L0 |
| SearchLaws.SearchIsOracle | crates/engine/src/store.rs:605-656 | when each sealed version that L0 has replaced is strictly outscored by a live replacement, as with no id in both tiers, the segmented search is a valid top-k of the merged view in any pool, with the score sequence of the single scan |
| SearchLaws.SearchIsOracleIff | crates/engine/src/store.rs:605-656 | with room for every entry the answer is a valid top-k of the merged view if and only if each scorable sealed version that L0 has replaced or removed is strictly outscored by a live replacement |
| SearchLaws.ScoresAgree | crates/engine/src/store.rs:605-656 | in any pool the segmented search has the score sequence of the scan when L0 outranks every sealed version it has replaced |
| SearchLaws.ScoresAgreeIff | crates/engine/src/store.rs:605-656 | with room for every entry the score sequences are the same if and only if every sealed version in L0 again scores no better than a live replacement |
| SearchLaws.ScoresByCount | crates/engine/src/store.rs:648-655 | the k best of two lists have the same scores if and only if the lists have as many ids at every score, up to k |
| SearchLaws.SearchGoesStale | crates/engine/src/store.rs:637-647 | with room for every entry, every sealed version that its replacement does not strictly outscore is in the answer, under any scorer, and not in the scan of the merged view |
| SearchLaws.LevelQueryGoesStale | crates/engine/src/store.rs:637-647 | a query that scores all vectors alike makes the answer wrong for any id in both tiers |
| Bm25.BuildFromTokens | crates/engine/src/text/bm25.rs:46-70 | the nested loops build exactly the lists and lengths that naive counting gives |
| Bm25.CountTokens | crates/engine/src/text/bm25.rs:51-54 | the map holds exactly the tokens of the document, each with its count |
| Bm25.CountIsMultiplicity | crates/engine/src/text/bm25.rs:51-54 | counting gives a token's multiplicity in the document |
| Bm25.PostingsExact | crates/engine/src/text/bm25.rs:32-41 | each list strictly ascends by document and holds exactly the documents with the token, each with its count |
| Bm25.FrequenciesAddUp | crates/engine/src/text/bm25.rs:46-70 | all term frequencies together equal all document lengths together |
| Bm25Rank.ScoreTermSign | crates/engine/src/text/bm25.rs:105-124 | a term scores above zero for a document if and only if it occurs there, and zero otherwise |
| Bm25Rank.ShorterScoresHigher | crates/engine/src/text/bm25.rs:105-124 | of two documents that hold a term equally often the shorter one scores strictly higher |
| Bm25Rank.OftenerScoresHigher | crates/engine/src/text/bm25.rs:105-124 | of two documents of one length the one that holds the term more often scores strictly higher |
| Bm25Rank.ScoreSaturates | crates/engine/src/text/bm25.rs:105-124 | a score stays below K1 + 1 times the inverse document frequency, counted from the documents |
| Bm25Rank.ScoreFormula | crates/engine/src/text/bm25.rs:90-124 | score * (tf + 0.3 + 0.9 * length / average) is idf * 2.2 * tf, all of it counted from the documents: k1 = 1.2, b = 0.75 |
| Bm25Rank.AverageScore | crates/engine/src/text/bm25.rs:90-124 | a document of average length, at least one token, scores idf * tf * (K1 + 1) / (tf + K1) |
| Bm25Rank.RarerWeighsMore | crates/engine/src/text/bm25.rs:105-124 | with an increasing logarithm the rarer of two terms held equally often scores strictly higher |
| Bm25Rank.ScoreDocSign | crates/engine/src/text/bm25.rs:127-129 | a document scores above zero if and only if it holds a query token |
| Bm25Rank.QueriesAdd | crates/engine/src/text/bm25.rs:127-129 | a query scores as its tokens do one by one |
| Bm25Rank.TopK | crates/engine/src/text/bm25.rs:133-143 | filter, score, stable sort and cut as specified |
| Bm25Rank.SortIsStable | crates/engine/src/text/bm25.rs:140 | sorting by score alone leaves ties in document order |
| Bm25Rank.TopKMeaning | crates/engine/src/text/bm25.rs:131-143 | the answer is the best k live documents holding a query token, higher scores first, ties by document, and no other |
| Fusion.RrfFuse | crates/engine/src/planner.rs:28-69 | one hit per id with the sum of its gains over all occurrences and its first sequence number, best first, ties by id, best k |
| Fusion.Accumulate | crates/engine/src/planner.rs:33-43 | the map holds exactly the ids that occur, each with the sum of its gains |
| Fusion.FirstSeqs | crates/engine/src/planner.rs:45-53 | each id keeps the sequence number of its first occurrence |
| Fusion.FirstOccurrence | crates/engine/src/planner.rs:45-53 | an id's sequence number is the one it has where it stands first, in the first path that holds it |
| Fusion.OneRankScores | crates/engine/src/planner.rs:33-43 | an id that stands in one path only, at rank r from zero, scores 1 / (c + r + 1) |
| Fusion.RankedByScore | crates/engine/src/planner.rs:61-67 | higher fused scores first, among equal ones the lower id, and nothing left out that should come before anything returned |
| Fusion.IdOrder | crates/engine/src/planner.rs:61-66 | ids are ordered as integers, then as strings by the first byte that differs |
| Fusion.FusionUnique | crates/engine/src/planner.rs:61-67 | the ranking is determined: same ids and scores at every place |
| Fusion.FusionIsByRank | crates/engine/src/planner.rs:28-43 | neither the order of the paths nor any input score changes ids or fused scores |
| Fusion.DominantComesFirst | crates/engine/src/planner.rs:35-66 | an id ranked no worse than another in every path that holds the other comes no later, but for the id tie-break |
| FilterParser.Parser.StringLiteral | crates/engine/src/filter/parse.rs:326-360 | the byte loop reads what the grammar says, escapes and refusals included |
| FilterParser.Parser.SkipWs | crates/engine/src/filter/parse.rs:83-87 | moves the cursor past the blanks and no further |
| FilterParser.Parser.EatKeyword | crates/engine/src/filter/parse.rs:91-105 | takes a word in any case only when no identifier byte follows, and else stays |
| FilterParser.Parser.EatChar | crates/engine/src/filter/parse.rs:132-139 | takes the byte or stays |
| FilterParser.Parser.Ident | crates/engine/src/filter/parse.rs:116-130 | the longest run of identifier bytes that starts with a letter |
| FilterParser.Parser.NumberBody | crates/engine/src/filter/parse.rs:291-305 | the longest run of digits with at most one dot, and whether it had either |
| FilterParser.Parser.IntOrFloat | crates/engine/src/filter/parse.rs:366-406 | an integer must fit 64 bits; with a dot it is a double |
| FilterParser.Parser.NumberLiteral | crates/engine/src/filter/parse.rs:285-324 | sign, digits, at most one dot; an integer too large falls to a double |
| FilterParser.Parser.Literal | crates/engine/src/filter/parse.rs:362-423 | strings, integers, doubles and booleans; anything else is refused |
| FilterParser.Parser.Comparison | crates/engine/src/filter/parse.rs:197-283 | IS NULL, IN and the operators, each leaving the cursor after what it read |
| FilterParser.Parser.NullTest | crates/engine/src/filter/parse.rs:202-212 | IS NULL is absence, IS NOT NULL presence, anything else is refused |
| FilterParser.Parser.ListBody | crates/engine/src/filter/parse.rs:218-228 | the values up to the closing parenthesis, at least one |
| FilterParser.Parser.Operator | crates/engine/src/filter/parse.rs:232-282 | each operator with its value, exclusive bounds stepped to inclusive ones |
| FilterParser.Parser.Primary | crates/engine/src/filter/parse.rs:186-195 | a parenthesised expression or a comparison |
| FilterParser.Parser.NotExpr | crates/engine/src/filter/parse.rs:177-184 | any number of NOTs in front of a primary |
| FilterParser.Parser.AndExpr | crates/engine/src/filter/parse.rs:164-175 | the loop reads a left-associated conjunction |
| FilterParser.Parser.OrExpr | crates/engine/src/filter/parse.rs:151-162 | the loop reads a left-associated disjunction of conjunctions, terminating by input left and level |
| FilterParser.ParseInput | crates/engine/src/filter/parse.rs:38-50 | the whole parser: blank input matches everything, anything left over is an error |
| FilterGrammar.ParserReadsGrammar | crates/engine/src/filter/parse.rs:1-423 | the parser gives a tree for an input if and only if the input is a spelling of that tree: any blanks, keywords in any case, every operator form, either quote, every numeral, any grouping |
| FilterGrammar.BlankParses | crates/engine/src/filter/parse.rs:36-50 | the filter that accepts everything is given for blank input and no other |
| FilterGrammar.SpellingParses | crates/engine/src/filter/parse.rs:38-195 | every spelling of an expression parses to the tree it spells |
| FilterSpelling.ComparisonRead | crates/engine/src/filter/parse.rs:197-283 | every spelling of a comparison reads as what it asks, leaving what follows |
| FilterSpelling.ComparisonFound | crates/engine/src/filter/parse.rs:197-283 | whatever reads as a comparison is a spelling of it |
| FilterSpelling.LessGreaterIsNotEquals | crates/engine/src/filter/parse.rs:236-254 | for every name and value `<>` reads as `!=` does, as the inequality |
| FilterSpelling.LiteralRead | crates/engine/src/filter/parse.rs:326-423 | every spelling of a literal reads as its value: strings between either quotes with their escapes, signed integers with leading zeros, numbers with a dot, truth values in any case |
| FilterSpelling.LiteralFound | crates/engine/src/filter/parse.rs:326-423 | whatever reads as a literal is a spelling of it |
| FilterSpelling.BoundRead | crates/engine/src/filter/parse.rs:285-324 | every numeral reads as a bound, with either sign, and as a double when it has a dot or does not fit 64 bits |
| FilterSpelling.DecimalIsPositional | crates/engine/src/filter/parse.rs:306-323 | digits are read as the decimal number they write |
| FilterSpelling.KeywordsSpelled | crates/engine/src/filter/parse.rs:197-283 | the words and signs of the grammar, in ASCII |
| FilterSpelling.CharactersSpelled | crates/engine/src/filter/parse.rs:83-130 | blanks, digits, letters and case folding in ASCII |
| FilterPrint.ParsePrint | crates/engine/src/filter/parse.rs:38-230 | parsing a minimally parenthesised print gives the same tree if and only if no field is named NOT, and an error otherwise |
| FilterPrint.NotBack | crates/engine/src/filter/parse.rs:177-195 | a print where a NOT operand is expected reads back whole, whatever follows |
| FilterPrint.AndBack | crates/engine/src/filter/parse.rs:164-175 | a printed conjunction reads back as the left operand of whatever ANDs follow |
| FilterPrint.OrBack | crates/engine/src/filter/parse.rs:151-162 | a printed disjunction reads back as the left operand of whatever ORs follow |
| FilterPrint.ValueBack | crates/engine/src/filter/parse.rs:362-423 | integers, booleans and escaped strings read back, leaving what follows |
| FilterPrint.RangeBack | crates/engine/src/filter/parse.rs:242-279 | inclusive integer bounds read back |
| FilterPrint.StrictIsNext | crates/engine/src/filter/parse.rs:255-279 | a strict integer bound parses to the range from the next integer on, or to the infinity past the extreme one, and to the same predicate as the inclusive bound there |
| FilterPrint.DoubledQuoteEnds | crates/engine/src/filter/parse.rs:335-352 | a doubled quote ends the string at the first of the two |
| FilterEval.BuilderMeaning | crates/engine/src/filter/mod.rs:198-206 | a filter built predicate by predicate asks them in order and stops at the first that does not hold, errors included |
| FilterEval.AndFilterNests | crates/engine/src/filter/mod.rs:209-217 | conjoining two lists of filters is conjoining all of them in one list, and conjoins the outcomes, errors included |
| FilterEval.InIsAnyOf | crates/engine/src/filter/mod.rs:74-77 | IN is the disjunction of the equalities |
| FilterEval.NotInIsNoneOf | crates/engine/src/filter/mod.rs:59-77 | NOT IN is the conjunction of the inequalities on every record, one without the field included |
| FilterEval.IntRangeIsExact | crates/engine/src/filter/mod.rs:78-119 | between integer bounds integers compare exactly at any size, and doubles when they are integers: the empty-range check on rounded bounds never refuses a value in range |
| FilterEval.OneSidedIsRounded | crates/engine/src/filter/mod.rs:78-103 | a one-sided integer bound lets an integer on its wrong side in if and only if both round to the same double, and refuses none on its right side |
| FilterEval.ExclusiveIsNotInclusive | crates/engine/src/filter/parse.rs:242-279 | on a double, `>` as parsed and evaluated is NOT `<=`, and `<` is NOT `>=`, if and only if the double is not NaN and not the infinity that the bound is |
| FilterLaws.NullTests | crates/engine/src/filter/mod.rs:121-122 | IS NULL holds if and only if no entry has the field's name, IS NOT NULL if and only if one does |
| FilterLaws.EqMeaning | crates/engine/src/filter/mod.rs:70-73 | equality holds if and only if an entry of that name has the same type and content, NaN equal to nothing and the zeros to each other; inequality is its opposite |
| FilterLaws.EqFinds | crates/engine/src/filter/mod.rs:151-160 | adding an entry makes its equality hold wherever it stands, unless its value is NaN |
| FilterLaws.OrderIsNumeric | crates/engine/src/filter/mod.rs:78-103 | finite doubles compare as the numbers that fraction and exponent give, between the infinities |
| FilterLaws.SpecialDoubles | crates/engine/src/filter/mod.rs:78-88 | NaN is all exponent bits and a fraction, the infinities all exponent bits and none |
| FilterLaws.NextUpIsLeastAbove | crates/engine/src/filter/parse.rs:242-279 | the next double up, and down, leaves none between |
| FilterLaws.RangeFailsIff | crates/engine/src/filter/mod.rs:78-88 | a range is an error if and only if a bound is NaN |
| FilterLaws.RangeNeedsNumbers | crates/engine/src/filter/mod.rs:92-119 | strings, booleans and byte strings are in no range |
| FilterLaws.DoubleRangeIff | crates/engine/src/filter/mod.rs:78-119 | a range between doubles holds of a double if and only if it lies between them and is an integer whenever both bounds are |
| FilterLaws.StrictAtTheEnds | crates/engine/src/filter/parse.rs:255-279 | a strict bound at either end of 64 bits lets in no integer |
| FilterLaws.DeMorgan | crates/engine/src/filter/mod.rs:173-182 | De Morgan's laws and double negation, errors included |
| FilterLaws.Connectives | crates/engine/src/filter/mod.rs:173-182 | when AND, OR and NOT hold and when they fail, in terms of their operands |
| FilterEval.NanFreeNeverFails | crates/engine/src/filter/mod.rs:173-182 | a tree without NaN bounds answers on every record |
| FilterEval.ParsedNeverFails | crates/engine/src/filter/parse.rs:38-50 | whatever string parses, its filter answers on every record without an error |

## Left out

- Real files: fsync classes, directory syncing and failed reads or writes are represented only by the synced and unsynced part of the log and by atomic replacement of manifest and segments. A commit whose sync fails and is followed by a rollback is not modelled.
- StoreImpl.VectorStore.TextCandidates: the filter is a total predicate (a parsed filter never fails, by FilterEval.ParsedNeverFails), and the sort of candidates by id before ranking is not modelled.
- StoreModel.Disk: the log of the store is a list of entries, each written whole; StoreFiles.OpenBytes shows that opening the bytes of the log file does the same.
- StoreOps.Allowed: runs of the store write records that `encode` refuses or that are within the format's bounds and a frame's length, as long as 64-bit sequence numbers last; StoreFiles.CommittedReopensIff is about the others.
- StoreFiles.CommittedReopensIff: says nothing of a tombstone outside the bounds; recovery may refuse its log, or bury whatever id it decodes to.
- StoreHistory.CheckpointedRun: a checkpoint of a store without an id kind is outside the runs that are shown to reopen; StoreRuns.CheckpointLaw and StoreRuns.EmptyCheckpointDoesNotReopen say that it is refused.
- StoreLaws.CrashOpens: manifests and segments are as this code wrote them; one that was damaged, or written by other code, is not modelled, nor is the manifest's JSON form.
- Sequence numbers: they stay below 2^64, and frame lengths fit their 32-bit prefix.
- Checkpoint frames in the log: recovery checks and skips them as the code does, but nothing writes them.
- Hnsw.HnswIndex.SearchGraph: stops at the beam. Recomputing scores, dropping unscorable vectors, cutting to k, and the exact scan for small sets or other metrics are not modelled.
- Hnsw.SearchLayer: takes one entry point, the only way the code calls it; heaps are sets of (distance, node) pairs and the visited bitset is a set.
- HNSW level drawing (levels are inputs), recall, connectivity and link symmetry: the code guarantees none of them.
- Search.SearchTiers: every tier is searched exactly; a segment served by a graph returns an approximation, about which nothing is claimed.
- Scores and distances are integers: norms, cosine, overflow and NaN of 32-bit floats are not modelled. Vectors in the formats are their bit patterns.
- Bm25Rank.ScoreTerm: exact reals, with the logarithm a parameter known only to be positive above one. Tokenization is not modelled.
- Fusion.RrfFuse: exact reals; sums of doubles and the narrowing to 32 bits before sorting are not modelled.
- FilterParse.ReadNumber: how decimal text becomes a double is a parameter; error messages and positions are left out.
- FilterEval.RangeHolds: the two conversions between integers and doubles are parameters, known only to keep the order; which integers they merge is not modelled.
- FilterPrint.Print: covers equality, inequality, non-empty IN, presence and absence over integers, booleans and strings, and one-sided integer ranges; doubles have no printed form, and two-sided ranges none in the grammar.
- Setting a metric, connect options, backend validation, hybrid and filtered entry points that only combine parts shown here, Python bindings, benchmarks and dataset loaders.
