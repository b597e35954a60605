# The durable share-event pipeline, in Dafny

HashStormCore turns accepted, rejected and stale shares into events and moves them
through a write-ahead log, a broker stream and two consumers. This project models that
path and proves what it promises, and adds four self-contained algorithms.

- `Contracts`, `Cancellation`, `Dedup`: the events; cancellation tokens, each live for a number
  of looks; and sequences with repeats removed, which is what at-least-once delivery means.
- `Checksums`, `SegmentNames`, `Framing`, `Reader`: the bytes of a log segment. A record is
  magic, version, length, payload and FNV-1a checksum (section 2 of draft-eastlake-fnv);
  reading is proved against writing for every cut, every growth and every single-byte
  change.
- `Log`: the same segments as lists of events: rotation, snapshots, deletion, truncation.
- `Wal`, `Outbox`, `Torn`: the directory with its checkpoint, recovery, and the object that
  appends, rotates, hands out snapshots and advances, with a cancellation token that may
  fire at any look; and what an append cancelled inside a record does to those behind it.
- `Attempts`: any sequence of appends, each cancelled at any moment, and what a reader finds.
- `Protocol`, `Publisher`, `TornRestart`: the state machine over all runs with crashes, the
  publisher's loop as one of its runs, and what several torn segments do to a restart.
- `Queue`, `Writer`: the hand-off queue as interleaved atomic actions, and the writer with
  its shutdown drain.
- `DbWriter`: exactly one accounting row per event from at-least-once delivery.
- `Pipeline`: outbox, publisher and consumers together, from the log to the rows.
- `KeyNames`, `LiveCounters`, `LiveWindows`, `LiveListing`, `LiveState`, `LiveRestart`:
  Redis keys, bucketed counters that expire while time passes between any two store
  operations, the documents rebuilt from them, and a restart that leaves no trace.
- `Merkle`, `ExtraNonce`, `ShareRecovery`: the stratum branch against the Merkle root,
  bit-packed nonces, and the import of a recovery file.

Classes and loops stand where the source has them; each method is proved against a
function or a relation of its inputs and its old state, and the lemmas are about these.
JSON is an abstract pair of an encoder and a decoder: what can be serialised is not empty,
fits an array and is decoded to the same event, and serialising any other event throws.
`Framing.SampleCodecIsLawful` gives such a pair and `Protocol.RunsExist` a run with it.
SHA-256 is an arbitrary function. Ignoring case is any map of characters that leaves white
space and the tab alone.

The service loops end only on a cancelled token or a reported failure. What they get done
before is bounded below by the number of looks the token lives for, with everything other tasks
do in between counted in: these act any number of times, fixed at the start and never known to
the service (`Publisher.ShareEventOutboxPublisher.ExecuteAsync`,
`Writer.ShareEventOutboxWriter.ExecuteAsync`, `DbWriter.DbWriterService.ExecuteAsync`,
`LiveRestart.LiveAggregatorService.ExecuteAsync`).

Where the code does less than one might expect, the model follows the code and a lemma
says exactly when:

- A cancellation between the three writes of one record leaves a torn record, and what is
  appended behind it in the same segment is not read. The retried batch is read completely
  exactly when it rotates first; otherwise as many records are hidden as fit the segment
  (`Torn.RetryAfterTear`, `Torn.HiddenIsWhatFits`), and an event is lost exactly when no
  append of it wrote it where a reader gets (`Attempts.LostEvents`).
- Recovery repairs one segment per pass (`Wal.RecoveryRepairsOne`). Two torn segments are
  within reach (`TornRestart.TearsTwice`), and `TornRestart.RestartLeavesDark` says exactly
  after which crashes the restarted outbox then appends where no reader gets.
- When the shutdown timeout ends the wait for the writer, the drain overtakes the batch in
  hand: nothing is lost by that, but the WAL leaves queue order
  (`Attempts.OvertakingReorders`; `Attempts.ReadInOrder` says when it does not).
- Events of miners are in exactly one listed counter only where names are equal ignoring
  case exactly when they are equal under Encode (`LiveListing.MinersListedOnce`), and those
  of workers only if, besides, no miner's name has a tab (`LiveListing.WorkersListedOnce`).
  `LiveListing.CaseOnlyExample` and `LiveListing.TabExample` are names for which they are
  not.
- Replaying the retained stream misses exactly the entries numbered above 9999 within the
  millisecond it ends in (`LiveRestart.VisitedExactly`, `LiveRestart.MissedExactly`).
- A commit whose reply is lost makes the recovery import insert a chunk twice
  (`ShareRecovery.ImportedIsPrefix` says when, `ShareRecovery.LostReplyImportsTwice` for
  which files).

## Model

| member | source | states |
|---|---|---|
| `Protocol.DeliveryOverEveryRun` | src/HashStormCore.Eventing/Outbox/FileShareEventOutbox.cs:25-188 | after every run of appends, cancellations inside a record, rotations, reads, publishes, checkpoint advances with partial deletions, crashes and restarts: the stream without repeats is, in order, a prefix of the log without repeats; what a snapshot returns is exactly the log from the checkpoint on; the checkpoint never passes an undelivered record; an empty snapshot means the stream has everything. The log is what was written where a reader gets |
| `Protocol.InitInv` | src/HashStormCore.Eventing/Outbox/FileShareEventOutbox.cs:153-160 | a fresh outbox satisfies the invariant the other lemmas start from |
| `Protocol.StepInv` | src/HashStormCore.Eventing/Outbox/FileShareEventOutbox.cs:25-188 | the invariant behind it survives every single step, from any state that has it |
| `Protocol.RunInv` | src/HashStormCore.Eventing/Outbox/ShareEventOutboxPublisher.cs:30-63 | and so every run from any such state |
| `Protocol.CrashLosesOnlyBuffered` | src/HashStormCore.Eventing/Outbox/FileShareEventOutbox.cs:97 | a crash after any run loses only records still in the stream buffer: the log is cut to what was flushed, nothing that was delivered is lost, the stream stays |
| `Protocol.NothingLostWithoutTear` | src/HashStormCore.Eventing/Outbox/FileShareEventOutbox.cs:37-55 | over every run without a cancellation inside a record, crashes included, no record is ever written where no reader gets |
| `Protocol.RunsExist` | src/HashStormCore.Eventing/Outbox/ShareEventOutboxPublisher.cs:30-63 | the guarantees are not empty: with a codec that meets its laws any text is logged, read, published and passed by the checkpoint |
| `Protocol.StepNumbers` | src/HashStormCore.Eventing/Outbox/FileShareEventOutbox.cs:162-188 | no step brings a segment number back, and the current segment, which has the highest, is never removed |
| `Protocol.NumbersNeverReused` | src/HashStormCore.Eventing/Outbox/FileShareEventOutbox.cs:153-188 | over every run, restarts included, a number that left the listing never returns |
| `Protocol.AdvanceHistory` | src/HashStormCore.Eventing/Outbox/FileShareEventOutbox.cs:128-145 | advancing moves the checkpoint behind the last record of the batch, never past what was delivered, and deletes a prefix of the segments |
| `Protocol.RestartInv` | src/HashStormCore/AutofacModule.cs:188-193 | recovery followed by reopening re-establishes the invariant after a crash at any point, and exactly the records out of the buffer are still logged |
| `Pipeline.ExactlyOnceEndToEnd` | src/HashStormCore.DbWriter/Services/DbWriterService.cs:37-53 | from end to end: over every run of appends, tears, rotations, reads, publications, advances and crashes of the outbox with deliveries, commits, lost replies and acknowledgements of the consumers, in any interleaving: rows are of logged events only, and once everything is drained every logged event has exactly one row |
| `Pipeline.AppendedReachesTheDatabase` | src/HashStormCore.Eventing/Outbox/FileShareEventOutbox.cs:25-64 | what one append of the writer wrote where a reader gets, and flushed, stays in the log over every later run, crashes included, and has its one row each once everything is drained |
| `Pipeline.KeptStep` | src/HashStormCore.Eventing/Outbox/FileShareEventOutbox.cs:79-88 | no step of the outbox, not even a crash, takes away what is out of the buffer |
| `Pipeline.RunInv` | src/HashStormCore.DbWriter/Services/DbWriterService.cs:37-53 | over every run the consumers' entries, one after the other, are the stream the outbox published |
| `Pipeline.RowsAreLogged` | src/HashStormCore.DbWriter/Services/ShareBatchPersistenceService.cs:17-39 | no event has a row that was not logged |
| `Pipeline.LoggedHasRow` | src/HashStormCore.DbWriter/Services/DbWriterService.cs:37-53 | in a drained state every logged event has its one row |
| `Pipeline.PathExists` | src/HashStormCore.DbWriter/Services/DbWriterService.cs:37-53 | this is not empty: with a codec that meets its laws any text goes from the first append to its row, and then everything is drained |
| `Publisher.ShareEventOutboxPublisher.ExecuteAsync` | src/HashStormCore.Eventing/Outbox/ShareEventOutboxPublisher.cs:30-63 | the loop, with any number of appends by the writer, cancelled ones included, at every await, and the token cancelled at any look: stream, log and checkpoint are as the protocol promises whenever it ends. It ends only on a cancelled token; and if the token lives for a number of looks known at the start, everything logged by then is on the stream and behind the checkpoint, whatever else is appended and however often the broker fails meanwhile |
| `Publisher.ShareEventOutboxPublisher.Round` | src/HashStormCore.Eventing/Outbox/ShareEventOutboxPublisher.cs:34-62 | one round on a live token: nothing changes when nothing stands behind the checkpoint; otherwise the longest beginning of it within the limits is on the stream, at most once more often than the broker failed, the checkpoint is saved behind its last record, and the number passed has grown by its length |
| `Publisher.ShareEventOutboxPublisher.ReadBatch` | src/HashStormCore.Eventing/Outbox/ShareEventOutboxPublisher.cs:38-47 | while the files grow: the batch is a prefix of what stood behind the checkpoint when the snapshot was taken, all of it or the shortest that reaches the limit on events or on text; cancelled, it leaves nothing in hand |
| `Publisher.ShareEventOutboxPublisher.PublishWithRetryAsync` | src/HashStormCore.Eventing/Outbox/ShareEventOutboxPublisher.cs:65-88 | returns normally only when the batch in hand has reached the stream or the token is cancelled for good; the stream gets the batch once for each attempt that arrived and nothing else, and each failure costs three looks at the token at most |
| `Publisher.ShareEventOutboxPublisher.AdvanceCheckpoint` | src/HashStormCore.Eventing/Outbox/ShareEventOutboxPublisher.cs:55-57 | called after such a return it saves a checkpoint only for a published batch: with the token cancelled it does nothing |
| `Publisher.ShareEventOutboxPublisher.OtherTasks` | src/HashStormCore.Eventing/Outbox/FileShareEventOutbox.cs:25-64 | any number of appends, each cancelled at any moment or not at all, are steps of the protocol; they add to the files and the log and leave the batch in hand alone |
| `Publisher.AppendRun` | src/HashStormCore.Eventing/Outbox/FileShareEventOutbox.cs:25-64 | whenever it is cancelled, an append is a run of append, rotate and tear steps that ends in exactly the segments and files it leaves, with the records written added to the log and those hidden to the lost |
| `Publisher.DeletionCommutes` | src/HashStormCore.Eventing/Outbox/FileShareEventOutbox.cs:178-188 | deleting published segments changes neither what an append does nor what it hides: the publisher's deletions and the writer's appends commute |
| `Publisher.ShareEventOutboxPublisher.OtherTasksWhileReading` | src/HashStormCore.Eventing/Outbox/FileShareEventOutbox.cs:118-125 | a snapshot stays readable while others append: the records still to come are the same |
| `Publisher.StartOnEmptyDirectory` | src/HashStormCore.Eventing/Outbox/FileShareEventOutbox.cs:12-17 | the first start on an empty directory is the initial state of the protocol |
| `Publisher.CrashAndRestart` | src/HashStormCore/AutofacModule.cs:188-193 | at any await of the publisher, dropping the buffers, recovering the files and reopening them never fails and yields exactly the restart step of the protocol |
| `Publisher.CrashInsideRecord` | src/HashStormCore.Eventing/Outbox/FileShareEventOutbox.cs:43-55 | the files left by a process that ends inside a record, after any number of its bytes, are those of the finished record with the rest still in the buffer: the restart step covers it |
| `Publisher.FilesAfterCrash` | src/HashStormCore.Eventing/Outbox/ShareEventOutboxRecovery.cs:5-21 | from any reachable state the files a crash leaves are recovered to what the restart step says, sound and with the checkpoint at the same record |
| `Outbox.FileShareEventOutbox.constructor` | src/HashStormCore.Eventing/Outbox/FileShareEventOutbox.cs:12-17 | opening a recovered directory continues its last segment under its own number; an empty one starts segment 1 |
| `Outbox.FileShareEventOutbox.AppendAsync` | src/HashStormCore.Eventing/Outbox/FileShareEventOutbox.cs:25-64 | for every cancellation moment, also behind a torn record: which outcome, and exactly which segments with which bytes; nothing there before is changed; when nothing was torn before, a reader still finds every record; a blank id or an event that cannot be serialised rejects the rest of the batch |
| `Contracts.BlankIs` | src/HashStormCore.Eventing/Outbox/FileShareEventOutbox.cs:34 | the ids refused are the empty text and those of blanks only |
| `Outbox.AppendingRecords` | src/HashStormCore.Eventing/Outbox/FileShareEventOutbox.cs:30-56 | whenever it is cancelled, an append changes no record there is and adds the whole records written, less those behind a torn one |
| `Outbox.AppendingSound` | src/HashStormCore.Eventing/Outbox/FileShareEventOutbox.cs:43-55 | a first torn record does not disturb a reader |
| `Outbox.AppendingGrows` | src/HashStormCore.Eventing/Outbox/FileShareEventOutbox.cs:30-56 | whenever it is cancelled, every segment keeps its bytes and records and only gains |
| `Outbox.FileShareEventOutbox.AppendRecords` | src/HashStormCore.Eventing/Outbox/FileShareEventOutbox.cs:30-56 | the loop over the batch, with the number of looks at the token it takes |
| `Outbox.FileShareEventOutbox.WriteRecord` | src/HashStormCore.Eventing/Outbox/FileShareEventOutbox.cs:37-55 | one record: rotation first if due, then the frame, or the part of it written before the cancellation |
| `Outbox.FileShareEventOutbox.WriteFrame` | src/HashStormCore.Eventing/Outbox/FileShareEventOutbox.cs:43-55 | header, payload and checksum are three cancellable writes: after k of them exactly the first k parts are in the segment, and the token has been looked at that often |
| `Outbox.FileShareEventOutbox.EnsureRoom` | src/HashStormCore.Eventing/Outbox/FileShareEventOutbox.cs:40-41 | rotates exactly when the current segment is not empty and its length with the fourteen bytes around the payload and the payload itself exceeds the limit |
| `Outbox.FileShareEventOutbox.RotateAsync` | src/HashStormCore.Eventing/Outbox/FileShareEventOutbox.cs:162-169 | everything buffered reaches the old segment and a fresh one with the next number is opened |
| `Outbox.FileShareEventOutbox.TakeSnapshot` | src/HashStormCore.Eventing/Outbox/FileShareEventOutbox.cs:94-116 | under the gate: flush, then stretches of files that together hold exactly the records behind the checkpoint; two looks at the token and one for each segment |
| `Outbox.CheckpointRecords.constructor` | src/HashStormCore.Eventing/Outbox/FileShareEventOutbox.cs:118-120 | an enumeration of a snapshot starts with all the records behind the checkpoint still to come |
| `Outbox.CheckpointRecords.MoveNextAsync` | src/HashStormCore.Eventing/Outbox/FileShareEventOutbox.cs:118-125 | the next record of the snapshot, in order, from the files as they are by then, and the end exactly when none is left; no exception |
| `Outbox.ReadsMark` | src/HashStormCore.Eventing/Outbox/ShareEventOutboxReader.cs:14-31 | from any file that has grown since the snapshot, torn records included, the reader gets the records up to the old end and stops there |
| `Outbox.FileShareEventOutbox.AdvanceCheckpointAsync` | src/HashStormCore.Eventing/Outbox/FileShareEventOutbox.cs:128-145 | saves the checkpoint behind the record and drops the segments before its own, never the current one; a cancelled token changes nothing |
| `Outbox.FileShareEventOutbox.DeletePublishedSegments` | src/HashStormCore.Eventing/Outbox/FileShareEventOutbox.cs:178-188 | removes exactly the segments listed before the published one |
| `Torn.TearsExactly` | src/HashStormCore.Eventing/Outbox/FileShareEventOutbox.cs:49-55 | a segment ends in a torn record exactly when the cancellation falls between two of the three writes of a record; the records before it are read, and the torn bytes are the first of the next record |
| `Torn.HiddenIsWhatFits` | src/HashStormCore.Eventing/Outbox/FileShareEventOutbox.cs:40-41 | of the records appended behind a torn one exactly those are written where no reader gets that still fit its segment |
| `Torn.BehindATear` | src/HashStormCore.Eventing/Outbox/FileShareEventOutbox.cs:37-55 | they stand behind the torn bytes, byte for byte, and everything from the first that does not fit is in fresh segments, whole |
| `Torn.AppendingBehindATear` | src/HashStormCore.Eventing/Outbox/FileShareEventOutbox.cs:25-64 | an append to a segment with a torn record, whenever it is cancelled: which bytes stay in that segment; no other segment disturbs a reader, so it is undisturbed exactly when it stops at these bytes |
| `Torn.RetryAfterTear` | src/HashStormCore.Eventing/Outbox/ShareEventOutboxWriter.cs:130-146 | a batch whose append was torn is appended again, and more after it: what is read, in order; all of it the second time exactly when the first record no longer fits the torn segment; the reader is undisturbed exactly when the torn bytes with the hidden records are quiet |
| `Torn.TornQuiet` | src/HashStormCore.Eventing/Outbox/ShareEventOutboxReader.cs:65-87 | these bytes stop a reader unless a checksum is right by chance: behind a header alone, the word after the next payload length; behind header and payload, the magic of the next record |
| `Torn.LostExactly` | src/HashStormCore.Eventing/Outbox/ShareEventOutboxWriter.cs:130-146 | of new events that differ the ones not read are those hidden that were not written before the tear; none exactly when no more are hidden than were written |
| `Torn.TornRetryLosesAnEvent` | src/HashStormCore.Eventing/Outbox/ShareEventOutboxWriter.cs:130-146 | an event for which this happens: torn behind its payload and appended again to a segment with room, it is not read at all |
| `Torn.RetryIsLost` | src/HashStormCore.Eventing/Outbox/ShareEventOutboxWriter.cs:130-146 | and it happens to every event alone in its batch whose checksum is not the magic number |
| `Torn.RecoveryAfterTear` | src/HashStormCore.Eventing/Outbox/ShareEventOutboxRecovery.cs:10-20 | recovery then cuts the torn segment to its records and leaves every other segment as it is: the same events are read as before |
| `TornRestart.MendLeavesDark` | src/HashStormCore.Eventing/Outbox/ShareEventOutboxRecovery.cs:10-20 | a recovery pass leaves the last segment torn exactly when there was a torn one before it |
| `TornRestart.RestartLeavesDark` | src/HashStormCore.Eventing/Outbox/ShareEventOutboxRecovery.cs:5-21 | exactly after which crashes a restarted outbox appends where no reader gets: those that cut the last segment inside a record and come on top of a torn segment before it |
| `TornRestart.RestartHides` | src/HashStormCore.Eventing/Outbox/FileShareEventOutbox.cs:40-41 | and which of its records are hidden then: those that fit the torn segment, none otherwise |
| `TornRestart.IncompleteAreDark` | src/HashStormCore.Eventing/Outbox/ShareEventOutboxRecovery.cs:10-20 | on sound files a second pass has work to do exactly when two segments or more are torn |
| `TornRestart.TearsTwice` | src/HashStormCore.Eventing/Outbox/FileShareEventOutbox.cs:40-55 | such a directory is within reach, for every lawful codec and event: cancelled inside a record, a segment opened, cancelled there again |
| `TornRestart.RestartLosesAnAppend` | src/HashStormCore.Eventing/Outbox/ShareEventOutboxRecovery.cs:10-20 | and then a crash and a restart: an event appended without any cancellation of its own is hidden |
| `Log.PutAllRecords` | src/HashStormCore.Eventing/Outbox/FileShareEventOutbox.cs:37-55 | whatever the rotations, appending adds the events in order behind the records there are, less the first ones when these stand behind a torn record |
| `Log.PutAllAscending` | src/HashStormCore.Eventing/Outbox/FileShareEventOutbox.cs:162-169 | segment numbers keep ascending |
| `Log.PutAllPacked` | src/HashStormCore.Eventing/Outbox/FileShareEventOutbox.cs:40-41 | over any appends from a fresh segment, no segment exceeds the limit unless a single record does, and none was closed while the record after it would have fitted |
| `Log.SnapshotIsSuffix` | src/HashStormCore.Eventing/Outbox/FileShareEventOutbox.cs:99-110 | the segment-by-segment selection by ordinal name comparison is the suffix of all records behind the checkpoint |
| `Log.DropIsSuffix` | src/HashStormCore.Eventing/Outbox/FileShareEventOutbox.cs:178-188 | deleting by name before the published segment leaves a suffix of the segments |
| `Log.TruncateRecords` | src/HashStormCore.Eventing/Outbox/ShareEventOutboxRecovery.cs:12-19 | a crash and recovery keep exactly the records completely flushed |
| `Log.TruncateIsSound` | src/HashStormCore.Eventing/Outbox/ShareEventOutboxRecovery.cs:12-19 | and leave nothing that disturbs a reader |
| `Log.SavedOffsetIsBoundary` | src/HashStormCore.Eventing/Outbox/FileShareEventOutbox.cs:128-137 | the offset a checkpoint saves is always a record boundary of its segment |
| `Log.ReadsFromBoundary` | src/HashStormCore.Eventing/Outbox/ShareEventOutboxReader.cs:14-31 | reading a segment from any record boundary to the end it has or had returns exactly the records behind the boundary, also when it ends in torn bytes and more was appended |
| `Framing.ReadsFrame` | src/HashStormCore.Eventing/Outbox/ShareEventOutboxReader.cs:60-102 | a frame is read back as the event written, with offset and next offset, whatever surrounds it |
| `Framing.AcceptedIsFrame` | src/HashStormCore.Eventing/Outbox/ShareEventOutboxReader.cs:60-102 | conversely whatever is accepted is byte for byte a frame whose payload decodes to the event |
| `Framing.TornIsStop` | src/HashStormCore.Eventing/Outbox/ShareEventOutboxReader.cs:65-83 | a record cut at any byte is rejected without an exception |
| `Framing.CorruptPayloadRejected` | src/HashStormCore.Eventing/Outbox/ShareEventOutboxReader.cs:85-87 | changing any one payload byte, of a payload of any length, makes the reader reject the record |
| `Framing.HeaderRoundTrip` | src/HashStormCore.Eventing/Outbox/FileShareEventOutbox.cs:43-47 | the header is parsed back to the payload length, and refused for an empty payload |
| `Framing.FrameIs` | src/HashStormCore.Eventing/Outbox/FileShareEventOutbox.cs:38-55 | a record byte for byte: the magic 0x48534556, version 1, length, payload and checksum, little-endian |
| `Framing.HugeLengthThrows` | src/HashStormCore.Eventing/Outbox/ShareEventOutboxReader.cs:65-83 | a length so large that the 32-bit sum with the checksum wraps makes the reader throw |
| `Framing.RecordAt` | src/HashStormCore.Eventing/Outbox/ShareEventOutboxReader.cs:93-99 | record k starts where record k-1 ended |
| `Framing.ScanFrames` | src/HashStormCore.Eventing/Outbox/ShareEventOutboxReader.cs:14-31 | round trip: from the boundary before any event sequence to the boundary after it exactly those events come back, with chained offsets, whatever stands before and whatever has been appended behind |
| `Framing.ScanQuiet` | src/HashStormCore.Eventing/Outbox/ShareEventOutboxReader.cs:14-58 | whole records and then bytes a reader does not get past, read under any limit: exactly the whole records |
| `Framing.QuietStops` | src/HashStormCore.Eventing/Outbox/ShareEventOutboxReader.cs:60-102 | such bytes stop the reader under every limit, whatever stands behind them |
| `Framing.TornIsQuiet` | src/HashStormCore.Eventing/Outbox/ShareEventOutboxReader.cs:65-83 | the beginning of a record, cut anywhere, is such |
| `Framing.TornHeaderQuiet` | src/HashStormCore.Eventing/Outbox/ShareEventOutboxReader.cs:65-87 | a header without its payload followed by any bytes is such if and only if they are too few, or their word in the checksum's place is not the checksum of what stands before it, or that decodes to nothing |
| `Framing.TornPayloadQuiet` | src/HashStormCore.Eventing/Outbox/ShareEventOutboxReader.cs:82-87 | a header with its payload followed by any bytes is such if and only if their first word is not the payload's checksum |
| `Framing.SampleCodecIsLawful` | src/HashStormCore.Eventing/Outbox/FileShareEventOutbox.cs:37 | the laws asked of the JSON codec can be met, with as many events as there are texts |
| `Framing.FitSplits` | src/HashStormCore.Eventing/Outbox/ShareEventOutboxReader.cs:33-58 | any cut of a segment is whole records and a proper prefix of the next |
| `Reader.SegmentStream.ReadExact` | src/HashStormCore.Eventing/Outbox/ShareEventOutboxReader.cs:104-117 | fills the buffer with the next bytes, or fails exactly when the file ends first |
| `Reader.SegmentStream.TryReadRecord` | src/HashStormCore.Eventing/Outbox/ShareEventOutboxReader.cs:60-102 | the branches of the reader in order, including the 32-bit length test, an exception for a length no array can have, and a payload that decodes to nothing |
| `Reader.ReadSegmentRecords` | src/HashStormCore.Eventing/Outbox/ShareEventOutboxReader.cs:14-31 | the loop yields what scanning from the clamped start to the clamped limit yields |
| `Reader.ReadSegmentWithResult` | src/HashStormCore.Eventing/Outbox/ShareEventOutboxReader.cs:33-58 | records, valid length and completeness of one segment |
| `Reader.DarkSegment` | src/HashStormCore.Eventing/Outbox/ShareEventOutboxReader.cs:33-58 | whole records followed by bytes a reader does not get past: exactly the records, the boundary behind them, complete exactly when nothing follows |
| `Reader.WholeSegment` | src/HashStormCore.Eventing/Outbox/ShareEventOutboxReader.cs:33-58 | a segment of whole records reads back complete |
| `Reader.CutSegment` | src/HashStormCore.Eventing/Outbox/ShareEventOutboxReader.cs:33-58 | a segment cut at any byte: the records that fit, the last boundary, complete exactly when the cut is a boundary |
| `Reader.ReadStable` | src/HashStormCore.Eventing/Outbox/ShareEventOutboxReader.cs:14-31 | a record once read is read alike from a longer file and under a higher limit |
| `Reader.ScanCut` | src/HashStormCore.Eventing/Outbox/ShareEventOutboxReader.cs:53-57 | whatever a file holds, cutting it to the valid length loses no record a reader could see |
| `Checksums.Checksum` | src/HashStormCore.Eventing/Outbox/FileShareEventOutbox.cs:199-212 | the loop computes FNV-1a modulo 2^32 |
| `Checksums.FnvIs` | src/HashStormCore.Eventing/Outbox/FileShareEventOutbox.cs:199-212 | in numbers: the checksum of nothing is 2166136261, and a byte more is x-ored into the checksum first and then multiplied in by 16777619 modulo 2^32 |
| `Checksums.FnvOfA` | src/HashStormCore.Eventing/Outbox/FileShareEventOutbox.cs:199-212 | so the text "a" has the published value 0xE40C292C |
| `Checksums.MultiplyInverse` | src/HashStormCore.Eventing/Outbox/FileShareEventOutbox.cs:202-208 | 16777619 is invertible modulo 2^32 (899433627) |
| `Checksums.StepInjectiveInHash` | src/HashStormCore.Eventing/Outbox/FileShareEventOutbox.cs:205-209 | one step is a bijection of the 32-bit state |
| `Checksums.StepInjectiveInByte` | src/HashStormCore.Eventing/Outbox/FileShareEventOutbox.cs:205-209 | and injective in the byte |
| `Checksums.SingleByteCorruptionDetected` | src/HashStormCore.Eventing/Outbox/FileShareEventOutbox.cs:199-212 | changing one byte of a payload of any length changes the checksum |
| `Checksums.LE32RoundTrip` | src/HashStormCore.Eventing/Outbox/FileShareEventOutbox.cs:45-47 | little-endian words are read back, in both directions |
| `Checksums.LE32Is` | src/HashStormCore.Eventing/Outbox/FileShareEventOutbox.cs:45-47 | the four bytes by division, the lowest first |
| `Checksums.XorInvolution` | src/HashStormCore.Eventing/Outbox/FileShareEventOutbox.cs:207 | x-oring twice with one value restores the other |
| `SegmentNames.ParseInvertsName` | src/HashStormCore.Eventing/Outbox/FileShareEventOutbox.cs:190-195 | parsing the index inverts naming the segment, for every index of a long |
| `SegmentNames.NameIs` | src/HashStormCore.Eventing/Outbox/FileShareEventOutbox.cs:190 | a name is the twenty decimal digits of the index, place by place, and .wal |
| `SegmentNames.NameOrder` | src/HashStormCore.Eventing/Outbox/FileShareEventOutbox.cs:171-176 | the ordinal order of the names is the order of the numbers, both ways |
| `Wal.WalDirectory.SaveCheckpoint` | src/HashStormCore.Eventing/Outbox/ShareEventOutboxCheckpoint.cs:20-27 | at every moment of the replacement a restart would find the old checkpoint or the new one |
| `Wal.Recover` | src/HashStormCore.Eventing/Outbox/ShareEventOutboxRecovery.cs:5-21 | in place: cut the first incomplete segment to its valid length and look no further; an exception leaves the files alone |
| `Wal.RecoveryMends` | src/HashStormCore.Eventing/Outbox/ShareEventOutboxRecovery.cs:5-21 | on sound segments a pass cuts the first torn one to its records, wherever it is, and leaves all others byte for byte |
| `Wal.RecoveryRestores` | src/HashStormCore.Eventing/Outbox/ShareEventOutboxRecovery.cs:5-21 | when only the last segment was cut, at any byte, every segment is whole afterwards and exactly the complete records are there |
| `Wal.RecoveryKeepsCheckpoint` | src/HashStormCore.Eventing/Outbox/ShareEventOutboxRecovery.cs:12-19 | and no segment is cut below a checkpoint saved for a flushed record |
| `Wal.RecoveryRepairsOne` | src/HashStormCore.Eventing/Outbox/ShareEventOutboxRecovery.cs:10-20 | on any directory each pass repairs one incomplete segment; a second pass changes nothing if and only if at most one was incomplete |
| `Wal.RecoveryFixed` | src/HashStormCore.Eventing/Outbox/ShareEventOutboxRecovery.cs:10-20 | a pass changes nothing if and only if every segment is complete |
| `Wal.CutIsComplete` | src/HashStormCore.Eventing/Outbox/ShareEventOutboxRecovery.cs:12-18 | the segment cut is complete and keeps its records |
| `Dedup.DistinctPrefix` | src/HashStormCore.Eventing/Outbox/ShareEventOutboxPublisher.cs:30-63 | removing repeats keeps prefixes prefixes |
| `Dedup.DistinctUnique` | src/HashStormCore.Eventing/Outbox/ShareEventOutboxPublisher.cs:30-63 | and leaves each element once |
| `Dedup.DistinctReplay` | src/HashStormCore.Eventing/Outbox/ShareEventOutboxPublisher.cs:41-57 | delivering overlapping stretches of the log is, without repeats, delivering it up to the furthest one |
| `Attempts.AfterReads` | src/HashStormCore.Eventing/Outbox/ShareEventOutboxWriter.cs:217-225 | after any appends, each cancelled at any moment: what a reader finds in the segments, in order |
| `Attempts.ReadExactly` | src/HashStormCore.Eventing/Outbox/ShareEventOutboxWriter.cs:217-225 | a reader finds an event exactly if some append wrote it where a reader gets |
| `Attempts.LostEvents` | src/HashStormCore.Eventing/Outbox/ShareEventOutboxWriter.cs:130-146 | so of events that differ exactly those are lost that no append showed |
| `Attempts.ReadInOrder` | src/HashStormCore.Eventing/Outbox/ShareEventOutboxWriter.cs:130-146 | when every append joins what was shown before, what is read is, repeats apart, a beginning of what was taken, in order |
| `Attempts.HidesWhatFits` | src/HashStormCore.Eventing/Outbox/FileShareEventOutbox.cs:40-41 | an append hides records only behind a torn one, and then exactly those that fit its segment |
| `Attempts.NoTears` | src/HashStormCore.Eventing/Outbox/FileShareEventOutbox.cs:43-55 | without a cancellation inside a record nothing is hidden |
| `Attempts.SoundExactly` | src/HashStormCore.Eventing/Outbox/ShareEventOutboxReader.cs:60-102 | a reader is undisturbed in the end exactly if every append that found a torn record left bytes at which it stops |
| `Attempts.NothingLost` | src/HashStormCore.Eventing/Outbox/ShareEventOutboxWriter.cs:130-146 | without a cancellation inside a record, and with appends that follow one another to the end, everything taken is read in the order it was taken |
| `Attempts.OvertakingReorders` | src/HashStormCore.Eventing/Outbox/ShareEventOutboxWriter.cs:76-80 | two events whose batches are appended in the other order, as when a drain overtakes the batch in hand: both are read, the later one first |
| `Writer.ShareEventOutboxWriter.ExecuteAsync` | src/HashStormCore.Eventing/Outbox/ShareEventOutboxWriter.cs:29-74 | for every queue, every schedule of arrivals and every moment at which the stopping token or a shutdown token is cancelled, started on any recovered directory: every event taken was appended whole, or its batch was tried and given up when a shutdown token ran out; if none was given up, it does not throw and the queue was found empty; the segments hold what these appends made of them; when a reader is undisturbed; none is given up if no shutdown token runs out before all that is offered could be appended; and of the events queued at the start one for each ten looks at the token is appended without waiting for the shutdown |
| `Writer.ShareEventOutboxWriter.Round` | src/HashStormCore.Eventing/Outbox/ShareEventOutboxWriter.cs:45-82 | one round: a live token ends the wait only with an event; of the events taken, next in the queue and all accounted for afterwards, no more than nine looks at the token for each; a batch of more than one keeps the limits on events and on text times 1, 4 or 8 |
| `Writer.ShareEventOutboxWriter.EverythingIsRead` | src/HashStormCore.Eventing/Outbox/ShareEventOutboxWriter.cs:29-74 | with none given up, no drain that overtook a batch and no cancellation inside a record, a reader finds every event taken, in queue order, repeats apart |
| `Writer.ShareEventOutboxWriter.FlushBatchAsync` | src/HashStormCore.Eventing/Outbox/ShareEventOutboxWriter.cs:217-225 | one append under any token, on any segments: it is added to the history, and the segments are what the history says |
| `Writer.ShareEventOutboxWriter.StopAsync` | src/HashStormCore.Eventing/Outbox/ShareEventOutboxWriter.cs:76-80 | after ExecuteAsync has drained it changes nothing; called when the wait for ExecuteAsync was cut short it drains the queue itself, past a batch in hand, and that batch is still accounted for |
| `Writer.ShareEventOutboxWriter.FlushBatchWithShutdownRecoveryAsync` | src/HashStormCore.Eventing/Outbox/ShareEventOutboxWriter.cs:130-146 | a batch interrupted by shutdown is appended again as a whole; it throws only when the shutdown token ran out as well, and the batch was tried |
| `Writer.ShareEventOutboxWriter.FlushDequeuedBatchDuringShutdownAsync` | src/HashStormCore.Eventing/Outbox/ShareEventOutboxWriter.cs:148-162 | the batch is appended once more, all of it, under a token of its own; the caller is told exactly when that runs out before four looks for each event and the flush |
| `Writer.ShareEventOutboxWriter.FillBatchUntilLimitsAsync` | src/HashStormCore.Eventing/Outbox/ShareEventOutboxWriter.cs:82-99 | fills in queue order until a limit, the timer or the shutdown, never beyond the first event that reaches a limit; what it dequeued is in the batch |
| `Writer.ShareEventOutboxWriter.DrainRemainingQueueDuringShutdownAsync` | src/HashStormCore.Eventing/Outbox/ShareEventOutboxWriter.cs:182-215 | appends what is queued, batch by batch, until the queue is found empty or a shutdown token runs out, which gives up the batch and ends the drain; a batch in the hands of another task stays accounted for |
| `Writer.ShareEventOutboxWriter.DrainRemainingQueueDuringShutdownOnceAsync` | src/HashStormCore.Eventing/Outbox/ShareEventOutboxWriter.cs:164-180 | only the first call drains |
| `Writer.ShareEventOutboxWriter.GetDrainMultiplier` | src/HashStormCore.Eventing/Outbox/ShareEventOutboxWriter.cs:101-110 | 8 exactly above the critical threshold, 4 exactly between it and the soft one, else 1 |
| `Queue.ActionAccounts` | src/HashStormCore.Eventing/Queue/InMemoryShareEventQueue.cs:30-65 | each atomic step keeps: count and byte counter are the channel length and byte sum corrected by the operations in flight |
| `Queue.CountersUnderInterleaving` | src/HashStormCore.Eventing/Queue/InMemoryShareEventQueue.cs:30-65 | over every interleaving of any number of producers with the reader: exact when nothing is in flight; events leave in the order they entered and none is dropped |
| `Queue.InMemoryShareEventQueue.EnqueueAsync` | src/HashStormCore.Eventing/Queue/InMemoryShareEventQueue.cs:30-43 | the channel write and the two counter updates, here one right after the other, are three atomic actions of the shared machine, whatever other operations are half-way |
| `Queue.InMemoryShareEventQueue.TryDequeue` | src/HashStormCore.Eventing/Queue/InMemoryShareEventQueue.cs:53-65 | returns the oldest event, or nothing only from an empty channel |
| `DbWriter.InsertAllRows` | src/HashStormCore.DbWriter/Services/ShareBatchPersistenceService.cs:23-36 | from tables with one row per event, any batch, with repeats inside it and of earlier ones, leaves tables with one row per event |
| `DbWriter.ShareBatchPersistenceService.PersistAsync` | src/HashStormCore.DbWriter/Services/ShareBatchPersistenceService.cs:17-39 | all rows of the batch are in or, when the connection is lost at any statement, none; when only the reply to the commit is lost, all are in and the caller is told it failed |
| `DbWriter.RowsAre` | src/HashStormCore.DbWriter/Services/ShareEventPersistenceMapper.cs:7-29 | which events have rows and what these hold: the k-th share row is the k-th event of the three types, column by column, an event without a time getting that of the transaction; likewise for blocks |
| `DbWriter.ExactlyOnceOverEveryRun` | src/HashStormCore.DbWriter/Services/DbWriterService.cs:37-53 | for every sequence of publications, deliveries, redeliveries, repeated and rolled-back transactions and acknowledgements: one row per first occurrence of an id in the processed and event tables; a share, column by column, for each of these whose type is accepted share, block candidate or accepted block and for no other; a block for each candidate and no other; acknowledged implies persisted |
| `DbWriter.StepInv` | src/HashStormCore.DbWriter/Services/DbWriterService.cs:37-53 | kept by every step from any state |
| `DbWriter.FirstsAreUnique` | src/HashStormCore.DbWriter/Services/ShareBatchPersistenceService.cs:41-57 | first occurrences have distinct ids and cover all ids |
| `DbWriter.DbWriterService.ExecuteAsync` | src/HashStormCore.DbWriter/Services/DbWriterService.cs:37-53 | the loop, with publishers and other consumers of the group delivering, claiming, committing and acknowledging any number of times at every await. It ends only when a transaction is reported as failed or the token is cancelled; unless one failed, everything it read is committed and acknowledged, and if the token lives for five looks for each entry not yet acknowledged, those to come included, and five more, all that was on the stream at the start has been handed out and nothing is left pending under this consumer's name |
| `DbWriter.DbWriterService.Round` | src/HashStormCore.DbWriter/Services/DbWriterService.cs:37-53 | one round: unless a transaction is reported as failed, everything read is committed and acknowledged; with nothing to read, the group has handed everything out |
| `DbWriter.DbWriterService.ProcessRecords` | src/HashStormCore.DbWriter/Services/DbWriterService.cs:46-52 | persist, then acknowledge, one entry after the other: this consumer acknowledges exactly the entries before the first transaction reported as failed, and these are committed |
| `DbWriter.ConsumerGroup.ReadPendingFirstAsync` | src/HashStormCore.Eventing/Transport/RedisStreamsConsumer.cs:43-54 | the oldest of the consumer's own pending entries, in order; claimed ones only if it has none; the next new entries, in order, only if there are no claimed ones either, and these become pending; a cancelled token changes nothing |
| `KeyNames.Encode` | src/HashStormCore.Contracts/Redis/RedisLiveKeyNames.cs:23-39 | the loop over the trimmed characters |
| `KeyNames.EncodedIsSafe` | src/HashStormCore.Contracts/Redis/RedisLiveKeyNames.cs:23-39 | never empty, no colon, idempotent, and the identity exactly on non-empty safe names |
| `KeyNames.EncodedIs` | src/HashStormCore.Contracts/Redis/RedisLiveKeyNames.cs:25-38 | white space in front of a name and behind it does not matter; of what is between, letters, digits, hyphens, underscores and dots stay and every other character becomes an underscore; white space alone is encoded as one |
| `KeyNames.KeysAreUnambiguous` | src/HashStormCore.Contracts/Redis/RedisLiveKeyNames.cs:8-21 | two keys are the same text if and only if they are of one kind with the same encoded names and timestamp |
| `KeyNames.KeyIsText` | src/HashStormCore.Contracts/Redis/RedisLiveKeyNames.cs:8-21 | each kind of key, written out |
| `KeyNames.ClearPrefixIsOwn` | src/HashStormCore.Contracts/Redis/RedisLiveKeyNames.cs:7 | a key starts with the prefix a pool is cleared by if and only if it belongs to that encoded pool |
| `KeyNames.ActivePatternIsOwn` | src/HashStormCore.LiveAggregator/Services/RedisLiveStateWriter.cs:146 | the wildcard pattern deleted before a rebuild matches only sets of active workers of that pool |
| `KeyNames.NumberInjective` | src/HashStormCore.Contracts/Redis/RedisLiveKeyNames.cs:16-21 | different timestamps are different text |
| `LiveCounters.EntriesWeigh` | src/HashStormCore.LiveAggregator/Services/RedisLiveStateWriter.cs:270-298 | the field-by-field increments of an event add up to its weight |
| `LiveCounters.WeightedIsContribution` | src/HashStormCore.LiveAggregator/Services/LiveBucketCalculator.cs:12-16 | an event of positive difficulty weighs its difficulty, times its multiplier if that is positive; any other weighs nothing |
| `LiveCounters.StartIsMultiple` | src/HashStormCore.LiveAggregator/Services/RedisLiveStateWriter.cs:331-335 | bucket starts are multiples of the width; past the epoch a bucket holds the times from its start to the next, before it the truncating remainder rounds the other way |
| `LiveCounters.StartOrder` | src/HashStormCore.LiveAggregator/Services/RedisLiveStateWriter.cs:331-335 | bucket starts never decrease with time |
| `LiveCounters.SeenIsRepeat` | src/HashStormCore.LiveAggregator/Services/RedisLiveStateWriter.cs:236-245 | the id is in the set of seen ids of its bucket if and only if an equal event counted before |
| `LiveState.RedisLiveStateWriter.constructor` | src/HashStormCore.LiveAggregator/Services/RedisLiveStateWriter.cs:11-18 | lifetimes and widths are at least one second |
| `LiveState.RedisLiveStateWriter.ClearPoolStateAsync` | src/HashStormCore.LiveAggregator/Services/RedisLiveStateWriter.cs:40-65 | removes all keys of the pool and no other: its counters stand at zero, those of other pools are untouched |
| `LiveState.RedisLiveStateWriter.WriteEventAsync` | src/HashStormCore.LiveAggregator/Services/RedisLiveStateWriter.cs:81-114 | with time passing before every store operation: the event counts unless its id, pool and bucket counted before, and every counter and set of every bucket not past its life equals what the counted events make it |
| `LiveState.RedisLiveStateWriter.MarkSeenAsync` | src/HashStormCore.LiveAggregator/Services/RedisLiveStateWriter.cs:236-245 | answers new exactly for an event that is no repeat, as long as its bucket lives; an event without id is always new |
| `LiveState.RedisLiveStateWriter.IncrementBucketAsync` | src/HashStormCore.LiveAggregator/Services/RedisLiveStateWriter.cs:270-298 | adds the event's weight, described by LiveCounters.WeightedIsContribution, to one counter and disturbs no other |
| `LiveState.RedisLiveStateWriter.ReadCounterAsync` | src/HashStormCore.LiveAggregator/Services/RedisLiveStateWriter.cs:300-329 | reads the sum over the counted events of that key |
| `LiveState.RedisLiveStateWriter.RebuildPoolWindowAsync` | src/HashStormCore.LiveAggregator/Services/RedisLiveStateWriter.cs:116-163 | if reading ends before the life of the first bucket does, the document is right: counters are the sums over the counted events whose bucket lies in the window; miners and workers listed are those of the window, one spelling of each |
| `LiveState.RedisLiveStateWriter.ReadWindowAsync` | src/HashStormCore.LiveAggregator/Services/RedisLiveStateWriter.cs:126-137 | the loop over the buckets |
| `LiveState.RedisLiveStateWriter.RebuildMinersAsync` | src/HashStormCore.LiveAggregator/Services/RedisLiveStateWriter.cs:165-208 | each listed miner's counter over the window and its workers |
| `LiveState.RedisLiveStateWriter.RebuildWorkerAsync` | src/HashStormCore.LiveAggregator/Services/RedisLiveStateWriter.cs:210-234 | a worker's counter; its document is written only if it did something |
| `LiveState.RedisLiveStateWriter.WriteBatchAsync` | src/HashStormCore.LiveAggregator/Services/RedisLiveStateWriter.cs:27-38 | writes the events in order up to a cancellation, then rebuilds one spelling of each of their pools; every document whose reading ends in time agrees with the counted events |
| `LiveState.DeliverAll` | src/HashStormCore.LiveAggregator/Services/RedisLiveStateWriter.cs:27-38 | over a whole run of clearing, deliveries and rebuilds, with time passing at every store operation and a token that may be cancelled at any event: with consistent ids and no event before its time, the counts and the difficulty of every document of a cleared pool, of its miners and of their workers are the numbers, and the difficulty, of distinct events delivered up to then in its window, provided keys live for the window, one bucket and the time a document takes to be read |
| `LiveState.ReportedCounts` | src/HashStormCore.LiveAggregator/Services/RedisLiveStateWriter.cs:116-163 | the step from one document that was read in time to its counts |
| `LiveState.Counter.Add` | src/HashStormCore.LiveAggregator/Services/RedisLiveStateWriter.cs:359-366 | adds field by field |
| `LiveState.LifeSuffices` | src/HashStormCore.LiveAggregator/Services/RedisLiveStateWriter.cs:236-245 | a lifetime of the window, one bucket and the time the reading takes keeps every bucket of the window alive to the end of the reading |
| `LiveState.SummaryCountsEvents` | src/HashStormCore.LiveAggregator/Services/RedisLiveStateWriter.cs:147-158 | total, accepted, rejected and stale counts are numbers of distinct delivered events of these types in the window, which holds all created in it and none older than its first bucket; the difficulty is that of the accepted ones together |
| `LiveState.TallyCounts` | src/HashStormCore.LiveAggregator/Services/RedisLiveStateWriter.cs:165-234 | for a pool, a miner or a worker: counts and difficulty in terms of the distinct delivered events that name it |
| `LiveState.DocumentConservesMiners` | src/HashStormCore.LiveAggregator/Services/RedisLiveStateWriter.cs:165-208 | where the window's miner names are equal ignoring case exactly when they are equal under Encode, the listed miners add up to the pool's events that carry a miner |
| `LiveState.DocumentConservesWorkers` | src/HashStormCore.LiveAggregator/Services/RedisLiveStateWriter.cs:201-206 | and each miner's workers to its events that carry a worker, under the condition of LiveListing.WorkersListedOnce |
| `LiveWindows.Buckets` | src/HashStormCore.LiveAggregator/Services/RedisLiveStateWriter.cs:337-343 | from the start of the first bucket to that of the last, ascending, none left out |
| `LiveWindows.WindowSum` | src/HashStormCore.LiveAggregator/Services/RedisLiveStateWriter.cs:126-131 | adding up the buckets of a window counts each event of the window once |
| `LiveWindows.Accounting` | src/HashStormCore.LiveAggregator/Services/RedisLiveStateWriter.cs:174-178 | whatever the names, the listed counters add up to the window's events, each as often as a listed counter is for it |
| `LiveWindows.CountedOnce` | src/HashStormCore.LiveAggregator/Services/RedisLiveStateWriter.cs:88-89 | when ids are present and tell events apart, the deliveries that count are the delivered events, each once |
| `LiveWindows.WindowCounts` | src/HashStormCore.LiveAggregator/Services/RedisLiveStateWriter.cs:152-154 | a pool's counters over a window are cardinalities of sets of events of literal types, and its difficulty is the sum over such a set of what each event contributes |
| `LiveWindows.CounterDescribes` | src/HashStormCore.LiveAggregator/Services/RedisLiveStateWriter.cs:165-234 | likewise the counter of a miner and of a worker |
| `LiveWindows.WindowReaches` | src/HashStormCore.LiveAggregator/Services/RedisLiveStateWriter.cs:119-120 | a window holds every event created in it, and past the epoch none created before its first bucket |
| `LiveWindows.SameEventsSameCounter` | src/HashStormCore.LiveAggregator/Services/RedisLiveStateWriter.cs:81-114 | two histories with the same events at a key give the same counter, whatever their order |
| `LiveListing.WorkersOf` | src/HashStormCore.LiveAggregator/Services/RedisLiveStateWriter.cs:168-172 | grouping the pairs by miner, ignoring case, and looking the miner up |
| `LiveListing.PairInverts` | src/HashStormCore.LiveAggregator/Services/RedisLiveStateWriter.cs:264-268 | a stored pair is read back if and only if the miner's name has no tab |
| `LiveListing.MinersListedOnce` | src/HashStormCore.LiveAggregator/Services/RedisLiveStateWriter.cs:122-134 | for any history: every list the case-ignoring set can produce has each event that carries a miner in exactly one listed counter if and only if the window's names are equal ignoring case exactly when they are equal under Encode |
| `LiveListing.WorkersListedOnce` | src/HashStormCore.LiveAggregator/Services/RedisLiveStateWriter.cs:168-172 | likewise for the workers of a listed miner, whichever pairs and names the sets keep: if and only if no such event has a tab in its miner's name and its worker is equal to another candidate ignoring case exactly when it is under Encode |
| `LiveListing.MinersConserve` | src/HashStormCore.LiveAggregator/Services/RedisLiveStateWriter.cs:165-208 | the sum over listed miners, for any list the set of miners can produce, under that condition |
| `LiveListing.WorkersConserve` | src/HashStormCore.LiveAggregator/Services/RedisLiveStateWriter.cs:168-172 | the sum over a listed miner's workers, under that condition |
| `LiveListing.CaseOnlyNamesAreLost` | src/HashStormCore.LiveAggregator/Services/RedisLiveStateWriter.cs:122-134 | in any history, of two miners whose names differ in case only and have keys of their own, at most one is in a listed counter, whichever list: the events of the other are lost |
| `LiveListing.CaseOnlyExample` | src/HashStormCore.LiveAggregator/Services/RedisLiveStateWriter.cs:122-134 | two such miners, A and a |
| `LiveListing.TabExample` | src/HashStormCore.LiveAggregator/Services/RedisLiveStateWriter.cs:264-268 | and a miner with a tab in its name, whose worker is not listed once |
| `LiveRestart.RangePages.MoveNextAsync` | src/HashStormCore.Eventing/Transport/RedisStreamsConsumer.cs:72-92 | each page continues exactly behind the last entry visited, in order, none left out or repeated, on a stream that grows; every page but the last is full, and the rest to visit shrinks, so the pages end; a cancelled token ends them too |
| `LiveRestart.LiveAggregatorService.RebuildFromRetainedStreamAsync` | src/HashStormCore.LiveAggregator/Services/LiveAggregatorService.cs:62-77 | terminates; of the entries there at its start exactly those numbered from the first millisecond of the window to number 9999 of the last are visited; what they brought since the start of the window has then been delivered, and nothing else |
| `LiveRestart.VisitedExactly` | src/HashStormCore.Eventing/Transport/RedisStreamsConsumer.cs:70-92 | so nothing retained is passed over if and only if every retained entry is older than the last millisecond or numbered at most 9999 in it |
| `LiveRestart.EntryBeyondRange` | src/HashStormCore.Eventing/Transport/RedisStreamsConsumer.cs:72-81 | of the millisecond a replay ends in, exactly the entries numbered from 10000 on are not visited: the page they would come on is empty |
| `LiveRestart.MissedExactly` | src/HashStormCore.LiveAggregator/Services/LiveAggregatorService.cs:62-77 | and what a missed entry brought has been delivered exactly if it came with visited entries too |
| `LiveRestart.LiveAggregatorService.ConsumeAsync` | src/HashStormCore.LiveAggregator/Services/LiveAggregatorService.cs:42-59 | unless the token is cancelled, everything read is written and then acknowledged, and nothing else is; with nothing to read, the group has handed everything out |
| `LiveRestart.LiveAggregatorService.StartAsync` | src/HashStormCore.LiveAggregator/Services/LiveAggregatorService.cs:32-40 | group first, then clear, then replay: afterwards everything the group will not deliver is done, but for the entries of the last millisecond numbered above 9999, which are named |
| `LiveRestart.LiveAggregatorService.ExecuteAsync` | src/HashStormCore.LiveAggregator/Services/LiveAggregatorService.cs:21-60 | kept whatever others append, until the token is cancelled, which alone ends it; if the token lives for a number of looks known at the start, all that was on the stream then has been handed out, and is still pending only if it was, under another consumer's name |
| `LiveRestart.LiveAggregatorService.RestartLeavesNoTrace` | src/HashStormCore.LiveAggregator/Services/LiveAggregatorService.cs:32-76 | once the group is drained, and nothing was missed, every live bucket that starts after the replay's start has the counters of an aggregator that received the stream's events in any order with any repeats |
| `LiveRestart.RedisStreamsConsumer.EnsureGroupAsync` | src/HashStormCore.Eventing/Transport/RedisStreamsConsumer.cs:25-36 | creates the group at the end of the stream, leaves an existing one as it is |
| `Merkle.MerkleTree.constructor` | src/HashStormCore/Crypto/MerkleTree.cs:24-27 | the steps of the list |
| `Merkle.MerkleTree.CalculateSteps` | src/HashStormCore/Crypto/MerkleTree.cs:56-91 | the loop with its null placeholder computes the branch, level size decreasing |
| `Merkle.MerkleTree.WithFirst` | src/HashStormCore/Crypto/MerkleTree.cs:108-116 | for every coinbase: the Merkle root of the coinbase and the list, odd levels repeating their last node; with one hash, the digest taken twice of the two |
| `Merkle.SmallRoots` | src/HashStormCore/Crypto/MerkleTree.cs:101-125 | the trees of one, two and three leaves, written with the digest alone, each join digesting twice |
| `Merkle.BranchGivesRoot` | src/HashStormCore/Crypto/MerkleTree.cs:56-116 | folding any first hash through the branch gives the root of the whole tree |
| `Merkle.BranchLength` | src/HashStormCore/Crypto/MerkleTree.cs:56-91 | with n hashes there are ceil(log2(n + 1)) steps |
| `ExtraNonce.ExtraNonceProviderBase.Create` | src/HashStormCore/Blockchain/ExtraNonceProviderBase.cs:10-42 | a given id above 15 is refused; a random byte is cut to four bits |
| `ExtraNonce.ExtraNonceProviderBase.Next` | src/HashStormCore/Blockchain/ExtraNonceProviderBase.cs:63-83 | counts up, rolls over behind the maximum, and returns id and counter packed by a bitwise or as hex |
| `ExtraNonce.NonceIs` | src/HashStormCore/Blockchain/ExtraNonceProviderBase.cs:79-82 | a nonce is the hexadecimal digit of the id and then the counter in the digits that are left |
| `ExtraNonce.RangeIs` | src/HashStormCore/Blockchain/ExtraNonceProviderBase.cs:15-16 | and the counter uses all of these: the range is 16 to the number of digits but one |
| `ExtraNonce.HexIs` | src/HashStormCore/Blockchain/ExtraNonceProviderBase.cs:18 | each digit of the text is the one of the number at that place |
| `ExtraNonce.OrPacks` | src/HashStormCore/Blockchain/ExtraNonceProviderBase.cs:79 | the or of the shifted id and a counter that fits is their sum |
| `ExtraNonce.NonceLength` | src/HashStormCore/Blockchain/ExtraNonceProviderBase.cs:82 | every result has exactly two digits per byte |
| `ExtraNonce.NonceInjective` | src/HashStormCore/Blockchain/ExtraNonceProviderBase.cs:79-82 | results of one width are equal if and only if id and counter are: providers with different ids never return the same string |
| `ExtraNonce.NoncesRepeatAfterRounds` | src/HashStormCore/Blockchain/ExtraNonceProviderBase.cs:67-80 | two calls return the same string if and only if a whole number of rounds lies between them |
| `ExtraNonce.ConsecutiveNoncesDiffer` | src/HashStormCore/Blockchain/ExtraNonceProviderBase.cs:67-80 | any nonceMax + 1 calls in a row return different strings, across the rollover |
| `ShareRecovery.ShareRecorder.RecoverSharesAsync` | src/HashStormCore/Mining/ShareRecorder.cs:209-303 | the loop over the lines, with any outcome of each transaction, computes the import the following lemmas are about |
| `ShareRecovery.LineAdds` | src/HashStormCore/Mining/ShareRecorder.cs:236-257 | what one more line adds, whatever white space is around it: nothing if it is blank or begins with #, otherwise one share or one failure |
| `ShareRecovery.ImportedIsPrefix` | src/HashStormCore/Mining/ShareRecorder.cs:209-303 | the shares counted as imported are a prefix of the file's shares; they are exactly what the database gained if and only if no commit was reported as failed; they are all if and only if the last transaction committed or had nothing to do; failCount is unparsable lines plus failed transactions |
| `ShareRecovery.AllIsImported` | src/HashStormCore/Mining/ShareRecorder.cs:209-303 | when no transaction fails everything is imported, once |
| `ShareRecovery.LostReplyImportsTwice` | src/HashStormCore/Mining/ShareRecorder.cs:209-303 | in any file of a hundred readable shares or more, when the first commit is reported as failed and the next is not, the first hundred shares are in the database twice and all count as imported once |

## Left out

- Power loss: a crash loses what is in the process's buffers, not what the operating system has accepted; the fsync modes differ only in that.
- JSON text, and stream entries whose payload does not parse: entries carry their batches, and the decoder is abstract.
- I/O errors (full disk, missing rights, a broken connection outside the points modelled) and files in the outbox directory that the outbox did not name.
- Partial reads of a regular file: `Read` returns all bytes asked for unless the file ends.
- Publisher.ShareEventOutboxPublisher.OtherTasks: an append runs to its end or its cancellation between two awaits of the publisher; appends behind a torn record whose bytes pass a checksum by chance, which Torn.TornQuiet describes, are not interleaved.
- Segment numbers at or above 2^63, and the 32-bit counters of the queue and of the event batches, do not wrap.
- Clock time of timers, delays, log throttling and GetRetryDelay: a timed wait may end at any time; how long a token lives is a number of looks at it.
- Publisher.ShareEventOutboxPublisher.Work: appends of other tasks are limited to a number of events, any number, and broker failures likewise; so the progress bounds are for runs in which others do not act without end while the service waits once.
- Contracts.IsBlank knows the ASCII blanks only; the key names take white space and letters from an arbitrary classification of characters.
- Share events carry the fields the model uses, the share_events table is the event itself, and nullable texts are empty.
- Writer.ShareEventOutboxWriter.ExecuteAsync: the publisher's deletions do not run between its awaits; Publisher.DeletionCommutes shows that they change no append, and Pipeline interleaves them with appends. Every queued event has the id the mapper gives it and can be serialised, so no append is refused.
- Writer.ShareEventOutboxWriter.StopAsync: events that arrive after the drain stay in the queue, as in the source.
- Queue.InMemoryShareEventQueue.EnqueueAsync: the object's methods run their three actions one after the other; any interleaving with other tasks is covered by the machine of Queue.CountersUnderInterleaving.
- LiveState.RedisLiveStateWriter.WriteEventAsync: every call completes; a crash between its store operations can leave part of an event's increments, for which the source promises nothing.
- LiveState.RedisLiveStateWriter.RebuildPoolWindowAsync: hashrates, last-seen times, the top-miners ranking, the status document and the sets of active workers are left out; documents are returned, not stored.
- LiveRestart.LiveAggregatorService.ExecuteAsync: one process consumes the group, its clock is the server's, and the stream is not trimmed.
- Counters are exact numbers, difficulties reals: the double arithmetic of the store is not modelled.
- ShareRecovery.ShareRecorder.RecoverSharesAsync: progress logging, block notifications and a missing file.
- ShareBatchPublisher, retry and circuit-breaker policies, ZMQ, the Stratum server, HTTP controllers, SQL readers, configuration, object mappers, hash bindings, VarDiff, payment schemes and job validation: plumbing, foreign calls or code this model does not need.
