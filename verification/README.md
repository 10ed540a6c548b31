# AetherLink transfer protocol: a Dafny model

AetherLink moves files over several streams at once and resumes after interruptions. A sender splits
each file into chunks and deals them from one queue to N workers; a receiver reassembles each chunk,
verifies it against a committed hash, writes it at its offset, marks it in a bitmap, and checkpoints
that bitmap to a sidecar record so that a later session sends only what is missing.

This project models that protocol and proves what it is for. `dafny verify dfyconfig.toml` checks all
of it. The main theorems are:

- **Crash-safe resume** (`CrashSafety`): every bit of every record ever put in place names a chunk whose
  durable bytes have the committed hash, for ever after, in every run with any interleaving, kills and
  power losses.
- **Resuming** (`Resume`, `Checkpoint`): a session starts from exactly what the last checkpoint recorded, or from
  exactly what is on disk; an interrupted session can always leave the record of all it has marked.
- **End to end** (`EndToEnd`): if the sender returns Ok, every accepted non-empty file is on disk and
  equals its source, through any number of interrupted sessions.
- **Page-release safety and progress** (`ReadCursors`, `Scheduler`): no page is dropped under a borrow,
  and all but a batch are dropped.
- **Conservation and convergence** (`Pipeline`, `Convergence`, `Places`, `Bridge`): on an undisturbed link every
  chunk is in exactly one place, every run ends, and it can only end complete.
- **Wire round trip and receiver safety** (`Frames`, `Wire`, `Drain`, `RoundTrip`), **checkpoint
  accounting** (`Accounting`), **throttling under races** (`Throttle`), **path normalisation** (`Paths`),
  and the data structures these rest on.

## How the model is built

| file | contents |
|---|---|
| `Base.dfy` | machine integers, bytes, results, little-endian integers |
| `ChunkLayout.dfy`, `Bitmap.dfy`, `WorkQueue.dfy`, `Counters.dfy`, `Hashes.dfy` | chunk geometry, the bitmap and its runs, the work queue, byte counters, hash commitments |
| `Frame.dfy`, `Wire.dfy`, `Drain.dfy`, `RoundTrip.dfy` | header codec, framing, `drain_stream`, their round trip |
| `Record.dfy`, `Receiver.dfy`, `CrashSafety.dfy`, `Accounting.dfy`, `Checkpoint.dfy`, `Resume.dfy`, `EndToEnd.dfy` | the resume record, the receiver as a state machine over a disk, its theorems |
| `Traces.dfy`, `Witness.dfy` | concrete runs of that machine, which show that the theorems are not empty |
| `ReadCursor.dfy`, `Scheduler.dfy` | the read cursor, the sender's workers |
| `Pipeline.dfy`, `Convergence.dfy`, `Places.dfy`, `Totals.dfy` | an undisturbed transfer from queue to bitmap and final count |
| `Bridge.dfy` | where the models of stream, receiver and transfer meet |
| `Throttle.dfy`, `Paths.dfy` | progress throttling, paths and manifests |

Concurrent code is a state machine whose steps are the source's atomic actions, with relaxed atomics
taken as sequentially consistent; a run is any sequence of enabled steps. Loops and objects are methods
and classes proved against specification functions. The hash is a parameter `H`.

The disk of the receiver machine has a cache view and a durable view. A write changes the cache, in any
part before it returns; the kernel may write back any set of bytes at any time; a sync returns only when
every byte that was dirty at its start has been written back; a power loss leaves the durable view and,
as the record, any one ever renamed into place or none.

Hypotheses, each stated in the lemmas that need it:

- Every session at a path uses the same `StateKey` and nothing else edits the file. `OtherKeyOverwrites`
  and `TruncationGoesUnseen` show why. With one key, `SameKeySameCommitment` gives one list of hashes.
- `NoCollision`, state by state: where two strings meet as candidates for one chunk (the chunk as cached,
  as on disk, and as about to be written over), not both have the committed hash unless they are equal.
  `EndToEnd` asks the same of the final file against the source, and `Record` and `Hashes` ask `Separates` of
  the two strings they compare. Nothing is asked about strings that do not occur. `NoCollisionIsPossible`
  and the runs in `Witness` show that this can be met.
- The sender's file does not change, and file ids are distinct (the offer loop, recv.rs:138-222, does
  not check this).
- No staging path is another file's sidecar or temporary: `with_extension("tmp")` (resume.rs:67-68)
  maps `a.bin.aether_state` to `a.bin.tmp`.
- Content equality needs a non-empty file: for size 0 the reservation returns early and does not
  truncate (platform.rs:23-25), as `Spec.Reserve` models.
- The frame size is positive and `min(frame_size, chunk_size)` fits in one frame; convergence needs at
  least one stream. The configuration enforces neither.
- For the throttle, the clock stays below the sentinel 2^64 - 1 microseconds.

Where text and code disagree the code is followed: bitmap.rs:3-5 says that a bit is set after an fsync, but
recv.rs:400-412 sets it once the chunk is verified and written (`BitBeforeSync`). Only a bit in a persisted
record means durable. `load` takes the chunk count from the record and never compares it with the layout
(resume.rs:103-118); that the two agree is part of the crash-safety invariant.

## Model

| member | source | states |
|---|---|---|
| `CrashSafety.CrashSafeResume` | core/crates/aetherlink-core/src/recv.rs:392-480 | In every run (any interleaving of workers, kernel write-back, kills, power losses, any number of same-key sessions) in which no two strings that meet as one chunk collide: once a record with bit `i` has been renamed into place, chunk `i` has the committed hash at every later moment, both in the page cache and in what a power loss would leave. |
| `Resume.NextSessionResumes` | core/crates/aetherlink-core/src/recv.rs:187-200 | When a checkpoint has put the record of `v` in place, the next session that resumes opens with exactly `v`, whatever sessions and kills lie between, as long as none replaced or removed the record. |
| `Resume.OpensWithRecord` | core/crates/aetherlink-core/src/recv.rs:187-191 | A session that resumes over the record of `v`, on a file reserved to its full length, starts with exactly `v`. |
| `Resume.OpensWithWhatIsThere` | core/crates/aetherlink-core/src/recv.rs:192-197 | Without a record, over a file that was already there, it starts with exactly the readable chunks whose bytes have the committed hash. |
| `Resume.OpensEmpty` | core/crates/aetherlink-core/src/recv.rs:187-200 | With resume off, or with neither record nor file, it starts with nothing. |
| `Resume.CanOpen` | core/crates/aetherlink-core/src/recv.rs:182-200 | From every idle state, however the last session ended, a session can open, resuming or not. |
| `Resume.DiscardedIsForgotten` | core/crates/aetherlink-core/src/recv.rs:295-298 | Once a finished file has dropped its record, no later session finds one until a checkpoint or a power loss brings one back. |
| `Checkpoint.OneCheckpointAtATime` | core/crates/aetherlink-core/src/recv.rs:454-460 | At every moment of every run at most one worker is between taking the checkpoint lock and letting go of it. |
| `Checkpoint.RenamedIsSnapshot` | core/crates/aetherlink-core/src/recv.rs:464-480 | What a rename puts in place is the bitmap exactly as it stood at one earlier moment, when that worker took its snapshot. |
| `Checkpoint.InterruptionIsRecorded` | core/crates/aetherlink-core/src/recv.rs:277-285 | However a session was interrupted, if it has marked anything its last checkpoint can run to the end and puts the record of everything marked in place. |
| `Checkpoint.NothingIsSafeByLuck` | core/crates/aetherlink-core/src/recv.rs:434-441 | The model's disk is as hostile as stated: at every moment the process may be killed, any bytes may be written back, and a power loss leaves exactly what had been written back, with any record ever put in place or none. |
| `Checkpoint.WritesMayTear` | core/crates/aetherlink-core/src/io.rs:250-262 | While a chunk is being written any of its bytes may have reached the file. |
| `Checkpoint.WorkersMayFail` | core/crates/aetherlink-core/src/recv.rs:333-432 | A worker may fail wherever it waits for the stream or the disk. |
| `CrashSafety.StepKeepsInv` | core/crates/aetherlink-core/src/recv.rs:434-480 | Every single step of worker, checkpoint, kernel, finish phase or crash keeps the invariant behind it: snapshots are backed by the cache, syncing snapshots by the bytes already flushed, stored records by the durable image. |
| `CrashSafety.RunKeepsInv` | core/crates/aetherlink-core/src/recv.rs:319-480 | That invariant holds in every state of every run. |
| `CrashSafety.BitBeforeSync` | core/crates/aetherlink-core/src/recv.rs:400-412 | A bit in memory only means verified and written: a concrete session sets it while the durable image still lacks the chunk. This is why the snapshot must precede the sync. |
| `CrashSafety.FastPathWithinSlowPath` | core/crates/aetherlink-core/src/resume.rs:89-141 | At every moment of every run, every chunk `load` would report is one that re-verification of the file would find: losing the record costs time but no chunk. |
| `CrashSafety.OtherKeyOverwrites` | core/crates/aetherlink-core/src/recv.rs:187-200 | Why one key per path is a hypothesis: from any idle state, a session for another file overwrites a chunk while the old record stays in place. |
| `CrashSafety.TruncationGoesUnseen` | core/crates/aetherlink-core/src/resume.rs:112-116 | A truncation between sessions is invisible to `load`, because the sink has restored the length first (recv.rs:185); on the file as found the record would be refused. |
| `EndToEnd.EndToEnd` | core/crates/aetherlink-core/src/recv.rs:266-308 | Over any number of files, sessions, kills and power losses: from the moment Complete is sent, hence whenever the sender has returned Ok, every accepted non-empty file equals its source byte for byte, durably. |
| `EndToEnd.EventKeepsInv` | core/crates/aetherlink-core/src/recv.rs:287-308 | Each event (a step of one file, a crash that takes all files, Complete, the sender's return) keeps the multi-file invariant. |
| `Accounting.UnrecordedBytesAreCounted` | core/crates/aetherlink-core/src/recv.rs:442-466 | In every state of every run with a non-zero threshold, the chunks recorded but absent from the latest snapshot, and from the one a worker has already reset the counter for, weigh at most `since_checkpoint` plus the chunks of workers between setting the bit and adding to the counter. |
| `Accounting.ResetOpensGap` | core/crates/aetherlink-core/src/recv.rs:459-465 | The announced snapshot cannot be left out, whatever the threshold: in a run that repeats chunk 0 until a checkpoint is due, between the reset and the snapshot the chunk is in no snapshot and in no counter. |
| `Accounting.PlainBoundAtRest` | core/crates/aetherlink-core/src/recv.rs:442-466 | Whenever no worker stands between reset and snapshot, the bound holds against the latest snapshot alone. |
| `Accounting.PlainBoundIffNotPending` | core/crates/aetherlink-core/src/recv.rs:459-465 | For every file whose chunk 0 can arrive and every non-zero threshold: the plain bound holds in all such states of all runs if and only if no snapshot is pending in them. |
| `Accounting.StepKeepsAccounts` | core/crates/aetherlink-core/src/recv.rs:408-461 | Every step keeps those accounts; in particular resetting the counter before the snapshot loses track of nothing. |
| `Record.BuildRecord` | core/crates/aetherlink-core/src/resume.rs:56-65 | The buffer `persist` grows is the record format that `load` is proved to invert. |
| `Record.RecordLayout` | core/crates/aetherlink-core/src/resume.rs:56-65 | Where every field of a record stands and in which byte order. |
| `Record.LoadAcceptsExactly` | core/crates/aetherlink-core/src/resume.rs:56-119 | `load` returns bitmap `v` if and only if the sidecar is byte for byte the record `persist` writes for this key and `v`, and the staging file has the recorded length. |
| `Record.LoadRefusesOtherKey` | core/crates/aetherlink-core/src/resume.rs:108-111 | A record written under a key that differs in any field is never used. |
| `Record.LoadRefusesDamage` | core/crates/aetherlink-core/src/resume.rs:94-97 | A body altered under its old checksum is never used, provided the hash separates the two bodies. |
| `Record.RebuildByVerification` | core/crates/aetherlink-core/src/resume.rs:124-141 | The rebuilt bitmap holds exactly the chunks that are readable and whose on-disk bytes have the committed hash, whatever the file holds. |
| `Scheduler.ReleaseMeetsNoBorrow` | core/crates/aetherlink-core/src/send.rs:268-324 | Page-release safety in every interleaving of N workers: a range a worker is about to release lies below every chunk of that file any worker holds at that or any later moment or could still be dealt, although the release runs outside both locks; so does every page it drops. |
| `Scheduler.NextKeepsInv` | core/crates/aetherlink-core/src/send.rs:268-335 | Every worker step keeps: registered chunks are exactly those held and no two workers hold the same, queued chunks are at or past their file's dispatch point, released bytes are behind both. |
| `Scheduler.RangesAreContiguous` | core/crates/aetherlink-core/src/send.rs:62-85 | In every state of every run the ranges handed out for a file are non-empty, contiguous from 0, start on chunk boundaries, are each at least 32 MiB and one chunk long, and end at `released_to`, within the file. |
| `Scheduler.FinishLeavesUnderABatch` | core/crates/aetherlink-core/src/send.rs:62-85 | Directly after any `finish` in any run: whatever lies inside a dealt chunk and below every chunk of the file still being read has been handed out for release, up to less than 32 MiB or one chunk, whichever is larger. |
| `Scheduler.WorkerCanMove` | core/crates/aetherlink-core/src/send.rs:268-335 | A worker that has neither stopped nor failed can always move: nobody waits for another worker's chunk, borrow or release. |
| `Scheduler.RestDropsAllButABatch` | core/crates/aetherlink-core/src/send.rs:307-324 | When the workers are done and pages divide chunks, the pages dropped are exactly the whole pages below `released_to`, and every dealt chunk ends less than one batch above it. |
| `Scheduler.SentEndsAtTotal` | core/crates/aetherlink-core/src/send.rs:326-328 | In every run `sent` never passes `bytes_to_send`, and equals it exactly when nothing is queued and no worker carries a chunk. |
| `ReadCursors.FinishReleasesOnlyFinished` | core/crates/aetherlink-core/src/send.rs:62-85 | A range from `finish` starts where the last ended, is at least a batch long, and ends exactly at the highest byte below every chunk still in flight, the dispatch point and the file's end; range or not, every byte below all of these is then less than a batch past what has been released. |
| `ReadCursors.ReadCursor.Begin` | core/crates/aetherlink-core/src/send.rs:55-58 | The cursor object's new state after registering a chunk. |
| `ReadCursors.ReadCursor.Finish` | core/crates/aetherlink-core/src/send.rs:62-85 | The cursor object's new state and the range returned, saturation and clamping included. |
| `ReadCursors.UnregisteredChunkIsExposed` | core/crates/aetherlink-core/src/send.rs:51-54 | Why registering happens under the queue lock: without it, a worker finishing chunk 1 is handed the bytes of chunk 0. |
| `ReadCursors.WholePages` | core/crates/aetherlink-core/src/io.rs:115-132 | Inward rounding: the pages dropped lie inside the range released. |
| `ReadCursors.LedgerDropsWholePages` | core/crates/aetherlink-core/src/io.rs:115-132 | Contiguous ranges from 0 together drop exactly the whole pages below their end when the page size divides the chunk size: inward rounding leaves no page behind between two releases. |
| `Places.EveryChunkInOnePlace` | core/crates/aetherlink-core/src/send.rs:201-348 | On an undisturbed link, at every step of every run each wanted chunk is in exactly one of five places, and on one stream only: queue, sender's hand, last frame in the channel, whole at the receiver, recorded. |
| `Places.ChannelMeansRoute` | core/crates/aetherlink-core/src/send.rs:287-305 | A chunk whose last frame is in a channel is on that stream's route and no longer in its sender's hand. |
| `Places.CutFrames` | core/crates/aetherlink-core/src/send.rs:287-305 | The frames a sender has let go of end at or before the byte it has reached. |
| `Convergence.EveryChunkCountedOnce` | core/crates/aetherlink-core/src/send.rs:201-348 | Each wanted chunk occurs exactly once among queue, streams and record. |
| `Convergence.RunConserves` | core/crates/aetherlink-core/src/send.rs:268-335 | Queue, streams and record together always hold exactly the chunks of the job, as often as listed. |
| `Convergence.RouteIsSenderOrChannel` | core/crates/aetherlink-core/src/send.rs:287-305 | A chunk on a stream's route is in the sender's hand with bytes still to go, or its last frame is in the channel; that it is not both is `Places.ChannelMeansRoute`. |
| `Convergence.MeasureFalls` | core/crates/aetherlink-core/src/send.rs:268-335 | A natural-number measure falls on every step of every worker at either end. |
| `Convergence.RunsAreBounded` | core/crates/aetherlink-core/src/send.rs:268-335 | So no run is longer than the measure of its first state, whatever the interleaving and however small the channels. |
| `Convergence.StuckMeansDelivered` | core/crates/aetherlink-core/src/recv.rs:266-299 | A state in which nothing can move has every stream closed cleanly at both ends and every chunk recorded exactly as often as it was listed. |
| `Bridge.StuckMeansComplete` | core/crates/aetherlink-core/src/recv.rs:287-299 | Starting from the queue the sender builds, a run can only stop with `is_complete` true of the bitmap of every accepted file, in whatever order its chunks were marked. |
| `Convergence.StuckMeansAllSet` | core/crates/aetherlink-core/src/recv.rs:287-299 | There every chunk of every accepted file is held from before or recorded. |
| `Bridge.MarkAllMembers` | core/crates/aetherlink-core/src/recv.rs:408-412 | Marking chunks one after the other adds exactly the indices they name. |
| `Bridge.CommittedIffVerified` | core/crates/aetherlink-core/src/io.rs:250-262 | What a stream may write is exactly what the crash-safe receiver takes in. |
| `Bridge.RecordedIsVerified` | core/crates/aetherlink-core/src/recv.rs:400-412 | In every undisturbed run, every recorded chunk is a verified chunk of its file. |
| `Bridge.WriteIsThreeSteps` | core/crates/aetherlink-core/src/recv.rs:392-412 | Replaying one write of a stream is three steps of the crash-safe receiver (take, write, mark) with the same content and the same bits. |
| `Pipeline.NextFrame` | core/crates/aetherlink-core/src/recv.rs:351-425 | In every reachable state the next frame in a channel is the next frame of the oldest chunk on it, and the receiver's automaton accepts it: it buffers more, or the chunk lands whole. |
| `Pipeline.NextKeepsInv` | core/crates/aetherlink-core/src/send.rs:268-348 | Channel plus sender always hold exactly the frames the receiver still lacks, in order; no receiver ever fails. |
| `RoundTrip.StreamRoundTrip` | core/crates/aetherlink-core/src/send.rs:287-305 | For every sequence of committed chunks and every admissible frame size, the receiver run on the sender's bytes accepts and delivers exactly those chunks, in order. |
| `RoundTrip.ChunkLands` | core/crates/aetherlink-core/src/recv.rs:355-425 | From any point inside a chunk, its remaining frames make exactly that chunk land and leave the receiver between chunks, whatever follows. |
| `Wire.SendChunk` | core/crates/aetherlink-core/src/send.rs:285-305 | The framing loop appends to the stream the bytes of the chunk's frames, each at its own offset. |
| `Wire.ChunkFramesCut` | core/crates/aetherlink-core/src/send.rs:287-305 | Frame `i` of a chunk carries the bytes from `i * frame_size` on, as many as fit, and its header says so; there is one exactly while bytes remain. |
| `Wire.FramesReadBack` | core/crates/aetherlink-core/src/recv.rs:333-350 | Well-formed frames survive the trip through bytes, whatever follows them. |
| `Wire.TokensWellFormed` | core/crates/aetherlink-core/src/recv.rs:333-350 | Every frame a reader accepts from arbitrary bytes is well formed. |
| `Drain.DrainStream` | core/crates/aetherlink-core/src/recv.rs:319-432 | For every byte stream, cut or broken anywhere, the loop's outcome is that of the recursive reading and the files and bitmaps are its committed writes replayed in order, nothing else. |
| `Drain.WritesAreCommitted` | core/crates/aetherlink-core/src/recv.rs:319-432 | Whatever arrives, only whole chunks of known files with the committed hash are ever written. |
| `Drain.NothingLostOrInvented` | core/crates/aetherlink-core/src/recv.rs:385-431 | A worker that returns Ok has written every payload byte it received, in order, and nothing else: no partial chunk is left. |
| `Drain.PayloadsStand` | core/crates/aetherlink-core/src/recv.rs:369-426 | A worker that returns Ok has seen only keepalives and data frames, all whole, and each data frame's payload stands in one of its writes, in the file and at the offset its header names. |
| `Drain.RefusedBetween` | core/crates/aetherlink-core/src/recv.rs:351-383 | Between chunks: which frames are refused, and with which error, in terms of the tiling. |
| `Drain.RefusedInside` | core/crates/aetherlink-core/src/recv.rs:351-383 | Inside a chunk: which frames are refused, and with which error. |
| `Drain.ReplayTouchesOnlyWrites` | core/crates/aetherlink-core/src/io.rs:250-262 | A chunk no write names keeps its bytes; a chunk some write names ends with the committed hash. |
| `Drain.Replay` | core/crates/aetherlink-core/src/recv.rs:400-412 | Replaying committed writes keeps every file's length and the meaning of every bit: the chunk on disk has the committed hash. |
| `Layout.PlacedSlice` | core/crates/aetherlink-core/src/io.rs:250-262 | A chunk write changes that chunk's range and no other chunk's. |
| `Frames.Encode` | core/crates/aetherlink-proto/src/frame.rs:111-121 | The array is filled with the header's encoding, whatever it held before. |
| `Frames.DecodeEncode` | core/crates/aetherlink-proto/src/frame.rs:111-170 | Decoding an encoded header gives it back if and only if it is acceptable (known flags, bounded length, no payload on a keepalive); otherwise decoding fails. |
| `Frames.HeaderLayout` | core/crates/aetherlink-proto/src/frame.rs:111-121 | Where every field of a header stands on the wire and in which byte order, byte by byte. |
| `Frames.DecodeRefuses` | core/crates/aetherlink-proto/src/frame.rs:129-170 | Which byte strings are refused and with which error, byte by byte, in the source's order of checks. |
| `Frames.AcceptableMeans` | core/crates/aetherlink-proto/src/frame.rs:23-64 | What is acceptable, in numbers. |
| `Frames.EncodeDecode` | core/crates/aetherlink-proto/src/frame.rs:129-170 | Every 32-byte string that decodes is the encoding of the acceptable header it decodes to. |
| `WorkQueue.MissingRanges` | core/crates/aetherlink-proto/src/bitmap.rs:99-117 | The ranges are sorted, disjoint, non-adjacent and non-empty, and cover exactly the unset indices, for every bitmap. |
| `WorkQueue.RemainingBytes` | core/crates/aetherlink-proto/src/bitmap.rs:120-128 | The byte total of the unset chunks; an error exactly when an unset index is outside the layout. |
| `WorkQueue.EnqueueFile` | core/crates/aetherlink-core/src/send.rs:215-225 | For one accepted file, the loops list its unset chunks in order and total their bytes. |
| `WorkQueue.BuildQueue` | core/crates/aetherlink-core/src/send.rs:201-227 | Construction fails exactly when an accepted file's bitmap does not parse, and otherwise yields the queue and the byte total over accepted files. |
| `WorkQueue.QueueExact` | core/crates/aetherlink-core/src/send.rs:201-227 | The queue lists exactly the wanted chunks, strictly increasing by file and chunk, so none twice. |
| `WorkQueue.FindsFirst` | core/crates/aetherlink-core/src/send.rs:208-214 | The progress entry used for a file is the first with its id, and none only if none has it. |
| `WorkQueue.AnswerQueuesMissing` | core/crates/aetherlink-core/src/send.rs:201-227 | From an answer that lists each accepted file's bitmap bytes under its id, in any order, the queue is built without error and lists exactly the chunks missing from that file's own bitmap. |
| `WorkQueue.NoEntryMeansEverything` | core/crates/aetherlink-core/src/send.rs:208-214 | A file accepted without an entry is sent whole. |
| `WorkQueue.QueueWeighsTotal` | core/crates/aetherlink-core/src/send.rs:201-227 | The items of the queue weigh exactly `bytes_to_send`, the sum of the remaining bytes over accepted files. |
| `Totals.ReportedCountIsBounded` | core/crates/aetherlink-core/src/recv.rs:301-306 | In every undisturbed run the count the receiver reports is at least the manifest total, exceeds it by at most the missing part of short last chunks already held, and is exact when none was. |
| `Totals.CounterEndsAtJob` | core/crates/aetherlink-core/src/recv.rs:413-414 | When nothing can move any more, the counter has grown by exactly the bytes of the job. |
| `Counters.FinalCountBounds` | core/crates/aetherlink-core/src/recv.rs:203-237 | Seed plus missing bytes, file by file: at least the manifest total and exceeds it by at most the missing part of short last chunks that were already held; exact when none was; the exact value is given. |
| `Counters.WholeChunksOvershoot` | core/crates/aetherlink-core/src/recv.rs:202-203 | Counting whole chunks overstates a file by exactly its short tail, if that tail is held. |
| `Bitmaps.LsbFirst` | core/crates/aetherlink-proto/src/bitmap.rs:68-77 | Chunk `i` is bit `i % 8` of byte `i / 8`, the least significant first. |
| `Bitmaps.FromBytesAccepts` | core/crates/aetherlink-proto/src/bitmap.rs:30-53 | `from_bytes` accepts exactly the strings of the right length with clear padding, and returns a valid bitmap with those bytes. |
| `Bitmaps.FromBytesInvertsAsBytes` | core/crates/aetherlink-proto/src/bitmap.rs:30-57 | Parsing `as_bytes` gives back the same bitmap, cached count included. |
| `Bitmaps.MembersDetermineBitmap` | core/crates/aetherlink-proto/src/bitmap.rs:55-57 | The representation is canonical: bitmaps of the same set are equal byte for byte. |
| `Bitmaps.SetCountIsCardinality` | core/crates/aetherlink-proto/src/bitmap.rs:61-63 | The cached count is the cardinality of the set denoted. |
| `Bitmaps.CompleteIffAllSet` | core/crates/aetherlink-proto/src/bitmap.rs:64-66 | `is_complete`, decided from the cached count, holds iff every index is set. |
| `Bitmaps.NewIsEmpty` | core/crates/aetherlink-proto/src/bitmap.rs:19-26 | A new bitmap is valid and denotes the empty set. |
| `Bitmaps.Bitmap.Get` | core/crates/aetherlink-proto/src/bitmap.rs:68-77 | Membership, or an error exactly when the index is out of range. |
| `Bitmaps.WithBitAddsMember` | core/crates/aetherlink-proto/src/bitmap.rs:80-94 | Setting a bit adds exactly that index, keeps padding clear and the count right, and is idempotent. |
| `Bitmaps.ChunkBitmap.Set` | core/crates/aetherlink-proto/src/bitmap.rs:80-94 | The object after `set`: one index added, or unchanged with an out-of-range error. |
| `Layout.NewLayout` | core/crates/aetherlink-proto/src/chunk.rs:34-49 | Accepts exactly power-of-two chunk sizes within the band, and returns a valid layout for that file. |
| `Layout.AcceptedSizes` | core/crates/aetherlink-proto/src/chunk.rs:34-49 | The accepted chunk sizes in numbers: powers of two from 64 KiB to 64 MiB. |
| `Layout.PowerOfTwoMeans` | core/crates/aetherlink-proto/src/chunk.rs:34-49 | The power-of-two test is what its name says. |
| `Layout.ValidIffNew` | core/crates/aetherlink-proto/src/chunk.rs:34-49 | The layouts all theorems speak about are exactly those `new` returns, with the ceiling of size over chunk size as count. |
| `Layout.IndexOfInvertsRange` | core/crates/aetherlink-proto/src/chunk.rs:64-85 | An offset lies in chunk `i` if and only if `index_of` names `i`. |
| `Layout.ChunksDisjoint` | core/crates/aetherlink-proto/src/chunk.rs:64-75 | Different chunks share no byte. |
| `Layout.LenExact` | core/crates/aetherlink-proto/src/chunk.rs:64-75 | Every chunk but the last is full and the last ends the file. |
| `Layout.LengthsTile` | core/crates/aetherlink-proto/src/chunk.rs:64-75 | The chunk lengths add up to the file size. |
| `Layout.ReassembleIsPrefix` | core/crates/aetherlink-proto/src/chunk.rs:64-75 | Concatenating the chunks gives back the file. |
| `Layout.EqualChunksEqualFiles` | core/crates/aetherlink-proto/src/chunk.rs:64-85 | A file is determined by its chunks. |
| `Hashes.RootBinds` | core/crates/aetherlink-proto/src/chunk.rs:93-101 | Equal roots mean equal chunk-hash lists, in number and order, provided the hash separates the two inputs. |
| `Hashes.RootLayout` | core/crates/aetherlink-proto/src/chunk.rs:93-101 | Where everything stands in what is hashed: the domain, the count, and hash `i` at byte 31 + 32 `i`. |
| `Hashes.ComputeRoot` | core/crates/aetherlink-proto/src/chunk.rs:93-101 | The loop that feeds the hasher computes the hash of domain, count and concatenation. |
| `Hashes.SplitHashesExact` | core/crates/aetherlink-core/src/recv.rs:491-507 | Splitting yields a list if and only if the bytes are the concatenation of that many digests, and it is that list. |
| `Hashes.CommitsExactly` | core/crates/aetherlink-core/src/recv.rs:153-180 | Exactly which entries are accepted, and what they fix: an accepted chunk size, 32 bytes for each chunk, and a root that is the root of those hashes. |
| `Hashes.CommitmentIsSpec` | core/crates/aetherlink-core/src/recv.rs:153-180 | An offer entry that passes the receiver's checks yields a specification the crash-safety theorems apply to. |
| `Hashes.NoCollisionIsPossible` | core/crates/aetherlink-core/src/recv.rs:163-180 | What is asked of the hash can be met: for any one-chunk file there is a 32-byte digest under which nothing collides with it. |
| `Witness.SomeRecordIsPlaced` | core/crates/aetherlink-core/src/recv.rs:442-480 | Crash-safe resume is not empty: for every one-chunk file and non-zero threshold a run without collisions puts a record in place that claims the chunk. |
| `Witness.SomeTransferCompletes` | core/crates/aetherlink-core/src/recv.rs:266-308 | End-to-end correctness is not empty: for every one-chunk file a run without collisions ends with the sender's Ok. |
| `Traces.UntilRenamed` | core/crates/aetherlink-core/src/recv.rs:442-480 | From any first state, whatever the threshold, a run reaches a renamed record. |
| `Hashes.SameKeySameCommitment` | core/crates/aetherlink-core/src/recv.rs:163-180 | Two sessions with equal `StateKey` have the same layout and the same hash for every chunk: the key alone ties a record to its content. |
| `Hashes.ChunkHashSet.Insert` | core/crates/aetherlink-proto/src/chunk.rs:123-138 | A repeat is a no-op, a conflict or an index out of range an error that changes nothing, a new hash fills its slot; the cached count stays right. |
| `Hashes.ChunkHashSet.RootOf` | core/crates/aetherlink-proto/src/chunk.rs:140-151 | A root appears exactly when every slot is filled, and is the root of the list in index order. |
| `Hashes.InsertAll` | core/crates/aetherlink-proto/src/chunk.rs:113-138 | Hashes of one file inserted in any order, repeats included: no insertion fails and the object ends with exactly the slots of the chunks that arrived. |
| `Hashes.ArrivalOrderIrrelevant` | core/crates/aetherlink-proto/src/chunk.rs:104-138 | Whatever the order of arrival and however often chunks repeat, a slot is filled exactly if its chunk has arrived, with that chunk's hash. |
| `Hashes.AllArrivedIsTheList` | core/crates/aetherlink-proto/src/chunk.rs:104-151 | Once every chunk has arrived the slots are the list itself, so the root is the in-order root. |
| `Hashes.ChunkHashes` | core/crates/aetherlink-core/src/io.rs:149-173 | Every chunk's hash in order; in the log of the pass no release reaches a chunk read later; releases are contiguous from 0, and above the threshold less than a batch stays unreleased. |
| `Throttle.RateIsBounded` | core/crates/aetherlink-core/src/progress.rs:65-91 | Under every interleaving of clock read, load and compare-exchange with an interval of at least 1 microsecond, stored times are at least an interval apart, and the non-final reports number at most one more than the intervals elapsed. |
| `Throttle.SomethingIsReported` | core/crates/aetherlink-core/src/progress.rs:65-91 | Every final update that returned was emitted, and once calls were made and none is pending at least one update was. |
| `Throttle.CompletionIsReported` | core/crates/aetherlink-core/src/progress.rs:65-91 | In every run, an update with a positive total and all of it done is emitted, however soon after the last one and whatever other calls do. |
| `Throttle.ProgressStoresItsTime` | core/crates/aetherlink-core/src/progress.rs:65-91 | In every run, an update that does not report completion is emitted only after its own clock reading has been stored. |
| `Throttle.TimesAreReadings` | core/crates/aetherlink-core/src/progress.rs:69-70 | The time a call works with is what the clock showed when that call read it. |
| `Throttle.UncontestedIsReportedIff` | core/crates/aetherlink-core/src/progress.rs:72-88 | A call that meets no race is emitted if and only if nothing has been stored yet or its reading is at least an interval past the last stored time. |
| `Throttle.CallCanMove` | core/crates/aetherlink-core/src/progress.rs:65-91 | A call that has not returned can always take its next step. |
| `Throttle.ZeroIntervalGoesBackwards` | core/crates/aetherlink-core/src/progress.rs:72-88 | With an interval of 0 a run exists in which the stored times decrease. |
| `Throttle.SpacedIffPositive` | core/crates/aetherlink-core/src/progress.rs:65-91 | The spacing holds in all runs if and only if the interval is positive. |
| `Paths.SanitizeRelativePath` | core/crates/aetherlink-proto/src/manifest.rs:104-162 | The loop answers as the specification function does, with the first fault in the source's order of checks. |
| `Paths.AcceptedIsSafe` | core/crates/aetherlink-proto/src/manifest.rs:104-162 | An accepted path's output splits back into exactly the input's non-empty, non-`.` components, each legal; it is relative, clean and within the length limit. |
| `Paths.LegalIff` | core/crates/aetherlink-proto/src/manifest.rs:143-155 | The checks on a component let through exactly the legal ones: at most 255 bytes, no final dot or space, not a device name. |
| `Paths.ReservedIsDevice` | core/crates/aetherlink-proto/src/manifest.rs:164-174 | The reserved names are exactly CON, PRN, AUX, NUL, and COM or LPT with a digit from 1 to 9, in any case and with any extension. |
| `Paths.ComponentsAre` | core/crates/aetherlink-proto/src/manifest.rs:136-141 | Exactly the empty components and `.` are dropped; all others stay, in order. |
| `Paths.ColonIsSecondByte` | core/crates/aetherlink-proto/src/manifest.rs:130-134 | The drive-letter test looks at the second byte of the UTF-8 encoding, not at the second character. |
| `Paths.ByteLenIsUtf8` | core/crates/aetherlink-proto/src/manifest.rs:112-117 | Lengths count bytes of the UTF-8 encoding. |
| `Paths.AcceptsExactly` | core/crates/aetherlink-proto/src/manifest.rs:104-162 | Exactly which strings are accepted. |
| `Paths.SameOutputIffSameComponents` | core/crates/aetherlink-proto/src/manifest.rs:104-162 | Two accepted inputs share an output if and only if they name the same components. |
| `Paths.IdempotentIff` | core/crates/aetherlink-proto/src/manifest.rs:130-134 | Sanitizing an output again returns it if and only if its second byte is not a colon. |
| `Paths.DriveLetterSlipsThrough` | core/crates/aetherlink-proto/src/manifest.rs:130-134 | The exception is real: `./C:/x` is accepted and yields `C:/x`, which is refused. |
| `Paths.ReservedInAnyCase` | core/crates/aetherlink-proto/src/manifest.rs:164-174 | A device name is as reserved in any ASCII case and with any extension as it is bare. |
| `Paths.Validate` | core/crates/aetherlink-proto/src/manifest.rs:70-94 | A manifest is accepted exactly if it is within the limits, its ids are distinct, its paths are accepted and their outputs distinct; the outputs come back in file order; a refusal carries the first fault in the source's order. |
| `Paths.AdmissibleNamesDiffer` | core/crates/aetherlink-proto/src/manifest.rs:84-90 | In a validated manifest no two entries name the same components, however they are spelled. |

## Left out

- TLS, certificate pinning, discovery and sockets (tls.rs, link.rs): foreign libraries. A stream is a reliable FIFO that may be cut at any byte.
- The protobuf encoding of control messages (control.rs): generated code. Offers and acceptances are datatypes, and a control message is assumed to fit in one frame.
- Platform calls (platform.rs): only "sets the length, except for size 0" is kept.
- The FFI session object, the command-line tool, benchmarks, `rand_bytes` and throughput figures.
- Fairness: convergence bounds every run and describes its end, but nothing forces an enabled step to be taken.
- Overlapping sessions: a session starts when none is running. An early return while streams are being accepted (recv.rs:240-246) leaves drain workers already spawned running, and a second session of the same process could then overlap them.
- Overflow of byte totals: sums over files are unbounded here, where the source uses 64 bits; a single file's sizes, counts and offsets are bounded.
- Overflow of `count * 32` in `split_hashes` and of page rounding near 2^64: both are far above any chunk count or file length the layout admits.
- Disk errors inside `drain_stream`: in `Drain` a verified write succeeds; failing and partial writes are steps of the `Receiver` machine.
- A claim that an interruption re-sends at most the checkpoint threshold (resume.rs:26-28): it is not a strict bound, since workers that lose the lock go on writing. `Accounting` states what does hold.
- Running with `release_read_pages` off: the cursor is then never touched and nothing is released.
- `SourceFile::end_of_chunk` (io.rs:134-138): its formula gives the start of a chunk, its comment says the end, and nothing calls it.
- `Flags::contains`, `Flags::union`, `with_flags`, `end_offset`, `SessionId::to_hex`, `total_bytes`, `file`: easy members.
- `on_file_completed` and the receiver's progress callbacks: observers of the transfer that change nothing in it.
- The receiver's size limit `max_file_bytes` and its abort messages: refusals before any file is created.
- Throttle.RateIsBounded: counts stored times and non-final reports; how far a report lags behind its stored time depends on scheduling and is not bounded.
