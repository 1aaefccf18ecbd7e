# diskqueue: a verified model

diskqueue keeps a log queue in segment files. Each segment is a 64-byte header followed by framed
records; three cursors (commit <= head <= write) run over the concatenation of the segments, and everything
the library promises rests on how memory, page cache and disk are kept in step when a write, an fsync or an
unlink fails. The I/O is thin, so every system call here is an answer supplied from outside: a run is proved
for all answers.

The project models five connected parts.

* **Framing and block cache** (`Bytes.dfy`, `Frame.dfy`, `BlockCache.dfy`). Frames are an unsigned LEB128 length (section 7.6
  of DWARF Version 5, as Go's encoding/binary limits it to ten bytes and 64 bits), the payload and a 64-bit checksum.
  The cached reader is a class proved to answer exactly what decoding the segment's bytes directly answers.
* **Header page** (`Header.dfy`). Fields, modifiers, checksum, and the class whose `WriteHeader` either publishes
  a whole image, leaves the last one with nothing new for a power loss to find, or latches the store.
* **Segmented store** (`Log*.dfy`). `Log.dfy`, `LogWalk.dfy`, `LogCommit.dfy` and `LogOps.dfy` say what each
  operation does to the cursors, segments, ledger and headers. `LogStore.dfy` is the imperative store: a class whose
  loops and updates are those of `store.go` and `reserve.go`, each method proved equal to its function.
  `LogSafety.dfy`, `LogWrites.dfy`, `LogRuns.dfy` and `LogCounts.dfy` prove what every operation and every
  run of operations keeps, `LogAnyRun.dfy` what is left of it after a strand (finding 1). `LogAnswers.dfy` says what each
  answer means, `LogProgress.dfy` what happens when nothing fails, `LogLossless.dfy` that failures alone lose nothing,
  `LogNumbers.dfy` that segment numbers keep the log's order, `LogFootprint.dfy` what the sizing promises come to. `LogLimits.dfy` holds the inputs that break a promise.
* **Recovery** (`Recovery.dfy`, `Open.dfy`, `Reopen.dfy`, `Sessions.dfy`, `Residue.dfy`). What `load` concludes from a
  directory, its loops as a class, why repairing from the tail backwards can be stopped anywhere, that what a running
  store leaves on disk reads back as what it had in memory, that counts stay exact over any number of sessions and over
  crashes, and that older headers only ever replay.
* **Concurrency** (`GroupCommit.dfy`, `GroupRuns.dfy`, `OffLockSync.dfy`, `OffLockRuns.dfy`, `Lru.dfy`, `Batch.dfy`). Group commit and
  the off-lock Sync are state machines cut at the points where the queue's lock is released, each with the other's fsyncs
  of the same files among its steps; the handle list is the intrusive linked list itself; AddBatch is a method over the
  staging half of the store.

`Ints.dfy` and `StagingFaults.dfy` hold what several modules share.

## What the proofs found

Eight behaviours differ from what the code's comments promise. Each has a lemma with a concrete input or an exact
condition; the model keeps what the code does.

1. `cycle` reclaims the active segment too. If an older segment survives (pinned by an off-lock flush, or it will not
   unlink) and the create then fails or the segment cap refuses it, the survivor becomes the active segment although it
   does not end at the write cursor. The next record that fits it is accepted at an offset no lookup can find, and the
   "unreachable" arm of `skipCorruptSegment` is what the next read meets: it gives the record up (`LogLimits.StrandedRecord`),
   and leaves the queue empty by every measure (`LogLimits.AbandonDrains`). It happens exactly
   when everything is committed and the newest survivor ends short of the write cursor
   (`LogWrites.CycleStrandsExactlyWhen`), and publishing keeps the layout exactly when the active segment is the tail
   (`LogWrites.PublishNeedsTheTail`). `LogRuns.dfy` proves the invariant for runs that publish onto the tail.
   Three more promises go with the layout. When a second record is accepted there, the survivor reaches the read cursor:
   the consumer is handed the second record in the first one's place, and the next read, finding nothing behind it,
   commits past it while it is out (`LogLimits.StrandedOverrun`). A commit whose header write fails falls back to where
   the survivor's header was left (`LogLimits.StrandedRetreat`). And when further segments follow, giving the log up can be
   refused half way, with the read cursor already moved (`LogLimits.StrandedUnbooked`). Over every run these are the only
   ways: acknowledgement safety holds until, and exactly until, a read gives up the log over records that are out
   (`LogAnyRun.AckSafetyExactlyWhen`), the accounts until one is refused in giving it up (`LogAnyRun.AccountsExactlyWhen`),
   and the commit cursor falls back only to a header that stands behind it (`LogAnyRun.RetreatNeedsStaleHeader`).
2. A damaged length that still fits its segment can retire more than the record at the cursor. The count stays right
   exactly when the crossing takes in the end of that record and of no later one, and the cursor stays at a record's start
   exactly when it stops there (`LogLimits.CrossingCounts`, on the layout). Framing two records leaves `Count()` above
   zero on a drained queue (`LogLimits.ReframingLosesCount`); ending inside the next one keeps the count and loses the
   place (`LogLimits.ReframingLosesPlace`). `LogCounts.RunCounts` is for runs in which what is framed at a record's start
   ends where that record ends, which undamaged bytes guarantee (`Sessions.UndamagedIsHonest`).
3. Two failures can leave a header ahead of memory, each on a store it latches: a commit's header write that fails and
   cannot be undone (`Residue.CommitAhead`), and a quarantine's header that cannot be undone or whose fsync is refused
   (`Residue.QuarantineAhead`). Both are equivalences at the step; short of them no run, latched or not, leaves a live
   file with a header ahead of memory (`Residue.SessionNotAhead`), and every crash only replays (`Residue.CrashReplays`).
4. When an fsync of a Sync fails off the lock, a SyncEvery flush of the same file can succeed before the Sync gets
   the lock back to latch the failure, because the kernel reports a writeback error once. That flush zeroes
   `unsyncedBytes` over records that are lost (`OffLockRuns.GaugeLies`). No other step makes the gauge under-report
   (`OffLockRuns.GaugeLiesExactlyWhen`).
5. For the same reason a file can be marked clean with undurable writes once an fsync of it has failed. Clean means
   durable for every file whose fsyncs have not failed (`OffLockRuns.CleanIsDurable`), and stops meaning it at exactly one
   kind of step: a flush in the lock, or the end of a Sync's chunk, that succeeds over a file which has failed an fsync
   and still has something to lose (`OffLockRuns.CleanLiesExactlyWhen`). The run of finding 4 ends in such a file.
6. Under the per-operation policy a flush leader and a Sync fsync the same file with the lock released, and the kernel
   reports a writeback error to whichever asks first. If that is the Sync and the leader gets the lock back before it, the
   leader goes by its own clean answer: it publishes a span whose bytes may be gone (`GroupRuns.DataHidden`), or answers nil
   over a header that may not be down (`GroupRuns.HeaderHidden`), and Add returns nil for a record a power loss may
   take. These are the only two steps that put a header ahead of its data or leave a nil unbacked
   (`GroupRuns.HeaderAheadExactlyWhen`, `GroupRuns.NilUnbackedExactlyWhen`), each takes a Sync that has been told of an error
   and has not latched it (`GroupRuns.FooledBySync`), and short of them durability holds over every run
   (`GroupRuns.DurableAddSurvives`). A flushed commit can be answered in the same way over its old header
   (`GroupRuns.CommitHeaderHidden`): exactly when an fsync off the lock took the error for the new one, and whoever was
   told of it then still owes the latch (`GroupRuns.CommitDurableExactlyWhen`). The other way round, a leader that has been told can hide the error from a Sync, which
   then answers nil with writes of its snapshot lost (`OffLockRuns.SyncLies`), and only then
   (`OffLockRuns.SyncLiesExactlyWhen`).
7. An error that latches nothing is documented to mean "not appended" (store.go:568-572, diskqueue.go:478-481). Under SyncEvery
   it need not: the append whose turn it is to flush has published its record when a dirty segment cannot be reopened for
   its fsync, and that failure is answered without being latched or undone (`LogLimits.ErrorKeepsRecord`). A producer that
   tries again queues the record twice. `Requeue` takes the same error for a refusal and puts the head back, so the record is
   at both ends of the log (`LogLimits.RequeueLeavesBoth`). It happens exactly when an append under SyncEvery is let in, has
   room, gets its header out, and is the one whose flush cannot be tried (`LogAnswers.ErrorKeepsRecordExactlyWhen`).
8. doc.go:220-224 bounds the disk by MaxBytes, two segments and a header per segment. A closed segment keeps the slack the
   next record did not fit, and nothing in the bound pays for it: records of just over half a segment take 820 bytes where
   775 are promised, nothing failing (`LogFootprint.FootprintExceeded`, a segment of 100 bytes; the ratios are what matters).
   The bound holds exactly while the slack of all segments and what is retired in the first fit two segments and the room
   left under MaxBytes (`LogFootprint.WithinBoundExactlyWhen`), as when closed segments are full
   (`LogFootprint.FullSegmentsStayWithin`). The cap on the backlog itself holds over every run (`LogFootprint.BacklogCapped`).

## Model

| member | source | states |
|---|---|---|
| Bytes.UvarintRoundTrip | record.go:211-226 | decoding an encoded length followed by anything yields that length and exactly the bytes it took |
| Bytes.UvarintBound | record.go:211-226 | a decoded length is below 2^64 and took at most ten bytes, as encoding/binary's overflow rule demands |
| Frame.ComputeUvarintLen | record.go:344-351 | the loop's answer is the number of bytes the length prefix is really laid down in |
| Frame.FramedLenExact | record.go:338-342 | the length used by admission and tallies is the number of bytes the frame occupies |
| Frame.FitsWithinExact | record.go:301-322 | for every 64-bit length the wrapping comparison accepts exactly the frames whose true total fits both the segment and the word |
| Frame.FrameRoundTrip | record.go:61-83 | frames followed by any bytes decode to their records and then to whatever the rest decodes to, trusting framing or trusting checksums |
| Frame.FrameRoundTripExact | record.go:211-260 | decoding the concatenation of frames returns the payload list and every record boundary |
| Frame.VerifiedIsIntactPrefix | recovery.go:597-629 | said by hash alone: every record the verified walk yields has its payload's hash for its checksum, they are the framing walk's first, and where it stops short the next frame's checksum is not its payload's hash |
| Frame.SalvageStopsAtDamage | recovery.go:603-629 | a frame whose checksum is not its payload's hash ends the verified walk in front of it, whatever follows, while the walk that trusts framing counts it |
| Frame.FlippedPayloadStops | recovery.go:603-629 | bytes of a published payload changed so that it hashes otherwise cost that record and what is behind it, and no record in front |
| Frame.SalvageKeepsPublished | recovery.go:542-595 | whatever bytes follow them, the published records are a prefix of what a torn-header walk recovers, and occupy the same extent |
| Frame.ZeroFillNeverVerifies | recovery.go:640-650 | preallocated zero fill yields no record, given only that the empty payload's hash is not zero |
| Frame.SalvageAddsNoZeroFill | recovery.go:510-595 | a salvage over published frames and zero fill recovers exactly the published payloads and their extent |
| Frame.CutFrameDoesNotDecode | recovery.go:475-501 | a frame missing any of its last bytes does not decode in the shorter file |
| Frame.CutKeepsWholeFrames | recovery.go:391-442 | a segment cut anywhere walks exactly the frames that lie wholly before the cut |
| Frame.WholeFramesIsMaximal | recovery.go:472-501 | the number kept is the largest whose frames fit before the cut |
| Frame.AppendsAfterClampDecode | recovery.go:420-442 | records appended after the clamp decode as survivors followed by the appended records, none mis-framed by the partial frame |
| Frame.ClampedWalk | recovery.go:475-501 | cutting the extent to where a walk stopped leaves a segment that walks to the same records |
| Header.RebuiltReadsBack | header.go:105-221 | after any list of modifiers every field reads back as the last value set, or as before if none was, under a valid checksum |
| Header.ChecksumCoversPage | header.go:206-221 | a believed page changed anywhere is no longer believed: in any of the bytes the checksum covers so that they hash otherwise, or in any byte of the checksum |
| Header.ModsKeepIdentity | header.go:197-211 | magic and version survive every modifier list, and the oversized flag is gained exactly when set |
| Header.RollbackRestoresImage | store.go:823-838 | setting two fields and setting them back reproduces the previous image byte for byte |
| Header.SegmentCapacityFits | diskqueue.go:391-412 | the configured size is aligned, idempotent under reopening, not below what was asked up to the ceiling, and exact in the six-byte field |
| Header.HeaderPage.Header | header.go:206-217 | the in-place modifiers and checksum leave exactly the rebuilt image |
| Header.HeaderPage.RestoreHeader | store.go:519-539 | success means the page cache holds the last complete image again and, if any byte had changed, stable storage holds no other |
| Header.HeaderPage.WriteHeader | store.go:489-514 | which answer each failure gives; the new image whole, or the last complete one still cached with nothing new for a power loss to find, or the store latched; unlatched, no image that may be found is torn |
| Header.HeaderPage.FlushFile | store.go:548-565 | after a clean fsync only the last complete image can be found |
| Header.HeaderPage.Publish | store.go:1490-1515 | two fields moved and published, or memory and cache both back on the previous image, or latched with memory rolled back |
| BlockCache.LengthOutlivesGrowth | record.go:103-120 | a boundary read once stays the right answer however the segment grows behind it |
| BlockCache.CachesSurviveGrowth | record.go:103-120 | block and boundary caches stay true when bytes land past the published extent or a span extends it |
| BlockCache.LengthIsDecodeHead | record.go:280-291 | the direct decoder on a segment is the frame decoder on its published bytes |
| BlockCache.RecordIsDecodeHead | record.go:235-260 | the same for whole records |
| BlockCache.Store.FillBlock | record.go:154-176 | after a fill the requested run is cached and is the file's bytes, or the failure is told apart as short or failed |
| BlockCache.Store.RecordAt | record.go:235-260 | whatever is cached, the answer is the direct decoder's, unless a pread failed |
| BlockCache.Store.RecordLen | record.go:280-291 | the same for lengths |
| BlockCache.Store.FrameEnd | record.go:269-274 | the cached boundary of the last read is the direct decoder's answer |
| BlockCache.Store.WriteRecord | record.go:61-83 | the frame lands past the published extent, nothing else changes, both caches stay true |
| BlockCache.Store.NoteFrame | store.go:1069-1075 | the boundary a read established is the one its bytes have |
| BlockCache.Store.AddSegment | store.go:423-478 | a created segment is empty, preallocated and at the tail, and no cached answer changes |
| BlockCache.Store.PublishSpan | store.go:800-838 | the extent grows by the span or is as before, and no cached answer becomes wrong either way |
| BlockCache.Store.Reclaim | store.go:906-955 | segments leave only after both caches have been dropped |
| BlockCache.Store.SurviveCount | recovery.go:475-501 | the loop counts exactly the frames left to walk and where they end, or reports that it could not look |
| BlockCache.Store.CountVerified | recovery.go:603-629 | the loop counts exactly the frames up to the first whose checksum is not its payload's hash, and where they end, or reports that it could not look |
| BlockCache.Store.Clamp | recovery.go:430-442 | the segment is cut to its last good frame, holds the records the walk counted, and no cached byte outlives the cut |
| LogWalk.SkipAtCursor | store.go:1254-1270 | in the commit walk a quarantine retires on the spot and is never deferred to the ledger |
| LogWalk.PersistKeeps | store.go:1490-1515 | written, refused or vanished, the lagging header and memory agree again and the counts follow the cursor |
| LogWalk.CrossKeeps | store.go:1364-1456 | every way one turn of the walk can end keeps the walk's invariant |
| LogWalk.WalkKeeps | store.go:1317-1456 | every exit of the loop: never past its target, each corruption it counts owed as one report, headers agreed but for the file to write |
| LogWalk.FileForIsTheOwner | store.go:957-974 | the lookup finds the unique segment owning an offset, and between commit and write there is always one |
| LogWalk.OwnerIsUnique | store.go:1339-1343 | a carried segment that still holds the cursor is the one a fresh lookup would find |
| LogCommit.ReclaimTakesOnlyCommitted | store.go:906-955 | a segment that goes is fully committed, unpinned and unlinked |
| LogCommit.ReclaimTakesAllDrained | store.go:922-954 | and every one of the leading segments that is fully committed does go, but for the pinned and those that will not unlink |
| LogCommit.ReclaimSums | store.go:944-950 | counters and disk bytes give back exactly what the segments that went were counted for |
| LogCommit.ReclaimKeepsJoined | store.go:922-954 | however many segments survive below the cursor, no gap opens above it |
| LogCommit.ReclaimKeepsCovers | store.go:906-955 | the survivors still cover everything from commit to write |
| LogCommit.DropKeepsInv | store.go:906-955 | reclamation keeps the whole invariant and never the last segment a commit asked to keep |
| LogCommit.CommitKeepsInv | store.go:1317-1483 | after every return: cursors ordered, live segments sorted and covering, counts the sums over them, every header in agreement with memory, target not passed, read cursor moved only if overtaken |
| LogAnswers.CommitNilMeansKept | store.go:1317-1483 | a commit answers nil only when its target is reached, or the entry or frame at the cursor ends past it; nothing has latched, every segment passed or entered has its header out, flushed where the policy asks, and the batched flush came off: any read, open, write or fsync that failed on the way is in the answer |
| LogAnswers.CommitReclaimsDrained | store.go:1476-1482 | a commit that moved leaves no drained segment but the active one, the pinned and those that will not unlink |
| LogAnswers.CommitKeepsTail | store.go:1475-1482 | and leaves the active segment as it is laid out, however it ends |
| LogAnswers.AckedRunNilMeansKept | reserve.go:171-182 | the same for the acknowledged run as a whole |
| LogAnswers.AckFindsExactly | reserve.go:146-160 | an offset is accepted exactly when it is not past the read cursor and is already retired or names an outstanding reservation; otherwise nothing moves |
| LogAnswers.AckNilMeansKept | reader.go:230-247 | an acknowledgement answers nil for a record already retired, or with the run it completes kept in that sense |
| LogAnswers.MarkAllAnswers | reader.go:279-312 | a batch marks exactly the entries named and is valid exactly when every offset in it resolves, whatever the order |
| LogAnswers.AckBatchNilMeansKept | reader.go:279-312 | and answers nil only with the run it completes kept |
| LogAnswers.SkipNilMeansKept | reader.go:339-352 | so does Skip for the record it stepped past |
| LogProgress.EntryHereFinds | store.go:1358-1366 | the walk finds the ledger entry that starts at the commit cursor whenever there is one |
| LogProgress.CommitReaches | store.go:1317-1483 | with nothing failing and frames as laid down, a commit to a record boundary retires everything up to it, answers nil and books nothing, even of records out of a file that has gone since they were handed out |
| LogProgress.AckedRunReaches | reserve.go:171-182 | and the whole acknowledged run is retired |
| LogProgress.AckReaches | reader.go:230-247 | one acknowledgement retires exactly the run it completes and leaves the rest marked |
| LogProgress.AckAnyOrder | reserve.go:135-160 | in whatever order acknowledgements come, repeated or not: once every entry handed out has one, everything handed out is retired and the ledger is empty |
| LogProgress.ReservedAndAcknowledged | reader.go:97-112 | any number of records handed out and then acknowledged in any order leave the commit cursor at the read cursor |
| LogProgress.TakeDelivers | store.go:1024-1076 | with nothing owed and nothing failing, a read hands out exactly the record laid down at the read cursor |
| LogProgress.DrainDeliversInOrder | reader.go:405-471 | a drain hands out every record once, in the order they were laid down, each committed as it is read |
| LogProgress.SkipRetires | reader.go:339-352 | Skip retires the record at the head if nothing is out in front of it, and otherwise leaves it to the ledger, acknowledged |
| LogProgress.DamagedRetires | store.go:1024-1076 | a record whose checksum fails is reported and booked lost, once, and retired in the same way |
| LogProgress.RequeueRotates | reader.go:581-618 | Requeue puts a copy at the tail, whatever the caps, and steps the head past the original in the same way |
| LogLossless.CommitLosesNothing | store.go:1364-1412 | over bytes that are still there a commit that meets failed opens, reads, writes or fsyncs books no loss |
| LogLossless.TakeLosesNothing | store.go:1024-1076 | nor does a read, which then delivers, finds the log drained or is refused |
| LogLossless.FailuresLoseNothing | store.go:1024-1483 | over every run on bytes that are still there, whatever opens, reads, writes and fsyncs fail: no corruption is counted, reported or owed, and every byte the read cursor moved over was delivered |
| LogSafety.RunStopsAt | reserve.go:124-133 | the acknowledged run never reaches past an outstanding extent or across a hole |
| LogSafety.RunIsLongest | reserve.go:115-133 | the run is as long as can be: it is the end of the first k entries, all acknowledged and adjoining from the cursor, and no longer prefix of the ledger is |
| LogSafety.NoneWaits | reserve.go:115-133 | on a sorted ledger no acknowledged entry that is not yet retired starts where the run ends |
| LogSafety.CommitRunKeeps | reserve.go:171-182 | advancing over the acknowledged run passes no outstanding record whatever the disk answers |
| LogSafety.RetireFrameKeeps | reserve.go:197-205 | retiring a frame without a consumer keeps the same safety and moves neither read cursor nor loss |
| LogSafety.SkipAtHeadKeeps | store.go:1226-1297 | a quarantine at the read cursor books everything to the segment's end as lost, once, or moves nothing and counts nothing |
| LogSafety.TakeHeadKeeps | store.go:1024-1076 | every answer accounts for itself: reports against corruptions, each booked as one record or one segment, cursor movement against deliveries and booked loss, a refusal moving nothing, strict progress; the arm for a cursor in no segment is unreachable |
| LogSafety.DeliversExactlyWhen | store.go:1024-1076 | a record is handed out exactly when no report is owed, its segment opens, its frame is there and its checksum is its payload's |
| LogWrites.PublishKeeps | store.go:800-838 | a span published, refused or torn keeps the invariant when the active segment is the tail |
| LogWrites.PublishNeedsTheTail | store.go:800-821 | and exactly then: published anywhere else the segments no longer tile the stream |
| LogWrites.CycleKeeps | store.go:869-892 | cycling keeps the invariant whatever fails, and a created segment is the tail and has room |
| LogWrites.CycleStrandsExactlyWhen | store.go:869-892 | the exact condition under which a refused cycle leaves an active segment that is not the tail |
| LogAnswers.AppendAnswers | store.go:585-681 | for every store and failure: the record is in the log, last in the last segment with its header out, exactly when it was let in, had room and got as far as its header; otherwise nothing was appended and every segment holds what it held. Nil is for a record in the log whose fsyncs all succeeded; the store is latched exactly when the answer says so |
| LogAnswers.AppendPlaces | store.go:754-758 | where it lands: behind what the active segment holds if it fits there to the byte, and otherwise alone in a new segment at the write cursor, of the configured size or the record's, whichever is more |
| LogAnswers.FullExactlyWhen | store.go:730-752 | ErrFull exactly for a record that does not fit now, under the byte cap or the segment cap; ErrRecordTooLarge exactly for one that never will; Requeue's append is refused by neither cap |
| LogAnswers.ErrorKeepsRecordExactlyWhen | store.go:396-413 | the exact condition under which an error that latches nothing has left its record in the log |
| LogAnswers.RequeueAnswers | reader.go:581-618 | nil for the append means a copy is the last record of the log, whatever becomes of the original; an error means the original is at the head with nothing retired |
| LogAnswers.RequeueNilMeansKept | reader.go:614-617 | and nil for the retirement means the run the original completes is kept in the sense of `CommitNilMeansKept` |
| LogFootprint.BacklogCapped | store.go:730-752 | over every run and every failure the backlog stays within the byte cap, but for copies rotated and spans admitted as they were staged |
| LogFootprint.WithinBoundExactlyWhen | doc.go:220-226 | when the documented disk bound holds, as an equivalence on the segments' slack |
| LogFootprint.FullSegmentsStayWithin | doc.go:220-226 | it does where closed segments are full |
| LogFootprint.FootprintExceeded | doc.go:220-226 | a concrete run, nothing failing, after which it does not |
| LogRuns.ExecKeeps | reader.go:97-352 | each consume and produce operation, under any faults and damage, keeps safety, accounts and invariant together |
| LogRuns.RunKeeps | store.go:1317-1483 | so does every run of them |
| LogRuns.AckSafety | reserve.go:115-160 | in every run the commit cursor stands at or before the start of every record handed out, unacknowledged and not rewound, holes included |
| LogRuns.LossConservation | store.go:1024-1076 | in every run corruptions equal reports answered plus reports owed, and since the last rewind the cursor moved by deliveries plus booked loss |
| LogRuns.LookupNeverFails | store.go:965-974 | in every run each offset from commit to write has exactly one owner and the lookup returns it |
| LogRuns.CountsAreSums | store.go:1520-1529 | in every run the counters and disk bytes are the sums over live segments |
| LogNumbers.NumbersAscend | store.go:869-892 | in every run the live segments' numbers ascend along the log and the next one is past them all: creating a segment reopens no live one, and the order recovery sorts files into is the log's |
| LogNumbers.RecoveredNumbered | recovery.go:72-129 | so they do in every store load returns |
| LogRuns.CommitNeverRetreats | store.go:1490-1515 | a failed header write rolls the commit cursor back, but over a run the cursor never retreats |
| LogAnyRun.StepSteadyAnywhere | store.go:788-892 | every operation, under any faults and damage and published into whatever segment is active, keeps the cursors in order, the segments in place, the ledger sorted and no header ahead of the commit cursor |
| LogAnyRun.CommitSteady | store.go:1317-1483 | so does a commit, which passes no target, moves the read cursor nowhere and falls back no further than the header of the segment it stood in |
| LogAnyRun.OverrunExactlyWhen | store.go:1226-1257 | the one kind of step that takes the commit cursor past a record handed out, as an equivalence: a read whose cursor is in no segment gives the log up with that record out |
| LogAnyRun.GivesUpWhole | store.go:1226-1257 | gone through with, that happens exactly when anything is out, and everything passed is booked |
| LogAnyRun.UnbookedExactlyWhen | store.go:1180-1257 | the one kind of step that breaks the accounts, as an equivalence: giving up is refused with the read cursor already moved |
| LogAnyRun.AckSafetyExactlyWhen | reserve.go:115-160 | over every run, publications anywhere: nothing handed out is passed before its answer if and only if no read gives the log up over it |
| LogAnyRun.AccountsExactlyWhen | store.go:1024-1076 | over every run: every loss is answered or owed and every byte of cursor movement delivered or booked, if and only if no read is refused half way in giving the log up |
| LogAnyRun.RetreatNeedsStaleHeader | store.go:1490-1515 | no operation takes the commit cursor back past where the header of its segment stands, so none takes it back where that header stands at the cursor |
| LogAnyRun.CommitForwardUnlessStale | store.go:1490-1515 | so over every run the commit cursor only moves forward as long as that header never stands behind it |
| LogAnyRun.SoundNeverGivesUp | store.go:1218-1226 | where the invariant holds no read gives the log up and that header stands at the cursor |
| LogRuns.TurnProgresses | reader.go:405-471 | one read-then-commit turn that delivers or reports strictly decreases what is left to do, even when the commit adds reports |
| LogRuns.DrainEnds | reader.go:405-471 | a drain that goes round again on every corruption ends within that bound |
| LogCounts.BoundaryCounts | store.go:1354-1412 | every boundary the walk crosses by, decoded, cached or reserved, is one record's or a counted extent's |
| LogCounts.WalkCounts | store.go:1317-1456 | throughout the walk the commit cursor stands at a record's start and each segment's count, in memory and in its header, is the records behind it |
| LogCounts.TrueOfFirst | store.go:489-514 | every header page 0 may be found with counts exactly the records laid down under it |
| LogCounts.RunCounts | store.go:1448-1455 | and throughout every run in which what is framed at a record's start is that record |
| LogCounts.CommitStopsAtRecord | store.go:1354-1456 | where what is framed at each record's start is that record, a commit to an offset inside one retires nothing of it |
| LogCounts.CountIsTheBacklog | store.go:1524-1529 | in such runs written minus committed is the number of records past the commit cursor |
| LogLimits.StrandedRecord | store.go:869-892 | a concrete run in which an accepted record is unreachable and the next read gives it up |
| LogLimits.StrandedOverrun | store.go:869-892 | a concrete run in which a record handed out is committed past while it is out, after being handed out in another's place |
| LogLimits.StrandedRetreat | store.go:1490-1515 | a concrete run in which the commit cursor moves backwards |
| LogLimits.StrandedUnbooked | store.go:1180-1210 | a concrete run in which the read cursor moves over bytes neither delivered nor booked lost, and a report answers no counted corruption |
| LogLimits.ForceCommitRetires | store.go:1180-1210 | every segment squared, its header before its counts, and the counters with them; a header that cannot be published stops it with the segments before it squared and those behind it as they were |
| LogLimits.AbandonDrains | store.go:1226-1257 | a cursor in no segment costs everything unread, once, and leaves the queue empty by cursors, counts and headers alike |
| LogLimits.DrainedIsSound | store.go:906-955 | the store those runs start from satisfies the invariant, its active segment the tail |
| LogLimits.CrossingCounts | store.go:1448-1455 | which crossings keep a segment's count exact, and which keep the cursor at a record's start, as equivalences on where its records stop |
| LogLimits.ReframingLosesCount | store.go:1391-1455 | a concrete damaged length after which a drained queue still counts a record |
| LogLimits.ReframingLosesPlace | store.go:1391-1455 | a concrete damaged length after which the count is right and the cursor inside a record |
| LogLimits.TwoRecordsSound | store.go:1391-1455 | the store that input is given to satisfies the invariant with exact counts |
| LogLimits.ErrorKeepsRecord | store.go:548-565 | a concrete append answered with an ordinary error, its record in the log |
| LogLimits.RequeueLeavesBoth | reader.go:609-613 | a concrete rotation answered in that way, the record at the head and at the tail both |
| LogStore.Store.FileForOffset | store.go:965-974 | the bisection returns the owner |
| LogStore.Store.DropRetired | reserve.go:69-83 | the ledger loses exactly the entries the cursor has passed |
| LogStore.Store.FindReserved | reserve.go:99-113 | the bisection finds an entry ending there if and only if there is one |
| LogStore.Store.MarkReserved | reserve.go:146-160 | flagging the found entry is marking every entry with that end |
| LogStore.Store.AckedRunEnd | reserve.go:124-133 | the loop answers the longest contiguous acknowledged run that `RunIsLongest` and `NoneWaits` are about |
| LogRuns.ReserveTracks | reserve.go:59-62 | entering the record just read in the ledger keeps the invariant, and it is outstanding from then on |
| LogStore.Store.PersistCommit | store.go:1490-1515 | the method is the function the walk is proved about, rollback included |
| LogStore.Store.PublishFullCommit | store.go:1144-1167 | header first; refused, the resident fields are back |
| LogStore.Store.SkipCorruptSegment | store.go:1226-1297 | immediate or deferred retirement and the loss booked, or everything given up when the cursor is in no segment, as the quarantine function says |
| LogStore.Store.ForceCommitAll | store.go:1180-1210 | the loop over the segments, stopped by the first header it cannot publish, is the recursive function `ForceCommitRetires` is about |
| LogStore.Store.CrossRecord | store.go:1357-1456 | one turn of the walk from the reservation check on |
| LogStore.Store.ReclaimPrefix | store.go:922-954 | the compacting loop leaves the survivors, then the rest, and the counters less what went |
| LogStore.Store.DropCommitted | store.go:906-955 | the guarded reclamation as a whole |
| LogStore.Store.WalkTo | store.go:1317-1456 | the loop, with its carried segment and ledger index, ends where the recursive walk ends |
| LogStore.Store.CommitDurable | store.go:1317-1483 | the whole operation, its answer included, is the function `CommitKeepsInv`, `CommitNilMeansKept` and `CommitReaches` are about |
| LogStore.Store.CommitAckedRun | reserve.go:171-182 | commit over the longest acknowledged run, its answer the commit's, ledger reconciled with however far it got |
| LogStore.Store.RetireFrame | reserve.go:201-205 | a frame entered already acknowledged, then the run committed |
| LogStore.Store.Ack | reader.go:230-247 | which offsets are accepted, and the state each answer leaves |
| LogStore.Store.AckBatch | reader.go:279-312 | every resolvable offset marked, one bad one only remembered, one commit |
| LogRuns.RewindKeeps | store.go:1101-1110 | after a rewind nothing is outstanding and everything that was lies ahead of the read cursor again, with invariant and accounts kept |
| LogStore.Store.PublishSpan | store.go:800-838 | cursors advanced, then kept or undone with the header write |
| LogStore.Store.Cycle | store.go:869-892 | reclaim everything committed, refuse, or add a segment |
| LogStore.Store.StartSegment | store.go:423-478 | refused, or a new empty segment at the end of the list, the store latched or not |
| LogStore.Store.AdmitRecord | store.go:730-752 | the platform's limit binds always, the byte cap unless forced |
| LogStore.Store.WriteOut | store.go:603-680 | bytes, data fsync, header and header fsync, stopped by the first that fails, as the function says |
| LogStore.Store.FlushAppend | store.go:660-680 | the fsync the policy asks for: none, the batched flush, or the header's |
| LogStore.Store.AppendRecord | store.go:585-681 | admission, cycle, write and publication in their order, every refusal and failure with its answer: the function `AppendAnswers` is about |
| LogStore.Store.TakeHead | store.go:1024-1076 | the method is the function `TakeHeadKeeps` is about |
| LogStore.Store.TryReserve | reader.go:98-112 | the head taken and entered in the ledger, or nothing entered when none was delivered |
| LogStore.Store.Skip | reader.go:339-352 | the head taken and retired through the ledger, the answer the retirement's |
| LogStore.Store.Requeue | reader.go:581-618 | the copy appended before the head is retired, the head put back when the append is refused, and both answers as the function `RequeueAnswers` is about has them |
| LogStore.Store.Next | reader.go:405-471 | the iterator's loop terminates; each report is paid for, each byte delivered or booked; it stops only drained, on an item, or on a failure, and with nothing failing on the record at the head, committed |
| Recovery.ReloadRepaired | recovery.go:154-217 | a repaired segment loads as what the repair recorded, with no loss booked a second time |
| Recovery.SettledScan | recovery.go:103-112 | the cursor scan decides alike over any mix of repaired and unrepaired segments, even when its witness is empty |
| Recovery.InterruptedRepairKeepsDecision | recovery.go:154-218 | stopped after any number of durable tail-first repairs, the next load recovers the same commit position, extents and reconciled counts |
| Recovery.NextLoadIsQuiet | recovery.go:149-218 | after a completed repair the next load writes nothing and books nothing |
| Recovery.LossIsWhatIsGone | recovery.go:277-460 | what is booked is what is gone: a dropped segment costs the bytes its region held, once, unless it goes silently; of one that lost its tail every byte and record its header counts is kept or booked; a salvaged one is reported with nothing booked; any other is no loss |
| Recovery.SilentDropLosesNothing | recovery.go:640-650 | what goes silently at the tail holds no record that verifies |
| Recovery.HeadFirstLosesTheWitness | recovery.go:154-157 | two segments for which repairing head first and stopping skips records that tail first replays |
| Open.Opening.LoadFiles | recovery.go:72-91 | the first pass keeps exactly the loadable segments, books each loss once and owes it once; it stops at the first segment it could not look at, could not unlink or finds of another geometry, and unlinks only what it has looked at and found unreadable |
| Open.Opening.Examine | recovery.go:277-336 | a segment a read failed on is left alone and fails the open; one that was looked at is unlinked exactly when it is dropped |
| Open.Opening.ScanCursor | recovery.go:103-112 | the loop with its break finds the first undecided segment's cursor |
| Open.Opening.Reconcile | recovery.go:114-129 | every count overridden by the cursor except in the segment it stands in, and summed |
| Open.Opening.RepairOne | recovery.go:160-217 | the header the recovered cursor calls for, skipped exactly when the one on disk already says it, and nothing changed by a fault |
| Open.Opening.RepairBackwards | recovery.go:158-218 | stopped at a fault, the directory is repaired from exactly that segment to the tail |
| Open.Opening.Load | recovery.go:34-232 | the passes together: cursors, counts, bytes and losses as the first pass's segments determine them; nothing unlinked that was not looked at; what a stopped or finished load leaves reopens at the cursor it decided on |
| Open.Opening.StartFresh | recovery.go:236-249 | one empty segment, with every report still owed |
| Open.TornRepairOnlyReplays | recovery.go:194-201 | power lost inside a repair's header write: the next open decides the lesser of the same cursor and that segment's start |
| Reopen.CommitCursorAgreement | recovery.go:103-112 | on the headers an unlatched store leaves, recovery's scan stands where the memory cursor stands in every segment, with the same bytes left |
| Reopen.CountsAgree | recovery.go:114-129 | and its reconciled counts are the running ones, with nothing to repair and nothing booked |
| Reopen.RecoveredIsSound | recovery.go:72-129 | over whatever segments load keeps, the store satisfies everything a run is proved from |
| Reopen.FreshIsSound | recovery.go:236-249 | so does a fresh directory, with exact counts |
| Sessions.LoadedStore | recovery.go:72-129 | the fields the loading loops leave are that store, field by field |
| Sessions.OpenStore | recovery.go:34-249 | opening any directory: refused exactly when a segment could not be looked at or unlinked, on a geometry mismatch, or when nothing was kept and no segment could be created; a load no fault stopped returns a sound store whose headers are the ones on disk, a fresh one still owing every report if nothing was kept |
| Sessions.RecoveredCounts | recovery.go:114-129 | load counts exactly whenever what it read of each segment is true of that segment; no two headers need agree |
| Sessions.SalvageIsTrue | recovery.go:542-595 | a salvaged segment is counted truly by construction |
| Sessions.LostTailIsTrue | recovery.go:391-445 | so is one that lost its tail, clamped to the frames left whole |
| Sessions.CrashedIsTrue | recovery.go:337-460 | whichever header of the session a crash leaves a segment, a torn publication's included, over all of its bytes or cut short, or none that can be believed, load's count and cursor are true of the records found there: those laid down under that header, as many as the cut leaves whole, or those the salvage walks |
| Sessions.FoundWasLaidDown | recovery.go:391-595 | under a believed header those are the first records the segment was given, in order; under a torn one they are everything published in it, and what verifies behind |
| Sessions.CrashCounts | recovery.go:114-129 | a crash anywhere in a run, any header per segment: the store load returns counts exactly the records found, and is sound for the next run |
| Sessions.SurvivorsAreHonest | record.go:208-226 | over the bytes a crash left, the decoder answers at the start of every record that store counts, with exactly that record |
| Sessions.ReopenedIsLoaded | recovery.go:34-129 | whatever bytes an unlatched store leaves in its regions, load makes the same store of its headers and books nothing |
| Sessions.ReopenedCounts | recovery.go:114-129 | reopening carries over the unread bytes, the backlog, exact counts and everything a run is proved from |
| Sessions.SessionsKeep | recovery.go:114-129 | so do any number of sessions in a row, each ended by a close or by a crash |
| Sessions.CountAcrossSessions | store.go:1524-1529 | from an empty directory, over any mix of sessions closed and crashed and then any run, written minus committed is the number of records found past the commit cursor |
| Sessions.UndamagedIsHonest | record.go:208-226 | over the frames that were laid down the decoder answers at every record's start, with exactly that record |
| Residue.StaleHeadersOnlyReplay | recovery.go:101-129 | for any older or torn header per segment, a byte still published and uncommitted at the crash is at or after the recovered cursor |
| Residue.SessionNotAhead | store.go:1490-1515 | between operations, latched or not, no header a live file may be found with is past the commit cursor unless a failure strayed |
| Residue.WalkNotAhead | store.go:1345-1353 | nor at any turn inside a commit walk |
| Residue.CrashReplays | recovery.go:101-129 | over whole runs, latched or not, short of the two failures: any header per segment, reclaimed segments back or not, and nothing uncommitted is skipped |
| Residue.CrashInCommitReplays | store.go:1317-1456 | power lost in the middle of a commit, after any number of turns of its walk: any header per segment, and nothing it had not yet committed is skipped |
| Residue.CommitAhead | store.go:1490-1515 | a commit's header gets ahead of memory exactly when its write fails and cannot be undone |
| Residue.QuarantineAhead | store.go:1144-1167 | a quarantine's exactly when its write cannot be undone or its fsync is refused |
| Residue.PublicationNeverStrays | store.go:800-838 | a publication's never does, however it fails |
| Residue.ReclaimedIsRetired | store.go:906-955 | a reclaimed segment whose unlink a crash undoes has nothing left to replay |
| GroupCommit.DataBackKeeps | diskqueue.go:866-889 | back from the data fsync: published, discarded or latched, the protocol's invariant holds, whatever a Sync's fsync of the same file was told meanwhile |
| GroupCommit.HeaderBackKeeps | diskqueue.go:890-937 | back from the header fsync: answered, and the next span started if anyone staged |
| GroupCommit.BatchKeeps | diskqueue.go:714-761 | a batch's span under one lock hold keeps it |
| GroupCommit.SyncToldKeeps | diskqueue.go:1287-1311 | so does a Sync's fsync answering, of the active file or a closed one, clean or with the error everyone else will miss |
| GroupCommit.RewriteKeeps | store.go:1490-1515 | so does a commit's rewrite of any segment's header, flushed, unflushed, refused or torn |
| GroupCommit.CommitToldKeeps | store.go:1490-1515 | and so does its fsync answering, clean or not |
| GroupCommit.StepKeeps | diskqueue.go:790-937 | every step of producers, leader, batches, Syncs, flushed and unflushed commits on any segment, and faults, in any order, keeps it |
| GroupRuns.HeaderNeverAhead | store.go:800-821 | in every interleaving no header that may be found, of any segment, covers a record not on stable storage, unless a leader has gone by an answer that hid an error |
| GroupRuns.DurableAddSurvives | diskqueue.go:856-937 | once Add has returned nil the record is recovered at its place in its segment, open or closed, whatever a power loss leaves from the first unsynced record on in each and whichever header is found in each, believed or torn, unless a leader has gone by an answer that hid an error |
| GroupRuns.HeaderAheadExactlyWhen | diskqueue.go:866-889 | a header gets ahead of its data at exactly one kind of step: a leader publishes by a clean answer over a record of its span whose error a Sync was told |
| GroupRuns.NilUnbackedExactlyWhen | diskqueue.go:890-902 | a nil is left to a header that may not be found at exactly one kind of step: a leader answers by a clean fsync over a header whose error a Sync was told |
| GroupRuns.CommitDurableExactlyWhen | store.go:1490-1515 | in every run a flushed commit answered clean leaves no header to be found but its own, except exactly when an fsync off the lock took the error for it, and then someone still owes the latch |
| GroupRuns.FooledBySync | diskqueue.go:1287-1314 | either step takes a Sync that has been told of an error and has not had the lock since |
| GroupRuns.DataHidden | diskqueue.go:866-889 | a concrete run to a nil Add whose record a power loss takes, its bytes dropped with the error a Sync was told |
| GroupRuns.HeaderHidden | diskqueue.go:890-902 | another, in which the header is what was dropped |
| GroupRuns.CommitHeaderHidden | diskqueue.go:1287-1311 | a concrete run in which a commit is answered clean and its old header may be found |
| GroupRuns.BelievedRecovers | recovery.go:372-390 | a believed header over such a crash image recovers exactly the records it covers, byte for byte |
| GroupRuns.TornRecovers | recovery.go:542-595 | a torn one recovers everything published, in order, and nothing else exactly when nothing verifies behind it |
| GroupRuns.NothingUnpublished | store.go:760-783 | unlatched, a believed header over any crash image recovers a prefix of the published log and no staged record |
| GroupRuns.SalvageUnpublished | recovery.go:522-595 | over any run a torn header recovers what its segment published and nothing else exactly when nothing verifies behind that, and whatever is on stable storage there does |
| GroupRuns.RefusedComesBack | store.go:823-838 | a concrete run in which an Add answered with an ordinary error has its record brought back by a torn header |
| GroupRuns.LogInOrder | store.go:788-821 | the log holds each record once, in staging order |
| GroupRuns.VerdictsMeanIt | diskqueue.go:783-789 | nil means in the log; an error that is not a durability failure means not in the log |
| GroupRuns.FaultFreeAdds | diskqueue.go:790-937 | with nothing refused and nothing failing every Add that has been answered was answered nil, and once the leader has left every one has been, its record in the log |
| GroupRuns.OrdinaryFailuresDoNotPoison | diskqueue.go:476-490 | over any run in which writes may fail and be undone but no fsync fails and nothing is left that could not be undone: the queue is never poisoned, and every answer is exact, nil for a record in the log and an error for one that is not |
| GroupRuns.NobodyLeftWaiting | diskqueue.go:913-936 | every caller has one answer or is waiting, and when the leader leaves nobody waits and nothing is staged |
| GroupRuns.AnswersStick | diskqueue.go:910-929 | no answer changes and no published record leaves, whatever happens next |
| GroupRuns.SpansAreWhole | store.go:800-847 | a step moves a whole span, a batch's included, into the log or nothing |
| GroupRuns.SpanSharesVerdict | diskqueue.go:910-916 | the callers of one span are answered together and alike |
| GroupRuns.LeaderBound | diskqueue.go:803-808 | while anyone quiesces each leader step uses up a bounded budget |
| GroupRuns.QuiesceIsBounded | diskqueue.go:943-964 | from the moment anyone waits the leader has at most the span it is in and one more, and after them the queue is drained or a batch holds the lock |
| OffLockSync.NilMeansDurable | diskqueue.go:1211-1239 | at a nil answer the whole snapshot is down, except exactly when a leader holds an error over it that it has not latched, which takes the per-operation policy; nothing else has failed |
| OffLockSync.StepKeeps | diskqueue.go:1255-1318 | appends, commits, flushes, leaders, evictions, reclamations and pieces of a Sync, in any order, keep the flags, pins and gauge |
| OffLockRuns.CleanIsDurable | header.go:74-77 | a clean file has no undurable write, unless one of its fsyncs has failed |
| OffLockRuns.CleanLiesExactlyWhen | diskqueue.go:1287-1311 | the one kind of step after which a clean file may have undurable writes, as an equivalence |
| OffLockRuns.PinnedStaysOpen | header.go:87-92 | every fsync in flight is on an open handle of a live segment |
| OffLockRuns.SyncIsHonest | diskqueue.go:1140-1175 | Sync returning nil: every write made before the call is durable in every segment still live, unless a leader under the per-operation policy has been told of that file's error and has not latched it |
| OffLockRuns.SyncLiesExactlyWhen | diskqueue.go:1217-1241 | a Sync answers nil over a write that is not down at exactly one kind of step |
| OffLockRuns.SyncLies | diskqueue.go:866-881 | a concrete run in which it does: the leader's fsync takes the error for a header a commit had left to the Sync |
| OffLockRuns.GaugeCoversExposure | store.go:118-123 | short of a failed fsync the gauge covers all undurable record bytes, whatever ran beside the Sync |
| OffLockRuns.GaugeLiesExactlyWhen | store.go:396-413 | an honest gauge starts to under-report exactly when a batched flush is booked between a Sync's failed fsync and its latch, over unsynced record bytes |
| OffLockRuns.GaugeLies | diskqueue.go:1287-1311 | a concrete run in which it does |
| OffLockRuns.GaugeComesDown | diskqueue.go:1223-1241 | a Sync that answers nil brings the gauge down to what was appended while it ran, or lower |
| OffLockRuns.FaultFreeSync | diskqueue.go:1175-1241 | with nothing failing every Sync answers nil, with every write made before it down in every segment still live |
| Lru.EvictionSparesKeepers | store.go:302-337 | active, just-opened and pinned handles are never closed |
| Lru.EvictionTakesTheOldest | store.go:302-337 | of the handles that may be closed, the least recently used are |
| Lru.EvictionReachesTheCap | store.go:308-337 | back under the cap whenever the handles that must stay fit under it |
| Lru.CapHolds | store.go:347-358 | a cap of three or more and pins two short of it are enough |
| Lru.List.PushMRU | store.go:274-284 | the list becomes the file followed by what it was |
| Lru.List.Unlink | store.go:287-300 | the list loses exactly that file |
| Lru.List.Touch | store.go:259-265 | the file moves to the front |
| Lru.List.FindVictim | store.go:320-327 | the walk stops at the least recently used handle that may be closed |
| Lru.List.EvictOpen | store.go:308-337 | the list is the eviction of what it was, still exactly the open files, and back under the cap if those that must stay fit under it |
| Lru.List.EnsureOpen | store.go:238-256 | opened or touched, then evicted, and under the cap with pins two short of it; a refused open changes nothing |
| Batch.Queue.PublishSpan | store.go:800-847 | the span whole or nothing, and nothing left staged after a failure |
| Batch.Queue.PublishBatch | diskqueue.go:714-761 | for a span of pending records, on every policy: they are in the log exactly when the store was not latched, the header was written and, per operation, the data fsync succeeded, all or none; the answer is nil exactly when the fsyncs the policy asks for succeeded too; and what latches, as an equivalence on the failures |
| Batch.Queue.AddBatch | diskqueue.go:626-705 | on every exit the log grew by exactly the first `published` items and nothing is staged; each exit exactly by its cause, and with no refusal, fault or latch every item is in the log; unsynced and pending writes never exceed SyncEvery |

## Left out

- File and system calls: fallocate, fdatasync, flock, directory fsync and the platform files are answers in the
  environment, so their own correctness is outside the model.
- xxhash64 is any function; only the zero-fill lemmas ask that the empty payload's hash is not zero, and collisions are not discussed.
- Codecs, generics, timestamps, contexts, timeouts, buffer pooling and trimming do not touch the log's state. A codec
  that refuses a record appears as `LogRuns.Reject` and in `Batch.Queue.AddBatch`.
- Channels and scheduling: waiters are sets, wakeups are steps, and bounds are on steps rather than time.
- Segment file names, duplicate numbers and foreign format versions beyond being dropped silently.
- LogFootprint.BacklogCapped: the records of a batch are admitted one by one as they are staged, which is not part of the segment model; here a span comes beside the cap.
- LogProgress.CommitReaches: for a target that splits no record and no extent given up; inside one a commit stops in front of it (LogCounts.CommitStopsAtRecord).
- LogLossless.FailuresLoseNothing: for runs that publish onto the tail, as LogRuns.RunKeeps.
- LogStore.Store.CommitDurable: segments are values in the list reached by index, so aliasing between the entries of `files` and the walk's carried pointers is not modelled.
- LogRuns.RunKeeps: runs publish only into a segment that ends at the write cursor; elsewhere the invariant is false (finding 1), and `LogAnyRun.dfy` has what remains.
- LogRuns.CountsAreSums: the same; after a strand the sums are not carried over a read that gives the log up, which sets the committed count outright.
- LogStore.Store.PublishSpan: `gone` says that a handle had to be reopened and the path was missing, so nothing can be written there; a file unlinked behind an open handle is an ordinary file here.
- LogCounts.RunCounts: assumes that what is framed at a record's start is that record; the excluded case is finding 2.
- Reopen.CommitCursorAgreement: for an unlatched store whose segment files have not vanished.
- Residue.CrashReplays: for runs in which neither failure of finding 3 has happened.
- Reopen.CountsAgree: for a store with exact counts, which Sessions.SessionsKeep carries over any number of reopenings.
- Sessions.SessionsKeep: a session that ends in a close is closed unlatched with every segment file in place; segment numbers restart from one.
- BlockCache.Store.RecordAt: a segment file does not shrink behind the process's back during a session.
- GroupCommit.StepKeeps: segment capacity, admission and the reclamation of closed segments are not part of the protocol model; a new segment may start whenever nothing is staged, and a Sync may fsync any segments in any order.
- OffLockSync.StepKeeps: the handle cap's effect on chunk size is in Lru.dfy; here a chunk is any part of the dirty set.
- OffLockRuns.GaugeLiesExactlyWhen: under the per-operation policy nothing is gauged, so writes carry no bytes there.
- Statistics, examples and benchmarks.
