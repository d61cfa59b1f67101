# webfang: verified model of its durable-state protocols

This project models the parts of webfang in which a crash, a failing disk or an unlucky
interleaving could lose or duplicate work, and proves what those parts guarantee.

**The export session.** Each scraped item is claimed, checked against the resume gate, appended to
the JSONL output, checkpointed EXPORTED and then COMMITTED. Every save merges the session's records
into what is durable at that moment. `Records` holds the record and its lifecycle,
`ExportProtocol` the step machine on values (output lines, durable store, in-memory session),
`CommitSession` the session as it runs: an object that updates its maps in place, method by method
proved equal to the step machine. About that machine:

- `Reporting` and `ItemEffects`: exactly which items are reported, what each does to its record, and
  when that is durable.
- `CrashSafety`: whatever runs start, crash, fail to save or interleave, records never claim bytes
  that are not in the file.
- `ExactlyOnce`: with one writer and well-behaved items, crashed runs never duplicate a line and one
  completed resumed run leaves exactly one line and one COMMITTED record per item.
- `MergeConvergence`: what the store converges to under interleaved persist transactions.
- `Cancellation`: a cancelled run is an uncancelled run over a prefix.
- `AiPlan`: the plan, the batch and the commit loop of the AI path; `AiHonesty`: exactly when that
  loop records only what was written; `AiCommits`: that it records everything that was.
- `ProtocolLimits`: the exact conditions under which the protocol delivers less than its comments say.

**The result log.** `ResultLog` (framing, recovery scan, full read), `LogWriter` (the writer over a
sink that may fail after any byte, and its live index) and `ShutdownDrain` (savers, writer and
shutdown callers over one bounded channel, in every interleaving) with `DrainLimits` (which
acknowledged saves a successful shutdown has in the log) and `ShutdownErrors` (what savers and
shutdown callers are told).

**Smaller pieces.** `EnvGuard` (undo log under one lock, sequential and multi-threaded),
`ProviderId` with `Hex` (FNV-1a ids), `OutputPath` with `PathShape` (truncation and path building), `UseTree` (the
lint's `use`-tree flattener), `NearestRank` with `FloatRank` (benchmark percentiles).

Clocks, save and load failures, exporter results, sink faults and cancellation are parameters, so
each theorem ranges over all of them. A crash is the removal of a run between two steps of the
machine. Every step has at most one durable effect, with one exception: a failed export that left its
line behind also saves its failure record, and a crash between the two is that save failing. The two
readings of the world that a maintainer
should know: an item carries its canonical key, its content digest and the validation verdict as
data, and a line append is atomic.

## Where the code and its documentation differ

The model follows the code. Each difference has a lemma with the exact condition.

- The merge comment says that a record another writer advanced carries a later `updated_at` and
  survives. The commit point does not restamp the record, so a session that loaded the EXPORTED
  record rolls the COMMITTED one back (`SurvivesIff`, `StaleSessionUndoesCommit`).
- "Status not advanced" failures keep a record valid unless it is COMMITTED; then the store
  quarantines it and forgets the page (`FailureKeepsValidIff`, `FreshFailureForgetsCommitted`). An
  EXPORTED record that carries an error can never be promoted (`PromotionCommitsIff`).
- Flush proof is by content alone, is taken when the run opens, and yields to a record's own claim
  (`LineWrittenIff` says exactly when an item gets a line). So a page without a record gets no line
  of its own if and only if an earlier run flushed the same content (`MirroredItemWrittenIff`), and
  a failed attempt can lead to a duplicate line (`FailureRecordDuplicatesLine`).
- The AI path promises that the commit point marks only what was written. Its decisions are taken
  up front, so a second promoted chunk of a page restarts the record that the first one committed.
  The promise holds if and only if every such chunk has its bytes in the file (`WorkingSetHonestIff`,
  `StoreHonestIff`, `UnsafePromotionCommitsUnwritten`).
- `load_all` promises an error for a payload that cannot be read. It reports a read failure if and
  only if the failing byte is not in a payload; in one it returns the records before it as if they
  were all (`ReadFaultReportedIff`).
- After a failed append the live index is right, but the index that the next start rebuilds agrees
  with it only in the cases that `TailRescanAgreesIff` and `RescanAgreesIff` give exactly.
- `shutdown` says that every acknowledged write is handed over before the caller proceeds. After a
  successful join a save is in the log if and only if, when it was accepted, the writer was running
  with fewer than two Shutdown commands queued, or draining with none (`AcknowledgedKeptIff`;
  `LateSaveIsLost` and `SecondShutdownDropsSave` are the two ways to lose one). A caller that finds
  the handle taken returns at once, and its earlier saves are all in the log by then if and only if
  no more saves are queued than were accepted since its request (`EarlyReturnIff`,
  `SecondCallerReturnsEarly`).
- `EnvGuard` restores originals only if they were valid Unicode (`GuardRestoresIff`), and not at all
  if its constructor panics part way through the list (`PanicLeaksNothingIff`).
- `from_url_with_query` promises distinct filenames for URLs that differ in query or fragment. They
  share a file if and only if the slugs are equal after decoding, trimming and whitelisting, or one
  is a device name and the other its replacement (`QueriesCollideIff`, `BareCollidesIff`); `?a+b` and
  `?a,b` do for every plain path (`DistinctQueriesCollide`).
- `nearest_rank` documents the ceiling of `p / 100 * n`. In floating point it is taken if and only if
  the product is not whole or is not rounded past the whole number (`FloatRankExactIff`): always for
  the two percentages in use, not for 7 percent of 100 samples.

## Model

| member | source | states |
|---|---|---|
| Records.TableMatchesTypedBoundary | crates/webfang_core/src/domain/record_transition.rs:42-67 | the store's quarantine table and the typed boundary agree: a record survives a load iff its identity is meaningful and it reconciles into the state it claims |
| Records.CommitAcceptsExactly | crates/webfang_core/src/domain/record_transition.rs:131-140 | exactly which records the commit point accepts; it advances the status alone and never accepts its own result again |
| Records.WalkKeepsPayload | crates/webfang_core/src/application/export_factory.rs:499-512 | the chain of typed transitions from any status changes the status and no other field |
| Records.DriveKeepsIdentity | crates/webfang_core/src/application/export_factory.rs:490-537 | when re-driving fails, and that it keeps identity, continues a lower record unchanged and restarts a terminal one without hash and attempts |
| Records.ViolationIsFirst | crates/webfang_core/src/domain/record_transition.rs:42-67 | the quarantine reason is the first violated rule: identity, place and hash, error, attempts |
| Records.NewDiscoveredShape | crates/webfang_core/src/domain/persistence.rs:278-305 | a record is created iff both URLs have a character that trimming keeps, and always in the fresh shape |
| Records.WhitespaceIs | crates/webfang_core/src/domain/record_transition.rs:73-75 | the characters that trimming removes, by code point |
| CrashSafety.PromotionIsHonest | crates/webfang_core/src/application/export_factory.rs:198-291 | in the per-item path a flush-proof promotion installs an EXPORTED record that reconciles and names bytes that are in the file |
| CrashSafety.StepKeepsInv | crates/webfang_core/src/application/export_factory.rs:843-919 | every step of a run, with any save or export failing, keeps disk and session honest and never loses a flushed hash |
| CrashSafety.ReportedMeansExported | crates/webfang_core/src/application/export_factory.rs:864-918 | an item appends its own line or nothing; it is reported as driven only if its bytes, or those its earlier record names, are in the file |
| CrashSafety.ApplyKeepsInv | crates/webfang_core/src/application/export_factory.rs:128-139 | starting, crashing and stepping any of several concurrent runs keeps all of them and the disk honest |
| CrashSafety.CrashSafety | crates/webfang_core/src/application/export_factory.rs:159-409 | over every history of fresh and resumed, crashed and concurrent runs, each durable EXPORTED or COMMITTED record carries a hash that a flushed line carries and each lower record carries none |
| CrashSafety.CrashSafetyFromEmpty | crates/webfang_core/src/application/export_factory.rs:843-989 | the same read off the final disk of every history that starts empty |
| CrashSafety.RunIsHistory | crates/webfang_core/src/application/export_factory.rs:929-989 | the run that the program makes, with its early exit and final persist, is one of these histories |
| CrashSafety.LoopKeepsInv | crates/webfang_core/src/application/export_factory.rs:958-979 | so the loop keeps an honest disk and session honest, whatever fails and wherever it is cancelled |
| CrashSafety.HistoryKeepsAddressed | crates/webfang_core/src/application/export_factory.rs:539-560 | no history writes a record whose canonical URL addresses no page |
| Reporting.ReportedIff | crates/webfang_core/src/application/export_factory.rs:843-919 | an item is reported as driven iff the token is not observed, its pair is unclaimed, a resumed run did not find it COMMITTED, and it was proven flushed when the run opened or is valid and its export flushed; as cancelled iff the token is observed behind a promotion or an export |
| Reporting.UrlsAreReported | crates/webfang_core/src/application/export_factory.rs:956-988 | the returned URLs are those of exactly the items that meet this at their turn, in order |
| Reporting.CommittedIsLeftAlone | crates/webfang_core/src/application/export_factory.rs:864-868 | a resumed run changes nothing on disk or in memory for a durably COMMITTED page and does not report it |
| ItemEffects.DrivenItemRecords | crates/webfang_core/src/application/export_factory.rs:883-918 | a handled item that was not flushed ends COMMITTED, field by field, if it is valid and flushes, and leaves its failure, field by field, if it is rejected or fails |
| ItemEffects.PromotedItemRecords | crates/webfang_core/src/application/export_factory.rs:869-879 | a handled item that was flushed ends COMMITTED, except that an EXPORTED record with an error or without an attempt stays |
| ItemEffects.FlushCommits | crates/webfang_core/src/application/export_factory.rs:331-409 | the record of a flushed item: bytes, file, run, time, no error, one attempt more than the lifecycle it continues; none for a blank identity |
| ItemEffects.FailureRecords | crates/webfang_core/src/application/export_factory.rs:296-328 | the record of a failed item: one attempt more, the classified error and the time, all else as it was or fresh; none without a store or an identity |
| ItemEffects.PromotionRecords | crates/webfang_core/src/application/export_factory.rs:198-291 | the record of a promoted item in each case of what was there |
| ItemEffects.ItemTouchesItsSlot | crates/webfang_core/src/application/export_factory.rs:843-919 | an item claims its pair and changes no record but its own; a claimed pair changes nothing |
| ItemEffects.SettleIsDurable | crates/webfang_core/src/application/export_factory.rs:390-400 | with working saves the EXPORTED record is durable before the commit point and what that leaves is durable after it |
| ItemEffects.ItemIsDurable | crates/webfang_core/src/application/export_factory.rs:331-409 | with working saves and a clock that does not go back, whatever an item leaves in its slot is durable when it is done |
| ItemEffects.NothingSaved | crates/webfang_core/src/application/export_factory.rs:438-457 | a run without a store and an item whose saves fail leave the store as it was |
| ExactlyOnce.DrivenMeansUnflushed | crates/webfang_core/src/application/export_factory.rs:159-196 | an unclaimed item that the gate sends to the drive path is not in the file yet |
| ExactlyOnce.StepKeepsOnce | crates/webfang_core/src/application/export_factory.rs:331-409 | every step of a single writer keeps lines unique, records tracked to their items and the store no newer than the session |
| ExactlyOnce.AtMostOnce | crates/webfang_core/src/application/export_factory.rs:843-919 | over every history of crashed and resumed runs with failing saves, no line ever occurs twice |
| ExactlyOnce.ProcessItemSettles | crates/webfang_core/src/application/export_factory.rs:843-919 | processing one item leaves it flushed and COMMITTED in memory and disturbs no other item, even if its saves fail |
| ExactlyOnce.CompletedRun | crates/webfang_core/src/application/export_factory.rs:929-989 | a completed resumed run whose final save works turns any disk that crashed runs can leave into an exactly-once one |
| ExactlyOnce.ExactlyOnceAcrossCrashes | crates/webfang_core/src/application/export_factory.rs:159-409 | from an empty disk, any number of runs cut off anywhere followed by one completed resumed run leave exactly one line per item, no other line, every record COMMITTED and no other record |
| CommitSession.BuildContentHashIndex | crates/webfang_core/src/application/export_factory.rs:604-646 | the index holds a hash iff some line carries it |
| CommitSession.Session.Open | crates/webfang_core/src/application/export_factory.rs:129-139 | a session opens with no claims, exactly the durable records that are not quarantined, and the hashes of the file, or with empty views of what cannot be read |
| CommitSession.Session.ClaimAppend | crates/webfang_core/src/application/export_factory.rs:151-154 | true exactly for the first claim of a pair, which is claimed afterwards |
| CommitSession.Session.MergePersist | crates/webfang_core/src/application/export_factory.rs:423-436 | the loop over the working set computes the per-key merge with the durable records, which `MergeConvergence` specifies |
| CommitSession.Session.CommitPoint | crates/webfang_core/src/domain/record_transition.rs:149-155 | swap and save of one slot refine the Commit step |
| CommitSession.Session.PromoteFromFlushProof | crates/webfang_core/src/application/export_factory.rs:198-291 | the mutation sequence of a promotion refines the checkpoint and commit steps |
| CommitSession.Session.FailItem | crates/webfang_core/src/application/export_factory.rs:296-328 | the mutation sequence of a recorded failure refines the failure step |
| CommitSession.Session.CommitItem | crates/webfang_core/src/application/export_factory.rs:331-409 | remove, drive, stamp, insert, save, swap, save refine the checkpoint and commit steps of a flushed item |
| CommitSession.Session.ProcessSingleItem | crates/webfang_core/src/application/export_factory.rs:843-919 | claim, decision, export and bookkeeping of one item refine its uninterrupted steps and report the outcome the machine assigns |
| CommitSession.Session.ProcessResults | crates/webfang_core/src/application/export_factory.rs:929-989 | the loop with its early exit and the final persist refine the whole run, return its URLs, and leave an honest store if session and disk were honest |
| CommitSession.Session.CommitAiOutcomes | crates/webfang_core/src/application/export_factory.rs:1088-1142 | the AI commit loop refines the fold that `AiPlan` reasons about |
| CommitSession.Session.ProcessResultsWithChunks | crates/webfang_core/src/application/export_factory.rs:1149-1229 | decide, plan, batch append, commit: a failing batch changes no record and leaves a prefix of its lines, otherwise every chunk's URL is returned and the disk is that of the planned commit |
| MergeConvergence.TransactAt | crates/webfang_core/src/application/export_factory.rs:423-436 | what one transaction does at one key |
| MergeConvergence.ReplayKeepsNewest | crates/webfang_core/src/application/export_factory.rs:411-436 | after any interleaving the store holds exactly the keys some writer held, each with the newest record and among equally new ones the last |
| MergeConvergence.NothingIsLost | crates/webfang_core/src/application/export_factory.rs:411-436 | further transactions never drop a key and never decrease its stamp |
| MergeConvergence.OrderDoesNotMatter | crates/webfang_core/src/application/export_factory.rs:411-436 | if equally stamped records of a key are equal, permuting the transactions leaves the final store unchanged |
| MergeConvergence.SurvivesIff | crates/webfang_core/src/application/export_factory.rs:419-431 | a durable record survives a transaction iff the writer lacks the key, holds the same record or a strictly older one |
| MergeConvergence.LostIff | crates/webfang_core/src/infrastructure/export/record_store.rs:431-458 | a key leaves the store iff its record is quarantined by the load and the writer lacks it |
| MergeConvergence.StampDecreasesIff | crates/webfang_core/src/infrastructure/export/record_store.rs:431-458 | the durable stamp of a key decreases iff its record is quarantined by the load and the writer holds an older one |
| MergeConvergence.StaleSessionUndoesCommit | crates/webfang_core/src/application/export_factory.rs:419-431 | a session that loaded the EXPORTED record rolls back the commit of another one |
| Cancellation.ItemsEndReady | crates/webfang_core/src/application/export_factory.rs:843-919 | no item is left half way through its sequence |
| Cancellation.LoopIsPrefix | crates/webfang_core/src/application/export_factory.rs:958-979 | the cancelled loop equals the uncancelled loop over the processed prefix, and its URLs those of the reported prefix |
| Cancellation.CancellationIsPrefix | crates/webfang_core/src/application/export_factory.rs:929-989 | whenever the token fires, file, store and session equal those of an uncancelled run over a prefix; the loop stops early only right after an item that observed the token, which alone is processed but not reported |
| ProtocolLimits.LineWrittenIff | crates/webfang_core/src/application/export_factory.rs:159-196 | in every honest state an item gets exactly its own line iff it is the first of its pair, valid, exported, and unproven: no resume, no record and a hash outside the index, a record below EXPORTED, or an EXPORTED one whose hash is outside the index; otherwise the file is unchanged |
| ProtocolLimits.FailureRecordDuplicatesLine | crates/webfang_core/src/application/export_factory.rs:177-192 | a history of a failed attempt, a cut-off flush and a resume that writes the same line twice |
| ProtocolLimits.MirroredItemWrittenIff | crates/webfang_core/src/application/export_factory.rs:183-193 | a valid item without a record whose export works gets its own line iff its content was not flushed by an earlier run; otherwise it is COMMITTED without one |
| ProtocolLimits.FailureChangesDecisionIff | crates/webfang_core/src/application/export_factory.rs:293-328 | a recorded failure changes a later gate decision iff the key is its own and its record was COMMITTED, or it had none and the content was flushed |
| ProtocolLimits.FailureLeavesOneAttempt | crates/webfang_core/src/application/export_factory.rs:320-325 | a later success differs by exactly one attempt from the one without the failure; the class is recoverable iff the item data was at fault |
| ProtocolLimits.FlushedRecordLifecycle | crates/webfang_core/src/application/export_factory.rs:344-393 | the record of a flushed item names this run, its bytes and its file, has no error, and counts attempts over the unfinished lifecycle it continues |
| ProtocolLimits.FailureKeepsValidIff | crates/webfang_core/src/application/export_factory.rs:293-328 | recording a failure keeps a valid record valid iff it is not COMMITTED |
| ProtocolLimits.FreshFailureForgetsCommitted | crates/webfang_core/src/application/export_factory.rs:883-893 | a fresh run in which a COMMITTED page fails validation makes the store forget the page |
| ProtocolLimits.PromotionCommitsIff | crates/webfang_core/src/application/export_factory.rs:256-269 | promoting an EXPORTED record commits iff it carries no error and was attempted; otherwise slot and file stay as they are |
| AiPlan.PlanAiChunks | crates/webfang_core/src/application/export_factory.rs:1042-1081 | the loop with its growing key set gives each position the outcome of the position-wise specification, and the batch of first occurrences |
| AiPlan.PlanIsExact | crates/webfang_core/src/application/export_factory.rs:1053-1079 | which chunks are not driven, rejected and why, exported and as what, or repeat an earlier driven and valid pair |
| AiPlan.OutcomesMatchBatch | crates/webfang_core/src/application/export_factory.rs:1042-1081 | the n-th Exported outcome belongs to the n-th batch entry |
| AiPlan.EntryHasOrigin | crates/webfang_core/src/application/export_factory.rs:1042-1081 | every batch entry comes from a first occurrence at its own rank |
| AiPlan.BatchIsExact | crates/webfang_core/src/application/export_factory.rs:1042-1081 | the batch holds every driven, valid (url, hash) pair exactly once and nothing else |
| AiPlan.DeletingInvalidIsInvisible | crates/webfang_core/src/application/export_factory.rs:1058-1069 | deleting a chunk that validation rejects changes no other chunk's outcome |
| AiHonesty.LoopIsAfter | crates/webfang_core/src/application/export_factory.rs:1097-1141 | the commit loop ends right behind the first chunk that is not skipped and observes the token, and after all of them without one |
| AiHonesty.PromotedIsKeptOrOwn | crates/webfang_core/src/application/export_factory.rs:256-291 | a promotion keeps a reconcilable EXPORTED record as it is, or installs the hash of the chunk itself |
| AiHonesty.PrefixIsHonest | crates/webfang_core/src/application/export_factory.rs:1083-1142 | with the batch in the file and every restarting chunk backed, each prefix of the loop leaves all records, in memory and durable, backed by a flushed line |
| AiHonesty.RestartInstalls | crates/webfang_core/src/application/export_factory.rs:1103-1111 | a promoted chunk that is not the first of its key, on a record the commit point accepts, leaves a COMMITTED record naming its own bytes |
| AiHonesty.WorkingSetHonestIff | crates/webfang_core/src/application/export_factory.rs:1149-1229 | the working set of an uncancelled run over an honest disk is honest after every prefix of the loop iff every such chunk has its bytes in the file, this batch included |
| AiHonesty.StoreHonestIff | crates/webfang_core/src/application/export_factory.rs:1149-1229 | the same iff for the store that the final persist leaves after every prefix, whichever other saves fail |
| AiHonesty.AiRunIsHonest | crates/webfang_core/src/application/export_factory.rs:1149-1229 | a whole AI run to its final persist, with any saves failing and wherever it is cancelled, leaves an honest store under that condition |
| AiHonesty.UnsafePromotionCommitsUnwritten | crates/webfang_core/src/application/export_factory.rs:1174-1187 | without it: two promoted chunks of one page leave a COMMITTED record for bytes never written |
| AiCommits.ChunkRecords | crates/webfang_core/src/application/export_factory.rs:1103-1130 | an exported chunk ends COMMITTED, a rejected one leaves its failure, a skipped or repeated one changes nothing |
| AiCommits.AiRunWrites | crates/webfang_core/src/application/export_factory.rs:1206-1209 | the file grows by exactly one line per batch entry, in order |
| AiCommits.AiRunRecords | crates/webfang_core/src/application/export_factory.rs:1149-1229 | at the end of an uncancelled run, the chunk with the last word on its page leaves its COMMITTED record, naming its bytes, this run and this file, if it was exported, and its failure if it was rejected |
| AiCommits.AiRunIsDurable | crates/webfang_core/src/application/export_factory.rs:1220-1220 | with a working final persist and a clock that does not go back, the store holds every record of the run |
| ResultLog.RecoverIndex | crates/webfang_core/src/application/crawl_result_repository.rs:115-159 | over any bytes and any unreadable byte, the index of the sequential scan of the readable part, or an error iff a length cannot be read |
| ResultLog.LoadAll | crates/webfang_core/src/application/crawl_result_repository.rs:237-287 | every scanned payload decoded, or an error at the first that does not decode or at a length that cannot be read |
| ResultLog.ReadFaultReportedIff | crates/webfang_core/src/application/crawl_result_repository.rs:254-286 | for every well-formed log and failing byte, the failure is reported iff the byte is not in a payload; otherwise the whole records before it are returned |
| ResultLog.ReadIsScan | crates/webfang_core/src/application/crawl_result_repository.rs:123-156 | reading with an advancing offset equals the structural scan of the remaining bytes |
| ResultLog.TruncationAtAnyByte | crates/webfang_core/src/application/crawl_result_repository.rs:115-159 | a well-formed log cut at any byte scans to exactly the records whose length and payload fit before the cut |
| ResultLog.TruncatedLoadSucceeds | crates/webfang_core/src/application/crawl_result_repository.rs:237-287 | reading a cut log never fails and returns exactly those records, in order |
| ResultLog.ScanOfLog | crates/webfang_core/src/application/crawl_result_repository.rs:492-545 | round trip: the scan of written frames gives their payloads and offsets back |
| ResultLog.ScanAfterLog | crates/webfang_core/src/application/crawl_result_repository.rs:123-156 | bytes behind a well-formed log are scanned from where it ends |
| ResultLog.IndexPointsAtLast | crates/webfang_core/src/application/crawl_result_repository.rs:148-153 | a URL is indexed iff a record carries it, at the offset of the last one |
| ResultLog.DecodeStopsAtFirst | crates/webfang_core/src/application/crawl_result_repository.rs:279-284 | a full read fails at the first payload that does not decode and otherwise decodes all, in order |
| ResultLog.FrameLayout | crates/webfang_core/src/application/crawl_result_repository.rs:535-544 | the bytes of a frame: length with the least significant byte first, payload, line feed |
| ResultLog.LengthIs | crates/webfang_core/src/application/crawl_result_repository.rs:135-135 | a length prefix read back the same way |
| LogWriter.Sink.WriteAll | crates/webfang_core/src/application/crawl_result_repository.rs:353-363 | a sink that may fail holds the prefix it accepted |
| LogWriter.WriteFrame | crates/webfang_core/src/application/crawl_result_repository.rs:535-544 | three writes and a flush leave the whole frame or, on any failure, a prefix of it |
| LogWriter.BackgroundWriter.AppendRecord | crates/webfang_core/src/application/crawl_result_repository.rs:501-523 | indexes the record and advances, or resynchronises with the real end of the log |
| LogWriter.ReopenedIsLive | crates/webfang_core/src/application/crawl_result_repository.rs:78-112 | whatever bytes the log holds, torn tail or not, a freshly opened repository has an honest index and offset |
| LogWriter.LiveIndexIsHonest | crates/webfang_core/src/application/crawl_result_repository.rs:501-544 | over whatever bytes it is opened, and however often and wherever the sink fails, the offset is the real end of the log and every index entry points at a complete record of its own URL |
| LogWriter.OffsetTracksEndIff | crates/webfang_core/src/application/crawl_result_repository.rs:508-522 | the offset stays at the end iff the append succeeds below 4 GiB or fails with a readable size or no byte landed |
| LogWriter.FailedIff | crates/webfang_core/src/application/crawl_result_repository.rs:510-519 | the error flag is raised iff some append failed |
| LogWriter.LiveIndexRefinesScan | crates/webfang_core/src/application/crawl_result_repository.rs:115-159 | after any run without torn frames the index rebuilt from the log equals the live one |
| LogWriter.HonestLookup | crates/webfang_core/src/application/crawl_result_repository.rs:191-218 | over whatever bytes it is opened and after any sink failures, a lookup never reads past the end and never returns the record of another URL |
| LogWriter.FindIsLastOfLoadAll | crates/webfang_core/src/application/crawl_result_repository.rs:191-218 | a lookup returns the last record of its URL in the full read, and nothing iff there is none |
| LogWriter.NothingAtTornEnd | crates/webfang_core/src/application/crawl_result_repository.rs:510-519 | whatever follows a torn frame, no rescan finds a record where the torn frame ends |
| LogWriter.TailRescanAgreesIff | crates/webfang_core/src/application/crawl_result_repository.rs:510-519 | after a failed append the rebuilt index is the live one iff length and payload did not both land |
| LogWriter.RescanAgreesIff | crates/webfang_core/src/application/crawl_result_repository.rs:510-522 | after a failed append and a successful one, the rebuilt index is the live one iff nothing of the failed frame landed, or all of it and for the same URL; in between it never points at the second record |
| LogWriter.TornFrameHidesNext | crates/webfang_core/src/application/crawl_result_repository.rs:510-522 | whatever commands and faults follow, unless a later append of its URL succeeds, the first record behind a torn frame is indexed live where no rescan finds it, so live and rebuilt index differ |
| ShutdownDrain.OfferKeeps | crates/webfang_core/src/application/crawl_result_repository.rs:174-189 | an accepted save joins the queue behind everything accepted before |
| ShutdownDrain.PopAppend | crates/webfang_core/src/application/crawl_result_repository.rs:398-407 | the writer dequeues the accepted saves in order |
| ShutdownDrain.PopShutdown | crates/webfang_core/src/application/crawl_result_repository.rs:408-421 | when the first Shutdown is dequeued, everything accepted ahead of it was |
| ShutdownDrain.ApplyKeepsInv | crates/webfang_core/src/application/crawl_result_repository.rs:163-189 | every step of a saver, the writer or a shutdown caller keeps the drain invariant |
| ShutdownDrain.ShutdownDrains | crates/webfang_core/src/application/crawl_result_repository.rs:298-336 | over every interleaving and any old log, when a join reports success the log is the old one followed by a prefix of the accepted saves, in order, that includes every save accepted ahead of the first Shutdown, each URL indexed where its last save reads back |
| ShutdownDrain.DrainedIndexIsScanned | crates/webfang_core/src/application/crawl_result_repository.rs:298-336 | if the old log was well formed, that index is the one a scan rebuilds |
| ShutdownDrain.SavesRefusedAfterExit | crates/webfang_core/src/application/crawl_result_repository.rs:313-325 | once the writer is gone no save is accepted, the log is final, and after a join the guard refuses new saves |
| DrainLimits.FateIsSettled | crates/webfang_core/src/application/crawl_result_repository.rs:388-423 | whether an accepted save will be dequeued is settled when it is accepted: no later event changes it unless the writer dies with an error |
| DrainLimits.AcknowledgedKeptIff | crates/webfang_core/src/application/crawl_result_repository.rs:298-336 | when a join reports success, an acknowledged save is among the frames of the log iff at its acceptance the writer was running with fewer than two Shutdowns queued, or draining with none |
| DrainLimits.LateSaveIsLost | crates/webfang_core/src/application/crawl_result_repository.rs:408-421 | a save acknowledged between the drain and the end of the receiver is lost although the join succeeds |
| DrainLimits.SecondShutdownDropsSave | crates/webfang_core/src/application/crawl_result_repository.rs:412-420 | so is one accepted behind two queued Shutdowns, while the writer still runs |
| DrainLimits.EarlyReturnIff | crates/webfang_core/src/application/crawl_result_repository.rs:305-312 | a caller returns at once iff the handle was taken; without a write error the saves accepted before its request are all in the log by then iff no more saves are queued than were accepted since |
| DrainLimits.SecondCallerReturnsEarly | crates/webfang_core/src/application/crawl_result_repository.rs:305-312 | a second caller reports success while a save accepted before its request is still queued |
| ShutdownErrors.SendAcceptedIff | crates/webfang_core/src/application/crawl_result_repository.rs:174-189 | a save is accepted, behind all others, iff the writer is there and the channel has room; a closed channel raises the error flag |
| ShutdownErrors.GuardRefusesIff | crates/webfang_core/src/application/crawl_result_repository.rs:163-169 | the guard refuses a save iff an error was raised |
| ShutdownErrors.CapacityHolds | crates/webfang_core/src/application/crawl_result_repository.rs:78-79 | the channel never holds more than its capacity |
| ShutdownErrors.EarlyIffTaken | crates/webfang_core/src/application/crawl_result_repository.rs:305-312 | a caller returns at once iff another one took the handle before, and holds it otherwise |
| ShutdownErrors.JoinReportsIff | crates/webfang_core/src/application/crawl_result_repository.rs:313-334 | the join of the handle reports an error iff, before it, an append met a fault, the log could not be opened, or a save met the closed channel |
| ShutdownErrors.ReturnHasOrigin | crates/webfang_core/src/application/crawl_result_repository.rs:298-336 | over every trace, whatever a caller was told it was told by its own request for the handle or by its own join |
| ShutdownErrors.HandlingDoes | crates/webfang_core/src/application/crawl_result_repository.rs:436-463 | an append whose log cannot be opened ends the writer; any other is appended as far as the sink takes it |
| ShutdownErrors.TurningDoes | crates/webfang_core/src/application/crawl_result_repository.rs:398-423 | a Shutdown turns the writer to draining, and the next one or an empty queue ends the drain |
| EnvGuard.Guard.With | crates/webfang_test_utils/src/lib.rs:459-477 | each listed name holds the value of its last occurrence and nothing else changed; the captures are those of the single changes; a panic of `set_var` leaves the changes before it and no guard |
| EnvGuard.Guard.Clean | crates/webfang_test_utils/src/lib.rs:436-454 | none of the names is set and nothing else changed; captures and panics likewise |
| EnvGuard.Guard.Set | crates/webfang_test_utils/src/lib.rs:511-519 | the variable holds the value, nothing else changed, and the value before was captured |
| EnvGuard.Guard.Remove | crates/webfang_test_utils/src/lib.rs:525-533 | the variable is absent, nothing else changed, and the value before was captured |
| EnvGuard.Guard.Drop | crates/webfang_test_utils/src/lib.rs:564-577 | the reverse loop computes the undo whose effect the lemmas below determine |
| EnvGuard.GuardRestoresIff | crates/webfang_test_utils/src/lib.rs:558-577 | for every list of changes, dropping at any point restores the exact earlier environment iff no changed variable held a non-Unicode value |
| EnvGuard.PanicLeaksNothingIff | crates/webfang_test_utils/src/lib.rs:456-477 | a constructor that panics leaves the environment as it was iff the last change of every variable up to then left it alone |
| EnvGuard.ForwardRestoresIff | crates/webfang_test_utils/src/lib.rs:560-562 | capture order would restore iff the last capture of each changed variable is its original, so the reversal is what makes it right |
| EnvGuard.StepKeepsBaseline | crates/webfang_test_utils/src/lib.rs:405-454 | every step of any thread keeps the environment one undo away from its baseline |
| EnvGuard.StepKeepsArmed | crates/webfang_test_utils/src/lib.rs:358-367 | every step keeps the hatch armed for an observer that did not flip it |
| EnvGuard.ConstructorsDo | crates/webfang_test_utils/src/lib.rs:358-431 | who gets the lock and with what environment: the armed constructors refuse a hatch at "1", the second one leaves the resolver hatch at "1" |
| EnvGuard.HolderDoes | crates/webfang_test_utils/src/lib.rs:511-577 | only the holder changes variables, puts captures back, the last one first, and frees the lock when none is left |
| EnvGuard.LockFreeBaseline | crates/webfang_test_utils/src/lib.rs:358-577 | in every interleaving the environment is the initial one whenever the lock is free, and an armed-guard holder sees the hatch armed until it flips it itself |
| Hex.RenderIsInjective | crates/webfang_cli/src/main.rs:372 | fixed-width hex rendering loses nothing |
| Hex.RenderAgreesIff | crates/webfang_core/src/adapters/url_path.rs:49 | two renderings are equal iff the values agree on the digits shown |
| ProviderId.GeneratedProviderId | crates/webfang_cli/src/main.rs:363-373 | the byte loop computes the FNV-1a id |
| ProviderId.PublishedValues | crates/webfang_cli/src/main.rs:363-373 | the ids of the empty string and of "a" carry their published FNV-1a values |
| ProviderId.RoundIsInjective | crates/webfang_cli/src/main.rs:368-371 | one FNV-1a round (draft-eastlake-fnv, section 2) is injective in the state and in the byte |
| ProviderId.FnvIsInjective | crates/webfang_cli/src/main.rs:367-371 | a common tail keeps distinct states distinct |
| ProviderId.IdsAgreeOnlyOnHash | crates/webfang_cli/src/main.rs:372 | equal ids come only from equal hashes |
| ProviderId.OneByteApart | crates/webfang_cli/src/main.rs:363-373 | URLs of equal length that differ in exactly one byte never share an id |
| OutputPath.TruncationBound | crates/webfang_core/src/adapters/url_path.rs:29-50 | short strings are unchanged; a long one keeps the longest run of whole characters within the budget; the result respects the limit iff the string was short or the limit is at least 9 |
| OutputPath.WidthIsLeast | crates/webfang_core/src/adapters/url_path.rs:30-30 | a character counts the fewest bytes whose payload bits hold it (section 3 of RFC 3629) |
| OutputPath.FromUrlWithQuery | crates/webfang_core/src/adapters/url_path.rs:152-181 | the string building refines the path whose files the lemmas below compare; what it adds is at most 180 bytes and without a slash |
| OutputPath.QueriesShareFolder | crates/webfang_core/src/adapters/url_path.rs:255-281 | query and fragment never change the folder |
| OutputPath.QueriesCollideIff | crates/webfang_core/src/adapters/url_path.rs:144-181 | for one path and any two queries or fragments, short or truncated, the full paths are equal iff the sanitised slugs are, or one is a device name and the other its replacement |
| OutputPath.BareCollidesIff | crates/webfang_core/src/adapters/url_path.rs:209-252 | the same for the bare path against one with a query, with the root and the trailing slash |
| OutputPath.PlainQueriesCollideIff | crates/webfang_core/src/adapters/url_path.rs:219-229 | without percent signs the slugs are equal iff the bounded suffixes are after whitelisting |
| OutputPath.BoundedAgreeIff | crates/webfang_core/src/adapters/url_path.rs:29-50 | truncation maps two suffixes to one iff they are equal, or have the same kept prefix and low 32 hash bits, or one is spelled like the truncation of the other |
| OutputPath.WhitelistedAgreeIff | crates/webfang_core/src/adapters/url_path.rs:29-50 | the same after whitelisting, as it appears in the filename: over the limit, iff the whitelisted kept prefixes and the low 32 hash bits are equal |
| OutputPath.DistinctQueriesCollide | crates/webfang_core/src/adapters/url_path.rs:144-151 | for every plain path `?a+b` and `?a,b` have different suffixes and one full path |
| OutputPath.DirectoryIsSafe | crates/webfang_core/src/adapters/url_path.rs:255-281 | the directory is empty or slash-terminated safe components: not empty, whitelisted, no dot-segment (section 3.3 of RFC 3986) |
| OutputPath.FilenameIsSafe | crates/webfang_core/src/adapters/url_path.rs:209-252 | the filename is one safe component, whatever percent-decoding yields |
| OutputPath.SplitOfSlashed | crates/webfang_core/src/adapters/url_path.rs:361-383 | round trip: splitting the joined components gives them back |
| OutputPath.PathIsContained | crates/webfang_core/src/adapters/url_path.rs:361-383 | resolving the full path component by component stays below `./output/{domain}/` at every step and ends at the filename |
| PathShape.DirectoryIs | crates/webfang_core/src/adapters/url_path.rs:255-281 | the directory of a path is its components but the last, without the empty ones: of n non-empty components exactly the first n - 1, each kept as far as its characters survive, dot-segments replaced |
| PathShape.DirectoryEmptyIff | crates/webfang_core/src/adapters/url_path.rs:255-281 | it is empty iff the path is the root or has no slash behind the leading ones |
| PathShape.FilenameIs | crates/webfang_core/src/adapters/url_path.rs:209-252 | the filename is the decoded components joined by dashes and cleaned, the marks for device names and trailing slashes, and the extension of the format |
| PathShape.RootFilename | crates/webfang_core/src/adapters/url_path.rs:216-218 | the root is the index page of its format, in the domain folder |
| PathShape.FullPathIs | crates/webfang_core/src/adapters/url_path.rs:361-383 | the full path is the output root, the domain, the directory and the filename |
| PathShape.UrlPathIs | crates/webfang_core/src/adapters/url_path.rs:114-134 | a URL path is the part in front of query and fragment, rooted, without its trailing slashes, and the flags say so |
| PathShape.QuerySuffixIs | crates/webfang_core/src/adapters/url_path.rs:283-293 | query and fragment are added behind underscores, with the six separators replaced |
| UseTree.FlattenUseTree | tools/intra-crate-lint/src/lib.rs:483-526 | the recursion appends the leaves of the tree to the shared vector and touches nothing before them |
| UseTree.LeavesAreImports | tools/intra-crate-lint/src/lib.rs:483-534 | one leaf per imported item, in order, each the imported path except that a last segment repeating its parent may be dropped |
| UseTree.PiecesOfRender | tools/intra-crate-lint/src/lib.rs:528-547 | round trip: splitting a rendered path gives its segments back |
| UseTree.ReportedLayerIsRight | tools/intra-crate-lint/src/lib.rs:483-547 | every leaf below `crate` is recognised as such, and its layer is that of the imported path iff the statement is not `use crate::crate` |
| NearestRank.SummaryOf | crates/webfang_benchmark/src/aggregate.rs:149-158 | the first summary record, or the missing-summary error |
| NearestRank.FirstSummaryIsFirst | crates/webfang_benchmark/src/aggregate.rs:149-158 | the summary in use is the first of the trace |
| NearestRank.DurationsAreAll | crates/webfang_benchmark/src/aggregate.rs:328-334 | the durations are those of all closed spans, in trace order |
| NearestRank.Compute | crates/webfang_benchmark/src/aggregate.rs:317-366 | each error iff its gate fires, in order; otherwise p50 and p95 meet the definition of a percentile of the recorded durations, p50 is at most p95, and the rest is carried over from the summary |
| NearestRank.RankIsExact | crates/webfang_benchmark/src/aggregate.rs:375-377 | the clamped rank is the least number of samples that covers p percent |
| NearestRank.PercentileMeetsDefinition | crates/webfang_benchmark/src/aggregate.rs:371-379 | for every non-empty sample and percentage from 1 to 100, the smallest sample with at least p percent of the samples at or below it |
| NearestRank.PercentileIsUnique | crates/webfang_benchmark/src/aggregate.rs:368-379 | the definition determines the value |
| NearestRank.PercentileIgnoresOrder | crates/webfang_benchmark/src/aggregate.rs:328-351 | permuting the samples changes no percentile |
| NearestRank.PercentileIsMonotone | crates/webfang_benchmark/src/aggregate.rs:350-379 | a larger percentage never gives a smaller value |
| NearestRank.PercentileClamps | crates/webfang_benchmark/src/aggregate.rs:377-378 | outside 1 to 100 percent the rank is clamped to the least and to the greatest sample |
| NearestRank.SortIsSorted | crates/webfang_benchmark/src/aggregate.rs:335 | sorting gives an ascending permutation |
| FloatRank.FloatRankExactIff | crates/webfang_benchmark/src/aggregate.rs:376-377 | in binary64, up to 2^43 samples, the computed rank is the exact one iff the exact product is not whole or the rounding did not pass it |
| FloatRank.ReportedRanksAreExact | crates/webfang_benchmark/src/aggregate.rs:350-351 | so the ranks of the two reported percentages, 50 and 95, are always the exact ones |
| FloatRank.Q95IsNearest | crates/webfang_benchmark/src/aggregate.rs:376 | the binary64 value of 95 / 100 that this rests on is the nearest one |
| FloatRank.SevenPercentIsOffByOne | crates/webfang_benchmark/src/aggregate.rs:376-377 | the 7th percentile of 100 samples would be taken one rank too high |

## Left out

- URL canonicalisation, SHA-256, chunk validation and JSON encoding: data on each item, or arbitrary functions on payloads.
- Torn lines in the JSONL output and the repair of its tail: a line is appended whole or not at all; lines the index skips are `Unindexed`.
- Vector and Auto export formats: the hash index always reads the `.jsonl` file, so the guarantees are about JSONL.
- The v1-to-v2 migration, envelope versions, file locking and atomic rename of the record store: one locked transaction that happens or fails; migrated records appear only through their exemption from the hash rule (the `legacy` switch).
- 32-bit overflow of `attempts` and 64-bit overflow of `updated_at` and log offsets: unbounded integers. The 32-bit record length is modelled exactly.
- The persist observer and the skipped-line counters: they do not feed back into the protocol.
- AiHonesty.WorkingSetHonestIff: "only if" is claimed for records whose canonical URL is not blank; no history writes another one (`HistoryKeepsAddressed`), and a hand-made blank one would be dropped instead of restarted. A crash inside the AI commit loop is a run whose remaining saves fail; the batch append happens before the loop.
- LogWriter.LiveIndexRefinesScan: claimed for runs without landed faults, and exactly for one fault (`TailRescanAgreesIff`, `RescanAgreesIff`); the first record behind any torn frame is lost to a rescan whatever follows (`TornFrameHidesNext`), but whether the rescan realigns for later ones depends on the bytes of their payloads.
- ResultLog.LoadAll: a read failure persists, and allocation for huge declared lengths succeeds.
- ShutdownDrain.ShutdownDrains: the channel is never closed by dropping all senders and the writer does not panic.
- EnvGuard.Guard.Set: a panic of `set_var` on a malformed name, which would make the later put-back of that name panic too, is not modelled.
- EnvGuard.LockFreeBaseline: constructors in the multi-threaded system do not panic part way; one that finds the hatch disarmed panics before any change and lets the lock go.
- OutputPath.PathIsContained: URL parsing, the domain's own characters, percent-decoding, the Windows device-name test and non-ASCII alphanumerics are arbitrary parameters; nothing depends on them.
- UseTree.ReportedLayerIsRight: scanning of macro token streams and the layer rules themselves are not modelled.
- NearestRank.Compute: exact reals; `FloatRank` shows that rounding does not change the reported ranks, so what remains is the last bit of the success rate and NaN durations. The library sort is a function with the proved properties.
- The crawler, extraction, network, AI and MCP layers, the CLI beyond the provider id, and the remaining benchmark and test utilities: wiring, I/O and short folds that would only add easy members.
