# Verified models of the dt control plane

A head agent schedules jobs onto SSH nodes, and its durable state has to survive
crashes, retries and concurrent command-line processes. This project models the parts
of that state which are easiest to get wrong and proves what they keep:

| files | what they model |
|---|---|
| `ReverseLines`, `Journal`, `JournalQuery` | the append-only operation journal: torn-tail repair, rotation, the chunked backward reader, and queries; every write may be cut at any byte |
| `Scheduler`, `Backoff`, `DispatchPool`, `TickRecord` | one tick's walk over the FIFO queue with and without a dispatch pool, the backoff of blocked jobs, the pool as interleaved threads, and the tick record with its health reader |
| `Distribution` | any number of concurrent `ensure` calls under the destination and site locks, with transfers that may deliver anything |
| `Retention`, `CompactBatch`, `NodePrune` | clean sweeps and compaction batches that delete concurrently, the batch loop of one compaction run, and the program it runs on a node |
| `Capsule`, `Migration` | layout migration of job capsules, registry records and snapshots, cut between any two effects |
| `ForkRepeat` | retry-safe group submission by processes that overlap, are interrupted and crash |
| `Matrix`, `Ordering` | expansion of a validated matrix specification |
| `TelemetrySpec`, `Telemetry` | streaming resource aggregation against whole-list aggregation, and phase spans |
| `Json`, `JsonText`, `FiniteJson`, `Diagnosis` | canonical JSON text, normalizing untrusted evidence to bounded JSON, and the diagnosis envelope that states its own serialized length |
| `Utf8`, `NulPairs`, `Envelope` | the custom and the private environment envelopes, down to their bytes |
| `PlanPages` | paging through a persisted cleanup plan |

Objects that the program updates in place are classes; protocols in which several
processes or threads interleave are state machines over values, with the steps of every
process and a crash in between. Where a method also takes a crash budget, every durable
effect uses up one unit of it and the method stops when none is left.

`dafny verify dfyconfig.toml` verifies everything.

## Where the code does less than it promises

Each of these comes with an input or a run that shows it, and with the exact condition
under which the promise does hold.

- A journal append that is cut just before its newline is never acknowledged, yet a query
  reports it (`JournalQuery.UnacknowledgedEventIsVisible`). A query reads exactly the
  written history if and only if no generation ends in such a tail (`QuerySeesHistory`).
- A dispatch that ends in an outcome the tick does not recount, a raised one among them,
  and leaves its job owning a slot lets the walk hand over work beyond the cap
  (`Scheduler.HiddenTakeOverrunsTheCap`). The quota is safe with an entry if and only if
  its dispatch never does that (`QuotaIsSafeExactly`); releases that go unseen do no harm.
- A registration can come while a collector still lists its digest and finds the archive
  older than its cutoff, which loses the archive of a job that is pruned afterwards; such a
  run exists from the start (`Retention.SomeRunLosesAnArchive`). Exactly these
  registrations are unsafe (`OnTimeExactly`); one that comes before the cutoff of every
  running collector passes its capture never is (`PromptIsOnTime`).
- A second `ensure` for a destination that is already right rewrites it, and when it dies
  meanwhile the first caller's tree stays wrong (`Distribution.LaterDeliveryDisturbs`).
  After a caller has returned its destination can be wrong if and only if nobody has
  verified it since something was last delivered into it (`DisturbedExactly`).
- A capsule copy that was published, but whose answer was lost or whose run was cut before
  the row was saved, is never taken up by a later migration: nothing is lost, but the row
  stays behind for good, whatever is tried afterwards (`Migration.StuckForGood`). This is
  exactly how a row gets stuck (`StuckExactly`), and retries of a copyable capsule finish
  in every other case (`ApplyAgainAndAgain`). The process identity file is on none of the
  script's lists and stays at the top of the migrated capsule (`Capsule.UnlistedFilesStay`).
- A registry record that an older process saves between the last comparison and the removal
  of the source is lost, for movable rows and for duplicates (`Migration.SaveThatIsLost`).
  The record as last saved survives a copy that removes the source if and only if nobody
  saved it after the last comparison (`RegistryFile.Copy`), and so over any retries
  (`MoveRecord`).
- The census that protects the files a job wrote counts nothing without a start marker, and
  no more than it saw before its time limit: files can go without a request and without a
  list (`NodePrune.UncountedFilesGo`). A run accounts for the files it removes if and only
  if it was asked to and they are all on the list it recorded, or on the one from before
  when the census saw nothing; so without a request exactly a census that missed them all
  lets them go, and more than 10,000 of them are never all listed (`AccountedExactly`). A
  retry writes the list anew and forgets what the first attempt removed
  (`RetryForgetsTheList`): the new list has everything removed so far if and only if earlier
  attempts removed nothing and this one only what it lists.
- A process that claimed a group before another one wrote its terminal receipt can still
  register one member that the receipt never mentions
  (`ForkRepeat.OverlapLeavesAStraggler`). From a terminal state this is possible if and only
  if members are missing, none stands ahead of the receipt, and some process that has not
  failed is still submitting or recording (`StragglersExactly`); it never happens twice
  (`AfterTheReceipt`).
- Two different matrix units can have one key, and are then refused as duplicates
  (`Matrix.CommaKeysCollide`). A value can be confused with a shorter one if and only if it
  contains a comma, the name of the next axis and an equals sign after something that is
  not blank (`ConfusableExactly`); while none does, only units that really are listed twice
  are refused (`UnambiguousKeysAreExact`).
- Cutting a failure kind to 128 characters does not bound its bytes, and a kind of as many
  characters above the basic plane makes the tick record too long to be read again
  (`TickRecord.WideKindDoesNotFit`). Every record with a kind can be read, whatever its
  times, if and only if the kind is written in at most 719 bytes (`KindFitsExactly`). The
  only caller passes the class name of an exception, and an ASCII one is always short
  enough (`PlainKindsAreShort`).
- A diagnosis whose zero-size object leaves fewer than four spare bytes is refused although
  dropping one more section would make it fit, with evidence of admissible size
  (`Diagnosis.RefusedForFourBytes`); exactly then, and when nothing fits, is it refused
  (`Diagnosis.Payload.Build`).

## Model

| member | source | states |
|---|---|---|
| ReverseLines.IterReverseLines | src/dt/operation_log.py:656-688 | for every content and chunk size the reports are the newline-separated segments, newest first, empty ones skipped and over-long ones as one None; the carried remainder never exceeds the event limit |
| ReverseLines.SplitIsTheUniqueCut | src/dt/operation_log.py:656-688 | the segments are newline-free and joining them gives the content back, which fixes them |
| ReverseLines.ReadingConcat | src/dt/operation_log.py:656-688 | reading two halves of a file is reading the newer half and then the older one, with only the shared segment glued |
| Journal.LastBoundary | src/dt/operation_log.py:408-437 | the block-wise backward scan stops exactly after the last newline |
| Journal.TerminatedKeepsLines | src/dt/operation_log.py:408-437 | cutting a torn tail keeps every terminated line and leaves no tail |
| Journal.OperationJournal.Rotate | src/dt/operation_log.py:381-405 | a finished rotation shifts every generation by one and drops the oldest; cut anywhere, the lines on disk are still a suffix of the written history |
| Journal.OperationJournal.RepairTornTail | src/dt/operation_log.py:408-437 | the current file becomes its terminated part, or is untouched when the repair did not happen |
| Journal.OperationJournal.WriteLine | src/dt/operation_log.py:439-487 | short writes are continued, a zero-byte write is an error, only a complete line with its newline is acknowledged, and a crash leaves exactly the bytes it let through |
| Journal.OperationJournal.AppendEvent | src/dt/operation_log.py:439-487 | an acknowledged event ends the current file, after repair and after a rotation exactly when it does not fit beside what is there; whatever the crash point, the history grows by this event or not at all |
| Journal.TotalIsBounded | src/dt/operation_log.py:381-405 | all generations together stay within the number of files times the file limit |
| JournalQuery.Query | src/dt/operation_log.py:802-899 | exactly the first `limit` matching records newest first, truncated if and only if more exist; otherwise every file is scanned, and the reports that parse and the corrupt ones counted are all reports |
| JournalQuery.QuerySeesHistory | src/dt/operation_log.py:817-899 | what a query reads is the retained written history, newest first, if and only if no torn tail reads as a wanted event |
| JournalQuery.UnacknowledgedEventIsVisible | src/dt/operation_log.py:439-487 | an append to a new journal that crashes after every byte but the newline is not acknowledged and not written, and a query reads the event |
| JournalQuery.RunAppends | src/dt/operation_log.py:439-487 | over every run of appends cut anywhere: acknowledged events are in the history in order, nothing unattempted is, the lines on disk are its suffix, and the disk budget holds |
| Backoff.BlockedBackoff.Bump | src/dt/agent.py:859-881 | the next attempt is 5 to 300 s away and the stored counter never exceeds 16 |
| Backoff.DelayMonotone | src/dt/agent.py:859-881 | later blocks never wait less than earlier ones |
| Backoff.DelayValues | src/dt/agent.py:859-881 | the delays are 5, 10, 20, 40, 80, 160 and then always 300 s |
| Backoff.MinSpanClosedForm | src/dt/agent.py:859-881 | n >= 7 attempts take at least 315 + 300(n-7) seconds |
| Backoff.BlockedBackoff.PollBlocked | src/dt/agent.py:1286-1294 | whatever the tick times, n full attempts at a job that stays blocked span at least that long |
| TickRecord.SchedulerTick.WriteTick | src/dt/agent.py:515-567 | a success sets the deadline to its own time and next poll with the last success; a failure after a readable record moves neither; the reader accepts every record written, and can read it while cut failure kinds are written in at most 719 bytes |
| TickRecord.SchedulerTick.ReadHealth | src/dt/agent.py:2451-2565 | a live agent is stalled exactly past the readable deadline plus 120 s, or past a bare timestamp plus the stale time; a rejected record loses its success time but keeps its deadline |
| TickRecord.SchedulerTick.RunAttempts | src/dt/agent.py:515-567 | over every run of attempts whose cut failure kinds are that short the file stays readable and the verdict is that of the time and next poll of the last success alone, or of the first attempt when none succeeded |
| TickRecord.LastDeadlineWriterMeaning | src/dt/agent.py:515-567 | no success follows the attempt that fixed the deadline, and it succeeded unless it is the first |
| TickRecord.KindFitsExactly | src/dt/agent.py:525-567 | every record with a failure kind is readable, whatever its times and their text, if and only if the kind is written in at most 719 bytes |
| TickRecord.PlainKindsAreShort | src/dt/agent.py:2067-2076 | the ASCII class names the only caller passes are short enough |
| TickRecord.WideKindDoesNotFit | src/dt/agent.py:525-548 | cutting the kind to 128 characters does not bound its bytes: some records can never be read again |
| Scheduler.JudgeEntry | src/dt/agent.py:1243-1360 | what one entry is told follows the rule over the rows recorded before it |
| Scheduler.MirrorsStep | src/dt/agent.py:1320-1360 | whatever an entry was told, the flags the walk carries go on saying exactly what the recorded rows say: busy pins, nodes dispatches head to, unplaced GPU work and in-flight counts; entries not visited yet keep slot and wait |
| Scheduler.WalkQueue | src/dt/agent.py:1161-1370 | every row follows the rule, in-flight work stays within the workers, waits follow the outcomes; unless a slot is taken unseen no prefix of the walk exceeds max(cap, occupancy at the start) and only entries below the cap are let through; with every change recounted the cap stops the walk exactly where it has to |
| Scheduler.PoolHandsOver | src/dt/agent.py:1243-1319 | with a pool an entry short of the cap is handed over if and only if it is not in flight, its wait is over, no unplaced GPU work or busy pin ahead holds it, no earlier work heads to its pin, and the dispatches in flight and those handed over before it are fewer than the workers; what else it is told has exact conditions too, and it is told to keep off exactly the nodes that earlier work waits for or heads to |
| Scheduler.InlineTries | src/dt/agent.py:1243-1345 | without a pool an entry short of the cap is tried if and only if nothing ahead holds it and its wait is over, with the same nodes kept off, and its row tells the outcome |
| Scheduler.NoOvertaking | src/dt/agent.py:1243-1360 | a later GPU job is handed over past a busy one only if the busy one is pinned, the later one is not pinned there, and an unpinned one is told to keep off that node |
| Scheduler.QuotaFollows | src/dt/agent.py:1161-1370 | any walk without hidden takes keeps the quota, whichever entries release slots unseen |
| Scheduler.QuotaIsSafeExactly | src/dt/agent.py:1320-1345 | the quota holds with an entry in every queue, cap, load and clock if and only if its dispatch never takes a slot under an outcome that is not recounted |
| Scheduler.HiddenTakeOverrunsTheCap | src/dt/agent.py:1320-1345 | for every dispatch answer that takes a slot unseen there is a walk that ends above both the cap and where it started |
| DispatchPool.EveryRunIsSafe | src/dt/agent.py:905-998 | over every interleaving: in-flight work within the workers, no job dispatched twice at once, each dispatch harvested at most once, and no wakeup lost |
| DispatchPool.SleepMissesNothing | src/dt/agent.py:1759-1762 | when the tick sleeps with the event unset, every finished dispatch still has its callback to come, which sets it |
| DispatchPool.HarvestReportsAllDone | src/dt/agent.py:972-998 | whatever was done when harvest cleared the event is reported by its scan, once |
| DispatchPool.Pool.BeginSubmit | src/dt/agent.py:948-970 | a submit happens exactly when there is room and the job is not in flight, and is a step of the protocol |
| DispatchPool.Pool.ScanFinished | src/dt/agent.py:972-998 | the scan reports exactly the finished, unreported dispatches and keeps the invariant |
| Distribution.OneUploadWhileIntact | src/dt/artifact_distribution.py:1585-1625 | however many callers, at most one cross-site upload is published while the cache object stays intact, and none if it was warm |
| Distribution.NoTwoWriters | src/dt/artifact_distribution.py:390-414 | no destination and no staging tree ever has two writers, the direct fallback included |
| Distribution.SuccessLeavesTheTree | src/dt/artifact_distribution.py:1559-1717 | a caller that returns successfully leaves the requested tree, on every branch and whatever the transfers delivered |
| Distribution.EveryRunIsSafe | src/dt/artifact_distribution.py:1414-1460 | the lock, cache and destination invariant holds in every state of every run, failures and crashes included |
| Distribution.DisturbedExactly | src/dt/artifact_distribution.py:1601-1717 | after a caller has returned, some run with the same steps ends with a wrong tree at its destination if and only if nobody has verified what was last delivered there |
| Distribution.UnverifiedCaller | src/dt/artifact_distribution.py:1601-1717 | the caller of an unverified delivery is still delivering or verifying, is about to try again, or has failed |
| Distribution.LaterDeliveryDisturbs | src/dt/artifact_distribution.py:1601-1650 | a run from the start in which a returned caller is left with any other tree, by a second caller that died |
| Distribution.DirectComesLast | src/dt/artifact_distribution.py:1668-1717 | over every run: with the direct fallback configured a caller fails only by an error that is not the distribution's own or after its direct attempt, and without it nobody delivers directly |
| Distribution.RemoteTree.VerifiedTransfer | src/dt/artifact_distribution.py:494-527 | the checksum pass runs only after a proven mismatch, byte counts add up, and success means the wanted content |
| Retention.EveryPrunedJobIsRecoverable | src/dt/compact.py:591-780 | over all interleavings of sweeps, batches, captures and crashes in which no registration meets a collector about to drop its archive, a registered job whose node-side code compaction deleted still has its archive on the head |
| Retention.OnlyUnreferencedArchivesGo | src/dt/maintenance.py:917-990 | an archive leaves the store only by a collector and only when no registered row, readable or not, references it |
| Retention.StepKeeps | src/dt/maintenance.py:1078-1169 | every step of every process keeps the locks exclusive, the archives of pruned and of attested rows, and the safety of a pending collection |
| Retention.OnTimeExactly | src/dt/dispatch/snapshots.py:393-402 | from every safe state, a registration is followed by safe runs alone if and only if no collector still lists its digest with an archive older than its cutoff |
| Retention.LateLosesAnArchive | src/dt/dispatch/snapshots.py:393-402 | from every safe state a late registration, a compaction batch and one drop lose the archive of a pruned job |
| Retention.SomeRunLosesAnArchive | src/dt/maintenance.py:1078-1169 | such a run exists from the start |
| Retention.SnapshotStore.RemoveUnreferenced | src/dt/maintenance.py:917-990 | nothing is removed while a row is unreadable; otherwise an archive goes if and only if it is an old victim that no row refers to and that can be renamed away, and a baseline if and only if its archive does |
| Retention.Collect | src/dt/maintenance.py:917-990 | that loop, run by a sweep, is one StartCollect and then DropDigest steps of the protocol, so it keeps what every run keeps |
| CompactBatch.CompactRun.RemoteRows | src/dt/compact.py:591-780 | every candidate gets exactly one row: the first line about it, or without one unreachable exactly at return code 255 or a raised remote command and failed otherwise; a job is memoed only when the first line about it in the answer to its batch says compacted, repaired, already compact or missing, and always then if that can be saved |
| CompactBatch.CompactRun.RunBatch | src/dt/compact.py:611-770 | one batch accounts for each of its jobs once |
| CompactBatch.MemoMeansGone | src/dt/compact.py:353-770 | with the node program run for every job of a batch, cut anywhere and whatever the return code, a memoed job has no code tree left on its node |
| NodePrune.NodeJob.Run | src/dt/compact.py:353-588 | cut anywhere, a receipt is on disk only after the code tree has gone; each status is returned under its exact condition; nothing is touched in a dry run, under a process that may live or on doubtful storage; the tree, the job's files in it and their list change exactly when the guards let them; and an undisturbed run settles the job |
| NodePrune.AccountedExactly | src/dt/compact.py:500-560 | files of the job go on request and on the list exactly when the census saw them and the list got them all; without a request exactly a census of nothing lets them go, and more than 10,000 are never all listed |
| NodePrune.UncountedFilesGo | src/dt/compact.py:504-509 | a count that is cut, or a missing start marker, lets the files go unasked and unlisted |
| NodePrune.RetryForgetsTheList | src/dt/compact.py:529-543 | after a delete that stopped halfway the retry's list lacks what the first attempt removed |
| NodePrune.RunAgainAndAgain | src/dt/compact.py:353-588 | over any runs, an outcome that lets the head forget a code tree is never wrong later, and while no census comes out empty the job's files go only on request |
| Capsule.Arrange | src/dt/migration.py:758-819 | the copy script's renames put every file where the role layout keeps it |
| Capsule.MigrationIsLossless | src/dt/migration.py:758-819 | a role tree determines its capsule and the other way round: nothing is lost, merged or invented |
| Migration.Job.Copy | src/dt/migration.py:758-819 | the script publishes exactly a verified copy of a copyable capsule onto a free destination, reported or not, and reports success exactly then |
| Migration.Job.Migrate | src/dt/migration.py:905-970 | cut anywhere it keeps: a legacy row has an intact capsule, a role row a complete one, and no pending cleanup means the legacy copy is gone; it finishes exactly in the undisturbed case |
| Migration.Job.Cleanup | src/dt/migration.py:871-904 | the retry of a pending cleanup keeps the same invariant and finishes exactly when the source is gone and the answer arrives |
| Migration.ApplyAgainAndAgain | src/dt/migration.py:843-976 | any run of interrupted attempts followed by two undisturbed ones ends migrated, unless the attempts got the row stuck |
| Migration.StuckExactly | src/dt/migration.py:905-970 | a row gets stuck exactly in an attempt that publishes its copy while the answer is lost or the run is cut before the row is saved |
| Migration.StuckForGood | src/dt/migration.py:843-976 | from the start, every copyable capsule has such a run, whatever attempts follow |
| Migration.RegistryFile.Copy | src/dt/migration.py:627-707 | the source goes only after every comparison of record and file status, and then the record as last saved is held if and only if nobody saved it after the last of them; it finishes exactly when the comparisons pass and the disk works; a failure leaves the destination as it was unless only the last flush failed |
| Migration.SaveThatIsLost | src/dt/migration.py:645-683 | the run that loses a saved record, for a movable row and for a duplicate |
| Migration.MoveRecord | src/dt/migration.py:147-200 | over any number of planned retries the record as last saved is held if and only if it was not saved after the last comparison of the attempt that removed the source; after an undisturbed retry only a destination with another record blocks it; a moved record stays moved |
| Migration.Snapshot.Copy | src/dt/migration.py:710-755 | the snapshot is always intact in one of its two places, and moves exactly when the copy verifies and the delete finishes |
| Migration.MoveSnapshot | src/dt/migration.py:226-264 | any number of retries keeps it, and an undisturbed one moves it exactly while the source is intact and the destination not damaged |
| ForkRepeat.MembersAreAPrefix | src/dt/fork_repeat.py:535-681 | for any number of overlapping, crashing processes: members registered once each, in order, with distinct jobs; the durable prefix confirmed, at most one member ahead of it, and a success receipt only for all members |
| ForkRepeat.StragglersExactly | src/dt/submission_group.py:582-610 | after a terminal receipt some continuation registers a further member if and only if members are missing, none stands ahead of the receipt, and some process that has not failed is still submitting or recording |
| ForkRepeat.AfterTheReceipt | src/dt/submission_group.py:582-610 | whatever follows a terminal receipt, at most the next member is added, the receipt stays, and every durable member goes on resolving to its recorded job without registering anything |
| ForkRepeat.StepKeeps | src/dt/submission_group.py:555-580 | every step keeps jobs, confirmations, progress and receipts, and never regresses what another process recorded |
| ForkRepeat.RepeatProgress.LoadEntries | src/dt/submission_group.py:230-263 | loading the durable prefix never fails on a reachable group and yields the members' jobs in order |
| ForkRepeat.RepeatProgress.SubmitOne | src/dt/fork_repeat.py:551-681 | one pass registers and records the next member, and only a registered answer lets the loop go on |
| ForkRepeat.RepeatProgress.SubmitItems | src/dt/fork_repeat.py:535-681 | the loop succeeds exactly when every member not yet durable registers, and stops at the first that does not |
| ForkRepeat.RepeatProgress.VerifyTerminalReplay | src/dt/fork_repeat.py:455-532 | checking a terminal receipt registers nothing and never finds a different job; the replay stands exactly when the first member answers |
| ForkRepeat.RepeatProgress.Run | src/dt/fork_repeat.py:684-812 | a foreign intent or a terminal receipt changes nothing, and a replay lists the durable members and reports the recorded outcome; otherwise the first answer that does not register decides: uncertain and resumable if it leaves doubt, else a terminal receipt with its exit code, and a success if and only if all remaining members register |
| ForkRepeat.RunTwice | src/dt/fork_repeat.py:374-812 | after a run stopped by doubt, a second one whose answers all register ends with every member durable and a success receipt |
| Matrix.ProductIsGrid | src/dt/matrix.py:457-466 | the product lists each grid cell exactly once, as many as the sizes multiply to |
| Matrix.UnitCount | src/dt/matrix.py:455-481 | the units are the whole grid less the excluded cells plus the explicit units |
| Matrix.OneExcludeRemoves | src/dt/matrix.py:457-479 | one exclude removes as many cells as the sizes of the axes it does not name multiply to, and one that names every axis just its own cell |
| Matrix.TogetherSelectsBoth | src/dt/matrix.py:457-506 | two compatible patterns put together select exactly what both select, as excludes and as rules |
| Matrix.LastMatchingRuleWins | src/dt/matrix.py:240-266 | each option comes from the last matching rule that sets it, or is the default |
| Matrix.IndexByKey | src/dt/matrix.py:488-494 | a duplicate is reported exactly when two different units share a key or one is listed twice |
| Matrix.BuildUnits | src/dt/matrix.py:496-519 | the units come in strictly increasing key order with positions, keys and options of their own |
| Matrix.Expand | src/dt/matrix.py:405-530 | expansion ends in exactly the first error that applies, a template that does not render and too many command bytes included, or in the units |
| Matrix.ExpansionIsUnique | src/dt/matrix.py:455-519 | the listed combinations fix the units |
| Matrix.ExpansionIgnoresOrder | src/dt/matrix.py:405-519 | permuting axes, axis values, includes or excludes changes neither the units nor which error it ends in |
| Matrix.UnambiguousKeysAreExact | src/dt/matrix.py:355-356 | while no accepted value contains the separator in front of the next axis after something that is not blank, duplicates are refused exactly when a unit is listed twice |
| Matrix.ConfusableExactly | src/dt/matrix.py:176-198 | an accepted value of an axis can be confused with a shorter one, in two admissible units with one key that differ there first, if and only if it contains the separator in front of the next axis after something that is not blank |
| Matrix.CommaKeysCollide | src/dt/matrix.py:355-356 | two such units share a key and are refused |
| Ordering.IncreasingIsUnique | src/dt/matrix.py:457-497 | sorted keys are determined by their members |
| TelemetrySpec.RisesTelescope | src/dt/monitoring.py:663-678 | for timestamps in order the interval total is last minus first and the count one less than the distinct timestamps |
| TelemetrySpec.RunsAreMaximal | src/dt/monitoring.py:725-738 | the phase runs cannot be made longer at either end |
| TelemetrySpec.RunsCover | src/dt/monitoring.py:725-738 | every row with a safe phase is in a run |
| TelemetrySpec.BusyTimesAreTimes | src/dt/monitoring.py:537-554 | a GPU is busy only at times of rows |
| TelemetrySpec.SumConcat | src/dt/monitoring.py:484-493 | the total of two lists is the sum of their totals |
| TelemetrySpec.MeanBetween | src/dt/monitoring.py:484-500 | a mean lies between any bounds of its samples |
| Telemetry.SeriesStats.AddKeeps | src/dt/monitoring.py:484-493 | count, sum and peak stay those of the whole list |
| Telemetry.GpuStats.AddKeeps | src/dt/monitoring.py:537-554 | the statistics of one GPU stay those of all its samples |
| Telemetry.SampleStats.Add | src/dt/monitoring.py:663-723 | after each row the state is the whole-list aggregate of the rows so far |
| Telemetry.SampleStats.Summarize | src/dt/monitoring.py:762-835 | the summary is the whole-list summary, and the interval is exact or unavailable |
| Telemetry.ResourceAccumulator.Add | src/dt/monitoring.py:725-738 | the closed spans are the summaries of the runs so far and the open run is accumulated exactly |
| Telemetry.ResourceAccumulator.PhaseSpans | src/dt/monitoring.py:837-839 | the spans returned are the first 128 and the last 128 of the others of all maximal runs, each with its whole-list summary |
| Json.ReplaceChangesLength | src/dt/diagnose.py:78-85 | replacing one member's value changes the text length by the difference of the two values |
| Json.RenderIsAscii | src/dt/diagnose.py:78-85 | the text is ASCII, so characters are bytes |
| JsonText.TextDetermines | src/dt/diagnose.py:78-85 | two values with one text are one value: quotes, commas, colons and escapes tell everything apart |
| FiniteJson.TruncateUtf8 | src/dt/diagnose.py:96-108 | cutting bytes until they decode keeps the longest text that fits beside the mark, and the result stays within the limit |
| FiniteJson.CutDecodes | src/dt/diagnose.py:102-107 | cut UTF-8 decodes exactly at character boundaries, and then to the text before the cut |
| FiniteJson.NormalizedIsBounded | src/dt/diagnose.py:111-155 | whatever arrives, the result is finite, shallow, short and has distinct keys |
| FiniteJson.NormalizedExactly | src/dt/diagnose.py:111-155 | an omission is reported exactly for values out of bounds, and values within them come back unchanged |
| FiniteJson.ListKeeps | src/dt/diagnose.py:111-155 | of a list the first 128 items are kept, each normalized by itself |
| FiniteJson.ObjectKeeps | src/dt/diagnose.py:111-155 | of the first 128 members of an object the first with each cut key is kept, with its value normalized by itself, and nothing else |
| FiniteJson.NormalizingTwiceIsOnce | src/dt/diagnose.py:111-155 | normalizing again changes nothing and reports nothing |
| Diagnosis.LengthOfSize | src/dt/diagnose.py:417-424 | the size field adds its own width and nothing else |
| Diagnosis.DroppedSection | src/dt/diagnose.py:312-325 | dropping k sections omits the first k of the order and leaves the others alone |
| Diagnosis.DroppedKeeps | src/dt/diagnose.py:404-410 | overall completeness stays exact, so setting it again at the end changes nothing |
| Diagnosis.Payload.DropUntilItFits | src/dt/diagnose.py:404-416 | the sections dropped are the shortest prefix of the omission order that fits, if any does |
| Diagnosis.Payload.StateOwnLength | src/dt/diagnose.py:418-427 | within eight passes the size field equals the exact length; it stays within the budget exactly when the zero-size object left four bytes |
| Diagnosis.Payload.Build | src/dt/diagnose.py:328-431 | a diagnosis states its own length, at most 65536, and is refused exactly when nothing fits or four bytes are missing |
| Diagnosis.RefusedForFourBytes | src/dt/diagnose.py:404-427 | for every job there is admissible evidence whose diagnosis is refused although one more dropped section would fit |
| Utf8.DecodeEncode | src/dt/private_env.py:80-82 | every string survives encoding |
| Utf8.EncodeDecode | src/dt/private_env.py:104-107 | every accepted byte string is the encoding of what it decodes to |
| NulPairs.SizeIsLength | src/dt/custom_env.py:110-116 | the size counted while validating is the printed length |
| NulPairs.ParseEncode | src/dt/custom_env.py:148-186 | printed pairs parse back, in whatever order |
| NulPairs.EncodeParse | src/dt/custom_env.py:154-186 | whatever parses is exactly what its pairs print |
| Envelope.Validate | src/dt/custom_env.py:85-116 | accepts exactly the dictionaries within the contract |
| Envelope.AcceptsExactly | src/dt/custom_env.py:74-116 | the contract, variable by variable: names of at most 128 letters, digits and underscores that do not start with a digit, with DT_ or with BASH and are not reserved, values without NUL of at most 16384 bytes, at most 64 of them and 65536 printed bytes |
| Envelope.EncodeNulPairs | src/dt/custom_env.py:148-151 | encodes exactly the accepted dictionaries, to bytes that decode to them, as long as counted |
| Envelope.DecodeNulPairs | src/dt/custom_env.py:154-186 | decodes exactly the printed, duplicate-free, accepted payloads |
| Envelope.CustomRoundTrip | src/dt/custom_env.py:148-186 | decoding undoes encoding, and the decoder never rejects its own printer's output |
| Envelope.PayloadsDifferInOrder | src/dt/custom_env.py:154-186 | two accepted payloads have the same dictionary if and only if they are printed from permutations of the same pairs |
| Envelope.PrivatePayloadsDifferInOrder | src/dt/private_env.py:86-116 | the same of accepted private envelopes |
| Envelope.Normalize | src/dt/private_env.py:31-69 | accepts exactly the allowlisted and custom variables within their contracts, and returns all of them |
| Envelope.PrivateAcceptsExactly | src/dt/private_env.py:31-69 | the contract on private dictionaries: at most 67 variables, of those that start with DT_ only the three allowed ones within their bounds and the token of 32 hex digits, and the custom contract for the rest |
| Envelope.EncodePrivate | src/dt/private_env.py:72-83 | refuses exactly what is out of contract or too large to print; otherwise the bytes decode to the dictionary |
| Envelope.DecodePrivate | src/dt/private_env.py:86-116 | decodes exactly the envelopes with the magic, whole pairs, no duplicate and an accepted dictionary |
| Envelope.PrivateRoundTrip | src/dt/private_env.py:72-116 | decoding undoes encoding for every dictionary that fits |
| PlanPages.CreatePlan | src/dt/maintenance.py:369-430 | a plan is created exactly when it is small enough, repeats no job and no managed result, and every item can be paged |
| PlanPages.CleanPlanPage | src/dt/maintenance.py:308-366 | a page is the next items, as many as limit and byte budget allow, with an exact next offset; an oversized item is never met in a plan that passed creation or loading |
| PlanPages.Enumerate | src/dt/maintenance.py:308-366 | following the next offset ends and yields every job and then every managed result once, in persisted order |
| PlanPages.PageSizeAppend | src/dt/maintenance.py:274-286 | one more item adds its own size and a comma, so the counted bytes are the page's bytes |
| PlanPages.ItemBytes | src/dt/maintenance.py:274-286 | an item's bytes are those of its identity, index and kind and of the punctuation |

## Left out

- SSH, rsync, tmux, systemd and subprocess calls: only their outcomes, as arbitrary inputs; a remote command that goes on after its timeout is not modelled.
- Shell text and quoting, presentation and reports; of command rendering from the matrix template only whether it succeeds and how long the command is.
- YAML, JSON and format-string parsing and the field-by-field validators: models start from parsed, validated values.
- Filesystem hardening, modes and flush details: rename, link, unlink and truncate are atomic, and the inode and times of a file appear only in the status that the registry migration compares.
- The journal's event validation and redaction: a line is any newline-free text, and reading an event is a parameter.
- The tick's preamble (harvest effects, capacity changes) and quota with a pool: the walk starts from given counts, and the quota result is for the synchronous pass.
- TickRecord.SchedulerTick.ReadHealth: does not model records from before successes and failures were told apart.
- TickRecord.SchedulerTick.WriteTick: does not model the whitespace normalization of a failure kind; the file's names and punctuation are a byte count.
- Distribution: the local cache repair of damaged replicas and the order in which peers are ranked; a peer is usable or not, as given.
- Retention: the two store roots are one store, bit rot of an archive after its attestation is not modelled, and the head's memo of pruned rows is in `CompactBatch` alone; the selection of victims, plan authorizations and the liveness census are guards whose outcome is given.
- Retention.EveryPrunedJobIsRecoverable: excludes the registrations that `OnTimeExactly` shows to be unsafe, because the code has no lock between capture and registration.
- Retention.OnlyUnreferencedArchivesGo: excludes the same registrations.
- Retention.StepKeeps: excludes the same registrations.
- CompactBatch: the preflight gates and counters, and the byte counts and details of a row.
- Migration: symbolic links and unsafe paths end in the failure they would cause; only one process migrates a row at a time, as its lock ensures, and an older process rewrites only a legacy record it finds.
- ForkRepeat: the rejected state, which needs a preparation step that this operation does not have; agent start-up and printing.
- Telemetry: `_SeriesStats`, `_MinMax` and `_GpuStats` are values owned by their accumulator, so sharing one between accumulators, which the code never does, cannot be expressed; of the host and GPU metrics one of each kind, job metrics and error texts not at all; reals instead of floating point.
- Telemetry.ResourceAccumulator.PhaseSpans: does not say what further rows do afterwards, because it closes the open run as the code does.
- Diagnosis: evidence collection, the checks on actions and names that precede assembly, and lone surrogates in text.
- NodePrune: symbolic links in the place of directories, and the byte counts it reports; a file counts as the job's own when the job wrote it after it started, whatever its times say.
- Envelope: non-string values and lone surrogates, which have no UTF-8 encoding.
- PlanPages: encoding and durability of the plan file, its expiry, and its timestamp and identity checks; the size of the document is given.
