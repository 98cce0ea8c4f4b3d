# DTWorkflow: verified models of its protocols and text algorithms

DTWorkflow receives repository webhooks, turns them into queued tasks, lets an agent review or fix
code, and writes the results back.  This project models the parts of it that hold state across
calls, or that compute something whose result is hard to see from the code, and proves what they
keep:

* **Review/fix iteration** (`IterationModel`, `IterationTables`, `IterationProtocol`, `IterationLaws`,
  `IterationTotals`, `IterationConvergence`, `IterationHandovers`, `IterationHandlers`,
  `IterationOutcomes`).  One session per pull request owns a growing list of rounds.  Reviews, approvals and fix workers write the same rows.  The store and the
  handlers are imperative and proved equal to functions on the tables; the machine interleaves any
  number of calls between their database accesses, with stale copies of sessions and rounds.
* **Task lifecycle** (`TaskModel`, `TaskProtocol`, `TaskLaws`, `TaskReplacement`, `TaskPlaces`,
  `TaskExclusion`, `TaskSplit`, `TaskHandlers`, `TaskOutcomes`).  Persist first, enqueue second, recover what got lost, redeliver, cancel and
  replace.  A step that writes a record may act on any version of the row there ever was.
* **Quote repair** (`QuoteScan`, `JsonText`, `QuoteRepair`) and **brace extraction** (`JsonExtract`).
  A pushdown scanner and a depth counter, judged against the grammar of RFC 8259.
* **Diff and writeback** (`Strings`, `Diff`, `DiffText`, `DiffRoundTrip`, `DiffEdges`, `Writeback`,
  `WritebackLaws`).  The unified diff parser against printed diffs (POSIX.1-2017 `diff`, "Diff -u or -U
  Output Format"), and the split of a review into inline comments, body and verdict.
* **Normal forms and cutting** (`BranchKey`, `Utf8Cut`), the latter judged by sections 3 and 4 of
  RFC 3629.
* **At-most-once effects** (`IssueOnce`, `ReviewOnce`) and **file grouping** (`ChangeFilter`).

Where a promise turned out not to hold on every input, the project states exactly when it holds and
gives an input or a run on which it fails:

* An approval that read that there was no round takes over the total it read before; it is right
  exactly when no round fixed anything since (`ApprovalTotals`, `ApprovalCanMiss`).
* Healing and persisting a fix agree on its round, but not on the session if that has ended meanwhile: the
  worker then leaves the total as it is, and a review with an older copy writes the total and makes the
  session active again.  The order does not matter exactly when the session is still active or another
  session has replaced it (`HealAndPersistConverge`, `OrderIsFreeIff`, `OrderCanMatter`).
* The writeback identifies issues by a string whose fields are separated by colons; issues are
  conserved exactly when no hidden issue shares its string with a visible one (`Conservation`,
  `CollisionExists`, `ColonFreeIsSafe`).
* Two failed cases with one path in the same output get two issues, and a process that dies between
  creating an issue and storing it gets a second one.  Over any runs, the stored maps are right all along
  exactly when every run avoids both (`AlwaysOkIff`, `SamePathRepeats`, `CutRunExact`, `CutRunRepeats` in
  `IssueOnce`).
* In the same way the flag for enqueued reviews is right all along exactly when no run dies between
  enqueueing and marking, and a task gets two reviews exactly when such a run is followed by another one that
  wants a review and reaches the queue (`AlwaysFlaggedIff`, `AtMostOneIff`, `RunExact`, `CutRunRepeats` in
  `ReviewOnce`).
* A crash between deleting a queue entry and writing its record strands somebody exactly when the record
  is under way by then (`CrashInsideCancelStrands`, `CancelCanStrand`).
* Two tasks can become active in one place.  A manual retry does it, a failed cancellation does it, and so
  does recovery alone: it lists a pending task, the task is replaced, and recovery requeues the copy it had
  listed (`StaleRecoveryMakesTwo`).  Over any run of steps and calls there are never two exactly when no
  move writes an active task beside another one (`NeverTwoIff`).
* The full split of run_e2e cancels before it enqueues.  A module is without an active task in between
  exactly when all its active tasks could be cancelled, and afterwards exactly when it was not scanned
  either (`SplitGapIff`, `SplitCanLeaveGap`, `GapLastsIff`).
* The threshold trims and lowers a severity, the verdict's safety net raises it untrimmed.  With white space
  around it they agree exactly on mild severities; without, on all but those that spell "critical" with the
  dotted capital I (U+0130) or the dotless small i (U+0131), but not both (`ThresholdAgreesIff`,
  `PaddedErrorIsNotHigh`, `DottedCriticalIsNotHigh`, `DotlessCriticalIsMild`).
* A TAB or time stamp behind a name in a file header of a diff becomes part of the name, and a time stamp
  behind `/dev/null` hides a deletion.  A file is found under its own name exactly when it has no such tail
  (`FoundByName`, `TailsHideFiles`).
* `shouldEnqueueReview` compares pull request numbers although the row it compares with was saved with
  that number just before; only the flag decides (`OnlyTheFlagDecides`), so a rerun that ends with
  another pull request gets no review.

Where the repository's design document for the task queue (docs/M1.5-task-queue-design.md) says that a
failed enqueue is reported as an error, the code reports success and leaves the record pending; the
model follows the code.

Conventions: `char` stands for one byte or one rune of a Go string as the code treats it, integers are
unbounded unless a bound is written out, absent rows are `None`, errors are results.  Row and record
ids are row numbers.  External calls are parameters that may answer anything: whether the queue is
reached, what creating an issue answers, what decoding a stored output gives, `json.Valid` and its error
offset, glob matching, and which records are old enough.

## Model

| member | source | states |
|---|---|---|
| IterationLaws.RoundsAreBounded | internal/queue/enqueue_iterate.go:48-131 | in every interleaving of reviews, approvals, workers and crashes a session has at most `maxRounds` rounds that are no recoveries, its rounds are numbered 1, 2, 3, ..., and every round but the latest that has a fix task is completed |
| IterationLaws.StepKeeps | internal/queue/enqueue_iterate.go:19-224 | each step of each handler keeps the tables valid and what every other suspended call knows about them true |
| IterationLaws.OneActiveSession | internal/store/iterate_session.go:26-68 | never two active sessions for one pull request |
| IterationLaws.CompletedRoundsAreFinal | internal/queue/processor_iterate.go:103-122 | once a round has a completion time, no later step of any handler changes any column of it |
| IterationLaws.NoRoundAfterTwoZeroes | internal/queue/enqueue_iterate.go:80-93 | a round that is no recovery is never inserted when the two most recent non-recovery rounds both fixed nothing, even if rounds changed between the check and the insert |
| IterationLaws.ReturnsAreBounded | internal/queue/enqueue_iterate.go:68-78 | when no fix task fails, AfterReviewCompleted returns true at most `maxRounds` times per session |
| IterationProtocol.OpenKeeps | internal/queue/enqueue_iterate.go:95-209 | the write phase inserts a round only if the latest round read is still the latest, wherever a crash ends the phase |
| IterationProtocol.EnsureKeeps | internal/queue/enqueue_iterate.go:461-520 | waiting for or healing the latest round keeps the tables valid and ends with a round that is completed if it has a fix task |
| IterationTotals.ApprovalTotals | internal/queue/enqueue_iterate.go:524-555 | an approval leaves the session completed with the sum over its completed rounds, exactly when it had read a latest round or that sum is zero, whatever stale totals were written before |
| IterationTotals.RecomputeIsTotal | internal/queue/enqueue_iterate.go:305-327 | the fallback round is never added twice and never missing: the recomputed total is the sum over the completed rows |
| IterationTotals.ApprovalCanMiss | internal/queue/enqueue_iterate.go:538-547 | a run of nine steps and an approval after which a completed session says 0 although one issue was fixed |
| IterationConvergence.HealAndPersistConverge | internal/queue/enqueue_iterate.go:257-303 | any number of self-heals with older active copies and worker persists, in any order and whatever became of the session, end with the round counting what the output says, which the sum over completed rounds grows by; the session's total is that sum if and only if the session was active, or a heal came first and no other session of the pull request is active, or the total happened to be right; exactly in the first two cases the session is active afterwards and no longer fixing, and otherwise it stays as it was |
| IterationConvergence.PersistSettles | internal/queue/processor_iterate.go:74-149 | persisting a fix result completes an open round and keeps a completed one; it settles total and status of a session that is active and leaves one that has ended alone |
| IterationConvergence.HealSettles | internal/queue/enqueue_iterate.go:257-303 | healing completes the round and settles the session, even one that has ended, unless another session of the pull request is active |
| IterationConvergence.OrderIsFreeIff | internal/queue/processor_iterate.go:118-134 | any two ways to finish a fix end with the same total and the session equally active if and only if the session is active or has been replaced |
| IterationConvergence.OrderCanMatter | internal/queue/enqueue_iterate.go:289-301 | a run after which the same two steps, in one order, leave an ended session with total 0, and in the other make it active again with total 1 |
| IterationConvergence.CopiesAreActive | internal/queue/enqueue_iterate.go:41-48 | in every run each call holds the copy of an active session, whatever became of the row |
| IterationHandovers.RoundIsOpened | internal/queue/enqueue_iterate.go:114-209 | after a round was opened, the latest round of the session is that round, open and linked to its queued task, and the session is fixing it |
| IterationHandovers.OthersWaitForIt | internal/queue/enqueue_iterate.go:461-520 | in every state of every run after a round was opened, any other review or approval of the session comes to wait for exactly that round if and only if the round is not completed and its task has not succeeded, failed or been cancelled |
| IterationHandovers.WaitsIff | internal/queue/enqueue_iterate.go:461-520 | in any valid tables the read phase waits for a round that has a task exactly when the round is open and its task not at an end, and then changes nothing |
| IterationHandovers.FailureLeadsToRecovery | internal/queue/enqueue_iterate.go:59-66 | a review after a failed fix goes on with a completed round and takes itself for a recovery |
| IterationHandovers.RecordedFailureLeadsToRecovery | internal/queue/processor_iterate.go:151-204 | so does a review that comes after the worker recorded the failure |
| IterationHandovers.EndedSessionIsReplaced | internal/store/iterate_session.go:26-53 | after a session is completed or exhausted its pull request has no active session, and the next review starts a new one without rounds |
| IterationHandlers.AfterReviewCompleted | internal/queue/enqueue_iterate.go:19-224 | a call that nothing interrupts does to the store what the machine does when it takes the steps of one call in a row, returns true exactly when the machine counts a start, and otherwise says whether, with which session and for which round it waits |
| IterationHandlers.ResumeAfterWait | internal/queue/enqueue_iterate.go:428-520 | after the wait the round is read again; completed, the call goes on with the row as it is now and with the session read before, otherwise it gives up |
| IterationHandlers.DecideOnNextRound | internal/queue/enqueue_iterate.go:59-209 | the limits and the write phase behind the wait are the machine's four steps in a row |
| IterationHandlers.RunsAreRuns | internal/queue/enqueue_iterate.go:19-224 | running the machine from a reached state is the same as the longer run from the start |
| IterationOutcomes.DecisionExact | internal/queue/enqueue_iterate.go:59-112 | a call that is not interrupted behind the wait exhausts its session and starts nothing exactly when the latest fix has not failed and either as many rounds that are no recoveries are there as allowed or the last two of them fixed nothing; otherwise it goes on to open a round |
| IterationOutcomes.CompareExact | internal/queue/enqueue_iterate.go:80-93 | the check for two zero-fix rounds as one step: over the rows, the session is exhausted exactly when the call is no recovery, counted two rounds or more, and the last two rounds that are no recoveries fixed nothing |
| IterationOutcomes.CountExact | internal/queue/enqueue_iterate.go:68-78 | the check of the limit as one step, counted over the rows |
| IterationOutcomes.JudgeExact | internal/queue/enqueue_iterate.go:59-66 | a call takes itself for a recovery exactly when the task of the latest round it read has failed |
| IterationOutcomes.NoThirdAfterTwoZeroes | internal/queue/enqueue_iterate.go:80-93 | in every run: with the last two rounds that are no recoveries both at zero, the write phase inserts at most a recovery |
| IterationOutcomes.RegularRoundsAreBounded | internal/queue/enqueue_iterate.go:68-78 | the limit in every run, as the number of rows that are no recoveries |
| IterationOutcomes.ReadPhaseExact | internal/queue/enqueue_iterate.go:461-520 | what becomes of the latest round for each status of its fix task: zero after a failed or cancelled fix, the count of modified and alternative issues after a succeeded one, zero when its output cannot be decoded, untouched otherwise |
| IterationOutcomes.FoundIff | internal/store/iterate_session.go:26-53 | a session is found exactly when one of the pull request is idle, reviewing or fixing |
| IterationOutcomes.FixExact | internal/queue/processor_iterate.go:74-149 | a persisted fix: task, count and time on the round, and a session that was fixing is reviewing |
| IterationOutcomes.ZeroFixExact | internal/queue/processor_iterate.go:206-267 | a zero-fix result: the same with zero, and the total stays |
| IterationOutcomes.FailureExact | internal/queue/processor_iterate.go:151-204 | a failed fix: zero and the time on the round, and the session is idle |
| IterationOutcomes.OthersRoundIsLeft | internal/queue/processor_iterate.go:92-100 | a round of another task is left alone |
| IterationOutcomes.PersistsIff | internal/queue/processor_iterate.go:74-149 | persisting a fix reports no error exactly when the round is there and not another task's and its session is an active one of the pull request |
| IterationOutcomes.CutOpening | internal/queue/enqueue_iterate.go:114-209 | the rows after each point at which the write phase can be cut off |
| IterationOutcomes.FixedAreModifiedOrAlternative | internal/iterate/service.go:234-245 | the count is that of modified and of alternative issues together |
| IterationHandlers.RecomputeTotal | internal/queue/enqueue_iterate.go:305-327 | the loop over completed rounds with its set of identities computes the specified sum |
| IterationHandlers.SumOnce | internal/queue/enqueue_iterate.go:310-326 | a fallback counts exactly when it is completed and no listed round has its id |
| IterationHandlers.CountFixedIssues | internal/iterate/service.go:234-245 | the counting loop counts modified and alternative issues, no others |
| IterationHandlers.CompleteSucceededRound | internal/queue/enqueue_iterate.go:257-303 | healing writes the round, then the recomputed total to the caller's session copy |
| IterationHandlers.EnsureLatestFixReviewRoundCompleted | internal/queue/enqueue_iterate.go:461-520 | the read phase heals, completes, hands on or says which round to wait for |
| IterationHandlers.OpenNextRound | internal/queue/enqueue_iterate.go:95-209 | the writes of the phase in their order, cut off after any of them |
| IterationHandlers.CompleteIteration | internal/queue/enqueue_iterate.go:533-547 | the total and the completed status are written together |
| IterationHandlers.PersistIterationFixResult | internal/queue/processor_iterate.go:74-149 | the worker leaves a round of another task alone, writes an open one once, and only touches its own active session; the result says exactly when it got to the end |
| IterationHandlers.PersistIterationFixFailure | internal/queue/processor_iterate.go:151-175 | a failure completes an open round with zero and makes its own active session idle |
| IterationHandlers.CompleteIterationRoundOnFailure | internal/queue/processor_iterate.go:177-204 | a completed round is not touched |
| IterationHandlers.PersistIterationZeroFixResult | internal/queue/processor_iterate.go:206-267 | a zero-fix result completes an open round and keeps the session's total |
| IterationHandlers.RepairSucceededIterationState | internal/queue/processor_iterate.go:57-72 | an output that cannot be decoded changes nothing; otherwise the repair persists it once more and returns what that returns |
| IterationHandlers.IterationStore.FindOrCreateIterationSession | internal/store/iterate_session.go:26-53 | the active session is found, or a new idle one is inserted |
| IterationHandlers.IterationStore.UpdateIterationSession | internal/store/iterate_session.go:55-68 | only the status and the counters are written, and a row that would break the unique index is refused |
| IterationHandlers.IterationStore.CreateIterationRound | internal/store/iterate_session.go:70-87 | a number the session already has is refused |
| IterationHandlers.IterationStore.UpdateIterationRound | internal/store/iterate_session.go:89-106 | the session, number and recovery flag of a round are never written |
| TaskLaws.OneRecordPerDelivery | internal/store/sqlite.go:100-150 | over every run at most one record exists per delivery id and task type |
| TaskLaws.OneEntryPerRecord | internal/queue/enqueue.go:910-969 | every live queue entry belongs to exactly one record, no record has two entries, and no record is processed by two handlers |
| TaskLaws.NobodyIsStranded | internal/queue/recovery.go:72-179 | in every run a record that is not at its end is pending or has a live entry, and a pending one that is old enough is listed for recovery exactly when fewer than 1000 such records precede it |
| TaskLaws.ListedIff | internal/store/sqlite.go:322-348 | what the query for orphans lists under its limit |
| TaskLaws.PassesDrain | internal/queue/recovery.go:72-104 | passes in a row that reach the queue take exactly the hundred oldest waiting records each, so enough of them leave none |
| TaskLaws.FirstEnqueueNeverConflicts | internal/queue/enqueue.go:932-953 | the queue id of a record that was just created is not live |
| TaskLaws.RedeliveryChangesNothing | internal/queue/enqueue.go:236-249 | a delivery that was recorded once changes nothing when it comes again, however much later |
| TaskLaws.OrphansMoveOn | internal/queue/recovery.go:72-104 | a pass that reaches the queue leaves each orphan it handled queued with a live entry, or failed if its attempts were used up |
| TaskLaws.PassRecovers | internal/queue/recovery.go:107-179 | such a pass over any list of distinct records touches no other record, loses no entry, and gives up exactly those with enough attempts |
| TaskLaws.CrashInsideCancelStrands | internal/queue/enqueue.go:868-907 | between deleting the entry and writing the record, with a copy of any age, somebody is stranded exactly when the record is queued, running or retrying by then, and no recovery pass lists it |
| TaskLaws.CancelCanStrand | internal/queue/enqueue.go:868-907 | a run of two steps after which a cancellation that is cut in two strands its record |
| TaskModel.AsynqIdIsInjective | internal/queue/enqueue.go:735-740 | two non-empty delivery ids with their types give the same queue id exactly when both agree |
| TaskProtocol.StepKeeps | internal/queue/processor.go:225-688 | every step, acting on any version of a row that ever existed, keeps one record per delivery, owned entries, and nobody stranded |
| TaskProtocol.StartKeeps | internal/queue/processor.go:233-278 | the short cuts for cancelled and already succeeded records may drop the entry without stranding anyone |
| TaskProtocol.FinishKeeps | internal/queue/processor_adapt.go:182-252 | whatever the outcome, a handler that writes its own copy strands nobody |
| TaskProtocol.CancelKeeps | internal/queue/enqueue.go:868-907 | a cancellation with a stale copy strands nobody |
| TaskProtocol.RequeueKeeps | internal/queue/recovery.go:107-179 | requeueing a stale copy strands nobody, conflict or not |
| TaskReplacement.ReplacementLeavesNoGap | internal/queue/enqueue.go:1315-1386 | in every state a replacing call goes through after its first write the new record is there and active, whatever the queue answers; if the new record is refused, nothing is cancelled |
| TaskReplacement.ListsAreOld | internal/queue/enqueue.go:793-851 | the review, issue, module and branch paths only cancel rows that were there before the call |
| TaskPlaces.NeverTwoIff | internal/queue/enqueue.go:1315-1456 | in any run of single steps, with copies of any age, failing queues, recovery and manual retries, and of whole replacing calls, there are never two active tasks of these kinds in one place if and only if each step writes no active version beside another active task and each call is refused or its cancellations succeed |
| TaskPlaces.StepExact | internal/queue/processor.go:225-688 | the same for one step of any handler: two become active exactly when the version it writes crowds another task |
| TaskPlaces.CallExact | internal/queue/enqueue.go:1431-1456 | after a replacing call at most one is active in each place exactly when the record was refused or the cancellations succeeded |
| TaskPlaces.WriteExact | internal/store/sqlite.go:173-220 | writing any version of a row keeps at most one active exactly when no other active task stands in its place |
| TaskPlaces.RecoverExact | internal/queue/recovery.go:107-179 | requeueing a listed copy makes two exactly when it is not given up, the queue is reached, and another active task stands in its place |
| TaskPlaces.RetryExact | internal/queue/retry.go:16-64 | retrying a failed or cancelled task makes two exactly when another active task stands in its place |
| TaskPlaces.RetryMakesTwo | internal/queue/retry.go:16-64 | retrying a cancelled or failed task next to an active one in its place always leaves two active |
| TaskPlaces.StaleRecoveryMakesTwo | internal/queue/recovery.go:79-103 | a run without manual retry, interruption or failed cancellation that ends with two active tasks: recovery requeues a copy it listed before the task was replaced |
| TaskSplit.CleanupCleans | internal/queue/enqueue.go:1411-1428 | the cleanup cancels exactly the active tasks of the listed modules whose cancellation succeeds and leaves every other row as it is |
| TaskSplit.SplitGapIff | internal/queue/enqueue.go:1461-1514 | after the cleanup a module has no active task exactly when each active task it had could be cancelled |
| TaskSplit.SplitCanLeaveGap | internal/queue/enqueue.go:1461-1514 | a reached state in which an active module is vacant after the cleanup |
| TaskSplit.PartsFill | internal/queue/enqueue.go:1461-1514 | with new delivery ids every scanned module is accepted, and a module is vacant afterwards exactly when it was before and was not scanned |
| TaskSplit.IdsAreNewRows | internal/queue/enqueue.go:1461-1514 | the returned ids are those of the rows the call added; a part that is refused has none |
| TaskSplit.GapLastsIff | internal/queue/enqueue.go:1461-1514 | after the whole split a module is vacant exactly when it was not scanned and each active task it had could be cancelled |
| TaskExclusion.OneActivePerPlace | internal/queue/enqueue.go:1315-1456 | process conditions that are enough: calls run to their end and their cancellations succeed and end the handlers, and recovery with listed copies of any age and manual retries keep out of the way of active tasks; then one code_from_doc task per repository and branch and one run_e2e task per repository and module is active at most |
| TaskExclusion.ReplaceIsQuiet | internal/queue/enqueue.go:1431-1456 | after a replacing call whose cancellations reach the queue, and the end of the handlers they reach, the new task is the only active one in its place |
| TaskHandlers.EnqueueHandler.EnqueueTask | internal/queue/enqueue.go:910-969 | the record is persisted first, and an enqueue that fails leaves it pending |
| TaskHandlers.EnqueueHandler.CancelOne | internal/queue/enqueue.go:868-907 | what is done to the queue depends on the status in the caller's copy, and a failed deletion leaves the record alone |
| TaskHandlers.EnqueueHandler.CancelTasks | internal/queue/enqueue.go:854-865 | the loop cancels each listed task, one failure not stopping the next, and counts the failures |
| TaskHandlers.EnqueueHandler.HandleReviewPullRequest | internal/queue/enqueue.go:226-333 | a known delivery changes nothing; otherwise active reviews, and after a user's push the fix tasks, are replaced; neither is an error |
| TaskHandlers.EnqueueHandler.HandleIssueLabel | internal/queue/enqueue.go:649-727 | a fix replaces earlier fixes and analyses of the issue, an analysis only analyses; a known delivery is no error |
| TaskHandlers.EnqueueHandler.EnqueueSingleE2E | internal/queue/enqueue.go:1431-1456 | the active tasks of the module are replaced, unless the delivery is known, which is an error |
| TaskHandlers.EnqueueHandler.CleanupAllActiveE2ETasks | internal/queue/enqueue.go:1411-1428 | the loop over the listed modules cancels the active tasks of each |
| TaskHandlers.EnqueueHandler.EnqueueManualE2E | internal/queue/enqueue.go:1461-1514 | cleanup, then one call per scanned module; the ids of the accepted records, none of them being an error |
| TaskHandlers.EnqueueHandler.EnqueueCodeFromDoc | internal/queue/enqueue.go:1315-1386 | an active task for the same document is kept and its id returned; after one that ended the rerun id is used; the id of the new task is returned, or an error if its delivery is known |
| TaskHandlers.MergeById | internal/queue/enqueue.go:837-850 | merging two lists keeps one task per id, and all of both lists when their ids differ |
| TaskHandlers.StartProcessing | internal/queue/processor.go:225-278 | the record that is found by delivery id and type is set to running, or one of the short cuts is taken |
| TaskHandlers.FinishProcessing | internal/queue/processor.go:605-622 | the handler's own copy is written with the final status |
| TaskHandlers.RecoveryLoop.RequeueOne | internal/queue/recovery.go:107-179 | a conflict counts as enqueued, an unreachable queue changes nothing, and too many attempts end in failed |
| TaskHandlers.RecoveryLoop.Recover | internal/queue/recovery.go:72-104 | a pass handles the first hundred of the orphans listed at its start |
| TaskHandlers.Retry | internal/queue/retry.go:16-64 | only a failed or cancelled record is enqueued again, and a conflict counts as enqueued |
| TaskOutcomes.OutcomeExact | internal/queue/processor.go:530-622 | after a success the record has succeeded and cannot be retried; after a failure it has failed and a retry that reaches the queue takes it back; after a retry it is retrying with its entry live; after a cancellation it is cancelled and no later start runs it |
| TaskOutcomes.StartExact | internal/queue/processor.go:233-278 | a cancelled record and a fix_review that has succeeded are not run, any other is set to running |
| TaskOutcomes.EnqueueExact | internal/queue/enqueue.go:910-969 | a known delivery changes nothing; any other gets a row that may be retried three times, queued under the id made of delivery and type if the queue is reached and the id not live, and pending otherwise |
| TaskOutcomes.CancelExact | internal/queue/enqueue.go:868-907 | for each status, when a cancellation succeeds and what becomes of the row and its entry |
| TaskOutcomes.RequeueExact | internal/queue/recovery.go:107-179 | when a record is given up, and how attempts are counted |
| TaskOutcomes.GivenUpAfterThree | internal/queue/recovery.go:107-179 | three requeues since the process started, and the fourth gives up |
| TaskOutcomes.BatchesOfHundred | internal/queue/recovery.go:72-104 | a pass lists at most a thousand waiting records and takes a hundred |
| TaskOutcomes.RetryRowExact | internal/queue/retry.go:16-64 | a retry takes a failed or cancelled row when the queue is reached, and no other |
| TaskOutcomes.ReviewReplacesExactly | internal/queue/enqueue.go:236-333 | a review replaces the pending, queued and running reviews of its pull request, and after a push by a user every fix_review that has not ended |
| TaskOutcomes.IssueReplacesExactly | internal/queue/enqueue.go:793-851 | a fix replaces fixes and analyses of its issue that are pending, queued or running, an analysis only analyses |
| TaskOutcomes.ModuleReplacesExactly | internal/queue/enqueue.go:1388-1409 | the other calls replace what has not ended for the module or branch |
| TaskOutcomes.CodeDeliveryExact | internal/queue/enqueue.go:1315-1386 | which delivery id code_from_doc is asked for under |
| QuoteScan.FindLastValueQuoteBefore | internal/fix/prompt.go:511-617 | the loop returns the closing quote of the last string value its specification finds before the limit |
| QuoteScan.RunKeepsConsistent | internal/fix/prompt.go:511-631 | at every position the phase agrees with the top of the container stack, and a found quote is behind the scan |
| QuoteRepair.ScannerMeetsGrammar | internal/fix/prompt.go:511-617 | on every text that starts with JSON by the grammar of RFC 8259 the scanner finds exactly the last string value that ends before the limit |
| QuoteRepair.RunIsLocal | internal/fix/prompt.go:511-617 | the scan depends only on the text before the limit |
| QuoteRepair.RepairTakesEffect | internal/fix/prompt.go:479-509 | after a repair the scan comes to the same opening quote in the same state, and the string that opens there no longer ends at the repaired quote |
| QuoteRepair.RepairInnerQuotes | internal/fix/prompt.go:479-492 | the loop refines the recursive repair; it ends with a valid text, with one that offers no quote, or after sixteen escapes |
| QuoteRepair.FindRepairQuote | internal/fix/prompt.go:494-509 | none when the text is valid or the error is met at its first byte; when the text before the byte with the error begins a JSON text by the grammar of RFC 8259, the closing quote of the last string value that ends there |
| QuoteRepair.FirstRepairMeetsGrammar | internal/fix/prompt.go:479-509 | the first backslash goes directly before that quote, and without such a value the text stays as it is |
| QuoteRepair.NothingToRepair | internal/fix/prompt.go:479-509 | a valid text and one whose error is met at its first byte stay as they are |
| QuoteRepair.RepairOnlyEscapes | internal/fix/prompt.go:479-492 | the result comes from the input by at most sixteen inserted backslashes, each directly before a quote |
| QuoteRepair.EscapingKeepsContent | internal/fix/prompt.go:479-492 | apart from backslashes the repaired text is the input |
| QuoteRepair.RepairStops | internal/fix/prompt.go:479-492 | a text that is returned early is valid or offers no quote to repair |
| JsonExtract.ExtractJSON | internal/iterate/service.go:192-231 | the loop with depth, string and escape flags computes the search |
| JsonExtract.ObjectIsExtracted | internal/iterate/service.go:192-231 | a JSON object by the grammar of RFC 8259 at the first opening brace is cut out exactly, whatever stands around it |
| JsonExtract.ExtractedIsValid | internal/queue/enqueue_iterate.go:387-426 | what is cut out is valid, starts at the first opening brace and ends with a closing one |
| JsonExtract.ExtractExactly | internal/iterate/service.go:192-231 | on any text: the part up to the first brace that closes the first opening one and makes the part valid, and nothing when there is no such brace |
| Diff.ParseHunkHeader | internal/review/diff.go:169-198 | the range of the new file, a missing count meaning one |
| Diff.ParseHunk | internal/review/diff.go:136-165 | a hunk ends before the next hunk or file mark |
| Diff.DiffMap.ParseFileChunk | internal/review/diff.go:70-132 | one chunk adds one file at most |
| Diff.ParseDiff | internal/review/diff.go:43-67 | the parsed map is that of the specification, empty for empty or oversized input |
| Diff.DiffMap.MapLine | internal/review/diff.go:203-221 | a line is found exactly when it lies in a hunk range of a file that is not deleted, and is returned as it is |
| DiffRoundTrip.ParseOfPrint | internal/review/diff.go:43-132 | parsing a printed diff gives the printed files that have hunks, whatever its body lines hold, such as deleted lines that look like file headers, whatever sections without hunks hold, such as renames, modes and binary files, and whatever tails stand behind the names |
| DiffRoundTrip.RoundTrip | internal/review/diff.go:43-198 | of a printed diff the last section with hunks under each name comes back with its hunk ranges and delete flag, and nothing else does; the name includes what stands behind it in the file header |
| DiffRoundTrip.MappedLines | internal/review/diff.go:203-221 | on a printed diff a line maps exactly when some hunk of the last section filed under the name, and not as deleted, covers it |
| DiffRoundTrip.FoundByName | internal/review/diff.go:77-99 | with distinct names without TABs, a file is found under its own name exactly when it has hunks and no tail behind its name, or behind either name if it is deleted; its lines map exactly then, unless it is deleted |
| DiffRoundTrip.TailsHideFiles | internal/review/diff.go:77-99 | a file with a blank in its name, printed as git does, whose first line cannot be mapped, and a deleted file with time stamps that is filed under `/dev/null` and not as deleted |
| DiffEdges.NothingParsed | internal/review/diff.go:43-67 | nothing comes of a blank text or of one over ten megabytes |
| DiffEdges.BinaryIsNotFiled | internal/review/diff.go:101-104 | a section that says it is binary before any hunk is not filed |
| DiffEdges.UnnamedIsNotFiled | internal/review/diff.go:105-119 | a section that never names its new file is not filed, even with hunks |
| DiffEdges.NoNameIsNotFiled | internal/review/diff.go:123-131 | nor is one that names /dev/null on both sides |
| DiffEdges.UnreadableHunkIsSkipped | internal/review/diff.go:136-198 | a hunk header that cannot be read gives no hunk, and the file is filed all the same |
| Writeback.FilterIssues | internal/review/filter.go:108-135 | the visible issues in order, and counts of what each filter took, which add up |
| Writeback.ApplyFilters | internal/review/filter.go:86-103 | the filtered review and its verdict |
| Writeback.MapIssuesToComments | internal/review/writeback.go:311-325 | each issue with whether its line is in the diff |
| Writeback.Write | internal/review/writeback.go:112-218 | the loops over mapped, unmapped and visible issues post what the specification says |
| WritebackLaws.ShownIsVisiblePlusIntruders | internal/review/writeback.go:130-190 | inline comments and body together are, as a multiset, the visible issues plus the hidden ones that share a visible key |
| WritebackLaws.Conservation | internal/review/writeback.go:130-190 | exactly the visible issues are shown if and only if no hidden issue shares its key string with a visible one |
| WritebackLaws.ColonFreeIsSafe | internal/review/writeback.go:268-270 | without colons in file names and severities issues are always conserved |
| WritebackLaws.CollisionExists | internal/review/writeback.go:268-270 | two different issues with one key string, one of them hidden |
| WritebackLaws.CommentsLieInHunks | internal/review/writeback.go:311-325 | every inline comment lies in a hunk of a file of the diff that is not deleted |
| WritebackLaws.RequestChangesExactlyWhen | internal/review/writeback.go:329-353 | changes are requested exactly when a visible issue is critical or an error, or nothing was filtered and the verdict asked for it |
| WritebackLaws.StateMatchesFilteredVerdict | internal/review/filter.go:86-103 | whenever something was filtered, the posted state is that of the verdict other callers see |
| WritebackLaws.StateExactly | internal/review/writeback.go:292-353 | when a review is posted as approved, as a request for changes and as a comment, by its verdict, the severities of its visible issues and whether something was filtered |
| WritebackLaws.FilteredVerdictExactly | internal/review/writeback.go:272-293 | the verdict that other callers see |
| WritebackLaws.VisibleIff | internal/review/filter.go:61-135 | which issues the filter shows: no pattern matches their file, or they name none, and they rank at least as high as the threshold |
| WritebackLaws.ShownWhere | internal/review/writeback.go:130-190 | which issues are shown inline and which in the body |
| WritebackLaws.RankExact | internal/review/filter.go:21-34 | the four ranks by the spelling without white space |
| WritebackLaws.ThresholdTrims | internal/review/filter.go:21-34 | the threshold takes a severity for an error or worse exactly when the safety net would after trimming it, if and only if the trimmed text does not spell "critical" with just one of the two special kinds of i |
| WritebackLaws.ThresholdAgreesIff | internal/review/writeback.go:329-353 | threshold and safety net agree on a trimmed severity exactly when it is not spelled in that way, and on one with white space around it exactly when the text inside does not spell "error", nor "critical" without a dotless small i |
| WritebackLaws.PaddedErrorIsNotHigh | internal/review/writeback.go:329-353 | "ERROR" with a space behind it passes a threshold of errors, and the safety net does not see it |
| WritebackLaws.DottedCriticalIsNotHigh | internal/review/writeback.go:329-353 | "critical" with dotted capital I's is critical for the threshold, and the safety net does not see it |
| WritebackLaws.DotlessCriticalIsMild | internal/review/filter.go:21-34 | "critical" with dotless small i's is high for the safety net and an info for the threshold |
| BranchKey.SanitizeModuleBranchRef | internal/worker/container.go:194-227 | the buffer loop and the rewriting loop terminate in the declarative normal form |
| BranchKey.RewriteKeepsCollapse | internal/worker/container.go:214-224 | every rewrite of the loop keeps the collapsed form |
| BranchKey.FoldIsCollapse | internal/worker/container.go:194-227 | folding from the right is the same as collapsing each maximal run of dots and dashes |
| BranchKey.NormalIsKey | internal/worker/container.go:194-227 | the result has only kept characters, no two adjacent separators and none at its ends |
| BranchKey.WordsStay | internal/worker/container.go:194-227 | letters, digits and underscores stay as they are |
| BranchKey.OthersAreDashes | internal/worker/container.go:194-227 | any other character but the dot counts as a dash |
| BranchKey.RunsBecomeOne | internal/worker/container.go:194-227 | a run of dots and dashes between two words becomes one dash if it holds one and one dot otherwise; around them it is dropped |
| BranchKey.KeysAreFixedPoints | internal/worker/container.go:194-227 | keys are exactly the fixed points, so the function is idempotent |
| BranchKey.ModuleKeyForContainer | internal/worker/container.go:170-180 | the key of a module, never empty |
| BranchKey.ModuleKeyIsStable | internal/worker/container.go:170-180 | the key of a key is the key itself |
| BranchKey.NothingKeptIsAll | internal/worker/container.go:170-180 | without a letter, digit or underscore the key is "all" |
| Utf8Cut.ValidPrefixes | internal/review/formatter.go:277-285 | a prefix of valid UTF-8 is valid exactly when it ends before the start of a character |
| Utf8Cut.TruncateToUtf8 | internal/review/formatter.go:277-285 | of any bytes the part before the last position within the limit that holds no continuation byte; of valid UTF-8 the longest valid prefix within the limit, at most three bytes shorter than it |
| Utf8Cut.LimitWithNotice | internal/review/formatter.go:197-227 | a text over its limit (8000 bytes for a comment, 60000 for a body) is cut to the longest valid prefix that leaves room for the notice; the result is within the limit, and valid if the text was |
| Utf8Cut.TruncateFreeText | internal/store/sqlite.go:645-655 | stored text stays within 2048 bytes and its suffix, and valid if it was |
| Utf8Cut.TruncateString | internal/review/formatter.go:269-274 | the tail of a degraded body |
| IssueOnce.AtMostOneIssue | internal/e2e/service.go:151-202 | over any number of runs with distinct paths per output, of which those that are cut off create nothing, each case path of a task gets at most one issue and the stored map is exactly the issues created |
| IssueOnce.AlwaysOkIff | internal/e2e/service.go:151-202 | over any runs, cut off or not, this holds all along if and only if in each run no two cases that create an issue share their path and a run that is cut off creates none |
| IssueOnce.RunKeeps | internal/e2e/service.go:316-385 | one complete run keeps that exactly when no two of its cases that create an issue share their path |
| IssueOnce.RunCreatesExactly | internal/e2e/service.go:316-385 | a run creates an issue for a path exactly when a case with it is failed or in error, is a bug or an outdated script, is not saved yet, and creating answered |
| IssueOnce.RunStoresExactly | internal/e2e/service.go:316-385 | with distinct paths the stored map is afterwards the old one and these |
| IssueOnce.SamePathRepeats | internal/e2e/service.go:316-385 | an output with two failed cases of one path after which the path has two issues and the stored map knows only the second |
| IssueOnce.CutRunExact | internal/e2e/service.go:188-203 | a run that dies before the second phase leaves the stored map right exactly when none of its cases creates an issue |
| IssueOnce.CutRunRepeats | internal/e2e/service.go:188-203 | a run that dies before the second phase is followed by a second issue for the same case |
| IssueOnce.E2EService.ProcessFailures | internal/e2e/service.go:316-385 | issues are created for failed cases of the two categories that are not saved, in order, and entered in the map |
| IssueOnce.E2EService.ExecuteTask | internal/e2e/service.go:151-202 | the first phase keeps the saved map, the second replaces it by the extended one |
| IssueOnce.E2EService.SaveE2EResult | internal/store/sqlite_e2e.go:15-69 | one row per task whose id stays |
| IssueOnce.E2EService.UpdateE2ECreatedIssues | internal/store/sqlite_e2e.go:116-142 | only the row with the id gets the new map, and a missing row is an error |
| ReviewOnce.AtMostOneReview | internal/code/service.go:239-266 | over any runs none of which dies between enqueueing and marking, a review is enqueued successfully at most once per task, and the flag says whether |
| ReviewOnce.AtMostOneIff | internal/code/service.go:239-266 | over any runs, no task gets two reviews if and only if no run that is cut off with its task's flag unset, though it wants a review and reaches the queue, is followed by another run of the task that wants one and reaches the queue |
| ReviewOnce.AlwaysFlaggedIff | internal/code/service.go:239-266 | over any runs, the flag says all along whether a review was enqueued if and only if no run dies between enqueueing and marking |
| ReviewOnce.RunExact | internal/code/service.go:239-266 | a run keeps the flag right exactly when it is not cut off after enqueueing a review |
| ReviewOnce.CutRunRepeats | internal/code/service.go:242-266 | a run that is cut off there is followed by a second review |
| ReviewOnce.EnqueuesIffFirst | internal/code/service.go:242-266 | a run enqueues a review exactly when it wants one, the queue is reached and none was enqueued before for its task |
| ReviewOnce.RunExactly | internal/code/service.go:239-266 | the row and the review after any run: a review for a pull request of a run that succeeded, or failed only in its tests while such reviews are wanted, if the queue is reached and the flag was not set |
| ReviewOnce.OnlyTheFlagDecides | internal/code/service.go:403-417 | the pull request number that is compared was saved just before, so the comparison decides nothing |
| ReviewOnce.CodeService.FinishRun | internal/code/service.go:239-266 | persisting, asking, enqueueing and marking in this order; the result says whether enqueueing failed, unless the process died |
| ReviewOnce.CodeService.SaveCodeFromDocResult | internal/store/code_result.go:11-65 | saving a result again leaves the flag as it is |
| ReviewOnce.CodeService.UpdateReviewEnqueued | internal/store/code_result.go:117-131 | only the flag is written, and a missing row is an error |
| ChangeFilter.MatchFilesToModules | internal/queue/change_filter.go:199-228 | the nested loops over a map of lists compute the groups of the comprehension |
| ChangeFilter.GroupsInOrder | internal/queue/change_filter.go:220-226 | groups keep the order of the modules, and exactly the modules with files have one |
| ChangeFilter.FilesInOrder | internal/queue/change_filter.go:202-218 | a group holds exactly the files of its module, in their order |
| ChangeFilter.LandsIff | internal/queue/change_filter.go:199-228 | a file lands in some group exactly when it lies under a module or a root module is listed |
| ChangeFilter.GroupHoldsExactly | internal/queue/change_filter.go:199-228 | a group holds the files whose path goes on with a slash after the module's path, the root group those for which that holds of no other module |
| ChangeFilter.RootIsTheRest | internal/queue/change_filter.go:204-214 | the root group is not empty, holds exactly the files under no other module, and shares none with any other group |

## Left out

- Containers, prompts, notifications, labels, comments, logs, HTTP and command line: plumbing around the modelled state.
- Store failures: every store call succeeds; only the unique indexes refuse rows.  Free text columns and time stamps other than a round's completion are omitted.
- IterationHandlers.ResumeAfterWait: one look at the round after the wait; how often and for how long the code looks is not modelled, and what other handlers do meanwhile are steps of the machine.
- IterationProtocol.OpenKeeps: each write phase is one step of the machine that a crash can cut off after any write; races between two write phases are not modelled, for example the round update at internal/queue/enqueue_iterate.go:201-209 against a worker.
- IterationHandlers.RepairSucceededIterationState: decoding a stored output is one abstract function, although the review side and the worker decode with separate code.
- The candidate texts that are tried before brace extraction (internal/queue/enqueue_iterate.go:370-385), and the different extractor of internal/fix/prompt.go:413-437.
- TaskProtocol.StepKeeps: enqueueing and marking a record as queued is one step, and so is a handler's final write with the fate of its entry; a manual retry between the two parts of the latter is not modelled.
- TaskHandlers.FinishProcessing: how errors, exit codes and remaining attempts lead to one of the four outcomes (internal/queue/processor.go:420-580) is a free choice of the step.
- The queue's own retry counting, archiving and leases: an entry stays or goes as a free choice of each step, a retry always stays, and one handler at a time works on an entry.
- TaskExclusion.OneActivePerPlace: the conditions are sufficient, not necessary; the exact condition, for every run, is TaskPlaces.NeverTwoIff.
- "At most one active" for reviews and issues is not claimed, because their queries do not list retrying tasks.  gen_tests cancels before it enqueues.
- TaskSplit.PartsFill: scanning a repository for modules is a parameter, and the delivery ids made up for them are new and distinct.
- Empty delivery ids, for which the queue makes up its own ids; purging of old records; the check that keeps the project's own test branches from being reviewed (internal/queue/enqueue.go:752-786).
- IssueOnce.AtMostOneIssue: without a store nothing is remembered and the claim does not apply; screenshots and labels of issues are omitted.
- ReviewOnce.AtMostOneReview: without a result store every run enqueues.
- DiffRoundTrip.RoundTrip: names hold no line breaks, and are printed without the quotes git puts around unusual ones.
- Writeback.ApplyFilters: glob matching is an arbitrary predicate; a character that folds to one outside ASCII stays as it is, which no comparison of the code can see.
- Utf8Cut.TruncateString: the ellipsis is appended after the cut, so the tail of a degraded body may pass its limit by three bytes; no bound for the whole degraded body is claimed.
- QuoteRepair.ScannerMeetsGrammar: numbers and literals of the grammar are any characters without white space, quotes and punctuation, a superset of RFC 8259.
- Cloning of configurations, report paths, hashing and regular expressions.
