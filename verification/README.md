# Conductress verification

A Dafny model of the stateful and algorithmic core of Conductress, a fleet of benchmark runners with a control
service. It verifies with `dafny verify dfyconfig.toml` (Dafny 4.11). All states, inputs and environment answers
are arbitrary; nothing is bounded.

What is modelled, one module per component:

- **Delivery, Runner, Queue, RowLog, Ladder**: a runner takes at most one remote task through claimed, imported,
  accepted and outcome pending. `Delivery` is a machine of atomic steps (journal write, queue file created or deleted,
  log append, reply of the control service) plus a crash that keeps only the disk. `Runner` is the process in its own
  imperative form: journal, queue, mailbox and boundary loop; a ghost trace shows each method to be a path of the
  machine, so every point where it can crash is a state of a run; a log of its exchanges with the control service says
  what each method does with each answer. `RowLog` is the append-only logs with the size of every row: a lookup reaches
  only the last 64 MiB. `Queue` is the queue directory. `Ladder` says what is sent after a refusal of
  the payload (HTTP 400, 413 and 422, sections 15.5.1, 15.5.14 and 15.5.21 of RFC 9110).
- **Json, Summary, BulkCandidates, OutcomeSize, TrimExtremes**: results as trees, the record without raw stacks, which
  values are bulk, trimming to a byte budget with a size field that measures itself, and the outcomes it handles badly.
- **TailReader, LogLookup**: backward chunked reading of line files, against a split of the whole file, and what a
  capped lookup finds of the rows of a log.
- **CpuSets, CpuPlacement, FewestGroups, CpuAllocator, Preferences, Reservation, ReservationEffect, ManagementCores**: CPU
  allocation per host, the greedy packing into cache groups, the runner's own reservation and exactly whom it moves.
- **RateSearch, RateSearchBounds, RateSearchWorst**: the climb-and-bisect search under arbitrary answers, and the most
  probes any answers can cost.
- **Calendar, Canary**: the daily canary scheduler over its two tables, interleaved with the rest of the control service.
- **SweepConfig, Schedule**: selectors, and which series queues next.
- **Cpulist**: printing, validating, parsing and counting CPU lists as text.
- **Sorting, Text**: stable sorting and decimal text, used by the others.

Where the code and its own documentation differ, the model follows the code and proves exactly when they agree:

- A file that opens with an empty line: `tail_lines` does not count it, although blank lines are documented as counted
  (`TailReader.AgreesWithAllLines`).
- Management CPUs are documented to move neither servers nor generators. On a host with one NUMA node a packed
  generator can move (`ReservationEffect.SingleNodeReservationMovesAGenerator`); servers that fit never do.
  `ReservationEffect.ReservationMovesNobodyExactly` says for every host and history when nobody moves.
- `max_probes` is documented as an upper bound; fractional multipliers can exceed it
  (`RateSearchBounds.FractionalClimbExceedsEstimate`). `RateSearchWorst.EstimateHoldsExactly` says when it is one.
- A finished task can run again after a crash in just two cases: its queue file was not deleted yet when the outcome was
  already staged, or its rows are out of reach of the lookup (`Delivery.CrashIsSafeExactlyWhenSettled`). While a task
  runs, the second is the case exactly when the row it just wrote is larger than the 64 MiB a lookup reads
  (`Delivery.ReadableExactly`). Runs reach both (`Delivery.WindowIsReachable`, `Delivery.OversizedRowIsStartedAgain`).
- A crash wedges the runner exactly between dropping the file of a refused accept and clearing the slot
  (`Delivery.LossWedgesExactly`, `Delivery.WedgedForGood`), and a run does (`Delivery.WedgeIsReachable`); without one
  there, the two exceptions about a missing queue file are never raised (`Delivery.FilesAreKept`).
- After a restart the staged outcome says completed exactly when a result row is found and the envelope still loads
  (`Delivery.RestartStagesMatchingOutcome`); a run that reports failed with the result row in reach is
  `Delivery.UnloadableTaskReportsFailure`.
- `count_cpu_list` is documented as the number of CPUs; a range that runs backwards counts as less than nothing
  (`Cpulist.CountAgreesExactly`).
- `sent_bytes` is one below the true size exactly when the size before settling is within its own number of digits of a
  power of ten (`OutcomeSize.SentIsNearlyExact`); every budget has such an outcome
  (`TrimExtremes.RecordedSizeCanFallShort`).
- `trim_outcome` raises exactly when a deletion walks into the delivery record that replaced its place
  (`OutcomeSize.TrimOutcome`); every positive budget has such an outcome (`TrimExtremes.ForeignRecordRaises`).
- A result row whose outcome raises there kills the process, and every restart that still loads the envelope dies on the
  same row with the disk as it was (`Runner.Runner.Run`); every positive budget has such a row
  (`TrimExtremes.ForeignRowIsNeverStaged`).

Assumptions: local task files never carry the identity of a remote envelope; nobody else writes the logs; a dict holds
a key once and results share no subtrees; cache groups and NUMA nodes of a host are pairwise disjoint, as the host scan
produces them (src/conductress/server.py:219-230, src/conductress/server.py:251-271); floats are reals. A claim is
harmless exactly when no row of the claimed task is out of reach (`Delivery.ClaimIsSafeExactlyWhenReadable`), and it
always is when the control service hands out nothing it has accepted, as src/conductress/control/service.py:648-652
sees to (`Delivery.FreshClaimsAreClean`).

## Model

| member | source | states |
|---|---|---|
| Delivery.FinishedTaskIsNeverStartedAgain | src/conductress/runner_mailbox.py:110-178 | In every run that crashes only on a settled disk (no stale queue file, and a row of the journaled task, if any, within reach) and claims no task whose rows are out of reach, a remote task starts only with its acceptance in the journal and with no row of it anywhere in the logs |
| Delivery.ClaimIsSafeExactlyWhenReadable | src/conductress/runner_mailbox.py:196-215 | A claim keeps that guarantee for everything that can follow if and only if the rows of the claimed task, if any, are within reach |
| Delivery.FreshClaimsAreClean | src/conductress/control/service.py:648-652 | Every run that crashes only on a settled disk, and in which the control service hands out only tasks it has not accepted before, meets both conditions |
| Delivery.StartFindsNoRow | src/conductress/runner_mailbox.py:140-178 | Whatever crashes, a remote task whose file is not stale starts only with its acceptance in the journal and no row within reach |
| Delivery.CrashIsSafeExactlyWhenSettled | src/conductress/task_runner.py:346-347 | A crash keeps that guarantee for everything that can follow if and only if it leaves no queue file of a remote task whose outcome is staged or delivered, and a row of the journaled task, if any, within reach |
| Delivery.ReadableExactly | src/conductress/tail_reader.py:21-27 | While a remote task runs, the second half holds if and only if it has no row yet or its newest row in one of the logs fits into what a lookup reads |
| Delivery.UnreadableIsStartedAgain | src/conductress/runner_mailbox.py:140-178 | After a crash that leaves rows only out of reach, the restarted runner runs the task again |
| Delivery.OversizedRowIsStartedAgain | src/conductress/tail_reader.py:21-27 | A run writes a row one byte larger than what a lookup reads, crashes, and starts the same task again with the row on disk |
| RowLog.NewestIsFoundExactly | src/conductress/tail_reader.py:27 | The task whose row is the newest is found if and only if that row fits into what a lookup reads |
| LogLookup.LookupFindsExactly | src/conductress/tail_reader.py:30-112 | In the bytes of a log file, the lookup finds a row of the task if and only if one lies wholly within the last 64 MiB |
| Delivery.StaleOnlyInWindow | src/conductress/runner_mailbox.py:132-151 | Such files exist only between staging an outcome and deleting the file, and only for the task being staged |
| Delivery.StaleFileIsStartedAgain | src/conductress/runner_mailbox.py:118-120 | After a crash that leaves one, a restarted runner can run that task again as a local one |
| Delivery.WindowIsReachable | src/conductress/task_runner.py:345-347 | An ordinary run reaches that window with the row already on disk |
| Delivery.BlockedTaskIsNeverStarted | src/conductress/task_runner.py:272-292 | Wherever the process crashes, nothing starts while the slot holds a claimed or imported task |
| Delivery.SlotClearedOnlyWhenSettled | src/conductress/runner_mailbox.py:374-386 | The slot empties only right after a confirmed report, a refused accept, or the refusal of the final failure report, each for the task in the slot |
| Delivery.StageNeverGoesBack | src/conductress/runner_mailbox.py:153-174 | Within a delivery the task stays the same and the persisted stage never decreases |
| Delivery.ClaimsOnlyWhenIdle | src/conductress/runner_mailbox.py:180-215 | A claim is decided on only with slot and queue empty, and only a claim fills the slot |
| Delivery.RefusedOutcomeIsReplaced | src/conductress/runner_mailbox.py:388-430 | Over every run with crashes, a persisted downgrade offers another outcome than the refused one and lowers the rank |
| Delivery.RestartStagesMatchingOutcome | src/conductress/runner_mailbox.py:126-151 | After a restart with a row in reach, nothing starts until an outcome is staged, and it says completed if and only if the envelope still loads and a result row is found |
| Delivery.UnstagedRowKeepsSlot | src/conductress/runner_mailbox.py:138-145 | As long as no restart manages to stage an outcome for a row in reach, the slot keeps its task and nothing is started |
| Delivery.UnloadableTaskReportsFailure | src/conductress/runner_mailbox.py:126-136 | A run reaches a failed outcome for a task whose result row is in reach |
| Delivery.LossWedgesExactly | src/conductress/runner_mailbox.py:171-172 | The first loss of a run that leaves an imported task without its file is exactly one between dropping the file of a refused accept and clearing the slot |
| Delivery.WedgeIsReachable | src/conductress/runner_mailbox.py:165-172 | A run from an idle runner is lost there and wedges |
| Delivery.FilesAreKept | src/conductress/runner_mailbox.py:160-177 | Without a loss there, over every run, the file of an imported or accepted task is in the queue and neither exception about a missing file is raised |
| Delivery.WedgedForGood | src/conductress/runner_mailbox.py:160-162 | From there no restart starts anything or frees the slot while the envelope still loads |
| Delivery.StepKeepsInv | src/conductress/runner_mailbox.py:110-430 | What the journal, the queue and the latest reply must agree on holds after every step, crash included |
| Delivery.StepKeepsCleanInv | src/conductress/task_runner.py:308-352 | Without a crash on an unsettled disk every step keeps stale files inside the window, rows out of reach inside the execution of their task, and a running remote task the accepted one |
| Delivery.LivesCompose | src/conductress/task_runner.py:298-307 | A restarted process continues the run of the one before it |
| Runner.DeliveryJournal.UpdateActive | src/conductress/delivery_journal.py:61-65 | Changes the stage of the active task, raises without one |
| Queue.TaskQueue.GetNextTask | src/conductress/task_queue.py:303-328 | Hands out the first file by name if it loads, else sets just that one aside; nothing from an empty queue |
| Queue.TaskQueue.FinishTask | src/conductress/task_queue.py:330-351 | Deletes the file of the task; without one, one file whose document carries the same timestamp, if there is any |
| Queue.TaskQueue.RemoveTask | src/conductress/task_queue.py:369-378 | Deletes the file of the task and says whether there was one |
| Runner.Runner.DowngradeRejectedOutcome | src/conductress/runner_mailbox.py:388-430 | Persists just the next rung, or clears the slot if and only if the refused outcome is a failure report that already names a rejection |
| Runner.Runner.SendOnce | src/conductress/runner_mailbox.py:372-386 | One report of just the staged outcome: a confirmation clears the slot, HTTP 400, 413 or 422 puts the next rung there with the code, status and message answered, and every other answer, or none, leaves it and stops |
| Runner.Runner.Contact | src/conductress/runner_mailbox.py:83-100 | Every exchange with the control service goes into one log, with the answer it got |
| Runner.Runner.FlushPendingOutcome | src/conductress/runner_mailbox.py:354-386 | A pending outcome is reported at least once and at most three times (two for a failed one), the first time as it is, no two in a row alike, the next only after a refusal for good; the slot ends empty, and the call returns True, if and only if the last answer was a confirmation, or a refusal for good of a final failure report; any other answer leaves what was sent last; nothing is sent when nothing is pending |
| Runner.Runner.PreflightSize | src/conductress/runner_mailbox.py:274-292 | Within the budget, or with nothing to drop, the outcome itself; else cut at the first prefix of drops that fits, or with everything dropped; none exactly when trimming raises |
| Runner.Runner.StageSuccess | src/conductress/runner_mailbox.py:258-272 | Stages just what the size check makes of the completed outcome with the summary of the row, or of a record that names only the task, with an empty rejection list, or dies leaving the slot as it was exactly when the check raises |
| Runner.Runner.StageFound | src/conductress/runner_mailbox.py:138-151 | Stages completed for a result row, as the size check leaves its summary, else failed with the error of the failure row; when the size check raises for the row, whatever the time, it dies and leaves the slot as it was |
| Runner.Runner.StageFailure | src/conductress/runner_mailbox.py:319-330 | Stages a failed outcome with the given error, keeping the refusals of an outcome it takes the place of |
| Runner.Runner.FailUnloadableTask | src/conductress/runner_mailbox.py:332-352 | The first report is a failed outcome with the given error; it is delivered, and the queue loses just the file of the task |
| Runner.Runner.AcceptTask | src/conductress/runner_mailbox.py:160-174 | Asks once if and only if the file is there: confirmed means accepted and handed on, the three claim refusals mean file and slot are dropped, every other answer leaves both for later |
| Runner.Runner.Reconcile | src/conductress/runner_mailbox.py:110-178 | How it ends for every state of the slot: nothing for an empty one, one delivery for a pending outcome; for an envelope that does not load, or with a row in reach, one delivery whose first report is the failure with that error or the size-checked summary of that row, and the file dropped; otherwise imported and accepted as answered, and handed out if and only if the file is there; dies with the disk as it was on a row whose outcome cannot be trimmed |
| Runner.Runner.Poll | src/conductress/runner_mailbox.py:180-215 | After the recovery, asks for a task if and only if the slot and the queue are empty in live mode; a remote task offered is journaled and reconciled, nothing offered changes nothing |
| Runner.Runner.ChooseNext | src/conductress/task_runner.py:272-292 | Never returns a task while the slot blocks execution; with slot and queue empty in live mode it asks for a task; a path of the machine |
| Runner.Runner.IdleTurn | src/conductress/task_runner.py:309-325 | The same for the idle loop when it is time to poll |
| Runner.Runner.RunTask | src/conductress/task_runner.py:327-352 | Row, staging, file deletion, delivery in this order; for an owned task the first report says completed if and only if the task did not fail, with the summary of its row or the error it failed with; nothing is reported for others; afterwards just its file is gone; an exception while staging leaves the slot and the file |
| Runner.Runner.Run | src/conductress/task_runner.py:298-352 | Any number of turns of the loop is one path of the machine, so every crash point is a state the theorems speak of; a process started on a result row in reach whose outcome cannot be trimmed dies with the disk as it was, so no number of restarts frees the slot |
| Ladder.DowngradeStepsDown | src/conductress/runner_mailbox.py:388-430 | Every refusal strictly lowers the rank and yields another outcome, listing the refusal; the slot is cleared if and only if it was a failure report that already names a rejection |
| Ladder.StaysCompletedExactly | src/conductress/runner_mailbox.py:400-405 | A refused outcome is followed by a completed one if and only if it said completed, was never refused before, and holds a bulk value somewhere in its result |
| Ladder.ReducedKeepsTheRest | src/conductress/runner_mailbox.py:400-405 | That one is the same report without its bulk values: no other field changes, and every path outside the bulk values and the delivery record leads to the same value |
| Ladder.FailureReportFields | src/conductress/runner_mailbox.py:407-423 | Any other refused outcome is followed by a failure report of the task and the runner that names the refusal code and keeps the first 200 characters of an original error |
| Ladder.ReducedDiffers | src/conductress/runner_mailbox.py:400-405 | The reduced outcome still says completed, is another document, and cannot be reduced again |
| Ladder.FailedFields | src/conductress/runner_mailbox.py:412-420 | A failure report is a well-formed document with the given error and no result |
| Summary.SummaryKeepsTheRest | src/conductress/runner_mailbox.py:223-256 | The reported record is the result without its raw stack arrays at the three places that may hold them; every other path leads to the same value |
| BulkCandidates.Walk | src/conductress/outcome_size.py:81-90 | The recursive walk appends exactly the candidates below a node, under its path |
| BulkCandidates.WalkFindsExactly | src/conductress/outcome_size.py:72-94 | A path is listed if and only if it leads to an outermost list, dict or string under a bulk key, with its encoded size |
| BulkCandidates.WalkDistinct | src/conductress/outcome_size.py:72-94 | No path is listed twice |
| BulkCandidates.ListBulkCandidates | src/conductress/outcome_size.py:72-94 | The list holds exactly the candidates, bigger ones first and equally big ones by the text of their paths |
| BulkCandidates.CandidatesPrefixFree | src/conductress/outcome_size.py:75-77 | No candidate lies inside another |
| BulkCandidates.CandidatesStayValid | src/conductress/outcome_size.py:104-110 | After any selection of candidates is deleted, every other one still leads to its value and can be deleted |
| BulkCandidates.DeleteAllClears | src/conductress/outcome_size.py:122-127 | Deleting all of them leaves no bulk value anywhere |
| Json.DeleteFrame | src/conductress/outcome_size.py:104-110 | One deletion removes its subtree and changes no unrelated path |
| Json.DeleteAllFrame | src/conductress/outcome_size.py:158-163 | The same for a series of deletions |
| Json.WireBytesIsLength | src/conductress/outcome_size.py:59-65 | The size of a document is the length of its compact JSON text, escapes and surrogate pairs included |
| OutcomeSize.AttachRecord | src/conductress/outcome_size.py:141-156 | For any tree: the document names the size before settling less the zero plus its own digits, and its true size is that, or one more exactly when the digits written cross a power of ten |
| OutcomeSize.SentIsNearlyExact | src/conductress/outcome_size.py:152-156 | The recorded size is the true one, or one less exactly when the size before settling is within its number of digits below a power of ten |
| TrimExtremes.RecordedSizeCanFallShort | src/conductress/outcome_size.py:152-156 | For every budget there is a completed outcome over it that goes out with a recorded size one short |
| TrimExtremes.ForeignRecordRaises | src/conductress/outcome_size.py:104-110 | For every positive budget there is a completed outcome over it whose trimming raises |
| TrimExtremes.ForeignRowIsNeverStaged | src/conductress/runner_mailbox.py:258-292 | For every positive budget there is a result row whose completed outcome is never staged, whenever it is made |
| OutcomeSize.TrimOutcome | src/conductress/outcome_size.py:113-167 | Drops the shortest non-empty prefix of the biggest-first order whose measured size fits, else everything; returns the outcome unchanged when there is nothing to do; raises exactly when a deletion walks into the record that replaced its place |
| OutcomeSize.OwnRecordsNeverRaise | src/conductress/outcome_size.py:104-110 | It never raises for a result without a delivery record or with one this module wrote |
| OutcomeSize.TrimKeepsTheRest | src/conductress/outcome_size.py:113-130 | Everything outside the dropped paths and the delivery record is unchanged |
| OutcomeSize.AllDroppedLeavesNoBulk | src/conductress/outcome_size.py:122-125 | With everything dropped the result has no bulk candidates left |
| OutcomeSize.EarlyStopFits | src/conductress/outcome_size.py:158-161 | Stopping early leaves at most one byte over the budget |
| OutcomeSize.ShortestFit | src/conductress/outcome_size.py:158-161 | Every cut before the one chosen is really over the budget; without a budget everything is dropped |
| TailReader.TailLines | src/conductress/tail_reader.py:115-197 | For every file, n and chunk size: the last n lines, where a final newline adds none and an empty very first line is not counted |
| TailReader.AgreesWithAllLines | src/conductress/tail_reader.py:123-129 | That is the last n of all lines if and only if the file does not open with a newline or has more than n lines |
| LogLookup.LinesOfFile | src/conductress/tail_reader.py:171-177 | The lines of a file written line by line are those lines: the final newline opens no further one |
| LogLookup.LinesOfOpenFile | src/conductress/tail_reader.py:171-177 | The same when the last line has no newline yet |
| LogLookup.EveryFileIsLines | src/conductress/tail_reader.py:115-129 | Every file is of one of these two kinds |
| LogLookup.TailOfFile | src/conductress/tail_reader.py:115-197 | The tail of such a file is the last n of the lines written, without an empty very first one |
| TailReader.ChunkExtendsLines | src/conductress/tail_reader.py:167-183 | Splitting a chunk with the carried first line gives the lines of both together, so no line is lost or doubled at a cut |
| TailReader.CollectNewest | src/conductress/tail_reader.py:184-188 | The inner loop keeps the newest lines, one more than wanted |
| TailReader.FindRecordByTaskId | src/conductress/tail_reader.py:30-112 | For every file, cap and chunk size: the newest hit of a plain scan of the last bytes within the cap |
| TailReader.ScanNewestFirst | src/conductress/tail_reader.py:102-110 | Newest first, empty and unparsable lines skipped |
| LogLookup.NewestIsTheLastHit | src/conductress/tail_reader.py:30-112 | A scan comes back with a value if and only if some non-empty line has it and no later one is a hit |
| TailReader.WholeFileWithinCap | src/conductress/tail_reader.py:76-77 | With the file within the cap this is a whole-file scan |
| TailReader.CappedHitIsNewest | src/conductress/tail_reader.py:94-100 | Beyond the cap, a hit that is not the fragment at the window's edge is still the newest of the whole file |
| CpuPlacement.AllocateSingleCache | src/conductress/cpu_allocator.py:145-210 | One group when one suffices, else the largest groups first |
| CpuPlacement.SingleGroupIsTheBest | src/conductress/cpu_allocator.py:166-176 | A single group is taken whenever one suffices: the one sharing least with the CPUs to avoid, then the lowest number |
| FewestGroups.SingleCacheUsesFewestGroups | src/conductress/cpu_allocator.py:178-203 | No other set of as many free grouped CPUs touches fewer cache groups |
| FewestGroups.SingleCacheFailsOnlyWhenShort | src/conductress/cpu_allocator.py:196-210 | With topology present it gives up if and only if the groups together hold too few free CPUs |
| FewestGroups.LargestHoldMost | src/conductress/cpu_allocator.py:185-194 | Exchange: no choice of groups holds more than equally many largest ones |
| CpuPlacement.AllocateCacheAware | src/conductress/cpu_allocator.py:212-255 | Another NUMA node first, then other cache groups by number |
| CpuPlacement.CacheAwareIsIsolated | src/conductress/cpu_allocator.py:220-253 | Its result lies on one NUMA node, or in cache groups, that no CPU to be avoided touches |
| CpuPlacement.LargerGroupsAreUsedUp | src/conductress/cpu_allocator.py:178-195 | Over several groups, a group is used only once every group with more free CPUs, or as many and a higher number, is used up |
| CpuPlacement.LowerCachesAreUsedUp | src/conductress/cpu_allocator.py:238-253 | Away from other caches, a quiet group is used only once every quiet group with a lower number is used up |
| Preferences.CacheAwareExactly | src/conductress/cpu_allocator.py:212-255 | A placement away from others is found if and only if an untouched node has room, where any node will do, or the untouched cache groups have it together; an untouched node is preferred |
| Preferences.PackedExactly | src/conductress/cpu_allocator.py:121-124 | For a whole request: packing comes first, is granted whenever the groups hold enough, and no other choice of as many of their CPUs touches fewer groups |
| Preferences.KeptAwayWhenPossible | src/conductress/cpu_allocator.py:126-127 | Otherwise a request that prefers other caches gets isolated CPUs whenever there are enough |
| Preferences.ByNumberOtherwise | src/conductress/cpu_allocator.py:129-140 | Otherwise it gets the lowest-numbered free CPUs of its node, or the highest-numbered for interrupts and when asked for |
| CpuAllocator.SimpleIsByNumber | src/conductress/cpu_allocator.py:129-140 | Without a cache preference the lowest free CPUs, for interrupts and callers from the end the highest |
| CpuAllocator.CpuAllocator.RegisterHost | src/conductress/cpu_allocator.py:32-54 | Registers a host with no allocations; without a node map everything is node 0 |
| CpuAllocator.CpuAllocator.Allocate | src/conductress/cpu_allocator.py:100-143 | The whole new state of one call, the errors included; nothing changes on failure |
| CpuAllocator.CpuAllocator.Release | src/conductress/cpu_allocator.py:257-275 | Gives back exactly what the tag held, nothing for unknown tags |
| CpuAllocator.CpuAllocator.GetAvailableCount | src/conductress/cpu_allocator.py:283-302 | The free CPUs of the host, or of the node if it is known |
| CpuAllocator.AllocateIsExact | src/conductress/cpu_allocator.py:103-143 | For a fresh tag and known node: granted if and only if enough CPUs are free there, then exactly as many, all free and distinct |
| CpuAllocator.PoolExactly | src/conductress/cpu_allocator.py:106-119 | A request draws from exactly the CPUs of the host that nobody holds, on the required node if there is one |
| CpuAllocator.RefusalsAndNodes | src/conductress/cpu_allocator.py:100-119 | A request is refused for its tag if and only if that is in use, and then for its node if and only if the host has none of that number; CPUs granted on a node lie on it |
| CpuAllocator.AllocationsStayDisjoint | src/conductress/cpu_allocator.py:334-340 | Over any sequence of calls allocations stay disjoint, duplicate-free and on the host, and free plus allocated is everything |
| Reservation.ManagementNodeIsHighest | src/conductress/server.py:458-469 | Management CPUs are asked for on the highest-numbered node that is not the network's, or on any when there is no other |
| Reservation.ManagementTakesHighest | src/conductress/server.py:458-469 | They are the highest-numbered free CPUs there |
| Reservation.SecondNodeReservationMovesNobody | src/conductress/server.py:458-469 | On a host with a second node, management CPUs change no later answer on the network's node, for servers and generators alike |
| Reservation.SingleNodeReservationMovesNoServer | src/conductress/server.py:344-359 | On a host with one node, as long as the servers fit and only later allocations are released, each server gets the CPUs it would have had |
| ReservationEffect.SingleNodeReservationMovesAGenerator | src/conductress/server.py:461-464 | On an idle host with one node, with management CPUs reserved first, a server gets its usual CPU but a packed generator that still fits gets others |
| ReservationEffect.ReservationMovesNobodyExactly | src/conductress/runner_affinity.py:9-12 | For every host, network node and later history: all calls are answered as without the reservation if and only if no request would have got a reserved CPU and no packing into several cache groups changes its order |
| ReservationEffect.AnsweredAlikeExactly | src/conductress/cpu_allocator.py:103-143 | The same for one request, through the whole fallback chain, errors included |
| ReservationEffect.SingleCacheStays | src/conductress/cpu_allocator.py:166-210 | Packing with some CPUs gone gives the same answer if and only if it is undisturbed |
| ReservationEffect.GreedyUndisturbed | src/conductress/cpu_allocator.py:178-195 | The largest-first greedy gives the same CPUs if and only if those it takes stay and the partly taken group stays the largest of those left |
| ReservationEffect.CacheAwareStays | src/conductress/cpu_allocator.py:212-255 | A cache-aware placement that uses none of the CPUs gone is found again, and none appears where there was none |
| ManagementCores.ManagementCores.Acquire | src/conductress/runner_affinity.py:79-101 | Reserved and pinned with the printed list of exactly the granted CPUs, or unpinned with the allocator as before |
| ManagementCores.ManagementCores.Release | src/conductress/runner_affinity.py:103-114 | Frees the cores; a second call changes nothing |
| ManagementCores.GrantThenDrop | src/conductress/runner_affinity.py:91-96 | Giving back a fresh grant restores the host |
| RateSearch.RateSearch.AdvanceWith | src/conductress/rate_search.py:99-116 | One answer moves the fields and the next rate as specified |
| RateSearch.RateSearch.BisectNow | src/conductress/rate_search.py:118-126 | The next rate of the bracket, or the end |
| RateSearch.SearchKeepsBracket | src/conductress/rate_search.py:99-126 | Whatever the answers: lo is the maximum passed and hi the minimum failed rate, every passed rate below every failed one, none measured twice or above the maximum; it ends with just that bracket once the maximum passed or the bracket is within the tolerance, has no rate in between or the steps are used up, and goes on otherwise |
| RateSearch.NextRateExactly | src/conductress/rate_search.py:112-114 | The next rate of the climb is the greatest whole one within the multiple, but at least one more and at most the maximum |
| RateSearchBounds.BisectHalves | src/conductress/rate_search.py:118-126 | Each bisecting answer at least halves the bracket, rounding up, within the allowed number of steps |
| RateSearchBounds.ThresholdIsFoundExactly | src/conductress/rate_search.py:118-126 | With tolerance 0, enough steps and a threshold, the knee is exact |
| RateSearchBounds.ProbesWithinEstimate | src/conductress/rate_search.py:89-93 | For whole multipliers the probes never exceed the estimate |
| RateSearchBounds.ClimbInTimeSuffices | src/conductress/rate_search.py:89-93 | Nor do they for any multiplier whose truncated climb reaches the maximum in the estimated number of steps |
| RateSearchWorst.WorstIsExact | src/conductress/rate_search.py:99-126 | Every search ends; no answers cost more than the worst case computed from the parameters, and some cost just that |
| RateSearchWorst.EstimateHoldsExactly | src/conductress/rate_search.py:89-93 | The estimate bounds every search if and only if, at each climb step beyond the estimated ones, the steps it comes late and the bisecting after its failure fit into the bisecting steps allowed |
| RateSearchBounds.CeilLogIsLeast | src/conductress/rate_search.py:92 | The logarithm rounded up is the least number of multiplications that reaches the maximum |
| RateSearchBounds.FractionalClimbExceedsEstimate | src/conductress/rate_search.py:112-113 | From 1 by 1.9 to 10 the search takes six probes, one more than estimated |
| RateSearchBounds.ClimbIsGeometric | src/conductress/rate_search.py:112-114 | For every multiplier the climb stays above a geometric series before the cap |
| Canary.TaskIdsCoincide | src/conductress/control/canary_scheduler.py:44-46 | Two task IDs coincide if and only if the dates do and runner and profile read the same with a colon between |
| Canary.TaskIdInjective | src/conductress/control/canary_scheduler.py:44-46 | Runner IDs without a colon make task IDs injective |
| Canary.ColonsCollide | src/conductress/control/canary_scheduler.py:44-46 | With colons two schedule entries can share a task |
| Canary.CanaryScheduler.Tick | src/conductress/control/canary_scheduler.py:71-108 | A tick is one transaction for yesterday and one for today, in UTC of its time, per runner with a known profile, and reports exactly their actions |
| Calendar.DaysOf | src/conductress/control/canary_scheduler.py:81-83 | A date is today's exactly between its midnights and yesterday's exactly on the day after |
| Calendar.YearsInClosedForm | src/conductress/control/canary_scheduler.py:81-83 | Days are counted by the Gregorian rule: a leap day every four years, but not in centuries, but in every fourth |
| Canary.TickSettlesDay | src/conductress/control/canary_scheduler.py:71-108 | Any tick between a day's deadline and the end of the next day leaves that day with a row and no task in the queue, for every listed runner with a known profile |
| Canary.TickCreatesInWindow | src/conductress/control/canary_scheduler.py:71-108 | Any tick inside the window of a day without a row leaves a created row and its task, for every listed runner with a known profile |
| Canary.TickRecordsDay | src/conductress/control/canary_scheduler.py:71-108 | Any tick between the due time of a day and the end of the next leaves that day with a row |
| Canary.DeadlineLeavesAnHour | src/conductress/control/canary_scheduler.py:121-123 | With the hours the profile schema allows, that time is never shorter than an hour |
| Canary.TickTouchesTwoDays | src/conductress/control/canary_scheduler.py:71-79 | No tick touches the row or the task of a day before it begins or after the one that follows it |
| Canary.CanaryScheduler.EvaluateRunner | src/conductress/control/canary_scheduler.py:110-149 | One transaction changes both tables as specified |
| Canary.FreshDayExactly | src/conductress/control/canary_scheduler.py:139-149 | A look at a day without a row creates one if and only if it is due: inside the window a created one, with a queued task unless the ID is taken, after the deadline a missed one |
| Canary.KnownDayExactly | src/conductress/control/canary_scheduler.py:130-137 | A look at a day with a row changes something if and only if the row is a created one past its deadline with its task still queued, and then expires both |
| Canary.CanaryScheduler.CreateCanary | src/conductress/control/canary_scheduler.py:151-233 | A row for the day, and a queued task unless the ID is taken |
| Canary.CanaryScheduler.MarkExpired | src/conductress/control/canary_scheduler.py:258-294 | Cancels the queued task and marks the row |
| Canary.CanaryScheduler.MarkMissed | src/conductress/control/canary_scheduler.py:235-256 | A missed row without a task |
| Canary.AtMostOneTaskPerDay | src/conductress/control/canary_scheduler.py:151-204 | However transactions interleave, a runner, profile and date get at most one task |
| Canary.CreatedInWindow | src/conductress/control/canary_scheduler.py:139-149 | It is created only by a look inside the window, with no row before, hence never after a missed one |
| Canary.MissedIsFinal | src/conductress/control/canary_scheduler.py:130-146 | A missed day stays missed |
| Canary.OnlyQueuedTasksAreCancelled | src/conductress/control/canary_scheduler.py:131-137 | The scheduler changes a task only by queueing a new one or cancelling one still queued past its deadline |
| Canary.RowsMatchTasks | src/conductress/control/canary_scheduler.py:177-204 | Created and expired rows always name an existing task, the one of their key |
| Canary.PastDeadlineIsSettled | src/conductress/control/canary_scheduler.py:130-146 | A look past the deadline leaves a row and no task of that day in the queue |
| Schedule.TaskRunner.ScheduleNext | src/conductress/task_runner.py:377-427 | Asks the nightly series in epoch order, then the others by tier and urgency, until the queue holds something |
| Schedule.DecisionPicksTheRightSeries | src/conductress/task_runner.py:394-427 | It ends with the first allowed, unretired nightly series in epoch order that really queues; else with the one of the smallest tier, among those the most urgent, among those of the earliest epoch, among those the first registered; else nobody queues |
| Schedule.RankIsPlace | src/conductress/task_runner.py:354-375 | Epochs come in the order they are first listed in, and all unlisted ones together after them |
| Schedule.OnlyEligibleAreAsked | src/conductress/task_runner.py:390-411 | A paused, unfocused or retired series is never asked; a task already pending stops after one |
| Schedule.OrderedFacts | src/conductress/task_runner.py:354-375 | Unretired series by epoch precedence, unlisted epochs last, registration order within an epoch |
| SweepConfig.SelectorMeaning | src/conductress/sweep_config.py:41-71 | Every selector reads, up to blanks, as a workload or as an epoch, a colon and a workload; it picks that workload, or any when it names none or a star, in that epoch, or in all |
| SweepConfig.PauseReach | src/conductress/sweep_config.py:86-92 | Pausing a qualified workload leaves other epochs running, pausing the bare name stops all |
| SweepConfig.PausedByAny | src/conductress/sweep_config.py:86-92 | One matching selector among any others stops a workload, and nothing else does |
| SweepConfig.FocusReach | src/conductress/sweep_config.py:86-92 | Focus on a qualified workload runs it in that epoch only, on the bare name in all, and without a target nothing |
| Cpulist.FormatCpulist | src/conductress/runner_affinity.py:39-47 | The loop prints the ranges of the list |
| Cpulist.ParseCpulist | src/conductress/utility.py:384-394 | Validates, then expands and sorts, or refuses |
| Cpulist.ValidatesExactly | src/conductress/utility.py:367-381 | A list validates if and only if it is empty or, up to one final newline, begins with a digit and every dash or comma has a digit right after it |
| Cpulist.ParsedMeans | src/conductress/utility.py:384-394 | What a list parses to holds exactly the numbers its parts name, ascending |
| Cpulist.CountCpuList | src/conductress/utility.py:439-458 | Adds up the parts, none for what cannot be read or names nothing |
| Cpulist.CountAgreesExactly | src/conductress/utility.py:439-458 | On lists without a newline that parse, the count is the number of CPUs parsed if and only if there are any and no range runs backwards by more than one |
| Cpulist.RangesCover | src/conductress/runner_affinity.py:41-46 | The ranges expand to the list itself, in its order |
| Cpulist.PrintedListsReadBack | src/conductress/utility.py:367-394 | Printed lists validate, parse to the sorted list and count as their length, for every list but the empty one |

## Left out

- Queue.TaskQueue.GetNextTask: whether a file loads is an input; a corrupt file is deleted and an unsupported one renamed, both leave the queue.
- Mailbox statistics, status pushes, cancel requests and lease texts: written and read, but no step depends on them.
- The runner with fleet mode off is not a delivery; shadow mode is the model without claims.
- RateSearchBounds.ProbesWithinEstimate: is the case of whole multipliers, because truncation breaks it for fractional ones; `RateSearchWorst.EstimateHoldsExactly` and `ClimbIsGeometric` are what holds for all.
- Schedule.TaskRunner.ScheduleNext: a subscriber's flags, tier, urgency and whether it queues are fixed during one decision; sweep coordinators are not part of this model.
- Canary.CanaryScheduler.Tick: envelopes, audit rows and log lines are left out, and each transaction is one atomic step.
- Cpulist.ParseCpulist: `int` is modelled for ASCII text, not for other scripts' digits.
- TailReader.TailLines: returns lines as bytes; decoding them is one library call per line. A file that changes while it is read is left out.
- TailReader.FindRecordByTaskId: JSON parsing and the check of the task ID are one arbitrary partial function on lines.
- CpuAllocator.CpuAllocator.Allocate: CPU lists of groups are sets, since the code only uses them as sets.
- ManagementCores.ManagementCores.Acquire: whether pinning works and the previous mask are inputs; the process-wide launch mask is left out.
- JSON text itself: only the length of the compact encoding is modelled, with floats as opaque text.
- SSH, systemd, perf, HTTP transport, the control service's other tables, CLI, status export and dashboards.
