# Verified model of the test runtime

A Dafny model of how the test runtime records a student's answers and turns them into attempts, and
proofs of what that machinery guarantees over every input and every run. `dafny verify dfyconfig.toml`
checks all of it.

The model has four parts.

**Answer replication.** `TelemetryQueue.dfy` is the client's telemetry queue as a class, cut at its
await points: each method is one synchronous stretch of code, proved against a function on the queue's
state (`QueueState.dfy`). `Actions.dfy` holds the collapse of pending snapshots, `Backoff.dfy` and
`Retries.dfy` the retry schedule, alone and while the page goes on queueing, `Drains.dfy` waking, draining
and what the page sees of it, `Snapshots.dfy` the three UPSERT statements of the server and `LateOrder.dfy`
what the arrival order of late snapshots decides. `Replication.dfy` joins one hydrated queue, a network that loses
acknowledgements, delays and duplicates requests, and the rows of a live session into a step system.
`Convergence.dfy` and `Limits.dfy` prove exactly which answers reach the server, over every run and from
any store; `Dormancy.dfy` and `LostAcks.dfy` what a rejected cookie, a restarted counter and a lost
acknowledgement do, and `Boot.dfy` what is lost while the queue is still loading. `VisitAccounting.dfy` is
the runtime that produces the snapshots, cut at its await, with its visit counts; `Entries.dfy` says when it
shows and queues what was entered, and `TimeAccounting.dfy` what its time deltas add up to.

**Session lifecycle and submit.** `SessionTables.dfy` gives each SQL statement or transaction as one
atomic step on the tables. `SessionStore.dfy` is the service as a class whose methods are proved to have
those effects; `VisitRanking.dfy`, `Grading.dfy` and `AttemptNumbering.dfy` say what a submit computes.
`SessionProtocol.dfy` lets any number of requests interleave, each keeping what it read at its start,
however stale; `SessionSafety.dfy` proves the invariant of every step, `SessionRuns.dfy` what follows for
whole runs and `SerialRequests.dfy` what each request does on its own. `JointSystem.dfy` runs page, queue,
network and service as one system, and `GradedAnswers.dfy` says what that means for the attempts: when what a student last entered is what is
graded, and how one violation can submit a test.

**Decimal answers.** `Digits.dfy` and `Decimals.dfy` model normalisation to a canonical decimal text with
the sign handling of decimal.js written out, `NumericInput.dfy` and `NumIntRange.dfy` the keypad and
paste filter that feeds it, `Typing.dfy` and `Pasting.dfy` exactly what gets in through it.

**Figure tokens.** `Base64Url.dfy` and `FigureToken.dfy` model the token codec, signing, verification and
the grace window of the previous secret, with the MAC and the key derivation as arbitrary functions.

## Where the code differs from what is said about it

The model follows the code; these are proved, not only observed.

- A comment in the queue calls the reset of attempt counts after a collapse harmless
  (frontend/src/lib/telemetry-queue.ts:264-268). The collapse itself is not, when it happens during a
  dispatch: the positional shift after the POST (lines 327-328) then removes an action that was never
  sent. `Limits.ConvergedIffNeverShifted` gives the exact condition over whole runs,
  `Limits.AppendDuringDispatchIsSafeIff` at the append, `Dormancy.LostAnswer` one schedule in full.
- `enqueueSnapshot` is documented to return the sequence number used (line 222). It returns the counter
  as it stands after the save; `Dormancy.ReportedSeqIsOwnIff` says when the two agree.
- The counter restarts from the stored queue, although rows on the server keep their numbers. A later
  incarnation's answers then reach a row only if the row is behind them: `Convergence.NewestIsCarriedIff`
  for every run, `Dormancy.RestartedCounterTakesEffectIff` for the shortest one.
- A late snapshot raises a row's sequence number without carrying a mark, and creates a row with one
  visit. `LateOrder.MarksConvergeIff` and `LateOrder.VisitsConvergeIff` say exactly when mark and visits
  depend on the arrival order.
- A save writes its copy back after its await, so a return to the slot during the save is forgotten and
  queued visit counts can fall: `VisitAccounting.NavigationIsSafeIff`.
- The same continuation writes the saved answer and mark back. An answer entered while an earlier save of
  its slot is under way can be replaced by the earlier one, which the next save then queues as the newest:
  `Entries.OldAnswerComesBack`, with the exact condition in `Entries.EntriesAreKeptIff`.
- The runtime reports violations without waiting for `hydrate()` (RuntimeProvider.tsx:307-311). Either they
  or the stored queue are lost then: `Boot.EarlyActionSurvivesIff` and `Boot.StoredActionSurvivesIff`.
- The violation endpoint does not look at sequence numbers: a report whose acknowledgement is lost counts
  again, and one violation can submit the test: `GradedAnswers.OneViolationCanSubmit`.
- A patch that passed its liveness check before a submit may write after it. Rows then differ from what
  was graded; attempts never do: `SessionRuns.RowsFreezeIff` and `SessionRuns.StaleWriteMissesGrading`.
- Hint levels are meant to be revealed in sequence; two concurrent reveals of one level both count:
  `SessionRuns.RevealKeepsSequenceIff` and `SessionRuns.ConcurrentRevealsRepeat`.
- The row lock of a submit covers one session. Two sessions of one student keep attempts numbered only
  if their submits are serial or share no question: `AttemptNumbering.StaleBatchNumberedIff`.
- An integer field stays within its range only if the range contains 0 or is empty:
  `NumIntRange.ReachableValuesInRangeIff`.
- A paste is documented to report whether anything was dropped (frontend/src/lib/numeric-input.ts:111-115).
  Minus signs that do not come first and dots after the first go unreported: `Pasting.PasteKeepsDigits`.
- A failed dispatch adds one to the count it started from and stores that at the head, whichever action is
  there by then (frontend/src/lib/telemetry-queue.ts:323-352): `Retries.FailureChargesWhoeverIsHead`.
- START gives a session that has no deadline the moment itself as its deadline
  (backend/src/test-sessions/test-sessions.service.ts:337-345), which ends it for late batches:
  `SessionRuns.WithoutDeadlineLiveUntilStart`.
- The client sends `selected_option`, or option numbers, where grading expects letters in
  `selected_options`: `Grading.ClientChoicesNeverMatchLetters`.
- The backend collapses a negative zero by pattern, the frontend by comparison with a printed zero.
  They always agree, although a comment (backend/src/lib/numeric.spec.ts:119-121) still says that the
  frontend emits "-0": `Decimals.NormalizeIsCanonical`.

## Model

| member | source | states |
|---|---|---|
| Snapshots.DeliverSimulatesViews | backend/src/test-sessions/test-sessions.service.ts:395-415 | inserting a row means the same as updating an untouched one: patches and hint reveals act on the row's view alone |
| Snapshots.RowMeansItsDeliveries | backend/src/test-sessions/test-sessions.service.ts:395-498 | after any patches and hint reveals a row holds the answer and mark of a patch with the highest sequence number, the greatest visit count, the sum of clamped deltas and the number of hints |
| Snapshots.PatchesAndHintsConverge | backend/src/test-sessions/test-sessions.service.ts:395-498 | any permutation of patches and hint reveals with distinct sequence numbers leaves the same answer, mark, visits, time, hints and sequence number |
| Snapshots.AllDeliveriesConvergeOnContent | backend/src/test-sessions/test-sessions.service.ts:997-1014 | with late snapshots mixed in, answer, time, hints and sequence number still do not depend on the order |
| LateOrder.MarksConvergeIff | backend/src/test-sessions/test-sessions.service.ts:395-1014 | every arrival order of patches, reveals and late snapshots leaves the same mark if and only if the newest one above the stored number is a patch, or no patch above it carries another mark than the stored one |
| LateOrder.LateSnapshotsMakeMarkOrderDependent | backend/src/test-sessions/test-sessions.service.ts:1008-1014 | one failing input: a patch and a late snapshot whose two orders end in different marks |
| LateOrder.VisitsConvergeIff | backend/src/test-sessions/test-sessions.service.ts:486-1014 | every arrival order leaves the same visit count if and only if a row is there already, nothing late or only late snapshots arrive, or a patch brings a visit |
| LateOrder.LateSnapshotsMakeVisitsOrderDependent | backend/src/test-sessions/test-sessions.service.ts:486-1014 | one failing input: whether a reveal or a late snapshot creates the row shows in its visits |
| Snapshots.RedeliveryOnlyAddsTime | backend/src/test-sessions/test-sessions.service.ts:400-415 | redelivering a patch, after any other traffic, adds its clamped time again and changes nothing else |
| Snapshots.RowRecordsWrites | backend/src/test-sessions/test-sessions.service.ts:395-1014 | beside the view a row records the instant of its latest write, whatever kind it was, the question it was created for and every revealed level in order |
| Actions.CollapseSnapshots | frontend/src/lib/telemetry-queue.ts:102-114 | the two passes over the pending list drop exactly the snapshots that a later one of their slot replaces |
| Actions.CollapseSelects | frontend/src/lib/telemetry-queue.ts:110-113 | the result is the subsequence of exactly the surviving positions, in their old order |
| Actions.CollapseKeepsViolations | frontend/src/lib/telemetry-queue.ts:111 | every violation survives, in order |
| Actions.CollapseLeavesOnePerSlot | frontend/src/lib/telemetry-queue.ts:102-114 | at most one snapshot per slot is left |
| Actions.CollapseIdempotent | frontend/src/lib/telemetry-queue.ts:102-114 | collapsing twice is collapsing once |
| Actions.CollapseKeepsNewest | frontend/src/lib/telemetry-queue.ts:101-114 | what is left of a slot is exactly its last snapshot |
| Actions.LastSnapshotDecides | backend/src/test-sessions/test-sessions.service.ts:399-414 | of a rising list of one slot's snapshots the last one decides answer, mark, sequence number and, when counts never fall, visits |
| Actions.CollapsePreservesMeaning | frontend/src/lib/telemetry-queue.ts:101-114 | sending the collapsed queue at any times, instead of everything at any times, leaves the same answer, mark, sequence number and visits in every slot, and never more time |
| QueueState.HydratedIsValid | frontend/src/lib/telemetry-queue.ts:195-203 | a hydrated queue has its counter at or above every stored sequence number and, if not empty, its timer armed |
| QueueState.CollapseCovers | frontend/src/lib/telemetry-queue.ts:258-264 | whatever was pending stays pending or is overtaken by a newer snapshot of its slot |
| QueueState.AppendKeepsValid | frontend/src/lib/telemetry-queue.ts:258-273 | an append keeps attempts parallel to pending, sequence numbers rising, one snapshot per slot, and loses nothing but overtaken snapshots |
| QueueState.AppendResetsCountsIff | frontend/src/lib/telemetry-queue.ts:258-269 | every queued action keeps its attempt count and the new one starts at none, unless a snapshot of the same slot is queued: then that one is replaced and all counts are forgotten |
| QueueState.ShiftKeepsValid | frontend/src/lib/telemetry-queue.ts:325-353 | so does each outcome of a dispatch |
| QueueState.DrainKeepsValid | frontend/src/lib/telemetry-queue.ts:211-215 | so does each wake-up, and no step leaves a waiting queue without a wake-up call |
| TelemetryQueue.ReduceToHighestSeq | frontend/src/lib/telemetry-queue.ts:197-200 | the fold over the stored actions yields their highest sequence number, 0 if there is none |
| TelemetryQueue.TelemetryQueue.Hydrate | frontend/src/lib/telemetry-queue.ts:195-203 | loads the stored queue, restores the counter from it, reports the depth, arms the drain if anything is pending |
| Boot.EarlyActionSurvivesIff | frontend/src/lib/telemetry-queue.ts:195-203 | what is queued before hydration has finished is still queued afterwards if and only if it was pending at the last save that reached the store before the load read it |
| Boot.StoredActionSurvivesIff | frontend/src/lib/telemetry-queue.ts:195-203 | what an earlier page stored is queued again if and only if no save of this page was faster than the load |
| Boot.EarlyViolationRaces | frontend/src/app/test/[sessionId]/RuntimeProvider.tsx:307-311 | the shortest case: a violation reported during the load is forgotten or replaces the stored queue |
| TelemetryQueue.TelemetryQueue.AppendAction | frontend/src/lib/telemetry-queue.ts:258-269 | push, collapse, and forget the attempt counts if anything collapsed |
| TelemetryQueue.TelemetryQueue.EnqueueSnapshot | frontend/src/lib/telemetry-queue.ts:223-237 | numbers the snapshot with the next counter value and appends it |
| TelemetryQueue.TelemetryQueue.EnqueueViolation | frontend/src/lib/telemetry-queue.ts:241-254 | the same for a violation |
| TelemetryQueue.TelemetryQueue.FinishAppend | frontend/src/lib/telemetry-queue.ts:238-273 | after the save: depth reported, drain armed, and the counter as it is by then handed back |
| TelemetryQueue.TelemetryQueue.TimerFires | frontend/src/lib/telemetry-queue.ts:308-310 | a fired timer starts a drain round unless one is running or the queue is dormant |
| TelemetryQueue.TelemetryQueue.TryDrainOnce | frontend/src/lib/telemetry-queue.ts:313-324 | one drain loop at a time, none while dormant |
| TelemetryQueue.TelemetryQueue.ContinueDrain | frontend/src/lib/telemetry-queue.ts:319-326 | the loop head: stop on an empty or dormant queue, otherwise dispatch the first action |
| TelemetryQueue.TelemetryQueue.OnDispatchSuccess | frontend/src/lib/telemetry-queue.ts:326-329 | a successful POST shifts both arrays by position |
| TelemetryQueue.TelemetryQueue.OnShiftSaved | frontend/src/lib/telemetry-queue.ts:329-335 | after that save the depth and the success are reported and the loop goes on |
| TelemetryQueue.TelemetryQueue.OnDispatchUnauthorized | frontend/src/lib/telemetry-queue.ts:342-350 | a 401 makes the queue dormant, cancels its timer, reports once and consumes nothing |
| TelemetryQueue.TelemetryQueue.OnDispatchFailure | frontend/src/lib/telemetry-queue.ts:352 | any other failure books one more attempt on the head |
| TelemetryQueue.TelemetryQueue.OnFailureSaved | frontend/src/lib/telemetry-queue.ts:353-368 | after that save the next drain is scheduled by the backoff table and the failure reported |
| TelemetryQueue.TelemetryQueue.Resume | frontend/src/lib/telemetry-queue.ts:211-215 | wakes a dormant queue and arms its drain if anything is pending |
| Backoff.RoundEffect | frontend/src/lib/telemetry-queue.ts:323-368 | one failing round keeps the queue's contents and order and charges the head alone |
| Backoff.BackoffAfterFailures | frontend/src/lib/telemetry-queue.ts:351-368 | after any number of failures in a row nothing queued has changed, the delay has climbed the schedule and stayed at its end, and the page was told from the head's fifth failure on |
| Retries.DelaysKeepClimbing | frontend/src/lib/telemetry-queue.ts:223-368 | over every run in which dispatches fail and nothing queued collapses, whatever is queued or triggered meanwhile: nothing queued moves, the n-th failure of the head waits 5, 10, 20, 40, then always 60 seconds, and is reported by its number, as an error of its slot from the fifth on |
| Retries.FailureChargesWhoeverIsHead | frontend/src/lib/telemetry-queue.ts:258-352 | a failure is booked with the count its dispatch started from, whatever was queued meanwhile; when the action in flight itself was replaced, on the action behind it |
| Drains.HydrationResumes | frontend/src/lib/telemetry-queue.ts:195-203 | a hydrated queue goes on where the stored one stopped: same actions and attempts, counter at the highest stored number, its head about to be sent |
| Drains.WakingSends | frontend/src/lib/telemetry-queue.ts:211-215 | waking a dormant queue changes nothing queued and sends the head at once |
| Drains.TimerAndPollSend | frontend/src/lib/telemetry-queue.ts:276-326 | whenever an awake queue is not draining, its timer and the polling before a submit both put the head on the wire, with the attempts it had |
| Drains.RoundEmptiesTheQueue | frontend/src/lib/telemetry-queue.ts:313-335 | one round empties a queue of any length: as long as every POST is acknowledged, everything is sent in order and nothing waits for the timer |
| Drains.PageSeesTheQueue | frontend/src/lib/telemetry-queue.ts:223-374 | over every run the page shows the true depth whenever no save is under way, and is told of exactly one success for every acknowledgement whose save has completed |
| Replication.RunsKeepQueueValid | frontend/src/lib/telemetry-queue.ts:223-374 | over every run, attempts stay parallel, sequence numbers rise strictly, no slot is queued twice, a waiting queue has a wake-up call |
| Convergence.NextIsSound | frontend/src/lib/telemetry-queue.ts:223-374 | every step, also a disturbing one, keeps: what was handed to the network is queued at the head, overtaken or processed, and a row carries what it did before the run or a newer sent snapshot |
| Convergence.NewestIsCarriedIff | frontend/src/lib/telemetry-queue.ts:195-374 | over every run, from any store and next to any rows: once a slot's newest snapshot has left the queue, its row carries it if and only if it already did, or the snapshot was handed to the network and the row was behind it |
| Convergence.EmptyQueueMeansConverged | frontend/src/lib/telemetry-queue.ts:223-374 | whatever is lost, repeated or rejected, and whatever the rows held before: if no snapshot was queued for the slot in flight, an empty queue means each row carries its slot's newest snapshot exactly when it was behind it or already carried it, and every violation was counted |
| Limits.ClobberingAppendDropsHead | frontend/src/lib/telemetry-queue.ts:259-263 | a snapshot queued for the slot in flight collapses the head away |
| Limits.ShiftDropsUnsentHead | frontend/src/lib/telemetry-queue.ts:327-328 | the shift after such a dispatch removes an action that was never sent |
| Limits.NeverSentIff | frontend/src/lib/telemetry-queue.ts:323-328 | over every run: what has left the queue without being overtaken was never sent if and only if the acknowledgement of another action shifted it out |
| Limits.ConvergedIffNeverShifted | frontend/src/lib/telemetry-queue.ts:195-374 | over every run, disturbed or not: once a slot's newest snapshot has left the queue, its row carries it if and only if it already did, or was behind it and no acknowledgement of another action shifted the snapshot out |
| Limits.AppendDuringDispatchIsSafeIff | frontend/src/lib/telemetry-queue.ts:258-328 | in every state an undisturbed run reaches, from any store: queueing a snapshot during a dispatch that then succeeds drops nothing unsent if and only if it is not for the slot in flight |
| Dormancy.UnauthorizedFreezesQueue | frontend/src/lib/telemetry-queue.ts:303-350 | from a 401 until resume, over every run: no dispatch, exactly one auth callback, every violation and each slot's newest snapshot still queued |
| Dormancy.ReportedSeqIsOwnIff | frontend/src/lib/telemetry-queue.ts:228-238 | the number handed back is the snapshot's own if and only if nothing else was queued during the save |
| Dormancy.RestartedCounterTakesEffectIff | frontend/src/lib/telemetry-queue.ts:195-203 | the shortest case of a restart, in full: on an empty store the first snapshot takes effect if and only if its row was behind 1 or already carried it |
| Dormancy.LostAnswer | frontend/src/lib/telemetry-queue.ts:258-328 | one schedule in full that empties the queue and leaves the older answer on the server |
| VisitAccounting.RuntimeClock.ComputeTimeDelta | frontend/src/app/test/[sessionId]/RuntimeProvider.tsx:400-408 | the seconds of the visit so far, at most a minute: never more than have passed, less than one dropped below the cap, none when the clock ran backwards; the next visit starts now |
| VisitAccounting.RuntimeClock.JumpTo | frontend/src/app/test/[sessionId]/RuntimeProvider.tsx:410-446 | marks the slot visited, counts the visit unless it was touched without a local snapshot, restarts the visit |
| VisitAccounting.RuntimeClock.SaveSnapshot | frontend/src/app/test/[sessionId]/RuntimeProvider.tsx:456-502 | a save up to its await: the edited local copy with its visit count, the queued body with its time delta, and the copy kept for the continuation |
| VisitAccounting.RuntimeClock.FinishSave | frontend/src/app/test/[sessionId]/RuntimeProvider.tsx:503-506 | the continuation writes that copy back over whatever the slot shows by then |
| VisitAccounting.SettledVisitsAreCounted | frontend/src/app/test/[sessionId]/RuntimeProvider.tsx:410-506 | as long as no slot is navigated to while one of its saves is under way, every slot shows exactly the visits made: one per first touch, by answer or navigation, and one per return |
| VisitAccounting.VisitsByInputs | frontend/src/app/test/[sessionId]/RuntimeProvider.tsx:410-483 | what counts as a visit, by the inputs alone: every jump to the slot, and one more if it was not touched before and is first touched by an answer |
| VisitAccounting.SettledCountsNeverFall | frontend/src/app/test/[sessionId]/RuntimeProvider.tsx:479-506 | and the counts queued for a slot never fall |
| VisitAccounting.NavigationIsSafeIff | frontend/src/app/test/[sessionId]/RuntimeProvider.tsx:410-506 | exactly then: at every point of such a run, the next input can make counts fall or visits go missing if and only if it navigates to a slot while one of its saves is under way |
| VisitAccounting.ReturnDuringSaveFalls | frontend/src/app/test/[sessionId]/RuntimeProvider.tsx:503-506 | the failing schedule: a return during a save, a save, the continuation, a save queues n + 1 and then n visits |
| VisitAccounting.LostReturnVisit | frontend/src/app/test/[sessionId]/RuntimeProvider.tsx:503-506 | the shortest lost visit: answer, leave and come back before the save completes; two visits, one shown |
| Entries.UnrevisedShowsEntered | frontend/src/app/test/[sessionId]/RuntimeProvider.tsx:456-506 | as long as no entry is changed while a save of its slot is under way, every slot shows the answer and mark entered for it, in whatever order saves complete |
| Entries.EntriesAreKeptIff | frontend/src/app/test/[sessionId]/RuntimeProvider.tsx:456-506 | exactly then: the next input can let an entry get lost if and only if it changes the answer or mark of a slot while one of its saves is under way |
| Entries.OldAnswerComesBack | frontend/src/app/test/[sessionId]/RuntimeProvider.tsx:503-506 | the lost answer, in full: answer, answer again before the save completes, mark; the first answer is shown and queued under the highest number |
| Entries.LastEnteredIsNewest | frontend/src/app/test/[sessionId]/RuntimeProvider.tsx:456-506 | in such runs the newest snapshot queued for a saved slot carries the last entered answer and mark, under a number above everything stored before |
| TimeAccounting.DeltaFits | frontend/src/app/test/[sessionId]/RuntimeProvider.tsx:400-408 | a delta drops less than a second of any visit up to a minute and is never more than the visit |
| TimeAccounting.DeltaCountsFromLastMoment | frontend/src/app/test/[sessionId]/RuntimeProvider.tsx:400-443 | time is booked on the slot it was spent on: after any inputs a save queues the whole seconds since the latest save or jump, of whichever slot, between none and sixty |
| TimeAccounting.DeltasFitTheWallClock | frontend/src/app/test/[sessionId]/RuntimeProvider.tsx:400-443 | for any saves and jumps under a monotone clock the deltas together fit into the time since mount |
| TimeAccounting.TotalGrowsByArrivals | backend/src/test-sessions/test-sessions.service.ts:387-406 | conservation: over any run the time of all rows grows by exactly the clamped deltas of the arrivals, repetitions included |
| TimeAccounting.ServerTimeFitsTheWallClock | backend/src/test-sessions/test-sessions.service.ts:387-406 | with a monotone clock and no action arriving twice, server time over all slots never grows by more than the wall clock since mount plus what was stored before it, under any interleaving of saves, jumps, collapses and retries |
| TimeAccounting.LostAckCountsTwice | backend/src/test-sessions/test-sessions.service.ts:406 | one lost acknowledgement makes a minute count as two |
| VisitAccounting.CollapseLosesNoVisits | frontend/src/app/test/[sessionId]/RuntimeProvider.tsx:479-506 | in such a run the collapsed queue leaves the same visit counts on the server as everything queued |
| VisitAccounting.FallingCountsLoseAVisit | frontend/src/lib/telemetry-queue.ts:101-114 | when counts do fall, the collapse loses the difference |
| LostAcks.ViolationsCountPerArrival | backend/src/test-sessions/test-sessions.service.ts:621-627 | over every run a violation is counted once per copy that arrives, not once |
| LostAcks.LostAcksRecount | backend/src/test-sessions/test-sessions.service.ts:621-627 | n lost acknowledgements of one report make the server count it n times, with the report still queued |
| VisitRanking.CompareIsTotalPreorder | backend/src/test-sessions/test-sessions.service.ts:756-763 | the comparator is a total preorder; its ties are equal times |
| VisitRanking.SortOrders | backend/src/test-sessions/test-sessions.service.ts:756-763 | sorting the rows stably is a permutation in strict order of time, nulls last, then slot |
| VisitRanking.RanksAreABijection | backend/src/test-sessions/test-sessions.service.ts:755-765 | visit indexes are a bijection from the rows to 1..n along that order |
| SessionStore.RankVisits | backend/src/test-sessions/test-sessions.service.ts:756-765 | the loop over the sorted copy maps each slot to its rank |
| Grading.ChoicesGradeBySetEquality | backend/src/test-sessions/test-sessions.service.ts:1394-1407 | equal size and one inclusion amount to equality of chosen and correct options |
| Grading.DecimalsGradeByRounding | backend/src/test-sessions/test-sessions.service.ts:1415-1421 | a decimal answer is correct if and only if both texts are numbers that round to the same value at the key's precision |
| Grading.CorrectExactlyWhen | backend/src/test-sessions/test-sessions.service.ts:1386-1431 | what is correct, for every question type and whatever is stored: no answer never is, nor any answer to a matching or fill-in question; choices need exactly the correct letters, integers the same leading integer, decimals the same rounded number |
| Grading.ParseIntReadsLeadingInteger | backend/src/test-sessions/test-sessions.service.ts:1408-1414 | an integer is read from a text exactly when the text starts with it, behind an optional sign |
| Grading.IntegersGradeByValue | backend/src/test-sessions/test-sessions.service.ts:1408-1414 | integer and single-digit answers from the keypad are graded by value; an empty field, a lone minus or a payload without a value is wrong |
| Grading.ClientChoicesNeverMatchLetters | frontend/src/lib/runtime-types.ts:119-120 | no payload the client builds for a choice question matches a key with a correct option |
| Grading.TypedDecimalIsCorrectIff | frontend/src/components/test-runtime/AnswerEntry/NumDecimalEntry.tsx:14-34 | from the keypad to the grade: whatever is typed and pasted into a decimal field with its key's precision, the answer sent is correct if and only if the field shows a number equal to the key rounded to that precision |
| AttemptNumbering.SubmitGradesTouchedSlots | backend/src/test-sessions/test-sessions.service.ts:736-923 | the batch of a submit is one attempt per touched slot with a known problem, in slot order, each graded, copied, ranked, put in its round and numbered behind the student's earlier attempts |
| AttemptNumbering.TouchedSlotsLeaveAttempts | backend/src/test-sessions/test-sessions.service.ts:872-922 | the batch has an attempt for a stored row if and only if the row was visited, answered or helped and its question is known, exactly one for each, in slot order; without an answer it is not correct |
| AttemptNumbering.SubmitKeepsNumbering | backend/src/test-sessions/test-sessions.service.ts:813-923 | a submit keeps every attempt numbered by its place among its student's attempts at its question |
| AttemptNumbering.OrdersAreGapFree | backend/src/test-sessions/test-sessions.service.ts:784-789 | in such a table the numbers of one student's attempts at one question are exactly 1..n |
| AttemptNumbering.OrdersNeverRepeat | backend/src/test-sessions/test-sessions.service.ts:784-789 | and each is used once, in order of writing |
| AttemptNumbering.StaleBatchNumberedIff | backend/src/test-sessions/test-sessions.service.ts:791-826 | a batch numbered against older counts keeps the numbering if and only if no attempt written since is at one of its questions |
| AttemptNumbering.ParallelSubmitsRepeatANumber | backend/src/test-sessions/test-sessions.service.ts:791-826 | one failing input: two sessions of a student numbered against the same table both write number 1 |
| SessionStore.InsertAttempts | backend/src/test-sessions/test-sessions.service.ts:813-923 | the loop with its prior counts and running per-question tally appends exactly the specified batch and returns its ids |
| SessionStore.InsertRow | backend/src/test-sessions/test-sessions.service.ts:886-922 | one written row extends table, ids and tally by exactly the next attempt of the batch |
| SessionStore.SessionStore.RunSubmitInTransaction | backend/src/test-sessions/test-sessions.service.ts:701-951 | not found, not owner, already submitted, or the batch, the rotation and the closing of the session in one step |
| SessionStore.SessionStore.LogViolation | backend/src/test-sessions/test-sessions.service.ts:618-657 | counts while open, falls back to the stale count otherwise, submits at the threshold, undoes the count if the submit fails |
| SessionStore.SessionStore.PatchRow | backend/src/test-sessions/test-sessions.service.ts:395-424 | the UPSERT changes one row of one session and nothing else, and a patch or reveal acts there on the row's view |
| SessionStore.SessionStore.LateSnapshots | backend/src/test-sessions/test-sessions.service.ts:982-1026 | records every entry, scores the in-range ones written while live |
| SessionStore.SessionStore.StartSession | backend/src/test-sessions/test-sessions.service.ts:341-346 | the START update reaches no session but an open one, and of that one only the two times |
| SessionSafety.ViolationEffect | backend/src/test-sessions/test-sessions.service.ts:618-657 | a violation counts by one, closes the session exactly on the third, and does nothing to a submitted session |
| SessionSafety.SessionIsClosed | backend/src/test-sessions/test-sessions.service.ts:925-940 | closing a session keeps the invariant of all sessions and the attempts of all others |
| SessionSafety.StartIsGood | backend/src/test-sessions/test-sessions.service.ts:329-346 | a START computed from a stale read never brings a session back to life |
| SessionSafety.NextIsGood | backend/src/test-sessions/test-sessions.service.ts:321-1026 | every step of every interleaving keeps the invariant and develops each session forward only |
| SessionProtocol.LivenessNeverReturns | backend/src/test-sessions/test-sessions.service.ts:998-1002 | along that development a session that is not live never is again |
| SessionRuns.ThresholdIsRespected | backend/src/test-sessions/test-sessions.service.ts:618-657 | in every reachable state the count is at most three, below three while open, and three means submitted by the threshold |
| SessionRuns.CommittedViolationsAreCounted | backend/src/test-sessions/test-sessions.service.ts:621-627 | the counter is the exact number of violation requests committed while the session was open |
| SessionRuns.StaleViolationIsHarmless | backend/src/test-sessions/test-sessions.service.ts:627-637 | the fallback to the stale count never submits and never writes |
| SessionRuns.OnlySubmitCloses | backend/src/test-sessions/test-sessions.service.ts:925-940 | a step that closes a session writes exactly the batch of that instant |
| SessionRuns.ExactlyOneBatch | backend/src/test-sessions/test-sessions.service.ts:673-951 | in every run, a closed session was closed by one event, and its attempts are the grading of its rows at that instant, ever after |
| SessionRuns.OpenMeansUnwritten | backend/src/test-sessions/test-sessions.service.ts:701-951 | a session nobody closed has no attempts |
| SessionRuns.SubmitIsFinal | backend/src/test-sessions/test-sessions.service.ts:723-734 | after a submit the session row, its attempts and their ids never change, and every further submit answers with them and writes nothing |
| SessionRuns.ResubmitAnswersTheSame | backend/src/test-sessions/test-sessions.service.ts:723-734 | a repeated submit gets the reply of the first, whatever ran in between |
| SessionRuns.SubmitAnswers | backend/src/test-sessions/test-sessions.service.ts:713-734 | on any tables: not found, not the owner's, the moment and source of the first submit, or now; a refused or repeated submit writes nothing |
| SessionRuns.ViolationIsAtomic | backend/src/test-sessions/test-sessions.service.ts:618-657 | on any tables: an owned session is submitted from the third violation on, and a refused submit undoes the count |
| SessionRuns.RowsFreezeWithoutStaleWrites | backend/src/test-sessions/test-sessions.service.ts:376-395 | rows of a submitted session can change only through a write checked before the submit; late batches never change them |
| SessionRuns.RowsFreezeIff | backend/src/test-sessions/test-sessions.service.ts:376-395 | they stay as they are in every continuation if and only if no such write is pending |
| SessionRuns.StaleWriteMissesGrading | backend/src/test-sessions/test-sessions.service.ts:376-395 | in every open session such a write does replace the stored answer while the attempts keep the old grading |
| SessionRuns.LateBatchScoresPrefix | backend/src/test-sessions/test-sessions.service.ts:982-1026 | under any concurrent submit, expiry or START the scored entries of a late batch are exactly the first k in-range ones |
| SessionRuns.LateEntryScoresIffLive | backend/src/test-sessions/test-sessions.service.ts:997-1025 | an in-range entry is scored if and only if the session is live at that instant, and then merges into its row latest-wins |
| SessionRuns.SerialLateBatchDelivers | backend/src/test-sessions/test-sessions.service.ts:982-1026 | a late batch without interference scores exactly the in-range entries whose instants find the session live, delivers those to their slots in order, and touches nothing else |
| SessionRuns.RunsNumberWithoutGaps | backend/src/test-sessions/test-sessions.service.ts:813-923 | after any run, each student's attempts at each question are numbered exactly 1..n |
| SessionRuns.TokenLivesUntilGraceEnds | backend/src/test-sessions/test-sessions.service.ts:1244-1250 | a token issued while the session was open is accepted until five minutes after the submit, and later only if the new secret gives the same MAC |
| SessionRuns.CurrentTokensAreAccepted | backend/src/test-sessions/test-sessions.service.ts:538-544 | a token under the current secret is accepted at every later time until a submit intervenes |
| SessionRuns.SecretRotatesOnce | backend/src/test-sessions/test-sessions.service.ts:925-940 | at any two moments of a run, submitted sessions show the same secrets and the previous one is that of every open moment |
| SessionRuns.LiveUntilItsDeadline | backend/src/test-sessions/test-sessions.service.ts:329-346 | whatever STARTs run, a session with a deadline is live exactly while open and before it, and until then the deadline does not move |
| SessionRuns.WithoutDeadlineLiveUntilStart | backend/src/test-sessions/test-sessions.service.ts:336-345 | over every run a session created without a deadline is live exactly until it is submitted or started |
| SerialRequests.SerialPatchIsWritten | backend/src/test-sessions/test-sessions.service.ts:368-424 | undisturbed, a patch is written if and only if the session is the student's, open, and has the slot; then the slot's row has received it and nothing else has changed |
| SerialRequests.SerialHintIsWritten | backend/src/test-sessions/test-sessions.service.ts:438-498 | the same for a hint, if besides that the level exists and is the one after those counted |
| SerialRequests.SerialStartIsWritten | backend/src/test-sessions/test-sessions.service.ts:321-346 | a START takes effect if and only if the session is the student's, open and not started: it starts now, keeps a deadline still ahead, and otherwise ends now |
| SerialRequests.SerialViolationIsCounted | backend/src/test-sessions/test-sessions.service.ts:604-657 | a violation reaches its transaction if and only if the session is the student's and open |
| SerialRequests.SerialLateBatchIsRun | backend/src/test-sessions/test-sessions.service.ts:971-1026 | a late batch is taken from the owner, before or after the submit, and run among ticks of the clock it is the serial batch entry by entry |
| SessionRuns.RevealKeepsSequenceIff | backend/src/test-sessions/test-sessions.service.ts:457-498 | over every run between its check and its write, a reveal of the next level keeps the levels 1, 2, 3, ... if and only if no other reveal of its slot is written in between |
| SessionRuns.SerialRevealKeepsSequence | backend/src/test-sessions/test-sessions.service.ts:438-498 | a reveal that nothing interrupts keeps the levels in sequence whatever level was asked for, and counts exactly when that level is the next existing one |
| SessionRuns.ForeignRequestsChangeNothing | backend/src/test-sessions/test-sessions.service.ts:1152-1173 | a request for another student's session, or for none, changes nothing |
| SessionRuns.ConcurrentRevealsRepeat | backend/src/test-sessions/test-sessions.service.ts:457-498 | two reveals that both read before either writes record the same level twice and skip the next |
| GradedAnswers.StoredAnswerIsGraded | backend/src/test-sessions/test-sessions.service.ts:872-922 | every stored answer to a known question has its attempt in the batch, with its grade, mark, time and visits |
| GradedAnswers.ClosedSessionReportsTouchedSlots | backend/src/test-sessions/test-sessions.service.ts:872-940 | the same of the attempts table, whichever event closes the session and whatever follows, each attempt under the slot's frozen question |
| JointSystem.ServedRowsAgree | backend/src/test-sessions/test-sessions.service.ts:368-657 | when a request of the page is written, the service does to the session's rows what the arrival does in the replication protocol, whatever has happened since its check |
| JointSystem.SystemReplicates | backend/src/test-sessions/test-sessions.service.ts:321-1026 | page, queue, network and service as one system, requests checked and written in separate steps among other traffic, before and after a submit, refine page and replication protocol: its runs are theirs, the session's rows are its rows throughout |
| GradedAnswers.CounterGrowsByArrivals | backend/src/test-sessions/test-sessions.service.ts:621-627 | over every run the session's counter grows by the copies of the page's violations written while it was open, the closing one included, and by what others reported |
| GradedAnswers.OpenAllAlong | backend/src/test-sessions/test-sessions.service.ts:621-627 | as long as the session is open, those are all copies that arrived |
| GradedAnswers.OneViolationCanSubmit | backend/src/test-sessions/test-sessions.service.ts:621-645 | a run of the whole system in which one report, its acknowledgement lost as often as violations are left but one, submits the test while still queued |
| GradedAnswers.CarriedAnswerIsGraded | backend/src/test-sessions/test-sessions.service.ts:872-951 | an answer carried by its row is what closing the session writes into the attempts table, whether a submit or the last violation closes it, for good |
| GradedAnswers.NewestSnapshotIsGraded | frontend/src/lib/telemetry-queue.ts:223-374 | over every run of the whole system: when any event closes the session, an attempt grades the newest snapshot queued for a slot, if that has left the queue, was not shifted out by another action's acknowledgement, and the row was not ahead of it |
| GradedAnswers.LastEnteredIsGraded | frontend/src/app/test/[sessionId]/RuntimeProvider.tsx:456-506 | from the keyboard to the grade: if no entry was changed during a save of its slot, no snapshot queued for a slot in flight, and the queue is empty when the session closes, then for every saved slot an attempt grades the last entered answer and records the last entered mark |
| Decimals.HalfEven | backend/src/lib/numeric.ts:30-76 | the rounded quotient is within half a unit, even on a tie |
| Decimals.RoundedIsTheNearest | backend/src/lib/numeric.ts:42-76 | rounding yields the unique nearest multiple, ties to even, for either sign |
| Decimals.RoundedIsMonotoneAndOdd | backend/src/lib/numeric.ts:42-76 | rounding is monotone and odd |
| Decimals.ParseCanonical | backend/src/lib/numeric.ts:32-35 | reading a canonical text gives back exactly the number printed |
| Decimals.CanonicalShape | backend/src/lib/numeric.ts:78-88 | canonical texts carry exactly the asked number of decimals, are distinct, and none is a negative zero |
| Decimals.NormalizeIsCanonical | frontend/src/lib/numeric.ts:22-44 | normalising prints the nearest-even value canonically, and the frontend mirror returns the same bytes and the same failures |
| Decimals.NormalizeRoundTrips | backend/src/lib/numeric.ts:42-89 | the result denotes the rounded number and normalising it again changes nothing |
| Decimals.ByteEqualIsEqualRounding | backend/src/lib/numeric.ts:105-114 | byte equality is equality of the rounded numbers and fails only on unparseable input |
| NumericInput.ApplyPaste | frontend/src/lib/numeric-input.ts:116-160 | the passes over a pasted text compute the specified cleaning, cut and range test |
| NumericInput.TruncateFraction | frontend/src/lib/numeric-input.ts:136-148 | the fraction is cut at the precision, or dropped with its dot where none is allowed |
| NumericInput.KeyStaysInLanguage | frontend/src/lib/numeric-input.ts:58-109 | every keystroke keeps the field an optional minus, digits, and at most `precision` decimals |
| Typing.KeyOutcome | frontend/src/lib/numeric-input.ts:58-109 | Clear and Delete empty the field, Backspace takes the last character; a digit, dot or minus is rejected exactly when the field stays as it is, and otherwise lengthens it by itself; other keys do nothing |
| Typing.KeyIsAcceptedIff | frontend/src/lib/numeric-input.ts:72-104 | a digit, dot or minus is accepted if and only if the longer value is one of the field's language and range and a dot has something in front of it |
| Typing.TypeableIff | frontend/src/lib/numeric-input.ts:58-109 | a value can be typed character by character with nothing rejected if and only if it is a field value that does not begin with its dot and, for integers, is in range from the first digit on |
| Typing.TypingEntersTheValue | frontend/src/lib/numeric-input.ts:58-109 | typing such a value leaves exactly it in the field |
| NumericInput.PasteLandsInLanguage | frontend/src/lib/numeric-input.ts:116-160 | every paste lands there, from any text |
| Pasting.PasteKeepsDigits | frontend/src/lib/numeric-input.ts:116-160 | any pasted text, by its digits alone: the sign that comes first, the digits before the first dot and the first `precision` of those behind it, in order; an integer out of range empties the field; and exactly what is reported as lost |
| Pasting.PasteCutsTowardZero | frontend/src/lib/numeric-input.ts:136-148 | a decimal is pasted with its value cut toward zero by less than a unit of the field's last decimal, and reported as cut exactly when it has more decimals |
| NumericInput.TypingStaysInLanguage | frontend/src/lib/numeric-input.ts:58-160 | so does any sequence of keys and pastes |
| NumericInput.LanguageDenotes | frontend/src/lib/numeric-input.ts:58-160 | a field value is a number exactly when it holds a digit |
| NumericInput.DisplayShowsRounded | frontend/src/lib/numeric-input.ts:163-173 | the display shows the canonical text of the number rounded half to even, of exactly the texts that are numbers |
| NumericInput.TypedValueSurvivesNormalising | frontend/src/lib/numeric-input.ts:163-173 | whatever number the keypad produces keeps its value when normalised at the field's precision |
| NumericInput.FieldValuePastesAsIs | frontend/src/lib/numeric-input.ts:116-160 | a field value is pasted unchanged unless outside the integer range |
| NumericInput.PasteIdempotent | frontend/src/lib/numeric-input.ts:116-160 | pasting the result of a paste changes nothing and reports nothing dropped |
| NumIntRange.RangeTests | frontend/src/lib/numeric-input.ts:36-41 | the range checks of a keystroke and of a paste agree with the integer range |
| NumIntRange.TypingStaysInRange | frontend/src/lib/numeric-input.ts:58-160 | with 0 in the range, keys, Backspace and pastes keep the field empty, a minus, or an integer of the range |
| NumIntRange.LeadingZeroEscapes | frontend/src/lib/numeric-input.ts:64-66 | with 0 outside a range that is not empty, a paste and backspaces leave it |
| NumIntRange.ReachableValuesInRangeIff | frontend/src/lib/numeric-input.ts:58-160 | every reachable value is in range if and only if the range contains 0 or is empty |
| Base64Url.DecodeUndoesEncode | backend/src/lib/hmac-token.ts:68-82 | decoding undoes encoding for every byte string |
| Base64Url.EncodedCharacters | backend/src/lib/hmac-token.ts:68-74 | encoded text uses the url-safe alphabet only and is empty only for no bytes |
| Base64Url.EncodingIsBase64 | backend/src/lib/hmac-token.ts:68-74 | the text is the bytes as one number in base 64, most significant digit first, in the url-safe alphabet, with zero fill bits and no padding |
| FigureToken.SignedTokenShape | backend/src/lib/hmac-token.ts:84-107 | signing succeeds exactly for a configured pepper, slots up to 1000 and figures up to 100; the token has one dot, before it slot, bar and figure, behind it the MAC of that text under the derived key |
| FigureToken.TokensNameTheirPair | backend/src/lib/hmac-token.ts:98-107 | equal tokens name the same slot and figure, whatever the secrets |
| FigureToken.VerdictOnSigned | backend/src/lib/hmac-token.ts:120-174 | the verdict on any signed token under any secrets and any expected pair |
| FigureToken.SignThenVerify | backend/src/lib/hmac-token.ts:156-173 | a token signed under the current or a non-empty previous secret verifies with its own pair |
| FigureToken.AcceptedIffIssued | backend/src/lib/hmac-token.ts:98-174 | of the canonical tokens for a pair exactly those are accepted that the signer issues under the current or a non-empty previous secret |
| FigureToken.IssuedIsCanonical | backend/src/lib/hmac-token.ts:98-107 | every issued token is canonical |
| FigureToken.FigureCheckNeverMismatches | backend/src/test-sessions/test-sessions.service.ts:524-553 | the endpoint never reports a slot or figure mismatch and accepts only slots of the session |
| FigureToken.CheckOnSigned | backend/src/test-sessions/test-sessions.service.ts:524-553 | the endpoint's verdict on any signed token at any time |
| FigureToken.PayloadIsParsedIff | backend/src/lib/hmac-token.ts:143-150 | a payload names a pair if and only if its text is digits, a bar and digits, and the pair is their values |
| FigureToken.EveryVerdict | backend/src/lib/hmac-token.ts:120-174 | the verdict on every token whatsoever, with its reason: form first, then the MAC, the slot, the figure |
| FigureToken.EveryCheckVerdict | backend/src/test-sessions/test-sessions.service.ts:513-553 | the endpoint's verdict on every token: form, the MAC under the current secret or for five minutes the previous one, the session's bounds |
| FigureToken.SigningErrors | backend/src/lib/hmac-token.ts:84-107 | why signing fails, in order: pepper, slot, figure; without a pepper nothing is accepted |

## Left out

- Nest, Prisma, HTTP status codes, response padding, audit rows, React rendering and IndexedDB; only the atomic database steps and abstract time remain.
- Session creation, dashboards, results, marking schemes, the importer, auth sessions, anti-cheat listeners: separate features that these properties do not touch.
- Persistence failures: saving and loading the queue always succeed, callbacks do not throw.
- `clear()` of the queue, which breaks the parallel arrays when a dispatch then fails, and the timing of `drainAndWait`.
- Convergence.EmptyQueueMeansConverged: speaks of one incarnation of the queue and an open session; the rows it starts from are arbitrary.
- `client_timestamp_ms`, `hints_used` in bodies and the violation acknowledgement, which the server-side merge does not read.
- JointSystem.SystemReplicates: other traffic leaves the rows of the page's session alone; late batches and a second tab writing the same rows are the subject of SessionRuns. Hydration is over when a run starts.
- Boot.EarlyActionSurvivesIff: ends where the load returns; a dispatch still in flight then would shift the loaded queue. A save writes the queue as it is when it reaches the store.
- The reads at the head of a request (session, stored hint count, problem) are one step; its writes are separate steps.
- `now()` of a statement is the instant of its step. A database takes it when the transaction begins, before it waits for a lock.
- Attempt ids are positions in the table; gaps that rolled-back inserts leave in a sequence are not modelled.
- `round_at_time` is a map from student and fingerprint, without the joined key the code builds for it.
- HMAC, HKDF and random secrets: arbitrary functions and values. A digest and a new secret are assumed not to be empty.
- Decimal exponents, hexadecimal literals, numbers passed as doubles, and the digit limits of decimal.js: values are plain decimal texts.
- `parseInt` of texts with leading blanks, and integers too large for a double.
- `Buffer.from(_, "base64")` stops at padding inside a text; the model skips characters outside the alphabet.
- SessionStore.SessionStore.LateSnapshots: runs the batch over time but without interference; SessionRuns.LateBatchScoresPrefix and SessionRuns.LateEntryScoresIffLive cover all interleavings.
- Stale React closures: a save reads the local snapshots as the last input left them, not as the last render did; `hints_used` in them is not modelled.
- The submit latch of the page: exactly-once is the server's guarantee.
