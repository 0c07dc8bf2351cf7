# LexVault: model and proofs

LexVault reviews legal case files.  Around its searches and model calls it keeps a number of
stateful protocols and exact algorithms; this project describes them in Dafny and proves what
they are for.

Tables are maps or sequences with the unique keys and cascades of the schema.  A transaction that
takes its lock first is one atomic step.  The others begin with their first write
(app/db.py:230-239): what they read before it is read in a step of its own wherever it can be out of
date by the time of the write (`ChatRequests`, `HumanTasks`, `CaseReports`, `CaseWalls`).  Code that
changes rows, lists or counters in place is a class with the same fields or a method with the same
loops, proved against a function of the values it read; the properties of whole runs are then proved
about these functions, over every interleaving of steps.  Whatever the outside world decides (a
sidecar's messages, a model's answer, a permission, the text of a document, the clock) is input, and
no assumption is made about it that is not named.  One is made throughout `HostProtocol` and
`ChatRequests`: the clock of the host does not go back.

| module | what it describes |
|---|---|
| `HostProjection` | the gap-checked event log of one host run, and its rebuild |
| `HostProtocol` | admission, cancellation, driving and the grants a sidecar process can obtain |
| `Planner` | the specialists a question calls for |
| `DomainGraph` | the saved graph of domain nodes, their receipts and composite effects |
| `ChatRequests` | idempotent chat turns: claim, commit, finish, purge and replay |
| `HistoryWindow` | the character-budgeted window of a conversation |
| `SpecialistSchedule` | the wave scheduler and the sequential one over the same plan |
| `TokenMetrics` | ROUGE-L, character and set F1 |
| `PairedTest` | pairing of attempts and the exact McNemar test |
| `Kappa` | Cohen's kappa |
| `CaseReports` | reports: freezing, approval, supersession, events |
| `HumanTasks` | tasks under version-guarded updates with stale readers |
| `CaseWalls` | information walls and break-glass grants |
| `BenchmarkRun` | a benchmark run that survives crashes, and its verifier |
| `CorrectionEdits` | replacement of quoted pieces of a sentence |
| `CanonicalCorpus` | one canonical corpus out of many source directories |
| `Placeholders` | the translation of query parameters for PostgreSQL |
| `Texts`, `Arithmetic`, `Wrappers` | texts and white space, exact quotients, optional values |

Where the code does not do what its documentation says, the model follows the code:

- A rebuild of a host run can reopen a finished request, so the admission limit of four can be
  exceeded (`HostProtocol.RebuildExceedsAdmission`; exactly then:
  `HostProtocol.LimitBreaksByRevivalOnly`).
- The comment at app/host_integration.py:244-246 says that no dispatch can exist for a queued
  request.  An inspection opens a session without taking the request out of the queue, and that
  session can be granted a start (`HostProtocol.InspectionServesQueuedRequest`; exactly then:
  `HostProtocol.QueuedIsServedByInspectionOnly`).
- After a fault the status of a host run is unknown until new events arrive, so a rebuild can
  differ from what the batches left (`HostProjection.RebuildEqualsBatches` has the condition).
- The age of a chat claim is taken from a stamp in whole seconds, and `commit` does not look at
  the row it overwrites; a worker that is punctual by its own clock can be late by the stored one
  (`ChatRequests.SubSecondDoubleCommit`; when a second commit happens:
  `ChatRequests.SecondCommitOverwrites`).
- The update that claims a failed, cancelled or stale chat request does not look at the row again,
  so two retries at once can both be granted it, and a delayed update takes a commit back
  (`ChatRequests.RacingRetriesBothAnswer`, `ChatRequests.DelayedUpdateTakesCommitBack`; exactly
  then: `ChatRequests.UpdateHarmsExactlyUntested`).
- An edit's piece "occurs once" when the non-overlapping count is one, which is the same in every
  text exactly for pieces that do not end as they start (`CorrectionEdits.AcceptedMeansOnce`; the
  shortest case: `CorrectionEdits.OverlappingPieceIsAccepted`).
- A benchmark plan that repeats a question finishes with a log the verifier refuses
  (`BenchmarkRun.RepeatedQuestionFails`; exactly then: `BenchmarkRun.FinishedRunVerifies`).

## Model

| member | source | states |
|---|---|---|
| `HostProjection.InsertAll` | app/host_integration.py:257-269 | storing a batch is refused exactly when some event is malformed or two different events compete for a sequence number or an event id; otherwise the table holds the old and the new rows and nothing else, so neither order nor repetition inside the batch shows |
| `HostProjection.RowsDetermineTable` | app/host_integration.py:264-269 | each stored sequence number has one event id and payload: a sound table is determined by its set of rows |
| `HostProjection.StoreEvents` | app/host_integration.py:257-269 | the insertion loop does what `InsertAll` says, including its refusals |
| `HostProjection.Top` | app/host_integration.py:271-279 | the cursor reached by the replay is the end of the gap-free stretch: everything up to it is stored and the next number is not |
| `HostProjection.Consume` | app/host_integration.py:270-279 | the replay loop stops at the first gap, refuses to move away from a final status, and otherwise returns the last number and its status |
| `HostProjection.ProjectRun` | app/host_integration.py:251-283 | a projection commits the grown table, the end of the gap-free prefix and its status, or is refused and commits nothing |
| `HostProjection.StepKeepsRunOk` | app/host_integration.py:251-283 | over batches, faults, dispatches and queue moves the cursor stays the length of the contiguous prefix 1..cursor and the status the one its last event left, unless a fault hid it |
| `HostProjection.NothingRegresses` | app/host_integration.py:270-279 | outside a rebuild a final status stays, the cursor never falls back and a stored number keeps its event |
| `HostProjection.SteadyTerminal` | app/host_integration.py:277-278 | once a final status is in force every later replayed event repeats it |
| `HostProjection.BatchAccepts` | app/host_integration.py:251-283 | an ordinary batch is accepted exactly when its events and the stored ones are well formed and do not clash, none of those that close a gap leaves a final status, and the report names the end of the events without a gap and the status of the last of them, or the run's own where none is new; it then commits all the events, that end and that status |
| `HostProjection.NextKeepsLog` | app/host_integration.py:251-283 | after any number of steps the stored table is exactly the set of events delivered in accepted batches |
| `HostProjection.RebuildEqualsBatches` | app/host_integration.py:251-283 | one rebuild from the full log ends in the same table, cursor and status as all the accepted batches did, exactly when no fault hides the status and either an event was consumed or the run is running |
| `HostProjection.RebuildAccepts` | app/host_integration.py:251-283 | a rebuild is accepted exactly for well-formed events that do not clash and that, up to the first gap, repeat a final status once it is reached, with a report naming the end of that stretch and its status; it then stores these events and no others |
| `HostProjection.RebuildReopens` | app/host_integration.py:270-283 | so a rebuild leaves a run open exactly when none of the events up to the first gap is final and the report names their end and the last one's status |
| `HostProjection.BatchOrderIsIrrelevant` | app/host_integration.py:257-283 | two batches with the same events, in any order and with any repetition, project to the same outcome |
| `HostProjection.FaultHidesStatus` | app/host_integration.py:362-365 | a concrete run whose status a fault turned to unknown and whose rebuild therefore differs |
| `HostProtocol.HostStore.AcceptRequest` | app/host_integration.py:136-168 | a repeated request with the same fingerprint is a duplicate, with another one a conflict; a new one is admitted only while fewer than four are live |
| `HostProtocol.AdmittedExactly` | app/host_integration.py:136-168 | a new request is admitted exactly while fewer than four are open, and then waits, unmarked and without events, with the deadline asked for |
| `HostProtocol.HostStore.CancelRequest` | app/host_integration.py:236-249 | a request that is not final is marked cancelled, and closed at once if it is still queued |
| `HostProtocol.CancellationIsTaken` | app/host_integration.py:236-249 | a cancellation is logged exactly of a request that is not final; a queued one is closed at once, any other keeps its status |
| `HostProtocol.HostStore.Drive` | app/host_integration.py:344-361 | a request cancelled or expired in the queue is never driven; otherwise it leaves the queue, unless it is only inspected, and gets a session |
| `HostProtocol.DrivenUnlessKept` | app/host_integration.py:344-361 | driving opens a session exactly unless no slot is free, another driver has the request, it was cancelled before its first event, or it had none by its deadline; unless it is only inspected it then leaves the queue |
| `HostProtocol.ExpiresInTheQueue` | app/host_integration.py:349-356 | a request that waited past its deadline is exhausted when a driver comes for it, and logged |
| `HostProtocol.HostStore.AuthorizeStart` | app/host_integration.py:431-439 | a start is granted only once, uncancelled and in time, and the grant is stored in the same transaction |
| `HostProtocol.HostStore.AuthorizeWrite` | app/host_integration.py:474-484 | a write is denied once the request is cancelled or its deadline has passed |
| `HostProtocol.EntitledIsGranted` | app/host_integration.py:431-484 | after any run, while a session of the request is open and its deadline lies ahead, a start is granted exactly when the log holds neither a start nor a cancellation of it, and a write exactly when it holds no cancellation |
| `HostProtocol.HostStore.SidecarFailed` | app/host_integration.py:360-365 | a failed sidecar turns any status that is not final into unknown |
| `HostProtocol.FailureIsUnknown` | app/host_integration.py:360-365 | a failed sidecar makes an open run unknown, leaves a final one, and ends its session |
| `HostProtocol.HostStore.SidecarFinished` | app/host_integration.py:403-413 | a result is projected, except a success after the deadline that was not known before, which counts as a failure of the sidecar |
| `HostProtocol.ResultIsProjected` | app/host_integration.py:403-413 | a result in time leaves the reported status if the projection accepts it and the run alone if not; a success after the deadline that the session was not opened with makes an open run unknown |
| `HostProtocol.DoKeepsInv` | app/host_integration.py:344-484 | every transaction and every sidecar message keeps the tables sound, the log of grants in order, at most two sessions, and driven requests out of the queue |
| `HostProtocol.OnlyForward` | app/host_integration.py:236-249 | requests are never forgotten, deadlines never move, and the cancelled and start-authorised marks are never taken back |
| `HostProtocol.GrantGuard` | app/host_integration.py:431-439 | whatever the sidecar sends, a grant needs an open session, no cancellation and time left, and a start that no start was granted before |
| `HostProtocol.GrantsAreSafe` | app/host_integration.py:431-484 | over every interleaving of host calls and arbitrary sidecar messages: one start per request, no start or write after the cancellation or after the deadline |
| `HostProtocol.FinalUnlessRebuilt` | app/host_integration.py:251-283 | a final status is left exactly when the sidecar of a rebuild ends with events and a report that reopen the run, a condition on what it sends alone; nothing else changes a final status |
| `HostProtocol.LimitBreaksByRevivalOnly` | app/host_integration.py:149-151 | from at most four live requests a step goes beyond four exactly when four are live and the sidecar of a rebuild of a finished request sends events and a report that reopen it |
| `HostProtocol.AdmissionBound` | app/host_integration.py:149-151 | at most four requests are live in every run in which no rebuild reopens a finished one |
| `HostProtocol.RebuildExceedsAdmission` | app/host_integration.py:291-292 | five live requests are reachable once a rebuild reopens a finished one |
| `HostProtocol.SlotsBound` | app/host_integration.py:344-345 | no step opens more than two driven sessions |
| `HostProtocol.NeverRequeued` | app/host_integration.py:357-358 | a run that has left the queue never returns to it |
| `HostProtocol.QueuedIsServedByInspectionOnly` | app/host_integration.py:431-439 | a request that is still queued can be granted something exactly when an inspection of it is open, in time and not cancelled |
| `HostProtocol.QueuedIsUnserved` | app/host_integration.py:349-358 | a request waiting in the queue that was never inspected there has no session and was granted nothing |
| `HostProtocol.ClosedInQueueIsNeverServed` | app/host_integration.py:243-248 | a request cancelled or expired in the queue, and never inspected there, is granted nothing in the whole run |
| `HostProtocol.InspectionServesQueuedRequest` | app/host_integration.py:243-248 | a run in which an inspected queued request is granted its start and then cancelled while it still counts as queued, against the comment in the code |
| `Planner.BuildPlan` | app/agents.py:194-222 | the list the planner appends to, node by node, is the plan described by the question |
| `Planner.PlanNamesExactly` | app/agents.py:201-209 | a plan names facts and evidence always, contradiction, statutory conflict and gap detection exactly as the question calls for them, and no other specialist |
| `Planner.PlanWaitsRight` | app/agents.py:194-222 | the critic waits for exactly the specialists named, gap detection for the retrieval, facts and evidence, every other specialist for the retrieval |
| `Planner.SpecialistsOfPlan` | app/domain_integration.py:93-93 | leaving out retrieval, critic and memory leaves exactly the specialists the question calls for |
| `Planner.BuiltPlanIsOrdered` | app/agents.py:194-222 | in every plan that is built the specialists are named apart and wait only for earlier specialists and the common preparation |
| `DomainGraph.Actions` | app/domain_integration.py:79-101 | the list built for a plan has preparation, specialists, their join and the closing chain, in this order and with these dependencies |
| `DomainGraph.GraphIsTopological` | app/domain_integration.py:79-101 | the saved graph lists every dependency before its dependant, with distinct identities, exactly when the plan's specialists are ordered |
| `DomainGraph.ReadOutputs` | app/domain_integration.py:103-129 | the single pass returns the completed nodes and one output for each completed domain node |
| `DomainGraph.PassFindsExactlyTheCompleted` | app/domain_integration.py:103-129 | in a topologically ordered graph one pass finds exactly the completed nodes: a node by its own receipt, a join when all it waits for is completed; there is only one such set |
| `DomainGraph.UnorderedPassMisses` | app/domain_integration.py:107-112 | a graph out of order in which the pass misses a completed join |
| `DomainGraph.PassGrows` | app/domain_integration.py:103-129 | new receipts never take a completion back |
| `DomainGraph.ListEffects` | app/domain_integration.py:175-193 | the child writes of a node in the order they are listed, or a refusal |
| `DomainGraph.EffectsRefused` | app/domain_integration.py:180-184 | the effects are refused exactly when there is no answer or more than a hundred different gaps were reported |
| `DomainGraph.AnswerOfRun` | app/domain_integration.py:189-192 | in any run, once the effects are written there is a message with the text of the answer, and a draft with the same text exactly if memory is kept |
| `DomainGraph.GapsOfRun` | app/domain_integration.py:181-188 | and the gaps in the table are exactly those gap detection reported, each once, numbered from zero in their order, a hundred at most |
| `DomainGraph.AuditOfRun` | app/domain_integration.py:175-179 | the only other effect of a run is the audit entry, written exactly when the audit completes |
| `DomainGraph.EffectNamesAreDistinct` | app/domain_integration.py:182-192 | each gap once, then the draft if memory is kept, then exactly one message: no two effects share a name, so none is written twice |
| `DomainGraph.GapOrderIsIrrelevant` | app/domain_integration.py:181-186 | neither the order nor the repetition of the reported gaps shows in the effects |
| `DomainGraph.DoKeepsInv` | app/domain_integration.py:207-249 | every step keeps: what has a receipt has completed dependencies; child receipts are exactly those listed; stored effects are the ones their inputs still call for |
| `DomainGraph.RunsExtend` | app/domain_integration.py:234-248 | receipts, child receipts and the closing of a run are permanent |
| `DomainGraph.CompletedClosedUnderPaths` | app/domain_integration.py:217-225 | in every reachable state completed nodes are closed under everything they wait for, directly or not |
| `DomainGraph.FailureBlocksForever` | app/domain_integration.py:122-125 | a failed node blocks every direct and indirect dependant, now and in every continuation |
| `DomainGraph.EffectsAllOrNothing` | app/domain_integration.py:234-248 | the gap, memory and message effects are all in the table as the inputs call for, or none of them is |
| `DomainGraph.AuditMeansAll` | app/domain_integration.py:263-267 | a completed audit means that every node of the graph completed |
| `DomainGraph.SuccessMeansWholeGraph` | app/domain_integration.py:263-267 | for a plan of the planner the audit a projected success requires covers the whole graph |
| `DomainGraph.ExecuteChild` | app/host_writes.py:224-247 | a child write is inserted once per action and key; the identical one is accepted again, a different one refused |
| `DomainGraph.ExecuteChildren` | app/domain_integration.py:237-241 | the children of a node are written as listed or the whole transaction is refused |
| `DomainGraph.DomainStore.BeginNode` | app/domain_integration.py:217-225 | a node is admitted only open, without a receipt and with completed dependencies, and its inputs are remembered |
| `DomainGraph.AdmittedExactly` | app/domain_integration.py:207-225 | a node is admitted exactly in an open run, without a receipt, with everything it waits for completed |
| `DomainGraph.DomainStore.CommitNode` | app/domain_integration.py:231-249 | children and receipt are written together, only if the run is still open and the inputs are unchanged |
| `DomainGraph.CommittedExactly` | app/domain_integration.py:231-249 | its result is written exactly if the run is still open, it still has no receipt, no other domain node completed since it began, and no more than a hundred gaps are to be written; then nothing else changes among the receipts |
| `DomainGraph.PlanCompletes` | app/domain_integration.py:207-249 | every ordered plan has a run that completes all of it with whatever its nodes compute, up to a hundred gaps |
| `ChatRequests.Store.LookAt` | app/chat_idempotency.py:80-100 | what begin reads and answers before it writes: a claim for a new, failed, cancelled or stale request, a refusal for a live one, and a replay for a committed one; a refusal rolls the sweep back |
| `ChatRequests.Store.TakeClaim` | app/chat_idempotency.py:82-106 | the write that follows: an insert, refused if a row came in between, or an update that asks nothing of the row it overwrites |
| `ChatRequests.Store.MaybePurge` | app/chat_idempotency.py:110-118 | at most once an hour the rows older than seven days are removed, and no others |
| `ChatRequests.Store.CheckTurn` | app/context.py:512-538 | what is read before a turn is written to a given conversation: it is refused, or the existing turn of a repeated run is returned, or it may go on |
| `ChatRequests.Store.WriteTurn` | app/context.py:528-572 | the write: the turn with its committed row in one transaction, the existing turn of a repeated run, or a refusal, which for a given conversation only the unique run id can still cause |
| `ChatRequests.TurnWrittenExactly` | app/context.py:516-572 | a turn is written exactly when its run id is new and its conversation is given or can be opened: one turn at the end, there, with the entry's answer, run and key and the time of the write, and its request row committed to that payload; otherwise no message and no row changes |
| `ChatRequests.FollowUpIsWritten` | app/context.py:519-560 | a question in an open conversation of the case passes its check, and its answer is written there and its request committed |
| `ChatRequests.Store.FindRun` | app/context.py:533-538 | finds a turn of this run exactly when there is one |
| `ChatRequests.Store.FinishRequest` | app/chat_idempotency.py:146-154 | only a request in progress is marked failed or cancelled |
| `ChatRequests.Store.Lookup` | app/chat_idempotency.py:157-169 | a payload is reported only for a committed request |
| `ChatRequests.SweepKeepsTurns` | app/chat_idempotency.py:110-118 | the sweep removes a committed row only when its turn, and every earlier one of the request, is past retention |
| `ChatRequests.SweepKeepsClaims` | app/chat_idempotency.py:110-118 | the sweep never removes the row of a live claim |
| `ChatRequests.SweepLeavesExactly` | app/chat_idempotency.py:110-118 | a sweep leaves exactly the rows whose whole-second stamp is less than seven days and a second old, as they are |
| `ChatRequests.ClaimSweeps` | app/chat_idempotency.py:110-118 | in any run a claim written with a due sweep leaves its own row and exactly those others |
| `ChatRequests.SweepIsHourly` | app/chat_idempotency.py:110-115 | a sweep is due an hour after the last one, and the one begin that finds it due takes it on |
| `ChatRequests.GiveUpKeepsInv` | app/chat_idempotency.py:146-154 | finishing never undoes a commit |
| `ChatRequests.GivenUpCanBeRetried` | app/chat_idempotency.py:146-154 | a request given up by the worker that holds it can be claimed again at once |
| `ChatRequests.DoKeepsInv` | app/chat_idempotency.py:70-154 | in any run, whatever the workers do, every committed row belongs to a filed turn of its own request and carries its payload; turns are in order and run ids distinct |
| `ChatRequests.RunKeepsTurns` | app/chat_idempotency.py:70-154 | in every run in which no update takes back a commit, a filed turn keeps its request committed until it is past retention |
| `ChatRequests.DoKeepsGood` | app/chat_idempotency.py:70-154 | when workers act before their stored stamp is stale, and every update of a claim passes the test it does not make, a live claim holds its own row and is the only one of its request |
| `ChatRequests.AtMostOneTurn` | app/chat_idempotency.py:70-154 | then two turns of one request are always more than the retention apart, over any interleaving of reads, writes, workers and retries |
| `ChatRequests.RetriesReplay` | app/chat_idempotency.py:90-92 | then until the retention is over every later claim is answered with exactly the payload of that turn |
| `ChatRequests.UpdateHarmsExactlyUntested` | app/chat_idempotency.py:101-106 | in such a state the update of a claim grants a second live claim, takes back a commit, or updates a row that is gone, exactly when a new look at the rows would no longer be answered with a claim: the test the update omits |
| `ChatRequests.UnracedUpdatePasses` | app/chat_idempotency.py:80-106 | an update passes that test whenever the rows are still those that were read |
| `ChatRequests.RacingRetriesBothAnswer` | app/chat_idempotency.py:80-106 | from every state with a failed or cancelled request two retries that both read before either writes are both granted the claim, and two punctual workers both commit |
| `ChatRequests.DelayedUpdateTakesCommitBack` | app/chat_idempotency.py:101-106 | from every such state a delayed update sets the row the other retry has committed back to in progress |
| `ChatRequests.FailedIsReached` | app/chat_idempotency.py:146-154 | such states are reached from the empty store |
| `ChatRequests.SecondCommitOverwrites` | app/chat_idempotency.py:131-143 | a commit that overwrites a committed and retained row is a second one within the retention, in any run; in every run in which no update takes a commit back, it is a second one exactly then |
| `ChatRequests.SafeAge` | app/chat_idempotency.py:121-128 | the stored stamp makes a claim look up to a second older than it is; the exact age at which it is stale |
| `ChatRequests.SubSecondDoubleCommit` | app/chat_idempotency.py:121-143 | a run, with every update passing the test, in which two workers each take less than fifteen minutes and both commit |
| `ChatRequests.RunIdsAreUnique` | app/context.py:533-538 | in any run no source run id is on two turns |
| `ChatRequests.RepeatedRunAddsNoMessage` | app/context.py:528-538 | a repeated run adds no message and commits nothing; it may still open an empty conversation |
| `ChatRequests.WrittenInItsCase` | app/context.py:518-532 | in any run a turn is only ever added at the end, in a conversation of its own case, and in an open one if it was opened for it |
| `ChatRequests.ClearedWhileOpen` | app/context.py:519-526 | a given conversation can be archived between the check and the write, but at an earlier moment of the run it was open, of the case, and without the run id |
| `ChatRequests.TurnAndCommitTogether` | app/context.py:539-572 | the turn and its committed row appear together or not at all |
| `HistoryWindow.FitBound` | app/context.py:249-260 | a cut pair is within its allowance, or within 140 characters where the allowance is smaller |
| `HistoryWindow.FitBoundReached` | app/context.py:249-260 | the bound of 140 is reached by every long enough pair |
| `HistoryWindow.FitLeavesWhole` | app/context.py:249-252 | a pair within its allowance is left whole |
| `HistoryWindow.FitFillsAllowance` | app/context.py:249-260 | the exact length of what is shown of a longer pair: the allowance, or less where the question's own limit leaves some free, or more where 60 and 80 characters are always shown |
| `HistoryWindow.CutAgain` | app/context.py:239-246 | cutting a cut text again is cutting the original once |
| `HistoryWindow.FitShowsStarts` | app/context.py:239-260 | what is shown of a question or answer is all of it, or a start of at least 49 or 69 characters followed by the marker, and the flag says whether anything was cut |
| `HistoryWindow.CollectPairs` | app/context.py:337-363 | the loop returns every question with the first non-blank answer after it and no later question in between, in order, and nothing else |
| `HistoryWindow.PairsDetermined` | app/context.py:337-363 | the pairs are determined by the messages |
| `HistoryWindow.NewestAlone` | app/context.py:371-377 | the newest pair alone is within the budget, or within 140 characters |
| `HistoryWindow.SelectWindow` | app/context.py:365-384 | the window is the longest run of newest pairs within the number of turns and the budget; only the newest may be cut; its length is at most the larger of the budget and 140 |
| `HistoryWindow.WindowDetermined` | app/context.py:365-384 | the pairs and the two limits determine the window |
| `HistoryWindow.LoadHistory` | app/context.py:301-410 | the snapshot is that window of the pairs of the messages, or empty when history is off |
| `SpecialistSchedule.RunWaves` | app/agents.py:1086-1132 | for any dependencies the wave scheduler terminates, calls each specialist once and after its dependencies, and reaches the expected verdict: done, stuck exactly when some non-empty set waits for itself or for something never scheduled, or failed; where gap detection waits for what it reads, done means with the findings of the whole plan |
| `SpecialistSchedule.RunSequentially` | app/forge_worker.py:172-188 | the sequential scheduler does the same, one call at a time, and its findings are those of its calls in their order, whether gap detection waits or not |
| `SpecialistSchedule.RunWave` | app/agents.py:1100-1127 | the calls of a wave see the findings before it and may finish in any order |
| `SpecialistSchedule.SchedulersAgree` | app/forge_worker.py:172-188 | no plan is done by one scheduler and stuck for the other; where gap detection waits for what it reads the verdict and the findings are fixed |
| `SpecialistSchedule.ReadyIsRunnable` | app/agents.py:1096-1098 | no node of a blocked set is ever ready |
| `SpecialistSchedule.NothingReadyMeansBlocked` | app/agents.py:1096-1098 | when nothing is ready the pending nodes themselves are a blocked set |
| `SpecialistSchedule.RunsAsFinal` | app/agents.py:165-190 | where gap detection waits, a specialist run after its dependencies finds, or fails, as in the whole plan: gap detection reviews facts and evidence and nothing else, and a refused review fails it |
| `SpecialistSchedule.RanMeans` | app/agents.py:1096-1132 | the calls made are each node once, after everything it depends on |
| `SpecialistSchedule.AnyOrder` | app/agents.py:165-190 | where gap detection waits, every order that respects the dependencies gives the same findings, or fails |
| `SpecialistSchedule.WithoutWaitingOrderShows` | app/agents.py:165-190 | if gap detection did not wait for the facts, two such orders would differ exactly when its review depends on their text |
| `SpecialistSchedule.BuiltPlansNeverStick` | app/agents.py:194-222 | no plan of the planner is ever stuck |
| `SpecialistSchedule.BuiltPlansAgree` | app/agents.py:1086-1132 | on every plan of the planner both schedulers finish with the same findings, unless an analysis or the review itself fails |
| `TokenMetrics.RougeL` | app/benchmark_metrics.py:92-106 | the rolling-row loop computes the score of the longest common subsequence |
| `TokenMetrics.NextRow` | app/benchmark_metrics.py:98-102 | a row of the table from the row before it |
| `TokenMetrics.LcsIsLongest` | app/benchmark_metrics.py:97-103 | the computed length is attained by a common subsequence, and no common subsequence is longer |
| `TokenMetrics.LcsBounds` | app/benchmark_metrics.py:97-103 | it is at most either length, and equal to both exactly for equal lists |
| `TokenMetrics.LcsSymmetric` | app/benchmark_metrics.py:97-103 | it does not depend on which list is the reference |
| `TokenMetrics.F1IsDice` | app/benchmark_metrics.py:104-106 | the harmonic mean of precision and recall is twice the overlap over the two lengths |
| `TokenMetrics.ScoreProperties` | app/benchmark_metrics.py:92-106 | the score is symmetric, in [0,1], and one exactly for equal token lists |
| `TokenMetrics.ScoreIsShare` | app/benchmark_metrics.py:92-106 | the score is twice the length of any longest common subsequence over the two lengths |
| `TokenMetrics.BagScoreProperties` | app/benchmark_metrics.py:67-78 | character F1 is symmetric, in [0,1], and one exactly for rearrangements |
| `TokenMetrics.BagScoreIsShare` | app/benchmark_metrics.py:67-78 | character F1 is twice the size of the largest collection common to both over the two lengths |
| `TokenMetrics.OrderOnlyCosts` | app/benchmark_metrics.py:67-106 | on the same tokens the order-sensitive score never exceeds the bag score |
| `TokenMetrics.SetScoreProperties` | app/benchmark_metrics.py:81-89 | set F1 is symmetric, in [0,1], and one exactly for equal sets |
| `TokenMetrics.SetScoreIsShare` | app/benchmark_metrics.py:81-89 | set F1 is twice the size of the largest common set over the two sizes |
| `PairedTest.McNemarExact` | app/ablation_analysis.py:87-95 | the loop over the tail computes the p-value, undefined without discordant pairs |
| `PairedTest.CombIsFactorialQuotient` | app/ablation_analysis.py:92-92 | the binomial coefficient used is the quotient of factorials |
| `PairedTest.TwiceTheTail` | app/ablation_analysis.py:92-93 | twice the tail is above 2^n exactly for a tie, equal to it exactly when the sides differ by one, below it otherwise: the clamp acts on ties only |
| `PairedTest.PValueProperties` | app/ablation_analysis.py:87-95 | p is symmetric, in (0,1], one exactly when the sides differ by at most one, undefined exactly when there are no discordant pairs |
| `PairedTest.PValueIsExact` | app/ablation_analysis.py:87-95 | p is the share of all 2^n outcomes that are at least as one-sided as the observed one |
| `PairedTest.CountsAndPasses` | app/ablation_analysis.py:98-115 | the two counts handed to the test differ by exactly the difference in passes, and with the unchanged pairs add up to all pairs |
| `PairedTest.TestReadsPasses` | app/ablation_analysis.py:102-117 | the aggregate has no test exactly when no pair changed, and p is one exactly when the passes differ by at most one |
| `PairedTest.Group` | app/ablation_analysis.py:62-64 | the table holds for every item, repeat and group the last row given |
| `PairedTest.PairAttempts` | app/ablation_analysis.py:53-77 | every item and repeat seen is paired or reported unpaired, never both and never dropped; refused for bad groups or when nothing pairs |
| `Kappa.KappaByCells` | app/answer_eval.py:342-348 | kappa is 2(ad-bc) over (a+b)(b+d)+(a+c)(c+d) of the four agreement cells |
| `Kappa.UndefinedWhenConstant` | app/answer_eval.py:342-348 | kappa is undefined exactly when both lists are the same constant |
| `Kappa.KappaRange` | app/answer_eval.py:336-348 | otherwise it lies in [-1,1], is 1 exactly when the lists agree everywhere, and -1 exactly for opposites with as many passes as failures |
| `Kappa.KappaSymmetric` | app/answer_eval.py:336-348 | it is the same whichever list comes first |
| `CaseReports.ReportStore.CreateReport` | app/case_reports.py:249-276 | a new draft gets the number after the highest one read before, with a creation event; it is refused without a trace when that number is taken |
| `CaseReports.ReportStore.ActOnReport` | app/case_reports.py:279-387 | each action is refused without a trace or changes its report, supersedes the other approved reports of the case, and adds its event |
| `CaseReports.AcceptedExactly` | app/case_reports.py:292-382 | after any requests one on a report is accepted exactly if it is permitted and fits where the events left the report; an approval needs the body intact, the sources as frozen and a sheet that is not stale |
| `CaseReports.WritesExactly` | app/case_reports.py:249-387 | an accepted request adds one event with its own target on its report; a submission freezes the body it brings, and nothing else is ever frozen |
| `CaseReports.OthersChangeExactly` | app/case_reports.py:355-359 | an approval voids the other approved reports of its case and points them at itself; no request changes another report in any other way |
| `CaseReports.DoKeepsInv` | app/case_reports.py:249-387 | every request keeps: frozen bodies and hashes match, one approved report per case, supersession points forward, events chain, version numbers of a case are distinct |
| `CaseReports.AtMostOneApproved` | app/case_reports.py:355-366 | after any requests a case has at most one approved report |
| `CaseReports.ApprovedIsFrozen` | app/case_reports.py:332-366 | what was approved is the body frozen at submission, with its content and source hashes, even after it is void |
| `CaseReports.ApprovedWasChecked` | app/case_reports.py:332-366 | whatever was approved, one of the requests approved it having found its body intact, its sources unchanged and its sheet current |
| `CaseReports.VoidedIsFinal` | app/case_reports.py:371-382 | nothing ever changes a void report |
| `CaseReports.Latest` | app/case_reports.py:355-359 | following supersession ends at a report |
| `CaseReports.LatestIsCurrent` | app/case_reports.py:355-359 | it ends at a report of the same case that nothing superseded, approved strictly later than every report before it |
| `CaseReports.LastEventTells` | app/case_reports.py:142-147 | the last event names the status unless the report was superseded, when it still names the approval |
| `CaseReports.EventsChain` | app/case_reports.py:142-147 | every event starts where the one before it on the same report ended |
| `CaseReports.NumberedInOrder` | app/case_reports.py:260-262 | when every create read its number at some earlier moment, however long before, the reports of each case are numbered one by one in the order of their creation |
| `CaseReports.OvertakenIsRefused` | app/db.py:1106-1128 | a create is refused by the unique key exactly when its case got another report after the number was read |
| `HumanTasks.TaskStore.CreateTask` | app/human_tasks.py:236-265 | a new task waits at version one with its creation event |
| `HumanTasks.TaskStore.Transition` | app/human_tasks.py:161-174 | the status changes, with version, closing time and event, only where version and status are the ones read |
| `HumanTasks.TaskStore.ActOnTask` | app/human_tasks.py:297-372 | a request on the row it read is refused or updates the current row as specified |
| `HumanTasks.AcceptedExactly` | app/human_tasks.py:297-372 | in any run a request is accepted exactly if it is permitted, read the current row, expected the version it found, if any, and fits where the task's events left it |
| `HumanTasks.ChangesExactly` | app/human_tasks.py:161-372 | an accepted request changes the status by its kind, or sets the member or the date it brings, and nothing else of any task |
| `HumanTasks.DoKeepsInv` | app/human_tasks.py:161-372 | with any number of stale readers every step keeps each task in step with its events |
| `HumanTasks.HistoryTellsTask` | app/human_tasks.py:161-174 | version counts events, the events form an unbroken chain ending at the status, closing time is set exactly in a final status, nobody's task is under way, and a completed task was last started, submitted and completed |
| `HumanTasks.StaleIsRefused` | app/human_tasks.py:163-169 | a request that read an old row is refused and changes nothing; an accepted one read the current row |
| `HumanTasks.FinalIsAbsorbing` | app/human_tasks.py:317-318 | a finished task keeps its row and its events for good |
| `CaseWalls.WallStore.PutWall` | app/case_walls.py:116-145 | the list of insiders is replaced as a whole, trimmed and without repetition, creating the wall if needed and keeping its grants |
| `CaseWalls.WallStore.DropWall` | app/case_walls.py:148-157 | removing a wall removes its insiders and grants |
| `CaseWalls.WallStore.DropCase` | app/db.py:1188-1204 | deleting a case removes its wall with insiders and grants |
| `CaseWalls.WallStore.TakeGrant` | app/case_walls.py:160-179 | break-glass needs to have read a wall with the person outside it, and a wall that is still there; it lasts half an hour |
| `CaseWalls.WallStore.HiddenCaseIds` | app/case_walls.py:44-62 | the query over the three tables returns the cases hidden by the history, where the tables are what the history implies |
| `CaseWalls.DoKeepsInv` | app/case_walls.py:116-179 | every operation keeps the three tables equal to what the history of operations implies |
| `CaseWalls.CarriedOutExactly` | app/case_walls.py:116-179 | after any history a request is carried out, and recorded with its arguments, exactly if it is permitted and the history and its list allow it; otherwise nothing changes |
| `CaseWalls.OutsideByHistory` | app/case_walls.py:164-169 | a break-glass reads that the case is walled and the list in force omits the person |
| `CaseWalls.HiddenByHistory` | app/case_walls.py:44-62 | after any history a case is hidden from a person exactly when it is walled, the list in force omits them, and no break-glass of theirs since the wall was created is younger than 1800 seconds |
| `CaseWalls.GrantsOutliveLists` | app/case_walls.py:116-157 | adjusting a wall keeps its grants; removing it, or its case, ends them |
| `CaseWalls.RunsKeepReferences` | app/db.py:1188-1209 | insiders and grants belong to walls, and walls to cases; every wall has an insider, and no name is empty or has blanks around it |
| `Texts.TrimKeepsMiddle` | app/case_walls.py:123-123 | a text is blanks, what trimming leaves of it, and blanks |
| `BenchmarkRun.DoKeepsInv` | unified_benchmark_runner.py:479-590 | for any planned list every step, crashes included, keeps checkpoints, memory and log in step |
| `BenchmarkRun.SavedIsPrefix` | unified_benchmark_runner.py:479-521 | however often the run is killed the checkpointed questions are those of the first so many planned records; a resume is turned away by its own checkpoints exactly when one of them is planned with two different records, so never when equal ids carry equal records |
| `BenchmarkRun.SavedIsNeverAsked` | unified_benchmark_runner.py:526-530 | a checkpointed question is never asked again and its row never changes, also where the plan repeats it |
| `BenchmarkRun.CallsAreBounded` | unified_benchmark_runner.py:526-590 | a run makes at most one model call for each saved question and one more for each crash, and saves no more questions than the plan has different ids |
| `BenchmarkRun.UnkilledRunFinishes` | unified_benchmark_runner.py:515-590 | a run that is not killed any more comes to its end, whatever the model answers |
| `BenchmarkRun.ResumedRunFinishes` | unified_benchmark_runner.py:479-590 | and so does one that is started again with checkpoints that are accepted |
| `BenchmarkRun.FinishedLog` | unified_benchmark_runner.py:515-590 | a finished run's log is the rows found at its last start, one for each planned position, and then the rows added since, one for each question |
| `BenchmarkRun.FinishedInOrder` | unified_benchmark_runner.py:515-590 | so for distinct ids it is each planned question once, in order, as checkpointed |
| `BenchmarkRun.FinishedExtremes` | unified_benchmark_runner.py:515-590 | and for any plan it has one line for each different id when nothing was resumed, and one for each planned position when everything was found at the start |
| `BenchmarkRun.Verify` | verify_benchmark_run.py:30-54 | the counting and checkpoint checks pass exactly when log, checkpoints and plan agree question by question |
| `BenchmarkRun.CountIds` | verify_benchmark_run.py:31-31 | the counter of question ids |
| `BenchmarkRun.DistinctBySize` | verify_benchmark_run.py:34-34 | comparing sizes detects a repeated planned id |
| `BenchmarkRun.FinishedRunVerifies` | verify_benchmark_run.py:30-54 | on a finished run these checks pass exactly when the planned ids are distinct |
| `BenchmarkRun.RepeatedQuestionFails` | unified_benchmark_runner.py:253-274 | a question planned twice, as a task named twice plans it: the run finishes with one line and the checks fail |
| `CorrectionEdits.ApplyEdits` | app/correction_candidates.py:17-37 | edits are refused unless each piece is counted once and the pieces are pairwise apart; else the result is the simultaneous replacement of all of them |
| `CorrectionEdits.Locate` | app/correction_candidates.py:22-29 | every piece is located at its first occurrence, or the list is refused |
| `CorrectionEdits.CountedOnce` | app/correction_candidates.py:27-27 | a count of one says exactly that there is an occurrence and none from its end on |
| `CorrectionEdits.OnceIsCountedOnce` | app/correction_candidates.py:27-27 | a piece occurs exactly once in a text exactly when it is counted once and no occurrence starts inside the first |
| `CorrectionEdits.AcceptedMeansOnce` | app/correction_candidates.py:27-27 | in every text acceptance means one occurrence exactly for the pieces of which no proper start is also the end |
| `CorrectionEdits.BorderOccursTwice` | app/correction_candidates.py:27-27 | every other piece is counted once and occurs twice in the piece followed by what its border leaves of it |
| `CorrectionEdits.OverlappingPieceIsAccepted` | app/correction_candidates.py:27-27 | the shortest case, the piece aa in the text aaa, is accepted |
| `CorrectionEdits.SortedCheck` | app/correction_candidates.py:30-32 | the check on sorted neighbours accepts exactly the lists whose spans are pairwise apart |
| `CorrectionEdits.Splice` | app/correction_candidates.py:33-36 | the splice loop from the right builds the text from left to right |
| `CorrectionEdits.BuildIsRewrite` | app/correction_candidates.py:33-36 | and that is the replacement of all spans at once, reading everything outside them unchanged |
| `CorrectionEdits.ReplacementsLand` | app/correction_candidates.py:33-37 | every replacement stands where its piece stood, moved by the changes in size of the replacements before it |
| `CorrectionEdits.OthersStay` | app/correction_candidates.py:33-37 | and every character outside the pieces stands where it stood, moved likewise |
| `CorrectionEdits.OrderIsIrrelevant` | app/correction_candidates.py:22-37 | the order of the edits does not show, in the result or in a refusal |
| `CorrectionEdits.OverlapIsRefused` | app/correction_candidates.py:30-32 | duplicate and overlapping edits are always refused |
| `CorrectionEdits.LengthOfResult` | app/correction_candidates.py:33-37 | the result is as long as the original plus the changes in size of its edits |
| `CanonicalCorpus.ClassifySymmetric` | app/corpus_audit.py:91-109 | a pair is classified the same either way round |
| `CanonicalCorpus.ClassifiedByArticles` | app/corpus_audit.py:91-109 | two publications are exact duplicates when equal, cosmetic ones when each article reads the same without punctuation and captions, and in conflict when they are not the same under that reading nor without headings |
| `CanonicalCorpus.Publications` | app/corpus_canonical.py:71-80 | the candidates of each publication, in directory order |
| `CanonicalCorpus.AuditKey` | app/corpus_canonical.py:83-90 | the most severe classification over all pairs of different contents, a function of the set of contents and the number of copies |
| `CanonicalCorpus.Variants` | app/corpus_audit.py:138-141 | one representative of each content |
| `CanonicalCorpus.Select` | app/corpus_canonical.py:93-103 | a substantive conflict is refused, else the first of the best candidates is taken |
| `CanonicalCorpus.BestIsBest` | app/corpus_canonical.py:93-103 | it is a candidate, and none has fewer leaks, higher authority or an earlier directory and id |
| `CanonicalCorpus.BestComesFirst` | app/corpus_canonical.py:93-103 | the chosen copy has the fewest leaks where copies differ by them, of those the highest authority, of those the first directory, and in it the first id |
| `CanonicalCorpus.BestAmongHeads` | app/corpus_canonical.py:71-103 | it is the best among the directories' own best copies |
| `CanonicalCorpus.Build` | app/corpus_canonical.py:157-189 | a build refuses substantive conflicts and repeated document ids, and otherwise yields the selected document of every publication |
| `CanonicalCorpus.BuildRefusesExactly` | app/corpus_canonical.py:157-189 | a build is refused exactly when two documents of one publication conflict, or two publications were given copies of one id |
| `CanonicalCorpus.OneUnchangedPerPublication` | app/corpus_canonical.py:177-189 | it then has exactly one entry per law and version date, a source document of it as it was |
| `CanonicalCorpus.OrderOfDirectoriesIsIrrelevant` | app/corpus_canonical.py:157-189 | the outcome, refusals included, does not depend on the order of the source directories |
| `Placeholders.Convert` | app/db_postgres.py:126-146 | the scan computes the translation |
| `Placeholders.InsideMeansOpened` | app/db_postgres.py:129-144 | a position is inside a quotation exactly when a quote opened one before it and its like has not come since |
| `Placeholders.ReadsBackAsMeant` | app/db_postgres.py:126-146 | under the driver's reading the translated text is the original with one parameter for each question mark outside quotations and none inside |
| `Placeholders.RecoversTheOriginal` | app/db_postgres.py:126-146 | writing each parameter as a question mark gives back the original text exactly |

## Left out

- Subprocesses, pipes, file locks, archives and HTTP: only the messages they deliver are modelled, as arbitrary input. The two worker slots and the one-driver-per-request lock appear as rules of the session steps.
- Roles and permissions: one boolean per request. Principal, source-version and binding checks of the host runtime are part of the fingerprint or taken as passed.
- Hashes: taken to be collision-free, so comparing digests is comparing what was hashed.
- Rows that only record what was done (agent runs, audit entries of the host, security events, token accounting): they are not read by the code that is modelled.
- Regular-expression extraction, tokenisers, embeddings, rounding and bootstrap samples: no crisp specification; scores are exact rationals over given token lists.
- Model calls inside domain nodes, the model node kind, statutory and page verification of messages, and the tamper check of stored receipts in app/domain_writes.py:135-148: the node's outcome is input and stored receipts are taken as written.
- The canonical text that orders and identifies a gap is its rank; the payloads are opaque.
- Deletion of cases and conversations, except for the walls, where it is an operation.
- HostProjection.ProjectRun: the further refusal of the domain runtime, a success without a completed audit (app/domain_integration.py:263-267); `DomainGraph.SuccessMeansWholeGraph` says what that refusal is worth.
- ChatRequests.Store.WriteTurn: titles, citations and the audit entry are not part of a turn; ISO time stamps are taken to compare as times, that is, to share one UTC offset.
- ChatRequests.AtMostOneTurn: workers are taken to act at most once and before their stored stamp is stale, because `commit` has no guard of its own, and every update of a claim to pass the test it does not make. `ChatRequests.SecondCommitOverwrites` and `ChatRequests.UpdateHarmsExactlyUntested` say what happens otherwise.
- ChatRequests.Store.LookAt: a `begin` that swept holds the write lock from its sweep on where the database is SQLite; the model lets others come in between there too.
- HistoryWindow.LoadHistory: the digest and the `truncated` flag taken from markers in pairs outside the window; blank means only white space, as listed in `Texts.IsSpace`.
- SpecialistSchedule.RunWaves: a wave's calls are made and finish in any order, where the code sorts them; the error reported is that of some failed node. A specialist's own analysis, and the review gap detection makes of its two texts, depend on these, the question and the retrieved pages only. A plan without specialists, for which no pool can be created, counts as done.
- PairedTest.PairAttempts: the sorted order of the lists it returns.
- CaseReports.ReportStore.CreateReport: whether case and template are there, and stay there, is one input.
- CaseReports.ReportStore.ActOnReport: row versions, because a row is read and written under one write lock; titles, notes and dates. An approval's time is the position of its event.
- CaseReports.AtMostOneApproved: rows written before the migration that introduced frozen bodies.
- CaseWalls.DoKeepsInv: `log` is the history of the operations that were carried out. The audit rows the code writes hold the number of insiders and no deletion of a case, so the history cannot be read back from them.
- CaseWalls.WallStore.HiddenCaseIds: requests without a principal, from which nothing is hidden; row-level security, a second enforcement of the same rule.
- BenchmarkRun.Verify: the prompt, route, source and score checks of the verifier and of a resume; the manifest is fixed for a run.
- CorrectionEdits.ApplyEdits: the JSON around the edits; a malformed one is refused before.
- CanonicalCorpus.Build: the files written before a repeated document id is noticed; the exclusion of earlier canonical output from the sources; the list of equivalent sources of an entry.
- CanonicalCorpus.OrderOfDirectoriesIsIrrelevant: a directory is taken to have the same documents wherever it is listed.
- Placeholders.Convert: the other rewritings of a statement (inserts, pragmas, returned ids).
- `validate_resume_identity` (app/context.py:1234-1250): it compares the number of all messages with the number selected, so there is no clean property to state.
