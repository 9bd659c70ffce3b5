# TraceRuntime: verified model

A Dafny 4.11 model of the parts of TraceRuntime whose correctness spans several services, with machine-checked
proofs. `dafny verify dfyconfig.toml` checks everything.

## What is modelled

**Task delivery.** The API inserts a row and publishes a message; a queue hands messages out at least once and moves
them to a dead letter queue (DLQ) after three deliveries; any number of workers claim, infer, store, delete and
complete; operators retry, delete and purge; the chaos runner fails rows in bulk. `Delivery.dfy` is a state machine
with one step per effect. All nondeterminism (which message, which call fails, whether a failed call took effect all
the same, when a worker dies, when a message becomes visible again) is in the steps, so statements about all step
sequences are statements about all runs. Visibility may expire at any time, which covers the AI deadline being longer
than the visibility timeout.

- `TaskRows.dfy`, `TaskTable.dfy`: the guarded row updates, as functions and as in-place methods.
- `DeliverySafety.dfy`, `DeliveryClaims.dfy`, `DeliveryAnswers.dfy`, `DeliveryMessages.dfy`, `DeliveryBounds.dfy`,
  `DeliveryQuiet.dfy`: row shape, exclusive claims, final and backed completion, results that come from good replies, no
  silent loss, bounded work, no stranded task.
- `DeliveryMishaps.dfy`: runs from the empty state in which the protocol goes wrong.
- `Worker.dfy`, `Handlers.dfy`: `Process` and the API handlers as imperative code over one shared cluster object whose
  validity says that its fields are the result of a recorded run. Between any two service calls everybody else may
  take any number of steps and the worker may die.

**Watchdog incidents.** `Incidents.dfy` splits emit, resolve, reconcile and restart into single effects against the
`healing_events` table; `Findings.dfy` has the key families, `Observations.dfy` what a poll reads and calls for,
`DownRule.dfy` the rule for `worker.down` over whole histories of watchdogs; `Detector.dfy` is the detector as imperative
code, with others changing the table between any two of its effects.

**Algorithms.** `RateLimit.dfy` (token bucket and its cleanup loop), `Spans.dfy`, `SpanLinks.dfy` and `SpanRows.dfy`
(flattening a span forest for the trace page), `IncidentLists.dfy` (the dashboard's bounded lists), `Alerts.dfy`
(cursor paging), `Percentiles.dfy` (summary of load-test values), `Broker.dfy` (fan-out of server-sent events),
`WorkQueue.dfy` (the bounded in-process queue).

## Where the code falls short of what it sets out to do

Each of these is proved: the exact condition, and an input or a run from the start that meets it (for the rate limiter
the other half of the equivalence, which gives one for every rate and burst that fail it).

- A worker that dies after deleting its message and before completing its row leaves the task in `processing` for
  ever: a task can leave that status exactly while a live attempt holds it (`ProcessingEndsExactlyWhenHeld`,
  `DeathAfterDeleteOrphans`).
- The chaos runner's `FailStuckTasks` keeps claims exclusive exactly when no live attempt holds a chaos task
  (`TakeoverIsSafeExactlyWhenUnheld`, `TakeoverLetsTwoHold`). Over all runs, it included, claims are exclusive exactly
  for tasks whose payload does not begin with `chaos-` (`ClaimsAreExclusiveExactly`); for these, completion is final and
  backed as well.
- Tasks are never stranded in quiet runs exactly when the worker gives up no later than the queue does
  (`NoStrandingExactly`, `LateWorkerStrands`); the deployed limits, 3 and 3, meet this.
- An operator retry keeps `processing_started_at`. A retried task that had started is never listed as abandoned while
  it waits, and its next claim may be listed as stuck at once; one that had not started is listed as abandoned as soon
  as its creation is older than the threshold (`RetriedTaskKeepsItsFirstStart`; `RetriedTaskIsListedStuck` and
  `RetriedTaskIsListedAbandoned` are runs from the start, for every threshold).
- A restarted watchdog is said to pick up where it left off. It forgets the counter of failed probes, it finds
  `worker.down` open if it died between dropping and resolving it, and it drops an acknowledged incident. So
  `worker.down` does not follow the trailing run of failed probes: over every history it is in the map exactly when a
  miss reached the threshold (counting since the last success or restart) or a restart found it open, and nothing
  closed it since (`DownIsExact`). At the end of a detection the trailing run decides, after a success, if the threshold
  is positive; after a failed report, never; after a miss, exactly if the misses of this life reach the threshold or the
  incident is inherited from the last restart just when the whole run reaches it (`DecidesExactly`,
  `TrailingRunDecidesExactly`). `RestartForgetsMisses`, `DeathKeepsIncidentOpen` and `AcknowledgedIncidentIsForgotten`
  are histories where it does not. Within one life that started with the incident closed, evictions do no harm
  (`EvictionsAreRepaired`, `FourthMissReportsAgain`).
- Heartbeats older than two minutes are deleted before stale workers are looked for. Every worker past the stale
  threshold is found exactly when none of them has been silent for longer than that, or the deletion failed
  (`StaleFoundExactly`); one silent for 121 seconds is not (`LongSilenceIsNotFound`).
- One active incident per key survives every step but three failures: an insert that took effect and was reported
  as failed, a failed resolve of a still active event, a failed reload while events are active
  (`SafeExactlyWhenBenign`; `UnacknowledgedInsertIsReached`, `FailedResolveIsReached`, `FailedReloadIsReached`).
- The rate limiter's cleanup loop is unobservable, the sliding-window bound holds, and a request is allowed exactly
  when the bound permits it, exactly when ten minutes refill a whole burst of at least 1
  (`EvictionUnobservableExactly`, `WindowBoundedExactly`, `KeepsToRuleExactly`).
- Two spans with the same id can make the flattening recurse for ever: the recursion is bounded exactly when no
  ancestor chain repeats an id (`DepthIsBoundedExactly`, `DuplicateIdNeverReturns`).
- With distinct ids, a span is missing from the trace page exactly when its parent ids run into a cycle
  (`MissingExactly`, `CycleIsNotShown`).
- The bars of a trace fit the chart exactly when some span ends no earlier than the first one starts, or all spans
  coincide (`BarsFitExactly`); an end time that cannot be read counts as 0 (`MissingEndTimesDoNotFit`).
- The dashboard's snapshot lists up to 100 active incidents and its reducer keeps 50: the active list is exact exactly
  when at most 50 are active each time one is reported (`ActiveIsExactWhile`, `FiftyFirstIncidentIsCut`).
- Following the page cursors loses alerts exactly when some whole number of pages ends within a group of alerts created
  at the same time, which the table and the limit decide (`CompleteExactly`, `TiedAlertIsLost`).

## Model

| member | source | states |
|---|---|---|
| TaskRows.ExecKeepsShape | services/worker/internal/db/tasks.go:20-88 | every guarded update keeps the columns in agreement with the status (error iff failed, artifact iff completed, tokens only if completed, start time while processing, start before end) |
| TaskRows.ExecFrame | services/worker/internal/db/tasks.go:20-88 | an update touches no other row, no completed row, and neither adds nor removes rows |
| TaskRows.RetriedTaskKeepsItsFirstStart | services/api/internal/db/dlq.go:24-32 | a retried failed row is listed as abandoned exactly when it never started and is older than the threshold, and after its next claim as stuck exactly when its first start is |
| TaskTable.Table.SetProcessing | services/worker/internal/db/tasks.go:20-33 | claims a pending row, keeping an earlier start time, and reports a conflict exactly when there is none |
| TaskTable.Table.SetCompleted | services/worker/internal/db/tasks.go:43-58 | completes a processing row with key and tokens, or reports a conflict |
| TaskTable.Table.RevertToPending | services/worker/internal/db/tasks.go:60-73 | puts a processing row back to pending and clears its start time, or reports a conflict |
| TaskTable.Table.SetFailed | services/worker/internal/db/tasks.go:75-88 | fails a processing row with the reason, or reports a conflict |
| TaskTable.Table.InsertTask | services/api/internal/db/tasks.go:48-59 | adds a pending row under a fresh id, or fails |
| TaskTable.Table.SetPublishFailed | services/api/internal/db/tasks.go:27-37 | fails a row that is still pending |
| TaskTable.Table.RevertToPendingForRetry | services/api/internal/db/dlq.go:24-32 | requeues a failed row, clearing the error and nothing else |
| TaskTable.Table.FailStuckTasks | cmd/chaos/internal/chaos/checker/checker.go:263-273 | fails exactly the processing rows of chaos tasks and counts them |
| TaskTable.Table.FailAbandonedTasks | cmd/chaos/internal/chaos/checker/checker.go:275-285 | fails exactly the never started pending rows of chaos tasks and counts them |
| DeliverySafety.KeyInjective | services/worker/internal/processor/processor.go:194 | two tasks never share an object key, the trace id having no slash |
| DeliverySafety.DecideFacts | services/worker/internal/processor/processor.go:123-246 | an attempt completes or deletes only after its put, under its own key, and writes at most one of row and object at a time |
| DeliverySafety.RunKeepsCore | services/worker/internal/processor/processor.go:86-277 | in every run, chaos included, all rows are well shaped, completed rows name a stored object of their task, and attempts past their put have their object |
| DeliverySafety.CompletedRowIsFinal | services/worker/internal/db/tasks.go:43-58 | no later step of anyone changes a completed row |
| DeliveryClaims.DecideHolds | services/worker/internal/processor/processor.go:123-246 | an attempt becomes holder only by a successful claim, and every finalising update ends its hold |
| DeliveryClaims.RunKeepsExclusive | services/worker/internal/processor/processor.go:123-246 | exclusive claims and models backed by objects hold over every run without chaos take-over, from every state where they hold |
| DeliveryClaims.RunKeepsExclusiveFor | cmd/chaos/internal/chaos/checker/checker.go:263-273 | for a task that is not the chaos runner's they hold over every run, its bulk failures included |
| DeliveryClaims.ClaimsAreExclusive | services/worker/internal/processor/processor.go:123-246 | at most one attempt holds a task, and then the row is processing, whatever overlaps, crashes or fails; in every run for tasks that are not the chaos runner's, and for all in runs without its take-over |
| DeliveryClaims.CompletionIsFinalAndBacked | services/worker/internal/processor/processor.go:194-246 | in the same runs a completed row names a stored object of its task and model under a key no other task has; row and object stay in every continuation |
| DeliveryClaims.TakeoverIsSafeExactlyWhenUnheld | cmd/chaos/internal/chaos/checker/checker.go:263-273 | the bulk failure keeps claims exclusive iff no live attempt holds a processing chaos task |
| DeliveryClaims.CrashOrphans | services/worker/internal/processor/processor.go:227-246 | the death of the only holder leaves the task in processing with no holder |
| DeliveryClaims.OrphansStay | services/worker/internal/processor/processor.go:227-246 | without a holder a processing task stays so in every continuation without the chaos runner's take-over |
| DeliveryClaims.HolderCanFinish | services/worker/internal/processor/processor.go:123-246 | from every state a live holder has a sequence of own steps, none of them its death, that takes its task out of processing |
| DeliveryClaims.ProcessingEndsExactlyWhenHeld | services/worker/internal/processor/processor.go:227-246 | a processing task can leave that status iff a live attempt holds it |
| DeliveryAnswers.DecideAnswers | services/worker/internal/processor/processor.go:138-246 | an attempt gets a result only from the inference after its claim, by a reply below 500 that decoded and does not say "failed" (or the mock result), puts exactly its output and model, and records exactly its tokens |
| DeliveryAnswers.BadReplyGivesUp | services/worker/internal/processor/processor.go:147-191 | after any other reply it fails its task from the limit on and otherwise reverts, and stores, records and deletes nothing |
| DeliveryAnswers.StoredIsAnswered | services/worker/internal/processor/processor.go:138-246 | in every run, chaos included, every stored object carries the output and model of such a reply to an attempt of its task, and every completed row the tokens of one |
| DeliveryAnswers.CompletedHoldsOneAnswer | services/worker/internal/processor/processor.go:194-246 | a completed task's tokens, output and model are those of one and the same reply, in every run for tasks that are not the chaos runner's and for all in runs without its take-over |
| DeliveryAnswers.NoGoodReplyStoresNothing | services/worker/internal/processor/processor.go:310-333 | with the AI runtime on, a run without such a reply stores and completes nothing |
| DeliveryMishaps.DeathAfterDeleteOrphans | services/worker/internal/processor/processor.go:227-246 | a run from the start that ends with a task in processing which nobody holds |
| DeliveryMishaps.TakeoverFailsHeldTask | cmd/chaos/internal/chaos/checker/checker.go:263-273 | a run from the start in which a live attempt holds a failed task |
| DeliveryMishaps.TakeoverLetsTwoHold | cmd/chaos/internal/chaos/checker/checker.go:263-273 | continued by an operator retry, two live attempts hold the same task |
| DeliveryMishaps.ClaimsAreExclusiveExactly | cmd/chaos/internal/chaos/checker/checker.go:263-273 | for every payload, over all runs: tasks of that payload have at most one holder and are then in process iff it does not begin with the chaos prefix (or the queue delivers nothing) |
| DeliveryMishaps.RetriedTaskIsListedStuck | services/api/internal/db/dlq.go:24-32 | for every threshold, a run from the start in which a retried task is listed as stuck the moment it is claimed |
| DeliveryMishaps.RetriedTaskIsListedAbandoned | services/api/internal/db/dlq.go:24-32 | for every threshold, a run from the start in which a retried task that never started is listed as abandoned the moment it is requeued |
| DeliveryMessages.RunKeepsAccounted | services/api/internal/handlers/dlq.go:144-166 | in every run each deleted message leaves an artifact, a later copy or an operator's decision behind |
| DeliveryMessages.PurgeEmpties | services/api/internal/handlers/dlq.go:241-276 | a purge deletes exactly the messages in its queue and discards the tasks they name |
| DeliveryMessages.FollowResends | services/api/internal/handlers/dlq.go:144-166 | following the copies from any message of a task ends at a queued message, an artifact or an operator's decision |
| DeliveryMessages.NoSilentLoss | services/worker/internal/processor/processor.go:202-234 | every accepted task has a message in a queue or its artifact stored, unless an operator discarded it, in every reachable state including crashes inside worker and retry |
| DeliveryBounds.RunKeepsCounted | services/worker/cmd/worker/main.go:161-208 | deliveries equal attempts, no message is delivered more often than the redrive limit, and every message comes from the creation or a retry |
| DeliveryBounds.ClaimsAreBounded | services/worker/cmd/worker/main.go:161-208 | a task is claimed at most redrive limit times (1 + its operator retries) times |
| DeliveryBounds.DeliveriesRunOut | infra/terraform/sqs.tf:17-20 | without new sends, attempts plus remaining deliveries never grow, so delivery stops |
| DeliveryQuiet.QuietRunsStayQuiet | services/worker/internal/processor/processor.go:83-190 | in quiet runs every message has at most one live attempt and the row, message and attempt agree at every step |
| DeliveryQuiet.QuietStrandsNone | services/worker/internal/processor/processor.go:83-190 | then every accepted pending task has a main-queue message with a delivery left or just delivered, and tasks in the DLQ are settled |
| DeliveryQuiet.LateWorkerStrands | services/worker/internal/processor/processor.go:151-191 | a worker that gives up later than the queue has a quiet run that strands a task |
| DeliveryQuiet.NoStrandingExactly | infra/terraform/sqs.tf:17-20 | no quiet run strands a task iff the worker's limit is at most the redrive limit, or the AI runtime is off |
| DeliveryQuiet.DeployedLimitsStrandNothing | services/worker/internal/processor/processor.go:83 | the deployed limits 3 and 3 strand nothing |
| Worker.OthersKeepControl | services/worker/internal/processor/processor.go:86-277 | nobody else's step changes where a call in progress stands |
| Worker.Cluster.Yield | services/worker/internal/processor/processor.go:123-246 | any number of steps of others keeps the caller's control state, all rows, and completed rows as they are |
| Worker.Cluster.Claim | services/worker/internal/processor/processor.go:123-128 | the attempt holds the task iff the update succeeded; a conflict means the row was not pending |
| Worker.Cluster.Complete | services/worker/internal/processor/processor.go:236-246 | a holder's completion meets no conflict, succeeds unless the call fails, and finds its object in the store |
| Worker.Cluster.Revert | services/worker/internal/processor/processor.go:168-172 | a holder's revert meets no conflict and succeeds unless the call fails |
| Worker.Cluster.Fail | services/worker/internal/processor/processor.go:153-157 | a holder's failure meets no conflict and succeeds unless the call fails |
| Worker.Cluster.Infer | services/worker/internal/processor/processor.go:140-191 | a result exactly for a reply below 500 that decoded and does not say "failed", and then the reply's; or the mock result without the AI runtime; an error leads to failing or reverting by the receive count |
| Worker.Cluster.PutObject | services/worker/internal/processor/processor.go:194-213 | a confirmed put is in the store under the task's key; an unconfirmed one leads to failing |
| Worker.Cluster.ReceiveMessage | services/worker/cmd/worker/main.go:161-208 | a received message carries its receive count, between 1 and the redrive limit |
| Worker.Processor.Process | services/worker/internal/processor/processor.go:86-277 | one delivery: the claim is won exactly if the call succeeds and the row is pending at that moment; an attempt that wins it takes exactly the steps of its verdict in their order, any other one step that deletes nothing; a completed one had a good reply, whose output and model are stored and, if recorded, whose tokens the row holds; one without a good reply is retried or failed by its receive count and puts, deletes and completes nothing; the current task id is cleared |
| Worker.Processor.Execute | services/worker/internal/processor/processor.go:138-246 | the part after the claim comes to exactly the verdict, with exactly its steps, whatever others do between them; what a completed task stores and records is the reply's, and a failed one's row names the reason |
| Worker.Processor.GiveUp | services/worker/internal/processor/processor.go:149-191 | fails the task from the limit on, and otherwise reverts and releases it unless the worker dies |
| Worker.Processor.Store | services/worker/internal/processor/processor.go:194-246 | puts, and only after a confirmed put deletes and completes; an unconfirmed put fails the task and deletes nothing |
| Worker.Processor.Finish | services/worker/internal/processor/processor.go:227-246 | deletes the message, then completes the row, unless the worker dies between |
| Worker.BadReplyLeadsNowhere | services/worker/internal/processor/processor.go:147-191 | without a good reply the verdict is failure at the limit, retry below it or death, and no step of the delivery puts, deletes or completes |
| Worker.OnlySuccessDeletes | services/worker/internal/processor/processor.go:85 | an attempt deletes its message only after a confirmed put and only if it completes or dies before it can |
| Handlers.TaskHandler.Submit | services/api/internal/http/task.go:152-189 | insert, publish, mark failed: accepted exactly when insert and publish are confirmed, and then not lost; otherwise the request ends rejected; the row, if inserted, carries payload and origin |
| Handlers.TaskHandler.MarkFailed | services/api/internal/http/task.go:170-174 | the request of an unpublished task ends as rejected, and its row is no longer pending unless the update failed |
| Handlers.TaskHandler.Create | services/api/internal/http/task.go:114-224 | the reply is exactly determined by the input and the calls; created means accepted, with the input as payload; bad input changes nothing |
| Handlers.TaskHandler.Replay | services/api/internal/handlers/replay.go:38-133 | the reply is exactly determined by the task read, the payload, the depth and the calls; refusals change nothing; a new row carries the override or the original payload and names the replayed task, and created means accepted |
| Handlers.DlqHandler.Retry | services/api/internal/handlers/dlq.go:123-190 | confirmed exactly when the send is, whether or not the handle names a message; then a later copy of the body exists, and the named row is not failed unless the update failed; a failed DLQ delete is a warning |
| Handlers.DlqHandler.RevertRow | services/api/internal/handlers/dlq.go:163-166 | the retry ends with the named row requeued if it was failed, unless the update failed |
| Handlers.DlqHandler.Delete | services/api/internal/handlers/dlq.go:199-239 | fails exactly if the queue service returns an error; a message that was in the DLQ is then gone by the operator's decision, and a stale handle changes nothing |
| Handlers.DlqHandler.Purge | services/api/internal/handlers/dlq.go:241-276 | a confirmed purge empties the DLQ, by the operator's decision |
| Incidents.RebuildIsSound | services/watchdog/internal/detector/detector.go:72-94 | every reloaded entry names an active event with its key |
| Incidents.RebuildIsComplete | services/watchdog/internal/detector/detector.go:72-94 | every active event with a key is reloaded, the oldest winning |
| Incidents.OutsidersKeepInv | cmd/chaos/internal/chaos/checker/checker.go:176-179 | acknowledgements, external resolutions and audit events keep map and table in agreement |
| Incidents.StepKeepsInv | services/watchdog/internal/detector/detector.go:590-674 | every single effect of emit, resolve, reconcile, crash and restart keeps map and table in agreement |
| Incidents.NothingIsActiveAfterResolveAll | cmd/chaos/internal/chaos/checker/checker.go:176-179 | the bulk resolution resolves exactly the active events |
| Incidents.IncidentsAreUnique | services/watchdog/internal/detector/detector.go:72-217 | at most one active event per key in every run whose database failures are benign |
| Incidents.LostEventIsDuplicated | services/watchdog/internal/detector/detector.go:590-627 | an active event missing from the map leads to a second one on the next detection |
| Incidents.SafeExactlyWhenBenign | services/watchdog/internal/detector/detector.go:590-674 | a step keeps incidents unique in all benign continuations iff it is none of the three harmful failures |
| Incidents.UnacknowledgedInsertIsReached | services/watchdog/internal/detector/detector.go:590-599 | a benign run from the start reaches an insert that takes effect and is reported as failed |
| Incidents.FailedResolveIsReached | services/watchdog/internal/detector/detector.go:638-647 | a benign run from the start reaches a failing resolve of an active event |
| Incidents.FailedReloadIsReached | services/watchdog/internal/detector/detector.go:61-64 | a benign run from the start reaches a failing reload while an event is active |
| Findings.EventKeepsItsKey | services/watchdog/internal/detector/detector.go:97-136 | the key derived from the stored event is the key used at emit, its kind that of the family, its severity a warning |
| Findings.SingleEventKeepsItsKey | services/watchdog/internal/detector/detector.go:97-136 | likewise for worker.down, queue.lag and dlq.nonempty, of which only the lag is a warning |
| Findings.EventsOfKey | services/watchdog/internal/detector/detector.go:97-136 | which stored events have a given key: a stale worker is told by the worker column, by the details only if that is empty, a task by the details alone |
| Findings.FamiliesAreDisjoint | services/watchdog/internal/detector/detector.go:266-278 | a key has a family's prefix iff it belongs to that detector, so detectors never resolve each other's keys |
| Findings.StoredKeysAreRecognised | services/watchdog/internal/detector/detector.go:97-136 | every derived key belongs to some detector |
| DownRule.RunFollows | services/watchdog/internal/detector/detector.go:289-359 | in every history, counter and map follow the rule, up to what the last probe still calls for |
| DownRule.DownRunIsOpen | services/watchdog/internal/detector/detector.go:289-359 | folding the rule over a trail gives the misses since the last success or restart, and whether something opened the incident and nothing closed it since |
| DownRule.DownIsExact | services/watchdog/internal/detector/detector.go:162-217 | over every history of watchdogs, with deaths, restarts, acknowledgements, resolutions and failing inserts, worker.down is in the map of an idle detector iff something opened it and nothing closed it since |
| DownRule.MissesAreFailedProbes | services/watchdog/internal/detector/detector.go:339-359 | the run of misses on a history's trail is the trailing run of failures among its probes |
| DownRule.DecidesExactly | services/watchdog/internal/detector/detector.go:339-359 | at the end of a detection, in every history, worker.down agrees with the trailing run of failed probes iff: after a success the threshold is positive; after a miss this life's misses reach it, or the incident was inherited just when the whole run reaches it; after a failed report never |
| DownRule.TrailingRunDecidesExactly | services/watchdog/internal/detector/detector.go:162-181 | in a whole history it agrees at the end of every detection iff that condition holds at each of them |
| DownRule.EvictionsAreRepaired | services/watchdog/internal/detector/detector.go:185-217 | in one life that found nothing open and whose reports were stored it agrees at the end of every detection, evictions or not, iff the threshold is positive or the last probe failed |
| DownRule.OpenInOneLife | services/watchdog/internal/detector/detector.go:289-359 | on the trail of one life the counter is the trailing run of misses, and the rule reports the incident iff that run reaches the threshold or the start found it open and no probe succeeded since |
| DownRule.DownExactlyInOneLife | services/watchdog/internal/detector/detector.go:289-359 | in a history of one life, with no eviction and no failed report, worker.down is in the map iff the trailing run of misses reaches the threshold, or the start found it open and no probe succeeded since |
| DownRule.RestartForgetsMisses | services/watchdog/internal/detector/detector.go:51-67 | a history with three trailing misses around a restart, unreported at threshold 3 |
| DownRule.DeathKeepsIncidentOpen | services/watchdog/internal/detector/detector.go:638-641 | a history with one trailing miss in which the incident is open at threshold 3: the watchdog died before resolving it |
| DownRule.AcknowledgedIncidentIsForgotten | services/watchdog/internal/detector/detector.go:185-217 | a history with four trailing misses and no incident: it was acknowledged, evicted and not reported again |
| DownRule.FourthMissReportsAgain | services/watchdog/internal/detector/detector.go:185-217 | the same in one life: evicted by a poll whose own probe fails, the incident is reported again by that poll |
| Detection.Detector.constructor | services/watchdog/internal/detector/detector.go:51-67 | a restart on the table and history that earlier watchdogs left behind resumes with exactly the keys of the active events, worker.down as the whole history demands |
| Detection.Detector.DownFollowsHistory | services/watchdog/internal/detector/detector.go:162-217 | whenever the detector is ready, worker.down is in its map exactly as the whole history demands |
| Detection.Detector.FailedProbesDecide | services/watchdog/internal/detector/detector.go:289-359 | after a detection, worker.down is in the map as the recorded probes' trailing run of failures says iff the condition on the history holds |
| Detection.Detector.LoadEntries | services/watchdog/internal/detector/detector.go:84-89 | the newest-first loop builds the reloaded map |
| Detection.Detector.ReconstructActiveState | services/watchdog/internal/detector/detector.go:72-94 | the map holds exactly the keys of the active events |
| Detection.Detector.Die | services/watchdog/internal/detector/detector.go:139-160 | a watchdog can die between any two effects, and leaves a table and history a restart can start from |
| Detection.Detector.Emit | services/watchdog/internal/detector/detector.go:590-627 | inserts, then enters the key with an entry that names the inserted event; a failed insert leaves the map alone; no other key changes |
| Detection.Detector.Resolve | services/watchdog/internal/detector/detector.go:631-674 | drops the key, and its event ends resolved in the table; nothing else leaves the map |
| Detection.Detector.ReconcileActiveState | services/watchdog/internal/detector/detector.go:185-217 | evicts only entries whose events are no longer active, and all that were not when it began |
| Detection.Detector.EmitFindings | services/watchdog/internal/detector/detector.go:243-264 | after the loop every finding has an entry, and only findings' keys were added |
| Detection.Detector.FindingsRemain | services/watchdog/internal/detector/detector.go:266-282 | removing what no finding accounts for leaves exactly the findings' keys |
| Detection.Detector.DetectFamily | services/watchdog/internal/detector/detector.go:394-443 | from any map, the family's keys become exactly the findings, other keys unchanged |
| Detection.Detector.DetectSingle | services/watchdog/internal/detector/detector.go:361-392 | the key is present iff the condition is, other keys unchanged |
| Observations.StaleFoundExactly | services/watchdog/internal/detector/detector.go:223-264 | workers being distinct, as the table's key has it, every one past the stale threshold is found iff the deletion failed or none has been silent for more than two minutes |
| Observations.LongSilenceIsNotFound | services/watchdog/internal/detector/detector.go:223-264 | with a threshold of 60 seconds, a worker silent for 121 seconds is not found |
| Detection.Detector.StaleFindings | services/watchdog/internal/detector/detector.go:237-264 | finds exactly the workers past the stale threshold whose heartbeat was not deleted as orphaned |
| Detection.Detector.DetectStaleWorkers | services/watchdog/internal/detector/detector.go:223-287 | with reliable inserts a worker has a stale key exactly if a heartbeat of it is older than the threshold and, if the orphaned ones were deleted, no older than two minutes; a failed read leaves the whole map as it was |
| Observations.HealthyWorkersAreNotShown | services/watchdog/internal/detector/detector.go:243-264 | then no worker within the threshold, and none without a heartbeat, has a key |
| Observations.WantedIsShown | services/watchdog/internal/detector/detector.go:223-552 | a map with the wanted keys has exactly one key per stale worker, listed stuck task and listed abandoned task, the lag key iff the depth exceeds the threshold, the DLQ key iff it is not empty, and no other but worker.down |
| Detection.Detector.DetectWorkerDown | services/watchdog/internal/detector/detector.go:289-359 | counter and incident follow the probe rule by one step |
| Detection.Detector.DetectTasks | services/watchdog/internal/detector/detector.go:394-520 | stuck and abandoned keys become exactly the listed tasks |
| Detection.Detector.DetectQueuesAndTasks | services/watchdog/internal/detector/detector.go:361-552 | lag, stuck, abandoned and DLQ keys become exactly the observed conditions |
| Detection.Detector.Poll | services/watchdog/internal/detector/detector.go:162-181 | from any map of any history, one probe; a fault-free poll leaves exactly the keys of the observed conditions, told in the observation's own fields, and every poll leaves worker.down exactly as the whole history demands, and in agreement with the trailing run of failed probes iff the condition on the history holds |
| RateLimit.RateLimiter.Allow | services/api/internal/http/ratelimit.go:33-56 | answers and updates one client's bucket as the rule says, no other client's |
| RateLimit.RateLimiter.Cleanup | services/api/internal/http/ratelimit.go:58-70 | drops exactly the clients silent for more than ten minutes |
| RateLimit.IdleIsFresh | services/api/internal/http/ratelimit.go:38-56 | after ten idle minutes a kept bucket answers as a new client's |
| RateLimit.SweepingLosesNothing | services/api/internal/http/ratelimit.go:58-70 | along every run the evicting limiter's buckets equal the other's, or are full there |
| RateLimit.EvictionIsUnobservable | services/api/internal/http/ratelimit.go:33-70 | with any cleanup schedule every request is answered as without eviction, when 600 rate >= burst >= 1 |
| RateLimit.EvictionUnobservableExactly | services/api/internal/http/ratelimit.go:33-70 | for every integer rate and burst, no sequence of events tells the limiters apart iff 600 rate >= burst >= 1 |
| RateLimit.AllowedExactly | services/api/internal/http/ratelimit.go:33-56 | without cleanup, for every integer rate and burst and in every run: a request is allowed iff it is the client's first, or no window of the client's requests that ends with it would exceed burst + rate (e - s) |
| RateLimit.KeepsToRuleExactly | services/api/internal/http/ratelimit.go:33-70 | with cleanup, in all ordered runs, iff 600 rate >= burst >= 1 |
| RateLimit.TokensAreAttained | services/api/internal/http/ratelimit.go:44-55 | some window up to a client's last request has used up everything but the tokens left |
| RateLimit.TokensAreConserved | services/api/internal/http/ratelimit.go:44-55 | allowed requests plus tokens left never exceed the burst plus the refill since the window began |
| RateLimit.WindowBoundedExactly | services/api/internal/http/ratelimit.go:33-70 | any stretch of a client's requests has at most burst + rate (e - s) allowed, in all runs with cleanup, iff 600 rate >= burst >= 1 |
| RateLimit.KeptWindowBoundedExactly | services/api/internal/http/ratelimit.go:33-56 | without cleanup iff rate >= 0 and burst >= 1 |
| Spans.SiblingsFacts | frontend/app/traces/[traceId]/page.tsx:120-142 | siblings are exactly the group's spans, sorted by start, ties in input order |
| Spans.ChainIsUnique | frontend/app/traces/[traceId]/page.tsx:120-128 | with distinct ids a span has at most one ancestor chain |
| Spans.DepthIsBoundedExactly | frontend/app/traces/[traceId]/page.tsx:134-146 | nested calls are bounded iff no ancestor chain repeats an id, and then by the number of spans; distinct ids suffice, whatever the parent links |
| Spans.DuplicateIdNeverReturns | frontend/app/traces/[traceId]/page.tsx:134-146 | two spans of one id, one the other's child, have ancestor chains of every length |
| Spans.FlattenIsExact | frontend/app/traces/[traceId]/page.tsx:134-150 | whenever the recursion is bounded, emits exactly the spans whose ancestor chain ends at a root; with distinct ids each once, with the chain's length as depth |
| Spans.VisitsAreChains | frontend/app/traces/[traceId]/page.tsx:134-150 | whenever the recursion is bounded, repeated ids or not, visits and ancestor chains are in bijection: each span is emitted once per chain, at its chain's depth |
| Spans.FlattenIsPreorder | frontend/app/traces/[traceId]/page.tsx:134-150 | each span follows its parent, one deeper, with only deeper spans between; with distinct ids siblings are ordered by start, ties in input order |
| SpanLinks.BoundedExactly | frontend/app/traces/[traceId]/page.tsx:134-146 | the recursion is bounded iff no line of parents from a top span down carries an id twice |
| SpanLinks.ShownExactly | frontend/app/traces/[traceId]/page.tsx:120-150 | whenever it is, a span is shown iff such a line leads to it, told from ids and parent ids alone |
| SpanLinks.TopIsShown | frontend/app/traces/[traceId]/page.tsx:120-128 | a span that names no parent, or one that is not in the trace, is shown at depth 0 |
| SpanLinks.MissingExactly | frontend/app/traces/[traceId]/page.tsx:120-150 | with distinct ids a span is missing iff following its parent ids comes back to a span |
| SpanLinks.CycleIsNotShown | frontend/app/traces/[traceId]/page.tsx:120-150 | two spans that name each other as parent are not shown |
| SpanLinks.AllShownExactly | frontend/app/traces/[traceId]/page.tsx:120-150 | with distinct ids no span is shown twice, and all are shown iff some rank grows along parent links |
| SpanLinks.ShownInOrder | frontend/app/traces/[traceId]/page.tsx:130-150 | depth 0 for spans without a parent in the trace, any other one level below its parent with only deeper ones between, and with distinct ids siblings by start time, ties in input order |
| SpanRows.RowIsDrawn | frontend/app/traces/[traceId]/page.tsx:106-137 | a row's offset and width are the span's start and duration in percent of the trace from its earliest start to its latest end, at least half a percent wide |
| SpanRows.BarsFitExactly | frontend/app/traces/[traceId]/page.tsx:106-137 | every bar lies within the chart iff some span ends no earlier than the first starts, or all coincide |
| SpanRows.MissingEndTimesDoNotFit | services/api/internal/tempo/client.go:95-96 | two spans whose end time could not be read have bars outside the chart |
| SpanRows.ProperBarsFit | frontend/app/traces/[traceId]/page.tsx:135-137 | without negative durations offset and unclamped width sum to at most 100, and clamping adds at most the minimum |
| SpanRows.GroupByParent | frontend/app/traces/[traceId]/page.tsx:120-128 | the loop collects exactly the roots and each span's children, in input order |
| SpanRows.RowBuilder.constructor | frontend/app/traces/[traceId]/page.tsx:112-130 | roots sorted, children grouped, no rows yet |
| SpanRows.RowBuilder.SortChildren | frontend/app/traces/[traceId]/page.tsx:141-142 | sorting one list in place gives the siblings in order, also when it was sorted before |
| SpanRows.RowBuilder.Walk | frontend/app/traces/[traceId]/page.tsx:134-146 | appends exactly the rows of the span's subtree |
| SpanRows.BuildSpanRows | frontend/app/traces/[traceId]/page.tsx:103-153 | for every input on which the recursion is bounded, the page's code returns one row per visit of the flattening, drawn to the span's times; a span without a parent in the trace has a row at depth 0, and with distinct ids a span has a row iff its parent ids run into no cycle |
| IncidentLists.CutCommutes | frontend/components/providers/sse-provider.tsx:196-201 | moving to the front and cutting is the same on a list cut before |
| IncidentLists.UncutIsScan | frontend/components/providers/sse-provider.tsx:169-202 | the never-cut lists are what reading the stream backwards gives, each incident by its last word |
| IncidentLists.RecentIsTruncation | frontend/components/providers/sse-provider.tsx:196-201 | the recent list is always the first 50 of the whole stream by last word, without duplicates |
| IncidentLists.EntriesAreLastWords | frontend/components/providers/sse-provider.tsx:169-202 | every entry of both lists is the last word on its incident, field by field: a message, with the type stripped of prefix and suffix and the resolution time iff resolved, or an entry of the latest snapshot |
| IncidentLists.LastWordsAreShown | frontend/components/providers/sse-provider.tsx:169-202 | and while they fit, every last word that was heard is shown so |
| IncidentLists.ActiveIsSound | frontend/components/providers/sse-provider.tsx:183-194 | nothing is shown active twice or after its last word said resolved |
| IncidentLists.ActiveIsExactWhile | frontend/components/providers/sse-provider.tsx:183-194 | the active list is exact after every event iff at most 50 are active each time one is reported |
| IncidentLists.FiftyFirstIncidentIsCut | frontend/components/providers/sse-provider.tsx:188-193 | of 51 incidents reported and active, the list shows at most 50 |
| IncidentLists.TypesMatch | frontend/components/providers/sse-provider.tsx:172-174 | a resolution carries the type its incident was reported with |
| Alerts.EffectiveLimit | services/api/internal/db/alerts.go:32-34 | limits from 1 to 100 are kept and any other counts as 50 |
| Alerts.PagesAreOrdered | services/api/internal/db/alerts.go:36-51 | pages followed by their cursors are together newest first, without repeats, and match the filter |
| Alerts.PageFilters | services/api/internal/db/alerts.go:36-56 | a page holds only alerts outside chaos runs of the requested status, severity and type and older than the cursor; all of them if it is not full, and all newer than its last if it is |
| Alerts.CompleteExactly | services/api/internal/db/alerts.go:73-77 | whatever the database answers, following the cursors lists every matching alert iff no whole number of pages ends within a group of alerts of one creation time, counted in the table |
| Alerts.CompleteWhenNoTieIsCut | services/api/internal/db/alerts.go:73-77 | equivalently, no page but the last cuts through alerts of one creation time |
| Alerts.TiedAlertIsLost | services/api/internal/db/alerts.go:73-77 | three alerts, two created at once, in pages of two: the third is never listed |
| Alerts.DistinctTimesAreComplete | services/api/internal/db/alerts.go:73-77 | with distinct creation times the pages hold exactly the matching alerts |
| Alerts.PagesRunOut | services/api/internal/db/alerts.go:73-77 | all pages but the last are full, so there are at most matching / limit + 1 |
| Alerts.PagingEnds | services/api/internal/db/alerts.go:36-77 | from any point the client can go on and comes to a page without a cursor |
| Alerts.AlertStore.ListAlerts | services/api/internal/db/alerts.go:31-78 | returns the rows read, which pass the filter, and a cursor iff the page is full, or fails iff the query, a row or the read-out failed |
| Alerts.AlertStore.AcknowledgeAlert | services/api/internal/db/alerts.go:80-91 | acknowledges exactly the active alerts of that id and reports whether there was one |
| Alerts.AcknowledgingKeepsPages | services/api/internal/db/alerts.go:36-51 | an acknowledgement changes no answer to a query for alerts of every status |
| Percentiles.SortedIsUnique | cmd/loadtest/collector.go:254-266 | there is one sorted order of a multiset of values |
| Percentiles.AtIsMonotone | cmd/loadtest/collector.go:268-280 | interpolation between neighbours of a sorted list does not decrease |
| Percentiles.PercentileIsMonotone | cmd/loadtest/collector.go:268-280 | higher percentages give higher values, from the minimum at 0 to the maximum at 100 |
| Percentiles.PercentileInterpolates | cmd/loadtest/collector.go:268-280 | between two whole ranks the value lies on the line between their values, in proportion, for every list and percentage |
| Percentiles.PercentileIsExact | cmd/loadtest/collector.go:268-280 | in whole numbers: the value at rank pct (n - 1) / 100, plus as many hundredths of the step to the next as the division leaves |
| Percentiles.BucketIsOrdered | cmd/loadtest/collector.go:254-266 | min <= p50 <= p95 <= p99 <= max for every input |
| Percentiles.BucketBounds | cmd/loadtest/collector.go:263-264 | min and max are measured values that bound all others |
| Percentiles.BucketIgnoresOrder | cmd/loadtest/collector.go:254-266 | a bucket depends only on the multiset of values |
| Percentiles.PercentilesOfHundredAndOne | cmd/loadtest/collector.go:272-277 | of 101 values the percentiles are the values at positions 50, 95 and 99 |
| Percentiles.ComputeBucket | cmd/loadtest/collector.go:254-266 | sorts the values in place; p50, p95 and p99 are the interpolated values at their ranks, for every length, min and max the ends; zeros for none |
| Broker.ReceivedInOrder | services/api/internal/event/broker.go:41-52 | what a subscriber received and has buffered is an in-order subsequence of what was published since it subscribed |
| Broker.AttemptsAddUp | services/api/internal/event/broker.go:41-52 | attempted sends = received + buffered (or discarded with a closed channel) + dropped |
| Broker.OfferIsSound | services/api/internal/event/broker.go:44-50 | an offer keeps a channel's history exact, drops only when 16 are buffered, and never among the first 16 |
| Broker.Broker.Subscribe | services/api/internal/event/broker.go:23-29 | a new empty channel gets the subscription; one of the same name loses it without being closed |
| Broker.Broker.Unsubscribe | services/api/internal/event/broker.go:31-38 | closes the subscriber's channel once and forgets it; an unknown name changes nothing |
| Broker.Broker.Publish | services/api/internal/event/broker.go:41-52 | offers the message to exactly the subscribers, never to a closed channel, and counts the drops |
| Broker.Broker.Receive | services/api/internal/http/sse.go:60-63 | a subscriber takes the oldest buffered message |
| WorkQueue.Queue.Enqueue | services/api/internal/queue/queue.go:33-47 | accepts or refuses and counts the refusal; refuses exactly when as many tasks as the capacity were accepted and not received |
| WorkQueue.Queue.Receive | services/api/internal/queue/queue.go:50-52 | tasks are received in the order they were accepted, none lost or doubled |
| WorkQueue.Queue.Depth | services/api/internal/queue/queue.go:55 | the depth is what was accepted and not received, within the capacity |

## Left out

- HTTP routing, CORS, token checks, JSON decoding, telemetry, metrics, logging and the SSE publishes of worker and
  watchdog.
- Time. Visibility timeouts, deadlines, poll intervals and the 30-second release are not timed: expiry, ticks and
  cleanup may come at any point. Retention expiry of messages and spontaneous duplication by the queue service are not
  modelled.
- Floating point: tokens, percentiles and bar geometry are over the reals, on one monotone clock.
- The worker's mode without a database, and its heartbeats.
- DeliveryClaims.ClaimsAreExclusive: for the chaos runner's own tasks, runs with its bulk failure of stuck tasks are
  excluded, because it breaks the claim; ClaimsAreExclusiveExactly and TakeoverIsSafeExactlyWhenUnheld say when.
- DeliveryQuiet.NoStrandingExactly: quiet runs exclude crashes, failing row updates, expiry under a live attempt,
  operator retries, purges of the main queue and the chaos runner.
- Detection.Detector.Poll: inserts that take effect but are reported as failed, failed resolves of active events and
  failed reloads are excluded; SafeExactlyWhenBenign shows that each breaks uniqueness.
- Detection.Detector.ReconcileActiveState: evicts acknowledged events as the code does, so nothing is said about their
  later resolution.
- DownRule.DownIsExact: the threshold of failed probes is the same in every life of the watchdog.
- Two watchdogs at once, deletion of chaos tasks and runs, schema migrations.
- Alerts.CompleteExactly: the table, the chaos runs and the database's NOW are fixed while the pages are followed; the
  cursor is the creation time itself, not its text.
- IncidentLists.RecentIsTruncation: the details of an incident are not modelled; snapshots list each incident once.
- Percentiles.ComputeBucket: the library's sort is represented by assigning a verified sorted sequence.
- Broker.Broker.Publish: publishes are serialised, as the whole broker is; concurrent publishes under the read lock
  are not interleaved.
- Handlers.TaskHandler.Create: the input's length is counted in characters; the code counts bytes.
- Task events on the dashboard, reconnect timers, charts and formatting.
