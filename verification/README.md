# Carapulse: plan execution, limits, hubs, approvals and timers, in Dafny

Carapulse plans infrastructure changes, gates them on approval, runs them, verifies them and rolls
them back. This project models the state machines at its core and proves what they keep over whole
runs. Each object whose methods update fields is a class whose methods are proved against a function
of the old state; the properties of whole runs are lemmas about those functions.

| file | what it models |
|---|---|
| `Prelude.dfy`, `Text.dfy`, `Stages.dfy` | optional values and store answers; string tests and what they mean; plan steps and their act and verify stages |
| `PlanProtocol.dfy` | what a plan run does, given the environment's answers and a number of tries per activity; its traces |
| `CallLog.dfy` | what each activity calls, with which tool, action and input, what comes of it and what it does to the world |
| `Compensation.dfy`, `ToolCallLedger.dfy`, `Retries.dfy` | where rolling back leaves the world, with and without retries; tool-call rows record their attempts; what retrying changes |
| `Executor.dfy`, `Temporal.dfy` | the executor, and the two Temporal workflows that repeat its protocol with retried activities |
| `RateLimiter.dfy` | the token bucket with its idle-entry sweep |
| `Hub.dfy`, `LogHistory.dfy`, `HubClasses.dfy` | subscriptions, bounded channels, bounded histories with eviction |
| `ApprovalLedger.dfy`, `ApprovalGate.dfy` | approval rows and the gate on `:execute` |
| `LinearWatcher.dfy` | the Linear watcher and the plan ids embedded in issues |
| `ApprovalFlow.dfy` | watcher, rows and gate together, from a label to an execution |
| `EventGate.dfy`, `AlertDedup.dfy`, `Scheduler.dfy`, `JwksCache.dfy` | the time-driven gates |
| `WebSocket.dfy` | the text-frame writer against a decoder for section 5.2 of RFC 6455 |
| `PollingWatcher.dfy` | the incremental snapshot feed and its ingestion |

`dafny verify dfyconfig.toml` checks everything.

## How the outside world appears

Tools, object store, tool-call table, Linear, the approval store, the schedule store and the key
server answer through oracles or through parameters, so every sequence of successes and failures is
covered. A write to a database is saved, rejected, or saved with an error reported (`Stored`); an object
store, a tool's evidence and a read have no state of their own here and are a bit each. A watcher that
ends at an error lists again only as a new process with an empty memory. Time is an integer (nanoseconds), tokens are reals. A nondecreasing clock, `burst >= 1`,
and `rate >= 0` are stated as hypotheses where they are used. A method that the source runs under one
lock, and each database call, is one atomic step. So a sync of the Linear watcher is a listing followed by
one step per listed issue, and an `:execute` request is its status read followed by its creation, with
anything happening in between. The hash read and the check for an active execution sit between those two
steps as answers: nothing is claimed about executions of one plan excluding each other.

## Where a promise holds only under a condition

- **Rolling back an act failure.** A step can fail before its tool runs (its row or its stored input is
  refused); the executor still runs that step's rollback. `ActFailureRestoresWorld` says where the world
  ends in either case, `ActFailureCanMoveWorld` gives a plan that is `rolled_back` to a world it was never in.
- **Rolling back a retried plan.** The executor's rollback after a failed verification restores the world
  (`VerifyFailureRestoresWorld`). A workflow's may not: a try that acts and then fails is not undone
  (`RetriedStepLeavesResidue`). `VerifyFailureWorld` gives the exact world when the failed tries of all but
  the first act step left it alone: it is restored exactly if those of the first step did too.
- **Completing executions.** An execution whose `running` write is saved and reports an error is left
  running; every other one that is marked gets exactly one completion (`CompletedExactlyOnce`).
- **Retried activities.** For the same activity outcomes executor and workflows do the same
  (`SameOutcomesSameRun`). Facing the same tools and store, retrying changes nothing exactly if the plan
  succeeds without it (`RetriesChangeNothingIff`); `RetriesCanChangeOutcome` is a plan that fails in the
  executor and succeeds, with one row more, in a workflow. World and rows can still coincide by accident in
  runs that differ (`SameRowsByAccident`), which is why the condition is about everything a run did.
- **Denied between read and creation.** A denial written after an `:execute` request read the status does
  not stop it (`DenialInBetween`). The latest decision at the creation is still an approval exactly if every
  denial in between was itself followed by an approval (`CreatedWhileApprovedIff`).
- **Several issues for one plan.** Each pending request opens another Linear issue. If only the watcher
  decides on a plan, the latest decision is the last change of status among all its issues
  (`DecisionIsLastChange`); it is the last status of one issue if that is the plan's only one
  (`DecisionIsLastProcessed`), and `TwoIssuesDisagree` is a run with two in which it is not.
- **Listed and not yet written.** While the watcher's calls succeed, the latest decision is the last change
  listed for the plan exactly while no listed change waits in an unfinished sync
  (`DecisionIsLastObservedIff`). `ListedDenialNotYetWritten` executes a plan in that gap.
- **Approval, then another request.** A later approval request leaves a pending row that an unordered
  by-plan read may return, so an approved plan may be refused (`ApprovedYetRefused`);
  `GateOpensForEveryRead` says exactly when it cannot be.
- **The rate limiter's sweep.** It is invisible exactly if a bucket idle for just over ten minutes is
  full again (`SweepInvisibleIff`), and exactly then admissions are bounded by burst and rate
  (`AdmissionBoundIff`); `burst <= 600 * rate` is enough (`TenMinutesRefill`).
- **At most one plan per cron occurrence.** It holds exactly for schedules that never run out, with plans
  created without error and last-run writes that take effect (`AtMostOncePerOccurrenceIff`). With no
  occurrence left the cron library answers the zero time, which is never after now, so the schedule fires at
  every poll (`ExhaustedFiresAnyway`); after a write that goes wrong in either way the same occurrence gets a
  second plan (`FailedWriteFiresAgain`).
- **The incremental feed.** It keeps every id, but a record that changes while its id stays present is
  not sent again (`StaleRecord`): `StoresCompared` says exactly which records differ from full ingestion. An
  ingestion that the store cuts short loses ids that full ingestion would make up for
  (`CutIngestionLosesId`); `CutDeltasKeepIdIff` says exactly which ids are kept.
- **Embedded plan ids.** They are read back exactly if they are `plan_` and digits (`EmbeddedIdRoundTrip`);
  `plan_1a` is read back as `plan_1` (`LongerIdReadShort`).
- **The event gate's returned state.** It differs from the stored row exactly if a suppression that has run
  out is not renewed (`ReportedIsWrittenIff`). Counting and spacing are over the events whose write took effect,
  and hold whatever writes fail.

Two further observations about the code. The executor refuses ids of white space only, while
PlanExecutionWorkflow refuses only the empty id. The query behind `ListPlanSteps`
(internal/db/queries.go:185-202) does not select a stage, so steps read through it all belong to the
act stage; the model takes steps with any stage, as the executor's interface does.

## Model

| member | source | states |
|---|---|---|
| Stages.SelectIsStableFilter | internal/workflows/stages.go:5-19 | each stage holds exactly the matching steps, each once, in original relative order |
| Stages.SplitStepsByStage | internal/workflows/stages.go:5-19 | the loop returns those two stages |
| Stages.VerifyStageIff | internal/workflows/stages.go:21-24 | a step is a verify step exactly if its stage reads `verify` in any case with white space around |
| PlanProtocol.OneTry | internal/workflows/executor.go:124-155 | with one try an activity is its one call, as in the executor |
| PlanProtocol.RunAllTrace | internal/workflows/executor.go:124-143 | for any number of tries, a stage's trace is a successful prefix and, if it stopped, the one failing step |
| PlanProtocol.UnwindTrace | internal/workflows/executor.go:147-155 | every act step gets one rollback attempt, in exact reverse order, and the unwinding succeeds exactly if all do |
| PlanProtocol.TraceShape | internal/workflows/executor.go:123-155 | every run has one of three trace shapes, and ends `rolled_back` exactly if each rollback its shape attempts succeeded |
| PlanProtocol.EvidenceIff | internal/workflows/executor.go:347-366 | the tools whose steps record evidence, by name |
| CallLog.ProtocolExplained | internal/workflows/executor.go:188-254 | over a plan, retried or not, each call of a step attempts that step's tool, action and input, each rollback those its rollback names if it is usable and nothing otherwise, and there are no other attempts; a call succeeds exactly if its row, input, tool, output, update and evidence did; each attempt finds the world the one before it left |
| CallLog.StageAttempts | internal/workflows/executor.go:124-143 | a stage of the executor attempts exactly its steps' calls, in order, up to the first that fails |
| CallLog.UnwindAttempts | internal/workflows/executor.go:147-155 | an unwinding attempts exactly the usable rollbacks, last step first, with the tool, action and input each rollback names |
| CallLog.ProtocolGrouped | internal/workflows/temporal_workflow.go:25-71 | every activity is its own calls, all failing but the last of one that succeeds, and as many as its tries if it fails; no call is made outside of an activity |
| Compensation.LastTryDecides | internal/workflows/temporal_workflow.go:25-30 | a retried activity ends as its last call does |
| Compensation.UnwindInvertsRun | internal/workflows/executor.go:147-155 | for any number of steps and tries, a fully successful unwinding of a fully successful stage leaves the world as the first step's last try found it, if rollbacks undo successful calls and the other failed tries left the world alone |
| Compensation.VerifyFailureWorld | internal/workflows/temporal_workflow.go:50-71 | under the same conditions and with verify steps that only read, that is the exact world after a verify failure with every rollback done |
| Compensation.VerifyFailureRestoresWorld | internal/workflows/executor.go:134-143 | the executor's verify failure that ends `rolled_back` leaves the world as before the plan, if rollbacks undo successful steps and verify steps only read |
| Compensation.RetriedStepLeavesResidue | internal/workflows/temporal_workflow.go:25-71 | a plan whose act step acts, fails and is tried again: every rollback succeeds and the world is one off |
| Compensation.ActFailureRestoresWorld | internal/workflows/executor.go:124-133 | for any number of tries, an act failure that is rolled back leaves the world as the failing step's last call found it if that call reached the tool, and otherwise as the rollback leaves that untouched world |
| Compensation.ActFailureCanMoveWorld | internal/workflows/executor.go:188-197 | a concrete plan, with an undoing rollback, that ends `rolled_back` in a world it did not start from |
| ToolCallLedger.ProtocolKeepsLedger | internal/workflows/executor.go:188-254 | over a plan, retried or not, attempts and rows are only added and the table stays the exact record of the attempts |
| ToolCallLedger.ExactTable | internal/workflows/executor.go:188-254 | in an exact table every insert that took effect has one row, updated once unless the insert reported an error; it stays running exactly if its own update did not take effect or was never issued, and otherwise says whether its own attempt was fine |
| Retries.ProtocolFollowsScript | internal/workflows/executor.go:123-155 | activities and status of a run are determined by the activities' outcomes, whatever tools, rows and number of tries |
| Retries.SameOutcomesSameRun | internal/workflows/temporal_workflow.go:25-74 | runs with the same activity outcomes, in any environments and with any tries, issue the same activities and end with the same status |
| Retries.RetriesChangeNothingIff | internal/workflows/temporal_workflow.go:25-30 | in one environment a retried run makes the calls of the unretried one exactly if that one succeeds, and then world, rows and trace are equal too |
| Retries.RetriesCanChangeOutcome | internal/workflows/temporal_catalog.go:77-82 | a tool that fails once: the unretried plan fails with one row, the retried one succeeds with two |
| Retries.SameRowsByAccident | internal/workflows/temporal_catalog.go:77-82 | a plan `rolled_back` without retries and successful with them, with equal worlds and rows |
| Executor.CompletedExactlyOnce | internal/workflows/executor.go:81-145 | in every batch each execution marked running without error is completed exactly once and later ones are untouched; one whose mark was saved and reported an error is left running |
| Executor.BatchKeepsLedger | internal/workflows/executor.go:97-103 | the same of a whole batch of executions |
| Executor.BatchLogs | internal/workflows/executor.go:97-103 | a batch keeps its logs so explained, with one call per activity |
| Executor.PlanOutcome | internal/workflows/executor.go:106-145 | what one execution comes to in each case: untouched, completed as failed without running anything, or completed with the status of its trace's shape; and when that is an error |
| Executor.PlanExecutor.ExecuteStep | internal/workflows/executor.go:188-221 | world, rows and outcome are those of one call of the protocol's step |
| Executor.PlanExecutor.ExecuteStepBody | internal/workflows/executor.go:188-221 | insert, input, tool, output, update and evidence in that order, stopping at the first refusal |
| Executor.PlanExecutor.TryRollback | internal/workflows/executor.go:223-254 | a usable rollback is one more attempt, an unusable one fails and touches no row and no world |
| Executor.PlanExecutor.TryRollbackBody | internal/workflows/executor.go:234-253 | the attempt's rows, world and outcome |
| Executor.PlanExecutor.StepOnce | internal/workflows/executor.go:124-143 | the executor's step is the activity with one try |
| Executor.PlanExecutor.UndoOnce | internal/workflows/executor.go:124-155 | so is its rollback |
| Executor.PlanExecutor.RollbackSteps | internal/workflows/executor.go:147-155 | the loop is the protocol's unwinding |
| Executor.PlanExecutor.RunSteps | internal/workflows/executor.go:124-143 | the stage loops are the protocol's stage run |
| Executor.PlanExecutor.ExecutePlan | internal/workflows/executor.go:106-145 | refusals touch nothing; otherwise the protocol runs once between one `running` and one completion |
| Executor.PlanExecutor.RunOnce | internal/workflows/executor.go:81-104 | a batch runs executions in order up to the first error and counts the finished ones |
| Temporal.ExecuteStepActivity | internal/workflows/temporal_activities.go:27-33 | the retry loop is the activity with up to five calls of executeStep, stopping at the first that succeeds |
| Temporal.RollbackStepActivity | internal/workflows/temporal_activities.go:35-41 | the same of tryRollback |
| Temporal.PlanExecutionWorkflow | internal/workflows/temporal_workflow.go:19-75 | the protocol with five tries between one `running` and one completion; `failed` recorded for every unsuccessful plan |
| Temporal.VerifyThenComplete | internal/workflows/temporal_workflow.go:50-74 | its verify loop, reverse rollback loop and completion |
| Temporal.RunWorkflowSteps | internal/workflows/temporal_catalog.go:74-131 | the same of the catalog's own body, after its approval check and creation, which touch nothing when refused |
| Temporal.FinishWorkflow | internal/workflows/temporal_catalog.go:109-130 | its part after the act loop |
| Temporal.WorkflowLogs | internal/workflows/temporal_workflow.go:25-30 | the logs of a workflow run are so explained, with at most five calls per activity and exactly five for one that fails |
| Temporal.ThreeImplementationsAgree | internal/workflows/executor.go:123-144 | for the same activity outcomes the three issue the same activities, fail together and write the same statuses up to `rolled_back` against `failed`; in one environment they leave equal worlds, rows and calls exactly if the executor completes with success |
| RateLimiter.RateLimiter.Allow | internal/web/ratelimit.go:34-73 | sweep loop and bucket update in place give the limiter's step |
| RateLimiter.SweepInvisible | internal/web/ratelimit.go:40-72 | each client is answered as by a bucket of its own that is never swept and sees only its requests |
| RateLimiter.SweepVisible | internal/web/ratelimit.go:40-49 | otherwise some run with a nondecreasing clock tells them apart |
| RateLimiter.SweepInvisibleIff | internal/web/ratelimit.go:40-72 | the condition is exact |
| RateLimiter.TenMinutesRefill | internal/web/ratelimit.go:41-48 | `burst <= 600 * rate` meets the condition |
| RateLimiter.AdmissionBound | internal/web/ratelimit.go:34-73 | under the condition, in any run and interval [s, t] a client is admitted at most burst + rate * (t - s) times |
| RateLimiter.BoundBroken | internal/web/ratelimit.go:40-49 | otherwise draining, waiting just over ten minutes and draining again breaks that bound |
| RateLimiter.AdmissionBoundIff | internal/web/ratelimit.go:34-73 | the bound holds over all runs, clients and intervals exactly under the condition |
| RateLimiter.AdmitsExactlyWhatRefills | internal/web/ratelimit.go:61-72 | under the condition, a request is admitted exactly if, counting from each earlier request of the client, one more than were admitted since is at most burst + rate * the time since |
| RateLimiter.SpacedAlwaysAdmitted | internal/web/ratelimit.go:61-72 | a client whose requests are at least 1/rate apart is never refused, under any configuration and whatever is swept |
| RateLimiter.TokensInRange | internal/web/ratelimit.go:61-71 | every stored balance stays in [0, burst] |
| RateLimiter.SweepDropsExactly | internal/web/ratelimit.go:40-49 | a request more than five minutes after the last sweep drops exactly the other entries idle for more than ten; any other drops none |
| RateLimiter.EntriesAreRecent | internal/web/ratelimit.go:40-49 | after every run each stored entry was last checked within fifteen minutes |
| Hub.NeverPanics | internal/web/events.go:25-81 | in every interleaving no channel is closed twice or sent to after closing, and buffers hold at most 8 |
| Hub.SubscriberOnItsOwn | internal/web/events.go:25-81 | a subscriber's channel is what it would be with no other subscriber, key or receiver, and stays listed exactly until cancelled |
| Hub.DeliveredInOrder | internal/tools/logs.go:98-103 | a subscriber on its own gets an in-order subsequence of the items sent for it since it subscribed, each at most once, a drop happening exactly when its 8-slot buffer is full |
| Hub.HubDelivers | internal/web/events.go:57-81 | the same of the hub's own channel in every interleaving: a send reaches it exactly if the hub lists it and its buffer has room at that moment |
| Hub.ReadTakesOldest | internal/web/ws.go:50-57 | a read takes the oldest waiting item and changes nothing else |
| Hub.ReadingOnGetsAll | internal/web/ws.go:50-57 | a receiver that reads on, also after cancelling, gets everything that waits, in order, and then nothing |
| HubClasses.EventHub.Subscribe | internal/web/events.go:25-55 | a new open empty channel under the key, a fresh id, the invariant kept |
| HubClasses.EventHub.Cancel | internal/web/events.go:38-53 | closes the channel once, forgets an empty key, repeated calls change nothing, the invariant kept |
| HubClasses.EventHub.Receive | internal/web/ws.go:50-57 | a read moves the oldest buffered item to the receiver and changes nothing else |
| HubClasses.EventHub.SendTo | internal/web/events.go:63-70 | every listed channel is offered the item once, full ones drop it, the invariant kept |
| HubClasses.EventHub.Publish | internal/web/events.go:57-81 | the session's and the global subscribers are each offered the event once |
| HubClasses.LogHub.Append | internal/tools/logs.go:71-104 | history, eviction and delivery together are one step with an allowed eviction |
| HubClasses.LogHub.Remember | internal/tools/logs.go:74-97 | the line is recorded and trimmed, then an allowed set of keys is gone |
| HubClasses.LogHub.Evict | internal/tools/logs.go:84-97 | whatever the iteration order, idle keys only are removed, just enough or all of them |
| LogHistory.CoreIsHubRun | internal/web/events.go:109-173 | the log hubs' subscriptions are a hub run without a global key |
| LogHistory.HistoryIsRecentTail | internal/tools/logs.go:71-97 | a key's history has min(n, maxLines) lines, n being the lines appended since its last eviction, and its i-th line is the i-th of the last that many |
| LogHistory.KeysBounded | internal/tools/logs.go:82-97 | after any append at most maxKeys histories, or every other one has a live subscriber |
| LogHistory.EvictsNoMoreThanNeeded | internal/tools/logs.go:82-97 | an append keeps its own key, drops another only if it has no subscriber and maxKeys histories are still left, and changes no other |
| LogHistory.LiveKeyNeverEvicted | internal/web/events.go:154-166 | while a subscription lives its key keeps everything it had and everything appended since, up to maxLines |
| ApprovalLedger.RowsAreRequests | internal/db/queries.go:546-556 | in every run there is exactly one row for each id requested, with the plan of its first request and the latest decision on that plan since, or `pending` |
| ApprovalLedger.ApprovedIffLatest | internal/db/approvals.go:20-26 | a plan has an approved row exactly if its latest by-plan write was an approval and it had a row then |
| ApprovalLedger.ExecutionsIff | internal/web/http.go:578-715 | in every run the executions are exactly those of a check with session, context, constraints and policy in order and, for a write plan, an approved row of the plan and of the given token, followed by the same caller's creation with hash, activity and store in order |
| ApprovalLedger.ExecutionsInOrder | internal/web/http.go:711-715 | each is created once |
| ApprovalLedger.ReadWasApproved | internal/web/http.go:675-711 | in every interleaving of requests, an execution of a write plan comes from a request that read the status when the latest decision was an approval, whichever row was read |
| ApprovalLedger.StillApprovedIff | internal/db/approvals.go:20-26 | between two moments an approval stays the latest decision exactly if every denial in between is followed there by an approval |
| ApprovalLedger.CreatedWhileApprovedIff | internal/web/http.go:675-711 | so at the creation the latest decision is still an approval exactly if no denial since the read lasted |
| ApprovalLedger.DenialInBetween | internal/web/http.go:675-711 | a run in which a plan is executed while the latest decision on it is `denied` |
| ApprovalLedger.AllApprovedIff | internal/db/queries.go:546-556 | all rows of an approved plan are approved exactly if no request came since |
| ApprovalLedger.GateOpensForEveryRead | internal/db/approvals.go:8-18 | the gate opens for every row a read could return exactly in that case |
| ApprovalLedger.ApprovedYetRefused | internal/db/approvals.go:8-18 | a run in which an approved plan is refused because a newer request is read |
| ApprovalGate.NormalizeIff | internal/web/approvals_helpers.go:5-16 | blank is pending; otherwise exactly the four words in any case with white space around |
| ApprovalGate.Server.CreateApproval | internal/db/queries.go:546-556 | one pending row, or an error and no change for an id in use or a failing store |
| ApprovalGate.Server.RequestApproval | internal/web/http.go:300-312 | the row stays when creating the Linear issue fails, and the error is reported |
| ApprovalGate.Server.UpdateApprovalStatusByPlan | internal/db/approvals.go:20-26 | every row of the plan and no other gets the status, nothing changes when the store fails |
| ApprovalGate.Server.ApprovalStatus | internal/web/http.go:1411-1428 | the status of some row matching plan and token, an error exactly if there is none or the plan id is blank |
| ApprovalGate.Server.HandleApprovals | internal/web/http.go:914-956 | pending inserts a request, other decisions are written by plan; bad input, a policy denial or a store error change nothing |
| ApprovalGate.Server.CheckExecute | internal/web/http.go:578-687 | the request goes on exactly if session, context, constraints and policy are in order and, for a write plan, the row read is the plan's, approved and that of the given token; otherwise nothing but the clock moves |
| ApprovalGate.Server.FinishExecute | internal/web/http.go:688-715 | an execution is created exactly if the hash agrees, none is active and the store accepts it |
| LinearWatcher.LabelRoundTrip | internal/approvals/linear.go:180-209 | relabelling an issue and reading its labels gives the status back |
| LinearWatcher.StatusOfLabels | internal/approvals/linear.go:195-209 | approved goes before denied before expired before pending |
| LinearWatcher.ExtractPlanId | internal/approvals/linear.go:220-238 | the loops find the first `plan_` and the digits after it |
| LinearWatcher.ExtractedIsPlanId | internal/approvals/linear.go:220-238 | whatever is extracted is `plan_` and at least one digit |
| LinearWatcher.ExtractedIff | internal/approvals/linear.go:220-238 | what is extracted is at the first `plan_` of the text, with all digits that follow, and nothing if none follows |
| LinearWatcher.PlanOfIssue | internal/approvals/watcher.go:88-94 | an issue's plan is the one in its description, or else the one in its title |
| LinearWatcher.EffectiveIff | internal/approvals/watcher.go:84-103 | what an issue says, by its labels, and that a pending one says expired exactly if it is older than the timeout |
| LinearWatcher.TurnIs | internal/approvals/watcher.go:95-111 | when a turn fails, writes and remembers |
| LinearWatcher.EmbeddedIdRoundTrip | internal/approvals/linear.go:62-67 | from an issue's description or title exactly the ids `plan_` and digits are read back |
| LinearWatcher.LongerIdReadShort | internal/approvals/linear.go:220-238 | `plan_1a` is read back as `plan_1` |
| LinearWatcher.Watcher.SyncOnce | internal/approvals/watcher.go:71-113 | one sync is the loop over the listed issues, stopping at the first error |
| LinearWatcher.SyncStopsAtError | internal/approvals/watcher.go:83-112 | a sync goes through the issues in order and stops at the first turn that fails; later issues make no difference |
| LinearWatcher.LoopStopsAtError | internal/approvals/watcher.go:54-68 | the loop goes on after a sync exactly if that succeeded |
| LinearWatcher.LastIsLastWrite | internal/approvals/watcher.go:104-110 | after any syncs up to the first error the memory of each issue is its last confirmed write |
| LinearWatcher.WritesAreStatusChanges | internal/approvals/watcher.go:83-111 | over error-free syncs an issue's writes are its observed effective statuses with repeats collapsed |
| LinearWatcher.WritesNameEmbeddedPlan | internal/approvals/watcher.go:88-110 | each write for an issue the client created names the plan it embedded |
| ApprovalFlow.TurnsAreSync | internal/approvals/watcher.go:71-113 | taking its turn on each listed issue the watcher does what a sync does, and runs on exactly if that succeeds |
| ApprovalFlow.WritesAreChanges | internal/approvals/watcher.go:83-111 | in every interleaving, failing syncs and restarts included, the writes for a plan are exactly the changes of status got through with among all its issues, and the memory is the last status of each issue since the start |
| ApprovalFlow.DecisionIsLastChange | internal/approvals/watcher.go:83-111 | if only the watcher decides on a plan, the latest decision is at every moment the last of those changes |
| ApprovalFlow.DecisionIsLastProcessed | internal/approvals/watcher.go:83-111 | with one issue for the plan it is the last status processed for that issue |
| ApprovalFlow.TwoIssuesDisagree | internal/web/http.go:300-312 | a run with two issues for a plan in which the first was last found approved and the latest decision is `denied` |
| ApprovalFlow.ListedIsProcessedOrQueued | internal/approvals/watcher.go:71-83 | while its calls succeed, what the watcher has listed is what it has got through with and what its sync has still to reach |
| ApprovalFlow.DecisionIsLastObservedIff | internal/approvals/watcher.go:71-111 | then the latest decision on a plan is the last change listed for it exactly while no listed change waits in an unfinished sync |
| ApprovalFlow.ListedDenialNotYetWritten | internal/approvals/watcher.go:71-111 | a run in which a plan is executed after its issue was listed as denied |
| ApprovalFlow.ExecutedOnlyWhenLabelled | internal/web/http.go:675-711 | if only the watcher decides on a plan, a write plan is executed only by a request that read its status when the last change processed for the plan was `approved`, and that is still so at the creation exactly if no denial processed in between lasted |
| EventGate.EventGates.UpsertEventGate | internal/db/event_gates.go:18-79 | only the key's row changes, as the gate step says, nothing on an error; the state comes back whenever the row was read |
| EventGate.ReportedIsWrittenIff | internal/db/event_gates.go:52-72 | the returned state is the row written, except for a suppression that has run out and is not renewed, which it keeps |
| EventGate.PassesIff | internal/db/event_gates.go:52-67 | a recorded event passes exactly if none passed less than backoff before it and minCount is at most 1 or at least minCount events came since the first_seen stored with it |
| EventGate.FirstSeenIs | internal/db/event_gates.go:60-64 | that first_seen moves exactly at the first event and at one that is not too soon and comes more than the window after it |
| EventGate.LetThroughIff | internal/db/event_gates.go:31-79 | in a run over all keys an event whose write is saved is let through exactly if it passes among its key's recorded events |
| EventGate.CountIsEventsSinceFirstSeen | internal/db/event_gates.go:52-66 | whatever writes fail, a key's stored count is the number of its recorded events at or after first_seen |
| EventGate.PassesAreBackoffApart | internal/db/event_gates.go:52-72 | whatever writes fail, two events of a key let through without error are at least backoff apart |
| EventGate.PassHasMinCount | internal/db/event_gates.go:60-67 | whatever writes fail, an event let through without error ends at least minCount recorded events of its key within the window |
| EventGate.KeysDoNotInterfere | internal/db/event_gates.go:31-34 | in a run over all keys, whatever writes fail, each row is that of the key's own recorded events |
| AlertDedup.AlertPoller.ShouldSkip | internal/web/alerts.go:123-143 | the map update and the eviction loop are the dedup step |
| AlertDedup.AlertPoller.RunOnce | internal/web/alerts.go:81-120 | alerts without a fingerprint are passed over; the rest are checked in order and those not skipped are handled |
| AlertDedup.HandlesWhatIsNotSkipped | internal/web/alerts.go:82-119 | a poll handles exactly the candidates that the run over everything seen so far does not skip |
| AlertDedup.SkippedIff | internal/web/alerts.go:123-133 | an alert is skipped exactly if one with its fingerprint was accepted less than the window before it |
| AlertDedup.CandidatesAreFingerprinted | internal/web/alerts.go:82-86 | the candidates are exactly the alerts with a fingerprint, trimmed and in order |
| AlertDedup.EvictionDropsExactly | internal/web/alerts.go:134-141 | above a thousand entries exactly those are dropped that are at least the window old |
| AlertDedup.EvictionInvisible | internal/web/alerts.go:134-141 | eviction never changes a skip decision |
| AlertDedup.AcceptedAreWindowApart | internal/web/alerts.go:128-133 | accepted alerts with one fingerprint are at least the window apart |
| Scheduler.CronScheduler.RunSchedule | internal/web/scheduler.go:96-138 | a schedule stops the run exactly if it does not parse or a write of it reports an error; plan and last run are what the store saved |
| Scheduler.CronScheduler.RunOnce | internal/web/scheduler.go:77-140 | the first 200 schedules are run up to the first that stops the run, later ones are untouched |
| Scheduler.DueIff | internal/web/scheduler.go:106-113 | a schedule is due exactly if it is enabled and has an occurrence by now since its last run, or its creation if it never ran, or none left at all |
| Scheduler.FiredAreDue | internal/web/scheduler.go:95-138 | an error-free run fires exactly the due schedules, each once and in order |
| Scheduler.NothingUnserved | internal/web/scheduler.go:106-113 | a polled enabled schedule has no occurrence left between its last run and now |
| Scheduler.EndlessIsBacked | internal/web/scheduler.go:106-136 | if plans are created without error and last-run writes take effect, each plan has an occurrence of its own since the plan before it |
| Scheduler.FirstPlanAfterCreation | internal/web/scheduler.go:106-113 | the first plan of a schedule that never ran has an occurrence after its creation |
| Scheduler.ExhaustedFiresAnyway | internal/web/scheduler.go:110-113 | a schedule with no occurrence left still fires |
| Scheduler.FailedWriteFiresAgain | internal/web/scheduler.go:131-136 | whichever of the two writes goes wrong after a plan was created, the same occurrence of an endless schedule gets a second plan |
| Scheduler.AtMostOncePerOccurrenceIff | internal/web/scheduler.go:96-139 | at most one plan per occurrence over every series of polls exactly if the schedule never runs out and those writes go right |
| JwksCache.JWKSCache.GetLookup | internal/auth/jwks_cache.go:65-82 | a hit inside the expiry, an error for a blank url, otherwise a fetch begins with the clock read before |
| JwksCache.JWKSCache.GetStore | internal/auth/jwks_cache.go:89-105 | the commit stamps the entry and starts a loop only if none is marked |
| JwksCache.JWKSCache.RefreshStore | internal/auth/jwks_cache.go:155-166 | a refresh replaces keys and stamp and resets the backoff |
| JwksCache.JWKSCache.RefreshBackoff | internal/auth/jwks_cache.go:179-189 | a failure changes only the backoff |
| JwksCache.AlwaysConsistent | internal/auth/jwks_cache.go:65-190 | in every interleaving the entry is the last commit, stamped and dated, with one loop and the backoff of its failures |
| JwksCache.AtMostOneLoop | internal/auth/jwks_cache.go:101-104 | at most one refresh loop is ever started per url |
| JwksCache.HitIffFresh | internal/auth/jwks_cache.go:65-81 | a lookup hits exactly if a key set was committed for the url less than ttl before, and returns the one last committed |
| JwksCache.FetchBegunIff | internal/auth/jwks_cache.go:65-88 | any other lookup with a url begins a fetch stamped with its clock, and nothing else changes |
| JwksCache.AnswerEndsFetch | internal/auth/jwks_cache.go:85-105 | an answer ends exactly its own fetch |
| JwksCache.BackoffIsExponential | internal/auth/jwks_cache.go:168-189 | after k consecutive failures the backoff is min(2^k, 300) seconds |
| WebSocket.FrameWriter.WriteTextFrame | internal/web/ws.go:126-144 | exactly the frame of the payload is appended, or as much of it as the connection took and an error |
| WebSocket.LengthOfHeader | internal/web/ws.go:127-138 | the header decodes to the length in the shortest of the three forms, whatever follows |
| WebSocket.DecodeEncoded | internal/web/ws.go:126-144 | a written frame decodes to a final unmasked text frame with that payload |
| WebSocket.FramesRoundTrip | internal/web/ws.go:126-144 | the frames of any list of payloads decode to exactly that list |
| PollingWatcher.DiffElements | internal/context/collectors/polling_watcher.go:45-78 | the loops keep exactly the elements with a new non-empty id, in order |
| PollingWatcher.Watcher.Poll | internal/context/collectors/polling_watcher.go:28-43 | a failed poll changes nothing, an empty difference is not sent |
| PollingWatcher.DeltaRecords | internal/context/collectors/polling_watcher.go:45-78 | ingesting differences stores each id ever seen with the record of its most recent reappearance |
| PollingWatcher.FullRecords | internal/context/service.go:264-279 | upserting lists stores each id ever upserted with the record of its latest presence |
| PollingWatcher.StoresCompared | internal/context/service.go:264-279 | when ingestions complete, the two stores hold the same ids, and a record differs exactly if it changed while its id stayed present |
| PollingWatcher.StaleRecord | internal/context/collectors/polling_watcher.go:45-78 | two snapshots with one id and two bodies leave the old record in the fed store |
| PollingWatcher.CutDeltasKeepIdIff | internal/context/service.go:143-152 | when the store may refuse elements or fail, ingesting differences keeps an id exactly if it was taken in a snapshot in which it appeared anew |
| PollingWatcher.CutIngestionLosesId | internal/context/service.go:264-279 | two equal snapshots, the first ingested in part: full ingestion makes up for it, the differences do not |
| PollingWatcher.FeedIsDeltas | internal/context/collectors/polling_watcher.go:28-43 | failed polls and unsent empty differences make no difference to the store |
| PollingWatcher.SentIsNews | internal/context/collectors/polling_watcher.go:36-42 | what is sent is never empty, and a poll sends exactly if it succeeds and finds a new id |
| PollingWatcher.FeedKeepsEveryId | internal/context/collectors/polling_watcher.go:28-78 | after any polls, when ingestions complete, the fed store has the ids of full ingestion, each record from its id's most recent reappearance |

## Left out

- HTTP parsing and routing, JSON encoding, SQL text, the Temporal SDK (status writes and other activities beside ExecuteStep and RollbackStep appear as their outcome after retries), the cron parser, subprocesses, and the LLM, OPA and Linear clients: represented by answers.
- Hashing and signatures, including ComputePlanHash: the hash check of an execute request is a guard that passes or does not.
- Floating-point rounding in the rate limiter: tokens are reals.
- Cancellation racing with the executor: status writes are unconditional in the source, so terminal statuses are not claimed to be absorbing.
- CreateAndApprove and UpdateApprovalStatus by id (internal/db/approvals.go:31-47, internal/db/queries.go:558-563): no production code calls them, so they are not ledger steps.
- The workflow-start path, account-radius policy rule, database races inside one call, configuration, command builders, pagination, tenancy, risk keywords, vault helpers, pages and CLI: they hold no state machine of interest here, or are decided elsewhere.
- EventGate.CountIsEventsSinceFirstSeen, like the other lemmas about runs of the gate, holds one set of parameters fixed, as the configured gate does.
- JwksCache.AlwaysConsistent: does not model the length of the refresh loop's waits, nor Close, after which no refresh step happens.
- PollingWatcher.FullRecords: an edge without an id, which the store saves under an id it generates (internal/db/context.go:39-42), is not in the stores compared; which elements a store refuses (missing fields, unknown ends) is left to it.
- Scheduler.AtMostOncePerOccurrenceIff: plans created through the API are not counted, and the cron library's five-year search horizon is not modelled; `next` finds the least occurrence if there is one.
