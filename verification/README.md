# Insurance operations: verified core

The system runs document workflows for an insurance office. An orchestrator keeps the rows of a
workflow run (steps, attempts, outbox, escalation cases, audit events) in Postgres; a relay carries
outbox rows to Redis, where workers, a scheduler, a reaper and an operator move task payloads between
a ready list, a delayed sorted set, per-worker inflight lists and a dead letter queue; every change is
recorded in a hash chain of audit events; people claim, resolve and reject escalations and cancel runs
over an HTTP API that limits requests per key.

This project models that core in Dafny and proves what it is for: bounded retries and ordered steps
over every disciplined run, at-least-once delivery and no early delivery over every interleaving,
a hash chain whose last hash fixes its whole content, exclusive escalations and cancels that overwrite
nothing, and exact request limits.

`dafny verify dfyconfig.toml` checks everything.

## How the model is laid out

| files | part of the system |
|---|---|
| `Lifecycle` | the domain tables of run and case transitions |
| `Backoff` | retry delays, over `real` |
| `Orchestrator`, `OrchestratorStore` | the orchestrator on values, and as an object that updates its rows in place and rolls back on errors; each method is proved to do what the value-level function says |
| `OrchestratorEffects` | what each call does to every row, field by field |
| `OrchestratorInvariant`, `OrchestratorRuns`, `OrchestratorBounds`, `OrchestratorTrail` | the invariant every disciplined call keeps, whole runs, the budget every call spends, the audit trail, and what undisciplined calls do |
| `TaskProtocol`, `TaskDelivery`, `TaskEffects` | the Redis task protocol one command at a time, what every interleaving keeps, and what decides an attempt |
| `Workers` | the queue functions and one turn of the worker loop on the lists they change in place |
| `OutboxRelay`, `OutboxRelayProofs`, `OutboxRefinement` | one relay batch as a loop, batch after batch under the advisory lock, and that a batch is a run of the protocol |
| `DelayedQueue`, `Reaper`, `QueueRefinement`, `Lists` | the scheduler's promotion loop and one reaper sweep as loops, and that they are runs of the protocol |
| `CanonicalJson`, `AuditHash`, `AuditChain`, `AuditTampering` | the hashed bytes, their unique decoding, append, replay and verification, and which rewritings of a table the verifier sees |
| `Routes`, `RoutesProofs` | claim, resolve, reject and cancel interleaved with every other writer |
| `RateLimit` | the fixed-window limiter over request traces |
| `EventPages` | the paged read of audit events |

A call of the orchestrator is *disciplined* when it advances the current step of a running run, or
resumes the unresolved case of a waiting run (an unknown case is also allowed and changes nothing), or
cancels, or claims a case. A definition is *well formed* when it is not empty, meets the constraints of
the steps table, numbers its steps by position, and has no negative delay or cap in its retry policies.
The code leaves the discipline, the numbering and the policies to its callers, so they are premises of
the run theorems and of nothing else: the operations themselves are total, with every error path.

SHA-256 is any function from bytes to 32-byte digests. Such a function cannot be injective, so "no
collision" is never assumed of it: the theorems say that the events are equal or that the two lists
themselves exhibit two inputs with one digest.

## Where the code falls short of a promise

Each of these is proved, with the exact condition:

- `advance_workflow` does not look at the run state: its run edge is in the domain table exactly when
  the run was running, and a success that comes after a cancellation completes the cancelled run
  (`OrchestratorTrail.AdvanceEdgeExact`, `OrchestratorTrail.LateSuccessCompletesCancelledRun`).
- `resume_after_escalation` does not look at the case state: its case edge is in the domain table
  exactly when the case was claimed (`OrchestratorTrail.ResumeCaseEdgeExact`). It does not look at the
  run state either: the edge to running is in the domain table exactly when the run was waiting or
  pending, so that resuming a case of a cancelled run revives it (`OrchestratorTrail.ResumeRunEdgeExact`).
- The reject request takes a waiting run to failed, which the domain table does not allow; every other
  request edge is in the table (`RoutesProofs.RequestEdgeExact`).
- The last copy of an undecided task disappears when an operator drops it or when the process that
  holds it dies between a remove and a push, and in no other way (`TaskDelivery.LostExactly`,
  `TaskDelivery.AtLeastOnce`, `TaskDelivery.HandLoses`, `TaskDelivery.SchedulerDeathLosesTask`).
- An outbox row that has failed ten times and fails again, or that cannot be marked after its push,
  breaks the relay's transaction: what was pushed is pushed again in every batch that gets the lock,
  and while a row with its failures used up keeps failing no row is ever marked
  (`OutboxRelayProofs.PoisonRepeatsPushes`, `OutboxRelayProofs.PoisonBlocksRelay`).
- The relay's advisory lock belongs to a connection. A batch takes it, commits, which hands the
  connection back to the pool, and only then releases it, on whatever connection it gets; in a broken
  transaction the release fails. The lock is free after any batches exactly when every batch that took
  it committed and released it on the connection that took it (`OutboxRelayProofs.LockFreeExactly`).
  Otherwise it is never released, and batches on every other connection do nothing from then on; one
  healthy batch is enough for that (`OutboxRelayProofs.LockNeverReleased`,
  `OutboxRelayProofs.OthersShutOut`, `OutboxRelayProofs.SplitReleaseShutsOthersOut`).
- An item on which the reaper raises an exception ends its sweep: what comes later is not looked at
  (`Reaper.RuleExact`, `Reaper.SweepEndsExactly`, `Reaper.SweepStopsAtRaise`).
- The audit verifier rejects an honest chain, whose payloads the database returns as they were hashed,
  exactly when a row that it reads was written at a later time than a row after it
  (`AuditChain.HonestChainAcceptedIff`), and reads nothing past 1000 rows
  (`AuditChain.BeyondLimitUnchecked`). The docstring of the verifier says that it loads all events; the
  model follows the code.
- Three audit fields are outside the hash. Changes of `step_id` and `step_attempt_id` are never seen
  (`AuditTampering.StepFieldsUnseen`). Changes of `seq_in_run` in an intact chain are seen exactly when
  a row that is read loses its place before a row of the same timestamp
  (`AuditTampering.RewriteSeenExactly`). Past 1000 rows, without an intact chain, even that can go
  unseen (`AuditTampering.RivalTakesLastPlace`, `AuditTampering.RivalExists`).
- Actor and event type are hashed without a mark between them. For event types without a brace the
  hashed bytes fix the event exactly when no type is a proper suffix of another; the types of the code
  meet this (`AuditHash.DecodableExactly`, `AuditHash.TypesSuffixFree`).
- A span of one window length can see twice the limit, and does
  (`RateLimit.SpanBounded`, `RateLimit.SpanBoundTight`).

## Model

| member | source | states |
|---|---|---|
| `Lifecycle.RunTableExact` | src/insuranceops/domain/workflow_runs.py:22-49 | the seven edges of the run table, and the states that no edge leaves |
| `Lifecycle.CaseTableExact` | src/insuranceops/domain/escalations.py:21-46 | the five edges of the case table, and the states that no edge leaves |
| `Backoff.DelayExact` | src/insuranceops/workflows/retry.py:44-52 | without jitter the delay of the k-th retry is min(cap, base * 2^(k-1)), with full jitter the draw times that |
| `Backoff.EveryDelayDrawn` | src/insuranceops/workflows/retry.py:46-49 | with full jitter every delay from 0 to the ceiling is drawn by some draw |
| `Backoff.DelayWithinCeiling` | src/insuranceops/workflows/retry.py:44-52 | whatever the jitter draws, the delay of the k-th retry lies between 0 and min(cap, base * 2^(k-1)) |
| `Backoff.CeilingMonotone` | src/insuranceops/workflows/retry.py:44 | the ceilings never decrease from retry to retry |
| `Backoff.TotalDelayBounded` | src/insuranceops/workflows/retry.py:44-52 | any m - 1 retry delays that the policy can give sum to at most base * (2^(m-1) - 1) and to at most (m - 1) * cap |
| `OrchestratorStore.RunStore.StartWorkflowRun` | src/insuranceops/workflows/orchestrator.py:74-192 | creates run, steps, first attempt, outbox row and event and moves pending to running, or reports the missing definition, the violated constraint or the empty step list and leaves the rows as they were |
| `OrchestratorStore.RunStore.BuildSteps` | src/insuranceops/workflows/orchestrator.py:108-129 | the loop makes one queued row per defined step, in order, with the step's own name, index, limit and policy |
| `OrchestratorStore.RunStore.AdvanceWorkflow` | src/insuranceops/workflows/orchestrator.py:194-263 | in-place update equals the value-level transition for every status, and every error leaves all rows as they were |
| `OrchestratorStore.RunStore.HandleStepSucceeded` | src/insuranceops/workflows/orchestrator.py:282-398 | the loop finds the first step with the next index; the step is succeeded, and either that step gets attempt 1 with its outbox row or the run is completed |
| `OrchestratorStore.RunStore.HandleStepFailedRetryable` | src/insuranceops/workflows/orchestrator.py:400-502 | below the limit a further attempt is queued at its backoff time, at the limit the failure is terminal |
| `OrchestratorStore.RunStore.HandleStepFailedTerminal` | src/insuranceops/workflows/orchestrator.py:504-587 | the step fails and the run either opens a case and waits or fails |
| `OrchestratorStore.RunStore.CreateCase` | src/insuranceops/workflows/orchestrator.py:589-635 | an escalation opens one case for the step and makes the run wait, or violates the one-case-per-step constraint |
| `OrchestratorStore.RunStore.ResumeAfterEscalation` | src/insuranceops/workflows/orchestrator.py:637-743 | the case is resolved, a human attempt with the next number inserted, and the run goes on as after a success; errors leave all rows as they were |
| `OrchestratorStore.RunStore.CancelWorkflow` | src/insuranceops/workflows/orchestrator.py:745-803 | a running or waiting run is cancelled with its event, any other is refused unchanged |
| `OrchestratorStore.RunStore.LookupHandler` | src/insuranceops/workflows/orchestrator.py:352-358 | the loop finds the handler of the first defined step with the name, else the name itself |
| `OrchestratorEffects.StartReplies` | src/insuranceops/workflows/orchestrator.py:74-132 | which definitions start, and which error each other one gets |
| `OrchestratorEffects.StartEffect` | src/insuranceops/workflows/orchestrator.py:80-190 | a started run is running at version 1, with a queued row for each defined step, one system attempt numbered 1 on the first step with its outbox row due at once, and one event |
| `OrchestratorEffects.SuccessEffect` | src/insuranceops/workflows/orchestrator.py:282-398 | success of the current step of a running run: the step is succeeded, and the next step is current with attempt 1 due at once, or the run is completed; with the one event, and nothing else |
| `OrchestratorEffects.TerminalFailureEffect` | src/insuranceops/workflows/orchestrator.py:504-587 | a terminal failure: the step is failed for good, and the run waits with one new open case on it if the definition escalates, else it is failed without a case; with the one event, and nothing else |
| `OrchestratorEffects.EscalateEffect` | src/insuranceops/workflows/orchestrator.py:589-635 | an escalation: the run waits with one new open case on the step, whose own state stays; with the one event, and nothing else |
| `OrchestratorEffects.RetryEffect` | src/insuranceops/workflows/orchestrator.py:411-502 | a retryable failure below the limit: the step gets its next attempt, due after the backoff delay of as many tries as there were, with its outbox row and event, and nothing else |
| `OrchestratorEffects.LastFailureEffect` | src/insuranceops/workflows/orchestrator.py:411-502 | at the limit a retryable failure does what a terminal one does |
| `OrchestratorEffects.UnknownStatusRefused` | src/insuranceops/workflows/orchestrator.py:262-263 | any other status is refused and changes nothing |
| `OrchestratorEffects.ResumeEffect` | src/insuranceops/workflows/orchestrator.py:661-743 | a resume of the unresolved case of a waiting run, row by row: case, human attempt, step, run, events, and the next step or completion |
| `OrchestratorEffects.CancelEffect` | src/insuranceops/workflows/orchestrator.py:745-803 | exactly the running and waiting runs can be cancelled; state, version and log change, and nothing else |
| `OrchestratorEffects.HandlerOfFirst` | src/insuranceops/workflows/orchestrator.py:352-358 | the handler of a step name is that of the first defined step with the name |
| `OrchestratorInvariant.StartEstablishes` | src/insuranceops/workflows/orchestrator.py:74-192 | starting a well formed definition succeeds and establishes the invariant |
| `OrchestratorInvariant.SuccessKeeps` | src/insuranceops/workflows/orchestrator.py:282-398 | success of the current step of a running run keeps the invariant and never violates a constraint |
| `OrchestratorInvariant.RetryKeeps` | src/insuranceops/workflows/orchestrator.py:400-502 | a retryable failure keeps the invariant: numbers stay 1..k, retries stay within their backoff ceilings |
| `OrchestratorInvariant.TerminalKeeps` | src/insuranceops/workflows/orchestrator.py:504-587 | a terminal failure keeps the invariant, and no step gets a second case |
| `OrchestratorInvariant.OpenCaseKeeps` | src/insuranceops/workflows/orchestrator.py:589-635 | an escalation of the current step keeps the invariant |
| `OrchestratorInvariant.ResumeKeeps` | src/insuranceops/workflows/orchestrator.py:637-743 | a disciplined resume succeeds and keeps the invariant |
| `OrchestratorInvariant.CancelKeeps` | src/insuranceops/workflows/orchestrator.py:745-803 | a cancellation keeps the invariant |
| `OrchestratorInvariant.ClaimKeeps` | src/insuranceops/api/routes/escalations.py:105-145 | a claim of an open case keeps the invariant, so an operator may claim at any time before the resume |
| `OrchestratorRuns.CallKeeps` | src/insuranceops/workflows/orchestrator.py:194-803 | every disciplined call keeps the invariant |
| `OrchestratorRuns.RunKeepsInvariant` | src/insuranceops/domain/workflow_runs.py:30-49 | after every sequence of disciplined calls the run history is a path of the domain table and the version counts its state changes; all steps before the current one are succeeded, all after it queued without attempts |
| `OrchestratorRuns.RunEndsExactly` | src/insuranceops/workflows/orchestrator.py:299-587 | every disciplined run is completed if and only if every step of its definition has succeeded, and failed only on a step that failed for good and does not escalate |
| `OrchestratorRuns.TriedExactlyMaxAttempts` | src/insuranceops/workflows/orchestrator.py:400-502 | a step that only ever fails retryably is tried exactly max_attempts times, with the run going on until then, and at the last failure the run waits or fails as the step's definition says |
| `OrchestratorRuns.RunTablesConsistent` | src/insuranceops/storage/models.py:207-284 | in every disciplined run each step's attempts are numbered 1..k with at most max_attempts by the system and at most one human one at the end, numbers are unique per step, no step has two cases, each outbox row announces a system attempt of its step and each system attempt has one row, and a live run waits exactly when it has an unresolved case, the only one, on its current step |
| `OrchestratorRuns.OutboxOneToOne` | src/insuranceops/workflows/orchestrator.py:411-475 | every outbox row announces a system attempt of its own step, every system attempt has a row, and no two rows announce the same attempt |
| `OrchestratorRuns.AttemptNumbersUnique` | src/insuranceops/storage/models.py:207 | attempts of one step numbered in insertion order never share a number |
| `OrchestratorRuns.WaitingExactly` | src/insuranceops/workflows/orchestrator.py:504-635 | a live run waits exactly when it has an unresolved case; there is never more than one, and it is on the current step |
| `OrchestratorBounds.CallSpends` | src/insuranceops/workflows/orchestrator.py:400-502 | every effective disciplined call lowers the budget of advances, resumes or cancels and appends exactly one event, a resume two; a claim only appends its event |
| `OrchestratorBounds.RunBounded` | src/insuranceops/workflows/orchestrator.py:194-803 | a run of n steps takes at most the sum of max_attempts advances, n resumes, one cancel and n claims, and appends at most 2 + that sum + 2n events besides one for each claim |
| `OrchestratorTrail.RunLeavesStepsInOrder` | src/insuranceops/workflows/orchestrator.py:282-398 | the audit log of every disciplined run leaves the steps one by one in definition order, and a completed run's log ends with its last step |
| `OrchestratorTrail.RetriesWaitBounded` | src/insuranceops/workflows/orchestrator.py:415-424 | in every disciplined run the retries of a step together wait at most base * (2^(m-1) - 1) and (m - 1) * cap |
| `OrchestratorTrail.AdvanceEdgeExact` | src/insuranceops/workflows/orchestrator.py:216-263 | for any rows, a run-state write of advance follows the domain table if and only if the run was running |
| `OrchestratorTrail.LateSuccessCompletesCancelledRun` | src/insuranceops/workflows/orchestrator.py:306-310 | a success reported for the last step of a cancelled run completes it |
| `OrchestratorTrail.ResumeRunEdgeExact` | src/insuranceops/workflows/orchestrator.py:709-743 | for any rows, resume writes running and, after the last step, completed; the first edge is in the run table if and only if the run was waiting or pending |
| `OrchestratorTrail.ResumeCaseEdgeExact` | src/insuranceops/workflows/orchestrator.py:660-684 | for any rows, the case edge of resume is in the case table if and only if the case was claimed |
| `Lists.RemovesOne` | src/insuranceops/queue/reliable_queue.py:59-72 | removing a payload from a list takes exactly one occurrence away, if there is any, and nothing else |
| `Workers.Site.Enqueue` | src/insuranceops/queue/reliable_queue.py:24-36 | the payload is at the head of ready, and the new length is returned |
| `Workers.Site.ClaimTask` | src/insuranceops/queue/reliable_queue.py:39-56 | the oldest payload moves to the head of the worker's list, or nothing happens if there is none |
| `Workers.Site.AckTask` | src/insuranceops/queue/reliable_queue.py:59-72 | one occurrence of the payload leaves the worker's list, if there is one, and the number removed is returned |
| `Workers.Site.RequeueFromDlq` | src/insuranceops/queue/dlq.py:46-61 | one occurrence moves from the dead letter queue to ready exactly if there is one; nothing is lost or made |
| `Workers.Site.DropFromDlq` | src/insuranceops/queue/dlq.py:93-105 | one occurrence leaves the dead letter queue exactly if there is one |
| `Workers.Site.RecordOutcome` | src/insuranceops/workers/loop.py:160-260 | a terminal attempt is left alone; any other becomes succeeded, failed_retryable or failed_terminal exactly as the handler reported, with one event of that outcome |
| `Workers.Site.WorkOnce` | src/insuranceops/workers/loop.py:71-263 | one turn: the oldest payload leaves ready, its outcome is recorded or, if it names no attempt, it goes to the dead letter queue, and the worker's list is as before |
| `Workers.FirstInFirstOut` | src/insuranceops/queue/reliable_queue.py:24-56 | payloads enqueued on an empty list are claimed in the order in which they were enqueued |
| `TaskEffects.CommitEffect` | src/insuranceops/workers/loop.py:160-260 | a commit records exactly the reported outcome on an attempt that is not terminal, in its state and as one event, and nothing otherwise |
| `TaskEffects.AttemptStateExact` | src/insuranceops/workers/loop.py:184-260 | over every interleaving an attempt is succeeded, failed_retryable or failed_terminal exactly when its last effective commit reported that, and queued exactly when it has had none |
| `TaskEffects.AckEffect` | src/insuranceops/queue/reliable_queue.py:59-72 | an ack takes one occurrence of the payload off the worker's own list, and nothing else |
| `TaskEffects.TurnIsProtocolRun` | src/insuranceops/workers/loop.py:71-263 | one undisturbed turn of a worker is a run of the task protocol with the effects of the turn |
| `TaskEffects.RequeueIsRun` | src/insuranceops/queue/dlq.py:56-61 | a requeue is a run of the task protocol that moves one occurrence from the dead letter queue to ready |
| `TaskDelivery.StepKeepsInv` | src/insuranceops/workers/loop.py:71-87 | every Redis command and transaction of relay, scheduler, workers, reapers and operator keeps the protocol invariant |
| `TaskDelivery.CopyKept` | src/insuranceops/workers/reaper.py:74-125 | after any step each payload is still in a list, the delayed set or a hand, unless its task is decided or this very payload was dropped or died with its holder |
| `TaskDelivery.AtLeastOnce` | src/insuranceops/workers/loop.py:260-288 | in every interleaving a relayed task is decided, or has a copy, or lost the last occurrence of its last payload at one identified action, a drop of it or the death of its holder, and has had none since |
| `TaskDelivery.NeverEarly` | src/insuranceops/workers/outbox_relay.py:82-97 | in every interleaving no task is in ready, inflight or the dead letter queue before its scheduled time |
| `TaskDelivery.TerminalForever` | src/insuranceops/workers/loop.py:160-164 | from any state and under any further actions, duplicates and redeliveries included, a terminal attempt keeps its state |
| `TaskDelivery.AttemptDecidedOnce` | src/insuranceops/workers/loop.py:184-260 | under any duplication and redelivery an attempt gets at most one event that it succeeded or failed for good, never both, and its state says which |
| `TaskDelivery.OnlyLossesLose` | src/insuranceops/queue/delayed_queue.py:62-76 | a step after which an undecided task has no copy any more takes away its one remaining payload, by an operator's drop or by the death of the process that holds it between remove and push |
| `TaskDelivery.LostExactly` | src/insuranceops/queue/dlq.py:93-105 | a step leaves an undecided task without a copy if and only if it drops, or stops the holder of, the one occurrence of its one payload that is left anywhere |
| `TaskDelivery.HandLoses` | src/insuranceops/queue/reliable_queue.py:89-101 | such a death does lose the task when it held the only copy |
| `TaskDelivery.SchedulerDeathLosesTask` | src/insuranceops/queue/delayed_queue.py:62-76 | a concrete run without a drop in which a relayed task vanishes |
| `OutboxRelay.Relay.RelayBatch` | src/insuranceops/workers/outbox_relay.py:61-130 | the batch loop, with its failure counting, commit and rollback, and the advisory lock that is taken on one connection, released after a commit on one that may be another, and kept after a broken transaction, leaves exactly the specified tables and lock, and returns the number relayed |
| `OutboxRelay.Relay.GetPending` | src/insuranceops/storage/repositories/outbox.py:27-40 | the pending rows in row order, cut at the limit |
| `OutboxRelay.PendingExact` | src/insuranceops/storage/repositories/outbox.py:31-36 | exactly the rows not yet marked, each once, in row order |
| `OutboxRelayProofs.OneRowExact` | src/insuranceops/workers/outbox_relay.py:83-117 | one row in full: where its task goes, what becomes of the row, when it breaks the batch, and that it counts as relayed exactly if it is marked |
| `OutboxRelayProofs.RelayedCounts` | src/insuranceops/workers/outbox_relay.py:97-130 | the number a batch returns is the number of rows it took off the pending ones |
| `OutboxRelayProofs.FailuresCounted` | src/insuranceops/storage/repositories/outbox.py:52-62 | each batch in which its push fails adds one to a row's failures and leaves it pending, at most ten times |
| `OutboxRelayProofs.RelayedRows` | src/insuranceops/workers/outbox_relay.py:82-119 | a batch commits if and only if none of its rows fails with its failures used up or cannot be marked; then each row of the batch is marked or counted once and no other row changes |
| `OutboxRelayProofs.RelayedQueues` | src/insuranceops/workers/outbox_relay.py:88-93 | each row pushed goes to exactly one of ready and delayed, by its due time, in batch order |
| `OutboxRelayProofs.BrokenBatch` | src/insuranceops/workers/outbox_relay.py:111-119 | a broken batch leaves the outbox unchanged although every row up to the offending one was pushed, as far as its push succeeds, and none behind it |
| `OutboxRelayProofs.PoisonBlocksRelay` | src/insuranceops/storage/models.py:245 | over any number of batches on any connections in which that row keeps failing, no row is ever marked |
| `OutboxRelayProofs.PoisonRepeatsPushes` | src/insuranceops/workers/outbox_relay.py:82-122 | over any number of batches on the connection that has the lock, the rows up to the offending one are pushed again in each, and the lock is taken once more in each |
| `OutboxRelayProofs.LockNeverReleased` | src/insuranceops/workers/outbox_relay.py:120-123 | a lock left behind stays with its connection over any further batches |
| `OutboxRelayProofs.OthersShutOut` | src/insuranceops/workers/outbox_relay.py:70-75 | from then on batches on other connections change nothing |
| `OutboxRelayProofs.LockFreeExactly` | src/insuranceops/workers/outbox_relay.py:70-123 | after any batches the lock is free if and only if every batch that took it committed and released it on the connection that took it |
| `OutboxRelayProofs.SplitReleaseShutsOthersOut` | src/insuranceops/workers/outbox_relay.py:119-123 | after one committed batch whose release runs on another connection the lock stays taken, and all further batches on other connections than the one that took it change nothing |
| `OutboxRelayProofs.RelayDrains` | src/insuranceops/workers/outbox_relay.py:80-97 | without failures the n batches that get the lock, out of any, leave pending exactly the rows after the first 100 n pending ones |
| `OutboxRelayProofs.AllBatchesDrain` | src/insuranceops/workers/outbox_relay.py:70-123 | when each release also runs on the connection that took the lock, every batch gets it, so that n batches drain the first 100 n rows |
| `OutboxRefinement.BatchIsProtocolRun` | src/insuranceops/workers/outbox_relay.py:77-123 | every batch, committed or broken, is a run of the task protocol that ends in the same queues and rows and touches nothing else |
| `DelayedQueue.Queues.MatureTasks` | src/insuranceops/queue/delayed_queue.py:45-78 | exactly the first min(batch size, number due) members in (score, member) order reach ready, in that order; the rest of the delayed set is unchanged, with the member that was popped and put back; the count is right |
| `DelayedQueue.Queues.PopMin` | src/insuranceops/queue/delayed_queue.py:64-68 | takes the first member in (score, member) order with its score |
| `DelayedQueue.PopsByScore` | src/insuranceops/queue/delayed_queue.py:62-68 | of two members the one popped earlier has the smaller score, or the same score and the smaller bytes |
| `DelayedQueue.LexExact` | src/insuranceops/queue/delayed_queue.py:62-68 | the byte order: the smaller byte at the first difference, and a member before its own extensions |
| `DelayedQueue.OrderedExact` | src/insuranceops/queue/delayed_queue.py:62-68 | the pop order lists every member once, sorted by score and then bytewise |
| `QueueRefinement.MatureIsProtocolRun` | src/insuranceops/queue/delayed_queue.py:45-78 | every call of the promotion loop, whichever way it ends, is a run of the task protocol to a state with the same queues |
| `QueueRefinement.SweepIsProtocolRun` | src/insuranceops/workers/reaper.py:75-125 | every sweep of a list, whether it ends or raises, is a run of the task protocol to a state with the same lists |
| `DelayedQueue.TakenCount` | src/insuranceops/queue/delayed_queue.py:69-72 | when nothing due is left behind, the number taken is the number that was due |
| `Reaper.Redis.ReapStuckTasks` | src/insuranceops/workers/reaper.py:72-127 | the sweep ends exactly when it meets no item that raises; then each list visited keeps exactly its items claimed no longer ago than the timeout, in order; ready gains only unclaimed items and stuck ones with attempts left, the dead letter queue only malformed items and stuck ones without; the count is the number moved |
| `Reaper.Redis.SweepList` | src/insuranceops/workers/reaper.py:75-125 | one inflight list swept, duplicates included, up to its end or to the item that raises |
| `Reaper.SweepKeepsFresh` | src/insuranceops/workers/reaper.py:78-99 | without an item that raises, the sweep ends and each list keeps exactly its items claimed no longer ago than the timeout, in order; other lists are untouched |
| `Reaper.RuleExact` | src/insuranceops/workers/reaper.py:79-122 | on the item's own fields, exactly which items are kept, go back to ready, go to the dead letter queue, and raise |
| `Reaper.SweepEndsExactly` | src/insuranceops/workers/reaper.py:74-125 | a sweep comes to its end exactly when no list it visits holds an item that raises |
| `Reaper.SweepStopsAtRaise` | src/insuranceops/workers/reaper.py:79-98 | at the first list with an item that raises the sweep stops at that item: the lists before are swept, the rest of that list and all later lists stay as they were |
| `Reaper.SweepSendsByRule` | src/insuranceops/workers/reaper.py:79-122 | ready grows only by items without a claim time and stuck ones with attempts left, the dead letter queue only by malformed items and stuck ones with their attempts used up |
| `Reaper.SweepConserves` | src/insuranceops/workers/reaper.py:72-127 | a sweep, whether it ends or raises, neither loses nor makes a payload |
| `Lists.RemoveAfter` | src/insuranceops/queue/reliable_queue.py:99-101 | with duplicates the first match is the very item that was read |
| `CanonicalJson.WriteUnique` | src/insuranceops/domain/audit.py:13-15 | canonical JSON followed by other bytes is read back in one way only |
| `CanonicalJson.LiteralSpelling` | src/insuranceops/domain/audit.py:13-15 | null, true, false, numbers and the empty array and object as JSON spells them |
| `CanonicalJson.BracketSpelling` | src/insuranceops/domain/audit.py:13-15 | arrays in brackets and objects in braces, without a space |
| `CanonicalJson.ItemSpelling` | src/insuranceops/domain/audit.py:15 | items separated by a comma alone |
| `CanonicalJson.MemberSpelling` | src/insuranceops/domain/audit.py:15 | members as quoted key, colon and value, separated by a comma alone |
| `CanonicalJson.CharacterSpelling` | src/insuranceops/domain/audit.py:15 | each character of a string as itself, by a letter escape, or by its four hexadecimal digits |
| `AuditHash.IsoReads` | src/insuranceops/domain/audit.py:46 | every field of a timestamp can be read off its place in the text, which ends in the offset of UTC |
| `AuditHash.PreimageLayout` | src/insuranceops/domain/audit.py:40-47 | the hashed fields stand one after the other in the hashed bytes, in the order of the formula |
| `AuditHash.RunTypeNames` | src/insuranceops/workflows/orchestrator.py:175-797 | the event types of runs and steps as the code spells them |
| `AuditHash.AttemptTypeNames` | src/insuranceops/workers/loop.py:191-248 | the event types of attempts as the code spells them |
| `AuditHash.EscalationTypeNames` | src/insuranceops/api/routes/escalations.py:142-318 | the event types of escalations as the code spells them |
| `AuditHash.IsoInjective` | src/insuranceops/domain/audit.py:46 | two timestamps with the same isoformat text are equal |
| `AuditHash.TailInjective` | src/insuranceops/domain/audit.py:46-47 | timestamp and optional predecessor hash are told apart by length alone |
| `AuditHash.TypesSuffixFree` | src/insuranceops/domain/audit.py:43-44 | no event type of the code is a suffix of another, and none holds a brace |
| `AuditHash.PreimageInjective` | src/insuranceops/domain/audit.py:40-48 | equal hashed bytes mean equal hashed fields, for brace-free actors and suffix-free event types |
| `AuditHash.BoundaryUnmarked` | src/insuranceops/domain/audit.py:43-44 | bytes can move between actor and event type without changing the hashed bytes |
| `AuditHash.DecodableExactly` | src/insuranceops/domain/audit.py:40-48 | for event types without a brace, equal hashed bytes mean equal events if and only if no type is a proper suffix of another |
| `AuditChain.VerifyChain` | src/insuranceops/audit/verifier.py:41-87 | accepts exactly the well linked and well hashed lists, and otherwise names the least bad index |
| `AuditChain.LastHashFixesChain` | src/insuranceops/audit/verifier.py:47-87 | two accepted lists that end in the same hash have the same length and the same hashed fields at every index, or exhibit a collision |
| `AuditChain.AuditLog.AppendAuditEvent` | src/insuranceops/audit/chain.py:94-135 | appends one row with the given fields and their hash: number 1 without a predecessor if the table holds no row of the run, else one more than the largest number among its rows, linked to that row's hash |
| `AuditChain.ForRunExact` | src/insuranceops/storage/repositories/audit.py:38-39 | the rows of a run are exactly the rows of the table with that run, each as often, in table order |
| `AuditChain.OtherRunUntouched` | src/insuranceops/storage/repositories/audit.py:37-53 | an event of another run changes neither the rows, nor the latest row, nor the replay of this one |
| `AuditChain.LatestExact` | src/insuranceops/storage/repositories/audit.py:45-53 | there is no latest row exactly when the run has none; else it is one of its rows with the largest number |
| `AuditChain.ReplayExact` | src/insuranceops/storage/repositories/audit.py:37-43 | at most 1000 rows of the run are read, in order of time and then number, and none left out comes before one read |
| `AuditChain.RankOrder` | src/insuranceops/storage/repositories/audit.py:40 | timestamps are compared by date, time of day and microsecond |
| `AuditChain.SortedSorts` | src/insuranceops/storage/repositories/audit.py:33-43 | the replay order is a sorted permutation of the run's rows |
| `AuditChain.BuiltIsIntact` | src/insuranceops/audit/chain.py:94-135 | in a table written only by append, with runs interleaved at will, each run's rows are numbered 1, 2, ... and form an intact chain |
| `AuditChain.HonestChainAccepted` | src/insuranceops/storage/repositories/audit.py:33-53 | such a chain verifies when none of its first 1000 rows was written at a later time than a row after it |
| `AuditChain.HonestChainAcceptedIff` | src/insuranceops/audit/verifier.py:41-87 | without a collision, and whatever its length, it verifies if and only if none of its first 1000 rows was written at a later time than a row after it |
| `AuditChain.BeyondLimitUnchecked` | src/insuranceops/storage/repositories/audit.py:33-43 | a run with 1000 rows takes any later row without a change of what is verified |
| `AuditTampering.StepFieldsUnseen` | src/insuranceops/domain/audit.py:40-48 | in any table, changes of step_id and step_attempt_id never change the verdict |
| `AuditTampering.KeptOrderUnseen` | src/insuranceops/storage/repositories/audit.py:33-43 | in any table, changes of seq_in_run that keep the order of the rows read among rows of one timestamp never change the verdict |
| `AuditTampering.RewriteSeenExactly` | src/insuranceops/audit/verifier.py:41-87 | for an accepted table whose rows form an intact chain in some order, a rewriting of the fields outside the hash is accepted if and only if no row that is read loses its place before a row of the same timestamp |
| `AuditTampering.ShortRunRewriteSeenExactly` | src/insuranceops/storage/repositories/audit.py:33-43 | the same for every accepted run of at most 1000 rows, without further premise on its order |
| `AuditTampering.HonestRewriteSeenExactly` | src/insuranceops/audit/chain.py:94-135 | the same for every accepted run that only append wrote, of whatever length |
| `AuditTampering.RivalTakesLastPlace` | src/insuranceops/storage/repositories/audit.py:33-43 | past 1000 rows the intact chain is needed: any table with a well hashed rival of the last row read is accepted before and after the two exchange their numbers |
| `AuditTampering.RivalExists` | src/insuranceops/storage/repositories/audit.py:33-43 | for every hash function and run such a table exists |
| `Routes.Tables.ClaimEscalation` | src/insuranceops/api/routes/escalations.py:105-131 | one conditional update: claimed by the actor if open, else 404 or 409 and no change |
| `Routes.Tables.ResolveEscalation` | src/insuranceops/api/routes/escalations.py:166-218 | 404, 409 and 403 in that order; else case closed, synthetic attempt inserted, waiting run running again |
| `Routes.Tables.RejectEscalation` | src/insuranceops/api/routes/escalations.py:271-310 | 404, 409 and 403 in that order; else case rejected, running or waiting run failed |
| `Routes.Tables.UpdateStateOptimistic` | src/insuranceops/storage/repositories/workflow_runs.py:33-51 | writes the row if and only if its version is the expected one, and says so |
| `Routes.Tables.CancelRead` | src/insuranceops/api/routes/workflow_runs.py:311-322 | the read half of a cancel: 404, 409, or the row it will compare with |
| `Routes.Tables.CancelWrite` | src/insuranceops/api/routes/workflow_runs.py:324-336 | the write half of a cancel: done, or 409 after a concurrent change |
| `RoutesProofs.VersionCountsWrites` | src/insuranceops/storage/repositories/workflow_runs.py:41-51 | over any stretch of any interleaving the version grows by the number of writes of the run |
| `RoutesProofs.EqualVersionsEqualState` | src/insuranceops/storage/repositories/workflow_runs.py:41-51 | equal versions of a run mean equal run state |
| `RoutesProofs.CancelOverwritesNothing` | src/insuranceops/api/routes/workflow_runs.py:316-336 | a cancel succeeds if and only if nothing wrote the run since its read, and then takes the very row it read from running or waiting to cancelled |
| `RoutesProofs.SecondCancelNeedsRevival` | src/insuranceops/api/routes/workflow_runs.py:316-336 | between two successful cancels of a run another writer has taken it out of a terminal state |
| `RoutesProofs.OneCancelSucceeds` | src/insuranceops/api/routes/workflow_runs.py:316-336 | when other writers respect terminal states at most one cancel of a run succeeds |
| `RoutesProofs.RevivalAllowsTwoCancels` | src/insuranceops/api/routes/workflow_runs.py:316-336 | an interleaving in which two cancels of a run succeed because another writer revived it |
| `RoutesProofs.TerminalRowStays` | src/insuranceops/api/routes/escalations.py:215-310 | no sequence of requests by any actors takes a run out of a terminal state or touches its row |
| `RoutesProofs.RequestEdgeExact` | src/insuranceops/api/routes/escalations.py:305-306 | a request that changes a run takes it from running or waiting to the state its kind names, one version on, along an edge of the domain table if and only if it is not a reject of a waiting run |
| `RoutesProofs.ResolveEffect` | src/insuranceops/api/routes/escalations.py:184-218 | in every interleaving a granted resolve resolves its case, adds the human attempt, and sets its run running one version on if and only if it was waiting; every other row is unchanged |
| `RoutesProofs.RejectEffect` | src/insuranceops/api/routes/escalations.py:289-310 | in every interleaving a granted reject rejects its case and sets its run failed one version on if and only if it was running or waiting; every other row is unchanged |
| `RoutesProofs.ClaimReplyExact` | src/insuranceops/api/routes/escalations.py:105-131 | 404 without the case, 409 unless it is open, else the actor is its claimer and nothing else changes |
| `RoutesProofs.CloseRefusalExact` | src/insuranceops/api/routes/escalations.py:166-182 | 404 without the case, 409 unless it is claimed, 403 for anybody but the claimer, else done |
| `RoutesProofs.CancelReadExact` | src/insuranceops/api/routes/workflow_runs.py:311-322 | 404 without the run, 409 unless it is running or waiting, else the request holds the row as it is |
| `RoutesProofs.CaseMovesForward` | src/insuranceops/domain/escalations.py:29-46 | over any stretch a case keeps its claimer, moves only forward, and never changes once closed |
| `RoutesProofs.StepCase` | src/insuranceops/domain/escalations.py:29-46 | every change of a case is an edge of the case table |
| `RoutesProofs.OneClaimer` | src/insuranceops/api/routes/escalations.py:105-131 | at most one claim of a case ever succeeds |
| `RoutesProofs.ClosedOnce` | src/insuranceops/api/routes/escalations.py:173-218 | at most one resolve or reject of a case ever succeeds |
| `RoutesProofs.ClosedByItsClaimer` | src/insuranceops/api/routes/escalations.py:178-182 | a successful close is by the actor of the one successful claim before it |
| `RoutesProofs.CloseReplyExact` | src/insuranceops/api/routes/escalations.py:278-310 | a resolve or reject succeeds if and only if its actor claimed the case and nobody has closed it, in terms of the earlier requests alone |
| `RoutesProofs.SyntheticAttemptUnique` | src/insuranceops/api/routes/escalations.py:196-208 | the fixed attempt number 99 never makes a resolve violate the uniqueness of attempt numbers among resolves |
| `RoutesProofs.RefusalChangesNothing` | src/insuranceops/api/routes/escalations.py:120-131 | a refused request leaves all tables unchanged |
| `RateLimit.Limiter.CheckRateLimit` | src/insuranceops/security/rate_limit.py:44-69 | window, counter, expiry on the first increment, verdict, and fail-open at each of the two Redis commands |
| `RateLimit.CheckEffect` | src/insuranceops/security/rate_limit.py:52-57 | a first hit starts its counter at one, to expire window + 1 seconds later unless that command fails; a later hit adds one and keeps the expiry; no other live counter changes |
| `RateLimit.KeyExact` | src/insuranceops/security/rate_limit.py:44-47 | two requests share a counter exactly when their API keys agree in their first twelve characters and they fall into the same aligned window |
| `RateLimit.CounterIsExact` | src/insuranceops/security/rate_limit.py:52-57 | until its window is over a counter holds the true number of hits, so the expiry never resets it inside its window |
| `RateLimit.VerdictExact` | src/insuranceops/security/rate_limit.py:52-69 | over every trace in time order a request is refused if and only if it reached Redis and is not among the first max hits of its key and window; the retry time then ends exactly at the window's end |
| `RateLimit.RetryIsNextWindow` | src/insuranceops/security/rate_limit.py:59-62 | every second before the retry time belongs to the used-up window and the retry time is the start of the next |
| `RateLimit.AdmittedPerWindow` | src/insuranceops/security/rate_limit.py:44-69 | for every limit a window admits exactly min(hits, max) of the requests that reach Redis and all that do not, and under a limit of zero or less also a first hit that fails to set the expiry |
| `RateLimit.SpanBounded` | src/insuranceops/security/rate_limit.py:44-64 | with Redis up any span of window length sees at most twice the limit |
| `RateLimit.SpanBoundTight` | src/insuranceops/security/rate_limit.py:44-64 | for every limit and window there is a trace that reaches twice the limit |
| `EventPages.SelectExact` | src/insuranceops/api/routes/workflow_runs.py:252-268 | the query holds exactly the matching events past the cursor, each once, in order |
| `EventPages.GetEventsReplies` | src/insuranceops/api/routes/workflow_runs.py:233-279 | 422 for a limit outside 1..200, 404 without the run, 400 for a malformed cursor; else the first events past the cursor, and a next cursor exactly when there are more |
| `EventPages.WalkSoFar` | src/insuranceops/api/routes/workflow_runs.py:270-279 | after n pages over a growing log the reader has exactly the first n * limit matching events |
| `EventPages.WalkIsFullRead` | src/insuranceops/api/routes/workflow_runs.py:252-279 | a walk that ends has read every matching event of the final log exactly once in order, whatever was appended meanwhile |
| `EventPages.WalkLength` | src/insuranceops/api/routes/workflow_runs.py:270-279 | over a log that does not grow every walk ends after exactly the number of pages needed |
| `EventPages.ClientReadsAll` | src/insuranceops/api/routes/workflow_runs.py:246-297 | the same for a client of the endpoint, for every limit it accepts, with other runs changing at will |

## Left out

- Postgres, Redis and asyncio themselves: lists, sorted sets and tables follow their commands, a transaction is one atomic step.
- Transactions that overlap: resolve, reject, the orchestrator's methods and `_process_task` read and write without a row lock or a version check in the code; here each is one atomic step. Only cancel is split into its read and its write.
- Routes: the orchestrator's own resume also writes cases; among the requests no other writer of existing cases is modelled, and other writers of runs appear as one versioned write to any state.
- Routes.Tables.ResolveEscalation: the attempt number 99 competes only with other resolves; that system attempts stay below 99 follows from the step limit of 10.
- Worker and orchestrator together: the worker records outcomes but never advances a run or schedules a retry, so there is no end-to-end liveness to prove.
- The request that creates a run over the API, which writes the rows of a start itself.
- The resolve request is not claimed to equal `resume_after_escalation`: it does not advance the run.
- Row identifiers of the orchestrator are row positions; documents, error codes and details, payload texts, deadlines, correlation ids and metrics are not modelled.
- The `transition_to` methods of the domain classes: their tables are modelled, the orchestrator and the routes do not call them.
- TaskProtocol: which item a reaper takes and where it sends it is left open, so its rule and order are in `Reaper` alone; the number of tasks per scheduler batch and the relay's limit are in `DelayedQueue` and `OutboxRelay` alone.
- OutboxRelay.Relay.RelayBatch: a push fails before Redis has taken the task; a commit that fails, and that closing a connection frees its lock, are not modelled, and a process that dies in a batch is a stop in `TaskProtocol`; which connection the pool hands out for the release is left open.
- Reaper.Redis.ReapStuckTasks: whether bytes are UTF-8, JSON, an object, or hold comparable numbers is not derived from their content; a `claimed_at` that is infinite or no number in floating point is not modelled.
- DelayedQueue.Queues.MatureTasks: scores are integers, so the rounding of milliseconds to floating point is not modelled.
- Backoff.TotalDelayBounded: delays are exact reals.
- AuditHash.PreimageInjective: text is its UTF-8 bytes, numbers are their token text, object members come in key order; lone surrogates, NaN and infinity, the `default=str` fallback, and what the JSON column does to a payload between append and verification are not modelled.
- AuditHash.PreimageInjective: timestamps are in UTC with a year of four digits, as the code writes them.
- The bit layout of `uuid7`, used only as a fresh identifier.
- RateLimit: the counter key is the pair of prefix and window start instead of its text; Redis and the callers share one clock; the choice of the limit by role is a parameter.
- EventPages.ClientReadsAll: the cursor text is already parsed, as none, malformed or a number.
- The paged list of escalations, whose cursor is a creation time that need not be unique.
- Deadline enforcement and escalation expiry, which no code performs; the heartbeat; the plain reads of the dead letter queue.
- Extraction, OCR and AI providers, rule validation, summaries, the migration linter, configuration, authentication, roles, logging and tracing.
