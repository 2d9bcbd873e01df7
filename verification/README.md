# MiniCoder: verified models of its protocols

This project models the parts of MiniCoder whose correctness depends on several statements, several
processes or a whole run, and proves what they keep. `dafny verify dfyconfig.toml` checks everything.

Each protocol is a transition system whose step is one database statement, one remote call or one await, so
that everything else may happen between two steps. Next to it stands the source's own imperative code, as a
class or a method, proved to take only steps of that system; whatever is proved about all runs then holds for
the code, whoever else is at work.

| part | files | shape |
|---|---|---|
| task queue | `QueueModel`, `QueueSafety`, `QueueRuns`, `QueueScenarios`, `QueueDispatcher`, `LocalCounter`, `Heartbeat`, `HeartbeatRuns` | statements of any number of workers over one table; invariants of every run; the dispatcher as a class that extends a run |
| merge protocol | `FeatureExecution`, `RouteIdempotency`, `MergeModel`, `MergeSafety`, `MergeTraces`, `MergeGate`, `MergeRuns`, `MergeRejections`, `MergeHandler`, `MergeScenarios` | awaits of any number of requests, other commands and an adversarial SCM; the two handlers as methods that extend a run |
| transaction clients | `SqliteClient`, `PostgresClient` | classes over a driver that may fail at every call |
| text timestamps and locks | `Text`, `Timestamps`, `Locks` | calendar arithmetic, text order, the stale-lock check |
| pagination | `Pagination` | keyset pages, and walks over a table that grows meanwhile |
| generated diffs | `DiffGuard` | path validation against a declarative walk, bounds, the write loop |
| exec streams | `Demux` | frame parser and its round trip |
| reviews | `Reviews`, `ReviewAnswers` | the sticky per-reviewer fold of both providers, and what it answers on the unsorted list |
| migrations | `Migrations` | migrate, crash, resume and roll back over a file list |

## Where the code is subtler than its documentation

- The dispatcher's `inFlight` map writes back a count read before an await, so decrements in between are lost.
  The map never under-counts, the loss is at most `limit - 1` slots, that bound is reached, and with a limit of
  one nothing is lost (`LocalCounter.ExactExactly`).
- Stale recovery does not count as an attempt: executions are bounded by `maxAttempts` plus the number of
  recoveries only (`QueueRuns.Conservation`).
- "At most one successful merge call per key" holds as long as the claims last. A further call after a successful
  one is made only when the claim of one of the two requests has been deleted after its expiry
  (`MergeRuns.MergeAtMostOnce`), and then it may be accepted, too: a request that stalls past its expiry merges
  beside the live claim of another (`MergeScenarios.StalledOwner`).
- "A merge that happened is never treated as failed" has three exceptions, and no others
  (`MergeRejections.MergedTreatedAsFailedExactly`): the reply to the merge was lost, so that `mergeSucceeded` is
  still false and the claim is released (`MergeScenarios.LostReply`); somebody else merged the pull request
  (`MergeScenarios.MergedMeanwhile`); or the merge could not be recorded and the claim that was left in place
  expired (`MergeScenarios.ExpiredMerge`).
- A 409 after a rejection does not always mean that this rejection was recorded. Command idempotency keys are
  derived from the client's key, so a retry of a key whose earlier rejection was recorded finds that record
  cached and writes nothing (`MergeScenarios.StaleRecording`). The rejection is recorded and resolved if and only
  if neither command finds a cached result (`MergeRejections.RejectionIsRecordedExactly`).
- A 200 does not always mean that the request's own run is recorded as merged: a live key that is used for a
  second run replays the first run's 200 (`MergeScenarios.ReplayedForAnother`), and an expired one may find the
  recording of the first run cached (`MergeScenarios.ReusedKey`). `MergeRuns.SuccessExactly` says for every 200,
  fresh or replayed, when its answer is about the request's own run, and that otherwise nothing is recorded.
- The claiming INSERT stands before the handler's try block. When it takes effect and reports an error, the claim
  stays unfulfilled until it expires, with no merge and no failed release (`MergeScenarios.InsertErred`);
  `MergeRuns.UnfulfilledExactly` gives all causes, exactly.
- On PostgreSQL, a callback that swallows a statement error gets a COMMIT without error that commits nothing;
  the transaction returns although nothing has been written. The contract of
  `PostgresClient.DbClient.Transaction` states exactly when.
- `validateRelativePath` accepts `./C:/x` and returns `C:/x`, which it rejects: it is idempotent exactly on
  results that do not look like a drive path (`DiffGuard.Revalidation`).
- `commitAndPush` says that it validates every path before it writes anything. It validates and writes file by
  file: the files before the first unsafe one are on disk when it throws (`DiffGuard.WritesBeforeRejecting`). No
  unsafe path is ever written.
- `migrate` applies scripts in the order of their file names, `rollback` undoes them in the order of their
  migration names. The orders differ exactly when a name continues another with a character smaller than
  `.`; then a rollback undoes a migration that was not the last (`Migrations.OutOfStep`).

## Model

| member | source | states |
|---|---|---|
| QueueRuns.GateSafety | packages/triggerdev/src/task-worker.ts:215-245 | In every state of every run, the committed `processing` rows of a task id never exceed its concurrency limit, for any interleaving of the statements of all workers with crashes, aborts, driver errors, enqueues and recoveries. |
| QueueRuns.CountIsOverestimate | packages/triggerdev/src/task-worker.ts:229-240 | From the COUNT to the claiming UPDATE the counted value is at least the true count and below the limit. |
| QueueRuns.GateExcludes | packages/triggerdev/src/task-worker.ts:222-228 | At most one attempt per task is between its gate statement and the end of its transaction. |
| QueueSafety.UncommittedRowIsUntouched | packages/triggerdev/src/task-worker.ts:236-242 | No statement of anybody else writes the row of a claim that is updated but not committed. |
| QueueRuns.Fencing | packages/triggerdev/src/task-worker.ts:133-137 | Equal `(id, version)` anywhere in a run implies equal status, attempts and retry time. |
| QueueRuns.RunEvolves | packages/triggerdev/src/task-worker.ts:129-169 | Along every run rows never disappear or change their request, and versions only grow. |
| QueueRuns.OneLiveClaim | packages/triggerdev/src/task-worker.ts:236-242 | A row has at most one live claim, and only while it is `processing`. |
| QueueRuns.LostClaimWritesNothing | packages/triggerdev/src/task-worker.ts:290-303 | Once a row has moved past a worker's claimed version, every heartbeat, success or failure write of that worker changes nothing, and its heartbeat learns that it lost the claim. |
| QueueRuns.SucceededIsFinal | packages/triggerdev/src/task-worker.ts:356-361 | A succeeded row never changes again, in any column. |
| QueueRuns.Conservation | packages/triggerdev/src/task-worker.ts:316-337 | Per row, claims = successes + recorded failures + recoveries + (1 if processing); `attempts` is the number of recorded failures and at most `maxAttempts`; success is recorded at most once; claims are at most `maxAttempts` plus recoveries. |
| QueueRuns.ProgressBound | packages/triggerdev/src/task-worker.ts:139-149 | On stretches without recoveries and push-backs the version growth of a row is paid for by a budget that never goes below zero. |
| QueueRuns.EmptyExactly | packages/triggerdev/src/task-worker.ts:256-264 | `isEmpty` is true exactly when no row is processing and every other row has succeeded or used up its attempts. |
| QueueRuns.QuiescenceIsStable | packages/triggerdev/src/task-worker.ts:247-264 | Once drained, the table stays the same to the last column, whatever workers do, until an enqueue inserts a row. |
| QueueRuns.RequestsAreUnique | packages/api/src/default-task-trigger-client.ts:39-45 | No two rows of a reachable table carry the same (project, task, key). |
| QueueRuns.NewRowIsDue | packages/api/src/default-task-trigger-client.ts:30-45 | A new row is eligible at every time, as long as any attempts are allowed. |
| QueueRuns.FailureWaits | packages/triggerdev/src/task-worker.ts:318-337 | In every run, a row whose failure is recorded has one more attempt and is eligible again exactly while it has attempts left and from its backoff after the clock reading on. |
| QueueRuns.PushBackWaits | packages/triggerdev/src/task-worker.ts:156-170 | In every run, a row that is pushed back keeps its status and attempts and is eligible again from the maximal backoff after the clock reading on. |
| QueueScenarios.Succeeds | packages/triggerdev/src/task-worker.ts:129-374 | For every configuration that may run the task at all there is a run in which an enqueued request is claimed, returns, and ends succeeded after one claim, with the queue drained. |
| QueueScenarios.FailsAndIsRetried | packages/triggerdev/src/task-worker.ts:318-337 | For every configuration with a second attempt there is a run in which it throws, ends failed with its backoff as retry time, and is a candidate again. |
| QueueSafety.StepKeepsInv | packages/triggerdev/src/task-worker.ts:129-374 | Every enabled step keeps the whole invariant: candidate snapshots, claims, gate, counts, limits, tallies and request uniqueness. |
| QueueSafety.StepKeepsLimit | packages/triggerdev/src/task-worker.ts:229-242 | A commit adds a processing row only where the count under the gate left room. |
| QueueSafety.StepKeepsInsideGate | packages/triggerdev/src/task-worker.ts:226-242 | What is counted and updated inside a claim transaction stays valid under every step of others. |
| QueueModel.BackoffDoubles | packages/workflow/src/outbox/backoff.ts:5-8 | The retry delay starts at the base, doubles with every attempt and stops at the maximum. |
| QueueDispatcher.Database.Execute | packages/triggerdev/src/task-worker.ts:129-374 | One statement extends the recorded run and changes the table as the protocol says. |
| QueueDispatcher.TaskQueueDispatcher.PollAndDispatch | packages/triggerdev/src/task-worker.ts:129-191 | A poll whose statements all succeed recovers the stale claims, then selects, then handles every candidate of that SELECT as `DispatchCandidates` says; it starts exactly the executions whose claims it has won, and ends early exactly if a statement throws. |
| QueueDispatcher.TaskQueueDispatcher.SelectAndDispatch | packages/triggerdev/src/task-worker.ts:139-191 | From the SELECT on: the candidates answer it on the table of that step, and each is handled. |
| QueueDispatcher.TaskQueueDispatcher.RecoverStale | packages/triggerdev/src/task-worker.ts:130-137 | Without an error, every row that is `processing` and not stamped since `staleClaimMs` before the clock reading is pending again under the next version, with its attempts and retry time, and every other row is as before. |
| QueueDispatcher.TaskQueueDispatcher.SelectCandidates | packages/triggerdev/src/task-worker.ts:139-149 | The candidates answer the SELECT on the table of its own step: eligible rows, each once, oldest first, at most `batchSize`, and no older one is left out. |
| QueueDispatcher.Select | packages/triggerdev/src/task-worker.ts:139-149 | The answer holds eligible rows only, each once, oldest first, at most `batchSize`, and leaves out no older eligible row. |
| QueueDispatcher.TaskQueueDispatcher.DispatchCandidates | packages/triggerdev/src/task-worker.ts:155-191 | Unless a statement throws, every candidate is handled: an unregistered one has been pushed back; of a registered one the count read was at its limit, or its claim was begun and won, or the COUNT found the task full or the UPDATE the row taken. One at its limit does not end the loop. Exactly the won claims are started; an error ends the loop, and nothing else does. |
| QueueDispatcher.TaskQueueDispatcher.DispatchOne | packages/triggerdev/src/task-worker.ts:155-191 | One candidate is pushed back, skipped at its limit, or goes to its claim; the books of `inFlight` balance across awaits and errors. |
| QueueDispatcher.TaskQueueDispatcher.ClaimPassed | packages/triggerdev/src/task-worker.ts:176-191 | A candidate that has passed the pre-filter is won, and the remembered count written back, or its claim is dropped for one of the two reasons. |
| QueueDispatcher.TaskQueueDispatcher.PushBackUnknown | packages/triggerdev/src/task-worker.ts:156-170 | An unregistered candidate is pushed back by a statement of its own, unless that throws. |
| QueueDispatcher.TaskQueueDispatcher.PassesPreFilter | packages/triggerdev/src/task-worker.ts:171-177 | Passes exactly below the local limit, and remembers the count that a won claim will write back. |
| QueueDispatcher.TaskQueueDispatcher.AttemptClaim | packages/triggerdev/src/task-worker.ts:215-245 | A claim attempt throws exactly if one of its statements fails, and is then gone. Otherwise it begins, counts, and is lost if and only if the COUNT found the task at its limit or the UPDATE found the row no longer open at the candidate's version; a won claim has committed at version + 1. |
| QueueDispatcher.TaskQueueDispatcher.CountUnderGate | packages/triggerdev/src/task-worker.ts:229-235 | With the gate held, the attempt is lost if and only if the number of `processing` rows at the COUNT is at the limit or above, or the UPDATE finds the row taken. |
| QueueDispatcher.TaskQueueDispatcher.DecideByCount | packages/triggerdev/src/task-worker.ts:229-243 | From the COUNT on, which reads the table of its own step. |
| QueueDispatcher.TaskQueueDispatcher.ClaimUnderGate | packages/triggerdev/src/task-worker.ts:236-243 | Unless a statement throws, the claim is won exactly if, in the table the UPDATE runs on, the row is pending or failed at the candidate's version. |
| QueueDispatcher.TaskQueueDispatcher.CommitClaim | packages/triggerdev/src/task-worker.ts:221-244 | A COMMIT without error wins the claim; one with an error, committed or not, leaves no execution, and it throws in no other case. |
| QueueDispatcher.TaskQueueDispatcher.HeartbeatLoop | packages/triggerdev/src/task-worker.ts:277-305 | Each beat renews the claim by one statement until the task returns; ownership is lost exactly if a renewal fails or finds the row not `processing` at the claimed version, and that renewal is the last. |
| QueueDispatcher.TaskQueueDispatcher.Renew | packages/triggerdev/src/task-worker.ts:286-303 | One renewal: lost exactly if it fails or finds the row taken. |
| QueueDispatcher.TaskQueueDispatcher.RunOne | packages/triggerdev/src/task-worker.ts:267-354 | The protocol learns what the task did (`Return(k, ok)`). If the claim was lost by then the outcome is `lost` and nothing is written. Otherwise a task that returned is written as succeeded, and is `dispatched` exactly if that write had no error and found its row at the claimed version; one that threw is written as failed, and is `failed` in the same case. A reported outcome is what the row records. |
| QueueDispatcher.TaskQueueDispatcher.Finish | packages/triggerdev/src/task-worker.ts:310-337 | The same from the return of the task on; a task that has returned is written as failed only behind an error of its success write. |
| QueueDispatcher.TaskQueueDispatcher.RecordSuccess | packages/triggerdev/src/task-worker.ts:312-318 | The success write is made; without an error the outcome is `dispatched` or `lost` as it finds the row, with one the catch block decides, never as `dispatched`. |
| QueueDispatcher.TaskQueueDispatcher.RecordFailure | packages/triggerdev/src/task-worker.ts:318-337 | The failure write is made; without an error the outcome is `failed` or `lost` as it finds the row, with one it throws. |
| QueueDispatcher.TaskQueueDispatcher.Drained | packages/triggerdev/src/task-worker.ts:256-264 | The count is zero exactly when nothing is processing and nothing has attempts left. |
| QueueDispatcher.RunExtended | packages/triggerdev/src/task-worker.ts:155-191 | While a worker waits, steps of others leave its own attempt and its snapshots as they are. |
| QueueDispatcher.EnqueueTask | packages/api/src/default-task-trigger-client.ts:30-57 | Inserts exactly one row, pending at version 1 with no attempts, no retry time and both stamps now, or on a conflict nothing, and returns the only row that carries the request. |
| LocalCounter.CounterIsSafeOverestimate | packages/triggerdev/src/task-worker.ts:171-193 | Running executions of a task in one process are at most `inFlight`, which is at most the limit; the difference is what was overwritten or rejected. |
| LocalCounter.RejectedExactly | packages/triggerdev/src/task-worker.ts:183-191 | What is booked as rejected is the number of executions that ended by throwing; a lost claim, or any other event, books nothing there. |
| LocalCounter.HistoryIsTrace | packages/triggerdev/src/task-worker.ts:171-193 | The history that the dispatcher records of its counter is a trace, so that all of this holds of the dispatcher. |
| LocalCounter.ExactExactly | packages/triggerdev/src/task-worker.ts:171-182 | The counter is exact after every trace without rejections if and only if the limit is at most one. |
| LocalCounter.ExactAtLimitOne | packages/triggerdev/src/task-worker.ts:171-182 | With a limit of one the counter is exact up to rejections. |
| LocalCounter.NeverLockedOut | packages/triggerdev/src/task-worker.ts:171-177 | Lost decrements alone never lock a task out: an idle process passes its pre-filter. |
| LocalCounter.SlotsAreLost | packages/triggerdev/src/task-worker.ts:171-186 | For every limit of at least two, a failure-free run ends idle with `limit - 1` slots still counted. |
| Heartbeat.LivenessBound | packages/triggerdev/src/task-worker.ts:277-305 | Recovery never resets the claim of a running worker, on every schedule with slack at most `bound` per renewal, if and only if the heartbeat interval, half of `staleClaimMs` rounded down but at least 1, plus `bound` is below `staleClaimMs`. |
| Heartbeat.MinimumStaleClaim | packages/triggerdev/src/task-worker.ts:119-126 | `staleClaimMs >= 2` is exactly the bound at which zero slack suffices. |
| HeartbeatRuns.ExecutingIsNeverRecovered | packages/triggerdev/src/task-worker.ts:130-137 | In every run of the queue: while an attempt executes its task and its heartbeats keep to a schedule with slack at most `bound`, the interval plus `bound` being below `staleClaimMs`, it has its row, stamped by its last write, and no recovery takes it. |
| RouteIdempotency.IdempotencyKeys.ClaimKey | packages/api/src/route-idempotency.ts:33-73 | For a call that nobody interrupts: owned exactly when every row of the key had expired; then a fresh unfulfilled row exists; otherwise the live row's stored result decides between fulfilled and in-progress; other rows are untouched. |
| RouteIdempotency.IdempotencyKeys.FulfillKey | packages/api/src/route-idempotency.ts:75-84 | Stores the response in the claim's own row and nowhere else; without the row nothing happens. |
| RouteIdempotency.IdempotencyKeys.ReleaseKey | packages/api/src/route-idempotency.ts:92-94 | Removes exactly the claim's own row. |
| RouteIdempotency.StatementsKeepUnique | packages/api/src/route-idempotency.ts:43-55 | Every statement keeps at most one row per key. |
| RouteIdempotency.LiveResultIsOwners | packages/api/src/route-idempotency.ts:60-72 | What a loser reads back is the stored result of the one live row. |
| MergeRuns.OneClaimPerKey | packages/api/src/route-idempotency.ts:43-55 | At most one claim exists per key, at every moment of every run. |
| MergeRuns.ClaimLasts | packages/api/src/route-idempotency.ts:42-47 | A claim lasts, with its key and expiry, until its owner releases it or a request of the same key deletes it after its expiry. |
| MergeRuns.SecondOwner | packages/api/src/route-idempotency.ts:42-58 | A second owner of a key implies that in between the first claim was released by its owner, or deleted after its expiry by a request of that key. |
| MergeRuns.LateOwnerChangesNothing | packages/api/src/route-idempotency.ts:75-94 | A fulfil or release by a request that has lost its row changes no row. |
| MergeRuns.ReplayIsOwnersResponse | packages/api/src/route-idempotency.ts:60-72 | A replayed response is exactly what the owner of the live row stored. |
| MergeRuns.MergeAtMostOnce | packages/api/src/commands/merge-if-ready-route.ts:258-266 | After a merge call that returned success, another call for its key is made only if, before that call, the claim of one of the two requests had been deleted by a request of the key after its expiry; so while the claims last at most one call returns success, and none follows it. |
| MergeGate.CallIsGated | packages/api/src/commands/merge-if-ready-route.ts:202-266 | For every merge call of every run, in this order before it: its request won the claim of its key, its merge-ready command took the run from approved_by_policy to merge_ready or found that result cached (it was neither blocked nor did it throw), and the run was read at merge_ready, at the version the call goes on with. |
| MergeGate.BlockedNeverCalls | packages/api/src/commands/merge-if-ready-route.ts:224-240 | A request whose gate blocked never has a merge call, before or after, and gives no answer but the block. |
| MergeGate.BlockedAnswer | packages/api/src/commands/merge-if-ready-route.ts:224-240 | A stored answer "blocked" comes from a gate that blocked that request. |
| MergeGate.FinalizeIsConfirmed | packages/api/src/commands/finalize-if-github-merged-route.ts:96-150 | A finalize request that records a merge has read its run at merge_ready, and after that the SCM has confirmed the merge; it records at the version read and the commit observed. |
| MergeRuns.CallBesideMerge | packages/api/src/commands/merge-if-ready-route.ts:258-266 | While the claim of a successful call is in place, a request may stand at another call for the key only if its own claim has been deleted. |
| MergeRuns.ClaimHeldExactly | packages/api/src/commands/merge-if-ready-route.ts:340-353 | A request that is past winning its claim and before giving it up, or has merged, has its claim if and only if nobody has deleted it after its expiry. |
| MergeRuns.UnfulfilledExactly | packages/api/src/commands/merge-if-ready-route.ts:165-184 | A handled request leaves its claim unfulfilled if and only if no response was stored, its claim has not been deleted after its expiry, and the merge had succeeded, the release failed, or the claiming INSERT took effect behind an error. |
| MergeRuns.MergedIsFinal | packages/core/src/statemachine/machines/feature-execution.ts:4-526 | Once a run is recorded as merged, no later step of any request, command or recovery changes its state or version. |
| MergeRuns.NoPhantomMerge | packages/api/src/commands/finalize-if-github-merged-route.ts:121-150 | A run recorded as merged implies that the SCM has merged its pull request. |
| MergeRuns.SuccessExactly | packages/api/src/commands/merge-if-ready-route.ts:165-176 | For every 200 that reports a merge, fresh or replayed: what it reports is recorded and merged; it reports the request's own run if and only if the stored route result, or the cached recording, belongs to that run; then the own run is recorded, and otherwise nothing has been. |
| MergeRuns.SuccessIsRecorded | packages/api/src/commands/merge-if-ready-route.ts:267-281 | What a 200 reports is a run some request with the key has asked for, recorded and merged; for a key that is used for one run it is the request's own. |
| MergeRuns.AlreadyRecordedIsTrue | packages/api/src/commands/finalize-if-github-merged-route.ts:96-99 | The answer that the merge was recorded already is true. |
| MergeRejections.RejectionIsRecordedExactly | packages/api/src/commands/merge-if-ready-route.ts:282-338 | For every stored rejection: after the rejecting call, the request's own event of the recording and then that of the reconcile or escalation are in the ledger, if and only if neither command found its key cached when it was dispatched. |
| MergeRejections.AnsweredRejection | packages/api/src/commands/merge-if-ready-route.ts:165-176 | Every 409 after a rejection, fresh or replayed, is the stored rejection of a request with the same key, to which the exact condition applies. |
| MergeRejections.AlreadyMergedExactly | packages/api/src/commands/merge-if-ready-route.ts:257-266 | While a request is handled and has not merged, at its merge call in particular, the pull request is merged if and only if an earlier call of the key merged it and its reply was lost, it was merged by somebody else, or a call of the key was accepted and one of the two claims had been deleted after its expiry. |
| MergeRejections.MergedTreatedAsFailedExactly | packages/api/src/commands/merge-if-ready-route.ts:282-338 | When a failed merge is recorded, or reconciled or escalated, with or without a recording before it, the run is merged in the SCM if and only if one of these three has happened. |
| MergeTraces.ScmOrigin | packages/api/src/commands/merge-if-ready-route.ts:258-266 | A pull request is merged exactly when it was from the start, somebody else merged it, or a merge call did, whatever that call reported. |
| MergeTraces.EventHasStep | packages/core/src/commands/helpers.ts:88-110 | Every event of a dispatched command was written by one dispatch of its request, at its place in the ledger, that found nothing cached. |
| MergeTraces.StoredExactly | packages/core/src/commands/helpers.ts:30-86 | In every run, a command finds a stored result of its key if and only if a command of that key has been executed less than the time to live before. |
| MergeTraces.LapsedExactly | packages/api/src/route-idempotency.ts:42-47 | The claims that have lapsed are those deleted by a request of their key after their expiry. |
| MergeTraces.AnswerHasOwner | packages/api/src/route-idempotency.ts:60-72 | Every answer to a keyed request is the response that some request with the key has stored. |
| MergeRuns.RecordingReports | packages/api/src/commands/merge-if-ready-route.ts:267-281 | What a recording reports, executed or replayed, is recorded as merged; the request's own run is exactly if it is the one reported or was merged before. |
| MergeSafety.StepKeepsInv | packages/api/src/commands/merge-if-ready-route.ts:150-361 | Every step keeps the claims, calls and ledger invariants, and takes back nothing recorded. |
| MergeSafety.StepKeepsClaims | packages/api/src/route-idempotency.ts:33-94 | Every step, failing statements with and without effect included, keeps one row per key, each row's owner and stored response, and that a request entitled to a row has it exactly if it has not lapsed. |
| MergeSafety.StepKeepsCalls | packages/api/src/commands/merge-if-ready-route.ts:258-266 | Every step keeps that a call follows a successful one of its key only beside a lapsed claim of one of the two. |
| MergeSafety.StepKeepsLedger | packages/core/src/commands/helpers.ts:30-86 | Every step keeps that merged runs are merged in the SCM and cached results are backed by events, and takes nothing recorded back. |
| MergeSafety.CommandKeepsLedger | packages/core/src/commands/handlers/feature/record-merged.ts:53-134 | A compare-and-swap command keeps every event in its place and every merged run as it is; it marks as merged only its own run, when that is its target, and stores a result only with the event behind it. |
| MergeHandler.MergeServer.MergeIfReady | packages/api/src/commands/merge-if-ready-route.ts:150-361 | The handler extends the run by its own steps and ends with exactly the answer it returns: a 200 reports what is recorded and merged, its own run for a key used for one run; a 409 after a rejection is recorded under the exact condition; why its claim is unfulfilled, if it is. Every merge call it makes is past the gate for a run at merge_ready, and a blocked one makes no call and answers nothing but the block. |
| MergeHandler.MergeServer.HandleMerge | packages/api/src/commands/merge-if-ready-route.ts:165-359 | Claim, try block and catch block take the protocol's branches, and the request ends with exactly the answer returned. |
| MergeHandler.MergeServer.ClaimKey | packages/api/src/route-idempotency.ts:33-73 | Goes on to the handler exactly as owner, and otherwise ends with the live row's response or none; each statement may fail with or without effect. |
| MergeHandler.MergeServer.TryMerge | packages/api/src/commands/merge-if-ready-route.ts:182-281 | The returned flag is true exactly when the merge call has returned success, and the request stands where the catch block expects it. |
| MergeHandler.MergeServer.PassGate | packages/api/src/commands/merge-if-ready-route.ts:202-240 | A reply that blocks answers 409, and only that; another error releases, and success goes on to the second fetch. |
| MergeHandler.MergeServer.MergePullRequest | packages/api/src/commands/merge-if-ready-route.ts:257-266 | The returned flag is true exactly when the call returned success, and the request stands where the inner try and catch blocks leave it. |
| MergeHandler.MergeServer.RecordMerge | packages/api/src/commands/merge-if-ready-route.ts:267-281 | After the merge, a failing recording or response leaves the claim in place. |
| MergeHandler.MergeServer.RecordRejection | packages/api/src/commands/merge-if-ready-route.ts:282-338 | The inner catch block ends at the stored answer, or at the release of the claim when one of its steps throws. |
| MergeHandler.MergeServer.Resolve | packages/api/src/commands/merge-if-ready-route.ts:301-338 | From the dispatch of the reconcile or escalation the request ends at the stored answer, or at the release. |
| MergeHandler.MergeServer.Respond | packages/api/src/commands/merge-if-ready-route.ts:173-176 | A response that is sent has been stored, and the claim, unless deleted as expired, holds it. |
| MergeHandler.MergeServer.ReleaseKey | packages/api/src/commands/merge-if-ready-route.ts:355-359 | The request ends with its claim gone, or its release failed. |
| MergeHandler.MergeServer.FinalizeIfMerged | packages/api/src/commands/finalize-if-github-merged-route.ts:84-154 | Any answer implies that the run is recorded as merged and that the SCM has merged it. |
| MergeHandler.MergeServer.ObserveAndRecord | packages/api/src/commands/finalize-if-github-merged-route.ts:96-152 | The request ends with exactly the answer returned, which is one of the two 200 answers or none. |
| MergeHandler.MergeServer.Perform | packages/api/src/commands/merge-if-ready-route.ts:150-361 | One awaited operation extends the run, and the handler may go on only where the protocol does. |
| MergeHandler.MergeServer.Await | packages/api/src/commands/merge-if-ready-route.ts:150-361 | While a request waits, others leave it as it is; what the awaited operation answers is chosen by the environment, and is what the handler's next step has to take. |
| MergeScenarios.LostReply | packages/api/src/commands/merge-if-ready-route.ts:258-266 | A run in which the reply to a successful merge is lost: the retry calls the SCM again and the merged run ends at human_required. |
| MergeScenarios.FinalizeRecovers | packages/api/src/commands/finalize-if-github-merged-route.ts:84-154 | A run in which the reply to a successful merge is lost and a finalize request records it: the run ends merged, in the ledger and in the SCM. |
| MergeScenarios.MergedMeanwhile | packages/api/src/commands/merge-if-ready-route.ts:258-266 | A run of one request without a lost reply in which somebody else merges first: the merged run ends at human_required. |
| MergeScenarios.StaleRecording | packages/api/src/commands/merge-if-ready-route.ts:282-338 | A run in which a retried key is rejected again and answers 409, and only the escalation is written after the rejecting call. |
| MergeScenarios.InsertErred | packages/api/src/commands/merge-if-ready-route.ts:165-170 | A run in which the claiming INSERT takes effect behind an error: the claim stays unfulfilled without merge or failed release, and a retry finds it in progress. |
| MergeScenarios.ReplayedForAnother | packages/api/src/commands/merge-if-ready-route.ts:171-173 | A run in which a live key is used for a second run, whose answer is the first run's 200 and whose pull request is not merged. |
| MergeScenarios.ReplayedForMerged | packages/api/src/commands/merge-if-ready-route.ts:171-173 | The same with a second run that had been merged and recorded before. |
| MergeScenarios.StalledOwner | packages/api/src/commands/merge-if-ready-route.ts:258-266 | A run with two accepted calls of one key and run, the second by a request whose claim expired, beside the live claim of the first. |
| MergeScenarios.ExpiredMerge | packages/api/src/commands/merge-if-ready-route.ts:340-353 | A run in which a merge is not recorded, its claim expires, and a rejected retry takes the merged run to human_required. |
| MergeScenarios.ReusedKey | packages/api/src/commands/merge-if-ready-route.ts:267-281 | A run in which an expired key is used for a second run: answered 200, merged, and not recorded. |
| SqliteClient.DbClient.Transaction | packages/persistence-sqlite/src/client.ts:70-103 | Whatever the driver does: on a live idle client the calls it gets are BEGIN, the callback's statements, COMMIT if the callback completed, and ROLLBACK if it did not or COMMIT failed; it returns exactly if BEGIN, the callback and COMMIT succeeded, and the client dies exactly if ROLLBACK failed. A return means exactly the callback's successful statements are committed in order, and all of them if it propagates errors; a throw of a live client leaves the database as before; a rejected nested or dead call changes nothing; the tx client has expired afterwards. |
| SqliteClient.LastCallDecides | packages/persistence-sqlite/src/client.ts:80-98 | A transaction returns if and only if its last call is a COMMIT without error, and kills its client if and only if it is a ROLLBACK with one: a callback that throws leaves a usable client behind. |
| SqliteClient.DbClient.RunCallback | packages/persistence-sqlite/src/client.ts:83-83 | While the callback runs, statements on the outer client and nested transactions leave the open transaction as it is and never reach the driver; its own statements do, in order, up to the first error it passes on, and it completes exactly if there is none. |
| SqliteClient.CallbackGrows | packages/persistence-sqlite/src/client.ts:83-83 | One more action: one that fails and passes its error on ends the callback, any other goes on. |
| SqliteClient.DbClient.Execute | packages/persistence-sqlite/src/client.ts:52-57 | No effect while dead or in a transaction; otherwise the driver gets the statement, which is one autocommitted write or none. |
| SqliteClient.TxClient.Execute | packages/persistence-sqlite/src/client.ts:22-26 | An expired tx client leaves the connection unchanged. |
| SqliteClient.WritesOfSnoc | packages/persistence-sqlite/src/client.ts:83-84 | The writes a callback asks for grow action by action, in order. |
| PostgresClient.DbClient.Transaction | packages/persistence-postgres/src/client.ts:81-142 | On a live idle client, the connection gets BEGIN, SET TRANSACTION if asked for, the callback's statements, COMMIT and ROLLBACK as their replies demand. A return commits exactly the successful statements if no statement error was swallowed, and nothing otherwise; a throw of a live client leaves the database as before; a live idle client has no open or aborted transaction, and dead clients have released their connection once. |
| PostgresClient.LastReplyDecides | packages/persistence-postgres/src/client.ts:91-137 | A transaction returns if and only if its last call is a COMMIT without error; it kills its client if and only if ROLLBACK got an error, or BEGIN one that is no serialization failure. |
| PostgresClient.DbClient.Attempt | packages/persistence-postgres/src/client.ts:92-110 | Between BEGIN and the catch block: a refused SET TRANSACTION, a callback that threw and a COMMIT with a plain error need a rollback, a COMMIT that failed to serialize does not. |
| PostgresClient.SwallowingIsPossible | packages/persistence-postgres/src/client.ts:95-109 | The replies of a connection on which a callback swallows a statement error and the COMMIT still gets no error are possible. |
| PostgresClient.SwallowingCommitsNothing | packages/persistence-postgres/src/client.ts:95-109 | On all such replies nothing has been committed. |
| PostgresClient.DbClient.Recover | packages/persistence-postgres/src/client.ts:110-137 | With a transaction to roll back, ROLLBACK is called once, and the client dies exactly if it gets an error; otherwise it dies exactly if the error is no serialization failure. A client that lives has no transaction open, one that dies releases its connection exactly once. |
| PostgresClient.DbClient.RunCallback | packages/persistence-postgres/src/client.ts:95-95 | A completed callback has an aborted transaction exactly when a statement error was swallowed; its statements reach the connection in order, up to the first error it passes on. |
| PostgresClient.DbClient.Close | packages/persistence-postgres/src/client.ts:144-149 | After one close the connection has been released exactly once, dead or alive. |
| PostgresClient.TxClient.Execute | packages/persistence-postgres/src/client.ts:39-42 | An expired tx client leaves the connection unchanged; a failed statement aborts the transaction. |
| Timestamps.TextOrderIsTimeOrder | packages/triggerdev/src/task-worker.ts:132-149 | For all instants of the years 0000 to 9999, comparing the `toISOString` texts compares the instants, and equal texts are equal instants. |
| Timestamps.DateOf | packages/triggerdev/src/task-worker.ts:101-103 | Every instant in range has a calendar date that denotes it. |
| Timestamps.LeapYearRule | packages/triggerdev/src/task-worker.ts:101-103 | The calendar used is the Gregorian one, by its closed form. |
| Timestamps.EpochIsNineteenSeventy | packages/triggerdev/src/task-worker.ts:101-103 | Its epoch is 1970-01-01. |
| Locks.Diagnostics.CheckStaleLocks | packages/api/src/read-models/diagnostics.ts:143-155 | Healthy exactly when every stale lock in scope was cleanly released; the orphans are the locks of that project, or of all, that expired before now at another instant than that of their last update. |
| Locks.Diagnostics.ReconcileStaleLocks | packages/api/src/read-models/diagnostics.ts:571-583 | Counts the stale locks, and unless there are none clears all that are stale at the UPDATE and leaves no orphan at that instant, whatever happens between the two statements; a lock of another project, or one that has not expired, is as before; the number is that of the locks cleared if the stale locks have not changed in between. |
| Locks.ReconcileClears | packages/api/src/read-models/diagnostics.ts:571-583 | A check at any later time counts exactly the orphans that had not expired at the reconcile. |
| Locks.OrphanedIsExpired | packages/api/src/read-models/diagnostics.ts:143-148 | On stored texts, orphaned means expired before now and not at the instant of the last update. |
| Pagination.ListByCreatedAt | packages/api/src/pagination.ts:70-97 | A page holds the newest matching rows before the position the cursor names, or from the newest on without a cursor that decodes, and has a next cursor exactly when older ones remain. |
| Pagination.PageIsNewestFirst | packages/api/src/pagination.ts:80-90 | The items are rows created before the cursor, by time and then id, each before the one preceding it. |
| Pagination.ResolveLimit | packages/api/src/pagination.ts:25-28 | An absent or NaN limit is 20, anything below 1 is 1, anything from 101 on is 100, and the rest rounds down. |
| Pagination.BeforeIsTotalOrder | packages/api/src/pagination.ts:82-88 | The cursor's comparison is a strict total order of positions. |
| Pagination.WalkDescends | packages/api/src/pagination.ts:92-96 | Whatever happens to the table between pages, a walk is strictly descending and repeats nothing. |
| Pagination.WalkIsComplete | packages/api/src/pagination.ts:92-96 | While rows are only added, a finished walk contains every row present at its start. |
| Pagination.PageTakes | packages/api/src/pagination.ts:87-96 | One page takes exactly its items off the matching rows. |
| Pagination.WalkLength | packages/api/src/pagination.ts:87-96 | On a fixed table of m matching rows a walk has at most max(1, ceil(m / n)) pages, and that many exactly when it is finished. |
| DiffGuard.ValidateRelativePath | packages/adapters-coder/src/diff-guard.ts:43-67 | Returns the joined names the walk ends on, if they are allowed, and null exactly when there is no such result. |
| DiffGuard.LeadsSomewhere | packages/adapters-coder/src/diff-guard.ts:47-62 | A path has a result, up to the patterns, if and only if it is non-empty, does not start with `/` or with a letter, a colon and a slash or backslash, is free of NULs, no prefix of its segments has more `..` than names, and the whole has more names. |
| DiffGuard.WalkExists | packages/adapters-coder/src/diff-guard.ts:51-61 | Every walk that stays inside ends on exactly the names no later `..` has come back over. |
| DiffGuard.NamesArePlain | packages/adapters-coder/src/diff-guard.ts:51-64 | The names are free of `/`, `\` and NULs, and none is empty, `.` or `..`. |
| DiffGuard.SplitSpread | packages/adapters-coder/src/diff-guard.ts:51-51 | Words with any runs of slashes and backslashes between them split into the words. |
| DiffGuard.SplitIsSpread | packages/adapters-coder/src/diff-guard.ts:51-51 | Every path is its segments with such runs between them; only its first and last segment may be empty. |
| DiffGuard.SplitJoin | packages/adapters-coder/src/diff-guard.ts:51-64 | Splitting a joined list of plain names gives the names back. |
| DiffGuard.LeadsToUnique | packages/adapters-coder/src/diff-guard.ts:51-64 | A path leads to one list of names only. |
| DiffGuard.Revalidation | packages/adapters-coder/src/diff-guard.ts:43-67 | A result validates to itself if and only if it does not start like a drive path. |
| DiffGuard.DotPrefix | packages/adapters-coder/src/diff-guard.ts:53-54 | `./` in front of plain names leads to the same names. |
| DiffGuard.DriveIsNotIdempotent | packages/adapters-coder/src/diff-guard.ts:48-48 | `./C:/x` is accepted and its result `C:/x` is absolute. |
| DiffGuard.AssertDiffWithinBounds | packages/adapters-coder/src/diff-guard.ts:70-97 | Passes exactly when the files are some but not too many, small enough together and allowed; otherwise the first violation in the order of the checks. |
| DiffGuard.CommitAndPush | packages/adapters-coder/src/workspace.ts:169-204 | Every path written is a validated result; commits exactly for a new run with safe paths, working writes and sizes within bounds; stops at the first unsafe path or failing write, and which of them, with its predecessors written. |
| DiffGuard.WriteFiles | packages/adapters-coder/src/workspace.ts:191-199 | Writes each file's content under its validated path, in order, up to the first unsafe path or failing write. |
| DiffGuard.WritesBeforeRejecting | packages/adapters-coder/src/workspace.ts:188-199 | Of a safe file and one that leaves the root, the first is written before the second is rejected. |
| DiffGuard.PlainLeads | packages/adapters-coder/src/diff-guard.ts:48-64 | Plain names, joined, lead to themselves if and only if they do not look like a drive path. |
| Demux.ParseFrames | packages/adapters-coder/src/sandbox.ts:176-188 | The loop computes the recursive decoding of the buffer. |
| Demux.CollectDemuxed | packages/adapters-coder/src/sandbox.ts:167-192 | The result is the decoding of the concatenated chunks, and so, for every list of frames whose encoding they make up, the payloads per stream in order. |
| Demux.RoundTrip | packages/adapters-coder/src/sandbox.ts:174-187 | Decoding the encoding of any frames gives the payloads of stream 2 as stderr and all other payloads as stdout, each in order. |
| Demux.Truncated | packages/adapters-coder/src/sandbox.ts:180-187 | Decoding any prefix of an encoding gives prefixes of both outputs. |
| Demux.UInt32RoundTrip | packages/adapters-coder/src/sandbox.ts:182-182 | The big-endian length survives encoding and decoding. |
| Demux.FirstFrame | packages/adapters-coder/src/sandbox.ts:180-187 | The first frame contributes its payload to its stream, and the rest is decoded as if it stood alone. |
| Reviews.DeriveReviewState | packages/github/src/octokit-client.ts:332-381 | The fold with its two maps computes the verdict on the sorted list, which `ReviewAnswers.VerdictAnswers` states on the list as it comes. |
| ReviewAnswers.DeriveGitHubReviewState | packages/github/src/octokit-client.ts:332-381 | On the list as it comes, later meaning submitted later (no time is time zero), or at the same time and further on: changes are requested if and only if some `CHANGES_REQUESTED` review has no later `APPROVED` or `DISMISSED` one of the same login; else it is approved if and only if some `APPROVED` review is its author's last; else the last review of all decides between commented, dismissed and pending; an empty list has none. |
| ReviewAnswers.DeriveGiteaReviewState | packages/gitea/src/gitea-client.ts:347-384 | The same with `REQUEST_CHANGES` and `COMMENT`. |
| ReviewAnswers.VerdictAnswers | packages/github/src/octokit-client.ts:341-381 | The verdict on the stably sorted list is that answer, for all words that differ from each other and from the common ones. |
| ReviewAnswers.AnswersAreUnique | packages/github/src/octokit-client.ts:362-381 | There is one such answer for every list. |
| ReviewAnswers.SortOrder | packages/github/src/octokit-client.ts:341-343 | The sorted list takes the reviews from earlier to later, each once. |
| Reviews.FoldStep | packages/github/src/octokit-client.ts:352-361 | One review updates both maps from their meaning before it to their meaning after it. |
| Reviews.FoldDecides | packages/github/src/octokit-client.ts:362-370 | The conditions on the maps decide the declarative ones, and the second disjunct is implied by the first. |
| Reviews.LatestChangesBlock | packages/github/src/octokit-client.ts:365-365 | A latest review that requests changes blocks. |
| Reviews.SortIsStable | packages/github/src/octokit-client.ts:341-343 | Reviews of one time keep their order. |
| Reviews.OrderIndependent | packages/github/src/octokit-client.ts:341-343 | With distinct times the verdict does not depend on the order of the input. |
| Reviews.CommentsNeverBlockOrUnblock | packages/github/src/octokit-client.ts:352-361 | A comment or unknown review inserted anywhere neither lifts nor imposes a block. |
| Reviews.ProvidersAgree | packages/gitea/src/gitea-client.ts:347-384 | Gitea's derivation equals GitHub's under exchange of the provider's words. |
| Migrations.ListIsSorted | packages/migrations/src/runner.ts:334-340 | The list holds every file ending in `.sqlite.sql`, or `.postgres.sql`, once, in file order. |
| Migrations.DownScriptsAreNotListed | packages/migrations/src/runner.ts:334-340 | A down script is never taken for an up script. |
| Migrations.NameOfFile | packages/migrations/src/runner.ts:342-345 | A migration name determines its file. |
| Migrations.Database.Apply | packages/migrations/src/runner.ts:376-383 | Script and record are applied together or not at all. |
| Migrations.Migrate | packages/migrations/src/runner.ts:365-393 | The pending scripts are applied in order up to the end, the first refusal or the crash, and the ending says which. |
| Migrations.Rollback | packages/migrations/src/runner.ts:395-417 | Undoes and forgets exactly the greatest recorded name in one transaction, by its `.sqlite.down.sql` or `.postgres.down.sql`, or changes nothing. |
| Migrations.MigrateOrRollback | packages/migrations/src/runner.ts:489-551 | Both commands are steps of the runs below. |
| Migrations.RunKeepsPrefix | packages/migrations/src/runner.ts:365-417 | In every run of migrates, crashes, refusals and rollbacks from an empty database, the recorded names are a prefix of the list and the schema is what that prefix makes, given names in file order and down scripts that invert. |
| Migrations.RollbackUndoesLast | packages/migrations/src/runner.ts:395-417 | Rollback undoes exactly the migration applied last, and its down script is never refused. |
| Migrations.ResumeIsUninterrupted | packages/migrations/src/runner.ts:370-384 | From any database, a migrate after a crash ends as the uninterrupted one. |
| Migrations.SuffixOrder | packages/migrations/src/runner.ts:338-344 | Adding the suffix reverses the order of two names exactly when the longer continues the shorter with something before the suffix. |
| Migrations.InStepExactly | packages/migrations/src/runner.ts:338-344 | Names follow file order if and only if no name slips ahead of another. |
| Migrations.FixedWidthIsInStep | packages/migrations/src/runner.ts:342-345 | Distinct fixed-width prefixes, as the numbered migrations have, keep names in file order. |
| Migrations.RollbackOrderExactly | packages/migrations/src/runner.ts:402-402 | Rollback picks the migration applied last, for every applied prefix, if and only if names follow file order. |
| Migrations.OutOfStep | packages/migrations/src/runner.ts:402-402 | With the names `a` and `a-b` a rollback undoes the first migration and leaves the second, which no prefix does. |

## Left out

- All workers share one registry and one set of options, and one clock per step; workers with different limits are not modelled.
- The local pre-filter restricts which claims are attempted; the protocol of all workers allows more, the dispatcher class has it.
- QueueDispatcher.TaskQueueDispatcher.PollAndDispatch: does not state the totals of a poll or its wait for the executions, because these run on as attempts of their own beside it; `RunOne` states what each of them reports.
- RouteIdempotency.IdempotencyKeys.ClaimKey: states the three statements without interference, because their interleaving is what the merge protocol models step by step.
- `linked_run_id`, `payload` and `error` columns of a queue row.
- The insert of the gate row: a gate exists for every task.
- What a registered task does, and the merge gate's own conditions: a task may return or throw, a gate may block, at any time.
- The status check published after the gate, the lookups of pull request and repository (they fail like the fetch of the run), role checks and HTTP plumbing.
- The command line's own merge command, which repeats the route's steps without a claim.
- The SCM is trusted on two points: a pull request it reports merged stays merged, and a call it reports successful has merged.
- Command idempotency rows inside a command are one atomic step with it, as their transaction is.
- Calls on a PostgreSQL client while its COMMIT is in flight, and a second `close()`.
- Statement texts, parameters and query results of the transaction clients: a write is a name, a read does nothing.
- The JSON and base64url coding of cursors, and SQL collations other than code point order.
- What a file write that fails leaves of its own file.
- UTF-8 decoding, in the demultiplexer (frame by frame) and in byte counts: both stay at bytes.
- The disallowed path patterns are an arbitrary predicate; the Git commands after the bound check are not modelled.
- Invalid review dates, and a login that equals the key made up for an unknown reviewer.
- `reset`, `status`, `validate` and `seed` of the migration runner, and scripts that end their own transaction.
- The other checks of the diagnostics read model, and the lock manager that writes the locks.
- Docker, Git and REST calls, webhooks, LLM adapters, the terminal UI.
