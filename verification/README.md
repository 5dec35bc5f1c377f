# Verification models of the job orchestrator

The orchestrator hands out locks with fencing tokens, drives jobs through a chain of statuses, and lets an agent swap
a staged project tree for the current one. Beside this it merges scene files, rewrites asset uids, limits request rates,
filters measurements and installs short-lived SSH keys. The files here model these parts and prove what they guarantee.
`dafny verify dfyconfig.toml` checks everything.

- **Locks and fencing** (`Fencing`, `LockModel`, `LockRuns`, `LockSteps`, `LockProofs`, `LockTheorems`,
  `LockExactness`, `LockRestore`, `LockGrants`, `LockRefinement`, `LockService`). Redis keys, Postgres ledger and the
  cached instance id, with the Lua scripts of `packages/orchestrator/src/lua`. A run is any interleaving of acquires,
  releases, reclaims, expiries, restarts, loss of Redis content and rotations, the latter as three separate writes.
  `LockRefinement` shows that the locks of the job model are these.
- **Jobs** (`JobStatuses`, `DependencyGate`, `JobModel`, `JobTheorems`, `JobDispatch`, `JobService`,
  `JobCounterexamples`). Every write of a handler is an action with a guard. `JobDispatch` says what a dispatch writes,
  given the tables and the answers from outside. The class `JobService` has the handlers with their mutual recursion
  and loops; its invariant says that the tables are what its log of legal actions makes of them, so every theorem about
  legal logs is one about every sequence of handler calls.
- **Commit agent** (`CommitModel`, `CommitTheorems`, `CommitEvents`, `CommitRecovery`, `CommitAgent`, `Archive`). An
  attempt is the sequence of disk states it goes through; a crash stops it in any of them. Snapshots are sequences of
  archive entries.
- **Scene files** (`TscnText`, `TscnHeaders`, `TscnProperties`, `TscnMerge`, `TscnIdempotence`, `TscnOutcomes`).
  Parser, both serializers, the header scanner, property lines and the node merge.
- **Uids** (`UidRewrite`, `UidDuplicates`, `UidTheorems`), **rate limits** (`RateLimit`), **statistics** (`Stats`, over
  the reals) and **keys** (`KeyLedger`, `KeyRuns`, `EnvRender`). `Wrappers`, `Sorting` and `Texts` are shared.

The answers of the lock service, the provisioner, the secret store and GitHub to the n-th dispatch, of the fencing
check, of the operating system and of the databases are parameters; the theorems hold for all of them.

## Where a promise does not hold

Each of these is stated as an exact condition, or with a concrete run.

- Fencing goes back in two ways. Restoring the instance id into an emptied Redis (`health-worker.ts:319-322`) lets
  counters start over under the same id, so tokens repeat (`RestartWithoutPersistenceGoesBack`);
  `RestoreHarmlessExactly` says for which ledgers and counters this is harmless. Between the Postgres commit of a
  rotation and the update of the cached id, a reentrant acquire revives the old token after its FAILOVER row
  (`RotationWindowReaccepts`). `NeverBackExactly` and `AcceptedInOrderExactly` name the exact conditions over all runs.
  `NeverBack` and `AcceptedInIssueOrder` hold where each restore finds counters no smaller than those in the ledger
  (`LockRuns.SafeStep`); every run in which Redis keeps its id meets this (`RunsWithoutLossAreSafe`).
  The key `lock_instance_bootstrap` that the acquire script also reads is written nowhere, and is always absent here.
- One worker per project: an administrator reclaim that finds several unfinished jobs under one key can dispatch one of
  them while another still works (`ReclaimStartsSecondWorker`); a job keeps its recorded `lock_key` through failures,
  blocking and dead-letter retries. `MutualExclusion` names the exact condition, `CurrentRowIsSafe` a sufficient one.
- At most three attempts: the same reclaim goes by attempts read beforehand (`ReclaimOverrunsAttempts`);
  `BoundedAttempts` names the exact condition.
- Ended for good: a COMPLETED job whose target lock expired is reclaimed and dispatched again
  (`CompletedIsDispatchedAgain`). `EndedForGoodExactly` names the exact condition.
- DEP_FAILED cannot be reached (`NothingReachesDepFailed`): the handlers that try to write it throw.
- A crash between the two renames of a commit, followed by a re-run, loses the previous tree (`PreviousTreeCanBeLost`);
  `PreviousSurvivesExactly` names the exact condition.
- The automatic recovery looks for the marker inside the staging directory, while it is written beside it, so it
  finishes no commit whose source is a staging directory of /tmp itself, as those of the workers are
  (`WorkerSourceIsNeverFound`). `RecoveryFinishesExactly` says which ones it finishes.
- A node patch whose path starts with `./` or ends in a slash creates a new node each time (`DottedPathCreatesTwice`,
  with the exact condition in `CreatesOnceExactly` and `PlainPatchFoundExactly`).
- After duplicates were resolved, files no longer contain the uid that its one remaining mapping keeps
  (`KeptUidLeavesFiles`). `UidStaysExactly` says which uids stay.

## Model

| member | source | states |
|---|---|---|
| Fencing.FormatInjective | packages/shared/src/fencing.ts:14-16 | two tokens with UUID instance ids print alike only if id and counter are the same |
| Fencing.ParseOfFormat | packages/shared/src/fencing.ts:14-26 | parsing a printed token gives back its counter and its instance id in lower case |
| Fencing.ParseSound | packages/shared/src/fencing.ts:6-26 | whatever parses is a UUID, a colon and one or more digits, and the result says exactly what these spell |
| Fencing.MatchIsEqualityOnMinted | packages/shared/src/fencing.ts:28-33 | for minted tokens the tolerant comparison accepts exactly equal texts |
| LockModel.FailoverRowsForgetOrder | packages/orchestrator/src/services/lock-service.ts:37-51 | the FAILOVER rows depend on the set of active keys, not on the order the query returned them in |
| LockModel.FailoverRowsCover | packages/orchestrator/src/services/lock-service.ts:37-51 | there is one FAILOVER row with counter 0 for every non-empty active key and for the sentinel, and for nothing else |
| LockProofs.InvNext | packages/orchestrator/src/services/lock-service.ts:77-332 | where restores are covered, every step of acquire, release, reclaim, rotation, expiry and restart keeps the order of issue in the ledger, the counters ahead of the ledger, and the ids moving forward |
| LockSteps.BaseNext | packages/orchestrator/src/services/lock-service.ts:77-332 | every step whatever keeps the ids and tokens known and the ids moving forward, also after counters were lost |
| LockTheorems.RunsWithoutLossAreSafe | packages/orchestrator/src/services/lock-service.ts:77-376 | runs in which Redis keeps its instance id, that is all runs of acquire, release, key expiry, reclaim, restart and rotation, meet the condition of the other theorems on restores |
| LockTheorems.NeverBack | packages/orchestrator/src/services/lock-service.ts:342-376 | where restores are covered: once a key has a later row with another token the earlier token is never accepted again, for any owner, a FAILOVER row counting once the process has its id |
| LockExactness.AcceptedExactly | packages/orchestrator/src/services/lock-service.ts:342-376 | in every reachable state a key accepts at most one text, the printed token of its newest row, if that row grants and carries the current id, and from its owner only |
| LockExactness.BackStepExactly | packages/orchestrator/src/services/lock-service.ts:192-376 | a step makes some outdated token acceptable exactly if it hands out an outdated token under the current id, or moves validation to an id under which a key repeats an outdated token in its newest row |
| LockExactness.NeverBackExactly | packages/orchestrator/src/services/lock-service.ts:77-376 | in every run no outdated token is ever accepted exactly if no step of the run is such a step |
| LockExactness.WentBackMeans | packages/orchestrator/src/services/lock-service.ts:342-376 | in terms of calls: going back means that validation accepts the token of an earlier row although a later row of the key has another one |
| LockExactness.OnlyReentryRevives | packages/orchestrator/src/services/lock-service.ts:192-261 | while counters cover the ledger and the current id stays, such a step is exactly a committed acquire by the holder whose cached token carries the current id and has a different row after it |
| LockExactness.AcceptedInOrderExactly | packages/orchestrator/src/services/lock-service.ts:192-376 | in every run tokens are accepted in the order of their issue exactly if no step makes a token acceptable that is older than one the key accepted up to then |
| LockRestore.RestoreHarmlessExactly | packages/orchestrator/src/workers/health-worker.ts:311-333 | after Redis was emptied and the id put back, no continuation by acquires, releases, reclaims, expiry and restarts goes back exactly if validation has not done so already and for no key the ledger has a number more than one above the counter of Redis, or one above it with a different row after it |
| LockRestore.EmptiedByRestore | packages/orchestrator/src/workers/health-worker.ts:311-333 | a restart of Redis without its content, followed by the restore of the health check, leads to such a state, with all counters at zero |
| LockTheorems.SettledOutdatesAll | packages/orchestrator/src/services/lock-service.ts:112-173 | once the validating process is on the Postgres id, NeverBack applies to every row without exception |
| LockTheorems.AcceptedInIssueOrder | packages/orchestrator/src/services/lock-service.ts:192-376 | where restores are covered, of two tokens accepted for a key at two moments of a run, the one accepted later was issued no earlier |
| LockTheorems.FailoverInvalidates | packages/orchestrator/src/services/lock-service.ts:112-173 | in every run, also one in which Redis lost its content and counters started over: after a completed rotation no token of an older instance id is ever accepted, for any key, with or without a pg_locks row, with acquires interleaved between its three writes |
| LockTheorems.FailoverRowsRejectAtOnce | packages/orchestrator/src/services/lock-service.ts:127-166 | right after the Postgres commit of a rotation nothing is accepted on the keys its query returned |
| LockTheorems.AcquireGrantsExactly | packages/orchestrator/src/services/lock-service.ts:192-261 | after a granted acquire exactly this owner with exactly this token is accepted, provided the token carries the current id; a reentrant grant after a rotation is dead |
| LockTheorems.ReclaimRejects | packages/orchestrator/src/services/lock-service.ts:290-332 | after a committed reclaim nothing is accepted for the key, its Redis owner is gone and so is its pg_locks row |
| LockTheorems.ReleaseWithdrawsNothing | packages/orchestrator/src/services/lock-service.ts:269-285 | a release frees the key for its owner only and changes no validation answer: a released token stays valid until the next ledger row |
| LockTheorems.RotationWindowReaccepts | packages/orchestrator/src/services/lock-service.ts:112-173 | a concrete run inside the rotation window: a reentrant acquire makes a token valid again although a FAILOVER row came after it |
| LockTheorems.RestartWithoutPersistenceGoesBack | packages/orchestrator/src/workers/health-worker.ts:311-333 | a concrete run: Redis restarts empty, the id is restored from Postgres, and token 1 is accepted again after token 2 |
| LockGrants.GrantedExactly | packages/orchestrator/src/services/lock-service.ts:192-261 | an acquire is granted exactly if its transaction commits, an instance id is in Redis or can be put there, and no other owner has the key |
| LockGrants.AcquireDenied | packages/orchestrator/src/lua/acquire_lock.lua:42-44 | a key that another owner has is denied, whatever Postgres would answer, and nothing but a missing instance id is written |
| LockGrants.AcquireWithoutId | packages/orchestrator/src/lua/acquire_lock.lua:15-23 | without an instance id in Redis every acquire ends in the error reply and changes nothing |
| LockGrants.AcquireFree | packages/orchestrator/src/services/lock-service.ts:192-261 | a free key goes to the caller with the number after the last one of that key; owner, cached token and counter of this key alone change, the ledger gets one ACQUIRED row and the pg_locks row names owner, token and job, the given one or else the one it had |
| LockGrants.AcquireAgain | packages/orchestrator/src/services/lock-service.ts:192-261 | the holder gets the token it has, or a new one if that expired; the ledger gets one REENTRANT row |
| LockGrants.AcquireRolledBack | packages/orchestrator/src/services/lock-service.ts:254-261 | a failed transaction leaves the tables as they were and frees the key, also for a holder that asked again |
| LockGrants.AcquireDied | packages/orchestrator/src/services/lock-service.ts:192-261 | a process that dies before its transaction leaves the key with the caller and the tables as they were |
| LockGrants.ReleaseExactly | packages/orchestrator/src/services/lock-service.ts:269-285 | a release answers yes exactly for the holder, and then removes its owner entry, its cached token and its pg_locks row, marks its ledger rows and touches nothing else |
| LockGrants.ReclaimExactly | packages/orchestrator/src/services/lock-service.ts:290-332 | a reclaim frees the key and spends one number in any case; the system row is added and the pg_locks row removed exactly if the transaction commits, which also decides the answer |
| LockGrants.ReclaimWithoutId | packages/orchestrator/src/services/lock-service.ts:290-332 | without an instance id a reclaim changes nothing |
| LockGrants.RotationExactly | packages/orchestrator/src/services/lock-service.ts:112-173 | a rotation puts the new id in all three places, adds a FAILOVER row for every active key and the sentinel and nothing else, empties pg_locks if it had rows, and keeps owners, tokens and counters |
| LockGrants.HeldUntilFreed | packages/orchestrator/src/services/lock-service.ts:192-332 | in every run, what holds a key keeps it until a step frees it: its release, expiry, a reclaim, its own failed transaction, or a loss of Redis |
| LockGrants.TakerStep | packages/orchestrator/src/services/lock-service.ts:192-261 | a free key is taken by a step exactly if that is an acquire of it whose transaction does not fail, and then by its caller |
| LockGrants.OneHolderAtATime | packages/orchestrator/src/services/lock-service.ts:192-332 | in every run, with restarts, rotations and losses: between two grants of a key to different owners the first one was freed in one of these ways |
| LockRefinement.KeysDiffer | packages/orchestrator/src/services/lock-service.ts:431-437 | different lock keys of different projects never print alike |
| LockRefinement.AcquireIsAction | packages/orchestrator/src/services/lock-service.ts:192-261 | a lock call of a dispatch in the lock service is the action AcquireLock of the job model: granted exactly if that action is enabled, with the same owners and pg_locks rows afterwards, and denied without a change otherwise |
| LockRefinement.RollbackIsAction | packages/orchestrator/src/services/lock-service.ts:254-261 | a lock call whose transaction fails is the action DropOwner |
| LockRefinement.ReleaseIsAction | packages/orchestrator/src/services/lock-service.ts:269-285 | a release in the lock service is the action ReleaseLock |
| LockRefinement.ReclaimIsAction | packages/orchestrator/src/services/lock-service.ts:290-332 | a reclaim is the action Reclaim, or LoseOwner if its transaction fails |
| LockRefinement.RotationInStep | packages/orchestrator/src/services/lock-service.ts:127-166 | the Postgres commit of a rotation is the action ClearPgLocks |
| LockServices.LockService.EnsureInstanceId | packages/orchestrator/src/services/lock-service.ts:77-102 | takes the cached id, else that of Redis, else writes the Postgres id to Redis, and caches it |
| LockServices.LockService.AcquireLock | packages/orchestrator/src/services/lock-service.ts:192-261 | the call changes Redis, ledger and pg_locks exactly as the acquire step of the runs, for a committed, failed or interrupted transaction; a key of another owner is refused with owners, tokens, counters, ledger and pg_locks unchanged |
| LockServices.LockService.ReleaseLock | packages/orchestrator/src/services/lock-service.ts:269-285 | the call is exactly the release step of the runs |
| LockServices.LockService.ReclaimLock | packages/orchestrator/src/services/lock-service.ts:290-332 | the call is exactly the reclaim step of the runs, including the failure after the bump |
| LockServices.LockService.RotateInstanceIdOnFailover | packages/orchestrator/src/services/lock-service.ts:112-173 | without interleaving the rotation is its Postgres, Redis and cache steps in this order |
| LockServices.LockService.ValidateFencingToken | packages/orchestrator/src/services/lock-service.ts:342-376 | the answer is the one the theorems speak about, and the call changes at most the cached and restored instance id |
| JobStatuses.NothingReachesDepFailed | packages/shared/src/job-status.ts:81-144 | no status but DEP_FAILED itself may become DEP_FAILED |
| JobStatuses.TerminalIsFinal | packages/shared/src/job-status.ts:56-144 | a terminal status may only be reported again |
| JobStatuses.TableByColumn | packages/shared/src/job-status.ts:81-144 | the table read the other way round: from which statuses each status can be reached |
| JobTheorems.EndedForGoodExactly | packages/shared/src/job-status.ts:56-144 | in every run jobs that have ended keep their status in all later states exactly if no reclaim or stale mark names an ended job and none is retried |
| JobTheorems.EndedStepExactly | packages/orchestrator/src/workers/health-worker.ts:227-257 | a single write leaves the status of every ended job alone exactly if it is no such write |
| JobCounterexamples.CompletedIsDispatchedAgain | packages/orchestrator/src/workers/health-worker.ts:217-257 | a legal run in which a job is reported COMPLETED and later dispatched again as its second attempt, because the expired target lock left its pg_locks row |
| JobTheorems.MutualExclusion | packages/orchestrator/src/services/job-service.ts:216-459 | in every run, all jobs being worked on own their project lock and have it recorded, in all states, exactly if no reclaim and no lost Redis key ever hits the lock of a job being worked on other than the one it marks |
| JobTheorems.OnePerProject | packages/orchestrator/src/services/job-service.ts:269-283 | where exclusion holds, at most one job per project is being worked on |
| JobTheorems.ExclusiveExact | packages/orchestrator/src/services/job-service.ts:216-459 | a single write keeps exclusion exactly if it does not take the lock of a job being worked on |
| JobTheorems.CurrentRowIsSafe | packages/orchestrator/src/workers/health-worker.ts:227-237 | in every run, reclaiming a key on the strength of its current pg_locks row never takes the lock of another job being worked on |
| JobCounterexamples.ReclaimStartsSecondWorker | packages/orchestrator/src/services/job-service.ts:840-877 | a reachable state with two jobs of one project being worked on, after a dead-letter retry that found the lock held and an administrator reclaim that finds both jobs under the key |
| JobTheorems.FinishReleasesBoth | packages/orchestrator/src/services/job-service.ts:609-616 | a final status gives up the recorded lock and the target lock |
| JobTheorems.DeadLetterKeepsTarget | packages/orchestrator/src/services/job-service.ts:733-736 | the dead-letter path gives up the generation lock, and leaves a held target lock with the dead job |
| JobTheorems.EndFreesExactly | packages/orchestrator/src/services/job-service.ts:609-616 | an end frees exactly the keys among the recorded one, and on a reported end the target one, that the job owns, with their pg_locks rows if these name the job; all other locks and rows stay |
| JobTheorems.RecordAfter | packages/orchestrator/src/services/job-service.ts:216-921 | which writes set and clear the recorded lock, the completion time, the target lock and the recorded blocker of a job |
| JobTheorems.InsertedExactly | packages/orchestrator/src/services/job-service.ts:133-187 | a new job waits exactly if the slot was taken or its dependency can still complete, starts with attempt 1 of 3, and has no lock |
| JobTheorems.BoundedAttempts | packages/orchestrator/src/services/job-service.ts:694-761 | in every run no attempt number exceeds the maximum, exactly if no exhausted stale job is ever requeued |
| JobTheorems.AttemptsExact | packages/orchestrator/src/services/job-service.ts:698-712 | a single write keeps the attempt bound exactly if it is no requeue of an exhausted stale job |
| JobCounterexamples.ReclaimOverrunsAttempts | packages/orchestrator/src/services/job-service.ts:840-877 | a reachable state with attempt 4 of 3, because the reclaim goes by the attempts it read before |
| JobTheorems.DispatchedOncePerAttempt | packages/orchestrator/src/services/job-service.ts:396-426 | in every run the attempt numbers a job is dispatched with strictly increase between retries by an administrator |
| JobTheorems.DependenciesAlwaysOlder | packages/orchestrator/src/services/job-service.ts:133-187 | in every reachable state dependency edges point to older jobs of the same project |
| JobTheorems.AllOlderSameProject | packages/orchestrator/src/services/job-service.ts:133-152 | so do all indirect dependencies, hence there are no cycles |
| JobTheorems.DependenciesCompletedFirst | packages/orchestrator/src/services/job-service.ts:228-255 | every workflow dispatch of a job is preceded by a COMPLETED report for each of its direct and indirect dependencies |
| JobTheorems.BlockersAlwaysInProject | packages/orchestrator/src/services/job-service.ts:155-164 | in every reachable state the job recorded as blocking another is of the same project |
| JobTheorems.HistoryFollowsPhases | packages/shared/src/job-status.ts:81-135 | in every run each phase that has one predecessor directly follows it in the job history, repetitions removed, also where writes bypass the table |
| JobTheorems.NoSkippedPhases | packages/shared/src/job-status.ts:81-144 | COMPLETED is directly preceded by STAGING, VALIDATING, VALIDATION_REPORT, COMMITTING and POST_COMMIT_VERIFY, in this order |
| JobServices.OrdinaryHandlersAreSafe | packages/orchestrator/src/services/job-service.ts:120-835 | creation, dispatch, reports, failures and promotions by themselves keep exclusion and the attempt bound over any stretch of a run |
| JobServices.BudgetAt | packages/orchestrator/src/services/job-service.ts:694-835 | the measure of remaining attempts changes by one job alone; it makes the mutual recursion of the handlers terminate |
| JobDispatches.StartsExactly | packages/orchestrator/src/services/job-service.ts:216-459 | what a dispatch writes is the lock acquisitions followed by the workflow call for the current attempt, and nothing else, exactly if the dependency is met, no needed lock is taken by another job, and the lock service, the provisioner, the secret store and GitHub all answer well |
| JobDispatches.DispatchStarts | packages/orchestrator/src/services/job-service.ts:216-459 | in terms of the log of the handler: under these conditions the call succeeds, those writes are the only new ones, and the job is DISPATCHING with its lock recorded and its locks in hand, all other jobs and locks unchanged |
| JobDispatches.BlocksExactly | packages/orchestrator/src/services/job-service.ts:228-311 | a dispatch blocks the job exactly for a dependency that can still complete, for a needed lock that another job has, once the calls before it went well, or for an error reply to the target lock |
| JobDispatches.BlockedForReason | packages/orchestrator/src/services/job-service.ts:228-311 | in every run a job is only ever blocked by a dispatch for such a reason, which is true of the tables at that moment |
| JobDispatches.BlockedWithoutLock | packages/orchestrator/src/services/job-service.ts:272-311 | after a dispatch that blocked the job for a lock, the job does not have the generation lock |
| JobDispatches.FailuresExactly | packages/orchestrator/src/services/job-service.ts:313-459 | with the locks in hand: failed provisioning gives both up and retries, failed sealing throws, and a failed workflow call retries after the dispatch was recorded |
| JobServices.JobService.Acquire | packages/orchestrator/src/services/job-service.ts:269-286 | the answer of the lock service decides what is written: a lock of another job is neither granted nor touched, a granted one is recorded for the job, a failed transaction frees it |
| JobServices.JobService.AcquireLocks | packages/orchestrator/src/services/job-service.ts:269-311 | the writes are exactly those that the owners of both locks and the two answers call for, and the job goes on, is blocked or makes the handler throw accordingly |
| JobServices.JobService.AcquireTarget | packages/orchestrator/src/services/job-service.ts:288-311 | a target lock that is refused, or answered with an error, gives the generation lock up before the job is blocked |
| JobServices.JobService.Create | packages/orchestrator/src/services/job-service.ts:120-214 | a dead dependency inserts nothing; otherwise one job with the given project, strategy and dependency is inserted, recorded as blocked exactly if the slot was taken, and then by the oldest job that takes it; a job that need not wait is dispatched in the same call, one that must is not |
| JobServices.JobService.DispatchJob | packages/orchestrator/src/services/job-service.ts:216-459 | the log starts with exactly the writes that the tables and the answers of this dispatch call for (`JobDispatches.DispatchOpening`, characterised by the lemmas above), and ends there unless a retry follows; a job that is not queued is left alone |
| JobServices.JobService.Work | packages/orchestrator/src/services/job-service.ts:313-459 | with the locks in hand, the writes are those that the answers of provisioner, secret store and GitHub call for |
| JobServices.JobService.FailDispatchPreStart | packages/orchestrator/src/services/job-service.ts:465-483 | both locks are released before the failure is recorded, and the retry or the dead letter follows |
| JobServices.JobService.UpdateStatus | packages/orchestrator/src/services/job-service.ts:492-638 | a disallowed transition or a rejected token changes nothing; an accepted report of a phase returns true and writes exactly that status; an accepted failure is requeued and dispatched below the maximum and dead-lettered at it; an accepted end frees the locks and lets the next job run |
| JobServices.JobService.HandleFailure | packages/orchestrator/src/services/job-service.ts:694-761 | below the maximum the job is requeued and dispatched, with the writes this dispatch calls for; at it the job is dead-lettered and the next job may run |
| JobServices.JobService.PromoteBlockedJobs | packages/orchestrator/src/services/job-service.ts:767-835 | the oldest blocked job of the project that is not kept waiting is promoted and dispatched with the writes this dispatch calls for; if its dependency has failed the handler throws; without such a job nothing is written |
| JobServices.JobService.PromotesExactly | packages/orchestrator/src/services/dependency-gate.ts:48-87 | in reachable states a blocked job may go exactly if its dependency has completed and no other job has the slot: the recorded blocker never decides |
| DependencyGates.GateExactly | packages/orchestrator/src/services/dependency-gate.ts:14-43 | a dependency lets the job go, blocks it or fails it, by its project and status |
| DependencyGates.PromotionExactly | packages/orchestrator/src/services/dependency-gate.ts:48-87 | when a blocked job may go, and when it fails with its dependency |
| JobServices.JobService.WorkerUpdate | workers/README.md:300-302 | a rejected token changes nothing, an accepted report of a phase returns true and writes exactly that status, and worker reports alone never mark jobs stale or free foreign locks |
| JobServices.JobService.ResolveDispatch | packages/orchestrator/src/workers/health-worker.ts:370-396 | only a job still dispatching is written: to STAGING, or to DISPATCH_TIMEOUT with the retry that follows |
| JobServices.JobService.RecoverLock | packages/orchestrator/src/workers/health-worker.ts:227-257 | the lock is reclaimed for the job named by the row, which is then requeued and dispatched below the maximum and ended at it |
| JobServices.JobService.RecoverJob | packages/orchestrator/src/workers/health-worker.ts:278-297 | the recorded lock is reclaimed or the job marked; an exhausted job stays LOCK_STALE |
| JobServices.JobService.RecoverRows | packages/orchestrator/src/workers/health-worker.ts:217-257 | the first loop reclaims every stale row in query order, each for the job it names, and marks nothing else |
| JobServices.JobService.ScanStaleLocks | packages/orchestrator/src/workers/health-worker.ts:217-298 | a scan that does not throw reclaims every stale row for the job it names, and marks no other job for a row; without stale rows it marks every watched job whose heartbeat is too old |
| JobServices.JobService.ScanLateJobs | packages/orchestrator/src/workers/health-worker.ts:268-298 | the second loop marks exactly the jobs with an old heartbeat that were in a watched status when read and were not handled before, each under the lock recorded then |
| JobServices.WatchedAtWork | packages/orchestrator/src/workers/health-worker.ts:268-277 | the watched statuses are those of a job at work, except waiting for the review of a report and for an editor |
| JobServices.JobService.AdminReclaim | packages/orchestrator/src/services/job-service.ts:840-877 | a reclaim that does not throw marks every unfinished job under the key, requeues those below the maximum as read beforehand and ends the others in DEAD_LETTER |
| JobServices.JobService.RetryDeadLetter | packages/orchestrator/src/services/job-service.ts:908-921 | whatever its status, the job starts over with attempt 1 and is dispatched |
| CommitTheorems.StagedNeverLost | packages/commit-agent/cmd/agent/main.go:665-778 | in every disk state of an attempt, whatever fails, the staged tree is at the source or at the target |
| CommitTheorems.PreviousNeverLost | packages/commit-agent/cmd/agent/main.go:745-771 | in every disk state of an attempt that finds a target, the previous tree is at the target or in the job backup |
| CommitTheorems.OthersUntouched | packages/commit-agent/cmd/agent/main.go:665-778 | no path but source, target, backup and marker ever changes |
| CommitEvents.RejectedWritesNothing | packages/commit-agent/cmd/agent/main.go:681-717 | a rejected fencing token ends the attempt before its first write, for every disk, nonce set, request and failure: no disk state, no nonce, and the answer is the rejection of the replay or of the token |
| CommitEvents.ReplayWritesNothing | packages/commit-agent/cmd/agent/main.go:677-684 | an attempt is rejected as a replay exactly if its nonce was recorded, and then writes nothing |
| CommitEvents.WritesExactly | packages/commit-agent/cmd/agent/main.go:677-778 | an attempt writes something exactly if its token is accepted, its nonce is new, and the tree is staged and the marker can be written, or the tree is already in place |
| CommitEvents.CommittedExactly | packages/commit-agent/cmd/agent/main.go:677-778 | an attempt commits exactly if its token is accepted, its nonce is new, the tree is staged and no needed write fails; it answers success without a swap exactly if the tree is not staged and the target is there |
| CommitEvents.LogExactly | packages/commit-agent/cmd/agent/main.go:857-869 | the nonce log grows by the nonce of a success, if it can be written, and by nothing else |
| CommitEvents.RejectedCuts | packages/commit-agent/cmd/agent/main.go:681-717 | after any number of crashed attempts that were all rejected the disk is the starting one |
| CommitEvents.RejectedRecovery | packages/commit-agent/cmd/agent/main.go:891-913 | a recovery in which every token is rejected changes neither disk nor nonces |
| CommitEvents.NoMarkerNoRecovery | packages/commit-agent/cmd/agent/main.go:891-913 | recovery does nothing unless a marker lies directly in a directory of /tmp whose name starts with staging- |
| CommitEvents.EachChangeWasAdmitted | packages/commit-agent/cmd/agent/main.go:677-717 | over every history of requests, crashes and restarts: each change of the disk is made by an attempt whose own token was accepted and whose nonce was not recorded |
| CommitEvents.NoChangeWithoutAcceptance | packages/commit-agent/cmd/agent/main.go:713-717 | a disk that differs from the one at the start of a history was preceded by an accepted token |
| CommitEvents.SuccessIsFinal | packages/commit-agent/cmd/agent/main.go:677-730 | over every such history: after a success whose nonce was logged, every later attempt with that nonce, also after restarts, is rejected as a replay and writes nothing |
| CommitEvents.AsideFailureExactly | packages/commit-agent/cmd/agent/main.go:759-764 | if the target cannot be moved aside it and the staged tree stay, the marker and the old backup of the job are gone, and nothing else changes |
| CommitEvents.NoncesExactly | packages/commit-agent/cmd/agent/main.go:677-680 | a given nonce is used as it is; without one, attempts of a job share a nonce exactly if they share a token |
| CommitEvents.BackupsDiffer | packages/commit-agent/cmd/agent/main.go:745-754 | backups of one target by different jobs are different paths beside it |
| CommitEvents.RestoreExactly | packages/commit-agent/cmd/agent/main.go:578-663 | restoring a backup moves it to the target and touches no other path; a missing backup changes nothing |
| CommitEvents.RestoreArchiveExactly | packages/commit-agent/cmd/agent/main.go:578-663 | restoring an archive replaces the target by what the archive holds and touches no other path |
| CommitTheorems.CrashSafe | packages/commit-agent/cmd/agent/main.go:665-778 | after any number of attempts cut short anywhere, with any failures and token answers, one undisturbed attempt leaves the staged tree at the target and nothing at the source |
| CommitTheorems.RepeatIsHarmless | packages/commit-agent/cmd/agent/main.go:677-730 | once done, the same nonce is rejected without a write and a fresh one changes no tree |
| CommitTheorems.PreviousSurvivesExactly | packages/commit-agent/cmd/agent/main.go:745-771 | after any number of attempts cut short anywhere, with any failures, an undisturbed re-run leaves the previous tree in the backup exactly if it was at the target while the staged tree still stood, or in the backup once it was in place |
| CommitTheorems.CrashBetweenRenames | packages/commit-agent/cmd/agent/main.go:755-771 | a crash between the two renames leaves nothing at the target, and the re-run deletes the backup |
| CommitTheorems.PreviousTreeCanBeLost | packages/commit-agent/cmd/agent/main.go:755-771 | a concrete disk and request for which the old tree then is at no path |
| CommitTheorems.CommittedFiles | packages/commit-agent/cmd/agent/main.go:745-777 | an undisturbed commit leaves the staged tree as target, the previous one as backup, and nothing else changed |
| CommitTheorems.RollbackUndoesCommit | packages/commit-agent/cmd/agent/main.go:588-608 | restoring the backup after a commit gives the files from before it, without source, marker and older backup |
| CommitTheorems.FailedSwapRestores | packages/commit-agent/cmd/agent/main.go:765-771 | when the second rename fails the previous tree is back at the target; of the commit only its marker remains |
| CommitTheorems.SnapshotRollback | packages/commit-agent/cmd/agent/main.go:610-629 | restoring the snapshot taken before a commit puts the previous tree without what archives drop at the target, or changes nothing if the archive is refused |
| CommitTheorems.NonceSurvivesExactly | packages/commit-agent/cmd/agent/main.go:857-884 | a recorded nonce is known after a restart exactly if it is one non-empty line without surrounding white space; no other nonce is forgotten |
| CommitRecoveries.RecoveryFinishesExactly | packages/commit-agent/cmd/agent/main.go:891-914 | start-up recovery, run over the listed directories of /tmp, finishes an interrupted commit and records its nonce exactly if the source lies directly inside a listed staging directory; otherwise it changes nothing |
| CommitRecoveries.RestartFinishesExactly | packages/commit-agent/cmd/agent/main.go:733-914 | the same for a commit killed at any write from the marker up to the first rename, and the agent restarted on that disk |
| CommitRecoveries.WorkerSourceIsNeverFound | workers/scripts/atomic-commit.sh:98-98 | the source the workers use, /tmp/staging- and the job id, is accepted by the agent and found by no recovery |
| CommitAgents.Agent.DoCommit | packages/commit-agent/cmd/agent/main.go:665-778 | the call makes exactly the writes of the specified attempt, in order; with a rejected token it changes neither disk nor nonces and answers with a rejection |
| CommitAgents.Agent.RecoverPendingRenames | packages/commit-agent/cmd/agent/main.go:891-914 | the loop over the directories attempts exactly the commits of the readable markers, one after the other |
| CommitAgents.Agent.SeenNonce | packages/commit-agent/cmd/agent/main.go:845-855 | the answer is membership in the recorded nonces, whatever the Bloom filter says about other strings |
| CommitAgents.Agent.RecordNonce | packages/commit-agent/cmd/agent/main.go:857-869 | the nonce is remembered, and appended to the log as a line if the log can be written |
| CommitAgents.Agent.LoadNonceLog | packages/commit-agent/cmd/agent/main.go:871-884 | adds exactly the trimmed non-empty lines of the log |
| CommitAgents.Agent.RestoreBackup | packages/commit-agent/cmd/agent/main.go:588-608 | the backup replaces the target; a missing backup changes nothing |
| CommitAgents.Agent.RestoreArchive | packages/commit-agent/cmd/agent/main.go:610-629 | an extracted archive replaces the target; a refused one changes nothing |
| Archives.SnapshotRoundTrip | packages/commit-agent/cmd/agent/main.go:353-399 | extracting a snapshot rebuilds the tree without .godot directories, links and devices, at any depth, and succeeds exactly if no archived top-level name starts with two dots |
| Archives.WalkExtracts | packages/commit-agent/cmd/agent/main.go:505-565 | the same below any directory with room for it: extraction adds exactly the pruned tree |
| Archives.PrunedWalk | packages/commit-agent/cmd/agent/main.go:497-576 | a snapshot of the rebuilt tree has the same entries as the first one |
| Archives.ExtractArchive | packages/commit-agent/cmd/agent/main.go:353-399 | entry by entry extraction stops at the first refusal and otherwise gives the extracted directory |
| TscnTexts.SerializeOfParse | packages/orchestrator/src/services/tscn-merge.ts:50-80 | for every text, printing what was parsed is the text with CRLF as LF and a final newline added if absent |
| TscnTexts.ParseOfLines | packages/orchestrator/src/services/tscn-merge.ts:50-68 | parsing undoes listing the lines, for every syntax tree of the form the parser produces |
| TscnTexts.SerializersAgreeExactly | packages/commit-agent/cmd/agent/merge_apply.go:185-208 | the Go serializer prints the same bytes for every parsed tree exactly if the preamble is not a single empty line followed by a section |
| TscnTexts.ParseTscn | packages/orchestrator/src/services/tscn-merge.ts:50-68 | the parsing loop computes the specified tree |
| TscnTexts.SerializeTscn | packages/orchestrator/src/services/tscn-merge.ts:70-80 | the printing loop computes the specified text |
| TscnTexts.SerializeTscnGo | packages/commit-agent/cmd/agent/merge_apply.go:185-208 | the Go printing loops compute the specified text |
| TscnHeaders.ParseHeaderAttrs | packages/orchestrator/src/services/tscn-merge.ts:82-90 | the match loop finds the leftmost non-overlapping attributes, later ones overriding |
| TscnHeaders.AttributesOfNodeHeader | packages/orchestrator/src/services/tscn-merge.ts:223-223 | a printed node header scans back to its name, type and parent exactly if none of them has a quote |
| TscnHeaders.CreatedIsFoundExactly | packages/orchestrator/src/services/tscn-merge.ts:218-223 | a node created for a path is found again at it exactly if the path is canonical and has no quote |
| TscnHeaders.NodePathExactly | packages/orchestrator/src/services/tscn-merge.ts:92-103 | which headers stand for a path, and which: the name alone without a parent or below the root, else parent, slash and name |
| TscnHeaders.RootPath | packages/orchestrator/src/services/tscn-merge.ts:92-103 | the header of a scene root, which has no parent, stands for its name |
| TscnProperties.PropertiesOverridden | packages/orchestrator/src/services/tscn-merge.ts:105-127 | the properties become those of the lines overridden by the patch, one line per key, keys in old order; other lines are kept in order, blank ones dropped |
| TscnProperties.SetPropertiesTwice | packages/orchestrator/src/services/tscn-merge.ts:105-127 | setting the same properties twice is setting them once |
| TscnProperties.PropertyOfRendered | packages/orchestrator/src/services/tscn-merge.ts:112-124 | a printed property is read back with its key, and its value without leading white space |
| TscnProperties.SetPropertyLines | packages/orchestrator/src/services/tscn-merge.ts:105-127 | the loops with a map and a key order compute the specified lines |
| TscnMerges.MergeAddresses | packages/orchestrator/src/services/tscn-merge.ts:189-228 | a patch has its full effect on its node, deleted, updated or created, as if it were the only one, whatever others do that neither speak about its path nor create a node there; what a created node is like is `TscnOutcomes.CreatesAsAsked` |
| TscnMerges.MergeFrame | packages/orchestrator/src/services/tscn-merge.ts:150-231 | the sections no patch speaks about keep header, lines and relative order and come before new ones, and there are none of these if every created node is found again |
| TscnOutcomes.CreatesAsAsked | packages/orchestrator/src/services/tscn-merge.ts:213-228 | after a merge, where no node stood, the section at the path of a patch is a node whose attributes read back as the name given or else the last component, the type given or else Node, and the parent given or else the rest of the path or a dot, exactly if none has a quote; its properties are those of the patch |
| TscnOutcomes.UpdatesAsAsked | packages/orchestrator/src/services/tscn-merge.ts:204-211 | where a node stands, the header of the first one stays and its properties are overridden, its other lines kept |
| TscnOutcomes.DeletesAsAsked | packages/orchestrator/src/services/tscn-merge.ts:196-202 | a deleting patch leaves no node at a path that occurred once |
| TscnOutcomes.TextCreatesAsAsked | packages/orchestrator/src/services/tscn-merge.ts:213-228 | the same for the printed text: read back, it has the created node with the name, type and parent asked for |
| TscnOutcomes.PatchPathExactly | packages/orchestrator/src/services/tscn-merge.ts:189-197 | which path a patch speaks about |
| TscnOutcomes.NamedPatchFoundExactly | packages/orchestrator/src/services/tscn-merge.ts:189-228 | a creating patch by name and parent is found again exactly if neither has a quote and the path does not start with ./ |
| TscnMerges.PlainPatchFoundExactly | packages/orchestrator/src/services/tscn-merge.ts:189-227 | for a patch with a path alone, the created node is found again exactly if the path is canonical and has no quote |
| TscnMerges.MergeTscn | packages/orchestrator/src/services/tscn-merge.ts:150-231 | the merge loop computes the specified tree, which `MergeFrame` and the lemmas of `TscnOutcomes` determine section by section |
| TscnMerges.ApplyTscnPatch | packages/orchestrator/src/services/tscn-merge.ts:233-235 | the composition computes the specified text, which `TscnOutcomes.TextCreatesAsAsked` and `TscnIdempotence.ApplyTextTwice` speak about |
| TscnIdempotence.MergeTwice | packages/orchestrator/src/services/tscn-merge.ts:150-231 | merging the same patches twice gives the tree of merging once |
| TscnIdempotence.ApplyTextTwice | packages/orchestrator/src/services/tscn-merge.ts:233-235 | applying the same patches to a text twice gives the text of applying once |
| TscnIdempotence.CreatesOnceExactly | packages/orchestrator/src/services/tscn-merge.ts:217-227 | a repeated creating patch adds one node exactly if its node is found again, and two otherwise |
| TscnIdempotence.DottedPathCreatesTwice | packages/orchestrator/src/services/tscn-merge.ts:217-227 | a patch for the path ./A creates two nodes when it is applied twice |
| UidRewrites.RewriteIsMap | packages/orchestrator/src/services/uid-file-reconcile.ts:70-84 | the output cuts into the pieces of the input, each maximal token mapped through the replacements and every other character as it was |
| UidRewrites.RewrittenAt | packages/orchestrator/src/services/uid-file-reconcile.ts:70-84 | piece by piece: a token with a non-empty replacement becomes that, and everything else stays |
| UidRewrites.SecondPassIdleExactly | packages/orchestrator/src/services/uid-file-reconcile.ts:70-84 | a second pass changes nothing exactly if no token of the text leads through two replacements |
| UidRewrites.NoChains | packages/orchestrator/src/services/uid-file-reconcile.ts:75-82 | that is so whenever no new value is itself a key |
| UidRewrites.RewriteUidsInText | packages/orchestrator/src/services/uid-file-reconcile.ts:70-84 | the replacing loop gives the mapped text and the number of changed tokens |
| UidRewrites.ChangedCounts | packages/orchestrator/src/services/uid-file-reconcile.ts:70-84 | the returned number is that of the positions at which input and output differ |
| UidRewrites.ProjectFiles.ApplyUidReplacements | packages/orchestrator/src/services/uid-file-reconcile.ts:86-111 | every listed readable file is rewritten once, no other changes; the touched files and the total are exact |
| UidDuplicates.UidTable.SelectByUid | packages/orchestrator/src/services/uid-service.ts:258-265 | the rows of a uid, each once, overrides first and then the newest |
| UidDuplicates.UidTable.ResolveGroup | packages/orchestrator/src/services/uid-service.ts:257-287 | exactly the rows of the group that are neither first nor overrides get new uids; further overrides are reported |
| UidDuplicates.UidTable.AutoResolveDuplicates | packages/orchestrator/src/services/uid-service.ts:238-287 | the same over all groups at once, with the list of fixes, the reports and the replacements |
| UidTheorems.SharedOnlyByOverrides | packages/orchestrator/src/services/uid-service.ts:257-287 | afterwards a uid still shared by two mappings that are not reservations is shared by overrides only, and reported |
| UidTheorems.FixedExactly | packages/orchestrator/src/services/uid-service.ts:274-285 | the fixes are exactly the mappings whose uid changed, each with old uid, new uid and path; paths and namespaces never change |
| UidTheorems.ChangedIsShared | packages/orchestrator/src/services/uid-service.ts:135-147 | a mapping only gets a new uid if two mappings that are not reservations had its uid |
| UidTheorems.KeeperUnchanged | packages/orchestrator/src/services/uid-service.ts:267-268 | one mapping of each duplicated uid is left alone: an override exactly if there is one, and then the newest override, else the newest |
| UidTheorems.UidStaysExactly | packages/orchestrator/src/services/uid-service.ts:284-315 | the file rewrite leaves a uid that is not new in a text exactly if it was there and no mapping lost it, while the keeper of a duplicated uid has it in the table unchanged |
| UidTheorems.KeptUidLeavesFiles | packages/orchestrator/src/services/uid-service.ts:284-315 | a concrete table: of two mappings with one uid the newer keeps it, and a file that named it names the other mapping afterwards |
| RateLimits.WindowBound | packages/orchestrator/src/middleware/rate-limit.ts:20-32 | for every request sequence with a clock that does not go back, every interval of the window length holds at most the maximum of accepted requests |
| RateLimits.RefusedExactly | packages/orchestrator/src/lua/rate_limit.lua:15-22 | a request is refused exactly if the window before it holds the maximum of accepted requests |
| RateLimits.HookBounds | packages/orchestrator/src/middleware/rate-limit.ts:57-90 | at most the minute limit passes in any 60 seconds and the burst limit in any 10 seconds |
| RateLimits.StoppedExactly | packages/orchestrator/src/middleware/rate-limit.ts:57-90 | the hook stops a request exactly if its minute window or its burst window is full |
| RateLimits.SlidingWindow.Hit | packages/orchestrator/src/lua/rate_limit.lua:15-22 | the trimmed set answers as if all accepted requests were counted, and returns their number in the window |
| RateLimits.SlidingWindow.Expire | packages/orchestrator/src/lua/rate_limit.lua:21-21 | expiry of the key one window after the last accepted request changes no later answer |
| RateLimits.RateLimiter.OnRequest | packages/orchestrator/src/middleware/rate-limit.ts:57-90 | a request passes exactly if both windows accept it, and both count it on their own |
| Stats.MedianSplits | packages/shared/src/stats.ts:5-13 | at least half of the values are at most the median, at most half are less |
| Stats.MedianIsMiddle | packages/shared/src/stats.ts:5-13 | the median is the mean of the two middle values in order, which are one value for an odd number of values |
| Stats.KthIsUnique | packages/shared/src/stats.ts:5-13 | the counts of smaller and of smaller or equal values name one value for each position |
| Stats.KeepsHalf | packages/shared/src/stats.ts:26-37 | outlier filtering keeps at least half of the values for every factor of at least 1 |
| Stats.NearExactly | packages/shared/src/stats.ts:33-36 | the kept indices are in order and are exactly those within the threshold |
| Stats.FilterExactly | packages/shared/src/stats.ts:26-37 | the filter keeps, in order, exactly the values within the factor times 1.4826 times the deviation of the median, and all of them for fewer than three values or no deviation |
| Stats.RobustWithinRange | packages/shared/src/stats.ts:39-42 | the robust median lies between the smallest and the largest value |
| Stats.RobustNearMedian | packages/shared/src/stats.ts:39-42 | the robust median is at most 3 times 1.4826 times the deviation away from the median |
| KeyLedgers.LedgerMatchesFiles | packages/target-provisioner/internal/handler.go:104-261 | over every run of provisions, revocations and sweeps, the key files are exactly the paths the ledger lists and never more keys are active than allowed |
| KeyLedgers.SweepIsExact | packages/target-provisioner/internal/handler.go:245-261 | a sweep removes exactly the expired entries and exactly their files |
| KeyRuns.AnswersExactly | packages/target-provisioner/internal/handler.go:104-171 | a provision is granted exactly if the request is in order, with a lifetime of 1 to 3600 seconds and a valid key, fewer unexpired keys than the limit exist, fewer usable keys of the job than its sessions, and line and ledger can be written; otherwise it says which refusal applies |
| KeyRuns.ProvisionIsExact | packages/target-provisioner/internal/handler.go:173-216 | a granted provision adds one entry, with id, job, file name, sessions and the expiry asked for, and its line in its file, and nothing else; a refused one changes nothing |
| KeyRuns.RevokeIsExact | packages/target-provisioner/internal/ledger.go:119-143 | after any proper run, a revocation removes an entry and its file exactly if job and key are the named ones, and keeps the other files as they are |
| KeyRuns.FailureChangesNothing | packages/target-provisioner/internal/handler.go:218-261 | a request that cannot write the ledger changes nothing |
| KeyRuns.StaysExactly | packages/target-provisioner/internal/ledger.go:119-169 | over every proper run a granted key is in the ledger at a later moment exactly if no revocation of it and no sweep after its expiry succeeded in between |
| KeyRuns.EntriesAreGranted | packages/target-provisioner/internal/handler.go:104-216 | over every proper run, every key in the ledger was granted by a request of the run, and its file has the line of that request |
| KeyRuns.JobBound | packages/target-provisioner/internal/ledger.go:92-104 | over every proper run, if no request for a job asks for more than m sessions the job never has more than m usable keys |
| KeyRuns.FileNameIsSafe | packages/target-provisioner/internal/keys.go:138-156 | whatever a job is called, its key file is a plain name of bounded length directly in the directory of keys |
| KeyLedgers.FileNamesDiffer | packages/target-provisioner/internal/handler.go:173-173 | keys with different ids have different files, whatever their jobs are called |
| KeyLedgers.SafeFileComponent | packages/target-provisioner/internal/keys.go:138-156 | the loop computes the cleaned, shortened, never empty name part |
| KeyLedgers.Provisioner.CountActiveForJob | packages/target-provisioner/internal/ledger.go:92-104 | the number of unexpired entries of the job with sessions left |
| KeyLedgers.Provisioner.HandleProvision | packages/target-provisioner/internal/handler.go:104-216 | the answer and the new state are those of the model, with the file removed again if the ledger cannot be written |
| KeyLedgers.Provisioner.HandleRevoke | packages/target-provisioner/internal/ledger.go:119-143 | the entries and files afterwards are those of the specified revocation, which `KeyRuns.RevokeIsExact` characterises |
| KeyLedgers.Provisioner.SweepOnce | packages/target-provisioner/internal/ledger.go:146-169 | removes the expired entries and their files, and returns their number |
| EnvRenders.InsertionSort | packages/target-provisioner/internal/keys.go:95-102 | the in-place sort gives the one sorted arrangement of the keys |
| EnvRenders.RenderIsCanonical | packages/target-provisioner/internal/keys.go:86-115 | the text does not depend on the order in which the map hands out its keys |
| EnvRenders.RendersExactly | packages/target-provisioner/internal/keys.go:104-135 | rendering succeeds exactly if every key and value is admissible, and otherwise names an inadmissible one |
| EnvRenders.AdmissibleExactly | packages/target-provisioner/internal/keys.go:117-135 | which keys and values are admissible |
| EnvRenders.RenderIsContained | packages/target-provisioner/internal/keys.go:86-115 | a rendered text is one line with exactly the two quotes around its list |
| EnvRenders.RenderRoundTrip | packages/target-provisioner/internal/keys.go:86-115 | splitting at commas and first equals signs recovers the map whenever rendering succeeds |
| EnvRenders.RenderEnvironment | packages/target-provisioner/internal/keys.go:86-115 | sorting and rendering loops compute the specified text or refusal |

## Left out

- LockProofs.InvNext: asks that restores of a lost instance id are covered; `LockSteps.BaseNext` is what holds without that.
- LockTheorems.NeverBack: asks for covered restores, and for a FAILOVER row that the process has moved to its id; it is a sufficient form of `LockExactness.NeverBackExactly`, which asks for neither.
- LockTheorems.AcceptedInIssueOrder: asks for covered restores; it is a sufficient form of `LockExactness.AcceptedInOrderExactly`.
- LockRestore.RestoreHarmlessExactly: the continuations have no further loss of Redis content and no rotation; `LockExactness.NeverBackExactly` covers those.
- LockGrants.AcquireAgain: asks that ids in Redis are UUIDs, as every write of the service makes them.
- LockRefinement.AcquireIsAction: asks for the same and for an id in Redis or none cached; a loss of the Redis content is not an action of the job model, whose locks expire one by one.
- LockRefinement.RotationInStep: asks that the rotation saw no active key only if pg_locks is empty, as the query makes it.
- LockTheorems.FailoverInvalidates: rotations that overlap, and a second orchestrator process with its own cached id, are not modelled.
- LockModel.LatestIndex: the position in the ledger stands for `acquired_at`, so rows with equal times do not occur.
- Fencing.ParseOfFormat: counters are unbounded, while the source reads them back as floating-point numbers, exact up to 2^53.
- JobServices.JobService.DispatchJob: is called on rows that are not LOCK_STALE, DISPATCH_TIMEOUT or DISPATCH_FAILED, as every caller writes QUEUED first; handlers run one after the other, and exceptions arise only at the points where the code handles or raises one.
- JobServices.JobService.WriteDispatching: asks that the job owns its locks and is queued, while the update at job-service.ts:396-416 is unconditional: handlers do not interleave in the model, so nothing comes between the acquire and this write.
- JobServices.JobService.UpdateStatus: the statuses QUEUED, DISPATCHING, BLOCKED and LOCK_STALE, which the route accepts but no worker script sends, are not modelled as reports.
- JobServices.JobService.ScanStaleLocks: heartbeat times are not modelled: the set of jobs whose heartbeat is too old is given; a reclaim and the row update after it are one step. With stale rows, which late jobs the second loop finds depends on the recoveries before it, and only that it marks no job of a row is stated.
- JobTheorems.DependenciesCompletedFirst: a dispatch is the write of DISPATCHING; whether GitHub then accepts it does not matter to the order.
- CommitTheorems.CrashSafe: the validators keep staging and project trees apart, so the four paths of a request are distinct and none contains another; a removal that fails without a crash, the generated job id of a request without one, and a log line cut in the middle are not modelled.
- CommitEvents.SuccessIsFinal: asks that the log consists of whole lines, that the success could be logged, and that the nonce is a trimmed non-empty line; `CommitTheorems.NonceSurvivesExactly` says that the last is needed.
- CommitRecoveries.RecoveryFinishesExactly: asks that no other commit is pending in the listed directories, that their markers are none of the paths of the request, and that no attempt is disturbed; decoding of markers is a parameter.
- CommitTheorems.SnapshotRollback: file modes, and the copy used when a rename crosses devices, are not modelled.
- TscnMerges.MergeTscn: node patches come already collected into one list with rendered values; external resource patches are left out, and so is the Go merge, whose map iteration leaves the order of new keys open.
- TscnHeaders.CreatedIsFoundExactly: a type with a quote in it is left out.
- TscnProperties.PropertiesOverridden: asks for identifier keys and single-line values; other keys and values are printed, but not read back as properties.
- TscnProperties.SetPropertiesTwice: asks for identifier keys and single-line values, for the same reason.
- TscnMerges.MergeAddresses: several patches of one path act one after the other and are not summed up; deleting asks that the path occurs at most once.
- TscnOutcomes.CreatesAsAsked: asks that the patch is found again at its path and that no other patch speaks about it, as `MergeAddresses` does; `CreatesOnceExactly` shows what happens otherwise.
- TscnOutcomes.NamedPatchFoundExactly: a type with a quote in it is left out.
- TscnIdempotence.MergeTwice: asks for distinct paths, nodes that are found again, and properties as above; `CreatesOnceExactly` shows what happens otherwise.
- TscnIdempotence.ApplyTextTwice: asks for the same, and for text without carriage returns.
- TscnMerges.ApplyTscnPatch: external resource patches are left out, as for the merge.
- UidRewrites.RewriteIsMap: asks that replacement values are tokens, as generated uids are.
- UidRewrites.SecondPassIdleExactly: asks for the same.
- UidDuplicates.UidTable.AutoResolveDuplicates: new uids are drawn from a supply of distinct unused ones; reserve and commitReservation are left out, being single-row updates.
- RateLimits.SlidingWindow.Hit: the script is atomic and times are not negative.
- Stats.KeepsHalf: real numbers instead of floating point.
- KeyLedgers.LedgerMatchesFiles: key ids are fresh, requests do not overlap, and removing a file does not fail; name parts are sequences of characters rather than bytes.
- KeyRuns.FileNameIsSafe: the characters outside ASCII that count as letters contain neither a slash nor a dot.
- EnvRenders.RenderRoundTrip: which characters outside ASCII are letters or digits is a parameter.
- Liveness of blocked jobs: several paths end a job without promoting another.
- HTTP routes, WebSocket hub, dashboard, mail, alerts, audit rows, priorities and tiers: no state the theorems depend on.
- GitHub, S3, BullMQ and database clients: reduced to success or failure.
- Cryptography, key blob validation, gzip and tar byte formats, Godot runs and worker scripts.
