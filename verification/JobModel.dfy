/**
 * The jobs table and its locks as a transition system. Each action is one write of the
 * orchestrator, together with the lock releases that follow it without another decision.
 */
module JobModel {
  import opened Wrappers
  import opened JobStatuses
  import opened DependencyGates

  datatype LockKey = Generation(project: ProjectId) | TargetPath(project: ProjectId)

  /** A row of jobs. Ids are positions in the table, in creation order. */
  datatype Job = Job(
    project: ProjectId, status: JobStatus, attempt: nat, maxAttempts: nat, crossMachine: bool,
    dependsOn: Option<JobId>, blockedBy: Option<JobId>,
    lockKey: Option<LockKey>, targetLock: bool, completed: bool)

  /** Jobs, the Redis owner of each lock, and the job named by each pg_locks row. */
  datatype Sys = Sys(jobs: seq<Job>, owner: map<LockKey, JobId>, pgJob: map<LockKey, JobId>)

  const DEFAULT_MAX_ATTEMPTS: nat := 3

  /** What the worker scripts send. */
  predicate IsWorkerStatus(s: JobStatus) {
    s.STAGING? || s.VALIDATING? || s.VALIDATION_REPORT? || s.VALIDATION_FAILED? || s.REIMPORT_FAILED? ||
    s.COMMITTING? || s.COMMIT_FAILED? || s.PAUSED_EDITOR_LOCK? || s.POST_COMMIT_VERIFY? || s.ROLLBACK? || s.COMPLETED?
  }

  /** What the orchestrator reports about a dispatch. */
  predicate IsDispatchOutcome(s: JobStatus) {
    s.DISPATCH_TIMEOUT? || s.DISPATCH_FAILED?
  }

  /** Statuses of a job that a worker is, or is about to be, working on. */
  predicate IsHolding(s: JobStatus) {
    s.DISPATCHING? || s.STAGING? || s.VALIDATING? || s.VALIDATION_REPORT? || s.COMMITTING? ||
    s.POST_COMMIT_VERIFY? || s.PAUSED_EDITOR_LOCK?
  }

  /** Why a dispatch blocks a job: the last reason is the lock service's error reply in the numbered dispatch. */
  datatype BlockReason = OpenDependency | LockHeld(key: LockKey) | TargetError(dispatch: nat)

  datatype Action =
    | Insert(project: ProjectId, crossMachine: bool, dependsOn: Option<JobId>, blockedBy: Option<JobId>)
    | Block(job: JobId, reason: BlockReason)
    | AcquireLock(key: LockKey, job: JobId)
    | ReleaseLock(key: LockKey, job: JobId)
    | DropOwner(key: LockKey, job: JobId)
    | StartDispatch(job: JobId, attempt: nat)
    | Advance(job: JobId, status: JobStatus)
    | Finish(job: JobId, status: JobStatus)
    | Requeue(job: JobId)
    | DeadLetter(job: JobId)
    | PromoteJob(job: JobId)
    | Reclaim(key: LockKey, marked: Option<JobId>)
    | MarkStale(job: JobId)
    | RequeueStale(job: JobId)
    | RetryDeadLetter(job: JobId)
    | LoseOwner(key: LockKey)
    | ClearPgLocks

  predicate Owns(s: Sys, key: LockKey, j: JobId) {
    key in s.owner && s.owner[key] == j
  }

  function DependencyOf(jobs: seq<Job>, dep: JobId): Option<(ProjectId, JobStatus)> {
    if dep < |jobs| then Some((jobs[dep].project, jobs[dep].status)) else None
  }

  predicate DependencyMet(jobs: seq<Job>, j: Job) {
    j.dependsOn.Some? ==> EvaluateDependencyGate(DependencyOf(jobs, j.dependsOn.value), j.project) == Allow
  }

  /** Another job has the lock. */
  predicate Taken(s: Sys, key: LockKey, j: JobId) {
    key in s.owner && s.owner[key] != j
  }

  /** The locks a dispatch of the job takes. */
  predicate NeedsLock(job: Job, key: LockKey) {
    key == Generation(job.project) || (job.crossMachine && key == TargetPath(job.project))
  }

  predicate Justifies(s: Sys, j: JobId, reason: BlockReason)
    requires j < |s.jobs|
  {
    var job := s.jobs[j];
    match reason
    case OpenDependency =>
      job.dependsOn.Some? &&
      EvaluateDependencyGate(DependencyOf(s.jobs, job.dependsOn.value), job.project) == BlockDependency
    case LockHeld(key) => NeedsLock(job, key) && Taken(s, key, j)
    case TargetError(_) => job.crossMachine
  }

  /** Whether a job is new to the table with its dependency still open, or the slot taken. */
  predicate StartsBlocked(jobs: seq<Job>, dependsOn: Option<JobId>, blockedBy: Option<JobId>) {
    blockedBy.Some? || (dependsOn.Some? && dependsOn.value < |jobs| && jobs[dependsOn.value].status != COMPLETED)
  }

  function NewJob(jobs: seq<Job>, project: ProjectId, crossMachine: bool, dependsOn: Option<JobId>,
                  blockedBy: Option<JobId>): Job {
    Job(project, if StartsBlocked(jobs, dependsOn, blockedBy) then BLOCKED else QUEUED,
        1, DEFAULT_MAX_ATTEMPTS, crossMachine, dependsOn, blockedBy, None, false, false)
  }

  predicate Enabled(s: Sys, a: Action) {
    match a
    case Insert(project, _, dependsOn, blockedBy) =>
      (dependsOn.Some? ==> EvaluateDependencyGate(DependencyOf(s.jobs, dependsOn.value), project) != DepFailed) &&
      (blockedBy.Some? ==> blockedBy.value < |s.jobs| && s.jobs[blockedBy.value].project == project)
    case Block(j, reason) => j < |s.jobs| && s.jobs[j].status == QUEUED && Justifies(s, j, reason)
    case AcquireLock(key, j) =>
      j < |s.jobs| && s.jobs[j].status == QUEUED && key.project == s.jobs[j].project &&
      (key in s.owner ==> s.owner[key] == j)
    case ReleaseLock(key, j) => j < |s.jobs| && !IsHolding(s.jobs[j].status)
    case DropOwner(key, j) => j < |s.jobs| && !IsHolding(s.jobs[j].status)
    case StartDispatch(j, n) =>
      j < |s.jobs| && s.jobs[j].status == QUEUED && n == s.jobs[j].attempt && DependencyMet(s.jobs, s.jobs[j]) &&
      Owns(s, Generation(s.jobs[j].project), j) &&
      (s.jobs[j].crossMachine ==> Owns(s, TargetPath(s.jobs[j].project), j))
    case Advance(j, st) =>
      j < |s.jobs| && CanTransition(s.jobs[j].status, st) && (IsWorkerStatus(st) || IsDispatchOutcome(st)) &&
      !IsTerminal(st)
    case Finish(j, st) =>
      j < |s.jobs| && CanTransition(s.jobs[j].status, st) && IsTerminal(st)
    case Requeue(j) => j < |s.jobs| && IsRetriableFailure(s.jobs[j].status) && s.jobs[j].attempt < s.jobs[j].maxAttempts
    case DeadLetter(j) =>
      j < |s.jobs| && IsRetriableFailure(s.jobs[j].status) && s.jobs[j].attempt >= s.jobs[j].maxAttempts
    case PromoteJob(j) => j < |s.jobs| && s.jobs[j].status == BLOCKED && DependencyMet(s.jobs, s.jobs[j])
    case Reclaim(_, marked) => marked.Some? ==> marked.value < |s.jobs|
    case MarkStale(j) => j < |s.jobs|
    case RequeueStale(j) => j < |s.jobs| && s.jobs[j].status == LOCK_STALE
    case RetryDeadLetter(j) => j < |s.jobs|
    case LoseOwner(_) => true
    case ClearPgLocks => true
  }

  function WithJob(s: Sys, j: JobId, job: Job): Sys
    requires j < |s.jobs|
  {
    s.(jobs := s.jobs[j := job])
  }

  /** Deletes the Redis key and the pg_locks row, if the job owns the lock. */
  function Released(s: Sys, key: LockKey, j: JobId): Sys {
    if Owns(s, key, j) then
      s.(owner := s.owner - {key},
         pgJob := if key in s.pgJob && s.pgJob[key] == j then s.pgJob - {key} else s.pgJob)
    else s
  }

  function Stale(job: Job): Job {
    job.(status := LOCK_STALE, lockKey := None)
  }

  function Effect(s: Sys, a: Action): Sys
    requires Enabled(s, a)
  {
    match a
    case Insert(project, crossMachine, dependsOn, blockedBy) =>
      s.(jobs := s.jobs + [NewJob(s.jobs, project, crossMachine, dependsOn, blockedBy)])
    case Block(j, _) => WithJob(s, j, s.jobs[j].(status := BLOCKED))
    case AcquireLock(key, j) => s.(owner := s.owner[key := j], pgJob := s.pgJob[key := j])
    case ReleaseLock(key, j) => Released(s, key, j)
    case DropOwner(key, j) => if Owns(s, key, j) then s.(owner := s.owner - {key}) else s
    case StartDispatch(j, _) =>
      var job := s.jobs[j];
      WithJob(s, j, job.(status := DISPATCHING, lockKey := Some(Generation(job.project)),
                         targetLock := job.targetLock || job.crossMachine))
    case Advance(j, st) => WithJob(s, j, s.jobs[j].(status := st))
    case Finish(j, st) =>
      var job := s.jobs[j];
      var s1 := WithJob(s, j, job.(status := st, completed := true));
      if job.lockKey.None? then s1
      else
        var s2 := Released(s1, job.lockKey.value, j);
        if job.targetLock then Released(s2, TargetPath(job.project), j) else s2
    case Requeue(j) =>
      WithJob(s, j, s.jobs[j].(status := QUEUED, attempt := s.jobs[j].attempt + 1, completed := false))
    case DeadLetter(j) =>
      var s1 := WithJob(s, j, s.jobs[j].(status := DEAD_LETTER, completed := true));
      if s.jobs[j].lockKey.None? then s1 else Released(s1, s.jobs[j].lockKey.value, j)
    case PromoteJob(j) => WithJob(s, j, s.jobs[j].(status := QUEUED, blockedBy := None))
    case Reclaim(key, marked) =>
      var s1 := s.(owner := s.owner - {key}, pgJob := s.pgJob - {key});
      if marked.None? then s1 else WithJob(s1, marked.value, Stale(s.jobs[marked.value]))
    case MarkStale(j) => WithJob(s, j, Stale(s.jobs[j]))
    case RequeueStale(j) => WithJob(s, j, s.jobs[j].(status := QUEUED, attempt := s.jobs[j].attempt + 1))
    case RetryDeadLetter(j) => WithJob(s, j, s.jobs[j].(status := QUEUED, attempt := 1, completed := false))
    case LoseOwner(key) => s.(owner := s.owner - {key})
    case ClearPgLocks => s.(pgJob := map[])
  }

  function Empty(): Sys {
    Sys([], map[], map[])
  }

  /** A log whose every action was enabled when it was taken. */
  predicate Legal(log: seq<Action>)
    decreases |log|, 1
  {
    log == [] || (Legal(log[..|log| - 1]) && Enabled(After(log[..|log| - 1]), log[|log| - 1]))
  }

  /** The state after a legal log. */
  function After(log: seq<Action>): Sys
    requires Legal(log)
    decreases |log|, 2
  {
    if log == [] then Empty() else Effect(After(log[..|log| - 1]), log[|log| - 1])
  }

  lemma LegalAppend(log: seq<Action>, a: Action)
    requires Legal(log) && Enabled(After(log), a)
    ensures Legal(log + [a]) && After(log + [a]) == Effect(After(log), a)
  {
    assert (log + [a])[..|log|] == log;
  }

  /** The last write of a legal log is what leads to its state. */
  lemma LastEffect(log: seq<Action>, before: seq<Action>, a: Action)
    requires Legal(log) && log == before + [a]
    ensures Legal(before) && Enabled(After(before), a) && After(log) == Effect(After(before), a)
  {
    assert log[..|log| - 1] == before;
  }

  lemma {:induction false} LegalPrefix(log: seq<Action>, n: nat)
    requires Legal(log) && n <= |log|
    ensures Legal(log[..n])
    decreases |log| - n
  {
    if n == |log| {
      assert log[..n] == log;
    } else {
      LegalPrefix(log, n + 1);
      assert log[..n + 1][..n] == log[..n];
    }
  }
}
