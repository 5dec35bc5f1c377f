/**
 * The orchestrator's handlers. Each write to the tables is logged; the class invariant says that
 * the tables are what the logged actions make of them, and that each action was legal when taken.
 * A handler's result is false where the source throws.
 */
module JobServices {
  import opened Wrappers
  import opened JobStatuses
  import opened DependencyGates
  import opened JobModel
  import opened JobDispatches
  import JobTheorems

  predicate SlotTaken(jobs: seq<Job>, project: ProjectId) {
    exists k | 0 <= k < |jobs| :: jobs[k].project == project && IsSlotActive(jobs[k].status)
  }

  /** The job that takes the slot of the project first, in creation order. */
  predicate TakesSlot(jobs: seq<Job>, project: ProjectId, k: JobId) {
    k < |jobs| && jobs[k].project == project && IsSlotActive(jobs[k].status) &&
    forall i | 0 <= i < k && jobs[i].project == project :: !IsSlotActive(jobs[i].status)
  }

  // ---- Termination of the mutual recursion ----

  /** Attempts a job can still use, plus one for ending; nothing once it has ended. */
  function Remaining(job: Job): nat {
    if IsTerminal(job.status) then 0
    else if job.attempt <= job.maxAttempts then job.maxAttempts - job.attempt + 1 else 1
  }

  function Budget(jobs: seq<Job>): nat {
    if jobs == [] then 0 else Budget(jobs[..|jobs| - 1]) + Remaining(jobs[|jobs| - 1])
  }

  lemma {:induction false} BudgetAt(jobs: seq<Job>, j: JobId, job: Job)
    requires j < |jobs|
    ensures Budget(jobs[j := job]) == Budget(jobs) - Remaining(jobs[j]) + Remaining(job)
  {
    var k := |jobs| - 1;
    if j == k {
      assert jobs[j := job][..k] == jobs[..k];
    } else {
      assert jobs[j := job][..k] == jobs[..k][j := job];
      BudgetAt(jobs[..k], j, job);
    }
  }

  /** Actions of the handlers that neither mark a job stale nor lose a lock on the side. */
  predicate Ordinary(a: Action) {
    !a.Reclaim? && !a.MarkStale? && !a.RequeueStale? && !a.LoseOwner? && !a.RetryDeadLetter? && !a.ClearPgLocks?
  }

  predicate OrdinaryFrom(log: seq<Action>, n: nat) {
    forall i | n <= i < |log| :: Ordinary(log[i])
  }

  /**
   * Creation, dispatch, reports, failures and promotions by themselves cannot break mutual exclusion
   * or the attempt bound: what held before such a stretch of a run holds all through it.
   */
  lemma {:induction false} OrdinaryHandlersAreSafe(log: seq<Action>, n: nat)
    requires Legal(log) && n <= |log| && OrdinaryFrom(log, n)
    ensures Legal(log[..n])
    ensures JobTheorems.AlwaysExclusive(log[..n]) ==> JobTheorems.AlwaysExclusive(log)
    ensures JobTheorems.AlwaysBounded(log[..n]) ==> JobTheorems.AlwaysBounded(log)
    decreases |log|
  {
    hide Effect, Enabled;
    if n == |log| {
      assert log[..n] == log;
    } else {
      var rest := log[..|log| - 1];
      assert rest[..n] == log[..n];
      OrdinaryHandlersAreSafe(rest, n);
      JobTheorems.MutualExclusion(rest);
      JobTheorems.MutualExclusion(log);
      JobTheorems.BoundedAttempts(rest);
      JobTheorems.BoundedAttempts(log);
      assert Ordinary(log[|log| - 1]);
    }
  }

  /** Jobs that have ended keep their status. */
  predicate EndedKept(before: seq<Job>, now: seq<Job>) {
    |before| <= |now| &&
    forall j | 0 <= j < |before| && IsTerminal(before[j].status) :: now[j].status == before[j].status
  }

  /** The log grew by ordinary actions only, and jobs that had ended still have their status. */
  predicate Ordinarily(before: seq<Action>, jobs: seq<Job>, now: seq<Action>, jobs': seq<Job>) {
    |before| <= |now| && OrdinaryFrom(now, |before|) && EndedKept(jobs, jobs')
  }

  lemma OrdinarilyChain(l0: seq<Action>, s0: seq<Job>, l1: seq<Action>, s1: seq<Job>, l2: seq<Action>, s2: seq<Job>)
    requires Ordinarily(l0, s0, l1, s1) && Ordinarily(l1, s1, l2, s2) && l1 <= l2
    ensures Ordinarily(l0, s0, l2, s2)
  {
    forall i | |l0| <= i < |l2| ensures Ordinary(l2[i]) {
      assert i < |l1| ==> l2[i] == l1[i];
    }
  }

  lemma StaysEnded(l: seq<Action>, s: seq<Job>, l': seq<Action>, s': seq<Job>, j: JobId)
    requires Ordinarily(l, s, l', s') && j < |s| && IsTerminal(s[j].status)
    ensures j < |s'| && s'[j].status == s[j].status
  {
  }

  lemma StatusFacts(st: JobStatus)
    ensures CanTransition(st, st) && !(IsTerminal(st) && IsRetriableFailure(st))
  {
  }

  lemma FailureMayBeReported()
    ensures CanTransition(QUEUED, DISPATCH_FAILED) && CanTransition(DISPATCHING, DISPATCH_FAILED)
  {
  }

  lemma ReimportFailedBlocksCommit(to: JobStatus)
    requires to == COMMITTING || to == COMPLETED
    ensures !CanTransition(REIMPORT_FAILED, to)
  {
  }

  /** Where a dispatch that did not throw leaves a job. */
  predicate Settled(s: JobStatus) {
    s.DISPATCHING? || s.BLOCKED? || s.DEAD_LETTER?
  }

  /** An action that claims an error reply of the lock service is backed by the answers of that dispatch. */
  predicate ReplyTrue(a: Action, answers: nat -> Answers, asked: nat) {
    a.Block? && a.reason.TargetError? ==> a.reason.dispatch < asked && answers(a.reason.dispatch).target.ErrorReply?
  }

  predicate RepliesTrue(log: seq<Action>, answers: nat -> Answers, asked: nat) {
    forall i | 0 <= i < |log| :: ReplyTrue(log[i], answers, asked)
  }

  lemma MoreAsked(log: seq<Action>, answers: nat -> Answers, asked: nat)
    requires RepliesTrue(log, answers, asked)
    ensures RepliesTrue(log, answers, asked + 1)
  {
  }

  /** The target lock is another one than the generation lock. */
  lemma SameTarget(s: Sys, s': Sys, j: JobId, a: Answers, n: nat)
    requires j < |s.jobs| && s'.jobs == s.jobs && s'.owner == s.owner[Generation(s.jobs[j].project) := j]
    ensures TargetOpening(s', j, a, n) == TargetOpening(s, j, a, n)
  {
  }

  /** A reported dispatch failure is followed by the retry or the end. */
  lemma ReportedFailure(s: Sys, j: JobId, before: seq<Action>, log: seq<Action>, ok: bool, a: Answers, n: nat)
    requires Reported(s, j, DISPATCH_FAILED, before, log, ok, a, n)
    ensures before + [Advance(j, DISPATCH_FAILED), Retry(s.jobs[j], j)] <= log
  {
    var first := before + [Advance(j, DISPATCH_FAILED)];
    var s1 := Effect(s, Advance(j, DISPATCH_FAILED));
    var r := Retry(s1.jobs[j], j);
    assert r == Retry(s.jobs[j], j);
    assert first + [r] == before + [Advance(j, DISPATCH_FAILED), r];
    hide Effect, Enabled, IsNext, DispatchOpening, PromotionOf;
    if r.Requeue? {
      OpensKeepsPrefix(Effect(s1, r), first + [r], log, ok, j, a, n);
    } else if s1.jobs[j].lockKey.Some? {
      PromotesKeepsPrefix(Effect(s1, r), Effect(s1, r).jobs[j].project, j, first + [r], log, ok, a, n);
    }
  }

  lemma PromotesKeepsPrefix(
    s: Sys, project: ProjectId, finished: JobId, before: seq<Action>, log: seq<Action>, ok: bool, a: Answers, n: nat)
    requires Promotes(s, project, finished, before, log, ok, a, n)
    ensures before <= log
  {
    hide Effect, Enabled, DispatchOpening, PromotionOf;
    if k: nat :| IsNext(s.jobs, k, project, finished) {
      if PromotionOf(s.jobs, k, finished) == Promote {
        OpensKeepsPrefix(Effect(s, PromoteJob(k)), before + [PromoteJob(k)], log, ok, k, a, n);
      }
    }
  }

  lemma OpensKeepsPrefix(s: Sys, before: seq<Action>, log: seq<Action>, ok: bool, j: JobId, a: Answers, n: nat)
    requires Opens(s, before, log, ok, j, a, n)
    ensures before <= log
  {
  }

  /** A new job that is not blocked is dispatched at once. */
  ghost predicate Created(
    s: Sys, a: Action, before: seq<Action>, log: seq<Action>, ok: bool, replies: Answers, n: nat)
  {
    a.Insert? && Enabled(s, a) &&
    if StartsBlocked(s.jobs, a.dependsOn, a.blockedBy) then log == before && ok
    else Opens(Effect(s, a), before, log, ok, |s.jobs|, replies, n)
  }

  lemma OrdinarilyNothing(l: seq<Action>, s: seq<Job>)
    ensures Ordinarily(l, s, l, s)
  {
  }

  class JobService {
    var jobs: seq<Job>
    var owner: map<LockKey, JobId>
    var pgJob: map<LockKey, JobId>
    ghost var log: seq<Action>

    /** What the n-th dispatch hears from outside, and how many there have been. */
    const answers: nat -> Answers
    var asked: nat

    function State(): Sys
      reads this
    {
      Sys(jobs, owner, pgJob)
    }

    ghost predicate Valid()
      reads this
    {
      Legal(log) && After(log) == State() && RepliesTrue(log, answers, asked)
    }

    constructor (answers: nat -> Answers)
      ensures Valid() && log == [] && jobs == [] && this.answers == answers
    {
      this.answers, asked := answers, 0;
      jobs, owner, pgJob := [], map[], map[];
      log := [];
    }

    // ---- Single writes ----

    /** Records the write just made. */
    ghost method Log(a: Action, before: Sys)
      requires Legal(log) && After(log) == before && Enabled(before, a) && State() == Effect(before, a)
      requires RepliesTrue(log, answers, asked) && ReplyTrue(a, answers, asked)
      modifies this`log
      ensures Valid() && log == old(log) + [a]
    {
      LegalAppend(log, a);
      log := log + [a];
    }

    method InsertJob(project: ProjectId, crossMachine: bool, dependsOn: Option<JobId>, blockedBy: Option<JobId>,
                     blocked: bool)
      returns (id: JobId)
      requires Valid()
      requires dependsOn.Some? ==> EvaluateDependencyGate(DependencyOf(jobs, dependsOn.value), project) != DepFailed
      requires blockedBy.Some? ==> blockedBy.value < |jobs| && jobs[blockedBy.value].project == project
      requires blocked == StartsBlocked(jobs, dependsOn, blockedBy)
      modifies this`jobs, this`owner, this`pgJob, this`log
      ensures Valid() && log == old(log) + [Insert(project, crossMachine, dependsOn, blockedBy)]
      ensures Ordinarily(old(log), old(jobs), log, jobs)
      ensures id == |old(jobs)| && |jobs| == id + 1 && jobs[..id] == old(jobs) && owner == old(owner) &&
              pgJob == old(pgJob)
      ensures jobs[id].project == project && jobs[id].status == if blocked then BLOCKED else QUEUED
    {
      ghost var before := State();
      id := |jobs|;
      jobs := jobs + [Job(project, if blocked then BLOCKED else QUEUED, 1, DEFAULT_MAX_ATTEMPTS, crossMachine,
                          dependsOn, blockedBy, None, false, false)];
      Log(Insert(project, crossMachine, dependsOn, blockedBy), before);
    }

    method WriteBlocked(j: JobId, ghost reason: BlockReason)
      requires Valid() && j < |jobs| && jobs[j].status == QUEUED && Justifies(State(), j, reason)
      requires ReplyTrue(Block(j, reason), answers, asked)
      modifies this`jobs, this`owner, this`pgJob, this`log
      ensures Valid() && log == old(log) + [Block(j, reason)]
      ensures Ordinarily(old(log), old(jobs), log, jobs)
      ensures jobs == old(jobs)[j := old(jobs)[j].(status := BLOCKED)] && owner == old(owner) && pgJob == old(pgJob)
    {
      ghost var before := State();
      jobs := jobs[j := jobs[j].(status := BLOCKED)];
      Log(Block(j, reason), before);
    }

    method GrantLock(key: LockKey, j: JobId)
      requires Valid() && j < |jobs| && jobs[j].status == QUEUED && key.project == jobs[j].project &&
               (key in owner ==> owner[key] == j)
      modifies this`jobs, this`owner, this`pgJob, this`log
      ensures Valid() && log == old(log) + [AcquireLock(key, j)]
      ensures Ordinarily(old(log), old(jobs), log, jobs)
      ensures jobs == old(jobs) && owner == old(owner)[key := j] && pgJob == old(pgJob)[key := j]
    {
      ghost var before := State();
      owner := owner[key := j];
      pgJob := pgJob[key := j];
      Log(AcquireLock(key, j), before);
    }

    /** Frees the key for its owner only, and its pg_locks row with it. */
    method Release(key: LockKey, j: JobId)
      requires Valid() && j < |jobs| && !IsHolding(jobs[j].status)
      modifies this`jobs, this`owner, this`pgJob, this`log
      ensures Valid() && log == old(log) + [ReleaseLock(key, j)]
      ensures Ordinarily(old(log), old(jobs), log, jobs)
      ensures State() == Released(old(State()), key, j)
    {
      ghost var before := State();
      if key in owner && owner[key] == j {
        owner := owner - {key};
        if key in pgJob && pgJob[key] == j {
          pgJob := pgJob - {key};
        }
      }
      Log(ReleaseLock(key, j), before);
    }

    method ReleaseRedisOnly(key: LockKey, j: JobId)
      requires Valid() && j < |jobs| && !IsHolding(jobs[j].status)
      modifies this`jobs, this`owner, this`pgJob, this`log
      ensures Valid() && log == old(log) + [DropOwner(key, j)]
      ensures Ordinarily(old(log), old(jobs), log, jobs)
      ensures jobs == old(jobs)
    {
      ghost var before := State();
      if key in owner && owner[key] == j {
        owner := owner - {key};
      }
      Log(DropOwner(key, j), before);
    }

    /** The row goes to DISPATCHING and the workflow is called for this attempt. */
    method WriteDispatching(j: JobId)
      requires Valid() && j < |jobs| && jobs[j].status == QUEUED && DependencyMet(jobs, jobs[j])
      requires Owns(State(), Generation(jobs[j].project), j)
      requires jobs[j].crossMachine ==> Owns(State(), TargetPath(jobs[j].project), j)
      modifies this`jobs, this`owner, this`pgJob, this`log
      ensures Valid() && log == old(log) + [StartDispatch(j, old(jobs)[j].attempt)]
      ensures Ordinarily(old(log), old(jobs), log, jobs)
      ensures owner == old(owner) && pgJob == old(pgJob)
      ensures |jobs| == |old(jobs)| && jobs == old(jobs)[j := jobs[j]] && jobs[j].status == DISPATCHING
      ensures jobs[j].attempt == old(jobs)[j].attempt && jobs[j].maxAttempts == old(jobs)[j].maxAttempts &&
              jobs[j].project == old(jobs)[j].project
    {
      ghost var before := State();
      jobs := jobs[j := jobs[j].(status := DISPATCHING, lockKey := Some(Generation(jobs[j].project)),
                                targetLock := jobs[j].targetLock || jobs[j].crossMachine)];
      Log(StartDispatch(j, old(jobs)[j].attempt), before);
    }

    method WriteStatus(j: JobId, st: JobStatus)
      requires Valid() && j < |jobs| && CanTransition(jobs[j].status, st) &&
               (IsWorkerStatus(st) || IsDispatchOutcome(st)) && !IsTerminal(st)
      modifies this`jobs, this`owner, this`pgJob, this`log
      ensures Valid() && log == old(log) + [Advance(j, st)]
      ensures Ordinarily(old(log), old(jobs), log, jobs)
      ensures jobs == old(jobs)[j := old(jobs)[j].(status := st)] && owner == old(owner) && pgJob == old(pgJob)
    {
      hide Legal, After, CanTransition, IsWorkerStatus, IsDispatchOutcome;
      if IsTerminal(jobs[j].status) {
        TerminalIsFinal(jobs[j].status, st);
      }
      ghost var before := State();
      jobs := jobs[j := jobs[j].(status := st)];
      Log(Advance(j, st), before);
    }

    /** A final status frees the generation lock, and the target lock if one was taken. */
    method WriteFinal(j: JobId, st: JobStatus)
      requires Valid() && j < |jobs| && CanTransition(jobs[j].status, st) && IsTerminal(st)
      modifies this`jobs, this`owner, this`pgJob, this`log
      ensures Valid() && log == old(log) + [Finish(j, st)]
      ensures Ordinarily(old(log), old(jobs), log, jobs)
      ensures jobs == old(jobs)[j := old(jobs)[j].(status := st, completed := true)]
    {
      hide Legal, After, CanTransition, IsWorkerStatus, IsDispatchOutcome;
      if IsTerminal(jobs[j].status) {
        TerminalIsFinal(jobs[j].status, st);
      }
      ghost var before := State();
      var job := jobs[j];
      jobs := jobs[j := job.(status := st, completed := true)];
      if job.lockKey.Some? {
        FreeKey(job.lockKey.value, j);
        if job.targetLock {
          FreeKey(TargetPath(job.project), j);
        }
      }
      Log(Finish(j, st), before);
    }

    method FreeKey(key: LockKey, j: JobId)
      modifies this`owner, this`pgJob
      ensures State() == Released(old(State()), key, j)
    {
      if key in owner && owner[key] == j {
        owner := owner - {key};
        if key in pgJob && pgJob[key] == j {
          pgJob := pgJob - {key};
        }
      }
    }

    method WriteRequeued(j: JobId)
      requires Valid() && j < |jobs| && IsRetriableFailure(jobs[j].status) && jobs[j].attempt < jobs[j].maxAttempts
      modifies this`jobs, this`owner, this`pgJob, this`log
      ensures Valid() && log == old(log) + [Requeue(j)]
      ensures Ordinarily(old(log), old(jobs), log, jobs)
      ensures var job := old(jobs)[j];
              jobs == old(jobs)[j := job.(status := QUEUED, attempt := job.attempt + 1, completed := false)]
      ensures owner == old(owner) && pgJob == old(pgJob)
    {
      ghost var before := State();
      jobs := jobs[j := jobs[j].(status := QUEUED, attempt := jobs[j].attempt + 1, completed := false)];
      Log(Requeue(j), before);
    }

    /** The dead-letter path frees the generation lock only. */
    method WriteDeadLetter(j: JobId)
      requires Valid() && j < |jobs| && IsRetriableFailure(jobs[j].status) && jobs[j].attempt >= jobs[j].maxAttempts
      modifies this`jobs, this`owner, this`pgJob, this`log
      ensures Valid() && log == old(log) + [JobModel.DeadLetter(j)]
      ensures Ordinarily(old(log), old(jobs), log, jobs)
      ensures jobs == old(jobs)[j := old(jobs)[j].(status := DEAD_LETTER, completed := true)]
    {
      hide Legal, After;
      ghost var before := State();
      var job := jobs[j];
      jobs := jobs[j := job.(status := DEAD_LETTER, completed := true)];
      if job.lockKey.Some? {
        FreeKey(job.lockKey.value, j);
      }
      Log(JobModel.DeadLetter(j), before);
    }

    method WritePromoted(j: JobId)
      requires Valid() && j < |jobs| && jobs[j].status == BLOCKED && DependencyMet(jobs, jobs[j])
      modifies this`jobs, this`owner, this`pgJob, this`log
      ensures Valid() && log == old(log) + [PromoteJob(j)]
      ensures Ordinarily(old(log), old(jobs), log, jobs)
      ensures jobs == old(jobs)[j := old(jobs)[j].(status := QUEUED, blockedBy := None)] && owner == old(owner) &&
              pgJob == old(pgJob)
    {
      ghost var before := State();
      jobs := jobs[j := jobs[j].(status := QUEUED, blockedBy := None)];
      Log(PromoteJob(j), before);
    }

    method WriteStale(j: JobId)
      requires Valid() && j < |jobs|
      modifies this`jobs, this`owner, this`pgJob, this`log
      ensures Valid() && log == old(log) + [MarkStale(j)]
      ensures jobs == old(jobs)[j := old(jobs)[j].(status := LOCK_STALE, lockKey := None)] && owner == old(owner) &&
              pgJob == old(pgJob)
    {
      ghost var before := State();
      jobs := jobs[j := jobs[j].(status := LOCK_STALE, lockKey := None)];
      Log(MarkStale(j), before);
    }

    method WriteRequeuedStale(j: JobId)
      requires Valid() && j < |jobs| && jobs[j].status == LOCK_STALE
      modifies this`jobs, this`owner, this`pgJob, this`log
      ensures Valid() && log == old(log) + [RequeueStale(j)]
      ensures jobs == old(jobs)[j := old(jobs)[j].(status := QUEUED, attempt := old(jobs)[j].attempt + 1)] &&
              owner == old(owner) && pgJob == old(pgJob)
    {
      ghost var before := State();
      jobs := jobs[j := jobs[j].(status := QUEUED, attempt := jobs[j].attempt + 1)];
      Log(RequeueStale(j), before);
    }

    method WriteRetried(j: JobId)
      requires Valid() && j < |jobs|
      modifies this`jobs, this`owner, this`pgJob, this`log
      ensures Valid() && log == old(log) + [JobModel.RetryDeadLetter(j)]
      ensures jobs == old(jobs)[j := old(jobs)[j].(status := QUEUED, attempt := 1, completed := false)] &&
              owner == old(owner) && pgJob == old(pgJob)
    {
      ghost var before := State();
      jobs := jobs[j := jobs[j].(status := QUEUED, attempt := 1, completed := false)];
      Log(JobModel.RetryDeadLetter(j), before);
    }

    /** Bump, ledger row and the row update of the job found for the key, as one write. */
    method ReclaimKey(key: LockKey, marked: Option<JobId>)
      requires Valid() && (marked.Some? ==> marked.value < |jobs|)
      modifies this`jobs, this`owner, this`pgJob, this`log
      ensures Valid() && log == old(log) + [JobModel.Reclaim(key, marked)]
      ensures owner == old(owner) - {key} && pgJob == old(pgJob) - {key}
      ensures jobs == if marked.None? then old(jobs) else old(jobs)[marked.value := Stale(old(jobs)[marked.value])]
    {
      ghost var before := State();
      owner := owner - {key};
      pgJob := pgJob - {key};
      if marked.Some? {
        jobs := jobs[marked.value := jobs[marked.value].(status := LOCK_STALE, lockKey := None)];
      }
      Log(JobModel.Reclaim(key, marked), before);
    }

    // ---- What happens to the locks from outside ----

    /** The Redis key of a lock expires, or a reclaim frees it and its Postgres half then fails. */
    method ExpireKey(key: LockKey)
      requires Valid()
      modifies this`jobs, this`owner, this`pgJob, this`log
      ensures Valid() && log == old(log) + [LoseOwner(key)]
      ensures jobs == old(jobs) && owner == old(owner) - {key} && pgJob == old(pgJob)
    {
      ghost var before := State();
      owner := owner - {key};
      Log(LoseOwner(key), before);
    }

    /** A failover rotation empties pg_locks. */
    method EmptyPgLocks()
      requires Valid()
      modifies this`jobs, this`owner, this`pgJob, this`log
      ensures Valid() && log == old(log) + [ClearPgLocks]
      ensures jobs == old(jobs) && owner == old(owner) && pgJob == map[]
    {
      ghost var before := State();
      pgJob := map[];
      Log(ClearPgLocks, before);
    }

    // ---- Handlers ----

    /** The lock service as a handler sees it; `threw` stands for an error reply or an exception. */
    method Acquire(key: LockKey, j: JobId, reply: LockReply) returns (granted: bool, threw: bool)
      requires Valid() && j < |jobs| && jobs[j].status == QUEUED && key.project == jobs[j].project
      modifies this`jobs, this`owner, this`pgJob, this`log
      ensures Valid() && Ordinarily(old(log), old(jobs), log, jobs) && jobs == old(jobs)
      ensures var taken := Taken(old(State()), key, j);
              log == old(log) + CallWrites(taken, reply, key, j) &&
              threw == CallThrows(taken, reply) && granted == (!taken && reply.Answered?)
      ensures Taken(old(State()), key, j) ==> State() == old(State())
      ensures granted ==> owner == old(owner)[key := j]
    {
      hide Effect, Enabled, Legal, After, RepliesTrue;
      OrdinarilyNothing(log, jobs);
      if reply.ErrorReply? || reply.Unreachable? {
        return false, true;
      }
      if key in owner && owner[key] != j {
        return false, false;
      }
      match reply
      case Answered =>
        GrantLock(key, j);
        return true, false;
      case RolledBack =>
        ReleaseRedisOnly(key, j);
        return false, true;
      case AckLost =>
        GrantLock(key, j);
        ghost var l1 := log;
        ReleaseRedisOnly(key, j);
        OrdinarilyChain(old(log), old(jobs), l1, jobs, log, jobs);
        return false, true;
    }

    /** Takes the generation lock and, for a cross-machine commit, the target lock; or blocks the job. */
    method AcquireLocks(j: JobId, ghost n: nat, a: Answers) returns (granted: bool, threw: bool)
      requires Valid() && j < |jobs| && jobs[j].status == QUEUED && n < asked && a == answers(n)
      modifies this`jobs, this`owner, this`pgJob, this`log
      ensures Valid() && Ordinarily(old(log), old(jobs), log, jobs) && |jobs| == |old(jobs)|
      ensures var o := LockOpening(old(State()), j, a, n);
              log == old(log) + o.writes && granted == o.verdict.GoesOn? && threw == o.verdict.Throws?
      ensures granted ==>
                jobs == old(jobs) && Owns(State(), Generation(jobs[j].project), j) &&
                (jobs[j].crossMachine ==> Owns(State(), TargetPath(jobs[j].project), j))
      ensures !granted && !threw ==> jobs == old(jobs)[j := old(jobs)[j].(status := BLOCKED)]
    {
      hide Effect, Enabled, Legal, After, Ordinarily, RepliesTrue;
      var generation := Generation(jobs[j].project);
      granted, threw := Acquire(generation, j, a.generation);
      if !granted {
        if !threw {
          ghost var l1, s1 := log, jobs;
          WriteBlocked(j, LockHeld(generation));
          OrdinarilyChain(old(log), old(jobs), l1, s1, log, jobs);
        }
        return;
      }
      if jobs[j].crossMachine {
        ghost var l1, s1 := log, jobs;
        granted, threw := AcquireTarget(j, n, a);
        OrdinarilyChain(old(log), old(jobs), l1, s1, log, jobs);
        SameTarget(old(State()), Sys(s1, old(owner)[generation := j], old(pgJob)[generation := j]), j, a, n);
      }
    }

    /** The second half, with the generation lock in hand, which is given up again if the target lock is refused. */
    method AcquireTarget(j: JobId, ghost n: nat, a: Answers) returns (granted: bool, threw: bool)
      requires Valid() && j < |jobs| && jobs[j].status == QUEUED && n < asked && a == answers(n)
      requires jobs[j].crossMachine && Owns(State(), Generation(jobs[j].project), j)
      modifies this`jobs, this`owner, this`pgJob, this`log
      ensures Valid() && Ordinarily(old(log), old(jobs), log, jobs) && |jobs| == |old(jobs)|
      ensures var o := TargetOpening(old(State()), j, a, n);
              log == old(log) + o.writes && granted == o.verdict.GoesOn? && threw == o.verdict.Throws?
      ensures granted ==>
                jobs == old(jobs) && Owns(State(), Generation(jobs[j].project), j) &&
                Owns(State(), TargetPath(jobs[j].project), j)
      ensures !granted && !threw ==> jobs == old(jobs)[j := old(jobs)[j].(status := BLOCKED)]
    {
      hide Effect, Enabled, Legal, After, Ordinarily, RepliesTrue;
      var target := TargetPath(jobs[j].project);
      granted, threw := Acquire(target, j, a.target);
      if granted || (threw && !a.target.ErrorReply?) {
        return;
      }
      threw := false;
      ghost var reason := if a.target.ErrorReply? then TargetError(n) else LockHeld(target);
      ghost var l1, s1 := log, jobs;
      Release(Generation(jobs[j].project), j);
      OrdinarilyChain(old(log), old(jobs), l1, s1, log, jobs);
      l1 := log;
      WriteBlocked(j, reason);
      OrdinarilyChain(old(log), old(jobs), l1, s1, log, jobs);
    }

    method Create(project: ProjectId, crossMachine: bool, dependsOn: Option<JobId>) returns (ok: bool)
      requires Valid()
      modifies this
      ensures Valid() && old(log) <= log && Ordinarily(old(log), old(jobs), log, jobs)
      ensures log == old(log) <==>
                dependsOn.Some? &&
                EvaluateDependencyGate(DependencyOf(old(jobs), dependsOn.value), project) == DepFailed
      ensures log == old(log) ==> !ok
      ensures log != old(log) ==>
                var a := log[|old(log)|];
                a.Insert? && a.project == project && a.crossMachine == crossMachine && a.dependsOn == dependsOn &&
                |jobs| == |old(jobs)| + 1 &&
                (a.blockedBy.Some? <==> SlotTaken(old(jobs), project)) &&
                (a.blockedBy.Some? ==> TakesSlot(old(jobs), project, a.blockedBy.value)) &&
                Created(old(State()), a, old(log) + [a], log, ok, answers(old(asked)), old(asked))
    {
      hide Effect, Enabled, Legal, After, Ordinarily, RepliesTrue, Opens;
      if dependsOn.Some? {
        var gate := EvaluateDependencyGate(DependencyOf(jobs, dependsOn.value), project);
        if gate == DepFailed {
          OrdinarilyNothing(log, jobs);
          return false;
        }
      }
      var blockedBy: Option<JobId> := None;
      var i := 0;
      while i < |jobs| && blockedBy.None?
        invariant i <= |jobs|
        invariant blockedBy.None? ==>
                    forall k | 0 <= k < i && jobs[k].project == project :: !IsSlotActive(jobs[k].status)
        invariant blockedBy.Some? ==> TakesSlot(jobs, project, blockedBy.value) && SlotTaken(jobs, project)
      {
        if jobs[i].project == project && IsSlotActive(jobs[i].status) {
          blockedBy := Some(i);
        }
        i := i + 1;
      }
      var open := dependsOn.Some? && jobs[dependsOn.value].status != COMPLETED;
      ghost var a := Insert(project, crossMachine, dependsOn, blockedBy);
      var id := InsertJob(project, crossMachine, dependsOn, blockedBy, blockedBy.Some? || open);
      LastEffect(log, old(log), a);
      ok := true;
      if jobs[id].status == QUEUED {
        ghost var l1, s1 := log, jobs;
        ok := DispatchJob(id);
        OpensKeepsPrefix(Effect(old(State()), a), l1, log, ok, id, answers(old(asked)), old(asked));
        OrdinarilyChain(old(log), old(jobs), l1, s1, log, jobs);
      }
    }

    /**
     * What is written first is exactly what the tables and the answers of this dispatch call for; if that
     * does not go on to a retry, nothing else is written.
     */
    method DispatchJob(j: JobId) returns (ok: bool)
      requires Valid() && j < |jobs| && !jobs[j].status.LOCK_STALE? && !IsDispatchOutcome(jobs[j].status)
      modifies this
      ensures Valid() && old(log) <= log && Ordinarily(old(log), old(jobs), log, jobs) && |jobs| == |old(jobs)|
      ensures old(jobs)[j].status != QUEUED ==> ok && log == old(log) && State() == old(State())
      ensures ok && old(jobs)[j].status == QUEUED ==> Settled(jobs[j].status)
      ensures old(jobs)[j].status == QUEUED ==>
                Opens(old(State()), old(log), log, ok, j, answers(old(asked)), old(asked))
      decreases Budget(jobs), 4
    {
      hide Effect, Enabled, Legal, After, Ordinarily, Budget, InTable, IsSlotActive, IsActiveGeneration, SlotTaken;
      hide NewJob, IsWorkerStatus, IsHolding, Released, Owns, StartsBlocked, RepliesTrue, LockOpening;
      OrdinarilyNothing(log, jobs);
      if jobs[j].status != QUEUED {
        return true;
      }
      var n := asked;
      var a := answers(n);
      MoreAsked(log, answers, asked);
      asked := asked + 1;
      var job := jobs[j];
      if job.dependsOn.Some? {
        var gate := EvaluateDependencyGate(DependencyOf(jobs, job.dependsOn.value), job.project);
        if gate == DepFailed {
          NothingReachesDepFailed(QUEUED);
          ok := UpdateStatus(j, DEP_FAILED, true);
          return ok;
        }
        if gate == BlockDependency {
          WriteBlocked(j, OpenDependency);
          return true;
        }
      }
      var granted, threw := AcquireLocks(j, n, a);
      if !granted {
        return !threw;
      }
      ghost var l1, s1 := log, jobs;
      ok := Work(j, a);
      OrdinarilyChain(old(log), old(jobs), l1, s1, log, jobs);
    }

    /** Provisioning, sealing and the workflow call, with the locks in hand. */
    method Work(j: JobId, a: Answers) returns (ok: bool)
      requires Valid() && j < |jobs| && jobs[j].status == QUEUED && DependencyMet(jobs, jobs[j])
      requires Owns(State(), Generation(jobs[j].project), j)
      requires jobs[j].crossMachine ==> Owns(State(), TargetPath(jobs[j].project), j)
      modifies this
      ensures Valid() && old(log) <= log && Ordinarily(old(log), old(jobs), log, jobs) && |jobs| == |old(jobs)|
      ensures ok ==> Settled(jobs[j].status)
      ensures var o := WorkOpening(old(jobs)[j], j, a);
              old(log) + o.writes <= log &&
              (!o.verdict.GoesOn? ==> log == old(log) + o.writes && ok == o.verdict.Returns?)
      decreases Budget(jobs), 3
    {
      hide Effect, Enabled, Legal, After, Ordinarily, Budget, InTable, IsSlotActive, IsActiveGeneration, SlotTaken;
      hide NewJob, IsWorkerStatus, IsHolding, Released, Owns, StartsBlocked, RepliesTrue;
      OrdinarilyNothing(log, jobs);
      if jobs[j].crossMachine && !a.provisioned {
        ok := FailDispatchPreStart(j);
        return;
      }
      if !a.sealed {
        return false;
      }
      WriteDispatching(j);
      if a.dispatched {
        return true;
      }
      BudgetAt(old(jobs), j, jobs[j]);
      FailureMayBeReported();
      ghost var l1, s1, before := log, jobs, State();
      ok := UpdateStatus(j, DISPATCH_FAILED, true);
      ReportedFailure(before, j, l1, log, ok, answers(old(asked)), old(asked));
      assert l1 + [Advance(j, DISPATCH_FAILED), Retry(s1[j], j)] ==
             old(log) + [StartDispatch(j, old(jobs)[j].attempt), Advance(j, DISPATCH_FAILED), Retry(s1[j], j)];
      OrdinarilyChain(old(log), old(jobs), l1, s1, log, jobs);
    }

    /** Provisioning failed before the row went to DISPATCHING: both locks are given up first. */
    method FailDispatchPreStart(j: JobId) returns (ok: bool)
      requires Valid() && j < |jobs| && jobs[j].status == QUEUED
      modifies this
      ensures Valid() && old(log) <= log && Ordinarily(old(log), old(jobs), log, jobs) && |jobs| == |old(jobs)|
      ensures var job := old(jobs)[j];
              old(log) + [ReleaseLock(Generation(job.project), j)] +
              (if job.crossMachine then [ReleaseLock(TargetPath(job.project), j)] else []) +
              [Advance(j, DISPATCH_FAILED), Retry(job, j)] <= log
      ensures ok ==> Settled(jobs[j].status)
      decreases Budget(jobs), 2
    {
      hide Effect, Enabled, Legal, After, Ordinarily, Budget, InTable, RepliesTrue;
      Release(Generation(jobs[j].project), j);
      ghost var l1, s1 := log, jobs;
      if jobs[j].crossMachine {
        Release(TargetPath(jobs[j].project), j);
        OrdinarilyChain(old(log), old(jobs), l1, s1, log, jobs);
        l1 := log;
      }
      ghost var before := State();
      FailureMayBeReported();
      ok := UpdateStatus(j, DISPATCH_FAILED, true);
      ReportedFailure(before, j, l1, log, ok, answers(old(asked)), old(asked));
      OrdinarilyChain(old(log), old(jobs), l1, s1, log, jobs);
    }

    /** Status report of a worker or of the orchestrator; `tokenOk` is the outcome of the fencing check, if any. */
    method UpdateStatus(j: JobId, st: JobStatus, tokenOk: bool) returns (ok: bool)
      requires Valid() && j < |jobs|
      requires IsWorkerStatus(st) || IsDispatchOutcome(st) || IsTerminal(st)
      modifies this
      ensures Valid() && old(log) <= log && Ordinarily(old(log), old(jobs), log, jobs) && |jobs| == |old(jobs)|
      ensures !CanTransition(old(jobs)[j].status, st) || !tokenOk ==>
                !ok && log == old(log) && State() == old(State())
      ensures CanTransition(old(jobs)[j].status, st) && tokenOk ==>
                Reported(old(State()), j, st, old(log), log, ok, answers(old(asked)), old(asked))
      ensures CanTransition(old(jobs)[j].status, st) && tokenOk && !IsTerminal(st) && !IsRetriableFailure(st) ==>
                ok && log == old(log) + [Advance(j, st)]
      ensures CanTransition(old(jobs)[j].status, st) && tokenOk && IsTerminal(st) && old(jobs)[j].lockKey.None? ==>
                jobs == old(jobs)[j := old(jobs)[j].(status := st, completed := true)]
      ensures ok && IsRetriableFailure(st) ==> Settled(jobs[j].status)
      ensures ok && !IsRetriableFailure(st) ==> jobs[j].status == st
      decreases Budget(jobs), if CanTransition(jobs[j].status, st) && IsTerminal(st) then 8 else 1
    {
      hide Effect, Enabled, Legal, After, Ordinarily, Budget, RepliesTrue, Retried, Ends;
      hide IsTerminal, IsRetriableFailure, IsWorkerStatus, IsDispatchOutcome, CanTransition, Settled;
      StatusFacts(st);
      var current := jobs[j];
      if st != current.status && !CanTransition(current.status, st) {
        OrdinarilyNothing(log, jobs);
        return false;
      }
      if current.status == REIMPORT_FAILED && (st == COMMITTING || st == COMPLETED) {
        ReimportFailedBlocksCommit(st);
        OrdinarilyNothing(log, jobs);
        return false;
      }
      if !tokenOk {
        OrdinarilyNothing(log, jobs);
        return false;
      }
      ghost var before := State();
      ApplyStatus(j, st);
      ghost var l1, s1 := log, jobs;
      ok := FollowUp(j, current.lockKey.Some?);
      OrdinarilyChain(old(log), old(jobs), l1, s1, log, jobs);
    }

    method ApplyStatus(j: JobId, st: JobStatus)
      requires Valid() && j < |jobs| && CanTransition(jobs[j].status, st)
      requires IsWorkerStatus(st) || IsDispatchOutcome(st) || IsTerminal(st)
      modifies this`jobs, this`owner, this`pgJob, this`log
      ensures Valid() && log == old(log) + [ReportWrite(j, st)]
      ensures Enabled(old(State()), ReportWrite(j, st)) && State() == Effect(old(State()), ReportWrite(j, st))
      ensures Ordinarily(old(log), old(jobs), log, jobs)
      ensures jobs == old(jobs)[j := old(jobs)[j].(status := st, completed := old(jobs)[j].completed || IsTerminal(st))]
      ensures if IsTerminal(st) then Budget(jobs) <= Budget(old(jobs)) else Budget(jobs) == Budget(old(jobs))
    {
      hide Effect, Ordinarily, Budget, InTable, RepliesTrue, Legal;
      if IsTerminal(jobs[j].status) {
        TerminalIsFinal(jobs[j].status, st);
      }
      ghost var before := log;
      if IsTerminal(st) {
        WriteFinal(j, st);
      } else {
        WriteStatus(j, st);
      }
      LastEffect(log, before, ReportWrite(j, st));
      BudgetAt(old(jobs), j, jobs[j]);
    }

    /** A failure is retried at once; a final status lets the project's next job run. */
    method FollowUp(j: JobId, hadLock: bool) returns (ok: bool)
      requires Valid() && j < |jobs|
      modifies this
      ensures Valid() && old(log) <= log && Ordinarily(old(log), old(jobs), log, jobs) && |jobs| == |old(jobs)|
      ensures IsRetriableFailure(old(jobs)[j].status) ==>
                Retried(old(State()), j, old(log), log, ok, answers(old(asked)), old(asked))
      ensures IsTerminal(old(jobs)[j].status) ==>
                Ends(old(State()), hadLock, j, old(log), log, ok, answers(old(asked)), old(asked))
      ensures !IsRetriableFailure(old(jobs)[j].status) && !(IsTerminal(old(jobs)[j].status) && hadLock) ==>
                ok && log == old(log) && State() == old(State())
      ensures ok && IsRetriableFailure(old(jobs)[j].status) ==> Settled(jobs[j].status)
      ensures ok && !IsRetriableFailure(old(jobs)[j].status) ==> jobs[j].status == old(jobs)[j].status
      decreases Budget(jobs), if IsTerminal(jobs[j].status) then 7 else 0, 1
    {
      hide Effect, Enabled, Legal, After, Ordinarily, Budget, InTable, RepliesTrue, Retried, Promotes;
      StatusFacts(jobs[j].status);
      if IsRetriableFailure(jobs[j].status) {
        ok := HandleFailure(j);
      } else if IsTerminal(jobs[j].status) && hadLock {
        ok := PromoteBlockedJobs(jobs[j].project, j);
        StaysEnded(old(log), old(jobs), log, jobs, j);
      } else {
        OrdinarilyNothing(log, jobs);
        ok := true;
      }
    }

    /** Retry below the maximum, dead letter at it. The generation lock stays with a retried job. */
    method HandleFailure(j: JobId) returns (ok: bool)
      requires Valid() && j < |jobs| && IsRetriableFailure(jobs[j].status)
      modifies this
      ensures Valid() && old(log) <= log && Ordinarily(old(log), old(jobs), log, jobs) && |jobs| == |old(jobs)|
      ensures Retried(old(State()), j, old(log), log, ok, answers(old(asked)), old(asked))
      ensures ok ==> Settled(jobs[j].status)
      decreases Budget(jobs), 0, 0
    {
      hide Effect, Enabled, Legal, After, Ordinarily, Budget, InTable, RepliesTrue, Opens, Promotes;
      var job := jobs[j];
      ghost var before := log;
      if job.attempt < job.maxAttempts {
        WriteRequeued(j);
        LastEffect(log, before, Requeue(j));
        BudgetAt(old(jobs), j, jobs[j]);
        ghost var l1, s1 := log, jobs;
        ok := DispatchJob(j);
        OrdinarilyChain(old(log), old(jobs), l1, s1, log, jobs);
      } else {
        WriteDeadLetter(j);
        LastEffect(log, before, JobModel.DeadLetter(j));
        BudgetAt(old(jobs), j, jobs[j]);
        ok := true;
        if job.lockKey.Some? {
          ghost var l1, s1 := log, jobs;
          ok := PromoteBlockedJobs(job.project, j);
          OrdinarilyChain(old(log), old(jobs), l1, s1, log, jobs);
          StaysEnded(l1, s1, log, jobs, j);
        }
      }
    }

    /**
     * Dispatches the oldest blocked job of the project that need not wait; throws if the dependency
     * of that job has failed.
     */
    method PromoteBlockedJobs(project: ProjectId, finished: JobId) returns (ok: bool)
      requires Valid()
      modifies this
      ensures Valid() && old(log) <= log && Ordinarily(old(log), old(jobs), log, jobs) && |jobs| == |old(jobs)|
      ensures Promotes(old(State()), project, finished, old(log), log, ok, answers(old(asked)), old(asked))
      decreases Budget(jobs), 6
    {
      hide Effect, Enabled, Legal, After, Ordinarily, Budget, InTable, RepliesTrue, Opens, PromotionOf;
      OrdinarilyNothing(log, jobs);
      for j := 0 to |jobs|
        invariant Valid() && log == old(log) && State() == old(State()) && asked == old(asked)
        invariant forall k | 0 <= k < j && jobs[k].project == project && jobs[k].status == BLOCKED ::
                    PromotionOf(jobs, k, finished) == Keep
      {
        if jobs[j].project == project && jobs[j].status == BLOCKED {
          var decision := PromotionOf(jobs, j, finished);
          if decision == FailDependency {
            assert IsNext(jobs, j, project, finished);
            NothingReachesDepFailed(BLOCKED);
            ok := UpdateStatus(j, DEP_FAILED, true);
            return false;
          }
          if decision == Promote {
            assert IsNext(jobs, j, project, finished);
            ok := PromoteOne(j, finished);
            return ok;
          }
        }
      }
      return true;
    }

    method PromoteOne(j: JobId, finished: JobId) returns (ok: bool)
      requires Valid() && j < |jobs| && jobs[j].status == BLOCKED && PromotionOf(jobs, j, finished) == Promote
      modifies this
      ensures Valid() && old(log) <= log && Ordinarily(old(log), old(jobs), log, jobs) && |jobs| == |old(jobs)|
      ensures Enabled(old(State()), PromoteJob(j))
      ensures Opens(Effect(old(State()), PromoteJob(j)), old(log) + [PromoteJob(j)], log, ok, j,
                    answers(old(asked)), old(asked))
      decreases Budget(jobs), 5
    {
      hide Effect, Enabled, Legal, After, Ordinarily, Budget, InTable, RepliesTrue, Opens;
      DependencyReady(j);
      ghost var before := log;
      WritePromoted(j);
      LastEffect(log, before, PromoteJob(j));
      BudgetAt(old(jobs), j, jobs[j]);
      ghost var l1, s1 := log, jobs;
      ok := DispatchJob(j);
      OrdinarilyChain(old(log), old(jobs), l1, s1, log, jobs);
    }

    /**
     * In every state a run can reach, a blocked job may go exactly if its dependency has completed and
     * no other job has the project's slot: the recorded blocker never decides.
     */
    lemma PromotesExactly(j: JobId, finished: JobId)
      requires Valid() && j < |jobs|
      ensures PromotionOf(jobs, j, finished) == Promote <==>
                DependencyMet(jobs, jobs[j]) && !ActiveElsewhere(jobs, jobs[j].project, finished)
    {
      JobTheorems.DependenciesAlwaysOlder(log);
      JobTheorems.BlockersAlwaysInProject(log);
      hide Legal, After, RepliesTrue;
    }

    lemma DependencyReady(j: JobId)
      requires Valid() && j < |jobs|
      requires jobs[j].dependsOn.Some? && jobs[j].dependsOn.value < |jobs| ==>
                 jobs[jobs[j].dependsOn.value].status == COMPLETED
      ensures DependencyMet(jobs, jobs[j])
    {
      JobTheorems.DependenciesAlwaysOlder(log);
    }

    // ---- Reports, recovery and administration ----

    /** A worker's callback: one of the worker statuses, with whatever the fencing check said. */
    method WorkerUpdate(j: JobId, st: JobStatus, tokenOk: bool) returns (ok: bool)
      requires Valid() && j < |jobs| && IsWorkerStatus(st)
      modifies this
      ensures Valid() && old(log) <= log && Ordinarily(old(log), old(jobs), log, jobs)
      ensures !CanTransition(old(jobs)[j].status, st) || !tokenOk ==> !ok && State() == old(State())
      ensures CanTransition(old(jobs)[j].status, st) && tokenOk ==>
                Reported(old(State()), j, st, old(log), log, ok, answers(old(asked)), old(asked))
      ensures CanTransition(old(jobs)[j].status, st) && tokenOk && !IsTerminal(st) && !IsRetriableFailure(st) ==>
                ok && log == old(log) + [Advance(j, st)] && jobs[j].status == st
    {
      hide Effect, Enabled, Legal, After, Ordinarily, InTable, RepliesTrue, Reported;
      ok := UpdateStatus(j, st, tokenOk);
    }

    /** What the dispatch queue does once GitHub names the run, or the wait for it ends. */
    method ResolveDispatch(j: JobId, runFound: bool) returns (ok: bool)
      requires Valid() && j < |jobs|
      modifies this
      ensures Valid() && old(log) <= log && Ordinarily(old(log), old(jobs), log, jobs)
      ensures old(jobs)[j].status != DISPATCHING ==> ok && log == old(log)
      ensures old(jobs)[j].status == DISPATCHING ==>
                Reported(old(State()), j, if runFound then STAGING else DISPATCH_TIMEOUT, old(log), log, ok,
                         answers(old(asked)), old(asked))
    {
      hide Effect, Enabled, Legal, After, Ordinarily, RepliesTrue, Reported;
      if jobs[j].status != DISPATCHING {
        OrdinarilyNothing(log, jobs);
        return true;
      }
      if runFound {
        ok := UpdateStatus(j, STAGING, true);
      } else {
        ok := UpdateStatus(j, DISPATCH_TIMEOUT, true);
      }
    }

    /** Requeues a stale job with its next attempt, or ends it, as the attempts read beforehand say. */
    method Recover(j: JobId, attempt: nat, endIfExhausted: bool) returns (ok: bool)
      requires Valid() && j < |jobs| && jobs[j].status == LOCK_STALE && jobs[j].lockKey.None?
      modifies this
      ensures Valid() && old(log) <= log && |jobs| == |old(jobs)|
      ensures Recovered(old(State()), j, attempt, endIfExhausted, old(log), log, ok, answers(old(asked)), old(asked))
      ensures attempt < old(jobs)[j].maxAttempts ==> OrdinaryFrom(log, |old(log)| + 1)
      ensures attempt >= old(jobs)[j].maxAttempts ==>
                OrdinaryFrom(log, |old(log)|) && jobs == old(jobs)[j := jobs[j]]
      ensures attempt >= old(jobs)[j].maxAttempts && !endIfExhausted ==> jobs == old(jobs)
      ensures ok ==> Settled(jobs[j].status) || (!endIfExhausted && attempt >= old(jobs)[j].maxAttempts)
    {
      hide Effect, Enabled, Legal, After, Budget, RepliesTrue, Opens, Promotes;
      ok := true;
      if attempt < jobs[j].maxAttempts {
        WriteRequeuedStale(j);
        LastEffect(log, old(log), RequeueStale(j));
        ghost var l1 := log;
        ok := DispatchJob(j);
        OpensKeepsPrefix(Effect(old(State()), RequeueStale(j)), l1, log, ok, j, answers(old(asked)), old(asked));
      } else if endIfExhausted {
        ok := UpdateStatus(j, DEAD_LETTER, true);
      }
    }

    /** One stale pg_locks row: its lock is freed, and the job it names is retried or ended. */
    method RecoverLock(key: LockKey, j: JobId) returns (ok: bool)
      requires Valid() && j < |jobs|
      modifies this
      ensures Valid() && |jobs| == |old(jobs)| && old(log) + [JobModel.Reclaim(key, Some(j))] <= log
      ensures Recovered(Effect(old(State()), JobModel.Reclaim(key, Some(j))), j, old(jobs)[j].attempt, true,
                        old(log) + [JobModel.Reclaim(key, Some(j))], log, ok, answers(old(asked)), old(asked))
      ensures OrdinaryFrom(log, |old(log)| + 2) && |log| > |old(log)| + 1
      ensures log[|old(log)| + 1] ==
                if old(jobs)[j].attempt < old(jobs)[j].maxAttempts then RequeueStale(j) else Finish(j, DEAD_LETTER)
      ensures ok ==> Settled(jobs[j].status)
    {
      hide Legal, After, Budget, RepliesTrue, Opens;
      ReclaimKey(key, Some(j));
      ghost var s1, l1 := State(), log;
      assert s1 == Effect(old(State()), JobModel.Reclaim(key, Some(j)));
      hide Effect, Enabled;
      ghost var attempt := jobs[j].attempt;
      ok := Recover(j, jobs[j].attempt, true);
      RecoveredNext(s1, j, attempt, true, l1, log, ok, answers(old(asked)), old(asked));
    }

    /** One job without heartbeat, as read before: its lock is freed and it is retried, or left stale. */
    method RecoverJob(j: JobId, lockKey: Option<LockKey>, attempt: nat) returns (ok: bool)
      requires Valid() && j < |jobs|
      modifies this
      ensures var mark := if lockKey.Some? then JobModel.Reclaim(lockKey.value, Some(j)) else MarkStale(j);
              Valid() && |jobs| == |old(jobs)| && old(log) + [mark] <= log &&
              Enabled(old(State()), mark) &&
              Recovered(Effect(old(State()), mark), j, attempt, false, old(log) + [mark], log, ok,
                        answers(old(asked)), old(asked))
      ensures if attempt < old(jobs)[j].maxAttempts
              then |log| > |old(log)| + 1 && log[|old(log)| + 1] == RequeueStale(j) && OrdinaryFrom(log, |old(log)| + 2)
              else |log| == |old(log)| + 1 && jobs[j].status == LOCK_STALE
      ensures ok && attempt < old(jobs)[j].maxAttempts ==> Settled(jobs[j].status)
    {
      hide Legal, After, Budget, RepliesTrue, Opens;
      ghost var mark := if lockKey.Some? then JobModel.Reclaim(lockKey.value, Some(j)) else MarkStale(j);
      if lockKey.Some? {
        ReclaimKey(lockKey.value, Some(j));
      } else {
        WriteStale(j);
      }
      ghost var s1, l1 := State(), log;
      assert Enabled(old(State()), mark) && s1 == Effect(old(State()), mark);
      hide Effect, Enabled;
      ok := Recover(j, attempt, false);
      RecoveredNext(s1, j, attempt, false, l1, log, ok, answers(old(asked)), old(asked));
    }

    /**
     * The periodic scan: stale rows first, then jobs that lost their heartbeat and were not handled yet. `silent`
     * are the jobs whose last heartbeat is too old.
     */
    method ScanStaleLocks(rows: seq<(LockKey, JobId)>, silent: set<JobId>) returns (ok: bool)
      requires Valid()
      requires forall i | 0 <= i < |rows| ::
                 rows[i].0 in pgJob && pgJob[rows[i].0] == rows[i].1 && rows[i].1 < |jobs|
      modifies this
      ensures Valid() && old(log) <= log && |jobs| == |old(jobs)|
      ensures ok ==> forall i | 0 <= i < |rows| :: Logged(log, |old(log)|, JobModel.Reclaim(rows[i].0, Some(rows[i].1)))
      ensures forall k | |old(log)| <= k < |log| && Marks(log[k]) ::
                Marked(log[k]).Some? && (Marked(log[k]).value in JobsOf(rows) ==> IsRow(log[k], rows))
      ensures rows != [] ==> |log| > |old(log)| && log[|old(log)|] == JobModel.Reclaim(rows[0].0, Some(rows[0].1))
      ensures rows == [] && ok ==>
                forall j | j in silent && j < |old(jobs)| && IsWatched(old(jobs)[j].status) ::
                  Logged(log, |old(log)|, MarkOf(j, old(jobs)[j].lockKey))
    {
      hide Valid, Logged, Budget, IsWatched, Marks, Marked, IsRow, IsLateMark, JobsOf;
      RowMarks(rows);
      ok := RecoverRows(rows);
      if !ok {
        return;
      }
      ghost var rest, read := log, jobs;
      ok := ScanLateJobs(JobsOf(rows), silent);
      LoggedKept(rest, log, |old(log)|);
      LateMarks(read, JobsOf(rows), silent);
      assert rows == [] ==> silent - JobsOf(rows) == silent;
    }

    /** The first loop: every stale row, in the order of the query. */
    method RecoverRows(rows: seq<(LockKey, JobId)>) returns (ok: bool)
      requires Valid() && forall i | 0 <= i < |rows| :: rows[i].1 < |jobs|
      modifies this
      ensures Valid() && old(log) <= log && |jobs| == |old(jobs)|
      ensures ok ==> forall i | 0 <= i < |rows| :: Logged(log, |old(log)|, JobModel.Reclaim(rows[i].0, Some(rows[i].1)))
      ensures forall k | |old(log)| <= k < |log| && Marks(log[k]) :: IsRow(log[k], rows)
      ensures rows == [] ==> ok && log == old(log) && jobs == old(jobs)
      ensures rows != [] ==> |log| > |old(log)| && log[|old(log)|] == JobModel.Reclaim(rows[0].0, Some(rows[0].1))
    {
      hide Valid, Logged, Budget, Recovered, IsRow, Effect, Settled;
      ok := true;
      for i := 0 to |rows|
        invariant Valid() && old(log) <= log && |jobs| == |old(jobs)| && ok
        invariant forall k | 0 <= k < i :: Logged(log, |old(log)|, JobModel.Reclaim(rows[k].0, Some(rows[k].1)))
        invariant forall k | |old(log)| <= k < |log| && Marks(log[k]) :: IsRow(log[k], rows)
        invariant i == 0 ==> log == old(log) && jobs == old(jobs)
        invariant i > 0 ==> |log| > |old(log)| && log[|old(log)|] == JobModel.Reclaim(rows[0].0, Some(rows[0].1))
      {
        ghost var before := log;
        ok := RecoverLock(rows[i].0, rows[i].1);
        RowHandled(before, log, |old(log)|, rows, i);
        if !ok {
          return;
        }
      }
    }

    /** The late jobs and what was read of them, before the first of them is recovered. */
    method LateJobs(silent: set<JobId>) returns (late: seq<(JobId, Option<LockKey>, nat)>)
      ensures forall k | 0 <= k < |late| :: IsRead(late[k], jobs)
      ensures forall j | j in silent && j < |jobs| && IsWatched(jobs[j].status) ::
                (j, jobs[j].lockKey, jobs[j].attempt) in late
      ensures forall k | 0 <= k < |late| :: late[k].0 in silent
    {
      late := [];
      for i := 0 to |jobs|
        invariant forall k | 0 <= k < |late| :: IsRead(late[k], jobs) && late[k].0 in silent
        invariant forall j | j in silent && j < i && IsWatched(jobs[j].status) ::
                    (j, jobs[j].lockKey, jobs[j].attempt) in late
      {
        if i in silent && IsWatched(jobs[i].status) {
          late := late + [(i, jobs[i].lockKey, jobs[i].attempt)];
        }
      }
    }

    /**
     * Exactly the silent jobs that were in a watched status at the start, and were not handled before, are
     * marked, each under the lock recorded then.
     */
    method ScanLateJobs(handled: set<JobId>, silent: set<JobId>) returns (ok: bool)
      requires Valid()
      modifies this
      ensures Valid() && old(log) <= log && |jobs| == |old(jobs)|
      ensures forall k | |old(log)| <= k < |log| && Marks(log[k]) :: IsLateMark(log[k], old(jobs), handled, silent)
      ensures ok ==> forall j | j in silent - handled && j < |old(jobs)| && IsWatched(old(jobs)[j].status) ::
                       Logged(log, |old(log)|, MarkOf(j, old(jobs)[j].lockKey))
    {
      hide Valid, Logged, Effect, Enabled, Budget, IsWatched, Recovered, Settled;
      var late := LateJobs(silent);
      for i := 0 to |late|
        invariant Valid() && old(log) <= log && |jobs| == |old(jobs)|
        invariant forall k | |old(log)| <= k < |log| && Marks(log[k]) :: IsLateMark(log[k], old(jobs), handled, silent)
        invariant forall k | 0 <= k < i && late[k].0 !in handled ::
                    Logged(log, |old(log)|, MarkOf(late[k].0, late[k].1))
      {
        if late[i].0 !in handled {
          ghost var before := log;
          ok := RecoverJob(late[i].0, late[i].1, late[i].2);
          LateHandled(before, log, |old(log)|, MarkOf(late[i].0, late[i].1));
          if !ok {
            return;
          }
        }
      }
      ok := true;
    }

    predicate RecordedUnder(job: Job, key: LockKey) {
      job.lockKey == Some(key) && !job.completed
    }

    /**
     * An administrator's reclaim: the key is freed, and every unfinished job recorded under it, in the
     * order the query gave them, is retried or ended as its attempts at that time say.
     */
    method AdminReclaim(key: LockKey, rows: seq<JobId>) returns (ok: bool)
      requires Valid()
      requires forall i | 0 <= i < |rows| :: rows[i] < |jobs| && RecordedUnder(jobs[rows[i]], key)
      requires forall j | 0 <= j < |jobs| && RecordedUnder(jobs[j], key) :: j in rows
      modifies this
      ensures Valid() && old(log) <= log && |jobs| == |old(jobs)| && |log| > |old(log)|
      ensures log[|old(log)|] == JobModel.Reclaim(key, if rows == [] then None else Some(rows[0]))
      ensures ok ==> forall i | 1 <= i < |rows| :: Logged(log, |old(log)|, MarkStale(rows[i]))
      ensures ok ==>
                forall i | 0 <= i < |rows| :: Logged(log, |old(log)|, AfterReclaim(rows[i], old(jobs)[rows[i]].attempt))
    {
      hide Valid, Effect, Enabled, Budget, Logged, RecordedUnder, AttemptsOf, Settled, AfterReclaim;
      var attempts := AttemptsOf(jobs, rows);
      ReclaimKey(key, if rows == [] then None else Some(rows[0]));
      ok := true;
      for i := 0 to |rows|
        invariant Valid() && old(log) <= log && |jobs| == |old(jobs)| && |log| > |old(log)|
        invariant log[|old(log)|] == JobModel.Reclaim(key, if rows == [] then None else Some(rows[0]))
        invariant i == 0 && rows != [] ==> jobs[rows[0]].status == LOCK_STALE && jobs[rows[0]].lockKey.None?
        invariant forall k | 1 <= k < i :: Logged(log, |old(log)|, MarkStale(rows[k]))
        invariant forall k | 0 <= k < i :: Logged(log, |old(log)|, AfterReclaim(rows[k], attempts[k]))
      {
        ghost var before := log;
        ok := RecoverReclaimed(rows[i], attempts[i], i == 0);
        LoggedKept(before, log, |old(log)|);
        if !ok {
          return;
        }
      }
    }

    /** One job found for a reclaimed key. The first row was marked together with the reclaim. */
    method RecoverReclaimed(j: JobId, attempt: nat, marked: bool) returns (ok: bool)
      requires Valid() && j < |jobs| && (marked ==> jobs[j].status == LOCK_STALE && jobs[j].lockKey.None?)
      modifies this
      ensures Valid() && old(log) <= log && |jobs| == |old(jobs)|
      ensures forall n | 0 <= n <= |old(log)| && !marked :: Logged(log, n, MarkStale(j))
      ensures forall n | 0 <= n <= |old(log)| :: Logged(log, n, AfterReclaim(j, attempt))
      ensures ok ==> Settled(jobs[j].status)
    {
      hide Effect, Enabled, Legal, After, Budget, RepliesTrue, Opens;
      if !marked {
        WriteStale(j);
        assert log[|old(log)|] == MarkStale(j);
      }
      MaximumIsDefault(log);
      ghost var before, s1 := log, State();
      ok := Recover(j, attempt, true);
      RecoveredNext(s1, j, attempt, true, before, log, ok, answers(old(asked)), old(asked));
      assert log[|before|] == AfterReclaim(j, attempt);
    }

    /** Nothing checks that the job is in the dead letters. */
    method RetryDeadLetter(j: JobId) returns (ok: bool)
      requires Valid() && j < |jobs|
      modifies this
      ensures Valid() && old(log) + [JobModel.RetryDeadLetter(j)] <= log && |jobs| == |old(jobs)|
      ensures Opens(Effect(old(State()), JobModel.RetryDeadLetter(j)), old(log) + [JobModel.RetryDeadLetter(j)],
                    log, ok, j, answers(old(asked)), old(asked))
      ensures OrdinaryFrom(log, |old(log)| + 1)
      ensures ok ==> Settled(jobs[j].status)
    {
      hide Effect, Legal, After, Budget, RepliesTrue, Opens;
      WriteRetried(j);
      LastEffect(log, old(log), JobModel.RetryDeadLetter(j));
      hide Enabled;
      ok := DispatchJob(j);
    }
  }

  lemma MaximumIsDefault(log: seq<Action>)
    requires Legal(log)
    ensures forall j | 0 <= j < |After(log).jobs| :: After(log).jobs[j].maxAttempts == DEFAULT_MAX_ATTEMPTS
  {
    JobTheorems.MaximumAlwaysDefault(log);
  }

  /** A stale job is queued and dispatched for its next attempt, or ended, or left as it is. */
  ghost predicate Recovered(
    s: Sys, j: JobId, attempt: nat, endIfExhausted: bool, before: seq<Action>, log: seq<Action>, ok: bool,
    a: Answers, n: nat)
  {
    j < |s.jobs| &&
    if attempt < s.jobs[j].maxAttempts then
      Enabled(s, RequeueStale(j)) && before + [RequeueStale(j)] <= log &&
      Opens(Effect(s, RequeueStale(j)), before + [RequeueStale(j)], log, ok, j, a, n)
    else log == (if endIfExhausted then before + [Finish(j, DEAD_LETTER)] else before) && ok
  }

  lemma RecoveredNext(
    s: Sys, j: JobId, attempt: nat, endIfExhausted: bool, before: seq<Action>, log: seq<Action>, ok: bool,
    a: Answers, n: nat)
    requires Recovered(s, j, attempt, endIfExhausted, before, log, ok, a, n)
    ensures before <= log
    ensures attempt < s.jobs[j].maxAttempts ==> |log| > |before| && log[|before|] == RequeueStale(j)
    ensures attempt >= s.jobs[j].maxAttempts ==>
              if endIfExhausted then |log| == |before| + 1 && log[|before|] == Finish(j, DEAD_LETTER)
              else log == before
  {
    hide Opens, Effect, Enabled;
    if attempt < s.jobs[j].maxAttempts {
      assert (before + [RequeueStale(j)])[|before|] == RequeueStale(j);
    }
  }

  /** How a late job is marked: with a reclaim of the lock that was recorded, if there was one. */
  function MarkOf(j: JobId, lockKey: Option<LockKey>): Action {
    if lockKey.Some? then JobModel.Reclaim(lockKey.value, Some(j)) else MarkStale(j)
  }

  predicate IsRead(r: (JobId, Option<LockKey>, nat), jobs: seq<Job>) {
    r.0 < |jobs| && IsWatched(jobs[r.0].status) && r.1 == jobs[r.0].lockKey && r.2 == jobs[r.0].attempt
  }

  lemma RowHandled(before: seq<Action>, log: seq<Action>, n: nat, rows: seq<(LockKey, JobId)>, i: nat)
    requires i < |rows| && n <= |before| && before + [JobModel.Reclaim(rows[i].0, Some(rows[i].1))] <= log
    ensures Logged(log, n, JobModel.Reclaim(rows[i].0, Some(rows[i].1))) && IsRow(log[|before|], rows)
    ensures forall a | Logged(before, n, a) :: Logged(log, n, a)
  {
    assert log[|before|] == JobModel.Reclaim(rows[i].0, Some(rows[i].1)) && rows[i] in rows;
    LoggedKept(before, log, n);
  }

  /** What the second loop marks is no job of a row. */
  lemma LateMarks(jobs: seq<Job>, handled: set<JobId>, silent: set<JobId>)
    ensures forall a | IsLateMark(a, jobs, handled, silent) :: Marked(a).Some? && Marked(a).value !in handled
  {
  }

  lemma RowMarks(rows: seq<(LockKey, JobId)>)
    ensures forall a | IsRow(a, rows) :: Marked(a).Some?
    ensures rows == [] ==> JobsOf(rows) == {}
  {
  }

  lemma LateHandled(before: seq<Action>, log: seq<Action>, n: nat, mark: Action)
    requires n <= |before| && before + [mark] <= log
    ensures Logged(log, n, mark) && log[|before|] == mark
    ensures forall a | Logged(before, n, a) :: Logged(log, n, a)
  {
    assert log[|before|] == mark;
    LoggedKept(before, log, n);
  }

  /** What a job found for a reclaimed key gets next, by the attempts read with it. */
  function AfterReclaim(j: JobId, attempt: nat): Action {
    if attempt < DEFAULT_MAX_ATTEMPTS then RequeueStale(j) else Finish(j, DEAD_LETTER)
  }

  /** The statuses whose heartbeat is watched. */
  predicate IsWatched(st: JobStatus) {
    st.STAGING? || st.VALIDATING? || st.COMMITTING? || st.POST_COMMIT_VERIFY? || st.DISPATCHING?
  }

  /** They are the statuses of a job at work, except where it waits for a review of its report or for an editor. */
  lemma WatchedAtWork(st: JobStatus)
    ensures IsWatched(st) <==> IsHolding(st) && st != VALIDATION_REPORT && st != PAUSED_EDITOR_LOCK
  {
  }

  /** The action takes a lock away from a job, or marks it stale. */
  predicate Marks(a: Action) {
    a.Reclaim? || a.MarkStale?
  }

  function Marked(a: Action): Option<JobId> {
    match a
    case Reclaim(_, marked) => marked
    case MarkStale(j) => Some(j)
    case _ => None
  }

  function JobsOf(rows: seq<(LockKey, JobId)>): set<JobId> {
    set i | 0 <= i < |rows| :: rows[i].1
  }

  predicate IsRow(a: Action, rows: seq<(LockKey, JobId)>) {
    a.Reclaim? && a.marked.Some? && (a.key, a.marked.value) in rows
  }

  predicate IsLateMark(a: Action, jobs: seq<Job>, handled: set<JobId>, silent: set<JobId>) {
    var j := Marked(a);
    j.Some? && j.value in silent - handled && j.value < |jobs| && IsWatched(jobs[j.value].status) &&
    a == MarkOf(j.value, jobs[j.value].lockKey)
  }

  function AttemptsOf(jobs: seq<Job>, rows: seq<JobId>): (attempts: seq<nat>)
    requires forall i | 0 <= i < |rows| :: rows[i] < |jobs|
    ensures |attempts| == |rows| && forall i | 0 <= i < |rows| :: attempts[i] == jobs[rows[i]].attempt
  {
    seq(|rows|, i requires 0 <= i < |rows| && rows[i] < |jobs| => jobs[rows[i]].attempt)
  }

  predicate Logged(log: seq<Action>, n: nat, a: Action) {
    exists k | n <= k < |log| :: log[k] == a
  }

  lemma LoggedKept(before: seq<Action>, log: seq<Action>, n: nat)
    requires before <= log
    ensures forall a | Logged(before, n, a) :: Logged(log, n, a)
  {
    forall a | Logged(before, n, a) ensures Logged(log, n, a) {
      var k :| n <= k < |before| && before[k] == a;
      assert log[k] == a;
    }
  }
}
