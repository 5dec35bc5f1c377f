/** What every legal run of the orchestrator keeps. */
module JobTheorems {
  import opened Wrappers
  import opened JobStatuses
  import opened DependencyGates
  import opened JobModel

  /** The state after the first n actions. */
  function At(log: seq<Action>, n: nat): Sys
    requires Legal(log) && n <= |log|
  {
    LegalPrefix(log, n);
    After(log[..n])
  }

  lemma AtStep(log: seq<Action>, n: nat)
    requires Legal(log) && n < |log|
    ensures Enabled(At(log, n), log[n]) && At(log, n + 1) == Effect(At(log, n), log[n])
  {
    LegalPrefix(log, n + 1);
    LegalPrefix(log, n);
    assert log[..n + 1][..n] == log[..n];
  }

  lemma AtPrefix(log: seq<Action>, m: nat, n: nat)
    requires Legal(log) && m <= n <= |log|
    ensures Legal(log[..n]) && At(log[..n], m) == At(log, m)
  {
    hide Effect, Enabled;
    LegalPrefix(log, n);
    assert log[..n][..m] == log[..m];
  }

  // ---- One action on one job ----

  /** The job an action writes, if it is an existing one. */
  function Subject(a: Action): Option<JobId> {
    match a
    case Block(j, _) => Some(j)
    case StartDispatch(j, _) => Some(j)
    case Advance(j, _) => Some(j)
    case Finish(j, _) => Some(j)
    case Requeue(j) => Some(j)
    case DeadLetter(j) => Some(j)
    case PromoteJob(j) => Some(j)
    case Reclaim(_, marked) => marked
    case MarkStale(j) => Some(j)
    case RequeueStale(j) => Some(j)
    case RetryDeadLetter(j) => Some(j)
    case _ => None
  }

  function StatusAfter(job: Job, a: Action): JobStatus {
    match a
    case Block(_, _) => BLOCKED
    case StartDispatch(_, _) => DISPATCHING
    case Advance(_, st) => st
    case Finish(_, st) => st
    case DeadLetter(_) => DEAD_LETTER
    case Reclaim(_, _) => LOCK_STALE
    case MarkStale(_) => LOCK_STALE
    case Requeue(_) => QUEUED
    case PromoteJob(_) => QUEUED
    case RequeueStale(_) => QUEUED
    case RetryDeadLetter(_) => QUEUED
    case _ => job.status
  }

  function AttemptAfter(job: Job, a: Action): nat {
    match a
    case Requeue(_) => job.attempt + 1
    case RequeueStale(_) => job.attempt + 1
    case RetryDeadLetter(_) => 1
    case _ => job.attempt
  }

  /** Every action leaves all jobs but its subject alone, and never a job's project or dependency. */
  lemma JobAfter(s: Sys, a: Action, j: JobId)
    requires Enabled(s, a) && j < |s.jobs|
    ensures j < |Effect(s, a).jobs|
    ensures var job, job' := s.jobs[j], Effect(s, a).jobs[j];
            if Subject(a) != Some(j) then job' == job
            else job'.project == job.project && job'.dependsOn == job.dependsOn &&
                 job'.maxAttempts == job.maxAttempts &&
                 job'.status == StatusAfter(job, a) && job'.attempt == AttemptAfter(job, a) &&
                 (!(a.StartDispatch? || a.Reclaim? || a.MarkStale?) ==> job'.lockKey == job.lockKey) &&
                 (a.StartDispatch? ==> job'.lockKey == Some(Generation(job.project)))
  {
    hide CanTransition, DependencyMet, IsWorkerStatus, IsDispatchOutcome, IsTerminal, IsHolding, IsRetriableFailure;
    hide EvaluateDependencyGate, DependencyOf, NewJob, Owns;
  }

  /** What actions do to the recorded lock, the recorded blocker and the completion time of their subject. */
  lemma RecordAfter(s: Sys, a: Action, j: JobId)
    requires Enabled(s, a) && j < |s.jobs| && Subject(a) == Some(j)
    ensures var job, job' := s.jobs[j], Effect(s, a).jobs[j];
            (job'.completed <==> a.Finish? || a.DeadLetter? ||
                                 (job.completed && !a.Requeue? && !a.RetryDeadLetter?)) &&
            (job'.lockKey.None? <==> a.Reclaim? || a.MarkStale? || (job.lockKey.None? && !a.StartDispatch?)) &&
            (job'.targetLock <==> job.targetLock || (a.StartDispatch? && job.crossMachine)) &&
            job'.blockedBy == (if a.PromoteJob? then None else job.blockedBy) && job'.crossMachine == job.crossMachine
  {
    hide CanTransition, DependencyMet, IsWorkerStatus, IsDispatchOutcome, IsTerminal, IsHolding, IsRetriableFailure;
    hide EvaluateDependencyGate, DependencyOf, NewJob, Owns;
  }

  /** Only inserts add a job: unblocked or blocked, with attempt 1 and an older dependency of its project. */
  lemma JobAdded(s: Sys, a: Action)
    requires Enabled(s, a)
    ensures |Effect(s, a).jobs| == |s.jobs| + if a.Insert? then 1 else 0
    ensures a.Insert? ==>
              var job := Effect(s, a).jobs[|s.jobs|];
              (job.status.QUEUED? || job.status.BLOCKED?) && job.attempt == 1 &&
              job.maxAttempts == DEFAULT_MAX_ATTEMPTS &&
              (job.dependsOn.Some? ==>
                 job.dependsOn.value < |s.jobs| && s.jobs[job.dependsOn.value].project == job.project)
  {
  }

  /** A job keeps its locks unless the action releases them in its name or frees the key as such. */
  lemma OwnerAfter(s: Sys, a: Action, key: LockKey, j: JobId)
    requires Enabled(s, a) && Owns(s, key, j) && Subject(a) != Some(j)
    requires !((a.ReleaseLock? || a.DropOwner?) && a.job == j)
    ensures Owns(Effect(s, a), key, j) <==> !((a.Reclaim? || a.LoseOwner?) && a.key == key)
  {
  }

  // ---- Mutual exclusion ----

  predicate Holding(s: Sys, j: JobId) {
    j < |s.jobs| && IsHolding(s.jobs[j].status)
  }

  /** Every job being worked on has its project's generation lock recorded, and owns it in Redis. */
  predicate Exclusive(s: Sys) {
    forall j | 0 <= j < |s.jobs| && IsHolding(s.jobs[j].status) ::
      s.jobs[j].lockKey == Some(Generation(s.jobs[j].project)) && Owns(s, Generation(s.jobs[j].project), j)
  }

  /** The action frees a generation lock whose owner is being worked on, without marking that owner stale. */
  predicate TakesLock(s: Sys, a: Action) {
    (a.Reclaim? || a.LoseOwner?) && a.key in s.owner && Holding(s, s.owner[a.key]) &&
    s.jobs[s.owner[a.key]].lockKey == Some(a.key) &&
    (a.Reclaim? ==> a.marked != Some(s.owner[a.key]))
  }

  lemma OnePerProject(s: Sys, i: JobId, j: JobId)
    requires Exclusive(s) && Holding(s, i) && Holding(s, j) && s.jobs[i].project == s.jobs[j].project
    ensures i == j
  {
  }

  predicate HoldsLock(s: Sys, j: JobId)
    requires j < |s.jobs|
  {
    IsHolding(s.jobs[j].status) ==>
      s.jobs[j].lockKey == Some(Generation(s.jobs[j].project)) && Owns(s, Generation(s.jobs[j].project), j)
  }

  /** A job being worked on keeps its lock unless its key is taken. */
  lemma HolderKept(s: Sys, a: Action, j: JobId)
    requires Enabled(s, a) && j < |s.jobs| && HoldsLock(s, j)
    requires (a.Reclaim? || a.LoseOwner?) && IsHolding(s.jobs[j].status) && a.key == Generation(s.jobs[j].project) ==>
               a.Reclaim? && a.marked == Some(j)
    ensures j < |Effect(s, a).jobs| && HoldsLock(Effect(s, a), j)
  {
    JobAfter(s, a, j);
    if Subject(a) == Some(j) {
      if IsHolding(StatusAfter(s.jobs[j], a)) {
        SubjectKeepsOwner(s, a, j);
      }
    } else if IsHolding(s.jobs[j].status) {
      assert (a.ReleaseLock? || a.DropOwner?) ==> a.job != j;
      OwnerAfter(s, a, Generation(s.jobs[j].project), j);
    }
    hide Effect;
  }

  /** A job whose own action leaves it worked on was so before, or took its lock beforehand. */
  lemma SubjectKeepsOwner(s: Sys, a: Action, j: JobId)
    requires Enabled(s, a) && Subject(a) == Some(j) && IsHolding(StatusAfter(s.jobs[j], a))
    ensures Effect(s, a).owner == s.owner
    ensures (a.StartDispatch? && Owns(s, Generation(s.jobs[j].project), j)) ||
            (a.Advance? && IsHolding(s.jobs[j].status))
  {
  }

  lemma TakenLockBreaks(s: Sys, a: Action)
    requires Enabled(s, a) && Exclusive(s) && TakesLock(s, a)
    ensures !Exclusive(Effect(s, a))
  {
    var h := s.owner[a.key];
    JobAfter(s, a, h);
    assert HoldsLock(s, h) && Owns(s, a.key, h);
    OwnerAfter(s, a, a.key, h);
    hide Effect;
    assert !HoldsLock(Effect(s, a), h);
  }

  /** One action keeps exclusion exactly when it does not take the lock from under a holder. */
  lemma ExclusiveExact(s: Sys, a: Action)
    requires Exclusive(s) && Enabled(s, a)
    ensures Exclusive(Effect(s, a)) <==> !TakesLock(s, a)
  {
    hide Effect, Enabled;
    if TakesLock(s, a) {
      TakenLockBreaks(s, a);
    } else {
      var s' := Effect(s, a);
      JobAdded(s, a);
      forall j | 0 <= j < |s'.jobs| ensures HoldsLock(s', j) {
        if j < |s.jobs| {
          assert HoldsLock(s, j);
          HolderKept(s, a, j);
        }
      }
      assert forall j | 0 <= j < |s'.jobs| && IsHolding(s'.jobs[j].status) :: HoldsLock(s', j);
    }
  }

  predicate AlwaysExclusive(log: seq<Action>)
    requires Legal(log)
  {
    Exclusive(After(log)) && (log != [] ==> AlwaysExclusive(log[..|log| - 1]))
  }

  predicate NeverTakesLock(log: seq<Action>)
    requires Legal(log)
  {
    log != [] ==> NeverTakesLock(log[..|log| - 1]) && !TakesLock(After(log[..|log| - 1]), log[|log| - 1])
  }

  /**
   * Mutual exclusion over whole runs: it holds in every state exactly when no reclaim and no
   * lost Redis key hits the lock of a job being worked on other than the one the reclaim marks.
   */
  lemma {:induction false} MutualExclusion(log: seq<Action>)
    requires Legal(log)
    ensures AlwaysExclusive(log) <==> NeverTakesLock(log)
  {
    hide Effect, Enabled, Exclusive, TakesLock;
    if log == [] {
      EmptyExclusive();
    } else {
      var rest := log[..|log| - 1];
      MutualExclusion(rest);
      AlwaysNow(rest);
      if Exclusive(After(rest)) {
        ExclusiveExact(After(rest), log[|log| - 1]);
      }
    }
  }

  lemma EmptyExclusive()
    ensures Exclusive(Empty()) && AttemptsBounded(Empty())
  {
  }

  lemma AlwaysNow(log: seq<Action>)
    requires Legal(log)
    ensures AlwaysExclusive(log) ==> Exclusive(After(log))
    ensures AlwaysBounded(log) ==> AttemptsBounded(After(log))
  {
  }

  /** A pg_locks row names the Redis owner of its key, as long as the key is held. */
  predicate RowsNameOwner(s: Sys) {
    forall key | key in s.pgJob && key in s.owner :: s.pgJob[key] == s.owner[key]
  }

  lemma RowsNameOwnerStep(s: Sys, a: Action)
    requires Enabled(s, a) && RowsNameOwner(s)
    ensures RowsNameOwner(Effect(s, a))
  {
  }

  /**
   * In every run, reclaiming a lock on the strength of its current pg_locks row marks the right job:
   * such a step never breaks exclusion. It takes a row read earlier, or another job, to do that.
   */
  lemma {:induction false} CurrentRowIsSafe(log: seq<Action>, key: LockKey)
    requires Legal(log)
    ensures RowsNameOwner(After(log))
    ensures key in After(log).pgJob ==> !TakesLock(After(log), Reclaim(key, Some(After(log).pgJob[key])))
  {
    hide Effect, Enabled;
    if log != [] {
      CurrentRowIsSafe(log[..|log| - 1], key);
      RowsNameOwnerStep(After(log[..|log| - 1]), log[|log| - 1]);
    }
  }

  /** A reported final status gives up the recorded lock, and with it the target lock. */
  lemma FinishReleasesBoth(s: Sys, j: JobId, st: JobStatus)
    requires Enabled(s, Finish(j, st)) && s.jobs[j].lockKey.Some?
    ensures var s' := Effect(s, Finish(j, st));
            !Owns(s', s.jobs[j].lockKey.value, j) &&
            (s.jobs[j].targetLock ==> !Owns(s', TargetPath(s.jobs[j].project), j))
  {
  }

  /** The keys an ended job is to free. */
  predicate ToFree(job: Job, key: LockKey, targetToo: bool) {
    job.lockKey.Some? && (key == job.lockKey.value || (targetToo && job.targetLock && key == TargetPath(job.project)))
  }

  /** Those keys the job owns are freed, with their rows if these name the job; all others stay as they are. */
  predicate FreesExactly(s: Sys, s': Sys, j: JobId, targetToo: bool)
    requires j < |s.jobs|
  {
    s'.owner == (map key | key in s.owner && !(s.owner[key] == j && ToFree(s.jobs[j], key, targetToo))
                     :: s.owner[key]) &&
    s'.pgJob == (map key | key in s.pgJob &&
                           !(s.pgJob[key] == j && Owns(s, key, j) && ToFree(s.jobs[j], key, targetToo))
                     :: s.pgJob[key])
  }

  lemma EndFreesExactly(s: Sys, j: JobId, a: Action)
    requires (a.Finish? || a.DeadLetter?) && a.job == j && Enabled(s, a)
    ensures FreesExactly(s, Effect(s, a), j, a.Finish?)
  {
    hide FreesExactly;
    if s.jobs[j].lockKey.None? {
      NothingFreed(s, Effect(s, a), j, a.Finish?);
    } else {
      var key := s.jobs[j].lockKey.value;
      if a.Finish? && s.jobs[j].targetLock {
        TwoFreed(s, Effect(s, a), j);
      } else {
        OneFreed(s, Effect(s, a), j, a.Finish?);
      }
    }
  }

  lemma NothingFreed(s: Sys, s': Sys, j: JobId, targetToo: bool)
    requires j < |s.jobs| && s.jobs[j].lockKey.None? && s'.owner == s.owner && s'.pgJob == s.pgJob
    ensures FreesExactly(s, s', j, targetToo)
  {
  }

  lemma OneFreed(s: Sys, s': Sys, j: JobId, targetToo: bool)
    requires j < |s.jobs| && s.jobs[j].lockKey.Some? && !(targetToo && s.jobs[j].targetLock)
    requires var r := Released(s, s.jobs[j].lockKey.value, j);
             s'.owner == r.owner && s'.pgJob == r.pgJob
    ensures FreesExactly(s, s', j, targetToo)
  {
  }

  lemma TwoFreed(s: Sys, s': Sys, j: JobId)
    requires j < |s.jobs| && s.jobs[j].lockKey.Some? && s.jobs[j].targetLock
    requires var r := Released(Released(s, s.jobs[j].lockKey.value, j), TargetPath(s.jobs[j].project), j);
             s'.owner == r.owner && s'.pgJob == r.pgJob
    ensures FreesExactly(s, s', j, true)
  {
  }

  /**
   * A new job waits exactly if it was told a blocker or its dependency can still complete; it starts with its
   * first attempt of three.
   */
  lemma InsertedExactly(s: Sys, project: ProjectId, crossMachine: bool, dependsOn: Option<JobId>,
                        blockedBy: Option<JobId>)
    requires Enabled(s, Insert(project, crossMachine, dependsOn, blockedBy))
    ensures var s' := Effect(s, Insert(project, crossMachine, dependsOn, blockedBy));
            var open := dependsOn.Some? &&
                        EvaluateDependencyGate(DependencyOf(s.jobs, dependsOn.value), project) == BlockDependency;
            s' == s.(jobs := s.jobs + [Job(project, if blockedBy.Some? || open then BLOCKED else QUEUED, 1, 3,
                                           crossMachine, dependsOn, blockedBy, None, false, false)])
  {
    hide IsTerminal;
  }

  /** The dead-letter path gives up the recorded lock only: a held target lock stays with the dead job. */
  lemma DeadLetterKeepsTarget(s: Sys, j: JobId)
    requires Enabled(s, DeadLetter(j)) && s.jobs[j].lockKey == Some(Generation(s.jobs[j].project))
    ensures var s' := Effect(s, DeadLetter(j));
            !Owns(s', Generation(s.jobs[j].project), j) &&
            (Owns(s', TargetPath(s.jobs[j].project), j) <==> Owns(s, TargetPath(s.jobs[j].project), j))
  {
  }

  // ---- Bounded attempts ----

  predicate AttemptsBounded(s: Sys) {
    forall j | 0 <= j < |s.jobs| :: 1 <= s.jobs[j].attempt <= s.jobs[j].maxAttempts
  }

  /** A stale job sent back to the queue although its attempts are used up. */
  predicate Overruns(s: Sys, a: Action) {
    a.RequeueStale? && a.job < |s.jobs| && s.jobs[a.job].attempt >= s.jobs[a.job].maxAttempts
  }

  lemma AttemptsExact(s: Sys, a: Action)
    requires AttemptsBounded(s) && Enabled(s, a)
    ensures AttemptsBounded(Effect(s, a)) <==> !Overruns(s, a)
  {
    hide Effect, Enabled;
    JobAdded(s, a);
    AttemptsStay(s, a);
    if a.Requeue? {
      RequeueBounded(s, a);
    }
    if Overruns(s, a) {
      assert AttemptStaysBounded(s, a, a.job);
    } else {
      var jobs := Effect(s, a).jobs;
      forall j | 0 <= j < |jobs| ensures 1 <= jobs[j].attempt <= jobs[j].maxAttempts {
        if j < |s.jobs| {
          assert AttemptStaysBounded(s, a, j);
        }
      }
    }
  }

  lemma AttemptsStay(s: Sys, a: Action)
    requires Enabled(s, a)
    ensures forall j | 0 <= j < |s.jobs| :: AttemptStaysBounded(s, a, j)
  {
    forall j | 0 <= j < |s.jobs| ensures AttemptStaysBounded(s, a, j) {
      JobAfter(s, a, j);
    }
  }

  predicate AttemptStaysBounded(s: Sys, a: Action, j: JobId)
    requires Enabled(s, a) && j < |s.jobs|
  {
    j < |Effect(s, a).jobs| &&
    Effect(s, a).jobs[j].maxAttempts == s.jobs[j].maxAttempts &&
    Effect(s, a).jobs[j].attempt == if Subject(a) == Some(j) then AttemptAfter(s.jobs[j], a) else s.jobs[j].attempt
  }

  lemma RequeueBounded(s: Sys, a: Action)
    requires Enabled(s, a) && a.Requeue?
    ensures s.jobs[a.job].attempt < s.jobs[a.job].maxAttempts
  {
  }

  predicate AlwaysBounded(log: seq<Action>)
    requires Legal(log)
  {
    AttemptsBounded(After(log)) && (log != [] ==> AlwaysBounded(log[..|log| - 1]))
  }

  predicate NeverOverruns(log: seq<Action>)
    requires Legal(log)
  {
    log != [] ==> NeverOverruns(log[..|log| - 1]) && !Overruns(After(log[..|log| - 1]), log[|log| - 1])
  }

  /** No attempt ever exceeds the maximum, exactly when no exhausted stale job is requeued. */
  lemma {:induction false} BoundedAttempts(log: seq<Action>)
    requires Legal(log)
    ensures AlwaysBounded(log) <==> NeverOverruns(log)
  {
    hide Effect, Enabled, AttemptsBounded, Overruns;
    if log == [] {
      EmptyExclusive();
    } else {
      var rest := log[..|log| - 1];
      BoundedAttempts(rest);
      AlwaysNow(rest);
      if AttemptsBounded(After(rest)) {
        AttemptsExact(After(rest), log[|log| - 1]);
      }
    }
  }

  /** The maximum is the column's default for every job, as no handler sets it. */
  lemma {:induction false} MaximumAlwaysDefault(log: seq<Action>)
    requires Legal(log)
    ensures forall j | 0 <= j < |After(log).jobs| :: After(log).jobs[j].maxAttempts == DEFAULT_MAX_ATTEMPTS
  {
    hide Effect, Enabled;
    if log != [] {
      var rest := log[..|log| - 1];
      MaximumAlwaysDefault(rest);
      JobAdded(After(rest), log[|log| - 1]);
      forall j | 0 <= j < |After(rest).jobs| ensures After(log).jobs[j].maxAttempts == DEFAULT_MAX_ATTEMPTS {
        JobAfter(After(rest), log[|log| - 1], j);
      }
    }
  }

  // ---- One dispatch per attempt ----

  /** Attempt numbers dispatched for a job since it was last brought back from the dead letters. */
  function Dispatched(log: seq<Action>, j: JobId): seq<nat> {
    if log == [] then []
    else
      var a, rest := log[|log| - 1], log[..|log| - 1];
      if a == RetryDeadLetter(j) then []
      else if a.StartDispatch? && a.job == j then Dispatched(rest, j) + [a.attempt]
      else Dispatched(rest, j)
  }

  predicate Increasing(s: seq<nat>) {
    forall i, k | 0 <= i < k < |s| :: s[i] < s[k]
  }

  /** A queued or blocked job has not used its current attempt number yet. */
  predicate AttemptsFresh(s: Sys, j: JobId, used: seq<nat>) {
    Increasing(used) && (used != [] ==> j < |s.jobs|) &&
    forall i | 0 <= i < |used| ::
      used[i] <= s.jobs[j].attempt &&
      (s.jobs[j].status.QUEUED? || s.jobs[j].status.BLOCKED? ==> used[i] < s.jobs[j].attempt)
  }

  /** What one action does to a job's attempt number and to its claim of not having used it. */
  lemma AttemptStep(s: Sys, a: Action, j: JobId)
    requires Enabled(s, a) && j < |s.jobs| && a != RetryDeadLetter(j)
    ensures var job, job' := s.jobs[j], Effect(s, a).jobs[j];
            job.attempt <= job'.attempt &&
            (job'.status.QUEUED? || job'.status.BLOCKED? ==>
               job.attempt < job'.attempt ||
               ((job.status.QUEUED? || job.status.BLOCKED?) && !(a.StartDispatch? && a.job == j)))
    ensures a.StartDispatch? && a.job == j ==> a.attempt == s.jobs[j].attempt && s.jobs[j].status.QUEUED?
  {
    JobAfter(s, a, j);
  }

  lemma FreshStep(s: Sys, a: Action, j: JobId, used: seq<nat>)
    requires Enabled(s, a) && AttemptsFresh(s, j, used)
    requires a.StartDispatch? && a.job == j ==> j < |s.jobs|
    ensures AttemptsFresh(Effect(s, a), j,
              if a == RetryDeadLetter(j) then []
              else if a.StartDispatch? && a.job == j then used + [a.attempt]
              else used)
  {
    if j < |s.jobs| && a != RetryDeadLetter(j) {
      EdgesStep(s, a);
      AttemptStep(s, a, j);
      hide Effect, Enabled;
      var used' := if a.StartDispatch? && a.job == j then used + [a.attempt] else used;
      forall i | 0 <= i < |used'| ensures used'[i] <= s.jobs[j].attempt {
        assert i < |used| ==> used'[i] == used[i];
      }
    }
  }

  lemma DispatchNamesJob(s: Sys, a: Action)
    requires Enabled(s, a) && a.StartDispatch?
    ensures a.job < |s.jobs|
  {
  }

  /**
   * Between dead-letter retries the attempt numbers a job is dispatched with strictly increase,
   * in every run: no attempt is dispatched twice.
   */
  lemma {:induction false} DispatchedOncePerAttempt(log: seq<Action>, j: JobId)
    requires Legal(log)
    ensures AttemptsFresh(After(log), j, Dispatched(log, j))
  {
    hide Effect, Enabled;
    if log != [] {
      var rest := log[..|log| - 1];
      DispatchedOncePerAttempt(rest, j);
      if log[|log| - 1].StartDispatch? {
        DispatchNamesJob(After(rest), log[|log| - 1]);
      }
      FreshStep(After(rest), log[|log| - 1], j, Dispatched(rest, j));
    }
  }

  // ---- Dependencies ----

  /** Dependencies point to older jobs of the same project, so they cannot form a cycle. */
  predicate DependenciesOlder(jobs: seq<Job>) {
    forall j | 0 <= j < |jobs| && jobs[j].dependsOn.Some? ::
      jobs[j].dependsOn.value < j && jobs[jobs[j].dependsOn.value].project == jobs[j].project
  }

  /** All direct and indirect dependencies of a job. */
  function AllDependencies(jobs: seq<Job>, j: JobId): set<JobId>
    requires DependenciesOlder(jobs) && j < |jobs|
  {
    if jobs[j].dependsOn.None? then {}
    else {jobs[j].dependsOn.value} + AllDependencies(jobs, jobs[j].dependsOn.value)
  }

  /** An action keeps the edges of existing jobs, and a new job points to an older one of its project. */
  lemma EdgesStep(s: Sys, a: Action)
    requires Enabled(s, a)
    ensures |s.jobs| <= |Effect(s, a).jobs|
    ensures forall j | 0 <= j < |s.jobs| ::
              Effect(s, a).jobs[j].dependsOn == s.jobs[j].dependsOn && Effect(s, a).jobs[j].project == s.jobs[j].project
    ensures DependenciesOlder(s.jobs) ==> DependenciesOlder(Effect(s, a).jobs)
  {
    JobAdded(s, a);
    forall j | 0 <= j < |s.jobs|
      ensures j < |Effect(s, a).jobs| && Effect(s, a).jobs[j].dependsOn == s.jobs[j].dependsOn &&
              Effect(s, a).jobs[j].project == s.jobs[j].project
    {
      JobAfter(s, a, j);
    }
    hide Effect;
  }

  lemma {:induction false} DependenciesAlwaysOlder(log: seq<Action>)
    requires Legal(log)
    ensures DependenciesOlder(After(log).jobs)
  {
    hide Effect, Enabled;
    if log != [] {
      var rest := log[..|log| - 1];
      DependenciesAlwaysOlder(rest);
      EdgesStep(After(rest), log[|log| - 1]);
    }
  }

  lemma {:induction false} AllOlderSameProject(jobs: seq<Job>, j: JobId, d: JobId)
    requires DependenciesOlder(jobs) && j < |jobs| && d in AllDependencies(jobs, j)
    ensures d < j && jobs[d].project == jobs[j].project
  {
    if d != jobs[j].dependsOn.value {
      AllOlderSameProject(jobs, jobs[j].dependsOn.value, d);
    }
  }

  /** Jobs keep project and dependency forever. */
  lemma {:induction false} EdgesKept(log: seq<Action>, n: nat)
    requires Legal(log) && n <= |log|
    ensures |At(log, n).jobs| <= |After(log).jobs|
    ensures forall j | 0 <= j < |At(log, n).jobs| ::
              After(log).jobs[j].dependsOn == At(log, n).jobs[j].dependsOn &&
              After(log).jobs[j].project == At(log, n).jobs[j].project
    decreases |log|
  {
    hide Effect, Enabled;
    if n == |log| {
      assert log[..n] == log;
    } else {
      var k := |log| - 1;
      LegalPrefix(log, k);
      EdgesKept(log[..k], n);
      AtPrefix(log, n, k);
      EdgesStep(After(log[..k]), log[k]);
    }
  }

  /** The job recorded as taking the slot belongs to the same project. */
  predicate BlockersInProject(jobs: seq<Job>) {
    forall j | 0 <= j < |jobs| && jobs[j].blockedBy.Some? ::
      jobs[j].blockedBy.value < |jobs| && jobs[jobs[j].blockedBy.value].project == jobs[j].project
  }

  lemma BlockerStep(s: Sys, a: Action, j: JobId)
    requires Enabled(s, a) && j < |Effect(s, a).jobs|
    ensures var b := Effect(s, a).jobs[j].blockedBy;
            b.Some? ==> if j < |s.jobs| then b == s.jobs[j].blockedBy
                        else b.value < |s.jobs| && s.jobs[b.value].project == Effect(s, a).jobs[j].project
  {
  }

  lemma {:induction false} BlockersAlwaysInProject(log: seq<Action>)
    requires Legal(log)
    ensures BlockersInProject(After(log).jobs)
  {
    hide Effect, Enabled;
    if log != [] {
      var rest, a := log[..|log| - 1], log[|log| - 1];
      BlockersAlwaysInProject(rest);
      EdgesStep(After(rest), a);
      forall j | 0 <= j < |After(log).jobs| && After(log).jobs[j].blockedBy.Some?
        ensures After(log).jobs[j].blockedBy.value < |After(log).jobs| &&
                After(log).jobs[After(log).jobs[j].blockedBy.value].project == After(log).jobs[j].project
      {
        BlockerStep(After(rest), a, j);
      }
    }
  }

  /** A status that only a dispatched job can have. */
  predicate IsStarted(s: JobStatus) {
    IsHolding(s) || s.COMPLETED?
  }

  predicate StartedBefore(log: seq<Action>, n: nat, j: JobId) {
    exists m | 0 <= m < n && m < |log| :: log[m].StartDispatch? && log[m].job == j
  }

  predicate CompletedBefore(log: seq<Action>, n: nat, j: JobId) {
    exists m | 0 <= m < n && m < |log| :: log[m] == Finish(j, COMPLETED)
  }

  lemma CauseStep(s: Sys, a: Action, j: JobId)
    requires Enabled(s, a) && j < |Effect(s, a).jobs|
    ensures IsStarted(Effect(s, a).jobs[j].status) ==>
              (j < |s.jobs| && IsStarted(s.jobs[j].status)) || (a.StartDispatch? && a.job == j)
    ensures Effect(s, a).jobs[j].status == COMPLETED ==>
              (j < |s.jobs| && s.jobs[j].status == COMPLETED) || a == Finish(j, COMPLETED)
  {
    JobAdded(s, a);
    if j < |s.jobs| {
      JobAfter(s, a, j);
    }
    hide Effect;
  }

  /** A job in a started status was dispatched, and a completed one was reported completed. */
  lemma {:induction false} StatusHasCause(log: seq<Action>, n: nat, j: JobId)
    requires Legal(log) && n <= |log| && j < |At(log, n).jobs|
    ensures IsStarted(At(log, n).jobs[j].status) ==> StartedBefore(log, n, j)
    ensures At(log, n).jobs[j].status == COMPLETED ==> CompletedBefore(log, n, j)
    decreases n
  {
    hide Effect, Enabled;
    if n > 0 {
      var k := n - 1;
      AtStep(log, k);
      CauseStep(At(log, k), log[k], j);
      if j < |At(log, k).jobs| {
        StatusHasCause(log, k, j);
      }
    }
  }

  /** A completion report is preceded by a dispatch of the same job. */
  lemma CompletionWasDispatched(log: seq<Action>, m: nat, j: JobId)
    requires Legal(log) && m < |log| && log[m] == Finish(j, COMPLETED)
    ensures StartedBefore(log, m, j)
  {
    AtStep(log, m);
    hide Effect;
    StatusHasCause(log, m, j);
  }

  /**
   * Every workflow dispatch of a job comes after a COMPLETED report for each of its direct and
   * indirect dependencies.
   */
  lemma {:induction false} DependenciesCompletedFirst(log: seq<Action>, n: nat, d: JobId)
    requires Legal(log) && n < |log| && log[n].StartDispatch? && log[n].job < |After(log).jobs|
    requires DependenciesOlder(After(log).jobs) && d in AllDependencies(After(log).jobs, log[n].job)
    ensures CompletedBefore(log, n, d)
    decreases log[n].job
  {
    var j := log[n].job;
    AtStep(log, n);
    EdgesKept(log, n);
    var s := At(log, n);
    var e := s.jobs[j].dependsOn.value;
    StatusHasCause(log, n, e);
    if d != e {
      var m :| 0 <= m < n && log[m] == Finish(e, COMPLETED);
      CompletionWasDispatched(log, m, e);
      var k :| 0 <= k < m && log[k].StartDispatch? && log[k].job == e;
      DependenciesCompletedFirst(log, k, d);
      var i :| 0 <= i < k && log[i] == Finish(d, COMPLETED);
      assert CompletedBefore(log, n, d);
    }
  }

  // ---- Ended jobs ----

  /** The action takes an ended job out of its status: a stale lock or stale row names it, or it is retried. */
  predicate Reopens(s: Sys, a: Action) {
    var j := match a
      case Reclaim(_, marked) => marked
      case MarkStale(j) => Some(j)
      case RetryDeadLetter(j) => Some(j)
      case _ => None;
    j.Some? && j.value < |s.jobs| && IsTerminal(s.jobs[j.value].status)
  }

  /** The jobs that have ended still have the same status. */
  predicate EndedKeep(s: Sys, s': Sys) {
    forall j | 0 <= j < |s.jobs| && IsTerminal(s.jobs[j].status) ::
      j < |s'.jobs| && s'.jobs[j].status == s.jobs[j].status
  }

  /** Of the actions on an ended job, only these change its status. */
  lemma EndedStatusAfter(s: Sys, a: Action, j: JobId)
    requires Enabled(s, a) && j < |s.jobs| && IsTerminal(s.jobs[j].status) && Subject(a) == Some(j)
    ensures StatusAfter(s.jobs[j], a) != s.jobs[j].status <==> a.Reclaim? || a.MarkStale? || a.RetryDeadLetter?
  {
    hide EvaluateDependencyGate, DependencyOf, DependencyMet, Owns;
  }

  /** One action leaves the status of every ended job alone exactly if it is no such action. */
  lemma EndedStepExactly(s: Sys, a: Action)
    requires Enabled(s, a)
    ensures EndedKeep(s, Effect(s, a)) <==> !Reopens(s, a)
  {
    hide Effect, Enabled, IsTerminal, StatusAfter;
    forall j | 0 <= j < |s.jobs| && IsTerminal(s.jobs[j].status)
      ensures j < |Effect(s, a).jobs|
      ensures Effect(s, a).jobs[j].status != s.jobs[j].status <==>
                Subject(a) == Some(j) && (a.Reclaim? || a.MarkStale? || a.RetryDeadLetter?)
    {
      JobAfter(s, a, j);
      if Subject(a) == Some(j) {
        EndedStatusAfter(s, a, j);
      }
    }
  }

  /** A job that has ended keeps its status in every later state. */
  ghost predicate EndedForGood(log: seq<Action>)
    requires Legal(log)
  {
    forall m, n | 0 <= m <= n <= |log| :: EndedKeep(At(log, m), At(log, n))
  }

  /**
   * The table of transitions makes ended statuses final, but only for reports. Over whole runs ended jobs
   * stay ended exactly if no reclaim or stale mark names one and none is retried from the dead letters.
   */
  lemma EndedForGoodExactly(log: seq<Action>)
    requires Legal(log)
    ensures EndedForGood(log) <==> forall i | 0 <= i < |log| :: !Reopens(At(log, i), log[i])
  {
    hide Effect, Enabled, At, Reopens, EndedKeep;
    if forall i | 0 <= i < |log| :: !Reopens(At(log, i), log[i]) {
      forall m, n | 0 <= m <= n <= |log| ensures EndedKeep(At(log, m), At(log, n)) {
        EndedKept(log, m, n);
      }
    }
    if EndedForGood(log) {
      forall i | 0 <= i < |log| ensures !Reopens(At(log, i), log[i]) {
        AtStep(log, i);
        EndedStepExactly(At(log, i), log[i]);
        assert EndedKeep(At(log, i), At(log, i + 1));
      }
    }
  }

  lemma EndedKeepChains(s: Sys, s': Sys, s'': Sys)
    requires EndedKeep(s, s') && EndedKeep(s', s'')
    ensures EndedKeep(s, s'')
  {
    hide IsTerminal;
  }

  lemma EndedKeepSame(s: Sys)
    ensures EndedKeep(s, s)
  {
  }

  lemma {:induction false} EndedKept(log: seq<Action>, m: nat, n: nat)
    requires Legal(log) && m <= n <= |log| && forall i | 0 <= i < |log| :: !Reopens(At(log, i), log[i])
    ensures EndedKeep(At(log, m), At(log, n))
    decreases n
  {
    hide Effect, Enabled, At, Reopens, EndedKeep;
    if m == n {
      EndedKeepSame(At(log, m));
    } else {
      EndedKept(log, m, n - 1);
      AtStep(log, n - 1);
      EndedStepExactly(At(log, n - 1), log[n - 1]);
      EndedKeepChains(At(log, m), At(log, n - 1), At(log, n));
    }
  }

  // ---- No skipped phases ----

  /** The statuses a job goes through, repetitions removed. */
  function StatusHistory(log: seq<Action>, j: JobId): seq<JobStatus>
    requires Legal(log)
  {
    if log == [] then []
    else
      var h := StatusHistory(log[..|log| - 1], j);
      if j >= |After(log).jobs| then h
      else
        var st := After(log).jobs[j].status;
        if h != [] && h[|h| - 1] == st then h else h + [st]
  }

  /** The one status a phase can follow, where there is only one. */
  function PhaseBefore(st: JobStatus): Option<JobStatus> {
    match st
    case VALIDATING => Some(STAGING)
    case VALIDATION_REPORT => Some(VALIDATING)
    case COMMITTING => Some(VALIDATION_REPORT)
    case POST_COMMIT_VERIFY => Some(COMMITTING)
    case COMPLETED => Some(POST_COMMIT_VERIFY)
    case ROLLBACK => Some(POST_COMMIT_VERIFY)
    case DISPATCHING => Some(QUEUED)
    case _ => None
  }

  predicate PhasesFollow(h: seq<JobStatus>) {
    forall i | 0 <= i < |h| && PhaseBefore(h[i]).Some? :: i > 0 && h[i - 1] == PhaseBefore(h[i]).value
  }

  lemma PhaseStep(s: Sys, a: Action, j: JobId)
    requires Enabled(s, a) && j < |Effect(s, a).jobs|
    ensures var st := Effect(s, a).jobs[j].status;
            PhaseBefore(st).Some? ==> j < |s.jobs| && s.jobs[j].status in {st, PhaseBefore(st).value}
  {
    JobAdded(s, a);
    if j < |s.jobs| {
      JobAfter(s, a, j);
    }
    hide Effect;
  }

  lemma PhaseAppended(h: seq<JobStatus>, st: JobStatus)
    requires PhasesFollow(h)
    requires PhaseBefore(st).Some? ==> h != [] && h[|h| - 1] in {st, PhaseBefore(st).value}
    ensures PhasesFollow(if h != [] && h[|h| - 1] == st then h else h + [st])
  {
  }

  lemma {:induction false} HistoryFollowsPhases(log: seq<Action>, j: JobId)
    requires Legal(log)
    ensures var h := StatusHistory(log, j);
            PhasesFollow(h) &&
            (j < |After(log).jobs| ==> h != [] && h[|h| - 1] == After(log).jobs[j].status) &&
            (j >= |After(log).jobs| ==> h == [])
  {
    hide Effect, Enabled, PhaseBefore;
    if log != [] {
      var rest := log[..|log| - 1];
      HistoryFollowsPhases(rest, j);
      EdgesStep(After(rest), log[|log| - 1]);
      if j < |After(log).jobs| {
        PhaseStep(After(rest), log[|log| - 1], j);
        PhaseAppended(StatusHistory(rest, j), After(log).jobs[j].status);
      }
    }
  }

  /**
   * No phase is skipped: wherever a job's history shows COMPLETED, the five entries before it are
   * staging, validation, report, commit and verification, in this order.
   */
  lemma NoSkippedPhases(log: seq<Action>, j: JobId, i: nat)
    requires Legal(log) && i < |StatusHistory(log, j)| && StatusHistory(log, j)[i] == COMPLETED
    ensures i >= 5
    ensures StatusHistory(log, j)[i - 5..i] == [STAGING, VALIDATING, VALIDATION_REPORT, COMMITTING, POST_COMMIT_VERIFY]
  {
    HistoryFollowsPhases(log, j);
    hide *;
    FivePhasesBefore(StatusHistory(log, j), i);
  }

  lemma FivePhasesBefore(h: seq<JobStatus>, i: nat)
    requires PhasesFollow(h) && i < |h| && h[i] == COMPLETED
    ensures i >= 5 && h[i - 5..i] == [STAGING, VALIDATING, VALIDATION_REPORT, COMMITTING, POST_COMMIT_VERIFY]
  {
    assert h[i - 1] == POST_COMMIT_VERIFY;
    assert h[i - 2] == COMMITTING;
    assert h[i - 3] == VALIDATION_REPORT;
    assert h[i - 4] == VALIDATING;
    assert h[i - 5] == STAGING;
  }
}
