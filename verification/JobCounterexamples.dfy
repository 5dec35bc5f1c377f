/**
 * Runs the handlers allow in which a guarantee fails. In the first two, an administrator reclaims a
 * generation lock while two unfinished jobs of the project are recorded under it.
 */
module JobCounterexamples {
  import opened Wrappers
  import opened JobStatuses
  import opened DependencyGates
  import opened JobModel
  import opened JobTheorems

  /** A legal log that ends in the state. */
  predicate Reaches(log: seq<Action>, s: Sys) {
    Legal(log) && After(log) == s
  }

  ghost predicate Reachable(s: Sys) {
    exists log :: Reaches(log, s)
  }

  lemma Step(log: seq<Action>, s: Sys, a: Action, s': Sys)
    requires Reaches(log, s) && Enabled(s, a) && Effect(s, a) == s'
    ensures Reaches(log + [a], s')
  {
    hide Effect, Enabled;
    LegalAppend(log, a);
  }

  lemma ReachStep(s: Sys, a: Action, s': Sys)
    requires Reachable(s) && Enabled(s, a) && Effect(s, a) == s'
    ensures Reachable(s')
  {
    hide Effect, Enabled, Reaches;
    var log :| Reaches(log, s);
    Step(log, s, a, s');
  }

  lemma NothingYet()
    ensures Reaches([], Empty())
  {
  }

  const GENERATION := Generation(0)
  const TARGET := TargetPath(0)

  /** Jobs of project 0 that commit on their own machine, and the holder of the generation lock. */
  function Local(status: JobStatus, attempt: nat, recorded: bool := true, completed: bool := false): Job {
    var lockKey := if recorded then Some(GENERATION) else None;
    Job(0, status, attempt, DEFAULT_MAX_ATTEMPTS, false, None, None, lockKey, false, completed)
  }

  function With(jobs: seq<Job>, holder: Option<JobId>): Sys {
    var locks := if holder.Some? then map[GENERATION := holder.value] else map[];
    Sys(jobs, locks, locks)
  }

  predicate Dispatchable(s: Sys, j: JobId) {
    j < |s.jobs| && s.jobs[j] == Local(QUEUED, s.jobs[j].attempt, s.jobs[j].lockKey.Some?, s.jobs[j].completed) &&
    (s == With(s.jobs, None) || s == With(s.jobs, Some(j)))
  }

  /** The job takes the lock and is dispatched. */
  lemma Dispatch(s: Sys, j: JobId)
    requires Reachable(s) && Dispatchable(s, j)
    ensures Reachable(With(s.jobs[j := s.jobs[j].(status := DISPATCHING, lockKey := Some(GENERATION))], Some(j)))
  {
    hide Reachable;
    var s1 := With(s.jobs, Some(j));
    assert s1.owner == s.owner[GENERATION := j] && s1.pgJob == s.pgJob[GENERATION := j];
    ReachStep(s, AcquireLock(GENERATION, j), s1);
    ReachStep(s1, StartDispatch(j, s.jobs[j].attempt),
              With(s.jobs[j := s.jobs[j].(status := DISPATCHING, lockKey := Some(GENERATION))], Some(j)));
  }

  /** After its last attempt was refused: the lock is free, but the job's row still names it. */
  function Ended(s: Sys, j: JobId): Sys
    requires j < |s.jobs|
  {
    With(s.jobs[j := Local(DEAD_LETTER, DEFAULT_MAX_ATTEMPTS, true, true)], None)
  }

  /** Every dispatch of a job may be refused until it is in the dead letters. */
  lemma {:induction false} RefusedToTheEnd(s: Sys, j: JobId)
    requires Reachable(s) && Dispatchable(s, j) && s.jobs[j].attempt <= DEFAULT_MAX_ATTEMPTS
    ensures Reachable(Ended(s, j))
    decreases DEFAULT_MAX_ATTEMPTS - s.jobs[j].attempt
  {
    hide Reachable;
    Dispatch(s, j);
    var job := s.jobs[j].(lockKey := Some(GENERATION));
    var s1 := With(s.jobs[j := job.(status := DISPATCHING)], Some(j));
    var s2 := With(s.jobs[j := job.(status := DISPATCH_FAILED)], Some(j));
    assert s1.jobs[j := s2.jobs[j]] == s2.jobs;
    ReachStep(s1, Advance(j, DISPATCH_FAILED), s2);
    if job.attempt < DEFAULT_MAX_ATTEMPTS {
      var next := job.(status := QUEUED, attempt := job.attempt + 1, completed := false);
      var s3 := With(s.jobs[j := next], Some(j));
      assert s2.jobs[j := next] == s3.jobs;
      ReachStep(s2, Requeue(j), s3);
      RefusedToTheEnd(s3, j);
      assert Ended(s3, j) == Ended(s, j);
    } else {
      var last := Local(DEAD_LETTER, DEFAULT_MAX_ATTEMPTS, true, true);
      assert s2.jobs[j := last] == Ended(s, j).jobs;
      assert s2.owner - {GENERATION} == map[];
      ReachStep(s2, DeadLetter(j), Ended(s, j));
    }
  }

  const FRESH := Local(QUEUED, 1, false)

  lemma FirstJobEnds()
    ensures Reachable(With([Local(DEAD_LETTER, 3, true, true)], None))
  {
    NothingYet();
    hide Legal, After;
    assert Reachable(Empty());
    hide Reachable;
    ReachStep(Empty(), Insert(0, false, None, None), With([FRESH], None));
    RefusedToTheEnd(With([FRESH], None), 0);
    assert [FRESH][0 := Local(DEAD_LETTER, 3, true, true)] == [Local(DEAD_LETTER, 3, true, true)];
  }

  /** Job 0 blocked with its lock recorded, job 1 being worked on. */
  const TOGETHER := With([Local(BLOCKED, 1), Local(STAGING, 1)], Some(1))

  /**
   * Job 0 is refused three times. Job 1 starts. Job 0 is retried from the dead letters, finds the lock held
   * and is blocked; its row still names the lock.
   */
  lemma RetriedWhileHeld()
    ensures Reachable(TOGETHER)
  {
    FirstJobEnds();
    hide Reachable;
    var gone := Local(DEAD_LETTER, 3, true, true);
    ReachStep(With([gone], None), Insert(0, false, None, None), With([gone, FRESH], None));
    Dispatch(With([gone, FRESH], None), 1);
    assert [gone, FRESH][1 := Local(DISPATCHING, 1)] == [gone, Local(DISPATCHING, 1)];
    ReachStep(With([gone, Local(DISPATCHING, 1)], Some(1)), Advance(1, STAGING),
              With([gone, Local(STAGING, 1)], Some(1)));
    var retried := With([Local(QUEUED, 1), Local(STAGING, 1)], Some(1));
    ReachStep(With([gone, Local(STAGING, 1)], Some(1)), RetryDeadLetter(0), retried);
    ReachStep(retried, Block(0, LockHeld(GENERATION)), TOGETHER);
  }

  /**
   * The reclaim handles job 0 first: it is dispatched on the freed lock while job 1 is still being
   * worked on, so two jobs of one project are.
   */
  lemma ReclaimStartsSecondWorker()
    ensures exists s :: Reachable(s) && Holding(s, 0) && Holding(s, 1) && s.jobs[0].project == s.jobs[1].project
  {
    RetriedWhileHeld();
    hide Reachable;
    var working := Local(STAGING, 1);
    var s1 := With([Local(LOCK_STALE, 1, false), working], None);
    ReachStep(TOGETHER, Reclaim(GENERATION, Some(0)), s1);
    var s2 := With([Local(QUEUED, 2, false), working], None);
    ReachStep(s1, RequeueStale(0), s2);
    Dispatch(s2, 0);
    var s3 := With([Local(DISPATCHING, 2), working], Some(0));
    assert s2.jobs[0 := Local(DISPATCHING, 2)] == s3.jobs;
    assert Holding(s3, 0) && Holding(s3, 1);
  }

  /**
   * The reclaim handles job 1 first. Job 1 is refused to the end, which promotes job 0, and that one is
   * refused to the end as well. The reclaim then goes by the one attempt it read at the start: job 0 gets
   * a fourth attempt out of three, without anyone retrying it.
   */
  lemma ReclaimOverrunsAttempts()
    ensures exists s :: Reachable(s) && |s.jobs| > 0 && s.jobs[0].attempt > s.jobs[0].maxAttempts
  {
    RetriedWhileHeld();
    hide Reachable;
    var gone := Local(DEAD_LETTER, 3, true, true);
    var s1 := With([Local(BLOCKED, 1), Local(LOCK_STALE, 1, false)], None);
    ReachStep(TOGETHER, Reclaim(GENERATION, Some(1)), s1);
    var s2 := With([Local(BLOCKED, 1), Local(QUEUED, 2, false)], None);
    ReachStep(s1, RequeueStale(1), s2);
    RefusedToTheEnd(s2, 1);
    assert s2.jobs[1 := gone] == [Local(BLOCKED, 1), gone];
    var s3 := With([Local(QUEUED, 1), gone], None);
    ReachStep(With([Local(BLOCKED, 1), gone], None), PromoteJob(0), s3);
    RefusedToTheEnd(s3, 0);
    assert s3.jobs[0 := gone] == [gone, gone];
    var s4 := With([Local(LOCK_STALE, 3, false, true), gone], None);
    ReachStep(With([gone, gone], None), MarkStale(0), s4);
    var s5 := With([Local(QUEUED, 4, false, true), gone], None);
    ReachStep(s4, RequeueStale(0), s5);
    assert s5.jobs[0].attempt == 4;
  }

  // ---- A finished job that comes back ----

  /** The only job, committing across machines; both locks are its own where they are held. */
  function Remote(status: JobStatus, attempt: nat, completed: bool := false): Job {
    Job(0, status, attempt, DEFAULT_MAX_ATTEMPTS, true, None, None, Some(GENERATION), true, completed)
  }

  const BOTH: map<LockKey, JobId> := map[GENERATION := 0, TARGET := 0]

  lemma Go(log: seq<Action>, s: Sys, a: Action, s': Sys) returns (longer: seq<Action>)
    requires Reaches(log, s) && Enabled(s, a) && Effect(s, a) == s'
    ensures Reaches(longer, s') && longer == log + [a]
  {
    hide Enabled, Effect, Reaches;
    Step(log, s, a, s');
    longer := log + [a];
  }

  lemma Reports(log: seq<Action>, from: JobStatus, to: JobStatus) returns (longer: seq<Action>)
    requires Reaches(log, Sys([Remote(from, 1)], BOTH, BOTH)) && CanTransition(from, to) && IsWorkerStatus(to) &&
             !IsTerminal(to)
    ensures Reaches(longer, Sys([Remote(to, 1)], BOTH, BOTH))
  {
    hide Reaches;
    longer := Go(log, Sys([Remote(from, 1)], BOTH, BOTH), Advance(0, to), Sys([Remote(to, 1)], BOTH, BOTH));
  }

  const GEN_ONLY: map<LockKey, JobId> := map[GENERATION := 0]
  const TARGET_ONLY: map<LockKey, JobId> := map[TARGET := 0]

  lemma LockMaps()
    ensures BOTH - {TARGET} == GEN_ONLY && BOTH - {GENERATION} == TARGET_ONLY
    ensures TARGET_ONLY - {TARGET} == map[] && GEN_ONLY - {GENERATION} == map[]
    ensures map[][GENERATION := 0] == GEN_ONLY && GEN_ONLY[TARGET := 0] == BOTH
  {
  }

  /** A queued job takes both locks and is dispatched. */
  lemma RemoteDispatch(log: seq<Action>, job: Job) returns (longer: seq<Action>)
    requires job == Remote(QUEUED, job.attempt, job.completed).(lockKey := None, targetLock := job.targetLock)
    requires Reaches(log, Sys([job], map[], map[]))
    ensures longer == log + [AcquireLock(GENERATION, 0), AcquireLock(TARGET, 0), StartDispatch(0, job.attempt)]
    ensures Reaches(longer, Sys([Remote(DISPATCHING, job.attempt, job.completed)], BOTH, BOTH))
  {
    LockMaps();
    hide Reaches;
    longer := Go(log, Sys([job], map[], map[]), AcquireLock(GENERATION, 0), Sys([job], GEN_ONLY, GEN_ONLY));
    longer := Go(longer, Sys([job], GEN_ONLY, GEN_ONLY), AcquireLock(TARGET, 0), Sys([job], BOTH, BOTH));
    longer := Go(longer, Sys([job], BOTH, BOTH), StartDispatch(0, job.attempt),
                 Sys([Remote(DISPATCHING, job.attempt, job.completed)], BOTH, BOTH));
  }

  /** It is dispatched, and its worker goes through all phases. */
  lemma RemoteJobVerifies() returns (log: seq<Action>)
    ensures Reaches(log, Sys([Remote(POST_COMMIT_VERIFY, 1)], BOTH, BOTH))
  {
    NothingYet();
    hide Reaches;
    var queued := Job(0, QUEUED, 1, DEFAULT_MAX_ATTEMPTS, true, None, None, None, false, false);
    log := Go([], Empty(), Insert(0, true, None, None), Sys([queued], map[], map[]));
    log := RemoteDispatch(log, queued);
    log := Reports(log, DISPATCHING, STAGING);
    log := Reports(log, STAGING, VALIDATING);
    log := Reports(log, VALIDATING, VALIDATION_REPORT);
    log := Reports(log, VALIDATION_REPORT, COMMITTING);
    log := Reports(log, COMMITTING, POST_COMMIT_VERIFY);
  }

  /** The target lock, which nothing refreshes, expires in Redis, and the final report leaves its pg_locks row. */
  lemma CompletedWithoutTarget() returns (log: seq<Action>)
    ensures Reaches(log + [Finish(0, COMPLETED)], Sys([Remote(COMPLETED, 1, true)], map[], TARGET_ONLY))
  {
    log := RemoteJobVerifies();
    LockMaps();
    hide Reaches;
    var verifying := Remote(POST_COMMIT_VERIFY, 1);
    var s1 := Sys([verifying], GEN_ONLY, BOTH);
    log := Go(log, Sys([verifying], BOTH, BOTH), LoseOwner(TARGET), s1);
    var longer := Go(log, s1, Finish(0, COMPLETED), Sys([Remote(COMPLETED, 1, true)], map[], TARGET_ONLY));
  }

  /**
   * The next scan reclaims that row in the name of the completed job, which is requeued and dispatched
   * again, as its second attempt.
   */
  lemma CompletedIsDispatchedAgain() returns (log: seq<Action>, m: nat)
    ensures Legal(log) && m + 1 < |log| && log[m] == Finish(0, COMPLETED) && log[|log| - 1] == StartDispatch(0, 2)
  {
    log := CompletedWithoutTarget();
    LockMaps();
    hide Reaches;
    m := |log|;
    log := log + [Finish(0, COMPLETED)];
    var stale := Remote(LOCK_STALE, 1, true).(lockKey := None);
    log := Go(log, Sys([Remote(COMPLETED, 1, true)], map[], TARGET_ONLY), Reclaim(TARGET, Some(0)),
              Sys([stale], map[], map[]));
    var queued := stale.(status := QUEUED, attempt := 2);
    log := Go(log, Sys([stale], map[], map[]), RequeueStale(0), Sys([queued], map[], map[]));
    log := RemoteDispatch(log, queued);
    LegalOf(log, Sys([Remote(DISPATCHING, 2, true)], BOTH, BOTH));
  }

  lemma LegalOf(log: seq<Action>, s: Sys)
    requires Reaches(log, s)
    ensures Legal(log)
  {
  }
}
