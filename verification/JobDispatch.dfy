/**
 * What a dispatch writes, as a function of the tables and of the answers it gets from the lock service, the
 * provisioner, the secret store and GitHub; and what the follow-ups of a report write.
 */
module JobDispatches {
  import opened Wrappers
  import opened JobStatuses
  import opened DependencyGates
  import opened JobModel
  import JobTheorems

  // ---- Answers from outside ----

  /**
   * How a lock call ends, apart from a denial: as asked, with an error reply, without an answer, with a failed
   * transaction, or with a transaction that committed although the answer was lost.
   */
  datatype LockReply = Answered | ErrorReply | Unreachable | RolledBack | AckLost

  datatype Answers = Answers(
    generation: LockReply, target: LockReply, provisioned: bool, sealed: bool, dispatched: bool)

  // ---- One dispatch ----

  /** How a stretch of writes ends: the handler goes on, returns, or throws. */
  datatype Verdict = GoesOn | Returns | Throws

  datatype Opening = Opening(writes: seq<Action>, verdict: Verdict)

  /** Whether a lock call throws; a denied one runs no transaction. */
  predicate CallThrows(taken: bool, reply: LockReply) {
    reply.ErrorReply? || reply.Unreachable? || (!taken && !reply.Answered?)
  }

  function CallWrites(taken: bool, reply: LockReply, key: LockKey, j: JobId): seq<Action> {
    if taken then []
    else
      match reply
      case Answered => [AcquireLock(key, j)]
      case RolledBack => [DropOwner(key, j)]
      case AckLost => [AcquireLock(key, j), DropOwner(key, j)]
      case _ => []
  }

  /** The target lock of a cross-machine commit, with the generation lock in hand. */
  function TargetOpening(s: Sys, j: JobId, a: Answers, n: nat): Opening
    requires j < |s.jobs|
  {
    var (generation, target) := (Generation(s.jobs[j].project), TargetPath(s.jobs[j].project));
    var taken := Taken(s, target, j);
    if a.target.ErrorReply? then Opening([ReleaseLock(generation, j), Block(j, TargetError(n))], Returns)
    else if CallThrows(taken, a.target) then Opening(CallWrites(taken, a.target, target, j), Throws)
    else if taken then Opening([ReleaseLock(generation, j), Block(j, LockHeld(target))], Returns)
    else Opening([AcquireLock(target, j)], GoesOn)
  }

  function LockOpening(s: Sys, j: JobId, a: Answers, n: nat): Opening
    requires j < |s.jobs|
  {
    var generation := Generation(s.jobs[j].project);
    var taken := Taken(s, generation, j);
    if CallThrows(taken, a.generation) then Opening(CallWrites(taken, a.generation, generation, j), Throws)
    else if taken then Opening([Block(j, LockHeld(generation))], Returns)
    else if !s.jobs[j].crossMachine then Opening([AcquireLock(generation, j)], GoesOn)
    else
      var t := TargetOpening(s, j, a, n);
      t.(writes := [AcquireLock(generation, j)] + t.writes)
  }

  /** What follows a failure of the job: the next attempt, or its end. */
  function Retry(job: Job, j: JobId): Action {
    if job.attempt < job.maxAttempts then Requeue(j) else JobModel.DeadLetter(j)
  }

  /** What is done with the locks in hand. */
  function WorkOpening(job: Job, j: JobId, a: Answers): Opening {
    if job.crossMachine && !a.provisioned then
      Opening([ReleaseLock(Generation(job.project), j), ReleaseLock(TargetPath(job.project), j),
               Advance(j, DISPATCH_FAILED), Retry(job, j)], GoesOn)
    else if !a.sealed then Opening([], Throws)
    else if !a.dispatched then
      Opening([StartDispatch(j, job.attempt), Advance(j, DISPATCH_FAILED), Retry(job, j)], GoesOn)
    else Opening([StartDispatch(j, job.attempt)], Returns)
  }

  /** The first writes of the n-th dispatch, on a queued job, up to the retry of a failed one. */
  function DispatchOpening(s: Sys, j: JobId, a: Answers, n: nat): Opening
    requires j < |s.jobs|
  {
    var job := s.jobs[j];
    var gate := if job.dependsOn.None? then Allow
                else EvaluateDependencyGate(DependencyOf(s.jobs, job.dependsOn.value), job.project);
    match gate
    case DepFailed => Opening([], Throws)
    case BlockDependency => Opening([Block(j, OpenDependency)], Returns)
    case Allow =>
      var locks := LockOpening(s, j, a, n);
      if !locks.verdict.GoesOn? then locks
      else
        var work := WorkOpening(job, j, a);
        work.(writes := locks.writes + work.writes)
  }

  /** The log after the call starts as said; if the dispatch does not go on, it ends there, and so does the call. */
  predicate Opens(s: Sys, before: seq<Action>, log: seq<Action>, ok: bool, j: JobId, a: Answers, n: nat) {
    j < |s.jobs| &&
    var o := DispatchOpening(s, j, a, n);
    before + o.writes <= log && (!o.verdict.GoesOn? ==> log == before + o.writes && ok == o.verdict.Returns?)
  }

  // ---- What the opening means ----

  /** The dependency is met and nobody else has a lock the job needs. */
  ghost predicate Startable(s: Sys, j: JobId) {
    j < |s.jobs| && DependencyMet(s.jobs, s.jobs[j]) && forall key | NeedsLock(s.jobs[j], key) :: !Taken(s, key, j)
  }

  /** The acquisitions and the dispatch. */
  function StartWrites(job: Job, j: JobId): seq<Action> {
    [AcquireLock(Generation(job.project), j)] +
    (if job.crossMachine then [AcquireLock(TargetPath(job.project), j)] else []) +
    [StartDispatch(j, job.attempt)]
  }

  /** The answers that a job asks for are positive. */
  predicate Favours(a: Answers, job: Job) {
    a.generation.Answered? && (job.crossMachine ==> a.target.Answered? && a.provisioned) && a.sealed && a.dispatched
  }

  /**
   * A job is dispatched exactly if its dependency is met, no needed lock is taken and every answer is positive;
   * then its locks are acquired, the workflow is called for its attempt, and nothing else is written.
   */
  lemma StartsExactly(s: Sys, j: JobId, a: Answers, n: nat)
    requires j < |s.jobs|
    ensures var o := DispatchOpening(s, j, a, n);
            o == Opening(StartWrites(s.jobs[j], j), Returns) <==> Startable(s, j) && Favours(a, s.jobs[j])
  {
    var job := s.jobs[j];
    var (g, t) := (Generation(job.project), TargetPath(job.project));
    assert NeedsLock(job, g) && (job.crossMachine ==> NeedsLock(job, t));
    assert Startable(s, j) <==> DependencyMet(s.jobs, job) && !Taken(s, g, j) && (job.crossMachine ==> !Taken(s, t, j));
    hide Taken, EvaluateDependencyGate, Startable;
    var o, w := DispatchOpening(s, j, a, n), StartWrites(job, j);
    assert |w| == (if job.crossMachine then 3 else 2) && w[|w| - 1] == StartDispatch(j, job.attempt);
    if o.verdict.Returns? {
      assert |o.writes| > 0;
    }
  }

  /** The lock service says who has the lock, rather than failing. */
  predicate Heard(reply: LockReply) {
    !reply.ErrorReply? && !reply.Unreachable?
  }

  /** The dependency is met and the generation lock granted. */
  predicate FirstGranted(s: Sys, j: JobId, a: Answers)
    requires j < |s.jobs|
  {
    DependencyMet(s.jobs, s.jobs[j]) && !Taken(s, Generation(s.jobs[j].project), j) && a.generation.Answered?
  }

  /**
   * A dispatch blocks the job for an open dependency exactly if it is open; for a lock exactly if it is needed,
   * another job has it, and the calls before it went well; and for the error reply to the second lock call.
   */
  lemma BlocksExactly(s: Sys, j: JobId, a: Answers, n: nat, reason: BlockReason)
    requires j < |s.jobs|
    ensures Block(j, reason) in DispatchOpening(s, j, a, n).writes <==>
              Justifies(s, j, reason) &&
              match reason
              case OpenDependency => true
              case LockHeld(key) =>
                if key.Generation? then DependencyMet(s.jobs, s.jobs[j]) && Heard(a.generation)
                else FirstGranted(s, j, a) && Heard(a.target)
              case TargetError(m) => FirstGranted(s, j, a) && a.target.ErrorReply? && m == n
  {
    hide EvaluateDependencyGate, Taken;
  }

  /** In every run a job is only blocked for such a reason. */
  lemma BlockedForReason(log: seq<Action>, i: nat)
    requires Legal(log) && i < |log| && log[i].Block?
    ensures var (s, j) := (JobTheorems.At(log, i), log[i].job);
            j < |s.jobs| &&
            match log[i].reason
            case OpenDependency =>
              s.jobs[j].dependsOn.Some? && s.jobs[j].dependsOn.value < |s.jobs| &&
              !IsTerminal(s.jobs[s.jobs[j].dependsOn.value].status)
            case LockHeld(key) => NeedsLock(s.jobs[j], key) && key in s.owner && s.owner[key] != j
            case TargetError(_) => s.jobs[j].crossMachine
  {
    JobTheorems.AtStep(log, i);
    hide Effect, Legal, After, JobTheorems.At;
  }

  /** The tables with the job dispatched and its locks in hand, the others as before. */
  ghost predicate Started(s: Sys, s': Sys, j: JobId)
    requires j < |s.jobs|
  {
    var job := s.jobs[j];
    s'.jobs == s.jobs[j := job.(status := DISPATCHING, lockKey := Some(Generation(job.project)),
                                targetLock := job.targetLock || job.crossMachine)] &&
    (forall key | NeedsLock(job, key) :: Owns(s', key, j) && key in s'.pgJob && s'.pgJob[key] == j) &&
    (forall key | !NeedsLock(job, key) :: key in s'.owner <==> key in s.owner) &&
    forall key | !NeedsLock(job, key) && key in s.owner :: s'.owner[key] == s.owner[key]
  }

  lemma StartEffects(s: Sys, s1: Sys, s2: Sys, s3: Sys, j: JobId)
    requires j < |s.jobs|
    requires s1 == s.(owner := s.owner[Generation(s.jobs[j].project) := j],
                      pgJob := s.pgJob[Generation(s.jobs[j].project) := j])
    requires if s.jobs[j].crossMachine
             then s2 == s1.(owner := s1.owner[TargetPath(s.jobs[j].project) := j],
                            pgJob := s1.pgJob[TargetPath(s.jobs[j].project) := j])
             else s2 == s1
    requires Enabled(s2, StartDispatch(j, s.jobs[j].attempt)) && s3 == Effect(s2, StartDispatch(j, s.jobs[j].attempt))
    ensures Started(s, s3, j)
  {
    hide Enabled;
  }

  lemma StartedState(before: seq<Action>, log: seq<Action>, j: JobId)
    requires Legal(before) && Legal(log) && j < |After(before).jobs|
    requires log == before + StartWrites(After(before).jobs[j], j)
    ensures Started(After(before), After(log), j)
  {
    hide Legal, After;
    var s := After(before);
    var job := s.jobs[j];
    var first := before + [AcquireLock(Generation(job.project), j)];
    var second := first + if job.crossMachine then [AcquireLock(TargetPath(job.project), j)] else [];
    assert log == second + [StartDispatch(j, job.attempt)];
    LastEffect(log, second, StartDispatch(j, job.attempt));
    if job.crossMachine {
      LastEffect(second, first, AcquireLock(TargetPath(job.project), j));
    }
    assert second == first || job.crossMachine;
    LastEffect(first, before, AcquireLock(Generation(job.project), j));
    StartEffects(s, After(first), After(second), After(log), j);
  }

  /**
   * A queued job whose dependency is met and whose locks nobody else has is dispatched if every answer it asks
   * for is positive: the call succeeds, its locks and the dispatch are the only writes, and the job is dispatched.
   */
  lemma DispatchStarts(before: seq<Action>, log: seq<Action>, ok: bool, j: JobId, a: Answers, n: nat)
    requires Legal(before) && Legal(log) && Opens(After(before), before, log, ok, j, a, n)
    requires Startable(After(before), j) && Favours(a, After(before).jobs[j])
    ensures ok && log == before + StartWrites(After(before).jobs[j], j)
    ensures Started(After(before), After(log), j)
  {
    StartsExactly(After(before), j, a, n);
    hide DispatchOpening, Legal, After, Startable, Favours, StartWrites;
    StartedState(before, log, j);
  }

  /** The acquisitions alone. */
  function LockWrites(job: Job, j: JobId): seq<Action> {
    [AcquireLock(Generation(job.project), j)] +
    if job.crossMachine then [AcquireLock(TargetPath(job.project), j)] else []
  }

  /** With the locks in hand, a refusal further on is handled by what refused. */
  lemma FailuresExactly(s: Sys, j: JobId, a: Answers, n: nat)
    requires Startable(s, j) && a.generation.Answered? && (s.jobs[j].crossMachine ==> a.target.Answered?)
    ensures var (job, o) := (s.jobs[j], DispatchOpening(s, j, a, n));
            var (g, t) := (Generation(job.project), TargetPath(job.project));
            (job.crossMachine && !a.provisioned ==>
               o.verdict.GoesOn? &&
               o.writes == LockWrites(job, j) +
                           [ReleaseLock(g, j), ReleaseLock(t, j), Advance(j, DISPATCH_FAILED), Retry(job, j)]) &&
            ((job.crossMachine ==> a.provisioned) && !a.sealed ==> o == Opening(LockWrites(job, j), Throws)) &&
            ((job.crossMachine ==> a.provisioned) && a.sealed && !a.dispatched ==>
               o.verdict.GoesOn? &&
               o.writes == LockWrites(job, j) +
                           [StartDispatch(j, job.attempt), Advance(j, DISPATCH_FAILED), Retry(job, j)])
  {
    var job := s.jobs[j];
    assert NeedsLock(job, Generation(job.project)) && (job.crossMachine ==> NeedsLock(job, TargetPath(job.project)));
    hide Taken, EvaluateDependencyGate;
  }

  /** A dispatch that ends in a block for a lock is a single write, or gives the generation lock up before it. */
  lemma BlockedShape(s: Sys, j: JobId, a: Answers, n: nat)
    requires j < |s.jobs|
    requires var w := DispatchOpening(s, j, a, n).writes;
             w != [] && w[|w| - 1].Block? && !w[|w| - 1].reason.OpenDependency?
    ensures var (g, w) := (Generation(s.jobs[j].project), DispatchOpening(s, j, a, n).writes);
            (Taken(s, g, j) && w == [Block(j, LockHeld(g))]) ||
            (|w| == 3 && w[0] == AcquireLock(g, j) && w[1] == ReleaseLock(g, j) && w[2].Block? &&
             w[2].job == j)
  {
    hide Taken, EvaluateDependencyGate;
  }

  lemma BlockedOwner(s: Sys, j: JobId, reason: BlockReason, key: LockKey)
    requires Enabled(s, Block(j, reason)) && (Taken(s, key, j) || !Owns(s, key, j))
    ensures !Owns(Effect(s, Block(j, reason)), key, j)
  {
  }

  lemma ReleasedOwner(s: Sys, j: JobId, key: LockKey)
    requires Enabled(s, ReleaseLock(key, j))
    ensures !Owns(Effect(s, ReleaseLock(key, j)), key, j)
  {
  }

  /** After it the job does not have the generation lock. */
  lemma BlockedWithoutLock(before: seq<Action>, log: seq<Action>, j: JobId, a: Answers, n: nat)
    requires Legal(before) && Legal(log) && j < |After(before).jobs|
    requires var w := DispatchOpening(After(before), j, a, n).writes;
             w != [] && w[|w| - 1].Block? && !w[|w| - 1].reason.OpenDependency? && log == before + w
    ensures !Owns(After(log), Generation(After(before).jobs[j].project), j)
  {
    hide Legal, After, DispatchOpening, Enabled, Effect, Taken;
    BlockedShape(After(before), j, a, n);
    var w := DispatchOpening(After(before), j, a, n).writes;
    var g := Generation(After(before).jobs[j].project);
    if |w| == 1 {
      assert log == before + [Block(j, LockHeld(g))];
      LastEffect(log, before, Block(j, LockHeld(g)));
      BlockedOwner(After(before), j, LockHeld(g), g);
    } else {
      var second := before + [w[0]] + [w[1]];
      assert log == second + [w[2]];
      LastEffect(log, second, w[2]);
      LastEffect(second, before + [w[0]], w[1]);
      ReleasedOwner(After(before + [w[0]]), j, g);
      BlockedOwner(After(second), j, w[2].reason, g);
    }
  }

  // ---- Promotion ----

  function StatusOf(jobs: seq<Job>, j: Option<JobId>): Option<JobStatus> {
    if j.Some? && j.value < |jobs| then Some(jobs[j.value].status) else None
  }

  predicate ActiveElsewhere(jobs: seq<Job>, project: ProjectId, finished: JobId) {
    exists k | 0 <= k < |jobs| :: k != finished && jobs[k].project == project && IsSlotActive(jobs[k].status)
  }

  function PromotionOf(jobs: seq<Job>, j: JobId, finished: JobId): Promotion
    requires j < |jobs|
  {
    var job := jobs[j];
    CanPromoteBlockedJob(job.dependsOn.Some?, StatusOf(jobs, job.dependsOn),
                         job.blockedBy, finished, StatusOf(jobs, job.blockedBy),
                         ActiveElsewhere(jobs, job.project, finished))
  }

  /** The oldest blocked job of the project that is not kept waiting. */
  predicate IsNext(jobs: seq<Job>, j: JobId, project: ProjectId, finished: JobId) {
    j < |jobs| && jobs[j].project == project && jobs[j].status == BLOCKED && PromotionOf(jobs, j, finished) != Keep &&
    forall k | 0 <= k < j && jobs[k].project == project && jobs[k].status == BLOCKED ::
      PromotionOf(jobs, k, finished) == Keep
  }

  /**
   * The next job, if there is one, is promoted and dispatched, or makes the handler throw if its dependency has
   * failed; without one nothing is written.
   */
  ghost predicate Promotes(
    s: Sys, project: ProjectId, finished: JobId, before: seq<Action>, log: seq<Action>, ok: bool, a: Answers, n: nat)
  {
    (forall k: nat | IsNext(s.jobs, k, project, finished) ::
       if PromotionOf(s.jobs, k, finished) == Promote then
         Enabled(s, PromoteJob(k)) &&
         Opens(Effect(s, PromoteJob(k)), before + [PromoteJob(k)], log, ok, k, a, n)
       else log == before && !ok) &&
    ((forall k: nat :: !IsNext(s.jobs, k, project, finished)) ==> log == before && ok)
  }

  // ---- Reports ----

  /** The locks of an ended job are free, and the next job may run. */
  ghost predicate Ends(
    s: Sys, hadLock: bool, j: JobId, before: seq<Action>, log: seq<Action>, ok: bool, a: Answers, n: nat)
  {
    j < |s.jobs| && if hadLock then Promotes(s, s.jobs[j].project, j, before, log, ok, a, n) else log == before && ok
  }

  /** A failed job is queued and dispatched for its next attempt, or ends in the dead letters. */
  ghost predicate Retried(s: Sys, j: JobId, before: seq<Action>, log: seq<Action>, ok: bool, a: Answers, n: nat) {
    j < |s.jobs| &&
    var r := Retry(s.jobs[j], j);
    Enabled(s, r) &&
    if r.Requeue? then Opens(Effect(s, r), before + [r], log, ok, j, a, n)
    else Ends(Effect(s, r), s.jobs[j].lockKey.Some?, j, before + [r], log, ok, a, n)
  }

  /** The write of a report, by what the new status is. */
  function ReportWrite(j: JobId, st: JobStatus): Action {
    if IsTerminal(st) then Finish(j, st) else Advance(j, st)
  }

  /** An accepted report is written; a failure is retried at once, and an end lets the next job run. */
  ghost predicate Reported(
    s: Sys, j: JobId, st: JobStatus, before: seq<Action>, log: seq<Action>, ok: bool, a: Answers, n: nat)
  {
    j < |s.jobs| &&
    var r := ReportWrite(j, st);
    Enabled(s, r) &&
    if IsRetriableFailure(st) then Retried(Effect(s, r), j, before + [r], log, ok, a, n)
    else if IsTerminal(st) then Ends(Effect(s, r), s.jobs[j].lockKey.Some?, j, before + [r], log, ok, a, n)
    else log == before + [r] && ok
  }
}
