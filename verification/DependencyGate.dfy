/** Decisions on dependencies and on the project slot, as functions of what was read. */
module DependencyGates {
  import opened Wrappers
  import opened JobStatuses

  type JobId = nat
  type ProjectId = nat

  datatype DependencyGate = Allow | BlockDependency | DepFailed

  /** Gate for a dependency read as (project, status), or not found. */
  function EvaluateDependencyGate(dep: Option<(ProjectId, JobStatus)>, expected: ProjectId): DependencyGate {
    if dep.None? then DepFailed
    else if dep.value.0 != expected then DepFailed
    else if dep.value.1 == COMPLETED then Allow
    else if IsTerminal(dep.value.1) then DepFailed
    else BlockDependency
  }

  datatype Promotion = Promote | Keep | FailDependency

  function CanPromoteBlockedJob(
    hasDependency: bool, dependencyStatus: Option<JobStatus>,
    blockedBy: Option<JobId>, finished: JobId, blockedByStatus: Option<JobStatus>,
    concurrentActiveHeld: bool): Promotion
  {
    if hasDependency && dependencyStatus.None? then FailDependency
    else if hasDependency && IsTerminal(dependencyStatus.value) && dependencyStatus.value != COMPLETED then
      FailDependency
    else if hasDependency && dependencyStatus.value != COMPLETED then Keep
    else if blockedBy.Some? && blockedBy.value != finished && blockedByStatus.Some? &&
            (IsActiveGeneration(blockedByStatus.value) || IsRetriableFailure(blockedByStatus.value)) then Keep
    else if concurrentActiveHeld then Keep
    else Promote
  }

  /**
   * A dependency lets the job go if it is of the project and has completed; it stops the job for good if it is
   * missing, of another project, or has ended otherwise; and it blocks the job while it can still complete.
   */
  lemma GateExactly(dep: Option<(ProjectId, JobStatus)>, expected: ProjectId)
    ensures var gate := EvaluateDependencyGate(dep, expected);
            (gate == Allow <==> dep == Some((expected, COMPLETED))) &&
            (gate == BlockDependency <==> dep.Some? && dep.value.0 == expected && !IsTerminal(dep.value.1)) &&
            (gate == DepFailed <==>
               dep.None? || dep.value.0 != expected || (IsTerminal(dep.value.1) && dep.value.1 != COMPLETED))
  {
  }

  /** A blocked job fails with its dependency, and may go if neither that nor another job keeps it waiting. */
  lemma PromotionExactly(
    hasDependency: bool, dependencyStatus: Option<JobStatus>,
    blockedBy: Option<JobId>, finished: JobId, blockedByStatus: Option<JobStatus>, concurrentActiveHeld: bool)
    ensures var d := CanPromoteBlockedJob(
                       hasDependency, dependencyStatus, blockedBy, finished, blockedByStatus, concurrentActiveHeld);
            (d == FailDependency <==>
               hasDependency &&
               (dependencyStatus.None? || dependencyStatus.value in {ROLLBACK, DEP_FAILED, CANCELLED, DEAD_LETTER})) &&
            (d == Promote <==>
               (hasDependency ==> dependencyStatus == Some(COMPLETED)) && !concurrentActiveHeld &&
               !(blockedBy.Some? && blockedBy.value != finished && blockedByStatus.Some? &&
                 IsSlotActive(blockedByStatus.value)))
  {
  }
}
