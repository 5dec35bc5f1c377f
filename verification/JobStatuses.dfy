/** Job lifecycle states and the table of allowed transitions. */
module JobStatuses {
  datatype JobStatus =
    | QUEUED | DISPATCHING | DISPATCH_TIMEOUT | DISPATCH_FAILED | BLOCKED
    | STAGING | VALIDATING | VALIDATION_REPORT | VALIDATION_FAILED | REIMPORT_FAILED
    | COMMITTING | COMMIT_FAILED | POST_COMMIT_VERIFY | ROLLBACK | COMPLETED
    | LOCK_STALE | DEP_FAILED | PAUSED_EDITOR_LOCK | CANCELLED | DEAD_LETTER

  /** Statuses that hold the project generation lock. */
  predicate IsActiveGeneration(s: JobStatus) {
    s.QUEUED? || s.DISPATCHING? || s.STAGING? || s.VALIDATING? || s.VALIDATION_REPORT? || s.COMMITTING? ||
    s.POST_COMMIT_VERIFY?
  }

  predicate IsRetriableFailure(s: JobStatus) {
    s.REIMPORT_FAILED? || s.VALIDATION_FAILED? || s.COMMIT_FAILED? || s.DISPATCH_TIMEOUT? || s.DISPATCH_FAILED?
  }

  predicate IsTerminal(s: JobStatus) {
    s.COMPLETED? || s.ROLLBACK? || s.DEP_FAILED? || s.CANCELLED? || s.DEAD_LETTER?
  }

  /** Statuses that occupy the project's single generation slot. */
  predicate IsSlotActive(s: JobStatus) {
    IsActiveGeneration(s) || IsRetriableFailure(s)
  }

  /** The rows of JOB_STATUS_TRANSITIONS. */
  predicate InTable(from: JobStatus, to: JobStatus) {
    match from
    case QUEUED => to.DISPATCHING? || to.DISPATCH_FAILED? || to.BLOCKED? || to.CANCELLED? || to.LOCK_STALE?
    case DISPATCHING => to.STAGING? || to.DISPATCH_TIMEOUT? || to.DISPATCH_FAILED? || to.BLOCKED? || to.CANCELLED? ||
    to.LOCK_STALE?
    case DISPATCH_TIMEOUT => to.QUEUED? || to.DEAD_LETTER? || to.CANCELLED? || to.LOCK_STALE? || to.DISPATCH_FAILED?
    case DISPATCH_FAILED => to.QUEUED? || to.DEAD_LETTER? || to.CANCELLED? || to.LOCK_STALE?
    case BLOCKED => to.QUEUED? || to.CANCELLED?
    case STAGING => to.VALIDATING? || to.REIMPORT_FAILED? || to.PAUSED_EDITOR_LOCK? || to.LOCK_STALE? || to.CANCELLED?
    case VALIDATING => to.VALIDATION_REPORT? || to.VALIDATION_FAILED? || to.REIMPORT_FAILED? || to.LOCK_STALE? ||
    to.CANCELLED?
    case VALIDATION_REPORT => to.COMMITTING? || to.VALIDATION_FAILED? || to.CANCELLED?
    case REIMPORT_FAILED => to.QUEUED? || to.DEAD_LETTER? || to.CANCELLED? || to.LOCK_STALE?
    case VALIDATION_FAILED => to.QUEUED? || to.DEAD_LETTER? || to.CANCELLED? || to.LOCK_STALE?
    case COMMITTING => to.POST_COMMIT_VERIFY? || to.COMMIT_FAILED? || to.PAUSED_EDITOR_LOCK? || to.LOCK_STALE? ||
    to.CANCELLED?
    case COMMIT_FAILED => to.QUEUED? || to.DEAD_LETTER? || to.CANCELLED? || to.LOCK_STALE?
    case POST_COMMIT_VERIFY => to.COMPLETED? || to.ROLLBACK? || to.REIMPORT_FAILED? || to.LOCK_STALE? || to.CANCELLED?
    case ROLLBACK => false
    case COMPLETED => false
    case LOCK_STALE => to.QUEUED? || to.DEAD_LETTER? || to.CANCELLED? || to.DISPATCH_FAILED?
    case DEP_FAILED => false
    case PAUSED_EDITOR_LOCK => to.STAGING? || to.CANCELLED? || to.LOCK_STALE?
    case CANCELLED => false
    case DEAD_LETTER => false
  }

  predicate CanTransition(from: JobStatus, to: JobStatus) {
    from == to || InTable(from, to)
  }

  /** The table leads into DEP_FAILED from nowhere, so a cascade of dependency failures cannot be recorded. */
  lemma NothingReachesDepFailed(from: JobStatus)
    ensures CanTransition(from, DEP_FAILED) <==> from == DEP_FAILED
  {
  }

  lemma TerminalIsFinal(from: JobStatus, to: JobStatus)
    requires IsTerminal(from) && CanTransition(from, to)
    ensures to == from
  {
  }

  /** The table read by column: from where each status can be reached. */
  lemma TableByColumn(from: JobStatus, to: JobStatus)
    ensures InTable(from, to) <==>
              match to
              case QUEUED => IsRetriableFailure(from) || from in {LOCK_STALE, BLOCKED}
              case CANCELLED => !IsTerminal(from)
              case DEAD_LETTER => IsRetriableFailure(from) || from == LOCK_STALE
              case LOCK_STALE => (IsSlotActive(from) && from != VALIDATION_REPORT) || from == PAUSED_EDITOR_LOCK
              case BLOCKED => from in {QUEUED, DISPATCHING}
              case DISPATCHING => from == QUEUED
              case DISPATCH_TIMEOUT => from == DISPATCHING
              case DISPATCH_FAILED => from in {QUEUED, DISPATCHING, DISPATCH_TIMEOUT, LOCK_STALE}
              case STAGING => from in {DISPATCHING, PAUSED_EDITOR_LOCK}
              case PAUSED_EDITOR_LOCK => from in {STAGING, COMMITTING}
              case VALIDATING => from == STAGING
              case VALIDATION_REPORT => from == VALIDATING
              case VALIDATION_FAILED => from in {VALIDATING, VALIDATION_REPORT}
              case REIMPORT_FAILED => from in {STAGING, VALIDATING, POST_COMMIT_VERIFY}
              case COMMITTING => from == VALIDATION_REPORT
              case COMMIT_FAILED => from == COMMITTING
              case POST_COMMIT_VERIFY => from == COMMITTING
              case COMPLETED => from == POST_COMMIT_VERIFY
              case ROLLBACK => from == POST_COMMIT_VERIFY
              case DEP_FAILED => false
  {
  }
}
