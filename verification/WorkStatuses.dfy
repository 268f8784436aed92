/**
 The status words of work records and locks
 (scripts/fanmind_next_best_action.py:23-57, `_lock_status_is_terminal`).
 */
module WorkStatuses {
  import opened Wrappers

  /** A status word after upper-casing. `ReleasedFor` stands for every word that starts with "RELEASED_". */
  datatype WorkStatus =
    | Blocked | InProgress | Implemented | ImplementedNotVerified | Partial | ReconciliationRequired
    | CiWaiting | ReviewWaiting | MergeReady | Active | Paused
    | Accepted | Closed | Completed | Done | Released | Superseded
    | ReleasedFor(suffix: string)
    | Other(word: string)

  /** ACTIVE_WORK_STATES. */
  predicate IsActiveWork(status: WorkStatus) {
    status.Blocked? || status.InProgress? || status.Implemented? || status.ImplementedNotVerified? ||
    status.Partial? || status.ReconciliationRequired? || status.CiWaiting? || status.ReviewWaiting? ||
    status.MergeReady?
  }

  /** EXPLICIT_RUNNING_WORK_STATES. */
  predicate IsRunning(status: WorkStatus) {
    status.Active? || status.InProgress? || status.CiWaiting? || status.ReviewWaiting? || status.MergeReady?
  }

  /** BLOCKED, or one of NONRUNNING_LOCK_STATES. */
  predicate IsStopped(status: WorkStatus) {
    status.Blocked? || status.Paused?
  }

  predicate IsTerminal(status: WorkStatus) {
    status.Accepted? || status.Closed? || status.Completed? || status.Done? || status.Released? ||
    status.Superseded? || status.ReleasedFor?
  }

  /** The same tests on a record that may carry no status at all. */
  predicate Running(status: Option<WorkStatus>) { status.Some? && IsRunning(status.value) }
  predicate Stopped(status: Option<WorkStatus>) { status.Some? && IsStopped(status.value) }
  predicate Terminal(status: Option<WorkStatus>) { status.Some? && IsTerminal(status.value) }

  /**
   One current piece of work: its tasks, its exact action if known, its status, and whether the evidence conflicts.
   */
  datatype Slot = Slot(tasks: set<string>, action: Option<string>, status: Option<WorkStatus>, conflict: bool)
}
