/**
 The admission decision of one run
 (scripts/fanmind_orchestrator_admission.py, `_check_github_truth` and `evaluate_admission`).
 */
module Admission {
  import opened Wrappers
  import opened AdmissionHistory

  datatype ReceiptStatus = CompletedWork | BlockedWork | FailedWork | NoChange

  datatype Disposition = AcceptedCompletion | ReconciledParked | OtherDisposition

  /**
   A prepared handoff. `wellFormed` stands for schema, state, requested ids and the envelope digest;
   `work` identifies goal, scope and acceptance.
   */
  datatype Handoff = Handoff(
    identity: Identity, previousTask: string, disposition: Disposition, work: string, resume: set<string>,
    preparedMain: string, wellFormed: bool)

  /**
   The canonical receipt on main. `typed` stands for the receipt's own validation, which includes a terminal status.
   */
  datatype Receipt = Receipt(
    identity: Identity, status: ReceiptStatus, work: string, resume: set<string>, typed: bool)

  /** The parts of the collected truth that do not come from the run history. */
  datatype Surroundings = Surroundings(
    observedMain: string, mainReadable: bool, receiptReachable: bool, bootstrapMatches: bool,
    currentRunMatches: bool, currentAttempt: nat, sourceAccepted: bool, selectionAccepted: bool)

  datatype BlockReason =
    | HistoryUnreadable(error: HistoryError)
    | HandoffNotSendable | ReceiptInvalid | PreviousTaskMismatch | TaskAlreadyTerminal
    | WorkAlreadyAccepted | ResumeEvidenceRequired | NewResumeEvidenceRequired
    | CompletedNotAccepted | NotReconciled | PreviousResultUnresolved
    | MainStale | MainUnreadable | ReceiptUnreachable | PreviousHandoffMismatch | PreviousNotTerminal
    | CurrentRunMismatch | RerunRequiresReconciliation | SourceNotAccepted | DuplicateDispatch | SelectionRefused

  datatype Decision = Send | Blocked(reason: BlockReason)

  /** `previous_handoff_matches`: by the latest run if there is one, else by the bootstrap markers. */
  function PreviousMatches(handoff: Handoff, receipt: Receipt, seen: Seen, around: Surroundings): bool {
    match seen.latest
    case Some(run) =>
      run.title == Some(receipt.identity) && receipt.identity.task == handoff.previousTask
    case None => around.bootstrapMatches
  }

  /** The latest run has completed successfully and its transport was accepted. */
  predicate LatestReconciled(seen: Seen) {
    seen.latest.Some? && seen.latest.value.status.Completed? && seen.latest.value.conclusion.Success? &&
    seen.latestState.Accepted?
  }

  /** `_check_github_truth`: the first failing check, if any. */
  function CheckTruth(handoff: Handoff, receipt: Receipt, seen: Seen, around: Surroundings): Option<BlockReason> {
    if around.observedMain != handoff.preparedMain then Some(MainStale)
    else if !around.mainReadable then Some(MainUnreadable)
    else if !around.receiptReachable then Some(ReceiptUnreachable)
    else if !PreviousMatches(handoff, receipt, seen, around) then Some(PreviousHandoffMismatch)
    else if seen.latest.Some? && !LatestReconciled(seen) then Some(PreviousNotTerminal)
    else if !around.currentRunMatches then Some(CurrentRunMismatch)
    else if around.currentAttempt != 1 then Some(RerunRequiresReconciliation)
    else if !around.sourceAccepted then Some(SourceNotAccepted)
    else if seen.matching != [] then Some(DuplicateDispatch)
    else None
  }

  /** Repeating the same work needs resume evidence beyond what the earlier attempt had. */
  function CheckWork(handoff: Handoff, receipt: Receipt): Option<BlockReason> {
    if handoff.work != receipt.work then None
    else if receipt.status.CompletedWork? then Some(WorkAlreadyAccepted)
    else if handoff.resume == {} then Some(ResumeEvidenceRequired)
    else if !(receipt.resume < handoff.resume) then Some(NewResumeEvidenceRequired)
    else None
  }

  function CheckDisposition(handoff: Handoff, receipt: Receipt, seen: Seen): Option<BlockReason> {
    if receipt.status.CompletedWork? then
      if handoff.disposition.AcceptedCompletion? then None else Some(CompletedNotAccepted)
    else if !handoff.disposition.ReconciledParked? then Some(NotReconciled)
    else if !LatestReconciled(seen) then Some(PreviousResultUnresolved)
    else None
  }

  /** `evaluate_admission` on the truth collected from an error-free history. */
  function Evaluate(handoff: Handoff, receipt: Receipt, seen: Seen, around: Surroundings): Decision {
    if !handoff.wellFormed then Blocked(HandoffNotSendable)
    else if !receipt.typed then Blocked(ReceiptInvalid)
    else if handoff.previousTask != receipt.identity.task then Blocked(PreviousTaskMismatch)
    else if handoff.identity.task == receipt.identity.task then Blocked(TaskAlreadyTerminal)
    else
      match CheckWork(handoff, receipt)
      case Some(reason) => Blocked(reason)
      case None =>
        match CheckDisposition(handoff, receipt, seen)
        case Some(reason) => Blocked(reason)
        case None =>
          match CheckTruth(handoff, receipt, seen, around)
          case Some(reason) => Blocked(reason)
          case None => if around.selectionAccepted then Send else Blocked(SelectionRefused)
  }

  /** Admission of the run `currentId`: collect the history of the other runs, then evaluate. */
  function Admit(handoff: Handoff, receipt: Receipt, runs: seq<RunView>, currentId: nat,
                 around: Surroundings): Decision
  {
    match History(handoff.identity, PriorRuns(runs, currentId))
    case Err(error) => Blocked(HistoryUnreadable(error))
    case Ok(seen) => Evaluate(handoff, receipt, seen, around)
  }

  /** `other` is the newest titled run besides the current one that was not rejected. */
  ghost predicate NewestLive(runs: seq<RunView>, currentId: nat, other: RunView) {
    other in runs && other.id != currentId && other.title.Some? &&
    forall run <- runs :: run.id != currentId && run.title.Some? && RunState(run) != Ok(Rejected) ==>
      Newer(other, run) || run == other
  }

  /** Every other titled run was rejected. */
  ghost predicate AllOthersRejected(runs: seq<RunView>, currentId: nat) {
    forall run <- runs :: run.id != currentId && run.title.Some? ==> RunState(run) == Ok(Rejected)
  }

  /** The newest other run that was not rejected is accepted, completed and successful, and the receipt names it. */
  ghost predicate PredecessorReconciled(runs: seq<RunView>, currentId: nat, receipt: Receipt, other: RunView) {
    NewestLive(runs, currentId, other) && RunState(other) == Ok(Accepted) && other.status.Completed? &&
    other.conclusion.Success? &&
    other.title == Some(receipt.identity)
  }

  lemma SendMeansSeen(handoff: Handoff, receipt: Receipt, seen: Seen, around: Surroundings)
    requires Evaluate(handoff, receipt, seen, around) == Send
    ensures around.currentAttempt == 1 && around.currentRunMatches && receipt.typed && seen.matching == []
    ensures seen.latest.Some? ==> LatestReconciled(seen) && seen.latest.value.title == Some(receipt.identity)
  {
  }

  lemma LatestIsNewestLive(runs: seq<RunView>, currentId: nat, latest: RunView, state: TransportState)
    requires IsLatest(PriorRuns(runs, currentId), latest, state)
    ensures NewestLive(runs, currentId, latest)
  {
    var prior := PriorRuns(runs, currentId);
    NewestFirstSorts(Others(runs, currentId));
    var k :| 0 <= k < |prior| && prior[k] == latest && forall m :: 0 <= m < k ==> ReadsRejected(prior[m]);
    assert latest in prior;
    forall run | run in runs && run.id != currentId && run.title.Some? && RunState(run) != Ok(Rejected)
      ensures Newer(latest, run) || run == latest
    {
      assert run in prior;
      var m :| 0 <= m < |prior| && prior[m] == run;
      assert m >= k;
    }
  }

  /**
   What SEND has established about the shared history: no other run of this identity got past rejection, and
   either every other titled run was rejected, or the newest one that was not is reconciled and named by the receipt.
   */
  lemma SendMeansHistoryReconciled(handoff: Handoff, receipt: Receipt, runs: seq<RunView>, currentId: nat,
                                   around: Surroundings)
    requires Admit(handoff, receipt, runs, currentId, around) == Send
    ensures around.currentAttempt == 1 && around.currentRunMatches && receipt.typed
    ensures forall run <- runs :: run.id != currentId && run.title.None? ==> run.id <= LEGACY_WORKFLOW_RUN_BOUNDARY
    ensures forall run <- runs :: run.id != currentId && run.title == Some(handoff.identity) ==>
      RunState(run) == Ok(Rejected)
    ensures AllOthersRejected(runs, currentId) ||
      exists other <- runs :: PredecessorReconciled(runs, currentId, receipt, other)
  {
    var prior := PriorRuns(runs, currentId);
    var seen := History(handoff.identity, prior).value;
    SendMeansSeen(handoff, receipt, seen, around);
    NewestFirstSorts(Others(runs, currentId));
    HistoryMeaning(handoff.identity, prior);
    forall run ensures run in prior <==> run in runs && run.id != currentId {}
    if seen.latest.Some? {
      LatestIsNewestLive(runs, currentId, seen.latest.value, seen.latestState);
      assert PredecessorReconciled(runs, currentId, receipt, seen.latest.value);
    }
  }
}
