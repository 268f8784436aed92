/**
 When a run is sent, and why it is blocked, on the fields of the handoff, the receipt, the listed runs and the
 surroundings (scripts/fanmind_orchestrator_admission.py:341-378, 613-694, 852-895, 1030-1101).
 */
module AdmissionMeaning {
  import opened Wrappers
  import opened AdmissionHistory
  import opened Admission

  // ----- one attempt -----

  /** The first step of that name, reading the jobs in order. */
  ghost predicate StandsFirst(jobs: seq<Job>, name: StepName, step: Step) {
    exists j, k :: 0 <= j < |jobs| && 0 <= k < |jobs[j].steps| && jobs[j].steps[k] == step && step.name == name &&
      (forall m :: 0 <= m < k ==> jobs[j].steps[m].name != name) &&
      (forall i, m :: 0 <= i < j && 0 <= m < |jobs[i].steps| ==> jobs[i].steps[m].name != name)
  }

  ghost predicate NoneStands(jobs: seq<Job>, name: StepName) {
    forall j, k :: 0 <= j < |jobs| && 0 <= k < |jobs[j].steps| ==> jobs[j].steps[k].name != name
  }

  lemma {:induction false} FirstStepSkips(front: seq<Step>, rest: seq<Step>, name: StepName)
    ensures FirstStep(front + rest, name) ==
      if FirstStep(front, name).Some? then FirstStep(front, name) else FirstStep(rest, name)
  {
    if front != [] {
      assert (front + rest)[1..] == front[1..] + rest;
      FirstStepSkips(front[1..], rest, name);
    } else {
      assert front + rest == rest;
    }
  }

  lemma {:induction false} FirstStepPosition(steps: seq<Step>, name: StepName)
    ensures FirstStep(steps, name).None? <==> forall k :: 0 <= k < |steps| ==> steps[k].name != name
    ensures FirstStep(steps, name).Some? ==>
      exists k :: 0 <= k < |steps| && steps[k] == FirstStep(steps, name).value && steps[k].name == name &&
        forall m :: 0 <= m < k ==> steps[m].name != name
  {
    if steps != [] && steps[0].name != name {
      FirstStepPosition(steps[1..], name);
      if FirstStep(steps, name).Some? {
        var k :| 0 <= k < |steps[1..]| && steps[1..][k] == FirstStep(steps, name).value &&
          forall m :: 0 <= m < k ==> steps[1..][m].name != name;
        assert steps[k + 1] == FirstStep(steps, name).value;
        assert forall m :: 1 <= m < k + 1 ==> steps[m] == steps[1..][m - 1];
      } else {
        forall k | 0 <= k < |steps| ensures steps[k].name != name {
          assert k > 0 ==> steps[k] == steps[1..][k - 1];
        }
      }
    }
  }

  /** Flattening the jobs and scanning finds exactly the first step. */
  lemma {:induction false} FirstStepStands(jobs: seq<Job>, name: StepName)
    ensures FirstStep(AllSteps(jobs), name).None? <==> NoneStands(jobs, name)
    ensures FirstStep(AllSteps(jobs), name).Some? ==> StandsFirst(jobs, name, FirstStep(AllSteps(jobs), name).value)
  {
    if jobs != [] {
      var head, rest := jobs[0].steps, jobs[1..];
      FirstStepSkips(head, AllSteps(rest), name);
      FirstStepPosition(head, name);
      FirstStepStands(rest, name);
      if FirstStep(head, name).None? {
        assert forall i :: 1 <= i < |jobs| ==> jobs[i] == rest[i - 1];
        if FirstStep(AllSteps(rest), name).Some? {
          FirstStandsLater(jobs, name, FirstStep(AllSteps(rest), name).value);
        }
      }
    }
  }

  lemma FirstStandsLater(jobs: seq<Job>, name: StepName, step: Step)
    requires jobs != [] && StandsFirst(jobs[1..], name, step)
    requires forall m :: 0 <= m < |jobs[0].steps| ==> jobs[0].steps[m].name != name
    ensures StandsFirst(jobs, name, step)
  {
    var rest := jobs[1..];
    var j, k :| 0 <= j < |rest| && 0 <= k < |rest[j].steps| && rest[j].steps[k] == step && step.name == name &&
      (forall m :: 0 <= m < k ==> rest[j].steps[m].name != name) &&
      (forall i, m :: 0 <= i < j && 0 <= m < |rest[i].steps| ==> rest[i].steps[m].name != name);
    assert jobs[j + 1] == rest[j];
    forall i, m | 0 <= i < j + 1 && 0 <= m < |jobs[i].steps| ensures jobs[i].steps[m].name != name {
      if i > 0 { assert jobs[i] == rest[i - 1]; }
    }
  }

  lemma OnlyOneStandsFirst(jobs: seq<Job>, name: StepName, left: Step, right: Step)
    requires StandsFirst(jobs, name, left) && StandsFirst(jobs, name, right)
    ensures left == right
  {
  }

  /** The transport step of the attempt, and whether it was skipped behind an admit step that ended so. */
  ghost predicate TransportEnded(jobs: seq<Job>, conclusion: Conclusion) {
    exists step :: StandsFirst(jobs, TransportStep, step) && step.conclusion == conclusion
  }

  ghost predicate AdmitEnded(jobs: seq<Job>, conclusion: Conclusion) {
    exists step :: StandsFirst(jobs, AdmitStep, step) && step.conclusion == conclusion
  }

  /** Neither skipped nor successful, and still in flight or ended without a word about delivery. */
  ghost predicate TransportOpen(jobs: seq<Job>) {
    exists step :: StandsFirst(jobs, TransportStep, step) && step.conclusion != Skipped && step.conclusion != Success &&
      (step.status.Queued? || step.status.InProgress? ||
       step.conclusion.Failure? || step.conclusion.Cancelled? || step.conclusion.TimedOut?)
  }

  /**
   An attempt is accepted when its transport step succeeded, rejected when that step was skipped because the admit
   step failed or was skipped, and unresolved when it was skipped although the admit step succeeded, is still in
   flight or broke off. Everything else is unreadable.
   */
  lemma AttemptStateExactly(jobs: seq<Job>)
    ensures AttemptState(jobs) == Ok(Accepted) <==> TransportEnded(jobs, Success)
    ensures AttemptState(jobs) == Ok(Rejected) <==>
      TransportEnded(jobs, Skipped) && (AdmitEnded(jobs, Failure) || AdmitEnded(jobs, Skipped))
    ensures AttemptState(jobs) == Ok(Unresolved) <==>
      (TransportEnded(jobs, Skipped) && AdmitEnded(jobs, Success)) || TransportOpen(jobs)
    ensures AttemptState(jobs).Err? ==> AttemptState(jobs).error == TransportUnreadable
  {
    FirstStepStands(jobs, TransportStep);
    FirstStepStands(jobs, AdmitStep);
    forall name, left, right | StandsFirst(jobs, name, left) && StandsFirst(jobs, name, right) ensures left == right {
      OnlyOneStandsFirst(jobs, name, left, right);
    }
  }

  /**
   A run is rejected when every attempt is; accepted when none is unresolved and some is accepted; and it has no state
   when it has no attempt or an unreadable one.
   */
  lemma RunStateExactly(run: RunView)
    ensures RunState(run) == Ok(Rejected) <==>
      run.attempts != [] && forall jobs <- run.attempts :: AttemptState(jobs) == Ok(Rejected)
    ensures RunState(run) == Ok(Accepted) <==>
      (forall jobs <- run.attempts :: AttemptState(jobs) == Ok(Rejected) || AttemptState(jobs) == Ok(Accepted)) &&
      exists jobs <- run.attempts :: AttemptState(jobs) == Ok(Accepted)
    ensures RunState(run) == Ok(Unresolved) <==>
      (forall jobs <- run.attempts :: AttemptState(jobs).Ok?) &&
      exists jobs <- run.attempts :: AttemptState(jobs) == Ok(Unresolved)
    ensures RunState(run) == Err(AttemptsUnreadable) <==> run.attempts == []
    ensures RunState(run) == Err(TransportUnreadable) <==> exists jobs <- run.attempts :: AttemptState(jobs).Err?
  {
    if run.attempts != [] { assert run.attempts[0] in run.attempts; }
    forall jobs | jobs in run.attempts && AttemptState(jobs).Ok?
      ensures AttemptState(jobs) == Ok(Rejected) || AttemptState(jobs) == Ok(Accepted) ||
        AttemptState(jobs) == Ok(Unresolved)
    {
      match AttemptState(jobs).value case Rejected => case Accepted => case Unresolved =>
    }
  }

  // ----- reading the list -----

  /** What the loop cannot read at position `n`: a foreign run, or a run it needs whose state is unreadable. */
  ghost function Unreadable(own: Identity, runs: seq<RunView>, n: nat): Option<HistoryError>
    requires n < |runs|
  {
    if runs[n].title.None? then if runs[n].id > 37234276748 then Some(IdentityUnreadable) else None
    else if (runs[n].title == Some(own) || forall m :: 0 <= m < n ==> ReadsRejected(runs[m])) && RunState(runs[n]).Err?
      then Some(RunState(runs[n]).error)
    else None
  }

  /**
   Reading the list fails exactly when some position is unreadable, with the error of the first such position. Runs
   older than the latest one that is not rejected are only read when they carry the own identity.
   */
  lemma {:induction false} HistoryErrorExactly(own: Identity, runs: seq<RunView>)
    ensures History(own, runs).Ok? <==> forall n :: 0 <= n < |runs| ==> Unreadable(own, runs, n).None?
    ensures History(own, runs).Err? ==>
      exists n :: 0 <= n < |runs| && Unreadable(own, runs, n) == Some(History(own, runs).error) &&
        forall m :: 0 <= m < n ==> Unreadable(own, runs, m).None?
  {
    if runs != [] {
      var k := |runs| - 1;
      HistoryErrorExactly(own, runs[..k]);
      forall n | 0 <= n < k ensures Unreadable(own, runs, n) == Unreadable(own, runs[..k], n) {
        assert forall m :: 0 <= m < n ==> runs[m] == runs[..k][m];
      }
      if History(own, runs[..k]).Ok? {
        HistoryMeaning(own, runs[..k]);
        var before := History(own, runs[..k]).value;
        assert before.latest.None? <==> forall m :: 0 <= m < k ==> ReadsRejected(runs[m]) by {
          if before.latest.None? {
            forall m | 0 <= m < k ensures ReadsRejected(runs[m]) { assert runs[m] in runs[..k]; }
          } else {
            var m :| 0 <= m < k && runs[..k][m] == before.latest.value;
            assert !ReadsRejected(runs[m]);
          }
        }
        assert History(own, runs).Ok? <==> Unreadable(own, runs, k).None?;
        assert forall n :: 0 <= n < k ==> Unreadable(own, runs, n) == None;
      } else {
        var n :| 0 <= n < k && Unreadable(own, runs[..k], n) == Some(History(own, runs[..k]).error) &&
          forall m :: 0 <= m < n ==> Unreadable(own, runs[..k], m).None?;
        assert Unreadable(own, runs, n).Some?;
      }
    }
  }

  // ----- the evaluation -----

  /** What each reason complains about. The history reasons belong to reading the runs. */
  ghost predicate Complains(reason: BlockReason, handoff: Handoff, receipt: Receipt, seen: Seen, around: Surroundings) {
    match reason
    case HistoryUnreadable(_) => false
    case HandoffNotSendable => !handoff.wellFormed
    case ReceiptInvalid => !receipt.typed
    case PreviousTaskMismatch => handoff.previousTask != receipt.identity.task
    case TaskAlreadyTerminal => handoff.identity.task == receipt.identity.task
    case WorkAlreadyAccepted => handoff.work == receipt.work && receipt.status == CompletedWork
    case ResumeEvidenceRequired => handoff.work == receipt.work && handoff.resume == {}
    case NewResumeEvidenceRequired =>
      handoff.work == receipt.work && (handoff.resume == receipt.resume || !(receipt.resume <= handoff.resume))
    case CompletedNotAccepted => receipt.status == CompletedWork && handoff.disposition != AcceptedCompletion
    case NotReconciled => receipt.status != CompletedWork && handoff.disposition != ReconciledParked
    case PreviousResultUnresolved =>
      receipt.status != CompletedWork &&
      !(seen.latest.Some? && seen.latest.value.status == Completed && seen.latest.value.conclusion == Success &&
        seen.latestState == Accepted)
    case MainStale => around.observedMain != handoff.preparedMain
    case MainUnreadable => !around.mainReadable
    case ReceiptUnreachable => !around.receiptReachable
    case PreviousHandoffMismatch =>
      if seen.latest.None? then !around.bootstrapMatches
      else seen.latest.value.title != Some(receipt.identity) || receipt.identity.task != handoff.previousTask
    case PreviousNotTerminal =>
      seen.latest.Some? &&
      (seen.latest.value.status != Completed || seen.latest.value.conclusion != Success || seen.latestState != Accepted)
    case CurrentRunMismatch => !around.currentRunMatches
    case RerunRequiresReconciliation => around.currentAttempt != 1
    case SourceNotAccepted => !around.sourceAccepted
    case DuplicateDispatch => seen.matching != []
    case SelectionRefused => !around.selectionAccepted
  }

  /** The order in which the checks are made. */
  function Turn(reason: BlockReason): nat {
    match reason
    case HistoryUnreadable(_) => 0
    case HandoffNotSendable => 1 case ReceiptInvalid => 2 case PreviousTaskMismatch => 3
    case TaskAlreadyTerminal => 4 case WorkAlreadyAccepted => 5 case ResumeEvidenceRequired => 6
    case NewResumeEvidenceRequired => 7 case CompletedNotAccepted => 8 case NotReconciled => 9
    case PreviousResultUnresolved => 10 case MainStale => 11 case MainUnreadable => 12
    case ReceiptUnreachable => 13 case PreviousHandoffMismatch => 14 case PreviousNotTerminal => 15
    case CurrentRunMismatch => 16 case RerunRequiresReconciliation => 17 case SourceNotAccepted => 18
    case DuplicateDispatch => 19 case SelectionRefused => 20
  }

  lemma BlockedComplains(reason: BlockReason, handoff: Handoff, receipt: Receipt, seen: Seen, around: Surroundings)
    requires Evaluate(handoff, receipt, seen, around) == Blocked(reason)
    ensures Complains(reason, handoff, receipt, seen, around)
  {
  }

  /** A complaint blocks, at its own check or at an earlier one. */
  lemma ComplaintBlocks(reason: BlockReason, handoff: Handoff, receipt: Receipt, seen: Seen, around: Surroundings)
    requires Complains(reason, handoff, receipt, seen, around)
    ensures Evaluate(handoff, receipt, seen, around).Blocked?
    ensures Turn(Evaluate(handoff, receipt, seen, around).reason) <= Turn(reason)
  {
  }

  lemma SameTurn(left: BlockReason, right: BlockReason)
    requires Turn(left) == Turn(right) > 0
    ensures left == right
  {
  }

  /**
   The decision is SEND exactly when no check complains; otherwise it names the first check, in their order, that
   does.
   */
  lemma EvaluateExactly(handoff: Handoff, receipt: Receipt, seen: Seen, around: Surroundings)
    ensures Evaluate(handoff, receipt, seen, around) == Send <==>
      forall reason :: !Complains(reason, handoff, receipt, seen, around)
    ensures forall reason :: Evaluate(handoff, receipt, seen, around) == Blocked(reason) <==>
      Complains(reason, handoff, receipt, seen, around) &&
      forall other :: Turn(other) < Turn(reason) ==> !Complains(other, handoff, receipt, seen, around)
  {
    var decision := Evaluate(handoff, receipt, seen, around);
    forall reason | Complains(reason, handoff, receipt, seen, around)
      ensures decision.Blocked? && Turn(decision.reason) <= Turn(reason)
    {
      ComplaintBlocks(reason, handoff, receipt, seen, around);
    }
    if decision.Blocked? {
      BlockedComplains(decision.reason, handoff, receipt, seen, around);
      forall reason | Turn(reason) == Turn(decision.reason) ensures reason == decision.reason {
        SameTurn(reason, decision.reason);
      }
    }
  }

  // ----- the whole admission -----

  /** The handoff fits the receipt of the task before it. */
  ghost predicate FitsReceipt(handoff: Handoff, receipt: Receipt) {
    && handoff.wellFormed && receipt.typed
    && handoff.previousTask == receipt.identity.task && handoff.identity.task != receipt.identity.task
    && (handoff.work == receipt.work ==>
          receipt.status != CompletedWork && receipt.resume <= handoff.resume && receipt.resume != handoff.resume)
    && handoff.disposition == (if receipt.status == CompletedWork then AcceptedCompletion else ReconciledParked)
  }

  /** Main, receipt, source and selection are as the handoff expects, and this is the first attempt of its own run. */
  ghost predicate FitsSurroundings(handoff: Handoff, around: Surroundings) {
    && around.observedMain == handoff.preparedMain && around.mainReadable && around.receiptReachable
    && around.currentRunMatches && around.currentAttempt == 1 && around.sourceAccepted && around.selectionAccepted
  }

  ghost predicate IsRejected(run: RunView) {
    RunState(run) == Ok(Rejected)
  }

  /** The newest other titled run that is not rejected: accepted, completed, successful, and named by the receipt. */
  ghost predicate IsReconciledPredecessor(runs: seq<RunView>, currentId: nat, receipt: Receipt, last: RunView) {
    && last in runs && last.id != currentId && last.title == Some(receipt.identity)
    && RunState(last) == Ok(Accepted) && last.status == Completed && last.conclusion == Success
    && forall run <- runs :: run.id != currentId && run.title.Some? && !IsRejected(run) ==>
         run.started < last.started || (run.started == last.started && run.id <= last.id)
  }

  /**
   The other runs leave room: nothing of this identity, no foreign run, and a reconciled predecessor or none at all.
   */
  ghost predicate FitsHistory(handoff: Handoff, receipt: Receipt, runs: seq<RunView>, currentId: nat,
                              around: Surroundings)
  {
    && (forall run <- runs :: run.id != currentId && run.title.None? ==> run.id <= 37234276748)
    && (forall run <- runs :: run.id != currentId && run.title == Some(handoff.identity) ==> IsRejected(run))
    && ((receipt.status == CompletedWork && around.bootstrapMatches &&
         forall run <- runs :: run.id != currentId && run.title.Some? ==> IsRejected(run)) ||
        exists last <- runs :: IsReconciledPredecessor(runs, currentId, receipt, last))
  }

  ghost predicate OneRunPerId(runs: seq<RunView>) {
    forall left <- runs, right <- runs :: left.id == right.id ==> left == right
  }

  /** What the history loop shows when `k` is the first titled run that is not rejected, or the end of the list. */
  lemma {:induction false} HistoryShows(own: Identity, runs: seq<RunView>, k: nat)
    requires k <= |runs| && forall m :: 0 <= m < k ==> ReadsRejected(runs[m])
    requires k < |runs| ==> runs[k].title.Some? && RunState(runs[k]).Ok? && RunState(runs[k]) != Ok(Rejected)
    requires forall run <- runs :: run.title.None? ==> run.id <= LEGACY_WORKFLOW_RUN_BOUNDARY
    requires forall run <- runs :: run.title == Some(own) ==> RunState(run) == Ok(Rejected)
    ensures History(own, runs) ==
      Ok(if k == |runs| then Seen(None, Unresolved, []) else Seen(Some(runs[k]), RunState(runs[k]).value, []))
  {
    if runs != [] {
      var n := |runs| - 1;
      HistoryShows(own, runs[..n], if k > n then n else k);
      assert runs[n] in runs;
      if k < n { assert runs[..n][k] == runs[k]; }
      if k == n { assert runs[k] in runs; }
    }
  }

  lemma PriorMembers(runs: seq<RunView>, currentId: nat)
    ensures forall run :: run in PriorRuns(runs, currentId) <==> run in runs && run.id != currentId
    ensures SortedNewestFirst(PriorRuns(runs, currentId))
  {
    NewestFirstSorts(Others(runs, currentId));
  }

  lemma {:induction false} FirstPosition(runs: seq<RunView>, run: RunView) returns (k: nat)
    requires run in runs
    ensures k < |runs| && runs[k] == run && run !in runs[..k]
  {
    if runs[0] == run {
      k := 0;
    } else {
      var rest := FirstPosition(runs[1..], run);
      k := rest + 1;
      assert runs[..k] == [runs[0]] + runs[1..][..rest];
    }
  }

  /** The predecessor is the first run of the sorted list that is not rejected. */
  lemma PredecessorIsShown(own: Identity, receipt: Receipt, runs: seq<RunView>, currentId: nat, last: RunView)
    requires OneRunPerId(runs) && IsReconciledPredecessor(runs, currentId, receipt, last)
    requires forall run <- runs :: run.id != currentId && run.title.None? ==> run.id <= LEGACY_WORKFLOW_RUN_BOUNDARY
    requires forall run <- runs :: run.id != currentId && run.title == Some(own) ==> IsRejected(run)
    ensures History(own, PriorRuns(runs, currentId)) == Ok(Seen(Some(last), Accepted, []))
  {
    var prior := PriorRuns(runs, currentId);
    PriorMembers(runs, currentId);
    var k := FirstPosition(prior, last);
    forall m | 0 <= m < k ensures ReadsRejected(prior[m]) {
      assert prior[m] in prior && prior[m] in prior[..k];
      assert Newer(prior[m], prior[k]);
    }
    HistoryShows(own, prior, k);
  }

  lemma NothingIsShown(own: Identity, runs: seq<RunView>, currentId: nat)
    requires forall run <- runs :: run.id != currentId && run.title.None? ==> run.id <= LEGACY_WORKFLOW_RUN_BOUNDARY
    requires forall run <- runs :: run.id != currentId && run.title.Some? ==> IsRejected(run)
    ensures History(own, PriorRuns(runs, currentId)) == Ok(Seen(None, Unresolved, []))
  {
    PriorMembers(runs, currentId);
    HistoryShows(own, PriorRuns(runs, currentId), |PriorRuns(runs, currentId)|);
  }

  /** What a SEND evaluation has found, on the fields. */
  lemma SendFits(handoff: Handoff, receipt: Receipt, seen: Seen, around: Surroundings)
    ensures Evaluate(handoff, receipt, seen, around) == Send <==>
      && FitsReceipt(handoff, receipt) && FitsSurroundings(handoff, around) && seen.matching == []
      && match seen.latest
         case None => receipt.status == CompletedWork && around.bootstrapMatches
         case Some(last) =>
           last.title == Some(receipt.identity) && last.status == Completed && last.conclusion == Success &&
           seen.latestState == Accepted
  {
  }

  /** Whatever the list shows, SEND has checked all of it. */
  lemma SendMeansFits(handoff: Handoff, receipt: Receipt, runs: seq<RunView>, currentId: nat, around: Surroundings)
    requires Admit(handoff, receipt, runs, currentId, around) == Send
    ensures FitsReceipt(handoff, receipt) && FitsSurroundings(handoff, around)
    ensures FitsHistory(handoff, receipt, runs, currentId, around)
  {
    var prior := PriorRuns(runs, currentId);
    var seen := History(handoff.identity, prior).value;
    SendFits(handoff, receipt, seen, around);
    HistoryMeaning(handoff.identity, prior);
    PriorMembers(runs, currentId);
    if seen.latest.Some? {
      LatestIsNewestLive(runs, currentId, seen.latest.value, seen.latestState);
      assert IsReconciledPredecessor(runs, currentId, receipt, seen.latest.value);
    }
  }

  /** A handoff is sent exactly when it fits its receipt, its surroundings and the listed runs. */
  lemma AdmitExactly(handoff: Handoff, receipt: Receipt, runs: seq<RunView>, currentId: nat, around: Surroundings)
    requires OneRunPerId(runs)
    ensures Admit(handoff, receipt, runs, currentId, around) == Send <==>
      FitsReceipt(handoff, receipt) && FitsSurroundings(handoff, around) &&
      FitsHistory(handoff, receipt, runs, currentId, around)
  {
    if Admit(handoff, receipt, runs, currentId, around) == Send {
      SendMeansFits(handoff, receipt, runs, currentId, around);
    } else if FitsReceipt(handoff, receipt) && FitsSurroundings(handoff, around) &&
      FitsHistory(handoff, receipt, runs, currentId, around)
    {
      if last :| last in runs && IsReconciledPredecessor(runs, currentId, receipt, last) {
        PredecessorIsShown(handoff.identity, receipt, runs, currentId, last);
        SendFits(handoff, receipt, Seen(Some(last), Accepted, []), around);
      } else {
        NothingIsShown(handoff.identity, runs, currentId);
        SendFits(handoff, receipt, Seen(None, Unresolved, []), around);
      }
      assert false;
    }
  }
}
