/**
 What one admission reads from the shared run history
 (scripts/fanmind_orchestrator_admission.py, `_attempt_transport_state`, `_transport_state` and the history loop
 of `collect_github_truth`).
 */
module AdmissionHistory {
  import opened Wrappers

  /** The identity a run carries in its title. */
  datatype Identity = Identity(handoff: string, task: string, digest: string)

  datatype StepName = AdmitStep | TransportStep | OtherStep

  datatype Status = Queued | InProgress | Completed | OtherStatus

  datatype Conclusion = Success | Failure | Cancelled | TimedOut | Skipped | OtherConclusion | NoConclusion

  datatype Step = Step(name: StepName, status: Status, conclusion: Conclusion)

  datatype Job = Job(steps: seq<Step>)

  datatype TransportState = Unresolved | Rejected | Accepted

  datatype HistoryError = TransportUnreadable | AttemptsUnreadable | IdentityUnreadable

  /** One workflow run as the history shows it; `attempts` lists the jobs of every attempt. */
  datatype RunView = RunView(
    id: nat, started: nat, title: Option<Identity>, status: Status, conclusion: Conclusion, attempts: seq<seq<Job>>)

  const LEGACY_WORKFLOW_RUN_BOUNDARY: nat := 37234276748

  // ----- one run -----

  function AllSteps(jobs: seq<Job>): seq<Step> {
    if jobs == [] then [] else jobs[0].steps + AllSteps(jobs[1..])
  }

  function FirstStep(steps: seq<Step>, name: StepName): (first: Option<Step>)
    ensures first.Some? ==> first.value in steps && first.value.name == name
  {
    if steps == [] then None
    else if steps[0].name == name then Some(steps[0])
    else FirstStep(steps[1..], name)
  }

  /** `_attempt_transport_state`. */
  function AttemptState(jobs: seq<Job>): Result<TransportState, HistoryError> {
    var admit := FirstStep(AllSteps(jobs), AdmitStep);
    var transport := FirstStep(AllSteps(jobs), TransportStep);
    if transport.None? then Err(TransportUnreadable)
    else if transport.value.conclusion.Skipped? then
      if admit.Some? && admit.value.conclusion.Success? then Ok(Unresolved)
      else if admit.Some? && (admit.value.conclusion.Failure? || admit.value.conclusion.Skipped?) then Ok(Rejected)
      else Err(TransportUnreadable)
    else if transport.value.conclusion.Success? then Ok(Accepted)
    else if transport.value.status.Queued? || transport.value.status.InProgress? ||
      transport.value.conclusion.Failure? ||
      transport.value.conclusion.Cancelled? || transport.value.conclusion.TimedOut?
    then Ok(Unresolved)
    else Err(TransportUnreadable)
  }

  /** `_transport_state`: an unreadable attempt is an error, one unresolved attempt is enough, then one accepted. */
  function RunState(run: RunView): Result<TransportState, HistoryError> {
    if run.attempts == [] then Err(AttemptsUnreadable)
    else if exists jobs <- run.attempts :: AttemptState(jobs).Err? then Err(TransportUnreadable)
    else if exists jobs <- run.attempts :: AttemptState(jobs) == Ok(Unresolved) then Ok(Unresolved)
    else if exists jobs <- run.attempts :: AttemptState(jobs) == Ok(Accepted) then Ok(Accepted)
    else Ok(Rejected)
  }

  // ----- newest first -----

  /** `left` is listed before `right`: later start, then larger id. */
  predicate Newer(left: RunView, right: RunView) {
    left.started > right.started || (left.started == right.started && left.id >= right.id)
  }

  function InsertRun(run: RunView, sorted: seq<RunView>): seq<RunView> {
    if sorted == [] || Newer(run, sorted[0]) then [run] + sorted else [sorted[0]] + InsertRun(run, sorted[1..])
  }

  function NewestFirst(runs: seq<RunView>): seq<RunView> {
    if runs == [] then [] else InsertRun(runs[0], NewestFirst(runs[1..]))
  }

  predicate SortedNewestFirst(runs: seq<RunView>) {
    forall i, j :: 0 <= i < j < |runs| ==> Newer(runs[i], runs[j])
  }

  lemma {:induction false} InsertRunSorts(run: RunView, sorted: seq<RunView>)
    requires SortedNewestFirst(sorted)
    ensures SortedNewestFirst(InsertRun(run, sorted))
    ensures forall other :: other in InsertRun(run, sorted) <==> other == run || other in sorted
  {
    if sorted != [] {
      if Newer(run, sorted[0]) {
        assert forall k :: 0 <= k < |sorted| ==> Newer(run, sorted[k]);
      } else {
        InsertRunSorts(run, sorted[1..]);
        var rest := InsertRun(run, sorted[1..]);
        forall k | 0 <= k < |rest| ensures Newer(sorted[0], rest[k]) {
          assert rest[k] in rest;
          if rest[k] != run {
            var m :| 0 <= m < |sorted[1..]| && sorted[1..][m] == rest[k];
            assert Newer(sorted[0], sorted[m + 1]);
          }
        }
      }
    }
  }

  lemma {:induction false} NewestFirstSorts(runs: seq<RunView>)
    ensures SortedNewestFirst(NewestFirst(runs))
    ensures forall run :: run in NewestFirst(runs) <==> run in runs
  {
    if runs != [] {
      NewestFirstSorts(runs[1..]);
      InsertRunSorts(runs[0], NewestFirst(runs[1..]));
    }
  }

  /** `prior_runs`: every run but the current one, newest first. */
  function PriorRuns(runs: seq<RunView>, currentId: nat): seq<RunView> {
    NewestFirst(Others(runs, currentId))
  }

  function Others(runs: seq<RunView>, currentId: nat): (others: seq<RunView>)
    ensures forall run :: run in others <==> run in runs && run.id != currentId
  {
    if runs == [] then []
    else (if runs[0].id == currentId then [] else [runs[0]]) + Others(runs[1..], currentId)
  }

  // ----- the history loop -----

  /** The newest run that was not rejected, and every non-rejected run of the same identity. */
  datatype Seen = Seen(latest: Option<RunView>, latestState: TransportState, matching: seq<RunView>)

  function SeeRun(own: Identity, seen: Seen, run: RunView): Result<Seen, HistoryError> {
    if run.title.None? then
      if run.id <= LEGACY_WORKFLOW_RUN_BOUNDARY then Ok(seen) else Err(IdentityUnreadable)
    else
      var matches := run.title.value == own;
      if seen.latest.Some? && !matches then Ok(seen)
      else
        match RunState(run)
        case Err(error) => Err(error)
        case Ok(state) =>
          if state.Rejected? then Ok(seen)
          else
            var withLatest := if seen.latest.None? then seen.(latest := Some(run), latestState := state) else seen;
            Ok(if matches then withLatest.(matching := withLatest.matching + [run]) else withLatest)
  }

  function History(own: Identity, runs: seq<RunView>): Result<Seen, HistoryError> {
    if runs == [] then Ok(Seen(None, Unresolved, []))
    else
      var n := |runs| - 1;
      match History(own, runs[..n])
      case Err(error) => Err(error)
      case Ok(seen) => SeeRun(own, seen, runs[n])
  }

  lemma {:induction false} HistoryErrorStays(own: Identity, runs: seq<RunView>, n: nat)
    requires n <= |runs| && History(own, runs[..n]).Err?
    ensures History(own, runs) == History(own, runs[..n])
  {
    if n < |runs| {
      assert runs[..|runs| - 1][..n] == runs[..n];
      HistoryErrorStays(own, runs[..|runs| - 1], n);
    } else {
      assert runs[..n] == runs;
    }
  }

  /** The loop over the prior runs stops with the first error or returns what the whole list shows. */
  method CollectHistory(own: Identity, runs: seq<RunView>) returns (result: Result<Seen, HistoryError>)
    ensures result == History(own, runs)
  {
    var structured: seq<(RunView, TransportState)> := [];
    var matching: seq<RunView> := [];
    for i := 0 to |runs|
      invariant |structured| <= 1
      invariant History(own, runs[..i]) == Ok(SeenOf(structured, matching))
    {
      assert runs[..i + 1][..i] == runs[..i];
      var run := runs[i];
      if run.title.None? {
        if run.id <= LEGACY_WORKFLOW_RUN_BOUNDARY {
          continue;
        }
        HistoryErrorStays(own, runs, i + 1);
        return Err(IdentityUnreadable);
      }
      var matches := run.title.value == own;
      if structured != [] && !matches {
        continue;
      }
      var state := RunState(run);
      if state.Err? {
        HistoryErrorStays(own, runs, i + 1);
        return Err(state.error);
      }
      if state.value.Rejected? {
        continue;
      }
      if structured == [] {
        structured := structured + [(run, state.value)];
      }
      if matches {
        matching := matching + [run];
      }
    }
    assert runs[..|runs|] == runs;
    result := Ok(SeenOf(structured, matching));
  }

  function SeenOf(structured: seq<(RunView, TransportState)>, matching: seq<RunView>): Seen {
    if structured == [] then Seen(None, Unresolved, matching)
      else Seen(Some(structured[0].0), structured[0].1, matching)
  }

  // ----- what the loop has established -----

  ghost predicate ReadsRejected(run: RunView) {
    run.title.Some? ==> RunState(run) == Ok(Rejected)
  }

  /** `latest` is the first titled run that is not rejected. */
  ghost predicate IsLatest(runs: seq<RunView>, latest: RunView, state: TransportState) {
    exists k :: 0 <= k < |runs| && runs[k] == latest && latest.title.Some? && RunState(latest) == Ok(state) &&
      state != Rejected &&
      forall m :: 0 <= m < k ==> ReadsRejected(runs[m])
  }

  /**
   After an error-free reading: only legacy runs are untitled; without a latest run every titled run is rejected;
   the latest run is the newest titled run that is not rejected; and without a match every run of the same
   identity is rejected.
   */
  lemma {:induction false} HistoryMeaning(own: Identity, runs: seq<RunView>)
    requires History(own, runs).Ok?
    ensures var seen := History(own, runs).value;
            (seen.latest.None? ==> forall run <- runs :: ReadsRejected(run)) &&
            (seen.latest.Some? ==> IsLatest(runs, seen.latest.value, seen.latestState)) &&
            (seen.matching == [] ==> forall run <- runs :: run.title == Some(own) ==> RunState(run) == Ok(Rejected))
    ensures forall run <- runs :: run.title.None? ==> run.id <= LEGACY_WORKFLOW_RUN_BOUNDARY
  {
    if runs != [] {
      var n := |runs| - 1;
      HistoryMeaning(own, runs[..n]);
      var before, after := History(own, runs[..n]).value, History(own, runs).value;
      assert forall run :: run in runs <==> run in runs[..n] || run == runs[n];
      if before.latest.Some? {
        var k :| 0 <= k < n && runs[..n][k] == before.latest.value &&
          forall m :: 0 <= m < k ==> ReadsRejected(runs[..n][m]);
        assert runs[k] == after.latest.value && forall m :: 0 <= m < k ==> runs[m] == runs[..n][m];
      } else if after.latest.Some? {
        forall m | 0 <= m < n ensures ReadsRejected(runs[m]) { assert runs[m] in runs[..n]; }
        assert runs[n] == after.latest.value;
      }
    }
  }
}
