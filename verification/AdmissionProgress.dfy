/**
 The protocol is not stuck: a first handoff gets through, and so does the next one once its predecessor is
 delivered and the receipt naming it is on main (scripts/fanmind_orchestrator_admission.py:613-712, 1030-1101).
 */
module AdmissionProgress {
  import opened Wrappers
  import opened AdmissionHistory
  import opened Admission
  import opened AdmissionProtocol

  // ----- an honest history -----

  /** What the history shows of an attempt in that phase. */
  function HonestJobs(phase: Phase): seq<Job> {
    match phase
    case Transported => [Job([Step(AdmitStep, Completed, Success), Step(TransportStep, Completed, Success)])]
    case Refused => [Job([Step(AdmitStep, Completed, Failure), Step(TransportStep, Completed, Skipped)])]
    case Lost => [Job([Step(AdmitStep, Completed, Success), Step(TransportStep, Completed, Failure)])]
    case _ => [Job([Step(AdmitStep, InProgress, NoConclusion), Step(TransportStep, Queued, NoConclusion)])]
  }

  function HonestState(phase: Phase): TransportState {
    if phase.Transported? then Accepted else if phase.Refused? then Rejected else Unresolved
  }

  lemma HonestAttempt(phase: Phase)
    ensures AttemptState(HonestJobs(phase)) == Ok(HonestState(phase)) && TruthfulSteps(HonestJobs(phase), phase)
  {
    var steps := HonestJobs(phase)[0].steps;
    assert HonestJobs(phase)[1..] == [] && steps + [] == steps;
    assert AllSteps(HonestJobs(phase)) == steps;
    assert FirstStep(steps, AdmitStep) == Some(steps[0]) && FirstStep(steps, TransportStep) == Some(steps[1]) by {
      assert steps[1..][0] == steps[1];
    }
  }

  function HonestView(run: Run, i: nat): RunView
    requires run.phases != []
  {
    RunView(FIRST_ID + i, run.started, run.title, if Finished(Last(run)) then Completed else InProgress,
            if Last(run).Transported? then Success else NoConclusion,
            seq(|run.phases|, k requires 0 <= k < |run.phases| => HonestJobs(run.phases[k])))
  }

  function HonestViews(runs: seq<Run>): (views: seq<RunView>)
    requires forall run <- runs :: run.phases != []
    ensures |views| == |runs| && forall i :: 0 <= i < |views| ==> views[i] == HonestView(runs[i], i)
  {
    seq(|runs|, i requires 0 <= i < |runs| => HonestView(runs[i], i))
  }

  lemma HonestViewIsTruthful(run: Run, i: nat)
    requires run.phases != []
    ensures Truthful(run, HonestView(run, i))
  {
    forall k | 0 <= k < |run.phases| ensures TruthfulSteps(HonestView(run, i).attempts[k], run.phases[k]) {
      HonestAttempt(run.phases[k]);
    }
  }

  lemma HonestViewsShow(runs: seq<Run>)
    requires forall run <- runs :: run.phases != []
    ensures Shows(runs, HonestViews(runs))
  {
    var views := HonestViews(runs);
    forall i | 0 <= i < |runs| ensures Truthful(runs[i], views[i]) && Lists(views, i) {
      HonestViewIsTruthful(runs[i], i);
      assert views[i] in views;
    }
  }

  /** An honest view is always readable, and it is rejected exactly when every attempt was refused. */
  lemma HonestViewState(run: Run, i: nat)
    requires run.phases != []
    ensures RunState(HonestView(run, i)).Ok?
    ensures (forall phase <- run.phases :: phase.Refused?) ==> RunState(HonestView(run, i)) == Ok(Rejected)
    ensures run.phases == [Transported] ==> RunState(HonestView(run, i)) == Ok(Accepted)
  {
    var attempts := HonestView(run, i).attempts;
    forall jobs | jobs in attempts ensures exists phase <- run.phases :: AttemptState(jobs) == Ok(HonestState(phase)) {
      var k :| 0 <= k < |attempts| && attempts[k] == jobs;
      HonestAttempt(run.phases[k]);
    }
    assert attempts[0] in attempts;
  }

  // ----- reading it -----

  /** A readable history is read without error, and nothing matches when every namesake was rejected. */
  lemma {:induction false} ReadableHistory(own: Identity, runs: seq<RunView>)
    requires forall run <- runs :: run.title.Some? && RunState(run).Ok?
    requires forall run <- runs :: run.title == Some(own) ==> RunState(run) == Ok(Rejected)
    ensures History(own, runs).Ok? && History(own, runs).value.matching == []
  {
    if runs != [] {
      ReadableHistory(own, runs[..|runs| - 1]);
      assert runs[|runs| - 1] in runs;
    }
  }

  /** The state in which run `i` is to follow run `l`: nothing after `l` is open or got past rejection. */
  ghost predicate MayFollow(w: World, i: nat, l: nat) {
    && i < |w.runs| && l < |w.runs| && i != l
    && w.runs[i].phases == [Waiting] && w.runs[i].title == Some(w.runs[i].handoff.identity)
    && w.runs[l].phases == [Transported] && w.runs[l].title != w.runs[i].title
    && (forall run <- w.runs :: run.title.Some?)
    && (forall j :: 0 <= j < |w.runs| && j != i && j != l ==>
          (w.runs[j].started > w.runs[l].started || w.runs[j].title == w.runs[i].title ==>
             forall phase <- w.runs[j].phases :: phase.Refused?))
  }

  ghost predicate AllWellFormed(runs: seq<Run>) {
    forall run <- runs :: run.phases != []
  }

  /** The other runs of an honest history, newest first, are the honest views of the other runs. */
  lemma PriorAreHonest(runs: seq<Run>, i: nat, view: RunView)
    requires AllWellFormed(runs) && view in PriorRuns(HonestViews(runs), FIRST_ID + i)
    ensures exists j :: 0 <= j < |runs| && j != i && view == HonestView(runs[j], j)
  {
    var views := HonestViews(runs);
    NewestFirstSorts(Others(views, FIRST_ID + i));
    var j :| 0 <= j < |views| && views[j] == view;
  }

  lemma HonestArePrior(runs: seq<Run>, i: nat, j: nat)
    requires AllWellFormed(runs) && j < |runs| && j != i
    ensures HonestView(runs[j], j) in PriorRuns(HonestViews(runs), FIRST_ID + i)
  {
    var views := HonestViews(runs);
    NewestFirstSorts(Others(views, FIRST_ID + i));
    assert views[j] in views;
  }

  /** Before a follower decides, everything it reads is readable, and no namesake got past rejection. */
  lemma FollowerReadsWell(w: World, i: nat, l: nat)
    requires MayFollow(w, i, l) && AllWellFormed(w.runs)
    ensures var own := w.runs[i].handoff.identity;
            var history := History(own, PriorRuns(HonestViews(w.runs), FIRST_ID + i));
            history.Ok? && history.value.matching == []
  {
    var own, prior := w.runs[i].handoff.identity, PriorRuns(HonestViews(w.runs), FIRST_ID + i);
    forall view | view in prior
      ensures view.title.Some? && RunState(view).Ok? && (view.title == Some(own) ==> RunState(view) == Ok(Rejected))
    {
      PriorAreHonest(w.runs, i, view);
      var j :| 0 <= j < |w.runs| && j != i && view == HonestView(w.runs[j], j);
      assert w.runs[j] in w.runs;
      HonestViewState(w.runs[j], j);
    }
    ReadableHistory(own, prior);
  }

  /** The newest run that was not rejected is the delivered predecessor. */
  lemma NewestIsPredecessor(w: World, i: nat, l: nat, latest: RunView, state: TransportState)
    requires MayFollow(w, i, l) && AllWellFormed(w.runs)
    requires forall j :: 0 <= j < |w.runs| && j != l ==> w.runs[j].started != w.runs[l].started
    requires IsLatest(PriorRuns(HonestViews(w.runs), FIRST_ID + i), latest, state)
    ensures latest == HonestView(w.runs[l], l) && state == Accepted
  {
    var views, own := HonestViews(w.runs), HonestView(w.runs[l], l);
    LatestIsNewestLive(views, FIRST_ID + i, latest, state);
    HonestViewState(w.runs[l], l);
    assert views[l] in views && own.title.Some? by { assert w.runs[l] in w.runs; }
    PriorAreHonest(w.runs, i, latest);
    var j :| 0 <= j < |w.runs| && j != i && latest == HonestView(w.runs[j], j);
    HonestViewState(w.runs[j], j);
  }

  lemma StartsDiffer(w: World, l: nat)
    requires Inv(w) && l < |w.runs|
    ensures forall j :: 0 <= j < |w.runs| && j != l ==> w.runs[j].started != w.runs[l].started
  {
    forall j | 0 <= j < |w.runs| && j != l ensures w.runs[j].started != w.runs[l].started {
      assert PairOk(w.runs[j], w.runs[l]);
    }
  }

  lemma FollowerReads(w: World, i: nat, l: nat)
    requires Inv(w) && MayFollow(w, i, l) && AllWellFormed(w.runs)
    ensures History(w.runs[i].handoff.identity, PriorRuns(HonestViews(w.runs), FIRST_ID + i)) ==
            Ok(Seen(Some(HonestView(w.runs[l], l)), Accepted, []))
  {
    var own, prior := w.runs[i].handoff.identity, PriorRuns(HonestViews(w.runs), FIRST_ID + i);
    FollowerReadsWell(w, i, l);
    HistoryMeaning(own, prior);
    var seen := History(own, prior).value;
    HonestArePrior(w.runs, i, l);
    HonestViewState(w.runs[l], l);
    assert w.runs[l] in w.runs;
    StartsDiffer(w, l);
    NewestIsPredecessor(w, i, l, seen.latest.value, seen.latestState);
  }

  lemma HonestReadingCanHappen(w: World, i: nat, around: Surroundings)
    requires AllWellFormed(w.runs) && i < |w.runs| && w.runs[i].phases == [Waiting]
    requires around.currentAttempt == 1 && w.runs[i].title == Some(w.runs[i].handoff.identity)
    ensures CanHappen(w, Read(i, HonestViews(w.runs), around))
  {
    HonestViewsShow(w.runs);
  }

  /** A waiting run that reads `seen` off an honest history decides as the evaluation of `seen` does. */
  lemma HonestReadingSays(w: World, i: nat, around: Surroundings, seen: Seen)
    requires AllWellFormed(w.runs) && i < |w.runs| && w.runs[i].phases == [Waiting]
    requires w.runs[i].title == Some(w.runs[i].handoff.identity)
    requires History(w.runs[i].handoff.identity, PriorRuns(HonestViews(w.runs), FIRST_ID + i)) == Ok(seen)
    requires Evaluate(w.runs[i].handoff, w.receipt, seen, around) == Send
    ensures var reading := Read(i, HonestViews(w.runs), around);
            CanHappen(w, reading) && Says(w, reading) == Send
  {
    SendMeansSeen(w.runs[i].handoff, w.receipt, seen, around);
    HonestReadingCanHappen(w, i, around);
    AdmitReads(w.runs[i].handoff, w.receipt, HonestViews(w.runs), FIRST_ID + i, around, seen);
  }

  /** After any delivered run that was never re-run, the next handoff is sent as soon as its own checks pass. */
  lemma NextHandoffIsSent(w: World, i: nat, l: nat, around: Surroundings)
    requires Inv(w) && MayFollow(w, i, l) && AllWellFormed(w.runs)
    requires Evaluate(w.runs[i].handoff, w.receipt, Seen(Some(HonestView(w.runs[l], l)), Accepted, []), around) == Send
    ensures var reading := Read(i, HonestViews(w.runs), around);
            CanHappen(w, reading) && Says(w, reading) == Send
  {
    FollowerReads(w, i, l);
    HonestReadingSays(w, i, around, Seen(Some(HonestView(w.runs[l], l)), Accepted, []));
  }

  lemma AdmitReads(handoff: Handoff, receipt: Receipt, views: seq<RunView>, id: nat, around: Surroundings, seen: Seen)
    requires History(handoff.identity, PriorRuns(views, id)) == Ok(seen)
    ensures Admit(handoff, receipt, views, id, around) == Evaluate(handoff, receipt, seen, around)
  {}

  // ----- whole traces -----

  lemma StepFirst(w: World, e: Event, rest: seq<Event>)
    requires CanHappen(w, e) && IsTrace(After(w, e), rest)
    ensures IsTrace(w, [e] + rest) && EndOf(w, [e] + rest) == EndOf(After(w, e), rest)
  {
    assert ([e] + rest)[1..] == rest;
  }

  lemma {:induction false} TracesJoin(w: World, first: seq<Event>, second: seq<Event>)
    requires IsTrace(w, first) && IsTrace(EndOf(w, first), second)
    ensures IsTrace(w, first + second) && EndOf(w, first + second) == EndOf(EndOf(w, first), second)
    decreases |first|
  {
    if first == [] {
      assert first + second == second;
    } else {
      TracesJoin(After(w, first[0]), first[1..], second);
      StepFirst(w, first[0], first[1..] + second);
      assert [first[0]] + (first[1..] + second) == first + second;
    }
  }

  function Delivering(i: nat, views: seq<RunView>, around: Surroundings): seq<Event> {
    [Read(i, views, around)] + ([Proceed(i)] + ([Transport(i, true)] + []))
  }

  /** What a run looks like that was granted on `receipt` and delivered. */
  function Done(run: Run, grant: nat, receipt: Receipt): Run {
    run.(phases := [Transported], grant := grant, basis := Some(receipt))
  }

  lemma ProceedStep(w: World, i: nat)
    requires i < |w.runs| && w.runs[i].phases == [Decided(true)]
    ensures CanHappen(w, Proceed(i))
    ensures After(w, Proceed(i)) == w.(runs := w.runs[i := w.runs[i].(phases := [Admitted])])
  {
    assert w.runs[i].phases[0 := Admitted] == [Admitted];
  }

  lemma DeliverStep(w: World, i: nat)
    requires i < |w.runs| && w.runs[i].phases == [Admitted]
    ensures CanHappen(w, Transport(i, true))
    ensures After(w, Transport(i, true)) ==
            w.(runs := w.runs[i := w.runs[i].(phases := [Transported])], deliveries := w.deliveries + [i])
  {
    assert w.runs[i].phases[0 := Transported] == [Transported];
  }

  lemma GrantStep(w: World, i: nat)
    requires i < |w.runs| && w.runs[i].phases == [Waiting]
    ensures Grant(w, i) ==
            w.(runs := w.runs[i := Done(w.runs[i], |w.grants| + 1, w.receipt).(phases := [Decided(true)])],
              grants := w.grants + [i])
  {
    assert w.runs[i].phases[0 := Decided(true)] == [Decided(true)];
  }

  lemma GrantedIsDelivered(w: World, i: nat)
    requires i < |w.runs| && w.runs[i].phases == [Decided(true)]
    ensures var events := [Proceed(i)] + ([Transport(i, true)] + []);
            && IsTrace(w, events)
            && EndOf(w, events) ==
               w.(runs := w.runs[i := w.runs[i].(phases := [Transported])], deliveries := w.deliveries + [i])
  {
    ProceedStep(w, i);
    var admitted := After(w, Proceed(i));
    DeliverStep(admitted, i);
    assert admitted.runs[i := admitted.runs[i].(phases := [Transported])] ==
      w.runs[i := w.runs[i].(phases := [Transported])];
    StepFirst(admitted, Transport(i, true), []);
    StepFirst(w, Proceed(i), [Transport(i, true)] + []);
  }

  /** A reading that says SEND can be followed by admission and delivery. */
  lemma SentIsDelivered(w: World, i: nat, views: seq<RunView>, around: Surroundings)
    requires CanHappen(w, Read(i, views, around)) && Says(w, Read(i, views, around)) == Send &&
      w.runs[i].phases == [Waiting]
    ensures var events := Delivering(i, views, around);
            && IsTrace(w, events)
            && EndOf(w, events) == w.(runs := w.runs[i := Done(w.runs[i], |w.grants| + 1, w.receipt)],
                                      grants := w.grants + [i], deliveries := w.deliveries + [i])
  {
    var granted := After(w, Read(i, views, around));
    GrantStep(w, i);
    GrantedIsDelivered(granted, i);
    assert granted.runs[i := granted.runs[i].(phases := [Transported])] ==
           w.runs[i := Done(w.runs[i], |w.grants| + 1, w.receipt)];
    StepFirst(w, Read(i, views, around), [Proceed(i)] + ([Transport(i, true)] + []));
  }

  function Created(handoff: Handoff, started: nat): Run {
    Run(Some(handoff.identity), handoff, started, [Waiting], 0, None)
  }

  function FirstEvents(handoff: Handoff, around: Surroundings): seq<Event> {
    [Create(Some(handoff.identity), handoff)] + Delivering(0, HonestViews([Created(handoff, 0)]), around)
  }

  /** The world after the first delivery. */
  function AfterFirst(handoff: Handoff, receipt: Receipt): World {
    World([Done(Created(handoff, 0), 1, receipt)], 1, receipt, [receipt], [0], [0])
  }

  /** On an empty history, a handoff that passes the remaining checks is admitted and delivered. */
  lemma FirstHandoffIsDelivered(handoff: Handoff, receipt: Receipt, around: Surroundings)
    requires Evaluate(handoff, receipt, Seen(None, Unresolved, []), around) == Send
    ensures IsTrace(Start(receipt), FirstEvents(handoff, around))
    ensures EndOf(Start(receipt), FirstEvents(handoff, around)) == AfterFirst(handoff, receipt)
  {
    var creation := Create(Some(handoff.identity), handoff);
    var created, views := After(Start(receipt), creation), HonestViews([Created(handoff, 0)]);
    assert created.runs == [Created(handoff, 0)];
    SendMeansSeen(handoff, receipt, Seen(None, Unresolved, []), around);
    HonestReadingCanHappen(created, 0, around);
    NothingBefore(handoff, views);
    AdmitReads(handoff, receipt, views, FIRST_ID, around, Seen(None, Unresolved, []));
    SentIsDelivered(created, 0, views, around);
    StepFirst(Start(receipt), creation, Delivering(0, views, around));
  }

  lemma NothingBefore(handoff: Handoff, views: seq<RunView>)
    requires |views| == 1 && views[0].id == FIRST_ID
    ensures History(handoff.identity, PriorRuns(views, FIRST_ID)) == Ok(Seen(None, Unresolved, []))
  {
    assert views[1..] == [] && Others(views[1..], FIRST_ID) == [];
    assert Others(views, FIRST_ID) == [];
  }

  function SecondRuns(first: Handoff, receipt: Receipt, second: Handoff): seq<Run> {
    [Done(Created(first, 0), 1, receipt), Created(second, 1)]
  }

  function SecondEvents(first: Handoff, receipt: Receipt, second: Handoff, landed: Receipt,
                        around: Surroundings): seq<Event>
  {
    [Land(landed)] + ([Create(Some(second.identity), second)] +
      Delivering(1, HonestViews(SecondRuns(first, receipt, second)), around))
  }

  /** Once a receipt naming the first handoff has landed, a second handoff is delivered after it. */
  lemma SecondHandoffIsDelivered(first: Handoff, receipt: Receipt, before: Surroundings,
                                 second: Handoff, landed: Receipt, around: Surroundings)
    requires Evaluate(first, receipt, Seen(None, Unresolved, []), before) == Send && first.identity != second.identity
    requires var delivered := HonestView(Done(Created(first, 0), 1, receipt), 0);
             Evaluate(second, landed, Seen(Some(delivered), Accepted, []), around) == Send
    ensures var events := FirstEvents(first, before) + SecondEvents(first, receipt, second, landed, around);
            IsTrace(Start(receipt), events) && EndOf(Start(receipt), events).deliveries == [0, 1]
  {
    FirstHandoffIsDelivered(first, receipt, before);
    Reached(receipt, FirstEvents(first, before));
    SecondFollowsFirst(first, receipt, second, landed, around);
    TracesJoin(Start(receipt), FirstEvents(first, before), SecondEvents(first, receipt, second, landed, around));
  }

  lemma SecondFollowsFirst(first: Handoff, receipt: Receipt, second: Handoff, landed: Receipt, around: Surroundings)
    requires Inv(AfterFirst(first, receipt)) && first.identity != second.identity
    requires var delivered := HonestView(Done(Created(first, 0), 1, receipt), 0);
             Evaluate(second, landed, Seen(Some(delivered), Accepted, []), around) == Send
    ensures var world, events := AfterFirst(first, receipt), SecondEvents(first, receipt, second, landed, around);
            IsTrace(world, events) && EndOf(world, events).deliveries == [0, 1]
  {
    var world := AfterFirst(first, receipt);
    var creation := Create(Some(second.identity), second);
    var created := BeforeSecond(first, receipt, second, landed);
    SecondArrives(first, receipt, second, landed);
    SecondMayFollow(created, first, receipt, second);
    FollowerIsDelivered(created, 1, 0, around);
    var delivering := Delivering(1, HonestViews(created.runs), around);
    StepFirst(After(world, Land(landed)), creation, delivering);
    StepFirst(world, Land(landed), [creation] + delivering);
  }

  lemma FollowerIsDelivered(w: World, i: nat, l: nat, around: Surroundings)
    requires Inv(w) && MayFollow(w, i, l) && AllWellFormed(w.runs)
    requires Evaluate(w.runs[i].handoff, w.receipt, Seen(Some(HonestView(w.runs[l], l)), Accepted, []), around) == Send
    ensures var events := Delivering(i, HonestViews(w.runs), around);
            IsTrace(w, events) && EndOf(w, events).deliveries == w.deliveries + [i]
  {
    NextHandoffIsSent(w, i, l, around);
    SentIsDelivered(w, i, HonestViews(w.runs), around);
  }

  /** The world when the second run has been created. */
  function BeforeSecond(first: Handoff, receipt: Receipt, second: Handoff, landed: Receipt): World {
    World(SecondRuns(first, receipt, second), 2, landed, [receipt, landed], [0], [0])
  }

  lemma SecondArrives(first: Handoff, receipt: Receipt, second: Handoff, landed: Receipt)
    requires Inv(AfterFirst(first, receipt))
    ensures var creation := Create(Some(second.identity), second);
            && After(After(AfterFirst(first, receipt), Land(landed)), creation) ==
              BeforeSecond(first, receipt, second, landed)
            && Inv(BeforeSecond(first, receipt, second, landed))
  {
    var world := AfterFirst(first, receipt);
    StepKeepsInv(world, Land(landed));
    StepKeepsInv(After(world, Land(landed)), Create(Some(second.identity), second));
  }

  lemma SecondMayFollow(w: World, first: Handoff, receipt: Receipt, second: Handoff)
    requires w.runs == SecondRuns(first, receipt, second) && first.identity != second.identity
    ensures MayFollow(w, 1, 0) && AllWellFormed(w.runs)
  {}
}
