/**
 Several workflow runs share one history and one receipt on main; every run decides its own admission
 (scripts/fanmind_orchestrator_admission.py:341-378, 613-694, 852-895, 1030-1101).

 Assumptions: a history read is atomic and lists every run, what it shows of a run is truthful, a first
 attempt starts when its run is created, and a run transports only after its own admit step. Runs are not
 otherwise serialized: creation, reading, admission and transport interleave freely.
 */
module AdmissionProtocol {
  import opened Wrappers
  import opened AdmissionHistory
  import opened Admission

  // ----- states -----

  /**
   Where one attempt stands. A decision is taken when the history is read and takes effect later; the admit step
   may still fail after a favourable one.
   */
  datatype Phase = Waiting | Decided(send: bool) | Admitted | Refused | Transported | Lost

  /** `grant` numbers the standing grants from 1; 0 means none. `basis` is the receipt the granting reading used. */
  datatype Run = Run(title: Option<Identity>, handoff: Handoff, started: nat, phases: seq<Phase>, grant: nat,
    basis: Option<Receipt>)

  /**
   `log` lists every receipt that has been on main, `grants` the runs with a standing grant in order, and
   `deliveries` the runs that transported, in the order in which they did.
   */
  datatype World = World(
    runs: seq<Run>, clock: nat, receipt: Receipt, log: seq<Receipt>, grants: seq<nat>, deliveries: seq<nat>)

  const FIRST_ID: nat := LEGACY_WORKFLOW_RUN_BOUNDARY + 1

  predicate Granted(phase: Phase) {
    phase == Decided(true) || phase.Admitted? || phase.Transported? || phase.Lost?
  }

  predicate Finished(phase: Phase) {
    phase.Refused? || phase.Transported? || phase.Lost?
  }

  function Last(run: Run): Phase
    requires run.phases != []
  {
    run.phases[|run.phases| - 1]
  }

  // ----- what a reading may show -----

  /** A step's conclusion is only shown for what really happened in the attempt. */
  predicate TruthfulSteps(jobs: seq<Job>, phase: Phase) {
    forall step <- AllSteps(jobs) ::
      (step.name.TransportStep? && step.conclusion.Success? ==> phase.Transported?) &&
      (step.name.AdmitStep? && (step.conclusion.Failure? || step.conclusion.Skipped?) ==> phase.Refused?)
  }

  predicate Truthful(run: Run, view: RunView) {
    run.phases != [] && view.title == run.title && view.started == run.started && |view.attempts| == |run.phases| &&
    (forall k :: 0 <= k < |run.phases| ==> TruthfulSteps(view.attempts[k], run.phases[k])) &&
    (view.status.Completed? ==> Finished(Last(run))) &&
    (view.conclusion.Success? ==> Last(run).Transported?)
  }

  /** Every run is listed, truthfully; besides them only untitled legacy runs appear. */
  ghost predicate Shows(runs: seq<Run>, views: seq<RunView>) {
    (forall view <- views ::
       (view.title.None? && view.id < FIRST_ID) ||
       (FIRST_ID <= view.id < FIRST_ID + |runs| && Truthful(runs[view.id - FIRST_ID], view))) &&
    forall i :: 0 <= i < |runs| ==> Lists(views, i)
  }

  ghost predicate Lists(views: seq<RunView>, i: nat) {
    exists view <- views :: view.id == FIRST_ID + i
  }

  // ----- steps -----

  datatype Event =
    | Create(title: Option<Identity>, handoff: Handoff)
    | Land(receipt: Receipt)
    | Read(run: nat, views: seq<RunView>, around: Surroundings)
    | Proceed(run: nat)
    | Refuse(run: nat)
    | Transport(run: nat, delivered: bool)
    | Rerun(run: nat)

  function Says(w: World, e: Event): Decision
    requires e.Read? && e.run < |w.runs|
  {
    Admit(w.runs[e.run].handoff, w.receipt, e.views, FIRST_ID + e.run, e.around)
  }

  ghost predicate CanHappen(w: World, e: Event) {
    match e
    case Create(_, _) => true
    case Land(_) => true
    case Read(i, views, around) =>
      i < |w.runs| && w.runs[i].phases != [] && Last(w.runs[i]).Waiting? && Shows(w.runs, views) &&
      around.currentAttempt == |w.runs[i].phases| &&
      (around.currentRunMatches ==> w.runs[i].title == Some(w.runs[i].handoff.identity))
    case Proceed(i) => i < |w.runs| && w.runs[i].phases != [] && Last(w.runs[i]) == Decided(true)
    case Refuse(i) => i < |w.runs| && w.runs[i].phases != [] && (Last(w.runs[i]).Waiting? || Last(w.runs[i]).Decided?)
    case Transport(i, _) => i < |w.runs| && w.runs[i].phases != [] && Last(w.runs[i]).Admitted?
    case Rerun(i) => i < |w.runs| && w.runs[i].phases != [] && Finished(Last(w.runs[i]))
  }

  /** The last attempt moves to `phase`. */
  function MoveRun(run: Run, phase: Phase): Run
    requires run.phases != []
  {
    run.(phases := run.phases[|run.phases| - 1 := phase])
  }

  function Replace(w: World, i: nat, run: Run): World
    requires i < |w.runs|
  {
    w.(runs := w.runs[i := run])
  }

  function After(w: World, e: Event): World
    requires CanHappen(w, e)
  {
    match e
    case Create(title, handoff) => w.(runs := w.runs + [Run(title, handoff, w.clock, [Waiting], 0, None)],
      clock := w.clock + 1)
    case Land(receipt) => w.(receipt := receipt, log := w.log + [receipt])
    case Read(i, _, _) =>
      if Says(w, e) == Send then Grant(w, i) else Replace(w, i, MoveRun(w.runs[i], Decided(false)))
    case Proceed(i) => Replace(w, i, MoveRun(w.runs[i], Admitted))
    case Refuse(i) =>
      if Last(w.runs[i]) == Decided(true) then Revoke(w, i) else Replace(w, i, MoveRun(w.runs[i], Refused))
    case Transport(i, delivered) =>
      if delivered then Deliver(w, i) else Replace(w, i, MoveRun(w.runs[i], Lost))
    case Rerun(i) =>
      var run := w.runs[i];
      Replace(w, i, run.(phases := run.phases + [Waiting], started := w.clock)).(clock := w.clock + 1)
  }

  function Grant(w: World, i: nat): World
    requires i < |w.runs| && w.runs[i].phases != []
  {
    Replace(w, i, MoveRun(w.runs[i], Decided(true)).(grant := |w.grants| + 1,
      basis := Some(w.receipt))).(grants := w.grants + [i])
  }

  /** The admit step fails after a SEND: the run is refused, and its grant, the newest one, no longer stands. */
  function Revoke(w: World, i: nat): World
    requires i < |w.runs| && w.runs[i].phases != []
  {
    Replace(w, i, MoveRun(w.runs[i], Refused).(grant := 0, basis := None))
      .(grants := if w.grants == [] then [] else w.grants[..|w.grants| - 1])
  }

  function Deliver(w: World, i: nat): World
    requires i < |w.runs| && w.runs[i].phases != []
  {
    Replace(w, i, MoveRun(w.runs[i], Transported)).(deliveries := w.deliveries + [i])
  }

  function Start(receipt: Receipt): World {
    World([], 0, receipt, [receipt], [], [])
  }

  /** `events` is a run of the whole system from `w`. */
  ghost predicate IsTrace(w: World, events: seq<Event>)
    decreases |events|
  {
    events == [] || (CanHappen(w, events[0]) && IsTrace(After(w, events[0]), events[1..]))
  }

  ghost function EndOf(w: World, events: seq<Event>): World
    requires IsTrace(w, events)
    decreases |events|
  {
    if events == [] then w else EndOf(After(w, events[0]), events[1..])
  }

  // ----- the invariant -----

  /** A run whose first attempt has not been decided in its favour and may still be. */
  predicate Open(run: Run) {
    run.phases != [] && (run.phases[0].Waiting? || run.phases[0] == Decided(false))
  }

  predicate NeverRerun(run: Run) {
    |run.phases| == 1
  }

  /**
   What holds of every run by itself: only its first attempt can be granted, and the oldest grants are the delivered
   ones.
   */
  predicate RunOk(run: Run, clock: nat, count: nat, delivered: nat, log: seq<Receipt>) {
    run.phases != [] && run.started < clock &&
    (forall k :: 0 <= k < |run.phases| - 1 ==> Finished(run.phases[k])) &&
    (forall k :: 1 <= k < |run.phases| ==> !Granted(run.phases[k])) &&
    (Granted(run.phases[0]) <==> run.grant > 0) && run.grant <= count &&
    (run.grant > 0 ==> (run.phases[0].Transported? <==> run.grant <= delivered)) &&
    (run.grant > 0 ==> run.title == Some(run.handoff.identity)) &&
    (run.grant > 1 ==> run.basis.Some? && run.basis.value.typed && run.basis.value in log)
  }

  /**
   What holds between any two runs: a grant that was never re-run started before every later grant and before
   every open run, identities are granted once, and each grant rests on a receipt for the grant before it.
   */
  predicate PairOk(a: Run, b: Run) {
    a.started != b.started &&
    (a.grant > 0 && b.grant > 0 ==> a.grant != b.grant && a.title != b.title) &&
    (a.grant > 0 && NeverRerun(a) && (b.grant > a.grant || Open(b)) ==> a.started < b.started) &&
    (a.grant > 0 && b.grant == a.grant + 1 ==> b.basis.Some? && a.title == Some(b.basis.value.identity))
  }

  ghost predicate Inv(w: World) {
    (forall i :: 0 <= i < |w.runs| ==> RunOk(w.runs[i], w.clock, |w.grants|, |w.deliveries|, w.log)) &&
    (forall i, j :: 0 <= i < |w.runs| && 0 <= j < |w.runs| && i != j ==> PairOk(w.runs[i], w.runs[j])) &&
    (forall k :: 0 <= k < |w.grants| ==> w.grants[k] < |w.runs| && w.runs[w.grants[k]].grant == k + 1) &&
    w.deliveries <= w.grants && |w.grants| <= |w.deliveries| + 1 &&
    w.receipt in w.log
  }

  // ----- reading states off views -----

  lemma RejectedMeansRefused(run: Run, view: RunView)
    requires Truthful(run, view) && RunState(view) == Ok(Rejected)
    ensures run.phases[0].Refused?
  {
    var jobs := view.attempts[0];
    assert jobs in view.attempts;
    assert AttemptState(jobs) == Ok(Rejected);
    assert TruthfulSteps(jobs, run.phases[0]);
    assert FirstStep(AllSteps(jobs), AdmitStep).value in AllSteps(jobs);
  }

  lemma AcceptedMeansTransported(run: Run, view: RunView)
    requires Truthful(run, view) && RunState(view) == Ok(Accepted)
    requires forall k :: 1 <= k < |run.phases| ==> !Granted(run.phases[k])
    ensures run.phases[0].Transported?
    ensures view.conclusion.Success? ==> NeverRerun(run)
  {
  }

  // ----- the granting step -----

  /** What the reading shows about the other runs: their own states, in terms of the world itself. */
  ghost predicate ReadingSaysSend(w: World, i: nat) {
    i < |w.runs| && NeverRerun(w.runs[i]) && w.runs[i].phases[0].Waiting? &&
    w.receipt.typed && w.runs[i].title == Some(w.runs[i].handoff.identity) &&
    (forall j :: 0 <= j < |w.runs| && j != i && w.runs[j].title == w.runs[i].title ==> NotLive(w.runs[j])) &&
    ((forall j :: 0 <= j < |w.runs| && j != i ==> NotLive(w.runs[j])) || exists l: nat :: IsNewestDelivered(w, i, l))
  }

  predicate NotLive(run: Run) {
    run.phases != [] && run.phases[0].Refused?
  }

  /** Run `l` was delivered, never re-run, is named by the receipt, and no run that is not refused started later. */
  ghost predicate IsNewestDelivered(w: World, i: nat, l: nat) {
    l < |w.runs| && l != i && NeverRerun(w.runs[l]) && w.runs[l].phases[0].Transported? &&
    w.runs[l].title == Some(w.receipt.identity) &&
    forall j :: 0 <= j < |w.runs| && j != i ==> NotLive(w.runs[j]) || w.runs[j].started <= w.runs[l].started
  }

  /** The listed view of another run, which is titled. */
  lemma ViewOf(runs: seq<Run>, views: seq<RunView>, i: nat, j: nat) returns (view: RunView)
    requires Shows(runs, views) && j < |runs| && j != i
    requires forall run <- views :: run.id != FIRST_ID + i && run.title.None? ==> run.id <= LEGACY_WORKFLOW_RUN_BOUNDARY
    ensures view in views && view.id == FIRST_ID + j && Truthful(runs[j], view) && view.title.Some?
  {
    assert Lists(views, j);
    view :| view in views && view.id == FIRST_ID + j;
  }

  lemma NotLiveFromView(runs: seq<Run>, views: seq<RunView>, i: nat, j: nat)
    requires Shows(runs, views) && j < |runs| && j != i
    requires forall run <- views :: run.id != FIRST_ID + i && run.title.None? ==> run.id <= LEGACY_WORKFLOW_RUN_BOUNDARY
    ensures (forall run <- views :: run.id != FIRST_ID + i && run.title == runs[j].title ==>
      RunState(run) == Ok(Rejected)) ==> NotLive(runs[j])
    ensures AllOthersRejected(views, FIRST_ID + i) ==> NotLive(runs[j])
    ensures forall other :: NewestLive(views, FIRST_ID + i, other) ==>
      NotLive(runs[j]) || runs[j].started <= other.started
  {
    var view := ViewOf(runs, views, i, j);
    if RunState(view) == Ok(Rejected) { RejectedMeansRefused(runs[j], view); }
  }

  lemma SendMeansReadingSaysSend(w: World, e: Event)
    requires Inv(w) && e.Read? && CanHappen(w, e) && Says(w, e) == Send
    ensures ReadingSaysSend(w, e.run)
  {
    var i, id := e.run, FIRST_ID + e.run;
    SendMeansHistoryReconciled(w.runs[i].handoff, w.receipt, e.views, id, e.around);
    forall j | 0 <= j < |w.runs| && j != i
      ensures w.runs[j].title == w.runs[i].title ==> NotLive(w.runs[j])
      ensures AllOthersRejected(e.views, id) ==> NotLive(w.runs[j])
    {
      NotLiveFromView(w.runs, e.views, i, j);
    }
    assert RunOk(w.runs[i], w.clock, |w.grants|, |w.deliveries|, w.log);
    if !AllOthersRejected(e.views, id) {
      var other :| other in e.views && PredecessorReconciled(e.views, id, w.receipt, other);
      PredecessorIsNewest(w, e.views, i, other);
    }
  }

  lemma PredecessorIsNewest(w: World, views: seq<RunView>, i: nat, other: RunView)
    requires Inv(w) && Shows(w.runs, views) && i < |w.runs|
    requires forall run <- views :: run.id != FIRST_ID + i && run.title.None? ==> run.id <= LEGACY_WORKFLOW_RUN_BOUNDARY
    requires PredecessorReconciled(views, FIRST_ID + i, w.receipt, other)
    ensures IsNewestDelivered(w, i, other.id - FIRST_ID)
  {
    var l := other.id - FIRST_ID;
    assert RunOk(w.runs[l], w.clock, |w.grants|, |w.deliveries|, w.log);
    AcceptedMeansTransported(w.runs[l], other);
    forall j | 0 <= j < |w.runs| && j != i ensures NotLive(w.runs[j]) || w.runs[j].started <= w.runs[l].started {
      NotLiveFromView(w.runs, views, i, j);
    }
  }

  /**
   A SEND reading implies that every earlier grant is delivered, nothing else is open, and the receipt names the
   last grant.
   */
  ghost predicate AllDelivered(w: World, i: nat) {
    i < |w.runs| &&
    forall j :: 0 <= j < |w.runs| && j != i ==>
      w.runs[j].phases != [] && !Open(w.runs[j]) &&
      (w.runs[j].grant > 0 ==> w.runs[j].phases[0].Transported? && w.runs[j].title != w.runs[i].title) &&
      (w.runs[j].grant > 0 && w.runs[j].grant == |w.grants| ==> w.runs[j].title == Some(w.receipt.identity))
  }

  lemma ReadingMeansAllDelivered(w: World, i: nat)
    requires Inv(w) && ReadingSaysSend(w, i)
    ensures AllDelivered(w, i)
  {
    if l: nat :| IsNewestDelivered(w, i, l) {
      assert RunOk(w.runs[l], w.clock, |w.grants|, |w.deliveries|, w.log);
      forall j | 0 <= j < |w.runs| && j != i
        ensures !Open(w.runs[j]) &&
          (w.runs[j].grant > 0 ==> w.runs[j].phases[0].Transported? && w.runs[j].title != w.runs[i].title)
        ensures w.runs[j].grant > 0 && w.runs[j].grant == |w.grants| ==> j == l
      {
        assert RunOk(w.runs[j], w.clock, |w.grants|, |w.deliveries|, w.log);
        if j != l { assert PairOk(w.runs[l], w.runs[j]) && PairOk(w.runs[j], w.runs[l]); }
      }
    } else {
      forall j | 0 <= j < |w.runs| && j != i ensures NotLive(w.runs[j]) && w.runs[j].grant == 0 {
        assert RunOk(w.runs[j], w.clock, |w.grants|, |w.deliveries|, w.log);
      }
    }
  }

  // ----- every step keeps the invariant -----

  /** One run is replaced without touching its grant; everything else stays. */
  lemma ReplaceKeepsInv(w: World, i: nat, run: Run, clock: nat)
    requires Inv(w) && i < |w.runs| && w.clock <= clock
    requires RunOk(run, clock, |w.grants|, |w.deliveries|, w.log) && run.grant == w.runs[i].grant
    requires forall j :: 0 <= j < |w.runs| && j != i ==> PairOk(run, w.runs[j]) && PairOk(w.runs[j], run)
    ensures Inv(Replace(w, i, run).(clock := clock))
  {
    var after := Replace(w, i, run).(clock := clock);
    forall j | 0 <= j < |w.runs| ensures RunOk(after.runs[j], clock, |w.grants|, |w.deliveries|, w.log) {
      if j != i { assert RunOk(w.runs[j], w.clock, |w.grants|, |w.deliveries|, w.log); }
    }
    forall j, k | 0 <= j < |w.runs| && 0 <= k < |w.runs| && j != k ensures PairOk(after.runs[j], after.runs[k]) {
      if j != i && k != i { assert PairOk(w.runs[j], w.runs[k]); }
    }
  }

  lemma GrantKeepsInv(w: World, i: nat)
    requires Inv(w) && ReadingSaysSend(w, i)
    ensures Inv(Grant(w, i))
  {
    ReadingMeansAllDelivered(w, i);
    var after := Grant(w, i);
    var count, delivered := |w.grants|, |w.deliveries|;
    assert RunOk(w.runs[i], w.clock, count, delivered, w.log);
    assert after.runs[i].phases == [Decided(true)] && |after.grants| == count + 1;
    if count > 0 {
      var newest := w.grants[count - 1];
      assert RunOk(w.runs[newest], w.clock, count, delivered, w.log) && w.runs[newest].grant == count && newest != i;
    }
    forall j | 0 <= j < |w.runs| ensures RunOk(after.runs[j], after.clock, count + 1, delivered, after.log) {
      assert RunOk(w.runs[j], w.clock, count, delivered, w.log);
    }
    GrantKeepsPairs(w, i);
    forall k | 0 <= k < |after.grants|
      ensures after.grants[k] < |after.runs| && after.runs[after.grants[k]].grant == k + 1
    {
      if k < count { assert w.grants[k] != i; }
    }
  }

  lemma GrantKeepsPairs(w: World, i: nat)
    requires Inv(w) && ReadingSaysSend(w, i) && AllDelivered(w, i)
    ensures var runs := Grant(w, i).runs;
            forall j, k :: 0 <= j < |runs| && 0 <= k < |runs| && j != k ==> PairOk(runs[j], runs[k])
  {
    var after, count, delivered := Grant(w, i), |w.grants|, |w.deliveries|;
    assert RunOk(w.runs[i], w.clock, count, delivered, w.log);
    forall j, k | 0 <= j < |w.runs| && 0 <= k < |w.runs| && j != k ensures PairOk(after.runs[j], after.runs[k]) {
      assert PairOk(w.runs[j], w.runs[k]);
      assert RunOk(w.runs[j], w.clock, count, delivered, w.log) && RunOk(w.runs[k], w.clock, count, delivered, w.log);
    }
  }

  lemma GrantsAreDistinct(w: World, i: nat, j: nat)
    requires Inv(w) && i < |w.runs| && j < |w.runs| && w.runs[i].grant == w.runs[j].grant > 0
    ensures i == j
  {}

  /** A run whose grant is under way holds the newest grant, and it was never re-run. */
  lemma UnderWayIsNewest(w: World, i: nat)
    requires Inv(w) && i < |w.runs| && w.runs[i].phases != []
    requires Granted(Last(w.runs[i])) && !Last(w.runs[i]).Transported?
    ensures NeverRerun(w.runs[i]) && w.runs[i].grant == |w.grants| == |w.deliveries| + 1
    ensures w.grants[|w.grants| - 1] == i
  {
    assert RunOk(w.runs[i], w.clock, |w.grants|, |w.deliveries|, w.log);
    var newest := w.grants[|w.grants| - 1];
    GrantsAreDistinct(w, newest, i);
  }

  /** A move of the last phase that neither grants, delivers, revokes nor opens anything. */
  lemma MoveKeepsInv(w: World, i: nat, phase: Phase)
    requires Inv(w) && i < |w.runs|
    requires w.runs[i].phases != []
    requires var last := Last(w.runs[i]);
             !Finished(last) && (Granted(last) <==> Granted(phase)) && !phase.Transported? &&
             (phase.Waiting? || phase == Decided(false) ==> last.Waiting? || last == Decided(false))
    ensures Inv(Replace(w, i, MoveRun(w.runs[i], phase)))
  {
    var run, moved := w.runs[i], MoveRun(w.runs[i], phase);
    assert RunOk(run, w.clock, |w.grants|, |w.deliveries|, w.log);
    assert Open(moved) ==> Open(run);
    forall j | 0 <= j < |w.runs| && j != i ensures PairOk(moved, w.runs[j]) && PairOk(w.runs[j], moved) {
      assert PairOk(run, w.runs[j]) && PairOk(w.runs[j], run);
    }
    ReplaceKeepsInv(w, i, moved, w.clock);
  }

  lemma RevokeKeepsInv(w: World, i: nat)
    requires Inv(w) && CanHappen(w, Refuse(i)) && Last(w.runs[i]) == Decided(true)
    ensures Inv(Revoke(w, i))
  {
    UnderWayIsNewest(w, i);
    var after, count, delivered := Revoke(w, i), |w.grants|, |w.deliveries|;
    assert after.runs[i].phases == [Refused] && after.grants == w.grants[..count - 1];
    forall j | 0 <= j < |w.runs| ensures RunOk(after.runs[j], after.clock, count - 1, delivered, after.log) {
      assert RunOk(w.runs[j], w.clock, count, delivered, w.log);
      assert j != i ==> PairOk(w.runs[j], w.runs[i]);
    }
    forall j, k | 0 <= j < |w.runs| && 0 <= k < |w.runs| && j != k ensures PairOk(after.runs[j], after.runs[k]) {
      assert PairOk(w.runs[j], w.runs[k]);
    }
    forall k | 0 <= k < count - 1 ensures w.grants[k] != i {}
  }

  lemma DeliverKeepsInv(w: World, i: nat)
    requires Inv(w) && CanHappen(w, Transport(i, true))
    ensures Inv(Deliver(w, i))
  {
    UnderWayIsNewest(w, i);
    var after, count, delivered := Deliver(w, i), |w.grants|, |w.deliveries|;
    assert after.runs[i].phases == [Transported] && after.deliveries == w.grants;
    forall j | 0 <= j < |w.runs| ensures RunOk(after.runs[j], after.clock, count, delivered + 1, after.log) {
      assert RunOk(w.runs[j], w.clock, count, delivered, w.log);
      assert j != i ==> PairOk(w.runs[j], w.runs[i]);
    }
    forall j, k | 0 <= j < |w.runs| && 0 <= k < |w.runs| && j != k ensures PairOk(after.runs[j], after.runs[k]) {
      assert PairOk(w.runs[j], w.runs[k]);
    }
  }

  lemma RerunKeepsInv(w: World, i: nat)
    requires Inv(w) && CanHappen(w, Rerun(i))
    ensures Inv(After(w, Rerun(i)))
  {
    var run := w.runs[i];
    var again := run.(phases := run.phases + [Waiting], started := w.clock);
    assert RunOk(run, w.clock, |w.grants|, |w.deliveries|, w.log);
    assert again.phases[0] == run.phases[0] && Finished(run.phases[0]);
    forall k | 0 <= k < |again.phases| - 1 ensures Finished(again.phases[k]) {}
    forall j | 0 <= j < |w.runs| && j != i ensures PairOk(again, w.runs[j]) && PairOk(w.runs[j], again) {
      assert PairOk(run, w.runs[j]) && PairOk(w.runs[j], run);
      assert RunOk(w.runs[j], w.clock, |w.grants|, |w.deliveries|, w.log);
    }
    ReplaceKeepsInv(w, i, again, w.clock + 1);
  }

  lemma CreateKeepsInv(w: World, title: Option<Identity>, handoff: Handoff)
    requires Inv(w)
    ensures Inv(After(w, Create(title, handoff)))
  {
    var after := After(w, Create(title, handoff));
    var n, created := |w.runs|, after.runs[|w.runs|];
    assert RunOk(created, after.clock, |w.grants|, |w.deliveries|, w.log);
    forall j | 0 <= j < n
      ensures RunOk(after.runs[j], after.clock, |w.grants|, |w.deliveries|, w.log)
      ensures PairOk(created, after.runs[j]) && PairOk(after.runs[j], created)
    {
      assert RunOk(w.runs[j], w.clock, |w.grants|, |w.deliveries|, w.log);
    }
    forall j, k | 0 <= j < |after.runs| && 0 <= k < |after.runs| && j != k
      ensures PairOk(after.runs[j], after.runs[k])
    {
      if j < n && k < n { assert PairOk(w.runs[j], w.runs[k]); }
    }
  }

  lemma LandKeepsInv(w: World, receipt: Receipt)
    requires Inv(w)
    ensures Inv(After(w, Land(receipt)))
  {
    var after := After(w, Land(receipt));
    assert after.log[|w.log|] == receipt;
    forall j | 0 <= j < |w.runs| ensures RunOk(after.runs[j], after.clock, |w.grants|, |w.deliveries|, after.log) {
      assert RunOk(w.runs[j], w.clock, |w.grants|, |w.deliveries|, w.log);
    }
  }

  /** The invariant survives every step of every run. */
  lemma StepKeepsInv(w: World, e: Event)
    requires Inv(w) && CanHappen(w, e)
    ensures Inv(After(w, e))
  {
    match e
    case Create(title, handoff) => CreateKeepsInv(w, title, handoff);
    case Land(receipt) => LandKeepsInv(w, receipt);
    case Read(i, _, _) =>
      if Says(w, e) == Send {
        SendMeansReadingSaysSend(w, e);
        GrantKeepsInv(w, i);
      } else {
        MoveKeepsInv(w, i, Decided(false));
      }
    case Proceed(i) => MoveKeepsInv(w, i, Admitted);
    case Refuse(i) =>
      if Last(w.runs[i]) == Decided(true) {
        RevokeKeepsInv(w, i);
      } else {
        MoveKeepsInv(w, i, Refused);
      }
    case Transport(i, delivered) =>
      if delivered {
        DeliverKeepsInv(w, i);
      } else {
        MoveKeepsInv(w, i, Lost);
      }
    case Rerun(i) => RerunKeepsInv(w, i);
  }

  lemma {:induction false} TraceKeepsInv(w: World, events: seq<Event>)
    requires Inv(w) && IsTrace(w, events)
    ensures Inv(EndOf(w, events))
    decreases |events|
  {
    if events != [] {
      StepKeepsInv(w, events[0]);
      TraceKeepsInv(After(w, events[0]), events[1..]);
    }
  }

  lemma Reached(receipt: Receipt, events: seq<Event>)
    requires IsTrace(Start(receipt), events)
    ensures Inv(EndOf(Start(receipt), events))
  {
    assert receipt in Start(receipt).log;
    TraceKeepsInv(Start(receipt), events);
  }

  // ----- the guarantees -----

  /** Some attempt of the run has transported. */
  predicate Delivered(run: Run) {
    exists phase <- run.phases :: phase.Transported?
  }

  /** Some attempt of the run went on its way but was not delivered. */
  predicate Failed(run: Run) {
    exists phase <- run.phases :: phase.Lost?
  }

  lemma OnlyFirstGranted(run: Run, clock: nat, count: nat, delivered: nat, log: seq<Receipt>)
    requires RunOk(run, clock, count, delivered, log)
    ensures Delivered(run) <==> run.phases[0].Transported?
    ensures Failed(run) <==> run.phases[0].Lost?
    ensures Delivered(run) || Failed(run) ==> run.grant > 0
  {
    assert run.phases[0] in run.phases;
    forall phase | phase in run.phases && Granted(phase) ensures phase == run.phases[0] {
      var k :| 0 <= k < |run.phases| && run.phases[k] == phase;
    }
  }

  /** The delivery list is complete, and no run is in it twice. */
  lemma DeliveriesAreListed(w: World, i: nat)
    requires Inv(w) && i < |w.runs|
    ensures Delivered(w.runs[i]) <==> i in w.deliveries
    ensures Delivered(w.runs[i]) ==> w.runs[i].grant > 0 && w.deliveries[w.runs[i].grant - 1] == i
    ensures forall j, k :: 0 <= j < k < |w.deliveries| ==> w.deliveries[j] != w.deliveries[k]
  {
    var run, delivered := w.runs[i], |w.deliveries|;
    assert RunOk(run, w.clock, |w.grants|, delivered, w.log);
    OnlyFirstGranted(run, w.clock, |w.grants|, delivered, w.log);
    if Delivered(run) {
      var listed := w.grants[run.grant - 1];
      assert w.deliveries[run.grant - 1] == listed;
      GrantsAreDistinct(w, listed, i);
    }
    if i in w.deliveries {
      var k :| 0 <= k < delivered && w.deliveries[k] == i;
      assert w.grants[k] == i;
    }
  }

  /** Under every interleaving, each handoff, task and digest is transported by at most one run, in one attempt. */
  lemma TransportedAtMostOnce(receipt: Receipt, events: seq<Event>, i: nat, j: nat)
    requires IsTrace(Start(receipt), events)
    requires var w := EndOf(Start(receipt), events);
             i < |w.runs| && j < |w.runs| && Delivered(w.runs[i]) && Delivered(w.runs[j]) &&
             w.runs[i].title == w.runs[j].title
    ensures i == j
    ensures forall k :: 1 <= k < |EndOf(Start(receipt), events).runs[i].phases| ==>
              !EndOf(Start(receipt), events).runs[i].phases[k].Transported?
  {
    Reached(receipt, events);
    var w := EndOf(Start(receipt), events);
    OnlyFirstGranted(w.runs[i], w.clock, |w.grants|, |w.deliveries|, w.log);
    OnlyFirstGranted(w.runs[j], w.clock, |w.grants|, |w.deliveries|, w.log);
    assert i != j ==> PairOk(w.runs[i], w.runs[j]);
    forall k | 1 <= k < |w.runs[i].phases| ensures !w.runs[i].phases[k].Transported? {
      assert !Granted(w.runs[i].phases[k]);
    }
  }

  /** The SEND reading of run `next` rested on a terminal receipt on main that names exactly run `previous`. */
  ghost predicate RestsOnReceiptFor(w: World, previous: nat, next: nat) {
    previous < |w.runs| && next < |w.runs| &&
    exists r <- w.log :: w.runs[next].basis == Some(r) && r.typed && w.runs[previous].title == Some(r.identity)
  }

  /**
   Transports are strictly serial: the runs that transported are listed in the order in which they did, each of
   them once, and every one but the first was admitted on a terminal receipt naming the run delivered just before.
   */
  lemma TransportsAreSerial(receipt: Receipt, events: seq<Event>)
    requires IsTrace(Start(receipt), events)
    ensures var w := EndOf(Start(receipt), events);
            (forall i :: 0 <= i < |w.runs| ==> (Delivered(w.runs[i]) <==> i in w.deliveries)) &&
            (forall j, k :: 0 <= j < k < |w.deliveries| ==> w.deliveries[j] != w.deliveries[k]) &&
            forall k :: 1 <= k < |w.deliveries| ==> RestsOnReceiptFor(w, w.deliveries[k - 1], w.deliveries[k])
  {
    Reached(receipt, events);
    var w := EndOf(Start(receipt), events);
    forall i | 0 <= i < |w.runs|
      ensures Delivered(w.runs[i]) <==> i in w.deliveries
      ensures forall j, k :: 0 <= j < k < |w.deliveries| ==> w.deliveries[j] != w.deliveries[k]
    {
      DeliveriesAreListed(w, i);
    }
    forall k | 1 <= k < |w.deliveries| ensures RestsOnReceiptFor(w, w.deliveries[k - 1], w.deliveries[k]) {
      SuccessorRestsOnReceipt(w, k);
    }
    assert |w.deliveries| > 0 ==> w.deliveries[0] == w.grants[0];
  }

  lemma SuccessorRestsOnReceipt(w: World, k: nat)
    requires Inv(w) && 1 <= k < |w.deliveries|
    ensures RestsOnReceiptFor(w, w.deliveries[k - 1], w.deliveries[k])
  {
    var previous, next := w.grants[k - 1], w.grants[k];
    assert w.deliveries[k - 1] == previous && w.deliveries[k] == next;
    assert RunOk(w.runs[next], w.clock, |w.grants|, |w.deliveries|, w.log);
    assert PairOk(w.runs[previous], w.runs[next]);
    assert w.runs[next].basis.value in w.log;
  }

  /** A lost transport is the newest grant, so nothing else is under way. */
  lemma FailureStopsStep(w: World, e: Event, i: nat)
    requires Inv(w) && CanHappen(w, e) && i < |w.runs| && Failed(w.runs[i])
    ensures var after := After(w, e);
            after.grants == w.grants && after.deliveries == w.deliveries && i < |after.runs| && Failed(after.runs[i])
  {
    OnlyFirstGranted(w.runs[i], w.clock, |w.grants|, |w.deliveries|, w.log);
    assert RunOk(w.runs[i], w.clock, |w.grants|, |w.deliveries|, w.log);
    NothingElseUnderWay(w, e, i);
    var after := After(w, e);
    assert after.runs[i].phases[0] == w.runs[i].phases[0];
    assert after.runs[i].phases[0] in after.runs[i].phases;
  }

  lemma NothingElseUnderWay(w: World, e: Event, i: nat)
    requires Inv(w) && CanHappen(w, e) && i < |w.runs| && Failed(w.runs[i])
    ensures e.Read? ==> Says(w, e) != Send
    ensures !e.Proceed? && !e.Transport? && (e.Refuse? ==> Last(w.runs[e.run]) != Decided(true))
  {
    OnlyFirstGranted(w.runs[i], w.clock, |w.grants|, |w.deliveries|, w.log);
    assert RunOk(w.runs[i], w.clock, |w.grants|, |w.deliveries|, w.log);
    if e.Read? && Says(w, e) == Send {
      SendMeansReadingSaysSend(w, e);
      ReadingMeansAllDelivered(w, e.run);
      assert false;
    }
    if e.Proceed? || e.Transport? || (e.Refuse? && Last(w.runs[e.run]) == Decided(true)) {
      UnderWayIsNewest(w, e.run);
      GrantsAreDistinct(w, e.run, i);
      assert false;
    }
  }

  lemma {:induction false} FailStopTrace(w: World, events: seq<Event>, i: nat)
    requires Inv(w) && IsTrace(w, events) && i < |w.runs| && Failed(w.runs[i])
    ensures EndOf(w, events).grants == w.grants && EndOf(w, events).deliveries == w.deliveries
    decreases |events|
  {
    if events != [] {
      FailureStopsStep(w, events[0], i);
      StepKeepsInv(w, events[0]);
      FailStopTrace(After(w, events[0]), events[1..], i);
    }
  }

  /** Fail-stop: once a transport is lost, no run is admitted any more and no run is delivered that was not before. */
  lemma FailStop(w: World, events: seq<Event>, i: nat, j: nat)
    requires Inv(w) && IsTrace(w, events) && i < |w.runs| && Failed(w.runs[i])
    requires j < |EndOf(w, events).runs|
    ensures EndOf(w, events).grants == w.grants
    ensures Delivered(EndOf(w, events).runs[j]) ==> j < |w.runs| && Delivered(w.runs[j])
  {
    FailStopTrace(w, events, i);
    TraceKeepsInv(w, events);
    DeliveriesAreListed(EndOf(w, events), j);
    if j in w.deliveries {
      var k :| 0 <= k < |w.deliveries| && w.deliveries[k] == j;
      assert w.grants[k] == j;
      DeliveriesAreListed(w, j);
    }
  }

  /** Fail-stop from any reachable state, however many runs follow. */
  lemma FailStopReachable(receipt: Receipt, before: seq<Event>, later: seq<Event>, i: nat, j: nat)
    requires IsTrace(Start(receipt), before) && IsTrace(EndOf(Start(receipt), before), later)
    requires i < |EndOf(Start(receipt), before).runs| && Failed(EndOf(Start(receipt), before).runs[i])
    requires j < |EndOf(EndOf(Start(receipt), before), later).runs|
    ensures EndOf(EndOf(Start(receipt), before), later).grants == EndOf(Start(receipt), before).grants
    ensures Delivered(EndOf(EndOf(Start(receipt), before), later).runs[j]) ==>
              j < |EndOf(Start(receipt), before).runs| && Delivered(EndOf(Start(receipt), before).runs[j])
  {
    Reached(receipt, before);
    FailStop(EndOf(Start(receipt), before), later, i, j);
  }
}
