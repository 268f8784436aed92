/** What the ready set guarantees, for every board, every list of slots and every worker limit. */
module ManagerProperties {
  import opened Wrappers
  import opened WorkStatuses
  import opened Catalog
  import opened Scopes
  import opened Manager

  // ----- conflicts -----

  /** Two workers that may run at the same time. */
  ghost predicate SafeTogether(left: Worker, right: Worker) {
    WorkerParallelSafe(left) && WorkerParallelSafe(right) && Disjoint(left.action, right.action)
  }

  lemma PairReasonsEmpty(worker: Worker, action: Action)
    ensures PairReasons(worker, action) == {} <==> WorkerParallelSafe(worker) && Disjoint(worker.action, action)
  {
    if WorkerParallelSafe(worker) {
      NoReasonsMeansDisjoint(worker.action, action);
      var reasons := ConflictReasons(worker.action, action);
      if reasons != [] {
        assert reasons[0] in reasons;
        assert (worker, Scope(reasons[0])) in PairReasons(worker, action);
      }
    }
  }

  lemma EmptyUnion<T>(left: set<T>, right: set<T>)
    ensures left + right == {} <==> left == {} && right == {}
  {
  }

  /** A candidate collects no conflict exactly when it is disjoint from every running, parallel-safe worker. */
  lemma {:induction false} ConflictsWithEmpty(running: seq<Worker>, action: Action)
    ensures ConflictsWith(running, action) == {} <==>
      forall worker <- running :: WorkerParallelSafe(worker) && Disjoint(worker.action, action)
  {
    if running != [] {
      var front, last := running[..|running| - 1], running[|running| - 1];
      ConflictsWithEmpty(front, action);
      EmptyUnion(ConflictsWith(front, action), PairReasons(last, action));
      PairReasonsEmpty(last, action);
      assert forall worker :: worker in running <==> worker in front || worker == last;
    }
  }

  // ----- the lists only grow -----

  ghost predicate Grows(before: Tally, after: Tally) {
    before.selected <= after.selected && before.running <= after.running &&
    before.serialized <= after.serialized && before.blocked <= after.blocked
  }

  lemma {:induction false} AdmitAllGrows(board: Board, limit: nat, tally: Tally, actions: seq<Action>)
    ensures Grows(tally, AdmitAll(board, limit, tally, actions))
  {
    if actions != [] {
      AdmitAllGrows(board, limit, tally, actions[..|actions| - 1]);
    }
  }

  function WorkersOf(actions: seq<Action>): seq<Worker> {
    seq(|actions|, i requires 0 <= i < |actions| => Working(actions[i]))
  }

  lemma AdmitOneWorker(board: Board, limit: nat, tally: Tally, action: Action)
    ensures var after := AdmitOne(board, limit, tally, action);
            (after.selected == tally.selected && after.running == tally.running) ||
            (after.selected == tally.selected + [action] && after.running == tally.running + [Working(action)] &&
             |tally.running| < limit && DependencyOf(board, action).Satisfied?)
  {
  }

  lemma WorkersOfAppend(running: seq<Worker>, actions: seq<Action>, last: Action)
    ensures running + WorkersOf(actions + [last]) == running + WorkersOf(actions) + [Working(last)]
  {
  }

  /** New workers and newly selected actions correspond one to one, in the same order. */
  lemma {:induction false} AdmissionsTakeOneWorkerEach(board: Board, limit: nat, tally: Tally, actions: seq<Action>)
    ensures var after := AdmitAll(board, limit, tally, actions);
            tally.selected <= after.selected &&
            after.running == tally.running + WorkersOf(after.selected[|tally.selected|..])
  {
    if actions != [] {
      var n := |actions| - 1;
      AdmissionsTakeOneWorkerEach(board, limit, tally, actions[..n]);
      var before, after := AdmitAll(board, limit, tally, actions[..n]), AdmitAll(board, limit, tally, actions);
      AdmitOneWorker(board, limit, before, actions[n]);
      if after.selected != before.selected {
        var added := before.selected[|tally.selected|..];
        assert after.selected[|tally.selected|..] == added + [actions[n]];
        WorkersOfAppend(tally.running, added, actions[n]);
      }
    }
  }

  lemma {:induction false} KeepWorkersRunning(board: Board, tally: Tally, workers: seq<Worker>)
    ensures KeepWorkers(board, tally, workers).running == tally.running + workers
    ensures KeepWorkers(board, tally, workers).serialized == tally.serialized
  {
    if workers != [] {
      var n := |workers| - 1;
      KeepWorkersRunning(board, tally, workers[..n]);
      assert tally.running + workers == tally.running + workers[..n] + [workers[n]];
    }
  }

  // ----- pairwise safety -----

  /** Any two workers, at least one of them admitted after the first `kept`, are safe together. */
  ghost predicate PairwiseSafe(running: seq<Worker>, kept: nat) {
    forall i, j :: 0 <= i < j < |running| && kept <= j ==> SafeTogether(running[i], running[j])
  }

  lemma {:induction false} AdmitAllPairwise(board: Board, limit: nat, tally: Tally, actions: seq<Action>)
    ensures PairwiseSafe(AdmitAll(board, limit, tally, actions).running, |tally.running|)
  {
    if actions != [] {
      var n := |actions| - 1;
      AdmitAllPairwise(board, limit, tally, actions[..n]);
      AdmitAllGrows(board, limit, tally, actions[..n]);
      ConflictsWithEmpty(AdmitAll(board, limit, tally, actions[..n]).running, actions[n]);
    }
  }

  /**
   Of any two running workers of which at least one was newly admitted, both are declared
   parallel-safe, their tasks differ, and they share no scope value and no repository location.
   */
  lemma RunningWorkersAreDisjoint(board: Board, slots: seq<Slot>, limit: nat)
    ensures var report := ReportOf(board, slots, limit);
            report.activeContinuations <= report.running &&
            forall i, j :: 0 <= i < j < |report.running| && |report.activeContinuations| <= j ==>
              SafeTogether(report.running[i], report.running[j])
  {
    KeepWorkersRunning(board, Tally([], [], FailedEntries(board, Ordered(board)), []), Reservations(board, slots));
    assert [] + Reservations(board, slots) == Reservations(board, slots);
    AdmitAllPairwise(board, limit, ActiveTally(board, slots), NewCandidates(board, slots));
    AdmitAllGrows(board, limit, ActiveTally(board, slots), NewCandidates(board, slots));
  }

  // ----- the limit -----

  /** How the tallies at a lower and a higher limit relate after the same candidates. */
  ghost predicate LimitRelated(low: nat, lower: Tally, higher: Tally) {
    lower.selected <= higher.selected && lower.running <= higher.running &&
    (|lower.running| < low ==> lower.selected == higher.selected && lower.running == higher.running)
  }

  lemma {:induction false} AdmitAllLimitRelated(board: Board, low: nat, high: nat, tally: Tally, actions: seq<Action>)
    requires low <= high
    ensures LimitRelated(low, AdmitAll(board, low, tally, actions), AdmitAll(board, high, tally, actions))
  {
    if actions != [] {
      var n := |actions| - 1;
      AdmitAllLimitRelated(board, low, high, tally, actions[..n]);
      AdmitOneLimitRelated(board, low, high, AdmitAll(board, low, tally, actions[..n]),
        AdmitAll(board, high, tally, actions[..n]),
                           actions[n]);
    }
  }

  /** What one candidate does to the selection and the workers depends only on the workers and on free capacity. */
  lemma AdmitOneSelects(board: Board, limit: nat, tally: Tally, action: Action)
    ensures var after := AdmitOne(board, limit, tally, action);
            if |tally.running| < limit && Fits(board, tally.running, action) then
              after.selected == tally.selected + [action] && after.running == tally.running + [Working(action)]
            else after.selected == tally.selected && after.running == tally.running
  {
  }

  predicate Fits(board: Board, running: seq<Worker>, action: Action) {
    DependencyOf(board, action).Satisfied? &&
    (running == [] || (action.parallelSafe && ConflictsWith(running, action) == {}))
  }

  lemma AdmitOneLimitRelated(board: Board, low: nat, high: nat, lower: Tally, higher: Tally, action: Action)
    requires low <= high && LimitRelated(low, lower, higher)
    ensures LimitRelated(low, AdmitOne(board, low, lower, action), AdmitOne(board, high, higher, action))
  {
    AdmitOneSelects(board, low, lower, action);
    AdmitOneSelects(board, high, higher, action);
  }

  /** Raising the limit only appends to the ready set and to the running workers. */
  lemma ReadySetIsPrefix(board: Board, slots: seq<Slot>, low: nat, high: nat)
    requires low <= high
    ensures ReportOf(board, slots, low).safeReadySet <= ReportOf(board, slots, high).safeReadySet
    ensures ReportOf(board, slots, low).running <= ReportOf(board, slots, high).running
  {
    AdmitAllLimitRelated(board, low, high, ActiveTally(board, slots), NewCandidates(board, slots));
    var lower, higher := FinalTally(board, slots, low).selected, FinalTally(board, slots, high).selected;
    assert Ids(higher)[..|lower|] == Ids(lower);
  }

  lemma {:induction false} AdmitAllCapacity(board: Board, limit: nat, tally: Tally, actions: seq<Action>)
    ensures |AdmitAll(board, limit, tally, actions).running| <= if limit <= |tally.running| then |tally.running|
      else limit
  {
    if actions != [] {
      AdmitAllCapacity(board, limit, tally, actions[..|actions| - 1]);
      AdmitAllGrows(board, limit, tally, actions[..|actions| - 1]);
    }
  }

  /** Used workers never exceed the larger of the limit and the reservations. */
  lemma WorkersStayWithinLimit(board: Board, slots: seq<Slot>, limit: nat)
    ensures var report := ReportOf(board, slots, limit);
            |report.activeContinuations| <= report.workerUsed == |report.running| &&
            (report.workerUsed <= limit || report.workerUsed == |report.activeContinuations|)
  {
    KeepWorkersRunning(board, Tally([], [], FailedEntries(board, Ordered(board)), []), Reservations(board, slots));
    AdmitAllCapacity(board, limit, ActiveTally(board, slots), NewCandidates(board, slots));
    AdmitAllGrows(board, limit, ActiveTally(board, slots), NewCandidates(board, slots));
  }

  // ----- partition -----

  ghost predicate Serialized(tally: Tally, id: string) {
    exists entry <- tally.serialized :: entry.0 == id
  }

  ghost predicate Blocked(tally: Tally, id: string) {
    exists entry <- tally.blocked :: entry.0 == id
  }

  ghost predicate Selected(tally: Tally, id: string) {
    exists action <- tally.selected :: action.id == id
  }

  ghost predicate ExactlyOne(a: bool, b: bool, c: bool) {
    (a || b || c) && !(a && b) && !(a && c) && !(b && c)
  }

  lemma AdmitOneLists(board: Board, limit: nat, tally: Tally, action: Action, id: string)
    ensures var after := AdmitOne(board, limit, tally, action);
            (Selected(after, id) <==>
              Selected(tally, id) || (id == action.id && |after.selected| > |tally.selected|)) &&
            (Serialized(after, id) <==>
              Serialized(tally, id) || (id == action.id && |after.serialized| > |tally.serialized|)) &&
            (Blocked(after, id) <==> Blocked(tally, id) || (id == action.id && |after.blocked| > |tally.blocked|))
  {
  }

  lemma AdmitOneGrowsOneList(board: Board, limit: nat, tally: Tally, action: Action)
    ensures var after := AdmitOne(board, limit, tally, action);
            ExactlyOne(|after.selected| > |tally.selected|, |after.serialized| > |tally.serialized|,
              |after.blocked| > |tally.blocked|)
  {
  }

  ghost predicate Unlisted(tally: Tally, id: string) {
    !Selected(tally, id) && !Serialized(tally, id) && !Blocked(tally, id)
  }

  ghost predicate ListedOnce(tally: Tally, id: string) {
    ExactlyOne(Selected(tally, id), Serialized(tally, id), Blocked(tally, id))
  }

  lemma AdmitOneLocates(board: Board, limit: nat, tally: Tally, action: Action, id: string)
    ensures id == action.id && Unlisted(tally, id) ==> ListedOnce(AdmitOne(board, limit, tally, action), id)
    ensures id != action.id && Unlisted(tally, id) ==> Unlisted(AdmitOne(board, limit, tally, action), id)
    ensures id != action.id && ListedOnce(tally, id) ==> ListedOnce(AdmitOne(board, limit, tally, action), id)
  {
    AdmitOneLists(board, limit, tally, action, id);
    AdmitOneGrowsOneList(board, limit, tally, action);
  }

  /** An id that was nowhere is in exactly one list afterwards if it is a candidate's, and still nowhere if not. */
  lemma {:induction false} AdmitAllLocates(board: Board, limit: nat, tally: Tally, actions: seq<Action>, id: string)
    requires UniqueIds(actions) && Unlisted(tally, id)
    ensures (exists action <- actions :: action.id == id) ==> ListedOnce(AdmitAll(board, limit, tally, actions), id)
    ensures (forall action <- actions :: action.id != id) ==> Unlisted(AdmitAll(board, limit, tally, actions), id)
  {
    if actions != [] {
      var n := |actions| - 1;
      AdmitAllLocates(board, limit, tally, actions[..n], id);
      AdmitOneLocates(board, limit, AdmitAll(board, limit, tally, actions[..n]), actions[n], id);
      assert forall action :: action in actions <==> action in actions[..n] || action == actions[n];
      forall action | action in actions[..n] ensures action.id != actions[n].id {
        var i :| 0 <= i < n && actions[i] == action;
      }
    }
  }

  lemma {:induction false} FailedEntriesMeaning(board: Board, ordered: seq<Action>, id: string)
    ensures (exists entry <- FailedEntries(board, ordered) :: entry.0 == id) <==>
      exists action <- ordered :: action.id == id && Classify(board, action).FailedDoNotRestart?
  {
    if ordered != [] {
      var n := |ordered| - 1;
      FailedEntriesMeaning(board, ordered[..n], id);
      var front, all := FailedEntries(board, ordered[..n]), FailedEntries(board, ordered);
      assert forall action :: action in ordered <==> action in ordered[..n] || action == ordered[n];
      assert ordered[n] in ordered;
      if Classify(board, ordered[n]).FailedDoNotRestart? {
        assert all == front + [(ordered[n].id, FailedBefore)];
        assert (ordered[n].id, FailedBefore) in all;
        assert forall entry :: entry in all <==> entry in front || entry == (ordered[n].id, FailedBefore);
      } else {
        assert all == front;
      }
    }
  }

  /** Ids the active phase reports belong to reserved workers. */
  lemma {:induction false} KeepWorkersReportsOnlyActive(board: Board, tally: Tally, workers: seq<Worker>, id: string)
    requires !Selected(tally, id) && !Blocked(tally, id)
    ensures var kept := KeepWorkers(board, tally, workers);
            Selected(kept, id) || Blocked(kept, id) ==>
            exists worker <- workers :: worker.Working? && worker.action.id == id
  {
    if workers != [] {
      var n := |workers| - 1;
      KeepWorkersReportsOnlyActive(board, tally, workers[..n], id);
      assert forall worker :: worker in workers <==> worker in workers[..n] || worker == workers[n];
      var before, after := KeepWorkers(board, tally, workers[..n]), KeepWorkers(board, tally, workers);
      assert workers[n] in workers;
      assert after == KeepWorker(board, before, workers[n]);
      if workers[n].Working? && workers[n].action.id != id {
        assert Selected(after, id) ==> Selected(before, id);
        assert Blocked(after, id) ==> Blocked(before, id);
      }
    }
  }

  lemma NewCandidatesFacts(board: Board, slots: seq<Slot>)
    requires UniqueIds(board.actions)
    ensures UniqueIds(NewCandidates(board, slots))
    ensures forall action <- NewCandidates(board, slots) ::
      action in Candidates(board) && action in board.actions && action.id !in StoppedIds(board, slots) &&
      !(exists worker <- Reservations(board, slots) :: worker.Working? && worker.action.id == action.id)
  {
    CandidatesSorted(board);
    var workers, stopped := Reservations(board, slots), StoppedIds(board, slots);
    FilterKeepsUnique((action: Action) => IsNew(workers, stopped, action), Sort(Candidates(board)));
  }

  /** Every new candidate is reported exactly once: ready, serialized, or blocked by a dependency. */
  lemma NewCandidatesArePartitioned(board: Board, slots: seq<Slot>, limit: nat)
    requires UniqueIds(board.actions)
    ensures var report := ReportOf(board, slots, limit);
            forall action <- NewCandidates(board, slots) ::
              ExactlyOne(action.id in report.safeReadySet,
                         exists entry <- report.serialized :: entry.0 == action.id,
                         exists entry <- report.blocked :: entry.0 == action.id)
  {
    forall action | action in NewCandidates(board, slots)
      ensures ExactlyOne(action.id in ReportOf(board, slots, limit).safeReadySet,
                         Serialized(FinalTally(board, slots, limit), action.id),
                           Blocked(FinalTally(board, slots, limit), action.id))
    {
      NewCandidateStartsUnlisted(board, slots, action);
      NewCandidatesFacts(board, slots);
      AdmitAllLocates(board, limit, ActiveTally(board, slots), NewCandidates(board, slots), action.id);
      IdsMeaning(FinalTally(board, slots, limit).selected, action.id);
    }
  }

  /** A new candidate is in no list yet when admission begins. */
  lemma NewCandidateStartsUnlisted(board: Board, slots: seq<Slot>, action: Action)
    requires UniqueIds(board.actions) && action in NewCandidates(board, slots)
    ensures Unlisted(ActiveTally(board, slots), action.id)
  {
    var empty := Tally([], [], FailedEntries(board, Ordered(board)), []);
    NewCandidatesFacts(board, slots);
    KeepWorkersReportsOnlyActive(board, empty, Reservations(board, slots), action.id);
    KeepWorkersRunning(board, empty, Reservations(board, slots));
    SortKeepsMembers(board.actions);
    forall other | other in Ordered(board) && other.id == action.id ensures other == action {
      SameIdSameAction(board.actions, other, action);
    }
    FailedEntriesMeaning(board, Ordered(board), action.id);
  }

  lemma SameIdSameAction(actions: seq<Action>, left: Action, right: Action)
    requires UniqueIds(actions) && left in actions && right in actions && left.id == right.id
    ensures left == right
  {
  }

  lemma IdsMeaning(actions: seq<Action>, id: string)
    ensures id in Ids(actions) <==> exists action <- actions :: action.id == id
  {
    if id in Ids(actions) {
      var i :| 0 <= i < |actions| && Ids(actions)[i] == id;
      assert actions[i] in actions;
    }
    if exists action <- actions :: action.id == id {
      var action :| action in actions && action.id == id;
      var i :| 0 <= i < |actions| && actions[i] == action;
      assert Ids(actions)[i] == id;
    }
  }

  // ----- maximality -----

  /** `action` cannot be added to the running workers. */
  ghost predicate CannotJoin(running: seq<Worker>, action: Action) {
    running != [] && (!action.parallelSafe ||
    exists worker <- running :: !WorkerParallelSafe(worker) || !Disjoint(worker.action, action))
  }

  lemma {:induction false} SerializedCannotJoin(board: Board, limit: nat, tally: Tally, actions: seq<Action>)
    requires |AdmitAll(board, limit, tally, actions).running| < limit
    ensures var final := AdmitAll(board, limit, tally, actions);
            forall i :: |tally.serialized| <= i < |final.serialized| ==>
              exists action <- actions :: action.id == final.serialized[i].0 && CannotJoin(final.running, action)
  {
    if actions != [] {
      var n := |actions| - 1;
      var before, final := AdmitAll(board, limit, tally, actions[..n]), AdmitAll(board, limit, tally, actions);
      assert before.running <= final.running && before.serialized <= final.serialized;
      SerializedCannotJoin(board, limit, tally, actions[..n]);
      ConflictsWithEmpty(before.running, actions[n]);
      assert actions[n] in actions;
      forall i | |tally.serialized| <= i < |final.serialized|
        ensures exists action <- actions :: action.id == final.serialized[i].0 && CannotJoin(final.running, action)
      {
        if i < |before.serialized| {
          var action :| action in actions[..n] && action.id == before.serialized[i].0 &&
            CannotJoin(before.running, action);
          CannotJoinLater(before.running, final.running, action);
          assert action in actions;
        } else {
          assert final.serialized[i].0 == actions[n].id;
          assert CannotJoin(before.running, actions[n]);
          CannotJoinLater(before.running, final.running, actions[n]);
        }
      }
    }
  }

  lemma CannotJoinLater(before: seq<Worker>, after: seq<Worker>, action: Action)
    requires before <= after && CannotJoin(before, action)
    ensures CannotJoin(after, action)
  {
  }

  /** If capacity is left over, no serialized candidate could have been added without a conflict. */
  lemma ReadySetIsMaximal(board: Board, slots: seq<Slot>, limit: nat, action: Action)
    requires UniqueIds(board.actions) && action in NewCandidates(board, slots)
    requires ReportOf(board, slots, limit).workerUsed < limit
    requires exists entry <- ReportOf(board, slots, limit).serialized :: entry.0 == action.id
    ensures CannotJoin(ReportOf(board, slots, limit).running, action)
  {
    var news := NewCandidates(board, slots);
    var active, final := ActiveTally(board, slots), FinalTally(board, slots, limit);
    SerializedCannotJoin(board, limit, active, news);
    AdmitAllGrows(board, limit, active, news);
    NewCandidateStartsUnlisted(board, slots, action);
    var entry :| entry in final.serialized && entry.0 == action.id;
    var i :| 0 <= i < |final.serialized| && final.serialized[i] == entry;
    assert entry !in active.serialized;
    var other :| other in news && other.id == entry.0 && CannotJoin(final.running, other);
    NewCandidatesFacts(board, slots);
    SameIdSameAction(board.actions, other, action);
  }

  // ----- ready means dependencies are met -----

  lemma {:induction false} KeepWorkersSelectsSatisfied(board: Board, tally: Tally, workers: seq<Worker>)
    requires forall action <- tally.selected ::
      DependencyOf(board, action).Satisfied? && IsCandidateId(board, action.id)
    requires forall worker <- workers :: worker.Working? ==> worker.action in board.actions
    ensures forall action <- KeepWorkers(board, tally, workers).selected ::
      DependencyOf(board, action).Satisfied? && IsCandidateId(board, action.id) &&
      (action in tally.selected || action in board.actions)
  {
    if workers != [] {
      var n := |workers| - 1;
      KeepWorkersSelectsSatisfied(board, tally, workers[..n]);
      assert workers[n] in workers;
      assert forall worker <- workers[..n] :: worker in workers;
    }
  }

  lemma {:induction false} AdmitAllSelectsSatisfied(board: Board, limit: nat, tally: Tally, actions: seq<Action>)
    ensures forall action <- AdmitAll(board, limit, tally, actions).selected ::
      action in tally.selected || (action in actions && DependencyOf(board, action).Satisfied?)
  {
    if actions != [] {
      var n := |actions| - 1;
      AdmitAllSelectsSatisfied(board, limit, tally, actions[..n]);
      assert actions[n] in actions;
      assert forall action <- actions[..n] :: action in actions;
    }
  }

  lemma {:induction false} HeldMeaning(outcomes: seq<SlotOutcome>)
    ensures forall worker :: worker in Held(outcomes) <==> Reserves(worker) in outcomes
  {
    if outcomes != [] {
      var n := |outcomes| - 1;
      HeldMeaning(outcomes[..n]);
      assert forall outcome :: outcome in outcomes <==> outcome in outcomes[..n] || outcome == outcomes[n];
    }
  }

  lemma OutcomeInCatalog(board: Board, slot: Slot)
    ensures var outcome := OutcomeOf(board, slot);
            outcome.Reserves? && outcome.worker.Working? ==> outcome.worker.action in board.actions
  {
  }

  lemma ReservationsInCatalog(board: Board, slots: seq<Slot>)
    ensures forall worker <- Reservations(board, slots) :: worker.Working? ==> worker.action in board.actions
  {
    HeldMeaning(Outcomes(board, slots));
    forall worker | worker in Reservations(board, slots) ensures worker.Working? ==> worker.action in board.actions {
      var i :| 0 <= i < |slots| && Outcomes(board, slots)[i] == Reserves(worker);
      OutcomeInCatalog(board, slots[i]);
    }
  }

  /** Every ready id is an executable catalog action all of whose dependencies are completed catalog actions. */
  lemma ReadyMeansDependenciesMet(board: Board, slots: seq<Slot>, limit: nat, action: Action)
    requires UniqueIds(board.actions) && action in board.actions
    requires action.id in ReportOf(board, slots, limit).safeReadySet
    ensures Classify(board, action).Executable?
    ensures forall id <- action.dependsOn :: DependencyMet(board, id)
  {
    var empty := Tally([], [], FailedEntries(board, Ordered(board)), []);
    ReservationsInCatalog(board, slots);
    KeepWorkersSelectsSatisfied(board, empty, Reservations(board, slots));
    AdmitAllSelectsSatisfied(board, limit, ActiveTally(board, slots), NewCandidates(board, slots));
    IdsMeaning(FinalTally(board, slots, limit).selected, action.id);
    NewCandidatesFacts(board, slots);
    CandidatesSorted(board);
    var chosen :| chosen in FinalTally(board, slots, limit).selected && chosen.id == action.id;
    SameIdSameAction(board.actions, chosen, action);
    DependencyScanMeaning(board, action.dependsOn);
    forall candidate | candidate in Candidates(board) && candidate.id == action.id ensures candidate == action {
      SameIdSameAction(board.actions, candidate, action);
    }
  }

  // ----- serial selection agrees with the manager -----

  lemma {:induction false} FirstAdmissionIsFirstReady(board: Board, limit: nat, start: Tally, actions: seq<Action>)
    requires limit >= 1 && start.selected == [] && start.running == []
    ensures var ready := FirstReady(board, actions);
            var selected := AdmitAll(board, limit, start, actions).selected;
            (ready.None? <==> selected == []) && (ready.Some? ==> selected[0] == ready.value && ready.value in actions)
    ensures AdmitAll(board, limit, start, actions).running == [] <==>
      AdmitAll(board, limit, start, actions).selected == []
  {
    if actions != [] {
      var n := |actions| - 1;
      var before := AdmitAll(board, limit, start, actions[..n]);
      FirstAdmissionIsFirstReady(board, limit, start, actions[..n]);
      FirstReadyExtend(board, actions[..n], actions[n]);
      assert actions[..n] + [actions[n]] == actions;
      AdmitOneSelects(board, limit, before, actions[n]);
    }
  }

  lemma {:induction false} FirstReadyExtend(board: Board, actions: seq<Action>, last: Action)
    ensures FirstReady(board, actions + [last]) ==
      if FirstReady(board, actions).Some? then FirstReady(board, actions)
      else if DependencyOf(board, last).Satisfied? then Some(last) else None
  {
    if actions != [] {
      FirstReadyExtend(board, actions[1..], last);
      assert (actions + [last])[1..] == actions[1..] + [last];
    } else {
      assert [] + [last] == [last];
    }
  }

  lemma NoSlotsNewCandidates(board: Board)
    ensures NewCandidates(board, []) == Candidates(board)
    ensures Reservations(board, []) == []
  {
    CandidatesSorted(board);
    assert Outcomes(board, []) == [];
    FilterEverything((action: Action) => IsNew([], {}, action), Candidates(board));
  }

  lemma {:induction false} FilterEverything(keep: Action -> bool, actions: seq<Action>)
    requires forall action <- actions :: keep(action)
    ensures Filter(keep, actions) == actions
  {
    if actions != [] {
      assert actions[0] in actions;
      FilterEverything(keep, actions[1..]);
    }
  }

  /** Without active work, picking serially and picking through the manager give the same action. */
  lemma SerialAndManagerSelectionAgree(board: Board, limit: nat)
    requires UniqueIds(board.actions) && limit >= 1
    ensures SelectFromManager(board, ReportOf(board, [], limit).safeReadySet) == Ok(Select(board))
  {
    NoSlotsNewCandidates(board);
    CandidatesSorted(board);
    FirstAdmissionIsFirstReady(board, limit, ActiveTally(board, []), Candidates(board));
    if FirstReady(board, Candidates(board)).Some? {
      IndexOfUnique(board.actions, FirstReady(board, Candidates(board)).value);
    }
  }

  lemma {:induction false} WithoutActiveMeaning(ids: seq<string>, active: set<string>)
    ensures forall id :: id in WithoutActive(ids, active) <==> id in ids && id !in active
    ensures active == {} ==> WithoutActive(ids, active) == ids
  {
    if ids != [] {
      WithoutActiveMeaning(ids[1..], active);
    }
  }

  lemma {:induction false} KeepWorkersSelectsActive(board: Board, tally: Tally, workers: seq<Worker>)
    requires tally.selected == []
    ensures forall action <- KeepWorkers(board, tally, workers).selected :: Working(action) in workers
  {
    if workers != [] {
      var n := |workers| - 1;
      KeepWorkersSelectsActive(board, tally, workers[..n]);
      assert workers[n] in workers;
      assert forall worker <- workers[..n] :: worker in workers;
    }
  }

  lemma {:induction false} FullNothingAdmitted(board: Board, limit: nat, tally: Tally, actions: seq<Action>)
    requires |tally.running| >= limit
    ensures AdmitAll(board, limit, tally, actions).selected == tally.selected
    ensures AdmitAll(board, limit, tally, actions).running == tally.running
  {
    if actions != [] {
      FullNothingAdmitted(board, limit, tally, actions[..|actions| - 1]);
    }
  }

  lemma NoMembers(ids: seq<string>)
    ensures ids == [] <==> forall id :: id !in ids
  {
    if ids != [] { assert ids[0] in ids; }
  }

  /**
   The serial dispatcher is READY only without active work, and then names the head of the ready set at every limit.
   */
  lemma DispatchIsHeadOfEveryReadySet(board: Board, slots: seq<Slot>, limit: nat)
    requires limit >= 1 && UniqueIds(board.actions)
    ensures var dispatch := DispatchDecision(board, slots);
            dispatch.Ok? &&
            (dispatch.value.Ready? ==>
              Reservations(board, slots) == [] && ReportOf(board, slots, limit).safeReadySet != [] &&
              ReportOf(board, slots, limit).safeReadySet[0] == dispatch.value.action.id &&
              DependencyOf(board, dispatch.value.action).Satisfied?)
    ensures Reservations(board, slots) == [] && ReportOf(board, slots, limit).safeReadySet != [] ==>
            DispatchDecision(board, slots).value.Ready?
  {
    var workers := Reservations(board, slots);
    var active := ActiveTally(board, slots);
    var empty := Tally([], [], FailedEntries(board, Ordered(board)), []);
    var report := ReportOf(board, slots, 1);
    KeepWorkersRunning(board, empty, workers);
    KeepWorkersSelectsActive(board, empty, workers);
    WithoutActiveMeaning(report.safeReadySet, ContinuationIds(workers));
    if workers != [] {
      FullNothingAdmitted(board, 1, active, NewCandidates(board, slots));
      forall id | id in report.safeReadySet ensures id in ContinuationIds(workers) {
        IdsMeaning(active.selected, id);
        var action :| action in active.selected && action.id == id;
        assert Working(action) in workers;
      }
      NoMembers(WithoutActive(report.safeReadySet, ContinuationIds(workers)));
    } else {
      NewCandidatesFacts(board, slots);
      FirstAdmissionIsFirstReady(board, 1, active, NewCandidates(board, slots));
      FirstAdmissionIsFirstReady(board, limit, active, NewCandidates(board, slots));
      FirstReadySatisfied(board, NewCandidates(board, slots));
      if FirstReady(board, NewCandidates(board, slots)).Some? {
        IndexOfUnique(board.actions, FirstReady(board, NewCandidates(board, slots)).value);
      }
    }
  }

  lemma {:induction false} FirstReadySatisfied(board: Board, actions: seq<Action>)
    ensures var ready := FirstReady(board, actions);
            ready.Some? ==> ready.value in actions && DependencyOf(board, ready.value).Satisfied?
  {
    if actions != [] { FirstReadySatisfied(board, actions[1..]); }
  }

  /** Beside a worker that is not parallel-safe nothing is admitted. */
  lemma {:induction false} UnsafeWorkerStopsAdmission(board: Board, limit: nat, tally: Tally, actions: seq<Action>,
                                                      worker: Worker)
    requires worker in tally.running && !WorkerParallelSafe(worker)
    ensures AdmitAll(board, limit, tally, actions).selected == tally.selected
    ensures AdmitAll(board, limit, tally, actions).running == tally.running
  {
    if actions != [] {
      var n := |actions| - 1;
      UnsafeWorkerStopsAdmission(board, limit, tally, actions[..n], worker);
      ConflictsWithEmpty(tally.running, actions[n]);
      assert PairReasons(worker,
        actions[n]) != {} by { assert (worker, WorkerNotParallelSafe) in PairReasons(worker, actions[n]); }
    }
  }
}
