/**
 What the catalog, the slots and the dispatcher decide, on the fields of actions and slots
 (scripts/fanmind_next_best_action.py:586-675, 796-812, 847-1040, 1080-1149).
 */
module ManagerMeaning {
  import opened Wrappers
  import opened WorkStatuses
  import opened Catalog
  import opened Scopes
  import opened Manager
  import opened ManagerProperties

  // ----- one action -----

  /** The gate's state is one of the action's done states; an unlisted gate is in the state UNKNOWN. */
  ghost predicate IsReached(board: Board, action: Action) {
    if action.gate in board.gates then board.gates[action.gate] in action.doneStates else "UNKNOWN" in action.doneStates
  }

  ghost predicate IsFinished(board: Board, action: Action) {
    IsReached(board, action) || action.id in board.failed
  }

  ghost predicate GateAccepted(board: Board, gate: string) {
    gate in board.gates && (board.gates[gate] == "ACCEPTED" || board.gates[gate] == "PRODUCTION_CONFIRMED")
  }

  ghost predicate Prepared(board: Board, action: Action) {
    forall gate <- action.prerequisiteGates :: GateAccepted(board, gate)
  }

  ghost predicate Postponed(board: Board, action: Action) {
    action.deferredOwnerId != "" && action.deferredOwnerId in board.deferred
  }

  /** It is the owner's turn: nothing is missing, but the owner postponed the action or has to act. */
  ghost predicate NeedsOwner(board: Board, action: Action) {
    !IsFinished(board, action) && Prepared(board, action) && (Postponed(board, action) || action.requiresOwner)
  }

  ghost predicate CanStart(board: Board, action: Action) {
    !IsFinished(board, action) && Prepared(board, action) && !Postponed(board, action) && !action.requiresOwner
  }

  lemma {:induction false} MissingExactly(board: Board, gates: seq<string>)
    ensures forall gate, state :: (gate, state) in MissingPrerequisites(board, gates) <==>
      gate in gates && !GateAccepted(board, gate) &&
      state == if gate in board.gates then board.gates[gate] else "UNKNOWN"
    ensures MissingPrerequisites(board, gates) == [] <==> forall gate <- gates :: GateAccepted(board, gate)
  {
    if gates != [] {
      MissingExactly(board, gates[1..]);
      assert forall gate :: gate in gates <==> gate == gates[0] || gate in gates[1..];
      assert gates[0] in gates;
    }
  }

  /** The status of an action: finished first, then missing gates, then the owner. */
  lemma ClassifyExactly(board: Board, action: Action)
    ensures Classify(board, action).Done? <==> IsReached(board, action)
    ensures Classify(board, action).FailedDoNotRestart? <==> !IsReached(board, action) && action.id in board.failed
    ensures Classify(board, action).WaitingPrerequisite? <==> !IsFinished(board, action) && !Prepared(board, action)
    ensures Classify(board, action).WaitingPrerequisite? ==>
      forall gate, state :: (gate, state) in Classify(board, action).missing <==>
        gate in action.prerequisiteGates && !GateAccepted(board, gate) &&
        state == if gate in board.gates then board.gates[gate] else "UNKNOWN"
    ensures Classify(board, action) == DeferredByOwner(action.deferredOwnerId) <==>
      NeedsOwner(board, action) && Postponed(board, action)
    ensures Classify(board, action).DeferredByOwner? ==> Classify(board, action).ownerId == action.deferredOwnerId
    ensures Classify(board, action).OwnerActionRequired? <==> NeedsOwner(board, action) && !Postponed(board, action)
    ensures Classify(board, action).Executable? <==> CanStart(board, action)
  {
    MissingExactly(board, action.prerequisiteGates);
  }

  // ----- the order -----

  /** Lower priority number first, then the smaller id. */
  ghost predicate Before(left: Action, right: Action) {
    left.priority < right.priority || (left.priority == right.priority && TextBefore(left.id, right.id))
  }

  /** Equal, a prefix, or smaller at the first difference. */
  ghost predicate TextBefore(left: string, right: string) {
    left <= right || DiffersBefore(left, right)
  }

  ghost predicate DiffersBefore(left: string, right: string) {
    exists k :: 0 <= k < |left| && k < |right| && left[..k] == right[..k] && left[k] < right[k]
  }

  lemma DifferenceMovesOut(left: string, right: string)
    requires left != [] && right != [] && left[0] == right[0] && DiffersBefore(left[1..], right[1..])
    ensures DiffersBefore(left, right)
  {
    var l, r := left[1..], right[1..];
    var k :| 0 <= k < |l| && k < |r| && l[..k] == r[..k] && l[k] < r[k];
    assert left[..k + 1] == [left[0]] + l[..k] && right[..k + 1] == [left[0]] + r[..k];
    assert left[k + 1] < right[k + 1];
  }

  lemma DifferenceMovesIn(left: string, right: string)
    requires left != [] && right != [] && left[0] == right[0] && DiffersBefore(left, right)
    ensures DiffersBefore(left[1..], right[1..])
  {
    var l, r := left[1..], right[1..];
    var k :| 0 <= k < |left| && k < |right| && left[..k] == right[..k] && left[k] < right[k];
    assert l[..k - 1] == left[..k][1..] && r[..k - 1] == right[..k][1..];
    assert l[k - 1] < r[k - 1];
  }

  /** The order of two texts that begin alike is that of their rests. */
  lemma TextStep(left: string, right: string)
    requires left != [] && right != [] && left[0] == right[0]
    ensures TextBefore(left, right) <==> TextBefore(left[1..], right[1..])
  {
    assert left == [left[0]] + left[1..] && right == [left[0]] + right[1..];
    if DiffersBefore(left[1..], right[1..]) { DifferenceMovesOut(left, right); }
    if DiffersBefore(left, right) { DifferenceMovesIn(left, right); }
  }

  lemma TextDiffers(left: string, right: string)
    requires left != [] && right != [] && left[0] != right[0]
    ensures TextBefore(left, right) <==> left[0] < right[0]
  {
    if left[0] < right[0] {
      assert left[..0] == right[..0];
    } else {
      forall k | 0 < k < |left| && k < |right| ensures left[..k] != right[..k] {
        assert left[..k][0] == left[0] && right[..k][0] == right[0];
      }
    }
  }

  lemma {:induction false} TextOrder(left: string, right: string)
    ensures StringLe(left, right) <==> TextBefore(left, right)
  {
    if left != [] && right != [] {
      if left[0] == right[0] {
        TextOrder(left[1..], right[1..]);
        TextStep(left, right);
      } else {
        TextDiffers(left, right);
      }
    }
  }

  lemma OrderMeans(left: Action, right: Action)
    ensures KeyLe(left, right) <==> Before(left, right)
  {
    TextOrder(left.id, right.id);
  }

  // ----- owner and candidates -----

  ghost predicate FirstInNeedOfOwner(board: Board, action: Action) {
    && action in board.actions && NeedsOwner(board, action)
    && forall other <- board.actions :: NeedsOwner(board, other) ==> Before(action, other)
  }

  lemma OwnerMeans(board: Board, action: Action)
    ensures OwnerBlocking(Classify(board, action)) <==> NeedsOwner(board, action)
  {
    ClassifyExactly(board, action);
  }

  lemma {:induction false} FirstOwnerBlockedIsFirst(board: Board, ordered: seq<Action>)
    requires Sorted(ordered)
    ensures var first := FirstOwnerBlocked(board, ordered);
      && (first.None? <==> forall other <- ordered :: !NeedsOwner(board, other))
      && (first.Some? ==>
            first.value in ordered && NeedsOwner(board, first.value) &&
            forall other <- ordered :: NeedsOwner(board, other) ==> KeyLe(first.value, other))
  {
    if ordered != [] {
      OwnerMeans(board, ordered[0]);
      assert forall other :: other in ordered <==> other == ordered[0] || other in ordered[1..];
      if NeedsOwner(board, ordered[0]) {
        StringLeTotal(ordered[0].id, ordered[0].id);
        forall other | other in ordered ensures KeyLe(ordered[0], other) {
          var k :| 0 <= k < |ordered| && ordered[k] == other;
        }
      } else {
        FirstOwnerBlockedIsFirst(board, ordered[1..]);
      }
    }
  }

  /** The owner is waited for exactly when some action needs the owner, and first for the first one in order. */
  lemma OwnerTurnExactly(board: Board)
    ensures var first := FirstOwnerBlocked(board, Ordered(board));
      && (first.None? <==> forall action <- board.actions :: !NeedsOwner(board, action))
      && (first.Some? ==> FirstInNeedOfOwner(board, first.value))
  {
    SortCorrect(board.actions);
    SortKeepsMembers(board.actions);
    FirstOwnerBlockedIsFirst(board, Ordered(board));
    forall left, right ensures KeyLe(left, right) <==> Before(left, right) { OrderMeans(left, right); }
  }

  /** May be started now: executable, and not behind an action that needs the owner unless it is parallel-safe. */
  ghost predicate IsOpen(board: Board, action: Action) {
    && action in board.actions && CanStart(board, action)
    && (action.parallelSafe || forall other <- board.actions :: NeedsOwner(board, other) ==>
          action.priority <= other.priority)
  }

  /** No action that needs or awaits the owner, or misses a gate, is ever a candidate. */
  lemma CandidatesExactly(board: Board, action: Action)
    ensures action in Candidates(board) <==> IsOpen(board, action)
  {
    SortKeepsMembers(board.actions);
    OwnerTurnExactly(board);
    ClassifyExactly(board, action);
  }

  /** Every dependency names a catalog action whose gate is reached. */
  ghost predicate DependenciesReached(board: Board, action: Action) {
    forall id <- action.dependsOn :: exists other <- board.actions :: other.id == id && IsReached(board, other)
  }

  lemma DependenciesExactly(board: Board, action: Action)
    requires UniqueIds(board.actions)
    ensures DependencyOf(board, action).Satisfied? <==> DependenciesReached(board, action)
  {
    DependencyScanMeaning(board, action.dependsOn);
    forall id
      ensures DependencyMet(board, id) <==> exists other <- board.actions :: other.id == id && IsReached(board, other)
    {
      if other :| other in board.actions && other.id == id && IsReached(board, other) {
        IndexOfUnique(board.actions, other);
      }
    }
  }

  // ----- one slot -----

  ghost predicate IsHeld(slot: Slot) {
    !slot.conflict && (slot.status == Some(WorkStatus.Blocked) || slot.status == Some(WorkStatus.Paused))
  }

  ghost predicate IsRunning(slot: Slot) {
    slot.status.Some? &&
    slot.status.value in {WorkStatus.Active, InProgress, CiWaiting, ReviewWaiting, MergeReady}
  }

  /** The slot names this catalog action, and its only task is the action's. */
  ghost predicate Pins(board: Board, slot: Slot, action: Action) {
    action in board.actions && slot.action == Some(action.id) && slot.tasks == {action.task} && action.task != ""
  }

  ghost predicate PinsNothing(board: Board, slot: Slot) {
    forall action <- board.actions :: !Pins(board, slot, action)
  }

  ghost predicate TaskKnown(board: Board, task: string) {
    task != "" && exists action <- board.actions :: action.task == task
  }

  /** The slot has tasks, and the catalog knows all of them. */
  ghost predicate AllKnown(board: Board, slot: Slot) {
    slot.tasks != {} && forall task <- slot.tasks :: TaskKnown(board, task)
  }

  ghost predicate SomeMatch(board: Board, slot: Slot) {
    exists action <- board.actions :: action.task in slot.tasks
  }

  /** An unfinished action of the slot's tasks. */
  ghost predicate OpenIn(board: Board, slot: Slot, action: Action) {
    action in board.actions && action.task in slot.tasks && !IsFinished(board, action)
  }

  /** The action could not be started: a gate or the owner is missing, or a dependency is. */
  ghost predicate Stuck(board: Board, action: Action) {
    !Prepared(board, action) || Postponed(board, action) || action.requiresOwner || !DependenciesReached(board, action)
  }

  /** A held slot keeps the action from being started: it names it exactly, or all unfinished actions of its tasks. */
  ghost predicate Halts(board: Board, slot: Slot, action: Action) {
    IsHeld(slot) &&
    (Pins(board, slot, action) || (slot.action.None? && AllKnown(board, slot) && OpenIn(board, slot, action)))
  }

  /** A slot that is not held works on exactly this action: it names it, or the action is the only open one. */
  ghost predicate Occupies(board: Board, slot: Slot, action: Action) {
    && !slot.conflict && !IsHeld(slot) && OpenIn(board, slot, action)
    && (Pins(board, slot, action) ||
        (slot.action.None? && AllKnown(board, slot) && forall other :: OpenIn(board, slot, other) ==> other == action))
    && (IsRunning(slot) || !Stuck(board, action))
  }

  ghost predicate SeveralOpen(board: Board, slot: Slot) {
    exists left, right :: OpenIn(board, slot, left) && OpenIn(board, slot, right) && left != right
  }

  /** A worker is kept although it is not known on what: the evidence is contradicted, inconsistent or ambiguous. */
  ghost predicate Guards(board: Board, slot: Slot) {
    || slot.conflict
    || (slot.action.Some? && PinsNothing(board, slot))
    || (slot.action.None? && !AllKnown(board, slot) && (IsHeld(slot) ==> SomeMatch(board, slot)))
    || (slot.action.None? && AllKnown(board, slot) && !IsHeld(slot) && SeveralOpen(board, slot) &&
        (IsRunning(slot) || exists action :: OpenIn(board, slot, action) && !Stuck(board, action)))
  }

  ghost function GuardOf(slot: Slot): Worker {
    if slot.action.Some? then UnknownAction(slot.action.value) else UnknownTasks(slot.tasks)
  }

  /** In terms of the catalog: the recorded status of an action is its own. */
  lemma StatusMeans(board: Board, action: Action)
    requires UniqueIds(board.actions) && action in board.actions
    ensures CurrentStatus(board, action) == Classify(board, action)
    ensures TerminalStatus(CurrentStatus(board, action)) <==> IsFinished(board, action)
    ensures !IsFinished(board, action) ==> (CannotProceed(board, action) <==> Stuck(board, action))
  {
    SortKeepsUnique(board.actions);
    SortKeepsMembers(board.actions);
    IndexOfUnique(Ordered(board), action);
    ClassifyExactly(board, action);
    DependenciesExactly(board, action);
  }

  lemma KnownMeans(board: Board, slot: Slot)
    ensures TasksResolved(board, slot) <==> AllKnown(board, slot)
    ensures AllKnown(board, slot) ==> SomeMatch(board, slot)
    ensures TaskMatches(board, slot) == [] <==> !SomeMatch(board, slot)
  {
    if AllKnown(board, slot) {
      var task :| task in slot.tasks;
      assert TaskKnown(board, task);
    }
    if action :| action in board.actions && action.task in slot.tasks {
      assert action in TaskMatches(board, slot);
    }
    if TaskMatches(board, slot) != [] { assert TaskMatches(board, slot)[0] in TaskMatches(board, slot); }
  }

  lemma PinsMeans(board: Board, slot: Slot, action: Action)
    requires UniqueIds(board.actions)
    ensures Pins(board, slot, action) <==>
      ExactIdentity(board, slot) && Index(board.actions)[slot.action.value] == action
  {
    if Pins(board, slot, action) {
      IndexOfUnique(board.actions, action);
      assert TaskKnown(board, action.task);
    }
    if ExactIdentity(board, slot) && Index(board.actions)[slot.action.value] == action {
      OnlyTask(slot.tasks, action.task);
    }
  }

  lemma OnlyTask(tasks: set<string>, task: string)
    requires |tasks| == 1 && task in tasks
    ensures tasks == {task}
  {
    assert |tasks - {task}| == 0;
  }

  lemma OpenMeans(board: Board, slot: Slot)
    requires UniqueIds(board.actions)
    ensures forall action :: action in LiveMatches(board, slot) <==> OpenIn(board, slot, action)
  {
    forall action ensures action in LiveMatches(board, slot) <==> OpenIn(board, slot, action) {
      if action in board.actions { StatusMeans(board, action); }
    }
  }

  lemma LiveAreDistinct(board: Board, slot: Slot)
    requires UniqueIds(board.actions)
    ensures UniqueIds(LiveMatches(board, slot))
  {
    FilterKeepsUnique((action: Action) => action.task in slot.tasks, board.actions);
    FilterKeepsUnique((action: Action) => !TerminalStatus(CurrentStatus(board, action)), TaskMatches(board, slot));
  }

  lemma CountOpen(board: Board, slot: Slot, live: seq<Action>)
    requires UniqueIds(live) && forall action :: action in live <==> OpenIn(board, slot, action)
    ensures |live| >= 2 <==> SeveralOpen(board, slot)
  {
    if |live| >= 2 {
      assert live[0] in live && live[1] in live && live[0].id != live[1].id;
    }
    if SeveralOpen(board, slot) {
      var left, right :| OpenIn(board, slot, left) && OpenIn(board, slot, right) && left != right;
      var i, j :| 0 <= i < |live| && 0 <= j < |live| && live[i] == left && live[j] == right;
      assert i != j;
    }
  }

  // ----- its outcome -----

  /** The outcome a slot must have, in terms of the catalog. */
  ghost predicate OutcomeFits(board: Board, slot: Slot, outcome: SlotOutcome) {
    match outcome
    case Reserves(Working(action)) => Occupies(board, slot, action)
    case Reserves(worker) => Guards(board, slot) && worker == GuardOf(slot)
    case StopsActions(ids) =>
      IsHeld(slot) && !Guards(board, slot) &&
      forall id :: id in ids <==> exists action :: Halts(board, slot, action) && action.id == id
    case ReleasesWorker =>
      !Guards(board, slot) && forall action :: !Occupies(board, slot, action) && !Halts(board, slot, action)
  }

  lemma PinnedMeans(board: Board, slot: Slot)
    requires UniqueIds(board.actions)
    ensures ExactIdentity(board, slot) <==> !PinsNothing(board, slot)
    ensures forall action :: Pins(board, slot, action) ==>
      ExactIdentity(board, slot) && Index(board.actions)[slot.action.value] == action
    ensures ExactIdentity(board, slot) ==> Pins(board, slot, Index(board.actions)[slot.action.value])
  {
    forall action ensures Pins(board, slot, action) <==>
        ExactIdentity(board, slot) && Index(board.actions)[slot.action.value] == action
    {
      PinsMeans(board, slot, action);
    }
    if ExactIdentity(board, slot) {
      assert Pins(board, slot, Index(board.actions)[slot.action.value]);
    }
  }

  lemma HeldNamedOutcome(board: Board, slot: Slot)
    requires UniqueIds(board.actions) && IsHeld(slot) && slot.action.Some?
    ensures OutcomeFits(board, slot, OutcomeOf(board, slot))
  {
    PinnedMeans(board, slot);
    if ExactIdentity(board, slot) {
      var action := Index(board.actions)[slot.action.value];
      assert Halts(board, slot, action);
    }
  }

  lemma HeldTasksOutcome(board: Board, slot: Slot)
    requires UniqueIds(board.actions) && IsHeld(slot) && slot.action.None?
    ensures OutcomeFits(board, slot, OutcomeOf(board, slot))
  {
    KnownMeans(board, slot);
    OpenMeans(board, slot);
    var outcome := OutcomeOf(board, slot);
    if outcome.StopsActions? {
      forall id ensures id in outcome.ids <==> exists action :: Halts(board, slot, action) && action.id == id {
        if action :| Halts(board, slot, action) && action.id == id { assert action in LiveMatches(board, slot); }
        if id in outcome.ids {
          var action :| action in LiveMatches(board, slot) && action.id == id;
          assert Halts(board, slot, action);
        }
      }
    }
  }

  /** What the code does with a named action, once its tests are resolved. */
  function NamedValue(board: Board, slot: Slot, action: Action): SlotOutcome {
    if TerminalStatus(CurrentStatus(board, action)) || (!Running(slot.status) && CannotProceed(board, action))
    then ReleasesWorker else Reserves(Working(action))
  }

  lemma NamedValueMeans(board: Board, slot: Slot)
    requires !slot.conflict && !Stopped(slot.status) && slot.action.Some?
    ensures OutcomeOf(board, slot) ==
      if ExactIdentity(board, slot) then NamedValue(board, slot, Index(board.actions)[slot.action.value])
      else Reserves(Placeholder(slot))
  {
  }

  lemma NamedValueFits(board: Board, slot: Slot, action: Action)
    requires UniqueIds(board.actions) && !slot.conflict && !IsHeld(slot) && Pins(board, slot, action)
    ensures OutcomeFits(board, slot, NamedValue(board, slot, action))
  {
    StatusMeans(board, action);
    NamedFits(board, slot, action, NamedValue(board, slot, action));
  }

  lemma NamedOutcome(board: Board, slot: Slot)
    requires UniqueIds(board.actions) && !slot.conflict && !IsHeld(slot) && slot.action.Some?
    ensures OutcomeFits(board, slot, OutcomeOf(board, slot))
  {
    NamedValueMeans(board, slot);
    PinnedMeans(board, slot);
    if ExactIdentity(board, slot) {
      NamedValueFits(board, slot, Index(board.actions)[slot.action.value]);
    } else {
      assert OutcomeFits(board, slot, Reserves(GuardOf(slot)));
    }
  }

  lemma NamedFits(board: Board, slot: Slot, action: Action, outcome: SlotOutcome)
    requires Pins(board, slot, action) && !slot.conflict && !IsHeld(slot) && UniqueIds(board.actions)
    requires outcome ==
      if IsFinished(board, action) || (!IsRunning(slot) && Stuck(board, action)) then ReleasesWorker
      else Reserves(Working(action))
    ensures OutcomeFits(board, slot, outcome)
  {
    assert forall other :: Pins(board, slot, other) ==> other == action;
    assert action.task in slot.tasks;
  }

  /** What the code does with tasks alone. */
  function TasksValue(board: Board, slot: Slot, live: seq<Action>): SlotOutcome {
    if live == [] || (!Running(slot.status) && forall action <- live :: CannotProceed(board, action))
    then ReleasesWorker
    else Reserves(if |live| == 1 then Working(live[0]) else Placeholder(slot))
  }

  lemma HoldsNothingMeans(board: Board, slot: Slot, live: seq<Action>)
    requires live == LiveMatches(board, slot) && live != [] && slot.action.None? && TasksResolved(board, slot)
    ensures HoldsNothing(board, slot) <==>
      !Running(slot.status) && forall action <- live :: CannotProceed(board, action)
  {
  }

  lemma ResolvedTasksValue(board: Board, slot: Slot, live: seq<Action>)
    requires !slot.conflict && !Stopped(slot.status) && slot.action.None? && TasksResolved(board, slot)
    requires TaskMatches(board, slot) != [] && live == LiveMatches(board, slot)
    ensures OutcomeOf(board, slot) == TasksValue(board, slot, live)
  {
    if live != [] {
      HoldsNothingMeans(board, slot, live);
      if |live| == 1 {
        OneLive(board, slot, live);
      }
    }
  }

  lemma OneLive(board: Board, slot: Slot, live: seq<Action>)
    requires |live| == 1
    ensures TasksValue(board, slot, live) ==
      if !Running(slot.status) && CannotProceed(board, live[0]) then ReleasesWorker else Reserves(Working(live[0]))
  {
    OneMember(live, live[0]);
  }

  lemma OneMember(actions: seq<Action>, action: Action)
    requires |actions| == 1 && action == actions[0]
    ensures forall other :: other in actions <==> other == action
  {
  }

  lemma TasksOutcome(board: Board, slot: Slot)
    requires UniqueIds(board.actions) && !slot.conflict && !IsHeld(slot) && slot.action.None?
    ensures OutcomeFits(board, slot, OutcomeOf(board, slot))
  {
    KnownMeans(board, slot);
    if TasksResolved(board, slot) {
      ResolvedTasksValue(board, slot, LiveMatches(board, slot));
      OpenMeans(board, slot);
      LiveAreDistinct(board, slot);
      CountOpen(board, slot, LiveMatches(board, slot));
      ValueFits(board, slot, LiveMatches(board, slot), OutcomeOf(board, slot));
    } else {
      assert OutcomeOf(board, slot) == Reserves(GuardOf(slot));
    }
  }

  lemma ValueFits(board: Board, slot: Slot, live: seq<Action>, outcome: SlotOutcome)
    requires UniqueIds(board.actions)
    requires !slot.conflict && !IsHeld(slot) && slot.action.None? && AllKnown(board, slot)
    requires forall action :: action in live <==> OpenIn(board, slot, action)
    requires |live| >= 2 <==> SeveralOpen(board, slot)
    requires outcome == TasksValue(board, slot, live)
    ensures OutcomeFits(board, slot, outcome)
  {
    forall action | action in live ensures CannotProceed(board, action) <==> Stuck(board, action) {
      StatusMeans(board, action);
    }
    TasksFit(board, slot, live, outcome);
  }

  lemma TasksFit(board: Board, slot: Slot, live: seq<Action>, outcome: SlotOutcome)
    requires !slot.conflict && !IsHeld(slot) && slot.action.None? && AllKnown(board, slot)
    requires forall action :: action in live <==> OpenIn(board, slot, action)
    requires |live| >= 2 <==> SeveralOpen(board, slot)
    requires outcome ==
      if live == [] || (!IsRunning(slot) && forall action <- live :: Stuck(board, action)) then ReleasesWorker
      else Reserves(if |live| == 1 then Working(live[0]) else GuardOf(slot))
    ensures OutcomeFits(board, slot, outcome)
  {
    if |live| == 1 {
      assert live[0] in live;
      assert forall other :: OpenIn(board, slot, other) ==> other == live[0];
    }
  }

  /**
   One slot, whatever the board: it occupies exactly the action it stands for, keeps a guard where that is unclear,
   halts actions where it is held, and otherwise changes nothing.
   */
  lemma OutcomeExactly(board: Board, slot: Slot)
    requires UniqueIds(board.actions)
    ensures OutcomeFits(board, slot, OutcomeOf(board, slot))
  {
    if slot.conflict {
    } else if IsHeld(slot) {
      if slot.action.Some? { HeldNamedOutcome(board, slot); } else { HeldTasksOutcome(board, slot); }
    } else {
      if slot.action.Some? { NamedOutcome(board, slot); } else { TasksOutcome(board, slot); }
    }
  }

  // ----- all slots -----

  lemma OccupiesExcludes(board: Board, slot: Slot, action: Action)
    requires UniqueIds(board.actions) && Occupies(board, slot, action)
    ensures !Guards(board, slot)
    ensures forall other :: Occupies(board, slot, other) ==> other == action
  {
    if Pins(board, slot, action) {
      assert forall other :: Pins(board, slot, other) ==> other == action;
    }
  }

  lemma HaltsExcludes(board: Board, slot: Slot, action: Action)
    requires Halts(board, slot, action)
    ensures !Guards(board, slot)
  {
  }

  /** The outcome, read the other way round. */
  lemma OutcomeMeans(board: Board, slot: Slot)
    requires UniqueIds(board.actions)
    ensures forall action :: OutcomeOf(board, slot) == Reserves(Working(action)) <==> Occupies(board, slot, action)
    ensures Guards(board, slot) <==> OutcomeOf(board, slot) == Reserves(GuardOf(slot))
    ensures OutcomeOf(board, slot).Reserves? && !OutcomeOf(board, slot).worker.Working? ==> Guards(board, slot)
    ensures forall id :: (exists action :: Halts(board, slot, action) && action.id == id) <==>
      OutcomeOf(board, slot).StopsActions? && id in OutcomeOf(board, slot).ids
  {
    OutcomeExactly(board, slot);
    forall action | Occupies(board, slot, action) ensures OutcomeOf(board, slot) == Reserves(Working(action)) {
      OccupiesExcludes(board, slot, action);
    }
    forall action | Halts(board, slot, action) ensures OutcomeOf(board, slot).StopsActions? {
      HaltsExcludes(board, slot, action);
    }
  }

  lemma {:induction false} StoppedByMeaning(outcomes: seq<SlotOutcome>)
    ensures forall id :: id in StoppedBy(outcomes) <==>
      exists outcome <- outcomes :: outcome.StopsActions? && id in outcome.ids
  {
    if outcomes != [] {
      var n := |outcomes| - 1;
      StoppedByMeaning(outcomes[..n]);
      assert forall outcome :: outcome in outcomes <==> outcome in outcomes[..n] || outcome == outcomes[n];
    }
  }

  lemma OutcomesMembers(board: Board, slots: seq<Slot>)
    ensures forall outcome :: outcome in Outcomes(board, slots) <==>
      exists slot <- slots :: OutcomeOf(board, slot) == outcome
  {
    var outcomes := Outcomes(board, slots);
    forall slot | slot in slots ensures OutcomeOf(board, slot) in outcomes {
      var i :| 0 <= i < |slots| && slots[i] == slot;
      assert outcomes[i] == OutcomeOf(board, slot);
    }
    forall outcome | outcome in outcomes ensures exists slot <- slots :: OutcomeOf(board, slot) == outcome {
      var i :| 0 <= i < |outcomes| && outcomes[i] == outcome;
      assert slots[i] in slots;
    }
  }

  ghost predicate SomeoneOccupies(board: Board, slots: seq<Slot>, action: Action) {
    exists slot <- slots :: Occupies(board, slot, action)
  }

  ghost predicate SomeoneHalts(board: Board, slots: seq<Slot>, action: Action) {
    exists slot <- slots :: Halts(board, slot, action)
  }

  ghost predicate SomeoneGuards(board: Board, slots: seq<Slot>, worker: Worker) {
    exists slot <- slots :: Guards(board, slot) && worker == GuardOf(slot)
  }

  /** The reserved workers are exactly those of the slots: one per occupied action, and the guards. */
  lemma ReservationsExactly(board: Board, slots: seq<Slot>)
    requires UniqueIds(board.actions)
    ensures forall action :: Working(action) in Reservations(board, slots) <==> SomeoneOccupies(board, slots, action)
    ensures forall worker: Worker :: !worker.Working? ==>
      (worker in Reservations(board, slots) <==> SomeoneGuards(board, slots, worker))
  {
    HeldMeaning(Outcomes(board, slots));
    OutcomesMembers(board, slots);
    forall slot ensures
      && (forall action :: OutcomeOf(board, slot) == Reserves(Working(action)) <==> Occupies(board, slot, action))
      && (Guards(board, slot) <==> OutcomeOf(board, slot) == Reserves(GuardOf(slot)))
      && (OutcomeOf(board, slot).Reserves? && !OutcomeOf(board, slot).worker.Working? ==> Guards(board, slot))
    {
      OutcomeMeans(board, slot);
    }
  }

  ghost predicate HaltsId(board: Board, slot: Slot, id: string) {
    exists action :: Halts(board, slot, action) && action.id == id
  }

  lemma StoppedIdsExactly(board: Board, slots: seq<Slot>, id: string)
    requires UniqueIds(board.actions)
    ensures id in StoppedIds(board, slots) <==> exists slot <- slots :: HaltsId(board, slot, id)
  {
    var outcomes := Outcomes(board, slots);
    StoppedByMeaning(outcomes);
    forall i | 0 <= i < |slots|
      ensures HaltsId(board, slots[i], id) <==> outcomes[i].StopsActions? && id in outcomes[i].ids
    {
      OutcomeMeans(board, slots[i]);
    }
    if id in StoppedIds(board, slots) {
      var outcome :| outcome in outcomes && outcome.StopsActions? && id in outcome.ids;
      var i :| 0 <= i < |outcomes| && outcomes[i] == outcome;
      assert slots[i] in slots;
    }
    if slot :| slot in slots && HaltsId(board, slot, id) {
      var i :| 0 <= i < |slots| && slots[i] == slot;
      assert outcomes[i] in outcomes;
    }
  }

  lemma HaltsIdMeans(board: Board, slot: Slot, action: Action)
    requires UniqueIds(board.actions) && action in board.actions
    ensures HaltsId(board, slot, action.id) <==> Halts(board, slot, action)
  {
    if HaltsId(board, slot, action.id) {
      var other :| Halts(board, slot, other) && other.id == action.id;
      SameIdSameAction(board.actions, other, action);
    }
  }

  /** A new candidate is an open action on which no slot works and which no slot halts. */
  lemma NewCandidatesExactly(board: Board, slots: seq<Slot>, action: Action)
    requires UniqueIds(board.actions)
    ensures action in NewCandidates(board, slots) <==>
      IsOpen(board, action) && !SomeoneOccupies(board, slots, action) && !SomeoneHalts(board, slots, action)
  {
    CandidatesExactly(board, action);
    SortKeepsMembers(Candidates(board));
    ReservationsExactly(board, slots);
    ReservationsInCatalog(board, slots);
    StoppedIdsExactly(board, slots, action.id);
    if action in board.actions {
      forall other | other in board.actions && other.id == action.id ensures other == action {
        SameIdSameAction(board.actions, other, action);
      }
      forall slot ensures HaltsId(board, slot, action.id) <==> Halts(board, slot, action) {
        HaltsIdMeans(board, slot, action);
      }
    }
  }

  // ----- held work stays held -----

  /** What was running before admission, and what admission added. */
  lemma AdmittedAreNew(board: Board, slots: seq<Slot>, limit: nat)
    ensures var report := ReportOf(board, slots, limit);
      && report.activeContinuations == Reservations(board, slots) <= report.running
      && forall k :: |report.activeContinuations| <= k < |report.running| ==>
           report.running[k].Working? && report.running[k].action in NewCandidates(board, slots)
  {
    var active, news := ActiveTally(board, slots), NewCandidates(board, slots);
    KeepWorkersRunning(board, Tally([], [], FailedEntries(board, Ordered(board)), []), Reservations(board, slots));
    assert [] + Reservations(board, slots) == Reservations(board, slots);
    AdmissionsTakeOneWorkerEach(board, limit, active, news);
    AdmitAllAdds(board, limit, active, news);
  }

  lemma {:induction false} AdmitAllAdds(board: Board, limit: nat, tally: Tally, actions: seq<Action>)
    ensures var after := AdmitAll(board, limit, tally, actions);
      tally.selected <= after.selected && forall action <- after.selected[|tally.selected|..] :: action in actions
  {
    if actions != [] {
      var n := |actions| - 1;
      AdmitAllAdds(board, limit, tally, actions[..n]);
      AdmitOneWorker(board, limit, AdmitAll(board, limit, tally, actions[..n]), actions[n]);
      assert forall action :: action in actions <==> action in actions[..n] || action == actions[n];
    }
  }

  /** A guard is always reported, and nothing new starts beside it. */
  lemma GuardStopsAdmission(board: Board, slots: seq<Slot>, slot: Slot, limit: nat)
    requires UniqueIds(board.actions) && slot in slots && Guards(board, slot)
    ensures var report := ReportOf(board, slots, limit);
      GuardOf(slot) in report.activeContinuations && report.running == report.activeContinuations
  {
    ReservationsExactly(board, slots);
    assert SomeoneGuards(board, slots, GuardOf(slot));
    var empty := Tally([], [], FailedEntries(board, Ordered(board)), []);
    KeepWorkersRunning(board, empty, Reservations(board, slots));
    assert [] + Reservations(board, slots) == Reservations(board, slots);
    UnsafeWorkerStopsAdmission(board, limit, ActiveTally(board, slots), NewCandidates(board, slots), GuardOf(slot));
  }

  // ----- slots that hold nothing -----

  ghost predicate Idle(board: Board, slot: Slot) {
    !Guards(board, slot) && forall action :: !Occupies(board, slot, action) && !Halts(board, slot, action)
  }

  lemma {:induction false} HeldConcat(left: seq<SlotOutcome>, right: seq<SlotOutcome>)
    ensures Held(left + right) == Held(left) + Held(right)
    ensures StoppedBy(left + right) == StoppedBy(left) + StoppedBy(right)
  {
    if right == [] {
      assert left + right == left;
    } else {
      var n := |right| - 1;
      HeldConcat(left, right[..n]);
      assert (left + right)[..|left| + n] == left + right[..n];
    }
  }

  lemma OutcomesConcat(board: Board, left: seq<Slot>, right: seq<Slot>)
    ensures Outcomes(board, left + right) == Outcomes(board, left) + Outcomes(board, right)
  {
  }

  lemma IdleOutcome(board: Board, slot: Slot)
    requires UniqueIds(board.actions) && Idle(board, slot)
    ensures OutcomeOf(board, slot) == ReleasesWorker || OutcomeOf(board, slot) == StopsActions({})
  {
    OutcomeMeans(board, slot);
    var outcome := OutcomeOf(board, slot);
    if outcome.StopsActions? {
      forall id ensures id !in outcome.ids {}
    }
  }

  lemma HeldWithout(before: seq<SlotOutcome>, outcome: SlotOutcome, after: seq<SlotOutcome>)
    requires outcome == ReleasesWorker || outcome == StopsActions({})
    ensures Held(before + [outcome] + after) == Held(before + after)
    ensures StoppedBy(before + [outcome] + after) == StoppedBy(before + after)
  {
    HeldConcat(before + [outcome], after);
    HeldConcat(before, [outcome]);
    HeldConcat(before, after);
    assert [outcome][..0] == [];
    assert Held([outcome]) == [] && StoppedBy([outcome]) == {};
  }

  lemma SameReport(board: Board, left: seq<Slot>, right: seq<Slot>, limit: nat)
    requires Reservations(board, left) == Reservations(board, right)
    requires StoppedIds(board, left) == StoppedIds(board, right)
    ensures ReportOf(board, left, limit) == ReportOf(board, right, limit)
  {
  }

  /** A slot that occupies, guards and halts nothing, such as a held one without any match, changes no report. */
  lemma IdleSlotChangesNothing(board: Board, before: seq<Slot>, slot: Slot, after: seq<Slot>, limit: nat)
    requires UniqueIds(board.actions) && Idle(board, slot)
    ensures ReportOf(board, before + [slot] + after, limit) == ReportOf(board, before + after, limit)
  {
    IdleOutcome(board, slot);
    OutcomesConcat(board, before + [slot], after);
    OutcomesConcat(board, before, [slot]);
    OutcomesConcat(board, before, after);
    assert Outcomes(board, [slot]) == [OutcomeOf(board, slot)];
    HeldWithout(Outcomes(board, before), OutcomeOf(board, slot), Outcomes(board, after));
    SameReport(board, before + [slot] + after, before + after, limit);
  }

  lemma UnmatchedHeldSlotIsIdle(board: Board, slot: Slot)
    requires IsHeld(slot) && slot.action.None? && forall action <- board.actions :: action.task !in slot.tasks
    ensures Idle(board, slot)
  {
    if AllKnown(board, slot) { KnownMeans(board, slot); }
  }

  // ----- the dispatcher -----

  /** Open, with its dependencies reached, and halted by no slot. */
  ghost predicate Startable(board: Board, slots: seq<Slot>, action: Action) {
    IsOpen(board, action) && DependenciesReached(board, action) && !SomeoneHalts(board, slots, action)
  }

  ghost predicate NoWork(board: Board, slots: seq<Slot>) {
    forall slot <- slots :: !Guards(board, slot) && forall action :: !Occupies(board, slot, action)
  }

  ghost predicate FirstStartable(board: Board, slots: seq<Slot>, action: Action) {
    Startable(board, slots, action) && forall other :: Startable(board, slots, other) ==> Before(action, other)
  }

  lemma NoWorkMeans(board: Board, slots: seq<Slot>)
    requires UniqueIds(board.actions)
    ensures NoWork(board, slots) <==> Reservations(board, slots) == []
  {
    ReservationsExactly(board, slots);
    var workers := Reservations(board, slots);
    if workers != [] {
      assert workers[0] in workers;
      if workers[0].Working? {
        assert SomeoneOccupies(board, slots, workers[0].action);
      } else {
        assert SomeoneGuards(board, slots, workers[0]);
      }
    } else {
      forall slot | slot in slots
        ensures !Guards(board, slot) && forall action :: !Occupies(board, slot, action)
      {
        assert !SomeoneGuards(board, slots, GuardOf(slot));
        forall action ensures !Occupies(board, slot, action) { assert !SomeoneOccupies(board, slots, action); }
      }
    }
  }

  lemma {:induction false} FirstReadyIsFirst(board: Board, actions: seq<Action>)
    requires Sorted(actions)
    ensures var ready := FirstReady(board, actions);
      && (ready.None? <==> forall action <- actions :: !DependencyOf(board, action).Satisfied?)
      && (ready.Some? ==> ready.value in actions && DependencyOf(board, ready.value).Satisfied?)
      && (ready.Some? ==> forall other <- actions ::
            DependencyOf(board, other).Satisfied? ==> KeyLe(ready.value, other))
  {
    if actions != [] {
      assert forall other :: other in actions <==> other == actions[0] || other in actions[1..];
      if DependencyOf(board, actions[0]).Satisfied? {
        StringLeTotal(actions[0].id, actions[0].id);
        forall other | other in actions ensures KeyLe(actions[0], other) {
          var k :| 0 <= k < |actions| && actions[k] == other;
        }
      } else {
        FirstReadyIsFirst(board, actions[1..]);
      }
    }
  }

  lemma NewCandidatesSorted(board: Board, slots: seq<Slot>)
    ensures Sorted(NewCandidates(board, slots))
  {
    var workers, stopped := Reservations(board, slots), StoppedIds(board, slots);
    SortCorrect(Candidates(board));
    FilterKeepsOrder((action: Action) => IsNew(workers, stopped, action), Sort(Candidates(board)));
  }

  /** The first ready new candidate, where nothing occupies a worker. */
  lemma FirstReadyMeans(board: Board, slots: seq<Slot>)
    requires UniqueIds(board.actions) && NoWork(board, slots)
    ensures var ready := FirstReady(board, NewCandidates(board, slots));
      && (ready.None? <==> forall action :: !Startable(board, slots, action))
      && (ready.Some? ==> FirstStartable(board, slots, ready.value))
  {
    var news := NewCandidates(board, slots);
    NewCandidatesSorted(board, slots);
    FirstReadyIsFirst(board, news);
    forall action
      ensures Startable(board, slots, action) <==> action in news && DependencyOf(board, action).Satisfied?
    {
      NewCandidatesExactly(board, slots, action);
      DependenciesExactly(board, action);
    }
    forall left, right ensures KeyLe(left, right) <==> Before(left, right) { OrderMeans(left, right); }
  }

  /** Without reserved workers the manager starts the first ready new candidate at limit 1. */
  lemma FreeReport(board: Board, slots: seq<Slot>)
    requires UniqueIds(board.actions) && Reservations(board, slots) == []
    ensures var report, ready := ReportOf(board, slots, 1), FirstReady(board, NewCandidates(board, slots));
      && (ready.None? ==> report.workerUsed == 0 && report.safeReadySet == [])
      && (ready.Some? ==>
            report.safeReadySet != [] && report.safeReadySet[0] == ready.value.id && ready.value in board.actions)
  {
    FirstAdmissionIsFirstReady(board, 1, ActiveTally(board, slots), NewCandidates(board, slots));
    FirstReadySatisfied(board, NewCandidates(board, slots));
    NewCandidatesFacts(board, slots);
  }

  /** With reserved workers it starts nothing new at limit 1. */
  lemma BusyReport(board: Board, slots: seq<Slot>)
    requires Reservations(board, slots) != []
    ensures var report := ReportOf(board, slots, 1);
      report.workerUsed > 0 &&
      WithoutActive(report.safeReadySet, ContinuationIds(report.activeContinuations)) == []
  {
    var workers, active := Reservations(board, slots), ActiveTally(board, slots);
    var empty := Tally([], [], FailedEntries(board, Ordered(board)), []);
    KeepWorkersRunning(board, empty, workers);
    KeepWorkersSelectsActive(board, empty, workers);
    FullNothingAdmitted(board, 1, active, NewCandidates(board, slots));
    NothingNew(active.selected, workers);
  }

  lemma NothingNew(selected: seq<Action>, workers: seq<Worker>)
    requires forall action <- selected :: Working(action) in workers
    ensures WithoutActive(Ids(selected), ContinuationIds(workers)) == []
  {
    WithoutActiveMeaning(Ids(selected), ContinuationIds(workers));
    forall id | id in Ids(selected) ensures id in ContinuationIds(workers) {
      IdsMeaning(selected, id);
      var action :| action in selected && action.id == id;
      assert Working(action) in workers;
    }
    NoMembers(WithoutActive(Ids(selected), ContinuationIds(workers)));
  }

  /** What each answer of the dispatcher says. The four conditions exclude each other. */
  ghost predicate DispatchFits(board: Board, slots: seq<Slot>, dispatch: Result<Dispatch, SelectionError>) {
    match dispatch
    case Err(_) => false
    case Ok(Ready(action)) => NoWork(board, slots) && FirstStartable(board, slots, action)
    case Ok(OwnerWait(action)) =>
      (NoWork(board, slots) ==> forall other :: !Startable(board, slots, other)) && FirstInNeedOfOwner(board, action)
    case Ok(ParallelActive) => !NoWork(board, slots) && forall action <- board.actions :: !NeedsOwner(board, action)
    case Ok(NothingToDo) =>
      NoWork(board, slots) && (forall action :: !Startable(board, slots, action)) &&
      forall action <- board.actions :: !NeedsOwner(board, action)
  }

  /**
   The dispatcher starts the first startable action when no slot holds a worker; otherwise it waits for the owner if
   some action needs the owner, and else says whether work is running.
   */
  lemma DispatchExactly(board: Board, slots: seq<Slot>)
    requires UniqueIds(board.actions)
    ensures DispatchFits(board, slots, DispatchDecision(board, slots))
  {
    NoWorkMeans(board, slots);
    OwnerTurnExactly(board);
    if !NoWork(board, slots) {
      BusyReport(board, slots);
    } else {
      FreeReport(board, slots);
      FirstReadyMeans(board, slots);
      WithoutActiveMeaning(ReportOf(board, slots, 1).safeReadySet, {});
      if FirstReady(board, NewCandidates(board, slots)).Some? {
        IndexOfUnique(board.actions, FirstReady(board, NewCandidates(board, slots)).value);
      }
    }
  }

  /** The serial selection: the first open action whose dependencies are reached, else the first for the owner. */
  lemma SelectExactly(board: Board)
    requires UniqueIds(board.actions)
    ensures match Select(board)
      case None =>
        (forall action :: !Startable(board, [], action)) && forall action <- board.actions :: !NeedsOwner(board, action)
      case Some(action) =>
        FirstStartable(board, [], action) ||
        ((forall other :: !Startable(board, [], other)) && FirstInNeedOfOwner(board, action))
  {
    NoSlotsNewCandidates(board);
    FirstReadyMeans(board, []);
    OwnerTurnExactly(board);
  }

  // ----- admission -----

  /** Room for the action beside these workers. */
  ghost predicate HasRoom(limit: nat, beside: seq<Worker>, action: Action) {
    && |beside| < limit
    && (beside != [] ==>
          action.parallelSafe &&
          forall worker <- beside ::
            worker.Working? && worker.action.parallelSafe && Disjoint(worker.action, action))
  }

  /** First come, first served: each action joins if its dependencies are reached and there is room for it. */
  ghost function Greedy(board: Board, limit: nat, reserved: seq<Worker>, actions: seq<Action>): seq<Action> {
    if actions == [] then []
    else
      var last := actions[|actions| - 1];
      var chosen := Greedy(board, limit, reserved, actions[..|actions| - 1]);
      if DependenciesReached(board, last) && HasRoom(limit, reserved + WorkersOf(chosen), last) then chosen + [last]
      else chosen
  }

  lemma FitsMeans(board: Board, running: seq<Worker>, action: Action, limit: nat)
    requires UniqueIds(board.actions)
    ensures |running| < limit && Fits(board, running, action) <==>
      DependenciesReached(board, action) && HasRoom(limit, running, action)
  {
    DependenciesExactly(board, action);
    ConflictsWithEmpty(running, action);
  }

  lemma {:induction false} AdmissionIsGreedy(board: Board, limit: nat, tally: Tally, actions: seq<Action>)
    requires UniqueIds(board.actions)
    ensures var after, chosen := AdmitAll(board, limit, tally, actions), Greedy(board, limit, tally.running, actions);
      after.selected == tally.selected + chosen && after.running == tally.running + WorkersOf(chosen)
  {
    if actions != [] {
      var n := |actions| - 1;
      AdmissionIsGreedy(board, limit, tally, actions[..n]);
      var before, chosen :=
        AdmitAll(board, limit, tally, actions[..n]), Greedy(board, limit, tally.running, actions[..n]);
      AdmitOneSelects(board, limit, before, actions[n]);
      FitsMeans(board, before.running, actions[n], limit);
      WorkersOfAppend(tally.running, chosen, actions[n]);
    }
  }

  /** Running work that is reported ready again: the action is open by itself and its dependencies are reached. */
  ghost predicate MayProceed(board: Board, action: Action) {
    IsOpen(board, action) && DependenciesReached(board, action)
  }

  ghost function Proceeding(board: Board, workers: seq<Worker>): seq<Action> {
    if workers == [] then []
    else
      var last := workers[|workers| - 1];
      Proceeding(board, workers[..|workers| - 1]) +
      if last.Working? && MayProceed(board, last.action) then [last.action] else []
  }

  lemma Regroup<T>(a: seq<T>, b: seq<T>, c: seq<T>)
    ensures a + b + c == a + (b + c)
  {
  }

  lemma KeptProceeds(board: Board, tally: Tally, worker: Worker)
    requires UniqueIds(board.actions) && (worker.Working? ==> worker.action in board.actions)
    ensures KeepWorker(board, tally, worker).selected ==
      tally.selected + if worker.Working? && MayProceed(board, worker.action) then [worker.action] else []
  {
    if worker.Working? {
      CandidateIdMeans(board, worker.action);
      DependenciesExactly(board, worker.action);
    }
  }

  lemma {:induction false} KeptProceed(board: Board, tally: Tally, workers: seq<Worker>)
    requires UniqueIds(board.actions)
    requires forall worker <- workers :: worker.Working? ==> worker.action in board.actions
    ensures KeepWorkers(board, tally, workers).selected == tally.selected + Proceeding(board, workers)
  {
    if workers != [] {
      var n := |workers| - 1;
      assert workers[n] in workers && forall worker <- workers[..n] :: worker in workers;
      KeptProceed(board, tally, workers[..n]);
      KeptProceeds(board, KeepWorkers(board, tally, workers[..n]), workers[n]);
      Regroup(tally.selected, Proceeding(board, workers[..n]),
        if workers[n].Working? && MayProceed(board, workers[n].action) then [workers[n].action] else []);
    }
  }

  lemma CandidateIdMeans(board: Board, action: Action)
    requires UniqueIds(board.actions) && action in board.actions
    ensures IsCandidateId(board, action.id) <==> IsOpen(board, action)
  {
    CandidatesExactly(board, action);
    forall other | other in Candidates(board) && other.id == action.id ensures other == action {
      CandidatesExactly(board, other);
      SameIdSameAction(board.actions, other, action);
    }
  }

  lemma ActiveTallyMeans(board: Board, slots: seq<Slot>)
    requires UniqueIds(board.actions)
    ensures ActiveTally(board, slots).running == Reservations(board, slots)
    ensures ActiveTally(board, slots).selected == Proceeding(board, Reservations(board, slots))
  {
    var reserved, empty := Reservations(board, slots), Tally([], [], FailedEntries(board, Ordered(board)), []);
    ReservationsInCatalog(board, slots);
    KeepWorkersRunning(board, empty, reserved);
    KeptProceed(board, empty, reserved);
    assert [] + reserved == reserved;
    assert [] + Proceeding(board, reserved) == Proceeding(board, reserved);
  }

  /** The new candidates that are admitted. */
  ghost function Chosen(board: Board, slots: seq<Slot>, limit: nat): seq<Action> {
    Greedy(board, limit, Reservations(board, slots), NewCandidates(board, slots))
  }

  /**
   The report, for every board, slots and limit: the reserved workers and, first come first served, the new candidates
   in their order; ready are the reserved actions that may proceed and all admitted ones.
   */
  lemma ReportExactly(board: Board, slots: seq<Slot>, limit: nat)
    requires UniqueIds(board.actions)
    ensures ReportOf(board, slots, limit).activeContinuations == Reservations(board, slots)
    ensures ReportOf(board, slots, limit).running == Reservations(board, slots) + WorkersOf(Chosen(board, slots, limit))
    ensures ReportOf(board, slots, limit).workerUsed == |ReportOf(board, slots, limit).running|
    ensures ReportOf(board, slots, limit).safeReadySet ==
      Ids(Proceeding(board, Reservations(board, slots)) + Chosen(board, slots, limit))
  {
    ActiveTallyMeans(board, slots);
    AdmissionIsGreedy(board, limit, ActiveTally(board, slots), NewCandidates(board, slots));
  }

  // ----- held work in the report -----

  lemma {:induction false} ProceedingAreReserved(board: Board, workers: seq<Worker>)
    ensures forall action <- Proceeding(board, workers) :: Working(action) in workers
  {
    if workers != [] {
      var n := |workers| - 1;
      ProceedingAreReserved(board, workers[..n]);
      assert forall worker :: worker in workers <==> worker in workers[..n] || worker == workers[n];
    }
  }

  lemma {:induction false} ChosenAreListed(board: Board, limit: nat, reserved: seq<Worker>, actions: seq<Action>)
    ensures forall action <- Greedy(board, limit, reserved, actions) :: action in actions
  {
    if actions != [] {
      var n := |actions| - 1;
      ChosenAreListed(board, limit, reserved, actions[..n]);
      assert forall action :: action in actions <==> action in actions[..n] || action == actions[n];
    }
  }

  lemma ReadyIsProceedingOrChosen(board: Board, slots: seq<Slot>, limit: nat, action: Action)
    requires UniqueIds(board.actions) && action in board.actions
    requires action.id in ReportOf(board, slots, limit).safeReadySet
    ensures Working(action) in Reservations(board, slots) || action in NewCandidates(board, slots)
  {
    var proceeding, chosen := Proceeding(board, Reservations(board, slots)), Chosen(board, slots, limit);
    ReportExactly(board, slots, limit);
    IdsMeaning(proceeding + chosen, action.id);
    ProceedingAreReserved(board, Reservations(board, slots));
    ReservationsInCatalog(board, slots);
    ChosenAreListed(board, limit, Reservations(board, slots), NewCandidates(board, slots));
    NewCandidatesFacts(board, slots);
    var ready: Action :| ready in proceeding + chosen && ready.id == action.id;
    SameIdSameAction(board.actions, ready, action);
  }

  /**
   Held work stays held: an action that some blocked or paused slot halts is not admitted at any limit, and is
   reported ready only if another slot already works on it.
   */
  lemma HaltedIsNotAdmitted(board: Board, slots: seq<Slot>, slot: Slot, action: Action, limit: nat)
    requires UniqueIds(board.actions) && slot in slots && Halts(board, slot, action)
    ensures var report := ReportOf(board, slots, limit);
      && (forall k :: |report.activeContinuations| <= k < |report.running| ==>
            report.running[k].Working? && report.running[k].action.id != action.id)
      && (action.id in report.safeReadySet ==> SomeoneOccupies(board, slots, action))
  {
    var report := ReportOf(board, slots, limit);
    AdmittedAreNew(board, slots, limit);
    forall k | |report.activeContinuations| <= k < |report.running|
      ensures report.running[k].Working? && report.running[k].action.id != action.id
    {
      var other := report.running[k].action;
      NewCandidatesExactly(board, slots, other);
      if other.id == action.id { SameIdSameAction(board.actions, other, action); }
    }
    if action.id in report.safeReadySet {
      ReadyIsProceedingOrChosen(board, slots, limit, action);
      NewCandidatesExactly(board, slots, action);
      ReservationsExactly(board, slots);
    }
  }

  /** A blocked or paused slot that names its action exactly keeps that action from being started, at every limit. */
  lemma PausedActionStaysPaused(board: Board, slots: seq<Slot>, slot: Slot, action: Action, limit: nat)
    requires UniqueIds(board.actions) && slot in slots && !slot.conflict && action in board.actions
    requires slot.status == Some(WorkStatus.Blocked) || slot.status == Some(WorkStatus.Paused)
    requires slot.action == Some(action.id) && slot.tasks == {action.task}
    ensures var report := ReportOf(board, slots, limit);
      forall k :: |report.activeContinuations| <= k < |report.running| ==>
        report.running[k].Working? && report.running[k].action.id != action.id
  {
    if action.task == "" {
      forall other ensures !Pins(board, slot, other) {}
      GuardStopsAdmission(board, slots, slot, limit);
    } else {
      assert Pins(board, slot, action);
      HaltedIsNotAdmitted(board, slots, slot, action, limit);
    }
  }

  // ----- the reasons given -----

  /** What one pair says: the worker cannot run beside anything, or these two scopes conflict. */
  ghost predicate TruePair(running: seq<Worker>, action: Action, worker: Worker, reason: PairReason) {
    && worker in running
    && match reason
       case WorkerNotParallelSafe => !(worker.Working? && worker.action.parallelSafe)
       case Scope(conflict) =>
         worker.Working? && worker.action.parallelSafe && conflict in ConflictReasons(worker.action, action)
  }

  /** Why an action with reached dependencies was put off, given the workers in the end. */
  ghost predicate TrueReason(limit: nat, running: seq<Worker>, action: Action, reason: SerialReason) {
    match reason
    case FailedBefore => false
    case WorkerLimit => |running| >= limit
    case NotParallelSafe => running != [] && !action.parallelSafe
    case Conflicts(pairs) => pairs != {} && forall worker, pair :: (worker, pair) in pairs ==>
      TruePair(running, action, worker, pair)
  }

  ghost predicate PutOff(limit: nat, running: seq<Worker>, actions: seq<Action>, entry: (string, SerialReason)) {
    exists action <- actions :: action.id == entry.0 && TrueReason(limit, running, action, entry.1)
  }

  /** Why a dependency is not reached. */
  ghost predicate TrueStatus(board: Board, id: string, status: DependencyStatus) {
    match status
    case Satisfied => false
    case Unknown(named) => named == id && !InCatalog(board, id)
    case Failed(named) => named == id && InCatalog(board, id) && id in board.failed
    case NotVerified(named) => named == id && InCatalog(board, id) && id !in board.failed
  }

  /** The first dependency that is not reached, with the reason. */
  ghost predicate TrueBlock(board: Board, action: Action, status: DependencyStatus) {
    exists k :: 0 <= k < |action.dependsOn| && !DependencyReached(board, action.dependsOn[k]) &&
      TrueStatus(board, action.dependsOn[k], status) &&
      forall j :: 0 <= j < k ==> DependencyReached(board, action.dependsOn[j])
  }

  ghost predicate InCatalog(board: Board, id: string) {
    exists other <- board.actions :: other.id == id
  }

  ghost predicate DependencyReached(board: Board, id: string) {
    exists other <- board.actions :: other.id == id && IsReached(board, other)
  }

  ghost predicate HeldUp(board: Board, actions: seq<Action>, entry: (string, DependencyStatus)) {
    exists action <- actions :: action.id == entry.0 && TrueBlock(board, action, entry.1)
  }

  lemma DependencyReachedMeans(board: Board, id: string)
    requires UniqueIds(board.actions)
    ensures DependencyMet(board, id) <==> DependencyReached(board, id)
  {
    if other :| other in board.actions && other.id == id && IsReached(board, other) {
      IndexOfUnique(board.actions, other);
    }
  }

  lemma ExplainsMeans(board: Board, status: DependencyStatus, id: string)
    requires Explains(board, status, id)
    ensures TrueStatus(board, id, status) && !DependencyMet(board, id)
  {
    if other :| other in board.actions && other.id == id { assert id in Index(board.actions); }
    if id in Index(board.actions) { assert Index(board.actions)[id] in board.actions; }
  }

  lemma BlockIsTrue(board: Board, action: Action)
    requires UniqueIds(board.actions) && !DependencyOf(board, action).Satisfied?
    ensures TrueBlock(board, action, DependencyOf(board, action))
  {
    DependencyScanMeaning(board, action.dependsOn);
    var status := DependencyOf(board, action);
    var k :| 0 <= k < |action.dependsOn| && Explains(board, status, action.dependsOn[k]) &&
      forall j :: 0 <= j < k ==> DependencyMet(board, action.dependsOn[j]);
    ExplainsMeans(board, status, action.dependsOn[k]);
    DependencyReachedMeans(board, action.dependsOn[k]);
    forall j | 0 <= j < k ensures DependencyReached(board, action.dependsOn[j]) {
      DependencyReachedMeans(board, action.dependsOn[j]);
    }
  }

  lemma {:induction false} ConflictsMeaning(running: seq<Worker>, action: Action)
    ensures forall worker, pair :: (worker, pair) in ConflictsWith(running, action) <==>
      TruePair(running, action, worker, pair)
  {
    if running != [] {
      var n := |running| - 1;
      ConflictsMeaning(running[..n], action);
      assert forall worker :: worker in running <==> worker in running[..n] || worker == running[n];
    }
  }

  lemma ReasonLater(limit: nat, before: seq<Worker>, after: seq<Worker>, actions: seq<Action>, last: Action,
                    entry: (string, SerialReason))
    requires before <= after && PutOff(limit, before, actions, entry)
    ensures PutOff(limit, after, actions + [last], entry)
  {
    var action :| action in actions && action.id == entry.0 && TrueReason(limit, before, action, entry.1);
    assert action in actions + [last];
    assert forall worker <- before :: worker in after;
    assert TrueReason(limit, after, action, entry.1);
  }

  lemma AdmitOneReasons(board: Board, limit: nat, tally: Tally, action: Action)
    requires UniqueIds(board.actions)
    ensures var after := AdmitOne(board, limit, tally, action);
      && (forall entry <- after.serialized ::
            entry in tally.serialized || PutOff(limit, after.running, [action], entry))
      && (forall entry <- after.blocked :: entry in tally.blocked || HeldUp(board, [action], entry))
  {
    ConflictsMeaning(tally.running, action);
    assert action in [action];
    if !DependencyOf(board, action).Satisfied? { BlockIsTrue(board, action); }
    var after := AdmitOne(board, limit, tally, action);
    forall entry | entry in after.serialized && entry !in tally.serialized
      ensures PutOff(limit, after.running, [action], entry)
    {
      assert entry == after.serialized[|tally.serialized|] && after.running == tally.running;
      assert TrueReason(limit, after.running, action, entry.1);
    }
  }

  /** Every entry that admission adds gives a true reason, in terms of the workers in the end. */
  lemma {:induction false} AdmissionReasons(board: Board, limit: nat, tally: Tally, actions: seq<Action>)
    requires UniqueIds(board.actions)
    ensures var after := AdmitAll(board, limit, tally, actions);
      && (forall entry <- after.serialized :: entry in tally.serialized || PutOff(limit, after.running, actions, entry))
      && (forall entry <- after.blocked :: entry in tally.blocked || HeldUp(board, actions, entry))
  {
    if actions != [] {
      var front, last := actions[..|actions| - 1], actions[|actions| - 1];
      var before, after := AdmitAll(board, limit, tally, front), AdmitAll(board, limit, tally, actions);
      AdmissionReasons(board, limit, tally, front);
      AdmitOneReasons(board, limit, before, last);
      AdmitOneWorker(board, limit, before, last);
      assert front + [last] == actions && last in actions;
      forall entry | entry in after.serialized
        ensures entry in tally.serialized || PutOff(limit, after.running, actions, entry)
      {
        if entry in before.serialized && entry !in tally.serialized {
          ReasonLater(limit, before.running, after.running, front, last, entry);
        }
      }
      forall entry | entry in after.blocked ensures entry in tally.blocked || HeldUp(board, actions, entry) {
        if HeldUp(board, front, entry) {
          var action :| action in front && action.id == entry.0 && TrueBlock(board, action, entry.1);
          assert action in actions;
        }
      }
    }
  }

  ghost predicate FailedEarlier(board: Board, action: Action) {
    action in board.actions && !IsReached(board, action) && action.id in board.failed
  }

  lemma {:induction false} FailedEntriesExactly(board: Board, ordered: seq<Action>)
    ensures forall entry :: entry in FailedEntries(board, ordered) <==>
      entry.1 == FailedBefore &&
      exists action <- ordered :: action.id == entry.0 && !IsReached(board, action) && action.id in board.failed
  {
    if ordered != [] {
      var n := |ordered| - 1;
      FailedEntriesExactly(board, ordered[..n]);
      ClassifyExactly(board, ordered[n]);
      assert forall action :: action in ordered <==> action in ordered[..n] || action == ordered[n];
    }
  }

  lemma {:induction false} KeptReasons(board: Board, tally: Tally, workers: seq<Worker>)
    requires UniqueIds(board.actions)
    requires forall worker <- workers :: worker.Working? ==> worker.action in board.actions
    ensures forall entry <- KeepWorkers(board, tally, workers).blocked ::
      entry in tally.blocked || HeldUp(board, board.actions, entry)
  {
    if workers != [] {
      var n := |workers| - 1;
      assert workers[n] in workers;
      KeptReasons(board, tally, workers[..n]);
      if workers[n].Working? && !DependencyOf(board, workers[n].action).Satisfied? {
        BlockIsTrue(board, workers[n].action);
      }
    }
  }

  lemma ActiveSerialized(board: Board, slots: seq<Slot>)
    ensures forall entry :: entry in ActiveTally(board, slots).serialized <==>
      entry.1 == FailedBefore && exists action :: FailedEarlier(board, action) && action.id == entry.0
  {
    KeepWorkersRunning(board, Tally([], [], FailedEntries(board, Ordered(board)), []), Reservations(board, slots));
    FailedEntriesExactly(board, Ordered(board));
    SortKeepsMembers(board.actions);
  }

  /** Every action that is put off is put off for a true reason, and every failed action is listed as failed. */
  lemma SerializedReasonsAreTrue(board: Board, slots: seq<Slot>, limit: nat)
    requires UniqueIds(board.actions)
    ensures forall entry <- ReportOf(board, slots, limit).serialized ::
      (entry.1 == FailedBefore && exists action :: FailedEarlier(board, action) && action.id == entry.0) ||
      PutOff(limit, ReportOf(board, slots, limit).running, NewCandidates(board, slots), entry)
    ensures forall action :: FailedEarlier(board, action) ==>
      (action.id, FailedBefore) in ReportOf(board, slots, limit).serialized
  {
    ActiveSerialized(board, slots);
    AdmissionReasons(board, limit, ActiveTally(board, slots), NewCandidates(board, slots));
    AdmitAllGrows(board, limit, ActiveTally(board, slots), NewCandidates(board, slots));
  }

  lemma ActiveBlocked(board: Board, slots: seq<Slot>)
    requires UniqueIds(board.actions)
    ensures forall entry <- ActiveTally(board, slots).blocked :: HeldUp(board, board.actions, entry)
  {
    ReservationsInCatalog(board, slots);
    KeptReasons(board, Tally([], [], FailedEntries(board, Ordered(board)), []), Reservations(board, slots));
  }

  lemma HeldUpInCatalog(board: Board, actions: seq<Action>, entry: (string, DependencyStatus))
    requires HeldUp(board, actions, entry) && forall action <- actions :: action in board.actions
    ensures HeldUp(board, board.actions, entry)
  {
  }

  /** Every action that is blocked is blocked by its first dependency that is not reached, for a true reason. */
  lemma BlockedReasonsAreTrue(board: Board, slots: seq<Slot>, limit: nat)
    requires UniqueIds(board.actions)
    ensures forall entry <- ReportOf(board, slots, limit).blocked :: HeldUp(board, board.actions, entry)
  {
    ActiveBlocked(board, slots);
    AdmissionReasons(board, limit, ActiveTally(board, slots), NewCandidates(board, slots));
    NewCandidatesFacts(board, slots);
    forall entry | entry in ReportOf(board, slots, limit).blocked ensures HeldUp(board, board.actions, entry) {
      if HeldUp(board, NewCandidates(board, slots), entry) {
        HeldUpInCatalog(board, NewCandidates(board, slots), entry);
      }
    }
  }

  lemma KeptBlocks(board: Board, tally: Tally, worker: Worker)
    ensures tally.blocked <= KeepWorker(board, tally, worker).blocked
    ensures
      worker.Working? && IsCandidateId(board, worker.action.id) && !DependencyOf(board, worker.action).Satisfied? ==>
        KeepWorker(board, tally, worker).blocked ==
          tally.blocked + [(worker.action.id, DependencyOf(board, worker.action))]
  {
  }

  lemma {:induction false} KeptBlocked(board: Board, tally: Tally, workers: seq<Worker>, worker: Worker,
                                       entry: (string, DependencyStatus))
    requires worker in workers
    requires forall before: Tally :: entry in KeepWorker(board, before, worker).blocked
    ensures entry in KeepWorkers(board, tally, workers).blocked
  {
    var n := |workers| - 1;
    KeptBlocks(board, KeepWorkers(board, tally, workers[..n]), workers[n]);
    if workers[n] != worker {
      assert worker in workers[..n];
      KeptBlocked(board, tally, workers[..n], worker, entry);
    }
  }

  /** Open work that a slot occupies and whose dependencies are not reached is listed as blocked, with the reason. */
  lemma OccupiedButBlockedIsListed(board: Board, slots: seq<Slot>, limit: nat, action: Action)
    requires UniqueIds(board.actions) && SomeoneOccupies(board, slots, action)
    requires IsOpen(board, action) && !DependenciesReached(board, action)
    ensures exists entry <- ReportOf(board, slots, limit).blocked ::
      entry.0 == action.id && TrueBlock(board, action, entry.1)
  {
    ReservationsExactly(board, slots);
    CandidateIdMeans(board, action);
    DependenciesExactly(board, action);
    BlockIsTrue(board, action);
    var empty := Tally([], [], FailedEntries(board, Ordered(board)), []);
    var entry := (action.id, DependencyOf(board, action));
    forall before: Tally ensures entry in KeepWorker(board, before, Working(action)).blocked {
      KeptBlocks(board, before, Working(action));
    }
    KeptBlocked(board, empty, Reservations(board, slots), Working(action), entry);
    AdmitAllGrows(board, limit, ActiveTally(board, slots), NewCandidates(board, slots));
  }
}
