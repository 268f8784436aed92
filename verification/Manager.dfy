/**
 The parallel-safe ready set and the serial dispatcher on top of it
 (scripts/fanmind_next_best_action.py, `resolve_worker_limit`, `select`, `build_safe_ready_set`,
 `select_from_manager`, `dispatch_decision`).
 */
module Manager {
  import opened Wrappers
  import opened WorkStatuses
  import opened Catalog
  import opened Scopes

  // ----- work slots to worker reservations -----

  /** A consumed worker: a known continuation, or a fail-closed placeholder that is never parallel-safe. */
  datatype Worker = Working(action: Action) | UnknownAction(id: string) | UnknownTasks(tasks: set<string>)

  datatype SlotOutcome = ReleasesWorker | StopsActions(ids: set<string>) | Reserves(worker: Worker)

  predicate WorkerParallelSafe(worker: Worker) {
    worker.Working? && worker.action.parallelSafe
  }

  function TaskMatches(board: Board, slot: Slot): seq<Action> {
    Filter((action: Action) => action.task in slot.tasks, board.actions)
  }

  /** Every task of the slot belongs to some catalog action. */
  predicate TasksResolved(board: Board, slot: Slot) {
    slot.tasks != {} && forall task <- slot.tasks :: task != "" && exists action <- board.actions :: action.task == task
  }

  function LiveMatches(board: Board, slot: Slot): seq<Action> {
    Filter((action: Action) => !TerminalStatus(CurrentStatus(board, action)), TaskMatches(board, slot))
  }

  /** The status recorded under the action's id, which every catalog action has. */
  function CurrentStatus(board: Board, action: Action): ActionStatus {
    if action.id in Index(Ordered(board)) then StatusOf(board, action.id) else Classify(board, action)
  }

  /** The action named by the slot is in the catalog, and the slot's one task is its task. */
  predicate ExactIdentity(board: Board, slot: Slot) {
    slot.action.Some? && slot.action.value in Index(board.actions) && |slot.tasks| == 1 &&
    Index(board.actions)[slot.action.value].task in slot.tasks && TasksResolved(board, slot)
  }

  function Placeholder(slot: Slot): Worker {
    match slot.action
    case Some(id) => UnknownAction(id)
    case None => UnknownTasks(slot.tasks)
  }

  predicate WaitingOrOwner(status: ActionStatus) {
    OwnerBlocking(status) || status.WaitingPrerequisite?
  }

  function StoppedOutcome(board: Board, slot: Slot): SlotOutcome {
    if slot.action.Some? then
      if ExactIdentity(board, slot) then StopsActions({slot.action.value}) else Reserves(Placeholder(slot))
    else if TaskMatches(board, slot) == [] then ReleasesWorker
    else if TasksResolved(board, slot) then StopsActions(set action <- LiveMatches(board, slot) :: action.id)
    else Reserves(Placeholder(slot))
  }

  /** The slot's identity is consistent and everything it could mean is already done or failed. */
  predicate TerminalIdentity(board: Board, slot: Slot) {
    if slot.action.Some? then
      ExactIdentity(board, slot) && TerminalStatus(CurrentStatus(board, Index(board.actions)[slot.action.value]))
    else
      TaskMatches(board, slot) != [] && LiveMatches(board, slot) == [] && TasksResolved(board, slot)
  }

  /** The one live action the slot stands for, if its identity is exact. */
  function ResolvedAction(board: Board, slot: Slot): Option<Action> {
    if slot.action.Some? then
      if ExactIdentity(board, slot) && Index(board.actions)[slot.action.value] in LiveMatches(board, slot)
      then Some(Index(board.actions)[slot.action.value]) else None
    else if |LiveMatches(board, slot)| == 1 && TasksResolved(board, slot) then Some(LiveMatches(board, slot)[0])
    else None
  }

  /** The action could not be started: it waits for a prerequisite, the owner, or another action. */
  predicate CannotProceed(board: Board, action: Action) {
    WaitingOrOwner(CurrentStatus(board, action)) || !DependencyOf(board, action).Satisfied?
  }

  /** Work that is not explicitly running, is fully resolved, and none of whose live actions could proceed. */
  predicate HoldsNothing(board: Board, slot: Slot) {
    slot.action.None? && TasksResolved(board, slot) && !Running(slot.status) && LiveMatches(board, slot) != [] &&
    forall action <- LiveMatches(board, slot) :: CannotProceed(board, action)
  }

  function OutcomeOf(board: Board, slot: Slot): SlotOutcome {
    if slot.conflict then Reserves(Placeholder(slot))
    else if Stopped(slot.status) then StoppedOutcome(board, slot)
    else if TerminalIdentity(board, slot) then ReleasesWorker
    else
      match ResolvedAction(board, slot)
      case Some(action) =>
        if !Running(slot.status) && CannotProceed(board, action) then ReleasesWorker
        else Reserves(Working(action))
      case None =>
        if HoldsNothing(board, slot) then ReleasesWorker else Reserves(Placeholder(slot))
  }

  function Outcomes(board: Board, slots: seq<Slot>): seq<SlotOutcome> {
    seq(|slots|, i requires 0 <= i < |slots| => OutcomeOf(board, slots[i]))
  }

  /** The workers reserved by a list of outcomes, in order. */
  function Held(outcomes: seq<SlotOutcome>): seq<Worker> {
    if outcomes == [] then []
    else
      var n := |outcomes| - 1;
      Held(outcomes[..n]) + (if outcomes[n].Reserves? then [outcomes[n].worker] else [])
  }

  function StoppedBy(outcomes: seq<SlotOutcome>): set<string> {
    if outcomes == [] then {}
    else
      var n := |outcomes| - 1;
      StoppedBy(outcomes[..n]) + (if outcomes[n].StopsActions? then outcomes[n].ids else {})
  }

  function Reservations(board: Board, slots: seq<Slot>): seq<Worker> {
    Held(Outcomes(board, slots))
  }

  function StoppedIds(board: Board, slots: seq<Slot>): set<string> {
    StoppedBy(Outcomes(board, slots))
  }

  // ----- admission -----

  datatype PairReason = WorkerNotParallelSafe | Scope(reason: ScopeReason)

  datatype SerialReason =
    | FailedBefore
    | WorkerLimit
    | NotParallelSafe
    | Conflicts(pairs: set<(Worker, PairReason)>)

  /** The four growing lists of the manager. */
  datatype Tally = Tally(
    selected: seq<Action>,
    running: seq<Worker>,
    serialized: seq<(string, SerialReason)>,
    blocked: seq<(string, DependencyStatus)>)

  function FailedEntries(board: Board, ordered: seq<Action>): seq<(string, SerialReason)> {
    if ordered == [] then []
    else
      var n := |ordered| - 1;
      FailedEntries(board, ordered[..n]) +
      (if Classify(board, ordered[n]).FailedDoNotRestart? then [(ordered[n].id, FailedBefore)] else [])
  }

  predicate IsCandidateId(board: Board, id: string) {
    exists action <- Candidates(board) :: action.id == id
  }

  /** An active continuation always keeps its worker; it is reported as ready only when it may proceed. */
  function KeepWorker(board: Board, tally: Tally, worker: Worker): Tally {
    var kept := tally.(running := tally.running + [worker]);
    if !worker.Working? || !IsCandidateId(board, worker.action.id) then kept
    else if DependencyOf(board, worker.action).Satisfied? then kept.(selected := kept.selected + [worker.action])
    else kept.(blocked := kept.blocked + [(worker.action.id, DependencyOf(board, worker.action))])
  }

  function KeepWorkers(board: Board, tally: Tally, workers: seq<Worker>): Tally {
    if workers == [] then tally
    else
      var n := |workers| - 1;
      KeepWorker(board, KeepWorkers(board, tally, workers[..n]), workers[n])
  }

  /** Why `worker` cannot run beside `action`. */
  function PairReasons(worker: Worker, action: Action): set<(Worker, PairReason)> {
    if !WorkerParallelSafe(worker) then {(worker, WorkerNotParallelSafe)}
    else set reason <- ConflictReasons(worker.action, action) :: (worker, Scope(reason))
  }

  function ConflictsWith(running: seq<Worker>, action: Action): set<(Worker, PairReason)> {
    if running == [] then {}
    else ConflictsWith(running[..|running| - 1], action) + PairReasons(running[|running| - 1], action)
  }

  function AdmitOne(board: Board, limit: nat, tally: Tally, action: Action): Tally {
    var dependency := DependencyOf(board, action);
    if !dependency.Satisfied? then tally.(blocked := tally.blocked + [(action.id, dependency)])
    else if |tally.running| >= limit then tally.(serialized := tally.serialized + [(action.id, WorkerLimit)])
    else if tally.running == [] then
      tally.(selected := tally.selected + [action], running := [Working(action)])
    else if !action.parallelSafe then tally.(serialized := tally.serialized + [(action.id, NotParallelSafe)])
    else
      var conflicts := ConflictsWith(tally.running, action);
      if conflicts != {} then tally.(serialized := tally.serialized + [(action.id, Conflicts(conflicts))])
      else tally.(selected := tally.selected + [action], running := tally.running + [Working(action)])
  }

  function AdmitAll(board: Board, limit: nat, tally: Tally, actions: seq<Action>): Tally {
    if actions == [] then tally
    else
      var n := |actions| - 1;
      AdmitOne(board, limit, AdmitAll(board, limit, tally, actions[..n]), actions[n])
  }

  /** Candidates that are neither already running nor stopped by a record. */
  predicate IsNew(workers: seq<Worker>, stopped: set<string>, action: Action) {
    (forall worker <- workers :: worker.Working? ==> worker.action.id != action.id) && action.id !in stopped
  }

  function OnlyNew(workers: seq<Worker>, stopped: set<string>, actions: seq<Action>): seq<Action> {
    Filter((action: Action) => IsNew(workers, stopped, action), actions)
  }

  function NewCandidates(board: Board, slots: seq<Slot>): seq<Action> {
    OnlyNew(Reservations(board, slots), StoppedIds(board, slots), Sort(Candidates(board)))
  }

  /** The tally after the active work has been accounted for and before any new admission. */
  function ActiveTally(board: Board, slots: seq<Slot>): Tally {
    KeepWorkers(board, Tally([], [], FailedEntries(board, Ordered(board)), []), Reservations(board, slots))
  }

  function FinalTally(board: Board, slots: seq<Slot>, limit: nat): Tally {
    AdmitAll(board, limit, ActiveTally(board, slots), NewCandidates(board, slots))
  }

  function Ids(actions: seq<Action>): seq<string> {
    seq(|actions|, i requires 0 <= i < |actions| => actions[i].id)
  }

  // ----- the imperative manager -----

  datatype LimitError = LimitBelowOne | LimitExceedsHardMax

  const DEFAULT_WORKER_LIMIT: nat := 3
  const HARD_MAX_WORKER_LIMIT: nat := 5

  function ResolveWorkerLimit(requested: Option<int>): Result<nat, LimitError> {
    match requested
    case None => Ok(DEFAULT_WORKER_LIMIT)
    case Some(limit) =>
      if limit < 1 then Err(LimitBelowOne)
      else if limit > HARD_MAX_WORKER_LIMIT then Err(LimitExceedsHardMax)
      else Ok(limit)
  }

  /** `running` is the manager's local list of consumed workers; the others are its reported fields. */
  datatype Report = Report(
    limit: nat,
    safeReadySet: seq<string>,
    workerUsed: nat,
    activeContinuations: seq<Worker>,
    serialized: seq<(string, SerialReason)>,
    blocked: seq<(string, DependencyStatus)>,
    running: seq<Worker>)

  function ReportOf(board: Board, slots: seq<Slot>, limit: nat): Report {
    var tally := FinalTally(board, slots, limit);
    Report(limit, Ids(tally.selected), |tally.running|, Reservations(board, slots), tally.serialized, tally.blocked,
      tally.running)
  }

  /** A stopped slot: exact identities stay visible, inconsistent ones keep a worker, unknown ones hold nothing. */
  method JudgeStopped(board: Board, slot: Slot, consistent: bool) returns (outcome: SlotOutcome)
    requires consistent <==> ExactIdentity(board, slot)
    ensures outcome == StoppedOutcome(board, slot)
  {
    var taskMatches := TaskMatches(board, slot);
    if slot.action.Some? {
      if consistent {
        return StopsActions({slot.action.value});
      } else {
        return Reserves(Placeholder(slot));
      }
    } else if taskMatches != [] && TasksResolved(board, slot) {
      return StopsActions(set action <- LiveMatches(board, slot) :: action.id);
    } else if taskMatches != [] {
      return Reserves(Placeholder(slot));
    }
    outcome := ReleasesWorker;
  }

  /**
   A live slot that stands for exactly one action: owner, prerequisite and dependency gates release it unless it
   runs.
   */
  method JudgeResolved(board: Board, slot: Slot, action: Action) returns (outcome: SlotOutcome)
    ensures outcome == if !Running(slot.status) && CannotProceed(board, action) then ReleasesWorker
      else Reserves(Working(action))
  {
    var status := CurrentStatus(board, action);
    if OwnerBlocking(status) {
      if !Running(slot.status) {
        return ReleasesWorker;
      }
    }
    if status.WaitingPrerequisite? {
      if !Running(slot.status) {
        return ReleasesWorker;
      }
    }
    var dependency := DependencyOf(board, action);
    if !dependency.Satisfied? && !Running(slot.status) {
      return ReleasesWorker;
    }
    outcome := Reserves(Working(action));
  }

  /** A live slot that stands for no single action. */
  method JudgeUnresolved(board: Board, slot: Slot) returns (outcome: SlotOutcome)
    ensures outcome == if HoldsNothing(board, slot) then ReleasesWorker else Reserves(Placeholder(slot))
  {
    var matches, resolved := LiveMatches(board, slot), TasksResolved(board, slot);
    if slot.action.None? && resolved && !Running(slot.status) && matches != [] &&
      (forall action <- matches ::
        WaitingOrOwner(CurrentStatus(board, action)) || !DependencyOf(board, action).Satisfied?)
    {
      return ReleasesWorker;
    }
    var statuses := set action <- matches :: CurrentStatus(board, action);
    assert forall action <- matches :: CurrentStatus(board, action) in statuses;
    if slot.action.None? && resolved && statuses != {} && (forall status <- statuses :: WaitingOrOwner(status)) &&
      !Running(slot.status)
    {
      return ReleasesWorker;
    }
    outcome := Reserves(Placeholder(slot));
  }

  /** One turn of the slot loop, with the branches of the loop body in their order. */
  method JudgeSlot(board: Board, slot: Slot) returns (outcome: SlotOutcome)
    ensures outcome == OutcomeOf(board, slot)
  {
    var byId := Index(board.actions);
    var exact := if slot.action.Some? && slot.action.value in byId then Some(byId[slot.action.value]) else None;
    var taskMatches, resolved, matches :=
      TaskMatches(board, slot), TasksResolved(board, slot), LiveMatches(board, slot);
    if slot.conflict {
      return Reserves(Placeholder(slot));
    }
    var consistent := exact.Some? && |slot.tasks| == 1 && exact.value.task in slot.tasks && resolved;
    if Stopped(slot.status) {
      outcome := JudgeStopped(board, slot, consistent);
      return;
    }
    var action: Option<Action> := None;
    if slot.action.Some? {
      if exact.Some? && TerminalStatus(CurrentStatus(board, exact.value)) {
        if consistent {
          return ReleasesWorker;
        }
        action := None;
      } else {
        action := if consistent && exact.value in matches then exact else None;
      }
    } else {
      if taskMatches != [] && matches == [] && resolved {
        return ReleasesWorker;
      }
      action := if |matches| == 1 && resolved then Some(matches[0]) else None;
    }
    if action.Some? {
      outcome := JudgeResolved(board, slot, action.value);
    } else {
      outcome := JudgeUnresolved(board, slot);
    }
  }

  /** The slot loop: each slot reserves a worker, stops actions, or releases its worker. */
  method ReserveWorkers(board: Board, slots: seq<Slot>) returns (workers: seq<Worker>, stopped: set<string>)
    ensures workers == Reservations(board, slots) && stopped == StoppedIds(board, slots)
  {
    workers, stopped := [], {};
    ghost var outcomes := Outcomes(board, slots);
    for i := 0 to |slots|
      invariant workers == Held(outcomes[..i]) && stopped == StoppedBy(outcomes[..i])
    {
      var outcome := JudgeSlot(board, slots[i]);
      HeldExtends(outcomes, i);
      match outcome {
        case ReleasesWorker =>
        case StopsActions(ids) => stopped := stopped + ids;
        case Reserves(worker) => workers := workers + [worker];
      }
    }
    assert outcomes[..|outcomes|] == outcomes;
  }

  lemma HeldExtends(outcomes: seq<SlotOutcome>, i: nat)
    requires i < |outcomes|
    ensures Held(outcomes[..i + 1]) ==
            Held(outcomes[..i]) + (if outcomes[i].Reserves? then [outcomes[i].worker] else [])
    ensures StoppedBy(outcomes[..i + 1]) ==
            StoppedBy(outcomes[..i]) + (if outcomes[i].StopsActions? then outcomes[i].ids else {})
  {
    assert outcomes[..i + 1][..i] == outcomes[..i];
  }

  /** The conflict list a candidate collects against everything already running. */
  method CollectConflicts(running: seq<Worker>, action: Action) returns (conflicts: set<(Worker, PairReason)>)
    ensures conflicts == ConflictsWith(running, action)
  {
    conflicts := {};
    for i := 0 to |running|
      invariant conflicts == ConflictsWith(running[..i], action)
    {
      assert running[..i + 1][..i] == running[..i];
      var current := running[i];
      if !WorkerParallelSafe(current) {
        conflicts := conflicts + {(current, WorkerNotParallelSafe)};
      } else {
        var pair := ScopeConflicts(current.action, action);
        conflicts := conflicts + set reason <- pair :: (current, Scope(reason));
      }
    }
    assert running[..|running|] == running;
  }

  method KeepActive(board: Board, workers: seq<Worker>, start: Tally) returns (tally: Tally)
    ensures tally == KeepWorkers(board, start, workers)
  {
    var selected, running, blocked := start.selected, start.running, start.blocked;
    for i := 0 to |workers|
      invariant Tally(selected, running, start.serialized, blocked) == KeepWorkers(board, start, workers[..i])
    {
      assert workers[..i + 1][..i] == workers[..i];
      var worker := workers[i];
      running := running + [worker];
      if worker.Working? && IsCandidateId(board, worker.action.id) {
        var dependency := DependencyOf(board, worker.action);
        if dependency.Satisfied? {
          selected := selected + [worker.action];
        } else {
          blocked := blocked + [(worker.action.id, dependency)];
        }
      }
    }
    assert workers[..|workers|] == workers;
    tally := Tally(selected, running, start.serialized, blocked);
  }

  method AdmitNew(board: Board, limit: nat, actions: seq<Action>, start: Tally) returns (tally: Tally)
    ensures tally == AdmitAll(board, limit, start, actions)
  {
    var selected, running, serialized, blocked := start.selected, start.running, start.serialized, start.blocked;
    for i := 0 to |actions|
      invariant Tally(selected, running, serialized, blocked) == AdmitAll(board, limit, start, actions[..i])
    {
      assert actions[..i + 1][..i] == actions[..i];
      var action := actions[i];
      var dependency := DependencyOf(board, action);
      if !dependency.Satisfied? {
        blocked := blocked + [(action.id, dependency)];
        continue;
      }
      if |running| >= limit {
        serialized := serialized + [(action.id, WorkerLimit)];
        continue;
      }
      if running == [] {
        selected, running := selected + [action], [Working(action)];
        continue;
      }
      if !action.parallelSafe {
        serialized := serialized + [(action.id, NotParallelSafe)];
        continue;
      }
      var conflicts := CollectConflicts(running, action);
      if conflicts != {} {
        serialized := serialized + [(action.id, Conflicts(conflicts))];
        continue;
      }
      selected, running := selected + [action], running + [Working(action)];
    }
    assert actions[..|actions|] == actions;
    tally := Tally(selected, running, serialized, blocked);
  }

  /** Without slots, every active task is a slot of its own, in sorted order. */
  function ResolvedSlots(activeTasks: set<string>, activeSlots: Option<seq<Slot>>): (slots: seq<Slot>)
    ensures activeSlots.None? ==>
              (forall slot <- slots :: slot.action.None? && slot.status.None? && !slot.conflict && |slot.tasks| == 1) &&
              forall task :: task in activeTasks <==> exists slot <- slots :: slot.tasks == {task}
  {
    match activeSlots
    case Some(slots) => slots
    case None =>
      var tasks := SortedIds(activeTasks);
      var slots := seq(|tasks|, i requires 0 <= i < |tasks| => Slot({tasks[i]}, None, None, false));
      assert forall i :: 0 <= i < |tasks| ==> slots[i].tasks == {tasks[i]} && slots[i] in slots;
      slots
  }

  /** The manager's loops compute the specified report, or refuse the requested limit. */
  method BuildSafeReadySet(board: Board, activeTasks: set<string>, activeSlots: Option<seq<Slot>>,
                           requested: Option<int>)
      returns (report: Result<Report, LimitError>)
    ensures match ResolveWorkerLimit(requested)
            case Err(error) => report == Err(error)
            case Ok(limit) => report == Ok(ReportOf(board, ResolvedSlots(activeTasks, activeSlots), limit))
    ensures report.Ok? <==> requested.None? || 1 <= requested.value <= 5
    ensures report.Ok? ==> report.value.limit == if requested.None? then 3 else requested.value
    ensures report.Err? ==> report.error == if requested.value < 1 then LimitBelowOne else LimitExceedsHardMax
  {
    var resolved := ResolveWorkerLimit(requested);
    if resolved.Err? {
      return Err(resolved.error);
    }
    var limit, slots := resolved.value, ResolvedSlots(activeTasks, activeSlots);
    var workers, stopped := ReserveWorkers(board, slots);
    var tally := KeepActive(board, workers, Tally([], [], FailedEntries(board, Ordered(board)), []));
    tally := AdmitNew(board, limit, NewCandidates(board, slots), tally);
    report := Ok(Report(limit, Ids(tally.selected), |tally.running|, workers, tally.serialized, tally.blocked,
      tally.running));
  }

  // ----- serial selection on top of the manager -----

  function FirstReady(board: Board, actions: seq<Action>): Option<Action> {
    if actions == [] then None
    else if DependencyOf(board, actions[0]).Satisfied? then Some(actions[0])
    else FirstReady(board, actions[1..])
  }

  /** `select`: the first candidate whose dependencies hold, else the first owner-blocked action. */
  function Select(board: Board): Option<Action> {
    var ready := FirstReady(board, Candidates(board));
    if ready.Some? then ready else FirstOwnerBlocked(board, Ordered(board))
  }

  datatype SelectionError = UnknownSelected(id: string)

  /** `select_from_manager`: the head of the ready set, else the first owner-blocked action. */
  function SelectFromManager(board: Board, ready: seq<string>): Result<Option<Action>, SelectionError> {
    if ready != [] then
      if ready[0] in Index(board.actions) then Ok(Some(Index(board.actions)[ready[0]]))
        else Err(UnknownSelected(ready[0]))
    else Ok(FirstOwnerBlocked(board, Ordered(board)))
  }

  datatype Dispatch =
    | Ready(action: Action)
    | OwnerWait(action: Action)
    | ParallelActive
    | NothingToDo

  /** The ids under which the active continuations are reported. */
  function ContinuationIds(workers: seq<Worker>): set<string> {
    set worker <- workers | worker.Working? :: worker.action.id
  }

  /** `dispatch_decision`: the manager at limit 1, reduced to at most one new action. */
  function DispatchDecision(board: Board, slots: seq<Slot>): Result<Dispatch, SelectionError> {
    var report := ReportOf(board, slots, 1);
    var newReady := WithoutActive(report.safeReadySet, ContinuationIds(report.activeContinuations));
    if newReady != [] then
      if newReady[0] in Index(board.actions) then Ok(Ready(Index(board.actions)[newReady[0]]))
      else Err(UnknownSelected(newReady[0]))
    else
      match FirstOwnerBlocked(board, Ordered(board))
      case Some(action) => Ok(OwnerWait(action))
      case None => Ok(if report.workerUsed > 0 then ParallelActive else NothingToDo)
  }

  function WithoutActive(ids: seq<string>, active: set<string>): seq<string> {
    if ids == [] then []
    else (if ids[0] in active then [] else [ids[0]]) + WithoutActive(ids[1..], active)
  }
}
