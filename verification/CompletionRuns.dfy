/**
 Whole runs of the manager: actions are completed one after the other, each of them only while it is in
 some ready set (scripts/fanmind_next_best_action.py:586-618, 796-812, 991-1012).
 */
module CompletionRuns {
  import opened WorkStatuses
  import opened Catalog
  import opened Manager
  import opened ManagerProperties

  /**
   One step of a run. A completion names the report it was ready in: deferred and failed sets, slots and
   limit are arbitrary at every step. A move sets a gate without completing or un-completing any action.
   */
  datatype Event =
    | Completes(action: Action, reached: string, deferred: set<string>, failed: set<string>, slots: seq<Slot>,
      limit: nat)
    | Moves(gate: string, state: string)

  type Gates = map<string, string>

  function BoardAt(actions: seq<Action>, gates: Gates, deferred: set<string>, failed: set<string>): Board {
    Board(gates, actions, deferred, failed)
  }

  predicate IsDone(gates: Gates, action: Action) {
    (if action.gate in gates then gates[action.gate] else "UNKNOWN") in action.doneStates
  }

  function After(gates: Gates, event: Event): Gates {
    match event
    case Completes(action, reached, _, _, _, _) => gates[action.gate := reached]
    case Moves(gate, state) => gates[gate := state]
  }

  predicate CanHappen(actions: seq<Action>, gates: Gates, event: Event) {
    match event
    case Completes(action, reached, deferred, failed, slots, limit) =>
      action in actions && reached in action.doneStates &&
      action.id in ReportOf(BoardAt(actions, gates, deferred, failed), slots, limit).safeReadySet
    case Moves(gate, state) =>
      forall action <- actions :: IsDone(gates[gate := state], action) == IsDone(gates, action)
  }

  function GatesAfter(gates: Gates, events: seq<Event>): Gates {
    if events == [] then gates else After(GatesAfter(gates, events[..|events| - 1]), events[|events| - 1])
  }

  predicate IsRun(actions: seq<Action>, gates: Gates, events: seq<Event>) {
    events == [] ||
    (var n := |events| - 1;
     IsRun(actions, gates, events[..n]) && CanHappen(actions, GatesAfter(gates, events[..n]), events[n]))
  }

  /** The completed actions of a run, in completion order. */
  function Order(events: seq<Event>): seq<Action> {
    if events == [] then []
    else
      var n := |events| - 1;
      Order(events[..n]) + (if events[n].Completes? then [events[n].action] else [])
  }

  predicate OneGatePerAction(actions: seq<Action>) {
    forall left <- actions, right <- actions :: left.gate == right.gate ==> left == right
  }

  /** Where a run may start: unique ids, one gate per action, nothing done. */
  predicate FreshStart(actions: seq<Action>, gates: Gates) {
    UniqueIds(actions) && OneGatePerAction(actions) && forall action <- actions :: !IsDone(gates, action)
  }

  /** Every dependency of the k-th completed action was completed before it. */
  ghost predicate Topological(order: seq<Action>) {
    forall k, id :: 0 <= k < |order| && id in order[k].dependsOn ==> exists j :: 0 <= j < k && order[j].id == id
  }

  lemma ReadyInRun(actions: seq<Action>, gates: Gates, event: Event)
    requires UniqueIds(actions) && event.Completes? && CanHappen(actions, gates, event)
    ensures !IsDone(gates, event.action)
    ensures forall id <- event.action.dependsOn :: exists other <- actions :: other.id == id && IsDone(gates, other)
  {
    var board := BoardAt(actions, gates, event.deferred, event.failed);
    ReadyMeansDependenciesMet(board, event.slots, event.limit, event.action);
    forall id | id in event.action.dependsOn ensures exists other <- actions :: other.id == id && IsDone(gates, other) {
      assert DependencyMet(board, id);
      assert IsDone(gates, Index(actions)[id]);
    }
  }

  /**
   The done actions are exactly the completed ones, each completed once, in an order that respects every dependency.
   */
  ghost predicate Orderly(actions: seq<Action>, gates: Gates, order: seq<Action>) {
    Topological(order) && UniqueIds(order) && (forall action <- order :: action in actions) &&
    forall action <- actions :: IsDone(gates, action) <==> action in order
  }

  /** Every run keeps the completion order topological. */
  lemma {:induction false} CompletionOrderIsTopological(actions: seq<Action>, gates: Gates, events: seq<Event>)
    requires FreshStart(actions, gates) && IsRun(actions, gates, events)
    ensures Orderly(actions, GatesAfter(gates, events), Order(events))
  {
    if events != [] {
      var n := |events| - 1;
      CompletionOrderIsTopological(actions, gates, events[..n]);
      var before, event := GatesAfter(gates, events[..n]), events[n];
      match event
      case Completes(action, reached, _, _, _, _) =>
        ReadyInRun(actions, before, event);
        CompletionStaysOrderly(actions, before, Order(events[..n]), action, reached);
      case Moves(gate, state) =>
        assert GatesAfter(gates, events) == before[gate := state] && Order(events) == Order(events[..n]);
        MoveStaysOrderly(actions, before, Order(events[..n]), gate, state);
    }
  }

  lemma MoveStaysOrderly(actions: seq<Action>, gates: Gates, order: seq<Action>, gate: string, state: string)
    requires Orderly(actions, gates, order) && CanHappen(actions, gates, Moves(gate, state))
    ensures Orderly(actions, gates[gate := state], order)
  {
    forall action | action in actions ensures IsDone(gates[gate := state], action) <==> action in order {
      assert IsDone(gates[gate := state], action) == IsDone(gates, action);
    }
  }

  lemma CompletionStaysOrderly(actions: seq<Action>, gates: Gates, order: seq<Action>, action: Action, reached: string)
    requires UniqueIds(actions) && OneGatePerAction(actions) && Orderly(actions, gates, order)
    requires action in actions && !IsDone(gates, action) && reached in action.doneStates
    requires forall id <- action.dependsOn :: exists other <- actions :: other.id == id && IsDone(gates, other)
    ensures Orderly(actions, gates[action.gate := reached], order + [action])
  {
    StepOrder(actions, gates, order, action);
    forall other | other in actions
      ensures IsDone(gates[action.gate := reached], other) <==> other in order + [action]
    {
      if other.gate == action.gate { assert other == action; }
    }
  }

  lemma StepOrder(actions: seq<Action>, gates: Gates, order: seq<Action>, action: Action)
    requires UniqueIds(actions) && action in actions && !IsDone(gates, action) && Orderly(actions, gates, order)
    requires forall id <- action.dependsOn :: exists other <- actions :: other.id == id && IsDone(gates, other)
    ensures Topological(order + [action]) && UniqueIds(order + [action])
  {
    var longer := order + [action];
    forall k, id | 0 <= k < |longer| && id in longer[k].dependsOn ensures exists j :: 0 <= j < k && longer[j].id == id {
      if k < |order| {
        var j :| 0 <= j < k && order[j].id == id;
        assert longer[j].id == id;
      } else {
        var other :| other in actions && other.id == id && IsDone(gates, other);
        var j :| 0 <= j < |order| && order[j] == other;
        assert longer[j].id == id;
      }
    }
    forall j | 0 <= j < |order| ensures order[j].id != action.id {
      assert order[j] in actions;
      if order[j].id == action.id { SameIdSameAction(actions, order[j], action); }
    }
  }

  // ----- cycles -----

  /** Each action of the cycle depends on the next one, and the last one on the first. */
  predicate IsCycle(cycle: seq<Action>) {
    cycle != [] && forall i :: 0 <= i < |cycle| ==> cycle[if i + 1 < |cycle| then i + 1 else 0].id in cycle[i].dependsOn
  }

  /** A set of ids whose members all wait for another member can never be started from within. */
  lemma {:induction false} NothingFromAClosedSet(order: seq<Action>, waiting: set<string>, k: nat)
    requires Topological(order) && k <= |order|
    requires forall action <- order :: action.id in waiting ==> exists id <- action.dependsOn :: id in waiting
    ensures forall j :: 0 <= j < k ==> order[j].id !in waiting
  {
    if k > 0 {
      NothingFromAClosedSet(order, waiting, k - 1);
      assert order[k - 1] in order;
    }
  }

  lemma NextInCycle(cycle: seq<Action>, action: Action) returns (next: Action)
    requires IsCycle(cycle) && action in cycle
    ensures next in cycle && next.id in action.dependsOn
  {
    var m :| 0 <= m < |cycle| && cycle[m] == action;
    next := cycle[if m + 1 < |cycle| then m + 1 else 0];
  }

  lemma CycleIsNeverCompleted(actions: seq<Action>, order: seq<Action>, cycle: seq<Action>, member: Action)
    requires UniqueIds(actions) && Topological(order) && (forall action <- order :: action in actions)
    requires IsCycle(cycle) && (forall action <- cycle :: action in actions) && member in cycle
    ensures member !in order
  {
    var waiting := set action <- cycle :: action.id;
    forall action | action in order && action.id in waiting ensures exists id <- action.dependsOn :: id in waiting {
      var twin :| twin in cycle && twin.id == action.id;
      SameIdSameAction(actions, twin, action);
      var next := NextInCycle(cycle, twin);
      assert next.id in waiting;
    }
    NothingFromAClosedSet(order, waiting, |order|);
    assert member.id in waiting;
  }

  /** No action on a dependency cycle is ever completed, and none is ever ready, in any state any run reaches. */
  lemma CycleIsNeverReady(actions: seq<Action>, gates: Gates, events: seq<Event>, cycle: seq<Action>, i: nat,
                          deferred: set<string>, failed: set<string>, slots: seq<Slot>, limit: nat)
    requires FreshStart(actions, gates) && IsRun(actions, gates, events)
    requires IsCycle(cycle) && (forall action <- cycle :: action in actions) && i < |cycle|
    ensures cycle[i] !in Order(events)
    ensures cycle[i].id !in ReportOf(BoardAt(actions, GatesAfter(gates, events), deferred, failed), slots,
      limit).safeReadySet
  {
    CompletionOrderIsTopological(actions, gates, events);
    CycleIsNeverCompleted(actions, Order(events), cycle, cycle[i]);
    var board := BoardAt(actions, GatesAfter(gates, events), deferred, failed);
    if cycle[i].id in ReportOf(board, slots, limit).safeReadySet {
      ReadyMeansDependenciesMet(board, slots, limit, cycle[i]);
      var next := NextInCycle(cycle, cycle[i]);
      CycleIsNeverCompleted(actions, Order(events), cycle, next);
      IndexOfUnique(actions, next);
      assert DependencyMet(board, next.id);
      assert IsDone(GatesAfter(gates, events), next);
      assert false;
    }
  }
}
