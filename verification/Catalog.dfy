/**
 The action catalog and the state it is judged against
 (scripts/fanmind_next_best_action.py, `gate_state` to `executable_candidates` and
 `manager_dependency_status`).
 */
module Catalog {
  import opened Wrappers

  datatype ScopeKey =
    | Files | Directories | Modules | Contracts | Database | Apis
    | ProjectMemory | Ci | Runtime | Provider | Environment

  /** One catalog action. An absent `deferred_owner_id` is the empty string. */
  datatype Action = Action(
    id: string,
    task: string,
    priority: int,
    gate: string,
    doneStates: set<string>,
    prerequisiteGates: seq<string>,
    deferredOwnerId: string,
    requiresOwner: bool,
    parallelSafe: bool,
    dependsOn: seq<string>,
    scope: Option<map<ScopeKey, seq<string>>>)

  /** Everything a decision reads besides the work slots. */
  datatype Board = Board(
    gates: map<string, string>,
    actions: seq<Action>,
    deferred: set<string>,
    failed: set<string>)

  datatype ActionStatus =
    | Done
    | FailedDoNotRestart
    | WaitingPrerequisite(missing: seq<(string, string)>)
    | DeferredByOwner(ownerId: string)
    | OwnerActionRequired
    | Executable

  datatype DependencyStatus = Satisfied | Unknown(id: string) | Failed(id: string) | NotVerified(id: string)

  // ----- lists -----

  function Filter<T(!new)>(keep: T -> bool, items: seq<T>): (kept: seq<T>)
    ensures forall item :: item in kept <==> item in items && keep(item)
  {
    if items == [] then []
    else
      var rest := Filter(keep, items[1..]);
      if keep(items[0]) then [items[0]] + rest else rest
  }

  predicate UniqueIds(actions: seq<Action>) {
    forall i, j :: 0 <= i < j < |actions| ==> actions[i].id != actions[j].id
  }

  /** Actions by id; a later entry replaces an earlier one with the same id. */
  function Index(actions: seq<Action>): (index: map<string, Action>)
    ensures forall id :: id in index ==> index[id] in actions && index[id].id == id
    ensures forall action <- actions :: action.id in index
  {
    if actions == [] then map[]
    else
      var last := actions[|actions| - 1];
      Index(actions[..|actions| - 1])[last.id := last]
  }

  lemma IndexOfUnique(actions: seq<Action>, action: Action)
    requires UniqueIds(actions) && action in actions
    ensures Index(actions)[action.id] == action
  {
  }

  // ----- order by (priority, id) -----

  predicate StringLe(left: string, right: string) {
    left == [] ||
    (right != [] && (left[0] < right[0] || (left[0] == right[0] && StringLe(left[1..], right[1..]))))
  }

  lemma {:induction false} StringLeTotal(left: string, right: string)
    ensures StringLe(left, right) || StringLe(right, left)
    ensures StringLe(left, left)
  {
    if left != [] {
      if right != [] { StringLeTotal(left[1..], right[1..]); } else { StringLeTotal(left[1..], []); }
    }
  }

  lemma {:induction false} StringLeTransitive(a: string, b: string, c: string)
    requires StringLe(a, b) && StringLe(b, c)
    ensures StringLe(a, c)
  {
    if a != [] && a[0] == b[0] && b[0] == c[0] { StringLeTransitive(a[1..], b[1..], c[1..]); }
  }

  lemma {:induction false} StringLeAntisymmetric(left: string, right: string)
    requires StringLe(left, right) && StringLe(right, left)
    ensures left == right
  {
    if left != [] {
      StringLeAntisymmetric(left[1..], right[1..]);
      assert left == [left[0]] + left[1..] && right == [right[0]] + right[1..];
    }
  }

  predicate IsLeast(ids: set<string>, id: string) {
    id in ids && forall other <- ids :: StringLe(id, other)
  }

  lemma {:induction false} LeastExists(ids: set<string>) returns (least: string)
    requires ids != {}
    ensures IsLeast(ids, least)
  {
    var id :| id in ids;
    StringLeTotal(id, id);
    if ids == {id} {
      least := id;
    } else {
      assert ids - {id} != {};
      var rest := LeastExists(ids - {id});
      StringLeTotal(id, rest);
      least := if StringLe(id, rest) then id else rest;
      forall other | other in ids && other != id ensures StringLe(least, other) {
        if least == id { StringLeTransitive(id, rest, other); }
      }
    }
  }

  lemma LeastIsUnique(ids: set<string>)
    requires ids != {}
    ensures exists id :: IsLeast(ids, id)
    ensures forall a, b :: IsLeast(ids, a) && IsLeast(ids, b) ==> a == b
  {
    var least := LeastExists(ids);
    forall a, b | IsLeast(ids, a) && IsLeast(ids, b) ensures a == b {
      StringLeAntisymmetric(a, b);
    }
  }

  /** Python's `sorted(ids)` for a set of strings. */
  function SortedIds(ids: set<string>): (sorted: seq<string>)
    ensures forall id :: id in sorted <==> id in ids
    ensures forall i, j :: 0 <= i < j < |sorted| ==> sorted[i] != sorted[j] && StringLe(sorted[i], sorted[j])
  {
    if ids == {} then []
    else
      LeastIsUnique(ids);
      var least :| IsLeast(ids, least);
      [least] + SortedIds(ids - {least})
  }

  predicate KeyLe(left: Action, right: Action) {
    left.priority < right.priority || (left.priority == right.priority && StringLe(left.id, right.id))
  }

  predicate Sorted(actions: seq<Action>) {
    forall i, j :: 0 <= i < j < |actions| ==> KeyLe(actions[i], actions[j])
  }

  /** Stable insertion: before the first entry that does not come strictly earlier. */
  function Insert(action: Action, sorted: seq<Action>): seq<Action> {
    if sorted == [] || KeyLe(action, sorted[0]) then [action] + sorted
    else [sorted[0]] + Insert(action, sorted[1..])
  }

  /** Python's stable `sorted(actions, key=lambda x: (x["priority"], x["id"]))`. */
  function Sort(actions: seq<Action>): seq<Action> {
    if actions == [] then [] else Insert(actions[0], Sort(actions[1..]))
  }

  lemma KeyLeTransitive(a: Action, b: Action, c: Action)
    requires KeyLe(a, b) && KeyLe(b, c)
    ensures KeyLe(a, c)
  {
    if a.priority == c.priority {
      StringLeTransitive(a.id, b.id, c.id);
    }
  }

  lemma SortedPrepend(first: Action, rest: seq<Action>)
    requires Sorted(rest) && forall item <- rest :: KeyLe(first, item)
    ensures Sorted([first] + rest)
  {}

  lemma {:induction false} InsertKeepsMembers(action: Action, sorted: seq<Action>)
    ensures multiset(Insert(action, sorted)) == multiset{action} + multiset(sorted)
    ensures forall item :: item in Insert(action, sorted) <==> item == action || item in sorted
  {
    if sorted != [] && !KeyLe(action, sorted[0]) {
      InsertKeepsMembers(action, sorted[1..]);
      assert sorted == [sorted[0]] + sorted[1..];
    }
  }

  lemma {:induction false} InsertSorts(action: Action, sorted: seq<Action>)
    requires Sorted(sorted)
    ensures Sorted(Insert(action, sorted))
  {
    if sorted != [] && KeyLe(action, sorted[0]) {
      forall item | item in sorted ensures KeyLe(action, item) {
        if item != sorted[0] {
          var j :| 1 <= j < |sorted| && sorted[j] == item;
          KeyLeTransitive(action, sorted[0], sorted[j]);
        }
      }
      SortedPrepend(action, sorted);
    } else if sorted != [] {
      StringLeTotal(action.id, sorted[0].id);
      InsertSorts(action, sorted[1..]);
      InsertKeepsMembers(action, sorted[1..]);
      SortedPrepend(sorted[0], Insert(action, sorted[1..]));
    }
  }

  /** The classification order is a sorted permutation of the catalog. */
  lemma {:induction false} SortCorrect(actions: seq<Action>)
    ensures Sorted(Sort(actions))
    ensures multiset(Sort(actions)) == multiset(actions)
  {
    if actions != [] {
      SortCorrect(actions[1..]);
      InsertSorts(actions[0], Sort(actions[1..]));
      InsertKeepsMembers(actions[0], Sort(actions[1..]));
      assert actions == [actions[0]] + actions[1..];
    }
  }

  lemma SortKeepsMembers(actions: seq<Action>)
    ensures forall action :: action in Sort(actions) <==> action in actions
    ensures |Sort(actions)| == |actions|
  {
    SortCorrect(actions);
    assert forall action :: action in Sort(actions) <==> action in multiset(Sort(actions));
    assert |multiset(Sort(actions))| == |multiset(actions)|;
  }

  lemma {:induction false} SortKeepsUnique(actions: seq<Action>)
    requires UniqueIds(actions)
    ensures UniqueIds(Sort(actions))
  {
    if actions != [] {
      SortKeepsUnique(actions[1..]);
      SortKeepsMembers(actions[1..]);
      InsertKeepsUnique(actions[0], Sort(actions[1..]));
    }
  }

  lemma {:induction false} InsertKeepsUnique(action: Action, sorted: seq<Action>)
    requires UniqueIds(sorted) && forall other <- sorted :: other.id != action.id
    ensures UniqueIds(Insert(action, sorted))
    ensures forall other :: other in Insert(action, sorted) <==> other == action || other in sorted
  {
    if sorted != [] && !KeyLe(action, sorted[0]) {
      InsertKeepsUnique(action, sorted[1..]);
      var rest := Insert(action, sorted[1..]);
      forall j | 0 <= j < |rest| ensures rest[j].id != sorted[0].id {
        assert rest[j] in rest;
        if rest[j] != action { assert rest[j] in sorted[1..]; }
      }
    }
  }

  /** Sorting again changes nothing. */
  lemma {:induction false} SortOfSorted(actions: seq<Action>)
    requires Sorted(actions)
    ensures Sort(actions) == actions
  {
    if actions != [] {
      SortOfSorted(actions[1..]);
    }
  }

  lemma {:induction false} FilterKeepsOrder(keep: Action -> bool, actions: seq<Action>)
    requires Sorted(actions)
    ensures Sorted(Filter(keep, actions))
  {
    if actions != [] {
      FilterKeepsOrder(keep, actions[1..]);
      forall item | item in Filter(keep, actions[1..]) ensures KeyLe(actions[0], item) {
        var i :| 1 <= i < |actions| && actions[i] == item;
      }
      SortedPrepend(actions[0], Filter(keep, actions[1..]));
    }
  }

  lemma {:induction false} FilterKeepsUnique(keep: Action -> bool, actions: seq<Action>)
    requires UniqueIds(actions)
    ensures UniqueIds(Filter(keep, actions))
  {
    if actions != [] {
      FilterKeepsUnique(keep, actions[1..]);
      forall item | item in Filter(keep, actions[1..]) ensures actions[0].id != item.id {
        var i :| 1 <= i < |actions| && actions[i] == item;
      }
    }
  }

  // ----- classification -----

  function GateState(board: Board, gate: string): string {
    if gate in board.gates then board.gates[gate] else "UNKNOWN"
  }

  predicate AcceptedState(state: string) {
    state == "ACCEPTED" || state == "PRODUCTION_CONFIRMED"
  }

  function MissingPrerequisites(board: Board, gates: seq<string>): seq<(string, string)> {
    if gates == [] then []
    else
      var rest := MissingPrerequisites(board, gates[1..]);
      var current := GateState(board, gates[0]);
      if AcceptedState(current) then rest else [(gates[0], current)] + rest
  }

  predicate Complete(board: Board, action: Action) {
    GateState(board, action.gate) in action.doneStates
  }

  function Classify(board: Board, action: Action): ActionStatus {
    if Complete(board, action) then Done
    else if action.id in board.failed then FailedDoNotRestart
    else
      var missing := MissingPrerequisites(board, action.prerequisiteGates);
      if missing != [] then WaitingPrerequisite(missing)
      else if action.deferredOwnerId != "" && action.deferredOwnerId in board.deferred
        then DeferredByOwner(action.deferredOwnerId)
      else if action.requiresOwner then OwnerActionRequired
      else Executable
  }

  predicate OwnerBlocking(status: ActionStatus) {
    status.DeferredByOwner? || status.OwnerActionRequired?
  }

  predicate TerminalStatus(status: ActionStatus) {
    status.Done? || status.FailedDoNotRestart?
  }

  /** The catalog in classification order. */
  function Ordered(board: Board): seq<Action> {
    Sort(board.actions)
  }

  /** `status_by_id`: the status recorded last for an id. */
  function StatusOf(board: Board, id: string): ActionStatus
    requires id in Index(Ordered(board))
  {
    Classify(board, Index(Ordered(board))[id])
  }

  function FirstOwnerBlocked(board: Board, ordered: seq<Action>): Option<Action> {
    if ordered == [] then None
    else if OwnerBlocking(Classify(board, ordered[0])) then Some(ordered[0])
    else FirstOwnerBlocked(board, ordered[1..])
  }

  function OwnerFloor(board: Board): Option<int> {
    match FirstOwnerBlocked(board, Ordered(board))
    case None => None
    case Some(action) => Some(action.priority)
  }

  /** Executable now, and not behind an owner-blocked action unless declared parallel-safe. */
  predicate IsCandidate(board: Board, action: Action) {
    Classify(board, action).Executable? &&
    (OwnerFloor(board).Some? && action.priority > OwnerFloor(board).value ==> action.parallelSafe)
  }

  function Candidates(board: Board): seq<Action> {
    Filter(action => IsCandidate(board, action), Ordered(board))
  }

  lemma CandidatesSorted(board: Board)
    ensures Sorted(Candidates(board)) && Sort(Candidates(board)) == Candidates(board)
    ensures UniqueIds(board.actions) ==> UniqueIds(Candidates(board))
    ensures forall action <- Candidates(board) :: action in board.actions
  {
    SortCorrect(board.actions);
    SortKeepsMembers(board.actions);
    FilterKeepsOrder(action => IsCandidate(board, action), Ordered(board));
    if UniqueIds(board.actions) {
      SortKeepsUnique(board.actions);
      FilterKeepsUnique(action => IsCandidate(board, action), Ordered(board));
    }
    SortOfSorted(Candidates(board));
  }

  // ----- dependencies -----

  function DependencyScan(board: Board, dependsOn: seq<string>): DependencyStatus {
    if dependsOn == [] then Satisfied
    else
      var id := dependsOn[0];
      if id !in Index(board.actions) then Unknown(id)
      else if Complete(board, Index(board.actions)[id]) then DependencyScan(board, dependsOn[1..])
      else if id in board.failed then Failed(id)
      else NotVerified(id)
  }

  function DependencyOf(board: Board, action: Action): DependencyStatus {
    DependencyScan(board, action.dependsOn)
  }

  /** `id` names a catalog action whose gate has reached one of its done states. */
  predicate DependencyMet(board: Board, id: string) {
    id in Index(board.actions) && Complete(board, Index(board.actions)[id])
  }

  /** Why one dependency is not met: it is not in the catalog, it failed, or its completion is not verified. */
  ghost predicate Explains(board: Board, status: DependencyStatus, id: string) {
    match status
    case Satisfied => false
    case Unknown(named) => named == id && id !in Index(board.actions)
    case Failed(named) =>
      named == id && id in Index(board.actions) && !Complete(board, Index(board.actions)[id]) && id in board.failed
    case NotVerified(named) =>
      named == id && id in Index(board.actions) && !Complete(board, Index(board.actions)[id]) && id !in board.failed
  }

  /** A dependency list is satisfied exactly when every entry is a known, completed action; otherwise the first
      entry that is not is named, with the reason. */
  lemma {:induction false} DependencyScanMeaning(board: Board, dependsOn: seq<string>)
    ensures DependencyScan(board, dependsOn).Satisfied? <==>
      forall id <- dependsOn :: DependencyMet(board, id)
    ensures DependencyScan(board, dependsOn).Satisfied? ||
      exists k :: 0 <= k < |dependsOn| && Explains(board, DependencyScan(board, dependsOn), dependsOn[k]) &&
        forall j :: 0 <= j < k ==> DependencyMet(board, dependsOn[j])
  {
    if dependsOn != [] {
      DependencyScanMeaning(board, dependsOn[1..]);
      assert forall id :: id in dependsOn <==> id == dependsOn[0] || id in dependsOn[1..];
      assert dependsOn[0] in dependsOn;
      var status := DependencyScan(board, dependsOn);
      if DependencyMet(board, dependsOn[0]) && !status.Satisfied? {
        var k :| 0 <= k < |dependsOn[1..]| && Explains(board, status, dependsOn[1..][k]) &&
          forall j :: 0 <= j < k ==> DependencyMet(board, dependsOn[1..][j]);
        assert dependsOn[k + 1] == dependsOn[1..][k];
        forall j | 0 <= j < k + 1 ensures DependencyMet(board, dependsOn[j]) {
          assert j > 0 ==> dependsOn[j] == dependsOn[1..][j - 1];
        }
      } else if !status.Satisfied? {
        assert Explains(board, status, dependsOn[0]);
      }
    }
  }
}
