/**
 What records and locks say, in status words, and the proof that the current slots say exactly that
 (scripts/fanmind_next_best_action.py:373-540).
 */
module WorkSlotMeaning {
  import opened Wrappers
  import opened WorkStatuses
  import opened WorkSlots
  import opened WorkSlotProperties
  import opened Catalog
  import opened Manager
  import opened ManagerProperties

  // ----- words -----

  const RUNNING_WORDS: set<WorkStatus> := {Active, InProgress, CiWaiting, ReviewWaiting, MergeReady}

  const STOPPED_WORDS: set<WorkStatus> := {Blocked, Paused}

  const CURRENT_WORDS: set<WorkStatus> := {
    Blocked, InProgress, Implemented, ImplementedNotVerified, Partial, ReconciliationRequired, CiWaiting, ReviewWaiting,
    MergeReady}

  const FINAL_WORDS: set<WorkStatus> := {Accepted, Closed, Completed, WorkStatus.Done, Released, Superseded}

  ghost predicate Disagree(statuses: seq<WorkStatus>) {
    exists i, j :: 0 <= i < j < |statuses| && statuses[i] != statuses[j]
  }

  ghost predicate Says(statuses: seq<WorkStatus>, words: set<WorkStatus>) {
    statuses != [] && statuses[0] in words
  }

  ghost predicate SaysFinal(statuses: seq<WorkStatus>) {
    Says(statuses, FINAL_WORDS) || (statuses != [] && statuses[0].ReleasedFor?)
  }

  ghost predicate CleanlyFinal(lock: Lock) { SaysFinal(lock.statuses) && !Disagree(lock.statuses) }

  ghost predicate CleanlyHeld(lock: Lock) { Says(lock.statuses, STOPPED_WORDS) && !Disagree(lock.statuses) }

  lemma WordsMean(statuses: seq<WorkStatus>)
    ensures Conflicting(statuses) <==> Disagree(statuses)
    ensures Running(First(statuses)) <==> Says(statuses, RUNNING_WORDS)
    ensures Stopped(First(statuses)) <==> Says(statuses, STOPPED_WORDS)
    ensures Terminal(First(statuses)) <==> SaysFinal(statuses)
    ensures statuses != [] && IsActiveWork(statuses[0]) <==> Says(statuses, CURRENT_WORDS)
  {
    if Disagree(statuses) {
      var i, j :| 0 <= i < j < |statuses| && statuses[i] != statuses[j];
      assert statuses[i] in statuses && statuses[j] in statuses;
    }
  }

  // ----- locks -----

  /** The block that counts for its heading. */
  ghost predicate IsLastBlock(blocks: seq<Lock>, lock: Lock) {
    exists k :: 0 <= k < |blocks| && blocks[k] == lock && forall m :: k < m < |blocks| ==> blocks[m].id != lock.id
  }

  lemma FrontDecides(blocks: seq<Lock>, lock: Lock)
    requires blocks != [] && blocks[|blocks| - 1].id != lock.id
    ensures IsLastBlock(blocks, lock) <==> IsLastBlock(blocks[..|blocks| - 1], lock)
  {
    var front := blocks[..|blocks| - 1];
    assert forall m :: 0 <= m < |front| ==> front[m] == blocks[m];
    if IsLastBlock(front, lock) {
      var k :| 0 <= k < |front| && front[k] == lock && forall m :: k < m < |front| ==> front[m].id != lock.id;
      assert blocks[k] == lock;
    }
    if IsLastBlock(blocks, lock) {
      var k :| 0 <= k < |blocks| && blocks[k] == lock && forall m :: k < m < |blocks| ==> blocks[m].id != lock.id;
      assert front[k] == lock;
    }
  }

  lemma {:induction false} LastBlockMeans(blocks: seq<Lock>, lock: Lock)
    ensures LastBlock(blocks, lock.id) == Some(lock) <==> IsLastBlock(blocks, lock)
  {
    if blocks != [] {
      if blocks[|blocks| - 1].id == lock.id {
        assert blocks[|blocks| - 1] == lock ==> IsLastBlock(blocks, lock);
      } else {
        FrontDecides(blocks, lock);
        LastBlockMeans(blocks[..|blocks| - 1], lock);
      }
    }
  }

  lemma {:induction false} LastBlockMissing(blocks: seq<Lock>, id: string)
    ensures LastBlock(blocks, id).Some? ==> LastBlock(blocks, id).value.id == id
    ensures LastBlock(blocks, id).None? <==> forall block <- blocks :: block.id != id
  {
    if blocks != [] {
      var n := |blocks| - 1;
      LastBlockMissing(blocks[..n], id);
      assert forall block :: block in blocks <==> block in blocks[..n] || block == blocks[n];
      assert blocks[n] in blocks;
    }
  }

  lemma {:induction false} FindIn(table: seq<Lock>, lock: Lock)
    requires lock in table && forall j, k :: 0 <= j < k < |table| ==> table[j].id != table[k].id
    ensures FindLock(table, lock.id) == Some(lock)
  {
    if table[0] != lock {
      assert table[1..] == table[1..];
      var k :| 0 <= k < |table| && table[k] == lock;
      assert table[1..][k - 1] == lock;
      FindIn(table[1..], lock);
    }
  }

  lemma {:induction false} LockIdsAt(table: seq<Lock>)
    ensures |LockIds(table)| == |table| && forall k :: 0 <= k < |table| ==> LockIds(table)[k] == table[k].id
  {
    if table != [] {
      LockIdsAt(table[1..]);
      assert forall k :: 1 <= k < |table| ==> table[k] == table[1..][k - 1];
    }
  }

  /** The lock table holds exactly the blocks that count, each under its own heading. */
  lemma TableExactly(blocks: seq<Lock>)
    ensures forall lock :: lock in LockTable(blocks) <==> IsLastBlock(blocks, lock)
    ensures forall id, lock :: FindLock(LockTable(blocks), id) == Some(lock) <==>
      lock.id == id && IsLastBlock(blocks, lock)
    ensures forall id :: FindLock(LockTable(blocks), id).None? <==> forall block <- blocks :: block.id != id
    ensures forall j, k :: 0 <= j < k < |LockTable(blocks)| ==> LockTable(blocks)[j].id != LockTable(blocks)[k].id
  {
    var table := LockTable(blocks);
    LockTableMeaning(blocks);
    LockIdsAt(table);
    forall j, k | 0 <= j < k < |table| ensures table[j].id != table[k].id {
      assert LockIds(table)[j] != LockIds(table)[k];
    }
    forall id, lock: Lock
      ensures FindLock(table, id) == Some(lock) <==> lock.id == id && IsLastBlock(blocks, lock)
      ensures FindLock(table, id).None? <==> forall block <- blocks :: block.id != id
    {
      LastBlockMissing(blocks, id);
      LastBlockMeans(blocks, lock);
      assert FindLock(table, id) == LastBlock(blocks, id);
    }
    forall lock ensures lock in table <==> IsLastBlock(blocks, lock) {
      LastBlockMeans(blocks, lock);
      assert FindLock(table, lock.id) == LastBlock(blocks, lock.id);
      if lock in table { FindIn(table, lock); }
    }
  }

  // ----- records -----

  ghost predicate Cites(record: Record, blocks: seq<Lock>, lock: Lock) {
    record.lockId == Some(lock.id) && IsLastBlock(blocks, lock)
  }

  /** A lock that contradicts its record: by itself, by an unknown word, or by running where the record does not. */
  ghost predicate Against(lock: Lock, record: Record) {
    || Disagree(lock.statuses)
    || !(SaysFinal(lock.statuses) || Says(lock.statuses, RUNNING_WORDS) || Says(lock.statuses, STOPPED_WORDS))
    || (Says(lock.statuses, RUNNING_WORDS) && !Says(record.statuses, RUNNING_WORDS))
    || (Says(lock.statuses, STOPPED_WORDS) && Says(record.statuses, RUNNING_WORDS))
  }

  ghost predicate IsContradicted(record: Record, blocks: seq<Lock>) {
    || Disagree(record.statuses)
    || (record.lockId.Some? && forall block <- blocks :: block.id != record.lockId.value)
    || exists lock :: Cites(record, blocks, lock) && Against(lock, record)
  }

  /** The record is about current work, or cannot be trusted. */
  ghost predicate IsCurrent(record: Record) {
    Says(record.statuses, CURRENT_WORDS) || Disagree(record.statuses)
  }

  ghost predicate NamesAction(record: Record, blocks: seq<Lock>, id: string) {
    id in record.actions || exists lock :: Cites(record, blocks, lock) && id in lock.actions
  }

  ghost predicate OnlyAction(record: Record, blocks: seq<Lock>, action: Option<string>) {
    forall id :: action == Some(id) <==> (NamesAction(record, blocks, id) && forall other ::
      NamesAction(record, blocks, other) ==> other == id)
  }

  /** The slot the record stands for by itself. */
  ghost predicate Reports(record: Record, blocks: seq<Lock>, slot: Slot) {
    && record.tasks != {} && IsCurrent(record)
    && slot.tasks == record.tasks && OnlyAction(record, blocks, slot.action)
    && (slot.conflict <==> IsContradicted(record, blocks))
    && (forall lock :: Cites(record, blocks, lock) && SaysFinal(lock.statuses) ==> slot.conflict)
    && (!slot.conflict && (exists lock :: Cites(record, blocks, lock) && Says(lock.statuses, STOPPED_WORDS)) ==>
          exists lock :: Cites(record, blocks, lock) && slot.status == Some(lock.statuses[0]) &&
            Says(lock.statuses, STOPPED_WORDS))
    && (slot.conflict || (forall lock :: Cites(record, blocks, lock) ==> !Says(lock.statuses, STOPPED_WORDS)) ==>
          slot.status == Some(record.statuses[0]))
  }

  lemma OneCitedLock(record: Record, blocks: seq<Lock>)
    ensures forall lock :: Cites(record, blocks, lock) <==> LockOf(record, LockTable(blocks)) == Some(lock)
    ensures record.lockId.Some? && (forall block <- blocks :: block.id != record.lockId.value) <==>
      record.lockId.Some? && LockOf(record, LockTable(blocks)).None?
  {
    TableExactly(blocks);
  }

  lemma ContradictionMeans(record: Record, blocks: seq<Lock>)
    ensures RecordConflict(record, LockTable(blocks)) <==> IsContradicted(record, blocks)
  {
    OneCitedLock(record, blocks);
    WordsMean(record.statuses);
    if lock :| Cites(record, blocks, lock) {
      WordsMean(lock.statuses);
    }
  }

  lemma ActionMeans(record: Record, blocks: seq<Lock>, action: Option<string>)
    ensures Single(RecordActions(record, LockTable(blocks))) == action <==> OnlyAction(record, blocks, action)
  {
    var ids := RecordActions(record, LockTable(blocks));
    OneCitedLock(record, blocks);
    forall id ensures id in ids <==> NamesAction(record, blocks, id) {}
    forall id ensures Single(ids) == Some(id) <==> id in ids && forall other :: other in ids ==> other == id {
      if id in ids && forall other :: other in ids ==> other == id { assert ids == {id}; }
    }
  }

  /** Every record stands for exactly the slot that its words and its lock describe, or for none. */
  lemma RecordSlotMeans(record: Record, blocks: seq<Lock>, slot: Slot)
    ensures RecordSlot(record, LockTable(blocks)) == Some(slot) <==> Reports(record, blocks, slot)
  {
    OneCitedLock(record, blocks);
    ContradictionMeans(record, blocks);
    ActionMeans(record, blocks, slot.action);
    WordsMean(record.statuses);
    if lock :| Cites(record, blocks, lock) {
      WordsMean(lock.statuses);
    }
  }

  // ----- stopped locks -----

  ghost predicate IsRunning(slot: Slot) {
    slot.status.Some? && slot.status.value in RUNNING_WORDS
  }

  /** The cleanly held locks with these tasks that no considered record cites, in table order. */
  ghost function Stoppers(table: seq<Lock>, cited: set<string>, tasks: set<string>): seq<Lock> {
    if table == [] then []
    else
      var last := table[|table| - 1];
      Stoppers(table[..|table| - 1], cited, tasks) +
      if last.tasks == tasks != {} && last.id !in cited && CleanlyHeld(last) then [last] else []
  }

  /** The actions named exactly, one after the other. */
  ghost function ActionsNamed(locks: seq<Lock>): seq<string> {
    if locks == [] then []
    else
      var last := Single(locks[|locks| - 1].actions);
      ActionsNamed(locks[..|locks| - 1]) + if last.Some? then [last.value] else []
  }

  ghost predicate AllSame(names: seq<string>) {
    forall j, k :: 0 <= j < k < |names| ==> names[j] == names[k]
  }

  ghost function AllActions(slot: Slot, locks: seq<Lock>): seq<string> {
    (if slot.action.Some? then [slot.action.value] else []) + ActionsNamed(locks)
  }

  /**
   How a slot ends after the locks that stop it: contradicted if it ran or if two different actions are named, and
   otherwise held by the last of them, with the one action anybody names.
   */
  ghost predicate EndsAs(slot: Slot, locks: seq<Lock>, end: Slot) {
    && end.tasks == slot.tasks
    && (locks == [] ==> end == slot)
    && (end.conflict <==> slot.conflict || (IsRunning(slot) && locks != []) || !AllSame(AllActions(slot, locks)))
    && (slot.conflict || IsRunning(slot) ==> end.action == slot.action)
    && (!slot.conflict && !IsRunning(slot) ==>
          end.action == if AllActions(slot, locks) == [] then None else Some(AllActions(slot, locks)[0]))
    && (!end.conflict && locks != [] ==> end.status == First(locks[|locks| - 1].statuses))
  }

  /** One lock after the other. */
  ghost function StoppedAll(slot: Slot, locks: seq<Lock>): Slot {
    if locks == [] then slot else StopSlot(locks[|locks| - 1], StoppedAll(slot, locks[..|locks| - 1]))
  }

  lemma HeldMeans(lock: Lock)
    ensures CleanlyStopped(lock) <==> CleanlyHeld(lock)
    ensures CleanlyHeld(lock) ==> !Running(First(lock.statuses))
  {
    WordsMean(lock.statuses);
  }

  lemma AllActionsAppend(slot: Slot, locks: seq<Lock>, lock: Lock)
    ensures var names, longer := AllActions(slot, locks), AllActions(slot, locks + [lock]);
      && (Single(lock.actions).None? ==> longer == names)
      && (Single(lock.actions).Some? ==> longer == names + [Single(lock.actions).value])
      && (AllSame(longer) <==>
            AllSame(names) && (Single(lock.actions).Some? && names != [] ==> names[0] == Single(lock.actions).value))
  {
    assert (locks + [lock])[..|locks|] == locks;
    var names, own := AllActions(slot, locks), Single(lock.actions);
    if own.Some? {
      AllSameAppend(names, own.value);
    }
  }

  /** Stopping an ended slot once more. */
  lemma OneMoreStop(slot: Slot, locks: seq<Lock>, before: Slot, lock: Lock)
    requires EndsAs(slot, locks, before) && lock.tasks == slot.tasks && CleanlyHeld(lock)
    requires locks != [] ==> !Running(First(locks[|locks| - 1].statuses))
    ensures EndsAs(slot, locks + [lock], StopSlot(lock, before))
  {
    AllActionsAppend(slot, locks, lock);
    var names, longer := AllActions(slot, locks), AllActions(slot, locks + [lock]);
    HeldMeans(lock);
    assert Running(before.status) <==> IsRunning(before);
    assert before.action.Some? ==> names != [] && names[0] == before.action.value;
  }

  lemma {:induction false} StoppedEndsAs(slot: Slot, locks: seq<Lock>)
    requires forall lock <- locks :: lock.tasks == slot.tasks && CleanlyHeld(lock)
    ensures EndsAs(slot, locks, StoppedAll(slot, locks))
  {
    if locks != [] {
      var n := |locks| - 1;
      StoppedEndsAs(slot, locks[..n]);
      assert locks[n] in locks && (n > 0 ==> locks[n - 1] in locks);
      if n > 0 { HeldMeans(locks[n - 1]); }
      OneMoreStop(slot, locks[..n], StoppedAll(slot, locks[..n]), locks[n]);
      assert locks[..n] + [locks[n]] == locks;
    }
  }

  lemma AllSameAppend(names: seq<string>, name: string)
    ensures AllSame(names + [name]) <==> AllSame(names) && (names == [] || names[0] == name)
  {
    var longer := names + [name];
    if AllSame(longer) && names != [] { assert longer[0] == longer[|names|]; }
    assert forall k :: 0 <= k < |names| ==> longer[k] == names[k];
  }

  // ----- the stopping pass -----

  lemma StoppersExtend(table: seq<Lock>, lock: Lock, cited: set<string>, tasks: set<string>)
    ensures Stoppers(table + [lock], cited, tasks) ==
      Stoppers(table, cited, tasks) +
      if lock.tasks == tasks != {} && lock.id !in cited && CleanlyHeld(lock) then [lock] else []
  {
    assert (table + [lock])[..|table|] == table;
  }

  lemma {:induction false} StoppersHold(table: seq<Lock>, cited: set<string>, tasks: set<string>)
    ensures forall lock :: lock in Stoppers(table, cited, tasks) <==>
      lock in table && lock.tasks == tasks != {} && lock.id !in cited && CleanlyHeld(lock)
  {
    if table != [] {
      var n := |table| - 1;
      StoppersHold(table[..n], cited, tasks);
      assert forall lock :: lock in table <==> lock in table[..n] || lock == table[n];
    }
  }

  ghost predicate DistinctLocks(table: seq<Lock>) {
    forall j, k :: 0 <= j < k < |table| ==> table[j].id != table[k].id
  }

  /** A lock that stopped something: cleanly held, with the tasks of some slot. */
  ghost predicate HoldsSome(table: seq<Lock>, slots: seq<Slot>, id: string) {
    exists lock <- table :: lock.id == id && CleanlyHeld(lock) && lock.tasks != {} && HasTasks(slots, lock.tasks)
  }

  ghost predicate HasTasks(slots: seq<Slot>, tasks: set<string>) {
    exists slot <- slots :: slot.tasks == tasks
  }

  /** Every slot is stopped by exactly its stoppers, and exactly the locks that stopped something are represented. */
  ghost predicate Passed(table: seq<Lock>, start: Progress, end: Progress) {
    && |end.slots| == |start.slots|
    && (forall i :: 0 <= i < |start.slots| ==>
          end.slots[i] == StoppedAll(start.slots[i], Stoppers(table, start.represented, start.slots[i].tasks)))
    && (forall id :: id in end.represented <==> (id in start.represented || HoldsSome(table, start.slots, id)))
  }

  lemma {:induction false} StoppedKeepsTasks(slot: Slot, locks: seq<Lock>)
    ensures StoppedAll(slot, locks).tasks == slot.tasks
  {
    if locks != [] { StoppedKeepsTasks(slot, locks[..|locks| - 1]); }
  }

  lemma SameTasks(table: seq<Lock>, start: Progress, end: Progress)
    requires Passed(table, start, end)
    ensures forall i :: 0 <= i < |start.slots| ==> end.slots[i].tasks == start.slots[i].tasks
    ensures forall tasks :: HasTasks(end.slots, tasks) <==> HasTasks(start.slots, tasks)
  {
    forall i | 0 <= i < |start.slots| ensures end.slots[i].tasks == start.slots[i].tasks {
      StoppedKeepsTasks(start.slots[i], Stoppers(table, start.represented, start.slots[i].tasks));
    }
    forall tasks ensures HasTasks(end.slots, tasks) <==> HasTasks(start.slots, tasks) {
      if slot :| slot in end.slots && slot.tasks == tasks {
        var i :| 0 <= i < |end.slots| && end.slots[i] == slot;
        assert start.slots[i] in start.slots;
      }
      if slot :| slot in start.slots && slot.tasks == tasks {
        var i :| 0 <= i < |start.slots| && start.slots[i] == slot;
        assert end.slots[i] in end.slots;
      }
    }
  }

  lemma HoldsSomeExtends(table: seq<Lock>, lock: Lock, slots: seq<Slot>, id: string)
    ensures HoldsSome(table + [lock], slots, id) <==>
      HoldsSome(table, slots, id) ||
      (lock.id == id && CleanlyHeld(lock) && lock.tasks != {} && HasTasks(slots, lock.tasks))
  {
    assert forall other :: other in table + [lock] <==> other in table || other == lock;
  }

  /** Whether the lock stops anything, in terms of the start. */
  ghost predicate Applies(lock: Lock, start: Progress) {
    lock.id !in start.represented && lock.tasks != {} && CleanlyHeld(lock) && HasTasks(start.slots, lock.tasks)
  }

  lemma AppliedValue(lock: Lock, start: Progress, before: Progress)
    requires lock.id in before.represented <==> lock.id in start.represented
    requires HasTasks(before.slots, lock.tasks) <==> HasTasks(start.slots, lock.tasks)
    ensures ApplyStopped(lock, before) ==
      if Applies(lock, start) then Progress(StopSlots(lock, before.slots), before.represented + {lock.id}) else before
  {
    HeldMeans(lock);
    assert HasTasks(before.slots, lock.tasks) <==> exists slot <- before.slots :: slot.tasks == lock.tasks;
  }

  lemma StoppedOnce(slot: Slot, stoppers: seq<Lock>, lock: Lock)
    ensures StoppedAll(slot, stoppers + [lock]) == StopSlot(lock, StoppedAll(slot, stoppers))
    ensures StoppedAll(slot, stoppers + []) == StoppedAll(slot, stoppers)
  {
    assert (stoppers + [lock])[..|stoppers|] == stoppers;
    assert stoppers + [] == stoppers;
  }

  lemma SlotStep(table: seq<Lock>, lock: Lock, start: Progress, before: Progress, i: nat)
    requires Passed(table, start, before) && i < |start.slots|
    requires lock.id in before.represented <==> lock.id in start.represented
    requires HasTasks(before.slots, lock.tasks) <==> HasTasks(start.slots, lock.tasks)
    ensures |ApplyStopped(lock, before).slots| == |start.slots|
    ensures ApplyStopped(lock, before).slots[i] ==
      StoppedAll(start.slots[i], Stoppers(table + [lock], start.represented, start.slots[i].tasks))
  {
    var slot := start.slots[i];
    var stoppers := Stoppers(table, start.represented, slot.tasks);
    AppliedValue(lock, start, before);
    StoppersExtend(table, lock, start.represented, slot.tasks);
    StoppedOnce(slot, stoppers, lock);
    StoppedKeepsTasks(slot, stoppers);
    assert lock.tasks == slot.tasks ==> HasTasks(start.slots, lock.tasks) by { assert slot in start.slots; }
  }

  lemma StoppingStep(table: seq<Lock>, lock: Lock, start: Progress, before: Progress)
    requires Passed(table, start, before) && forall other <- table :: other.id != lock.id
    ensures Passed(table + [lock], start, ApplyStopped(lock, before))
  {
    SameTasks(table, start, before);
    assert lock.id in before.represented <==> lock.id in start.represented;
    AppliedValue(lock, start, before);
    forall i | 0 <= i < |start.slots|
      ensures ApplyStopped(lock, before).slots[i] ==
        StoppedAll(start.slots[i], Stoppers(table + [lock], start.represented, start.slots[i].tasks))
    {
      SlotStep(table, lock, start, before, i);
    }
    RepresentedStep(table, lock, start, before);
  }

  lemma RepresentedStep(table: seq<Lock>, lock: Lock, start: Progress, before: Progress)
    requires forall id :: id in before.represented <==> (id in start.represented || HoldsSome(table, start.slots, id))
    requires ApplyStopped(lock, before).represented ==
      if Applies(lock, start) then before.represented + {lock.id} else before.represented
    ensures forall id :: id in ApplyStopped(lock, before).represented <==>
      (id in start.represented || HoldsSome(table + [lock], start.slots, id))
  {
    forall id { HoldsSomeExtends(table, lock, start.slots, id); }
  }

  lemma {:induction false} StoppingPass(table: seq<Lock>, start: Progress)
    requires DistinctLocks(table)
    ensures Passed(table, start, ApplyAllStopped(table, start))
  {
    if table != [] {
      var n := |table| - 1;
      StoppingPass(table[..n], start);
      forall other | other in table[..n] ensures other.id != table[n].id {
        var k :| 0 <= k < n && table[k] == other;
      }
      StoppingStep(table[..n], table[n], start, ApplyAllStopped(table[..n], start));
      assert table[..n] + [table[n]] == table;
    }
  }

  // ----- locks without a record -----

  /** The slot a lock stands for when no considered record cites it. */
  ghost predicate LockReports(lock: Lock, slot: Slot) {
    && lock.tasks != {} && !CleanlyFinal(lock) && slot.tasks == lock.tasks
    && (forall id :: slot.action == Some(id) <==> lock.actions == {id})
    && (CleanlyHeld(lock) ==> slot.action.Some?)
    && slot.status == (if lock.statuses == [] then None else Some(lock.statuses[0]))
    && (slot.conflict <==> Disagree(lock.statuses))
  }

  lemma {:induction false} OrphansExactly(table: seq<Lock>, represented: set<string>, slot: Slot)
    ensures slot in OrphanSlots(table, represented) <==>
      exists lock <- table :: lock.id !in represented && LockReports(lock, slot)
  {
    if table != [] {
      var n := |table| - 1;
      OrphansExactly(table[..n], represented, slot);
      WordsMean(table[n].statuses);
      assert forall lock :: lock in table <==> lock in table[..n] || lock == table[n];
      OrphanMeans(table[n], represented, slot);
    }
  }

  lemma OrphanMeans(lock: Lock, represented: set<string>, slot: Slot)
    ensures OrphanSlot(lock, represented) == Some(slot) <==> lock.id !in represented && LockReports(lock, slot)
  {
    WordsMean(lock.statuses);
    forall id ensures Single(lock.actions) == Some(id) <==> lock.actions == {id} {}
  }

  // ----- merging -----

  ghost predicate SameWork(left: Slot, right: Slot) {
    left.tasks == right.tasks && left.action == right.action
  }

  /** The list holds this work, as cautiously as the slot describes it. */
  ghost predicate Shown(current: seq<Slot>, slot: Slot) {
    exists found <- current ::
      SameWork(found, slot) && (slot.conflict ==> found.conflict) && (found.conflict || found.status == slot.status)
  }

  /** Two sightings of the same work that contradict each other, or one that is contradicted by itself. */
  ghost predicate Clash(slots: seq<Slot>, slot: Slot) {
    exists x <- slots, y <- slots :: SameWork(x, slot) && SameWork(y, slot) && (x.conflict || x.status != y.status)
  }

  ghost predicate Traced(slots: seq<Slot>, slot: Slot) {
    (exists seen <- slots :: SameWork(seen, slot) && seen.status == slot.status) &&
    (slot.conflict ==> Clash(slots, slot))
  }

  lemma {:induction false} MergeTraces(slots: seq<Slot>, merged: seq<Slot>, slot: Slot)
    requires slot in slots && forall found <- merged :: Traced(slots, found)
    ensures forall found <- Merge(merged, slot) :: Traced(slots, found)
  {
    if merged == [] {
      assert Traced(slots, slot);
    } else {
      assert Traced(slots, merged[0]);
      if SameIdentity(slot, merged[0]) {
        var seen :| seen in slots && SameWork(seen, merged[0]) && seen.status == merged[0].status;
        assert slot.conflict || slot.status != seen.status ==> Clash(slots, merged[0]);
        var first := Merge(merged, slot)[0];
        assert Traced(slots, first);
        assert forall found <- merged[1..] :: found in merged;
      } else {
        assert forall found <- merged[1..] :: found in merged;
        MergeTraces(slots, merged[1..], slot);
      }
    }
  }

  lemma TracedGrows(front: seq<Slot>, last: Slot, slot: Slot)
    requires Traced(front, slot)
    ensures Traced(front + [last], slot)
  {
    var seen :| seen in front && SameWork(seen, slot) && seen.status == slot.status;
    assert seen in front + [last];
    if slot.conflict {
      var x, y :| x in front && y in front && SameWork(x, slot) && SameWork(y, slot) &&
        (x.conflict || x.status != y.status);
      assert x in front + [last] && y in front + [last];
    }
  }

  /** Nothing is merged in that was not sighted, and nothing clashes without a clash. */
  lemma {:induction false} MergeAllTraces(slots: seq<Slot>)
    ensures forall found <- MergeAll(slots) :: Traced(slots, found)
  {
    if slots != [] {
      var n := |slots| - 1;
      MergeAllTraces(slots[..n]);
      assert slots[..n] + [slots[n]] == slots;
      forall found | found in MergeAll(slots[..n]) ensures Traced(slots, found) {
        TracedGrows(slots[..n], slots[n], found);
      }
      MergeTraces(slots, MergeAll(slots[..n]), slots[n]);
    }
  }

  // ----- the current slots -----

  ghost function CitedIds(records: seq<Record>): set<string> {
    set record <- records | IsCurrent(record) && record.lockId.Some? :: record.lockId.value
  }

  lemma {:induction false} RepresentedMeans(records: seq<Record>)
    ensures Represented(records) == CitedIds(records)
  {
    if records != [] {
      var n := |records| - 1;
      RepresentedMeans(records[..n]);
      WordsMean(records[n].statuses);
      assert forall record :: record in records <==> record in records[..n] || record == records[n];
    }
  }

  ghost predicate SomeReport(records: seq<Record>, blocks: seq<Lock>, own: Slot) {
    exists record <- records :: Reports(record, blocks, own)
  }

  lemma {:induction false} RecordSlotsHold(records: seq<Record>, table: seq<Lock>, own: Slot)
    ensures own in RecordSlots(records, table) <==> exists record <- records :: RecordSlot(record, table) == Some(own)
  {
    if records != [] {
      var n := |records| - 1;
      RecordSlotsHold(records[..n], table, own);
      assert forall record :: record in records <==> record in records[..n] || record == records[n];
    }
  }

  lemma RecordSlotsMean(records: seq<Record>, blocks: seq<Lock>, own: Slot)
    ensures own in RecordSlots(records, LockTable(blocks)) <==> SomeReport(records, blocks, own)
  {
    RecordSlotsHold(records, LockTable(blocks), own);
    forall record ensures RecordSlot(record, LockTable(blocks)) == Some(own) <==> Reports(record, blocks, own) {
      RecordSlotMeans(record, blocks, own);
    }
  }

  /** The lock speaks for itself: no current record cites it, and if it is held, no record has its tasks. */
  ghost predicate StandsAlone(records: seq<Record>, blocks: seq<Lock>, lock: Lock) {
    && IsLastBlock(blocks, lock)
    && (forall record <- records :: IsCurrent(record) ==> record.lockId != Some(lock.id))
    && (CleanlyHeld(lock) ==> forall own :: SomeReport(records, blocks, own) ==> own.tasks != lock.tasks)
  }

  ghost function StoppersOf(records: seq<Record>, blocks: seq<Lock>, own: Slot): seq<Lock> {
    Stoppers(LockTable(blocks), CitedIds(records), own.tasks)
  }

  /** A record's slot after the locks that stop it, or a lock that speaks for itself. */
  ghost predicate Sighted(records: seq<Record>, blocks: seq<Lock>, slot: Slot) {
    || (exists own :: SomeReport(records, blocks, own) && EndsAs(own, StoppersOf(records, blocks, own), slot))
    || (exists lock :: StandsAlone(records, blocks, lock) && LockReports(lock, slot))
  }

  ghost function AfterLocks(records: seq<Record>, blocks: seq<Lock>): Progress {
    ApplyAllStopped(LockTable(blocks), Progress(RecordSlots(records, LockTable(blocks)), Represented(records)))
  }

  lemma OwnEndsAs(records: seq<Record>, blocks: seq<Lock>, own: Slot)
    ensures EndsAs(own, StoppersOf(records, blocks, own), StoppedAll(own, StoppersOf(records, blocks, own)))
  {
    StoppersHold(LockTable(blocks), CitedIds(records), own.tasks);
    StoppedEndsAs(own, StoppersOf(records, blocks, own));
  }

  lemma RecordSightings(records: seq<Record>, blocks: seq<Lock>)
    ensures forall own :: SomeReport(records, blocks, own) ==>
      StoppedAll(own, StoppersOf(records, blocks, own)) in AfterLocks(records, blocks).slots
    ensures forall slot <- AfterLocks(records, blocks).slots ::
      exists own :: SomeReport(records, blocks, own) && slot == StoppedAll(own, StoppersOf(records, blocks, own))
  {
    var table := LockTable(blocks);
    var start := Progress(RecordSlots(records, table), Represented(records));
    var end := AfterLocks(records, blocks);
    TableExactly(blocks);
    StoppingPass(table, start);
    RepresentedMeans(records);
    forall own ensures own in start.slots <==> SomeReport(records, blocks, own) {
      RecordSlotsMean(records, blocks, own);
    }
    forall own | own in start.slots ensures StoppedAll(own, StoppersOf(records, blocks, own)) in end.slots {
      var i :| 0 <= i < |start.slots| && start.slots[i] == own;
      assert end.slots[i] in end.slots;
    }
    forall slot | slot in end.slots
      ensures exists own ::
        SomeReport(records, blocks, own) && slot == StoppedAll(own, StoppersOf(records, blocks, own))
    {
      var i :| 0 <= i < |end.slots| && end.slots[i] == slot;
      assert start.slots[i] in start.slots;
    }
  }

  lemma AloneMeans(records: seq<Record>, blocks: seq<Lock>, lock: Lock)
    requires lock.tasks != {}
    ensures StandsAlone(records, blocks, lock) <==>
      lock in LockTable(blocks) && lock.id !in AfterLocks(records, blocks).represented
  {
    var table := LockTable(blocks);
    var start := Progress(RecordSlots(records, table), Represented(records));
    TableExactly(blocks);
    StoppingPass(table, start);
    RepresentedMeans(records);
    forall own ensures own in start.slots <==> SomeReport(records, blocks, own) {
      RecordSlotsMean(records, blocks, own);
    }
    assert HasTasks(start.slots, lock.tasks) <==>
      exists own :: SomeReport(records, blocks, own) && own.tasks == lock.tasks;
    if IsLastBlock(blocks, lock) {
      assert HoldsSome(table, start.slots, lock.id) <==> CleanlyHeld(lock) && HasTasks(start.slots, lock.tasks) by {
        assert forall other <- table :: other.id == lock.id ==> other == lock;
      }
    }
  }

  lemma LockSightings(records: seq<Record>, blocks: seq<Lock>, slot: Slot)
    ensures slot in OrphanSlots(LockTable(blocks), AfterLocks(records, blocks).represented) <==>
      exists lock :: StandsAlone(records, blocks, lock) && LockReports(lock, slot)
  {
    OrphansExactly(LockTable(blocks), AfterLocks(records, blocks).represented, slot);
    forall lock: Lock | lock.tasks != {}
      ensures StandsAlone(records, blocks, lock) <==>
        lock in LockTable(blocks) && lock.id !in AfterLocks(records, blocks).represented
    {
      AloneMeans(records, blocks, lock);
    }
  }

  ghost predicate NoWorkTwice(current: seq<Slot>) {
    forall i, j :: 0 <= i < j < |current| ==> !SameWork(current[i], current[j])
  }

  ghost predicate Explained(records: seq<Record>, blocks: seq<Lock>, slot: Slot) {
    && (exists seen :: Sighted(records, blocks, seen) && SameWork(seen, slot) && seen.status == slot.status)
    && (slot.conflict ==>
          exists x, y :: Sighted(records, blocks, x) && Sighted(records, blocks, y) && SameWork(x, slot) &&
            SameWork(y, slot) && (x.conflict || x.status != y.status))
  }

  lemma SightingsMean(records: seq<Record>, blocks: seq<Lock>, slot: Slot)
    requires slot in Gathered(records, blocks)
    ensures Sighted(records, blocks, slot)
  {
    RecordSightings(records, blocks);
    LockSightings(records, blocks, slot);
    if slot in AfterLocks(records, blocks).slots {
      var own :| SomeReport(records, blocks, own) && slot == StoppedAll(own, StoppersOf(records, blocks, own));
      OwnEndsAs(records, blocks, own);
    }
  }

  lemma CoveredIsShown(merged: seq<Slot>, slot: Slot)
    requires Covers(merged, slot)
    ensures Shown(merged, slot)
  {
    var found :| found in merged && SameIdentity(slot, found) && (slot.conflict ==> found.conflict) &&
      (found.conflict || found.status == slot.status);
    assert SameWork(found, slot);
  }

  lemma MergedShows(all: seq<Slot>)
    ensures forall slot <- all :: Shown(MergeAll(all), slot)
  {
    MergeAllCovers(all);
    forall slot | slot in all ensures Shown(MergeAll(all), slot) { CoveredIsShown(MergeAll(all), slot); }
  }

  lemma DistinctMeansNotTwice(merged: seq<Slot>)
    requires DistinctIdentities(merged)
    ensures NoWorkTwice(merged)
  {
    forall i, j | 0 <= i < j < |merged| ensures !SameWork(merged[i], merged[j]) {
      assert !SameIdentity(merged[i], merged[j]);
    }
  }

  lemma TracedIsExplained(records: seq<Record>, blocks: seq<Lock>, all: seq<Slot>, slot: Slot)
    requires Traced(all, slot) && forall seen <- all :: Sighted(records, blocks, seen)
    ensures Explained(records, blocks, slot)
  {
    var seen :| seen in all && SameWork(seen, slot) && seen.status == slot.status;
    assert Sighted(records, blocks, seen);
    if slot.conflict {
      var x, y :| x in all && y in all && SameWork(x, slot) && SameWork(y, slot) &&
        (x.conflict || x.status != y.status);
      assert Sighted(records, blocks, x) && Sighted(records, blocks, y);
    }
  }

  /** Before the merge: the records' slots after the locks, then the locks that stand alone. */
  ghost function Gathered(records: seq<Record>, blocks: seq<Lock>): seq<Slot> {
    AfterLocks(records, blocks).slots + OrphanSlots(LockTable(blocks), AfterLocks(records, blocks).represented)
  }

  lemma CurrentIsMerged(records: seq<Record>, blocks: seq<Lock>)
    ensures CurrentSlots(records, blocks) == MergeAll(Gathered(records, blocks))
  {
  }

  /**
   Nothing current is forgotten: every current record, stopped by the held locks of its tasks, and every lock that
   stands alone shows in the current slots, at least as cautiously; and no work shows twice.
   */
  lemma EverythingCurrentIsShown(records: seq<Record>, blocks: seq<Lock>)
    ensures forall own :: SomeReport(records, blocks, own) ==>
      exists end :: EndsAs(own, StoppersOf(records, blocks, own), end) && Shown(CurrentSlots(records, blocks), end)
    ensures forall lock, slot :: StandsAlone(records, blocks, lock) && LockReports(lock, slot) ==>
      Shown(CurrentSlots(records, blocks), slot)
    ensures NoWorkTwice(CurrentSlots(records, blocks))
  {
    var current := CurrentSlots(records, blocks);
    CurrentIsMerged(records, blocks);
    SlotIdentitiesAreDistinct(Gathered(records, blocks));
    DistinctMeansNotTwice(current);
    MergedShows(Gathered(records, blocks));
    forall own | SomeReport(records, blocks, own)
      ensures exists end :: EndsAs(own, StoppersOf(records, blocks, own), end) && Shown(current, end)
    {
      RecordSightings(records, blocks);
      OwnEndsAs(records, blocks, own);
      assert Shown(current, StoppedAll(own, StoppersOf(records, blocks, own)));
    }
    forall lock, slot | StandsAlone(records, blocks, lock) && LockReports(lock, slot) ensures Shown(current, slot) {
      LockSightings(records, blocks, slot);
      assert slot in Gathered(records, blocks);
    }
  }

  /**
   Nothing is invented: every current slot goes back to a sighting of its work, a record's slot after the locks or a
   lock that stands alone, and is contradicted only where sightings of that work contradict each other or themselves.
   */
  lemma EverySlotIsExplained(records: seq<Record>, blocks: seq<Lock>, slot: Slot)
    requires slot in CurrentSlots(records, blocks)
    ensures Explained(records, blocks, slot)
  {
    CurrentIsMerged(records, blocks);
    MergeAllTraces(Gathered(records, blocks));
    forall seen | seen in Gathered(records, blocks) ensures Sighted(records, blocks, seen) {
      SightingsMean(records, blocks, seen);
    }
    TracedIsExplained(records, blocks, Gathered(records, blocks), slot);
  }

  // ----- what this means for one lock -----

  /** A lock that counts, has a task, and is cited by no current record. */
  ghost predicate IsOrphan(records: seq<Record>, blocks: seq<Lock>, lock: Lock) {
    && IsLastBlock(blocks, lock) && lock.tasks != {}
    && forall record <- records :: IsCurrent(record) ==> record.lockId != Some(lock.id)
  }

  ghost function SlotOfLock(lock: Lock): Slot {
    Slot(lock.tasks, Single(lock.actions), if lock.statuses == [] then None else Some(lock.statuses[0]),
      Disagree(lock.statuses))
  }

  lemma SlotOfLockReports(lock: Lock)
    requires lock.tasks != {} && !CleanlyFinal(lock) && (CleanlyHeld(lock) ==> Single(lock.actions).Some?)
    ensures LockReports(lock, SlotOfLock(lock))
  {
  }

  /**
   A lock without a record is not lost: unless it is cleanly final or held it keeps a slot with its tasks and exact
   action, contradicted if its own words are, and live if it runs.
   */
  lemma OrphanLockKeepsSlot(records: seq<Record>, blocks: seq<Lock>, lock: Lock) returns (slot: Slot)
    requires IsOrphan(records, blocks, lock) && !CleanlyFinal(lock) && !CleanlyHeld(lock)
    ensures slot in CurrentSlots(records, blocks) && slot.tasks == lock.tasks
    ensures forall id :: slot.action == Some(id) <==> lock.actions == {id}
    ensures Disagree(lock.statuses) ==> slot.conflict
    ensures slot.conflict || slot.status == First(lock.statuses)
    ensures Says(lock.statuses, RUNNING_WORDS) || Disagree(lock.statuses) ==> Live(slot)
  {
    EverythingCurrentIsShown(records, blocks);
    SlotOfLockReports(lock);
    WordsMean(lock.statuses);
    assert StandsAlone(records, blocks, lock);
    slot :| slot in CurrentSlots(records, blocks) && SameWork(slot, SlotOfLock(lock)) &&
      (SlotOfLock(lock).conflict ==> slot.conflict) && (slot.conflict || slot.status == SlotOfLock(lock).status);
  }

  /** And it occupies a worker at every limit, unless its evidence is clean and what it identifies is finished. */
  lemma RunningLockKeepsWorker(board: Board, records: seq<Record>, blocks: seq<Lock>, lock: Lock, limit: nat)
      returns (slot: Slot)
    requires IsOrphan(records, blocks, lock) && (Says(lock.statuses, RUNNING_WORDS) || Disagree(lock.statuses))
    ensures slot in CurrentSlots(records, blocks) && slot.tasks == lock.tasks
    ensures forall id :: slot.action == Some(id) <==> lock.actions == {id}
    ensures var report := ReportOf(board, CurrentSlots(records, blocks), limit);
      if slot.conflict || !TerminalIdentity(board, slot) then
        exists worker <- report.activeContinuations ::
          worker in report.running &&
          (worker == Placeholder(slot) || (worker.Working? && worker.action.task in lock.tasks))
      else !Disagree(lock.statuses)
  {
    slot := OrphanLockKeepsSlot(records, blocks, lock);
    var slots := CurrentSlots(records, blocks);
    LiveSlotKeepsWorker(board, slots, slot, limit);
  }

  lemma HeldRecordShows(records: seq<Record>, blocks: seq<Lock>, lock: Lock, own: Slot)
    requires IsOrphan(records, blocks, lock) && CleanlyHeld(lock)
    requires SomeReport(records, blocks, own) && own.tasks == lock.tasks
    ensures exists slot <- CurrentSlots(records, blocks) :: IsHeld(slot, lock)
  {
    EverythingCurrentIsShown(records, blocks);
    var end :| EndsAs(own, StoppersOf(records, blocks, own), end) && Shown(CurrentSlots(records, blocks), end);
    EndIsHeld(records, blocks, lock, own, end);
    ShownIsHeld(CurrentSlots(records, blocks), lock, end);
  }

  lemma HeldLockShows(records: seq<Record>, blocks: seq<Lock>, lock: Lock)
    requires IsOrphan(records, blocks, lock) && CleanlyHeld(lock) && |lock.actions| == 1
    requires forall own :: SomeReport(records, blocks, own) ==> own.tasks != lock.tasks
    ensures exists slot <- CurrentSlots(records, blocks) :: IsHeld(slot, lock) && slot.action == Single(lock.actions)
  {
    EverythingCurrentIsShown(records, blocks);
    SlotOfLockReports(lock);
    assert StandsAlone(records, blocks, lock);
    ShownIsHeld(CurrentSlots(records, blocks), lock, SlotOfLock(lock));
  }

  /**
   A cleanly held lock without a record stops the slots of its tasks: each shows held or contradicted, and with the
   action the lock names or contradicted. If no record has its tasks, the lock keeps a slot for its one action.
   */
  lemma HeldLockStops(records: seq<Record>, blocks: seq<Lock>, lock: Lock)
    requires IsOrphan(records, blocks, lock) && CleanlyHeld(lock)
    ensures (exists own :: SomeReport(records, blocks, own) && own.tasks == lock.tasks) ==>
      exists slot <- CurrentSlots(records, blocks) :: IsHeld(slot, lock)
    ensures (forall own :: SomeReport(records, blocks, own) ==> own.tasks != lock.tasks) && |lock.actions| == 1 ==>
      exists slot <- CurrentSlots(records, blocks) :: IsHeld(slot, lock) && slot.action == Single(lock.actions)
  {
    if own :| SomeReport(records, blocks, own) && own.tasks == lock.tasks {
      HeldRecordShows(records, blocks, lock, own);
    } else if |lock.actions| == 1 {
      HeldLockShows(records, blocks, lock);
    }
  }

  /** Of the lock's tasks, and contradicted or held; with the lock's action if it names one. */
  ghost predicate IsHeld(slot: Slot, lock: Lock) {
    && slot.tasks == lock.tasks
    && (slot.conflict ||
        (slot.status.Some? && slot.status.value in STOPPED_WORDS &&
         forall id :: lock.actions == {id} ==> slot.action == Some(id)))
  }

  lemma ShownIsHeld(current: seq<Slot>, lock: Lock, end: Slot)
    requires Shown(current, end) && IsHeld(end, lock)
    ensures exists slot <- current :: IsHeld(slot, lock) && SameWork(slot, end)
  {
    var slot :| slot in current && SameWork(slot, end) && (end.conflict ==> slot.conflict) &&
      (slot.conflict || slot.status == end.status);
    assert IsHeld(slot, lock);
  }

  lemma {:induction false} NamedAction(locks: seq<Lock>, lock: Lock, id: string)
    requires lock in locks && lock.actions == {id}
    ensures id in ActionsNamed(locks)
  {
    var n := |locks| - 1;
    if locks[n] != lock { NamedAction(locks[..n], lock, id); }
  }

  lemma EndIsHeld(records: seq<Record>, blocks: seq<Lock>, lock: Lock, own: Slot, end: Slot)
    requires IsOrphan(records, blocks, lock) && CleanlyHeld(lock) && own.tasks == lock.tasks
    requires EndsAs(own, StoppersOf(records, blocks, own), end)
    ensures IsHeld(end, lock)
  {
    var locks := StoppersOf(records, blocks, own);
    TableExactly(blocks);
    StoppersHold(LockTable(blocks), CitedIds(records), own.tasks);
    assert lock.id !in CitedIds(records);
    assert lock in locks && locks[|locks| - 1] in locks;
    if !end.conflict {
      forall id | lock.actions == {id} ensures end.action == Some(id) {
        NamedAction(locks, lock, id);
        var names := AllActions(own, locks);
        assert id in names;
        var k :| 0 <= k < |names| && names[k] == id;
        assert names[0] == names[k];
      }
    }
  }
}
