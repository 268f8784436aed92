/**
 Reconciling STARTED_WORK records with work locks into current work slots
 (scripts/fanmind_next_best_action.py, `active_work_slots`), from records whose fields have
 already been extracted from the text.
 */
module WorkSlots {
  import opened Wrappers
  import opened WorkStatuses

  /** One record of the active-work section; `statuses` lists every status word in order. */
  datatype Record = Record(statuses: seq<WorkStatus>, tasks: set<string>, actions: set<string>, lockId: Option<string>)

  /** One lock block. */
  datatype Lock = Lock(id: string, statuses: seq<WorkStatus>, tasks: set<string>, actions: set<string>)

  function First(statuses: seq<WorkStatus>): Option<WorkStatus> {
    if statuses == [] then None else Some(statuses[0])
  }

  /** More than one distinct status word. */
  predicate Conflicting(statuses: seq<WorkStatus>) {
    exists status <- statuses :: status != statuses[0]
  }

  /** The only member of a one-element set. */
  function Single(ids: set<string>): (single: Option<string>)
    ensures single.Some? <==> |ids| == 1
    ensures single.Some? ==> ids == {single.value}
  {
    if |ids| == 1 then
      OnlyMember(ids);
      var id :| id in ids;
      Some(id)
    else None
  }

  lemma OnlyMember(ids: set<string>)
    requires |ids| == 1
    ensures exists id :: ids == {id}
  {
    var id :| id in ids;
    assert |ids - {id}| == 0;
  }

  // ----- the lock table -----

  function FindLock(table: seq<Lock>, id: string): (found: Option<Lock>)
    ensures found.Some? ==> found.value in table && found.value.id == id
    ensures found.None? ==> forall lock <- table :: lock.id != id
  {
    if table == [] then None
    else if table[0].id == id then Some(table[0])
    else FindLock(table[1..], id)
  }

  /** A dictionary write: an existing id keeps its place, a new one goes last. */
  function PutLock(table: seq<Lock>, lock: Lock): seq<Lock> {
    if table == [] then [lock]
    else if table[0].id == lock.id then [lock] + table[1..]
    else [table[0]] + PutLock(table[1..], lock)
  }

  function LockTable(blocks: seq<Lock>): seq<Lock> {
    if blocks == [] then []
    else PutLock(LockTable(blocks[..|blocks| - 1]), blocks[|blocks| - 1])
  }

  /** The last block with that id. */
  function LastBlock(blocks: seq<Lock>, id: string): Option<Lock> {
    if blocks == [] then None
    else if blocks[|blocks| - 1].id == id then Some(blocks[|blocks| - 1])
    else LastBlock(blocks[..|blocks| - 1], id)
  }

  function LockIds(blocks: seq<Lock>): seq<string> {
    if blocks == [] then [] else [blocks[0].id] + LockIds(blocks[1..])
  }

  lemma {:induction false} LockIdsAppend(front: seq<Lock>, last: Lock)
    ensures LockIds(front + [last]) == LockIds(front) + [last.id]
  {
    if front != [] {
      assert (front + [last])[1..] == front[1..] + [last];
      LockIdsAppend(front[1..], last);
    }
  }

  /** Every entry once, where it occurs first. */
  function FirstOccurrences(ids: seq<string>): (once: seq<string>)
    ensures forall id :: id in once <==> id in ids
    ensures forall j, k :: 0 <= j < k < |once| ==> once[j] != once[k]
  {
    if ids == [] then []
    else
      var front, last := ids[..|ids| - 1], ids[|ids| - 1];
      assert forall id :: id in ids <==> id in front || id == last;
      if last in front then FirstOccurrences(front) else FirstOccurrences(front) + [last]
  }

  lemma {:induction false} PutLockIsFound(table: seq<Lock>, lock: Lock, id: string)
    ensures FindLock(PutLock(table, lock), id) == if id == lock.id then Some(lock) else FindLock(table, id)
  {
    if table != [] && table[0].id != lock.id {
      PutLockIsFound(table[1..], lock, id);
      var rest := PutLock(table[1..], lock);
      assert ([table[0]] + rest)[1..] == rest;
    }
  }

  lemma {:induction false} PutLockKeepsOrder(table: seq<Lock>, lock: Lock)
    ensures LockIds(PutLock(table, lock)) ==
            if lock.id in LockIds(table) then LockIds(table) else LockIds(table) + [lock.id]
  {
    if table != [] {
      if table[0].id == lock.id {
        assert ([lock] + table[1..])[1..] == table[1..];
      } else {
        PutLockKeepsOrder(table[1..], lock);
        var rest := PutLock(table[1..], lock);
        assert ([table[0]] + rest)[1..] == rest;
      }
    }
  }

  /** The table holds for every id its last block, and its ids are distinct and in the order of their first block. */
  lemma {:induction false} LockTableMeaning(blocks: seq<Lock>)
    ensures forall id :: FindLock(LockTable(blocks), id) == LastBlock(blocks, id)
    ensures LockIds(LockTable(blocks)) == FirstOccurrences(LockIds(blocks))
  {
    if blocks != [] {
      var front, last := blocks[..|blocks| - 1], blocks[|blocks| - 1];
      LockTableMeaning(front);
      forall id ensures FindLock(LockTable(blocks), id) == LastBlock(blocks, id) {
        PutLockIsFound(LockTable(front), last, id);
      }
      PutLockKeepsOrder(LockTable(front), last);
      assert front + [last] == blocks;
      LockIdsAppend(front, last);
      assert LockIds(blocks)[..|LockIds(front)|] == LockIds(front);
    }
  }

  // ----- pass 1: records -----

  /** Records with an active status or contradictory statuses are considered at all. */
  predicate Considered(record: Record) {
    (record.statuses != [] && IsActiveWork(record.statuses[0])) || Conflicting(record.statuses)
  }

  /** A running lock behind a record that is not, or a stopped lock behind a record that is. */
  predicate Contradicts(lock: Option<WorkStatus>, record: Option<WorkStatus>) {
    (!Terminal(lock) && !Running(lock) && !Stopped(lock)) ||
    (Running(lock) && !Running(record)) ||
    (Stopped(lock) && Running(record))
  }

  function LockOf(record: Record, table: seq<Lock>): Option<Lock> {
    if record.lockId.None? then None else FindLock(table, record.lockId.value)
  }

  function RecordActions(record: Record, table: seq<Lock>): set<string> {
    match LockOf(record, table)
    case None => record.actions
    case Some(lock) => record.actions + lock.actions
  }

  function RecordConflict(record: Record, table: seq<Lock>): bool {
    Conflicting(record.statuses) ||
    (record.lockId.Some? &&
     match LockOf(record, table)
     case None => true
     case Some(lock) => Conflicting(lock.statuses) || Contradicts(First(lock.statuses), First(record.statuses)))
  }

  function RecordStatus(record: Record, table: seq<Lock>): Option<WorkStatus> {
    match LockOf(record, table)
    case None => First(record.statuses)
    case Some(lock) =>
      if Stopped(First(lock.statuses)) && !RecordConflict(record, table) then First(lock.statuses)
      else First(record.statuses)
  }

  /** A clean terminal lock ends a record whose evidence does not conflict. */
  predicate EndedByLock(record: Record, table: seq<Lock>) {
    LockOf(record, table).Some? && Terminal(First(LockOf(record, table).value.statuses)) &&
    !RecordConflict(record, table)
  }

  function RecordSlot(record: Record, table: seq<Lock>): Option<Slot> {
    if !Considered(record) || EndedByLock(record, table) || record.tasks == {} then None
    else Some(Slot(record.tasks, Single(RecordActions(record, table)), RecordStatus(record, table),
      RecordConflict(record, table)))
  }

  function RecordSlots(records: seq<Record>, table: seq<Lock>): seq<Slot> {
    if records == [] then []
    else
      var n := |records| - 1;
      RecordSlots(records[..n], table) +
      (match RecordSlot(records[n], table) case Some(slot) => [slot] case None => [])
  }

  function Represented(records: seq<Record>): set<string> {
    if records == [] then {}
    else
      var n := |records| - 1;
      Represented(records[..n]) +
      (if Considered(records[n]) && records[n].lockId.Some? then {records[n].lockId.value} else {})
  }

  // ----- pass 2: stopped locks without a record of their own -----

  predicate CleanlyStopped(lock: Lock) {
    Stopped(First(lock.statuses)) && !Conflicting(lock.statuses)
  }

  function StopSlot(lock: Lock, slot: Slot): Slot {
    var lockAction := Single(lock.actions);
    if slot.tasks != lock.tasks then slot
    else if lockAction.Some? && slot.action.Some? && lockAction != slot.action then slot.(conflict := true)
    else if Running(slot.status) then slot.(conflict := true)
    else if slot.conflict then slot
    else slot.(status := First(lock.statuses), action := if slot.action.None? then lockAction else slot.action)
  }

  function StopSlots(lock: Lock, slots: seq<Slot>): seq<Slot> {
    seq(|slots|, i requires 0 <= i < |slots| => StopSlot(lock, slots[i]))
  }

  datatype Progress = Progress(slots: seq<Slot>, represented: set<string>)

  function ApplyStopped(lock: Lock, progress: Progress): Progress {
    if lock.id in progress.represented || lock.tasks == {} || !CleanlyStopped(lock) then progress
    else if exists slot <- progress.slots :: slot.tasks == lock.tasks then
      Progress(StopSlots(lock, progress.slots), progress.represented + {lock.id})
    else progress
  }

  function ApplyAllStopped(table: seq<Lock>, progress: Progress): Progress {
    if table == [] then progress
    else ApplyStopped(table[|table| - 1], ApplyAllStopped(table[..|table| - 1], progress))
  }

  // ----- pass 3: locks that nothing represents -----

  function OrphanSlot(lock: Lock, represented: set<string>): Option<Slot> {
    if lock.id in represented || lock.tasks == {} then None
    else if Terminal(First(lock.statuses)) && !Conflicting(lock.statuses) then None
    else if CleanlyStopped(lock) then
      if Single(lock.actions).Some? then Some(Slot(lock.tasks, Single(lock.actions), First(lock.statuses), false))
        else None
    else Some(Slot(lock.tasks, Single(lock.actions), First(lock.statuses), Conflicting(lock.statuses)))
  }

  function OrphanSlots(table: seq<Lock>, represented: set<string>): seq<Slot> {
    if table == [] then []
    else
      var n := |table| - 1;
      OrphanSlots(table[..n], represented) +
      (match OrphanSlot(table[n], represented) case Some(slot) => [slot] case None => [])
  }

  // ----- pass 4: one slot per identity -----

  predicate SameIdentity(left: Slot, right: Slot) {
    left.tasks == right.tasks && left.action == right.action
  }

  /** Fold one slot into the list: repeated identities merge, and disagreement becomes a conflict. */
  function Merge(merged: seq<Slot>, slot: Slot): seq<Slot> {
    if merged == [] then [slot]
    else if SameIdentity(slot, merged[0]) then
      [if slot.conflict || merged[0].conflict || slot.status != merged[0].status then merged[0].(conflict := true)
        else merged[0]]
      + merged[1..]
    else [merged[0]] + Merge(merged[1..], slot)
  }

  function MergeAll(slots: seq<Slot>): seq<Slot> {
    if slots == [] then []
    else Merge(MergeAll(slots[..|slots| - 1]), slots[|slots| - 1])
  }

  /** The current slots of a set of records and lock blocks. */
  function CurrentSlots(records: seq<Record>, blocks: seq<Lock>): seq<Slot> {
    var table := LockTable(blocks);
    var progress := ApplyAllStopped(table, Progress(RecordSlots(records, table), Represented(records)));
    MergeAll(progress.slots + OrphanSlots(table, progress.represented))
  }

  // ----- the imperative reconciliation -----

  /** A later block with a known id replaces the earlier one in its place. */
  method BuildLockTable(blocks: seq<Lock>) returns (table: seq<Lock>)
    ensures table == LockTable(blocks)
    ensures forall id :: FindLock(table, id) == LastBlock(blocks, id)
    ensures LockIds(table) == FirstOccurrences(LockIds(blocks))
  {
    table := [];
    for i := 0 to |blocks|
      invariant table == LockTable(blocks[..i])
    {
      assert blocks[..i + 1][..i] == blocks[..i];
      table := PutLock(table, blocks[i]);
    }
    assert blocks[..|blocks|] == blocks;
    LockTableMeaning(blocks);
  }

  /** One turn of the record loop: the slot of a considered record, if it gets one. */
  method ReadRecord(record: Record, table: seq<Lock>) returns (slot: Option<Slot>)
    requires Considered(record)
    ensures slot == RecordSlot(record, table)
  {
    var conflict := Conflicting(record.statuses);
    var status := First(record.statuses);
    var actions := record.actions;
    if record.lockId.Some? {
      var lock := FindLock(table, record.lockId.value);
      if lock.None? {
        conflict := true;
      } else {
        actions := actions + lock.value.actions;
        var lockStatus := First(lock.value.statuses);
        conflict := conflict || Conflicting(lock.value.statuses);
        if !(Terminal(lockStatus) || Running(lockStatus) || Stopped(lockStatus)) {
          conflict := true;
        } else if Running(lockStatus) && !Running(status) {
          conflict := true;
        } else if Stopped(lockStatus) && Running(status) {
          conflict := true;
        } else if Stopped(lockStatus) && !conflict {
          status := lockStatus;
        }
        if Terminal(lockStatus) && !conflict {
          return None;
        }
      }
    }
    slot := if record.tasks == {} then None else Some(Slot(record.tasks, Single(actions), status, conflict));
  }

  method ReadRecords(records: seq<Record>, table: seq<Lock>) returns (slots: seq<Slot>, represented: set<string>)
    ensures slots == RecordSlots(records, table) && represented == Represented(records)
  {
    slots, represented := [], {};
    for i := 0 to |records|
      invariant slots == RecordSlots(records[..i], table) && represented == Represented(records[..i])
    {
      assert records[..i + 1][..i] == records[..i];
      var record := records[i];
      if !Considered(record) {
        continue;
      }
      if record.lockId.Some? {
        represented := represented + {record.lockId.value};
      }
      var slot := ReadRecord(record, table);
      if slot.Some? {
        slots := slots + [slot.value];
      }
    }
    assert records[..|records|] == records;
  }

  /** Slots are changed in place, one matching slot after the other. */
  method StopMatching(lock: Lock, before: seq<Slot>) returns (slots: seq<Slot>)
    ensures slots == StopSlots(lock, before)
  {
    slots := before;
    var lockAction := Single(lock.actions);
    for i := 0 to |slots|
      invariant |slots| == |before|
      invariant forall k :: 0 <= k < i ==> slots[k] == StopSlot(lock, before[k])
      invariant forall k :: i <= k < |slots| ==> slots[k] == before[k]
    {
      var slot := slots[i];
      if slot.tasks == lock.tasks {
        if lockAction.Some? && slot.action.Some? && lockAction != slot.action {
          slots := slots[i := slot.(conflict := true)];
        } else if Running(slot.status) {
          slots := slots[i := slot.(conflict := true)];
        } else if !slot.conflict {
          slot := slot.(status := First(lock.statuses));
          if slot.action.None? && lockAction.Some? {
            slot := slot.(action := lockAction);
          }
          slots := slots[i := slot];
        }
      }
    }
  }

  method ApplyLocks(table: seq<Lock>, start: Progress) returns (progress: Progress)
    ensures progress == ApplyAllStopped(table, start)
  {
    var slots, represented := start.slots, start.represented;
    for i := 0 to |table|
      invariant Progress(slots, represented) == ApplyAllStopped(table[..i], start)
    {
      assert table[..i + 1][..i] == table[..i];
      var lock := table[i];
      if lock.id in represented || lock.tasks == {} {
        continue;
      }
      if CleanlyStopped(lock) && exists slot <- slots :: slot.tasks == lock.tasks {
        slots := StopMatching(lock, slots);
        represented := represented + {lock.id};
      }
    }
    assert table[..|table|] == table;
    progress := Progress(slots, represented);
  }

  method AddOrphans(table: seq<Lock>, represented: set<string>, before: seq<Slot>) returns (slots: seq<Slot>)
    ensures slots == before + OrphanSlots(table, represented)
  {
    slots := before;
    for i := 0 to |table|
      invariant slots == before + OrphanSlots(table[..i], represented)
    {
      assert table[..i + 1][..i] == table[..i];
      var lock := table[i];
      if lock.id in represented || lock.tasks == {} {
        continue;
      }
      var status, conflict, action := First(lock.statuses), Conflicting(lock.statuses), Single(lock.actions);
      if Terminal(status) && !conflict {
        continue;
      }
      if Stopped(status) && !conflict {
        if action.Some? {
          slots := slots + [Slot(lock.tasks, action, status, false)];
        }
        continue;
      }
      slots := slots + [Slot(lock.tasks, action, status, conflict)];
    }
    assert table[..|table|] == table;
  }

  /** The four passes over records and locks compute exactly the specified slots. */
  method ActiveWorkSlots(records: seq<Record>, blocks: seq<Lock>) returns (slots: seq<Slot>)
    ensures slots == CurrentSlots(records, blocks)
  {
    var table := BuildLockTable(blocks);
    var found, represented := ReadRecords(records, table);
    var progress := ApplyLocks(table, Progress(found, represented));
    var all := AddOrphans(table, progress.represented, progress.slots);
    slots := MergeSlots(all);
  }

  /** Repeated identities are folded into the first slot that has them. */
  method MergeSlots(all: seq<Slot>) returns (slots: seq<Slot>)
    ensures slots == MergeAll(all)
  {
    slots := [];
    for i := 0 to |all|
      invariant slots == MergeAll(all[..i])
    {
      assert all[..i + 1][..i] == all[..i];
      slots := Merge(slots, all[i]);
    }
    assert all[..|all|] == all;
  }
}
