/** What the reconciled slots keep from their records, and what the manager keeps from the slots. */
module WorkSlotProperties {
  import opened Wrappers
  import opened WorkStatuses
  import opened Catalog
  import opened Manager
  import opened ManagerProperties
  import opened WorkSlots

  /** Work that must be assumed to occupy a worker: explicitly running, or with contradictory evidence. */
  predicate Live(slot: Slot) {
    slot.conflict || Running(slot.status)
  }

  /** `later` describes the same work as `earlier` and is at least as cautious. */
  ghost predicate StillStands(earlier: Slot, later: Slot) {
    SameIdentity(earlier, later) && (earlier.conflict ==> later.conflict) && (Live(earlier) ==> Live(later))
  }

  // ----- merging -----

  /** `kept` contains the slot, or a slot of the same identity that agrees with it or conflicts. */
  ghost predicate Covers(merged: seq<Slot>, slot: Slot) {
    exists current <- merged ::
      SameIdentity(slot, current) && (slot.conflict ==> current.conflict) &&
      (current.conflict || current.status == slot.status)
  }

  lemma {:induction false} MergeCovers(merged: seq<Slot>, slot: Slot, other: Slot)
    requires other == slot || Covers(merged, other)
    ensures Covers(Merge(merged, slot), other)
  {
    var after := Merge(merged, slot);
    if merged == [] {
      assert slot in after;
    } else {
      assert merged == [merged[0]] + merged[1..];
      assert after[0] in after;
      if SameIdentity(slot, merged[0]) {
        assert forall current <- merged[1..] :: current in after;
      } else {
        assert forall current <- Merge(merged[1..], slot) :: current in after;
        if other == slot || Covers(merged[1..], other) {
          MergeCovers(merged[1..], slot, other);
        } else {
          assert Covers([merged[0]], other);
        }
      }
    }
  }

  lemma {:induction false} MergeAllCovers(slots: seq<Slot>)
    ensures forall slot <- slots :: Covers(MergeAll(slots), slot)
  {
    if slots != [] {
      var n := |slots| - 1;
      MergeAllCovers(slots[..n]);
      forall slot | slot in slots ensures Covers(MergeAll(slots), slot) {
        assert slot in slots[..n] || slot == slots[n];
        MergeCovers(MergeAll(slots[..n]), slots[n], slot);
      }
    }
  }

  ghost predicate DistinctIdentities(slots: seq<Slot>) {
    forall i, j :: 0 <= i < j < |slots| ==> !SameIdentity(slots[i], slots[j])
  }

  lemma {:induction false} MergeKeepsIdentities(merged: seq<Slot>, slot: Slot)
    requires DistinctIdentities(merged)
    ensures DistinctIdentities(Merge(merged, slot))
    ensures forall current <- Merge(merged, slot) ::
      SameIdentity(current, slot) || exists other <- merged :: SameIdentity(current, other)
  {
    if merged != [] {
      assert merged == [merged[0]] + merged[1..];
      assert merged[0] in merged;
      if SameIdentity(slot, merged[0]) {
        assert forall current <- merged[1..] :: current in merged && SameIdentity(current, current);
      } else {
        MergeKeepsIdentities(merged[1..], slot);
        assert forall other <- merged[1..] :: other in merged;
        forall current | current in Merge(merged[1..], slot) ensures !SameIdentity(merged[0], current) {
          if !SameIdentity(current, slot) {
            var other :| other in merged[1..] && SameIdentity(current, other);
          }
        }
      }
    }
  }

  /** No two slots carry the same tasks and the same action, so repeated evidence never takes a second worker. */
  lemma {:induction false} SlotIdentitiesAreDistinct(slots: seq<Slot>)
    ensures DistinctIdentities(MergeAll(slots))
    ensures forall current <- MergeAll(slots) :: exists slot <- slots :: SameIdentity(current, slot)
  {
    if slots != [] {
      var n := |slots| - 1;
      SlotIdentitiesAreDistinct(slots[..n]);
      MergeKeepsIdentities(MergeAll(slots[..n]), slots[n]);
      assert slots[n] in slots;
      assert forall slot <- slots[..n] :: slot in slots;
      forall current | current in MergeAll(slots) ensures exists slot <- slots :: SameIdentity(current, slot) {
        if !SameIdentity(current, slots[n]) {
          var other :| other in MergeAll(slots[..n]) && SameIdentity(current, other);
          var slot :| slot in slots[..n] && SameIdentity(other, slot);
          assert SameIdentity(current, slot);
        }
      }
    }
  }

  // ----- stopping -----

  lemma {:induction false} StoppingKeepsLive(table: seq<Lock>, start: Progress)
    ensures var end := ApplyAllStopped(table, start);
            |end.slots| == |start.slots| && start.represented <= end.represented &&
            forall i :: 0 <= i < |start.slots| ==>
              start.slots[i].tasks == end.slots[i].tasks &&
              (Live(start.slots[i]) ==> StillStands(start.slots[i], end.slots[i]))
  {
    if table != [] {
      StoppingKeepsLive(table[..|table| - 1], start);
    }
  }

  lemma {:induction false} RecordSlotListed(records: seq<Record>, table: seq<Lock>, record: Record)
    requires record in records && RecordSlot(record, table).Some?
    ensures RecordSlot(record, table).value in RecordSlots(records, table)
  {
    var n := |records| - 1;
    if record in records[..n] {
      RecordSlotListed(records[..n], table, record);
    } else {
      assert record == records[n];
    }
  }

  // ----- records -----

  /** Explicitly running (IN_PROGRESS, CI_WAITING, REVIEW_WAITING, MERGE_READY) or contradictory by itself. */
  predicate MustKeep(record: Record) {
    record.tasks != {} &&
    (Conflicting(record.statuses) ||
    (record.statuses != [] && IsRunning(record.statuses[0]) && IsActiveWork(record.statuses[0])))
  }

  lemma MustKeepHasLiveSlot(record: Record, table: seq<Lock>)
    requires MustKeep(record) && !EndedByLock(record, table)
    ensures RecordSlot(record, table).Some? && Live(RecordSlot(record, table).value)
    ensures Conflicting(record.statuses) ==> RecordSlot(record, table).value.conflict
  {
  }

  /**
   Every running or contradictory record keeps a slot with its tasks and exact action that still counts
   as live, unless its evidence is clean and its lock is cleanly terminal.
   */
  lemma RunningRecordKeepsSlot(records: seq<Record>, blocks: seq<Lock>, record: Record) returns (slot: Slot)
    requires record in records && MustKeep(record) && !EndedByLock(record, LockTable(blocks))
    ensures slot in CurrentSlots(records, blocks)
    ensures slot.tasks == record.tasks && slot.action == Single(RecordActions(record, LockTable(blocks))) && Live(slot)
    ensures Conflicting(record.statuses) ==> slot.conflict
  {
    var table := LockTable(blocks);
    MustKeepHasLiveSlot(record, table);
    RecordSlotListed(records, table, record);
    var start := Progress(RecordSlots(records, table), Represented(records));
    var own := RecordSlot(record, table).value;
    var i :| 0 <= i < |start.slots| && start.slots[i] == own;
    StoppingKeepsLive(table, start);
    var progress := ApplyAllStopped(table, start);
    var all := progress.slots + OrphanSlots(table, progress.represented);
    assert all[i] == progress.slots[i];
    MergeAllCovers(all);
    assert all[i] in all;
    slot :| slot in MergeAll(all) && SameIdentity(all[i], slot) && (all[i].conflict ==> slot.conflict) &&
      (slot.conflict || slot.status == all[i].status);
  }

  /** A record whose only status is ACTIVE is not considered: it gets no slot, whatever its tasks. */
  lemma ActiveOnlyRecordIsDropped(tasks: set<string>, actions: set<string>, lockId: Option<string>, table: seq<Lock>)
    ensures RecordSlot(Record([WorkStatuses.Active], tasks, actions, lockId), table) == None
  {
  }

  /**
   Exactly which records get a slot of their own: those with a task that are either contradictory, or
   in an active state and not ended by a clean terminal lock.
   */
  lemma RecordSlotExactly(record: Record, table: seq<Lock>)
    ensures RecordSlot(record, table).Some? <==>
      record.tasks != {} &&
      (Conflicting(record.statuses) ||
       (record.statuses != [] && IsActiveWork(record.statuses[0]) &&
        (LockOf(record, table).Some? ==>
           Terminal(First(LockOf(record, table).value.statuses)) ==>
             Conflicting(LockOf(record, table).value.statuses))))
  {
  }

  // ----- no evidence is invented -----

  /** The tasks of the slot are those of a considered, unended record or of a lock. */
  ghost predicate Evidenced(slot: Slot, records: seq<Record>, table: seq<Lock>) {
    (exists record <- records :: record.tasks == slot.tasks && RecordSlot(record, table).Some?) ||
    (exists lock <- table ::
      lock.tasks == slot.tasks && !(Terminal(First(lock.statuses)) && !Conflicting(lock.statuses)))
  }

  lemma {:induction false} RecordSlotsEvidenced(records: seq<Record>, table: seq<Lock>)
    ensures forall slot <- RecordSlots(records, table) ::
      exists record <- records :: record.tasks == slot.tasks && RecordSlot(record, table).Some?
  {
    if records != [] {
      var n := |records| - 1;
      RecordSlotsEvidenced(records[..n], table);
      assert records[n] in records;
      assert forall record <- records[..n] :: record in records;
    }
  }

  lemma {:induction false} OrphanSlotsEvidenced(table: seq<Lock>, represented: set<string>)
    ensures forall slot <- OrphanSlots(table, represented) ::
      exists lock <- table ::
        lock.tasks == slot.tasks && !(Terminal(First(lock.statuses)) && !Conflicting(lock.statuses))
  {
    if table != [] {
      var n := |table| - 1;
      OrphanSlotsEvidenced(table[..n], represented);
      assert table[n] in table;
      assert forall lock <- table[..n] :: lock in table;
    }
  }

  /** Slots never revive history: each one rests on a current record or on a lock that is not cleanly terminal. */
  lemma SlotsAreEvidenced(records: seq<Record>, blocks: seq<Lock>)
    ensures forall slot <- CurrentSlots(records, blocks) :: Evidenced(slot, records, LockTable(blocks))
  {
    var table := LockTable(blocks);
    var start := Progress(RecordSlots(records, table), Represented(records));
    var progress := ApplyAllStopped(table, start);
    var all := progress.slots + OrphanSlots(table, progress.represented);
    RecordSlotsEvidenced(records, table);
    OrphanSlotsEvidenced(table, progress.represented);
    StoppingKeepsLive(table, start);
    SlotIdentitiesAreDistinct(all);
    forall slot | slot in MergeAll(all) ensures Evidenced(slot, records, table) {
      var other :| other in all && SameIdentity(slot, other);
      if other in progress.slots {
        var i :| 0 <= i < |progress.slots| && progress.slots[i] == other;
        assert start.slots[i].tasks == other.tasks && start.slots[i] in start.slots;
      }
    }
  }

  // ----- from slots to the ready set -----

  lemma ReservationListed(board: Board, slots: seq<Slot>, slot: Slot)
    requires slot in slots && OutcomeOf(board, slot).Reserves?
    ensures OutcomeOf(board, slot).worker in Reservations(board, slots)
  {
    HeldMeaning(Outcomes(board, slots));
    var i :| 0 <= i < |slots| && slots[i] == slot;
    assert Outcomes(board, slots)[i] == OutcomeOf(board, slot);
  }

  /** The positions of the reserving outcomes, in order, with their workers. */
  ghost predicate PairsUp(outcomes: seq<SlotOutcome>, positions: seq<nat>) {
    && |positions| == |Held(outcomes)|
    && (forall k :: 0 <= k < |positions| ==>
          positions[k] < |outcomes| && outcomes[positions[k]] == Reserves(Held(outcomes)[k]))
    && (forall j, k :: 0 <= j < k < |positions| ==> positions[j] < positions[k])
    && (forall i :: 0 <= i < |outcomes| && outcomes[i].Reserves? ==> i in positions)
  }

  lemma HeldAppend(outcomes: seq<SlotOutcome>, last: SlotOutcome)
    ensures Held(outcomes + [last]) == Held(outcomes) + if last.Reserves? then [last.worker] else []
  {
    assert (outcomes + [last])[..|outcomes|] == outcomes;
  }

  lemma PairsUpAppend(outcomes: seq<SlotOutcome>, last: SlotOutcome, positions: seq<nat>)
    requires PairsUp(outcomes, positions)
    ensures PairsUp(outcomes + [last], positions + if last.Reserves? then [|outcomes|] else [])
  {
    HeldAppend(outcomes, last);
    var longer := outcomes + [last];
    forall i | 0 <= i < |longer| && longer[i].Reserves?
      ensures i in positions + if last.Reserves? then [|outcomes|] else []
    {
      if i < |outcomes| { assert outcomes[i].Reserves?; }
    }
  }

  /** Each reserving slot takes a worker of its own: workers and reserving slots pair up one to one, in order. */
  lemma {:induction false} OneWorkerPerReservingSlot(outcomes: seq<SlotOutcome>) returns (positions: seq<nat>)
    ensures PairsUp(outcomes, positions)
  {
    if outcomes == [] {
      positions := [];
    } else {
      var n := |outcomes| - 1;
      var front := OneWorkerPerReservingSlot(outcomes[..n]);
      PairsUpAppend(outcomes[..n], outcomes[n], front);
      positions := front + if outcomes[n].Reserves? then [n] else [];
      assert outcomes[..n] + [outcomes[n]] == outcomes;
    }
  }

  lemma ResolvedIsOwn(board: Board, slot: Slot)
    requires ResolvedAction(board, slot).Some?
    ensures ResolvedAction(board, slot).value in board.actions && ResolvedAction(board, slot).value.task in slot.tasks
  {
    var action := ResolvedAction(board, slot).value;
    assert action in LiveMatches(board, slot);
    assert action in TaskMatches(board, slot);
  }

  /** A live slot releases its worker exactly when it is clean and its identity is consistently finished. */
  lemma LiveSlotOutcome(board: Board, slot: Slot)
    requires Live(slot)
    ensures OutcomeOf(board, slot).Reserves? <==> slot.conflict || !TerminalIdentity(board, slot)
    ensures OutcomeOf(board, slot).Reserves? ==>
      var worker := OutcomeOf(board, slot).worker;
      worker == Placeholder(slot) ||
      (worker.Working? && worker.action in board.actions && worker.action.task in slot.tasks && !slot.conflict)
  {
    if !slot.conflict {
      assert !Stopped(slot.status) && !HoldsNothing(board, slot);
      if ResolvedAction(board, slot).Some? {
        ResolvedIsOwn(board, slot);
      }
    }
  }

  /** A live slot is one of the reported workers at every limit, unless it is clean and finished. */
  lemma LiveSlotKeepsWorker(board: Board, slots: seq<Slot>, slot: Slot, limit: nat)
    requires slot in slots && Live(slot)
    ensures var report := ReportOf(board, slots, limit);
            slot.conflict || !TerminalIdentity(board, slot) ==>
              exists worker <- report.activeContinuations ::
                worker in report.running &&
                (worker == Placeholder(slot) || (worker.Working? && worker.action.task in slot.tasks))
  {
    LiveSlotOutcome(board, slot);
    RunningWorkersAreDisjoint(board, slots, limit);
    if slot.conflict || !TerminalIdentity(board, slot) {
      ReservationListed(board, slots, slot);
      var report := ReportOf(board, slots, limit);
      var worker := OutcomeOf(board, slot).worker;
      var i :| 0 <= i < |report.activeContinuations| && report.activeContinuations[i] == worker;
      assert report.running[i] == worker;
    }
  }

  /**
   From the records to the ready set: a running or contradictory record that no clean terminal lock ended
   still occupies one of the reported workers at every limit, unless its evidence is clean and every action it
   consistently identifies is done or failed.
   */
  lemma RunningRecordKeepsWorker(board: Board, records: seq<Record>, blocks: seq<Lock>, record: Record, limit: nat)
      returns (slot: Slot)
    requires record in records && MustKeep(record) && !EndedByLock(record, LockTable(blocks))
    ensures slot in CurrentSlots(records, blocks) && slot.tasks == record.tasks
    ensures slot.action == Single(RecordActions(record, LockTable(blocks)))
    ensures var report := ReportOf(board, CurrentSlots(records, blocks), limit);
            if slot.conflict || !TerminalIdentity(board, slot) then
              exists worker <- report.activeContinuations ::
                worker in report.running &&
                (worker == Placeholder(slot) || (worker.Working? && worker.action.task in record.tasks))
            else !Conflicting(record.statuses)
  {
    slot := RunningRecordKeepsSlot(records, blocks, record);
    LiveSlotKeepsWorker(board, CurrentSlots(records, blocks), slot, limit);
  }

  /** One contradictory slot is enough: at every limit nothing new is admitted. */
  lemma ConflictStopsAllAdmission(board: Board, slots: seq<Slot>, slot: Slot, limit: nat)
    requires slot in slots && slot.conflict
    ensures ReportOf(board, slots, limit).running == ReportOf(board, slots, limit).activeContinuations
    ensures forall id <- ReportOf(board, slots, limit).safeReadySet :: id in ContinuationIds(Reservations(board, slots))
  {
    var workers := Reservations(board, slots);
    var empty := Tally([], [], FailedEntries(board, Ordered(board)), []);
    ReservationListed(board, slots, slot);
    KeepWorkersRunning(board, empty, workers);
    KeepWorkersSelectsActive(board, empty, workers);
    assert [] + workers == workers;
    UnsafeWorkerStopsAdmission(board, limit, ActiveTally(board, slots), NewCandidates(board, slots), Placeholder(slot));
    forall id | id in ReportOf(board, slots, limit).safeReadySet ensures id in ContinuationIds(workers) {
      IdsMeaning(ActiveTally(board, slots).selected, id);
      var action :| action in ActiveTally(board, slots).selected && action.id == id;
      assert Working(action) in workers;
    }
  }
}
