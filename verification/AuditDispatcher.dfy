/**
 * The tick that starts due integrity audits (services/ftp_audit_dispatcher.py), while nobody else
 * writes the destination table.
 */
module AuditDispatcher {
  import opened Text
  import opened AuditSchedule
  import opened Queries

  datatype Destination = Destination(enabled: bool, auditEnabled: bool, replicated: bool, slot: Slot, next: Option<int>)

  type Destinations = map<int, Destination>

  predicate Audited(d: Destination) { d.enabled && d.auditEnabled && d.replicated }

  predicate Due(d: Destination, now: int) { Audited(d) && d.next.Some? && d.next.value <= now }

  /** calculate_destination_next_ftp_audit */
  function NextFor(d: Destination, now: int, offset: int): Option<int> {
    if Audited(d) then NextAudit(d.slot, now, offset) else None
  }

  /** The slot times the database accepts. */
  ghost predicate ValidSlots(rows: Destinations) { forall k | k in rows :: rows[k].slot.Valid() }

  predicate Precedes(rows: Destinations, j: int, k: int)
    requires j in rows && k in rows && rows[j].next.Some? && rows[k].next.Some?
  {
    rows[j].next.value < rows[k].next.value || (rows[j].next.value == rows[k].next.value && j < k)
  }

  /** The due destinations in order of (next_integrity_audit_at, pk), cut off at the limit. */
  predicate Earliest(rows: Destinations, ids: seq<int>, now: int, limit: int) {
    && |ids| <= limit && (forall k | k in ids :: k in rows && Due(rows[k], now))
    && (forall i, j | 0 <= i < j < |ids| :: Precedes(rows, ids[i], ids[j]))
    && forall k | k in rows && k !in ids && Due(rows[k], now) ::
         |ids| == limit && forall i | 0 <= i < |ids| :: Precedes(rows, ids[i], k)
  }

  datatype EnqueueResult = Enqueued | IntegrityError | OtherError

  class Table {
    var rows: Destinations
    /** The destinations with an active audit job. */
    var active: set<int>

    method EarliestDue(now: int, limit: int) returns (r: Option<seq<int>>)
      ensures r.Some? ==> Earliest(rows, r.value, now, limit)
    {
      var ids: seq<int> := *;
      return if Earliest(rows, ids, now, limit) then Some(ids) else None;
    }

    method Enqueue(id: int) returns (r: EnqueueResult)
      modifies this`active
      ensures active == if r.Enqueued? then old(active) + {id} else old(active)
    {
      r := *;
      if r.Enqueued? { active := active + {id}; }
    }
  }

  // ---- initialize_ftp_audit_schedules ----

  function Initialized(d: Destination, now: int, offset: int): Destination {
    if !Audited(d) then d.(next := None)
    else if d.next.None? then d.(next := NextFor(d, now, offset))
    else d
  }

  method InitializeSchedules(table: Table, now: int, offset: int) returns (r: Option<nat>)
    modifies table`rows
    ensures table.rows.Keys == old(table.rows).Keys
    ensures r.Some? ==> forall k | k in old(table.rows) :: table.rows[k] == Initialized(old(table.rows)[k], now, offset)
    ensures forall k | k in old(table.rows) :: table.rows[k].slot == old(table.rows)[k].slot
  {
    ghost var start := table.rows;
    table.rows := map k | k in table.rows ::
      if Audited(table.rows[k]) then table.rows[k] else table.rows[k].(next := None);
    ghost var cleared := table.rows;
    var which := set k | k in table.rows && Audited(table.rows[k]) && table.rows[k].next.None?;
    var ids := Rows(which);
    if ids.None? { return None; }
    for i := 0 to |ids.value|
      invariant table.rows.Keys == start.Keys
      invariant forall k | k in start ::
        table.rows[k] == if k in ids.value[..i] then Initialized(start[k], now, offset) else cleared[k]
    {
      var id := ids.value[i];
      assert id in which && id !in ids.value[..i];
      var next := NextFor(table.rows[id], now, offset);
      if next.None? { return None; }
      table.rows := table.rows[id := table.rows[id].(next := next)];
    }
    assert ids.value[..|ids.value|] == ids.value;
    forall k | k in start ensures table.rows[k] == Initialized(start[k], now, offset) {
      assert k in which <==> Audited(start[k]) && start[k].next.None?;
    }
    return Some(|ids.value|);
  }

  // ---- dispatch_due_ftp_audits ----

  datatype Summary = Summary(initialized: nat, due: nat, queued: nat, skippedActive: nat, conflicts: nat)

  function Busy(ids: seq<int>, active: set<int>): nat {
    if ids == [] then 0 else Busy(ids[..|ids| - 1], active) + if ids[|ids| - 1] in active then 1 else 0
  }

  /**
   * The table after the destinations `done`, where those in `conflicts` were rolled back: all the
   * others have moved to their next slot, and all of them have an audit job.
   */
  ghost predicate Dispatched(rows: Destinations, active: set<int>, done: seq<int>, conflicts: set<int>, now: int,
                             offset: int, t: Destinations, jobs: set<int>) {
    && t.Keys == rows.Keys
    && (forall k | k in rows && k !in done :: t[k] == rows[k])
    && (forall k | k in rows && k in done ::
          t[k] == if k in conflicts then rows[k] else rows[k].(next := NextAudit(rows[k].slot, now, offset)))
    && (forall k | k in rows && k in done && k !in conflicts :: t[k].next.Some? && t[k].next.value > now)
    && (forall k :: k in jobs <==> k in active || (k in done && k !in conflicts))
    && forall k | k in conflicts :: k in done && k !in active
  }

  /** What one candidate's transaction leaves. */
  ghost predicate OneDone(rows: Destinations, active: set<int>, id: int, now: int, offset: int, conflict: bool,
                          t: Destinations, jobs: set<int>)
    requires id in rows
  {
    if conflict then id !in active && t == rows && jobs == active
    else
      && t == rows[id := rows[id].(next := NextAudit(rows[id].slot, now, offset))]
      && t[id].next.Some? && t[id].next.value > now
      && forall k :: k in jobs <==> k in active || k == id
  }

  function Tallied(s: Summary, conflict: bool, busy: bool): Summary {
    if conflict then s.(conflicts := s.conflicts + 1)
    else if busy then s.(skippedActive := s.skippedActive + 1) else s.(queued := s.queued + 1)
  }

  /** One candidate. */
  method DispatchOne(table: Table, id: int, now: int, offset: int, s: Summary)
    returns (r: Option<Summary>, ghost conflict: bool)
    requires id in table.rows && Due(table.rows[id], now) && ValidSlots(table.rows)
    modifies table
    ensures ValidSlots(table.rows) && table.rows.Keys == old(table.rows).Keys
    ensures r.None? ==> table.rows == old(table.rows) && table.active == old(table.active)
    ensures r.Some? ==>
      && OneDone(old(table.rows), old(table.active), id, now, offset, conflict, table.rows, table.active)
      && r.value == Tallied(s, conflict, id in old(table.active))
  {
    conflict := false;
    var row := table.rows[id];
    var next := NextAudit(row.slot, now, offset);
    if next.None? { return None, false; }
    NextAuditIsLeast(row.slot, now, offset);
    table.rows := table.rows[id := row.(next := next)];
    if id in table.active { return Some(s.(skippedActive := s.skippedActive + 1)), false; }
    var e := table.Enqueue(id);
    if e.Enqueued? { return Some(s.(queued := s.queued + 1)), false; }
    table.rows := table.rows[id := row];
    assert table.rows == old(table.rows);
    if e.OtherError? { return None, false; }
    return Some(s.(conflicts := s.conflicts + 1)), true;
  }

  lemma BusyNext(ids: seq<int>, id: int, active: set<int>)
    ensures Busy(ids + [id], active) == Busy(ids, active) + if id in active then 1 else 0
  {
    assert (ids + [id])[..|ids + [id]| - 1] == ids;
  }

  /** The counters after the destinations `done`. */
  ghost predicate Counted(done: seq<int>, active: set<int>, conflicts: set<int>, start: Summary, s: Summary) {
    && s.initialized == start.initialized && s.due == start.due
    && s.conflicts == |conflicts| && s.skippedActive == Busy(done, active)
    && s.queued + s.skippedActive + s.conflicts == |done|
  }

  lemma DispatchedNext(rows: Destinations, active: set<int>, done: seq<int>, conflicts: set<int>, now: int, offset: int,
                       t: Destinations, jobs: set<int>, id: int, conflict: bool, t': Destinations, jobs': set<int>)
    requires Dispatched(rows, active, done, conflicts, now, offset, t, jobs)
    requires id in rows && id !in done && OneDone(t, jobs, id, now, offset, conflict, t', jobs')
    ensures var after := if conflict then conflicts + {id} else conflicts;
      && Dispatched(rows, active, done + [id], after, now, offset, t', jobs')
      && |after| == |conflicts| + if conflict then 1 else 0
    ensures id in jobs <==> id in active
  {
  }

  lemma NothingDispatched(rows: Destinations, active: set<int>, now: int, offset: int)
    ensures Dispatched(rows, active, [], {}, now, offset, rows, active)
  {
  }

  /** The tables and the counters after the destinations `done`. */
  ghost predicate LoopAt(rows: Destinations, active: set<int>, done: seq<int>, conflicts: set<int>, now: int,
                         offset: int, t: Destinations, jobs: set<int>, start: Summary, s: Summary) {
    Dispatched(rows, active, done, conflicts, now, offset, t, jobs) && Counted(done, active, conflicts, start, s)
  }

  lemma LoopNext(rows: Destinations, active: set<int>, done: seq<int>, conflicts: set<int>, now: int, offset: int,
                 t: Destinations, jobs: set<int>, start: Summary, s: Summary, id: int, conflict: bool,
                 t': Destinations, jobs': set<int>)
    requires LoopAt(rows, active, done, conflicts, now, offset, t, jobs, start, s)
    requires id in rows && id !in done && OneDone(t, jobs, id, now, offset, conflict, t', jobs')
    ensures var after := if conflict then conflicts + {id} else conflicts;
      LoopAt(rows, active, done + [id], after, now, offset, t', jobs', start, Tallied(s, conflict, id in jobs))
  {
    BusyNext(done, id, active);
    DispatchedNext(rows, active, done, conflicts, now, offset, t, jobs, id, conflict, t', jobs');
  }

  lemma StillDue(rows: Destinations, active: set<int>, done: seq<int>, conflicts: set<int>, now: int, offset: int,
                 t: Destinations, jobs: set<int>, id: int)
    requires Dispatched(rows, active, done, conflicts, now, offset, t, jobs)
    requires id in rows && id !in done && Due(rows[id], now)
    ensures id in t && Due(t[id], now)
  {
  }

  /** The dispatch loop; None stands for an exception that ends it. */
  method DispatchAll(table: Table, ids: seq<int>, now: int, offset: int, start: Summary)
    returns (r: Option<Summary>, ghost done: seq<int>, ghost conflicts: set<int>)
    requires Distinct(ids) && ValidSlots(table.rows)
    requires forall k | k in ids :: k in table.rows && Due(table.rows[k], now)
    requires start.queued == start.skippedActive == start.conflicts == 0
    modifies table
    ensures done <= ids && (r.Some? ==> done == ids)
    ensures Dispatched(old(table.rows), old(table.active), done, conflicts, now, offset, table.rows, table.active)
    ensures r.Some? ==> Counted(done, old(table.active), conflicts, start, r.value)
  {
    done, conflicts := [], {};
    ghost var rows0, active0 := table.rows, table.active;
    var s := start;
    NothingDispatched(rows0, active0, now, offset);
    for n := 0 to |ids|
      invariant ValidSlots(table.rows) && done == ids[..n]
      invariant LoopAt(rows0, active0, done, conflicts, now, offset, table.rows, table.active, start, s)
    {
      var id := ids[n];
      assert id in ids;
      OneMore(ids, n);
      StillDue(rows0, active0, done, conflicts, now, offset, table.rows, table.active, id);
      ghost var t, jobs, conflict := table.rows, table.active, false;
      r, conflict := DispatchOne(table, id, now, offset, s);
      if r.None? { return r, done, conflicts; }
      LoopNext(rows0, active0, done, conflicts, now, offset, t, jobs, start, s, id, conflict, table.rows, table.active);
      done := done + [id];
      if conflict { conflicts := conflicts + {id}; }
      s := r.value;
    }
    assert ids[..|ids|] == ids;
    return Some(s), done, conflicts;
  }

  /** dispatch_due_ftp_audits; None stands for an exception that ends the tick. */
  method DispatchDueAudits(table: Table, now: int, limit: int, offset: int)
    returns (r: Option<Summary>, ghost selected: Destinations, ghost done: seq<int>, ghost conflicts: set<int>)
    requires ValidSlots(table.rows)
    modifies table
    ensures limit <= 0 ==> r.None? && table.rows == old(table.rows) && table.active == old(table.active)
    ensures limit > 0 ==> Dispatched(selected, old(table.active), done, conflicts, now, offset, table.rows,
                                     table.active)
    ensures r.Some? ==>
      && selected.Keys == old(table.rows).Keys
      && (forall k | k in selected :: selected[k] == Initialized(old(table.rows)[k], now, offset))
      && Earliest(selected, done, now, limit)
      && r.value.due == |done| == r.value.queued + r.value.skippedActive + r.value.conflicts
      && r.value.conflicts == |conflicts| && r.value.skippedActive == Busy(done, old(table.active))
  {
    done, conflicts := [], {};
    if limit <= 0 { return None, table.rows, done, conflicts; }
    var initialized := InitializeSchedules(table, now, offset);
    selected := table.rows;
    if initialized.None? { return None, selected, done, conflicts; }
    var ids := table.EarliestDue(now, limit);
    if ids.None? { return None, selected, done, conflicts; }
    assert Distinct(ids.value) by {
      forall i, j | 0 <= i < j < |ids.value| ensures ids.value[i] != ids.value[j] {
        assert Precedes(table.rows, ids.value[i], ids.value[j]);
      }
    }
    var s := Summary(initialized.value, |ids.value|, 0, 0, 0);
    r, done, conflicts := DispatchAll(table, ids.value, now, offset, s);
  }

  /**
   * After a tick that left nobody out, a destination is due exactly if its transaction was rolled
   * back; every other destination that was due has an audit job and its next slot after now.
   */
  lemma NothingElseDue(rows: Destinations, active: set<int>, done: seq<int>, conflicts: set<int>, now: int,
                       limit: int, offset: int, t: Destinations, jobs: set<int>, k: int)
    requires Dispatched(rows, active, done, conflicts, now, offset, t, jobs)
    requires Earliest(rows, done, now, limit) && |done| < limit && k in t
    ensures Due(t[k], now) <==> k in conflicts
    ensures Due(rows[k], now) && k !in conflicts ==> k in jobs && t[k].next == NextAudit(rows[k].slot, now, offset)
  {
  }
}
