/**
 * The scheduler tick (services/dispatcher.py) and the one place that creates active runs
 * (services/queueing.py), on tables that other processes may change between the transactions.
 */
module Dispatcher {
  import opened Text
  import opened BackupLedger
  import opened Queries

  // ---- Rows ----

  datatype Policy = Policy(enabled: bool, maxRetries: nat, backoff: nat, rule: int)

  datatype TargetRow = TargetRow(
    enabled: bool, policy: Option<Policy>, nextRun: Option<int>, status: TargetStatus, failures: nat, succeeded: bool)

  datatype Run = Run(
    target: int, source: string, scheduledFor: Option<int>, dedupe: Option<string>, status: RunStatus, job: Option<int>)

  type Targets = map<int, TargetRow>
  type Runs = map<int, Run>

  predicate Active(run: Run) { run.status == Queued || run.status == Running }

  /** The two unique constraints of the run table. */
  predicate Clash(a: Run, b: Run) {
    a.target == b.target && ((Active(a) && Active(b)) || (a.dedupe.Some? && a.dedupe == b.dedupe))
  }

  /** At most one active run per target, and one run per target and dedupe key. */
  predicate Consistent(runs: Runs) {
    forall j, k | j in runs && k in runs && j != k :: !Clash(runs[j], runs[k])
  }

  /** calculate_next_run(policy, after, now, target_key): None for a ValueError, else a time after now. */
  type Scheduler = f: (Policy, int, int, int) -> Option<int> | Advances(f) witness (p, after, now, key) => Some(now + 1)

  ghost predicate Advances(f: (Policy, int, int, int) -> Option<int>) {
    forall p, after, now, key :: f(p, after, now, key).Some? ==> f(p, after, now, key).value > now
  }

  datatype Rules = Rules(next: Scheduler, iso: int -> string)

  predicate Due(t: TargetRow, now: int) {
    t.enabled && t.policy.Some? && t.policy.value.enabled && t.nextRun.Some? && t.nextRun.value <= now
  }

  function Source(t: TargetRow): string
    requires t.policy.Some?
  {
    if t.status == Failed && t.policy.value.enabled && t.policy.value.backoff > 0 &&
      0 < t.failures <= t.policy.value.maxRetries
    then "retry" else "scheduled"
  }

  function Key(t: TargetRow, rules: Rules): string
    requires t.policy.Some? && t.nextRun.Some?
  {
    Source(t) + ":" + rules.iso(t.nextRun.value)
  }

  /** The key tells retries from scheduled runs and one due time from another, and nothing else. */
  lemma KeysApart(t: TargetRow, u: TargetRow, rules: Rules)
    requires t.policy.Some? && t.nextRun.Some? && u.policy.Some? && u.nextRun.Some?
    requires forall a, b :: rules.iso(a) == rules.iso(b) ==> a == b
    ensures Key(t, rules) == Key(u, rules) <==> Source(t) == Source(u) && t.nextRun == u.nextRun
  {
    var k, l := Key(t, rules), Key(u, rules);
    assert k[0] == Source(t)[0] && l[0] == Source(u)[0] && "retry"[0] == 'r' && "scheduled"[0] == 's';
    var a, b := rules.iso(t.nextRun.value), rules.iso(u.nextRun.value);
    if Source(t) == Source(u) {
      var front := Source(t) + ":";
      assert k == front + a && l == front + b && k[|front|..] == a && l[|front|..] == b;
      assert k == l ==> a == b;
      assert a == b ==> t.nextRun.value == u.nextRun.value;
      assert a == b ==> k == l;
    } else {
      assert k[0] != l[0];
    }
  }

  function Planned(t: TargetRow, id: int, rules: Rules, job: Option<int>): Run
    requires t.policy.Some? && t.nextRun.Some?
  {
    Run(id, Source(t), t.nextRun, Some(Key(t, rules)), Queued, job)
  }

  function Advanced(t: TargetRow, id: int, now: int, rules: Rules): TargetRow
    requires t.policy.Some? && t.nextRun.Some?
  {
    t.(nextRun := rules.next(t.policy.value, t.nextRun.value, now, id))
  }

  predicate Busy(runs: Runs, id: int) { exists k :: k in runs && runs[k].target == id && Active(runs[k]) }

  predicate KeyUsed(runs: Runs, id: int, key: string) {
    exists k :: k in runs && runs[k].target == id && runs[k].dedupe == Some(key)
  }

  predicate Earliest(targets: Targets, ids: seq<int>, now: int, limit: nat) {
    && |ids| <= limit && Distinct(ids)
    && (forall k | k in ids :: k in targets && Due(targets[k], now))
    && (forall i, j | 0 <= i < j < |ids| :: targets[ids[i]].nextRun.value <= targets[ids[j]].nextRun.value)
    && forall k | k in targets && k !in ids && Due(targets[k], now) ::
         |ids| == limit && forall i | 0 <= i < |ids| :: targets[ids[i]].nextRun.value <= targets[k].nextRun.value
  }

  // ---- The tables, and other processes ----

  datatype EnqueueResult = Created(pk: int) | IntegrityError | OtherError

  class Database {
    var targets: Targets
    var runs: Runs
    /** No other process writes while we run. */
    const quiet: bool

    /** Anything other processes may commit, while the row `locked` is locked. */
    method Others(locked: Option<int>)
      requires Consistent(runs)
      modifies this
      ensures Consistent(runs) && (quiet ==> targets == old(targets) && runs == old(runs))
      ensures locked.Some? && locked.value in old(targets) ==>
        locked.value in targets && targets[locked.value] == old(targets)[locked.value]
    {
      if quiet { return; }
      var newTargets: Targets, newRuns: Runs := *, *;
      if locked.Some? && locked.value in targets {
        newTargets := newTargets[locked.value := targets[locked.value]];
      }
      targets := newTargets;
      if Consistent(newRuns) { runs := newRuns; }
    }

    /** The due targets, earliest first, cut off at the limit, if the query is answered. */
    method EarliestDue(now: int, limit: nat) returns (r: Option<seq<int>>)
      ensures r.Some? ==> Earliest(targets, r.value, now, limit)
    {
      var ids: seq<int> := *;
      return if Earliest(targets, ids, now, limit) then Some(ids) else None;
    }

    /** enqueue_backup_run: the run is created with its job, or nothing is. */
    method EnqueueBackupRun(run: Run) returns (r: EnqueueResult)
      requires Consistent(runs) && run.status == Queued
      modifies this`runs
      ensures Consistent(runs)
      ensures match r
        case Created(pk) =>
          && !Busy(old(runs), run.target) && (run.dedupe.Some? ==> !KeyUsed(old(runs), run.target, run.dedupe.value))
          && pk !in old(runs) && exists job :: runs == old(runs)[pk := run.(job := Some(job))]
        case IntegrityError =>
          && runs == old(runs)
          && (Busy(runs, run.target) || (run.dedupe.Some? && KeyUsed(runs, run.target, run.dedupe.value)))
        case OtherError => runs == old(runs)
    {
      if exists k :: k in runs && Clash(runs[k], run) { return IntegrityError; }
      var works, pk, job: int := *, *, *;
      if !works || pk in runs { return OtherError; }
      runs := runs[pk := run.(job := Some(job))];
      return Created(pk);
    }
  }

  // ---- One candidate's transaction ----

  datatype Outcome = IsQueued | IsActive | IsConflict | NotDue | Aborted

  /** What becomes of a due candidate. */
  function Fate(t: TargetRow, id: int, runs: Runs, rules: Rules): Outcome
    requires t.policy.Some? && t.nextRun.Some?
  {
    if Busy(runs, id) then IsActive else if KeyUsed(runs, id, Key(t, rules)) then IsConflict else IsQueued
  }

  /** What one candidate's transaction does to the tables. */
  ghost predicate Effect(o: Outcome, id: int, now: int, rules: Rules, t: Targets, r: Runs, t': Targets, r': Runs,
                         made: int) {
    && id in t && t'.Keys == t.Keys && (forall k | k in t && k != id :: t'[k] == t[k])
    && if o != IsQueued then t'[id] == t[id] && r' == r
       else
         && Due(t[id], now) && t'[id] == Advanced(t[id], id, now, rules)
         && t'[id].nextRun.Some? && t'[id].nextRun.value > now
         && made !in r && exists job :: r' == r[made := Planned(t[id], id, rules, Some(job))]
  }

  /**
   * The body of the dispatch loop: re-checks the locked row and then moves next_run_at and
   * creates the run together, or does neither. `seen` is the row as it was locked, `found` the
   * run table when that was decided.
   */
  method DispatchOne(db: Database, id: int, now: int, rules: Rules)
    returns (o: Outcome, ghost seen: Option<TargetRow>, ghost found: Runs, ghost made: int)
    requires Consistent(db.runs)
    modifies db
    ensures Consistent(db.runs)
    ensures seen.None? <==> id !in db.targets
    ensures seen.None? ==> o == Aborted
    ensures seen.Some? && o.IsQueued? ==>
      && Due(seen.value, now) && !Busy(found, id) && !KeyUsed(found, id, Key(seen.value, rules))
      && db.targets[id] == Advanced(seen.value, id, now, rules)
      && db.targets[id].nextRun.Some? && db.targets[id].nextRun.value > now
      && made !in found && exists job :: db.runs == found[made := Planned(seen.value, id, rules, Some(job))]
    ensures seen.Some? && !o.IsQueued? ==> db.targets[id] == seen.value && db.runs == found
    ensures seen.Some? && o.IsActive? ==> Due(seen.value, now) && Busy(found, id)
    ensures o.NotDue? <==> seen.Some? && !Due(seen.value, now)
    ensures o.IsConflict? ==> Due(seen.value, now) && (Busy(found, id) || KeyUsed(found, id, Key(seen.value, rules)))
    ensures db.quiet ==>
      && found == old(db.runs) && (id in old(db.targets) <==> seen.Some?) && db.targets.Keys == old(db.targets).Keys
      && (seen.Some? ==>
          && seen.value == old(db.targets)[id]
          && Effect(o, id, now, rules, old(db.targets), old(db.runs), db.targets, db.runs, made)
          && (Due(seen.value, now) && o != Aborted ==> o == Fate(seen.value, id, found, rules)))
  {
    made := 0;
    db.Others(None);
    found := db.runs;
    if id !in db.targets { return Aborted, None, found, 0; }
    var row := db.targets[id];
    seen := Some(row);
    if !Due(row, now) { return NotDue, seen, found, 0; }
    if Busy(db.runs, id) { return IsActive, seen, found, 0; }
    var next := rules.next(row.policy.value, row.nextRun.value, now, id);
    if next.None? { return Aborted, seen, found, 0; }
    db.targets := db.targets[id := row.(nextRun := next)];
    db.Others(Some(id));
    found := db.runs;
    var run := Planned(row, id, rules, None);
    var r := db.EnqueueBackupRun(run);
    match r
    case Created(pk) =>
      made := pk;
      o := IsQueued;
    case IntegrityError =>
      db.targets := db.targets[id := row];
      o := IsConflict;
    case OtherError =>
      db.targets := db.targets[id := row];
      o := Aborted;
  }

  // ---- initialize_target_schedules ----

  predicate Inactive(t: TargetRow) { !t.enabled || t.policy.None? || !t.policy.value.enabled }

  function Cleared(targets: Targets): Targets {
    map k | k in targets :: if Inactive(targets[k]) then targets[k].(nextRun := None) else targets[k]
  }

  /** apply_target_schedule, for an active target. */
  function Scheduled(t: TargetRow, id: int, now: int, rules: Rules): TargetRow
    requires !Inactive(t)
  {
    var status := if t.status != Disabled then t.status
      else if t.failures > 0 then Failed else if t.succeeded then Healthy else Never;
    t.(nextRun := rules.next(t.policy.value, now, now, id), status := status)
  }

  function Unscheduled(targets: Targets): set<int> {
    set k | k in targets && !Inactive(targets[k]) && targets[k].nextRun.None?
  }

  /** The target table after the schedules have been initialized. */
  function Initialized(targets: Targets, now: int, rules: Rules): (r: Targets)
    ensures r.Keys == targets.Keys
  {
    map k | k in targets :: if Inactive(targets[k]) then targets[k].(nextRun := None)
      else if targets[k].nextRun.None? then Scheduled(targets[k], k, now, rules) else targets[k]
  }

  lemma InitializedBy(targets: Targets, t: Targets, now: int, rules: Rules)
    requires t.Keys == targets.Keys
    requires forall k | k in Unscheduled(Cleared(targets)) :: t[k] == Scheduled(Cleared(targets)[k], k, now, rules)
    requires forall k | k in targets && k !in Unscheduled(Cleared(targets)) :: t[k] == Cleared(targets)[k]
    ensures t == Initialized(targets, now, rules)
  {
    forall k | k in targets ensures t[k] == Initialized(targets, now, rules)[k] {
      assert k in Unscheduled(Cleared(targets)) <==> !Inactive(targets[k]) && targets[k].nextRun.None?;
    }
  }

  /** The rule of every active target without a time delivers one. */
  ghost predicate Schedulable(targets: Targets, now: int, rules: Rules) {
    forall k | k in targets && !Inactive(targets[k]) && targets[k].nextRun.None? ::
      rules.next(targets[k].policy.value, now, now, k).Some?
  }

  lemma SchedulableCleared(targets: Targets, now: int, rules: Rules)
    requires forall k | k in Unscheduled(Cleared(targets)) ::
      rules.next(Cleared(targets)[k].policy.value, now, now, k).Some?
    ensures Schedulable(targets, now, rules)
  {
    forall k | k in targets && !Inactive(targets[k]) && targets[k].nextRun.None?
      ensures rules.next(targets[k].policy.value, now, now, k).Some?
    {
      assert k in Unscheduled(Cleared(targets));
    }
  }

  method InitializeSchedules(db: Database, now: int, rules: Rules) returns (r: Option<nat>)
    modifies db`targets
    ensures r.Some? ==>
      db.targets == Initialized(old(db.targets), now, rules) && Schedulable(old(db.targets), now, rules)
  {
    db.targets := Cleared(db.targets);
    ghost var start := db.targets;
    var ids := Rows(Unscheduled(db.targets));
    if ids.None? { return None; }
    for i := 0 to |ids.value|
      invariant db.targets.Keys == start.Keys
      invariant forall k | k in ids.value[..i] ::
        && k in start && !Inactive(start[k]) && db.targets[k] == Scheduled(start[k], k, now, rules)
        && rules.next(start[k].policy.value, now, now, k).Some?
      invariant forall k | k in start && k !in ids.value[..i] :: db.targets[k] == start[k]
    {
      var id := ids.value[i];
      assert id in Unscheduled(start) && id !in ids.value[..i];
      if rules.next(db.targets[id].policy.value, now, now, id).None? { return None; }
      db.targets := db.targets[id := Scheduled(db.targets[id], id, now, rules)];
    }
    assert ids.value[..|ids.value|] == ids.value;
    InitializedBy(old(db.targets), db.targets, now, rules);
    SchedulableCleared(old(db.targets), now, rules);
    return Some(|ids.value|);
  }

  // ---- One tick, with nobody else writing ----

  /** The tables before a tick. */
  datatype Before = Before(targets: Targets, runs: Runs, now: int, rules: Rules) {
    ghost predicate Served(ids: seq<int>, id: int) {
      id in ids && id in targets && Due(targets[id], now) && Fate(targets[id], id, runs, rules) == IsQueued
    }

    /** The run was created for one of the candidates. */
    ghost predicate Created(ids: seq<int>, run: Run) {
      Served(ids, run.target) && run == Planned(targets[run.target], run.target, rules, run.job)
    }

    /** next_run_at has moved past now exactly for the candidates that got a run. */
    ghost predicate Moved(ids: seq<int>, t: Targets) {
      && t.Keys == targets.Keys
      && (forall id | id in targets && !Served(ids, id) :: t[id] == targets[id])
      && forall id | Served(ids, id) ::
           t[id] == Advanced(targets[id], id, now, rules) && t[id].nextRun.Some? && t[id].nextRun.value > now
    }

    /** The new runs are those of the candidates that got one. */
    ghost predicate Made(ids: seq<int>, r: Runs) {
      && (forall k | k in runs :: k in r && r[k] == runs[k])
      && (forall k | k in r && k !in runs :: Created(ids, r[k]))
      && (forall id | Served(ids, id) :: Busy(r, id))
      && ((forall id :: !Served(ids, id)) ==> r == runs)
    }

    /** The tables after the candidates `ids` have been dealt with. */
    ghost predicate Dispatched(ids: seq<int>, t: Targets, r: Runs) { Moved(ids, t) && Made(ids, r) }

    ghost function Count(ids: seq<int>, o: Outcome): nat {
      if ids == [] then 0
      else
        var id := ids[|ids| - 1];
        Count(ids[..|ids| - 1], o)
        + if id in targets && Due(targets[id], now) && Fate(targets[id], id, runs, rules) == o then 1 else 0
    }
  }

  datatype Summary = Summary(
    initialized: nat, due: nat, queued: nat, skippedActive: nat, conflicts: nat, noWorker: bool)

  /** The candidate's own rows are as they were before the tick. */
  lemma FateUnchanged(b: Before, ids: seq<int>, id: int, t: Targets, r: Runs)
    requires b.Dispatched(ids, t, r) && id !in ids && id in b.targets && Due(b.targets[id], b.now)
    ensures t[id] == b.targets[id] && Fate(t[id], id, r, b.rules) == Fate(b.targets[id], id, b.runs, b.rules)
  {
    var key := Key(b.targets[id], b.rules);
    assert !b.Served(ids, id);
    assert Busy(b.runs, id) <==> Busy(r, id);
    assert KeyUsed(b.runs, id, key) <==> KeyUsed(r, id, key);
  }

  lemma ServedNext(b: Before, ids: seq<int>, id: int)
    requires id !in ids && id in b.targets && Due(b.targets[id], b.now)
    ensures forall k | k != id :: b.Served(ids + [id], k) <==> b.Served(ids, k)
    ensures b.Served(ids + [id], id) <==> Fate(b.targets[id], id, b.runs, b.rules) == IsQueued
  {
  }

  lemma MovedNext(b: Before, ids: seq<int>, id: int, t: Targets, t': Targets)
    requires b.Moved(ids, t) && id !in ids && id in b.targets && Due(b.targets[id], b.now)
    requires t'.Keys == t.Keys && forall k | k in t && k != id :: t'[k] == t[k]
    requires if Fate(b.targets[id], id, b.runs, b.rules) == IsQueued
      then t'[id] == Advanced(t[id], id, b.now, b.rules) && t'[id].nextRun.Some? && t'[id].nextRun.value > b.now
      else t'[id] == t[id]
    ensures b.Moved(ids + [id], t')
  {
    ServedNext(b, ids, id);
    assert !b.Served(ids, id);
  }

  lemma MadeNext(b: Before, ids: seq<int>, id: int, r: Runs, r': Runs, made: int)
    requires b.Made(ids, r) && id !in ids && id in b.targets && Due(b.targets[id], b.now)
    requires if Fate(b.targets[id], id, b.runs, b.rules) == IsQueued
      then made !in r && exists job :: r' == r[made := Planned(b.targets[id], id, b.rules, Some(job))]
      else r' == r
    ensures b.Made(ids + [id], r')
  {
    ServedNext(b, ids, id);
    forall k | k in r' && k !in b.runs ensures b.Created(ids + [id], r'[k]) {
      if k in r { assert b.Created(ids, r[k]); }
    }
    forall k | b.Served(ids + [id], k) ensures Busy(r', k) {
      if k == id {
        assert r'[made].target == k;
      } else {
        assert b.Served(ids, k);
        var j :| j in r && r[j].target == k && Active(r[j]);
        assert r'[j] == r[j];
      }
    }
  }

  lemma CountNext(b: Before, ids: seq<int>, id: int, o: Outcome)
    requires id in b.targets && Due(b.targets[id], b.now)
    ensures b.Count(ids + [id], o) == b.Count(ids, o) + if Fate(b.targets[id], id, b.runs, b.rules) == o then 1 else 0
  {
    assert (ids + [id])[..|ids + [id]| - 1] == ids;
  }

  lemma NothingYet(b: Before)
    ensures b.Dispatched([], b.targets, b.runs)
  {
  }

  datatype Workers = Live | NoneLive | Unknown

  /** The counters after the candidates `done`. */
  ghost predicate Counted(b: Before, done: seq<int>, s: Summary) {
    s.queued == b.Count(done, IsQueued) && s.skippedActive == b.Count(done, IsActive) &&
      s.conflicts == b.Count(done, IsConflict)
  }

  function Tallied(s: Summary, o: Outcome): Summary {
    match o
    case IsQueued => s.(queued := s.queued + 1)
    case IsActive => s.(skippedActive := s.skippedActive + 1)
    case IsConflict => s.(conflicts := s.conflicts + 1)
    case _ => s
  }

  ghost predicate TickAt(b: Before, done: seq<int>, t: Targets, r: Runs, s: Summary) {
    b.Dispatched(done, t, r) && Counted(b, done, s)
  }

  lemma DispatchedNext(b: Before, ids: seq<int>, id: int, t: Targets, r: Runs, t': Targets, r': Runs, o: Outcome,
                       made: int)
    requires b.Dispatched(ids, t, r) && id !in ids && id in b.targets && Due(b.targets[id], b.now)
    requires t[id] == b.targets[id] && o == Fate(b.targets[id], id, b.runs, b.rules)
    requires Effect(o, id, b.now, b.rules, t, r, t', r', made)
    ensures b.Dispatched(ids + [id], t', r')
  {
    MovedNext(b, ids, id, t, t');
    MadeNext(b, ids, id, r, r', made);
  }

  lemma DispatchedSame(b: Before, ids: seq<int>, id: int, t: Targets, r: Runs, t': Targets, r': Runs, made: int)
    requires b.Dispatched(ids, t, r) && Effect(Aborted, id, b.now, b.rules, t, r, t', r', made)
    ensures b.Dispatched(ids, t', r')
  {
    forall k | k in t ensures t'[k] == t[k] {}
  }

  lemma CountedNext(b: Before, ids: seq<int>, id: int, s: Summary, o: Outcome)
    requires Counted(b, ids, s) && id in b.targets && Due(b.targets[id], b.now)
    requires o == Fate(b.targets[id], id, b.runs, b.rules)
    ensures Counted(b, ids + [id], Tallied(s, o))
  {
    CountNext(b, ids, id, IsQueued);
    CountNext(b, ids, id, IsActive);
    CountNext(b, ids, id, IsConflict);
  }

  /** One more candidate, with nobody else writing. */
  lemma TickNext(b: Before, ids: seq<int>, id: int, t: Targets, r: Runs, s: Summary, t': Targets, r': Runs,
                 o: Outcome, made: int)
    requires TickAt(b, ids, t, r, s) && id !in ids && id in b.targets && Due(b.targets[id], b.now)
    requires Due(t[id], b.now) ==> o == Fate(t[id], id, r, b.rules)
    requires Effect(o, id, b.now, b.rules, t, r, t', r', made)
    ensures TickAt(b, ids + [id], t', r', Tallied(s, o)) && !o.NotDue?
  {
    FateUnchanged(b, ids, id, t, r);
    DispatchedNext(b, ids, id, t, r, t', r', o, made);
    CountedNext(b, ids, id, s, o);
  }

  /** The dispatch loop; `done` are the candidates dealt with, `gone` counts those that were no longer due. */
  method DispatchAll(db: Database, ids: seq<int>, now: int, rules: Rules, start: Summary, ghost b: Before)
    returns (r: Option<Summary>, ghost done: seq<int>, ghost gone: nat)
    requires Consistent(db.runs) && Distinct(ids)
    requires start.queued == start.skippedActive == start.conflicts == 0
    requires db.quiet ==>
      && b.Dispatched([], db.targets, db.runs) && b.now == now && b.rules == rules
      && forall id | id in ids :: id in b.targets && Due(b.targets[id], now)
    modifies db
    ensures Consistent(db.runs) && done <= ids
    ensures r.Some? ==>
      && done == ids && r.value.due == start.due && r.value.initialized == start.initialized
      && |ids| == r.value.queued + r.value.skippedActive + r.value.conflicts + gone
    ensures db.quiet ==> b.Dispatched(done, db.targets, db.runs) && gone == 0 && (r.Some? ==> Counted(b, done, r.value))
  {
    done, gone := [], 0;
    var s := start;
    for n := 0 to |ids|
      invariant Consistent(db.runs) && done == ids[..n]
      invariant s.due == start.due && s.initialized == start.initialized
      invariant n == s.queued + s.skippedActive + s.conflicts + gone
      invariant db.quiet ==> TickAt(b, done, db.targets, db.runs, s) && gone == 0
    {
      ghost var t0, r0 := db.targets, db.runs;
      var id := ids[n];
      assert id !in done && id in ids && ids[..n + 1] == done + [id];
      var o, seen, found, made := DispatchOne(db, id, now, rules);
      if o == Aborted {
        if db.quiet { DispatchedSame(b, done, id, t0, r0, db.targets, db.runs, made); }
        return None, done, gone;
      }
      if db.quiet { TickNext(b, done, id, t0, r0, s, db.targets, db.runs, o, made); }
      done := done + [id];
      s := Tallied(s, o);
      if o == NotDue { gone := gone + 1; }
    }
    assert ids[..|ids|] == ids;
    return Some(s), done, gone;
  }

  /**
   * dispatch_due_targets; None stands for an exception that ends the tick, and `b` is the state in
   * which the candidates were selected.
   */
  method DispatchDueTargets(db: Database, now: int, limit: nat, rules: Rules, workers: Workers)
    returns (r: Option<Summary>, ghost b: Before, ghost done: seq<int>, ghost gone: nat)
    requires Consistent(db.runs)
    modifies db
    ensures Consistent(db.runs)
    ensures r.Some? && workers.Live? ==>
      r.value.due == |done| == r.value.queued + r.value.skippedActive + r.value.conflicts + gone
    ensures r.Some? && !workers.Live? ==>
      done == [] && r.value.queued == r.value.skippedActive == r.value.conflicts == 0
    ensures db.quiet ==> b.Dispatched(done, db.targets, db.runs) && b.runs == old(db.runs)
    ensures db.quiet && r.Some? ==>
      && gone == 0 && Counted(b, done, r.value)
      && b == Before(Initialized(old(db.targets), now, rules), old(db.runs), now, rules)
      && Schedulable(old(db.targets), now, rules)
      && (workers.Live? ==> Earliest(b.targets, done, now, limit))
  {
    done, gone := [], 0;
    var initialized := InitializeSchedules(db, now, rules);
    b := Before(db.targets, db.runs, now, rules);
    NothingYet(b);
    if initialized.None? { return None, b, done, gone; }
    var candidates := db.EarliestDue(now, limit);
    if candidates.None? { return None, b, done, gone; }
    var s := Summary(initialized.value, |candidates.value|, 0, 0, 0, false);
    if candidates.value == [] { return Some(s), b, done, gone; }
    if !workers.Live? { return Some(s.(noWorker := true)), b, done, gone; }
    r, done, gone := DispatchAll(db, candidates.value, now, rules, s, b);
  }

  // ---- Ticks after each other ----

  /** No due target could get a run. */
  ghost predicate Settled(targets: Targets, runs: Runs, now: int, rules: Rules) {
    forall id | id in targets && Due(targets[id], now) :: Fate(targets[id], id, runs, rules) != IsQueued
  }

  /** A target that was served is not due again; the others keep their row and their fate. */
  lemma AfterTick(b: Before, ids: seq<int>, t: Targets, r: Runs, id: int)
    requires b.Dispatched(ids, t, r) && id in b.targets
    ensures b.Served(ids, id) ==> !Due(t[id], b.now) && Busy(r, id)
    ensures !b.Served(ids, id) ==>
      t[id] == b.targets[id]
      && (Due(t[id], b.now) ==> Fate(t[id], id, r, b.rules) == Fate(b.targets[id], id, b.runs, b.rules))
  {
    if !b.Served(ids, id) && Due(t[id], b.now) {
      var key := Key(b.targets[id], b.rules);
      assert Busy(b.runs, id) <==> Busy(r, id);
      assert KeyUsed(b.runs, id, key) <==> KeyUsed(r, id, key);
    }
  }

  /** A tick whose limit leaves nobody out settles everything due at its time. */
  lemma TickSettles(b: Before, ids: seq<int>, t: Targets, r: Runs, limit: nat)
    requires b.Dispatched(ids, t, r) && Earliest(b.targets, ids, b.now, limit) && |ids| < limit
    ensures Settled(t, r, b.now, b.rules)
  {
    forall id | id in t && Due(t[id], b.now) ensures Fate(t[id], id, r, b.rules) != IsQueued {
      AfterTick(b, ids, t, r, id);
    }
  }

  /** A tick over settled tables changes nothing. */
  lemma SettledTick(b: Before, ids: seq<int>, t: Targets, r: Runs)
    requires b.Dispatched(ids, t, r) && Settled(b.targets, b.runs, b.now, b.rules)
    ensures t == b.targets && r == b.runs && b.Count(ids, IsQueued) == 0
  {
    forall id ensures !b.Served(ids, id) {}
    forall k | k in t ensures t[k] == b.targets[k] {}
    NoneCounted(b, ids);
  }

  lemma {:induction false} NoneCounted(b: Before, ids: seq<int>)
    requires Settled(b.targets, b.runs, b.now, b.rules)
    ensures b.Count(ids, IsQueued) == 0
  {
    if ids != [] { NoneCounted(b, ids[..|ids| - 1]); }
  }

  /** Initializing the schedules again changes nothing. */
  lemma InitializedStays(b: Before, ids: seq<int>, t: Targets, r: Runs, targets: Targets)
    requires b.targets == Initialized(targets, b.now, b.rules) && b.Dispatched(ids, t, r)
    requires Schedulable(targets, b.now, b.rules)
    ensures Initialized(t, b.now, b.rules) == t
  {
    forall k | k in t ensures Initialized(t, b.now, b.rules)[k] == t[k] {
      AfterTick(b, ids, t, r, k);
    }
  }

  /** A second tick over the tables that a tick below its limit has left. */
  lemma TickAgain(b: Before, ids: seq<int>, t: Targets, r: Runs, targets: Targets, limit: nat, again: Before,
                  more: seq<int>, t': Targets, r': Runs)
    requires b.targets == Initialized(targets, b.now, b.rules) && Schedulable(targets, b.now, b.rules)
    requires b.Dispatched(ids, t, r) && Earliest(b.targets, ids, b.now, limit) && |ids| < limit
    requires again == Before(Initialized(t, b.now, b.rules), r, b.now, b.rules) && again.Dispatched(more, t', r')
    ensures t' == t && r' == r && again.Count(more, IsQueued) == 0
  {
    InitializedStays(b, ids, t, r, targets);
    TickSettles(b, ids, t, r, limit);
    SettledTick(again, more, t', r');
  }

  /**
   * Two ticks at one time, with nobody else writing: if the limit of the first left nobody out,
   * the second queues nothing and leaves both tables as the first has left them.
   */
  method TickTwice(db: Database, now: int, limit: nat, rules: Rules, workers: Workers)
    returns (first: Option<Summary>, second: Option<Summary>, ghost b: Before, ghost done: seq<int>, ghost t: Targets,
             ghost r: Runs)
    requires Consistent(db.runs) && db.quiet
    modifies db
    ensures first.Some? ==>
      && b == Before(Initialized(old(db.targets), now, rules), old(db.runs), now, rules)
      && b.Dispatched(done, t, r) && Earliest(b.targets, done, now, limit) && first.value.due == |done|
    ensures first.Some? && second.Some? && first.value.due < limit ==>
      second.value.queued == 0 && db.targets == t && db.runs == r
  {
    ghost var gone;
    first, b, done, gone := DispatchDueTargets(db, now, limit, rules, Live);
    t, r, second := db.targets, db.runs, None;
    if first.None? { return; }
    ghost var again, more;
    second, again, more, gone := DispatchDueTargets(db, now, limit, rules, workers);
    if second.Some? && first.value.due < limit {
      TickAgain(b, done, t, r, old(db.targets), limit, again, more, db.targets, db.runs);
    }
  }
}
