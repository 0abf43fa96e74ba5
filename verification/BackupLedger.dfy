/**
 * What the repository's transactions do to one backup target (services/django_repository.py),
 * as functions on the rows, and what holds over every history of such transactions.
 */
module BackupLedger {
  import opened Text

  datatype StoreMode = ChangedOnly | EverySuccess

  datatype TargetStatus = Never | Healthy | Failed | Stale | Disabled

  datatype RunStatus = Queued | Running | SuccessChanged | SuccessUnchanged | Partial | RunFailed | RunErrored | Skipped

  datatype ArtifactRow = ArtifactRow(
    artifactType: string, key: string, size: nat, rawHash: string, normalizedHash: string, primary: bool)

  datatype RevisionRow = RevisionRow(
    pk: int, created: int, hash: string, contentChanged: bool, previous: Option<int>, artifacts: seq<ArtifactRow>)

  datatype EventKind = BackupFailed | BackupStuck | TargetStale | BackupRecovered

  /** The target row, its revisions in order of commit, and the events queued so far. */
  datatype Ledger = Ledger(
    revisions: seq<RevisionRow>, lastRevision: Option<int>, status: TargetStatus, failures: nat, succeeded: bool,
    events: seq<EventKind>)

  const Fresh: Ledger := Ledger([], None, Never, 0, false, [])

  /** order_by("-created").first(): the index of a row with the latest creation time. */
  function NewestIndex(rows: seq<RevisionRow>): (i: nat)
    requires rows != []
    ensures i < |rows| && forall k | 0 <= k < |rows| :: rows[k].created <= rows[i].created
  {
    if |rows| == 1 then 0
    else
      var i := NewestIndex(rows[..|rows| - 1]);
      if rows[i].created < rows[|rows| - 1].created then |rows| - 1 else i
  }

  function Newest(rows: seq<RevisionRow>): Option<RevisionRow> {
    if rows == [] then None else Some(rows[NewestIndex(rows)])
  }

  function Unhealthy(l: Ledger): bool { l.failures > 0 || l.status == Failed || l.status == Stale }

  /** _mark_target_success and the recovery event. */
  function Succeeded(l: Ledger, revision: Option<RevisionRow>): Ledger {
    l.(status := Healthy, failures := 0, succeeded := true,
       lastRevision := if revision.Some? then Some(revision.value.pk) else l.lastRevision,
       events := if Unhealthy(l) then l.events + [BackupRecovered] else l.events)
  }

  /** commit_unchanged */
  function Unchanged(l: Ledger): Ledger { Succeeded(l, Newest(l.revisions)) }

  function NewRow(l: Ledger, pk: int, created: int, hash: string, changed: bool,
                  artifacts: seq<ArtifactRow>): RevisionRow {
    var newest := Newest(l.revisions);
    RevisionRow(pk, created, hash, changed, if newest.Some? then Some(newest.value.pk) else None, artifacts)
  }

  /** commit_revision */
  function Committed(l: Ledger, row: RevisionRow): Ledger {
    Succeeded(l, Some(row)).(revisions := l.revisions + [row])
  }

  /** mark_failed; `every` is the notify_on_every_failure control. */
  function FailedOnce(l: Ledger, stuck: bool, every: bool): Ledger {
    l.(status := Failed, failures := l.failures + 1,
       events := if l.failures > 0 && !every then l.events
                 else l.events + [if stuck then BackupStuck else BackupFailed])
  }

  predicate Changed(l: Ledger, hash: string) {
    var newest := Newest(l.revisions); newest.None? || newest.value.hash != hash
  }

  /** A collection that normalizes to `hash`, as backup.py decides what to do with it. */
  function Collected(l: Ledger, mode: StoreMode, pk: int, created: int, hash: string,
                     artifacts: seq<ArtifactRow>): Ledger {
    var changed := Changed(l, hash);
    if !changed && mode == ChangedOnly then Unchanged(l)
    else Committed(l, NewRow(l, pk, created, hash, changed, artifacts))
  }

  // ---- Histories ----

  datatype Op =
    | Collect(mode: StoreMode, pk: int, created: int, hash: string, artifacts: seq<ArtifactRow>)
    | Fail(stuck: bool)
    | Refresh(enabled: bool, overdue: bool, told: bool)
    | SetEnabled(on: bool)

  /** The status of a target that is enabled, has no failure on record and is not overdue. */
  function Rested(l: Ledger): TargetStatus { if l.succeeded then Healthy else Never }

  /** The status that the health refresh of services/health.py gives a target. */
  function Refreshed(l: Ledger, enabled: bool, overdue: bool): TargetStatus {
    if !enabled then Disabled
    else if l.failures > 0 || l.status == Failed then Failed
    else if overdue then Stale else Rested(l)
  }

  /**
   * Refresh is the health refresh, which queues an event for a target newly stale unless the job is
   * lost before that (`told`); SetEnabled is the effect of a changed schedule.
   */
  function Apply(l: Ledger, op: Op, every: bool): Ledger {
    match op
    case Collect(mode, pk, created, hash, artifacts) => Collected(l, mode, pk, created, hash, artifacts)
    case Fail(stuck) => FailedOnce(l, stuck, every)
    case Refresh(enabled, overdue, told) =>
      var status := Refreshed(l, enabled, overdue);
      l.(status := status,
         events := if status == Stale && l.status != Stale && told then l.events + [TargetStale] else l.events)
    case SetEnabled(on) =>
      if !on then l.(status := Disabled)
      else if l.status != Disabled then l
      else l.(status := if l.failures > 0 then Failed else Rested(l))
  }

  function Replay(ops: seq<Op>, every: bool): Ledger {
    if ops == [] then Fresh else Apply(Replay(ops[..|ops| - 1], every), ops[|ops| - 1], every)
  }

  /** The time of the latest collection. */
  function LastTime(ops: seq<Op>): Option<int> {
    if ops == [] then None
    else if ops[|ops| - 1].Collect? then Some(ops[|ops| - 1].created)
    else LastTime(ops[..|ops| - 1])
  }

  /** Creation times increase from collection to collection. */
  ghost predicate ClockAdvances(ops: seq<Op>) {
    ops == [] ||
    (var before, op := ops[..|ops| - 1], ops[|ops| - 1];
     ClockAdvances(before)
     && (op.Collect? && LastTime(before).Some? ==> LastTime(before).value < op.created))
  }

  // ---- The revision chain ----

  ghost predicate Ordered(rows: seq<RevisionRow>) {
    forall i, j | 0 <= i < j < |rows| :: rows[i].created < rows[j].created
  }

  ghost predicate LinkedAt(rows: seq<RevisionRow>, i: nat)
    requires i < |rows|
  {
    rows[i].previous == if i == 0 then None else Some(rows[i - 1].pk)
  }

  ghost predicate Chained(rows: seq<RevisionRow>, last: Option<int>) {
    && (forall i | 0 <= i < |rows| :: LinkedAt(rows, i))
    && last == if rows == [] then None else Some(rows[|rows| - 1].pk)
  }

  lemma NewestIsLast(rows: seq<RevisionRow>)
    requires Ordered(rows) && rows != []
    ensures Newest(rows) == Some(rows[|rows| - 1])
  {
    assert rows[NewestIndex(rows)].created >= rows[|rows| - 1].created;
  }

  ghost predicate FlagsRight(rows: seq<RevisionRow>) {
    forall i | 0 <= i < |rows| :: FlagRight(rows, i)
  }

  ghost predicate FlagRight(rows: seq<RevisionRow>, i: nat)
    requires i < |rows|
  {
    rows[i].contentChanged <==> i == 0 || rows[i].hash != rows[i - 1].hash
  }

  ghost predicate WellLinked(l: Ledger) {
    Ordered(l.revisions) && Chained(l.revisions, l.lastRevision) && FlagsRight(l.revisions)
  }

  /** A row that points to the newest one extends the chain. */
  lemma LinkRow(rows: seq<RevisionRow>, last: Option<int>, row: RevisionRow)
    requires Ordered(rows) && Chained(rows, last)
    requires rows != [] ==> rows[|rows| - 1].created < row.created
    requires row.previous == last
    ensures Ordered(rows + [row]) && Chained(rows + [row], Some(row.pk))
  {
    var all := rows + [row];
    forall i, j | 0 <= i < j < |all| ensures all[i].created < all[j].created {
      if j == |rows| && i < |rows| - 1 { assert rows[i].created < rows[|rows| - 1].created; }
    }
    forall i | 0 <= i < |all| ensures LinkedAt(all, i) {
      if i < |rows| { assert LinkedAt(rows, i); }
    }
  }

  lemma FlagRow(rows: seq<RevisionRow>, row: RevisionRow)
    requires FlagsRight(rows) && (row.contentChanged <==> rows == [] || rows[|rows| - 1].hash != row.hash)
    ensures FlagsRight(rows + [row])
  {
    var all := rows + [row];
    forall i | 0 <= i < |all| ensures FlagRight(all, i) {
      if i < |rows| { assert FlagRight(rows, i); }
    }
  }

  lemma CollectKeepsLinks(l: Ledger, mode: StoreMode, pk: int, created: int, hash: string, artifacts: seq<ArtifactRow>)
    requires Ordered(l.revisions) && Chained(l.revisions, l.lastRevision)
    requires l.revisions != [] ==> l.revisions[|l.revisions| - 1].created < created
    ensures var m := Collected(l, mode, pk, created, hash, artifacts);
      Ordered(m.revisions) && Chained(m.revisions, m.lastRevision)
  {
    if l.revisions != [] { NewestIsLast(l.revisions); }
    LinkRow(l.revisions, l.lastRevision, NewRow(l, pk, created, hash, Changed(l, hash), artifacts));
  }

  /** One collection keeps the chain, provided the clock has moved on; the newest row then has its hash. */
  lemma CollectKeepsChain(l: Ledger, mode: StoreMode, pk: int, created: int, hash: string, artifacts: seq<ArtifactRow>)
    requires WellLinked(l) && (l.revisions != [] ==> l.revisions[|l.revisions| - 1].created < created)
    ensures var rows, same := l.revisions, l.revisions != [] && l.revisions[|l.revisions| - 1].hash == hash;
      var m := Collected(l, mode, pk, created, hash, artifacts);
      && WellLinked(m)
      && if same && mode == ChangedOnly then m.revisions == rows
         else m.revisions == rows + [NewRow(l, pk, created, hash, !same, artifacts)]
  {
    if l.revisions != [] { NewestIsLast(l.revisions); }
    CollectKeepsLinks(l, mode, pk, created, hash, artifacts);
    FlagRow(l.revisions, NewRow(l, pk, created, hash, Changed(l, hash), artifacts));
  }

  /** The hashes of the successful collections, in order. */
  function Successes(ops: seq<Op>): seq<string> {
    if ops == [] then []
    else if ops[|ops| - 1].Collect? then Successes(ops[..|ops| - 1]) + [ops[|ops| - 1].hash]
    else Successes(ops[..|ops| - 1])
  }

  ghost predicate UpToDate(rows: seq<RevisionRow>, time: Option<int>, all: seq<string>) {
    if rows == [] then all == []
    else
      && time.Some? && rows[|rows| - 1].created <= time.value
      && all != [] && rows[|rows| - 1].hash == all[|all| - 1]
  }

  lemma ChainStep(l: Ledger, op: Op, every: bool, time: Option<int>, all: seq<string>)
    requires WellLinked(l) && UpToDate(l.revisions, time, all)
    requires op.Collect? && time.Some? ==> time.value < op.created
    ensures WellLinked(Apply(l, op, every))
    ensures if op.Collect? then UpToDate(Apply(l, op, every).revisions, Some(op.created), all + [op.hash])
            else Apply(l, op, every).revisions == l.revisions
  {
    if op.Collect? {
      CollectKeepsChain(l, op.mode, op.pk, op.created, op.hash, op.artifacts);
    } else {
      assert Apply(l, op, every).revisions == l.revisions && Apply(l, op, every).lastRevision == l.lastRevision;
    }
  }

  /**
   * Over every history, each revision points to its immediate predecessor, the target points to
   * the newest, content_changed says exactly whether a revision differs from the one before, and
   * the newest revision holds the latest successful collection.
   */
  lemma {:induction false} ChainKept(ops: seq<Op>, every: bool)
    requires ClockAdvances(ops)
    ensures WellLinked(Replay(ops, every)) && UpToDate(Replay(ops, every).revisions, LastTime(ops), Successes(ops))
  {
    if ops != [] {
      var before, op := ops[..|ops| - 1], ops[|ops| - 1];
      ChainKept(before, every);
      ChainStep(Replay(before, every), op, every, LastTime(before), Successes(before));
    }
  }

  // ---- The history of collections ----

  function Hashes(rows: seq<RevisionRow>): seq<string> { seq(|rows|, i requires 0 <= i < |rows| => rows[i].hash) }

  /** The sequence without adjacent repetitions. */
  function Dedup(s: seq<string>): (d: seq<string>)
    ensures s != [] ==> d != [] && d[|d| - 1] == s[|s| - 1]
  {
    if |s| <= 1 then s
    else
      var d := Dedup(s[..|s| - 1]);
      if s[|s| - 2] == s[|s| - 1] then d else d + [s[|s| - 1]]
  }

  ghost predicate AllMode(ops: seq<Op>, mode: StoreMode) {
    forall i | 0 <= i < |ops| && ops[i].Collect? :: ops[i].mode == mode
  }

  lemma DedupGrows(s: seq<string>, h: string)
    ensures Dedup(s + [h]) == if s != [] && s[|s| - 1] == h then Dedup(s) else Dedup(s) + [h]
  {
    assert (s + [h])[..|s + [h]| - 1] == s;
  }

  /** One collection in changed_only mode, against the history so far. */
  lemma DedupStep(l: Ledger, all: seq<string>, pk: int, created: int, hash: string, artifacts: seq<ArtifactRow>)
    requires WellLinked(l) && (l.revisions != [] ==> l.revisions[|l.revisions| - 1].created < created)
    requires if l.revisions == [] then all == [] else all != [] && l.revisions[|l.revisions| - 1].hash == all[|all| - 1]
    requires Hashes(l.revisions) == Dedup(all)
    ensures Hashes(Collected(l, ChangedOnly, pk, created, hash, artifacts).revisions) == Dedup(all + [hash])
  {
    CollectKeepsChain(l, ChangedOnly, pk, created, hash, artifacts);
    DedupGrows(all, hash);
    var m := Collected(l, ChangedOnly, pk, created, hash, artifacts);
    if m.revisions != l.revisions { assert Hashes(m.revisions) == Hashes(l.revisions) + [hash]; }
  }

  lemma HistoryStep(l: Ledger, op: Op, every: bool, time: Option<int>, all: seq<string>)
    requires WellLinked(l) && UpToDate(l.revisions, time, all) && Hashes(l.revisions) == Dedup(all)
    requires op.Collect? ==> op.mode == ChangedOnly && (time.Some? ==> time.value < op.created)
    ensures Hashes(Apply(l, op, every).revisions) == Dedup(if op.Collect? then all + [op.hash] else all)
  {
    if op.Collect? {
      DedupStep(l, all, op.pk, op.created, op.hash, op.artifacts);
    } else {
      assert Apply(l, op, every).revisions == l.revisions;
    }
  }

  /** In changed_only mode the revisions are the successful collections without adjacent repetitions. */
  lemma {:induction false} ChangedOnlyHistory(ops: seq<Op>, every: bool)
    requires ClockAdvances(ops) && AllMode(ops, ChangedOnly)
    ensures Hashes(Replay(ops, every).revisions) == Dedup(Successes(ops))
  {
    if ops != [] {
      var before, op := ops[..|ops| - 1], ops[|ops| - 1];
      ChangedOnlyHistory(before, every);
      ChainKept(before, every);
      HistoryStep(Replay(before, every), op, every, LastTime(before), Successes(before));
    }
  }

  /** In the other mode every successful collection is a revision. */
  lemma {:induction false} EverySuccessHistory(ops: seq<Op>, every: bool)
    requires AllMode(ops, EverySuccess)
    ensures Hashes(Replay(ops, every).revisions) == Successes(ops)
  {
    if ops != [] {
      var before, op := ops[..|ops| - 1], ops[|ops| - 1];
      EverySuccessHistory(before, every);
      if op.Collect? {
        assert op.mode == EverySuccess;
        assert Hashes(Replay(ops, every).revisions) == Hashes(Replay(before, every).revisions) + [op.hash];
      }
    }
  }

  // ---- Incidents ----

  /** The failures since the last success. */
  function TrailingFailures(ops: seq<Op>): nat {
    if ops == [] then 0
    else match ops[|ops| - 1]
      case Collect(_, _, _, _, _) => 0
      case Fail(_) => TrailingFailures(ops[..|ops| - 1]) + 1
      case _ => TrailingFailures(ops[..|ops| - 1])
  }

  /** The number of unbroken stretches of failures. */
  function Incidents(ops: seq<Op>): nat {
    if ops == [] then 0
    else
      var before := ops[..|ops| - 1];
      Incidents(before) + if ops[|ops| - 1].Fail? && TrailingFailures(before) == 0 then 1 else 0
  }

  /** What the statuses say about the failures on record. */
  predicate Coherent(l: Ledger) { (l.status == Failed ==> l.failures > 0) && (l.status == Stale ==> l.failures == 0) }

  lemma {:induction false} FailuresCounted(ops: seq<Op>, every: bool)
    ensures var l := Replay(ops, every); l.failures == TrailingFailures(ops) && Coherent(l)
  {
    if ops != [] { FailuresCounted(ops[..|ops| - 1], every); }
  }

  predicate IsOpening(e: EventKind) { e != BackupRecovered }

  /** An opening event, a recovery, an opening event, and so on. */
  ghost predicate Alternates(events: seq<EventKind>) {
    forall i | 0 <= i < |events| :: IsOpening(events[i]) <==> i % 2 == 0
  }

  lemma AlternatesGrows(events: seq<EventKind>, e: EventKind)
    ensures Alternates(events + [e]) <==> Alternates(events) && (IsOpening(e) <==> |events| % 2 == 0)
  {
    var grown := events + [e];
    assert grown[|events|] == e;
    if Alternates(grown) {
      forall i | 0 <= i < |events| ensures IsOpening(events[i]) <==> i % 2 == 0 { assert grown[i] == events[i]; }
    }
  }

  // ---- Events and the target's health ----

  /** The operation queues an event for this target. */
  predicate Speaks(l: Ledger, op: Op, every: bool) { Apply(l, op, every).events != l.events }

  /** The target's health turns without an event, or an event is queued though it does not turn. */
  predicate Slips(l: Ledger, op: Op, every: bool) {
    (Unhealthy(Apply(l, op, every)) != Unhealthy(l)) != Speaks(l, op, every)
  }

  function SlipCount(ops: seq<Op>, every: bool): nat {
    if ops == [] then 0
    else
      var before := ops[..|ops| - 1];
      SlipCount(before, every) + if Slips(Replay(before, every), ops[|ops| - 1], every) then 1 else 0
  }

  /** If operation i queues an event, it does so after an even number of slips, its own included. */
  predicate PairedAt(ops: seq<Op>, every: bool, i: nat)
    requires i < |ops|
  {
    Speaks(Replay(ops[..i], every), ops[i], every) ==> SlipCount(ops[..i + 1], every) % 2 == 0
  }

  ghost predicate SlipsPaired(ops: seq<Op>, every: bool) { forall i | 0 <= i < |ops| :: PairedAt(ops, every, i) }

  lemma PairedGrows(before: seq<Op>, op: Op, every: bool)
    ensures SlipsPaired(before + [op], every) <==>
      SlipsPaired(before, every) && PairedAt(before + [op], every, |before|)
  {
    var all, n := before + [op], |before|;
    forall i | 0 <= i < n ensures PairedAt(all, every, i) <==> PairedAt(before, every, i) {
      assert all[i] == before[i] && all[..i] == before[..i] && all[..i + 1] == before[..i + 1];
    }
    if SlipsPaired(all, every) {
      forall i | 0 <= i < n ensures PairedAt(before, every, i) { assert PairedAt(all, every, i); }
    }
  }

  /** Which calls slip, from the row before the call. */
  lemma SlipsExactly(l: Ledger, op: Op, every: bool)
    requires Coherent(l)
    ensures Slips(l, op, every) <==>
      match op
      case Collect(_, _, _, _, _) => false
      case Fail(_) => l.status == Stale || (every && l.failures > 0)
      case Refresh(enabled, overdue, told) =>
        l.failures == 0 && if l.status == Stale then !enabled || !overdue else enabled && overdue && !told
      case SetEnabled(on) => !on && l.status == Stale
  {
  }

  /** A call queues at most one event: an opening one if the target is unhealthy after it. */
  lemma OneEvent(l: Ledger, op: Op, every: bool)
    requires Coherent(l)
    ensures var m, n := Apply(l, op, every), |l.events|;
      Speaks(l, op, every) ==>
        |m.events| == n + 1 && m.events == l.events + [m.events[n]] && (IsOpening(m.events[n]) <==> Unhealthy(m))
  {
  }

  predicate InStep(l: Ledger, slips: nat) { (|l.events| + slips) % 2 == if Unhealthy(l) then 1 else 0 }

  lemma StepInStep(l: Ledger, op: Op, every: bool, slips: nat)
    requires Coherent(l) && InStep(l, slips)
    ensures InStep(Apply(l, op, every), slips + if Slips(l, op, every) then 1 else 0)
  {
    OneEvent(l, op, every);
  }

  /** Events and slips together keep step with the turns of the target's health. */
  lemma {:induction false} EventsAndSlips(ops: seq<Op>, every: bool)
    ensures InStep(Replay(ops, every), SlipCount(ops, every))
  {
    if ops != [] {
      var before, op := ops[..|ops| - 1], ops[|ops| - 1];
      EventsAndSlips(before, every);
      FailuresCounted(before, every);
      StepInStep(Replay(before, every), op, every, SlipCount(before, every));
    }
  }

  /** An event is of the right kind exactly if the slips so far are even. */
  lemma EventInStep(l: Ledger, op: Op, every: bool, slips: nat)
    requires Coherent(l) && InStep(Apply(l, op, every), slips)
    ensures Alternates(Apply(l, op, every).events) <==>
      Alternates(l.events) && (Speaks(l, op, every) ==> slips % 2 == 0)
  {
    OneEvent(l, op, every);
    if Speaks(l, op, every) { AlternatesGrows(l.events, Apply(l, op, every).events[|l.events|]); }
  }

  /**
   * All events of a target alternate, an opening one (a failure or staleness) and a recovery, if and
   * only if the slips are paired. SlipsExactly says which calls slip.
   */
  lemma {:induction false} EventsAlternate(ops: seq<Op>, every: bool)
    ensures Alternates(Replay(ops, every).events) <==> SlipsPaired(ops, every)
  {
    if ops != [] {
      var before, op := ops[..|ops| - 1], ops[|ops| - 1];
      assert ops == before + [op];
      EventsAlternate(before, every);
      EventsAndSlips(ops, every);
      FailuresCounted(before, every);
      PairedGrows(before, op, every);
      assert ops[..|before|] == before && ops[..|before| + 1] == ops;
      EventInStep(Replay(before, every), op, every, SlipCount(ops, every));
    }
  }

  lemma TwoSteps(a: Op, b: Op, every: bool)
    ensures Replay([a, b], every) == Apply(Apply(Fresh, a, every), b, every)
  {
    var one, both := [a], [a, b];
    assert one[..|one| - 1] == [] && both[..|both| - 1] == one;
    assert Replay(one, every) == Apply(Replay([], every), a, every);
  }

  /** A target that is stale and then fails is reported twice before it can recover. */
  lemma StaleThenFailed(every: bool)
    ensures var ops := [Refresh(true, true, true), Fail(false)];
      Replay(ops, every).events == [TargetStale, BackupFailed] && !Alternates(Replay(ops, every).events)
  {
    TwoSteps(Refresh(true, true, true), Fail(false), every);
    var first := Apply(Fresh, Refresh(true, true, true), every);
    assert first.events == [] + [TargetStale];
    assert Apply(first, Fail(false), every).events == first.events + [BackupFailed];
    AlternatesGrows(first.events, BackupFailed);
    assert [] + [TargetStale] + [BackupFailed] == [TargetStale, BackupFailed];
  }

  // ---- Failures and recoveries alone ----

  /** The failure and recovery events among them. */
  function Spoken(events: seq<EventKind>): seq<EventKind> {
    if events == [] then []
    else Spoken(events[..|events| - 1]) + if events[|events| - 1] == TargetStale then [] else [events[|events| - 1]]
  }

  /** No target is collected from successfully while it is marked stale without a failure on record. */
  ghost predicate NoStaleRecovery(ops: seq<Op>, every: bool) {
    forall i | 0 <= i < |ops| && ops[i].Collect? :: Replay(ops[..i], every).status != Stale
  }

  lemma NoStaleStep(ops: seq<Op>, every: bool)
    requires ops != []
    ensures var before, op := ops[..|ops| - 1], ops[|ops| - 1];
      NoStaleRecovery(ops, every) <==>
        NoStaleRecovery(before, every) && (op.Collect? ==> Replay(before, every).status != Stale)
  {
    var before := ops[..|ops| - 1];
    forall i | 0 <= i < |before| ensures ops[..i] == before[..i] && ops[i] == before[i] {}
    if NoStaleRecovery(ops, every) {
      forall i | 0 <= i < |before| && before[i].Collect? ensures Replay(before[..i], every).status != Stale {
        assert ops[i].Collect? && ops[..i] == before[..i];
      }
    }
  }

  /** What one operation adds to the failure and recovery events, with notifications for the first failure only. */
  function Added(l: Ledger, op: Op): seq<EventKind> {
    match op
    case Collect(_, _, _, _, _) => if Unhealthy(l) then [BackupRecovered] else []
    case Fail(stuck) => if l.failures == 0 then [if stuck then BackupStuck else BackupFailed] else []
    case _ => []
  }

  /** At most one more event. */
  lemma SpokenAfter(events: seq<EventKind>, more: seq<EventKind>)
    requires more == events || (|more| == |events| + 1 && events <= more)
    ensures Spoken(more) ==
      if more == events || more[|events|] == TargetStale then Spoken(events) else Spoken(events) + [more[|events|]]
  {
    if more != events { assert more[..|more| - 1] == events; }
  }

  lemma SpokenStep(l: Ledger, op: Op)
    ensures Spoken(Apply(l, op, false).events) == Spoken(l.events) + Added(l, op)
  {
    SpokenAfter(l.events, Apply(l, op, false).events);
    assert Spoken(l.events) + [] == Spoken(l.events);
  }

  /** One operation, against the failure and recovery events so far. */
  lemma IncidentStep(l: Ledger, op: Op, spoken: seq<EventKind>, incidents: nat, ok: bool)
    requires Coherent(l) && (Alternates(spoken) <==> ok)
    requires ok ==> |spoken| == 2 * incidents - (if l.failures > 0 then 1 else 0)
    ensures var m, still := Apply(l, op, false), ok && (op.Collect? ==> l.status != Stale);
      var n := incidents + if op.Fail? && l.failures == 0 then 1 else 0;
      && (Alternates(spoken + Added(l, op)) <==> still)
      && (still ==> |spoken + Added(l, op)| == 2 * n - (if m.failures > 0 then 1 else 0))
  {
    AlternatesGrows(spoken, BackupRecovered);
    AlternatesGrows(spoken, BackupFailed);
    AlternatesGrows(spoken, BackupStuck);
    assert spoken + [] == spoken;
  }

  /**
   * With notifications for the first failure only, failure and recovery events alternate, two per
   * incident that is over and one for a current one, exactly when no stale target recovers.
   */
  lemma {:induction false} IncidentsAlternate(ops: seq<Op>)
    ensures Alternates(Spoken(Replay(ops, false).events)) <==> NoStaleRecovery(ops, false)
    ensures NoStaleRecovery(ops, false) ==>
      |Spoken(Replay(ops, false).events)| == 2 * Incidents(ops) - (if TrailingFailures(ops) > 0 then 1 else 0)
  {
    FailuresCounted(ops, false);
    if ops != [] {
      var before, op := ops[..|ops| - 1], ops[|ops| - 1];
      IncidentsAlternate(before);
      FailuresCounted(before, false);
      NoStaleStep(ops, false);
      var l := Replay(before, false);
      SpokenStep(l, op);
      IncidentStep(l, op, Spoken(l.events), Incidents(before), NoStaleRecovery(before, false));
    }
  }

  /** A stale target that recovers: of failures and recoveries there is only the recovery. */
  lemma StaleThenRecovered(created: int, hash: string)
    ensures var ops := [Refresh(true, true, true), Collect(ChangedOnly, 1, created, hash, [])];
      Spoken(Replay(ops, false).events) == [BackupRecovered] && !NoStaleRecovery(ops, false)
  {
    var mark, collect := Refresh(true, true, true), Collect(ChangedOnly, 1, created, hash, []);
    TwoSteps(mark, collect, false);
    var stale := Apply(Fresh, mark, false);
    SpokenAfter(Fresh.events, stale.events);
    SpokenAfter(stale.events, Apply(stale, collect, false).events);
    IncidentsAlternate([mark, collect]);
    assert !IsOpening([BackupRecovered][0]);
  }

  function Failures(ops: seq<Op>): nat {
    if ops == [] then 0 else Failures(ops[..|ops| - 1]) + if ops[|ops| - 1].Fail? then 1 else 0
  }

  predicate IsFailureEvent(e: EventKind) { e == BackupFailed || e == BackupStuck }

  function FailureEvents(events: seq<EventKind>): nat {
    if events == [] then 0
    else FailureEvents(events[..|events| - 1]) + if IsFailureEvent(events[|events| - 1]) then 1 else 0
  }

  lemma FailureEventsGrow(events: seq<EventKind>, e: EventKind)
    ensures FailureEvents(events + [e]) == FailureEvents(events) + if IsFailureEvent(e) then 1 else 0
  {
    assert (events + [e])[..|events + [e]| - 1] == events;
  }

  lemma EveryFailureStep(l: Ledger, op: Op)
    ensures FailureEvents(Apply(l, op, true).events) == FailureEvents(l.events) + if op.Fail? then 1 else 0
  {
    var m := Apply(l, op, true);
    if op.Fail? {
      var e := if op.stuck then BackupStuck else BackupFailed;
      assert m.events == l.events + [e];
      FailureEventsGrow(l.events, e);
    } else {
      FailureEventsGrow(l.events, BackupRecovered);
      FailureEventsGrow(l.events, TargetStale);
      assert m.events == l.events || m.events == l.events + [BackupRecovered] || m.events == l.events + [TargetStale];
    }
  }

  /** With notifications for every failure, as many are reported as happened. */
  lemma {:induction false} EveryFailureReported(ops: seq<Op>)
    ensures FailureEvents(Replay(ops, true).events) == Failures(ops)
  {
    if ops != [] {
      EveryFailureReported(ops[..|ops| - 1]);
      EveryFailureStep(Replay(ops[..|ops| - 1], true), ops[|ops| - 1]);
    }
  }
}
