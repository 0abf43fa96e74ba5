/** Releasing runs whose job has died (services/dispatcher.py, reconcile_stale_runs). */
module StaleRuns {
  import opened Text
  import opened BackupLedger
  import opened Dispatcher

  /** What Redis says of a job that counts as enqueued. */
  datatype Inspection = Unreachable | Inspected(live: bool, worker: bool)

  /** A stale run's job, if it has one: whether it counts as enqueued, its inspection, and whether it can be deleted. */
  datatype Evidence = NoJob | Job(enqueued: bool, redis: Inspection, deletable: bool)

  /** A run is kept while a worker may still execute it, or while nobody can tell. */
  predicate MayRun(e: Evidence) {
    e.Job? && e.enqueued && (e.redis.Unreachable? || (e.redis.live && e.redis.worker) || !e.deletable)
  }

  /** failure_next_run, from the target's policy and key, the time of failure and the number of failures. */
  type Retry = (TargetRow, int, int) -> Option<int>

  function Failing(t: TargetRow, now: int, retry: Retry): TargetRow {
    t.(status := Failed, failures := t.failures + 1, nextRun := retry(t, now, t.failures + 1))
  }

  /** The run is one of those released. */
  predicate Released(stale: seq<int>, evidence: int -> Evidence, k: int) { k in stale && !MayRun(evidence(k)) }

  ghost predicate Hit(runs: Runs, stale: seq<int>, evidence: int -> Evidence, id: int) {
    exists k :: k in runs && runs[k].target == id && Released(stale, evidence, k)
  }

  function ReleasedCount(stale: seq<int>, evidence: int -> Evidence): nat {
    if stale == [] then 0
    else ReleasedCount(stale[..|stale| - 1], evidence) + if MayRun(evidence(stale[|stale| - 1])) then 0 else 1
  }

  /** The tables after the runs in `stale` have been looked at: a target fails once for its released run. */
  ghost predicate Reconciled(targets: Targets, runs: Runs, stale: seq<int>, evidence: int -> Evidence, now: int,
                             retry: Retry, t: Targets, r: Runs) {
    && r.Keys == runs.Keys && t.Keys == targets.Keys
    && (forall k | k in runs ::
          r[k] == if Released(stale, evidence, k) then runs[k].(status := RunErrored) else runs[k])
    && forall id | id in targets ::
         t[id] == if Hit(runs, stale, evidence, id) then Failing(targets[id], now, retry) else targets[id]
  }

  /** mark_failed with status errored; it does not look at the run's status. */
  method MarkErrored(db: Database, k: int, now: int, retry: Retry)
    requires k in db.runs && db.runs[k].target in db.targets
    modifies db`targets, db`runs
    ensures db.runs == old(db.runs)[k := old(db.runs)[k].(status := RunErrored)]
    ensures var id := old(db.runs)[k].target;
      db.targets == old(db.targets)[id := Failing(old(db.targets)[id], now, retry)]
  {
    var id := db.runs[k].target;
    db.runs := db.runs[k := db.runs[k].(status := RunErrored)];
    db.targets := db.targets[id := Failing(db.targets[id], now, retry)];
  }

  /** The candidates: active runs of existing targets, each once. */
  ghost predicate Candidates(targets: Targets, runs: Runs, stale: seq<int>) {
    && (forall i, j | 0 <= i < j < |stale| :: stale[i] != stale[j])
    && (forall k | k in stale :: k in runs && Active(runs[k]))
    && forall k | k in runs :: runs[k].target in targets
  }

  lemma ReleasedNext(stale: seq<int>, evidence: int -> Evidence, k: int)
    requires k !in stale
    ensures ReleasedCount(stale + [k], evidence)
         == ReleasedCount(stale, evidence) + if MayRun(evidence(k)) then 0 else 1
    ensures forall j :: Released(stale + [k], evidence, j) <==>
      Released(stale, evidence, j) || (j == k && !MayRun(evidence(k)))
  {
    assert (stale + [k])[..|stale + [k]| - 1] == stale;
  }

  /** A target whose run is about to be released has not been hit yet: it has one active run only. */
  lemma HitNext(runs: Runs, stale: seq<int>, evidence: int -> Evidence, k: int)
    requires Consistent(runs) && k !in stale && k in runs && Active(runs[k])
    requires forall j | j in stale :: j in runs && Active(runs[j])
    ensures !Hit(runs, stale, evidence, runs[k].target)
    ensures forall id :: Hit(runs, stale + [k], evidence, id) <==>
      (Hit(runs, stale, evidence, id) || (id == runs[k].target && !MayRun(evidence(k))))
  {
    ReleasedNext(stale, evidence, k);
    if Hit(runs, stale, evidence, runs[k].target) {
      var j :| j in runs && runs[j].target == runs[k].target && Released(stale, evidence, j);
      assert Clash(runs[j], runs[k]);
    }
    forall id | Hit(runs, stale, evidence, id) ensures Hit(runs, stale + [k], evidence, id) {
      var j :| j in runs && runs[j].target == id && Released(stale, evidence, j);
      assert Released(stale + [k], evidence, j);
    }
    if !MayRun(evidence(k)) { assert Released(stale + [k], evidence, k); }
  }

  /** One more candidate. */
  lemma ReconciledNext(targets: Targets, runs: Runs, stale: seq<int>, evidence: int -> Evidence, now: int, retry: Retry,
                       t: Targets, r: Runs, k: int, t': Targets, r': Runs)
    requires Consistent(runs) && k !in stale && k in runs && Active(runs[k]) && runs[k].target in targets
    requires forall j | j in stale :: j in runs && Active(runs[j])
    requires Reconciled(targets, runs, stale, evidence, now, retry, t, r)
    requires if MayRun(evidence(k)) then t' == t && r' == r
      else r' == r[k := r[k].(status := RunErrored)]
           && t' == t[runs[k].target := Failing(t[runs[k].target], now, retry)]
    ensures Reconciled(targets, runs, stale + [k], evidence, now, retry, t', r')
  {
    ReleasedNext(stale, evidence, k);
    HitNext(runs, stale, evidence, k);
  }

  /** Nobody else writes meanwhile. */
  method ReconcileStaleRuns(db: Database, stale: seq<int>, evidence: int -> Evidence, now: int, retry: Retry)
    returns (n: nat)
    requires Consistent(db.runs) && Candidates(db.targets, db.runs, stale)
    modifies db`targets, db`runs
    ensures Reconciled(old(db.targets), old(db.runs), stale, evidence, now, retry, db.targets, db.runs)
    ensures n == ReleasedCount(stale, evidence)
  {
    n := 0;
    ghost var t0, r0 := db.targets, db.runs;
    for i := 0 to |stale|
      invariant Reconciled(t0, r0, stale[..i], evidence, now, retry, db.targets, db.runs)
      invariant n == ReleasedCount(stale[..i], evidence)
    {
      var k := stale[i];
      assert k in stale && k !in stale[..i] && stale[..i + 1] == stale[..i] + [k];
      ghost var t, r := db.targets, db.runs;
      ReleasedNext(stale[..i], evidence, k);
      if !MayRun(evidence(k)) {
        MarkErrored(db, k, now, retry);
        n := n + 1;
      }
      ReconciledNext(t0, r0, stale[..i], evidence, now, retry, t, r, k, db.targets, db.runs);
    }
    assert stale[..|stale|] == stale;
  }

  /** A released run makes room for the next one, and the constraints of the run table still hold. */
  lemma RoomAgain(targets: Targets, runs: Runs, stale: seq<int>, evidence: int -> Evidence, now: int, retry: Retry,
                  t: Targets, r: Runs)
    requires Consistent(runs) && Candidates(targets, runs, stale)
    requires Reconciled(targets, runs, stale, evidence, now, retry, t, r)
    ensures Consistent(r)
    ensures forall id :: Busy(r, id) <==> Busy(runs, id) && !Hit(runs, stale, evidence, id)
  {
    forall j, k | j in r && k in r && j != k ensures !Clash(r[j], r[k]) { assert !Clash(runs[j], runs[k]); }
    forall id ensures Busy(r, id) <==> Busy(runs, id) && !Hit(runs, stale, evidence, id) {
      if Busy(runs, id) {
        var j :| j in runs && runs[j].target == id && Active(runs[j]);
        if Hit(runs, stale, evidence, id) {
          var k :| k in runs && runs[k].target == id && Released(stale, evidence, k);
          assert k == j by { assert k != j ==> Clash(runs[j], runs[k]); }
          forall x | x in r && r[x].target == id ensures !Active(r[x]) {
            assert x != j ==> !Clash(runs[x], runs[j]);
          }
        } else {
          assert r[j] == runs[j];
        }
      }
    }
  }
}
