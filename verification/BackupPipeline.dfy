/**
 * One backup run (services/backup.py) on the repository (services/django_repository.py) and the
 * primary storage. Drivers, storage and every transaction may fail at any call.
 */
module BackupPipeline {
  import opened Text
  import opened Manifest
  import opened BackupLedger

  // ---- Exceptions ----

  /** The errors execute expects, by their code, and all others. */
  datatype Error = Expected(code: string) | Unexpected

  datatype Result<+T> = Ok(value: T) | Raises(error: Error)

  // ---- The primary storage ----

  datatype DeleteOutcome = Deleted | StorageError | OtherError

  class Storage {
    var objects: map<string, Bytes>
    /** No call fails. */
    const reliable: bool

    /** Stores everything or raises without storing. */
    method Put(key: string, content: Bytes) returns (r: Result<()>)
      modifies this
      ensures r.Ok? ==> objects == old(objects)[key := content]
      ensures r.Raises? ==> objects == old(objects)
      ensures reliable ==> r.Ok?
    {
      var works, expected := *, *;
      if !works && !reliable { return Raises(if expected then Expected("STORAGE_FAILED") else Unexpected); }
      objects := objects[key := content];
      return Ok(());
    }

    /** Deletes the object or raises. */
    method Delete(key: string) returns (r: DeleteOutcome)
      modifies this
      ensures objects == if r == Deleted then old(objects) - {key} else old(objects)
      ensures reliable ==> r == Deleted
    {
      r := *;
      if reliable { r := Deleted; }
      if r == Deleted { objects := objects - {key}; }
    }
  }

  // ---- The repository ----

  datatype RunRow = RunRow(status: RunStatus, changed: bool, rawChanged: bool, revision: Option<int>, errorCode: string)

  ghost predicate KeysFree(rows: seq<RevisionRow>, artifacts: seq<ArtifactRow>) {
    && (forall i, j | 0 <= i < j < |artifacts| :: artifacts[i].key != artifacts[j].key)
    && forall i | 0 <= i < |artifacts| :: !Recorded(rows, artifacts[i].key)
  }

  predicate Recorded(rows: seq<RevisionRow>, key: string) {
    exists i, k :: 0 <= i < |rows| && 0 <= k < |rows[i].artifacts| && rows[i].artifacts[k].key == key
  }

  /** The raw hash of the first primary artifact. */
  function PrimaryHash(artifacts: seq<ArtifactRow>): Option<string> {
    if artifacts == [] then None
    else if artifacts[0].primary then Some(artifacts[0].rawHash)
    else PrimaryHash(artifacts[1..])
  }

  /** The newest revision, if there is one, has a primary artifact. */
  predicate HasPrimary(l: Ledger) {
    var newest := Newest(l.revisions); newest.Some? ==> PrimaryHash(newest.value.artifacts).Some?
  }

  predicate RawChanged(l: Ledger, rawHash: string) {
    var newest := Newest(l.revisions); newest.None? || PrimaryHash(newest.value.artifacts) != Some(rawHash)
  }

  class Repository {
    var runs: map<int, RunRow>
    var revisions: seq<RevisionRow>
    var lastRevision: Option<int>
    var status: TargetStatus
    var failures: nat
    /** Whether last_success_at has been set. */
    var succeeded: bool
    var events: seq<EventKind>
    /** notify_on_every_failure */
    const every: bool
    /** No transaction fails without a reason of its own. */
    const reliable: bool

    function State(): Ledger
      reads this
    {
      Ledger(revisions, lastRevision, status, failures, succeeded, events)
    }

    method SaveTarget(l: Ledger)
      modifies this`revisions, this`lastRevision, this`status, this`failures, this`succeeded, this`events
      ensures State() == l
    {
      revisions, lastRevision, status, failures := l.revisions, l.lastRevision, l.status, l.failures;
      succeeded, events := l.succeeded, l.events;
    }

    /** Only a queued run can start. */
    method MarkRunning(run: int) returns (r: Result<()>)
      modifies this`runs
      ensures r.Ok? ==>
        run in old(runs) && old(runs)[run].status == Queued
        && runs == old(runs)[run := old(runs)[run].(status := Running, errorCode := "")]
      ensures r.Raises? ==> runs == old(runs) && r.error == Unexpected
      ensures reliable ==> (r.Ok? <==> run in old(runs) && old(runs)[run].status == Queued)
    {
      var works := *;
      if !(works || reliable) || run !in runs || runs[run].status != Queued { return Raises(Unexpected); }
      runs := runs[run := runs[run].(status := Running, errorCode := "")];
      return Ok(());
    }

    /** The newest revision's normalized hash and the raw hash of its primary artifact. */
    method GetLatestRevision() returns (r: Result<Option<(string, string)>>)
      ensures r.Ok? ==> match Newest(revisions)
        case None => r.value == None
        case Some(row) =>
          r.value.Some? && r.value.value.0 == row.hash && PrimaryHash(row.artifacts) == Some(r.value.value.1)
      ensures reliable ==> (r.Ok? <==> HasPrimary(State()))
    {
      var works := *;
      if !works && !reliable { return Raises(Unexpected); }
      var newest := Newest(revisions);
      if newest.None? { return Ok(None); }
      var artifacts := newest.value.artifacts;
      var i := 0;
      assert artifacts[0..] == artifacts;
      while i < |artifacts| && !artifacts[i].primary
        invariant 0 <= i <= |artifacts| && PrimaryHash(artifacts) == PrimaryHash(artifacts[i..])
      {
        assert artifacts[i..][1..] == artifacts[i + 1..];
        i := i + 1;
      }
      if i == |artifacts| { return Raises(Unexpected); }
      return Ok(Some((newest.value.hash, artifacts[i].rawHash)));
    }

    method CommitUnchanged(run: int, rawChanged: bool) returns (r: Result<Option<int>>)
      modifies this
      ensures r.Ok? ==>
        run in old(runs) && State() == Unchanged(old(State()))
        && runs == old(runs)[run := old(runs)[run].(status := SuccessUnchanged, changed := false,
                                                    rawChanged := rawChanged, revision := r.value)]
        && r.value == match Newest(old(revisions)) case None => None case Some(row) => Some(row.pk)
      ensures r.Raises? ==> State() == old(State()) && runs == old(runs)
      ensures reliable ==> (r.Ok? <==> run in old(runs))
    {
      var works := *;
      if !(works || reliable) || run !in runs { return Raises(Unexpected); }
      var newest := Newest(revisions);
      var pk := if newest.Some? then Some(newest.value.pk) else None;
      runs := runs[run := runs[run].(status := SuccessUnchanged, changed := false, rawChanged := rawChanged,
                                     revision := pk)];
      SaveTarget(Unchanged(State()));
      return Ok(pk);
    }

    /** Storage keys are unique over all artifact rows; a repeated one rolls the transaction back. */
    method CommitRevision(run: int, pk: int, created: int, hash: string, changed: bool, rawChanged: bool,
                          artifacts: seq<ArtifactRow>) returns (r: Result<()>)
      modifies this
      ensures r.Ok? ==>
        run in old(runs) && KeysFree(old(revisions), artifacts)
        && State() == Committed(old(State()), NewRow(old(State()), pk, created, hash, changed, artifacts))
        && runs == old(runs)[run := old(runs)[run].(status := if changed then SuccessChanged else SuccessUnchanged,
                                                    changed := changed, rawChanged := rawChanged, revision := Some(pk))]
      ensures r.Raises? ==> State() == old(State()) && runs == old(runs) && r.error == Unexpected
      ensures reliable ==> (r.Ok? <==> run in old(runs) && KeysFree(old(revisions), artifacts))
    {
      var works := *;
      var clash := exists i | 0 <= i < |artifacts| ::
        Recorded(revisions, artifacts[i].key) || exists j | 0 <= j < i :: artifacts[j].key == artifacts[i].key;
      if !(works || reliable) || run !in runs || clash { return Raises(Unexpected); }
      runs := runs[run := runs[run].(status := if changed then SuccessChanged else SuccessUnchanged,
                                     changed := changed, rawChanged := rawChanged, revision := Some(pk))];
      SaveTarget(Committed(State(), NewRow(State(), pk, created, hash, changed, artifacts)));
      return Ok(());
    }

    /** Whatever the run's status was: nothing here checks it. */
    method MarkFailed(run: int, status: RunStatus, code: string) returns (ok: bool)
      modifies this
      ensures ok ==>
        run in old(runs) && State() == FailedOnce(old(State()), code == "STALE_RUN", every)
        && runs == old(runs)[run := old(runs)[run].(status := status, errorCode := code)]
      ensures !ok ==> State() == old(State()) && runs == old(runs)
      ensures reliable ==> (ok <==> run in old(runs))
    {
      var works := *;
      if !(works || reliable) || run !in runs { return false; }
      runs := runs[run := runs[run].(status := status, errorCode := code)];
      SaveTarget(FailedOnce(State(), code == "STALE_RUN", every));
      return true;
    }
  }

  // ---- Preparing artifacts ----

  datatype CollectedArtifact = CollectedArtifact(
    artifactType: string, filename: string, content: Bytes, primary: bool)

  /** What a driver's normalize does: it delivers bytes, or raises a UnicodeError or ValueError, or another error. */
  datatype Normalized = Content(bytes: Bytes) | ValueProblem | OtherProblem(error: Error)

  /** A driver's validation verdict, by its error code, and its normalization, as functions of the artifact. */
  datatype Driver = Driver(invalid: CollectedArtifact -> Option<string>, normalize: CollectedArtifact -> Normalized)

  datatype Prepared = Prepared(artifact: CollectedArtifact, rawHash: string, normalizedHash: string)

  ghost predicate DistinctTypes(artifacts: seq<CollectedArtifact>) {
    forall i, j | 0 <= i < j < |artifacts| :: artifacts[i].artifactType != artifacts[j].artifactType
  }

  function Primaries(artifacts: seq<CollectedArtifact>): nat {
    if artifacts == [] then 0
    else Primaries(artifacts[..|artifacts| - 1]) + if artifacts[|artifacts| - 1].primary then 1 else 0
  }

  /** What becomes of one artifact: the bytes to hash, or the error that ends the run. */
  function Usable(driver: Driver, a: CollectedArtifact): Result<Bytes> {
    if driver.invalid(a).Some? then Raises(Expected(driver.invalid(a).value))
    else
      match driver.normalize(a)
      case Content(bytes) => if bytes == [] then Raises(Expected("NORMALIZATION_FAILED")) else Ok(bytes)
      case ValueProblem => Raises(Expected("NORMALIZATION_FAILED"))
      case OtherProblem(error) => Raises(error)
  }

  predicate Sound(driver: Driver, a: CollectedArtifact) { Usable(driver, a).Ok? }

  /** The first artifact that cannot be used. */
  ghost predicate FirstUnsound(driver: Driver, artifacts: seq<CollectedArtifact>, i: nat) {
    i < |artifacts| && !Sound(driver, artifacts[i]) && forall j | 0 <= j < i :: Sound(driver, artifacts[j])
  }

  /** The error is that of the first artifact that cannot be used. */
  ghost predicate StoppedAtFirst(driver: Driver, artifacts: seq<CollectedArtifact>, error: Error) {
    exists i: nat :: FirstUnsound(driver, artifacts, i) && error == Usable(driver, artifacts[i]).error
  }

  function PreparedOf(driver: Driver, a: CollectedArtifact, sha: Digester): Prepared
    requires Sound(driver, a)
  {
    Prepared(a, sha(a.content), sha(Usable(driver, a).value))
  }

  ghost predicate AllPrepared(driver: Driver, artifacts: seq<CollectedArtifact>, prepared: seq<Prepared>,
                              sha: Digester) {
    |prepared| == |artifacts|
    && forall i | 0 <= i < |artifacts| ::
         Sound(driver, artifacts[i]) && prepared[i] == PreparedOf(driver, artifacts[i], sha)
  }

  ghost predicate HashedRight(prepared: seq<Prepared>, sha: Digester) {
    forall i | 0 <= i < |prepared| :: prepared[i].rawHash == sha(prepared[i].artifact.content)
  }

  /** The loop of _prepare_artifacts. */
  method PrepareEach(driver: Driver, artifacts: seq<CollectedArtifact>, sha: Digester)
    returns (r: Result<seq<Prepared>>)
    ensures r.Ok? <==> forall i | 0 <= i < |artifacts| :: Sound(driver, artifacts[i])
    ensures r.Ok? ==> AllPrepared(driver, artifacts, r.value, sha)
    ensures r.Raises? ==> StoppedAtFirst(driver, artifacts, r.error)
  {
    var prepared: seq<Prepared> := [];
    for k := 0 to |artifacts|
      invariant |prepared| == k && forall i | 0 <= i < k :: Sound(driver, artifacts[i])
      invariant forall i | 0 <= i < k :: prepared[i] == PreparedOf(driver, artifacts[i], sha)
    {
      var a := artifacts[k];
      assert !Sound(driver, a) ==> FirstUnsound(driver, artifacts, k);
      if driver.invalid(a).Some? { return Raises(Expected(driver.invalid(a).value)); }
      var normalized := driver.normalize(a);
      if normalized.OtherProblem? { return Raises(normalized.error); }
      if normalized.ValueProblem? || normalized.bytes == [] { return Raises(Expected("NORMALIZATION_FAILED")); }
      prepared := prepared + [Prepared(a, sha(a.content), sha(normalized.bytes))];
    }
    return Ok(prepared);
  }

  /** _prepare_artifacts */
  method PrepareArtifacts(driver: Driver, artifacts: seq<CollectedArtifact>, sha: Digester)
    returns (r: Result<seq<Prepared>>)
    ensures r.Ok? <==>
      artifacts != [] && DistinctTypes(artifacts) && Primaries(artifacts) == 1
      && forall i | 0 <= i < |artifacts| :: Sound(driver, artifacts[i])
    ensures r.Ok? ==> AllPrepared(driver, artifacts, r.value, sha) && HashedRight(r.value, sha)
    ensures artifacts == [] ==> r == Raises(Expected("EMPTY_CONFIG"))
    ensures artifacts != [] && (!DistinctTypes(artifacts) || Primaries(artifacts) != 1) ==>
      r == Raises(Expected("VALIDATION_FAILED"))
    ensures r.Raises? && artifacts != [] && DistinctTypes(artifacts) && Primaries(artifacts) == 1 ==>
      StoppedAtFirst(driver, artifacts, r.error)
  {
    if artifacts == [] { return Raises(Expected("EMPTY_CONFIG")); }
    if exists i, j | 0 <= i < j < |artifacts| :: artifacts[i].artifactType == artifacts[j].artifactType {
      return Raises(Expected("VALIDATION_FAILED"));
    }
    if Primaries(artifacts) != 1 { return Raises(Expected("VALIDATION_FAILED")); }
    r := PrepareEach(driver, artifacts, sha);
  }

  /** The index of the primary artifact. */
  lemma {:induction false} PrimaryExists(artifacts: seq<CollectedArtifact>) returns (i: nat)
    requires Primaries(artifacts) >= 1
    ensures i < |artifacts| && artifacts[i].primary
  {
    if artifacts[|artifacts| - 1].primary { i := |artifacts| - 1; }
    else { i := PrimaryExists(artifacts[..|artifacts| - 1]); }
  }

  // ---- Storing and rolling back ----

  /** No object of a revision with a new UUID exists yet. */
  ghost predicate FreshPrefix(objects: map<string, Bytes>, prefix: string) {
    forall k | k in objects :: !(prefix <= k)
  }

  /** Objects outside the prefix are as they were. */
  ghost predicate SameOutside(before: map<string, Bytes>, after: map<string, Bytes>, prefix: string) {
    forall k | !(prefix <= k) :: (k in before <==> k in after) && (k in before ==> after[k] == before[k])
  }

  function RowOf(prefix: string, p: Prepared): ArtifactRow {
    ArtifactRow(p.artifact.artifactType, prefix + p.artifact.filename, |p.artifact.content|, p.rawHash,
                p.normalizedHash,
                p.artifact.primary)
  }

  function RowsOf(prefix: string, prepared: seq<Prepared>): (rows: seq<ArtifactRow>)
    ensures |rows| == |prepared|
  {
    seq(|prepared|, i requires 0 <= i < |prepared| => RowOf(prefix, prepared[i]))
  }

  ghost predicate DistinctRows(rows: seq<ArtifactRow>) {
    forall i, j | 0 <= i < j < |rows| :: rows[i].key != rows[j].key
  }

  ghost predicate Stored(objects: map<string, Bytes>, rows: seq<ArtifactRow>, prepared: seq<Prepared>, n: nat)
    requires n <= |rows| == |prepared|
  {
    forall i | 0 <= i < n :: rows[i].key in objects && objects[rows[i].key] == prepared[i].artifact.content
  }

  /** The storing loop of execute, with the keys it has stored when it stops. */
  method StoreArtifacts(storage: Storage, prefix: string, prepared: seq<Prepared>)
    returns (r: Result<()>, stored: seq<string>)
    requires FreshPrefix(storage.objects, prefix)
    modifies storage
    ensures SameOutside(old(storage.objects), storage.objects, prefix)
    ensures forall k | k in stored :: prefix <= k
    ensures forall k | k in storage.objects && prefix <= k :: k in stored
    ensures r.Ok? && DistinctRows(RowsOf(prefix, prepared)) ==>
      && Stored(storage.objects, RowsOf(prefix, prepared), prepared, |prepared|)
      && storage.objects.Keys == old(storage.objects).Keys + KeysOf(RowsOf(prefix, prepared))
    ensures storage.reliable ==> r.Ok?
  {
    ghost var rows := RowsOf(prefix, prepared);
    stored := [];
    for n := 0 to |prepared|
      invariant SameOutside(old(storage.objects), storage.objects, prefix)
      invariant |stored| == n && forall i | 0 <= i < n :: stored[i] == rows[i].key
      invariant forall k | k in storage.objects && prefix <= k :: k in stored
      invariant DistinctRows(rows) ==> Stored(storage.objects, rows, prepared, n)
    {
      var key := prefix + prepared[n].artifact.filename;
      var put := storage.Put(key, prepared[n].artifact.content);
      if put.Raises? { return Raises(put.error), stored; }
      stored := stored + [key];
    }
    if DistinctRows(rows) { KeysAdded(old(storage.objects), storage.objects, prefix, rows, stored); }
    return Ok(()), stored;
  }

  function KeysOf(rows: seq<ArtifactRow>): set<string> { set i | 0 <= i < |rows| :: rows[i].key }

  lemma KeysAdded(before: map<string, Bytes>, after: map<string, Bytes>, prefix: string, rows: seq<ArtifactRow>,
                  stored: seq<string>)
    requires FreshPrefix(before, prefix) && SameOutside(before, after, prefix) && |stored| == |rows|
    requires forall i | 0 <= i < |rows| :: prefix <= rows[i].key && rows[i].key in after && stored[i] == rows[i].key
    requires forall k | k in after && prefix <= k :: k in stored
    ensures after.Keys == before.Keys + KeysOf(rows)
  {
    forall k ensures k in after <==> k in before || k in KeysOf(rows) {
      if k in after && prefix <= k {
        var i :| 0 <= i < |stored| && stored[i] == k;
        assert rows[i].key == k;
      }
    }
  }

  /** Objects under other keys are as they were. */
  ghost predicate SameBut(before: map<string, Bytes>, after: map<string, Bytes>, keys: seq<string>) {
    forall k | k !in keys :: (k in before <==> k in after) && (k in before ==> after[k] == before[k])
  }

  /**
   * _rollback_storage: deletes in reverse order, and passes over storage errors; any other error
   * escapes and ends it. `left` counts the objects it has not deleted.
   */
  method RollbackStorage(storage: Storage, stored: seq<string>) returns (left: nat, escaped: bool)
    modifies storage
    ensures SameBut(old(storage.objects), storage.objects, stored)
    ensures left == 0 ==> forall k | k in stored :: k !in storage.objects
    ensures escaped ==> left > 0
    ensures storage.reliable ==> left == 0
  {
    left := 0;
    var n := |stored|;
    while n > 0
      invariant 0 <= n <= |stored| && (storage.reliable ==> left == 0)
      invariant SameBut(old(storage.objects), storage.objects, stored)
      invariant left == 0 ==> forall i | n <= i < |stored| :: stored[i] !in storage.objects
    {
      n := n - 1;
      var r := storage.Delete(stored[n]);
      match r
      case Deleted =>
      case StorageError => left := left + 1;
      case OtherError => return left + n + 1, true;
    }
    return left, false;
  }

  /** After a rollback that deleted everything, the storage is what it was before the run. */
  lemma RolledBack(before: map<string, Bytes>, stored: map<string, Bytes>, after: map<string, Bytes>, prefix: string,
                   keys: seq<string>, left: nat)
    requires FreshPrefix(before, prefix) && SameOutside(before, stored, prefix)
    requires (forall k | k in keys :: prefix <= k) && (forall k | k in stored && prefix <= k :: k in keys)
    requires SameBut(stored, after, keys)
    requires left == 0 ==> forall k | k in keys :: k !in after
    ensures SameOutside(before, after, prefix)
    ensures left == 0 ==> after == before
  {
    if left == 0 {
      forall k ensures k in after <==> k in before {}
      forall k | k in before ensures after[k] == before[k] {}
    }
  }

  // ---- Storage and database agree ----

  /** Every committed artifact row has its object, with the recorded hash. */
  ghost predicate Agree(rows: seq<RevisionRow>, objects: map<string, Bytes>, sha: Digester) {
    forall i, k | 0 <= i < |rows| && 0 <= k < |rows[i].artifacts| :: Held(objects, rows[i].artifacts[k], sha)
  }

  ghost predicate Held(objects: map<string, Bytes>, a: ArtifactRow, sha: Digester) {
    a.key in objects && sha(objects[a.key]) == a.rawHash
  }

  lemma AgreeOutside(rows: seq<RevisionRow>, before: map<string, Bytes>, after: map<string, Bytes>, prefix: string,
                     sha: Digester)
    requires Agree(rows, before, sha) && FreshPrefix(before, prefix) && SameOutside(before, after, prefix)
    ensures Agree(rows, after, sha)
  {
    forall i, k | 0 <= i < |rows| && 0 <= k < |rows[i].artifacts| ensures Held(after, rows[i].artifacts[k], sha) {
      assert Held(before, rows[i].artifacts[k], sha);
    }
  }

  lemma AgreeMore(rows: seq<RevisionRow>, row: RevisionRow, objects: map<string, Bytes>, sha: Digester)
    requires Agree(rows, objects, sha) && forall k | 0 <= k < |row.artifacts| :: Held(objects, row.artifacts[k], sha)
    ensures Agree(rows + [row], objects, sha)
  {
  }

  // ---- BackupPipeline.execute ----

  /** What surrounds one call: the context, what the driver delivers, the new revision's identity. */
  datatype Plan = Plan(
    contextError: Option<Error>, mode: StoreMode, collected: Result<seq<CollectedArtifact>>, driver: Driver,
    prefix: string, pk: int, created: int)

  datatype BackupResult =
    | Returned(status: string, changed: bool, rawChanged: bool, revision: Option<int>, code: string)
    | Reraised

  /** The run rows, but for this run possibly having been started. */
  ghost predicate StartedAtMost(before: map<int, RunRow>, after: map<int, RunRow>, run: int) {
    after == before ||
    (run in before && before[run].status == Queued
     && after == before[run := before[run].(status := Running, errorCode := "")])
  }

  /** A collection that came from this plan: one row per artifact. */
  ghost predicate FromPlan(plan: Plan, sha: Digester, op: Op) {
    && op.Collect? && op.mode == plan.mode && op.pk == plan.pk && op.created == plan.created && plan.collected.Ok?
    && op.hash == NormalizedHash(plan, sha)
    && var artifacts := plan.collected.value;
       && |op.artifacts| == |artifacts| && (forall i | 0 <= i < |artifacts| :: Sound(plan.driver, artifacts[i]))
       && (forall i | 0 <= i < |artifacts| ::
           op.artifacts[i] == RowOf(plan.prefix, PreparedOf(plan.driver, artifacts[i], sha)))
       && Primaries(artifacts) == 1
  }

  /** What execute returns for a collection with these hashes of its primary artifact. */
  function ResultFor(l: Ledger, mode: StoreMode, pk: int, hash: string, rawHash: string): BackupResult {
    var changed, newest := Changed(l, hash), Newest(l.revisions);
    if !changed && mode == ChangedOnly then
      var pk := if newest.Some? then Some(newest.value.pk) else None;
      Returned("success_unchanged", false, RawChanged(l, rawHash), pk, "")
    else
      var status := if changed then "success_changed" else "success_unchanged";
      Returned(status, changed, RawChanged(l, rawHash), Some(pk), "")
  }

  /** The collection's hash is that of its primary artifact, and so is the result. */
  ghost predicate DecidedByPrimary(l: Ledger, op: Op, r: BackupResult)
    requires op.Collect?
  {
    exists i :: 0 <= i < |op.artifacts| && op.artifacts[i].primary && op.hash == op.artifacts[i].normalizedHash
      && r == ResultFor(l, op.mode, op.pk, op.hash, op.artifacts[i].rawHash)
  }

  /** The run's row after a commit with this result. */
  function Finished(row: RunRow, r: BackupResult): RunRow
    requires r.Returned?
  {
    row.(status := if r.changed then SuccessChanged else SuccessUnchanged,
         changed := r.changed, rawChanged := r.rawChanged,
         revision := r.revision)
  }

  /** The objects a collection adds: none, or one fresh object for each artifact of the new revision. */
  ghost predicate StoredBy(l: Ledger, m: Ledger, before: map<string, Bytes>, after: map<string, Bytes>) {
    if m.revisions == l.revisions then after == before
    else
      && |m.revisions| == |l.revisions| + 1 && m.revisions[..|l.revisions|] == l.revisions
      && var rows := m.revisions[|l.revisions|].artifacts;
         && DistinctRows(rows) && (forall i | 0 <= i < |rows| :: rows[i].key !in before)
         && after.Keys == before.Keys + KeysOf(rows) && forall k | k in before :: after[k] == before[k]
  }

  /** The hash of the first primary artifact as the driver normalizes it. */
  function PrimaryNormalized(driver: Driver, artifacts: seq<CollectedArtifact>, sha: Digester): string {
    if artifacts == [] then ""
    else if !artifacts[0].primary then PrimaryNormalized(driver, artifacts[1..], sha)
    else if Sound(driver, artifacts[0]) then PreparedOf(driver, artifacts[0], sha).normalizedHash
    else ""
  }

  method FirstPrimary(driver: Driver, artifacts: seq<CollectedArtifact>, prepared: seq<Prepared>, sha: Digester)
    returns (p: Prepared, ghost at: nat)
    requires AllPrepared(driver, artifacts, prepared, sha) && Primaries(artifacts) == 1
    ensures at < |artifacts| && artifacts[at].primary && p == prepared[at]
    ensures p.normalizedHash == PrimaryNormalized(driver, artifacts, sha)
  {
    ghost var some := PrimaryExists(artifacts);
    var i := 0;
    assert artifacts[0..] == artifacts;
    while !prepared[i].artifact.primary
      invariant 0 <= i <= some
      invariant PrimaryNormalized(driver, artifacts, sha) == PrimaryNormalized(driver, artifacts[i..], sha)
      decreases some - i
    {
      assert artifacts[i..][1..] == artifacts[i + 1..];
      i := i + 1;
    }
    return prepared[i], i;
  }

  lemma RowsHeld(prefix: string, prepared: seq<Prepared>, objects: map<string, Bytes>, sha: Digester)
    requires Stored(objects, RowsOf(prefix, prepared), prepared, |prepared|) && HashedRight(prepared, sha)
    ensures var rows := RowsOf(prefix, prepared); forall i | 0 <= i < |rows| :: Held(objects, rows[i], sha)
  {
  }

  lemma OneStored(l: Ledger, m: Ledger, row: RevisionRow, before: map<string, Bytes>, after: map<string, Bytes>,
                  prefix: string)
    requires m.revisions == l.revisions + [row] && DistinctRows(row.artifacts)
    requires FreshPrefix(before, prefix) && forall i | 0 <= i < |row.artifacts| :: prefix <= row.artifacts[i].key
    requires SameOutside(before, after, prefix) && after.Keys == before.Keys + KeysOf(row.artifacts)
    ensures StoredBy(l, m, before, after)
  {
  }

  function CollectOf(plan: Plan, prepared: seq<Prepared>, primary: Prepared): Op {
    Collect(plan.mode, plan.pk, plan.created, primary.normalizedHash, RowsOf(plan.prefix, prepared))
  }

  /** What collecting and preparing deliver; artifact `at` is the primary one. */
  ghost predicate Gathered(plan: Plan, sha: Digester, prepared: seq<Prepared>, primary: Prepared, at: nat) {
    && plan.collected.Ok? && AllPrepared(plan.driver, plan.collected.value, prepared, sha) && HashedRight(prepared, sha)
    && Primaries(plan.collected.value) == 1
    && at < |prepared| && plan.collected.value[at].primary && primary == prepared[at]
    && primary.normalizedHash == NormalizedHash(plan, sha)
  }

  /** The hash that a run of this plan compares and records. */
  function NormalizedHash(plan: Plan, sha: Digester): string {
    if plan.collected.Ok? then PrimaryNormalized(plan.driver, plan.collected.value, sha) else ""
  }

  /** The driver delivers artifacts of distinct types, one of them primary, all of them sound. */
  ghost predicate Gatherable(plan: Plan) {
    && plan.collected.Ok?
    && var artifacts := plan.collected.value;
       && artifacts != [] && DistinctTypes(artifacts) && Primaries(artifacts) == 1
       && forall i | 0 <= i < |artifacts| :: Sound(plan.driver, artifacts[i])
  }

  method Gather(plan: Plan, sha: Digester) returns (r: Result<(seq<Prepared>, Prepared)>, ghost at: nat)
    ensures r.Ok? ==> Gathered(plan, sha, r.value.0, r.value.1, at)
    ensures r.Ok? <==> Gatherable(plan)
  {
    at := 0;
    if plan.collected.Raises? { return Raises(plan.collected.error), at; }
    var prepared := PrepareArtifacts(plan.driver, plan.collected.value, sha);
    if prepared.Raises? { return Raises(prepared.error), at; }
    var primary;
    primary, at := FirstPrimary(plan.driver, plan.collected.value, prepared.value, sha);
    return Ok((prepared.value, primary)), at;
  }

  lemma CollectedFromPlan(plan: Plan, sha: Digester, prepared: seq<Prepared>, primary: Prepared, at: nat, l: Ledger,
                          r: BackupResult)
    requires Gathered(plan, sha, prepared, primary, at)
    requires r == ResultFor(l, plan.mode, plan.pk, primary.normalizedHash, primary.rawHash)
    ensures FromPlan(plan, sha, CollectOf(plan, prepared, primary))
    ensures DecidedByPrimary(l, CollectOf(plan, prepared, primary), r)
  {
    assert RowsOf(plan.prefix, prepared)[at] == RowOf(plan.prefix, primary);
  }

  /** What Conclude promises is what execute promises of a collection. */
  lemma Concluded(plan: Plan, sha: Digester, prepared: seq<Prepared>, primary: Prepared, at: nat, l: Ledger, m: Ledger,
                  every: bool, before: map<string, Bytes>, after: map<string, Bytes>, r: BackupResult)
    requires Gathered(plan, sha, prepared, primary, at)
    requires r == ResultFor(l, plan.mode, plan.pk, primary.normalizedHash, primary.rawHash)
    requires m == Collected(l, plan.mode, plan.pk, plan.created, primary.normalizedHash, RowsOf(plan.prefix, prepared))
    requires StoredBy(l, m, before, after)
    ensures Executed(plan, sha, l, m, every, before, after, 0, r, Some(CollectOf(plan, prepared, primary)))
  {
    CollectedFromPlan(plan, sha, prepared, primary, at, l, r);
    assert Apply(l, CollectOf(plan, prepared, primary), every) == m;
  }

  /** Starting a run and finishing it leaves its row as if finished at once. */
  lemma StartedAndFinished(runs: map<int, RunRow>, run: int, r: BackupResult)
    requires run in runs && r.Returned?
    ensures var started := runs[run].(status := Running, errorCode := "");
      runs[run := started][run := Finished(started, r)] == runs[run := Finished(runs[run].(errorCode := ""), r)]
  {
  }

  /** Keys under a new prefix clash with no recorded key, so only among each other. */
  lemma FreshKeysFree(rows: seq<RevisionRow>, artifacts: seq<ArtifactRow>, objects: map<string, Bytes>, prefix: string,
                      sha: Digester)
    requires Agree(rows, objects, sha) && FreshPrefix(objects, prefix)
    requires forall i | 0 <= i < |artifacts| :: prefix <= artifacts[i].key
    ensures KeysFree(rows, artifacts) <==> DistinctRows(artifacts)
  {
    forall i | 0 <= i < |artifacts| ensures !Recorded(rows, artifacts[i].key) {
      forall j, k | 0 <= j < |rows| && 0 <= k < |rows[j].artifacts|
        ensures rows[j].artifacts[k].key != artifacts[i].key
      {
        assert Held(objects, rows[j].artifacts[k], sha);
      }
    }
  }

  /** Store the artifacts of a new revision and commit it. */
  method StoreAndCommit(repo: Repository, storage: Storage, run: int, plan: Plan, sha: Digester,
                        prepared: seq<Prepared>, primary: Prepared, changed: bool, rawChanged: bool)
    returns (r: Result<()>, stored: seq<string>)
    requires Agree(repo.revisions, storage.objects, sha) && FreshPrefix(storage.objects, plan.prefix)
    requires HashedRight(prepared, sha)
    modifies repo, storage
    ensures Agree(repo.revisions, storage.objects, sha)
    ensures SameOutside(old(storage.objects), storage.objects, plan.prefix)
    ensures forall k | k in stored :: plan.prefix <= k
    ensures r.Raises? ==> repo.State() == old(repo.State()) && repo.runs == old(repo.runs)
    ensures r.Raises? ==> forall k | k in storage.objects && plan.prefix <= k :: k in stored
    ensures r.Ok? ==>
      var row := NewRow(old(repo.State()), plan.pk, plan.created, primary.normalizedHash, changed,
                        RowsOf(plan.prefix, prepared));
      && repo.State() == Committed(old(repo.State()), row)
      && StoredBy(old(repo.State()), repo.State(), old(storage.objects), storage.objects)
      && run in old(repo.runs)
      && repo.runs == old(repo.runs)[run := old(repo.runs)[run].(
           status := if changed then SuccessChanged else SuccessUnchanged,
           changed := changed, rawChanged := rawChanged, revision := Some(plan.pk))]
    ensures storage.reliable && repo.reliable ==>
      (r.Ok? <==> run in old(repo.runs) && DistinctRows(RowsOf(plan.prefix, prepared)))
  {
    ghost var l0 := repo.State();
    var rows := RowsOf(plan.prefix, prepared);
    FreshKeysFree(repo.revisions, rows, storage.objects, plan.prefix, sha);
    r, stored := StoreArtifacts(storage, plan.prefix, prepared);
    AgreeOutside(repo.revisions, old(storage.objects), storage.objects, plan.prefix, sha);
    if r.Raises? { return; }
    r := repo.CommitRevision(run, plan.pk, plan.created, primary.normalizedHash, changed, rawChanged, rows);
    if r.Raises? { return; }
    RowsHeld(plan.prefix, prepared, storage.objects, sha);
    ghost var row := NewRow(l0, plan.pk, plan.created, primary.normalizedHash, changed, rows);
    AgreeMore(l0.revisions, row, storage.objects, sha);
    OneStored(l0, repo.State(), row, old(storage.objects), storage.objects, plan.prefix);
  }

  /** Nothing is stored for this hash. */
  predicate NothingNew(plan: Plan, l: Ledger, hash: string) { plan.mode == ChangedOnly && !Changed(l, hash) }

  ghost predicate DistinctCollected(artifacts: seq<CollectedArtifact>) {
    forall i, j | 0 <= i < j < |artifacts| :: artifacts[i].filename != artifacts[j].filename
  }

  /** What a run needs besides working parts. */
  ghost predicate CanSucceed(plan: Plan, sha: Digester, l: Ledger) {
    && plan.contextError.None? && Gatherable(plan) && HasPrimary(l)
    && (NothingNew(plan, l, NormalizedHash(plan, sha)) || DistinctCollected(plan.collected.value))
  }

  lemma NamesAndKeys(plan: Plan, prepared: seq<Prepared>, sha: Digester)
    requires plan.collected.Ok? && AllPrepared(plan.driver, plan.collected.value, prepared, sha)
    ensures DistinctCollected(plan.collected.value) <==> DistinctRows(RowsOf(plan.prefix, prepared))
  {
    var rows, artifacts := RowsOf(plan.prefix, prepared), plan.collected.value;
    forall i, j | 0 <= i < j < |artifacts|
      ensures artifacts[i].filename != artifacts[j].filename <==> rows[i].key != rows[j].key
    {
      assert rows[i].key == plan.prefix + artifacts[i].filename && rows[j].key == plan.prefix + artifacts[j].filename;
      assert rows[i].key[|plan.prefix|..] == artifacts[i].filename;
      assert rows[j].key[|plan.prefix|..] == artifacts[j].filename;
    }
  }

  /** Decide, store, commit: the end of the try block, once the artifacts are prepared. */
  method Conclude(repo: Repository, storage: Storage, run: int, plan: Plan, sha: Digester, prepared: seq<Prepared>,
                  primary: Prepared)
    returns (r: Result<BackupResult>, stored: seq<string>)
    requires Agree(repo.revisions, storage.objects, sha) && FreshPrefix(storage.objects, plan.prefix)
    requires HashedRight(prepared, sha)
    modifies repo, storage
    ensures Agree(repo.revisions, storage.objects, sha)
    ensures SameOutside(old(storage.objects), storage.objects, plan.prefix)
    ensures forall k | k in stored :: plan.prefix <= k
    ensures r.Raises? ==> repo.State() == old(repo.State()) && repo.runs == old(repo.runs)
    ensures r.Raises? ==> forall k | k in storage.objects && plan.prefix <= k :: k in stored
    ensures r.Ok? ==>
      && r.value == ResultFor(old(repo.State()), plan.mode, plan.pk, primary.normalizedHash, primary.rawHash)
      && repo.State() == Collected(old(repo.State()), plan.mode, plan.pk, plan.created, primary.normalizedHash,
                                   RowsOf(plan.prefix, prepared))
      && StoredBy(old(repo.State()), repo.State(), old(storage.objects), storage.objects)
      && run in old(repo.runs) && repo.runs == old(repo.runs)[run := Finished(old(repo.runs)[run], r.value)]
    ensures storage.reliable && repo.reliable ==>
      (r.Ok? <==> run in old(repo.runs) && HasPrimary(old(repo.State()))
                  && (NothingNew(plan, old(repo.State()), primary.normalizedHash) ||
                      DistinctRows(RowsOf(plan.prefix, prepared))))
  {
    stored := [];
    var latest := repo.GetLatestRevision();
    if latest.Raises? { return Raises(latest.error), stored; }
    var changed := latest.value.None? || latest.value.value.0 != primary.normalizedHash;
    var rawChanged := latest.value.None? || latest.value.value.1 != primary.rawHash;
    if !changed && plan.mode == ChangedOnly {
      var same := repo.CommitUnchanged(run, rawChanged);
      if same.Raises? { return Raises(same.error), stored; }
      return Ok(Returned("success_unchanged", false, rawChanged, same.value, "")), stored;
    }
    var done;
    done, stored := StoreAndCommit(repo, storage, run, plan, sha, prepared, primary, changed, rawChanged);
    if done.Raises? { return Raises(done.error), stored; }
    var status := if changed then "success_changed" else "success_unchanged";
    return Ok(Returned(status, changed, rawChanged, Some(plan.pk), "")), stored;
  }

  /** Collect, prepare and conclude: what a started run does. */
  method Work(repo: Repository, storage: Storage, run: int, plan: Plan, sha: Digester)
    returns (r: Result<BackupResult>, stored: seq<string>, ghost op: Option<Op>)
    requires plan.contextError.None?
    requires Agree(repo.revisions, storage.objects, sha) && FreshPrefix(storage.objects, plan.prefix)
    modifies repo, storage
    ensures Agree(repo.revisions, storage.objects, sha)
    ensures SameOutside(old(storage.objects), storage.objects, plan.prefix)
    ensures forall k | k in stored :: plan.prefix <= k
    ensures r.Raises? ==> op == None && repo.State() == old(repo.State()) && repo.runs == old(repo.runs)
    ensures r.Raises? ==> forall k | k in storage.objects && plan.prefix <= k :: k in stored
    ensures r.Ok? ==>
      && r.value.Returned? && op.Some? && op.value.Collect?
      && Executed(plan, sha, old(repo.State()), repo.State(), repo.every, old(storage.objects), storage.objects, 0,
                  r.value, op)
      && run in old(repo.runs) && repo.runs == old(repo.runs)[run := Finished(old(repo.runs)[run], r.value)]
    ensures storage.reliable && repo.reliable ==>
      (r.Ok? <==> run in old(repo.runs) && CanSucceed(plan, sha, old(repo.State())))
  {
    stored, op := [], None;
    var gathered, at := Gather(plan, sha);
    if gathered.Raises? { return Raises(gathered.error), stored, None; }
    var prepared, primary := gathered.value.0, gathered.value.1;
    NamesAndKeys(plan, prepared, sha);
    r, stored := Conclude(repo, storage, run, plan, sha, prepared, primary);
    if r.Ok? {
      op := Some(CollectOf(plan, prepared, primary));
      Concluded(plan, sha, prepared, primary, at, old(repo.State()), repo.State(), repo.every, old(storage.objects),
                storage.objects, r.value);
    }
  }

  /** The part of execute inside its try block. */
  method Attempt(repo: Repository, storage: Storage, run: int, plan: Plan, sha: Digester)
    returns (r: Result<BackupResult>, stored: seq<string>, ghost op: Option<Op>)
    requires Agree(repo.revisions, storage.objects, sha) && FreshPrefix(storage.objects, plan.prefix)
    modifies repo, storage
    ensures Agree(repo.revisions, storage.objects, sha)
    ensures SameOutside(old(storage.objects), storage.objects, plan.prefix)
    ensures forall k | k in stored :: plan.prefix <= k
    ensures r.Raises? ==> op == None && repo.State() == old(repo.State())
    ensures r.Raises? ==> forall k | k in storage.objects && plan.prefix <= k :: k in stored
    ensures r.Raises? ==> StartedAtMost(old(repo.runs), repo.runs, run)
    ensures r.Raises? && !(run in old(repo.runs) && old(repo.runs)[run].status == Queued) && plan.contextError.None? ==>
      r.error == Unexpected
    ensures r.Ok? ==> r.value.Returned? && op.Some? && op.value.Collect?
    ensures r.Ok? ==>
      && Executed(plan, sha, old(repo.State()), repo.State(), repo.every, old(storage.objects), storage.objects, 0,
                  r.value, op)
      && RunEnded(old(repo.runs), repo.runs, run, r.value, op)
      && old(repo.runs)[run].status == Queued
    ensures storage.reliable && repo.reliable ==>
      (r.Ok? <==>
         run in old(repo.runs) && old(repo.runs)[run].status == Queued && CanSucceed(plan, sha, old(repo.State())))
  {
    stored, op := [], None;
    if plan.contextError.Some? { return Raises(plan.contextError.value), stored, None; }
    var started := repo.MarkRunning(run);
    if started.Raises? { return Raises(started.error), stored, None; }
    r, stored, op := Work(repo, storage, run, plan, sha);
    if r.Ok? { StartedAndFinished(old(repo.runs), run, r.value); }
  }

  /** The except branches of execute: roll the storage back to `before`, then mark the run. */
  method RecordFailure(repo: Repository, storage: Storage, run: int, prefix: string, error: Error, stored: seq<string>,
                       ghost before: map<string, Bytes>)
    returns (r: BackupResult, left: nat, ghost op: Option<Op>)
    requires FreshPrefix(before, prefix) && SameOutside(before, storage.objects, prefix)
    requires forall k | k in stored :: prefix <= k
    requires forall k | k in storage.objects && prefix <= k :: k in stored
    modifies repo, storage
    ensures SameOutside(before, storage.objects, prefix) && (left == 0 ==> storage.objects == before)
    ensures match op
      case Some(done) =>
        && done.Fail? && repo.State() == Apply(old(repo.State()), done, repo.every)
        && run in old(repo.runs) && repo.runs == old(repo.runs)[run := FailedRow(old(repo.runs)[run], r)]
      case None => repo.State() == old(repo.State()) && repo.runs == old(repo.runs)
    ensures r == if op.Some? && error.Expected? then Returned("failed", false, false, None, error.code) else Reraised
    ensures storage.reliable && repo.reliable ==> left == 0 && (op.Some? <==> run in old(repo.runs))
  {
    ghost var objects := storage.objects;
    var escaped;
    left, escaped := RollbackStorage(storage, stored);
    RolledBack(before, objects, storage.objects, prefix, stored, left);
    if escaped { return Reraised, left, None; }
    var code := if error.Expected? then error.code else "INTERNAL_ERROR";
    var marked := repo.MarkFailed(run, if error.Expected? then RunFailed else RunErrored, code);
    if !marked { return Reraised, left, None; }
    op := Some(Fail(code == "STALE_RUN"));
    r := if error.Expected? then Returned("failed", false, false, None, code) else Reraised;
  }

  /** The run's row after a failure that was returned with its code, or raised again. */
  function FailedRow(row: RunRow, r: BackupResult): RunRow {
    match r
    case Returned(_, _, _, _, code) => row.(status := RunFailed, errorCode := code)
    case Reraised => row.(status := RunErrored, errorCode := "INTERNAL_ERROR")
  }

  /** The target's row and storage after one call that did `op`. */
  ghost predicate Executed(plan: Plan, sha: Digester, l: Ledger, m: Ledger, every: bool, before: map<string, Bytes>,
                           after: map<string, Bytes>, left: nat, r: BackupResult, op: Option<Op>) {
    && m == (if op.Some? then Apply(l, op.value, every) else l)
    && if op.Some? && op.value.Collect? then
         FromPlan(plan, sha, op.value) && DecidedByPrimary(l, op.value, r) && StoredBy(l, m, before, after)
       else
         && m.revisions == l.revisions && (op.Some? ==> op.value.Fail?) && FailureResult(r)
         && (left == 0 ==> after == before)
  }

  predicate FailureResult(r: BackupResult) { r.Reraised? || r == Returned("failed", false, false, None, r.code) }

  /** The runs after one call that did `op`; a run that failed may have been started before. */
  ghost predicate RunEnded(before: map<int, RunRow>, after: map<int, RunRow>, run: int, r: BackupResult,
                           op: Option<Op>) {
    match op
    case None => StartedAtMost(before, after, run) && r == Reraised
    case Some(done) =>
      run in before &&
      if done.Collect? then r.Returned? && after == before[run := Finished(before[run].(errorCode := ""), r)]
      else after == before[run := FailedRow(before[run], r)]
  }

  /**
   * BackupPipeline.execute. `left` counts the objects a rollback could not delete; `op` is what
   * the call added to the target's history, None when not even the failure could be recorded.
   * Storage and database agree after every call, whatever failed; a failed call leaves the storage
   * as it was if its rollback could delete; a run that was not queued can only become an error.
   * Without faults it succeeds exactly if the run is queued and CanSucceed holds.
   */
  method Execute(repo: Repository, storage: Storage, run: int, plan: Plan, sha: Digester)
    returns (r: BackupResult, left: nat, ghost op: Option<Op>)
    requires Agree(repo.revisions, storage.objects, sha) && FreshPrefix(storage.objects, plan.prefix)
    modifies repo, storage
    ensures Agree(repo.revisions, storage.objects, sha)
    ensures SameOutside(old(storage.objects), storage.objects, plan.prefix)
    ensures Executed(plan, sha, old(repo.State()), repo.State(), repo.every, old(storage.objects), storage.objects,
                     left, r, op)
    ensures RunEnded(old(repo.runs), repo.runs, run, r, op)
    ensures run in old(repo.runs) && old(repo.runs)[run].status != Queued && plan.contextError.None? ==>
      r == Reraised && (op.Some? ==> op.value.Fail?)
    ensures storage.reliable && repo.reliable && run in old(repo.runs) ==>
      && op.Some? && left == 0
      && (op.value.Collect? <==> old(repo.runs)[run].status == Queued && CanSucceed(plan, sha, old(repo.State())))
  {
    left := 0;
    var attempt, stored, did := Attempt(repo, storage, run, plan, sha);
    op := did;
    if attempt.Ok? { return attempt.value, 0, op; }
    r, left, op := RecordFailure(repo, storage, run, plan.prefix, attempt.error, stored, old(storage.objects));
    AgreeOutside(repo.revisions, old(storage.objects), storage.objects, plan.prefix, sha);
  }

  // ---- A worker's runs ----

  datatype Job = Job(run: int, plan: Plan)

  /** Each call gets a new UUID, so no key prefix starts another. */
  ghost predicate PrefixesApart(jobs: seq<Job>) {
    forall i, j | 0 <= i < |jobs| && 0 <= j < |jobs| && i != j :: !(jobs[i].plan.prefix <= jobs[j].plan.prefix)
  }

  /** Later jobs collect later, and all of them after the history so far. */
  ghost predicate ClockOf(past: seq<Op>, jobs: seq<Job>) {
    && (forall i | 0 <= i < |jobs| :: LastTime(past).Some? ==> LastTime(past).value < jobs[i].plan.created)
    && forall i, j | 0 <= i < j < |jobs| :: jobs[i].plan.created < jobs[j].plan.created
  }

  lemma OnePrefixStartsTheOther(a: string, b: string, s: string)
    requires a <= s && b <= s
    ensures a <= b || b <= a
  {
    if |a| <= |b| { assert a == s[..|a|] == b[..|a|]; } else { assert b == s[..|b|] == a[..|b|]; }
  }

  lemma StillFresh(before: map<string, Bytes>, after: map<string, Bytes>, done: string, next: string)
    requires FreshPrefix(before, next) && SameOutside(before, after, done) && !(done <= next) && !(next <= done)
    ensures FreshPrefix(after, next)
  {
    forall k | k in after ensures !(next <= k) {
      if next <= k && done <= k { OnePrefixStartsTheOther(done, next, k); }
    }
  }

  ghost predicate JobsIn(jobs: seq<Job>, mode: StoreMode) { forall i | 0 <= i < |jobs| :: jobs[i].plan.mode == mode }

  /** The jobs not yet served, given the history so far. */
  ghost predicate Waiting(jobs: seq<Job>, ops: seq<Op>, objects: map<string, Bytes>) {
    && PrefixesApart(jobs) && ClockAdvances(ops) && ClockOf(ops, jobs)
    && forall i | 0 <= i < |jobs| :: FreshPrefix(objects, jobs[i].plan.prefix)
  }

  function Grown(ops: seq<Op>, op: Option<Op>): seq<Op> { if op.Some? then ops + [op.value] else ops }

  /** One more operation of a history whose clock advances. */
  lemma HistoryGrows(ops: seq<Op>, op: Op, mode: StoreMode, every: bool)
    ensures Replay(ops + [op], every) == Apply(Replay(ops, every), op, every)
    ensures LastTime(ops + [op]) == if op.Collect? then Some(op.created) else LastTime(ops)
    ensures ClockAdvances(ops) && (op.Collect? && LastTime(ops).Some? ==> LastTime(ops).value < op.created) ==>
      ClockAdvances(ops + [op])
    ensures AllMode(ops, mode) && (op.Collect? ==> op.mode == mode) ==> AllMode(ops + [op], mode)
  {
    assert (ops + [op])[..|ops + [op]| - 1] == ops;
  }

  /** The jobs that wait after the first one has been served. */
  lemma OneServed(jobs: seq<Job>, ops: seq<Op>, op: Option<Op>, before: map<string, Bytes>, after: map<string, Bytes>)
    requires jobs != [] && Waiting(jobs, ops, before) && SameOutside(before, after, jobs[0].plan.prefix)
    requires op.Some? && op.value.Collect? ==> op.value.created == jobs[0].plan.created
    ensures Waiting(jobs[1..], Grown(ops, op), after)
  {
    if op.Some? { HistoryGrows(ops, op.value, ChangedOnly, false); }
    forall i | 1 <= i < |jobs| ensures FreshPrefix(after, jobs[i].plan.prefix) {
      StillFresh(before, after, jobs[0].plan.prefix, jobs[i].plan.prefix);
    }
  }

  /** What the revisions of a history all in one mode hold. */
  function Kept(ops: seq<Op>, mode: StoreMode): seq<string> {
    if mode == ChangedOnly then Dedup(Successes(ops)) else Successes(ops)
  }

  lemma KeptHashes(ops: seq<Op>, mode: StoreMode, every: bool)
    requires ClockAdvances(ops) && AllMode(ops, mode)
    ensures Hashes(Replay(ops, every).revisions) == Kept(ops, mode)
  {
    if mode == ChangedOnly { ChangedOnlyHistory(ops, every); } else { EverySuccessHistory(ops, every); }
  }

  /** The history after calls that did these operations. */
  function History(past: seq<Op>, did: seq<Option<Op>>): (ops: seq<Op>)
    ensures past <= ops && |ops| <= |past| + |did|
  {
    if did == [] then past else Grown(History(past, did[..|did| - 1]), did[|did| - 1])
  }

  /** The target's rows, the runs and the stored objects at one moment. */
  datatype Moment = Moment(ledger: Ledger, runs: map<int, RunRow>, objects: map<string, Bytes>)

  /** Everything Execute promises about one call. */
  ghost predicate CallDid(job: Job, sha: Digester, every: bool, reliable: bool, before: Moment, after: Moment,
                          left: nat, r: BackupResult, op: Option<Op>) {
    && Executed(job.plan, sha, before.ledger, after.ledger, every, before.objects, after.objects, left, r, op)
    && RunEnded(before.runs, after.runs, job.run, r, op)
    && (reliable && job.run in before.runs ==>
          && op.Some? && left == 0
          && (op.value.Collect? <==>
                before.runs[job.run].status == Queued && CanSucceed(job.plan, sha, before.ledger)))
  }

  predicate Success(r: BackupResult) { r.Returned? && r.status != "failed" }

  /** The hashes of the jobs that returned success, in their order. */
  function SuccessHashes(jobs: seq<Job>, results: seq<BackupResult>, sha: Digester): seq<string>
    requires |results| <= |jobs|
  {
    if results == [] then []
    else
      var n := |results| - 1;
      SuccessHashes(jobs, results[..n], sha)
      + if Success(results[n]) then [NormalizedHash(jobs[n].plan, sha)] else []
  }

  /** A job returns success exactly if it collected. */
  lemma SuccessCollects(job: Job, sha: Digester, every: bool, reliable: bool, before: Moment, after: Moment, left: nat,
                        r: BackupResult, op: Option<Op>)
    requires CallDid(job, sha, every, reliable, before, after, left, r, op)
    ensures after.ledger == if op.Some? then Apply(before.ledger, op.value, every) else before.ledger
    ensures if Success(r) then
        && op.Some? && op.value.Collect? && op.value.hash == NormalizedHash(job.plan, sha)
        && op.value.mode == job.plan.mode && op.value.created == job.plan.created
      else op.Some? ==> op.value.Fail?
  {
  }

  lemma HistoryOfOneMore(past: seq<Op>, did: seq<Option<Op>>, op: Option<Op>)
    ensures History(past, did + [op]) == Grown(History(past, did), op)
  {
    assert (did + [op])[..|did + [op]| - 1] == did;
  }

  lemma HashesOfOneMore(jobs: seq<Job>, results: seq<BackupResult>, r: BackupResult, sha: Digester)
    requires |results| < |jobs|
    ensures SuccessHashes(jobs, results + [r], sha)
         == SuccessHashes(jobs, results, sha) + if Success(r) then [NormalizedHash(jobs[|results|].plan, sha)] else []
  {
    assert (results + [r])[..|results|] == results;
  }

  lemma OneMoreResult(jobs: seq<Job>, results: seq<BackupResult>, r: BackupResult, sha: Digester, all: seq<string>,
                      past: seq<string>)
    requires |results| < |jobs| && all == past + SuccessHashes(jobs, results, sha)
    ensures all + (if Success(r) then [NormalizedHash(jobs[|results|].plan, sha)] else [])
         == past + SuccessHashes(jobs, results + [r], sha)
  {
    HashesOfOneMore(jobs, results, r, sha);
    var one := if Success(r) then [NormalizedHash(jobs[|results|].plan, sha)] else [];
    Regroup(past, SuccessHashes(jobs, results, sha), one);
  }

  lemma OneMoreSuccess(ops: seq<Op>, op: Op)
    ensures Successes(ops + [op]) == Successes(ops) + if op.Collect? then [op.hash] else []
  {
    assert (ops + [op])[..|ops + [op]| - 1] == ops;
  }

  /** From `first` to `now`, each call did what Execute promises, from one moment to the next. */
  ghost predicate Chronicle(jobs: seq<Job>, sha: Digester, every: bool, reliable: bool, first: Moment, now: Moment,
                            moments: seq<Moment>, left: seq<nat>, results: seq<BackupResult>, did: seq<Option<Op>>) {
    && |results| == |left| == |did| <= |jobs| && |moments| == |did| + 1
    && moments[0] == first && moments[|did|] == now
    && forall i | 0 <= i < |did| ::
         CallDid(jobs[i], sha, every, reliable, moments[i], moments[i + 1], left[i], results[i], did[i])
  }

  lemma ChronicleGrows(jobs: seq<Job>, sha: Digester, every: bool, reliable: bool, first: Moment, last: Moment,
                       now: Moment, moments: seq<Moment>, left: seq<nat>, results: seq<BackupResult>,
                       did: seq<Option<Op>>, kept: nat, r: BackupResult, op: Option<Op>)
    requires Chronicle(jobs, sha, every, reliable, first, last, moments, left, results, did) && |did| < |jobs|
    requires CallDid(jobs[|did|], sha, every, reliable, last, now, kept, r, op)
    ensures Chronicle(jobs, sha, every, reliable, first, now, moments + [now], left + [kept], results + [r], did + [op])
  {
  }

  /** The first of the waiting jobs. */
  method ServeNext(repo: Repository, storage: Storage, job: Job, sha: Digester, ghost waiting: seq<Job>,
                   ghost ops: seq<Op>, ghost mode: StoreMode)
    returns (r: BackupResult, ghost left: nat, ghost op: Option<Op>)
    requires Agree(repo.revisions, storage.objects, sha) && Waiting(waiting, ops, storage.objects)
    requires waiting != [] && waiting[0] == job
    requires repo.State() == Replay(ops, repo.every)
    modifies repo, storage
    ensures CallDid(job, sha, repo.every, storage.reliable && repo.reliable,
                    Moment(old(repo.State()), old(repo.runs), old(storage.objects)),
                    Moment(repo.State(), repo.runs, storage.objects), left, r, op)
    ensures Agree(repo.revisions, storage.objects, sha) && Waiting(waiting[1..], Grown(ops, op), storage.objects)
    ensures repo.State() == Replay(Grown(ops, op), repo.every)
    ensures Successes(Grown(ops, op)) == Successes(ops) + if Success(r) then [NormalizedHash(job.plan, sha)] else []
    ensures AllMode(ops, mode) && job.plan.mode == mode ==> AllMode(Grown(ops, op), mode)
  {
    ghost var before := Moment(repo.State(), repo.runs, storage.objects);
    r, left, op := Execute(repo, storage, job.run, job.plan, sha);
    SuccessCollects(job, sha, repo.every, storage.reliable && repo.reliable, before,
                    Moment(repo.State(), repo.runs, storage.objects), left, r, op);
    OneServed(waiting, ops, op, before.objects, storage.objects);
    if op.Some? {
      HistoryGrows(ops, op.value, mode, repo.every);
      OneMoreSuccess(ops, op.value);
    }
  }

  /**
   * Any jobs for one target, one after another, each failing wherever it likes. Each job did what
   * Execute promises, between two moments that follow each other; the target's rows are those of
   * the history of these operations, so they form a chain; its successes are the jobs that
   * returned success, with the hashes their plans deliver; storage and database agree; and if every
   * job ran in one mode, the revisions are the successes (without repetitions, if that mode is
   * changed_only).
   */
  method Serve(repo: Repository, storage: Storage, jobs: seq<Job>, sha: Digester, ghost past: seq<Op>,
               ghost mode: StoreMode)
    returns (results: seq<BackupResult>, ghost left: seq<nat>, ghost did: seq<Option<Op>>, ghost moments: seq<Moment>)
    requires Agree(repo.revisions, storage.objects, sha) && Waiting(jobs, past, storage.objects)
    requires repo.State() == Replay(past, repo.every)
    modifies repo, storage
    ensures |did| == |jobs|
    ensures Chronicle(jobs, sha, repo.every, storage.reliable && repo.reliable,
                      Moment(old(repo.State()), old(repo.runs), old(storage.objects)),
                      Moment(repo.State(), repo.runs, storage.objects), moments, left, results, did)
    ensures Agree(repo.revisions, storage.objects, sha)
    ensures repo.State() == Replay(History(past, did), repo.every) && WellLinked(repo.State())
    ensures Successes(History(past, did)) == Successes(past) + SuccessHashes(jobs, results, sha)
    ensures AllMode(past, mode) && JobsIn(jobs, mode) ==> Hashes(repo.revisions) == Kept(History(past, did), mode)
  {
    ghost var ops, first := past, Moment(repo.State(), repo.runs, storage.objects);
    ghost var now := first;
    results, left, did, moments := [], [], [], [first];
    for n := 0 to |jobs|
      invariant |did| == n && ops == History(past, did)
      invariant now == Moment(repo.State(), repo.runs, storage.objects)
      invariant Chronicle(jobs, sha, repo.every, storage.reliable && repo.reliable, first, now, moments, left,
                          results, did)
      invariant |results| == n && Successes(ops) == Successes(past) + SuccessHashes(jobs, results, sha)
      invariant Agree(repo.revisions, storage.objects, sha) && Waiting(jobs[n..], ops, storage.objects)
      invariant repo.State() == Replay(ops, repo.every)
      invariant AllMode(past, mode) && JobsIn(jobs, mode) ==> AllMode(ops, mode)
    {
      ghost var waiting := jobs[n..];
      assert waiting[0] == jobs[n] && waiting[1..] == jobs[n + 1..];
      var r, kept, op := ServeNext(repo, storage, jobs[n], sha, waiting, ops, mode);
      ghost var last := now;
      now := Moment(repo.State(), repo.runs, storage.objects);
      ChronicleGrows(jobs, sha, repo.every, storage.reliable && repo.reliable, first, last, now, moments, left,
                     results, did, kept, r, op);
      HistoryOfOneMore(past, did, op);
      OneMoreResult(jobs, results, r, sha, Successes(ops), Successes(past));
      ops := Grown(ops, op);
      results, left, did, moments := results + [r], left + [kept], did + [op], moments + [now];
    }
    ChainKept(ops, repo.every);
    if AllMode(ops, mode) { KeptHashes(ops, mode, repo.every); }
  }
}
