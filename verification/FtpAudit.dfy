/** reconcile_ftp_destination (services/destination_ftp.py): hash every expected file, change nothing. */
module FtpAudit {
  import opened Text
  import opened FtpNames
  import opened Manifest
  import opened RemoteTree
  import opened ReplicaSteps
  import opened FtpInspection
  import opened FtpReplication

  datatype Verdict = Fine | Missing | SizeMismatch | HashMismatch | Unreadable

  /** One checked file: where, what was found, and the bytes reported with it. */
  datatype Finding = Finding(replica: int, filename: string, verdict: Verdict, bytes: nat)

  datatype Issue = Issue(replica: int, filename: string, problem: Verdict)

  /** A replica to audit; None for its files when its recorded path is refused. */
  datatype Item = Item(replica: int, files: Option<FileSet>)

  datatype Summary = Summary(
    success: bool, checkedReplicas: nat, healthy: nat, failed: nat, checkedFiles: nat, verifiedBytes: nat,
    missing: nat, sizeMismatches: nat, hashMismatches: nat, unreadable: nat, issues: seq<Issue>, truncated: bool)

  // ---- _verify_remote_file and _verify_remote_manifest ----

  /** What a fault-free server's reply for a missing artifact is recorded as. */
  function AbsentVerdict(profile: Profile): Verdict { if profile.missing.is550 then Missing else Unreadable }

  /** The audit decides by the recorded type, not by the name, which file is read as a manifest. */
  predicate IsManifestType(file: ExpectedFile) { file.artifactType == "manifest" }

  /** The true state of an expected file; a missing or oversized manifest counts as unreadable. */
  function TrueVerdict(fs: FileSet, t: Tree, file: ExpectedFile, profile: Profile): Verdict {
    var path := fs.At(file.filename);
    if IsManifestType(file) then
      if path !in t.files || |t.files[path]| > MaxManifestBytes then Unreadable
      else if fs.accepts(t.files[path]) then Fine else HashMismatch
    else if path !in t.files then AbsentVerdict(profile)
    else if |t.files[path]| != file.size then SizeMismatch
    else if fs.sha(t.files[path]) != file.sha256 then HashMismatch
    else Fine
  }

  function ErrorVerdict(e: FtpError): Option<Verdict> {
    if e.is550 then Some(Missing) else if e.kind == Broken then None else Some(Unreadable)
  }

  /** The files of one replica in the order they are checked. */
  function Checked(fs: FileSet): (files: seq<ExpectedFile>)
    ensures |files| == |fs.artifacts| + 1
  {
    fs.artifacts + [ExpectedFile(ManifestName, 0, "", "manifest")]
  }

  /** Nothing here may change the tree: the methods modify nothing at all. */
  method VerifyFile(s: Server, fs: FileSet, file: ExpectedFile) returns (r: Result<(Verdict, nat)>)
    requires s.Valid()
    ensures r.Ok? && r.value.0 == Fine ==>
      && fs.At(file.filename) in s.tree.files && r.value.1 == |s.tree.files[fs.At(file.filename)]|
      && (!IsManifestType(file) ==> fs.sha(s.tree.files[fs.At(file.filename)]) == file.sha256)
      && (IsManifestType(file) ==> fs.accepts(s.tree.files[fs.At(file.filename)]))
    ensures r.Ok? && IsManifestType(file) ==> r.value.0 != Missing
    ensures s.trust.Reliable? ==> r.Ok? && r.value.0 == TrueVerdict(fs, s.tree, file, s.trust.profile)
  {
    var path := fs.At(file.filename);
    if IsManifestType(file) {
      var content := ReadRemote(s, path, MaxManifestBytes);
      if content.Err? { return Ok((Unreadable, 0)); }
      return Ok((if fs.accepts(content.value) then Fine else HashMismatch, |content.value|));
    }
    var mode := s.Noop();
    if mode.Failed? { return Err(Escaped(mode.error)); }
    var size := s.Size(path);
    if size.Failed? {
      match ErrorVerdict(size.error) {
        case None => return Err(Escaped(size.error));
        case Some(v) => return Ok((v, 0));
      }
    }
    if size.value < 0 { return Ok((Unreadable, 0)); }
    if size.value != file.size { return Ok((SizeMismatch, size.value)); }
    var content := s.Retr(path);
    if content.Failed? {
      match ErrorVerdict(content.error) {
        case None => return Err(Escaped(content.error));
        case Some(v) => return Ok((v, 0));
      }
    }
    if |content.value| != size.value { return Ok((SizeMismatch, |content.value|)); }
    return Ok((if fs.sha(content.value) == file.sha256 then Fine else HashMismatch, |content.value|));
  }

  // ---- Counting, stated on the list of findings ----

  ghost function Count(log: seq<Finding>, v: Verdict): nat {
    if log == [] then 0 else Count(log[..|log| - 1], v) + if log[|log| - 1].verdict == v then 1 else 0
  }

  ghost function GoodBytes(log: seq<Finding>): nat {
    if log == [] then 0
    else GoodBytes(log[..|log| - 1]) + if log[|log| - 1].verdict == Fine then log[|log| - 1].bytes else 0
  }

  ghost function Problems(log: seq<Finding>): seq<Issue> {
    if log == [] then []
    else
      var last := log[|log| - 1];
      Problems(log[..|log| - 1])
      + if last.verdict == Fine then [] else [Issue(last.replica, last.filename, last.verdict)]
  }

  /** issue_limit, which may be negative. */
  function Cap(limit: int): nat { if limit < 0 then 0 else limit }

  function Min(a: nat, b: nat): nat { if a < b then a else b }

  /** The counters are those of the findings, and the issue list their first problems. */
  ghost predicate Reports(m: Summary, log: seq<Finding>, limit: int) {
    && m.checkedFiles == |log| && m.verifiedBytes == GoodBytes(log)
    && m.missing == Count(log, Missing) && m.sizeMismatches == Count(log, SizeMismatch)
    && m.hashMismatches == Count(log, HashMismatch) && m.unreadable == Count(log, Unreadable)
    && m.issues == Problems(log)[..Min(|Problems(log)|, Cap(limit))]
    && (m.truncated <==> |Problems(log)| > Cap(limit))
  }

  /** Conservation: every checked file is fine or counted under exactly one problem. */
  lemma {:induction false} Conserved(m: Summary, log: seq<Finding>, limit: int)
    requires Reports(m, log, limit)
    ensures m.checkedFiles == Count(log, Fine) + m.missing + m.sizeMismatches + m.hashMismatches + m.unreadable
    ensures |Problems(log)| == m.missing + m.sizeMismatches + m.hashMismatches + m.unreadable
    ensures |m.issues| == Min(|Problems(log)|, Cap(limit))
  {
    CountsAdd(log);
  }

  lemma {:induction false} CountsAdd(log: seq<Finding>)
    ensures |log| == Count(log, Fine) + |Problems(log)|
    ensures |Problems(log)| ==
      Count(log, Missing) + Count(log, SizeMismatch) + Count(log, HashMismatch) + Count(log, Unreadable)
  {
    if log != [] { CountsAdd(log[..|log| - 1]); }
  }

  function Record(m: Summary, f: Finding, limit: int): Summary {
    var n := m.(checkedFiles := m.checkedFiles + 1);
    if f.verdict == Fine then n.(verifiedBytes := m.verifiedBytes + f.bytes)
    else
      var counted := match f.verdict
        case Missing => n.(missing := m.missing + 1)
        case SizeMismatch => n.(sizeMismatches := m.sizeMismatches + 1)
        case HashMismatch => n.(hashMismatches := m.hashMismatches + 1)
        case _ => n.(unreadable := m.unreadable + 1);
      if |m.issues| < limit then counted.(issues := m.issues + [Issue(f.replica, f.filename, f.verdict)])
      else counted.(truncated := true)
  }

  lemma RecordReports(m: Summary, log: seq<Finding>, f: Finding, limit: int)
    requires Reports(m, log, limit)
    ensures Reports(Record(m, f, limit), log + [f], limit)
  {
    var grown := log + [f];
    assert grown[..|grown| - 1] == log && grown[|grown| - 1] == f;
    var p, q := Problems(log), Problems(grown);
    if f.verdict != Fine {
      assert q == p + [Issue(f.replica, f.filename, f.verdict)];
      if |p| < Cap(limit) {
        assert m.issues == p && q[..|q|] == q;
      } else {
        assert q[..Cap(limit)] == p[..Cap(limit)];
      }
    } else {
      assert q == p;
    }
  }

  // ---- The audit ----

  ghost predicate Clean(part: seq<Finding>) { forall j | 0 <= j < |part| :: part[j].verdict == Fine }

  ghost function CountBad(parts: seq<seq<Finding>>): nat {
    if parts == [] then 0 else CountBad(parts[..|parts| - 1]) + if Clean(parts[|parts| - 1]) then 0 else 1
  }

  ghost function Flat(parts: seq<seq<Finding>>): seq<Finding> {
    if parts == [] then [] else Flat(parts[..|parts| - 1]) + parts[|parts| - 1]
  }

  /** A finding belongs to its file, is right when it is fine, and is the truth if nothing fails. */
  ghost predicate FindingFor(f: Finding, replica: int, fs: FileSet, file: ExpectedFile, t: Tree, trust: Trust) {
    && f.replica == replica && f.filename == file.filename
    && (f.verdict == Fine ==>
          fs.At(file.filename) in t.files && f.bytes == |t.files[fs.At(file.filename)]|)
    && (trust.Reliable? ==> f.verdict == TrueVerdict(fs, t, file, trust.profile))
  }

  /** The findings of one replica: its first n expected files in order. */
  ghost predicate FindingsOf(part: seq<Finding>, replica: int, fs: FileSet, t: Tree, trust: Trust, n: nat) {
    && |part| == n <= |fs.artifacts| + 1
    && forall j | 0 <= j < n :: FindingFor(part[j], replica, fs, Checked(fs)[j], t, trust)
  }

  /** What is known of the summary inside one replica's loop. */
  ghost predicate InReplica(m: Summary, before: Summary, log: seq<Finding>, part: seq<Finding>, limit: int) {
    && Reports(m, log + part, limit) && m.checkedReplicas == before.checkedReplicas + 1
    && m.success == before.success && m.failed == before.failed && m.healthy == before.healthy
  }

  lemma RecordInReplica(m: Summary, before: Summary, log: seq<Finding>, part: seq<Finding>, f: Finding, limit: int)
    requires InReplica(m, before, log, part, limit)
    ensures InReplica(Record(m, f, limit), before, log, part + [f], limit)
  {
    RecordReports(m, log + part, f, limit);
    assert log + part + [f] == log + (part + [f]);
  }

  lemma FindingsGrow(part: seq<Finding>, f: Finding, replica: int, fs: FileSet, t: Tree, trust: Trust)
    requires |part| <= |fs.artifacts| && FindingsOf(part, replica, fs, t, trust, |part|)
    requires FindingFor(f, replica, fs, Checked(fs)[|part|], t, trust)
    ensures FindingsOf(part + [f], replica, fs, t, trust, |part| + 1)
  {
  }

  method AuditReplica(s: Server, replica: int, fs: FileSet, before: Summary, limit: int, ghost log: seq<Finding>)
    returns (r: Result<Summary>, ghost part: seq<Finding>)
    requires s.Valid() && Reports(before, log, limit)
    ensures s.trust.Reliable? ==> r.Ok?
    ensures r.Ok? ==>
      && FindingsOf(part, replica, fs, s.tree, s.trust, |fs.artifacts| + 1) && Reports(r.value, log + part, limit)
      && r.value.checkedReplicas == before.checkedReplicas + 1 && r.value.success == before.success
      && r.value.failed == before.failed + (if Clean(part) then 0 else 1)
      && r.value.healthy == before.healthy + (if Clean(part) then 1 else 0)
  {
    var files := Checked(fs);
    var m := before.(checkedReplicas := before.checkedReplicas + 1);
    var failed := false;
    part := [];
    assert log + part == log;
    for j := 0 to |files|
      invariant FindingsOf(part, replica, fs, s.tree, s.trust, j) && InReplica(m, before, log, part, limit)
      invariant failed <==> !Clean(part)
    {
      var checked := VerifyFile(s, fs, files[j]);
      if checked.Err? { return Err(checked.failure), part; }
      var f := Finding(replica, files[j].filename, checked.value.0, checked.value.1);
      RecordInReplica(m, before, log, part, f, limit);
      FindingsGrow(part, f, replica, fs, s.tree, s.trust);
      m := Record(m, f, limit);
      failed := failed || f.verdict != Fine;
      CleanGrows(part, f);
      part := part + [f];
    }
    m := if failed then m.(failed := m.failed + 1) else m.(healthy := m.healthy + 1);
    return Ok(m), part;
  }

  lemma CleanGrows(part: seq<Finding>, f: Finding)
    ensures Clean(part + [f]) <==> Clean(part) && f.verdict == Fine
  {
    var grown := part + [f];
    assert grown[|part|] == f;
    if Clean(grown) {
      forall j | 0 <= j < |part| ensures part[j].verdict == Fine { assert grown[j] == part[j]; }
    }
  }

  /** Success means no replica failed, which means no file has a problem. */
  lemma {:induction false} NoneBad(parts: seq<seq<Finding>>)
    ensures CountBad(parts) == 0 <==> Problems(Flat(parts)) == []
  {
    if parts != [] {
      NoneBad(parts[..|parts| - 1]);
      ProblemsConcat(Flat(parts[..|parts| - 1]), parts[|parts| - 1]);
      CleanProblems(parts[|parts| - 1]);
    } else {
      assert Flat(parts) == [];
    }
  }

  lemma {:induction false} ProblemsConcat(a: seq<Finding>, b: seq<Finding>)
    ensures Problems(a + b) == Problems(a) + Problems(b)
  {
    if b == [] {
      assert a + b == a;
    } else {
      ProblemsConcat(a, b[..|b| - 1]);
      assert (a + b)[..|a + b| - 1] == a + b[..|b| - 1];
    }
  }

  lemma {:induction false} CleanProblems(part: seq<Finding>)
    ensures Clean(part) <==> Problems(part) == []
  {
    if part != [] {
      CleanProblems(part[..|part| - 1]);
      CleanGrows(part[..|part| - 1], part[|part| - 1]);
      assert part == part[..|part| - 1] + [part[|part| - 1]];
    }
  }

  ghost predicate AllFindings(parts: seq<seq<Finding>>, items: seq<Item>, t: Tree, trust: Trust, n: nat) {
    && |parts| == n <= |items|
    && forall i | 0 <= i < n :: items[i].files.Some? &&
         FindingsOf(parts[i], items[i].replica, items[i].files.value, t, trust, |items[i].files.value.artifacts| + 1)
  }

  ghost predicate InAudit(m: Summary, parts: seq<seq<Finding>>, limit: int) {
    && Reports(m, Flat(parts), limit)
    && m.success && m.checkedReplicas == |parts| == m.healthy + m.failed && m.failed == CountBad(parts)
  }

  lemma OneMorePart(parts: seq<seq<Finding>>, part: seq<Finding>)
    ensures Flat(parts + [part]) == Flat(parts) + part
    ensures CountBad(parts + [part]) == CountBad(parts) + if Clean(part) then 0 else 1
  {
    assert (parts + [part])[..|parts|] == parts;
  }

  lemma AllGrow(parts: seq<seq<Finding>>, part: seq<Finding>, items: seq<Item>, t: Tree, trust: Trust)
    requires |parts| < |items| && AllFindings(parts, items, t, trust, |parts|)
    requires var item := items[|parts|];
      item.files.Some? && FindingsOf(part, item.replica, item.files.value, t, trust, |item.files.value.artifacts| + 1)
    ensures AllFindings(parts + [part], items, t, trust, |parts| + 1)
  {
  }

  method AuditAll(s: Server, items: seq<Item>, limit: int)
    returns (r: Result<Summary>, ghost parts: seq<seq<Finding>>)
    requires s.Valid()
    ensures r.Ok? ==> AllFindings(parts, items, s.tree, s.trust, |items|) && InAudit(r.value, parts, limit)
    ensures s.trust.Reliable? ==> (r.Ok? <==> forall i | 0 <= i < |items| :: items[i].files.Some?)
  {
    var m := Summary(true, 0, 0, 0, 0, 0, 0, 0, 0, 0, [], false);
    parts := [];
    for i := 0 to |items|
      invariant AllFindings(parts, items, s.tree, s.trust, i) && InAudit(m, parts, limit)
    {
      if items[i].files.None? { return Err(Refused("RECONCILIATION_PATH_INVALID")), parts; }
      var checked, part := AuditReplica(s, items[i].replica, items[i].files.value, m, limit, Flat(parts));
      if checked.Err? { return Err(Refused("DESTINATION_RECONCILIATION_FAILED")), parts; }
      OneMorePart(parts, part);
      AllGrow(parts, part, items, s.tree, s.trust);
      m, parts := checked.value, parts + [part];
    }
    return Ok(m), parts;
  }

  /**
   * A completed audit reports exactly the findings on every expected file of every replica. It
   * aborts on a refused path and, with faults, on a broken connection.
   */
  method Reconcile(s: Server, items: seq<Item>, limit: int)
    returns (r: Result<Summary>, ghost parts: seq<seq<Finding>>)
    requires s.Valid()
    ensures r.Ok? ==>
      && AllFindings(parts, items, s.tree, s.trust, |items|) && Reports(r.value, Flat(parts), limit)
      && r.value.checkedReplicas == |items| == r.value.healthy + r.value.failed
      && r.value.failed == CountBad(parts)
      && (r.value.success <==> r.value.failed == 0)
    ensures s.trust.Reliable? ==> (r.Ok? <==> forall i | 0 <= i < |items| :: items[i].files.Some?)
  {
    r, parts := AuditAll(s, items, limit);
    if r.Err? { return; }
    var m := r.value;
    Conserved(m, Flat(parts), limit);
    NoneBad(parts);
    if m.missing + m.sizeMismatches + m.hashMismatches + m.unreadable > 0 { m := m.(success := false); }
    r := Ok(m);
  }

  /** A file set of whose manifests one can be accepted has no artifact of the type "manifest". */
  ghost predicate TypesApart(fs: FileSet) {
    (exists content :: fs.accepts(content)) ==> forall i | 0 <= i < |fs.artifacts| :: !IsManifestType(fs.artifacts[i])
  }

  /**
   * The audit finds a complete copy healthy exactly when its manifest is at most 1 MiB long: then
   * the true verdict on each of its files is fine.
   */
  lemma CompleteIsHealthy(fs: FileSet, t: Tree, primary: seq<Option<Bytes>>, maxSize: nat, profile: Profile)
    requires fs.Valid() && TypesApart(fs) && AllArtifacts(fs, t) && Finished(fs, t, ManifestName)
    requires |fs.artifacts| == |primary| && AllReadable(fs, primary, maxSize)
    ensures (forall j | 0 <= j <= |fs.artifacts| :: TrueVerdict(fs, t, Checked(fs)[j], profile) == Fine) <==>
      ManifestFits(fs, t)
  {
    assert fs.accepts(t.files[fs.At(ManifestName)]);
    forall j | 0 <= j < |fs.artifacts| ensures TrueVerdict(fs, t, Checked(fs)[j], profile) == Fine {
      var a := fs.artifacts[j];
      assert Checked(fs)[j] == a && a.filename in fs.ArtifactNames();
      assert Finished(fs, t, a.filename) && Readable(fs, primary, maxSize, j);
      RightIsRecorded(fs, j, primary[j].value, t.files[fs.At(a.filename)]);
    }
    var last := Checked(fs)[|fs.artifacts|];
    assert last.filename == ManifestName && IsManifestType(last);
  }
}
