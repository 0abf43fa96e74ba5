/**
 * The life of one replica: any attempts to replicate and delete it, each failing wherever it
 * likes, and then an attempt, a repetition and an audit without faults.
 */
module ReplicaHistory {
  import opened Text
  import opened FtpNames
  import opened Manifest
  import opened RemoteTree
  import opened ReplicaSteps
  import opened FtpInspection
  import opened FtpReplication
  import FtpDeletion
  import FtpAudit

  datatype Attempt =
    | ToReplicate(primary: seq<Option<Bytes>>, maxSize: nat, manifest: Bytes)
    | ToDelete(manifestSize: nat)

  /** The attempts are for this replica. */
  ghost predicate For(fs: FileSet, attempts: seq<Attempt>) {
    forall a | a in attempts :: a.ToReplicate? ==> |a.primary| == |fs.artifacts| && fs.accepts(a.manifest)
  }

  /** Nobody has put anything else into the directory. */
  ghost predicate NoStrangers(fs: FileSet, t: Tree) { Children(t, fs.dir) <= fs.Names() + FtpDeletion.Parts(fs) }

  /** Attempts put nothing but expected files and their temporary objects into the directory. */
  lemma StrangersStayOut(fs: FileSet, mode: Mode, log: seq<Tree>, i: nat)
    requires Run(fs, mode, log) && i < |log| && NoStrangers(fs, log[0])
    ensures NoStrangers(fs, log[i])
  {
    forall n: string | n in Children(log[i], fs.dir) ensures n in fs.Names() + FtpDeletion.Parts(fs) {
      var p := fs.At(n);
      ChildExists(log[i], fs.dir, n);
      ChildExists(log[0], fs.dir, n);
      RunConfined(fs, mode, log, i, p);
      if Own(fs, p) {
        var m :| m in fs.Names() && (p == fs.At(m) || p == fs.At(Part(m)));
        assert p[|fs.dir|] == n;
      }
    }
  }

  method TryOnce(s: Server, fs: FileSet, a: Attempt)
    requires s.Valid() && fs.Valid() && fs.NoClash() && For(fs, [a])
    modifies s
    ensures s.Valid() && old(s.log) <= s.log && RunFrom(fs, Any, s.log, |old(s.log)| - 1)
  {
    ghost var from := |s.log| - 1;
    assert a in [a];
    match a {
      case ToReplicate(primary, maxSize, manifest) =>
        var r := Replicate(s, fs, true, primary, maxSize, manifest);
        Weaken(fs, Replicating, s.log, from);
      case ToDelete(manifestSize) =>
        var r := FtpDeletion.Delete(s, fs, manifestSize);
        Weaken(fs, FtpDeletion.DeletionMode(s.trust), s.log, from);
    }
  }

  lemma GoodAlong(fs: FileSet, log: seq<Tree>, from: nat, i: nat)
    requires fs.Valid() && fs.NoClash() && from <= i < |log| && RunFrom(fs, Any, log, from) && Good(fs, log[from])
    ensures Good(fs, log[i])
    ensures NoStrangers(fs, log[from]) ==> NoStrangers(fs, log[i])
  {
    var later := log[from..];
    LaterRun(fs, Any, log, from);
    assert later[0] == log[from] && later[i - from] == log[i];
    AnyCutIsAStart(fs, Any, later, i - from);
    if NoStrangers(fs, log[from]) { StrangersStayOut(fs, Any, later, i - from); }
  }

  /**
   * Crash safety of the methods themselves: whatever the server does, and wherever each attempt
   * ends, every state on the way is good, and has no strangers if there were none.
   */
  method TryAll(s: Server, fs: FileSet, attempts: seq<Attempt>)
    requires s.Valid() && fs.Valid() && fs.NoClash() && For(fs, attempts) && Good(fs, s.tree)
    modifies s
    ensures s.Valid() && old(s.log) <= s.log && RunFrom(fs, Any, s.log, |old(s.log)| - 1)
    ensures forall i | |old(s.log)| - 1 <= i < |s.log| :: Good(fs, s.log[i])
    ensures NoStrangers(fs, old(s.tree)) ==> forall i | |old(s.log)| - 1 <= i < |s.log| :: NoStrangers(fs, s.log[i])
  {
    ghost var from := |s.log| - 1;
    for n := 0 to |attempts|
      invariant s.Valid() && old(s.log) <= s.log && RunFrom(fs, Any, s.log, from)
    {
      ghost var log := s.log;
      assert attempts[n] in attempts;
      TryOnce(s, fs, attempts[n]);
      RunAppend(fs, Any, log, from, s.log);
    }
    forall i | from <= i < |s.log|
      ensures Good(fs, s.log[i]) && (NoStrangers(fs, s.log[from]) ==> NoStrangers(fs, s.log[i]))
    {
      GoodAlong(fs, s.log, from, i);
    }
  }

  // ---- Then an attempt without faults ----

  /** The manifest that the copy has after an attempt. */
  function KeptManifest(fs: FileSet, t: Tree, manifest: Bytes): Bytes {
    if fs.At(ManifestName) in t.files then t.files[fs.At(ManifestName)] else manifest
  }

  /** An audit of one replica on a fault-free server succeeds exactly if all true verdicts are fine. */
  lemma AuditOfOne(parts: seq<seq<FtpAudit.Finding>>, fs: FileSet, t: Tree, profile: Profile)
    requires FtpAudit.AllFindings(parts, [FtpAudit.Item(0, Some(fs))], t, Reliable(profile), 1)
    ensures FtpAudit.CountBad(parts) == 0 <==>
      forall j | 0 <= j <= |fs.artifacts| ::
        FtpAudit.TrueVerdict(fs, t, FtpAudit.Checked(fs)[j], profile) == FtpAudit.Fine
  {
    var part, n := parts[0], |fs.artifacts| + 1;
    assert parts[..0] == [] && parts[..1] == parts;
    assert FtpAudit.FindingsOf(part, 0, fs, t, Reliable(profile), n);
    forall j | 0 <= j < n
      ensures part[j].verdict == FtpAudit.TrueVerdict(fs, t, FtpAudit.Checked(fs)[j], profile)
    {
      assert FtpAudit.FindingFor(part[j], 0, fs, FtpAudit.Checked(fs)[j], t, Reliable(profile));
    }
    assert FtpAudit.Clean(part) <==> forall j | 0 <= j < n :: part[j].verdict == FtpAudit.Fine;
  }

  /**
   * From every state that interrupted attempts can leave: an attempt on a fault-free server
   * succeeds exactly if the server's replies allow it, and transfers the bytes that were absent.
   * Then an audit finds the copy healthy, and another attempt, after any rename, succeeds,
   * transfers nothing and changes nothing: both exactly if the copy's manifest fits 1 MiB.
   */
  method Repair(tree: Tree, fs: FileSet, profile: Profile, primary: seq<Option<Bytes>>, maxSize: nat, manifest: Bytes,
                renamed: Bytes)
    returns (first: Result<nat>, healthy: bool, second: Result<nat>, ghost u: Tree, ghost v: Tree)
    requires fs.Valid() && fs.NoClash() && FtpAudit.TypesApart(fs) && Good(fs, tree) && profile.Plain()
    requires |fs.artifacts| == |primary| && primary != [] && AllReadable(fs, primary, maxSize)
    requires fs.accepts(manifest) && fs.accepts(renamed)
    ensures first.Ok? <==> CanComplete(fs, tree, profile)
    ensures first.Ok? ==>
      && u == Completed(fs, tree, primary, manifest) && AllArtifacts(fs, u) && Finished(fs, u, ManifestName)
      && first.value == AbsentBytes(fs, tree, |primary|) + if HasManifest(fs, tree) then 0 else |manifest|
    ensures first.Ok? ==>
      var fits := |KeptManifest(fs, tree, manifest)| <= MaxManifestBytes;
      (healthy <==> fits) && (second.Ok? <==> fits) && (fits ==> second.value == 0 && v == u)
  {
    var s := new Server(tree, Reliable(profile));
    healthy, second := false, Err(Refused(""));
    first := Replicate(s, fs, true, primary, maxSize, manifest);
    u, v := s.tree, s.tree;
    if first.Err? { return; }
    CompletedFacts(fs, tree, primary, maxSize, manifest, profile);
    var report, parts := FtpAudit.Reconcile(s, [FtpAudit.Item(0, Some(fs))], 100);
    AuditOfOne(parts, fs, u, profile);
    FtpAudit.CompleteIsHealthy(fs, u, primary, maxSize, profile);
    healthy := report.value.success;
    CompleteIsIdle(fs, u, primary, renamed, profile);
    second := Replicate(s, fs, true, primary, maxSize, renamed);
    v := s.tree;
  }

  // ---- Or a deletion without faults ----

  lemma NeighbourKept(fs: FileSet, t: Tree, u: Tree, p: Path)
    requires Sound(t) && FtpDeletion.ExactlyGone(fs, t, u) && fs.dir in t.dirs && |p| == |fs.dir|
    ensures Exists(u, p) <==> Exists(t, p) && p != fs.dir
  {
    assert !Own(fs, p);
    assert SameFile(t, u, p);
  }

  lemma SiblingsLeft(fs: FileSet, t: Tree, u: Tree)
    requires fs.Valid() && Sound(t) && fs.dir in t.dirs && FtpDeletion.ExactlyGone(fs, t, u)
    ensures var up, last := Parent(fs.dir), fs.dir[|fs.dir| - 1];
      last in Children(t, up) && Children(u, up) == Children(t, up) - {last}
  {
    var up, last := Parent(fs.dir), fs.dir[|fs.dir| - 1];
    assert up + [last] == fs.dir;
    ChildExists(t, up, last);
    forall n: string ensures n in Children(u, up) <==> n in Children(t, up) - {last} {
      var p := up + [n];
      ChildExists(u, up, n);
      ChildExists(t, up, n);
      NeighbourKept(fs, t, u, p);
      assert p[|up|] == n;
    }
  }

  lemma OnlyOne<T>(s: set<T>, x: T)
    requires x in s
    ensures s - {x} == {} <==> s == {x}
  {
    if s - {x} == {} { assert forall y | y in s :: y == x || y in s - {x}; }
  }

  /** After an exact removal the code can see that the directory is gone exactly if it could be foreseen. */
  lemma GoneLater(fs: FileSet, t: Tree, u: Tree, profile: Profile)
    requires fs.Valid() && Sound(t) && Sound(u) && fs.dir in t.dirs && FtpDeletion.ExactlyGone(fs, t, u)
    ensures KnownGone(u, fs.dir, profile) <==> FtpDeletion.CanSeeGone(t, fs.dir, profile)
  {
    SiblingsLeft(fs, t, u);
    OnlyOne(Children(t, Parent(fs.dir)), fs.dir[|fs.dir| - 1]);
    NeighbourKept(fs, t, u, fs.dir);
    ParentThere(t, fs.dir);
    assert Parent(fs.dir) in u.dirs;
    ProvableChild(u, fs.dir, profile);
  }

  method DeleteThere(s: Server, fs: FileSet, manifestSize: nat) returns (r: Result<FtpDeletion.Deletion>)
    requires s.Valid() && fs.Valid() && FtpDeletion.Ideal(s.trust, fs, s.tree)
    modifies s
    ensures s.Valid()
    ensures r.Ok? <==> ListsEmpty(s.trust.profile) && FtpDeletion.CanSeeGone(old(s.tree), fs.dir, s.trust.profile)
    ensures r.Ok? ==> FtpDeletion.ExactlyGone(fs, old(s.tree), s.tree)
  {
    r := FtpDeletion.Delete(s, fs, manifestSize);
  }

  method DeleteAbsent(s: Server, fs: FileSet, manifestSize: nat) returns (r: Result<FtpDeletion.Deletion>)
    requires s.Valid() && fs.Valid() && s.trust.Reliable? && fs.dir !in s.tree.dirs
    modifies s
    ensures r.Ok? <==> KnownGone(old(s.tree), fs.dir, s.trust.profile)
    ensures r.Ok? ==>
      && s.tree == old(s.tree)
      && r.value == FtpDeletion.Deletion(|fs.artifacts| + 1, 0, |fs.artifacts| + 1, 0, false, true)
  {
    r := FtpDeletion.Delete(s, fs, manifestSize);
  }

  /**
   * From every state that interrupted attempts can leave, as long as nobody put anything else into
   * the directory: a deletion on a fault-free server finishes exactly if the server's replies let it
   * see the end. Then the copy is gone, nothing else has changed, and deleting it again finds it
   * absent and changes nothing.
   */
  method Retire(tree: Tree, fs: FileSet, profile: Profile, manifestSize: nat)
    returns (first: Result<FtpDeletion.Deletion>, second: Result<FtpDeletion.Deletion>, ghost u: Tree, ghost v: Tree)
    requires fs.Valid() && fs.NoClash() && Good(fs, tree) && profile.Plain() && fs.dir in tree.dirs
    requires NoStrangers(fs, tree)
    ensures first.Ok? <==> ListsEmpty(profile) && FtpDeletion.CanSeeGone(tree, fs.dir, profile)
    ensures first.Ok? ==>
      && FtpDeletion.ExactlyGone(fs, tree, u) && v == u
      && second == Ok(FtpDeletion.Deletion(|fs.artifacts| + 1, 0, |fs.artifacts| + 1, 0, false, true))
  {
    var s := new Server(tree, Reliable(profile));
    second := Err(Refused(""));
    first := DeleteThere(s, fs, manifestSize);
    u, v := s.tree, s.tree;
    if first.Err? { return; }
    GoneLater(fs, tree, u, profile);
    second := DeleteAbsent(s, fs, manifestSize);
    v := s.tree;
  }
}
