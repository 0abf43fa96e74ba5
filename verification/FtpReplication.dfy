/** The writing half of services/destination_ftp.py: _mkdirs, _put_immutable and replicate_revision_ftp. */
module FtpReplication {
  import opened Text
  import opened FtpNames
  import opened Manifest
  import opened RemoteTree
  import opened ReplicaSteps
  import opened FtpInspection

  // ---- _mkdirs ----

  /**
   * When a fault-free server lets _mkdirs reach its directory. A server that cannot list an empty
   * directory without an error never proves anything missing below a directory just made, so at
   * most the last component may be missing, and its parent must not be empty.
   */
  ghost predicate CanMakeDirs(t: Tree, dir: Path, profile: Profile)
    requires Sound(t)
  {
    var k := Nearest(t, dir);
    k < |dir| ==>
      && dir[..k + 1] !in t.files
      && (profile.empty.Some? ==> k + 1 == |dir| && Children(t, dir[..k]) != {})
  }

  method CwdAfterMkdir(s: Server, path: Path) returns (r: Result<()>)
    requires s.Valid()
    modifies s`cwd
    ensures s.Valid()
    ensures s.trust != Hostile && r.Ok? ==> path in s.tree.dirs
    ensures s.trust.Reliable? && path in s.tree.dirs ==> r.Ok?
  {
    for attempt := 0 to 5
      invariant s.Valid()
      invariant s.trust.Reliable? && path in s.tree.dirs ==> attempt == 0
    {
      var entered := s.Cwd(path);
      if entered.Done? { return Ok(()); }
      if entered.error.kind == Broken { return Err(Refused("DESTINATION_PATH_FAILED")); }
      if entered.error.denied { return Err(Refused("DESTINATION_PATH_DENIED")); }
    }
    return Err(Refused("DESTINATION_PATH_TEMPORARY"));
  }

  /** A directory just made is empty. */
  lemma FreshIsEmpty(t: Tree, u: Tree, dir: Path, i: nat)
    requires Sound(t) && i <= |dir| && !Exists(t, dir[..i])
    requires u == t.(dirs := t.dirs + Prefixes(dir[..i]))
    ensures Children(u, dir[..i]) == {}
    ensures i < |dir| ==> !Exists(u, dir[..i + 1])
  {
    var d := dir[..i];
    forall n: string ensures n !in Children(u, d) {
      ChildExists(u, d, n);
      MissingBelow(t, d, d + [n]);
      PrefixesMeaning(d, d + [n]);
    }
    if i < |dir| {
      MissingBelow(t, d, dir[..i + 1]);
      PrefixesMeaning(d, dir[..i + 1]);
    }
  }

  /** MKD has made the directory where there was nothing, or nothing has happened. */
  ghost predicate AtMostMade(p: Path, t: Tree, u: Tree) {
    u == t || (p != [] && Parent(p) in t.dirs && !Exists(t, p) && u == WithDir(t, p))
  }

  lemma GrowByMkd(fs: FileSet, log: seq<Tree>, p: Path, u: Tree, grown: seq<Tree>)
    requires log != [] && p <= fs.dir && AtMostMade(p, log[|log| - 1], u) && grown == log + [u]
    ensures RunFrom(fs, Replicating, grown, |log| - 1)
  {
    var t := log[|log| - 1];
    var step := if u == t then Still else MakeDir(p);
    assert Makes(fs, step, t, u);
    Grow(fs, Replicating, step, log, |log| - 1, u);
  }

  /** One round of _mkdirs: enter the next directory, or prove it missing, make it and enter it. */
  method EnterOrMake(s: Server, fs: FileSet, current: Path) returns (r: Result<()>)
    requires s.Valid() && current != [] && current <= fs.dir
    modifies s
    ensures s.Valid() && old(s.log) <= s.log && RunFrom(fs, Replicating, s.log, |old(s.log)| - 1)
    ensures s.tree == old(s.tree) || (!Exists(old(s.tree), current) && s.tree == WithDir(old(s.tree), current))
    ensures s.trust != Hostile && r.Ok? ==> current in s.tree.dirs
    ensures s.trust.Reliable? && current in old(s.tree.dirs) ==> r.Ok? && s.tree == old(s.tree)
    ensures s.trust.Reliable? && current !in old(s.tree.dirs) && Parent(current) in old(s.tree.dirs) ==>
      (r.Ok? <==> Provable(old(s.tree), current, s.trust.profile))
  {
    var entered := s.Cwd(current);
    if entered.Done? { return Ok(()); }
    if entered.error.kind == Broken { return Err(Escaped(entered.error)); }
    if entered.error.denied { return Err(Refused("DESTINATION_PATH_UNREADABLE")); }
    var absent := DirectoryAbsent(s, current);
    if !absent { return Err(Refused("DESTINATION_PATH_UNREADABLE")); }
    ghost var t, log := s.tree, s.log;
    if s.trust.Reliable? { ProvableAbsent(t, current, s.trust.profile); }
    var made := s.Mkd(current);
    GrowByMkd(fs, log, current, s.tree, s.log);
    r := CwdAfterMkdir(s, current);
  }

  /**
   * What _mkdirs has done when it ends: files are as they were and only prefixes of the path may be
   * new; a normal return means that they are all there, and without faults it can be foreseen.
   */
  ghost predicate MkdirsDone(trust: Trust, t: Tree, u: Tree, dir: Path, ok: bool)
    requires Sound(t)
  {
    && u.files == t.files && t.dirs <= u.dirs <= t.dirs + Prefixes(dir)
    && (trust != Hostile && ok ==> u.dirs == t.dirs + Prefixes(dir))
    && (trust.Reliable? ==> (ok <==> CanMakeDirs(t, dir, trust.profile)))
  }

  method MkdirsRound(s: Server, fs: FileSet, i: nat, ghost t0: Tree, ghost from: nat) returns (r: Result<()>)
    requires s.Valid() && Sound(t0) && i < |fs.dir| && MkdirsAt(s.trust, t0, s.tree, fs.dir, i)
    requires from < |s.log| && RunFrom(fs, Replicating, s.log, from)
    modifies s
    ensures s.Valid() && old(s.log) <= s.log && RunFrom(fs, Replicating, s.log, from)
    ensures if r.Ok? then MkdirsAt(s.trust, t0, s.tree, fs.dir, i + 1)
            else MkdirsDone(s.trust, t0, s.tree, fs.dir, false)
  {
    ghost var u, log := s.tree, s.log;
    r := EnterOrMake(s, fs, fs.dir[..i + 1]);
    RunAppend(fs, Replicating, log, from, s.log);
    MkdirsNext(s.trust, t0, u, s.tree, fs.dir, i, r.Ok?);
  }

  method Mkdirs(s: Server, fs: FileSet) returns (r: Result<()>)
    requires s.Valid()
    modifies s
    ensures s.Valid() && old(s.log) <= s.log && RunFrom(fs, Replicating, s.log, |old(s.log)| - 1)
    ensures MkdirsDone(s.trust, old(s.tree), s.tree, fs.dir, r.Ok?)
  {
    ghost var t0, from := s.tree, |s.log| - 1;
    var i := 0;
    MkdirsEnds(s.trust, t0, t0, fs.dir);
    while i < |fs.dir|
      invariant 0 <= i <= |fs.dir| && s.Valid() && old(s.log) <= s.log && RunFrom(fs, Replicating, s.log, from)
      invariant MkdirsAt(s.trust, t0, s.tree, fs.dir, i)
    {
      r := MkdirsRound(s, fs, i, t0, from);
      if r.Err? { return; }
      i := i + 1;
    }
    MkdirsEnds(s.trust, t0, s.tree, fs.dir);
    return Ok(());
  }

  lemma PrefixWithin(dir: Path, i: nat)
    requires i <= |dir|
    ensures Prefixes(dir[..i]) <= Prefixes(dir)
  {
    forall q ensures q in Prefixes(dir[..i]) ==> q in Prefixes(dir) {
      PrefixesMeaning(dir[..i], q);
      PrefixesMeaning(dir, q);
    }
  }

  /** Where _mkdirs stands before component i. */
  ghost predicate MkdirsAt(trust: Trust, t: Tree, u: Tree, dir: Path, i: nat)
    requires Sound(t) && i <= |dir|
  {
    && u.files == t.files && t.dirs <= u.dirs <= t.dirs + Prefixes(dir[..i])
    && (trust != Hostile ==> u.dirs == t.dirs + Prefixes(dir[..i]))
    && (trust.Reliable? && i > Nearest(t, dir) ==> PastNearest(t, dir, i, trust.profile))
  }

  ghost predicate PastNearest(t: Tree, dir: Path, i: nat, profile: Profile)
    requires Sound(t) && i <= |dir| && i > Nearest(t, dir)
  {
    var k := Nearest(t, dir);
    && !Exists(t, dir[..i]) && dir[..k + 1] !in t.files
    && (profile.empty.Some? ==> i == k + 1 && Children(t, dir[..k]) != {})
  }

  /** A server with nothing but its root, whose listing of an empty directory is an error: no path can be made. */
  lemma EmptyListingBlocks(dir: Path, profile: Profile)
    requires dir != [] && profile.empty.Some?
    ensures var t := Tree({[]}, map[]); Sound(t) && !CanMakeDirs(t, dir, profile)
  {
    var t := Tree({[]}, map[]);
    assert dir[..Nearest(t, dir)] == [];
    assert Children(t, []) == {};
  }

  /** What _mkdirs meets at component i on a fault-free server. */
  lemma MkdirsMeets(trust: Trust, t: Tree, u: Tree, dir: Path, i: nat)
    requires Sound(t) && Sound(u) && i < |dir| && trust.Reliable? && MkdirsAt(trust, t, u, dir, i)
    ensures var k, next := Nearest(t, dir), dir[..i + 1];
      && Parent(next) in u.dirs
      && (i < k ==> next in t.dirs)
      && (i >= k ==> next !in u.dirs)
      && (i >= k && Provable(u, next, trust.profile) ==> PastNearest(t, dir, i + 1, trust.profile))
      && (i >= k && !Provable(u, next, trust.profile) ==> !CanMakeDirs(t, dir, trust.profile))
  {
    var here, next, k := dir[..i], dir[..i + 1], Nearest(t, dir);
    assert Parent(next) == here;
    PrefixesMeaning(here, here);
    ProvableChild(u, next, trust.profile);
    if i < k {
      DirPrefixes(t, dir[..k]);
      PrefixesMeaning(dir[..k], next);
    } else if i == k {
      DirPrefixes(t, here);
      PrefixesMeaning(here, next);
    } else {
      FreshIsEmpty(t, u, dir, i);
      MissingBelow(t, here, next);
    }
  }

  lemma MkdirsNext(trust: Trust, t: Tree, u: Tree, v: Tree, dir: Path, i: nat, ok: bool)
    requires Sound(t) && Sound(u) && i < |dir| && MkdirsAt(trust, t, u, dir, i)
    requires v == u || (!Exists(u, dir[..i + 1]) && v == WithDir(u, dir[..i + 1]))
    requires trust != Hostile && ok ==> dir[..i + 1] in v.dirs
    requires trust.Reliable? && dir[..i + 1] in u.dirs ==> ok
    requires trust.Reliable? && dir[..i + 1] !in u.dirs && Parent(dir[..i + 1]) in u.dirs ==>
      (ok <==> Provable(u, dir[..i + 1], trust.profile))
    ensures if ok then MkdirsAt(trust, t, v, dir, i + 1) else MkdirsDone(trust, t, v, dir, false)
  {
    var next := dir[..i + 1];
    assert Parent(next) == dir[..i];
    assert Prefixes(next) == Prefixes(dir[..i]) + {next};
    PrefixWithin(dir, i + 1);
    if trust.Reliable? { MkdirsMeets(trust, t, u, dir, i); }
  }

  lemma MkdirsEnds(trust: Trust, t: Tree, u: Tree, dir: Path)
    requires Sound(t)
    ensures MkdirsAt(trust, t, t, dir, 0)
    ensures MkdirsAt(trust, t, u, dir, |dir|) ==> MkdirsDone(trust, t, u, dir, true)
  {
    assert dir[..0] == [] && dir[..|dir|] == dir;
  }

  // ---- _put_immutable ----

  /** The tree with one file published under its final name and its temporary object gone. */
  function Published(t: Tree, fs: FileSet, name: string, content: Bytes): Tree {
    t.(files := (t.files - {fs.At(Part(name))})[fs.At(name) := content])
  }

  lemma PartApart(fs: FileSet, name: string)
    ensures fs.At(Part(name)) != fs.At(name) && Parent(fs.At(name)) == fs.dir && Parent(fs.At(Part(name))) == fs.dir
  {
    PathsApart(fs, Part(name), name);
    assert |Part(name)| == |name| + 5;
  }

  ghost predicate SameFile(t: Tree, u: Tree, p: Path) {
    (p in t.files <==> p in u.files) && (p in t.files ==> u.files[p] == t.files[p])
  }

  ghost predicate OthersKept(fs: FileSet, t: Tree, u: Tree, name: string) {
    forall m | m in fs.Names() && m != name :: SameFile(t, u, fs.At(m))
  }

  lemma OthersKeptBy(fs: FileSet, t: Tree, u: Tree, name: string, move: Move)
    requires fs.NoClash() && name in fs.Names() && Makes(fs, move, t, u)
    requires move == Still || move == PutPart(name) || move == DropPart(name) || move == Finish(name)
    ensures OthersKept(fs, t, u, name)
  {
    forall m | m in fs.Names() && m != name ensures SameFile(t, u, fs.At(m)) {
      PathsApart(fs, m, Part(name));
      PathsApart(fs, m, name);
    }
  }

  /** _store of the temporary object. */
  method StorePart(s: Server, fs: FileSet, name: string, content: Bytes) returns (r: Result<()>)
    requires s.Valid() && name in fs.Names()
    modifies s
    ensures s.Valid() && old(s.log) <= s.log && RunFrom(fs, Replicating, s.log, |old(s.log)| - 1)
    ensures fs.NoClash() ==> OthersKept(fs, old(s.tree), s.tree, name)
    ensures fs.NoClash() && AllArtifacts(fs, old(s.tree)) ==> AllArtifacts(fs, s.tree)
    ensures s.trust.Reliable? && CanHold(old(s.tree), fs.At(Part(name))) ==>
      r.Ok? && s.tree == WithFile(old(s.tree), fs.At(Part(name)), content)
  {
    ghost var t0, log0 := s.tree, s.log;
    var stored := s.Stor(fs.At(Part(name)), content);
    ghost var move := if s.tree == t0 then Still else PutPart(name);
    Grow(fs, Replicating, move, log0, |log0| - 1, s.tree);
    if fs.NoClash() {
      OthersKeptBy(fs, t0, s.tree, name, move);
      if AllArtifacts(fs, t0) { ArtifactsKept(fs, move, t0, s.tree); }
    }
    match stored {
      case Done(_) => return Ok(());
      case Failed(e) =>
        return Err(Refused(match e.kind
          case Temporary => "DESTINATION_UPLOAD_TEMPORARY"
          case Permanent => "DESTINATION_UPLOAD_DENIED"
          case Broken => "DESTINATION_UPLOAD_FAILED"));
    }
  }

  /** The rename that publishes a temporary object whose content has been verified. */
  method FinishPart(s: Server, fs: FileSet, name: string) returns (r: Result<()>)
    requires s.Valid() && name in fs.Names()
    requires fs.At(Part(name)) in s.tree.files && fs.Right(name, s.tree.files[fs.At(Part(name))])
    requires name == ManifestName ==> AllArtifacts(fs, s.tree)
    modifies s
    ensures s.Valid() && old(s.log) <= s.log && RunFrom(fs, Replicating, s.log, |old(s.log)| - 1)
    ensures r.Ok? ==> Finished(fs, s.tree, name)
    ensures fs.NoClash() ==> OthersKept(fs, old(s.tree), s.tree, name)
    ensures s.trust.Reliable? && CanHold(old(s.tree), fs.At(name)) ==>
      r.Ok? && s.tree == Moved(old(s.tree), fs.At(Part(name)), fs.At(name))
  {
    ghost var t0, log0 := s.tree, s.log;
    PartApart(fs, name);
    var renamed := s.Rename(fs.At(Part(name)), fs.At(name));
    ghost var move := if s.tree == t0 then Still else Finish(name);
    Grow(fs, Replicating, move, log0, |log0| - 1, s.tree);
    if fs.NoClash() { OthersKeptBy(fs, t0, s.tree, name, move); }
    if renamed.Failed? { return Err(Refused("DESTINATION_FINALIZE_FAILED")); }
    return Ok(());
  }

  lemma StoredThenMoved(t: Tree, fs: FileSet, name: string, content: Bytes)
    ensures var u := WithFile(t, fs.At(Part(name)), content);
      Moved(u, fs.At(Part(name)), fs.At(name)) == Published(t, fs, name, content)
  {
    PartApart(fs, name);
    var u := WithFile(t, fs.At(Part(name)), content);
    assert u.files - {fs.At(Part(name))} == t.files - {fs.At(Part(name))};
  }

  /** Upload to the temporary name, read back, compare, rename. */
  method Upload(s: Server, fs: FileSet, name: string, content: Bytes) returns (r: Result<()>)
    requires s.Valid() && name in fs.Names() && fs.Right(name, content)
    requires name == ManifestName ==> fs.NoClash() && AllArtifacts(fs, s.tree)
    modifies s
    ensures s.Valid() && old(s.log) <= s.log && RunFrom(fs, Replicating, s.log, |old(s.log)| - 1)
    ensures r.Ok? ==> Finished(fs, s.tree, name)
    ensures fs.NoClash() ==> OthersKept(fs, old(s.tree), s.tree, name)
    ensures s.trust.Reliable? && CanHold(old(s.tree), fs.At(name)) && CanHold(old(s.tree), fs.At(Part(name))) ==>
      r.Ok? && s.tree == Published(old(s.tree), fs, name, content)
  {
    ghost var log0 := s.log;
    StoredThenMoved(s.tree, fs, name, content);
    r := StorePart(s, fs, name, content);
    if r.Err? { return; }
    ghost var log1 := s.log;
    var uploaded := ReadRemote(s, fs.At(Part(name)), |content|);
    if uploaded.Err? { return Err(uploaded.failure); }
    if fs.sha(uploaded.value) != fs.sha(content) { return Err(Refused("DESTINATION_VERIFY_FAILED")); }
    DigestTells(fs.sha, uploaded.value, content);
    r := FinishPart(s, fs, name);
    RunAppend(fs, Replicating, log1, |log0| - 1, s.log);
  }

  /** Replication moves keep every finished artifact. */
  lemma ArtifactsKept(fs: FileSet, move: Move, t: Tree, u: Tree)
    requires fs.NoClash() && Makes(fs, move, t, u) && !move.Drop? && AllArtifacts(fs, t)
    ensures AllArtifacts(fs, u)
  {
    forall n | n in fs.ArtifactNames() ensures Finished(fs, u, n) { FinishedKept(fs, move, t, u, n); }
  }

  /** The clean-up that follows every upload, finished or not. */
  method DropPartOf(s: Server, fs: FileSet, name: string)
    requires s.Valid() && name in fs.Names()
    modifies s
    ensures s.Valid() && old(s.log) <= s.log && RunFrom(fs, Replicating, s.log, |old(s.log)| - 1)
    ensures Finished(fs, old(s.tree), name) ==> Finished(fs, s.tree, name)
    ensures fs.NoClash() ==> OthersKept(fs, old(s.tree), s.tree, name)
    ensures fs.At(Part(name)) !in old(s.tree.files) ==> s.tree == old(s.tree)
  {
    ghost var t0, log0 := s.tree, s.log;
    PartApart(fs, name);
    var dropped := s.Dele(fs.At(Part(name)));
    ghost var move := if s.tree == t0 then Still else DropPart(name);
    Grow(fs, Replicating, move, log0, |log0| - 1, s.tree);
    if fs.NoClash() { OthersKeptBy(fs, t0, s.tree, name, move); }
  }

  /**
   * Write one file once: true when it was uploaded, false when the right content was there
   * already. Whatever fails, and wherever, the steps taken are replication steps.
   */
  method PutImmutable(s: Server, fs: FileSet, name: string, content: Bytes) returns (r: Result<bool>)
    requires s.Valid() && name in fs.Names() && fs.Right(name, content)
    requires name == ManifestName ==> fs.NoClash() && AllArtifacts(fs, s.tree)
    modifies s
    ensures s.Valid() && old(s.log) <= s.log && RunFrom(fs, Replicating, s.log, |old(s.log)| - 1)
    ensures r.Ok? ==> Finished(fs, s.tree, name)
    ensures r == Ok(false) ==> s.tree == old(s.tree)
    ensures fs.NoClash() ==> OthersKept(fs, old(s.tree), s.tree, name)
    ensures s.trust != Hostile && r.Ok? ==> (r.value <==> fs.At(name) !in old(s.tree.files))
    ensures s.trust.Reliable? && fs.At(name) in old(s.tree.files) ==>
      s.tree == old(s.tree) && if old(s.tree.files)[fs.At(name)] == content then r == Ok(false) else r.Err?
    ensures s.trust.Reliable? && !Exists(old(s.tree), fs.At(name)) && CanHold(old(s.tree), fs.At(name))
            && CanHold(old(s.tree), fs.At(Part(name))) ==>
      if KnownMissing(old(s.tree), fs.At(name), s.trust.profile)
      then r == Ok(true) && s.tree == Published(old(s.tree), fs, name, content)
      else r.Err? && s.tree == old(s.tree)
  {
    var final := fs.At(name);
    PartApart(fs, name);
    ghost var log0 := s.log;
    var present := RemoteExists(s, final);
    if present.Err? { return Err(present.failure); }
    if present.value {
      var existing := ReadRemote(s, final, |content|);
      if existing.Err? { return Err(existing.failure); }
      DigestTells(fs.sha, existing.value, content);
      if fs.sha(existing.value) == fs.sha(content) { return Ok(false); }
      return Err(Refused("DESTINATION_CONFLICT"));
    }
    var uploaded := Upload(s, fs, name, content);
    ghost var log1 := s.log;
    DropPartOf(s, fs, name);
    RunAppend(fs, Replicating, log1, |log0| - 1, s.log);
    if uploaded.Err? { return Err(uploaded.failure); }
    return Ok(true);
  }

  // ---- replicate_revision_ftp ----

  const MaxManifestBytes := 1024 * 1024

  /** The primary storage delivers an artifact with its recorded size and digest, within the size limit. */
  predicate Readable(fs: FileSet, primary: seq<Option<Bytes>>, maxSize: nat, i: nat)
    requires i < |fs.artifacts| && i < |primary|
  {
    var a := fs.artifacts[i];
    a.size <= maxSize && primary[i].Some? && |primary[i].value| == a.size && fs.sha(primary[i].value) == a.sha256
  }

  ghost predicate AllReadable(fs: FileSet, primary: seq<Option<Bytes>>, maxSize: nat)
    requires |primary| == |fs.artifacts|
  {
    forall i | 0 <= i < |primary| :: Readable(fs, primary, maxSize, i)
  }

  /** The recorded sizes of the first i artifacts that are not at their final names. */
  ghost function AbsentBytes(fs: FileSet, t: Tree, i: nat): nat
    requires i <= |fs.artifacts|
  {
    if i == 0 then 0
    else AbsentBytes(fs, t, i - 1)
         + if fs.At(fs.artifacts[i - 1].filename) in t.files then 0 else fs.artifacts[i - 1].size
  }

  /** The tree with the first i artifacts in place. */
  ghost function Filled(fs: FileSet, t: Tree, primary: seq<Option<Bytes>>, i: nat): Tree
    requires i <= |fs.artifacts| == |primary|
  {
    if i == 0 then t
    else Put(Filled(fs, t, primary, i - 1), fs, fs.artifacts[i - 1].filename, ContentOf(primary[i - 1]))
  }

  function ContentOf(delivered: Option<Bytes>): Bytes { if delivered.Some? then delivered.value else [] }

  ghost function Put(t: Tree, fs: FileSet, name: string, content: Bytes): Tree {
    if fs.At(name) in t.files then t else Published(t, fs, name, content)
  }

  ghost predicate NoDirsInWay(fs: FileSet, t: Tree) {
    forall n | n in fs.Names() :: fs.At(n) !in t.dirs && fs.At(Part(n)) !in t.dirs
  }

  /** Whether a fault-free server lets the code see that a file is missing from the revision directory. */
  ghost predicate CanLook(fs: FileSet, t: Tree, profile: Profile) {
    profile.quiet || profile.missing.missing || profile.empty.None? || Children(t, fs.dir) != {}
  }

  lemma PutFacts(t: Tree, fs: FileSet, name: string, content: Bytes)
    requires Sound(t) && fs.dir in t.dirs && fs.At(name) !in t.dirs
    ensures var u := Put(t, fs, name, content);
      && Sound(u) && u.dirs == t.dirs && Children(u, fs.dir) != {} && fs.At(name) in u.files
      && forall m | m != name && m != Part(name) :: SameFile(t, u, fs.At(m))
  {
    PartApart(fs, name);
    var u := Put(t, fs, name, content);
    SameDirs(t, u);
    ChildExists(u, fs.dir, name);
    forall m | m != name && m != Part(name) ensures SameFile(t, u, fs.At(m)) {
      PathsApart(fs, m, name);
      PathsApart(fs, m, Part(name));
    }
  }

  /** One artifact on a fault-free server. */
  lemma LookNow(fs: FileSet, t: Tree, name: string, profile: Profile)
    requires Sound(t) && fs.dir in t.dirs && !Exists(t, fs.At(name))
    ensures KnownMissing(t, fs.At(name), profile) <==> CanLook(fs, t, profile)
  {
    assert Parent(fs.At(name)) == fs.dir;
    ProvableChild(t, fs.At(name), profile);
  }

  /** What a fault-free server has to offer for the files to be put one by one. */
  ghost predicate Puttable(fs: FileSet, t: Tree) {
    Safe(fs, t) && NoDirsInWay(fs, t) && fs.dir in t.dirs
  }

  /** A file in the way is the right one, so putting it again is a no-op; the rest stays as it is. */
  lemma PuttableKept(fs: FileSet, t: Tree, name: string, content: Bytes)
    requires fs.NoClash() && Sound(t) && Puttable(fs, t) && name in fs.Names() && fs.Right(name, content)
    ensures Puttable(fs, Put(t, fs, name, content))
  {
    PutFacts(t, fs, name, content);
    var u := Put(t, fs, name, content);
    forall n | n in fs.Names() && fs.At(n) in u.files ensures fs.Right(n, u.files[fs.At(n)]) {
      if n != name { assert SameFile(t, u, fs.At(n)); }
    }
  }

  lemma RightIsRecorded(fs: FileSet, i: nat, content: Bytes, other: Bytes)
    requires fs.Valid() && i < |fs.artifacts| && fs.sha(content) == fs.artifacts[i].sha256
    ensures fs.Right(fs.artifacts[i].filename, content)
    ensures fs.Right(fs.artifacts[i].filename, other) ==> other == content
  {
    if fs.Right(fs.artifacts[i].filename, other) {
      var k :| 0 <= k < |fs.artifacts| && fs.artifacts[k].filename == fs.artifacts[i].filename
        && fs.sha(other) == fs.artifacts[k].sha256;
      assert k == i;
      DigestTells(fs.sha, other, content);
    }
  }

  /** One artifact: the checks on the primary copy, then the immutable write. */
  method PutArtifact(s: Server, fs: FileSet, primary: seq<Option<Bytes>>, maxSize: nat, i: nat) returns (r: Result<nat>)
    requires s.Valid() && fs.Valid() && fs.NoClash() && i < |fs.artifacts| == |primary|
    modifies s
    ensures s.Valid() && old(s.log) <= s.log && RunFrom(fs, Replicating, s.log, |old(s.log)| - 1)
    ensures r.Ok? ==> Readable(fs, primary, maxSize, i) && Finished(fs, s.tree, fs.artifacts[i].filename)
    ensures OthersKept(fs, old(s.tree), s.tree, fs.artifacts[i].filename)
    ensures s.trust != Hostile && r.Ok? ==>
      r.value == if fs.At(fs.artifacts[i].filename) in old(s.tree.files) then 0 else fs.artifacts[i].size
    ensures s.trust.Reliable? && Puttable(fs, old(s.tree)) ==>
      && (r.Ok? <==>
            Readable(fs, primary, maxSize, i) &&
            (fs.At(fs.artifacts[i].filename) in old(s.tree.files) || CanLook(fs, old(s.tree), s.trust.profile)))
      && (r.Ok? ==> s.tree == Put(old(s.tree), fs, fs.artifacts[i].filename, primary[i].value))
  {
    var a := fs.artifacts[i];
    if a.size > maxSize { return Err(Refused("ARTIFACT_TOO_LARGE")); }
    if primary[i].None? { return Err(Refused("PRIMARY_ARTIFACT_MISSING")); }
    var content := primary[i].value;
    if |content| != a.size || fs.sha(content) != a.sha256 { return Err(Refused("PRIMARY_ARTIFACT_INVALID")); }
    var path := fs.At(a.filename);
    RightIsRecorded(fs, i, content, if path in s.tree.files then s.tree.files[path] else content);
    PartApart(fs, a.filename);
    if s.trust.Reliable? && Puttable(fs, s.tree) && fs.At(a.filename) !in s.tree.files {
      LookNow(fs, s.tree, a.filename, s.trust.profile);
    }
    var put := PutImmutable(s, fs, a.filename, content);
    if put.Err? { return Err(put.failure); }
    return Ok(if put.value then |content| else 0);
  }

  /** What the artifact loop has done after i artifacts. */
  ghost predicate ArtifactsDone(fs: FileSet, primary: seq<Option<Bytes>>, maxSize: nat, t: Tree, u: Tree, i: nat)
    requires i <= |fs.artifacts| == |primary|
  {
    && (forall j | 0 <= j < i :: Readable(fs, primary, maxSize, j) && Finished(fs, u, fs.artifacts[j].filename))
    && (forall j | i <= j < |primary| :: SameFile(t, u, fs.At(fs.artifacts[j].filename)))
    && SameFile(t, u, fs.At(ManifestName))
  }

  lemma ArtifactsStep(fs: FileSet, primary: seq<Option<Bytes>>, maxSize: nat, t: Tree, u: Tree, v: Tree, i: nat)
    requires fs.Valid() && i < |fs.artifacts| == |primary| && ArtifactsDone(fs, primary, maxSize, t, u, i)
    requires OthersKept(fs, u, v, fs.artifacts[i].filename)
    requires Readable(fs, primary, maxSize, i) && Finished(fs, v, fs.artifacts[i].filename)
    ensures ArtifactsDone(fs, primary, maxSize, t, v, i + 1)
  {
    forall j | 0 <= j < |primary| && j != i
      ensures SameFile(u, v, fs.At(fs.artifacts[j].filename))
    {
      assert fs.artifacts[j].filename in fs.Names();
    }
    assert SameFile(u, v, fs.At(ManifestName));
  }

  /** How far the loop has come on a fault-free server. */
  ghost predicate FilledTo(fs: FileSet, primary: seq<Option<Bytes>>, t: Tree, u: Tree, i: nat, profile: Profile)
    requires i <= |fs.artifacts| == |primary|
  {
    && Puttable(fs, u) && u == Filled(fs, t, primary, i)
    && (CanLook(fs, t, profile) ==> CanLook(fs, u, profile)) && (i > 0 ==> CanLook(fs, t, profile))
  }

  lemma FilledStep(fs: FileSet, primary: seq<Option<Bytes>>, maxSize: nat, t: Tree, u: Tree, i: nat, profile: Profile)
    requires fs.Valid() && fs.NoClash() && Sound(u) && i < |fs.artifacts| == |primary|
    requires FilledTo(fs, primary, t, u, i, profile)
    requires Readable(fs, primary, maxSize, i)
    ensures var name := fs.artifacts[i].filename;
      if fs.At(name) in u.files || CanLook(fs, u, profile)
      then FilledTo(fs, primary, t, Put(u, fs, name, primary[i].value), i + 1, profile)
      else !CanLook(fs, t, profile)
  {
    var a := fs.artifacts[i];
    RightIsRecorded(fs, i, primary[i].value, primary[i].value);
    PuttableKept(fs, u, a.filename, primary[i].value);
    PutFacts(u, fs, a.filename, primary[i].value);
    if fs.At(a.filename) in u.files { ChildExists(u, fs.dir, a.filename); }
  }

  ghost predicate Ideal(trust: Trust, fs: FileSet, primary: seq<Option<Bytes>>, maxSize: nat, t: Tree)
    requires |fs.artifacts| == |primary|
  {
    trust.Reliable? && Puttable(fs, t) && AllReadable(fs, primary, maxSize)
  }

  ghost predicate LoopAt(trust: Trust, fs: FileSet, primary: seq<Option<Bytes>>, maxSize: nat, t: Tree, u: Tree,
                         i: nat, total: nat)
    requires i <= |fs.artifacts| == |primary|
  {
    && ArtifactsDone(fs, primary, maxSize, t, u, i)
    && (trust != Hostile ==> total == AbsentBytes(fs, t, i))
    && (Ideal(trust, fs, primary, maxSize, t) ==> FilledTo(fs, primary, t, u, i, trust.profile))
  }

  lemma LoopNext(trust: Trust, fs: FileSet, primary: seq<Option<Bytes>>, maxSize: nat, t: Tree, u: Tree, v: Tree,
                 i: nat, total: nat, put: Result<nat>)
    requires fs.Valid() && fs.NoClash() && Sound(u) && i < |fs.artifacts| == |primary|
    requires LoopAt(trust, fs, primary, maxSize, t, u, i, total)
    requires put.Ok? ==> Readable(fs, primary, maxSize, i) && Finished(fs, v, fs.artifacts[i].filename)
    requires OthersKept(fs, u, v, fs.artifacts[i].filename)
    requires trust != Hostile && put.Ok? ==>
      put.value == if fs.At(fs.artifacts[i].filename) in u.files then 0 else fs.artifacts[i].size
    requires trust.Reliable? && Puttable(fs, u) && Readable(fs, primary, maxSize, i) ==>
      && (put.Ok? <==> fs.At(fs.artifacts[i].filename) in u.files || CanLook(fs, u, trust.profile))
      && (put.Ok? ==> v == Put(u, fs, fs.artifacts[i].filename, ContentOf(primary[i])))
    ensures put.Ok? ==> LoopAt(trust, fs, primary, maxSize, t, v, i + 1, total + put.value)
    ensures put.Err? && Ideal(trust, fs, primary, maxSize, t) ==> !CanLook(fs, t, trust.profile)
  {
    if put.Ok? { ArtifactsStep(fs, primary, maxSize, t, u, v, i); }
    if Ideal(trust, fs, primary, maxSize, t) { FilledStep(fs, primary, maxSize, t, u, i, trust.profile); }
  }

  lemma LoopEnds(fs: FileSet, primary: seq<Option<Bytes>>, maxSize: nat, t: Tree, u: Tree)
    requires |fs.artifacts| == |primary| && ArtifactsDone(fs, primary, maxSize, t, u, |primary|)
    ensures AllReadable(fs, primary, maxSize) && AllArtifacts(fs, u)
  {
  }

  method PutArtifacts(s: Server, fs: FileSet, primary: seq<Option<Bytes>>, maxSize: nat) returns (r: Result<nat>)
    requires s.Valid() && fs.Valid() && fs.NoClash() && |fs.artifacts| == |primary| && primary != []
    modifies s
    ensures s.Valid() && old(s.log) <= s.log && RunFrom(fs, Replicating, s.log, |old(s.log)| - 1)
    ensures r.Ok? ==> AllReadable(fs, primary, maxSize) && AllArtifacts(fs, s.tree)
    ensures r.Ok? ==> LoopAt(s.trust, fs, primary, maxSize, old(s.tree), s.tree, |primary|, r.value)
    ensures Ideal(s.trust, fs, primary, maxSize, old(s.tree)) ==> (r.Ok? <==> CanLook(fs, old(s.tree), s.trust.profile))
  {
    ghost var t0, from := s.tree, |s.log| - 1;
    var total := 0;
    for i := 0 to |primary|
      invariant s.Valid() && old(s.log) <= s.log && RunFrom(fs, Replicating, s.log, from)
      invariant LoopAt(s.trust, fs, primary, maxSize, t0, s.tree, i, total)
    {
      ghost var u, log := s.tree, s.log;
      var put := PutArtifact(s, fs, primary, maxSize, i);
      RunAppend(fs, Replicating, log, from, s.log);
      LoopNext(s.trust, fs, primary, maxSize, t0, u, s.tree, i, total, put);
      if put.Err? { return Err(put.failure); }
      total := total + put.value;
    }
    LoopEnds(fs, primary, maxSize, t0, s.tree);
    return Ok(total);
  }

  /** The manifest, once every artifact is in place: an existing one is kept if it is acceptable. */
  method PutManifest(s: Server, fs: FileSet, manifest: Bytes) returns (r: Result<nat>)
    requires s.Valid() && fs.NoClash() && fs.accepts(manifest) && AllArtifacts(fs, s.tree)
    modifies s
    ensures s.Valid() && old(s.log) <= s.log && RunFrom(fs, Replicating, s.log, |old(s.log)| - 1)
    ensures r.Ok? ==> Finished(fs, s.tree, ManifestName)
    ensures OthersKept(fs, old(s.tree), s.tree, ManifestName)
    ensures s.trust != Hostile && r.Ok? ==> r.value == if HasManifest(fs, old(s.tree)) then 0 else |manifest|
    ensures s.trust.Reliable? && Puttable(fs, old(s.tree)) && CanLook(fs, old(s.tree), s.trust.profile) ==>
      && (r.Ok? <==> ManifestFits(fs, old(s.tree)))
      && (r.Ok? ==> s.tree == Put(old(s.tree), fs, ManifestName, manifest))
  {
    var path := fs.At(ManifestName);
    PartApart(fs, ManifestName);
    if s.trust.Reliable? && Puttable(fs, s.tree) && path !in s.tree.files {
      LookNow(fs, s.tree, ManifestName, s.trust.profile);
    }
    var present := RemoteExists(s, path);
    if present.Err? { return Err(present.failure); }
    if present.value {
      var existing := ReadRemote(s, path, MaxManifestBytes);
      if existing.Err? || !fs.accepts(existing.value) { return Err(Refused("DESTINATION_CONFLICT")); }
      return Ok(0);
    }
    var put := PutImmutable(s, fs, ManifestName, manifest);
    if put.Err? { return Err(put.failure); }
    return Ok(if put.value then |manifest| else 0);
  }

  /** The tree after a complete attempt: missing directories made, missing files put, the rest as it was. */
  ghost function Completed(fs: FileSet, t: Tree, primary: seq<Option<Bytes>>, manifest: Bytes): Tree
    requires |fs.artifacts| == |primary|
  {
    Put(Filled(fs, t.(dirs := t.dirs + Prefixes(fs.dir)), primary, |primary|), fs, ManifestName, manifest)
  }

  /** Everything a fault-free server and its tree must offer for an attempt to succeed. */
  ghost predicate CanComplete(fs: FileSet, t: Tree, profile: Profile)
    requires Sound(t)
  {
    CanMakeDirs(t, fs.dir, profile) && CanLook(fs, t, profile) && ManifestFits(fs, t)
  }

  lemma AfterMkdirs(fs: FileSet, t: Tree, u: Tree)
    requires fs.Valid() && Sound(t) && u == t.(dirs := t.dirs + Prefixes(fs.dir))
    ensures Children(u, fs.dir) == Children(t, fs.dir) && fs.dir in u.dirs
    ensures Safe(fs, t) && NoDirsInWay(fs, t) ==> Puttable(fs, u)
    ensures fs.dir in t.dirs ==> u == t
  {
    PrefixesMeaning(fs.dir, fs.dir);
    forall n: string ensures n in Children(u, fs.dir) <==> n in Children(t, fs.dir) {
      ChildExists(u, fs.dir, n);
      ChildExists(t, fs.dir, n);
      PrefixesMeaning(fs.dir, fs.dir + [n]);
    }
    forall n: string ensures fs.At(n) !in Prefixes(fs.dir) { PrefixesMeaning(fs.dir, fs.At(n)); }
    if fs.dir in t.dirs { DirPrefixes(t, fs.dir); }
  }

  /** The artifact phase and the manifest phase. */
  method FillDirectory(s: Server, fs: FileSet, primary: seq<Option<Bytes>>, maxSize: nat, manifest: Bytes)
    returns (r: Result<nat>)
    requires s.Valid() && fs.Valid() && fs.NoClash() && |fs.artifacts| == |primary| && primary != []
    requires fs.accepts(manifest)
    modifies s
    ensures s.Valid() && old(s.log) <= s.log && RunFrom(fs, Replicating, s.log, |old(s.log)| - 1)
    ensures r.Ok? ==> AllArtifacts(fs, s.tree) && Finished(fs, s.tree, ManifestName)
    ensures s.trust != Hostile && r.Ok? ==>
      r.value == AbsentBytes(fs, old(s.tree), |primary|) + if HasManifest(fs, old(s.tree)) then 0 else |manifest|
    ensures Ideal(s.trust, fs, primary, maxSize, old(s.tree)) ==>
      && (r.Ok? <==> CanLook(fs, old(s.tree), s.trust.profile) && ManifestFits(fs, old(s.tree)))
      && (r.Ok? ==> s.tree == Put(Filled(fs, old(s.tree), primary, |primary|), fs, ManifestName, manifest))
  {
    ghost var log0 := s.log;
    var put := PutArtifacts(s, fs, primary, maxSize);
    if put.Err? { return Err(put.failure); }
    ghost var t, log := s.tree, s.log;
    var last := PutManifest(s, fs, manifest);
    RunAppend(fs, Replicating, log, |log0| - 1, s.log);
    if last.Err? { return Err(last.failure); }
    assert AllArtifacts(fs, s.tree) by { StillFinished(fs, t, s.tree); }
    return Ok(put.value + last.value);
  }

  /** An existing manifest is small enough to be read back. */
  ghost predicate ManifestFits(fs: FileSet, t: Tree) {
    HasManifest(fs, t) ==> |t.files[fs.At(ManifestName)]| <= MaxManifestBytes
  }

  /**
   * replicate_revision_ftp from the connection on. `primary` is what the primary storage delivers
   * for each artifact; `manifest` is the one built for the device's present name.
   */
  method Replicate(s: Server, fs: FileSet, enabled: bool, primary: seq<Option<Bytes>>, maxSize: nat, manifest: Bytes)
    returns (r: Result<nat>)
    requires s.Valid() && fs.Valid() && fs.NoClash() && |fs.artifacts| == |primary| && fs.accepts(manifest)
    modifies s
    ensures s.Valid() && old(s.log) <= s.log && RunFrom(fs, Replicating, s.log, |old(s.log)| - 1)
    ensures !enabled || primary == [] ==> r.Err? && s.log == old(s.log) && s.tree == old(s.tree)
    // success is a complete copy, whatever the server did
    ensures r.Ok? ==> AllArtifacts(fs, s.tree) && Finished(fs, s.tree, ManifestName)
    // and counts the bytes of the files that were absent, if listings are honest
    ensures s.trust != Hostile && r.Ok? ==>
      r.value == AbsentBytes(fs, old(s.tree), |primary|) + if HasManifest(fs, old(s.tree)) then 0 else |manifest|
    // without faults an attempt from any safe state completes the copy exactly when it can
    ensures s.trust.Reliable? && enabled && primary != [] && AllReadable(fs, primary, maxSize)
            && Safe(fs, old(s.tree)) && NoDirsInWay(fs, old(s.tree)) ==>
      && (r.Ok? <==> CanComplete(fs, old(s.tree), s.trust.profile))
      && (r.Ok? ==> s.tree == Completed(fs, old(s.tree), primary, manifest))
  {
    if !enabled { return Err(Refused("DESTINATION_DISABLED")); }
    if primary == [] { return Err(Refused("NO_ARTIFACTS")); }
    ghost var t0, log0 := s.tree, s.log;
    var made := Mkdirs(s, fs);
    ghost var t1, log1 := s.tree, s.log;
    if made.Err? {
      return Err(match made.failure
        case Refused(_) => made.failure
        case Escaped(e) =>
          Refused(if e.kind == Permanent then "DESTINATION_PATH_DENIED" else "DESTINATION_DIRECTORY_FAILED"));
    }
    Prepared(s.trust, fs, t0, t1, primary, maxSize);
    r := FillDirectory(s, fs, primary, maxSize, manifest);
    RunAppend(fs, Replicating, log1, |log0| - 1, s.log);
  }

  /** What _mkdirs leaves for the rest of the attempt. */
  lemma Prepared(trust: Trust, fs: FileSet, t: Tree, u: Tree, primary: seq<Option<Bytes>>, maxSize: nat)
    requires fs.Valid() && Sound(t) && |fs.artifacts| == |primary| && u.files == t.files
    requires trust.Reliable? ==> u.dirs == t.dirs + Prefixes(fs.dir)
    ensures AbsentBytes(fs, u, |primary|) == AbsentBytes(fs, t, |primary|)
    ensures HasManifest(fs, u) <==> HasManifest(fs, t)
    ensures trust.Reliable? && AllReadable(fs, primary, maxSize) && Safe(fs, t) && NoDirsInWay(fs, t) ==>
      Ideal(trust, fs, primary, maxSize, u) && u == t.(dirs := t.dirs + Prefixes(fs.dir))
    ensures trust.Reliable? ==> (CanLook(fs, u, trust.profile) <==> CanLook(fs, t, trust.profile))
  {
    SameAbsent(fs, t, u, |primary|);
    if trust.Reliable? { AfterMkdirs(fs, t, t.(dirs := t.dirs + Prefixes(fs.dir))); }
  }

  lemma {:induction false} SameAbsent(fs: FileSet, t: Tree, u: Tree, i: nat)
    requires t.files == u.files && i <= |fs.artifacts|
    ensures AbsentBytes(fs, t, i) == AbsentBytes(fs, u, i)
  {
    if i > 0 { SameAbsent(fs, t, u, i - 1); }
  }

  lemma StillFinished(fs: FileSet, t: Tree, u: Tree)
    requires fs.Valid() && AllArtifacts(fs, t) && OthersKept(fs, t, u, ManifestName)
    ensures AllArtifacts(fs, u)
  {
    forall n | n in fs.ArtifactNames() ensures Finished(fs, u, n) {
      assert Finished(fs, t, n) && SameFile(t, u, fs.At(n));
    }
  }

  // ---- Replication converges ----

  ghost predicate KeepsPresent(fs: FileSet, t: Tree, u: Tree) {
    forall n | n in fs.Names() && fs.At(n) in t.files :: SameFile(t, u, fs.At(n))
  }

  lemma PutKeepsPresent(fs: FileSet, t: Tree, u: Tree, name: string, content: Bytes)
    requires fs.NoClash() && Sound(u) && name in fs.Names() && fs.dir in u.dirs && fs.At(name) !in u.dirs
    requires KeepsPresent(fs, t, u)
    ensures KeepsPresent(fs, t, Put(u, fs, name, content))
  {
    PutFacts(u, fs, name, content);
    forall n | n in fs.Names() && fs.At(n) in t.files ensures SameFile(t, Put(u, fs, name, content), fs.At(n)) {
      assert SameFile(t, u, fs.At(n));
    }
  }

  /** What filling from t has given after i artifacts. */
  ghost predicate FillState(fs: FileSet, t: Tree, u: Tree, i: nat)
    requires i <= |fs.artifacts|
  {
    && Sound(u) && Puttable(fs, u) && KeepsPresent(fs, t, u) && SameFile(t, u, fs.At(ManifestName))
    && forall j | 0 <= j < i :: fs.At(fs.artifacts[j].filename) in u.files
  }

  lemma StillThere(fs: FileSet, t: Tree, name: string, content: Bytes, m: string)
    requires fs.NoClash() && name in fs.Names() && m in fs.Names() && fs.At(m) in t.files
    ensures fs.At(m) in Put(t, fs, name, content).files
  {
    PathsApart(fs, m, Part(name));
  }

  lemma FilledStays(fs: FileSet, t: Tree, u: Tree, i: nat, j: nat, content: Bytes)
    requires fs.NoClash() && j < i < |fs.artifacts| && FillState(fs, t, u, i)
    ensures fs.At(fs.artifacts[j].filename) in Put(u, fs, fs.artifacts[i].filename, content).files
  {
    StillThere(fs, u, fs.artifacts[i].filename, content, fs.artifacts[j].filename);
  }

  /** The files filled so far stay when one more is put. */
  lemma FilledStay(fs: FileSet, t: Tree, u: Tree, i: nat, content: Bytes)
    requires fs.Valid() && fs.NoClash() && i < |fs.artifacts| && FillState(fs, t, u, i)
    ensures var v := Put(u, fs, fs.artifacts[i].filename, content);
      forall j | 0 <= j <= i :: fs.At(fs.artifacts[j].filename) in v.files
  {
    var name := fs.artifacts[i].filename;
    PutFacts(u, fs, name, content);
    forall j | 0 <= j < i ensures fs.At(fs.artifacts[j].filename) in Put(u, fs, name, content).files {
      FilledStays(fs, t, u, i, j, content);
    }
  }

  lemma FillStateStep(fs: FileSet, t: Tree, u: Tree, i: nat, content: Bytes)
    requires fs.Valid() && fs.NoClash() && i < |fs.artifacts| && FillState(fs, t, u, i)
    requires fs.Right(fs.artifacts[i].filename, content)
    ensures FillState(fs, t, Put(u, fs, fs.artifacts[i].filename, content), i + 1)
  {
    var name := fs.artifacts[i].filename;
    var v := Put(u, fs, name, content);
    assert Puttable(fs, v) by { PuttableKept(fs, u, name, content); }
    assert KeepsPresent(fs, t, v) by { PutKeepsPresent(fs, t, u, name, content); }
    assert Sound(v) && SameFile(u, v, fs.At(ManifestName)) by {
      PutFacts(u, fs, name, content);
      ManifestIsNoPart(name);
    }
    FilledStay(fs, t, u, i, content);
  }

  lemma {:induction false} FilledFacts(fs: FileSet, t: Tree, primary: seq<Option<Bytes>>, maxSize: nat, i: nat)
    requires fs.Valid() && fs.NoClash() && Sound(t) && Puttable(fs, t) && i <= |fs.artifacts| == |primary|
    requires AllReadable(fs, primary, maxSize)
    ensures FillState(fs, t, Filled(fs, t, primary, i), i)
  {
    if i > 0 {
      var content := ContentOf(primary[i - 1]);
      assert fs.Right(fs.artifacts[i - 1].filename, content) by {
        assert Readable(fs, primary, maxSize, i - 1);
        RightIsRecorded(fs, i - 1, content, content);
      }
      FilledFacts(fs, t, primary, maxSize, i - 1);
      FillStateStep(fs, t, Filled(fs, t, primary, i - 1), i - 1, content);
    }
  }

  lemma {:induction false} FilledIdle(fs: FileSet, t: Tree, primary: seq<Option<Bytes>>, i: nat)
    requires i <= |fs.artifacts| == |primary| && AllArtifacts(fs, t)
    ensures Filled(fs, t, primary, i) == t && AbsentBytes(fs, t, i) == 0
  {
    if i > 0 {
      FilledIdle(fs, t, primary, i - 1);
      assert fs.artifacts[i - 1].filename in fs.ArtifactNames();
    }
  }

  lemma CompletedFacts(fs: FileSet, t: Tree, primary: seq<Option<Bytes>>, maxSize: nat, manifest: Bytes,
                       profile: Profile)
    requires fs.Valid() && fs.NoClash() && Sound(t) && Safe(fs, t) && NoDirsInWay(fs, t)
    requires |fs.artifacts| == |primary| && AllReadable(fs, primary, maxSize) && fs.accepts(manifest)
    requires CanMakeDirs(t, fs.dir, profile)
    ensures var u := Completed(fs, t, primary, manifest);
      && Sound(u) && Puttable(fs, u) && AllArtifacts(fs, u) && Finished(fs, u, ManifestName) && KeepsPresent(fs, t, u)
      && u.files[fs.At(ManifestName)] == if HasManifest(fs, t) then t.files[fs.At(ManifestName)] else manifest
  {
    var t1 := t.(dirs := t.dirs + Prefixes(fs.dir));
    MadeSound(t, fs.dir, profile);
    AfterMkdirs(fs, t, t1);
    FilledFacts(fs, t1, primary, maxSize, |primary|);
    var t2 := Filled(fs, t1, primary, |primary|);
    PuttableKept(fs, t2, ManifestName, manifest);
    PutFacts(t2, fs, ManifestName, manifest);
    PutKeepsPresent(fs, t1, t2, ManifestName, manifest);
    PutKeepsPresent(fs, t2, t2, ManifestName, manifest);
    ArtifactsPresent(fs, t2, Completed(fs, t, primary, manifest));
  }

  /** On a complete copy a further attempt has nothing to do, whatever manifest it brings. */
  lemma CompleteIsIdle(fs: FileSet, u: Tree, primary: seq<Option<Bytes>>, manifest: Bytes, profile: Profile)
    requires fs.Valid() && Sound(u) && Puttable(fs, u) && |fs.artifacts| == |primary|
    requires AllArtifacts(fs, u) && HasManifest(fs, u)
    ensures Completed(fs, u, primary, manifest) == u && AbsentBytes(fs, u, |primary|) == 0
    ensures CanComplete(fs, u, profile) <==> ManifestFits(fs, u)
  {
    AfterMkdirs(fs, u, u.(dirs := u.dirs + Prefixes(fs.dir)));
    FilledIdle(fs, u, primary, |primary|);
    ChildExists(u, fs.dir, ManifestName);
  }

  /** A tree in which every expected file is absent or right, and nothing is in the way. */
  ghost predicate Good(fs: FileSet, t: Tree) { Sound(t) && Safe(fs, t) && NoDirsInWay(fs, t) }

  /**
   * Replication converges. From every safe state, whatever interrupted attempts left in it, a
   * successful attempt gives a complete copy that keeps each file already there; doing it again,
   * with the manifest of any other device name, changes nothing and transfers nothing, and is
   * possible exactly when the stored manifest is at most 1 MiB long.
   */
  lemma Converges(fs: FileSet, t: Tree, primary: seq<Option<Bytes>>, maxSize: nat, manifest: Bytes, renamed: Bytes,
                  profile: Profile)
    requires fs.Valid() && fs.NoClash() && Good(fs, t)
    requires |fs.artifacts| == |primary| && AllReadable(fs, primary, maxSize) && fs.accepts(manifest)
    requires CanMakeDirs(t, fs.dir, profile)
    ensures var u := Completed(fs, t, primary, manifest);
      && AllArtifacts(fs, u) && Finished(fs, u, ManifestName) && KeepsPresent(fs, t, u)
      && Sound(u) && Completed(fs, u, primary, renamed) == u && AbsentBytes(fs, u, |primary|) == 0
      && (CanComplete(fs, u, profile) <==>
            |if HasManifest(fs, t) then t.files[fs.At(ManifestName)] else manifest| <= MaxManifestBytes)
  {
    CompletedFacts(fs, t, primary, maxSize, manifest, profile);
    CompleteIsIdle(fs, Completed(fs, t, primary, manifest), primary, renamed, profile);
  }

  /** Making the missing directories of a path gives a tree again, when no file is in the way. */
  lemma MadeSound(t: Tree, dir: Path, profile: Profile)
    requires Sound(t) && CanMakeDirs(t, dir, profile)
    ensures Sound(t.(dirs := t.dirs + Prefixes(dir)))
  {
    var u, k := t.(dirs := t.dirs + Prefixes(dir)), Nearest(t, dir);
    MoreDirs(t, u);
    forall q | q in Prefixes(dir) ensures q !in t.files && (q != [] ==> Parent(q) in u.dirs) {
      PrefixesMeaning(dir, q);
      assert q == dir[..|q|];
      if q != [] {
        PrefixesMeaning(dir, Parent(q));
        if |q| > k + 1 && Parent(q) in t.dirs {
          DirPrefixes(t, Parent(q));
          PrefixesMeaning(Parent(q), dir[..k + 1]);
        } else if |q| <= k {
          DirPrefixes(t, dir[..k]);
          PrefixesMeaning(dir[..k], q);
        }
      }
    }
    forall q | q in Prefixes(dir) ensures HasParent(u, q) {}
  }

  lemma ArtifactsPresent(fs: FileSet, t: Tree, u: Tree)
    requires Safe(fs, u) && KeepsPresent(fs, t, u) && HasManifest(fs, u)
    requires forall j | 0 <= j < |fs.artifacts| :: fs.At(fs.artifacts[j].filename) in t.files
    ensures AllArtifacts(fs, u) && Finished(fs, u, ManifestName)
  {
    forall n | n in fs.ArtifactNames() ensures Finished(fs, u, n) {
      var j :| 0 <= j < |fs.artifacts| && fs.artifacts[j].filename == n;
      assert SameFile(t, u, fs.At(n));
    }
  }

  // ---- Every state attempts leave behind is one to converge from ----

  lemma StepGround(fs: FileSet, mode: Mode, t: Tree, u: Tree)
    requires fs.Valid() && Sound(t) && NoDirsInWay(fs, t) && Step(fs, mode, t, u)
    ensures Sound(u) && NoDirsInWay(fs, u)
  {
    var move :| Allowed(fs, mode, move, t) && Makes(fs, move, t, u);
    MoveSound(fs, move, t, u);
    if move.MakeDir? { assert |move.p| <= |fs.dir|; }
  }

  lemma MoveSound(fs: FileSet, move: Move, t: Tree, u: Tree)
    requires fs.Valid() && Sound(t) && Makes(fs, move, t, u)
    ensures Sound(u)
  {
    match move {
      case MakeDir(p) => EffectsSound(t, p, []);
      case PutPart(n) => EffectsSound(t, fs.At(Part(n)), u.files[fs.At(Part(n))]);
      case DropPart(n) => EffectsSound(t, fs.At(Part(n)), []);
      case Finish(n) => MovedSound(t, fs.At(Part(n)), fs.At(n));
      case Drop(n) => EffectsSound(t, fs.At(n), []);
      case RemoveDir => RemovedDirSound(t, fs.dir);
      case Still =>
    }
  }

  /**
   * However many replication and deletion attempts were cut off, and wherever, the state they leave
   * meets what Converges asks of its starting state.
   */
  lemma {:induction false} AnyCutIsAStart(fs: FileSet, mode: Mode, log: seq<Tree>, i: nat)
    requires fs.Valid() && fs.NoClash() && Run(fs, mode, log) && i < |log| && Good(fs, log[0])
    ensures Good(fs, log[i])
  {
    if i > 0 {
      AnyCutIsAStart(fs, mode, log, i - 1);
      assert StepAt(fs, mode, log, i);
      StepSafe(fs, mode, log[i - 1], log[i]);
      StepGround(fs, mode, log[i - 1], log[i]);
    }
  }
}
