/**
 * What one replica may go through, as a step machine on the remote tree. Attempts to replicate
 * and to delete are runs of this machine (see FtpReplication and FtpDeletion); what holds over
 * every run is proved here once. A run has no memory beyond the tree, so an attempt cut at any
 * command, followed by any other attempt, is again a run.
 */
module ReplicaSteps {
  import opened Text
  import opened FtpNames
  import opened Manifest
  import opened RemoteTree

  /**
   * The files of one revision at one path: the artifacts with their recorded digests, and the
   * verifier's verdict on manifests, whose bytes may differ between attempts.
   */
  datatype FileSet = FileSet(dir: Path, artifacts: seq<ExpectedFile>, accepts: Bytes -> bool, sha: Digester) {
    function ArtifactNames(): set<string> { set i | 0 <= i < |artifacts| :: artifacts[i].filename }

    function Names(): set<string> { ArtifactNames() + {ManifestName} }

    function At(name: string): Path { dir + [name] }

    ghost predicate Valid() {
      && dir != [] && DistinctNames(artifacts)
      && forall i | 0 <= i < |artifacts| :: artifacts[i].filename != ManifestName
    }

    /** No expected file is called like the temporary object of another. */
    ghost predicate NoClash() { forall m, n | m in Names() && n in Names() :: m != Part(n) }

    /** The content recorded for a name; for the manifest, any content the verifier accepts. */
    predicate Right(name: string, content: Bytes) {
      if name == ManifestName then accepts(content)
      else exists i | 0 <= i < |artifacts| :: artifacts[i].filename == name && sha(content) == artifacts[i].sha256
    }
  }

  function Part(name: string): string { name + ".part" }

  /** Every expected file present holds the right content; wrong bytes are in temporary objects only. */
  ghost predicate Safe(fs: FileSet, t: Tree) {
    forall n | n in fs.Names() && fs.At(n) in t.files :: fs.Right(n, t.files[fs.At(n)])
  }

  ghost predicate Finished(fs: FileSet, t: Tree, name: string) {
    fs.At(name) in t.files && fs.Right(name, t.files[fs.At(name)])
  }

  ghost predicate AllArtifacts(fs: FileSet, t: Tree) {
    forall n | n in fs.ArtifactNames() :: Finished(fs, t, n)
  }

  ghost predicate SomeArtifact(fs: FileSet, t: Tree) {
    exists n | n in fs.ArtifactNames() :: fs.At(n) in t.files
  }

  ghost predicate HasManifest(fs: FileSet, t: Tree) { fs.At(ManifestName) in t.files }

  datatype Move =
    | Still
    | MakeDir(p: Path)
    | PutPart(name: string)
    | DropPart(name: string)
    | Finish(name: string)
    | Drop(name: string)
    | RemoveDir

  datatype Mode = Replicating | Deleting | DeletingInOrder | Any

  ghost predicate Allowed(fs: FileSet, mode: Mode, move: Move, t: Tree) {
    match move
    case Still => true
    case DropPart(_) => true
    case MakeDir(_) => mode == Replicating || mode == Any
    case PutPart(_) => mode == Replicating || mode == Any
    case Finish(_) => mode == Replicating || mode == Any
    case Drop(n) =>
      mode == Deleting || mode == Any || (mode == DeletingInOrder && (n == ManifestName ==> !SomeArtifact(fs, t)))
    case RemoveDir => mode != Replicating
  }

  ghost predicate Makes(fs: FileSet, move: Move, t: Tree, u: Tree) {
    match move
    case Still => u == t
    case MakeDir(p) => p != [] && p <= fs.dir && Parent(p) in t.dirs && !Exists(t, p) && u == WithDir(t, p)
    case PutPart(n) =>
      var part := fs.At(Part(n));
      n in fs.Names() && CanHold(t, part) && part in u.files && u == WithFile(t, part, u.files[part])
    case DropPart(n) => n in fs.Names() && u == Without(t, fs.At(Part(n)))
    case Finish(n) =>
      var part := fs.At(Part(n));
      && n in fs.Names() && part in t.files && fs.Right(n, t.files[part]) && CanHold(t, fs.At(n))
      && (n == ManifestName ==> AllArtifacts(fs, t))
      && u == Moved(t, part, fs.At(n))
    case Drop(n) => n in fs.Names() && u == Without(t, fs.At(n))
    case RemoveDir => Children(t, fs.dir) == {} && u == WithoutDir(t, fs.dir)
  }

  ghost predicate Step(fs: FileSet, mode: Mode, t: Tree, u: Tree) {
    exists move :: Allowed(fs, mode, move, t) && Makes(fs, move, t, u)
  }

  /** Every state of the log from position `from` on follows from the one before by a step. */
  ghost predicate RunFrom(fs: FileSet, mode: Mode, log: seq<Tree>, from: int) {
    forall i | from < i < |log| && 0 < i :: StepAt(fs, mode, log, i)
  }

  ghost predicate StepAt(fs: FileSet, mode: Mode, log: seq<Tree>, i: int)
    requires 0 < i < |log|
  {
    Step(fs, mode, log[i - 1], log[i])
  }

  ghost predicate Run(fs: FileSet, mode: Mode, log: seq<Tree>) { log != [] && RunFrom(fs, mode, log, 0) }

  lemma Grow(fs: FileSet, mode: Mode, move: Move, log: seq<Tree>, from: int, u: Tree)
    requires log != [] && from < |log| && RunFrom(fs, mode, log, from)
    requires Allowed(fs, mode, move, log[|log| - 1]) && Makes(fs, move, log[|log| - 1], u)
    ensures RunFrom(fs, mode, log + [u], from)
  {
    var grown := log + [u];
    forall i | from < i < |grown| && 0 < i ensures StepAt(fs, mode, grown, i) {
      if i < |log| { assert StepAt(fs, mode, log, i); }
    }
  }

  /** A method's run extends its caller's. */
  lemma RunAppend(fs: FileSet, mode: Mode, before: seq<Tree>, from: int, log: seq<Tree>)
    requires before != [] && before <= log && from < |before|
    requires RunFrom(fs, mode, before, from) && RunFrom(fs, mode, log, |before| - 1)
    ensures RunFrom(fs, mode, log, from)
  {
    forall i | from < i < |log| && 0 < i ensures StepAt(fs, mode, log, i) {
      if i < |before| { assert StepAt(fs, mode, before, i); }
    }
  }

  /** A run cut anywhere, and continued by another attempt from the state it was cut in, is a run. */
  lemma CutAndResume(fs: FileSet, mode: Mode, first: seq<Tree>, cut: nat, second: seq<Tree>)
    requires Run(fs, mode, first) && cut < |first|
    requires Run(fs, mode, second) && second[0] == first[cut]
    ensures Run(fs, mode, first[..cut + 1] + second[1..])
  {
    var log := first[..cut + 1] + second[1..];
    forall i | 0 < i < |log| ensures StepAt(fs, mode, log, i) {
      if i <= cut {
        assert StepAt(fs, mode, first, i);
      } else {
        assert StepAt(fs, mode, second, i - cut);
      }
    }
  }

  /** What is run after a position of a log is a run of its own. */
  lemma LaterRun(fs: FileSet, mode: Mode, log: seq<Tree>, from: nat)
    requires from < |log| && RunFrom(fs, mode, log, from)
    ensures Run(fs, mode, log[from..])
  {
    var later := log[from..];
    forall i | 0 < i < |later| ensures StepAt(fs, mode, later, i) { assert StepAt(fs, mode, log, from + i); }
  }

  lemma Weaken(fs: FileSet, mode: Mode, log: seq<Tree>, from: int)
    requires RunFrom(fs, mode, log, from)
    ensures RunFrom(fs, Any, log, from)
  {
    forall i | from < i < |log| && 0 < i ensures StepAt(fs, Any, log, i) {
      assert StepAt(fs, mode, log, i);
      var move :| Allowed(fs, mode, move, log[i - 1]) && Makes(fs, move, log[i - 1], log[i]);
      assert Allowed(fs, Any, move, log[i - 1]);
    }
  }

  // ---- Crash safety ----

  lemma PathsApart(fs: FileSet, m: string, n: string)
    ensures fs.At(m) == fs.At(n) <==> m == n
    ensures Part(m) == Part(n) <==> m == n
  {
    assert fs.At(m)[|fs.dir|] == m && fs.At(n)[|fs.dir|] == n;
    assert Part(m)[..|Part(m)| - 5] == m && Part(n)[..|Part(n)| - 5] == n;
  }

  lemma MoveSafe(fs: FileSet, move: Move, t: Tree, u: Tree, n: string)
    requires fs.NoClash() && Safe(fs, t) && Makes(fs, move, t, u) && n in fs.Names() && fs.At(n) in u.files
    ensures fs.Right(n, u.files[fs.At(n)])
  {
    match move {
      case PutPart(m) => PathsApart(fs, n, Part(m));
      case Finish(m) => PathsApart(fs, n, m); PathsApart(fs, n, Part(m));
      case _ =>
    }
  }

  lemma StepSafe(fs: FileSet, mode: Mode, t: Tree, u: Tree)
    requires fs.NoClash() && Safe(fs, t) && Step(fs, mode, t, u)
    ensures Safe(fs, u)
  {
    var move :| Allowed(fs, mode, move, t) && Makes(fs, move, t, u);
    forall n | n in fs.Names() && fs.At(n) in u.files ensures fs.Right(n, u.files[fs.At(n)]) {
      MoveSafe(fs, move, t, u, n);
    }
  }

  /**
   * Crash safety: in every state of every run of attempts, whole or cut, each expected file is
   * absent or has its recorded content.
   */
  lemma {:induction false} RunSafe(fs: FileSet, mode: Mode, log: seq<Tree>, i: nat)
    requires fs.NoClash() && Run(fs, mode, log) && Safe(fs, log[0]) && i < |log|
    ensures Safe(fs, log[i])
  {
    if i > 0 {
      RunSafe(fs, mode, log, i - 1);
      assert StepAt(fs, mode, log, i);
      StepSafe(fs, mode, log[i - 1], log[i]);
    }
  }

  /** Every run from a proper tree that is safe stays safe. */
  ghost predicate CrashSafe(fs: FileSet) {
    forall log: seq<Tree>, i | Run(fs, Any, log) && Sound(log[0]) && Safe(fs, log[0]) && 0 <= i < |log| ::
      Safe(fs, log[i])
  }

  lemma ManifestIsNoPart(name: string)
    ensures Part(name) != ManifestName
  {
    var p := Part(name);
    assert p[|p| - 1] == 't' && ManifestName[|ManifestName| - 1] == 'n';
  }

  /**
   * Crash safety holds exactly for file sets in which no expected name is another one's temporary
   * name: otherwise an upload cut short leaves its fragment under a final name.
   */
  lemma CrashSafeExact(fs: FileSet)
    requires fs.Valid()
    ensures CrashSafe(fs) <==> fs.NoClash()
  {
    if fs.NoClash() {
      forall log: seq<Tree>, i | Run(fs, Any, log) && Sound(log[0]) && Safe(fs, log[0]) && 0 <= i < |log|
        ensures Safe(fs, log[i])
      {
        RunSafe(fs, Any, log, i);
      }
    } else {
      var n :| n in fs.Names() && Part(n) in fs.Names();
      var log := ClashRun(fs, n);
      assert !Safe(fs, log[1]);
    }
  }

  lemma PrefixesAreATree(p: Path)
    ensures Sound(Tree(Prefixes(p), map[]))
  {
    PrefixesMeaning(p, []);
    forall q | q in Prefixes(p) && q != [] ensures Parent(q) in Prefixes(p) {
      PrefixesMeaning(p, q);
      PrefixesMeaning(p, Parent(q));
    }
  }

  /** Some content that is not the recorded one. */
  lemma WrongBytes(fs: FileSet, name: string) returns (junk: Bytes)
    requires fs.Valid() && name in fs.ArtifactNames()
    ensures !fs.Right(name, junk)
  {
    var k :| 0 <= k < |fs.artifacts| && fs.artifacts[k].filename == name;
    junk := if fs.sha("") == fs.artifacts[k].sha256 then "x" else "";
    DigestTells(fs.sha, "", "x");
  }

  lemma RoomFor(fs: FileSet, name: string)
    requires fs.dir != []
    ensures CanHold(Tree(Prefixes(fs.dir), map[]), fs.At(name))
  {
    PrefixesMeaning(fs.dir, fs.dir);
    PrefixesMeaning(fs.dir, fs.At(name));
    assert Parent(fs.At(name)) == fs.dir && |fs.At(name)| != |fs.dir|;
  }

  /** Two states: the empty revision directory, and the fragment of an interrupted upload in it. */
  lemma ClashRun(fs: FileSet, n: string) returns (log: seq<Tree>)
    requires fs.Valid() && n in fs.Names() && Part(n) in fs.Names()
    ensures |log| == 2 && Run(fs, Any, log) && Sound(log[0]) && Safe(fs, log[0]) && !Safe(fs, log[1])
  {
    ManifestIsNoPart(n);
    var junk := WrongBytes(fs, Part(n));
    var t, part := Tree(Prefixes(fs.dir), map[]), fs.At(Part(n));
    PrefixesAreATree(fs.dir);
    RoomFor(fs, Part(n));
    var u := WithFile(t, part, junk);
    assert Makes(fs, PutPart(n), t, u) && Allowed(fs, Any, PutPart(n), t);
    log := [t, u];
    assert StepAt(fs, Any, log, 1);
    assert part in u.files && !fs.Right(Part(n), u.files[part]);
  }

  // ---- The manifest comes last and goes last ----

  lemma ManifestLastStep(fs: FileSet, t: Tree, u: Tree)
    requires fs.Valid() && fs.NoClash() && Step(fs, Replicating, t, u)
    requires HasManifest(fs, t) ==> AllArtifacts(fs, t)
    ensures HasManifest(fs, u) ==> AllArtifacts(fs, u)
  {
    var move :| Allowed(fs, Replicating, move, t) && Makes(fs, move, t, u);
    if HasManifest(fs, u) {
      ManifestKept(fs, move, t, u);
      forall n | n in fs.ArtifactNames() ensures Finished(fs, u, n) {
        assert Finished(fs, t, n);
        FinishedKept(fs, move, t, u, n);
      }
    }
  }

  lemma ManifestKept(fs: FileSet, move: Move, t: Tree, u: Tree)
    requires fs.NoClash() && Makes(fs, move, t, u) && HasManifest(fs, u)
    ensures HasManifest(fs, t) || (move == Finish(ManifestName) && AllArtifacts(fs, t))
  {
    match move {
      case PutPart(m) => PathsApart(fs, ManifestName, Part(m)); ManifestIsNoPart(m);
      case Finish(m) => PathsApart(fs, ManifestName, m);
      case _ =>
    }
  }

  /** A finished file stays finished through every move but its own deletion. */
  lemma FinishedKept(fs: FileSet, move: Move, t: Tree, u: Tree, n: string)
    requires fs.NoClash() && Makes(fs, move, t, u) && n in fs.Names() && Finished(fs, t, n) && move != Drop(n)
    ensures Finished(fs, u, n)
  {
    match move {
      case PutPart(m) => PathsApart(fs, n, Part(m));
      case DropPart(m) => PathsApart(fs, n, Part(m));
      case Finish(m) => PathsApart(fs, n, m); PathsApart(fs, n, Part(m));
      case Drop(m) => PathsApart(fs, n, m);
      case _ =>
    }
  }

  /** Over any run of interrupted replications, a manifest present means a complete copy. */
  lemma {:induction false} ManifestMeansComplete(fs: FileSet, log: seq<Tree>, i: nat)
    requires fs.Valid() && fs.NoClash() && Run(fs, Replicating, log) && i < |log|
    requires HasManifest(fs, log[0]) ==> AllArtifacts(fs, log[0])
    ensures HasManifest(fs, log[i]) ==> AllArtifacts(fs, log[i])
  {
    if i > 0 {
      ManifestMeansComplete(fs, log, i - 1);
      assert StepAt(fs, Replicating, log, i);
      ManifestLastStep(fs, log[i - 1], log[i]);
    }
  }

  /** An artifact that was there under the manifest at j has been missing under it ever since. */
  ghost predicate DroppedUnder(fs: FileSet, log: seq<Tree>, n: string, j: nat, i: nat) {
    && j < i < |log| && fs.At(n) in log[j].files && HasManifest(fs, log[j])
    && forall k | j < k <= i :: HasManifest(fs, log[k]) && fs.At(n) !in log[k].files
  }

  /** A manifest newly published does not stand over a missing artifact. */
  lemma MarkedBefore(fs: FileSet, t: Tree, u: Tree, n: string)
    requires fs.Valid() && fs.NoClash() && Step(fs, Any, t, u)
    requires HasManifest(fs, u) && n in fs.ArtifactNames() && fs.At(n) !in u.files
    ensures HasManifest(fs, t)
  {
    var move :| Allowed(fs, Any, move, t) && Makes(fs, move, t, u);
    ManifestKept(fs, move, t, u);
    if !HasManifest(fs, t) {
      assert Finished(fs, t, n);
      FinishedKept(fs, move, t, u, n);
    }
  }

  lemma CompleteOrUnmarked(fs: FileSet, t: Tree, n: string)
    requires HasManifest(fs, t) ==> AllArtifacts(fs, t)
    ensures n in fs.ArtifactNames() && fs.At(n) !in t.files ==> !HasManifest(fs, t)
  {
    if HasManifest(fs, t) && n in fs.ArtifactNames() { assert Finished(fs, t, n); }
  }

  lemma {:induction false} MissingWasDropped(fs: FileSet, log: seq<Tree>, i: nat, n: string) returns (j: nat)
    requires fs.Valid() && fs.NoClash() && Run(fs, Any, log) && i < |log|
    requires HasManifest(fs, log[0]) ==> AllArtifacts(fs, log[0])
    requires HasManifest(fs, log[i]) && n in fs.ArtifactNames() && fs.At(n) !in log[i].files
    ensures DroppedUnder(fs, log, n, j, i)
  {
    CompleteOrUnmarked(fs, log[0], n);
    assert StepAt(fs, Any, log, i);
    MarkedBefore(fs, log[i - 1], log[i], n);
    if fs.At(n) in log[i - 1].files { j := i - 1; } else { j := MissingWasDropped(fs, log, i - 1, n); }
  }

  /**
   * Over any runs of replications and deletions: a manifest stands over an incomplete copy if and
   * only if some artifact was deleted under it, and has not been put back, nor the manifest deleted,
   * since. So only a deletion cut between an artifact and the manifest leaves such a copy.
   */
  lemma MarkedIncomplete(fs: FileSet, log: seq<Tree>, i: nat)
    requires fs.Valid() && fs.NoClash() && Run(fs, Any, log) && i < |log| && Safe(fs, log[0])
    requires HasManifest(fs, log[0]) ==> AllArtifacts(fs, log[0])
    ensures HasManifest(fs, log[i]) && !AllArtifacts(fs, log[i]) <==>
      exists n, j: nat :: n in fs.ArtifactNames() && DroppedUnder(fs, log, n, j, i)
  {
    RunSafe(fs, Any, log, i);
    if HasManifest(fs, log[i]) && !AllArtifacts(fs, log[i]) {
      var n :| n in fs.ArtifactNames() && !Finished(fs, log[i], n);
      var j := MissingWasDropped(fs, log, i, n);
    }
    if n, j: nat :| n in fs.ArtifactNames() && DroppedUnder(fs, log, n, j, i) {
      assert !Finished(fs, log[i], n);
    }
  }

  lemma MarkedStep(fs: FileSet, t: Tree, u: Tree)
    requires fs.Valid() && fs.NoClash() && Step(fs, DeletingInOrder, t, u)
    requires SomeArtifact(fs, t) ==> HasManifest(fs, t)
    ensures SomeArtifact(fs, u) ==> SomeArtifact(fs, t) && HasManifest(fs, u)
  {
    var move :| Allowed(fs, DeletingInOrder, move, t) && Makes(fs, move, t, u);
    if SomeArtifact(fs, u) {
      var n :| n in fs.ArtifactNames() && fs.At(n) in u.files;
      assert fs.At(n) in t.files;
      match move {
        case DropPart(m) => PathsApart(fs, ManifestName, Part(m)); ManifestIsNoPart(m);
        case Drop(m) => PathsApart(fs, ManifestName, m);
        case _ =>
      }
    }
  }

  /** Over any run of interrupted deletions of a marked copy, what is left of it stays marked. */
  lemma {:induction false} RemainsMarked(fs: FileSet, log: seq<Tree>, i: nat)
    requires fs.Valid() && fs.NoClash() && Run(fs, DeletingInOrder, log) && i < |log|
    requires SomeArtifact(fs, log[0]) ==> HasManifest(fs, log[0])
    ensures SomeArtifact(fs, log[i]) ==> HasManifest(fs, log[i])
  {
    if i > 0 {
      RemainsMarked(fs, log, i - 1);
      assert StepAt(fs, DeletingInOrder, log, i);
      MarkedStep(fs, log[i - 1], log[i]);
    }
  }

  // ---- Nothing else is touched ----

  /** Paths that belong to the replica: its directory, expected files and their temporary objects. */
  ghost predicate Own(fs: FileSet, p: Path) {
    exists n | n in fs.Names() :: p == fs.At(n) || p == fs.At(Part(n))
  }

  lemma MoveConfined(fs: FileSet, move: Move, t: Tree, u: Tree, p: Path)
    requires Makes(fs, move, t, u) && !Own(fs, p)
    ensures (p in t.files <==> p in u.files) && (p in t.files ==> u.files[p] == t.files[p])
  {
    match move {
      case PutPart(n) => assert p != fs.At(Part(n));
      case DropPart(n) => assert p != fs.At(Part(n));
      case Finish(n) => assert p != fs.At(n) && p != fs.At(Part(n));
      case Drop(n) => assert p != fs.At(n);
      case _ =>
    }
  }

  lemma StepConfined(fs: FileSet, mode: Mode, t: Tree, u: Tree, p: Path)
    requires Step(fs, mode, t, u)
    ensures !Own(fs, p) ==> (p in t.files <==> p in u.files) && (p in t.files ==> u.files[p] == t.files[p])
    ensures !(p <= fs.dir) ==> (p in t.dirs <==> p in u.dirs)
    ensures p != fs.dir && p in t.dirs ==> p in u.dirs
  {
    var move :| Allowed(fs, mode, move, t) && Makes(fs, move, t, u);
    if !Own(fs, p) { MoveConfined(fs, move, t, u, p); }
  }

  /** Over every run, no file outside the replica's own and no directory off its path changes. */
  lemma {:induction false} RunConfined(fs: FileSet, mode: Mode, log: seq<Tree>, i: nat, p: Path)
    requires Run(fs, mode, log) && i < |log|
    ensures !Own(fs, p) ==>
      (p in log[0].files <==> p in log[i].files) && (p in log[0].files ==> log[i].files[p] == log[0].files[p])
    ensures !(p <= fs.dir) ==> (p in log[0].dirs <==> p in log[i].dirs)
    ensures p != fs.dir && p in log[0].dirs ==> p in log[i].dirs
  {
    if i > 0 {
      RunConfined(fs, mode, log, i - 1, p);
      assert StepAt(fs, mode, log, i);
      StepConfined(fs, mode, log[i - 1], log[i], p);
    }
  }
}
