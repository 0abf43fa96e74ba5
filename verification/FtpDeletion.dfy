/** delete_revision_replica_ftp (services/destination_ftp.py): remove one known copy and nothing else. */
module FtpDeletion {
  import opened Text
  import opened FtpNames
  import opened Manifest
  import opened RemoteTree
  import opened ReplicaSteps
  import opened FtpInspection
  import opened FtpReplication

  datatype Deletion = Deletion(
    expected: nat, deleted: nat, missing: nat, bytes: nat, directoryRemoved: bool, alreadyAbsent: bool)

  /** The expected files in the order they are deleted: the manifest last. */
  function Ordered(fs: FileSet, manifestSize: nat): (files: seq<ExpectedFile>)
    ensures |files| == |fs.artifacts| + 1
  {
    fs.artifacts + [ExpectedFile(ManifestName, manifestSize, "", "manifest")]
  }

  function Parts(fs: FileSet): set<string> { set n | n in fs.Names() :: Part(n) }

  /** A hostile server can make the code take a file for missing; an honest one keeps the order. */
  function DeletionMode(trust: Trust): Mode { if trust == Hostile then Deleting else DeletingInOrder }

  /** The first i files that are present, and their recorded sizes. */
  ghost function CountPresent(fs: FileSet, files: seq<ExpectedFile>, t: Tree, i: nat): nat
    requires i <= |files|
  {
    if i == 0 then 0 else CountPresent(fs, files, t, i - 1) + if fs.At(files[i - 1].filename) in t.files then 1 else 0
  }

  ghost function BytesPresent(fs: FileSet, files: seq<ExpectedFile>, t: Tree, i: nat): nat
    requires i <= |files|
  {
    if i == 0 then 0
    else BytesPresent(fs, files, t, i - 1) + if fs.At(files[i - 1].filename) in t.files then files[i - 1].size else 0
  }

  /** Only files of the replica's own have gone. */
  ghost predicate Trimmed(fs: FileSet, t: Tree, u: Tree) {
    && u.dirs == t.dirs && u.files.Keys <= t.files.Keys
    && (forall p | p in u.files :: u.files[p] == t.files[p])
    && forall p | p in t.files && p !in u.files :: Own(fs, p)
  }

  lemma WithoutChildren(fs: FileSet, t: Tree, entry: string)
    requires fs.At(entry) !in t.dirs
    ensures Children(Without(t, fs.At(entry)), fs.dir) == Children(t, fs.dir) - {entry}
  {
    var u := Without(t, fs.At(entry));
    forall n: string ensures n in Children(u, fs.dir) <==> n in Children(t, fs.dir) - {entry} {
      ChildExists(u, fs.dir, n);
      ChildExists(t, fs.dir, n);
      PathsApart(fs, n, entry);
    }
  }

  /** The expected file or temporary object a move removes. */
  ghost predicate Removes(fs: FileSet, move: Move, entry: string) {
    match move
    case DropPart(n) => n in fs.Names() && entry == Part(n)
    case Drop(n) => n in fs.Names() && entry == n
    case _ => false
  }

  function Caught(failure: Failure): Failure {
    match failure case Refused(_) => failure case Escaped(_) => Refused("DESTINATION_DELETE_FAILED")
  }

  /** DELE of one of the replica's own entries. */
  method DeleteEntry(s: Server, fs: FileSet, entry: string, ghost move: Move) returns (r: Reply<()>)
    requires s.Valid() && Removes(fs, move, entry) && Allowed(fs, DeletionMode(s.trust), move, s.tree)
    modifies s
    ensures s.Valid() && old(s.log) <= s.log && RunFrom(fs, DeletionMode(s.trust), s.log, |old(s.log)| - 1)
    ensures s.tree == old(s.tree) || s.tree == Without(old(s.tree), fs.At(entry))
    ensures s.trust.Reliable? && fs.At(entry) in old(s.tree.files) ==>
      && r.Done? && s.tree == Without(old(s.tree), fs.At(entry))
      && Children(s.tree, fs.dir) == Children(old(s.tree), fs.dir) - {entry}
  {
    ghost var t, log := s.tree, s.log;
    r := s.Dele(fs.At(entry));
    EntryGone(fs, DeletionMode(s.trust), t, log, s.tree, s.log, entry, move);
  }

  lemma GrowByRemoval(fs: FileSet, mode: Mode, log: seq<Tree>, u: Tree, entry: string, move: Move)
    requires log != [] && Removes(fs, move, entry) && Allowed(fs, mode, move, log[|log| - 1])
    requires u == log[|log| - 1] || u == Without(log[|log| - 1], fs.At(entry))
    ensures RunFrom(fs, mode, log + [u], |log| - 1)
  {
    var t := log[|log| - 1];
    var step := if u == t then Still else move;
    assert Makes(fs, step, t, u) by { if u != t { match move case DropPart(n) => case Drop(n) => case _ => } }
    Grow(fs, mode, step, log, |log| - 1, u);
  }

  lemma EntryGone(fs: FileSet, mode: Mode, t: Tree, log: seq<Tree>, u: Tree, grown: seq<Tree>, entry: string,
                  move: Move)
    requires log != [] && log[|log| - 1] == t && grown == log + [u] && Sound(t)
    requires Removes(fs, move, entry) && Allowed(fs, mode, move, t)
    requires u == t || u == Without(t, fs.At(entry))
    ensures RunFrom(fs, mode, grown, |log| - 1)
    ensures fs.At(entry) in t.files ==>
      Children(Without(t, fs.At(entry)), fs.dir) == Children(t, fs.dir) - {entry}
  {
    GrowByRemoval(fs, mode, log, u, entry, move);
    if fs.At(entry) in t.files { WithoutChildren(fs, t, entry); }
  }

  /** Delete one entry of the revision directory and check in a fresh listing that it is gone. */
  method RemoveEntry(s: Server, fs: FileSet, entry: string, allowed: set<string>, ghost move: Move)
    returns (r: Result<()>)
    requires s.Valid() && Removes(fs, move, entry) && Allowed(fs, DeletionMode(s.trust), move, s.tree)
    modifies s
    ensures s.Valid() && old(s.log) <= s.log && RunFrom(fs, DeletionMode(s.trust), s.log, |old(s.log)| - 1)
    ensures s.tree == old(s.tree) || s.tree == Without(old(s.tree), fs.At(entry))
    ensures s.trust != Hostile && r.Ok? ==> !Exists(s.tree, fs.At(entry))
    ensures s.trust.Reliable? && fs.dir in old(s.tree.dirs) && fs.At(entry) in old(s.tree.files)
            && Children(old(s.tree), fs.dir) - {entry} <= allowed ==>
      && s.tree == Without(old(s.tree), fs.At(entry))
      && Children(s.tree, fs.dir) == Children(old(s.tree), fs.dir) - {entry}
      && (r.Ok? <==> Children(s.tree, fs.dir) != {} || ListsEmpty(s.trust.profile))
    ensures r.Err? ==> r.failure.Refused?
  {
    var deleted := DeleteEntry(s, fs, entry, move);
    ChildExists(s.tree, fs.dir, entry);
    if deleted.Failed? {
      if deleted.error.kind != Permanent { return Err(Refused("DESTINATION_DELETE_FAILED")); }
      var after := ListRevisionDirectory(s, fs.dir);
      if after.Err? { return Err(Caught(after.failure)); }
      if after.value.Some? && entry in after.value.value { return Err(Refused("DESTINATION_DELETE_DENIED")); }
    }
    var after := ListRevisionDirectory(s, fs.dir);
    if after.Err? { return Err(Caught(after.failure)); }
    if after.value.Some? {
      if !(after.value.value <= allowed) { return Err(Refused("DESTINATION_DELETE_CONFLICT")); }
      if entry in after.value.value { return Err(Refused("DESTINATION_DELETE_FAILED")); }
    } else {
      if s.trust != Hostile { NothingBelow(s.tree, fs.dir, entry); }
    }
    return Ok(());
  }

  lemma NothingBelow(t: Tree, dir: Path, entry: string)
    requires Sound(t) && dir !in t.dirs
    ensures !Exists(t, dir + [entry]) && Children(t, dir) == {}
  {
    forall n: string ensures !Exists(t, dir + [n]) && n !in Children(t, dir) {
      ChildExists(t, dir, n);
      assert Parent(dir + [n]) == dir;
      if Exists(t, dir + [n]) { ParentThere(t, dir + [n]); }
    }
  }

  // ---- The three phases ----

  ghost predicate Ideal(trust: Trust, fs: FileSet, t: Tree) {
    trust.Reliable? && NoDirsInWay(fs, t) && fs.dir in t.dirs && Children(t, fs.dir) <= fs.Names() + Parts(fs)
  }

  lemma TrimmedFurther(fs: FileSet, t: Tree, u: Tree, v: Tree, entry: string, move: Move)
    requires Trimmed(fs, t, u) && Removes(fs, move, entry) && (v == u || v == Without(u, fs.At(entry)))
    ensures Trimmed(fs, t, v)
  {
    assert Own(fs, fs.At(entry));
  }

  ghost predicate ExpectedKept(fs: FileSet, t: Tree, u: Tree) {
    forall n | n in fs.Names() :: SameFile(t, u, fs.At(n))
  }

  /** What the first phase has done when `rest` is left of the listed temporary objects. */
  ghost predicate PartsAt(trust: Trust, fs: FileSet, t: Tree, u: Tree, listed: set<string>, rest: set<string>) {
    && Trimmed(fs, t, u) && (fs.NoClash() ==> ExpectedKept(fs, t, u))
    && (Ideal(trust, fs, t) && listed == Children(t, fs.dir) * Parts(fs) ==>
          Children(u, fs.dir) == Children(t, fs.dir) - (listed - rest))
  }

  lemma PartsNext(trust: Trust, fs: FileSet, t: Tree, u: Tree, v: Tree, listed: set<string>, rest: set<string>,
                  entry: string, n: string)
    requires PartsAt(trust, fs, t, u, listed, rest) && entry in rest && rest <= listed
    requires n in fs.Names() && entry == Part(n) && (v == u || v == Without(u, fs.At(entry)))
    requires Ideal(trust, fs, t) && listed == Children(t, fs.dir) * Parts(fs) ==>
      Children(v, fs.dir) == Children(u, fs.dir) - {entry}
    ensures PartsAt(trust, fs, t, v, listed, rest - {entry})
  {
    TrimmedFurther(fs, t, u, v, entry, DropPart(n));
    if fs.NoClash() {
      OthersThanPart(fs, u, v, n);
      KeptTwice(fs, t, u, v);
    }
    OneLess(Children(t, fs.dir), listed, rest, entry);
  }

  lemma KeptTwice(fs: FileSet, t: Tree, u: Tree, v: Tree)
    requires ExpectedKept(fs, t, u) && ExpectedKept(fs, u, v)
    ensures ExpectedKept(fs, t, v)
  {
    forall n | n in fs.Names() ensures SameFile(t, v, fs.At(n)) {
      assert SameFile(t, u, fs.At(n)) && SameFile(u, v, fs.At(n));
    }
  }

  lemma OneLess<T>(all: set<T>, listed: set<T>, rest: set<T>, e: T)
    requires e in rest && rest <= listed
    ensures all - (listed - rest) - {e} == all - (listed - (rest - {e}))
  {
  }

  /** On a fault-free server the next temporary object is there to be removed. */
  lemma PartsReady(trust: Trust, fs: FileSet, t: Tree, u: Tree, listed: set<string>, rest: set<string>, entry: string)
    requires PartsAt(trust, fs, t, u, listed, rest) && entry in rest && rest <= listed
    ensures Ideal(trust, fs, t) && listed == Children(t, fs.dir) * Parts(fs) ==>
      fs.dir in u.dirs && fs.At(entry) in u.files && Children(u, fs.dir) - {entry} <= fs.Names() + Parts(fs)
  {
    ChildExists(u, fs.dir, entry);
  }

  /** One round of the first phase. */
  method RemovePart(s: Server, fs: FileSet, entry: string, ghost listed: set<string>, ghost rest: set<string>,
                    ghost t0: Tree)
    returns (r: Result<()>)
    requires s.Valid() && listed <= Parts(fs) && entry in rest && rest <= listed
    requires PartsAt(s.trust, fs, t0, s.tree, listed, rest)
    modifies s
    ensures s.Valid() && old(s.log) <= s.log && RunFrom(fs, DeletionMode(s.trust), s.log, |old(s.log)| - 1)
    ensures Trimmed(fs, t0, s.tree)
    ensures r.Ok? ==> PartsAt(s.trust, fs, t0, s.tree, listed, rest - {entry})
    ensures Ideal(s.trust, fs, t0) && listed == Children(t0, fs.dir) * Parts(fs) && r.Err? ==>
      !ListsEmpty(s.trust.profile)
    ensures r.Err? ==> r.failure.Refused?
  {
    ghost var u := s.tree;
    ghost var n :| n in fs.Names() && Part(n) == entry;
    PartsReady(s.trust, fs, t0, u, listed, rest, entry);
    r := RemoveEntry(s, fs, entry, fs.Names() + Parts(fs), DropPart(n));
    PartsNext(s.trust, fs, t0, u, s.tree, listed, rest, entry, n);
  }

  /** Remove the temporary objects an interrupted upload left; the order among them is left open. */
  method RemoveParts(s: Server, fs: FileSet, listed: set<string>) returns (r: Result<()>)
    requires s.Valid() && listed <= Parts(fs)
    modifies s
    ensures s.Valid() && old(s.log) <= s.log && RunFrom(fs, DeletionMode(s.trust), s.log, |old(s.log)| - 1)
    ensures PartsAt(s.trust, fs, old(s.tree), s.tree, listed, {}) || r.Err?
    ensures Trimmed(fs, old(s.tree), s.tree)
    ensures Ideal(s.trust, fs, old(s.tree)) && listed == Children(old(s.tree), fs.dir) * Parts(fs) && r.Err? ==>
      !ListsEmpty(s.trust.profile)
    ensures r.Err? ==> r.failure.Refused?
  {
    ghost var t0, from := s.tree, |s.log| - 1;
    var rest := listed;
    while rest != {}
      invariant rest <= listed && s.Valid() && old(s.log) <= s.log
      invariant RunFrom(fs, DeletionMode(s.trust), s.log, from)
      invariant PartsAt(s.trust, fs, t0, s.tree, listed, rest)
      decreases |rest|
    {
      var entry :| entry in rest;
      ghost var log := s.log;
      var removed := RemovePart(s, fs, entry, listed, rest, t0);
      RunAppend(fs, DeletionMode(s.trust), log, from, s.log);
      if removed.Err? { return Err(removed.failure); }
      rest := rest - {entry};
    }
    return Ok(());
  }

  lemma OthersThanPart(fs: FileSet, t: Tree, u: Tree, n: string)
    requires fs.NoClash() && n in fs.Names() && (u == t || u == Without(t, fs.At(Part(n))))
    ensures ExpectedKept(fs, t, u)
  {
    forall m | m in fs.Names() ensures SameFile(t, u, fs.At(m)) { PathsApart(fs, m, Part(n)); }
  }

  /** One expected file: true when it was deleted, false when it was missing already. */
  method RemoveExpected(s: Server, fs: FileSet, name: string) returns (r: Result<bool>)
    requires s.Valid() && name in fs.Names()
    requires s.trust != Hostile && name == ManifestName ==> !SomeArtifact(fs, s.tree)
    modifies s
    ensures s.Valid() && old(s.log) <= s.log && RunFrom(fs, DeletionMode(s.trust), s.log, |old(s.log)| - 1)
    ensures s.tree == old(s.tree) || s.tree == Without(old(s.tree), fs.At(name))
    ensures s.trust != Hostile && r.Ok? ==>
      fs.At(name) !in s.tree.files && (r.value <==> fs.At(name) in old(s.tree.files))
    ensures OnlyExpected(s.trust, fs, old(s.tree)) ==>
      && Children(s.tree, fs.dir) == Children(old(s.tree), fs.dir) - {name}
      && (r.Ok? <==> Children(s.tree, fs.dir) != {} || ListsEmpty(s.trust.profile))
    ensures r.Err? ==> r.failure.Refused?
  {
    ChildExists(s.tree, fs.dir, name);
    if s.trust != Hostile && fs.dir !in s.tree.dirs { NothingBelow(s.tree, fs.dir, name); }
    var entries := ListRevisionDirectory(s, fs.dir);
    if entries.Err? { return Err(Caught(entries.failure)); }
    if entries.value.None? || name !in entries.value.value { return Ok(false); }
    if !(entries.value.value <= fs.Names()) { return Err(Refused("DESTINATION_DELETE_CONFLICT")); }
    var removed := RemoveEntry(s, fs, name, fs.Names(), Drop(name));
    if removed.Err? { return Err(removed.failure); }
    return Ok(true);
  }

  /** What the second phase has done after i expected files. */
  ghost predicate FilesAt(trust: Trust, fs: FileSet, files: seq<ExpectedFile>, t: Tree, u: Tree, i: nat, d: Deletion)
    requires i <= |files|
  {
    && Trimmed(fs, t, u)
    && d.expected == |files| && d.deleted + d.missing == i && d.directoryRemoved && !d.alreadyAbsent
    && (trust != Hostile ==> CountedTo(fs, files, t, u, i, d))
    && (OnlyExpected(trust, fs, t) ==> OnlyExpected(trust, fs, u))
  }

  /** The first i files are gone and counted by what was there; the others are as they were. */
  ghost predicate CountedTo(fs: FileSet, files: seq<ExpectedFile>, t: Tree, u: Tree, i: nat, d: Deletion)
    requires i <= |files|
  {
    && d.deleted == CountPresent(fs, files, t, i) && d.bytes == BytesPresent(fs, files, t, i)
    && (forall j | 0 <= j < i :: fs.At(files[j].filename) !in u.files)
    && forall j | i <= j < |files| :: SameFile(t, u, fs.At(files[j].filename))
  }

  ghost predicate OnlyExpected(trust: Trust, fs: FileSet, t: Tree) {
    trust.Reliable? && NoDirsInWay(fs, t) && fs.dir in t.dirs && Children(t, fs.dir) <= fs.Names()
  }

  function Tally(d: Deletion, removed: bool, size: nat): Deletion {
    if removed then d.(deleted := d.deleted + 1, bytes := d.bytes + size) else d.(missing := d.missing + 1)
  }

  lemma CountedNext(fs: FileSet, files: seq<ExpectedFile>, t: Tree, u: Tree, v: Tree, i: nat, d: Deletion,
                    removed: bool)
    requires i < |files| && DistinctNames(files) && CountedTo(fs, files, t, u, i, d)
    requires v == u || v == Without(u, fs.At(files[i].filename))
    requires fs.At(files[i].filename) !in v.files && (removed <==> fs.At(files[i].filename) in u.files)
    ensures CountedTo(fs, files, t, v, i + 1, Tally(d, removed, files[i].size))
  {
    assert SameFile(t, u, fs.At(files[i].filename));
    forall j | i < j < |files| ensures SameFile(t, v, fs.At(files[j].filename)) {
      PathsApart(fs, files[j].filename, files[i].filename);
      assert SameFile(t, u, fs.At(files[j].filename));
    }
  }

  lemma FilesNext(trust: Trust, fs: FileSet, files: seq<ExpectedFile>, t: Tree, u: Tree, v: Tree, i: nat,
                  d: Deletion, removed: bool)
    requires i < |files| && DistinctNames(files) && FilesAt(trust, fs, files, t, u, i, d)
    requires files[i].filename in fs.Names() && (v == u || v == Without(u, fs.At(files[i].filename)))
    requires trust != Hostile ==>
      fs.At(files[i].filename) !in v.files && (removed <==> fs.At(files[i].filename) in u.files)
    requires OnlyExpected(trust, fs, u) ==>
      Children(v, fs.dir) == Children(u, fs.dir) - {files[i].filename}
    ensures FilesAt(trust, fs, files, t, v, i + 1, Tally(d, removed, files[i].size))
  {
    TrimmedFurther(fs, t, u, v, files[i].filename, Drop(files[i].filename));
    if trust != Hostile { CountedNext(fs, files, t, u, v, i, d, removed); }
    if OnlyExpected(trust, fs, u) { FewerExpected(trust, fs, u, v); }
  }

  lemma FewerExpected(trust: Trust, fs: FileSet, t: Tree, u: Tree)
    requires OnlyExpected(trust, fs, t) && u.dirs == t.dirs && Children(u, fs.dir) <= Children(t, fs.dir)
    ensures OnlyExpected(trust, fs, u)
  {
  }

  lemma OrderedFiles(fs: FileSet, manifestSize: nat)
    requires fs.Valid()
    ensures var files := Ordered(fs, manifestSize);
      && DistinctNames(files) && files[|fs.artifacts|].filename == ManifestName
      && (forall i | 0 <= i < |files| :: files[i].filename in fs.Names())
      && (forall i | 0 <= i < |fs.artifacts| :: files[i] == fs.artifacts[i] && files[i].filename != ManifestName)
  {
  }

  /** When the manifest's turn comes, no artifact is left. */
  lemma FilesReady(trust: Trust, fs: FileSet, manifestSize: nat, t: Tree, u: Tree, i: nat, d: Deletion)
    requires fs.Valid() && i <= |fs.artifacts|
    requires FilesAt(trust, fs, Ordered(fs, manifestSize), t, u, i, d)
    ensures Ordered(fs, manifestSize)[i].filename in fs.Names()
    ensures trust != Hostile && Ordered(fs, manifestSize)[i].filename == ManifestName ==> !SomeArtifact(fs, u)
  {
    OrderedFiles(fs, manifestSize);
    forall n | n in fs.ArtifactNames() && trust != Hostile && i == |fs.artifacts| ensures fs.At(n) !in u.files {
      var j :| 0 <= j < |fs.artifacts| && fs.artifacts[j].filename == n;
      assert Ordered(fs, manifestSize)[j] == fs.artifacts[j];
    }
  }

  /** One round of the second phase. */
  method RemoveNext(s: Server, fs: FileSet, manifestSize: nat, i: nat, d: Deletion, ghost t0: Tree)
    returns (r: Result<Deletion>)
    requires s.Valid() && fs.Valid() && i <= |fs.artifacts|
    requires FilesAt(s.trust, fs, Ordered(fs, manifestSize), t0, s.tree, i, d)
    modifies s
    ensures s.Valid() && old(s.log) <= s.log && RunFrom(fs, DeletionMode(s.trust), s.log, |old(s.log)| - 1)
    ensures Trimmed(fs, t0, s.tree)
    ensures r.Ok? ==> FilesAt(s.trust, fs, Ordered(fs, manifestSize), t0, s.tree, i + 1, r.value)
    ensures OnlyExpected(s.trust, fs, t0) && r.Err? ==> !ListsEmpty(s.trust.profile)
    ensures r.Err? ==> r.failure.Refused?
  {
    ghost var u := s.tree;
    var file := Ordered(fs, manifestSize)[i];
    OrderedFiles(fs, manifestSize);
    FilesReady(s.trust, fs, manifestSize, t0, u, i, d);
    var removed := RemoveExpected(s, fs, file.filename);
    TrimmedFurther(fs, t0, u, s.tree, file.filename, Drop(file.filename));
    if removed.Err? { return Err(removed.failure); }
    FilesNext(s.trust, fs, Ordered(fs, manifestSize), t0, u, s.tree, i, d, removed.value);
    return Ok(Tally(d, removed.value, file.size));
  }

  /** Delete the expected files, the manifest last. */
  method RemoveFiles(s: Server, fs: FileSet, manifestSize: nat) returns (r: Result<Deletion>)
    requires s.Valid() && fs.Valid()
    modifies s
    ensures s.Valid() && old(s.log) <= s.log && RunFrom(fs, DeletionMode(s.trust), s.log, |old(s.log)| - 1)
    ensures Trimmed(fs, old(s.tree), s.tree)
    ensures r.Ok? ==>
      FilesAt(s.trust, fs, Ordered(fs, manifestSize), old(s.tree), s.tree, |fs.artifacts| + 1, r.value)
    ensures OnlyExpected(s.trust, fs, old(s.tree)) && r.Err? ==> !ListsEmpty(s.trust.profile)
    ensures r.Err? ==> r.failure.Refused?
  {
    ghost var t0, from := s.tree, |s.log| - 1;
    var d := Deletion(|fs.artifacts| + 1, 0, 0, 0, true, false);
    for i := 0 to |fs.artifacts| + 1
      invariant s.Valid() && old(s.log) <= s.log && RunFrom(fs, DeletionMode(s.trust), s.log, from)
      invariant FilesAt(s.trust, fs, Ordered(fs, manifestSize), t0, s.tree, i, d)
    {
      ghost var log := s.log;
      var next := RemoveNext(s, fs, manifestSize, i, d, t0);
      RunAppend(fs, DeletionMode(s.trust), log, from, s.log);
      if next.Err? { return Err(next.failure); }
      d := next.value;
    }
    return Ok(d);
  }

  // ---- Removing the empty directory ----

  /** After removal, whether the code can see on a fault-free server that the directory is gone. */
  ghost predicate CanSeeGone(t: Tree, dir: Path, profile: Profile)
    requires dir != []
  {
    && profile.missing.kind == Permanent
    && (profile.missing.missing || profile.empty.None? || Children(t, Parent(dir)) != {dir[|dir| - 1]})
  }

  lemma OneChildLess(t: Tree, dir: Path)
    requires dir != [] && dir in t.dirs && dir !in t.files
    ensures var up, last := Parent(dir), dir[|dir| - 1];
      last in Children(t, up) && Children(WithoutDir(t, dir), up) == Children(t, up) - {last}
  {
    var u, up, last := WithoutDir(t, dir), Parent(dir), dir[|dir| - 1];
    assert up + [last] == dir;
    ChildExists(t, up, last);
    forall n: string ensures n in Children(u, up) <==> n in Children(t, up) - {last} {
      ChildExists(u, up, n);
      ChildExists(t, up, n);
      assert up + [n] == dir <==> n == last;
    }
  }

  lemma GoneSeen(t: Tree, dir: Path, profile: Profile)
    requires Sound(t) && dir != [] && dir in t.dirs && Children(t, dir) == {}
    ensures KnownGone(WithoutDir(t, dir), dir, profile) <==> CanSeeGone(t, dir, profile)
  {
    RemovedDirSound(t, dir);
    ParentThere(t, dir);
    OneChildLess(t, dir);
    ProvableChild(WithoutDir(t, dir), dir, profile);
  }

  /** RMD has removed the empty directory, or nothing has happened. */
  ghost predicate AtMostRemoved(fs: FileSet, t: Tree, u: Tree) {
    u == t || (fs.dir in t.dirs && Children(t, fs.dir) == {} && u == WithoutDir(t, fs.dir))
  }

  lemma GrowByRmd(fs: FileSet, mode: Mode, log: seq<Tree>, u: Tree, grown: seq<Tree>)
    requires log != [] && mode != Replicating && AtMostRemoved(fs, log[|log| - 1], u) && grown == log + [u]
    ensures RunFrom(fs, mode, grown, |log| - 1)
  {
    var step := if u == log[|log| - 1] then Still else RemoveDir;
    assert Makes(fs, step, log[|log| - 1], u);
    Grow(fs, mode, step, log, |log| - 1, u);
  }

  /** cwd("/") and RMD. */
  method CwdAndRmd(s: Server, fs: FileSet) returns (removed: Reply<()>)
    requires s.Valid() && fs.dir != []
    modifies s
    ensures s.Valid() && (s.log == old(s.log) || s.log == old(s.log) + [s.tree])
    ensures AtMostRemoved(fs, old(s.tree), s.tree)
    ensures s.log == old(s.log) ==> s.tree == old(s.tree)
    ensures s.trust.Reliable? && fs.dir in old(s.tree.dirs) && Children(old(s.tree), fs.dir) == {} ==>
      removed.Done? && s.tree == WithoutDir(old(s.tree), fs.dir)
  {
    removed := s.Cwd([]);
    if removed.Done? { removed := s.Rmd(fs.dir); }
  }

  /** cwd("/") and RMD, with an error settled by a fresh listing. */
  method RemoveEmpty(s: Server, fs: FileSet) returns (r: Result<()>)
    requires s.Valid() && fs.Valid()
    modifies s
    ensures s.Valid() && old(s.log) <= s.log && RunFrom(fs, DeletionMode(s.trust), s.log, |old(s.log)| - 1)
    ensures s.tree == old(s.tree) || (fs.dir in old(s.tree.dirs) && s.tree == WithoutDir(old(s.tree), fs.dir))
    ensures s.trust.Reliable? && fs.dir in old(s.tree.dirs) && Children(old(s.tree), fs.dir) == {} ==>
      r.Ok? && s.tree == WithoutDir(old(s.tree), fs.dir)
    ensures r.Err? ==> r.failure.Refused?
  {
    ghost var log := s.log;
    var removed := CwdAndRmd(s, fs);
    if s.log != log { GrowByRmd(fs, DeletionMode(s.trust), log, s.tree, s.log); }
    if removed.Failed? {
      if removed.error.kind != Permanent { return Err(Refused("DESTINATION_DELETE_FAILED")); }
      var after := ListRevisionDirectory(s, fs.dir);
      if after.Err? { return Err(Caught(after.failure)); }
      if after.value.Some? { return Err(Refused("DESTINATION_DIRECTORY_DELETE_FAILED")); }
    }
    return Ok(());
  }

  method RemoveDirectory(s: Server, fs: FileSet) returns (r: Result<()>)
    requires s.Valid() && fs.Valid()
    modifies s
    ensures s.Valid() && old(s.log) <= s.log && RunFrom(fs, DeletionMode(s.trust), s.log, |old(s.log)| - 1)
    ensures s.tree == old(s.tree) || (fs.dir in old(s.tree.dirs) && s.tree == WithoutDir(old(s.tree), fs.dir))
    ensures s.trust != Hostile && r.Ok? ==> fs.dir !in s.tree.dirs
    ensures s.trust.Reliable? && fs.dir in old(s.tree.dirs) && Children(old(s.tree), fs.dir) == {} ==>
      (r.Ok? <==> ListsEmpty(s.trust.profile) && CanSeeGone(old(s.tree), fs.dir, s.trust.profile))
    ensures r.Err? ==> r.failure.Refused?
  {
    if fs.dir in s.tree.dirs && Children(s.tree, fs.dir) == {} && s.trust.Reliable? {
      GoneSeen(s.tree, fs.dir, s.trust.profile);
    }
    var remaining := ListRevisionDirectory(s, fs.dir);
    if remaining.Err? { return Err(Caught(remaining.failure)); }
    if remaining.value.None? { return Ok(()); }
    if remaining.value.value != {} { return Err(Refused("DESTINATION_DELETE_CONFLICT")); }
    r := RemoveEmpty(s, fs);
    if r.Err? { return; }
    var last := ListRevisionDirectory(s, fs.dir);
    if last.Err? { return Err(Caught(last.failure)); }
    if last.value.Some? { return Err(Refused("DESTINATION_DIRECTORY_DELETE_FAILED")); }
    return Ok(());
  }

  // ---- The whole deletion ----

  /** The copy is gone and everything else is exactly as it was. */
  ghost predicate ExactlyGone(fs: FileSet, t: Tree, u: Tree) {
    && u.dirs == t.dirs - {fs.dir} && fs.dir !in u.dirs
    && forall p :: if Own(fs, p) then p !in u.files else SameFile(t, u, p)
  }

  lemma GoneExactly(fs: FileSet, t: Tree, u: Tree, v: Tree)
    requires fs.Valid() && Sound(v) && Trimmed(fs, t, u) && fs.dir !in v.dirs
    requires v == u || (fs.dir in u.dirs && v == WithoutDir(u, fs.dir))
    ensures ExactlyGone(fs, t, v)
  {
    forall p ensures if Own(fs, p) then p !in v.files else SameFile(t, v, p) {
      if Own(fs, p) { assert Parent(p) == fs.dir; }
    }
  }

  lemma {:induction false} SameCounts(fs: FileSet, files: seq<ExpectedFile>, t: Tree, u: Tree, i: nat)
    requires i <= |files| && ExpectedKept(fs, t, u)
    requires forall j | 0 <= j < |files| :: files[j].filename in fs.Names()
    ensures CountPresent(fs, files, u, i) == CountPresent(fs, files, t, i)
    ensures BytesPresent(fs, files, u, i) == BytesPresent(fs, files, t, i)
  {
    if i > 0 {
      SameCounts(fs, files, t, u, i - 1);
      assert SameFile(t, u, fs.At(files[i - 1].filename));
    }
  }

  /** After the first phase only expected files are left; after the second, nothing. */
  lemma PartsGone(trust: Trust, fs: FileSet, t: Tree, u: Tree)
    requires PartsAt(trust, fs, t, u, Children(t, fs.dir) * Parts(fs), {}) && Ideal(trust, fs, t)
    ensures OnlyExpected(trust, fs, u)
  {
    var all, parts := Children(t, fs.dir), Parts(fs);
    RestIsExpected(all, fs.Names(), parts);
  }

  lemma RestIsExpected<T>(all: set<T>, names: set<T>, parts: set<T>)
    requires all <= names + parts
    ensures all - (all * parts - {}) <= names
  {
  }

  lemma FileGone(trust: Trust, fs: FileSet, manifestSize: nat, t: Tree, u: Tree, d: Deletion, name: string)
    requires fs.Valid() && trust != Hostile && name in fs.Names()
    requires FilesAt(trust, fs, Ordered(fs, manifestSize), t, u, |fs.artifacts| + 1, d)
    ensures fs.At(name) !in u.files
  {
    var files := Ordered(fs, manifestSize);
    OrderedFiles(fs, manifestSize);
    var j :| 0 <= j < |files| && files[j].filename == name;
    assert CountedTo(fs, files, t, u, |files|, d);
  }

  lemma AllFilesGone(trust: Trust, fs: FileSet, manifestSize: nat, t: Tree, u: Tree, d: Deletion)
    requires fs.Valid() && trust != Hostile && OnlyExpected(trust, fs, t)
    requires FilesAt(trust, fs, Ordered(fs, manifestSize), t, u, |fs.artifacts| + 1, d)
    ensures Children(u, fs.dir) == {}
  {
    assert NoDirsInWay(fs, u) && Children(u, fs.dir) <= fs.Names();
    forall n: string ensures n !in Children(u, fs.dir) {
      ChildExists(u, fs.dir, n);
      if n in fs.Names() { FileGone(trust, fs, manifestSize, t, u, d, n); }
    }
  }

  lemma SiblingsKept(fs: FileSet, t: Tree, u: Tree)
    requires fs.Valid() && Trimmed(fs, t, u)
    ensures Children(u, Parent(fs.dir)) == Children(t, Parent(fs.dir))
  {
    forall n: string ensures n in Children(u, Parent(fs.dir)) <==> n in Children(t, Parent(fs.dir)) {
      ChildExists(u, Parent(fs.dir), n);
      ChildExists(t, Parent(fs.dir), n);
      assert |Parent(fs.dir) + [n]| == |fs.dir|;
    }
  }

  lemma GoneFromTrimmed(fs: FileSet, t: Tree, u: Tree, v: Tree)
    requires Trimmed(fs, t, u) && ExactlyGone(fs, u, v)
    ensures ExactlyGone(fs, t, v)
  {
  }

  /** The second and third phase. */
  method DeleteExpected(s: Server, fs: FileSet, manifestSize: nat) returns (r: Result<Deletion>)
    requires s.Valid() && fs.Valid()
    modifies s
    ensures s.Valid() && old(s.log) <= s.log && RunFrom(fs, DeletionMode(s.trust), s.log, |old(s.log)| - 1)
    ensures r.Ok? ==> Finishes(s.trust, fs, manifestSize, old(s.tree), s.tree, r.value)
    ensures OnlyExpected(s.trust, fs, old(s.tree)) ==>
      (r.Ok? <==> ListsEmpty(s.trust.profile) && CanSeeGone(old(s.tree), fs.dir, s.trust.profile))
  {
    ghost var t0, log0 := s.tree, s.log;
    var files := RemoveFiles(s, fs, manifestSize);
    ghost var t1, log1 := s.tree, s.log;
    if files.Err? { return Err(files.failure); }
    SiblingsKept(fs, t0, t1);
    if OnlyExpected(s.trust, fs, t0) { AllFilesGone(s.trust, fs, manifestSize, t0, t1, files.value); }
    var dir := RemoveDirectory(s, fs);
    RunAppend(fs, DeletionMode(s.trust), log1, |log0| - 1, s.log);
    if dir.Err? { return Err(dir.failure); }
    if s.trust != Hostile { GoneExactly(fs, t0, t1, s.tree); }
    return Ok(files.value);
  }

  /** What a normal return says. */
  ghost predicate Finishes(trust: Trust, fs: FileSet, manifestSize: nat, t: Tree, u: Tree, d: Deletion) {
    && d.expected == |fs.artifacts| + 1 == d.deleted + d.missing && d.directoryRemoved && !d.alreadyAbsent
    && (trust != Hostile ==>
          && ExactlyGone(fs, t, u)
          && d.deleted == CountPresent(fs, Ordered(fs, manifestSize), t, |fs.artifacts| + 1)
          && d.bytes == BytesPresent(fs, Ordered(fs, manifestSize), t, |fs.artifacts| + 1))
  }

  /** What the first phase leaves to the others. */
  lemma AfterParts(trust: Trust, fs: FileSet, t: Tree, u: Tree, entries: set<string>)
    requires fs.Valid() && PartsAt(trust, fs, t, u, entries * Parts(fs), {})
    ensures Children(u, Parent(fs.dir)) == Children(t, Parent(fs.dir))
    ensures Ideal(trust, fs, t) && entries == Children(t, fs.dir) ==> OnlyExpected(trust, fs, u)
  {
    SiblingsKept(fs, t, u);
    if Ideal(trust, fs, t) && entries == Children(t, fs.dir) { PartsGone(trust, fs, t, u); }
  }

  /** What the others say of the tree they found holds of the tree before the first phase. */
  lemma FinishedFrom(trust: Trust, fs: FileSet, manifestSize: nat, t: Tree, u: Tree, v: Tree, d: Deletion)
    requires fs.Valid() && Trimmed(fs, t, u) && Finishes(trust, fs, manifestSize, u, v, d)
    ensures trust != Hostile ==> ExactlyGone(fs, t, v)
    ensures ExpectedKept(fs, t, u) ==> Finishes(trust, fs, manifestSize, t, v, d)
  {
    if trust != Hostile { GoneFromTrimmed(fs, t, u, v); }
    if ExpectedKept(fs, t, u) {
      OrderedFiles(fs, manifestSize);
      SameCounts(fs, Ordered(fs, manifestSize), t, u, |fs.artifacts| + 1);
    }
  }

  /** The deletion of a directory that is there, in its three phases. */
  method DeleteListed(s: Server, fs: FileSet, manifestSize: nat, entries: set<string>) returns (r: Result<Deletion>)
    requires s.Valid() && fs.Valid() && entries <= fs.Names() + Parts(fs)
    modifies s
    ensures s.Valid() && old(s.log) <= s.log && RunFrom(fs, DeletionMode(s.trust), s.log, |old(s.log)| - 1)
    ensures r.Ok? ==> r.value.expected == |fs.artifacts| + 1 == r.value.deleted + r.value.missing
    ensures r.Ok? ==> r.value.directoryRemoved && !r.value.alreadyAbsent
    ensures s.trust != Hostile && r.Ok? ==> ExactlyGone(fs, old(s.tree), s.tree)
    ensures r.Ok? && fs.NoClash() ==> Finishes(s.trust, fs, manifestSize, old(s.tree), s.tree, r.value)
    ensures Ideal(s.trust, fs, old(s.tree)) && entries == Children(old(s.tree), fs.dir) ==>
      (r.Ok? <==> ListsEmpty(s.trust.profile) && CanSeeGone(old(s.tree), fs.dir, s.trust.profile))
  {
    ghost var t0, log0 := s.tree, s.log;
    var parts := RemoveParts(s, fs, entries * Parts(fs));
    ghost var t1, log1 := s.tree, s.log;
    if parts.Err? { return Err(parts.failure); }
    AfterParts(s.trust, fs, t0, t1, entries);
    r := DeleteExpected(s, fs, manifestSize);
    RunAppend(fs, DeletionMode(s.trust), log1, |log0| - 1, s.log);
    if r.Ok? { FinishedFrom(s.trust, fs, manifestSize, t0, t1, s.tree, r.value); }
  }

  /** The deletion of a directory that is not there. */
  lemma NothingThere(fs: FileSet, manifestSize: nat, t: Tree)
    requires fs.Valid() && Sound(t) && fs.dir !in t.dirs
    ensures ExactlyGone(fs, t, t)
    ensures |Ordered(fs, manifestSize)| == |fs.artifacts| + 1
    ensures CountPresent(fs, Ordered(fs, manifestSize), t, |fs.artifacts| + 1) == 0
    ensures BytesPresent(fs, Ordered(fs, manifestSize), t, |fs.artifacts| + 1) == 0
  {
    GoneExactly(fs, t, t, t);
    OrderedFiles(fs, manifestSize);
    NonePresent(fs, Ordered(fs, manifestSize), t, |fs.artifacts| + 1);
  }

  /** delete_revision_replica_ftp from the connection on. */
  method Delete(s: Server, fs: FileSet, manifestSize: nat) returns (r: Result<Deletion>)
    requires s.Valid() && fs.Valid()
    modifies s
    // every state on the way follows by a deletion step
    ensures s.Valid() && old(s.log) <= s.log && RunFrom(fs, DeletionMode(s.trust), s.log, |old(s.log)| - 1)
    ensures r.Ok? ==> r.value.expected == |fs.artifacts| + 1 == r.value.deleted + r.value.missing
    ensures r.Ok? ==> (r.value.directoryRemoved <==> !r.value.alreadyAbsent)
    // a normal return is the exact removal of the copy, counted by what was there
    ensures s.trust != Hostile && r.Ok? ==>
      ExactlyGone(fs, old(s.tree), s.tree) && (r.value.alreadyAbsent <==> fs.dir !in old(s.tree.dirs))
    ensures s.trust != Hostile && r.Ok? && fs.NoClash() ==>
      && r.value.deleted == CountPresent(fs, Ordered(fs, manifestSize), old(s.tree), |fs.artifacts| + 1)
      && r.value.bytes == BytesPresent(fs, Ordered(fs, manifestSize), old(s.tree), |fs.artifacts| + 1)
    ensures r.Ok? && r.value.alreadyAbsent ==>
      s.tree == old(s.tree) && r.value.deleted == 0 && r.value.bytes == 0
    // an unknown entry stops the deletion before anything is touched
    ensures s.trust != Hostile && fs.dir in old(s.tree.dirs)
            && !(Children(old(s.tree), fs.dir) <= fs.Names() + Parts(fs)) ==>
      r.Err? && s.log == old(s.log) && s.tree == old(s.tree)
    // without faults a deletion finishes exactly when the server's replies let it see the end
    ensures Ideal(s.trust, fs, old(s.tree)) ==>
      (r.Ok? <==> ListsEmpty(s.trust.profile) && CanSeeGone(old(s.tree), fs.dir, s.trust.profile))
    ensures s.trust.Reliable? && fs.dir !in old(s.tree.dirs) ==>
      (r.Ok? <==> KnownGone(old(s.tree), fs.dir, s.trust.profile))
  {
    var entries := ListRevisionDirectory(s, fs.dir);
    if entries.Err? { return Err(Caught(entries.failure)); }
    if entries.value.None? {
      if s.trust != Hostile { NothingThere(fs, manifestSize, s.tree); }
      return Ok(Deletion(|fs.artifacts| + 1, 0, |fs.artifacts| + 1, 0, false, true));
    }
    if !(entries.value.value <= fs.Names() + Parts(fs)) { return Err(Refused("DESTINATION_DELETE_CONFLICT")); }
    r := DeleteListed(s, fs, manifestSize, entries.value.value);
  }

  lemma {:induction false} NonePresent(fs: FileSet, files: seq<ExpectedFile>, t: Tree, i: nat)
    requires Sound(t) && fs.dir !in t.dirs && i <= |files|
    ensures CountPresent(fs, files, t, i) == 0 && BytesPresent(fs, files, t, i) == 0
  {
    if i > 0 {
      NonePresent(fs, files, t, i - 1);
      NothingBelow(t, fs.dir, files[i - 1].filename);
    }
  }
}
