/**
 * The read-only half of services/destination_ftp.py's FTP layer: proving that a path is absent,
 * asking whether a file exists, listing the revision directory, and reading a file back.
 */
module FtpInspection {
  import opened Text
  import opened Manifest
  import opened RemoteTree

  /** A DestinationError by its code, or an ftplib error nothing on the way has caught. */
  datatype Failure = Refused(code: string) | Escaped(error: FtpError)

  datatype Result<+T> = Ok(value: T) | Err(failure: Failure)

  // ---- _directory_absent_from_parent_listing ----

  /**
   * Whether a fault-free server's listings can prove a path absent: the nearest ancestor that
   * can be listed lacks the next component. Listing an empty directory may be an error on some
   * servers, and then the walk moves up to where the directory itself is listed.
   */
  ghost predicate Provable(t: Tree, p: Path, profile: Profile) {
    if p == [] then false
    else if Parent(p) !in t.dirs then
      profile.missing.kind == Permanent && Provable(t, Parent(p), profile)
    else if Children(t, Parent(p)) == {} && profile.empty.Some? then
      profile.empty.value.kind == Permanent && Provable(t, Parent(p), profile)
    else p[|p| - 1] !in Children(t, Parent(p))
  }

  /** What can be proved is so. */
  lemma {:induction false} ProvableAbsent(t: Tree, p: Path, profile: Profile)
    requires Sound(t) && Provable(t, p, profile)
    ensures !Exists(t, p)
  {
    if Parent(p) !in t.dirs || (Children(t, Parent(p)) == {} && profile.empty.Some?) {
      ProvableAbsent(t, Parent(p), profile);
      MissingBelow(t, Parent(p), p);
    } else {
      ChildExists(t, Parent(p), p[|p| - 1]);
      assert Parent(p) + [p[|p| - 1]] == p;
    }
  }

  /** The depth of the nearest existing directory at or above a path. */
  ghost function Nearest(t: Tree, p: Path): (k: nat)
    requires Sound(t)
    ensures k <= |p| && p[..k] in t.dirs && (k < |p| ==> p[..k + 1] !in t.dirs)
  {
    if p in t.dirs then
      assert p[..|p|] == p;
      |p|
    else
      var k := Nearest(t, Parent(p));
      assert Parent(p)[..k] == p[..k];
      assert k < |p| - 1 ==> Parent(p)[..k + 1] == p[..k + 1];
      assert k == |p| - 1 ==> p[..k + 1] == p;
      k
  }

  /** In a directory with its parent in place, absence is provable unless the parent cannot list itself empty. */
  lemma ProvableChild(t: Tree, p: Path, profile: Profile)
    requires Sound(t) && p != [] && Parent(p) in t.dirs
    ensures Provable(t, p, profile) <==> !Exists(t, p) && !(Children(t, Parent(p)) == {} && profile.empty.Some?)
  {
    ChildExists(t, Parent(p), p[|p| - 1]);
    assert Parent(p) + [p[|p| - 1]] == p;
    if Provable(t, Parent(p), profile) { ProvableAbsent(t, Parent(p), profile); }
  }

  /** Below a directory that is there the walk starts at once. */
  lemma ProvableHere(t: Tree, p: Path, profile: Profile)
    requires Sound(t) && p !in t.dirs && Parent(p) in t.dirs
    ensures Nearest(t, p) == |p| - 1
    ensures Provable(t, p, profile) <==>
      p[..|p| - 1 + 1] !in t.files && (profile.empty.None? || Children(t, p[..|p| - 1]) != {})
  {
    assert Parent(p) == p[..|p| - 1] && p[..|p| - 1 + 1] == p;
    ProvableChild(t, p, profile);
  }

  /**
   * On a fault-free server that answers permanent errors, the absence of a missing directory can
   * be proved exactly when its nearest existing ancestor has an entry, or lists itself empty
   * without an error, and holds no plain file in the way.
   */
  lemma {:induction false} ProvableExact(t: Tree, p: Path, profile: Profile)
    requires Sound(t) && profile.missing.kind == Permanent && p !in t.dirs
    ensures var k := Nearest(t, p);
      k < |p| && (Provable(t, p, profile) <==>
        p[..k + 1] !in t.files && (profile.empty.None? || Children(t, p[..k]) != {}))
  {
    var q := Parent(p);
    if q in t.dirs {
      ProvableHere(t, p, profile);
    } else {
      ProvableExact(t, q, profile);
      var k := Nearest(t, q);
      assert q[..k] == p[..k] && q[..k + 1] == p[..k + 1];
    }
  }

  method DirectoryAbsent(s: Server, path: Path) returns (absent: bool)
    requires s.Valid()
    modifies s`cwd
    ensures s.Valid()
    ensures s.trust != Hostile && absent ==> !Exists(s.tree, path)
    ensures s.trust.Reliable? ==> (absent <==> Provable(s.tree, path, s.trust.profile))
  {
    var current := path;
    while current != []
      invariant s.Valid() && current <= path
      invariant s.trust.Reliable? ==>
        (Provable(s.tree, path, s.trust.profile) <==> Provable(s.tree, current, s.trust.profile))
      decreases |current|
    {
      var parent, child := Parent(current), current[|current| - 1];
      var listing: Reply<seq<Entry>>;
      var entered := s.Cwd(parent);
      if entered.Done? { listing := s.Nlst(); } else { listing := Failed(entered.error); }
      if listing.Failed? {
        if listing.error.kind != Permanent || listing.error.denied { return false; }
        current := parent;
      } else {
        match ParseListing(parent, listing.value) {
          case None => return false;
          case Some(names) =>
            if s.trust != Hostile {
              ChildExists(s.tree, parent, child);
              assert parent + [child] == current;
              if child !in names { MissingBelow(s.tree, current, path); }
            }
            return child !in names;
        }
      }
    }
    return false;
  }

  // ---- _remote_exists ----

  /** Whether a fault-free server lets the code conclude that a missing path is missing. */
  ghost predicate KnownMissing(t: Tree, p: Path, profile: Profile) {
    profile.quiet || profile.missing.missing || Provable(t, p, profile)
  }

  method RemoteExists(s: Server, path: Path) returns (r: Result<bool>)
    requires s.Valid()
    modifies s`cwd
    ensures s.Valid()
    ensures s.trust != Hostile && r == Ok(true) ==> Exists(s.tree, path)
    ensures s.trust != Hostile && r == Ok(false) ==> path !in s.tree.files
    ensures s.trust.Reliable? && path in s.tree.files ==> r == Ok(true)
    ensures s.trust.Reliable? && !Exists(s.tree, path) ==>
      if KnownMissing(s.tree, path, s.trust.profile) then r == Ok(false) else r.Err?
    ensures r.Err? ==> r == Err(Refused("DESTINATION_PATH_UNREADABLE"))
  {
    var listed := s.NlstPath(path);
    match listed {
      case Done(some) => return Ok(some);
      case Failed(e) =>
        if e.missing { return Ok(false); }
        if !e.denied {
          var absent := DirectoryAbsent(s, path);
          if absent { return Ok(false); }
        }
        return Err(Refused("DESTINATION_PATH_UNREADABLE"));
    }
  }

  // ---- _read_remote ----

  /** A read that succeeds delivers exactly the stored bytes, and no more than asked for. */
  method ReadRemote(s: Server, path: Path, maxBytes: nat) returns (r: Result<Bytes>)
    requires s.Valid()
    ensures r.Ok? ==> path in s.tree.files && r.value == s.tree.files[path] && |r.value| <= maxBytes
    ensures s.trust.Reliable? ==> (r.Ok? <==> path in s.tree.files && |s.tree.files[path]| <= maxBytes)
    ensures r.Err? ==> r == Err(Refused("DESTINATION_VERIFY_FAILED"))
  {
    var mode := s.Noop();
    if mode.Failed? { return Err(Refused("DESTINATION_VERIFY_FAILED")); }
    var size := s.Size(path);
    if size.Failed? || size.value < 0 || size.value > maxBytes { return Err(Refused("DESTINATION_VERIFY_FAILED")); }
    var content := s.Retr(path);
    if content.Failed? || |content.value| != size.value { return Err(Refused("DESTINATION_VERIFY_FAILED")); }
    return Ok(content.value);
  }

  // ---- _list_revision_directory(missing_ok=True) ----

  /** Whether a fault-free server lets the listing conclude that a missing directory is gone. */
  ghost predicate KnownGone(t: Tree, dir: Path, profile: Profile) {
    profile.missing.kind == Permanent && (profile.missing.missing || Provable(t, dir, profile))
  }

  /** Whether a fault-free server lists an empty directory in a way the code understands. */
  predicate ListsEmpty(profile: Profile) { profile.empty.Some? ==> profile.empty.value.missing }

  /** The names in the directory, or None when it is not there. */
  method ListRevisionDirectory(s: Server, dir: Path) returns (r: Result<Option<set<string>>>)
    requires s.Valid()
    modifies s`cwd
    ensures s.Valid()
    ensures s.trust != Hostile && r == Ok(None) ==> dir !in s.tree.dirs
    ensures s.trust != Hostile && r.Ok? && r.value.Some? ==>
      dir in s.tree.dirs && r.value.value == Children(s.tree, dir)
    ensures s.trust.Reliable? && dir in s.tree.dirs ==>
      (r.Ok? <==> Children(s.tree, dir) != {} || ListsEmpty(s.trust.profile))
    ensures s.trust.Reliable? && dir !in s.tree.dirs ==> (r.Ok? <==> KnownGone(s.tree, dir, s.trust.profile))
  {
    var entered := s.Cwd(dir);
    if entered.Failed? {
      var e := entered.error;
      if e.kind != Permanent { return Err(Escaped(e)); }
      if e.missing { return Ok(None); }
      if !e.denied {
        var absent := DirectoryAbsent(s, dir);
        if absent { return Ok(None); }
      }
      return Err(Refused("DESTINATION_DIRECTORY_UNREADABLE"));
    }
    var listing := s.Nlst();
    if listing.Failed? {
      if listing.error.kind != Permanent { return Err(Escaped(listing.error)); }
      if listing.error.missing { return Ok(Some({})); }
      return Err(Refused("DESTINATION_DIRECTORY_UNREADABLE"));
    }
    match ParseListing(dir, listing.value) {
      case None => return Err(Refused("DESTINATION_DIRECTORY_UNSAFE"));
      case Some(names) => return Ok(Some(names));
    }
  }
}
