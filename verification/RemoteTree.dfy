/**
 * The remote side of the FTP services: a directory tree, and the commands of section 4.1.3 of
 * RFC 959 as steps on it. A command may fail, take effect although its reply is an error, or be
 * the last one before the worker dies.
 */
module RemoteTree {
  import opened Text
  import opened Manifest

  /** An absolute path by its components; [] is the root. */
  type Path = seq<string>

  datatype Tree = Tree(dirs: set<Path>, files: map<Path, Bytes>)

  function Parent(p: Path): Path
    requires p != []
  {
    p[..|p| - 1]
  }

  ghost predicate Exists(t: Tree, p: Path) { p in t.dirs || p in t.files }

  ghost predicate HasParent(t: Tree, p: Path) { p != [] ==> Parent(p) in t.dirs }

  /** A tree: the root is there, and whatever exists has its parent directory. */
  ghost predicate Sound(t: Tree) {
    && [] in t.dirs
    && (forall p {:trigger HasParent(t, p)} | p in t.dirs :: HasParent(t, p))
    && (forall p | p in t.files :: p != [] && p !in t.dirs && Parent(p) in t.dirs)
  }

  function Children(t: Tree, d: Path): set<string> {
    set p | p in t.dirs + t.files.Keys && p != [] && Parent(p) == d :: p[|p| - 1]
  }

  lemma ChildExists(t: Tree, d: Path, n: string)
    ensures n in Children(t, d) <==> Exists(t, d + [n])
  {
    var p := d + [n];
    assert Parent(p) == d && p[|p| - 1] == n;
    if n in Children(t, d) {
      var q :| q in t.dirs + t.files.Keys && q != [] && Parent(q) == d && q[|q| - 1] == n;
      assert q == p;
    }
  }

  lemma ParentThere(t: Tree, p: Path)
    requires Sound(t) && Exists(t, p) && p != []
    ensures Parent(p) in t.dirs
  {
    assert p in t.dirs ==> HasParent(t, p);
  }

  /** Nothing exists below a missing path. */
  lemma {:induction false} MissingBelow(t: Tree, q: Path, p: Path)
    requires Sound(t) && !Exists(t, q) && q <= p
    ensures !Exists(t, p)
  {
    assert p in t.dirs ==> HasParent(t, p);
    if q != p {
      MissingBelow(t, q, Parent(p));
    }
  }

  function Prefixes(p: Path): set<Path> {
    if p == [] then {[]} else Prefixes(Parent(p)) + {p}
  }

  lemma {:induction false} PrefixesMeaning(p: Path, q: Path)
    ensures q in Prefixes(p) <==> q <= p
  {
    if p != [] {
      PrefixesMeaning(Parent(p), q);
      assert q <= p && |q| == |p| ==> q == p;
    }
  }

  /** A directory has all its prefixes. */
  lemma {:induction false} DirPrefixes(t: Tree, p: Path)
    requires Sound(t) && p in t.dirs
    ensures Prefixes(p) <= t.dirs
  {
    assert HasParent(t, p);
    if p != [] {
      DirPrefixes(t, Parent(p));
    }
  }

  // ---- Effects of the changing commands ----

  ghost predicate CanHold(t: Tree, p: Path) { p != [] && Parent(p) in t.dirs && p !in t.dirs }

  function WithFile(t: Tree, p: Path, content: Bytes): Tree { t.(files := t.files[p := content]) }

  function Without(t: Tree, p: Path): Tree { t.(files := t.files - {p}) }

  function Moved(t: Tree, from: Path, to: Path): Tree
    requires from in t.files
  {
    t.(files := (t.files - {from})[to := t.files[from]])
  }

  function WithDir(t: Tree, p: Path): Tree { t.(dirs := t.dirs + {p}) }

  function WithoutDir(t: Tree, p: Path): Tree { t.(dirs := t.dirs - {p}) }

  lemma MoreDirs(t: Tree, u: Tree)
    requires Sound(t) && t.dirs <= u.dirs
    ensures forall p {:trigger HasParent(u, p)} | p in t.dirs :: HasParent(u, p)
  {
    forall p | p in t.dirs ensures HasParent(u, p) { assert HasParent(t, p); }
  }

  lemma SameDirs(t: Tree, u: Tree)
    requires Sound(t) && u.dirs == t.dirs
    ensures forall p {:trigger HasParent(u, p)} | p in u.dirs :: HasParent(u, p)
  {
    MoreDirs(t, u);
  }

  lemma EffectsSound(t: Tree, p: Path, content: Bytes)
    requires Sound(t)
    ensures CanHold(t, p) ==> Sound(WithFile(t, p, content))
    ensures Sound(Without(t, p))
    ensures p != [] && Parent(p) in t.dirs && !Exists(t, p) ==> Sound(WithDir(t, p))
  {
    SameDirs(t, WithFile(t, p, content));
    SameDirs(t, Without(t, p));
    MoreDirs(t, WithDir(t, p));
  }

  lemma MovedSound(t: Tree, from: Path, to: Path)
    requires Sound(t) && from in t.files && CanHold(t, to)
    ensures Sound(Moved(t, from, to))
  {
    SameDirs(t, Moved(t, from, to));
  }

  lemma NoChildOf(t: Tree, p: Path, q: Path)
    requires Children(t, p) == {} && Exists(t, q) && q != []
    ensures Parent(q) != p
  {
    var name := q[|q| - 1];
    ChildExists(t, p, name);
    assert Parent(q) == p ==> q == p + [name];
  }

  lemma RemovedDirSound(t: Tree, p: Path)
    requires Sound(t) && p != [] && Children(t, p) == {}
    ensures Sound(WithoutDir(t, p))
  {
    forall q | Exists(t, q) && q != [] ensures Parent(q) != p { NoChildOf(t, p, q); }
    forall q | q in WithoutDir(t, p).dirs ensures HasParent(WithoutDir(t, p), q) { assert HasParent(t, q); }
  }

  // ---- Replies ----

  datatype Kind = Permanent | Temporary | Broken

  /**
   * An error by what the code looks at: its class, whether its text starts with "550", whether it
   * says the path is missing (is_missing_ftp_error, which needs a 550) and whether it says access
   * was denied (is_denied_ftp_error).
   */
  datatype RawError = RawError(kind: Kind, is550: bool, missing: bool, denied: bool)

  type FtpError = e: RawError | (e.missing ==> e.is550) && (e.is550 ==> e.kind == Permanent)
    witness RawError(Broken, false, false, false)

  datatype Reply<+T> = Done(value: T) | Failed(error: FtpError)

  /** One line of a listing: a plain name, an absolute path, "." or "..", or text the code refuses. */
  datatype Entry = Bare(name: string) | Absolute(parent: Path, name: string) | Dots | Unsafe

  /** The names in a listing of `dir`; None when an entry is unsafe or belongs elsewhere. */
  function ParseListing(dir: Path, listing: seq<Entry>): Option<set<string>> {
    if listing == [] then Some({})
    else
      match (listing[0], ParseListing(dir, listing[1..]))
      case (Bare(name), Some(rest)) => Some({name} + rest)
      case (Absolute(parent, name), Some(rest)) => if parent == dir then Some({name} + rest) else None
      case (Dots, Some(rest)) => Some(rest)
      case _ => None
  }

  /**
   * How a fault-free server words its replies: the error for a missing path, whether listing a
   * missing path is an error at all, and the error, if any, for listing an empty directory.
   */
  datatype Profile = Profile(missing: FtpError, quiet: bool, empty: Option<FtpError>) {
    predicate Plain() {
      && missing.kind != Broken && !missing.denied
      && (empty.Some? ==> empty.value.kind != Broken && !empty.value.denied)
    }
  }

  /**
   * What may be assumed of a server. Always: a download that is reported complete is the stored
   * content, and a rename that is reported done was done. Honest: listings are complete, and a
   * reply that says a path is missing is right. Reliable: honest, and every possible command works.
   */
  datatype Trust = Hostile | Honest | Reliable(profile: Profile)

  class Server {
    var tree: Tree
    var cwd: Path
    /** Every state the tree has been in, oldest first. */
    ghost var log: seq<Tree>
    const trust: Trust

    ghost predicate Valid()
      reads this
    {
      Sound(tree) && log != [] && log[|log| - 1] == tree && (trust.Reliable? ==> trust.profile.Plain())
    }

    constructor (tree: Tree, trust: Trust)
      requires Sound(tree) && (trust.Reliable? ==> trust.profile.Plain())
      ensures Valid() && this.tree == tree && log == [tree] && this.trust == trust
    {
      this.tree, this.trust := tree, trust;
      cwd, log := [], [tree];
    }

    /** Some error; `missing` says whether it may claim that the path is missing. */
    static method SomeError(missing: bool) returns (e: FtpError)
      ensures e.missing ==> missing
    {
      e := *;
      if e.missing && !missing { e := RawError(Permanent, true, false, false); }
    }

    method Cwd(p: Path) returns (r: Reply<()>)
      requires Valid()
      modifies `cwd
      ensures Valid() && cwd == if r.Done? then p else old(cwd)
      ensures trust != Hostile && r.Done? ==> p in tree.dirs
      ensures trust != Hostile && r.Failed? && r.error.missing ==> p !in tree.dirs
      ensures trust.Reliable? ==> r == if p in tree.dirs then Done(()) else Failed(trust.profile.missing)
    {
      var works := *;
      if if trust.Reliable? then p in tree.dirs else works && (trust.Hostile? || p in tree.dirs) {
        cwd := p;
        return Done(());
      }
      if trust.Reliable? { return Failed(trust.profile.missing); }
      var e := SomeError(trust.Hostile? || p !in tree.dirs);
      return Failed(e);
    }

    static method ListNames(names: set<string>, dir: Path) returns (r: seq<Entry>)
      ensures ParseListing(dir, r) == Some(names)
    {
      var rest, done := names, {};
      r := [];
      while rest != {}
        invariant done + rest == names && ParseListing(dir, r) == Some(done)
        decreases |rest|
      {
        var name :| name in rest;
        var absolute := *;
        var entry := if absolute then Absolute(dir, name) else Bare(name);
        assert ([entry] + r)[1..] == r;
        r, done, rest := [entry] + r, {name} + done, rest - {name};
      }
    }

    /** NLST of the current directory. */
    method Nlst() returns (r: Reply<seq<Entry>>)
      requires Valid()
      ensures trust != Hostile && r.Done? && ParseListing(cwd, r.value).Some? ==>
        ParseListing(cwd, r.value).value == Children(tree, cwd)
      ensures trust != Hostile && r.Failed? && r.error.missing ==> Children(tree, cwd) == {}
      ensures trust.Reliable? ==>
        if Children(tree, cwd) == {} && trust.profile.empty.Some? then r == Failed(trust.profile.empty.value)
        else r.Done? && ParseListing(cwd, r.value) == Some(Children(tree, cwd))
    {
      var names := Children(tree, cwd);
      if trust.Reliable? && names == {} && trust.profile.empty.Some? { return Failed(trust.profile.empty.value); }
      var works, listing := *, *;
      if trust.Hostile? && works { return Done(listing); }
      if trust.Reliable? || works {
        listing := ListNames(names, cwd);
        return Done(listing);
      }
      var e := SomeError(trust.Hostile? || names == {});
      return Failed(e);
    }

    /** NLST of one path: whether anything is listed. */
    method NlstPath(p: Path) returns (r: Reply<bool>)
      requires Valid()
      ensures trust != Hostile && r == Done(true) ==> Exists(tree, p)
      ensures trust != Hostile && (r == Done(false) || (r.Failed? && r.error.missing)) ==> p !in tree.files
      ensures trust.Reliable? && p in tree.files ==> r == Done(true)
      ensures trust.Reliable? && !Exists(tree, p) ==>
        r == if trust.profile.quiet then Done(false) else Failed(trust.profile.missing)
    {
      if trust.Reliable? && p !in tree.files && p !in tree.dirs && !trust.profile.quiet {
        return Failed(trust.profile.missing);
      }
      var works, listed := *, *;
      if trust.Reliable? || works {
        return Done(if trust.Hostile? then listed else p in tree.files || (p in tree.dirs && Children(tree, p) != {}));
      }
      var e := SomeError(trust.Hostile? || p !in tree.files);
      return Failed(e);
    }

    /** TYPE I. */
    method Noop() returns (r: Reply<()>)
      ensures trust.Reliable? ==> r.Done?
    {
      var works := *;
      if trust.Reliable? || works { return Done(()); }
      var e := SomeError(false);
      return Failed(e);
    }

    /** SIZE, section 4 of RFC 3659; -1 stands for a reply that carries no size. */
    method Size(p: Path) returns (r: Reply<int>)
      requires Valid()
      ensures trust.Reliable? ==>
        r == if p in tree.files then Done(|tree.files[p]|) else Failed(trust.profile.missing)
    {
      var works, size := *, *;
      if trust.Reliable? && p !in tree.files { return Failed(trust.profile.missing); }
      if trust.Reliable? { return Done(|tree.files[p]|); }
      if works { return Done(size); }
      var e := SomeError(true);
      return Failed(e);
    }

    /** RETR: a transfer reported complete delivers the stored content. */
    method Retr(p: Path) returns (r: Reply<Bytes>)
      requires Valid()
      ensures r.Done? ==> p in tree.files && r.value == tree.files[p]
      ensures trust.Reliable? ==> if p in tree.files then r.Done? else r == Failed(trust.profile.missing)
    {
      var works := *;
      if p in tree.files && (trust.Reliable? || works) { return Done(tree.files[p]); }
      if trust.Reliable? { return Failed(trust.profile.missing); }
      var e := SomeError(true);
      return Failed(e);
    }

    /** STOR: whatever the reply, any bytes at all may now be in the file. */
    method Stor(p: Path, content: Bytes) returns (r: Reply<()>)
      requires Valid()
      modifies `tree, `log
      ensures Valid() && log == old(log) + [tree]
      ensures tree == old(tree) ||
        (CanHold(old(tree), p) && p in tree.files && tree == WithFile(old(tree), p, tree.files[p]))
      ensures trust.Reliable? && CanHold(old(tree), p) ==> r.Done? && tree == WithFile(old(tree), p, content)
    {
      var took, works, stored := *, *, *;
      if p != [] && Parent(p) in tree.dirs && p !in tree.dirs && (trust.Reliable? || took) {
        stored := if trust.Reliable? then content else stored;
        EffectsSound(tree, p, stored);
        tree := WithFile(tree, p, stored);
        works := works || trust.Reliable?;
      }
      log := log + [tree];
      if works { return Done(()); }
      var e := SomeError(true);
      return Failed(e);
    }

    /** RNFR and RNTO: an error reply proves nothing, a positive one that the move happened. */
    method Rename(from: Path, to: Path) returns (r: Reply<()>)
      requires Valid()
      modifies `tree, `log
      ensures Valid() && log == old(log) + [tree]
      ensures tree == old(tree) ||
        (from in old(tree).files && CanHold(old(tree), to) && tree == Moved(old(tree), from, to))
      ensures r.Done? ==>
        from in old(tree).files && CanHold(old(tree), to) && tree == Moved(old(tree), from, to)
      ensures trust.Reliable? && from in old(tree).files && CanHold(old(tree), to) ==> r.Done?
    {
      var took, works := *, *;
      if from in tree.files && to != [] && Parent(to) in tree.dirs && to !in tree.dirs && (trust.Reliable? || took) {
        MovedSound(tree, from, to);
        tree := Moved(tree, from, to);
        log := log + [tree];
        if trust.Reliable? || works { return Done(()); }
      } else {
        log := log + [tree];
      }
      var e := SomeError(true);
      return Failed(e);
    }

    method Dele(p: Path) returns (r: Reply<()>)
      requires Valid()
      modifies `tree, `log
      ensures Valid() && log == old(log) + [tree]
      ensures tree == old(tree) || (p in old(tree).files && tree == Without(old(tree), p))
      ensures trust.Reliable? ==> tree == Without(old(tree), p)
      ensures trust.Reliable? ==>
        r == if p in old(tree).files then Done(()) else Failed(trust.profile.missing)
    {
      var took, works := *, *;
      var there := p in tree.files;
      if there && (trust.Reliable? || took) {
        EffectsSound(tree, p, []);
        tree := Without(tree, p);
      }
      assert !there ==> Without(tree, p) == tree;
      log := log + [tree];
      if if trust.Reliable? then there else works { return Done(()); }
      if trust.Reliable? { return Failed(trust.profile.missing); }
      var e := SomeError(true);
      return Failed(e);
    }

    method Mkd(p: Path) returns (r: Reply<()>)
      requires Valid()
      modifies `tree, `log
      ensures Valid() && log == old(log) + [tree]
      ensures tree == old(tree) ||
        (p != [] && Parent(p) in old(tree).dirs && !Exists(old(tree), p) && tree == WithDir(old(tree), p))
      ensures trust.Reliable? && p != [] && Parent(p) in old(tree).dirs && !Exists(old(tree), p) ==>
        tree == WithDir(old(tree), p)
    {
      var took, works := *, *;
      if p != [] && Parent(p) in tree.dirs && p !in tree.dirs && p !in tree.files && (trust.Reliable? || took) {
        EffectsSound(tree, p, []);
        tree := WithDir(tree, p);
      }
      log := log + [tree];
      if works { return Done(()); }
      var e := SomeError(true);
      return Failed(e);
    }

    method Rmd(p: Path) returns (r: Reply<()>)
      requires Valid()
      modifies `tree, `log
      ensures Valid() && log == old(log) + [tree]
      ensures tree == old(tree) ||
        (p != [] && p in old(tree).dirs && Children(old(tree), p) == {} && tree == WithoutDir(old(tree), p))
      ensures trust.Reliable? && p != [] && p in old(tree).dirs && Children(old(tree), p) == {} ==>
        r.Done? && tree == WithoutDir(old(tree), p)
    {
      var took, works := *, *;
      if p != [] && p in tree.dirs && Children(tree, p) == {} && (trust.Reliable? || took) {
        RemovedDirSound(tree, p);
        tree := WithoutDir(tree, p);
        works := works || trust.Reliable?;
      }
      log := log + [tree];
      if works { return Done(()); }
      var e := SomeError(true);
      return Failed(e);
    }
  }
}
