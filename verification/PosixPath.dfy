/** The parts of posixpath and PurePosixPath the FTP services use, on path strings. */
module PosixPath {
  import opened Text

  predicate IsSlash(c: char) { c == '/' }

  /** A component that normalization neither drops nor resolves. */
  predicate ProperPart(part: string) { part != "" && part != "." && part != ".." }

  predicate Proper(parts: seq<string>) { forall k | 0 <= k < |parts| :: ProperPart(parts[k]) }

  predicate NoSlash(parts: seq<string>) { forall k | 0 <= k < |parts| :: '/' !in parts[k] }

  // ---- posixpath.join ----

  function JoinPath(base: string, part: string): string {
    if "/" <= part then part
    else if base == "" || base[|base| - 1] == '/' then base + part
    else base + "/" + part
  }

  function JoinPaths(base: string, parts: seq<string>): string
    decreases parts
  {
    if parts == [] then base else JoinPaths(JoinPath(base, parts[0]), parts[1..])
  }

  // ---- posixpath.normpath ----

  function Resolve(parts: seq<string>, done: seq<string>, rooted: bool): seq<string> {
    if parts == [] then done
    else
      var part := parts[0];
      if part == "" || part == "." then Resolve(parts[1..], done, rooted)
      else if part != ".." || (!rooted && done == []) || (done != [] && done[|done| - 1] == "..") then
        Resolve(parts[1..], done + [part], rooted)
      else
        Resolve(parts[1..], if done == [] then [] else done[..|done| - 1], rooted)
  }

  /** The leading slashes that survive: POSIX keeps exactly two apart from one. */
  function RootOf(path: string): (root: string)
    ensures root <= path
  {
    if "//" <= path && !("///" <= path) then "//" else if "/" <= path then "/" else ""
  }

  function NormPath(path: string): string {
    if path == "" then "."
    else
      var root := RootOf(path);
      var out := root + Join(Resolve(Split(path, '/'), [], root != ""), '/');
      if out == "" then "." else out
  }

  // ---- PurePosixPath(path).parts and .name ----

  function KeepParts(parts: seq<string>): (r: seq<string>)
    ensures forall k | 0 <= k < |r| :: r[k] in parts && r[k] != "" && r[k] != "."
  {
    if parts == [] then []
    else if parts[0] == "" || parts[0] == "." then KeepParts(parts[1..])
    else [parts[0]] + KeepParts(parts[1..])
  }

  function Parts(path: string): seq<string> {
    var root := RootOf(path);
    (if root == "" then [] else [root]) + KeepParts(Split(path[|root|..], '/'))
  }

  function Name(path: string): string {
    var names := KeepParts(Split(path[|RootOf(path)|..], '/'));
    if names == [] then "" else names[|names| - 1]
  }

  // ---- Properties ----

  lemma {:induction false} KeepProper(parts: seq<string>)
    requires Proper(parts)
    ensures KeepParts(parts) == parts
  {
    if parts != [] { KeepProper(parts[1..]); }
  }

  lemma {:induction false} ResolveProper(parts: seq<string>, done: seq<string>)
    requires Proper(parts)
    ensures Resolve(parts, done, true) == done + parts
  {
    if parts != [] {
      ResolveProper(parts[1..], done + [parts[0]]);
      assert done + [parts[0]] + parts[1..] == done + parts;
    } else {
      assert done + parts == done;
    }
  }

  lemma {:induction false} ResolveIsProper(parts: seq<string>, done: seq<string>)
    requires Proper(done) && NoSlash(done) && NoSlash(parts)
    ensures Proper(Resolve(parts, done, true)) && NoSlash(Resolve(parts, done, true))
  {
    if parts != [] {
      var part := parts[0];
      if part == "" || part == "." {
        ResolveIsProper(parts[1..], done);
      } else if part != ".." {
        ResolveIsProper(parts[1..], done + [part]);
      } else {
        ResolveIsProper(parts[1..], if done == [] then [] else done[..|done| - 1]);
      }
    }
  }

  function Rooted(parts: seq<string>): string { "/" + Join(parts, '/') }

  lemma JoinStart(parts: seq<string>)
    requires parts != [] && Proper(parts) && NoSlash(parts)
    ensures Join(parts, '/') != "" && !("/" <= Join(parts, '/'))
    ensures RootOf(Rooted(parts)) == "/"
  {
    assert parts[0] != "";
    assert Join(parts, '/')[0] == parts[0][0];
    assert Rooted(parts)[1] == parts[0][0];
  }

  /** The components of a path built from proper components are those components. */
  lemma RootedParts(parts: seq<string>)
    requires parts != [] && Proper(parts) && NoSlash(parts)
    ensures Parts(Rooted(parts)) == ["/"] + parts
  {
    JoinStart(parts);
    assert Rooted(parts)[1..] == Join(parts, '/');
    SplitJoin(parts, '/');
    KeepProper(parts);
  }

  lemma RootedNorm(parts: seq<string>)
    requires parts != [] && Proper(parts) && NoSlash(parts)
    ensures NormPath(Rooted(parts)) == Rooted(parts)
  {
    JoinStart(parts);
    var s := Rooted(parts);
    assert s == "" + ['/'] + Join(parts, '/');
    SplitCons("", Join(parts, '/'), '/');
    SplitJoin(parts, '/');
    var split := Split(s, '/');
    assert split == [""] + parts && split[1..] == parts;
    ResolveProper(parts, []);
    assert [] + parts == parts;
    assert Resolve(split, [], true) == Resolve(parts, [], true);
  }

  /** A path with one leading slash is in normal form exactly when its components all are proper. */
  lemma NormalForm(path: string) returns (parts: seq<string>)
    requires RootOf(path) == "/" && NormPath(path) == path
    ensures Proper(parts) && NoSlash(parts) && path == Rooted(parts)
  {
    parts := Resolve(Split(path, '/'), [], true);
    ResolveIsProper(Split(path, '/'), []);
  }

  lemma JoinOne(base: seq<string>, part: string)
    requires base != [] && Proper(base) && NoSlash(base) && Proper([part]) && NoSlash([part])
    ensures JoinPath(Join(base, '/'), part) == Join(base + [part], '/')
  {
    EndsOpen(base);
    JoinAppend(base, [part], '/');
    assert [part][0] == part && !("/" <= part);
    assert Join([part], '/') == part;
  }

  lemma {:induction false} JoinPathsProper(base: seq<string>, parts: seq<string>)
    requires base != [] && Proper(base) && NoSlash(base) && Proper(parts) && NoSlash(parts)
    ensures JoinPaths(Join(base, '/'), parts) == Join(base + parts, '/')
    decreases parts
  {
    if parts == [] {
      assert base + parts == base;
    } else {
      var part, rest := parts[0], parts[1..];
      JoinOne(base, part);
      JoinPathsProper(base + [part], rest);
      Regroup(base, [part], rest);
      assert [part] + rest == parts;
    }
  }

  lemma {:induction false} EndsOpen(parts: seq<string>)
    requires parts != [] && Proper(parts) && NoSlash(parts)
    ensures var s := Join(parts, '/'); s != "" && s[|s| - 1] != '/'
  {
    if |parts| > 1 {
      EndsOpen(parts[1..]);
    } else {
      assert parts[0] != "";
    }
  }
}
