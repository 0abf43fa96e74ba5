/**
 * The NFS and SMB3 backend (services/destination_mounted.py) on one revision directory. Writing
 * and deleting are modelled without faults; in an audit any file may turn out to be unreadable.
 */
module MountedStorage {
  import opened Text
  import opened RecordedPaths
  import DestinationPaths
  import opened FtpNames
  import opened Manifest
  import opened FtpReplication
  import opened FtpAudit
  import FtpDeletion

  /** What a name in the directory stands for: a regular file, or anything else that exists. */
  datatype Entry = File(content: Bytes) | Other

  type Dir = map<string, Entry>

  class Directory {
    /** None while the revision directory does not exist. */
    var entries: Option<Dir>
  }

  // ---- replicate_revision_mounted ----

  datatype Wanted = Wanted(name: string, content: Bytes)

  ghost predicate DistinctWanted(files: seq<Wanted>) {
    forall i, j | 0 <= i < j < |files| :: files[i].name != files[j].name
  }

  /** The directory with the first n files in place; what was there is kept. */
  function With(dir: Dir, files: seq<Wanted>, n: nat): Dir
    requires n <= |files|
  {
    if n == 0 then dir
    else
      var d := With(dir, files, n - 1); var f := files[n - 1];
      if f.name in d then d else d[f.name := File(f.content)]
  }

  /** The bytes of the first n files that were absent. */
  function NewBytes(dir: Dir, files: seq<Wanted>, n: nat): nat
    requires n <= |files|
  {
    if n == 0 then 0
    else NewBytes(dir, files, n - 1) + if files[n - 1].name in dir then 0 else |files[n - 1].content|
  }

  predicate Agrees(dir: Dir, f: Wanted) { f.name in dir ==> dir[f.name] == File(f.content) }

  lemma {:induction false} WithMeaning(dir: Dir, files: seq<Wanted>, n: nat, name: string)
    requires n <= |files| && DistinctWanted(files)
    ensures name in dir ==> name in With(dir, files, n) && With(dir, files, n)[name] == dir[name]
    ensures name !in dir ==>
      (name in With(dir, files, n) <==> exists i :: 0 <= i < n && files[i].name == name)
    ensures forall i | 0 <= i < n && files[i].name == name && name !in dir ::
      With(dir, files, n)[name] == File(files[i].content)
  {
    if n > 0 {
      WithMeaning(dir, files, n - 1, name);
    }
  }

  /** _put_immutable: None for a conflict, else whether the file was written. */
  method PutImmutable(d: Directory, f: Wanted, sha: Digester) returns (written: Option<bool>)
    requires d.entries.Some?
    modifies d
    ensures d.entries.Some?
    ensures var dir := old(d.entries).value;
      if f.name !in dir then written == Some(true) && d.entries.value == dir[f.name := File(f.content)]
      else d.entries.value == dir && written == if Agrees(dir, f) then Some(false) else None
  {
    var dir := d.entries.value;
    if f.name in dir {
      match dir[f.name]
      case Other => return None;
      case File(there) =>
        DigestTells(sha, there, f.content);
        if |there| == |f.content| && sha(there) == sha(f.content) { return Some(false); }
        return None;
    }
    d.entries := Some(dir[f.name := File(f.content)]);
    return Some(true);
  }

  /**
   * The artifacts first, the manifest last; `files` are what the primary storage delivered and the
   * manifest of this attempt. An attempt succeeds exactly when nothing else is in its way, and
   * whatever happens, nothing that was there is touched.
   */
  method Replicate(d: Directory, files: seq<Wanted>, sha: Digester) returns (transferred: Option<nat>)
    requires DistinctWanted(files)
    modifies d
    ensures d.entries.Some?
    ensures var dir := if old(d.entries).Some? then old(d.entries).value else map[];
      && (transferred.Some? <==> forall i | 0 <= i < |files| :: Agrees(dir, files[i]))
      && (exists n | 0 <= n <= |files| ::
            d.entries.value == With(dir, files, n) && (transferred.Some? ==> n == |files|))
      && (transferred.Some? ==> transferred.value == NewBytes(dir, files, |files|))
  {
    if d.entries.None? { d.entries := Some(map[]); }
    ghost var dir := d.entries.value;
    var bytes := 0;
    for i := 0 to |files|
      invariant d.entries.Some? && d.entries.value == With(dir, files, i) && bytes == NewBytes(dir, files, i)
      invariant forall j | 0 <= j < i :: Agrees(dir, files[j])
    {
      WithMeaning(dir, files, i, files[i].name);
      var written := PutImmutable(d, files[i], sha);
      if written.None? { return None; }
      if written.value { bytes := bytes + |files[i].content|; }
    }
    return Some(bytes);
  }

  /** The wanted files of a revision: its artifacts, then the manifest. */
  function FilesFor(names: seq<string>, contents: seq<Bytes>, manifest: Bytes): (files: seq<Wanted>)
    requires |names| == |contents|
    ensures |files| == |names| + 1
  {
    seq(|names|, i requires 0 <= i < |names| => Wanted(names[i], contents[i])) + [Wanted(ManifestName, manifest)]
  }

  /** A copy is complete for its own manifest; an attempt with another one conflicts. */
  lemma CompleteCopy(dir: Dir, names: seq<string>, contents: seq<Bytes>, manifest: Bytes, other: Bytes)
    requires |names| == |contents| && DistinctWanted(FilesFor(names, contents, manifest))
    requires forall i | 0 <= i < |FilesFor(names, contents, manifest)| ::
      Agrees(dir, FilesFor(names, contents, manifest)[i])
    ensures var files, again := FilesFor(names, contents, manifest), FilesFor(names, contents, other);
      var done := With(dir, files, |files|);
      && ((forall i | 0 <= i < |again| :: Agrees(done, again[i])) <==> other == manifest)
      && With(done, files, |files|) == done && NewBytes(done, files, |files|) == 0
  {
    var files, again := FilesFor(names, contents, manifest), FilesFor(names, contents, other);
    var done := With(dir, files, |files|);
    forall i | 0 <= i < |files| ensures files[i].name in done && done[files[i].name] == File(files[i].content) {
      WithMeaning(dir, files, |files|, files[i].name);
      assert Agrees(dir, files[i]);
    }
    AllThere(done, files, |files|);
    forall i | 0 <= i < |names| ensures Agrees(done, again[i]) { assert again[i] == files[i]; }
    assert files[|names|].content == manifest && again[|names|].content == other;
  }

  lemma {:induction false} AllThere(dir: Dir, files: seq<Wanted>, n: nat)
    requires n <= |files| && forall i | 0 <= i < |files| :: files[i].name in dir
    ensures With(dir, files, n) == dir && NewBytes(dir, files, n) == 0
  {
    if n > 0 { AllThere(dir, files, n - 1); }
  }

  lemma EncodedApart(codec: Codec, a: Json, b: Json)
    requires codec.ReadsBack(a) && codec.ReadsBack(b)
    ensures codec.encode(a) == codec.encode(b) <==> a == b
  {
  }

  lemma NamedDocs(rev: Revision, other: Option<string>, names: seq<string>, readable: bool, segment: string)
    requires |names| == |rev.artifacts|
    ensures ManifestDoc(rev.(deviceName := other), names, readable, segment) ==
      ManifestDoc(rev, names, readable, segment)
      <==> other == rev.deviceName
  {
    var a := ManifestDoc(rev, names, readable, segment);
    var b := ManifestDoc(rev.(deviceName := other), names, readable, segment);
    assert a.pairs[4] == ("device_name", if rev.deviceName.Some? then Str(rev.deviceName.value) else Null);
    assert b.pairs[4] == ("device_name", if other.Some? then Str(other.value) else Null);
    if other == rev.deviceName { assert rev.(deviceName := other) == rev; }
  }

  /**
   * The manifest an attempt builds is that of another device name if and only if the names are the
   * same. So a mounted copy, whose manifest is compared byte for byte, conflicts after every rename.
   */
  lemma RenamedManifest(codec: Codec, nf: DestinationPaths.Normalizer, rev: Revision, path: string, segment: string,
                        base: string, other: Option<string>)
    requires codec.Faithful() && Validate(nf, base, rev, path).Some?
    ensures BuildManifest(codec, nf, rev.(deviceName := other), path, segment) ==
      BuildManifest(codec, nf, rev, path, segment)
      <==> other == rev.deviceName
  {
    NamesSurviveRename(nf, base, rev, path, other);
    var names, readable := FilenamesAt(nf, rev, path), UsesReadable(path);
    NamedDocs(rev, other, names, readable, segment);
    assert |rev.(deviceName := other).artifacts| == |names|;
    EncodedApart(codec, ManifestDoc(rev.(deviceName := other), names, readable, segment),
                 ManifestDoc(rev, names, readable, segment));
  }

  // ---- delete_revision_replica_mounted ----

  function Names(files: seq<ExpectedFile>, n: nat): set<string>
    requires n <= |files|
  {
    set i | 0 <= i < n :: files[i].filename
  }

  predicate AllRegular(dir: Dir) { forall n | n in dir :: dir[n].File? }

  /** The number and the bytes of the first n expected files that are there. */
  function Present(dir: Dir, files: seq<ExpectedFile>, n: nat): (p: nat)
    requires n <= |files|
    ensures p <= n
  {
    if n == 0 then 0 else Present(dir, files, n - 1) + if files[n - 1].filename in dir then 1 else 0
  }

  function SizeOf(e: Entry): nat { match e case File(c) => |c| case Other => 0 }

  function PresentBytes(dir: Dir, files: seq<ExpectedFile>, n: nat): nat
    requires n <= |files|
  {
    if n == 0 then 0
    else
      var name := files[n - 1].filename;
      PresentBytes(dir, files, n - 1) + if name in dir then SizeOf(dir[name]) else 0
  }

  lemma NamesNext(dir: Dir, files: seq<ExpectedFile>, n: nat)
    requires n < |files| && DistinctNames(files)
    ensures Names(files, n + 1) == Names(files, n) + {files[n].filename} && files[n].filename !in Names(files, n)
    ensures dir - Names(files, n + 1) == (dir - Names(files, n)) - {files[n].filename}
  {
    forall x ensures x in Names(files, n + 1) <==> x in Names(files, n) || x == files[n].filename {}
  }

  /**
   * Files are removed in the order of the list, so the manifest, which comes last, outlives every
   * artifact. A normal return means the directory is gone; an unknown name stops the deletion before
   * anything is touched, but an expected name that is no regular file stops it half way.
   */
  method Delete(d: Directory, files: seq<ExpectedFile>) returns (r: Option<FtpDeletion.Deletion>)
    requires DistinctNames(files)
    modifies d
    ensures old(d.entries).None? ==>
      r == Some(FtpDeletion.Deletion(|files|, 0, |files|, 0, false, true)) && d.entries == None
    ensures old(d.entries).Some? ==>
      var dir := old(d.entries).value;
      && (r.Some? <==> dir.Keys <= Names(files, |files|) && AllRegular(dir))
      && (r.Some? ==>
            && d.entries == None
            && r.value == FtpDeletion.Deletion(|files|, Present(dir, files, |files|),
                                               |files| - Present(dir, files, |files|),
                                  PresentBytes(dir, files, |files|), true, false))
      && (r.None? ==> exists n | 0 <= n <= |files| :: d.entries == Some(dir - Names(files, n)))
      && (!(dir.Keys <= Names(files, |files|)) ==> d.entries == old(d.entries))
  {
    if d.entries.None? { return Some(FtpDeletion.Deletion(|files|, 0, |files|, 0, false, true)); }
    ghost var dir := d.entries.value;
    if !(d.entries.value.Keys <= Names(files, |files|)) {
      assert dir - Names(files, 0) == dir;
      return None;
    }
    var deleted, missing, bytes := 0, 0, 0;
    assert dir - Names(files, 0) == dir;
    for i := 0 to |files|
      invariant d.entries == Some(dir - Names(files, i))
      invariant deleted == Present(dir, files, i) && deleted + missing == i && bytes == PresentBytes(dir, files, i)
      invariant forall j | 0 <= j < i && files[j].filename in dir :: dir[files[j].filename].File?
    {
      NamesNext(dir, files, i);
      var name := files[i].filename;
      if name !in d.entries.value {
        assert dir - Names(files, i + 1) == dir - Names(files, i);
        missing := missing + 1;
      } else if d.entries.value[name].Other? {
        return None;
      } else {
        bytes := bytes + |d.entries.value[name].content|;
        d.entries := Some(d.entries.value - {name});
        deleted := deleted + 1;
      }
    }
    d.entries := None;
    return Some(FtpDeletion.Deletion(|files|, deleted, missing, bytes, true, false));
  }

  /** While an artifact is left of a copy that had its manifest, the manifest is left. */
  lemma ManifestOutlives(dir: Dir, files: seq<ExpectedFile>, n: nat)
    requires n <= |files| && files != [] && DistinctNames(files) && files[|files| - 1].filename == ManifestName
    requires ManifestName in dir && exists i :: 0 <= i < |files| - 1 && files[i].filename in dir - Names(files, n)
    ensures ManifestName in dir - Names(files, n)
  {
    forall k | 0 <= k < n ensures files[k].filename in Names(files, n) {}
    var i :| 0 <= i < |files| - 1 && files[i].filename in dir - Names(files, n);
    forall j | 0 <= j < n ensures files[j].filename != ManifestName {}
  }

  // ---- reconcile_mounted_destination ----

  /** _verify_file and _verify_manifest_file, unless the file system reports an error. */
  function TrueState(dir: Option<Dir>, file: ExpectedFile, accepts: Bytes -> bool, sha: Digester): Verdict {
    if dir.None? || file.filename !in dir.value || dir.value[file.filename].Other? then Missing
    else
      var content := dir.value[file.filename].content;
      if file.artifactType == "manifest" then
        if |content| > MaxManifestBytes then SizeMismatch else if accepts(content) then Fine else HashMismatch
      else if |content| != file.size then SizeMismatch
      else if sha(content) != file.sha256 then HashMismatch
      else Fine
  }

  method VerifyState(dir: Option<Dir>, file: ExpectedFile, accepts: Bytes -> bool, sha: Digester)
    returns (v: Verdict, size: nat)
    ensures v == TrueState(dir, file, accepts, sha) || (v == Unreadable && size == 0)
    ensures v == Fine ==>
      file.filename in dir.value && dir.value[file.filename].File? && size == |dir.value[file.filename].content|
  {
    var readable := *;
    if !readable { return Unreadable, 0; }
    v := TrueState(dir, file, accepts, sha);
    size := if v == Missing then 0 else |dir.value[file.filename].content|;
  }

  /** A copy to audit; None when its recorded path is refused. */
  datatype Copy = Copy(replica: int, files: Option<seq<ExpectedFile>>, dir: Option<Dir>, accepts: Bytes -> bool)

  ghost predicate Found(f: Finding, c: Copy, file: ExpectedFile, sha: Digester) {
    && f.replica == c.replica && f.filename == file.filename
    && (f.verdict == TrueState(c.dir, file, c.accepts, sha) || f.verdict == Unreadable)
    && (f.verdict == Fine ==>
        c.dir.Some? && file.filename in c.dir.value && f.bytes == SizeOf(c.dir.value[file.filename]))
  }

  /** The findings on one copy: one per expected file, in order. */
  ghost predicate FoundAll(part: seq<Finding>, c: Copy, sha: Digester, n: nat) {
    && c.files.Some? && |part| == n <= |c.files.value|
    && forall j | 0 <= j < n :: Found(part[j], c, c.files.value[j], sha)
  }

  lemma FoundGrow(part: seq<Finding>, f: Finding, c: Copy, sha: Digester)
    requires c.files.Some? && |part| < |c.files.value| && FoundAll(part, c, sha, |part|)
    requires Found(f, c, c.files.value[|part|], sha)
    ensures FoundAll(part + [f], c, sha, |part| + 1)
  {
  }

  method AuditCopy(c: Copy, sha: Digester, before: Summary, limit: int, ghost log: seq<Finding>)
    returns (m: Summary, ghost part: seq<Finding>)
    requires c.files.Some? && Reports(before, log, limit)
    ensures FoundAll(part, c, sha, |c.files.value|) && Reports(m, log + part, limit)
    ensures m.checkedReplicas == before.checkedReplicas + 1 && m.success == before.success
    ensures m.failed == before.failed + (if Clean(part) then 0 else 1)
    ensures m.healthy == before.healthy + (if Clean(part) then 1 else 0)
  {
    var files := c.files.value;
    m, part := before.(checkedReplicas := before.checkedReplicas + 1), [];
    var failed := false;
    assert log + part == log;
    for j := 0 to |files|
      invariant FoundAll(part, c, sha, j) && InReplica(m, before, log, part, limit)
      invariant failed <==> !Clean(part)
    {
      var v, size := VerifyState(c.dir, files[j], c.accepts, sha);
      var f := Finding(c.replica, files[j].filename, v, size);
      RecordInReplica(m, before, log, part, f, limit);
      CleanGrows(part, f);
      FoundGrow(part, f, c, sha);
      m := Record(m, f, limit);
      failed := failed || v != Fine;
      part := part + [f];
    }
    m := if failed then m.(failed := m.failed + 1) else m.(healthy := m.healthy + 1);
  }

  ghost predicate FoundIn(parts: seq<seq<Finding>>, copies: seq<Copy>, sha: Digester, n: nat) {
    |parts| == n <= |copies|
    && forall i | 0 <= i < n :: copies[i].files.Some? && FoundAll(parts[i], copies[i], sha, |copies[i].files.value|)
  }

  lemma FoundInGrow(parts: seq<seq<Finding>>, part: seq<Finding>, copies: seq<Copy>, sha: Digester)
    requires |parts| < |copies| && FoundIn(parts, copies, sha, |parts|)
    requires var c := copies[|parts|]; c.files.Some? && FoundAll(part, c, sha, |c.files.value|)
    ensures FoundIn(parts + [part], copies, sha, |parts| + 1)
  {
  }

  /** The same report as for FTP: it says what was found on every expected file of every copy. */
  method Reconcile(copies: seq<Copy>, sha: Digester, limit: int)
    returns (r: Option<Summary>, ghost parts: seq<seq<Finding>>)
    ensures r.Some? <==> forall i | 0 <= i < |copies| :: copies[i].files.Some?
    ensures r.Some? ==>
      && FoundIn(parts, copies, sha, |copies|) && Reports(r.value, Flat(parts), limit)
      && r.value.checkedReplicas == |copies| == r.value.healthy + r.value.failed && r.value.failed == CountBad(parts)
      && (r.value.success <==> r.value.failed == 0)
  {
    var m := Summary(true, 0, 0, 0, 0, 0, 0, 0, 0, 0, [], false);
    parts := [];
    for i := 0 to |copies|
      invariant FoundIn(parts, copies, sha, i) && InAudit(m, parts, limit)
    {
      if copies[i].files.None? { return None, parts; }
      var after, part := AuditCopy(copies[i], sha, m, limit, Flat(parts));
      OneMorePart(parts, part);
      FoundInGrow(parts, part, copies, sha);
      m, parts := after, parts + [part];
    }
    Conserved(m, Flat(parts), limit);
    NoneBad(parts);
    if m.missing + m.sizeMismatches + m.hashMismatches + m.unreadable > 0 { m := m.(success := false); }
    return Some(m), parts;
  }
}
