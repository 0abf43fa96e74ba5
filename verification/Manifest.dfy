/**
 * The manifest writer and verifier of services/destination_ftp.py. They are separate code that
 * has to agree for as long as a copy exists, whatever happens to the device's name meanwhile.
 */
module Manifest {
  import opened Text
  import opened PosixPath
  import opened DestinationPaths
  import opened RecordedPaths
  import opened FtpNames

  /** The content of a file; a character stands for a byte. */
  type Bytes = seq<char>

  /** SHA-256, idealized: no two contents collide. */
  type Digester = f: Bytes -> string | Injective(f) witness a => a

  predicate SameDigest(f: Bytes -> string, a: Bytes, b: Bytes) { f(a) == f(b) }

  ghost predicate Injective(f: Bytes -> string) { forall a, b :: SameDigest(f, a, b) ==> a == b }

  lemma DigestTells(sha: Digester, a: Bytes, b: Bytes)
    ensures sha(a) == sha(b) <==> a == b
  {
    assert SameDigest(sha, a, b) ==> a == b;
  }

  // ---- JSON as json.loads sees it, before objects become dicts ----

  datatype Json =
    | Null | Bool(b: bool) | Num(n: real) | Str(s: string)
    | Arr(items: seq<Json>) | Obj(pairs: seq<(string, Json)>)

  /** json.dumps and json.loads, of which only the round trip of manifests is used. */
  datatype Codec = Codec(encode: Json -> Bytes, decode: Bytes -> Option<Json>) {
    /** What the writer writes is read back as it was. */
    ghost predicate Faithful() {
      forall rev: Revision, names: seq<string>, readable: bool, segment: string | |names| == |rev.artifacts| ::
        ReadsBack(ManifestDoc(rev, names, readable, segment))
    }

    ghost predicate ReadsBack(j: Json) { decode(encode(j)) == Some(j) }
  }

  function Keys(pairs: seq<(string, Json)>): set<string> { set i | 0 <= i < |pairs| :: pairs[i].0 }

  predicate DistinctKeys(pairs: seq<(string, Json)>) {
    forall i, j | 0 <= i < j < |pairs| :: pairs[i].0 != pairs[j].0
  }

  function Lookup(pairs: seq<(string, Json)>, key: string): Option<Json> {
    if pairs == [] then None
    else if pairs[0].0 == key then Some(pairs[0].1)
    else Lookup(pairs[1..], key)
  }

  /** unique_json_object: the pairs as a dict, or the error on a repeated key. */
  method UniqueJsonObject(pairs: seq<(string, Json)>) returns (r: Option<map<string, Json>>)
    ensures r.Some? <==> DistinctKeys(pairs)
    ensures r.Some? ==> r.value.Keys == Keys(pairs)
    ensures r.Some? ==> forall i | 0 <= i < |pairs| :: r.value[pairs[i].0] == pairs[i].1
  {
    var result: map<string, Json> := map[];
    for k := 0 to |pairs|
      invariant DistinctKeys(pairs[..k])
      invariant result.Keys == Keys(pairs[..k])
      invariant forall i | 0 <= i < k :: pairs[i].0 in result && result[pairs[i].0] == pairs[i].1
    {
      assert pairs[..k + 1] == pairs[..k] + [pairs[k]];
      if pairs[k].0 in result {
        ghost var i :| 0 <= i < k && pairs[i].0 == pairs[k].0;
        return None;
      }
      result := result[pairs[k].0 := pairs[k].1];
    }
    assert pairs[..|pairs|] == pairs;
    return Some(result);
  }

  /** No object anywhere in the document repeats a key. */
  predicate Unique(j: Json) {
    match j
    case Arr(items) => forall i | 0 <= i < |items| :: Unique(items[i])
    case Obj(pairs) => DistinctKeys(pairs) && forall i | 0 <= i < |pairs| :: Unique(pairs[i].1)
    case _ => true
  }

  /** Python counts True as 1 and False as 0. */
  function Number(j: Json): Option<real> {
    match j
    case Num(n) => Some(n)
    case Bool(b) => Some(if b then 1.0 else 0.0)
    case _ => None
  }

  /** Python's == between two parsed documents. */
  predicate Same(a: Json, want: Json)
    decreases want
  {
    match want
    case Null => a.Null?
    case Str(_) => a == want
    case Bool(_) => Number(a) == Number(want)
    case Num(_) => Number(a) == Number(want)
    case Arr(items) => a.Arr? && |a.items| == |items| && forall i | 0 <= i < |items| :: Same(a.items[i], items[i])
    case Obj(pairs) =>
      && a.Obj? && Keys(a.pairs) == Keys(pairs)
      && forall i | 0 <= i < |pairs| ::
           var found := Lookup(a.pairs, pairs[i].0); found.Some? && Same(found.value, pairs[i].1)
  }

  predicate SameAt(pairs: seq<(string, Json)>, key: string, want: Json) {
    var found := Lookup(pairs, key); found.Some? && Same(found.value, want)
  }

  // ---- _build_manifest ----

  function ArtifactDoc(a: Artifact, filename: string): Json {
    Obj([("artifact_type", Str(a.artifactType)), ("filename", Str(filename)), ("format", Str(a.format)),
         ("primary", Bool(a.primary)), ("sha256", Str(a.rawHash)), ("size", Num(a.size as real))])
  }

  function ArtifactDocs(artifacts: seq<Artifact>, names: seq<string>): (r: seq<Json>)
    requires |artifacts| == |names|
    ensures |r| == |artifacts|
  {
    seq(|artifacts|, i requires 0 <= i < |artifacts| => ArtifactDoc(artifacts[i], names[i]))
  }

  function ManifestDoc(rev: Revision, names: seq<string>, readable: bool, directory: string): Json
    requires |names| == |rev.artifacts|
  {
    Obj([("artifacts", Arr(ArtifactDocs(rev.artifacts, names))),
         ("created", Str(rev.createdIso)),
         ("device_directory", Str(directory)),
         ("device_id", Num(rev.deviceId as real)),
         ("device_name", if rev.deviceName.Some? then Str(rev.deviceName.value) else Null),
         ("driver_id", Str(rev.driverId)),
         ("revision_uuid", Str(rev.uuid)),
         ("schema", Num(if readable then 2.0 else 1.0))])
  }

  /** What a replication attempt at a path writes; `segment` is what the validator returned. */
  function BuildManifest(codec: Codec, nf: Normalizer, rev: Revision, path: string, segment: string): Bytes {
    codec.encode(ManifestDoc(rev, FilenamesAt(nf, rev, path), UsesReadable(path), segment))
  }

  // ---- _expected_revision_files ----

  datatype ExpectedFile = ExpectedFile(filename: string, size: nat, sha256: string, artifactType: string)

  ghost predicate DistinctNames(files: seq<ExpectedFile>) {
    forall i, j | 0 <= i < j < |files| :: files[i].filename != files[j].filename
  }

  function ExpectedArtifacts(artifacts: seq<Artifact>, names: seq<string>): (r: seq<ExpectedFile>)
    requires |artifacts| == |names|
    ensures |r| == |artifacts|
  {
    seq(|artifacts|, i requires 0 <= i < |artifacts| =>
      ExpectedFile(names[i], artifacts[i].size, artifacts[i].rawHash, artifacts[i].artifactType))
  }

  lemma RepeatNotDistinct<T>(s: seq<T>, k: nat)
    requires k < |s| && s[k] in s[..k]
    ensures !Distinct(s)
  {
    var i :| 0 <= i < k && s[..k][i] == s[k];
  }

  /** The loop of _expected_revision_files: None as soon as a file name comes up twice. */
  method CollectFiles(artifacts: seq<Artifact>, names: seq<string>) returns (r: Option<seq<ExpectedFile>>)
    requires |artifacts| == |names|
    ensures r.Some? <==> Distinct(names)
    ensures r.Some? ==> r.value == ExpectedArtifacts(artifacts, names)
  {
    var expected: seq<ExpectedFile> := [];
    var filenames: set<string> := {};
    for k := 0 to |artifacts|
      invariant expected == ExpectedArtifacts(artifacts, names)[..k]
      invariant forall x :: x in filenames <==> x in names[..k]
      invariant Distinct(names[..k])
    {
      if names[k] in filenames {
        RepeatNotDistinct(names, k);
        return None;
      }
      assert names[..k + 1] == names[..k] + [names[k]];
      filenames := filenames + {names[k]};
      expected := expected +
        [ExpectedFile(names[k], artifacts[k].size, artifacts[k].rawHash, artifacts[k].artifactType)];
    }
    assert names[..|names|] == names;
    return Some(expected);
  }

  /** The expected files at a path, manifest last. */
  function ExpectedAt(nf: Normalizer, rev: Revision, path: string, manifest: Bytes, sha: Digester): seq<ExpectedFile> {
    ExpectedArtifacts(rev.artifacts, FilenamesAt(nf, rev, path))
      + [ExpectedFile(ManifestName, |manifest|, sha(manifest), "manifest")]
  }

  // ---- _manifest_matches_revision ----

  const ManifestKeys: set<string> := {"schema", "revision_uuid", "device_id", "device_name",
                                      "device_directory", "driver_id", "created", "artifacts"}

  /** files_by_type.get(kind): the last expected file of a kind, the manifest not counted. */
  function FileOfType(expected: seq<ExpectedFile>, kind: string): Option<ExpectedFile> {
    if expected == [] then None
    else
      var last := expected[|expected| - 1];
      if last.artifactType == kind && kind != "manifest" then Some(last)
      else FileOfType(expected[..|expected| - 1], kind)
  }

  /** The artifact list the verifier expects; None when an artifact has no expected file. */
  function ExpectedDocs(artifacts: seq<Artifact>, expected: seq<ExpectedFile>): Option<seq<Json>> {
    if artifacts == [] then Some([])
    else
      match (FileOfType(expected, artifacts[0].artifactType), ExpectedDocs(artifacts[1..], expected))
      case (Some(file), Some(rest)) => Some([ArtifactDoc(artifacts[0], file.filename)] + rest)
      case _ => None
  }

  function VerifierSegment(parts: seq<string>): string
    requires |parts| >= 3
  {
    if |parts| >= 4 && Last(parts, 3) == Some("backups") then Last(parts, 4).value else Last(parts, 3).value
  }

  /** _manifest_matches_revision */
  predicate Matches(codec: Codec, rev: Revision, path: string, expected: seq<ExpectedFile>, content: Bytes) {
    match codec.decode(content)
    case None => false
    case Some(j) =>
      var parts, docs := Parts(path), ExpectedDocs(rev.artifacts, expected);
      && Unique(j) && j.Obj? && |parts| >= 3
      && Keys(j.pairs) == ManifestKeys
      && Lookup(j.pairs, "device_name").Some? && Lookup(j.pairs, "device_name").value.Str?
      && SameAt(j.pairs, "schema", Num(if UsesReadable(path) then 2.0 else 1.0))
      && SameAt(j.pairs, "revision_uuid", Str(rev.uuid))
      && SameAt(j.pairs, "device_id", Num(rev.deviceId as real))
      && SameAt(j.pairs, "device_directory", Str(VerifierSegment(parts)))
      && SameAt(j.pairs, "driver_id", Str(rev.driverId))
      && SameAt(j.pairs, "created", Str(rev.createdIso))
      && docs.Some? && SameAt(j.pairs, "artifacts", Arr(docs.value))
  }

  // ---- Writer and verifier agree ----

  /** Artifact types are unique within a revision: a database constraint. */
  ghost predicate UniqueTypes(artifacts: seq<Artifact>) {
    forall i, j | 0 <= i < j < |artifacts| :: artifacts[i].artifactType != artifacts[j].artifactType
  }

  ghost predicate NoManifestType(artifacts: seq<Artifact>) {
    forall i | 0 <= i < |artifacts| :: artifacts[i].artifactType != "manifest"
  }

  lemma {:induction false} TypeFound(expected: seq<ExpectedFile>, k: nat)
    requires k < |expected| && expected[k].artifactType != "manifest"
    requires forall j | 0 <= j < |expected| && j != k :: expected[j].artifactType != expected[k].artifactType
    ensures FileOfType(expected, expected[k].artifactType) == Some(expected[k])
  {
    if k < |expected| - 1 {
      TypeFound(expected[..|expected| - 1], k);
    }
  }

  lemma {:induction false} ManifestTypeHidden(expected: seq<ExpectedFile>)
    ensures FileOfType(expected, "manifest") == None
  {
    if expected != [] {
      ManifestTypeHidden(expected[..|expected| - 1]);
    }
  }

  lemma NoManifestStep(artifacts: seq<Artifact>, k: nat)
    requires k < |artifacts|
    ensures artifacts[k..] == [artifacts[k]] + artifacts[k + 1..]
    ensures NoManifestType(artifacts[k..]) <==>
      artifacts[k].artifactType != "manifest" && NoManifestType(artifacts[k + 1..])
  {
    var here, rest := artifacts[k..], artifacts[k + 1..];
    assert here == [artifacts[k]] + rest;
    if NoManifestType(here) {
      assert here[0] == artifacts[k];
      forall i | 0 <= i < |rest| ensures rest[i].artifactType != "manifest" { assert rest[i] == here[i + 1]; }
    }
  }

  /** Looking every artifact of a suffix up by type gives the docs the writer writes for that suffix. */
  lemma HeadAndRest<T>(s: seq<T>, k: nat)
    requires k < |s|
    ensures s[k..] == [s[k]] + s[k + 1..] && s[k..][0] == s[k] && s[k..][1..] == s[k + 1..]
  {
  }

  lemma {:induction false} DocsAgree(artifacts: seq<Artifact>, names: seq<string>, manifest: ExpectedFile, k: nat)
    requires |artifacts| == |names| && k <= |artifacts| && manifest.artifactType == "manifest"
    requires UniqueTypes(artifacts)
    ensures var expected := ExpectedArtifacts(artifacts, names) + [manifest];
      if NoManifestType(artifacts[k..])
      then ExpectedDocs(artifacts[k..], expected) == Some(ArtifactDocs(artifacts, names)[k..])
      else ExpectedDocs(artifacts[k..], expected) == None
    decreases |artifacts| - k
  {
    var expected := ExpectedArtifacts(artifacts, names) + [manifest];
    if k < |artifacts| {
      DocsAgree(artifacts, names, manifest, k + 1);
      NoManifestStep(artifacts, k);
      HeadAndRest(artifacts, k);
      if artifacts[k].artifactType == "manifest" {
        ManifestTypeHidden(expected);
      } else {
        TypeFound(expected, k);
        HeadAndRest(ArtifactDocs(artifacts, names), k);
      }
    } else {
      assert artifacts[k..] == [] && ArtifactDocs(artifacts, names)[k..] == [];
    }
  }

  /** The verifier's view of a parsed object, for given artifact docs and a given segment. */
  predicate MatchesDoc(pairs: seq<(string, Json)>, rev: Revision, readable: bool, segment: string, docs: seq<Json>) {
    && Keys(pairs) == ManifestKeys
    && Lookup(pairs, "device_name").Some? && Lookup(pairs, "device_name").value.Str?
    && SameAt(pairs, "schema", Num(if readable then 2.0 else 1.0))
    && SameAt(pairs, "revision_uuid", Str(rev.uuid))
    && SameAt(pairs, "device_id", Num(rev.deviceId as real))
    && SameAt(pairs, "device_directory", Str(segment))
    && SameAt(pairs, "driver_id", Str(rev.driverId))
    && SameAt(pairs, "created", Str(rev.createdIso))
    && SameAt(pairs, "artifacts", Arr(docs))
  }

  lemma ManifestDocPairs(rev: Revision, names: seq<string>, readable: bool, segment: string)
    requires |names| == |rev.artifacts|
    ensures var pairs := ManifestDoc(rev, names, readable, segment).pairs;
      |pairs| == 8 && Keys(pairs) == ManifestKeys
  {
    var pairs := ManifestDoc(rev, names, readable, segment).pairs;
    assert pairs[0].0 == "artifacts" && pairs[1].0 == "created" && pairs[2].0 == "device_directory";
    assert pairs[3].0 == "device_id" && pairs[4].0 == "device_name" && pairs[5].0 == "driver_id";
    assert pairs[6].0 == "revision_uuid" && pairs[7].0 == "schema";
  }

  /** Equality with an object is equality at each of its keys, over the same keys. */
  lemma SameByKeys(pairs: seq<(string, Json)>, want: seq<(string, Json)>)
    ensures Same(Obj(pairs), Obj(want)) <==>
      Keys(pairs) == Keys(want) && forall i | 0 <= i < |want| :: SameAt(pairs, want[i].0, want[i].1)
  {
  }

  lemma MatchesDocSame(pairs: seq<(string, Json)>, rev: Revision, names: seq<string>, readable: bool, segment: string)
    returns (name: string)
    requires |names| == |rev.artifacts|
    requires MatchesDoc(pairs, rev, readable, segment, ArtifactDocs(rev.artifacts, names))
    ensures Same(Obj(pairs), ManifestDoc(rev.(deviceName := Some(name)), names, readable, segment))
  {
    name := Lookup(pairs, "device_name").value.s;
    var named := rev.(deviceName := Some(name));
    var want := ManifestDoc(named, names, readable, segment).pairs;
    ManifestDocPairs(named, names, readable, segment);
    assert SameAt(pairs, "device_name", Str(name));
    SameByKeys(pairs, want);
  }

  lemma SameMatchesDoc(pairs: seq<(string, Json)>, rev: Revision, names: seq<string>, readable: bool, segment: string,
                       name: string)
    requires |names| == |rev.artifacts|
    requires Same(Obj(pairs), ManifestDoc(rev.(deviceName := Some(name)), names, readable, segment))
    ensures MatchesDoc(pairs, rev, readable, segment, ArtifactDocs(rev.artifacts, names))
  {
    var named := rev.(deviceName := Some(name));
    var want := ManifestDoc(named, names, readable, segment).pairs;
    ManifestDocPairs(named, names, readable, segment);
    SameByKeys(pairs, want);
    EightAlike(pairs, want);
  }

  lemma EightAlike(pairs: seq<(string, Json)>, want: seq<(string, Json)>)
    requires |want| == 8 && forall i | 0 <= i < |want| :: SameAt(pairs, want[i].0, want[i].1)
    ensures SameAt(pairs, want[0].0, want[0].1) && SameAt(pairs, want[1].0, want[1].1)
    ensures SameAt(pairs, want[2].0, want[2].1) && SameAt(pairs, want[3].0, want[3].1)
    ensures SameAt(pairs, want[4].0, want[4].1) && SameAt(pairs, want[5].0, want[5].1)
    ensures SameAt(pairs, want[6].0, want[6].1) && SameAt(pairs, want[7].0, want[7].1)
  {
  }

  /** The content, parsed, is some document Python finds equal to what the writer would write for a name. */
  ghost predicate IsManifest(codec: Codec, rev: Revision, names: seq<string>, readable: bool, segment: string,
                             content: Bytes)
    requires |names| == |rev.artifacts|
  {
    exists j, name :: codec.decode(content) == Some(j) && Unique(j)
      && Same(j, ManifestDoc(rev.(deviceName := Some(name)), names, readable, segment))
  }

  /**
   * The verifier accepts a content exactly when it parses, without repeated keys, to a document
   * equal to the one the writer writes for this path under some device name. With an artifact of
   * the reserved type "manifest" it accepts nothing.
   */
  lemma VerifierExact(codec: Codec, nf: Normalizer, base: string, rev: Revision, path: string,
                      manifest: Bytes, sha: Digester, content: Bytes)
    requires Validate(nf, base, rev, path).Some? && UniqueTypes(rev.artifacts)
    ensures |Parts(path)| >= 3
    ensures Matches(codec, rev, path, ExpectedAt(nf, rev, path, manifest, sha), content) <==>
      && NoManifestType(rev.artifacts)
      && IsManifest(codec, rev, FilenamesAt(nf, rev, path), UsesReadable(path), VerifierSegment(Parts(path)), content)
  {
    var names, readable := FilenamesAt(nf, rev, path), UsesReadable(path);
    ManyParts(nf, base, rev, path);
    var segment := VerifierSegment(Parts(path));
    var last := ExpectedFile(ManifestName, |manifest|, sha(manifest), "manifest");
    DocsAgree(rev.artifacts, names, last, 0);
    assert rev.artifacts[0..] == rev.artifacts;
    assert ArtifactDocs(rev.artifacts, names)[0..] == ArtifactDocs(rev.artifacts, names);
    VerifierExactOn(codec, rev, path, ExpectedArtifacts(rev.artifacts, names) + [last], names, content);
  }

  lemma ManyParts(nf: Normalizer, base: string, rev: Revision, path: string)
    requires Validate(nf, base, rev, path).Some?
    ensures |Parts(path)| >= 4
  {
    var (layout, segment) := Validate(nf, base, rev, path).value;
    var shape := AcceptedShape(nf, base, rev, path, layout, segment);
    AcceptedTail(base, segment, shape, rev);
  }

  lemma VerifierExactOn(codec: Codec, rev: Revision, path: string, expected: seq<ExpectedFile>, names: seq<string>,
                        content: Bytes)
    requires |names| == |rev.artifacts| && |Parts(path)| >= 3
    requires ExpectedDocs(rev.artifacts, expected)
      == if NoManifestType(rev.artifacts) then Some(ArtifactDocs(rev.artifacts, names)) else None
    ensures Matches(codec, rev, path, expected, content) <==>
      && NoManifestType(rev.artifacts)
      && IsManifest(codec, rev, names, UsesReadable(path), VerifierSegment(Parts(path)), content)
  {
    var readable, segment := UsesReadable(path), VerifierSegment(Parts(path));
    if Matches(codec, rev, path, expected, content) {
      var j := codec.decode(content).value;
      assert MatchesDoc(j.pairs, rev, readable, segment, ArtifactDocs(rev.artifacts, names));
      var name := MatchesDocSame(j.pairs, rev, names, readable, segment);
    } else if NoManifestType(rev.artifacts) && IsManifest(codec, rev, names, readable, segment, content) {
      var j, name :| codec.decode(content) == Some(j) && Unique(j)
        && Same(j, ManifestDoc(rev.(deviceName := Some(name)), names, readable, segment));
      SameMatchesDoc(j.pairs, rev, names, readable, segment, name);
      assert false;
    }
  }

  lemma {:induction false} LookupPair(pairs: seq<(string, Json)>, i: nat)
    requires DistinctKeys(pairs) && i < |pairs|
    ensures Lookup(pairs, pairs[i].0) == Some(pairs[i].1)
  {
    if i > 0 {
      assert pairs[0].0 != pairs[i].0;
      LookupPair(pairs[1..], i - 1);
    }
  }

  /** A document without repeated keys equals itself. */
  lemma {:induction false} SameAsItself(j: Json)
    requires Unique(j)
    ensures Same(j, j)
    decreases j
  {
    match j {
      case Arr(items) =>
        forall i | 0 <= i < |items| ensures Same(items[i], items[i]) { SameAsItself(items[i]); }
      case Obj(pairs) =>
        forall i | 0 <= i < |pairs| ensures SameAt(pairs, pairs[i].0, pairs[i].1) {
          LookupPair(pairs, i);
          SameAsItself(pairs[i].1);
        }
        SameByKeys(pairs, pairs);
      case _ =>
    }
  }

  lemma ArtifactDocUnique(a: Artifact, filename: string)
    ensures Unique(ArtifactDoc(a, filename))
  {
    var pairs := ArtifactDoc(a, filename).pairs;
    assert |pairs| == 6;
    assert pairs[0].0 == "artifact_type" && pairs[1].0 == "filename" && pairs[2].0 == "format";
    assert pairs[3].0 == "primary" && pairs[4].0 == "sha256" && pairs[5].0 == "size";
    assert "artifact_type"[0] == 'a' && "filename"[1] == 'i' && "format"[1] == 'o';
    assert "primary"[0] == 'p' && "sha256"[1] == 'h' && "size"[1] == 'i';
  }

  lemma ManifestDocUnique(rev: Revision, names: seq<string>, readable: bool, segment: string)
    requires |names| == |rev.artifacts|
    ensures Unique(ManifestDoc(rev, names, readable, segment))
  {
    var doc := ManifestDoc(rev, names, readable, segment);
    var docs := ArtifactDocs(rev.artifacts, names);
    forall i | 0 <= i < |docs| ensures Unique(docs[i]) { ArtifactDocUnique(rev.artifacts[i], names[i]); }
    assert doc.pairs[0].1 == Arr(docs);
    assert "artifacts" != "created" && |"device_directory"| == 16 && |"device_id"| == 9 && |"device_name"| == 11;
    assert |"driver_id"| == 9 && |"revision_uuid"| == 13 && |"schema"| == 6;
    assert "device_id"[1] == 'e' && "driver_id"[1] == 'r';
    assert "artifacts"[0] == 'a';
    forall i, k | 0 <= i < k < 8 ensures doc.pairs[i].0 != doc.pairs[k].0 {}
  }

  /** Equal documents name the same device and directory. */
  lemma SameDocs(rev: Revision, name: string, names: seq<string>, readable: bool, segment: string, seen: string)
    requires |names| == |rev.artifacts|
    requires Same(ManifestDoc(rev, names, readable, segment),
                  ManifestDoc(rev.(deviceName := Some(name)), names, readable, seen))
    ensures rev.deviceName == Some(name) && segment == seen
  {
    var have := ManifestDoc(rev, names, readable, segment).pairs;
    var want := ManifestDoc(rev.(deviceName := Some(name)), names, readable, seen).pairs;
    ManifestDocUnique(rev, names, readable, segment);
    SameByKeys(have, want);
    assert want[2] == ("device_directory", Str(seen)) && want[4] == ("device_name", Str(name));
    assert SameAt(have, want[2].0, want[2].1) && SameAt(have, want[4].0, want[4].1);
    LookupPair(have, 2);
    LookupPair(have, 4);
  }

  /** The written document is accepted for a segment exactly when it names a device and that segment. */
  lemma WrittenDocExact(codec: Codec, rev: Revision, names: seq<string>, readable: bool, segment: string, seen: string)
    requires codec.Faithful() && |names| == |rev.artifacts|
    ensures IsManifest(codec, rev, names, readable, seen, codec.encode(ManifestDoc(rev, names, readable, segment))) <==>
      rev.deviceName.Some? && segment == seen
  {
    var doc := ManifestDoc(rev, names, readable, segment);
    ManifestDocUnique(rev, names, readable, segment);
    assert codec.ReadsBack(doc);
    if rev.deviceName.Some? && segment == seen {
      SameAsItself(doc);
      assert rev.(deviceName := Some(rev.deviceName.value)) == rev;
    }
    if name :| Same(doc, ManifestDoc(rev.(deviceName := Some(name)), names, readable, seen)) {
      SameDocs(rev, name, names, readable, segment, seen);
    }
  }

  lemma VerifierReads(base: string, segment: string, shape: Shape, rev: Revision)
    requires BaseOk(base) && NormalSegment(segment)
    ensures var parts := Parts(RecordedPath(base, segment, shape, rev));
      |parts| >= 3 && VerifierSegment(parts) == SeenSegment(segment, shape)
  {
    AcceptedTail(base, segment, shape, rev);
  }

  lemma SeenByVerifier(nf: Normalizer, base: string, rev: Revision, path: string, segment: string, layout: string)
    requires Validate(nf, base, rev, path) == Some((layout, segment))
    ensures |Parts(path)| >= 3
    ensures VerifierSegment(Parts(path)) == segment <==>
      segment != "backups" || path == RecordedPath(base, segment, Nested, rev)
  {
    var shape := AcceptedShape(nf, base, rev, path, layout, segment);
    VerifierReads(base, segment, shape, rev);
    VerifierReads(base, segment, Nested, rev);
  }

  /**
   * What a replication attempt writes is what the verifier accepts, on every accepted path,
   * exactly when the device has a name, no artifact uses the reserved type "manifest", and the
   * device directory is not called "backups" outside the nested layout.
   */
  lemma ManifestRoundTrip(codec: Codec, nf: Normalizer, base: string, rev: Revision, path: string,
                          layout: string, segment: string, manifest: Bytes, sha: Digester)
    requires codec.Faithful() && UniqueTypes(rev.artifacts)
    requires Validate(nf, base, rev, path) == Some((layout, segment))
    ensures Matches(codec, rev, path, ExpectedAt(nf, rev, path, manifest, sha),
                    BuildManifest(codec, nf, rev, path, segment)) <==>
        rev.deviceName.Some? && NoManifestType(rev.artifacts)
        && (segment != "backups" || path == RecordedPath(base, segment, Nested, rev))
  {
    VerifierExact(codec, nf, base, rev, path, manifest, sha, BuildManifest(codec, nf, rev, path, segment));
    WrittenDocExact(codec, rev, FilenamesAt(nf, rev, path), UsesReadable(path), segment, VerifierSegment(Parts(path)));
    SeenByVerifier(nf, base, rev, path, segment, layout);
  }

  /**
   * A device called "backups": outside the nested layout its built path is accepted, and the manifest
   * written there is not.
   */
  lemma BackupsRefused(codec: Codec, nf: Normalizer, base: string, rev: Revision, shape: Shape, manifest: Bytes,
                       sha: Digester)
    requires codec.Faithful() && UniqueTypes(rev.artifacts) && BaseOk(base) && DatabaseId(rev.deviceId)
    requires rev.deviceName == Some("backups") && shape != Nested && (shape == Compact ==> rev.pk > 0)
    ensures var path := RecordedPath(base, "backups", shape, rev);
      && Built(nf, base, rev, shape) == Some(path)
      && Validate(nf, base, rev, path) == Some((shape.Layout(), "backups"))
      && !Matches(codec, rev, path, ExpectedAt(nf, rev, path, manifest, sha),
                  BuildManifest(codec, nf, rev, path, "backups"))
  {
    LayoutNamesAreNormal();
    FixedPoints(nf, "backups", rev.deviceId);
    BuiltPath(nf, base, rev, shape);
    BuilderAccepted(nf, base, rev, shape);
    AcceptedTail(base, "backups", shape, rev);
    AcceptedTail(base, "backups", Nested, rev);
    var path := RecordedPath(base, "backups", shape, rev);
    ManifestRoundTrip(codec, nf, base, rev, path, shape.Layout(), "backups", manifest, sha);
  }

  /** Renaming the device changes no verdict on any content. */
  lemma VerdictSurvivesRename(codec: Codec, nf: Normalizer, base: string, rev: Revision, other: Option<string>,
                              path: string, m1: Bytes, m2: Bytes, sha: Digester, content: Bytes)
    requires Validate(nf, base, rev, path).Some? && UniqueTypes(rev.artifacts)
    ensures var renamed := rev.(deviceName := other);
      Matches(codec, renamed, path, ExpectedAt(nf, renamed, path, m2, sha), content) <==>
        Matches(codec, rev, path, ExpectedAt(nf, rev, path, m1, sha), content)
  {
    var renamed := rev.(deviceName := other);
    NamesSurviveRename(nf, base, rev, path, other);
    AcceptanceSurvivesRename(nf, base, rev, path, other);
    VerifierExact(codec, nf, base, rev, path, m1, sha, content);
    VerifierExact(codec, nf, base, renamed, path, m2, sha, content);
    SameVerdict(codec, rev, other, FilenamesAt(nf, rev, path), UsesReadable(path), VerifierSegment(Parts(path)),
                content);
  }

  lemma SameVerdict(codec: Codec, rev: Revision, other: Option<string>, names: seq<string>, readable: bool,
                    segment: string, content: Bytes)
    requires |names| == |rev.artifacts|
    ensures IsManifest(codec, rev.(deviceName := other), names, readable, segment, content) <==>
      IsManifest(codec, rev, names, readable, segment, content)
  {
    var renamed := rev.(deviceName := other);
    forall name: string ensures renamed.(deviceName := Some(name)) == rev.(deviceName := Some(name)) {}
  }
}
