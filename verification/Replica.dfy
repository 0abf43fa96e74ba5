/**
 * One recorded revision as a replica: the file set that the remote steps work on, and when what
 * they ask of it holds. This ties the names and the manifest to the protocol.
 */
module Replica {
  import opened Text
  import opened PosixPath
  import opened DestinationPaths
  import opened RecordedPaths
  import opened FtpNames
  import opened Manifest
  import opened RemoteTree
  import opened ReplicaSteps
  import FtpAudit

  /** Where an absolute path lies in the remote tree. */
  function Place(path: string): Path {
    var parts := Parts(path); if parts == [] then [] else parts[1..]
  }

  /** The files of a revision at a path; `manifest` is the one built for the device's present name. */
  function FilesOf(codec: Codec, nf: Normalizer, rev: Revision, path: string, manifest: Bytes, sha: Digester): FileSet {
    FileSet(Place(path), ExpectedArtifacts(rev.artifacts, FilenamesAt(nf, rev, path)),
            content => Matches(codec, rev, path, ExpectedAt(nf, rev, path, manifest, sha), content), sha)
  }

  /** A file name ending that is taken for a temporary object. */
  predicate EndsInPart(s: string) { |s| >= 5 && s[|s| - 5..] == ".part" }

  ghost predicate NoPartSuffix(artifacts: seq<Artifact>) {
    forall i | 0 <= i < |artifacts| ::
      !EndsInPart(ReadableSuffix(ArtifactFilename(artifacts[i].storageKey, artifacts[i].artifactType)))
  }

  lemma OneDot(k: nat)
    ensures |".part"| == 5 && (1 <= k < 5 ==> ".part"[k] != '.')
  {
    assert ".part" == ['.', 'p', 'a', 'r', 't'];
  }

  /** A text that ends in ".part" does so within its suffix, if that begins with a dot. */
  lemma EndsWithin(front: string, suffix: string)
    requires suffix != "" && suffix[0] == '.' && EndsInPart(front + suffix)
    ensures EndsInPart(suffix)
  {
    var s := front + suffix;
    var end := s[|s| - 5..];
    var k := if |suffix| < 5 then 5 - |suffix| else 0;
    OneDot(k);
    assert end[k] == s[|s| - 5 + k] && s[|front|] == suffix[0];
    assert suffix[|suffix| - 5..] == end;
  }

  /** A readable name ends with its suffix, which begins with a dot. */
  lemma EndsWithSuffix(nf: Normalizer, rev: Revision, a: Artifact, override: Option<string>) returns (front: string)
    ensures var suffix := ReadableSuffix(ArtifactFilename(a.storageKey, a.artifactType));
      ReadableFilename(nf, rev, a, override) == front + suffix && suffix != "" && suffix[0] == '.'
  {
    var stem := if override.Some? && override.value != "" then override.value
                else FilenameStem(nf, rev.deviceName, rev.deviceId, rev.created);
    front := if a.primary then stem else stem + "_" + SafeType(nf, a.artifactType);
  }

  lemma PartEnds(name: string)
    ensures EndsInPart(Part(name)) && Part(name) != ManifestName
  {
    var p := Part(name);
    assert |".part"| == 5 && p[|p| - 5..] == ".part" && p[|p| - 1] == ".part"[4] == 't';
    assert |ManifestName| == 21 && ManifestName[20] == 'n';
  }

  /** A readable name ends in ".part" only if the artifact's own ending does. */
  lemma ReadableNoPart(nf: Normalizer, rev: Revision, a: Artifact, override: Option<string>)
    requires !EndsInPart(ReadableSuffix(ArtifactFilename(a.storageKey, a.artifactType)))
    ensures !EndsInPart(ReadableFilename(nf, rev, a, override))
  {
    var front := EndsWithSuffix(nf, rev, a, override);
    var suffix := ReadableSuffix(ArtifactFilename(a.storageKey, a.artifactType));
    if EndsInPart(front + suffix) { EndsWithin(front, suffix); }
  }

  ghost predicate NoPartName(names: seq<string>) { forall i | 0 <= i < |names| :: !EndsInPart(names[i]) }

  lemma NamesApart(fs: FileSet)
    requires forall i | 0 <= i < |fs.artifacts| :: !EndsInPart(fs.artifacts[i].filename)
    ensures fs.NoClash()
  {
    forall n | n in fs.Names() ensures Part(n) !in fs.Names() {
      PartEnds(n);
      assert Part(n) !in fs.ArtifactNames();
    }
  }

  ghost predicate Admitted(nf: Normalizer, base: string, rev: Revision, path: string, layout: string, segment: string) {
    && UniqueTypes(rev.artifacts) && Validate(nf, base, rev, path) == Some((layout, segment))
    && Distinct(FilenamesAt(nf, rev, path))
  }

  lemma NamedFile(nf: Normalizer, rev: Revision, path: string, i: nat)
    requires i < |rev.artifacts|
    ensures ExpectedArtifacts(rev.artifacts, FilenamesAt(nf, rev, path))[i].filename == FilenamesAt(nf, rev, path)[i]
    ensures FilenamesAt(nf, rev, path)[i] == FilenameAt(nf, rev, path, rev.artifacts[i])
  {
  }

  lemma ExpectedNames(nf: Normalizer, rev: Revision, path: string)
    ensures var names := FilenamesAt(nf, rev, path);
      var files := ExpectedArtifacts(rev.artifacts, names);
      |files| == |names| && forall i | 0 <= i < |names| :: files[i].filename == names[i]
  {
    forall i | 0 <= i < |rev.artifacts|
      ensures ExpectedArtifacts(rev.artifacts, FilenamesAt(nf, rev, path))[i].filename == FilenamesAt(nf, rev, path)[i]
    {
      NamedFile(nf, rev, path, i);
    }
  }

  lemma ValidByNames(fs: FileSet, names: seq<string>)
    requires fs.dir != [] && Distinct(names) && |names| == |fs.artifacts|
    requires forall i | 0 <= i < |names| :: fs.artifacts[i].filename == names[i]
    ensures fs.Valid() <==> ManifestName !in names
    ensures NoPartName(names) ==> fs.NoClash()
  {
    if NoPartName(names) { NamesApart(fs); }
    if ManifestName in names {
      var i :| 0 <= i < |names| && names[i] == ManifestName;
      assert fs.artifacts[i].filename == ManifestName;
    }
  }

  /** Names of a readable layout are never the manifest's, and end in ".part" only by the artifact's own ending. */
  lemma ReadableNames(nf: Normalizer, base: string, rev: Revision, path: string)
    requires Validate(nf, base, rev, path).Some? && UsesReadable(path) && DatabaseId(rev.deviceId)
    ensures ManifestName !in FilenamesAt(nf, rev, path)
    ensures NoPartSuffix(rev.artifacts) ==> NoPartName(FilenamesAt(nf, rev, path))
  {
    forall i | 0 <= i < |rev.artifacts|
      ensures FilenamesAt(nf, rev, path)[i] != ManifestName
      ensures NoPartSuffix(rev.artifacts) ==> !EndsInPart(FilenamesAt(nf, rev, path)[i])
    {
      NamedFile(nf, rev, path, i);
      ReadableNameSafe(nf, base, rev, path, rev.artifacts[i]);
      if NoPartSuffix(rev.artifacts) { ReadableNoPart(nf, rev, rev.artifacts[i], StemFromPath(nf, path, rev)); }
    }
  }

  /** The verifier accepts nothing for a revision with an artifact of the type "manifest". */
  lemma FilesTyped(codec: Codec, nf: Normalizer, base: string, rev: Revision, path: string, manifest: Bytes,
                   sha: Digester)
    requires Validate(nf, base, rev, path).Some? && UniqueTypes(rev.artifacts)
    ensures FtpAudit.TypesApart(FilesOf(codec, nf, rev, path, manifest, sha))
  {
    var fs := FilesOf(codec, nf, rev, path, manifest, sha);
    if content :| fs.accepts(content) {
      VerifierExact(codec, nf, base, rev, path, manifest, sha, content);
      forall i | 0 <= i < |fs.artifacts| ensures !FtpAudit.IsManifestType(fs.artifacts[i]) {
        assert fs.artifacts[i].artifactType == rev.artifacts[i].artifactType;
      }
    }
  }

  /**
   * What the protocol asks of a replica, from what can be checked before it starts. At an accepted
   * path whose file names differ, the file set is well formed exactly if no artifact is named like
   * the manifest, and no name clashes with a temporary one if none ends in ".part"; in a readable
   * layout no artifact is, and none does unless its own ending is ".part". No artifact has the type
   * "manifest" if any manifest is acceptable at all, and the one that an attempt writes is acceptable
   * exactly under the conditions of the round trip.
   */
  lemma ReplicaIsReady(codec: Codec, nf: Normalizer, base: string, rev: Revision, path: string, layout: string,
                       segment: string, sha: Digester)
    requires codec.Faithful() && Admitted(nf, base, rev, path, layout, segment)
    ensures var manifest, names := BuildManifest(codec, nf, rev, path, segment), FilenamesAt(nf, rev, path);
      var fs := FilesOf(codec, nf, rev, path, manifest, sha);
      && (fs.Valid() <==> ManifestName !in names) && (NoPartName(names) ==> fs.NoClash()) && FtpAudit.TypesApart(fs)
      && (UsesReadable(path) && DatabaseId(rev.deviceId) ==>
          fs.Valid() && (NoPartSuffix(rev.artifacts) ==> fs.NoClash()))
      && (fs.accepts(manifest) <==>
            rev.deviceName.Some? && NoManifestType(rev.artifacts)
            && (segment != "backups" || path == RecordedPath(base, segment, Nested, rev)))
  {
    var manifest := BuildManifest(codec, nf, rev, path, segment);
    var fs := FilesOf(codec, nf, rev, path, manifest, sha);
    ManifestRoundTrip(codec, nf, base, rev, path, layout, segment, manifest, sha);
    assert fs.dir != [] by { ManyParts(nf, base, rev, path); }
    ExpectedNames(nf, rev, path);
    ValidByNames(fs, FilenamesAt(nf, rev, path));
    FilesTyped(codec, nf, base, rev, path, manifest, sha);
    if UsesReadable(path) && DatabaseId(rev.deviceId) { ReadableNames(nf, base, rev, path); }
  }

  /**
   * Renaming the device leaves the replica what it is: the same place, names and digests, the same
   * verdict on every manifest, and so the same safe and complete states.
   */
  lemma RenameKeepsReplica(codec: Codec, nf: Normalizer, base: string, rev: Revision, other: Option<string>,
                           path: string, m1: Bytes, m2: Bytes, sha: Digester, t: Tree)
    requires Validate(nf, base, rev, path).Some? && UniqueTypes(rev.artifacts)
    ensures var fs := FilesOf(codec, nf, rev, path, m1, sha);
      var renamed := FilesOf(codec, nf, rev.(deviceName := other), path, m2, sha);
      && renamed.(accepts := fs.accepts) == fs && (forall content :: renamed.accepts(content) <==> fs.accepts(content))
      && (Safe(renamed, t) <==> Safe(fs, t)) && (AllArtifacts(renamed, t) <==> AllArtifacts(fs, t))
      && (Finished(renamed, t, ManifestName) <==> Finished(fs, t, ManifestName))
  {
    var fs := FilesOf(codec, nf, rev, path, m1, sha);
    var renamed := FilesOf(codec, nf, rev.(deviceName := other), path, m2, sha);
    NamesSurviveRename(nf, base, rev, path, other);
    forall content ensures renamed.accepts(content) <==> fs.accepts(content) {
      VerdictSurvivesRename(codec, nf, base, rev, other, path, m1, m2, sha, content);
    }
    assert renamed.artifacts == fs.artifacts;
    SameVerdicts(fs, renamed, t);
  }

  lemma SameVerdicts(fs: FileSet, other: FileSet, t: Tree)
    requires other.(accepts := fs.accepts) == fs && forall content :: other.accepts(content) <==> fs.accepts(content)
    ensures Safe(other, t) <==> Safe(fs, t)
    ensures AllArtifacts(other, t) <==> AllArtifacts(fs, t)
    ensures Finished(other, t, ManifestName) <==> Finished(fs, t, ManifestName)
  {
    assert other.dir == fs.dir && other.artifacts == fs.artifacts && other.sha == fs.sha;
    assert other.ArtifactNames() == fs.ArtifactNames() && other.Names() == fs.Names();
    forall n, content ensures other.Right(n, content) <==> fs.Right(n, content) {}
  }
}
