/**
 * File names inside a replica directory (services/ftp_helpers.py and the name half of
 * services/destination_ftp.py). Every name is derived from the recorded path, so renaming a
 * device in NetBox changes none of them.
 */
module FtpNames {
  import opened Text
  import opened PosixPath
  import opened DestinationPaths
  import opened RecordedPaths

  const ManifestName := "_netbox_manifest.json"

  /** artifact_filename */
  function ArtifactFilename(storageKey: string, artifactType: string): string {
    var name := Name(storageKey);
    if name != "" && name != "." && name != ".." then name else artifactType + ".bin"
  }

  /** "".join(PurePosixPath(name).suffixes) */
  function Suffixes(path: string): string {
    var name := Name(path);
    if name == "" || name[|name| - 1] == '.' then ""
    else
      var pieces := Split(LStrip(name, IsDot), '.');
      if |pieces| == 1 then "" else "." + Join(pieces[1..], '.')
  }

  predicate IsSuffixChar(c: char) { c == '.' || IsAlnum(c) }

  function ReadableSuffix(original: string): string {
    var suffix := Suffixes(original);
    if suffix == "" || |suffix| > 24 || exists i | 0 <= i < |suffix| :: !IsSuffixChar(suffix[i])
    then ".bin" else suffix
  }

  function SafeType(nf: Normalizer, artifactType: string): string {
    var d := DeviceDirectory(nf, Some(artifactType), 0);
    var cut := if |d| <= 48 then d else d[..48];
    if cut == "" then "artifact" else cut
  }

  /** readable_artifact_filename; an empty override counts as none. */
  function ReadableFilename(nf: Normalizer, rev: Revision, a: Artifact, override: Option<string>): string {
    var suffix := ReadableSuffix(ArtifactFilename(a.storageKey, a.artifactType));
    var stem := if override.Some? && override.value != "" then override.value
                else FilenameStem(nf, rev.deviceName, rev.deviceId, rev.created);
    if a.primary then stem + suffix else stem + "_" + SafeType(nf, a.artifactType) + suffix
  }

  function Last(parts: seq<string>, n: nat): Option<string> {
    if 0 < n <= |parts| then Some(parts[|parts| - n]) else None
  }

  predicate ReadableParts(parts: seq<string>) {
    |parts| >= 2 && (Last(parts, 2) == Some("backups") || Last(parts, 3) == Some("backups"))
  }

  /** uses_readable_ftp_layout */
  predicate UsesReadable(path: string) { ReadableParts(Parts(path)) }

  /** The component layout detection takes for the device segment. */
  function SegmentOf(parts: seq<string>): Option<string> {
    if |parts| >= 4 && Last(parts, 3) == Some("backups") then Last(parts, 4)
    else if |parts| >= 3 && Last(parts, 2) == Some("backups") then Last(parts, 3)
    else None
  }

  /** _readable_stem_from_revision_path */
  function StemFromPath(nf: Normalizer, path: string, rev: Revision): Option<string> {
    match SegmentOf(Parts(path))
    case None => None
    case Some(segment) => Some(FilenameStem(nf, Some(segment), rev.deviceId, rev.created))
  }

  /** Names at a path, given what layout detection found there. */
  function FilenameBy(nf: Normalizer, rev: Revision, readable: bool, stem: Option<string>, a: Artifact): string {
    if readable then ReadableFilename(nf, rev, a, stem) else ArtifactFilename(a.storageKey, a.artifactType)
  }

  function FilenamesBy(nf: Normalizer, rev: Revision, readable: bool, stem: Option<string>): (names: seq<string>)
    ensures |names| == |rev.artifacts|
  {
    seq(|rev.artifacts|, i requires 0 <= i < |rev.artifacts| => FilenameBy(nf, rev, readable, stem, rev.artifacts[i]))
  }

  /** The name under which an artifact is filed at a path. */
  function FilenameAt(nf: Normalizer, rev: Revision, path: string, a: Artifact): string {
    FilenameBy(nf, rev, UsesReadable(path), StemFromPath(nf, path, rev), a)
  }

  function FilenamesAt(nf: Normalizer, rev: Revision, path: string): (names: seq<string>)
    ensures |names| == |rev.artifacts|
  {
    FilenamesBy(nf, rev, UsesReadable(path), StemFromPath(nf, path, rev))
  }

  /** validate_direct_filename */
  predicate DirectFilename(name: string) {
    name != "" && Name(name) == name && name != "." && name != ".." && Clear(name)
  }

  // ---- What layout detection reads from an accepted path ----

  /** The segment layout detection reads back; a device called "backups" is mistaken for the layout. */
  function SeenSegment(segment: string, shape: Shape): string {
    if segment == "backups" && shape != Nested then "devices" else segment
  }

  /** Layout detection on the components of an accepted path, whatever the base. */
  lemma DetectParts(base: seq<string>, segment: string, shape: Shape, leaf: seq<string>)
    requires |leaf| == if shape == Nested then 2 else 1
    requires forall k | 0 <= k < |leaf| :: leaf[k] != "backups"
    ensures var parts := ["/"] + (base + ["devices", segment, shape.Layout()] + leaf);
      && (ReadableParts(parts) <==> shape != ByRevision || segment == "backups")
      && (SegmentOf(parts) == if shape == ByRevision && segment != "backups" then None
                              else Some(SeenSegment(segment, shape)))
      && |parts| >= 4 && (Last(parts, 3) == Some("backups") <==> shape == Nested || segment == "backups")
      && Last(parts, 3) == Some(if shape == Nested then "backups" else segment)
      && Last(parts, 4) == Some(if shape == Nested then segment else "devices")
  {
    var parts := ["/"] + (base + ["devices", segment, shape.Layout()] + leaf);
    var n := |base|;
    assert parts[n + 1] == "devices" && parts[n + 2] == segment && parts[n + 3] == shape.Layout();
    assert parts[n + 4] == leaf[0];
    assert |parts| == n + 4 + |leaf|;
  }

  lemma LeafNotLayout(shape: Shape, rev: Revision)
    ensures var leaf := shape.Leaf(rev);
      |leaf| == (if shape == Nested then 2 else 1) && forall k | 0 <= k < |leaf| :: leaf[k] != "backups"
  {
    assert |"backups"| == 7;
  }

  lemma AcceptedTail(base: string, segment: string, shape: Shape, rev: Revision)
    requires BaseOk(base) && NormalSegment(segment)
    ensures var parts := Parts(RecordedPath(base, segment, shape, rev));
      && (ReadableParts(parts) <==> shape != ByRevision || segment == "backups")
      && (SegmentOf(parts) == if shape == ByRevision && segment != "backups" then None
                              else Some(SeenSegment(segment, shape)))
      && |parts| >= 4 && Last(parts, 3) == Some(if shape == Nested then "backups" else segment)
      && Last(parts, 4) == Some(if shape == Nested then segment else "devices")
  {
    ShapeProper(base, segment, shape, rev);
    RootedParts(ShapeParts(base, segment, shape, rev));
    LeafNotLayout(shape, rev);
    DetectParts(BaseParts(base), segment, shape, shape.Leaf(rev));
  }

  lemma NamesByPathAndRevision(nf: Normalizer, rev: Revision, readable: bool, stem: Option<string>,
                               other: Option<string>)
    requires readable ==> stem.Some? && stem.value != ""
    ensures FilenamesBy(nf, rev.(deviceName := other), readable, stem) == FilenamesBy(nf, rev, readable, stem)
  {
    var renamed := rev.(deviceName := other);
    forall i | 0 <= i < |rev.artifacts|
      ensures FilenamesBy(nf, renamed, readable, stem)[i] == FilenamesBy(nf, rev, readable, stem)[i] {}
  }

  /**
   * Renaming a device never renames a file: at an accepted path the names depend on the path and
   * the revision alone, and the path stays accepted as the same layout and segment.
   */
  lemma NamesSurviveRename(nf: Normalizer, base: string, rev: Revision, path: string, other: Option<string>)
    requires Validate(nf, base, rev, path).Some?
    ensures FilenamesAt(nf, rev.(deviceName := other), path) == FilenamesAt(nf, rev, path)
    ensures Validate(nf, base, rev.(deviceName := other), path) == Validate(nf, base, rev, path)
  {
    StemWhenReadable(nf, base, rev, path);
    NamesByPathAndRevision(nf, rev, UsesReadable(path), StemFromPath(nf, path, rev), other);
    AcceptanceSurvivesRename(nf, base, rev, path, other);
  }

  lemma AcceptanceSurvivesRename(nf: Normalizer, base: string, rev: Revision, path: string, other: Option<string>)
    ensures Validate(nf, base, rev.(deviceName := other), path) == Validate(nf, base, rev, path)
  {
  }

  lemma StemWhenReadable(nf: Normalizer, base: string, rev: Revision, path: string)
    requires Validate(nf, base, rev, path).Some?
    ensures UsesReadable(path) <==> StemFromPath(nf, path, rev).Some?
    ensures UsesReadable(path) ==> StemFromPath(nf, path, rev).value != ""
  {
    assert UsesReadable(path) <==> SegmentOf(Parts(path)).Some? by {
      var (layout, segment) := Validate(nf, base, rev, path).value;
      var shape := AcceptedShape(nf, base, rev, path, layout, segment);
      AcceptedTail(base, segment, shape, rev);
    }
  }

  lemma LettersAreNormal(s: string)
    requires s != "" && |s| <= MaxDeviceSegment && forall i | 0 <= i < |s| :: 'a' <= s[i] <= 'z'
    ensures NormalSegment(s)
  {
    SplitOne(s, '-');
    assert s[0] != '.';
  }

  lemma LayoutNamesAreNormal()
    ensures NormalSegment("devices") && NormalSegment("backups")
  {
    LettersAreNormal("devices");
    LettersAreNormal("backups");
  }

  lemma TruncateNormal(s: string, n: nat)
    requires NormalSegment(s) && n > 0
    ensures var t := Truncate(s, n); t != "" && All(t, IsSafe) && t[0] == s[0] && IsAlnum(t[0])
  {
    var cut := if |s| <= n then s else s[..n];
    RStripSpec(cut, IsTrim);
    assert cut[0] == s[0] && !IsTrim(s[0]);
  }

  /** A stem begins as the directory name does. */
  lemma StemStart(nf: Normalizer, name: Option<string>, id: int, created: UtcTime)
    requires DatabaseId(id)
    ensures var stem := FilenameStem(nf, name, id, created); stem != "" && stem[0] == DeviceDirectory(nf, name, id)[0]
  {
    DeviceDirectoryIsNormal(nf, name, id);
    TruncateNormal(DeviceDirectory(nf, name, id), MaxStemSegment);
  }

  /**
   * The stem read from a freshly built path is the stem of the device's own name, except exactly
   * when the device directory is called "backups" and the path is not of the nested kind: then
   * the segment read back is "devices".
   */
  lemma FreshStem(nf: Normalizer, base: string, rev: Revision, shape: Shape)
    requires BaseOk(base) && DatabaseId(rev.deviceId) && shape != ByRevision
    ensures var dir := DeviceDirectory(nf, rev.deviceName, rev.deviceId);
      var path := RecordedPath(base, dir, shape, rev);
      StemFromPath(nf, path, rev) == Some(FilenameStem(nf, rev.deviceName, rev.deviceId, rev.created)) <==>
        !(dir == "backups" && shape != Nested)
  {
    var dir := DeviceDirectory(nf, rev.deviceName, rev.deviceId);
    DeviceDirectoryIsNormal(nf, rev.deviceName, rev.deviceId);
    AcceptedTail(base, dir, shape, rev);
    StemFromDirectory(nf, rev.deviceName, rev.deviceId, rev.created);
    if dir == "backups" && shape != Nested {
      StemStart(nf, rev.deviceName, rev.deviceId, rev.created);
      StemStart(nf, Some("devices"), rev.deviceId, rev.created);
      LayoutNamesAreNormal();
      FixedPoints(nf, "devices", rev.deviceId);
    }
  }

  // ---- Readable names are safe names ----

  lemma SafeNameDirect(f: string)
    requires f != "" && All(f, IsSafe) && IsAlnum(f[0])
    ensures DirectFilename(f) && f != ManifestName && f != ManifestName + ".part"
  {
    SafeClear(f);
    assert RootOf(f) == "" && f[0..] == f;
    SplitOne(f, '/');
    assert f[0] != '.';
    assert KeepParts([f]) == [f];
    assert ManifestName[0] == '_';
  }

  lemma SafeSuffix(original: string)
    ensures All(ReadableSuffix(original), IsSafe)
  {
    var suffix := Suffixes(original);
    if ReadableSuffix(original) == suffix && suffix != ".bin" {
      forall i | 0 <= i < |suffix| ensures IsSafe(suffix[i]) { assert IsSuffixChar(suffix[i]); }
    }
  }

  predicate SafeStart(s: string) { s != "" && IsAlnum(s[0]) }

  /** A safe name stays safe when safe text is added behind it. */
  lemma ConcatSafe(a: string, b: string)
    requires SafeStart(a) && All(a, IsSafe) && All(b, IsSafe)
    ensures SafeStart(a + b) && All(a + b, IsSafe)
  {
  }

  lemma JoinedSafe(a: string, b: string, c: string)
    requires SafeStart(a) && All(a, IsSafe) && All(b, IsSafe) && All(c, IsSafe)
    ensures SafeStart(a + "_" + b + c) && All(a + "_" + b + c, IsSafe)
  {
    ConcatSafe(a, "_");
    ConcatSafe(a + "_", b);
    ConcatSafe(a + "_" + b, c);
  }

  lemma StemSafe(nf: Normalizer, name: Option<string>, id: int, created: UtcTime)
    requires DatabaseId(id)
    ensures var stem := FilenameStem(nf, name, id, created); SafeStart(stem) && All(stem, IsSafe)
  {
    DeviceDirectoryIsNormal(nf, name, id);
    var cut := Truncate(DeviceDirectory(nf, name, id), MaxStemSegment);
    TruncateNormal(DeviceDirectory(nf, name, id), MaxStemSegment);
    TimestampSafe(created);
    ConcatSafe(cut, "_");
    ConcatSafe(cut + "_", Timestamp(created));
  }

  lemma ReadableFilenameSafe(nf: Normalizer, rev: Revision, a: Artifact, stem: string)
    requires SafeStart(stem) && All(stem, IsSafe)
    ensures var f := ReadableFilename(nf, rev, a, Some(stem)); SafeStart(f) && All(f, IsSafe)
  {
    var suffix := ReadableSuffix(ArtifactFilename(a.storageKey, a.artifactType));
    SafeSuffix(ArtifactFilename(a.storageKey, a.artifactType));
    if a.primary {
      ConcatSafe(stem, suffix);
    } else {
      SafeTypeSafe(nf, a.artifactType);
      JoinedSafe(stem, SafeType(nf, a.artifactType), suffix);
    }
  }

  /**
   * Every readable artifact name is one safe path component, and can be mistaken neither for the
   * manifest nor for the manifest's temporary object.
   */
  lemma ReadableNameSafe(nf: Normalizer, base: string, rev: Revision, path: string, a: Artifact)
    requires Validate(nf, base, rev, path).Some? && UsesReadable(path) && DatabaseId(rev.deviceId)
    ensures var f := FilenameAt(nf, rev, path, a);
      DirectFilename(f) && f != ManifestName && f != ManifestName + ".part"
  {
    StemWhenReadable(nf, base, rev, path);
    var stem := StemFromPath(nf, path, rev).value;
    StemSafe(nf, SegmentOf(Parts(path)), rev.deviceId, rev.created);
    ReadableFilenameSafe(nf, rev, a, stem);
    SafeNameDirect(FilenameAt(nf, rev, path, a));
  }

  lemma SafeTypeSafe(nf: Normalizer, artifactType: string)
    ensures All(SafeType(nf, artifactType), IsSafe)
  {
    DeviceDirectoryIsNormal(nf, Some(artifactType), 0);
  }
}
