/**
 * The recorded path of a replica is its identity. This module holds the validator for such
 * paths (services/destination_ftp.py) and the layout detection that reads names back from
 * them (services/ftp_helpers.py), and says exactly which paths are accepted.
 */
module RecordedPaths {
  import opened Text
  import opened PosixPath
  import opened DestinationPaths

  datatype Artifact = Artifact(
    artifactType: string, format: string, storageKey: string, size: nat, rawHash: string, primary: bool)

  /** One stored revision, with the current (mutable) name of its device. */
  datatype Revision = Revision(
    pk: nat, uuid: Uuid, created: UtcTime, createdIso: string,
    deviceId: int, deviceName: Option<string>, driverId: string, artifacts: seq<Artifact>)

  // ---- _validate_recorded_revision_path ----

  predicate BadChar(c: char) { c == '\\' || c < 32 as char }

  predicate Clear(s: string) { forall i | 0 <= i < |s| :: !BadChar(s[i]) }

  function CanonicalBase(base: string): string {
    var b := Strip(base, IsSlash);
    if b == "" then "/" else "/" + b
  }

  predicate ValidLeaf(rev: Revision, layout: string, rest: seq<string>)
    requires |rest| >= 1
  {
    var stamp := Timestamp(rev.created);
    || (layout == "revisions" && |rest| == 1 && rest[0] == rev.uuid)
    || (layout == "backups" && |rest| == 1 && (rest[0] == stamp || rest[0] == stamp + "-r" + Decimal(rev.pk)))
    || (layout == "backups" && |rest| == 2 && rest[0] == stamp && rest[1] == rev.uuid)
  }

  /** remote_path and base_path are normal, and free of control characters and backslashes. */
  predicate CleanText(base: string, remote: string) {
    && "/" <= remote && remote == NormPath(remote) && CanonicalBase(base) == NormPath(CanonicalBase(base))
    && Clear(remote) && Clear(Strip(base, IsSlash))
  }

  function Prefix(base: string): seq<string> {
    var parts := Parts(CanonicalBase(base));
    ["/"] + (if parts == [] then [] else parts[1..]) + ["devices"]
  }

  function ReadSuffix(nf: Normalizer, rev: Revision, suffix: seq<string>): Option<(string, string)> {
    if |suffix| < 3 || |suffix| > 4 then None
    else if DeviceDirectory(nf, Some(suffix[0]), rev.deviceId) != suffix[0] then None
    else if ValidLeaf(rev, suffix[1], suffix[2..]) then Some((suffix[1], suffix[0]))
    else None
  }

  /** The layout and device segment of an accepted path; None is the refusal. */
  function Validate(nf: Normalizer, base: string, rev: Revision, remote: string): Option<(string, string)> {
    var parts, prefix := Parts(remote), Prefix(base);
    if CleanText(base, remote) && prefix <= parts then ReadSuffix(nf, rev, parts[|prefix|..]) else None
  }

  // ---- The four historical shapes of a recorded path ----

  datatype Shape = ByRevision | ByStamp | Compact | Nested {
    function Layout(): string { if this == ByRevision then "revisions" else "backups" }

    function Leaf(rev: Revision): seq<string> {
      match this
      case ByRevision => [rev.uuid]
      case ByStamp => [Timestamp(rev.created)]
      case Compact => [Timestamp(rev.created) + "-r" + Decimal(rev.pk)]
      case Nested => [Timestamp(rev.created), rev.uuid]
    }
  }

  function BaseParts(base: string): seq<string> {
    var b := Strip(base, IsSlash);
    if b == "" then [] else Split(b, '/')
  }

  /** A base path the destination form can hold: no empty, dot or parent parts, no control characters. */
  ghost predicate BaseOk(base: string) {
    Proper(BaseParts(base)) && Clear(Strip(base, IsSlash))
  }

  function ShapeParts(base: string, segment: string, shape: Shape, rev: Revision): seq<string> {
    BaseParts(base) + ["devices", segment, shape.Layout()] + shape.Leaf(rev)
  }

  function RecordedPath(base: string, segment: string, shape: Shape, rev: Revision): string {
    Rooted(ShapeParts(base, segment, shape, rev))
  }

  lemma SafeClear(s: string)
    requires All(s, IsSafe)
    ensures Clear(s) && '/' !in s
  {
  }

  lemma SegmentProper(s: string)
    requires NormalSegment(s)
    ensures ProperPart(s) && Clear(s) && '/' !in s
  {
    SafeClear(s);
  }

  lemma LeafProper(shape: Shape, rev: Revision)
    ensures var leaf := shape.Leaf(rev);
      Proper(leaf) && NoSlash(leaf) && ClearParts(leaf)
  {
    var stamp := Timestamp(rev.created);
    TimestampSafe(rev.created);
    SafeClear(stamp);
    var d := Decimal(rev.pk);
    forall i | 0 <= i < |d| ensures !BadChar(d[i]) && d[i] != '/' { assert IsDigit(d[i]); }
    var compact := stamp + "-r" + d;
    assert Clear(compact) && '/' !in compact;
    assert compact[0] == stamp[0];
    forall i | 0 <= i < |rev.uuid| ensures !BadChar(rev.uuid[i]) && rev.uuid[i] != '/' {
      assert IsUuidChar(rev.uuid[i]);
    }
  }

  lemma BaseClear(base: string)
    requires BaseOk(base)
    ensures ClearParts(BaseParts(base)) && NoSlash(BaseParts(base))
  {
    var b := Strip(base, IsSlash);
    var ok := (c: char) => !BadChar(c);
    assert All(b, ok);
    if b != "" {
      SplitAll(b, '/', ok);
      forall k | 0 <= k < |BaseParts(base)| ensures Clear(BaseParts(base)[k]) {
        assert All(Split(b, '/')[k], ok);
      }
    }
  }

  lemma MiddleProper(segment: string, shape: Shape)
    requires NormalSegment(segment)
    ensures var parts := ["devices", segment, shape.Layout()];
      Proper(parts) && NoSlash(parts) && ClearParts(parts)
  {
    SegmentProper(segment);
    assert Clear("devices") && Clear("revisions") && Clear("backups");
  }

  lemma ProperPieces(bp: seq<string>, middle: seq<string>, leaf: seq<string>)
    requires Proper(bp) && NoSlash(bp) && ClearParts(bp)
    requires Proper(middle) && NoSlash(middle) && ClearParts(middle)
    requires Proper(leaf) && NoSlash(leaf) && ClearParts(leaf)
    ensures Proper(bp + middle + leaf) && NoSlash(bp + middle + leaf) && Clear(Rooted(bp + middle + leaf))
  {
    ConcatParts(bp, middle);
    ConcatParts(bp + middle, leaf);
    RootedClear(bp + middle + leaf);
  }

  lemma ShapeProper(base: string, segment: string, shape: Shape, rev: Revision)
    requires BaseOk(base) && NormalSegment(segment)
    ensures var parts := ShapeParts(base, segment, shape, rev);
      Proper(parts) && NoSlash(parts) && Clear(Rooted(parts))
  {
    LeafProper(shape, rev);
    BaseClear(base);
    MiddleProper(segment, shape);
    ProperPieces(BaseParts(base), ["devices", segment, shape.Layout()], shape.Leaf(rev));
  }

  ghost predicate ClearParts(parts: seq<string>) { forall k | 0 <= k < |parts| :: Clear(parts[k]) }

  lemma ConcatParts(a: seq<string>, b: seq<string>)
    requires Proper(a) && NoSlash(a) && ClearParts(a) && Proper(b) && NoSlash(b) && ClearParts(b)
    ensures Proper(a + b) && NoSlash(a + b) && ClearParts(a + b)
  {
  }

  lemma RootedClear(parts: seq<string>)
    requires ClearParts(parts)
    ensures Clear(Rooted(parts))
  {
    var ok := (c: char) => !BadChar(c);
    forall k | 0 <= k < |parts| ensures All(parts[k], ok) { assert Clear(parts[k]); }
    JoinAll(parts, '/', ok);
  }

  /** The root the validator compares with is the base path's own components. */
  lemma CanonicalBaseParts(base: string)
    ensures var canonical := CanonicalBase(base);
      canonical == NormPath(canonical) <==> Proper(BaseParts(base))
    ensures Proper(BaseParts(base)) ==> Parts(CanonicalBase(base)) == ["/"] + BaseParts(base)
  {
    var b, canonical := Strip(base, IsSlash), CanonicalBase(base);
    if b == "" {
      assert Split("/", '/') == ["", ""] by { SplitCons("", "", '/'); assert "" + ['/'] + "" == "/"; }
      var two := ["", ""];
      assert Resolve(two, [], true) == Resolve(two[1..], [], true) == [];
      assert NormPath(canonical) == "/";
      assert canonical[1..] == "" && KeepParts([""]) == [];
    } else {
      var parts := BaseParts(base);
      StripEnds(base, IsSlash);
      JoinSplit(b, '/');
      assert canonical[1] == b[0] && RootOf(canonical) == "/";
      if Proper(parts) {
        RootedNorm(parts);
        RootedParts(parts);
      } else if canonical == NormPath(canonical) {
        var proper := NormalForm(canonical);
        assert b == Join(proper, '/') by { assert b == canonical[1..] && Rooted(proper)[1..] == Join(proper, '/'); }
        SplitJoin(proper, '/');
        assert false;
      }
    }
  }

  /**
   * The validator accepts a path, and reads a layout and a device segment from it, exactly when
   * the path is one of the four shapes under the configured base, with a normal device segment.
   * The current name of the device plays no part.
   */
  lemma ValidatorExact(nf: Normalizer, base: string, rev: Revision, remote: string, layout: string, segment: string)
    ensures Validate(nf, base, rev, remote) == Some((layout, segment)) <==>
      && BaseOk(base) && NormalSegment(segment)
      && exists shape: Shape :: shape.Layout() == layout && remote == RecordedPath(base, segment, shape, rev)
  {
    CanonicalBaseParts(base);
    FixedPoints(nf, segment, rev.deviceId);
    if Validate(nf, base, rev, remote) == Some((layout, segment)) {
      var shape := AcceptedShape(nf, base, rev, remote, layout, segment);
    } else if BaseOk(base) && NormalSegment(segment) {
      if shape: Shape :| shape.Layout() == layout && remote == RecordedPath(base, segment, shape, rev) {
        ShapeAccepted(nf, base, rev, segment, shape);
        assert false;
      }
    }
  }

  /** The grouping of path components, for any sequences. */
  lemma PartsRegrouped<T>(root: T, base: seq<T>, mark: T, segment: T, layout: T, leaf: seq<T>)
    ensures base + [mark] + ([segment, layout] + leaf) == base + [mark, segment, layout] + leaf
    ensures [root] + (base + [mark, segment, layout] + leaf) == ([root] + base + [mark]) + ([segment, layout] + leaf)
  {
  }

  lemma DropPrefix<T>(a: seq<T>, b: seq<T>)
    ensures a <= a + b && (a + b)[|a|..] == b
  {
  }

  lemma AfterRoot<T>(root: T, base: seq<T>, mark: T, parts: seq<T>, all: seq<T>)
    requires all == [root] + parts && [root] + base + [mark] <= all
    ensures parts == base + [mark] + all[|base| + 2..]
  {
    assert all == ([root] + base + [mark]) + all[|base| + 2..];
    assert parts == all[1..];
  }

  lemma LeafShape(rev: Revision, layout: string, rest: seq<string>) returns (shape: Shape)
    requires |rest| >= 1 && ValidLeaf(rev, layout, rest)
    ensures rest == shape.Leaf(rev) && layout == shape.Layout()
  {
    shape := if layout == "revisions" then ByRevision
             else if |rest| == 2 then Nested
             else if rest[0] == Timestamp(rev.created) then ByStamp else Compact;
  }

  /** What a valid suffix looks like. */
  lemma SuffixShape(nf: Normalizer, rev: Revision, suffix: seq<string>) returns (shape: Shape)
    requires ReadSuffix(nf, rev, suffix).Some?
    ensures NormalSegment(suffix[0]) && suffix == [suffix[0], shape.Layout()] + shape.Leaf(rev)
    ensures ReadSuffix(nf, rev, suffix) == Some((shape.Layout(), suffix[0]))
  {
    FixedPoints(nf, suffix[0], rev.deviceId);
    shape := LeafShape(rev, suffix[1], suffix[2..]);
    TwoAndRest(suffix);
  }

  lemma TwoAndRest<T>(s: seq<T>)
    requires |s| >= 2
    ensures s == [s[0], s[1]] + s[2..]
  {
  }

  lemma ShapeSuffix(nf: Normalizer, rev: Revision, segment: string, shape: Shape)
    requires NormalSegment(segment)
    ensures ReadSuffix(nf, rev, [segment, shape.Layout()] + shape.Leaf(rev)) == Some((shape.Layout(), segment))
  {
    FixedPoints(nf, segment, rev.deviceId);
    DropPrefix([segment, shape.Layout()], shape.Leaf(rev));
  }

  lemma CleanParts(base: string, remote: string) returns (parts: seq<string>)
    requires CleanText(base, remote) && Prefix(base) <= Parts(remote)
    ensures Parts(remote) == ["/"] + parts && remote == Rooted(parts)
  {
    FirstPartRoot(base, remote);
    NotRoot(base, remote);
    parts := NormalForm(remote);
    RootOnly();
    RootedParts(parts);
  }

  /** A clean path under the configured root is that root followed by the components after it. */
  lemma UnderRoot(base: string, remote: string) returns (suffix: seq<string>)
    requires CleanText(base, remote) && Prefix(base) <= Parts(remote)
    ensures suffix == Parts(remote)[|Prefix(base)|..]
    ensures remote == Rooted(BaseParts(base) + ["devices"] + suffix)
  {
    suffix := Parts(remote)[|Prefix(base)|..];
    var parts := CleanParts(base, remote);
    assert Prefix(base) == ["/"] + BaseParts(base) + ["devices"] by { CanonicalBaseParts(base); }
    AfterRoot("/", BaseParts(base), "devices", parts, Parts(remote));
  }

  lemma FirstPartRoot(base: string, remote: string)
    requires "/" <= remote && Prefix(base) <= Parts(remote)
    ensures RootOf(remote) == "/"
  {
    assert Parts(remote)[0] == Prefix(base)[0] == "/";
  }

  lemma NotRoot(base: string, remote: string)
    requires Prefix(base) <= Parts(remote)
    ensures remote != "/"
  {
    RootOnly();
    assert |Prefix(base)| >= 2;
  }

  lemma RootOnly()
    ensures Parts("/") == ["/"] && Rooted([]) == "/"
  {
    assert "/"[1..] == "";
    assert Split("", '/') == [""];
    assert KeepParts([""]) == [];
  }

  lemma AcceptedShape(nf: Normalizer, base: string, rev: Revision, remote: string, layout: string, segment: string)
    returns (shape: Shape)
    requires Validate(nf, base, rev, remote) == Some((layout, segment))
    ensures shape.Layout() == layout && remote == RecordedPath(base, segment, shape, rev)
    ensures BaseOk(base) && NormalSegment(segment)
  {
    CanonicalBaseParts(base);
    var suffix := UnderRoot(base, remote);
    shape := SuffixShape(nf, rev, suffix);
    PartsRegrouped("/", BaseParts(base), "devices", segment, layout, shape.Leaf(rev));
  }

  lemma ShapeAccepted(nf: Normalizer, base: string, rev: Revision, segment: string, shape: Shape)
    requires BaseOk(base) && NormalSegment(segment)
    ensures Validate(nf, base, rev, RecordedPath(base, segment, shape, rev)) == Some((shape.Layout(), segment))
    ensures Parts(RecordedPath(base, segment, shape, rev)) == ["/"] + ShapeParts(base, segment, shape, rev)
  {
    CanonicalBaseParts(base);
    var parts := ShapeParts(base, segment, shape, rev);
    ShapeProper(base, segment, shape, rev);
    RootedNorm(parts);
    RootedParts(parts);
    ShapeSuffix(nf, rev, segment, shape);
    PartsRegrouped("/", BaseParts(base), "devices", segment, shape.Layout(), shape.Leaf(rev));
    DropPrefix(Prefix(base), [segment, shape.Layout()] + shape.Leaf(rev));
  }

  // ---- The builders and the validator agree ----

  /** The key a caller passes to get each of the FTP shapes. */
  function KeyFor(shape: Shape, rev: Revision): RevisionKey
    requires shape != ByRevision
  {
    match shape case Compact => ById(rev.pk) case Nested => ByUuid(rev.uuid) case ByStamp => ByTime
  }

  ghost predicate DatabaseId(id: int) { 0 <= id < 0x8000_0000_0000_0000 }

  /** The stripped base and its components. */
  ghost predicate BaseIs(b: string, bp: seq<string>) { Proper(bp) && NoSlash(bp) && b == Join(bp, '/') }

  lemma BaseForm(base: string)
    requires BaseOk(base)
    ensures BaseIs(Strip(base, IsSlash), BaseParts(base))
  {
    BaseClear(base);
    if Strip(base, IsSlash) != "" { JoinSplit(Strip(base, IsSlash), '/'); }
  }

  // ---- posixpath.join over any components ----

  lemma JoinsWithBase(b: string, bp: seq<string>, parts: seq<string>)
    requires BaseIs(b, bp) && parts != [] && Proper(parts) && NoSlash(parts)
    ensures JoinPaths(b, parts) == Join(bp + parts, '/')
  {
    if bp == [] {
      assert ProperPart(parts[0]) && '/' !in parts[0];
      assert JoinPath("", parts[0]) == parts[0];
      JoinPathsProper([parts[0]], parts[1..]);
      assert [parts[0]] + parts[1..] == parts == [] + parts;
    } else {
      JoinPathsProper(bp, parts);
    }
  }

  lemma JoinFour(b: string, bp: seq<string>, p: string, q: string, r: string, s: string)
    requires BaseIs(b, bp) && Proper([p, q, r, s]) && NoSlash([p, q, r, s])
    ensures JoinPaths(b, [p, q, r, s]) == Join(bp + [p, q, r] + [s], '/')
  {
    JoinsWithBase(b, bp, [p, q, r, s]);
    assert bp + [p, q, r, s] == bp + [p, q, r] + [s];
  }

  lemma JoinFive(b: string, bp: seq<string>, p: string, q: string, r: string, s: string, t: string)
    requires BaseIs(b, bp) && Proper([p, q, r, s]) && NoSlash([p, q, r, s]) && ProperPart(t) && '/' !in t
    ensures JoinPath(JoinPaths(b, [p, q, r, s]), t) == Join(bp + [p, q, r] + [s, t], '/')
  {
    JoinFour(b, bp, p, q, r, s);
    var parts := bp + [p, q, r] + [s];
    FourProper(bp, p, q, r, s);
    EndsOpen(parts);
    JoinAppend(parts, [t], '/');
    assert parts + [t] == bp + [p, q, r] + [s, t];
  }

  lemma FourProper(bp: seq<string>, p: string, q: string, r: string, s: string)
    requires Proper(bp) && NoSlash(bp) && Proper([p, q, r, s]) && NoSlash([p, q, r, s])
    ensures Proper(bp + [p, q, r] + [s]) && NoSlash(bp + [p, q, r] + [s])
  {
    var parts := bp + [p, q, r] + [s];
    forall i | 0 <= i < |parts| ensures ProperPart(parts[i]) && '/' !in parts[i] {
      if i < |bp| { assert parts[i] == bp[i]; } else { assert parts[i] == [p, q, r, s][i - |bp|]; }
    }
  }

  lemma JoinSuffixed(b: string, bp: seq<string>, p: string, q: string, r: string, s: string, t: string, u: string)
    requires BaseIs(b, bp) && Proper([p, q, r, s]) && NoSlash([p, q, r, s])
    ensures JoinPaths(b, [p, q, r, s]) + t + u == Join(bp + [p, q, r] + [s + t + u], '/')
  {
    JoinFour(b, bp, p, q, r, s);
    var front := bp + [p, q, r];
    JoinAppend(front, [s], '/');
    JoinAppend(front, [s + t + u], '/');
    var f := Join(front, '/') + ['/'];
    assert f + s + t + u == f + (s + t + u);
  }

  /** A path of proper components starts with one slash, so lstrip("/") leaves it alone. */
  lemma RootedOnce(parts: seq<string>)
    requires parts != [] && Proper(parts) && NoSlash(parts)
    ensures "/" + LStrip(Join(parts, '/'), IsSlash) == Rooted(parts)
  {
    JoinStart(parts);
  }

  // ---- The builders ----

  /** What the builder of each shape returns. */
  function Built(nf: Normalizer, base: string, rev: Revision, shape: Shape): Option<string> {
    if shape == ByRevision then Some(RevisionPath(nf, base, rev.deviceName, rev.deviceId, rev.uuid))
    else FtpRevisionPath(nf, base, rev.deviceName, rev.deviceId, rev.created, KeyFor(shape, rev))
  }

  /** What the builder of each shape joins. */
  function Joining(base: string, dir: string, shape: Shape, rev: Revision): string {
    var b, stamp := Strip(base, IsSlash), Timestamp(rev.created);
    match shape
    case ByRevision => JoinPaths(b, ["devices", dir, "revisions", rev.uuid])
    case ByStamp => JoinPaths(b, ["devices", dir, "backups", stamp])
    case Compact => JoinPaths(b, ["devices", dir, "backups", stamp]) + "-r" + Decimal(rev.pk)
    case Nested => JoinPath(JoinPaths(b, ["devices", dir, "backups", stamp]), rev.uuid)
  }

  lemma BuiltIsJoined(nf: Normalizer, base: string, rev: Revision, shape: Shape)
    requires shape == Compact ==> rev.pk > 0
    ensures Built(nf, base, rev, shape) ==
      Some("/" + LStrip(Joining(base, DeviceDirectory(nf, rev.deviceName, rev.deviceId), shape, rev), IsSlash))
  {
  }

  /** The proper components of a path before its leaf, with the leaf's first component. */
  lemma FourOk(dir: string, shape: Shape, rev: Revision, leaf: string)
    requires NormalSegment(dir) && (leaf == Timestamp(rev.created) || leaf == rev.uuid)
    ensures Proper(["devices", dir, shape.Layout(), leaf]) && NoSlash(["devices", dir, shape.Layout(), leaf])
  {
    SegmentProper(dir);
    LeafProper(ByStamp, rev);
    LeafProper(ByRevision, rev);
    assert ByStamp.Leaf(rev)[0] == Timestamp(rev.created) && ByRevision.Leaf(rev)[0] == rev.uuid;
  }

  lemma JoiningIsShape(base: string, dir: string, shape: Shape, rev: Revision)
    requires BaseOk(base) && NormalSegment(dir)
    ensures Joining(base, dir, shape, rev) == Join(ShapeParts(base, dir, shape, rev), '/')
  {
    var b, bp, stamp := Strip(base, IsSlash), BaseParts(base), Timestamp(rev.created);
    BaseForm(base);
    FourOk(dir, shape, rev, if shape == ByRevision then rev.uuid else stamp);
    match shape {
      case ByRevision => JoinFour(b, bp, "devices", dir, "revisions", rev.uuid);
      case ByStamp => JoinFour(b, bp, "devices", dir, "backups", stamp);
      case Compact => JoinSuffixed(b, bp, "devices", dir, "backups", stamp, "-r", Decimal(rev.pk));
      case Nested =>
        LeafProper(ByRevision, rev);
        assert ByRevision.Leaf(rev)[0] == rev.uuid;
        JoinFive(b, bp, "devices", dir, "backups", stamp, rev.uuid);
    }
  }

  /** Every builder writes the path of its shape, with the sanitized device name for a segment. */
  lemma BuiltPath(nf: Normalizer, base: string, rev: Revision, shape: Shape)
    requires BaseOk(base) && DatabaseId(rev.deviceId) && (shape == Compact ==> rev.pk > 0)
    ensures Built(nf, base, rev, shape) ==
      Some(RecordedPath(base, DeviceDirectory(nf, rev.deviceName, rev.deviceId), shape, rev))
  {
    var dir := DeviceDirectory(nf, rev.deviceName, rev.deviceId);
    DeviceDirectoryIsNormal(nf, rev.deviceName, rev.deviceId);
    BuiltIsJoined(nf, base, rev, shape);
    JoiningIsShape(base, dir, shape, rev);
    ShapeProper(base, dir, shape, rev);
    RootedOnce(ShapeParts(base, dir, shape, rev));
  }

  /**
   * A path fresh from a builder is accepted, with the sanitized device name as its segment,
   * exactly when the base path is well formed.
   */
  lemma BuilderAccepted(nf: Normalizer, base: string, rev: Revision, shape: Shape)
    requires DatabaseId(rev.deviceId) && (shape == Compact ==> rev.pk > 0)
    ensures var built := Built(nf, base, rev, shape);
      && built.Some?
      && (BaseOk(base) <==>
          Validate(nf, base, rev, built.value) ==
            Some((shape.Layout(), DeviceDirectory(nf, rev.deviceName, rev.deviceId))))
  {
    var dir := DeviceDirectory(nf, rev.deviceName, rev.deviceId);
    if BaseOk(base) {
      DeviceDirectoryIsNormal(nf, rev.deviceName, rev.deviceId);
      BuiltPath(nf, base, rev, shape);
      ShapeAccepted(nf, base, rev, dir, shape);
    } else {
      ValidatorExact(nf, base, rev, Built(nf, base, rev, shape).value, shape.Layout(), dir);
    }
  }

  lemma SamePathSameParts(base: string, dir1: string, rev1: Revision, dir2: string, rev2: Revision)
    requires BaseOk(base) && NormalSegment(dir1) && NormalSegment(dir2)
    requires RecordedPath(base, dir1, Compact, rev1) == RecordedPath(base, dir2, Compact, rev2)
    ensures ShapeParts(base, dir1, Compact, rev1) == ShapeParts(base, dir2, Compact, rev2)
  {
    var p1, p2 := ShapeParts(base, dir1, Compact, rev1), ShapeParts(base, dir2, Compact, rev2);
    ShapeProper(base, dir1, Compact, rev1);
    ShapeProper(base, dir2, Compact, rev2);
    RootedParts(p1);
    RootedParts(p2);
    DropPrefix(["/"], p1);
    DropPrefix(["/"], p2);
  }

  /**
   * Paths of new copies never collide: two revisions share a compact path only if they have the
   * same key, were created in the same second, and sit under the same device directory.
   */
  lemma CompactPathsDistinct(base: string, dir1: string, rev1: Revision, dir2: string, rev2: Revision)
    requires BaseOk(base) && NormalSegment(dir1) && NormalSegment(dir2)
    requires RecordedPath(base, dir1, Compact, rev1) == RecordedPath(base, dir2, Compact, rev2)
    ensures rev1.pk == rev2.pk && rev1.created == rev2.created && dir1 == dir2
  {
    var p1, p2 := ShapeParts(base, dir1, Compact, rev1), ShapeParts(base, dir2, Compact, rev2);
    assert p1 == p2 by { SamePathSameParts(base, dir1, rev1, dir2, rev2); }
    var n := |BaseParts(base)|;
    assert dir1 == p1[n + 1] == p2[n + 1] == dir2;
    assert Compact.Leaf(rev1)[0] == p1[n + 3] == p2[n + 3] == Compact.Leaf(rev2)[0];
    SplitAt(Timestamp(rev1.created), "-r", Decimal(rev1.pk), Timestamp(rev2.created), Decimal(rev2.pk));
    TimestampInjective(rev1.created, rev2.created);
    DecimalInjective(rev1.pk, rev2.pk);
  }

  lemma SplitAt<T>(a1: seq<T>, mark: seq<T>, b1: seq<T>, a2: seq<T>, b2: seq<T>)
    requires |a1| == |a2| && a1 + mark + b1 == a2 + mark + b2
    ensures a1 == a2 && b1 == b2
  {
    var s1, s2 := a1 + mark + b1, a2 + mark + b2;
    assert a1 == s1[..|a1|] && a2 == s2[..|a1|];
    assert b1 == s1[|a1| + |mark|..] && b2 == s2[|a1| + |mark|..];
  }
}
