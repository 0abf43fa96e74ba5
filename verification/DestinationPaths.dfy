/**
 * The path builders of services/destination_paths.py and the device-name sanitizer
 * every one of them starts from.
 */
module DestinationPaths {
  import opened Text
  import opened PosixPath

  predicate IsAscii(c: char) { c < 128 as char }

  predicate IsAlnum(c: char) { 'a' <= c <= 'z' || 'A' <= c <= 'Z' || '0' <= c <= '9' }

  predicate IsSafe(c: char) { IsAlnum(c) || c == '.' || c == '_' || c == '-' }

  predicate IsUnsafe(c: char) { !IsSafe(c) }

  predicate IsDash(c: char) { c == '-' }

  predicate IsDot(c: char) { c == '.' }

  /** The set handed to strip("._-"). */
  predicate IsTrim(c: char) { c == '.' || c == '_' || c == '-' }

  /** What str.strip() removes, among ASCII characters. */
  predicate IsSpace(c: char) {
    c == ' ' || '\t' <= c <= '\r' || 28 as char <= c <= 31 as char
  }

  /**
   * Unicode normalization (NFKD) is a foreign function of which only one thing is known:
   * it leaves ASCII text alone.
   */
  type Normalizer = f: string -> string | LeavesAscii(f) witness s => s

  ghost predicate LeavesAscii(f: string -> string) { forall s :: All(s, IsAscii) ==> f(s) == s }

  /** encode("ascii", "ignore").decode("ascii"). */
  function AsciiIgnore(s: string): (r: string)
    ensures All(r, IsAscii)
    ensures All(s, IsAscii) ==> r == s
  {
    if s == "" then ""
    else
      assert All(s, IsAscii) ==> All(s[1..], IsAscii);
      if IsAscii(s[0]) then [s[0]] + AsciiIgnore(s[1..]) else AsciiIgnore(s[1..])
  }

  predicate OnlyDots(part: string) { forall i | 0 <= i < |part| :: part[i] == '.' }

  lemma StripDots(part: string)
    ensures Strip(part, IsDot) == "" <==> OnlyDots(part)
  {
    StripAll(part, IsDot);
  }

  function DropDotParts(parts: seq<string>): (r: seq<string>)
    ensures RealPieces(r)
    ensures forall k | 0 <= k < |r| :: r[k] in parts
  {
    if parts == [] then []
    else
      StripDots(parts[0]);
      if Strip(parts[0], IsDot) == "" then DropDotParts(parts[1..]) else [parts[0]] + DropDotParts(parts[1..])
  }

  const MaxDeviceSegment := 128
  const MaxStemSegment := 96

  function Truncate(s: string, n: nat): (r: string)
    ensures |r| <= n && |r| <= |s|
  {
    RStrip(if |s| <= n then s else s[..n], IsTrim)
  }

  /** device_directory_name before the fallback, from a name already folded to ASCII. */
  function CleanAscii(ascii: string): string {
    var dashed := SubRuns(Strip(ascii, IsSpace), IsUnsafe, '-');
    var trimmed := Strip(SubRuns(dashed, IsDash, '-'), IsTrim);
    var joined := Join(DropDotParts(Split(trimmed, '-')), '-');
    Truncate(joined, MaxDeviceSegment)
  }

  function Clean(nf: Normalizer, name: string): string { CleanAscii(AsciiIgnore(nf(name))) }

  function Fallback(id: int): string { "device-" + DecimalInt(id) }

  /** device_directory_name; a missing name counts as the empty one. */
  function DeviceDirectory(nf: Normalizer, name: Option<string>, id: int): string {
    var clean := Clean(nf, if name.Some? then name.value else "");
    if clean == "" then Fallback(id) else clean
  }

  // ---- Normal segments: the values the sanitizer can produce ----

  /**
   * A non-empty name over [A-Za-z0-9._-] of at most 128 characters that starts and ends with a
   * letter or digit and has no empty or dots-only piece between dashes.
   */
  ghost predicate NormalSegment(s: string) {
    && s != "" && |s| <= MaxDeviceSegment
    && All(s, IsSafe)
    && IsAlnum(s[0]) && IsAlnum(s[|s| - 1])
    && NoDotPiece(s)
  }

  ghost predicate NoDotPiece(s: string) { RealPieces(Split(s, '-')) }

  ghost predicate RealPieces(parts: seq<string>) {
    forall k | 0 <= k < |parts| :: !OnlyDots(parts[k])
  }

  /** NoDotPiece read from left to right: `seen` says the current piece already has a non-dot. */
  ghost predicate PiecesOk(s: string, seen: bool) {
    if s == "" then seen
    else if s[0] == '-' then seen && PiecesOk(s[1..], false)
    else PiecesOk(s[1..], seen || s[0] != '.')
  }

  lemma OnlyDotsCons(c: char, p: string)
    ensures OnlyDots([c] + p) <==> c == '.' && OnlyDots(p)
  {
    var s := [c] + p;
    if OnlyDots(s) {
      assert s[0] == c;
      forall i | 0 <= i < |p| ensures p[i] == '.' { assert s[i + 1] == p[i]; }
    }
  }

  lemma {:induction false} PiecesOkMeaning(s: string, seen: bool)
    ensures var parts := Split(s, '-');
      PiecesOk(s, seen) <==>
        (seen || !OnlyDots(parts[0])) && forall k | 1 <= k < |parts| :: !OnlyDots(parts[k])
  {
    if s != "" {
      var rest, parts := Split(s[1..], '-'), Split(s, '-');
      if s[0] == '-' {
        PiecesOkMeaning(s[1..], false);
        assert parts == [""] + rest;
        if forall k | 1 <= k < |parts| :: !OnlyDots(parts[k]) {
          forall k | 0 <= k < |rest| ensures !OnlyDots(rest[k]) { assert rest[k] == parts[k + 1]; }
        }
      } else {
        PiecesOkMeaning(s[1..], seen || s[0] != '.');
        OnlyDotsCons(s[0], rest[0]);
        assert parts == [[s[0]] + rest[0]] + rest[1..];
        assert forall k | 1 <= k < |parts| :: parts[k] == rest[k];
      }
    }
  }

  lemma {:induction false} PrefixPiecesOk(s: string, n: nat, seen: bool)
    requires n <= |s| && PiecesOk(s, seen)
    requires n > 0 ==> IsAlnum(s[n - 1])
    requires n == 0 ==> seen
    ensures PiecesOk(s[..n], seen)
  {
    if n > 0 {
      assert s[..n][1..] == s[1..][..n - 1];
      if s[0] == '-' {
        PrefixPiecesOk(s[1..], n - 1, false);
      } else {
        PrefixPiecesOk(s[1..], n - 1, seen || s[0] != '.');
      }
    }
  }

  /** Any prefix that ends in a letter or digit keeps the pieces free of dots-only ones. */
  lemma PrefixNoDotPiece(s: string, n: nat)
    requires 0 < n <= |s| && NoDotPiece(s) && IsAlnum(s[n - 1])
    ensures NoDotPiece(s[..n])
  {
    PiecesOkMeaning(s, false);
    PrefixPiecesOk(s, n, false);
    PiecesOkMeaning(s[..n], false);
  }

  /** A segment never has two dashes in a row, at the front, or at the back. */
  lemma NoDoubleDash(s: string, i: nat)
    requires NoDotPiece(s) && i + 1 < |s|
    ensures !(s[i] == '-' && s[i + 1] == '-')
  {
    PiecesOkMeaning(s, false);
    PiecesNoDoubleDash(s, i, false);
  }

  lemma {:induction false} PiecesNoDoubleDash(s: string, i: nat, seen: bool)
    requires PiecesOk(s, seen) && i + 1 < |s|
    ensures !(s[i] == '-' && s[i + 1] == '-')
  {
    if i > 0 {
      PiecesNoDoubleDash(s[1..], i - 1, if s[0] == '-' then false else seen || s[0] != '.');
    }
  }

  /** The filtered, rejoined name starts with a letter or digit and has only real pieces. */
  lemma JoinedPieces(trimmed: string)
    requires All(trimmed, IsSafe)
    requires trimmed != "" ==> IsAlnum(trimmed[0])
    ensures var joined := Join(DropDotParts(Split(trimmed, '-')), '-');
      && All(joined, IsSafe)
      && (joined != "" ==> IsAlnum(joined[0]) && NoDotPiece(joined))
      && (trimmed == "" ==> joined == "")
  {
    var parts := Split(trimmed, '-');
    var kept := DropDotParts(parts);
    SplitAll(trimmed, '-', IsSafe);
    JoinAll(kept, '-', IsSafe);
    if trimmed != "" {
      FirstPiece(trimmed);
      StripDots(parts[0]);
      assert kept[0] == parts[0];
      forall k | 0 <= k < |kept| ensures '-' !in kept[k] {
        var j :| 0 <= j < |parts| && parts[j] == kept[k];
      }
      SplitJoin(kept, '-');
      assert |kept| == 1 || Join(kept, '-') == kept[0] + ['-'] + Join(kept[1..], '-');
    }
  }

  lemma FirstPiece(s: string)
    requires s != "" && IsAlnum(s[0])
    ensures var p := Split(s, '-')[0]; p != "" && p[0] == s[0] && !OnlyDots(p)
  {
    OnlyDotsCons(s[0], Split(s[1..], '-')[0]);
  }

  /** The text before splitting: safe characters only, ends that are letters or digits. */
  lemma TrimmedText(ascii: string)
    ensures var trimmed := Strip(SubRuns(SubRuns(Strip(ascii, IsSpace), IsUnsafe, '-'), IsDash, '-'), IsTrim);
      All(trimmed, IsSafe) && (trimmed != "" ==> IsAlnum(trimmed[0]))
  {
    var spaced := Strip(ascii, IsSpace);
    var dashed := SubRuns(spaced, IsUnsafe, '-');
    SubRunsAll(spaced, IsUnsafe, '-', IsSafe);
    var single := SubRuns(dashed, IsDash, '-');
    SubRunsAll(dashed, IsDash, '-', IsSafe);
    StripKeeps(single, IsTrim, IsSafe);
    StripEnds(single, IsTrim);
  }

  lemma TruncatedText(joined: string)
    requires All(joined, IsSafe) && (joined != "" ==> IsAlnum(joined[0]) && NoDotPiece(joined))
    ensures var r := Truncate(joined, MaxDeviceSegment); r == "" || NormalSegment(r)
  {
    RStripSpec(if |joined| <= MaxDeviceSegment then joined else joined[..MaxDeviceSegment], IsTrim);
    var r := Truncate(joined, MaxDeviceSegment);
    assert r == joined[..|r|];
    if r != "" {
      PrefixNoDotPiece(joined, |r|);
    }
  }

  /** Every result of the sanitizer, apart from the fallback, is a normal segment. */
  lemma CleanIsNormal(ascii: string)
    ensures CleanAscii(ascii) == "" || NormalSegment(CleanAscii(ascii))
  {
    TrimmedText(ascii);
    var trimmed := Strip(SubRuns(SubRuns(Strip(ascii, IsSpace), IsUnsafe, '-'), IsDash, '-'), IsTrim);
    JoinedPieces(trimmed);
    TruncatedText(Join(DropDotParts(Split(trimmed, '-')), '-'));
  }

  lemma {:induction false} KeepAllPieces(parts: seq<string>)
    requires RealPieces(parts)
    ensures DropDotParts(parts) == parts
  {
    if parts != [] {
      StripDots(parts[0]);
      KeepAllPieces(parts[1..]);
    }
  }

  /** The sanitizer leaves a normal segment alone. */
  lemma CleanKeepsNormal(s: string)
    requires NormalSegment(s)
    ensures CleanAscii(s) == s
  {
    StripIdle(s, IsSpace);
    SubRunsIdle(s, IsUnsafe, '-');
    forall i | 0 <= i < |s| && IsDash(s[i]) ensures s[i] == '-' && (i + 1 < |s| ==> !IsDash(s[i + 1])) {
      if i + 1 < |s| { NoDoubleDash(s, i); }
    }
    SubRunsIdle(s, IsDash, '-');
    StripIdle(s, IsTrim);
    KeepAllPieces(Split(s, '-'));
    JoinSplit(s, '-');
  }

  lemma SafeIsAscii(s: string)
    requires All(s, IsSafe)
    ensures All(s, IsAscii)
  {
  }

  /** The fallback is itself a normal segment exactly for ids of at most 121 digits. */
  lemma FallbackIsNormal(id: int)
    ensures NormalSegment(Fallback(id)) <==> id >= 0 && |Decimal(id)| <= 121
  {
    var d := DecimalInt(id);
    var s := Fallback(id);
    assert s == "device" + ['-'] + d;
    if id < 0 {
      assert s[6] == '-' && s[7] == '-';
      if NormalSegment(s) { NoDoubleDash(s, 6); }
    } else {
      forall i | 0 <= i < |d| ensures d[i] != '-' { assert IsDigit(d[i]); }
      SplitCons("device", d, '-');
      SplitOne(d, '-');
      assert IsDigit(d[0]) && IsDigit(d[|d| - 1]);
      assert s[|s| - 1] == d[|d| - 1];
      OnlyDotsCons(d[0], d[1..]);
      assert d == [d[0]] + d[1..];
      OnlyDotsCons('d', "evice");
      assert "device" == ['d'] + "evice";
      forall i | 0 <= i < |s| ensures IsSafe(s[i]) {
        if i >= 7 { assert s[i] == d[i - 7] && IsDigit(d[i - 7]); }
      }
    }
  }

  /**
   * A string is a fixed point of the sanitizer exactly when it is a normal segment. This is
   * the check a recorded path's device segment has to pass.
   */
  lemma FixedPoints(nf: Normalizer, s: string, id: int)
    ensures DeviceDirectory(nf, Some(s), id) == s <==> NormalSegment(s)
  {
    if NormalSegment(s) {
      SafeIsAscii(s);
      CleanKeepsNormal(s);
    } else {
      CleanIsNormal(AsciiIgnore(nf(s)));
      FallbackNeverVanishes(nf, id);
    }
  }

  lemma FallbackNeverVanishes(nf: Normalizer, id: int)
    ensures Clean(nf, Fallback(id)) != ""
  {
    var s := Fallback(id);
    var d := DecimalInt(id);
    forall i | 0 <= i < |s| ensures IsSafe(s[i]) {
      if i >= 7 {
        assert s[i] == d[i - 7];
        if id >= 0 || i > 7 { assert IsDigit(s[i]); }
      }
    }
    SafeIsAscii(s);
    CleanStartsLike(s);
  }

  lemma TrimmedStart(s: string)
    requires s != "" && All(s, IsSafe) && IsAlnum(s[0]) && IsAlnum(s[|s| - 1])
    ensures var t := Strip(SubRuns(SubRuns(Strip(s, IsSpace), IsUnsafe, '-'), IsDash, '-'), IsTrim);
      t != "" && t[0] == s[0]
  {
    StripIdle(s, IsSpace);
    SubRunsIdle(s, IsUnsafe, '-');
    var single := SubRuns(s, IsDash, '-');
    assert single[0] == s[0];
    assert LStrip(single, IsTrim) == single;
    RStripSpec(single, IsTrim);
  }

  lemma KeptStart(trimmed: string)
    requires trimmed != "" && IsAlnum(trimmed[0])
    ensures var joined := Join(DropDotParts(Split(trimmed, '-')), '-'); joined != "" && IsAlnum(joined[0])
  {
    FirstPiece(trimmed);
    var first := Split(trimmed, '-')[0];
    StripDots(first);
    assert DropDotParts(Split(trimmed, '-'))[0] == first;
  }

  lemma TruncatedStart(joined: string)
    requires joined != "" && IsAlnum(joined[0])
    ensures Truncate(joined, MaxDeviceSegment) != ""
  {
    RStripSpec(if |joined| <= MaxDeviceSegment then joined else joined[..MaxDeviceSegment], IsTrim);
  }

  /** A safe name that starts and ends with a letter or digit is never cleaned away. */
  lemma CleanStartsLike(s: string)
    requires s != "" && All(s, IsSafe) && IsAlnum(s[0]) && IsAlnum(s[|s| - 1])
    ensures CleanAscii(s) != ""
  {
    TrimmedStart(s);
    var trimmed := Strip(SubRuns(SubRuns(Strip(s, IsSpace), IsUnsafe, '-'), IsDash, '-'), IsTrim);
    KeptStart(trimmed);
    TruncatedStart(Join(DropDotParts(Split(trimmed, '-')), '-'));
  }

  /**
   * Sanitizing twice is sanitizing once, exactly when the name survives sanitizing or the
   * fallback is built from an id of 1 to 121 digits.
   */
  lemma SanitizerIdempotent(nf: Normalizer, name: Option<string>, id: int)
    ensures var once := DeviceDirectory(nf, name, id);
      DeviceDirectory(nf, Some(once), id) == once <==>
        Clean(nf, if name.Some? then name.value else "") != "" || (id >= 0 && |Decimal(id)| <= 121)
  {
    var once := DeviceDirectory(nf, name, id);
    CleanIsNormal(AsciiIgnore(nf(if name.Some? then name.value else "")));
    FixedPoints(nf, once, id);
    FallbackIsNormal(id);
  }

  lemma NothingToClean(nf: Normalizer)
    ensures Clean(nf, "") == ""
  {
    assert nf("") == "" && AsciiIgnore("") == "";
    assert Split("", '-') == [""];
    StripDots("");
    assert DropDotParts([""]) == [];
  }

  /** Without a name, a negative id or one of more than 121 digits gives a name that a second pass changes. */
  lemma LongIdChanges(nf: Normalizer, id: int, digits: nat)
    requires id < 0 || (digits > 121 && id == Pow10(digits - 1))
    ensures var once := DeviceDirectory(nf, None, id); DeviceDirectory(nf, Some(once), id) != once
  {
    NothingToClean(nf);
    if id >= 0 { DecimalAtLeast(id, digits - 1); }
    SanitizerIdempotent(nf, None, id);
  }

  /** With a database key for an id, every name at all gives a normal segment, stable under a second pass. */
  lemma DeviceDirectoryIsNormal(nf: Normalizer, name: Option<string>, id: int)
    requires 0 <= id < 0x8000_0000_0000_0000
    ensures var d := DeviceDirectory(nf, name, id);
      NormalSegment(d) && DeviceDirectory(nf, Some(d), id) == d
  {
    CleanIsNormal(AsciiIgnore(nf(if name.Some? then name.value else "")));
    DecimalOfKey(id);
    FallbackIsNormal(id);
    FixedPoints(nf, DeviceDirectory(nf, name, id), id);
  }

  // ---- Times, stems and the two path builders ----

  /** A creation time already converted to UTC; years below 1000 are out of range for a database row. */
  datatype Moment = Moment(year: nat, month: nat, day: nat, hour: nat, minute: nat, second: nat)

  type UtcTime = m: Moment |
      1000 <= m.year < 10000 && m.month < 100 && m.day < 100 && m.hour < 100 && m.minute < 100 && m.second < 100
    witness Moment(2026, 1, 1, 0, 0, 0)

  predicate IsUuidChar(c: char) { '0' <= c <= '9' || 'a' <= c <= 'f' || c == '-' }

  predicate IsUuid(s: string) { |s| == 36 && forall i | 0 <= i < |s| :: IsUuidChar(s[i]) }

  type Uuid = s: string | IsUuid(s) witness seq(36, _ => '0')

  function Pad2(n: nat): (s: string)
    requires n < 100
    ensures |s| == 2
  {
    [Digit(n / 10), Digit(n % 10)]
  }

  /** %Y-%m-%d_%H-%M-%S */
  function Timestamp(t: UtcTime): (s: string)
    ensures |s| == 19
  {
    Pad2(t.year / 100) + Pad2(t.year % 100) + "-" + Pad2(t.month) + "-" + Pad2(t.day) + "_"
    + Pad2(t.hour) + "-" + Pad2(t.minute) + "-" + Pad2(t.second)
  }

  function FilenameStem(nf: Normalizer, name: Option<string>, id: int, created: UtcTime): string {
    Truncate(DeviceDirectory(nf, name, id), MaxStemSegment) + "_" + Timestamp(created)
  }

  /** Which identifier, if any, the caller of ftp_revision_destination_path passes. */
  datatype RevisionKey = ById(id: int) | ByUuid(uuid: Uuid) | ByTime

  /** None stands for the ValueError on an id that is not positive. */
  function FtpRevisionPath(nf: Normalizer, base: string, name: Option<string>, id: int, created: UtcTime,
                           key: RevisionKey): Option<string>
  {
    var path := JoinPaths(Strip(base, IsSlash),
                          ["devices", DeviceDirectory(nf, name, id), "backups", Timestamp(created)]);
    match key
    case ById(pk) => if pk <= 0 then None else Some("/" + LStrip(path + "-r" + DecimalInt(pk), IsSlash))
    case ByUuid(uuid) => Some("/" + LStrip(JoinPath(path, uuid), IsSlash))
    case ByTime => Some("/" + LStrip(path, IsSlash))
  }

  function RevisionPath(nf: Normalizer, base: string, name: Option<string>, id: int, uuid: Uuid): string {
    "/" + LStrip(JoinPaths(Strip(base, IsSlash),
                           ["devices", DeviceDirectory(nf, name, id), "revisions", uuid]), IsSlash)
  }

  lemma TimestampSafe(t: UtcTime)
    ensures var s := Timestamp(t); All(s, IsSafe) && IsDigit(s[0]) && IsDigit(s[18])
  {
  }

  /** Times that differ in any field down to the second are written differently. */
  lemma TimestampInjective(t: UtcTime, u: UtcTime)
    requires Timestamp(t) == Timestamp(u)
    ensures t == u
  {
    var a, b := Timestamp(t), Timestamp(u);
    assert a[0] == b[0] && a[1] == b[1] && a[2] == b[2] && a[3] == b[3];
    assert a[5] == b[5] && a[6] == b[6] && a[8] == b[8] && a[9] == b[9];
    assert a[11] == b[11] && a[12] == b[12] && a[14] == b[14] && a[15] == b[15];
    assert a[17] == b[17] && a[18] == b[18];
    DigitsInjective(t.year / 100, u.year / 100);
    DigitsInjective(t.year % 100, u.year % 100);
    DigitsInjective(t.month, u.month);
    DigitsInjective(t.day, u.day);
    DigitsInjective(t.hour, u.hour);
    DigitsInjective(t.minute, u.minute);
    DigitsInjective(t.second, u.second);
  }

  lemma DigitsInjective(m: nat, n: nat)
    requires m < 100 && n < 100
    ensures Digit(m / 10) == Digit(n / 10) && Digit(m % 10) == Digit(n % 10) ==> m == n
  {
  }

  /** The stem of a backup is the same whether taken from the original name or from its directory. */
  lemma StemFromDirectory(nf: Normalizer, name: Option<string>, id: int, created: UtcTime)
    requires 0 <= id < 0x8000_0000_0000_0000
    ensures FilenameStem(nf, Some(DeviceDirectory(nf, name, id)), id, created) == FilenameStem(nf, name, id, created)
  {
    DeviceDirectoryIsNormal(nf, name, id);
  }
}
