/**
 * The line filter that makes two Ceragon IP-50 configuration dumps comparable
 * (drivers/native_exports.py, CeragonIP50Driver.normalize). Bytes are characters below 256.
 */
module CeragonFilter {
  import opened Text

  predicate IsSpace(c: char) { c == ' ' || '\t' <= c <= '\r' }

  predicate IsBreak(c: char) { c == '\n' || c == '\r' }

  function LowerChar(c: char): char { if 'A' <= c <= 'Z' then c + 32 as char else c }

  function Lower(s: string): (r: string)
    ensures |r| == |s|
  {
    seq(|s|, i requires 0 <= i < |s| => LowerChar(s[i]))
  }

  const PREFIXES: seq<string> := [
    "creation_date_time", "-signature", "configuration-table-file-transfer-config.",
    "configuration-table-file-transfer-log-status."]

  const HEADINGS: seq<string> := ["configuration-table-file-transfer-config",
                                  "configuration-table-file-transfer-log-status"]

  const CLOSING: string := "%%%"

  /** What a line is to the filter. */
  datatype Kind = Assignment | TableStart | TableEnd | Ordinary

  predicate Volatile(line: string) { exists k :: 0 <= k < |PREFIXES| && PREFIXES[k] <= Lower(line) }

  function KindOf(line: string): Kind {
    if Volatile(line) then Assignment
    else if line in HEADINGS then TableStart
    else if line == CLOSING then TableEnd
    else Ordinary
  }

  // ---- The filter on lines, whatever the kinds of lines are ----

  predicate Dropped(k: Kind) { k == Assignment || k == TableStart }

  /** skip_table_rows after a line. */
  predicate SkipNext(skip: bool, k: Kind) { k == TableStart || (skip && k != TableEnd) }

  predicate SkipAfter(kind: string -> Kind, lines: seq<string>) {
    lines != [] && SkipNext(SkipAfter(kind, lines[..|lines| - 1]), kind(lines[|lines| - 1]))
  }

  function Filter(kind: string -> Kind, lines: seq<string>): seq<string> {
    if lines == [] then []
    else
      var before, line := lines[..|lines| - 1], lines[|lines| - 1];
      Filter(kind, before) + if Dropped(kind(line)) || SkipAfter(kind, before) then [] else [line]
  }

  /** Line i lies in a volatile table: after its heading, and not after the line that closes it. */
  ghost predicate InTable(kind: string -> Kind, lines: seq<string>, i: nat)
    requires i <= |lines|
  {
    exists j :: 0 <= j < i && kind(lines[j]) == TableStart && forall k | j < k < i :: kind(lines[k]) != TableEnd
  }

  lemma FilterOneMore(kind: string -> Kind, lines: seq<string>, line: string)
    ensures Filter(kind, lines + [line]) ==
      Filter(kind, lines) + if Dropped(kind(line)) || SkipAfter(kind, lines) then [] else [line]
    ensures SkipAfter(kind, lines + [line]) == SkipNext(SkipAfter(kind, lines), kind(line))
  {
    assert (lines + [line])[..|lines + [line]| - 1] == lines;
  }

  lemma InTableOneMore(kind: string -> Kind, lines: seq<string>, line: string)
    ensures InTable(kind, lines + [line], |lines| + 1) <==> SkipNext(InTable(kind, lines, |lines|), kind(line))
  {
    var all, n := lines + [line], |lines|;
    assert all[n] == line && forall j | 0 <= j < n :: all[j] == lines[j];
    if InTable(kind, all, n + 1) {
      var j :| 0 <= j < n + 1 && kind(all[j]) == TableStart && forall k | j < k < n + 1 :: kind(all[k]) != TableEnd;
      if j < n {
        assert kind(lines[j]) == TableStart && forall k | j < k < n :: kind(lines[k]) != TableEnd;
        assert kind(all[n]) != TableEnd;
      }
    }
    if InTable(kind, lines, n) && kind(line) != TableEnd {
      var j :| 0 <= j < n && kind(lines[j]) == TableStart && forall k | j < k < n :: kind(lines[k]) != TableEnd;
      assert kind(all[j]) == TableStart && forall k | j < k < n + 1 :: kind(all[k]) != TableEnd;
    }
  }

  lemma {:induction false} SkipMeansInTable(kind: string -> Kind, lines: seq<string>)
    ensures SkipAfter(kind, lines) <==> InTable(kind, lines, |lines|)
  {
    if lines != [] {
      var front := lines[..|lines| - 1];
      SkipMeansInTable(kind, front);
      InTableOneMore(kind, front, lines[|lines| - 1]);
      assert lines == front + [lines[|lines| - 1]];
    }
  }

  lemma InTableOfPrefix(kind: string -> Kind, lines: seq<string>, i: nat)
    requires i <= |lines|
    ensures InTable(kind, lines[..i], i) <==> InTable(kind, lines, i)
  {
    forall k | 0 <= k < i ensures lines[..i][k] == lines[k] {}
  }

  /** A line is kept unless it is a volatile assignment, a volatile table's heading or inside such a table. */
  lemma KeptExactly(kind: string -> Kind, lines: seq<string>, i: nat)
    requires i < |lines|
    ensures Filter(kind, lines[..i + 1]) ==
      Filter(kind, lines[..i]) + if Dropped(kind(lines[i])) || InTable(kind, lines, i) then [] else [lines[i]]
  {
    assert lines[..i + 1] == lines[..i] + [lines[i]];
    FilterOneMore(kind, lines[..i], lines[i]);
    SkipMeansInTable(kind, lines[..i]);
    InTableOfPrefix(kind, lines, i);
  }

  ghost predicate AllPlain(kind: string -> Kind, lines: seq<string>) {
    forall line | line in lines :: !Dropped(kind(line))
  }

  lemma {:induction false} FilterPlain(kind: string -> Kind, lines: seq<string>)
    ensures AllPlain(kind, Filter(kind, lines)) && forall line | line in Filter(kind, lines) :: line in lines
  {
    if lines != [] { FilterPlain(kind, lines[..|lines| - 1]); }
  }

  lemma {:induction false} PlainStays(kind: string -> Kind, lines: seq<string>)
    requires AllPlain(kind, lines)
    ensures Filter(kind, lines) == lines && !SkipAfter(kind, lines)
  {
    if lines != [] {
      var front, line := lines[..|lines| - 1], lines[|lines| - 1];
      assert line in lines && lines == front + [line];
      PlainStays(kind, front);
      FilterOneMore(kind, front, line);
    }
  }

  /** Filtering twice is filtering once. */
  lemma FilterIdempotent(kind: string -> Kind, lines: seq<string>)
    ensures Filter(kind, Filter(kind, lines)) == Filter(kind, lines)
  {
    FilterPlain(kind, lines);
    PlainStays(kind, Filter(kind, lines));
  }

  /** The lines kept of a remainder that starts inside or outside a volatile table. */
  function FilterFrom(kind: string -> Kind, skip: bool, lines: seq<string>): seq<string>
    decreases |lines|
  {
    if lines == [] then []
    else (if Dropped(kind(lines[0])) || skip then [] else [lines[0]])
         + FilterFrom(kind, SkipNext(skip, kind(lines[0])), lines[1..])
  }

  lemma {:induction false} FilterSplit(kind: string -> Kind, front: seq<string>, rest: seq<string>)
    ensures Filter(kind, front + rest) == Filter(kind, front) + FilterFrom(kind, SkipAfter(kind, front), rest)
    decreases |rest|
  {
    if rest == [] {
      assert front + rest == front;
    } else {
      var line, more, after := rest[0], front + [rest[0]], rest[1..];
      FilterSplit(kind, more, after);
      assert front + rest == more + after;
      var kept := if Dropped(kind(line)) || SkipAfter(kind, front) then [] else [line];
      FilterOneMore(kind, front, line);
      Regroup(Filter(kind, front), kept, FilterFrom(kind, SkipAfter(kind, more), after));
    }
  }

  /** What follows is filtered alike after beginnings that were filtered alike. */
  lemma SameEnd(kind: string -> Kind, a: seq<string>, b: seq<string>, rest: seq<string>)
    requires Filter(kind, a) == Filter(kind, b) && SkipAfter(kind, a) == SkipAfter(kind, b)
    ensures Filter(kind, a + rest) == Filter(kind, b + rest)
  {
    FilterSplit(kind, a, rest);
    FilterSplit(kind, b, rest);
  }

  /** A volatile assignment makes no difference, wherever it stands. */
  lemma VolatileLineIgnored(kind: string -> Kind, a: seq<string>, line: string, b: seq<string>)
    requires kind(line) == Assignment
    ensures Filter(kind, a + [line] + b) == Filter(kind, a + b)
  {
    FilterOneMore(kind, a, line);
    SameEnd(kind, a + [line], a, b);
  }

  lemma {:induction false} RowsSkipped(kind: string -> Kind, rows: seq<string>, rest: seq<string>)
    requires forall row | row in rows :: kind(row) != TableEnd
    ensures FilterFrom(kind, true, rows + rest) == FilterFrom(kind, true, rest)
    decreases |rows|
  {
    if rows == [] {
      assert rows + rest == rest;
    } else {
      RowsSkipped(kind, rows[1..], rest);
      assert (rows + rest)[0] == rows[0] && (rows + rest)[1..] == rows[1..] + rest;
    }
  }

  /** What is left of an open table and the lines after its rows. */
  lemma OpenTable(kind: string -> Kind, open: seq<string>, rows: seq<string>, rest: seq<string>)
    requires SkipAfter(kind, open) && forall row | row in rows :: kind(row) != TableEnd
    ensures Filter(kind, open + rows + rest) == Filter(kind, open) + FilterFrom(kind, true, rest)
  {
    Regroup(open, rows, rest);
    FilterSplit(kind, open, rows + rest);
    RowsSkipped(kind, rows, rest);
  }

  lemma HeadingOpens(kind: string -> Kind, a: seq<string>, heading: string)
    requires kind(heading) == TableStart
    ensures Filter(kind, a + [heading]) == Filter(kind, a) && SkipAfter(kind, a + [heading])
  {
    FilterOneMore(kind, a, heading);
    assert Filter(kind, a) + [] == Filter(kind, a);
  }

  lemma TableCloses(kind: string -> Kind, close: string, b: seq<string>)
    requires kind(close) == TableEnd
    ensures FilterFrom(kind, true, [close] + b) == FilterFrom(kind, false, b)
  {
    var rest := [close] + b;
    assert rest[0] == close && rest[1..] == b;
    assert [] + FilterFrom(kind, false, b) == FilterFrom(kind, false, b);
  }

  /** A volatile table makes no difference: neither its rows nor whether it is there at all. */
  lemma TableIgnored(kind: string -> Kind, a: seq<string>, heading: string, rows: seq<string>, close: string,
                     b: seq<string>)
    requires kind(heading) == TableStart && kind(close) == TableEnd && forall row | row in rows :: kind(row) != TableEnd
    requires !SkipAfter(kind, a)
    ensures Filter(kind, a + [heading] + rows + [close] + b) == Filter(kind, a + b)
  {
    var all, kept := a + [heading] + rows + [close] + b, Filter(kind, a);
    assert Filter(kind, all) == kept + FilterFrom(kind, true, [close] + b) by {
      Regroup(a + [heading] + rows, [close], b);
      HeadingOpens(kind, a, heading);
      OpenTable(kind, a + [heading], rows, [close] + b);
    }
    TableCloses(kind, close, b);
    FilterSplit(kind, a, b);
  }

  /** Wherever a volatile table stands, even inside another one, its rows make no difference. */
  lemma RowsIgnored(kind: string -> Kind, a: seq<string>, heading: string, rows: seq<string>, others: seq<string>,
                    close: string, b: seq<string>)
    requires kind(heading) == TableStart
    requires (forall row | row in rows :: kind(row) != TableEnd) && forall row | row in others :: kind(row) != TableEnd
    ensures Filter(kind, a + [heading] + rows + [close] + b) == Filter(kind, a + [heading] + others + [close] + b)
  {
    Regroup(a + [heading] + rows, [close], b);
    Regroup(a + [heading] + others, [close], b);
    HeadingOpens(kind, a, heading);
    OpenTable(kind, a + [heading], rows, [close] + b);
    OpenTable(kind, a + [heading], others, [close] + b);
  }

  lemma Differs(prefix: string, line: string, i: nat)
    requires i < |prefix| && (i < |line| ==> LowerChar(line[i]) != prefix[i])
    ensures !(prefix <= Lower(line))
  {
    assert i < |line| ==> Lower(line)[i] == LowerChar(line[i]);
  }

  lemma NotVolatile(line: string, i0: nat, i1: nat, i2: nat, i3: nat)
    requires i0 < |PREFIXES[0]| && (i0 < |line| ==> LowerChar(line[i0]) != PREFIXES[0][i0])
    requires i1 < |PREFIXES[1]| && (i1 < |line| ==> LowerChar(line[i1]) != PREFIXES[1][i1])
    requires i2 < |PREFIXES[2]| && (i2 < |line| ==> LowerChar(line[i2]) != PREFIXES[2][i2])
    requires i3 < |PREFIXES[3]| && (i3 < |line| ==> LowerChar(line[i3]) != PREFIXES[3][i3])
    ensures !Volatile(line)
  {
    Differs(PREFIXES[0], line, i0);
    Differs(PREFIXES[1], line, i1);
    Differs(PREFIXES[2], line, i2);
    Differs(PREFIXES[3], line, i3);
  }

  lemma ClosingIsEnd()
    ensures KindOf(CLOSING) == TableEnd
  {
    assert CLOSING[0] == '%' && CLOSING[1] == '%';
    NotVolatile(CLOSING, 0, 0, 0, 0);
  }

  /** The headings are not volatile assignments themselves, though these begin with them. */
  lemma HeadingsAreStarts()
    ensures KindOf(HEADINGS[0]) == KindOf(HEADINGS[1]) == TableStart
  {
    NotVolatile(HEADINGS[0], 1, 0, 40, 40);
    NotVolatile(HEADINGS[1], 1, 0, 34, 44);
  }

  // ---- bytes.splitlines ----

  ghost predicate OneLine(line: string) { forall i | 0 <= i < |line| :: !IsBreak(line[i]) }

  function FirstLine(s: string): (line: string)
    ensures line <= s && OneLine(line) && (|line| < |s| ==> IsBreak(s[|line|]))
  {
    if s == "" || IsBreak(s[0]) then "" else [s[0]] + FirstLine(s[1..])
  }

  /** After a line: \n, \r or both. */
  function AfterBreak(rest: string): (r: string)
    requires rest != ""
    ensures |r| < |rest|
  {
    if rest[0] == '\r' && |rest| > 1 && rest[1] == '\n' then rest[2..] else rest[1..]
  }

  function SplitLines(s: string): (lines: seq<string>)
    ensures forall line | line in lines :: OneLine(line)
    decreases |s|
  {
    if s == "" then []
    else
      var line := FirstLine(s);
      var rest := s[|line|..];
      [line] + if rest == "" then [] else SplitLines(AfterBreak(rest))
  }

  lemma {:induction false} FirstLineIs(line: string, rest: string)
    requires OneLine(line)
    ensures FirstLine(line + ['\n'] + rest) == line
  {
    var s := line + ['\n'] + rest;
    if line != "" {
      FirstLineIs(line[1..], rest);
      assert s[1..] == line[1..] + ['\n'] + rest && s[0] == line[0];
      assert line == [line[0]] + line[1..];
    }
  }

  lemma SplitLinesCons(line: string, rest: string)
    requires OneLine(line)
    ensures SplitLines(line + ['\n'] + rest) == [line] + SplitLines(rest)
  {
    var s := line + ['\n'] + rest;
    FirstLineIs(line, rest);
    assert s[|line|..] == ['\n'] + rest;
    assert AfterBreak(s[|line|..]) == rest;
  }

  /** Lines joined and ended by \n are split into the same lines. */
  lemma {:induction false} SplitLinesJoin(lines: seq<string>)
    requires lines != [] && forall line | line in lines :: OneLine(line)
    ensures SplitLines(Join(lines, '\n') + "\n") == lines
  {
    assert "\n" == ['\n'];
    if |lines| == 1 {
      assert lines[0] + "\n" == lines[0] + ['\n'] + "";
      SplitLinesCons(lines[0], "");
    } else {
      var rest := Join(lines[1..], '\n') + "\n";
      SplitLinesJoin(lines[1..]);
      assert Join(lines, '\n') + "\n" == lines[0] + ['\n'] + rest;
      SplitLinesCons(lines[0], rest);
    }
  }

  // ---- normalize ----

  function Trimmed(lines: seq<string>): (r: seq<string>)
    ensures |r| == |lines|
  {
    seq(|lines|, i requires 0 <= i < |lines| => RStrip(lines[i], IsSpace))
  }

  function Normalize(kind: string -> Kind, content: string): string {
    Strip(Join(Filter(kind, Trimmed(SplitLines(content))), '\n'), IsSpace) + "\n"
  }

  /** The loop of normalize over the trimmed lines. */
  method FilterLines(kind: string -> Kind, lines: seq<string>) returns (normalized: seq<string>)
    ensures normalized == Filter(kind, lines)
  {
    normalized := [];
    var skip := false;
    for i := 0 to |lines|
      invariant normalized == Filter(kind, lines[..i]) && skip == SkipAfter(kind, lines[..i])
    {
      var line := lines[i];
      assert lines[..i + 1] == lines[..i] + [line];
      FilterOneMore(kind, lines[..i], line);
      if kind(line) == Assignment { continue; }
      if kind(line) == TableStart {
        skip := true;
        continue;
      }
      if skip {
        if kind(line) == TableEnd { skip := false; }
        continue;
      }
      normalized := normalized + [line];
    }
    assert lines[..|lines|] == lines;
  }

  method NormalizeDump(content: string) returns (r: string)
    ensures r == Normalize(KindOf, content)
  {
    var lines := FilterLines(KindOf, Trimmed(SplitLines(content)));
    return Strip(Join(lines, '\n'), IsSpace) + "\n";
  }

  // ---- Normalizing twice ----

  /** A line as the filter sees it: without a break, and without space at its end. */
  ghost predicate Tidy(line: string) { OneLine(line) && (line != "" ==> !IsSpace(line[|line| - 1])) }

  ghost predicate AllTidy(lines: seq<string>) { forall line | line in lines :: Tidy(line) }

  lemma TrimmedTidy(lines: seq<string>)
    requires forall line | line in lines :: OneLine(line)
    ensures AllTidy(Trimmed(lines))
  {
    forall i | 0 <= i < |lines| ensures Tidy(Trimmed(lines)[i]) {
      RStripSpec(lines[i], IsSpace);
      assert lines[i] in lines;
    }
  }

  /** The lines that are left after the final strip: no blank ones at the ends, and no leading space. */
  function Core(lines: seq<string>): (core: seq<string>)
    ensures |core| <= |lines|
  {
    if lines == [] then []
    else if lines[0] == "" then Core(lines[1..])
    else if lines[|lines| - 1] == "" then Core(lines[..|lines| - 1])
    else [LStrip(lines[0], IsSpace)] + lines[1..]
  }

  lemma {:induction false} LStripFront(line: string, rest: string)
    requires Tidy(line) && line != ""
    ensures LStrip(line + rest, IsSpace) == LStrip(line, IsSpace) + rest
    ensures var r := LStrip(line, IsSpace); Tidy(r) && r != "" && !IsSpace(r[0])
  {
    assert (line + rest)[0] == line[0] && (line + rest)[1..] == line[1..] + rest;
    if IsSpace(line[0]) {
      assert line[1..] != "";
      LStripFront(line[1..], rest);
    }
  }

  lemma RStripBack(front: string, line: string)
    requires Tidy(line) && line != ""
    ensures RStrip(front + line, IsSpace) == front + line
  {
  }

  /** Stripping the joined lines joins the core. */
  lemma {:induction false} StripJoin(lines: seq<string>)
    requires AllTidy(lines)
    ensures Strip(Join(lines, '\n'), IsSpace) == Join(Core(lines), '\n')
    decreases |lines|
  {
    if lines == [] {
    } else if lines[0] == "" {
      StripJoin(lines[1..]);
      if |lines| > 1 {
        var rest := Join(lines[1..], '\n');
        assert Join(lines, '\n') == ['\n'] + rest;
        assert (['\n'] + rest)[1..] == rest;
      }
    } else if lines[|lines| - 1] == "" {
      var front := lines[..|lines| - 1];
      StripJoin(front);
      StripBlankEnd(front);
      assert lines == front + [""];
    } else {
      assert lines[0] in lines && lines[|lines| - 1] in lines;
      CoreEnds(lines);
    }
  }

  /** What follows the first line in joined lines. */
  function AfterFirst(lines: seq<string>): string {
    if |lines| <= 1 then "" else ['\n'] + Join(lines[1..], '\n')
  }

  lemma JoinFirst(lines: seq<string>)
    requires lines != []
    ensures Join(lines, '\n') == lines[0] + AfterFirst(lines)
  {
  }

  lemma StripBlankEnd(front: seq<string>)
    requires AllTidy(front) && front != [] && front[0] != ""
    ensures Strip(Join(front + [""], '\n'), IsSpace) == Strip(Join(front, '\n'), IsSpace)
  {
    JoinAppend(front, [""], '\n');
    JoinFirst(front);
    assert Join(front + [""], '\n') == front[0] + AfterFirst(front) + ['\n'];
    StripLastBreak(front[0], AfterFirst(front));
  }

  lemma StripLastBreak(line: string, rest: string)
    requires Tidy(line) && line != ""
    ensures Strip(line + rest + ['\n'], IsSpace) == Strip(line + rest, IsSpace)
  {
    LStripFront(line, rest);
    LStripFront(line, rest + ['\n']);
    assert line + rest + ['\n'] == line + (rest + ['\n']);
    var l := LStrip(line + rest, IsSpace);
    assert LStrip(line + rest + ['\n'], IsSpace) == l + ['\n'];
    assert (l + ['\n'])[..|l|] == l;
  }

  /** Joined lines end with the last of them. */
  lemma {:induction false} EndsWithLast(lines: seq<string>) returns (front: string)
    requires lines != []
    ensures Join(lines, '\n') == front + lines[|lines| - 1]
  {
    if |lines| == 1 {
      front := "";
    } else {
      front := EndsWithLast(lines[1..]);
      assert lines[0] + ['\n'] + (front + lines[|lines| - 1]) == (lines[0] + ['\n'] + front) + lines[|lines| - 1];
      front := lines[0] + ['\n'] + front;
    }
  }

  lemma StripLeft(lines: seq<string>)
    requires lines != [] && Tidy(lines[0]) && lines[0] != ""
    ensures LStrip(Join(lines, '\n'), IsSpace) == Join([LStrip(lines[0], IsSpace)] + lines[1..], '\n')
  {
    var core := [LStrip(lines[0], IsSpace)] + lines[1..];
    JoinFirst(lines);
    JoinFirst(core);
    assert core[1..] == lines[1..];
    LStripFront(lines[0], AfterFirst(lines));
  }

  lemma StripRight(lines: seq<string>)
    requires lines != [] && Tidy(lines[|lines| - 1]) && lines[|lines| - 1] != ""
    ensures RStrip(Join(lines, '\n'), IsSpace) == Join(lines, '\n')
  {
    var front := EndsWithLast(lines);
    RStripBack(front, lines[|lines| - 1]);
  }

  lemma CoreEnds(lines: seq<string>)
    requires lines != [] && Tidy(lines[0]) && Tidy(lines[|lines| - 1]) && lines[0] != "" && lines[|lines| - 1] != ""
    ensures RStrip(LStrip(Join(lines, '\n'), IsSpace), IsSpace) == Join([LStrip(lines[0], IsSpace)] + lines[1..], '\n')
  {
    LStripFront(lines[0], "");
    assert lines[0] + "" == lines[0];
    StripLeft(lines);
    var core := [LStrip(lines[0], IsSpace)] + lines[1..];
    assert |lines| > 1 ==> core[|core| - 1] == lines[|lines| - 1];
    StripRight(core);
  }

  lemma {:induction false} CoreShape(lines: seq<string>)
    requires AllTidy(lines)
    ensures var core := Core(lines);
      && AllTidy(core) && Core(core) == core
      && (core != [] ==> core[0] != "" && !IsSpace(core[0][0]))
      && forall i | 1 <= i < |core| :: core[i] in lines
    decreases |lines|
  {
    if lines == [] {
    } else if lines[0] == "" {
      CoreShape(lines[1..]);
    } else if lines[|lines| - 1] == "" {
      CoreShape(lines[..|lines| - 1]);
    } else {
      LStripFront(lines[0], "");
      assert lines[0] + "" == lines[0];
      var first := LStrip(lines[0], IsSpace);
      assert LStrip(first, IsSpace) == first;
      var core := Core(lines);
      forall line | line in core ensures Tidy(line) { assert line == first || line in lines; }
    }
  }

  lemma {:induction false} FilterShorter(kind: string -> Kind, lines: seq<string>)
    ensures |Filter(kind, lines)| <= |lines|
    ensures (exists i :: 0 <= i < |lines| && Dropped(kind(lines[i]))) ==> |Filter(kind, lines)| < |lines|
  {
    if lines != [] {
      FilterShorter(kind, lines[..|lines| - 1]);
    }
  }

  lemma TidyStays(lines: seq<string>)
    requires AllTidy(lines)
    ensures Trimmed(lines) == lines
  {
    forall i | 0 <= i < |lines| ensures Trimmed(lines)[i] == lines[i] { assert Tidy(lines[i]); }
  }

  /** What normalize keeps of a dump, line by line. */
  function Essence(kind: string -> Kind, content: string): seq<string> {
    Core(Filter(kind, Trimmed(SplitLines(content))))
  }

  /** The result is made of the essential lines. */
  lemma NormalizeIsEssence(kind: string -> Kind, content: string)
    ensures Normalize(kind, content) == Join(Essence(kind, content), '\n') + "\n"
    ensures var core := Essence(kind, content);
      && AllTidy(core) && Core(core) == core && (core != [] ==> core[0] != "")
      && forall i | 1 <= i < |core| :: !Dropped(kind(core[i]))
  {
    var lines := Trimmed(SplitLines(content));
    TrimmedTidy(SplitLines(content));
    FilterPlain(kind, lines);
    assert AllTidy(Filter(kind, lines));
    StripJoin(Filter(kind, lines));
    CoreShape(Filter(kind, lines));
  }

  lemma NothingLeft(kind: string -> Kind)
    ensures Normalize(kind, "\n") == "\n"
  {
    assert "\n" == [] + ['\n'] + [];
    SplitLinesCons("", "");
    assert SplitLines("\n") == [""] && Trimmed([""]) == [""];
    FilterOneMore(kind, [], "");
    assert [] + [""] == [""];
  }

  /** Lines that end in nothing but their breaks are read back as they are. */
  lemma ReadBack(kind: string -> Kind, core: seq<string>)
    requires core != [] && AllTidy(core)
    ensures Essence(kind, Join(core, '\n') + "\n") == Core(Filter(kind, core))
  {
    assert forall line | line in core :: OneLine(line) by { assert forall line | line in core :: Tidy(line); }
    SplitLinesJoin(core);
    TidyStays(core);
  }

  /** The filter keeps line k. */
  ghost predicate Kept(kind: string -> Kind, lines: seq<string>, k: nat)
    requires k < |lines|
  {
    !Dropped(kind(lines[k])) && !InTable(kind, lines, k)
  }

  /** Line i is the first that is kept and not blank. */
  ghost predicate FirstKept(kind: string -> Kind, lines: seq<string>, i: nat) {
    && i < |lines| && Kept(kind, lines, i) && lines[i] != ""
    && forall k | 0 <= k < i && Kept(kind, lines, k) :: lines[k] == ""
  }

  /** The first line that is kept and not blank is a volatile one behind spaces. */
  ghost predicate Exposed(kind: string -> Kind, content: string) {
    var lines := Trimmed(SplitLines(content));
    exists i: nat :: FirstKept(kind, lines, i) && Dropped(kind(LStrip(lines[i], IsSpace)))
  }

  /** The first line that is not blank. */
  function FirstText(lines: seq<string>): Option<string> {
    if lines == [] then None
    else
      var first, line := FirstText(lines[..|lines| - 1]), lines[|lines| - 1];
      if first.Some? then first else if line != "" then Some(line) else None
  }

  lemma {:induction false} FirstTextFront(lines: seq<string>)
    requires lines != []
    ensures FirstText(lines) == if lines[0] != "" then Some(lines[0]) else FirstText(lines[1..])
  {
    var front := lines[..|lines| - 1];
    if front != [] {
      FirstTextFront(front);
      assert lines[1..][..|lines| - 2] == front[1..];
    }
  }

  lemma {:induction false} CoreStart(lines: seq<string>)
    ensures Core(lines) == [] <==> FirstText(lines) == None
    ensures Core(lines) != [] ==> FirstText(lines).Some? && Core(lines)[0] == LStrip(FirstText(lines).value, IsSpace)
    decreases |lines|
  {
    if lines != [] {
      FirstTextFront(lines);
      if lines[0] == "" {
        CoreStart(lines[1..]);
      } else if lines[|lines| - 1] == "" {
        CoreStart(lines[..|lines| - 1]);
      }
    }
  }

  lemma KeptOfPrefix(kind: string -> Kind, lines: seq<string>, line: string, k: nat)
    requires k < |lines|
    ensures Kept(kind, lines + [line], k) <==> Kept(kind, lines, k)
  {
    InTableOfPrefix(kind, lines + [line], k);
    InTableOfPrefix(kind, lines, k);
    assert (lines + [line])[..k] == lines[..k];
  }

  lemma FirstTextOneMore(lines: seq<string>, line: string)
    ensures FirstText(lines + [line]) ==
      if FirstText(lines).Some? then FirstText(lines) else if line != "" then Some(line) else None
  {
    assert (lines + [line])[..|lines + [line]| - 1] == lines;
  }

  lemma {:induction false} FirstKeptIs(kind: string -> Kind, lines: seq<string>) returns (i: Option<nat>)
    ensures i.Some? ==> FirstKept(kind, lines, i.value) && FirstText(Filter(kind, lines)) == Some(lines[i.value])
    ensures i.None? ==> FirstText(Filter(kind, lines)) == None
    ensures i.None? ==> forall k | 0 <= k < |lines| && Kept(kind, lines, k) :: lines[k] == ""
  {
    if lines == [] { return None; }
    var front, line := lines[..|lines| - 1], lines[|lines| - 1];
    assert lines == front + [line];
    i := FirstKeptIs(kind, front);
    forall k | 0 <= k < |front| ensures Kept(kind, lines, k) <==> Kept(kind, front, k) {
      KeptOfPrefix(kind, front, line, k);
    }
    SkipMeansInTable(kind, front);
    InTableOfPrefix(kind, lines, |front|);
    FilterOneMore(kind, front, line);
    FirstTextOneMore(Filter(kind, front), line);
    assert Filter(kind, front) + [] == Filter(kind, front);
    if i.None? && Kept(kind, lines, |front|) && line != "" { i := Some(|front|); }
  }

  /** The first kept line that is not blank is the first text the filter leaves. */
  lemma ExposedLine(kind: string -> Kind, lines: seq<string>, i: nat)
    requires FirstKept(kind, lines, i)
    ensures FirstText(Filter(kind, lines)) == Some(lines[i])
  {
    var first := FirstKeptIs(kind, lines);
    assert Kept(kind, lines, i);
    assert first.Some?;
    assert Kept(kind, lines, first.value);
  }

  /** What is exposed is what the result begins with. */
  lemma ExposedFirst(kind: string -> Kind, content: string)
    ensures Exposed(kind, content) <==> Essence(kind, content) != [] && Dropped(kind(Essence(kind, content)[0]))
  {
    var lines := Trimmed(SplitLines(content));
    CoreStart(Filter(kind, lines));
    if Exposed(kind, content) {
      var i: nat :| FirstKept(kind, lines, i) && Dropped(kind(LStrip(lines[i], IsSpace)));
      ExposedLine(kind, lines, i);
    } else {
      var first := FirstKeptIs(kind, lines);
    }
  }

  lemma SameText(a: seq<string>, b: seq<string>)
    requires AllTidy(a) && AllTidy(b) && Join(a, '\n') + "\n" == Join(b, '\n') + "\n"
    requires a != [] && a[0] != "" && b != []
    ensures a == b
  {
    assert forall line | line in a :: OneLine(line) by { assert forall line | line in a :: Tidy(line); }
    assert forall line | line in b :: OneLine(line) by { assert forall line | line in b :: Tidy(line); }
    SplitLinesJoin(a);
    SplitLinesJoin(b);
  }

  /**
   * Normalizing a normalized dump changes nothing, except exactly when the final strip has exposed
   * a volatile line that had been kept because of the spaces before it.
   */
  lemma NormalizeTwice(kind: string -> Kind, content: string)
    ensures Normalize(kind, Normalize(kind, content)) == Normalize(kind, content) <==> !Exposed(kind, content)
  {
    NormalizeIsEssence(kind, content);
    ExposedFirst(kind, content);
    var core := Essence(kind, content);
    if core == [] {
      assert Normalize(kind, content) == "\n";
      NothingLeft(kind);
    } else {
      var again := Normalize(kind, content);
      ReadBack(kind, core);
      NormalizeIsEssence(kind, again);
      if !Dropped(kind(core[0])) {
        forall line | line in core ensures !Dropped(kind(line)) {}
        PlainStays(kind, core);
      } else {
        FilterShorter(kind, core);
        var rest := Essence(kind, again);
        if rest == [] {
          assert Normalize(kind, again) == "\n" && Join(core, '\n')[0] == core[0][0];
        } else if Normalize(kind, again) == again {
          SameText(core, rest);
        }
      }
    }
  }

  /** Two dumps count as unchanged exactly if their essential lines are the same. */
  lemma SameEssence(kind: string -> Kind, a: string, b: string)
    ensures Normalize(kind, a) == Normalize(kind, b) <==> Essence(kind, a) == Essence(kind, b)
  {
    NormalizeIsEssence(kind, a);
    NormalizeIsEssence(kind, b);
    var x, y := Essence(kind, a), Essence(kind, b);
    if Normalize(kind, a) == Normalize(kind, b) {
      assert x != [] ==> |Join(x, '\n')| > 0;
      assert y != [] ==> |Join(y, '\n')| > 0;
      if x != [] { SameText(x, y); }
    }
  }

  /** A space before a volatile assignment hides it from the filter, if it is not a table's end then. */
  lemma SpaceHides(line: string)
    ensures KindOf([' '] + line) == Ordinary
  {
    var s := [' '] + line;
    NotVolatile(s, 0, 0, 0, 0);
    assert HEADINGS[0][0] == 'c' && HEADINGS[1][0] == 'c' && CLOSING[0] == '%' && s[0] == ' ';
  }

  lemma {:induction false} WholeLine(line: string)
    requires OneLine(line)
    ensures FirstLine(line) == line
  {
    if line != "" { WholeLine(line[1..]); }
  }

  lemma OneOrdinaryLine(kind: string -> Kind, line: string)
    requires Tidy([' '] + line) && line != "" && !IsSpace(line[0]) && kind([' '] + line) == Ordinary
    ensures Essence(kind, [' '] + line) == [line]
  {
    var s := [' '] + line;
    WholeLine(s);
    assert SplitLines(s) == [s];
    TidyStays([s]);
    FilterOneMore(kind, [], s);
    assert [] + [s] == [s];
    assert s[1..] == line && LStrip(s, IsSpace) == line;
  }

  /** So one space in front of a volatile assignment is enough. */
  lemma SpaceExposes(line: string)
    requires Tidy(line) && line != "" && !IsSpace(line[0]) && KindOf(line) == Assignment
    ensures Normalize(KindOf, Normalize(KindOf, [' '] + line)) != Normalize(KindOf, [' '] + line)
  {
    SpaceHides(line);
    OneOrdinaryLine(KindOf, line);
    ExposedFirst(KindOf, [' '] + line);
    NormalizeTwice(KindOf, [' '] + line);
  }
}
