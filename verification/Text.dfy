/** The string operations of Python that the path and name code is built from. */
module Text {

  datatype Option<+T> = None | Some(value: T)

  ghost predicate All(s: string, p: char -> bool) {
    forall i | 0 <= i < |s| :: p(s[i])
  }

  // ---- str.lstrip / rstrip / strip with a set of characters ----

  predicate Distinct<T(==)>(s: seq<T>) { forall i, j | 0 <= i < j < |s| :: s[i] != s[j] }

  function LStrip(s: string, p: char -> bool): (r: string)
    ensures |r| <= |s|
  {
    if s == "" || !p(s[0]) then s else LStrip(s[1..], p)
  }

  function RStrip(s: string, p: char -> bool): (r: string)
    ensures |r| <= |s|
  {
    if s == "" || !p(s[|s| - 1]) then s else RStrip(s[..|s| - 1], p)
  }

  function Strip(s: string, p: char -> bool): string {
    RStrip(LStrip(s, p), p)
  }

  lemma Regroup<T>(a: seq<T>, b: seq<T>, c: seq<T>)
    ensures (a + b) + c == a + (b + c)
  {
  }

  /** lstrip drops the longest prefix drawn from the set. */
  lemma {:induction false} LStripSpec(s: string, p: char -> bool)
    ensures var r := LStrip(s, p);
      && r == s[|s| - |r|..]
      && (r != "" ==> !p(r[0]))
      && forall i | 0 <= i < |s| - |r| :: p(s[i])
  {
    if s != "" && p(s[0]) {
      LStripSpec(s[1..], p);
      assert forall i | 1 <= i < |s| :: s[i] == s[1..][i - 1];
    }
  }

  /** rstrip drops the longest suffix drawn from the set. */
  lemma {:induction false} RStripSpec(s: string, p: char -> bool)
    ensures var r := RStrip(s, p);
      && r == s[..|r|]
      && (r != "" ==> !p(r[|r| - 1]))
      && forall i | |r| <= i < |s| :: p(s[i])
  {
    if s != "" && p(s[|s| - 1]) {
      RStripSpec(s[..|s| - 1], p);
    }
  }

  /** Nothing is stripped from a string whose ends are not in the set. */
  lemma StripIdle(s: string, p: char -> bool)
    requires s != "" ==> !p(s[0]) && !p(s[|s| - 1])
    ensures Strip(s, p) == s
  {
  }

  lemma StripEnds(s: string, p: char -> bool)
    ensures var r := Strip(s, p); r != "" ==> !p(r[0]) && !p(r[|r| - 1])
  {
    LStripSpec(s, p);
    RStripSpec(LStrip(s, p), p);
  }

  /** Whatever holds of every character of s holds of every character that strip keeps. */
  lemma StripKeeps(s: string, p: char -> bool, q: char -> bool)
    requires All(s, q)
    ensures All(Strip(s, p), q)
  {
    LStripSpec(s, p);
    RStripSpec(LStrip(s, p), p);
  }

  /** strip leaves nothing exactly when every character is in the set. */
  lemma StripAll(s: string, p: char -> bool)
    ensures Strip(s, p) == "" <==> All(s, p)
  {
    LStripSpec(s, p);
    RStripSpec(LStrip(s, p), p);
  }

  // ---- re.sub("[...]+", r): every maximal run of matching characters becomes one r ----

  function SubRuns(s: string, bad: char -> bool, r: char): string
    decreases |s|
  {
    if s == "" then ""
    else if bad(s[0]) then [r] + SubRuns(LStrip(s[1..], bad), bad, r)
    else [s[0]] + SubRuns(s[1..], bad, r)
  }

  lemma {:induction false} SubRunsAll(s: string, bad: char -> bool, r: char, q: char -> bool)
    requires q(r)
    requires forall i | 0 <= i < |s| :: bad(s[i]) || q(s[i])
    ensures All(SubRuns(s, bad, r), q)
    decreases |s|
  {
    if s != "" {
      LStripSpec(s[1..], bad);
      SubRunsAll(if bad(s[0]) then LStrip(s[1..], bad) else s[1..], bad, r, q);
    }
  }

  lemma {:induction false} SubRunsIdle(s: string, bad: char -> bool, r: char)
    requires forall i | 0 <= i < |s| :: bad(s[i]) ==> s[i] == r && (i + 1 < |s| ==> !bad(s[i + 1]))
    ensures SubRuns(s, bad, r) == s
    decreases |s|
  {
    if s != "" {
      assert s == [s[0]] + s[1..];
      if bad(s[0]) {
        assert LStrip(s[1..], bad) == s[1..] by {
          if |s| > 1 { assert !bad(s[1]); }
        }
      }
      SubRunsIdle(s[1..], bad, r);
    }
  }

  // ---- str.split(c) and c.join(parts) ----

  function Split(s: string, c: char): (parts: seq<string>)
    ensures |parts| >= 1
    ensures forall k | 0 <= k < |parts| :: c !in parts[k]
  {
    if s == "" then [""]
    else
      var rest := Split(s[1..], c);
      if s[0] == c then [""] + rest else [[s[0]] + rest[0]] + rest[1..]
  }

  function Join(parts: seq<string>, c: char): string {
    if parts == [] then ""
    else if |parts| == 1 then parts[0]
    else parts[0] + [c] + Join(parts[1..], c)
  }

  /** Joining the pieces of a split gives the string back. */
  lemma {:induction false} JoinSplit(s: string, c: char)
    ensures Join(Split(s, c), c) == s
  {
    if s != "" {
      JoinSplit(s[1..], c);
      var rest := Split(s[1..], c);
      if s[0] == c {
        assert ([""] + rest)[1..] == rest;
        assert s == [c] + s[1..];
      } else {
        var parts := [[s[0]] + rest[0]] + rest[1..];
        assert parts[1..] == rest[1..];
        assert s == [s[0]] + s[1..];
        if |rest| == 1 {
        } else {
          assert Join(parts, c) == [s[0]] + rest[0] + [c] + Join(rest[1..], c);
          assert Join(rest, c) == rest[0] + [c] + Join(rest[1..], c);
        }
      }
    }
  }

  lemma {:induction false} SplitOne(p: string, c: char)
    requires c !in p
    ensures Split(p, c) == [p]
  {
    if p != "" {
      SplitOne(p[1..], c);
      assert p == [p[0]] + p[1..];
    }
  }

  lemma {:induction false} SplitCons(p: string, rest: string, c: char)
    requires c !in p
    ensures Split(p + [c] + rest, c) == [p] + Split(rest, c)
  {
    var s := p + [c] + rest;
    if p == "" {
      assert s == [c] + rest;
      assert s[1..] == rest;
    } else {
      assert s[1..] == p[1..] + [c] + rest;
      SplitCons(p[1..], rest, c);
      assert Split(s[1..], c)[1..] == Split(rest, c);
      assert p == [p[0]] + p[1..];
    }
  }

  /** Splitting a join gives the pieces back, when no piece contains the separator. */
  lemma {:induction false} SplitJoin(parts: seq<string>, c: char)
    requires |parts| >= 1
    requires forall k | 0 <= k < |parts| :: c !in parts[k]
    ensures Split(Join(parts, c), c) == parts
  {
    if |parts| == 1 {
      SplitOne(parts[0], c);
    } else {
      SplitJoin(parts[1..], c);
      SplitCons(parts[0], Join(parts[1..], c), c);
    }
  }

  lemma {:induction false} JoinAll(parts: seq<string>, c: char, q: char -> bool)
    requires q(c)
    requires forall k | 0 <= k < |parts| :: All(parts[k], q)
    ensures All(Join(parts, c), q)
  {
    if |parts| > 1 {
      JoinAll(parts[1..], c, q);
    }
  }

  lemma {:induction false} SplitAll(s: string, c: char, q: char -> bool)
    requires All(s, q)
    ensures forall k | 0 <= k < |Split(s, c)| :: All(Split(s, c)[k], q)
  {
    if s != "" {
      SplitAll(s[1..], c, q);
    }
  }

  lemma {:induction false} JoinAppend(a: seq<string>, b: seq<string>, c: char)
    requires a != [] && b != []
    ensures Join(a + b, c) == Join(a, c) + [c] + Join(b, c)
  {
    if |a| == 1 {
      assert (a + b)[1..] == b;
    } else {
      assert (a + b)[1..] == a[1..] + b;
      JoinAppend(a[1..], b, c);
    }
  }

  // ---- str(n) for an integer ----

  predicate IsDigit(c: char) { '0' <= c <= '9' }

  function Digit(n: nat): (c: char)
    requires n < 10
    ensures IsDigit(c)
  {
    '0' + n as char
  }

  function Decimal(n: nat): (s: string)
    ensures s != "" && All(s, IsDigit)
  {
    if n < 10 then [Digit(n)] else Decimal(n / 10) + [Digit(n % 10)]
  }

  function DecimalInt(n: int): string {
    if n < 0 then "-" + Decimal(-n) else Decimal(n)
  }

  /** Different numbers are written differently. */
  lemma {:induction false} DecimalInjective(m: nat, n: nat)
    requires Decimal(m) == Decimal(n)
    ensures m == n
  {
    var s, t := Decimal(m), Decimal(n);
    assert s[|s| - 1] == Digit(m % 10) && t[|t| - 1] == Digit(n % 10);
    assert m % 10 == n % 10;
    if m < 10 || n < 10 {
      assert |Decimal(m / 10)| > 0 && |Decimal(n / 10)| > 0;
    } else {
      assert s[..|s| - 1] == Decimal(m / 10) && t[..|t| - 1] == Decimal(n / 10);
      DecimalInjective(m / 10, n / 10);
    }
  }

  /** A 64-bit database key has at most 19 digits. */
  lemma DecimalOfKey(n: nat)
    requires n < 0x8000_0000_0000_0000
    ensures |Decimal(n)| <= 19
  {
    assert Pow10(7) == 1_000_0000;
    assert Pow10(13) == 1_000_000_000_0000;
    assert Pow10(19) == 1_000_000_000_000_000_0000;
    DecimalLength(n, 19);
  }

  function Pow10(k: nat): nat { if k == 0 then 1 else 10 * Pow10(k - 1) }

  lemma {:induction false} DecimalLength(n: nat, k: nat)
    requires k >= 1 && n < Pow10(k)
    ensures |Decimal(n)| <= k
  {
    if n >= 10 {
      DecimalLength(n / 10, k - 1);
    }
  }

  lemma {:induction false} DecimalAtLeast(n: nat, k: nat)
    requires n >= Pow10(k)
    ensures |Decimal(n)| > k
  {
    if k > 0 { DecimalAtLeast(n / 10, k - 1); }
  }
}
