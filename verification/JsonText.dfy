/**
 * That a faithful JSON codec exists: one way to write documents with whole numbers as text from
 * which they can be read back. The proofs elsewhere use no more of json.dumps and json.loads.
 */
module JsonText {
  import opened Text
  import opened DestinationPaths
  import opened RecordedPaths
  import opened Manifest

  /** Every number is whole, as those of a manifest are. */
  ghost predicate Integral(j: Json) {
    match j
    case Num(n) => n == n.Floor as real
    case Arr(items) => forall i | 0 <= i < |items| :: Integral(items[i])
    case Obj(pairs) => forall i | 0 <= i < |pairs| :: Integral(pairs[i].1)
    case _ => true
  }

  /** A text with its length in front. */
  function WriteText(s: string): string { Decimal(|s|) + [':'] + s }

  function Tag(j: Json): char {
    match j
    case Null => 'n'
    case Bool(b) => if b then 't' else 'f'
    case Num(_) => '#'
    case Str(_) => 's'
    case Arr(_) => '['
    case Obj(_) => '{'
  }

  function Length(j: Json): nat {
    match j case Arr(items) => |items| case Obj(pairs) => |pairs| case _ => 0
  }

  function Write(j: Json): string
    decreases j, Length(j) + 2
  {
    [Tag(j)] + Body(j)
  }

  function Body(j: Json): string
    decreases j, Length(j) + 1
  {
    match j
    case Num(n) => DecimalInt(n.Floor) + [';']
    case Str(s) => WriteText(s)
    case Arr(_) => WriteFrom(j, 0)
    case Obj(_) => WriteFrom(j, 0)
    case _ => ""
  }

  /** The members of an array or object from position i on. */
  function WriteFrom(j: Json, i: nat): string
    requires i <= Length(j)
    decreases j, Length(j) - i
  {
    if i == Length(j) then [']'] else [','] + (WriteMember(j, i) + WriteFrom(j, i + 1))
  }

  function WriteMember(j: Json, i: nat): string
    requires i < Length(j)
    decreases j, 0
  {
    match j case Arr(items) => Write(items[i]) case Obj(pairs) => WriteText(pairs[i].0) + Write(pairs[i].1)
  }

  // ---- Reading back is unambiguous ----

  lemma CutAt(p: string, q: string, c: char, x: string, y: string)
    requires c !in p && c !in q && p + [c] + x == q + [c] + y
    ensures p == q && x == y
  {
    var s := p + [c] + x;
    assert s[|p|] == c && s[|q|] == c;
    assert forall i | 0 <= i < |p| :: s[i] == p[i] && p[i] in p;
    assert forall i | 0 <= i < |q| :: s[i] == q[i] && q[i] in q;
    assert |p| == |q|;
    assert p == s[..|p|] == q && x == s[|p| + 1..] == y;
  }

  lemma NoDigit(n: nat, c: char)
    requires !IsDigit(c)
    ensures c !in Decimal(n)
  {
  }

  lemma IntegerRead(m: int, n: int, x: string, y: string)
    requires DecimalInt(m) + [';'] + x == DecimalInt(n) + [';'] + y
    ensures m == n && x == y
  {
    NoDigit(if m < 0 then -m else m, ';');
    NoDigit(if n < 0 then -n else n, ';');
    CutAt(DecimalInt(m), DecimalInt(n), ';', x, y);
    var a, b := Decimal(if m < 0 then -m else m), Decimal(if n < 0 then -n else n);
    assert IsDigit(a[0]) && IsDigit(b[0]);
    assert DecimalInt(m)[0] == (if m < 0 then '-' else a[0]) && DecimalInt(n)[0] == (if n < 0 then '-' else b[0]);
    assert m < 0 ==> DecimalInt(m)[1..] == a;
    assert n < 0 ==> DecimalInt(n)[1..] == b;
    DecimalInjective(if m < 0 then -m else m, if n < 0 then -n else n);
  }

  lemma TextRead(s: string, t: string, x: string, y: string)
    requires WriteText(s) + x == WriteText(t) + y
    ensures s == t && x == y
  {
    NoDigit(|s|, ':');
    NoDigit(|t|, ':');
    assert WriteText(s) + x == Decimal(|s|) + [':'] + (s + x) && WriteText(t) + y == Decimal(|t|) + [':'] + (t + y);
    CutAt(Decimal(|s|), Decimal(|t|), ':', s + x, t + y);
    DecimalInjective(|s|, |t|);
    assert s == (s + x)[..|s|] && t == (t + y)[..|t|] && x == (s + x)[|s|..] && y == (t + y)[|t|..];
  }

  lemma TagRead(c: char, d: char, u: string, v: string, x: string, y: string)
    requires [c] + u + x == [d] + v + y
    ensures c == d && u + x == v + y
  {
    assert ([c] + u + x)[0] == c && ([d] + v + y)[0] == d;
    assert ([c] + u + x)[1..] == u + x && ([d] + v + y)[1..] == v + y;
  }

  lemma {:induction false} DocumentRead(a: Json, b: Json, x: string, y: string)
    requires Integral(a) && Integral(b) && Write(a) + x == Write(b) + y
    ensures a == b && x == y
    decreases a, Length(a) + 2
  {
    TagRead(Tag(a), Tag(b), Body(a), Body(b), x, y);
    BodyRead(a, b, x, y);
  }

  lemma {:induction false} BodyRead(a: Json, b: Json, x: string, y: string)
    requires Integral(a) && Integral(b) && Tag(a) == Tag(b) && Body(a) + x == Body(b) + y
    ensures a == b && x == y
    decreases a, Length(a) + 1
  {
    match a {
      case Num(m) => IntegerRead(m.Floor, b.n.Floor, x, y);
      case Str(text) => TextRead(text, b.s, x, y);
      case Arr(items) =>
        MembersRead(a, b, 0, x, y);
        forall i | 0 <= i < |items| ensures items[i] == b.items[i] { assert SameMember(a, b, i); }
      case Obj(pairs) =>
        MembersRead(a, b, 0, x, y);
        forall i | 0 <= i < |pairs| ensures pairs[i] == b.pairs[i] { assert SameMember(a, b, i); }
      case _ => assert "" + x == x && "" + y == y;
    }
  }

  ghost predicate Container(j: Json) { j.Arr? || j.Obj? }

  ghost predicate SameMember(a: Json, b: Json, i: nat)
    requires Container(a) && Tag(a) == Tag(b) && i < Length(a) && i < Length(b)
  {
    match a case Arr(items) => items[i] == b.items[i] case Obj(pairs) => pairs[i] == b.pairs[i]
  }

  /** What stands before member i, or at the end. */
  function Mark(j: Json, i: nat): char
    requires i <= Length(j)
  {
    if i == Length(j) then ']' else ','
  }

  function After(j: Json, i: nat): (s: string)
    requires i <= Length(j)
    ensures WriteFrom(j, i) == [Mark(j, i)] + s
  {
    if i == Length(j) then "" else WriteMember(j, i) + WriteFrom(j, i + 1)
  }

  lemma {:induction false} MembersRead(a: Json, b: Json, i: nat, x: string, y: string)
    requires Container(a) && Tag(a) == Tag(b) && Integral(a) && Integral(b) && i <= Length(a) && i <= Length(b)
    requires WriteFrom(a, i) + x == WriteFrom(b, i) + y
    ensures Length(a) == Length(b) && x == y && forall k | i <= k < Length(a) :: SameMember(a, b, k)
    decreases a, Length(a) - i
  {
    assert Mark(a, i) == Mark(b, i) && After(a, i) + x == After(b, i) + y by {
      TagRead(Mark(a, i), Mark(b, i), After(a, i), After(b, i), x, y);
    }
    if i == Length(a) {
      assert "" + x == x && "" + y == y;
    } else {
      Regroup(WriteMember(a, i), WriteFrom(a, i + 1), x);
      Regroup(WriteMember(b, i), WriteFrom(b, i + 1), y);
      MemberRead(a, b, i, WriteFrom(a, i + 1) + x, WriteFrom(b, i + 1) + y);
      MembersRead(a, b, i + 1, x, y);
    }
  }

  lemma {:induction false} MemberRead(a: Json, b: Json, i: nat, x: string, y: string)
    requires Container(a) && Tag(a) == Tag(b) && Integral(a) && Integral(b) && i < Length(a) && i < Length(b)
    requires WriteMember(a, i) + x == WriteMember(b, i) + y
    ensures SameMember(a, b, i) && x == y
    decreases a, 0
  {
    match a {
      case Arr(items) => DocumentRead(items[i], b.items[i], x, y);
      case Obj(pairs) =>
        var p, q := pairs[i], b.pairs[i];
        Regroup(WriteText(p.0), Write(p.1), x);
        Regroup(WriteText(q.0), Write(q.1), y);
        TextRead(p.0, q.0, Write(p.1) + x, Write(q.1) + y);
        DocumentRead(p.1, q.1, x, y);
    }
  }

  // ---- The codec ----

  ghost function Read(content: Bytes): Option<Json> {
    if j :| Integral(j) && Write(j) == content then Some(j) else None
  }

  lemma ReadBack(j: Json)
    requires Integral(j)
    ensures Read(Write(j)) == Some(j)
  {
    var k := Read(Write(j)).value;
    assert Write(j) + "" == Write(k) + "";
    DocumentRead(j, k, "", "");
  }

  lemma ManifestIntegral(rev: Revision, names: seq<string>, readable: bool, segment: string)
    requires |names| == |rev.artifacts|
    ensures Integral(ManifestDoc(rev, names, readable, segment))
  {
    var doc, docs := ManifestDoc(rev, names, readable, segment), ArtifactDocs(rev.artifacts, names);
    forall i | 0 <= i < |docs| ensures Integral(docs[i]) {
      var pairs := docs[i].pairs;
      assert docs[i] == ArtifactDoc(rev.artifacts[i], names[i]) && |pairs| == 6;
      assert pairs[5].1 == Num(rev.artifacts[i].size as real);
    }
    assert doc.pairs[0].1 == Arr(docs) && Integral(Arr(docs));
    assert |doc.pairs| == 8 && doc.pairs[3].1 == Num(rev.deviceId as real);
  }

  /** So the round trip that the manifest theorems ask of a codec can be had. */
  lemma FaithfulCodecExists()
    ensures exists codec: Codec :: codec.Faithful()
  {
    var codec := Codec(Write, content => Read(content));
    forall rev: Revision, names: seq<string>, readable: bool, segment: string | |names| == |rev.artifacts|
      ensures codec.ReadsBack(ManifestDoc(rev, names, readable, segment))
    {
      ManifestIntegral(rev, names, readable, segment);
      ReadBack(ManifestDoc(rev, names, readable, segment));
    }
    assert codec.Faithful();
  }
}
