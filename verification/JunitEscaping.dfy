// Escaping in the JUnit annotations script: chains of global replacements, each proved equal to one
// pass over the text and undone by the matching decoder. What an annotation is made of comes with it.
module JunitEscaping {

  // value.replace(/pattern/g, replacement) for a literal pattern.
  function ReplaceAll(s: string, pattern: string, replacement: string): string
    requires pattern != ""
  {
    if s == "" then ""
    else if pattern <= s then replacement + ReplaceAll(s[|pattern|..], pattern, replacement)
    else [s[0]] + ReplaceAll(s[1..], pattern, replacement)
  }

  // ---------------------------------------------------------------- workflow command escaping

  function Message(s: string): string {
    ReplaceAll(ReplaceAll(ReplaceAll(s, "%", "%25"), "\r", "%0D"), "\n", "%0A")
  }

  function Property(s: string): string {
    ReplaceAll(ReplaceAll(Message(s), ":", "%3A"), ",", "%2C")
  }

  // The same escaping as one simultaneous pass.
  function MessageChar(c: char): string {
    match c case '%' => "%25" case '\r' => "%0D" case '\n' => "%0A" case _ => [c]
  }

  function PropertyChar(c: char): string {
    match c case ':' => "%3A" case ',' => "%2C" case _ => MessageChar(c)
  }

  function EachChar(s: string, escape: char -> string): string {
    if s == "" then "" else escape(s[0]) + EachChar(s[1..], escape)
  }

  lemma {:induction false} ReplaceCharAppend(a: string, b: string, c: char, r: string)
    ensures ReplaceAll(a + b, [c], r) == ReplaceAll(a, [c], r) + ReplaceAll(b, [c], r)
  {
    if a == "" {
      assert a + b == b;
    } else {
      assert (a + b)[1..] == a[1..] + b;
      assert [c] <= a <==> a[0] == c;
      assert [c] <= a + b <==> a[0] == c;
      ReplaceCharAppend(a[1..], b, c, r);
    }
  }

  lemma {:induction false} ReplaceAbsent(s: string, c: char, r: string)
    requires c !in s
    ensures ReplaceAll(s, [c], r) == s
  {
    if s != "" {
      assert s[0] != c;
      ReplaceAbsent(s[1..], c, r);
    }
  }

  lemma ReplaceOne(d: char, c: char, r: string)
    ensures ReplaceAll([d], [c], r) == if d == c then r else [d]
  {
    assert [d][1..] == "" && r + "" == r;
    assert [c][0] == c && [d][0] == d;
  }

  lemma MessageAppend(a: string, b: string)
    ensures Message(a + b) == Message(a) + Message(b)
  {
    ReplaceCharAppend(a, b, '%', "%25");
    var a1, b1 := ReplaceAll(a, "%", "%25"), ReplaceAll(b, "%", "%25");
    ReplaceCharAppend(a1, b1, '\r', "%0D");
    ReplaceCharAppend(ReplaceAll(a1, "\r", "%0D"), ReplaceAll(b1, "\r", "%0D"), '\n', "%0A");
  }

  lemma PropertyAppend(a: string, b: string)
    ensures Property(a + b) == Property(a) + Property(b)
  {
    MessageAppend(a, b);
    ReplaceCharAppend(Message(a), Message(b), ':', "%3A");
    ReplaceCharAppend(ReplaceAll(Message(a), ":", "%3A"), ReplaceAll(Message(b), ":", "%3A"), ',', "%2C");
  }

  lemma MessageOfChar(c: char)
    ensures Message([c]) == MessageChar(c)
  {
    ReplaceOne(c, '%', "%25");
    ReplaceOne(c, '\r', "%0D");
    ReplaceOne(c, '\n', "%0A");
    ReplaceAbsent("%25", '\r', "%0D");
    ReplaceAbsent("%25", '\n', "%0A");
    ReplaceAbsent("%0D", '\n', "%0A");
  }

  lemma PropertyOfChar(c: char)
    ensures Property([c]) == PropertyChar(c)
  {
    MessageOfChar(c);
    var m := MessageChar(c);
    if c == ':' {
      ReplaceOne(c, ':', "%3A");
      ReplaceAbsent("%3A", ',', "%2C");
    } else {
      ReplaceAbsent(m, ':', "%3A");
      if c == ',' {
        ReplaceOne(c, ',', "%2C");
      } else {
        ReplaceAbsent(m, ',', "%2C");
      }
    }
  }

  // The sequential replacements are one simultaneous pass, for every text.
  lemma {:induction false} MessageIsOnePass(s: string)
    ensures Message(s) == EachChar(s, MessageChar)
  {
    if s != "" {
      assert s == [s[0]] + s[1..];
      MessageAppend([s[0]], s[1..]);
      MessageOfChar(s[0]);
      MessageIsOnePass(s[1..]);
    }
  }

  lemma {:induction false} PropertyIsOnePass(s: string)
    ensures Property(s) == EachChar(s, PropertyChar)
  {
    if s != "" {
      assert s == [s[0]] + s[1..];
      PropertyAppend([s[0]], s[1..]);
      PropertyOfChar(s[0]);
      PropertyIsOnePass(s[1..]);
    }
  }

  // Percent-decoding (section 2.1 of RFC 3986).
  function HexValue(c: char): int {
    if '0' <= c <= '9' then c as int - '0' as int
    else if 'A' <= c <= 'F' then c as int - 'A' as int + 10
    else if 'a' <= c <= 'f' then c as int - 'a' as int + 10
    else -1
  }

  function PercentDecode(s: string): string {
    if s == "" then ""
    else if s[0] == '%' && |s| >= 3 && HexValue(s[1]) >= 0 && HexValue(s[2]) >= 0 then
      [(16 * HexValue(s[1]) + HexValue(s[2])) as char] + PercentDecode(s[3..])
    else [s[0]] + PercentDecode(s[1..])
  }

  lemma DecodeOneChar(c: char, escaped: string, rest: string)
    requires escaped == PropertyChar(c) || escaped == MessageChar(c)
    ensures PercentDecode(escaped + rest) == [c] + PercentDecode(rest)
  {
    var s := escaped + rest;
    assert s[|escaped|..] == rest;
    assert s[0] == escaped[0];
    if |escaped| == 3 {
      assert s[1] == escaped[1] && s[2] == escaped[2];
    }
  }

  lemma {:induction false} EscapingDecodes(s: string, escape: char -> string)
    requires forall c :: escape(c) == PropertyChar(c) || escape(c) == MessageChar(c)
    ensures PercentDecode(EachChar(s, escape)) == s
  {
    if s != "" {
      EscapingDecodes(s[1..], escape);
      DecodeOneChar(s[0], escape(s[0]), EachChar(s[1..], escape));
    }
  }

  // Percent-decoding undoes both chains.
  lemma EscapesRoundTrip(s: string)
    ensures PercentDecode(Property(s)) == s
    ensures PercentDecode(Message(s)) == s
  {
    PropertyIsOnePass(s);
    MessageIsOnePass(s);
    EscapingDecodes(s, PropertyChar);
    EscapingDecodes(s, MessageChar);
  }

  // Nothing that separates the parts of a workflow command is left.
  lemma NoSeparatorLeft(s: string)
    ensures forall c :: c in Property(s) ==> c !in "\r\n:,"
    ensures forall c :: c in Message(s) ==> c !in "\r\n"
  {
    PropertyIsOnePass(s);
    MessageIsOnePass(s);
    PassLeavesOut(s, PropertyChar, "\r\n:,");
    PassLeavesOut(s, MessageChar, "\r\n");
  }

  lemma {:induction false} PassLeavesOut(s: string, escape: char -> string, separators: string)
    requires forall c, d :: d in escape(c) ==> d !in separators
    ensures forall d :: d in EachChar(s, escape) ==> d !in separators
  {
    if s != "" {
      PassLeavesOut(s[1..], escape, separators);
    }
  }

  // ---------------------------------------------------------------- the annotation line

  // The failure's type, or the word that stands in for an empty one.
  function KindText(kind: string): string {
    if kind == "" then "Failure" else kind
  }

  function Title(kind: string, name: string): string {
    KindText(kind) + (": " + name)
  }

  function LineText(line: string): string {
    if line == "" then "1" else line
  }

  function Annotation(file: string, line: string, kind: string, name: string, detail: string): string {
    Printed(file, LineText(line), Title(kind, name), detail)
  }

  function Printed(file: string, line: string, title: string, detail: string): string {
    "::error file=" + Property(file) + ",line=" + line + ",title=" + Property(title) + "::" + Message(detail)
  }

  lemma {:induction false} CutAt(a: string, x: string, b: string, y: string, separator: char)
    requires separator !in a && separator !in b
    requires a + [separator] + x == b + [separator] + y
    ensures a == b && x == y
  {
    var s, t := a + [separator] + x, b + [separator] + y;
    assert s[0] == if a == "" then separator else a[0];
    assert t[0] == if b == "" then separator else b[0];
    assert a != "" ==> a[0] in a;
    assert b != "" ==> b[0] in b;
    assert s[1..] == if a == "" then x else a[1..] + [separator] + x;
    assert t[1..] == if b == "" then y else b[1..] + [separator] + y;
    if a != "" {
      CutAt(a[1..], x, b[1..], y, separator);
      assert a == [a[0]] + a[1..] && b == [b[0]] + b[1..];
    }
  }

  lemma DropPrefix(prefix: string, a: string, b: string)
    requires prefix + a == prefix + b
    ensures a == b
  {
    assert (prefix + a)[|prefix|..] == a && (prefix + b)[|prefix|..] == b;
  }

  // ---------------------------------------------------------------- XML entities

  function Unescape(s: string): string {
    var s1 := ReplaceAll(s, "&#10;", "\n");
    var s2 := ReplaceAll(s1, "&quot;", "\"");
    var s3 := ReplaceAll(s2, "&apos;", "'");
    var s4 := ReplaceAll(s3, "&lt;", "<");
    var s5 := ReplaceAll(s4, "&gt;", ">");
    ReplaceAll(s5, "&amp;", "&")
  }

  // The entities in the order the chain replaces them.
  function Body(k: nat): string
    requires k < 6
  {
    match k case 0 => "#10;" case 1 => "quot;" case 2 => "apos;" case 3 => "lt;" case 4 => "gt;" case _ => "amp;"
  }

  function Entity(k: nat): string
    requires k < 6
  {
    "&" + Body(k)
  }

  function Decoded(k: nat): char
    requires k < 6
  {
    match k case 0 => '\n' case 1 => '\"' case 2 => '\'' case 3 => '<' case 4 => '>' case _ => '&'
  }

  // The first of the first n entities that s starts with; n when there is none.
  function EntityAt(s: string, n: nat): (k: nat)
    requires n <= 6
    ensures k <= n
    ensures k < n ==> Entity(k) <= s
  {
    if n == 0 then 0
    else
      var k := EntityAt(s, n - 1);
      if k < n - 1 then k
      else if Entity(n - 1) <= s then n - 1
      else n
  }

  // One left-to-right pass that decodes the first n entities.
  function DecodePass(s: string, n: nat): string
    requires n <= 6
  {
    if s == "" then ""
    else
      var k := EntityAt(s, n);
      if k < n then [Decoded(k)] + DecodePass(s[|Entity(k)|..], n) else [s[0]] + DecodePass(s[1..], n)
  }

  // Characters an entity body is made of: no ampersand, and nothing an entity before &amp; decodes to.
  predicate Inert(c: char) {
    c !in "&\n\"'<>"
  }

  lemma EntityShape(k: nat)
    requires k < 6
    ensures Entity(k)[0] == '&' && Entity(k)[1..] == Body(k) && |Entity(k)| == |Body(k)| + 1
    ensures k < 5 ==> !Inert(Decoded(k)) && Decoded(k) != '&'
  {
  }

  lemma NotPrefix(p: string, s: string)
    requires p != "" && s != "" && p[0] != s[0]
    ensures !(p <= s)
  {
  }

  // Such text passes through a decoding pass unchanged, and only such text yields it.
  lemma {:induction false} InertPasses(p: string, s: string, n: nat)
    requires n <= 5 && forall i :: 0 <= i < |p| ==> Inert(p[i])
    ensures p <= DecodePass(s, n) <==> p <= s
    ensures p <= s ==> DecodePass(s, n) == p + DecodePass(s[|p|..], n)
    decreases p, 1
  {
    if p == "" {
      assert s[0..] == s;
    } else if s != "" {
      var k := EntityAt(s, n);
      if k < n {
        EntityShape(k);
        assert s[0] == Entity(k)[0] && DecodePass(s, n)[0] == Decoded(k);
        NotPrefix(p, s);
        NotPrefix(p, DecodePass(s, n));
      } else {
        InertStep(p, s, n);
      }
    }
  }

  lemma {:induction false} InertStep(p: string, s: string, n: nat)
    requires n <= 5 && forall i :: 0 <= i < |p| ==> Inert(p[i])
    requires p != "" && s != "" && EntityAt(s, n) == n
    ensures p <= DecodePass(s, n) <==> p <= s
    ensures p <= s ==> DecodePass(s, n) == p + DecodePass(s[|p|..], n)
    decreases p, 0
  {
    var rest := DecodePass(s[1..], n);
    assert DecodePass(s, n) == [s[0]] + rest;
    InertPasses(p[1..], s[1..], n);
    assert p == [p[0]] + p[1..] && s == [s[0]] + s[1..];
    var after := if |p| <= |s| then DecodePass(s[|p|..], n) else "";
    assert |p| <= |s| ==> s[1..][|p[1..]|..] == s[|p|..];
    ConsStep(p[0], p[1..], s[0], s[1..], rest, after);
  }

  lemma ConsStep(a: char, x: string, b: char, y: string, rest: string, after: string)
    requires (x <= rest <==> x <= y) && (x <= y ==> rest == x + after)
    ensures [a] + x <= [b] + rest <==> [a] + x <= [b] + y
    ensures [a] + x <= [b] + y ==> [b] + rest == [a] + x + after
  {
    PrefixOfCons(a, x, b, y);
    PrefixOfCons(a, x, b, rest);
  }

  lemma PrefixOfCons(a: char, x: string, b: char, y: string)
    ensures [a] + x <= [b] + y <==> a == b && x <= y
  {
    if |x| <= |y| {
      assert ([b] + y)[..1 + |x|] == [b] + y[..|x|];
      assert ([a] + x)[0] == a && ([a] + x)[1..] == x;
      assert ([b] + y[..|x|])[0] == b && ([b] + y[..|x|])[1..] == y[..|x|];
    }
  }

  lemma BodyInert(k: nat)
    requires k < 6
    ensures forall i :: 0 <= i < |Body(k)| ==> Inert(Body(k)[i])
  {
  }

  // Replacing the next entity after a pass is the pass that knows one more entity.
  lemma {:induction false} NextReplacement(s: string, n: nat)
    requires n < 6
    ensures ReplaceAll(DecodePass(s, n), Entity(n), [Decoded(n)]) == DecodePass(s, n + 1)
  {
    if s != "" {
      var k := EntityAt(s, n);
      EntityShape(n);
      if k < n {
        EntityShape(k);
        NextReplacement(s[|Entity(k)|..], n);
        CopyThrough(Decoded(k), DecodePass(s[|Entity(k)|..], n), n);
      } else if Entity(n) <= s {
        var rest := s[|Entity(n)|..];
        EntityPasses(s, n);
        NextReplacement(rest, n);
        ReplaceHere(DecodePass(rest, n), n);
      } else {
        NextReplacement(s[1..], n);
        NoEntityPasses(s, n);
      }
    }
  }

  // ReplaceAll copies a character that cannot start the pattern.
  lemma CopyThrough(c: char, rest: string, n: nat)
    requires n < 6 && c != '&'
    ensures ReplaceAll([c] + rest, Entity(n), [Decoded(n)]) == [c] + ReplaceAll(rest, Entity(n), [Decoded(n)])
  {
    EntityShape(n);
    assert ([c] + rest)[1..] == rest;
  }

  lemma ReplaceHere(rest: string, n: nat)
    requires n < 6
    ensures ReplaceAll(Entity(n) + rest, Entity(n), [Decoded(n)]) == [Decoded(n)] + ReplaceAll(rest, Entity(n), [Decoded(n)])
  {
    assert (Entity(n) + rest)[|Entity(n)|..] == rest;
  }

  lemma EntityPasses(s: string, n: nat)
    requires n < 6 && Entity(n) <= s && EntityAt(s, n) == n
    ensures DecodePass(s, n) == Entity(n) + DecodePass(s[|Entity(n)|..], n)
  {
    BodyInert(n);
    SplitEntity(s, n);
    InertPasses(Body(n), s[1..], n);
    EntityPassesFrom(s, n, Body(n), DecodePass(s[|Entity(n)|..], n));
  }

  lemma EntityPassesFrom(s: string, n: nat, body: string, rest: string)
    requires n < 6 && s != "" && s[0] == '&' && EntityAt(s, n) == n
    requires DecodePass(s[1..], n) == body + rest
    ensures DecodePass(s, n) == "&" + body + rest
  {
    assert DecodePass(s, n) == [s[0]] + (body + rest);
  }

  lemma SplitEntity(s: string, n: nat)
    requires n < 6 && Entity(n) <= s
    ensures s[0] == '&' && Body(n) <= s[1..] && s[1..][|Body(n)|..] == s[|Entity(n)|..]
  {
    EntityShape(n);
    assert s[0] == Entity(n)[0];
    assert s[1..|Entity(n)|] == Entity(n)[1..];
    assert s[1..][..|Body(n)|] == s[1..|Entity(n)|];
  }

  lemma NoEntityPasses(s: string, n: nat)
    requires n < 6 && s != "" && !(Entity(n) <= s) && EntityAt(s, n) == n
    ensures ReplaceAll(DecodePass(s, n), Entity(n), [Decoded(n)]) == [s[0]] + ReplaceAll(DecodePass(s[1..], n), Entity(n), [Decoded(n)])
  {
    var rest := DecodePass(s[1..], n);
    if s[0] != '&' {
      CopyThrough(s[0], rest, n);
    } else {
      EntityShape(n);
      BodyInert(n);
      InertPasses(Body(n), s[1..], n);
      assert Entity(n) == "&" + Body(n) && s == "&" + s[1..];
      assert !(Body(n) <= s[1..]);
      assert !(Body(n) <= rest);
      var passed := [s[0]] + rest;
      assert passed[1..] == rest;
      assert !(Entity(n) <= passed);
    }
  }

  lemma {:induction false} EmptyPass(s: string)
    ensures DecodePass(s, 0) == s
  {
    if s != "" {
      EmptyPass(s[1..]);
    }
  }

  // The six replacements in this order decode every text in one left-to-right pass.
  lemma UnescapeIsOnePass(s: string)
    ensures Unescape(s) == DecodePass(s, 6)
  {
    EmptyPass(s);
    EntityNames();
    NextReplacement(s, 0);
    NextReplacement(s, 1);
    NextReplacement(s, 2);
    NextReplacement(s, 3);
    NextReplacement(s, 4);
    NextReplacement(s, 5);
  }

  lemma EntityNames()
    ensures Entity(0) == "&#10;" && Entity(1) == "&quot;" && Entity(2) == "&apos;"
    ensures Entity(3) == "&lt;" && Entity(4) == "&gt;" && Entity(5) == "&amp;"
  {
  }

  // Escaping of the characters with entities (section 4.6 of XML 1.0), and of line feeds in attributes.
  function XmlChar(c: char): string {
    match c
    case '\n' => "&#10;" case '\"' => "&quot;" case '\'' => "&apos;" case '<' => "&lt;" case '>' => "&gt;" case '&' => "&amp;"
    case _ => [c]
  }

  lemma DecodeXmlChar(c: char, rest: string)
    ensures DecodePass(XmlChar(c) + rest, 6) == [c] + DecodePass(rest, 6)
  {
    var s := XmlChar(c) + rest;
    EntityNames();
    if |XmlChar(c)| == 1 {
      assert s[1..] == rest && s[0] != '&';
      PlainHere(s, 6);
    } else {
      var n := if c == '\n' then 0 else if c == '\"' then 1 else if c == '\'' then 2 else if c == '<' then 3 else if c == '>' then 4 else 5;
      assert XmlChar(c) == Entity(n) && Decoded(n) == c;
      EntityIsFirst(s, n);
      assert s[|Entity(n)|..] == rest;
    }
  }

  lemma {:induction false} PlainHere(s: string, n: nat)
    requires n <= 6 && s != "" && s[0] != '&'
    ensures EntityAt(s, n) == n
  {
    if n > 0 {
      PlainHere(s, n - 1);
      EntityShape(n - 1);
    }
  }

  lemma {:induction false} EntityAtMost(s: string, n: nat, m: nat)
    requires n < m <= 6 && Entity(n) <= s
    ensures EntityAt(s, m) <= n
  {
    if n < m - 1 {
      EntityAtMost(s, n, m - 1);
    }
  }

  // No entity is a prefix of another.
  lemma EntityIsFirst(s: string, n: nat)
    requires n < 6 && Entity(n) <= s
    ensures EntityAt(s, 6) == n
  {
    EntityAtMost(s, n, 6);
    var k := EntityAt(s, 6);
    assert s[1] == Entity(n)[1] == Entity(k)[1];
    assert s[2] == Entity(n)[2] == Entity(k)[2];
    EntityNames();
    assert k == n by {
      assert Entity(k)[1] == Body(k)[0] && Entity(k)[2] == Body(k)[1];
      assert Entity(n)[1] == Body(n)[0] && Entity(n)[2] == Body(n)[1];
    }
  }

  // Unescaping undoes XML escaping of every text, ampersands included.
  lemma {:induction false} XmlRoundTrip(s: string)
    ensures Unescape(EachChar(s, XmlChar)) == s
  {
    UnescapeIsOnePass(EachChar(s, XmlChar));
    if s != "" {
      XmlRoundTrip(s[1..]);
      UnescapeIsOnePass(EachChar(s[1..], XmlChar));
      DecodeXmlChar(s[0], EachChar(s[1..], XmlChar));
    }
  }
}
