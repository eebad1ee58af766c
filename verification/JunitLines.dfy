// What an annotation tells apart. Its line attribute is printed unescaped, so a line such as "1,title=x::y" holds
// the very marks that separate the parts. It still imitates no other failure: what follows it would have to be part
// of an escaped detail, and the colon in every title, which prints as %3A there, is no part of one.
module JunitLines {
  import opened JunitEscaping

  // ---------------------------------------------------------------- which texts are escaped messages

  predicate IsMessage(s: string) {
    if s == "" then true
    else if s[0] == '%' then |s| >= 3 && (s[1..3] == "25" || s[1..3] == "0D" || s[1..3] == "0A") && IsMessage(s[3..])
    else s[0] != '\r' && s[0] != '\n' && IsMessage(s[1..])
  }

  lemma {:induction false} MessageIsMessage(d: string)
    ensures IsMessage(Message(d))
  {
    MessageIsOnePass(d);
    PassIsMessage(d);
  }

  lemma {:induction false} PassIsMessage(d: string)
    ensures IsMessage(EachChar(d, MessageChar))
  {
    if d != "" {
      PassIsMessage(d[1..]);
      var chunk, rest := MessageChar(d[0]), EachChar(d[1..], MessageChar);
      ChunkThen(chunk, rest);
    }
  }

  // An escaped character in front.
  lemma ChunkThen(chunk: string, rest: string)
    requires chunk == "%25" || chunk == "%0D" || chunk == "%0A" || (|chunk| == 1 && chunk[0] !in "%\r\n")
    ensures IsMessage(chunk + rest) == IsMessage(rest)
  {
    var s := chunk + rest;
    assert s[|chunk|..] == rest && s[0] == chunk[0];
    if |chunk| == 3 {
      assert s[1..3] == chunk[1..3];
    }
  }

  // Cut in front of a character that ends no escape, both parts are escaped messages.
  lemma {:induction false} CutMessage(x: string, y: string)
    requires IsMessage(x + y) && y != "" && (y[0] == ',' || y[0] == ':')
    ensures IsMessage(x) && IsMessage(y)
  {
    if x == "" {
      assert x + y == y;
    } else {
      var s := x + y;
      assert s[0] == x[0] && s[|x|] == y[0];
      if x[0] == '%' {
        assert s[1..3][0] == s[1] && s[1..3][1] == s[2];
        assert s[1] != y[0] && s[2] != y[0];
        assert s[3..] == x[3..] + y && s[1..3] == x[1..3];
        CutMessage(x[3..], y);
      } else {
        assert s[1..] == x[1..] + y;
        CutMessage(x[1..], y);
      }
    }
  }

  // ---------------------------------------------------------------- titles

  predicate PlainTitle(t: string) { ':' !in t && ',' !in t }

  // An escaped title that could stand in an escaped message has nothing to escape there.
  lemma {:induction false} PlainPass(t: string)
    ensures IsMessage(EachChar(t, PropertyChar)) ==> PlainTitle(t)
  {
    if t != "" {
      var rest := EachChar(t[1..], PropertyChar);
      assert t == [t[0]] + t[1..];
      PlainPass(t[1..]);
      if t[0] == ':' || t[0] == ',' {
        var s := PropertyChar(t[0]) + rest;
        assert s[0] == '%' && s[1..3] == PropertyChar(t[0])[1..3];
        assert PropertyChar(t[0])[1..3][1] == 'A' || PropertyChar(t[0])[1..3][1] == 'C';
        assert PropertyChar(t[0])[1..3][0] == '3' || PropertyChar(t[0])[1..3][1] == 'C';
      } else {
        ChunkThen(PropertyChar(t[0]), rest);
      }
    }
  }

  lemma TitleHasColon(kind: string, name: string)
    ensures !PlainTitle(Title(kind, name))
  {
    assert Title(kind, name)[|KindText(kind)|] == ':';
  }

  // ---------------------------------------------------------------- the line attribute

  const MARK := ",title="

  // What follows the line attribute.
  function Behind(t: string, d: string): string {
    MARK + (Property(t) + ("::" + Message(d)))
  }

  lemma PrintedBehind(f: string, l: string, t: string, d: string)
    ensures Printed(f, l, t, d) == ("::error file=" + Property(f) + ",line=") + (l + Behind(t, d))
  {
    var p, m, title := Property(f), Message(d), Property(t);
    assert "::error file=" + p + ",line=" + l + MARK + title + "::" + m == ("::error file=" + p + ",line=") + (l + (MARK + (title + ("::" + m))));
  }

  // What follows the line is part of an escaped message only when the title has nothing to escape.
  lemma BehindIsMessage(t: string, d: string)
    requires IsMessage(Behind(t, d))
    ensures PlainTitle(t)
  {
    PropertyIsOnePass(t);
    var rest := ":" + (":" + Message(d));
    assert "::" + Message(d) == rest;
    PlainThen(MARK, Property(t) + rest);
    CutMessage(Property(t), rest);
    PlainPass(t);
  }

  lemma {:induction false} PlainThen(plain: string, rest: string)
    requires forall i :: 0 <= i < |plain| ==> plain[i] !in "%\r\n"
    ensures IsMessage(plain + rest) == IsMessage(rest)
  {
    if plain == "" {
      assert plain + rest == rest;
    } else {
      assert (plain + rest)[1..] == plain[1..] + rest;
      PlainThen(plain[1..], rest);
    }
  }

  // Behind the mark, the next comma comes after the title.
  lemma OneComma(title: string, m: string, k: nat)
    requires ',' !in title && 1 <= k < |MARK| + |title| + 2
    ensures k < |MARK + (title + ("::" + m))| && (MARK + (title + ("::" + m)))[k] != ','
  {
    var y := MARK + (title + ("::" + m));
    if k < |MARK| {
      assert y[k] == MARK[k];
    } else if k < |MARK| + |title| {
      assert y[k] == title[k - |MARK|] && title[k - |MARK|] in title;
    } else {
      assert y[k] == "::"[k - |MARK| - |title|];
    }
  }

  // Equal texts with lines of different lengths: what follows the longer line is the end of the other detail.
  lemma LongerNeedsPlainTitle(l: string, t: string, d: string, l': string, t': string, d': string)
    requires |l'| < |l| && l + Behind(t, d) == l' + Behind(t', d')
    ensures PlainTitle(t)
  {
    var y, y' := Behind(t, d), Behind(t', d');
    var u := l[|l'|..];
    Overlap(l, y, l', y');
    var title, m := Property(t'), Message(d');
    NoSeparatorLeft(t');
    assert y[0] == MARK[0] && (u + y)[|u|] == y[0];
    if |u| < |MARK| + |title| + 2 {
      OneComma(title, m, |u|);
    }
    var n := |MARK| + |title| + 2;
    TailOf(u, y, title, m, n);
    MessageIsMessage(d');
    CutMessage(u[n..], y);
    BehindIsMessage(t, d);
  }

  lemma Overlap(l: string, y: string, l': string, y': string)
    requires |l'| < |l| && l + y == l' + y'
    ensures l == l' + l[|l'|..] && l[|l'|..] + y == y'
  {
    assert l == (l + y)[..|l|] && l' == (l' + y')[..|l'|];
    assert l[..|l'|] == l';
    assert (l + y)[|l'|..] == l[|l'|..] + y && (l' + y')[|l'|..] == y';
  }

  lemma TailOf(u: string, y: string, title: string, m: string, n: nat)
    requires u + y == MARK + (title + ("::" + m)) && n == |MARK| + |title| + 2 <= |u|
    ensures m == u[n..] + y
  {
    var whole := MARK + (title + ("::" + m));
    assert whole[n..] == m && (u + y)[n..] == u[n..] + y;
  }

  // Titles that escaping changes leave no doubt where the line ends.
  lemma SameParts(f: string, l: string, t: string, d: string, f': string, l': string, t': string, d': string)
    requires !PlainTitle(t) && !PlainTitle(t')
    requires Printed(f, l, t, d) == Printed(f', l', t', d')
    ensures f == f' && l == l' && t == t' && d == d'
  {
    SameFile(f, l, t, d, f', l', t', d');
    PrintedBehind(f, l, t, d);
    PrintedBehind(f', l', t', d');
    DropPrefix("::error file=" + Property(f) + ",line=", l + Behind(t, d), l' + Behind(t', d'));
    if |l'| < |l| {
      LongerNeedsPlainTitle(l, t, d, l', t', d');
    } else if |l| < |l'| {
      LongerNeedsPlainTitle(l', t', d', l, t, d);
    }
    assert l == (l + Behind(t, d))[..|l|] && l' == (l' + Behind(t', d'))[..|l'|];
    DropPrefix(l, Behind(t, d), Behind(t', d'));
    SameBehind(t, d, t', d');
  }

  // Two failures print the same annotation exactly when they agree in file, line, title and detail, whatever
  // their texts are.
  lemma AnnotationUnambiguous(f: string, l: string, k: string, n: string, d: string, f': string, l': string, k': string, n': string, d': string)
    ensures Annotation(f, l, k, n, d) == Annotation(f', l', k', n', d')
        <==> f == f' && LineText(l) == LineText(l') && Title(k, n) == Title(k', n') && d == d'
  {
    if Annotation(f, l, k, n, d) == Annotation(f', l', k', n', d') {
      TitleHasColon(k, n);
      TitleHasColon(k', n');
      SameParts(f, LineText(l), Title(k, n), d, f', LineText(l'), Title(k', n'), d');
    }
  }

  // A failure without a line is printed like one on line 1, and one without a type like one of type Failure; otherwise
  // all parts appear, the line as it is.
  lemma AnnotationParts(f: string, l: string, k: string, n: string, d: string)
    ensures Annotation(f, "", k, n, d) == Annotation(f, "1", k, n, d)
    ensures Annotation(f, l, "", n, d) == Annotation(f, l, "Failure", n, d)
    ensures l != "" && k != "" ==>
      Annotation(f, l, k, n, d) == "::error file=" + Property(f) + ",line=" + l + ",title=" + Property(k + (": " + n)) + "::" + Message(d)
  {
  }

  // Two failures share a title exactly when type and name agree, or the longer type takes over the other's
  // separator and the beginning of its name.
  lemma TitlesAgreeExactly(k: string, n: string, k': string, n': string)
    requires |KindText(k)| <= |KindText(k')|
    ensures Title(k, n) == Title(k', n') <==>
      (KindText(k) == KindText(k') && n == n') || (exists w :: KindText(k') == Title(k, w) && n == w + (": " + n'))
  {
    var a, b := KindText(k), KindText(k');
    if Title(k, n) == Title(k', n') {
      SharedTitle(a, n, b, n');
      assert a != b ==> b == Title(k, b[|a| + 2..]);
    }
    forall w | b == Title(k, w) && n == w + (": " + n')
      ensures Title(k, n) == Title(k', n')
    {
      assert (a + (": " + w)) + (": " + n') == a + (": " + (w + (": " + n')));
    }
  }

  lemma SharedTitle(a: string, n: string, b: string, n': string)
    requires |a| <= |b| && a + (": " + n) == b + (": " + n')
    ensures (a == b && n == n') || (|b| >= |a| + 2 && b == a + (": " + b[|a| + 2..]) && n == b[|a| + 2..] + (": " + n'))
  {
    var s, s' := a + (": " + n), b + (": " + n');
    assert s[..|a|] == a && s'[..|a|] == b[..|a|];
    assert s[|a|..] == ": " + n && s'[|a|..] == b[|a|..] + (": " + n');
    assert s[|a| + 1] == ' ' && s'[|b|] == ':';
    if |a| == |b| {
      assert b[|a|..] == "" && "" + (": " + n') == ": " + n';
      DropPrefix(": ", n, n');
    } else {
      var u := b[|a|..];
      assert |u| >= 2 && u == (u + (": " + n'))[..|u|] && u[..2] == (": " + n)[..2] == ": ";
      assert (": " + n)[2..] == n && (u + (": " + n'))[2..] == u[2..] + (": " + n');
      assert b == a + u && u == ": " + u[2..] && u[2..] == b[|a| + 2..];
    }
  }

  lemma SameFile(f: string, l: string, t: string, d: string, f': string, l': string, t': string, d': string)
    requires Printed(f, l, t, d) == Printed(f', l', t', d')
    ensures f == f'
  {
    var x, x' := "line=" + (l + Behind(t, d)), "line=" + (l' + Behind(t', d'));
    PrintedBehind(f, l, t, d);
    PrintedBehind(f', l', t', d');
    FileThen(Property(f), l + Behind(t, d));
    FileThen(Property(f'), l' + Behind(t', d'));
    DropPrefix("::error file=", Property(f) + [','] + x, Property(f') + [','] + x');
    NoSeparatorLeft(f);
    NoSeparatorLeft(f');
    CutAt(Property(f), x, Property(f'), x', ',');
    EscapesRoundTrip(f);
    EscapesRoundTrip(f');
  }

  lemma FileThen(p: string, rest: string)
    ensures ("::error file=" + p + ",line=") + rest == "::error file=" + (p + [','] + ("line=" + rest))
  {
    assert ",line=" == [','] + "line=";
  }

  lemma SameBehind(t: string, d: string, t': string, d': string)
    requires Behind(t, d) == Behind(t', d')
    ensures t == t' && d == d'
  {
    var m, m' := Message(d), Message(d');
    DropPrefix(MARK, Property(t) + ("::" + m), Property(t') + ("::" + m'));
    assert Property(t) + ("::" + m) == Property(t) + [':'] + (":" + m);
    assert Property(t') + ("::" + m') == Property(t') + [':'] + (":" + m');
    NoSeparatorLeft(t);
    NoSeparatorLeft(t');
    CutAt(Property(t), ":" + m, Property(t'), ":" + m', ':');
    DropPrefix(":", m, m');
    EscapesRoundTrip(t);
    EscapesRoundTrip(t');
    EscapesRoundTrip(d);
    EscapesRoundTrip(d');
  }
}
