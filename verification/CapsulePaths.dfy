// Which artifact paths a capsule may contain, and the form they are stored in: relative paths of proper
// segments, with forward separators. The source compares a path with its normal form; here that comparison is
// proved to be the statement about segments, by splitting and joining, and validating again to change nothing.
module CapsulePaths {
  import opened Sequences
  import opened JsStrings

  const DOT: CodeUnit := 46
  const SLASH: CodeUnit := 47
  const COLON: CodeUnit := 58
  const BACKSLASH: CodeUnit := 92

  // path.replaceAll("\\", "/")
  function Forward(p: JsString): (q: JsString)
    ensures |q| == |p|
    ensures forall i :: 0 <= i < |p| ==> q[i] == if p[i] == BACKSLASH then SLASH else p[i]
  {
    seq(|p|, i requires 0 <= i < |p| => if p[i] == BACKSLASH then SLASH else p[i])
  }

  predicate IsSeparator(c: CodeUnit) { c == SLASH || c == BACKSLASH }
  predicate IsDriveLetter(c: CodeUnit) { 65 <= c <= 90 || 97 <= c <= 122 }

  // win32.isAbsolute, which also holds of every path that isAbsolute accepts on other systems
  predicate IsAbsolute(p: JsString) {
    || (p != [] && IsSeparator(p[0]))
    || (|p| > 2 && IsDriveLetter(p[0]) && p[1] == COLON && IsSeparator(p[2]))
  }

  // split("/")
  function Segments(p: JsString): (r: seq<JsString>)
    ensures r != []
  {
    if p == [] then [[]]
    else
      var rest := Segments(p[1..]);
      if p[0] == SLASH then [[]] + rest else [[p[0]] + rest[0]] + rest[1..]
  }

  function Join(segments: seq<JsString>): JsString {
    if segments == [] then []
    else if |segments| == 1 then segments[0]
    else segments[0] + [SLASH] + Join(segments[1..])
  }

  predicate Kept(segment: JsString) { segment != [] && segment != [DOT] }

  // posix.normalize of a relative path without ".." segments
  function Normalize(p: JsString): JsString {
    Rebuilt(Filter(Kept, Segments(p)), p != [] && p[|p| - 1] == SLASH)
  }

  function Rebuilt(kept: seq<JsString>, trailing: bool): JsString {
    (if kept == [] then [DOT] else Join(kept)) + (if trailing then [SLASH] else [])
  }

  function Validate(p: JsString): Option<JsString> {
    var q := Forward(p);
    if p == [] || IsAbsolute(p) || q[0] == SLASH || [DOT, DOT] in Segments(q) || Normalize(q) != q then None else Some(q)
  }

  // ---------------------------------------------------------------- what is accepted

  lemma JoinEmptyFront(rest: seq<JsString>)
    requires rest != []
    ensures Join([[]] + rest) == [SLASH] + Join(rest)
  {
    assert ([[]] + rest)[1..] == rest;
  }

  lemma JoinPrepend(x: CodeUnit, rest: seq<JsString>)
    requires rest != []
    ensures Join([[x] + rest[0]] + rest[1..]) == [x] + Join(rest)
  {
    var longer := [[x] + rest[0]] + rest[1..];
    assert longer[1..] == rest[1..];
    if |rest| == 1 {
      assert longer == [[x] + rest[0]];
    }
  }

  lemma {:induction false} JoinSegments(p: JsString)
    ensures Join(Segments(p)) == p
  {
    if p != [] {
      JoinSegments(p[1..]);
      assert p == [p[0]] + p[1..];
      if p[0] == SLASH {
        JoinEmptyFront(Segments(p[1..]));
      } else {
        JoinPrepend(p[0], Segments(p[1..]));
      }
    }
  }

  predicate Clean(segment: JsString) { SLASH !in segment }

  lemma {:induction false} SegmentsClean(p: JsString)
    ensures forall s :: s in Segments(p) ==> Clean(s)
  {
    if p != [] {
      SegmentsClean(p[1..]);
      assert Segments(p[1..])[0] in Segments(p[1..]);
    }
  }

  lemma {:induction false} SegmentsOfOne(s: JsString)
    requires Clean(s)
    ensures Segments(s) == [s]
  {
    if s != [] {
      SegmentsOfOne(s[1..]);
      assert s == [s[0]] + s[1..];
    }
  }

  lemma {:induction false} SegmentsBehind(s: JsString, rest: JsString)
    requires Clean(s)
    ensures Segments(s + [SLASH] + rest) == [s] + Segments(rest)
  {
    var p := s + [SLASH] + rest;
    if s == [] {
      assert p[1..] == rest;
    } else {
      assert p[1..] == s[1..] + [SLASH] + rest;
      SegmentsBehind(s[1..], rest);
      assert s == [s[0]] + s[1..];
    }
  }

  lemma {:induction false} SegmentsJoin(segments: seq<JsString>)
    requires segments != [] && forall s :: s in segments ==> Clean(s)
    ensures Segments(Join(segments)) == segments
  {
    if |segments| == 1 {
      SegmentsOfOne(segments[0]);
      assert segments == [segments[0]];
    } else {
      SegmentsJoin(segments[1..]);
      SegmentsBehind(segments[0], Join(segments[1..]));
      assert segments == [segments[0]] + segments[1..];
    }
  }

  // No empty or dot segment, apart from an empty one at the end.
  ghost predicate Proper(segments: seq<JsString>) {
    && segments != []
    && (forall i :: 0 <= i < |segments| - 1 ==> Kept(segments[i]))
    && (Kept(segments[|segments| - 1]) || (segments[|segments| - 1] == [] && |segments| > 1))
  }

  // The current folder itself.
  ghost predicate IsDot(segments: seq<JsString>) {
    segments == [[DOT]] || segments == [[DOT], []]
  }

  lemma {:induction false} LastSegmentEmpty(p: JsString)
    ensures var r := Segments(p); r[|r| - 1] == [] <==> p == [] || p[|p| - 1] == SLASH
  {
    if |p| > 0 {
      LastSegmentEmpty(p[1..]);
      var rest := Segments(p[1..]);
      assert |p| > 1 ==> p[1..][|p| - 2] == p[|p| - 1];
    }
  }

  lemma {:induction false} JoinEndsEmpty(segments: seq<JsString>)
    requires segments != []
    ensures Join(segments + [[]]) == Join(segments) + [SLASH]
  {
    var all := segments + [[]];
    if |segments| == 1 {
      assert all[1..] == [[]];
    } else {
      assert all[1..] == segments[1..] + [[]];
      JoinEndsEmpty(segments[1..]);
    }
  }

  lemma {:induction false} FilterAll(s: seq<JsString>)
    requires forall x :: x in s ==> Kept(x)
    ensures Filter(Kept, s) == s
  {
    if s != [] {
      FilterAll(s[1..]);
    }
  }

  // A path is its own normal form exactly when its segments are proper, or it names the current folder.
  lemma ProperIsNormal(p: JsString)
    requires p != [] && Proper(Segments(p))
    ensures Normalize(p) == p
  {
    var r := Segments(p);
    var front, last := r[..|r| - 1], r[|r| - 1];
    assert r == front + [last];
    JoinSegments(p);
    LastSegmentEmpty(p);
    assert forall x :: x in front ==> Kept(x);
    FilterAll(front);
    FilterAppend(Kept, front, [last]);
    if last == [] {
      assert Filter(Kept, r) == front;
      JoinEndsEmpty(front);
      assert Rebuilt(front, true) == p;
    } else {
      assert Filter(Kept, r) == r;
      assert Rebuilt(r, false) == p;
    }
  }

  lemma DotIsNormal(p: JsString)
    requires p != [] && IsDot(Segments(p))
    ensures Normalize(p) == p
  {
    JoinSegments(p);
    if Segments(p) == [[DOT]] {
      assert p == [DOT];
    } else {
      assert [[DOT], []][1..] == [[]];
      assert p == [DOT, SLASH];
      assert Filter(Kept, [[]]) == [];
    }
    assert Filter(Kept, Segments(p)) == [];
  }

  lemma SegmentsRebuilt(kept: seq<JsString>, trailing: bool)
    requires forall s :: s in kept ==> Clean(s)
    ensures Segments(Rebuilt(kept, trailing)) == (if kept == [] then [[DOT]] else kept) + (if trailing then [[]] else [])
  {
    var base := if kept == [] then [[DOT]] else kept;
    assert forall s :: s in base ==> Clean(s);
    assert Rebuilt(kept, trailing) == Join(base) + (if trailing then [SLASH] else []);
    if trailing {
      JoinEndsEmpty(base);
      SegmentsJoin(base + [[]]);
    } else {
      SegmentsJoin(base);
      assert Join(base) + [] == Join(base);
      assert base + [] == base;
    }
  }

  lemma RebuiltIsProper(kept: seq<JsString>, trailing: bool)
    requires forall s :: s in kept ==> Clean(s) && Kept(s)
    ensures Proper(Segments(Rebuilt(kept, trailing))) || IsDot(Segments(Rebuilt(kept, trailing)))
  {
    SegmentsRebuilt(kept, trailing);
    assert forall i :: 0 <= i < |kept| ==> kept[i] in kept;
  }

  lemma NormalIsProper(p: JsString)
    requires p != [] && Normalize(p) == p
    ensures Proper(Segments(p)) || IsDot(Segments(p))
  {
    SegmentsClean(p);
    RebuiltIsProper(Filter(Kept, Segments(p)), p[|p| - 1] == SLASH);
  }

  // Exactly the relative paths without empty, "." and ".." segments are accepted, up to a trailing separator
  // and the current folder, and they come back with forward separators.
  lemma Accepted(p: JsString)
    ensures Validate(p).Some? <==>
              && p != [] && !IsAbsolute(p) && [DOT, DOT] !in Segments(Forward(p))
              && (Proper(Segments(Forward(p))) || IsDot(Segments(Forward(p))))
    ensures Validate(p).Some? ==> Validate(p).value == Forward(p)
  {
    if p != [] {
      if Proper(Segments(Forward(p))) {
        ProperIsNormal(Forward(p));
      } else if IsDot(Segments(Forward(p))) {
        DotIsNormal(Forward(p));
      }
      if Normalize(Forward(p)) == Forward(p) {
        NormalIsProper(Forward(p));
      }
    }
  }

  // Validating again changes nothing.
  lemma ValidateIdempotent(p: JsString)
    requires Validate(p).Some?
    ensures Validate(Validate(p).value) == Validate(p)
  {
    var q := Forward(p);
    assert Forward(q) == q;
    assert !IsAbsolute(q);
  }

  // Two accepted spellings are stored alike exactly when they differ only in the kind of separator.
  predicate SameUpToSeparators(a: JsString, b: JsString) {
    |a| == |b| && forall i :: 0 <= i < |a| ==> a[i] == b[i] || (IsSeparator(a[i]) && IsSeparator(b[i]))
  }

  lemma StoredAlike(a: JsString, b: JsString)
    requires Validate(a).Some? && Validate(b).Some?
    ensures Validate(a) == Validate(b) <==> SameUpToSeparators(a, b)
  {
    var x, y := Forward(a), Forward(b);
    assert x == y ==> |x| == |y| && forall i :: 0 <= i < |x| ==> x[i] == y[i];
    if SameUpToSeparators(a, b) {
      assert x == y;
    }
  }
}
