// Which files of an archive are notices, what is kept of them, and how a size field is read, whatever its form.
module TarDetails {
  import opened Sequences
  import opened Base64
  import opened TarNotices

  // ---------------------------------------------------------------- names

  const CAPITALS := "ABCDEFGHIJKLMNOPQRSTUVWXYZ"
  const SMALL := "abcdefghijklmnopqrstuvwxyz"

  lemma LowerOfCapital(i: nat)
    requires i < 26
    ensures |CAPITALS| == |SMALL| == 26 && LowerAscii(CAPITALS[i]) == SMALL[i]
  {
  }

  lemma LowerOfOther(c: char)
    ensures c in CAPITALS || LowerAscii(c) == c
  {
    assert 'A' <= c <= 'Z' ==> CAPITALS[c as int - 65] == c;
  }

  // The last part of a path.
  lemma {:induction false} BaseNameExactly(path: string, base: string)
    requires '/' !in base
    ensures BaseName(path + "/" + base) == base && BaseName(base) == base
  {
    var name := path + "/" + base;
    assert name[|path|] == '/';
    if path == "" {
      assert name[1..] == base;
    } else {
      assert name[1..] == path[1..] + "/" + base;
      BaseNameExactly(path[1..], base);
    }
  }

  lemma LowerAt(s: string)
    ensures |Lower(s)| == |s| && forall i :: 0 <= i < |s| ==> Lower(s)[i] == LowerAscii(s[i])
  {
    if s != "" {
      LowerAt(s[1..]);
    }
  }

  // A stem in any case, alone or with a dot, hyphen or underscore behind it and no line end after that.
  ghost predicate Named(base: string, stem: string) {
    && |base| >= |stem| && Lower(base[..|stem|]) == stem
    && (|base| == |stem| || base[|stem|] == '.' || base[|stem|] == '-' || base[|stem|] == '_')
    && forall i :: |stem| < i < |base| ==> base[i] as int !in {10, 13, 0x2028, 0x2029}
  }

  lemma StemExactly(base: string, stem: string)
    ensures StemThenSuffix(base, stem) <==> Named(base, stem)
  {
    LowerAt(base);
    if |base| >= |stem| {
      LowerAt(base[..|stem|]);
      assert Lower(base)[..|stem|] == Lower(base[..|stem|]);
      var suffix := base[|stem|..];
      assert forall i :: 0 <= i < |suffix| ==> suffix[i] == base[|stem| + i];
      assert forall i :: |stem| <= i < |base| ==> base[i] == suffix[i - |stem|];
    }
  }

  lemma NoticeExactly(base: string)
    ensures IsNotice(base) <==> exists stem :: stem in {"licence", "license", "copying", "notice"} && Named(base, stem)
  {
    StemExactly(base, "licence");
    StemExactly(base, "license");
    StemExactly(base, "copying");
    StemExactly(base, "notice");
  }

  // A notice is kept when it has at most 512000 bytes that decode, and fewer than eight were found before.
  lemma CollectExactly(matches: seq<Notice>, name: string, content: Bytes, f: Format)
    ensures Collect(matches, name, content, f) ==
      if f.notice(name) && |content| <= 512000 && |matches| < 8 && f.text(content).Some? then matches + [Notice(name, f.text(content).value)]
      else matches
  {
  }

  // ---------------------------------------------------------------- the size field

  lemma OctalDigitExactly(b: Byte)
    ensures OctalDigit(b) <==> b in [48, 49, 50, 51, 52, 53, 54, 55]
  {
  }

  // A number is an optional sign and then its octal digits, up to anything else; without a digit there is none.
  lemma {:induction false} RunEnds(digits: Bytes, rest: Bytes)
    requires (forall i :: 0 <= i < |digits| ==> OctalDigit(digits[i])) && (rest != [] ==> !OctalDigit(rest[0]))
    ensures OctalRun(digits + rest) == |digits|
  {
    if digits == [] {
      assert digits + rest == rest;
    } else {
      assert (digits + rest)[1..] == digits[1..] + rest;
      RunEnds(digits[1..], rest);
    }
  }

  lemma ParseUnsigned(digits: Bytes, rest: Bytes)
    requires (forall i :: 0 <= i < |digits| ==> OctalDigit(digits[i])) && (rest != [] ==> !OctalDigit(rest[0]))
    requires digits == [] ==> rest == [] || (rest[0] != 43 && rest[0] != 45)
    ensures ParseOctal(digits + rest) == if digits == [] then None else Some(OctalValue(digits))
  {
    RunEnds(digits, rest);
    var s := digits + rest;
    assert s[..|digits|] == digits;
    assert digits != [] ==> s[0] == digits[0];
    assert digits == [] ==> s == rest;
  }

  lemma ParseSigned(s: Bytes, digits: Bytes, rest: Bytes, value: nat)
    requires s != [] && (s[0] == 43 || s[0] == 45) && s[1..] == digits + rest && digits != []
    requires (forall i :: 0 <= i < |digits| ==> OctalDigit(digits[i])) && (rest != [] ==> !OctalDigit(rest[0]))
    requires value == OctalValue(digits)
    ensures ParseOctal(s) == Some(if s[0] == 45 then 0 - value as int else value)
  {
    SignedRun(s[1..], digits, rest);
  }

  lemma SignedRun(all: Bytes, digits: Bytes, rest: Bytes)
    requires all == digits + rest
    requires (forall i :: 0 <= i < |digits| ==> OctalDigit(digits[i])) && (rest != [] ==> !OctalDigit(rest[0]))
    ensures OctalRun(all) == |digits| && all[..|digits|] == digits
  {
    RunEnds(digits, rest);
  }

  lemma SignAlone(s: Bytes)
    requires s != [] && (s[0] == 43 || s[0] == 45) && (|s| > 1 ==> !OctalDigit(s[1]))
    ensures ParseOctal(s) == None
  {
    assert |s| > 1 ==> s[1..][0] == s[1];
  }

  // A file may have up to 8 GiB.
  lemma LargestSize()
    ensures Pow8(11) == 0x2_0000_0000
  {
    assert Pow8(5) == 32768;
    assert Pow8(8) == 512 * Pow8(5);
    assert Pow8(11) == 512 * Pow8(8);
  }

  // A digit more is eight times as much, and the digit.
  lemma ValueOfMore(digits: Bytes, d: Byte)
    requires (forall i :: 0 <= i < |digits| ==> OctalDigit(digits[i])) && 48 <= d <= 55
    ensures forall i :: 0 <= i < |digits + [d]| ==> OctalDigit((digits + [d])[i])
    ensures OctalValue([]) == 0 && OctalValue(digits + [d]) == 8 * OctalValue(digits) + (d as int - 48)
  {
    assert (digits + [d])[..|digits|] == digits;
  }

  predicate Blank(b: Byte) { b in [9, 10, 11, 12, 13, 32] }

  // White space around the number does not count.
  lemma {:induction false} TrimmedExactly(before: Bytes, s: Bytes, behind: Bytes)
    requires (forall i :: 0 <= i < |before| ==> Blank(before[i])) && (forall i :: 0 <= i < |behind| ==> Blank(behind[i]))
    requires s != [] && !Blank(s[0]) && !Blank(s[|s| - 1])
    ensures TrimEnd(TrimStart(before + (s + behind))) == s
  {
    var all := before + (s + behind);
    if before == [] {
      assert all == s + behind && all[0] == s[0];
      assert TrimStart(all) == all;
      EndTrimmed(s, behind);
    } else {
      assert all[0] == before[0] && all[1..] == before[1..] + (s + behind);
      TrimmedExactly(before[1..], s, behind);
    }
  }

  lemma {:induction false} EndTrimmed(s: Bytes, behind: Bytes)
    requires (forall i :: 0 <= i < |behind| ==> Blank(behind[i])) && s != [] && !Blank(s[|s| - 1])
    ensures TrimEnd(s + behind) == s
  {
    var all := s + behind;
    if behind == [] {
      assert all == s;
    } else {
      assert all[..|all| - 1] == s + behind[..|behind| - 1] && all[|all| - 1] == behind[|behind| - 1];
      EndTrimmed(s, behind[..|behind| - 1]);
    }
  }

  // Only the low seven bits of a byte count, and a NUL ends a field.
  lemma {:induction false} FieldExactly(s: Bytes)
    ensures |Ascii(s)| == |s| && forall i :: 0 <= i < |s| ==> Ascii(s)[i] == s[i] % 128
    ensures CutAtZero(s) <= s && 0 !in CutAtZero(s) && (|CutAtZero(s)| < |s| ==> s[|CutAtZero(s)|] == 0)
  {
    if s != [] {
      FieldExactly(s[1..]);
      assert s == [s[0]] + s[1..];
    }
  }

  // The size is in bytes 124 to 135 of a header, the name in the first hundred.
  lemma HeaderExactly(header: Bytes, d: Decoders)
    requires |header| == 512
    ensures SizeField(header) == ParseOctal(TrimEnd(TrimStart(CutAtZero(Ascii(header[124..136])))))
    ensures NameField(header, d) == d.name(CutAtZero(header[..100]))
  {
  }
}
