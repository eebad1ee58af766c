// The tar reader that looks for licence and notice files in a package archive, against a writer of the
// ustar Interchange Format (pax utility, IEEE Std 1003.1). The reader's loop moves an offset over the
// buffer; it is proved against a function on what is left of the archive behind that offset.
module TarNotices {
  import opened Sequences
  import opened Base64

  const BLOCK := 512
  const MAX_NOTICE := 512000
  const MAX_MATCHES := 8

  datatype Notice = Notice(file: string, text: string)

  // Buffer.toString("utf8") and the fatal TextDecoder.
  datatype Decoders = Decoders(name: Bytes -> string, text: Bytes -> Option<string>)

  function CutAtZero(s: Bytes): (r: Bytes)
    ensures |r| <= |s|
  {
    if s == [] || s[0] == 0 then [] else [s[0]] + CutAtZero(s[1..])
  }

  // ---------------------------------------------------------------- which files are notices

  function LowerAscii(c: char): char {
    if 'A' <= c <= 'Z' then c - 'A' + 'a' else c
  }

  function Lower(s: string): (r: string)
    ensures |r| == |s|
  {
    if s == "" then "" else [LowerAscii(s[0])] + Lower(s[1..])
  }

  // name.split("/").at(-1)
  function BaseName(name: string): string {
    if '/' in name then BaseName(name[1..]) else name
  }

  predicate LineEnd(c: char) {
    c == '\n' || c == '\r' || c == '\U{2028}' || c == '\U{2029}'
  }

  predicate StemThenSuffix(base: string, stem: string) {
    && stem <= Lower(base)
    && var suffix := base[|stem|..];
       suffix == "" || (suffix[0] in ".-_" && forall i :: 0 <= i < |suffix| ==> !LineEnd(suffix[i]))
  }

  // /^(?:LICEN[CS]E|COPYING|NOTICE)(?:[.\-_].*)?$/i
  predicate IsNotice(base: string) {
    StemThenSuffix(base, "licence") || StemThenSuffix(base, "license") || StemThenSuffix(base, "copying") || StemThenSuffix(base, "notice")
  }

  // ---------------------------------------------------------------- the size field

  function Ascii(s: Bytes): Bytes {
    if s == [] then [] else [s[0] % 128] + Ascii(s[1..])
  }

  predicate White(b: Byte) { 9 <= b <= 13 || b == 32 }

  function TrimStart(s: Bytes): Bytes {
    if s != [] && White(s[0]) then TrimStart(s[1..]) else s
  }

  function TrimEnd(s: Bytes): Bytes {
    if s != [] && White(s[|s| - 1]) then TrimEnd(s[..|s| - 1]) else s
  }

  predicate OctalDigit(b: Byte) { 48 <= b <= 55 }

  function OctalRun(s: Bytes): (n: nat)
    ensures n <= |s| && forall i :: 0 <= i < n ==> OctalDigit(s[i])
  {
    if s == [] || !OctalDigit(s[0]) then 0 else 1 + OctalRun(s[1..])
  }

  function OctalValue(s: Bytes): nat
    requires forall i :: 0 <= i < |s| ==> OctalDigit(s[i])
  {
    if s == [] then 0
    else
      assert OctalDigit(s[|s| - 1]);
      8 * OctalValue(s[..|s| - 1]) + (s[|s| - 1] as int - 48)
  }

  // Number.parseInt(s, 8); None for NaN
  function ParseOctal(s: Bytes): Option<int> {
    var signed := s != [] && (s[0] == 43 || s[0] == 45);
    var digits := if signed then s[1..] else s;
    var n := OctalRun(digits);
    if n == 0 then None
    else
      var value: int := OctalValue(digits[..n]);
      Some(if signed && s[0] == 45 then -value else value)
  }

  function SizeField(header: Bytes): Option<int>
    requires |header| == BLOCK
  {
    ParseOctal(TrimEnd(TrimStart(CutAtZero(Ascii(header[124..136])))))
  }

  function NameField(header: Bytes, d: Decoders): string
    requires |header| == BLOCK
  {
    d.name(CutAtZero(header[..100]))
  }

  // Math.ceil(size / 512) * 512
  function Padded(size: nat): (n: nat)
    ensures n >= size && n % BLOCK == 0 && n < size + BLOCK
  {
    (size + 511) / BLOCK * BLOCK
  }

  // ---------------------------------------------------------------- the reader

  // How the reader takes a header and a text apart: its loop only calls these.
  datatype Format = Format(name: Bytes -> string, size: Bytes -> Option<int>, notice: string -> bool, text: Bytes -> Option<string>)

  function Ustar(d: Decoders): Format {
    Format(header => if |header| == BLOCK then NameField(header, d) else "",
           header => if |header| == BLOCK then SizeField(header) else None,
           name => IsNotice(BaseName(name)),
           d.text)
  }

  function Collect(matches: seq<Notice>, name: string, content: Bytes, f: Format): seq<Notice> {
    if f.notice(name) && |content| <= MAX_NOTICE && |matches| < MAX_MATCHES then
      match f.text(content)
      case Some(text) => matches + [Notice(name, text)]
      case None => matches
    else matches
  }

  function Drop(tar: Bytes, n: nat): (rest: Bytes)
    ensures |rest| <= |tar| && (n > 0 && tar != [] ==> |rest| < |tar|)
  {
    if n <= |tar| then tar[n..] else []
  }

  // What stands at the head of the rest of an archive.
  datatype Head = End | Unreadable | File(name: string, content: Bytes, rest: Bytes)

  function ReadHead(tail: Bytes, f: Format): (h: Head)
    ensures h.File? ==> |h.rest| < |tail|
  {
    if |tail| < BLOCK then End
    else HeadContent(tail, f.name(tail[..BLOCK]), f.size(tail[..BLOCK]))
  }

  function HeadContent(tail: Bytes, name: string, size: Option<int>): (h: Head)
    requires |tail| >= BLOCK
    ensures h.File? ==> |h.rest| < |tail|
  {
    if name == "" then End
    else if size.None? || size.value < 0 || BLOCK + size.value > |tail| then Unreadable
    else File(name, tail[BLOCK..BLOCK + size.value], Drop(tail, BLOCK + Padded(size.value)))
  }

  // What the reader makes of the rest of an archive; None means the archive cannot be read.
  function ReadTail(tail: Bytes, matches: seq<Notice>, f: Format): Option<seq<Notice>>
    decreases |tail|
  {
    match ReadHead(tail, f)
    case End => Some(matches)
    case Unreadable => None
    case File(name, content, rest) => ReadTail(rest, Collect(matches, name, content, f), f)
  }

  // The loop over the decompressed archive.
  method ReadNotices(tar: Bytes, f: Format) returns (result: Option<seq<Notice>>)
    ensures result == ReadTail(tar, [], f)
  {
    var matches: seq<Notice> := [];
    var offset := 0;
    ghost var expected := ReadTail(tar, [], f);
    assert Drop(tar, 0) == tar;
    while offset + BLOCK <= |tar|
      invariant expected == ReadTail(Drop(tar, offset), matches, f)
      decreases |tar| - offset
    {
      var header := tar[offset..offset + BLOCK];
      HeadAt(tar, offset, f);
      var name := f.name(header);
      if name == "" {
        return Some(matches);
      }
      var size := f.size(header);
      if size.None? || size.value < 0 || offset + BLOCK + size.value > |tar| {
        return None;
      }
      var content := tar[offset + BLOCK..offset + BLOCK + size.value];
      matches := Keep(matches, name, content, f);
      offset := offset + BLOCK + Padded(size.value);
    }
    return Some(matches);
  }

  // The push of one file's text, when it is a notice.
  method Keep(matches: seq<Notice>, name: string, content: Bytes, f: Format) returns (kept: seq<Notice>)
    ensures kept == Collect(matches, name, content, f)
  {
    kept := matches;
    if f.notice(name) && |content| <= MAX_NOTICE && |matches| < MAX_MATCHES {
      var text := f.text(content);
      if text.Some? {
        kept := kept + [Notice(name, text.value)];
      }
    }
  }

  // Decompression may fail; then, too, nothing is known of the notices.
  method ReadCompressed(compressed: Bytes, gunzip: Bytes -> Option<Bytes>, d: Decoders) returns (result: Option<seq<Notice>>)
    ensures result == match gunzip(compressed) case None => None case Some(tar) => ReadTail(tar, [], Ustar(d))
  {
    var tar := gunzip(compressed);
    if tar.None? {
      return None;
    }
    result := ReadNotices(tar.value, Ustar(d));
  }

  // The head of the rest of the archive, read in place.
  lemma HeadAt(tar: Bytes, offset: nat, f: Format)
    requires offset + BLOCK <= |tar|
    ensures ReadHead(Drop(tar, offset), f)
         == var name, size := f.name(tar[offset..offset + BLOCK]), f.size(tar[offset..offset + BLOCK]);
            if name == "" then End
            else if size.None? || size.value < 0 || offset + BLOCK + size.value > |tar| then Unreadable
            else File(name, tar[offset + BLOCK..offset + BLOCK + size.value], Drop(tar, offset + BLOCK + Padded(size.value)))
  {
    assert Drop(tar, offset)[..BLOCK] == tar[offset..offset + BLOCK];
    var size := f.size(tar[offset..offset + BLOCK]);
    if size.Some? && 0 <= size.value && offset + BLOCK + size.value <= |tar| {
      ContentAt(tar, offset, size.value);
    }
  }

  lemma ContentAt(tar: Bytes, offset: nat, size: nat)
    requires offset + BLOCK + size <= |tar|
    ensures Drop(tar, offset)[BLOCK..BLOCK + size] == tar[offset + BLOCK..offset + BLOCK + size]
    ensures Drop(Drop(tar, offset), BLOCK + Padded(size)) == Drop(tar, offset + BLOCK + Padded(size))
  {
    DropDrop(tar, offset, BLOCK + Padded(size));
  }

  lemma DropDrop(tar: Bytes, m: nat, n: nat)
    ensures Drop(Drop(tar, m), n) == Drop(tar, m + n)
  {
  }

  // ---------------------------------------------------------------- the writer

  // A regular file with a short name; `gap1` and `gap2` are the header fields the reader does not use.
  datatype Entry = Entry(name: Bytes, content: Bytes, gap1: Bytes, gap2: Bytes)

  function Pow8(k: nat): nat { if k == 0 then 1 else 8 * Pow8(k - 1) }

  ghost predicate ValidEntry(e: Entry, d: Decoders) {
    && 0 < |e.name| <= 100 && 0 !in e.name && d.name(e.name) != ""
    && |e.gap1| == 24 && |e.gap2| == 376
    && |e.content| < Pow8(11)
  }

  function Zeros(n: nat): (s: Bytes)
    ensures |s| == n && forall i :: 0 <= i < n ==> s[i] == 0
  {
    seq(n, _ => 0)
  }

  function OctalText(n: nat, k: nat): (s: Bytes)
    ensures |s| == k && forall i :: 0 <= i < k ==> OctalDigit(s[i])
  {
    if k == 0 then [] else OctalText(n / 8, k - 1) + [48 + n % 8]
  }

  // The name field, the fields between it and the size, the size as eleven octal digits and a NUL, the rest.
  function Header(name: Bytes, size: nat, gap1: Bytes, gap2: Bytes): Bytes {
    name + Zeros(if |name| <= 100 then 100 - |name| else 0) + gap1 + OctalText(size, 11) + [0] + gap2
  }

  function Record(e: Entry): Bytes {
    Header(e.name, |e.content|, e.gap1, e.gap2) + e.content + Zeros(Padded(|e.content|) - |e.content|)
  }

  function WriteAll(entries: seq<Entry>): Bytes {
    if entries == [] then [] else Record(entries[0]) + WriteAll(entries[1..])
  }

  // ---------------------------------------------------------------- reading what was written

  lemma {:induction false} CutName(name: Bytes, rest: Bytes)
    requires 0 !in name && (rest == [] || rest[0] == 0)
    ensures CutAtZero(name + rest) == name
  {
    if name == [] {
      assert name + rest == rest;
    } else {
      assert (name + rest)[1..] == name[1..] + rest;
      CutName(name[1..], rest);
    }
  }

  lemma {:induction false} OctalRoundTrip(n: nat, k: nat)
    requires n < Pow8(k)
    ensures OctalValue(OctalText(n, k)) == n
  {
    if k > 0 {
      OctalRoundTrip(n / 8, k - 1);
      var s := OctalText(n, k);
      assert s[..|s| - 1] == OctalText(n / 8, k - 1);
    }
  }

  lemma {:induction false} AsciiDigits(s: Bytes, rest: Bytes)
    requires forall i :: 0 <= i < |s| ==> OctalDigit(s[i])
    ensures CutAtZero(Ascii(s + [0] + rest)) == s
  {
    if s == [] {
      assert s + [0] + rest == [0] + rest;
    } else {
      assert (s + [0] + rest)[1..] == s[1..] + [0] + rest;
      AsciiDigits(s[1..], rest);
    }
  }

  lemma {:induction false} AllDigitsRun(s: Bytes)
    requires forall i :: 0 <= i < |s| ==> OctalDigit(s[i])
    ensures OctalRun(s) == |s|
  {
    if s != [] {
      AllDigitsRun(s[1..]);
    }
  }

  lemma ParseDigits(s: Bytes)
    requires s != [] && forall i :: 0 <= i < |s| ==> OctalDigit(s[i])
    ensures ParseOctal(TrimEnd(TrimStart(s))) == Some(OctalValue(s))
  {
    AllDigitsRun(s);
    assert s[..|s|] == s;
    Untrimmed(s);
    assert OctalDigit(s[0]);
  }

  lemma Untrimmed(s: Bytes)
    requires s != [] && forall i :: 0 <= i < |s| ==> OctalDigit(s[i])
    ensures TrimStart(s) == s && TrimEnd(s) == s
  {
    assert OctalDigit(s[0]) && OctalDigit(s[|s| - 1]);
  }

  // The reader recovers the name and the size from a written header.
  lemma HeaderFields(name: Bytes, size: nat, gap1: Bytes, gap2: Bytes, d: Decoders)
    requires 0 < |name| <= 100 && 0 !in name && |gap1| == 24 && |gap2| == 376 && size < Pow8(11)
    ensures var h := Header(name, size, gap1, gap2);
            |h| == BLOCK && NameField(h, d) == d.name(name) && SizeField(h) == Some(size)
  {
    var h := Header(name, size, gap1, gap2);
    var digits := OctalText(size, 11);
    assert h[..100] == name + Zeros(100 - |name|);
    CutName(name, Zeros(100 - |name|));
    assert h[124..136] == digits + [0] + [];
    AsciiDigits(digits, []);
    ParseDigits(digits);
    OctalRoundTrip(size, 11);
  }

  // The notice a file gives, if it is one: matching, small and decodable.
  function NoticeOf(name: string, content: Bytes, f: Format): seq<Notice> {
    if f.notice(name) && |content| <= MAX_NOTICE && f.text(content).Some? then [Notice(name, f.text(content).value)] else []
  }

  function NoticesOf(entries: seq<Entry>, d: Decoders): seq<Notice> {
    if entries == [] then []
    else NoticeOf(d.name(entries[0].name), entries[0].content, Ustar(d)) + NoticesOf(entries[1..], d)
  }

  function Take(s: seq<Notice>, n: nat): seq<Notice> {
    if |s| <= n then s else s[..n]
  }

  lemma ReadRecord(e: Entry, rest: Bytes, matches: seq<Notice>, d: Decoders)
    requires ValidEntry(e, d)
    ensures ReadTail(Record(e) + rest, matches, Ustar(d)) == ReadTail(rest, Collect(matches, d.name(e.name), e.content, Ustar(d)), Ustar(d))
  {
    var header := Header(e.name, |e.content|, e.gap1, e.gap2);
    var padding := Zeros(Padded(|e.content|) - |e.content|);
    HeaderFields(e.name, |e.content|, e.gap1, e.gap2, d);
    assert Record(e) + rest == header + (e.content + (padding + rest));
    ReadOne(header, e.content, padding, rest, matches, Ustar(d));
  }

  lemma ReadOne(header: Bytes, content: Bytes, padding: Bytes, rest: Bytes, matches: seq<Notice>, f: Format)
    requires |header| == BLOCK && |padding| == Padded(|content|) - |content|
    requires f.name(header) != "" && f.size(header) == Some(|content|)
    ensures ReadTail(header + (content + (padding + rest)), matches, f) == ReadTail(rest, Collect(matches, f.name(header), content, f), f)
  {
    var tail := header + (content + (padding + rest));
    SplitTail(header, content, padding, rest);
    assert ReadHead(tail, f) == File(f.name(header), content, rest);
  }

  lemma SplitTail(header: Bytes, content: Bytes, padding: Bytes, rest: Bytes)
    requires |header| == BLOCK && |padding| == Padded(|content|) - |content|
    ensures var tail := header + (content + (padding + rest));
            && tail[..BLOCK] == header && tail[BLOCK..BLOCK + |content|] == content
            && Drop(tail, BLOCK + Padded(|content|)) == rest
  {
  }

  // Reading on behind written files is reading with their notices collected, up to eight.
  lemma {:induction false} ReadWritten(entries: seq<Entry>, rest: Bytes, matches: seq<Notice>, d: Decoders)
    requires forall e :: e in entries ==> ValidEntry(e, d)
    requires |matches| <= MAX_MATCHES
    ensures ReadTail(WriteAll(entries) + rest, matches, Ustar(d))
         == ReadTail(rest, Take(matches + NoticesOf(entries, d), MAX_MATCHES), Ustar(d))
  {
    if entries == [] {
      assert WriteAll(entries) + rest == rest;
      assert matches + [] == matches;
    } else {
      var e := entries[0];
      assert WriteAll(entries) + rest == Record(e) + (WriteAll(entries[1..]) + rest);
      ReadRecord(e, WriteAll(entries[1..]) + rest, matches, d);
      var collected := Collect(matches, d.name(e.name), e.content, Ustar(d));
      ReadWritten(entries[1..], rest, collected, d);
      CollectTake(matches, d.name(e.name), e.content, NoticesOf(entries[1..], d), Ustar(d));
    }
  }

  lemma CollectTake(matches: seq<Notice>, name: string, content: Bytes, later: seq<Notice>, f: Format)
    requires |matches| <= MAX_MATCHES
    ensures Take(Collect(matches, name, content, f) + later, MAX_MATCHES)
         == Take(matches + (NoticeOf(name, content, f) + later), MAX_MATCHES)
  {
    var found := NoticeOf(name, content, f);
    assert (matches + found) + later == matches + (found + later);
  }

  // A complete archive, closed by two zero blocks and followed by anything, yields the first eight notices
  // with their texts.
  lemma ReadsBackArchive(entries: seq<Entry>, after: Bytes, d: Decoders)
    requires forall e :: e in entries ==> ValidEntry(e, d)
    requires d.name([]) == ""
    ensures ReadTail(WriteAll(entries) + (Zeros(1024) + after), [], Ustar(d)) == Some(Take(NoticesOf(entries, d), MAX_MATCHES))
  {
    var end := Zeros(1024) + after;
    ReadWritten(entries, end, [], d);
    assert [] + NoticesOf(entries, d) == NoticesOf(entries, d);
    ZeroBlockEnds(end[..BLOCK], d);
  }

  lemma ZeroBlockEnds(header: Bytes, d: Decoders)
    requires |header| == BLOCK && header[0] == 0 && d.name([]) == ""
    ensures Ustar(d).name(header) == ""
  {
    assert CutAtZero(header[..100]) == [];
  }

  // Behind any written files, a header whose content overruns the archive, or whose size is no number,
  // makes the whole archive unreadable.
  lemma OverrunUnreadable(entries: seq<Entry>, bad: Bytes, d: Decoders)
    requires forall e :: e in entries ==> ValidEntry(e, d)
    requires |bad| >= BLOCK && NameField(bad[..BLOCK], d) != ""
    requires var size := SizeField(bad[..BLOCK]); size.None? || size.value < 0 || BLOCK + size.value > |bad|
    ensures ReadTail(WriteAll(entries) + bad, [], Ustar(d)) == None
  {
    ReadWritten(entries, bad, [], d);
  }

  // In particular, an archive cut off inside the content of a file is never taken to hold no notice.
  lemma TruncatedUnreadable(entries: seq<Entry>, e: Entry, cut: nat, d: Decoders)
    requires ValidEntry(e, d) && forall x :: x in entries ==> ValidEntry(x, d)
    requires BLOCK <= cut < BLOCK + |e.content|
    ensures cut <= |Record(e)| && ReadTail(WriteAll(entries) + Record(e)[..cut], [], Ustar(d)) == None
  {
    HeaderFields(e.name, |e.content|, e.gap1, e.gap2, d);
    var bad := Record(e)[..cut];
    assert bad[..BLOCK] == Header(e.name, |e.content|, e.gap1, e.gap2);
    OverrunUnreadable(entries, bad, d);
  }

  // On arbitrary bytes: never more than eight notices.
  lemma {:induction false} AtMostEight(tail: Bytes, matches: seq<Notice>, f: Format)
    requires |matches| <= MAX_MATCHES
    ensures var r := ReadTail(tail, matches, f); r.Some? ==> |r.value| <= MAX_MATCHES
    decreases |tail|
  {
    match ReadHead(tail, f)
    case File(name, content, rest) =>
      CollectBound(matches, name, content, f);
      AtMostEight(rest, Collect(matches, name, content, f), f);
    case _ =>
  }

  lemma CollectBound(matches: seq<Notice>, name: string, content: Bytes, f: Format)
    requires |matches| <= MAX_MATCHES
    ensures |Collect(matches, name, content, f)| <= MAX_MATCHES
  {
  }
}
