// A small capsule, followed through the claim check and the replay: an empty proof p beside the files
// capsules/x/verification.json and capsules/x/manifest.json, whose bytes are given. With bytes that are read as a
// sound record and manifest it shows what a replay without Lean does; with the bytes of an empty object in either
// file, what the check does.
module CapsuleExample {
  import opened Sequences
  import opened JsStrings
  import opened Base64
  import opened CapsulePaths
  import opened CapsuleArchive
  import opened CapsuleClaim
  import opened CapsuleReplay

  function ProofPath(): JsString { [112] }

  function Inside(name: JsString): JsString {
    Text("capsules") + [SLASH] + ([120] + [SLASH] + name)
  }

  function ThreeFiles(p: JsString, q: JsString, s: JsString, record: Bytes, content: Bytes, c: Codec): seq<FileRow> {
    [RowOf(p, [], c), RowOf(q, record, c), RowOf(s, content, c)]
  }

  // The paths p, capsules/x/verification.json and capsules/x/manifest.json.
  function ExampleFiles(record: Bytes, content: Bytes, c: Codec): seq<FileRow> {
    ThreeFiles(ProofPath(), Inside(Text("verification.json")), Inside(Text("manifest.json")), record, content, c)
  }

  function ExampleArchive(record: Bytes, content: Bytes, c: Codec): Archive {
    Archive(Manifest(FORMAT, 1, SCHEMA, Map(ArtifactOf, ExampleFiles(record, content, c))), ExampleFiles(record, content, c))
  }

  // The text {} of an empty object.
  predicate IsEmptyObject(bytes: Bytes) {
    bytes == [123, 125]
  }

  function ExampleRecord(sha: Bytes -> Digest): Record {
    Record(RECORD_SCHEMA, "x", Some(ClaimPart("C", [])), Some(FormalPart([], [])), Some(ProofPart(ProofPath(), sha([]))),
           Some(VerificationPart("V", ACCEPTED, None, Some([]))))
  }

  function ExampleContent(sha: Bytes -> Digest): Content {
    Content(CONTENT_SCHEMA, Some([Artifact(ProofPath(), sha([]), 0)]), Some([ClaimRow("C", CURRENT, Some("V"))]), 0, Some([]), Some(0))
  }

  // Encoding loses nothing, and every safe path is accepted.
  ghost predicate Usable(c: Codec) {
    (forall bytes :: c.decode(c.encode(bytes)) == bytes) && (forall p :: IsSafe(p) ==> c.safe(p))
  }

  lemma StandardUsable(sha: Bytes -> Digest)
    ensures Usable(Standard(sha))
  {
    forall bytes
      ensures Decode(Encode(bytes)) == bytes
    {
      RoundTrip(bytes);
    }
  }

  // An empty text gives neither scanner a reason.
  ghost predicate Harmless(r: Readers) {
    !r.secret([]) && !r.secret(r.text([])) && !r.forbidden(r.text([]))
  }

  // ---------------------------------------------------------------- the paths

  lemma Lettered(s: string)
    requires forall i :: 0 <= i < |s| ==> s[i] == '.' || 'a' <= s[i] <= 'z'
    ensures |Text(s)| == |s| && Clean(Text(s)) && forall i :: 0 <= i < |s| ==> Text(s)[i] == 46 || 97 <= Text(s)[i] <= 122
  {
  }

  lemma InsideSegments(name: JsString)
    requires Clean(name)
    ensures Segments(Inside(name)) == [Text("capsules"), [120], name]
  {
    Lettered("capsules");
    SegmentsOfOne(name);
    SegmentsBehind([120], name);
    SegmentsBehind(Text("capsules"), [120] + [SLASH] + name);
  }

  lemma InsideSafe(name: JsString)
    requires Clean(name) && |name| > 2 && forall i :: 0 <= i < |name| ==> name[i] != BACKSLASH
    ensures IsSafe(Inside(name)) && Forward(Inside(name)) == Inside(name) && |Inside(name)| == 11 + |name|
  {
    Lettered("capsules");
    InsideSegments(name);
    var p := Inside(name);
    assert forall i :: 0 <= i < |p| ==> p[i] != BACKSLASH;
    assert Forward(p) == p;
    assert !IsSeparator(p[0]) && p[1] != COLON;
    assert Proper(Segments(p));
    Accepted(p);
  }

  lemma ProofSafe()
    ensures IsSafe(ProofPath()) && Forward(ProofPath()) == ProofPath() && Segments(ProofPath()) == [ProofPath()]
  {
    var p := ProofPath();
    SegmentsOfOne(p);
    assert Forward(p) == p;
    assert Proper(Segments(p));
    Accepted(p);
  }

  // Three different safe paths that are stored as they are.
  ghost predicate ThreePaths(p: JsString, q: JsString, s: JsString, c: Codec) {
    && c.safe(p) && c.safe(q) && c.safe(s)
    && Forward(p) == p && Forward(q) == q && Forward(s) == s
    && p != q && p != s && q != s
  }

  lemma ThreeFilesPaths(p: JsString, q: JsString, s: JsString, record: Bytes, content: Bytes, c: Codec)
    requires ThreePaths(p, q, s, c)
    ensures var files := ThreeFiles(p, q, s, record, content, c); FilesSafe(files, c) && Distinct(Map(FilePath, files))
    ensures Map(FilePath, ThreeFiles(p, q, s, record, content, c)) == [p, q, s]
  {
    var files := ThreeFiles(p, q, s, record, content, c);
    assert Map(FilePath, files) == [p, q, s];
    assert forall f :: f in files ==> f.path == p || f.path == q || f.path == s;
  }

  lemma ThreeFilesBytes(p: JsString, q: JsString, s: JsString, record: Bytes, content: Bytes, c: Codec)
    requires ThreePaths(p, q, s, c) && Usable(c)
    ensures var files := ThreeFiles(p, q, s, record, content, c);
            BytesAt(files, p, c) == Some([]) && BytesAt(files, q, c) == Some(record) && BytesAt(files, s, c) == Some(content)
  {
    ThreeFilesPaths(p, q, s, record, content, c);
    var files := ThreeFiles(p, q, s, record, content, c);
    assert forall i :: 0 <= i < 3 ==> FilePath(files[i]) == Map(FilePath, files)[i];
    BytesAtIndex(files, 0, c);
    BytesAtIndex(files, 1, c);
    BytesAtIndex(files, 2, c);
  }

  lemma SecondIsRecord(p: JsString, q: JsString, s: JsString, record: Bytes, content: Bytes, c: Codec)
    requires Forward(p) == p && Forward(q) == q && !IsRecordPath(p) && IsRecordPath(q)
    ensures RecordPath(ThreeFiles(p, q, s, record, content, c)) == Some(q)
  {
    var files := ThreeFiles(p, q, s, record, content, c);
    assert files[1..][0] == files[1];
    assert RecordPath(files[1..]) == Some(q);
  }

  lemma ExamplePaths(c: Codec)
    requires Usable(c)
    ensures ThreePaths(ProofPath(), Inside(Text("verification.json")), Inside(Text("manifest.json")), c)
  {
    Lettered("verification.json");
    Lettered("manifest.json");
    ProofSafe();
    InsideSafe(Text("verification.json"));
    InsideSafe(Text("manifest.json"));
  }

  // ---------------------------------------------------------------- the archive is clean and both files are found

  lemma ThreeFilesClean(p: JsString, q: JsString, s: JsString, record: Bytes, content: Bytes, archive: Archive, c: Codec)
    requires ThreePaths(p, q, s, c) && Usable(c)
    requires archive.files == ThreeFiles(p, q, s, record, content, c)
    requires archive.manifest == Manifest(FORMAT, 1, SCHEMA, Map(ArtifactOf, archive.files))
    ensures Verified(archive, true, c) == Ok(Report(true, [], []))
  {
    ThreeFilesPaths(p, q, s, record, content, c);
    assert forall f :: f in archive.files ==>
      f == RowOf(f.path, [], c) || f == RowOf(f.path, record, c) || f == RowOf(f.path, content, c);
    FreshVerdict(archive, true, c);
  }

  lemma ExampleClean(record: Bytes, content: Bytes, c: Codec)
    requires Usable(c)
    ensures Verified(ExampleArchive(record, content, c), true, c) == Ok(Report(true, [], []))
  {
    ExamplePaths(c);
    ThreeFilesClean(ProofPath(), Inside(Text("verification.json")), Inside(Text("manifest.json")), record, content,
                    ExampleArchive(record, content, c), c);
  }

  lemma ExampleBytes(record: Bytes, content: Bytes, c: Codec)
    requires Usable(c)
    ensures var files := ExampleFiles(record, content, c);
            && BytesAt(files, ProofPath(), c) == Some([])
            && BytesAt(files, Inside(Text("verification.json")), c) == Some(record)
            && BytesAt(files, Inside(Text("manifest.json")), c) == Some(content)
  {
    ExamplePaths(c);
    ThreeFilesBytes(ProofPath(), Inside(Text("verification.json")), Inside(Text("manifest.json")), record, content, c);
  }

  lemma RecordPaths()
    ensures !IsRecordPath(ProofPath()) && IsRecordPath(Inside(Text("verification.json")))
  {
    ProofSafe();
    Lettered("verification.json");
    InsideSegments(Text("verification.json"));
  }

  lemma ManifestBeside(name: JsString, other: JsString)
    ensures Inside(name)[..|Inside(name)| - |name|] + other == Inside(other)
  {
    var front := Text("capsules") + [SLASH] + ([120] + [SLASH]);
    assert Inside(name) == front + name && Inside(other) == front + other;
  }

  lemma ExampleRecordPath(record: Bytes, content: Bytes, c: Codec)
    requires Usable(c)
    ensures RecordPath(ExampleFiles(record, content, c)) == Some(Inside(Text("verification.json")))
    ensures ContentPath(Inside(Text("verification.json"))) == Inside(Text("manifest.json"))
  {
    ExamplePaths(c);
    RecordPaths();
    SecondIsRecord(ProofPath(), Inside(Text("verification.json")), Inside(Text("manifest.json")), record, content, c);
    ManifestBeside(Text("verification.json"), Text("manifest.json"));
  }

  // The two files are parsed from the bytes they hold.
  lemma ExampleParses(record: Bytes, content: Bytes, c: Codec, r: Readers)
    requires Usable(c) && r.record(record).Value?
    ensures ParseBoth(ExampleFiles(record, content, c), c, r) == ParseContent(Some(content), Some(r.record(record).value), r)
  {
    ExampleRecordPath(record, content, c);
    ExampleBytes(record, content, c);
  }

  // The archive is clean, holds an empty proof, and its two files are parsed.
  ghost predicate Opened(archive: Archive, parses: Parses, c: Codec, r: Readers) {
    && Verified(archive, true, c) == Ok(Report(true, [], []))
    && BytesAt(archive.files, ProofPath(), c) == Some([])
    && ParseBoth(archive.files, c, r) == parses
  }

  lemma ExampleOpened(record: Bytes, content: Bytes, c: Codec, r: Readers)
    requires Usable(c) && r.record(record).Value?
    ensures Opened(ExampleArchive(record, content, c), ParseContent(Some(content), Some(r.record(record).value), r), c, r)
  {
    ExampleClean(record, content, c);
    ExampleParses(record, content, c, r);
    ExampleBytes(record, content, c);
  }

  // ---------------------------------------------------------------- three outcomes

  lemma SoundAccepted(archive: Archive, parses: Parses, c: Codec, r: Readers)
    requires Harmless(r) && parses == Parses(false, Some(ExampleRecord(c.sha)), Some(ExampleContent(c.sha)))
    requires Opened(archive, parses, c, r)
    ensures Acceptable(archive, c, r)
  {
    var content := ExampleContent(c.sha);
    assert content.claims.value[0] in content.claims.value;
    assert FirstHash(content.artifacts.value, ProofPath()) == Some(c.sha([]));
  }

  method ReplaySound(archive: Archive, parses: Parses, c: Codec, r: Readers) returns (outcome: Outcome)
    requires Harmless(r) && parses == Parses(false, Some(ExampleRecord(c.sha)), Some(ExampleContent(c.sha)))
    requires Opened(archive, parses, c, r)
    ensures outcome == WrittenUnchecked(archive.files)
  {
    SoundAccepted(archive, parses, c, r);
    outcome := ReplayClaim(archive, Some(true), None, 0, c, r);
  }

  method CheckMisshapen(archive: Archive, parses: Parses, c: Codec, r: Readers) returns (result: Result<Checked>)
    requires Opened(archive, parses, c, r) && parses.record.Some?
    requires parses.record.value.claim.None? || (parses.content.Some? && parses.content.value.claims.None?)
    ensures result == Err(Misshapen)
  {
    result := VerifyClaim(archive, c, r);
  }

  // Without Lean the files of a capsule that names no toolchain are written, and then the call fails.
  method ReplayWithoutLean(record: Bytes, content: Bytes, c: Codec, r: Readers) returns (outcome: Outcome)
    requires Usable(c) && Harmless(r) && record != content
    requires r.record(record) == Value(ExampleRecord(c.sha)) && r.content(content) == Value(ExampleContent(c.sha))
    ensures outcome == WrittenUnchecked(ExampleFiles(record, content, c))
  {
    ExampleOpened(record, content, c, r);
    outcome := ReplaySound(ExampleArchive(record, content, c), Parses(false, Some(ExampleRecord(c.sha)), Some(ExampleContent(c.sha))), c, r);
  }

  // A record file {} makes the claim check itself fail, whatever the manifest's file holds, readable or not.
  method CheckEmptyRecord(record: Bytes, content: Bytes, c: Codec, r: Readers) returns (result: Result<Checked>)
    requires Usable(c) && IsEmptyObject(record) && r.record(record) == Value(Record("", "", None, None, None, None))
    ensures result == Err(Misshapen)
  {
    ExampleOpened(record, content, c, r);
    var parses := ParseContent(Some(content), Some(r.record(record).value), r);
    result := CheckMisshapen(ExampleArchive(record, content, c), parses, c, r);
  }

  // So does a manifest file {}, beside a sound record.
  method CheckEmptyManifest(record: Bytes, content: Bytes, c: Codec, r: Readers) returns (result: Result<Checked>)
    requires Usable(c) && IsEmptyObject(content) && r.content(content) == Value(Content("", None, None, 0, None, None))
    requires record != content && r.record(record) == Value(ExampleRecord(c.sha))
    ensures result == Err(Misshapen)
  {
    ExampleOpened(record, content, c, r);
    var parses := ParseContent(Some(content), Some(r.record(record).value), r);
    result := CheckMisshapen(ExampleArchive(record, content, c), parses, c, r);
  }
}
