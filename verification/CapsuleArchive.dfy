// Capsule archives: what the export puts into one, and what the verification reads out of it. The export
// is a chain of expressions; the verification is a sequence of loops that fill maps and lists of problems,
// each proved against a function on the same values, about which the results are stated.
module CapsuleArchive {
  import opened Sequences
  import opened Sorting
  import opened JsStrings
  import opened Base64
  import opened CapsulePaths

  type Digest = string

  datatype Artifact = Artifact(path: JsString, sha256: Digest, size: nat)
  datatype FileRow = FileRow(path: JsString, sha256: Digest, size: nat, data: string)
  datatype Manifest = Manifest(format: string, formatVersion: int, schemaVersion: string, artifacts: seq<Artifact>)
  datatype Archive = Archive(manifest: Manifest, files: seq<FileRow>)

  // Misshapen stands for the TypeError of reading a property of a value that is not there.
  datatype Error = PathUnsafe | NotARegularFile | FormatUnsupported | SchemaInvalid | DuplicatePath | Misshapen
  datatype Result<T> = Ok(value: T) | Err(error: Error)

  datatype Problem = FileMissing(path: JsString) | HashMismatch(path: JsString) | ExtraFile(path: JsString)
  datatype Report = Report(ok: bool, errors: seq<Problem>, warnings: seq<Problem>)

  const FORMAT := "mathos-capsule"
  const SCHEMA := "mathos-capsule-archive-v1"

  // ---------------------------------------------------------------- export

  // What export and verification call: whether a path is safe (it is then stored as Forward of it), the hash,
  // and the two directions of base64.
  datatype Codec = Codec(safe: JsString -> bool, sha: Bytes -> Digest, encode: Bytes -> string, decode: string -> Bytes)

  function Standard(sha: Bytes -> Digest): Codec {
    Codec(IsSafe, sha, Encode, Decode)
  }

  predicate IsSafe(p: JsString) { Validate(p).Some? }

  // Every path in its stored form, or None when one of them is refused.
  function ValidateAll(paths: seq<JsString>, c: Codec): Option<seq<JsString>> {
    if forall p :: p in paths ==> c.safe(p) then Some(Map(Forward, paths)) else None
  }

  function RowOf(path: JsString, bytes: Bytes, c: Codec): FileRow {
    FileRow(path, c.sha(bytes), |bytes|, c.encode(bytes))
  }

  // `store` gives the bytes of the regular files below the root.
  function ReadAll(paths: seq<JsString>, store: JsString -> Option<Bytes>, c: Codec): (r: Option<seq<FileRow>>)
    ensures r.Some? <==> forall p :: p in paths ==> store(p).Some?
    ensures r.Some? ==> |r.value| == |paths|
    ensures r.Some? ==> forall i :: 0 <= i < |paths| ==> store(paths[i]).Some? && r.value[i] == RowOf(paths[i], store(paths[i]).value, c)
  {
    if paths == [] then Some([])
    else
      var rest := ReadAll(paths[1..], store, c);
      if store(paths[0]).None? || rest.None? then None else Some([RowOf(paths[0], store(paths[0]).value, c)] + rest.value)
  }

  function ArtifactOf(f: FileRow): Artifact { Artifact(f.path, f.sha256, f.size) }

  function Export(paths: seq<JsString>, store: JsString -> Option<Bytes>, c: Codec): Result<Archive> {
    match ValidateAll(FirstSeen(paths), c)
    case None => Err(PathUnsafe)
    case Some(safe) =>
      match ReadAll(SortStrings(safe), store, c)
      case None => Err(NotARegularFile)
      case Some(files) => Ok(Archive(Manifest(FORMAT, 1, SCHEMA, Map(ArtifactOf, files)), files))
  }

  // ---------------------------------------------------------------- what verification computes

  function Inspect(m: Manifest): Option<Error> {
    if m.formatVersion > 1 then Some(FormatUnsupported)
    else if m.format != FORMAT && m.schemaVersion != SCHEMA then Some(SchemaInvalid)
    else None
  }

  function ArtifactPath(a: Artifact): JsString { Forward(a.path) }
  function FilePath(f: FileRow): JsString { Forward(f.path) }

  // The expected rows by path; a later row for the same path replaces an earlier one.
  function ExpectedRows(artifacts: seq<Artifact>): (m: map<JsString, Artifact>)
    ensures forall p :: p in m <==> p in Map(ArtifactPath, artifacts)
  {
    if artifacts == [] then map[]
    else
      var front, last := artifacts[..|artifacts| - 1], artifacts[|artifacts| - 1];
      assert Map(ArtifactPath, artifacts) == Map(ArtifactPath, front) + [ArtifactPath(last)];
      ExpectedRows(front)[ArtifactPath(last) := last]
  }

  predicate ArtifactsSafe(artifacts: seq<Artifact>, c: Codec) {
    forall a :: a in artifacts ==> c.safe(a.path)
  }

  function ActualRows(files: seq<FileRow>, c: Codec): Result<map<JsString, FileRow>> {
    if files == [] then Ok(map[])
    else
      var last := files[|files| - 1];
      match ActualRows(files[..|files| - 1], c)
      case Err(e) => Err(e)
      case Ok(m) =>
        if !c.safe(last.path) then Err(PathUnsafe)
        else if FilePath(last) in m then Err(DuplicatePath)
        else Ok(m[FilePath(last) := last])
  }

  predicate Matches(f: FileRow, a: Artifact, c: Codec) {
    c.sha(c.decode(f.data)) == a.sha256
  }

  function ProblemOf(path: JsString, a: Artifact, actual: map<JsString, FileRow>, c: Codec): seq<Problem> {
    if path !in actual then [FileMissing(path)]
    else if !Matches(actual[path], a, c) then [HashMismatch(path)]
    else []
  }

  function Problems(paths: seq<JsString>, expected: map<JsString, Artifact>, actual: map<JsString, FileRow>, c: Codec): seq<Problem>
    requires forall p :: p in paths ==> p in expected
  {
    if paths == [] then []
    else
      var last := paths[|paths| - 1];
      Problems(paths[..|paths| - 1], expected, actual, c) + ProblemOf(last, expected[last], actual, c)
  }

  function Extras(files: seq<FileRow>, expected: map<JsString, Artifact>): seq<Problem> {
    if files == [] then []
    else
      var path := FilePath(files[|files| - 1]);
      Extras(files[..|files| - 1], expected) + if path in expected then [] else [ExtraFile(path)]
  }

  function ReportOf(problems: seq<Problem>, extras: seq<Problem>, failExtra: bool): Report {
    var errors := if failExtra then problems + extras else problems;
    Report(errors == [], errors, if failExtra then [] else extras)
  }

  function Verified(archive: Archive, failExtra: bool, c: Codec): Result<Report> {
    var artifacts := archive.manifest.artifacts;
    match Inspect(archive.manifest)
    case Some(e) => Err(e)
    case None =>
      if !ArtifactsSafe(artifacts, c) then Err(PathUnsafe)
      else
        match ActualRows(archive.files, c)
        case Err(e) => Err(e)
        case Ok(actual) =>
          Ok(ReportOf(Problems(FirstSeen(Map(ArtifactPath, artifacts)), ExpectedRows(artifacts), actual, c),
                   Extras(archive.files, ExpectedRows(artifacts)), failExtra))
  }

  // ---------------------------------------------------------------- verification, step by step

  method VerifyArchive(archive: Archive, failExtra: bool, c: Codec) returns (result: Result<Report>)
    ensures result == Verified(archive, failExtra, c)
  {
    var refused := Inspect(archive.manifest);
    if refused.Some? {
      return Err(refused.value);
    }
    var artifacts := archive.manifest.artifacts;
    var indexed := IndexArtifacts(artifacts, c);
    if indexed.None? {
      return Err(PathUnsafe);
    }
    var expected := indexed.value;
    var rows := IndexFiles(archive.files, c);
    if rows.Err? {
      return Err(rows.error);
    }
    var problems := CheckExpected(FirstSeen(Map(ArtifactPath, artifacts)), expected, rows.value, c);
    var extras := FindExtras(archive.files, expected);
    result := Ok(ReportOf(problems, extras, failExtra));
  }

  method IndexArtifacts(artifacts: seq<Artifact>, c: Codec) returns (expected: Option<map<JsString, Artifact>>)
    ensures expected == if ArtifactsSafe(artifacts, c) then Some(ExpectedRows(artifacts)) else None
  {
    var m := map[];
    for k := 0 to |artifacts|
      invariant ArtifactsSafe(artifacts[..k], c) && m == ExpectedRows(artifacts[..k])
    {
      IndexStep(artifacts, k, c);
      if !c.safe(artifacts[k].path) {
        return None;
      }
      m := m[ArtifactPath(artifacts[k]) := artifacts[k]];
    }
    assert artifacts[..|artifacts|] == artifacts;
    return Some(m);
  }

  lemma IndexStep(artifacts: seq<Artifact>, k: nat, c: Codec)
    requires k < |artifacts|
    ensures ExpectedRows(artifacts[..k + 1]) == ExpectedRows(artifacts[..k])[ArtifactPath(artifacts[k]) := artifacts[k]]
    ensures ArtifactsSafe(artifacts[..k + 1], c) <==> ArtifactsSafe(artifacts[..k], c) && c.safe(artifacts[k].path)
    ensures !c.safe(artifacts[k].path) ==> !ArtifactsSafe(artifacts, c)
  {
    PrefixStep(artifacts, k);
    assert artifacts[k] in artifacts;
  }

  method IndexFiles(files: seq<FileRow>, c: Codec) returns (rows: Result<map<JsString, FileRow>>)
    ensures rows == ActualRows(files, c)
  {
    var m := map[];
    for k := 0 to |files|
      invariant ActualRows(files[..k], c) == Ok(m)
    {
      PrefixStep(files, k);
      var path := FilePath(files[k]);
      if !c.safe(files[k].path) {
        RefusalStays(files, k + 1, c);
        return Err(PathUnsafe);
      }
      if path in m {
        RefusalStays(files, k + 1, c);
        return Err(DuplicatePath);
      }
      m := m[path := files[k]];
    }
    assert files[..|files|] == files;
    return Ok(m);
  }

  lemma {:induction false} RefusalStays(files: seq<FileRow>, k: nat, c: Codec)
    requires k <= |files| && ActualRows(files[..k], c).Err?
    ensures ActualRows(files, c) == ActualRows(files[..k], c)
    decreases |files|
  {
    if k == |files| {
      assert files[..k] == files;
    } else {
      assert files[..|files| - 1][..k] == files[..k];
      RefusalStays(files[..|files| - 1], k, c);
    }
  }

  method CheckExpected(paths: seq<JsString>, expected: map<JsString, Artifact>, actual: map<JsString, FileRow>, c: Codec) returns (problems: seq<Problem>)
    requires forall p :: p in paths ==> p in expected
    ensures problems == Problems(paths, expected, actual, c)
  {
    problems := [];
    for k := 0 to |paths|
      invariant problems == Problems(paths[..k], expected, actual, c)
    {
      PrefixStep(paths, k);
      var path := paths[k];
      if path !in actual {
        problems := problems + [FileMissing(path)];
        continue;
      }
      var bytes := c.decode(actual[path].data);
      if c.sha(bytes) != expected[path].sha256 {
        problems := problems + [HashMismatch(path)];
      }
    }
    assert paths[..|paths|] == paths;
  }

  method FindExtras(files: seq<FileRow>, expected: map<JsString, Artifact>) returns (extras: seq<Problem>)
    ensures extras == Extras(files, expected)
  {
    extras := [];
    for k := 0 to |files|
      invariant extras == Extras(files[..k], expected)
    {
      PrefixStep(files, k);
      if FilePath(files[k]) !in expected {
        extras := extras + [ExtraFile(FilePath(files[k]))];
      }
    }
    assert files[..|files|] == files;
  }

  // ---------------------------------------------------------------- what a clean verdict means

  ghost predicate FilesSafe(files: seq<FileRow>, c: Codec) {
    forall f :: f in files ==> c.safe(f.path)
  }

  // The rows by path, each file under its own.
  ghost predicate Indexed(files: seq<FileRow>, rows: map<JsString, FileRow>) {
    && (forall p :: p in rows <==> p in Map(FilePath, files))
    && (forall i :: 0 <= i < |files| ==> FilePath(files[i]) in rows && rows[FilePath(files[i])] == files[i])
  }

  lemma PathsAppend(front: seq<FileRow>, last: FileRow)
    ensures Map(FilePath, front + [last]) == Map(FilePath, front) + [FilePath(last)]
  {
  }

  lemma IndexedAppend(front: seq<FileRow>, last: FileRow, rows: map<JsString, FileRow>)
    requires Indexed(front, rows) && FilePath(last) !in rows
    ensures Indexed(front + [last], rows[FilePath(last) := last])
  {
    PathsAppend(front, last);
  }

  lemma DistinctAppend(s: seq<JsString>, x: JsString)
    ensures Distinct(s + [x]) <==> Distinct(s) && x !in s
  {
    assert forall i :: 0 <= i < |s| ==> (s + [x])[i] == s[i];
    assert (s + [x])[|s|] == x;
  }

  // The files can be indexed exactly when their paths are safe and stored differently.
  lemma {:induction false} IndexedExactly(files: seq<FileRow>, c: Codec)
    ensures ActualRows(files, c).Ok? <==> FilesSafe(files, c) && Distinct(Map(FilePath, files))
    ensures ActualRows(files, c).Ok? ==> Indexed(files, ActualRows(files, c).value)
  {
    if files != [] {
      var front, last := files[..|files| - 1], files[|files| - 1];
      IndexedExactly(front, c);
      assert files == front + [last];
      PathsAppend(front, last);
      DistinctAppend(Map(FilePath, front), FilePath(last));
      if ActualRows(front, c).Ok? && FilePath(last) !in ActualRows(front, c).value {
        IndexedAppend(front, last, ActualRows(front, c).value);
      }
    }
  }

  lemma {:induction false} NoProblemsExactly(paths: seq<JsString>, expected: map<JsString, Artifact>, actual: map<JsString, FileRow>, c: Codec)
    requires forall p :: p in paths ==> p in expected
    ensures Problems(paths, expected, actual, c) == [] <==> forall p :: p in paths ==> p in actual && Matches(actual[p], expected[p], c)
  {
    if paths != [] {
      var front, last := paths[..|paths| - 1], paths[|paths| - 1];
      assert paths == front + [last];
      NoProblemsExactly(front, expected, actual, c);
    }
  }

  lemma {:induction false} NoExtrasExactly(files: seq<FileRow>, expected: map<JsString, Artifact>)
    ensures Extras(files, expected) == [] <==> forall p :: p in Map(FilePath, files) ==> p in expected
  {
    if files != [] {
      var front, last := files[..|files| - 1], files[|files| - 1];
      assert Map(FilePath, files) == Map(FilePath, front) + [FilePath(last)];
      NoExtrasExactly(front, expected);
    }
  }

  // Header accepted, all paths safe, no two files stored alike, every artifact's file there with its hash.
  ghost predicate Complete(archive: Archive, c: Codec) {
    var artifacts, files := archive.manifest.artifacts, archive.files;
    && Inspect(archive.manifest).None?
    && ArtifactsSafe(artifacts, c) && FilesSafe(files, c) && Distinct(Map(FilePath, files))
    && (forall p :: p in Map(ArtifactPath, artifacts) ==> p in Map(FilePath, files))
    && (forall i :: 0 <= i < |files| && FilePath(files[i]) in ExpectedRows(artifacts) ==> Matches(files[i], ExpectedRows(artifacts)[FilePath(files[i])], c))
  }

  ghost predicate NothingExtra(archive: Archive) {
    forall p :: p in Map(FilePath, archive.files) ==> p in Map(ArtifactPath, archive.manifest.artifacts)
  }

  // Under the FAIL policy a clean verdict means the same paths on both sides and every file matching its
  // hash; under WARN, files may be extra, and the warnings say whether any is.
  lemma CleanExactly(archive: Archive, failExtra: bool, c: Codec)
    ensures var v := Verified(archive, failExtra, c);
            && (v.Ok? && v.value.ok <==> Complete(archive, c) && (failExtra ==> NothingExtra(archive)))
            && (v.Ok? ==> (v.value.warnings == [] <==> failExtra || NothingExtra(archive)))
  {
    var files := archive.files;
    IndexedExactly(files, c);
    if Inspect(archive.manifest).None? && ArtifactsSafe(archive.manifest.artifacts, c) && ActualRows(files, c).Ok? {
      CleanReportExactly(archive, ActualRows(files, c).value, failExtra, c);
    }
  }

  lemma CleanReportExactly(archive: Archive, actual: map<JsString, FileRow>, failExtra: bool, c: Codec)
    requires Inspect(archive.manifest).None? && ArtifactsSafe(archive.manifest.artifacts, c) && ActualRows(archive.files, c) == Ok(actual)
    ensures var v := Verified(archive, failExtra, c);
            && v.Ok?
            && (v.value.ok <==> Complete(archive, c) && (failExtra ==> NothingExtra(archive)))
            && (v.value.warnings == [] <==> failExtra || NothingExtra(archive))
  {
    var expected := ExpectedRows(archive.manifest.artifacts);
    NoProblemsExactly(FirstSeen(Map(ArtifactPath, archive.manifest.artifacts)), expected, actual, c);
    CompleteByIndex(archive, actual, c);
    NoExtrasExactly(archive.files, expected);
  }

  // The same, with the files looked up by path.
  ghost predicate AllMatch(expected: map<JsString, Artifact>, actual: map<JsString, FileRow>, c: Codec) {
    forall p :: p in expected ==> p in actual && Matches(actual[p], expected[p], c)
  }

  lemma CompleteByIndex(archive: Archive, actual: map<JsString, FileRow>, c: Codec)
    requires Inspect(archive.manifest).None? && ArtifactsSafe(archive.manifest.artifacts, c) && ActualRows(archive.files, c) == Ok(actual)
    ensures Complete(archive, c) <==> AllMatch(ExpectedRows(archive.manifest.artifacts), actual, c)
  {
    IndexedExactly(archive.files, c);
    if Complete(archive, c) {
      CompleteMatches(archive, actual, c);
    }
  }

  lemma CompleteMatches(archive: Archive, actual: map<JsString, FileRow>, c: Codec)
    requires Complete(archive, c) && ActualRows(archive.files, c) == Ok(actual)
    ensures AllMatch(ExpectedRows(archive.manifest.artifacts), actual, c)
  {
    IndexedExactly(archive.files, c);
    var expected := ExpectedRows(archive.manifest.artifacts);
    forall p | p in expected
      ensures p in actual && Matches(actual[p], expected[p], c)
    {
      var i :| 0 <= i < |archive.files| && Map(FilePath, archive.files)[i] == p;
      assert FilePath(archive.files[i]) == p;
    }
  }

  // ---------------------------------------------------------------- a fresh export

  // Stored paths are safe, and are stored as themselves.
  lemma StoredPathsSafe(paths: seq<JsString>, c: Codec, sha: Bytes -> Digest)
    requires c == Standard(sha) && forall p :: p in paths ==> c.safe(p)
    ensures forall q :: q in Map(Forward, paths) ==> c.safe(q) && Forward(q) == q
  {
    forall q | q in Map(Forward, paths)
      ensures IsSafe(q) && Forward(q) == q
    {
      var i :| 0 <= i < |paths| && Map(Forward, paths)[i] == q;
      assert paths[i] in paths && IsSafe(paths[i]);
      ValidateIdempotent(paths[i]);
    }
  }

  lemma ExportShape(paths: seq<JsString>, store: JsString -> Option<Bytes>, c: Codec)
    requires Export(paths, store, c).Ok?
    ensures var sorted := SortStrings(Map(Forward, FirstSeen(paths)));
            && (forall p :: p in FirstSeen(paths) ==> c.safe(p))
            && ReadAll(sorted, store, c) == Some(Export(paths, store, c).value.files)
  {
  }

  lemma SortedPathsSafe(paths: seq<JsString>, c: Codec, sha: Bytes -> Digest)
    requires c == Standard(sha) && forall p :: p in paths ==> c.safe(p)
    ensures forall q :: q in SortStrings(Map(Forward, paths)) ==> c.safe(q) && Forward(q) == q
  {
    StoredPathsSafe(paths, c, sha);
    SortMembers(Map(Forward, paths), StringLe);
  }

  // The exported rows carry their files' bytes, under the sorted stored paths.
  lemma ExportedFiles(paths: seq<JsString>, store: JsString -> Option<Bytes>, c: Codec, sha: Bytes -> Digest)
    requires c == Standard(sha) && Export(paths, store, c).Ok?
    ensures var files := Export(paths, store, c).value.files;
            && Map(FilePath, files) == SortStrings(Map(Forward, FirstSeen(paths)))
            && forall i :: 0 <= i < |files| ==>
                 && c.safe(files[i].path) && FilePath(files[i]) == files[i].path
                 && store(files[i].path).Some? && files[i] == RowOf(files[i].path, store(files[i].path).value, c)
  {
    ExportShape(paths, store, c);
    SortedPathsSafe(FirstSeen(paths), c, sha);
    ReadRows(SortStrings(Map(Forward, FirstSeen(paths))), store, c, Export(paths, store, c).value.files);
  }

  lemma ReadRows(sorted: seq<JsString>, store: JsString -> Option<Bytes>, c: Codec, files: seq<FileRow>)
    requires ReadAll(sorted, store, c) == Some(files)
    requires forall q :: q in sorted ==> c.safe(q) && Forward(q) == q
    ensures Map(FilePath, files) == sorted
    ensures forall i :: 0 <= i < |files| ==>
              && c.safe(files[i].path) && FilePath(files[i]) == files[i].path
              && store(files[i].path).Some? && files[i] == RowOf(files[i].path, store(files[i].path).value, c)
  {
    assert forall i :: 0 <= i < |files| ==> files[i].path == sorted[i] && sorted[i] in sorted;
    assert Map(FilePath, files) == sorted;
  }

  lemma {:induction false} ExpectedMember(artifacts: seq<Artifact>, path: JsString)
    requires path in ExpectedRows(artifacts)
    ensures ExpectedRows(artifacts)[path] in artifacts && ArtifactPath(ExpectedRows(artifacts)[path]) == path
  {
    var front, last := artifacts[..|artifacts| - 1], artifacts[|artifacts| - 1];
    assert artifacts == front + [last];
    if ArtifactPath(last) != path {
      ExpectedMember(front, path);
    }
  }

  lemma ExpectedOfFiles(files: seq<FileRow>, i: nat)
    requires Distinct(Map(FilePath, files)) && i < |files|
    ensures var expected := ExpectedRows(Map(ArtifactOf, files));
            FilePath(files[i]) in expected && expected[FilePath(files[i])] == ArtifactOf(files[i])
  {
    var artifacts, path := Map(ArtifactOf, files), FilePath(files[i]);
    assert Map(ArtifactPath, artifacts)[i] == path;
    ExpectedMember(artifacts, path);
    var k :| 0 <= k < |artifacts| && artifacts[k] == ExpectedRows(artifacts)[path];
    assert Map(FilePath, files)[k] == Map(FilePath, files)[i];
  }

  // No two of the paths differ in the kind of their separators only.
  ghost predicate SpelledOnce(paths: seq<JsString>) {
    forall p, q :: p in paths && q in paths && SameUpToSeparators(p, q) ==> p == q
  }

  lemma SpelledOnceExactly(paths: seq<JsString>)
    requires forall p :: p in paths ==> IsSafe(p)
    ensures SpelledOnce(paths) <==> Distinct(Map(Forward, FirstSeen(paths)))
  {
    var unique := FirstSeen(paths);
    FirstSeenDistinct(paths);
    forall p, q | p in unique && q in unique
      ensures Forward(p) == Forward(q) <==> SameUpToSeparators(p, q)
    {
      Accepted(p);
      Accepted(q);
      StoredAlike(p, q);
    }
    DistinctImages(unique, paths);
  }

  lemma DistinctImages(unique: seq<JsString>, paths: seq<JsString>)
    requires Distinct(unique) && forall p :: p in unique <==> p in paths
    requires forall p, q :: p in unique && q in unique ==> (Forward(p) == Forward(q) <==> SameUpToSeparators(p, q))
    ensures SpelledOnce(paths) <==> Distinct(Map(Forward, unique))
  {
    var images := Map(Forward, unique);
    if SpelledOnce(paths) {
      forall i, j | 0 <= i < j < |images|
        ensures images[i] != images[j]
      {
        assert unique[i] in unique && unique[j] in unique && unique[i] != unique[j];
      }
    } else {
      var p, q :| p in paths && q in paths && SameUpToSeparators(p, q) && p != q;
      var i :| 0 <= i < |unique| && unique[i] == p;
      var j :| 0 <= j < |unique| && unique[j] == q;
      assert images[i] == images[j];
    }
  }

  lemma IndexFails(files: seq<FileRow>, c: Codec)
    requires FilesSafe(files, c) && !Distinct(Map(FilePath, files))
    ensures ActualRows(files, c) == Err(DuplicatePath)
  {
    OnlyDuplicates(files, c);
    IndexedExactly(files, c);
  }

  lemma {:induction false} OnlyDuplicates(files: seq<FileRow>, c: Codec)
    requires FilesSafe(files, c)
    ensures ActualRows(files, c).Ok? || ActualRows(files, c).error == DuplicatePath
  {
    if files != [] {
      OnlyDuplicates(files[..|files| - 1], c);
    }
  }

  lemma FreshFacts(paths: seq<JsString>, store: JsString -> Option<Bytes>, c: Codec, sha: Bytes -> Digest)
    requires c == Standard(sha) && Export(paths, store, c).Ok?
    ensures var archive := Export(paths, store, c).value;
            && archive.manifest == Manifest(FORMAT, 1, SCHEMA, Map(ArtifactOf, archive.files))
            && FilesSafe(archive.files, c)
            && (forall f :: f in archive.files ==> exists bytes :: f == RowOf(f.path, bytes, c))
            && (Distinct(Map(FilePath, archive.files)) <==> SpelledOnce(paths))
  {
    ExportedFiles(paths, store, c, sha);
    assert forall p :: p in paths ==> p in FirstSeen(paths) && c.safe(p);
    SpelledOnceExactly(paths);
    SortKeepsDistinct(Map(Forward, FirstSeen(paths)));
    forall f | f in Export(paths, store, c).value.files
      ensures c.safe(f.path) && f == RowOf(f.path, store(f.path).value, c)
    {
    }
  }

  // A freshly exported archive verifies with no error and no warning, unless two input paths differ in the
  // kind of their separators only: then verification refuses it for a duplicate path.
  lemma FreshExportVerifies(paths: seq<JsString>, store: JsString -> Option<Bytes>, c: Codec, sha: Bytes -> Digest, failExtra: bool)
    requires c == Standard(sha) && Export(paths, store, c).Ok?
    ensures Verified(Export(paths, store, c).value, failExtra, c)
         == if SpelledOnce(paths) then Ok(Report(true, [], [])) else Err(DuplicatePath)
  {
    FreshFacts(paths, store, c, sha);
    assert forall bytes :: c.decode(c.encode(bytes)) == bytes by {
      forall bytes ensures Decode(Encode(bytes)) == bytes { RoundTrip(bytes); }
    }
    FreshVerdict(Export(paths, store, c).value, failExtra, c);
  }

  lemma FreshVerdict(archive: Archive, failExtra: bool, c: Codec)
    requires forall bytes :: c.decode(c.encode(bytes)) == bytes
    requires archive.manifest == Manifest(FORMAT, 1, SCHEMA, Map(ArtifactOf, archive.files))
    requires FilesSafe(archive.files, c)
    requires forall f :: f in archive.files ==> exists bytes :: f == RowOf(f.path, bytes, c)
    ensures Verified(archive, failExtra, c)
         == if Distinct(Map(FilePath, archive.files)) then Ok(Report(true, [], [])) else Err(DuplicatePath)
  {
    assert ArtifactsSafe(archive.manifest.artifacts, c);
    if Distinct(Map(FilePath, archive.files)) {
      FreshComplete(archive, c);
      CleanExactly(archive, failExtra, c);
      CleanReport(archive, failExtra, c);
    } else {
      IndexFails(archive.files, c);
    }
  }

  lemma CleanReport(archive: Archive, failExtra: bool, c: Codec)
    requires var v := Verified(archive, failExtra, c); v.Ok? && v.value.ok && v.value.warnings == []
    ensures Verified(archive, failExtra, c) == Ok(Report(true, [], []))
  {
  }

  lemma SortKeepsDistinct(s: seq<JsString>)
    ensures Distinct(s) <==> Distinct(SortStrings(s))
  {
    if Distinct(s) { PermutationDistinct(s, SortStrings(s)); }
    if Distinct(SortStrings(s)) { PermutationDistinct(SortStrings(s), s); }
  }

  lemma FreshComplete(archive: Archive, c: Codec)
    requires forall bytes :: c.decode(c.encode(bytes)) == bytes
    requires archive.manifest == Manifest(FORMAT, 1, SCHEMA, Map(ArtifactOf, archive.files))
    requires FilesSafe(archive.files, c) && ArtifactsSafe(archive.manifest.artifacts, c) && Distinct(Map(FilePath, archive.files))
    requires forall f :: f in archive.files ==> exists bytes :: f == RowOf(f.path, bytes, c)
    ensures Complete(archive, c) && NothingExtra(archive)
  {
    var files := archive.files;
    assert Map(ArtifactPath, archive.manifest.artifacts) == Map(FilePath, files);
    forall i | 0 <= i < |files|
      ensures var expected := ExpectedRows(archive.manifest.artifacts);
              FilePath(files[i]) in expected && Matches(files[i], expected[FilePath(files[i])], c)
    {
      ExpectedOfFiles(files, i);
      assert files[i] in files;
      var bytes :| files[i] == RowOf(files[i].path, bytes, c);
    }
  }

  // Two spellings of one path, as in "a\\b" and "a/b": the export succeeds and its archive is refused.
  lemma TwoSpellings(p: JsString, q: JsString, store: JsString -> Option<Bytes>, c: Codec, sha: Bytes -> Digest, failExtra: bool)
    requires p == [97, BACKSLASH, 98] && q == [97, SLASH, 98] && store(q).Some? && c == Standard(sha)
    ensures Export([p, q], store, c).Ok?
    ensures Verified(Export([p, q], store, c).value, failExtra, c) == Err(DuplicatePath)
  {
    SpellingsValid(p, q);
    Exportable([p, q], q, store, c);
    assert p in [p, q] && q in [p, q] && SameUpToSeparators(p, q);
    FreshExportVerifies([p, q], store, c, sha, failExtra);
  }

  lemma Exportable(paths: seq<JsString>, q: JsString, store: JsString -> Option<Bytes>, c: Codec)
    requires store(q).Some? && forall p :: p in paths ==> c.safe(p) && Forward(p) == q
    ensures Export(paths, store, c).Ok?
  {
    var stored := Map(Forward, FirstSeen(paths));
    SortMembers(stored, StringLe);
  }

  lemma SpellingsValid(p: JsString, q: JsString)
    requires p == [97, BACKSLASH, 98] && q == [97, SLASH, 98]
    ensures IsSafe(p) && IsSafe(q) && Forward(p) == Forward(q) == q
  {
    assert Forward(p) == q && Forward(q) == q;
    assert q == [97] + [SLASH] + [98];
    SegmentsOfOne([98]);
    SegmentsBehind([97], [98]);
    assert Segments(q) == [[97], [98]];
    ProperIsNormal(q);
  }

  // The archive does not depend on the order of the input paths, nor on repetitions.
  lemma ExportByElements(paths: seq<JsString>, paths': seq<JsString>, store: JsString -> Option<Bytes>, c: Codec)
    requires Elements(paths) == Elements(paths')
    ensures Export(paths, store, c) == Export(paths', store, c)
  {
    var a, b := FirstSeen(paths), FirstSeen(paths');
    FirstSeenDistinct(paths);
    FirstSeenDistinct(paths');
    assert forall p :: p in paths <==> p in Elements(paths);
    assert forall p :: p in paths' <==> p in Elements(paths');
    assert Elements(a) == Elements(b);
    DistinctSameElements(a, b);
    SameStored(a, b, c);
  }

  lemma SameStored(a: seq<JsString>, b: seq<JsString>, c: Codec)
    requires multiset(a) == multiset(b)
    ensures ValidateAll(a, c).Some? == ValidateAll(b, c).Some?
    ensures ValidateAll(a, c).Some? ==> SortStrings(ValidateAll(a, c).value) == SortStrings(ValidateAll(b, c).value)
  {
    SameMembers(a, b);
    SameSorted(a, b);
  }

  lemma SameMembers(a: seq<JsString>, b: seq<JsString>)
    requires multiset(a) == multiset(b)
    ensures forall p :: p in a <==> p in b
  {
    assert forall p :: p in a <==> p in multiset(a);
    assert forall p :: p in b <==> p in multiset(b);
  }

  lemma SameSorted(a: seq<JsString>, b: seq<JsString>)
    requires multiset(a) == multiset(b)
    ensures SortStrings(Map(Forward, a)) == SortStrings(Map(Forward, b))
  {
    MapPermutation(Forward, a, b);
    SortedAlike(Map(Forward, a), Map(Forward, b));
  }

  lemma {:induction false} MapPermutation<A, B>(f: A -> B, a: seq<A>, b: seq<A>)
    requires multiset(a) == multiset(b)
    ensures multiset(Map(f, a)) == multiset(Map(f, b))
  {
    assert |multiset(a)| == |a| && |multiset(b)| == |b|;
    if a != [] {
      assert a[0] in multiset(b);
      var k :| 0 <= k < |b| && b[k] == a[0];
      var rest := b[..k] + b[k + 1..];
      WithoutOne(f, a, 0, a[1..]);
      WithoutOne(f, b, k, rest);
      MapPermutation(f, a[1..], rest);
    }
  }

  lemma WithoutOne<A, B>(f: A -> B, s: seq<A>, k: nat, rest: seq<A>)
    requires k < |s| && rest == s[..k] + s[k + 1..]
    ensures multiset(rest) == multiset(s) - multiset{s[k]}
    ensures multiset(Map(f, s)) == multiset(Map(f, rest)) + multiset{f(s[k])}
  {
    RemoveOne(s, k);
    RemoveOne(Map(f, s), k);
    assert Map(f, s)[..k] + Map(f, s)[k + 1..] == Map(f, rest);
  }

  lemma RemoveOne<A>(s: seq<A>, k: nat)
    requires k < |s|
    ensures multiset(s) == multiset(s[..k] + s[k + 1..]) + multiset{s[k]}
  {
    assert s == s[..k] + [s[k]] + s[k + 1..];
  }

  // ---------------------------------------------------------------- what the hashes protect

  ghost predicate Injective(c: Codec) {
    forall x, y :: c.sha(x) == c.sha(y) ==> x == y
  }

  // The bytes an archive gives for a path.
  function BytesAt(files: seq<FileRow>, path: JsString, c: Codec): Option<Bytes> {
    if files == [] then None
    else if FilePath(files[|files| - 1]) == path then Some(c.decode(files[|files| - 1].data))
    else BytesAt(files[..|files| - 1], path, c)
  }

  lemma {:induction false} BytesAtIndex(files: seq<FileRow>, i: nat, c: Codec)
    requires Distinct(Map(FilePath, files)) && i < |files|
    ensures BytesAt(files, FilePath(files[i]), c) == Some(c.decode(files[i].data))
  {
    var front := files[..|files| - 1];
    if i < |front| {
      assert Map(FilePath, files)[..|front|] == Map(FilePath, front);
      assert Map(FilePath, files)[i] != Map(FilePath, files)[|front|];
      BytesAtIndex(front, i, c);
    }
  }

  lemma {:induction false} BytesAtNowhere(files: seq<FileRow>, path: JsString, c: Codec)
    requires path !in Map(FilePath, files)
    ensures BytesAt(files, path, c) == None
  {
    if files != [] {
      var front := files[..|files| - 1];
      assert Map(FilePath, files) == Map(FilePath, front) + [FilePath(files[|front|])];
      BytesAtNowhere(front, path, c);
    }
  }

  // The hash an exported manifest expects for a path is that of the file's bytes in the store.
  lemma ExportedHash(paths: seq<JsString>, store: JsString -> Option<Bytes>, c: Codec, sha: Bytes -> Digest, path: JsString)
    requires c == Standard(sha) && Export(paths, store, c).Ok?
    ensures var expected := ExpectedRows(Export(paths, store, c).value.manifest.artifacts);
            && (path in expected <==> path in Map(Forward, paths))
            && (path in expected ==> store(path).Some? && expected[path].sha256 == c.sha(store(path).value))
  {
    var files := Export(paths, store, c).value.files;
    var artifacts := Map(ArtifactOf, files);
    ExportedFiles(paths, store, c, sha);
    assert Map(ArtifactPath, artifacts) == Map(FilePath, files);
    SortMembers(Map(Forward, FirstSeen(paths)), StringLe);
    SameImages(paths, FirstSeen(paths), path);
    if path in ExpectedRows(artifacts) {
      HashOfRow(files, store, c, path);
    }
  }

  lemma HashOfRow(files: seq<FileRow>, store: JsString -> Option<Bytes>, c: Codec, path: JsString)
    requires forall i :: 0 <= i < |files| ==>
               FilePath(files[i]) == files[i].path && store(files[i].path).Some? && files[i] == RowOf(files[i].path, store(files[i].path).value, c)
    requires path in ExpectedRows(Map(ArtifactOf, files))
    ensures store(path).Some? && ExpectedRows(Map(ArtifactOf, files))[path].sha256 == c.sha(store(path).value)
  {
    var artifacts := Map(ArtifactOf, files);
    ExpectedMember(artifacts, path);
    var i :| 0 <= i < |artifacts| && artifacts[i] == ExpectedRows(artifacts)[path];
    assert artifacts[i] == ArtifactOf(files[i]);
  }

  lemma SameImages(a: seq<JsString>, b: seq<JsString>, path: JsString)
    requires forall p :: p in a <==> p in b
    ensures path in Map(Forward, a) <==> path in Map(Forward, b)
  {
    if path in Map(Forward, a) {
      var i :| 0 <= i < |a| && Map(Forward, a)[i] == path;
      assert a[i] in b;
      var j :| 0 <= j < |b| && b[j] == a[i];
      assert Map(Forward, b)[j] == path;
    }
    if path in Map(Forward, b) {
      var i :| 0 <= i < |b| && Map(Forward, b)[i] == path;
      assert b[i] in a;
      var j :| 0 <= j < |a| && a[j] == b[i];
      assert Map(Forward, a)[j] == path;
    }
  }

  // Whatever was done to the files of an exported archive: if it still has its manifest and verifies cleanly
  // under the FAIL policy, it holds exactly the exported files, with the bytes they had in the store.
  lemma CleanMeansExported(paths: seq<JsString>, store: JsString -> Option<Bytes>, c: Codec, sha: Bytes -> Digest, received: Archive, path: JsString)
    requires c == Standard(sha) && Injective(c) && Export(paths, store, c).Ok?
    requires received.manifest == Export(paths, store, c).value.manifest
    requires Verified(received, true, c).Ok? && Verified(received, true, c).value.ok
    ensures BytesAt(received.files, path, c) == if path in Map(Forward, paths) then store(path) else None
  {
    CleanExactly(received, true, c);
    ExportedHash(paths, store, c, sha, path);
    CleanFile(received, c, path);
  }

  lemma CleanFile(received: Archive, c: Codec, path: JsString)
    requires Complete(received, c) && NothingExtra(received)
    ensures var expected, bytes := ExpectedRows(received.manifest.artifacts), BytesAt(received.files, path, c);
            && (bytes.Some? <==> path in expected)
            && (bytes.Some? ==> c.sha(bytes.value) == expected[path].sha256)
  {
    if path in ExpectedRows(received.manifest.artifacts) {
      var i :| 0 <= i < |received.files| && Map(FilePath, received.files)[i] == path;
      assert FilePath(received.files[i]) == path;
      BytesAtIndex(received.files, i, c);
    } else {
      BytesAtNowhere(received.files, path, c);
    }
  }
}
