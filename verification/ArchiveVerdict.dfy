// What the verification of a capsule archive answers.
module ArchiveVerdict {
  import opened Sequences
  import Sorting
  import opened JsStrings
  import opened Base64
  import opened CapsulePaths
  import opened CapsuleArchive

  // ---------------------------------------------------------------- what stops it

  // A newer format is refused first, then a header of another kind.
  lemma HeaderExactly(m: Manifest)
    ensures Inspect(m) == Some(FormatUnsupported) <==> m.formatVersion > 1
    ensures Inspect(m) == Some(SchemaInvalid) <==>
      m.formatVersion <= 1 && m.format != "mathos-capsule" && m.schemaVersion != "mathos-capsule-archive-v1"
    ensures Inspect(m) in {None, Some(FormatUnsupported), Some(SchemaInvalid)}
  {
  }

  // The first file that is refused decides the error: an unsafe path, or one stored like an earlier one.
  lemma {:induction false} FirstRefusal(files: seq<FileRow>, k: nat, c: Codec)
    requires k < |files| && FilesSafe(files[..k], c) && Distinct(Map(FilePath, files[..k]))
    requires !c.safe(files[k].path) || FilePath(files[k]) in Map(FilePath, files[..k])
    ensures ActualRows(files, c) == Err(if c.safe(files[k].path) then DuplicatePath else PathUnsafe)
    decreases |files|
  {
    var n := |files| - 1;
    if k < n {
      assert files[..n][..k] == files[..k];
      FirstRefusal(files[..n], k, c);
    } else {
      IndexedExactly(files[..k], c);
    }
  }

  // The errors in their order: header, a listed path, a file.
  lemma RefusedExactly(archive: Archive, failExtra: bool, c: Codec)
    ensures var v, m := Verified(archive, failExtra, c), archive.manifest;
            && (v.Ok? <==>
                  && Inspect(m) == None && (forall a :: a in m.artifacts ==> c.safe(a.path))
                  && (forall f :: f in archive.files ==> c.safe(f.path)) && Distinct(Map(FilePath, archive.files)))
            && (Inspect(m).Some? ==> v == Err(Inspect(m).value))
            && (Inspect(m) == None && (exists a :: a in m.artifacts && !c.safe(a.path)) ==> v == Err(PathUnsafe))
            && (Inspect(m) == None && (forall a :: a in m.artifacts ==> c.safe(a.path)) && ActualRows(archive.files, c).Err? ==>
                  v == Err(ActualRows(archive.files, c).error))
  {
    IndexedExactly(archive.files, c);
  }

  // ---------------------------------------------------------------- what it reports

  lemma {:induction false} ProblemsExactly(paths: seq<JsString>, expected: map<JsString, Artifact>, actual: map<JsString, FileRow>, c: Codec, p: JsString)
    requires forall q :: q in paths ==> q in expected
    ensures var problems := Problems(paths, expected, actual, c);
            && (FileMissing(p) in problems <==> p in paths && p !in actual)
            && (HashMismatch(p) in problems <==> p in paths && p in actual && !Matches(actual[p], expected[p], c))
            && ExtraFile(p) !in problems
  {
    if paths != [] {
      var front, last := paths[..|paths| - 1], paths[|paths| - 1];
      assert paths == front + [last];
      ProblemsExactly(front, expected, actual, c, p);
    }
  }

  lemma {:induction false} ExtrasExactly(files: seq<FileRow>, expected: map<JsString, Artifact>, p: JsString)
    ensures ExtraFile(p) in Extras(files, expected) <==> p in Map(FilePath, files) && p !in expected
    ensures forall x :: x in Extras(files, expected) ==> x.ExtraFile?
  {
    if files != [] {
      var front, last := files[..|files| - 1], files[|files| - 1];
      assert files == front + [last];
      PathsAppend(front, last);
      ExtrasExactly(front, expected, p);
    }
  }

  // The last row of a path counts.
  lemma {:induction false} LastListed(artifacts: seq<Artifact>, i: nat)
    requires i < |artifacts| && forall j :: i < j < |artifacts| ==> ArtifactPath(artifacts[j]) != ArtifactPath(artifacts[i])
    ensures ArtifactPath(artifacts[i]) in ExpectedRows(artifacts) && ExpectedRows(artifacts)[ArtifactPath(artifacts[i])] == artifacts[i]
  {
    if i < |artifacts| - 1 {
      LastListed(artifacts[..|artifacts| - 1], i);
    }
  }

  // A listed path without a file is missing, a file whose decoded bytes have another hash than the listed one mismatches,
  // and a file that is not listed is extra: an error under FAIL and a warning under WARN.
  lemma ReportExactly(archive: Archive, failExtra: bool, c: Codec, p: JsString)
    requires Verified(archive, failExtra, c).Ok?
    ensures var report := Verified(archive, failExtra, c).value;
            var listed, present := Map(ArtifactPath, archive.manifest.artifacts), Map(FilePath, archive.files);
            && report.ok == (report.errors == [])
            && (FileMissing(p) in report.errors <==> p in listed && p !in present)
            && (ExtraFile(p) in report.errors <==> failExtra && p in present && p !in listed)
            && (ExtraFile(p) in report.warnings <==> !failExtra && p in present && p !in listed)
            && FileMissing(p) !in report.warnings && HashMismatch(p) !in report.warnings
  {
    var artifacts, actual := archive.manifest.artifacts, ActualRows(archive.files, c).value;
    IndexedExactly(archive.files, c);
    ProblemsExactly(FirstSeen(Map(ArtifactPath, artifacts)), ExpectedRows(artifacts), actual, c, p);
    ExtrasExactly(archive.files, ExpectedRows(artifacts), p);
  }

  lemma MismatchExactly(archive: Archive, failExtra: bool, c: Codec, i: nat, k: nat)
    requires Verified(archive, failExtra, c).Ok? && i < |archive.manifest.artifacts| && k < |archive.files|
    requires FilePath(archive.files[k]) == ArtifactPath(archive.manifest.artifacts[i])
    requires forall j :: i < j < |archive.manifest.artifacts| ==> ArtifactPath(archive.manifest.artifacts[j]) != ArtifactPath(archive.manifest.artifacts[i])
    ensures HashMismatch(FilePath(archive.files[k])) in Verified(archive, failExtra, c).value.errors
       <==> c.sha(c.decode(archive.files[k].data)) != archive.manifest.artifacts[i].sha256
  {
    var artifacts, actual, p := archive.manifest.artifacts, ActualRows(archive.files, c).value, FilePath(archive.files[k]);
    IndexedExactly(archive.files, c);
    LastListed(artifacts, i);
    ProblemsExactly(FirstSeen(Map(ArtifactPath, artifacts)), ExpectedRows(artifacts), actual, c, p);
    ExtrasExactly(archive.files, ExpectedRows(artifacts), p);
    assert Map(ArtifactPath, artifacts)[i] == p;
  }

  // ---------------------------------------------------------------- the export

  function PathsOf(files: seq<FileRow>): (r: seq<JsString>)
    ensures |r| == |files| && forall i :: 0 <= i < |files| ==> r[i] == files[i].path
  {
    Map((f: FileRow) => f.path, files)
  }

  // One row for each different input path, in the order of the stored paths, with the hash, the size and the encoded
  // bytes of its file; the manifest lists the same.
  ghost predicate Exported(archive: Archive, paths: seq<JsString>, store: JsString -> Option<Bytes>, c: Codec) {
    var m, files := archive.manifest, archive.files;
    && m.format == "mathos-capsule" && m.formatVersion == 1 && m.schemaVersion == "mathos-capsule-archive-v1"
    && PathsOf(files) == SortStrings(Map(Forward, FirstSeen(paths))) && |m.artifacts| == |files|
    && forall i :: 0 <= i < |files| ==>
         && m.artifacts[i] == Artifact(files[i].path, files[i].sha256, files[i].size)
         && store(files[i].path).Some? && files[i].sha256 == c.sha(store(files[i].path).value)
         && files[i].size == |store(files[i].path).value| && files[i].data == c.encode(store(files[i].path).value)
  }

  lemma ExportedRows(paths: seq<JsString>, store: JsString -> Option<Bytes>, c: Codec)
    ensures Export(paths, store, c).Ok? ==> Exported(Export(paths, store, c).value, paths, store, c)
  {
    if Export(paths, store, c).Ok? {
      assert PathsOf(Export(paths, store, c).value.files) == SortStrings(Map(Forward, FirstSeen(paths)));
    }
  }

  // The stored paths are sorted by code units, one for each different input path.
  lemma ExportOrder(paths: seq<JsString>)
    ensures var stored := SortStrings(Map(Forward, FirstSeen(paths)));
            && Sorting.Sorted(stored, StringLe) && |stored| == |FirstSeen(paths)|
            && forall q :: q in stored <==> exists p :: p in paths && Forward(p) == q
  {
    var safe := Map(Forward, FirstSeen(paths));
    StringOrder();
    Sorting.SortSorted(safe, StringLe);
    Sorting.SortMembers(safe, StringLe);
    forall q
      ensures q in SortStrings(safe) <==> exists p :: p in paths && Forward(p) == q
    {
      StoredForms(paths, q);
    }
  }

  // An unsafe path, or else a path without a regular file, stops the export.
  lemma ExportRefused(paths: seq<JsString>, store: JsString -> Option<Bytes>, c: Codec)
    ensures var r := Export(paths, store, c);
            && (r == Err(PathUnsafe) <==> exists p :: p in paths && !c.safe(p))
            && (r == Err(NotARegularFile) <==>
                  (forall p :: p in paths ==> c.safe(p)) && exists p :: p in paths && store(Forward(p)).None?)
  {
    ExportOrder(paths);
  }

  lemma StoredForms(paths: seq<JsString>, q: JsString)
    ensures q in Map(Forward, FirstSeen(paths)) <==> exists p :: p in paths && Forward(p) == q
  {
    var seen := FirstSeen(paths);
    if p :| p in paths && Forward(p) == q {
      assert p in seen;
      var i :| 0 <= i < |seen| && seen[i] == p;
      assert Map(Forward, seen)[i] == q;
    }
    if q in Map(Forward, seen) {
      var i :| 0 <= i < |seen| && Map(Forward, seen)[i] == q;
      assert seen[i] in seen && seen[i] in paths;
    }
  }
}
