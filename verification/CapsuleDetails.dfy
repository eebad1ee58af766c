// The parts the capsule checks are made of, each in plain terms: which paths are absolute, which file is the record,
// what the two parses leave, which hash a manifest states, and what a replay looks for.
module CapsuleDetails {
  import opened Sequences
  import opened JsStrings
  import opened CapsulePaths
  import opened CapsuleArchive
  import opened CapsuleClaim
  import opened CapsuleReplay

  // ---------------------------------------------------------------- paths

  // A path that begins with a separator, or with a drive letter, a colon and a separator.
  predicate Absolute(p: JsString) {
    || (p != [] && (p[0] == 47 || p[0] == 92))
    || (|p| >= 3 && (65 <= p[0] <= 90 || 97 <= p[0] <= 122) && p[1] == 58 && (p[2] == 47 || p[2] == 92))
  }

  // The segments between slashes: none is "..", none but the last is empty, and none is "." unless it is the whole path.
  ghost predicate Relative(segments: seq<JsString>) {
    && segments != [] && [46, 46] !in segments
    && (|| segments == [[46]] || segments == [[46], []]
        || (&& (forall i :: 0 <= i < |segments| ==> segments[i] != [46])
            && (forall i :: 0 <= i < |segments| - 1 ==> segments[i] != [])
            && (segments[|segments| - 1] == [] ==> |segments| > 1)))
  }

  lemma RelativeExactly(segments: seq<JsString>)
    ensures Relative(segments) <==> [DOT, DOT] !in segments && (Proper(segments) || IsDot(segments))
  {
  }

  lemma AbsoluteExactly(p: JsString)
    ensures IsAbsolute(p) <==> Absolute(p)
  {
  }

  // Exactly these paths are accepted, with backslashes read as slashes.
  lemma PathExactly(p: JsString)
    ensures Validate(p).Some? <==> p != [] && !Absolute(p) && Relative(Segments(Forward(p)))
    ensures Validate(p).Some? ==>
      |Validate(p).value| == |p| && forall i :: 0 <= i < |p| ==> Validate(p).value[i] == if p[i] == 92 then 47 else p[i]
  {
    Accepted(p);
    AbsoluteExactly(p);
    RelativeExactly(Segments(Forward(p)));
  }

  // The record is the file capsules/<name>/verification.json, for a name without a slash.
  lemma RecordPathForm(name: JsString)
    requires name != [] && Clean(name) && Clean(Text("capsules")) && Clean(Text("verification.json"))
    ensures IsRecordPath(Text("capsules") + [SLASH] + (name + [SLASH] + Text("verification.json")))
  {
    SegmentsOfOne(Text("verification.json"));
    SegmentsBehind(name, Text("verification.json"));
    SegmentsBehind(Text("capsules"), name + [SLASH] + Text("verification.json"));
  }

  lemma RecordPathOnly(path: JsString) returns (name: JsString)
    requires IsRecordPath(path)
    ensures name != [] && Clean(name) && path == Text("capsules") + [SLASH] + (name + [SLASH] + Text("verification.json"))
  {
    var segments := Segments(path);
    name := segments[1];
    SegmentsClean(path);
    JoinSegments(path);
    ThreeJoined(segments);
  }

  lemma ThreeJoined(segments: seq<JsString>)
    requires |segments| == 3
    ensures Join(segments) == segments[0] + [SLASH] + (segments[1] + [SLASH] + segments[2])
  {
    assert segments[1..][1..] == [segments[2]];
    assert Join(segments[1..]) == segments[1] + [SLASH] + segments[2];
  }

  // The first such file is taken.
  lemma {:induction false} RecordPathExactly(files: seq<FileRow>)
    ensures RecordPath(files).None? <==> forall i :: 0 <= i < |files| ==> !IsRecordPath(FilePath(files[i]))
    ensures forall i :: 0 <= i < |files| && IsRecordPath(FilePath(files[i])) && (forall j :: 0 <= j < i ==> !IsRecordPath(FilePath(files[j])))
              ==> RecordPath(files) == Some(FilePath(files[i]))
  {
    if files != [] {
      RecordPathExactly(files[1..]);
      assert forall i :: 1 <= i < |files| ==> files[i] == files[1..][i - 1];
    }
  }

  // ---------------------------------------------------------------- the two parses

  // What parsing the two files leaves: nothing without a record path; a parse that throws makes the files unreadable and
  // leaves its result, and the manifest's, unset; null and an absent manifest leave it unset too.
  lemma ParsesExactly(files: seq<FileRow>, c: Codec, r: Readers)
    ensures var parses, path := ParseBoth(files, c, r), RecordPath(files);
            if path.None? then parses == Parses(false, None, None)
            else
              var recordBytes, contentBytes := BytesAt(files, path.value, c), BytesAt(files, ContentPath(path.value), c);
              var recordFails := recordBytes.None? || r.record(recordBytes.value) == Throws;
              var contentFails := !recordFails && contentBytes.Some? && r.content(contentBytes.value) == Throws;
              && parses.unreadable == (recordFails || contentFails)
              && (forall x :: parses.record == Some(x) <==> !recordFails && r.record(recordBytes.value) == Value(x))
              && (forall x :: parses.content == Some(x) <==> !recordFails && contentBytes.Some? && r.content(contentBytes.value) == Value(x))
  {
  }

  lemma {:induction false} FirstHashExactly(artifacts: seq<Artifact>, path: JsString)
    ensures FirstHash(artifacts, path).None? <==> forall i :: 0 <= i < |artifacts| ==> artifacts[i].path != path
    ensures forall i :: 0 <= i < |artifacts| && artifacts[i].path == path && (forall j :: 0 <= j < i ==> artifacts[j].path != path)
              ==> FirstHash(artifacts, path) == Some(artifacts[i].sha256)
  {
    if artifacts != [] {
      FirstHashExactly(artifacts[1..], path);
      assert forall i :: 1 <= i < |artifacts| ==> artifacts[i] == artifacts[1..][i - 1];
    }
  }

  // The texts searched for secrets are the claim's and the formal statement; the claim is listed under its own id and
  // the report's.
  lemma ChecksExactly(claim: ClaimPart, formal: FormalPart, verification: VerificationPart, claims: seq<ClaimRow>, r: Readers)
    ensures AnySecret(TextsOf(claim, formal), r) <==> r.secret(formal.statement) || exists t :: t in claim.texts && r.secret(t)
    ensures Listed(claims, claim, verification) <==> exists i :: 0 <= i < |claims| && claims[i].id == claim.id && claims[i].reportId == Some(verification.id)
  {
    assert forall t :: t in TextsOf(claim, formal) <==> t in claim.texts || t == formal.statement;
    assert forall i :: 0 <= i < |claims| ==> claims[i] in claims;
  }

  // ---------------------------------------------------------------- the replay

  // The last row of a claim decides the status it is imported with; a kernel-verified one becomes historical.
  lemma {:induction false} ImportedExactly(claims: seq<ClaimRow>, i: nat, verified: string, historical: string)
    requires i < |claims| && forall j :: i < j < |claims| ==> claims[j].id != claims[i].id
    requires verified == "KERNEL_VERIFIED" && historical == "HISTORICAL_KERNEL_VERIFIED"
    ensures claims[i].id in Imported(claims)
    ensures Imported(claims)[claims[i].id] == if claims[i].status == verified then historical else claims[i].status
  {
    var last := |claims| - 1;
    StatusExactly(claims[last].status, verified, historical);
    if i < last {
      ImportedExactly(claims[..last], i, verified, historical);
    }
  }

  lemma StatusExactly(status: string, verified: string, historical: string)
    requires verified == "KERNEL_VERIFIED" && historical == "HISTORICAL_KERNEL_VERIFIED"
    ensures ImportedStatus(status) == if status == verified then historical else status
  {
  }

  lemma LookupExactly(e: Environment, schemaEpoch: int, lean: Option<Lean>, name: string)
    requires e == ReplayEnvironment(schemaEpoch, lean)
    ensures HasToolchain(e, name) <==> (name == "lean" && lean.Some? && lean.value.root != "") || name in INHERITED
  {
    assert forall inherited :: inherited in INHERITED ==> |inherited| > 4;
    assert "lean" !in INHERITED;
  }

  // A replay is blocked by a newer epoch, or by a toolchain other than an installed Lean and the inherited names.
  lemma ReplayBlockedExactly(content: Content, e: Environment, schemaEpoch: int, lean: Option<Lean>)
    requires Plannable(content) && e == ReplayEnvironment(schemaEpoch, lean)
    ensures PlanBlocked(content, e) <==>
      || content.schemaEpoch > schemaEpoch
      || exists name :: name in content.toolchains.value && !(name == "lean" && lean.Some? && lean.value.root != "") && name !in INHERITED
    ensures e.models
  {
    forall name
      ensures HasToolchain(e, name) <==> (name == "lean" && lean.Some? && lean.value.root != "") || name in INHERITED
    {
      LookupExactly(e, schemaEpoch, lean, name);
    }
  }

  // A replay reproduces a claim when the kernel accepts the stored proof, it reports the recorded axioms in any order,
  // and the proof has no forbidden construct.
  lemma ReproducedExactly(lean: Lean, declaration: JsString, recorded: seq<JsString>, source: JsString, r: Readers)
    ensures Reproduced(lean, declaration, recorded, source, r) <==>
      && lean.check(source).result == "KERNEL_ACCEPTED"
      && multiset(lean.axioms(declaration, source)) == multiset(recorded)
      && !r.forbidden(source)
    ensures lean.check(source).result != "KERNEL_ACCEPTED" ==> FoundAxioms(lean, declaration, source) == []
    ensures UNVERIFIED == "UNVERIFIED" && HISTORICAL == "HISTORICAL_KERNEL_VERIFIED" && CURRENT == "KERNEL_VERIFIED"
  {
  }
}
