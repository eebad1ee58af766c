// The check of a claim's capsule: its archive, its verification record, its manifest and its proof.
module CapsuleClaim {
  import opened Sequences
  import opened JsStrings
  import opened Base64
  import opened CapsulePaths
  import opened CapsuleArchive

  // The fields of the verification record and of the capsule manifest that the check reads. A part that is
  // absent, or null, is None: nothing but the schema is checked before the parts are read.
  datatype ClaimPart = ClaimPart(id: string, texts: seq<JsString>)
  datatype FormalPart = FormalPart(declaration: JsString, statement: JsString)
  datatype ProofPart = ProofPart(path: JsString, hash: Digest)
  datatype VerificationPart = VerificationPart(id: string, result: string, leanVersion: Option<string>, axioms: Option<seq<JsString>>)
  datatype Record = Record(
    schema: string, capsuleId: string, claim: Option<ClaimPart>, formal: Option<FormalPart>,
    proof: Option<ProofPart>, verification: Option<VerificationPart>)
  datatype ClaimRow = ClaimRow(id: string, status: string, reportId: Option<string>)
  datatype Content = Content(
    schema: string, artifacts: Option<seq<Artifact>>, claims: Option<seq<ClaimRow>>,
    schemaEpoch: int, toolchains: Option<seq<string>>, models: Option<nat>)

  // JSON.parse of a file: it throws, gives null, or gives a value.
  datatype Parsed<T> = Throws | Null | Value(value: T)

  // Parsing, decoding and the two text scanners.
  datatype Readers = Readers(
    record: Bytes -> Parsed<Record>, content: Bytes -> Parsed<Content>, text: Bytes -> JsString,
    secret: JsString -> bool, forbidden: JsString -> bool)

  datatype ClaimError =
    | OfArchive(problem: Problem)
    | RecordUnreadable | RecordMissing | ManifestMissing | ProofMissing(path: JsString) | ProofHashMismatch
    | SecretDetected | ForbiddenConstruct | NotKernelAccepted | ClaimMismatch

  datatype Checked = Checked(errors: seq<ClaimError>, record: Option<Record>, content: Option<Content>)

  const RECORD_SCHEMA := "mathos.capsule-verification.v1"
  const CONTENT_SCHEMA := "mathos-capsule-v1"
  const ACCEPTED := "KERNEL_ACCEPTED"

  function Text(s: string): JsString {
    seq(|s|, i requires 0 <= i < |s| => s[i] as int % 0x10000)
  }

  // /^capsules\/[^/]+\/verification\.json$/
  predicate IsRecordPath(path: JsString) {
    var segments := Segments(path);
    |segments| == 3 && segments[0] == Text("capsules") && segments[1] != [] && segments[2] == Text("verification.json")
  }

  function RecordPath(files: seq<FileRow>): Option<JsString> {
    if files == [] then None
    else if IsRecordPath(FilePath(files[0])) then Some(FilePath(files[0]))
    else RecordPath(files[1..])
  }

  function ContentPath(recordPath: JsString): JsString {
    var name := |Text("verification.json")|;
    (if name <= |recordPath| then recordPath[..|recordPath| - name] else []) + Text("manifest.json")
  }

  // What the two parses leave: a parse that throws leaves its own and every later result null.
  datatype Parses = Parses(unreadable: bool, record: Option<Record>, content: Option<Content>)

  function ParseBoth(files: seq<FileRow>, c: Codec, r: Readers): Parses {
    match RecordPath(files)
    case None => Parses(false, None, None)
    case Some(path) =>
      var recordBytes, contentBytes := BytesAt(files, path, c), BytesAt(files, ContentPath(path), c);
      match (if recordBytes.Some? then r.record(recordBytes.value) else Throws)
      case Throws => Parses(true, None, None)
      case Null => ParseContent(contentBytes, None, r)
      case Value(record) => ParseContent(contentBytes, Some(record), r)
  }

  function ParseContent(bytes: Option<Bytes>, record: Option<Record>, r: Readers): Parses {
    if bytes.None? then Parses(false, record, None)
    else
      match r.content(bytes.value)
      case Throws => Parses(true, record, None)
      case Null => Parses(false, record, None)
      case Value(content) => Parses(false, record, Some(content))
  }

  // artifacts.find((row) => row.path === path)?.sha256
  function FirstHash(artifacts: seq<Artifact>, path: JsString): Option<Digest> {
    if artifacts == [] then None
    else if artifacts[0].path == path then Some(artifacts[0].sha256)
    else FirstHash(artifacts[1..], path)
  }

  predicate Listed(claims: seq<ClaimRow>, claim: ClaimPart, verification: VerificationPart) {
    exists row :: row in claims && row.id == claim.id && row.reportId == Some(verification.id)
  }

  predicate AnySecret(texts: seq<JsString>, r: Readers) {
    exists t :: t in texts && r.secret(t)
  }

  function TextsOf(claim: ClaimPart, formal: FormalPart): seq<JsString> {
    claim.texts + [formal.statement]
  }

  // ---------------------------------------------------------------- when the check itself fails

  // The proof's bytes are those the record states.
  predicate ProofAsRecorded(files: seq<FileRow>, proof: ProofPart, c: Codec) {
    var bytes := BytesAt(files, proof.path, c);
    bytes.Some? && c.sha(bytes.value) == proof.hash
  }

  // A part is missing that is read: the claim's id for the result, the others when there is a manifest, and
  // the manifest's artifacts only when the proof is as recorded.
  predicate ShapeFails(files: seq<FileRow>, parses: Parses, c: Codec) {
    && parses.record.Some?
    && var record := parses.record.value;
       || record.claim.None?
       || (parses.content.Some? &&
            (|| record.proof.None? || record.verification.None? || record.formal.None?
             || parses.content.value.claims.None?
             || (parses.content.value.artifacts.None? && ProofAsRecorded(files, record.proof.value, c))))
  }

  // ---------------------------------------------------------------- what an accepted capsule is

  ghost predicate ProofSound(files: seq<FileRow>, proof: ProofPart, artifacts: Option<seq<Artifact>>, c: Codec, r: Readers) {
    && ProofAsRecorded(files, proof, c)
    && artifacts.Some? && FirstHash(artifacts.value, proof.path) == Some(proof.hash)
    && !r.secret(r.text(BytesAt(files, proof.path, c).value)) && !r.forbidden(r.text(BytesAt(files, proof.path, c).value))
  }

  ghost predicate PartsSound(files: seq<FileRow>, record: Record, content: Content, c: Codec, r: Readers) {
    && record.claim.Some? && record.formal.Some? && record.proof.Some? && record.verification.Some? && content.claims.Some?
    && ProofSound(files, record.proof.value, content.artifacts, c, r)
    && record.verification.value.result == ACCEPTED
    && Listed(content.claims.value, record.claim.value, record.verification.value)
    && !AnySecret(TextsOf(record.claim.value, record.formal.value), r)
  }

  ghost predicate ClaimSound(files: seq<FileRow>, parses: Parses, c: Codec, r: Readers) {
    && parses.record.Some? && parses.record.value.schema == RECORD_SCHEMA
    && parses.content.Some? && parses.content.value.schema == CONTENT_SCHEMA
    && PartsSound(files, parses.record.value, parses.content.value, c, r)
  }

  ghost predicate Acceptable(archive: Archive, c: Codec, r: Readers) {
    && Verified(archive, true, c).Ok? && Verified(archive, true, c).value.ok
    && ClaimSound(archive.files, ParseBoth(archive.files, c, r), c, r)
  }

  // Which errors are reported: those of the archive, the three about the two files, and those of the claim.
  ghost predicate ReportsFiles(errors: seq<ClaimError>, problems: seq<Problem>, parses: Parses) {
    && (forall p :: OfArchive(p) in errors <==> p in problems)
    && (RecordUnreadable in errors <==> parses.unreadable)
    && (RecordMissing in errors <==> parses.record.None? || parses.record.value.schema != "mathos.capsule-verification.v1")
    && (ManifestMissing in errors <==> parses.content.None? || parses.content.value.schema != "mathos-capsule-v1")
  }

  ghost predicate ReportsClaim(errors: seq<ClaimError>, files: seq<FileRow>, record: Record, content: Content, c: Codec, r: Readers) {
    && record.claim.Some? && record.formal.Some? && record.proof.Some? && record.verification.Some? && content.claims.Some?
    && var proof := record.proof.value;
       var bytes := BytesAt(files, proof.path, c);
       && (forall path :: ProofMissing(path) in errors <==> path == proof.path && bytes.None?)
       && (ProofHashMismatch in errors <==>
             && bytes.Some?
             && !(c.sha(bytes.value) == proof.hash && content.artifacts.Some? && FirstHash(content.artifacts.value, proof.path) == Some(proof.hash)))
       && (SecretDetected in errors <==>
             || (bytes.Some? && r.secret(r.text(bytes.value))) || AnySecret(TextsOf(record.claim.value, record.formal.value), r))
       && (ForbiddenConstruct in errors <==> bytes.Some? && r.forbidden(r.text(bytes.value)))
       && (NotKernelAccepted in errors <==> record.verification.value.result != "KERNEL_ACCEPTED")
       && (ClaimMismatch in errors <==> !Listed(content.claims.value, record.claim.value, record.verification.value))
  }

  // The call fails exactly when the archive is refused or a part that is read is missing; otherwise no error
  // is left exactly when the capsule is acceptable.
  method VerifyClaim(archive: Archive, c: Codec, r: Readers) returns (result: Result<Checked>)
    ensures result.Err? <==> Verified(archive, true, c).Err? || ShapeFails(archive.files, ParseBoth(archive.files, c, r), c)
    ensures Verified(archive, true, c).Ok? && result.Err? ==> result.error == Misshapen
    ensures result.Ok? ==> (result.value.errors == [] <==> Acceptable(archive, c, r))
    ensures result.Ok? ==> result.value.record == ParseBoth(archive.files, c, r).record && result.value.content == ParseBoth(archive.files, c, r).content
    ensures result.Ok? ==> Distinct(result.value.errors)
    ensures result.Ok? ==>
      var parses := ParseBoth(archive.files, c, r);
      && ReportsFiles(result.value.errors, Verified(archive, true, c).value.errors, parses)
      && (parses.record.Some? && parses.content.Some? ==>
            ReportsClaim(result.value.errors, archive.files, parses.record.value, parses.content.value, c, r))
  {
    var verified := VerifyArchive(archive, true, c);
    if verified.Err? {
      return Err(verified.error);
    }
    var parses := ParseBoth(archive.files, c, r);
    ReadTogether(archive.files, c, r);
    var gathered := GatherErrors(verified.value.errors, archive.files, parses, c, r);
    if gathered.None? {
      return Err(Misshapen);
    }
    var errors := gathered.value;
    OkMeansNoErrors(archive, c);
    FirstSeenDistinct(errors);
    EmptyStaysEmpty(errors);
    result := Ok(Checked(FirstSeen(errors), parses.record, parses.content));
  }

  // A parse that throws leaves no manifest, so it never hides behind a sound claim.
  lemma ReadTogether(files: seq<FileRow>, c: Codec, r: Readers)
    ensures ParseBoth(files, c, r).unreadable ==> ParseBoth(files, c, r).content.None?
  {
  }

  lemma OkMeansNoErrors(archive: Archive, c: Codec)
    requires Verified(archive, true, c).Ok?
    ensures Verified(archive, true, c).value.ok <==> Verified(archive, true, c).value.errors == []
  {
  }

  lemma EmptyStaysEmpty(errors: seq<ClaimError>)
    ensures FirstSeen(errors) == [] <==> errors == []
  {
    if errors != [] {
      assert errors[0] in FirstSeen(errors);
    }
  }

  // The checks in the order they are made; None when one of them fails for a missing part.
  method GatherErrors(problems: seq<Problem>, files: seq<FileRow>, parses: Parses, c: Codec, r: Readers) returns (errors: Option<seq<ClaimError>>)
    requires parses.unreadable ==> parses.content.None?
    ensures errors.None? <==> ShapeFails(files, parses, c)
    ensures errors.Some? ==> (errors.value == [] <==> problems == [] && ClaimSound(files, parses, c, r))
    ensures errors.Some? ==>
      && ReportsFiles(errors.value, problems, parses)
      && (parses.record.Some? && parses.content.Some? ==> ReportsClaim(errors.value, files, parses.record.value, parses.content.value, c, r))
  {
    var found := GatherFileErrors(problems, parses);
    if parses.record.Some? && parses.content.Some? {
      var more := CheckClaim(files, parses.record.value, parses.content.value, c, r);
      if more.None? {
        return None;
      }
      found := found + more.value;
    }
    if parses.record.Some? && parses.record.value.claim.None? {
      return None;
    }
    return Some(found);
  }

  method GatherFileErrors(problems: seq<Problem>, parses: Parses) returns (found: seq<ClaimError>)
    ensures ReportsFiles(found, problems, parses) && forall e :: e in found ==> AboutFiles(e)
    ensures found == [] <==>
      && problems == [] && !parses.unreadable && parses.record.Some? && parses.record.value.schema == RECORD_SCHEMA
      && parses.content.Some? && parses.content.value.schema == CONTENT_SCHEMA
  {
    found := Map((p: Problem) => OfArchive(p), problems);
    OfProblems(problems, found);
    if parses.unreadable {
      found := found + [RecordUnreadable];
    }
    if parses.record.None? || parses.record.value.schema != RECORD_SCHEMA {
      found := found + [RecordMissing];
    }
    if parses.content.None? || parses.content.value.schema != CONTENT_SCHEMA {
      found := found + [ManifestMissing];
    }
  }

  lemma OfProblems(problems: seq<Problem>, found: seq<ClaimError>)
    requires |found| == |problems| && forall i :: 0 <= i < |found| ==> found[i] == OfArchive(problems[i])
    ensures forall p :: OfArchive(p) in found <==> p in problems
    ensures forall e :: e in found ==> e.OfArchive?
  {
    forall p | p in problems
      ensures OfArchive(p) in found
    {
      var i :| 0 <= i < |problems| && problems[i] == p;
      assert found[i] == OfArchive(p);
    }
  }

  predicate AboutFiles(e: ClaimError) {
    e.OfArchive? || e.RecordUnreadable? || e.RecordMissing? || e.ManifestMissing?
  }

  // None of the errors about the archive and the two files.
  ghost predicate OnlyClaim(errors: seq<ClaimError>) {
    forall e :: e in errors ==> !AboutFiles(e)
  }

  method CheckClaim(files: seq<FileRow>, record: Record, content: Content, c: Codec, r: Readers) returns (errors: Option<seq<ClaimError>>)
    ensures errors.None? <==> ShapeFails(files, Parses(false, Some(record), Some(content)), c)
    ensures errors.Some? ==> (errors.value == [] <==> PartsSound(files, record, content, c, r))
    ensures errors.Some? ==> ReportsClaim(errors.value, files, record, content, c, r) && OnlyClaim(errors.value)
  {
    if record.proof.None? {
      return None;
    }
    var checked := CheckProof(files, record.proof.value, content.artifacts, c, r);
    if checked.None? || record.verification.None? {
      return None;
    }
    var found := checked.value + (if record.verification.value.result != ACCEPTED then [NotKernelAccepted] else []);
    if content.claims.None? || record.claim.None? {
      return None;
    }
    found := found + (if Listed(content.claims.value, record.claim.value, record.verification.value) then [] else [ClaimMismatch]);
    if record.formal.None? {
      return None;
    }
    found := found + (if AnySecret(TextsOf(record.claim.value, record.formal.value), r) then [SecretDetected] else []);
    ClaimReported(checked.value, found, files, record, content, c, r);
    NothingReported(checked.value, found, files, record, content, c, r);
    return Some(found);
  }

  // The errors of the proof and of the three checks behind it.
  ghost predicate Together(proof: seq<ClaimError>, found: seq<ClaimError>, files: seq<FileRow>, record: Record, content: Content, c: Codec, r: Readers) {
    && record.claim.Some? && record.formal.Some? && record.proof.Some? && record.verification.Some? && content.claims.Some?
    && ReportsProof(proof, files, record.proof.value, content.artifacts, c, r)
    && found == proof + (if record.verification.value.result != ACCEPTED then [NotKernelAccepted] else [])
                + (if Listed(content.claims.value, record.claim.value, record.verification.value) then [] else [ClaimMismatch])
                + (if AnySecret(TextsOf(record.claim.value, record.formal.value), r) then [SecretDetected] else [])
  }

  lemma ClaimReported(proof: seq<ClaimError>, found: seq<ClaimError>, files: seq<FileRow>, record: Record, content: Content, c: Codec, r: Readers)
    requires Together(proof, found, files, record, content, c, r)
    ensures ReportsClaim(found, files, record, content, c, r) && OnlyClaim(found)
  {
  }

  lemma NothingReported(proof: seq<ClaimError>, found: seq<ClaimError>, files: seq<FileRow>, record: Record, content: Content, c: Codec, r: Readers)
    requires Together(proof, found, files, record, content, c, r)
    ensures found == [] <==> PartsSound(files, record, content, c, r)
  {
  }

  // What the checks of the proof report.
  ghost predicate ReportsProof(errors: seq<ClaimError>, files: seq<FileRow>, proof: ProofPart, artifacts: Option<seq<Artifact>>, c: Codec, r: Readers) {
    && (errors == [] <==> ProofSound(files, proof, artifacts, c, r))
    && (artifacts.None? ==> !ProofAsRecorded(files, proof, c))
    && var bytes := BytesAt(files, proof.path, c);
       && (forall path :: ProofMissing(path) in errors <==> path == proof.path && bytes.None?)
       && (ProofHashMismatch in errors <==>
             bytes.Some? && !(ProofAsRecorded(files, proof, c) && FirstHash(artifacts.value, proof.path) == Some(proof.hash)))
       && (SecretDetected in errors <==> bytes.Some? && r.secret(r.text(bytes.value)))
       && (ForbiddenConstruct in errors <==> bytes.Some? && r.forbidden(r.text(bytes.value)))
       && NotKernelAccepted !in errors && ClaimMismatch !in errors && OnlyClaim(errors)
  }

  method CheckProof(files: seq<FileRow>, proof: ProofPart, artifacts: Option<seq<Artifact>>, c: Codec, r: Readers) returns (errors: Option<seq<ClaimError>>)
    ensures errors.None? <==> artifacts.None? && ProofAsRecorded(files, proof, c)
    ensures errors.Some? ==> ReportsProof(errors.value, files, proof, artifacts, c, r)
  {
    var bytes := BytesAt(files, proof.path, c);
    if bytes.None? {
      return Some([ProofMissing(proof.path)]);
    }
    var found: seq<ClaimError> := [];
    if c.sha(bytes.value) != proof.hash {
      found := found + [ProofHashMismatch];
    } else if artifacts.None? {
      return None;
    } else if FirstHash(artifacts.value, proof.path) != Some(proof.hash) {
      found := found + [ProofHashMismatch];
    }
    if r.secret(r.text(bytes.value)) {
      found := found + [SecretDetected];
    }
    if r.forbidden(r.text(bytes.value)) {
      found := found + [ForbiddenConstruct];
    }
    return Some(found);
  }

  // An acceptable capsule whose archive was exported from a store holds the store's proof, and the record
  // states that proof's hash.
  lemma AcceptedProofIsExported(paths: seq<JsString>, store: JsString -> Option<Bytes>, c: Codec, sha: Bytes -> Digest, r: Readers, received: Archive)
    requires c == Standard(sha) && Injective(c) && Export(paths, store, c).Ok?
    requires received.manifest == Export(paths, store, c).value.manifest && Acceptable(received, c, r)
    ensures var proof := ParseBoth(received.files, c, r).record.value.proof.value;
            && proof.path in Map(Forward, paths)
            && store(proof.path).Some? && c.sha(store(proof.path).value) == proof.hash
  {
    CleanMeansExported(paths, store, c, sha, received, ParseBoth(received.files, c, r).record.value.proof.value.path);
  }
}
