// Replaying a capsule: the plan, the writing into an empty target, and the report after the local kernel
// has checked the proof again.
module CapsuleReplay {
  import opened Sequences
  import opened JsStrings
  import opened CapsuleArchive
  import opened CapsuleClaim
  import CanonicalJson

  datatype Environment = Environment(schemaEpoch: int, toolchains: map<string, string>, models: bool)
  datatype Missing = SchemaTooNew | ToolchainMissing(name: string) | ModelUnavailable
  datatype Action = LeanReverify(claim: string) | ReplayInSandbox
  datatype Status = Blocked | Conditional | Ready
  datatype Plan = Plan(status: Status, missing: seq<Missing>, actions: seq<Action>, imported: map<string, string>)

  const CURRENT := "KERNEL_VERIFIED"
  const HISTORICAL := "HISTORICAL_KERNEL_VERIFIED"
  const UNVERIFIED := "UNVERIFIED"

  // What every JavaScript object inherits from Object.prototype; none of it is falsy.
  const INHERITED: set<string> := {
    "constructor", "__defineGetter__", "__defineSetter__", "hasOwnProperty", "__lookupGetter__", "__lookupSetter__",
    "isPrototypeOf", "propertyIsEnumerable", "toString", "valueOf", "__proto__", "toLocaleString" }

  // toolchains[name] is truthy
  predicate HasToolchain(e: Environment, name: string) {
    if name in e.toolchains then e.toolchains[name] != "" else name in INHERITED
  }

  lemma ConstructorNeverMissing(e: Environment)
    requires e.toolchains == map[]
    ensures HasToolchain(e, "constructor") && !HasToolchain(e, "lean")
  {
    assert forall name :: name in INHERITED ==> |name| > 4;
  }

  function ImportedStatus(status: string): string {
    if status == CURRENT then HISTORICAL else status
  }

  // The status a later row gives a claim replaces that of an earlier one.
  function Imported(claims: seq<ClaimRow>): (m: map<string, string>)
    ensures forall id :: id in m <==> exists row :: row in claims && row.id == id
  {
    if claims == [] then map[]
    else
      var front, last := claims[..|claims| - 1], claims[|claims| - 1];
      assert claims == front + [last];
      Imported(front)[last.id := ImportedStatus(last.status)]
  }

  predicate IsHard(m: Missing) { m.SchemaTooNew? || m.ToolchainMissing? }

  // The manifest has the lists a plan reads.
  predicate Plannable(content: Content) {
    content.toolchains.Some? && content.models.Some? && content.claims.Some?
  }

  // What is missing, what is to be done, the status and the imported claims.
  ghost predicate PlanFits(plan: Plan, content: Content, e: Environment)
    requires Plannable(content)
  {
    && (SchemaTooNew in plan.missing <==> content.schemaEpoch > e.schemaEpoch)
    && (ModelUnavailable in plan.missing <==> content.models.value != 0 && !e.models)
    && (forall name :: ToolchainMissing(name) in plan.missing <==> name in content.toolchains.value && !HasToolchain(e, name))
    && (forall id :: LeanReverify(id) in plan.actions <==> exists row :: row in content.claims.value && row.id == id && row.status == CURRENT)
    && ReplayInSandbox in plan.actions
    && plan.status == (if PlanBlocked(content, e) then Blocked else Conditional)
    && plan.imported == Imported(content.claims.value) && forall id :: id in plan.imported ==> plan.imported[id] != CURRENT
  }

  method PlanReplay(content: Content, e: Environment) returns (plan: Plan)
    requires Plannable(content)
    ensures PlanFits(plan, content, e)
  {
    var toolchains, claims := content.toolchains.value, content.claims.value;
    var missing: seq<Missing> := [];
    if content.schemaEpoch > e.schemaEpoch {
      missing := missing + [SchemaTooNew];
    }
    for k := 0 to |toolchains|
      invariant SchemaTooNew in missing <==> content.schemaEpoch > e.schemaEpoch
      invariant ModelUnavailable !in missing
      invariant forall name :: ToolchainMissing(name) in missing <==> name in toolchains[..k] && !HasToolchain(e, name)
    {
      PrefixStep(toolchains, k);
      if !HasToolchain(e, toolchains[k]) {
        missing := missing + [ToolchainMissing(toolchains[k])];
      }
    }
    assert toolchains[..|toolchains|] == toolchains;
    if content.models.value != 0 && !e.models {
      missing := missing + [ModelUnavailable];
    }
    var actions := ReverifyActions(claims);
    actions := actions + [ReplayInSandbox];
    var hard := exists m :: m in missing && IsHard(m);
    var status := if hard then Blocked else if missing != [] || actions != [] then Conditional else Ready;
    NeverCurrent(claims);
    plan := Plan(status, missing, actions, Imported(claims));
  }

  method ReverifyActions(claims: seq<ClaimRow>) returns (actions: seq<Action>)
    ensures forall id :: LeanReverify(id) in actions <==> exists row :: row in claims && row.id == id && row.status == CURRENT
  {
    actions := [];
    for k := 0 to |claims|
      invariant forall id :: LeanReverify(id) in actions <==> exists row :: row in claims[..k] && row.id == id && row.status == CURRENT
    {
      PrefixStep(claims, k);
      if claims[k].status == CURRENT {
        actions := actions + [LeanReverify(claims[k].id)];
      }
    }
    assert claims[..|claims|] == claims;
  }

  // ---------------------------------------------------------------- comparing axioms

  // JSON.stringify of a list of strings
  function ListText(s: seq<JsString>): JsString {
    CanonicalJson.Canonical(CanonicalJson.JArray(Map((x: JsString) => CanonicalJson.JString(x), s)))
  }

  predicate AxiomsMatch(recorded: seq<JsString>, found: seq<JsString>) {
    ListText(SortStrings(recorded)) == ListText(SortStrings(found))
  }

  lemma ListTextInjective(a: seq<JsString>, b: seq<JsString>)
    requires ListText(a) == ListText(b)
    ensures a == b
  {
    var us, ws := Map((x: JsString) => CanonicalJson.JString(x), a), Map((x: JsString) => CanonicalJson.JString(x), b);
    CanonicalJson.CanonicalExact(CanonicalJson.JArray(us), CanonicalJson.JArray(ws));
    SameStrings(us, ws);
    assert forall i :: 0 <= i < |a| ==> us[i] == CanonicalJson.JString(a[i]) && ws[i] == CanonicalJson.JString(b[i]);
  }

  lemma {:induction false} SameStrings(us: seq<CanonicalJson.Json>, ws: seq<CanonicalJson.Json>)
    requires forall u :: u in us ==> u.JString?
    requires forall w :: w in ws ==> w.JString?
    requires CanonicalJson.DenoteAll(us) == CanonicalJson.DenoteAll(ws)
    ensures us == ws
  {
    if us != [] {
      assert ws != [];
      assert CanonicalJson.DenoteAll(us)[1..] == CanonicalJson.DenoteAll(us[1..]) && CanonicalJson.DenoteAll(ws)[1..] == CanonicalJson.DenoteAll(ws[1..]);
      SameStrings(us[1..], ws[1..]);
      assert us == [us[0]] + us[1..] && ws == [ws[0]] + ws[1..];
    }
  }

  // The printed comparison is equality as multisets.
  lemma AxiomsMatchExactly(recorded: seq<JsString>, found: seq<JsString>)
    ensures AxiomsMatch(recorded, found) <==> multiset(recorded) == multiset(found)
  {
    SortedAlike(recorded, found);
    if AxiomsMatch(recorded, found) {
      ListTextInjective(SortStrings(recorded), SortStrings(found));
    }
  }

  // ---------------------------------------------------------------- the replay

  datatype Kernel = Kernel(result: string, leanVersion: Option<string>)
  datatype Lean = Lean(root: string, check: JsString -> Kernel, axioms: (JsString, JsString) -> seq<JsString>)

  datatype Refusal = TargetNotEmpty | UserActionRequired | ReplayBlocked
  datatype Checks = Checks(kernelAccepted: bool, axiomsMatch: bool, noForbidden: bool, sameVersion: bool)
  datatype ReplayReport = ReplayReport(replayed: bool, claimStatus: string, checks: Checks)

  datatype Outcome =
    | Refused(error: Error)
    | Invalid(errors: seq<ClaimError>)
    // The manifest lacks a list the plan reads.
    | Unplanned
    | Planned(plan: Plan)
    | NotApplied(reason: Refusal)
    // The files are written, and then there is no Lean to check them with, or no recorded axioms to compare.
    | WrittenUnchecked(written: seq<FileRow>)
    | Reported(report: ReplayReport, written: seq<FileRow>)

  method ApplyReplay(plan: Plan, targetEmpty: bool, userAction: bool) returns (refusal: Option<Refusal>)
    ensures refusal.None? <==> targetEmpty && userAction && plan.status != Blocked
    ensures !targetEmpty ==> refusal == Some(TargetNotEmpty)
    ensures targetEmpty && !userAction ==> refusal == Some(UserActionRequired)
    ensures targetEmpty && userAction && plan.status == Blocked ==> refusal == Some(ReplayBlocked)
  {
    if !targetEmpty {
      return Some(TargetNotEmpty);
    }
    if !userAction {
      return Some(UserActionRequired);
    }
    if plan.status == Blocked {
      return Some(ReplayBlocked);
    }
    return None;
  }

  function ReplayEnvironment(schemaEpoch: int, lean: Option<Lean>): Environment {
    Environment(schemaEpoch, if lean.Some? then map["lean" := lean.value.root] else map[], true)
  }

  predicate PlanBlocked(content: Content, e: Environment)
    requires Plannable(content)
  {
    content.schemaEpoch > e.schemaEpoch || exists name :: name in content.toolchains.value && !HasToolchain(e, name)
  }

  // The environment lists the toolchain, under a text that is not empty.
  predicate Installed(e: Environment, name: string) {
    name in e.toolchains && e.toolchains[name] != ""
  }

  // A plan ignores toolchains that are not installed exactly when there are such, every one of them has the name
  // of a property that all objects inherit and that the environment does not list, and the epoch is no reason.
  lemma MissingIgnoredExactly(content: Content, e: Environment)
    requires Plannable(content)
    ensures !PlanBlocked(content, e) && (exists name :: name in content.toolchains.value && !Installed(e, name)) <==>
      && content.schemaEpoch <= e.schemaEpoch
      && (exists name :: name in content.toolchains.value && name !in e.toolchains && name in INHERITED)
      && (forall name :: name in content.toolchains.value ==> Installed(e, name) || (name !in e.toolchains && name in INHERITED))
  {
    if name :| name in content.toolchains.value && !Installed(e, name) {
      assert HasToolchain(e, name) <==> name !in e.toolchains && name in INHERITED;
    }
  }

  // What the kernel says of the proof, and the axioms it reports for an accepted one.
  function FoundAxioms(lean: Lean, declaration: JsString, source: JsString): seq<JsString> {
    if lean.check(source).result == ACCEPTED then lean.axioms(declaration, source) else []
  }

  ghost predicate Reproduced(lean: Lean, declaration: JsString, recorded: seq<JsString>, source: JsString, r: Readers) {
    && lean.check(source).result == ACCEPTED
    && multiset(FoundAxioms(lean, declaration, source)) == multiset(recorded)
    && !r.forbidden(source)
  }

  // Which outcome a replay of an acceptable capsule has.
  ghost predicate OutcomeFits(outcome: Outcome, record: Record, content: Content, target: Option<bool>, lean: Option<Lean>, schemaEpoch: int)
    requires record.verification.Some?
  {
    if !Plannable(content) then outcome == Unplanned
    else
      var blocked := PlanBlocked(content, ReplayEnvironment(schemaEpoch, lean));
      if target.None? then outcome.Planned? && PlanFits(outcome.plan, content, ReplayEnvironment(schemaEpoch, lean))
      else if !target.value then outcome == NotApplied(TargetNotEmpty)
      else if blocked then outcome == NotApplied(ReplayBlocked)
      else if lean.None? || record.verification.value.axioms.None? then outcome.WrittenUnchecked?
      else outcome.Reported?
  }

  // What a report says.
  ghost predicate ReportFits(report: ReplayReport, record: Record, source: JsString, lean: Lean, r: Readers)
    requires record.verification.Some? && record.verification.value.axioms.Some? && record.formal.Some?
  {
    var recorded, declaration := record.verification.value.axioms.value, record.formal.value.declaration;
    && (report.replayed <==> Reproduced(lean, declaration, recorded, source, r))
    && (report.checks.kernelAccepted <==> lean.check(source).result == ACCEPTED)
    && (report.checks.noForbidden <==> !r.forbidden(source))
    && (report.checks.axiomsMatch <==> multiset(FoundAxioms(lean, declaration, source)) == multiset(recorded))
    && (report.checks.sameVersion <==> lean.check(source).leanVersion == record.verification.value.leanVersion)
    && report.claimStatus != CURRENT
    && (!report.replayed ==> report.claimStatus == UNVERIFIED)
  }

  method ReplayClaim(archive: Archive, target: Option<bool>, lean: Option<Lean>, schemaEpoch: int, c: Codec, r: Readers) returns (outcome: Outcome)
    ensures outcome.Refused? || outcome.Invalid? <==> !Acceptable(archive, c, r)
    ensures Acceptable(archive, c, r) ==>
      var parses := ParseBoth(archive.files, c, r);
      OutcomeFits(outcome, parses.record.value, parses.content.value, target, lean, schemaEpoch)
    ensures outcome.Reported? || outcome.WrittenUnchecked? ==> outcome.written == archive.files
    ensures outcome.Reported? && Acceptable(archive, c, r) && lean.Some? ==>
      var record := ParseBoth(archive.files, c, r).record.value;
      var source := r.text(BytesAt(archive.files, record.proof.value.path, c).value);
      && record.verification.value.axioms.Some? && ReportFits(outcome.report, record, source, lean.value, r)
      && var claims, id := ParseBoth(archive.files, c, r).content.value.claims.value, record.claim.value.id;
         outcome.report.replayed ==> outcome.report.claimStatus == if id in Imported(claims) then Imported(claims)[id] else HISTORICAL
  {
    var result := VerifyClaim(archive, c, r);
    if result.Err? {
      return Refused(result.error);
    }
    if result.value.errors != [] || result.value.record.None? || result.value.content.None? {
      return Invalid(result.value.errors);
    }
    var record, content := result.value.record.value, result.value.content.value;
    if !Plannable(content) {
      return Unplanned;
    }
    var plan := PlanReplay(content, ReplayEnvironment(schemaEpoch, lean));
    if target.None? {
      return Planned(plan);
    }
    var refusal := ApplyReplay(plan, target.value, true);
    if refusal.Some? {
      return NotApplied(refusal.value);
    }
    if lean.None? || record.verification.value.axioms.None? {
      return WrittenUnchecked(archive.files);
    }
    var source := r.text(BytesAt(archive.files, record.proof.value.path, c).value);
    var report := CheckAgain(lean.value, record, source, plan, r);
    return Reported(report, archive.files);
  }

  method CheckAgain(lean: Lean, record: Record, source: JsString, plan: Plan, r: Readers) returns (report: ReplayReport)
    requires record.verification.Some? && record.verification.value.axioms.Some? && record.formal.Some? && record.claim.Some?
    requires forall id :: id in plan.imported ==> plan.imported[id] != CURRENT
    ensures ReportFits(report, record, source, lean, r)
    ensures report.replayed ==>
      report.claimStatus == if record.claim.value.id in plan.imported then plan.imported[record.claim.value.id] else HISTORICAL
  {
    var recorded, id := record.verification.value.axioms.value, record.claim.value.id;
    var kernel := lean.check(source);
    var axioms := if kernel.result == ACCEPTED then lean.axioms(record.formal.value.declaration, source) else [];
    AxiomsMatchExactly(recorded, axioms);
    var checks := Checks(kernel.result == ACCEPTED, AxiomsMatch(recorded, axioms), !r.forbidden(source),
                         kernel.leanVersion == record.verification.value.leanVersion);
    var replayed := checks.kernelAccepted && checks.axiomsMatch && checks.noForbidden;
    var status := if !replayed then UNVERIFIED else if id in plan.imported then plan.imported[id] else HISTORICAL;
    report := ReplayReport(replayed, status, checks);
  }

  // No import carries the current status over.
  lemma {:induction false} NeverCurrent(claims: seq<ClaimRow>)
    ensures forall id :: id in Imported(claims) ==> Imported(claims)[id] != CURRENT
  {
    if claims != [] {
      NeverCurrent(claims[..|claims| - 1]);
    }
  }
}
