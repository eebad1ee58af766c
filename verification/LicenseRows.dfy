// The inventory rows, the release gate computed from them, and the pass that fills in standard
// licence texts.
module LicenseRows {
  import opened Sequences
  import opened Spdx
  import opened LicenseText

  datatype Ecosystem = Workspace | Runtime | NpmRoot | NpmDesktop | Cargo
  datatype Search = InstalledPackage | RegistryArchive

  // `declared` is the licence the SBOM entry of the same index declares.
  datatype RowData = RowData(
    ecosystem: Ecosystem, name: string, version: string, license: string,
    noticeFiles: Option<seq<string>>, noticeSearch: Option<Search>, standardTextBasis: bool, notDistributed: bool,
    rawLicense: Option<string>, licenseSource: Option<string>, declared: string)

  datatype Gate = Gate(unresolvedCount: nat, missingNoticeCount: nat, notDistributedCount: nat, complete: bool, releaseBlocked: bool)

  predicate HasNotice(row: RowData) {
    row.noticeFiles.Some? && row.noticeFiles.value != []
  }

  predicate Gated(row: RowData) { !row.notDistributed }
  predicate Unresolved(row: RowData) { row.license == NOASSERTION }
  predicate LacksNotice(row: RowData) { row.ecosystem != Workspace && !HasNotice(row) }

  function LicenseGate(rows: seq<RowData>): Gate {
    var gated := Filter(Gated, rows);
    FilterLength(Gated, rows);
    var unresolved := |Filter(Unresolved, gated)|;
    var missing := |Filter(LacksNotice, gated)|;
    var complete := unresolved == 0 && missing == 0;
    Gate(unresolved, missing, |rows| - |gated|, complete, !complete)
  }

  lemma {:induction false} FilterLength<T(!new)>(keep: T -> bool, s: seq<T>)
    ensures |Filter(keep, s)| <= |s|
  {
    if s != [] {
      FilterLength(keep, s[1..]);
    }
  }

  const TEXT_PREFIX := "spdx-standard-text:"

  function TextFiles(ids: seq<string>): (files: seq<string>)
    ensures |files| == |ids|
  {
    Map((id: string) => TEXT_PREFIX + id, ids)
  }

  // The rows the pass looks at: distributed, searched, licensed, without a notice of their own.
  predicate Considered(row: RowData) {
    !(row.ecosystem == Workspace || row.notDistributed || HasNotice(row) || row.noticeSearch.None? || row.license == NOASSERTION)
  }

  // Which texts are reproduced for a licence; the pass uses ChoiceWith of the texts at hand.
  type Choose = string -> Option<seq<string>>

  function ChoiceWith(available: set<string>): Choose {
    license => StandardTextChoice(license, available)
  }

  // The row after the pass.
  function Filled(row: RowData, choose: Choose): RowData {
    if !Considered(row) then row
    else match choose(row.license)
      case None => row
      case Some(ids) => row.(noticeFiles := Some(TextFiles(ids)), standardTextBasis := true)
  }

  // The texts one row asks for.
  function TextsFor(row: RowData, choose: Choose): set<string> {
    if !Considered(row) then {}
    else match choose(row.license)
      case None => {}
      case Some(ids) => Elements(ids)
  }

  class InventoryRow {
    const ecosystem: Ecosystem
    const name: string
    const version: string
    var license: string
    var noticeFiles: Option<seq<string>>
    var noticeSearch: Option<Search>
    var standardTextBasis: bool
    var notDistributed: bool
    var rawLicense: Option<string>
    var licenseSource: Option<string>
    var declared: string

    constructor (data: RowData)
      ensures Data() == data
    {
      ecosystem, name, version, license := data.ecosystem, data.name, data.version, data.license;
      noticeFiles, noticeSearch := data.noticeFiles, data.noticeSearch;
      standardTextBasis, notDistributed := data.standardTextBasis, data.notDistributed;
      rawLicense, licenseSource, declared := data.rawLicense, data.licenseSource, data.declared;
    }

    function Data(): RowData
      reads this
    {
      RowData(ecosystem, name, version, license, noticeFiles, noticeSearch, standardTextBasis, notDistributed,
              rawLicense, licenseSource, declared)
    }

    // The body of the loop for one row; `ids` are the texts it names.
    method Fill(choose: Choose) returns (ids: seq<string>)
      modifies this
      ensures Data() == Filled(old(Data()), choose)
      ensures Elements(ids) == TextsFor(old(Data()), choose)
    {
      if ecosystem == Workspace || notDistributed || (noticeFiles.Some? && noticeFiles.value != [])
         || noticeSearch.None? || license == NOASSERTION
      {
        return [];
      }
      var choice := choose(license);
      if choice.None? {
        return [];
      }
      ids := choice.value;
      noticeFiles := Some(TextFiles(ids));
      standardTextBasis := true;
    }
  }

  function AllData(rows: seq<InventoryRow>): (data: seq<RowData>)
    reads rows
    ensures |data| == |rows| && forall i :: 0 <= i < |rows| ==> data[i] == rows[i].Data()
  {
    if rows == [] then [] else [rows[0].Data()] + AllData(rows[1..])
  }

  // The texts asked for by some row.
  function AllTexts(rows: seq<RowData>, choose: Choose): set<string> {
    if rows == [] then {}
    else AllTexts(rows[..|rows| - 1], choose) + TextsFor(rows[|rows| - 1], choose)
  }

  // After k rows: those already met are filled, the others as they were, and `used` has their texts.
  ghost predicate Progress(rows: seq<InventoryRow>, olds: seq<RowData>, now: seq<RowData>, used: set<string>, k: nat, choose: Choose) {
    && k <= |rows| == |olds| == |now|
    && (forall i :: 0 <= i < |rows| ==> now[i] == if rows[i] in rows[..k] then Filled(olds[i], choose) else olds[i])
    && used == AllTexts(olds[..k], choose)
    && (forall i :: 0 <= i < |rows| && rows[i] in rows[..k] ==> TextsFor(olds[i], choose) <= used)
  }

  lemma FillStep(rows: seq<InventoryRow>, olds: seq<RowData>, now: seq<RowData>, next: seq<RowData>, used: set<string>, ids: set<string>, k: nat, choose: Choose)
    requires k < |rows| && Progress(rows, olds, now, used, k, choose) && ids == TextsFor(now[k], choose)
    requires forall i :: 0 <= i < |rows| && rows[i] == rows[k] ==> olds[i] == olds[k]
    requires |next| == |rows|
    requires forall i :: 0 <= i < |rows| ==> next[i] == if rows[i] == rows[k] then Filled(now[k], choose) else now[i]
    ensures Progress(rows, olds, next, used + ids, k + 1, choose)
  {
    PrefixStep(rows, k);
    PrefixStep(olds, k);
    FillTwice(olds[k], choose);
    assert used + ids == used + TextsFor(olds[k], choose);
  }

  // The loop over the rows, which hold `olds` at the start. A row listed twice is filled once.
  method FillRows(rows: seq<InventoryRow>, choose: Choose, ghost olds: seq<RowData>) returns (used: set<string>)
    requires |olds| == |rows| && forall i :: 0 <= i < |rows| ==> rows[i].Data() == olds[i]
    modifies rows
    ensures forall i :: 0 <= i < |rows| ==> rows[i].Data() == Filled(olds[i], choose)
    ensures used == AllTexts(olds, choose)
  {
    used := {};
    ghost var now := olds;
    for k := 0 to |rows|
      invariant |now| == |rows| && forall i :: 0 <= i < |rows| ==> rows[i].Data() == now[i]
      invariant Progress(rows, olds, now, used, k, choose)
    {
      ghost var next := seq(|rows|, i requires 0 <= i < |rows| => if rows[i] == rows[k] then Filled(now[k], choose) else now[i]);
      var ids := rows[k].Fill(choose);
      FillStep(rows, olds, now, next, used, Elements(ids), k, choose);
      now := next;
      used := used + Elements(ids);
    }
    assert olds[..|rows|] == olds;
  }

  method ApplyStandardLicenseTexts(rows: seq<InventoryRow>, available: set<string>) returns (used: set<string>, gate: Gate)
    modifies rows
    ensures forall i :: 0 <= i < |rows| ==> rows[i].Data() == Filled(old(rows[i].Data()), ChoiceWith(available))
    ensures used == AllTexts(old(AllData(rows)), ChoiceWith(available))
    ensures gate == LicenseGate(FillAll(old(AllData(rows)), ChoiceWith(available)))
  {
    var choose := ChoiceWith(available);
    ghost var olds := AllData(rows);
    used := FillRows(rows, choose, olds);
    var data := AllData(rows);
    AllFilled(olds, data, choose);
    gate := LicenseGate(data);
  }

  lemma AllFilled(olds: seq<RowData>, data: seq<RowData>, choose: Choose)
    requires |data| == |olds| && forall i :: 0 <= i < |olds| ==> data[i] == Filled(olds[i], choose)
    ensures data == FillAll(olds, choose)
  {
  }

  // ---------------------------------------------------------------- what the pass means for a release

  // Running it again changes nothing and asks for no text it has not already placed.
  lemma FillTwice(row: RowData, choose: Choose)
    ensures Filled(Filled(row, choose), choose) == Filled(row, choose)
    ensures TextsFor(Filled(row, choose), choose) <= TextsFor(row, choose)
  {
  }

  // Only a searched, distributed, licensed row without a notice is touched, and only its notice fields.
  lemma FillsOnlyGaps(row: RowData, choose: Choose)
    requires Filled(row, choose) != row
    ensures row.ecosystem != Workspace && !row.notDistributed && !HasNotice(row) && row.noticeSearch.Some? && row.license != NOASSERTION
    ensures var filled := Filled(row, choose);
            filled == row.(noticeFiles := filled.noticeFiles, standardTextBasis := true)
  {
  }

  function FillAll(rows: seq<RowData>, choose: Choose): (r: seq<RowData>)
    ensures |r| == |rows| && forall i :: 0 <= i < |rows| ==> r[i] == Filled(rows[i], choose)
  {
    Map((row: RowData) => Filled(row, choose), rows)
  }

  // The rows that had no notice and now have one.
  ghost function NewlyCovered(rows: seq<RowData>, choose: Choose): nat {
    if rows == [] then 0
    else (if !HasNotice(rows[0]) && HasNotice(Filled(rows[0], choose)) then 1 else 0) + NewlyCovered(rows[1..], choose)
  }

  // The gate's counts: unresolved licences and undistributed rows stay, missing notices fall by exactly
  // the rows covered. So the pass can only unblock a release.
  lemma {:induction false} GateAfterFill(rows: seq<RowData>, choose: Choose)
    ensures var before, after := LicenseGate(rows), LicenseGate(FillAll(rows, choose));
            && after.unresolvedCount == before.unresolvedCount
            && after.notDistributedCount == before.notDistributedCount
            && after.missingNoticeCount + NewlyCovered(rows, choose) == before.missingNoticeCount
            && (before.complete ==> after.complete)
  {
    if rows != [] {
      var filled := FillAll(rows, choose);
      assert filled[1..] == FillAll(rows[1..], choose);
      GateAfterFill(rows[1..], choose);
      GateStep(rows);
      GateStep(filled);
    }
  }

  lemma GateStep(rows: seq<RowData>)
    requires rows != []
    ensures var all, rest := LicenseGate(rows), LicenseGate(rows[1..]);
            && all.unresolvedCount == rest.unresolvedCount + (if Gated(rows[0]) && Unresolved(rows[0]) then 1 else 0)
            && all.missingNoticeCount == rest.missingNoticeCount + (if Gated(rows[0]) && LacksNotice(rows[0]) then 1 else 0)
            && all.notDistributedCount == rest.notDistributedCount + (if Gated(rows[0]) then 0 else 1)
  {
    if Gated(rows[0]) {
      var gated := Filter(Gated, rows);
      assert gated[1..] == Filter(Gated, rows[1..]);
    }
  }

  // The texts a filled row names satisfy its licence, read under any precedence.
  lemma FilledRowSatisfied(row: RowData, available: set<string>, choose: Choose, tables: Tables, e: Expr, f: Formula)
    requires Accepted(row.license, tables) && ReservedFree(tables) && PlainNames(available) && choose == ChoiceWith(available)
    requires WellFormedExpr(e, tables) && PrintExpr(e) == Tokenize(row.license) && ReadsExpr(f, e)
    requires OperatorsVisible(row.license)
    requires Filled(row, choose) != row
    ensures Satisfied(f, TextsFor(row, choose))
    ensures var files := Filled(row, choose).noticeFiles;
            files.Some? && forall id :: id in TextsFor(row, choose) ==> TEXT_PREFIX + id in files.value
  {
    ChosenTextsSatisfy(row.license, tables, available, e, f);
    var ids := choose(row.license).value;
    forall id | id in Elements(ids)
      ensures TEXT_PREFIX + id in TextFiles(ids)
    {
      var i :| 0 <= i < |ids| && ids[i] == id;
      assert TextFiles(ids)[i] == TEXT_PREFIX + id;
    }
  }
}
