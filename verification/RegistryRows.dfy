// What the registry passes do to one row, and in which order.
module RegistryRows {
  import opened Sequences
  import opened Sorting
  import opened Spdx
  import opened LicenseRows
  import opened RegistryPasses
  import opened NoticePass

  // ---------------------------------------------------------------- the candidates

  predicate LacksFiles(row: RowData) {
    row.noticeFiles == None || row.noticeFiles == Some([])
  }

  // Distributed packages of the three registries that lack a licence or a notice.
  predicate Asked(row: RowData) {
    && !row.notDistributed && row.ecosystem in {NpmRoot, NpmDesktop, Cargo}
    && (row.license == "NOASSERTION" || LacksFiles(row))
  }

  // Rows without a licence come first; otherwise the inventory's order counts.
  predicate Before(rows: seq<RowData>, i: nat, j: nat) {
    && i < |rows| && j < |rows|
    && if (rows[i].license == "NOASSERTION") == (rows[j].license == "NOASSERTION") then i < j else rows[i].license == "NOASSERTION"
  }

  lemma {:induction false} IndicesIncrease(rows: seq<RowData>, keep: RowData -> bool)
    ensures Increasing(Indices(rows, keep))
  {
    if rows != [] {
      var last := |rows| - 1;
      IndicesIncrease(rows[..last], keep);
      var front := Indices(rows[..last], keep);
      assert forall p :: 0 <= p < |front| ==> front[p] in front;
    }
  }

  // Filtering keeps two kept elements in their order.
  lemma {:induction false} KeptInOrder(keep: nat -> bool, s: seq<nat>, p: nat, q: nat) returns (a: nat, b: nat)
    requires p < q < |s| && keep(s[p]) && keep(s[q])
    ensures a < b < |Filter<nat>(keep, s)| && Filter<nat>(keep, s)[a] == s[p] && Filter<nat>(keep, s)[b] == s[q]
  {
    if p > 0 {
      a, b := KeptInOrder(keep, s[1..], p - 1, q - 1);
      if keep(s[0]) {
        a, b := a + 1, b + 1;
      }
    } else {
      assert s[q] in s[1..];
      var rest := Filter<nat>(keep, s[1..]);
      assert s[q] in rest;
      var c :| 0 <= c < |rest| && rest[c] == s[q];
      a, b := 0, c + 1;
    }
  }

  ghost predicate Increasing(s: seq<nat>) {
    forall p, q :: 0 <= p < q < |s| ==> s[p] < s[q]
  }

  lemma ConsIncreasing(x: nat, s: seq<nat>)
    requires Increasing(s) && forall k :: 0 <= k < |s| ==> x < s[k]
    ensures Increasing([x] + s)
  {
    assert forall q :: 1 <= q < |[x] + s| ==> ([x] + s)[q] == s[q - 1];
  }

  lemma {:induction false} FilterIncreases(keep: nat -> bool, s: seq<nat>)
    requires Increasing(s)
    ensures Increasing(Filter<nat>(keep, s))
  {
    if s != [] {
      var rest := Filter<nat>(keep, s[1..]);
      FilterIncreases(keep, s[1..]);
      forall k | 0 <= k < |rest|
        ensures s[0] < rest[k]
      {
        assert rest[k] in rest && rest[k] in s[1..];
        var i :| 0 <= i < |s[1..]| && s[1..][i] == rest[k];
        assert s[i + 1] == rest[k];
      }
      ConsIncreasing(s[0], rest);
    }
  }

  lemma SameClass(all: seq<nat>, sorted: seq<nat>, keep: nat -> bool, p: nat, q: nat)
    requires Filter<nat>(keep, sorted) == Filter<nat>(keep, all) && Increasing(all)
    requires p < q < |sorted| && keep(sorted[p]) && keep(sorted[q])
    ensures sorted[p] < sorted[q]
  {
    FilterIncreases(keep, all);
    var a, b := KeptInOrder(keep, sorted, p, q);
  }

  // The wanted rows, in order.
  ghost predicate AllAsked(sorted: seq<nat>, rows: seq<RowData>) {
    && (forall i: nat :: i in sorted <==> i < |rows| && Asked(rows[i]))
    && forall p, q :: 0 <= p < q < |sorted| ==> Before(rows, sorted[p], sorted[q])
  }

  lemma SortedAsked(rows: seq<RowData>)
    ensures AllAsked(Sort(Indices(rows, Wanted), UnlicensedFirst(rows)), rows)
  {
    var all, le := Indices(rows, Wanted), UnlicensedFirst(rows);
    SortMembers(all, le);
    SortSorted(all, le);
    IndicesIncrease(rows, Wanted);
    WantedIsAsked();
    InClasses(rows, all, Sort(all, le), le);
  }

  lemma WantedIsAsked()
    ensures forall row :: Wanted(row) <==> Asked(row)
  {
  }

  lemma UnlicensedTotal(rows: seq<RowData>)
    ensures TotalPreorder<nat>(UnlicensedFirst(rows))
  {
  }

  lemma InClasses(rows: seq<RowData>, all: seq<nat>, sorted: seq<nat>, le: (nat, nat) -> bool)
    requires le == UnlicensedFirst(rows) && sorted == Sort<nat>(all, le) && Sorted<nat>(sorted, le) && Increasing(all)
    requires forall i :: i in sorted ==> i < |rows|
    ensures forall p, q :: 0 <= p < q < |sorted| ==> Before(rows, sorted[p], sorted[q])
  {
    forall p, q | 0 <= p < q < |sorted|
      ensures Before(rows, sorted[p], sorted[q])
    {
      UnlicensedTotal(rows);
      SortStable<nat>(all, le, sorted[p]);
      OneClass(all, sorted, le, p, q);
      BeforeOrNot(rows, sorted, p, q);
    }
  }

  lemma BeforeOrNot(rows: seq<RowData>, sorted: seq<nat>, p: nat, q: nat)
    requires p < q < |sorted| && Sorted<nat>(sorted, UnlicensedFirst(rows)) && forall i :: i in sorted ==> i < |rows|
    requires var le := UnlicensedFirst(rows);
             le(sorted[p], sorted[q]) && le(sorted[q], sorted[p]) ==> sorted[p] < sorted[q]
    ensures Before(rows, sorted[p], sorted[q])
  {
    assert sorted[p] in sorted && sorted[q] in sorted && UnlicensedFirst(rows)(sorted[p], sorted[q]);
  }

  lemma OneClass(all: seq<nat>, sorted: seq<nat>, le: (nat, nat) -> bool, p: nat, q: nat)
    requires p < q < |sorted| && TotalPreorder<nat>(le) && Increasing(all)
    requires Filter<nat>(Alike<nat>(le, sorted[p]), sorted) == Filter<nat>(Alike<nat>(le, sorted[p]), all)
    ensures le(sorted[p], sorted[q]) && le(sorted[q], sorted[p]) ==> sorted[p] < sorted[q]
  {
    var keep := Alike<nat>(le, sorted[p]);
    assert le(sorted[p], sorted[p]);
    if le(sorted[p], sorted[q]) && le(sorted[q], sorted[p]) {
      SameClass(all, sorted, keep, p, q);
    }
  }

  // The candidates are asked in this order, at most `limit` of them, and a row of this kind is left out only when the
  // limit is used up by rows before it.
  ghost predicate FirstAsked(c: seq<nat>, rows: seq<RowData>, limit: nat) {
    && |c| <= limit && (forall i :: i in c ==> i < |rows| && Asked(rows[i]))
    && (forall p, q :: 0 <= p < q < |c| ==> Before(rows, c[p], c[q]))
    && (forall i: nat :: i < |rows| && Asked(rows[i]) && i !in c ==> |c| == limit && forall p :: 0 <= p < |c| ==> Before(rows, c[p], i))
  }

  lemma CandidatesExactly(rows: seq<RowData>, limit: nat)
    ensures FirstAsked(Candidates(rows, limit), rows, limit)
  {
    SortedAsked(rows);
    CutAsked(Sort(Indices(rows, Wanted), UnlicensedFirst(rows)), rows, limit);
  }

  lemma CutAsked(sorted: seq<nat>, rows: seq<RowData>, limit: nat)
    requires AllAsked(sorted, rows)
    ensures FirstAsked(if |sorted| <= limit then sorted else sorted[..limit], rows, limit)
  {
    var c := if |sorted| <= limit then sorted else sorted[..limit];
    assert forall i :: i in c ==> i in sorted;
    forall i: nat | i < |rows| && Asked(rows[i]) && i !in c
      ensures |c| == limit && forall p :: 0 <= p < |c| ==> Before(rows, c[p], i)
    {
      assert i in sorted;
      var q :| 0 <= q < |sorted| && sorted[q] == i;
      assert forall k :: 0 <= k < |c| ==> sorted[k] == c[k] && c[k] in c;
    }
  }

  // ---------------------------------------------------------------- one answer, one archive

  // A licence fills a gap, in the SBOM too; text that is no licence is kept as it is; nothing else changes the row.
  lemma LicensedExactly(row: RowData, a: Answer)
    ensures var fills := a.Described? && a.license != "NOASSERTION" && row.license == "NOASSERTION";
            var raw := a.Described? && a.license == "NOASSERTION" && a.raw != "";
            && (Resolves(row, a) <==> fills)
            && LicensedRow(row, a) == row.(license := if fills then a.license else row.license,
                                           declared := if fills then a.license else row.declared,
                                           licenseSource := if fills then Some(a.source) else row.licenseSource,
                                           rawLicense := if fills then None else if raw then Some(a.raw) else row.rawLicense)
  {
  }

  // Only a row without notice files has its archive looked at: one of the registries' own is offered, a malformed address
  // counts as a failure, and any other address, or none, as nothing.
  lemma ArchiveExactly(row: RowData, a: Answer)
    ensures Fails(row, a) <==> a == Failed || (a.Described? && a.archive == Malformed && LacksFiles(row))
    ensures Offers(row, a) <==> a.Described? && LacksFiles(row) && exists url :: a.archive == Archive(url)
    ensures !(Fails(row, a) && Offers(row, a))
  {
    if a.Described? && a.archive.Archive? {
      assert a.archive == Archive(a.archive.url);
    }
  }

  // An archive without notice files marks the row as searched; one with notices gives it exactly these.
  lemma NoticedExactly(row: RowData, r: Reply)
    ensures NoticedRow(row, r) == row.(noticeFiles := if r.Files? && r.names != [] then Some(r.names) else row.noticeFiles,
                                       noticeSearch := if r == Files([]) then Some(RegistryArchive) else row.noticeSearch)
    ensures LacksFiles(row) ==> (HasNotice(NoticedRow(row, r)) <==> r.Files? && r.names != [])
  {
  }

  // The archives fetched are the first offered ones, as many as the limit allows.
  lemma QueueExactly(offers: seq<Offer>, limit: nat)
    ensures |Queue(offers, limit)| == (if |offers| < limit then |offers| else limit)
    ensures forall k :: 0 <= k < |Queue(offers, limit)| ==> Queue(offers, limit)[k] == offers[k]
  {
  }
}
