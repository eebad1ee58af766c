// Re-ranking under a rank cap.
module RankCap {
  // A candidate's sort key may improve by at most `cap` places; what users rely on is where it ends up
  // after the sort, which these lemmas derive from the key.

  import opened Sequences
  import opened Sorting

  datatype Candidate = Candidate(name: string, signature: string)
  datatype Row = Row(candidate: Candidate, bounded: int, before: int)

  // String.prototype.localeCompare under some locale.
  type Collation = (string, string) -> int

  ghost predicate Collates(collate: Collation) {
    && (forall x, y :: collate(x, y) <= 0 || collate(y, x) <= 0)
    && (forall x, y, z :: collate(x, y) <= 0 && collate(y, z) <= 0 ==> collate(x, z) <= 0)
  }

  const CUT := 200
  const UNRANKED := 201

  function Comparator(a: Row, b: Row, collate: Collation): int {
    if a.bounded != b.bounded then a.bounded - b.bounded
    else if a.before != b.before then a.before - b.before
    else collate(a.candidate.name, b.candidate.name)
  }

  function InOrder(collate: Collation): (Row, Row) -> bool {
    (a, b) => Comparator(a, b, collate) <= 0
  }

  lemma InOrderIsTotal(collate: Collation)
    requires Collates(collate)
    ensures TotalPreorder(InOrder(collate))
  {
  }

  function Names(list: seq<Candidate>): (r: seq<string>)
    ensures |r| == |list| && forall i :: 0 <= i < |list| ==> r[i] == list[i].name
  {
    Map((c: Candidate) => c.name, list)
  }

  function RowNames(rows: seq<Row>): (r: seq<string>)
    ensures |r| == |rows| && forall i :: 0 <= i < |rows| ==> r[i] == rows[i].candidate.name
  {
    Map((row: Row) => row.candidate.name, rows)
  }

  // `new Map(list.map((row, index) => [name, index + 1])).get(name)`: the last occurrence wins.
  function RankIn(list: seq<Candidate>, name: string): Option<int> {
    if list == [] then None
    else if list[|list| - 1].name == name then Some(|list|)
    else RankIn(list[..|list| - 1], name)
  }

  lemma {:induction false} RankInDistinct(list: seq<Candidate>, name: string)
    requires Distinct(Names(list))
    ensures name in Names(list) <==> RankIn(list, name).Some?
    ensures forall i :: 0 <= i < |list| && list[i].name == name ==> RankIn(list, name) == Some(i + 1)
  {
    if list != [] {
      var last := |list| - 1;
      assert Names(list) == Names(list[..last]) + [list[last].name];
      RankInDistinct(list[..last], name);
      forall i | 0 <= i < |list| && list[i].name == name
        ensures RankIn(list, name) == Some(i + 1)
      {
        assert Names(list)[i] == name;
        if i < last {
          assert Names(list)[last] != name;
          assert list[..last][i].name == name;
        }
      }
    }
  }

  // The rank of a name is the place of its last occurrence.
  lemma {:induction false} RankIsLast(list: seq<Candidate>, name: string, i: nat)
    requires i < |list| && list[i].name == name && forall j :: i < j < |list| ==> list[j].name != name
    ensures RankIn(list, name) == Some(i + 1)
    ensures name in Names(list) && Latest(list, name) == list[i]
  {
    var last := |list| - 1;
    assert Names(list)[i] == name;
    if i < last {
      RankIsLast(list[..last], name, i);
    }
  }

  lemma {:induction false} LastOccurrence(list: seq<Candidate>, name: string) returns (i: nat)
    requires name in Names(list)
    ensures i < |list| && list[i].name == name && RankIn(list, name) == Some(i + 1) && Latest(list, name) == list[i]
    ensures forall j :: i < j < |list| ==> list[j].name != name
  {
    i := |list| - 1;
    while list[i].name != name
      invariant i < |list| && forall j :: i < j < |list| ==> list[j].name != name
      decreases i
    {
      var k :| 0 <= k < |list| && Names(list)[k] == name;
      assert k <= i && list[k].name == name;
      i := i - 1;
    }
    RankIsLast(list, name, i);
  }

  lemma {:induction false} UnrankedExactly(list: seq<Candidate>, name: string)
    ensures RankIn(list, name).None? <==> name !in Names(list)
    ensures RankIn(list, name).Some? ==> 1 <= RankIn(list, name).value <= |list|
  {
    if list != [] {
      UnrankedExactly(list[..|list| - 1], name);
      assert Names(list) == Names(list[..|list| - 1]) + [list[|list| - 1].name];
    }
  }

  // The value a Map filled from the list keeps under this name: the last one.
  function Latest(list: seq<Candidate>, name: string): (c: Candidate)
    requires name in Names(list)
    ensures c in list && c.name == name
  {
    var last := |list| - 1;
    if list[last].name == name then list[last]
    else
      assert Names(list) == Names(list[..last]) + [list[last].name];
      Latest(list[..last], name)
  }

  function Min(a: int, b: int): int { if a <= b then a else b }

  // The rank cap: an eligible, improving candidate gains what the cap allows of its improvement, and no other
  // candidate gains anything.
  function BoundedRank(before: int, after: int, cap: nat, eligible: bool): (bounded: int)
    ensures before - cap <= bounded <= before
    ensures bounded < before <==> eligible && after < before && cap > 0
    ensures eligible && after < before ==> bounded >= after && (bounded == after || bounded == before - cap)
  {
    if eligible && after < before then before - Min(cap, before - after) else before
  }

  // It is the smallest rank, that is, the largest gain, within both bounds.
  lemma BoundedIsLeast(before: int, after: int, cap: nat, rank: int)
    requires after < before && rank >= after && rank >= before - cap
    ensures after <= BoundedRank(before, after, cap, true) <= rank && before - cap <= BoundedRank(before, after, cap, true)
    ensures BoundedRank(before, after, cap, false) == before
  {
  }

  // ---------------------------------------------------------------- positions after a sort

  // Rows whose keys respect the cap relative to `baseline`; a name outside it counts as rank `absent`.
  ghost predicate Capped(rows: seq<Row>, baseline: seq<Candidate>, absent: int, cap: nat) {
    && Distinct(Names(baseline))
    && Distinct(RowNames(rows))
    && (forall i :: 0 <= i < |baseline| ==> baseline[i].name in RowNames(rows))
    && (forall k :: 0 <= k < |rows| ==> rows[k].before - cap <= rows[k].bounded <= rows[k].before)
    && (forall k :: 0 <= k < |rows| && rows[k].candidate.name !in Names(baseline) ==> rows[k].before == absent)
    && (forall k, i :: 0 <= k < |rows| && 0 <= i < |baseline| && rows[k].candidate.name == baseline[i].name
          ==> rows[k].before == i + 1)
  }

  // Whatever sorts strictly before row k takes up a place above it.
  lemma AheadCount(rows: seq<Row>, k: nat, ahead: set<string>, collate: Collation)
    requires Collates(collate) && Sorted(rows, InOrder(collate)) && k < |rows|
    requires forall n :: n in ahead ==>
               exists j :: 0 <= j < |rows| && rows[j].candidate.name == n && Comparator(rows[k], rows[j], collate) > 0
    ensures |ahead| <= k
  {
    var above := Elements(RowNames(rows[..k]));
    forall j | k <= j < |rows|
      ensures Comparator(rows[k], rows[j], collate) <= 0
    {
      if k < j {
        assert InOrder(collate)(rows[k], rows[j]);
      }
    }
    forall n | n in ahead
      ensures n in above
    {
      var j :| 0 <= j < |rows| && rows[j].candidate.name == n && Comparator(rows[k], rows[j], collate) > 0;
      assert RowNames(rows[..k])[j] == n;
    }
    CardinalityMonotone(ahead, above);
    ElementsBound(RowNames(rows[..k]));
  }

  lemma {:induction false} ElementsBound<T>(s: seq<T>)
    ensures |Elements(s)| <= |s|
  {
    if s == [] {
      assert Elements(s) == {};
    } else {
      ElementsBound(s[1..]);
      assert Elements(s) == Elements(s[1..]) + {s[0]};
    }
  }

  lemma AboveCount(rows: seq<Row>, k: nat, candidates: set<string>)
    requires Distinct(RowNames(rows)) && k < |rows|
    requires forall j :: 0 <= j < k ==> rows[j].candidate.name in candidates
    ensures k <= |candidates|
  {
    var above := RowNames(rows[..k]);
    assert forall j :: 0 <= j < k ==> above[j] == RowNames(rows)[j];
    DistinctCardinality(above);
    CardinalityMonotone(Elements(above), candidates);
  }

  lemma PrefixNames(baseline: seq<Candidate>, m: nat)
    requires Distinct(Names(baseline)) && m <= |baseline|
    ensures |Elements(Names(baseline[..m]))| == m
  {
    assert forall i :: 0 <= i < m ==> Names(baseline[..m])[i] == Names(baseline)[i];
    DistinctCardinality(Names(baseline[..m]));
  }

  // The first m baseline names all sort above a row whose key exceeds m.
  lemma PrefixAhead(rows: seq<Row>, baseline: seq<Candidate>, absent: int, cap: nat, collate: Collation, k: nat, m: nat)
    requires Collates(collate) && Sorted(rows, InOrder(collate))
    requires Capped(rows, baseline, absent, cap) && k < |rows| && m <= |baseline|
    requires m < rows[k].bounded
    ensures m <= k
  {
    PrefixNames(baseline, m);
    var ahead := Elements(Names(baseline[..m]));
    forall n | n in ahead
      ensures exists j :: 0 <= j < |rows| && rows[j].candidate.name == n && Comparator(rows[k], rows[j], collate) > 0
    {
      var i :| 0 <= i < m && Names(baseline[..m])[i] == n;
      assert baseline[i].name == n && n in RowNames(rows);
      var j :| 0 <= j < |rows| && RowNames(rows)[j] == n;
      assert rows[j].before == i + 1;
      assert Comparator(rows[k], rows[j], collate) > 0;
    }
    AheadCount(rows, k, ahead, collate);
  }

  // A baseline candidate of rank r never rises above r - cap.
  lemma CappedFloor(rows: seq<Row>, baseline: seq<Candidate>, absent: int, cap: nat, collate: Collation, k: nat, r: nat)
    requires Collates(collate) && Sorted(rows, InOrder(collate)) && Capped(rows, baseline, absent, cap)
    requires k < |rows| && 1 <= r <= |baseline| && rows[k].candidate.name == baseline[r - 1].name
    ensures k + 1 >= r - cap
  {
    if r - cap - 1 >= 0 {
      PrefixAhead(rows, baseline, absent, cap, collate, k, r - cap - 1);
    }
  }

  // A newcomer lands below every baseline candidate that the cap protects from it.
  lemma CappedNewcomer(rows: seq<Row>, baseline: seq<Candidate>, absent: int, cap: nat, collate: Collation, k: nat)
    requires Collates(collate) && Sorted(rows, InOrder(collate)) && Capped(rows, baseline, absent, cap)
    requires k < |rows| && rows[k].candidate.name !in Names(baseline)
    ensures k + 1 >= Min(|baseline|, absent - 1 - cap) + 1
  {
    var m := Min(|baseline|, absent - 1 - cap);
    if m >= 0 {
      PrefixAhead(rows, baseline, absent, cap, collate, k, m);
    }
  }

  // A baseline candidate out of reach of the newcomers drops by fewer than cap places.
  lemma CappedCeiling(rows: seq<Row>, baseline: seq<Candidate>, absent: int, cap: nat, collate: Collation, k: nat, r: nat)
    requires Collates(collate) && Sorted(rows, InOrder(collate)) && Capped(rows, baseline, absent, cap)
    requires cap >= 1 && r + cap <= absent
    requires k < |rows| && 1 <= r <= |baseline| && rows[k].candidate.name == baseline[r - 1].name
    ensures k + 1 <= r + cap - 1
  {
    var m := Min(|baseline|, r + cap - 1);
    PrefixNames(baseline, m);
    var near := Elements(Names(baseline[..m]));
    var name := baseline[r - 1].name;
    assert Names(baseline[..m])[r - 1] == name;
    forall j | 0 <= j < k
      ensures rows[j].candidate.name in near - {name}
    {
      assert InOrder(collate)(rows[j], rows[k]);
      assert RowNames(rows)[j] != RowNames(rows)[k];
      var n := rows[j].candidate.name;
      assert n in Names(baseline);
      var i :| 0 <= i < |baseline| && Names(baseline)[i] == n;
      assert rows[j].before == i + 1;
      assert Names(baseline[..m])[i] == n;
    }
    AboveCount(rows, k, near - {name});
  }

  // ---------------------------------------------------------------- the protected V2 ranking

  function ProtectedRow(name: string, baseline: seq<Candidate>, enriched: seq<Candidate>, eligible: Candidate -> bool, cap: nat): (row: Row)
    requires name in Names(baseline + enriched)
    ensures row.candidate.name == name
  {
    var candidate := Latest(baseline + enriched, name);
    var base := RankIn(baseline, name);
    var feature := RankIn(enriched, name);
    var before := if base.Some? then base.value else UNRANKED;
    var after := if feature.Some? then feature.value else UNRANKED;
    Row(candidate, BoundedRank(before, after, cap, eligible(candidate)), before)
  }

  function ProtectedRows(baseline: seq<Candidate>, enriched: seq<Candidate>, eligible: Candidate -> bool, cap: nat): (rows: seq<Row>) {
    var names := FirstSeen(Names(baseline + enriched));
    seq(|names|, i requires 0 <= i < |names| =>
      assert names[i] in names;
      ProtectedRow(names[i], baseline, enriched, eligible, cap))
  }

  function TopCandidates(rows: seq<Row>, collate: Collation): seq<Candidate> {
    var sorted := Sort(rows, InOrder(collate));
    Map((row: Row) => row.candidate, sorted[..Min(CUT, |sorted|)])
  }

  // `exact` holds the operator tokens of the goal; without any, the baseline is returned as it is.
  function RankProtectedV2(baseline: seq<Candidate>, enriched: seq<Candidate>, exact: seq<string>,
                           eligible: Candidate -> bool, cap: nat, collate: Collation): seq<Candidate>
  {
    if exact == [] then baseline
    else TopCandidates(ProtectedRows(baseline, enriched, eligible, cap), collate)
  }

  lemma ProtectedRowsCapped(baseline: seq<Candidate>, enriched: seq<Candidate>, eligible: Candidate -> bool, cap: nat)
    requires Distinct(Names(baseline))
    ensures Capped(ProtectedRows(baseline, enriched, eligible, cap), baseline, UNRANKED, cap)
  {
    var rows := ProtectedRows(baseline, enriched, eligible, cap);
    var names := FirstSeen(Names(baseline + enriched));
    FirstSeenDistinct(Names(baseline + enriched));
    assert RowNames(rows) == names;
    forall i | 0 <= i < |baseline|
      ensures baseline[i].name in RowNames(rows)
    {
      assert Names(baseline + enriched)[i] == baseline[i].name;
    }
    forall k | 0 <= k < |rows|
      ensures rows[k].candidate.name !in Names(baseline) ==> rows[k].before == UNRANKED
      ensures forall i :: 0 <= i < |baseline| && rows[k].candidate.name == baseline[i].name ==> rows[k].before == i + 1
    {
      RankInDistinct(baseline, names[k]);
    }
  }

  // Sorting keeps the rows, so the cap still describes them.
  lemma CappedSort(rows: seq<Row>, baseline: seq<Candidate>, absent: int, cap: nat, collate: Collation)
    requires Collates(collate) && Capped(rows, baseline, absent, cap)
    ensures Sorted(Sort(rows, InOrder(collate)), InOrder(collate))
    ensures Capped(Sort(rows, InOrder(collate)), baseline, absent, cap)
  {
    var sorted := Sort(rows, InOrder(collate));
    InOrderIsTotal(collate);
    SortSorted(rows, InOrder(collate));
    SortMembers(rows, InOrder(collate));
    SortedNames(rows, sorted);
    forall i | 0 <= i < |baseline|
      ensures baseline[i].name in RowNames(sorted)
    {
      var k :| 0 <= k < |rows| && RowNames(rows)[k] == baseline[i].name;
      assert rows[k] in sorted;
      var j :| 0 <= j < |sorted| && sorted[j] == rows[k];
      assert RowNames(sorted)[j] == baseline[i].name;
    }
    forall j | 0 <= j < |sorted|
      ensures exists k :: 0 <= k < |rows| && rows[k] == sorted[j]
    {
      assert sorted[j] in rows;
    }
  }

  // Rows are told apart by name, before and after the sort.
  lemma SortedNames(rows: seq<Row>, sorted: seq<Row>)
    requires multiset(sorted) == multiset(rows) && Distinct(RowNames(rows))
    ensures Distinct(RowNames(sorted))
  {
    assert Distinct(rows) by {
      forall i, j | 0 <= i < j < |rows|
        ensures rows[i] != rows[j]
      {
        assert RowNames(rows)[i] != RowNames(rows)[j];
      }
    }
    PermutationDistinct(rows, sorted);
    forall i, j | 0 <= i < j < |sorted|
      ensures RowNames(sorted)[i] != RowNames(sorted)[j]
    {
      assert sorted[i] in multiset(rows) && sorted[j] in multiset(rows);
      var a :| 0 <= a < |rows| && rows[a] == sorted[i];
      var b :| 0 <= b < |rows| && rows[b] == sorted[j];
      assert RowNames(rows)[a] != RowNames(rows)[b];
    }
  }

  // The ranking lists the candidates of the first CUT sorted rows, whose keys respect the cap.
  ghost predicate CutFrom(ranking: seq<Candidate>, sorted: seq<Row>, baseline: seq<Candidate>, cap: nat, collate: Collation) {
    && Sorted(sorted, InOrder(collate)) && Capped(sorted, baseline, UNRANKED, cap)
    && |ranking| == Min(CUT, |sorted|) && forall k :: 0 <= k < |ranking| ==> ranking[k] == sorted[k].candidate
  }

  lemma ProtectedSetup(baseline: seq<Candidate>, enriched: seq<Candidate>, exact: seq<string>, eligible: Candidate -> bool,
                       cap: nat, collate: Collation) returns (sorted: seq<Row>)
    requires Collates(collate) && Distinct(Names(baseline)) && exact != []
    ensures CutFrom(RankProtectedV2(baseline, enriched, exact, eligible, cap, collate), sorted, baseline, cap, collate)
  {
    ProtectedRowsCapped(baseline, enriched, eligible, cap);
    CappedSort(ProtectedRows(baseline, enriched, eligible, cap), baseline, UNRANKED, cap, collate);
    sorted := Sort(ProtectedRows(baseline, enriched, eligible, cap), InOrder(collate));
  }

  lemma CutFloor(ranking: seq<Candidate>, sorted: seq<Row>, baseline: seq<Candidate>, cap: nat, collate: Collation, r: nat, p: nat)
    requires Collates(collate) && CutFrom(ranking, sorted, baseline, cap, collate)
    requires 1 <= r <= |baseline| && 1 <= p <= |ranking| && ranking[p - 1].name == baseline[r - 1].name
    ensures p >= r - cap
  {
    CappedFloor(sorted, baseline, UNRANKED, cap, collate, p - 1, r);
  }

  lemma CutSurvivor(ranking: seq<Candidate>, sorted: seq<Row>, baseline: seq<Candidate>, cap: nat, collate: Collation, r: nat) returns (p: nat)
    requires Collates(collate) && CutFrom(ranking, sorted, baseline, cap, collate)
    requires 1 <= r <= |baseline| && cap >= 1 && r + cap <= UNRANKED
    ensures 1 <= p <= |ranking| && ranking[p - 1].name == baseline[r - 1].name && p <= r + cap - 1
  {
    var k :| 0 <= k < |sorted| && RowNames(sorted)[k] == baseline[r - 1].name;
    CappedCeiling(sorted, baseline, UNRANKED, cap, collate, k, r);
    p := k + 1;
  }

  lemma CutNewcomer(ranking: seq<Candidate>, sorted: seq<Row>, baseline: seq<Candidate>, cap: nat, collate: Collation, p: nat)
    requires Collates(collate) && CutFrom(ranking, sorted, baseline, cap, collate)
    requires 1 <= p <= |ranking| && ranking[p - 1].name !in Names(baseline)
    ensures p >= Min(|baseline|, CUT - cap) + 1
  {
    CappedNewcomer(sorted, baseline, UNRANKED, cap, collate, p - 1);
  }

  // A baseline candidate of rank r ends no higher than place r - cap.
  lemma BaselineEndsNoHigher(baseline: seq<Candidate>, enriched: seq<Candidate>, exact: seq<string>, eligible: Candidate -> bool,
                             cap: nat, collate: Collation, r: nat, p: nat)
    requires Collates(collate) && Distinct(Names(baseline))
    requires 1 <= r <= |baseline|
    requires 1 <= p <= |RankProtectedV2(baseline, enriched, exact, eligible, cap, collate)|
    requires RankProtectedV2(baseline, enriched, exact, eligible, cap, collate)[p - 1].name == baseline[r - 1].name
    ensures p >= r - cap
  {
    if exact == [] {
      assert Names(baseline)[p - 1] == Names(baseline)[r - 1];
    } else {
      var sorted := ProtectedSetup(baseline, enriched, exact, eligible, cap, collate);
      CutFloor(RankProtectedV2(baseline, enriched, exact, eligible, cap, collate), sorted, baseline, cap, collate, r, p);
    }
  }

  // A baseline candidate out of the newcomers' reach survives the cut, fewer than cap places down.
  lemma BaselineSurvives(baseline: seq<Candidate>, enriched: seq<Candidate>, exact: seq<string>, eligible: Candidate -> bool,
                         cap: nat, collate: Collation, r: nat) returns (p: nat)
    requires Collates(collate) && Distinct(Names(baseline))
    requires 1 <= r <= |baseline| && cap >= 1 && r + cap <= UNRANKED
    ensures 1 <= p <= |RankProtectedV2(baseline, enriched, exact, eligible, cap, collate)|
    ensures RankProtectedV2(baseline, enriched, exact, eligible, cap, collate)[p - 1].name == baseline[r - 1].name
    ensures p <= r + cap - 1
  {
    if exact == [] {
      p := r;
    } else {
      var sorted := ProtectedSetup(baseline, enriched, exact, eligible, cap, collate);
      p := CutSurvivor(RankProtectedV2(baseline, enriched, exact, eligible, cap, collate), sorted, baseline, cap, collate, r);
    }
  }

  // A candidate absent from the baseline never lands above place min(n, 200 - cap) + 1.
  lemma NewcomerEndsBelow(baseline: seq<Candidate>, enriched: seq<Candidate>, exact: seq<string>, eligible: Candidate -> bool,
                          cap: nat, collate: Collation, p: nat)
    requires Collates(collate) && Distinct(Names(baseline))
    requires 1 <= p <= |RankProtectedV2(baseline, enriched, exact, eligible, cap, collate)|
    requires forall i :: 0 <= i < |baseline| ==>
               baseline[i].name != RankProtectedV2(baseline, enriched, exact, eligible, cap, collate)[p - 1].name
    ensures p >= Min(|baseline|, CUT - cap) + 1
  {
    assert forall i :: 0 <= i < |baseline| ==> Names(baseline)[i] in Names(baseline);
    if exact != [] {
      var sorted := ProtectedSetup(baseline, enriched, exact, eligible, cap, collate);
      CutNewcomer(RankProtectedV2(baseline, enriched, exact, eligible, cap, collate), sorted, baseline, cap, collate, p);
    }
  }

  // ---------------------------------------------------------------- the whole ranking

  // The rank in the baseline or the enriched list, 201 for a name the list does not hold.
  function RankOr201(list: seq<Candidate>, name: string): int {
    match RankIn(list, name) case Some(rank) => rank case None => 201
  }

  // The rank a candidate is sorted by: what it had, or the better of what the enrichment gives and cap allows.
  function Goal(baseline: seq<Candidate>, enriched: seq<Candidate>, eligible: Candidate -> bool, cap: nat, c: Candidate): int {
    var before, after := RankOr201(baseline, c.name), RankOr201(enriched, c.name);
    if !eligible(c) || after >= before then before
    else if after >= before - cap then after
    else before - cap
  }

  // x need not stand behind y.
  ghost predicate MayPrecede(baseline: seq<Candidate>, enriched: seq<Candidate>, eligible: Candidate -> bool, cap: nat, collate: Collation,
                             x: Candidate, y: Candidate) {
    var gx, gy := Goal(baseline, enriched, eligible, cap, x), Goal(baseline, enriched, eligible, cap, y);
    var rx, ry := RankOr201(baseline, x.name), RankOr201(baseline, y.name);
    gx < gy || (gx == gy && (rx < ry || (rx == ry && collate(x.name, y.name) <= 0)))
  }

  // One row for each name of the two lists, with its last candidate, its baseline rank and its goal.
  ghost predicate AllRows(rows: seq<Row>, baseline: seq<Candidate>, enriched: seq<Candidate>, eligible: Candidate -> bool, cap: nat) {
    && Distinct(RowNames(rows))
    && (forall name :: name in Names(baseline + enriched) <==> name in RowNames(rows))
    && forall k :: 0 <= k < |rows| ==> RowFits(rows[k], baseline, enriched, eligible, cap)
  }

  ghost predicate RowFits(row: Row, baseline: seq<Candidate>, enriched: seq<Candidate>, eligible: Candidate -> bool, cap: nat) {
    && row.candidate.name in Names(baseline + enriched) && row.candidate == Latest(baseline + enriched, row.candidate.name)
    && row.before == RankOr201(baseline, row.candidate.name)
    && row.bounded == Goal(baseline, enriched, eligible, cap, row.candidate)
  }

  lemma RowOfName(baseline: seq<Candidate>, enriched: seq<Candidate>, eligible: Candidate -> bool, cap: nat, name: string)
    requires name in Names(baseline + enriched)
    ensures RowFits(ProtectedRow(name, baseline, enriched, eligible, cap), baseline, enriched, eligible, cap)
  {
  }

  lemma ProtectedRowsAll(baseline: seq<Candidate>, enriched: seq<Candidate>, eligible: Candidate -> bool, cap: nat)
    ensures AllRows(ProtectedRows(baseline, enriched, eligible, cap), baseline, enriched, eligible, cap)
  {
    var names := FirstSeen(Names(baseline + enriched));
    var rows := ProtectedRows(baseline, enriched, eligible, cap);
    FirstSeenDistinct(Names(baseline + enriched));
    assert RowNames(rows) == names;
    forall k | 0 <= k < |rows|
      ensures RowFits(rows[k], baseline, enriched, eligible, cap)
    {
      assert names[k] in names;
      RowOfName(baseline, enriched, eligible, cap, names[k]);
    }
  }

  lemma AllRowsSorted(rows: seq<Row>, sorted: seq<Row>, baseline: seq<Candidate>, enriched: seq<Candidate>, eligible: Candidate -> bool, cap: nat)
    requires AllRows(rows, baseline, enriched, eligible, cap) && multiset(sorted) == multiset(rows)
    ensures AllRows(sorted, baseline, enriched, eligible, cap) && |sorted| == |rows|
  {
    SortedNames(rows, sorted);
    assert |multiset(sorted)| == |multiset(rows)|;
    forall k | 0 <= k < |sorted|
      ensures RowFits(sorted[k], baseline, enriched, eligible, cap)
    {
      assert sorted[k] in multiset(rows);
    }
    forall name | name in Names(baseline + enriched)
      ensures name in RowNames(sorted)
    {
      var i :| 0 <= i < |rows| && RowNames(rows)[i] == name;
      assert rows[i] in multiset(sorted);
      var k :| 0 <= k < |sorted| && sorted[k] == rows[i];
      assert RowNames(sorted)[k] == name;
    }
    forall name | name in RowNames(sorted)
      ensures name in Names(baseline + enriched)
    {
      var k :| 0 <= k < |sorted| && RowNames(sorted)[k] == name;
      assert RowFits(sorted[k], baseline, enriched, eligible, cap);
    }
  }

  // The rows in their final order.
  ghost predicate FinalRows(sorted: seq<Row>, baseline: seq<Candidate>, enriched: seq<Candidate>, eligible: Candidate -> bool, cap: nat,
                            collate: Collation) {
    AllRows(sorted, baseline, enriched, eligible, cap) && Sorted(sorted, InOrder(collate))
  }

  lemma FinalSetup(baseline: seq<Candidate>, enriched: seq<Candidate>, eligible: Candidate -> bool, cap: nat, collate: Collation)
    requires Collates(collate)
    ensures FinalRows(Sort(ProtectedRows(baseline, enriched, eligible, cap), InOrder(collate)), baseline, enriched, eligible, cap, collate)
  {
    var rows := ProtectedRows(baseline, enriched, eligible, cap);
    InOrderIsTotal(collate);
    SortSorted(rows, InOrder(collate));
    ProtectedRowsAll(baseline, enriched, eligible, cap);
    AllRowsSorted(rows, Sort(rows, InOrder(collate)), baseline, enriched, eligible, cap);
  }

  lemma RowsMayPrecede(sorted: seq<Row>, baseline: seq<Candidate>, enriched: seq<Candidate>, eligible: Candidate -> bool, cap: nat,
                       collate: Collation, i: nat, j: nat)
    requires FinalRows(sorted, baseline, enriched, eligible, cap, collate) && i < j < |sorted|
    ensures MayPrecede(baseline, enriched, eligible, cap, collate, sorted[i].candidate, sorted[j].candidate)
  {
    assert InOrder(collate)(sorted[i], sorted[j]);
    assert RowFits(sorted[i], baseline, enriched, eligible, cap) && RowFits(sorted[j], baseline, enriched, eligible, cap);
  }

  // The candidates of the first 200 rows.
  ghost predicate TopOf(ranking: seq<Candidate>, sorted: seq<Row>) {
    |ranking| == Min(200, |sorted|) && forall k :: 0 <= k < |ranking| ==> ranking[k] == sorted[k].candidate
  }

  lemma TopIsTop(rows: seq<Row>, collate: Collation)
    ensures TopOf(TopCandidates(rows, collate), Sort(rows, InOrder(collate)))
  {
  }

  // The ranking holds each name once, with its last candidate, in the order of the goals; it has 200 places, and a
  // name is left out only behind 200 others.
  ghost predicate Ranked(ranking: seq<Candidate>, baseline: seq<Candidate>, enriched: seq<Candidate>, eligible: Candidate -> bool, cap: nat,
                         collate: Collation) {
    var all := baseline + enriched;
    && Distinct(Names(ranking)) && |ranking| == Min(200, |Elements(Names(all))|)
    && (forall k :: 0 <= k < |ranking| ==> ranking[k].name in Names(all) && ranking[k] == Latest(all, ranking[k].name))
    && (forall p, q :: 0 <= p < q < |ranking| ==> MayPrecede(baseline, enriched, eligible, cap, collate, ranking[p], ranking[q]))
    && (forall name, p :: name in Names(all) && name !in Names(ranking) && 0 <= p < |ranking| ==>
          MayPrecede(baseline, enriched, eligible, cap, collate, ranking[p], Latest(all, name)))
  }

  lemma TopRanked(ranking: seq<Candidate>, sorted: seq<Row>, baseline: seq<Candidate>, enriched: seq<Candidate>, eligible: Candidate -> bool,
                  cap: nat, collate: Collation)
    requires TopOf(ranking, sorted) && FinalRows(sorted, baseline, enriched, eligible, cap, collate)
    ensures Ranked(ranking, baseline, enriched, eligible, cap, collate)
  {
    var all := baseline + enriched;
    DistinctCardinality(RowNames(sorted));
    assert Elements(RowNames(sorted)) == Elements(Names(all));
    assert forall k :: 0 <= k < |ranking| ==> Names(ranking)[k] == RowNames(sorted)[k];
    assert forall k :: 0 <= k < |ranking| ==> RowFits(sorted[k], baseline, enriched, eligible, cap);
    forall p, q | 0 <= p < q < |ranking|
      ensures MayPrecede(baseline, enriched, eligible, cap, collate, ranking[p], ranking[q])
    {
      RowsMayPrecede(sorted, baseline, enriched, eligible, cap, collate, p, q);
    }
    forall name, p | name in Names(all) && name !in Names(ranking) && 0 <= p < |ranking|
      ensures MayPrecede(baseline, enriched, eligible, cap, collate, ranking[p], Latest(all, name))
    {
      var k :| 0 <= k < |sorted| && RowNames(sorted)[k] == name;
      assert k >= |ranking|;
      assert RowFits(sorted[k], baseline, enriched, eligible, cap);
      RowsMayPrecede(sorted, baseline, enriched, eligible, cap, collate, p, k);
    }
  }

  // Without an operator token the baseline stays.
  lemma RankingExactly(baseline: seq<Candidate>, enriched: seq<Candidate>, exact: seq<string>, eligible: Candidate -> bool,
                       cap: nat, collate: Collation)
    requires Collates(collate)
    ensures var ranking := RankProtectedV2(baseline, enriched, exact, eligible, cap, collate);
            if exact == [] then ranking == baseline else Ranked(ranking, baseline, enriched, eligible, cap, collate)
  {
    if exact != [] {
      var rows := ProtectedRows(baseline, enriched, eligible, cap);
      FinalSetup(baseline, enriched, eligible, cap, collate);
      TopIsTop(rows, collate);
      TopRanked(TopCandidates(rows, collate), Sort(rows, InOrder(collate)), baseline, enriched, eligible, cap, collate);
    }
  }

  // A row that alone has moved up stands directly behind the baseline candidates up to its new rank.
  lemma LoneRow(rows: seq<Row>, baseline: seq<Candidate>, absent: int, cap: nat, collate: Collation, k: nat, r: nat, goal: nat)
    requires Collates(collate) && Sorted(rows, InOrder(collate)) && Capped(rows, baseline, absent, cap)
    requires k < |rows| && 1 <= r <= |baseline| && rows[k].candidate.name == baseline[r - 1].name
    requires rows[k].bounded == goal < r && goal < absent
    requires forall j :: 0 <= j < |rows| && j != k ==> rows[j].bounded == rows[j].before
    ensures k == goal
  {
    PrefixNames(baseline, goal);
    var near := Elements(Names(baseline[..goal]));
    forall n | n in near
      ensures exists j :: 0 <= j < |rows| && rows[j].candidate.name == n && Comparator(rows[k], rows[j], collate) > 0
    {
      var i :| 0 <= i < goal && Names(baseline[..goal])[i] == n;
      assert baseline[i].name == n && n in RowNames(rows);
      var j :| 0 <= j < |rows| && RowNames(rows)[j] == n;
      assert rows[j].before == i + 1;
      assert Comparator(rows[k], rows[j], collate) > 0;
    }
    AheadCount(rows, k, near, collate);
    forall j | 0 <= j < k
      ensures rows[j].candidate.name in near
    {
      assert InOrder(collate)(rows[j], rows[k]);
      var n := rows[j].candidate.name;
      assert n in Names(baseline);
      var i :| 0 <= i < |baseline| && Names(baseline)[i] == n;
      assert rows[j].before == i + 1;
      assert Names(baseline[..goal])[i] == n;
    }
    AboveCount(rows, k, near);
  }

  lemma LoneFinal(sorted: seq<Row>, baseline: seq<Candidate>, enriched: seq<Candidate>, eligible: Candidate -> bool, cap: nat,
                  collate: Collation, r: nat, a: nat, goal: nat)
    requires Collates(collate) && cap >= 1 && Capped(sorted, baseline, UNRANKED, cap)
    requires FinalRows(sorted, baseline, enriched, eligible, cap, collate)
    requires 1 <= r <= |baseline| && RankIn(enriched, baseline[r - 1].name) == Some(a) && a < r
    requires forall c :: c in baseline + enriched ==> (eligible(c) <==> c.name == baseline[r - 1].name)
    requires goal == (if a >= r - cap then a else r - cap) && goal < CUT
    ensures goal < |sorted| && sorted[goal].candidate.name == baseline[r - 1].name
  {
    var name := baseline[r - 1].name;
    RankInDistinct(baseline, name);
    assert name in RowNames(sorted);
    var k :| 0 <= k < |sorted| && RowNames(sorted)[k] == name;
    assert RowFits(sorted[k], baseline, enriched, eligible, cap);
    forall j | 0 <= j < |sorted| && j != k
      ensures sorted[j].bounded == sorted[j].before
    {
      assert RowNames(sorted)[j] != RowNames(sorted)[k];
      assert RowFits(sorted[j], baseline, enriched, eligible, cap);
    }
    LoneRow(sorted, baseline, UNRANKED, cap, collate, k, r, goal);
  }

  // The only eligible candidate, of baseline rank r and enriched rank a before it, ends at place max(a, r - cap) + 1.
  lemma LoneRiser(baseline: seq<Candidate>, enriched: seq<Candidate>, exact: seq<string>, eligible: Candidate -> bool,
                  cap: nat, collate: Collation, r: nat, a: nat, goal: nat)
    requires Collates(collate) && Distinct(Names(baseline)) && exact != [] && cap >= 1
    requires 1 <= r <= |baseline| && RankIn(enriched, baseline[r - 1].name) == Some(a) && a < r
    requires forall c :: c in baseline + enriched ==> (eligible(c) <==> c.name == baseline[r - 1].name)
    requires goal == (if a >= r - cap then a else r - cap) && goal < 200
    ensures var ranking := RankProtectedV2(baseline, enriched, exact, eligible, cap, collate);
            goal < |ranking| && ranking[goal].name == baseline[r - 1].name
  {
    var rows := ProtectedRows(baseline, enriched, eligible, cap);
    ProtectedRowsCapped(baseline, enriched, eligible, cap);
    CappedSort(rows, baseline, UNRANKED, cap, collate);
    FinalSetup(baseline, enriched, eligible, cap, collate);
    TopIsTop(rows, collate);
    LoneFinal(Sort(rows, InOrder(collate)), baseline, enriched, eligible, cap, collate, r, a, goal);
  }
}
