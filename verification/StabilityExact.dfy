// The stability ranking in full, and its report.
module StabilityExact {
  import opened Sequences
  import opened Sorting
  import opened RankCap
  import opened Displacement

  // ---------------------------------------------------------------- the ranking

  // The rank in a list, one behind its end for a name it does not hold.
  function RankOrBehind(list: seq<Candidate>, name: string): int {
    match RankIn(list, name) case Some(rank) => rank case None => |list| + 1
  }

  // The baseline's candidate of a name, or else the enriched list's; in each list the last one counts.
  function CandidateOf(baseline: seq<Candidate>, enriched: seq<Candidate>, name: string): Candidate
    requires name in Names(baseline) || name in Names(enriched)
  {
    if name in Names(baseline) then Latest(baseline, name) else Latest(enriched, name)
  }

  // A candidate outside the baseline takes part only if it is eligible and gains at least one place.
  predicate TakesPart(baseline: seq<Candidate>, enriched: seq<Candidate>, eligible: Candidate -> bool, cap: nat, name: string) {
    || name in Names(baseline)
    || (name in Names(enriched) && eligible(CandidateOf(baseline, enriched, name)) && cap > 0
        && RankOrBehind(enriched, name) < RankOrBehind(baseline, name))
  }

  // What the enrichment gives, as far as the cap allows, to an eligible candidate.
  function Target(baseline: seq<Candidate>, enriched: seq<Candidate>, eligible: Candidate -> bool, cap: nat, c: Candidate): int {
    var before, after := RankOrBehind(baseline, c.name), RankOrBehind(enriched, c.name);
    if !eligible(c) || after >= before then before
    else if after >= before - cap then after
    else before - cap
  }

  ghost predicate Fits(row: Row, baseline: seq<Candidate>, enriched: seq<Candidate>, eligible: Candidate -> bool, cap: nat) {
    && (row.candidate.name in Names(baseline) || row.candidate.name in Names(enriched))
    && row.candidate == CandidateOf(baseline, enriched, row.candidate.name)
    && row.before == RankOrBehind(baseline, row.candidate.name)
    && row.bounded == Target(baseline, enriched, eligible, cap, row.candidate)
  }

  // One row for each name that takes part.
  ghost predicate Participants(rows: seq<Row>, baseline: seq<Candidate>, enriched: seq<Candidate>, eligible: Candidate -> bool, cap: nat) {
    && Distinct(RowNames(rows))
    && (forall name :: TakesPart(baseline, enriched, eligible, cap, name) <==> name in RowNames(rows))
    && forall k :: 0 <= k < |rows| ==> Fits(rows[k], baseline, enriched, eligible, cap)
  }

  lemma RowExactly(name: string, baseline: seq<Candidate>, enriched: seq<Candidate>, eligible: Candidate -> bool, cap: nat)
    requires name in Names(baseline) || name in Names(enriched)
    ensures var row := StabilityRow(name, baseline, enriched, eligible, cap);
            && (row.Some? <==> TakesPart(baseline, enriched, eligible, cap, name))
            && (row.Some? ==> Fits(row.value, baseline, enriched, eligible, cap))
  {
    UnrankedExactly(baseline, name);
    UnrankedExactly(enriched, name);
  }

  lemma {:induction false} NoneMissing(names: seq<string>, baseline: seq<Candidate>, enriched: seq<Candidate>, eligible: Candidate -> bool, cap: nat)
    requires forall n :: n in names ==> n in Names(baseline) || n in Names(enriched)
    ensures forall n :: n in names && StabilityRow(n, baseline, enriched, eligible, cap).Some? ==>
              n in RowNames(StabilityRows(names, baseline, enriched, eligible, cap))
  {
    if names != [] {
      assert names[0] in names;
      NoneMissing(names[1..], baseline, enriched, eligible, cap);
      var rest := StabilityRows(names[1..], baseline, enriched, eligible, cap);
      var row := StabilityRow(names[0], baseline, enriched, eligible, cap);
      if row.Some? {
        assert RowNames([row.value] + rest) == [names[0]] + RowNames(rest);
      }
    }
  }

  lemma ParticipantsOf(baseline: seq<Candidate>, enriched: seq<Candidate>, eligible: Candidate -> bool, cap: nat)
    ensures Participants(StabilityRows(CandidateNames(baseline, enriched), baseline, enriched, eligible, cap), baseline, enriched, eligible, cap)
  {
    var names := CandidateNames(baseline, enriched);
    var rows := StabilityRows(names, baseline, enriched, eligible, cap);
    FirstSeenDistinct(Names(baseline) + Names(enriched));
    StabilityRowsKept(names, baseline, enriched, eligible, cap);
    NoneMissing(names, baseline, enriched, eligible, cap);
    forall k | 0 <= k < |rows|
      ensures Fits(rows[k], baseline, enriched, eligible, cap) && TakesPart(baseline, enriched, eligible, cap, rows[k].candidate.name)
    {
      RowExactly(rows[k].candidate.name, baseline, enriched, eligible, cap);
    }
    forall name
      ensures TakesPart(baseline, enriched, eligible, cap, name) <==> name in RowNames(rows)
    {
      if TakesPart(baseline, enriched, eligible, cap, name) {
        RowExactly(name, baseline, enriched, eligible, cap);
      }
      if name in RowNames(rows) {
        var k :| 0 <= k < |rows| && RowNames(rows)[k] == name;
      }
    }
  }

  lemma ParticipantsSorted(rows: seq<Row>, sorted: seq<Row>, baseline: seq<Candidate>, enriched: seq<Candidate>, eligible: Candidate -> bool, cap: nat)
    requires Participants(rows, baseline, enriched, eligible, cap) && multiset(sorted) == multiset(rows)
    ensures Participants(sorted, baseline, enriched, eligible, cap)
  {
    SortedNames(rows, sorted);
    forall k | 0 <= k < |sorted|
      ensures Fits(sorted[k], baseline, enriched, eligible, cap) && sorted[k].candidate.name in RowNames(rows)
    {
      assert sorted[k] in multiset(rows);
      var i :| 0 <= i < |rows| && rows[i] == sorted[k];
      assert RowNames(rows)[i] == sorted[k].candidate.name;
    }
    forall name
      ensures name in RowNames(rows) <==> name in RowNames(sorted)
    {
      if name in RowNames(rows) {
        var i :| 0 <= i < |rows| && RowNames(rows)[i] == name;
        assert rows[i] in multiset(sorted);
        var k :| 0 <= k < |sorted| && sorted[k] == rows[i];
        assert RowNames(sorted)[k] == name;
      }
      if name in RowNames(sorted) {
        var k :| 0 <= k < |sorted| && RowNames(sorted)[k] == name;
      }
    }
  }

  // x need not stand behind y: by target, then by baseline rank, then by name.
  ghost predicate NotBehind(baseline: seq<Candidate>, enriched: seq<Candidate>, eligible: Candidate -> bool, cap: nat, collate: Collation,
                            x: Candidate, y: Candidate) {
    var tx, ty := Target(baseline, enriched, eligible, cap, x), Target(baseline, enriched, eligible, cap, y);
    var rx, ry := RankOrBehind(baseline, x.name), RankOrBehind(baseline, y.name);
    tx < ty || (tx == ty && (rx < ry || (rx == ry && collate(x.name, y.name) <= 0)))
  }

  // The ranking lists the candidates that take part in this order, each once, down to place 200.
  ghost predicate Ranking(ranking: seq<Candidate>, baseline: seq<Candidate>, enriched: seq<Candidate>, eligible: Candidate -> bool, cap: nat,
                          collate: Collation) {
    && |ranking| <= 200 && Distinct(Names(ranking))
    && (forall k :: 0 <= k < |ranking| ==>
          TakesPart(baseline, enriched, eligible, cap, ranking[k].name) && ranking[k] == CandidateOf(baseline, enriched, ranking[k].name))
    && (forall p, q :: 0 <= p < q < |ranking| ==> NotBehind(baseline, enriched, eligible, cap, collate, ranking[p], ranking[q]))
    && (forall name :: TakesPart(baseline, enriched, eligible, cap, name) && name !in Names(ranking) ==>
          |ranking| == 200 && forall p :: 0 <= p < |ranking| ==>
            NotBehind(baseline, enriched, eligible, cap, collate, ranking[p], CandidateOf(baseline, enriched, name)))
  }

  lemma TopRanking(ranking: seq<Candidate>, sorted: seq<Row>, baseline: seq<Candidate>, enriched: seq<Candidate>, eligible: Candidate -> bool,
                   cap: nat, collate: Collation)
    requires TopOf(ranking, sorted) && Participants(sorted, baseline, enriched, eligible, cap) && Sorted(sorted, InOrder(collate))
    ensures Ranking(ranking, baseline, enriched, eligible, cap, collate)
  {
    forall p, q | 0 <= p < q < |sorted|
      ensures NotBehind(baseline, enriched, eligible, cap, collate, sorted[p].candidate, sorted[q].candidate)
    {
      assert InOrder(collate)(sorted[p], sorted[q]);
      assert Fits(sorted[p], baseline, enriched, eligible, cap) && Fits(sorted[q], baseline, enriched, eligible, cap);
    }
    assert forall k :: 0 <= k < |ranking| ==> Names(ranking)[k] == RowNames(sorted)[k];
    forall k | 0 <= k < |ranking|
      ensures TakesPart(baseline, enriched, eligible, cap, ranking[k].name) && ranking[k] == CandidateOf(baseline, enriched, ranking[k].name)
    {
      assert Fits(sorted[k], baseline, enriched, eligible, cap) && RowNames(sorted)[k] in RowNames(sorted);
    }
    forall name | TakesPart(baseline, enriched, eligible, cap, name) && name !in Names(ranking)
      ensures |ranking| == 200 && forall p :: 0 <= p < |ranking| ==>
                NotBehind(baseline, enriched, eligible, cap, collate, ranking[p], CandidateOf(baseline, enriched, name))
    {
      var k :| 0 <= k < |sorted| && RowNames(sorted)[k] == name;
      assert k >= |ranking|;
      assert Fits(sorted[k], baseline, enriched, eligible, cap);
    }
  }

  lemma StabilityExactly(baseline: seq<Candidate>, enriched: seq<Candidate>, eligible: Candidate -> bool, cap: nat, collate: Collation)
    requires Collates(collate)
    ensures Ranking(StabilityRanking(baseline, enriched, eligible, cap, collate), baseline, enriched, eligible, cap, collate)
  {
    var rows := StabilityRows(CandidateNames(baseline, enriched), baseline, enriched, eligible, cap);
    InOrderIsTotal(collate);
    SortSorted(rows, InOrder(collate));
    ParticipantsOf(baseline, enriched, eligible, cap);
    ParticipantsSorted(rows, Sort(rows, InOrder(collate)), baseline, enriched, eligible, cap);
    TopIsTop(rows, collate);
    TopRanking(TopCandidates(rows, collate), Sort(rows, InOrder(collate)), baseline, enriched, eligible, cap, collate);
  }

  // ---------------------------------------------------------------- the report

  // The mean distance times their number is their sum.
  lemma MeanExactly(movements: seq<nat>, mean: real, sum: real, n: real)
    requires mean == Mean(movements) && movements != [] && sum == Total(movements) as real && n == |movements| as real
    ensures mean * n == sum
  {
    MeanIsQuotient(movements);
    TimesBack(mean, sum, n);
  }

  lemma MeanIsQuotient(movements: seq<nat>)
    requires movements != []
    ensures |movements| as real > 0.0 && Mean(movements) == Total(movements) as real / |movements| as real
  {
  }

  lemma TimesBack(quotient: real, x: real, n: real)
    requires n > 0.0 && quotient == x / n
    ensures quotient * n == x
  {
  }

  // The reported percentile has 95 of 100 distances before it in order, and the maximum is the largest distance.
  lemma DistancesExactly(movements: seq<nat>, index: nat)
    requires index == |movements| * 95 / 100
    ensures var d := DistancesOf(movements);
            if movements == [] then d == Distances(0.0, 0, 0)
            else OfRank(movements, d.p95, AtMost(), index) && d.max in movements && forall v :: v in movements ==> v <= d.max
  {
    if movements != [] {
      assert index < |movements|;
      PlaceIsRank(movements, AtMost(), index);
      assert movements[0] in movements;
    }
  }

  // A name is gold when some expected name is the same in lower case, and then it enters no promotion bucket.
  lemma GoldExactly(expected: seq<string>, name: string, lower: string -> string, move: int)
    ensures IsGold(expected, name, lower) <==> lower(name) in Map(lower, expected)
    ensures !(InBucket(Promoted1To19, IsGold(expected, name, lower), move) && lower(name) in Map(lower, expected))
  {
    var lowered := Map(lower, expected);
    if lower(name) in lowered {
      var i :| 0 <= i < |lowered| && lowered[i] == lower(name);
      assert expected[i] in expected;
    }
    if IsGold(expected, name, lower) {
      var e :| e in expected && lower(e) == lower(name);
      var i :| 0 <= i < |expected| && expected[i] == e;
      assert lowered[i] == lower(name);
    }
  }
}
