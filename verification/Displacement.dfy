// The stability study: its capped ranking, the displacement report computed from it, and how the
// cap limits what that report can ever show. The report is a pair of nested loops over counters, proved
// against the number of (fixture, name) pairs in each bucket; the ranking reuses the rank cap.
module Displacement {
  import opened Sequences
  import opened Sorting
  import opened RankCap
  import opened Quotients

  // ---------------------------------------------------------------- the ranking inside evaluateConfig

  // None when the candidate is dropped: it is not in the baseline and gained nothing.
  function StabilityRow(name: string, baseline: seq<Candidate>, enriched: seq<Candidate>, eligible: Candidate -> bool, cap: nat): (row: Option<Row>)
    requires name in Names(baseline) || name in Names(enriched)
    ensures row.Some? ==> row.value.candidate.name == name
    ensures name in Names(baseline) ==> row.Some?
  {
    var candidate := if name in Names(baseline) then Latest(baseline, name) else Latest(enriched, name);
    var base := RankIn(baseline, name);
    var semantic := RankIn(enriched, name);
    var baselineRank := if base.Some? then base.value else |baseline| + 1;
    var semanticRank := if semantic.Some? then semantic.value else |enriched| + 1;
    var boundedRank := BoundedRank(baselineRank, semanticRank, cap, eligible(candidate));
    var boosted := eligible(candidate) && boundedRank < baselineRank;
    if name !in Names(baseline) && !boosted then None
    else Some(Row(candidate, boundedRank, baselineRank))
  }

  function StabilityRows(names: seq<string>, baseline: seq<Candidate>, enriched: seq<Candidate>, eligible: Candidate -> bool, cap: nat): seq<Row>
    requires forall n :: n in names ==> n in Names(baseline) || n in Names(enriched)
  {
    if names == [] then []
    else
      assert names[0] in names;
      match StabilityRow(names[0], baseline, enriched, eligible, cap)
      case None => StabilityRows(names[1..], baseline, enriched, eligible, cap)
      case Some(row) => [row] + StabilityRows(names[1..], baseline, enriched, eligible, cap)
  }

  function CandidateNames(baseline: seq<Candidate>, enriched: seq<Candidate>): (names: seq<string>)
    ensures forall n :: n in names <==> n in Names(baseline) || n in Names(enriched)
  {
    FirstSeen(Names(baseline) + Names(enriched))
  }

  function StabilityRanking(baseline: seq<Candidate>, enriched: seq<Candidate>, eligible: Candidate -> bool, cap: nat, collate: Collation): seq<Candidate> {
    TopCandidates(StabilityRows(CandidateNames(baseline, enriched), baseline, enriched, eligible, cap), collate)
  }

  // The rows kept are exactly those of the names not dropped, one for each.
  ghost predicate Kept(rows: seq<Row>, names: seq<string>, baseline: seq<Candidate>, enriched: seq<Candidate>, eligible: Candidate -> bool, cap: nat)
    requires forall n :: n in names ==> n in Names(baseline) || n in Names(enriched)
  {
    && Distinct(RowNames(rows))
    && (forall k :: 0 <= k < |rows| ==>
          && rows[k].candidate.name in names
          && StabilityRow(rows[k].candidate.name, baseline, enriched, eligible, cap) == Some(rows[k]))
    && (forall n :: n in names && n in Names(baseline) ==> n in RowNames(rows))
  }

  lemma {:induction false} StabilityRowsKept(names: seq<string>, baseline: seq<Candidate>, enriched: seq<Candidate>, eligible: Candidate -> bool, cap: nat)
    requires Distinct(names)
    requires forall n :: n in names ==> n in Names(baseline) || n in Names(enriched)
    ensures Kept(StabilityRows(names, baseline, enriched, eligible, cap), names, baseline, enriched, eligible, cap)
  {
    if names != [] {
      assert names[0] in names && names[0] !in names[1..];
      StabilityRowsKept(names[1..], baseline, enriched, eligible, cap);
      var rest := StabilityRows(names[1..], baseline, enriched, eligible, cap);
      var row := StabilityRow(names[0], baseline, enriched, eligible, cap);
      if row.Some? {
        KeepOne(row.value, rest, names, baseline, enriched, eligible, cap);
      }
    }
  }

  lemma KeepOne(row: Row, rest: seq<Row>, names: seq<string>, baseline: seq<Candidate>, enriched: seq<Candidate>, eligible: Candidate -> bool, cap: nat)
    requires names != [] && names[0] !in names[1..]
    requires forall n :: n in names ==> n in Names(baseline) || n in Names(enriched)
    requires StabilityRow(names[0], baseline, enriched, eligible, cap) == Some(row)
    requires Kept(rest, names[1..], baseline, enriched, eligible, cap)
    ensures Kept([row] + rest, names, baseline, enriched, eligible, cap)
  {
    var rows := [row] + rest;
    assert RowNames(rows) == [names[0]] + RowNames(rest);
    forall k | 0 <= k < |rows|
      ensures rows[k].candidate.name in names
      ensures StabilityRow(rows[k].candidate.name, baseline, enriched, eligible, cap) == Some(rows[k])
    {
      if k > 0 {
        assert rows[k] == rest[k - 1];
      }
    }
    forall j, k | 0 <= j < k < |rows|
      ensures RowNames(rows)[j] != RowNames(rows)[k]
    {
      assert rest[k - 1].candidate.name in names[1..];
      if j > 0 {
        assert RowNames(rest)[j - 1] != RowNames(rest)[k - 1];
      }
    }
  }

  lemma StabilityCapped(baseline: seq<Candidate>, enriched: seq<Candidate>, eligible: Candidate -> bool, cap: nat)
    requires Distinct(Names(baseline))
    ensures Capped(StabilityRows(CandidateNames(baseline, enriched), baseline, enriched, eligible, cap), baseline, |baseline| + 1, cap)
  {
    var names := CandidateNames(baseline, enriched);
    var rows := StabilityRows(names, baseline, enriched, eligible, cap);
    FirstSeenDistinct(Names(baseline) + Names(enriched));
    StabilityRowsKept(names, baseline, enriched, eligible, cap);
    forall i | 0 <= i < |baseline|
      ensures baseline[i].name in RowNames(rows)
    {
      assert Names(baseline)[i] in Names(baseline);
    }
    forall k | 0 <= k < |rows|
      ensures rows[k].before - cap <= rows[k].bounded <= rows[k].before
      ensures rows[k].candidate.name !in Names(baseline) ==> rows[k].before == |baseline| + 1
      ensures forall i :: 0 <= i < |baseline| && rows[k].candidate.name == baseline[i].name ==> rows[k].before == i + 1
    {
      assert RowNames(rows)[k] in names;
      RankInDistinct(baseline, rows[k].candidate.name);
    }
  }

  lemma TopNames(rows: seq<Row>, collate: Collation)
    ensures var sorted := Sort(rows, InOrder(collate));
            Names(TopCandidates(rows, collate)) == RowNames(sorted[..Min(CUT, |sorted|)])
  {
  }

  // ---------------------------------------------------------------- the displacement report

  datatype ReportRow = ReportRow(expected: seq<string>, topNames: seq<string>)

  datatype Bucket = Promoted100Plus | Promoted50To99 | Promoted20To49 | Promoted1To19 | GoldPromoted | GoldDemoted

  // The counters, and the distances moved, in the order in which they are pushed.
  datatype Report = Report(promoted100Plus: nat, promoted50To99: nat, promoted20To49: nat, promoted1To19: nat,
                           goldPromoted: nat, goldDemoted: nat, movements: seq<nat>)

  // What the report says of the distances.
  datatype Distances = Distances(mean: real, p95: nat, max: nat)

  // names.indexOf(target) + 1
  function RankName(names: seq<string>, target: string): (r: Option<int>)
    ensures r.None? <==> target !in names
    ensures r.Some? ==> 1 <= r.value <= |names| && names[r.value - 1] == target
    ensures r.Some? ==> forall i :: 0 <= i < r.value - 1 ==> names[i] != target
  {
    if names == [] then None
    else if names[0] == target then Some(1)
    else match RankName(names[1..], target)
      case None => None
      case Some(rank) => Some(rank + 1)
  }

  function PlaceIn(names: seq<string>, name: string): int {
    var rank := RankName(names, name);
    if rank.Some? then rank.value else |names| + 1
  }

  function MoveOf(base: seq<string>, top: seq<string>, name: string): int {
    PlaceIn(base, name) - PlaceIn(top, name)
  }

  function Abs(x: int): nat { if x < 0 then -x else x }

  predicate IsGold(expected: seq<string>, name: string, lower: string -> string) {
    exists e :: e in expected && lower(e) == lower(name)
  }

  predicate InBucket(bucket: Bucket, gold: bool, move: int) {
    match bucket
    case Promoted100Plus => !gold && 100 <= move
    case Promoted50To99 => !gold && 50 <= move < 100
    case Promoted20To49 => !gold && 20 <= move < 50
    case Promoted1To19 => !gold && 1 <= move < 20
    case GoldPromoted => gold && 0 < move
    case GoldDemoted => gold && move < 0
  }

  // How many of `names` one fixture puts into a bucket.
  ghost function CountNames(names: seq<string>, base: seq<string>, row: ReportRow, lower: string -> string, bucket: Bucket): nat {
    if names == [] then 0
    else
      var name := names[|names| - 1];
      CountNames(names[..|names| - 1], base, row, lower, bucket)
      + if InBucket(bucket, IsGold(row.expected, name, lower), MoveOf(base, row.topNames, name)) then 1 else 0
  }

  ghost function CountRow(base: ReportRow, row: ReportRow, lower: string -> string, bucket: Bucket): nat {
    CountNames(FirstSeen(base.topNames + row.topNames), base.topNames, row, lower, bucket)
  }

  // How many (fixture, name) pairs the whole report puts into a bucket.
  ghost function CountAll(bases: seq<ReportRow>, rows: seq<ReportRow>, lower: string -> string, bucket: Bucket): nat
    requires |bases| >= |rows|
  {
    if rows == [] then 0
    else
      var last := |rows| - 1;
      CountAll(bases, rows[..last], lower, bucket) + CountRow(bases[last], rows[last], lower, bucket)
  }

  ghost predicate Tallies(report: Report, bases: seq<ReportRow>, rows: seq<ReportRow>, lower: string -> string)
    requires |bases| >= |rows|
  {
    && report.promoted100Plus == CountAll(bases, rows, lower, Promoted100Plus)
    && report.promoted50To99 == CountAll(bases, rows, lower, Promoted50To99)
    && report.promoted20To49 == CountAll(bases, rows, lower, Promoted20To49)
    && report.promoted1To19 == CountAll(bases, rows, lower, Promoted1To19)
    && report.goldPromoted == CountAll(bases, rows, lower, GoldPromoted)
    && report.goldDemoted == CountAll(bases, rows, lower, GoldDemoted)
  }

  // `tally` holds the counts of the finished fixtures plus those of the first names of this one.
  ghost predicate RowTallies(tally: Report, start: Report, names: seq<string>, base: seq<string>, row: ReportRow, lower: string -> string) {
    && tally.promoted100Plus == start.promoted100Plus + CountNames(names, base, row, lower, Promoted100Plus)
    && tally.promoted50To99 == start.promoted50To99 + CountNames(names, base, row, lower, Promoted50To99)
    && tally.promoted20To49 == start.promoted20To49 + CountNames(names, base, row, lower, Promoted20To49)
    && tally.promoted1To19 == start.promoted1To19 + CountNames(names, base, row, lower, Promoted1To19)
    && tally.goldPromoted == start.goldPromoted + CountNames(names, base, row, lower, GoldPromoted)
    && tally.goldDemoted == start.goldDemoted + CountNames(names, base, row, lower, GoldDemoted)
  }

  // The report after one more name has been classified.
  function Record(tally: Report, gold: bool, move: int): (r: Report)
    ensures r.promoted100Plus == tally.promoted100Plus + (if InBucket(Promoted100Plus, gold, move) then 1 else 0)
    ensures r.promoted50To99 == tally.promoted50To99 + (if InBucket(Promoted50To99, gold, move) then 1 else 0)
    ensures r.promoted20To49 == tally.promoted20To49 + (if InBucket(Promoted20To49, gold, move) then 1 else 0)
    ensures r.promoted1To19 == tally.promoted1To19 + (if InBucket(Promoted1To19, gold, move) then 1 else 0)
    ensures r.goldPromoted == tally.goldPromoted + (if InBucket(GoldPromoted, gold, move) then 1 else 0)
    ensures r.goldDemoted == tally.goldDemoted + (if InBucket(GoldDemoted, gold, move) then 1 else 0)
    ensures r.movements == tally.movements + [Abs(move)]
  {
    var moved := tally.(movements := tally.movements + [Abs(move)]);
    if gold then
      if move > 0 then moved.(goldPromoted := moved.goldPromoted + 1)
      else if move < 0 then moved.(goldDemoted := moved.goldDemoted + 1)
      else moved
    else if move >= 100 then moved.(promoted100Plus := moved.promoted100Plus + 1)
    else if move >= 50 then moved.(promoted50To99 := moved.promoted50To99 + 1)
    else if move >= 20 then moved.(promoted20To49 := moved.promoted20To49 + 1)
    else if move >= 1 then moved.(promoted1To19 := moved.promoted1To19 + 1)
    else moved
  }

  // The distances over which the names of one fixture move.
  ghost function Moves(names: seq<string>, base: seq<string>, top: seq<string>): seq<nat> {
    Map((n: string) => Abs(MoveOf(base, top, n)), names)
  }

  ghost function RowMoves(base: ReportRow, row: ReportRow): seq<nat> {
    Moves(FirstSeen(base.topNames + row.topNames), base.topNames, row.topNames)
  }

  ghost function AllMoves(bases: seq<ReportRow>, rows: seq<ReportRow>): seq<nat>
    requires |bases| >= |rows|
  {
    if rows == [] then []
    else
      var last := |rows| - 1;
      AllMoves(bases, rows[..last]) + RowMoves(bases[last], rows[last])
  }

  function Total(values: seq<nat>): nat {
    if values == [] then 0 else Total(values[..|values| - 1]) + values[|values| - 1]
  }

  function Mean(values: seq<nat>): real {
    if values == [] then 0.0 else Total(values) as real / |values| as real
  }

  function AtMost(): (nat, nat) -> bool {
    (a: nat, b: nat) => a <= b
  }

  // percentile(values, .95)
  function Percentile95(values: seq<nat>): nat {
    var sorted := Sort(values, AtMost());
    var index := |values| * 95 / 100;
    if values == [] || |sorted| != |values| then 0 else sorted[Min(|values| - 1, index)]
  }

  // Math.max(0, ...values)
  function Largest(values: seq<nat>): (m: nat)
    ensures forall v :: v in values ==> v <= m
    ensures m == 0 || m in values
  {
    if values == [] then 0
    else
      assert values == values[..|values| - 1] + [values[|values| - 1]];
      var front := Largest(values[..|values| - 1]);
      if values[|values| - 1] > front then values[|values| - 1] else front
  }

  function DistancesOf(movements: seq<nat>): Distances {
    Distances(Mean(movements), Percentile95(movements), Largest(movements))
  }

  lemma RecordStep(tally: Report, start: Report, names: seq<string>, base: seq<string>, row: ReportRow, lower: string -> string, i: nat)
    requires i < |names|
    requires RowTallies(tally, start, names[..i], base, row, lower)
    ensures RowTallies(Record(tally, IsGold(row.expected, names[i], lower), MoveOf(base, row.topNames, names[i])),
                       start, names[..i + 1], base, row, lower)
  {
    assert names[..i + 1][..i] == names[..i];
  }

  method CountOneFixture(start: Report, base: ReportRow, row: ReportRow, lower: string -> string) returns (tally: Report)
    ensures RowTallies(tally, start, FirstSeen(base.topNames + row.topNames), base.topNames, row, lower)
    ensures tally.movements == start.movements + RowMoves(base, row)
  {
    var names := FirstSeen(base.topNames + row.topNames);
    tally := start;
    for i := 0 to |names|
      invariant RowTallies(tally, start, names[..i], base.topNames, row, lower)
      invariant tally.movements == start.movements + Moves(names[..i], base.topNames, row.topNames)
    {
      RecordStep(tally, start, names, base.topNames, row, lower, i);
      MovesStep(names, base.topNames, row.topNames, i);
      tally := Record(tally, IsGold(row.expected, names[i], lower), MoveOf(base.topNames, row.topNames, names[i]));
    }
    assert names[..|names|] == names;
  }

  lemma MovesStep(names: seq<string>, base: seq<string>, top: seq<string>, i: nat)
    requires i < |names|
    ensures Moves(names[..i + 1], base, top) == Moves(names[..i], base, top) + [Abs(MoveOf(base, top, names[i]))]
  {
    PrefixStep(names, i);
  }

  // Without baseline rows every number stays zero.
  method DisplacementMetrics(rows: seq<ReportRow>, baselineRows: Option<seq<ReportRow>>, lower: string -> string)
    returns (report: Report, distances: Distances)
    requires baselineRows.Some? ==> |baselineRows.value| >= |rows|
    ensures baselineRows.None? ==> report == Report(0, 0, 0, 0, 0, 0, []) && distances == Distances(0.0, 0, 0)
    ensures baselineRows.Some? ==> Tallies(report, baselineRows.value, rows, lower)
    ensures baselineRows.Some? ==> distances == DistancesOf(AllMoves(baselineRows.value, rows))
  {
    report := Report(0, 0, 0, 0, 0, 0, []);
    if baselineRows.None? {
      return report, Distances(0.0, 0, 0);
    }
    var bases := baselineRows.value;
    for index := 0 to |rows|
      invariant Tallies(report, bases, rows[..index], lower)
      invariant report.movements == AllMoves(bases, rows[..index])
    {
      assert rows[..index + 1][..index] == rows[..index];
      report := CountOneFixture(report, bases[index], rows[index], lower);
    }
    assert rows[..|rows|] == rows;
    distances := DistancesOf(report.movements);
  }

  // The mean and the 95th percentile never exceed the largest distance, and the percentile is one of them.
  lemma DistancesOrdered(movements: seq<nat>)
    ensures var d := DistancesOf(movements); d.mean <= d.max as real && d.p95 <= d.max
    ensures movements != [] ==> Percentile95(movements) in movements
  {
    PercentileIsOne(movements);
    if movements != [] {
      assert forall i :: 0 <= i < |movements| ==> movements[i] in movements;
      MeanBelow(movements, Largest(movements));
    }
  }

  lemma MeanBelow(movements: seq<nat>, m: nat)
    requires movements != [] && forall i :: 0 <= i < |movements| ==> movements[i] <= m
    ensures Mean(movements) <= m as real
  {
    TotalBound(movements, m);
    RealProduct(m, |movements|);
    QuotientAtMost(m as real, Total(movements) as real, |movements| as real);
  }

  lemma RealProduct(m: nat, n: nat)
    ensures (m * n) as real == m as real * n as real
  {
  }

  lemma PercentileIsOne(movements: seq<nat>)
    ensures if movements == [] then Percentile95(movements) == 0 else Percentile95(movements) in movements
  {
    SortMembers(movements, AtMost());
    if movements != [] {
      var sorted := Sort(movements, AtMost());
      assert sorted[Min(|movements| - 1, |movements| * 95 / 100)] in sorted;
    }
  }

  lemma {:induction false} TotalBound(values: seq<nat>, m: nat)
    requires forall i :: 0 <= i < |values| ==> values[i] <= m
    ensures Total(values) <= m * |values|
  {
    if values != [] {
      var front := values[..|values| - 1];
      TotalBound(front, m);
      OneMoreTime(m, |values|);
      assert |front| == |values| - 1;
      assert Total(values) == Total(front) + values[|values| - 1];
    }
  }

  lemma OneMoreTime(m: nat, n: nat)
    requires n > 0
    ensures m * n == m * (n - 1) + m
  {
  }

  // ---------------------------------------------------------------- what the cap does to the report

  // A baseline longer than this can show large promotions that the cut at 200 alone causes.
  const LONGEST := 220

  lemma DistinctPlace(list: seq<Candidate>, i: nat)
    requires Distinct(Names(list)) && i < |list|
    ensures PlaceIn(Names(list), list[i].name) == i + 1
  {
    var names := Names(list);
    assert names[i] == list[i].name;
    assert forall j :: 0 <= j < |names| && names[j] == names[i] ==> j == i;
  }

  // Where the names of a capped ranking may stand, in terms of the baseline order alone.
  ghost predicate CappedPlaces(base: seq<string>, top: seq<string>, cap: nat) {
    && |top| <= CUT
    && (forall p, i :: 0 <= p < |top| && 0 <= i < |base| && top[p] == base[i] ==> p + 1 >= i + 1 - cap)
    && (forall p :: 0 <= p < |top| && top[p] !in base ==> p + 1 >= |base| - cap + 1)
    && (|top| < CUT ==> forall n :: n in base ==> n in top)
  }

  lemma CappedRowsPlaces(sorted: seq<Row>, baseline: seq<Candidate>, cap: nat, collate: Collation)
    requires Collates(collate) && Sorted(sorted, InOrder(collate)) && Capped(sorted, baseline, |baseline| + 1, cap)
    ensures CappedPlaces(Names(baseline), RowNames(sorted[..Min(CUT, |sorted|)]), cap)
  {
    var base, top := Names(baseline), RowNames(sorted[..Min(CUT, |sorted|)]);
    forall p, i | 0 <= p < |top| && 0 <= i < |base| && top[p] == base[i]
      ensures p + 1 >= i + 1 - cap
    {
      CappedFloor(sorted, baseline, |baseline| + 1, cap, collate, p, i + 1);
    }
    forall p | 0 <= p < |top| && top[p] !in base
      ensures p + 1 >= |base| - cap + 1
    {
      CappedNewcomer(sorted, baseline, |baseline| + 1, cap, collate, p);
    }
    if |top| < CUT {
      assert top == RowNames(sorted);
      forall n | n in base
        ensures n in top
      {
        var i :| 0 <= i < |base| && base[i] == n;
        assert baseline[i].name in RowNames(sorted);
      }
    }
  }

  lemma StabilityPlaces(baseline: seq<Candidate>, enriched: seq<Candidate>, eligible: Candidate -> bool, cap: nat, collate: Collation)
    requires Collates(collate) && Distinct(Names(baseline))
    ensures CappedPlaces(Names(baseline), Names(StabilityRanking(baseline, enriched, eligible, cap, collate)), cap)
  {
    var rows := StabilityRows(CandidateNames(baseline, enriched), baseline, enriched, eligible, cap);
    StabilityCapped(baseline, enriched, eligible, cap);
    CappedSort(rows, baseline, |baseline| + 1, cap, collate);
    CappedRowsPlaces(Sort(rows, InOrder(collate)), baseline, cap, collate);
    TopNames(rows, collate);
  }

  // No name of either list moves up by 20 places or more.
  lemma MovesStaySmall(base: seq<string>, top: seq<string>, cap: nat, name: string)
    requires |base| <= LONGEST && cap < 20 && CappedPlaces(base, top, cap)
    requires name in base || name in top
    ensures MoveOf(base, top, name) < 20
  {
    var before, after := RankName(base, name), RankName(top, name);
    if after.Some? {
      var p := after.value - 1;
      assert top[p] == name;
      if before.Some? {
        assert base[before.value - 1] == name;
      }
    }
  }

  lemma {:induction false} NoneInBucket(names: seq<string>, base: seq<string>, row: ReportRow, lower: string -> string, bucket: Bucket)
    requires forall n :: n in names ==> MoveOf(base, row.topNames, n) < 20
    requires bucket in {Promoted20To49, Promoted50To99, Promoted100Plus}
    ensures CountNames(names, base, row, lower, bucket) == 0
  {
    if names != [] {
      assert names[|names| - 1] in names;
      NoneInBucket(names[..|names| - 1], base, row, lower, bucket);
    }
  }

  // One fixture of the study: its goals, the two retrieved lists and the compatibility verdicts.
  datatype Fixture = Fixture(expected: seq<string>, baseline: seq<Candidate>, enriched: seq<Candidate>, eligible: Candidate -> bool)

  function BaselineRow(f: Fixture): ReportRow {
    ReportRow(f.expected, Names(f.baseline))
  }

  function CappedRow(f: Fixture, cap: nat, collate: Collation): ReportRow {
    ReportRow(f.expected, Names(StabilityRanking(f.baseline, f.enriched, f.eligible, cap, collate)))
  }

  // For any goals and any eligibility, a cap under 20 keeps the three large buckets at zero.
  lemma {:induction false} CapEmptiesLargeBuckets(fixtures: seq<Fixture>, cap: nat, collate: Collation, lower: string -> string, bucket: Bucket)
    requires Collates(collate) && cap < 20
    requires forall i :: 0 <= i < |fixtures| ==> Distinct(Names(fixtures[i].baseline)) && |fixtures[i].baseline| <= LONGEST
    requires bucket in {Promoted20To49, Promoted50To99, Promoted100Plus}
    ensures CountAll(Map(BaselineRow, fixtures), Map((f: Fixture) => CappedRow(f, cap, collate), fixtures), lower, bucket) == 0
  {
    var bases := Map(BaselineRow, fixtures);
    var rows := Map((f: Fixture) => CappedRow(f, cap, collate), fixtures);
    ZeroOverRows(fixtures, bases, rows, cap, collate, lower, bucket);
  }

  lemma {:induction false} ZeroOverRows(fixtures: seq<Fixture>, bases: seq<ReportRow>, rows: seq<ReportRow>, cap: nat, collate: Collation,
                                        lower: string -> string, bucket: Bucket)
    requires Collates(collate) && cap < 20
    requires |fixtures| >= |rows| && |bases| >= |rows|
    requires forall i :: 0 <= i < |rows| ==> Distinct(Names(fixtures[i].baseline)) && |fixtures[i].baseline| <= LONGEST
    requires forall i :: 0 <= i < |rows| ==> bases[i] == BaselineRow(fixtures[i]) && rows[i] == CappedRow(fixtures[i], cap, collate)
    requires bucket in {Promoted20To49, Promoted50To99, Promoted100Plus}
    ensures CountAll(bases, rows, lower, bucket) == 0
  {
    if rows != [] {
      var last := |rows| - 1;
      ZeroOverRows(fixtures, bases, rows[..last], cap, collate, lower, bucket);
      var f := fixtures[last];
      var names := FirstSeen(bases[last].topNames + rows[last].topNames);
      StabilityPlaces(f.baseline, f.enriched, f.eligible, cap, collate);
      forall n | n in names
        ensures MoveOf(bases[last].topNames, rows[last].topNames, n) < 20
      {
        MovesStaySmall(bases[last].topNames, rows[last].topNames, cap, n);
      }
      NoneInBucket(names, bases[last].topNames, rows[last], lower, bucket);
    }
  }

  // The bound is exact: for any longer baseline the cut alone moves its last name by 20 or more.
  lemma LongBaselineMoves(baseline: seq<Candidate>, eligible: Candidate -> bool, cap: nat, collate: Collation)
    requires Collates(collate) && Distinct(Names(baseline)) && |baseline| > LONGEST && forall c :: !eligible(c)
    ensures MoveOf(Names(baseline), Names(StabilityRanking(baseline, [], eligible, cap, collate)), baseline[|baseline| - 1].name) >= 20
  {
    DistinctPlace(baseline, |baseline| - 1);
    UnboostedPlaces(baseline, eligible, cap, collate);
    LateNamePlace(Names(baseline), Names(StabilityRanking(baseline, [], eligible, cap, collate)), |baseline| - 1);
  }

  lemma LateNamePlace(base: seq<string>, top: seq<string>, i: nat)
    requires CappedPlaces(base, top, 0) && CUT <= i < |base|
    ensures PlaceIn(top, base[i]) <= CUT + 1
  {
    assert forall p :: 0 <= p < |top| && top[p] == base[i] ==> p + 1 >= i + 1;
  }

  lemma {:induction false} SomeInBucket(names: seq<string>, base: seq<string>, row: ReportRow, lower: string -> string, bucket: Bucket, name: string)
    requires name in names && InBucket(bucket, IsGold(row.expected, name, lower), MoveOf(base, row.topNames, name))
    ensures CountNames(names, base, row, lower, bucket) > 0
  {
    var last := |names| - 1;
    if names[last] != name {
      SomeInBucket(names[..last], base, row, lower, bucket, name);
    }
  }

  lemma LongBaselinePromotes(baseline: seq<Candidate>, eligible: Candidate -> bool, cap: nat, collate: Collation, lower: string -> string)
    returns (bucket: Bucket)
    requires Collates(collate) && Distinct(Names(baseline)) && |baseline| > LONGEST && forall c :: !eligible(c)
    ensures bucket in {Promoted20To49, Promoted50To99, Promoted100Plus}
    ensures var f := Fixture([], baseline, [], eligible);
            CountRow(BaselineRow(f), CappedRow(f, cap, collate), lower, bucket) > 0
  {
    LongBaselineMoves(baseline, eligible, cap, collate);
    var f := Fixture([], baseline, [], eligible);
    var base, row := BaselineRow(f), CappedRow(f, cap, collate);
    var name := baseline[|baseline| - 1].name;
    var move := MoveOf(base.topNames, row.topNames, name);
    bucket := if move >= 100 then Promoted100Plus else if move >= 50 then Promoted50To99 else Promoted20To49;
    assert base.topNames[|baseline| - 1] == name;
    SomeInBucket(FirstSeen(base.topNames + row.topNames), base.topNames, row, lower, bucket, name);
  }

  // Without eligible candidates the ranking respects even a cap of zero.
  lemma UnboostedPlaces(baseline: seq<Candidate>, eligible: Candidate -> bool, cap: nat, collate: Collation)
    requires Collates(collate) && Distinct(Names(baseline)) && forall c :: !eligible(c)
    ensures CappedPlaces(Names(baseline), Names(StabilityRanking(baseline, [], eligible, cap, collate)), 0)
  {
    var rows := StabilityRows(CandidateNames(baseline, []), baseline, [], eligible, cap);
    StabilityCapped(baseline, [], eligible, cap);
    FirstSeenDistinct(Names(baseline) + Names([]));
    StabilityRowsKept(CandidateNames(baseline, []), baseline, [], eligible, cap);
    forall k | 0 <= k < |rows|
      ensures rows[k].bounded == rows[k].before
    {
      assert StabilityRow(rows[k].candidate.name, baseline, [], eligible, cap) == Some(rows[k]);
    }
    CappedSort(rows, baseline, |baseline| + 1, 0, collate);
    CappedRowsPlaces(Sort(rows, InOrder(collate)), baseline, 0, collate);
    TopNames(rows, collate);
  }
}
