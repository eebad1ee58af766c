// The first pass over the package registries, and its candidates.
module RegistryPasses {
  // It asks for licences and archive addresses, in a pool of cooperative workers.

  import opened Sequences
  import opened Sorting
  import opened Spdx
  import opened LicenseRows
  import opened WorkerPool

  // ---------------------------------------------------------------- the candidates

  predicate Wanted(row: RowData) {
    && !row.notDistributed
    && (row.license == NOASSERTION || !HasNotice(row))
    && (row.ecosystem == NpmRoot || row.ecosystem == NpmDesktop || row.ecosystem == Cargo)
  }

  function Indices(rows: seq<RowData>, keep: RowData -> bool): (r: seq<nat>)
    ensures forall i: nat :: i in r <==> (i < |rows| && keep(rows[i]))
    ensures Distinct(r)
  {
    if rows == [] then []
    else
      var last := |rows| - 1;
      var front := Indices(rows[..last], keep);
      assert last !in front;
      if keep(rows[last]) then front + [last] else front
  }

  predicate Unlicensed(rows: seq<RowData>, i: nat) {
    i < |rows| && rows[i].license == NOASSERTION
  }

  function UnlicensedFirst(rows: seq<RowData>): (nat, nat) -> bool {
    (i: nat, j: nat) => Unlicensed(rows, j) ==> Unlicensed(rows, i)
  }

  function Candidates(rows: seq<RowData>, limit: nat): seq<nat> {
    var sorted := Sort(Indices(rows, Wanted), UnlicensedFirst(rows));
    if |sorted| <= limit then sorted else sorted[..limit]
  }

  lemma CandidatesDistinct(rows: seq<RowData>, limit: nat)
    ensures var c := Candidates(rows, limit);
            Distinct(c) && |c| <= limit && forall i :: i in c ==> i < |rows| && Wanted(rows[i])
  {
    var all := Indices(rows, Wanted);
    var sorted := Sort(all, UnlicensedFirst(rows));
    SortMembers(all, UnlicensedFirst(rows));
    PermutationDistinct(all, sorted);
    assert forall i :: i in Candidates(rows, limit) ==> i in sorted;
  }

  // A wanted row is left out only when the limit is used up, and one without a licence only when no
  // candidate has one.
  lemma LeftOut(rows: seq<RowData>, limit: nat, i: nat)
    requires i < |rows| && Wanted(rows[i]) && i !in Candidates(rows, limit)
    ensures |Candidates(rows, limit)| == limit
    ensures Unlicensed(rows, i) ==> forall j :: j in Candidates(rows, limit) ==> Unlicensed(rows, j)
  {
    var all := Indices(rows, Wanted);
    var le := UnlicensedFirst(rows);
    SortMembers(all, le);
    SortSorted(all, le);
    BehindCut(Sort(all, le), le, limit, i);
    assert forall j :: j in Candidates(rows, limit) ==> le(j, i);
  }

  lemma BehindCut(s: seq<nat>, le: (nat, nat) -> bool, limit: nat, x: nat)
    requires Sorted(s, le) && x in s && |s| > limit && x !in s[..limit]
    ensures forall y :: y in s[..limit] ==> le(y, x)
  {
    assert forall m :: 0 <= m < limit ==> s[m] in s[..limit];
  }

  // ---------------------------------------------------------------- the first pass: licences and addresses

  // The archive address an answer gives; a malformed one makes the URL constructor throw.
  datatype Address = NoAddress | OtherHost | Malformed | Archive(url: string)
  // A description: the trimmed licence text ("" when there is none), the licence read from it, the address
  // asked, and the archive.
  datatype Answer = Failed | Described(raw: string, license: string, source: string, archive: Address)
  datatype Offer = Offer(row: nat, url: string)
  datatype Books = Books(rows: seq<RowData>, resolved: nat, failures: nat, offers: seq<Offer>)

  // A licence that cannot be read is kept as raw text; one that can fills a gap, in the SBOM too.
  function LicensedRow(row: RowData, a: Answer): RowData {
    if a.Failed? then row
    else if a.license == NOASSERTION then if a.raw != "" then row.(rawLicense := Some(a.raw)) else row
    else if row.license == NOASSERTION then
      row.(license := a.license, licenseSource := Some(a.source), rawLicense := None, declared := a.license)
    else row
  }

  predicate Resolves(row: RowData, a: Answer) {
    a.Described? && a.license != NOASSERTION && row.license == NOASSERTION
  }

  predicate Fails(row: RowData, a: Answer) {
    a.Failed? || (a.archive.Malformed? && !HasNotice(row))
  }

  predicate Offers(row: RowData, a: Answer) {
    a.Described? && a.archive.Archive? && !HasNotice(row)
  }

  // What the registry's answers do to the books, job by job.
  function Registry(candidates: seq<nat>, answers: seq<Answer>): (Books, nat) -> Books {
    (b: Books, job: nat) =>
      if job < |candidates| && job < |answers| && candidates[job] < |b.rows| then Entered(b, candidates[job], answers[job]) else b
  }

  function Entered(b: Books, i: nat, a: Answer): Books
    requires i < |b.rows|
  {
    var row := b.rows[i];
    Books(b.rows[i := LicensedRow(row, a)],
          b.resolved + (if Resolves(row, a) then 1 else 0),
          b.failures + (if Fails(row, a) then 1 else 0),
          b.offers + (if Offers(row, a) then [Offer(i, a.archive.url)] else []))
  }

  // The jobs name different existing rows, one answer each.
  ghost predicate WellPosed(rows: seq<RowData>, candidates: seq<nat>, answers: seq<Answer>) {
    Distinct(candidates) && |answers| == |candidates| && forall i :: i in candidates ==> i < |rows|
  }

  ghost predicate JobLog(log: seq<nat>, jobs: nat) {
    Distinct(log) && forall job :: job in log ==> job < jobs
  }

  // A test on the row and the answer of a job, before the pass.
  function OnJob(rows: seq<RowData>, candidates: seq<nat>, answers: seq<Answer>, test: (RowData, Answer) -> bool): nat -> bool {
    (job: nat) => job < |candidates| && job < |answers| && candidates[job] < |rows| && test(rows[candidates[job]], answers[job])
  }

  function OffersOf(rows: seq<RowData>, candidates: seq<nat>, answers: seq<Answer>, log: seq<nat>): seq<Offer> {
    if log == [] then []
    else
      var job := log[|log| - 1];
      OffersOf(rows, candidates, answers, log[..|log| - 1])
      + if OnJob(rows, candidates, answers, Offers)(job) then [Offer(candidates[job], answers[job].archive.url)] else []
  }

  // The books are a function of which jobs have finished; only the order of the offers depends on when.
  ghost predicate BooksOf(b: Books, rows: seq<RowData>, candidates: seq<nat>, answers: seq<Answer>, log: seq<nat>)
    requires WellPosed(rows, candidates, answers) && JobLog(log, |candidates|)
  {
    && |b.rows| == |rows|
    && (forall job :: 0 <= job < |candidates| ==>
          && candidates[job] in candidates
          && b.rows[candidates[job]] == if job in log then LicensedRow(rows[candidates[job]], answers[job]) else rows[candidates[job]])
    && (forall i :: 0 <= i < |rows| && i !in candidates ==> b.rows[i] == rows[i])
    && b.resolved == Tally(log, OnJob(rows, candidates, answers, Resolves))
    && b.failures == Tally(log, OnJob(rows, candidates, answers, Fails))
    && b.offers == OffersOf(rows, candidates, answers, log)
  }

  lemma {:induction false} BooksOfLog(rows: seq<RowData>, candidates: seq<nat>, answers: seq<Answer>, log: seq<nat>)
    requires WellPosed(rows, candidates, answers) && JobLog(log, |candidates|)
    ensures BooksOf(Fold(Books(rows, 0, 0, []), log, Registry(candidates, answers)), rows, candidates, answers, log)
  {
    if log != [] {
      var front, job := log[..|log| - 1], log[|log| - 1];
      assert log == front + [job];
      assert job in log && job !in front && forall j :: j in front ==> j in log;
      BooksOfLog(rows, candidates, answers, front);
      EnteredKeeps(Fold(Books(rows, 0, 0, []), front, Registry(candidates, answers)), rows, candidates, answers, front, job);
    }
  }

  lemma EnteredKeeps(b: Books, rows: seq<RowData>, candidates: seq<nat>, answers: seq<Answer>, front: seq<nat>, job: nat)
    requires WellPosed(rows, candidates, answers) && JobLog(front, |candidates|)
    requires BooksOf(b, rows, candidates, answers, front) && job < |candidates| && job !in front
    ensures candidates[job] < |b.rows| && JobLog(front + [job], |candidates|)
    ensures BooksOf(Entered(b, candidates[job], answers[job]), rows, candidates, answers, front + [job])
  {
    assert (front + [job])[..|front|] == front;
    assert forall j :: 0 <= j < |candidates| && j != job ==> candidates[j] != candidates[job];
    EnteredCounts(b, rows, candidates, answers, front, job);
    InLog(front, job);
  }

  lemma InLog(front: seq<nat>, job: nat)
    ensures forall j :: j in front + [job] <==> j in front || j == job
  {
  }

  lemma EnteredCounts(b: Books, rows: seq<RowData>, candidates: seq<nat>, answers: seq<Answer>, front: seq<nat>, job: nat)
    requires WellPosed(rows, candidates, answers) && JobLog(front, |candidates|)
    requires BooksOf(b, rows, candidates, answers, front) && job < |candidates| && job !in front
    ensures candidates[job] < |b.rows| && b.rows[candidates[job]] == rows[candidates[job]]
    ensures var next, log := Entered(b, candidates[job], answers[job]), front + [job];
            && next.resolved == Tally(log, OnJob(rows, candidates, answers, Resolves))
            && next.failures == Tally(log, OnJob(rows, candidates, answers, Fails))
  {
    assert candidates[job] in candidates;
    TallyStep(front, job, OnJob(rows, candidates, answers, Resolves));
    TallyStep(front, job, OnJob(rows, candidates, answers, Fails));
    var row, a := rows[candidates[job]], answers[job];
    assert OnJob(rows, candidates, answers, Resolves)(job) == Resolves(row, a);
    assert OnJob(rows, candidates, answers, Fails)(job) == Fails(row, a);
  }

  // The state the workers share, as they update it.
  class MetadataPass {
    const candidates: seq<nat>
    const answers: seq<Answer>
    var cursor: nat
    var attempted: nat
    var workers: seq<Worker>
    var rows: seq<RowData>
    var resolved: nat
    var failures: nat
    var offers: seq<Offer>
    ghost var finished: seq<nat>

    ghost function State(): Pool<Books>
      reads this
    {
      Pool(cursor, attempted, workers, Books(rows, resolved, failures, offers), finished)
    }

    // Every candidate names a row and has an answer, and the workers wait for answers to candidates.
    ghost predicate Valid()
      reads this
    {
      && |answers| == |candidates|
      && (forall i :: i in candidates ==> i < |rows|)
      && (forall v :: 0 <= v < |workers| && workers[v].Waiting? ==> workers[v].job < |candidates|)
    }

    constructor (rows: seq<RowData>, candidates: seq<nat>, answers: seq<Answer>, concurrency: nat)
      requires |answers| == |candidates| && forall i :: i in candidates ==> i < |rows|
      ensures Valid() && this.candidates == candidates && this.answers == answers
      ensures State() == Start(if concurrency < |candidates| then concurrency else |candidates|, Books(rows, 0, 0, []))
    {
      this.candidates, this.answers := candidates, answers;
      cursor, attempted, resolved, failures, offers, finished := 0, 0, 0, 0, [], [];
      this.rows := rows;
      workers := seq(if concurrency < |candidates| then concurrency else |candidates|, _ => Looking);
    }

    // What worker w does between two awaits.
    method Step(w: nat)
      requires Valid() && w < |workers|
      modifies this
      ensures Valid() && State() == Turn(old(State()), w, |candidates|, Registry(candidates, answers))
    {
      match workers[w]
      case Looking =>
        if cursor < |candidates| {
          workers := workers[w := Waiting(cursor)];
          cursor := cursor + 1;
          attempted := attempted + 1;
        } else {
          workers := workers[w := Left];
        }
      case Waiting(job) =>
        assert candidates[job] in candidates;
        Settle(candidates[job], answers[job]);
        workers := workers[w := Looking];
        finished := finished + [job];
      case Left =>
    }

    // Any sequence of turns.
    method Turns(schedule: seq<nat>)
      requires Valid()
      modifies this
      ensures Valid() && State() == Run(old(State()), schedule, |candidates|, Registry(candidates, answers))
    {
      for k := 0 to |schedule|
        invariant Valid() && State() == Run(old(State()), schedule[..k], |candidates|, Registry(candidates, answers))
      {
        assert schedule[..k + 1][..k] == schedule[..k];
        if schedule[k] < |workers| {
          Step(schedule[k]);
        }
      }
      assert schedule[..|schedule|] == schedule;
    }

    method Settle(i: nat, a: Answer)
      requires Valid() && i < |rows|
      modifies this`rows, this`resolved, this`failures, this`offers
      ensures Valid()
      ensures Books(rows, resolved, failures, offers) == Entered(old(Books(rows, resolved, failures, offers)), i, a)
    {
      if a.Failed? {
        failures := failures + 1;
        return;
      }
      var row := rows[i];
      if a.license == NOASSERTION {
        if a.raw != "" {
          rows := rows[i := row.(rawLicense := Some(a.raw))];
        }
      } else if row.license == NOASSERTION {
        rows := rows[i := row.(license := a.license, licenseSource := Some(a.source), rawLicense := None, declared := a.license)];
        resolved := resolved + 1;
      }
      if !HasNotice(row) {
        match a.archive
        case Archive(url) => offers := offers + [Offer(i, url)];
        case Malformed => failures := failures + 1;
        case _ =>
      }
    }
  }

  // ---------------------------------------------------------------- complete runs of the first pass

  function FirstPass(rows: seq<RowData>, candidates: seq<nat>, answers: seq<Answer>, size: nat, schedule: seq<nat>): Pool<Books> {
    Run(Start(size, Books(rows, 0, 0, [])), schedule, |candidates|, Registry(candidates, answers))
  }

  lemma FirstPassBooks(rows: seq<RowData>, candidates: seq<nat>, answers: seq<Answer>, size: nat, schedule: seq<nat>)
    requires WellPosed(rows, candidates, answers)
    ensures var p := FirstPass(rows, candidates, answers, size, schedule);
            JobLog(p.finished, |candidates|) && BooksOf(p.shared, rows, candidates, answers, p.finished)
  {
    var settle := Registry(candidates, answers);
    EveryRun(size, Books(rows, 0, 0, []), schedule, |candidates|, settle);
    SharedIsFold(size, Books(rows, 0, 0, []), schedule, |candidates|, settle);
    BooksOfLog(rows, candidates, answers, FirstPass(rows, candidates, answers, size, schedule).finished);
  }

  // Whatever the number of workers and the schedule, a completed pass attempted every candidate once and left
  // the same rows and the same counts; the offered archives differ at most in their order.
  lemma ScheduleIndependent(rows: seq<RowData>, candidates: seq<nat>, answers: seq<Answer>, size: nat, schedule: seq<nat>, size': nat, schedule': seq<nat>)
    requires WellPosed(rows, candidates, answers) && (candidates == [] || (size > 0 && size' > 0))
    requires Complete(FirstPass(rows, candidates, answers, size, schedule))
    requires Complete(FirstPass(rows, candidates, answers, size', schedule'))
    ensures var p, q := FirstPass(rows, candidates, answers, size, schedule), FirstPass(rows, candidates, answers, size', schedule');
            && p.attempted == q.attempted == |candidates|
            && p.shared.rows == q.shared.rows
            && p.shared.resolved == q.shared.resolved && p.shared.failures == q.shared.failures
            && multiset(p.shared.offers) == multiset(q.shared.offers)
  {
    var p, q := FirstPass(rows, candidates, answers, size, schedule), FirstPass(rows, candidates, answers, size', schedule');
    var settle := Registry(candidates, answers);
    CompleteRun(size, Books(rows, 0, 0, []), schedule, |candidates|, settle);
    CompleteRun(size', Books(rows, 0, 0, []), schedule', |candidates|, settle);
    FirstPassBooks(rows, candidates, answers, size, schedule);
    FirstPassBooks(rows, candidates, answers, size', schedule');
    TallyOfSet(p.finished, q.finished, OnJob(rows, candidates, answers, Resolves));
    TallyOfSet(p.finished, q.finished, OnJob(rows, candidates, answers, Fails));
    SameRows(p.shared, q.shared, rows, candidates, answers, p.finished, q.finished);
    SameOffers(rows, candidates, answers, p.finished, q.finished);
  }

  lemma SameRows(a: Books, b: Books, rows: seq<RowData>, candidates: seq<nat>, answers: seq<Answer>, log: seq<nat>, log': seq<nat>)
    requires WellPosed(rows, candidates, answers) && JobLog(log, |candidates|) && JobLog(log', |candidates|)
    requires BooksOf(a, rows, candidates, answers, log) && BooksOf(b, rows, candidates, answers, log')
    requires Elements(log) == Elements(log')
    ensures a.rows == b.rows
  {
    forall i | 0 <= i < |rows|
      ensures a.rows[i] == b.rows[i]
    {
      if i in candidates {
        var job :| 0 <= job < |candidates| && candidates[job] == i;
        assert job in log <==> job in Elements(log);
        assert job in log' <==> job in Elements(log');
      }
    }
  }

  // The offers are those of the finished jobs that make one, at most one for a row, and only for rows that
  // lack a notice.
  lemma {:induction false} OffersFacts(rows: seq<RowData>, candidates: seq<nat>, answers: seq<Answer>, log: seq<nat>)
    requires WellPosed(rows, candidates, answers) && JobLog(log, |candidates|)
    ensures var offers := OffersOf(rows, candidates, answers, log);
            && OneEach(offers)
            && (forall o :: o in offers ==> o.row < |rows| && !HasNotice(rows[o.row]))
            && (forall o :: o in offers <==> MadeBy(o, rows, candidates, answers, log))
  {
    if log != [] {
      var front, job := log[..|log| - 1], log[|log| - 1];
      assert log == front + [job];
      assert job in log && job !in front && forall j :: j in front ==> j in log;
      OffersFacts(rows, candidates, answers, front);
      assert forall j :: j in front ==> candidates[j] != candidates[job];
      assert candidates[job] in candidates;
      var row, a := rows[candidates[job]], answers[job];
      assert OnJob(rows, candidates, answers, Offers)(job) == Offers(row, a);
      var made := if Offers(row, a) then [Offer(candidates[job], a.archive.url)] else [];
      var before := OffersOf(rows, candidates, answers, front);
      assert OffersOf(rows, candidates, answers, log) == before + made;
      forall o | o in before
        ensures o.row != candidates[job]
      {
        assert MadeBy(o, rows, candidates, answers, front);
      }
      AppendOffer(before, made);
      forall o
        ensures o in before + made <==> MadeBy(o, rows, candidates, answers, log)
      {
        MadeByStep(o, rows, candidates, answers, front, job);
      }
    }
  }

  lemma AppendOffer(before: seq<Offer>, made: seq<Offer>)
    requires OneEach(before) && |made| <= 1 && forall o, m :: o in before && m in made ==> o.row != m.row
    ensures OneEach(before + made)
  {
    assert forall i :: 0 <= i < |before| ==> before[i] in before;
    assert forall i :: 0 <= i < |made| ==> made[i] in made;
  }

  lemma MadeByStep(o: Offer, rows: seq<RowData>, candidates: seq<nat>, answers: seq<Answer>, front: seq<nat>, job: nat)
    requires WellPosed(rows, candidates, answers) && JobLog(front, |candidates|) && JobLog(front + [job], |candidates|)
    ensures MadeBy(o, rows, candidates, answers, front + [job]) <==>
      MadeBy(o, rows, candidates, answers, front) || (OnJob(rows, candidates, answers, Offers)(job) && o == Offer(candidates[job], answers[job].archive.url))
  {
    assert forall j :: j in front + [job] <==> j in front || j == job;
  }

  ghost predicate OneEach(offers: seq<Offer>) {
    forall i, j :: 0 <= i < j < |offers| ==> offers[i].row != offers[j].row
  }

  ghost predicate MadeBy(o: Offer, rows: seq<RowData>, candidates: seq<nat>, answers: seq<Answer>, log: seq<nat>)
    requires WellPosed(rows, candidates, answers) && JobLog(log, |candidates|)
  {
    exists job :: job in log && OnJob(rows, candidates, answers, Offers)(job) && o == Offer(candidates[job], answers[job].archive.url)
  }

  lemma SameOffers(rows: seq<RowData>, candidates: seq<nat>, answers: seq<Answer>, log: seq<nat>, log': seq<nat>)
    requires WellPosed(rows, candidates, answers) && JobLog(log, |candidates|) && JobLog(log', |candidates|)
    requires Elements(log) == Elements(log')
    ensures multiset(OffersOf(rows, candidates, answers, log)) == multiset(OffersOf(rows, candidates, answers, log'))
  {
    var a, b := OffersOf(rows, candidates, answers, log), OffersOf(rows, candidates, answers, log');
    OffersFacts(rows, candidates, answers, log);
    OffersFacts(rows, candidates, answers, log');
    assert forall job :: job in log <==> job in Elements(log);
    assert forall job :: job in log' <==> job in Elements(log');
    forall o
      ensures o in a <==> o in b
    {
      assert MadeBy(o, rows, candidates, answers, log) <==> MadeBy(o, rows, candidates, answers, log');
    }
    assert Elements(a) == Elements(b);
    DistinctSameElements(a, b);
  }

  // ---------------------------------------------------------------- what the counts mean

  predicate Twice(row: RowData, a: Answer) { Resolves(row, a) && Fails(row, a) }
  predicate Neither(row: RowData, a: Answer) { !Resolves(row, a) && !Fails(row, a) }

  lemma {:induction false} CountsOfLog(rows: seq<RowData>, candidates: seq<nat>, answers: seq<Answer>, log: seq<nat>)
    requires WellPosed(rows, candidates, answers) && JobLog(log, |candidates|)
    ensures Tally(log, OnJob(rows, candidates, answers, Resolves)) + Tally(log, OnJob(rows, candidates, answers, Fails))
          + Tally(log, OnJob(rows, candidates, answers, Neither))
         == |log| + Tally(log, OnJob(rows, candidates, answers, Twice))
  {
    if log != [] {
      var front, job := log[..|log| - 1], log[|log| - 1];
      assert log == front + [job];
      assert job in log && forall j :: j in front ==> j in log;
      assert candidates[job] in candidates;
      CountsOfLog(rows, candidates, answers, front);
      TallyStep(front, job, OnJob(rows, candidates, answers, Resolves));
      TallyStep(front, job, OnJob(rows, candidates, answers, Fails));
      TallyStep(front, job, OnJob(rows, candidates, answers, Neither));
      TallyStep(front, job, OnJob(rows, candidates, answers, Twice));
      var row, a := rows[candidates[job]], answers[job];
      assert OnJob(rows, candidates, answers, Resolves)(job) == Resolves(row, a);
      assert OnJob(rows, candidates, answers, Fails)(job) == Fails(row, a);
      assert OnJob(rows, candidates, answers, Neither)(job) == Neither(row, a);
      assert OnJob(rows, candidates, answers, Twice)(job) == Twice(row, a);
    }
  }

  lemma {:induction false} TallyZero(log: seq<nat>, test: nat -> bool)
    ensures Tally(log, test) == 0 <==> forall job :: job in log ==> !test(job)
  {
    if log != [] {
      assert log == log[..|log| - 1] + [log[|log| - 1]];
      TallyZero(log[..|log| - 1], test);
    }
  }

  // How many of the finished jobs neither resolved a licence nor failed.
  function Quiet(rows: seq<RowData>, candidates: seq<nat>, answers: seq<Answer>, log: seq<nat>): nat {
    Tally(log, OnJob(rows, candidates, answers, Neither))
  }

  ghost predicate NoneTwice(rows: seq<RowData>, candidates: seq<nat>, answers: seq<Answer>) {
    forall job: nat :: job < |candidates| ==> !OnJob(rows, candidates, answers, Twice)(job)
  }

  lemma CountsAddUp(b: Books, rows: seq<RowData>, candidates: seq<nat>, answers: seq<Answer>, log: seq<nat>)
    requires WellPosed(rows, candidates, answers) && JobLog(log, |candidates|) && BooksOf(b, rows, candidates, answers, log)
    requires forall job: nat :: job < |candidates| ==> job in log
    ensures b.resolved + b.failures + Quiet(rows, candidates, answers, log) >= |log|
    ensures b.resolved + b.failures + Quiet(rows, candidates, answers, log) == |log| <==> NoneTwice(rows, candidates, answers)
  {
    CountsOfLog(rows, candidates, answers, log);
    TallyZero(log, OnJob(rows, candidates, answers, Twice));
  }

  // At the end the report accounts for every attempt exactly once (resolved, failed or neither), except that
  // an answer which resolves a licence and then gives a malformed archive address counts as both.
  lemma CountedTwice(rows: seq<RowData>, candidates: seq<nat>, answers: seq<Answer>, size: nat, schedule: seq<nat>)
    requires WellPosed(rows, candidates, answers) && size > 0
    requires Complete(FirstPass(rows, candidates, answers, size, schedule))
    ensures var p := FirstPass(rows, candidates, answers, size, schedule);
            var accounted := p.shared.resolved + p.shared.failures + Quiet(rows, candidates, answers, p.finished);
            accounted >= p.attempted && (accounted == p.attempted <==> NoneTwice(rows, candidates, answers))
  {
    var p := FirstPass(rows, candidates, answers, size, schedule);
    CompleteRun(size, Books(rows, 0, 0, []), schedule, |candidates|, Registry(candidates, answers));
    FirstPassBooks(rows, candidates, answers, size, schedule);
    assert forall job: nat :: job in p.finished <==> job in Elements(p.finished);
    CountsAddUp(p.shared, rows, candidates, answers, p.finished);
  }
}
