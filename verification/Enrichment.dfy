// Both registry passes one after the other: what does, and what does not, depend on the schedule.
module Enrichment {
  import opened Sequences
  import opened Sorting
  import opened Spdx
  import opened LicenseRows
  import opened WorkerPool
  import opened PoolSchedules
  import opened RegistryPasses
  import opened NoticePass

  // The second pass behind a first one; `reply` is what reading an offered archive gives, whenever it is read.
  function Enrich(books: Books, limit: nat, reply: Offer -> Reply, size: nat, schedule: seq<nat>): Pool<Shelf> {
    var queue := Queue(books.offers, limit);
    SecondPass(books.rows, queue, Map(reply, queue), size, schedule)
  }

  function Upto(n: nat): (jobs: seq<nat>)
    ensures |jobs| == n && forall i :: 0 <= i < n ==> jobs[i] == i
  {
    seq(n, i => i)
  }

  // How many archives the answers offer, whatever the schedule.
  function OfferCount(rows: seq<RowData>, candidates: seq<nat>, answers: seq<Answer>): nat {
    Tally(Upto(|candidates|), OnJob(rows, candidates, answers, Offers))
  }

  lemma {:induction false} OffersCounted(rows: seq<RowData>, candidates: seq<nat>, answers: seq<Answer>, log: seq<nat>)
    ensures |OffersOf(rows, candidates, answers, log)| == Tally(log, OnJob(rows, candidates, answers, Offers))
  {
    if log != [] {
      OffersCounted(rows, candidates, answers, log[..|log| - 1]);
    }
  }

  lemma AllOffers(rows: seq<RowData>, candidates: seq<nat>, answers: seq<Answer>, size: nat, schedule: seq<nat>)
    requires WellPosed(rows, candidates, answers) && (size > 0 || candidates == [])
    requires Complete(FirstPass(rows, candidates, answers, size, schedule))
    ensures |FirstPass(rows, candidates, answers, size, schedule).shared.offers| == OfferCount(rows, candidates, answers)
  {
    var log := FirstPass(rows, candidates, answers, size, schedule).finished;
    CompleteRun(size, Books(rows, 0, 0, []), schedule, |candidates|, Registry(candidates, answers));
    FirstPassBooks(rows, candidates, answers, size, schedule);
    OffersCounted(rows, candidates, answers, log);
    UptoElements(|candidates|);
    TallyOfSet(log, Upto(|candidates|), OnJob(rows, candidates, answers, Offers));
  }

  lemma UptoElements(n: nat)
    ensures Distinct(Upto(n)) && Elements(Upto(n)) == Below(n)
  {
    forall i: nat | i < n
      ensures i in Upto(n)
    {
      assert Upto(n)[i] == i;
    }
  }

  // ---------------------------------------------------------------- enough room for every offer

  ghost predicate SameShelf(s: Shelf, t: Shelf) {
    s.rows == t.rows && s.resolved == t.resolved && multiset(s.failed) == multiset(t.failed) && multiset(s.sections) == multiset(t.sections)
  }

  // Two queues with the same offers leave the same shelf, up to the order of the lists.
  lemma SameQueue(rows: seq<RowData>, a: seq<Offer>, b: seq<Offer>, reply: Offer -> Reply, s: Shelf, t: Shelf)
    requires multiset(a) == multiset(b)
    requires Fetchable(rows, a, Map(reply, a)) && Fetchable(rows, b, Map(reply, b))
    requires AllShelved(s, rows, a, Map(reply, a)) && AllShelved(t, rows, b, Map(reply, b))
    ensures SameShelf(s, t)
  {
    HalfShelf(rows, a, b, reply, s, t);
    HalfShelf(rows, b, a, reply, t, s);
    assert Elements(s.failed) == Elements(t.failed) && Elements(s.sections) == Elements(t.sections);
    DistinctSameElements(s.failed, t.failed);
    DistinctSameElements(s.sections, t.sections);
    assert |multiset(s.sections)| == |multiset(t.sections)|;
  }

  lemma HalfShelf(rows: seq<RowData>, a: seq<Offer>, b: seq<Offer>, reply: Offer -> Reply, s: Shelf, t: Shelf)
    requires multiset(a) == multiset(b)
    requires Fetchable(rows, a, Map(reply, a)) && Fetchable(rows, b, Map(reply, b))
    requires AllShelved(s, rows, a, Map(reply, a)) && AllShelved(t, rows, b, Map(reply, b))
    ensures forall i :: 0 <= i < |rows| && Queued(a, i) ==> s.rows[i] == t.rows[i]
    ensures forall i :: 0 <= i < |rows| && !Queued(a, i) && !Queued(b, i) ==> s.rows[i] == t.rows[i]
    ensures forall i :: i in s.failed ==> i in t.failed
    ensures forall i :: i in s.sections ==> i in t.sections
  {
    forall i: nat | Queued(a, i)
      ensures i < |rows| && s.rows[i] == t.rows[i] && (i in s.failed ==> i in t.failed) && (i in s.sections ==> i in t.sections)
    {
      var job :| 0 <= job < |a| && a[job].row == i;
      var other := Other(a, b, job);
      assert b[other] == a[job];
    }
  }

  lemma Other(a: seq<Offer>, b: seq<Offer>, job: nat) returns (other: nat)
    requires multiset(a) == multiset(b) && job < |a|
    ensures other < |b| && b[other] == a[job]
  {
    assert a[job] in multiset(b);
    other :| 0 <= other < |b| && b[other] == a[job];
  }

  // Complete runs of both passes whose queues hold the same offers leave the same shelf, for every number of
  // workers and every schedule.
  lemma QueuesDecide(rows: seq<RowData>, candidates: seq<nat>, answers: seq<Answer>, limit: nat, reply: Offer -> Reply,
                     n1: nat, s1: seq<nat>, n2: nat, s2: seq<nat>, n1': nat, s1': seq<nat>, n2': nat, s2': seq<nat>)
    requires WellPosed(rows, candidates, answers) && (candidates == [] || (n1 > 0 && n1' > 0))
    requires Complete(FirstPass(rows, candidates, answers, n1, s1)) && Complete(FirstPass(rows, candidates, answers, n1', s1'))
    requires Complete(Enrich(FirstPass(rows, candidates, answers, n1, s1).shared, limit, reply, n2, s2))
    requires Complete(Enrich(FirstPass(rows, candidates, answers, n1', s1').shared, limit, reply, n2', s2'))
    requires var a := Queue(FirstPass(rows, candidates, answers, n1, s1).shared.offers, limit);
             var b := Queue(FirstPass(rows, candidates, answers, n1', s1').shared.offers, limit);
             multiset(a) == multiset(b) && (a == [] || n2 > 0) && (b == [] || n2' > 0)
    ensures var p := Enrich(FirstPass(rows, candidates, answers, n1, s1).shared, limit, reply, n2, s2);
            var q := Enrich(FirstPass(rows, candidates, answers, n1', s1').shared, limit, reply, n2', s2');
            && p.attempted == q.attempted == |Queue(FirstPass(rows, candidates, answers, n1, s1).shared.offers, limit)|
            && SameShelf(p.shared, q.shared)
  {
    var b, b' := FirstPass(rows, candidates, answers, n1, s1).shared, FirstPass(rows, candidates, answers, n1', s1').shared;
    var queue, queue' := Queue(b.offers, limit), Queue(b'.offers, limit);
    ScheduleIndependent(rows, candidates, answers, n1, s1, n1', s1');
    QueueFetchable(rows, candidates, answers, n1, s1, limit, Map(reply, queue));
    QueueFetchable(rows, candidates, answers, n1', s1', limit, Map(reply, queue'));
    CompletePass(b.rows, queue, Map(reply, queue), n2, s2);
    CompletePass(b'.rows, queue', Map(reply, queue'), n2', s2');
    SameQueue(b.rows, queue, queue', reply, Enrich(b, limit, reply, n2, s2).shared, Enrich(b', limit, reply, n2', s2').shared);
    assert |multiset(queue)| == |multiset(queue')|;
  }

  // When the archive limit has room for every offer, the final rows and counts of both passes are the same
  // for every number of workers and every schedule of both.
  lemma EnrichIndependent(rows: seq<RowData>, candidates: seq<nat>, answers: seq<Answer>, limit: nat, reply: Offer -> Reply,
                          n1: nat, s1: seq<nat>, n2: nat, s2: seq<nat>, n1': nat, s1': seq<nat>, n2': nat, s2': seq<nat>)
    requires WellPosed(rows, candidates, answers) && n1 > 0 && n2 > 0 && n1' > 0 && n2' > 0
    requires Complete(FirstPass(rows, candidates, answers, n1, s1)) && Complete(FirstPass(rows, candidates, answers, n1', s1'))
    requires Complete(Enrich(FirstPass(rows, candidates, answers, n1, s1).shared, limit, reply, n2, s2))
    requires Complete(Enrich(FirstPass(rows, candidates, answers, n1', s1').shared, limit, reply, n2', s2'))
    requires OfferCount(rows, candidates, answers) <= limit
    ensures var p := Enrich(FirstPass(rows, candidates, answers, n1, s1).shared, limit, reply, n2, s2);
            var q := Enrich(FirstPass(rows, candidates, answers, n1', s1').shared, limit, reply, n2', s2');
            p.attempted == q.attempted == OfferCount(rows, candidates, answers) && SameShelf(p.shared, q.shared)
  {
    ScheduleIndependent(rows, candidates, answers, n1, s1, n1', s1');
    AllOffers(rows, candidates, answers, n1, s1);
    AllOffers(rows, candidates, answers, n1', s1');
    QueuesDecide(rows, candidates, answers, limit, reply, n1, s1, n2, s2, n1', s1', n2', s2');
  }

  // ---------------------------------------------------------------- too little room, and a row counted twice

  function NpmRow(name: string, license: string): RowData {
    RowData(NpmRoot, name, "1.0.0", license, None, None, false, false, None, None, license)
  }

  function OfferingAnswer(url: string): Answer {
    Described("MIT", "MIT", "registry", Archive(url))
  }

  // Wanted rows with licences that are alike known or unknown are candidates in their order.
  lemma CandidatesOfOne(rows: seq<RowData>, one: seq<nat>)
    requires |rows| == 1 && Wanted(rows[0]) && one == [0]
    ensures Indices(rows, Wanted) == one && Candidates(rows, 256) == one
  {
    assert rows[..0] == [] && Indices(rows, Wanted) == [] + one;
    SortOne(0, UnlicensedFirst(rows));
  }

  lemma CandidatesOfTwo(rows: seq<RowData>, both: seq<nat>)
    requires |rows| == 2 && Wanted(rows[0]) && Wanted(rows[1]) && rows[0].license == rows[1].license && both == [0, 1]
    ensures Candidates(rows, 256) == both
  {
    CandidatesOfOne(rows[..1], [0]);
    assert Indices(rows, Wanted) == [0] + [1] == both;
    SortTwo(0, 1, UnlicensedFirst(rows));
  }

  lemma SortOne(x: nat, le: (nat, nat) -> bool)
    ensures Sort([x], le) == [x]
  {
    var one: seq<nat> := [x];
    assert one[1..] == [] && Sort(one, le) == Insert(x, Sort(one[1..], le), le);
  }

  lemma SortTwo(x: nat, y: nat, le: (nat, nat) -> bool)
    requires le(x, y)
    ensures Sort([x, y], le) == [x, y]
  {
    var two: seq<nat> := [x, y];
    SortOne(y, le);
    assert two[1..] == [y] && Sort(two, le) == Insert(x, [y], le);
  }

  // Two packages offer an archive each and there is room for one: which row gets its notice depends on which
  // answer came first.
  lemma LimitDependsOnSchedule(rows: seq<RowData>, answers: seq<Answer>, reply: Offer -> Reply, both: seq<nat>, first: nat, second: nat)
    requires rows == [NpmRow("a", "MIT"), NpmRow("b", "MIT")] && answers == [OfferingAnswer("a"), OfferingAnswer("b")]
    requires both == [0, 1] && ((first == 0 && second == 1) || (first == 1 && second == 0))
    requires forall o :: reply(o) == Files(["LICENSE"])
    ensures Candidates(rows, 256) == both
    ensures var p := FirstPass(rows, both, answers, 2, [0, 1] + [first] + [second] + [0] + [1]);
            var q := Enrich(p.shared, 1, reply, 1, [0, 0, 0]);
            && Complete(p) && Complete(q) && OfferCount(rows, both, answers) == 2
            && |q.shared.rows| == 2 && HasNotice(q.shared.rows[first]) && !HasNotice(q.shared.rows[second])
  {
    CandidatesOfTwo(rows, both);
    RoomForOne(rows, answers, reply, first, second);
  }

  lemma RoomForOne(rows: seq<RowData>, answers: seq<Answer>, reply: Offer -> Reply, first: nat, second: nat)
    requires rows == [NpmRow("a", "MIT"), NpmRow("b", "MIT")] && answers == [OfferingAnswer("a"), OfferingAnswer("b")]
    requires (first == 0 && second == 1) || (first == 1 && second == 0)
    requires forall o :: reply(o) == Files(["LICENSE"])
    ensures var p := FirstPass(rows, [0, 1], answers, 2, [0, 1] + [first] + [second] + [0] + [1]);
            var q := Enrich(p.shared, 1, reply, 1, [0, 0, 0]);
            && Complete(p) && Complete(q) && OfferCount(rows, [0, 1], answers) == 2
            && |q.shared.rows| == 2 && HasNotice(q.shared.rows[first]) && !HasNotice(q.shared.rows[second])
  {
    OfferOrder(rows, answers, first, second);
    var steps := [0, 1] + [first] + [second] + [0] + [1];
    var p := FirstPass(rows, [0, 1], answers, 2, steps);
    assert Queue(p.shared.offers, 1) == [OfferOf(answers, first)];
    OneJob(Shelf(rows, 0, [], []), Archives([OfferOf(answers, first)], Map(reply, [OfferOf(answers, first)])));
    AllOffers(rows, [0, 1], answers, 2, steps);
  }

  function OfferOf(answers: seq<Answer>, job: nat): Offer
    requires job < |answers| && answers[job].Described? && answers[job].archive.Archive?
  {
    Offer(job, answers[job].archive.url)
  }

  lemma OfferOrder(rows: seq<RowData>, answers: seq<Answer>, first: nat, second: nat)
    requires rows == [NpmRow("a", "MIT"), NpmRow("b", "MIT")] && answers == [OfferingAnswer("a"), OfferingAnswer("b")]
    requires (first == 0 && second == 1) || (first == 1 && second == 0)
    ensures FirstPass(rows, [0, 1], answers, 2, [0, 1] + [first] + [second] + [0] + [1])
         == Pool(2, 2, [Left, Left], Books(rows, 0, 0, [OfferOf(answers, first), OfferOf(answers, second)]), [first, second])
  {
    var settle := Registry([0, 1], answers);
    var start := Books(rows, 0, 0, []);
    TwoJobs(start, settle, first, second);
    OneOffer(start, rows, answers, first);
    OneOffer(settle(start, first), rows, answers, second);
    assert [] + [OfferOf(answers, first)] + [OfferOf(answers, second)] == [OfferOf(answers, first), OfferOf(answers, second)];
  }

  // An answer that only offers an archive.
  lemma OneOffer(b: Books, rows: seq<RowData>, answers: seq<Answer>, job: nat)
    requires rows == [NpmRow("a", "MIT"), NpmRow("b", "MIT")] && answers == [OfferingAnswer("a"), OfferingAnswer("b")]
    requires b.rows == rows && job < 2
    ensures Registry([0, 1], answers)(b, job)
         == Books(rows, b.resolved, b.failures, b.offers + [OfferOf(answers, job)])
  {
    assert rows[job := rows[job]] == rows;
  }

  // One package whose licence is read and whose archive address is malformed counts as resolved and as failed.
  lemma ResolvedAndFailed(rows: seq<RowData>, answers: seq<Answer>)
    requires rows == [NpmRow("a", NOASSERTION)] && answers == [Described("MIT", "MIT", "registry", Malformed)]
    ensures Candidates(rows, 256) == [0]
    ensures var p := FirstPass(rows, [0], answers, 1, [0, 0, 0]);
            Complete(p) && p.attempted == 1 && p.shared.resolved == 1 && p.shared.failures == 1
  {
    CandidatesOfOne(rows, [0]);
    OneJob(Books(rows, 0, 0, []), Registry([0], answers));
  }

  // ---------------------------------------------------------------- the licence the SBOM declares

  // If the SBOM declared every row's licence before, it does so after the first pass.
  lemma SbomFollows(rows: seq<RowData>, candidates: seq<nat>, answers: seq<Answer>, size: nat, schedule: seq<nat>)
    requires WellPosed(rows, candidates, answers)
    requires forall i :: 0 <= i < |rows| ==> rows[i].declared == rows[i].license
    ensures var now := FirstPass(rows, candidates, answers, size, schedule).shared.rows;
            forall i :: 0 <= i < |now| ==> now[i].declared == now[i].license
  {
    FirstPassBooks(rows, candidates, answers, size, schedule);
    var now := FirstPass(rows, candidates, answers, size, schedule).shared.rows;
    forall i | 0 <= i < |now|
      ensures now[i].declared == now[i].license
    {
      if i in candidates {
        var job :| 0 <= job < |candidates| && candidates[job] == i;
      }
    }
  }
}
