// When the two registry passes depend on their schedule.
module OfferLimit {
  // For a given concurrency, every schedule of both passes leads to the same report if and only if the archive
  // limit has room for every offer, or for none, or there is only one worker.

  import opened Sequences
  import opened LicenseRows
  import opened WorkerPool
  import opened PoolSchedules
  import opened RegistryPasses
  import opened NoticePass
  import opened Enrichment

  datatype Setting = Setting(rows: seq<RowData>, candidates: seq<nat>, answers: seq<Answer>, limit: nat, concurrency: nat)
  datatype Turns = Turns(first: seq<nat>, second: seq<nat>)

  // As many workers as the concurrency allows, and no more than there are jobs.
  function Workers(concurrency: nat, jobs: nat): nat {
    if concurrency < jobs then concurrency else jobs
  }

  ghost predicate Posed(x: Setting) {
    WellPosed(x.rows, x.candidates, x.answers) && x.concurrency > 0
  }

  function First(x: Setting, t: Turns): Pool<Books> {
    FirstPass(x.rows, x.candidates, x.answers, Workers(x.concurrency, |x.candidates|), t.first)
  }

  function FetchQueue(x: Setting, t: Turns): seq<Offer> {
    Queue(First(x, t).shared.offers, x.limit)
  }

  function Second(x: Setting, reply: Offer -> Reply, t: Turns): Pool<Shelf> {
    Enrich(First(x, t).shared, x.limit, reply, Workers(x.concurrency, |FetchQueue(x, t)|), t.second)
  }

  ghost predicate Finishes(x: Setting, reply: Offer -> Reply, t: Turns) {
    Complete(First(x, t)) && Complete(Second(x, reply, t))
  }

  // The counts of both passes, the final rows, and the lists up to their order.
  ghost predicate SameReport(x: Setting, reply: Offer -> Reply, t: Turns, u: Turns) {
    && First(x, t).attempted == First(x, u).attempted
    && First(x, t).shared.resolved == First(x, u).shared.resolved
    && First(x, t).shared.failures == First(x, u).shared.failures
    && Second(x, reply, t).attempted == Second(x, reply, u).attempted
    && SameShelf(Second(x, reply, t).shared, Second(x, reply, u).shared)
  }

  ghost predicate Independent(x: Setting) {
    forall reply, t, u :: Finishes(x, reply, t) && Finishes(x, reply, u) ==> SameReport(x, reply, t, u)
  }

  function Offered(x: Setting): nat {
    OfferCount(x.rows, x.candidates, x.answers)
  }

  // ---------------------------------------------------------------- when all schedules agree

  lemma SameQueueSameReport(x: Setting, reply: Offer -> Reply, t: Turns, u: Turns)
    requires Posed(x) && Finishes(x, reply, t) && Finishes(x, reply, u)
    requires multiset(FetchQueue(x, t)) == multiset(FetchQueue(x, u))
    ensures SameReport(x, reply, t, u)
  {
    var n, n2, n2' := Workers(x.concurrency, |x.candidates|), Workers(x.concurrency, |FetchQueue(x, t)|), Workers(x.concurrency, |FetchQueue(x, u)|);
    ScheduleIndependent(x.rows, x.candidates, x.answers, n, t.first, n, u.first);
    QueuesDecide(x.rows, x.candidates, x.answers, x.limit, reply, n, t.first, n2, t.second, n, u.first, n2', u.second);
  }

  lemma RoomForAll(x: Setting, t: Turns, u: Turns)
    requires Posed(x) && Complete(First(x, t)) && Complete(First(x, u))
    requires Offered(x) <= x.limit
    ensures multiset(FetchQueue(x, t)) == multiset(FetchQueue(x, u))
  {
    var n := Workers(x.concurrency, |x.candidates|);
    ScheduleIndependent(x.rows, x.candidates, x.answers, n, t.first, n, u.first);
    AllOffers(x.rows, x.candidates, x.answers, n, t.first);
    AllOffers(x.rows, x.candidates, x.answers, n, u.first);
  }

  lemma OneWorker(x: Setting, t: Turns, u: Turns)
    requires Posed(x) && x.concurrency == 1 && Complete(First(x, t)) && Complete(First(x, u))
    ensures FetchQueue(x, t) == FetchQueue(x, u)
  {
    if x.candidates != [] {
      AloneLog(x, t);
      AloneLog(x, u);
    }
    OffersOfLog(x, t);
    OffersOfLog(x, u);
    if x.candidates == [] {
      NoJobs(First(x, t).finished);
      NoJobs(First(x, u).finished);
    }
  }

  lemma NoJobs(log: seq<nat>)
    ensures JobLog(log, 0) ==> log == []
  {
    assert log != [] ==> log[0] in log;
  }

  lemma AloneLog(x: Setting, t: Turns)
    requires Posed(x) && x.concurrency == 1 && x.candidates != [] && Complete(First(x, t))
    ensures First(x, t).finished == Range(0, |x.candidates|)
  {
    var jobs, settle, start := |x.candidates|, Registry(x.candidates, x.answers), Books(x.rows, 0, 0, []);
    AloneInOrder(start, t.first, jobs, settle);
    CompleteRun(1, start, t.first, jobs, settle);
    assert First(x, t).workers[0] in First(x, t).workers;
  }

  lemma OffersOfLog(x: Setting, t: Turns)
    requires Posed(x)
    ensures JobLog(First(x, t).finished, |x.candidates|)
    ensures First(x, t).shared.offers == OffersOf(x.rows, x.candidates, x.answers, First(x, t).finished)
  {
    FirstPassBooks(x.rows, x.candidates, x.answers, Workers(x.concurrency, |x.candidates|), t.first);
  }

  // ---------------------------------------------------------------- two schedules that disagree

  lemma {:induction false} OffersAppend(x: Setting, a: seq<nat>, b: seq<nat>)
    ensures OffersOf(x.rows, x.candidates, x.answers, a + b)
         == OffersOf(x.rows, x.candidates, x.answers, a) + OffersOf(x.rows, x.candidates, x.answers, b)
  {
    if b == [] {
      assert a + b == a;
    } else {
      assert (a + b)[..|a + b| - 1] == a + b[..|b| - 1];
      OffersAppend(x, a, b[..|b| - 1]);
    }
  }

  predicate MakesOffer(x: Setting, job: nat) {
    && job < |x.candidates| && job < |x.answers| && x.candidates[job] < |x.rows|
    && Offers(x.rows[x.candidates[job]], x.answers[job])
  }

  function OfferBy(x: Setting, job: nat): Offer
    requires MakesOffer(x, job)
  {
    Offer(x.candidates[job], x.answers[job].archive.url)
  }

  lemma OneJobOffers(x: Setting, job: nat)
    ensures OffersOf(x.rows, x.candidates, x.answers, [job]) == if MakesOffer(x, job) then [OfferBy(x, job)] else []
  {
    assert [job][..0] == [];
    assert OnJob(x.rows, x.candidates, x.answers, Offers)(job) == MakesOffer(x, job);
  }

  // The first job that offers an archive.
  lemma FirstOffering(x: Setting) returns (job: nat)
    requires Offered(x) > 0
    ensures job < |x.candidates| && MakesOffer(x, job)
    ensures OffersOf(x.rows, x.candidates, x.answers, Range(0, job)) == []
  {
    var n := |x.candidates|;
    OffersCounted(x.rows, x.candidates, x.answers, Range(0, n));
    assert Range(0, n) == Upto(n);
    job := 0;
    assert Range(0, 0) == [];
    while job < n && !MakesOffer(x, job)
      invariant job <= n
      invariant OffersOf(x.rows, x.candidates, x.answers, Range(0, job)) == []
    {
      assert Range(0, job + 1) == Range(0, job) + [job];
      OffersAppend(x, Range(0, job), [job]);
      OneJobOffers(x, job);
      job := job + 1;
    }
  }

  // In order the first offering job makes the first offer; held back it makes the last.
  lemma OfferFirstOrLast(x: Setting, job: nat)
    requires job < |x.candidates| && MakesOffer(x, job)
    requires OffersOf(x.rows, x.candidates, x.answers, Range(0, job)) == []
    ensures var rest := OffersOf(x.rows, x.candidates, x.answers, Range(job + 1, |x.candidates|));
            && OffersOf(x.rows, x.candidates, x.answers, Range(0, |x.candidates|)) == [OfferBy(x, job)] + rest
            && OffersOf(x.rows, x.candidates, x.answers, (Range(0, job) + Range(job + 1, |x.candidates|)) + [job]) == rest + [OfferBy(x, job)]
  {
    var n := |x.candidates|;
    OneJobOffers(x, job);
    assert Range(0, n) == Range(0, job) + [job] + Range(job + 1, n);
    OffersAround(x, Range(0, job), [job], Range(job + 1, n));
  }

  lemma OffersAround(x: Setting, a: seq<nat>, b: seq<nat>, c: seq<nat>)
    requires OffersOf(x.rows, x.candidates, x.answers, a) == []
    ensures var made, rest := OffersOf(x.rows, x.candidates, x.answers, b), OffersOf(x.rows, x.candidates, x.answers, c);
            && OffersOf(x.rows, x.candidates, x.answers, a + b + c) == made + rest
            && OffersOf(x.rows, x.candidates, x.answers, (a + c) + b) == rest + made
  {
    OffersAppend(x, a, b);
    OffersAppend(x, a + b, c);
    OffersAppend(x, a, c);
    OffersAppend(x, a + c, b);
  }

  // Both passes in order, and a first pass that holds one job back.
  function Ordered(x: Setting, queue: nat): Turns {
    Turns(InOrder(Workers(x.concurrency, |x.candidates|), |x.candidates|), InOrder(Workers(x.concurrency, queue), queue))
  }

  function Held(x: Setting, job: nat, queue: nat): Turns
    requires job < |x.candidates|
  {
    Turns(HeldBack(Workers(x.concurrency, |x.candidates|), job, |x.candidates|), InOrder(Workers(x.concurrency, queue), queue))
  }

  lemma OrderedFirst(x: Setting, queue: nat)
    requires Posed(x) && x.candidates != []
    ensures Complete(First(x, Ordered(x, queue))) && First(x, Ordered(x, queue)).finished == Range(0, |x.candidates|)
  {
    InOrderEnds(Workers(x.concurrency, |x.candidates|), Books(x.rows, 0, 0, []), |x.candidates|, Registry(x.candidates, x.answers));
  }

  lemma HeldFirst(x: Setting, job: nat, queue: nat)
    requires Posed(x) && job < |x.candidates| && x.concurrency > 1 && |x.candidates| > 1
    ensures var p := First(x, Held(x, job, queue));
            Complete(p) && p.finished == (Range(0, job) + Range(job + 1, |x.candidates|)) + [job]
  {
    HeldBackEnds(Workers(x.concurrency, |x.candidates|), Books(x.rows, 0, 0, []), job, |x.candidates|, Registry(x.candidates, x.answers));
  }

  // A second pass that works in order completes, and it reads the archive of every queued row and of no other.
  lemma SecondInOrder(x: Setting, reply: Offer -> Reply, t: Turns, i: nat)
    requires Posed(x) && i < |x.rows| && !HasNotice(x.rows[i])
    requires FetchQueue(x, t) != [] && t.second == InOrder(Workers(x.concurrency, |FetchQueue(x, t)|), |FetchQueue(x, t)|)
    requires forall o :: reply(o) == Files(["LICENSE"])
    ensures Complete(Second(x, reply, t)) && |Second(x, reply, t).shared.rows| == |x.rows|
    ensures HasNotice(Second(x, reply, t).shared.rows[i]) <==> Queued(FetchQueue(x, t), i)
  {
    var b, queue := First(x, t).shared, FetchQueue(x, t);
    var n, size := Workers(x.concurrency, |x.candidates|), Workers(x.concurrency, |queue|);
    InOrderEnds(size, Shelf(b.rows, 0, [], []), |queue|, Archives(queue, Map(reply, queue)));
    FirstPassBooks(x.rows, x.candidates, x.answers, n, t.first);
    NoticesKept(b, x.rows, x.candidates, x.answers, First(x, t).finished, i);
    QueueFetchable(x.rows, x.candidates, x.answers, n, t.first, x.limit, Map(reply, queue));
    CompletePass(b.rows, queue, Map(reply, queue), size, t.second);
  }

  // Two runs of the first pass whose offers begin, and end, with the same job's: cut, the queues differ in its row.
  lemma CutDiffers(x: Setting, t: Turns, u: Turns, job: nat)
    requires Posed(x) && 0 < x.limit < Offered(x) && MakesOffer(x, job)
    requires Complete(First(x, t)) && Complete(First(x, u))
    requires First(x, t).shared.offers != [] && First(x, t).shared.offers[0] == OfferBy(x, job)
    requires First(x, u).shared.offers != [] && First(x, u).shared.offers[|First(x, u).shared.offers| - 1] == OfferBy(x, job)
    ensures |FetchQueue(x, t)| == |FetchQueue(x, u)| == x.limit
    ensures Queued(FetchQueue(x, t), x.candidates[job]) && !Queued(FetchQueue(x, u), x.candidates[job])
  {
    var n := Workers(x.concurrency, |x.candidates|);
    AllOffers(x.rows, x.candidates, x.answers, n, t.first);
    AllOffers(x.rows, x.candidates, x.answers, n, u.first);
    OffersOfLog(x, u);
    OffersFacts(x.rows, x.candidates, x.answers, First(x, u).finished);
    assert FetchQueue(x, t)[0].row == x.candidates[job];
  }

  lemma Disagree(x: Setting, reply: Offer -> Reply) returns (t: Turns, u: Turns)
    requires Posed(x) && x.concurrency > 1 && 0 < x.limit < Offered(x)
    requires forall o :: reply(o) == Files(["LICENSE"])
    ensures Finishes(x, reply, t) && Finishes(x, reply, u) && !SameReport(x, reply, t, u)
  {
    var job := FirstOffering(x);
    var i := x.candidates[job];
    assert i in x.candidates && Offered(x) <= |x.candidates|;
    t, u := Ordered(x, x.limit), Held(x, job, x.limit);
    OrderedFirst(x, x.limit);
    HeldFirst(x, job, x.limit);
    OfferFirstOrLast(x, job);
    OffersOfLog(x, t);
    OffersOfLog(x, u);
    CutDiffers(x, t, u, job);
    SecondInOrder(x, reply, t, i);
    SecondInOrder(x, reply, u, i);
  }

  // Every schedule of both passes leads to the same report, whatever the archives hold, exactly when the archive
  // limit has room for every offer or for none, or one worker does everything.
  lemma IndependentExactly(x: Setting)
    requires Posed(x)
    ensures Independent(x) <==> Offered(x) <= x.limit || x.limit == 0 || x.concurrency == 1
  {
    if Offered(x) <= x.limit || x.limit == 0 || x.concurrency == 1 {
      forall reply, t, u | Finishes(x, reply, t) && Finishes(x, reply, u)
        ensures SameReport(x, reply, t, u)
      {
        if Offered(x) <= x.limit {
          RoomForAll(x, t, u);
        } else if x.limit > 0 {
          OneWorker(x, t, u);
        }
        SameQueueSameReport(x, reply, t, u);
      }
    } else {
      var t, u := Disagree(x, o => Files(["LICENSE"]));
    }
  }
}
