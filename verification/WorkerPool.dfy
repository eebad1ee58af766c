// Cooperative workers that share a cursor over a list of jobs.
module WorkerPool {
  // What a worker does between two awaits is one atomic turn; a schedule is the list of workers that get
  // the turns. Both passes over the registries are of this kind.

  import opened Sequences

  // A worker is about to look at the cursor, waits for the answer to the job it took, or has left its loop.
  datatype Worker = Looking | Waiting(job: nat) | Left

  // `shared` is what the jobs write to; `finished` lists the jobs in the order in which they wrote.
  datatype Pool<S> = Pool(cursor: nat, attempted: nat, workers: seq<Worker>, shared: S, finished: seq<nat>)

  function Start<S>(size: nat, shared: S): Pool<S> {
    Pool(0, 0, seq(size, _ => Looking), shared, [])
  }

  // One turn of worker w over `jobs` jobs; `settle` is what the answer to a job does to the shared state.
  function Turn<S>(p: Pool<S>, w: nat, jobs: nat, settle: (S, nat) -> S): Pool<S> {
    if w >= |p.workers| then p
    else match p.workers[w]
      case Looking =>
        if p.cursor < jobs then
          p.(cursor := p.cursor + 1, attempted := p.attempted + 1, workers := p.workers[w := Waiting(p.cursor)])
        else
          p.(workers := p.workers[w := Left])
      case Waiting(job) =>
        p.(workers := p.workers[w := Looking], shared := settle(p.shared, job), finished := p.finished + [job])
      case Left => p
  }

  function Run<S>(p: Pool<S>, schedule: seq<nat>, jobs: nat, settle: (S, nat) -> S): Pool<S> {
    if schedule == [] then p
    else Turn(Run(p, schedule[..|schedule| - 1], jobs, settle), schedule[|schedule| - 1], jobs, settle)
  }

  // Every job handed out is held by exactly one worker or finished exactly once, and no other job is.
  ghost predicate HandedOut<S>(p: Pool<S>) {
    && p.attempted == p.cursor
    && Distinct(p.finished)
    && (forall job :: job in p.finished ==> job < p.cursor)
    && (forall w :: 0 <= w < |p.workers| && p.workers[w].Waiting? ==> p.workers[w].job < p.cursor && p.workers[w].job !in p.finished)
    && (forall v, w :: 0 <= v < w < |p.workers| && p.workers[v].Waiting? && p.workers[w].Waiting? ==> p.workers[v].job != p.workers[w].job)
    && (forall job: nat :: job < p.cursor ==> job in p.finished || Waiting(job) in p.workers)
  }

  ghost predicate Exhausted<S>(p: Pool<S>, jobs: nat) {
    p.cursor <= jobs && (Left in p.workers ==> p.cursor == jobs)
  }

  lemma TakeKeeps<S>(p: Pool<S>, w: nat, jobs: nat, settle: (S, nat) -> S)
    requires HandedOut(p) && Exhausted(p, jobs) && w < |p.workers| && p.workers[w].Looking? && p.cursor < jobs
    ensures HandedOut(Turn(p, w, jobs, settle)) && Exhausted(Turn(p, w, jobs, settle), jobs)
  {
    var q := Turn(p, w, jobs, settle);
    assert q.workers[w] == Waiting(p.cursor);
    forall job: nat | job < q.cursor
      ensures job in q.finished || Waiting(job) in q.workers
    {
      if job < p.cursor && job !in p.finished {
        var v :| 0 <= v < |p.workers| && p.workers[v] == Waiting(job);
        assert q.workers[v] == Waiting(job);
      }
    }
  }

  lemma SettleKeeps<S>(p: Pool<S>, w: nat, jobs: nat, settle: (S, nat) -> S)
    requires HandedOut(p) && Exhausted(p, jobs) && w < |p.workers| && p.workers[w].Waiting?
    ensures HandedOut(Turn(p, w, jobs, settle)) && Exhausted(Turn(p, w, jobs, settle), jobs)
  {
    var q := Turn(p, w, jobs, settle);
    forall job: nat | job < q.cursor
      ensures job in q.finished || Waiting(job) in q.workers
    {
      if job !in p.finished && job != p.workers[w].job {
        var v :| 0 <= v < |p.workers| && p.workers[v] == Waiting(job);
        assert q.workers[v] == Waiting(job);
      }
    }
  }

  lemma TurnKeeps<S>(p: Pool<S>, w: nat, jobs: nat, settle: (S, nat) -> S)
    requires HandedOut(p) && Exhausted(p, jobs)
    ensures HandedOut(Turn(p, w, jobs, settle)) && Exhausted(Turn(p, w, jobs, settle), jobs)
  {
    if w < |p.workers| && p.workers[w].Looking? && p.cursor < jobs {
      TakeKeeps(p, w, jobs, settle);
    } else if w < |p.workers| && p.workers[w].Waiting? {
      SettleKeeps(p, w, jobs, settle);
    } else if w < |p.workers| {
      var q := Turn(p, w, jobs, settle);
      forall job: nat | job < q.cursor
        ensures job in q.finished || Waiting(job) in q.workers
      {
        if job !in p.finished {
          var v :| 0 <= v < |p.workers| && p.workers[v] == Waiting(job);
          assert q.workers[v] == Waiting(job);
        }
      }
    }
  }

  // For every schedule, at every moment: each job was taken by exactly one worker, and the jobs taken are
  // those below the cursor, which is the attempted count.
  lemma {:induction false} EveryRun<S>(size: nat, shared: S, schedule: seq<nat>, jobs: nat, settle: (S, nat) -> S)
    ensures var p := Run(Start(size, shared), schedule, jobs, settle);
            HandedOut(p) && Exhausted(p, jobs) && |p.workers| == size
  {
    if schedule != [] {
      EveryRun(size, shared, schedule[..|schedule| - 1], jobs, settle);
      TurnKeeps(Run(Start(size, shared), schedule[..|schedule| - 1], jobs, settle), schedule[|schedule| - 1], jobs, settle);
    }
  }

  ghost predicate Complete<S>(p: Pool<S>) {
    forall worker :: worker in p.workers ==> worker == Left
  }

  function Below(n: nat): (jobs: set<nat>)
    ensures forall job: nat :: job in jobs <==> job < n
    ensures |jobs| == n
  {
    if n == 0 then {} else Below(n - 1) + {n - 1}
  }

  // When all workers have left, every job was attempted and finished exactly once.
  lemma CompleteRun<S>(size: nat, shared: S, schedule: seq<nat>, jobs: nat, settle: (S, nat) -> S)
    requires size > 0 || jobs == 0
    requires Complete(Run(Start(size, shared), schedule, jobs, settle))
    ensures var p := Run(Start(size, shared), schedule, jobs, settle);
            && p.attempted == jobs && |p.finished| == jobs
            && Distinct(p.finished) && Elements(p.finished) == Below(jobs)
  {
    var p := Run(Start(size, shared), schedule, jobs, settle);
    EveryRun(size, shared, schedule, jobs, settle);
    if size > 0 {
      assert p.workers[0] in p.workers;
    }
    assert forall job: nat :: job < jobs ==> Waiting(job) !in p.workers;
    assert Elements(p.finished) == Below(jobs);
    DistinctCardinality(p.finished);
  }

  // The shared state after a run: the effects of the finished jobs in the order in which they finished.
  function Fold<S>(shared: S, log: seq<nat>, settle: (S, nat) -> S): S {
    if log == [] then shared else settle(Fold(shared, log[..|log| - 1], settle), log[|log| - 1])
  }

  lemma {:induction false} SharedIsFold<S>(size: nat, shared: S, schedule: seq<nat>, jobs: nat, settle: (S, nat) -> S)
    ensures var p := Run(Start(size, shared), schedule, jobs, settle);
            p.shared == Fold(shared, p.finished, settle)
  {
    if schedule != [] {
      var before := Run(Start(size, shared), schedule[..|schedule| - 1], jobs, settle);
      SharedIsFold(size, shared, schedule[..|schedule| - 1], jobs, settle);
      var after := Turn(before, schedule[|schedule| - 1], jobs, settle);
      if after.finished != before.finished {
        assert after.finished[..|after.finished| - 1] == before.finished;
      }
    }
  }

  lemma {:induction false} FinishedGrows<S>(p: Pool<S>, schedule: seq<nat>, more: seq<nat>, jobs: nat, settle: (S, nat) -> S)
    ensures Run(p, schedule, jobs, settle).finished <= Run(p, schedule + more, jobs, settle).finished
  {
    var all := schedule + more;
    if more == [] {
      assert all == schedule;
    } else {
      assert all[..|all| - 1] == schedule + more[..|more| - 1];
      FinishedGrows(p, schedule, more[..|more| - 1], jobs, settle);
    }
  }

  // A pool is never stuck: as long as a worker has not left, its turn changes the state.
  lemma NeverStuck<S>(p: Pool<S>, w: nat, jobs: nat, settle: (S, nat) -> S)
    requires w < |p.workers| && p.workers[w] != Left
    ensures Turn(p, w, jobs, settle) != p
  {
    assert Turn(p, w, jobs, settle).workers[w] != p.workers[w];
  }

  // How often jobs of a list pass a test does not depend on the order of the list.
  function Tally(log: seq<nat>, test: nat -> bool): (n: nat)
    ensures n <= |log|
  {
    if log == [] then 0 else Tally(log[..|log| - 1], test) + if test(log[|log| - 1]) then 1 else 0
  }

  lemma TallyStep(front: seq<nat>, job: nat, test: nat -> bool)
    ensures Tally(front + [job], test) == Tally(front, test) + if test(job) then 1 else 0
  {
    assert (front + [job])[..|front|] == front;
  }

  function Passing(log: seq<nat>, test: nat -> bool): set<nat> {
    set job | job in log && test(job)
  }

  lemma PassingStep(front: seq<nat>, last: nat, test: nat -> bool)
    ensures Passing(front + [last], test) == Passing(front, test) + (if test(last) then {last} else {})
  {
    assert forall job :: job in front + [last] <==> job in front || job == last;
  }

  lemma {:induction false} TallyIsCount(log: seq<nat>, test: nat -> bool)
    requires Distinct(log)
    ensures Tally(log, test) == |Passing(log, test)|
  {
    if log == [] {
      assert Passing(log, test) == {};
    } else {
      var front, last := log[..|log| - 1], log[|log| - 1];
      TallyIsCount(front, test);
      var before := Passing(front, test);
      assert log == front + [last];
      PassingStep(front, last, test);
      assert last !in before && |before + {last}| == |before| + 1;
    }
  }

  lemma TallyOfSet(a: seq<nat>, b: seq<nat>, test: nat -> bool)
    requires Distinct(a) && Distinct(b) && Elements(a) == Elements(b)
    ensures Tally(a, test) == Tally(b, test)
  {
    TallyIsCount(a, test);
    TallyIsCount(b, test);
    assert forall job :: job in a <==> job in Elements(a);
    assert forall job :: job in b <==> job in Elements(b);
    assert Passing(a, test) == Passing(b, test);
  }
}
