// Schedules of the worker pool with a known end: what a run finishes, in which order.
module PoolSchedules {
  import opened Sequences
  import opened WorkerPool

  function Range(low: nat, high: nat): (jobs: seq<nat>)
    requires low <= high
    ensures |jobs| == high - low && forall i :: 0 <= i < high - low ==> jobs[i] == low + i
  {
    seq(high - low, i => low + i)
  }

  lemma RunStep<S>(p: Pool<S>, schedule: seq<nat>, w: nat, jobs: nat, settle: (S, nat) -> S)
    ensures Run(p, schedule + [w], jobs, settle) == Turn(Run(p, schedule, jobs, settle), w, jobs, settle)
  {
    assert (schedule + [w])[..|schedule|] == schedule;
  }

  // One worker, one job: take, settle, leave.
  lemma OneJob<S>(shared: S, settle: (S, nat) -> S)
    ensures Run(Start(1, shared), [0, 0, 0], 1, settle) == Pool(1, 1, [Left], settle(shared, 0), [0])
  {
    var p := Start(1, shared);
    assert p.workers == [Looking];
    RunStep(p, [], 0, 1, settle);
    RunStep(p, [0], 0, 1, settle);
    RunStep(p, [0, 0], 0, 1, settle);
    assert [] + [0] == [0] && [0] + [0] == [0, 0] && [0, 0] + [0] == [0, 0, 0];
    var p1 := Turn(p, 0, 1, settle);
    assert p1 == Pool(1, 1, [Waiting(0)], shared, []);
    var p2 := Turn(p1, 0, 1, settle);
    assert p2 == Pool(1, 1, [Looking], settle(shared, 0), [0]);
  }

  // Two workers that take one job each and settle them in either order.
  lemma TwoTaken<S>(shared: S, settle: (S, nat) -> S)
    ensures Run(Start(2, shared), [0, 1], 2, settle) == Pool(2, 2, [Waiting(0), Waiting(1)], shared, [])
  {
    var p := Start(2, shared);
    assert p.workers == [Looking, Looking];
    RunStep(p, [], 0, 2, settle);
    RunStep(p, [0], 1, 2, settle);
    assert [] + [0] == [0] && [0] + [1] == [0, 1];
    assert Turn(p, 0, 2, settle) == Pool(1, 1, [Waiting(0), Looking], shared, []);
  }

  lemma TwoJobs<S>(shared: S, settle: (S, nat) -> S, first: nat, second: nat)
    requires (first == 0 && second == 1) || (first == 1 && second == 0)
    ensures Run(Start(2, shared), [0, 1] + [first] + [second] + [0] + [1], 2, settle)
         == Pool(2, 2, [Left, Left], settle(settle(shared, first), second), [first, second])
  {
    var p := Start(2, shared);
    var steps := [0, 1];
    TwoTaken(shared, settle);
    RunStep(p, steps, first, 2, settle);
    RunStep(p, steps + [first], second, 2, settle);
    RunStep(p, steps + [first] + [second], 0, 2, settle);
    RunStep(p, steps + [first] + [second] + [0], 1, 2, settle);
    var p1 := Turn(Run(p, steps, 2, settle), first, 2, settle);
    assert p1.workers[second] == Waiting(second) && p1.workers[first] == Looking;
    var p2 := Turn(p1, second, 2, settle);
    assert p2 == Pool(2, 2, [Looking, Looking], settle(settle(shared, first), second), [first, second]);
    var p3 := Turn(p2, 0, 2, settle);
    assert p3.workers == [Left, Looking];
  }

  lemma {:induction false} RunAppend<S>(p: Pool<S>, a: seq<nat>, b: seq<nat>, jobs: nat, settle: (S, nat) -> S)
    ensures Run(p, a + b, jobs, settle) == Run(Run(p, a, jobs, settle), b, jobs, settle)
  {
    if b == [] {
      assert a + b == a;
    } else {
      assert (a + b)[..|a + b| - 1] == a + b[..|b| - 1];
      RunAppend(p, a, b[..|b| - 1], jobs, settle);
    }
  }

  // Two turns for every job.
  function Sweep(w: nat, jobs: nat): seq<nat> {
    if jobs == 0 then [] else Sweep(w, jobs - 1) + [w] + [w]
  }

  // A worker takes the next job and settles it.
  lemma TakeAndSettle<S>(p: Pool<S>, schedule: seq<nat>, w: nat, jobs: nat, settle: (S, nat) -> S)
    requires var q := Run(p, schedule, jobs, settle); w < |q.workers| && q.workers[w] == Looking && q.cursor < jobs
    ensures var q, r := Run(p, schedule, jobs, settle), Run(p, schedule + [w] + [w], jobs, settle);
            r.cursor == q.cursor + 1 && r.workers == q.workers && r.finished == q.finished + [q.cursor]
  {
    RunStep(p, schedule, w, jobs, settle);
    RunStep(p, schedule + [w], w, jobs, settle);
    var q := Run(p, schedule, jobs, settle);
    assert q.workers[w := Waiting(q.cursor)][w := Looking] == q.workers;
  }

  lemma RangeStep(done: seq<nat>, low: nat, high: nat)
    requires low <= high
    ensures done + Range(low, high) + [high] == done + Range(low, high + 1)
  {
  }

  // A worker that gets all the turns works off the next jobs in order.
  lemma {:induction false} Sweeps<S>(p: Pool<S>, w: nat, high: nat, jobs: nat, settle: (S, nat) -> S)
    requires w < |p.workers| && p.workers[w] == Looking && p.cursor <= high <= jobs
    ensures var q := Run(p, Sweep(w, high - p.cursor), jobs, settle);
            q.cursor == high && q.workers == p.workers && q.finished == p.finished + Range(p.cursor, high)
    decreases high
  {
    if high > p.cursor {
      Sweeps(p, w, high - 1, jobs, settle);
      var front := Sweep(w, high - 1 - p.cursor);
      TakeAndSettle(p, front, w, jobs, settle);
      RangeStep(p.finished, p.cursor, high - 1);
      assert Sweep(w, high - p.cursor) == front + [w] + [w];
    }
  }

  // When no job is left, workers that look leave.
  lemma {:induction false} Leave<S>(p: Pool<S>, n: nat, jobs: nat, settle: (S, nat) -> S)
    requires n <= |p.workers| && p.cursor >= jobs && forall w :: 0 <= w < |p.workers| ==> p.workers[w] == Looking
    ensures var q := Run(p, Range(0, n), jobs, settle);
            && q.finished == p.finished && q.cursor == p.cursor && |q.workers| == |p.workers|
            && forall w :: 0 <= w < |q.workers| ==> q.workers[w] == if w < n then Left else Looking
  {
    if n > 0 {
      Leave(p, n - 1, jobs, settle);
      RunStep(p, Range(0, n - 1), n - 1, jobs, settle);
      assert Range(0, n) == Range(0, n - 1) + [n - 1];
    } else {
      assert Range(0, n) == [];
    }
  }

  // The first worker does all the jobs, then all leave.
  function InOrder(size: nat, jobs: nat): seq<nat> {
    Sweep(0, jobs) + Range(0, size)
  }

  lemma InOrderEnds<S>(size: nat, shared: S, jobs: nat, settle: (S, nat) -> S)
    requires size > 0
    ensures var p := Run(Start(size, shared), InOrder(size, jobs), jobs, settle);
            Complete(p) && p.finished == Range(0, jobs)
  {
    var p := Start(size, shared);
    Sweeps(p, 0, jobs, jobs, settle);
    RunAppend(p, Sweep(0, jobs), Range(0, size), jobs, settle);
    var q := Run(p, Sweep(0, jobs), jobs, settle);
    Leave(q, size, jobs, settle);
    assert [] + Range(0, jobs) == Range(0, jobs);
  }

  // The first worker holds one job while the second does all that come after it.
  function HeldBack(size: nat, held: nat, jobs: nat): seq<nat>
    requires held < jobs
  {
    (((Sweep(0, held) + [0]) + Sweep(1, jobs - held - 1)) + [0]) + Range(0, size)
  }

  lemma HeldBackEnds<S>(size: nat, shared: S, held: nat, jobs: nat, settle: (S, nat) -> S)
    requires size > 1 && held < jobs
    ensures var p := Run(Start(size, shared), HeldBack(size, held, jobs), jobs, settle);
            Complete(p) && p.finished == (Range(0, held) + Range(held + 1, jobs)) + [held]
  {
    var p := Start(size, shared);
    var front := ((Sweep(0, held) + [0]) + Sweep(1, jobs - held - 1)) + [0];
    Released(p, held, jobs, settle);
    RunAppend(p, front, Range(0, size), jobs, settle);
    Leave(Run(p, front, jobs, settle), size, jobs, settle);
  }

  lemma Released<S>(p: Pool<S>, held: nat, jobs: nat, settle: (S, nat) -> S)
    requires |p.workers| > 1 && p.workers[0] == p.workers[1] == Looking && p.cursor == 0 && p.finished == [] && held < jobs
    ensures var q := Run(p, ((Sweep(0, held) + [0]) + Sweep(1, jobs - held - 1)) + [0], jobs, settle);
            && q.workers == p.workers && q.cursor == jobs
            && q.finished == (Range(0, held) + Range(held + 1, jobs)) + [held]
  {
    Holding(p, held, jobs, settle);
    RunStep(p, (Sweep(0, held) + [0]) + Sweep(1, jobs - held - 1), 0, jobs, settle);
    assert p.workers[0 := Waiting(held)][0 := Looking] == p.workers;
  }

  lemma Holding<S>(p: Pool<S>, held: nat, jobs: nat, settle: (S, nat) -> S)
    requires |p.workers| > 1 && p.workers[0] == p.workers[1] == Looking && p.cursor == 0 && p.finished == [] && held < jobs
    ensures var q := Run(p, (Sweep(0, held) + [0]) + Sweep(1, jobs - held - 1), jobs, settle);
            && q.workers == p.workers[0 := Waiting(held)] && q.cursor == jobs
            && q.finished == Range(0, held) + Range(held + 1, jobs)
  {
    var front := Sweep(0, held);
    Sweeps(p, 0, held, jobs, settle);
    RunStep(p, front, 0, jobs, settle);
    assert [] + Range(0, held) == Range(0, held);
    Sweeps(Run(p, front + [0], jobs, settle), 1, jobs, jobs, settle);
    RunAppend(p, front + [0], Sweep(1, jobs - held - 1), jobs, settle);
  }

  // A single worker finishes the jobs in order, whatever turns are given.
  lemma {:induction false} AloneInOrder<S>(shared: S, schedule: seq<nat>, jobs: nat, settle: (S, nat) -> S)
    ensures var p := Run(Start(1, shared), schedule, jobs, settle);
            && |p.workers| == 1 && (p.workers[0].Waiting? ==> p.cursor == p.workers[0].job + 1)
            && p.finished == Range(0, if p.workers[0].Waiting? then p.workers[0].job else p.cursor)
  {
    if schedule != [] {
      var front, w := schedule[..|schedule| - 1], schedule[|schedule| - 1];
      AloneInOrder(shared, front, jobs, settle);
      var p := Run(Start(1, shared), front, jobs, settle);
      if w == 0 && p.workers[0].Waiting? {
        assert Range(0, p.cursor) == Range(0, p.workers[0].job) + [p.workers[0].job];
      }
    }
  }
}
