// The table of background jobs: single flight by key, cancellation, settling and pruning.
module JobTable {
  import opened Sequences
  import opened JobEvents

  datatype JobState = Running | Done | Failed | Cancelled

  // job-<time>-<counter>, both in base 36
  datatype JobId = JobId(time: int, number: nat)

  // `settled` tells whether the promise of the job's work has been fulfilled or rejected; it does so once.
  datatype Job = Job(id: JobId, kind: string, key: Option<string>, state: JobState, startedAt: int, finishedAt: Option<int>,
                     log: Log, result: Option<string>, errorCode: Option<string>, aborted: bool, settled: bool)

  // The Map of jobs in insertion order.
  datatype Table = Table(jobs: seq<Job>, counter: nat)

  const KEEP_FINISHED_MS := 30 * 60000

  predicate Expired(job: Job, now: int) {
    job.finishedAt.Some? && job.finishedAt.value != 0 && now - job.finishedAt.value > KEEP_FINISHED_MS
  }

  function Kept(now: int): Job -> bool {
    job => !Expired(job, now)
  }

  function Prune(t: Table, now: int): Table {
    t.(jobs := Filter(Kept(now), t.jobs))
  }

  // `if (key)`: neither null nor the empty string
  predicate Truthy(key: Option<string>) {
    key.Some? && key.value != ""
  }

  // The first running job with this key.
  function FindRunning(jobs: seq<Job>, key: Option<string>): (r: Option<Job>)
    ensures r.Some? ==> r.value in jobs && r.value.key == key && r.value.state == Running
    ensures r.None? ==> forall j :: j in jobs ==> !(j.key == key && j.state == Running)
  {
    if jobs == [] then None
    else if jobs[0].key == key && jobs[0].state == Running then Some(jobs[0])
    else FindRunning(jobs[1..], key)
  }

  datatype Started = Started(table: Table, id: JobId, reused: bool)

  function NewJob(id: JobId, kind: string, key: Option<string>, now: int): Job {
    Job(id, kind, key, Running, now, None, EMPTY_LOG, None, None, false, false)
  }

  function Start(t: Table, kind: string, key: Option<string>, now: int): Started {
    var pruned := Prune(t, now);
    var running := if Truthy(key) then FindRunning(pruned.jobs, key) else None;
    if running.Some? then Started(pruned, running.value.id, true)
    else
      var id := JobId(now, t.counter + 1);
      Started(Table(pruned.jobs + [NewJob(id, kind, key, now)], t.counter + 1), id, false)
  }

  function IndexOfJob(jobs: seq<Job>, id: JobId): (i: nat)
    ensures i <= |jobs|
    ensures i < |jobs| ==> jobs[i].id == id
    ensures forall j :: 0 <= j < i ==> jobs[j].id != id
  {
    if jobs == [] || jobs[0].id == id then 0 else 1 + IndexOfJob(jobs[1..], id)
  }

  predicate Has(t: Table, id: JobId) {
    IndexOfJob(t.jobs, id) < |t.jobs|
  }

  function Get(t: Table, id: JobId): Job
    requires Has(t, id)
  {
    t.jobs[IndexOfJob(t.jobs, id)]
  }

  function Put(t: Table, id: JobId, job: Job): Table
    requires Has(t, id)
  {
    t.(jobs := t.jobs[IndexOfJob(t.jobs, id) := job])
  }

  predicate CodeChar(c: char) { 'A' <= c <= 'Z' || '0' <= c <= '9' || c == '_' }

  function CodeLength(s: string): (n: nat)
    ensures n <= |s|
  {
    if s == "" || !CodeChar(s[0]) then 0 else 1 + CodeLength(s[1..])
  }

  // /^([A-Z][A-Z0-9_]{3,}):/, else JOB_FAILED
  function ErrorCode(message: string): string {
    var n := CodeLength(message);
    if n >= 4 && 'A' <= message[0] <= 'Z' && n < |message| && message[n] == ':' then message[..n] else "JOB_FAILED"
  }

  predicate EndsWith(s: string, suffix: string) {
    |suffix| <= |s| && s[|s| - |suffix|..] == suffix
  }

  function Resolved(job: Job, result: Option<string>): Job {
    job.(result := result, settled := true, state := if job.aborted then Cancelled else Done)
  }

  function Rejected(job: Job, message: string): Job {
    var code := ErrorCode(message);
    job.(errorCode := Some(code), settled := true,
         state := if job.aborted || EndsWith(code, "_CANCELLED") then Cancelled else Failed)
  }

  // The steps of a run. Work settles at most once, and `finally` runs after that.
  datatype Step =
    | PruneStep(now: int)
    | StartStep(kind: string, key: Option<string>, now: int)
    | LogStep(id: JobId, payload: string)
    | ResolveStep(id: JobId, result: Option<string>)
    | RejectStep(id: JobId, message: string)
    | FinishStep(id: JobId, now: int)
    | CancelStep(id: JobId)

  function After(t: Table, step: Step): Table {
    match step
    case PruneStep(now) => Prune(t, now)
    case StartStep(kind, key, now) => Start(t, kind, key, now).table
    case LogStep(id, payload) =>
      if Has(t, id) then Put(t, id, Get(t, id).(log := Emit(Get(t, id).log, payload))) else t
    case ResolveStep(id, result) =>
      if Has(t, id) && !Get(t, id).settled then Put(t, id, Resolved(Get(t, id), result)) else t
    case RejectStep(id, message) =>
      if Has(t, id) && !Get(t, id).settled then Put(t, id, Rejected(Get(t, id), message)) else t
    case FinishStep(id, now) =>
      if Has(t, id) && Get(t, id).settled && Get(t, id).finishedAt.None? then Put(t, id, Get(t, id).(finishedAt := Some(now))) else t
    case CancelStep(id) => Cancel(t, id).0
  }

  function Cancel(t: Table, id: JobId): (Table, bool) {
    if !Has(t, id) || Get(t, id).state != Running then (t, false)
    else (Put(t, id, Get(t, id).(aborted := true)), true)
  }

  class Jobs {
    var jobs: seq<Job>
    var counter: nat

    constructor ()
      ensures State() == Table([], 0)
    {
      jobs, counter := [], 0;
    }

    function State(): Table
      reads this
    {
      Table(jobs, counter)
    }

    method PruneJobs(now: int)
      modifies this`jobs
      ensures State() == Prune(old(State()), now)
    {
      var kept: seq<Job> := [];
      for k := 0 to |jobs|
        invariant jobs == old(jobs)
        invariant kept == Filter(Kept(now), jobs[..k])
      {
        PrefixStep(jobs, k);
        FilterAppend(Kept(now), jobs[..k], [jobs[k]]);
        assert [jobs[k]][1..] == [];
        if !Expired(jobs[k], now) {
          kept := kept + [jobs[k]];
        }
      }
      assert jobs[..|jobs|] == jobs;
      jobs := kept;
    }

    method StartJob(kind: string, key: Option<string>, now: int) returns (id: JobId, reused: bool)
      modifies this
      ensures Started(State(), id, reused) == Start(old(State()), kind, key, now)
    {
      PruneJobs(now);
      if Truthy(key) {
        for k := 0 to |jobs|
          invariant State() == Prune(old(State()), now)
          invariant FindRunning(jobs, key) == FindRunning(jobs[k..], key)
        {
          assert jobs[k..][1..] == jobs[k + 1..];
          if jobs[k].key == key && jobs[k].state == Running {
            return jobs[k].id, true;
          }
        }
      }
      counter := counter + 1;
      id := JobId(now, counter);
      jobs := jobs + [NewJob(id, kind, key, now)];
      return id, false;
    }

    // The emit function handed to the work of a job.
    method EmitEvent(id: JobId, payload: string)
      modifies this`jobs
      ensures State() == After(old(State()), LogStep(id, payload))
    {
      var i := IndexOfJob(jobs, id);
      if i < |jobs| {
        var job := jobs[i];
        var events := job.log.events + [Event(job.log.emitted, payload)];
        if |events| > MAX_EVENTS {
          events := events[|events| - MAX_EVENTS..];
        }
        jobs := jobs[i := job.(log := Log(events, job.log.emitted + 1))];
      }
    }

    method PollJob(id: JobId, since: int) returns (polled: Option<Polled>)
      ensures polled == if Has(State(), id) then Some(Poll(Get(State(), id).log, since)) else None
    {
      var i := IndexOfJob(jobs, id);
      if i == |jobs| {
        return None;
      }
      var events := jobs[i].log.events;
      var next := if events != [] then events[|events| - 1].number + 1 else since;
      return Some(Polled(Filter(From(since), events), Max(next, since)));
    }

    method CancelJob(id: JobId) returns (cancelled: bool)
      modifies this`jobs
      ensures (State(), cancelled) == Cancel(old(State()), id)
    {
      var i := IndexOfJob(jobs, id);
      if i == |jobs| || jobs[i].state != Running {
        return false;
      }
      jobs := jobs[i := jobs[i].(aborted := true)];
      return true;
    }

    // The handlers of the work's promise: fulfilled, rejected, and afterwards finally.
    method WorkResolved(id: JobId, result: Option<string>)
      requires Has(State(), id) && !Get(State(), id).settled
      modifies this`jobs
      ensures State() == After(old(State()), ResolveStep(id, result))
    {
      var i := IndexOfJob(jobs, id);
      var job := jobs[i].(result := result, settled := true);
      jobs := jobs[i := job.(state := if job.aborted then Cancelled else Done)];
    }

    method WorkRejected(id: JobId, message: string)
      requires Has(State(), id) && !Get(State(), id).settled
      modifies this`jobs
      ensures State() == After(old(State()), RejectStep(id, message))
    {
      var i := IndexOfJob(jobs, id);
      var code := ErrorCode(message);
      var job := jobs[i].(errorCode := Some(code), settled := true);
      jobs := jobs[i := job.(state := if job.aborted || EndsWith(code, "_CANCELLED") then Cancelled else Failed)];
    }

    method WorkFinished(id: JobId, now: int)
      requires Has(State(), id) && Get(State(), id).settled && Get(State(), id).finishedAt.None?
      modifies this`jobs
      ensures State() == After(old(State()), FinishStep(id, now))
    {
      var i := IndexOfJob(jobs, id);
      jobs := jobs[i := jobs[i].(finishedAt := Some(now))];
    }
  }

  // ---------------------------------------------------------------- every run

  function Execute(t: Table, steps: seq<Step>): Table {
    if steps == [] then t else After(Execute(t, steps[..|steps| - 1]), steps[|steps| - 1])
  }

  ghost predicate JobInvariant(job: Job, counter: nat) {
    && job.id.number <= counter
    && (job.state == Running <==> !job.settled)
    && (job.finishedAt.Some? ==> job.settled)
    && (job.settled && job.aborted ==> job.state == Cancelled)
  }

  ghost predicate Conflict(a: Job, b: Job) {
    a.state == Running && b.state == Running && a.key == b.key && Truthy(a.key)
  }

  ghost predicate Invariant(t: Table) {
    && (forall i :: 0 <= i < |t.jobs| ==> JobInvariant(t.jobs[i], t.counter))
    && Pairwise(t.jobs)
  }

  // Later jobs have larger numbers and never run beside an earlier job of the same key.
  ghost predicate Pairwise(jobs: seq<Job>) {
    forall i, j :: 0 <= i < j < |jobs| ==> Compatible(jobs[i], jobs[j])
  }

  ghost predicate Compatible(a: Job, b: Job) {
    a.id.number < b.id.number && !Conflict(a, b)
  }

  lemma {:induction false} FilterPairwise(jobs: seq<Job>, keep: Job -> bool)
    requires Pairwise(jobs)
    ensures Pairwise(Filter(keep, jobs))
  {
    if jobs != [] {
      var rest := Filter(keep, jobs[1..]);
      FilterPairwise(jobs[1..], keep);
      forall x | x in rest
        ensures Compatible(jobs[0], x)
      {
        assert x in jobs[1..];
        var i :| 0 <= i < |jobs[1..]| && jobs[1..][i] == x;
        assert Compatible(jobs[0], jobs[i + 1]);
      }
    }
  }

  lemma FilterInvariant(jobs: seq<Job>, keep: Job -> bool, counter: nat)
    requires Invariant(Table(jobs, counter))
    ensures Invariant(Table(Filter(keep, jobs), counter))
  {
    FilterPairwise(jobs, keep);
    forall i | 0 <= i < |Filter(keep, jobs)|
      ensures JobInvariant(Filter(keep, jobs)[i], counter)
    {
      assert Filter(keep, jobs)[i] in jobs;
    }
  }

  lemma PutInvariant(t: Table, id: JobId, job: Job)
    requires Invariant(t) && Has(t, id)
    requires job.id == Get(t, id).id && job.key == Get(t, id).key && JobInvariant(job, t.counter)
    requires job.state == Running ==> Get(t, id).state == Running
    ensures Invariant(Put(t, id, job))
  {
    var i := IndexOfJob(t.jobs, id);
    var jobs := t.jobs[i := job];
    forall a, b | 0 <= a < b < |jobs|
      ensures Compatible(jobs[a], jobs[b])
    {
      assert Compatible(t.jobs[a], t.jobs[b]);
    }
  }

  lemma StartInvariant(t: Table, kind: string, key: Option<string>, now: int)
    requires Invariant(t)
    ensures Invariant(Start(t, kind, key, now).table)
  {
    FilterInvariant(t.jobs, Kept(now), t.counter);
    var started := Start(t, kind, key, now);
    if !started.reused {
      var pruned := Prune(t, now).jobs;
      var jobs := started.table.jobs;
      forall a, b | 0 <= a < b < |jobs|
        ensures Compatible(jobs[a], jobs[b])
      {
        assert pruned[a] in pruned && JobInvariant(pruned[a], t.counter);
        if b < |pruned| {
          assert Compatible(pruned[a], pruned[b]);
        }
      }
    }
  }

  lemma NextInvariant(t: Table, step: Step)
    requires Invariant(t)
    ensures Invariant(After(t, step))
  {
    match step
    case PruneStep(now) => FilterInvariant(t.jobs, Kept(now), t.counter);
    case StartStep(kind, key, now) => StartInvariant(t, kind, key, now);
    case LogStep(id, payload) =>
      if Has(t, id) { PutInvariant(t, id, Get(t, id).(log := Emit(Get(t, id).log, payload))); }
    case ResolveStep(id, result) =>
      if Has(t, id) && !Get(t, id).settled { PutInvariant(t, id, Resolved(Get(t, id), result)); }
    case RejectStep(id, message) =>
      if Has(t, id) && !Get(t, id).settled { PutInvariant(t, id, Rejected(Get(t, id), message)); }
    case FinishStep(id, now) =>
      if Has(t, id) && Get(t, id).settled { PutInvariant(t, id, Get(t, id).(finishedAt := Some(now))); }
    case CancelStep(id) =>
      if Has(t, id) && Get(t, id).state == Running { PutInvariant(t, id, Get(t, id).(aborted := true)); }
  }

  lemma {:induction false} EveryRun(t: Table, steps: seq<Step>)
    requires Invariant(t)
    ensures Invariant(Execute(t, steps))
    ensures Execute(t, steps).counter >= t.counter
  {
    if steps != [] {
      EveryRun(t, steps[..|steps| - 1]);
      NextInvariant(Execute(t, steps[..|steps| - 1]), steps[|steps| - 1]);
    }
  }

  // At most one running job per key, for every key but null and the empty string.
  lemma SingleFlight(steps: seq<Step>, i: nat, j: nat)
    requires var t := Execute(Table([], 0), steps);
             i < |t.jobs| && j < |t.jobs| && t.jobs[i].state == Running && t.jobs[j].state == Running
             && t.jobs[i].key == t.jobs[j].key && Truthy(t.jobs[i].key)
    ensures i == j
  {
    EveryRun(Table([], 0), steps);
    OnlyOneRuns(Execute(Table([], 0), steps), i, j);
  }

  lemma OnlyOneRuns(t: Table, i: nat, j: nat)
    requires Invariant(t) && i < |t.jobs| && j < |t.jobs| && Conflict(t.jobs[i], t.jobs[j])
    ensures i == j
  {
    assert forall a, b :: 0 <= a < b < |t.jobs| ==> Compatible(t.jobs[a], t.jobs[b]);
  }

  // The exception is real: started twice under the empty key, a job runs twice.
  lemma EmptyKeyRunsTwice(kind: string, now: int)
    ensures var t := Execute(Table([], 0), [StartStep(kind, Some(""), now), StartStep(kind, Some(""), now)]);
            |t.jobs| == 2 && forall i :: 0 <= i < 2 ==> t.jobs[i].state == Running && t.jobs[i].key == Some("")
  {
    var steps := [StartStep(kind, Some(""), now), StartStep(kind, Some(""), now)];
    assert steps[..1] == [steps[0]] && steps[..1][..0] == [];
    var first := NewJob(JobId(now, 1), kind, Some(""), now);
    assert Execute(Table([], 0), steps[..1]) == Table([first], 1);
    assert [first][1..] == [];
    assert Filter(Kept(now), [first]) == [first];
  }

  // A step either drops a finished job, or keeps it together with its settled outcome.
  lemma StepKeepsJob(t: Table, step: Step, id: JobId)
    requires Invariant(t) && Has(t, id)
    ensures Get(t, id).state == Running ==> Has(After(t, step), id)
    ensures Has(After(t, step), id) ==> Carried(Get(t, id), Get(After(t, step), id))
  {
    var job := Get(t, id);
    var next := After(t, step);
    NextInvariant(t, step);
    if step.PruneStep? || step.StartStep? {
      var now := step.now;
      FilterInvariant(t.jobs, Kept(now), t.counter);
      PruneKeeps(t, now, id);
      if step.StartStep? {
        var pruned := Prune(t, now);
        assert next.jobs == pruned.jobs || next.jobs[..|pruned.jobs|] == pruned.jobs;
        AppendKeeps(pruned, next, id);
      }
    } else if Has(t, step.id) {
      PutKeeps(t, step.id, next, id);
    }
  }

  // What a job that is still in the table has kept.
  ghost predicate Carried(before: Job, after: Job) {
    && after.id == before.id && after.key == before.key && after.kind == before.kind
    && (before.aborted ==> after.aborted)
    && (before.state != Running ==> after.state == before.state && after.result == before.result && after.errorCode == before.errorCode)
  }

  lemma HasIndex(t: Table, i: nat)
    requires Invariant(t) && i < |t.jobs|
    ensures Has(t, t.jobs[i].id) && Get(t, t.jobs[i].id) == t.jobs[i]
  {
    assert forall k :: 0 <= k < i ==> Compatible(t.jobs[k], t.jobs[i]);
  }

  lemma PruneKeeps(t: Table, now: int, id: JobId)
    requires Invariant(t) && Has(t, id) && Invariant(Prune(t, now))
    ensures Get(t, id).state == Running ==> Has(Prune(t, now), id)
    ensures Has(Prune(t, now), id) ==> Get(Prune(t, now), id) == Get(t, id)
  {
    var pruned := Prune(t, now);
    var job := Get(t, id);
    assert job in t.jobs;
    if job in pruned.jobs {
      var i :| 0 <= i < |pruned.jobs| && pruned.jobs[i] == job;
      HasIndex(pruned, i);
    }
    if Has(pruned, id) {
      var other := Get(pruned, id);
      assert other in t.jobs;
      var i :| 0 <= i < |t.jobs| && t.jobs[i] == other;
      HasIndex(t, i);
    }
  }

  lemma AppendKeeps(pruned: Table, next: Table, id: JobId)
    requires Invariant(pruned) && Invariant(next) && |pruned.jobs| <= |next.jobs| && next.jobs[..|pruned.jobs|] == pruned.jobs
    requires id.number <= pruned.counter
    requires forall i :: |pruned.jobs| <= i < |next.jobs| ==> next.jobs[i].id.number > pruned.counter
    ensures Has(next, id) <==> Has(pruned, id)
    ensures Has(pruned, id) ==> Get(next, id) == Get(pruned, id)
  {
    assert forall i :: 0 <= i < |pruned.jobs| ==> next.jobs[i] == pruned.jobs[i];
    if Has(pruned, id) {
      HasIndex(next, IndexOfJob(pruned.jobs, id));
    } else {
      assert forall i :: 0 <= i < |next.jobs| ==> next.jobs[i].id != id;
    }
  }

  lemma PutKeeps(t: Table, at: JobId, next: Table, id: JobId)
    requires Invariant(t) && Invariant(next) && Has(t, at) && Has(t, id)
    requires next == t || (exists job :: next == Put(t, at, job) && Carried(Get(t, at), job))
    ensures Has(next, id) && Carried(Get(t, id), Get(next, id))
  {
    var i := IndexOfJob(t.jobs, id);
    if next != t {
      var job :| next == Put(t, at, job) && Carried(Get(t, at), job);
      HasIndex(next, i);
    }
  }

  // Over any stretch of a run: an id that is still there is the same job, terminal states stay, and an
  // abort stays.
  lemma {:induction false} JobOverTime(t: Table, steps: seq<Step>, id: JobId)
    requires Invariant(t) && Has(t, id) && Has(Execute(t, steps), id)
    ensures Carried(Get(t, id), Get(Execute(t, steps), id))
  {
    if steps != [] {
      var before := steps[..|steps| - 1];
      var last := steps[|steps| - 1];
      var s := Execute(t, before);
      EveryRun(t, before);
      HasIndex(t, IndexOfJob(t.jobs, id));
      StillThere(s, last, id);
      JobOverTime(t, before, id);
      StepKeepsJob(s, last, id);
    }
  }

  // No step brings back an id: a job there now was there before, or its number is new.
  lemma StillThere(s: Table, step: Step, id: JobId)
    requires Invariant(s) && id.number <= s.counter
    ensures Has(After(s, step), id) ==> Has(s, id)
  {
    if !Has(s, id) {
      assert forall j :: 0 <= j < |s.jobs| ==> s.jobs[j].id != id;
      var next := After(s, step);
      forall i | 0 <= i < |next.jobs|
        ensures next.jobs[i].id != id
      {
        if step.PruneStep? || step.StartStep? {
          var pruned := Prune(s, step.now).jobs;
          if i < |pruned| {
            assert next.jobs[i] == pruned[i] && pruned[i] in s.jobs;
          }
        }
      }
    }
  }

  // If cancelJob returned true and the work settles, the job ends cancelled.
  lemma CancelWins(t: Table, id: JobId, steps: seq<Step>)
    requires Invariant(t) && Cancel(t, id).1
    requires var later := Execute(Cancel(t, id).0, steps); Has(later, id) && Get(later, id).settled
    ensures Get(Execute(Cancel(t, id).0, steps), id).state == Cancelled
  {
    var cancelled := Cancel(t, id).0;
    NextInvariant(t, CancelStep(id));
    HasIndex(cancelled, IndexOfJob(t.jobs, id));
    JobOverTime(cancelled, steps, id);
    EveryRun(cancelled, steps);
  }

  // An id handed out for a new job never belonged to an earlier one.
  lemma IdsNeverReused(t: Table, steps: seq<Step>, id: JobId, kind: string, key: Option<string>, now: int)
    requires Invariant(t) && Has(t, id)
    requires !Start(Execute(t, steps), kind, key, now).reused
    ensures Start(Execute(t, steps), kind, key, now).id.number > id.number
  {
    EveryRun(t, steps);
    HasIndex(t, IndexOfJob(t.jobs, id));
  }

  // Starting under the key of a running job returns that job and starts nothing.
  lemma SecondStartJoins(t: Table, i: nat, kind: string, now: int)
    requires Invariant(t) && i < |t.jobs| && t.jobs[i].state == Running && Truthy(t.jobs[i].key)
    ensures var started := Start(t, kind, t.jobs[i].key, now);
            started.reused && started.id == t.jobs[i].id && started.table == Prune(t, now)
  {
    var pruned := Prune(t, now);
    FilterInvariant(t.jobs, Kept(now), t.counter);
    assert t.jobs[i] in pruned.jobs;
    var found := FindRunning(pruned.jobs, t.jobs[i].key);
    var j :| 0 <= j < |t.jobs| && t.jobs[j] == found.value;
    OnlyOneRuns(t, i, j);
  }

  predicate Settles(step: Step, id: JobId) {
    (step.ResolveStep? || step.RejectStep?) && step.id == id
  }

  ghost predicate Unsettled(steps: seq<Step>, id: JobId) {
    forall step :: step in steps ==> !Settles(step, id)
  }

  lemma UnsettledStep(before: seq<Step>, last: Step, id: JobId)
    ensures Unsettled(before + [last], id) <==> Unsettled(before, id) && !Settles(last, id)
  {
    assert forall step :: step in before + [last] <==> step in before || step == last;
  }

  predicate Runs(t: Table, id: JobId) {
    Has(t, id) && Get(t, id).state == Running
  }

  lemma StepKeepsRunning(t: Table, step: Step, id: JobId)
    requires Invariant(t) && id.number <= t.counter
    ensures Runs(After(t, step), id) <==> Runs(t, id) && !Settles(step, id)
  {
    StillThere(t, step, id);
    if Has(t, id) {
      StepKeepsJob(t, step, id);
      HasIndex(t, IndexOfJob(t.jobs, id));
      NextInvariant(t, step);
      if Runs(t, id) {
        RunningStep(t, step, id);
      }
    }
  }

  // Only the job named by a step can change its state, and only when its work settles.
  lemma RunningStep(t: Table, step: Step, id: JobId)
    requires Invariant(t) && Invariant(After(t, step)) && Runs(t, id) && Has(After(t, step), id)
    ensures Get(After(t, step), id).state == Running <==> !Settles(step, id)
  {
    if step.PruneStep? || step.StartStep? {
      PruneRunning(t, step, id);
    } else if Has(t, step.id) {
      PutRunning(t, step, id);
    }
  }

  lemma PruneRunning(t: Table, step: Step, id: JobId)
    requires Invariant(t) && Invariant(After(t, step)) && Runs(t, id) && Has(After(t, step), id)
    requires step.PruneStep? || step.StartStep?
    ensures Get(After(t, step), id).state == Running
  {
    FilterInvariant(t.jobs, Kept(step.now), t.counter);
    PruneKeeps(t, step.now, id);
    if step.StartStep? {
      var pruned, next := Prune(t, step.now), After(t, step);
      assert next.jobs == pruned.jobs || next.jobs[..|pruned.jobs|] == pruned.jobs;
      HasIndex(t, IndexOfJob(t.jobs, id));
      AppendKeeps(pruned, next, id);
    }
  }

  lemma PutRunning(t: Table, step: Step, id: JobId)
    requires Invariant(t) && Invariant(After(t, step)) && Runs(t, id) && Has(After(t, step), id)
    requires !step.PruneStep? && !step.StartStep? && Has(t, step.id)
    ensures Get(After(t, step), id).state == Running <==> !Settles(step, id)
  {
    var i := IndexOfJob(t.jobs, id);
    assert After(t, step).jobs[i].id == id;
    HasIndex(After(t, step), i);
  }

  // A running job runs on exactly as long as its work does not settle.
  lemma {:induction false} RunsUntilSettled(t: Table, steps: seq<Step>, id: JobId)
    requires Invariant(t) && Runs(t, id)
    ensures Runs(Execute(t, steps), id) <==> Unsettled(steps, id)
  {
    if steps != [] {
      var before, last := steps[..|steps| - 1], steps[|steps| - 1];
      RunsUntilSettled(t, before, id);
      EveryRun(t, before);
      HasIndex(t, IndexOfJob(t.jobs, id));
      StepKeepsRunning(Execute(t, before), last, id);
      UnsettledStep(before, last, id);
      assert steps == before + [last];
    }
  }

  // If the work of a job never settles, because it throws before it gives a promise, say, its key stays taken:
  // every later start under the key joins that job.
  lemma UnsettledKeepsKey(t: Table, kind: string, key: Option<string>, now: int, steps: seq<Step>, kind': string, now': int)
    requires Invariant(t) && Truthy(key) && !Start(t, kind, key, now).reused
    requires Unsettled(steps, Start(t, kind, key, now).id)
    ensures var started := Start(t, kind, key, now);
            var later := Start(Execute(started.table, steps), kind', key, now');
            later.reused && later.id == started.id
  {
    var started := Start(t, kind, key, now);
    StartInvariant(t, kind, key, now);
    HasIndex(started.table, |started.table.jobs| - 1);
    RunsUntilSettled(started.table, steps, started.id);
    EveryRun(started.table, steps);
    JobOverTime(started.table, steps, started.id);
    var later := Execute(started.table, steps);
    SecondStartJoins(later, IndexOfJob(later.jobs, started.id), kind', now');
  }
}
