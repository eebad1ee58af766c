// What becomes of a job, by what happened to it.
module JobOutcomes {
  import opened Sequences
  import JobEvents
  import opened JobTable

  // ---------------------------------------------------------------- the state of a job after a run

  // The state a job that was running and not aborted has after the steps: decided by the first step with which its
  // work settles, and by whether it was cancelled before that.
  function Verdict(steps: seq<Step>, id: JobId): JobState {
    if steps == [] then Running
    else
      var front, last := steps[..|steps| - 1], steps[|steps| - 1];
      if Verdict(front, id) != Running then Verdict(front, id)
      else if last.ResolveStep? && last.id == id then (if CancelStep(id) in front then Cancelled else Done)
      else if last.RejectStep? && last.id == id then
        (if CancelStep(id) in front || EndsWith(ErrorCode(last.message), "_CANCELLED") then Cancelled else Failed)
      else Running
  }

  // One job as it changes with a step that does not drop it.
  function Changed(job: Job, step: Step): Job {
    match step
    case LogStep(id, payload) => if id == job.id then job.(log := JobEvents.Emit(job.log, payload)) else job
    case ResolveStep(id, result) =>
      if id != job.id || job.settled then job
      else if job.aborted then job.(settled := true, result := result, state := Cancelled)
      else job.(settled := true, result := result, state := Done)
    case RejectStep(id, message) =>
      if id != job.id || job.settled then job
      else if job.aborted || EndsWith(ErrorCode(message), "_CANCELLED") then
        job.(settled := true, errorCode := Some(ErrorCode(message)), state := Cancelled)
      else job.(settled := true, errorCode := Some(ErrorCode(message)), state := Failed)
    case FinishStep(id, now) => if id == job.id && job.settled && job.finishedAt == None then job.(finishedAt := Some(now)) else job
    case CancelStep(id) => if id == job.id && job.state == Running then job.(aborted := true) else job
    case _ => job
  }

  // Pruning and starting drop a job that finished more than half an hour ago; nothing else does.
  predicate Dropped(job: Job, step: Step) {
    && (step.PruneStep? || step.StartStep?)
    && job.finishedAt.Some? && job.finishedAt.value != 0 && step.now - job.finishedAt.value > 1800000
  }

  lemma StepExactly(t: Table, step: Step, id: JobId)
    requires Invariant(t) && Has(t, id)
    ensures Has(After(t, step), id) <==> !Dropped(Get(t, id), step)
    ensures Has(After(t, step), id) ==> Get(After(t, step), id) == Changed(Get(t, id), step)
  {
    NextInvariant(t, step);
    if step.PruneStep? || step.StartStep? {
      PruneExactly(t, step, id);
    } else if Has(t, step.id) {
      PutExactly(t, step, id);
    }
  }

  lemma PruneExactly(t: Table, step: Step, id: JobId)
    requires Invariant(t) && Has(t, id) && Invariant(After(t, step)) && (step.PruneStep? || step.StartStep?)
    ensures Has(After(t, step), id) <==> !Dropped(Get(t, id), step)
    ensures Has(After(t, step), id) ==> Get(After(t, step), id) == Get(t, id)
  {
    var job, pruned := Get(t, id), Prune(t, step.now);
    FilterInvariant(t.jobs, Kept(step.now), t.counter);
    HasIndex(t, IndexOfJob(t.jobs, id));
    PruneKeeps(t, step.now, id);
    assert job in t.jobs;
    if !Dropped(job, step) {
      assert job in pruned.jobs;
      var i :| 0 <= i < |pruned.jobs| && pruned.jobs[i] == job;
      HasIndex(pruned, i);
    } else {
      assert Has(pruned, id) ==> Get(pruned, id) in pruned.jobs;
    }
    if step.StartStep? {
      var next := After(t, step);
      assert next.jobs == pruned.jobs || next.jobs[..|pruned.jobs|] == pruned.jobs;
      AppendKeeps(pruned, next, id);
    }
  }

  lemma PutExactly(t: Table, step: Step, id: JobId)
    requires Invariant(t) && Has(t, id) && Invariant(After(t, step)) && !step.PruneStep? && !step.StartStep? && Has(t, step.id)
    ensures Has(After(t, step), id) && Get(After(t, step), id) == Changed(Get(t, id), step)
  {
    var i := IndexOfJob(t.jobs, id);
    assert After(t, step).jobs[i].id == id;
    HasIndex(After(t, step), i);
  }

  // Over a run, a job ends in the state of its verdict, and it is aborted exactly when it was cancelled while running.
  lemma {:induction false} EndsByVerdict(t: Table, steps: seq<Step>, id: JobId)
    requires Invariant(t) && Runs(t, id) && !Get(t, id).aborted && Has(Execute(t, steps), id)
    ensures Get(Execute(t, steps), id).state == Verdict(steps, id)
    ensures Runs(Execute(t, steps), id) ==> (Get(Execute(t, steps), id).aborted <==> CancelStep(id) in steps)
  {
    if steps != [] {
      var front, last := steps[..|steps| - 1], steps[|steps| - 1];
      var s := Execute(t, front);
      EveryRun(t, front);
      HasIndex(t, IndexOfJob(t.jobs, id));
      StillThere(s, last, id);
      EndsByVerdict(t, front, id);
      StepExactly(s, last, id);
      HasIndex(s, IndexOfJob(s.jobs, id));
      assert JobInvariant(Get(s, id), s.counter);
      VerdictStep(Get(s, id), front, last);
      assert steps == front + [last];
    }
  }

  lemma VerdictStep(job: Job, front: seq<Step>, last: Step)
    requires job.state == Verdict(front, job.id) && (job.state == Running <==> !job.settled)
    requires job.state == Running ==> (job.aborted <==> CancelStep(job.id) in front)
    ensures var after := Changed(job, last);
            && after.state == Verdict(front + [last], job.id)
            && (after.state == Running ==> (after.aborted <==> CancelStep(job.id) in front + [last]))
  {
    assert (front + [last])[..|front|] == front;
  }

  // ---------------------------------------------------------------- a new job

  // A start joins a running job exactly when its key is neither null nor empty and some running job has it; otherwise
  // it adds a running job under the next number.
  lemma StartExactly(t: Table, kind: string, key: Option<string>, now: int)
    requires Invariant(t)
    ensures var started := Start(t, kind, key, now);
            && (started.reused <==> key.Some? && key.value != "" && exists job :: job in t.jobs && job.key == key && job.state == Running)
            && (!started.reused ==>
                  && started.id == JobId(now, t.counter + 1) && started.table.counter == t.counter + 1 && Has(started.table, started.id)
                  && Get(started.table, started.id) == Job(started.id, kind, key, Running, now, None, JobEvents.Log([], 0), None, None, false, false))
            && (started.reused ==> exists job :: job in t.jobs && job.id == started.id && job.key == key && job.state == Running)
  {
    var started, pruned := Start(t, kind, key, now), Prune(t, now);
    StartInvariant(t, kind, key, now);
    FilterInvariant(t.jobs, Kept(now), t.counter);
    forall job | job in t.jobs && job.state == Running
      ensures job in pruned.jobs
    {
      var i :| 0 <= i < |t.jobs| && t.jobs[i] == job;
      assert JobInvariant(t.jobs[i], t.counter);
    }
    assert forall job :: job in pruned.jobs ==> job in t.jobs;
    if !started.reused {
      HasIndex(started.table, |pruned.jobs|);
    }
  }

  // ---------------------------------------------------------------- the code of an error

  // A code begins with a capital, has at least four characters, and is made of capitals, digits and underscores.
  predicate IsCode(s: string) {
    |s| >= 4 && s[0] in "ABCDEFGHIJKLMNOPQRSTUVWXYZ" && forall i :: 0 <= i < |s| ==> s[i] in "ABCDEFGHIJKLMNOPQRSTUVWXYZ" + "0123456789_"
  }

  lemma CapitalExactly(c: char, capitals: string)
    requires capitals == "ABCDEFGHIJKLMNOPQRSTUVWXYZ"
    ensures 'A' <= c <= 'Z' <==> c in capitals
  {
    if 'A' <= c <= 'Z' {
      assert capitals[c as int - 65] == c;
    }
  }

  lemma OtherExactly(c: char, others: string)
    requires others == "0123456789_"
    ensures '0' <= c <= '9' || c == '_' <==> c in others
  {
    if '0' <= c <= '9' {
      assert others[c as int - 48] == c;
    }
    assert others[10] == '_';
  }

  lemma CodeCharExactly(c: char)
    ensures 'A' <= c <= 'Z' <==> c in "ABCDEFGHIJKLMNOPQRSTUVWXYZ"
    ensures CodeChar(c) <==> c in "ABCDEFGHIJKLMNOPQRSTUVWXYZ" + "0123456789_"
  {
    CapitalExactly(c, "ABCDEFGHIJKLMNOPQRSTUVWXYZ");
    OtherExactly(c, "0123456789_");
  }

  lemma {:induction false} CodeLengthIs(s: string, n: nat)
    requires n <= |s| && (forall i :: 0 <= i < n ==> CodeChar(s[i])) && (n < |s| ==> !CodeChar(s[n]))
    ensures CodeLength(s) == n
  {
    if n > 0 {
      CodeLengthIs(s[1..], n - 1);
    }
  }

  lemma {:induction false} CodeLengthFacts(s: string)
    ensures forall i :: 0 <= i < CodeLength(s) ==> CodeChar(s[i])
    ensures CodeLength(s) < |s| ==> !CodeChar(s[CodeLength(s)])
  {
    if s != "" && CodeChar(s[0]) {
      CodeLengthFacts(s[1..]);
    }
  }

  lemma IsCodeExactly(s: string)
    ensures IsCode(s) <==> |s| >= 4 && 'A' <= s[0] <= 'Z' && forall i :: 0 <= i < |s| ==> CodeChar(s[i])
  {
    forall c
      ensures 'A' <= c <= 'Z' <==> c in "ABCDEFGHIJKLMNOPQRSTUVWXYZ"
      ensures CodeChar(c) <==> c in "ABCDEFGHIJKLMNOPQRSTUVWXYZ" + "0123456789_"
    {
      CodeCharExactly(c);
    }
  }

  // A message that begins with a code and a colon gives that code,
  lemma CodeFound(message: string, code: string, rest: string)
    requires IsCode(code) && message == code + (":" + rest)
    ensures ErrorCode(message) == code
  {
    IsCodeExactly(code);
    assert message[|code|] == ':' && forall i :: 0 <= i < |code| ==> message[i] == code[i];
    CodeLengthIs(message, |code|);
    assert message[..|code|] == code;
  }

  // and any other gives JOB_FAILED.
  lemma CodeMissing(message: string) returns (code: string, rest: string)
    ensures ErrorCode(message) == "JOB_FAILED" || (IsCode(code) && message == code + (":" + rest) && ErrorCode(message) == code)
  {
    CodeLengthFacts(message);
    var n := CodeLength(message);
    code, rest := "", "";
    if n >= 4 && 'A' <= message[0] <= 'Z' && n < |message| && message[n] == ':' {
      code, rest := message[..n], message[n + 1..];
      assert message == code + (":" + rest);
      IsCodeExactly(code);
    }
  }

  lemma EndsWithExactly(s: string, suffix: string)
    ensures EndsWith(s, suffix) <==> exists front :: s == front + suffix
  {
    if EndsWith(s, suffix) {
      assert s == s[..|s| - |suffix|] + suffix;
    }
    forall front | s == front + suffix
      ensures EndsWith(s, suffix)
    {
      assert s[|s| - |suffix|..] == suffix;
    }
  }

  // Cancelling succeeds exactly for a running job, and marks that job only.
  lemma CancelExactly(t: Table, id: JobId)
    requires Invariant(t)
    ensures Cancel(t, id).1 <==> Runs(t, id)
    ensures !Runs(t, id) ==> Cancel(t, id).0 == t
    ensures Runs(t, id) ==> Has(Cancel(t, id).0, id) && Get(Cancel(t, id).0, id) == Get(t, id).(aborted := true)
  {
    if Runs(t, id) {
      StepExactly(t, CancelStep(id), id);
    }
  }
}
