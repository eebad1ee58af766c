// That the desktop host works off its queue.
module HostProgress {
  // Where its directory is at every moment, which commands it takes, and how every link of the queue moves.

  import opened Sequences
  import opened DesktopHost

  // ---------------------------------------------------------------- which commands are fast, and which are refused

  // Argument lists that begin with one of these are answered at once.
  lemma FastPathExactly(line: Line)
    ensures FastPath(line) <==>
      && line.message.Command?
      && var args := line.message.args;
         || ["lean", "status"] <= args || ["job", "list"] <= args
         || ((["job", "poll"] <= args || ["job", "cancel"] <= args) && |args| > 2 && args[2] != "")
  {
    if line.message.Command? {
      var args := line.message.args;
      TwoWords(args, "lean", "status");
      TwoWords(args, "job", "list");
      TwoWords(args, "job", "poll");
      TwoWords(args, "job", "cancel");
    }
  }

  lemma TwoWords(args: seq<string>, a: string, b: string)
    requires a != "" && b != ""
    ensures [a, b] <= args <==> Arg(args, 0) == a && Arg(args, 1) == b
  {
    if |args| >= 2 {
      assert [a, b] <= args <==> args[..2] == [a, b];
      assert args[..2] == [args[0], args[1]];
    }
  }

  // Argument lists that need a terminal: none at all, an empty command, or one of these.
  lemma BlockedExactly(args: seq<string>)
    ensures Blocked(args) <==>
      || args == [] || args[0] == "" || args[0] == "bridge" || args == ["atlas"]
      || ["secrets", "set"] <= args || ["formal", "setup"] <= args || ["update", "apply"] <= args || ["update", "rollback"] <= args
      || ["atlas", "open"] <= args || (["atlas"] <= args && "--no-open" in args)
      || (["provider", "login"] <= args && "--json" !in args) || (["lean", "install"] <= args && "--background" !in args)
  {
    if args != [] {
      assert args == [args[0]] + args[1..];
      TwoWords(args, "secrets", "set");
      TwoWords(args, "formal", "setup");
      TwoWords(args, "update", "apply");
      TwoWords(args, "update", "rollback");
      TwoWords(args, "atlas", "open");
      TwoWords(args, "provider", "login");
      TwoWords(args, "lean", "install");
      assert ["atlas"] <= args <==> args[0] == "atlas";
      OtherWord(args, "--no-open");
      OtherWord(args, "--json");
      OtherWord(args, "--background");
    }
  }

  lemma OtherWord(args: seq<string>, word: string)
    requires args != []
    ensures args[0] != word ==> (word in args <==> word in args[1..])
  {
    assert args == [args[0]] + args[1..];
  }

  // ---------------------------------------------------------------- how a link moves

  // The link runs a command: a job's, or that of a line which is neither refused nor without its directory.
  predicate HasCommand(h: Host, task: Task) {
    match task.work
    case JobCommand(_) => true
    case Request(n) =>
      n < |h.lines| && h.lines[n].message.Command? && h.lines[n].message.directoryExists && !Blocked(h.lines[n].message.args)
  }

  // The steps that move link i on, and where to.
  function MovedBy(h: Host, i: nat, step: Step): Phase
    requires i < |h.chain|
  {
    var task := h.chain[i];
    match step
    case Start(j) => if j == i && task.phase == Waiting && (i == 0 || h.chain[i - 1].phase == Done) then Started else task.phase
    case Capture(j, _) => if j == i && task.phase == Started && HasCommand(h, task) then Capturing else task.phase
    case Release(j, _) => if j == i && task.phase == Capturing then Captured else task.phase
    case Finish(j) =>
      if j == i && (task.phase == Captured || (task.phase == Started && !HasCommand(h, task))) then Done else task.phase
    case _ => task.phase
  }

  lemma PhaseExactly(h: Host, step: Step, i: nat)
    requires i < |h.chain|
    ensures |Next(h, step).chain| >= |h.chain|
    ensures Next(h, step).chain[i] == h.chain[i].(phase := MovedBy(h, i, step))
  {
  }

  // Only a line off the fast path and a job's command join the chain, at its end and waiting.
  lemma ChainExactly(h: Host, step: Step)
    ensures var joins := step.Submit? || (step.Arrive? && !FastPath(step.line));
            && |Next(h, step).chain| == |h.chain| + (if joins then 1 else 0)
            && (joins ==> Next(h, step).chain[|h.chain|]
                          == Task(if step.Submit? then JobCommand(step.cwd) else Request(|h.lines|), Waiting))
  {
  }

  // ---------------------------------------------------------------- where the directory is

  // The directory a link's command runs in: that of the job's call, or of the request.
  function CommandDirectory(h: Host, task: Task): string {
    match task.work
    case JobCommand(cwd) => cwd
    case Request(n) => if n < |h.lines| && h.lines[n].message.Command? then h.lines[n].message.cwd else HOME
  }

  // Where the last change of directory that succeeded went.
  function LastEntered(steps: seq<Step>): string {
    if steps == [] then HOME
    else
      var before, step := Execute(steps[..|steps| - 1]), steps[|steps| - 1];
      var stays := LastEntered(steps[..|steps| - 1]);
      if step.Capture? && step.entered && step.i < |before.chain| && MovedBy(before, step.i, step) == Capturing && before.chain[step.i].phase == Started then
        CommandDirectory(before, before.chain[step.i])
      else if step.Release? && step.returned && step.i < |before.chain| && before.chain[step.i].phase == Capturing then HOME
      else stays
  }

  lemma {:induction false} DirectoryExactly(steps: seq<Step>)
    ensures Execute(steps).cwd == LastEntered(steps)
  {
    if steps != [] {
      DirectoryExactly(steps[..|steps| - 1]);
      var before, step := Execute(steps[..|steps| - 1]), steps[|steps| - 1];
      if (step.Capture? || step.Release?) && step.i < |before.chain| {
        PhaseExactly(before, step, step.i);
      }
    }
  }

  // ---------------------------------------------------------------- the queue is worked off

  // The first link that is not done; the length of the chain when all are.
  function FirstOpen(chain: seq<Task>): (i: nat)
    ensures i <= |chain| && forall j :: 0 <= j < i ==> chain[j].phase == Done
    ensures i < |chain| ==> chain[i].phase != Done
  {
    if chain == [] || chain[0].phase != Done then 0 else 1 + FirstOpen(chain[1..])
  }

  // What that link does next, when every change of directory succeeds.
  function NextMove(h: Host): Step
    requires FirstOpen(h.chain) < |h.chain|
  {
    var i := FirstOpen(h.chain);
    match h.chain[i].phase
    case Waiting => Start(i)
    case Started => if HasCommand(h, h.chain[i]) then Capture(i, true) else Finish(i)
    case Capturing => Release(i, true)
    case _ => Finish(i)
  }

  function StepsLeft(phase: Phase): nat {
    match phase case Waiting => 4 case Started => 3 case Capturing => 2 case Captured => 1 case Done => 0
  }

  function Remaining(chain: seq<Task>): nat {
    if chain == [] then 0 else StepsLeft(chain[0].phase) + Remaining(chain[1..])
  }

  lemma {:induction false} RemainingUpdate(chain: seq<Task>, i: nat, phase: Phase)
    requires i < |chain| && StepsLeft(phase) < StepsLeft(chain[i].phase)
    ensures Remaining(chain[i := chain[i].(phase := phase)]) < Remaining(chain)
  {
    var moved := chain[i := chain[i].(phase := phase)];
    if i == 0 {
      assert moved[1..] == chain[1..];
    } else {
      assert moved[1..] == chain[1..][i - 1 := chain[1..][i - 1].(phase := phase)];
      RemainingUpdate(chain[1..], i - 1, phase);
    }
  }

  // The host is never stuck: while a link is open, its next move brings it on and nothing else changes in the chain.
  lemma MoveAdvances(h: Host)
    requires FirstOpen(h.chain) < |h.chain|
    ensures Remaining(Next(h, NextMove(h)).chain) < Remaining(h.chain) && Next(h, NextMove(h)).lines == h.lines
  {
    var i, step := FirstOpen(h.chain), NextMove(h);
    PhaseExactly(h, step, i);
    var next := Next(h, step);
    assert next.chain == h.chain[i := h.chain[i].(phase := MovedBy(h, i, step))];
    RemainingUpdate(h.chain, i, MovedBy(h, i, step));
  }

  // From every state a run can reach, the queue can be worked off without a new line; then every line that has
  // arrived is answered exactly once.
  lemma {:induction false} WorkedOff(steps: seq<Step>) returns (more: seq<Step>)
    ensures Execute(steps + more).lines == Execute(steps).lines
    ensures forall i :: 0 <= i < |Execute(steps + more).chain| ==> Execute(steps + more).chain[i].phase == Done
    ensures forall n: nat :: n < |Execute(steps).lines| ==> Answered(Execute(steps + more).answers, n) == 1
    decreases Remaining(Execute(steps).chain)
  {
    var h := Execute(steps);
    if FirstOpen(h.chain) < |h.chain| {
      var step := NextMove(h);
      MoveAdvances(h);
      assert (steps + [step])[..|steps|] == steps;
      var rest := WorkedOff(steps + [step]);
      more := [step] + rest;
      assert steps + more == steps + [step] + rest;
    } else {
      more := [];
      assert steps + more == steps;
      forall n: nat | n < |h.lines|
        ensures Answered(h.answers, n) == 1
      {
        EachLineAnsweredOnce(steps, n);
      }
    }
  }
}
