// The desktop host: requests run one at a time through a promise chain, job commands share that chain,
// and a fast path answers job polling at once.
module DesktopHost {
  import opened Sequences

  // ---------------------------------------------------------------- messages

  // A parsed input line. `id` is the id its answer carries: the request's own, or what requestIdOf
  // recovers from an invalid one.
  datatype Message = Invalid | SecretSet | Command(args: seq<string>, cwd: string, directoryExists: bool)
  datatype Line = Line(id: string, message: Message)

  function Arg(args: seq<string>, i: nat): string {
    if i < |args| then args[i] else ""
  }

  // Answered without queueing: job polling, cancelling and listing, and the Lean status.
  predicate FastPath(line: Line) {
    && line.message.Command?
    && var args := line.message.args;
       var action, jobId := Arg(args, 1), Arg(args, 2);
       || (Arg(args, 0) == "lean" && action == "status")
       || (Arg(args, 0) == "job" && (action == "list" || ((action == "poll" || action == "cancel") && jobId != "")))
  }

  // blockedCommandReason(args) !== null
  predicate Blocked(args: seq<string>) {
    var command, sub := Arg(args, 0), Arg(args, 1);
    var rest := if args == [] then [] else args[1..];
    || command == ""
    || command == "bridge"
    || (command == "secrets" && sub == "set")
    || (command == "provider" && sub == "login" && "--json" !in rest)
    || (command == "atlas" && (rest == [] || sub == "open" || "--no-open" in rest))
    || (command == "formal" && sub == "setup")
    || (command == "lean" && sub == "install" && "--background" !in rest)
    || (command == "update" && (sub == "apply" || sub == "rollback"))
  }

  // Whether execute reaches runCaptured for this line.
  predicate Runs(message: Message) {
    message.Command? && !Blocked(message.args) && message.directoryExists
  }

  // ---------------------------------------------------------------- the host as a step system

  // A link of the promise chain: a request line by its arrival number, or a job's command.
  datatype Work = Request(line: nat) | JobCommand(cwd: string)
  datatype Phase = Waiting | Started | Capturing | Captured | Done
  datatype Task = Task(work: Work, phase: Phase)

  datatype Answer = Answer(line: nat, id: string, fast: bool)

  // `capture` names the task whose output is being captured; `cwd` is the process-wide directory, and
  // `strayed` says that the last change of it failed.
  datatype Host = Host(lines: seq<Line>, chain: seq<Task>, capture: Option<nat>, cwd: string, strayed: bool, answers: seq<Answer>)

  datatype Step =
    | Arrive(line: Line)        // onLine
    | Submit(cwd: string)       // a job calls the command runner
    | Start(i: nat)             // the link before is done, so this one starts
    // runCaptured sets the capture and changes directory, which may fail
    | Capture(i: nat, entered: bool)
    // its finally block, which swallows a failing change back
    | Release(i: nat, returned: bool)
    | Finish(i: nat)            // the answer is sent, or the job's promise settled

  const HOME := "home"

  function CapturesTask(h: Host, task: Task): bool {
    match task.work
    case JobCommand(_) => true
    case Request(n) => n < |h.lines| && Runs(h.lines[n].message)
  }

  function DirectoryOf(h: Host, task: Task): string {
    match task.work
    case JobCommand(cwd) => cwd
    case Request(n) => if n < |h.lines| && h.lines[n].message.Command? then h.lines[n].message.cwd else HOME
  }

  predicate MayStart(h: Host, i: nat) {
    i < |h.chain| && h.chain[i].phase.Waiting? && (i == 0 || h.chain[i - 1].phase.Done?)
  }

  predicate MayFinish(h: Host, i: nat) {
    i < |h.chain| && (h.chain[i].phase.Captured? || (h.chain[i].phase.Started? && !CapturesTask(h, h.chain[i])))
  }

  function SetPhase(h: Host, i: nat, phase: Phase): Host
    requires i < |h.chain|
  {
    h.(chain := h.chain[i := h.chain[i].(phase := phase)])
  }

  function Next(h: Host, step: Step): Host {
    match step
    case Arrive(line) =>
      var n := |h.lines|;
      if FastPath(line) then h.(lines := h.lines + [line], answers := h.answers + [Answer(n, line.id, true)])
      else h.(lines := h.lines + [line], chain := h.chain + [Task(Request(n), Waiting)])
    case Submit(cwd) => h.(chain := h.chain + [Task(JobCommand(cwd), Waiting)])
    case Start(i) => if MayStart(h, i) then SetPhase(h, i, Started) else h
    case Capture(i, entered) =>
      if i < |h.chain| && h.chain[i].phase.Started? && CapturesTask(h, h.chain[i])
      then SetPhase(h, i, Capturing).(capture := Some(i), cwd := if entered then DirectoryOf(h, h.chain[i]) else h.cwd, strayed := !entered)
      else h
    case Release(i, returned) =>
      if i < |h.chain| && h.chain[i].phase.Capturing?
      then SetPhase(h, i, Captured).(capture := None, cwd := if returned then HOME else h.cwd, strayed := !returned)
      else h
    case Finish(i) =>
      if !MayFinish(h, i) then h
      else
        var done := SetPhase(h, i, Done);
        match h.chain[i].work
        case JobCommand(_) => done
        case Request(n) => if n < |h.lines| then done.(answers := h.answers + [Answer(n, h.lines[n].id, false)]) else done
  }

  const IDLE := Host([], [], None, HOME, false, [])

  function Execute(steps: seq<Step>): Host {
    if steps == [] then IDLE else Next(Execute(steps[..|steps| - 1]), steps[|steps| - 1])
  }

  // The host's variables and the functions that change them, each between two awaits.
  class Process {
    var lines: seq<Line>
    var chain: seq<Task>
    var capture: Option<nat>
    var cwd: string
    var strayed: bool
    var answers: seq<Answer>

    constructor ()
      ensures State() == IDLE
    {
      lines, chain, capture, cwd, strayed, answers := [], [], None, HOME, false, [];
    }

    function State(): Host
      reads this
    {
      Host(lines, chain, capture, cwd, strayed, answers)
    }

    method OnLine(line: Line)
      modifies this
      ensures State() == Next(old(State()), Arrive(line))
    {
      var n := |lines|;
      lines := lines + [line];
      if FastPath(line) {
        answers := answers + [Answer(n, line.id, true)];
      } else {
        chain := chain + [Task(Request(n), Waiting)];
      }
    }

    method RunJobCommand(directory: string)
      modifies this
      ensures State() == Next(old(State()), Submit(directory))
    {
      chain := chain + [Task(JobCommand(directory), Waiting)];
    }

    method StartTask(i: nat)
      requires MayStart(State(), i)
      modifies this
      ensures State() == Next(old(State()), Start(i))
    {
      chain := chain[i := chain[i].(phase := Started)];
    }

    method BeginCapture(i: nat, entered: bool)
      requires i < |chain| && chain[i].phase.Started? && CapturesTask(State(), chain[i])
      modifies this
      ensures State() == Next(old(State()), Capture(i, entered))
    {
      capture := Some(i);
      strayed := !entered;
      if entered {
        cwd := DirectoryOf(State(), chain[i]);
      }
      chain := chain[i := chain[i].(phase := Capturing)];
    }

    method EndCapture(i: nat, returned: bool)
      requires i < |chain| && chain[i].phase.Capturing?
      modifies this
      ensures State() == Next(old(State()), Release(i, returned))
    {
      capture := None;
      strayed := !returned;
      if returned {
        cwd := HOME;
      }
      chain := chain[i := chain[i].(phase := Captured)];
    }

    method FinishTask(i: nat)
      requires MayFinish(State(), i)
      modifies this
      ensures State() == Next(old(State()), Finish(i))
    {
      var work := chain[i].work;
      chain := chain[i := chain[i].(phase := Done)];
      if work.Request? && work.line < |lines| {
        answers := answers + [Answer(work.line, lines[work.line].id, false)];
      }
    }

    // Whatever happens next; what cannot happen in this state has no effect.
    method Perform(step: Step)
      modifies this
      ensures State() == Next(old(State()), step)
    {
      match step
      case Arrive(line) => OnLine(line);
      case Submit(directory) => RunJobCommand(directory);
      case Start(i) => if MayStart(State(), i) { StartTask(i); }
      case Capture(i, entered) =>
        if i < |chain| && chain[i].phase.Started? && CapturesTask(State(), chain[i]) { BeginCapture(i, entered); }
      case Release(i, returned) => if i < |chain| && chain[i].phase.Capturing? { EndCapture(i, returned); }
      case Finish(i) => if MayFinish(State(), i) { FinishTask(i); }
    }
  }

  // A process that starts fresh goes through exactly the states of the run.
  method RunSteps(steps: seq<Step>) returns (process: Process)
    ensures fresh(process) && process.State() == Execute(steps)
  {
    process := new Process();
    for k := 0 to |steps|
      invariant fresh(process) && process.State() == Execute(steps[..k])
    {
      assert steps[..k + 1][..k] == steps[..k];
      process.Perform(steps[k]);
    }
    assert steps[..|steps|] == steps;
  }

  // ---------------------------------------------------------------- what every run keeps

  // How often a line has been answered.
  function Answered(answers: seq<Answer>, n: nat): nat {
    if answers == [] then 0
    else Answered(answers[..|answers| - 1], n) + if answers[|answers| - 1].line == n then 1 else 0
  }

  predicate Active(phase: Phase) { phase.Started? || phase.Capturing? || phase.Captured? }

  // The chain is worked off from the front: done links, at most one active link, waiting links.
  ghost predicate ChainInOrder(chain: seq<Task>) {
    && (forall i, j :: 0 <= i < j < |chain| && !chain[j].phase.Waiting? ==> chain[i].phase.Done?)
    && (forall i, j :: 0 <= i < j < |chain| && chain[i].work.Request? && chain[j].work.Request? ==> chain[i].work.line < chain[j].work.line)
  }

  ghost predicate CaptureMatches(h: Host) {
    if h.capture.None? then (!h.strayed ==> h.cwd == HOME) && forall i :: 0 <= i < |h.chain| ==> !h.chain[i].phase.Capturing?
    else
      && h.capture.value < |h.chain|
      && (!h.strayed ==> h.cwd == DirectoryOf(h, h.chain[h.capture.value]))
      && forall i :: 0 <= i < |h.chain| ==> (h.chain[i].phase.Capturing? <==> i == h.capture.value)
  }

  // The link of a queued line.
  ghost predicate QueuedAt(h: Host, n: nat, i: nat) {
    i < |h.chain| && h.chain[i].work == Request(n)
  }

  ghost predicate LinesAccounted(h: Host) {
    && (forall i :: 0 <= i < |h.chain| && h.chain[i].work.Request? ==>
          h.chain[i].work.line < |h.lines| && !FastPath(h.lines[h.chain[i].work.line]))
    && (forall n :: 0 <= n < |h.lines| && FastPath(h.lines[n]) ==> Answered(h.answers, n) == 1)
    && (forall n :: 0 <= n < |h.lines| && !FastPath(h.lines[n]) ==> exists i :: QueuedAt(h, n, i))
    && (forall n: nat, i: nat :: QueuedAt(h, n, i) ==> Answered(h.answers, n) == if h.chain[i].phase.Done? then 1 else 0)
    && (forall n :: n >= |h.lines| ==> Answered(h.answers, n) == 0)
  }

  ghost predicate AnswersInOrder(h: Host) {
    && (forall a :: 0 <= a < |h.answers| ==>
          && h.answers[a].line < |h.lines|
          && h.answers[a].id == h.lines[h.answers[a].line].id
          && (h.answers[a].fast <==> FastPath(h.lines[h.answers[a].line])))
    && (forall a, b :: 0 <= a < b < |h.answers| && h.answers[a].line > h.answers[b].line ==> h.answers[a].fast)
    && (forall a, i :: 0 <= a < |h.answers| && !h.answers[a].fast && 0 <= i < |h.chain| && h.chain[i].work.Request? && !h.chain[i].phase.Done?
          ==> h.answers[a].line < h.chain[i].work.line)
  }

  ghost predicate Invariant(h: Host) {
    ChainInOrder(h.chain) && CaptureMatches(h) && LinesAccounted(h) && AnswersInOrder(h)
  }

  lemma AnswerOnce(answers: seq<Answer>, answer: Answer, n: nat)
    ensures Answered(answers + [answer], n) == Answered(answers, n) + if answer.line == n then 1 else 0
  {
    assert (answers + [answer])[..|answers|] == answers;
  }

  lemma FastArrivalAccounted(h: Host, line: Line)
    requires LinesAccounted(h) && FastPath(line)
    ensures LinesAccounted(Next(h, Arrive(line)))
  {
    var next := Next(h, Arrive(line));
    var n := |h.lines|;
    forall m: nat
      ensures Answered(next.answers, m) == Answered(h.answers, m) + if m == n then 1 else 0
    {
      AnswerOnce(h.answers, Answer(n, line.id, true), m);
    }
    forall m | 0 <= m < |next.lines| && !FastPath(next.lines[m])
      ensures exists i :: QueuedAt(next, m, i)
    {
      assert next.lines[m] == h.lines[m];
      var i :| QueuedAt(h, m, i);
      assert QueuedAt(next, m, i);
    }
    forall m: nat, i: nat | QueuedAt(next, m, i)
      ensures Answered(next.answers, m) == if next.chain[i].phase.Done? then 1 else 0
    {
      assert QueuedAt(h, m, i);
    }
  }

  lemma SlowArrivalAccounted(h: Host, line: Line)
    requires LinesAccounted(h) && !FastPath(line)
    ensures LinesAccounted(Next(h, Arrive(line)))
  {
    var next := Next(h, Arrive(line));
    var n := |h.lines|;
    forall m | 0 <= m < |next.lines| && !FastPath(next.lines[m])
      ensures exists i :: QueuedAt(next, m, i)
    {
      if m < n {
        assert next.lines[m] == h.lines[m];
        var i :| QueuedAt(h, m, i);
        assert QueuedAt(next, m, i);
      } else {
        assert QueuedAt(next, m, |h.chain|);
      }
    }
    forall m: nat, i: nat | QueuedAt(next, m, i)
      ensures Answered(next.answers, m) == if next.chain[i].phase.Done? then 1 else 0
    {
      if i < |h.chain| {
        assert QueuedAt(h, m, i);
      }
    }
  }

  lemma ArriveInvariant(h: Host, line: Line)
    requires Invariant(h)
    ensures Invariant(Next(h, Arrive(line)))
  {
    if FastPath(line) {
      FastArrivalAccounted(h, line);
      AppendAnswer(h, Next(h, Arrive(line)), Answer(|h.lines|, line.id, true));
    } else {
      SlowArrivalAccounted(h, line);
      SlowArrivalOrder(h, line);
    }
    ArrivalCapture(h, line);
  }

  lemma ArrivalCapture(h: Host, line: Line)
    requires Invariant(h)
    ensures ChainInOrder(Next(h, Arrive(line)).chain) && CaptureMatches(Next(h, Arrive(line)))
  {
    ArrivalChain(h, line);
    var next := Next(h, Arrive(line));
    assert forall i :: 0 <= i < |h.chain| ==> next.chain[i] == h.chain[i];
    if h.capture.Some? {
      assert DirectoryOf(next, h.chain[h.capture.value]) == DirectoryOf(h, h.chain[h.capture.value]);
    }
  }

  lemma ArrivalChain(h: Host, line: Line)
    requires ChainInOrder(h.chain) && LinesAccounted(h)
    ensures ChainInOrder(Next(h, Arrive(line)).chain)
  {
    assert forall i :: 0 <= i < |h.chain| ==> Next(h, Arrive(line)).chain[i] == h.chain[i];
  }

  lemma SlowArrivalOrder(h: Host, line: Line)
    requires Invariant(h) && !FastPath(line)
    ensures AnswersInOrder(Next(h, Arrive(line)))
  {
  }

  // Appending an answer keeps the answers in order if it is fast and newest, or queued and next in turn.
  lemma AppendAnswer(h: Host, next: Host, answer: Answer)
    requires AnswersInOrder(h) && h.lines <= next.lines
    requires next.answers == h.answers + [answer] && |next.chain| == |h.chain|
    requires forall i :: 0 <= i < |h.chain| ==> next.chain[i].work == h.chain[i].work && (h.chain[i].phase.Done? ==> next.chain[i].phase.Done?)
    requires answer.line < |next.lines| && answer.id == next.lines[answer.line].id && (answer.fast <==> FastPath(next.lines[answer.line]))
    requires forall a :: 0 <= a < |h.answers| && h.answers[a].line > answer.line ==> h.answers[a].fast
    requires !answer.fast ==> forall i :: 0 <= i < |h.chain| && h.chain[i].work.Request? && !next.chain[i].phase.Done? ==> answer.line < h.chain[i].work.line
    ensures AnswersInOrder(next)
  {
    assert forall n :: 0 <= n < |h.lines| ==> next.lines[n] == h.lines[n];
    assert forall a :: 0 <= a < |h.answers| ==> next.answers[a] == h.answers[a];
  }

  lemma SubmitInvariant(h: Host, cwd: string)
    requires Invariant(h)
    ensures Invariant(Next(h, Submit(cwd)))
  {
    SubmitAccounted(h, cwd);
    SubmitOrder(h, cwd);
  }

  lemma SubmitOrder(h: Host, cwd: string)
    requires Invariant(h)
    ensures var next := Next(h, Submit(cwd)); ChainInOrder(next.chain) && CaptureMatches(next) && AnswersInOrder(next)
  {
    SubmitChain(h, cwd);
    var next := Next(h, Submit(cwd));
    assert forall i :: 0 <= i < |h.chain| ==> next.chain[i] == h.chain[i];
  }

  lemma SubmitChain(h: Host, cwd: string)
    requires ChainInOrder(h.chain)
    ensures ChainInOrder(Next(h, Submit(cwd)).chain)
  {
    assert forall i :: 0 <= i < |h.chain| ==> Next(h, Submit(cwd)).chain[i] == h.chain[i];
  }

  lemma SubmitAccounted(h: Host, cwd: string)
    requires Invariant(h)
    ensures LinesAccounted(Next(h, Submit(cwd)))
  {
    var next := Next(h, Submit(cwd));
    forall m | 0 <= m < |next.lines| && !FastPath(next.lines[m])
      ensures exists i :: QueuedAt(next, m, i)
    {
      var i :| QueuedAt(h, m, i);
      assert QueuedAt(next, m, i);
    }
    forall m: nat, i: nat | QueuedAt(next, m, i)
      ensures Answered(next.answers, m) == if next.chain[i].phase.Done? then 1 else 0
    {
      assert QueuedAt(h, m, i);
    }
  }

  // A step that sends nothing and finishes no link.
  lemma PhaseAccounted(h: Host, next: Host)
    requires LinesAccounted(h) && next.lines == h.lines && next.answers == h.answers
    requires |next.chain| == |h.chain|
    requires forall j :: 0 <= j < |h.chain| ==> next.chain[j].work == h.chain[j].work
    requires forall j :: 0 <= j < |h.chain| ==> (next.chain[j].phase.Done? <==> h.chain[j].phase.Done?)
    ensures LinesAccounted(next)
  {
    forall m | 0 <= m < |next.lines| && !FastPath(next.lines[m])
      ensures exists k :: QueuedAt(next, m, k)
    {
      var k :| QueuedAt(h, m, k);
      assert QueuedAt(next, m, k);
    }
    forall m: nat, k: nat | QueuedAt(next, m, k)
      ensures Answered(next.answers, m) == if next.chain[k].phase.Done? then 1 else 0
    {
      assert QueuedAt(h, m, k);
    }
  }

  lemma FinishAccounted(h: Host, i: nat)
    requires Invariant(h) && MayFinish(h, i)
    ensures LinesAccounted(Next(h, Finish(i)))
  {
    FinishCounts(h, i);
    DoneAccounted(h, Next(h, Finish(i)), i);
  }

  // Link i becomes done, and its line, if it has one, has one answer more.
  lemma DoneAccounted(h: Host, next: Host, i: nat)
    requires LinesAccounted(h) && ChainInOrder(h.chain) && i < |h.chain| && !h.chain[i].phase.Done?
    requires next.lines == h.lines && next.chain == h.chain[i := h.chain[i].(phase := Done)]
    requires forall m: nat :: Answered(next.answers, m) == Answered(h.answers, m) + if QueuedAt(h, m, i) then 1 else 0
    ensures LinesAccounted(next)
  {
    forall m | 0 <= m < |next.lines| && !FastPath(next.lines[m])
      ensures exists k :: QueuedAt(next, m, k)
    {
      var k :| QueuedAt(h, m, k);
      assert QueuedAt(next, m, k);
    }
    forall m: nat, k: nat | QueuedAt(next, m, k)
      ensures Answered(next.answers, m) == if next.chain[k].phase.Done? then 1 else 0
    {
      assert QueuedAt(h, m, k);
    }
  }

  // Finishing a link answers its line, if it has one, and no other.
  lemma FinishCounts(h: Host, i: nat)
    requires Invariant(h) && MayFinish(h, i)
    ensures forall m: nat :: Answered(Next(h, Finish(i)).answers, m) == Answered(h.answers, m) + if QueuedAt(h, m, i) then 1 else 0
  {
    if h.chain[i].work.Request? {
      var n := h.chain[i].work.line;
      forall m: nat
        ensures Answered(Next(h, Finish(i)).answers, m) == Answered(h.answers, m) + if m == n then 1 else 0
      {
        AnswerOnce(h.answers, Answer(n, h.lines[n].id, false), m);
      }
    }
  }

  lemma FinishInvariant(h: Host, i: nat)
    requires Invariant(h) && MayFinish(h, i)
    ensures Invariant(Next(h, Finish(i)))
  {
    FinishAccounted(h, i);
    FinishOrder(h, i);
  }

  lemma FinishOrder(h: Host, i: nat)
    requires Invariant(h) && MayFinish(h, i)
    ensures var next := Next(h, Finish(i)); ChainInOrder(next.chain) && CaptureMatches(next) && AnswersInOrder(next)
  {
    FinishCapture(h, i);
    if h.chain[i].work.Request? {
      var n := h.chain[i].work.line;
      AppendAnswer(h, Next(h, Finish(i)), Answer(n, h.lines[n].id, false));
    }
  }

  lemma FinishCapture(h: Host, i: nat)
    requires Invariant(h) && MayFinish(h, i)
    ensures var next := Next(h, Finish(i)); ChainInOrder(next.chain) && CaptureMatches(next)
  {
    FinishChain(h.chain, i);
    assert h.capture != Some(i);
  }

  lemma FinishChain(chain: seq<Task>, i: nat)
    requires ChainInOrder(chain) && i < |chain| && !chain[i].phase.Waiting?
    ensures ChainInOrder(chain[i := chain[i].(phase := Done)])
  {
  }

  lemma StartInvariant(h: Host, i: nat)
    requires Invariant(h)
    ensures Invariant(Next(h, Start(i)))
  {
    if MayStart(h, i) {
      PhaseAccounted(h, Next(h, Start(i)));
    }
  }

  lemma CaptureInvariant(h: Host, i: nat, entered: bool)
    requires Invariant(h)
    ensures Invariant(Next(h, Capture(i, entered)))
  {
    if Next(h, Capture(i, entered)) != h {
      PhaseAccounted(h, Next(h, Capture(i, entered)));
    }
  }

  lemma ReleaseInvariant(h: Host, i: nat, returned: bool)
    requires Invariant(h)
    ensures Invariant(Next(h, Release(i, returned)))
  {
    if Next(h, Release(i, returned)) != h {
      PhaseAccounted(h, Next(h, Release(i, returned)));
    }
  }

  lemma NextInvariant(h: Host, step: Step)
    requires Invariant(h)
    ensures Invariant(Next(h, step))
  {
    match step
    case Arrive(line) => ArriveInvariant(h, line);
    case Submit(cwd) => SubmitInvariant(h, cwd);
    case Start(i) => StartInvariant(h, i);
    case Capture(i, entered) => CaptureInvariant(h, i, entered);
    case Release(i, returned) => ReleaseInvariant(h, i, returned);
    case Finish(i) => if MayFinish(h, i) { FinishInvariant(h, i); }
  }

  // The lines that arrive in a run.
  function Arrivals(steps: seq<Step>): seq<Line> {
    if steps == [] then []
    else Arrivals(steps[..|steps| - 1]) + if steps[|steps| - 1].Arrive? then [steps[|steps| - 1].line] else []
  }

  lemma {:induction false} LinesAreArrivals(steps: seq<Step>)
    ensures Execute(steps).lines == Arrivals(steps)
  {
    if steps != [] {
      LinesAreArrivals(steps[..|steps| - 1]);
      StepLines(Execute(steps[..|steps| - 1]), steps[|steps| - 1]);
    }
  }

  lemma StepLines(h: Host, step: Step)
    ensures Next(h, step).lines == h.lines + if step.Arrive? then [step.line] else []
  {
  }

  lemma {:induction false} EveryRun(steps: seq<Step>)
    ensures Invariant(Execute(steps)) && Execute(steps).lines == Arrivals(steps)
  {
    LinesAreArrivals(steps);
    if steps != [] {
      EveryRun(steps[..|steps| - 1]);
      NextInvariant(Execute(steps[..|steps| - 1]), steps[|steps| - 1]);
    }
  }

  // Every line is answered at most once, under its own id; once the chain is worked off, exactly once.
  lemma EachLineAnsweredOnce(steps: seq<Step>, n: nat)
    requires n < |Execute(steps).lines|
    ensures var h := Execute(steps);
            && Answered(h.answers, n) <= 1
            && (FastPath(h.lines[n]) || (forall i :: 0 <= i < |h.chain| ==> h.chain[i].phase.Done?) ==> Answered(h.answers, n) == 1)
            && (forall a :: 0 <= a < |h.answers| ==> h.answers[a].line < |h.lines| && h.answers[a].id == h.lines[h.answers[a].line].id)
  {
    EveryRun(steps);
    var h := Execute(steps);
    if !FastPath(h.lines[n]) {
      var i :| QueuedAt(h, n, i);
    }
  }

  // A fast answer is sent when its line arrives, after every answer sent before.
  lemma {:induction false} FastInOrder(steps: seq<Step>, a: nat, b: nat)
    requires a < b < |Execute(steps).answers| && Execute(steps).answers[b].fast
    ensures Execute(steps).answers[a].line < Execute(steps).answers[b].line
  {
    var front := steps[..|steps| - 1];
    EveryRun(front);
    StepAnswers(Execute(front), steps[|steps| - 1]);
    if b < |Execute(front).answers| {
      FastInOrder(front, a, b);
    }
  }

  // A step keeps the answers sent, and a fast one it adds is for the line that has just arrived.
  lemma StepAnswers(h: Host, step: Step)
    requires AnswersInOrder(h)
    ensures h.answers <= Next(h, step).answers && |Next(h, step).answers| <= |h.answers| + 1
    ensures forall b :: |h.answers| <= b < |Next(h, step).answers| && Next(h, step).answers[b].fast ==> Next(h, step).answers[b].line == |h.lines|
    ensures forall a :: 0 <= a < |h.answers| ==> h.answers[a].line < |h.lines|
  {
  }

  // An answer overtakes an earlier line only on the fast path.
  lemma OnlyFastPathOvertakes(steps: seq<Step>, a: nat, b: nat)
    requires a < b < |Execute(steps).answers|
    requires Execute(steps).answers[a].line > Execute(steps).answers[b].line
    ensures var h := Execute(steps);
            h.answers[a].fast && h.answers[a].line < |h.lines| && FastPath(h.lines[h.answers[a].line]) && !h.answers[b].fast
  {
    EveryRun(steps);
    var h := Execute(steps);
    if h.answers[b].fast {
      FastInOrder(steps, a, b);
    }
  }

  // At most one link is active, so at most one command is captured, in its own directory if that could be
  // entered.
  lemma OneCommandAtATime(steps: seq<Step>, i: nat, j: nat)
    requires var h := Execute(steps);
             i < |h.chain| && j < |h.chain| && Active(h.chain[i].phase) && Active(h.chain[j].phase)
    ensures i == j
    ensures var h := Execute(steps);
            && (h.capture == Some(i) <==> h.chain[i].phase.Capturing?)
            && (h.chain[i].phase.Capturing? && !h.strayed ==> h.cwd == DirectoryOf(h, h.chain[i]))
  {
    EveryRun(steps);
    var h := Execute(steps);
    if h.capture.Some? {
      assert h.chain[h.capture.value].phase.Capturing?;
    }
  }

  // Between commands, idle or not, the capture is empty and the process is back in its own directory, if it
  // could be left for it.
  lemma NothingCapturedBetween(steps: seq<Step>)
    requires forall i :: 0 <= i < |Execute(steps).chain| ==> !Execute(steps).chain[i].phase.Capturing?
    ensures Execute(steps).capture == None && (!Execute(steps).strayed ==> Execute(steps).cwd == HOME)
  {
    EveryRun(steps);
  }

  // It always could, as long as no change of directory failed.
  lemma {:induction false} StraysOnlyOnFailure(steps: seq<Step>)
    requires forall k :: 0 <= k < |steps| ==> (steps[k].Capture? ==> steps[k].entered) && (steps[k].Release? ==> steps[k].returned)
    ensures !Execute(steps).strayed
  {
    if steps != [] {
      StraysOnlyOnFailure(steps[..|steps| - 1]);
    }
  }

  // Links start in the order in which they joined the chain.
  lemma LinksStartInOrder(steps: seq<Step>, i: nat, j: nat)
    requires i < j < |Execute(steps).chain| && !Execute(steps).chain[j].phase.Waiting?
    ensures Execute(steps).chain[i].phase.Done?
  {
    EveryRun(steps);
  }
}
