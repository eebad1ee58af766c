// The bounded event log of a background job and the pollers that follow it.
module JobEvents {
  import opened Sequences

  const MAX_EVENTS := 5000

  datatype Event = Event(number: int, payload: string)

  // `emitted` is the counter captured by the job's emit function.
  datatype Log = Log(events: seq<Event>, emitted: nat)

  const EMPTY_LOG := Log([], 0)

  function Max(a: int, b: int): int { if a >= b then a else b }

  // push, then splice away what exceeds the bound
  function Emit(log: Log, payload: string): Log {
    var pushed := log.events + [Event(log.emitted, payload)];
    Log(if |pushed| > MAX_EVENTS then pushed[|pushed| - MAX_EVENTS..] else pushed, log.emitted + 1)
  }

  datatype Polled = Polled(events: seq<Event>, next: int)

  function From(since: int): Event -> bool {
    (e: Event) => e.number >= since
  }

  function Poll(log: Log, since: int): Polled {
    var last := if log.events != [] then log.events[|log.events| - 1].number + 1 else since;
    Polled(Filter(From(since), log.events), Max(last, since))
  }

  // ---------------------------------------------------------------- what the log holds

  // The log stores the latest MAX_EVENTS of all the events ever emitted, which are numbered from 0.
  ghost predicate Holds(log: Log, history: seq<Event>) {
    && log.emitted == |history|
    && (forall i :: 0 <= i < |history| ==> history[i].number == i)
    && log.events == history[Max(0, |history| - MAX_EVENTS)..]
  }

  lemma EmitHolds(log: Log, history: seq<Event>, payload: string)
    requires Holds(log, history)
    ensures Holds(Emit(log, payload), history + [Event(log.emitted, payload)])
  {
    var e := Event(log.emitted, payload);
    AppendTail(history, e, Max(0, |history| - MAX_EVENTS));
    KeepLast(history + [e], Max(0, |history| - MAX_EVENTS), MAX_EVENTS);
  }

  lemma AppendTail(s: seq<Event>, e: Event, lo: int)
    requires 0 <= lo <= |s|
    ensures s[lo..] + [e] == (s + [e])[lo..]
  {
  }

  // Keeping the last `most` events of a tail keeps the last ones of the whole.
  lemma KeepLast(s: seq<Event>, lo: int, most: int)
    requires 0 <= lo <= |s| && 0 < most
    ensures |s[lo..]| > most ==> s[lo..][|s[lo..]| - most..] == s[|s| - most..]
  {
    if |s[lo..]| > most {
      TailOfTail(s, lo, |s| - most);
    }
  }

  lemma {:induction false} FilterNumbered(events: seq<Event>, since: int, start: int)
    requires forall i :: 0 <= i < |events| ==> events[i].number == start + i
    ensures Filter(From(since), events) == if since <= start then events else if since - start <= |events| then events[since - start..] else []
  {
    if events != [] {
      FilterNumbered(events[1..], since, start + 1);
      assert events == [events[0]] + events[1..];
      if since > start && since - start <= |events| {
        assert events[1..][since - start - 1..] == events[since - start..];
      }
    }
  }

  // A poll returns everything from `since` on that is still stored, and the number to continue from.
  lemma PollReturns(log: Log, history: seq<Event>, since: int)
    requires Holds(log, history)
    ensures var from := Max(since, Max(0, |history| - MAX_EVENTS));
            Poll(log, since).events == if from <= |history| then history[from..] else []
    ensures Poll(log, since).next == if history == [] then since else Max(|history|, since)
  {
    var lo := Max(0, |history| - MAX_EVENTS);
    StoredNumbers(log, history);
    FilterNumbered(log.events, since, lo);
    if since > lo && since <= |history| {
      TailOfTail(history, lo, since);
    }
  }

  lemma StoredNumbers(log: Log, history: seq<Event>)
    requires Holds(log, history)
    ensures forall i :: 0 <= i < |log.events| ==> log.events[i].number == Max(0, |history| - MAX_EVENTS) + i
    ensures |log.events| == |history| - Max(0, |history| - MAX_EVENTS)
  {
    var lo := Max(0, |history| - MAX_EVENTS);
    assert forall i :: 0 <= i < |log.events| ==> log.events[i] == history[lo + i];
  }

  lemma TailOfTail(s: seq<Event>, a: int, b: int)
    requires 0 <= a <= b <= |s|
    ensures s[a..][b - a..] == s[b..]
  {
  }

  // ---------------------------------------------------------------- a poller over a whole run

  datatype Step = EmitStep(payload: string) | PollStep

  // A poller that always continues from `next`; `gapFree` records that at most MAX_EVENTS were emitted
  // between any two of its polls so far.
  datatype Run = Run(log: Log, history: seq<Event>, since: int, received: seq<Event>, gapFree: bool)

  const START := Run(EMPTY_LOG, [], 0, [], true)

  function Next(r: Run, step: Step): Run {
    match step
    case EmitStep(payload) =>
      r.(log := Emit(r.log, payload), history := r.history + [Event(r.log.emitted, payload)])
    case PollStep =>
      var polled := Poll(r.log, r.since);
      r.(since := polled.next, received := r.received + polled.events,
         gapFree := r.gapFree && r.log.emitted - r.since <= MAX_EVENTS)
  }

  function Execute(steps: seq<Step>): Run {
    if steps == [] then START else Next(Execute(steps[..|steps| - 1]), steps[|steps| - 1])
  }

  // `received` lists events of the history before `since`, in order and without repetition.
  ghost predicate InOrder(received: seq<Event>, since: int, history: seq<Event>) {
    && 0 <= since <= |history|
    && (forall i, j :: 0 <= i < j < |received| ==> received[i].number < received[j].number)
    && (forall i :: 0 <= i < |received| ==> 0 <= received[i].number < since && received[i] == history[received[i].number])
  }

  ghost predicate Invariant(r: Run) {
    && Holds(r.log, r.history)
    && InOrder(r.received, r.since, r.history)
    && (r.gapFree ==> r.received == r.history[..r.since])
  }

  lemma ReceiveRange(received: seq<Event>, since: int, history: seq<Event>, from: int)
    requires InOrder(received, since, history) && since <= from <= |history|
    requires forall i :: 0 <= i < |history| ==> history[i].number == i
    ensures InOrder(received + history[from..], |history|, history)
  {
    var all := received + history[from..];
    assert forall i :: |received| <= i < |all| ==> all[i] == history[from + i - |received|];
  }

  lemma PollKeepsInvariant(r: Run)
    requires Invariant(r)
    ensures Invariant(Next(r, PollStep)) && Next(r, PollStep).since == |r.history|
  {
    PollReturns(r.log, r.history, r.since);
    var from := Max(r.since, Max(0, |r.history| - MAX_EVENTS));
    var next := Next(r, PollStep);
    assert next.received == r.received + r.history[from..] && next.since == |r.history|;
    ReceiveRange(r.received, r.since, r.history, from);
    Rejoin(r.history, r.since);
    assert next.gapFree ==> from == r.since;
  }

  lemma Rejoin(s: seq<Event>, k: int)
    requires 0 <= k <= |s|
    ensures s[..k] + s[k..] == s[..|s|]
  {
  }

  lemma EmitKeepsInvariant(r: Run, payload: string)
    requires Invariant(r)
    ensures Invariant(Next(r, EmitStep(payload)))
  {
    EmitHolds(r.log, r.history, payload);
    assert Next(r, EmitStep(payload)).history[..r.since] == r.history[..r.since];
  }

  lemma {:induction false} EveryRun(steps: seq<Step>)
    ensures Invariant(Execute(steps))
  {
    if steps != [] {
      var before := steps[..|steps| - 1];
      EveryRun(before);
      match steps[|steps| - 1]
      case EmitStep(payload) => EmitKeepsInvariant(Execute(before), payload);
      case PollStep => PollKeepsInvariant(Execute(before));
    }
  }

  // In every run a poller receives events in strictly increasing order, so none twice; `next` never goes
  // back; and without a gap of more than MAX_EVENTS it has received every event up to `next`.
  lemma PollerSeesInOrder(steps: seq<Step>)
    ensures var r := Execute(steps);
            && InOrder(r.received, r.since, r.history)
            && (r.gapFree ==> r.received == r.history[..r.since])
            && r.since <= Next(r, PollStep).since == |r.history|
            && r.log.events == r.history[Max(0, |r.history| - MAX_EVENTS)..]
  {
    EveryRun(steps);
    PollKeepsInvariant(Execute(steps));
  }

  // listJobs reports events.length as `next`. That is the number pollJob reports only until the first
  // event has been dropped.
  lemma ListedNextAgrees(log: Log, history: seq<Event>, since: int)
    requires Holds(log, history) && 0 <= since <= |history|
    ensures |log.events| == Poll(log, since).next <==> |history| <= MAX_EVENTS
  {
    PollReturns(log, history, since);
  }

  // The log holds at most 5000 events, and all of them until then.
  lemma LogSize(log: Log, history: seq<Event>)
    requires Holds(log, history)
    ensures |log.events| == if |history| <= 5000 then |history| else 5000
  {
  }

  // A poller misses nothing in a run with at most 5000 events, however rarely it polls.
  lemma {:induction false} ShortRunComplete(steps: seq<Step>)
    requires |Execute(steps).history| <= 5000
    ensures var r := Execute(steps); r.gapFree && 0 <= r.since <= |r.history| && r.received == r.history[..r.since]
  {
    if steps != [] {
      EveryRun(steps[..|steps| - 1]);
      ShortRunComplete(steps[..|steps| - 1]);
    }
    EveryRun(steps);
  }
}
