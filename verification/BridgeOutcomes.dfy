// What a bridge request is settled with, and by what.
module BridgeOutcomes {
  import opened Sequences
  import opened BridgeSession

  predicate Open(s: Session) {
    s.closedError.None? && s.transportError.None?
  }

  // A response settles the request it names, if that is pending: with its result when it is ok, with its error
  // otherwise. No other request is touched.
  lemma ResponseSettles(events: seq<Event>, id: nat, ok: bool, payload: string)
    ensures var s := Execute(events);
            var t := Next(s, Receive(id, ok, payload));
            && id !in t.pending && (forall x :: x != id ==> (x in t.pending <==> x in s.pending))
            && (id in s.pending && id !in SettledIds(s) ==>
                  t.settled == s.settled + [Settlement(id, if ok then Resolved(payload) else Rejected(payload))])
            && (id !in s.pending || id in SettledIds(s) ==> t.settled == s.settled)
            && t == s.(pending := t.pending, settled := t.settled)
  {
    EveryRun(events);
  }

  // ---------------------------------------------------------------- the cause of every outcome

  // The event decides the outcome of request id, if that is not settled yet.
  ghost predicate Decides(s: Session, e: Event, id: nat, outcome: Outcome) {
    match e
    case Receive(i, ok, payload) => i == id && id in s.pending && outcome == if ok then Resolved(payload) else Rejected(payload)
    case RequestThrows(error) => Open(s) && id == s.sequence + 1 && outcome == Rejected(error)
    case TimerFired => id in s.pending && s.transportError.Some? && outcome == Rejected(s.transportError.value)
    case ChildClosed(hasCode, hasSignal, detail, exited) =>
      && id in s.pending
      && (detail != "" ==> outcome == Rejected(exited))
      && (detail == "" && s.spawnError.Some? ==> outcome == Rejected(s.spawnError.value))
      && (detail == "" && s.spawnError.None? && (hasCode || hasSignal) ==> outcome == Rejected(exited))
      && (detail == "" && s.spawnError.None? && !hasCode && !hasSignal ==>
            outcome == Rejected(if s.transportError.Some? then s.transportError.value else exited))
    case _ => false
  }

  lemma SettleExactly(settled: seq<Settlement>, id: nat, outcome: Outcome, x: Settlement)
    ensures x in Settle(settled, id, outcome) <==> x in settled || (id !in IdsOf(settled) && x == Settlement(id, outcome))
  {
  }

  lemma {:induction false} RejectAllExactly(settled: seq<Settlement>, ids: seq<nat>, error: string, x: Settlement)
    requires Distinct(IdsOf(settled))
    ensures x in RejectAll(settled, ids, error) <==>
      x in settled || (x.id !in IdsOf(settled) && x.id in ids && x.outcome == Rejected(error))
  {
    if ids != [] {
      var front, last := ids[..|ids| - 1], ids[|ids| - 1];
      assert ids == front + [last];
      RejectAllExactly(settled, front, error, x);
      RejectAllFacts(settled, front, error);
      SettleExactly(RejectAll(settled, front, error), last, Rejected(error), x);
    }
  }

  lemma StepSettles(s: Session, e: Event, x: Settlement)
    requires Invariant(s)
    ensures x in Next(s, e).settled <==> x in s.settled || (x.id !in SettledIds(s) && Decides(s, e, x.id, x.outcome))
  {
    match e
    case Receive(id, ok, payload) => SettleExactly(s.settled, id, if ok then Resolved(payload) else Rejected(payload), x);
    case RequestThrows(error) => SettleExactly(s.settled, s.sequence + 1, Rejected(error), x);
    case TimerFired =>
      if s.armed && s.transportError.Some? {
        RejectAllExactly(s.settled, s.pending, s.transportError.value, x);
      }
    case ChildClosed(hasCode, hasSignal, detail, exited) =>
      RejectAllExactly(s.settled, s.pending, ExitError(s, hasCode, hasSignal, detail, exited), x);
    case _ =>
  }

  // Some event of the run decided this outcome when the request was not settled yet.
  ghost predicate Decided(events: seq<Event>, x: Settlement) {
    events != [] && var before := Execute(events[..|events| - 1]);
                    || Decided(events[..|events| - 1], x)
                    || (x.id !in SettledIds(before) && Decides(before, events[|events| - 1], x.id, x.outcome))
  }

  // In every run a request has an outcome if and only if some event decided it.
  lemma {:induction false} OutcomeExactly(events: seq<Event>, x: Settlement)
    ensures x in Execute(events).settled <==> Decided(events, x)
  {
    if events != [] {
      OutcomeExactly(events[..|events| - 1], x);
      EveryRun(events[..|events| - 1]);
      StepSettles(Execute(events[..|events| - 1]), events[|events| - 1], x);
    }
  }

  // A request resolves only with the payload of an ok response that came while it was pending and unsettled.
  lemma {:induction false} ResolvedByResponse(events: seq<Event>, id: nat, result: string) returns (k: nat)
    requires Settlement(id, Resolved(result)) in Execute(events).settled
    ensures k < |events| && events[k] == Receive(id, true, result)
    ensures id in Execute(events[..k]).pending && id !in SettledIds(Execute(events[..k]))
  {
    var x := Settlement(id, Resolved(result));
    var n := |events| - 1;
    var front := events[..n];
    if x in Execute(front).settled {
      k := ResolvedByResponse(front, id, result);
      assert front[..k] == events[..k];
    } else {
      k := n;
      EveryRun(front);
      StepSettles(Execute(front), events[n], x);
    }
  }

  // ---------------------------------------------------------------- what is pending, and the numbers

  // Which events enter a request under the next number, and which end an entry.
  predicate Enters(s: Session, e: Event, id: nat) {
    Open(s) && id == s.sequence + 1 && (e.Request? || e.RequestThrows?)
  }

  predicate Ends(s: Session, e: Event, id: nat) {
    || (e.Receive? && e.id == id)
    || (e.TimerFired? && s.transportError.Some?)
    || e.ChildClosed?
  }

  lemma PendingExactly(events: seq<Event>, e: Event, id: nat)
    ensures var s := Execute(events);
            id in Next(s, e).pending <==> (id in s.pending || Enters(s, e, id)) && !Ends(s, e, id)
  {
    EveryRun(events);
    PendingStep(Execute(events), e, id);
  }

  lemma PendingStep(s: Session, e: Event, id: nat)
    requires Invariant(s)
    ensures id in Next(s, e).pending <==> (id in s.pending || Enters(s, e, id)) && !Ends(s, e, id)
  {
  }

  // Every request and every shutdown takes one number.
  function Numbered(events: seq<Event>): nat {
    if events == [] then 0
    else
      var s, e := Execute(events[..|events| - 1]), events[|events| - 1];
      Numbered(events[..|events| - 1]) + if Open(s) && (e.Request? || e.RequestThrows? || e.Dispose?) then 1 else 0
  }

  lemma {:induction false} NumbersUsed(events: seq<Event>)
    ensures Execute(events).sequence == Numbered(events)
  {
    if events != [] {
      NumbersUsed(events[..|events| - 1]);
      NumberStep(Execute(events[..|events| - 1]), events[|events| - 1]);
    }
  }

  lemma NumberStep(s: Session, e: Event)
    ensures Next(s, e).sequence == s.sequence + if Open(s) && (e.Request? || e.RequestThrows? || e.Dispose?) then 1 else 0
  {
  }

  ghost predicate Entered(events: seq<Event>, id: nat) {
    events != [] && (Entered(events[..|events| - 1], id) || Enters(Execute(events[..|events| - 1]), events[|events| - 1], id))
  }

  lemma {:induction false} IssuedExactly(events: seq<Event>, id: nat)
    ensures id in Execute(events).issued <==> Entered(events, id)
  {
    if events != [] {
      IssuedExactly(events[..|events| - 1], id);
      IssuedStep(Execute(events[..|events| - 1]), events[|events| - 1], id);
    }
  }

  lemma IssuedStep(s: Session, e: Event, id: nat)
    ensures id in Next(s, e).issued <==> id in s.issued || Enters(s, e, id)
  {
  }

  // ---------------------------------------------------------------- the errors and the child

  // The session closes when the child does, or when the timer fires after a transport failure, and never again.
  lemma ClosesExactly(events: seq<Event>, e: Event)
    ensures var s := Execute(events);
            var t := Next(s, e);
            && (s.closedError.Some? ==> t.closedError == s.closedError)
            && (s.closedError.None? ==> (t.closedError.Some? <==> e.ChildClosed? || (e.TimerFired? && s.transportError.Some?)))
            && (s.closedError.None? && t.closedError.Some? ==> forall id :: id in s.pending ==> Decides(s, e, id, Rejected(t.closedError.value)))
  {
    EveryRun(events);
  }

  // The last error with which the child failed to start.
  function LastStartError(events: seq<Event>): Option<string> {
    if events == [] then None
    else if events[|events| - 1].SpawnFailed? then Some(events[|events| - 1].error)
    else LastStartError(events[..|events| - 1])
  }

  lemma {:induction false} SpawnErrorExactly(events: seq<Event>)
    ensures Execute(events).spawnError == LastStartError(events)
  {
    if events != [] {
      SpawnErrorExactly(events[..|events| - 1]);
      StartErrorStep(Execute(events[..|events| - 1]), events[|events| - 1]);
    }
  }

  lemma StartErrorStep(s: Session, e: Event)
    ensures Next(s, e).spawnError == if e.SpawnFailed? then Some(e.error) else s.spawnError
  {
  }

  // Disposing of the session kills the child, and so does the timer after a transport failure; nothing else does.
  ghost predicate Kills(s: Session, e: Event) {
    e.Dispose? || (e.TimerFired? && s.transportError.Some? && s.closedError.None?)
  }

  ghost predicate KilledIn(events: seq<Event>) {
    events != [] && (KilledIn(events[..|events| - 1]) || Kills(Execute(events[..|events| - 1]), events[|events| - 1]))
  }

  lemma {:induction false} KilledExactly(events: seq<Event>)
    ensures Execute(events).killed <==> KilledIn(events)
  {
    if events != [] {
      KilledExactly(events[..|events| - 1]);
      EveryRun(events[..|events| - 1]);
      KilledStep(Execute(events[..|events| - 1]), events[|events| - 1]);
    }
  }

  lemma KilledStep(s: Session, e: Event)
    requires Invariant(s)
    ensures Next(s, e).killed <==> s.killed || Kills(s, e)
  {
  }
}
