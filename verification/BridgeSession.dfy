// The editor's bridge session, a request and response protocol.
module BridgeSession {
  // Requests go to a child process. A transport failure is reported only after a delay, so that the child's
  // own diagnosis can come first. The session can be closed and disposed of.

  import opened Sequences

  datatype Outcome = Resolved(result: string) | Rejected(error: string)
  // Request `vscode-<id>` and what its promise was settled with.
  datatype Settlement = Settlement(id: nat, outcome: Outcome)

  // `pending` is the Map in insertion order; `issued` and `settled` record every request made and every
  // promise settled so far, `thrown` those requests whose message could not be written down; `armed` tells
  // whether transportTimer is set.
  datatype Session = Session(
    sequence: nat, pending: seq<nat>, closedError: Option<string>, transportError: Option<string>, spawnError: Option<string>,
    armed: bool, killed: bool, issued: seq<nat>, settled: seq<Settlement>, thrown: set<nat>)

  const FRESH := Session(0, [], None, None, None, false, false, [], [], {})

  datatype Event =
    | Request                                                 // request(), start()
    | RequestThrows(error: string)                            // the same, with a message JSON cannot print
    | Receive(id: nat, ok: bool, payload: string)             // a well-formed response line
    | WriteFailed(id: nat, error: string)                     // the callback of stdin.write
    | StreamFailed(error: string)                             // stdin, stdout or stderr reports an error
    | SpawnFailed(error: string)                              // the child could not be started
    | TimerFired
    | ChildClosed(hasCode: bool, hasSignal: bool, detail: string, exited: string)
    | Dispose

  function Without(ids: seq<nat>, id: nat): seq<nat> {
    Filter((x: nat) => x != id, ids)
  }

  function IdsOf(settled: seq<Settlement>): (ids: seq<nat>)
    ensures |ids| == |settled| && forall i :: 0 <= i < |ids| ==> ids[i] == settled[i].id
  {
    Map((x: Settlement) => x.id, settled)
  }

  // A promise that is settled stays as it is.
  function Settle(settled: seq<Settlement>, id: nat, outcome: Outcome): seq<Settlement> {
    if id in IdsOf(settled) then settled else settled + [Settlement(id, outcome)]
  }

  function RejectAll(settled: seq<Settlement>, ids: seq<nat>, error: string): seq<Settlement> {
    if ids == [] then settled
    else Settle(RejectAll(settled, ids[..|ids| - 1], error), ids[|ids| - 1], Rejected(error))
  }

  function Close(s: Session, error: string): Session {
    if s.closedError.Some? then s
    else s.(armed := false, closedError := Some(error), settled := RejectAll(s.settled, s.pending, error), pending := [])
  }

  function Defer(s: Session, error: string): Session {
    if s.closedError.Some? || s.transportError.Some? then s else s.(transportError := Some(error), armed := true)
  }

  // Which error a closing child leaves: its own words first, then why it never started, then how it
  // exited, then the transport failure.
  function ExitError(s: Session, hasCode: bool, hasSignal: bool, detail: string, exited: string): string {
    if detail != "" then exited
    else if s.spawnError.Some? then s.spawnError.value
    else if hasCode || hasSignal || s.transportError.None? then exited
    else s.transportError.value
  }

  function Next(s: Session, e: Event): Session {
    match e
    case Request =>
      if s.closedError.Some? || s.transportError.Some? then s
      else s.(sequence := s.sequence + 1, pending := s.pending + [s.sequence + 1], issued := s.issued + [s.sequence + 1])
    // The executor has entered the request when it throws.
    case RequestThrows(error) =>
      if s.closedError.Some? || s.transportError.Some? then s
      else s.(sequence := s.sequence + 1, pending := s.pending + [s.sequence + 1], issued := s.issued + [s.sequence + 1],
              settled := Settle(s.settled, s.sequence + 1, Rejected(error)), thrown := s.thrown + {s.sequence + 1})
    case Receive(id, ok, payload) =>
      if id !in s.pending then s
      else s.(pending := Without(s.pending, id),
              settled := Settle(s.settled, id, if ok then Resolved(payload) else Rejected(payload)))
    case WriteFailed(id, error) => if id in s.pending then Defer(s, error) else s
    case StreamFailed(error) => Defer(s, error)
    case SpawnFailed(error) => Defer(s.(spawnError := Some(error)), error)
    case TimerFired =>
      if !s.armed || s.transportError.None? then s else Close(s.(armed := false), s.transportError.value).(killed := true)
    case ChildClosed(hasCode, hasSignal, detail, exited) => Close(s, ExitError(s, hasCode, hasSignal, detail, exited))
    case Dispose =>
      if s.closedError.None? && s.transportError.None? then s.(sequence := s.sequence + 1, killed := true) else s.(killed := true)
  }

  class Bridge {
    var sequence: nat
    var pending: seq<nat>
    var closedError: Option<string>
    var transportError: Option<string>
    var spawnError: Option<string>
    var armed: bool
    var killed: bool
    var issued: seq<nat>
    var settled: seq<Settlement>
    ghost var thrown: set<nat>

    constructor ()
      ensures State() == FRESH
    {
      sequence, pending, armed, killed, issued, settled, thrown := 0, [], false, false, [], [], {};
      closedError, transportError, spawnError := None, None, None;
    }

    ghost function State(): Session
      reads this
    {
      Session(sequence, pending, closedError, transportError, spawnError, armed, killed, issued, settled, thrown)
    }

    // The request's number, or the error its promise is rejected with at once. `message` is the text of the
    // request, or why there is none.
    method SendRequest(message: Outcome) returns (id: Option<nat>, error: Option<string>)
      modifies this
      ensures State() == Next(old(State()), if message.Resolved? then Request else RequestThrows(message.error))
      ensures error == if old(closedError).Some? then old(closedError)
                       else if old(transportError).Some? then old(transportError)
                       else if message.Rejected? then Some(message.error) else None
      ensures id == if error.Some? then None else Some(sequence)
    {
      if closedError.Some? {
        return None, closedError;
      }
      if transportError.Some? {
        return None, transportError;
      }
      sequence := sequence + 1;
      pending := pending + [sequence];
      issued := issued + [sequence];
      if message.Rejected? {
        settled := Settle(settled, sequence, message);
        thrown := thrown + {sequence};
        return None, Some(message.error);
      }
      return Some(sequence), None;
    }

    method ReceiveResponse(id: nat, ok: bool, payload: string)
      modifies this
      ensures State() == Next(old(State()), Receive(id, ok, payload))
    {
      if id !in pending {
        return;
      }
      pending := Without(pending, id);
      settled := Settle(settled, id, if ok then Resolved(payload) else Rejected(payload));
    }

    method FailAll(error: string)
      modifies this`pending, this`settled
      ensures pending == [] && settled == RejectAll(old(settled), old(pending), error)
    {
      for k := 0 to |pending|
        invariant pending == old(pending)
        invariant settled == RejectAll(old(settled), pending[..k], error)
      {
        assert pending[..k + 1][..k] == pending[..k];
        settled := Settle(settled, pending[k], Rejected(error));
      }
      assert pending[..|pending|] == pending;
      pending := [];
    }

    method CloseSession(error: string)
      modifies this
      ensures State() == Close(old(State()), error)
    {
      if closedError.Some? {
        return;
      }
      armed := false;
      closedError := Some(error);
      FailAll(error);
    }

    method DeferTransportFailure(error: string)
      modifies this
      ensures State() == Defer(old(State()), error)
    {
      if closedError.Some? || transportError.Some? {
        return;
      }
      transportError := Some(error);
      armed := true;
    }

    method OnTimer()
      requires armed && transportError.Some?
      modifies this
      ensures State() == Next(old(State()), TimerFired)
    {
      armed := false;
      CloseSession(transportError.value);
      killed := true;
    }

    method OnChildClosed(hasCode: bool, hasSignal: bool, detail: string, exited: string)
      modifies this
      ensures State() == Next(old(State()), ChildClosed(hasCode, hasSignal, detail, exited))
    {
      var error := if detail != "" then exited
                   else if spawnError.Some? then spawnError.value
                   else if hasCode || hasSignal || transportError.None? then exited
                   else transportError.value;
      CloseSession(error);
    }

    method OnSpawnError(error: string)
      modifies this
      ensures State() == Next(old(State()), SpawnFailed(error))
    {
      spawnError := Some(error);
      DeferTransportFailure(error);
    }

    method DisposeSession()
      modifies this
      ensures State() == Next(old(State()), Dispose)
    {
      if closedError.None? && transportError.None? {
        sequence := sequence + 1;
      }
      killed := true;
    }

    // Whatever happens next; the timer can fire only when it is armed.
    method Perform(e: Event)
      modifies this
      ensures State() == Next(old(State()), e)
    {
      match e
      case Request => var _, _ := SendRequest(Resolved(""));
      case RequestThrows(error) => var _, _ := SendRequest(Rejected(error));
      case Receive(id, ok, payload) => ReceiveResponse(id, ok, payload);
      case WriteFailed(id, error) => if id in pending { DeferTransportFailure(error); }
      case StreamFailed(error) => DeferTransportFailure(error);
      case SpawnFailed(error) => OnSpawnError(error);
      case TimerFired => if armed && transportError.Some? { OnTimer(); }
      case ChildClosed(hasCode, hasSignal, detail, exited) => OnChildClosed(hasCode, hasSignal, detail, exited);
      case Dispose => DisposeSession();
    }
  }

  // A fresh session goes through exactly the states of the run.
  method RunEvents(events: seq<Event>) returns (bridge: Bridge)
    ensures fresh(bridge) && bridge.State() == Execute(events)
  {
    bridge := new Bridge();
    for k := 0 to |events|
      invariant fresh(bridge) && bridge.State() == Execute(events[..k])
    {
      assert events[..k + 1][..k] == events[..k];
      bridge.Perform(events[k]);
    }
    assert events[..|events|] == events;
  }

  // ---------------------------------------------------------------- every run

  function Execute(events: seq<Event>): Session {
    if events == [] then FRESH else Next(Execute(events[..|events| - 1]), events[|events| - 1])
  }

  function SettledIds(s: Session): seq<nat> {
    IdsOf(s.settled)
  }

  // Every request is pending or settled, and both only when it was entered and then threw; nothing is listed
  // twice.
  ghost predicate Accounted(s: Session) {
    && Distinct(s.issued) && Distinct(s.pending) && Distinct(SettledIds(s))
    && (forall id :: id in s.issued <==> id in s.pending || id in SettledIds(s))
    && (forall id :: id in s.pending ==> (id in SettledIds(s) <==> id in s.thrown))
    && (forall id :: id in s.issued ==> id <= s.sequence)
    && (forall id :: id in s.thrown ==> id in s.issued)
  }

  ghost predicate TimerConsistent(s: Session) {
    && (s.closedError.Some? ==> s.pending == [] && !s.armed)
    && (s.closedError.None? ==> (s.armed <==> s.transportError.Some?))
  }

  ghost predicate Invariant(s: Session) {
    Accounted(s) && TimerConsistent(s)
  }

  lemma SettleFacts(settled: seq<Settlement>, id: nat, outcome: Outcome)
    requires Distinct(IdsOf(settled))
    ensures var r := Settle(settled, id, outcome);
            && settled <= r && Distinct(IdsOf(r))
            && (forall x :: x in IdsOf(r) <==> x in IdsOf(settled) || x == id)
            && (id !in IdsOf(settled) ==> Settlement(id, outcome) in r)
            && (forall k :: |settled| <= k < |r| ==> r[k].outcome == outcome)
  {
    if id !in IdsOf(settled) {
      assert IdsOf(Settle(settled, id, outcome)) == IdsOf(settled) + [id];
    }
  }

  lemma {:induction false} RejectAllFacts(settled: seq<Settlement>, ids: seq<nat>, error: string)
    requires Distinct(IdsOf(settled))
    ensures var r := RejectAll(settled, ids, error);
            && settled <= r && Distinct(IdsOf(r))
            && (forall x :: x in IdsOf(r) <==> x in IdsOf(settled) || x in ids)
            && (forall x :: x in ids && x !in IdsOf(settled) ==> Settlement(x, Rejected(error)) in r)
            && (forall k :: |settled| <= k < |r| ==> r[k].outcome == Rejected(error))
  {
    if ids != [] {
      var front, last := ids[..|ids| - 1], ids[|ids| - 1];
      assert ids == front + [last];
      RejectAllFacts(settled, front, error);
      SettleFacts(RejectAll(settled, front, error), last, Rejected(error));
    }
  }

  lemma CloseInvariant(s: Session, error: string)
    requires Accounted(s) && (s.closedError.Some? ==> s.pending == [] && !s.armed)
    ensures Invariant(Close(s, error))
  {
    RejectAllFacts(s.settled, s.pending, error);
  }

  lemma ReceiveInvariant(s: Session, id: nat, ok: bool, payload: string)
    requires Invariant(s) && id in s.pending
    ensures Invariant(Next(s, Receive(id, ok, payload)))
  {
    FilterDistinct((x: nat) => x != id, s.pending);
    SettleFacts(s.settled, id, if ok then Resolved(payload) else Rejected(payload));
  }

  lemma RequestInvariant(s: Session)
    requires Invariant(s)
    ensures Invariant(Next(s, Request))
  {
    NewId(s.issued, s.sequence);
    assert forall id :: id in s.pending ==> id in s.issued;
    NewId(s.pending, s.sequence);
  }

  lemma ThrowInvariant(s: Session, error: string)
    requires Invariant(s)
    ensures Invariant(Next(s, RequestThrows(error)))
  {
    NewId(s.issued, s.sequence);
    assert forall id :: id in s.pending ==> id in s.issued;
    NewId(s.pending, s.sequence);
    SettleFacts(s.settled, s.sequence + 1, Rejected(error));
    assert s.closedError.None? && s.transportError.None? ==> s.sequence + 1 !in SettledIds(s);
  }

  lemma NewId(ids: seq<nat>, last: nat)
    requires Distinct(ids) && forall id :: id in ids ==> id <= last
    ensures Distinct(ids + [last + 1]) && last + 1 !in ids
    ensures forall id :: id in ids + [last + 1] <==> id in ids || id == last + 1
  {
    assert forall i :: 0 <= i < |ids| ==> ids[i] in ids;
  }

  lemma NextInvariant(s: Session, e: Event)
    requires Invariant(s)
    ensures Invariant(Next(s, e))
  {
    match e
    case Request => RequestInvariant(s);
    case RequestThrows(error) => ThrowInvariant(s, error);
    case Receive(id, ok, payload) =>
      if id in s.pending { ReceiveInvariant(s, id, ok, payload); }
    case TimerFired =>
      if s.armed && s.transportError.Some? { CloseInvariant(s.(armed := false), s.transportError.value); }
    case ChildClosed(hasCode, hasSignal, detail, exited) =>
      CloseInvariant(s, ExitError(s, hasCode, hasSignal, detail, exited));
    case _ =>
  }

  lemma {:induction false} EveryRun(events: seq<Event>)
    ensures Invariant(Execute(events))
  {
    if events != [] {
      EveryRun(events[..|events| - 1]);
      NextInvariant(Execute(events[..|events| - 1]), events[|events| - 1]);
    }
  }

  // No request settles twice and none is lost; after close nothing is pending.
  lemma SettledAtMostOnce(events: seq<Event>)
    ensures var s := Execute(events);
            && Distinct(SettledIds(s))
            && Elements(s.issued) == Elements(s.pending) + Elements(SettledIds(s))
            && Elements(s.pending) * Elements(SettledIds(s)) == Elements(s.pending) * s.thrown
            && (s.closedError.Some? ==> s.pending == [] && Elements(SettledIds(s)) == Elements(s.issued))
  {
    EveryRun(events);
  }

  lemma {:induction false} NothingThrown(events: seq<Event>)
    requires forall k :: 0 <= k < |events| ==> !events[k].RequestThrows?
    ensures Execute(events).thrown == {}
  {
    if events != [] {
      NothingThrown(events[..|events| - 1]);
      StepThrown(Execute(events[..|events| - 1]), events[|events| - 1]);
    }
  }

  lemma StepThrown(s: Session, e: Event)
    requires !e.RequestThrows?
    ensures Next(s, e).thrown == s.thrown
  {
  }

  // Pending and settled are disjoint unless a request threw; then its entry stays, although it is rejected.
  lemma PendingOrSettled(events: seq<Event>)
    requires forall k :: 0 <= k < |events| ==> !events[k].RequestThrows?
    ensures forall id :: !(id in Execute(events).pending && id in SettledIds(Execute(events)))
  {
    NothingThrown(events);
    EveryRun(events);
  }

  lemma ThrownStaysPending(error: string)
    ensures var s := Execute([RequestThrows(error)]);
            s.pending == [1] && s.settled == [Settlement(1, Rejected(error))] && s.closedError.None?
  {
    assert [RequestThrows(error)][..0] == [];
    assert Execute([]) == FRESH;
  }

  ghost predicate Extends(s: Session, t: Session) {
    && s.settled <= t.settled && s.issued <= t.issued
    && (s.closedError.Some? ==> t.closedError == s.closedError)
    && (s.transportError.Some? ==> t.transportError == s.transportError)
  }

  lemma StepExtends(s: Session, e: Event)
    requires Invariant(s)
    ensures Extends(s, Next(s, e))
  {
    match e
    case TimerFired =>
      if s.armed && s.transportError.Some? { RejectAllFacts(s.settled, s.pending, s.transportError.value); }
    case ChildClosed(hasCode, hasSignal, detail, exited) =>
      RejectAllFacts(s.settled, s.pending, ExitError(s, hasCode, hasSignal, detail, exited));
    case _ =>
  }

  lemma ExtendsTransitive(s: Session, t: Session, u: Session)
    requires Extends(s, t) && Extends(t, u)
    ensures Extends(s, u)
  {
  }

  // What is settled stays settled with the same outcome, and both errors are set once.
  lemma {:induction false} OutcomesArePermanent(before: seq<Event>, after: seq<Event>)
    ensures Extends(Execute(before), Execute(before + after))
  {
    var all := before + after;
    if after == [] {
      assert all == before;
    } else {
      assert all[..|all| - 1] == before + after[..|after| - 1];
      OutcomesArePermanent(before, after[..|after| - 1]);
      EveryRun(all[..|all| - 1]);
      StepExtends(Execute(all[..|all| - 1]), all[|all| - 1]);
      ExtendsTransitive(Execute(before), Execute(all[..|all| - 1]), Execute(all));
    }
  }

  // A recorded transport failure has an armed timer or a closed session, so the timer is always enough to
  // settle everything: what was still open is rejected with the recorded error.
  lemma TimerSettlesEverything(events: seq<Event>)
    requires Execute(events).transportError.Some?
    ensures var s := Execute(events);
            var t := Next(s, TimerFired);
            && (s.armed || s.closedError.Some?)
            && t.pending == []
            && t.closedError == (if s.closedError.Some? then s.closedError else s.transportError)
            && s.settled <= t.settled
            && forall id :: id in s.pending && id !in SettledIds(s) ==> Settlement(id, Rejected(s.transportError.value)) in t.settled
  {
    EveryRun(events);
    var s := Execute(events);
    RejectAllFacts(s.settled, s.pending, s.transportError.value);
  }

  // The error a transport failure reports in the session: that of a stream, of the child that did not start,
  // or of writing a request that is still pending.
  function FailureOf(s: Session, e: Event): Option<string> {
    match e
    case StreamFailed(error) => Some(error)
    case SpawnFailed(error) => Some(error)
    case WriteFailed(id, error) => if id in s.pending then Some(error) else None
    case _ => None
  }

  // While nothing has failed, a step records an error exactly when it reports a failure, and the recorded error is
  // that of the first failure, whatever fails afterwards.
  lemma FirstFailureRecorded(before: seq<Event>, e: Event, after: seq<Event>)
    requires Execute(before).transportError.None? && Execute(before).closedError.None?
    ensures Execute(before + [e]).transportError == FailureOf(Execute(before), e)
    ensures FailureOf(Execute(before), e).Some? ==> Execute(before + [e] + after).transportError == FailureOf(Execute(before), e)
  {
    var failed := before + [e];
    assert failed[..|failed| - 1] == before;
    OutcomesArePermanent(failed, after);
  }

  // While the session is open, the end of the child settles everything, and with the child's own words
  // when it left any.
  lemma ChildCloseSettlesEverything(events: seq<Event>, hasCode: bool, hasSignal: bool, detail: string, exited: string)
    requires Execute(events).closedError.None?
    ensures var s := Execute(events);
            var t := Next(s, ChildClosed(hasCode, hasSignal, detail, exited));
            && t.pending == [] && !t.armed
            && (detail != "" ==> t.closedError == Some(exited))
            && (detail == "" && s.spawnError.Some? ==> t.closedError == s.spawnError)
            && (forall id :: id in s.pending && id !in SettledIds(s) ==> Settlement(id, Rejected(t.closedError.value)) in t.settled)
  {
    EveryRun(events);
    var s := Execute(events);
    RejectAllFacts(s.settled, s.pending, ExitError(s, hasCode, hasSignal, detail, exited));
  }

  // Once the transport has failed or the session is closed, no further request is issued.
  lemma {:induction false} NothingIssuedAfterFailure(before: seq<Event>, after: seq<Event>)
    requires Execute(before).transportError.Some? || Execute(before).closedError.Some?
    ensures Execute(before + after).issued == Execute(before).issued
    ensures Execute(before + after).transportError.Some? || Execute(before + after).closedError.Some?
  {
    var all := before + after;
    if after == [] {
      assert all == before;
    } else {
      assert all[..|all| - 1] == before + after[..|after| - 1];
      NothingIssuedAfterFailure(before, after[..|after| - 1]);
      StepAfterFailure(Execute(all[..|all| - 1]), all[|all| - 1]);
    }
  }

  lemma StepAfterFailure(s: Session, e: Event)
    requires s.transportError.Some? || s.closedError.Some?
    ensures Next(s, e).issued == s.issued && (Next(s, e).transportError.Some? || Next(s, e).closedError.Some?)
  {
  }
}
