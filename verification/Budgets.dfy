// Two-level budgets of a research run and its team.
module Budgets {
  // A run charges its own counters and, when it works for a team, the counters of the team session first.
  // The team side is one transaction; another process may act, or this one may stop, between it and the
  // local increment.

  import opened Sequences

  datatype Resource = LeanCall | ModelCall | ProofAttempt
  datatype LeanReason = PremiseInspection | ProofCompile | Verification | AxiomAudit | FormalizationCheck
  datatype ModelKind = Planner | ProofModel | Formalization
  datatype Charge = Lean(reason: LeanReason) | Model(kind: ModelKind) | Proof

  function ResourceOf(charge: Charge): Resource {
    match charge case Lean(_) => LeanCall case Model(_) => ModelCall case Proof => ProofAttempt
  }

  datatype LeanUsage = LeanUsage(total: nat, proofCompile: nat, verification: nat, inspection: nat, axiomAudit: nat, formalization: nat)
  datatype ModelUsage = ModelUsage(total: nat, planner: nat, proof: nat, formalization: nat)
  datatype Usage = Usage(leanCalls: nat, modelCalls: nat, proofAttempts: nat, lean: LeanUsage, model: ModelUsage)

  // Counters of a session, and limits of a session or run.
  datatype Counters = Counters(leanCalls: nat, modelCalls: nat, proofAttempts: nat)

  function Of(c: Counters, r: Resource): nat {
    match r case LeanCall => c.leanCalls case ModelCall => c.modelCalls case ProofAttempt => c.proofAttempts
  }

  function Plus(c: Counters, r: Resource): Counters {
    match r
    case LeanCall => c.(leanCalls := c.leanCalls + 1)
    case ModelCall => c.(modelCalls := c.modelCalls + 1)
    case ProofAttempt => c.(proofAttempts := c.proofAttempts + 1)
  }

  function Used(u: Usage, r: Resource): nat {
    match r case LeanCall => u.leanCalls case ModelCall => u.modelCalls case ProofAttempt => u.proofAttempts
  }

  datatype Run = Run(usage: Usage, limits: Counters)
  // The session and agent of a team worker.
  datatype Seat = Seat(sessionId: string, agentId: string)
  datatype Session = Session(usage: Counters, limits: Counters, currentRound: nat)
  // A CONSUMED row of budget_reservations with amount 1.
  datatype Reservation = Reservation(sessionId: string, agentId: string, resource: Resource, round: nat)
  datatype Db = Db(sessions: map<string, Session>, reservations: seq<Reservation>)

  predicate LocalRoom(run: Run, r: Resource) {
    Used(run.usage, r) + 1 <= Of(run.limits, r)
  }

  // The transaction: None when the session is gone or its limit is reached.
  function Reserve(db: Db, seat: Seat, r: Resource): Option<Db> {
    if seat.sessionId !in db.sessions then None
    else
      var session := db.sessions[seat.sessionId];
      if Of(session.usage, r) + 1 > Of(session.limits, r) then None
      else Some(Db(db.sessions[seat.sessionId := session.(usage := Plus(session.usage, r))],
                   db.reservations + [Reservation(seat.sessionId, seat.agentId, r, session.currentRound + 1)]))
  }

  function CountLean(l: LeanUsage, reason: LeanReason): LeanUsage {
    var l' := l.(total := l.total + 1);
    match reason
    case ProofCompile => l'.(proofCompile := l.proofCompile + 1)
    case Verification => l'.(verification := l.verification + 1)
    case PremiseInspection => l'.(inspection := l.inspection + 1)
    case AxiomAudit => l'.(axiomAudit := l.axiomAudit + 1)
    case FormalizationCheck => l'.(formalization := l.formalization + 1)
  }

  function CountModel(m: ModelUsage, kind: ModelKind): ModelUsage {
    var m' := m.(total := m.total + 1);
    match kind
    case Planner => m'.(planner := m.planner + 1)
    case ProofModel => m'.(proof := m.proof + 1)
    case Formalization => m'.(formalization := m.formalization + 1)
  }

  function Count(u: Usage, charge: Charge): Usage {
    match charge
    case Lean(reason) => u.(leanCalls := u.leanCalls + 1, lean := CountLean(u.lean, reason))
    case Model(kind) => u.(modelCalls := u.modelCalls + 1, model := CountModel(u.model, kind))
    case Proof => u.(proofAttempts := u.proofAttempts + 1)
  }

  // ---------------------------------------------------------------- one call of a charge method

  // The return values true and false, and the two errors a charge can throw.
  datatype Outcome = Charged | RefusedLocally | TeamBudgetExhausted | CrashedAfterReservation

  datatype Charging = Charging(outcome: Outcome, db: Db, usage: Usage)

  // Every call, without interference; `crash` is the after_reservation test boundary.
  function ChargeResult(db: Db, run: Run, seat: Option<Seat>, charge: Charge, crash: bool): Charging {
    var r := ResourceOf(charge);
    if !LocalRoom(run, r) then Charging(RefusedLocally, db, run.usage)
    else if seat.None? then Charging(Charged, db, Count(run.usage, charge))
    else match Reserve(db, seat.value, r)
      case None => Charging(TeamBudgetExhausted, db, run.usage)
      case Some(db') =>
        if crash && charge.Proof? then Charging(CrashedAfterReservation, db', run.usage)
        else Charging(Charged, db', Count(run.usage, charge))
  }

  class Accounting {
    var db: Db
    var usage: Usage
    const limits: Counters
    const seat: Option<Seat>
    const crashAfterReservation: bool

    constructor (db: Db, run: Run, seat: Option<Seat>, crashAfterReservation: bool)
      ensures this.db == db && usage == run.usage && limits == run.limits && this.seat == seat
      ensures this.crashAfterReservation == crashAfterReservation
    {
      this.db, this.usage, this.limits, this.seat := db, run.usage, run.limits, seat;
      this.crashAfterReservation := crashAfterReservation;
    }

    // UPDATE of the session row and INSERT of the reservation, as one immediate transaction.
    method ReserveTeam(seat: Seat, r: Resource) returns (reserved: bool)
      modifies this`db
      ensures reserved == Reserve(old(db), seat, r).Some?
      ensures db == if reserved then Reserve(old(db), seat, r).value else old(db)
    {
      if seat.sessionId !in db.sessions {
        return false;
      }
      var session := db.sessions[seat.sessionId];
      if Of(session.usage, r) + 1 > Of(session.limits, r) {
        return false;
      }
      session := session.(usage := Plus(session.usage, r));
      var row := Reservation(seat.sessionId, seat.agentId, r, session.currentRound + 1);
      db := Db(db.sessions[seat.sessionId := session], db.reservations + [row]);
      return true;
    }

    method ChargeLean(reason: LeanReason) returns (outcome: Outcome)
      modifies this
      ensures Charging(outcome, db, usage) == ChargeResult(old(db), Run(old(usage), limits), seat, Lean(reason), crashAfterReservation)
    {
      if usage.leanCalls + 1 > limits.leanCalls {
        return RefusedLocally;
      }
      if seat.Some? {
        var reserved := ReserveTeam(seat.value, LeanCall);
        if !reserved {
          return TeamBudgetExhausted;
        }
      }
      var lean := usage.lean.(total := usage.lean.total + 1);
      match reason {
        case ProofCompile => lean := lean.(proofCompile := lean.proofCompile + 1);
        case Verification => lean := lean.(verification := lean.verification + 1);
        case PremiseInspection => lean := lean.(inspection := lean.inspection + 1);
        case AxiomAudit => lean := lean.(axiomAudit := lean.axiomAudit + 1);
        case FormalizationCheck => lean := lean.(formalization := lean.formalization + 1);
      }
      usage := usage.(leanCalls := usage.leanCalls + 1, lean := lean);
      return Charged;
    }

    method ChargeModel(kind: ModelKind) returns (outcome: Outcome)
      modifies this
      ensures Charging(outcome, db, usage) == ChargeResult(old(db), Run(old(usage), limits), seat, Model(kind), crashAfterReservation)
    {
      if usage.modelCalls + 1 > limits.modelCalls {
        return RefusedLocally;
      }
      if seat.Some? {
        var reserved := ReserveTeam(seat.value, ModelCall);
        if !reserved {
          return TeamBudgetExhausted;
        }
      }
      var model := usage.model.(total := usage.model.total + 1);
      match kind {
        case Planner => model := model.(planner := model.planner + 1);
        case ProofModel => model := model.(proof := model.proof + 1);
        case Formalization => model := model.(formalization := model.formalization + 1);
      }
      usage := usage.(modelCalls := usage.modelCalls + 1, model := model);
      return Charged;
    }

    method ChargeProofAttempt() returns (outcome: Outcome)
      modifies this
      ensures Charging(outcome, db, usage) == ChargeResult(old(db), Run(old(usage), limits), seat, Proof, crashAfterReservation)
    {
      if usage.proofAttempts + 1 > limits.proofAttempts {
        return RefusedLocally;
      }
      if seat.Some? {
        var reserved := ReserveTeam(seat.value, ProofAttempt);
        if !reserved {
          return TeamBudgetExhausted;
        }
        if crashAfterReservation {
          return CrashedAfterReservation;
        }
      }
      usage := usage.(proofAttempts := usage.proofAttempts + 1);
      return Charged;
    }
  }

  // ---------------------------------------------------------------- any number of workers, interleaved

  // Where a worker stands inside a charge.
  datatype Phase = Idle | Checked(charge: Charge) | Reserved(charge: Charge)

  // `lost` counts the team reservations this worker made and then stopped before its local increment.
  datatype Worker = Worker(run: Run, seat: Option<Seat>, phase: Phase, lost: Counters)
  datatype State = State(db: Db, workers: seq<Worker>)

  datatype Step =
    | Begin(i: nat, charge: Charge)   // the local limit check
    | Transact(i: nat)                // the team transaction, if the worker has a seat
    | Increment(i: nat)               // the local increment
    | Crash(i: nat)                   // the charge is abandoned where it stands

  function Next(s: State, step: Step): State {
    if step.i >= |s.workers| then s
    else
      var w := s.workers[step.i];
      match step
      case Begin(i, charge) =>
        if w.phase.Idle? && LocalRoom(w.run, ResourceOf(charge)) then s.(workers := s.workers[i := w.(phase := Checked(charge))]) else s
      case Transact(i) =>
        if !w.phase.Checked? then s
        else if w.seat.None? then s.(workers := s.workers[i := w.(phase := Reserved(w.phase.charge))])
        else (match Reserve(s.db, w.seat.value, ResourceOf(w.phase.charge))
          case None => s.(workers := s.workers[i := w.(phase := Idle)])
          case Some(db) => State(db, s.workers[i := w.(phase := Reserved(w.phase.charge))]))
      case Increment(i) =>
        if !w.phase.Reserved? then s
        else s.(workers := s.workers[i := w.(run := w.run.(usage := Count(w.run.usage, w.phase.charge)), phase := Idle)])
      case Crash(i) =>
        var lost := if w.phase.Reserved? && w.seat.Some? then Plus(w.lost, ResourceOf(w.phase.charge)) else w.lost;
        s.(workers := s.workers[i := w.(phase := Idle, lost := lost)])
  }

  function Execute(s: State, steps: seq<Step>): State {
    if steps == [] then s else Next(Execute(s, steps[..|steps| - 1]), steps[|steps| - 1])
  }

  const ZERO := Counters(0, 0, 0)
  const UNUSED := Usage(0, 0, 0, LeanUsage(0, 0, 0, 0, 0, 0), ModelUsage(0, 0, 0, 0))

  // Before anything was charged: any sessions, any workers, any limits.
  predicate Initial(s: State) {
    && s.db.reservations == []
    && (forall id :: id in s.db.sessions ==> s.db.sessions[id].usage == ZERO)
    && (forall i :: 0 <= i < |s.workers| ==> s.workers[i].run.usage == UNUSED && s.workers[i].phase == Idle && s.workers[i].lost == ZERO)
  }

  // The team units worker w holds: counted locally, in flight, or lost.
  function Held(w: Worker, id: string, r: Resource): int {
    if w.seat.None? || w.seat.value.sessionId != id then 0
    else Used(w.run.usage, r) + (if w.phase.Reserved? && ResourceOf(w.phase.charge) == r then 1 else 0) + Of(w.lost, r)
  }

  function HeldBy(id: string, r: Resource): Worker -> int {
    w => Held(w, id, r)
  }

  function TeamUsed(db: Db, id: string, r: Resource): nat {
    if id in db.sessions then Of(db.sessions[id].usage, r) else 0
  }

  function ReservedFor(rows: seq<Reservation>, id: string, r: Resource): nat {
    if rows == [] then 0
    else
      var last := rows[|rows| - 1];
      ReservedFor(rows[..|rows| - 1], id, r) + if last.sessionId == id && last.resource == r then 1 else 0
  }

  predicate CategoriesAddUp(u: Usage) {
    && u.leanCalls == u.lean.total
       == u.lean.proofCompile + u.lean.verification + u.lean.inspection + u.lean.axiomAudit + u.lean.formalization
    && u.modelCalls == u.model.total == u.model.planner + u.model.proof + u.model.formalization
  }

  predicate WorkerInvariant(w: Worker) {
    && CategoriesAddUp(w.run.usage)
    && (forall r: Resource :: Used(w.run.usage, r) <= Of(w.run.limits, r))
    && (!w.phase.Idle? ==> LocalRoom(w.run, ResourceOf(w.phase.charge)))
  }

  ghost predicate Invariant(s: State) {
    && (forall i :: 0 <= i < |s.workers| ==> WorkerInvariant(s.workers[i]))
    && (forall id, r :: id in s.db.sessions ==> Of(s.db.sessions[id].usage, r) <= Of(s.db.sessions[id].limits, r))
    && (forall id, r :: TeamUsed(s.db, id, r) == ReservedFor(s.db.reservations, id, r))
    && (forall id, r :: TeamUsed(s.db, id, r) == Sum(Map(HeldBy(id, r), s.workers)))
  }

  lemma {:induction false} SumZero(s: seq<int>)
    requires forall i :: 0 <= i < |s| ==> s[i] == 0
    ensures Sum(s) == 0
  {
    if s != [] {
      SumZero(s[1..]);
    }
  }

  lemma InitialInvariant(s: State)
    requires Initial(s)
    ensures Invariant(s)
  {
    forall id, r
      ensures TeamUsed(s.db, id, r) == Sum(Map(HeldBy(id, r), s.workers))
      ensures TeamUsed(s.db, id, r) == ReservedFor(s.db.reservations, id, r)
    {
      NothingHeld(s.workers, id, r);
    }
    forall id, r | id in s.db.sessions
      ensures Of(s.db.sessions[id].usage, r) <= Of(s.db.sessions[id].limits, r)
    {
      assert s.db.sessions[id].usage == ZERO;
      assert Of(ZERO, r) == 0;
    }
    forall i | 0 <= i < |s.workers|
      ensures WorkerInvariant(s.workers[i])
    {
      UnusedWorker(s.workers[i]);
    }
  }

  lemma UnusedWorker(w: Worker)
    requires w.run.usage == UNUSED && w.phase == Idle
    ensures WorkerInvariant(w)
  {
  }

  lemma NothingHeld(workers: seq<Worker>, id: string, r: Resource)
    requires forall i :: 0 <= i < |workers| ==> workers[i].run.usage == UNUSED && workers[i].phase == Idle && workers[i].lost == ZERO
    ensures Sum(Map(HeldBy(id, r), workers)) == 0
  {
    SumZero(Map(HeldBy(id, r), workers));
  }

  // Replacing one worker changes the held total by what that worker's share changes.
  lemma HeldUpdate(workers: seq<Worker>, i: nat, w: Worker, id: string, r: Resource)
    requires i < |workers|
    ensures Sum(Map(HeldBy(id, r), workers[i := w])) == Sum(Map(HeldBy(id, r), workers)) - Held(workers[i], id, r) + Held(w, id, r)
  {
    SumUpdate(Map(HeldBy(id, r), workers), i, Held(w, id, r));
    assert Map(HeldBy(id, r), workers[i := w]) == Map(HeldBy(id, r), workers)[i := Held(w, id, r)];
  }

  // A step of worker i that leaves the database alone and keeps its share.
  lemma LocalStep(s: State, i: nat, w: Worker)
    requires Invariant(s) && i < |s.workers| && WorkerInvariant(w)
    requires forall id, r :: Held(w, id, r) == Held(s.workers[i], id, r)
    ensures Invariant(s.(workers := s.workers[i := w]))
  {
    forall id, r
      ensures TeamUsed(s.db, id, r) == Sum(Map(HeldBy(id, r), s.workers[i := w]))
    {
      HeldUpdate(s.workers, i, w, id, r);
    }
  }

  // A committed reservation: one more row, one more team unit, one more held by worker i.
  lemma ReserveStep(s: State, i: nat, db: Db)
    requires Invariant(s) && i < |s.workers| && s.workers[i].phase.Checked? && s.workers[i].seat.Some?
    requires Reserve(s.db, s.workers[i].seat.value, ResourceOf(s.workers[i].phase.charge)) == Some(db)
    ensures Invariant(State(db, s.workers[i := s.workers[i].(phase := Reserved(s.workers[i].phase.charge))]))
  {
    var w := s.workers[i];
    var w' := w.(phase := Reserved(w.phase.charge));
    var rows := s.db.reservations;
    forall id, r
      ensures TeamUsed(db, id, r) == ReservedFor(db.reservations, id, r)
      ensures TeamUsed(db, id, r) == Sum(Map(HeldBy(id, r), s.workers[i := w']))
    {
      HeldUpdate(s.workers, i, w', id, r);
      assert db.reservations[..|rows|] == rows;
      assert TeamUsed(s.db, id, r) == ReservedFor(rows, id, r);
    }
  }

  // A step of a worker that is not a committed reservation keeps its share and its own limits.
  lemma OwnStep(s: State, step: Step)
    requires step.i < |s.workers| && WorkerInvariant(s.workers[step.i])
    requires Next(s, step).db == s.db
    ensures var next := Next(s, step);
            && |next.workers| == |s.workers| && next == s.(workers := s.workers[step.i := next.workers[step.i]])
            && WorkerInvariant(next.workers[step.i])
            && forall id, r :: Held(next.workers[step.i], id, r) == Held(s.workers[step.i], id, r)
  {
  }

  // In every run of any number of workers, under every interleaving and crash.
  lemma {:induction false} EveryRunKeepsInvariant(s: State, steps: seq<Step>)
    requires Initial(s)
    ensures Invariant(Execute(s, steps))
  {
    if steps == [] {
      InitialInvariant(s);
    } else {
      EveryRunKeepsInvariant(s, steps[..|steps| - 1]);
      var before, step := Execute(s, steps[..|steps| - 1]), steps[|steps| - 1];
      if step.i < |before.workers| {
        if Next(before, step).db != before.db {
          ReserveStep(before, step.i, Next(before, step).db);
        } else {
          OwnStep(before, step);
          LocalStep(before, step.i, Next(before, step).workers[step.i]);
        }
      }
    }
  }

  // What the workers of one session have counted locally.
  function LocalShare(id: string, r: Resource): Worker -> int {
    (w: Worker) => if w.seat.Some? && w.seat.value.sessionId == id then Used(w.run.usage, r) else 0
  }

  predicate Settled(w: Worker) {
    w.lost == ZERO && (w.seat.Some? ==> !w.phase.Reserved?)
  }

  lemma {:induction false} SharesCompared(workers: seq<Worker>, id: string, r: Resource)
    ensures Sum(Map(LocalShare(id, r), workers)) <= Sum(Map(HeldBy(id, r), workers))
    ensures (forall i :: 0 <= i < |workers| ==> Settled(workers[i])) ==>
              Sum(Map(LocalShare(id, r), workers)) == Sum(Map(HeldBy(id, r), workers))
  {
    if workers != [] {
      SharesCompared(workers[1..], id, r);
      assert Map(LocalShare(id, r), workers)[1..] == Map(LocalShare(id, r), workers[1..]);
      assert Map(HeldBy(id, r), workers)[1..] == Map(HeldBy(id, r), workers[1..]);
    }
  }

  // What the invariant says of one session and resource.
  ghost predicate TeamHolds(t: State, id: string, r: Resource) {
    && (id in t.db.sessions ==> TeamUsed(t.db, id, r) <= Of(t.db.sessions[id].limits, r))
    && TeamUsed(t.db, id, r) == ReservedFor(t.db.reservations, id, r)
  }

  ghost predicate SharesHold(t: State, id: string, r: Resource) {
    && Sum(Map(LocalShare(id, r), t.workers)) <= TeamUsed(t.db, id, r)
    && ((forall i :: 0 <= i < |t.workers| ==> Settled(t.workers[i])) ==>
          Sum(Map(LocalShare(id, r), t.workers)) == TeamUsed(t.db, id, r))
  }

  ghost predicate WorkersHold(t: State, r: Resource) {
    && (forall i :: 0 <= i < |t.workers| ==> Used(t.workers[i].run.usage, r) <= Of(t.workers[i].run.limits, r))
    && (forall i :: 0 <= i < |t.workers| ==> CategoriesAddUp(t.workers[i].run.usage))
  }

  lemma TeamFromInvariant(t: State, id: string, r: Resource)
    requires Invariant(t)
    ensures TeamHolds(t, id, r)
  {
  }

  lemma SharesFromInvariant(t: State, id: string, r: Resource)
    requires Invariant(t)
    ensures SharesHold(t, id, r)
  {
    SharesCompared(t.workers, id, r);
    assert TeamUsed(t.db, id, r) == Sum(Map(HeldBy(id, r), t.workers));
  }

  lemma WorkersFromInvariant(t: State, r: Resource)
    requires Invariant(t)
    ensures WorkersHold(t, r)
  {
    forall i | 0 <= i < |t.workers|
      ensures Used(t.workers[i].run.usage, r) <= Of(t.workers[i].run.limits, r) && CategoriesAddUp(t.workers[i].run.usage)
    {
      assert WorkerInvariant(t.workers[i]);
    }
  }

  // The guarantees a user reads off: limits, reservations, and local totals against the team total.
  lemma BudgetsHold(s: State, steps: seq<Step>, id: string, r: Resource)
    requires Initial(s)
    ensures var t := Execute(s, steps); WorkersHold(t, r) && TeamHolds(t, id, r) && SharesHold(t, id, r)
  {
    EveryRunKeepsInvariant(s, steps);
    var t := Execute(s, steps);
    WorkersFromInvariant(t, r);
    TeamFromInvariant(t, id, r);
    SharesFromInvariant(t, id, r);
  }

  // Nothing is lost, unless some worker crashed.
  lemma {:induction false} NoCrashNoLoss(s: State, steps: seq<Step>)
    requires Initial(s) && forall k :: 0 <= k < |steps| ==> !steps[k].Crash?
    ensures forall i :: 0 <= i < |Execute(s, steps).workers| ==> Execute(s, steps).workers[i].lost == ZERO
  {
    if steps != [] {
      NoCrashNoLoss(s, steps[..|steps| - 1]);
    }
  }

  // A call of a charge method is its three steps run without interference.
  lemma CallIsThreeSteps(s: State, i: nat, charge: Charge)
    requires i < |s.workers| && s.workers[i].phase == Idle
    ensures var w := s.workers[i];
            var call := ChargeResult(s.db, w.run, w.seat, charge, false);
            Execute(s, [Begin(i, charge), Transact(i), Increment(i)])
            == State(call.db, s.workers[i := w.(run := w.run.(usage := call.usage))])
  {
    var steps := [Begin(i, charge), Transact(i), Increment(i)];
    assert steps[..2] == [Begin(i, charge), Transact(i)];
    assert steps[..2][..1] == [Begin(i, charge)];
    assert steps[..2][..1][..0] == [];
    var w := s.workers[i];
    var s1 := Next(s, Begin(i, charge));
    var s2 := Next(s1, Transact(i));
    var s3 := Next(s2, Increment(i));
    assert Execute(s, steps[..2][..1]) == s1;
    assert Execute(s, steps[..2]) == s2;
    assert Execute(s, steps) == s3;
    assert s.workers[i := w] == s.workers;
    var call := ChargeResult(s.db, w.run, w.seat, charge, false);
    assert s3.workers == s.workers[i := w.(run := w.run.(usage := call.usage))];
  }

  // ---------------------------------------------------------------- when a call is granted, on counters and limits

  // The session has a unit of the resource left.
  predicate TeamRoom(db: Db, id: string, r: Resource) {
    id in db.sessions && Of(db.sessions[id].usage, r) < Of(db.sessions[id].limits, r)
  }

  // Each outcome has its condition: a run without room refuses; a seated worker is refused by a team whose session
  // is gone or used up; otherwise the call is charged, or stops behind its reservation.
  lemma OutcomeExactly(db: Db, run: Run, seat: Option<Seat>, charge: Charge, crash: bool)
    ensures var r := ResourceOf(charge);
            var outcome := ChargeResult(db, run, seat, charge, crash).outcome;
            var room := Used(run.usage, r) < Of(run.limits, r);
            && (outcome == RefusedLocally <==> !room)
            && (outcome == TeamBudgetExhausted <==> room && seat.Some? && !TeamRoom(db, seat.value.sessionId, r))
            && (outcome == CrashedAfterReservation <==>
                  room && seat.Some? && TeamRoom(db, seat.value.sessionId, r) && crash && charge == Proof)
            && (outcome == Charged <==>
                  room && (seat.Some? ==> TeamRoom(db, seat.value.sessionId, r) && !(crash && charge == Proof)))
  {
  }

  // What one granted unit does to the database: one more of this resource in this session, and one row.
  ghost predicate OneReserved(db: Db, db': Db, seat: Seat, r: Resource) {
    && seat.sessionId in db.sessions && db'.sessions.Keys == db.sessions.Keys
    && (forall id :: id in db.sessions ==>
          && db'.sessions[id].limits == db.sessions[id].limits && db'.sessions[id].currentRound == db.sessions[id].currentRound
          && forall x :: Of(db'.sessions[id].usage, x) == Of(db.sessions[id].usage, x) + (if id == seat.sessionId && x == r then 1 else 0))
    && db'.reservations == db.reservations + [Reservation(seat.sessionId, seat.agentId, r, db.sessions[seat.sessionId].currentRound + 1)]
  }

  lemma DatabaseExactly(db: Db, run: Run, seat: Option<Seat>, charge: Charge, crash: bool)
    ensures var call := ChargeResult(db, run, seat, charge, crash);
            if seat.Some? && call.outcome in {Charged, CrashedAfterReservation} then OneReserved(db, call.db, seat.value, ResourceOf(charge))
            else call.db == db
  {
  }

  // How many charges of one kind a usage counts.
  function Counted(u: Usage, charge: Charge): nat {
    match charge
    case Lean(ProofCompile) => u.lean.proofCompile
    case Lean(Verification) => u.lean.verification
    case Lean(PremiseInspection) => u.lean.inspection
    case Lean(AxiomAudit) => u.lean.axiomAudit
    case Lean(FormalizationCheck) => u.lean.formalization
    case Model(Planner) => u.model.planner
    case Model(ProofModel) => u.model.proof
    case Model(Formalization) => u.model.formalization
    case Proof => u.proofAttempts
  }

  lemma CountsOneKind(u: Usage, charge: Charge, other: Charge)
    ensures Counted(Count(u, charge), other) == Counted(u, other) + if other == charge then 1 else 0
  {
  }

  // The charges of one kind that worker i has brought to their local increment.
  function Completed(s: State, steps: seq<Step>, i: nat, charge: Charge): nat {
    if steps == [] then 0
    else
      var before, step := Execute(s, steps[..|steps| - 1]), steps[|steps| - 1];
      Completed(s, steps[..|steps| - 1], i, charge)
      + if step == Increment(i) && i < |before.workers| && before.workers[i].phase == Reserved(charge) then 1 else 0
  }

  // In every run a worker's counters tell how many charges of each kind it has completed.
  lemma {:induction false} CountersCountCharges(s: State, steps: seq<Step>, i: nat, charge: Charge)
    requires Initial(s) && i < |s.workers|
    ensures var t := Execute(s, steps);
            |t.workers| == |s.workers| && Counted(t.workers[i].run.usage, charge) == Completed(s, steps, i, charge)
  {
    if steps != [] {
      var before, step := Execute(s, steps[..|steps| - 1]), steps[|steps| - 1];
      CountersCountCharges(s, steps[..|steps| - 1], i, charge);
      if step == Increment(i) && before.workers[i].phase.Reserved? {
        CountsOneKind(before.workers[i].run.usage, before.workers[i].phase.charge, charge);
      }
    }
  }

  // The step is a transaction for this session and resource.
  predicate Asks(s: State, step: Step, id: string, r: Resource) {
    && step.Transact? && step.i < |s.workers| && s.workers[step.i].phase.Checked?
    && ResourceOf(s.workers[step.i].phase.charge) == r
    && s.workers[step.i].seat.Some? && s.workers[step.i].seat.value.sessionId == id
  }

  // How many such transactions a run holds, granted or not.
  function Asked(s: State, steps: seq<Step>, id: string, r: Resource): nat {
    if steps == [] then 0
    else
      Asked(s, steps[..|steps| - 1], id, r)
      + if Asks(Execute(s, steps[..|steps| - 1]), steps[|steps| - 1], id, r) then 1 else 0
  }

  lemma TeamStep(s: State, step: Step, id: string, r: Resource)
    requires id in s.db.sessions
    ensures var t := Next(s, step);
            && id in t.db.sessions && t.db.sessions[id].limits == s.db.sessions[id].limits
            && TeamUsed(t.db, id, r) == TeamUsed(s.db, id, r) + (if Asks(s, step, id, r) && TeamRoom(s.db, id, r) then 1 else 0)
            && (Asks(s, step, id, r) ==> (t.workers[step.i].phase.Reserved? <==> TeamRoom(s.db, id, r)))
  {
  }

  // The unused session of limit L has granted, at every moment, the smaller of L and what was asked of it.
  lemma {:induction false} GrantsUpToLimit(s: State, steps: seq<Step>, id: string, r: Resource)
    requires Initial(s) && id in s.db.sessions
    ensures var t, limit := Execute(s, steps), Of(s.db.sessions[id].limits, r);
            && id in t.db.sessions && t.db.sessions[id].limits == s.db.sessions[id].limits
            && TeamUsed(t.db, id, r) == if Asked(s, steps, id, r) <= limit then Asked(s, steps, id, r) else limit
  {
    if steps != [] {
      GrantsUpToLimit(s, steps[..|steps| - 1], id, r);
      TeamStep(Execute(s, steps[..|steps| - 1]), steps[|steps| - 1], id, r);
    } else {
      assert s.db.sessions[id].usage == ZERO;
    }
  }

  // So exactly the first L transactions of a resource are granted, whichever workers make them and whatever else
  // happens in between.
  lemma FirstTransactionsGranted(s: State, steps: seq<Step>, step: Step, id: string, r: Resource)
    requires Initial(s) && id in s.db.sessions && Asks(Execute(s, steps), step, id, r)
    ensures Next(Execute(s, steps), step).workers[step.i].phase.Reserved? <==> Asked(s, steps, id, r) < Of(s.db.sessions[id].limits, r)
  {
    GrantsUpToLimit(s, steps, id, r);
    TeamStep(Execute(s, steps), step, id, r);
  }

  // A charge refused by the run's own limit changes nothing at all.
  lemma RefusalChangesNothing(db: Db, run: Run, seat: Option<Seat>, charge: Charge, crash: bool)
    ensures var call := ChargeResult(db, run, seat, charge, crash);
            && (call.outcome == RefusedLocally <==> !LocalRoom(run, ResourceOf(charge)))
            && (call.outcome in {RefusedLocally, TeamBudgetExhausted} ==> call.db == db && call.usage == run.usage)
            && (call.outcome == Charged ==>
                  forall r :: Used(call.usage, r) == Used(run.usage, r) + if r == ResourceOf(charge) then 1 else 0)
  {
  }
}
