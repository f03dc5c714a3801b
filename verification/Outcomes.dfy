/**
 What each operation on a unit answers and leaves behind, case by case: which events may follow which, which requests
 are recorded, and where reviews, rework actions and release decisions take status, gates and reworks.
 */
module Outcomes {
  import opened Wrappers
  import opened Execution
  import opened EventLog
  import opened HoldSafety

  // ----- Which event may follow which -----

  predicate AtWork(last: Option<EventType>) {
    last == Some(EventType.Started) || last == Some(Resumed)
  }

  /** The turns a step's history may take, seen from the event that comes next. */
  predicate MayFollow(last: Option<EventType>, next: EventType) {
    match next
    case Arrived => false
    case Started => last.None? || last == Some(EventType.Failed) || last == Some(ReworkIn)
    case Paused => AtWork(last)
    case Resumed => last == Some(Paused)
    case Completed => AtWork(last)
    case Failed => AtWork(last)
    case ReworkOut => AtWork(last) || last == Some(Paused) || last == Some(EventType.Failed)
    case ReworkIn => last == Some(ReworkOut)
  }

  lemma {:induction false} ActionsAreTheTurns(last: Option<EventType>, next: EventType)
    ensures next in AvailableActions(last) <==> MayFollow(last, next)
  {}

  // ----- Lookups -----

  ghost predicate NoGate(gates: seq<Gate>, step: nat) {
    forall g | 0 <= g < |gates| :: gates[g].step != step
  }

  ghost predicate OneGateAtMost(gates: seq<Gate>, step: nat) {
    forall g, h | 0 <= g < h < |gates| :: gates[g].step != step || gates[h].step != step
  }

  predicate NamesDefect(r: ReworkOrder, step: nat, code: string) {
    r.step == step && r.code == code
  }

  ghost predicate NoRework(reworks: seq<ReworkOrder>, step: nat, code: string) {
    forall r | 0 <= r < |reworks| :: !NamesDefect(reworks[r], step, code)
  }

  ghost predicate OneReworkAtMost(reworks: seq<ReworkOrder>, step: nat, code: string) {
    forall r, s | 0 <= r < s < |reworks| :: !NamesDefect(reworks[r], step, code) || !NamesDefect(reworks[s], step, code)
  }

  lemma {:induction false} GatesFound(gates: seq<Gate>, step: nat)
    ensures GatesAt(gates, step) == 0 <==> NoGate(gates, step)
    ensures GatesAt(gates, step) <= 1 <==> OneGateAtMost(gates, step)
  {
    if gates != [] {
      var n := |gates| - 1;
      GatesFound(gates[..n], step);
      assert gates == gates[..n] + [gates[n]];
      if gates[n].step == step && !NoGate(gates[..n], step) {
        var g :| 0 <= g < n && gates[..n][g].step == step;
        assert !OneGateAtMost(gates, step);
      }
    }
  }

  lemma {:induction false} ReworksFound(reworks: seq<ReworkOrder>, step: nat, code: string)
    ensures ReworksFor(reworks, step, code) == 0 <==> NoRework(reworks, step, code)
    ensures ReworksFor(reworks, step, code) <= 1 <==> OneReworkAtMost(reworks, step, code)
  {
    if reworks != [] {
      var n := |reworks| - 1;
      ReworksFound(reworks[..n], step, code);
      assert reworks == reworks[..n] + [reworks[n]];
      if NamesDefect(reworks[n], step, code) && !NoRework(reworks[..n], step, code) {
        var r :| 0 <= r < n && NamesDefect(reworks[..n][r], step, code);
        assert !OneReworkAtMost(reworks, step, code);
      }
    }
  }

  // ----- Recording an event -----

  /** The step is the first whose last event is not a completion. */
  ghost predicate IsCurrent(route: seq<RouteStep>, log: seq<Event>, step: nat) {
    && step < |route| && TypeOf(LatestAt(log, step)) != Some(EventType.Completed)
    && forall j: nat | j < step :: TypeOf(LatestAt(log, j)) == Some(EventType.Completed)
  }

  /** The step is the first of the route at the station. */
  ghost predicate WorksAt(route: seq<RouteStep>, station: nat, step: nat) {
    step < |route| && route[step].station == station && forall j: nat | j < step :: route[j].station != station
  }

  predicate NeedsGate(step: RouteStep, etype: EventType) {
    etype == EventType.Completed && (step.stationGate || step.stepGate)
  }

  /** The unit's status lets the event through: on hold, in rework and released, only the two rework moves. */
  predicate LetThrough(status: UnitStatus, etype: EventType) {
    etype == ReworkOut || etype == ReworkIn || status in {UnitStatus.Registered, InProcess, UnitStatus.Completed, Archived}
  }

  /** The request asks, at the current step's station, for a turn its history may take. */
  ghost predicate Timely(route: seq<RouteStep>, u: Record, q: Request, step: nat) {
    q.cleared && IsCurrent(route, u.log, step) && WorksAt(route, q.station, step)
    && MayFollow(TypeOf(LatestAt(u.log, step)), q.etype)
  }

  /** The lookup the event needs finds at most one row. */
  ghost predicate LookedUp(route: seq<RouteStep>, u: Record, q: Request, step: nat)
    requires step < |route|
  {
    && (NeedsGate(route[step], q.etype) ==> OneGateAtMost(u.gates, step))
    && (q.etype == ReworkOut ==> OneReworkAtMost(u.reworks, step, q.code))
  }

  lemma {:induction false} CurrentIsCurrent(route: seq<RouteStep>, log: seq<Event>, step: nat)
    requires step < |route|
    ensures IsCurrent(route, log, step) <==> step == CurrentStep(route, log)
  {
    if IsCurrent(route, log, step) {
      assert forall j: nat | j < step :: Done(log, j);
      FirstPendingIsUnique(|route|, log, step);
    }
    if step == CurrentStep(route, log) {
      forall j: nat | j < step
        ensures TypeOf(LatestAt(log, j)) == Some(EventType.Completed)
      {
        assert Done(log, j);
      }
    }
  }

  lemma {:induction false} StepWorksAt(route: seq<RouteStep>, station: nat, step: nat)
    ensures WorksAt(route, station, step) <==> StepFor(route, station) == Some(step)
  {}

  /** A request is recorded exactly when it is timely, the status lets it through, and its lookup finds one row at most. */
  lemma {:induction false} EventIsRecordedExactlyWhen(route: seq<RouteStep>, u: Record, q: Request, step: nat)
    requires OnRoute(route, u.log) && WorksAt(route, q.station, step)
    ensures RecordEvent(route, u, q).Ok? <==>
              Timely(route, u, q, step) && LetThrough(u.status, q.etype) && LookedUp(route, u, q, step)
  {
    StepWorksAt(route, q.station, step);
    CurrentIsCurrent(route, u.log, step);
    if CurrentStep(route, u.log) == step { AnswerAtCurrent(route, u, q, step); }
  }

  /** The checks in order at the current step. */
  lemma {:induction false} AnswerAtCurrent(route: seq<RouteStep>, u: Record, q: Request, c: nat)
    requires OnRoute(route, u.log) && c < |route| && c == CurrentStep(route, u.log) && StepFor(route, q.station) == Some(c)
    ensures var answer := RecordEvent(route, u, q);
            if !q.cleared then answer == Err(NotCleared)
            else if !LetThrough(u.status, q.etype) then
              answer == Err(if u.status.QualityHold? then Held else if u.status.Rework? then InRework else AlreadyReleased)
            else if !MayFollow(TypeOf(LatestAt(u.log, c)), q.etype) then answer == Err(WrongAction)
            else if NeedsGate(route[c], q.etype) && !OneGateAtMost(u.gates, c) then answer == Err(DuplicateGates)
            else if q.etype == ReworkOut && !OneReworkAtMost(u.reworks, c, q.code) then answer == Err(DuplicateReworks)
            else answer.Ok?
  {
    StationAndStepHistoriesAgree(route, u.log, q.station, c);
    ActionsAreTheTurns(TypeOf(LatestAt(u.log, c)), q.etype);
    GatesFound(u.gates, c);
    ReworksFound(u.reworks, c, q.code);
    EffectsFail(route, u.(log := u.log + [Row(route, q)]), c, q.etype, q.code);
  }

  lemma {:induction false} EffectsFail(route: seq<RouteStep>, u: Record, step: nat, etype: EventType, code: string)
    requires step < |route|
    ensures var effects := ApplyEffects(route, u, step, etype, code);
            if NeedsGate(route[step], etype) && GatesAt(u.gates, step) > 1 then effects == Err(DuplicateGates)
            else if etype == ReworkOut && ReworksFor(u.reworks, step, code) > 1 then effects == Err(DuplicateReworks)
            else effects.Ok?
  {}

  /** Each refusal names the obstacle that stands in the way, and the earlier ones do not. */
  lemma {:induction false} RefusalNamesTheObstacle(route: seq<RouteStep>, u: Record, q: Request, step: nat)
    requires OnRoute(route, u.log) && WorksAt(route, q.station, step)
    ensures var answer := RecordEvent(route, u, q);
            var finished := forall j: nat | j < |route| :: TypeOf(LatestAt(u.log, j)) == Some(EventType.Completed);
            var reached := q.cleared && IsCurrent(route, u.log, step);
            var through := LetThrough(u.status, q.etype);
            var single := NeedsGate(route[step], q.etype) ==> OneGateAtMost(u.gates, step);
            && (answer == Err(NotCleared) <==> !q.cleared)
            && (answer == Err(NothingPending) <==> q.cleared && finished)
            && (answer == Err(NotCurrentStep) <==> q.cleared && !finished && !IsCurrent(route, u.log, step))
            && (answer == Err(Held) <==> reached && !through && u.status == QualityHold)
            && (answer == Err(InRework) <==> reached && !through && u.status == UnitStatus.Rework)
            && (answer == Err(AlreadyReleased) <==> reached && !through && u.status == UnitStatus.Released)
            && (answer == Err(WrongAction) <==> reached && through && !MayFollow(TypeOf(LatestAt(u.log, step)), q.etype))
            && (answer == Err(DuplicateGates) <==> Timely(route, u, q, step) && through && !single)
            && (answer == Err(DuplicateReworks) <==>
                  Timely(route, u, q, step) && through && single && !LookedUp(route, u, q, step))
  {
    var c := CurrentStep(route, u.log);
    StepWorksAt(route, q.station, step);
    CurrentIsCurrent(route, u.log, step);
    FinishedAtTheEnd(route, u.log);
    if c == step {
      AnswerAtCurrent(route, u, q, step);
    } else {
      AnswerElsewhere(route, u, q, step);
    }
  }

  lemma {:induction false} FinishedAtTheEnd(route: seq<RouteStep>, log: seq<Event>)
    ensures CurrentStep(route, log) == |route|
            <==> forall j: nat | j < |route| :: TypeOf(LatestAt(log, j)) == Some(EventType.Completed)
  {
    var c := CurrentStep(route, log);
    if c == |route| {
      forall j: nat | j < |route|
        ensures TypeOf(LatestAt(log, j)) == Some(EventType.Completed)
      {
        assert Done(log, j);
      }
    } else {
      assert !Done(log, c);
    }
  }

  lemma {:induction false} AnswerElsewhere(route: seq<RouteStep>, u: Record, q: Request, step: nat)
    requires StepFor(route, q.station) == Some(step) && step != CurrentStep(route, u.log)
    ensures RecordEvent(route, u, q)
         == Err(if !q.cleared then NotCleared
                else if CurrentStep(route, u.log) == |route| then NothingPending else NotCurrentStep)
  {}

  /** Where no step of the route works at the station, the request is refused for that. */
  lemma {:induction false} UnroutedStationIsRefused(route: seq<RouteStep>, u: Record, q: Request)
    requires forall step: nat :: !WorksAt(route, q.station, step)
    ensures RecordEvent(route, u, q) == Err(if q.cleared then NoActiveStep else NotCleared)
  {
    if StepFor(route, q.station).Some? { StepWorksAt(route, q.station, StepFor(route, q.station).value); }
  }

  /** The event took the unit off its step's way: it failed, or completed work that a gate has to pass. */
  predicate Stops(step: RouteStep, etype: EventType) {
    etype == EventType.Failed || NeedsGate(step, etype)
  }

  /**
   What a recorded event leaves: its row, one gate if a gated completion finds none, one rework if REWORK_OUT finds
   none for its defect, and the status its kind calls for.
   */
  lemma {:induction false} RecordedEventLeaves(route: seq<RouteStep>, u: Record, q: Request, step: nat, next: Record)
    requires OnRoute(route, u.log) && RecordEvent(route, u, q) == Ok(next) && WorksAt(route, q.station, step)
    ensures next.log == u.log + [Event(q.station, step, q.etype, q.at, Recorder, q.source, q.reference)]
    ensures next.gates == if NeedsGate(route[step], q.etype) && NoGate(u.gates, step)
                          then u.gates + [Gate(step, Pending, true)] else u.gates
    ensures next.reworks == if q.etype == ReworkOut && NoRework(u.reworks, step, q.code)
                            then u.reworks + [ReworkOrder(q.station, step, q.code, Open, None)] else u.reworks
    ensures next.status == QualityHold <==> Stops(route[step], q.etype)
    ensures next.status == UnitStatus.Rework <==> q.etype == ReworkOut
    ensures next.status == UnitStatus.Completed <==>
              q.etype == EventType.Completed && !NeedsGate(route[step], q.etype) && step + 1 == |route|
    ensures next.status in {QualityHold, UnitStatus.Rework, UnitStatus.Completed, InProcess}
  {
    StepWorksAt(route, q.station, step);
    GatesFound(u.gates, step);
    ReworksFound(u.reworks, step, q.code);
    EffectsLeave(route, u.(log := u.log + [Row(route, q)]), step, q.etype, q.code, next);
  }

  lemma {:induction false} EffectsLeave(route: seq<RouteStep>, u: Record, step: nat, etype: EventType, code: string,
                                        next: Record)
    requires step < |route| && etype != Arrived && ApplyEffects(route, u, step, etype, code) == Ok(next)
    ensures next.log == u.log
    ensures next.gates == if NeedsGate(route[step], etype) && GatesAt(u.gates, step) == 0
                          then u.gates + [Gate(step, Pending, true)] else u.gates
    ensures next.reworks == if etype == ReworkOut && ReworksFor(u.reworks, step, code) == 0
                            then u.reworks + [ReworkOrder(route[step].station, step, code, Open, None)] else u.reworks
    ensures next.status == QualityHold <==> Stops(route[step], etype)
    ensures next.status == UnitStatus.Rework <==> etype == ReworkOut
    ensures next.status == UnitStatus.Completed <==>
              etype == EventType.Completed && !NeedsGate(route[step], etype) && step + 1 == |route|
    ensures next.status in {QualityHold, UnitStatus.Rework, UnitStatus.Completed, InProcess}
  {}

  // ----- Reviewing a gate -----

  predicate Outstanding(g: Gate) {
    g.blocking && (g.status == Pending || g.status == GateStatus.Failed)
  }

  predicate StillOpen(r: ReworkOrder) {
    r.status == Open || r.status == InProgress || r.status == QaReview
  }

  ghost predicate GateLeft(gates: seq<Gate>) {
    exists g :: 0 <= g < |gates| && Outstanding(gates[g])
  }

  ghost predicate ReworkLeft(reworks: seq<ReworkOrder>) {
    exists r :: 0 <= r < |reworks| && StillOpen(reworks[r])
  }

  /** A rework still open waits for the verdict of the gate. */
  predicate Awaits(r: ReworkOrder, gate: nat) {
    StillOpen(r) && r.gate == Some(gate)
  }

  lemma {:induction false} LeftIsBlockedOrOpen(u: Record)
    ensures Blocked(u.gates) <==> GateLeft(u.gates)
    ensures HasOpenRework(u.reworks) <==> ReworkLeft(u.reworks)
  {
    if Blocked(u.gates) {
      var g :| 0 <= g < |u.gates| && Blocks(u.gates[g]);
      assert Outstanding(u.gates[g]);
    }
    if GateLeft(u.gates) {
      var g :| 0 <= g < |u.gates| && Outstanding(u.gates[g]);
      assert Blocks(u.gates[g]);
    }
    if HasOpenRework(u.reworks) {
      var r :| 0 <= r < |u.reworks| && Active(u.reworks[r]);
      assert StillOpen(u.reworks[r]);
    }
    if ReworkLeft(u.reworks) {
      var r :| 0 <= r < |u.reworks| && StillOpen(u.reworks[r]);
      assert Active(u.reworks[r]);
    }
  }

  /** A review needs a verdict, evidence, notes unless it passes, and a gate, and is refused for the first it lacks. */
  lemma {:induction false} ReviewAnswers(route: seq<RouteStep>, u: Record, gate: nat, verdict: GateStatus, evidence: bool,
                                         notes: bool)
    ensures var answer := ReviewGate(route, u, gate, verdict, evidence, notes);
            && (answer == Err(InvalidVerdict) <==> verdict == Pending)
            && (answer == Err(NoEvidence) <==> verdict != Pending && !evidence)
            && (answer == Err(NoNotes) <==> verdict in {GateStatus.Failed, Waived} && evidence && !notes)
            && (answer == Err(NoSuchGate) <==>
                  verdict != Pending && evidence && (verdict == Passed || notes) && |u.gates| <= gate)
            && (answer.Ok? <==> verdict != Pending && evidence && (verdict == Passed || notes) && gate < |u.gates|)
  {}

  /** The unit's status once an obstacle at a step is out of the way and nothing else is left. */
  predicate GoesOn(route: seq<RouteStep>, step: nat, status: UnitStatus) {
    status == if step + 1 < |route| then InProcess else UnitStatus.Completed
  }

  /** What a verdict makes of the status of a unit that is not released, given the gates and reworks it leaves. */
  ghost predicate VerdictSettles(route: seq<RouteStep>, u: Record, gate: nat, verdict: GateStatus, next: Record)
    requires gate < |u.gates|
  {
    if verdict == GateStatus.Failed then
      && (next.status == UnitStatus.Rework <==> exists r :: 0 <= r < |u.reworks| && Awaits(u.reworks[r], gate))
      && next.status in {UnitStatus.Rework, QualityHold}
    else if GateLeft(next.gates) || ReworkLeft(next.reworks) then next.status == u.status
    else GoesOn(route, u.gates[gate].step, next.status)
  }

  /**
   What an accepted review leaves: the verdict on its gate alone, the reworks that awaited it closed or back at work,
   and, once nothing is left against the unit, the status that the gate's place in the route calls for.
   */
  lemma {:induction false} ReviewLeaves(route: seq<RouteStep>, u: Record, gate: nat, verdict: GateStatus, evidence: bool,
                                        notes: bool, next: Record)
    requires ReviewGate(route, u, gate, verdict, evidence, notes) == Ok(next)
    ensures next.log == u.log && next.gates == u.gates[gate := u.gates[gate].(status := verdict)]
    ensures |next.reworks| == |u.reworks|
    ensures forall r | 0 <= r < |u.reworks| ::
              next.reworks[r] == if u.status != UnitStatus.Released && Awaits(u.reworks[r], gate)
                                 then u.reworks[r].(status := if verdict == GateStatus.Failed then InProgress else Closed)
                                 else u.reworks[r]
    ensures if u.status == UnitStatus.Released then next.status == UnitStatus.Released
            else VerdictSettles(route, u, gate, verdict, next)
  {
    var reviewed := u.(gates := u.gates[gate := u.gates[gate].(status := verdict)]);
    VerdictLeaves(route, reviewed, gate, next);
    assert reviewed.reworks == u.reworks;
  }

  lemma {:induction false} VerdictLeaves(route: seq<RouteStep>, u: Record, gate: nat, next: Record)
    requires gate < |u.gates| && u.gates[gate].status != Pending && next == ApplyVerdict(route, u, gate)
    ensures next.log == u.log && next.gates == u.gates && |next.reworks| == |u.reworks|
    ensures forall r | 0 <= r < |u.reworks| ::
              next.reworks[r] == if u.status != UnitStatus.Released && Awaits(u.reworks[r], gate)
                                 then u.reworks[r].(status := if u.gates[gate].status == GateStatus.Failed
                                                              then InProgress else Closed)
                                 else u.reworks[r]
    ensures if u.status == UnitStatus.Released then next.status == UnitStatus.Released
            else VerdictSettles(route, u, gate, u.gates[gate].status, next)
  {
    LeftIsBlockedOrOpen(next);
    AwaitedExactlyWhenReinspected(u.reworks, gate);
  }

  lemma {:induction false} AwaitedExactlyWhenReinspected(reworks: seq<ReworkOrder>, gate: nat)
    ensures UnderReinspection(reworks, gate) <==> exists r :: 0 <= r < |reworks| && Awaits(reworks[r], gate)
  {
    if UnderReinspection(reworks, gate) {
      var r :| 0 <= r < |reworks| && Reinspects(reworks[r], gate);
      assert Awaits(reworks[r], gate);
    }
    if r :| 0 <= r < |reworks| && Awaits(reworks[r], gate) {
      assert Reinspects(reworks[r], gate);
    }
  }

  // ----- Managing a rework -----

  /** What is left decides the status, and the route only when nothing is. */
  ghost predicate ResolutionSettles(route: seq<RouteStep>, u: Record, step: nat, status: UnitStatus) {
    if u.status == UnitStatus.Released then status == UnitStatus.Released
    else if GateLeft(u.gates) then status == QualityHold
    else if ReworkLeft(u.reworks) then status == UnitStatus.Rework
    else GoesOn(route, step, status)
  }

  lemma {:induction false} ResolveSettles(route: seq<RouteStep>, u: Record, step: nat)
    ensures ResolutionSettles(route, u, step, Resolve(route, u, step).status)
  {
    LeftIsBlockedOrOpen(u);
  }

  /** A rework is started while open, sent to review until it is there, and closed or cancelled until it is either. */
  lemma {:induction false} ActionAnswers(route: seq<RouteStep>, u: Record, rework: nat, action: ReworkAction)
    ensures var answer := ManageRework(route, u, rework, action);
            && (answer == Err(NoSuchRework) <==> |u.reworks| <= rework)
            && (answer.Ok? <==>
                  && rework < |u.reworks| && StillOpen(u.reworks[rework])
                  && (action.Start? ==> u.reworks[rework].status == Open)
                  && (action.SendToReview? ==> u.reworks[rework].status != QaReview))
            && (answer.Err? ==> answer.error in {NoSuchRework, ActionNotAvailable})
  {}

  function StatusAfterAction(action: ReworkAction): ReworkStatus {
    match action
    case Start => InProgress
    case SendToReview(_) => QaReview
    case Close => Closed
    case Cancel => ReworkStatus.Cancelled
  }

  /** What an action leaves: its rework in the new status, a gate and a row for a reinspection, and the unit's status. */
  lemma {:induction false} ActionLeaves(route: seq<RouteStep>, u: Record, rework: nat, action: ReworkAction, next: Record)
    requires ManageRework(route, u, rework, action) == Ok(next)
    ensures rework < |u.reworks| == |next.reworks|
    ensures forall r | 0 <= r < |u.reworks| && r != rework :: next.reworks[r] == u.reworks[r]
    ensures var r, after := u.reworks[rework], next.reworks[rework];
            && after.status == StatusAfterAction(action)
            && (after.station, after.step, after.code) == (r.station, r.step, r.code)
            && next.log == u.log + (if action.SendToReview?
                                    then [Event(r.station, r.step, ReworkIn, action.at, Reinspection, Manual, "")] else [])
            && (if action.SendToReview? && r.gate == None
                then next.gates == u.gates + [Gate(r.step, Pending, true)] && after.gate == Some(|u.gates|)
                else next.gates == u.gates && after.gate == r.gate)
            && (action.Start? ==> next.status == UnitStatus.Rework)
            && (action.SendToReview? ==> next.status == QualityHold)
            && (action.Close? || action.Cancel? ==>
                  ResolutionSettles(route, u.(reworks := next.reworks), r.step, next.status))
  {
    if action.Close? || action.Cancel? {
      ResolveSettles(route, u.(reworks := u.reworks[rework := u.reworks[rework].(status := StatusAfterAction(action))]),
                     u.reworks[rework].step);
    }
  }

  // ----- Release decisions -----

  /** An approval releases a unit with nothing left against it, a rejection holds any unit not yet released. */
  lemma {:induction false} DecisionLeaves(route: seq<RouteStep>, u: Record, decision: Decision, documented: bool)
    ensures var answer := Decide(u, decision, documented);
            && (answer.Err? <==> decision == Approved && (GateLeft(u.gates) || ReworkLeft(u.reworks) || !documented))
            && (answer.Ok? ==>
                  answer.value == u.(status := if decision == Approved then UnitStatus.Released
                                               else if decision == Decision.Rejected && u.status != UnitStatus.Released
                                               then QualityHold else u.status))
            && (answer == Err(OpenReworks) <==> decision == Approved && ReworkLeft(u.reworks))
            && (answer == Err(BlockingGates) <==> decision == Approved && !ReworkLeft(u.reworks) && GateLeft(u.gates))
  {
    LeftIsBlockedOrOpen(u);
  }
}
