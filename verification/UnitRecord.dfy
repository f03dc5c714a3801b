/**
 The unit as the services update it: rows appended and fields assigned in place, each method
 proved to leave exactly the record the functions of Execution describe.
 */
module UnitRecord {
  import opened Wrappers
  import opened Execution
  import opened EventLog
  import opened Outcomes

  class Unit {
    const route: seq<RouteStep>
    var status: UnitStatus
    var log: seq<Event>
    var gates: seq<Gate>
    var reworks: seq<ReworkOrder>

    function Contents(): Record
      reads this
    {
      Record(status, log, gates, reworks)
    }

    constructor (route: seq<RouteStep>)
      ensures this.route == route && Contents() == FRESH
    {
      this.route := route;
      status, log, gates, reworks := UnitStatus.Registered, [], [], [];
    }

    /** The scan for the first pending step. */
    method FindCurrentStep() returns (step: Option<nat>)
      ensures step == if CurrentStep(route, log) == |route| then None else Some(CurrentStep(route, log))
    {
      for i := 0 to |route|
        invariant forall j | 0 <= j < i :: Done(log, j)
      {
        if !Done(log, i) {
          FirstPendingIsUnique(|route|, log, i);
          return Some(i);
        }
      }
      FirstPendingIsUnique(|route|, log, |route|);
      return None;
    }

    method FindEventIssue(step: nat, etype: EventType) returns (issue: Option<Refusal>)
      ensures issue == StationEventIssue(route, Contents(), step, etype)
    {
      var current := FindCurrentStep();
      if current.None? { return Some(NothingPending); }
      if current.value != step { return Some(NotCurrentStep); }
      if etype !in {EventType.ReworkOut, EventType.ReworkIn} {
        if status == QualityHold { return Some(Held); }
        if status == UnitStatus.Rework { return Some(InRework); }
        if status == UnitStatus.Released { return Some(AlreadyReleased); }
      }
      return None;
    }

    /** Records an event; a refusal found after the row was written rolls the transaction back. */
    method RecordStationEvent(q: Request) returns (refusal: Option<Refusal>)
      modifies this
      ensures Contents() == Step(route, old(Contents()), Station(q))
      ensures refusal.None? <==> RecordEvent(route, old(Contents()), q).Ok?
      ensures refusal.Some? ==> RecordEvent(route, old(Contents()), q) == Err(refusal.value)
    {
      if !q.cleared { return Some(NotCleared); }
      var found := StepFor(route, q.station);
      if found.None? { return Some(NoActiveStep); }
      var step := found.value;
      var issue := FindEventIssue(step, q.etype);
      if issue.Some? { return issue; }
      if q.etype !in AvailableActions(TypeOf(Latest(StationHistory(log, q.station)))) {
        return Some(WrongAction);
      }
      var before := log;
      log := log + [Event(q.station, step, q.etype, q.at, Recorder, q.source, q.reference)];
      refusal := ApplyStationEvent(step, q.etype, q.code);
      if refusal.Some? {
        log := before;
      }
    }

    method ApplyStationEvent(step: nat, etype: EventType, code: string) returns (refusal: Option<Refusal>)
      requires step < |route|
      modifies this`status, this`gates, this`reworks
      ensures refusal.None? ==> ApplyEffects(route, old(Contents()), step, etype, code) == Ok(Contents())
      ensures refusal.Some? ==> ApplyEffects(route, old(Contents()), step, etype, code) == Err(refusal.value)
                                && Contents() == old(Contents())
    {
      if etype in {EventType.Started, EventType.Paused, EventType.Resumed, EventType.ReworkIn} {
        status := InProcess;
      } else if etype == EventType.Completed {
        if route[step].stationGate || route[step].stepGate {
          var matches := GatesAt(gates, step);
          if matches > 1 { return Some(DuplicateGates); }
          if matches == 0 { gates := gates + [Gate(step, Pending, true)]; }
          status := QualityHold;
        } else if step + 1 == |route| {
          status := UnitStatus.Completed;
        } else {
          status := InProcess;
        }
      } else if etype == EventType.Failed {
        status := QualityHold;
      } else if etype == EventType.ReworkOut {
        var matches := ReworksFor(reworks, step, code);
        if matches > 1 { return Some(DuplicateReworks); }
        status := UnitStatus.Rework;
        if matches == 0 {
          reworks := reworks + [ReworkOrder(route[step].station, step, code, Open, None)];
        }
      }
      return None;
    }

    /** The loop over the live reworks a gate reinspects. */
    method SyncReinspectionReworks(gate: nat)
      requires gate < |gates| && !gates[gate].status.Pending?
      modifies this`reworks
      ensures reworks == SyncReworks(old(reworks), gate, gates[gate].status)
    {
      ghost var before := reworks;
      var verdict := gates[gate].status;
      for i := 0 to |reworks|
        invariant |reworks| == |before|
        invariant forall j | 0 <= j < i :: reworks[j] == SyncRework(before[j], gate, verdict)
        invariant forall j | i <= j < |before| :: reworks[j] == before[j]
      {
        if Reinspects(reworks[i], gate) {
          if Resolved(verdict) {
            reworks := reworks[i := reworks[i].(status := Closed)];
          } else {
            reworks := reworks[i := reworks[i].(status := ReworkStatus.InProgress)];
          }
        }
      }
    }

    method ReviewQualityGate(gate: nat, verdict: GateStatus, evidence: bool, notes: bool) returns (refusal: Option<Refusal>)
      modifies this
      ensures Contents() == Step(route, old(Contents()), Review(gate, verdict, evidence, notes))
      ensures refusal.None? <==> ReviewGate(route, old(Contents()), gate, verdict, evidence, notes).Ok?
    {
      if verdict.Pending? { return Some(InvalidVerdict); }
      if !evidence { return Some(NoEvidence); }
      if verdict in {GateStatus.Failed, Waived} && !notes { return Some(NoNotes); }
      if gate >= |gates| { return Some(NoSuchGate); }
      gates := gates[gate := gates[gate].(status := verdict)];
      ApplyResult(gate);
      return None;
    }

    method ApplyResult(gate: nat)
      requires gate < |gates|
      modifies this`status, this`reworks
      ensures Contents() == ApplyVerdict(route, old(Contents()), gate)
      ensures old(status) != UnitStatus.Released && !gates[gate].status.Pending? ==>
                VerdictSettles(route, old(Contents()), gate, gates[gate].status, Contents())
    {
      if !gates[gate].status.Pending? {
        VerdictLeaves(route, Contents(), gate, ApplyVerdict(route, Contents(), gate));
      }
      if status == UnitStatus.Released { return; }
      if gates[gate].status == GateStatus.Failed {
        var reinspected := UnderReinspection(reworks, gate);
        SyncReinspectionReworks(gate);
        status := if reinspected then UnitStatus.Rework else QualityHold;
      } else if gates[gate].status in {Passed, Waived} {
        SyncReinspectionReworks(gate);
        if Blocked(gates) || HasOpenRework(reworks) { return; }
        status := if gates[gate].step + 1 < |route| then InProcess else UnitStatus.Completed;
      }
    }

    /** The four actions a rework offers, guarded by its status. */
    method ManageReworkOrder(rework: nat, action: ReworkAction) returns (refusal: Option<Refusal>)
      modifies this
      ensures Contents() == Step(route, old(Contents()), Manage(rework, action))
      ensures refusal.None? <==> ManageRework(route, old(Contents()), rework, action).Ok?
    {
      if rework >= |reworks| { return Some(NoSuchRework); }
      if !ActionAvailable(reworks[rework].status, action) { return Some(ActionNotAvailable); }
      match action {
        case Start =>
          reworks := reworks[rework := reworks[rework].(status := ReworkStatus.InProgress)];
          status := UnitStatus.Rework;
        case SendToReview(at) =>
          SendToQualityReview(rework, at);
        case Close =>
          reworks := reworks[rework := reworks[rework].(status := Closed)];
          RefreshAfterResolution(reworks[rework].step);
        case Cancel =>
          reworks := reworks[rework := reworks[rework].(status := Cancelled)];
          RefreshAfterResolution(reworks[rework].step);
      }
      return None;
    }

    method SendToQualityReview(rework: nat, at: int)
      requires rework < |reworks|
      modifies this
      ensures Contents() == SendForReinspection(old(Contents()), rework, at)
    {
      var r := reworks[rework];
      if r.gate.None? {
        r := r.(gate := Some(|gates|));
        gates := gates + [Gate(r.step, Pending, true)];
      }
      log := log + [Event(r.station, r.step, EventType.ReworkIn, at, Reinspection, Manual, "")];
      reworks := reworks[rework := r.(status := QaReview)];
      status := QualityHold;
    }

    method RefreshAfterResolution(step: nat)
      modifies this`status
      ensures Contents() == Resolve(route, old(Contents()), step)
      ensures ResolutionSettles(route, old(Contents()), step, status)
    {
      ResolveSettles(route, Contents(), step);
      if status == UnitStatus.Released { return; }
      if Blocked(gates) {
        status := QualityHold;
      } else if HasOpenRework(reworks) {
        status := UnitStatus.Rework;
      } else if step + 1 < |route| {
        status := InProcess;
      } else {
        status := UnitStatus.Completed;
      }
    }

    method ApplyDecision(decision: Decision, documented: bool) returns (refusal: Option<Refusal>)
      modifies this`status
      ensures Contents() == Step(route, old(Contents()), Release(decision, documented))
      ensures refusal.None? <==> Decide(old(Contents()), decision, documented).Ok?
    {
      if decision == Approved {
        if HasOpenRework(reworks) { return Some(OpenReworks); }
        if Blocked(gates) { return Some(BlockingGates); }
        if !documented { return Some(Undocumented); }
        status := UnitStatus.Released;
      } else if decision == Decision.Rejected && status != UnitStatus.Released {
        status := QualityHold;
      }
      return None;
    }
  }
}
