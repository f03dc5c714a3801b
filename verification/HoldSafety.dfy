/**
 No unit moves while a blocking gate is unresolved: in every reachable record it is on hold or in
 rework, and every station event is refused, the two rework moves included.
 */
module HoldSafety {
  import opened Wrappers
  import opened Execution
  import opened EventLog

  predicate OnHold(u: Record) {
    u.status.QualityHold? || u.status.Rework?
  }

  /** The step has nothing under way: no event, or a return from rework not yet started. */
  predicate Parked(log: seq<Event>, step: nat) {
    var last := TypeOf(LatestAt(log, step));
    last.None? || last.value.ReworkIn?
  }

  /** Before a step has rows, every earlier step was completed at least once. */
  ghost predicate EarlierCompleted(route: seq<RouteStep>, log: seq<Event>) {
    forall j, k | 0 <= j < k < |route| && Touched(log, k) :: CompletedOnce(log, j)
  }

  ghost predicate GateForEachGatedCompletion(route: seq<RouteStep>, u: Record) {
    forall j | 0 <= j < |route| && Gated(route[j]) && CompletedOnce(u.log, j) :: GatesAt(u.gates, j) > 0
  }

  ghost predicate ReworksWhereTouched(route: seq<RouteStep>, u: Record) {
    forall r | 0 <= r < |u.reworks| ::
      StepFor(route, u.reworks[r].station) == Some(u.reworks[r].step) && Touched(u.log, u.reworks[r].step)
  }

  ghost predicate BlockedUnitHeld(route: seq<RouteStep>, u: Record) {
    Blocked(u.gates) ==>
      OnHold(u) && (CurrentStep(route, u.log) < |route| ==> Parked(u.log, CurrentStep(route, u.log)))
  }

  /** A live rework beyond the current step means that step was reopened and waits for its inspection. */
  ghost predicate ReopenedUnitHeld(route: seq<RouteStep>, u: Record) {
    var c := CurrentStep(route, u.log);
    forall r | 0 <= r < |u.reworks| && Active(u.reworks[r]) && u.reworks[r].step > c ::
      OnHold(u) && TypeOf(LatestAt(u.log, c)) == Some(EventType.ReworkIn)
  }

  ghost predicate ReleasedUnitClear(u: Record) {
    u.status.Released? ==> !Blocked(u.gates) && !HasOpenRework(u.reworks)
  }

  ghost predicate GatesBlock(u: Record) {
    forall g | 0 <= g < |u.gates| :: u.gates[g].blocking
  }

  /** The inductive invariant; none of the services maintains the hold without all of it. */
  ghost predicate Sound(route: seq<RouteStep>, u: Record) {
    && OnRoute(route, u.log)
    && EarlierCompleted(route, u.log)
    && GateForEachGatedCompletion(route, u)
    && ReworksWhereTouched(route, u)
    && BlockedUnitHeld(route, u)
    && ReopenedUnitHeld(route, u)
    && ReleasedUnitClear(u)
    && GatesBlock(u)
  }

  /** The row the operation may write is not back-dated within its step. */
  ghost predicate OnTime(route: seq<RouteStep>, u: Record, op: Op) {
    match op
    case Station(q) =>
      StepFor(route, q.station).Some? ==> InOrder(u.log, StepFor(route, q.station).value, q.at)
    case Manage(rework, SendToReview(at)) => rework < |u.reworks| ==> InOrder(u.log, u.reworks[rework].step, at)
    case _ => true
  }

  ghost predicate OnTimeRun(route: seq<RouteStep>, u: Record, ops: seq<Op>)
    decreases |ops|
  {
    ops != [] ==> OnTime(route, u, ops[0]) && OnTimeRun(route, Step(route, u, ops[0]), ops[1..])
  }

  /** Besides, a passed or waived gate is not reviewed again. */
  ghost predicate Admissible(route: seq<RouteStep>, u: Record, op: Op) {
    && OnTime(route, u, op)
    && (op.Review? && op.gate < |u.gates| ==> !Resolved(u.gates[op.gate].status))
  }

  ghost predicate AdmissibleRun(route: seq<RouteStep>, u: Record, ops: seq<Op>)
    decreases |ops|
  {
    ops != [] ==> Admissible(route, u, ops[0]) && AdmissibleRun(route, Step(route, u, ops[0]), ops[1..])
  }

  /** What the invariant is for: the recorder refuses everything while the unit is blocked. */
  lemma BlockedUnitRefusesEveryEvent(route: seq<RouteStep>, u: Record, q: Request)
    requires Sound(route, u) && Blocked(u.gates)
    ensures OnHold(u) && RecordEvent(route, u, q).Err?
  {
    var step := StepFor(route, q.station);
    if step.Some? {
      StationAndStepHistoriesAgree(route, u.log, q.station, step.value);
    }
  }

  // ----- Preservation, one operation at a time -----

  lemma GatesAtAppend(gates: seq<Gate>, g: Gate, step: nat)
    ensures GatesAt(gates + [g], step) == GatesAt(gates, step) + if g.step == step then 1 else 0
  {
    assert (gates + [g])[..|gates|] == gates;
  }

  lemma {:induction false} GatesAtIgnoresStatus(gates: seq<Gate>, other: seq<Gate>, step: nat)
    requires |gates| == |other|
    requires forall i | 0 <= i < |gates| :: gates[i].step == other[i].step
    ensures GatesAt(gates, step) == GatesAt(other, step)
  {
    if gates != [] {
      GatesAtIgnoresStatus(gates[..|gates| - 1], other[..|gates| - 1], step);
    }
  }

  lemma BlockedAppend(gates: seq<Gate>, g: Gate)
    ensures Blocked(gates + [g]) <==> Blocked(gates) || Blocks(g)
  {
    var grown := gates + [g];
    if Blocked(gates) {
      var i :| 0 <= i < |gates| && Blocks(gates[i]);
      assert grown[i] == gates[i];
    }
    if Blocks(g) {
      assert grown[|gates|] == g;
    }
  }

  /** What the log's own part of the invariant needs when a row in time order is added. */
  lemma LogStaysSound(route: seq<RouteStep>, log: seq<Event>, e: Event)
    requires OnRoute(route, log) && EarlierCompleted(route, log)
    requires StepFor(route, e.station) == Some(e.step)
    requires Touched(log, e.step) || forall j | 0 <= j < e.step :: Done(log, j)
    ensures OnRoute(route, log + [e]) && EarlierCompleted(route, log + [e])
  {
    var grown := log + [e];
    forall i | 0 <= i < |grown|
      ensures StepFor(route, grown[i].station) == Some(grown[i].step)
    {
      assert i < |log| ==> grown[i] == log[i];
    }
    forall j, k | 0 <= j < k < |route| && Touched(grown, k)
      ensures CompletedOnce(grown, j)
    {
      HistoryAppend(log, e, k);
      CompletedOnceAppend(log, e, j);
      if !Touched(log, k) {
        DoneMeansCompletedOnce(log, j);
      }
    }
  }

  /** The row an accepted request writes. */
  function Row(route: seq<RouteStep>, q: Request): Event
    requires StepFor(route, q.station).Some?
  {
    Event(q.station, StepFor(route, q.station).value, q.etype, q.at, Recorder, q.source, q.reference)
  }

  /** What is known of a record after row `e`, whichever request wrote it. */
  ghost predicate Wrote(route: seq<RouteStep>, u: Record, e: Event, next: Record) {
    && StepFor(route, e.station) == Some(e.step)
    && e.step == CurrentStep(route, u.log) < |route|
    && next.log == u.log + [e]
    && e.etype in AvailableActions(TypeOf(LatestAt(u.log, e.step)))
    && (!ReworkMove(e.etype) ==> !OnHold(u) && !u.status.Released?)
    && (next.gates == u.gates || OpensGate(route, u, e, next))
    && (e.etype.Completed? && Gated(route[e.step]) ==> GatesAt(u.gates, e.step) > 0 || OpensGate(route, u, e, next))
    && (next.reworks == u.reworks || OpensRework(u, e, next))
    && !next.status.Released?
  }

  ghost predicate OpensGate(route: seq<RouteStep>, u: Record, e: Event, next: Record)
    requires e.step < |route|
  {
    && next.gates == u.gates + [Gate(e.step, Pending, true)]
    && e.etype.Completed? && Gated(route[e.step]) && GatesAt(u.gates, e.step) == 0 && OnHold(next)
  }

  ghost predicate OpensRework(u: Record, e: Event, next: Record) {
    && e.etype.ReworkOut?
    && |next.reworks| == |u.reworks| + 1
    && next.reworks[..|u.reworks|] == u.reworks
    && next.reworks[|u.reworks|].step == e.step
    && next.reworks[|u.reworks|].station == e.station
  }

  lemma {:induction false} EffectsOfRow(route: seq<RouteStep>, u: Record, e: Event, code: string)
    requires StepFor(route, e.station) == Some(e.step) && e.step == CurrentStep(route, u.log) < |route|
    requires e.etype in AvailableActions(TypeOf(LatestAt(u.log, e.step)))
    requires !ReworkMove(e.etype) ==> !OnHold(u) && !u.status.Released?
    requires ApplyEffects(route, u.(log := u.log + [e]), e.step, e.etype, code).Ok?
    ensures Wrote(route, u, e, ApplyEffects(route, u.(log := u.log + [e]), e.step, e.etype, code).value)
  {}

  lemma AcceptedRequestWrites(route: seq<RouteStep>, u: Record, q: Request)
    requires OnRoute(route, u.log)
    requires RecordEvent(route, u, q).Ok?
    ensures StepFor(route, q.station).Some?
    ensures Wrote(route, u, Row(route, q), RecordEvent(route, u, q).value)
  {
    StationAndStepHistoriesAgree(route, u.log, q.station, StepFor(route, q.station).value);
    EffectsOfRow(route, u, Row(route, q), q.code);
  }

  /** A cleared request for an action on offer, not refused for the unit's status, has the event's effects. */
  lemma OfferedIsRecorded(route: seq<RouteStep>, u: Record, q: Request, step: nat)
    requires q.cleared && StepFor(route, q.station) == Some(step) && StationEventIssue(route, u, step, q.etype).None?
    requires q.etype in AvailableActions(TypeOf(Latest(StationHistory(u.log, q.station))))
    ensures RecordEvent(route, u, q) == ApplyEffects(route, u.(log := u.log + [Row(route, q)]), step, q.etype, q.code)
  {}

  /** Where the current step goes when a row in time order is written on it. */
  lemma CurrentAfterRow(route: seq<RouteStep>, log: seq<Event>, e: Event)
    requires e.step == CurrentStep(route, log) < |route|
    requires InOrder(log, e.step, e.at)
    ensures !e.etype.Completed? ==> CurrentStep(route, log + [e]) == e.step
    ensures e.etype.Completed? ==> CurrentStep(route, log + [e]) > e.step
  {
    RowInOrder(log, e);
    if e.etype.Completed? {
      PendingIsBeyond(|route|, log + [e], e.step);
    } else {
      FirstPendingIsUnique(|route|, log + [e], e.step);
    }
  }

  lemma RowKeepsGates(route: seq<RouteStep>, u: Record, e: Event, next: Record)
    requires Wrote(route, u, e, next) && GateForEachGatedCompletion(route, u)
    ensures GateForEachGatedCompletion(route, next)
  {
    forall j | 0 <= j < |route| && Gated(route[j]) && CompletedOnce(next.log, j)
      ensures GatesAt(next.gates, j) > 0
    {
      CompletedOnceAppend(u.log, e, j);
      if next.gates != u.gates { GatesAtAppend(u.gates, Gate(e.step, Pending, true), j); }
    }
  }

  lemma RowKeepsReworks(route: seq<RouteStep>, u: Record, e: Event, next: Record)
    requires Wrote(route, u, e, next) && ReworksWhereTouched(route, u)
    ensures ReworksWhereTouched(route, next)
  {
    forall r | 0 <= r < |next.reworks|
      ensures StepFor(route, next.reworks[r].station) == Some(next.reworks[r].step)
      ensures Touched(next.log, next.reworks[r].step)
    {
      HistoryAppend(u.log, e, next.reworks[r].step);
      if r < |u.reworks| {
        assert next.reworks[..|u.reworks|][r] == next.reworks[r];
      }
    }
  }

  /** The gate a completion opens finds the step it leads to without rows. */
  lemma RowKeepsBlockedUnitHeld(route: seq<RouteStep>, u: Record, e: Event, next: Record)
    requires Wrote(route, u, e, next) && InOrder(u.log, e.step, e.at)
    requires EarlierCompleted(route, u.log) && GateForEachGatedCompletion(route, u)
    requires !Blocked(u.gates)
    ensures BlockedUnitHeld(route, next)
  {
    if next.gates != u.gates {
      CurrentAfterRow(route, u.log, e);
      RowInOrder(u.log, e);
      var c := CurrentStep(route, next.log);
      assert !CompletedOnce(u.log, e.step);
      assert c < |route| ==> !Touched(u.log, c);
    }
  }

  lemma RowKeepsReopenedUnitHeld(route: seq<RouteStep>, u: Record, e: Event, next: Record)
    requires Wrote(route, u, e, next) && InOrder(u.log, e.step, e.at)
    requires ReopenedUnitHeld(route, u)
    ensures ReopenedUnitHeld(route, next)
  {
    CurrentAfterRow(route, u.log, e);
    forall r | 0 <= r < |next.reworks| && Active(next.reworks[r])
      ensures next.reworks[r].step <= e.step
    {
      if r < |u.reworks| {
        assert next.reworks[..|u.reworks|][r] == next.reworks[r];
        assert u.reworks[r] == next.reworks[r];
      }
    }
  }

  lemma RecordKeepsSound(route: seq<RouteStep>, u: Record, q: Request)
    requires Sound(route, u) && Admissible(route, u, Station(q))
    requires RecordEvent(route, u, q).Ok?
    ensures Sound(route, RecordEvent(route, u, q).value)
  {
    AcceptedRequestWrites(route, u, q);
    var e, next := Row(route, q), RecordEvent(route, u, q).value;
    assert !Blocked(u.gates) by {
      if Blocked(u.gates) { BlockedUnitRefusesEveryEvent(route, u, q); }
    }
    LogStaysSound(route, u.log, e);
    RowKeepsGates(route, u, e, next);
    RowKeepsReworks(route, u, e, next);
    RowKeepsBlockedUnitHeld(route, u, e, next);
    RowKeepsReopenedUnitHeld(route, u, e, next);
  }

  /** Reviews, decisions and most rework actions: the log stays, nothing new opens, and a hold with a reason stays. */
  ghost predicate Eases(u: Record, next: Record) {
    && next.log == u.log
    && |next.gates| == |u.gates|
    && (forall g | 0 <= g < |u.gates| ::
          next.gates[g].step == u.gates[g].step && next.gates[g].blocking == u.gates[g].blocking)
    && (Blocked(next.gates) ==> Blocked(u.gates))
    && |next.reworks| == |u.reworks|
    && (forall r | 0 <= r < |u.reworks| ::
          next.reworks[r].station == u.reworks[r].station && next.reworks[r].step == u.reworks[r].step
          && (Active(next.reworks[r]) ==> Active(u.reworks[r])))
    && (OnHold(u) && (Blocked(next.gates) || HasOpenRework(next.reworks)) ==> OnHold(next))
    && ReleasedUnitClear(next)
  }

  lemma EasingKeepsSound(route: seq<RouteStep>, u: Record, next: Record)
    requires Sound(route, u) && Eases(u, next)
    ensures Sound(route, next)
  {
    forall j | 0 <= j < |route|
      ensures GatesAt(next.gates, j) == GatesAt(u.gates, j)
    {
      GatesAtIgnoresStatus(next.gates, u.gates, j);
    }
  }

  lemma ReviewKeepsSound(route: seq<RouteStep>, u: Record, gate: nat, verdict: GateStatus)
    requires Sound(route, u) && gate < |u.gates| && !Resolved(u.gates[gate].status) && !verdict.Pending?
    ensures Sound(route, ApplyVerdict(route, u.(gates := u.gates[gate := u.gates[gate].(status := verdict)]), gate))
  {
    assert Blocks(u.gates[gate]);
    var reviewed := u.(gates := u.gates[gate := u.gates[gate].(status := verdict)]);
    EasingKeepsSound(route, u, ApplyVerdict(route, reviewed, gate));
  }

  lemma DecisionKeepsSound(route: seq<RouteStep>, u: Record, decision: Decision, documented: bool)
    requires Sound(route, u) && Decide(u, decision, documented).Ok?
    ensures Sound(route, Decide(u, decision, documented).value)
  {
    EasingKeepsSound(route, u, Decide(u, decision, documented).value);
  }

  /** A reinspection reopens the reworked step, or leaves an earlier reopened one current. */
  lemma ReinspectionKeepsSound(route: seq<RouteStep>, u: Record, rework: nat, at: int)
    requires Sound(route, u) && rework < |u.reworks| && Active(u.reworks[rework])
    requires InOrder(u.log, u.reworks[rework].step, at)
    ensures Sound(route, SendForReinspection(u, rework, at))
  {
    var next := SendForReinspection(u, rework, at);
    var e, c := next.log[|u.log|], CurrentStep(route, u.log);
    LogStaysSound(route, u.log, e);
    RowInOrder(u.log, e);
    var now := if e.step < c then e.step else c;
    FirstPendingIsUnique(|route|, next.log, now);
    assert Parked(next.log, now) && TypeOf(LatestAt(next.log, now)) == Some(EventType.ReworkIn);
    forall j | 0 <= j < |route| && Gated(route[j]) && CompletedOnce(next.log, j)
      ensures GatesAt(next.gates, j) > 0
    {
      CompletedOnceAppend(u.log, e, j);
      GatesAtAppend(u.gates, Gate(e.step, Pending, true), j);
    }
  }

  lemma ManagementKeepsSound(route: seq<RouteStep>, u: Record, rework: nat, action: ReworkAction)
    requires Sound(route, u) && Admissible(route, u, Manage(rework, action))
    requires ManageRework(route, u, rework, action).Ok?
    ensures Sound(route, ManageRework(route, u, rework, action).value)
  {
    if action.SendToReview? {
      ReinspectionKeepsSound(route, u, rework, action.at);
    } else {
      EasingKeepsSound(route, u, ManageRework(route, u, rework, action).value);
    }
  }

  lemma StepKeepsSound(route: seq<RouteStep>, u: Record, op: Op)
    requires Sound(route, u) && Admissible(route, u, op)
    ensures Sound(route, Step(route, u, op))
  {
    if Attempt(route, u, op).Ok? {
      match op
      case Station(q) => RecordKeepsSound(route, u, q);
      case Review(gate, verdict, _, _) => ReviewKeepsSound(route, u, gate, verdict);
      case Manage(rework, action) => ManagementKeepsSound(route, u, rework, action);
      case Release(decision, documented) => DecisionKeepsSound(route, u, decision, documented);
    }
  }

  lemma {:induction false} RunKeepsSound(route: seq<RouteStep>, u: Record, ops: seq<Op>)
    requires Sound(route, u) && AdmissibleRun(route, u, ops)
    ensures Sound(route, Run(route, u, ops))
    decreases |ops|
  {
    if ops != [] {
      StepKeepsSound(route, u, ops[0]);
      RunKeepsSound(route, Step(route, u, ops[0]), ops[1..]);
    }
  }

  /** The main result, over every run from a newly registered unit. */
  lemma BlockedUnitNeverMoves(route: seq<RouteStep>, ops: seq<Op>, q: Request)
    requires AdmissibleRun(route, FRESH, ops)
    requires Blocked(Run(route, FRESH, ops).gates)
    ensures OnHold(Run(route, FRESH, ops))
    ensures RecordEvent(route, Run(route, FRESH, ops), q).Err?
  {
    RunKeepsSound(route, FRESH, ops);
    BlockedUnitRefusesEveryEvent(route, Run(route, FRESH, ops), q);
  }
}
