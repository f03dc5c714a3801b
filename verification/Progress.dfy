/** On an ungated route, station events alone never get stuck: a short run of them finishes what they began. */
module Progress {
  import opened Wrappers
  import opened Execution
  import opened EventLog
  import opened HoldSafety
  import opened RouteOrder

  predicate Ungated(route: seq<RouteStep>) {
    forall i | 0 <= i < |route| :: !Gated(route[i])
  }

  predicate DistinctStations(route: seq<RouteStep>) {
    forall i, j | 0 <= i < j < |route| :: route[i].station != route[j].station
  }

  /** What the last accepted event makes of the unit. */
  function StatusAfter(route: seq<RouteStep>, log: seq<Event>): UnitStatus {
    if log == [] then UnitStatus.Registered
    else
      var last := log[|log| - 1];
      match last.etype
      case Completed => StatusBeyond(route, last.step)
      case Failed => QualityHold
      case ReworkOut => Rework
      case _ => InProcess
  }

  ghost predicate ReworksUnique(reworks: seq<ReworkOrder>) {
    forall step: nat, code: string :: ReworksFor(reworks, step, code) <= 1
  }

  /** The current step either has no row, and the last row completed a step, or holds the last row of the log. */
  ghost predicate LastRowLeads(route: seq<RouteStep>, log: seq<Event>) {
    var c := CurrentStep(route, log);
    c < |route| ==>
      if Touched(log, c) then
        && log != []
        && LatestAt(log, c) == Some(log[|log| - 1])
        && AvailableActions(Some(log[|log| - 1].etype)) != {}
      else log == [] || (log[|log| - 1].etype.Completed? && log[|log| - 1].step + 1 == c)
  }

  ghost predicate Flowing(route: seq<RouteStep>, u: Record) {
    && PrefixDone(route, u.log)
    && LastRowLeads(route, u.log)
    && u.status == StatusAfter(route, u.log)
    && ReworksUnique(u.reworks)
  }

  lemma ReworksForAppend(reworks: seq<ReworkOrder>, r: ReworkOrder, step: nat, code: string)
    ensures ReworksFor(reworks + [r], step, code)
            == ReworksFor(reworks, step, code) + if r.step == step && r.code == code then 1 else 0
  {
    assert (reworks + [r])[..|reworks|] == reworks;
  }

  lemma RowFinishesStep(route: seq<RouteStep>, log: seq<Event>, e: Event)
    requires PrefixDone(route, log)
    requires StepFor(route, e.station) == Some(e.step) && e.step == CurrentStep(route, log)
    requires e.etype.Completed? && InOrder(log, e.step, e.at)
    ensures CurrentStep(route, log + [e]) == e.step + 1
    ensures e.step + 1 < |route| ==> !Touched(log + [e], e.step + 1) && LatestAt(log + [e], e.step + 1).None?
  {
    RowKeepsPrefixDone(route, log, e);
    RowInOrder(log, e);
    assert Done(log + [e], e.step);
    assert e.step + 1 < |route| ==> !Touched(log, e.step + 1) && !Done(log + [e], e.step + 1);
  }

  lemma RowKeepsLastRowLeads(route: seq<RouteStep>, log: seq<Event>, e: Event)
    requires PrefixDone(route, log)
    requires StepFor(route, e.station) == Some(e.step) && e.step == CurrentStep(route, log)
    requires InOrder(log, e.step, e.at) && !e.etype.Arrived?
    ensures LastRowLeads(route, log + [e])
  {
    RowInOrder(log, e);
    RowKeepsPrefixDone(route, log, e);
    var grown, c := log + [e], e.step;
    var now := CurrentStep(route, grown);
    assert AvailableActions(Some(e.etype)) != {} || e.etype.Completed? by {
      assert e.etype.Failed? ==> EventType.Started in AvailableActions(Some(e.etype));
      assert e.etype.Paused? ==> EventType.Resumed in AvailableActions(Some(e.etype));
      assert e.etype.ReworkOut? ==> EventType.ReworkIn in AvailableActions(Some(e.etype));
      assert e.etype.ReworkIn? ==> EventType.Started in AvailableActions(Some(e.etype));
      assert e.etype.Started? || e.etype.Resumed? ==> EventType.Paused in AvailableActions(Some(e.etype));
    }
    if e.etype.Completed? {
      RowFinishesStep(route, log, e);
    } else {
      CurrentAfterRow(route, log, e);
    }
  }

  lemma RecordKeepsFlowing(route: seq<RouteStep>, u: Record, q: Request)
    requires Ungated(route) && Flowing(route, u) && OnTime(route, u, Station(q))
    requires RecordEvent(route, u, q).Ok?
    ensures Flowing(route, RecordEvent(route, u, q).value)
  {
    AcceptedRequestWrites(route, u, q);
    WrittenKeepsFlowing(route, u, Row(route, q), q.code, RecordEvent(route, u, q).value);
  }

  lemma WrittenKeepsFlowing(route: seq<RouteStep>, u: Record, e: Event, code: string, next: Record)
    requires Flowing(route, u) && Wrote(route, u, e, next) && InOrder(u.log, e.step, e.at) && !Gated(route[e.step])
    requires ApplyEffects(route, u.(log := u.log + [e]), e.step, e.etype, code) == Ok(next)
    ensures Flowing(route, next)
  {
    RowKeepsPrefixDone(route, u.log, e);
    RowKeepsLastRowLeads(route, u.log, e);
    UngatedEffects(route, u, e, code, next);
    if next.reworks != u.reworks { OpeningKeepsUnique(u.reworks, next.reworks[|u.reworks|]); }
  }

  lemma {:induction false} UngatedEffects(route: seq<RouteStep>, u: Record, e: Event, code: string, next: Record)
    requires e.step < |route| && !Gated(route[e.step]) && !e.etype.Arrived?
    requires ApplyEffects(route, u.(log := u.log + [e]), e.step, e.etype, code) == Ok(next)
    ensures next.status == StatusAfter(route, u.log + [e])
  {}

  lemma OpeningKeepsUnique(reworks: seq<ReworkOrder>, r: ReworkOrder)
    requires ReworksUnique(reworks) && ReworksFor(reworks, r.step, r.code) == 0
    ensures ReworksUnique(reworks + [r])
  {
    forall step: nat, code: string
      ensures ReworksFor(reworks + [r], step, code) <= 1
    {
      ReworksForAppend(reworks, r, step, code);
    }
  }

  lemma {:induction false} RunKeepsFlowing(route: seq<RouteStep>, u: Record, ops: seq<Op>)
    requires Ungated(route) && Flowing(route, u) && StationOnly(ops) && OnTimeRun(route, u, ops)
    ensures Flowing(route, Run(route, u, ops))
    decreases |ops|
  {
    if ops != [] {
      if RecordEvent(route, u, ops[0].request).Ok? {
        RecordKeepsFlowing(route, u, ops[0].request);
      }
      RunKeepsFlowing(route, Step(route, u, ops[0]), ops[1..]);
    }
  }

  lemma FreshFlows(route: seq<RouteStep>)
    ensures Flowing(route, FRESH)
  {
    FirstPendingIsUnique(|route|, [], 0);
  }

  /** The unit's status is a function of the last accepted event. */
  lemma StatusFollowsLastEvent(route: seq<RouteStep>, ops: seq<Op>)
    requires Ungated(route) && StationOnly(ops) && OnTimeRun(route, FRESH, ops)
    ensures Run(route, FRESH, ops).status == StatusAfter(route, Run(route, FRESH, ops).log)
  {
    FreshFlows(route);
    RunKeepsFlowing(route, FRESH, ops);
  }

  // ----- A way out of every record -----

  /** The move that brings the current step closer to completion, and how many such moves it needs. */
  function Advance(last: Option<EventType>): (EventType, nat) {
    match last
    case Some(Started) => (EventType.Completed, 1)
    case Some(Resumed) => (EventType.Completed, 1)
    case Some(Paused) => (EventType.Resumed, 2)
    case Some(Failed) => (EventType.ReworkOut, 4)
    case Some(ReworkOut) => (EventType.ReworkIn, 3)
    case _ => (EventType.Started, 2)
  }

  function MovesLeft(route: seq<RouteStep>, log: seq<Event>): nat {
    var c := CurrentStep(route, log);
    if c == |route| then 0 else Advance(TypeOf(LatestAt(log, c))).1 + 2 * (|route| - c - 1)
  }

  /** A time no earlier than any row's. */
  function Horizon(log: seq<Event>): (at: int)
    ensures forall e | e in log :: e.at <= at
  {
    if log == [] then 0
    else
      var earlier := Horizon(log[..|log| - 1]);
      var last := log[|log| - 1];
      assert log == log[..|log| - 1] + [last];
      if earlier <= last.at then last.at else earlier
  }

  lemma HorizonIsInOrder(log: seq<Event>, step: nat)
    ensures InOrder(log, step, Horizon(log))
  {
    forall e | e in History(log, step)
      ensures e.at <= Horizon(log)
    {
      HistoryMembers(log, step, e);
    }
  }

  function NextRequest(route: seq<RouteStep>, u: Record): Request
    requires CurrentStep(route, u.log) < |route|
  {
    var c := CurrentStep(route, u.log);
    Request(route[c].station, Advance(TypeOf(LatestAt(u.log, c))).0, Horizon(u.log), "", true, Api, "")
  }

  lemma NextRequestIsAccepted(route: seq<RouteStep>, u: Record)
    requires Ungated(route) && DistinctStations(route) && Flowing(route, u)
    requires CurrentStep(route, u.log) < |route|
    ensures OnTime(route, u, Station(NextRequest(route, u)))
    ensures StepFor(route, NextRequest(route, u).station) == Some(CurrentStep(route, u.log))
    ensures RecordEvent(route, u, NextRequest(route, u)).Ok?
  {
    var c, q := CurrentStep(route, u.log), NextRequest(route, u);
    assert StepFor(route, route[c].station) == Some(c);
    StationAndStepHistoriesAgree(route, u.log, q.station, c);
    HorizonIsInOrder(u.log, c);
    assert !Gated(route[c]);
    assert ReworksFor(u.reworks, c, "") <= 1;
  }

  /** A row of the move that helps, in time order, leaves one move fewer. */
  lemma RowShortens(route: seq<RouteStep>, log: seq<Event>, e: Event)
    requires PrefixDone(route, log)
    requires StepFor(route, e.station) == Some(e.step) && e.step == CurrentStep(route, log)
    requires e.etype == Advance(TypeOf(LatestAt(log, e.step))).0 && InOrder(log, e.step, e.at)
    ensures MovesLeft(route, log + [e]) + 1 == MovesLeft(route, log)
  {
    RowInOrder(log, e);
    if e.etype.Completed? {
      RowFinishesStep(route, log, e);
    } else {
      CurrentAfterRow(route, log, e);
    }
  }

  lemma NextRequestShortens(route: seq<RouteStep>, u: Record)
    requires Ungated(route) && DistinctStations(route) && Flowing(route, u)
    requires CurrentStep(route, u.log) < |route|
    ensures MovesLeft(route, Step(route, u, Station(NextRequest(route, u))).log) + 1 == MovesLeft(route, u.log)
  {
    NextRequestIsAccepted(route, u);
    AcceptedRequestWrites(route, u, NextRequest(route, u));
    RowShortens(route, u.log, Row(route, NextRequest(route, u)));
  }

  lemma Prepend(route: seq<RouteStep>, u: Record, op: Op, rest: seq<Op>)
    ensures Run(route, u, [op] + rest) == Run(route, Step(route, u, op), rest)
  {
    assert ([op] + rest)[1..] == rest;
  }

  /** An accepted event before a run of accepted events. */
  lemma EventBefore(route: seq<RouteStep>, u: Record, op: Op, rest: seq<Op>, next: Record)
    requires next == Step(route, u, op) && op.Station? && OnTime(route, u, op) && Attempt(route, u, op).Ok?
    requires StationOnly(rest) && OnTimeRun(route, next, rest) && AllAccepted(route, next, rest)
    ensures StationOnly([op] + rest) && OnTimeRun(route, u, [op] + rest) && AllAccepted(route, u, [op] + rest)
  {
    var ops := [op] + rest;
    assert ops[0] == op && ops[1..] == rest;
  }

  lemma {:induction false} FinishFrom(route: seq<RouteStep>, u: Record) returns (ops: seq<Op>)
    requires Ungated(route) && DistinctStations(route) && Flowing(route, u)
    ensures StationOnly(ops) && OnTimeRun(route, u, ops) && AllAccepted(route, u, ops)
    ensures |ops| == MovesLeft(route, u.log)
    ensures CurrentStep(route, Run(route, u, ops).log) == |route|
    decreases MovesLeft(route, u.log)
  {
    if CurrentStep(route, u.log) == |route| {
      ops := [];
    } else {
      var op := Station(NextRequest(route, u));
      NextRequestIsAccepted(route, u);
      NextRequestShortens(route, u);
      RecordKeepsFlowing(route, u, op.request);
      var rest := FinishFrom(route, Step(route, u, op));
      EventBefore(route, u, op, rest, Step(route, u, op));
      Prepend(route, u, op, rest);
      ops := [op] + rest;
    }
  }

  predicate AllAccepted(route: seq<RouteStep>, u: Record, ops: seq<Op>)
    decreases |ops|
  {
    ops != [] ==> Attempt(route, u, ops[0]).Ok? && AllAccepted(route, Step(route, u, ops[0]), ops[1..])
  }

  /** How many steps of the route are still unfinished. */
  function Unfinished(route: seq<RouteStep>, log: seq<Event>, from: nat := 0): nat
    requires from <= |route|
    decreases |route| - from
  {
    if from == |route| then 0
    else Unfinished(route, log, from + 1) + if Done(log, from) then 0 else 1
  }

  lemma {:induction false} UnfinishedIsSuffix(route: seq<RouteStep>, log: seq<Event>, from: nat)
    requires PrefixDone(route, log) && from <= |route|
    ensures Unfinished(route, log, from)
            == |route| - if from < CurrentStep(route, log) then CurrentStep(route, log) else from
    decreases |route| - from
  {
    if from < |route| {
      UnfinishedIsSuffix(route, log, from + 1);
    }
  }

  lemma MovesLeftBound(route: seq<RouteStep>, log: seq<Event>)
    ensures MovesLeft(route, log) <= 2 * (|route| - CurrentStep(route, log)) + 2
  {}

  /**
   From every record that station events on time reach, with r steps unfinished, at most 2r + 2 accepted events
   finish the route.
   */
  lemma NoDeadlock(route: seq<RouteStep>, before: seq<Op>) returns (ops: seq<Op>)
    requires Ungated(route) && DistinctStations(route)
    requires StationOnly(before) && OnTimeRun(route, FRESH, before)
    ensures var u := Run(route, FRESH, before);
            && StationOnly(ops) && OnTimeRun(route, u, ops) && AllAccepted(route, u, ops)
            && |ops| <= 2 * Unfinished(route, u.log) + 2
            && Unfinished(route, Run(route, u, ops).log) == 0
  {
    var u := Run(route, FRESH, before);
    FreshFlows(route);
    RunKeepsFlowing(route, FRESH, before);
    ops := FinishFrom(route, u);
    MovesLeftBound(route, u.log);
    UnfinishedIsSuffix(route, u.log, 0);
    RunKeepsFlowing(route, u, ops);
    UnfinishedIsSuffix(route, Run(route, u, ops).log, 0);
  }

  // ----- Why distinct stations are needed -----

  lemma TouchedStepIsStationsFirst(route: seq<RouteStep>, log: seq<Event>, step: nat)
    requires OnRoute(route, log) && Touched(log, step)
    ensures step < |route| && StepFor(route, route[step].station) == Some(step)
  {
    var e := History(log, step)[0];
    HistoryMembers(log, step, e);
    var k :| 0 <= k < |log| && log[k] == e;
    assert StepFor(route, log[k].station) == Some(step);
  }

  /** A second step at a station is never worked: the lookup by station always finds the first. */
  lemma RepeatedStationIsNeverReached(route: seq<RouteStep>, ops: seq<Op>, i: nat, j: nat)
    requires i < j < |route| && route[i].station == route[j].station
    ensures !Touched(Run(route, FRESH, ops).log, j)
  {
    var log := Run(route, FRESH, ops).log;
    RunKeepsAnchored(route, FRESH, ops);
    if Touched(log, j) {
      TouchedStepIsStationsFirst(route, log, j);
    }
  }

  // ----- Why ungated routes are needed -----

  lemma StepKeepsTwoGates(route: seq<RouteStep>, u: Record, op: Op, step: nat)
    ensures GatesAt(Step(route, u, op).gates, step) >= GatesAt(u.gates, step)
  {
    var next := Step(route, u, op);
    if |next.gates| == |u.gates| {
      GatesAtIgnoresStatus(next.gates, u.gates, step);
    } else {
      GatesAtAppend(u.gates, next.gates[|u.gates|], step);
    }
  }

  lemma UnfinishedStaysUnfinished(log: seq<Event>, e: Event, step: nat)
    requires !Done(log, step) && (e.step == step ==> !e.etype.Completed?)
    ensures !Done(log + [e], step)
  {
    HistoryAppend(log, e, step);
    LatestAppend(History(log, step), e);
  }

  lemma RecordLeavesTwiceGatedUnfinished(route: seq<RouteStep>, u: Record, q: Request, step: nat)
    requires step < |route| && Gated(route[step]) && GatesAt(u.gates, step) > 1 && !Done(u.log, step)
    requires RecordEvent(route, u, q).Ok?
    ensures !Done(RecordEvent(route, u, q).value.log, step)
  {
    var e := Row(route, q);
    assert RecordEvent(route, u, q).value.log == u.log + [e];
    UnfinishedStaysUnfinished(u.log, e, step);
  }

  lemma StepLeavesTwiceGatedUnfinished(route: seq<RouteStep>, u: Record, op: Op, step: nat)
    requires step < |route| && Gated(route[step]) && GatesAt(u.gates, step) > 1 && !Done(u.log, step)
    ensures !Done(Step(route, u, op).log, step)
  {
    if WritesNoRow(op) {
      OtherOperationsKeepRows(route, u, op);
    } else if Attempt(route, u, op).Ok? {
      if op.Station? {
        RecordLeavesTwiceGatedUnfinished(route, u, op.request, step);
      } else {
        var r := u.reworks[op.rework];
        var e := Event(r.station, r.step, EventType.ReworkIn, op.action.at, Reinspection, Manual, "");
        UnfinishedStaysUnfinished(u.log, e, step);
      }
    }
  }

  /**
   A gated step that holds both its own gate and a reinspection's can never be completed again, by any
   run at any times: the lookup of its gate finds two rows and the completion is rolled back.
   */
  lemma {:induction false} TwiceGatedStepNeverCompletes(route: seq<RouteStep>, u: Record, ops: seq<Op>, step: nat)
    requires step < |route| && Gated(route[step]) && GatesAt(u.gates, step) > 1 && !Done(u.log, step)
    ensures !Done(Run(route, u, ops).log, step)
    decreases |ops|
  {
    if ops != [] {
      StepKeepsTwoGates(route, u, ops[0], step);
      StepLeavesTwiceGatedUnfinished(route, u, ops[0], step);
      TwiceGatedStepNeverCompletes(route, Step(route, u, ops[0]), ops[1..], step);
    }
  }
}
