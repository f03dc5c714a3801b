/**
 Where the hold ends: exactly when a back-dated completion, a back-dated reinspection or a second review of a
 resolved gate leaves a blocked unit open to a station event, and exactly when RELEASED is final.
 */
module HoldLimits {
  import opened Wrappers
  import opened Execution
  import opened EventLog
  import opened HoldSafety

  /** No rework move is on offer at the current step. */
  predicate Quiet(route: seq<RouteStep>, log: seq<Event>) {
    var c := CurrentStep(route, log);
    c < |route| ==>
      forall move | move in AvailableActions(TypeOf(LatestAt(log, c))) :: !ReworkMove(move)
  }

  ghost predicate RefusesEveryEvent(route: seq<RouteStep>, u: Record) {
    forall q: Request :: RecordEvent(route, u, q).Err?
  }

  /** A defect code no rework of the unit carries yet. */
  lemma {:induction false} UnusedCode(reworks: seq<ReworkOrder>, step: nat) returns (code: string)
    ensures ReworksFor(reworks, step, code) == 0
    ensures forall longer: string | |longer| >= |code| :: ReworksFor(reworks, step, longer) == 0
  {
    if reworks == [] {
      code := "";
    } else {
      var last := reworks[|reworks| - 1];
      code := UnusedCode(reworks[..|reworks| - 1], step);
      if |code| <= |last.code| {
        code := last.code + "x";
      }
    }
  }

  /** A held or released unit refuses every event exactly when its current step offers no rework move. */
  lemma HeldUnitRefusesExactlyWhenQuiet(route: seq<RouteStep>, u: Record)
    requires OnRoute(route, u.log)
    requires OnHold(u) || u.status.Released?
    ensures RefusesEveryEvent(route, u) <==> Quiet(route, u.log)
  {
    var c := CurrentStep(route, u.log);
    if Quiet(route, u.log) {
      forall q: Request
        ensures RecordEvent(route, u, q).Err?
      {
        if RecordEvent(route, u, q).Ok? { AcceptedRequestWrites(route, u, q); }
      }
    } else {
      var move :| move in AvailableActions(TypeOf(LatestAt(u.log, c))) && ReworkMove(move);
      var q := ReworkMoveIsAccepted(route, u, move);
    }
  }

  /** A rework move on offer at the current step is recorded from the step's station, whatever the unit's status. */
  lemma ReworkMoveIsAccepted(route: seq<RouteStep>, u: Record, move: EventType) returns (q: Request)
    requires OnRoute(route, u.log) && CurrentStep(route, u.log) < |route|
    requires ReworkMove(move) && move in AvailableActions(TypeOf(LatestAt(u.log, CurrentStep(route, u.log))))
    ensures RecordEvent(route, u, q).Ok?
  {
    var c := CurrentStep(route, u.log);
    var latest := LatestAt(u.log, c).value;
    LatestIn(History(u.log, c));
    HistoryMembers(u.log, c, latest);
    var i :| 0 <= i < |u.log| && u.log[i] == latest;
    assert StepFor(route, latest.station) == Some(c);
    StationAndStepHistoriesAgree(route, u.log, latest.station, c);
    var code := UnusedCode(u.reworks, c);
    q := Request(latest.station, move, 0, code, true, Api, "");
  }

  // ----- Back-dated completions -----

  /** The request completes a gated step that has no gate yet. */
  predicate OpensFirstGate(route: seq<RouteStep>, u: Record, q: Request) {
    var c := CurrentStep(route, u.log);
    c < |route| && q.etype.Completed? && Gated(route[c]) && GatesAt(u.gates, c) == 0
  }

  /**
   At whatever time an accepted event claims to have happened, the hold survives unless it back-dates a
   gate's first completion.
   */
  lemma HoldSurvivesExactlyWhenInOrder(route: seq<RouteStep>, u: Record, q: Request)
    requires Sound(route, u)
    requires RecordEvent(route, u, q).Ok?
    ensures CurrentStep(route, u.log) < |route|
    ensures var next := RecordEvent(route, u, q).value;
            var latest := LatestAt(u.log, CurrentStep(route, u.log));
            (Blocked(next.gates) ==> RefusesEveryEvent(route, next))
            <==> (OpensFirstGate(route, u, q) ==> latest.Some? && latest.value.at <= q.at)
  {
    AcceptedRequestWrites(route, u, q);
    var e, next := Row(route, q), RecordEvent(route, u, q).value;
    var c := CurrentStep(route, u.log);
    assert !Blocked(u.gates) by {
      if Blocked(u.gates) { BlockedUnitRefusesEveryEvent(route, u, q); }
    }
    LogStaysSound(route, u.log, e);
    if OpensFirstGate(route, u, q) {
      BlockedAppend(u.gates, Gate(c, Pending, true));
      HistoryAppend(u.log, e, c);
      LatestAppend(History(u.log, c), e);
      HeldUnitRefusesExactlyWhenQuiet(route, next);
      if LatestAt(u.log, c).value.at <= e.at {
        CompletionInOrderIsQuiet(route, u, e);
      } else {
        LateRowChangesNothing(route, u.log, e);
      }
    }
  }

  lemma CompletionInOrderIsQuiet(route: seq<RouteStep>, u: Record, e: Event)
    requires Sound(route, u)
    requires e.step == CurrentStep(route, u.log) < |route| && Gated(route[e.step]) && GatesAt(u.gates, e.step) == 0
    requires e.etype.Completed? && LatestAt(u.log, e.step).Some? && LatestAt(u.log, e.step).value.at <= e.at
    ensures Quiet(route, u.log + [e])
  {
    var latest := LatestIsFirstByTimeAndKey(History(u.log, e.step));
    assert InOrder(u.log, e.step, e.at);
    CurrentAfterRow(route, u.log, e);
    RowInOrder(u.log, e);
    var c := CurrentStep(route, u.log + [e]);
    assert !CompletedOnce(u.log, e.step);
    assert c < |route| ==> !Touched(u.log, c);
  }

  lemma {:induction false} SingleStepHistories(log: seq<Event>)
    requires forall i | 0 <= i < |log| :: log[i].step == 0 && log[i].station == 7
    ensures History(log, 0) == log == StationHistory(log, 7)
  {
    if log != [] {
      SingleStepHistories(log[..|log| - 1]);
      assert log == log[..|log| - 1] + [log[|log| - 1]];
    }
  }

  const ONE_GATED_STEP := [RouteStep(7, false, true)]

  function Ask(etype: EventType, at: int): Op {
    Station(Request(7, etype, at, "d", true, Api, ""))
  }

  function Asked(etype: EventType, at: int): Event {
    Event(7, 0, etype, at, Recorder, Api, "")
  }

  lemma SingleStepAccepts(u: Record, etype: EventType, at: int)
    requires forall i | 0 <= i < |u.log| :: u.log[i].step == 0 && u.log[i].station == 7
    requires etype in AvailableActions(TypeOf(Latest(u.log)))
    requires ReworkMove(etype) || (!OnHold(u) && !u.status.Released?)
    ensures var effect := ApplyEffects(ONE_GATED_STEP, u.(log := u.log + [Asked(etype, at)]), 0, etype, "d");
            effect.Ok? ==> Step(ONE_GATED_STEP, u, Ask(etype, at)) == effect.value
  {
    SingleStepHistories(u.log);
    FirstPendingIsUnique(1, u.log, 0);
    OfferedIsRecorded(ONE_GATED_STEP, u, Ask(etype, at).request, 0);
  }

  const LATE_COMPLETION :=
    Record(QualityHold, [Asked(EventType.Started, 10), Asked(EventType.Completed, 5)], [Gate(0, Pending, true)], [])

  lemma BackdatedCompletionIsHeld()
    ensures Step(ONE_GATED_STEP, Step(ONE_GATED_STEP, FRESH, Ask(EventType.Started, 10)), Ask(EventType.Completed, 5))
            == LATE_COMPLETION
    ensures Blocked(LATE_COMPLETION.gates) && OnHold(LATE_COMPLETION)
  {
    assert Blocks(LATE_COMPLETION.gates[0]);
    StartedIsAtWork(10);
    AtWorkCompleted();
  }

  function AtWork(at: int): Record {
    Record(InProcess, [Asked(EventType.Started, at)], [], [])
  }

  lemma StartedIsAtWork(at: int)
    ensures Step(ONE_GATED_STEP, FRESH, Ask(EventType.Started, at)) == AtWork(at)
    ensures TypeOf(Latest(AtWork(at).log)) == Some(EventType.Started)
  {
    SingleStepAccepts(FRESH, EventType.Started, at);
    LatestAppend([], Asked(EventType.Started, at));
  }

  lemma AtWorkCompleted()
    ensures Step(ONE_GATED_STEP, AtWork(10), Ask(EventType.Completed, 5)) == LATE_COMPLETION
  {
    StartedIsAtWork(10);
    assert AtWork(10).log + [Asked(EventType.Completed, 5)] == LATE_COMPLETION.log;
    assert AtWork(10).gates + [Gate(0, Pending, true)] == LATE_COMPLETION.gates;
    SingleStepAccepts(AtWork(10), EventType.Completed, 5);
  }

  const SENT_TO_REWORK :=
    Record(UnitStatus.Rework, LATE_COMPLETION.log + [Asked(EventType.ReworkOut, 11)], LATE_COMPLETION.gates,
           [ReworkOrder(7, 0, "d", Open, None)])

  lemma LateCompletionIsNotTheLatest()
    ensures Latest(LATE_COMPLETION.log) == Some(Asked(EventType.Started, 10))
  {
    var l1 := [Asked(EventType.Started, 10)];
    assert LATE_COMPLETION.log == l1 + [Asked(EventType.Completed, 5)];
    LatestAppend([], l1[0]);
    LatestAppend(l1, Asked(EventType.Completed, 5));
  }

  /** A back-dated completion really loses the hold: the blocked unit leaves for rework ... */
  lemma BackdatedCompletionLetsReworkOut()
    ensures Step(ONE_GATED_STEP, LATE_COMPLETION, Ask(EventType.ReworkOut, 11)) == SENT_TO_REWORK
  {
    LateCompletionIsNotTheLatest();
    assert ReworksFor(LATE_COMPLETION.reworks, 0, "d") == 0;
    SingleStepAccepts(LATE_COMPLETION, EventType.ReworkOut, 11);
  }

  /** ... and returns to process, its gate still pending. */
  lemma BackdatedCompletionLosesHold()
    ensures var back := Step(ONE_GATED_STEP, SENT_TO_REWORK, Ask(EventType.ReworkIn, 12));
            Blocked(back.gates) && back.status.InProcess?
  {
    assert Blocks(SENT_TO_REWORK.gates[0]);
    LateCompletionIsNotTheLatest();
    LatestAppend(LATE_COMPLETION.log, Asked(EventType.ReworkOut, 11));
    SingleStepAccepts(SENT_TO_REWORK, EventType.ReworkIn, 12);
  }

  // ----- Back-dated reinspections -----

  /** A rework sent to reinspection keeps its unit held exactly when its row is not back-dated or no move is on offer. */
  lemma ReinspectionKeepsHoldExactlyWhenInOrder(route: seq<RouteStep>, u: Record, rework: nat, at: int)
    requires Sound(route, u) && rework < |u.reworks| && Active(u.reworks[rework])
    ensures var next, latest := SendForReinspection(u, rework, at), LatestAt(u.log, u.reworks[rework].step);
            && (u.reworks[rework].gate.None? ==> Blocked(next.gates)) && OnHold(next) && latest.Some?
            && (RefusesEveryEvent(route, next) <==> latest.value.at <= at || Quiet(route, u.log))
  {
    var next := SendForReinspection(u, rework, at);
    var e, s := next.log[|u.log|], u.reworks[rework].step;
    if u.reworks[rework].gate.None? { BlockedAppend(u.gates, Gate(s, Pending, true)); }
    LogStaysSound(route, u.log, e);
    HeldUnitRefusesExactlyWhenQuiet(route, next);
    assert Touched(u.log, s);
    if LatestAt(u.log, s).value.at <= at {
      ReinspectionInOrderIsQuiet(route, u, rework, e);
    } else {
      LateRowChangesNothing(route, u.log, e);
    }
  }

  lemma ReinspectionInOrderIsQuiet(route: seq<RouteStep>, u: Record, rework: nat, e: Event)
    requires Sound(route, u) && rework < |u.reworks| && Active(u.reworks[rework]) && e.step == u.reworks[rework].step
    requires e.etype.ReworkIn? && LatestAt(u.log, e.step).Some? && LatestAt(u.log, e.step).value.at <= e.at
    ensures Quiet(route, u.log + [e])
  {
    var latest := LatestIsFirstByTimeAndKey(History(u.log, e.step));
    assert InOrder(u.log, e.step, e.at);
    RowInOrder(u.log, e);
    var c := CurrentStep(route, u.log);
    var now := if e.step < c then e.step else c;
    assert !Done(u.log + [e], now) && forall j: nat | j < now :: Done(u.log, j) && Done(u.log + [e], j);
    FirstPendingIsUnique(|route|, u.log + [e], now);
    ReturnedIsQuiet(route, u.log + [e]);
  }

  lemma ReturnedIsQuiet(route: seq<RouteStep>, log: seq<Event>)
    requires TypeOf(LatestAt(log, CurrentStep(route, log))) == Some(EventType.ReworkIn)
    ensures Quiet(route, log)
  {}

  lemma LateRowChangesNothing(route: seq<RouteStep>, log: seq<Event>, e: Event)
    requires LatestAt(log, e.step).Some? && e.at < LatestAt(log, e.step).value.at
    ensures CurrentStep(route, log + [e]) == CurrentStep(route, log)
    ensures forall j: nat :: LatestAt(log + [e], j) == LatestAt(log, j)
  {
    forall j: nat
      ensures LatestAt(log + [e], j) == LatestAt(log, j)
    {
      HistoryAppend(log, e, j);
      LatestAppend(History(log, j), e);
    }
    assert forall j: nat :: Done(log + [e], j) == Done(log, j);
    FirstPendingIsUnique(|route|, log + [e], CurrentStep(route, log));
  }

  const AHEAD_OF_TIME :=
    Record(UnitStatus.Rework, [Asked(EventType.Started, 1), Asked(EventType.ReworkOut, 10)], [],
           [ReworkOrder(7, 0, "d", Open, None)])

  lemma AtWorkSentOut()
    ensures Step(ONE_GATED_STEP, AtWork(1), Ask(EventType.ReworkOut, 10)) == AHEAD_OF_TIME
  {
    StartedIsAtWork(1);
    assert ReworksFor(AtWork(1).reworks, 0, "d") == 0;
    SingleStepAccepts(AtWork(1), EventType.ReworkOut, 10);
  }

  lemma ReworkOutAheadOfTime()
    ensures Step(ONE_GATED_STEP, Step(ONE_GATED_STEP, FRESH, Ask(EventType.Started, 1)), Ask(EventType.ReworkOut, 10))
            == AHEAD_OF_TIME
  {
    StartedIsAtWork(1);
    AtWorkSentOut();
  }

  const REINSPECTED_BEFORE :=
    Record(QualityHold, AHEAD_OF_TIME.log + [Event(7, 0, EventType.ReworkIn, 5, Reinspection, Manual, "")],
           [Gate(0, Pending, true)], [ReworkOrder(7, 0, "d", QaReview, Some(0))])

  /** A rework whose REWORK_OUT claims a time to come is sent to reinspection before that time: the unit is held ... */
  lemma ReinspectionBeforeReworkOut()
    ensures Step(ONE_GATED_STEP, AHEAD_OF_TIME, Manage(0, SendToReview(5))) == REINSPECTED_BEFORE
    ensures Blocked(REINSPECTED_BEFORE.gates) && OnHold(REINSPECTED_BEFORE)
  {
    assert Blocks(REINSPECTED_BEFORE.gates[0]);
    assert REINSPECTED_BEFORE.reworks == AHEAD_OF_TIME.reworks[0 := ReworkOrder(7, 0, "d", QaReview, Some(0))];
  }

  lemma ReworkOutIsStillTheLatest()
    ensures Latest(REINSPECTED_BEFORE.log) == Some(Asked(EventType.ReworkOut, 10))
  {
    var first := [Asked(EventType.Started, 1)];
    assert AHEAD_OF_TIME.log == first + [Asked(EventType.ReworkOut, 10)];
    LatestAppend([], first[0]);
    LatestAppend(first, Asked(EventType.ReworkOut, 10));
    LatestAppend(AHEAD_OF_TIME.log, Event(7, 0, EventType.ReworkIn, 5, Reinspection, Manual, ""));
  }

  /** ... but REWORK_OUT is still its latest event, so it returns to process with its gate pending. */
  lemma BackdatedReinspectionLosesHold()
    ensures var back := Step(ONE_GATED_STEP, REINSPECTED_BEFORE, Ask(EventType.ReworkIn, 12));
            Blocked(back.gates) && back.status.InProcess?
  {
    assert Blocks(REINSPECTED_BEFORE.gates[0]);
    ReworkOutIsStillTheLatest();
    SingleStepAccepts(REINSPECTED_BEFORE, EventType.ReworkIn, 12);
  }

  // ----- Second reviews -----

  /** Failing a gate that was already resolved keeps the hold exactly when no rework move is on offer. */
  lemma RereviewKeepsHoldExactlyWhenQuiet(route: seq<RouteStep>, u: Record, gate: nat)
    requires Sound(route, u) && gate < |u.gates| && Resolved(u.gates[gate].status)
    ensures ReviewGate(route, u, gate, GateStatus.Failed, true, true).Ok?
    ensures var next := ReviewGate(route, u, gate, GateStatus.Failed, true, true).value;
            Blocked(next.gates) && (RefusesEveryEvent(route, next) <==> Quiet(route, u.log))
  {
    var next := ReviewGate(route, u, gate, GateStatus.Failed, true, true).value;
    assert Blocks(next.gates[gate]);
    HeldUnitRefusesExactlyWhenQuiet(route, next);
  }

  // ----- RELEASED -----

  ghost predicate Sealed(route: seq<RouteStep>, u: Record) {
    u.status.Released? && !HasOpenRework(u.reworks) && OnRoute(route, u.log) && Quiet(route, u.log)
  }

  lemma SealedStepStaysSealed(route: seq<RouteStep>, u: Record, op: Op)
    requires Sealed(route, u)
    ensures Sealed(route, Step(route, u, op))
  {
    if op.Station? {
      HeldUnitRefusesExactlyWhenQuiet(route, u);
    }
  }

  lemma {:induction false} SealedRunStaysSealed(route: seq<RouteStep>, u: Record, ops: seq<Op>)
    requires Sealed(route, u)
    ensures Sealed(route, Run(route, u, ops))
    decreases |ops|
  {
    if ops != [] {
      SealedStepStaysSealed(route, u, ops[0]);
      SealedRunStaysSealed(route, Step(route, u, ops[0]), ops[1..]);
    }
  }

  /** A released unit stays released over every run, at any times and reviews, exactly when no rework move is on offer. */
  lemma ReleasedIsFinalExactlyWhenQuiet(route: seq<RouteStep>, u: Record)
    requires Sound(route, u) && u.status.Released?
    ensures Quiet(route, u.log) <==> forall ops :: Run(route, u, ops).status.Released?
  {
    if Quiet(route, u.log) {
      forall ops
        ensures Run(route, u, ops).status.Released?
      {
        SealedRunStaysSealed(route, u, ops);
      }
    } else {
      HeldUnitRefusesExactlyWhenQuiet(route, u);
      var q: Request :| RecordEvent(route, u, q).Ok?;
      AcceptedRequestWrites(route, u, q);
      OneOpRun(route, u, Station(q));
      assert !Run(route, u, [Station(q)]).status.Released?;
    }
  }

  lemma OneOpRun(route: seq<RouteStep>, u: Record, op: Op)
    ensures Run(route, u, [op]) == Step(route, u, op)
  {
    assert [op][1..] == [];
  }

  /** In particular, release after the whole route is final. */
  lemma ReleaseOfFinishedRouteIsFinal(route: seq<RouteStep>, before: seq<Op>, after: seq<Op>)
    requires AdmissibleRun(route, FRESH, before)
    requires Run(route, FRESH, before).status.Released?
    requires forall i | 0 <= i < |route| :: Done(Run(route, FRESH, before).log, i)
    ensures Run(route, Run(route, FRESH, before), after).status.Released?
  {
    var u := Run(route, FRESH, before);
    RunKeepsSound(route, FRESH, before);
    FirstPendingIsUnique(|route|, u.log, |route|);
    SealedRunStaysSealed(route, u, after);
  }
}
