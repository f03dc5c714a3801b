/** A gated route can deadlock: a rework of a gated step, sent to reinspection, closes the step for good. */
module GatedDeadlock {
  import opened Wrappers
  import opened Execution
  import opened EventLog
  import opened HoldSafety
  import opened HoldLimits
  import opened Progress

  /** An event comes from a terminal, without a reference. */
  predicate Plain(op: Op) {
    op.Station? ==> op.request.source == Api && op.request.reference == ""
  }

  ghost predicate Reaches(ops: seq<Op>, u: Record) {
    && AdmissibleRun(ONE_GATED_STEP, FRESH, ops) && Run(ONE_GATED_STEP, FRESH, ops) == u
    && forall i | 0 <= i < |ops| :: Plain(ops[i])
  }

  lemma {:induction false} RunAppend(route: seq<RouteStep>, u: Record, ops: seq<Op>, op: Op)
    ensures Run(route, u, ops + [op]) == Step(route, Run(route, u, ops), op)
    ensures AdmissibleRun(route, u, ops + [op])
            <==> AdmissibleRun(route, u, ops) && Admissible(route, Run(route, u, ops), op)
    decreases |ops|
  {
    if ops == [] {
      assert [op][1..] == [];
    } else {
      assert (ops + [op])[1..] == ops[1..] + [op];
      RunAppend(route, Step(route, u, ops[0]), ops[1..], op);
    }
  }

  /** The history of a defect found while working, repaired, and then both gated and reinspected. */
  const AT_1 := Record(InProcess, [Asked(EventType.Started, 1)], [], [])
  const AT_2 := Record(UnitStatus.Rework, AT_1.log + [Asked(EventType.ReworkOut, 2)], [],
                       [ReworkOrder(7, 0, "d", Open, None)])
  const AT_3 := Record(InProcess, AT_2.log + [Asked(EventType.ReworkIn, 3)], [], AT_2.reworks)
  const AT_4 := Record(InProcess, AT_3.log + [Asked(EventType.Started, 4)], [], AT_2.reworks)
  const AT_5 := Record(QualityHold, AT_4.log + [Asked(EventType.Completed, 5)], [Gate(0, Pending, true)], AT_2.reworks)
  const AT_6 := Record(QualityHold, AT_5.log + [Event(7, 0, EventType.ReworkIn, 6, Reinspection, Manual, "")],
                      AT_5.gates + [Gate(0, Pending, true)], [ReworkOrder(7, 0, "d", QaReview, Some(1))])

  /** Both gates are then passed and the step is started again. */
  const AT_7 := Record(QualityHold, AT_6.log, [Gate(0, Pending, true), Gate(0, Passed, true)],
                      [ReworkOrder(7, 0, "d", Closed, Some(1))])
  const AT_8 := Record(UnitStatus.Completed, AT_6.log, [Gate(0, Passed, true), Gate(0, Passed, true)], AT_7.reworks)
  const AT_9 := Record(InProcess, AT_8.log + [Asked(EventType.Started, 9)], AT_8.gates, AT_8.reworks)

  ghost predicate OnlyStep(u: Record, latest: EventType, at: int) {
    && (forall i | 0 <= i < |u.log| :: u.log[i].step == 0 && u.log[i].station == 7 && u.log[i].at <= at)
    && TypeOf(Latest(u.log)) == Some(latest)
  }

  lemma OnlyStepGrows(log: seq<Event>, e: Event, latest: EventType, at: int, u: Record, next: Record)
    requires u.log == log && next.log == log + [e] && OnlyStep(u, latest, at)
    requires e.step == 0 && e.station == 7 && at <= e.at
    ensures OnlyStep(next, e.etype, e.at)
  {
    var i := LatestIsFirstByTimeAndKey(log);
    LatestAppend(log, e);
  }

  lemma AskedReaches(ops: seq<Op>, u: Record, latest: EventType, before: int, etype: EventType, at: int, next: Record)
    requires Reaches(ops, u) && OnlyStep(u, latest, before) && before <= at
    requires etype in AvailableActions(Some(latest)) && (ReworkMove(etype) || (!OnHold(u) && !u.status.Released?))
    requires ApplyEffects(ONE_GATED_STEP, u.(log := u.log + [Asked(etype, at)]), 0, etype, "d") == Ok(next)
    requires next.log == u.log + [Asked(etype, at)]
    ensures Reaches(ops + [Ask(etype, at)], next) && OnlyStep(next, etype, at)
  {
    SingleStepHistories(u.log);
    SingleStepAccepts(u, etype, at);
    RunAppend(ONE_GATED_STEP, FRESH, ops, Ask(etype, at));
    OnlyStepGrows(u.log, Asked(etype, at), latest, before, u, next);
  }

  lemma StartReaches() returns (ops: seq<Op>)
    ensures Reaches(ops, AT_1) && OnlyStep(AT_1, EventType.Started, 1)
  {
    ops := [] + [Ask(EventType.Started, 1)];
    SingleStepAccepts(FRESH, EventType.Started, 1);
    RunAppend(ONE_GATED_STEP, FRESH, [], Ask(EventType.Started, 1));
    LatestAppend([], Asked(EventType.Started, 1));
  }

  lemma CompletionReaches() returns (ops: seq<Op>)
    ensures Reaches(ops, AT_5) && OnlyStep(AT_5, EventType.Completed, 5)
  {
    ops := StartReaches();
    assert AT_1.reworks + [ReworkOrder(7, 0, "d", Open, None)] == AT_2.reworks;
    assert AT_4.gates + [Gate(0, Pending, true)] == AT_5.gates;
    AskedReaches(ops, AT_1, EventType.Started, 1, EventType.ReworkOut, 2, AT_2);
    ops := ops + [Ask(EventType.ReworkOut, 2)];
    AskedReaches(ops, AT_2, EventType.ReworkOut, 2, EventType.ReworkIn, 3, AT_3);
    ops := ops + [Ask(EventType.ReworkIn, 3)];
    AskedReaches(ops, AT_3, EventType.ReworkIn, 3, EventType.Started, 4, AT_4);
    ops := ops + [Ask(EventType.Started, 4)];
    AskedReaches(ops, AT_4, EventType.Started, 4, EventType.Completed, 5, AT_5);
    ops := ops + [Ask(EventType.Completed, 5)];
  }

  lemma ReinspectionReaches() returns (ops: seq<Op>)
    ensures Reaches(ops, AT_6) && !Done(AT_6.log, 0) && GatesAt(AT_6.gates, 0) == 2
    ensures OnlyStep(AT_6, EventType.ReworkIn, 6)
  {
    ops := CompletionReaches();
    var send := Manage(0, SendToReview(6));
    SingleStepHistories(AT_5.log);
    RunAppend(ONE_GATED_STEP, FRESH, ops, send);
    ops := ops + [send];
    assert AT_6.reworks == AT_5.reworks[0 := ReworkOrder(7, 0, "d", QaReview, Some(1))];
    OnlyStepGrows(AT_5.log, AT_6.log[5], EventType.Completed, 5, AT_5, AT_6);
    SingleStepHistories(AT_6.log);
    GatesAtAppend(AT_5.gates, Gate(0, Pending, true), 0);
    GatesAtAppend([], Gate(0, Pending, true), 0);
  }

  /** An admissible run leads a unit where no run whatever, reviews and reworks included, completes its step. */
  lemma GatedRouteCanDeadlock()
    ensures exists ops :: AdmissibleRun(ONE_GATED_STEP, FRESH, ops)
                       && forall more :: !Done(Run(ONE_GATED_STEP, Run(ONE_GATED_STEP, FRESH, ops), more).log, 0)
  {
    var ops := ReinspectionReaches();
    forall more
      ensures !Done(Run(ONE_GATED_STEP, AT_6, more).log, 0)
    {
      TwiceGatedStepNeverCompletes(ONE_GATED_STEP, AT_6, more, 0);
    }
  }

  lemma ReviewsReach() returns (ops: seq<Op>)
    ensures Reaches(ops, AT_8) && OnlyStep(AT_8, EventType.ReworkIn, 6)
  {
    ops := ReinspectionReaches();
    assert Blocks(AT_7.gates[0]);
    assert AT_6.gates[1 := Gate(0, Passed, true)] == AT_7.gates;
    var reworks := SyncReworks(AT_6.reworks, 1, Passed);
    assert reworks == AT_7.reworks;
    RunAppend(ONE_GATED_STEP, FRESH, ops, Review(1, Passed, true, true));
    ops := ops + [Review(1, Passed, true, true)];
    assert AT_7.gates[0 := Gate(0, Passed, true)] == AT_8.gates;
    assert SyncReworks(AT_7.reworks, 0, Passed) == AT_8.reworks;
    RunAppend(ONE_GATED_STEP, FRESH, ops, Review(0, Passed, true, true));
    ops := ops + [Review(0, Passed, true, true)];
  }

  lemma RestartReaches() returns (ops: seq<Op>)
    ensures Reaches(ops, AT_9) && OnlyStep(AT_9, EventType.Started, 9)
  {
    ops := ReviewsReach();
    AskedReaches(ops, AT_8, EventType.ReworkIn, 6, EventType.Started, 9, AT_9);
    ops := ops + [Ask(EventType.Started, 9)];
  }

  /** From there a second review loses the hold: the gate fails, the unit is blocked, and REWORK_OUT is recorded. */
  lemma SecondReviewLosesHold()
    ensures exists ops :: AdmissibleRun(ONE_GATED_STEP, FRESH, ops) && Run(ONE_GATED_STEP, FRESH, ops) == AT_9
    ensures var next := Step(ONE_GATED_STEP, AT_9, Review(0, GateStatus.Failed, true, true));
            Blocked(next.gates) && OnHold(next) && exists q: Request :: RecordEvent(ONE_GATED_STEP, next, q).Ok?
  {
    var ops := RestartReaches();
    RunKeepsSound(ONE_GATED_STEP, FRESH, ops);
    SingleStepHistories(AT_9.log);
    FirstPendingIsUnique(1, AT_9.log, 0);
    RereviewUnholds(ONE_GATED_STEP, AT_9, Step(ONE_GATED_STEP, AT_9, Review(0, GateStatus.Failed, true, true)));
  }

  lemma RereviewUnholds(route: seq<RouteStep>, u: Record, next: Record)
    requires Sound(route, u) && u.gates != [] && Resolved(u.gates[0].status)
    requires CurrentStep(route, u.log) < |route|
    requires TypeOf(LatestAt(u.log, CurrentStep(route, u.log))) == Some(EventType.Started)
    requires next == Step(route, u, Review(0, GateStatus.Failed, true, true))
    ensures Blocked(next.gates) && exists q: Request :: RecordEvent(route, next, q).Ok?
  {
    RereviewKeepsHoldExactlyWhenQuiet(route, u, 0);
    assert EventType.ReworkOut in AvailableActions(TypeOf(LatestAt(u.log, CurrentStep(route, u.log))));
    var q: Request :| !RecordEvent(route, next, q).Err?;
    assert RecordEvent(route, next, q).Ok?;
  }
}
