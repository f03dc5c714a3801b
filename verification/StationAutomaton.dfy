/** The work done at each station is a path of the action automaton, re-entered only by a reinspection. */
module StationAutomaton {
  import opened Wrappers
  import opened Execution
  import opened EventLog
  import opened HoldSafety
  import opened RouteOrder
  import opened Outcomes

  /** One turn of the automaton, or the re-entry that a reinspection writes on a station already worked. */
  predicate Follows(previous: Option<Event>, e: Event) {
    && (previous.Some? ==> previous.value.at <= e.at)
    && match e.origin
       case Recorder => MayFollow(TypeOf(previous), e.etype)
       case Reinspection => previous.Some? && e.etype.ReworkIn?
  }

  function Last(history: seq<Event>): Option<Event> {
    if history == [] then None else Some(history[|history| - 1])
  }

  predicate Lawful(history: seq<Event>) {
    history != [] ==>
      var earlier := history[..|history| - 1];
      Lawful(earlier) && Follows(Last(earlier), history[|history| - 1])
  }

  function Completions(history: seq<Event>): nat {
    if history == [] then 0
    else Completions(history[..|history| - 1]) + if history[|history| - 1].etype.Completed? then 1 else 0
  }

  function Reinspections(history: seq<Event>): nat {
    if history == [] then 0
    else Reinspections(history[..|history| - 1]) + if history[|history| - 1].origin.Reinspection? then 1 else 0
  }

  lemma LawfulAppend(history: seq<Event>, e: Event)
    ensures Lawful(history + [e]) <==> Lawful(history) && Follows(Last(history), e)
  {
    assert (history + [e])[..|history|] == history;
  }

  lemma {:induction false} LawfulLatestIsLast(history: seq<Event>)
    requires Lawful(history)
    ensures Latest(history) == Last(history)
  {
    if history != [] {
      LawfulLatestIsLast(history[..|history| - 1]);
    }
  }

  /** After a completion only a reinspection reopens the station, so each further completion was paid for by one. */
  lemma {:induction false} CompletionsArePaidFor(history: seq<Event>)
    requires Lawful(history)
    ensures Completions(history) <= Reinspections(history)
            + if history != [] && history[|history| - 1].etype.Completed? then 1 else 0
  {
    if history != [] {
      CompletionsArePaidFor(history[..|history| - 1]);
    }
  }

  ghost predicate EveryHistoryLawful(log: seq<Event>) {
    forall step: nat :: Lawful(History(log, step))
  }

  lemma RowKeepsLawful(log: seq<Event>, e: Event)
    requires EveryHistoryLawful(log) && InOrder(log, e.step, e.at)
    requires e.origin.Recorder? ==> MayFollow(TypeOf(LatestAt(log, e.step)), e.etype)
    requires e.origin.Reinspection? ==> e.etype.ReworkIn? && Touched(log, e.step)
    ensures EveryHistoryLawful(log + [e])
  {
    forall step: nat
      ensures Lawful(History(log + [e], step))
    {
      HistoryAppend(log, e, step);
      if step == e.step {
        var h := History(log, step);
        LawfulAppend(h, e);
        LawfulLatestIsLast(h);
        assert Last(h).Some? ==> h[|h| - 1] in h;
      }
    }
  }

  ghost predicate Regular(route: seq<RouteStep>, u: Record) {
    OnRoute(route, u.log) && ReworksWhereTouched(route, u) && EveryHistoryLawful(u.log)
  }

  lemma ReinspectionKeepsRegular(route: seq<RouteStep>, u: Record, rework: nat, at: int)
    requires Regular(route, u) && rework < |u.reworks| && InOrder(u.log, u.reworks[rework].step, at)
    ensures Regular(route, SendForReinspection(u, rework, at))
  {
    var next := SendForReinspection(u, rework, at);
    var e := next.log[|u.log|];
    RowInOrder(u.log, e);
    RowKeepsLawful(u.log, e);
    assert forall i | 0 <= i < |u.log| :: next.log[i] == u.log[i];
  }

  lemma RecordKeepsRegular(route: seq<RouteStep>, u: Record, q: Request)
    requires Regular(route, u) && OnTime(route, u, Station(q)) && RecordEvent(route, u, q).Ok?
    ensures Regular(route, RecordEvent(route, u, q).value)
  {
    AcceptedRequestWrites(route, u, q);
    var e, next := Row(route, q), RecordEvent(route, u, q).value;
    RowKeepsReworks(route, u, e, next);
    ActionsAreTheTurns(TypeOf(LatestAt(u.log, e.step)), e.etype);
    RowKeepsLawful(u.log, e);
    assert forall i | 0 <= i < |u.log| :: next.log[i] == u.log[i];
  }

  lemma StepKeepsRegular(route: seq<RouteStep>, u: Record, op: Op)
    requires Regular(route, u) && OnTime(route, u, op)
    ensures Regular(route, Step(route, u, op))
  {
    if WritesNoRow(op) {
      OtherOperationsKeepRows(route, u, op);
    } else if Attempt(route, u, op).Ok? {
      if op.Station? {
        RecordKeepsRegular(route, u, op.request);
      } else {
        ReinspectionKeepsRegular(route, u, op.rework, op.action.at);
      }
    }
  }

  lemma {:induction false} RunKeepsRegular(route: seq<RouteStep>, u: Record, ops: seq<Op>)
    requires Regular(route, u) && OnTimeRun(route, u, ops)
    ensures Regular(route, Run(route, u, ops))
    decreases |ops|
  {
    if ops != [] {
      StepKeepsRegular(route, u, ops[0]);
      RunKeepsRegular(route, Step(route, u, ops[0]), ops[1..]);
    }
  }

  /** Over every run on time: each station's history is lawful, and is completed at most once more than it was sent back. */
  lemma StationHistoriesAreLawful(route: seq<RouteStep>, ops: seq<Op>, station: nat)
    requires OnTimeRun(route, FRESH, ops)
    ensures var history := StationHistory(Run(route, FRESH, ops).log, station);
            Lawful(history) && Completions(history) <= 1 + Reinspections(history)
  {
    var log := Run(route, FRESH, ops).log;
    RunKeepsRegular(route, FRESH, ops);
    var step := StepFor(route, station);
    if step.Some? {
      StationAndStepHistoriesAgree(route, log, station, step.value);
      CompletionsArePaidFor(History(log, step.value));
    } else {
      UnroutedStationIsEmpty(route, log, station);
    }
  }

  lemma {:induction false} UnroutedStationIsEmpty(route: seq<RouteStep>, log: seq<Event>, station: nat)
    requires OnRoute(route, log) && StepFor(route, station).None?
    ensures StationHistory(log, station) == []
  {
    if log != [] {
      var init := log[..|log| - 1];
      assert forall i | 0 <= i < |init| :: init[i] == log[i];
      UnroutedStationIsEmpty(route, init, station);
    }
  }
}
