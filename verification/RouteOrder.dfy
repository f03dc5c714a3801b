/** Units follow their route: what holds of every run whatever times its events claim. */
module RouteOrder {
  import opened Wrappers
  import opened Execution
  import opened EventLog
  import opened HoldSafety

  // ----- Runs of the recording services alone -----

  predicate StationOnly(ops: seq<Op>) {
    forall i | 0 <= i < |ops| :: ops[i].Station?
  }

  /** The finished steps are exactly those before the current one, and no later step has a row. */
  ghost predicate PrefixDone(route: seq<RouteStep>, log: seq<Event>) {
    var c := CurrentStep(route, log);
    && OnRoute(route, log)
    && (forall j | 0 <= j < |route| :: Done(log, j) <==> j < c)
    && (forall j | c < j < |route| :: !Touched(log, j))
  }

  lemma RowKeepsPrefixDone(route: seq<RouteStep>, log: seq<Event>, e: Event)
    requires PrefixDone(route, log)
    requires StepFor(route, e.station) == Some(e.step) && e.step == CurrentStep(route, log)
    ensures PrefixDone(route, log + [e]) && CurrentStep(route, log + [e]) >= CurrentStep(route, log)
  {
    var grown, c := log + [e], e.step;
    assert forall i | 0 <= i < |log| :: grown[i] == log[i];
    forall j | 0 <= j < |route| && j != c
      ensures Done(grown, j) == Done(log, j) && Touched(grown, j) == Touched(log, j)
    {
      HistoryAppend(log, e, j);
    }
    var now := if Done(grown, c) then c + 1 else c;
    assert now < |route| ==> !Done(grown, now);
    FirstPendingIsUnique(|route|, grown, now);
  }

  lemma {:induction false} RecorderFollowsRoute(route: seq<RouteStep>, u: Record, ops: seq<Op>)
    requires StationOnly(ops) && PrefixDone(route, u.log)
    ensures PrefixDone(route, Run(route, u, ops).log)
    ensures CurrentStep(route, Run(route, u, ops).log) >= CurrentStep(route, u.log)
    decreases |ops|
  {
    if ops != [] {
      var q := ops[0].request;
      if RecordEvent(route, u, q).Ok? {
        AcceptedRequestWrites(route, u, q);
        RowKeepsPrefixDone(route, u.log, Row(route, q));
      }
      RecorderFollowsRoute(route, Step(route, u, ops[0]), ops[1..]);
    }
  }

  // ----- Runs of every operation -----

  /** Each recorded row was written on the step current at that moment, each reinspection on a step already worked. */
  ghost predicate WrittenInOrder(route: seq<RouteStep>, log: seq<Event>) {
    forall i | 0 <= i < |log| ::
      if log[i].origin.Recorder? then
        log[i].step == CurrentStep(route, log[..i]) && forall j | 0 <= j < log[i].step :: Done(log[..i], j)
      else Touched(log[..i], log[i].step)
  }

  ghost predicate Anchored(route: seq<RouteStep>, u: Record) {
    OnRoute(route, u.log) && ReworksWhereTouched(route, u) && WrittenInOrder(route, u.log)
  }

  lemma RowKeepsWrittenInOrder(route: seq<RouteStep>, log: seq<Event>, e: Event)
    requires WrittenInOrder(route, log)
    requires if e.origin.Recorder? then e.step == CurrentStep(route, log) else Touched(log, e.step)
    ensures WrittenInOrder(route, log + [e])
  {
    var grown := log + [e];
    forall i | 0 <= i < |grown|
      ensures if grown[i].origin.Recorder?
              then grown[i].step == CurrentStep(route, grown[..i])
                   && forall j | 0 <= j < grown[i].step :: Done(grown[..i], j)
              else Touched(grown[..i], grown[i].step)
    {
      assert grown[..i] == if i < |log| then log[..i] else log;
      assert grown[i] == if i < |log| then log[i] else e;
    }
  }

  lemma ReinspectionKeepsAnchored(route: seq<RouteStep>, u: Record, rework: nat, at: int)
    requires Anchored(route, u) && rework < |u.reworks|
    ensures Anchored(route, SendForReinspection(u, rework, at))
  {
    var next := SendForReinspection(u, rework, at);
    var e := next.log[|u.log|];
    RowKeepsWrittenInOrder(route, u.log, e);
    assert forall i | 0 <= i < |u.log| :: next.log[i] == u.log[i];
    forall r | 0 <= r < |next.reworks|
      ensures StepFor(route, next.reworks[r].station) == Some(next.reworks[r].step)
      ensures Touched(next.log, next.reworks[r].step)
    {
      assert Touched(u.log, u.reworks[r].step);
      HistoryAppend(u.log, e, u.reworks[r].step);
    }
  }

  lemma RecordKeepsAnchored(route: seq<RouteStep>, u: Record, q: Request)
    requires Anchored(route, u) && RecordEvent(route, u, q).Ok?
    ensures Anchored(route, RecordEvent(route, u, q).value)
  {
    AcceptedRequestWrites(route, u, q);
    var e, next := Row(route, q), RecordEvent(route, u, q).value;
    RowKeepsReworks(route, u, e, next);
    RowKeepsWrittenInOrder(route, u.log, e);
    assert forall i | 0 <= i < |u.log| :: next.log[i] == u.log[i];
  }

  predicate WritesNoRow(op: Op) {
    !op.Station? && (op.Manage? ==> !op.action.SendToReview?)
  }

  lemma OtherOperationsKeepRows(route: seq<RouteStep>, u: Record, op: Op)
    requires WritesNoRow(op)
    ensures var next := Step(route, u, op);
            && next.log == u.log && |next.reworks| == |u.reworks|
            && forall r | 0 <= r < |u.reworks| ::
                 next.reworks[r].station == u.reworks[r].station && next.reworks[r].step == u.reworks[r].step
  {
  }

  lemma StepKeepsAnchored(route: seq<RouteStep>, u: Record, op: Op)
    requires Anchored(route, u)
    ensures Anchored(route, Step(route, u, op))
  {
    if WritesNoRow(op) {
      OtherOperationsKeepRows(route, u, op);
    } else if Attempt(route, u, op).Ok? {
      if op.Station? {
        RecordKeepsAnchored(route, u, op.request);
      } else {
        ReinspectionKeepsAnchored(route, u, op.rework, op.action.at);
      }
    }
  }

  lemma {:induction false} RunKeepsAnchored(route: seq<RouteStep>, u: Record, ops: seq<Op>)
    requires Anchored(route, u)
    ensures Anchored(route, Run(route, u, ops))
    decreases |ops|
  {
    if ops != [] {
      StepKeepsAnchored(route, u, ops[0]);
      RunKeepsAnchored(route, Step(route, u, ops[0]), ops[1..]);
    }
  }

  /** No unit skips a step: over all runs from registration, at any claimed times. */
  lemma EventsAreWrittenInRouteOrder(route: seq<RouteStep>, ops: seq<Op>)
    ensures WrittenInOrder(route, Run(route, FRESH, ops).log)
  {
    RunKeepsAnchored(route, FRESH, ops);
  }
}
