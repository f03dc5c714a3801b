/** Exactly which units can still be finished: from any record, by any run of events, reviews, reworks and decisions. */
module Finishing {
  import opened Wrappers
  import opened Execution
  import opened EventLog
  import opened HoldSafety
  import opened HoldLimits
  import opened RouteOrder
  import opened Progress
  import opened Pushing

  /** What every run keeps, at any times and with any reviews. */
  ghost predicate Standing(route: seq<RouteStep>, u: Record) {
    && OnRoute(route, u.log) && NeverArrived(u.log)
    && (forall r | 0 <= r < |u.reworks| :: StepFor(route, u.reworks[r].station) == Some(u.reworks[r].step))
    && (u.status.Released? ==> !HasOpenRework(u.reworks))
  }

  /** Nothing but a rework move could go on, and none is on offer. */
  ghost predicate Stuck(route: seq<RouteStep>, u: Record) {
    && Quiet(route, u.log) && !HasOpenRework(u.reworks)
    && (u.status.Released? || (OnHold(u) && u.gates == []))
  }

  /** The step is its station's first and its gate lookup finds at most one row. */
  predicate Passable(route: seq<RouteStep>, gates: seq<Gate>, step: nat)
    requires step < |route|
  {
    StepFor(route, route[step].station) == Some(step) && (Gated(route[step]) ==> GatesAt(gates, step) <= 1)
  }

  ghost predicate WayIsClear(route: seq<RouteStep>, u: Record, to: nat) {
    forall j: nat | j < to && j < |route| && !Done(u.log, j) :: Passable(route, u.gates, j)
  }

  // ----- What every run keeps -----

  lemma RecordKeepsStanding(route: seq<RouteStep>, u: Record, q: Request)
    requires Standing(route, u) && RecordEvent(route, u, q).Ok?
    ensures Standing(route, RecordEvent(route, u, q).value)
  {
    AcceptedRequestWrites(route, u, q);
    var next := RecordEvent(route, u, q).value;
    assert forall i | 0 <= i < |u.log| :: next.log[i] == u.log[i];
    assert forall r | 0 <= r < |u.reworks| :: next.reworks[r] == u.reworks[r] by {
      if next.reworks != u.reworks {
        assert forall r | 0 <= r < |u.reworks| :: next.reworks[..|u.reworks|][r] == next.reworks[r];
      }
    }
  }

  lemma ReviewKeepsStanding(route: seq<RouteStep>, u: Record, gate: nat, verdict: GateStatus, evidence: bool, notes: bool)
    requires Standing(route, u)
    ensures Standing(route, Step(route, u, Review(gate, verdict, evidence, notes)))
  {}

  lemma ManagementKeepsStanding(route: seq<RouteStep>, u: Record, rework: nat, action: ReworkAction)
    requires Standing(route, u)
    ensures Standing(route, Step(route, u, Manage(rework, action)))
  {
    if ManageRework(route, u, rework, action).Ok? {
      assert Active(u.reworks[rework]);
      if action.SendToReview? {
        var next := SendForReinspection(u, rework, action.at);
        assert forall i | 0 <= i < |u.log| :: next.log[i] == u.log[i];
      }
    }
  }

  lemma StepKeepsStanding(route: seq<RouteStep>, u: Record, op: Op)
    requires Standing(route, u)
    ensures Standing(route, Step(route, u, op))
  {
    match op
    case Station(q) => if RecordEvent(route, u, q).Ok? { RecordKeepsStanding(route, u, q); }
    case Review(gate, verdict, evidence, notes) => ReviewKeepsStanding(route, u, gate, verdict, evidence, notes);
    case Manage(rework, action) => ManagementKeepsStanding(route, u, rework, action);
    case Release(decision, documented) =>
  }

  lemma SoundIsStanding(route: seq<RouteStep>, u: Record)
    requires Sound(route, u) && NeverArrived(u.log)
    ensures Standing(route, u)
  {}

  lemma {:induction false} RunKeepsStanding(route: seq<RouteStep>, u: Record, ops: seq<Op>)
    requires Standing(route, u)
    ensures Standing(route, Run(route, u, ops))
    decreases |ops|
  {
    if ops != [] {
      StepKeepsStanding(route, u, ops[0]);
      RunKeepsStanding(route, Step(route, u, ops[0]), ops[1..]);
    }
  }

  // ----- Why a unit cannot be finished -----

  lemma StuckStepStaysStuck(route: seq<RouteStep>, u: Record, op: Op)
    requires Standing(route, u) && Stuck(route, u)
    ensures Stuck(route, Step(route, u, op)) && Step(route, u, op).log == u.log
  {
    if op.Station? {
      HeldUnitRefusesExactlyWhenQuiet(route, u);
    }
  }

  lemma {:induction false} StuckRunStaysStuck(route: seq<RouteStep>, u: Record, ops: seq<Op>)
    requires Standing(route, u) && Stuck(route, u)
    ensures Run(route, u, ops).log == u.log
    decreases |ops|
  {
    if ops != [] {
      StuckStepStaysStuck(route, u, ops[0]);
      StepKeepsStanding(route, u, ops[0]);
      StuckRunStaysStuck(route, Step(route, u, ops[0]), ops[1..]);
    }
  }

  /** A step that is not its station's first, or whose gate lookup finds two rows, is never finished. */
  lemma ImpassableStepStaysUnfinished(route: seq<RouteStep>, u: Record, ops: seq<Op>, step: nat)
    requires Standing(route, u) && step < |route| && !Done(u.log, step) && !Passable(route, u.gates, step)
    ensures !Done(Run(route, u, ops).log, step)
  {
    if StepFor(route, route[step].station) == Some(step) {
      TwiceGatedStepNeverCompletes(route, u, ops, step);
    } else {
      var log := Run(route, u, ops).log;
      RunKeepsStanding(route, u, ops);
      if Touched(log, step) { TouchedStepIsStationsFirst(route, log, step); }
    }
  }

  /** What stands in the way of the first steps stays there over every run. */
  lemma ObstacleStays(route: seq<RouteStep>, u: Record, ops: seq<Op>, to: nat)
    requires Standing(route, u) && CurrentStep(route, u.log) < to <= |route|
    requires Stuck(route, u) || !WayIsClear(route, u, to)
    ensures CurrentStep(route, Run(route, u, ops).log) < to
  {
    if Stuck(route, u) {
      StuckRunStaysStuck(route, u, ops);
    } else {
      var j: nat :| j < to && j < |route| && !Done(u.log, j) && !Passable(route, u.gates, j);
      ImpassableStepStaysUnfinished(route, u, ops, j);
    }
  }

  // ----- Taking a unit off its hold -----

  function Actives(reworks: seq<ReworkOrder>): nat {
    if reworks == [] then 0
    else Actives(reworks[..|reworks| - 1]) + if Active(reworks[|reworks| - 1]) then 1 else 0
  }

  function Blocking(gates: seq<Gate>): nat {
    if gates == [] then 0 else Blocking(gates[..|gates| - 1]) + if Blocks(gates[|gates| - 1]) then 1 else 0
  }

  lemma {:induction false} ActivesUpdate(reworks: seq<ReworkOrder>, i: nat, r: ReworkOrder)
    requires i < |reworks|
    ensures Actives(reworks[i := r]) + (if Active(reworks[i]) then 1 else 0)
         == Actives(reworks) + (if Active(r) then 1 else 0)
  {
    var n := |reworks| - 1;
    if i < n {
      ActivesUpdate(reworks[..n], i, r);
      assert reworks[i := r][..n] == reworks[..n][i := r];
    } else {
      assert reworks[i := r][..n] == reworks[..n];
    }
  }

  lemma {:induction false} BlockingUpdate(gates: seq<Gate>, i: nat, g: Gate)
    requires i < |gates|
    ensures Blocking(gates[i := g]) + (if Blocks(gates[i]) then 1 else 0)
         == Blocking(gates) + (if Blocks(g) then 1 else 0)
  {
    var n := |gates| - 1;
    if i < n {
      BlockingUpdate(gates[..n], i, g);
      assert gates[i := g][..n] == gates[..n][i := g];
    } else {
      assert gates[i := g][..n] == gates[..n];
    }
  }

  lemma {:induction false} BlockedExactlyWhenCounted(gates: seq<Gate>)
    ensures Blocked(gates) <==> Blocking(gates) > 0
  {
    if gates != [] {
      BlockedExactlyWhenCounted(gates[..|gates| - 1]);
      BlockedAppend(gates[..|gates| - 1], gates[|gates| - 1]);
      assert gates == gates[..|gates| - 1] + [gates[|gates| - 1]];
    }
  }

  /** From `u` to `next` the log stays and the gates keep their steps. */
  ghost predicate Eased(u: Record, next: Record) {
    && next.log == u.log && |next.gates| == |u.gates|
    && (forall g | 0 <= g < |u.gates| :: next.gates[g].step == u.gates[g].step)
  }

  lemma CloseEases(route: seq<RouteStep>, u: Record, r: nat) returns (op: Op)
    requires r < |u.reworks| && Active(u.reworks[r]) && !u.status.Released?
    ensures var next := Step(route, u, op);
            && Eased(u, next) && next.gates == u.gates && !next.status.Released?
            && Actives(next.reworks) < Actives(u.reworks)
            && (HasOpenRework(next.reworks) || Blocked(next.gates) || !Shut(next))
  {
    op := Manage(r, Close);
    ActivesUpdate(u.reworks, r, u.reworks[r].(status := Closed));
  }

  lemma PassEases(route: seq<RouteStep>, u: Record, g: nat) returns (op: Op)
    requires g < |u.gates| && !HasOpenRework(u.reworks) && !u.status.Released?
    ensures var next := Step(route, u, op);
            && Eased(u, next) && !next.status.Released? && next.reworks == u.reworks
            && Blocking(next.gates) + (if Blocks(u.gates[g]) then 1 else 0) == Blocking(u.gates)
            && (Blocked(next.gates) || !Shut(next))
  {
    op := Review(g, Passed, true, true);
    BlockingUpdate(u.gates, g, u.gates[g].(status := Passed));
    assert forall r | 0 <= r < |u.reworks| :: !Active(u.reworks[r]);
    assert Step(route, u, op).reworks == u.reworks;
  }

  /** Closing every rework and then passing every gate takes a unit that has either off its hold. */
  lemma {:induction false} TakeOffHold(route: seq<RouteStep>, u: Record) returns (ops: seq<Op>)
    requires !u.status.Released? && (HasOpenRework(u.reworks) || u.gates != [])
    ensures Eased(u, Run(route, u, ops)) && !Shut(Run(route, u, ops))
    decreases Actives(u.reworks), Blocking(u.gates)
  {
    var op;
    BlockedExactlyWhenCounted(u.gates);
    if HasOpenRework(u.reworks) {
      var r :| 0 <= r < |u.reworks| && Active(u.reworks[r]);
      op := CloseEases(route, u, r);
    } else if Blocked(u.gates) {
      var g :| 0 <= g < |u.gates| && Blocks(u.gates[g]);
      op := PassEases(route, u, g);
    } else {
      op := PassEases(route, u, 0);
    }
    var next := Step(route, u, op);
    BlockedExactlyWhenCounted(next.gates);
    if !Shut(next) {
      ops := [op];
      assert ops == [op] + [];
      Prepend(route, u, op, []);
    } else {
      var rest := TakeOffHold(route, next);
      ops := [op] + rest;
      Prepend(route, u, op, rest);
    }
  }

  // ----- Finishing the first steps -----

  /** The way ahead depends on the gates' steps alone, so easing keeps it. */
  lemma EasingKeepsTheWay(route: seq<RouteStep>, u: Record, next: Record, to: nat)
    requires Eased(u, next) && WayIsClear(route, u, to)
    ensures WayIsClear(route, next, to)
  {
    forall j: nat | j < to && j < |route| && !Done(next.log, j)
      ensures Passable(route, next.gates, j)
    {
      GatesAtIgnoresStatus(next.gates, u.gates, j);
    }
  }

  /** A push at the current step, with a defect code no rework carries yet, is recorded and keeps the way clear. */
  lemma PushKeepsTheWay(route: seq<RouteStep>, u: Record, to: nat) returns (q: Request)
    requires Standing(route, u) && CurrentStep(route, u.log) < to <= |route| && WayIsClear(route, u, to)
    requires Shut(u) ==> !Quiet(route, u.log)
    ensures RecordEvent(route, u, q).Ok?
    ensures var next := RecordEvent(route, u, q).value;
            && Standing(route, next) && !Stuck(route, next) && WayIsClear(route, next, to)
            && Work(route, next) < Work(route, u)
  {
    var c := CurrentStep(route, u.log);
    var code := UnusedCode(u.reworks, c);
    q := Request(route[c].station, PushFor(route, u), Horizon(u.log), code, true, Api, "");
    HorizonIsInOrder(u.log, c);
    assert Passable(route, u.gates, c);
    PushIsRecorded(route, u, q);
    var next := RecordEvent(route, u, q).value;
    PushMoves(route, u, q);
    PushShortens(route, u, q, next);
    RecordKeepsStanding(route, u, q);
    RowKeepsTheWay(route, u, q, next, to);
    PushIsNotStuck(route, u, q, next);
  }

  lemma RowKeepsTheWay(route: seq<RouteStep>, u: Record, q: Request, next: Record, to: nat)
    requires Pushed(route, u, q, next) && WayIsClear(route, u, to)
    ensures WayIsClear(route, next, to)
  {
    var c := CurrentStep(route, u.log);
    forall j: nat | j < to && j < |route| && !Done(next.log, j)
      ensures Passable(route, next.gates, j)
    {
      assert !Done(u.log, j) && (q.etype.Completed? ==> j != c);
      if next.gates != u.gates { GatesAtAppend(u.gates, Gate(c, Pending, true), j); }
    }
  }

  lemma PushIsNotStuck(route: seq<RouteStep>, u: Record, q: Request, next: Record)
    requires Pushed(route, u, q, next)
    ensures !Stuck(route, next)
  {
    if q.etype.ReworkOut? {
      assert EventType.ReworkIn in AvailableActions(TypeOf(LatestAt(next.log, CurrentStep(route, next.log))));
    }
  }

  /** Events, reviews and rework actions that finish the first steps. */
  lemma {:induction false} FinishFirst(route: seq<RouteStep>, u: Record, to: nat) returns (ops: seq<Op>)
    requires Standing(route, u) && to <= |route| && WayIsClear(route, u, to)
    requires CurrentStep(route, u.log) < to ==> !Stuck(route, u)
    ensures CurrentStep(route, Run(route, u, ops).log) >= to
    decreases Work(route, u)
  {
    if CurrentStep(route, u.log) >= to {
      ops := [];
    } else if Shut(u) && Quiet(route, u.log) {
      var easing := TakeOffHold(route, u);
      var next := Run(route, u, easing);
      RunKeepsStanding(route, u, easing);
      EasingKeepsTheWay(route, u, next, to);
      QuietHasRank(route, u);
      var rest := FinishFirst(route, next, to);
      ops := easing + rest;
      RunConcat(route, u, easing, rest);
    } else {
      var q := PushKeepsTheWay(route, u, to);
      var rest := FinishFirst(route, Step(route, u, Station(q)), to);
      ops := [Station(q)] + rest;
      Prepend(route, u, Station(q), rest);
    }
  }

  lemma QuietHasRank(route: seq<RouteStep>, u: Record)
    requires CurrentStep(route, u.log) < |route| && Shut(u) && Quiet(route, u.log)
    ensures forall next: Record | next.log == u.log && !Shut(next) :: Work(route, next) < Work(route, u)
  {
    var last := TypeOf(LatestAt(u.log, CurrentStep(route, u.log)));
    assert last == Some(EventType.ReworkOut) ==> EventType.ReworkIn in AvailableActions(last);
  }

  lemma {:induction false} RunConcat(route: seq<RouteStep>, u: Record, a: seq<Op>, b: seq<Op>)
    ensures Run(route, u, a + b) == Run(route, Run(route, u, a), b)
    decreases |a|
  {
    if a == [] {
      assert a + b == b;
    } else {
      assert (a + b)[1..] == a[1..] + b;
      RunConcat(route, Step(route, u, a[0]), a[1..], b);
    }
  }

  // ----- The exact conditions -----

  /**
   The first steps can be finished, by some run of any operations, exactly when they are, or the unit is not stuck
   and every unfinished one of them is passable.
   */
  lemma FirstStepsFinishExactlyWhen(route: seq<RouteStep>, u: Record, to: nat)
    requires Standing(route, u) && to <= |route|
    ensures (exists ops :: CurrentStep(route, Run(route, u, ops).log) >= to)
            <==> CurrentStep(route, u.log) >= to || (!Stuck(route, u) && WayIsClear(route, u, to))
  {
    if CurrentStep(route, u.log) >= to {
      assert Run(route, u, []) == u;
    } else if !Stuck(route, u) && WayIsClear(route, u, to) {
      var ops := FinishFirst(route, u, to);
      assert CurrentStep(route, Run(route, u, ops).log) >= to;
    } else {
      forall ops
        ensures CurrentStep(route, Run(route, u, ops).log) < to
      {
        ObstacleStays(route, u, ops, to);
      }
    }
  }

  lemma {:induction false} NoneUnfinishedExactlyAtTheEnd(route: seq<RouteStep>, log: seq<Event>, from: nat)
    requires from <= |route|
    ensures Unfinished(route, log, from) == 0 <==> forall j | from <= j < |route| :: Done(log, j)
    decreases |route| - from
  {
    if from < |route| {
      NoneUnfinishedExactlyAtTheEnd(route, log, from + 1);
    }
  }

  lemma FinishedExactlyAtTheEnd(route: seq<RouteStep>, log: seq<Event>)
    ensures Unfinished(route, log) == 0 <==> CurrentStep(route, log) == |route|
  {
    NoneUnfinishedExactlyAtTheEnd(route, log, 0);
  }

  /**
   Some run of any operations finishes the route exactly when nothing is unfinished, or the unit is not stuck and
   every unfinished step is its station's first and, if gated, has at most one gate.
   */
  lemma RouteFinishesExactlyWhen(route: seq<RouteStep>, u: Record)
    requires Standing(route, u)
    ensures (exists ops :: Unfinished(route, Run(route, u, ops).log) == 0)
            <==> Unfinished(route, u.log) == 0 || (!Stuck(route, u) && WayIsClear(route, u, |route|))
  {
    FirstStepsFinishExactlyWhen(route, u, |route|);
    FinishedExactlyAtTheEnd(route, u.log);
    forall ops
      ensures Unfinished(route, Run(route, u, ops).log) == 0 <==> CurrentStep(route, Run(route, u, ops).log) >= |route|
    {
      FinishedExactlyAtTheEnd(route, Run(route, u, ops).log);
    }
  }

  /** An operation that finishes a step finds every earlier one finished. */
  lemma FinishingFindsEarlierDone(route: seq<RouteStep>, u: Record, op: Op, step: nat)
    requires Standing(route, u) && step < |route| && !Done(u.log, step) && Done(Step(route, u, op).log, step)
    ensures CurrentStep(route, Step(route, u, op).log) > step
  {
    var next := Step(route, u, op);
    if WritesNoRow(op) {
      OtherOperationsKeepRows(route, u, op);
    } else if op.Station? {
      AcceptedRequestWrites(route, u, op.request);
      var e := Row(route, op.request);
      if e.step != step || !e.etype.Completed? { UnfinishedStaysUnfinished(u.log, e, step); }
      assert e.step == step == CurrentStep(route, u.log);
      forall j: nat | j < step
        ensures Done(next.log, j)
      {
        assert Done(u.log, j);
        HistoryAppend(u.log, e, j);
      }
      assert forall j | 0 <= j <= step :: Done(next.log, j);
      PendingIsBeyond(|route|, next.log, step);
    } else {
      var r := u.reworks[op.rework];
      var e := Event(r.station, r.step, EventType.ReworkIn, op.action.at, Reinspection, Manual, "");
      UnfinishedStaysUnfinished(u.log, e, step);
    }
  }

  lemma {:induction false} FinishingRunPassesTheStep(route: seq<RouteStep>, u: Record, ops: seq<Op>, step: nat)
    returns (first: seq<Op>)
    requires Standing(route, u) && step < |route| && !Done(u.log, step) && Done(Run(route, u, ops).log, step)
    ensures CurrentStep(route, Run(route, u, first).log) > step
    decreases |ops|
  {
    var next := Step(route, u, ops[0]);
    if Done(next.log, step) {
      FinishingFindsEarlierDone(route, u, ops[0], step);
      first := [ops[0]];
      OneOpRun(route, u, ops[0]);
    } else {
      StepKeepsStanding(route, u, ops[0]);
      var rest := FinishingRunPassesTheStep(route, next, ops[1..], step);
      first := [ops[0]] + rest;
      Prepend(route, u, ops[0], rest);
    }
  }

  /**
   Some run of any operations finishes a step exactly when it is finished, or the unit is not stuck and the step and
   every unfinished one before it are passable.
   */
  lemma StepFinishesExactlyWhen(route: seq<RouteStep>, u: Record, step: nat)
    requires Standing(route, u) && step < |route|
    ensures (exists ops :: Done(Run(route, u, ops).log, step))
            <==> Done(u.log, step) || (!Stuck(route, u) && WayIsClear(route, u, step + 1))
  {
    if Done(u.log, step) {
      assert Run(route, u, []) == u;
    } else {
      FirstStepsFinishExactlyWhen(route, u, step + 1);
      if ops :| Done(Run(route, u, ops).log, step) {
        var first := FinishingRunPassesTheStep(route, u, ops, step);
        assert CurrentStep(route, Run(route, u, first).log) >= step + 1;
      }
      if ops :| CurrentStep(route, Run(route, u, ops).log) >= step + 1 {
        assert Done(Run(route, u, ops).log, step);
      }
    }
  }

  /** The condition decides every record that any run from registration reaches, at any times and with any reviews. */
  lemma ReachedUnitFinishesExactlyWhen(route: seq<RouteStep>, before: seq<Op>)
    ensures var u := Run(route, FRESH, before);
            (exists ops :: Unfinished(route, Run(route, u, ops).log) == 0)
            <==> Unfinished(route, u.log) == 0 || (!Stuck(route, u) && WayIsClear(route, u, |route|))
  {
    RunKeepsStanding(route, FRESH, before);
    RouteFinishesExactlyWhen(route, Run(route, FRESH, before));
  }

  /** Any route, gated or not, can be finished from registration exactly when no station serves two of its steps. */
  lemma FinishableExactlyWhenStationsDistinct(route: seq<RouteStep>)
    ensures (exists ops :: Unfinished(route, Run(route, FRESH, ops).log) == 0) <==> DistinctStations(route)
  {
    RouteFinishesExactlyWhen(route, FRESH);
    FinishedExactlyAtTheEnd(route, FRESH.log);
    FirstPendingIsUnique(|route|, FRESH.log, 0);
    assert WayIsClear(route, FRESH, |route|) <==> forall j: nat | j < |route| :: Passable(route, FRESH.gates, j);
    if forall j: nat | j < |route| :: Passable(route, FRESH.gates, j) {
      forall i, j | 0 <= i < j < |route|
        ensures route[i].station != route[j].station
      {
        assert Passable(route, FRESH.gates, j);
      }
    }
    if DistinctStations(route) {
      forall j: nat | j < |route|
        ensures Passable(route, FRESH.gates, j)
      {
        assert StepFor(route, route[j].station) == Some(j);
      }
    }
  }

  /** A rejected release of a unit that was never worked leaves it stuck: no run finishes any step. */
  lemma RejectedAtRegistrationIsStuck(route: seq<RouteStep>, ops: seq<Op>)
    ensures Run(route, Step(route, FRESH, Release(Rejected, true)), ops).log == []
  {
    var u := Step(route, FRESH, Release(Rejected, true));
    FirstPendingIsUnique(|route|, u.log, 0);
    StuckRunStaysStuck(route, u, ops);
  }
}
