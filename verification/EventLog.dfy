/** How histories, latest events and the current step change when the log grows by one row. */
module EventLog {
  import opened Wrappers
  import opened Execution

  lemma HistoryAppend(log: seq<Event>, e: Event, step: nat)
    ensures History(log + [e], step) == if e.step == step then History(log, step) + [e] else History(log, step)
  {
    assert (log + [e])[..|log|] == log;
  }

  /** A history holds exactly the events of its step. */
  lemma {:induction false} HistoryMembers(log: seq<Event>, step: nat, e: Event)
    ensures e in History(log, step) <==> e in log && e.step == step
  {
    if log != [] {
      var init, last := log[..|log| - 1], log[|log| - 1];
      HistoryMembers(init, step, e);
      assert log == init + [last];
    }
  }

  /** The row a descending sort by (time, key) puts first. */
  ghost predicate IsLatest(events: seq<Event>, i: nat) {
    && i < |events|
    && (forall j | 0 <= j < i :: events[j].at <= events[i].at)
    && (forall j | i < j < |events| :: events[j].at < events[i].at)
  }

  lemma {:induction false} LatestIsFirstByTimeAndKey(events: seq<Event>) returns (i: nat)
    requires events != []
    ensures IsLatest(events, i) && Latest(events) == Some(events[i])
  {
    var n := |events| - 1;
    i := n;
    if n > 0 {
      var earlier := LatestIsFirstByTimeAndKey(events[..n]);
      if events[n].at < events[earlier].at { i := earlier; }
    }
  }

  lemma LatestIn(events: seq<Event>)
    requires events != []
    ensures Latest(events).value in events
  {
    var i := LatestIsFirstByTimeAndKey(events);
  }

  ghost predicate NoLater(events: seq<Event>, at: int) {
    forall e | e in events :: e.at <= at
  }

  lemma LatestAppend(events: seq<Event>, e: Event)
    ensures Latest(events + [e])
            == if events == [] || Latest(events).value.at <= e.at then Some(e) else Latest(events)
    ensures NoLater(events, e.at) ==> Latest(events + [e]) == Some(e)
  {
    assert (events + [e])[..|events|] == events;
    if events != [] { LatestIn(events); }
  }

  lemma {:induction false} FirstPendingIsUnique(steps: nat, log: seq<Event>, step: nat, from: nat := 0)
    requires from <= step <= steps
    requires forall i | from <= i < step :: Done(log, i)
    requires step < steps ==> !Done(log, step)
    ensures FirstPending(steps, log, from) == step
    decreases step - from
  {
    if from < step {
      FirstPendingIsUnique(steps, log, step, from + 1);
    }
  }

  lemma PendingIsBeyond(steps: nat, log: seq<Event>, step: nat)
    requires step < steps
    requires forall i | 0 <= i <= step :: Done(log, i)
    ensures FirstPending(steps, log) > step
  {
    var f := FirstPending(steps, log);
    assert f < steps ==> !Done(log, f);
  }

  // ----- Rows and the route -----

  /** Every row sits on the step its station resolves to. */
  ghost predicate OnRoute(route: seq<RouteStep>, log: seq<Event>) {
    forall i | 0 <= i < |log| :: StepFor(route, log[i].station) == Some(log[i].step)
  }

  /** The lookup by station and the lookup by step read the same rows. */
  lemma {:induction false} StationAndStepHistoriesAgree(route: seq<RouteStep>, log: seq<Event>, station: nat, step: nat)
    requires OnRoute(route, log)
    requires StepFor(route, station) == Some(step)
    ensures StationHistory(log, station) == History(log, step)
  {
    if log != [] {
      var init, last := log[..|log| - 1], log[|log| - 1];
      assert forall i | 0 <= i < |init| :: init[i] == log[i];
      StationAndStepHistoriesAgree(route, init, station, step);
    }
  }

  predicate Touched(log: seq<Event>, step: nat) {
    History(log, step) != []
  }

  /** Some completion of the step was recorded, whether or not it is still the latest event. */
  ghost predicate CompletedOnce(log: seq<Event>, step: nat) {
    exists i :: 0 <= i < |log| && log[i].step == step && log[i].etype.Completed?
  }

  lemma DoneMeansCompletedOnce(log: seq<Event>, step: nat)
    requires Done(log, step)
    ensures CompletedOnce(log, step) && Touched(log, step)
  {
    var h := History(log, step);
    LatestIn(h);
    HistoryMembers(log, step, Latest(h).value);
  }

  lemma CompletedOnceAppend(log: seq<Event>, e: Event, step: nat)
    ensures CompletedOnce(log + [e], step) <==> CompletedOnce(log, step) || (e.step == step && e.etype.Completed?)
  {
    var grown := log + [e];
    if CompletedOnce(log, step) {
      var i :| 0 <= i < |log| && log[i].step == step && log[i].etype.Completed?;
      assert grown[i] == log[i];
    }
    if e.step == step && e.etype.Completed? {
      assert grown[|log|] == e;
    }
    if CompletedOnce(grown, step) {
      var i :| 0 <= i < |grown| && grown[i].step == step && grown[i].etype.Completed?;
      assert if i < |log| then log[i] == grown[i] else e == grown[i];
    }
  }

  /** The step's rows are no later than `at`. */
  ghost predicate InOrder(log: seq<Event>, step: nat, at: int) {
    NoLater(History(log, step), at)
  }

  /** Everything one more row in time order changes: its own step's latest event, and nothing elsewhere. */
  lemma RowInOrder(log: seq<Event>, e: Event)
    requires InOrder(log, e.step, e.at)
    ensures LatestAt(log + [e], e.step) == Some(e)
    ensures forall j: nat | j != e.step :: History(log + [e], j) == History(log, j)
    ensures forall j: nat | j != e.step :: Done(log + [e], j) == Done(log, j)
    ensures forall j: nat :: Touched(log + [e], j) <==> Touched(log, j) || j == e.step
  {
    HistoryAppend(log, e, e.step);
    LatestAppend(History(log, e.step), e);
    forall j: nat | j != e.step
      ensures History(log + [e], j) == History(log, j)
    {
      HistoryAppend(log, e, j);
    }
  }
}
