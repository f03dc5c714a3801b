/** The next event that brings a unit forward, for any unit whose current step still offers one. */
module Pushing {
  import opened Wrappers
  import opened Execution
  import opened EventLog
  import opened HoldSafety
  import opened HoldLimits
  import opened Progress

  /** Only rework moves are recorded now. */
  predicate Shut(u: Record) {
    OnHold(u) || u.status.Released?
  }

  ghost predicate NeverArrived(log: seq<Event>) {
    forall i | 0 <= i < |log| :: !log[i].etype.Arrived?
  }

  /** The first unfinished step, worked from its own station, has an event that is recorded now. */
  ghost predicate CanPush(route: seq<RouteStep>, u: Record) {
    var c := CurrentStep(route, u.log);
    && OnRoute(route, u.log) && NeverArrived(u.log)
    && c < |route| && StepFor(route, route[c].station) == Some(c)
    && (Shut(u) ==> !Quiet(route, u.log))
  }

  function Push(shut: bool, last: Option<EventType>): EventType {
    if shut then if last == Some(EventType.ReworkOut) then EventType.ReworkIn else EventType.ReworkOut
    else match last
      case Some(Started) => EventType.Completed
      case Some(Resumed) => EventType.Completed
      case Some(Paused) => EventType.Resumed
      case Some(ReworkOut) => EventType.ReworkIn
      case _ => EventType.Started
  }

  function PushFor(route: seq<RouteStep>, u: Record): EventType {
    Push(Shut(u), TypeOf(LatestAt(u.log, CurrentStep(route, u.log))))
  }

  /** How many pushes the current step needs at most, a release from the hold included. */
  function Rank(shut: bool, last: Option<EventType>): nat {
    if last == Some(EventType.ReworkOut) then 3
    else if shut then 4
    else match last
      case Some(Started) => 1
      case Some(Resumed) => 1
      case _ => 2
  }

  function Work(route: seq<RouteStep>, u: Record): nat {
    var c := CurrentStep(route, u.log);
    if c == |route| then 0 else 5 * (|route| - c) + Rank(Shut(u), TypeOf(LatestAt(u.log, c)))
  }

  /** The request asks for the push, at the current step's station and no earlier than the step's rows. */
  ghost predicate Pushes(route: seq<RouteStep>, u: Record, q: Request) {
    var c := CurrentStep(route, u.log);
    && c < |route| && q.station == route[c].station && q.etype == PushFor(route, u) && q.cleared
    && InOrder(u.log, c, q.at)
  }

  /** The lookup of the gate, or of the rework, that the event needs finds at most one row. */
  predicate LookupIsSingle(route: seq<RouteStep>, u: Record, step: nat, etype: EventType, code: string)
    requires step < |route|
  {
    && (etype.Completed? && Gated(route[step]) ==> GatesAt(u.gates, step) <= 1)
    && (etype.ReworkOut? ==> ReworksFor(u.reworks, step, code) <= 1)
  }

  lemma LatestIsNotArrived(log: seq<Event>, step: nat)
    requires NeverArrived(log)
    ensures TypeOf(LatestAt(log, step)) != Some(EventType.Arrived)
  {
    if LatestAt(log, step).Some? {
      LatestIn(History(log, step));
      HistoryMembers(log, step, LatestAt(log, step).value);
    }
  }

  predicate OffersRework(last: Option<EventType>) {
    exists move :: move in AvailableActions(last) && ReworkMove(move)
  }

  lemma PushIsOnOffer(shut: bool, last: Option<EventType>)
    requires last != Some(EventType.Arrived) && last != Some(EventType.Completed) && (shut ==> OffersRework(last))
    ensures Push(shut, last) in AvailableActions(last) && (shut ==> ReworkMove(Push(shut, last)))
  {}

  /** A push is on offer and not refused for the unit's status. */
  lemma PushIsOffered(route: seq<RouteStep>, u: Record)
    requires CanPush(route, u)
    ensures PushFor(route, u) in AvailableActions(TypeOf(LatestAt(u.log, CurrentStep(route, u.log))))
    ensures StationEventIssue(route, u, CurrentStep(route, u.log), PushFor(route, u)).None?
  {
    LatestIsNotArrived(u.log, CurrentStep(route, u.log));
    PushIsOnOffer(Shut(u), TypeOf(LatestAt(u.log, CurrentStep(route, u.log))));
  }

  lemma PushIsRecorded(route: seq<RouteStep>, u: Record, q: Request)
    requires CanPush(route, u) && Pushes(route, u, q)
    ensures RecordEvent(route, u, q)
            == ApplyEffects(route, u.(log := u.log + [Row(route, q)]), CurrentStep(route, u.log), q.etype, q.code)
    ensures RecordEvent(route, u, q).Ok? <==> LookupIsSingle(route, u, CurrentStep(route, u.log), q.etype, q.code)
  {
    var c := CurrentStep(route, u.log);
    PushIsOffered(route, u);
    StationAndStepHistoriesAgree(route, u.log, q.station, c);
    OfferedIsRecorded(route, u, q, c);
    EffectsFindSingleRows(route, u.(log := u.log + [Row(route, q)]), c, q.etype, q.code);
  }

  lemma EffectsFindSingleRows(route: seq<RouteStep>, u: Record, step: nat, etype: EventType, code: string)
    requires step < |route|
    ensures ApplyEffects(route, u, step, etype, code).Ok? <==> LookupIsSingle(route, u, step, etype, code)
  {}

  /** What a recorded push changes. */
  ghost predicate Pushed(route: seq<RouteStep>, u: Record, q: Request, next: Record) {
    var c := CurrentStep(route, u.log);
    && c < |route| && StepFor(route, q.station) == Some(c)
    && Wrote(route, u, Row(route, q), next)
    && (forall j: nat | j != c :: LatestAt(next.log, j) == LatestAt(u.log, j))
    && LatestAt(next.log, c) == Some(Row(route, q))
    && (if q.etype.Completed? then CurrentStep(route, next.log) > c else CurrentStep(route, next.log) == c)
    && (Shut(next) <==> q.etype.ReworkOut? || (q.etype.Completed? && Gated(route[c])))
    && (q.etype.Completed? && Gated(route[c]) ==> next.gates != [])
    && OnRoute(route, next.log) && NeverArrived(next.log)
  }

  lemma {:induction false} PushEffects(route: seq<RouteStep>, u: Record, e: Event, code: string)
    requires e.step < |route| && LookupIsSingle(route, u, e.step, e.etype, code) && !e.etype.Arrived?
    ensures var next := ApplyEffects(route, u.(log := u.log + [e]), e.step, e.etype, code);
            && next.Ok? && next.value.log == u.log + [e]
            && (Shut(next.value) <==> e.etype.ReworkOut? || e.etype.Failed? || (e.etype.Completed? && Gated(route[e.step])))
            && (e.etype.Completed? && Gated(route[e.step]) ==> next.value.gates != [])
  {}

  lemma LogAfterPush(route: seq<RouteStep>, log: seq<Event>, e: Event)
    requires OnRoute(route, log) && NeverArrived(log) && !e.etype.Arrived?
    requires StepFor(route, e.station) == Some(e.step) && e.step == CurrentStep(route, log) && InOrder(log, e.step, e.at)
    ensures OnRoute(route, log + [e]) && NeverArrived(log + [e])
    ensures forall j: nat | j != e.step :: LatestAt(log + [e], j) == LatestAt(log, j)
    ensures LatestAt(log + [e], e.step) == Some(e)
    ensures if e.etype.Completed? then CurrentStep(route, log + [e]) > e.step else CurrentStep(route, log + [e]) == e.step
  {
    RowInOrder(log, e);
    CurrentAfterRow(route, log, e);
    RowStaysOnRoute(route, log, e);
  }

  lemma RowStaysOnRoute(route: seq<RouteStep>, log: seq<Event>, e: Event)
    requires OnRoute(route, log) && NeverArrived(log) && !e.etype.Arrived? && StepFor(route, e.station) == Some(e.step)
    ensures OnRoute(route, log + [e]) && NeverArrived(log + [e])
  {
    assert forall i | 0 <= i < |log| :: (log + [e])[i] == log[i];
  }

  lemma PushMoves(route: seq<RouteStep>, u: Record, q: Request)
    requires CanPush(route, u) && Pushes(route, u, q) && RecordEvent(route, u, q).Ok?
    ensures Pushed(route, u, q, RecordEvent(route, u, q).value)
  {
    PushIsRecorded(route, u, q);
    AcceptedRequestWrites(route, u, q);
    PushEffects(route, u, Row(route, q), q.code);
    LogAfterPush(route, u.log, Row(route, q));
  }

  /** Every push leaves less work. */
  lemma PushShortens(route: seq<RouteStep>, u: Record, q: Request, next: Record)
    requires CanPush(route, u) && Pushes(route, u, q) && Pushed(route, u, q, next)
    ensures Work(route, next) < Work(route, u)
  {
    LatestIsNotArrived(u.log, CurrentStep(route, u.log));
  }
}
