/**
 Repeated machine messages: which deliveries leave no trace, and exactly when only the first copy of each
 message matters.
 */
module FirstCopies {
  import opened Wrappers
  import opened Execution
  import opened EventLog
  import opened HoldSafety
  import opened HoldLimits
  import opened Progress
  import opened Pushing
  import opened Finishing
  import opened GatedDeadlock
  import opened Intake

  // ----- The guard of the failing lookup -----

  /** The event passes every check, and then its lookup of the gate or of the rework finds two rows. */
  predicate LookupFails(route: seq<RouteStep>, u: Record, q: Request) {
    var c := CurrentStep(route, u.log);
    && q.cleared && c < |route| && StepFor(route, q.station) == Some(c)
    && q.etype in AvailableActions(TypeOf(Latest(StationHistory(u.log, q.station))))
    && (|| (q.etype.Completed? && Gated(route[c]) && GatesAt(u.gates, c) > 1 && !Shut(u))
        || (q.etype.ReworkOut? && ReworksFor(u.reworks, c, q.code) > 1))
  }

  lemma RaisesExactlyWhenLookupFails(route: seq<RouteStep>, u: Record, q: Request)
    ensures RecordEvent(route, u, q).Err? && Raises(RecordEvent(route, u, q).error) <==> LookupFails(route, u, q)
  {}

  /** A machine message whose lookup fails in this world. */
  predicate MessageFails(w: World, m: Message) {
    m.unit in w.units && LookupFails(w.units[m.unit].route, w.units[m.unit].record, RequestOf(m, Equipment))
  }

  /** The delivery leaves its message row behind: it was processed, rejected or known, but did not raise. */
  predicate Settles(w: World, m: Message) {
    m.id in ProcessEquipment(w, m).inbound
  }

  lemma SettlesExactlyWhenKnownOrFound(w: World, m: Message)
    ensures Settles(w, m) <==> m.id in w.inbound || !MessageFails(w, m)
    ensures !Settles(w, m) ==> ProcessEquipment(w, m) == w
  {
    if m.unit in w.units {
      RaisesExactlyWhenLookupFails(w.units[m.unit].route, w.units[m.unit].record, RequestOf(m, Equipment));
    }
  }

  /** Some copy of a delivered message still has an effect exactly when the first was unknown and its lookup failed. */
  lemma CopiesCountExactlyWhenLookupFails(w: World, m: Message)
    ensures (m.id !in w.inbound && MessageFails(w, m))
            <==> exists copy: Message :: copy.id == m.id
                   && ProcessEquipment(ProcessEquipment(w, m), copy) != ProcessEquipment(w, m)
  {
    SettlesExactlyWhenKnownOrFound(w, m);
    if m.id !in w.inbound && MessageFails(w, m) {
      var copy := m.(cleared := false);
      assert m.id in ProcessEquipment(w, copy).inbound;
    }
  }

  // ----- Keeping only the first copies, among any other deliveries -----

  function FirstCopies(ds: seq<Delivery>, seen: set<string> := {}): seq<Delivery> {
    if ds == [] then []
    else if !ds[0].FromEquipment? then [ds[0]] + FirstCopies(ds[1..], seen)
    else if ds[0].message.id in seen then FirstCopies(ds[1..], seen)
    else [ds[0]] + FirstCopies(ds[1..], seen + {ds[0].message.id})
  }

  /** Every machine message settles when it is delivered. */
  predicate AllSettle(w: World, ds: seq<Delivery>)
    decreases |ds|
  {
    ds != [] ==>
      && (ds[0].FromEquipment? ==> Settles(w, ds[0].message))
      && AllSettle(Deliver(w, ds[0]), ds[1..])
  }

  lemma {:induction false} FirstCopiesSufficeFrom(w: World, ds: seq<Delivery>, seen: set<string>)
    requires AllSettle(w, ds) && seen <= w.inbound.Keys
    ensures DeliverAll(w, ds) == DeliverAll(w, FirstCopies(ds, seen))
    decreases |ds|
  {
    if ds != [] {
      var d, rest := ds[0], ds[1..];
      DeliveryGrows(w, d);
      if d.FromEquipment? && d.message.id in seen {
        FirstCopiesSufficeFrom(w, rest, seen);
      } else {
        var known := if d.FromEquipment? then seen + {d.message.id} else seen;
        FirstCopiesSufficeFrom(Deliver(w, d), rest, known);
        assert FirstCopies(ds, seen) == [d] + FirstCopies(rest, known);
        assert FirstCopies(ds, seen)[1..] == FirstCopies(rest, known);
      }
    }
  }

  /**
   Machine messages mixed with terminal events, captures, reviews, reworks and decisions in any order have the effect
   of the first copy of each, as long as none of them meets a failing lookup.
   */
  lemma FirstCopiesSuffice(w: World, ds: seq<Delivery>)
    requires AllSettle(w, ds)
    ensures DeliverAll(w, ds) == DeliverAll(w, FirstCopies(ds))
  {
    FirstCopiesSufficeFrom(w, ds, {});
  }

  // ----- Dropping copies of settled messages, whatever raises -----

  /** The deliveries without the machine messages already settled when they come. */
  function UntilSettled(w: World, ds: seq<Delivery>): seq<Delivery>
    decreases |ds|
  {
    if ds == [] then []
    else if ds[0].FromEquipment? && ds[0].message.id in w.inbound then UntilSettled(w, ds[1..])
    else [ds[0]] + UntilSettled(Deliver(w, ds[0]), ds[1..])
  }

  /** A machine message that settles is not delivered again. */
  ghost predicate NoneAfterSettled(w: World, ds: seq<Delivery>)
    decreases |ds|
  {
    ds != [] ==>
      && (ds[0].FromEquipment? && Settles(w, ds[0].message) ==> ds[0].message.id !in Ids(ds[1..]))
      && NoneAfterSettled(Deliver(w, ds[0]), ds[1..])
  }

  lemma {:induction false} SettledAreDropped(w: World, ds: seq<Delivery>)
    ensures Ids(UntilSettled(w, ds)) !! w.inbound.Keys
    decreases |ds|
  {
    if ds != [] {
      var d, rest := ds[0], ds[1..];
      if d.FromEquipment? && d.message.id in w.inbound {
        SettledAreDropped(w, rest);
      } else {
        DeliveryGrows(w, d);
        SettledAreDropped(Deliver(w, d), rest);
        IdsOfFirst(UntilSettled(w, ds), {});
        assert UntilSettled(w, ds)[1..] == UntilSettled(Deliver(w, d), rest);
      }
    }
  }

  /** In any order with any other deliveries, copies of settled messages can be dropped, even when others raise. */
  lemma {:induction false} SettledCopiesCanBeDropped(w: World, ds: seq<Delivery>)
    ensures DeliverAll(w, UntilSettled(w, ds)) == DeliverAll(w, ds)
    ensures NoneAfterSettled(w, UntilSettled(w, ds))
    decreases |ds|
  {
    if ds != [] {
      var d, rest := ds[0], ds[1..];
      if d.FromEquipment? && d.message.id in w.inbound {
        SettledCopiesCanBeDropped(w, rest);
      } else {
        var next := Deliver(w, d);
        SettledCopiesCanBeDropped(next, rest);
        SettledAreDropped(next, rest);
        assert UntilSettled(w, ds)[1..] == UntilSettled(next, rest);
      }
    }
  }

  // ----- A delivery that raised is forgotten -----

  lemma {:induction false} DeliverAllAppend(w: World, ds: seq<Delivery>, more: seq<Delivery>)
    ensures DeliverAll(w, ds + more) == DeliverAll(DeliverAll(w, ds), more)
    decreases |ds|
  {
    if ds == [] {
      assert ds + more == more;
    } else {
      assert (ds + more)[1..] == ds[1..] + more;
      DeliverAllAppend(Deliver(w, ds[0]), ds[1..], more);
    }
  }

  function Ids(ds: seq<Delivery>): set<string> {
    set d | d in ds && d.FromEquipment? :: d.message.id
  }

  lemma {:induction false} FirstCopiesAppend(ds: seq<Delivery>, more: seq<Delivery>, seen: set<string>)
    ensures FirstCopies(ds + more, seen) == FirstCopies(ds, seen) + FirstCopies(more, seen + Ids(ds))
    decreases |ds|
  {
    if ds == [] {
      assert ds + more == more && seen + Ids(ds) == seen;
    } else {
      var d, rest := ds[0], ds[1..];
      assert (ds + more)[1..] == rest + more;
      var known := if d.FromEquipment? then seen + {d.message.id} else seen;
      var head := if d.FromEquipment? && d.message.id in seen then [] else [d];
      FirstCopiesAppend(rest, more, known);
      IdsOfFirst(ds, seen);
      assert head == [] ==> known == seen;
      assert FirstCopies(ds, seen) == head + FirstCopies(rest, known);
      assert FirstCopies(ds + more, seen) == head + FirstCopies(rest + more, known);
    }
  }

  lemma IdsOfFirst(ds: seq<Delivery>, seen: set<string>)
    requires ds != []
    ensures seen + Ids(ds) == (if ds[0].FromEquipment? then seen + {ds[0].message.id} else seen) + Ids(ds[1..])
  {
    assert ds == [ds[0]] + ds[1..];
  }

  lemma {:induction false} SettledIdsAreKept(w: World, ds: seq<Delivery>)
    requires AllSettle(w, ds)
    ensures Ids(ds) + w.inbound.Keys <= DeliverAll(w, ds).inbound.Keys
    decreases |ds|
  {
    if ds != [] {
      DeliveryGrows(w, ds[0]);
      SettledIdsAreKept(Deliver(w, ds[0]), ds[1..]);
      assert ds == [ds[0]] + ds[1..];
    }
  }

  /** Where a sequence first raises: everything before settles. */
  lemma {:induction false} FirstRaise(w: World, ds: seq<Delivery>) returns (before: seq<Delivery>, m: Message)
    requires !AllSettle(w, ds)
    ensures AllSettle(w, before) && !Settles(DeliverAll(w, before), m)
    ensures MachinesOnly(ds) ==> MachinesOnly(before)
    decreases |ds|
  {
    if ds[0].FromEquipment? && !Settles(w, ds[0].message) {
      before, m := [], ds[0].message;
    } else {
      var rest;
      rest, m := FirstRaise(Deliver(w, ds[0]), ds[1..]);
      before := [ds[0]] + rest;
      assert before[1..] == rest;
    }
  }

  predicate MachinesOnly(ds: seq<Delivery>) {
    forall i | 0 <= i < |ds| :: ds[i].FromEquipment?
  }

  lemma TwoDeliveries(w: World, a: Message, b: Message)
    ensures DeliverAll(w, [FromEquipment(a)]) == ProcessEquipment(w, a)
    ensures DeliverAll(w, [FromEquipment(a), FromEquipment(b)]) == ProcessEquipment(ProcessEquipment(w, a), b)
  {
    var da, db := FromEquipment(a), FromEquipment(b);
    assert [da, db][1..] == [db] && [da][1..] == [] && [db][1..] == [];
    var next := ProcessEquipment(w, a);
    assert DeliverAll(next, [db]) == DeliverAll(ProcessEquipment(next, b), []);
  }

  lemma FirstOfTwo(a: Message, b: Message, seen: set<string>)
    requires a.id == b.id && a.id !in seen
    ensures FirstCopies([FromEquipment(a), FromEquipment(b)], seen) == [FromEquipment(a)]
  {
    var da, db := FromEquipment(a), FromEquipment(b);
    assert [da, db][1..] == [db] && [db][1..] == [];
    assert FirstCopies([db], seen + {a.id}) == FirstCopies([], seen + {a.id});
  }

  /** After a delivery that raised, a second copy counts although it is not a first one. */
  lemma RaisedCopyCounts(w: World, before: seq<Delivery>, m: Message) returns (ds: seq<Delivery>)
    requires AllSettle(w, before) && !Settles(DeliverAll(w, before), m)
    ensures DeliverAll(w, ds) != DeliverAll(w, FirstCopies(ds))
    ensures MachinesOnly(before) ==> MachinesOnly(ds)
  {
    var reached, copy := DeliverAll(w, before), m.(cleared := false);
    var both := [FromEquipment(m), FromEquipment(copy)];
    ds := before + both;
    SettlesExactlyWhenKnownOrFound(reached, m);
    TwoDeliveries(reached, m, copy);
    DeliverAllAppend(w, before, both);
    assert Settles(reached, copy) && DeliverAll(w, ds) == ProcessEquipment(reached, copy);
    SettledIdsAreKept(w, before);
    FirstCopiesAppend(before, both, {});
    FirstOfTwo(m, copy, {} + Ids(before));
    DeliverAllAppend(w, FirstCopies(before), [FromEquipment(m)]);
    FirstCopiesSufficeFrom(w, before, {});
  }

  // ----- Which worlds machine messages can bring to a failing lookup -----

  /** Two gates at a gated step, or two reworks of one code there. */
  ghost predicate Jams(route: seq<RouteStep>, u: Record, step: nat)
    requires step < |route|
  {
    (Gated(route[step]) && GatesAt(u.gates, step) > 1) || exists code :: ReworksFor(u.reworks, step, code) > 1
  }

  /**
   From step `k` on, machine events can work one unfinished step after another up to one whose lookup fails. Each must
   be its station's first; on a unit that is shut, as a gated completion leaves it, it must have work to send to rework.
   */
  ghost predicate CanFailFrom(route: seq<RouteStep>, u: Record, k: nat, shut: bool)
    decreases |route| - k
  {
    k < |route| &&
    if Done(u.log, k) then CanFailFrom(route, u, k + 1, shut)
    else
      && StepFor(route, route[k].station) == Some(k)
      && (shut ==> OffersRework(TypeOf(LatestAt(u.log, k))))
      && (Jams(route, u, k) || CanFailFrom(route, u, k + 1, Gated(route[k])))
  }

  ghost predicate CanFail(file: UnitFile) {
    CanFailFrom(file.route, file.record, 0, Shut(file.record))
  }

  ghost predicate Kept(file: UnitFile) {
    OnRoute(file.route, file.record.log) && NeverArrived(file.record.log)
  }

  ghost predicate AllKept(w: World) {
    forall unit | unit in w.units :: Kept(w.units[unit])
  }

  ghost predicate NoneCanFail(w: World) {
    forall unit | unit in w.units :: !CanFail(w.units[unit])
  }

  lemma {:induction false} FinishedStepsAreSkipped(route: seq<RouteStep>, u: Record, from: nat, to: nat, shut: bool)
    requires from <= to <= |route|
    requires forall j: nat | from <= j < to :: Done(u.log, j)
    ensures CanFailFrom(route, u, from, shut) == CanFailFrom(route, u, to, shut)
    decreases |route| - from
  {
    if from < to { FinishedStepsAreSkipped(route, u, from + 1, to, shut); }
  }

  /** Only what lies from the step on matters. */
  lemma {:induction false} LaterStepsDecide(route: seq<RouteStep>, u: Record, next: Record, k: nat, shut: bool)
    requires forall j: nat | k <= j < |route| :: LatestAt(next.log, j) == LatestAt(u.log, j)
    requires forall j: nat | k <= j < |route| :: Jams(route, next, j) == Jams(route, u, j)
    ensures CanFailFrom(route, next, k, shut) == CanFailFrom(route, u, k, shut)
    decreases |route| - k
  {
    if k < |route| {
      LaterStepsDecide(route, u, next, k + 1, shut);
      LaterStepsDecide(route, u, next, k + 1, Gated(route[k]));
    }
  }

  /** What decides at the current step. */
  lemma CurrentStepDecides(route: seq<RouteStep>, u: Record, shut: bool)
    ensures var c := CurrentStep(route, u.log);
            CanFailFrom(route, u, 0, shut) <==>
              && c < |route| && StepFor(route, route[c].station) == Some(c)
              && (shut ==> OffersRework(TypeOf(LatestAt(u.log, c))))
              && (Jams(route, u, c) || CanFailFrom(route, u, c + 1, Gated(route[c])))
  {
    FinishedStepsAreSkipped(route, u, 0, CurrentStep(route, u.log), shut);
  }

  /** What decides after something happened at the current step alone. */
  lemma AfterChangeAtCurrent(route: seq<RouteStep>, u: Record, next: Record, shut: bool)
    requires CurrentStep(route, u.log) < |route|
    requires forall j: nat | j != CurrentStep(route, u.log) :: LatestAt(next.log, j) == LatestAt(u.log, j)
    requires forall j: nat | j < |route| :: Jams(route, next, j) == Jams(route, u, j)
    ensures var c := CurrentStep(route, u.log);
            CanFailFrom(route, next, 0, shut) <==>
              if Done(next.log, c) then CanFailFrom(route, u, c + 1, shut)
              else
                && StepFor(route, route[c].station) == Some(c)
                && (shut ==> OffersRework(TypeOf(LatestAt(next.log, c))))
                && (Jams(route, u, c) || CanFailFrom(route, u, c + 1, Gated(route[c])))
  {
    var c := CurrentStep(route, u.log);
    assert forall j: nat | j < c :: Done(u.log, j) && LatestAt(next.log, j) == LatestAt(u.log, j);
    FinishedStepsAreSkipped(route, next, 0, c, shut);
    LaterStepsDecide(route, u, next, c + 1, shut);
    LaterStepsDecide(route, u, next, c + 1, Gated(route[c]));
  }

  /** What an event's effects do to the lookups: none starts to find two rows, and those of other steps stay. */
  lemma EffectsKeepLookups(route: seq<RouteStep>, u: Record, step: nat, etype: EventType, code: string)
    requires step < |route| && ApplyEffects(route, u, step, etype, code).Ok?
    ensures var next := ApplyEffects(route, u, step, etype, code).value;
            && (GatesAt(next.gates, step) > 1 <==> GatesAt(u.gates, step) > 1)
            && (forall j: nat | j != step :: GatesAt(next.gates, j) == GatesAt(u.gates, j))
            && (forall j: nat, c: string :: ReworksFor(next.reworks, j, c) > 1 <==> ReworksFor(u.reworks, j, c) > 1)
  {
    var next := ApplyEffects(route, u, step, etype, code).value;
    forall j: nat
      ensures GatesAt(next.gates, j) == GatesAt(u.gates, j) || (j == step && GatesAt(u.gates, step) == 0)
      ensures GatesAt(next.gates, j) <= GatesAt(u.gates, j) + 1
    {
      GatesAtAppend(u.gates, Gate(step, Pending, true), j);
    }
    forall j: nat, c: string
      ensures ReworksFor(next.reworks, j, c) > 1 <==> ReworksFor(u.reworks, j, c) > 1
    {
      ReworksForAppend(u.reworks, ReworkOrder(route[step].station, step, code, Open, None), j, c);
    }
  }

  lemma AcceptedKeepsJams(route: seq<RouteStep>, u: Record, q: Request)
    requires OnRoute(route, u.log) && RecordEvent(route, u, q).Ok?
    ensures forall j: nat | j < |route| :: Jams(route, RecordEvent(route, u, q).value, j) == Jams(route, u, j)
  {
    AcceptedRequestWrites(route, u, q);
    EffectsKeepLookups(route, u.(log := u.log + [Row(route, q)]), Row(route, q).step, q.etype, q.code);
  }

  lemma UnfailingAfterRow(route: seq<RouteStep>, u: Record, e: Event, next: Record)
    requires Wrote(route, u, e, next) && !CanFail(UnitFile(route, u))
    requires forall j: nat | j < |route| :: Jams(route, next, j) == Jams(route, u, j)
    requires e.etype.Completed? ==> (Shut(next) <==> Gated(route[e.step]))
    ensures !CanFail(UnitFile(route, next))
  {
    OtherStepsKeepLatest(u.log, e);
    AfterChangeAtCurrent(route, u, next, Shut(next));
    CurrentStepDecides(route, u, Shut(u));
    StationIsStepsOwn(route, e.station, e.step);
    if Done(next.log, e.step) { FinishedByCompletion(u.log, e); }
  }

  lemma AcceptedStaysKept(route: seq<RouteStep>, u: Record, q: Request)
    requires Kept(UnitFile(route, u)) && RecordEvent(route, u, q).Ok?
    ensures Kept(UnitFile(route, RecordEvent(route, u, q).value))
  {
    var next := RecordEvent(route, u, q).value;
    AcceptedRequestWrites(route, u, q);
    assert forall i | 0 <= i < |u.log| :: next.log[i] == u.log[i];
  }

  /** Machine events keep a unit that cannot fail one that cannot fail, at whatever times. */
  lemma AcceptedKeepsUnfailing(route: seq<RouteStep>, u: Record, q: Request)
    requires Kept(UnitFile(route, u)) && !CanFail(UnitFile(route, u)) && RecordEvent(route, u, q).Ok?
    ensures !CanFail(UnitFile(route, RecordEvent(route, u, q).value))
  {
    AcceptedRequestWrites(route, u, q);
    AcceptedKeepsJams(route, u, q);
    if q.etype.Completed? { PushEffects(route, u, Row(route, q), q.code); }
    UnfailingAfterRow(route, u, Row(route, q), RecordEvent(route, u, q).value);
  }

  lemma StationIsStepsOwn(route: seq<RouteStep>, station: nat, step: nat)
    requires StepFor(route, station) == Some(step)
    ensures step < |route| && StepFor(route, route[step].station) == Some(step)
  {}

  lemma OtherStepsKeepLatest(log: seq<Event>, e: Event)
    ensures forall j: nat | j != e.step :: LatestAt(log + [e], j) == LatestAt(log, j)
  {
    forall j: nat | j != e.step
      ensures LatestAt(log + [e], j) == LatestAt(log, j)
    {
      HistoryAppend(log, e, j);
    }
  }

  lemma FinishedByCompletion(log: seq<Event>, e: Event)
    requires !Done(log, e.step) && Done(log + [e], e.step)
    ensures e.etype.Completed?
  {
    if !e.etype.Completed? { UnfinishedStaysUnfinished(log, e, e.step); }
  }

  /** A unit that cannot fail meets no failing lookup now. */
  lemma UnfailingLookupIsFound(route: seq<RouteStep>, u: Record, q: Request)
    requires Kept(UnitFile(route, u)) && !CanFail(UnitFile(route, u))
    ensures !LookupFails(route, u, q)
  {
    if LookupFails(route, u, q) {
      var c := CurrentStep(route, u.log);
      CurrentStepDecides(route, u, Shut(u));
      StationIsStepsOwn(route, q.station, c);
      StationAndStepHistoriesAgree(route, u.log, q.station, c);
      assert Jams(route, u, c);
    }
  }

  lemma MachineKeepsUnfailing(w: World, m: Message)
    requires AllKept(w) && NoneCanFail(w)
    ensures Settles(w, m) && AllKept(ProcessEquipment(w, m)) && NoneCanFail(ProcessEquipment(w, m))
  {
    SettlesExactlyWhenKnownOrFound(w, m);
    if m.unit in w.units {
      var file, q := w.units[m.unit], RequestOf(m, Equipment);
      UnfailingLookupIsFound(file.route, file.record, q);
      if RecordEvent(file.route, file.record, q).Ok? {
        AcceptedStaysKept(file.route, file.record, q);
        AcceptedKeepsUnfailing(file.route, file.record, q);
      }
    }
  }

  lemma {:induction false} UnfailingWorldsSettle(w: World, ds: seq<Delivery>)
    requires AllKept(w) && NoneCanFail(w) && MachinesOnly(ds)
    ensures AllSettle(w, ds)
    decreases |ds|
  {
    if ds != [] {
      MachineKeepsUnfailing(w, ds[0].message);
      UnfailingWorldsSettle(Deliver(w, ds[0]), ds[1..]);
    }
  }

  // ----- Driving a unit into the failing lookup -----

  lemma {:induction false} UnusedId(ids: set<string>) returns (id: string)
    ensures id !in ids && forall other | other in ids :: |other| < |id|
    decreases ids
  {
    if ids == {} {
      id := "";
    } else {
      var one :| one in ids;
      id := UnusedId(ids - {one});
      if |id| <= |one| { id := one + "x"; }
    }
  }

  /** The event to send next: the one whose lookup fails if it is on offer, else a push under a code no rework carries. */
  lemma NextToFail(route: seq<RouteStep>, u: Record) returns (q: Request)
    requires Kept(UnitFile(route, u)) && CanFail(UnitFile(route, u))
    ensures q.cleared && CurrentStep(route, u.log) < |route| && q.station == route[CurrentStep(route, u.log)].station
    ensures InOrder(u.log, CurrentStep(route, u.log), q.at)
    ensures CanPush(route, u)
    ensures LookupFails(route, u, q)
            || (q.etype == PushFor(route, u) && LookupIsSingle(route, u, CurrentStep(route, u.log), q.etype, q.code)
                && (q.etype.Completed? ==> !Jams(route, u, CurrentStep(route, u.log))))
  {
    var c := CurrentStep(route, u.log);
    var last := TypeOf(LatestAt(u.log, c));
    CurrentStepDecides(route, u, Shut(u));
    var unused := UnusedCode(u.reworks, c);
    HorizonIsInOrder(u.log, c);
    StationAndStepHistoriesAgree(route, u.log, route[c].station, c);
    LatestIsNotArrived(u.log, c);
    if EventType.ReworkOut in AvailableActions(last) && exists code :: ReworksFor(u.reworks, c, code) > 1 {
      var code :| ReworksFor(u.reworks, c, code) > 1;
      q := Request(route[c].station, EventType.ReworkOut, Horizon(u.log), code, true, Equipment, "");
    } else {
      PushIsOnOffer(Shut(u), last);
      q := Request(route[c].station, PushFor(route, u), Horizon(u.log), unused, true, Equipment, "");
      assert q.etype.Completed? ==> !Shut(u) && EventType.ReworkOut in AvailableActions(last);
    }
  }

  /** After a recorded push towards it, the unit can still fail. */
  lemma PushKeepsFailing(route: seq<RouteStep>, u: Record, q: Request, next: Record)
    requires CanFail(UnitFile(route, u)) && Pushed(route, u, q, next)
    requires forall j: nat | j < |route| :: Jams(route, next, j) == Jams(route, u, j)
    requires q.etype.Completed? ==> !Jams(route, u, CurrentStep(route, u.log))
    ensures CanFail(UnitFile(route, next))
  {
    var c := CurrentStep(route, u.log);
    CurrentStepDecides(route, u, Shut(u));
    AfterChangeAtCurrent(route, u, next, Shut(next));
    if q.etype.Completed? {
      assert Done(next.log, c) && Shut(next) == Gated(route[c]);
    } else {
      assert q.etype.ReworkOut? ==> EventType.ReworkIn in AvailableActions(Some(q.etype));
      assert !Done(next.log, c) && TypeOf(LatestAt(next.log, c)) == Some(q.etype);
    }
  }

  lemma NextStillFails(route: seq<RouteStep>, u: Record, q: Request)
    requires Kept(UnitFile(route, u)) && CanFail(UnitFile(route, u)) && CanPush(route, u) && Pushes(route, u, q)
    requires RecordEvent(route, u, q).Ok? && (q.etype.Completed? ==> !Jams(route, u, CurrentStep(route, u.log)))
    ensures Kept(UnitFile(route, RecordEvent(route, u, q).value)) && CanFail(UnitFile(route, RecordEvent(route, u, q).value))
    ensures Work(route, RecordEvent(route, u, q).value) < Work(route, u)
  {
    var next := RecordEvent(route, u, q).value;
    PushMoves(route, u, q);
    PushShortens(route, u, q, next);
    AcceptedKeepsJams(route, u, q);
    PushKeepsFailing(route, u, q, next);
  }

  lemma MachineDelivers(w: World, m: Message)
    requires m.id !in w.inbound && m.unit in w.units && m.cleared
    requires RecordEvent(w.units[m.unit].route, w.units[m.unit].record, RequestOf(m, Equipment)).Ok?
    ensures m.unit in ProcessEquipment(w, m).units && m.id in ProcessEquipment(w, m).inbound
    ensures var file := w.units[m.unit];
            ProcessEquipment(w, m).units[m.unit]
            == file.(record := RecordEvent(file.route, file.record, RequestOf(m, Equipment)).value)
  {}

  function MessageFrom(id: string, unit: string, q: Request): Message {
    Message(id, unit, q.station, q.etype, q.at, q.code, q.cleared)
  }

  /** The source and reference of a request decide nothing. */
  lemma SourceDecidesNothing(route: seq<RouteStep>, u: Record, q: Request, other: Request)
    requires other == q.(source := other.source, reference := other.reference)
    ensures LookupFails(route, u, other) == LookupFails(route, u, q)
    ensures Pushes(route, u, other) == Pushes(route, u, q)
  {}

  lemma SettledBefore(w: World, m: Message, rest: seq<Delivery>)
    requires Settles(w, m) && AllSettle(ProcessEquipment(w, m), rest) && MachinesOnly(rest)
    ensures AllSettle(w, [FromEquipment(m)] + rest) && MachinesOnly([FromEquipment(m)] + rest)
    ensures DeliverAll(w, [FromEquipment(m)] + rest) == DeliverAll(ProcessEquipment(w, m), rest)
  {
    assert ([FromEquipment(m)] + rest)[1..] == rest;
  }

  /** Machine messages that bring the unit to a failing lookup. */
  lemma {:induction false} DriveToFailure(w: World, unit: string) returns (ds: seq<Delivery>, m: Message)
    requires unit in w.units && Kept(w.units[unit]) && CanFail(w.units[unit])
    ensures MachinesOnly(ds) && AllSettle(w, ds) && !Settles(DeliverAll(w, ds), m)
    decreases Work(w.units[unit].route, w.units[unit].record)
  {
    var route, u := w.units[unit].route, w.units[unit].record;
    var q := NextToFail(route, u);
    var id := UnusedId(w.inbound.Keys);
    var first := MessageFrom(id, unit, q);
    var asked := RequestOf(first, Equipment);
    SourceDecidesNothing(route, u, q, asked);
    SettlesExactlyWhenKnownOrFound(w, first);
    if LookupFails(route, u, q) {
      ds, m := [], first;
    } else {
      PushIsRecorded(route, u, asked);
      NextStillFails(route, u, asked);
      MachineDelivers(w, first);
      var next := ProcessEquipment(w, first);
      var rest;
      rest, m := DriveToFailure(next, unit);
      ds := [FromEquipment(first)] + rest;
      SettledBefore(w, first, rest);
    }
  }

  /**
   First copies suffice for every sequence of machine messages exactly when no unit of the world can be brought to a
   failing lookup by machine events.
   */
  lemma FirstCopiesSufficeExactlyWhenNoneCanFail(w: World)
    requires AllKept(w)
    ensures (forall ds | MachinesOnly(ds) :: DeliverAll(w, ds) == DeliverAll(w, FirstCopies(ds))) <==> NoneCanFail(w)
  {
    if NoneCanFail(w) {
      forall ds | MachinesOnly(ds)
        ensures DeliverAll(w, ds) == DeliverAll(w, FirstCopies(ds))
      {
        UnfailingWorldsSettle(w, ds);
        FirstCopiesSuffice(w, ds);
      }
    } else {
      var unit :| unit in w.units && CanFail(w.units[unit]);
      var before, m := DriveToFailure(w, unit);
      var ds := RaisedCopyCounts(w, before, m);
    }
  }

  /** Among any other deliveries, they suffice exactly when no deliveries lead to an unknown message whose lookup fails. */
  lemma FirstCopiesSufficeExactlyWhenNothingFails(w: World)
    ensures (forall ds :: DeliverAll(w, ds) == DeliverAll(w, FirstCopies(ds)))
            <==> forall ds, m: Message | m.id !in DeliverAll(w, ds).inbound :: !MessageFails(DeliverAll(w, ds), m)
  {
    if forall ds, m: Message | m.id !in DeliverAll(w, ds).inbound :: !MessageFails(DeliverAll(w, ds), m) {
      forall ds
        ensures DeliverAll(w, ds) == DeliverAll(w, FirstCopies(ds))
      {
        if !AllSettle(w, ds) {
          var before, m := FirstRaise(w, ds);
          SettlesExactlyWhenKnownOrFound(DeliverAll(w, before), m);
        }
        FirstCopiesSuffice(w, ds);
      }
    } else {
      var reaching, m: Message :| m.id !in DeliverAll(w, reaching).inbound && MessageFails(DeliverAll(w, reaching), m);
      SettlesExactlyWhenKnownOrFound(DeliverAll(w, reaching), m);
      var ds := SomeCopyCounts(w, reaching, m);
    }
  }

  lemma SomeCopyCounts(w: World, reaching: seq<Delivery>, m: Message) returns (ds: seq<Delivery>)
    requires !Settles(DeliverAll(w, reaching), m)
    ensures DeliverAll(w, ds) != DeliverAll(w, FirstCopies(ds))
  {
    if AllSettle(w, reaching) {
      ds := RaisedCopyCounts(w, reaching, m);
    } else {
      var before, first := FirstRaise(w, reaching);
      ds := RaisedCopyCounts(w, before, first);
    }
  }

  // ----- Worlds in which no lookup is ambiguous -----

  /** No lookup of a gate or rework can find two rows. */
  ghost predicate LookupsAreSafe(w: World) {
    forall u | u in w.units :: SingleRows(w.units[u].record)
  }

  ghost predicate SingleRows(u: Record) {
    && (forall step: nat :: GatesAt(u.gates, step) <= 1)
    && (forall step: nat, code: string :: ReworksFor(u.reworks, step, code) <= 1)
  }

  lemma RecordingKeepsSingleRows(route: seq<RouteStep>, u: Record, q: Request)
    requires SingleRows(u)
    ensures RecordEvent(route, u, q).Err? ==> !Raises(RecordEvent(route, u, q).error)
    ensures RecordEvent(route, u, q).Ok? ==> SingleRows(RecordEvent(route, u, q).value)
  {
    if RecordEvent(route, u, q).Ok? {
      var next := RecordEvent(route, u, q).value;
      forall step: nat
        ensures GatesAt(next.gates, step) <= 1
      {
        if next.gates != u.gates { GatesAtAppend(u.gates, next.gates[|u.gates|], step); }
      }
      forall step: nat, code: string
        ensures ReworksFor(next.reworks, step, code) <= 1
      {
        if next.reworks != u.reworks {
          assert next.reworks[..|u.reworks|] == u.reworks;
        }
      }
    }
  }

  lemma ProcessingKeepsLookupsSafe(w: World, m: Message)
    requires LookupsAreSafe(w)
    ensures LookupsAreSafe(ProcessEquipment(w, m))
    ensures m.id in ProcessEquipment(w, m).inbound
  {
    if m.unit in w.units {
      var file := w.units[m.unit];
      RecordingKeepsSingleRows(file.route, file.record, RequestOf(m, Equipment));
    }
  }

  /** Without ambiguous lookups every machine message settles. */
  lemma {:induction false} SafeLookupsSettle(w: World, ds: seq<Delivery>)
    requires LookupsAreSafe(w) && MachinesOnly(ds)
    ensures AllSettle(w, ds)
    decreases |ds|
  {
    if ds != [] {
      ProcessingKeepsLookupsSafe(w, ds[0].message);
      SafeLookupsSettle(ProcessEquipment(w, ds[0].message), ds[1..]);
    }
  }

  // ----- Worlds that deliveries reach -----

  ghost predicate AllStanding(w: World) {
    forall unit | unit in w.units :: Standing(w.units[unit].route, w.units[unit].record)
  }

  lemma RecordingKeepsStanding(w: World, m: Message, source: EventSource)
    requires AllStanding(w) && Recorded(w, m, source).Ok?
    ensures AllStanding(Recorded(w, m, source).value)
  {
    RecordKeepsStanding(w.units[m.unit].route, w.units[m.unit].record, RequestOf(m, source));
  }

  lemma DeliveryKeepsStanding(w: World, d: Delivery)
    requires AllStanding(w)
    ensures AllStanding(Deliver(w, d))
  {
    match d
    case FromEquipment(m) => if Recorded(w, m, Equipment).Ok? { RecordingKeepsStanding(w, m, Equipment); }
    case FromTerminal(m) => if Recorded(w, m, Api).Ok? { RecordingKeepsStanding(w, m, Api); }
    case SyncCapture(id) =>
      if id in w.captures && Recorded(w, w.captures[id].message.(id := id), Offline).Ok? {
        RecordingKeepsStanding(w, w.captures[id].message.(id := id), Offline);
      }
    case Operate(unit, op) =>
      if unit in w.units { StepKeepsStanding(w.units[unit].route, w.units[unit].record, op); }
  }

  lemma {:induction false} DeliveriesKeepStanding(w: World, ds: seq<Delivery>)
    requires AllStanding(w)
    ensures AllStanding(DeliverAll(w, ds)) && AllKept(DeliverAll(w, ds))
    decreases |ds|
  {
    if ds != [] {
      DeliveryKeepsStanding(w, ds[0]);
      DeliveriesKeepStanding(Deliver(w, ds[0]), ds[1..]);
    }
  }

  /** The exact condition decides every world that any deliveries reach from newly registered units. */
  lemma ReachedWorldNeedsFirstCopiesExactlyWhen(w: World, before: seq<Delivery>)
    requires forall unit | unit in w.units :: w.units[unit].record == FRESH
    ensures var reached := DeliverAll(w, before);
            (forall ds | MachinesOnly(ds) :: DeliverAll(reached, ds) == DeliverAll(reached, FirstCopies(ds)))
            <==> NoneCanFail(reached)
  {
    DeliveriesKeepStanding(w, before);
    FirstCopiesSufficeExactlyWhenNoneCanFail(DeliverAll(w, before));
  }

  // ----- A failing lookup is reachable -----

  /** The delivery that carries out an operation: events of the terminal without a reference, the rest by hand. */
  function Carried(unit: string, op: Op): Delivery {
    match op
    case Station(q) => FromTerminal(MessageFrom("", unit, q))
    case _ => Operate(unit, op)
  }

  function CarriedAll(unit: string, ops: seq<Op>): (ds: seq<Delivery>)
    ensures |ds| == |ops|
  {
    seq(|ops|, i requires 0 <= i < |ops| => Carried(unit, ops[i]))
  }

  lemma CarriedStep(w: World, unit: string, op: Op)
    requires unit in w.units && Plain(op)
    ensures var next, file := Deliver(w, Carried(unit, op)), w.units[unit];
            && next.inbound == w.inbound && unit in next.units
            && next.units[unit] == UnitFile(file.route, Step(file.route, file.record, op))
  {
    if op.Station? {
      assert RequestOf(MessageFrom("", unit, op.request), Api) == op.request;
    }
  }

  lemma {:induction false} CarriedRun(w: World, unit: string, ops: seq<Op>)
    requires unit in w.units && forall i | 0 <= i < |ops| :: Plain(ops[i])
    ensures var next, file := DeliverAll(w, CarriedAll(unit, ops)), w.units[unit];
            && next.inbound == w.inbound && unit in next.units
            && next.units[unit] == UnitFile(file.route, Run(file.route, file.record, ops))
    decreases |ops|
  {
    if ops != [] {
      CarriedStep(w, unit, ops[0]);
      assert CarriedAll(unit, ops)[1..] == CarriedAll(unit, ops[1..]);
      CarriedRun(Deliver(w, Carried(unit, ops[0])), unit, ops[1..]);
    }
  }

  const NEW_UNIT := World(map["u" := UnitFile(ONE_GATED_STEP, FRESH)], map[], map[])
  const COMPLETION := Message("m", "u", 7, EventType.Completed, 10, "d", true)

  /**
   Concrete deliveries: a unit is reworked, reinspected, passed at both gates and started again; then its completion,
   delivered twice by the machine, leaves no trace either time, though it is not rejected.
   */
  lemma FailingLookupIsReachable()
    ensures exists ds :: var w := DeliverAll(NEW_UNIT, ds);
              && MessageFails(w, COMPLETION) && COMPLETION.id !in w.inbound
              && ProcessEquipment(w, COMPLETION) == w && ProcessEquipment(ProcessEquipment(w, COMPLETION), COMPLETION) == w
  {
    var ops := RestartReaches();
    CarriedRun(NEW_UNIT, "u", ops);
    var w := DeliverAll(NEW_UNIT, CarriedAll("u", ops));
    assert w.units["u"].record == AT_9;
    SingleStepHistories(AT_9.log);
    FirstPendingIsUnique(1, AT_9.log, 0);
    GatesAtAppend([], Gate(0, Passed, true), 0);
    GatesAtAppend([Gate(0, Passed, true)], Gate(0, Passed, true), 0);
    assert AT_9.gates == [Gate(0, Passed, true)] + [Gate(0, Passed, true)];
    assert LookupFails(ONE_GATED_STEP, AT_9, RequestOf(COMPLETION, Equipment));
    SettlesExactlyWhenKnownOrFound(w, COMPLETION);
  }
}
