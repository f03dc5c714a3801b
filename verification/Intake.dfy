/**
 Messages from machines, terminals and offline captures, over all units at once: each message takes
 effect at most once, however often and in whatever order it is delivered.
 */
module Intake {
  import opened Wrappers
  import opened Execution
  import opened EventLog
  import opened HoldSafety
  import opened RouteOrder

  datatype UnitFile = UnitFile(route: seq<RouteStep>, record: Record)

  datatype InboundStatus = Processed | Rejected

  datatype CaptureStatus = Waiting | Synced | Refused

  /** `cleared` stands for the checks on equipment, station, operator and qualification. */
  datatype Message = Message(id: string, unit: string, station: nat, etype: EventType, at: int, code: string, cleared: bool)

  datatype Capture = Capture(message: Message, status: CaptureStatus)

  datatype World = World(units: map<string, UnitFile>, inbound: map<string, InboundStatus>, captures: map<string, Capture>)

  datatype Delivery =
    | FromEquipment(message: Message)
    | FromTerminal(message: Message)
    | SyncCapture(id: string)
    | Operate(unit: string, op: Op)

  // ----- One recording, and its three callers -----

  function RequestOf(m: Message, source: EventSource): Request {
    Request(m.station, m.etype, m.at, m.code, m.cleared, source, m.id)
  }

  /** Errors the callers do not catch: the lookup of a gate or rework found two rows. */
  predicate Raises(refusal: Refusal) {
    refusal.DuplicateGates? || refusal.DuplicateReworks?
  }

  function Recorded(w: World, m: Message, source: EventSource): Result<World, Refusal> {
    if !m.cleared then Err(NotCleared)
    else if m.unit !in w.units then Err(NoActiveStep)
    else
      var file := w.units[m.unit];
      match RecordEvent(file.route, file.record, RequestOf(m, source))
      case Ok(next) => Ok(w.(units := w.units[m.unit := file.(record := next)]))
      case Err(refusal) => Err(refusal)
  }

  /** The message row and the event it causes are one transaction; an uncaught error leaves neither. */
  function ProcessEquipment(w: World, m: Message): World {
    if m.id in w.inbound then w
    else match Recorded(w, m, Equipment)
      case Ok(next) => next.(inbound := next.inbound[m.id := Processed])
      case Err(refusal) => if Raises(refusal) then w else w.(inbound := w.inbound[m.id := InboundStatus.Rejected])
  }

  predicate Filed(w: World, source: EventSource, reference: string) {
    exists u | u in w.units :: FiledIn(w.units[u].record.log, source, reference)
  }

  predicate FiledIn(log: seq<Event>, source: EventSource, reference: string) {
    exists i :: 0 <= i < |log| && log[i].source == source && log[i].reference == reference
  }

  /** A referenced event that is already on file is returned as it is. */
  function RecordReferenced(w: World, m: Message, source: EventSource): Result<World, Refusal> {
    if m.id != "" && Filed(w, source, m.id) then Ok(w) else Recorded(w, m, source)
  }

  function ProcessTerminal(w: World, m: Message): World {
    var next := RecordReferenced(w, m, Api);
    if next.Ok? then next.value else w
  }

  function ProcessCapture(w: World, id: string): World {
    if id !in w.captures || w.captures[id].status.Synced? then w
    else
      var capture := w.captures[id];
      match RecordReferenced(w, capture.message.(id := id), Offline)
      case Ok(next) => next.(captures := next.captures[id := capture.(status := Synced)])
      case Err(refusal) =>
        if Raises(refusal) then w else w.(captures := w.captures[id := capture.(status := Refused)])
  }

  /** Reviews, rework actions and release decisions on one unit. */
  function OperateUnit(w: World, unit: string, op: Op): World {
    if unit !in w.units || op.Station? then w
    else
      var file := w.units[unit];
      w.(units := w.units[unit := file.(record := Step(file.route, file.record, op))])
  }

  function Deliver(w: World, d: Delivery): World {
    match d
    case FromEquipment(m) => ProcessEquipment(w, m)
    case FromTerminal(m) => ProcessTerminal(w, m)
    case SyncCapture(id) => ProcessCapture(w, id)
    case Operate(unit, op) => OperateUnit(w, unit, op)
  }

  function DeliverAll(w: World, ds: seq<Delivery>): World
    decreases |ds|
  {
    if ds == [] then w else DeliverAll(Deliver(w, ds[0]), ds[1..])
  }

  // ----- Logs only grow -----

  predicate Grows(w: World, next: World) {
    && w.units.Keys == next.units.Keys
    && w.inbound.Keys <= next.inbound.Keys
    && forall u | u in w.units :: w.units[u].record.log <= next.units[u].record.log
  }

  lemma RecordingAppends(route: seq<RouteStep>, u: Record, q: Request)
    requires RecordEvent(route, u, q).Ok?
    ensures StepFor(route, q.station).Some?
    ensures RecordEvent(route, u, q).value.log == u.log + [Row(route, q)]
  {
  }

  lemma RecordingGrows(w: World, m: Message, source: EventSource)
    requires Recorded(w, m, source).Ok?
    ensures Grows(w, Recorded(w, m, source).value)
    ensures Recorded(w, m, source).value.inbound == w.inbound && Recorded(w, m, source).value.captures == w.captures
  {
    var file := w.units[m.unit];
    RecordingAppends(file.route, file.record, RequestOf(m, source));
  }

  /** A reinspection appends its one row, which carries no reference; other operations write none. */
  lemma OperationAppendsUnreferenced(route: seq<RouteStep>, u: Record, op: Op)
    requires !op.Station?
    ensures var next := Step(route, u, op);
            || next.log == u.log
            || (|next.log| == |u.log| + 1 && u.log <= next.log
                && next.log[|u.log|].source == Manual && next.log[|u.log|].reference == "")
  {
    if WritesNoRow(op) {
      OtherOperationsKeepRows(route, u, op);
    }
  }

  lemma EquipmentGrows(w: World, m: Message)
    ensures Grows(w, ProcessEquipment(w, m))
  {
    if Recorded(w, m, Equipment).Ok? { RecordingGrows(w, m, Equipment); }
  }

  lemma TerminalGrows(w: World, m: Message)
    ensures Grows(w, ProcessTerminal(w, m))
  {
    if Recorded(w, m, Api).Ok? { RecordingGrows(w, m, Api); }
  }

  lemma CaptureGrows(w: World, id: string)
    ensures Grows(w, ProcessCapture(w, id))
  {
    if id in w.captures {
      var m := w.captures[id].message.(id := id);
      if Recorded(w, m, Offline).Ok? { RecordingGrows(w, m, Offline); }
    }
  }

  lemma OperationGrows(w: World, unit: string, op: Op)
    ensures Grows(w, OperateUnit(w, unit, op))
  {
    if unit in w.units && !op.Station? {
      OperationAppendsUnreferenced(w.units[unit].route, w.units[unit].record, op);
    }
  }

  lemma DeliveryGrows(w: World, d: Delivery)
    ensures Grows(w, Deliver(w, d))
  {
    match d
    case FromEquipment(m) => EquipmentGrows(w, m);
    case FromTerminal(m) => TerminalGrows(w, m);
    case SyncCapture(id) => CaptureGrows(w, id);
    case Operate(unit, op) => OperationGrows(w, unit, op);
  }

  lemma {:induction false} DeliveriesGrow(w: World, ds: seq<Delivery>)
    ensures Grows(w, DeliverAll(w, ds))
    decreases |ds|
  {
    if ds != [] {
      DeliveryGrows(w, ds[0]);
      DeliveriesGrow(Deliver(w, ds[0]), ds[1..]);
    }
  }

  lemma FiledStaysFiled(w: World, next: World, source: EventSource, reference: string)
    requires Grows(w, next) && Filed(w, source, reference)
    ensures Filed(next, source, reference)
  {
    var u :| u in w.units && FiledIn(w.units[u].record.log, source, reference);
    var log, grown := w.units[u].record.log, next.units[u].record.log;
    var i :| 0 <= i < |log| && log[i].source == source && log[i].reference == reference;
    assert grown[i] == log[i];
  }

  /** Once a referenced terminal event is on file, delivering it again never changes anything. */
  lemma TerminalRedeliveryIsIdle(w: World, ds: seq<Delivery>, m: Message)
    requires m.id != "" && Filed(w, Api, m.id)
    ensures Deliver(DeliverAll(w, ds), FromTerminal(m)) == DeliverAll(w, ds)
  {
    DeliveriesGrow(w, ds);
    FiledStaysFiled(w, DeliverAll(w, ds), Api, m.id);
  }

  /** Once an offline capture's event is on file, syncing it again adds no event and touches no unit. */
  lemma CaptureRedeliveryIsIdle(w: World, ds: seq<Delivery>, id: string)
    requires id != "" && Filed(w, Offline, id)
    ensures Deliver(DeliverAll(w, ds), SyncCapture(id)).units == DeliverAll(w, ds).units
  {
    DeliveriesGrow(w, ds);
    FiledStaysFiled(w, DeliverAll(w, ds), Offline, id);
  }

  /** An accepted terminal event with a reference is on file afterwards. */
  lemma AcceptedTerminalEventIsFiled(w: World, m: Message, source: EventSource)
    requires m.id != "" && RecordReferenced(w, m, source).Ok?
    ensures Filed(RecordReferenced(w, m, source).value, source, m.id)
  {
    if !Filed(w, source, m.id) {
      var file := w.units[m.unit];
      RecordingAppends(file.route, file.record, RequestOf(m, source));
      var log := Recorded(w, m, source).value.units[m.unit].record.log;
      assert log[|log| - 1].source == source && log[|log| - 1].reference == m.id;
      assert FiledIn(log, source, m.id);
    }
  }

  /** A rejected delivery adds no station event and changes no unit. */
  lemma RejectedDeliveryTouchesNoUnit(w: World, m: Message, id: string)
    ensures Recorded(w, m, Equipment).Err? ==> Deliver(w, FromEquipment(m)).units == w.units
    ensures RecordReferenced(w, m, Api).Err? ==> Deliver(w, FromTerminal(m)) == w
    ensures id in w.captures && RecordReferenced(w, w.captures[id].message.(id := id), Offline).Err? ==>
              Deliver(w, SyncCapture(id)).units == w.units
  {
  }

  // ----- One event per source and reference -----

  predicate SameKey(a: Event, b: Event) {
    a.reference != "" && a.source == b.source && a.reference == b.reference
  }

  /** No two rows, of any units, share a source and a reference; a machine's row has its message on file. */
  ghost predicate UniqueReferences(w: World) {
    && (forall u, v, i, j | u in w.units && v in w.units
                            && 0 <= i < |w.units[u].record.log| && 0 <= j < |w.units[v].record.log|
                            && SameKey(w.units[u].record.log[i], w.units[v].record.log[j]) :: u == v && i == j)
    && (forall u, i | u in w.units && 0 <= i < |w.units[u].record.log| && w.units[u].record.log[i].source.Equipment? ::
          w.units[u].record.log[i].reference in w.inbound)
  }

  lemma NewRowKeepsReferencesUnique(w: World, unit: string, record: Record, inbound: map<string, InboundStatus>)
    requires UniqueReferences(w) && unit in w.units
    requires |record.log| == |w.units[unit].record.log| + 1 && w.units[unit].record.log <= record.log
    requires w.inbound.Keys <= inbound.Keys
    requires var row := record.log[|record.log| - 1];
             && (row.reference != "" ==> !Filed(w, row.source, row.reference))
             && (row.source.Equipment? ==> row.reference in inbound)
    ensures UniqueReferences(World(w.units[unit := w.units[unit].(record := record)], inbound, w.captures))
  {
    var next := World(w.units[unit := w.units[unit].(record := record)], inbound, w.captures);
    var n := |record.log| - 1;
    forall u, i | u in next.units && 0 <= i < |next.units[u].record.log|
      ensures (u == unit && i == n)
              || (i < |w.units[u].record.log| && next.units[u].record.log[i] == w.units[u].record.log[i])
    {
    }
    forall u, i | u in w.units && 0 <= i < |w.units[u].record.log|
      ensures !SameKey(w.units[u].record.log[i], record.log[n])
    {
      assert FiledIn(w.units[u].record.log, w.units[u].record.log[i].source, w.units[u].record.log[i].reference);
    }
  }

  lemma UnusedEquipmentIdIsNotFiled(w: World, id: string)
    requires UniqueReferences(w) && id !in w.inbound
    ensures !Filed(w, Equipment, id)
  {
  }

  lemma EquipmentKeepsReferencesUnique(w: World, m: Message)
    requires UniqueReferences(w)
    ensures UniqueReferences(ProcessEquipment(w, m))
  {
    if m.id !in w.inbound && Recorded(w, m, Equipment).Ok? {
      var file := w.units[m.unit];
      UnusedEquipmentIdIsNotFiled(w, m.id);
      RecordingAppends(file.route, file.record, RequestOf(m, Equipment));
      NewRowKeepsReferencesUnique(w, m.unit, RecordEvent(file.route, file.record, RequestOf(m, Equipment)).value,
                                  w.inbound[m.id := Processed]);
    }
  }

  lemma OperationKeepsReferencesUnique(w: World, unit: string, op: Op)
    requires UniqueReferences(w)
    ensures UniqueReferences(OperateUnit(w, unit, op))
  {
    if unit in w.units && !op.Station? {
      var file := w.units[unit];
      var next := Step(file.route, file.record, op);
      OperationAppendsUnreferenced(file.route, file.record, op);
      if next.log != file.record.log {
        NewRowKeepsReferencesUnique(w, unit, next, w.inbound);
      } else {
        SameRowsKeepReferencesUnique(w, unit, next);
      }
    }
  }

  lemma SameRowsKeepReferencesUnique(w: World, unit: string, record: Record)
    requires UniqueReferences(w) && unit in w.units && record.log == w.units[unit].record.log
    ensures UniqueReferences(w.(units := w.units[unit := w.units[unit].(record := record)]))
  {
    var next := w.(units := w.units[unit := w.units[unit].(record := record)]);
    assert forall u | u in next.units :: u in w.units && next.units[u].record.log == w.units[u].record.log;
  }

  lemma DeliveryKeepsReferencesUnique(w: World, d: Delivery)
    requires UniqueReferences(w)
    ensures UniqueReferences(Deliver(w, d))
  {
    match d
    case FromEquipment(m) => EquipmentKeepsReferencesUnique(w, m);
    case FromTerminal(m) => ReferencedRecordingKeepsUnique(w, m, Api);
    case SyncCapture(id) =>
      if id in w.captures {
        ReferencedRecordingKeepsUnique(w, w.captures[id].message.(id := id), Offline);
      }
    case Operate(unit, op) => OperationKeepsReferencesUnique(w, unit, op);
  }

  lemma ReferencedRecordingKeepsUnique(w: World, m: Message, source: EventSource)
    requires UniqueReferences(w) && !source.Equipment?
    ensures RecordReferenced(w, m, source).Ok? ==> UniqueReferences(RecordReferenced(w, m, source).value)
  {
    if RecordReferenced(w, m, source).Ok? && !(m.id != "" && Filed(w, source, m.id)) {
      var file := w.units[m.unit];
      RecordingAppends(file.route, file.record, RequestOf(m, source));
      NewRowKeepsReferencesUnique(w, m.unit, RecordEvent(file.route, file.record, RequestOf(m, source)).value, w.inbound);
    }
  }

  /** Over every interleaving of deliveries and operations, each (source, reference) has at most one event. */
  lemma {:induction false} ReferencesStayUnique(w: World, ds: seq<Delivery>)
    requires UniqueReferences(w)
    ensures UniqueReferences(DeliverAll(w, ds))
    decreases |ds|
  {
    if ds != [] {
      DeliveryKeepsReferencesUnique(w, ds[0]);
      ReferencesStayUnique(Deliver(w, ds[0]), ds[1..]);
    }
  }

  // ----- The desk that keeps the tables -----

  class IntakeDesk {
    var units: map<string, UnitFile>
    var inbound: map<string, InboundStatus>
    var captures: map<string, Capture>

    function Contents(): World
      reads this
    {
      World(units, inbound, captures)
    }

    constructor (units: map<string, UnitFile>, captures: map<string, Capture>)
      ensures Contents() == World(units, map[], captures)
    {
      this.units, inbound, this.captures := units, map[], captures;
    }

    /** Writes the event into its unit's record, or says why not. */
    method RecordFor(m: Message, source: EventSource) returns (refusal: Option<Refusal>)
      modifies this`units
      ensures refusal.None? ==> Recorded(old(Contents()), m, source) == Ok(Contents())
      ensures refusal.Some? ==> Recorded(old(Contents()), m, source) == Err(refusal.value)
                                && Contents() == old(Contents())
    {
      if !m.cleared { return Some(NotCleared); }
      if m.unit !in units { return Some(NoActiveStep); }
      var file := units[m.unit];
      var next := RecordEvent(file.route, file.record, RequestOf(m, source));
      if next.Err? { return Some(next.error); }
      units := units[m.unit := file.(record := next.value)];
      return None;
    }

    method RecordStationEvent(m: Message, source: EventSource) returns (refusal: Option<Refusal>)
      modifies this`units
      ensures refusal.None? ==> RecordReferenced(old(Contents()), m, source) == Ok(Contents())
      ensures refusal.Some? ==> RecordReferenced(old(Contents()), m, source) == Err(refusal.value)
                                && Contents() == old(Contents())
    {
      if m.id != "" && Filed(Contents(), source, m.id) { return None; }
      refusal := RecordFor(m, source);
    }

    /** The message row is written first and settled last; an uncaught error takes it back. */
    method ProcessEquipmentEvent(m: Message) returns (created: bool)
      modifies this
      ensures Contents() == ProcessEquipment(old(Contents()), m)
      ensures created <==> Contents().inbound != old(inbound)
    {
      if m.id in inbound { return false; }
      var before := inbound;
      inbound := inbound[m.id := Processed];
      var refusal := RecordFor(m, Equipment);
      if refusal.Some? {
        if Raises(refusal.value) {
          inbound := before;
          return false;
        }
        inbound := inbound[m.id := InboundStatus.Rejected];
      }
      assert m.id in inbound && m.id !in before;
      created := true;
    }

    method Sync(id: string) returns (refusal: Option<Refusal>)
      modifies this
      ensures Contents() == ProcessCapture(old(Contents()), id)
    {
      if id !in captures || captures[id].status == Synced { return None; }
      var capture := captures[id];
      refusal := RecordStationEvent(capture.message.(id := id), Offline);
      if refusal.None? {
        captures := captures[id := capture.(status := Synced)];
      } else if !Raises(refusal.value) {
        captures := captures[id := capture.(status := Refused)];
      }
    }
  }
}
