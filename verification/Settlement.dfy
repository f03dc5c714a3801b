/**
 What the tables of machine messages and offline captures say: over every interleaving, a message is PROCESSED and a
 capture SYNCED exactly when its one event is on file.
 */
module Settlement {
  import opened Wrappers
  import opened Execution
  import opened EventLog
  import opened HoldSafety
  import opened Intake

  // ----- Events on file -----

  /** Row i of the unit's log has the source and the reference. */
  predicate IsFiledAt(w: World, source: EventSource, reference: string, unit: string, i: nat) {
    && unit in w.units && i < |w.units[unit].record.log|
    && w.units[unit].record.log[i].source == source && w.units[unit].record.log[i].reference == reference
  }

  ghost predicate OnFile(w: World, source: EventSource, reference: string) {
    exists unit, i: nat :: IsFiledAt(w, source, reference, unit, i)
  }

  /** Exactly one row, of all units, has the source and the reference. */
  ghost predicate OnFileOnce(w: World, source: EventSource, reference: string) {
    exists unit, i: nat :: IsFiledOnlyAt(w, source, reference, unit, i)
  }

  ghost predicate IsFiledOnlyAt(w: World, source: EventSource, reference: string, unit: string, i: nat) {
    && IsFiledAt(w, source, reference, unit, i)
    && forall v, j: nat | IsFiledAt(w, source, reference, v, j) :: v == unit && j == i
  }

  /** No unit's log changed. */
  ghost predicate KeepsRows(w: World, next: World) {
    && w.units.Keys == next.units.Keys
    && forall unit | unit in w.units :: next.units[unit].record.log == w.units[unit].record.log
  }

  /** One row was added, to one unit. */
  ghost predicate AddsRow(w: World, next: World, unit: string, e: Event) {
    && w.units.Keys == next.units.Keys && unit in w.units
    && next.units[unit].record.log == w.units[unit].record.log + [e]
    && forall u | u in w.units && u != unit :: next.units[u].record.log == w.units[u].record.log
  }

  /** The same rows on file. */
  lemma {:induction false} SameRowsFiled(w: World, next: World, source: EventSource, reference: string)
    requires forall unit, i: nat :: IsFiledAt(next, source, reference, unit, i) <==> IsFiledAt(w, source, reference, unit, i)
    ensures OnFile(next, source, reference) <==> OnFile(w, source, reference)
    ensures OnFileOnce(next, source, reference) <==> OnFileOnce(w, source, reference)
  {
    forall unit, i: nat
      ensures IsFiledOnlyAt(next, source, reference, unit, i) <==> IsFiledOnlyAt(w, source, reference, unit, i)
    {}
  }

  lemma {:induction false} KeptRowsStayFiled(w: World, next: World, source: EventSource, reference: string)
    requires KeepsRows(w, next)
    ensures OnFile(next, source, reference) <==> OnFile(w, source, reference)
    ensures OnFileOnce(next, source, reference) <==> OnFileOnce(w, source, reference)
  {
    SameRowsFiled(w, next, source, reference);
  }

  lemma {:induction false} FiledAfterRow(w: World, next: World, unit: string, e: Event, source: EventSource,
                                         reference: string, u: string, i: nat)
    requires AddsRow(w, next, unit, e)
    ensures IsFiledAt(next, source, reference, u, i) <==>
              || IsFiledAt(w, source, reference, u, i)
              || (u == unit && i == |w.units[unit].record.log| && (e.source, e.reference) == (source, reference))
  {}

  lemma {:induction false} AddedRowIsFiled(w: World, next: World, unit: string, e: Event, source: EventSource,
                                           reference: string)
    requires AddsRow(w, next, unit, e)
    ensures (e.source, e.reference) != (source, reference) ==>
              && (OnFile(next, source, reference) <==> OnFile(w, source, reference))
              && (OnFileOnce(next, source, reference) <==> OnFileOnce(w, source, reference))
    ensures (e.source, e.reference) == (source, reference) && !OnFile(w, source, reference) ==>
              OnFileOnce(next, source, reference)
  {
    if (e.source, e.reference) != (source, reference) {
      OtherRowIsNotFiled(w, next, unit, e, source, reference);
    } else if !OnFile(w, source, reference) {
      FirstRowIsFiledOnce(w, next, unit, e);
    }
  }

  lemma {:induction false} OtherRowIsNotFiled(w: World, next: World, unit: string, e: Event, source: EventSource,
                                           reference: string)
    requires AddsRow(w, next, unit, e) && (e.source, e.reference) != (source, reference)
    ensures OnFile(next, source, reference) <==> OnFile(w, source, reference)
    ensures OnFileOnce(next, source, reference) <==> OnFileOnce(w, source, reference)
  {
    forall u, i: nat
      ensures IsFiledAt(next, source, reference, u, i) <==> IsFiledAt(w, source, reference, u, i)
    {
      FiledAfterRow(w, next, unit, e, source, reference, u, i);
    }
    SameRowsFiled(w, next, source, reference);
  }

  lemma {:induction false} FirstRowIsFiledOnce(w: World, next: World, unit: string, e: Event)
    requires AddsRow(w, next, unit, e) && !OnFile(w, e.source, e.reference)
    ensures OnFileOnce(next, e.source, e.reference)
  {
    var n := |w.units[unit].record.log|;
    FiledAfterRow(w, next, unit, e, e.source, e.reference, unit, n);
    forall v, j: nat | IsFiledAt(next, e.source, e.reference, v, j)
      ensures v == unit && j == n
    {
      FiledAfterRow(w, next, unit, e, e.source, e.reference, v, j);
    }
    assert IsFiledOnlyAt(next, e.source, e.reference, unit, n);
  }

  lemma {:induction false} OnceIsOnFile(w: World, source: EventSource, reference: string)
    ensures OnFileOnce(w, source, reference) ==> OnFile(w, source, reference)
    ensures OnFile(w, source, reference) <==> Filed(w, source, reference)
  {
    if Filed(w, source, reference) {
      var u :| u in w.units && FiledIn(w.units[u].record.log, source, reference);
      var i :| 0 <= i < |w.units[u].record.log| && w.units[u].record.log[i].source == source
               && w.units[u].record.log[i].reference == reference;
      assert IsFiledAt(w, source, reference, u, i);
    }
    if OnFileOnce(w, source, reference) {
      var u, i: nat :| IsFiledOnlyAt(w, source, reference, u, i);
      assert IsFiledAt(w, source, reference, u, i);
    }
    if u, i: nat :| IsFiledAt(w, source, reference, u, i) {
      assert FiledIn(w.units[u].record.log, source, reference);
    }
  }

  // ----- What the tables say -----

  /** A machine message is PROCESSED when its one event is on file and REJECTED when none is; others have no event. */
  ghost predicate MessagesTell(w: World) {
    && (forall id | id in w.inbound ::
          if w.inbound[id].Processed? then OnFileOnce(w, Equipment, id) else !OnFile(w, Equipment, id))
    && (forall id :: OnFile(w, Equipment, id) ==> id in w.inbound)
  }

  /** A capture is SYNCED when its one event is on file; others have no event. */
  ghost predicate CapturesTell(w: World) {
    && (forall id | id in w.captures ::
          if w.captures[id].status.Synced? then OnFileOnce(w, Offline, id) else !OnFile(w, Offline, id))
    && (forall id :: OnFile(w, Offline, id) ==> id in w.captures)
  }

  ghost predicate Tells(w: World) {
    MessagesTell(w) && CapturesTell(w)
  }

  lemma {:induction false} KeptRowsTell(w: World, next: World)
    requires KeepsRows(w, next)
    ensures MessagesTell(w) && next.inbound == w.inbound ==> MessagesTell(next)
    ensures CapturesTell(w) && next.captures == w.captures ==> CapturesTell(next)
  {
    forall source, id: string
      ensures OnFile(next, source, id) <==> OnFile(w, source, id)
      ensures OnFileOnce(next, source, id) <==> OnFileOnce(w, source, id)
    {
      KeptRowsStayFiled(w, next, source, id);
    }
  }

  /** A row of another source leaves both tables telling the truth. */
  lemma {:induction false} OtherRowTells(w: World, next: World, unit: string, e: Event)
    requires AddsRow(w, next, unit, e)
    ensures MessagesTell(w) && next.inbound == w.inbound && e.source != Equipment ==> MessagesTell(next)
    ensures CapturesTell(w) && next.captures == w.captures && e.source != Offline ==> CapturesTell(next)
  {
    forall source, id: string | e.source != source
      ensures OnFile(next, source, id) <==> OnFile(w, source, id)
      ensures OnFileOnce(next, source, id) <==> OnFileOnce(w, source, id)
    {
      AddedRowIsFiled(w, next, unit, e, source, id);
    }
  }

  lemma {:induction false} RecordedAddsRow(w: World, m: Message, source: EventSource)
    requires Recorded(w, m, source).Ok?
    ensures var file, next := w.units[m.unit], Recorded(w, m, source).value;
            && m.unit in w.units && StepFor(file.route, m.station).Some?
            && AddsRow(w, next, m.unit, Row(file.route, RequestOf(m, source)))
            && next.inbound == w.inbound && next.captures == w.captures
            && forall u | u in w.units && u != m.unit :: next.units[u] == w.units[u]
  {
    var file := w.units[m.unit];
    RecordingAppends(file.route, file.record, RequestOf(m, source));
  }

  lemma {:induction false} EquipmentTells(w: World, m: Message)
    requires Tells(w)
    ensures Tells(ProcessEquipment(w, m))
  {
    var next := ProcessEquipment(w, m);
    if m.id !in w.inbound {
      if Recorded(w, m, Equipment).Ok? {
        RecordedAddsRow(w, m, Equipment);
        var e := Row(w.units[m.unit].route, RequestOf(m, Equipment));
        OtherRowTells(w, next, m.unit, e);
        forall id
          ensures id != m.id ==> (OnFile(next, Equipment, id) <==> OnFile(w, Equipment, id))
          ensures id != m.id ==> (OnFileOnce(next, Equipment, id) <==> OnFileOnce(w, Equipment, id))
          ensures id == m.id ==> OnFileOnce(next, Equipment, id)
        {
          AddedRowIsFiled(w, next, m.unit, e, Equipment, id);
        }
      } else {
        KeptRowsTell(w, next);
        forall id
          ensures OnFile(next, Equipment, id) <==> OnFile(w, Equipment, id)
          ensures OnFileOnce(next, Equipment, id) <==> OnFileOnce(w, Equipment, id)
        {
          KeptRowsStayFiled(w, next, Equipment, id);
        }
      }
    }
  }

  lemma {:induction false} TerminalTells(w: World, m: Message)
    requires Tells(w)
    ensures Tells(ProcessTerminal(w, m))
  {
    if Recorded(w, m, Api).Ok? {
      RecordedAddsRow(w, m, Api);
      OtherRowTells(w, Recorded(w, m, Api).value, m.unit, Row(w.units[m.unit].route, RequestOf(m, Api)));
    }
  }

  lemma {:induction false} CaptureTells(w: World, id: string)
    requires Tells(w)
    ensures Tells(ProcessCapture(w, id))
  {
    var next := ProcessCapture(w, id);
    if id in w.captures && !w.captures[id].status.Synced? {
      var m := w.captures[id].message.(id := id);
      OnceIsOnFile(w, Offline, id);
      if Recorded(w, m, Offline).Ok? {
        RecordedAddsRow(w, m, Offline);
        var e := Row(w.units[m.unit].route, RequestOf(m, Offline));
        OtherRowTells(w, next, m.unit, e);
        forall other
          ensures other != id ==> (OnFile(next, Offline, other) <==> OnFile(w, Offline, other))
          ensures other != id ==> (OnFileOnce(next, Offline, other) <==> OnFileOnce(w, Offline, other))
          ensures other == id ==> OnFileOnce(next, Offline, other)
        {
          AddedRowIsFiled(w, next, m.unit, e, Offline, other);
        }
      } else {
        KeptRowsTell(w, next);
        forall other
          ensures OnFile(next, Offline, other) <==> OnFile(w, Offline, other)
          ensures OnFileOnce(next, Offline, other) <==> OnFileOnce(w, Offline, other)
        {
          KeptRowsStayFiled(w, next, Offline, other);
        }
      }
    }
  }

  lemma {:induction false} OperationTells(w: World, unit: string, op: Op)
    requires Tells(w)
    ensures Tells(OperateUnit(w, unit, op))
  {
    var next := OperateUnit(w, unit, op);
    if unit in w.units && !op.Station? {
      var log, after := w.units[unit].record.log, next.units[unit].record.log;
      OperationAppendsUnreferenced(w.units[unit].route, w.units[unit].record, op);
      if after == log {
        KeptRowsTell(w, next);
      } else {
        assert after == log + [after[|log|]];
        OtherRowTells(w, next, unit, after[|log|]);
      }
    }
  }

  lemma {:induction false} DeliveryTells(w: World, d: Delivery)
    requires Tells(w)
    ensures Tells(Deliver(w, d))
  {
    match d
    case FromEquipment(m) => EquipmentTells(w, m);
    case FromTerminal(m) => TerminalTells(w, m);
    case SyncCapture(id) => CaptureTells(w, id);
    case Operate(unit, op) => OperationTells(w, unit, op);
  }

  lemma {:induction false} DeliveriesTell(w: World, ds: seq<Delivery>)
    requires Tells(w)
    ensures Tells(DeliverAll(w, ds))
    decreases |ds|
  {
    if ds != [] {
      DeliveryTells(w, ds[0]);
      DeliveriesTell(Deliver(w, ds[0]), ds[1..]);
    }
  }

  /**
   Over every interleaving of deliveries and operations, from a world without machine messages and synced captures: a
   message's row is PROCESSED exactly when one event of its is on file and REJECTED exactly when none is, and a
   capture is SYNCED exactly when one event of its is on file, and none is otherwise.
   */
  lemma {:induction false} RowsTellWhatIsOnFile(w: World, ds: seq<Delivery>)
    requires w.inbound == map[] && forall id | id in w.captures :: !w.captures[id].status.Synced?
    requires forall id :: !OnFile(w, Equipment, id) && !OnFile(w, Offline, id)
    ensures var next := DeliverAll(w, ds);
            && (forall id | id in next.inbound ::
                  && (next.inbound[id] == Processed <==> OnFileOnce(next, Equipment, id))
                  && (next.inbound[id] == InboundStatus.Rejected <==> !OnFile(next, Equipment, id)))
            && (forall id | id in next.captures ::
                  && (next.captures[id].status == Synced <==> OnFileOnce(next, Offline, id))
                  && (next.captures[id].status != Synced <==> !OnFile(next, Offline, id)))
  {
    DeliveriesTell(w, ds);
    var next := DeliverAll(w, ds);
    forall id
      ensures OnFileOnce(next, Equipment, id) ==> OnFile(next, Equipment, id)
      ensures OnFileOnce(next, Offline, id) ==> OnFile(next, Offline, id)
    {
      OnceIsOnFile(next, Equipment, id);
      OnceIsOnFile(next, Offline, id);
    }
  }

  /** A new machine message adds its one event exactly when it settles as PROCESSED, and changes no unit otherwise. */
  lemma {:induction false} MessageAddsEventExactlyWhenProcessed(w: World, m: Message)
    requires m.id !in w.inbound
    ensures var next := ProcessEquipment(w, m);
            var settled := m.id in next.inbound;
            && (settled && next.inbound[m.id] == Processed <==> next.units != w.units)
            && (settled && next.inbound[m.id] == Processed ==>
                  exists e: Event :: (e.source, e.reference) == (Equipment, m.id) && AddsRow(w, next, m.unit, e))
            && (forall id | id != m.id :: id in next.inbound <==> id in w.inbound)
            && (forall id | id in w.inbound :: next.inbound[id] == w.inbound[id])
  {
    if Recorded(w, m, Equipment).Ok? {
      RecordedAddsRow(w, m, Equipment);
      var e := Row(w.units[m.unit].route, RequestOf(m, Equipment));
      assert AddsRow(w, ProcessEquipment(w, m), m.unit, e);
    }
  }

  /** A capture not yet synced is tried again whenever it is synced, whatever came of it before, and settles by the answer. */
  lemma {:induction false} CaptureSettlesByAnswer(w: World, id: string)
    requires CapturesTell(w) && id in w.captures && w.captures[id].status != Synced
    ensures var next, answer := ProcessCapture(w, id), Recorded(w, w.captures[id].message.(id := id), Offline);
            && id in next.captures
            && (next.captures[id].status == Synced <==> answer.Ok?)
            && (answer.Err? && !Raises(answer.error) ==>
                  next == w.(captures := w.captures[id := w.captures[id].(status := Refused)]))
            && (answer.Err? && Raises(answer.error) ==> next == w)
  {
    OnceIsOnFile(w, Offline, id);
  }
}
