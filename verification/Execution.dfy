/**
 Execution of one serialized unit on a fixed route: station events, quality gates, rework
 orders and release decisions, as pure functions from a unit's record to its next record.

 Rows refer to each other by position: a step is its position among the active steps of the
 route in sequence order, a gate or a rework is its position in the unit's table, and an
 event's primary key is its position in the unit's log.
 */
module Execution {
  import opened Wrappers

  datatype UnitStatus = Registered | InProcess | QualityHold | Rework | Completed | Released | Archived

  datatype EventType = Arrived | Started | Paused | Resumed | Completed | Failed | ReworkOut | ReworkIn

  datatype EventSource = Manual | Api | Equipment | Offline

  /** Who wrote a row of the event log: a recording service, or the reinspection of a rework. */
  datatype Origin = Recorder | Reinspection

  datatype GateStatus = Pending | Passed | Failed | Waived

  datatype ReworkStatus = Open | InProgress | QaReview | Closed | Cancelled

  datatype Decision = Undecided | Approved | Rejected

  datatype RouteStep = RouteStep(station: nat, stationGate: bool, stepGate: bool)

  datatype Event = Event(station: nat, step: nat, etype: EventType, at: int,
                         origin: Origin, source: EventSource, reference: string)

  datatype Gate = Gate(step: nat, status: GateStatus, blocking: bool)

  datatype ReworkOrder = ReworkOrder(station: nat, step: nat, code: string, status: ReworkStatus, gate: Option<nat>)

  datatype Record = Record(status: UnitStatus, log: seq<Event>, gates: seq<Gate>, reworks: seq<ReworkOrder>)

  datatype Refusal =
    | NotCleared | NoActiveStep | NothingPending | NotCurrentStep | Held | InRework | AlreadyReleased
    | WrongAction | DuplicateGates | DuplicateReworks | NoSuchGate | InvalidVerdict | NoEvidence | NoNotes
    | NoSuchRework | ActionNotAvailable | OpenReworks | BlockingGates | Undocumented

  const FRESH := Record(UnitStatus.Registered, [], [], [])

  // ----- The event log -----

  /** The events of the log recorded against one step, in insertion order. */
  function History(log: seq<Event>, step: nat): seq<Event> {
    if log == [] then []
    else
      var last := log[|log| - 1];
      var earlier := History(log[..|log| - 1], step);
      if last.step == step then earlier + [last] else earlier
  }

  /** The events of the log recorded at one station, in insertion order. */
  function StationHistory(log: seq<Event>, station: nat): seq<Event> {
    if log == [] then []
    else
      var last := log[|log| - 1];
      var earlier := StationHistory(log[..|log| - 1], station);
      if last.station == station then earlier + [last] else earlier
  }

  /** The latest event: the one with the greatest time and, among those, the greatest key. */
  function Latest(events: seq<Event>): (latest: Option<Event>)
    ensures latest.None? <==> events == []
  {
    if events == [] then None
    else
      var last := events[|events| - 1];
      var earlier := Latest(events[..|events| - 1]);
      if earlier.Some? && last.at < earlier.value.at then earlier else Some(last)
  }

  function LatestAt(log: seq<Event>, step: nat): Option<Event> {
    Latest(History(log, step))
  }

  function TypeOf(event: Option<Event>): Option<EventType> {
    if event.Some? then Some(event.value.etype) else None
  }

  predicate Done(log: seq<Event>, step: nat) {
    TypeOf(LatestAt(log, step)) == Some(EventType.Completed)
  }

  // ----- The decisions of the recording services -----

  function AvailableActions(last: Option<EventType>): set<EventType> {
    match last
    case None => {EventType.Started}
    case Some(Started) => {EventType.Paused, EventType.Completed, EventType.Failed, EventType.ReworkOut}
    case Some(Resumed) => {EventType.Paused, EventType.Completed, EventType.Failed, EventType.ReworkOut}
    case Some(Paused) => {EventType.Resumed, EventType.ReworkOut}
    case Some(Failed) => {EventType.ReworkOut, EventType.Started}
    case Some(ReworkOut) => {EventType.ReworkIn}
    case Some(ReworkIn) => {EventType.Started}
    case Some(Arrived) => {}
    case Some(Completed) => {}
  }

  /** The first step, from `from` on, that works at the station. */
  function StepFor(route: seq<RouteStep>, station: nat, from: nat := 0): (step: Option<nat>)
    requires from <= |route|
    ensures step.None? ==> forall i :: from <= i < |route| ==> route[i].station != station
    ensures step.Some? ==> from <= step.value < |route| && route[step.value].station == station
                           && forall i :: from <= i < step.value ==> route[i].station != station
    decreases |route| - from
  {
    if from == |route| then None
    else if route[from].station == station then Some(from)
    else StepFor(route, station, from + 1)
  }

  /** The first step, from `from` on, whose latest event is not a completion; `steps` when there is none. */
  function FirstPending(steps: nat, log: seq<Event>, from: nat := 0): (step: nat)
    requires from <= steps
    ensures from <= step <= steps
    ensures forall i :: from <= i < step ==> Done(log, i)
    ensures step < steps ==> !Done(log, step)
    decreases steps - from
  {
    if from == steps || !Done(log, from) then from else FirstPending(steps, log, from + 1)
  }

  function CurrentStep(route: seq<RouteStep>, log: seq<Event>): nat {
    FirstPending(|route|, log)
  }

  predicate ReworkMove(etype: EventType) {
    etype.ReworkOut? || etype.ReworkIn?
  }

  /** Why the recording services may not write `etype` for `step` now, if they may not. */
  function StationEventIssue(route: seq<RouteStep>, u: Record, step: nat, etype: EventType): Option<Refusal> {
    var current := CurrentStep(route, u.log);
    if current == |route| then Some(NothingPending)
    else if current != step then Some(NotCurrentStep)
    else if ReworkMove(etype) then None
    else match u.status
      case QualityHold => Some(Held)
      case Rework => Some(InRework)
      case Released => Some(AlreadyReleased)
      case _ => None
  }

  // ----- Gates and reworks -----

  predicate Resolved(status: GateStatus) {
    status.Passed? || status.Waived?
  }

  predicate Blocks(g: Gate) {
    g.blocking && !Resolved(g.status)
  }

  predicate Blocked(gates: seq<Gate>) {
    exists g :: 0 <= g < |gates| && Blocks(gates[g])
  }

  predicate Active(r: ReworkOrder) {
    !r.status.Closed? && !r.status.Cancelled?
  }

  predicate HasOpenRework(reworks: seq<ReworkOrder>) {
    exists r :: 0 <= r < |reworks| && Active(reworks[r])
  }

  predicate Gated(step: RouteStep) {
    step.stationGate || step.stepGate
  }

  function GatesAt(gates: seq<Gate>, step: nat): nat {
    if gates == [] then 0
    else GatesAt(gates[..|gates| - 1], step) + if gates[|gates| - 1].step == step then 1 else 0
  }

  function ReworksFor(reworks: seq<ReworkOrder>, step: nat, code: string): nat {
    if reworks == [] then 0
    else
      var last := reworks[|reworks| - 1];
      ReworksFor(reworks[..|reworks| - 1], step, code) + if last.step == step && last.code == code then 1 else 0
  }

  /** What an accepted event does to the unit: its status, and the gate or rework it may open. */
  function ApplyEffects(route: seq<RouteStep>, u: Record, step: nat, etype: EventType, code: string)
    : Result<Record, Refusal>
    requires step < |route|
  {
    match etype
    case Arrived => Ok(u)
    case Started => Ok(u.(status := InProcess))
    case Paused => Ok(u.(status := InProcess))
    case Resumed => Ok(u.(status := InProcess))
    case ReworkIn => Ok(u.(status := InProcess))
    case Completed =>
      if Gated(route[step]) then
        if GatesAt(u.gates, step) == 0 then
          Ok(u.(gates := u.gates + [Gate(step, Pending, true)], status := QualityHold))
        else if GatesAt(u.gates, step) == 1 then Ok(u.(status := QualityHold))
        else Err(DuplicateGates)
      else if step + 1 == |route| then Ok(u.(status := UnitStatus.Completed))
      else Ok(u.(status := InProcess))
    case Failed => Ok(u.(status := QualityHold))
    case ReworkOut =>
      if ReworksFor(u.reworks, step, code) == 0 then
        Ok(u.(reworks := u.reworks + [ReworkOrder(route[step].station, step, code, Open, None)], status := Rework))
      else if ReworksFor(u.reworks, step, code) == 1 then Ok(u.(status := Rework))
      else Err(DuplicateReworks)
  }

  /** What a terminal, a machine or an offline capture asks to record. */
  datatype Request = Request(station: nat, etype: EventType, at: int, code: string,
                             cleared: bool, source: EventSource, reference: string)

  function RecordEvent(route: seq<RouteStep>, u: Record, q: Request): Result<Record, Refusal> {
    if !q.cleared then Err(NotCleared)
    else
      var step := StepFor(route, q.station);
      if step.None? then Err(NoActiveStep)
      else
        var issue := StationEventIssue(route, u, step.value, q.etype);
        if issue.Some? then Err(issue.value)
        else if q.etype !in AvailableActions(TypeOf(Latest(StationHistory(u.log, q.station)))) then Err(WrongAction)
        else
          var event := Event(q.station, step.value, q.etype, q.at, Recorder, q.source, q.reference);
          ApplyEffects(route, u.(log := u.log + [event]), step.value, q.etype, q.code)
  }

  // ----- Quality review -----

  predicate Reinspects(r: ReworkOrder, gate: nat) {
    Active(r) && r.gate == Some(gate)
  }

  predicate UnderReinspection(reworks: seq<ReworkOrder>, gate: nat) {
    exists r :: 0 <= r < |reworks| && Reinspects(reworks[r], gate)
  }

  /** The live reworks a gate reinspects follow its verdict. */
  function SyncReworks(reworks: seq<ReworkOrder>, gate: nat, verdict: GateStatus): (synced: seq<ReworkOrder>)
    ensures |synced| == |reworks|
    ensures forall i :: 0 <= i < |reworks| ==> synced[i] == SyncRework(reworks[i], gate, verdict)
  {
    seq(|reworks|, i requires 0 <= i < |reworks| => SyncRework(reworks[i], gate, verdict))
  }

  function SyncRework(r: ReworkOrder, gate: nat, verdict: GateStatus): ReworkOrder {
    if !Reinspects(r, gate) then r
    else match verdict
      case Passed => r.(status := Closed)
      case Waived => r.(status := Closed)
      case Failed => r.(status := InProgress)
      case Pending => r
  }

  /** The status of a unit with nothing left against it, seen from the step just resolved. */
  function StatusBeyond(route: seq<RouteStep>, step: nat): UnitStatus {
    if step + 1 < |route| then InProcess else UnitStatus.Completed
  }

  function ApplyVerdict(route: seq<RouteStep>, u: Record, gate: nat): Record
    requires gate < |u.gates|
  {
    var verdict := u.gates[gate].status;
    if u.status.Released? || verdict.Pending? then u
    else
      var reworks := SyncReworks(u.reworks, gate, verdict);
      if verdict.Failed? then
        u.(reworks := reworks, status := if UnderReinspection(u.reworks, gate) then Rework else QualityHold)
      else if Blocked(u.gates) || HasOpenRework(reworks) then u.(reworks := reworks)
      else u.(reworks := reworks, status := StatusBeyond(route, u.gates[gate].step))
  }

  function ReviewGate(route: seq<RouteStep>, u: Record, gate: nat, verdict: GateStatus, evidence: bool, notes: bool)
    : Result<Record, Refusal>
  {
    if verdict.Pending? then Err(InvalidVerdict)
    else if !evidence then Err(NoEvidence)
    else if !verdict.Passed? && !notes then Err(NoNotes)
    else if gate >= |u.gates| then Err(NoSuchGate)
    else Ok(ApplyVerdict(route, u.(gates := u.gates[gate := u.gates[gate].(status := verdict)]), gate))
  }

  // ----- Rework orders -----

  datatype ReworkAction = Start | SendToReview(at: int) | Close | Cancel

  predicate ActionAvailable(status: ReworkStatus, action: ReworkAction) {
    match status
    case Open => true
    case InProgress => !action.Start?
    case QaReview => action.Close? || action.Cancel?
    case Closed => false
    case Cancelled => false
  }

  function Resolve(route: seq<RouteStep>, u: Record, step: nat): Record {
    if u.status.Released? then u
    else if Blocked(u.gates) then u.(status := QualityHold)
    else if HasOpenRework(u.reworks) then u.(status := Rework)
    else u.(status := StatusBeyond(route, step))
  }

  function SendForReinspection(u: Record, rework: nat, at: int): Record
    requires rework < |u.reworks|
  {
    var r := u.reworks[rework];
    var gates := if r.gate.None? then u.gates + [Gate(r.step, Pending, true)] else u.gates;
    var gate := if r.gate.None? then Some(|u.gates|) else r.gate;
    var event := Event(r.station, r.step, EventType.ReworkIn, at, Reinspection, Manual, "");
    Record(QualityHold, u.log + [event], gates,
           u.reworks[rework := r.(status := QaReview, gate := gate)])
  }

  function ManageRework(route: seq<RouteStep>, u: Record, rework: nat, action: ReworkAction): Result<Record, Refusal> {
    if rework >= |u.reworks| then Err(NoSuchRework)
    else
      var r := u.reworks[rework];
      if !ActionAvailable(r.status, action) then Err(ActionNotAvailable)
      else match action
        case Start => Ok(u.(reworks := u.reworks[rework := r.(status := InProgress)], status := Rework))
        case SendToReview(at) => Ok(SendForReinspection(u, rework, at))
        case Close => Ok(Resolve(route, u.(reworks := u.reworks[rework := r.(status := Closed)]), r.step))
        case Cancel => Ok(Resolve(route, u.(reworks := u.reworks[rework := r.(status := Cancelled)]), r.step))
  }

  // ----- Release -----

  /** Whether an approval is accepted; `documented` says that no component or measurement issue is left. */
  function ApprovalIssue(u: Record, documented: bool): Option<Refusal> {
    if HasOpenRework(u.reworks) then Some(OpenReworks)
    else if Blocked(u.gates) then Some(BlockingGates)
    else if !documented then Some(Undocumented)
    else None
  }

  function Decide(u: Record, decision: Decision, documented: bool): Result<Record, Refusal> {
    match decision
    case Approved =>
      var issue := ApprovalIssue(u, documented);
      if issue.Some? then Err(issue.value) else Ok(u.(status := UnitStatus.Released))
    case Rejected => Ok(if u.status.Released? then u else u.(status := QualityHold))
    case Undecided => Ok(u)
  }

  // ----- Runs -----

  datatype Op =
    | Station(request: Request)
    | Review(gate: nat, verdict: GateStatus, evidence: bool, notes: bool)
    | Manage(rework: nat, action: ReworkAction)
    | Release(decision: Decision, documented: bool)

  function Attempt(route: seq<RouteStep>, u: Record, op: Op): Result<Record, Refusal> {
    match op
    case Station(q) => RecordEvent(route, u, q)
    case Review(gate, verdict, evidence, notes) => ReviewGate(route, u, gate, verdict, evidence, notes)
    case Manage(rework, action) => ManageRework(route, u, rework, action)
    case Release(decision, documented) => Decide(u, decision, documented)
  }

  /** A refused operation leaves the unit as it was: each service is one transaction. */
  function Step(route: seq<RouteStep>, u: Record, op: Op): Record {
    var next := Attempt(route, u, op);
    if next.Ok? then next.value else u
  }

  function Run(route: seq<RouteStep>, u: Record, ops: seq<Op>): Record
    decreases |ops|
  {
    if ops == [] then u
    else Run(route, Step(route, u, ops[0]), ops[1..])
  }
}
