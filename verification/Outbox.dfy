/**
 The Connect outbox: one message per contract and event, delivered by repeated flushes with bounded,
 growing retries, as functions from the queue to the next queue.
 */
module Outbox {
  import opened Wrappers
  import opened Lexical

  datatype Direction = Outbound | Inbound | Bidirectional

  datatype MessageStatus = Queued | Sent | Failed | Discarded

  datatype Connector = Connector(direction: Direction, maxAttempts: nat, backoff: nat, active: bool)

  datatype Contract = Contract(code: string, connector: nat, direction: Direction, active: bool, eventType: Option<nat>)

  datatype DomainEvent = DomainEvent(key: string, etype: nat, day: int)

  datatype Message = Message(key: string, connector: nat, contract: string, event: string,
                             status: MessageStatus, attempts: nat, nextAttempt: Option<int>)

  /** One use of the transport, as the outside world sees it. */
  datatype Call = Call(message: nat, at: int, ok: bool)

  /** Connectors, contracts and the event history, fixed while messages come and go. */
  datatype Config = Config(connectors: seq<Connector>, contracts: seq<Contract>, events: seq<DomainEvent>)

  datatype Outbox = Outbox(messages: seq<Message>, calls: seq<Call>)

  const EMPTY := Outbox([], [])

  predicate Sends(c: Connector) {
    c.direction.Outbound? || c.direction.Bidirectional?
  }

  function BackoffFor(c: Connector, attempt: nat): nat {
    c.backoff * if attempt < 1 then 1 else attempt
  }

  predicate Live(m: Message) {
    m.status.Queued? || m.status.Failed?
  }

  predicate IsDue(m: Message, now: int) {
    m.nextAttempt.None? || m.nextAttempt.value <= now
  }

  // ----- Queueing -----

  function KeyFor(contract: Contract, event: DomainEvent): string {
    contract.code + [':'] + event.key
  }

  predicate HasKey(messages: seq<Message>, key: string) {
    exists i :: 0 <= i < |messages| && messages[i].key == key
  }

  /** The contract listens to the event and its connector may send. */
  predicate Listens(cfg: Config, contract: Contract, event: DomainEvent) {
    && contract.active && contract.direction.Outbound? && contract.eventType == Some(event.etype)
    && contract.connector < |cfg.connectors|
    && cfg.connectors[contract.connector].active && Sends(cfg.connectors[contract.connector])
  }

  function NewMessage(contract: Contract, event: DomainEvent): Message {
    Message(KeyFor(contract, event), contract.connector, contract.code, event.key, Queued, 0, None)
  }

  /** A message for every listening contract that has none yet for this event. */
  function QueueEvent(cfg: Config, messages: seq<Message>, event: DomainEvent, from: nat := 0): seq<Message>
    requires from <= |cfg.contracts|
    decreases |cfg.contracts| - from
  {
    if from == |cfg.contracts| then messages
    else
      var contract := cfg.contracts[from];
      var next :=
        if Listens(cfg, contract, event) && !HasKey(messages, KeyFor(contract, event))
        then messages + [NewMessage(contract, event)] else messages;
      QueueEvent(cfg, next, event, from + 1)
  }

  // ----- Sending -----

  /** One visit of the sender: when it looks, how long a failing send takes, and what the transport answers. */
  datatype Visit = Visit(now: int, latency: nat, ok: bool)

  /** The message after one attempt. */
  function Attempted(c: Connector, m: Message, v: Visit): Message {
    var attempts := m.attempts + 1;
    if v.ok then m.(attempts := attempts, status := Sent, nextAttempt := None)
    else if attempts >= c.maxAttempts then m.(attempts := attempts, status := Discarded, nextAttempt := None)
    else m.(attempts := attempts, status := Failed, nextAttempt := Some(v.now + v.latency + BackoffFor(c, attempts)))
  }

  datatype SendError = NoSuchMessage | AlreadySent | WasDiscarded

  function Send(cfg: Config, o: Outbox, i: nat, v: Visit): Result<Outbox, SendError> {
    if i >= |o.messages| || o.messages[i].connector >= |cfg.connectors| then Err(NoSuchMessage)
    else
      var m := o.messages[i];
      match m.status
      case Sent => Err(AlreadySent)
      case Discarded => Err(WasDiscarded)
      case _ =>
        Ok(Outbox(o.messages[i := Attempted(cfg.connectors[m.connector], m, v)], o.calls + [Call(i, v.now, v.ok)]))
  }

  /** Positions of the live messages, oldest first, of one connector or of all. */
  function LiveFrom(messages: seq<Message>, connector: Option<nat>, from: nat := 0): (ids: seq<nat>)
    requires from <= |messages|
    ensures forall i :: i in ids <==> from <= i < |messages| && Live(messages[i])
                                      && (connector.None? || messages[i].connector == connector.value)
    ensures forall a, b | 0 <= a < b < |ids| :: ids[a] < ids[b]
    ensures (forall i | from <= i < |messages| :: !Live(messages[i])) ==> ids == []
    decreases |messages| - from
  {
    if from == |messages| then []
    else
      var rest := LiveFrom(messages, connector, from + 1);
      assert forall b | 0 <= b < |rest| :: rest[b] in rest;
      if Live(messages[from]) && (connector.None? || messages[from].connector == connector.value)
      then [from] + rest else rest
  }

  datatype Flushed = Flushed(outbox: Outbox, sent: nat, failed: nat)

  /** The loop of a flush over the messages it selected, one visit each. */
  function FlushEach(cfg: Config, o: Outbox, ids: seq<nat>, visits: seq<Visit>): Flushed
    requires |ids| <= |visits|
    decreases |ids|
  {
    if ids == [] then Flushed(o, 0, 0)
    else
      var i, v := ids[0], visits[0];
      if i < |o.messages| && !IsDue(o.messages[i], v.now) then FlushEach(cfg, o, ids[1..], visits[1..])
      else
        var next := Send(cfg, o, i, v);
        if next.Err? then FlushEach(cfg, o, ids[1..], visits[1..])
        else
          var rest := FlushEach(cfg, next.value, ids[1..], visits[1..]);
          if v.ok then rest.(sent := rest.sent + 1) else rest.(failed := rest.failed + 1)
  }

  function Selected(messages: seq<Message>, limit: nat, connector: Option<nat>): (ids: seq<nat>)
    ensures |ids| <= limit
  {
    var live := LiveFrom(messages, connector);
    if |live| <= limit then live else live[..limit]
  }

  function Flush(cfg: Config, o: Outbox, limit: nat, connector: Option<nat>, visits: seq<Visit>): Flushed
    requires limit <= |visits|
  {
    FlushEach(cfg, o, Selected(o.messages, limit, connector), visits)
  }

  // ----- Reconciliation -----

  function ContractTypes(cfg: Config, connector: nat): set<nat> {
    set c | c in cfg.contracts && c.connector == connector && c.active && c.direction.Outbound? && c.eventType.Some?
      :: c.eventType.value
  }

  /** The keys of the events the connector's contracts cover in the period. */
  function Expected(cfg: Config, connector: nat, from: int, to: int): set<string> {
    set e | e in cfg.events && e.etype in ContractTypes(cfg, connector) && from <= e.day <= to :: e.key
  }

  predicate ForEvent(m: Message, connector: nat, key: string) {
    m.connector == connector && m.event == key
  }

  function SentKeys(messages: seq<Message>, connector: nat, expected: set<string>): set<string> {
    set m | m in messages && m.connector == connector && m.event in expected && m.status.Sent? :: m.event
  }

  function CountStatus(messages: seq<Message>, connector: nat, expected: set<string>, statuses: set<MessageStatus>): nat {
    if messages == [] then 0
    else
      var m := messages[|messages| - 1];
      CountStatus(messages[..|messages| - 1], connector, expected, statuses)
      + if m.connector == connector && m.event in expected && m.status in statuses then 1 else 0
  }

  const MISSING_LIMIT: nat := 200

  datatype ReconciliationRun = ReconciliationRun(expected: nat, queued: nat, sent: nat, failed: nat, missing: seq<string>)

  predicate IsLeast(s: set<string>, m: string) {
    m in s && forall x | x in s :: x == m || Less(m, x)
  }

  /** A string that comes first of all but itself, and a further one: the earlier of the two comes first of all. */
  lemma LeastOfOneMore(rest: set<string>, m: string, x: string) returns (least: string)
    requires IsLeast(rest, m) && x !in rest
    ensures IsLeast(rest + {x}, least)
  {
    LessIsTotal(x, m);
    if Less(m, x) {
      least := m;
    } else {
      least := x;
      forall y | y in rest && y != m
        ensures Less(x, y)
      {
        LessIsTransitive(x, m, y);
      }
    }
  }

  lemma {:induction false} LeastExists(s: set<string>) returns (least: string)
    requires s != {}
    ensures IsLeast(s, least)
    decreases |s|
  {
    least :| least in s;
    if s != {least} {
      var rest := s - {least};
      var m := LeastExists(rest);
      assert rest + {least} == s;
      least := LeastOfOneMore(rest, m, least);
    }
  }

  lemma LeastIsDefined(s: set<string>)
    requires s != {}
    ensures exists m :: IsLeast(s, m)
    ensures forall m, n | IsLeast(s, m) && IsLeast(s, n) :: m == n
  {
    var least := LeastExists(s);
    forall m, n | IsLeast(s, m) && IsLeast(s, n)
      ensures m == n
    {
      if m != n { LessIsAsymmetric(m, n); }
    }
  }

  function Least(s: set<string>): (m: string)
    requires s != {}
    ensures IsLeast(s, m)
  {
    LeastIsDefined(s);
    var m :| IsLeast(s, m);
    m
  }

  /** The keys in ascending text order. */
  function Sorted(s: set<string>): (keys: seq<string>)
    ensures |keys| == |s|
    ensures forall k :: k in keys <==> k in s
    ensures forall i, j | 0 <= i < j < |keys| :: Less(keys[i], keys[j])
    decreases |s|
  {
    if s == {} then []
    else
      var m := Least(s);
      [m] + Sorted(s - {m})
  }

  function Reconcile(cfg: Config, messages: seq<Message>, connector: nat, from: int, to: int): ReconciliationRun {
    var expected := Expected(cfg, connector, from, to);
    var sent := SentKeys(messages, connector, expected);
    var missing := Sorted(expected - sent);
    ReconciliationRun(|expected|,
                      CountStatus(messages, connector, expected, {Queued}),
                      |sent|,
                      CountStatus(messages, connector, expected, {Failed, Discarded}),
                      if |missing| <= MISSING_LIMIT then missing else missing[..MISSING_LIMIT])
  }

  function Gap(run: ReconciliationRun): nat {
    if run.expected > run.sent then run.expected - run.sent else 0
  }

  predicate IsClean(run: ReconciliationRun) {
    run.missing == [] && run.failed == 0
  }

  /** Queues again every event of the history whose key the run lists. */
  function Requeue(cfg: Config, messages: seq<Message>, keys: seq<string>, from: nat := 0): seq<Message>
    requires from <= |cfg.events|
    decreases |cfg.events| - from
  {
    if from == |cfg.events| then messages
    else
      var event := cfg.events[from];
      Requeue(cfg, if event.key in keys then QueueEvent(cfg, messages, event) else messages, keys, from + 1)
  }

  // ----- Runs -----

  datatype Op =
    | QueueOp(event: DomainEvent)
    | SendOp(message: nat, visit: Visit)
    | FlushOp(limit: nat, connector: Option<nat>, visits: seq<Visit>)
    | RequeueOp(keys: seq<string>)

  function Step(cfg: Config, o: Outbox, op: Op): Outbox {
    match op
    case QueueOp(event) => o.(messages := QueueEvent(cfg, o.messages, event))
    case SendOp(i, v) => var next := Send(cfg, o, i, v); if next.Ok? then next.value else o
    case FlushOp(limit, connector, visits) =>
      if limit <= |visits| then Flush(cfg, o, limit, connector, visits).outbox else o
    case RequeueOp(keys) => o.(messages := Requeue(cfg, o.messages, keys))
  }

  function Run(cfg: Config, o: Outbox, ops: seq<Op>): Outbox
    decreases |ops|
  {
    if ops == [] then o else Run(cfg, Step(cfg, o, ops[0]), ops[1..])
  }
}
