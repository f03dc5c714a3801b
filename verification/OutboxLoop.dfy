/** Reconciliation counts exactly what did not go out, and reconciling, requeueing and flushing closes the loop. */
module OutboxLoop {
  import opened Arithmetic
  import opened Wrappers
  import opened Lexical
  import opened Outbox
  import opened OutboxRetry

  /** Some event could make the contract queue a message. */
  predicate Speaks(cfg: Config, c: Contract) {
    c.eventType.Some? && Listens(cfg, c, DomainEvent("", c.eventType.value, 0))
  }

  /** Contract codes are unique, and so are event keys. */
  ghost predicate UniqueNames(cfg: Config) {
    && (forall c, d | c in cfg.contracts && d in cfg.contracts && c.code == d.code :: c == d)
    && (forall e, f | e in cfg.events && f in cfg.events && e.key == f.key :: e == f)
  }

  /** No speaking contract's code goes on, after a colon, where another's ends. */
  ghost predicate NoCodeExtends(cfg: Config) {
    forall c, d | c in cfg.contracts && d in cfg.contracts && Speaks(cfg, c) && Speaks(cfg, d) :: !GoesOn(d.code, c.code, ':')
  }

  ghost predicate WellKeyed(cfg: Config) {
    UniqueNames(cfg) && NoCodeExtends(cfg)
  }

  /** Codes without a colon are well keyed. */
  lemma ColonFreeCodesAreWellKeyed(cfg: Config)
    requires UniqueNames(cfg) && forall c | c in cfg.contracts :: Lacks(c.code, ':')
    ensures WellKeyed(cfg)
  {
    forall c, d | c in cfg.contracts && d in cfg.contracts
      ensures !GoesOn(d.code, c.code, ':')
    {
      if GoesOn(d.code, c.code, ':') { GoingOnTakesASeparator(d.code, c.code, ':'); }
    }
  }

  /** The message was made from one of the speaking contracts. */
  ghost predicate Made(cfg: Config, m: Message) {
    && m.key == m.contract + [':'] + m.event
    && exists c :: c in cfg.contracts && Speaks(cfg, c) && c.code == m.contract && c.connector == m.connector
  }

  ghost predicate Keyed(cfg: Config, messages: seq<Message>) {
    && (forall i | 0 <= i < |messages| :: Made(cfg, messages[i]))
    && (forall i, j | 0 <= i < j < |messages| :: messages[i].key != messages[j].key)
  }

  /** The message of a contract for an event. */
  predicate MessageOf(m: Message, contract: Contract, event: string) {
    m.contract == contract.code && m.connector == contract.connector && m.event == event
  }

  predicate HasMessage(messages: seq<Message>, contract: Contract, event: string) {
    exists i :: 0 <= i < |messages| && MessageOf(messages[i], contract, event)
  }

  /** The joined key names one contract and one event, so a key is taken only by their own message. */
  lemma KeyNamesContractAndEvent(cfg: Config, messages: seq<Message>, contract: Contract, event: DomainEvent)
    requires WellKeyed(cfg) && Keyed(cfg, messages) && contract in cfg.contracts && Speaks(cfg, contract)
    ensures HasKey(messages, KeyFor(contract, event)) <==> HasMessage(messages, contract, event.key)
  {
    forall i | 0 <= i < |messages|
      ensures messages[i].key == KeyFor(contract, event) <==> MessageOf(messages[i], contract, event.key)
    {
      var m := messages[i];
      assert Made(cfg, m);
      var c :| c in cfg.contracts && Speaks(cfg, c) && c.code == m.contract && c.connector == m.connector;
      JoinIsInjective(m.contract, m.event, contract.code, event.key, ':');
    }
  }

  /** With a colon in a code, two contracts can claim one key, and the second message is lost. */
  lemma ColonLosesAMessage(cfg: Config)
    requires cfg.connectors == [Connector(Outbound, 5, 60, true)]
    requires cfg.contracts == [Contract("a", 0, Outbound, true, Some(1)), Contract("a:b", 0, Outbound, true, Some(2))]
    ensures var first := QueueEvent(cfg, [], DomainEvent("b:c", 1, 0));
            QueueEvent(cfg, first, DomainEvent("c", 2, 0)) == first
            && !HasMessage(first, cfg.contracts[1], "c")
  {
    var e1, e2 := DomainEvent("b:c", 1, 0), DomainEvent("c", 2, 0);
    var a, ab := cfg.contracts[0], cfg.contracts[1];
    assert KeyFor(a, e1) == "a:b:c" == KeyFor(ab, e2);
    var first := [NewMessage(a, e1)];
    assert [] + first == first;
    assert QueueEvent(cfg, [], e1, 2) == [];
    assert QueueEvent(cfg, first, e1, 2) == first == QueueEvent(cfg, first, e1, 1);
    assert QueueEvent(cfg, [], e1, 0) == first;
    assert first[0].key == KeyFor(ab, e2);
    assert QueueEvent(cfg, first, e2, 2) == first == QueueEvent(cfg, first, e2, 1);
  }

  // ----- Exactly when every message is made -----

  ghost predicate Unclaimed(cfg: Config, messages: seq<Message>, m: Message, event: DomainEvent) {
    exists c :: c in cfg.contracts && m == NewMessage(c, event) && !HasKey(messages, m.key)
  }

  /** Every message added has a key no message had, and the keys of the listening contracts are taken afterwards. */
  ghost predicate TakesKeys(cfg: Config, messages: seq<Message>, all: seq<Message>, event: DomainEvent, from: nat) {
    && messages <= all
    && (forall i | |messages| <= i < |all| :: Unclaimed(cfg, messages, all[i], event))
    && (forall k | from <= k < |cfg.contracts| && Listens(cfg, cfg.contracts[k], event) ::
          HasKey(all, KeyFor(cfg.contracts[k], event)))
  }

  lemma {:induction false} QueueTakesKeys(cfg: Config, messages: seq<Message>, event: DomainEvent, from: nat)
    requires from <= |cfg.contracts|
    ensures TakesKeys(cfg, messages, QueueEvent(cfg, messages, event, from), event, from)
    decreases |cfg.contracts| - from
  {
    if from < |cfg.contracts| {
      var contract := cfg.contracts[from];
      var adds := Listens(cfg, contract, event) && !HasKey(messages, KeyFor(contract, event));
      var next := if adds then messages + [NewMessage(contract, event)] else messages;
      QueueTakesKeys(cfg, next, event, from + 1);
      if adds {
        MadeTakesKeys(cfg, messages, contract, next, QueueEvent(cfg, next, event, from + 1), event, from);
      } else if Listens(cfg, contract, event) {
        HasKeyGrows(messages, QueueEvent(cfg, next, event, from + 1), KeyFor(contract, event));
      }
    }
  }

  /** A contract's message before those of the later contracts. */
  lemma MadeTakesKeys(cfg: Config, messages: seq<Message>, contract: Contract, next: seq<Message>, all: seq<Message>,
                      event: DomainEvent, from: nat)
    requires from < |cfg.contracts| && contract == cfg.contracts[from] && !HasKey(messages, KeyFor(contract, event))
    requires next == messages + [NewMessage(contract, event)] && TakesKeys(cfg, next, all, event, from + 1)
    ensures TakesKeys(cfg, messages, all, event, from)
  {
    assert next[|messages|] == all[|messages|] == NewMessage(contract, event);
    assert HasKey(all, KeyFor(contract, event));
    forall i | |next| <= i < |all|
      ensures Unclaimed(cfg, messages, all[i], event)
    {
      var c :| c in cfg.contracts && all[i] == NewMessage(c, event) && !HasKey(next, all[i].key);
      HasKeyGrows(messages, next, all[i].key);
    }
  }

  lemma HasKeyGrows(messages: seq<Message>, next: seq<Message>, key: string)
    requires messages <= next
    ensures HasKey(messages, key) ==> HasKey(next, key)
  {
    if HasKey(messages, key) {
      var i :| 0 <= i < |messages| && messages[i].key == key;
      assert next[i] == messages[i];
    }
  }

  /** Where one code goes on from another, an event of the shorter takes the key that the longer needs. */
  lemma ExtendedCodeLosesAMessage(cfg: Config, c: Contract, d: Contract) returns (e: DomainEvent, f: DomainEvent)
    requires UniqueNames(cfg) && c in cfg.contracts && d in cfg.contracts && Speaks(cfg, c) && Speaks(cfg, d)
    requires GoesOn(d.code, c.code, ':')
    ensures Listens(cfg, d, f) && !HasMessage(QueueEvent(cfg, QueueEvent(cfg, [], e), f), d, f.key)
  {
    f := DomainEvent("", d.eventType.value, 0);
    e := DomainEvent(d.code[|c.code| + 1..] + [':'] + "", c.eventType.value, 0);
    MeetingParts(c.code, d.code, ':', "");
    assert KeyFor(c, e) == KeyFor(d, f) && e.key != f.key;
    var first := QueueEvent(cfg, [], e);
    QueueTakesKeys(cfg, [], e, 0);
    var k :| 0 <= k < |cfg.contracts| && cfg.contracts[k] == c;
    assert HasKey(first, KeyFor(d, f));
    QueueTakesKeys(cfg, first, f, 0);
    var second := QueueEvent(cfg, first, f);
    forall i | 0 <= i < |second|
      ensures !MessageOf(second[i], d, f.key)
    {
      if i < |first| {
        assert second[i] == first[i] && Unclaimed(cfg, [], first[i], e);
      } else {
        assert Unclaimed(cfg, first, second[i], f);
      }
    }
  }

  /** Every contract, from position `from` on, that listens to the event has its message. */
  ghost predicate CoversContracts(cfg: Config, all: seq<Message>, event: DomainEvent, from: nat) {
    forall k | from <= k < |cfg.contracts| && Listens(cfg, cfg.contracts[k], event) ::
      HasMessage(all, cfg.contracts[k], event.key)
  }

  /** Queueing the event after the run leaves every contract that listens with its message. */
  ghost predicate MakesAll(cfg: Config, ops: seq<Op>, event: DomainEvent) {
    CoversContracts(cfg, QueueEvent(cfg, Run(cfg, EMPTY, ops).messages, event), event, 0)
  }

  /**
   Over every run, queueing an event makes the message of every contract that listens, exactly when no speaking
   contract's code goes on, after a colon, where another's ends.
   */
  lemma MessagesAreMadeExactlyWhenNoCodeExtends(cfg: Config)
    requires UniqueNames(cfg)
    ensures NoCodeExtends(cfg) <==> forall ops, event :: MakesAll(cfg, ops, event)
  {
    if NoCodeExtends(cfg) {
      forall ops, event
        ensures MakesAll(cfg, ops, event)
      {
        OneMessagePerContractAndEvent(cfg, ops, event);
      }
    } else {
      var c, d :| c in cfg.contracts && d in cfg.contracts && Speaks(cfg, c) && Speaks(cfg, d) && GoesOn(d.code, c.code, ':');
      var ops, event := ExtendedCodeMissesOne(cfg, c, d);
      assert !MakesAll(cfg, ops, event);
    }
  }

  lemma ExtendedCodeMissesOne(cfg: Config, c: Contract, d: Contract) returns (ops: seq<Op>, event: DomainEvent)
    requires UniqueNames(cfg) && c in cfg.contracts && d in cfg.contracts && Speaks(cfg, c) && Speaks(cfg, d)
    requires GoesOn(d.code, c.code, ':')
    ensures !MakesAll(cfg, ops, event)
  {
    var first;
    first, event := ExtendedCodeLosesAMessage(cfg, c, d);
    ops := [QueueOp(first)];
    assert ops[1..] == [];
    assert Run(cfg, EMPTY, ops) == Step(cfg, EMPTY, ops[0]);
    var k :| 0 <= k < |cfg.contracts| && cfg.contracts[k] == d;
  }

  // ----- What queueing adds -----

  /** The message is new: some listening contract made it for the event and had none before. */
  ghost predicate FreshFor(cfg: Config, messages: seq<Message>, m: Message, event: DomainEvent) {
    exists c :: c in cfg.contracts && Listens(cfg, c, event) && m == NewMessage(c, event)
             && !HasMessage(messages, c, event.key)
  }

  /** From `messages` to `next` only new messages for `event` were added. */
  ghost predicate AddsFor(cfg: Config, messages: seq<Message>, next: seq<Message>, event: DomainEvent) {
    && messages <= next && Keyed(cfg, next)
    && forall i | |messages| <= i < |next| :: FreshFor(cfg, messages, next[i], event)
  }

  lemma HasMessageGrows(messages: seq<Message>, next: seq<Message>, c: Contract, event: string)
    requires messages <= next
    ensures HasMessage(messages, c, event) ==> HasMessage(next, c, event)
  {
    if HasMessage(messages, c, event) {
      var i :| 0 <= i < |messages| && MessageOf(messages[i], c, event);
      assert next[i] == messages[i];
    }
  }

  lemma OneMoreMessage(cfg: Config, messages: seq<Message>, contract: Contract, event: DomainEvent)
    requires Keyed(cfg, messages) && contract in cfg.contracts && Speaks(cfg, contract)
    requires !HasKey(messages, KeyFor(contract, event))
    ensures Keyed(cfg, messages + [NewMessage(contract, event)])
    ensures HasMessage(messages + [NewMessage(contract, event)], contract, event.key)
  {
    var next := messages + [NewMessage(contract, event)];
    assert next[|messages|] == NewMessage(contract, event);
    assert Made(cfg, NewMessage(contract, event));
    assert forall i | 0 <= i < |messages| :: next[i] == messages[i] && next[i].key != KeyFor(contract, event);
  }

  lemma {:induction false} QueueCoversContracts(cfg: Config, messages: seq<Message>, event: DomainEvent, from: nat)
    requires WellKeyed(cfg) && Keyed(cfg, messages) && from <= |cfg.contracts|
    ensures AddsFor(cfg, messages, QueueEvent(cfg, messages, event, from), event)
    ensures CoversContracts(cfg, QueueEvent(cfg, messages, event, from), event, from)
    decreases |cfg.contracts| - from
  {
    if from < |cfg.contracts| {
      var contract := cfg.contracts[from];
      if Listens(cfg, contract, event) { KeyNamesContractAndEvent(cfg, messages, contract, event); }
      if Listens(cfg, contract, event) && !HasKey(messages, KeyFor(contract, event)) {
        var next := messages + [NewMessage(contract, event)];
        OneMoreMessage(cfg, messages, contract, event);
        QueueCoversContracts(cfg, next, event, from + 1);
        MadeCovers(cfg, messages, contract, next, QueueEvent(cfg, next, event, from + 1), event, from);
      } else {
        QueueCoversContracts(cfg, messages, event, from + 1);
        SkippedCovers(cfg, messages, contract, QueueEvent(cfg, messages, event, from + 1), event, from);
      }
    }
  }

  lemma SkippedCovers(cfg: Config, messages: seq<Message>, contract: Contract, all: seq<Message>, event: DomainEvent,
                      from: nat)
    requires from < |cfg.contracts| && contract == cfg.contracts[from] && messages <= all
    requires Listens(cfg, contract, event) ==> HasMessage(messages, contract, event.key)
    requires CoversContracts(cfg, all, event, from + 1)
    ensures CoversContracts(cfg, all, event, from)
  {
    HasMessageGrows(messages, all, contract, event.key);
  }

  /** A contract's new message before those of the later contracts. */
  lemma MadeCovers(cfg: Config, messages: seq<Message>, contract: Contract, next: seq<Message>, all: seq<Message>,
                   event: DomainEvent, from: nat)
    requires from < |cfg.contracts| && contract == cfg.contracts[from] && Listens(cfg, contract, event)
    requires next == messages + [NewMessage(contract, event)] && !HasMessage(messages, contract, event.key)
    requires HasMessage(next, contract, event.key)
    requires AddsFor(cfg, next, all, event) && CoversContracts(cfg, all, event, from + 1)
    ensures AddsFor(cfg, messages, all, event) && CoversContracts(cfg, all, event, from)
  {
    HasMessageGrows(next, all, contract, event.key);
    forall i | |messages| <= i < |all|
      ensures FreshFor(cfg, messages, all[i], event)
    {
      if i == |messages| {
        assert all[i] == next[i] == NewMessage(contract, event);
      } else {
        var c :| c in cfg.contracts && Listens(cfg, c, event) && all[i] == NewMessage(c, event)
                 && !HasMessage(next, c, event.key);
        HasMessageGrows(messages, next, c, event.key);
      }
    }
  }

  ghost predicate FreshForKeys(cfg: Config, messages: seq<Message>, m: Message, keys: seq<string>) {
    exists e :: e in cfg.events && e.key in keys && FreshFor(cfg, messages, m, e)
  }

  /** From `messages` to `next` only new messages for events with the listed keys were added. */
  ghost predicate AddsForKeys(cfg: Config, messages: seq<Message>, next: seq<Message>, keys: seq<string>) {
    && messages <= next && Keyed(cfg, next)
    && forall i | |messages| <= i < |next| :: FreshForKeys(cfg, messages, next[i], keys)
  }

  /** New for the listed events after one event's messages is new before them. */
  lemma AddsCompose(cfg: Config, messages: seq<Message>, next: seq<Message>, all: seq<Message>, keys: seq<string>,
                    event: DomainEvent)
    requires event in cfg.events && AddsForKeys(cfg, next, all, keys)
    requires next == messages || (event.key in keys && AddsFor(cfg, messages, next, event))
    ensures AddsForKeys(cfg, messages, all, keys)
  {
    forall i | |messages| <= i < |all|
      ensures FreshForKeys(cfg, messages, all[i], keys)
    {
      if i < |next| {
        assert all[i] == next[i] && FreshFor(cfg, messages, next[i], event);
      } else {
        var e :| e in cfg.events && e.key in keys && FreshFor(cfg, next, all[i], e);
        var c :| c in cfg.contracts && Listens(cfg, c, e) && all[i] == NewMessage(c, e) && !HasMessage(next, c, e.key);
        HasMessageGrows(messages, next, c, e.key);
        assert FreshFor(cfg, messages, all[i], e);
      }
    }
  }

  /** Every contract that listens to a listed event has its message. */
  ghost predicate Covers(cfg: Config, all: seq<Message>, keys: seq<string>, from: nat) {
    forall e, c | from <= e < |cfg.events| && cfg.events[e].key in keys && c in cfg.contracts
                  && Listens(cfg, c, cfg.events[e]) ::
      HasMessage(all, c, cfg.events[e].key)
  }

  lemma {:induction false} RequeueCoversEvents(cfg: Config, messages: seq<Message>, keys: seq<string>, from: nat)
    requires WellKeyed(cfg) && Keyed(cfg, messages) && from <= |cfg.events|
    ensures AddsForKeys(cfg, messages, Requeue(cfg, messages, keys, from), keys)
    ensures Covers(cfg, Requeue(cfg, messages, keys, from), keys, from)
    decreases |cfg.events| - from
  {
    if from < |cfg.events| {
      var event := cfg.events[from];
      if event.key in keys {
        var next := QueueEvent(cfg, messages, event);
        QueueCoversContracts(cfg, messages, event, 0);
        RequeueCoversEvents(cfg, next, keys, from + 1);
        var all := Requeue(cfg, next, keys, from + 1);
        AddsCompose(cfg, messages, next, all, keys, event);
        OneMoreCovered(cfg, next, all, keys, from);
      } else {
        RequeueCoversEvents(cfg, messages, keys, from + 1);
      }
    }
  }

  lemma OneMoreCovered(cfg: Config, next: seq<Message>, all: seq<Message>, keys: seq<string>, from: nat)
    requires from < |cfg.events| && next <= all && Covers(cfg, all, keys, from + 1)
    requires forall k | 0 <= k < |cfg.contracts| && Listens(cfg, cfg.contracts[k], cfg.events[from]) ::
               HasMessage(next, cfg.contracts[k], cfg.events[from].key)
    ensures Covers(cfg, all, keys, from)
  {
    forall c | c in cfg.contracts && Listens(cfg, c, cfg.events[from])
      ensures HasMessage(all, c, cfg.events[from].key)
    {
      var k :| 0 <= k < |cfg.contracts| && cfg.contracts[k] == c;
      HasMessageGrows(next, all, c, cfg.events[from].key);
    }
  }

  lemma StepKeepsKeyed(cfg: Config, o: Outbox, op: Op)
    requires WellKeyed(cfg) && Fits(cfg, o) && Keyed(cfg, o.messages)
    ensures Keyed(cfg, Step(cfg, o, op).messages)
  {
    match op
    case QueueOp(event) => QueueCoversContracts(cfg, o.messages, event, 0);
    case RequeueOp(keys) => RequeueCoversEvents(cfg, o.messages, keys, 0);
    case SendOp(i, v) => if Send(cfg, o, i, v).Ok? { SendKeepsKeyed(cfg, o, i, v); }
    case FlushOp(limit, connector, visits) =>
      if limit <= |visits| { FlushKeepsKeyed(cfg, o, Selected(o.messages, limit, connector), visits); }
  }

  lemma {:induction false} FlushKeepsKeyed(cfg: Config, o: Outbox, ids: seq<nat>, visits: seq<Visit>)
    requires Keyed(cfg, o.messages) && |ids| <= |visits|
    ensures Keyed(cfg, FlushEach(cfg, o, ids, visits).outbox.messages)
    decreases |ids|
  {
    if ids != [] {
      var next := Send(cfg, o, ids[0], visits[0]);
      if next.Ok? {
        SendKeepsKeyed(cfg, o, ids[0], visits[0]);
        FlushKeepsKeyed(cfg, next.value, ids[1..], visits[1..]);
      }
      FlushKeepsKeyed(cfg, o, ids[1..], visits[1..]);
    }
  }

  lemma SendKeepsKeyed(cfg: Config, o: Outbox, i: nat, v: Visit)
    requires Keyed(cfg, o.messages) && Send(cfg, o, i, v).Ok?
    ensures Keyed(cfg, Send(cfg, o, i, v).value.messages)
  {
    var next := Send(cfg, o, i, v).value.messages;
    forall j: nat | j < |next|
      ensures next[j].key == o.messages[j].key && Made(cfg, next[j])
    {
      assert Made(cfg, o.messages[j]);
    }
  }

  lemma {:induction false} RunKeepsKeyed(cfg: Config, o: Outbox, ops: seq<Op>)
    requires WellKeyed(cfg) && Fits(cfg, o) && Keyed(cfg, o.messages)
    ensures Keyed(cfg, Run(cfg, o, ops).messages)
    decreases |ops|
  {
    if ops != [] {
      StepKeepsKeyed(cfg, o, ops[0]);
      StepKeepsFits(cfg, o, ops[0]);
      RunKeepsKeyed(cfg, Step(cfg, o, ops[0]), ops[1..]);
    }
  }

  /**
   Over every run there is at most one message per contract and event, and an event queued reaches every
   contract that listens.
   */
  lemma OneMessagePerContractAndEvent(cfg: Config, ops: seq<Op>, event: DomainEvent)
    requires WellKeyed(cfg)
    ensures var messages := Run(cfg, EMPTY, ops).messages;
            && (forall i, j | 0 <= i < j < |messages| ::
                  messages[i].contract != messages[j].contract || messages[i].event != messages[j].event)
            && (forall c | c in cfg.contracts && Listens(cfg, c, event) ::
                  HasMessage(QueueEvent(cfg, messages, event), c, event.key))
  {
    var messages := Run(cfg, EMPTY, ops).messages;
    RunKeepsKeyed(cfg, EMPTY, ops);
    assert forall i | 0 <= i < |messages| :: Made(cfg, messages[i]);
    QueueCoversContracts(cfg, messages, event, 0);
    forall c | c in cfg.contracts && Listens(cfg, c, event)
      ensures HasMessage(QueueEvent(cfg, messages, event), c, event.key)
    {
      var k :| 0 <= k < |cfg.contracts| && cfg.contracts[k] == c;
    }
  }

  // ----- Reconciliation -----

  function Missing(cfg: Config, messages: seq<Message>, connector: nat, from: int, to: int): set<string> {
    var expected := Expected(cfg, connector, from, to);
    expected - SentKeys(messages, connector, expected)
  }

  lemma {:induction false} CountsNothing(messages: seq<Message>, connector: nat, expected: set<string>,
                                         statuses: set<MessageStatus>)
    ensures CountStatus(messages, connector, expected, statuses) == 0
            <==> forall m | m in messages && m.connector == connector && m.event in expected :: m.status !in statuses
  {
    if messages != [] {
      CountsNothing(messages[..|messages| - 1], connector, expected, statuses);
      assert messages == messages[..|messages| - 1] + [messages[|messages| - 1]];
    }
  }

  lemma SubsetSize(small: set<string>, large: set<string>)
    requires small <= large
    ensures |small| <= |large| && |large - small| == |large| - |small|
  {
    assert large == small + (large - small);
  }

  lemma GapCountsMissing(cfg: Config, messages: seq<Message>, connector: nat, from: int, to: int)
    ensures Gap(Reconcile(cfg, messages, connector, from, to)) == |Missing(cfg, messages, connector, from, to)|
  {
    var expected := Expected(cfg, connector, from, to);
    SubsetSize(SentKeys(messages, connector, expected), expected);
  }

  lemma MissingMeansUnsent(cfg: Config, messages: seq<Message>, connector: nat, from: int, to: int, key: string)
    ensures key in Missing(cfg, messages, connector, from, to)
            <==> key in Expected(cfg, connector, from, to) && !SentFor(messages, connector, key)
  {
  }

  lemma NoneFailedOrDiscarded(messages: seq<Message>, connector: nat, expected: set<string>)
    ensures CountStatus(messages, connector, expected, {MessageStatus.Failed, Discarded}) == 0
            <==> forall m | m in messages && m.connector == connector && m.event in expected ::
                   !m.status.Failed? && !m.status.Discarded?
  {
    CountsNothing(messages, connector, expected, {MessageStatus.Failed, Discarded});
  }

  lemma ListedIsEmptyWithMissing(cfg: Config, messages: seq<Message>, connector: nat, from: int, to: int)
    ensures Reconcile(cfg, messages, connector, from, to).missing == [] <==> Missing(cfg, messages, connector, from, to) == {}
  {
    var missing := Missing(cfg, messages, connector, from, to);
    assert |Sorted(missing)| == |missing|;
  }

  /**
   The gap is the number of expected events without a sent message; a clean run leaves none, and nothing
   failed or discarded.
   */
  lemma ReconciliationIsExact(cfg: Config, messages: seq<Message>, connector: nat, from: int, to: int)
    ensures var run, expected := Reconcile(cfg, messages, connector, from, to), Expected(cfg, connector, from, to);
            && Gap(run) == |Missing(cfg, messages, connector, from, to)|
            && (forall key :: key in Missing(cfg, messages, connector, from, to)
                  <==> key in expected && !SentFor(messages, connector, key))
            && (IsClean(run) <==>
                  && Missing(cfg, messages, connector, from, to) == {}
                  && forall m | m in messages && m.connector == connector && m.event in expected ::
                       !m.status.Failed? && !m.status.Discarded?)
  {
    GapCountsMissing(cfg, messages, connector, from, to);
    ListedIsEmptyWithMissing(cfg, messages, connector, from, to);
    NoneFailedOrDiscarded(messages, connector, Expected(cfg, connector, from, to));
    forall key
      ensures key in Missing(cfg, messages, connector, from, to)
              <==> key in Expected(cfg, connector, from, to) && !SentFor(messages, connector, key)
    {
      MissingMeansUnsent(cfg, messages, connector, from, to, key);
    }
  }

  /** The messages of a reconciliation's events that have one of the statuses. */
  ghost function Counted(messages: seq<Message>, connector: nat, expected: set<string>, statuses: set<MessageStatus>)
    : set<nat>
  {
    set i: nat | i < |messages| && messages[i].connector == connector && messages[i].event in expected
                 && messages[i].status in statuses
  }

  lemma {:induction false} CountStatusCounts(messages: seq<Message>, connector: nat, expected: set<string>,
                                             statuses: set<MessageStatus>)
    ensures CountStatus(messages, connector, expected, statuses) == |Counted(messages, connector, expected, statuses)|
  {
    var all := Counted(messages, connector, expected, statuses);
    if messages == [] {
      assert all == {};
    } else {
      CountStatusCounts(messages[..|messages| - 1], connector, expected, statuses);
      LastIsCounted(messages, connector, expected, statuses);
    }
  }

  lemma {:induction false} LastIsCounted(messages: seq<Message>, connector: nat, expected: set<string>,
                                         statuses: set<MessageStatus>)
    requires messages != []
    ensures var m := messages[|messages| - 1];
            |Counted(messages, connector, expected, statuses)|
            == |Counted(messages[..|messages| - 1], connector, expected, statuses)|
               + if m.connector == connector && m.event in expected && m.status in statuses then 1 else 0
  {
    var n := |messages| - 1;
    var all := Counted(messages, connector, expected, statuses);
    var earlier := Counted(messages[..n], connector, expected, statuses);
    assert n !in earlier;
    if n in all {
      assert all == earlier + {n};
    } else {
      assert all == earlier;
    }
  }

  /** An event is expected when an active outbound contract of the connector covers its type and its day is in the period. */
  lemma {:induction false} ExpectedAreCovered(cfg: Config, connector: nat, from: int, to: int, key: string)
    ensures key in Expected(cfg, connector, from, to) <==>
              exists c, e :: c in cfg.contracts && e in cfg.events && e.key == key && c.connector == connector
                             && c.active && c.direction == Outbound && c.eventType == Some(e.etype) && from <= e.day <= to
  {
    if key in Expected(cfg, connector, from, to) {
      var e :| e in cfg.events && e.etype in ContractTypes(cfg, connector) && from <= e.day <= to && e.key == key;
      var c :| c in cfg.contracts && c.connector == connector && c.active && c.direction.Outbound?
               && c.eventType == Some(e.etype);
      assert c in cfg.contracts && e in cfg.events;
    }
    if c, e :| c in cfg.contracts && e in cfg.events && e.key == key && c.connector == connector
               && c.active && c.direction == Outbound && c.eventType == Some(e.etype) && from <= e.day <= to {
      assert e.etype in ContractTypes(cfg, connector);
    }
  }

  /** The contract is active and outbound for the event's type, and its connector is active and may send. */
  predicate Carries(cfg: Config, c: Contract, event: DomainEvent) {
    && c.active && c.direction == Outbound && c.eventType == Some(event.etype) && c.connector < |cfg.connectors|
    && cfg.connectors[c.connector].active && cfg.connectors[c.connector].direction in {Outbound, Bidirectional}
  }

  /** The rows added are new messages of contracts that carry the event, at ascending positions. */
  ghost predicate FollowTheContracts(cfg: Config, messages: seq<Message>, next: seq<Message>, event: DomainEvent, from: nat,
                                     positions: seq<nat>) {
    && messages <= next && |positions| == |next| - |messages|
    && (forall i, j | 0 <= i < j < |positions| :: positions[i] < positions[j])
    && (forall j | 0 <= j < |positions| ::
          from <= positions[j] < |cfg.contracts| && Carries(cfg, cfg.contracts[positions[j]], event)
          && next[|messages| + j] == NewMessage(cfg.contracts[positions[j]], event))
  }

  /** New messages stand in the order of their contracts. */
  lemma {:induction false} NewMessagesFollowTheContracts(cfg: Config, messages: seq<Message>, event: DomainEvent, from: nat)
    returns (positions: seq<nat>)
    requires from <= |cfg.contracts|
    ensures FollowTheContracts(cfg, messages, QueueEvent(cfg, messages, event, from), event, from, positions)
    decreases |cfg.contracts| - from
  {
    if from == |cfg.contracts| {
      positions := [];
    } else {
      var contract := cfg.contracts[from];
      if Listens(cfg, contract, event) && !HasKey(messages, KeyFor(contract, event)) {
        var grown := messages + [NewMessage(contract, event)];
        var rest := NewMessagesFollowTheContracts(cfg, grown, event, from + 1);
        positions := [from] + rest;
        FirstContractFollows(cfg, messages, grown, QueueEvent(cfg, grown, event, from + 1), event, from, rest);
      } else {
        positions := NewMessagesFollowTheContracts(cfg, messages, event, from + 1);
      }
    }
  }

  lemma {:induction false} FirstContractFollows(cfg: Config, messages: seq<Message>, grown: seq<Message>, next: seq<Message>,
                                                event: DomainEvent, from: nat, rest: seq<nat>)
    requires from < |cfg.contracts| && Listens(cfg, cfg.contracts[from], event)
    requires grown == messages + [NewMessage(cfg.contracts[from], event)]
    requires FollowTheContracts(cfg, grown, next, event, from + 1, rest)
    ensures FollowTheContracts(cfg, messages, next, event, from, [from] + rest)
  {
    var positions := [from] + rest;
    assert next[|messages|] == grown[|messages|];
    forall j | 0 < j < |positions|
      ensures positions[j] < |cfg.contracts| && next[|messages| + j] == NewMessage(cfg.contracts[positions[j]], event)
    {
      assert positions[j] == rest[j - 1] && next[|messages| + j] == next[|grown| + (j - 1)];
    }
  }

  /** Each figure of a run: events expected and sent for, and their messages still queued and failed or discarded. */
  lemma {:induction false} FiguresCount(cfg: Config, messages: seq<Message>, connector: nat, from: int, to: int)
    ensures var run, expected := Reconcile(cfg, messages, connector, from, to), Expected(cfg, connector, from, to);
            && run.expected == |expected|
            && run.sent == |set key | key in expected && SentFor(messages, connector, key)|
            && run.queued == |Counted(messages, connector, expected, {Queued})|
            && run.failed == |Counted(messages, connector, expected, {Failed, Discarded})|
  {
    var expected := Expected(cfg, connector, from, to);
    CountStatusCounts(messages, connector, expected, {Queued});
    CountStatusCounts(messages, connector, expected, {Failed, Discarded});
    assert SentKeys(messages, connector, expected) == set key | key in expected && SentFor(messages, connector, key);
  }

  /** Queueing an event makes a new message for a contract exactly when the contract carries the event. */
  lemma {:induction false} NewMessageExactlyWhenCarried(cfg: Config, messages: seq<Message>, event: DomainEvent, c: Contract)
    requires WellKeyed(cfg) && Keyed(cfg, messages) && c in cfg.contracts && !HasMessage(messages, c, event.key)
    ensures HasMessage(QueueEvent(cfg, messages, event), c, event.key) <==> Carries(cfg, c, event)
  {
    var next := QueueEvent(cfg, messages, event);
    QueueCoversContracts(cfg, messages, event, 0);
    if Carries(cfg, c, event) {
      var k :| 0 <= k < |cfg.contracts| && cfg.contracts[k] == c;
      assert Listens(cfg, cfg.contracts[k], event);
    }
    if HasMessage(next, c, event.key) { AddedMeansCarried(cfg, messages, next, event, c); }
  }

  lemma {:induction false} AddedMeansCarried(cfg: Config, messages: seq<Message>, next: seq<Message>, event: DomainEvent,
                                             c: Contract)
    requires UniqueNames(cfg) && c in cfg.contracts && AddsFor(cfg, messages, next, event)
    requires !HasMessage(messages, c, event.key) && HasMessage(next, c, event.key)
    ensures Carries(cfg, c, event)
  {
    assert forall i | 0 <= i < |messages| :: next[i] == messages[i];
    var i :| 0 <= i < |next| && MessageOf(next[i], c, event.key);
    assert FreshFor(cfg, messages, next[i], event);
  }

  // ----- Closing the loop -----

  /** A flush in which the transport always succeeds. */
  predicate SuccessfulFlush(op: Op) {
    op.FlushOp? && forall k | 0 <= k < |op.visits| :: op.visits[k].ok
  }

  ghost predicate LiveOf(messages: seq<Message>, connector: nat) {
    exists i :: 0 <= i < |messages| && messages[i].connector == connector && Live(messages[i])
  }

  /** Each message is as it was, or was live and has been sent. */
  ghost predicate SentOrSame(o: Outbox, next: Outbox) {
    && |o.messages| == |next.messages|
    && forall i | 0 <= i < |o.messages| ::
         || next.messages[i] == o.messages[i]
         || (Live(o.messages[i]) && next.messages[i].status.Sent?
             && next.messages[i].connector == o.messages[i].connector && next.messages[i].contract == o.messages[i].contract
             && next.messages[i].event == o.messages[i].event)
  }

  lemma {:induction false} SuccessfulFlushSends(cfg: Config, o: Outbox, ids: seq<nat>, visits: seq<Visit>)
    requires |ids| <= |visits| && forall k | 0 <= k < |visits| :: visits[k].ok
    ensures SentOrSame(o, FlushEach(cfg, o, ids, visits).outbox)
    decreases |ids|
  {
    if ids != [] {
      var next := Send(cfg, o, ids[0], visits[0]);
      if next.Ok? { SuccessfulFlushSends(cfg, next.value, ids[1..], visits[1..]); }
      SuccessfulFlushSends(cfg, o, ids[1..], visits[1..]);
    }
  }

  lemma {:induction false} SuccessfulFlushesSend(cfg: Config, o: Outbox, ops: seq<Op>)
    requires forall k | 0 <= k < |ops| :: SuccessfulFlush(ops[k])
    ensures SentOrSame(o, Run(cfg, o, ops))
    decreases |ops|
  {
    if ops != [] {
      var op := ops[0];
      if op.limit <= |op.visits| {
        SuccessfulFlushSends(cfg, o, Selected(o.messages, op.limit, op.connector), op.visits);
      }
      SuccessfulFlushesSend(cfg, Step(cfg, o, op), ops[1..]);
    }
  }

  /** The listed events are queued again, and then the given flushes run. */
  function AfterRequeue(cfg: Config, o: Outbox, keys: seq<string>, flushes: seq<Op>): Outbox {
    Run(cfg, Step(cfg, o, RequeueOp(keys)), flushes)
  }

  /** The flushes all succeed and go on until the connector has nothing live. */
  ghost predicate FlushedToEmpty(cfg: Config, o: Outbox, connector: nat, keys: seq<string>, flushes: seq<Op>) {
    && (forall k | 0 <= k < |flushes| :: SuccessfulFlush(flushes[k]))
    && !LiveOf(AfterRequeue(cfg, o, keys, flushes).messages, connector)
  }

  predicate CanSend(cfg: Config, connector: nat) {
    connector < |cfg.connectors| && cfg.connectors[connector].active && Sends(cfg.connectors[connector])
  }

  /** Some message of the event has not used up its attempts. */
  ghost predicate Undiscarded(messages: seq<Message>, connector: nat, key: string) {
    exists m :: m in messages && ForEvent(m, connector, key) && !m.status.Discarded?
  }

  /** Some contract listens to the event and has no message for it. */
  ghost predicate Unqueued(cfg: Config, messages: seq<Message>, connector: nat, key: string) {
    exists c, e :: c in cfg.contracts && e in cfg.events && c.connector == connector && e.key == key
                   && Listens(cfg, c, e) && !HasMessage(messages, c, key)
  }

  /** A missing event can still go out. */
  ghost predicate Recoverable(cfg: Config, messages: seq<Message>, connector: nat, key: string) {
    Undiscarded(messages, connector, key) || Unqueued(cfg, messages, connector, key)
  }

  predicate SentFor(messages: seq<Message>, connector: nat, key: string) {
    exists m :: m in messages && ForEvent(m, connector, key) && m.status.Sent?
  }

  ghost predicate LiveFor(messages: seq<Message>, connector: nat, key: string) {
    exists i :: 0 <= i < |messages| && ForEvent(messages[i], connector, key) && Live(messages[i])
  }

  lemma FreshIsLive(cfg: Config, messages: seq<Message>, m: Message, keys: seq<string>)
    requires FreshForKeys(cfg, messages, m, keys)
    ensures Live(m)
    ensures forall connector: nat | ForEvent(m, connector, m.event) :: Recoverable(cfg, messages, connector, m.event)
  {
    var e :| e in cfg.events && e.key in keys && FreshFor(cfg, messages, m, e);
    var c :| c in cfg.contracts && Listens(cfg, c, e) && m == NewMessage(c, e) && !HasMessage(messages, c, e.key);
  }

  lemma UnqueuedIsRequeued(cfg: Config, messages: seq<Message>, keys: seq<string>, c: Contract, e: DomainEvent)
    requires WellKeyed(cfg) && Keyed(cfg, messages) && c in cfg.contracts && e in cfg.events && e.key in keys
    requires Listens(cfg, c, e) && !HasMessage(messages, c, e.key)
    ensures LiveFor(Requeue(cfg, messages, keys), c.connector, e.key)
  {
    var next := Requeue(cfg, messages, keys);
    RequeueCoversEvents(cfg, messages, keys, 0);
    var k :| 0 <= k < |cfg.events| && cfg.events[k] == e;
    assert HasMessage(next, c, cfg.events[k].key);
    var i :| 0 <= i < |next| && MessageOf(next[i], c, e.key);
    assert forall j | 0 <= j < |messages| :: next[j] == messages[j];
    FreshIsLive(cfg, messages, next[i], keys);
  }

  lemma RecoverableIsRequeued(cfg: Config, messages: seq<Message>, connector: nat, keys: seq<string>, key: string)
    requires WellKeyed(cfg) && Keyed(cfg, messages) && key in keys && !SentFor(messages, connector, key)
    requires Recoverable(cfg, messages, connector, key)
    ensures LiveFor(Requeue(cfg, messages, keys), connector, key)
  {
    if m :| m in messages && ForEvent(m, connector, key) && !m.status.Discarded? {
      var next := Requeue(cfg, messages, keys);
      RequeueAppends(cfg, messages, keys, 0);
      var i :| 0 <= i < |messages| && messages[i] == m;
      assert next[i] == m && Live(m);
    } else {
      var c, e :| c in cfg.contracts && e in cfg.events && c.connector == connector && e.key == key
                  && Listens(cfg, c, e) && !HasMessage(messages, c, key);
      UnqueuedIsRequeued(cfg, messages, keys, c, e);
    }
  }

  lemma RequeuedWasRecoverable(cfg: Config, messages: seq<Message>, next: seq<Message>, keys: seq<string>, i: nat)
    requires WellKeyed(cfg) && Keyed(cfg, messages) && next == Requeue(cfg, messages, keys)
    requires i < |next| && !next[i].status.Discarded?
    ensures Recoverable(cfg, messages, next[i].connector, next[i].event)
  {
    RequeueCoversEvents(cfg, messages, keys, 0);
    if i < |messages| {
      assert next[i] == messages[i] && messages[i] in messages;
    } else {
      FreshIsLive(cfg, messages, next[i], keys);
    }
  }

  lemma LiveGoesOut(cfg: Config, o: Outbox, connector: nat, flushes: seq<Op>, key: string)
    requires forall k | 0 <= k < |flushes| :: SuccessfulFlush(flushes[k])
    requires !LiveOf(Run(cfg, o, flushes).messages, connector) && LiveFor(o.messages, connector, key)
    ensures SentFor(Run(cfg, o, flushes).messages, connector, key)
  {
    var last := Run(cfg, o, flushes).messages;
    SuccessfulFlushesSend(cfg, o, flushes);
    var i :| 0 <= i < |o.messages| && ForEvent(o.messages[i], connector, key) && Live(o.messages[i]);
    assert last[i].connector == connector && !Live(last[i]);
    assert last[i] in last && ForEvent(last[i], connector, key) && last[i].status.Sent?;
  }

  lemma SentWasRecoverable(cfg: Config, o: Outbox, connector: nat, keys: seq<string>, flushes: seq<Op>, key: string)
    requires WellKeyed(cfg) && Keyed(cfg, o.messages)
    requires forall k | 0 <= k < |flushes| :: SuccessfulFlush(flushes[k])
    requires SentFor(AfterRequeue(cfg, o, keys, flushes).messages, connector, key)
    ensures Recoverable(cfg, o.messages, connector, key)
  {
    var queued := Step(cfg, o, RequeueOp(keys));
    var last := Run(cfg, queued, flushes).messages;
    SuccessfulFlushesSend(cfg, queued, flushes);
    var m :| m in last && ForEvent(m, connector, key) && m.status.Sent?;
    var i :| 0 <= i < |last| && last[i] == m;
    RequeuedWasRecoverable(cfg, o.messages, queued.messages, keys, i);
  }

  /** A requeued event goes out exactly when it is recoverable: one whose messages are all discarded stays missing. */
  lemma RequeueSendsExactlyTheRecoverable(cfg: Config, o: Outbox, connector: nat,
                                          keys: seq<string>, flushes: seq<Op>, key: string)
    requires WellKeyed(cfg) && Keyed(cfg, o.messages)
    requires FlushedToEmpty(cfg, o, connector, keys, flushes)
    requires key in keys && !SentFor(o.messages, connector, key)
    ensures SentFor(AfterRequeue(cfg, o, keys, flushes).messages, connector, key)
            <==> Recoverable(cfg, o.messages, connector, key)
  {
    if Recoverable(cfg, o.messages, connector, key) {
      RecoverableIsRequeued(cfg, o.messages, connector, keys, key);
      LiveGoesOut(cfg, Step(cfg, o, RequeueOp(keys)), connector, flushes, key);
    }
    if SentFor(AfterRequeue(cfg, o, keys, flushes).messages, connector, key) {
      SentWasRecoverable(cfg, o, connector, keys, flushes, key);
    }
  }

  /** Every missing event can still go out. */
  ghost predicate AllRecoverable(cfg: Config, messages: seq<Message>, connector: nat, from: int, to: int) {
    forall key | key in Missing(cfg, messages, connector, from, to) :: Recoverable(cfg, messages, connector, key)
  }

  /** No message of an expected event has used up its attempts. */
  ghost predicate NoneDiscarded(cfg: Config, messages: seq<Message>, connector: nat, from: int, to: int) {
    forall i | 0 <= i < |messages| && messages[i].connector == connector
               && messages[i].event in Expected(cfg, connector, from, to) :: !messages[i].status.Discarded?
  }

  /** An active sending connector without discarded messages has nothing beyond recovery. */
  lemma UndiscardedIsRecoverable(cfg: Config, messages: seq<Message>, connector: nat, from: int, to: int)
    requires CanSend(cfg, connector) && NoneDiscarded(cfg, messages, connector, from, to)
    ensures AllRecoverable(cfg, messages, connector, from, to)
  {
    forall key | key in Missing(cfg, messages, connector, from, to)
      ensures Recoverable(cfg, messages, connector, key)
    {
      ExpectedIsRecoverable(cfg, messages, connector, from, to, key);
    }
  }

  lemma ExpectedIsRecoverable(cfg: Config, messages: seq<Message>, connector: nat, from: int, to: int, key: string)
    requires CanSend(cfg, connector) && NoneDiscarded(cfg, messages, connector, from, to)
    requires key in Expected(cfg, connector, from, to)
    ensures Recoverable(cfg, messages, connector, key)
  {
    var e :| e in cfg.events && e.etype in ContractTypes(cfg, connector) && e.key == key;
    var c :| c in cfg.contracts && c.connector == connector && c.active && c.direction.Outbound?
             && c.eventType == Some(e.etype);
    assert Listens(cfg, c, e);
    if HasMessage(messages, c, key) {
      var i :| 0 <= i < |messages| && MessageOf(messages[i], c, key);
      assert messages[i] in messages && ForEvent(messages[i], connector, key);
    }
  }

  lemma UndiscardedStaysUndiscarded(messages: seq<Message>, queued: Outbox, last: Outbox, connector: nat, key: string)
    requires messages <= queued.messages && SentOrSame(queued, last) && Undiscarded(messages, connector, key)
    ensures Undiscarded(last.messages, connector, key)
  {
    var m :| m in messages && ForEvent(m, connector, key) && !m.status.Discarded?;
    var i :| 0 <= i < |messages| && messages[i] == m;
    assert queued.messages[i] == m && last.messages[i] in last.messages;
  }

  lemma UnqueuedIsQueuedOrNot(cfg: Config, messages: seq<Message>, queued: Outbox, last: Outbox, keys: seq<string>,
                              connector: nat, key: string)
    requires AddsForKeys(cfg, messages, queued.messages, keys) && SentOrSame(queued, last)
    requires Unqueued(cfg, messages, connector, key)
    ensures Recoverable(cfg, last.messages, connector, key)
  {
    var c, e :| c in cfg.contracts && e in cfg.events && c.connector == connector && e.key == key
                && Listens(cfg, c, e) && !HasMessage(messages, c, key);
    forall i | 0 <= i < |messages|
      ensures !MessageOf(last.messages[i], c, key)
    {
      assert queued.messages[i] == messages[i] && !MessageOf(messages[i], c, key);
    }
    if HasMessage(last.messages, c, key) {
      var i :| 0 <= i < |last.messages| && MessageOf(last.messages[i], c, key);
      assert FreshForKeys(cfg, messages, queued.messages[i], keys);
      assert last.messages[i] in last.messages && ForEvent(last.messages[i], connector, key);
    }
  }

  /** What could go out before a round of successful flushes still can, or has gone out. */
  lemma RoundKeepsRecoverable(cfg: Config, o: Outbox, connector: nat, keys: seq<string>, flushes: seq<Op>, key: string)
    requires WellKeyed(cfg) && Keyed(cfg, o.messages) && Recoverable(cfg, o.messages, connector, key)
    requires forall k | 0 <= k < |flushes| :: SuccessfulFlush(flushes[k])
    ensures Recoverable(cfg, AfterRequeue(cfg, o, keys, flushes).messages, connector, key)
  {
    var queued := Step(cfg, o, RequeueOp(keys));
    var last := Run(cfg, queued, flushes);
    RequeueCoversEvents(cfg, o.messages, keys, 0);
    SuccessfulFlushesSend(cfg, queued, flushes);
    if Undiscarded(o.messages, connector, key) {
      UndiscardedStaysUndiscarded(o.messages, queued, last, connector, key);
    } else {
      UnqueuedIsQueuedOrNot(cfg, o.messages, queued, last, keys, connector, key);
    }
  }

  lemma RequeueKeepsInvariants(cfg: Config, o: Outbox, keys: seq<string>, flushes: seq<Op>)
    requires WellKeyed(cfg) && Fits(cfg, o) && Keyed(cfg, o.messages)
    ensures Fits(cfg, AfterRequeue(cfg, o, keys, flushes)) && Keyed(cfg, AfterRequeue(cfg, o, keys, flushes).messages)
  {
    var queued := Step(cfg, o, RequeueOp(keys));
    StepKeepsFits(cfg, o, RequeueOp(keys));
    StepKeepsKeyed(cfg, o, RequeueOp(keys));
    RunKeepsFits(cfg, queued, flushes);
    RunKeepsKeyed(cfg, queued, flushes);
  }

  /** What was sent stays sent, and every requeued event is. */
  lemma RequeueShrinksMissing(cfg: Config, o: Outbox, connector: nat, from: int, to: int,
                              keys: seq<string>, flushes: seq<Op>, key: string)
    requires WellKeyed(cfg) && Keyed(cfg, o.messages)
    requires AllRecoverable(cfg, o.messages, connector, from, to)
    requires FlushedToEmpty(cfg, o, connector, keys, flushes)
    requires key in Missing(cfg, AfterRequeue(cfg, o, keys, flushes).messages, connector, from, to)
    ensures key in Missing(cfg, o.messages, connector, from, to) && key !in keys
  {
    MissingMeansUnsent(cfg, AfterRequeue(cfg, o, keys, flushes).messages, connector, from, to, key);
    MissingMeansUnsent(cfg, o.messages, connector, from, to, key);
    assert !SentFor(o.messages, connector, key) by {
      if SentFor(o.messages, connector, key) { SentStaysSent(cfg, o, connector, keys, flushes, key); }
    }
    if key in keys {
      RequeueSendsExactlyTheRecoverable(cfg, o, connector, keys, flushes, key);
    }
  }

  lemma SentStaysSent(cfg: Config, o: Outbox, connector: nat, keys: seq<string>, flushes: seq<Op>, key: string)
    requires SentFor(o.messages, connector, key)
    requires forall k | 0 <= k < |flushes| :: SuccessfulFlush(flushes[k])
    ensures SentFor(AfterRequeue(cfg, o, keys, flushes).messages, connector, key)
  {
    var queued := Step(cfg, o, RequeueOp(keys));
    var last := Run(cfg, queued, flushes).messages;
    RequeueAppends(cfg, o.messages, keys, 0);
    SuccessfulFlushesSend(cfg, queued, flushes);
    var m :| m in o.messages && ForEvent(m, connector, key) && m.status.Sent?;
    var i :| 0 <= i < |o.messages| && o.messages[i] == m;
    assert queued.messages[i] == m && last[i] == m && m in last;
  }

  lemma {:induction false} KeysOfDistinct(keys: seq<string>, s: set<string>)
    requires forall i, j | 0 <= i < j < |keys| :: keys[i] != keys[j]
    requires forall k :: k in s <==> k in keys
    ensures |s| == |keys|
  {
    if keys == [] {
      assert s == {};
    } else {
      var init, last := keys[..|keys| - 1], keys[|keys| - 1];
      assert keys == init + [last];
      KeysOfDistinct(init, s - {last});
    }
  }

  /** The gap a reconciliation would report now, and the keys it would list. */
  function GapNow(cfg: Config, o: Outbox, connector: nat, from: int, to: int): nat {
    Gap(Reconcile(cfg, o.messages, connector, from, to))
  }

  function ListedNow(cfg: Config, o: Outbox, connector: nat, from: int, to: int): seq<string> {
    Reconcile(cfg, o.messages, connector, from, to).missing
  }

  predicate Distinct(keys: seq<string>) {
    forall i, j | 0 <= i < j < |keys| :: keys[i] != keys[j]
  }

  predicate Ascending(keys: seq<string>) {
    forall i, j | 0 <= i < j < |keys| :: Less(keys[i], keys[j])
  }

  lemma AscendingIsDistinct(keys: seq<string>)
    requires Ascending(keys)
    ensures Distinct(keys)
  {
    forall i, j | 0 <= i < j < |keys|
      ensures keys[i] != keys[j]
    {
      LessIsAsymmetric(keys[i], keys[j]);
    }
  }

  lemma FirstAreLeast(keys: seq<string>, first: seq<string>, k: string, l: string)
    requires Ascending(keys) && first <= keys && k in first && l in keys && l !in first
    ensures Less(k, l)
  {
    var i :| 0 <= i < |first| && first[i] == k;
    assert forall h | 0 <= h < |first| :: first[h] == keys[h] && first[h] in first;
    var j :| 0 <= j < |keys| && keys[j] == l;
  }

  /** The listed keys are the least 200 missing ones, or all of them. */
  lemma ListedAreLeast(cfg: Config, messages: seq<Message>, connector: nat, from: int, to: int)
    ensures var listed := Reconcile(cfg, messages, connector, from, to).missing;
            var missing := Missing(cfg, messages, connector, from, to);
            && |listed| == Min(MISSING_LIMIT, |missing|) && Distinct(listed) && (forall k | k in listed :: k in missing)
            && (forall k, l | k in listed && l in missing && l !in listed :: Less(k, l))
  {
    var listed := Reconcile(cfg, messages, connector, from, to).missing;
    var sorted := Sorted(Missing(cfg, messages, connector, from, to));
    assert Ascending(sorted) && listed <= sorted;
    AscendingIsDistinct(sorted);
    forall k, l | k in listed && l in sorted && l !in listed
      ensures Less(k, l)
    {
      FirstAreLeast(sorted, listed, k, l);
    }
  }

  /** So many keys are listed, however they are counted. */
  lemma ListedKeys(cfg: Config, o: Outbox, connector: nat, from: int, to: int)
    ensures var listed, missing := ListedNow(cfg, o, connector, from, to), Missing(cfg, o.messages, connector, from, to);
            && GapNow(cfg, o, connector, from, to) == |missing|
            && (forall k | k in listed :: k in missing)
            && (forall k, l | k in listed && l in missing && l !in listed :: Less(k, l))
            && |set k | k in listed| == Min(200, |missing|)
  {
    var listed := ListedNow(cfg, o, connector, from, to);
    GapCountsMissing(cfg, o.messages, connector, from, to);
    ListedAreLeast(cfg, o.messages, connector, from, to);
    KeysOfDistinct(listed, set k | k in listed);
  }

  lemma RoundKeepsAllRecoverable(cfg: Config, o: Outbox, connector: nat, from: int, to: int,
                                 keys: seq<string>, flushes: seq<Op>)
    requires WellKeyed(cfg) && Keyed(cfg, o.messages)
    requires AllRecoverable(cfg, o.messages, connector, from, to)
    requires FlushedToEmpty(cfg, o, connector, keys, flushes)
    ensures AllRecoverable(cfg, AfterRequeue(cfg, o, keys, flushes).messages, connector, from, to)
  {
    var next := AfterRequeue(cfg, o, keys, flushes);
    forall key | key in Missing(cfg, next.messages, connector, from, to)
      ensures Recoverable(cfg, next.messages, connector, key)
    {
      RequeueShrinksMissing(cfg, o, connector, from, to, keys, flushes, key);
      RoundKeepsRecoverable(cfg, o, connector, keys, flushes, key);
    }
  }

  lemma RoundShrinksGap(cfg: Config, o: Outbox, connector: nat, from: int, to: int, keys: seq<string>, flushes: seq<Op>)
    requires WellKeyed(cfg) && Keyed(cfg, o.messages)
    requires AllRecoverable(cfg, o.messages, connector, from, to)
    requires keys == ListedNow(cfg, o, connector, from, to) && FlushedToEmpty(cfg, o, connector, keys, flushes)
    ensures var gap := GapNow(cfg, o, connector, from, to);
            GapNow(cfg, AfterRequeue(cfg, o, keys, flushes), connector, from, to)
            <= if gap > MISSING_LIMIT then gap - MISSING_LIMIT else 0
  {
    var next := AfterRequeue(cfg, o, keys, flushes);
    var before, after := Missing(cfg, o.messages, connector, from, to), Missing(cfg, next.messages, connector, from, to);
    ListedKeys(cfg, o, connector, from, to);
    ListedKeys(cfg, next, connector, from, to);
    forall key | key in after
      ensures key in before && key !in keys
    {
      RequeueShrinksMissing(cfg, o, connector, from, to, keys, flushes, key);
    }
    var gone := set k | k in keys;
    SubsetSize(gone, before);
    SubsetSize(after, before - gone);
  }

  /** One round: reconcile, requeue what it lists, flush. */
  function AfterRound(cfg: Config, o: Outbox, connector: nat, from: int, to: int, flushes: seq<Op>): Outbox {
    AfterRequeue(cfg, o, ListedNow(cfg, o, connector, from, to), flushes)
  }

  /** k rounds, one list of flushes each. */
  function AfterRounds(cfg: Config, o: Outbox, connector: nat, from: int, to: int, rounds: seq<seq<Op>>): Outbox
    decreases |rounds|
  {
    if rounds == [] then o
    else AfterRounds(cfg, AfterRound(cfg, o, connector, from, to, rounds[0]), connector, from, to, rounds[1..])
  }

  ghost predicate RoundsSucceed(cfg: Config, o: Outbox, connector: nat, from: int, to: int, rounds: seq<seq<Op>>)
    decreases |rounds|
  {
    rounds != [] ==>
      && FlushedToEmpty(cfg, o, connector, ListedNow(cfg, o, connector, from, to), rounds[0])
      && RoundsSucceed(cfg, AfterRound(cfg, o, connector, from, to, rounds[0]), connector, from, to, rounds[1..])
  }

  lemma {:induction false} RoundsShrinkGap(cfg: Config, o: Outbox, connector: nat, from: int, to: int, rounds: seq<seq<Op>>)
    requires WellKeyed(cfg) && Fits(cfg, o) && Keyed(cfg, o.messages)
    requires AllRecoverable(cfg, o.messages, connector, from, to)
    requires RoundsSucceed(cfg, o, connector, from, to, rounds)
    ensures var left := GapNow(cfg, o, connector, from, to) - MISSING_LIMIT * |rounds|;
            GapNow(cfg, AfterRounds(cfg, o, connector, from, to, rounds), connector, from, to) <= if left > 0 then left else 0
    decreases |rounds|
  {
    if rounds != [] {
      var keys := ListedNow(cfg, o, connector, from, to);
      RoundShrinksGap(cfg, o, connector, from, to, keys, rounds[0]);
      RequeueKeepsInvariants(cfg, o, keys, rounds[0]);
      RoundKeepsAllRecoverable(cfg, o, connector, from, to, keys, rounds[0]);
      RoundsShrinkGap(cfg, AfterRequeue(cfg, o, keys, rounds[0]), connector, from, to, rounds[1..]);
    }
  }

  /** From any reachable outbox, k successful rounds leave a gap of at most max(0, gap - 200k). */
  lemma LoopCloses(cfg: Config, before: seq<Op>, connector: nat, from: int, to: int, rounds: seq<seq<Op>>)
    requires WellKeyed(cfg)
    requires AllRecoverable(cfg, Run(cfg, EMPTY, before).messages, connector, from, to)
    requires RoundsSucceed(cfg, Run(cfg, EMPTY, before), connector, from, to, rounds)
    ensures var o := Run(cfg, EMPTY, before);
            var left := GapNow(cfg, o, connector, from, to) - MISSING_LIMIT * |rounds|;
            GapNow(cfg, AfterRounds(cfg, o, connector, from, to, rounds), connector, from, to) <= if left > 0 then left else 0
  {
    RunKeepsFits(cfg, EMPTY, before);
    RunKeepsKeyed(cfg, EMPTY, before);
    RoundsShrinkGap(cfg, Run(cfg, EMPTY, before), connector, from, to, rounds);
  }
}
