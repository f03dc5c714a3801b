/** Bounded, spaced, at-most-once delivery: what every run of the outbox keeps, and why flushing ends. */
module OutboxRetry {
  import opened Wrappers
  import opened Outbox

  /** How often a message may be tried: at least once, whatever the connector says. */
  function Budget(c: Connector): nat {
    if c.maxAttempts < 1 then 1 else c.maxAttempts
  }

  function Times(calls: seq<Call>, i: nat): seq<int> {
    if calls == [] then []
    else
      var last := calls[|calls| - 1];
      Times(calls[..|calls| - 1], i) + if last.message == i then [last.at] else []
  }

  function Successes(calls: seq<Call>, i: nat): nat {
    if calls == [] then 0
    else
      var last := calls[|calls| - 1];
      Successes(calls[..|calls| - 1], i) + if last.message == i && last.ok then 1 else 0
  }

  lemma CallAppend(calls: seq<Call>, call: Call, i: nat)
    ensures Times(calls + [call], i) == Times(calls, i) + if call.message == i then [call.at] else []
    ensures Successes(calls + [call], i) == Successes(calls, i) + if call.message == i && call.ok then 1 else 0
  {
    assert (calls + [call])[..|calls|] == calls;
  }

  lemma {:induction false} NoCallsYet(calls: seq<Call>, i: nat)
    requires forall k | 0 <= k < |calls| :: calls[k].message < i
    ensures Times(calls, i) == [] && Successes(calls, i) == 0
  {
    if calls != [] { NoCallsYet(calls[..|calls| - 1], i); }
  }

  // ----- The invariant of one message and of the outbox -----

  ghost predicate MessageFits(cfg: Config, calls: seq<Call>, m: Message, i: nat) {
    && m.connector < |cfg.connectors|
    && m.attempts == |Times(calls, i)|
    && m.attempts <= Budget(cfg.connectors[m.connector])
    && Successes(calls, i) == (if m.status.Sent? then 1 else 0)
    && (Live(m) ==> m.attempts < Budget(cfg.connectors[m.connector]))
    && (m.status.Queued? ==> m.attempts == 0 && m.nextAttempt.None?)
    && (m.status.Discarded? ==> m.attempts == Budget(cfg.connectors[m.connector]))
  }

  ghost predicate Fits(cfg: Config, o: Outbox) {
    && (forall k | 0 <= k < |o.calls| :: o.calls[k].message < |o.messages|)
    && (forall i | 0 <= i < |o.messages| :: MessageFits(cfg, o.calls, o.messages[i], i))
  }

  /** Messages are only added, and a settled one is never touched again. */
  ghost predicate Extends(o: Outbox, next: Outbox) {
    && |o.messages| <= |next.messages|
    && o.calls <= next.calls
    && (forall i | 0 <= i < |o.messages| ::
          && next.messages[i].key == o.messages[i].key
          && next.messages[i].connector == o.messages[i].connector
          && next.messages[i].event == o.messages[i].event
          && next.messages[i].contract == o.messages[i].contract
          && next.messages[i].attempts >= o.messages[i].attempts
          && (!Live(o.messages[i]) ==> next.messages[i] == o.messages[i]))
  }

  lemma SendKeepsFits(cfg: Config, o: Outbox, i: nat, v: Visit)
    requires Fits(cfg, o) && Send(cfg, o, i, v).Ok?
    ensures Fits(cfg, Send(cfg, o, i, v).value) && Extends(o, Send(cfg, o, i, v).value)
  {
    var next := Send(cfg, o, i, v).value;
    SentMessageFits(cfg, o, i, v, next);
    forall j: nat | j < |next.messages| && j != i
      ensures MessageFits(cfg, next.calls, next.messages[j], j)
    {
      CallAppend(o.calls, Call(i, v.now, v.ok), j);
      assert next.messages[j] == o.messages[j] && MessageFits(cfg, o.calls, o.messages[j], j);
    }
  }

  lemma SentMessageFits(cfg: Config, o: Outbox, i: nat, v: Visit, next: Outbox)
    requires Fits(cfg, o) && Send(cfg, o, i, v) == Ok(next)
    ensures MessageFits(cfg, next.calls, next.messages[i], i)
  {
    assert MessageFits(cfg, o.calls, o.messages[i], i);
    CallAppend(o.calls, Call(i, v.now, v.ok), i);
  }

  lemma {:induction false} FlushKeepsFits(cfg: Config, o: Outbox, ids: seq<nat>, visits: seq<Visit>)
    requires Fits(cfg, o) && |ids| <= |visits|
    ensures Fits(cfg, FlushEach(cfg, o, ids, visits).outbox) && Extends(o, FlushEach(cfg, o, ids, visits).outbox)
    decreases |ids|
  {
    if ids != [] {
      var i, v := ids[0], visits[0];
      if i < |o.messages| && IsDue(o.messages[i], v.now) && Send(cfg, o, i, v).Ok? {
        SendKeepsFits(cfg, o, i, v);
        FlushKeepsFits(cfg, Send(cfg, o, i, v).value, ids[1..], visits[1..]);
      } else {
        FlushKeepsFits(cfg, o, ids[1..], visits[1..]);
      }
    }
  }

  /** What queueing adds: unsent messages at the end. */
  ghost predicate Appends(cfg: Config, messages: seq<Message>, next: seq<Message>) {
    && messages <= next
    && forall i | |messages| <= i < |next| ::
         next[i].status.Queued? && next[i].attempts == 0 && next[i].nextAttempt.None?
         && next[i].connector < |cfg.connectors|
  }

  lemma {:induction false} QueueAppends(cfg: Config, messages: seq<Message>, event: DomainEvent, from: nat)
    requires from <= |cfg.contracts|
    ensures Appends(cfg, messages, QueueEvent(cfg, messages, event, from))
    decreases |cfg.contracts| - from
  {
    if from < |cfg.contracts| {
      var contract := cfg.contracts[from];
      if Listens(cfg, contract, event) && !HasKey(messages, KeyFor(contract, event)) {
        QueueAppends(cfg, messages + [NewMessage(contract, event)], event, from + 1);
      } else {
        QueueAppends(cfg, messages, event, from + 1);
      }
    }
  }

  lemma {:induction false} RequeueAppends(cfg: Config, messages: seq<Message>, keys: seq<string>, from: nat)
    requires from <= |cfg.events|
    ensures Appends(cfg, messages, Requeue(cfg, messages, keys, from))
    decreases |cfg.events| - from
  {
    if from < |cfg.events| {
      var event := cfg.events[from];
      if event.key in keys {
        QueueAppends(cfg, messages, event, 0);
        RequeueAppends(cfg, QueueEvent(cfg, messages, event), keys, from + 1);
      } else {
        RequeueAppends(cfg, messages, keys, from + 1);
      }
    }
  }

  lemma AppendingKeepsFits(cfg: Config, o: Outbox, next: seq<Message>)
    requires Fits(cfg, o) && Appends(cfg, o.messages, next)
    ensures Fits(cfg, o.(messages := next)) && Extends(o, o.(messages := next))
  {
    forall i | 0 <= i < |next|
      ensures MessageFits(cfg, o.calls, next[i], i)
    {
      if i < |o.messages| {
        assert MessageFits(cfg, o.calls, o.messages[i], i);
      } else {
        NoCallsYet(o.calls, i);
      }
    }
  }

  lemma StepKeepsFits(cfg: Config, o: Outbox, op: Op)
    requires Fits(cfg, o)
    ensures Fits(cfg, Step(cfg, o, op)) && Extends(o, Step(cfg, o, op))
  {
    match op
    case QueueOp(event) =>
      QueueAppends(cfg, o.messages, event, 0);
      AppendingKeepsFits(cfg, o, QueueEvent(cfg, o.messages, event));
    case SendOp(i, v) => if Send(cfg, o, i, v).Ok? { SendKeepsFits(cfg, o, i, v); }
    case FlushOp(limit, connector, visits) =>
      if limit <= |visits| { FlushKeepsFits(cfg, o, Selected(o.messages, limit, connector), visits); }
    case RequeueOp(keys) =>
      RequeueAppends(cfg, o.messages, keys, 0);
      AppendingKeepsFits(cfg, o, Requeue(cfg, o.messages, keys));
  }

  lemma {:induction false} RunKeepsFits(cfg: Config, o: Outbox, ops: seq<Op>)
    requires Fits(cfg, o)
    ensures Fits(cfg, Run(cfg, o, ops)) && Extends(o, Run(cfg, o, ops))
    decreases |ops|
  {
    if ops != [] {
      StepKeepsFits(cfg, o, ops[0]);
      RunKeepsFits(cfg, Step(cfg, o, ops[0]), ops[1..]);
    }
  }

  /** Over every run: attempts are bounded, the transport succeeds at most once, exactly for the messages marked sent. */
  lemma AttemptsAreBounded(cfg: Config, ops: seq<Op>, i: nat)
    requires i < |Run(cfg, EMPTY, ops).messages|
    ensures var o := Run(cfg, EMPTY, ops);
            && o.messages[i].connector < |cfg.connectors|
            && |Times(o.calls, i)| == o.messages[i].attempts <= Budget(cfg.connectors[o.messages[i].connector])
            && Successes(o.calls, i) == (if o.messages[i].status.Sent? then 1 else 0)
  {
    RunKeepsFits(cfg, EMPTY, ops);
    assert MessageFits(cfg, Run(cfg, EMPTY, ops).calls, Run(cfg, EMPTY, ops).messages[i], i);
  }

  /** SENT and DISCARDED are final: no later operation changes the message or calls the transport for it. */
  lemma SettledStaysSettled(cfg: Config, before: seq<Op>, after: seq<Op>, i: nat)
    requires i < |Run(cfg, EMPTY, before).messages| && !Live(Run(cfg, EMPTY, before).messages[i])
    ensures var o, later := Run(cfg, EMPTY, before), Run(cfg, Run(cfg, EMPTY, before), after);
            && i < |later.messages| && later.messages[i] == o.messages[i]
            && |Times(later.calls, i)| == |Times(o.calls, i)|
  {
    var o := Run(cfg, EMPTY, before);
    RunKeepsFits(cfg, EMPTY, before);
    RunKeepsFits(cfg, o, after);
    assert MessageFits(cfg, o.calls, o.messages[i], i);
    assert MessageFits(cfg, Run(cfg, o, after).calls, Run(cfg, o, after).messages[i], i);
  }

  // ----- Spacing -----

  function Triangle(n: nat): nat {
    if n == 0 then 0 else Triangle(n - 1) + n
  }

  lemma {:induction false} TriangleClosed(n: nat)
    ensures 2 * Triangle(n) == n * (n + 1)
  {
    if n > 0 {
      TriangleClosed(n - 1);
      assert n * (n + 1) == (n - 1) * n + 2 * n;
    }
  }

  ghost predicate SpacedTimes(backoff: nat, times: seq<int>) {
    forall n | 0 <= n < |times| :: times[n] >= times[0] + backoff * Triangle(n)
  }

  /** Attempt number n + 1 comes at least 1 + 2 + ... + n waits after the first; a failed message waits on. */
  ghost predicate SpacedMessage(c: Connector, times: seq<int>, m: Message) {
    && SpacedTimes(c.backoff, times)
    && (m.status.Failed? ==>
          times != [] && m.nextAttempt.Some? && m.nextAttempt.value >= times[0] + c.backoff * Triangle(|times|))
  }

  ghost predicate Spaced(cfg: Config, o: Outbox) {
    forall i | 0 <= i < |o.messages| && o.messages[i].connector < |cfg.connectors| ::
      SpacedMessage(cfg.connectors[o.messages[i].connector], Times(o.calls, i), o.messages[i])
  }

  lemma DueSendKeepsSpaced(cfg: Config, o: Outbox, i: nat, v: Visit)
    requires Fits(cfg, o) && Spaced(cfg, o)
    requires Send(cfg, o, i, v).Ok? && IsDue(o.messages[i], v.now)
    ensures Spaced(cfg, Send(cfg, o, i, v).value)
  {
    var next := Send(cfg, o, i, v).value;
    DueSendSpacesItsMessage(cfg, o, i, v, next);
    forall j: nat | j < |next.messages| && j != i
      ensures next.messages[j] == o.messages[j] && Times(next.calls, j) == Times(o.calls, j)
    {
      CallAppend(o.calls, Call(i, v.now, v.ok), j);
    }
  }

  lemma DueSendSpacesItsMessage(cfg: Config, o: Outbox, i: nat, v: Visit, next: Outbox)
    requires Fits(cfg, o) && Spaced(cfg, o)
    requires Send(cfg, o, i, v) == Ok(next) && IsDue(o.messages[i], v.now)
    ensures next.messages[i].connector < |cfg.connectors|
    ensures SpacedMessage(cfg.connectors[next.messages[i].connector], Times(next.calls, i), next.messages[i])
  {
    var m := o.messages[i];
    CallAppend(o.calls, Call(i, v.now, v.ok), i);
    assert SpacedMessage(cfg.connectors[m.connector], Times(o.calls, i), m);
    assert MessageFits(cfg, o.calls, m, i);
    DueAttemptIsSpaced(cfg.connectors[m.connector], Times(o.calls, i), m, v);
  }

  lemma DueAttemptIsSpaced(c: Connector, times: seq<int>, m: Message, v: Visit)
    requires SpacedMessage(c, times, m) && Live(m) && IsDue(m, v.now)
    requires m.attempts == |times| && (m.status.Queued? ==> times == [])
    ensures SpacedMessage(c, times + [v.now], Attempted(c, m, v))
  {
    var n := |times|;
    TimesStaySpaced(c.backoff, times, v.now);
    assert c.backoff * Triangle(n + 1) == c.backoff * Triangle(n) + c.backoff * (n + 1);
  }

  lemma TimesStaySpaced(backoff: nat, times: seq<int>, t: int)
    requires SpacedTimes(backoff, times) && (times != [] ==> t >= times[0] + backoff * Triangle(|times|))
    ensures SpacedTimes(backoff, times + [t])
  {
    var grown := times + [t];
    assert forall k | 0 <= k < |times| :: grown[k] == times[k];
  }

  lemma {:induction false} FlushKeepsSpaced(cfg: Config, o: Outbox, ids: seq<nat>, visits: seq<Visit>)
    requires Fits(cfg, o) && Spaced(cfg, o) && |ids| <= |visits|
    ensures Spaced(cfg, FlushEach(cfg, o, ids, visits).outbox)
    decreases |ids|
  {
    if ids != [] {
      var i, v := ids[0], visits[0];
      if i < |o.messages| && IsDue(o.messages[i], v.now) && Send(cfg, o, i, v).Ok? {
        SendKeepsFits(cfg, o, i, v);
        DueSendKeepsSpaced(cfg, o, i, v);
        FlushKeepsSpaced(cfg, Send(cfg, o, i, v).value, ids[1..], visits[1..]);
      } else {
        FlushKeepsSpaced(cfg, o, ids[1..], visits[1..]);
      }
    }
  }

  lemma AppendingKeepsSpaced(cfg: Config, o: Outbox, next: seq<Message>)
    requires Fits(cfg, o) && Spaced(cfg, o) && Appends(cfg, o.messages, next)
    ensures Spaced(cfg, o.(messages := next))
  {
    forall i | |o.messages| <= i < |next|
      ensures Times(o.calls, i) == []
    {
      NoCallsYet(o.calls, i);
    }
  }

  lemma {:induction false} FlushRunKeepsSpaced(cfg: Config, o: Outbox, ops: seq<Op>)
    requires Fits(cfg, o) && Spaced(cfg, o)
    requires forall k | 0 <= k < |ops| :: !ops[k].SendOp?
    ensures Spaced(cfg, Run(cfg, o, ops))
    decreases |ops|
  {
    if ops != [] {
      var op := ops[0];
      StepKeepsFits(cfg, o, op);
      match op {
        case QueueOp(event) =>
          QueueAppends(cfg, o.messages, event, 0);
          AppendingKeepsSpaced(cfg, o, QueueEvent(cfg, o.messages, event));
        case FlushOp(limit, connector, visits) =>
          if limit <= |visits| { FlushKeepsSpaced(cfg, o, Selected(o.messages, limit, connector), visits); }
        case RequeueOp(keys) =>
          RequeueAppends(cfg, o.messages, keys, 0);
          AppendingKeepsSpaced(cfg, o, Requeue(cfg, o.messages, keys));
      }
      FlushRunKeepsSpaced(cfg, Step(cfg, o, op), ops[1..]);
    }
  }

  lemma SpacingInClosedForm(c: Connector, times: seq<int>, m: Message, n: nat)
    requires SpacedMessage(c, times, m) && 1 <= n <= |times|
    ensures 2 * (times[n - 1] - times[0]) >= c.backoff * (n * (n - 1))
  {
    TriangleClosed(n - 1);
    assert times[n - 1] >= times[0] + c.backoff * Triangle(n - 1);
    assert c.backoff * (2 * Triangle(n - 1)) == 2 * (c.backoff * Triangle(n - 1));
  }

  /** When only flushes send, attempt n comes at least backoff * n(n - 1) / 2 seconds after the first, n counted from one. */
  lemma AttemptsAreSpaced(cfg: Config, ops: seq<Op>, i: nat, n: nat)
    requires forall k | 0 <= k < |ops| :: !ops[k].SendOp?
    requires i < |Run(cfg, EMPTY, ops).messages| && 1 <= n <= |Times(Run(cfg, EMPTY, ops).calls, i)|
    ensures var o := Run(cfg, EMPTY, ops);
            && o.messages[i].connector < |cfg.connectors|
            && 2 * (Times(o.calls, i)[n - 1] - Times(o.calls, i)[0])
               >= cfg.connectors[o.messages[i].connector].backoff * (n * (n - 1))
  {
    var o := Run(cfg, EMPTY, ops);
    RunKeepsFits(cfg, EMPTY, ops);
    FlushRunKeepsSpaced(cfg, EMPTY, ops);
    assert MessageFits(cfg, o.calls, o.messages[i], i);
    var c, times := cfg.connectors[o.messages[i].connector], Times(o.calls, i);
    assert SpacedMessage(c, times, o.messages[i]);
    SpacingInClosedForm(c, times, o.messages[i], n);
  }

  // ----- Flushing ends -----

  /** Attempts the whole outbox may still make. */
  function TotalBudget(cfg: Config, messages: seq<Message>): int {
    if messages == [] then 0
    else
      var m := messages[|messages| - 1];
      TotalBudget(cfg, messages[..|messages| - 1])
      + if m.connector < |cfg.connectors| then Budget(cfg.connectors[m.connector]) - m.attempts else 0
  }

  lemma {:induction false} AttemptSpendsOne(cfg: Config, messages: seq<Message>, i: nat, m: Message)
    requires i < |messages| && m.connector == messages[i].connector < |cfg.connectors|
    requires m.attempts == messages[i].attempts + 1
    ensures TotalBudget(cfg, messages[i := m]) == TotalBudget(cfg, messages) - 1
  {
    var n := |messages| - 1;
    if i < n {
      AttemptSpendsOne(cfg, messages[..n], i, m);
      assert messages[i := m][..n] == messages[..n][i := m];
    } else {
      assert messages[i := m][..n] == messages[..n];
    }
  }

  /** Every flush spends exactly one attempt for each message it counts as sent or failed. */
  lemma {:induction false} FlushSpendsWhatItCounts(cfg: Config, o: Outbox, ids: seq<nat>, visits: seq<Visit>)
    requires |ids| <= |visits|
    ensures var f := FlushEach(cfg, o, ids, visits);
            TotalBudget(cfg, f.outbox.messages) + f.sent + f.failed == TotalBudget(cfg, o.messages)
    decreases |ids|
  {
    if ids != [] {
      var i, v := ids[0], visits[0];
      if i < |o.messages| && IsDue(o.messages[i], v.now) && Send(cfg, o, i, v).Ok? {
        AttemptSpendsOne(cfg, o.messages, i, Send(cfg, o, i, v).value.messages[i]);
        FlushSpendsWhatItCounts(cfg, Send(cfg, o, i, v).value, ids[1..], visits[1..]);
      } else {
        FlushSpendsWhatItCounts(cfg, o, ids[1..], visits[1..]);
      }
    }
  }

  /** At every visit of the flush, every live message is due. */
  ghost predicate AllDue(messages: seq<Message>, visits: seq<Visit>) {
    forall i, k | 0 <= i < |messages| && Live(messages[i]) && 0 <= k < |visits| :: IsDue(messages[i], visits[k].now)
  }

  lemma {:induction false} DueFlushCountsEveryMessage(cfg: Config, o: Outbox, ids: seq<nat>, visits: seq<Visit>)
    requires Fits(cfg, o) && |ids| <= |visits|
    requires forall a, b | 0 <= a < b < |ids| :: ids[a] < ids[b]
    requires forall a | 0 <= a < |ids| :: ids[a] < |o.messages| && Live(o.messages[ids[a]])
    requires forall a, k | 0 <= a < |ids| && 0 <= k < |visits| :: IsDue(o.messages[ids[a]], visits[k].now)
    ensures var f := FlushEach(cfg, o, ids, visits); f.sent + f.failed == |ids|
    decreases |ids|
  {
    if ids != [] {
      var i, v := ids[0], visits[0];
      assert MessageFits(cfg, o.calls, o.messages[i], i);
      SendKeepsFits(cfg, o, i, v);
      var next := Send(cfg, o, i, v).value;
      assert forall a | 1 <= a < |ids| :: ids[a] != i && next.messages[ids[a]] == o.messages[ids[a]];
      DueFlushCountsEveryMessage(cfg, next, ids[1..], visits[1..]);
    }
  }

  predicate AnyLive(messages: seq<Message>) {
    exists i :: 0 <= i < |messages| && Live(messages[i])
  }

  datatype Round = Round(limit: nat, visits: seq<Visit>)

  /** Repeated flushes of all connectors, each at times when everything live is due. */
  ghost predicate DueRounds(cfg: Config, o: Outbox, rounds: seq<Round>)
    decreases |rounds|
  {
    rounds != [] ==>
      var r := rounds[0];
      && 1 <= r.limit <= |r.visits| && AllDue(o.messages, r.visits)
      && DueRounds(cfg, Flush(cfg, o, r.limit, None, r.visits).outbox, rounds[1..])
  }

  function FlushAll(cfg: Config, o: Outbox, rounds: seq<Round>): Outbox
    decreases |rounds|
  {
    if rounds == [] then o
    else
      var r := rounds[0];
      FlushAll(cfg, if r.limit <= |r.visits| then Flush(cfg, o, r.limit, None, r.visits).outbox else o, rounds[1..])
  }

  lemma {:induction false} LiveMessageHasBudget(cfg: Config, o: Outbox, n: nat)
    requires Fits(cfg, o) && n <= |o.messages|
    ensures TotalBudget(cfg, o.messages[..n]) >= if AnyLive(o.messages[..n]) then 1 else 0
  {
    if n > 0 {
      LiveMessageHasBudget(cfg, o, n - 1);
      assert o.messages[..n][..n - 1] == o.messages[..n - 1];
      assert MessageFits(cfg, o.calls, o.messages[n - 1], n - 1);
      assert AnyLive(o.messages[..n]) ==> AnyLive(o.messages[..n - 1]) || Live(o.messages[n - 1]) by {
        if AnyLive(o.messages[..n]) {
          var i :| 0 <= i < n && Live(o.messages[..n][i]);
          assert i < n - 1 ==> o.messages[..n - 1][i] == o.messages[i];
        }
      }
    }
  }

  /** One due flush counts all it selects, so it spends that much of the budget. */
  lemma DueFlushSpends(cfg: Config, o: Outbox, r: Round)
    requires Fits(cfg, o) && 1 <= r.limit <= |r.visits| && AllDue(o.messages, r.visits)
    ensures var f := Flush(cfg, o, r.limit, None, r.visits);
            && f.sent + f.failed == |Selected(o.messages, r.limit, None)|
            && TotalBudget(cfg, f.outbox.messages) == TotalBudget(cfg, o.messages) - f.sent - f.failed
            && (AnyLive(o.messages) ==> f.sent + f.failed > 0)
  {
    var ids := Selected(o.messages, r.limit, None);
    SelectedAreLive(o.messages, r.limit);
    DueFlushCountsEveryMessage(cfg, o, ids, r.visits);
    FlushSpendsWhatItCounts(cfg, o, ids, r.visits);
  }

  /** A flush of all connectors selects live messages, oldest first, and some if there are any. */
  lemma SelectedAreLive(messages: seq<Message>, limit: nat)
    ensures var ids := Selected(messages, limit, None);
            && (forall a, b | 0 <= a < b < |ids| :: ids[a] < ids[b])
            && (forall a | 0 <= a < |ids| :: ids[a] < |messages| && Live(messages[ids[a]]))
            && (AnyLive(messages) && limit > 0 ==> ids != [])
  {
    var live, ids := LiveFrom(messages, None), Selected(messages, limit, None);
    forall a | 0 <= a < |ids|
      ensures ids[a] < |messages| && Live(messages[ids[a]])
    {
      assert live[a] in live;
    }
    if AnyLive(messages) {
      var i :| 0 <= i < |messages| && Live(messages[i]);
      assert i in live;
    }
  }

  /** As many due flushes as attempts are left leave no live message, whatever the transport answers. */
  lemma {:induction false} FlushesEmptyTheQueue(cfg: Config, o: Outbox, rounds: seq<Round>)
    requires Fits(cfg, o) && DueRounds(cfg, o, rounds)
    requires |rounds| >= TotalBudget(cfg, o.messages)
    ensures !AnyLive(FlushAll(cfg, o, rounds).messages)
    decreases |rounds|
  {
    assert o.messages[..|o.messages|] == o.messages;
    LiveMessageHasBudget(cfg, o, |o.messages|);
    if rounds != [] {
      var r := rounds[0];
      var next := Flush(cfg, o, r.limit, None, r.visits).outbox;
      DueFlushSpends(cfg, o, r);
      FlushKeepsFits(cfg, o, Selected(o.messages, r.limit, None), r.visits);
      if AnyLive(o.messages) {
        FlushesEmptyTheQueue(cfg, next, rounds[1..]);
      } else {
        SettledFlushesStaySettled(cfg, next, rounds[1..]);
      }
    }
  }

  lemma {:induction false} SettledFlushesStaySettled(cfg: Config, o: Outbox, rounds: seq<Round>)
    requires !AnyLive(o.messages)
    ensures FlushAll(cfg, o, rounds) == o
    decreases |rounds|
  {
    if rounds != [] {
      SettledFlushesStaySettled(cfg, o, rounds[1..]);
    }
  }
}
