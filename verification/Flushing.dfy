/** What one flush does: whom it visits, in which order, whom it calls, and what changes. */
module Flushing {
  import opened Arithmetic
  import opened Wrappers
  import opened Outbox
  import opened OutboxRetry

  // ----- Whom a flush visits -----

  /** The message waits to go out, through the connector if one is asked for. */
  predicate Waits(messages: seq<Message>, connector: Option<nat>, i: nat) {
    && i < |messages| && (messages[i].status == Queued || messages[i].status == Failed)
    && (connector == None || connector == Some(messages[i].connector))
  }

  ghost function Waiting(messages: seq<Message>, connector: Option<nat>): set<nat> {
    set i: nat | i < |messages| && Waits(messages, connector, i)
  }

  predicate Ascending(ids: seq<nat>) {
    forall a, b | 0 <= a < b < |ids| :: ids[a] < ids[b]
  }

  lemma {:induction false} SizeOfAscending(ids: seq<nat>, s: set<nat>)
    requires Ascending(ids) && forall i :: i in ids <==> i in s
    ensures |ids| == |s|
  {
    if ids == [] {
      assert s == {};
    } else {
      var init, last := ids[..|ids| - 1], ids[|ids| - 1];
      assert ids == init + [last];
      assert last in ids;
      SizeOfAscending(init, s - {last});
    }
  }

  /** A flush visits the oldest waiting messages, in order, as many as the limit allows. */
  lemma OldestAreSelected(messages: seq<Message>, limit: nat, connector: Option<nat>)
    ensures var ids, waiting := Selected(messages, limit, connector), Waiting(messages, connector);
            && Ascending(ids) && (forall i | i in ids :: i in waiting) && |ids| == Min(limit, |waiting|)
            && forall i, j | i in ids && j in waiting && j !in ids :: i < j
  {
    LiveAreWaiting(messages, connector);
    FirstOfAscending(LiveFrom(messages, connector), Selected(messages, limit, connector), Waiting(messages, connector));
  }

  lemma LiveAreWaiting(messages: seq<Message>, connector: Option<nat>)
    ensures Ascending(LiveFrom(messages, connector))
    ensures forall i :: i in LiveFrom(messages, connector) <==> i in Waiting(messages, connector)
  {
    forall i: nat
      ensures i in LiveFrom(messages, connector) <==> i in Waiting(messages, connector)
    {
      if i < |messages| { assert Live(messages[i]) <==> messages[i].status == Queued || messages[i].status == Failed; }
    }
  }

  lemma FirstOfAscending(all: seq<nat>, first: seq<nat>, s: set<nat>)
    requires Ascending(all) && first <= all && forall i :: i in all <==> i in s
    ensures Ascending(first) && |all| == |s| && forall i | i in first :: i in s
    ensures forall i, j | i in first && j in s && j !in first :: i < j
  {
    SizeOfAscending(all, s);
    assert forall a | 0 <= a < |first| :: first[a] == all[a] && all[a] in all;
    forall i, j | i in first && j in all && j !in first
      ensures i < j
    {
      FirstAreLess(all, first, i, j);
    }
  }

  lemma FirstAreLess(all: seq<nat>, first: seq<nat>, i: nat, j: nat)
    requires Ascending(all) && first <= all && i in first && j in all && j !in first
    ensures i < j
  {
    assert forall h | 0 <= h < |first| :: first[h] == all[h] && first[h] in first;
    var a :| 0 <= a < |first| && first[a] == i;
    var b :| 0 <= b < |all| && all[b] == j;
  }

  // ----- Whom it calls -----

  /** Visit a finds its message due. */
  predicate FindsDue(messages: seq<Message>, ids: seq<nat>, visits: seq<Visit>, a: nat) {
    a < |ids| && a < |visits| && ids[a] < |messages| && IsDue(messages[ids[a]], visits[a].now)
  }

  function CallAt(ids: seq<nat>, visits: seq<Visit>, a: nat): Call
    requires a < |ids| && a < |visits|
  {
    Call(ids[a], visits[a].now, visits[a].ok)
  }

  /** The calls of the visits that find their message due, in order. */
  function DueCalls(messages: seq<Message>, ids: seq<nat>, visits: seq<Visit>): seq<Call>
    requires |ids| <= |visits|
    decreases |ids|
  {
    if ids == [] then []
    else
      (if FindsDue(messages, ids, visits, 0) then [CallAt(ids, visits, 0)] else [])
      + DueCalls(messages, ids[1..], visits[1..])
  }

  function Answered(calls: seq<Call>): nat {
    if calls == [] then 0 else (if calls[0].ok then 1 else 0) + Answered(calls[1..])
  }

  /** The calls are those of the due visits. */
  lemma {:induction false} DueCallsAreCalled(messages: seq<Message>, ids: seq<nat>, visits: seq<Visit>)
    requires |ids| <= |visits|
    ensures forall a: nat | FindsDue(messages, ids, visits, a) :: CallAt(ids, visits, a) in DueCalls(messages, ids, visits)
    ensures forall c | c in DueCalls(messages, ids, visits) ::
              exists a: nat :: FindsDue(messages, ids, visits, a) && c == CallAt(ids, visits, a)
    decreases |ids|
  {
    if ids != [] {
      var rest, later := ids[1..], visits[1..];
      DueCallsAreCalled(messages, rest, later);
      forall a: nat | a > 0
        ensures FindsDue(messages, ids, visits, a) <==> FindsDue(messages, rest, later, a - 1)
        ensures a < |ids| ==> CallAt(ids, visits, a) == CallAt(rest, later, a - 1)
      {}
      forall c | c in DueCalls(messages, rest, later)
        ensures exists a: nat :: FindsDue(messages, ids, visits, a) && c == CallAt(ids, visits, a)
      {
        var a: nat :| FindsDue(messages, rest, later, a) && c == CallAt(rest, later, a);
        assert FindsDue(messages, ids, visits, a + 1) && c == CallAt(ids, visits, a + 1);
      }
    }
  }

  predicate InMessageOrder(calls: seq<Call>) {
    forall m, n | 0 <= m < n < |calls| :: calls[m].message < calls[n].message
  }

  /** They come in the order of the messages, so each message has one at most. */
  lemma {:induction false} DueCallsAreInOrder(messages: seq<Message>, ids: seq<nat>, visits: seq<Visit>)
    requires |ids| <= |visits| && Ascending(ids)
    ensures InMessageOrder(DueCalls(messages, ids, visits))
    decreases |ids|
  {
    if ids != [] {
      var calls := DueCalls(messages, ids[1..], visits[1..]);
      DueCallsAreInOrder(messages, ids[1..], visits[1..]);
      DueCallsAreCalled(messages, ids[1..], visits[1..]);
      forall n | 0 <= n < |calls|
        ensures calls[n].message > ids[0]
      {
        assert calls[n] in calls;
      }
    }
  }

  lemma {:induction false} OtherMessageCallsNothing(messages: seq<Message>, ids: seq<nat>, visits: seq<Visit>, i: nat,
                                                    m: Message)
    requires |ids| <= |visits| && i < |messages| && i !in ids
    ensures DueCalls(messages[i := m], ids, visits) == DueCalls(messages, ids, visits)
    decreases |ids|
  {
    if ids != [] {
      OtherMessageCallsNothing(messages, ids[1..], visits[1..], i, m);
    }
  }

  /** Every visited message is there, is live and has its connector. */
  ghost predicate CanVisit(cfg: Config, messages: seq<Message>, ids: seq<nat>) {
    && Ascending(ids)
    && forall i | i in ids :: i < |messages| && Live(messages[i]) && messages[i].connector < |cfg.connectors|
  }

  /** After the first visit, called or not, the others can go on. */
  lemma {:induction false} FirstVisit(cfg: Config, o: Outbox, ids: seq<nat>, v: Visit)
    requires ids != [] && CanVisit(cfg, o.messages, ids)
    ensures ids[0] < |o.messages| && o.messages[ids[0]].connector < |cfg.connectors| && ids[0] !in ids[1..]
    ensures var i, m := ids[0], o.messages[ids[0]];
            Send(cfg, o, i, v) == Ok(Outbox(o.messages[i := Attempted(cfg.connectors[m.connector], m, v)],
                                            o.calls + [Call(i, v.now, v.ok)]))
    ensures CanVisit(cfg, o.messages, ids[1..]) && CanVisit(cfg, Send(cfg, o, ids[0], v).value.messages, ids[1..])
  {
    assert ids[0] in ids;
    assert forall i | i in ids[1..] :: i in ids;
  }

  lemma {:induction false} FlushCallsTheDue(cfg: Config, o: Outbox, ids: seq<nat>, visits: seq<Visit>)
    requires |ids| <= |visits| && CanVisit(cfg, o.messages, ids)
    ensures Calls(o, FlushEach(cfg, o, ids, visits), DueCalls(o.messages, ids, visits))
    decreases |ids|
  {
    if ids != [] {
      var i, v := ids[0], visits[0];
      FirstVisit(cfg, o, ids, v);
      if IsDue(o.messages[i], v.now) {
        var next := Send(cfg, o, i, v).value;
        OtherMessageCallsNothing(o.messages, ids[1..], visits[1..], i, next.messages[i]);
        FlushCallsTheDue(cfg, next, ids[1..], visits[1..]);
        CallFirst(o, next, Call(i, v.now, v.ok), DueCalls(o.messages, ids[1..], visits[1..]),
                  FlushEach(cfg, next, ids[1..], visits[1..]), FlushEach(cfg, o, ids, visits));
      } else {
        FlushCallsTheDue(cfg, o, ids[1..], visits[1..]);
        assert DueCalls(o.messages, ids, visits) == DueCalls(o.messages, ids[1..], visits[1..]);
      }
    }
  }

  /** The flush made these calls, and counted them. */
  ghost predicate Calls(o: Outbox, f: Flushed, calls: seq<Call>) {
    f.outbox.calls == o.calls + calls && f.sent == Answered(calls) && f.sent + f.failed == |calls|
  }

  lemma CallFirst(o: Outbox, next: Outbox, call: Call, later: seq<Call>, rest: Flushed, whole: Flushed)
    requires next.calls == o.calls + [call] && Calls(next, rest, later) && whole.outbox == rest.outbox
    requires whole.sent == rest.sent + (if call.ok then 1 else 0) && whole.failed == rest.failed + (if call.ok then 0 else 1)
    ensures Calls(o, whole, [call] + later)
  {
    assert ([call] + later)[1..] == later;
    assert next.calls + later == o.calls + ([call] + later);
  }

  // ----- What changes -----

  /** Each due visit made its one attempt at its message, and no other message changed. */
  ghost predicate Changes(cfg: Config, messages: seq<Message>, ids: seq<nat>, visits: seq<Visit>, last: seq<Message>) {
    && |last| == |messages|
    && (forall a: nat | FindsDue(messages, ids, visits, a) ::
          messages[ids[a]].connector < |cfg.connectors|
          && last[ids[a]] == Attempted(cfg.connectors[messages[ids[a]].connector], messages[ids[a]], visits[a]))
    && (forall i: nat | i < |last| && (forall a: nat | FindsDue(messages, ids, visits, a) :: ids[a] != i) ::
          last[i] == messages[i])
  }

  lemma {:induction false} FlushChangesTheDue(cfg: Config, o: Outbox, ids: seq<nat>, visits: seq<Visit>)
    requires |ids| <= |visits| && CanVisit(cfg, o.messages, ids)
    ensures Changes(cfg, o.messages, ids, visits, FlushEach(cfg, o, ids, visits).outbox.messages)
    decreases |ids|
  {
    if ids != [] {
      var i, v := ids[0], visits[0];
      FirstVisit(cfg, o, ids, v);
      var next := if IsDue(o.messages[i], v.now) then Send(cfg, o, i, v).value else o;
      FlushChangesTheDue(cfg, next, ids[1..], visits[1..]);
      FirstChange(cfg, o.messages, ids, visits, next.messages, FlushEach(cfg, next, ids[1..], visits[1..]).outbox.messages);
    }
  }

  lemma {:induction false} FirstChange(cfg: Config, messages: seq<Message>, ids: seq<nat>, visits: seq<Visit>,
                                       next: seq<Message>, last: seq<Message>)
    requires ids != [] && |ids| <= |visits| && CanVisit(cfg, messages, ids)
    requires ids[0] < |messages| && messages[ids[0]].connector < |cfg.connectors| && ids[0] !in ids[1..]
    requires next == if IsDue(messages[ids[0]], visits[0].now)
                     then messages[ids[0] :=
                                     Attempted(cfg.connectors[messages[ids[0]].connector], messages[ids[0]], visits[0])]
                     else messages
    requires Changes(cfg, next, ids[1..], visits[1..], last)
    ensures Changes(cfg, messages, ids, visits, last)
  {
    var i, rest, later := ids[0], ids[1..], visits[1..];
    forall a: nat
      ensures FindsDue(messages, ids, visits, a + 1) <==> FindsDue(next, rest, later, a)
    {
      assert a < |rest| ==> ids[a + 1] == rest[a] && rest[a] in rest;
    }
    assert last[i] == next[i];
    forall a: nat | FindsDue(messages, ids, visits, a)
      ensures messages[ids[a]].connector < |cfg.connectors|
      ensures last[ids[a]] == Attempted(cfg.connectors[messages[ids[a]].connector], messages[ids[a]], visits[a])
    {
      if a > 0 { assert FindsDue(next, rest, later, a - 1) && ids[a] == rest[a - 1] && ids[a] != i; }
    }
    forall j: nat | j < |last| && forall a: nat | FindsDue(messages, ids, visits, a) :: ids[a] != j
      ensures last[j] == messages[j]
    {
      assert FindsDue(messages, ids, visits, 0) ==> j != i;
      assert forall a: nat | FindsDue(next, rest, later, a) ::
          FindsDue(messages, ids, visits, a + 1) && rest[a] == ids[a + 1];
    }
  }

  /**
   One flush of a reachable outbox: the oldest waiting messages are visited, each due one is called exactly once, in
   order, and changes by its one attempt; no other message is called or changes, and the counts are those of the calls.
   */
  lemma FlushServesTheOldest(cfg: Config, o: Outbox, limit: nat, connector: Option<nat>, visits: seq<Visit>)
    requires Fits(cfg, o) && limit <= |visits|
    ensures var ids, waiting := Selected(o.messages, limit, connector), Waiting(o.messages, connector);
            && Ascending(ids) && (forall i | i in ids :: i in waiting) && |ids| == Min(limit, |waiting|)
            && forall i, j | i in ids && j in waiting && j !in ids :: i < j
    ensures var ids, f := Selected(o.messages, limit, connector), Flush(cfg, o, limit, connector, visits);
            && o.calls <= f.outbox.calls
            && var calls := f.outbox.calls[|o.calls|..];
            && (forall a: nat | FindsDue(o.messages, ids, visits, a) :: CallAt(ids, visits, a) in calls)
            && (forall c | c in calls :: exists a: nat :: FindsDue(o.messages, ids, visits, a) && c == CallAt(ids, visits, a))
            && InMessageOrder(calls)
            && f.sent == Answered(calls) && f.sent + f.failed == |calls|
    ensures Changes(cfg, o.messages, Selected(o.messages, limit, connector), visits,
                    Flush(cfg, o, limit, connector, visits).outbox.messages)
  {
    var ids := Selected(o.messages, limit, connector);
    OldestAreSelected(o.messages, limit, connector);
    forall i | i in ids
      ensures i < |o.messages| && Live(o.messages[i]) && o.messages[i].connector < |cfg.connectors|
    {
      assert i in Waiting(o.messages, connector);
      assert MessageFits(cfg, o.calls, o.messages[i], i);
    }
    FlushCallsTheDue(cfg, o, ids, visits);
    DueCallsAreCalled(o.messages, ids, visits);
    DueCallsAreInOrder(o.messages, ids, visits);
    FlushChangesTheDue(cfg, o, ids, visits);
    var f := Flush(cfg, o, limit, connector, visits);
    assert f.outbox.calls[|o.calls|..] == DueCalls(o.messages, ids, visits);
  }

  // ----- One attempt -----

  /** What an attempt leaves: one more attempt counted, and a status and next time by the answer and the budget. */
  lemma {:induction false} AttemptLeaves(cfg: Config, o: Outbox, i: nat, v: Visit, next: Outbox)
    requires Send(cfg, o, i, v) == Ok(next)
    ensures i < |o.messages| == |next.messages| && o.messages[i].connector < |cfg.connectors|
    ensures forall j | 0 <= j < |o.messages| && j != i :: next.messages[j] == o.messages[j]
    ensures next.calls == o.calls + [Call(i, v.now, v.ok)]
    ensures var c, m, after := cfg.connectors[o.messages[i].connector], o.messages[i], next.messages[i];
            && after == m.(attempts := m.attempts + 1, status := after.status, nextAttempt := after.nextAttempt)
            && (after.status == Sent <==> v.ok)
            && (after.status == Discarded <==> !v.ok && after.attempts >= c.maxAttempts)
            && (after.status == Failed <==> !v.ok && after.attempts < c.maxAttempts)
            && after.nextAttempt == if after.status == Failed
                                    then Some(v.now + v.latency + c.backoff * after.attempts) else None
  {}

  /** Only a live message of a known connector is attempted. */
  lemma {:induction false} SendAnswers(cfg: Config, o: Outbox, i: nat, v: Visit)
    ensures var answer := Send(cfg, o, i, v);
            var known := i < |o.messages| && o.messages[i].connector < |cfg.connectors|;
            && (answer == Err(NoSuchMessage) <==> !known)
            && (answer == Err(AlreadySent) <==> known && o.messages[i].status == Sent)
            && (answer == Err(WasDiscarded) <==> known && o.messages[i].status == Discarded)
            && (answer.Ok? <==> known && o.messages[i].status in {Queued, Failed})
  {}

  /** The message after n failing attempts, the first at a time and each further one as soon as it is due. */
  function AfterFailures(c: Connector, m: Message, first: int, n: nat): Message {
    if n == 0 then m
    else
      var before := AfterFailures(c, m, first, n - 1);
      Attempted(c, before, Visit(if before.nextAttempt.None? then first else before.nextAttempt.value, 0, false))
  }

  lemma Distributes(a: nat, b: nat, c: nat)
    ensures a * (b + c) == a * b + a * c
  {}

  /** The least waits are attained: retried when due, attempt n + 1 comes exactly 1 + 2 + ... + n waits after the first. */
  lemma {:induction false} SpacingIsAttained(c: Connector, m: Message, first: int, n: nat)
    requires m.status == Queued && m.attempts == 0 && m.nextAttempt == None && 0 < n < c.maxAttempts
    ensures var after := AfterFailures(c, m, first, n);
            after.status == Failed && after.attempts == n && after.nextAttempt == Some(first + c.backoff * Triangle(n))
    ensures n + 1 == c.maxAttempts ==> AfterFailures(c, m, first, n + 1).status == Discarded
  {
    if n > 1 {
      SpacingIsAttained(c, m, first, n - 1);
      Distributes(c.backoff, Triangle(n - 1), n);
    } else {
      assert Triangle(1) == 1;
    }
  }
}
