/** The delivery loop can always be closed: successful rounds exist, and few of them bring the gap to zero. */
module OutboxClosing {
  import opened Wrappers
  import opened Lexical
  import opened Outbox
  import opened OutboxRetry
  import opened OutboxLoop

  /** A time at which every message is due. */
  function DueTime(messages: seq<Message>): (at: int)
    ensures forall i | 0 <= i < |messages| :: IsDue(messages[i], at)
  {
    if messages == [] then 0
    else
      var m := messages[|messages| - 1];
      var earlier := DueTime(messages[..|messages| - 1]);
      assert forall i | 0 <= i < |messages| - 1 :: messages[..|messages| - 1][i] == messages[i];
      if m.nextAttempt.Some? && m.nextAttempt.value > earlier then m.nextAttempt.value else earlier
  }

  /** A flush whose visits are all due and all succeed sends every message it selected. */
  lemma {:induction false} DueSuccessesSend(cfg: Config, o: Outbox, ids: seq<nat>, visits: seq<Visit>)
    requires Fits(cfg, o) && |ids| <= |visits| && forall k | 0 <= k < |visits| :: visits[k].ok
    requires forall a, b | 0 <= a < b < |ids| :: ids[a] < ids[b]
    requires forall a | 0 <= a < |ids| :: ids[a] < |o.messages| && Live(o.messages[ids[a]])
    requires forall a, k | 0 <= a < |ids| && 0 <= k < |visits| :: IsDue(o.messages[ids[a]], visits[k].now)
    ensures var last := FlushEach(cfg, o, ids, visits).outbox.messages;
            |last| == |o.messages| && forall a | 0 <= a < |ids| :: last[ids[a]].status.Sent?
    decreases |ids|
  {
    if ids != [] {
      var i, v := ids[0], visits[0];
      assert MessageFits(cfg, o.calls, o.messages[i], i);
      SendKeepsFits(cfg, o, i, v);
      var next := Send(cfg, o, i, v).value;
      assert forall a | 1 <= a < |ids| :: ids[a] != i && next.messages[ids[a]] == o.messages[ids[a]];
      DueSuccessesSend(cfg, next, ids[1..], visits[1..]);
      SuccessfulFlushSends(cfg, next, ids[1..], visits[1..]);
      var last := FlushEach(cfg, next, ids[1..], visits[1..]).outbox.messages;
      assert last == FlushEach(cfg, o, ids, visits).outbox.messages;
      assert next.messages[i].status.Sent?;
      FirstSentToo(last, ids);
    }
  }

  lemma FirstSentToo(last: seq<Message>, ids: seq<nat>)
    requires ids != [] && ids[0] < |last| && last[ids[0]].status.Sent?
    requires forall a | 0 <= a < |ids[1..]| :: ids[1..][a] < |last| && last[ids[1..][a]].status.Sent?
    ensures forall a | 0 <= a < |ids| :: ids[a] < |last| && last[ids[a]].status.Sent?
  {
    forall a: nat | 0 < a < |ids|
      ensures ids[a] < |last| && last[ids[a]].status.Sent?
    {
      assert ids[a] == ids[1..][a - 1];
    }
  }

  lemma SendingAllLiveEmpties(cfg: Config, o: Outbox, ids: seq<nat>, visits: seq<Visit>)
    requires Fits(cfg, o) && ids == LiveFrom(o.messages, None)
    requires |ids| <= |visits| && forall k | 0 <= k < |visits| :: visits[k].ok && visits[k].now == DueTime(o.messages)
    ensures !AnyLive(FlushEach(cfg, o, ids, visits).outbox.messages)
  {
    SelectedAreLive(o.messages, |ids|);
    DueSuccessesSend(cfg, o, ids, visits);
    SuccessfulFlushSends(cfg, o, ids, visits);
    NothingLeftLive(o.messages, FlushEach(cfg, o, ids, visits).outbox.messages, ids);
  }

  lemma NothingLeftLive(messages: seq<Message>, last: seq<Message>, ids: seq<nat>)
    requires ids == LiveFrom(messages, None) && |last| == |messages|
    requires forall i | 0 <= i < |last| :: last[i] == messages[i] || last[i].status.Sent?
    requires forall a | 0 <= a < |ids| :: ids[a] < |last| && last[ids[a]].status.Sent?
    ensures !AnyLive(last)
  {
    forall i: nat | i < |last|
      ensures !Live(last[i])
    {
      if Live(messages[i]) {
        assert i in ids;
        var a :| 0 <= a < |ids| && ids[a] == i;
      }
    }
  }

  /** One successful flush at a late enough time leaves nothing live. */
  lemma OneFlushEmpties(cfg: Config, o: Outbox) returns (op: Op)
    requires Fits(cfg, o)
    ensures SuccessfulFlush(op) && !AnyLive(Step(cfg, o, op).messages)
  {
    var ids, at := LiveFrom(o.messages, None), DueTime(o.messages);
    op := FlushOp(|ids|, None, seq(|ids|, _ => Visit(at, 0, true)));
    SendingAllLiveEmpties(cfg, o, ids, op.visits);
    assert Step(cfg, o, op) == FlushEach(cfg, o, ids, op.visits).outbox;
  }

  /** Some flushes complete a round. */
  lemma RoundExists(cfg: Config, o: Outbox, connector: nat, keys: seq<string>) returns (flushes: seq<Op>)
    requires WellKeyed(cfg) && Fits(cfg, o)
    ensures FlushedToEmpty(cfg, o, connector, keys, flushes)
  {
    var queued := Step(cfg, o, RequeueOp(keys));
    StepKeepsFits(cfg, o, RequeueOp(keys));
    var op := OneFlushEmpties(cfg, queued);
    flushes := [op];
    assert flushes[1..] == [];
    assert Run(cfg, queued, flushes) == Step(cfg, queued, op);
  }

  lemma {:induction false} RoundsExist(cfg: Config, o: Outbox, connector: nat, from: int, to: int)
    returns (rounds: seq<seq<Op>>)
    requires WellKeyed(cfg) && Fits(cfg, o) && Keyed(cfg, o.messages)
    requires AllRecoverable(cfg, o.messages, connector, from, to)
    ensures RoundsSucceed(cfg, o, connector, from, to, rounds)
    ensures GapNow(cfg, AfterRounds(cfg, o, connector, from, to, rounds), connector, from, to) == 0
    ensures MISSING_LIMIT * |rounds| < GapNow(cfg, o, connector, from, to) + MISSING_LIMIT
    decreases GapNow(cfg, o, connector, from, to)
  {
    if GapNow(cfg, o, connector, from, to) == 0 {
      rounds := [];
    } else {
      var flushes := RoundClosesSome(cfg, o, connector, from, to);
      var next := AfterRound(cfg, o, connector, from, to, flushes);
      var rest := RoundsExist(cfg, next, connector, from, to);
      rounds := [flushes] + rest;
      RoundBefore(cfg, o, connector, from, to, flushes, next, rest, rounds);
      RoundsFewEnough(GapNow(cfg, o, connector, from, to), GapNow(cfg, next, connector, from, to), |rest|);
    }
  }

  lemma RoundsFewEnough(gap: nat, left: nat, k: nat)
    requires 0 < gap && left <= (if gap > MISSING_LIMIT then gap - MISSING_LIMIT else 0)
    requires MISSING_LIMIT * k < left + MISSING_LIMIT
    ensures MISSING_LIMIT * (k + 1) < gap + MISSING_LIMIT
  {}

  lemma RoundClosesSome(cfg: Config, o: Outbox, connector: nat, from: int, to: int) returns (flushes: seq<Op>)
    requires WellKeyed(cfg) && Fits(cfg, o) && Keyed(cfg, o.messages)
    requires AllRecoverable(cfg, o.messages, connector, from, to)
    ensures FlushedToEmpty(cfg, o, connector, ListedNow(cfg, o, connector, from, to), flushes)
    ensures var next, gap := AfterRound(cfg, o, connector, from, to, flushes), GapNow(cfg, o, connector, from, to);
            && Fits(cfg, next) && Keyed(cfg, next.messages) && AllRecoverable(cfg, next.messages, connector, from, to)
            && GapNow(cfg, next, connector, from, to) <= if gap > MISSING_LIMIT then gap - MISSING_LIMIT else 0
  {
    var keys := ListedNow(cfg, o, connector, from, to);
    flushes := RoundExists(cfg, o, connector, keys);
    RoundShrinksGap(cfg, o, connector, from, to, keys, flushes);
    RequeueKeepsInvariants(cfg, o, keys, flushes);
    RoundKeepsAllRecoverable(cfg, o, connector, from, to, keys, flushes);
  }

  lemma RoundBefore(cfg: Config, o: Outbox, connector: nat, from: int, to: int, flushes: seq<Op>, next: Outbox,
                    rest: seq<seq<Op>>, rounds: seq<seq<Op>>)
    requires FlushedToEmpty(cfg, o, connector, ListedNow(cfg, o, connector, from, to), flushes)
    requires next == AfterRound(cfg, o, connector, from, to, flushes) && rounds == [flushes] + rest
    requires RoundsSucceed(cfg, next, connector, from, to, rest)
    ensures RoundsSucceed(cfg, o, connector, from, to, rounds)
    ensures AfterRounds(cfg, o, connector, from, to, rounds) == AfterRounds(cfg, next, connector, from, to, rest)
  {
    assert rounds[1..] == rest;
  }

  /**
   From every reachable outbox with nothing beyond recovery, at most one round for each 200 missing events,
   rounded up, brings the gap to zero.
   */
  lemma LoopCanClose(cfg: Config, before: seq<Op>, connector: nat, from: int, to: int) returns (rounds: seq<seq<Op>>)
    requires WellKeyed(cfg)
    requires AllRecoverable(cfg, Run(cfg, EMPTY, before).messages, connector, from, to)
    ensures var o := Run(cfg, EMPTY, before);
            && RoundsSucceed(cfg, o, connector, from, to, rounds)
            && GapNow(cfg, AfterRounds(cfg, o, connector, from, to, rounds), connector, from, to) == 0
            && MISSING_LIMIT * |rounds| < GapNow(cfg, o, connector, from, to) + MISSING_LIMIT
  {
    RunKeepsFits(cfg, EMPTY, before);
    RunKeepsKeyed(cfg, EMPTY, before);
    rounds := RoundsExist(cfg, Run(cfg, EMPTY, before), connector, from, to);
  }

  lemma UnqueuedWasUnqueued(cfg: Config, messages: seq<Message>, queued: Outbox, last: Outbox, connector: nat, key: string)
    requires messages <= queued.messages && SentOrSame(queued, last) && Unqueued(cfg, last.messages, connector, key)
    ensures Unqueued(cfg, messages, connector, key)
  {
    var c, e :| c in cfg.contracts && e in cfg.events && c.connector == connector && e.key == key
                && Listens(cfg, c, e) && !HasMessage(last.messages, c, key);
    forall i | 0 <= i < |messages|
      ensures !MessageOf(messages[i], c, key)
    {
      assert queued.messages[i] == messages[i] && !MessageOf(last.messages[i], c, key);
    }
  }

  lemma UndiscardedWasRecoverable(cfg: Config, messages: seq<Message>, queued: Outbox, last: Outbox, keys: seq<string>,
                                  connector: nat, key: string)
    requires WellKeyed(cfg) && Keyed(cfg, messages)
    requires queued.messages == Requeue(cfg, messages, keys) && SentOrSame(queued, last)
    requires Undiscarded(last.messages, connector, key)
    ensures Recoverable(cfg, messages, connector, key)
  {
    var m :| m in last.messages && ForEvent(m, connector, key) && !m.status.Discarded?;
    var i :| 0 <= i < |last.messages| && last.messages[i] == m;
    RequeuedWasRecoverable(cfg, messages, queued.messages, keys, i);
  }

  /** A round makes nothing recoverable that was not. */
  lemma RoundRecoversNoMore(cfg: Config, o: Outbox, connector: nat, keys: seq<string>, flushes: seq<Op>, key: string)
    requires WellKeyed(cfg) && Keyed(cfg, o.messages)
    requires forall k | 0 <= k < |flushes| :: SuccessfulFlush(flushes[k])
    requires Recoverable(cfg, AfterRequeue(cfg, o, keys, flushes).messages, connector, key)
    ensures Recoverable(cfg, o.messages, connector, key)
  {
    var queued := Step(cfg, o, RequeueOp(keys));
    var last := Run(cfg, queued, flushes);
    SuccessfulFlushesSend(cfg, queued, flushes);
    if Undiscarded(last.messages, connector, key) {
      UndiscardedWasRecoverable(cfg, o.messages, queued, last, keys, connector, key);
    } else {
      RequeueAppends(cfg, o.messages, keys, 0);
      UnqueuedWasUnqueued(cfg, o.messages, queued, last, connector, key);
    }
  }

  /** A missing event beyond recovery is missing after any number of rounds. */
  lemma {:induction false} LostStaysLost(cfg: Config, o: Outbox, connector: nat, from: int, to: int,
                                         rounds: seq<seq<Op>>, key: string)
    requires WellKeyed(cfg) && Fits(cfg, o) && Keyed(cfg, o.messages)
    requires RoundsSucceed(cfg, o, connector, from, to, rounds)
    requires key in Missing(cfg, o.messages, connector, from, to) && !Recoverable(cfg, o.messages, connector, key)
    ensures key in Missing(cfg, AfterRounds(cfg, o, connector, from, to, rounds).messages, connector, from, to)
    decreases |rounds|
  {
    if rounds != [] {
      var keys := ListedNow(cfg, o, connector, from, to);
      var next := AfterRequeue(cfg, o, keys, rounds[0]);
      MissingMeansUnsent(cfg, o.messages, connector, from, to, key);
      MissingMeansUnsent(cfg, next.messages, connector, from, to, key);
      assert !SentFor(next.messages, connector, key) by {
        if SentFor(next.messages, connector, key) {
          SentWasRecoverable(cfg, o, connector, keys, rounds[0], key);
        }
      }
      assert !Recoverable(cfg, next.messages, connector, key) by {
        if Recoverable(cfg, next.messages, connector, key) {
          RoundRecoversNoMore(cfg, o, connector, keys, rounds[0], key);
        }
      }
      RequeueKeepsInvariants(cfg, o, keys, rounds[0]);
      LostStaysLost(cfg, next, connector, from, to, rounds[1..], key);
    }
  }

  /** Successful rounds can bring a reachable outbox's gap to zero exactly when no missing event is beyond recovery. */
  lemma LoopCanCloseExactlyWhenRecoverable(cfg: Config, before: seq<Op>, connector: nat, from: int, to: int)
    requires WellKeyed(cfg)
    ensures var o := Run(cfg, EMPTY, before);
            AllRecoverable(cfg, o.messages, connector, from, to)
            <==> exists rounds :: RoundsSucceed(cfg, o, connector, from, to, rounds)
                   && GapNow(cfg, AfterRounds(cfg, o, connector, from, to, rounds), connector, from, to) == 0
  {
    var o := Run(cfg, EMPTY, before);
    if AllRecoverable(cfg, o.messages, connector, from, to) {
      var rounds := LoopCanClose(cfg, before, connector, from, to);
    } else {
      RunKeepsFits(cfg, EMPTY, before);
      RunKeepsKeyed(cfg, EMPTY, before);
      var key :| key in Missing(cfg, o.messages, connector, from, to) && !Recoverable(cfg, o.messages, connector, key);
      forall rounds | RoundsSucceed(cfg, o, connector, from, to, rounds)
        ensures GapNow(cfg, AfterRounds(cfg, o, connector, from, to, rounds), connector, from, to) > 0
      {
        LostStaysLost(cfg, o, connector, from, to, rounds, key);
        GapCountsMissing(cfg, AfterRounds(cfg, o, connector, from, to, rounds).messages, connector, from, to);
      }
    }
  }

  // ----- An event beyond recovery is reachable -----

  const FIRST_SHIFT := DomainEvent("shift-1", 1, 0)
  const ONE_ATTEMPT :=
    Config([Connector(Outbound, 1, 60, true)], [Contract("erp", 0, Outbound, true, Some(1))], [FIRST_SHIFT])
  const QUEUED_ONCE := NewMessage(ONE_ATTEMPT.contracts[0], FIRST_SHIFT)
  const DISCARDED_ONCE := QUEUED_ONCE.(attempts := 1, status := Discarded)

  /** One failed attempt of one allowed discards the only message, and the event is missing for good. */
  lemma LostEventIsReached()
    ensures WellKeyed(ONE_ATTEMPT) && CanSend(ONE_ATTEMPT, 0)
    ensures var o := Run(ONE_ATTEMPT, EMPTY, [QueueOp(FIRST_SHIFT), SendOp(0, Visit(0, 0, false))]);
            && FIRST_SHIFT.key in Missing(ONE_ATTEMPT, o.messages, 0, 0, 0)
            && !Recoverable(ONE_ATTEMPT, o.messages, 0, FIRST_SHIFT.key)
  {
    var contract := ONE_ATTEMPT.contracts[0];
    assert !GoesOn(contract.code, contract.code, ':');
    var queue, send := QueueOp(FIRST_SHIFT), SendOp(0, Visit(0, 0, false));
    assert [queue, send][1..] == [send] && [send][1..] == [];
    assert [] + [QUEUED_ONCE] == [QUEUED_ONCE];
    assert QueueEvent(ONE_ATTEMPT, [QUEUED_ONCE], FIRST_SHIFT, 1) == [QUEUED_ONCE];
    assert Step(ONE_ATTEMPT, EMPTY, queue) == Outbox([QUEUED_ONCE], []);
    var o := Outbox([DISCARDED_ONCE], [Call(0, 0, false)]);
    assert [QUEUED_ONCE][0 := DISCARDED_ONCE] == [DISCARDED_ONCE] && [] + o.calls == o.calls;
    assert Step(ONE_ATTEMPT, Outbox([QUEUED_ONCE], []), send) == o;
    assert Run(ONE_ATTEMPT, o, []) == o;
    assert Run(ONE_ATTEMPT, Outbox([QUEUED_ONCE], []), [send]) == o;
    LostWhenDiscarded(o.messages);
  }

  lemma LostWhenDiscarded(messages: seq<Message>)
    requires messages == [DISCARDED_ONCE]
    ensures FIRST_SHIFT.key in Missing(ONE_ATTEMPT, messages, 0, 0, 0)
    ensures !Recoverable(ONE_ATTEMPT, messages, 0, FIRST_SHIFT.key)
  {
    var contract := ONE_ATTEMPT.contracts[0];
    assert contract in ONE_ATTEMPT.contracts && 1 in ContractTypes(ONE_ATTEMPT, 0);
    assert FIRST_SHIFT in ONE_ATTEMPT.events;
    MissingMeansUnsent(ONE_ATTEMPT, messages, 0, 0, 0, FIRST_SHIFT.key);
    assert MessageOf(messages[0], contract, FIRST_SHIFT.key);
    assert forall c | c in ONE_ATTEMPT.contracts :: c == contract;
  }
}
