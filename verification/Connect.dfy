/** The outbox as the services update it: rows appended and assigned in loops, proved against the functions of Outbox. */
module Connect {
  import opened Arithmetic
  import opened Lexical
  import opened Wrappers
  import opened Outbox
  import opened OutboxLoop

  /** What a mapped field takes from the payload; `absent` where the payload lacks its source. */
  function Fetched<V>(payload: map<string, V>, source: string, absent: V): V {
    if source in payload then payload[source] else absent
  }

  /** The fixed fields, overlaid by the mapped fields among `done`. */
  ghost predicate Overlays<V>(body: map<string, V>, staticFields: map<string, V>, fieldMap: map<string, string>,
                              payload: map<string, V>, absent: V, done: set<string>)
    requires done <= fieldMap.Keys
  {
    && (forall k :: k in body <==> k in staticFields || k in done)
    && (forall k | k in done :: body[k] == Fetched(payload, fieldMap[k], absent))
    && (forall k | k in staticFields && k !in done :: body[k] == staticFields[k])
  }

  lemma OneMoreField<V>(body: map<string, V>, staticFields: map<string, V>, fieldMap: map<string, string>,
                        payload: map<string, V>, absent: V, done: set<string>, target: string)
    requires done <= fieldMap.Keys && target in fieldMap && Overlays(body, staticFields, fieldMap, payload, absent, done)
    ensures Overlays(body[target := Fetched(payload, fieldMap[target], absent)], staticFields, fieldMap, payload, absent,
                     done + {target})
  {}

  /**
   A contract's body for an event, over JSON values of any kind: the fixed fields, overlaid by each mapped field read
   from its source, with `absent` where the payload lacks it, or by the whole payload when nothing is mapped.
   */
  method Render<V>(staticFields: map<string, V>, fieldMap: map<string, string>, payload: map<string, V>, absent: V)
    returns (body: map<string, V>)
    ensures fieldMap != map[] ==> Overlays(body, staticFields, fieldMap, payload, absent, fieldMap.Keys)
    ensures fieldMap == map[] ==>
              && (forall k :: k in body <==> k in staticFields || k in payload)
              && (forall k | k in body :: body[k] == if k in payload then payload[k] else staticFields[k])
  {
    body := staticFields;
    if fieldMap == map[] {
      body := body + payload;
      return;
    }
    var rest := fieldMap.Keys;
    ghost var done: set<string> := {};
    while rest != {}
      invariant rest <= fieldMap.Keys && done == fieldMap.Keys - rest
      invariant Overlays(body, staticFields, fieldMap, payload, absent, done)
      decreases |rest|
    {
      var target :| target in rest;
      OneMoreField(body, staticFields, fieldMap, payload, absent, done, target);
      body := body[target := Fetched(payload, fieldMap[target], absent)];
      rest := rest - {target};
      done := done + {target};
    }
    assert done == fieldMap.Keys;
  }

  /** One turn of the flush loop. */
  lemma FlushTurn(cfg: Config, o: Outbox, ids: seq<nat>, visits: seq<Visit>, k: nat)
    requires k < |ids| <= |visits|
    ensures var i, v := ids[k], visits[k];
            var here := FlushEach(cfg, o, ids[k..], visits[k..]);
            if (i < |o.messages| && !IsDue(o.messages[i], v.now)) || Send(cfg, o, i, v).Err? then
              here == FlushEach(cfg, o, ids[k + 1..], visits[k + 1..])
            else
              var rest := FlushEach(cfg, Send(cfg, o, i, v).value, ids[k + 1..], visits[k + 1..]);
              here == if v.ok then rest.(sent := rest.sent + 1) else rest.(failed := rest.failed + 1)
  {
    assert ids[k..][1..] == ids[k + 1..] && visits[k..][1..] == visits[k + 1..];
  }

  class ConnectOutbox {
    const cfg: Config
    var messages: seq<Message>
    var calls: seq<Call>

    function Contents(): Outbox
      reads this
    {
      Outbox(messages, calls)
    }

    constructor (cfg: Config)
      ensures this.cfg == cfg && Contents() == EMPTY
    {
      this.cfg, messages, calls := cfg, [], [];
    }

    method QueueFromEvent(event: DomainEvent)
      modifies this`messages
      ensures Contents() == Step(cfg, old(Contents()), QueueOp(event))
    {
      ghost var goal := QueueEvent(cfg, messages, event);
      for i := 0 to |cfg.contracts|
        invariant QueueEvent(cfg, messages, event, i) == goal
      {
        QueueForContract(cfg.contracts[i], event);
      }
    }

    /** A message for one contract, if it listens and its key is not taken. */
    method QueueForContract(contract: Contract, event: DomainEvent)
      modifies this`messages
      ensures messages == if Listens(cfg, contract, event) && !HasKey(old(messages), KeyFor(contract, event))
                          then old(messages) + [NewMessage(contract, event)] else old(messages)
    {
      if Listens(cfg, contract, event) {
        var key := KeyFor(contract, event);
        if !HasKey(messages, key) {
          messages := messages + [NewMessage(contract, event)];
        }
      }
    }

    /** One attempt; `v` carries the moment and the transport's answer. */
    method SendMessage(i: nat, v: Visit) returns (error: Option<SendError>)
      modifies this
      ensures error.None? ==> Send(cfg, old(Contents()), i, v) == Ok(Contents())
                              && i < |messages| && (messages[i].status.Sent? <==> v.ok)
      ensures error.Some? ==> Send(cfg, old(Contents()), i, v) == Err(error.value) && Contents() == old(Contents())
    {
      if i >= |messages| || messages[i].connector >= |cfg.connectors| { return Some(NoSuchMessage); }
      var m := messages[i];
      if m.status == Sent { return Some(AlreadySent); }
      if m.status == Discarded { return Some(WasDiscarded); }
      var connector := cfg.connectors[m.connector];
      calls := calls + [Call(i, v.now, v.ok)];
      m := m.(attempts := m.attempts + 1);
      if v.ok {
        m := m.(status := Sent, nextAttempt := None);
      } else if m.attempts >= connector.maxAttempts {
        m := m.(status := Discarded, nextAttempt := None);
      } else {
        m := m.(status := Failed, nextAttempt := Some(v.now + v.latency + BackoffFor(connector, m.attempts)));
      }
      messages := messages[i := m];
      return None;
    }

    /** Sends what is live and due, oldest first, counting what went out and what failed. */
    method FlushOutbound(limit: nat, connector: Option<nat>, visits: seq<Visit>) returns (sent: nat, failed: nat)
      requires limit <= |visits|
      modifies this
      ensures Flushed(Contents(), sent, failed) == Flush(cfg, old(Contents()), limit, connector, visits)
    {
      var ids := Selected(messages, limit, connector);
      sent, failed := SendEach(ids, visits);
    }

    method SendEach(ids: seq<nat>, visits: seq<Visit>) returns (sent: nat, failed: nat)
      requires |ids| <= |visits|
      modifies this
      ensures Flushed(Contents(), sent, failed) == FlushEach(cfg, old(Contents()), ids, visits)
    {
      sent, failed := 0, 0;
      ghost var whole := FlushEach(cfg, Contents(), ids, visits);
      assert ids[0..] == ids && visits[0..] == visits;
      for k := 0 to |ids|
        invariant var rest := FlushEach(cfg, Contents(), ids[k..], visits[k..]);
                  whole == Flushed(rest.outbox, sent + rest.sent, failed + rest.failed)
      {
        var i, v := ids[k], visits[k];
        FlushTurn(cfg, Contents(), ids, visits, k);
        if i < |messages| && !IsDue(messages[i], v.now) {
          continue;
        }
        var error := SendMessage(i, v);
        if error.None? {
          if messages[i].status == Sent {
            sent := sent + 1;
          } else {
            failed := failed + 1;
          }
        }
      }
    }

    /**
     Compares the events of the period with what went out. The gap counts the events nothing was sent for, the keys
     listed are the least of theirs, and a clean run means that none is left and nothing failed or was discarded.
     */
    method ReconcileConnector(connector: nat, from: int, to: int) returns (run: ReconciliationRun)
      ensures run == Reconcile(cfg, messages, connector, from, to)
      ensures Gap(run) == |Missing(cfg, messages, connector, from, to)|
      ensures forall key :: key in Missing(cfg, messages, connector, from, to)
                <==> key in Expected(cfg, connector, from, to) && !SentFor(messages, connector, key)
      ensures |run.missing| == Min(200, Gap(run))
      ensures Distinct(run.missing) && forall k | k in run.missing :: k in Missing(cfg, messages, connector, from, to)
      ensures forall k, l | k in run.missing && l in Missing(cfg, messages, connector, from, to) && l !in run.missing ::
                Less(k, l)
      ensures IsClean(run) <==>
                && Missing(cfg, messages, connector, from, to) == {}
                && forall m | m in messages && m.connector == connector && m.event in Expected(cfg, connector, from, to) ::
                     !m.status.Failed? && !m.status.Discarded?
      ensures run.queued == |Counted(messages, connector, Expected(cfg, connector, from, to), {Queued})|
      ensures run.failed == |Counted(messages, connector, Expected(cfg, connector, from, to), {Failed, Discarded})|
    {
      FiguresCount(cfg, messages, connector, from, to);
      ReconciliationIsExact(cfg, messages, connector, from, to);
      ListedAreLeast(cfg, messages, connector, from, to);
      var expected := Expected(cfg, connector, from, to);
      var sentKeys := SentKeys(messages, connector, expected);
      var queued := CountStatus(messages, connector, expected, {Queued});
      var failed := CountStatus(messages, connector, expected, {Failed, Discarded});
      var missing := Sorted(expected - sentKeys);
      if |missing| > MISSING_LIMIT { missing := missing[..MISSING_LIMIT]; }
      run := ReconciliationRun(|expected|, queued, |sentKeys|, failed, missing);
    }

    method RequeueMissing(keys: seq<string>)
      modifies this`messages
      ensures Contents() == Step(cfg, old(Contents()), RequeueOp(keys))
    {
      ghost var before := messages;
      for i := 0 to |cfg.events|
        invariant calls == old(calls)
        invariant Requeue(cfg, messages, keys, i) == Requeue(cfg, before, keys)
      {
        if cfg.events[i].key in keys {
          QueueFromEvent(cfg.events[i]);
        }
      }
    }
  }
}
