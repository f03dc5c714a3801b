/** The order of work on a production line: queueing a plan's units, moving an item, changing its status. */
module LineQueue {
  import opened Arithmetic
  import opened Wrappers
  import Serials

  datatype ItemStatus = Queued | Ready | InProgress | Held | Completed | Cancelled

  /** A queue row; its key is its position in the table. The stamp is the time of its last change. */
  datatype Item = Item(unit: nat, line: nat, sequence: nat, status: ItemStatus, stamp: int)

  datatype QueueError = PlanNotReleased | NoRoute | NoUnits | ItemFinished | PositionNotPositive | ActionNotAvailable

  predicate Movable(item: Item) {
    !item.status.Completed? && !item.status.Cancelled?
  }

  /** The order in which a line's items are read: by sequence, then by key. */
  predicate Before(items: seq<Item>, a: nat, b: nat)
    requires a < |items| && b < |items|
  {
    items[a].sequence < items[b].sequence || (items[a].sequence == items[b].sequence && a < b)
  }

  // ----- The queue of a line -----

  /** The keys are in queue order. */
  predicate InOrder(items: seq<Item>, keys: seq<nat>) {
    && (forall k | 0 <= k < |keys| :: keys[k] < |items|)
    && (forall i, j | 0 <= i < j < |keys| :: Before(items, keys[i], keys[j]))
  }

  predicate OnLine(items: seq<Item>, line: nat, key: nat) {
    key < |items| && items[key].line == line && Movable(items[key])
  }

  /** The keys are the line's movable items other than one, in queue order. */
  ghost predicate Lists(items: seq<Item>, line: nat, without: Option<nat>, keys: seq<nat>) {
    InOrder(items, keys) && forall key: nat :: key in keys <==> OnLine(items, line, key) && without != Some(key)
  }

  lemma LastStaysLast(items: seq<Item>, keys: seq<nat>, key: nat, rest: seq<nat>)
    requires keys != [] && InOrder(items, keys) && key < |items| && key !in keys
    requires !Before(items, keys[|keys| - 1], key)
    requires InOrder(items, rest) && forall k | k in rest :: k in keys[..|keys| - 1] || k == key
    ensures InOrder(items, rest + [keys[|keys| - 1]])
  {
    var last := keys[|keys| - 1];
    assert last in keys && Before(items, key, last);
    assert forall k | k in keys[..|keys| - 1] :: k < |items| && Before(items, k, last);
    assert forall i | 0 <= i < |rest| :: rest[i] in rest;
  }

  function Place(items: seq<Item>, keys: seq<nat>, key: nat): (placed: seq<nat>)
    requires InOrder(items, keys) && key < |items| && key !in keys
    ensures InOrder(items, placed)
    ensures forall k: nat :: k in placed <==> k in keys || k == key
  {
    if keys == [] then [key]
    else
      var n := |keys| - 1;
      assert keys == keys[..n] + [keys[n]];
      if Before(items, keys[n], key) then keys + [key]
      else
        var rest := Place(items, keys[..n], key);
        LastStaysLast(items, keys, key, rest);
        rest + [keys[n]]
  }

  /** The query for a line's movable items among the first n keys. */
  function Listing(items: seq<Item>, line: nat, without: Option<nat>, n: nat): (keys: seq<nat>)
    requires n <= |items|
    ensures InOrder(items, keys)
    ensures forall k: nat :: k in keys <==> k < n && OnLine(items, line, k) && without != Some(k)
  {
    if n == 0 then []
    else
      var earlier := Listing(items, line, without, n - 1);
      if OnLine(items, line, n - 1) && without != Some(n - 1) then Place(items, earlier, n - 1) else earlier
  }

  function QueueOf(items: seq<Item>, line: nat): seq<nat> {
    Listing(items, line, None, |items|)
  }

  /** Two listings of the same keys in queue order are one list. */
  lemma {:induction false} OrderIsUnique(items: seq<Item>, a: seq<nat>, b: seq<nat>)
    requires InOrder(items, a) && InOrder(items, b)
    requires forall key: nat :: key in a <==> key in b
    ensures a == b
  {
    HasFirst(a);
    HasFirst(b);
    if a != [] {
      LeastIsFirst(items, a, b);
      TailDropsFirst(items, a);
      TailDropsFirst(items, b);
      OrderIsUnique(items, a[1..], b[1..]);
      assert a == [a[0]] + a[1..] && b == [b[0]] + b[1..];
    }
  }

  lemma HasFirst(keys: seq<nat>)
    ensures keys == [] || keys[0] in keys
  {}

  lemma FirstIsLeast(items: seq<Item>, keys: seq<nat>, key: nat)
    requires InOrder(items, keys) && key in keys
    ensures key == keys[0] || Before(items, keys[0], key)
  {}

  lemma LeastIsFirst(items: seq<Item>, a: seq<nat>, b: seq<nat>)
    requires InOrder(items, a) && InOrder(items, b) && a != [] && b != []
    requires forall key: nat :: key in a <==> key in b
    ensures a[0] == b[0]
  {
    assert a[0] in a && b[0] in b;
    FirstIsLeast(items, a, b[0]);
    FirstIsLeast(items, b, a[0]);
  }

  lemma TailDropsFirst(items: seq<Item>, keys: seq<nat>)
    requires InOrder(items, keys) && keys != []
    ensures InOrder(items, keys[1..])
    ensures forall key: nat :: key in keys[1..] <==> key in keys && key != keys[0]
  {
    assert forall i | 0 < i < |keys| :: Before(items, keys[0], keys[i]);
    assert keys == [keys[0]] + keys[1..];
    assert forall i | 0 <= i < |keys[1..]| :: keys[1..][i] != keys[0];
  }

  // ----- Moving an item -----

  function InsertAt(keys: seq<nat>, at: nat, key: nat): (next: seq<nat>)
    requires at <= |keys|
    ensures |next| == |keys| + 1 && next[at] == key
  {
    keys[..at] + [key] + keys[at..]
  }

  /** A list without one of its keys. */
  function Without(keys: seq<nat>, key: nat): seq<nat> {
    if keys == [] then [] else (if keys[0] == key then [] else [keys[0]]) + Without(keys[1..], key)
  }

  function PositionIn(keys: seq<nat>, key: nat): (at: nat)
    requires key in keys
    ensures at < |keys| && keys[at] == key
  {
    if keys[0] == key then 0 else 1 + PositionIn(keys[1..], key)
  }

  /** Sequence numbers from 1 along the order; a row whose number is already right is not written. */
  function Renumbered(items: seq<Item>, order: seq<nat>, now: int): (next: seq<Item>)
    ensures |next| == |items|
  {
    seq(|items|, key requires 0 <= key < |items| => RenumberedItem(items[key], order, key, now))
  }

  function RenumberedItem(item: Item, order: seq<nat>, key: nat, now: int): (next: Item) {
    if key in order && item.sequence != PositionIn(order, key) + 1
    then item.(sequence := PositionIn(order, key) + 1, stamp := now) else item
  }

  function MoveIssue(items: seq<Item>, key: nat, position: int): Option<QueueError>
    requires key < |items|
  {
    if !Movable(items[key]) then Some(ItemFinished)
    else if position < 1 then Some(PositionNotPositive)
    else None
  }

  /** The others as they are, with the key at the position asked for or at the end. */
  function PutAt(others: seq<nat>, key: nat, position: nat): (order: seq<nat>)
    requires position > 0
    ensures |order| == |others| + 1
  {
    InsertAt(others, Min(position, |others| + 1) - 1, key)
  }

  /** The order after a move. */
  function NewOrder(items: seq<Item>, key: nat, position: nat): seq<nat>
    requires key < |items| && position > 0
  {
    PutAt(Listing(items, items[key].line, Some(key), |items|), key, position)
  }

  function Moved(items: seq<Item>, key: nat, position: nat, now: int): seq<Item>
    requires key < |items| && position > 0
  {
    Renumbered(items, NewOrder(items, key, position), now)
  }

  // ----- What a move does to the queue -----

  /** The line's items are numbered 1 to n along the queue. */
  ghost predicate Compact(items: seq<Item>, line: nat) {
    forall k | 0 <= k < |QueueOf(items, line)| ::
      QueueOf(items, line)[k] < |items| && items[QueueOf(items, line)[k]].sequence == k + 1
  }

  predicate NoDuplicates(keys: seq<nat>) {
    forall i, j | 0 <= i < j < |keys| :: keys[i] != keys[j]
  }

  lemma InOrderHasNoDuplicates(items: seq<Item>, keys: seq<nat>)
    requires InOrder(items, keys)
    ensures NoDuplicates(keys)
  {
    forall i, j | 0 <= i < j < |keys|
      ensures keys[i] != keys[j]
    {
      assert Before(items, keys[i], keys[j]);
    }
  }

  lemma PositionIsUnique(keys: seq<nat>, k: nat)
    requires NoDuplicates(keys) && k < |keys|
    ensures PositionIn(keys, keys[k]) == k
  {
    var at := PositionIn(keys, keys[k]);
    assert at == k || at < k || k < at;
  }

  /** The new order lists exactly the line's movable items, each once. */
  lemma NewOrderIsAnOrder(items: seq<Item>, key: nat, position: nat)
    requires key < |items| && Movable(items[key]) && position > 0
    ensures var order := NewOrder(items, key, position);
            && NoDuplicates(order)
            && (forall k: nat :: k in order <==> OnLine(items, items[key].line, k))
  {
    var others := Listing(items, items[key].line, Some(key), |items|);
    var at := Min(position, |others| + 1) - 1;
    var order := NewOrder(items, key, position);
    InOrderHasNoDuplicates(items, others);
    assert key !in others;
    InsertKeepsKeys(others, at, key);
  }

  lemma InsertKeepsKeys(keys: seq<nat>, at: nat, key: nat)
    requires at <= |keys| && key !in keys && NoDuplicates(keys)
    ensures NoDuplicates(InsertAt(keys, at, key))
    ensures forall k: nat :: k in InsertAt(keys, at, key) <==> k in keys || k == key
  {
    var next := InsertAt(keys, at, key);
    assert forall i | 0 <= i < |next| :: next[i] == if i < at then keys[i] else if i == at then key else keys[i - 1];
    forall k: nat | k in keys
      ensures k in next
    {
      var i :| 0 <= i < |keys| && keys[i] == k;
      assert next[if i < at then i else i + 1] == k;
    }
  }

  /** Numbering along any order of the line's items makes that order the queue, numbered 1 to n. */
  lemma RenumberingMakesTheQueue(items: seq<Item>, line: nat, order: seq<nat>, now: int)
    requires NoDuplicates(order) && forall k: nat :: k in order <==> OnLine(items, line, k)
    ensures var next := Renumbered(items, order, now);
            && QueueOf(next, line) == order && Compact(next, line)
            && (forall key: nat | key < |items| && key !in order :: next[key] == items[key])
  {
    var next := Renumbered(items, order, now);
    forall k | 0 <= k < |order|
      ensures order[k] < |next| && next[order[k]].sequence == k + 1
    {
      assert order[k] in order;
      PositionIsUnique(order, k);
    }
    forall key: nat
      ensures OnLine(next, line, key) <==> OnLine(items, line, key)
    {}
    OrderIsUnique(next, QueueOf(next, line), order);
  }

  /** Removing the item from the queue leaves what the query without it lists. */
  lemma WithoutIsTheListing(items: seq<Item>, key: nat)
    requires key < |items|
    ensures Without(QueueOf(items, items[key].line), key) == Listing(items, items[key].line, Some(key), |items|)
  {
    var queue := QueueOf(items, items[key].line);
    WithoutKeepsOrder(items, queue, key);
    OrderIsUnique(items, Without(queue, key), Listing(items, items[key].line, Some(key), |items|));
  }

  lemma {:induction false} WithoutKeepsOrder(items: seq<Item>, keys: seq<nat>, key: nat)
    requires InOrder(items, keys)
    ensures InOrder(items, Without(keys, key))
    ensures forall k: nat :: k in Without(keys, key) <==> k in keys && k != key
  {
    if keys != [] {
      TailDropsFirst(items, keys);
      WithoutKeepsOrder(items, keys[1..], key);
      var rest := Without(keys[1..], key);
      forall i | 0 <= i < |rest|
        ensures Before(items, keys[0], rest[i])
      {
        assert rest[i] in keys[1..];
        var j :| 0 < j < |keys| && keys[j] == rest[i];
      }
    }
  }

  lemma NewOrderFromQueue(items: seq<Item>, key: nat, position: nat)
    requires key < |items| && Movable(items[key]) && position > 0
    ensures var queue := QueueOf(items, items[key].line);
            && key in queue && NoDuplicates(queue) && |Without(queue, key)| == |queue| - 1
            && NewOrder(items, key, position) == PutAt(Without(queue, key), key, position)
  {
    var queue := QueueOf(items, items[key].line);
    assert OnLine(items, items[key].line, key);
    InOrderHasNoDuplicates(items, queue);
    WithoutIsTheListing(items, key);
    WithoutAndBack(queue, key);
  }

  /** A move makes the new order the line's queue. */
  lemma MoveMakesTheOrder(items: seq<Item>, key: nat, position: nat, now: int)
    requires key < |items| && Movable(items[key]) && position > 0
    ensures QueueOf(Moved(items, key, position, now), items[key].line) == NewOrder(items, key, position)
  {
    NewOrderIsAnOrder(items, key, position);
    RenumberingMakesTheQueue(items, items[key].line, NewOrder(items, key, position), now);
  }

  /**
   * A move takes the item out of the line's queue and puts it in at the position asked for, or at the end; the
   * line's items are then numbered exactly 1 to n, and every other row, finished ones included, is left alone.
   */
  lemma MoveReordersTheLine(items: seq<Item>, key: nat, position: nat, now: int)
    requires key < |items| && Movable(items[key]) && position > 0
    ensures var line := items[key].line;
            var queue, next := QueueOf(items, line), Moved(items, key, position, now);
            && QueueOf(next, line) == PutAt(Without(queue, key), key, position)
            && |QueueOf(next, line)| == |queue| && QueueOf(next, line)[Min(position, |queue|) - 1] == key
            && Compact(next, line)
            && |next| == |items| && (forall k: nat | k < |items| && !OnLine(items, line, k) :: next[k] == items[k])
  {
    NewOrderFromQueue(items, key, position);
    NewOrderIsAnOrder(items, key, position);
    RenumberingMakesTheQueue(items, items[key].line, NewOrder(items, key, position), now);
  }

  /** What a move keeps of every row, and what it stamps: rows whose number it changed. */
  lemma MoveWritesOnlyNewNumbers(items: seq<Item>, key: nat, position: nat, now: int, k: nat)
    requires key < |items| && Movable(items[key]) && position > 0 && k < |items|
    ensures var before, after := items[k], Moved(items, key, position, now)[k];
            && after.unit == before.unit && after.line == before.line && after.status == before.status
            && after.stamp == if after.sequence != before.sequence then now else before.stamp
  {}

  lemma InsertAfterFirst(first: nat, rest: seq<nat>, at: nat, key: nat)
    requires at <= |rest|
    ensures InsertAt([first] + rest, at + 1, key) == [first] + InsertAt(rest, at, key)
  {}

  lemma {:induction false} WithoutAndBack(keys: seq<nat>, key: nat)
    requires NoDuplicates(keys) && key in keys
    ensures |Without(keys, key)| == |keys| - 1
    ensures InsertAt(Without(keys, key), PositionIn(keys, key), key) == keys
  {
    var rest := keys[1..];
    assert keys == [keys[0]] + rest;
    if keys[0] == key {
      WithoutAbsent(rest, key);
      assert InsertAt(rest, 0, key) == keys;
    } else {
      WithoutAndBack(rest, key);
      InsertAfterFirst(keys[0], Without(rest, key), PositionIn(rest, key), key);
    }
  }

  /** Taking the item out of where it was put gives the others back. */
  lemma OthersComeBack(others: seq<nat>, key: nat, position: nat)
    requires key !in others && position > 0
    ensures Without(PutAt(others, key, position), key) == others
  {
    WithoutOfInsert(others, Min(position, |others| + 1) - 1, key);
  }

  /** Putting the item where it stood gives the queue back. */
  lemma PutBack(queue: seq<nat>, key: nat, others: seq<nat>, place: nat)
    requires NoDuplicates(queue) && key in queue
    requires others == Without(queue, key) && place == PositionIn(queue, key) + 1
    ensures PutAt(others, key, place) == queue
  {
    WithoutAndBack(queue, key);
  }

  lemma {:induction false} WithoutLacks(keys: seq<nat>, key: nat)
    ensures key !in Without(keys, key)
  {
    if keys != [] {
      WithoutLacks(keys[1..], key);
    }
  }

  /** Moving back to the old position restores the order of the line. */
  lemma MovingBackRestoresTheOrder(items: seq<Item>, key: nat, position: nat, back: nat, now: int, later: int)
    requires key < |items| && Movable(items[key]) && position > 0
    requires key in QueueOf(items, items[key].line) && back == PositionIn(QueueOf(items, items[key].line), key) + 1
    ensures QueueOf(Moved(Moved(items, key, position, now), key, back, later), items[key].line)
         == QueueOf(items, items[key].line)
  {
    var line := items[key].line;
    var queue, next := QueueOf(items, line), Moved(items, key, position, now);
    NewOrderFromQueue(items, key, position);
    var others := Without(queue, key);
    MoveMakesTheOrder(items, key, position, now);
    assert next[key].line == line && Movable(next[key]);
    calc {
      QueueOf(Moved(next, key, back, later), line);
      { MoveMakesTheOrder(next, key, back, later); }
      NewOrder(next, key, back);
      { NewOrderFromQueue(next, key, back); }
      PutAt(Without(PutAt(others, key, position), key), key, back);
      { WithoutLacks(queue, key); OthersComeBack(others, key, position); }
      PutAt(others, key, back);
      { PutBack(queue, key, others, back); }
      queue;
    }
  }

  lemma {:induction false} WithoutOfInsert(keys: seq<nat>, at: nat, key: nat)
    requires at <= |keys| && key !in keys
    ensures Without(InsertAt(keys, at, key), key) == keys
  {
    var next := InsertAt(keys, at, key);
    if at == 0 {
      assert next[1..] == keys;
      WithoutAbsent(keys, key);
    } else {
      assert next[1..] == InsertAt(keys[1..], at - 1, key);
      WithoutOfInsert(keys[1..], at - 1, key);
      assert keys == [keys[0]] + keys[1..];
    }
  }

  lemma {:induction false} WithoutAbsent(keys: seq<nat>, key: nat)
    requires key !in keys
    ensures Without(keys, key) == keys
  {
    if keys != [] {
      WithoutAbsent(keys[1..], key);
      assert keys == [keys[0]] + keys[1..];
    }
  }

  /** Numbering along the queue itself writes nothing exactly when the line is already numbered 1 to n. */
  lemma RenumberingQueueIsIdleExactlyWhenCompact(items: seq<Item>, line: nat, now: int)
    ensures Renumbered(items, QueueOf(items, line), now) == items <==> Compact(items, line)
  {
    var queue := QueueOf(items, line);
    InOrderHasNoDuplicates(items, queue);
    RenumberingMakesTheQueue(items, line, queue, now);
    var next := Renumbered(items, queue, now);
    if Compact(items, line) {
      forall k: nat | k < |items|
        ensures next[k] == items[k]
      {
        if k in queue {
          assert queue[PositionIn(queue, k)] == k;
        }
      }
      assert next == items;
    }
  }

  /** Moving an item to where it is writes nothing exactly when the line is already numbered 1 to n. */
  lemma StayingPutIsIdleExactlyWhenCompact(items: seq<Item>, key: nat, same: nat, now: int)
    requires key < |items| && Movable(items[key])
    requires key in QueueOf(items, items[key].line) && same == PositionIn(QueueOf(items, items[key].line), key) + 1
    ensures Moved(items, key, same, now) == items <==> Compact(items, items[key].line)
  {
    var line := items[key].line;
    NewOrderFromQueue(items, key, same);
    PutBack(QueueOf(items, line), key, Without(QueueOf(items, line), key), same);
    RenumberingQueueIsIdleExactlyWhenCompact(items, line, now);
  }

  // ----- Queueing a plan's units -----

  /** What queueing reads of a plan; its units come in order of serial number. */
  datatype Plan = Plan(line: nat, status: Serials.PlanStatus, hasRoute: bool, units: seq<nat>)

  function QueueIssue(plan: Plan): Option<QueueError> {
    if plan.status.Draft? || plan.status.Cancelled? || plan.status.Closed? then Some(PlanNotReleased)
    else if !plan.hasRoute then Some(NoRoute)
    else if plan.units == [] then Some(NoUnits)
    else None
  }

  /** Only plans released or in execution, with a route and with units, are queued. */
  lemma {:induction false} QueueingAnswers(plan: Plan)
    ensures var open := plan.status in {Serials.PlanStatus.Released, Serials.PlanStatus.InExecution};
            && (QueueIssue(plan) == Some(PlanNotReleased) <==> !open)
            && (QueueIssue(plan) == Some(NoRoute) <==> open && !plan.hasRoute)
            && (QueueIssue(plan) == Some(NoUnits) <==> open && plan.hasRoute && plan.units == [])
            && (QueueIssue(plan) == None <==> open && plan.hasRoute && plan.units != [])
  {}

  predicate HasItem(items: seq<Item>, unit: nat) {
    exists k | 0 <= k < |items| :: items[k].unit == unit
  }

  /** The greatest sequence ever given on the line, finished items included; 0 when there is none. */
  function LastSequence(items: seq<Item>, line: nat): (last: nat)
    ensures forall k | 0 <= k < |items| && items[k].line == line :: items[k].sequence <= last
    ensures last > 0 ==> exists k :: 0 <= k < |items| && items[k].line == line && items[k].sequence == last
  {
    if items == [] then 0
    else
      var earlier, item := LastSequence(items[..|items| - 1], line), items[|items| - 1];
      assert items == items[..|items| - 1] + [item];
      if item.line == line && item.sequence > earlier then item.sequence else earlier
  }

  /** Rows for the units that have none, numbered on from the last sequence. */
  function Appended(items: seq<Item>, line: nat, units: seq<nat>, last: nat, now: int): (next: seq<Item>)
    decreases |units|
  {
    if units == [] then items
    else if HasItem(items, units[0]) then Appended(items, line, units[1..], last, now)
    else Appended(items + [Item(units[0], line, last + 1, Queued, now)], line, units[1..], last + 1, now)
  }

  function QueuedPlan(items: seq<Item>, plan: Plan, now: int): seq<Item> {
    Appended(items, plan.line, plan.units, LastSequence(items, plan.line), now)
  }

  ghost predicate OneItemPerUnit(items: seq<Item>) {
    forall i, j | 0 <= i < j < |items| :: items[i].unit != items[j].unit
  }

  /** No two movable items of a line share a sequence. */
  ghost predicate DistinctSequences(items: seq<Item>) {
    forall i, j | 0 <= i < j < |items| && Movable(items[i]) && Movable(items[j]) && items[i].line == items[j].line ::
      items[i].sequence != items[j].sequence
  }

  ghost predicate Sane(items: seq<Item>) {
    OneItemPerUnit(items) && DistinctSequences(items)
  }

  /** The rows from a key on are new, queued on the line, and numbered above and along the queue. */
  ghost predicate AtTheEnd(items: seq<Item>, line: nat, from: nat, last: nat) {
    && from <= |items|
    && (forall k | 0 <= k < from && items[k].line == line :: items[k].sequence <= last)
    && (forall k | from <= k < |items| ::
          items[k].line == line && items[k].status.Queued? && items[k].sequence == last + 1 + (k - from))
  }

  lemma {:induction false} AppendedExtends(items: seq<Item>, line: nat, units: seq<nat>, from: nat, base: nat, now: int)
    requires AtTheEnd(items, line, from, base) && OneItemPerUnit(items)
    ensures var next := Appended(items, line, units, base + |items| - from, now);
            && items <= next && AtTheEnd(next, line, from, base) && OneItemPerUnit(next)
            && (forall unit | unit in units :: HasItem(next, unit))
            && (forall k | |items| <= k < |next| :: next[k].unit in units)
    decreases |units|
  {
    if units != [] {
      var last := base + |items| - from;
      if HasItem(items, units[0]) {
        AppendedExtends(items, line, units[1..], from, base, now);
        var k :| 0 <= k < |items| && items[k].unit == units[0];
        assert Appended(items, line, units[1..], last, now)[k] == items[k];
      } else {
        var longer := items + [Item(units[0], line, last + 1, Queued, now)];
        AppendedExtends(longer, line, units[1..], from, base, now);
        assert Appended(longer, line, units[1..], last + 1, now)[|items|] == longer[|items|];
      }
    }
  }

  function KeysFrom(from: nat, to: nat): (keys: seq<nat>)
    requires from <= to
    ensures |keys| == to - from && forall k | 0 <= k < |keys| :: keys[k] == from + k
  {
    seq(to - from, k requires 0 <= k < to - from => from + k)
  }

  /**
   * Queueing a plan gives every one of its units exactly one item, keeps every row there was, and puts the new
   * items at the end of the line's queue in the order of the units.
   */
  lemma QueueingAppends(items: seq<Item>, plan: Plan, now: int)
    requires OneItemPerUnit(items)
    ensures var next := QueuedPlan(items, plan, now);
            && items <= next && OneItemPerUnit(next)
            && (forall unit | unit in plan.units :: HasItem(next, unit))
            && QueueOf(next, plan.line) == QueueOf(items, plan.line) + KeysFrom(|items|, |next|)
  {
    var line, last := plan.line, LastSequence(items, plan.line);
    AppendedExtends(items, line, plan.units, |items|, last, now);
    EndOfTheQueue(items, QueuedPlan(items, plan, now), line, last);
  }

  /** The rows added are queued items for the plan's units at ascending positions, numbered on from the last sequence. */
  ghost predicate FollowThePlan(items: seq<Item>, next: seq<Item>, line: nat, units: seq<nat>, last: nat, now: int,
                                positions: seq<nat>) {
    && items <= next && |positions| == |next| - |items|
    && (forall i, j | 0 <= i < j < |positions| :: positions[i] < positions[j])
    && (forall j | 0 <= j < |positions| ::
          positions[j] < |units| && next[|items| + j] == Item(units[positions[j]], line, last + 1 + j, Queued, now))
  }

  /** The new items stand in the order of the plan's units. */
  lemma {:induction false} NewItemsFollowThePlan(items: seq<Item>, line: nat, units: seq<nat>, last: nat, now: int)
    returns (positions: seq<nat>)
    ensures FollowThePlan(items, Appended(items, line, units, last, now), line, units, last, now, positions)
    decreases |units|
  {
    if units == [] {
      positions := [];
    } else if HasItem(items, units[0]) {
      var rest := NewItemsFollowThePlan(items, line, units[1..], last, now);
      positions := Later(rest);
      SkippedUnitFollows(items, Appended(items, line, units[1..], last, now), line, units, last, now, rest);
    } else {
      var grown := items + [Item(units[0], line, last + 1, Queued, now)];
      var rest := NewItemsFollowThePlan(grown, line, units[1..], last + 1, now);
      positions := [0] + Later(rest);
      QueuedUnitFollows(items, grown, Appended(grown, line, units[1..], last + 1, now), line, units, last, now, rest);
    }
  }

  lemma {:induction false} SkippedUnitFollows(items: seq<Item>, next: seq<Item>, line: nat, units: seq<nat>, last: nat,
                                              now: int, rest: seq<nat>)
    requires units != [] && FollowThePlan(items, next, line, units[1..], last, now, rest)
    ensures FollowThePlan(items, next, line, units, last, now, Later(rest))
  {}

  lemma {:induction false} QueuedUnitFollows(items: seq<Item>, grown: seq<Item>, next: seq<Item>, line: nat,
                                             units: seq<nat>, last: nat, now: int, rest: seq<nat>)
    requires units != [] && grown == items + [Item(units[0], line, last + 1, Queued, now)]
    requires FollowThePlan(grown, next, line, units[1..], last + 1, now, rest)
    ensures FollowThePlan(items, next, line, units, last, now, [0] + Later(rest))
  {
    var positions := [0] + Later(rest);
    assert next[|items|] == grown[|items|];
    forall j | 0 < j < |positions|
      ensures positions[j] < |units| && next[|items| + j] == Item(units[positions[j]], line, last + 1 + j, Queued, now)
    {
      assert positions[j] == rest[j - 1] + 1 && next[|items| + j] == next[|grown| + (j - 1)];
    }
  }

  function Later(positions: seq<nat>): (later: seq<nat>)
    ensures |later| == |positions| && forall j | 0 <= j < |later| :: later[j] == positions[j] + 1
  {
    seq(|positions|, j requires 0 <= j < |positions| => positions[j] + 1)
  }

  lemma MembersAtTheEnd(items: seq<Item>, next: seq<Item>, line: nat, last: nat, all: seq<nat>)
    requires items <= next && AtTheEnd(next, line, |items|, last)
    requires all == QueueOf(items, line) + KeysFrom(|items|, |next|)
    ensures forall key: nat :: key in all <==> OnLine(next, line, key)
  {
    var later := KeysFrom(|items|, |next|);
    forall key: nat
      ensures key in all <==> OnLine(next, line, key)
    {
      if |items| <= key < |next| { assert later[key - |items|] == key; }
      assert key in all <==> key in QueueOf(items, line) || key in later;
    }
  }

  lemma EndOfTheQueue(items: seq<Item>, next: seq<Item>, line: nat, last: nat)
    requires items <= next && AtTheEnd(next, line, |items|, last)
    ensures QueueOf(next, line) == QueueOf(items, line) + KeysFrom(|items|, |next|)
  {
    var earlier, later := QueueOf(items, line), KeysFrom(|items|, |next|);
    var all := earlier + later;
    forall i, j | 0 <= i < j < |all|
      ensures all[i] < |next| && all[j] < |next| && Before(next, all[i], all[j])
    {
      assert i < |earlier| ==> all[i] in earlier;
      assert j < |earlier| ==> Before(items, earlier[i], earlier[j]);
    }
    MembersAtTheEnd(items, next, line, last, all);
    assert forall k | 0 <= k < |all| :: all[k] in all;
    OrderIsUnique(next, QueueOf(next, line), all);
  }

  /** Queueing the same plan again adds nothing. */
  lemma {:induction false} QueueingAgainIsIdle(items: seq<Item>, line: nat, units: seq<nat>, last: nat, now: int)
    requires forall unit | unit in units :: HasItem(items, unit)
    ensures Appended(items, line, units, last, now) == items
    decreases |units|
  {
    if units != [] {
      QueueingAgainIsIdle(items, line, units[1..], last, now);
    }
  }

  // ----- Status and runs -----

  function WithStatus(items: seq<Item>, key: nat, status: ItemStatus, now: int): seq<Item>
    requires key < |items|
  {
    items[key := items[key].(status := status, stamp := now)]
  }

  /** The actions the queue screen offers; each is refused on a finished item. */
  datatype Action = Move(position: int) | MakeReady | Hold | Cancel

  function ActionStatus(action: Action): ItemStatus
    requires !action.Move?
  {
    match action
    case MakeReady => Ready
    case Hold => Held
    case Cancel => Cancelled
  }

  /** Done with: no longer in anyone's queue. */
  predicate IsFinished(item: Item) {
    item.status == Completed || item.status == Cancelled
  }

  /** An action is refused on finished items, a move also below position 1; the others write a status, and that alone. */
  lemma {:induction false} ActionAnswers(items: seq<Item>, key: nat, action: Action, now: int)
    requires key < |items|
    ensures var answer := Acted(items, key, action, now);
            && (answer == Err(ActionNotAvailable) <==> IsFinished(items[key]))
            && (answer == Err(PositionNotPositive) <==> !IsFinished(items[key]) && action.Move? && action.position < 1)
            && (answer.Err? ==> answer.error in {ActionNotAvailable, PositionNotPositive})
            && (answer.Ok? && !action.Move? ==>
                  var status := if action == MakeReady then Ready else if action == Hold then Held else Cancelled;
                  answer.value == items[key := Item(items[key].unit, items[key].line, items[key].sequence, status, now)])
  {}

  function Acted(items: seq<Item>, key: nat, action: Action, now: int): Result<seq<Item>, QueueError>
    requires key < |items|
  {
    if !Movable(items[key]) then Err(ActionNotAvailable)
    else if !action.Move? then Ok(WithStatus(items, key, ActionStatus(action), now))
    else if action.position < 1 then Err(PositionNotPositive)
    else Ok(Moved(items, key, action.position, now))
  }

  datatype Op = QueuePlan(plan: Plan, at: int) | Act(key: nat, action: Action, at: int)

  function Step(items: seq<Item>, op: Op): seq<Item> {
    match op
    case QueuePlan(plan, at) => if QueueIssue(plan).Some? then items else QueuedPlan(items, plan, at)
    case Act(key, action, at) =>
      if key < |items| && Acted(items, key, action, at).Ok? then Acted(items, key, action, at).value else items
  }

  function Run(items: seq<Item>, ops: seq<Op>): seq<Item>
    decreases |ops|
  {
    if ops == [] then items else Step(Run(items, ops[..|ops| - 1]), ops[|ops| - 1])
  }

  lemma QueueingKeepsSane(items: seq<Item>, plan: Plan, now: int)
    requires Sane(items)
    ensures Sane(QueuedPlan(items, plan, now))
  {
    AppendedExtends(items, plan.line, plan.units, |items|, LastSequence(items, plan.line), now);
  }

  lemma RenumberingKeepsSane(items: seq<Item>, line: nat, order: seq<nat>, now: int)
    requires Sane(items) && forall k: nat :: k in order <==> OnLine(items, line, k)
    ensures Sane(Renumbered(items, order, now))
  {
    var next := Renumbered(items, order, now);
    forall i, j | 0 <= i < j < |items| && Movable(next[i]) && Movable(next[j]) && next[i].line == next[j].line
      ensures next[i].sequence != next[j].sequence
    {
      assert i in order <==> j in order;
      if i in order {
        assert order[PositionIn(order, i)] == i && order[PositionIn(order, j)] == j;
      }
    }
  }

  lemma MoveKeepsSane(items: seq<Item>, key: nat, position: nat, now: int)
    requires Sane(items) && key < |items| && Movable(items[key]) && position > 0
    ensures Sane(Moved(items, key, position, now))
  {
    NewOrderIsAnOrder(items, key, position);
    RenumberingKeepsSane(items, items[key].line, NewOrder(items, key, position), now);
  }

  /** Over every run of queueing, moving and the guarded status changes: sequences stay distinct, units have one item. */
  lemma {:induction false} RunKeepsSane(items: seq<Item>, ops: seq<Op>)
    requires Sane(items)
    ensures Sane(Run(items, ops))
    decreases |ops|
  {
    if ops != [] {
      var earlier, op := Run(items, ops[..|ops| - 1]), ops[|ops| - 1];
      RunKeepsSane(items, ops[..|ops| - 1]);
      if op.QueuePlan? {
        QueueingKeepsSane(earlier, op.plan, op.at);
      } else if op.key < |earlier| && Movable(earlier[op.key]) && op.action.Move? && op.action.position > 0 {
        MoveKeepsSane(earlier, op.key, op.action.position, op.at);
      }
    }
  }

  /** Without the guard, making a finished item movable keeps sequences distinct exactly when its number is free. */
  lemma RevivalIsSafeExactlyWhenNumberIsFree(items: seq<Item>, key: nat, status: ItemStatus, now: int)
    requires DistinctSequences(items) && key < |items| && !Movable(items[key])
    requires !status.Completed? && !status.Cancelled?
    ensures DistinctSequences(WithStatus(items, key, status, now))
            <==> forall k: nat | OnLine(items, items[key].line, k) :: items[k].sequence != items[key].sequence
  {
    var next := WithStatus(items, key, status, now);
    if DistinctSequences(next) {
      forall k: nat | OnLine(items, items[key].line, k)
        ensures items[k].sequence != items[key].sequence
      {
        assert next[k] == items[k];
        assert if k < key then next[k].sequence != next[key].sequence else next[key].sequence != next[k].sequence;
      }
    }
  }

  /** Cancelling takes the item out of the queue and leaves the others in order; holding and readying move nothing. */
  lemma StatusChangeKeepsTheOrder(items: seq<Item>, key: nat, action: Action, now: int)
    requires key < |items| && Movable(items[key]) && !action.Move?
    ensures var queue := QueueOf(items, items[key].line);
            QueueOf(WithStatus(items, key, ActionStatus(action), now), items[key].line)
            == if action.Cancel? then Without(queue, key) else queue
  {
    var line := items[key].line;
    var queue, next := QueueOf(items, line), WithStatus(items, key, ActionStatus(action), now);
    var expected := if action.Cancel? then Without(queue, key) else queue;
    WithoutKeepsOrder(items, queue, key);
    assert InOrder(items, expected);
    assert forall i, j | 0 <= i < j < |expected| ::
        Before(items, expected[i], expected[j]) ==> Before(next, expected[i], expected[j]);
    OrderIsUnique(next, QueueOf(next, line), expected);
  }

  // ----- The tables -----

  /** The first n rows of the order carry their new number; the rest are as before. */
  ghost predicate RenumberedUpTo(before: seq<Item>, items: seq<Item>, order: seq<nat>, n: nat, now: int)
    requires n <= |order|
  {
    && |items| == |before|
    && forall k: nat | k < |items| ::
         items[k] == if k in order[..n] then RenumberedItem(before[k], order, k, now) else before[k]
  }

  lemma TurnRenumbersOne(before: seq<Item>, items: seq<Item>, order: seq<nat>, n: nat, now: int)
    requires n < |order| && NoDuplicates(order) && order[n] < |items| && RenumberedUpTo(before, items, order, n, now)
    ensures RenumberedUpTo(before, items[order[n] := RenumberedItem(before[order[n]], order, order[n], now)], order,
                           n + 1, now)
    ensures items[order[n]] == before[order[n]]
    ensures RenumberedItem(before[order[n]], order, order[n], now)
         == if items[order[n]].sequence != n + 1 then items[order[n]].(sequence := n + 1, stamp := now) else items[order[n]]
  {
    PositionIsUnique(order, n);
    assert order[..n + 1] == order[..n] + [order[n]];
    assert order[n] in order && order[n] !in order[..n];
  }

  class QueueTable {
    var items: seq<Item>

    constructor ()
      ensures items == [] && Sane(items)
    {
      items := [];
    }

    method CreateFromPlan(plan: Plan, now: int) returns (result: Result<seq<nat>, QueueError>)
      modifies this
      ensures var issue := QueueIssue(plan);
              if issue.Some? then result == Err(issue.value) && items == old(items)
              else
                && items == QueuedPlan(old(items), plan, now) && old(|items|) <= |items|
                && result == Ok(KeysFrom(old(|items|), |items|))
    {
      if plan.status.Draft? || plan.status.Cancelled? || plan.status.Closed? {
        return Err(PlanNotReleased);
      }
      if !plan.hasRoute {
        return Err(NoRoute);
      }
      if plan.units == [] {
        return Err(NoUnits);
      }
      var last := LastSequence(items, plan.line);
      var created: seq<nat> := [];
      for n := 0 to |plan.units|
        invariant old(|items|) <= |items| && created == KeysFrom(old(|items|), |items|)
        invariant Appended(items, plan.line, plan.units[n..], last, now) == QueuedPlan(old(items), plan, now)
      {
        var unit := plan.units[n];
        assert plan.units[n..][1..] == plan.units[n + 1..];
        if !HasItem(items, unit) {
          last := last + 1;
          created := created + [|items|];
          items := items + [Item(unit, plan.line, last, Queued, now)];
        }
      }
      result := Ok(created);
    }

    method Resequence(key: nat, position: int, now: int) returns (result: Result<nat, QueueError>)
      requires key < |items|
      modifies this
      ensures var issue := MoveIssue(old(items), key, position);
              if issue.Some? then result == Err(issue.value) && items == old(items)
              else items == Moved(old(items), key, position, now) && result == Ok(items[key].sequence)
    {
      if items[key].status.Completed? || items[key].status.Cancelled? {
        return Err(ItemFinished);
      }
      if position < 1 {
        return Err(PositionNotPositive);
      }
      var siblings := Listing(items, items[key].line, Some(key), |items|);
      var order := InsertAt(siblings, Min(position, |siblings| + 1) - 1, key);
      NewOrderIsAnOrder(items, key, position);
      WriteNumbers(order, now);
      result := Ok(items[key].sequence);
    }

    /** Numbers the rows along an order, writing only those whose number differs. */
    method WriteNumbers(order: seq<nat>, now: int)
      requires NoDuplicates(order) && forall k | 0 <= k < |order| :: order[k] < |items|
      modifies this
      ensures items == Renumbered(old(items), order, now)
    {
      for index := 0 to |order|
        invariant RenumberedUpTo(old(items), items, order, index, now)
      {
        var sibling := order[index];
        TurnRenumbersOne(old(items), items, order, index, now);
        if items[sibling].sequence != index + 1 {
          items := items[sibling := items[sibling].(sequence := index + 1, stamp := now)];
        }
      }
      assert order[..|order|] == order;
      assert items == Renumbered(old(items), order, now);
    }

    method SetStatus(key: nat, status: ItemStatus, now: int)
      requires key < |items|
      modifies this
      ensures items == WithStatus(old(items), key, status, now)
    {
      items := items[key := items[key].(status := status, stamp := now)];
    }

    /** The queue screen: an action on an item, refused on finished ones. */
    method TakeAction(key: nat, action: Action, now: int) returns (error: Option<QueueError>)
      requires key < |items|
      modifies this
      ensures match Acted(old(items), key, action, now)
              case Ok(next) => items == next && error.None?
              case Err(e) => items == old(items) && error == Some(e)
      ensures error == Some(ActionNotAvailable) <==> IsFinished(old(items[key]))
      ensures error == None && !action.Move? ==>
                && items[key].status == (if action == MakeReady then Ready else if action == Hold then Held else Cancelled)
                && items == old(items)[key := old(items[key]).(status := items[key].status, stamp := now)]
    {
      ActionAnswers(items, key, action, now);
      if items[key].status.Completed? || items[key].status.Cancelled? {
        return Some(ActionNotAvailable);
      }
      error := None;
      match action {
        case Move(position) =>
          var result := Resequence(key, position, now);
          if result.Err? { error := Some(result.error); }
        case MakeReady => SetStatus(key, Ready, now);
        case Hold => SetStatus(key, Held, now);
        case Cancel => SetStatus(key, Cancelled, now);
      }
    }
  }
}
