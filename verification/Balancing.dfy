/** Line balancing: the greedy redistribution of work above the takt to stations below it. */
module Balancing {
  import opened Arithmetic
  import opened Wrappers
  import opened Moves

  // ----- Targets used up -----

  function Zeros(s: seq<nat>): nat {
    if s == [] then 0 else Zeros(s[..|s| - 1]) + if s[|s| - 1] == 0 then 1 else 0
  }

  lemma {:induction false} ZerosBound(s: seq<nat>)
    ensures Zeros(s) <= |s|
    ensures Zeros(s) == |s| <==> forall i | 0 <= i < |s| :: s[i] == 0
    ensures Zeros(s) == 0 <==> forall i | 0 <= i < |s| :: s[i] > 0
  {
    if s != [] { ZerosBound(s[..|s| - 1]); }
  }

  lemma {:induction false} ZerosUpdate(s: seq<nat>, i: nat, v: nat)
    requires i < |s| && s[i] > 0
    ensures Zeros(s[i := v]) == Zeros(s) + if v == 0 then 1 else 0
  {
    var n := |s| - 1;
    if i < n {
      ZerosUpdate(s[..n], i, v);
      assert s[i := v][..n] == s[..n][i := v];
    } else {
      assert s[i := v][..n] == s[..n];
    }
  }

  /** A station and the seconds by which it is over, or under, the takt. */
  datatype Entry = Entry(station: nat, seconds: nat)

  /** How far each station is over the takt, and how far under. */
  function Excesses(standard: seq<nat>, takt: nat): (amounts: seq<nat>)
    ensures |amounts| == |standard|
    ensures forall i | 0 <= i < |standard| :: amounts[i] == if standard[i] > takt then standard[i] - takt else 0
  {
    seq(|standard|, i requires 0 <= i < |standard| => if standard[i] > takt then standard[i] - takt else 0)
  }

  function Slacks(standard: seq<nat>, takt: nat): (amounts: seq<nat>)
    ensures |amounts| == |standard|
    ensures forall i | 0 <= i < |standard| :: amounts[i] == if standard[i] < takt then takt - standard[i] else 0
  {
    seq(|standard|, i requires 0 <= i < |standard| => if standard[i] < takt then takt - standard[i] else 0)
  }

  predicate Ascending(entries: seq<Entry>) {
    && (forall a, b | 0 <= a < b < |entries| :: entries[a].station < entries[b].station)
    && (forall a | 0 <= a < |entries| :: entries[a].seconds > 0)
  }

  predicate Lists(entries: seq<Entry>, station: nat) {
    exists k :: 0 <= k < |entries| && entries[k].station == station
  }

  function Seconds(entries: seq<Entry>): (s: seq<nat>)
    ensures |s| == |entries| && forall k | 0 <= k < |s| :: s[k] == entries[k].seconds
  {
    seq(|entries|, k requires 0 <= k < |entries| => entries[k].seconds)
  }

  /** The stations with a positive amount, in station order. */
  function Entries(amounts: seq<nat>): seq<Entry> {
    if amounts == [] then []
    else
      var n := |amounts| - 1;
      Entries(amounts[..n]) + if amounts[n] > 0 then [Entry(n, amounts[n])] else []
  }

  lemma {:induction false} EntriesAreThePositive(amounts: seq<nat>)
    ensures forall e: Entry :: e in Entries(amounts) <==> e.station < |amounts| && e.seconds == amounts[e.station] > 0
  {
    if amounts != [] {
      EntriesAreThePositive(amounts[..|amounts| - 1]);
    }
  }

  lemma {:induction false} EntriesAscend(amounts: seq<nat>)
    ensures Ascending(Entries(amounts)) && |Entries(amounts)| <= |amounts|
  {
    if amounts != [] {
      var n := |amounts| - 1;
      var earlier := Entries(amounts[..n]);
      EntriesAscend(amounts[..n]);
      forall a | 0 <= a < |earlier|
        ensures earlier[a].station < n && earlier[a].seconds > 0
      {
        EntriesAreThePositive(amounts[..n]);
        assert earlier[a] in earlier;
      }
    }
  }

  lemma {:induction false} EntriesCarryTheSum(amounts: seq<nat>)
    ensures Sum(Seconds(Entries(amounts))) == Sum(amounts)
  {
    if amounts != [] {
      var n := |amounts| - 1;
      EntriesCarryTheSum(amounts[..n]);
      var earlier, entries := Entries(amounts[..n]), Entries(amounts);
      assert Seconds(entries) == if amounts[n] > 0 then Seconds(earlier) + [amounts[n]] else Seconds(earlier);
      SumAppend(Seconds(earlier), amounts[n]);
    }
  }

  /** A station is listed exactly when its amount is positive, and then with that amount. */
  lemma ListedExactlyWhenPositive(amounts: seq<nat>, i: nat)
    requires i < |amounts|
    ensures Lists(Entries(amounts), i) <==> amounts[i] > 0
    ensures amounts[i] > 0 ==> exists k :: 0 <= k < |Entries(amounts)| && Entries(amounts)[k] == Entry(i, amounts[i])
  {
    var entries := Entries(amounts);
    EntriesAreThePositive(amounts);
    if amounts[i] > 0 {
      assert Entry(i, amounts[i]) in entries;
      var k :| 0 <= k < |entries| && entries[k] == Entry(i, amounts[i]);
      assert entries[k].station == i;
    }
    if Lists(entries, i) {
      var k :| 0 <= k < |entries| && entries[k].station == i;
      assert entries[k] in entries;
    }
  }

  // ----- The greedy loop -----

  /** What the moves so far took and gave: the first i sources are placed, `remaining` of the next one is not. */
  ghost predicate Placed(over: seq<Entry>, under: seq<Entry>, moves: seq<Move>, slack: seq<nat>, i: nat, remaining: nat) {
    && |slack| == |under| && i <= |over|
    && (forall k | 0 <= k < |over| ::
          MovedFrom(moves, over[k].station) + (if k < i then 0 else if k == i then remaining else over[k].seconds)
          == over[k].seconds)
    && (forall s: nat | !Lists(over, s) :: MovedFrom(moves, s) == 0)
    && (forall k | 0 <= k < |under| :: MovedTo(moves, Some(under[k].station)) + slack[k] == under[k].seconds)
    && (forall t: nat | !Lists(under, t) :: MovedTo(moves, Some(t)) == 0)
    && (forall m | m in moves :: m.seconds > 0)
  }

  /** What left the slack went between stations, and extra capacity is asked for only when none is left. */
  ghost predicate Totalled(under: seq<Entry>, moves: seq<Move>, slack: seq<nat>, placed: int) {
    && StationSeconds(moves) + Sum(slack) == Sum(Seconds(under))
    && StationSeconds(moves) + MovedTo(moves, None) == placed
    && (MovedTo(moves, None) > 0 ==> Sum(slack) == 0)
  }

  /** Each station-to-station move finishes its source or its target ... */
  ghost predicate CountedSoFar(moves: seq<Move>, slack: seq<nat>, finished: nat) {
    && StationMoves(moves) <= finished + Zeros(slack)
    && (slack == [] ==> StationMoves(moves) == 0)
  }

  /** ... and between sources, once every target is used up, one of them was finished for free. */
  ghost predicate Counted(moves: seq<Move>, slack: seq<nat>, finished: nat) {
    && StationMoves(moves) <= finished + Zeros(slack)
    && (slack != [] && Zeros(slack) == |slack| ==> StationMoves(moves) <= finished + Zeros(slack) - 1)
    && (slack == [] ==> StationMoves(moves) == 0)
  }

  lemma MoveKeepsPlaced(over: seq<Entry>, under: seq<Entry>, moves: seq<Move>, slack: seq<nat>, i: nat, remaining: nat,
                        j: nat, seconds: nat)
    requires Ascending(over) && Ascending(under) && Placed(over, under, moves, slack, i, remaining)
    requires i < |over| && j < |under| && 0 < seconds <= remaining && seconds <= slack[j]
    ensures Placed(over, under, moves + [Move(over[i].station, Some(under[j].station), seconds)],
                   slack[j := slack[j] - seconds], i, remaining - seconds)
  {
    MoveAppend(moves, Move(over[i].station, Some(under[j].station), seconds));
    assert Lists(over, over[i].station) && Lists(under, under[j].station);
  }

  lemma MoveKeepsTotals(under: seq<Entry>, moves: seq<Move>, slack: seq<nat>, placed: int, source: nat, j: nat, seconds: nat)
    requires Totalled(under, moves, slack, placed) && MovedTo(moves, None) == 0
    requires |slack| == |under| && j < |under| && 0 < seconds <= slack[j]
    ensures Totalled(under, moves + [Move(source, Some(under[j].station), seconds)],
                     slack[j := slack[j] - seconds], placed + seconds)
    ensures MovedTo(moves + [Move(source, Some(under[j].station), seconds)], None) == 0
  {
    MoveAppend(moves, Move(source, Some(under[j].station), seconds));
    SumUpdate(slack, j, slack[j] - seconds);
  }

  ghost predicate CountedWhile(moves: seq<Move>, slack: seq<nat>, i: nat, remaining: nat) {
    if remaining == 0 then Counted(moves, slack, i + 1) else CountedSoFar(moves, slack, i)
  }

  lemma MoveKeepsCount(moves: seq<Move>, slack: seq<nat>, i: nat, m: Move, j: nat, remaining: nat, next: seq<nat>)
    requires CountedSoFar(moves, slack, i) && m.target.Some?
    requires j < |slack| && m.seconds == Min(remaining, slack[j]) && m.seconds > 0
    requires next == slack[j := slack[j] - m.seconds]
    ensures CountedWhile(moves + [m], next, i, remaining - m.seconds)
  {
    MoveAppend(moves, m);
    ZerosUpdate(slack, j, slack[j] - m.seconds);
    ZerosBound(next);
    assert Zeros(next) == |next| ==> next[j] == 0;
  }

  lemma ExtraKeepsPlaced(over: seq<Entry>, under: seq<Entry>, moves: seq<Move>, slack: seq<nat>, i: nat, remaining: nat)
    requires Ascending(over) && Placed(over, under, moves, slack, i, remaining) && i < |over| && 0 < remaining
    ensures Placed(over, under, moves + [Move(over[i].station, None, remaining)], slack, i, 0)
  {
    MoveAppend(moves, Move(over[i].station, None, remaining));
    assert Lists(over, over[i].station);
  }

  // ----- The order of the moves -----

  /** Each move so far came when every target before its own was full. */
  ghost predicate FullBefore(under: seq<Entry>, moves: seq<Move>) {
    forall k: nat, j: nat | k < |moves| && j < |under| && Passes(moves[k].target, under[j].station) ::
      MovedTo(moves[..k], Some(under[j].station)) == under[j].seconds
  }

  /** In order, and so far for targets before j of source i or for earlier sources. */
  ghost predicate OrderedUpTo(over: seq<Entry>, under: seq<Entry>, moves: seq<Move>, i: nat, j: nat)
    requires i < |over|
  {
    && InOrder(moves) && FullBefore(under, moves)
    && forall m | m in moves ::
         || m.source < over[i].station
         || (&& m.source == over[i].station && m.target.Some?
             && forall k: nat | j <= k < |under| :: m.target.value < under[k].station)
  }

  /** In order, and so far for earlier sources. */
  ghost predicate OrderedBetween(over: seq<Entry>, under: seq<Entry>, moves: seq<Move>, i: nat) {
    && InOrder(moves) && FullBefore(under, moves)
    && forall m, k: nat | m in moves && i <= k < |over| :: m.source < over[k].station
  }

  /** A move that comes after all others, at a time when every target before its own is full, keeps the order. */
  lemma LastKeepsOrder(under: seq<Entry>, moves: seq<Move>, m: Move, next: seq<Move>)
    requires InOrder(moves) && FullBefore(under, moves) && next == moves + [m]
    requires forall e | e in moves :: Before(e, m)
    requires forall j: nat | j < |under| && Passes(m.target, under[j].station) ::
               MovedTo(moves, Some(under[j].station)) == under[j].seconds
    ensures InOrder(next) && FullBefore(under, next)
  {
    assert next[..|moves|] == moves;
    assert forall k: nat | k < |moves| :: next[k] == moves[k] && moves[k] in moves && next[..k] == moves[..k];
  }

  lemma TargetKeepsOrder(over: seq<Entry>, under: seq<Entry>, moves: seq<Move>, slack: seq<nat>, i: nat, j: nat,
                         remaining: nat, seconds: nat, next: seq<Move>)
    requires Ascending(over) && Ascending(under) && Placing(over, under, moves, slack, i, j, remaining)
    requires OrderedUpTo(over, under, moves, i, j) && j < |under| && remaining > 0
    requires next == moves + [Move(over[i].station, Some(under[j].station), seconds)]
    ensures OrderedUpTo(over, under, next, i, j + 1)
  {
    LastKeepsOrder(under, moves, Move(over[i].station, Some(under[j].station), seconds), next);
  }

  lemma ExtraKeepsOrder(over: seq<Entry>, under: seq<Entry>, moves: seq<Move>, slack: seq<nat>, i: nat, remaining: nat,
                        next: seq<Move>)
    requires Ascending(over) && Placing(over, under, moves, slack, i, |under|, remaining) && remaining > 0
    requires OrderedUpTo(over, under, moves, i, |under|)
    requires next == moves + [Move(over[i].station, None, remaining)]
    ensures OrderedBetween(over, under, next, i + 1)
  {
    LastKeepsOrder(under, moves, Move(over[i].station, None, remaining), next);
  }

  /** The state while source i is being placed, up to target j. */
  ghost predicate Placing(over: seq<Entry>, under: seq<Entry>, moves: seq<Move>, slack: seq<nat>, i: nat, j: nat,
                          remaining: nat) {
    && i < |over| && j <= |slack|
    && Placed(over, under, moves, slack, i, remaining)
    && Totalled(under, moves, slack, Sum(Seconds(over)[..i]) + over[i].seconds - remaining)
    && CountedWhile(moves, slack, i, remaining)
    && (remaining > 0 ==> forall k | 0 <= k < j :: slack[k] == 0)
  }

  /** One target takes what its slack allows. */
  lemma TargetTakes(over: seq<Entry>, under: seq<Entry>, moves: seq<Move>, slack: seq<nat>, i: nat, j: nat, remaining: nat,
                    seconds: nat, next: seq<Move>, left: seq<nat>)
    requires Ascending(over) && Ascending(under) && Placing(over, under, moves, slack, i, j, remaining)
    requires j < |under| && 0 < seconds == Min(remaining, slack[j])
    requires next == moves + [Move(over[i].station, Some(under[j].station), seconds)]
    requires left == slack[j := slack[j] - seconds]
    ensures Placing(over, under, next, left, i, j + 1, remaining - seconds)
  {
    SumOfZeros(slack);
    MoveKeepsPlaced(over, under, moves, slack, i, remaining, j, seconds);
    MoveKeepsTotals(under, moves, slack, Sum(Seconds(over)[..i]) + over[i].seconds - remaining, over[i].station, j, seconds);
    MoveKeepsCount(moves, slack, i, Move(over[i].station, Some(under[j].station), seconds), j, remaining, left);
  }

  /** The inner loop: one source's excess goes to the targets in order, as far as their slack reaches. */
  method PlaceSource(over: seq<Entry>, under: seq<Entry>, i: nat, before: seq<Move>, given: seq<nat>)
    returns (moves: seq<Move>, slack: seq<nat>, remaining: nat)
    requires Ascending(over) && Ascending(under) && i < |over|
    requires Placing(over, under, before, given, i, 0, over[i].seconds) && OrderedUpTo(over, under, before, i, 0)
    ensures Placing(over, under, moves, slack, i, |under|, remaining) && OrderedUpTo(over, under, moves, i, |under|)
  {
    moves, slack, remaining := before, given, over[i].seconds;
    for j := 0 to |under|
      invariant Placing(over, under, moves, slack, i, j, remaining) && OrderedUpTo(over, under, moves, i, j)
    {
      if remaining <= 0 {
        NothingLeft(over, under, moves, slack, i, j);
        break;
      }
      moves, slack, remaining := OfferTarget(over, under, i, j, moves, slack, remaining);
    }
  }

  lemma NothingLeft(over: seq<Entry>, under: seq<Entry>, moves: seq<Move>, slack: seq<nat>, i: nat, j: nat)
    requires Placing(over, under, moves, slack, i, j, 0) && OrderedUpTo(over, under, moves, i, j)
    ensures Placing(over, under, moves, slack, i, |under|, 0) && OrderedUpTo(over, under, moves, i, |under|)
  {}

  /** One turn of the inner loop: a target with slack takes what it can. */
  method OfferTarget(over: seq<Entry>, under: seq<Entry>, i: nat, j: nat, before: seq<Move>, given: seq<nat>, left: nat)
    returns (moves: seq<Move>, slack: seq<nat>, remaining: nat)
    requires Ascending(over) && Ascending(under) && j < |under| && left > 0
    requires Placing(over, under, before, given, i, j, left) && OrderedUpTo(over, under, before, i, j)
    ensures Placing(over, under, moves, slack, i, j + 1, remaining) && OrderedUpTo(over, under, moves, i, j + 1)
  {
    moves, slack, remaining := before, given, left;
    if slack[j] <= 0 {
      TargetIsFull(over, under, moves, slack, i, j, remaining);
      return;
    }
    var seconds := Min(remaining, slack[j]);
    slack := slack[j := slack[j] - seconds];
    remaining := remaining - seconds;
    moves := moves + [Move(over[i].station, Some(under[j].station), seconds)];
    TargetTakes(over, under, before, given, i, j, left, seconds, moves, slack);
    TargetKeepsOrder(over, under, before, given, i, j, left, seconds, moves);
  }

  lemma TargetIsFull(over: seq<Entry>, under: seq<Entry>, moves: seq<Move>, slack: seq<nat>, i: nat, j: nat, remaining: nat)
    requires Placing(over, under, moves, slack, i, j, remaining) && j < |slack| && slack[j] == 0
    ensures Placing(over, under, moves, slack, i, j + 1, remaining)
  {}

  /** What no target could take becomes a request for extra capacity. */
  lemma SourceIsFinished(over: seq<Entry>, under: seq<Entry>, moves: seq<Move>, slack: seq<nat>, i: nat, remaining: nat)
    requires Ascending(over) && remaining > 0 && Placing(over, under, moves, slack, i, |under|, remaining)
    ensures Placing(over, under, moves + [Move(over[i].station, None, remaining)], slack, i, |under|, 0)
  {
    SumOfZeros(slack);
    ZerosBound(slack);
    ExtraKeepsPlaced(over, under, moves, slack, i, remaining);
    MoveAppend(moves, Move(over[i].station, None, remaining));
  }

  /** The state between sources. */
  ghost predicate Between(over: seq<Entry>, under: seq<Entry>, moves: seq<Move>, slack: seq<nat>, i: nat) {
    && i <= |over|
    && Placed(over, under, moves, slack, i, if i < |over| then over[i].seconds else 0)
    && Totalled(under, moves, slack, Sum(Seconds(over)[..i]))
    && Counted(moves, slack, i)
  }

  /** The whole excess placed: every source emptied, no target overfilled, slack used before capacity is asked for. */
  ghost predicate Redistributes(over: seq<Entry>, under: seq<Entry>, moves: seq<Move>) {
    && (forall k | 0 <= k < |over| :: MovedFrom(moves, over[k].station) == over[k].seconds)
    && (forall s: nat | !Lists(over, s) :: MovedFrom(moves, s) == 0)
    && (forall k | 0 <= k < |under| :: MovedTo(moves, Some(under[k].station)) <= under[k].seconds)
    && (forall t: nat | !Lists(under, t) :: MovedTo(moves, Some(t)) == 0)
    && (forall m | m in moves :: m.seconds > 0)
    && StationSeconds(moves) == Min(Sum(Seconds(over)), Sum(Seconds(under)))
    && StationSeconds(moves) + MovedTo(moves, None) == Sum(Seconds(over))
    && StationMoves(moves) <= if over == [] || under == [] then 0 else |over| + |under| - 1
  }

  lemma {:induction false} MovesTakeSeconds(moves: seq<Move>)
    requires forall m | m in moves :: m.seconds > 0
    ensures StationMoves(moves) <= StationSeconds(moves)
  {
    if moves != [] {
      assert moves[|moves| - 1] in moves;
      MovesTakeSeconds(moves[..|moves| - 1]);
    }
  }

  lemma AllPlacedRedistributes(over: seq<Entry>, under: seq<Entry>, moves: seq<Move>, slack: seq<nat>)
    requires Between(over, under, moves, slack, |over|)
    ensures Redistributes(over, under, moves)
  {
    MovesTakeSeconds(moves);
    assert Seconds(over)[..|over|] == Seconds(over);
    ZerosBound(slack);
  }

  lemma NothingPlacedYet(over: seq<Entry>, under: seq<Entry>)
    requires Ascending(under)
    ensures Between(over, under, [], Seconds(under), 0)
  {
    ZerosBound(Seconds(under));
    assert Seconds(over)[..0] == [];
  }

  lemma NextSource(over: seq<Entry>, under: seq<Entry>, moves: seq<Move>, slack: seq<nat>, i: nat)
    requires Placing(over, under, moves, slack, i, |under|, 0)
    ensures Between(over, under, moves, slack, i + 1)
  {
    assert Seconds(over)[..i + 1] == Seconds(over)[..i] + [over[i].seconds];
    SumAppend(Seconds(over)[..i], over[i].seconds);
  }

  lemma SourceIsNext(over: seq<Entry>, under: seq<Entry>, moves: seq<Move>, slack: seq<nat>, i: nat)
    requires Ascending(over) && i < |over| && Between(over, under, moves, slack, i)
    ensures Placing(over, under, moves, slack, i, 0, over[i].seconds)
  {}

  /** One turn of the outer loop. */
  method PlaceOrExtend(over: seq<Entry>, under: seq<Entry>, i: nat, before: seq<Move>, given: seq<nat>)
    returns (moves: seq<Move>, slack: seq<nat>)
    requires Ascending(over) && Ascending(under) && i < |over|
    requires Between(over, under, before, given, i) && OrderedBetween(over, under, before, i)
    ensures Between(over, under, moves, slack, i + 1) && OrderedBetween(over, under, moves, i + 1)
  {
    var remaining;
    SourceIsNext(over, under, before, given, i);
    moves, slack, remaining := PlaceSource(over, under, i, before, given);
    if remaining > 0 {
      var placed := moves;
      moves := moves + [Move(over[i].station, None, remaining)];
      SourceIsFinished(over, under, placed, slack, i, remaining);
      ExtraKeepsOrder(over, under, placed, slack, i, remaining, moves);
    }
    NextSource(over, under, moves, slack, i);
  }

  method Redistribute(over: seq<Entry>, under: seq<Entry>) returns (moves: seq<Move>)
    requires Ascending(over) && Ascending(under)
    ensures Redistributes(over, under, moves) && OrderedBetween(over, under, moves, |over|)
  {
    moves := [];
    var slack: seq<nat> := Seconds(under);
    NothingPlacedYet(over, under);
    for i := 0 to |over|
      invariant Between(over, under, moves, slack, i) && OrderedBetween(over, under, moves, i)
    {
      moves, slack := PlaceOrExtend(over, under, i, moves, slack);
    }
    AllPlacedRedistributes(over, under, moves, slack);
  }

  /** Read by station instead of by list entry, the loop's account is the rebalancing of the line. */
  lemma RedistributionRebalances(excess: seq<nat>, slack: seq<nat>, moves: seq<Move>)
    requires |excess| == |slack|
    requires Redistributes(Entries(excess), Entries(slack), moves)
    requires OrderedBetween(Entries(excess), Entries(slack), moves, |Entries(excess)|)
    ensures Rebalances(excess, slack, moves)
  {
    forall s: nat
      ensures s < |excess| ==> MovedFrom(moves, s) == excess[s]
      ensures s >= |excess| ==> MovedFrom(moves, s) == 0
    {
      EntriesAreThePositive(excess);
      if s < |excess| { ListedExactlyWhenPositive(excess, s); }
    }
    forall t: nat
      ensures t < |slack| ==> MovedTo(moves, Some(t)) <= slack[t]
      ensures t >= |slack| ==> MovedTo(moves, Some(t)) == 0
    {
      EntriesAreThePositive(slack);
      if t < |slack| { ListedExactlyWhenPositive(slack, t); }
    }
    forall m | m in moves
      ensures m.source < |excess| && (m.target.Some? ==> m.target.value < |slack|)
    {
      MovesCount(moves, m);
    }
    forall k: nat, t: nat | k < |moves| && t < |slack| && Passes(moves[k].target, t)
      ensures MovedTo(moves[..k], Some(t)) == slack[t]
    {
      ListedExactlyWhenPositive(slack, t);
      var _ := GivenLater(moves, k, Some(t));
    }
  }

  lemma {:induction false} MovesCount(moves: seq<Move>, m: Move)
    requires m in moves && m.seconds > 0
    ensures MovedFrom(moves, m.source) > 0 && MovedTo(moves, m.target) > 0
  {
    var last := |moves| - 1;
    if moves[last] != m {
      assert moves == moves[..last] + [moves[last]];
      MovesCount(moves[..last], m);
    }
  }

  /**
   The simulation: what each overloaded station gives away, to whom, in which order, and what the line lacks. Amounts
   and order determine the list of moves.
   */
  method BuildSimulation(standard: seq<nat>, takt: nat) returns (moves: seq<Move>)
    ensures takt == 0 ==> moves == []
    ensures takt > 0 ==> Rebalances(Excesses(standard, takt), Slacks(standard, takt), moves)
    ensures takt > 0 ==> forall i | 0 <= i < |standard| && standard[i] < takt :: standard[i] + MovedTo(moves, Some(i)) <= takt
    ensures takt > 0 ==>
              var excess, slack := Sum(Excesses(standard, takt)), Sum(Slacks(standard, takt));
              && StationSeconds(moves) == Min(excess, slack)
              && MovedTo(moves, None) == if excess > slack then excess - slack else 0
    ensures takt > 0 ==>
              var over, under := Entries(Excesses(standard, takt)), Entries(Slacks(standard, takt));
              StationMoves(moves) <= if over == [] || under == [] then 0 else |over| + |under| - 1
  {
    if takt == 0 { return []; }
    var over, under := Entries(Excesses(standard, takt)), Entries(Slacks(standard, takt));
    EntriesAscend(Excesses(standard, takt));
    EntriesAscend(Slacks(standard, takt));
    EntriesCarryTheSum(Excesses(standard, takt));
    EntriesCarryTheSum(Slacks(standard, takt));
    moves := Redistribute(over, under);
    RedistributionRebalances(Excesses(standard, takt), Slacks(standard, takt), moves);
  }
}
