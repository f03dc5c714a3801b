/** Moves of work between stations: what they take and give, in which order, and why order and amounts fix the list. */
module Moves {
  import opened Wrappers

  /** Seconds of work taken from a station and given to another, or to capacity the line does not have yet. */
  datatype Move = Move(source: nat, target: Option<nat>, seconds: nat)

  function MovedFrom(moves: seq<Move>, source: nat): nat {
    if moves == [] then 0
    else
      var last := moves[|moves| - 1];
      MovedFrom(moves[..|moves| - 1], source) + if last.source == source then last.seconds else 0
  }

  function MovedTo(moves: seq<Move>, target: Option<nat>): nat {
    if moves == [] then 0
    else
      var last := moves[|moves| - 1];
      MovedTo(moves[..|moves| - 1], target) + if last.target == target then last.seconds else 0
  }

  /** Seconds moved from station to station, and how many such moves there are. */
  function StationSeconds(moves: seq<Move>): nat {
    if moves == [] then 0
    else
      var last := moves[|moves| - 1];
      StationSeconds(moves[..|moves| - 1]) + if last.target.Some? then last.seconds else 0
  }

  function StationMoves(moves: seq<Move>): nat {
    if moves == [] then 0
    else StationMoves(moves[..|moves| - 1]) + if moves[|moves| - 1].target.Some? then 1 else 0
  }

  lemma MoveAppend(moves: seq<Move>, m: Move)
    ensures forall s: nat :: MovedFrom(moves + [m], s) == MovedFrom(moves, s) + if m.source == s then m.seconds else 0
    ensures forall t :: MovedTo(moves + [m], t) == MovedTo(moves, t) + if m.target == t then m.seconds else 0
    ensures StationSeconds(moves + [m]) == StationSeconds(moves) + if m.target.Some? then m.seconds else 0
    ensures StationMoves(moves + [m]) == StationMoves(moves) + if m.target.Some? then 1 else 0
  {
    assert (moves + [m])[..|moves|] == moves;
  }

  // ----- Beginnings of a list of moves -----

  /** What a beginning took from a source is less than the whole only if the source gives again later. */
  lemma {:induction false} TakenLater(moves: seq<Move>, n: nat, source: nat) returns (later: nat)
    requires n <= |moves|
    ensures MovedFrom(moves[..n], source) <= MovedFrom(moves, source)
    ensures MovedFrom(moves[..n], source) < MovedFrom(moves, source) ==> n <= later < |moves| && moves[later].source == source
    decreases |moves|
  {
    if n == |moves| {
      assert moves[..n] == moves;
      later := n;
    } else {
      var last := |moves| - 1;
      later := TakenLater(moves[..last], n, source);
      assert moves[..last][..n] == moves[..n];
      if moves[last].source == source { later := last; }
    }
  }

  /** The same for what a target receives. */
  lemma {:induction false} GivenLater(moves: seq<Move>, n: nat, target: Option<nat>) returns (later: nat)
    requires n <= |moves|
    ensures MovedTo(moves[..n], target) <= MovedTo(moves, target)
    ensures MovedTo(moves[..n], target) < MovedTo(moves, target) ==> n <= later < |moves| && moves[later].target == target
    decreases |moves|
  {
    if n == |moves| {
      assert moves[..n] == moves;
      later := n;
    } else {
      var last := |moves| - 1;
      later := GivenLater(moves[..last], n, target);
      assert moves[..last][..n] == moves[..n];
      if moves[last].target == target { later := last; }
    }
  }

  /** One more move. */
  lemma LongerBeginning(moves: seq<Move>, k: nat)
    requires k < |moves|
    ensures MovedFrom(moves[..k + 1], moves[k].source) == MovedFrom(moves[..k], moves[k].source) + moves[k].seconds
    ensures MovedTo(moves[..k + 1], moves[k].target) == MovedTo(moves[..k], moves[k].target) + moves[k].seconds
  {
    assert moves[..k + 1] == moves[..k] + [moves[k]];
    MoveAppend(moves[..k], moves[k]);
  }

  // ----- The order of the moves -----

  /** The station comes before the target; capacity the line does not have yet comes after every station. */
  predicate Passes(target: Option<nat>, station: nat) {
    target.None? || station < target.value
  }

  /** By source, and for one source by target. */
  predicate Before(a: Move, b: Move) {
    a.source < b.source || (a.source == b.source && a.target.Some? && Passes(b.target, a.target.value))
  }

  predicate InOrder(moves: seq<Move>) {
    forall a, b | 0 <= a < b < |moves| :: Before(moves[a], moves[b])
  }

  /** Whenever a move is made, every station before its target has all the work it has room for. */
  ghost predicate FilledFirst(slack: seq<nat>, moves: seq<Move>) {
    forall k: nat, t: nat | k < |moves| && t < |slack| && Passes(moves[k].target, t) ::
      MovedTo(moves[..k], Some(t)) == slack[t]
  }

  /** Each station gives away exactly its excess and takes at most its slack. */
  ghost predicate Accounts(excess: seq<nat>, slack: seq<nat>, moves: seq<Move>) {
    && (forall m | m in moves :: m.seconds > 0 && m.source < |excess| && (m.target.Some? ==> m.target.value < |slack|))
    && (forall s: nat | s < |excess| :: MovedFrom(moves, s) == excess[s])
    && (forall t: nat | t < |slack| :: MovedTo(moves, Some(t)) <= slack[t])
  }

  /** The work is moved in station order: the first source left gives, and the first target with room receives. */
  ghost predicate Rebalances(excess: seq<nat>, slack: seq<nat>, moves: seq<Move>) {
    Accounts(excess, slack, moves) && InOrder(moves) && FilledFirst(slack, moves)
  }

  ghost predicate FirstLeft(excess: seq<nat>, done: seq<Move>, source: nat) {
    && source < |excess| && MovedFrom(done, source) < excess[source]
    && forall s: nat | s < source :: MovedFrom(done, s) == excess[s]
  }

  ghost predicate FirstWithRoom(slack: seq<nat>, done: seq<Move>, target: Option<nat>) {
    && (target.Some? ==> target.value < |slack| && MovedTo(done, target) < slack[target.value])
    && forall t: nat | t < |slack| && Passes(target, t) :: MovedTo(done, Some(t)) == slack[t]
  }

  /** The source of the next move is the first station with excess left. */
  lemma SourceIsFirstLeft(excess: seq<nat>, slack: seq<nat>, moves: seq<Move>, k: nat)
    requires Rebalances(excess, slack, moves) && k < |moves|
    ensures FirstLeft(excess, moves[..k], moves[k].source)
  {
    var source := moves[k].source;
    assert moves[k] in moves;
    LongerBeginning(moves, k);
    var _ := TakenLater(moves, k + 1, source);
    forall s: nat | s < source
      ensures MovedFrom(moves[..k], s) == excess[s]
    {
      var later := TakenLater(moves, k, s);
      if later > k && later < |moves| { assert Before(moves[k], moves[later]); }
    }
  }

  /** Its target is the first station with room left, or none when there is none. */
  lemma TargetIsFirstWithRoom(excess: seq<nat>, slack: seq<nat>, moves: seq<Move>, k: nat)
    requires Rebalances(excess, slack, moves) && k < |moves|
    ensures FirstWithRoom(slack, moves[..k], moves[k].target)
  {
    assert moves[k] in moves;
    LongerBeginning(moves, k);
    var _ := GivenLater(moves, k + 1, moves[k].target);
  }

  /** While one source gives, what a target received from it stays as it is. */
  lemma {:induction false} TargetIsLeft(moves: seq<Move>, k: nat, n: nat)
    requires InOrder(moves) && k < n <= |moves|
    requires forall j: nat | k < j < n :: moves[j].source == moves[k].source
    ensures MovedTo(moves[..n], moves[k].target) == MovedTo(moves[..k + 1], moves[k].target)
  {
    if n > k + 1 {
      TargetIsLeft(moves, k, n - 1);
      assert Before(moves[k], moves[n - 1]);
      assert moves[..n] == moves[..n - 1] + [moves[n - 1]];
      MoveAppend(moves[..n - 1], moves[n - 1]);
    }
  }

  /** And it carries all that the source has left or all that the target has room for. */
  lemma MoveIsFull(excess: seq<nat>, slack: seq<nat>, moves: seq<Move>, k: nat)
    requires Rebalances(excess, slack, moves) && k < |moves| && moves[k].source < |excess|
    requires moves[k].target.Some? ==> moves[k].target.value < |slack|
    ensures MovedFrom(moves[..k + 1], moves[k].source) <= excess[moves[k].source]
    ensures moves[k].target.Some? ==> MovedTo(moves[..k + 1], moves[k].target) <= slack[moves[k].target.value]
    ensures || MovedFrom(moves[..k + 1], moves[k].source) == excess[moves[k].source]
            || (moves[k].target.Some? && MovedTo(moves[..k + 1], moves[k].target) == slack[moves[k].target.value])
  {
    var later := TakenLater(moves, k + 1, moves[k].source);
    var _ := GivenLater(moves, k + 1, moves[k].target);
    if MovedFrom(moves[..k + 1], moves[k].source) < excess[moves[k].source] {
      assert Before(moves[k], moves[later]);
      forall j: nat | k < j < later
        ensures moves[j].source == moves[k].source
      {
        assert Before(moves[k], moves[j]) && Before(moves[j], moves[later]);
      }
      TargetIsLeft(moves, k, later);
    }
  }

  /** So its seconds are what the source has left, or what the target has room for if that is less. */
  lemma MoveTakesAll(excess: seq<nat>, slack: seq<nat>, moves: seq<Move>, k: nat, done: seq<Move>)
    requires Rebalances(excess, slack, moves) && k < |moves| && done == moves[..k]
    requires moves[k].source < |excess| && (moves[k].target.Some? ==> moves[k].target.value < |slack|)
    ensures var left := excess[moves[k].source] - MovedFrom(done, moves[k].source);
            match moves[k].target
            case None => moves[k].seconds == left
            case Some(t) =>
              var room := slack[t] - MovedTo(done, Some(t));
              moves[k].seconds == if left <= room then left else room
  {
    MoveIsFull(excess, slack, moves, k);
    LongerBeginning(moves, k);
  }

  /** When the beginnings agree, there is nothing to choose for the next move. */
  lemma NextMoveIsSame(excess: seq<nat>, slack: seq<nat>, a: seq<Move>, b: seq<Move>, k: nat)
    requires Rebalances(excess, slack, a) && Rebalances(excess, slack, b)
    requires k < |a| && k < |b| && a[..k] == b[..k]
    ensures a[k] == b[k]
  {
    var done := a[..k];
    SourceIsFirstLeft(excess, slack, a, k);
    SourceIsFirstLeft(excess, slack, b, k);
    TargetIsFirstWithRoom(excess, slack, a, k);
    TargetIsFirstWithRoom(excess, slack, b, k);
    MoveTakesAll(excess, slack, a, k, done);
    MoveTakesAll(excess, slack, b, k, done);
    SameMove(excess, slack, done, a[k], b[k]);
  }

  /** Two moves from the first source left to the first target with room, of all that can go, are one. */
  lemma SameMove(excess: seq<nat>, slack: seq<nat>, done: seq<Move>, m: Move, n: Move)
    requires FirstLeft(excess, done, m.source) && FirstLeft(excess, done, n.source)
    requires FirstWithRoom(slack, done, m.target) && FirstWithRoom(slack, done, n.target)
    requires m.source == n.source && m.target == n.target ==> m.seconds == n.seconds
    ensures m == n
  {}

  lemma {:induction false} BeginningsAgree(excess: seq<nat>, slack: seq<nat>, a: seq<Move>, b: seq<Move>, k: nat)
    requires Rebalances(excess, slack, a) && Rebalances(excess, slack, b) && k <= |a| && k <= |b|
    ensures a[..k] == b[..k]
  {
    if k > 0 {
      BeginningsAgree(excess, slack, a, b, k - 1);
      NextMoveIsSame(excess, slack, a, b, k - 1);
      assert a[..k] == a[..k - 1] + [a[k - 1]] && b[..k] == b[..k - 1] + [b[k - 1]];
    }
  }

  lemma NotShorter(excess: seq<nat>, slack: seq<nat>, a: seq<Move>, b: seq<Move>)
    requires Rebalances(excess, slack, a) && Rebalances(excess, slack, b) && |b| <= |a|
    ensures |b| == |a|
  {
    BeginningsAgree(excess, slack, a, b, |b|);
    assert b[..|b|] == b;
    if |b| < |a| { SourceIsFirstLeft(excess, slack, a, |b|); }
  }

  /** Amounts and order determine the whole list of moves. */
  lemma RebalancingIsUnique(excess: seq<nat>, slack: seq<nat>, a: seq<Move>, b: seq<Move>)
    requires Rebalances(excess, slack, a) && Rebalances(excess, slack, b)
    ensures a == b
  {
    if |b| <= |a| { NotShorter(excess, slack, a, b); } else { NotShorter(excess, slack, b, a); }
    BeginningsAgree(excess, slack, a, b, |a|);
    assert a[..|a|] == a && b[..|b|] == b;
  }
}
