/** Measured times: the one-pass pairing of starts with completions, takt intervals, and the units counted as completed. */
module Cycles {
  import opened Arithmetic
  import opened Wrappers
  import opened Execution
  import opened EventLog
  import opened HoldSafety
  import opened RouteOrder
  import opened StationAutomaton

  /** An event row as the reports read it, in order of unit, step, time and key. */
  datatype Reading = Reading(unit: nat, step: nat, station: nat, etype: EventType, at: int)

  predicate SameWork(a: Reading, b: Reading) {
    a.unit == b.unit && a.step == b.step
  }

  predicate Starts(r: Reading) {
    r.etype.Started? || r.etype.Resumed?
  }

  // ----- What a completion is paired with -----

  /** The last start of the same work before position i that no completion has used up. */
  function Partner(rs: seq<Reading>, work: Reading, i: nat): (partner: Option<nat>)
    requires i <= |rs|
    ensures partner.Some? ==> partner.value < i
  {
    if i == 0 then None
    else if SameWork(rs[i - 1], work) && Starts(rs[i - 1]) then Some(i - 1)
    else if SameWork(rs[i - 1], work) && rs[i - 1].etype.Completed? then None
    else Partner(rs, work, i - 1)
  }

  /** Position j starts the same work and neither a start nor a completion of it comes between j and i. */
  ghost predicate Pairs(rs: seq<Reading>, work: Reading, i: nat, j: nat) {
    && j < i <= |rs| && SameWork(rs[j], work) && Starts(rs[j])
    && forall k | j < k < i && SameWork(rs[k], work) :: !Starts(rs[k]) && !rs[k].etype.Completed?
  }

  /** The partner is the position that pairs, and there is at most one. */
  lemma {:induction false} PartnerIsTheOneThatPairs(rs: seq<Reading>, work: Reading, i: nat, j: nat)
    requires i <= |rs|
    ensures Partner(rs, work, i) == Some(j) <==> Pairs(rs, work, i, j)
  {
    if i > 0 {
      PartnerIsTheOneThatPairs(rs, work, i - 1, j);
    }
  }

  function Get(table: map<nat, seq<int>>, station: nat): seq<int> {
    if station in table then table[station] else []
  }

  /** The open starts are the partners a completion would find now. */
  ghost predicate TracksStarts(rs: seq<Reading>, active: map<(nat, nat), int>, n: nat)
    requires n <= |rs|
  {
    forall work: Reading :: Tracks(rs, active, n, work)
  }

  ghost predicate Tracks(rs: seq<Reading>, active: map<(nat, nat), int>, n: nat, work: Reading)
    requires n <= |rs|
  {
    var partner := Partner(rs, work, n);
    && ((work.unit, work.step) in active <==> partner.Some?)
    && (partner.Some? ==> active[(work.unit, work.step)] == rs[partner.value].at)
  }

  /** The table of open starts after one more row. */
  function Advance(active: map<(nat, nat), int>, r: Reading): map<(nat, nat), int> {
    if Starts(r) then active[(r.unit, r.step) := r.at]
    else if r.etype.Completed? then active - {(r.unit, r.step)}
    else active
  }

  lemma AdvanceKeepsTrack(rs: seq<Reading>, active: map<(nat, nat), int>, next: map<(nat, nat), int>, n: nat)
    requires n < |rs| && TracksStarts(rs, active, n) && next == Advance(active, rs[n])
    ensures TracksStarts(rs, next, n + 1)
  {
    var m := n + 1;
    forall work: Reading
      ensures Tracks(rs, next, m, work)
    {
      assert Tracks(rs, active, n, work);
    }
  }

  function AddTo(table: map<nat, seq<int>>, station: nat, t: int): map<nat, seq<int>> {
    table[station := Get(table, station) + [t]]
  }

  /** What row n adds to its station's cycle times. */
  function CycleAt(rs: seq<Reading>, n: nat): (cycle: Option<int>)
    requires n < |rs|
  {
    var partner := Partner(rs, rs[n], n);
    if rs[n].etype.Completed? && partner.Some? && rs[n].at >= rs[partner.value].at
    then Some(rs[n].at - rs[partner.value].at) else None
  }

  /** A row yields a cycle exactly when it completes work that a start before it pairs with, and is not earlier than that. */
  lemma {:induction false} CycleIsTheTimeSinceItsStart(rs: seq<Reading>, n: nat, cycle: int)
    requires n < |rs|
    ensures CycleAt(rs, n) == Some(cycle) <==>
              rs[n].etype == EventType.Completed && cycle >= 0
              && exists j: nat :: Pairs(rs, rs[n], n, j) && rs[n].at - rs[j].at == cycle
  {
    forall j: nat
      ensures Partner(rs, rs[n], n) == Some(j) <==> Pairs(rs, rs[n], n, j)
    {
      PartnerIsTheOneThatPairs(rs, rs[n], n, j);
    }
  }

  /** Times from start to completion at one station, in the order the completions are read. */
  function CycleTimes(rs: seq<Reading>, station: nat, n: nat): seq<int>
    requires n <= |rs|
  {
    if n == 0 then []
    else
      CycleTimes(rs, station, n - 1)
      + if rs[n - 1].station == station && CycleAt(rs, n - 1).Some? then [CycleAt(rs, n - 1).value] else []
  }

  function CompletionTimes(rs: seq<Reading>, station: nat, n: nat): seq<int>
    requires n <= |rs|
  {
    if n == 0 then []
    else
      var r := rs[n - 1];
      CompletionTimes(rs, station, n - 1) + if r.etype.Completed? && r.station == station then [r.at] else []
  }

  predicate Ascending(positions: seq<nat>) {
    forall a, b | 0 <= a < b < |positions| :: positions[a] < positions[b]
  }

  predicate CompletesAt(rs: seq<Reading>, station: nat, i: nat) {
    i < |rs| && rs[i].etype == EventType.Completed && rs[i].station == station
  }

  predicate YieldsAt(rs: seq<Reading>, station: nat, i: nat) {
    i < |rs| && rs[i].station == station && CycleAt(rs, i).Some?
  }

  /** The times are those of the station's completions among the first n rows, each once and in row order. */
  ghost predicate AreCompletions(rs: seq<Reading>, station: nat, n: nat, positions: seq<nat>, times: seq<int>) {
    && Ascending(positions) && |positions| == |times|
    && (forall i: nat :: i in positions <==> i < n && CompletesAt(rs, station, i))
    && (forall a | 0 <= a < |positions| :: positions[a] < |rs| && times[a] == rs[positions[a]].at)
  }

  /** The times are those of the station's rows among the first n that yield a cycle, each once and in row order. */
  ghost predicate AreCycles(rs: seq<Reading>, station: nat, n: nat, positions: seq<nat>, times: seq<int>) {
    && Ascending(positions) && |positions| == |times|
    && (forall i: nat :: i in positions <==> i < n && YieldsAt(rs, station, i))
    && (forall a | 0 <= a < |positions| :: positions[a] < |rs| && CycleAt(rs, positions[a]) == Some(times[a]))
  }

  lemma {:induction false} OneMorePosition(positions: seq<nat>, n: nat)
    requires Ascending(positions) && forall i: nat | i in positions :: i < n
    ensures Ascending(positions + [n]) && forall i: nat :: i in positions + [n] <==> i in positions || i == n
  {
    assert forall a | 0 <= a < |positions| :: positions[a] in positions;
  }

  lemma {:induction false} OneMoreCompletion(rs: seq<Reading>, station: nat, n: nat, positions: seq<nat>, times: seq<int>)
    requires AreCompletions(rs, station, n, positions, times) && n < |rs|
    ensures if CompletesAt(rs, station, n) then AreCompletions(rs, station, n + 1, positions + [n], times + [rs[n].at])
            else AreCompletions(rs, station, n + 1, positions, times)
  {
    OneMorePosition(positions, n);
  }

  lemma {:induction false} OneMoreCycle(rs: seq<Reading>, station: nat, n: nat, positions: seq<nat>, times: seq<int>)
    requires AreCycles(rs, station, n, positions, times) && n < |rs|
    ensures if YieldsAt(rs, station, n) then AreCycles(rs, station, n + 1, positions + [n], times + [CycleAt(rs, n).value])
            else AreCycles(rs, station, n + 1, positions, times)
  {
    OneMorePosition(positions, n);
  }

  /** A station's completion times are those of the completions there. */
  lemma {:induction false} CompletionTimesAreTheStations(rs: seq<Reading>, station: nat, n: nat) returns (positions: seq<nat>)
    requires n <= |rs|
    ensures AreCompletions(rs, station, n, positions, CompletionTimes(rs, station, n))
  {
    if n == 0 {
      positions := [];
    } else {
      positions := CompletionTimesAreTheStations(rs, station, n - 1);
      OneMoreCompletion(rs, station, n - 1, positions, CompletionTimes(rs, station, n - 1));
      if CompletesAt(rs, station, n - 1) {
        positions := positions + [n - 1];
      } else {
        assert CompletionTimes(rs, station, n) == CompletionTimes(rs, station, n - 1);
      }
    }
  }

  /** Its cycle times are those of the rows there that yield one. */
  lemma {:induction false} CycleTimesAreTheStations(rs: seq<Reading>, station: nat, n: nat) returns (positions: seq<nat>)
    requires n <= |rs|
    ensures AreCycles(rs, station, n, positions, CycleTimes(rs, station, n))
  {
    if n == 0 {
      positions := [];
    } else {
      positions := CycleTimesAreTheStations(rs, station, n - 1);
      positions := OneMoreCycleTime(rs, station, n - 1, positions);
    }
  }

  lemma {:induction false} OneMoreCycleTime(rs: seq<Reading>, station: nat, n: nat, positions: seq<nat>)
    returns (more: seq<nat>)
    requires n < |rs| && AreCycles(rs, station, n, positions, CycleTimes(rs, station, n))
    ensures AreCycles(rs, station, n + 1, more, CycleTimes(rs, station, n + 1))
  {
    OneMoreCycle(rs, station, n, positions, CycleTimes(rs, station, n));
    CycleTimesOfOneMore(rs, station, n);
    more := if YieldsAt(rs, station, n) then positions + [n] else positions;
  }

  lemma {:induction false} CycleTimesOfOneMore(rs: seq<Reading>, station: nat, n: nat)
    requires n < |rs|
    ensures CycleTimes(rs, station, n + 1)
         == CycleTimes(rs, station, n) + if YieldsAt(rs, station, n) then [CycleAt(rs, n).value] else []
  {}

  ghost predicate TabulatesCycles(rs: seq<Reading>, cycles: map<nat, seq<int>>, n: nat)
    requires n <= |rs|
  {
    forall station: nat :: Get(cycles, station) == CycleTimes(rs, station, n)
  }

  ghost predicate TabulatesCompletions(rs: seq<Reading>, completions: map<nat, seq<int>>, n: nat)
    requires n <= |rs|
  {
    forall station: nat :: Get(completions, station) == CompletionTimes(rs, station, n)
  }

  lemma RowAddsItsCycle(rs: seq<Reading>, cycles: map<nat, seq<int>>, next: map<nat, seq<int>>, n: nat)
    requires n < |rs| && TabulatesCycles(rs, cycles, n)
    requires next == if CycleAt(rs, n).Some? then AddTo(cycles, rs[n].station, CycleAt(rs, n).value) else cycles
    ensures TabulatesCycles(rs, next, n + 1)
  {
    forall station: nat
      ensures Get(next, station) == CycleTimes(rs, station, n + 1)
    {
      assert Get(cycles, station) == CycleTimes(rs, station, n);
    }
  }

  lemma RowAddsItsCompletion(rs: seq<Reading>, completions: map<nat, seq<int>>, next: map<nat, seq<int>>, n: nat)
    requires n < |rs| && TabulatesCompletions(rs, completions, n)
    requires next == if rs[n].etype.Completed? then AddTo(completions, rs[n].station, rs[n].at) else completions
    ensures TabulatesCompletions(rs, next, n + 1)
  {
    forall station: nat
      ensures Get(next, station) == CompletionTimes(rs, station, n + 1)
    {
      assert Get(completions, station) == CompletionTimes(rs, station, n);
    }
  }

  /** The single pass over the rows, with its table of open starts. */
  method MeasuredTimes(rs: seq<Reading>) returns (cycles: map<nat, seq<int>>, completions: map<nat, seq<int>>)
    ensures TabulatesCycles(rs, cycles, |rs|) && TabulatesCompletions(rs, completions, |rs|)
  {
    var active: map<(nat, nat), int> := map[];
    cycles, completions := map[], map[];
    for n := 0 to |rs|
      invariant TracksStarts(rs, active, n)
      invariant TabulatesCycles(rs, cycles, n) && TabulatesCompletions(rs, completions, n)
    {
      active, cycles, completions := ReadOne(rs, n, active, cycles, completions);
    }
  }

  /** One turn of the pass. */
  method ReadOne(rs: seq<Reading>, n: nat, starts: map<(nat, nat), int>, cyclesSoFar: map<nat, seq<int>>,
                 completionsSoFar: map<nat, seq<int>>)
    returns (active: map<(nat, nat), int>, cycles: map<nat, seq<int>>, completions: map<nat, seq<int>>)
    requires n < |rs| && TracksStarts(rs, starts, n)
    requires TabulatesCycles(rs, cyclesSoFar, n) && TabulatesCompletions(rs, completionsSoFar, n)
    ensures TracksStarts(rs, active, n + 1)
    ensures TabulatesCycles(rs, cycles, n + 1) && TabulatesCompletions(rs, completions, n + 1)
  {
    active, cycles, completions := starts, cyclesSoFar, completionsSoFar;
    var r := rs[n];
    var key := (r.unit, r.step);
    assert Tracks(rs, starts, n, r);
    if Starts(r) {
      active := active[key := r.at];
    } else if r.etype == EventType.Completed {
      completions := AddTo(completions, r.station, r.at);
      if key in active {
        var elapsed := r.at - active[key];
        active := active - {key};
        if elapsed >= 0 {
          cycles := AddTo(cycles, r.station, elapsed);
        }
      } else {
        assert active - {key} == active;
      }
    }
    AdvanceKeepsTrack(rs, starts, active, n);
    RowAddsItsCycle(rs, cyclesSoFar, cycles, n);
    RowAddsItsCompletion(rs, completionsSoFar, completions, n);
  }

  // ----- Takt -----

  function Intervals(times: seq<int>): seq<nat> {
    if |times| < 2 then []
    else
      var n := |times| - 1;
      Intervals(times[..n]) + if times[n] >= times[n - 1] then [times[n] - times[n - 1]] else []
  }

  predicate Chronological(times: seq<int>) {
    forall i, j | 0 <= i < j < |times| :: times[i] <= times[j]
  }

  lemma {:induction false} IntervalsTelescope(times: seq<int>)
    requires Chronological(times) && |times| > 0
    ensures |Intervals(times)| == |times| - 1
    ensures Sum(Intervals(times)) == times[|times| - 1] - times[0]
  {
    if |times| > 1 {
      var n := |times| - 1;
      IntervalsTelescope(times[..n]);
      assert Intervals(times)[..n - 1] == Intervals(times[..n]);
    }
  }

  /** By how much each time falls behind the one before, where it does. */
  function Falls(times: seq<int>): seq<nat> {
    if |times| < 2 then []
    else
      var n := |times| - 1;
      Falls(times[..n]) + if times[n] < times[n - 1] then [times[n - 1] - times[n]] else []
  }

  /** Of times in any order, the intervals are the steps forward: each step is one or a fall, and they sum to the way gone. */
  lemma {:induction false} IntervalsAreTheStepsForward(times: seq<int>)
    requires times != []
    ensures |Intervals(times)| + |Falls(times)| == |times| - 1
    ensures Sum(Intervals(times)) - Sum(Falls(times)) == times[|times| - 1] - times[0]
  {
    if |times| > 1 {
      var n := |times| - 1;
      IntervalsAreTheStepsForward(times[..n]);
      StepIsIntervalOrFall(times);
    }
  }

  lemma {:induction false} StepIsIntervalOrFall(times: seq<int>)
    requires |times| > 1
    ensures var n, init := |times| - 1, times[..|times| - 1];
            && |Intervals(times)| + |Falls(times)| == |Intervals(init)| + |Falls(init)| + 1
            && Sum(Intervals(times)) - Sum(Falls(times)) == Sum(Intervals(init)) - Sum(Falls(init)) + times[n] - times[n - 1]
  {
    var n, init := |times| - 1, times[..|times| - 1];
    if times[n] >= times[n - 1] {
      SumAppend(Intervals(init), times[n] - times[n - 1]);
      assert Falls(times) == Falls(init);
    } else {
      SumAppend(Falls(init), times[n - 1] - times[n]);
      assert Intervals(times) == Intervals(init);
    }
  }

  function Insert(sorted: seq<int>, t: int): (next: seq<int>)
    ensures multiset(next) == multiset(sorted) + multiset{t}
  {
    if sorted == [] then [t]
    else
      var n := |sorted| - 1;
      assert sorted == sorted[..n] + [sorted[n]];
      if sorted[n] <= t then sorted + [t] else Insert(sorted[..n], t) + [sorted[n]]
  }

  lemma {:induction false} InsertKeepsOrder(sorted: seq<int>, t: int)
    requires Chronological(sorted)
    ensures Chronological(Insert(sorted, t))
  {
    if sorted != [] && sorted[|sorted| - 1] > t {
      var n := |sorted| - 1;
      InsertKeepsOrder(sorted[..n], t);
      InsertedMembers(sorted[..n], t);
      AtTheEnd(Insert(sorted[..n], t), sorted[n]);
    }
  }

  lemma AtTheEnd(sorted: seq<int>, t: int)
    requires Chronological(sorted) && forall x | x in sorted :: x <= t
    ensures Chronological(sorted + [t])
  {
    assert forall i | 0 <= i < |sorted| :: sorted[i] in sorted;
  }

  lemma InsertedMembers(sorted: seq<int>, t: int)
    ensures forall x | x in Insert(sorted, t) :: x in sorted || x == t
  {
    forall x | x in Insert(sorted, t)
      ensures x in sorted || x == t
    {
      assert x in multiset(Insert(sorted, t));
    }
  }

  function Sorted(times: seq<int>): (sorted: seq<int>)
    ensures multiset(sorted) == multiset(times)
  {
    if times == [] then []
    else
      assert times == times[..|times| - 1] + [times[|times| - 1]];
      Insert(Sorted(times[..|times| - 1]), times[|times| - 1])
  }

  lemma {:induction false} SortedIsChronological(times: seq<int>)
    ensures Chronological(Sorted(times))
  {
    if times != [] {
      var n := |times| - 1;
      SortedIsChronological(times[..n]);
      InsertKeepsOrder(Sorted(times[..n]), times[n]);
    }
  }

  lemma {:induction false} SortedOfChronological(times: seq<int>)
    requires Chronological(times)
    ensures Sorted(times) == times
  {
    if times != [] {
      var n := |times| - 1;
      var earlier := times[..n];
      SortedOfChronological(earlier);
      assert earlier != [] ==> earlier[n - 1] <= times[n];
      assert Insert(earlier, times[n]) == earlier + [times[n]];
    }
  }

  function Mean(s: seq<nat>): Option<real> {
    if s == [] then None else Some(Sum(s) as real / |s| as real)
  }

  /** The study's takt: the mean of the intervals between sorted completions. The report skips the sort. */
  function StudyTakt(times: seq<int>): Option<real> {
    Mean(Intervals(Sorted(times)))
  }

  function ReportTakt(times: seq<int>): Option<real> {
    Mean(Intervals(times))
  }

  predicate IsLeast(t: int, times: seq<int>) {
    t in times && forall i | 0 <= i < |times| :: t <= times[i]
  }

  predicate IsGreatest(t: int, times: seq<int>) {
    t in times && forall i | 0 <= i < |times| :: times[i] <= t
  }

  lemma SortedEnds(times: seq<int>)
    requires times != []
    ensures |Sorted(times)| == |times|
    ensures forall t :: t in Sorted(times) <==> t in times
    ensures forall t | IsLeast(t, times) :: IsLeast(t, Sorted(times))
    ensures forall t | IsGreatest(t, times) :: IsGreatest(t, Sorted(times))
  {
    var sorted := Sorted(times);
    assert |multiset(sorted)| == |multiset(times)|;
    forall t
      ensures t in sorted <==> t in times
    {
      assert t in multiset(sorted) <==> t in multiset(times);
    }
    assert forall i | 0 <= i < |sorted| :: sorted[i] in times;
  }

  /** The study's takt is the span of the completions over their number less one. */
  lemma StudyTaktIsSpanOverCount(times: seq<int>, first: int, last: int)
    requires |times| > 1 && IsLeast(first, times) && IsGreatest(last, times)
    ensures StudyTakt(times) == Some((last - first) as real / (|times| - 1) as real)
  {
    SortedEnds(times);
    SortedIsChronological(times);
    MeanOfTelescope(Sorted(times), |times|, first, last);
  }

  lemma MeanOfTelescope(times: seq<int>, n: nat, first: int, last: int)
    requires Chronological(times) && n == |times| > 1 && IsLeast(first, times) && IsGreatest(last, times)
    ensures Mean(Intervals(times)) == Some((last - first) as real / (n - 1) as real)
  {
    IntervalsTelescope(times);
    assert times[0] == first && times[n - 1] == last;
  }

  /** The report's takt, whatever the order of the rows: the way gone and all falls, over the number of steps forward. */
  lemma {:induction false} ReportTaktCountsFalls(times: seq<int>)
    requires times != []
    ensures var steps, way := |times| - 1 - |Falls(times)|, times[|times| - 1] - times[0] + Sum(Falls(times));
            ReportTakt(times) == if steps == 0 then None else Some(way as real / steps as real)
  {
    IntervalsAreTheStepsForward(times);
  }

  /** Report and study agree whenever the rows bring the completions in time order. */
  lemma ReportAgreesWhenChronological(times: seq<int>)
    requires Chronological(times)
    ensures ReportTakt(times) == StudyTakt(times)
  {
    SortedOfChronological(times);
  }

  // ----- What the recorder's histories give -----

  function Readings(unit: nat, history: seq<Event>): (rs: seq<Reading>)
    ensures |rs| == |history|
    ensures forall i | 0 <= i < |rs| ::
              rs[i] == Reading(unit, history[i].step, history[i].station, history[i].etype, history[i].at)
  {
    seq(|history|, i requires 0 <= i < |history| =>
      Reading(unit, history[i].step, history[i].station, history[i].etype, history[i].at))
  }

  lemma {:induction false} LawfulNeighbours(history: seq<Event>, i: nat)
    requires Lawful(history) && i < |history|
    ensures Follows(if i == 0 then None else Some(history[i - 1]), history[i])
    decreases |history|
  {
    var earlier := history[..|history| - 1];
    if i < |earlier| {
      LawfulNeighbours(earlier, i);
    }
  }

  /** Over every run on time, each completion is paired with the event just before it, and the cycle is the time between. */
  lemma RecordedCompletionsPair(route: seq<RouteStep>, ops: seq<Op>, unit: nat, step: nat, i: nat)
    requires OnTimeRun(route, FRESH, ops)
    requires var history := History(Run(route, FRESH, ops).log, step); i < |history| && history[i].etype.Completed?
    ensures var history := History(Run(route, FRESH, ops).log, step);
            var rs := Readings(unit, history);
            i > 0 && Partner(rs, rs[i], i) == Some(i - 1) && history[i - 1].at <= history[i].at
  {
    var log := Run(route, FRESH, ops).log;
    var history := History(log, step);
    RunKeepsRegular(route, FRESH, ops);
    assert Lawful(history);
    LawfulNeighbours(history, i);
    HistoryMembers(log, step, history[i]);
    if i > 0 { HistoryMembers(log, step, history[i - 1]); }
  }

  /** Rows of other work before a block do not change what its completions are paired with. */
  lemma {:induction false} BlockKeepsPartner(rs: seq<Reading>, block: seq<Reading>, before: nat, work: Reading, i: nat)
    requires before + |block| <= |rs| && rs[before..before + |block|] == block && i <= |block|
    requires forall k | 0 <= k < before :: !SameWork(rs[k], work)
    ensures var own := Partner(block, work, i);
            Partner(rs, work, before + i) == if own.Some? then Some(before + own.value) else None
    decreases before + i
  {
    if i > 0 {
      assert rs[before + i - 1] == block[i - 1];
      BlockKeepsPartner(rs, block, before, work, i - 1);
    } else if before > 0 {
      BlockKeepsPartner(rs, [], before - 1, work, 0);
    }
  }

  /**
   * Wherever a report lists what the recorder wrote at one step of one unit, over any run on time, every completion
   * yields a cycle, and the cycle is the time since the event before it.
   */
  lemma RecordedCompletionsYieldCycles(route: seq<RouteStep>, ops: seq<Op>, unit: nat, step: nat, i: nat,
                                       rs: seq<Reading>, before: nat)
    requires OnTimeRun(route, FRESH, ops)
    requires var history := History(Run(route, FRESH, ops).log, step);
             && i < |history| && history[i].etype.Completed?
             && before + |history| <= |rs| && rs[before..before + |history|] == Readings(unit, history)
    requires forall k | 0 <= k < before :: rs[k].unit != unit || rs[k].step != step
    ensures var history := History(Run(route, FRESH, ops).log, step);
            i > 0 && CycleAt(rs, before + i) == Some(history[i].at - history[i - 1].at)
  {
    var history := History(Run(route, FRESH, ops).log, step);
    var block := Readings(unit, history);
    RecordedCompletionsPair(route, ops, unit, step, i);
    HistoryMembers(Run(route, FRESH, ops).log, step, history[i]);
    BlockKeepsPartner(rs, block, before, block[i], i);
    assert rs[before + i] == block[i] && rs[before + i - 1] == block[i - 1];
  }

  // ----- Completed units -----

  datatype RouteRow = RouteRow(route: nat, sequence: nat, active: bool)

  /** An event as the report counts it: its unit, its station's line, and the step it names, if any. */
  datatype LineEvent = LineEvent(unit: nat, line: nat, etype: EventType, step: Option<RouteRow>)

  /** The sequence is the greatest among the route's active steps. */
  ghost predicate IsLastActive(rows: seq<RouteRow>, route: nat, sequence: nat) {
    && (exists r :: r in rows && r.route == route && r.active && r.sequence == sequence)
    && (forall r | r in rows && r.route == route && r.active :: r.sequence <= sequence)
  }

  /** The greatest sequence of each route's active steps, for the routes that have one. */
  method TerminalSequences(rows: seq<RouteRow>) returns (terminal: map<nat, nat>)
    ensures forall route: nat, sequence: nat ::
              route in terminal && terminal[route] == sequence <==> IsLastActive(rows, route, sequence)
  {
    terminal := map[];
    for n := 0 to |rows|
      invariant forall route: nat | route in terminal :: IsLastActive(rows[..n], route, terminal[route])
      invariant forall r | r in rows[..n] && r.active :: r.route in terminal
    {
      var r := rows[n];
      assert rows[..n + 1] == rows[..n] + [r];
      if r.active && (r.route !in terminal || terminal[r.route] < r.sequence) {
        terminal := terminal[r.route := r.sequence];
      }
    }
    assert rows[..|rows|] == rows;
  }

  /** The event completes the last active step of its route. */
  ghost predicate Finishes(rows: seq<RouteRow>, e: LineEvent) {
    e.etype.Completed? && e.step.Some? && IsLastActive(rows, e.step.value.route, e.step.value.sequence)
  }

  function Units(table: map<nat, set<nat>>, line: nat): set<nat> {
    if line in table then table[line] else {}
  }

  /** Among the first n events, one at the line completes the last active step of its route for the unit. */
  ghost predicate Counted(events: seq<LineEvent>, rows: seq<RouteRow>, n: nat, line: nat, unit: nat)
    requires n <= |events|
  {
    exists i: nat :: i < n && events[i].line == line && events[i].unit == unit && Finishes(rows, events[i])
  }

  lemma CountedOneMore(events: seq<LineEvent>, rows: seq<RouteRow>, n: nat, line: nat, unit: nat)
    requires n < |events|
    ensures Counted(events, rows, n + 1, line, unit) <==>
              Counted(events, rows, n, line, unit)
              || (events[n].line == line && events[n].unit == unit && Finishes(rows, events[n]))
  {}

  /** The units counted as completed on each line: those with an event there that completes a route's last active step. */
  method CompletedUnits(events: seq<LineEvent>, rows: seq<RouteRow>) returns (units: map<nat, set<nat>>)
    ensures forall line: nat, unit: nat :: unit in Units(units, line) <==> Counted(events, rows, |events|, line, unit)
  {
    var terminal := TerminalSequences(rows);
    units := map[];
    for n := 0 to |events|
      invariant forall line: nat, unit: nat :: unit in Units(units, line) <==> Counted(events, rows, n, line, unit)
    {
      var e := events[n];
      forall line: nat, unit: nat
        ensures Counted(events, rows, n + 1, line, unit) <==>
                  unit in Units(units, line) || (e.line == line && e.unit == unit && Finishes(rows, e))
      {
        CountedOneMore(events, rows, n, line, unit);
      }
      ghost var before := units;
      if e.etype == EventType.Completed && e.step.Some? && e.step.value.route in terminal
         && terminal[e.step.value.route] == e.step.value.sequence {
        assert Finishes(rows, e);
        units := units[e.line := Units(units, e.line) + {e.unit}];
      } else {
        assert !Finishes(rows, e);
      }
      assert forall line: nat, unit: nat :: unit in Units(units, line) <==>
          unit in Units(before, line) || (e.line == line && e.unit == unit && Finishes(rows, e));
    }
  }

  /** A counted unit had finished every earlier step when its last completion was recorded, at whatever times. */
  lemma CountedUnitFinishedItsRoute(route: seq<RouteStep>, ops: seq<Op>, k: nat)
    requires var log := Run(route, FRESH, ops).log;
             k < |log| && log[k].origin.Recorder? && log[k].etype.Completed? && log[k].step == |route| - 1
    ensures forall j | 0 <= j < |route| - 1 :: Done(Run(route, FRESH, ops).log[..k], j)
  {
    EventsAreWrittenInRouteOrder(route, ops);
  }
}
