/** The figures of a balance study: station loads, capacity per shift, efficiency, demand gap and status. */
module Capacity {
  import opened Arithmetic
  import opened Wrappers

  // ----- Loads -----

  datatype StepLoad = StepLoad(station: nat, seconds: nat)

  function StationLoad(steps: seq<StepLoad>, station: nat): nat {
    if steps == [] then 0
    else
      var last := steps[|steps| - 1];
      StationLoad(steps[..|steps| - 1], station) + if last.station == station then last.seconds else 0
  }

  function TotalLoad(steps: seq<StepLoad>): nat {
    if steps == [] then 0 else TotalLoad(steps[..|steps| - 1]) + steps[|steps| - 1].seconds
  }

  /** The loads of the listed stations together. */
  function LoadOf(steps: seq<StepLoad>, stations: seq<nat>): nat {
    if stations == [] then 0
    else LoadOf(steps, stations[..|stations| - 1]) + StationLoad(steps, stations[|stations| - 1])
  }

  predicate Distinct(stations: seq<nat>) {
    forall i, j | 0 <= i < j < |stations| :: stations[i] != stations[j]
  }

  lemma {:induction false} LoadOfAppend(steps: seq<StepLoad>, s: StepLoad, stations: seq<nat>)
    requires Distinct(stations)
    ensures LoadOf(steps + [s], stations) == LoadOf(steps, stations) + if s.station in stations then s.seconds else 0
  {
    if stations != [] {
      var n := |stations| - 1;
      assert (steps + [s])[..|steps|] == steps;
      assert stations == stations[..n] + [stations[n]];
      LoadOfAppend(steps, s, stations[..n]);
    }
  }

  lemma {:induction false} NoStepsNoLoad(stations: seq<nat>)
    ensures LoadOf([], stations) == 0
  {
    if stations != [] { NoStepsNoLoad(stations[..|stations| - 1]); }
  }

  /** Station loads sum to the total of the steps, when every step works at a listed station. */
  lemma {:induction false} StationLoadsSumToTotal(steps: seq<StepLoad>, stations: seq<nat>)
    requires Distinct(stations) && forall k | 0 <= k < |steps| :: steps[k].station in stations
    ensures LoadOf(steps, stations) == TotalLoad(steps)
  {
    if steps == [] {
      NoStepsNoLoad(stations);
    } else {
      var init, last := steps[..|steps| - 1], steps[|steps| - 1];
      StationLoadsSumToTotal(init, stations);
      LoadOfAppend(init, last, stations);
      assert steps == init + [last];
    }
  }

  /** The pass over the route's steps; a step at a station of the line that is not active has no row to go to. */
  method AccumulateSteps(stations: seq<nat>, steps: seq<StepLoad>) returns (rows: Result<map<nat, nat>, nat>)
    ensures rows.Ok? <==> forall k | 0 <= k < |steps| :: steps[k].station in stations
    ensures rows.Ok? ==> rows.value.Keys == (set s | s in stations)
                         && forall s | s in stations :: rows.value[s] == StationLoad(steps, s)
    ensures rows.Err? ==> rows.error < |steps| && steps[rows.error].station !in stations
  {
    var standard := map s | s in stations :: 0;
    for k := 0 to |steps|
      invariant standard.Keys == set s | s in stations
      invariant forall j | 0 <= j < k :: steps[j].station in stations
      invariant forall s | s in stations :: standard[s] == StationLoad(steps[..k], s)
    {
      var step := steps[k];
      assert steps[..k + 1][..k] == steps[..k];
      if step.station !in standard { return Err(k); }
      standard := standard[step.station := standard[step.station] + step.seconds];
    }
    assert steps[..|steps|] == steps;
    return Ok(standard);
  }

  // ----- Capacity -----

  /** The slowest station's seconds; zero on a line without work. */
  function LineCycle(standard: seq<nat>): (cycle: nat)
    ensures forall i | 0 <= i < |standard| :: standard[i] <= cycle
    ensures cycle > 0 ==> cycle in standard
  {
    if standard == [] then 0
    else
      var n := |standard| - 1;
      var earlier := LineCycle(standard[..n]);
      assert standard == standard[..n] + [standard[n]];
      if standard[n] > earlier then standard[n] else earlier
  }

  function UnitsPerShift(shift: nat, seconds: nat): Option<nat> {
    if seconds == 0 then None else Some(shift / seconds)
  }

  lemma ScaledOrder(a: nat, b: nat, factor: nat)
    requires a <= b
    ensures a * factor <= b * factor
  {
  }

  lemma CancelFactor(a: nat, b: nat, factor: nat)
    requires a * factor < b * factor
    ensures a < b
  {
    if b <= a { ScaledOrder(b, a, factor); }
  }

  lemma Floors(n: nat, d: nat)
    requires d > 0
    ensures (n / d) * d <= n < (n / d + 1) * d
  {
  }

  lemma SlowerMakesFewer(shift: nat, slow: nat, quick: nat)
    requires 0 < quick <= slow
    ensures shift / slow <= shift / quick
  {
    var units, more := shift / slow, shift / quick + 1;
    Floors(shift, slow);
    Floors(shift, quick);
    ScaledOrder(quick, slow, units);
    CancelFactor(units, more, quick);
  }

  /** Line capacity is the least of the working stations' capacities. */
  lemma CapacityIsTheLeast(standard: seq<nat>, shift: nat)
    requires LineCycle(standard) > 0
    ensures var capacity := UnitsPerShift(shift, LineCycle(standard)).value;
            && (forall i | 0 <= i < |standard| && standard[i] > 0 :: capacity <= UnitsPerShift(shift, standard[i]).value)
            && (exists i :: 0 <= i < |standard| && UnitsPerShift(shift, standard[i]) == Some(capacity))
  {
    var cycle := LineCycle(standard);
    forall i | 0 <= i < |standard| && standard[i] > 0
      ensures UnitsPerShift(shift, cycle).value <= UnitsPerShift(shift, standard[i]).value
    {
      SlowerMakesFewer(shift, cycle, standard[i]);
    }
    var i :| 0 <= i < |standard| && standard[i] == cycle;
    assert UnitsPerShift(shift, standard[i]) == Some(UnitsPerShift(shift, cycle).value);
  }

  /** The time of all stations for one unit at the line's pace. */
  function PaceTime(standard: seq<nat>): nat {
    |standard| * LineCycle(standard)
  }

  lemma PaceTimeIsPositive(standard: seq<nat>)
    requires LineCycle(standard) > 0
    ensures PaceTime(standard) > 0
  {
    assert |standard| > 0;
  }

  /** Balance efficiency in percent, when the line has work. */
  function Efficiency(standard: seq<nat>): Option<real> {
    if LineCycle(standard) == 0 then None
    else
      PaceTimeIsPositive(standard);
      Some(Sum(standard) as real / PaceTime(standard) as real * 100.0)
  }

  lemma {:induction false} TotalIsBounded(standard: seq<nat>, cycle: nat)
    requires forall i | 0 <= i < |standard| :: standard[i] <= cycle
    ensures Sum(standard) <= |standard| * cycle
    ensures Sum(standard) == |standard| * cycle <==> forall i | 0 <= i < |standard| :: standard[i] == cycle
  {
    if standard != [] {
      var n := |standard| - 1;
      TotalIsBounded(standard[..n], cycle);
      assert (n + 1) * cycle == n * cycle + cycle;
      assert standard == standard[..n] + [standard[n]];
    }
  }

  lemma RatioPercent(part: nat, whole: nat)
    requires 0 < whole && part <= whole
    ensures part as real / whole as real * 100.0 <= 100.0
    ensures part as real / whole as real * 100.0 == 100.0 <==> part == whole
  {
    var ratio := part as real / whole as real;
    assert ratio * whole as real == part as real;
    if part < whole {
      assert ratio < 1.0;
    } else {
      assert ratio == 1.0;
    }
  }

  /** Efficiency never exceeds 100 percent, and reaches it exactly when all stations carry the same seconds. */
  lemma EfficiencyIsFullExactlyWhenLevel(standard: seq<nat>)
    requires LineCycle(standard) > 0
    ensures Efficiency(standard).value <= 100.0
    ensures Efficiency(standard).value == 100.0 <==> forall i, j | 0 <= i < j < |standard| :: standard[i] == standard[j]
  {
    var cycle := LineCycle(standard);
    TotalIsBounded(standard, cycle);
    assert |standard| > 0;
    assert |standard| * cycle > 0;
    RatioPercent(Sum(standard), |standard| * cycle);
    var top :| 0 <= top < |standard| && standard[top] == cycle;
    if forall i, j | 0 <= i < j < |standard| :: standard[i] == standard[j] {
      assert forall i | 0 <= i < |standard| :: standard[i] == standard[top];
    }
  }

  // ----- Demand -----

  /** A station's load in percent of the shift. */
  function LoadPercent(standard: nat, planned: nat, shift: nat): Option<real> {
    if shift == 0 then None else Some((standard * planned) as real / shift as real * 100.0)
  }

  function DemandGap(standard: seq<nat>, planned: nat, shift: nat): Option<nat> {
    var capacity := UnitsPerShift(shift, LineCycle(standard));
    if capacity.None? then None
    else Some(if planned > capacity.value then planned - capacity.value else 0)
  }

  /** Gap and capacity together are the planned demand, when it exceeds the capacity. */
  lemma {:induction false} GapFillsTheDemand(standard: seq<nat>, planned: nat, shift: nat)
    ensures DemandGap(standard, planned, shift).None? <==> forall i | 0 <= i < |standard| :: standard[i] == 0
    ensures DemandGap(standard, planned, shift).Some? ==>
              var gap, capacity := DemandGap(standard, planned, shift).value, UnitsPerShift(shift, LineCycle(standard)).value;
              if gap > 0 then gap + capacity == planned else planned <= capacity
  {
    var cycle := LineCycle(standard);
    if cycle > 0 { var i :| 0 <= i < |standard| && standard[i] == cycle; }
  }

  /** A shift holds the capacity's units at that pace, and not one more. */
  lemma CapacityFillsTheShift(shift: nat, seconds: nat)
    ensures UnitsPerShift(shift, seconds).None? <==> seconds == 0
    ensures seconds > 0 ==>
              var units := UnitsPerShift(shift, seconds).value;
              units * seconds <= shift < (units + 1) * seconds
  {
    if seconds > 0 { Floors(shift, seconds); }
  }

  datatype StationStatus = Bottleneck | Underloaded | Even

  /** Status of a station; a target of zero stands for no target. */
  function StatusOf(standard: nat, target: nat, load: Option<real>, actualCycle: Option<real>, realTakt: Option<real>)
    : StationStatus
  {
    if load.Some? && load.value > 100.0 then Bottleneck
    else if target > 0 && standard > target then Bottleneck
    else if target > 0 && actualCycle.Some? && actualCycle.value > target as real then Bottleneck
    else if target > 0 && realTakt.Some? && realTakt.value > target as real then Bottleneck
    else if target > 0 && standard > 0 && (standard as real) < target as real * 0.75 then Underloaded
    else Even
  }

  predicate Exceeds(measured: Option<real>, bound: real) {
    measured.Some? && measured.value > bound
  }

  /** A bottleneck is overloaded or over its target, by standard or by measure; underloaded is under three quarters of it. */
  lemma StatusNamesTheCause(standard: nat, target: nat, load: Option<real>, actualCycle: Option<real>, realTakt: Option<real>)
    ensures var status := StatusOf(standard, target, load, actualCycle, realTakt);
            var over := target > 0
                        && (standard > target || Exceeds(actualCycle, target as real) || Exceeds(realTakt, target as real));
            && (status == Bottleneck <==> Exceeds(load, 100.0) || over)
            && (status == Underloaded <==>
                  !Exceeds(load, 100.0) && !over && target > 0 && standard > 0 && 4 * standard < 3 * target)
  {
    assert (standard as real) < target as real * 0.75 <==> 4 * standard < 3 * target;
  }

  /** A station's load is the share of the shift that the planned units take. */
  lemma LoadIsTheShare(standard: nat, planned: nat, shift: nat)
    ensures LoadPercent(standard, planned, shift).None? <==> shift == 0
    ensures shift > 0 ==> IsPercent(LoadPercent(standard, planned, shift).value, standard * planned, shift)
  {
    if shift > 0 { PercentOf(standard * planned, shift, LoadPercent(standard, planned, shift).value); }
  }

  /** The part is so many percent of the whole. */
  predicate IsPercent(percent: real, part: nat, whole: nat) {
    percent * whole as real == 100.0 * part as real
  }

  lemma ShareOf(part: real, whole: real)
    requires whole > 0.0
    ensures part / whole * 100.0 * whole == 100.0 * part
  {
    assert part / whole * whole == part;
  }

  lemma {:induction false} NoCycleMeansNoWork(standard: seq<nat>)
    ensures LineCycle(standard) == 0 <==> forall i | 0 <= i < |standard| :: standard[i] == 0
  {}

  /** Efficiency is the share of the stations' time at the line's pace that is work. */
  lemma {:induction false} EfficiencyIsTheShare(standard: seq<nat>)
    ensures Efficiency(standard).None? <==> forall i | 0 <= i < |standard| :: standard[i] == 0
    ensures Efficiency(standard).Some? ==>
              IsPercent(Efficiency(standard).value, Sum(standard), PaceTime(standard))
  {
    NoCycleMeansNoWork(standard);
    if LineCycle(standard) > 0 {
      PaceTimeIsPositive(standard);
      PercentOf(Sum(standard), PaceTime(standard), Efficiency(standard).value);
    }
  }

  lemma PercentOf(part: nat, whole: nat, percent: real)
    requires whole > 0 && percent == part as real / whole as real * 100.0
    ensures IsPercent(percent, part, whole)
  {
    ShareOf(part as real, whole as real);
  }

  lemma SameSign(a: real, b: real)
    requires b > 0.0
    ensures a * b > 0.0 <==> a > 0.0
  {
  }

  lemma OverCapacity(standard: nat, planned: nat, shift: nat)
    requires standard > 0 && shift > 0
    ensures planned > shift / standard <==> standard * planned > shift
  {
    var units := shift / standard;
    Floors(shift, standard);
    if planned > units {
      ScaledOrder(units + 1, planned, standard);
    } else {
      ScaledOrder(planned, units, standard);
    }
  }

  lemma OverLoad(standard: nat, planned: nat, shift: nat)
    requires shift > 0
    ensures LoadPercent(standard, planned, shift).value > 100.0 <==> standard * planned > shift
  {
    var load := standard * planned;
    var ratio := load as real / shift as real;
    assert ratio * shift as real == load as real;
    assert (ratio - 1.0) * shift as real == load as real - shift as real;
    SameSign(ratio - 1.0, shift as real);
  }

  /** A positive demand gap is reported exactly when some station's load exceeds its shift. */
  lemma GapExactlyWhenOverloaded(standard: seq<nat>, planned: nat, shift: nat)
    requires shift > 0
    ensures DemandGap(standard, planned, shift).Some? && DemandGap(standard, planned, shift).value > 0
            <==> exists i :: 0 <= i < |standard| && LoadPercent(standard[i], planned, shift).value > 100.0
  {
    var cycle := LineCycle(standard);
    forall i | 0 <= i < |standard|
      ensures LoadPercent(standard[i], planned, shift).value > 100.0 ==> cycle * planned > shift
    {
      OverLoad(standard[i], planned, shift);
      ScaledOrder(standard[i], cycle, planned);
    }
    if cycle > 0 {
      OverCapacity(cycle, planned, shift);
      var top :| 0 <= top < |standard| && standard[top] == cycle;
      OverLoad(standard[top], planned, shift);
    }
  }

  /** So whenever there is a gap, some station shows as a bottleneck, whatever else was measured. */
  lemma GapShowsABottleneck(standard: seq<nat>, targets: seq<nat>, actual: seq<Option<real>>, takt: seq<Option<real>>,
                            planned: nat, shift: nat)
    requires shift > 0 && |targets| == |actual| == |takt| == |standard|
    requires DemandGap(standard, planned, shift).Some? && DemandGap(standard, planned, shift).value > 0
    ensures exists i :: 0 <= i < |standard|
              && StatusOf(standard[i], targets[i], LoadPercent(standard[i], planned, shift), actual[i], takt[i]).Bottleneck?
  {
    GapExactlyWhenOverloaded(standard, planned, shift);
    var i :| 0 <= i < |standard| && LoadPercent(standard[i], planned, shift).value > 100.0;
    assert StatusOf(standard[i], targets[i], LoadPercent(standard[i], planned, shift), actual[i], takt[i]).Bottleneck?;
  }
}
