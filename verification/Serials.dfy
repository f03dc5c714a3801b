/** Serial numbers for a plan's units: a search for free numbers that ends because the number format is injective. */
module Serials {
  import opened Wrappers
  import opened Lexical

  datatype PlanStatus = Draft | Released | InExecution | Closed | Cancelled

  datatype Plan = Plan(id: nat, code: string, target: nat, status: PlanStatus)

  /** A row of the unit table: its serial number, unique in the table, and the plan it is linked to. */
  datatype UnitRow = UnitRow(serial: string, plan: Option<nat>)

  datatype Refusal = PlanNotOpen | QuantityNotPositive | QuantityOverBalance

  /** The white space that stripping removes. */
  predicate IsSpace(c: char) {
    var code := c as int;
    || 9 <= code <= 13 || 28 <= code <= 32 || code == 0x85 || code == 0xA0 || code == 0x1680
    || 0x2000 <= code <= 0x200A || code == 0x2028 || code == 0x2029 || code == 0x202F || code == 0x205F || code == 0x3000
  }

  function Strip(s: string): string {
    if s == "" then ""
    else if IsSpace(s[0]) then Strip(s[1..])
    else if IsSpace(s[|s| - 1]) then Strip(s[..|s| - 1])
    else s
  }

  function PrefixFor(plan: Plan, asked: string): string {
    Strip(if asked == "" then plan.code else asked)
  }

  /** What is left of a string without the white space around it. */
  ghost predicate Trimmed(s: string, core: string) {
    exists from, to :: 0 <= from <= to <= |s| && IsCore(s, core, from, to)
  }

  predicate IsCore(s: string, core: string, from: nat, to: nat)
    requires from <= to <= |s|
  {
    && core == s[from..to]
    && (forall k | 0 <= k < from :: IsSpace(s[k])) && (forall k | to <= k < |s| :: IsSpace(s[k]))
    && (core != "" ==> !IsSpace(core[0]) && !IsSpace(core[|core| - 1]))
  }

  lemma {:induction false} StripTrims(s: string) returns (from: nat, to: nat)
    ensures from <= to <= |s| && IsCore(s, Strip(s), from, to)
  {
    if s == "" {
      from, to := 0, 0;
    } else if IsSpace(s[0]) {
      from, to := StripTrims(s[1..]);
      assert s[1..][from..to] == s[from + 1..to + 1];
      assert forall k | 0 < k < |s| :: s[k] == s[1..][k - 1];
      from, to := from + 1, to + 1;
    } else if IsSpace(s[|s| - 1]) {
      from, to := StripTrims(s[..|s| - 1]);
      assert s[..|s| - 1][from..to] == s[from..to];
    } else {
      from, to := 0, |s|;
    }
  }

  /** Serials carry the prefix asked for, or the plan's code when none is, without white space around it. */
  lemma PrefixIsAsked(plan: Plan, asked: string)
    ensures asked != "" ==> Trimmed(asked, PrefixFor(plan, asked))
    ensures asked == "" ==> Trimmed(plan.code, PrefixFor(plan, asked))
  {
    var from, to := StripTrims(if asked != "" then asked else plan.code);
  }

  const WIDTH: nat := 4

  function Serial(prefix: string, n: nat): string {
    prefix + "-" + Padded(n, WIDTH)
  }

  function Linked(units: seq<UnitRow>, plan: nat): nat {
    if units == [] then 0
    else Linked(units[..|units| - 1], plan) + if units[|units| - 1].plan == Some(plan) then 1 else 0
  }

  /** As many units as the table has rows of the plan. */
  lemma {:induction false} LinkedCounts(units: seq<UnitRow>, plan: nat)
    ensures Linked(units, plan) == |set i: nat | i < |units| && units[i].plan == Some(plan)|
  {
    var all := set i: nat | i < |units| && units[i].plan == Some(plan);
    if units == [] {
      assert all == {};
    } else {
      var n := |units| - 1;
      var earlier := set i: nat | i < n && units[..n][i].plan == Some(plan);
      LinkedCounts(units[..n], plan);
      assert n !in earlier && all - {n} == earlier;
    }
  }

  function Taken(units: seq<UnitRow>): set<string> {
    set row | row in units :: row.serial
  }

  predicate DistinctSerials(units: seq<UnitRow>) {
    forall i, j | 0 <= i < j < |units| :: units[i].serial != units[j].serial
  }

  function GenerationIssue(plan: Plan, linked: nat, quantity: int): Option<Refusal> {
    if plan.status.Closed? || plan.status.Cancelled? then Some(PlanNotOpen)
    else if quantity < 1 then Some(QuantityNotPositive)
    else if quantity > plan.target - linked then Some(QuantityOverBalance)
    else None
  }

  /** A request is refused for a plan no longer open, then for its quantity, then for more than the plan's balance. */
  lemma {:induction false} GenerationAnswers(plan: Plan, linked: nat, quantity: int)
    ensures var issue := GenerationIssue(plan, linked, quantity);
            && (issue == Some(PlanNotOpen) <==> plan.status in {PlanStatus.Closed, PlanStatus.Cancelled})
            && (issue == None <==> plan.status in {Draft, PlanStatus.Released, InExecution}
                                   && 1 <= quantity && linked + quantity <= plan.target)
            && (issue == Some(QuantityNotPositive) ==> quantity < 1)
            && (issue == Some(QuantityOverBalance) ==> 1 <= quantity && linked + quantity > plan.target)
  {}

  /** A serial is its prefix, a dash, and the number in at least four digits. */
  lemma SerialShape(prefix: string, n: nat)
    ensures var serial := Serial(prefix, n);
            && |serial| >= |prefix| + 5 && serial[..|prefix|] == prefix && serial[|prefix|] == '-'
            && AllDigits(serial[|prefix| + 1..]) && Value(serial[|prefix| + 1..]) == n
    ensures n < 10000 ==> |Serial(prefix, n)| == |prefix| + 5
  {
    ValueOfPadded(n, WIDTH);
    assert Serial(prefix, n)[|prefix| + 1..] == Padded(n, WIDTH);
    if n < 10000 {
      assert Pow10(4) == 10000 by { assert Pow10(3) == 1000; }
      PaddedFits(n, WIDTH);
    }
  }

  // ----- The search -----

  /** Four-digit padding never makes two numbers look alike, beyond 9999 included. */
  lemma SerialIsInjective(prefix: string, m: nat, n: nat)
    ensures Serial(prefix, m) == Serial(prefix, n) ==> m == n
  {
    ValueOfPadded(m, WIDTH);
    ValueOfPadded(n, WIDTH);
    assert Serial(prefix, m)[|prefix| + 1..] == Padded(m, WIDTH);
    assert Serial(prefix, n)[|prefix| + 1..] == Padded(n, WIDTH);
  }

  /** The existing serials that the search has still ahead of it. */
  ghost function Ahead(taken: set<string>, prefix: string, next: nat): set<string> {
    set s | s in taken && exists n: nat :: n >= next && s == Serial(prefix, n)
  }

  /** Each number tried that is taken leaves one serial fewer ahead. */
  lemma TakenLeavesFewerAhead(taken: set<string>, prefix: string, next: nat)
    ensures Ahead(taken, prefix, next + 1) <= Ahead(taken, prefix, next)
    ensures Serial(prefix, next) in taken ==> |Ahead(taken, prefix, next + 1)| < |Ahead(taken, prefix, next)|
    ensures |Ahead(taken, prefix, next + 1)| <= |Ahead(taken, prefix, next)|
  {
    var now, later, s := Ahead(taken, prefix, next), Ahead(taken, prefix, next + 1), Serial(prefix, next);
    if s in later {
      var n: nat :| n >= next + 1 && s == Serial(prefix, n);
      SerialIsInjective(prefix, next, n);
    }
    if s in taken {
      assert s in now;
      assert later <= now - {s};
      Smaller(later, now - {s});
    } else {
      Smaller(later, now);
    }
  }

  lemma {:induction false} Smaller(a: set<string>, b: set<string>)
    requires a <= b
    ensures |a| <= |b|
  {
    if a != {} {
      var x :| x in a;
      Smaller(a - {x}, b - {x});
    }
  }

  predicate Free(taken: set<string>, prefix: string, n: nat) {
    Serial(prefix, n) !in taken
  }

  predicate Ascending(numbers: seq<nat>) {
    forall i, j | 0 <= i < j < |numbers| :: numbers[i] < numbers[j]
  }

  /** The numbers are, in order, all the free ones from a starting point up to the next one to try. */
  ghost predicate Found(taken: set<string>, prefix: string, from: nat, next: nat, numbers: seq<nat>) {
    Ascending(numbers) && forall n: nat :: n in numbers <==> from <= n < next && Free(taken, prefix, n)
  }

  function End(from: nat, numbers: seq<nat>): nat {
    if numbers == [] then from else numbers[|numbers| - 1] + 1
  }

  /** The numbers are the first free ones from a starting point, in order. */
  ghost predicate FirstFree(taken: set<string>, prefix: string, from: nat, numbers: seq<nat>) {
    Found(taken, prefix, from, End(from, numbers), numbers)
  }

  /** Serial numbers for the numbers, in order. */
  function SerialsOf(prefix: string, numbers: seq<nat>): (serials: seq<string>)
    ensures |serials| == |numbers|
    ensures forall i | 0 <= i < |numbers| :: serials[i] == Serial(prefix, numbers[i])
  {
    seq(|numbers|, i requires 0 <= i < |numbers| => Serial(prefix, numbers[i]))
  }

  function Rows(plan: nat, serials: seq<string>): (rows: seq<UnitRow>)
    ensures |rows| == |serials|
    ensures forall i | 0 <= i < |rows| :: rows[i] == UnitRow(serials[i], Some(plan))
  {
    seq(|serials|, i requires 0 <= i < |serials| => UnitRow(serials[i], Some(plan)))
  }

  lemma LastIsLeast(taken: set<string>, prefix: string, from: nat, a: seq<nat>, b: seq<nat>)
    requires FirstFree(taken, prefix, from, a) && FirstFree(taken, prefix, from, b) && |a| == |b| > 0
    requires a[..|a| - 1] == b[..|a| - 1]
    ensures a[|a| - 1] <= b[|a| - 1]
  {
    var n := |a| - 1;
    var x, y := a[n], b[n];
    assert a == a[..n] + [x] && y in b && y !in b[..n];
    assert y < x ==> y in a;
  }

  /** Being the first free numbers determines them. */
  lemma {:induction false} FirstFreeIsUnique(taken: set<string>, prefix: string, from: nat, a: seq<nat>, b: seq<nat>)
    requires FirstFree(taken, prefix, from, a) && FirstFree(taken, prefix, from, b) && |a| == |b|
    ensures a == b
  {
    if a != [] {
      var n := |a| - 1;
      FirstFreePrefix(taken, prefix, from, a);
      FirstFreePrefix(taken, prefix, from, b);
      FirstFreeIsUnique(taken, prefix, from, a[..n], b[..n]);
      LastIsLeast(taken, prefix, from, a, b);
      LastIsLeast(taken, prefix, from, b, a);
      assert a == a[..n] + [a[n]] && b == b[..n] + [b[n]];
    }
  }

  lemma LastIsGreatest(from: nat, numbers: seq<nat>)
    requires Ascending(numbers) && numbers != []
    ensures var init, last := numbers[..|numbers| - 1], numbers[|numbers| - 1];
            && Ascending(init) && last !in init && (forall n :: n in numbers <==> n in init || n == last)
            && (forall n | n in init :: n < End(from, init)) && (init != [] ==> End(from, init) <= last)
  {
    var init, last := numbers[..|numbers| - 1], numbers[|numbers| - 1];
    assert numbers == init + [last];
  }

  lemma FirstFreePrefix(taken: set<string>, prefix: string, from: nat, numbers: seq<nat>)
    requires FirstFree(taken, prefix, from, numbers) && numbers != []
    ensures FirstFree(taken, prefix, from, numbers[..|numbers| - 1])
  {
    LastIsGreatest(from, numbers);
  }

  /**
   * Two batches one after the other give the numbers that one batch of both sizes gives: the second batch starts
   * from the linked units, steps over what the first batch took, and goes on where the first stopped.
   */
  lemma BatchesAddUp(taken: set<string>, prefix: string, from: nat, first: seq<nat>, second: seq<nat>)
    requires FirstFree(taken, prefix, from, first)
    requires FirstFree(taken + (set n | n in first :: Serial(prefix, n)), prefix, from + |first|, second)
    ensures FirstFree(taken, prefix, from, first + second)
  {
    var between := taken + set n | n in first :: Serial(prefix, n);
    var all, end := first + second, End(from, first);
    FirstReaches(first, from);
    forall n: nat
      ensures Free(between, prefix, n) <==> Free(taken, prefix, n) && n !in first
    {
      FreeAfterBatch(taken, prefix, first, n);
    }
    assert forall n | n in first :: n < end;
    assert forall n | n in second :: n >= end;
    AscendingConcat(first, second, end);
    assert forall n :: n in all <==> n in first || n in second;
    assert second != [] ==> second[|second| - 1] in second && End(from, all) == End(from + |first|, second);
    assert second == [] ==> all == first;
  }

  lemma AscendingConcat(a: seq<nat>, b: seq<nat>, end: nat)
    requires Ascending(a) && Ascending(b)
    requires (forall n | n in a :: n < end) && (forall n | n in b :: n >= end)
    ensures Ascending(a + b)
  {
    assert forall i | 0 <= i < |a| :: a[i] in a;
    assert forall i | 0 <= i < |b| :: b[i] in b;
  }

  /** What a batch leaves free: what was free and it did not use. */
  lemma FreeAfterBatch(taken: set<string>, prefix: string, batch: seq<nat>, n: nat)
    ensures Free(taken + (set m | m in batch :: Serial(prefix, m)), prefix, n) <==> Free(taken, prefix, n) && n !in batch
  {
    var used := set m | m in batch :: Serial(prefix, m);
    if Serial(prefix, n) in used {
      var m :| m in batch && Serial(prefix, n) == Serial(prefix, m);
      SerialIsInjective(prefix, n, m);
    }
  }

  /** Ascending numbers from a start reach at least as far as their count. */
  lemma {:induction false} FirstReaches(numbers: seq<nat>, from: nat)
    requires Ascending(numbers) && forall n | n in numbers :: n >= from
    ensures End(from, numbers) >= from + |numbers|
  {
    if numbers != [] {
      LastIsGreatest(from, numbers);
      assert numbers[|numbers| - 1] in numbers;
      FirstReaches(numbers[..|numbers| - 1], from);
    }
  }

  lemma {:induction false} LinkedGrows(units: seq<UnitRow>, plan: nat, serials: seq<string>)
    ensures Linked(units + Rows(plan, serials), plan) == Linked(units, plan) + |serials|
  {
    var rows := Rows(plan, serials);
    if serials == [] {
      assert units + rows == units;
    } else {
      var n := |serials| - 1;
      LinkedGrows(units, plan, serials[..n]);
      assert (units + rows)[..|units| + n] == units + Rows(plan, serials[..n]);
    }
  }

  predicate Occurs(units: seq<UnitRow>, serial: string) {
    exists i | 0 <= i < |units| :: units[i].serial == serial
  }

  lemma FoundAreFirst(taken: set<string>, prefix: string, from: nat, next: nat, numbers: seq<nat>)
    requires Found(taken, prefix, from, next, numbers)
    ensures FirstFree(taken, prefix, from, numbers)
  {
    assert forall n | n in numbers :: n < End(from, numbers);
    assert numbers != [] ==> numbers[|numbers| - 1] in numbers;
  }

  lemma SearchGoesOn(taken: set<string>, prefix: string, from: nat, next: nat, numbers: seq<nat>)
    requires Found(taken, prefix, from, next, numbers) && from <= next
    ensures if Free(taken, prefix, next) then Found(taken, prefix, from, next + 1, numbers + [next])
            else Found(taken, prefix, from, next + 1, numbers)
  {
    assert forall i | 0 <= i < |numbers| :: numbers[i] in numbers;
    assert forall n :: n in numbers + [next] <==> n in numbers || n == next;
  }

  /** While searching, a serial exists exactly when it did before: what was created lies behind. */
  lemma ExistsMeansTaken(units: seq<UnitRow>, plan: nat, prefix: string, numbers: seq<nat>, next: nat)
    requires forall i | 0 <= i < |numbers| :: numbers[i] < next
    ensures Occurs(units + Rows(plan, SerialsOf(prefix, numbers)), Serial(prefix, next))
            <==> Serial(prefix, next) in Taken(units)
  {
    var rows, serial := units + Rows(plan, SerialsOf(prefix, numbers)), Serial(prefix, next);
    forall i | |units| <= i < |rows|
      ensures rows[i].serial != serial
    {
      assert rows[i].serial == Serial(prefix, numbers[i - |units|]);
      SerialIsInjective(prefix, numbers[i - |units|], next);
    }
    if serial in Taken(units) {
      var i :| 0 <= i < |units| && units[i].serial == serial;
      assert rows[i] == units[i];
    }
  }

  /** One turn of the search, whichever way it goes. */
  lemma OneTurn(units: seq<UnitRow>, plan: nat, prefix: string, from: nat, numbers: seq<nat>, next: nat)
    requires Found(Taken(units), prefix, from, next, numbers) && from <= next
    ensures var serial, created := Serial(prefix, next), SerialsOf(prefix, numbers);
            var rows := units + Rows(plan, created);
            var ahead, after := |Ahead(Taken(units), prefix, next)|, |Ahead(Taken(units), prefix, next + 1)|;
            if Occurs(rows, serial) then after < ahead && Found(Taken(units), prefix, from, next + 1, numbers)
            else
              && after <= ahead && Found(Taken(units), prefix, from, next + 1, numbers + [next])
              && created + [serial] == SerialsOf(prefix, numbers + [next])
              && rows + [UnitRow(serial, Some(plan))] == units + Rows(plan, created + [serial])
              && (DistinctSerials(rows) ==> DistinctSerials(rows + [UnitRow(serial, Some(plan))]))
  {
    TakenLeavesFewerAhead(Taken(units), prefix, next);
    SearchGoesOn(Taken(units), prefix, from, next, numbers);
    assert forall i | 0 <= i < |numbers| :: numbers[i] in numbers;
    ExistsMeansTaken(units, plan, prefix, numbers, next);
  }

  /** The state of a search: the rows written so far, for the numbers found before the next one. */
  ghost predicate Searching(before: seq<UnitRow>, units: seq<UnitRow>, plan: nat, prefix: string, from: nat,
                            created: seq<string>, numbers: seq<nat>, next: nat) {
    && Found(Taken(before), prefix, from, next, numbers) && from <= next && created == SerialsOf(prefix, numbers)
    && units == before + Rows(plan, created) && DistinctSerials(units)
  }

  class UnitTable {
    var units: seq<UnitRow>

    constructor ()
      ensures units == []
    {
      units := [];
    }

    /** Creates the asked number of units, or refuses and changes nothing. */
    method GenerateSerializedUnits(plan: Plan, quantity: int, asked: string)
      returns (result: Result<seq<string>, Refusal>, ghost numbers: seq<nat>)
      requires DistinctSerials(units)
      modifies this
      ensures DistinctSerials(units)
      ensures var issue := GenerationIssue(plan, old(Linked(units, plan.id)), quantity);
              if issue.Some? then result == Err(issue.value) && units == old(units)
              else
                && |numbers| == quantity
                && FirstFree(old(Taken(units)), PrefixFor(plan, asked), old(Linked(units, plan.id)) + 1, numbers)
                && result == Ok(SerialsOf(PrefixFor(plan, asked), numbers))
                && units == old(units) + Rows(plan.id, result.value)
                && Linked(units, plan.id) == old(Linked(units, plan.id)) + quantity <= plan.target
    {
      numbers := [];
      var linked := Linked(units, plan.id);
      if plan.status.Closed? || plan.status.Cancelled? {
        return Err(PlanNotOpen), [];
      }
      if quantity < 1 {
        return Err(QuantityNotPositive), [];
      }
      if quantity > (if plan.target >= linked then plan.target - linked else 0) {
        return Err(QuantityOverBalance), [];
      }
      var created;
      created, numbers := CreateUnits(plan.id, PrefixFor(plan, asked), linked, quantity);
      LinkedGrows(old(units), plan.id, created);
      result := Ok(created);
    }

    /** Tries one number after another until enough units are created. */
    method CreateUnits(plan: nat, prefix: string, linked: nat, quantity: nat)
      returns (created: seq<string>, ghost numbers: seq<nat>)
      requires DistinctSerials(units)
      modifies this
      ensures |created| == quantity && created == SerialsOf(prefix, numbers)
      ensures FirstFree(old(Taken(units)), prefix, linked + 1, numbers)
      ensures units == old(units) + Rows(plan, created) && DistinctSerials(units)
    {
      created, numbers := [], [];
      var next: nat := linked + 1;
      ghost var ahead := |Ahead(Taken(units), prefix, next)|;
      while |created| < quantity
        invariant |created| <= quantity && ahead == |Ahead(Taken(old(units)), prefix, next)|
        invariant Searching(old(units), units, plan, prefix, linked + 1, created, numbers, next)
        decreases ahead + quantity - |created|
      {
        created, numbers, ahead := TryNumber(old(units), plan, prefix, linked + 1, created, numbers, next);
        next := next + 1;
      }
      FoundAreFirst(Taken(old(units)), prefix, linked + 1, next, numbers);
    }

    /** One turn of the search: step over a serial that exists, or create it. */
    method TryNumber(ghost before: seq<UnitRow>, plan: nat, prefix: string, ghost from: nat, created: seq<string>,
                     ghost numbers: seq<nat>, next: nat)
      returns (createdAfter: seq<string>, ghost numbersAfter: seq<nat>, ghost ahead: nat)
      requires Searching(before, units, plan, prefix, from, created, numbers, next)
      modifies this
      ensures Searching(before, units, plan, prefix, from, createdAfter, numbersAfter, next + 1)
      ensures ahead == |Ahead(Taken(before), prefix, next + 1)|
      ensures if |createdAfter| == |created| then ahead < |Ahead(Taken(before), prefix, next)|
              else |createdAfter| == |created| + 1 && ahead <= |Ahead(Taken(before), prefix, next)|
    {
      createdAfter, numbersAfter, ahead := created, numbers, |Ahead(Taken(before), prefix, next + 1)|;
      var serial := Serial(prefix, next);
      OneTurn(before, plan, prefix, from, numbers, next);
      if !Occurs(units, serial) {
        units := units + [UnitRow(serial, Some(plan))];
        createdAfter, numbersAfter := created + [serial], numbers + [next];
      }
    }
  }
}
