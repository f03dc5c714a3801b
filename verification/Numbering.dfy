/**
 Document numbers under an advisory lock: transactions interleave statement by statement, each reading
 the rows committed so far and its own, and every code of a year is issued exactly once, in order.
 */
module Numbering {
  import opened Wrappers
  import opened Lexical

  const WIDTH: nat := 6

  /** The last number six digits can hold; one more is issued, and sorts before it. */
  const LAST_PADDED: nat := 999999

  function Prefix(year: nat): string {
    "DOC-" + Digits(year) + "-"
  }

  function Code(year: nat, n: nat): string {
    Prefix(year) + Padded(n, WIDTH)
  }

  predicate OfYear(row: string, year: nat) {
    Prefix(year) <= row
  }

  /** The number at the end of a code. */
  function Parse(row: string): nat {
    var last := AfterLast(row, '-');
    if AllDigits(last) then Value(last) else 0
  }

  /** A code is DOC, the year and the number, joined by dashes; up to the last padded number the number has six digits. */
  lemma CodeShape(year: nat, n: nat)
    ensures var head := "DOC-" + Digits(year) + "-";
            && head <= Code(year, n) && AllDigits(Code(year, n)[|head|..]) && Value(Code(year, n)[|head|..]) == n
            && |Code(year, n)| >= |head| + 6 && (n <= LAST_PADDED ==> |Code(year, n)| == |head| + 6)
  {
    var head := "DOC-" + Digits(year) + "-";
    assert Code(year, n)[|head|..] == Padded(n, WIDTH);
    ValueOfPadded(n, WIDTH);
    if n <= LAST_PADDED {
      assert LAST_PADDED + 1 == Pow10(WIDTH);
      PaddedFits(n, WIDTH);
    }
  }

  lemma ParseOfCode(year: nat, n: nat)
    ensures Parse(Code(year, n)) == n && OfYear(Code(year, n), year)
  {
    var head := "DOC-" + Digits(year);
    AfterLastOfJoin(head, '-', Padded(n, WIDTH));
    assert Code(year, n) == head + ['-'] + Padded(n, WIDTH);
    ValueOfPadded(n, WIDTH);
  }

  /** A code belongs to one year only. */
  lemma YearOfCode(year: nat, n: nat, other: nat)
    ensures OfYear(Code(year, n), other) <==> year == other
  {
    ParseOfCode(year, n);
    var code := Code(year, n);
    if OfYear(code, other) {
      var a, b := Digits(year), Digits(other);
      assert code[4..] == a + ['-'] + Padded(n, WIDTH);
      assert code[4..] == b + ['-'] + code[|Prefix(other)|..] by {
        assert code == Prefix(other) + code[|Prefix(other)|..];
        assert Prefix(other)[4..] == b + ['-'];
      }
      BeforeFirstOfJoin(a, '-', Padded(n, WIDTH));
      BeforeFirstOfJoin(b, '-', code[|Prefix(other)|..]);
      ValueOfDigits(year);
      ValueOfDigits(other);
    }
  }

  /** Up to the last padded number, codes of a year sort by number; the next one sorts before that last one. */
  lemma CodesSortByNumber(year: nat, m: nat, n: nat)
    requires m <= LAST_PADDED && n <= LAST_PADDED
    ensures Less(Code(year, m), Code(year, n)) <==> m < n
  {
    assert LAST_PADDED + 1 == Pow10(WIDTH);
    PaddedFits(m, WIDTH);
    PaddedFits(n, WIDTH);
    ValueOfPadded(m, WIDTH);
    ValueOfPadded(n, WIDTH);
    SameLengthSortsNumerically(Padded(m, WIDTH), Padded(n, WIDTH));
    LessUnderPrefix(Prefix(year), Padded(m, WIDTH), Padded(n, WIDTH));
  }

  lemma OverflowSortsLow(year: nat)
    ensures Less(Code(year, LAST_PADDED + 1), Code(year, LAST_PADDED))
  {
    assert Digits(1000) == "1000" by { assert Digits(100) == "100"; }
    assert Digits(999) == "999" by { assert Digits(99) == "99"; }
    assert Digits(100000) == "100000" by { assert Digits(10000) == "10000"; }
    assert Digits(1000000) == "1000000";
    assert Digits(99999) == "99999" by { assert Digits(9999) == "9999"; }
    assert Digits(999999) == "999999";
    LessUnderPrefix(Prefix(year), "1000000", "999999");
  }

  // ----- Reading the last code -----

  /** The year's greatest code in descending text order, among the rows a statement sees. */
  function LastCode(rows: seq<string>, year: nat): Option<string> {
    if rows == [] then None
    else
      var row := rows[|rows| - 1];
      var earlier := LastCode(rows[..|rows| - 1], year);
      if OfYear(row, year) && (earlier.None? || Less(earlier.value, row)) then Some(row) else earlier
  }

  function NextCode(rows: seq<string>, year: nat): string {
    var last := LastCode(rows, year);
    Code(year, if last.None? then 1 else Parse(last.value) + 1)
  }

  /** The numbers of the year's rows, in row order. */
  function Numbers(rows: seq<string>, year: nat): seq<nat> {
    if rows == [] then []
    else
      var row := rows[|rows| - 1];
      Numbers(rows[..|rows| - 1], year) + if OfYear(row, year) then [Parse(row)] else []
  }

  function CountUp(first: nat, count: nat): (s: seq<nat>)
    ensures |s| == count && forall i | 0 <= i < count :: s[i] == first + i
  {
    seq(count, i => first + i)
  }

  lemma {:induction false} NumbersConcat(a: seq<string>, b: seq<string>, year: nat)
    ensures Numbers(a + b, year) == Numbers(a, year) + Numbers(b, year)
  {
    if b == [] {
      assert a + b == a;
    } else {
      var init, row := b[..|b| - 1], b[|b| - 1];
      NumbersConcat(a, init, year);
      assert (a + b)[..|a + b| - 1] == a + init && (a + b)[|a + b| - 1] == row;
    }
  }

  ghost predicate WellFormed(rows: seq<string>) {
    forall i, year: nat | 0 <= i < |rows| && OfYear(rows[i], year) :: rows[i] == Code(year, Parse(rows[i]))
  }

  /** Where the numbering continues: after 1..n, at n + 1, until the order by text can no longer see the end. */
  lemma {:induction false} LastCodeOfCount(rows: seq<string>, year: nat, n: nat)
    requires WellFormed(rows) && Numbers(rows, year) == CountUp(1, n) && n <= LAST_PADDED + 1
    ensures LastCode(rows, year)
            == if n == 0 then None else Some(Code(year, if n > LAST_PADDED then LAST_PADDED else n))
  {
    if rows != [] {
      var init, row := rows[..|rows| - 1], rows[|rows| - 1];
      assert forall i | 0 <= i < |init| :: init[i] == rows[i];
      if OfYear(row, year) {
        assert Numbers(init, year) == CountUp(1, n)[..n - 1] == CountUp(1, n - 1);
        LastCodeOfCount(init, year, n - 1);
        assert Parse(row) == CountUp(1, n)[n - 1] == n;
        if n > LAST_PADDED {
          OverflowSortsLow(year);
          LessIsAsymmetric(Code(year, LAST_PADDED + 1), Code(year, LAST_PADDED));
        } else if n > 1 {
          CodesSortByNumber(year, n - 1, n);
        }
      } else {
        LastCodeOfCount(init, year, n);
      }
    }
  }

  function Following(n: nat): nat {
    if n > LAST_PADDED then LAST_PADDED + 1 else n + 1
  }

  lemma NextCodeOfCount(rows: seq<string>, year: nat, n: nat)
    requires WellFormed(rows) && Numbers(rows, year) == CountUp(1, n) && n <= LAST_PADDED + 1
    ensures NextCode(rows, year) == Code(year, Following(n))
  {
    LastCodeOfCount(rows, year, n);
    if n > 0 { ParseOfCode(year, if n > LAST_PADDED then LAST_PADDED else n); }
  }

  // ----- Interleaved transactions -----

  datatype Phase = Ready | Locked(year: nat) | Numbered(year: nat, code: string) | Broken

  datatype Txn = Txn(phase: Phase, pending: seq<string>)

  /** Committed rows, open transactions, and which transaction holds each year's lock. */
  datatype Registry = Registry(committed: seq<string>, open: map<nat, Txn>, holder: map<nat, nat>)

  const EMPTY := Registry([], map[], map[])

  datatype Action =
    | Begin(t: nat)
    | Lock(t: nat, year: nat)
    | Read(t: nat)
    | Insert(t: nat)
    | Commit(t: nat)
    | Abort(t: nat)

  /** A unique column refuses a value that is committed or that an open transaction has inserted. */
  predicate Taken(r: Registry, code: string) {
    code in r.committed || exists t | t in r.open :: code in r.open[t].pending
  }

  function Release(holder: map<nat, nat>, t: nat): map<nat, nat> {
    map year | year in holder && holder[year] != t :: holder[year]
  }

  /** One statement of one transaction; a statement that cannot run now leaves everything as it was. */
  function Next(r: Registry, a: Action): Registry {
    if a.Begin? then
      if a.t in r.open then r else r.(open := r.open[a.t := Txn(Ready, [])])
    else if a.t !in r.open then r
    else
      var txn := r.open[a.t];
      match a
      case Lock(t, year) =>
        if txn.phase.Ready? && (year in r.holder ==> r.holder[year] == t) then
          r.(holder := r.holder[year := t], open := r.open[t := txn.(phase := Locked(year))])
        else r
      case Read(t) =>
        if txn.phase.Locked? then
          var year := txn.phase.year;
          r.(open := r.open[t := txn.(phase := Numbered(year, NextCode(r.committed + txn.pending, year)))])
        else r
      case Insert(t) =>
        if txn.phase.Numbered? then
          if Taken(r, txn.phase.code) then r.(open := r.open[t := txn.(phase := Broken)])
          else r.(open := r.open[t := Txn(Ready, txn.pending + [txn.phase.code])])
        else r
      case Commit(t) =>
        if txn.phase.Ready? then Registry(r.committed + txn.pending, r.open - {t}, Release(r.holder, t)) else r
      case Abort(t) => Registry(r.committed, r.open - {t}, Release(r.holder, t))
  }

  function Interleave(r: Registry, actions: seq<Action>): Registry
    decreases |actions|
  {
    if actions == [] then r else Interleave(Next(r, actions[0]), actions[1..])
  }

  // ----- The invariant -----

  ghost predicate Holds(r: Registry, t: nat, year: nat) {
    year in r.holder && r.holder[year] == t
  }

  function Visible(r: Registry, t: nat): seq<string>
    requires t in r.open
  {
    r.committed + r.open[t].pending
  }

  ghost predicate RowsWellFormed(r: Registry) {
    WellFormed(r.committed) && forall t | t in r.open :: WellFormed(r.open[t].pending)
  }

  /** The year's committed numbers count up from one. */
  ghost predicate CommittedCount(committed: seq<string>, year: nat) {
    var n := |Numbers(committed, year)|;
    n <= LAST_PADDED + 1 && Numbers(committed, year) == CountUp(1, n)
  }

  /** What transaction t sees of the year: the holder's rows go on where the committed ones end, others add none. */
  ghost predicate PendingCount(r: Registry, t: nat, year: nat)
    requires t in r.open
  {
    var n := |Numbers(Visible(r, t), year)|;
    if Holds(r, t, year) then n <= LAST_PADDED + 1 && Numbers(Visible(r, t), year) == CountUp(1, n)
    else Numbers(r.open[t].pending, year) == []
  }

  ghost predicate PhaseFits(r: Registry, t: nat)
    requires t in r.open
  {
    match r.open[t].phase
    case Locked(year) => Holds(r, t, year)
    case Numbered(year, code) => Holds(r, t, year) && code == Code(year, Following(|Numbers(Visible(r, t), year)|))
    case _ => true
  }

  ghost predicate Consistent(r: Registry) {
    && RowsWellFormed(r)
    && (forall year: nat :: CommittedCount(r.committed, year))
    && (forall t, year: nat | t in r.open :: PendingCount(r, t, year))
    && (forall t | t in r.open :: PhaseFits(r, t))
    && (forall year | year in r.holder :: r.holder[year] in r.open)
  }

  lemma WellFormedConcat(a: seq<string>, b: seq<string>)
    requires WellFormed(a) && WellFormed(b)
    ensures WellFormed(a + b)
  {
  }

  lemma OneMoreCode(rows: seq<string>, year: nat, n: nat, other: nat)
    requires WellFormed(rows)
    ensures WellFormed(rows + [Code(year, n)])
    ensures Numbers(rows + [Code(year, n)], other) == Numbers(rows, other) + if year == other then [n] else []
  {
    forall y: nat
      ensures OfYear(Code(year, n), y) ==> Code(year, n) == Code(y, Parse(Code(year, n)))
    {
      YearOfCode(year, n, y);
      ParseOfCode(year, n);
    }
    YearOfCode(year, n, other);
    ParseOfCode(year, n);
    NumbersConcat(rows, [Code(year, n)], other);
    assert [Code(year, n)][..0] == [];
  }

  /** The numbers of a year are those of its rows. */
  lemma {:induction false} NumbersAreRows(rows: seq<string>, year: nat, n: nat)
    requires WellFormed(rows)
    ensures n in Numbers(rows, year) <==> Code(year, n) in rows
  {
    if rows != [] {
      var init, row := rows[..|rows| - 1], rows[|rows| - 1];
      assert forall i | 0 <= i < |init| :: init[i] == rows[i];
      NumbersAreRows(init, year, n);
      ParseOfCode(year, n);
      assert rows == init + [row];
      assert OfYear(row, year) ==> row == Code(year, Parse(row));
    }
  }

  /** While the counter is below its end, the code after the last one is free; at the end it is taken. */
  lemma NextCodeIsFree(r: Registry, t: nat, year: nat)
    requires Consistent(r) && t in r.open && Holds(r, t, year)
    ensures var n := |Numbers(Visible(r, t), year)|;
            Taken(r, Code(year, Following(n))) <==> n == LAST_PADDED + 1
  {
    var n := |Numbers(Visible(r, t), year)|;
    var m := Following(n);
    assert PendingCount(r, t, year);
    WellFormedConcat(r.committed, r.open[t].pending);
    NumbersAreRows(Visible(r, t), year, m);
    NumbersAreRows(r.committed, year, m);
    NumbersConcat(r.committed, r.open[t].pending, year);
    if n == LAST_PADDED + 1 {
      assert CountUp(1, n)[n - 1] == m;
    } else {
      assert m !in CountUp(1, n);
      forall other | other in r.open
        ensures Code(year, m) !in r.open[other].pending
      {
        assert PendingCount(r, other, year);
        NumbersAreRows(r.open[other].pending, year, m);
      }
    }
  }

  // ----- Preservation -----

  lemma ReadKeepsConsistent(r: Registry, t: nat)
    requires Consistent(r)
    ensures Consistent(Next(r, Read(t)))
  {
    if t in r.open && r.open[t].phase.Locked? {
      var year := r.open[t].phase.year;
      assert PendingCount(r, t, year) && PhaseFits(r, t);
      WellFormedConcat(r.committed, r.open[t].pending);
      NextCodeOfCount(Visible(r, t), year, |Numbers(Visible(r, t), year)|);
      SamePendingKeepsConsistent(r, Next(r, Read(t)), t);
    }
  }

  /** A change of phase alone keeps the counts. */
  lemma SamePendingKeepsConsistent(r: Registry, next: Registry, t: nat)
    requires Consistent(r) && t in r.open
    requires next.committed == r.committed && next.open.Keys == r.open.Keys
    requires forall u | u in r.open :: next.open[u].pending == r.open[u].pending
    requires forall u | u in r.open && u != t :: next.open[u] == r.open[u]
    requires forall year | year in r.holder :: year in next.holder && next.holder[year] == r.holder[year]
    requires forall year | year in next.holder && year !in r.holder :: next.holder[year] == t
    requires PhaseFits(next, t)
    ensures Consistent(next)
  {
    forall u, year: nat | u in next.open
      ensures PendingCount(next, u, year)
    {
      assert PendingCount(r, u, year) && CommittedCount(r.committed, year);
      NumbersConcat(r.committed, r.open[u].pending, year);
    }
    forall u | u in next.open
      ensures PhaseFits(next, u)
    {
      assert PhaseFits(r, u);
    }
  }

  lemma InsertKeepsConsistent(r: Registry, t: nat)
    requires Consistent(r)
    ensures Consistent(Next(r, Insert(t)))
  {
    if t in r.open && r.open[t].phase.Numbered? {
      var txn, next := r.open[t], Next(r, Insert(t));
      var year := txn.phase.year;
      assert PhaseFits(r, t) && PendingCount(r, t, year);
      NextCodeIsFree(r, t, year);
      if Taken(r, txn.phase.code) {
        SamePendingKeepsConsistent(r, next, t);
      } else {
        InsertedRowCounts(r, t, next);
      }
    }
  }

  /** The transaction's next code, written by the holder of the year. */
  ghost predicate InsertsNext(r: Registry, t: nat, next: Registry) {
    t in r.open && r.open[t].phase.Numbered? &&
    var year := r.open[t].phase.year;
    var n := |Numbers(Visible(r, t), year)|;
    && Holds(r, t, year) && n <= LAST_PADDED
    && next == r.(open := r.open[t := Txn(Ready, r.open[t].pending + [Code(year, n + 1)])])
  }

  lemma CountGoesOn(rows: seq<string>, year: nat, n: nat)
    requires WellFormed(rows) && Numbers(rows, year) == CountUp(1, n)
    ensures Numbers(rows + [Code(year, n + 1)], year) == CountUp(1, n + 1)
  {
    OneMoreCode(rows, year, n + 1, year);
    assert CountUp(1, n) + [n + 1] == CountUp(1, n + 1);
  }

  lemma InsertedRowIsCounted(r: Registry, t: nat, next: Registry, year: nat)
    requires Consistent(r) && InsertsNext(r, t, next)
    ensures PendingCount(next, t, year)
  {
    var mine, pending, rows := r.open[t].phase.year, r.open[t].pending, Visible(r, t);
    assert PendingCount(r, t, year) && PendingCount(r, t, mine);
    var n := |Numbers(rows, mine)|;
    assert Visible(next, t) == rows + [Code(mine, n + 1)];
    WellFormedConcat(r.committed, pending);
    if year == mine {
      CountGoesOn(rows, mine, n);
    } else {
      OneMoreCode(pending, mine, n + 1, year);
      OneMoreCode(rows, mine, n + 1, year);
    }
  }

  lemma InsertedRowCounts(r: Registry, t: nat, next: Registry)
    requires Consistent(r) && InsertsNext(r, t, next)
    ensures Consistent(next)
  {
    var mine := r.open[t].phase.year;
    OneMoreCode(r.open[t].pending, mine, |Numbers(Visible(r, t), mine)| + 1, mine);
    forall u, year: nat | u in next.open
      ensures PendingCount(next, u, year)
    {
      if u == t {
        InsertedRowIsCounted(r, t, next, year);
      } else {
        assert PendingCount(r, u, year);
      }
    }
    forall u | u in next.open
      ensures PhaseFits(next, u)
    {
      assert PhaseFits(r, u);
    }
  }

  lemma CommitKeepsConsistent(r: Registry, t: nat)
    requires Consistent(r) && t in r.open && r.open[t].phase.Ready?
    ensures Consistent(Next(r, Commit(t)))
  {
    var next, pending := Next(r, Commit(t)), r.open[t].pending;
    WellFormedConcat(r.committed, pending);
    forall year: nat
      ensures CommittedCount(next.committed, year)
    {
      assert CommittedCount(r.committed, year) && PendingCount(r, t, year);
      NumbersConcat(r.committed, pending, year);
    }
    forall u, year: nat | u in next.open
      ensures PendingCount(next, u, year)
      ensures Holds(next, u, year) ==> Numbers(Visible(next, u), year) == Numbers(Visible(r, u), year)
    {
      OthersSeeTheSame(r, t, u, year);
    }
    forall u | u in next.open
      ensures PhaseFits(next, u)
    {
      assert PhaseFits(r, u);
    }
  }

  lemma OthersSeeTheSame(r: Registry, t: nat, u: nat, year: nat)
    requires Consistent(r) && t in r.open && r.open[t].phase.Ready? && u in r.open && u != t
    ensures PendingCount(Next(r, Commit(t)), u, year)
    ensures Holds(Next(r, Commit(t)), u, year) <==> Holds(r, u, year)
    ensures Holds(r, u, year) ==> Numbers(Visible(Next(r, Commit(t)), u), year) == Numbers(Visible(r, u), year)
  {
    var next := Next(r, Commit(t));
    var pending, own := r.open[t].pending, r.open[u].pending;
    assert PendingCount(r, t, year) && PendingCount(r, u, year);
    if Holds(r, u, year) {
      assert Numbers(pending, year) == [];
      NumbersConcat(r.committed, pending, year);
      NumbersConcat(r.committed, own, year);
      NumbersConcat(r.committed + pending, own, year);
      assert Visible(next, u) == r.committed + pending + own;
    }
  }

  lemma AbortKeepsConsistent(r: Registry, t: nat)
    requires Consistent(r)
    ensures Consistent(Next(r, Abort(t)))
  {
    var next := Next(r, Abort(t));
    forall u, year: nat | u in next.open
      ensures PendingCount(next, u, year)
    {
      assert PendingCount(r, u, year);
    }
    forall u | u in next.open
      ensures PhaseFits(next, u)
    {
      assert PhaseFits(r, u);
    }
  }

  lemma BeginKeepsConsistent(r: Registry, t: nat)
    requires Consistent(r)
    ensures Consistent(Next(r, Begin(t)))
  {
    var next := Next(r, Begin(t));
    if t !in r.open {
      forall u, year: nat | u in next.open
        ensures PendingCount(next, u, year)
      {
        assert u != t ==> PendingCount(r, u, year);
      }
      forall u | u in next.open
        ensures PhaseFits(next, u)
      {
        assert u != t ==> PhaseFits(r, u);
      }
    }
  }

  lemma StatementKeepsConsistent(r: Registry, a: Action)
    requires Consistent(r)
    ensures Consistent(Next(r, a))
  {
    match a
    case Begin(t) => BeginKeepsConsistent(r, t);
    case Lock(t, year) => if Next(r, a) != r { SamePendingKeepsConsistent(r, Next(r, a), t); }
    case Read(t) => ReadKeepsConsistent(r, t);
    case Insert(t) => InsertKeepsConsistent(r, t);
    case Commit(t) => if Next(r, a) != r { CommitKeepsConsistent(r, t); }
    case Abort(t) => AbortKeepsConsistent(r, t);
  }

  lemma {:induction false} InterleavingKeepsConsistent(r: Registry, actions: seq<Action>)
    requires Consistent(r)
    ensures Consistent(Interleave(r, actions))
    decreases |actions|
  {
    if actions != [] {
      StatementKeepsConsistent(r, actions[0]);
      InterleavingKeepsConsistent(Next(r, actions[0]), actions[1..]);
    }
  }

  // ----- Main results -----

  /** The codes of a year, in the order they were committed. */
  function CodesOf(rows: seq<string>, year: nat): seq<string> {
    if rows == [] then []
    else
      var row := rows[|rows| - 1];
      CodesOf(rows[..|rows| - 1], year) + if OfYear(row, year) then [row] else []
  }

  lemma {:induction false} CodesFromNumbers(rows: seq<string>, year: nat)
    requires WellFormed(rows)
    ensures |CodesOf(rows, year)| == |Numbers(rows, year)|
    ensures forall i | 0 <= i < |CodesOf(rows, year)| :: CodesOf(rows, year)[i] == Code(year, Numbers(rows, year)[i])
  {
    if rows != [] {
      var init := rows[..|rows| - 1];
      assert forall i | 0 <= i < |init| :: init[i] == rows[i];
      CodesFromNumbers(init, year);
    }
  }

  /** Under every interleaving, with aborts, the codes committed in a year are exactly 1..n in order, all distinct. */
  lemma CommittedCodesCountUp(actions: seq<Action>, year: nat)
    ensures var codes := CodesOf(Interleave(EMPTY, actions).committed, year);
            && |codes| <= LAST_PADDED + 1
            && (forall i | 0 <= i < |codes| :: codes[i] == Code(year, i + 1))
            && (forall i, j | 0 <= i < j < |codes| :: codes[i] != codes[j])
  {
    var r := Interleave(EMPTY, actions);
    InterleavingKeepsConsistent(EMPTY, actions);
    assert CommittedCount(r.committed, year);
    CodesFromNumbers(r.committed, year);
    var codes := CodesOf(r.committed, year);
    forall i, j | 0 <= i < j < |codes|
      ensures codes[i] != codes[j]
    {
      ParseOfCode(year, i + 1);
      ParseOfCode(year, j + 1);
    }
  }

  /** An emission that read its number meets the unique column exactly when the year has used all its codes. */
  lemma EmissionFailsExactlyWhenExhausted(actions: seq<Action>, t: nat)
    requires var r := Interleave(EMPTY, actions); t in r.open && r.open[t].phase.Numbered?
    ensures var r := Interleave(EMPTY, actions);
            Next(r, Insert(t)).open[t].phase.Broken?
            <==> |Numbers(Visible(r, t), r.open[t].phase.year)| == LAST_PADDED + 1
  {
    var r := Interleave(EMPTY, actions);
    InterleavingKeepsConsistent(EMPTY, actions);
    assert PhaseFits(r, t);
    NextCodeIsFree(r, t, r.open[t].phase.year);
  }

  /** A year that has used all its codes never gets another. */
  lemma ExhaustedYearStaysExhausted(actions: seq<Action>, more: seq<Action>, year: nat)
    requires |CodesOf(Interleave(EMPTY, actions).committed, year)| == LAST_PADDED + 1
    ensures |CodesOf(Interleave(Interleave(EMPTY, actions), more).committed, year)| == LAST_PADDED + 1
  {
    var r := Interleave(EMPTY, actions);
    InterleavingKeepsConsistent(EMPTY, actions);
    InterleavingKeepsConsistent(r, more);
    CommittedOnlyGrows(r, more, year);
    assert CommittedCount(Interleave(r, more).committed, year);
    CodesFromNumbers(Interleave(r, more).committed, year);
    CodesFromNumbers(r.committed, year);
  }

  lemma {:induction false} CommittedOnlyGrows(r: Registry, actions: seq<Action>, year: nat)
    ensures |Numbers(Interleave(r, actions).committed, year)| >= |Numbers(r.committed, year)|
    decreases |actions|
  {
    if actions != [] {
      var next := Next(r, actions[0]);
      if next.committed != r.committed {
        NumbersConcat(r.committed, r.open[actions[0].t].pending, year);
      }
      CommittedOnlyGrows(next, actions[1..], year);
    }
  }

  // ----- Every count is reached -----

  function Idle(rows: seq<string>): Registry {
    Registry(rows, map[], map[])
  }

  function Opened(rows: seq<string>, txn: Txn, holder: map<nat, nat>): Registry {
    Registry(rows, map[0 := txn], holder)
  }

  lemma FirstStatements(rows: seq<string>, year: nat)
    ensures var code := NextCode(rows, year);
            Next(Next(Next(Idle(rows), Begin(0)), Lock(0, year)), Read(0))
            == Opened(rows, Txn(Numbered(year, code), []), map[year := 0])
  {
    assert rows + [] == rows;
    assert Next(Idle(rows), Begin(0)) == Opened(rows, Txn(Ready, []), map[]);
    assert Next(Opened(rows, Txn(Ready, []), map[]), Lock(0, year)) == Opened(rows, Txn(Locked(year), []), map[year := 0]);
  }

  lemma LastStatements(rows: seq<string>, year: nat, code: string)
    requires code !in rows
    ensures Next(Next(Opened(rows, Txn(Numbered(year, code), []), map[year := 0]), Insert(0)), Commit(0))
            == Idle(rows + [code])
  {
    var numbered := Opened(rows, Txn(Numbered(year, code), []), map[year := 0]);
    assert !Taken(numbered, code);
    assert [] + [code] == [code];
    assert Next(numbered, Insert(0)) == Opened(rows, Txn(Ready, [code]), map[year := 0]);
    assert Release(map[year := 0], 0) == map[];
    assert map[0 := Txn(Ready, [code])] - {0} == map[];
  }

  lemma {:induction false} InterleaveAppend(r: Registry, actions: seq<Action>, more: seq<Action>)
    ensures Interleave(r, actions + more) == Interleave(Interleave(r, actions), more)
    decreases |actions|
  {
    if actions == [] {
      assert actions + more == more;
    } else {
      assert (actions + more)[1..] == actions[1..] + more;
      InterleaveAppend(Next(r, actions[0]), actions[1..], more);
    }
  }

  lemma TwoStatements(r: Registry, a: Action, b: Action)
    ensures Interleave(r, [a, b]) == Next(Next(r, a), b)
  {
    assert [a, b][1..] == [b] && [b][1..] == [];
    assert Interleave(Next(r, a), [b]) == Interleave(Next(Next(r, a), b), []);
  }

  lemma ThreeStatements(r: Registry, a: Action, b: Action, c: Action)
    ensures Interleave(r, [a, b, c]) == Next(Next(Next(r, a), b), c)
  {
    assert [a, b, c][1..] == [b, c];
    TwoStatements(Next(r, a), b, c);
  }

  /** The state in which an emission of the year has read its number. */
  lemma ReadingIsReached(actions: seq<Action>, rows: seq<string>, year: nat) returns (more: seq<Action>)
    requires Interleave(EMPTY, actions) == Idle(rows)
    ensures Interleave(EMPTY, more) == Opened(rows, Txn(Numbered(year, NextCode(rows, year)), []), map[year := 0])
  {
    var begun := [Begin(0), Lock(0, year), Read(0)];
    more := actions + begun;
    InterleaveAppend(EMPTY, actions, begun);
    ThreeStatements(Idle(rows), Begin(0), Lock(0, year), Read(0));
    FirstStatements(rows, year);
  }

  /** Every number of codes up to a million is reached in every year. */
  lemma {:induction false} EveryCountIsReached(year: nat, n: nat) returns (actions: seq<Action>, rows: seq<string>)
    requires n <= LAST_PADDED + 1
    ensures Interleave(EMPTY, actions) == Idle(rows) && |CodesOf(rows, year)| == n
    decreases n
  {
    if n == 0 {
      actions, rows := [], [];
    } else {
      var before, earlier := EveryCountIsReached(year, n - 1);
      var reading := ReadingIsReached(before, earlier, year);
      InterleavingKeepsConsistent(EMPTY, before);
      NextCodeIsNew(earlier, year, n - 1);
      var code := NextCode(earlier, year);
      actions, rows := reading + [Insert(0), Commit(0)], earlier + [code];
      InterleaveAppend(EMPTY, reading, [Insert(0), Commit(0)]);
      TwoStatements(Interleave(EMPTY, reading), Insert(0), Commit(0));
      LastStatements(earlier, year, code);
      YearOfCode(year, n, year);
      assert rows[..|earlier|] == earlier;
    }
  }

  lemma NextCodeIsNew(rows: seq<string>, year: nat, n: nat)
    requires Consistent(Idle(rows)) && |CodesOf(rows, year)| == n <= LAST_PADDED
    ensures NextCode(rows, year) == Code(year, n + 1) && NextCode(rows, year) !in rows
  {
    CodesFromNumbers(rows, year);
    assert CommittedCount(rows, year);
    NextCodeOfCount(rows, year, n);
    NumbersAreRows(rows, year, n + 1);
  }

  /** In every year, some emission is reached that fails for good. */
  lemma ExhaustionIsReached(year: nat)
    ensures exists actions :: var r := Interleave(EMPTY, actions);
              && |CodesOf(r.committed, year)| == LAST_PADDED + 1
              && 0 in r.open && r.open[0].phase.Numbered? && Next(r, Insert(0)).open[0].phase.Broken?
  {
    var actions, rows := EveryCountIsReached(year, LAST_PADDED + 1);
    var reading := ReadingIsReached(actions, rows, year);
    var r := Interleave(EMPTY, reading);
    EmissionFailsExactlyWhenExhausted(reading, 0);
    InterleavingKeepsConsistent(EMPTY, actions);
    CodesFromNumbers(rows, year);
    assert Visible(r, 0) == rows;
  }

  // ----- The service -----

  /** The registry's tables, as one emission updates them statement by statement. */
  class ReportRegistry {
    var committed: seq<string>
    var open: map<nat, Txn>
    var holder: map<nat, nat>

    function Contents(): Registry
      reads this
    {
      Registry(committed, open, holder)
    }

    constructor ()
      ensures Contents() == EMPTY
    {
      committed, open, holder := [], map[], map[];
    }

    /** Takes the year's lock, reads the last code, computes the next and inserts it; `None` when it must wait or fails. */
    method RegisterEmission(t: nat, year: nat) returns (code: Option<string>)
      requires t in open && open[t].phase.Ready?
      modifies this
      ensures year in old(holder) && old(holder)[year] != t ==> code.None? && Contents() == old(Contents())
      ensures !(year in old(holder) && old(holder)[year] != t) ==>
                Contents() == Next(Next(Next(old(Contents()), Lock(t, year)), Read(t)), Insert(t))
      ensures code.Some? ==> t in open && open[t] == Txn(Ready, old(open)[t].pending + [code.value])
    {
      if year in holder && holder[year] != t { return None; }
      var txn := open[t];
      holder := holder[year := t];
      open := open[t := txn.(phase := Locked(year))];
      var last := LastCode(committed + txn.pending, year);
      var seqNumber := if last.Some? then Parse(last.value) + 1 else 1;
      var docCode := Prefix(year) + Padded(seqNumber, WIDTH);
      open := open[t := txn.(phase := Numbered(year, docCode))];
      assert Contents() == Next(Next(old(Contents()), Lock(t, year)), Read(t));
      if Taken(Contents(), docCode) {
        open := open[t := txn.(phase := Broken)];
        code := None;
      } else {
        open := open[t := Txn(Ready, txn.pending + [docCode])];
        code := Some(docCode);
      }
    }
  }
}
