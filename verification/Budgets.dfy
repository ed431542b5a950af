/** What a budget came to over its periods (`finance/budget.py`): its history, bucketed by
    bisection, and the amount each period is measured against. */
module Budgets {
  import opened Gregorian
  import opened Periods

  datatype Kind = Income | Spending

  datatype Flow = Flow(day: Day, kind: Kind, value: int)

  datatype Totals = Totals(income: int, spent: int) {
    function Of(kind: Kind): int {
      if kind.Income? then income else spent
    }
    function Plus(flow: Flow): (r: Totals)
      ensures r.Of(flow.kind) == Of(flow.kind) + flow.value
      ensures forall kind: Kind :: kind != flow.kind ==> r.Of(kind) == Of(kind)
    {
      if flow.kind.Income? then Totals(income + flow.value, spent) else Totals(income, spent + flow.value)
    }
  }

  /** What the flows of a kind that satisfy `counts` add up to. */
  function Sum(flows: seq<Flow>, kind: Kind, counts: Day -> bool): int {
    if flows == [] then 0
    else
      var n := |flows| - 1;
      Sum(flows[..n], kind, counts) + if flows[n].kind == kind && counts(flows[n].day) then flows[n].value else 0
  }

  /** Where bisecting a sorted list to the right of `day` ends: behind the last one that isn't after it. */
  function BisectRight(days: seq<Day>, day: Day): (index: nat)
    ensures index <= |days|
    ensures index > 0 ==> AtMost(days[index - 1], day)
    ensures forall i :: index <= i < |days| ==> !AtMost(days[i], day)
  {
    if days == [] then 0
    else if AtMost(days[|days| - 1], day) then |days|
    else BisectRight(days[..|days| - 1], day)
  }

  /** The flows from `first` to `last`, as the query selects them. */
  function Between(flows: seq<Flow>, first: Day, last: Day): (r: seq<Flow>)
    ensures forall f :: f in r ==> AtMost(first, f.day) && AtMost(f.day, last)
  {
    if flows == [] then []
    else
      var n := |flows| - 1;
      Between(flows[..n], first, last)
      + if AtMost(first, flows[n].day) && AtMost(flows[n].day, last) then [flows[n]] else []
  }

  // ---- Consecutive periods, as bisected ----

  /** In a run of consecutive periods, the latest start not after a day is its period's. */
  lemma BisectionFindsThePeriod(period: BudgetPeriod, anchor: Day, starts: seq<Day>, day: Day)
    requires Consecutive(period, anchor, starts) && starts != []
    requires AtMost(starts[0], day) && AtMost(day, PeriodEnd(period, anchor, starts[|starts| - 1]))
    ensures var i := BisectRight(starts, day) - 1;
      0 <= i < |starts| && starts[i] == PeriodStart(period, anchor, day)
  {
    hide PeriodStart, NextStart, MonthStart, LengthAt, AtMost, Before;
    var i := BisectRight(starts, day) - 1;
    OrderIsOrdinal(starts[i], day);
    var k := StartOfDay(period, anchor, starts[i]);
    Neighbours(period, anchor, k);
    var next := NextStart(period, anchor, starts[i]);
    OrderIsOrdinal(day, PeriodEnd(period, anchor, starts[|starts| - 1]));
    if i + 1 < |starts| {
      assert starts[i + 1] == next;
      OrderIsOrdinal(starts[i + 1], day);
    }
    SameStart(period, anchor, day, k);
  }

  /** Whether a day falls in the period that starts on `start`. */
  function InPeriod(period: BudgetPeriod, anchor: Day, start: Day): Day -> bool {
    (day: Day) => PeriodStart(period, anchor, day) == start
  }

  lemma StartsAreStarts(period: BudgetPeriod, anchor: Day, day: Day)
    ensures var start := PeriodStart(period, anchor, day); PeriodStart(period, anchor, start) == start
  {
    hide PeriodStart;
    var k := StartOfDay(period, anchor, day);
    Neighbours(period, anchor, k);
  }

  lemma DayOfPeriod(period: BudgetPeriod, anchor: Day, day: Day)
    ensures var start := PeriodStart(period, anchor, day);
      Ordinal(start) <= Ordinal(day) < Ordinal(NextStart(period, anchor, start))
  {
    hide PeriodStart, NextStart, MonthStart, LengthAt;
    var k := StartOfDay(period, anchor, day);
    Neighbours(period, anchor, k);
  }

  /** Later periods of a run start after earlier ones. */
  lemma {:induction false} RunIncreases(period: BudgetPeriod, anchor: Day, starts: seq<Day>, i: nat, j: nat)
    requires Consecutive(period, anchor, starts) && i < j < |starts|
    ensures Ordinal(NextStart(period, anchor, starts[i])) <= Ordinal(starts[j])
    ensures Ordinal(starts[i]) < Ordinal(starts[j])
    decreases j
  {
    hide PeriodStart, NextStart, MonthStart, LengthAt, Ordinal;
    DayOfPeriod(period, anchor, starts[j - 1]);
    if i < j - 1 {
      RunIncreases(period, anchor, starts, i, j - 1);
    }
  }

  /** A day in one of a run's periods is among the days of the run. */
  lemma DayOfRun(period: BudgetPeriod, anchor: Day, starts: seq<Day>, day: Day)
    requires Consecutive(period, anchor, starts) && PeriodStart(period, anchor, day) in starts
    ensures AtMost(starts[0], day) && AtMost(day, PeriodEnd(period, anchor, starts[|starts| - 1]))
  {
    hide PeriodStart, NextStart, MonthStart, LengthAt, AtMost, Before;
    var i :| 0 <= i < |starts| && starts[i] == PeriodStart(period, anchor, day);
    var last := |starts| - 1;
    DayOfPeriod(period, anchor, day);
    if 0 < i { RunIncreases(period, anchor, starts, 0, i); }
    if i < last { RunIncreases(period, anchor, starts, i, last); DayOfPeriod(period, anchor, starts[last]); }
    OrderIsOrdinal(starts[0], day);
    OrderIsOrdinal(day, PeriodEnd(period, anchor, starts[last]));
  }

  /** Leaving out flows that don't count changes no sum. */
  lemma {:induction false} SumBetween(flows: seq<Flow>, kind: Kind, counts: Day -> bool, first: Day, last: Day)
    requires forall day: Day :: counts(day) ==> AtMost(first, day) && AtMost(day, last)
    ensures Sum(Between(flows, first, last), kind, counts) == Sum(flows, kind, counts)
  {
    hide AtMost;
    if flows != [] {
      var n := |flows| - 1;
      SumBetween(flows[..n], kind, counts, first, last);
      var before := Between(flows[..n], first, last);
      assert (before + [flows[n]])[..|before|] == before;
      assert before + [] == before;
    }
  }

  /** One more flow goes to its own period's totals and to no other's. */
  lemma SumOneMore(flows: seq<Flow>, n: nat, kind: Kind, counts: Day -> bool)
    requires n < |flows|
    ensures Sum(flows[..n + 1], kind, counts)
      == Sum(flows[..n], kind, counts) + if flows[n].kind == kind && counts(flows[n].day) then flows[n].value else 0
  {
    assert flows[..n + 1][..n] == flows[..n];
  }

  lemma NothingYet(period: BudgetPeriod, anchor: Day, starts: seq<Day>)
    ensures forall s, kind: Kind :: s in starts ==> Totals(0, 0).Of(kind) == Sum([], kind, InPeriod(period, anchor, s))
  {
  }

  /** The source's loop: the totals of each period of a run, for flows of the run's days. */
  lemma OneMoreFlow(period: BudgetPeriod, anchor: Day, starts: seq<Day>, flows: seq<Flow>, n: nat,
        totals: map<Day, Totals>, start: Day)
    requires n < |flows| && start in starts && totals.Keys == set s | s in starts
    requires forall s, kind: Kind :: s in starts ==>
        totals[s].Of(kind) == Sum(flows[..n], kind, InPeriod(period, anchor, s))
    requires forall s :: s in starts ==> (InPeriod(period, anchor, s)(flows[n].day) <==> s == start)
    ensures var after := totals[start := totals[start].Plus(flows[n])];
      forall s, kind: Kind :: s in starts ==>
        after[s].Of(kind) == Sum(flows[..n + 1], kind, InPeriod(period, anchor, s))
  {
    hide Sum, InPeriod;
    forall s, kind: Kind | s in starts {
      SumOneMore(flows, n, kind, InPeriod(period, anchor, s));
    }
  }

  method Bucketed(period: BudgetPeriod, anchor: Day, starts: seq<Day>, flows: seq<Flow>)
        returns (totals: map<Day, Totals>)
    requires Consecutive(period, anchor, starts) && starts != []
    requires forall f :: f in flows ==>
        AtMost(starts[0], f.day) && AtMost(f.day, PeriodEnd(period, anchor, starts[|starts| - 1]))
    ensures totals.Keys == set s | s in starts
    ensures forall s, kind: Kind :: s in starts ==> totals[s].Of(kind) == Sum(flows, kind, InPeriod(period, anchor, s))
  {
    hide PeriodStart, NextStart, MonthStart, LengthAt, AtMost, Before, Consecutive, PeriodEnd, Sum, BisectRight;
    hide Totals.Of, Totals.Plus;
    totals := map s | s in starts :: Totals(0, 0);
    NothingYet(period, anchor, starts);
    for n := 0 to |flows|
      invariant totals.Keys == set s | s in starts
      invariant forall s, kind: Kind :: s in starts ==>
          totals[s].Of(kind) == Sum(flows[..n], kind, InPeriod(period, anchor, s))
    {
      var flow := flows[n];
      BisectionFindsThePeriod(period, anchor, starts, flow.day);
      var start := starts[BisectRight(starts, flow.day) - 1];
      OneMoreFlow(period, anchor, starts, flows, n, totals, start);
      totals := totals[start := totals[start].Plus(flow)];
    }
    assert flows[..|flows|] == flows;
  }

  method TotalsBack(period: BudgetPeriod, anchor: Day, on: Day, count: int, counted: seq<Flow>)
    returns (starts: seq<Day>, totals: map<Day, Totals>)
    ensures Consecutive(period, anchor, starts)
    ensures |starts| == if count <= 1 then 1 else if count < MAX_PERIODS then count else MAX_PERIODS
    ensures starts[|starts| - 1] == PeriodStart(period, anchor, on)
    ensures totals.Keys == set s | s in starts
    // Of all the flows there are, each period has exactly those of its own days.
    ensures forall s, kind: Kind :: s in starts ==>
        totals[s].Of(kind) == Sum(counted, kind, InPeriod(period, anchor, s))
  {
    hide PeriodStart, NextStart, MonthStart, LengthAt, AtMost, Before, Consecutive, PeriodEnd;
    StartsAreStarts(period, anchor, on);
    starts := StartsBack(period, anchor, PeriodStart(period, anchor, on), count);
    var first, last := starts[0], PeriodEnd(period, anchor, starts[|starts| - 1]);
    var flows := Between(counted, first, last);
    totals := Bucketed(period, anchor, starts, flows);
    forall s, kind: Kind | s in starts
      ensures Sum(flows, kind, InPeriod(period, anchor, s)) == Sum(counted, kind, InPeriod(period, anchor, s))
    {
      forall day: Day | InPeriod(period, anchor, s)(day)
        ensures AtMost(first, day) && AtMost(day, last)
      {
        DayOfRun(period, anchor, starts, day);
      }
      SumBetween(counted, kind, InPeriod(period, anchor, s), first, last);
    }
  }

  /** What the first `n` of some periods come to together. */
  function SumOfPeriods(period: BudgetPeriod, anchor: Day, starts: seq<Day>, flows: seq<Flow>, kind: Kind): int {
    if starts == [] then 0
    else
      var n := |starts| - 1;
      SumOfPeriods(period, anchor, starts[..n], flows, kind) + Sum(flows, kind, InPeriod(period, anchor, starts[n]))
  }

  lemma {:induction false} SumSame(flows: seq<Flow>, kind: Kind, a: Day -> bool, b: Day -> bool)
    requires forall f :: f in flows ==> a(f.day) == b(f.day)
    ensures Sum(flows, kind, a) == Sum(flows, kind, b)
  {
    if flows != [] {
      SumSame(flows[..|flows| - 1], kind, a, b);
    }
  }

  lemma {:induction false} SumNone(flows: seq<Flow>, kind: Kind, counts: Day -> bool)
    requires forall f :: f in flows ==> !counts(f.day)
    ensures Sum(flows, kind, counts) == 0
  {
    if flows != [] {
      SumNone(flows[..|flows| - 1], kind, counts);
    }
  }

  lemma {:induction false} SumSplits(flows: seq<Flow>, kind: Kind, a: Day -> bool, b: Day -> bool, both: Day -> bool)
    requires forall f :: f in flows ==> both(f.day) == (a(f.day) || b(f.day)) && !(a(f.day) && b(f.day))
    ensures Sum(flows, kind, both) == Sum(flows, kind, a) + Sum(flows, kind, b)
  {
    if flows != [] {
      SumSplits(flows[..|flows| - 1], kind, a, b, both);
    }
  }

  lemma RunHasNoRepeats(period: BudgetPeriod, anchor: Day, starts: seq<Day>)
    requires Consecutive(period, anchor, starts) && starts != []
    ensures Consecutive(period, anchor, starts[..|starts| - 1])
    ensures starts[|starts| - 1] !in starts[..|starts| - 1]
  {
    hide PeriodStart, NextStart, MonthStart, LengthAt;
    var n := |starts| - 1;
    forall i | 0 <= i < n
      ensures starts[i] != starts[n]
    {
      RunIncreases(period, anchor, starts, i, n);
    }
  }

  lemma {:induction false} PeriodsAddUp(period: BudgetPeriod, anchor: Day, starts: seq<Day>, flows: seq<Flow>,
        kind: Kind)
    requires Consecutive(period, anchor, starts)
    ensures SumOfPeriods(period, anchor, starts, flows, kind)
      == Sum(flows, kind, (day: Day) => PeriodStart(period, anchor, day) in starts)
    decreases |starts|
  {
    hide PeriodStart, NextStart, Sum, MonthStart, LengthAt;
    var within := (day: Day) => PeriodStart(period, anchor, day) in starts;
    if starts == [] {
      SumNone(flows, kind, within);
    } else {
      var n := |starts| - 1;
      var earlier := starts[..n];
      RunHasNoRepeats(period, anchor, starts);
      PeriodsAddUp(period, anchor, earlier, flows, kind);
      assert starts == earlier + [starts[n]];
      SumSplits(flows, kind, (day: Day) => PeriodStart(period, anchor, day) in earlier, InPeriod(period, anchor,
        starts[n]), within);
    }
  }

  /** No flow of the run's days is lost or counted twice: the periods add up to all of them. */
  lemma HistoryConserves(period: BudgetPeriod, anchor: Day, starts: seq<Day>, flows: seq<Flow>, kind: Kind)
    requires Consecutive(period, anchor, starts) && starts != []
    ensures SumOfPeriods(period, anchor, starts, flows, kind)
      == Sum(Between(flows, starts[0], PeriodEnd(period, anchor, starts[|starts| - 1])), kind, day => true)
  {
    hide PeriodStart, NextStart, MonthStart, LengthAt, AtMost, Before, PeriodEnd;
    var first, last := starts[0], PeriodEnd(period, anchor, starts[|starts| - 1]);
    var within := (day: Day) => PeriodStart(period, anchor, day) in starts;
    PeriodsAddUp(period, anchor, starts, flows, kind);
    forall day: Day | within(day)
      ensures AtMost(first, day) && AtMost(day, last)
    {
      DayOfRun(period, anchor, starts, day);
    }
    SumBetween(flows, kind, within, first, last);
    forall f | f in Between(flows, first, last)
      ensures within(f.day)
    {
      BisectionFindsThePeriod(period, anchor, starts, f.day);
    }
    SumSame(Between(flows, first, last), kind, within, day => true);
  }

  // ---- What a period is measured against ----

  datatype Amount = Amount(startsOn: Day, amount: int)

  /** A budget's amounts as they load: in order, one for each start. */
  ghost predicate InOrder(rows: seq<Amount>) {
    forall i, j :: 0 <= i < j < |rows| ==> Before(rows[i].startsOn, rows[j].startsOn)
  }

  /** The row a period starting on `start` goes by: the latest to start by then, or the first. */
  ghost predicate GoesBy(rows: seq<Amount>, start: Day, i: nat) {
    && i < |rows|
    && (i == 0 || AtMost(rows[i].startsOn, start))
    && forall j :: i < j < |rows| ==> Before(start, rows[j].startsOn)
  }

  function RowFor(rows: seq<Amount>, start: Day): (i: nat)
    requires InOrder(rows) && rows != []
    ensures GoesBy(rows, start, i)
  {
    var n := |rows| - 1;
    OrderIsOrdinal(rows[n].startsOn, start);
    OrderIsOrdinal(start, rows[n].startsOn);
    if n == 0 || AtMost(rows[n].startsOn, start) then n
    else
      var i := RowFor(rows[..n], start);
      assert forall j :: i < j < n ==> rows[..n][j] == rows[j];
      i
  }

  function AmountFor(rows: seq<Amount>, start: Day): int
    requires InOrder(rows) && rows != []
  {
    rows[RowFor(rows, start)].amount
  }

  lemma OneRow(rows: seq<Amount>, start: Day, i: nat)
    requires InOrder(rows) && GoesBy(rows, start, i)
    ensures RowFor(rows, start) == i
  {
    hide MonthStart;
    var j := RowFor(rows, start);
    OrderIsOrdinal(rows[i].startsOn, start);
    OrderIsOrdinal(rows[j].startsOn, start);
    OrderIsOrdinal(start, rows[i].startsOn);
    OrderIsOrdinal(start, rows[j].startsOn);
  }

  method AmountAt(rows: seq<Amount>, start: Day) returns (amount: int)
    requires InOrder(rows) && rows != []
    ensures amount == AmountFor(rows, start)
    ensures
      exists i :: 0 <= i < |rows| && amount == rows[i].amount && (i == 0 || AtMost(rows[i].startsOn, start)) &&
        forall j :: i < j < |rows| ==> Before(start, rows[j].startsOn)
  {
    amount := rows[0].amount;
    ghost var i: nat := 0;
    for n := 0 to |rows|
      invariant i < |rows| && amount == rows[i].amount && (i == 0 || (i < n && AtMost(rows[i].startsOn, start)))
      invariant forall j :: i < j < n ==> Before(start, rows[j].startsOn)
    {
      OrderIsOrdinal(rows[n].startsOn, start);
      OrderIsOrdinal(start, rows[n].startsOn);
      if AtMost(rows[n].startsOn, start) {
        amount := rows[n].amount;
        i := n;
      }
    }
    OneRow(rows, start, i);
  }

  // ---- The history a person sees ----

  datatype HistoryPeriod = HistoryPeriod(start: Day, end: Day, amount: int, income: int, spent: int, current: bool)

  /** The days periods of a history start on. */
  function Starts(periods: seq<HistoryPeriod>): (r: seq<Day>)
    ensures |r| == |periods|
  {
    seq(|periods|, i requires 0 <= i < |periods| => periods[i].start)
  }

  /** What a period of the history says: its own last day, amount, and flows of its days only. */
  ghost predicate IsHistoryOf(p: HistoryPeriod, period: BudgetPeriod, anchor: Day, amounts: seq<Amount>, today: Day,
        counted: seq<Flow>)
    requires InOrder(amounts) && amounts != []
  {
    && p.end == PeriodEnd(period, anchor, p.start) && GoesBy(amounts, p.start, RowFor(amounts, p.start))
    && p.amount == AmountFor(amounts, p.start)
    && p.income == Sum(counted, Income, InPeriod(period, anchor, p.start))
    && p.spent == Sum(counted, Spending, InPeriod(period, anchor, p.start))
    && (p.current <==> InPeriod(period, anchor, p.start)(today))
  }

  method History(period: BudgetPeriod, anchor: Day, amounts: seq<Amount>, on: Day, today: Day, count: int,
        counted: seq<Flow>) returns (periods: seq<HistoryPeriod>)
    requires InOrder(amounts) && amounts != []
    ensures |periods| == if count <= 1 then 1 else if count < 60 then count else 60
    ensures Consecutive(period, anchor, Starts(periods))
    ensures periods[|periods| - 1].start == PeriodStart(period, anchor, on)
    ensures forall p :: p in periods ==> IsHistoryOf(p, period, anchor, amounts, today, counted)
  {
    hide PeriodStart, NextStart, MonthStart, LengthAt, AtMost, Before, Consecutive, PeriodEnd, Sum, InOrder, RowFor,
      GoesBy;
    var starts, totals := TotalsBack(period, anchor, on, count, counted);
    var now := PeriodStart(period, anchor, today);
    periods := [];
    for n := 0 to |starts|
      invariant Starts(periods) == starts[..n]
      invariant forall p :: p in periods ==> IsHistoryOf(p, period, anchor, amounts, today, counted)
    {
      var start := starts[n];
      var amount := AmountAt(amounts, start);
      var total := totals[start];
      periods := periods + [HistoryPeriod(
        start, PeriodEnd(period, anchor, start), amount, total.Of(Income), total.Of(Spending), start == now)];
    }
    assert starts[..|starts|] == starts;
  }

  /** The rows once a new amount applies from `start`: its row is changed, or added in order. */
  function WithAmount(rows: seq<Amount>, start: Day, amount: int): (r: seq<Amount>)
    ensures r != []
    ensures forall row :: row in r ==> row == Amount(start, amount) || row in rows
  {
    if rows == [] || Before(start, rows[0].startsOn) then [Amount(start, amount)] + rows
    else if rows[0].startsOn == start then [Amount(start, amount)] + rows[1..]
    else [rows[0]] + WithAmount(rows[1..], start, amount)
  }

  lemma {:induction false} WithAmountRows(rows: seq<Amount>, start: Day, amount: int) returns (n: nat)
    requires InOrder(rows)
    ensures var r := WithAmount(rows, start, amount);
      && InOrder(r)
      && n <= |rows| && n < |r| && r[n] == Amount(start, amount) && r[..n] == rows[..n]
      && (forall i :: 0 <= i < n ==> Before(rows[i].startsOn, start))
      && (forall i :: n <= i < |rows| ==> AtMost(start, rows[i].startsOn))
  {
    if rows == [] || Before(start, rows[0].startsOn) {
      n := 0;
      forall i | 0 <= i < |rows|
        ensures Before(start, rows[i].startsOn)
      {
      }
    } else if rows[0].startsOn == start {
      n := 0;
    } else {
      var m := WithAmountRows(rows[1..], start, amount);
      n := m + 1;
      OrderIsOrdinal(rows[0].startsOn, start);
      var rest := WithAmount(rows[1..], start, amount);
      assert rows[..n] == [rows[0]] + rows[1..][..m];
    }
  }

  lemma BeforeAllRows(rows: seq<Amount>, past: Day, start: Day)
    requires InOrder(rows) && rows != [] && Before(past, start) && AtMost(start, rows[0].startsOn)
    ensures AmountFor(rows, past) == rows[0].amount
  {
    hide MonthStart, RowFor;
    forall i | 0 <= i < |rows|
      ensures Before(past, rows[i].startsOn)
    {
      OrderIsOrdinal(past, start);
      OrderIsOrdinal(start, rows[0].startsOn);
      OrderIsOrdinal(rows[0].startsOn, rows[i].startsOn);
      OrderIsOrdinal(past, rows[i].startsOn);
    }
    OneRow(rows, past, 0);
  }

  lemma PastRowSame(rows: seq<Amount>, r: seq<Amount>, n: nat, past: Day, start: Day)
    requires InOrder(rows) && InOrder(r) && 0 < n <= |rows| && n < |r| && r[..n] == rows[..n]
    requires r[n].startsOn == start && Before(past, start)
    requires forall i :: n <= i < |rows| ==> AtMost(start, rows[i].startsOn)
    ensures AmountFor(r, past) == AmountFor(rows, past)
  {
    hide MonthStart, RowFor;
    var i := RowFor(rows, past);
    OrderIsOrdinal(past, start);
    if i >= n {
      OrderIsOrdinal(start, rows[i].startsOn);
      OrderIsOrdinal(rows[i].startsOn, past);
      assert false;
    }
    assert forall j :: 0 <= j < n ==> r[j] == r[..n][j] == rows[..n][j] == rows[j];
    forall j | i < j < |r|
      ensures Before(past, r[j].startsOn)
    {
      if j >= n {
        OrderIsOrdinal(start, r[j].startsOn);
        OrderIsOrdinal(past, r[j].startsOn);
      }
    }
    OneRow(r, past, i);
  }

  /** What follows the new row is what followed its day. */
  lemma {:induction false} WithAmountRest(rows: seq<Amount>, start: Day, amount: int, n: nat)
    requires n < |WithAmount(rows, start, amount)| && n <= |rows|
    requires forall i :: 0 <= i < n ==> Before(rows[i].startsOn, start)
    requires n < |rows| ==> AtMost(start, rows[n].startsOn)
    ensures WithAmount(rows, start, amount)[n + 1..] ==
      if n < |rows| && rows[n].startsOn == start then rows[n + 1..] else rows[n..]
  {
    if rows == [] || Before(start, rows[0].startsOn) || rows[0].startsOn == start {
      assert n == 0 by {
        if n > 0 { OrderIsOrdinal(rows[0].startsOn, start); OrderIsOrdinal(start, rows[0].startsOn); }
      }
    } else {
      OrderIsOrdinal(rows[0].startsOn, start);
      OrderIsOrdinal(start, rows[0].startsOn);
      WithAmountRest(rows[1..], start, amount, n - 1);
    }
  }

  lemma LaterRowSame(rows: seq<Amount>, r: seq<Amount>, skipped: nat, n: nat, day: Day)
    requires InOrder(rows) && InOrder(r) && n < |r| && skipped <= |rows| && r[n + 1..] == rows[skipped..]
    requires RowFor(r, day) > n
    ensures rows != [] && AmountFor(rows, day) == AmountFor(r, day)
    ensures var k := skipped + RowFor(r, day) - n - 1;
      k < |rows| && rows[k] == r[RowFor(r, day)]
  {
    hide MonthStart, RowFor;
    var i := RowFor(r, day);
    var k := skipped + i - n - 1;
    assert r[n + 1..][i - n - 1] == r[i];
    forall j | k < j < |rows|
      ensures Before(day, rows[j].startsOn)
    {
      assert r[n + 1..][j - skipped] == r[j - skipped + n + 1];
    }
    OneRow(rows, day, k);
  }

  /** From its day on, a new amount is what periods go by up to the next row there was after it, and
      from then on they go by what they did. */
  lemma NewAmountApplies(rows: seq<Amount>, start: Day, amount: int, day: Day)
    requires InOrder(rows) && AtMost(start, day)
    ensures InOrder(WithAmount(rows, start, amount))
    ensures var r := WithAmount(rows, start, amount);
      if exists row :: row in rows && Before(start, row.startsOn) && AtMost(row.startsOn, day)
      then rows != [] && AmountFor(r, day) == AmountFor(rows, day)
      else AmountFor(r, day) == amount
  {
    hide MonthStart, RowFor, WithAmount;
    var n := WithAmountRows(rows, start, amount);
    var r := WithAmount(rows, start, amount);
    WithAmountRest(rows, start, amount, n);
    var skipped := if n < |rows| && rows[n].startsOn == start then n + 1 else n;
    var i := RowFor(r, day);
    OrderIsOrdinal(start, day);
    OrderIsOrdinal(day, start);
    if i > n {
      LaterRowSame(rows, r, skipped, n, day);
      var k := skipped + i - n - 1;
      OrderIsOrdinal(start, rows[k].startsOn);
      assert rows[k] in rows;
    } else {
      forall row | row in rows && Before(start, row.startsOn)
        ensures Before(day, row.startsOn)
      {
        var k :| 0 <= k < |rows| && rows[k] == row;
        OrderIsOrdinal(row.startsOn, start);
        OrderIsOrdinal(start, row.startsOn);
        assert r[n + 1..][k - skipped] == row;
      }
      forall row | row in rows && Before(start, row.startsOn)
        ensures !AtMost(row.startsOn, day)
      {
        OrderIsOrdinal(row.startsOn, day);
        OrderIsOrdinal(day, row.startsOn);
      }
    }
  }

  /** A new amount from `start` on leaves every period before it measured as it was exactly when
      the budget had an amount from before `start`, or the new one is what its first one was:
      otherwise the new amount becomes the earliest, which periods before the budget go by. */
  lemma PastAmountsKept(rows: seq<Amount>, start: Day, amount: int)
    requires InOrder(rows) && rows != []
    ensures InOrder(WithAmount(rows, start, amount))
    ensures Before(rows[0].startsOn, start) || amount == rows[0].amount
      <==> forall past: Day :: Before(past, start)
             ==> AmountFor(rows, past) == AmountFor(WithAmount(rows, start, amount), past)
  {
    var n := WithAmountRows(rows, start, amount);
    var r := WithAmount(rows, start, amount);
    hide *;
    OrderIsOrdinal(rows[0].startsOn, start);
    OrderIsOrdinal(start, rows[0].startsOn);
    var yesterday := Plus(start, -1);
    OrderIsOrdinal(yesterday, start);
    forall past: Day | Before(past, start)
      ensures n == 0 ==> AmountFor(rows, past) == rows[0].amount && AmountFor(r, past) == amount
      ensures n > 0 ==> AmountFor(rows, past) == AmountFor(r, past)
    {
      if n == 0 {
        BeforeAllRows(rows, past, start);
        BeforeAllRows(r, past, start);
      } else {
        PastRowSame(rows, r, n, past, start);
      }
    }
    assert Before(yesterday, start);
  }
}
