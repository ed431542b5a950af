/** The periods a budget repeats in, counted from an anchor day (`finance/periods.py`).
    The functions are the source's; `Nth` is the independent account of what they should give:
    the k-th period starts k steps from the anchor, forwards or backwards. */
module Periods {
  import opened Gregorian

  datatype BudgetPeriod = Weekly | Biweekly | Monthly | Yearly {
    predicate ByDays() {
      Weekly? || Biweekly?
    }
    /** A period's length in days, or else in months. */
    function Step(): int {
      match this
      case Weekly => 7
      case Biweekly => 14
      case Monthly => 1
      case Yearly => 12
    }
  }

  const MAX_PERIODS := 60

  function MonthsBetween(start: Day, end: Day): int {
    (end.year - start.year) * 12 + end.month - start.month
  }

  /** The whole steps in a distance, rounding down as Python's `//` does, times the step. */
  function WholeSteps(period: BudgetPeriod, distance: int): int {
    match period
    case Weekly => distance / 7 * 7
    case Biweekly => distance / 14 * 14
    case Monthly => distance
    case Yearly => distance / 12 * 12
  }

  function PeriodStart(period: BudgetPeriod, anchor: Day, day: Day): Day {
    if period.ByDays() then
      Plus(anchor, WholeSteps(period, Ordinal(day) - Ordinal(anchor)))
    else
      var index := WholeSteps(period, MonthsBetween(anchor, day));
      var start := ShiftMonths(anchor, index);
      if AtMost(start, day) then start else ShiftMonths(anchor, index - period.Step())
  }

  function NextStart(period: BudgetPeriod, anchor: Day, start: Day): Day {
    if period.ByDays() then Plus(start, period.Step())
    else ShiftMonths(anchor, WholeSteps(period, MonthsBetween(anchor, start)) + period.Step())
  }

  function PreviousStart(period: BudgetPeriod, anchor: Day, start: Day): Day {
    PeriodStart(period, anchor, Plus(start, -1))
  }

  function PeriodEnd(period: BudgetPeriod, anchor: Day, start: Day): Day {
    Plus(NextStart(period, anchor, start), -1)
  }

  // ---- The sequence of starts ----

  /** The day the k-th period from the anchor starts on. */
  function Nth(period: BudgetPeriod, anchor: Day, k: int): Day {
    if period.ByDays() then Plus(anchor, period.Step() * k) else ShiftMonths(anchor, period.Step() * k)
  }

  /** Weeks, pairs of weeks, months and years from the anchor, the last two on its day of the month, or on
      the last day of a month too short to have it. */
  lemma NthIsExactly(period: BudgetPeriod, anchor: Day, k: int)
    ensures var d := Nth(period, anchor, k);
      var months, last := (d.year - anchor.year) * 12 + d.month - anchor.month, MonthLength(d.year, d.month);
      match period
      case Weekly => Ordinal(d) == Ordinal(anchor) + 7 * k
      case Biweekly => Ordinal(d) == Ordinal(anchor) + 14 * k
      case Monthly => months == k && d.day == if anchor.day <= last then anchor.day else last
      case Yearly => months == 12 * k && d.day == if anchor.day <= last then anchor.day else last
  {
    hide MonthStart;
    assert MonthIndex(anchor) == anchor.year * 12 + anchor.month - 1;
  }

  lemma NthIncreases(period: BudgetPeriod, anchor: Day, j: int, k: int)
    requires j < k
    ensures Ordinal(Nth(period, anchor, j)) < Ordinal(Nth(period, anchor, k))
  {
    assert period.Step() * j < period.Step() * k;
    if !period.ByDays() {
      ShiftIncreases(anchor, period.Step() * j, period.Step() * k);
    }
  }

  /** Which period a whole number of steps is. */
  lemma StepsAre(period: BudgetPeriod, distance: int) returns (k: int)
    ensures WholeSteps(period, distance) == period.Step() * k
    ensures WholeSteps(period, distance) <= distance < WholeSteps(period, distance) + period.Step()
  {
    k := match period
      case Weekly => distance / 7
      case Biweekly => distance / 14
      case Monthly => distance
      case Yearly => distance / 12;
  }

  /** The start `PeriodStart` finds is one of the sequence, and the day is before the next one. */
  lemma StartOfDay(period: BudgetPeriod, anchor: Day, day: Day) returns (k: int)
    ensures PeriodStart(period, anchor, day) == Nth(period, anchor, k)
    ensures Ordinal(Nth(period, anchor, k)) <= Ordinal(day) < Ordinal(Nth(period, anchor, k + 1))
  {
    hide MonthStart, LengthAt;
    var step := period.Step();
    if period.ByDays() {
      k := StepsAre(period, Ordinal(day) - Ordinal(anchor));
      assert step * (k + 1) == step * k + step;
    } else {
      k := StepsAre(period, MonthsBetween(anchor, day));
      assert step * (k + 1) == step * k + step && step * (k - 1) == step * k - step;
      OrderIsOrdinal(ShiftMonths(anchor, step * k), day);
      LaterMonth(day, ShiftMonths(anchor, step * (k + 1)));
      if !AtMost(ShiftMonths(anchor, step * k), day) {
        LaterMonth(ShiftMonths(anchor, step * (k - 1)), day);
        k := k - 1;
      }
    }
  }

  lemma WholeStepsOf(period: BudgetPeriod, k: int)
    ensures WholeSteps(period, period.Step() * k) == period.Step() * k
  {
    match period
    case Weekly => assert 7 * k / 7 == k;
    case Biweekly => assert 14 * k / 14 == k;
    case Monthly =>
    case Yearly => assert 12 * k / 12 == k;
  }

  lemma NextIsNth(period: BudgetPeriod, anchor: Day, k: int)
    ensures NextStart(period, anchor, Nth(period, anchor, k)) == Nth(period, anchor, k + 1)
  {
    hide MonthStart, LengthAt;
    var step, start := period.Step(), Nth(period, anchor, k);
    assert step * (k + 1) == step * k + step;
    if period.ByDays() {
      OrderIsOrdinal(NextStart(period, anchor, start), Nth(period, anchor, k + 1));
    } else {
      WholeStepsOf(period, k);
    }
  }

  /** A day between the k-th start and the next is in the k-th period. */
  lemma SameStart(period: BudgetPeriod, anchor: Day, day: Day, k: int)
    requires Ordinal(Nth(period, anchor, k)) <= Ordinal(day) < Ordinal(Nth(period, anchor, k + 1))
    ensures PeriodStart(period, anchor, day) == Nth(period, anchor, k)
  {
    hide MonthStart, LengthAt, Nth, PeriodStart;
    var j := StartOfDay(period, anchor, day);
    if j < k {
      if j + 1 < k { NthIncreases(period, anchor, j + 1, k); }
    } else if k < j {
      if k + 1 < j { NthIncreases(period, anchor, k + 1, j); }
    }
  }

  /** A period's neighbours start one step away, so going on and going back undo each other. */
  lemma Neighbours(period: BudgetPeriod, anchor: Day, k: int)
    ensures PeriodStart(period, anchor, Nth(period, anchor, k)) == Nth(period, anchor, k)
    ensures NextStart(period, anchor, Nth(period, anchor, k)) == Nth(period, anchor, k + 1)
    ensures PreviousStart(period, anchor, Nth(period, anchor, k)) == Nth(period, anchor, k - 1)
  {
    hide MonthStart, LengthAt, PeriodStart, Nth, NextStart;
    NextIsNth(period, anchor, k);
    NthIncreases(period, anchor, k, k + 1);
    SameStart(period, anchor, Nth(period, anchor, k), k);
    NthIncreases(period, anchor, k - 1, k);
    SameStart(period, anchor, Plus(Nth(period, anchor, k), -1), k - 1);
  }

  lemma PeriodSpans(period: BudgetPeriod, anchor: Day, day: Day, k: int)
    ensures var start := Nth(period, anchor, k);
      AtMost(start, day) && AtMost(day, PeriodEnd(period, anchor, start))
      <==> Ordinal(start) <= Ordinal(day) < Ordinal(Nth(period, anchor, k + 1))
  {
    Neighbours(period, anchor, k);
    var start := Nth(period, anchor, k);
    OrderIsOrdinal(start, day);
    OrderIsOrdinal(day, PeriodEnd(period, anchor, start));
  }

  /** Every day is in exactly one period: of all the starts of the sequence, `PeriodStart` is
      the only one whose period the day is in. */
  lemma PeriodsPartitionDays(period: BudgetPeriod, anchor: Day, day: Day, k: int)
    ensures var start := PeriodStart(period, anchor, day);
      AtMost(start, day) && AtMost(day, PeriodEnd(period, anchor, start))
    ensures AtMost(Nth(period, anchor, k), day) && AtMost(day, PeriodEnd(period, anchor, Nth(period, anchor, k)))
      <==> Nth(period, anchor, k) == PeriodStart(period, anchor, day)
  {
    var j := StartOfDay(period, anchor, day);
    PeriodSpans(period, anchor, day, j);
    PeriodSpans(period, anchor, day, k);
    if Ordinal(Nth(period, anchor, k)) <= Ordinal(day) < Ordinal(Nth(period, anchor, k + 1)) {
      SameStart(period, anchor, day, k);
    }
  }

  /** On starts, `NextStart` and `PreviousStart` are each other's inverse, and periods don't overlap or leave gaps. */
  lemma NextAndPreviousUndo(period: BudgetPeriod, anchor: Day, start: Day)
    requires PeriodStart(period, anchor, start) == start
    ensures var next := NextStart(period, anchor, start);
      PeriodStart(period, anchor, next) == next && PreviousStart(period, anchor, next) == start
    ensures var previous := PreviousStart(period, anchor, start);
      PeriodStart(period, anchor, previous) == previous && NextStart(period, anchor, previous) == start
  {
    var k := StartOfDay(period, anchor, start);
    Neighbours(period, anchor, k - 1);
    Neighbours(period, anchor, k);
    Neighbours(period, anchor, k + 1);
  }

  /** A run of periods: each starts where the one before it ends. */
  ghost predicate Consecutive(period: BudgetPeriod, anchor: Day, starts: seq<Day>) {
    && (forall i :: 0 <= i < |starts| ==> PeriodStart(period, anchor, starts[i]) == starts[i])
    && (forall i {:trigger starts[i]} :: 0 <= i < |starts| - 1 ==>
      NextStart(period, anchor, starts[i]) == starts[i + 1])
  }

  function Reversed(days: seq<Day>): (r: seq<Day>)
    ensures |r| == |days| && forall i :: 0 <= i < |r| ==> r[i] == days[|days| - 1 - i]
  {
    seq(|days|, i requires 0 <= i < |days| => days[|days| - 1 - i])
  }

  lemma OneFurtherBack(period: BudgetPeriod, anchor: Day, back: seq<Day>)
    requires back != [] && Consecutive(period, anchor, Reversed(back))
    ensures var previous := PreviousStart(period, anchor, back[|back| - 1]);
      Consecutive(period, anchor, Reversed(back + [previous]))
  {
    hide PeriodStart, NextStart, PreviousStart, MonthStart, LengthAt, IsDay;
    var last := back[|back| - 1];
    assert Reversed(back)[0] == last;
    NextAndPreviousUndo(period, anchor, last);
    var previous := PreviousStart(period, anchor, last);
    assert Reversed(back + [previous]) == [previous] + Reversed(back);
  }

  method StartsBack(period: BudgetPeriod, anchor: Day, start: Day, count: int) returns (starts: seq<Day>)
    requires PeriodStart(period, anchor, start) == start
    ensures |starts| == if count <= 1 then 1 else if count < MAX_PERIODS then count else MAX_PERIODS
    ensures starts[|starts| - 1] == start
    ensures Consecutive(period, anchor, starts)
  {
    var back := [start];
    assert Consecutive(period, anchor, Reversed(back));
    hide PeriodStart, NextStart, PreviousStart, MonthStart, LengthAt, IsDay, Consecutive, Reversed;
    var i := 0;
    while i < MAX_PERIODS - 1
      invariant 0 <= i <= MAX_PERIODS - 1
      invariant |back| == i + 1 && back[0] == start
      invariant count > 1 ==> i + 1 <= count
      invariant count <= 1 ==> i == 0
      invariant Consecutive(period, anchor, Reversed(back))
    {
      if |back| >= count {
        break;
      }
      OneFurtherBack(period, anchor, back);
      back := back + [PreviousStart(period, anchor, back[i])];
      i := i + 1;
    }
    starts := Reversed(back);
  }
}
