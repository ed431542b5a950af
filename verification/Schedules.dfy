/** When a recurring payment is due (`finance/subscriptions.py`): the schedule counted from its
    next due date, listing it, and moving it on when payments arrive. */
module Schedules {
  import opened Wrappers
  import opened Gregorian

  datatype Frequency = Weekly | Biweekly | Monthly | Bimonthly | Quarterly | Semiannual | Annual {
    predicate ByDays() {
      Weekly? || Biweekly?
    }
    /** What it steps by: days when `ByDays`, months otherwise. */
    function Step(): int {
      match this
      case Weekly => 7
      case Biweekly => 14
      case Monthly => 1
      case Bimonthly => 2
      case Quarterly => 3
      case Semiannual => 6
      case Annual => 12
    }
    /** How long before a due date a payment settles it, in days. */
    function Early(): int {
      match this
      case Weekly => 3
      case Biweekly => 7
      case Monthly => 15
      case Bimonthly => 30
      case Quarterly => 45
      case Semiannual => 91
      case Annual => 182
    }
    /** The most days one step can take. */
    function Longest(): int {
      if ByDays() then Step() else 31 * Step()
    }
  }

  const UPCOMING_PAYMENTS := 6

  /** It is on that day of the month, or on the last of a month too short to have it. */
  ghost predicate IsDayOfItsMonth(d: Day, day: int) {
    d.day == if day <= MonthLength(d.year, d.month) then day else MonthLength(d.year, d.month)
  }

  /** The schedule's date this many cycles on. Steps don't add up: each date is reached from `due` itself. */
  function DueAfter(due: Day, frequency: Frequency, cycles: int): Day {
    if frequency.ByDays() then Plus(due, frequency.Step() * cycles)
    else ShiftMonths(due, frequency.Step() * cycles)
  }

  /** What each frequency is: so many days, or so many months to the same day of the month or the
      last one there is. */
  lemma DueIsExactly(due: Day, frequency: Frequency, cycles: int)
    ensures var d, days := DueAfter(due, frequency, cycles), Ordinal(DueAfter(due, frequency, cycles)) - Ordinal(due);
      var months := (d.year - due.year) * 12 + d.month - due.month;
      match frequency
      case Weekly => days == 7 * cycles
      case Biweekly => days == 14 * cycles
      case Monthly => months == cycles && IsDayOfItsMonth(d, due.day)
      case Bimonthly => months == 2 * cycles && IsDayOfItsMonth(d, due.day)
      case Quarterly => months == 3 * cycles && IsDayOfItsMonth(d, due.day)
      case Semiannual => months == 6 * cycles && IsDayOfItsMonth(d, due.day)
      case Annual => months == 12 * cycles && IsDayOfItsMonth(d, due.day)
  {
    hide MonthStart;
    assert MonthIndex(due) == due.year * 12 + due.month - 1;
  }

  /** The early window is half of the average time between two payments, in whole days: of the step for
      those that go by days, and for the others of as many months as 400 years have 146097 days. */
  lemma EarlyIsHalfTheAverage(frequency: Frequency)
    ensures if frequency.ByDays() then 2 * frequency.Early() <= frequency.Step() < 2 * (frequency.Early() + 1)
      else 2 * 4800 * frequency.Early() <= 146097 * frequency.Step() < 2 * 4800 * (frequency.Early() + 1)
  {
  }

  lemma DueNow(due: Day, frequency: Frequency)
    ensures DueAfter(due, frequency, 0) == due
  {
    ShiftByNone(due);
    OrdinalRoundTrip(due);
  }

  lemma DueIncreases(due: Day, frequency: Frequency, j: int, k: int)
    requires j < k
    ensures Ordinal(DueAfter(due, frequency, j)) < Ordinal(DueAfter(due, frequency, k))
  {
    hide MonthStart, LengthAt;
    assert frequency.Step() * j < frequency.Step() * k;
    if !frequency.ByDays() {
      ShiftIncreases(due, frequency.Step() * j, frequency.Step() * k);
    }
  }

  lemma DueIsSoon(due: Day, frequency: Frequency, cycles: nat)
    ensures Ordinal(DueAfter(due, frequency, cycles)) - Ordinal(due) <= frequency.Longest() * cycles
  {
    hide MonthStart, LengthAt;
    if !frequency.ByDays() {
      ShiftIsShort(due, frequency.Step() * cycles);
    }
  }

  // ---- Listing due dates ----

  /** `d` is one of the schedule's days from `first` to `last`. */
  ghost predicate IsDue(d: Day, due: Day, frequency: Frequency, first: Day, last: Day) {
    AtMost(first, d) && AtMost(d, last) && exists c: nat :: d == DueAfter(due, frequency, c)
  }

  ghost predicate Increasing(days: seq<Day>) {
    forall i, j :: 0 <= i < j < |days| ==> Before(days[i], days[j])
  }

  /** Exactly the schedule's days from `first` to `last`, in order. */
  ghost predicate Lists(days: seq<Day>, due: Day, frequency: Frequency, first: Day, last: Day) {
    && Increasing(days)
    && forall d: Day :: d in days <==> IsDue(d, due, frequency, first, last)
  }

  /** The last day due dates are listed to: none is on or after the day it ends. */
  function LastDay(last: Day, endsOn: Option<Day>): Day {
    if endsOn.None? then last else Earlier(last, Plus(endsOn.value, -1))
  }

  lemma LastDayIsBeforeTheEnd(last: Day, endsOn: Option<Day>, d: Day)
    ensures AtMost(d, LastDay(last, endsOn)) <==> AtMost(d, last) && (endsOn.Some? ==> Before(d, endsOn.value))
  {
    hide Ordinal;
    OrderIsOrdinal(d, last);
    OrderIsOrdinal(d, LastDay(last, endsOn));
    if endsOn.Some? {
      OrderIsOrdinal(d, endsOn.value);
      OrderIsOrdinal(Plus(endsOn.value, -1), last);
    }
  }

  /** Where counting starts: a little before `first`, and never past a due date to be listed. */
  function FirstCycle(due: Day, frequency: Frequency, first: Day): nat {
    var longest := frequency.Longest();
    var cycles := (Ordinal(first) - Ordinal(due)) / longest - 1;
    if cycles < 0 then 0 else cycles
  }

  lemma WholeParts(distance: int, part: int, count: int)
    requires part > 0 && count < distance / part
    ensures part * count < distance
  {
    assert part * count <= part * (distance / part - 1);
  }

  lemma SkipPassesNothing(due: Day, frequency: Frequency, first: Day, c: nat)
    requires c < FirstCycle(due, frequency, first)
    ensures Ordinal(DueAfter(due, frequency, c)) < Ordinal(first)
  {
    hide DueAfter, MonthStart, LengthAt;
    DueIsSoon(due, frequency, c);
    WholeParts(Ordinal(first) - Ordinal(due), frequency.Longest(), c);
  }

  // ---- Moving the next due date on ----

  /** How many cycles from the `from`-th on are settled by `settled`: the loop of the source. */
  function CyclesPast(due: Day, frequency: Frequency, settled: Day, from: nat): (c: nat)
    ensures c >= from && Before(settled, DueAfter(due, frequency, c))
    ensures forall k :: from <= k < c ==> AtMost(DueAfter(due, frequency, k), settled)
    decreases Ordinal(settled) - Ordinal(DueAfter(due, frequency, from))
  {
    hide MonthStart, LengthAt, DueAfter;
    OrderIsOrdinal(DueAfter(due, frequency, from), settled);
    if Before(settled, DueAfter(due, frequency, from)) then from
    else
      DueIncreases(due, frequency, from, from + 1);
      CyclesPast(due, frequency, settled, from + 1)
  }

  /** The due date after a payment on `paidOn`. */
  function Advanced(due: Day, frequency: Frequency, paidOn: Day): Day {
    var settled := Plus(paidOn, frequency.Early());
    DueAfter(due, frequency, CyclesPast(due, frequency, settled, 0))
  }

  /** A payment leaves the least of the schedule's days more than the early window after it. */
  lemma AdvancedIsLeast(due: Day, frequency: Frequency, paidOn: Day, c: nat)
    ensures var next := Advanced(due, frequency, paidOn);
      Ordinal(paidOn) + frequency.Early() < Ordinal(next)
    ensures exists k: nat :: Advanced(due, frequency, paidOn) == DueAfter(due, frequency, k)
    ensures Ordinal(paidOn) + frequency.Early() < Ordinal(DueAfter(due, frequency, c))
      ==> AtMost(Advanced(due, frequency, paidOn), DueAfter(due, frequency, c))
  {
    hide MonthStart, LengthAt, DueAfter;
    var settled := Plus(paidOn, frequency.Early());
    var k := CyclesPast(due, frequency, settled, 0);
    OrderIsOrdinal(settled, DueAfter(due, frequency, k));
    OrderIsOrdinal(settled, DueAfter(due, frequency, c));
    OrderIsOrdinal(DueAfter(due, frequency, k), DueAfter(due, frequency, c));
    if k < c {
      DueIncreases(due, frequency, k, c);
    } else if c < k {
      OrderIsOrdinal(DueAfter(due, frequency, c), settled);
    }
  }

  /** The converse: the cycle after the last settled one is where a payment leaves it. */
  lemma AdvancedTo(due: Day, frequency: Frequency, paidOn: Day, c: nat)
    requires Ordinal(paidOn) + frequency.Early() < Ordinal(DueAfter(due, frequency, c))
    requires c > 0 ==> Ordinal(DueAfter(due, frequency, c - 1)) <= Ordinal(paidOn) + frequency.Early()
    ensures Advanced(due, frequency, paidOn) == DueAfter(due, frequency, c)
  {
    hide MonthStart, LengthAt, DueAfter;
    var settled := Plus(paidOn, frequency.Early());
    var k := CyclesPast(due, frequency, settled, 0);
    OrderIsOrdinal(settled, DueAfter(due, frequency, k));
    if k < c {
      if k < c - 1 { DueIncreases(due, frequency, k, c - 1); }
    } else if c < k {
      OrderIsOrdinal(DueAfter(due, frequency, c), settled);
    }
  }

  /** A payment long before the due date changes nothing, so paying again changes nothing and a
      due date never goes back. */
  lemma AdvanceIsIdempotent(due: Day, frequency: Frequency, paidOn: Day)
    ensures AtMost(due, Advanced(due, frequency, paidOn))
    ensures Advanced(due, frequency, paidOn) == due <==> Ordinal(paidOn) + frequency.Early() < Ordinal(due)
    ensures var next := Advanced(due, frequency, paidOn); Advanced(next, frequency, paidOn) == next
  {
    hide MonthStart, LengthAt, DueAfter;
    var next := Advanced(due, frequency, paidOn);
    AdvancedIsLeast(due, frequency, paidOn, 0);
    var k := CyclesPast(due, frequency, Plus(paidOn, frequency.Early()), 0);
    DueNow(due, frequency);
    DueNow(next, frequency);
    AdvancedTo(next, frequency, paidOn, 0);
    OrderIsOrdinal(due, next);
    if k > 0 { DueIncreases(due, frequency, 0, k); }
    OrderIsOrdinal(due, Plus(paidOn, frequency.Early()));
    if Ordinal(paidOn) + frequency.Early() < Ordinal(due) {
      AdvancedTo(due, frequency, paidOn, 0);
    }
  }

  /** The early window is shorter than the shortest cycle. */
  lemma EarlyIsWithinACycle(due: Day, frequency: Frequency)
    ensures frequency.Early() < Ordinal(DueAfter(due, frequency, 1)) - Ordinal(due)
  {
    hide MonthStart, LengthAt;
    if !frequency.ByDays() {
      MonthsSpan(MonthIndex(due), frequency.Step());
      MonthStep(MonthIndex(due));
      MonthStep(MonthIndex(due) + frequency.Step());
    }
  }

  /** Which payments move the due date on exactly one cycle. A payment on the due date does, and
      so does one up to the early window before it. */
  lemma OnePaymentOneCycle(due: Day, frequency: Frequency, paidOn: Day)
    ensures Advanced(due, frequency, paidOn) == DueAfter(due, frequency, 1)
      <==> Ordinal(due) <= Ordinal(paidOn) + frequency.Early() < Ordinal(DueAfter(due, frequency, 1))
    ensures Ordinal(due) - frequency.Early() <= Ordinal(paidOn) <= Ordinal(due)
      ==> Advanced(due, frequency, paidOn) == DueAfter(due, frequency, 1)
  {
    hide MonthStart, LengthAt, DueAfter;
    DueNow(due, frequency);
    AdvancedIsLeast(due, frequency, paidOn, 0);
    DueIncreases(due, frequency, 0, 1);
    if Ordinal(paidOn) + frequency.Early() < Ordinal(due) {
      AdvancedTo(due, frequency, paidOn, 0);
    } else if Ordinal(paidOn) + frequency.Early() < Ordinal(DueAfter(due, frequency, 1)) {
      AdvancedTo(due, frequency, paidOn, 1);
    }
    EarlyIsWithinACycle(due, frequency);
  }

  /** A month's length in a year that isn't a leap year. */
  function ShortLength(month: int): int {
    MonthLength(1, month)
  }

  lemma LengthOf(index: int)
    ensures LengthAt(index) == if index % 12 == 1 && IsLeap(index / 12) then 29 else ShortLength(index % 12 + 1)
  {
  }

  /** Whether a month may be that long, by where it is in the year, counted from January as 0. */
  predicate Fits(length: int, month: int) {
    if month == 1 || month == 13 then 28 <= length <= 29
    else if month in {3, 5, 8, 10, 15, 17, 20, 22} then length == 30
    else length == 31
  }

  lemma LengthFrom(index: int, k: nat)
    requires k <= 12
    ensures Fits(LengthAt(index + k), index % 12 + k)
  {
    assert (index + k) % 12 == (index % 12 + k) % 12;
    LengthOf(index + k);
  }

  lemma StartAfter(index: int, k: nat)
    requires k <= 12
    ensures MonthStart(index + k + 1) == MonthStart(index + k) + LengthAt(index + k)
    ensures Fits(LengthAt(index + k), index % 12 + k)
  {
    MonthStep(index + k);
    LengthFrom(index, k);
  }

  /** `count` months from this one have so many days, and still do for a day its last month clamps. */
  predicate Spans(index: int, count: nat, least: int, most: int) {
    var days := MonthStart(index + count) - MonthStart(index);
    days <= most && least <= days && least <= days + LengthAt(index + count) - LengthAt(index)
  }

  lemma QuarterSpans(index: int)
    ensures Spans(index, 1, 28, 31) && Spans(index, 2, 59, 62) && Spans(index, 3, 89, 92)
  {
    hide MonthStart, LengthAt;
    StartAfter(index, 0);
    StartAfter(index, 1);
    StartAfter(index, 2);
    StartAfter(index, 3);
  }

  lemma HalfYearSpans(index: int)
    ensures Spans(index, 6, 181, 184)
  {
    hide MonthStart, LengthAt;
    StartAfter(index, 0);
    StartAfter(index, 1);
    StartAfter(index, 2);
    StartAfter(index, 3);
    StartAfter(index, 4);
    StartAfter(index, 5);
    StartAfter(index, 6);
  }

  lemma YearSpans(index: int)
    ensures Spans(index, 12, 365, 366)
  {
    hide MonthStart, LengthAt;
    StartAfter(index, 0);
    StartAfter(index, 1);
    StartAfter(index, 2);
    StartAfter(index, 3);
    StartAfter(index, 4);
    StartAfter(index, 5);
    StartAfter(index, 6);
    StartAfter(index, 7);
    StartAfter(index, 8);
    StartAfter(index, 9);
    StartAfter(index, 10);
    StartAfter(index, 11);
    StartAfter(index, 12);
  }

  lemma DayIsInItsMonth(due: Day)
    ensures due.day <= LengthAt(MonthIndex(due))
  {
    hide MonthLength;
    assert MonthIndex(due) / 12 == due.year && MonthIndex(due) % 12 + 1 == due.month;
  }

  /** Clamping takes no more off than the last month is shorter than the first. */
  lemma DaysApart(due: Day, months: nat, least: int, most: int)
    requires Spans(MonthIndex(due), months, least, most)
    ensures least <= Ordinal(ShiftMonths(due, months)) - Ordinal(due) <= most
  {
    DayIsInItsMonth(due);
    hide MonthStart, LengthAt, MonthIndex, ShiftMonths;
  }

  /** The early window is half of what separates two payments, to within two days, for every
      frequency and due date. */
  lemma EarlyIsHalfACycle(due: Day, frequency: Frequency)
    ensures var apart := Ordinal(DueAfter(due, frequency, 1)) - Ordinal(due);
      apart - 2 <= 2 * frequency.Early() <= apart + 2
  {
    hide Spans, Ordinal, ShiftMonths;
    var index := MonthIndex(due);
    if frequency.Semiannual? {
      HalfYearSpans(index);
      DaysApart(due, 6, 181, 184);
    } else if frequency.Annual? {
      YearSpans(index);
      DaysApart(due, 12, 365, 366);
    } else if !frequency.ByDays() {
      QuarterSpans(index);
      var s := frequency.Step();
      DaysApart(due, s, if s == 1 then 28 else if s == 2 then 59 else 89,
        if s == 1 then 31 else if s == 2 then 62 else 92);
    }
  }

  // ---- Payments in any order ----

  function MonthAfter(month: int, months: int): int {
    (month - 1 + months) % 12 + 1
  }

  /** No month the schedule comes to is ever too short for its day: any day-counting schedule,
      and by the month anything up to the 28th, or a day all its own months have. */
  predicate FitsEveryMonth(due: Day, frequency: Frequency) {
    frequency.ByDays() ||
    forall j :: 0 <= j < 12 ==> due.day <= ShortLength(MonthAfter(due.month, frequency.Step() * j))
  }

  lemma ProductSplits(step: int, q: int, j: int)
    ensures step * (12 * q + j) == 12 * (step * q) + step * j
  {
  }

  lemma TwelvesDropOut(x: int, y: int)
    ensures (12 * x + y) % 12 == y % 12
  {
  }

  lemma MonthsGoAround(due: Day, frequency: Frequency, cycles: nat)
    ensures (MonthIndex(due) + frequency.Step() * cycles) % 12 + 1 ==
        MonthAfter(due.month, frequency.Step() * (cycles % 12))
  {
    var step, q, j := frequency.Step(), cycles / 12, cycles % 12;
    ProductSplits(step, q, j);
    assert cycles == 12 * q + j;
    TwelvesDropOut(due.year + step * q, due.month - 1 + step * j);
  }

  lemma FitsMeansNoClamping(due: Day, frequency: Frequency, cycles: nat)
    requires FitsEveryMonth(due, frequency) && !frequency.ByDays()
    ensures DueAfter(due, frequency, cycles).day == due.day
  {
    hide MonthStart;
    var index := MonthIndex(due) + frequency.Step() * cycles;
    var j := cycles % 12;
    MonthsGoAround(due, frequency, cycles);
    assert due.day <= ShortLength(MonthAfter(due.month, frequency.Step() * j));
    assert ShortLength(index % 12 + 1) <= LengthAt(index);
  }

  /** Without clamping, counting on from a due date that moved is counting on from the first one. */
  lemma DueComposes(due: Day, frequency: Frequency, a: nat, b: nat)
    requires FitsEveryMonth(due, frequency)
    ensures DueAfter(DueAfter(due, frequency, a), frequency, b) == DueAfter(due, frequency, a + b)
  {
    hide MonthStart, LengthAt;
    var step := frequency.Step();
    assert step * (a + b) == step * a + step * b;
    if !frequency.ByDays() {
      FitsMeansNoClamping(due, frequency, a);
      SameMonthAndDay(DueAfter(DueAfter(due, frequency, a), frequency, b), DueAfter(due, frequency, a + b));
    }
  }

  /** Without clamping, two payments leave what the later one alone would. */
  lemma AdvanceTwice(due: Day, frequency: Frequency, p: Day, q: Day)
    requires FitsEveryMonth(due, frequency)
    ensures Advanced(Advanced(due, frequency, p), frequency, q) == Advanced(due, frequency, Later(p, q))
  {
    hide MonthStart, LengthAt, DueAfter, FitsEveryMonth;
    OrderIsOrdinal(p, q);
    var early := frequency.Early();
    var a := CyclesPast(due, frequency, Plus(p, early), 0);
    var next := DueAfter(due, frequency, a);
    var b := CyclesPast(next, frequency, Plus(q, early), 0);
    DueComposes(due, frequency, a, b);
    AdvancedIsLeast(due, frequency, p, 0);
    AdvancedIsLeast(next, frequency, q, 0);
    if b == 0 {
      DueNow(next, frequency);
      if a > 0 { OrderIsOrdinal(DueAfter(due, frequency, a - 1), Plus(p, early)); }
    } else {
      DueComposes(due, frequency, a, b - 1);
      DueIncreases(due, frequency, a, a + b);
      OrderIsOrdinal(DueAfter(next, frequency, b - 1), Plus(q, early));
    }
    AdvancedTo(due, frequency, Later(p, q), a + b);
  }

  lemma DoesNotFit(due: Day, frequency: Frequency) returns (j: nat)
    requires !FitsEveryMonth(due, frequency)
    ensures !frequency.ByDays() && due.day > ShortLength((MonthIndex(due) + frequency.Step() * j) % 12 + 1)
  {
    hide MonthStart, LengthAt, ShortLength, MonthAfter, MonthIndex, Frequency.Step;
    j :| 0 <= j < 12 && due.day > ShortLength(MonthAfter(due.month, frequency.Step() * j));
    assert j % 12 == j;
    MonthsGoAround(due, frequency, j);
  }

  lemma DayAfter(due: Day, frequency: Frequency, c: nat)
    requires !frequency.ByDays()
    ensures var length := LengthAt(MonthIndex(due) + frequency.Step() * c);
      DueAfter(due, frequency, c).day == if due.day <= length then due.day else length
  {
  }

  lemma CyclesInAYear(frequency: Frequency) returns (n: nat)
    requires !frequency.ByDays()
    ensures n > 0 && frequency.Step() * n == 12
  {
    n := if frequency.Monthly? then 12
         else if frequency.Bimonthly? then 6
         else if frequency.Quarterly? then 4
         else if frequency.Semiannual? then 2
         else 1;
  }

  lemma ShortNextYear(index: int)
    requires LengthAt(index) != ShortLength(index % 12 + 1)
    ensures LengthAt(index + 12) == ShortLength(index % 12 + 1)
  {
    assert (index + 12) / 12 == index / 12 + 1 && (index + 12) % 12 == index % 12;
  }

  /** A schedule that doesn't fit every month is clamped at some cycle. */
  lemma ClampsSomewhere(due: Day, frequency: Frequency) returns (c: nat)
    requires !FitsEveryMonth(due, frequency)
    ensures c > 0 && DueAfter(due, frequency, c).day < due.day
  {
    var j := DoesNotFit(due, frequency);
    hide *;
    var index := MonthIndex(due) + frequency.Step() * j;
    LengthOf(index);
    DayAfter(due, frequency, j);
    if due.day > LengthAt(index) {
      c := j;
      DueNow(due, frequency);
    } else {
      // February of a leap year: a year later it's short.
      var year := CyclesInAYear(frequency);
      c := j + year;
      DayAfter(due, frequency, c);
      assert frequency.Step() * c == frequency.Step() * j + frequency.Step() * year;
      ShortNextYear(index);
    }
  }

  lemma LaterCycleLaterMonth(due: Day, frequency: Frequency, j: nat, k: nat)
    requires !frequency.ByDays() && j < k
    ensures MonthIndex(DueAfter(due, frequency, j)) < MonthIndex(DueAfter(due, frequency, k))
  {
    assert frequency.Step() * j < frequency.Step() * k;
  }

  lemma SameMonthEarlierDay(due: Day, frequency: Frequency, c: nat, far: nat)
    requires !frequency.ByDays() && c > 0 && DueAfter(due, frequency, c).day < due.day && far == 4800 * c
    ensures var clamped, full := DueAfter(due, frequency, c), DueAfter(due, frequency, far);
      var x := DueAfter(clamped, frequency, far - c);
      MonthIndex(x) == MonthIndex(full) && x.day < full.day
  {
    hide MonthStart, LengthAt;
    var step := frequency.Step();
    assert step * far == 4800 * (step * c) && step * (far - c) == step * far - step * c;
    Repeats(MonthIndex(due), step * c);
    LengthOf(MonthIndex(due));
    assert LengthAt(MonthIndex(due)) == MonthLength(due.year, due.month) by { assert MonthIndex(due) / 12 == due.year; }
  }

  /** With clamping, there are two payments whose order decides the due date: one that leaves it
      on the clamped day, and one that leaves it on the full day of the same month centuries on. */
  lemma OrderMatters(due: Day, frequency: Frequency, c: nat) returns (p: Day, q: Day)
    requires !frequency.ByDays() && c > 0 && DueAfter(due, frequency, c).day < due.day
    ensures Advanced(Advanced(due, frequency, p), frequency, q) != Advanced(Advanced(due, frequency, q), frequency, p)
  {
    hide MonthStart, LengthAt, DueAfter;
    var step, early, far := frequency.Step(), frequency.Early(), 4800 * c;
    var clamped, full := DueAfter(due, frequency, c), DueAfter(due, frequency, far);
    p := Plus(clamped, -1 - early);
    q := Plus(full, -1 - early);
    DueIncreases(due, frequency, c - 1, c);
    DueIncreases(due, frequency, far - 1, far);
    DueIncreases(due, frequency, c, far);
    AdvancedTo(due, frequency, p, c);
    AdvancedTo(due, frequency, q, far);
    AdvanceIsIdempotent(full, frequency, p);
    // From the clamped day, the month of `full` has a day that is settled already.
    SameMonthEarlierDay(due, frequency, c, far);
    var x := DueAfter(clamped, frequency, far - c);
    var b := CyclesPast(clamped, frequency, Plus(q, early), 0);
    OrderIsOrdinal(x, full);
    OrderIsOrdinal(Plus(q, early), DueAfter(clamped, frequency, b));
    if b < far - c {
      DueIncreases(clamped, frequency, b, far - c);
    } else if b > far - c {
      LaterCycleLaterMonth(clamped, frequency, far - c, b);
    }
  }

  /** Payments commute exactly when the schedule never clamps. Otherwise it matters which of two
      payments is seen first, as when the 31st becomes the 28th in February and stays there. */
  lemma PaymentsCommute(due: Day, frequency: Frequency)
    ensures FitsEveryMonth(due, frequency)
      <==> forall p: Day, q: Day ::
        Advanced(Advanced(due, frequency, p), frequency, q) == Advanced(Advanced(due, frequency, q), frequency, p)
  {
    hide MonthStart, LengthAt, DueAfter, Advanced, FitsEveryMonth;
    if FitsEveryMonth(due, frequency) {
      forall p: Day, q: Day
        ensures Advanced(Advanced(due, frequency, p), frequency, q) ==
            Advanced(Advanced(due, frequency, q), frequency, p)
      {
        AdvanceTwice(due, frequency, p, q);
        AdvanceTwice(due, frequency, q, p);
        OrderIsOrdinal(p, q);
        OrderIsOrdinal(q, p);
      }
    } else {
      var _ := DoesNotFit(due, frequency);
      var c := ClampsSomewhere(due, frequency);
      var p, q := OrderMatters(due, frequency, c);
    }
  }

  // ---- A subscription or bill ----

  lemma DueInOrder(due: Day, frequency: Frequency, j: nat, k: nat)
    requires j <= k
    ensures Ordinal(DueAfter(due, frequency, j)) <= Ordinal(DueAfter(due, frequency, k))
  {
    if j < k { DueIncreases(due, frequency, j, k); }
  }

  /** A run of consecutive cycles that starts with the first not before `first` and stops before
      the first after `last` is exactly what is due. */
  lemma RunListsDue(days: seq<Day>, due: Day, frequency: Frequency, first: Day, last: Day, start: nat)
    requires forall i :: 0 <= i < |days| ==> days[i] == DueAfter(due, frequency, start + i) && AtMost(days[i], last)
    requires forall c: nat :: c < start ==> Before(DueAfter(due, frequency, c), first)
    requires AtMost(first, DueAfter(due, frequency, start))
    requires Before(last, DueAfter(due, frequency, start + |days|))
    ensures Lists(days, due, frequency, first, last)
  {
    hide DueAfter, MonthStart, LengthAt, Ordinal, AtMost, Before;
    var end := start + |days|;
    forall c: nat | c >= start
      ensures AtMost(first, DueAfter(due, frequency, c))
    {
      DueInOrder(due, frequency, start, c);
      OrderIsOrdinal(first, DueAfter(due, frequency, start));
      OrderIsOrdinal(first, DueAfter(due, frequency, c));
    }
    forall c: nat | c >= end
      ensures !AtMost(DueAfter(due, frequency, c), last)
    {
      DueInOrder(due, frequency, end, c);
      OrderIsOrdinal(last, DueAfter(due, frequency, end));
      OrderIsOrdinal(DueAfter(due, frequency, c), last);
    }
    forall i, j | 0 <= i < j < |days|
      ensures Before(days[i], days[j])
    {
      DueIncreases(due, frequency, start + i, start + j);
      OrderIsOrdinal(days[i], days[j]);
    }
    forall d: Day
      ensures d in days <==> IsDue(d, due, frequency, first, last)
    {
      if IsDue(d, due, frequency, first, last) {
        var c: nat :| d == DueAfter(due, frequency, c);
        assert start <= c < end by {
          OrderIsOrdinal(first, d);
          OrderIsOrdinal(d, first);
        }
        assert days[c - start] == d;
      }
      if d in days {
        var i :| 0 <= i < |days| && days[i] == d;
      }
    }
  }

  /** The least of the schedule's days that isn't before `first`. */
  ghost predicate IsFirstFrom(d: Day, due: Day, frequency: Frequency, first: Day) {
    && AtMost(first, d)
    && (exists c: nat :: d == DueAfter(due, frequency, c))
    && forall c: nat :: AtMost(first, DueAfter(due, frequency, c)) ==> AtMost(d, DueAfter(due, frequency, c))
  }

  lemma SameDays(a: seq<Day>, b: seq<Day>)
    requires Increasing(a) && Increasing(b)
    requires forall d: Day :: d in a <==> d in b
    ensures a == b
  {
    if a != [] { assert a[0] in a && a[0] in b; }
    if b != [] { assert b[0] in b && b[0] in a; }
    if a != [] && b != [] {
      var i :| 0 <= i < |b| && b[i] == a[0];
      var j :| 0 <= j < |a| && a[j] == b[0];
      assert i == 0 && j == 0;
      assert a == [a[0]] + a[1..] && b == [b[0]] + b[1..];
      forall d: Day
        ensures d in a[1..] <==> d in b[1..]
      {
        assert d in a <==> d == a[0] || d in a[1..];
        assert d in b <==> d == b[0] || d in b[1..];
        assert a[0] !in a[1..] && b[0] !in b[1..];
      }
      SameDays(a[1..], b[1..]);
    }
  }

  /** The days of `days` not after `last`, in order. */
  function Until(days: seq<Day>, last: Day): seq<Day> {
    if days == [] then []
    else (if AtMost(days[0], last) then [days[0]] else []) + Until(days[1..], last)
  }

  function UpcomingDates(due: Day, frequency: Frequency, endsOn: Option<Day>): seq<Day> {
    Until(seq(UPCOMING_PAYMENTS, c => DueAfter(due, frequency, c)), LastDay(ShiftMonths(due, 12), endsOn))
  }

  lemma {:induction false} UntilOfRun(days: seq<Day>, last: Day, n: nat)
    requires n <= |days|
    requires forall i :: 0 <= i < n ==> AtMost(days[i], last)
    requires forall i :: n <= i < |days| ==> !AtMost(days[i], last)
    ensures Until(days, last) == days[..n]
  {
    if days != [] {
      UntilOfRun(days[1..], last, if n == 0 then 0 else n - 1);
      if n > 0 { assert days[..n] == [days[0]] + days[1..][..n - 1]; }
    }
  }

  lemma {:induction false} UntilKeeps(days: seq<Day>, last: Day)
    ensures forall d :: d in Until(days, last) <==> d in days && AtMost(d, last)
  {
    if days != [] {
      UntilKeeps(days[1..], last);
      assert days == [days[0]] + days[1..];
    }
  }

  /** They are those of the next six, the stored one first, that are within twelve months and before
      the day it ends. */
  lemma UpcomingAreOfTheNextSix(due: Day, frequency: Frequency, endsOn: Option<Day>, d: Day)
    ensures d in UpcomingDates(due, frequency, endsOn) <==>
      AtMost(d, ShiftMonths(due, 12)) && (endsOn.Some? ==> Before(d, endsOn.value)) &&
      exists c: nat :: c < 6 && d == DueAfter(due, frequency, c)
  {
    hide DueAfter, MonthStart, LengthAt, Ordinal, AtMost, Before, LastDay;
    var six := seq(UPCOMING_PAYMENTS, c => DueAfter(due, frequency, c));
    UntilKeeps(six, LastDay(ShiftMonths(due, 12), endsOn));
    LastDayIsBeforeTheEnd(ShiftMonths(due, 12), endsOn, d);
    assert d in six <==> exists c: nat :: c < 6 && d == DueAfter(due, frequency, c) by {
      if c: nat :| c < 6 && d == DueAfter(due, frequency, c) {
        assert six[c] == d;
      }
    }
  }

  /** The upcoming dates are the first of the due dates over the next twelve months. */
  lemma UpcomingIsFirstOfDue(days: seq<Day>, due: Day, frequency: Frequency, endsOn: Option<Day>)
    requires Lists(days, due, frequency, due, LastDay(ShiftMonths(due, 12), endsOn))
    ensures UpcomingDates(due, frequency, endsOn) ==
        if |days| < UPCOMING_PAYMENTS then days else days[..UPCOMING_PAYMENTS]
  {
    hide DueAfter, MonthStart, LengthAt, Ordinal, AtMost, Before, LastDay;
    var last := LastDay(ShiftMonths(due, 12), endsOn);
    var n := CyclesPast(due, frequency, last, 0);
    var run := seq(n, c => DueAfter(due, frequency, c));
    DueNow(due, frequency);
    OrderIsOrdinal(due, due);
    RunListsDue(run, due, frequency, due, last, 0);
    SameDays(days, run);
    var six := seq(UPCOMING_PAYMENTS, c => DueAfter(due, frequency, c));
    var kept := if n < UPCOMING_PAYMENTS then n else UPCOMING_PAYMENTS;
    forall i | kept <= i < UPCOMING_PAYMENTS
      ensures !AtMost(six[i], last)
    {
      DueInOrder(due, frequency, n, i);
      OrderIsOrdinal(last, DueAfter(due, frequency, n));
      OrderIsOrdinal(six[i], last);
    }
    UntilOfRun(six, last, kept);
    assert six[..kept] == run[..kept];
    assert run[..|run|] == run;
  }

  // ---- Payments one at a time, or all at once ----

  function AdvanceAll(due: Day, frequency: Frequency, payments: seq<Day>): Day {
    if payments == [] then due
    else Advanced(AdvanceAll(due, frequency, payments[..|payments| - 1]), frequency, payments[|payments| - 1])
  }

  function Latest(days: seq<Day>): (latest: Day)
    requires days != []
    ensures latest in days && forall i :: 0 <= i < |days| ==> AtMost(days[i], latest)
  {
    if |days| == 1 then days[0]
    else
      var rest := Latest(days[..|days| - 1]);
      assert days == days[..|days| - 1] + [days[|days| - 1]];
      Later(rest, days[|days| - 1])
  }

  /** Where the schedule never clamps, payments taken one by one as they arrive, in any order,
      leave the due date that linking them together leaves: the latest of them decides. */
  lemma {:induction false} BatchIsOneByOne(due: Day, frequency: Frequency, payments: seq<Day>)
    requires FitsEveryMonth(due, frequency) && payments != []
    ensures AdvanceAll(due, frequency, payments) == Advanced(due, frequency, Latest(payments))
  {
    hide DueAfter, FitsEveryMonth, Advanced;
    var n := |payments| - 1;
    if n == 0 {
      assert AdvanceAll(due, frequency, payments[..0]) == due;
    } else {
      BatchIsOneByOne(due, frequency, payments[..n]);
      AdvanceTwice(due, frequency, Latest(payments[..n]), payments[n]);
    }
  }

  lemma TwoPayments(due: Day, frequency: Frequency, p: Day, q: Day)
    ensures AdvanceAll(due, frequency, [p, q]) == Advanced(Advanced(due, frequency, p), frequency, q)
    ensures Latest([p, q]) == Later(p, q)
  {
    hide Advanced, Later, AtMost, Before;
    assert [p, q][..1] == [p] && [p][..0] == [];
    assert AdvanceAll(due, frequency, [p]) == Advanced(AdvanceAll(due, frequency, []), frequency, p);
    assert Latest([p]) == p;
  }

  /** The latest payment decides for every list of payments exactly when the schedule never clamps. */
  lemma BatchIsOneByOneExactly(due: Day, frequency: Frequency)
    ensures FitsEveryMonth(due, frequency)
      <==> forall payments: seq<Day> :: payments != [] ==>
        AdvanceAll(due, frequency, payments) == Advanced(due, frequency, Latest(payments))
  {
    hide DueAfter, FitsEveryMonth, Advanced;
    if FitsEveryMonth(due, frequency) {
      forall payments: seq<Day> | payments != [] {
        BatchIsOneByOne(due, frequency, payments);
      }
    } else {
      var _ := DoesNotFit(due, frequency);
      var c := ClampsSomewhere(due, frequency);
      var p, q := OrderMatters(due, frequency, c);
      TwoPayments(due, frequency, p, q);
      TwoPayments(due, frequency, q, p);
      OrderIsOrdinal(p, q);
      OrderIsOrdinal(q, p);
    }
  }

  datatype Reactivation = Reactivated | NotStopped | AccountClosed | NoDateInRange

  lemma NextMonth(due: Day, frequency: Frequency, c: nat)
    requires !frequency.ByDays()
    ensures MonthIndex(DueAfter(due, frequency, c + 1)) == MonthIndex(DueAfter(due, frequency, c)) + frequency.Step()
  {
    hide MonthStart, LengthAt;
    assert frequency.Step() * (c + 1) == frequency.Step() * c + frequency.Step();
  }

  lemma ThirteenMonthsAre(today: Day)
    ensures Ordinal(ShiftMonths(today, 13)) > Ordinal(today) + 28 * 12
  {
    hide MonthStart, LengthAt;
    MonthsSpan(MonthIndex(today), 13);
    MonthStep(MonthIndex(today));
    MonthStep(MonthIndex(today) + 13);
  }

  /** The cycle after a day that has passed comes within thirteen months. */
  lemma NextIsWithinAYear(due: Day, frequency: Frequency, c: nat, today: Day)
    requires Ordinal(DueAfter(due, frequency, c)) < Ordinal(today)
    ensures Ordinal(DueAfter(due, frequency, c + 1)) < Ordinal(ShiftMonths(today, 13))
  {
    hide MonthStart, LengthAt;
    if frequency.ByDays() {
      ThirteenMonthsAre(today);
      assert frequency.Step() * (c + 1) == frequency.Step() * c + frequency.Step();
    } else {
      NextMonth(due, frequency, c);
      hide DueAfter;
      OrderIsOrdinal(DueAfter(due, frequency, c), today);
      LaterMonth(DueAfter(due, frequency, c + 1), ShiftMonths(today, 13));
    }
  }

  /** The least of the schedule's days from today on; it is within thirteen months unless the stored one is later. */
  lemma FirstIsInRange(due: Day, frequency: Frequency, today: Day) returns (next: Day)
    ensures IsFirstFrom(next, due, frequency, today)
    ensures AtMost(next, ShiftMonths(today, 13)) <==> AtMost(due, ShiftMonths(today, 13))
  {
    hide DueAfter, MonthStart, LengthAt, Ordinal, AtMost, Before;
    var last := ShiftMonths(today, 13);
    DueNow(due, frequency);
    var c := CyclesPast(due, frequency, Plus(today, -1), 0);
    next := DueAfter(due, frequency, c);
    OrderIsOrdinal(Plus(today, -1), next);
    OrderIsOrdinal(today, next);
    forall k: nat | AtMost(today, DueAfter(due, frequency, k))
      ensures AtMost(next, DueAfter(due, frequency, k))
    {
      OrderIsOrdinal(today, DueAfter(due, frequency, k));
      OrderIsOrdinal(next, DueAfter(due, frequency, k));
      if c <= k {
        DueInOrder(due, frequency, c, k);
      } else {
        OrderIsOrdinal(DueAfter(due, frequency, c - 1), Plus(today, -1));
        DueInOrder(due, frequency, k, c - 1);
      }
    }
    OrderIsOrdinal(due, last);
    OrderIsOrdinal(next, last);
    if c > 0 {
      OrderIsOrdinal(DueAfter(due, frequency, c - 1), Plus(today, -1));
      NextIsWithinAYear(due, frequency, c - 1, today);
      DueInOrder(due, frequency, 0, c - 1);
      ShiftIncreases(today, 0, 13);
      ShiftByNone(today);
    }
  }

  /** The dates listed from a day on start with the least there is, if that is listed at all. */
  lemma ListStartsWithFirst(days: seq<Day>, due: Day, frequency: Frequency, first: Day, last: Day, next: Day)
    requires Lists(days, due, frequency, first, last) && IsFirstFrom(next, due, frequency, first)
    ensures if AtMost(next, last) then days != [] && days[0] == next else days == []
  {
    hide DueAfter, Ordinal, AtMost, Before, MonthStart, LengthAt;
    OrderIsOrdinal(next, last);
    if days != [] {
      assert days[0] in days;
      OrderIsOrdinal(next, days[0]);
      OrderIsOrdinal(days[0], last);
    }
    if AtMost(next, last) {
      assert IsDue(next, due, frequency, first, last);
      var i :| 0 <= i < |days| && days[i] == next;
      OrderIsOrdinal(days[0], next);
    }
  }

  lemma FirstWithinThirteenMonths(days: seq<Day>, due: Day, frequency: Frequency, today: Day)
    requires Lists(days, due, frequency, today, ShiftMonths(today, 13))
    ensures days == [] <==> Before(ShiftMonths(today, 13), due)
    ensures days != [] ==> IsFirstFrom(days[0], due, frequency, today)
  {
    hide Lists, IsFirstFrom, Ordinal, AtMost, Before, MonthStart, LengthAt;
    var next := FirstIsInRange(due, frequency, today);
    ListStartsWithFirst(days, due, frequency, today, ShiftMonths(today, 13), next);
    OrderIsOrdinal(due, ShiftMonths(today, 13));
    OrderIsOrdinal(ShiftMonths(today, 13), due);
  }

  lemma ListsBeforeTheEnd(days: seq<Day>, due: Day, frequency: Frequency, first: Day, last: Day, endsOn: Option<Day>)
    requires Lists(days, due, frequency, first, LastDay(last, endsOn))
    ensures Increasing(days)
    ensures forall d: Day :: d in days <==>
        && AtMost(first, d) && AtMost(d, last) && (endsOn.Some? ==> Before(d, endsOn.value))
        && exists c: nat :: d == DueAfter(due, frequency, c)
  {
    hide DueAfter, AtMost, Before, LastDay;
    forall d: Day {
      LastDayIsBeforeTheEnd(last, endsOn, d);
    }
  }

  class Subscription {
    var frequency: Frequency
    var nextDueDate: Day
    var endsOn: Option<Day>
    var cancelledOn: Option<Day>
    var active: bool

    constructor (frequency: Frequency, nextDueDate: Day, endsOn: Option<Day>)
      ensures this.frequency == frequency && this.nextDueDate == nextDueDate && this.endsOn == endsOn
      ensures cancelledOn == None && active
    {
      this.frequency, this.nextDueDate, this.endsOn := frequency, nextDueDate, endsOn;
      cancelledOn, active := None, true;
    }

    /** Lists exactly the due dates from `first` to `last`, before the day it ends. */
    method DueDates(first: Day, last: Day) returns (days: seq<Day>)
      ensures Lists(days, nextDueDate, frequency, first, LastDay(last, endsOn))
      ensures Increasing(days)
      ensures forall d: Day :: d in days <==>
          && AtMost(first, d) && AtMost(d, last) && (endsOn.Some? ==> Before(d, endsOn.value))
          && exists c: nat :: d == DueAfter(nextDueDate, frequency, c)
    {
      var due, end := nextDueDate, LastDay(last, endsOn);
      hide DueAfter, MonthStart, LengthAt, Ordinal, AtMost, Before, FirstCycle, Lists, LastDay;
      var cycles: nat := FirstCycle(due, frequency, first);
      forall c: nat | c < cycles
        ensures Before(DueAfter(due, frequency, c), first)
      {
        SkipPassesNothing(due, frequency, first, c);
        OrderIsOrdinal(DueAfter(due, frequency, c), first);
      }
      while Before(DueAfter(due, frequency, cycles), first)
        invariant forall c: nat :: c < cycles ==> Before(DueAfter(due, frequency, c), first)
        decreases Ordinal(first) - Ordinal(DueAfter(due, frequency, cycles))
      {
        DueIncreases(due, frequency, cycles, cycles + 1);
        OrderIsOrdinal(DueAfter(due, frequency, cycles), first);
        cycles := cycles + 1;
      }
      ghost var start: nat := cycles;
      OrderIsOrdinal(first, DueAfter(due, frequency, start));
      OrderIsOrdinal(DueAfter(due, frequency, start), first);
      days := [];
      while AtMost(DueAfter(due, frequency, cycles), end)
        invariant cycles == start + |days|
        invariant forall i :: 0 <= i < |days| ==> days[i] == DueAfter(due, frequency, start + i) && AtMost(days[i], end)
        decreases Ordinal(end) - Ordinal(DueAfter(due, frequency, cycles))
      {
        DueIncreases(due, frequency, cycles, cycles + 1);
        OrderIsOrdinal(DueAfter(due, frequency, cycles), end);
        days := days + [DueAfter(due, frequency, cycles)];
        cycles := cycles + 1;
      }
      OrderIsOrdinal(end, DueAfter(due, frequency, cycles));
      OrderIsOrdinal(DueAfter(due, frequency, cycles), end);
      RunListsDue(days, due, frequency, first, end, start);
      ListsBeforeTheEnd(days, due, frequency, first, last, endsOn);
    }

    /** Moves the next due date past every payment that one on `paidOn` settles. */
    method AdvanceDueDate(paidOn: Day)
      modifies this`nextDueDate
      ensures nextDueDate == Advanced(old(nextDueDate), frequency, paidOn)
    {
      hide DueAfter, MonthStart, LengthAt, Ordinal, AtMost, Before;
      var settled, due := Plus(paidOn, frequency.Early()), nextDueDate;
      var cycles: nat := 0;
      while AtMost(DueAfter(due, frequency, cycles), settled)
        invariant nextDueDate == due
        invariant cycles > 0 ==> Ordinal(DueAfter(due, frequency, cycles - 1)) <= Ordinal(settled)
        decreases Ordinal(settled) - Ordinal(DueAfter(due, frequency, cycles))
      {
        DueIncreases(due, frequency, cycles, cycles + 1);
        OrderIsOrdinal(DueAfter(due, frequency, cycles), settled);
        OrderIsOrdinal(settled, DueAfter(due, frequency, cycles));
        cycles := cycles + 1;
      }
      OrderIsOrdinal(settled, DueAfter(due, frequency, cycles));
      OrderIsOrdinal(DueAfter(due, frequency, cycles), settled);
      DueNow(due, frequency);
      AdvancedTo(due, frequency, paidOn, cycles);
      if cycles > 0 {
        nextDueDate := DueAfter(due, frequency, cycles);
      }
    }
  
    predicate IsStopped(today: Day)
      reads this
    {
      cancelledOn.Some? || (endsOn.Some? && AtMost(endsOn.value, today))
    }

    /** Picks a stopped one up again. Its next payment is the day chosen, or the least of its old
        schedule's days from `today` on; there is none to find, and nothing changes, exactly when
        the stored due date is more than thirteen months ahead. */
    method Reactivate(today: Day, accountClosed: bool, chosen: Option<Day>) returns (outcome: Reactivation)
      modifies this
      ensures outcome.NotStopped? <==>
          old(cancelledOn).None? && (old(endsOn).Some? ==> Before(today, old(endsOn).value))
      ensures outcome.AccountClosed? <==> !outcome.NotStopped? && accountClosed
      ensures outcome.NoDateInRange? <==>
          !outcome.NotStopped? && !accountClosed && chosen.None? && Before(ShiftMonths(today, 13), old(nextDueDate))
      ensures frequency == old(frequency)
      ensures outcome.Reactivated? ==> cancelledOn == None && endsOn == None && active
      ensures outcome.Reactivated? && chosen.Some? ==> nextDueDate == chosen.value
      ensures outcome.Reactivated? && chosen.None? ==> IsFirstFrom(nextDueDate, old(nextDueDate), frequency, today)
      ensures !outcome.Reactivated? ==> cancelledOn == old(cancelledOn) && endsOn == old(endsOn)
      ensures !outcome.Reactivated? ==> active == old(active) && nextDueDate == old(nextDueDate)
    {
      if endsOn.Some? {
        OrderIsOrdinal(endsOn.value, today);
        OrderIsOrdinal(today, endsOn.value);
      }
      if !IsStopped(today) {
        return NotStopped;
      }
      if accountClosed {
        return AccountClosed;
      }
      var before := (cancelledOn, endsOn, active);
      cancelledOn, endsOn, active := None, None, true;
      if chosen.Some? {
        nextDueDate := chosen.value;
        return Reactivated;
      }
      var days := DueDates(today, ShiftMonths(today, 13));
      FirstWithinThirteenMonths(days, nextDueDate, frequency, today);
      if days == [] {
        // The request fails, and what it changed is rolled back.
        cancelledOn, endsOn, active := before.0, before.1, before.2;
        return NoDateInRange;
      }
      nextDueDate := days[0];
      outcome := Reactivated;
    }
  }
}
