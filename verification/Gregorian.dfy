/** The Gregorian calendar as `datetime.date` has it, without its limits on the year.
    A day is a year, a month and a day of the month; counting days goes through its ordinal.
    Everything the schedules need is proved here: the two forms are isomorphic, the order of
    days is the order of ordinals, and shifting by months clamps to the end of a short month. */
module Gregorian {

  datatype Date = Date(year: int, month: int, day: int)

  predicate IsLeap(year: int) {
    year % 4 == 0 && (year % 100 != 0 || year % 400 == 0)
  }

  function MonthLength(year: int, month: int): int {
    if month == 2 then if IsLeap(year) then 29 else 28
    else if month in {4, 6, 9, 11} then 30
    else 31
  }

  predicate IsDay(d: Date) {
    1 <= d.month <= 12 && 1 <= d.day <= MonthLength(d.year, d.month)
  }

  type Day = d: Date | IsDay(d) witness Date(1970, 1, 1)

  /** Days compare field by field, as tuples do. */
  predicate Before(a: Date, b: Date) {
    a.year < b.year || (a.year == b.year && (a.month < b.month || (a.month == b.month && a.day < b.day)))
  }

  predicate AtMost(a: Date, b: Date) {
    a == b || Before(a, b)
  }

  function Earlier(a: Day, b: Day): Day {
    if Before(b, a) then b else a
  }

  function Later(a: Day, b: Day): Day {
    if Before(a, b) then b else a
  }

  // ---- Months, counted from the first month of year 0 ----

  function MonthIndex(d: Date): int {
    d.year * 12 + d.month - 1
  }

  function LengthAt(index: int): int {
    MonthLength(index / 12, index % 12 + 1)
  }

  function Clamped(index: int, day: int): (r: Day)
    requires day >= 1
    ensures MonthIndex(r) == index
    ensures r.day == if day <= LengthAt(index) then day else LengthAt(index)
  {
    Date(index / 12, index % 12 + 1, if day <= LengthAt(index) then day else LengthAt(index))
  }

  /** The day `months` months on, or the last day of a month too short to have it. */
  function ShiftMonths(anchor: Day, months: int): (r: Day)
    ensures MonthIndex(r) == MonthIndex(anchor) + months
    ensures r.day == if anchor.day <= LengthAt(MonthIndex(r)) then anchor.day else LengthAt(MonthIndex(r))
  {
    Clamped(MonthIndex(anchor) + months, anchor.day)
  }

  // ---- Ordinals ----

  /** How many days there are from the first of month 0 to the first of this month. */
  function MonthStart(index: int): int
    decreases if index < 0 then -index else index
  {
    if index == 0 then 0
    else if index > 0 then MonthStart(index - 1) + LengthAt(index - 1)
    else MonthStart(index + 1) - LengthAt(index)
  }

  function Ordinal(d: Day): int {
    MonthStart(MonthIndex(d)) + d.day
  }

  lemma MonthStep(index: int)
    ensures MonthStart(index + 1) == MonthStart(index) + LengthAt(index)
    ensures 28 <= LengthAt(index) <= 31
  {
  }

  /** `count` months are between 28 and 31 days each. */
  lemma {:induction false} MonthsSpan(index: int, count: nat)
    ensures 28 * count <= MonthStart(index + count) - MonthStart(index) <= 31 * count
    decreases count
  {
    hide MonthStart, LengthAt;
    if count > 0 {
      MonthsSpan(index, count - 1);
      MonthStep(index + (count - 1));
      assert index + (count - 1) + 1 == index + count;
    }
  }

  lemma SameMonthAndDay(a: Day, b: Day)
    ensures MonthIndex(a) == MonthIndex(b) && a.day == b.day <==> a == b
  {
  }

  lemma LaterMonth(a: Day, b: Day)
    requires MonthIndex(a) < MonthIndex(b)
    ensures Ordinal(a) < Ordinal(b) && Before(a, b) && !Before(b, a)
  {
    hide MonthStart;
    var i, j := MonthIndex(a), MonthIndex(b);
    assert i / 12 == a.year && i % 12 + 1 == a.month;
    MonthStep(i);
    MonthsSpan(i + 1, j - i - 1);
  }

  /** The calendar's order is the order of ordinals. */
  lemma OrderIsOrdinal(a: Day, b: Day)
    ensures Before(a, b) <==> Ordinal(a) < Ordinal(b)
    ensures AtMost(a, b) <==> Ordinal(a) <= Ordinal(b)
    ensures a == b <==> Ordinal(a) == Ordinal(b)
    ensures Before(a, b) <==> MonthIndex(a) < MonthIndex(b) || (MonthIndex(a) == MonthIndex(b) && a.day < b.day)
  {
    SameMonthAndDay(a, b);
    if MonthIndex(a) < MonthIndex(b) {
      LaterMonth(a, b);
    } else if MonthIndex(b) < MonthIndex(a) {
      LaterMonth(b, a);
    }
  }

  /** The month an ordinal falls in, looked for from month `from`. */
  function MonthOf(ordinal: int, from: int): (index: int)
    ensures MonthStart(index) < ordinal <= MonthStart(index) + LengthAt(index)
    decreases if ordinal <= MonthStart(from) then MonthStart(from) - ordinal + 1
              else if ordinal > MonthStart(from) + LengthAt(from) then ordinal - MonthStart(from) else 0
  {
    MonthStep(from);
    MonthStep(from - 1);
    if ordinal <= MonthStart(from) then MonthOf(ordinal, from - 1)
    else if ordinal > MonthStart(from) + LengthAt(from) then MonthOf(ordinal, from + 1)
    else from
  }

  function FromOrdinal(ordinal: int): (d: Day)
    ensures Ordinal(d) == ordinal
  {
    var index := MonthOf(ordinal, 0);
    Clamped(index, ordinal - MonthStart(index))
  }

  lemma OrdinalRoundTrip(d: Day)
    ensures FromOrdinal(Ordinal(d)) == d
  {
    OrderIsOrdinal(FromOrdinal(Ordinal(d)), d);
  }

  /** The day `days` days on, or before when negative. */
  function Plus(d: Day, days: int): (r: Day)
    ensures Ordinal(r) == Ordinal(d) + days
  {
    FromOrdinal(Ordinal(d) + days)
  }

  // ---- Shifting by months ----

  /** More months is strictly later, whatever is clamped. */
  lemma ShiftIncreases(anchor: Day, j: int, k: int)
    requires j < k
    ensures Before(ShiftMonths(anchor, j), ShiftMonths(anchor, k))
    ensures Ordinal(ShiftMonths(anchor, j)) < Ordinal(ShiftMonths(anchor, k))
  {
    LaterMonth(ShiftMonths(anchor, j), ShiftMonths(anchor, k));
  }

  lemma ShiftByNone(anchor: Day)
    ensures ShiftMonths(anchor, 0) == anchor
  {
    SameMonthAndDay(ShiftMonths(anchor, 0), anchor);
  }

  /** Counted from a day the month doesn't clamp, `months` months never take more than 31 days each. */
  lemma ShiftIsShort(anchor: Day, months: nat)
    ensures Ordinal(ShiftMonths(anchor, months)) - Ordinal(anchor) <= 31 * months
  {
    MonthsSpan(MonthIndex(anchor), months);
  }

  lemma FoursDropOut(x: int, y: int)
    ensures (x + 4 * y) % 4 == x % 4
  {
  }

  lemma HundredsDropOut(x: int, y: int)
    ensures (x + 100 * y) % 100 == x % 100
  {
  }

  lemma FourHundredsDropOut(x: int, y: int)
    ensures (x + 400 * y) % 400 == x % 400
  {
  }

  lemma LeapsRepeat(year: int, cycles: int)
    ensures IsLeap(year + 400 * cycles) == IsLeap(year)
  {
    var far := year + 400 * cycles;
    assert far % 4 == year % 4 by { FoursDropOut(year, 100 * cycles); }
    assert far % 100 == year % 100 by { HundredsDropOut(year, 4 * cycles); }
    assert far % 400 == year % 400 by { FourHundredsDropOut(year, cycles); }
  }

  /** The calendar repeats every 400 years. */
  lemma Repeats(index: int, cycles: int)
    ensures LengthAt(index + 4800 * cycles) == LengthAt(index)
  {
    hide IsLeap;
    var far := index + 4800 * cycles;
    assert far / 12 == index / 12 + 400 * cycles && far % 12 == index % 12;
    LeapsRepeat(index / 12, cycles);
  }

  // ---- Day numbers without counting months ----

  /** The days of a year before each month, in a year that isn't a leap year. */
  const BEFORE_MONTH := [0, 31, 59, 90, 120, 151, 181, 212, 243, 273, 304, 334]

  /** The days there are before a year: 365 each and the leap days, one every fourth year but only every
      fourth century. */
  function BeforeYear(year: int): int {
    var past := year - 1;
    365 * past + past / 4 - past / 100 + past / 400
  }

  /** The day's number since the first day of year 1, as dates are numbered. */
  function Numbered(index: int): int {
    var year, month := index / 12, index % 12;
    BeforeYear(year) + BEFORE_MONTH[month]
    + if month >= 2 && year % 4 == 0 && (year % 100 != 0 || year % 400 == 0) then 1 else 0
  }

  lemma FourthYears(year: int)
    ensures year / 4 - (year - 1) / 4 == if year % 4 == 0 then 1 else 0
  {
  }

  lemma Centuries(year: int)
    ensures year / 100 - (year - 1) / 100 == if year % 100 == 0 then 1 else 0
  {
  }

  lemma FourthCenturies(year: int)
    ensures year / 400 - (year - 1) / 400 == if year % 400 == 0 then 1 else 0
  {
  }

  lemma CenturiesAreFourthYears(year: int)
    requires year % 100 == 0
    ensures year % 4 == 0
  {
    var count := year / 100;
    assert year == 100 * count;
    FoursDropOut(0, 25 * count);
  }

  lemma FourthCenturiesAreCenturies(year: int)
    requires year % 400 == 0
    ensures year % 100 == 0
  {
    var count := year / 400;
    assert year == 400 * count;
    HundredsDropOut(0, 4 * count);
  }

  lemma NextYear(year: int)
    ensures BeforeYear(year + 1) == BeforeYear(year) + if IsLeap(year) then 366 else 365
  {
    FourthYears(year);
    Centuries(year);
    FourthCenturies(year);
    if year % 100 == 0 { CenturiesAreFourthYears(year); }
    if year % 400 == 0 { FourthCenturiesAreCenturies(year); }
  }

  lemma NextNumbered(index: int)
    ensures Numbered(index + 1) == Numbered(index) + LengthAt(index)
  {
    hide BeforeYear;
    NextYear(index / 12);
    assert if index % 12 == 11 then (index + 1) / 12 == index / 12 + 1 && (index + 1) % 12 == 0
      else (index + 1) / 12 == index / 12 && (index + 1) % 12 == index % 12 + 1;
  }

  lemma {:induction false} MonthsAreNumbered(index: int)
    ensures MonthStart(index) == Numbered(index) - Numbered(0)
    decreases if index < 0 then -index else index
  {
    hide Numbered;
    if index > 0 {
      MonthsAreNumbered(index - 1);
      NextNumbered(index - 1);
    } else if index < 0 {
      MonthsAreNumbered(index + 1);
      NextNumbered(index);
    }
  }

  /** Counting month by month comes to the closed form: two days are as far apart as their numbers by
      whole years, leap days, whole months and days. */
  lemma DaysAreNumbered(a: Day, b: Day)
    ensures Ordinal(b) - Ordinal(a) == Numbered(MonthIndex(b)) + b.day - Numbered(MonthIndex(a)) - a.day
  {
    hide Numbered;
    MonthsAreNumbered(MonthIndex(a));
    MonthsAreNumbered(MonthIndex(b));
  }
}
