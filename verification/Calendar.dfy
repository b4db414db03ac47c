/** The proleptic Gregorian calendar behind `datetime`, counted in days since 0001-01-01. */
module Calendar {
  import opened Arithmetic

  datatype Date = Date(year: nat, month: nat, day: nat)

  predicate IsLeap(year: nat) {
    year % 4 == 0 && (year % 100 != 0 || year % 400 == 0)
  }

  /** `calendar.monthrange(year, month)[1]`. */
  function DaysInMonth(year: nat, month: nat): (days: nat)
    ensures 28 <= days <= 31
  {
    if month == 2 then (if IsLeap(year) then 29 else 28)
    else if month in {4, 6, 9, 11} then 30
    else 31
  }

  predicate IsDate(d: Date) {
    1 <= d.year && 1 <= d.month <= 12 && 1 <= d.day <= DaysInMonth(d.year, d.month)
  }

  function NextDay(d: Date): (next: Date)
    requires IsDate(d)
    ensures IsDate(next)
  {
    if d.day < DaysInMonth(d.year, d.month) then d.(day := d.day + 1)
    else if d.month < 12 then Date(d.year, d.month + 1, 1)
    else Date(d.year + 1, 1, 1)
  }

  /** The calendar, counted out one day at a time. */
  function DateOf(n: nat): (d: Date)
    ensures IsDate(d)
  {
    if n == 0 then Date(1, 1, 1) else NextDay(DateOf(n - 1))
  }

  /** `datetime.weekday()`: Monday is 0, and 0001-01-01 was a Monday. */
  function Weekday(n: nat): (w: nat)
    ensures w < 7
  {
    n % 7
  }

  function DaysBeforeYear(year: nat): (n: nat)
    requires 1 <= year
  {
    365 * (year - 1) + (year - 1) / 4 - (year - 1) / 100 + (year - 1) / 400
  }

  function DaysBeforeMonth(year: nat, month: nat): nat {
    if month <= 1 then 0 else DaysBeforeMonth(year, month - 1) + DaysInMonth(year, month - 1)
  }

  /** The number of days before a date, in closed form. */
  function Ordinal(d: Date): nat
    requires IsDate(d)
  {
    DaysBeforeYear(d.year) + DaysBeforeMonth(d.year, d.month) + d.day - 1
  }

  lemma YearLength(year: nat)
    requires 1 <= year
    ensures DaysBeforeYear(year + 1) == DaysBeforeYear(year) + (if IsLeap(year) then 366 else 365)
  {
    QuotientOfNext(year - 1, 4);
    QuotientOfNext(year - 1, 100);
    QuotientOfNext(year - 1, 400);
    MultipleOfMultiple(year, 25, 4);
    MultipleOfMultiple(year, 4, 100);
  }

  lemma MonthsFillTheYear(year: nat)
    ensures DaysBeforeMonth(year, 13) == if IsLeap(year) then 366 else 365
  {
    var feb := DaysInMonth(year, 2);
    assert DaysBeforeMonth(year, 2) == 31;
    assert DaysBeforeMonth(year, 3) == 31 + feb;
    assert DaysBeforeMonth(year, 5) == 31 + feb + 61;
    assert DaysBeforeMonth(year, 7) == 31 + feb + 122;
    assert DaysBeforeMonth(year, 9) == 31 + feb + 184;
    assert DaysBeforeMonth(year, 11) == 31 + feb + 245;
    assert DaysBeforeMonth(year, 13) == 31 + feb + 306;
  }

  lemma {:induction false} MonthsAreOrdered(year: nat, m: nat, n: nat)
    requires 1 <= m < n
    ensures DaysBeforeMonth(year, m) + DaysInMonth(year, m) <= DaysBeforeMonth(year, n)
  {
    if m + 1 < n {
      MonthsAreOrdered(year, m, n - 1);
    }
  }

  lemma {:induction false} YearsAreOrdered(x: nat, y: nat)
    requires 1 <= x <= y
    ensures DaysBeforeYear(x) <= DaysBeforeYear(y)
    decreases y
  {
    if x < y {
      YearLength(y - 1);
      YearsAreOrdered(x, y - 1);
    }
  }

  lemma OrdinalIsWithinYear(d: Date)
    requires IsDate(d)
    ensures DaysBeforeYear(d.year) <= Ordinal(d) < DaysBeforeYear(d.year + 1)
  {
    YearLength(d.year);
    MonthsFillTheYear(d.year);
    MonthsAreOrdered(d.year, d.month, 13);
  }

  predicate Earlier(d: Date, e: Date) {
    || d.year < e.year
    || (d.year == e.year && d.month < e.month)
    || (d.year == e.year && d.month == e.month && d.day < e.day)
  }

  lemma OrdinalIsMonotone(d: Date, e: Date)
    requires IsDate(d) && IsDate(e) && Earlier(d, e)
    ensures Ordinal(d) < Ordinal(e)
  {
    OrdinalIsWithinYear(d);
    OrdinalIsWithinYear(e);
    if d.year < e.year {
      YearsAreOrdered(d.year + 1, e.year);
    } else if d.month < e.month {
      MonthsAreOrdered(d.year, d.month, e.month);
    }
  }

  lemma OrdinalOfNextDay(d: Date)
    requires IsDate(d)
    ensures Ordinal(NextDay(d)) == Ordinal(d) + 1
  {
    YearLength(d.year);
    MonthsFillTheYear(d.year);
  }

  lemma {:induction false} OrdinalOfDateOf(n: nat)
    ensures Ordinal(DateOf(n)) == n
  {
    if n > 0 {
      OrdinalOfDateOf(n - 1);
      OrdinalOfNextDay(DateOf(n - 1));
    }
  }

  /** Counting days and the closed form are inverse to each other. */
  lemma DateOfOrdinal(d: Date)
    requires IsDate(d)
    ensures DateOf(Ordinal(d)) == d
  {
    var e := DateOf(Ordinal(d));
    OrdinalOfDateOf(Ordinal(d));
    if Earlier(d, e) {
      OrdinalIsMonotone(d, e);
    } else if Earlier(e, d) {
      OrdinalIsMonotone(e, d);
    }
  }

  /** Twenty years hold at most five leap days. */
  lemma TwentyYears(year: nat)
    requires 1 <= year
    ensures DaysBeforeYear(year + 20) <= DaysBeforeYear(year) + 7305
  {
    var n := year - 1;
    var century, later := n / 100, (n + 20) / 100;
    assert n / 400 == century / 4 && (n + 20) / 400 == later / 4;
    assert later - later / 4 >= century - century / 4;
  }

  /** The day of `month`/`day` in `year`, also where that date does not exist. */
  function Slot(year: nat, month: nat, day: nat): nat
    requires 1 <= year && 1 <= day
  {
    DaysBeforeYear(year) + DaysBeforeMonth(year, month) + day - 1
  }

  lemma {:induction false} LeapDayIsOneDay(x: nat, y: nat, month: nat)
    ensures DaysBeforeMonth(x, month) <= DaysBeforeMonth(y, month) + (if month <= 2 then 0 else 1)
  {
    if month > 1 {
      LeapDayIsOneDay(x, y, month - 1);
    }
  }

  // ----- Days of the week -----

  /** January and February count as the last months of the year before. */
  function ShiftedYear(d: Date): int {
    if d.month <= 2 then d.year - 1 else d.year
  }

  function ShiftedMonth(d: Date): int {
    if d.month <= 2 then d.month + 12 else d.month
  }

  /** The day of the week of a date, counted from Sunday, by Zeller's congruence for the Gregorian calendar. */
  function DayOfWeek(d: Date): (w: nat)
    ensures w < 7
  {
    var y := ShiftedYear(d);
    (d.day + 13 * (ShiftedMonth(d) + 1) / 5 + y + y / 4 - y / 100 + y / 400 + 6) % 7
  }

  /** The days before a month of a year that begins in March, less those of a whole number of weeks. */
  lemma DaysBeforeShiftedMonth(d: Date)
    requires IsDate(d)
    ensures d.month <= 2 ==> DaysBeforeMonth(d.year, d.month) == 31 * (d.month - 1)
    ensures d.month > 2 ==>
      DaysBeforeMonth(d.year, d.month) == (if IsLeap(d.year) then 60 else 59) + (153 * (d.month - 3) + 2) / 5
  {
    hide IsLeap;
    var y, feb := d.year, DaysInMonth(d.year, 2);
    assert DaysBeforeMonth(y, 2) == 31;
    assert DaysBeforeMonth(y, 3) == 31 + feb;
    assert DaysBeforeMonth(y, 5) == 31 + feb + 61;
    assert DaysBeforeMonth(y, 7) == 31 + feb + 122;
    assert DaysBeforeMonth(y, 9) == 31 + feb + 184;
    assert DaysBeforeMonth(y, 11) == 31 + feb + 245;
    assert DaysBeforeMonth(y, 12) == 31 + feb + 275;
    assert d.month in {1, 2, 3, 4, 5, 6, 7, 8, 9, 10, 11, 12};
  }

  /** The days before a date, counted from the first of March of the year 0. */
  lemma OrdinalFromMarch(d: Date)
    requires IsDate(d)
    ensures var y, m := ShiftedYear(d), ShiftedMonth(d);
      Ordinal(d) == 365 * y + y / 4 - y / 100 + y / 400 + (153 * (m - 3) + 2) / 5 + d.day - 307
  {
    DaysBeforeShiftedMonth(d);
    if d.month > 2 {
      YearLength(d.year);
    }
  }

  /** Two ways to count the months, seven days apart or not at all. */
  lemma MonthsOfWeeks(m: int)
    requires 3 <= m <= 14
    ensures ((153 * (m - 3) + 2) / 5 - 13 * (m + 1) / 5 + 10) % 7 == 0
  {
    assert m in {3, 4, 5, 6, 7, 8, 9, 10, 11, 12, 13, 14};
  }

  lemma SameDay(a: int, b: int, weeks: int)
    ensures a == b + 7 * weeks ==> a % 7 == b % 7
  {}

  /** Counting days of the week from a Monday agrees with the congruence, for every date. */
  lemma WeekdayOfDate(d: Date)
    requires IsDate(d)
    ensures (Weekday(Ordinal(d)) + 1) % 7 == DayOfWeek(d)
  {
    hide Ordinal;
    OrdinalFromMarch(d);
    var y, m, n: int := ShiftedYear(d), ShiftedMonth(d), Ordinal(d);
    MonthsOfWeeks(m);
    var k := ((153 * (m - 3) + 2) / 5 - 13 * (m + 1) / 5 + 10) / 7;
    SameDay(n + 1, d.day + 13 * (m + 1) / 5 + y + y / 4 - y / 100 + y / 400 + 6, 52 * y + k - 46);
    SameDay(n % 7 + 1, n + 1, -(n / 7));
  }

  /** One day is one day of the week further. */
  lemma NextDayOfWeek(d: Date)
    requires IsDate(d)
    ensures DayOfWeek(NextDay(d)) == (DayOfWeek(d) + 1) % 7
  {
    hide Ordinal, DayOfWeek, NextDay;
    WeekdayOfDate(d);
    WeekdayOfDate(NextDay(d));
    OrdinalOfNextDay(d);
    var n: int := Ordinal(d);
    SameDay(n % 7 + 2, n + 2, -(n / 7));
    SameDay((n + 1) % 7 + 1, n + 2, -((n + 1) / 7));
    SameDay((n % 7 + 1) % 7 + 1, n % 7 + 2, -((n % 7 + 1) / 7));
  }
}
