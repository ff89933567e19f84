/** The proleptic Gregorian calendar of `datetime.date`: a formula for day numbers, and counting day by day. */
module Calendar {

  datatype Date = Date(year: int, month: int, day: int)

  predicate Leap(year: int) {
    year % 4 == 0 && (year % 100 != 0 || year % 400 == 0)
  }

  function DaysInYear(year: int): int {
    if Leap(year) then 366 else 365
  }

  function DaysInMonth(year: int, month: int): (n: int)
    ensures 28 <= n <= 31
  {
    if month == 2 then (if Leap(year) then 29 else 28)
    else if month == 4 || month == 6 || month == 9 || month == 11 then 30
    else 31
  }

  /** Month lengths alternate between 31 and 30, start again in August, and February has 28 days or 29. */
  lemma MonthLengths(year: int, month: int)
    requires 1 <= month <= 12
    ensures DaysInMonth(year, month)
            == if month == 2 then 28 + (if year % (if year % 100 == 0 then 400 else 4) == 0 then 1 else 0)
               else 30 + (month + month / 8) % 2
  {
  }

  /** A day `date(year, month, day)` accepts. */
  predicate Real(d: Date) {
    1 <= d.year <= 9999 && 1 <= d.month <= 12 && 1 <= d.day <= DaysInMonth(d.year, d.month)
  }

  function DaysBeforeYear(year: int): int {
    (year - 1) * 365 + (year - 1) / 4 - (year - 1) / 100 + (year - 1) / 400
  }

  function DaysBeforeMonth(year: int, month: nat): nat {
    if month <= 1 then 0 else DaysBeforeMonth(year, month - 1) + DaysInMonth(year, month - 1)
  }

  /** Days since 1 January of year 1. */
  function Ordinal(d: Date): int
    requires Real(d)
  {
    DaysBeforeYear(d.year) + DaysBeforeMonth(d.year, d.month) + d.day - 1
  }

  /** The days of the years 1 to 9999. */
  const DAYS: nat := 3652059
  const LAST := Date(9999, 12, 31)

  function NextDay(d: Date): Date {
    if d.day < DaysInMonth(d.year, d.month) then Date(d.year, d.month, d.day + 1)
    else if d.month < 12 then Date(d.year, d.month + 1, 1)
    else Date(d.year + 1, 1, 1)
  }

  /** The date reached by counting `n` days from the first. */
  function DateOf(n: nat): Date {
    if n == 0 then Date(1, 1, 1) else NextDay(DateOf(n - 1))
  }

  predicate DateLess(a: Date, b: Date) {
    a.year < b.year || (a.year == b.year && (a.month < b.month || (a.month == b.month && a.day < b.day)))
  }

  lemma YearStep(year: int)
    ensures DaysBeforeYear(year + 1) == DaysBeforeYear(year) + DaysInYear(year)
  {
    assert year / 4 - (year - 1) / 4 == if year % 4 == 0 then 1 else 0;
    assert year / 100 - (year - 1) / 100 == if year % 100 == 0 then 1 else 0;
    assert year / 400 - (year - 1) / 400 == if year % 400 == 0 then 1 else 0;
  }

  lemma {:induction false} YearsGrow(a: int, b: int)
    requires a <= b
    ensures DaysBeforeYear(a) <= DaysBeforeYear(b)
    decreases b - a
  {
    if a < b {
      YearStep(a);
      YearsGrow(a + 1, b);
    }
  }

  lemma {:induction false} MonthsGrow(year: int, a: nat, b: nat)
    requires 1 <= a <= b
    ensures DaysBeforeMonth(year, a) <= DaysBeforeMonth(year, b)
  {
    if a < b { MonthsGrow(year, a, b - 1); }
  }

  lemma MonthsFillYear(year: int)
    ensures DaysBeforeMonth(year, 13) == DaysInYear(year)
  {
    var (m3, m6, m9) := (DaysBeforeMonth(year, 3), DaysBeforeMonth(year, 6), DaysBeforeMonth(year, 9));
    assert m3 == 31 + DaysInMonth(year, 2) by { assert DaysBeforeMonth(year, 2) == 31; }
    assert m6 == m3 + 92 by { assert DaysBeforeMonth(year, 4) == m3 + 31; assert DaysBeforeMonth(year, 5) == m3 + 61; }
    assert m9 == m6 + 92 by { assert DaysBeforeMonth(year, 7) == m6 + 30; assert DaysBeforeMonth(year, 8) == m6 + 61; }
    assert DaysBeforeMonth(year, 10) == m9 + 30;
    assert DaysBeforeMonth(year, 11) == m9 + 61;
    assert DaysBeforeMonth(year, 12) == m9 + 91;
  }

  lemma DayIsInItsYear(d: Date)
    requires Real(d)
    ensures DaysBeforeYear(d.year) <= Ordinal(d) < DaysBeforeYear(d.year + 1)
    ensures Ordinal(d) < DaysBeforeYear(d.year) + DaysBeforeMonth(d.year, d.month + 1)
  {
    YearStep(d.year);
    MonthsGrow(d.year, d.month + 1, 13);
    MonthsFillYear(d.year);
  }

  /** The formula agrees with counting: the next day has the next number, across months and leap years. */
  lemma NextDayIsNext(d: Date)
    requires Real(d) && d != LAST
    ensures Real(NextDay(d)) && Ordinal(NextDay(d)) == Ordinal(d) + 1
  {
    if d.day == DaysInMonth(d.year, d.month) && d.month == 12 {
      YearStep(d.year);
      MonthsFillYear(d.year);
    }
  }

  /** Calendar order is the order of day numbers. */
  lemma OrdinalOrder(a: Date, b: Date)
    requires Real(a) && Real(b)
    ensures DateLess(a, b) <==> Ordinal(a) < Ordinal(b)
  {
    if DateLess(a, b) { OrdinalGrows(a, b); }
    if DateLess(b, a) { OrdinalGrows(b, a); }
  }

  lemma OrdinalGrows(a: Date, b: Date)
    requires Real(a) && Real(b) && DateLess(a, b)
    ensures Ordinal(a) < Ordinal(b)
  {
    DayIsInItsYear(a);
    DayIsInItsYear(b);
    if a.year < b.year {
      YearsGrow(a.year + 1, b.year);
    } else if a.month < b.month {
      MonthsGrow(a.year, a.month + 1, b.month);
    }
  }

  lemma OrdinalRange(d: Date)
    requires Real(d)
    ensures 0 <= Ordinal(d) < DAYS
    ensures Ordinal(d) == DAYS - 1 <==> d == LAST
  {
    YearsGrow(1, d.year);
    DayIsInItsYear(d);
    YearsGrow(d.year + 1, 10000);
    assert Ordinal(LAST) == DAYS - 1 by {
      MonthsFillYear(9999);
      YearStep(9999);
    }
    OrdinalOrder(d, LAST);
  }

  /** Day numbers and dates are inverse: every number has one date ... */
  lemma {:induction false} OrdinalOfDate(n: nat)
    requires n < DAYS
    ensures Real(DateOf(n)) && Ordinal(DateOf(n)) == n
  {
    if n > 0 {
      OrdinalOfDate(n - 1);
      OrdinalRange(DateOf(n - 1));
      NextDayIsNext(DateOf(n - 1));
    }
  }

  /** ... and every date one number. */
  lemma DateOfOrdinal(d: Date)
    requires Real(d)
    ensures 0 <= Ordinal(d) < DAYS && DateOf(Ordinal(d)) == d
  {
    OrdinalRange(d);
    OrdinalOfDate(Ordinal(d));
    OrdinalOrder(d, DateOf(Ordinal(d)));
    OrdinalOrder(DateOf(Ordinal(d)), d);
  }
}
