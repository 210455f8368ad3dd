/**
 * Proleptic-Gregorian dates as the `time` crate's `Date` provides them to the
 * downloader: years -9999..=9999, the derived (year, month, day) order,
 * `next_day` (which fails only past the last representable date) and `weekday`.
 *
 * Every date is given a day number (0001-01-01 is day 0, a Monday); the
 * lemmas below show that the calendar order, `NextDay` and the weekday all
 * agree with that count.
 */
module Calendar {
  import opened Wrappers

  /** January = 1 … December = 12, the values of the crate's `Month` enum. */
  type Month = m: int | 1 <= m <= 12 witness 1

  const MinYear: int := -9999
  const MaxYear: int := 9999

  datatype Date = Date(year: int, month: Month, day: int)

  datatype Weekday = Monday | Tuesday | Wednesday | Thursday | Friday | Saturday | Sunday

  /** The last date the crate can represent; `next_day` of it is `None`. */
  const MaxDate: Date := Date(MaxYear, 12, 31)

  predicate IsLeapYear(year: int) {
    year % 4 == 0 && (year % 100 != 0 || year % 400 == 0)
  }

  function DaysInYear(year: int): int {
    if IsLeapYear(year) then 366 else 365
  }

  function DaysInMonth(year: int, month: Month): (n: int)
    ensures 28 <= n <= 31
    ensures n == 29 <==> month == 2 && IsLeapYear(year)
  {
    if month == 2 then (if IsLeapYear(year) then 29 else 28)
    else if month == 4 || month == 6 || month == 9 || month == 11 then 30
    else 31
  }

  /** The invariant every value of the crate's `Date` type satisfies. */
  predicate ValidDate(d: Date) {
    MinYear <= d.year <= MaxYear && 1 <= d.day <= DaysInMonth(d.year, d.month)
  }

  /** `a < b` on the crate's `Date`: year first, then month, then day. */
  predicate Before(a: Date, b: Date) {
    a.year < b.year ||
    (a.year == b.year && (a.month < b.month || (a.month == b.month && a.day < b.day)))
  }

  /** Days from 0001-01-01 to the first of January of `year` (negative before year 1). */
  function DaysBeforeYear(year: int): int {
    var y := year - 1;
    365 * y + y / 4 - y / 100 + y / 400
  }

  /** Days of `year` that lie before the first of `month`. */
  function DaysBeforeMonth(year: int, month: Month): int {
    var leapDay := if month > 2 && IsLeapYear(year) then 1 else 0;
    leapDay +
    if month == 1 then 0 else if month == 2 then 31 else if month == 3 then 59
    else if month == 4 then 90 else if month == 5 then 120 else if month == 6 then 151
    else if month == 7 then 181 else if month == 8 then 212 else if month == 9 then 243
    else if month == 10 then 273 else if month == 11 then 304 else 334
  }

  /** The number of days from 0001-01-01 to `d`. */
  function DayNumber(d: Date): int {
    DaysBeforeYear(d.year) + DaysBeforeMonth(d.year, d.month) + d.day - 1
  }

  /** `Date::weekday`; day 0 (0001-01-01) was a Monday. */
  function WeekdayOf(d: Date): Weekday {
    WeekdayOfDayNumber(DayNumber(d))
  }

  function WeekdayOfDayNumber(n: int): Weekday {
    var k := n % 7;
    if k == 0 then Monday else if k == 1 then Tuesday else if k == 2 then Wednesday
    else if k == 3 then Thursday else if k == 4 then Friday else if k == 5 then Saturday
    else Sunday
  }

  predicate IsSunday(d: Date) {
    WeekdayOf(d) == Sunday
  }

  /** The weekday that follows `w`. */
  function Succ(w: Weekday): Weekday {
    match w
    case Monday => Tuesday
    case Tuesday => Wednesday
    case Wednesday => Thursday
    case Thursday => Friday
    case Friday => Saturday
    case Saturday => Sunday
    case Sunday => Monday
  }

  /**
   * `Date::next_day`: the calendar successor, rolling over months and years
   * (leap years included); `None` only for the last representable date.
   */
  function NextDay(d: Date): (r: Option<Date>)
    requires ValidDate(d)
    ensures r.None? <==> d == MaxDate
    ensures r.Some? ==> ValidDate(r.value) && Before(d, r.value)
    ensures r.Some? ==> DayNumber(r.value) == DayNumber(d) + 1
  {
    if d.day < DaysInMonth(d.year, d.month) then Some(Date(d.year, d.month, d.day + 1))
    else if d.month < 12 then Some(Date(d.year, d.month + 1, 1))
    else if d.year < MaxYear then DaysBeforeYearStep(d.year); Some(Date(d.year + 1, 1, 1))
    else None
  }

  /** Floor division by a positive constant steps up by one exactly at its multiples. */
  lemma DivStep(a: int)
    ensures (a + 1) / 4 - a / 4 == if (a + 1) % 4 == 0 then 1 else 0
    ensures (a + 1) / 100 - a / 100 == if (a + 1) % 100 == 0 then 1 else 0
    ensures (a + 1) / 400 - a / 400 == if (a + 1) % 400 == 0 then 1 else 0
  {
  }

  /** Consecutive years are `DaysInYear` apart. */
  lemma DaysBeforeYearStep(year: int)
    ensures DaysBeforeYear(year + 1) == DaysBeforeYear(year) + DaysInYear(year)
  {
    var y := year - 1;
    DivStep(y);
    Divisibility(year);
    var d4, d100, d400 := year / 4 - y / 4, year / 100 - y / 100, year / 400 - y / 400;
    assert DaysBeforeYear(year + 1) - DaysBeforeYear(year) == 365 + d4 - d100 + d400;
  }

  /** A multiple of 400 is one of 100, and a multiple of 100 is one of 4. */
  lemma Divisibility(n: int)
    ensures n % 400 == 0 ==> n % 100 == 0
    ensures n % 100 == 0 ==> n % 4 == 0
  {
    var q4, q100, q400 := n / 4, n / 100, n / 400;
    var r4, r100, r400 := n % 4, n % 100, n % 400;
    assert n == 400 * q400 + r400 && 0 <= r400 < 400;
    assert n == 100 * q100 + r100 && 0 <= r100 < 100;
    assert n == 4 * q4 + r4 && 0 <= r4 < 4;
    if r400 == 0 {
      MultipleRem(4 * q400);
    }
    if r100 == 0 {
      MultipleRem(25 * q100);
    }
  }

  /** Multiples of 100 and of 4 leave no remainder. */
  lemma MultipleRem(m: int)
    ensures (100 * m) % 100 == 0 && (4 * m) % 4 == 0
  {
  }

  /** Every later year starts after the whole of an earlier one. */
  lemma {:induction false} DaysBeforeYearMonotone(y1: int, y2: int)
    requires y1 < y2
    ensures DaysBeforeYear(y1) + DaysInYear(y1) <= DaysBeforeYear(y2)
    decreases y2 - y1
  {
    DaysBeforeYearStep(y1);
    if y1 + 1 < y2 {
      DaysBeforeYearMonotone(y1 + 1, y2);
    }
  }

  /** The (month, day) order within one year is the order of the day of the year. */
  lemma DayOfYearOrder(a: Date, b: Date)
    requires ValidDate(a) && ValidDate(b) && a.year == b.year
    ensures 0 <= DaysBeforeMonth(a.year, a.month) + a.day - 1 < DaysInYear(a.year)
    ensures Before(a, b) ==> DaysBeforeMonth(a.year, a.month) + a.day < DaysBeforeMonth(b.year, b.month) + b.day
  {
  }

  /** The calendar order is the order of the day numbers. */
  lemma BeforeIffDayNumber(a: Date, b: Date)
    requires ValidDate(a) && ValidDate(b)
    ensures Before(a, b) <==> DayNumber(a) < DayNumber(b)
    ensures a == b <==> DayNumber(a) == DayNumber(b)
  {
    DayOfYearOrder(a, a);
    DayOfYearOrder(b, b);
    if a.year < b.year {
      DaysBeforeYearMonotone(a.year, b.year);
    } else if b.year < a.year {
      DaysBeforeYearMonotone(b.year, a.year);
    } else {
      DayOfYearOrder(a, b);
      DayOfYearOrder(b, a);
    }
  }

  /** `next_day` moves the weekday one step on: the day after a Sunday is a Monday. */
  lemma NextDayWeekday(d: Date)
    requires ValidDate(d) && d != MaxDate
    ensures WeekdayOf(NextDay(d).value) == Succ(WeekdayOf(d))
    ensures IsSunday(d) ==> !IsSunday(NextDay(d).value)
  {
    WeekdayStep(DayNumber(d));
  }

  lemma WeekdayStep(n: int)
    ensures WeekdayOfDayNumber(n + 1) == Succ(WeekdayOfDayNumber(n))
  {
    assert (n + 1) % 7 == if n % 7 == 6 then 0 else n % 7 + 1;
  }
}
