/**
 * The time-value model of section 21.4.1 of ECMA-262 (the JavaScript
 * standard), as far as the streak and activity code relies on it: a time
 * value is an integer count of milliseconds since 1970-01-01T00:00:00Z and
 * every day is exactly msPerDay long (no leap seconds).
 */
module EcmaTime {

  /** msPerDay: 24 hours of 60 minutes of 60 seconds of 1000 ms. */
  const MsPerDay: int := 24 * 60 * 60 * 1000

  /** Day(t): the number of the UTC day that contains time value t (floor division). */
  function Day(t: int): int
  {
    t / MsPerDay
  }

  /** TimeWithinDay(t): milliseconds elapsed since the UTC midnight before t. */
  function TimeWithinDay(t: int): (r: int)
    ensures 0 <= r < MsPerDay
    ensures t == Day(t) * MsPerDay + r
  {
    t % MsPerDay
  }

  /** A time value that falls exactly on a UTC midnight. */
  predicate IsMidnight(t: int)
  {
    TimeWithinDay(t) == 0
  }

  predicate InLeapYear(y: int)
  {
    y % 4 == 0 && (y % 100 != 0 || y % 400 == 0)
  }

  function DaysInYear(y: int): int
  {
    if InLeapYear(y) then 366 else 365
  }

  function DaysInMonth(y: int, month: int): int
    requires 0 <= month < 12
  {
    if month == 1 then (if InLeapYear(y) then 29 else 28)
    else if month == 3 || month == 5 || month == 8 || month == 10 then 30
    else 31
  }

  /** Day number, within year y, of the first day of month (0 = January). */
  function MonthStart(y: int, month: int): int
    requires 0 <= month < 12
  {
    var leap := if InLeapYear(y) then 1 else 0;
    match month
    case 0 => 0
    case 1 => 31
    case 2 => 59 + leap
    case 3 => 90 + leap
    case 4 => 120 + leap
    case 5 => 151 + leap
    case 6 => 181 + leap
    case 7 => 212 + leap
    case 8 => 243 + leap
    case 9 => 273 + leap
    case 10 => 304 + leap
    case _ => 334 + leap
  }

  /** DayFromYear(y): the day number of January 1 of year y (closed form of the standard). */
  function DayFromYear(y: int): int
  {
    365 * (y - 1970) + (y - 1969) / 4 - (y - 1901) / 100 + (y - 1601) / 400
  }

  /**
   * MakeDay(year, month, date): the day number of the given calendar date.
   * A month outside 0..11 carries into the year, and the date is added as an
   * offset from the first of the month, so any integers are accepted.
   */
  function MakeDay(year: int, month: int, date: int): int
  {
    var ym := year + month / 12;
    var mn := month % 12;
    DayFromYear(ym) + MonthStart(ym, mn) + date - 1
  }

  /** The year Date.UTC actually uses: a year 0..99 is read as 1900 + year. */
  function UtcYear(year: int): int
  {
    if 0 <= year <= 99 then 1900 + year else year
  }

  /** Date.UTC(year, month, date) with hours, minutes, seconds and ms all 0. */
  function DateUtc(year: int, month: int, date: int): (t: int)
    ensures IsMidnight(t)
    ensures Day(t) == MakeDay(UtcYear(year), month, date)
  {
    MakeDay(UtcYear(year), month, date) * MsPerDay
  }

  /** A calendar date as the local-time getters return it: getFullYear, getMonth (0-based), getDate. */
  datatype CivilDate = CivilDate(year: int, month0: int, day: int)

  predicate ValidDate(c: CivilDate)
  {
    0 <= c.month0 < 12 && 1 <= c.day <= DaysInMonth(c.year, c.month0)
  }

  /** Strict calendar order: by year, then month, then day. */
  predicate Before(a: CivilDate, b: CivilDate)
  {
    a.year < b.year
    || (a.year == b.year && a.month0 < b.month0)
    || (a.year == b.year && a.month0 == b.month0 && a.day < b.day)
  }

  /** The calendar date following c. */
  function NextDay(c: CivilDate): (n: CivilDate)
    requires ValidDate(c)
    ensures ValidDate(n) && Before(c, n)
  {
    if c.day < DaysInMonth(c.year, c.month0) then CivilDate(c.year, c.month0, c.day + 1)
    else if c.month0 < 11 then CivilDate(c.year, c.month0 + 1, 1)
    else CivilDate(c.year + 1, 0, 1)
  }

  /** The day number of a valid calendar date in the proleptic Gregorian calendar. */
  function DayNumber(c: CivilDate): int
  {
    MakeDay(c.year, c.month0, c.day)
  }

  lemma FloorStep(a: int, n: int)
    requires n == 4 || n == 100 || n == 400
    ensures (a + 1) / n == a / n + (if (a + 1) % n == 0 then 1 else 0)
  {
    var q, r := a / n, a % n;
    assert a == q * n + r && 0 <= r < n;
    if r + 1 < n {
      assert a + 1 == q * n + (r + 1);
    } else {
      assert a + 1 == (q + 1) * n;
    }
  }

  /** January 1 of year y + 1 comes DaysInYear(y) days after January 1 of year y. */
  lemma {:induction false} DayFromYearStep(y: int)
    ensures DayFromYear(y + 1) == DayFromYear(y) + DaysInYear(y)
  {
    FloorStep(y - 1969, 4);
    FloorStep(y - 1901, 100);
    FloorStep(y - 1601, 400);
    assert (y - 1968) % 4 == 0 <==> y % 4 == 0;
    assert (y - 1900) % 100 == 0 <==> y % 100 == 0;
    assert (y - 1600) % 400 == 0 <==> y % 400 == 0;
  }

  /** Every date of year y1 comes before January 1 of any later year y2. */
  lemma {:induction false} DayFromYearIncreasing(y1: int, y2: int)
    requires y1 < y2
    ensures DayFromYear(y1) + DaysInYear(y1) <= DayFromYear(y2)
    decreases y2 - y1
  {
    DayFromYearStep(y1);
    if y1 + 1 < y2 {
      DayFromYearIncreasing(y1 + 1, y2);
    }
  }

  lemma MonthStartStep(y: int, month: int)
    requires 0 <= month < 12
    ensures month < 11 ==> MonthStart(y, month) + DaysInMonth(y, month) == MonthStart(y, month + 1)
    ensures month == 11 ==> MonthStart(y, month) + DaysInMonth(y, month) == DaysInYear(y)
  {
  }

  /** Every date of month m1 comes before the first of any later month m2 of the same year. */
  lemma {:induction false} MonthStartIncreasing(y: int, m1: int, m2: int)
    requires 0 <= m1 < m2 < 12
    ensures MonthStart(y, m1) + DaysInMonth(y, m1) <= MonthStart(y, m2)
    decreases m2 - m1
  {
    MonthStartStep(y, m1);
    if m1 + 1 < m2 {
      MonthStartIncreasing(y, m1 + 1, m2);
    }
  }

  /** A valid date's position within its year lies in 0 .. DaysInYear - 1. */
  lemma DayOfYearBounds(c: CivilDate)
    requires ValidDate(c)
    ensures DayNumber(c) == DayFromYear(c.year) + MonthStart(c.year, c.month0) + c.day - 1
    ensures DayFromYear(c.year) <= DayNumber(c) < DayFromYear(c.year) + DaysInYear(c.year)
  {
    MonthStartStep(c.year, c.month0);
    if c.month0 < 11 {
      MonthStartIncreasing(c.year, c.month0, 11);
      MonthStartStep(c.year, 11);
    }
  }

  /** Day numbers follow the calendar: a date is earlier iff its day number is smaller. */
  lemma {:induction false} DayNumberOrder(a: CivilDate, b: CivilDate)
    requires ValidDate(a) && ValidDate(b)
    ensures Before(a, b) <==> DayNumber(a) < DayNumber(b)
    ensures a == b <==> DayNumber(a) == DayNumber(b)
  {
    DayOfYearBounds(a);
    DayOfYearBounds(b);
    if a.year < b.year {
      DayFromYearIncreasing(a.year, b.year);
    } else if b.year < a.year {
      DayFromYearIncreasing(b.year, a.year);
    } else if a.month0 < b.month0 {
      MonthStartIncreasing(a.year, a.month0, b.month0);
    } else if b.month0 < a.month0 {
      MonthStartIncreasing(a.year, b.month0, a.month0);
    }
  }

  /** For a month in 0..11 nothing carries into the year. */
  lemma MakeDayInYear(y: int, month: int, date: int)
    requires 0 <= month < 12
    ensures MakeDay(y, month, date) == DayFromYear(y) + MonthStart(y, month) + date - 1
  {
    assert month / 12 == 0 && month % 12 == month;
  }

  /** Consecutive calendar dates have consecutive day numbers. */
  lemma {:induction false} DayNumberNextDay(c: CivilDate)
    requires ValidDate(c)
    ensures DayNumber(NextDay(c)) == DayNumber(c) + 1
  {
    var n := NextDay(c);
    MakeDayInYear(c.year, c.month0, c.day);
    MonthStartStep(c.year, c.month0);
    if c.day < DaysInMonth(c.year, c.month0) {
      assert n == CivilDate(c.year, c.month0, c.day + 1);
      MakeDayInYear(c.year, c.month0, c.day + 1);
    } else if c.month0 < 11 {
      assert n == CivilDate(c.year, c.month0 + 1, 1);
      MakeDayInYear(c.year, c.month0 + 1, 1);
    } else {
      assert n == CivilDate(c.year + 1, 0, 1);
      MakeDayInYear(c.year + 1, 0, 1);
      DayFromYearStep(c.year);
    }
  }

  /** Date.UTC agrees with the calendar day number except for the years 0..99 it shifts. */
  lemma DateUtcDayNumber(c: CivilDate)
    requires !(0 <= c.year <= 99)
    ensures DateUtc(c.year, c.month0, c.day) == DayNumber(c) * MsPerDay
  {
  }
}
