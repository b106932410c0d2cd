/** UTC dates and the moments that fall on them. */
module Calendar {

  datatype Civil = Civil(year: nat, month: nat, day: nat)

  predicate LeapYear(y: nat) { y % 4 == 0 && (y % 100 != 0 || y % 400 == 0) }

  function MonthLength(y: nat, m: nat): nat
    requires 1 <= m <= 12
  {
    [31, 28, 31, 30, 31, 30, 31, 31, 30, 31, 30, 31][m - 1] + if m == 2 && LeapYear(y) then 1 else 0
  }

  predicate ValidDate(d: Civil) {
    1 <= d.year <= 9999 && 1 <= d.month <= 12 && 1 <= d.day <= MonthLength(d.year, d.month)
  }

  type Date = d: Civil | ValidDate(d) witness Civil(1, 1, 1)

  function DaysBeforeMonth(y: nat, m: nat): nat
    requires 1 <= m <= 12
  {
    [0, 31, 59, 90, 120, 151, 181, 212, 243, 273, 304, 334][m - 1] + if m > 2 && LeapYear(y) then 1 else 0
  }

  function YearLength(y: nat): nat { if LeapYear(y) then 366 else 365 }

  function DaysBeforeYear(y: nat): nat
    requires y >= 1
  {
    if y == 1 then 0 else DaysBeforeYear(y - 1) + YearLength(y - 1)
  }

  /** The Gregorian rule in closed form: a leap day every four years, but not in centuries, but in every fourth. */
  lemma {:induction false} YearsInClosedForm(y: nat)
    requires y >= 1
    ensures DaysBeforeYear(y) == 365 * (y - 1) + (y - 1) / 4 - (y - 1) / 100 + (y - 1) / 400
  {
    if y > 1 {
      YearsInClosedForm(y - 1);
      FoursAndCenturies(y - 1);
    }
  }

  lemma FoursAndCenturies(n: nat)
    requires n >= 1
    ensures n / 4 == (n - 1) / 4 + if n % 4 == 0 then 1 else 0
    ensures n / 100 == (n - 1) / 100 + if n % 100 == 0 then 1 else 0
    ensures n / 400 == (n - 1) / 400 + if n % 400 == 0 then 1 else 0
    ensures (n % 100 == 0 ==> n % 4 == 0) && (n % 400 == 0 ==> n % 100 == 0)
  {}

  /** Days since the first of January of year 1. */
  function DayNumber(d: Date): nat { DaysBeforeYear(d.year) + DaysBeforeMonth(d.year, d.month) + d.day - 1 }

  const HOUR := 3_600_000_000  // in microseconds, the resolution of a datetime
  const DAY := 24 * HOUR
  const LAST_DAY: Date := Civil(9999, 12, 31)
  const DAYS: nat := DayNumber(LAST_DAY) + 1

  lemma {:induction false} YearsAscend(y: nat, z: nat)
    requires 1 <= y <= z
    ensures DaysBeforeYear(y) <= DaysBeforeYear(z)
    decreases z
  {
    if y < z {
      YearsAscend(y, z - 1);
    }
  }

  lemma MonthsAscend(y: nat, m: nat, n: nat)
    requires 1 <= m < n <= 12
    ensures DaysBeforeMonth(y, m) + MonthLength(y, m) <= DaysBeforeMonth(y, n)
  {}

  lemma WithinYear(d: Date)
    ensures DaysBeforeYear(d.year) <= DayNumber(d) < DaysBeforeYear(d.year + 1)
  {
    if d.month < 12 { MonthsAscend(d.year, d.month, 12); }
  }

  predicate Earlier(d: Date, e: Date) {
    d.year < e.year || (d.year == e.year && (d.month < e.month || (d.month == e.month && d.day < e.day)))
  }

  lemma EarlierCountsLess(d: Date, e: Date)
    requires Earlier(d, e)
    ensures DayNumber(d) < DayNumber(e)
  {
    if d.year < e.year {
      WithinYear(d);
      WithinYear(e);
      YearsAscend(d.year + 1, e.year);
    } else if d.month < e.month {
      MonthsAscend(d.year, d.month, e.month);
    }
  }

  lemma DayNumberInjective(d: Date, e: Date)
    requires DayNumber(d) == DayNumber(e)
    ensures d == e
  {
    hide DaysBeforeYear, DaysBeforeMonth, DayNumber;
    if Earlier(d, e) {
      EarlierCountsLess(d, e);
    } else if Earlier(e, d) {
      EarlierCountsLess(e, d);
    }
  }

  function NextDay(d: Date): (e: Civil)
    requires d != LAST_DAY
    ensures ValidDate(e)
  {
    if d.day < MonthLength(d.year, d.month) then Civil(d.year, d.month, d.day + 1)
    else if d.month < 12 then Civil(d.year, d.month + 1, 1)
    else Civil(d.year + 1, 1, 1)
  }

  lemma NextDayCounts(d: Date)
    requires d != LAST_DAY
    ensures DayNumber(NextDay(d)) == DayNumber(d) + 1
  {
    NextMonth(d.year, d.month);
    hide DaysBeforeMonth, MonthLength;
  }

  lemma NextMonth(y: nat, m: nat)
    requires 1 <= m <= 12
    ensures DaysBeforeMonth(y, 1) == 0 && MonthLength(y, m) >= 1
    ensures if m < 12 then DaysBeforeMonth(y, m) + MonthLength(y, m) == DaysBeforeMonth(y, m + 1)
            else DaysBeforeMonth(y, m) + MonthLength(y, m) == YearLength(y)
  {}

  /** `date.fromordinal`, counting from zero. */
  function DateOf(n: nat): (d: Date)
    requires n < DAYS
    ensures DayNumber(d) == n
  {
    if n == 0 then Civil(1, 1, 1)
    else
      var d := DateOf(n - 1);
      NextDayCounts(d);
      NextDay(d)
  }

  /** A datetime in UTC: the day and the microseconds into it. */
  datatype DateTime = DateTime(day: nat, micros: nat)

  /** The first day of year 1 has no yesterday. */
  type Moment = m: DateTime | 1 <= m.day < DAYS && m.micros < DAY witness DateTime(1, 0)

  /** Microseconds since the start of year 1. */
  function Instant(now: Moment): int { now.day * DAY + now.micros }

  function Today(now: Moment): Date { DateOf(now.day) }

  function Yesterday(now: Moment): Date { DateOf(now.day - 1) }

  /** A date is today's exactly between its midnights, yesterday's exactly on the day after. */
  lemma DaysOf(now: Moment, d: Date)
    ensures d == Today(now) <==> DayNumber(d) * DAY <= Instant(now) < (DayNumber(d) + 1) * DAY
    ensures d == Yesterday(now) <==> (DayNumber(d) + 1) * DAY <= Instant(now) < (DayNumber(d) + 2) * DAY
  {
    hide DayNumber, DateOf;
    if DayNumber(d) == DayNumber(Today(now)) { DayNumberInjective(d, Today(now)); }
    if DayNumber(d) == DayNumber(Yesterday(now)) { DayNumberInjective(d, Yesterday(now)); }
    assert DayNumber(Today(now)) == now.day && DayNumber(Yesterday(now)) == now.day - 1;
  }
}
