/**
 The proleptic Gregorian calendar: local date-times, their order, and the
 linear count of seconds behind them.
 */
module Calendar {

  datatype DateTime = DateTime(year: int, month: int, day: int, hour: int, minute: int, second: int)

  predicate IsLeap(y: int)
  {
    y % 4 == 0 && (y % 100 != 0 || y % 400 == 0)
  }

  function DaysIn(y: int, m: int): int
  {
    if m == 2 then (if IsLeap(y) then 29 else 28)
    else if m == 4 || m == 6 || m == 9 || m == 11 then 30
    else 31
  }

  predicate ValidDate(y: int, m: int, d: int)
  {
    1 <= m <= 12 && 1 <= d <= DaysIn(y, m)
  }

  predicate Valid(t: DateTime)
  {
    ValidDate(t.year, t.month, t.day) && 0 <= t.hour < 24 && 0 <= t.minute < 60 && 0 <= t.second < 60
  }

  /** Days before 1 January of year `y`, counting from 1 January of year 1. */
  function DaysBeforeYear(y: int): int
  {
    365 * (y - 1) + (y - 1) / 4 - (y - 1) / 100 + (y - 1) / 400
  }

  function DaysBeforeMonth(y: int, m: int): int
    requires 1 <= m <= 12
  {
    if m == 1 then 0 else DaysBeforeMonth(y, m - 1) + DaysIn(y, m - 1)
  }

  /** Day 1 is 1 January of year 1, a Monday. */
  function DayNumber(y: int, m: int, d: int): int
    requires 1 <= m <= 12
  {
    DaysBeforeYear(y) + DaysBeforeMonth(y, m) + d
  }

  /** Sunday is 0, as in cron. */
  function Weekday(t: DateTime): int
    requires Valid(t)
  {
    DayNumber(t.year, t.month, t.day) % 7
  }

  /** Seconds on the local clock's own linear scale. */
  function Instant(t: DateTime): int
    requires Valid(t)
  {
    DayNumber(t.year, t.month, t.day) * 86400 + t.hour * 3600 + t.minute * 60 + t.second
  }

  predicate DateLess(a: DateTime, b: DateTime)
  {
    a.year < b.year || (a.year == b.year && (a.month < b.month || (a.month == b.month && a.day < b.day)))
  }

  predicate SameDate(a: DateTime, b: DateTime)
  {
    a.year == b.year && a.month == b.month && a.day == b.day
  }

  predicate Less(a: DateTime, b: DateTime)
  {
    || DateLess(a, b)
    || (SameDate(a, b) && (|| a.hour < b.hour
                           || (a.hour == b.hour
                               && (a.minute < b.minute || (a.minute == b.minute && a.second < b.second)))))
  }

  // ----- adding one unit, with its carries -----

  function PlusDay(t: DateTime): DateTime
    requires Valid(t)
  {
    if t.day < DaysIn(t.year, t.month) then t.(day := t.day + 1)
    else if t.month < 12 then t.(month := t.month + 1, day := 1)
    else t.(year := t.year + 1, month := 1, day := 1)
  }

  function PlusHour(t: DateTime): DateTime
    requires Valid(t)
  {
    if t.hour < 23 then t.(hour := t.hour + 1) else PlusDay(t.(hour := 0))
  }

  function PlusMinute(t: DateTime): DateTime
    requires Valid(t)
  {
    if t.minute < 59 then t.(minute := t.minute + 1) else PlusHour(t.(minute := 0))
  }

  function PlusSecond(t: DateTime): DateTime
    requires Valid(t)
  {
    if t.second < 59 then t.(second := t.second + 1) else PlusMinute(t.(second := 0))
  }

  lemma Quotient4(x: int, q: int, r: int)
    requires 0 <= r < 4 && x == 4 * q + r
    ensures x / 4 == q && x % 4 == r
  {
  }

  lemma Quotient100(x: int, q: int, r: int)
    requires 0 <= r < 100 && x == 100 * q + r
    ensures x / 100 == q && x % 100 == r
  {
  }

  lemma Quotient400(x: int, q: int, r: int)
    requires 0 <= r < 400 && x == 400 * q + r
    ensures x / 400 == q && x % 400 == r
  {
  }

  lemma Fourths(y: int)
    ensures y / 4 - (y - 1) / 4 == if y % 4 == 0 then 1 else 0
  {
  }

  lemma Hundredths(y: int)
    ensures y / 100 - (y - 1) / 100 == if y % 100 == 0 then 1 else 0
    ensures y % 100 == 0 ==> y % 4 == 0
  {
    var q, r := y / 100, y % 100;
    if r == 0 {
      Quotient100(y - 1, q - 1, 99);
      Quotient4(y, 25 * q, 0);
    } else {
      Quotient100(y - 1, q, r - 1);
    }
  }

  lemma FourHundredths(y: int)
    ensures y / 400 - (y - 1) / 400 == if y % 400 == 0 then 1 else 0
    ensures y % 400 == 0 ==> y % 100 == 0
  {
    var q, r := y / 400, y % 400;
    if r == 0 {
      Quotient400(y - 1, q - 1, 399);
      Quotient100(y, 4 * q, 0);
    } else {
      Quotient400(y - 1, q, r - 1);
    }
  }

  lemma YearLength(y: int)
    ensures DaysBeforeYear(y + 1) == DaysBeforeYear(y) + (if IsLeap(y) then 366 else 365)
  {
    Fourths(y);
    Hundredths(y);
    FourHundredths(y);
  }

  /** Where each month starts, by the formula for a year that begins in March. */
  lemma {:induction false} MonthStarts(y: int, m: int)
    requires 1 <= m <= 12
    ensures m == 2 ==> DaysBeforeMonth(y, m) == 31
    ensures m >= 3 ==> DaysBeforeMonth(y, m) == (if IsLeap(y) then 60 else 59) + (153 * (m - 3) + 2) / 5
    decreases m
  {
    if m == 1 {
    } else {
      MonthStarts(y, m - 1);
    }
  }

  lemma MonthsOfYear(y: int)
    ensures DaysBeforeMonth(y, 12) + 31 == if IsLeap(y) then 366 else 365
  {
    MonthStarts(y, 12);
  }

  lemma DayIsExact(t: DateTime)
    requires Valid(t)
    ensures Valid(PlusDay(t)) && Instant(PlusDay(t)) == Instant(t) + 86400
  {
    if t.day == DaysIn(t.year, t.month) && t.month == 12 {
      YearLength(t.year);
      MonthsOfYear(t.year);
    }
  }

  lemma HourIsExact(t: DateTime)
    requires Valid(t)
    ensures Valid(PlusHour(t)) && Instant(PlusHour(t)) == Instant(t) + 3600
  {
    if t.hour == 23 {
      DayIsExact(t.(hour := 0));
    }
  }

  lemma MinuteIsExact(t: DateTime)
    requires Valid(t)
    ensures Valid(PlusMinute(t)) && Instant(PlusMinute(t)) == Instant(t) + 60
  {
    if t.minute == 59 {
      HourIsExact(t.(minute := 0));
    }
  }

  /** Each carry adds exactly its own number of seconds. */
  lemma SecondIsExact(t: DateTime)
    requires Valid(t)
    ensures Valid(PlusSecond(t)) && Instant(PlusSecond(t)) == Instant(t) + 1
  {
    if t.second == 59 {
      MinuteIsExact(t.(second := 0));
    }
  }

  lemma {:induction false} MonthsGrow(y: int, m: int, n: int)
    requires 1 <= m < n <= 12
    ensures DaysBeforeMonth(y, m) + DaysIn(y, m) <= DaysBeforeMonth(y, n)
    decreases n
  {
    if m < n - 1 {
      MonthsGrow(y, m, n - 1);
    }
  }

  lemma YearsGrow(y: int, z: int)
    requires y < z
    ensures DaysBeforeYear(y + 1) <= DaysBeforeYear(z)
  {
  }

  lemma DayFitsYear(y: int, m: int, d: int)
    requires ValidDate(y, m, d)
    ensures DaysBeforeYear(y) < DayNumber(y, m, d) <= DaysBeforeYear(y + 1)
  {
    YearLength(y);
    MonthsOfYear(y);
    if m < 12 {
      MonthsGrow(y, m, 12);
    }
    if m > 1 {
      MonthsGrow(y, 1, m);
    }
  }

  lemma DatesAreOrdered(a: DateTime, b: DateTime)
    requires Valid(a) && Valid(b) && DateLess(a, b)
    ensures DayNumber(a.year, a.month, a.day) < DayNumber(b.year, b.month, b.day)
  {
    if a.year < b.year {
      DayFitsYear(a.year, a.month, a.day);
      DayFitsYear(b.year, b.month, b.day);
      YearsGrow(a.year, b.year);
    } else if a.month < b.month {
      MonthsGrow(a.year, a.month, b.month);
    }
  }

  /** The calendar order is the order of the linear scale; equal instants are the same date-time. */
  lemma OrderIsInstantOrder(a: DateTime, b: DateTime)
    requires Valid(a) && Valid(b)
    ensures Less(a, b) <==> Instant(a) < Instant(b)
    ensures a == b <==> Instant(a) == Instant(b)
  {
    if DateLess(a, b) {
      DatesAreOrdered(a, b);
    } else if DateLess(b, a) {
      DatesAreOrdered(b, a);
    }
  }

  lemma {:induction false} Reach(i: int, t: DateTime)
    requires Valid(t) && Instant(t) <= i
    ensures exists u :: Valid(u) && Instant(u) == i
    decreases i - Instant(t)
  {
    if Instant(t) < i {
      SecondIsExact(t);
      Reach(i, PlusSecond(t));
    }
  }

  /** Every second of the linear scale is a date-time. */
  lemma InstantsAreOnto(i: int)
    ensures exists u :: Valid(u) && Instant(u) == i
  {
    var y := if i < 0 then i else 0;
    var first := DateTime(y, 1, 1, 0, 0, 0);
    assert DaysBeforeYear(y) <= 365 * (y - 1);
    assert Instant(first) <= i;
    Reach(i, first);
  }

  ghost function AtInstant(i: int): (t: DateTime)
    ensures Valid(t) && Instant(t) == i
  {
    InstantsAreOnto(i);
    var t :| Valid(t) && Instant(t) == i;
    t
  }

  // ----- the civil calendar, independently -----

  /** The day count of a civil date in closed form, with years that begin in March and no table of months. */
  function RataDie(y: int, m: int, d: int): int
  {
    var (year, month) := if m <= 2 then (y - 1, m + 9) else (y, m - 3);
    365 * year + year / 4 - year / 100 + year / 400 + (153 * month + 2) / 5 + d - 306
  }

  /** 1 January of year 1 is day 1, and every date is as many days in as the closed form says. */
  lemma DayNumberIsRataDie(y: int, m: int, d: int)
    requires 1 <= m <= 12
    ensures DayNumber(y, m, d) == RataDie(y, m, d)
  {
    MonthStarts(y, m);
    YearLength(y);
  }

  /** A month has as many valid days as there are from its first to the first of the next month. */
  lemma ValidDateIff(y: int, m: int, d: int)
    requires 1 <= m <= 12
    ensures var next := if m == 12 then RataDie(y + 1, 1, 1) else RataDie(y, m + 1, 1);
            ValidDate(y, m, d) <==> 1 <= d <= next - RataDie(y, m, 1)
  {
    DayNumberIsRataDie(y, m, 1);
    if m == 12 {
      DayNumberIsRataDie(y + 1, 1, 1);
      MonthsOfYear(y);
      YearLength(y);
    } else {
      DayNumberIsRataDie(y, m + 1, 1);
    }
  }

  /** Anchors: 19 April 2026 is a Sunday, and the Unix epoch is a Thursday, 719163 days in. */
  lemma KnownDays()
    ensures Weekday(DateTime(2026, 4, 19, 0, 0, 0)) == 0
    ensures Weekday(DateTime(1970, 1, 1, 0, 0, 0)) == 4
    ensures DayNumber(1970, 1, 1) == 719163
  {
  }
}
