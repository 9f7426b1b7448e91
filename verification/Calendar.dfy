/**
 Calendar conversion of src/kernel/time.c, under the leap rule of src/kernel/drivers/CMOS.c:
 every fourth year is a leap year.
 */
module Calendar {

  const TWO_TO_THE_64: nat := 0x1_0000_0000_0000_0000
  const SECONDS_PER_DAY: nat := 86400

  /** The largest year an `int` can hold. */
  const INT_MAX: nat := 0x7FFF_FFFF

  const DAYS_PER_MONTH: seq<nat> := [31, 28, 31, 30, 31, 30, 31, 31, 30, 31, 30, 31]

  predicate IsLeapYear(year: int) {
    year % 4 == 0
  }

  function DaysInMonth(year: int, month: nat): (n: nat)
    requires 1 <= month <= 12
    ensures 28 <= n <= 31
  {
    if month == 2 && IsLeapYear(year) then 29 else DAYS_PER_MONTH[month - 1]
  }

  function DaysInYear(year: int): nat {
    if IsLeapYear(year) then 366 else 365
  }

  /** Days from 1 January 1970 to 1 January of `year`; none for a year that is not later. */
  function DaysBeforeYear(year: int): nat
    decreases year
  {
    if year <= 1970 then 0 else DaysBeforeYear(year - 1) + DaysInYear(year - 1)
  }

  /** Days of `year` before the first of `month`. */
  function DaysBeforeMonth(year: int, month: int): nat
    requires month <= 13
    decreases month
  {
    if month <= 1 then 0 else DaysBeforeMonth(year, month - 1) + DaysInMonth(year, month - 1)
  }

  lemma {:induction false} DaysBeforeYearClosed(year: int)
    requires year >= 1970
    ensures DaysBeforeYear(year) == 365 * (year - 1970) + (year - 1969) / 4
  {
    if year > 1970 {
      DaysBeforeYearClosed(year - 1);
    }
  }

  /** The day of the year that a month begins with, in closed form. */
  function Start(month: int, leap: bool): int {
    (367 * month - 362) / 12 - (if month <= 2 then 0 else if leap then 1 else 2)
  }

  lemma Starts(leap: bool)
    ensures Start(1, leap) == 0 && Start(2, leap) == 31
    ensures var march := if leap then 60 else 59;
      && Start(3, leap) == march && Start(4, leap) == march + 31 && Start(5, leap) == march + 61
      && Start(6, leap) == march + 92 && Start(7, leap) == march + 122 && Start(8, leap) == march + 153
      && Start(9, leap) == march + 184 && Start(10, leap) == march + 214 && Start(11, leap) == march + 245
      && Start(12, leap) == march + 275 && Start(13, leap) == march + 306
  {
  }

  lemma {:induction false} DaysBeforeMonthStarts(year: int, month: nat)
    requires 1 <= month <= 13
    ensures DaysBeforeMonth(year, month) == Start(month, year % 4 == 0)
  {
    Starts(year % 4 == 0);
    if month > 1 {
      DaysBeforeMonthStarts(year, month - 1);
    }
  }

  /** The days before a month need no table. */
  lemma DaysBeforeMonthClosed(year: int, month: nat)
    requires 1 <= month <= 13
    ensures DaysBeforeMonth(year, month)
         == (367 * month - 362) / 12 - (if month <= 2 then 0 else if year % 4 == 0 then 1 else 2)
  {
    DaysBeforeMonthStarts(year, month);
  }

  /** Nor does the length of a month. */
  lemma MonthLength(year: int, month: nat)
    requires 1 <= month <= 12
    ensures DaysInMonth(year, month)
         == if month == 2 then (if year % 4 == 0 then 29 else 28) else 30 + (month + month / 8) % 2
  {
  }

  lemma MonthsFillYear(year: int)
    ensures DaysBeforeMonth(year, 13) == DaysInYear(year)
  {
    DaysBeforeMonthClosed(year, 13);
    Starts(year % 4 == 0);
  }

  datatype Date = Date(year: int, month: int, day: int, hour: int, minute: int, second: int) {
    predicate Valid() {
      && 1 <= month <= 12 && 1 <= day <= DaysInMonth(year, month)
      && 0 <= hour < 24 && 0 <= minute < 60 && 0 <= second < 60
    }

    /** Days since 1 January 1970. */
    function DayNumber(): int
      requires month <= 13
    {
      DaysBeforeYear(year) + DaysBeforeMonth(year, month) + day - 1
    }

    function SecondOfDay(): int {
      hour * 3600 + minute * 60 + second
    }

    /** Seconds since the start of 1970. */
    function ToUnix(): int
      requires month <= 13
    {
      DayNumber() * SECONDS_PER_DAY + SecondOfDay()
    }

    /** Chronological order: field by field from the year down. */
    predicate Before(that: Date) {
      year < that.year || (year == that.year && (
      month < that.month || (month == that.month && (
      day < that.day || (day == that.day && (
      hour < that.hour || (hour == that.hour && (
      minute < that.minute || (minute == that.minute &&
      second < that.second)))))))))
    }
  }

  /** The year that day `days` after 1 January of `year` falls into, and the days left in it. */
  function YearOf(days: nat, year: int): (r: (int, nat))
    ensures year <= r.0 && r.1 < DaysInYear(r.0)
    decreases days
  {
    if days < DaysInYear(year) then (year, days) else YearOf(days - DaysInYear(year), year + 1)
  }

  /** The month that day `days` after the first of `month` falls into, and the days left in it. */
  function MonthOf(days: nat, year: int, month: nat): (r: (nat, nat))
    requires 1 <= month <= 12 && days < DaysInYear(year) - DaysBeforeMonth(year, month)
    ensures month <= r.0 <= 12 && r.1 < DaysInMonth(year, r.0)
    decreases 12 - month
  {
    MonthsFillYear(year);
    if days < DaysInMonth(year, month) then (month, days)
    else
      assert month < 12;
      MonthOf(days - DaysInMonth(year, month), year, month + 1)
  }

  /** The date of a time in seconds since the start of 1970. */
  function FromUnix(t: nat): Date {
    var (year, inYear) := YearOf(t / 60 / 60 / 24, 1970);
    var (month, inMonth) := MonthOf(inYear, year, 1);
    Date(year, month, inMonth + 1, t / 60 / 60 % 24, t / 60 % 60, t % 60)
  }

  class Tm {
    var tm_sec: int
    var tm_min: int
    var tm_hour: int
    var tm_mday: int
    var tm_mon: int
    var tm_year: int

    function AsDate(): Date
      reads this
    {
      Date(tm_year, tm_mon, tm_mday, tm_hour, tm_min, tm_sec)
    }
  }

  /** The year loop of `unix_to_datetime`. */
  method TakeYears(allDays: nat) returns (year: int, days: nat)
    ensures (year, days) == YearOf(allDays, 1970)
  {
    days := allDays;
    year := 1970;
    while days >= DaysInYear(year)
      invariant YearOf(days, year) == YearOf(allDays, 1970)
      decreases days
    {
      days := days - DaysInYear(year);
      year := year + 1;
    }
  }

  /** The month loop of `unix_to_datetime`; it stays within 1..12. */
  method TakeMonths(inYear: nat, year: int) returns (month: nat, days: nat)
    requires inYear < DaysInYear(year)
    ensures (month, days) == MonthOf(inYear, year, 1)
  {
    days := inYear;
    month := 1;
    while days >= DaysInMonth(year, month)
      invariant 1 <= month <= 12
      invariant days < DaysInYear(year) - DaysBeforeMonth(year, month)
      invariant MonthOf(days, year, month) == MonthOf(inYear, year, 1)
      decreases days
    {
      MonthsFillYear(year);
      days := days - DaysInMonth(year, month);
      month := month + 1;
    }
  }

  /** `unix_to_datetime`, for every time whose year fits an `int`. */
  method UnixToDatetime(unixTime: nat, dt: Tm)
    requires unixTime < DaysBeforeYear(INT_MAX + 1) * SECONDS_PER_DAY
    modifies dt
    ensures dt.AsDate() == FromUnix(unixTime)
    ensures dt.AsDate().Valid() && 1970 <= dt.tm_year <= INT_MAX
    ensures dt.AsDate().ToUnix() == unixTime
  {
    var seconds := unixTime;
    dt.tm_sec := seconds % 60;
    seconds := seconds / 60;
    dt.tm_min := seconds % 60;
    seconds := seconds / 60;
    dt.tm_hour := seconds % 24;
    var year, inYear := TakeYears(seconds / 24);
    var month, days := TakeMonths(inYear, year);
    dt.tm_mday := (days + 1) % 0x100;
    dt.tm_mon := month % 0x100;
    dt.tm_year := year;
    ToUnixOfFromUnix(unixTime);
    YearFits(unixTime);
  }

  /** `datetime_to_unix`: 64-bit unsigned arithmetic, so the result is reduced modulo 2^64. */
  method DatetimeToUnix(dt: Tm) returns (seconds: nat)
    requires dt.tm_mon <= 13
    ensures seconds == dt.AsDate().ToUnix() % TWO_TO_THE_64
  {
    var year, month, day := dt.tm_year, dt.tm_mon, dt.tm_mday;
    var days: int := 0;
    var y := 1970;
    while y < year
      invariant 1970 <= y && (y <= year || y == 1970) && days == DaysBeforeYear(y)
    {
      days := days + if IsLeapYear(y) then 366 else 365;
      y := y + 1;
    }
    var m := 1;
    while m < month
      invariant 1 <= m && (m <= month || m == 1)
      invariant days == DaysBeforeYear(year) + DaysBeforeMonth(year, m)
    {
      days := days + DAYS_PER_MONTH[m - 1];
      if m == 2 && IsLeapYear(year) {
        days := days + 1;
      }
      m := m + 1;
    }
    days := days + day - 1;
    var total := days * SECONDS_PER_DAY;
    total := total + dt.tm_hour * 3600;
    total := total + dt.tm_min * 60;
    total := total + dt.tm_sec;
    seconds := total % TWO_TO_THE_64;
  }

  lemma {:induction false} YearOfCounts(days: nat, year: int)
    requires year >= 1970
    ensures var (y, rest) := YearOf(days, year);
      DaysBeforeYear(y) + rest == DaysBeforeYear(year) + days
    decreases days
  {
    if days >= DaysInYear(year) {
      YearOfCounts(days - DaysInYear(year), year + 1);
    }
  }

  lemma {:induction false} MonthOfCounts(days: nat, year: int, month: nat)
    requires 1 <= month <= 12 && days < DaysInYear(year) - DaysBeforeMonth(year, month)
    ensures var (m, rest) := MonthOf(days, year, month);
      DaysBeforeMonth(year, m) + rest == DaysBeforeMonth(year, month) + days
    decreases 12 - month
  {
    MonthsFillYear(year);
    if days >= DaysInMonth(year, month) {
      MonthOfCounts(days - DaysInMonth(year, month), year, month + 1);
    }
  }

  /** Converting to a date and back is the identity. */
  lemma ToUnixOfFromUnix(t: nat)
    ensures FromUnix(t).Valid() && FromUnix(t).year >= 1970
    ensures FromUnix(t).ToUnix() == t
  {
    var days := t / 60 / 60 / 24;
    YearOfCounts(days, 1970);
    var (year, inYear) := YearOf(days, 1970);
    MonthOfCounts(inYear, year, 1);
    SplitSeconds(t);
  }

  lemma SplitSeconds(t: nat)
    ensures t == t / 60 / 60 / 24 * 86400 + t / 60 / 60 % 24 * 3600 + t / 60 % 60 * 60 + t % 60
  {
    var m := t / 60;
    var h := m / 60;
    assert t == 60 * m + t % 60 && m == 60 * h + m % 60 && h == 24 * (h / 24) + h % 24;
  }

  lemma {:induction false} DaysBeforeYearGrows(a: int, b: int)
    requires 1970 <= a < b
    ensures DaysBeforeYear(a) + DaysInYear(a) <= DaysBeforeYear(b)
    decreases b
  {
    if a + 1 < b {
      DaysBeforeYearGrows(a, b - 1);
    }
  }

  lemma {:induction false} DaysBeforeMonthGrows(year: int, a: int, b: int)
    requires 1 <= a < b <= 13
    ensures DaysBeforeMonth(year, a) + DaysInMonth(year, a) <= DaysBeforeMonth(year, b)
    decreases b
  {
    if a + 1 < b {
      DaysBeforeMonthGrows(year, a, b - 1);
    }
  }

  lemma DayInYear(d: Date)
    requires d.Valid()
    ensures 0 <= DaysBeforeMonth(d.year, d.month) + d.day - 1 < DaysInYear(d.year)
  {
    MonthsFillYear(d.year);
    DaysBeforeMonthGrows(d.year, d.month, 13);
  }

  lemma EarlierDayEarlierNumber(a: Date, b: Date)
    requires a.Valid() && b.Valid() && a.year >= 1970
    requires a.year < b.year || (a.year == b.year && (a.month < b.month || (a.month == b.month && a.day < b.day)))
    ensures a.DayNumber() < b.DayNumber()
  {
    DayInYear(a);
    DayInYear(b);
    if a.year < b.year {
      DaysBeforeYearGrows(a.year, b.year);
    } else if a.month < b.month {
      DaysBeforeMonthGrows(a.year, a.month, b.month);
    }
  }

  lemma BeforeIsLess(a: Date, b: Date)
    requires a.Valid() && b.Valid() && a.year >= 1970 && a.Before(b)
    ensures a.ToUnix() < b.ToUnix()
  {
    assert 0 <= a.SecondOfDay() < 86400 && 0 <= b.SecondOfDay() < 86400;
    if a.year == b.year && a.month == b.month && a.day == b.day {
      assert a.SecondOfDay() < b.SecondOfDay();
    } else {
      EarlierDayEarlierNumber(a, b);
    }
  }

  /** Both maps are strictly monotone: dates are ordered as their times are. */
  lemma ToUnixMonotone(a: Date, b: Date)
    requires a.Valid() && b.Valid() && a.year >= 1970 && b.year >= 1970
    ensures a.Before(b) <==> a.ToUnix() < b.ToUnix()
  {
    if a.Before(b) {
      BeforeIsLess(a, b);
    } else if b.Before(a) {
      BeforeIsLess(b, a);
    } else {
      assert a == b;
    }
  }

  lemma FromUnixMonotone(s: nat, t: nat)
    ensures s < t <==> FromUnix(s).Before(FromUnix(t))
  {
    ToUnixOfFromUnix(s);
    ToUnixOfFromUnix(t);
    ToUnixMonotone(FromUnix(s), FromUnix(t));
  }

  /** Converting a valid date to a time and back gives the date exactly when it is not before 1970. */
  lemma FromUnixOfToUnix(d: Date)
    requires d.Valid()
    ensures d.ToUnix() >= 0
    ensures FromUnix(d.ToUnix()) == d <==> d.year >= 1970
  {
    DayInYear(d);
    var e := FromUnix(d.ToUnix());
    ToUnixOfFromUnix(d.ToUnix());
    if d.year >= 1970 {
      ToUnixMonotone(d, e);
      ToUnixMonotone(e, d);
    }
  }

  /** The time of a date as arithmetic in its fields, without any table or loop; years before 1970 count no days. */
  lemma ToUnixClosed(d: Date)
    requires d.Valid()
    ensures d.ToUnix() ==
      ((((if d.year < 1970 then 0 else 365 * (d.year - 1970) + (d.year - 1969) / 4)
         + (367 * d.month - 362) / 12 - (if d.month <= 2 then 0 else if d.year % 4 == 0 then 1 else 2)
         + d.day - 1) * 24 + d.hour) * 60 + d.minute) * 60 + d.second
  {
    if d.year >= 1970 {
      DaysBeforeYearClosed(d.year);
    }
    DaysBeforeMonthClosed(d.year, d.month);
  }

  /** A date lies in its year. */
  lemma TimeInYear(d: Date)
    requires d.Valid() && d.year >= 1970
    ensures DaysBeforeYear(d.year) * SECONDS_PER_DAY <= d.ToUnix() < DaysBeforeYear(d.year + 1) * SECONDS_PER_DAY
  {
    DayInYear(d);
  }

  /** The year of a time fits an `int` exactly if the time is before the year 2^31. */
  lemma YearFits(t: nat)
    ensures FromUnix(t).year <= INT_MAX <==> t < DaysBeforeYear(INT_MAX + 1) * SECONDS_PER_DAY
  {
    ToUnixOfFromUnix(t);
    var year := FromUnix(t).year;
    TimeInYear(FromUnix(t));
    if year > INT_MAX + 1 {
      DaysBeforeYearGrows(INT_MAX + 1, year);
    } else if year < INT_MAX {
      DaysBeforeYearGrows(year + 1, INT_MAX + 1);
    }
  }

  /** No reduction modulo 2^64 takes place for a valid date from 1970 on whose year fits an `int`. */
  lemma NoWrap(d: Date)
    requires d.Valid() && d.year <= INT_MAX
    ensures 0 <= d.ToUnix() < TWO_TO_THE_64
  {
    DayInYear(d);
    if d.year >= 1970 {
      DaysBeforeYearClosed(d.year);
    }
  }
}
