/**
 * The calendar fields of a timestamp given in milliseconds since 1970-01-01T00:00:00
 * (no time zone), as the data-frame datetime accessors compute them: proleptic
 * Gregorian year, month and day, hour of day, weekday with Monday = 0, and ISO
 * week of the year.
 */
module Calendar {

  const MsPerHour: int := 3600000
  const MsPerDay: int := 86400000

  predicate IsLeapYear(y: int)
  {
    y % 4 == 0 && (y % 100 != 0 || y % 400 == 0)
  }

  function DaysInYear(y: int): int
  {
    if IsLeapYear(y) then 366 else 365
  }

  /** Number of days from 1970-01-01 to January 1st of year `y` (negative before 1970). */
  function DaysBeforeYear(y: int): int
    decreases if y >= 1970 then y - 1970 else 1970 - y
  {
    if y == 1970 then 0
    else if y > 1970 then DaysBeforeYear(y - 1) + DaysInYear(y - 1)
    else DaysBeforeYear(y + 1) - DaysInYear(y)
  }

  lemma DaysBeforeNextYear(y: int)
    ensures DaysBeforeYear(y + 1) == DaysBeforeYear(y) + DaysInYear(y)
  {
  }

  /** January 1st moves forward by at least 365 days a year. */
  lemma {:induction false} DaysBeforeYearGrows(y1: int, y2: int)
    requires y1 <= y2
    ensures DaysBeforeYear(y1) + 365 * (y2 - y1) <= DaysBeforeYear(y2)
    decreases y2 - y1
  {
    if y1 < y2 {
      DaysBeforeYearGrows(y1, y2 - 1);
      DaysBeforeNextYear(y2 - 1);
    }
  }

  /** The year containing day `days`, searching forward from year `y`. */
  function YearFrom(y: int, days: int): (r: int)
    requires DaysBeforeYear(y) <= days
    ensures y <= r && DaysBeforeYear(r) <= days < DaysBeforeYear(r) + DaysInYear(r)
    decreases days - DaysBeforeYear(y)
  {
    DaysBeforeNextYear(y);
    if days < DaysBeforeYear(y + 1) then y else YearFrom(y + 1, days)
  }

  /** The year containing day `days`, searching backward from year `y`. */
  function YearBefore(y: int, days: int): (r: int)
    requires days < DaysBeforeYear(y) + DaysInYear(y)
    ensures r <= y && DaysBeforeYear(r) <= days < DaysBeforeYear(r) + DaysInYear(r)
    decreases DaysBeforeYear(y) - days
  {
    DaysBeforeNextYear(y - 1);
    if DaysBeforeYear(y) <= days then y else YearBefore(y - 1, days)
  }

  /** The year that contains day number `days` (day 0 is 1970-01-01). */
  function YearOf(days: int): (y: int)
    ensures DaysBeforeYear(y) <= days < DaysBeforeYear(y) + DaysInYear(y)
  {
    DaysBeforeNextYear(1969);
    if days >= 0 then YearFrom(1970, days) else YearBefore(1969, days)
  }

  /** A day belongs to exactly one year. */
  lemma YearOfUnique(days: int, y: int)
    requires DaysBeforeYear(y) <= days < DaysBeforeYear(y) + DaysInYear(y)
    ensures YearOf(days) == y
  {
    var r := YearOf(days);
    if r < y {
      DaysBeforeNextYear(r);
      DaysBeforeYearGrows(r + 1, y);
    } else if y < r {
      DaysBeforeNextYear(y);
      DaysBeforeYearGrows(y + 1, r);
    }
  }

  function DaysInMonth(m: int, leap: bool): (n: int)
    requires 1 <= m <= 12
    ensures 28 <= n <= 31
  {
    if m == 2 then (if leap then 29 else 28)
    else if m == 4 || m == 6 || m == 9 || m == 11 then 30
    else 31
  }

  /** Days of the year that come before the first day of month `m`. */
  function DaysBeforeMonth(m: int, leap: bool): int
    requires 1 <= m <= 12
  {
    var l := if leap then 1 else 0;
    match m
    case 1 => 0
    case 2 => 31
    case 3 => 59 + l
    case 4 => 90 + l
    case 5 => 120 + l
    case 6 => 151 + l
    case 7 => 181 + l
    case 8 => 212 + l
    case 9 => 243 + l
    case 10 => 273 + l
    case 11 => 304 + l
    case _ => 334 + l
  }

  /** The months tile the year: each starts where the previous one ends. */
  lemma MonthsTileYear(m: int, leap: bool)
    requires 1 <= m <= 12
    ensures m < 12 ==> DaysBeforeMonth(m + 1, leap) == DaysBeforeMonth(m, leap) + DaysInMonth(m, leap)
    ensures m == 12 ==> DaysBeforeMonth(m, leap) + DaysInMonth(m, leap) == if leap then 366 else 365
  {
  }

  /** The month containing day-of-year `doy`, searching forward from month `m`. */
  function MonthFrom(m: int, doy: int, leap: bool): (r: int)
    requires 1 <= m <= 12
    requires DaysBeforeMonth(m, leap) <= doy < if leap then 366 else 365
    ensures m <= r <= 12
    ensures DaysBeforeMonth(r, leap) <= doy < DaysBeforeMonth(r, leap) + DaysInMonth(r, leap)
    decreases 12 - m
  {
    MonthsTileYear(m, leap);
    if m == 12 || doy < DaysBeforeMonth(m + 1, leap) then m else MonthFrom(m + 1, doy, leap)
  }

  datatype Date = Date(year: int, month: int, day: int)

  predicate ValidDate(d: Date)
  {
    1 <= d.month <= 12 && 1 <= d.day <= DaysInMonth(d.month, IsLeapYear(d.year))
  }

  /** Day number of a date (1970-01-01 is day 0). */
  function DaysFromCivil(d: Date): int
    requires ValidDate(d)
  {
    DaysBeforeYear(d.year) + DaysBeforeMonth(d.month, IsLeapYear(d.year)) + d.day - 1
  }

  /** The date of day number `days` (1970-01-01 is day 0). */
  function CivilFromDays(days: int): (d: Date)
    ensures ValidDate(d)
    ensures 1 <= d.day <= 31
    ensures DaysFromCivil(d) == days
  {
    var y := YearOf(days);
    var leap := IsLeapYear(y);
    var doy := days - DaysBeforeYear(y);
    var m := MonthFrom(1, doy, leap);
    Date(y, m, doy - DaysBeforeMonth(m, leap) + 1)
  }

  /** Every valid date is the date of its own day number. */
  lemma CivilRoundTrip(d: Date)
    requires ValidDate(d)
    ensures CivilFromDays(DaysFromCivil(d)) == d
  {
    var days := DaysFromCivil(d);
    var leap := IsLeapYear(d.year);
    MonthsTileYear(d.month, leap);
    MonthsTileYear(12, leap);
    YearOfUnique(days, d.year);
    var doy := days - DaysBeforeYear(d.year);
    var m := MonthFrom(1, doy, leap);
    MonthOfUnique(doy, leap, d.month, m);
  }

  lemma MonthOfUnique(doy: int, leap: bool, m1: int, m2: int)
    requires 1 <= m1 <= 12 && 1 <= m2 <= 12
    requires DaysBeforeMonth(m1, leap) <= doy < DaysBeforeMonth(m1, leap) + DaysInMonth(m1, leap)
    requires DaysBeforeMonth(m2, leap) <= doy < DaysBeforeMonth(m2, leap) + DaysInMonth(m2, leap)
    ensures m1 == m2
  {
  }

  /** Day of the week, Monday = 0 ... Sunday = 6; 1970-01-01 was a Thursday. */
  function Weekday(days: int): (w: int)
    ensures 0 <= w <= 6
  {
    (days + 3) % 7
  }

  /** Consecutive days have consecutive weekdays; 1970-01-05 was a Monday and 1970-01-11 a Sunday. */
  lemma WeekdayCycle(days: int)
    ensures Weekday(days + 1) == (Weekday(days) + 1) % 7
    ensures Weekday(days + 7) == Weekday(days)
    ensures Weekday(DaysFromCivil(Date(1970, 1, 5))) == 0
    ensures Weekday(DaysFromCivil(Date(1970, 1, 11))) == 6
  {
  }

  /** A Gregorian year has 53 ISO weeks when it starts on a Thursday, or on a Wednesday in a leap year. */
  function IsoWeeksInYear(y: int): int
  {
    var jan1 := Weekday(DaysBeforeYear(y));
    if jan1 == 3 || (IsLeapYear(y) && jan1 == 2) then 53 else 52
  }

  /** ISO-8601 week number of day `days`. */
  function IsoWeek(days: int): (w: int)
    ensures 1 <= w <= 53
  {
    var y := YearOf(days);
    var ordinal := days - DaysBeforeYear(y) + 1;
    var w := (ordinal - (Weekday(days) + 1) + 10) / 7;
    if w < 1 then IsoWeeksInYear(y - 1)
    else if w > IsoWeeksInYear(y) then 1
    else w
  }

  /**
   * The ISO week of a Thursday is the number of the week, counted in whole weeks
   * from January 1st, that holds it: week 1 holds the year's first Thursday.
   */
  lemma IsoWeekOfThursday(days: int)
    requires Weekday(days) == 3
    ensures IsoWeek(days) == (days - DaysBeforeYear(YearOf(days))) / 7 + 1
  {
    var y := YearOf(days);
    var ordinal := days - DaysBeforeYear(y) + 1;
    assert (ordinal - 4 + 10) / 7 == (days - DaysBeforeYear(y)) / 7 + 1;
    if ordinal >= 365 {
      var jan1 := Weekday(DaysBeforeYear(y));
      assert DaysBeforeYear(y) == days - (ordinal - 1);
      if ordinal == 365 {
        assert jan1 == 3;
      } else {
        assert IsLeapYear(y) && jan1 == 2;
      }
    }
  }

  /** Hour of the day of a millisecond timestamp. */
  function HourOf(ts: int): (h: int)
    ensures 0 <= h <= 23
  {
    (ts % MsPerDay) / MsPerHour
  }

  /** Day number (days since 1970-01-01) of a millisecond timestamp. */
  function DayOf(ts: int): int
  {
    ts / MsPerDay
  }

  /** The hour and date of a timestamp locate it: it lies in that hour of that day. */
  lemma TimestampRoundTrip(ts: int)
    ensures var d := CivilFromDays(DayOf(ts));
      DaysFromCivil(d) * MsPerDay + HourOf(ts) * MsPerHour <= ts < DaysFromCivil(d) * MsPerDay + (HourOf(ts) + 1) * MsPerHour
  {
  }
}
