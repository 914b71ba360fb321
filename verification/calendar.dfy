/** Calendar fields of a timestamp, as pandas' `.dt.year`, `.dt.month`, `.dt.hour` and
    `.dt.day_name()` compute them for a UTC-naive `datetime64` column: the proleptic Gregorian
    calendar, counted from 1970-01-01T00:00:00. */
module Calendar {

  const MillisPerHour: real := 3600000.0
  const MillisPerDay: real := 86400000.0

  predicate IsLeapYear(y: int) {
    y % 4 == 0 && (y % 100 != 0 || y % 400 == 0)
  }

  function DaysInYear(y: int): int {
    if IsLeapYear(y) then 366 else 365
  }

  /** Days from 1970-01-01 to 1 January of year `y` (negative before 1970). */
  function YearStart(y: int): int
    decreases if y >= 1970 then y - 1970 else 1970 - y
  {
    if y == 1970 then 0
    else if y > 1970 then YearStart(y - 1) + DaysInYear(y - 1)
    else YearStart(y + 1) - DaysInYear(y)
  }

  lemma YearStartStep(y: int)
    ensures YearStart(y + 1) == YearStart(y) + DaysInYear(y)
  {
  }

  /** Starting from 1 January of year `y`, walks `z` days (backwards when `z < 0`) and returns
      the year reached and the zero-based day within it. */
  function WalkYears(y: int, z: int): (r: (int, int))
    ensures 0 <= r.1 < DaysInYear(r.0)
    ensures YearStart(r.0) + r.1 == YearStart(y) + z
    decreases if z < 0 then 1000 - z else z
  {
    if z < 0 then
      YearStartStep(y - 1);
      WalkYears(y - 1, z + DaysInYear(y - 1))
    else if z < DaysInYear(y) then (y, z)
    else
      YearStartStep(y);
      WalkYears(y + 1, z - DaysInYear(y))
  }

  /** Each day belongs to one year only: two (year, day-of-year) positions naming the same day
      are the same position. */
  lemma {:induction false} YearPositionUnique(y1: int, d1: int, y2: int, d2: int)
    requires 0 <= d1 < DaysInYear(y1) && 0 <= d2 < DaysInYear(y2)
    requires YearStart(y1) + d1 == YearStart(y2) + d2
    ensures y1 == y2 && d1 == d2
    decreases if y1 < y2 then y2 - y1 else y1 - y2
  {
    if y1 < y2 {
      YearStartStep(y1);
      YearStartMonotone(y1 + 1, y2);
    } else if y2 < y1 {
      YearStartStep(y2);
      YearStartMonotone(y2 + 1, y1);
    }
  }

  lemma {:induction false} YearStartMonotone(a: int, b: int)
    requires a <= b
    ensures YearStart(a) <= YearStart(b)
    decreases b - a
  {
    if a < b {
      YearStartStep(a);
      YearStartMonotone(a + 1, b);
    }
  }

  // ---------------------------------------------------------------------------
  // Months
  // ---------------------------------------------------------------------------

  function MonthLength(m: int, leap: bool): int {
    if m == 2 then (if leap then 29 else 28)
    else if m == 4 || m == 6 || m == 9 || m == 11 then 30
    else 31
  }

  /** Days in the months of the year before month `m`. */
  function DaysBeforeMonth(m: int, leap: bool): int
    requires 1 <= m <= 12
  {
    var common := [0, 31, 59, 90, 120, 151, 181, 212, 243, 273, 304, 334][m - 1];
    if leap && m > 2 then common + 1 else common
  }

  /** From month `m`, walks `d` days forward and returns the (month, day-of-month) reached. */
  function WalkMonths(m: int, d: int, leap: bool): (r: (int, int))
    requires 1 <= m <= 12 && 0 <= d
    requires DaysBeforeMonth(m, leap) + d < (if leap then 366 else 365)
    ensures 1 <= r.0 <= 12 && 1 <= r.1 <= MonthLength(r.0, leap)
    ensures DaysBeforeMonth(r.0, leap) + r.1 - 1 == DaysBeforeMonth(m, leap) + d
    decreases 12 - m
  {
    if m == 12 || d < MonthLength(m, leap) then (m, d + 1)
    else WalkMonths(m + 1, d - MonthLength(m, leap), leap)
  }

  // ---------------------------------------------------------------------------
  // Timestamps
  // ---------------------------------------------------------------------------

  datatype Date = Date(year: int, month: int, day: int)

  predicate ValidDate(d: Date) {
    1 <= d.month <= 12 && 1 <= d.day <= MonthLength(d.month, IsLeapYear(d.year))
  }

  /** Days from 1970-01-01 to the date. */
  function EpochDay(d: Date): int
    requires ValidDate(d)
  {
    YearStart(d.year) + DaysBeforeMonth(d.month, IsLeapYear(d.year)) + d.day - 1
  }

  /** The calendar date of the day `z` days after 1970-01-01. */
  function DateOfDay(z: int): (d: Date)
    ensures ValidDate(d)
    ensures EpochDay(d) == z
  {
    var (y, doy) := WalkYears(1970, z);
    var (m, day) := WalkMonths(1, doy, IsLeapYear(y));
    Date(y, m, day)
  }

  /** Dates and day numbers correspond one to one: a valid date read back from its day number
      is itself. */
  lemma DateOfEpochDay(d: Date)
    requires ValidDate(d)
    ensures DateOfDay(EpochDay(d)) == d
  {
    var leap := IsLeapYear(d.year);
    var doy := DaysBeforeMonth(d.month, leap) + d.day - 1;
    assert 0 <= doy < DaysInYear(d.year) by {
      assert DaysBeforeMonth(d.month, leap) + MonthLength(d.month, leap) <= DaysInYear(d.year);
    }
    var r := DateOfDay(EpochDay(d));
    YearPositionUnique(r.year, DaysBeforeMonth(r.month, IsLeapYear(r.year)) + r.day - 1, d.year, doy);
    assert DaysBeforeMonth(r.month, leap) + r.day - 1 == doy;
    MonthPositionUnique(r.month, r.day, d.month, d.day, leap);
  }

  lemma MonthPositionUnique(m1: int, d1: int, m2: int, d2: int, leap: bool)
    requires 1 <= m1 <= 12 && 1 <= d1 <= MonthLength(m1, leap)
    requires 1 <= m2 <= 12 && 1 <= d2 <= MonthLength(m2, leap)
    requires DaysBeforeMonth(m1, leap) + d1 == DaysBeforeMonth(m2, leap) + d2
    ensures m1 == m2 && d1 == d2
  {
  }

  /** The day a timestamp falls on, counted from 1970-01-01 (floor division). */
  function EpochDayOf(ms: real): int {
    (ms / MillisPerDay).Floor
  }

  function DateOf(ms: real): (d: Date)
    ensures ValidDate(d)
  {
    DateOfDay(EpochDayOf(ms))
  }

  /** Day number `z` lies in year `y`. */
  predicate DayInYear(z: int, y: int) {
    YearStart(y) <= z < YearStart(y + 1)
  }

  /** The timestamp's day lies in month `m` of the year `YearOf` gives. */
  predicate DayInMonth(ms: real, m: int) {
    var y := YearOf(ms);
    var leap := IsLeapYear(y);
    var doy := EpochDayOf(ms) - YearStart(y);
    1 <= m <= 12 && DaysBeforeMonth(m, leap) <= doy < DaysBeforeMonth(m, leap) + MonthLength(m, leap)
  }

  /** `.dt.year`: the year the timestamp's day lies in. */
  function YearOf(ms: real): (y: int)
    ensures DayInYear(EpochDayOf(ms), y)
  {
    var d := DateOf(ms);
    YearStartStep(d.year);
    d.year
  }

  /** No other year holds the timestamp's day. */
  lemma YearOfOnly(ms: real, y: int)
    requires DayInYear(EpochDayOf(ms), y)
    ensures YearOf(ms) == y
  {
    var z, y' := EpochDayOf(ms), YearOf(ms);
    YearStartStep(y);
    YearStartStep(y');
    YearPositionUnique(y, z - YearStart(y), y', z - YearStart(y'));
  }

  /** `.dt.month`: the month, within its year, that the timestamp's day lies in. */
  function MonthOf(ms: real): (m: int)
    ensures 1 <= m <= 12
    ensures DayInMonth(ms, m)
  {
    DateOf(ms).month
  }

  /** No other month holds the timestamp's day. */
  lemma MonthOfOnly(ms: real, m: int)
    requires DayInMonth(ms, m)
    ensures MonthOf(ms) == m
  {
    var y := YearOf(ms);
    var leap := IsLeapYear(y);
    var doy := EpochDayOf(ms) - YearStart(y);
    var m' := MonthOf(ms);
    MonthPositionUnique(m, doy - DaysBeforeMonth(m, leap) + 1, m', doy - DaysBeforeMonth(m', leap) + 1, leap);
  }

  /** `.dt.hour`. */
  function HourOf(ms: real): (h: int)
    ensures 0 <= h < 24
  {
    (ms / MillisPerHour).Floor % 24
  }

  const DayNames: seq<string> := ["Monday", "Tuesday", "Wednesday", "Thursday", "Friday", "Saturday", "Sunday"]

  /** `.dt.day_name()`; 1970-01-01 was a Thursday. */
  function DayNameOf(ms: real): (name: string)
    ensures name in DayNames
  {
    DayNames[(EpochDayOf(ms) + 3) % 7]
  }

  /** The epoch itself is Thursday, 1 January 1970, hour 0. */
  lemma EpochFields()
    ensures DateOf(0.0) == Date(1970, 1, 1)
    ensures HourOf(0.0) == 0 && DayNameOf(0.0) == "Thursday"
  {
    assert 0.0 / MillisPerDay == 0.0 && 0.0 / MillisPerHour == 0.0;
    assert EpochDayOf(0.0) == 0;
    var d := Date(1970, 1, 1);
    assert ValidDate(d) && EpochDay(d) == 0;
    DateOfEpochDay(d);
    assert HourOf(0.0) == 0;
    assert (EpochDayOf(0.0) + 3) % 7 == 3 && DayNames[3] == "Thursday";
  }
}
