/** ECMAScript time values and the proleptic Gregorian calendar in UTC: a time value is a
    count of milliseconds from 1970-01-01T00:00:00Z within +-8.64e15, its day is the floor of
    the count over 86,400,000, and `toISOString` writes that day's civil date. */
module Calendar {
  import opened Text

  const MsPerDay: int := 86400000
  const MsPerHour: int := 3600000
  const MaxTime: int := 8640000000000000

  /** The time values a valid `Date` can hold. */
  type TimeValue = t: int | -MaxTime <= t <= MaxTime

  datatype Date = Date(year: int, month: int, day: int)

  predicate Leap(y: int) {
    y % 4 == 0 && (y % 100 != 0 || y % 400 == 0)
  }

  function YearLength(y: int): int {
    if Leap(y) then 366 else 365
  }

  function MonthLength(y: int, m: int): int
    requires 1 <= m <= 12
  {
    if m == 2 then (if Leap(y) then 29 else 28)
    else if m == 4 || m == 6 || m == 9 || m == 11 then 30
    else 31
  }

  predicate ValidDate(d: Date) {
    1 <= d.month <= 12 && 1 <= d.day <= MonthLength(d.year, d.month)
  }

  /** Days of year `y` before the first of month `m` (`m == 13` gives the whole year). */
  function DaysBefore(y: int, m: int): (r: int)
    requires 1 <= m <= 13
    ensures r >= 0
  {
    if m == 1 then 0 else DaysBefore(y, m - 1) + MonthLength(y, m - 1)
  }

  lemma DaysBeforeYear(y: int)
    ensures DaysBefore(y, 13) == YearLength(y)
  {
    assert DaysBefore(y, 2) == 31;
    assert DaysBefore(y, 3) == 31 + MonthLength(y, 2);
    assert DaysBefore(y, 4) == DaysBefore(y, 3) + 31;
    assert DaysBefore(y, 5) == DaysBefore(y, 4) + 30;
    assert DaysBefore(y, 6) == DaysBefore(y, 5) + 31;
    assert DaysBefore(y, 7) == DaysBefore(y, 6) + 30;
    assert DaysBefore(y, 8) == DaysBefore(y, 7) + 31;
    assert DaysBefore(y, 9) == DaysBefore(y, 8) + 31;
    assert DaysBefore(y, 10) == DaysBefore(y, 9) + 30;
    assert DaysBefore(y, 11) == DaysBefore(y, 10) + 31;
    assert DaysBefore(y, 12) == DaysBefore(y, 11) + 30;
    assert DaysBefore(y, 13) == DaysBefore(y, 12) + 31;
  }

  lemma {:induction false} DaysBeforeMonotone(y: int, m: int, n: int)
    requires 1 <= m < n <= 13
    ensures DaysBefore(y, m) + MonthLength(y, m) <= DaysBefore(y, n)
    decreases n - m
  {
    if m + 1 < n {
      DaysBeforeMonotone(y, m + 1, n);
    }
  }

  /** Days from 1970-01-01 to January 1 of year `y`; negative before 1970. */
  function YearStart(y: int): int
    decreases if y < 1970 then 1970 - y else y - 1970
  {
    if y == 1970 then 0
    else if y > 1970 then YearStart(y - 1) + YearLength(y - 1)
    else YearStart(y + 1) - YearLength(y)
  }

  lemma YearStep(y: int)
    ensures YearStart(y + 1) == YearStart(y) + YearLength(y)
  {
  }

  lemma {:induction false} YearStartMonotone(a: int, b: int)
    requires a < b
    ensures YearStart(a) + YearLength(a) <= YearStart(b)
    decreases b - a
  {
    YearStep(a);
    if a + 1 < b {
      YearStartMonotone(a + 1, b);
    }
  }

  /** The day number of a date: days since 1970-01-01. */
  function DayNumber(d: Date): int
    requires ValidDate(d)
  {
    YearStart(d.year) + DaysBefore(d.year, d.month) + d.day - 1
  }

  /** The date `z` days after the first of month `m` of year `y`, within that year. */
  function MonthOf(y: int, z: int, m: int): (d: Date)
    requires 1 <= m <= 12 && 0 <= z && DaysBefore(y, m) + z < YearLength(y)
    ensures ValidDate(d) && d.year == y
    ensures DaysBefore(y, d.month) + d.day - 1 == DaysBefore(y, m) + z
    decreases 12 - m
  {
    DaysBeforeYear(y);
    if z < MonthLength(y, m) then Date(y, m, z + 1)
    else MonthOf(y, z - MonthLength(y, m), m + 1)
  }

  /** The date `z` days after January 1 of year `y` (`z` may be negative); the bounds on
      the year are what keep every year of a time value within six digits. */
  function CivilFrom(y: int, z: int): (d: Date)
    ensures ValidDate(d) && DayNumber(d) == YearStart(y) + z
    ensures 0 <= z ==> y <= d.year && 365 * (d.year - y) <= z
    ensures 0 <= z < YearLength(y) ==> d.year == y
    ensures z < 0 ==> d.year < y && 365 * (y - d.year - 1) <= -z
    decreases if z < 0 then 400 - z else if z >= YearLength(y) then z else 0
  {
    if z < 0 then
      YearStep(y - 1);
      CivilFrom(y - 1, z + YearLength(y - 1))
    else if z >= YearLength(y) then
      YearStep(y);
      CivilFrom(y + 1, z - YearLength(y))
    else
      MonthOf(y, z, 1)
  }

  /** The civil date of day number `n`. */
  function DateOf(n: int): (d: Date)
    ensures ValidDate(d) && DayNumber(d) == n
  {
    CivilFrom(1970, n)
  }

  /** Different dates have different day numbers. */
  lemma DayNumberInjective(d: Date, e: Date)
    requires ValidDate(d) && ValidDate(e) && DayNumber(d) == DayNumber(e)
    ensures d == e
  {
    DaysBeforeYear(d.year);
    DaysBeforeYear(e.year);
    DayInYear(d);
    DayInYear(e);
    if d.year < e.year {
      YearStartMonotone(d.year, e.year);
    } else if e.year < d.year {
      YearStartMonotone(e.year, d.year);
    } else if d.month < e.month {
      DaysBeforeMonotone(d.year, d.month, e.month);
    } else if e.month < d.month {
      DaysBeforeMonotone(d.year, e.month, d.month);
    }
  }

  lemma DayInYear(d: Date)
    requires ValidDate(d)
    ensures DaysBefore(d.year, d.month) + d.day - 1 < YearLength(d.year)
  {
    DaysBeforeYear(d.year);
    if d.month < 12 {
      DaysBeforeMonotone(d.year, d.month, 13);
    }
  }

  /** `DateOf` and `DayNumber` are inverse bijections between day numbers and valid dates. */
  lemma DateOfDayNumber(d: Date)
    requires ValidDate(d)
    ensures DateOf(DayNumber(d)) == d
  {
    DayNumberInjective(DateOf(DayNumber(d)), d);
  }

  /** The UTC date of a time value: the civil date of `floor(t / 86400000)`; its year has at
      most six digits. */
  function UtcDate(t: TimeValue): (d: Date)
    ensures ValidDate(d) && DayNumber(d) == t / MsPerDay
    ensures -1000000 < d.year < 1000000
  {
    DateOf(t / MsPerDay)
  }

  /** `getUTCHours()`: the hour of the day, in 0..23. */
  function UtcHours(t: TimeValue): (h: int)
    ensures 0 <= h < 24
    ensures t / MsPerDay * MsPerDay + h * MsPerHour <= t < t / MsPerDay * MsPerDay + (h + 1) * MsPerHour
  {
    (t / MsPerHour) % 24
  }

  /** The year field of `toISOString`: four digits for years 0 to 9999, otherwise a sign
      and six digits. */
  function IsoYear(y: int): (r: string)
    requires -1000000 < y < 1000000
    ensures 0 <= y <= 9999 ==> |r| == 4 && AllDigits(r) && DecimalValue(r) == y
    ensures y < 0 ==> |r| == 7 && r[0] == '-' && AllDigits(r[1..]) && DecimalValue(r[1..]) == -y
    ensures y > 9999 ==> |r| == 7 && r[0] == '+' && AllDigits(r[1..]) && DecimalValue(r[1..]) == y
  {
    assert Pow10(4) == 10000 && Pow10(6) == 1000000;
    if 0 <= y <= 9999 then ZeroPad(y, 4)
    else
      var digits := ZeroPad(if y < 0 then -y else y, 6);
      var r := (if y < 0 then "-" else "+") + digits;
      assert r[1..] == digits;
      r
  }

  /** The date part of `toISOString()`: `<year>-MM-DD`. */
  function IsoDate(d: Date): (r: string)
    requires ValidDate(d) && -1000000 < d.year < 1000000
    ensures |r| >= 10
  {
    assert Pow10(2) == 100;
    IsoYear(d.year) + "-" + ZeroPad(d.month, 2) + "-" + ZeroPad(d.day, 2)
  }

  /** `s.replace(/-/g, '')`. */
  function DropDashes(s: string): (r: string)
    ensures |r| <= |s|
    ensures forall i :: 0 <= i < |r| ==> r[i] != '-'
  {
    if s == [] then [] else (if s[0] == '-' then [] else [s[0]]) + DropDashes(s[1..])
  }

  lemma {:induction false} DropDashesAppend(a: string, b: string)
    ensures DropDashes(a + b) == DropDashes(a) + DropDashes(b)
    decreases |a|
  {
    if a == [] {
      assert a + b == b;
    } else {
      assert (a + b)[1..] == a[1..] + b;
      DropDashesAppend(a[1..], b);
    }
  }

  lemma {:induction false} DropDashesDigits(s: string)
    requires AllDigits(s)
    ensures DropDashes(s) == s
    decreases |s|
  {
    if s != [] {
      DropDashesDigits(s[1..]);
      assert s == [s[0]] + s[1..];
    }
  }
}
