/**
 * ECMAScript date arithmetic (section 21.4.1 of ECMA-262) over integer time values, and the
 * proleptic Gregorian calendar it must agree with.
 */
module Gregorian {

  const MS_PER_DAY := 86_400_000

  datatype Date = Date(year: int, month: int, day: int)

  predicate Leap(y: int) {
    y % 4 == 0 && (y % 100 != 0 || y % 400 == 0)
  }

  // ---- The calendar, by its own rules ----

  function DaysInMonth(y: int, m: int): int {
    if m == 2 then if Leap(y) then 29 else 28
    else if m == 4 || m == 6 || m == 9 || m == 11 then 30
    else 31
  }

  predicate RealDate(d: Date) {
    1 <= d.month <= 12 && 1 <= d.day <= DaysInMonth(d.year, d.month)
  }

  function NextDay(d: Date): Date {
    if d.day < DaysInMonth(d.year, d.month) then Date(d.year, d.month, d.day + 1)
    else if d.month < 12 then Date(d.year, d.month + 1, 1)
    else Date(d.year + 1, 1, 1)
  }

  // ---- The date object ----

  function DayFromYear(y: int): int {
    365 * (y - 1970) + (y - 1969) / 4 - (y - 1901) / 100 + (y - 1601) / 400
  }

  /** Days before the zero-based month `m` of a year. */
  function MonthStart(m: int, leap: bool): int {
    var shift := if leap then 1 else 0;
    if m <= 0 then 0
    else if m == 1 then 31
    else if m == 2 then 59 + shift
    else if m == 3 then 90 + shift
    else if m == 4 then 120 + shift
    else if m == 5 then 151 + shift
    else if m == 6 then 181 + shift
    else if m == 7 then 212 + shift
    else if m == 8 then 243 + shift
    else if m == 9 then 273 + shift
    else if m == 10 then 304 + shift
    else if m == 11 then 334 + shift
    else 365 + shift
  }

  /** MakeDay: month and date may lie outside their ranges and carry over. */
  function MakeDay(y: int, m: int, date: int): int {
    var ym, mn := y + m / 12, m % 12;
    DayFromYear(ym) + MonthStart(mn, Leap(ym)) + date - 1
  }

  /** YearFromTime, searched upward from a year that has already begun. */
  function YearFromDay(d: int, from: int): (y: int)
    requires DayFromYear(from) <= d
    ensures from <= y && DayFromYear(y) <= d < DayFromYear(y + 1)
    decreases d - DayFromYear(from)
  {
    YearLength(from);
    if d < DayFromYear(from + 1) then from else YearFromDay(d, from + 1)
  }

  function MonthFromDayInYear(dy: int, leap: bool): (m: int)
    requires 0 <= dy < MonthStart(12, leap)
    ensures 0 <= m <= 11 && MonthStart(m, leap) <= dy < MonthStart(m + 1, leap)
  {
    if dy < MonthStart(1, leap) then 0
    else if dy < MonthStart(2, leap) then 1
    else if dy < MonthStart(3, leap) then 2
    else if dy < MonthStart(4, leap) then 3
    else if dy < MonthStart(5, leap) then 4
    else if dy < MonthStart(6, leap) then 5
    else if dy < MonthStart(7, leap) then 6
    else if dy < MonthStart(8, leap) then 7
    else if dy < MonthStart(9, leap) then 8
    else if dy < MonthStart(10, leap) then 9
    else if dy < MonthStart(11, leap) then 10
    else 11
  }

  /** getUTCFullYear, getUTCMonth() + 1 and getUTCDate of a day number. */
  function DateOfDay(d: int, from: int): Date
    requires DayFromYear(from) <= d
  {
    var y := YearFromDay(d, from);
    YearLength(y);
    var dy := d - DayFromYear(y);
    var m := MonthFromDayInYear(dy, Leap(y));
    Date(y, m + 1, dy - MonthStart(m, Leap(y)) + 1)
  }

  lemma YearLength(y: int)
    ensures DayFromYear(y + 1) - DayFromYear(y) == MonthStart(12, Leap(y)) == if Leap(y) then 366 else 365
  {
    Fourths(y);
    Hundredths(y);
    FourHundredths(y);
    LeapDay(y);
  }

  lemma LeapDay(y: int)
    ensures (if y % 4 == 0 then 1 else 0) - (if y % 100 == 0 then 1 else 0) + (if y % 400 == 0 then 1 else 0)
      == if Leap(y) then 1 else 0
  {
    Divides(y);
  }

  lemma Divides(y: int)
    ensures y % 400 == 0 ==> y % 100 == 0
    ensures y % 100 == 0 ==> y % 4 == 0
  {
    HundredTimes(4 * (y / 400));
    FourTimes(25 * (y / 100));
  }

  lemma HundredTimes(k: int)
    ensures 100 * k % 100 == 0
  {
  }

  lemma FourTimes(k: int)
    ensures 4 * k % 4 == 0
  {
  }

  lemma Fourths(y: int)
    ensures (y + 1 - 1969) / 4 - (y - 1969) / 4 == if y % 4 == 0 then 1 else 0
  {
  }

  lemma Hundredths(y: int)
    ensures (y + 1 - 1901) / 100 - (y - 1901) / 100 == if y % 100 == 0 then 1 else 0
  {
  }

  lemma FourHundredths(y: int)
    ensures (y + 1 - 1601) / 400 - (y - 1601) / 400 == if y % 400 == 0 then 1 else 0
  {
  }

  lemma MonthLength(y: int, m: int)
    requires 1 <= m <= 12
    ensures MonthStart(m, Leap(y)) - MonthStart(m - 1, Leap(y)) == DaysInMonth(y, m)
  {
  }

  lemma {:induction false} YearsGrow(x: int, y: int)
    requires x < y
    ensures DayFromYear(x + 1) <= DayFromYear(y)
    decreases y - x
  {
    if x + 1 < y {
      YearLength(x + 1);
      YearsGrow(x + 1, y);
    }
  }

  /** A day number lies in one year only, wherever the search starts. */
  lemma YearIsUnique(d: int, from: int, y: int)
    requires DayFromYear(from) <= d && DayFromYear(y) <= d < DayFromYear(y + 1)
    ensures YearFromDay(d, from) == y
  {
    var found := YearFromDay(d, from);
    if found < y {
      YearsGrow(found, y);
    } else if y < found {
      YearsGrow(y, found);
    }
  }

  lemma MonthIsUnique(dy: int, leap: bool, m: int)
    requires 0 <= m <= 11 && MonthStart(m, leap) <= dy < MonthStart(m + 1, leap)
    ensures 0 <= dy < MonthStart(12, leap) && MonthFromDayInYear(dy, leap) == m
  {
  }

  lemma MakeDayInRange(y: int, m: int, d: int)
    requires 1 <= m <= 12
    ensures MakeDay(y, m - 1, d) == DayFromYear(y) + MonthStart(m - 1, Leap(y)) + d - 1
  {
  }

  /** MakeDay counts calendar days: 1970-01-01 is day 0 and each next day is one more. */
  lemma MakeDayCountsDays(d: Date)
    requires RealDate(d)
    ensures RealDate(NextDay(d))
    ensures MakeDay(NextDay(d).year, NextDay(d).month - 1, NextDay(d).day) == MakeDay(d.year, d.month - 1, d.day) + 1
    ensures MakeDay(1970, 0, 1) == 0
  {
    hide DayFromYear, Leap, MakeDay;
    var next := NextDay(d);
    MonthLength(d.year, d.month);
    YearLength(d.year);
    MakeDayInRange(d.year, d.month, d.day);
    MakeDayInRange(next.year, next.month, next.day);
    EpochIsDayZero();
  }

  lemma EpochIsDayZero()
    ensures MakeDay(1970, 0, 1) == 0
  {
  }

  /** A real date survives the round trip through its day number. */
  lemma RealDateReturns(d: Date, from: int)
    requires RealDate(d) && DayFromYear(from) <= MakeDay(d.year, d.month - 1, d.day)
    ensures DateOfDay(MakeDay(d.year, d.month - 1, d.day), from) == d
  {
    hide DayFromYear, Leap, MakeDay;
    var m := d.month - 1;
    MakeDayInRange(d.year, d.month, d.day);
    MonthLength(d.year, d.month);
    YearLength(d.year);
    var day := MakeDay(d.year, m, d.day);
    YearIsUnique(day, from, d.year);
    MonthIsUnique(day - DayFromYear(d.year), Leap(d.year), m);
  }

  /** Every day number is some real date's. */
  lemma DayHasRealDate(day: int, from: int)
    requires DayFromYear(from) <= day
    ensures var d := DateOfDay(day, from);
      RealDate(d) && d.year >= from && MakeDay(d.year, d.month - 1, d.day) == day
  {
    hide DayFromYear, Leap, MakeDay;
    var d := DateOfDay(day, from);
    YearLength(d.year);
    MonthLength(d.year, d.month);
    MakeDayInRange(d.year, d.month, d.day);
  }

  /**
   * Normalise and compare: writing year, month and day into a date object and reading the
   * same three back happens exactly for real dates, however far out of range they were.
   */
  lemma NormaliseAndCompare(d: Date, from: int)
    requires DayFromYear(from) <= MakeDay(d.year, d.month - 1, d.day)
    ensures DateOfDay(MakeDay(d.year, d.month - 1, d.day), from) == d <==> RealDate(d)
  {
    if RealDate(d) {
      RealDateReturns(d, from);
    } else {
      DayHasRealDate(MakeDay(d.year, d.month - 1, d.day), from);
    }
  }

  /** The dates the check can build never precede the year before theirs. */
  lemma ProbeIsInRange(y: int, m: int, d: int)
    requires 1 <= m + 1 <= 100 || m == -1
    requires 0 <= d <= 99
    ensures DayFromYear(y - 1) <= MakeDay(y, m, d)
  {
    var ym, mn := y + m / 12, m % 12;
    assert ym >= y - 1;
    YearLength(y - 1);
    if ym > y - 1 {
      YearsGrow(y - 1, ym);
    }
  }
}
