/** Time values and civil dates, as section 21.4.1 of ECMA-262 defines them. */
module EcmaTime {
  import opened Prelude

  const MS_PER_DAY := 86_400_000
  const MAX_TIME := 8_640_000_000_000_000

  /** An absent value is NaN. */
  type Time = Option<int>

  /** Section 21.4.1.31. */
  function TimeClip(t: int): Time {
    if -MAX_TIME <= t <= MAX_TIME then Some(t) else None
  }

  /** Dafny's division by a positive constant is the floor the standard asks for. */
  function Day(t: int): int {
    t / MS_PER_DAY
  }

  function WeekDay(t: int): int {
    (Day(t) + 4) % 7
  }

  predicate Leap(y: int) {
    y % 4 == 0 && (y % 100 != 0 || y % 400 == 0)
  }

  function DaysInYear(y: int): int {
    if Leap(y) then 366 else 365
  }

  /** Days from the start of 1970 to the start of year `y`, counted year by year. */
  function YearStart(y: int): int
    decreases if y > 1970 then y - 1970 else 1970 - y
  {
    if y == 1970 then 0
    else if y > 1970 then YearStart(y - 1) + DaysInYear(y - 1)
    else YearStart(y + 1) - DaysInYear(y)
  }

  lemma FourthYear(y: int)
    ensures (y - 1968) / 4 == (y - 1969) / 4 + (if y % 4 == 0 then 1 else 0)
  {
  }

  lemma HundredthYear(y: int)
    ensures (y - 1900) / 100 == (y - 1901) / 100 + (if y % 100 == 0 then 1 else 0)
  {
  }

  lemma FourHundredthYear(y: int)
    ensures (y - 1600) / 400 == (y - 1601) / 400 + (if y % 400 == 0 then 1 else 0)
    ensures y % 400 == 0 ==> y % 100 == 0 && y % 4 == 0
    ensures y % 100 == 0 ==> y % 4 == 0
  {
    assert y == 400 * (y / 400) + y % 400;
    assert y == 100 * (y / 100) + y % 100;
  }

  /** The standard's closed formula DayFromYear. */
  function DayFromYear(y: int): int {
    365 * (y - 1970) + (y - 1969) / 4 - (y - 1901) / 100 + (y - 1601) / 400
  }

  lemma FormulaStep(y: int)
    ensures DayFromYear(y + 1) == DayFromYear(y) + DaysInYear(y)
  {
    FourthYear(y);
    HundredthYear(y);
    FourHundredthYear(y);
  }

  /** Counting year by year gives the standard's formula. */
  lemma {:induction false} YearStartIsFormula(y: int)
    ensures YearStart(y) == DayFromYear(y)
    decreases if y > 1970 then y - 1970 else 1970 - y
  {
    if y > 1970 {
      YearStartIsFormula(y - 1);
      FormulaStep(y - 1);
    } else if y < 1970 {
      YearStartIsFormula(y + 1);
      FormulaStep(y);
    }
  }

  lemma YearLength(y: int)
    ensures YearStart(y + 1) == YearStart(y) + DaysInYear(y)
  {
  }

  lemma {:induction false} YearsGrow(y: int, z: int)
    requires y <= z
    ensures YearStart(y) + 365 * (z - y) <= YearStart(z)
    decreases z - y
  {
    if y < z {
      YearLength(z - 1);
      YearsGrow(y, z - 1);
    }
  }

  function YearSearch(d: int, y: int): (r: int)
    requires YearStart(y) <= d
    ensures YearStart(r) <= d < YearStart(r + 1)
    decreases d - YearStart(y)
  {
    YearLength(y);
    if d < YearStart(y + 1) then y else YearSearch(d, y + 1)
  }

  /** The largest year that begins on or before day `d`. */
  function YearOfDay(d: int): (y: int)
    ensures YearStart(y) <= d < YearStart(y + 1)
  {
    if d >= 0 then YearSearch(d, 1970)
    else
      YearsGrow(1970 + d, 1970);
      YearSearch(d, 1970 + d)
  }

  lemma YearIsUnique(d: int, y: int)
    requires YearStart(y) <= d < YearStart(y + 1)
    ensures YearOfDay(d) == y
  {
    hide YearStart, DaysInYear;
    var z := YearOfDay(d);
    if z < y {
      YearsGrow(z + 1, y);
    } else if y < z {
      YearsGrow(y + 1, z);
    }
  }

  function MonthLength(leap: bool, m: int): int {
    if m == 1 then (if leap then 29 else 28)
    else if m == 3 || m == 5 || m == 8 || m == 10 then 30
    else 31
  }

  /** Days of the year before month `m`; months count from 0, and `m == 12` gives the whole year. */
  function MonthStart(leap: bool, m: int): int
    requires 0 <= m <= 12
  {
    if m == 0 then 0 else MonthStart(leap, m - 1) + MonthLength(leap, m - 1)
  }

  lemma TwelveMonths(y: int)
    ensures MonthStart(Leap(y), 12) == DaysInYear(y)
  {
    assert MonthStart(true, 12) == 366;
    assert MonthStart(false, 12) == 365;
  }

  lemma {:induction false} MonthsGrow(leap: bool, m: int, n: int)
    requires 0 <= m <= n <= 12
    ensures MonthStart(leap, m) + 28 * (n - m) <= MonthStart(leap, n)
    decreases n - m
  {
    if m < n {
      MonthsGrow(leap, m, n - 1);
    }
  }

  function MonthSearch(leap: bool, within: int, m: int): (r: int)
    requires 0 <= m <= 11 && MonthStart(leap, m) <= within < MonthStart(leap, 12)
    ensures 0 <= r <= 11 && MonthStart(leap, r) <= within < MonthStart(leap, r + 1)
    decreases 12 - m
  {
    if within < MonthStart(leap, m + 1) then m else MonthSearch(leap, within, m + 1)
  }

  function MonthWithin(leap: bool, within: int): (m: int)
    requires 0 <= within < MonthStart(leap, 12)
    ensures 0 <= m <= 11 && MonthStart(leap, m) <= within < MonthStart(leap, m + 1)
  {
    MonthSearch(leap, within, 0)
  }

  lemma MonthIsUnique(leap: bool, within: int, m: int)
    requires 0 <= within < MonthStart(leap, 12)
    requires 0 <= m <= 11 && MonthStart(leap, m) <= within < MonthStart(leap, m + 1)
    ensures MonthWithin(leap, within) == m
  {
    hide MonthStart, MonthLength;
    var n := MonthWithin(leap, within);
    if n < m {
      MonthsGrow(leap, n + 1, m);
    } else if m < n {
      MonthsGrow(leap, m + 1, n);
    }
  }

  function DayWithinYear(d: int): (within: int)
    ensures 0 <= within < MonthStart(Leap(YearOfDay(d)), 12)
  {
    YearLength(YearOfDay(d));
    TwelveMonths(YearOfDay(d));
    d - YearStart(YearOfDay(d))
  }

  function MonthOfDay(d: int): (m: int)
    ensures 0 <= m <= 11
  {
    MonthWithin(Leap(YearOfDay(d)), DayWithinYear(d))
  }

  function DateOfDay(d: int): int {
    DayWithinYear(d) - MonthStart(Leap(YearOfDay(d)), MonthOfDay(d)) + 1
  }

  datatype Civil = Civil(year: int, month: int, date: int)

  function CivilOfDay(d: int): Civil {
    Civil(YearOfDay(d), MonthOfDay(d), DateOfDay(d))
  }

  /** What the `getUTC` functions read off a time value; months count from 0. */
  function CivilOf(t: int): Civil {
    CivilOfDay(Day(t))
  }

  function DaysInMonth(y: int, m: int): int
    requires 0 <= m <= 11
  {
    MonthLength(Leap(y), m)
  }

  predicate Exists(c: Civil) {
    0 <= c.month <= 11 && 1 <= c.date <= DaysInMonth(c.year, c.month)
  }

  function DayInMonth(y: int, m: int, date: int): int
    requires 0 <= m <= 11
  {
    YearStart(y) + MonthStart(Leap(y), m) + date - 1
  }

  /** MakeDay: months beyond the year and dates beyond the month carry over. */
  function MakeDay(c: Civil): int {
    DayInMonth(c.year + c.month / 12, c.month % 12, c.date)
  }

  lemma NextMonth(leap: bool, m: int)
    requires 0 <= m <= 11
    ensures MonthStart(leap, 0) == 0 && MonthStart(leap, m + 1) == MonthStart(leap, m) + MonthLength(leap, m)
  {
  }

  /** Placing a month and a date within a year, and finding them again. */
  lemma WithinYearReadsBack(d: int, y: int, m: int, date: int)
    requires 0 <= m <= 11 && 1 <= date <= DaysInMonth(y, m)
    requires d == DayInMonth(y, m, date)
    ensures YearOfDay(d) == y && MonthOfDay(d) == m && DateOfDay(d) == date
  {
    hide YearStart, MonthStart, MonthLength, Leap, DaysInYear;
    NextMonth(Leap(y), m);
    YearLength(y);
    TwelveMonths(y);
    MonthsGrow(Leap(y), 0, m);
    MonthsGrow(Leap(y), m + 1, 12);
    YearIsUnique(d, y);
    MonthIsUnique(Leap(y), d - YearStart(y), m);
  }

  /** A date that exists is read back from the day made of it. */
  lemma ReadsBack(c: Civil)
    requires Exists(c)
    ensures CivilOfDay(MakeDay(c)) == c
  {
    assert c.month / 12 == 0 && c.month % 12 == c.month;
    WithinYearReadsBack(MakeDay(c), c.year, c.month, c.date);
  }

  /** The date read off a day exists and makes that day again. */
  lemma MakesAgain(d: int)
    ensures Exists(CivilOfDay(d)) && MakeDay(CivilOfDay(d)) == d
  {
    var m := MonthOfDay(d);
    assert m / 12 == 0 && m % 12 == m;
    assert DayInMonth(YearOfDay(d), m, DateOfDay(d)) == d;
  }

  /** A day has one date: a date that exists and makes the day is the one read off it. */
  lemma OneDate(c: Civil, d: int)
    requires Exists(c)
    ensures MakeDay(c) == d <==> CivilOfDay(d) == c
  {
    ReadsBack(c);
    MakesAgain(d);
  }

  // ---- The standard's tables -----------------------------------------------------------------------

  /** The day within the year on which each month begins, and the length of the year, as the standard
      lists them for the common and the leap year. */
  const COMMON_YEAR := [0, 31, 59, 90, 120, 151, 181, 212, 243, 273, 304, 334, 365]
  const LEAP_YEAR := [0, 31, 60, 91, 121, 152, 182, 213, 244, 274, 305, 335, 366]

  function FirstDays(y: int): (days: seq<int>)
    ensures |days| == 13
  {
    if y % 4 == 0 && (y % 100 != 0 || y % 400 == 0) then LEAP_YEAR else COMMON_YEAR
  }

  lemma {:induction false} MonthStartIsTable(leap: bool, m: int)
    requires 0 <= m <= 12
    ensures MonthStart(leap, m) == (if leap then LEAP_YEAR else COMMON_YEAR)[m]
  {
    if m > 0 {
      MonthStartIsTable(leap, m - 1);
    }
  }

  /** The civil date of a day is the one date, by the closed formula for years and the table for months,
      that the day is the first of its year plus the first of its month plus the date less one. */
  lemma CivilDateByTable(d: int, c: Civil)
    ensures CivilOfDay(d) == c <==>
              && 0 <= c.month <= 11
              && 1 <= c.date <= FirstDays(c.year)[c.month + 1] - FirstDays(c.year)[c.month]
              && d == 365 * (c.year - 1970) + (c.year - 1969) / 4 - (c.year - 1901) / 100 + (c.year - 1601) / 400
                      + FirstDays(c.year)[c.month] + c.date - 1
  {
    hide YearStart, MonthStart, MonthLength, DayFromYear, CivilOfDay, FirstDays;
    MakesAgain(d);
    ExistsByTable(c);
    YearStartIsFormula(c.year);
    FormulaInFull(c.year);
    if 0 <= c.month <= 11 {
      FirstDaysAreStarts(c.year, c.month);
      assert c.month / 12 == 0 && c.month % 12 == c.month;
    }
    if Exists(c) {
      OneDate(c, d);
    }
  }

  lemma FormulaInFull(y: int)
    ensures DayFromYear(y) == 365 * (y - 1970) + (y - 1969) / 4 - (y - 1901) / 100 + (y - 1601) / 400
  {
  }

  lemma FirstDaysAreStarts(y: int, m: int)
    requires 0 <= m <= 12
    ensures FirstDays(y)[m] == MonthStart(Leap(y), m)
  {
    hide MonthStart;
    MonthStartIsTable(Leap(y), m);
  }

  lemma ExistsByTable(c: Civil)
    ensures Exists(c) <==> 0 <= c.month <= 11 && 1 <= c.date <= FirstDays(c.year)[c.month + 1] - FirstDays(c.year)[c.month]
  {
    hide MonthStart, MonthLength, FirstDays;
    if 0 <= c.month <= 11 {
      NextMonth(Leap(c.year), c.month);
      FirstDaysAreStarts(c.year, c.month);
      FirstDaysAreStarts(c.year, c.month + 1);
    }
  }

  /** The days of the week follow each other, and 1 January 1970 was a Thursday, the fourth after Sunday. */
  lemma WeekDayByCount(t: int, days: int)
    requires 0 <= t < 86_400_000
    ensures WeekDay(t + days * 86_400_000) == (4 + days) % 7
  {
    assert Day(t + days * 86_400_000) == days;
  }

  /** MakeDay as the standard describes it: count months through the years, find the first of that
      month, and move by the rest of the date. */
  lemma MakeDayCarries(c: Civil, y: int, m: int, first: int)
    requires 0 <= m <= 11 && 12 * y + m == 12 * c.year + c.month
    requires MakeDay(c) == first + c.date - 1
    ensures CivilOfDay(first) == Civil(y, m, 1)
  {
    assert first == DayInMonth(y, m, 1) by {
      CarryMonths(c.year, c.month, y, m);
    }
    WithinYearReadsBack(first, y, m, 1);
  }

  lemma CarryMonths(year: int, month: int, y: int, m: int)
    requires 0 <= m <= 11 && 12 * y + m == 12 * year + month
    ensures year + month / 12 == y && month % 12 == m
  {
  }

  /** Years 0 to 99 are taken to mean 1900 to 1999. */
  predicate EarlyYear(y: int) {
    0 <= y <= 99
  }

  function Remapped(c: Civil): Civil {
    if EarlyYear(c.year) then c.(year := 1900 + c.year) else c
  }

  /** Date.UTC with the day's milliseconds already added up. */
  function DateUtc(c: Civil, ms: int): Time {
    TimeClip(MakeDay(Remapped(c)) * MS_PER_DAY + ms)
  }
}
