/** Day, week and month boundaries in Tashkent (UTC+5), as the analytics service and the branch
    service each compute them. */
module TashkentCalendar {
  import opened Prelude
  import opened EcmaTime

  const OFFSET := 5 * 60 * 60 * 1000

  // ---- Analytics service -------------------------------------------------------------------------

  /** tashkentBoundaryToUtc: shift, take the civil date, rebuild it, shift back. */
  function Boundary(t: int, isEnd: bool): Time {
    match TimeClip(t + OFFSET)
    case None => None
    case Some(shifted) =>
      match DateUtc(CivilOf(shifted), if isEnd then MS_PER_DAY - 1 else 0)
      case None => None
      case Some(utc) => TimeClip(utc - OFFSET)
  }

  function MinusDays(t: Time, days: int): Time {
    match t
    case None => None
    case Some(ms) => TimeClip(ms - days * MS_PER_DAY)
  }

  /** normalizeDashboardDateRange with period 'week'. */
  function AnalyticsWeekStart(now: int): Time {
    match TimeClip(now + OFFSET)
    case None => None
    case Some(shifted) => MinusDays(Boundary(now, false), (WeekDay(shifted) + 6) % 7)
  }

  /** normalizeDashboardDateRange with period 'month'. */
  function AnalyticsMonthStart(now: int): Time {
    match TimeClip(now + OFFSET)
    case None => None
    case Some(shifted) => MinusDays(Boundary(now, false), CivilOf(shifted).date - 1)
  }

  // ---- Branch service ----------------------------------------------------------------------------

  /** toTashkentStartOfDay. */
  function StartOfDay(t: int): Time {
    match TimeClip(t + OFFSET)
    case None => None
    case Some(shifted) => Back(DateUtc(CivilOf(shifted), 0))
  }

  function Back(utc: Time): Time {
    match utc
    case None => None
    case Some(ms) => TimeClip(ms - OFFSET)
  }

  /** toTashkentStartOfWeek: Monday is day 1, Sunday counts as the seventh. */
  function StartOfWeek(t: int): Time {
    match StartOfDay(t)
    case None => None
    case Some(start) =>
      match TimeClip(start + OFFSET)
      case None => None
      case Some(shifted) => MinusDays(Some(start), if WeekDay(shifted) == 0 then 6 else WeekDay(shifted) - 1)
  }

  /** toTashkentStartOfMonth. */
  function StartOfMonth(t: int): Time {
    match TimeClip(t + OFFSET)
    case None => None
    case Some(shifted) => Back(DateUtc(CivilOf(shifted).(date := 1), 0))
  }

  // ---- Plain arithmetic --------------------------------------------------------------------------

  /** The Tashkent day number of an instant. */
  function LocalDay(t: int): int {
    Day(t + OFFSET)
  }

  /** Midnight in Tashkent at the start of the instant's day, by rounding alone. */
  function FloorDay(t: int): int {
    LocalDay(t) * MS_PER_DAY - OFFSET
  }

  /** The instant falls, in Tashkent, in one of the years that Date.UTC takes for the 1900s. */
  predicate InEarlyYear(t: int) {
    EarlyYear(CivilOfDay(LocalDay(t)).year)
  }

  predicate IsTimeValue(t: int) {
    -MAX_TIME <= t <= MAX_TIME
  }

  // ---- The civil-date route is plain rounding ------------------------------------------------------

  /** The day that Date.UTC makes of the civil date of day `d`. */
  function Rebuilt(d: int): int {
    MakeDay(Remapped(CivilOfDay(d)))
  }

  /** Rebuilding gives the day back, except in the remapped years, where it lands 693 960 or 693 961
      days later, and always outside those years. */
  lemma RebuiltDay(d: int)
    ensures !EarlyYear(CivilOfDay(d).year) ==> Rebuilt(d) == d
    ensures EarlyYear(CivilOfDay(d).year) ==> 693_960 <= Rebuilt(d) - d <= 693_961 && -30_000 <= Rebuilt(d) <= 30_000
    ensures !EarlyYear(CivilOfDay(Rebuilt(d)).year)
  {
    hide MakeDay, CivilOfDay;
    MakesAgain(d);
    var c := CivilOfDay(d);
    if EarlyYear(c.year) {
      RemappedShift(c);
      RemappedInRange(c);
      LateEnough(Rebuilt(d));
    }
  }

  lemma LateEnough(d: int)
    requires -30_000 <= d
    ensures !EarlyYear(CivilOfDay(d).year)
  {
    var y := YearOfDay(d);
    if EarlyYear(y) {
      EarlyYearStart(y);
      YearLength(y);
      assert false;
    }
  }

  lemma RemappedShift(c: Civil)
    requires 0 <= c.month <= 11 && EarlyYear(c.year)
    ensures 693_960 <= MakeDay(c.(year := 1900 + c.year)) - MakeDay(c) <= 693_961
  {
    assert c.month / 12 == 0 && c.month % 12 == c.month;
    RemappedYear(c.year);
    LeapShift(c.month);
  }

  lemma RemappedYear(y: int)
    requires EarlyYear(y)
    ensures YearStart(1900 + y) - YearStart(y) == if y == 0 then 693_961 else 693_960
    ensures Leap(1900 + y) <==> Leap(y) && y > 0
  {
    hide YearStart, DayFromYear, Leap;
    RemappedLeap(y);
    var z := 1900 + y;
    RemappedFormula(y, z);
    YearStartIsFormula(y);
    YearStartIsFormula(z);
  }

  lemma RemappedLeap(y: int)
    requires EarlyYear(y)
    ensures Leap(1900 + y) <==> Leap(y) && y > 0
  {
  }

  lemma RemappedFormula(y: int, z: int)
    requires EarlyYear(y) && z == 1900 + y
    ensures DayFromYear(z) - DayFromYear(y) == if y == 0 then 693_961 else 693_960
    ensures -719_528 <= DayFromYear(y) <= -683_000
  {
    assert (y - 1969) / 4 == (z - 1969) / 4 - 475;
    assert (y - 1901) / 100 == (z - 1901) / 100 - 19 == if y == 0 then -20 else -19;
    assert (y - 1601) / 400 == if y == 0 then -5 else -4;
    assert (z - 1601) / 400 == 0;
  }

  lemma {:induction false} LeapShift(m: int)
    requires 0 <= m <= 11
    ensures MonthStart(false, m) <= MonthStart(true, m) <= MonthStart(false, m) + (if m > 1 then 1 else 0)
  {
    if m > 0 {
      LeapShift(m - 1);
    }
  }

  /** The remapped years lie well inside the range of time values. */
  lemma RemappedInRange(c: Civil)
    requires Exists(c) && EarlyYear(c.year)
    ensures -30_000 <= MakeDay(c.(year := 1900 + c.year)) <= 30_000
  {
    hide YearStart, MonthStart;
    assert c.month / 12 == 0 && c.month % 12 == c.month;
    RemappedShift(c);
    EarlyYearStart(c.year);
    DateWithinYear(c);
  }

  lemma EarlyYearStart(y: int)
    requires EarlyYear(y)
    ensures -719_528 <= YearStart(y) <= -683_000
  {
    hide YearStart, DayFromYear;
    RemappedFormula(y, 1900 + y);
    YearStartIsFormula(y);
  }

  lemma DateWithinYear(c: Civil)
    requires Exists(c)
    ensures 0 <= MonthStart(Leap(c.year), c.month) + c.date - 1 < 366
  {
    MonthsGrow(Leap(c.year), 0, c.month);
    MonthsGrow(Leap(c.year), c.month + 1, 12);
    TwelveMonths(c.year);
  }

  /** For every time value: the day's start computed through the civil date is the rounded one exactly
      when the shifted instant and the result are time values and the year is not a remapped one. */
  lemma BoundaryStart(t: int)
    requires IsTimeValue(t)
    ensures Boundary(t, false) == Some(FloorDay(t))
       <==> IsTimeValue(t + OFFSET) && IsTimeValue(FloorDay(t)) && !InEarlyYear(t)
  {
    hide MakeDay, CivilOfDay, Rebuilt;
    RebuiltDay(LocalDay(t));
    BoundaryIsRebuilt(t, false);
  }

  /** The same for the day's end, one millisecond before the next midnight. */
  lemma BoundaryEnd(t: int)
    requires IsTimeValue(t)
    ensures Boundary(t, true) == Some(FloorDay(t) + MS_PER_DAY - 1)
       <==> IsTimeValue(t + OFFSET) && IsTimeValue(FloorDay(t) + OFFSET + MS_PER_DAY - 1) && !InEarlyYear(t)
  {
    hide MakeDay, CivilOfDay, Rebuilt;
    RebuiltDay(LocalDay(t));
    BoundaryIsRebuilt(t, true);
  }

  lemma BoundaryIsRebuilt(t: int, isEnd: bool)
    ensures Boundary(t, isEnd)
         == if IsTimeValue(t + OFFSET) && IsTimeValue(Edge(Rebuilt(LocalDay(t)), isEnd) + OFFSET)
               && IsTimeValue(Edge(Rebuilt(LocalDay(t)), isEnd))
            then Some(Edge(Rebuilt(LocalDay(t)), isEnd)) else None
  {
    hide MakeDay, CivilOfDay;
  }

  /** The first or the last millisecond of a Tashkent day. */
  function Edge(d: int, isEnd: bool): int {
    d * MS_PER_DAY - OFFSET + (if isEnd then MS_PER_DAY - 1 else 0)
  }

  /** Day intervals tile the millisecond line. An instant lies in its own interval exactly outside the
      remapped years; the instants of an interval are exactly those, outside the remapped years, whose
      start is the interval's; and one millisecond after the end another interval begins, unless a
      remapped year begins there. */
  lemma DaysTile(t: int, u: int, start: int, end: int)
    requires IsTimeValue(t) && IsTimeValue(u)
    requires Boundary(t, false) == Some(start) && Boundary(t, true) == Some(end)
    requires Boundary(u, false).Some?
    ensures start <= t <= end <==> !InEarlyYear(t)
    ensures start <= u <= end <==> Boundary(u, false) == Some(start) && !InEarlyYear(u)
    ensures u == end + 1 ==> (Boundary(u, false) == Some(u) <==> !InEarlyYear(u))
  {
    hide MakeDay, CivilOfDay, Boundary, Rebuilt;
    var d := Rebuilt(LocalDay(t));
    RebuiltDay(LocalDay(t));
    RebuiltDay(LocalDay(u));
    BoundaryIsRebuilt(t, false);
    BoundaryIsRebuilt(t, true);
    BoundaryIsRebuilt(u, false);
    LocalDayOf(t, d);
    LocalDayOf(u, d);
    if u == end + 1 {
      LocalDayOf(u, d + 1);
    }
  }

  // ---- The two services agree ---------------------------------------------------------------------

  lemma DayStartsAgree(t: int)
    ensures StartOfDay(t) == Boundary(t, false)
  {
    hide MakeDay, CivilOfDay;
  }

  lemma DaysBack(d: int)
    ensures (d + 6) % 7 == if d % 7 == 0 then 6 else d % 7 - 1
  {
  }

  lemma WeekDayShift(d: int, e: int)
    requires 693_960 <= e - d <= 693_961
    ensures (d + 4) % 7 != (e + 4) % 7
  {
  }

  /** The week starts, once the day has been rebuilt. */
  lemma WeekStartsFrom(t: int)
    requires IsTimeValue(t)
    ensures var d, e := LocalDay(t), Rebuilt(LocalDay(t));
            var midnight := e * MS_PER_DAY - OFFSET;
            if IsTimeValue(t + OFFSET) && IsTimeValue(e * MS_PER_DAY) && IsTimeValue(midnight)
            then AnalyticsWeekStart(t) == TimeClip(midnight - (d + 4 + 6) % 7 * MS_PER_DAY)
                 && StartOfWeek(t) == TimeClip(midnight - (e + 4 + 6) % 7 * MS_PER_DAY)
            else AnalyticsWeekStart(t) == None && StartOfWeek(t) == None
  {
    hide CivilOf, DateUtc, Rebuilt, StartOfDay, Boundary;
    var d, e := LocalDay(t), Rebuilt(LocalDay(t));
    DayStartsAgree(t);
    BoundaryIsRebuilt(t, false);
    DaysBack(e + 4);
    SevenOnTop(d);
    SevenOnTop(e);
  }

  lemma SevenOnTop(d: int)
    ensures ((d + 4) % 7 + 6) % 7 == (d + 4 + 6) % 7
  {
  }

  /** The two week starts are the same exactly outside the remapped years: there the two services
      take their weekdays from different centuries, which never agree. */
  lemma WeekStartsAgree(t: int)
    requires IsTimeValue(t)
    ensures AnalyticsWeekStart(t) == StartOfWeek(t) <==> !InEarlyYear(t)
  {
    hide MakeDay, CivilOfDay, AnalyticsWeekStart, StartOfWeek, Rebuilt;
    var d, e := LocalDay(t), Rebuilt(LocalDay(t));
    WeekStartsFrom(t);
    RebuiltDay(d);
    if InEarlyYear(t) {
      WeekDayShift(d, e);
      EarlyInRange(d);
    }
  }

  lemma EarlyInRange(d: int)
    requires EarlyYear(CivilOfDay(d).year)
    ensures -730_000 <= d <= -600_000
  {
    hide Rebuilt, CivilOfDay, MakeDay;
    RebuiltDay(d);
  }

  /** The branch service's week start is a Monday midnight in Tashkent, and it is the latest one at or
      before the instant exactly outside the remapped years. */
  lemma WeekStartIsMonday(t: int, start: int)
    requires IsTimeValue(t) && StartOfWeek(t) == Some(start)
    ensures FloorDay(start) == start && WeekDay(start + OFFSET) == 1
    ensures start <= t < start + 7 * MS_PER_DAY <==> !InEarlyYear(t)
  {
    hide MakeDay, CivilOfDay, StartOfWeek, AnalyticsWeekStart, Rebuilt;
    var e := Rebuilt(LocalDay(t));
    WeekStartsFrom(t);
    RebuiltDay(LocalDay(t));
    MondayBefore(e, start);
    WeekOf(t, e - (e + 4 + 6) % 7);
  }

  lemma MondayBefore(d: int, start: int)
    requires start == d * MS_PER_DAY - OFFSET - (d + 4 + 6) % 7 * MS_PER_DAY
    ensures LocalDay(start) == d - (d + 4 + 6) % 7
    ensures FloorDay(start) == start && WeekDay(start + OFFSET) == 1
  {
    assert start + OFFSET == (d - (d + 4 + 6) % 7) * MS_PER_DAY;
  }

  lemma WeekOf(t: int, monday: int)
    ensures monday * MS_PER_DAY - OFFSET <= t < monday * MS_PER_DAY - OFFSET + 7 * MS_PER_DAY
       <==> monday <= LocalDay(t) < monday + 7
  {
  }

  /** Counting back from the day start and rebuilding the first of the month meet, remapped years
      included. */
  lemma MonthStartsAgree(t: int)
    requires IsTimeValue(t)
    ensures AnalyticsMonthStart(t) == StartOfMonth(t)
  {
    hide MakeDay, CivilOfDay;
    var c := CivilOfDay(LocalDay(t));
    FirstOfMonth(if EarlyYear(c.year) then c.(year := 1900 + c.year) else c);
    MakesAgain(LocalDay(t));
    if EarlyYear(c.year) {
      RemappedInRange(c);
    }
  }

  lemma FirstOfMonth(c: Civil)
    ensures MakeDay(c.(date := 1)) == MakeDay(c) - (c.date - 1)
  {
  }

  /** The agreed month start is midnight in Tashkent on the first of a month, and that month is the
      instant's own exactly outside the remapped years. */
  lemma MonthStartIsFirst(t: int, start: int)
    requires IsTimeValue(t) && StartOfMonth(t) == Some(start)
    ensures FloorDay(start) == start && CivilOf(start + OFFSET).date == 1
    ensures CivilOf(start + OFFSET) == CivilOf(t + OFFSET).(date := 1) <==> !InEarlyYear(t)
    ensures start <= t <==> !InEarlyYear(t)
  {
    hide MakeDay, CivilOfDay;
    var d := LocalDay(t);
    var c := CivilOfDay(d);
    MakesAgain(d);
    RebuiltDay(d);
    var first := Remapped(c).(date := 1);
    FirstExists(first);
    ReadsBack(first);
    FirstOfMonth(Remapped(c));
    assert start + OFFSET == MakeDay(first) * MS_PER_DAY;
    DateAtMost31(c);
  }

  lemma FirstExists(c: Civil)
    requires 0 <= c.month <= 11 && c.date == 1
    ensures Exists(c)
  {
  }

  lemma DateAtMost31(c: Civil)
    requires Exists(c)
    ensures 1 <= c.date <= 31
  {
  }

  /** New Year of the year 50, midnight UTC: the day start is off, and the two week starts differ. */
  lemma EarlyYearWitness(t: int)
    requires t == -60_589_296_000_000
    ensures CivilOf(t) == Civil(50, 0, 1)
    ensures Boundary(t, false) != Some(FloorDay(t))
    ensures AnalyticsWeekStart(t) != StartOfWeek(t)
  {
    hide MakeDay, CivilOfDay;
    assert LocalDay(t) == Day(t) == -701_265;
    NewYearOf50(Day(t));
    RebuiltAs1950(Civil(50, 0, 1));
    assert StartOfDay(t) == Some(-7_305 * MS_PER_DAY - OFFSET);
    assert WeekDay(t + OFFSET) == 6;
    assert WeekDay(-7_305 * MS_PER_DAY) == 0;
  }

  lemma NewYearOf50(d: int)
    requires d == -701_265
    ensures CivilOfDay(d) == Civil(50, 0, 1)
  {
    var y := 50;
    YearStartIsFormula(y);
    WithinYearReadsBack(d, y, 0, 1);
  }

  lemma RebuiltAs1950(c: Civil)
    requires c == Civil(50, 0, 1)
    ensures DateUtc(c, 0) == Some(-7_305 * MS_PER_DAY)
  {
    var y := 1900 + c.year;
    YearStartIsFormula(y);
    assert MakeDay(c.(year := y)) == -7_305;
  }

  // ---- In plain numbers ----------------------------------------------------------------------------

  /** From the year 100 to the end of time values, in milliseconds: the day starts where the instant, five
      hours on, last passed a multiple of 24 hours, and ends a millisecond short of the next. */
  lemma DayInNumbers(t: int)
    requires InNumbers(t)
    ensures Boundary(t, false) == Some(t - (t + 18_000_000) % 86_400_000)
    ensures Boundary(t, true) == Some(t - (t + 18_000_000) % 86_400_000 + 86_399_999)
  {
    hide MakeDay, CivilOfDay, Rebuilt, Boundary;
    RebuiltDay(LocalDay(t));
    AfterEarlyYears(LocalDay(t));
    BoundaryIsRebuilt(t, false);
    BoundaryIsRebuilt(t, true);
  }

  /** From 1 January 100 on, and a day clear of the last time value. */
  predicate InNumbers(t: int) {
    -59_011_459_200_000 <= t + 18_000_000 && t <= 8_639_999_000_000_000
  }

  /** At the end of time values: in the last five hours there is no boundary, and until then there is. */
  lemma LastBoundaries(t: int, isEnd: bool)
    requires 8_639_999_000_000_000 <= t <= 8_640_000_000_000_000
    ensures t <= 8_640_000_000_000_000 - 18_000_000 ==> Boundary(t, false).Some?
    ensures t > 8_640_000_000_000_000 - 18_000_000 ==> Boundary(t, isEnd) == None
  {
    hide MakeDay, CivilOfDay, Rebuilt, Boundary;
    RebuiltDay(LocalDay(t));
    AfterEarlyYears(LocalDay(t));
    BoundaryIsRebuilt(t, false);
    BoundaryIsRebuilt(t, isEnd);
  }

  /** The week starts on the last Monday, which was day 4 after the first Thursday. */
  lemma WeekInNumbers(t: int)
    requires InNumbers(t)
    ensures var day := (t + 18_000_000) / 86_400_000;
            StartOfWeek(t) == AnalyticsWeekStart(t) == Some((day - (day - 4) % 7) * 86_400_000 - 18_000_000)
  {
    hide MakeDay, CivilOfDay, Rebuilt, StartOfWeek, AnalyticsWeekStart;
    RebuiltDay(LocalDay(t));
    AfterEarlyYears(LocalDay(t));
    WeekStartsFrom(t);
    assert (LocalDay(t) + 4 + 6) % 7 == (LocalDay(t) - 4) % 7;
  }

  /** The month starts on the day that the table of months gives for the first of the instant's month. */
  lemma MonthInNumbers(t: int, y: int, m: int, first: int)
    requires InNumbers(t) && 0 <= m <= 11
    requires first == 365 * (y - 1970) + (y - 1969) / 4 - (y - 1901) / 100 + (y - 1601) / 400 + FirstDays(y)[m]
    requires first <= (t + 18_000_000) / 86_400_000 < first + FirstDays(y)[m + 1] - FirstDays(y)[m]
    ensures StartOfMonth(t) == AnalyticsMonthStart(t) == Some(first * 86_400_000 - 18_000_000)
  {
    hide MakeDay, CivilOfDay, FirstDays, StartOfMonth, AnalyticsMonthStart;
    var d := LocalDay(t);
    assert d == (t + 18_000_000) / 86_400_000;
    MonthOfDays(d, y, m, first);
    AfterEarlyYears(d);
    MonthStartsAgree(t);
    FirstRebuilt(t, Civil(y, m, d - first + 1), first);
  }

  lemma MonthOfDays(d: int, y: int, m: int, first: int)
    requires 0 <= m <= 11
    requires first == 365 * (y - 1970) + (y - 1969) / 4 - (y - 1901) / 100 + (y - 1601) / 400 + FirstDays(y)[m]
    requires first <= d < first + FirstDays(y)[m + 1] - FirstDays(y)[m]
    ensures CivilOfDay(d) == Civil(y, m, d - first + 1) && CivilOfDay(first) == Civil(y, m, 1) && d < first + 31
  {
    hide CivilOfDay;
    CivilDateByTable(d, Civil(y, m, d - first + 1));
    CivilDateByTable(first, Civil(y, m, 1));
    MonthsAreShort(y, m);
  }

  lemma MonthsAreShort(y: int, m: int)
    requires 0 <= m <= 11
    ensures FirstDays(y)[m + 1] - FirstDays(y)[m] <= 31
  {
  }

  lemma FirstRebuilt(t: int, c: Civil, first: int)
    requires InNumbers(t) && CivilOfDay(LocalDay(t)) == c && !EarlyYear(c.year)
    requires CivilOfDay(first) == c.(date := 1) && first <= LocalDay(t) < first + 31
    ensures StartOfMonth(t) == Some(first * 86_400_000 - 18_000_000)
  {
    hide MakeDay, CivilOfDay;
    MakesAgain(first);
  }

  lemma AfterEarlyYears(d: int)
    requires -683_003 <= d
    ensures !EarlyYear(CivilOfDay(d).year)
  {
    var y := YearOfDay(d);
    if EarlyYear(y) {
      YearsGrow(y + 1, 100);
      YearHundred(100);
      assert false;
    }
  }

  lemma YearHundred(y: int)
    requires y == 100
    ensures YearStart(y) == -683_003
  {
    hide YearStart;
    YearStartIsFormula(y);
  }

  // ---- Date-only strings -------------------------------------------------------------------------

  predicate Digits(s: string) {
    forall i :: 0 <= i < |s| ==> '0' <= s[i] <= '9'
  }

  function Number(s: string): (n: nat)
    requires Digits(s)
    ensures |s| <= 4 ==> n <= 9999
    ensures |s| <= 3 ==> n <= 999
    ensures |s| <= 2 ==> n <= 99
    ensures |s| <= 1 ==> n <= 9
    ensures |s| == 0 ==> n == 0
  {
    if s == [] then 0 else 10 * Number(s[..|s| - 1]) + (s[|s| - 1] - '0') as nat
  }

  /** Four digits, a dash, two digits, a dash, two digits, and nothing else. */
  predicate LooksLikeDate(s: string) {
    |s| == 10 && s[4] == '-' && s[7] == '-' && Digits(s[..4]) && Digits(s[5..7]) && Digits(s[8..])
  }

  function Written(s: string): Civil
    requires LooksLikeDate(s)
  {
    Civil(Number(s[..4]), Number(s[5..7]) - 1, Number(s[8..]))
  }

  /** parseDateOnly on a trimmed string: noon UTC of the written date, whether or not that date exists. */
  function ParseDateOnly(s: string): Option<Time> {
    if LooksLikeDate(s) then Some(DateUtc(Written(s), MS_PER_DAY / 2)) else None
  }

  /** The range normalizeDateRange makes of one date-only string used for both ends. */
  function DateOnlyRange(s: string): Option<(Time, Time)> {
    match ParseDateOnly(s)
    case None => None
    case Some(None) => Some((None, None))
    case Some(Some(noon)) => Some((Boundary(noon, false), Boundary(noon, true)))
  }

  lemma WrittenInRange(c: Civil)
    requires 0 <= c.year <= 9999 && -1 <= c.month <= 98 && 0 <= c.date <= 99
    ensures -1_000_000 <= MakeDay(c) <= 4_000_000
  {
    var y, m := c.year + c.month / 12, c.month % 12;
    assert -1 <= c.month / 12 <= 8;
    YearStartIsFormula(y);
    MonthsGrow(Leap(y), 0, m);
    MonthsGrow(Leap(y), m, 12);
    TwelveMonths(y);
  }

  /** The day that noon of a written date falls on: the remapping of years comes first, and dates that
      do not exist roll over. */
  function NoonDay(s: string): int
    requires LooksLikeDate(s)
  {
    MakeDay(Remapped(Written(s)))
  }

  /** The day a date-only string selects: the day its noon falls on, rebuilt. */
  function SelectedDay(s: string): int
    requires LooksLikeDate(s)
  {
    Rebuilt(NoonDay(s))
  }

  /** A date-only string always selects one whole Tashkent day. It is the written day, for the instants
      of that day and no others, exactly when the written date exists and its year is not remapped. */
  lemma DateOnlyIsItsDay(s: string)
    requires LooksLikeDate(s)
    ensures var start, end := Edge(SelectedDay(s), false), Edge(SelectedDay(s), true);
            && DateOnlyRange(s) == Some((Some(start), Some(end)))
            && IsTimeValue(start) && end == start + MS_PER_DAY - 1
            && ((forall t :: IsTimeValue(t) ==> (start <= t <= end <==> CivilOf(t + OFFSET) == Written(s)))
                <==> Exists(Written(s)) && !EarlyYear(Written(s).year))
  {
    hide MakeDay, CivilOfDay, Number, Rebuilt, Boundary, Exists;
    var c, noon, d := Written(s), NoonDay(s), SelectedDay(s);
    WrittenInRange(Remapped(c));
    NoonBounds(noon);
    NoonBoundary(noon, false);
    NoonBoundary(noon, true);
    var start, end := Edge(d, false), Edge(d, true);
    if Exists(c) && !EarlyYear(c.year) {
      ReadsBack(c);
      RebuiltDay(noon);
      forall t | IsTimeValue(t) ensures start <= t <= end <==> CivilOf(t + OFFSET) == c {
        LocalDayOf(t, d);
        OneDate(c, LocalDay(t));
      }
    } else {
      LocalDayOf(start, d);
      MakesAgain(d);
      assert CivilOf(start + OFFSET) != c;
    }
  }

  lemma NoonBounds(d: int)
    requires -1_000_000 <= d <= 4_000_000
    ensures LocalDay(d * MS_PER_DAY + MS_PER_DAY / 2) == d
    ensures IsTimeValue(d * MS_PER_DAY + MS_PER_DAY / 2)
  {
  }

  lemma NoonBoundary(d: int, isEnd: bool)
    requires -1_000_000 <= d <= 4_000_000
    ensures Boundary(d * MS_PER_DAY + MS_PER_DAY / 2, isEnd) == Some(Edge(Rebuilt(d), isEnd))
    ensures !EarlyYear(CivilOfDay(Rebuilt(d)).year) && -1_000_000 <= Rebuilt(d) <= 4_000_000
  {
    hide MakeDay, CivilOfDay, Rebuilt, Boundary;
    NoonBounds(d);
    RebuiltDay(d);
    BoundaryIsRebuilt(d * MS_PER_DAY + MS_PER_DAY / 2, isEnd);
  }

  lemma LocalDayOf(t: int, d: int)
    ensures d * MS_PER_DAY - OFFSET <= t <= d * MS_PER_DAY - OFFSET + MS_PER_DAY - 1 <==> LocalDay(t) == d
  {
  }

  // ---- Date-only strings in plain numbers -----------------------------------------------------------

  function DigitAt(s: string, i: nat): int
    requires i < |s|
  {
    s[i] as int - '0' as int
  }

  /** Four digits, a dash, two digits, a dash, two digits: read as decimal numbers, months from 1. */
  lemma WrittenByDigits(s: string)
    ensures LooksLikeDate(s) <==>
              |s| == 10 && s[4] == '-' && s[7] == '-'
              && forall i :: 0 <= i < 10 && i != 4 && i != 7 ==> 0 <= DigitAt(s, i) <= 9
    ensures LooksLikeDate(s) ==>
              Written(s) == Civil(1000 * DigitAt(s, 0) + 100 * DigitAt(s, 1) + 10 * DigitAt(s, 2) + DigitAt(s, 3),
                                  10 * DigitAt(s, 5) + DigitAt(s, 6) - 1,
                                  10 * DigitAt(s, 8) + DigitAt(s, 9))
  {
    if |s| == 10 {
      DigitsByIndex(s, 0, 4);
      DigitsByIndex(s, 5, 7);
      DigitsByIndex(s, 8, 10);
      if LooksLikeDate(s) {
        assert s[8..10] == s[8..] && s[0..4] == s[..4];
        NumberOfTwo(s[5..7]);
        NumberOfTwo(s[8..]);
        NumberOfFour(s[..4]);
      }
      assert s[8..10] == s[8..] && s[0..4] == s[..4];
    }
  }

  lemma DigitsByIndex(s: string, from: nat, to: nat)
    requires from <= to <= |s|
    ensures Digits(s[from..to]) <==> forall i :: from <= i < to ==> 0 <= DigitAt(s, i) <= 9
  {
    if Digits(s[from..to]) {
      forall i | from <= i < to ensures 0 <= DigitAt(s, i) <= 9 {
        assert s[from..to][i - from] == s[i];
      }
    }
    if forall i :: from <= i < to ==> 0 <= DigitAt(s, i) <= 9 {
      forall i | 0 <= i < to - from ensures '0' <= s[from..to][i] <= '9' {
        assert 0 <= DigitAt(s, from + i) <= 9;
      }
    }
  }

  lemma NumberOfTwo(s: string)
    requires |s| == 2 && Digits(s)
    ensures Number(s) == 10 * DigitAt(s, 0) + DigitAt(s, 1)
  {
    assert s[..1][..0] == [];
  }

  lemma NumberOfFour(s: string)
    requires |s| == 4 && Digits(s)
    ensures Number(s) == 1000 * DigitAt(s, 0) + 100 * DigitAt(s, 1) + 10 * DigitAt(s, 2) + DigitAt(s, 3)
  {
    assert s[..3][..2] == s[..2];
    NumberOfTwo(s[..2]);
  }

  /** A written date from the year 100 on that the tables of months allow selects the 24 hours of that day
      in Tashkent. */
  lemma DateOnlyInNumbers(s: string, day: int)
    requires LooksLikeDate(s)
    requires var c := Written(s);
             && c.year >= 100 && 0 <= c.month <= 11 && 1 <= c.date <= FirstDays(c.year)[c.month + 1] - FirstDays(c.year)[c.month]
             && day == 365 * (c.year - 1970) + (c.year - 1969) / 4 - (c.year - 1901) / 100 + (c.year - 1601) / 400
                       + FirstDays(c.year)[c.month] + c.date - 1
    ensures DateOnlyRange(s) == Some((Some(day * 86_400_000 - 18_000_000), Some(day * 86_400_000 - 18_000_000 + 86_399_999)))
  {
    hide MakeDay, CivilOfDay, Number, Rebuilt, Boundary, FirstDays;
    var c := Written(s);
    CivilDateByTable(day, c);
    MakesAgain(day);
    DateOnlyIsItsDay(s);
    RebuiltDay(day);
  }
}
