/** base/Date.cc and base/Date.h: Julian day numbers and the Gregorian calendar. */
module Date {
  import opened CMath

  datatype YearMonthDay = YearMonthDay(year: int, month: int, day: int)

  function GetJulianDayNumber(year: int, month: int, day: int): int {
    var a := Quot(14 - month, 12);
    var y := year + 4800 - a;
    var m := month + 12 * a - 3;
    day + Quot(153 * m + 2, 5) + y * 365 + Quot(y, 4) - Quot(y, 100) + Quot(y, 400) - 32045
  }

  function GetYearMonthDay(julianDayNumber: int): YearMonthDay {
    var a := julianDayNumber + 32044;
    var b := Quot(4 * a + 3, 146097);
    var c := a - Quot(b * 146097, 4);
    var d := Quot(4 * c + 3, 1461);
    var e := c - Quot(1461 * d, 4);
    var m := Quot(5 * e + 2, 153);
    YearMonthDay(b * 100 + d - 4800 + Quot(m, 10),
                 m + 3 - 12 * Quot(m, 10),
                 e - Quot(153 * m + 2, 5) + 1)
  }

  function JulianDayOf(date: YearMonthDay): int {
    GetJulianDayNumber(date.year, date.month, date.day)
  }

  const DAYS_PER_WEEK := 7
  const JULIAN_DAY_OF_1970_01_01 := 2440588 // see EpochDay

  // [0, 1, ..., 6] for Sunday to Saturday.
  function WeekDay(julianDayNumber: int): int {
    Rem(julianDayNumber + 1, DAYS_PER_WEEK)
  }

  // The Gregorian calendar, defined without reference to the formulas above.

  predicate IsLeap(year: int) {
    year % 4 == 0 && (year % 100 != 0 || year % 400 == 0)
  }

  function DaysInMonth(year: int, month: int): int {
    if month == 2 then (if IsLeap(year) then 29 else 28)
    else if month == 4 || month == 6 || month == 9 || month == 11 then 30
    else 31
  }

  predicate ValidDate(date: YearMonthDay) {
    1 <= date.month <= 12 && 1 <= date.day <= DaysInMonth(date.year, date.month)
  }

  // Day 0 of the algorithm's own count is 1 March 4801 BC (astronomical year -4800).
  predicate InCalendar(date: YearMonthDay) {
    ValidDate(date) && (date.year > -4800 || (date.year == -4800 && date.month >= 3))
  }

  const FIRST_DAY := -32044

  // The largest day number for which no intermediate result leaves a 32-bit int.
  const LAST_DAY := 536838867

  function NextDay(date: YearMonthDay): YearMonthDay {
    if date.day < DaysInMonth(date.year, date.month) then date.(day := date.day + 1)
    else if date.month < 12 then YearMonthDay(date.year, date.month + 1, 1)
    else YearMonthDay(date.year + 1, 1, 1)
  }

  predicate Before(x: YearMonthDay, y: YearMonthDay) {
    x.year < y.year || (x.year == y.year && (x.month < y.month || (x.month == y.month && x.day < y.day)))
  }

  // Every sub-expression of GetYearMonthDay that the C code evaluates in an int.
  ghost predicate FitsInInt(j: int) {
    var a := j + 32044;
    var b := Quot(4 * a + 3, 146097);
    var c := a - Quot(b * 146097, 4);
    var d := Quot(4 * c + 3, 1461);
    var e := c - Quot(1461 * d, 4);
    IsInt32(a) && IsInt32(4 * a) && IsInt32(4 * a + 3) && IsInt32(b * 146097) && IsInt32(c) && IsInt32(4 * c + 3)
    && IsInt32(1461 * d) && IsInt32(5 * e + 2) && IsInt32(b * 100 + d)
  }

  lemma IntermediatesFit(j: int)
    requires FIRST_DAY <= j
    ensures FitsInInt(j) <==> j <= LAST_DAY
  {
  }

  // A reference count of days from 1 March of the year -4800, one year and one month at a time.

  // Days before the March that starts `y` years later.
  function DaysBeforeYear(y: nat): nat {
    if y == 0 then 0 else DaysBeforeYear(y - 1) + (if IsLeap(y - 4800) then 366 else 365)
  }

  // Days before the m-th month of a year that starts in March.
  function DaysBeforeMonth(m: nat): nat {
    if m == 0 then 0 else DaysBeforeMonth(m - 1) + DaysInMonth(0, if m <= 10 then m + 2 else m - 10)
  }

  function MarchYear(date: YearMonthDay): int {
    date.year + 4800 - (if date.month <= 2 then 1 else 0)
  }

  function MarchMonth(date: YearMonthDay): int {
    if date.month <= 2 then date.month + 9 else date.month - 3
  }

  ghost function DaysBefore(date: YearMonthDay): int
    requires InCalendar(date)
  {
    DaysBeforeYear(MarchYear(date)) + DaysBeforeMonth(MarchMonth(date)) + date.day - 1
  }

  lemma QuotientSteps(y: nat)
    ensures (y + 1) / 4 == y / 4 + (if (y + 1) % 4 == 0 then 1 else 0)
    ensures (y + 1) / 100 == y / 100 + (if (y + 1) % 100 == 0 then 1 else 0)
    ensures (y + 1) / 400 == y / 400 + (if (y + 1) % 400 == 0 then 1 else 0)
  {
  }

  lemma LeapShift(year: int)
    ensures (year - 4800) % 4 == year % 4
    ensures (year - 4800) % 100 == year % 100
    ensures (year - 4800) % 400 == year % 400
  {
    assert year - 4800 == 4 * (year / 4 - 1200) + year % 4;
    assert year - 4800 == 100 * (year / 100 - 48) + year % 100;
    assert year - 4800 == 400 * (year / 400 - 12) + year % 400;
    RemainderIs(year - 4800, 4, year / 4 - 1200, year % 4);
    RemainderIs(year - 4800, 100, year / 100 - 48, year % 100);
    RemainderIs(year - 4800, 400, year / 400 - 12, year % 400);
  }

  lemma LeapCycle(year: int)
    ensures year % 400 == 0 ==> year % 100 == 0
    ensures year % 100 == 0 ==> year % 4 == 0
    ensures IsLeap(year) == IsLeap(year - 4800)
  {
    LeapShift(year);
  }

  /** The closed form of the day count of whole years under the 4/100/400 leap rule. */
  lemma {:induction false} YearFormula(y: nat)
    ensures DaysBeforeYear(y) == 365 * y + y / 4 - y / 100 + y / 400
  {
    if y > 0 {
      YearFormula(y - 1);
      LeapCycle(y);
      QuotientSteps(y - 1);
    }
  }

  /** The closed form of the day count of whole months. */
  lemma MonthFormula(m: nat)
    requires m <= 11
    ensures DaysBeforeMonth(m) == (153 * m + 2) / 5
    ensures m < 11 ==> DaysBeforeMonth(m + 1) <= 337
  {
    assert DaysBeforeMonth(1) == 31;
    assert DaysBeforeMonth(2) == 61;
    assert DaysBeforeMonth(3) == 92;
    assert DaysBeforeMonth(4) == 122;
    assert DaysBeforeMonth(5) == 153;
    assert DaysBeforeMonth(6) == 184;
    assert DaysBeforeMonth(7) == 214;
    assert DaysBeforeMonth(8) == 245;
    assert DaysBeforeMonth(9) == 275;
    assert DaysBeforeMonth(10) == 306;
    assert DaysBeforeMonth(11) == 337;
  }

  lemma JulianClosedForm(year: int, month: int, day: int, y: nat, m: nat)
    requires 1 <= month <= 12
    requires y == year + 4800 - (if month <= 2 then 1 else 0) && m == (if month <= 2 then month + 9 else month - 3)
    ensures GetJulianDayNumber(year, month, day)
         == day + (153 * m + 2) / 5 + 365 * y + y / 4 - y / 100 + y / 400 - 32045
  {
    assert Quot(14 - month, 12) == (if month <= 2 then 1 else 0);
  }

  lemma JulianFormula(year: int, month: int, day: int, y: nat, m: nat)
    requires 1 <= month <= 12
    requires y == year + 4800 - (if month <= 2 then 1 else 0) && m == (if month <= 2 then month + 9 else month - 3)
    ensures GetJulianDayNumber(year, month, day) == FIRST_DAY + DaysBeforeYear(y) + DaysBeforeMonth(m) + day - 1
  {
    JulianClosedForm(year, month, day, y, m);
    MonthFormula(m);
    YearFormula(y);
  }

  /** getJulianDayNumber counts the days of the calendar. */
  lemma JulianDayCountsDays(date: YearMonthDay)
    requires InCalendar(date)
    ensures JulianDayOf(date) == FIRST_DAY + DaysBefore(date)
  {
    JulianFormula(date.year, date.month, date.day, MarchYear(date), MarchMonth(date));
  }

  lemma DayLiesInMonth(date: YearMonthDay)
    requires InCalendar(date) && MarchMonth(date) < 11
    ensures DaysBeforeMonth(MarchMonth(date)) + date.day - 1 < DaysBeforeMonth(MarchMonth(date) + 1)
  {
  }

  lemma DayLiesInYear(date: YearMonthDay)
    requires InCalendar(date)
    ensures DaysBefore(date) < DaysBeforeYear(MarchYear(date) + 1)
  {
  }

  lemma NextMarch(date: YearMonthDay)
    requires InCalendar(date) && date.month == 2 && date.day == DaysInMonth(date.year, 2)
    ensures DaysBefore(NextDay(date)) == DaysBefore(date) + 1
  {
  }

  lemma NextDayIsInCalendar(date: YearMonthDay)
    requires InCalendar(date)
    ensures InCalendar(NextDay(date))
  {
  }

  lemma NextDayCounts(date: YearMonthDay)
    requires InCalendar(date)
    ensures InCalendar(NextDay(date))
    ensures DaysBefore(NextDay(date)) == DaysBefore(date) + 1
  {
    NextDayIsInCalendar(date);
    if date.day == DaysInMonth(date.year, date.month) && date.month == 2 {
      NextMarch(date);
    }
  }

  /** The next calendar day has the next day number. */
  lemma NextDayIsPlusOne(date: YearMonthDay)
    requires InCalendar(date)
    ensures InCalendar(NextDay(date))
    ensures JulianDayOf(NextDay(date)) == JulianDayOf(date) + 1
  {
    JulianDayCountsDays(date);
    NextDayCounts(date);
    JulianDayCountsDays(NextDay(date));
  }

  lemma {:induction false} YearsAreOrdered(y: nat, z: nat)
    requires y <= z
    ensures DaysBeforeYear(y) <= DaysBeforeYear(z)
  {
    if y < z { YearsAreOrdered(y, z - 1); }
  }

  lemma {:induction false} MonthsAreOrdered(m: nat, n: nat)
    requires m <= n
    ensures DaysBeforeMonth(m) <= DaysBeforeMonth(n)
  {
    if m < n { MonthsAreOrdered(m, n - 1); }
  }

  lemma EarlierYearIsLess(x: YearMonthDay, y: YearMonthDay)
    requires InCalendar(x) && InCalendar(y) && MarchYear(x) < MarchYear(y)
    ensures DaysBefore(x) < DaysBefore(y)
  {
    DayLiesInYear(x);
    YearsAreOrdered(MarchYear(x) + 1, MarchYear(y));
  }

  lemma EarlierMonthIsLess(x: YearMonthDay, y: YearMonthDay)
    requires InCalendar(x) && InCalendar(y) && MarchYear(x) == MarchYear(y) && MarchMonth(x) < MarchMonth(y)
    ensures DaysBefore(x) < DaysBefore(y)
  {
    DayLiesInMonth(x);
    MonthsAreOrdered(MarchMonth(x) + 1, MarchMonth(y));
  }

  lemma DaysBeforeOrdersDates(x: YearMonthDay, y: YearMonthDay)
    requires InCalendar(x) && InCalendar(y) && Before(x, y)
    ensures DaysBefore(x) < DaysBefore(y)
  {
    if MarchYear(x) < MarchYear(y) {
      EarlierYearIsLess(x, y);
    } else if MarchMonth(x) < MarchMonth(y) {
      EarlierMonthIsLess(x, y);
    }
  }

  /** Day numbers order dates, so no two dates of the calendar share one. */
  lemma DayNumberOrdersDates(x: YearMonthDay, y: YearMonthDay)
    requires InCalendar(x) && InCalendar(y) && Before(x, y)
    ensures JulianDayOf(x) < JulianDayOf(y)
  {
    JulianDayCountsDays(x);
    JulianDayCountsDays(y);
    DaysBeforeOrdersDates(x, y);
  }

  // The steps of getYearMonthDay: century b, year of the century d, day of the year e, month m.

  lemma CenturyLength(b: nat, d: nat)
    ensures (146097 * b) / 4 == 36524 * b + b / 4
    ensures (1461 * d) / 4 == 365 * d + d / 4
  {
  }

  lemma CenturySplit(a: nat, b: nat, c: int)
    requires b == (4 * a + 3) / 146097 && c == a - (b * 146097) / 4
    ensures 0 <= c <= 36524 && (c == 36524 ==> b % 4 == 3)
  {
    CenturyLength(b, 0);
  }

  lemma YearSplit(c: nat, d: nat, e: int)
    requires c <= 36524 && d == (4 * c + 3) / 1461 && e == c - (1461 * d) / 4
    ensures d <= 99 && 0 <= e <= 365 && (e == 365 ==> d % 4 == 3 && (d == 99 ==> c == 36524))
  {
  }

  lemma YearInCentury(b: nat, d: nat)
    requires d <= 99
    ensures (100 * b + d) / 100 == b
    ensures (100 * b + d) / 4 == 25 * b + d / 4
    ensures (100 * b + d) / 400 == b / 4
  {
  }

  lemma CenturyFormula(b: nat, d: nat)
    requires d <= 99
    ensures DaysBeforeYear(100 * b + d) == (146097 * b) / 4 + (1461 * d) / 4
  {
    YearFormula(100 * b + d);
    YearInCentury(b, d);
    CenturyLength(b, d);
  }

  // A March year has 366 days exactly when it ends in a leap February.
  lemma LeapInCentury(b: nat, d: nat)
    requires d <= 99 && d % 4 == 3 && (d == 99 ==> b % 4 == 3)
    ensures IsLeap(100 * b + d + 1 - 4800)
  {
    var y := 100 * b + d + 1;
    LeapCycle(y);
    if d == 99 {
      assert y == 400 * (b / 4 + 1);
    } else {
      YearInCentury(b, d + 1);
      assert y % 100 == d + 1;
    }
  }

  lemma MonthSplit(e: nat, m: int)
    requires e <= 365 && m == (5 * e + 2) / 153
    ensures 0 <= m <= 11 && DaysBeforeMonth(m) <= e && (m < 11 ==> e < DaysBeforeMonth(m + 1))
  {
    MonthFormula(m);
    if m < 11 { MonthFormula(m + 1); }
  }

  // b, d, e and m are what getYearMonthDay(j) computes on its way.
  ghost predicate Splits(j: int, b: nat, d: nat, e: nat, m: nat) {
    var a := j + 32044;
    var c := a - (b * 146097) / 4;
    0 <= a && b == (4 * a + 3) / 146097 && 0 <= c && d == (4 * c + 3) / 1461
    && e == c - (1461 * d) / 4 && m == (5 * e + 2) / 153
  }

  lemma SplitExists(j: int) returns (b: nat, d: nat, e: nat, m: nat)
    requires FIRST_DAY <= j
    ensures Splits(j, b, d, e, m)
  {
    var a := j + 32044;
    b := (4 * a + 3) / 146097;
    var c := a - (b * 146097) / 4;
    CenturySplit(a, b, c);
    d := (4 * c + 3) / 1461;
    var e' := c - (1461 * d) / 4;
    YearSplit(c, d, e');
    e, m := e', (5 * e' + 2) / 153;
  }

  lemma SplitFormula(j: int, b: nat, d: nat, e: nat, m: nat)
    requires Splits(j, b, d, e, m)
    ensures GetYearMonthDay(j)
         == YearMonthDay(100 * b + d - 4800 + m / 10, m + 3 - 12 * (m / 10), e - (153 * m + 2) / 5 + 1)
  {
  }

  lemma SplitBounds(j: int, b: nat, d: nat, e: nat, m: nat)
    requires Splits(j, b, d, e, m)
    ensures d <= 99 && e <= 365 && (e == 365 ==> d % 4 == 3 && (d == 99 ==> b % 4 == 3))
    ensures j == FIRST_DAY + (146097 * b) / 4 + (1461 * d) / 4 + e
  {
    var a := j + 32044;
    var c := a - (b * 146097) / 4;
    CenturySplit(a, b, c);
    YearSplit(c, d, e);
  }

  lemma DateOfSplit(j: int, b: nat, d: nat, e: nat, m: nat)
    requires Splits(j, b, d, e, m)
    ensures GetYearMonthDay(j)
         == YearMonthDay(100 * b + d - 4800 + (if m >= 10 then 1 else 0),
                         if m >= 10 then m - 9 else m + 3,
                         e - DaysBeforeMonth(m) + 1)
    ensures j == FIRST_DAY + DaysBeforeYear(100 * b + d) + e
    ensures m <= 11 && DaysBeforeMonth(m) <= e <= 365 && (m < 11 ==> e < DaysBeforeMonth(m + 1))
    ensures e == 365 ==> IsLeap(100 * b + d + 1 - 4800)
  {
    SplitBounds(j, b, d, e, m);
    MonthSplit(e, m);
    MonthFormula(m);
    SplitFormula(j, b, d, e, m);
    CenturyFormula(b, d);
    if e == 365 { LeapInCentury(b, d); }
  }

  lemma PlaceInYear(y: nat, m: nat, e: nat, date: YearMonthDay)
    requires date.year == y - 4800 + (if m >= 10 then 1 else 0) && date.month == (if m >= 10 then m - 9 else m + 3)
    requires date.day == e - DaysBeforeMonth(m) + 1
    requires m <= 11 && DaysBeforeMonth(m) <= e <= 365 && (m < 11 ==> e < DaysBeforeMonth(m + 1))
    requires e == 365 ==> IsLeap(y + 1 - 4800)
    ensures InCalendar(date) && DaysBefore(date) == DaysBeforeYear(y) + e
  {
  }

  lemma SplitCountsDays(j: int, b: nat, d: nat, e: nat, m: nat, date: YearMonthDay)
    requires Splits(j, b, d, e, m) && date == GetYearMonthDay(j)
    ensures InCalendar(date) && FIRST_DAY + DaysBefore(date) == j
  {
    hide Splits, GetYearMonthDay, InCalendar, DaysBefore, DaysBeforeYear, DaysBeforeMonth, IsLeap;
    DateOfSplit(j, b, d, e, m);
    PlaceInYear(100 * b + d, m, e, date);
  }

  lemma DateCountsDays(j: int, date: YearMonthDay)
    requires FIRST_DAY <= j && date == GetYearMonthDay(j)
    ensures InCalendar(date) && FIRST_DAY + DaysBefore(date) == j
  {
    var b, d, e, m := SplitExists(j);
    SplitCountsDays(j, b, d, e, m, date);
  }

  /** Every day number from FIRST_DAY on is the number of a valid date, which getYearMonthDay returns. */
  lemma DayNumberRoundTrip(j: int)
    requires FIRST_DAY <= j
    ensures InCalendar(GetYearMonthDay(j))
    ensures JulianDayOf(GetYearMonthDay(j)) == j
  {
    var date := GetYearMonthDay(j);
    DateCountsDays(j, date);
    JulianDayCountsDays(date);
  }

  /** Every valid date of the calendar maps back to itself. */
  lemma DateRoundTrip(date: YearMonthDay)
    requires InCalendar(date)
    ensures FIRST_DAY <= JulianDayOf(date)
    ensures GetYearMonthDay(JulianDayOf(date)) == date
  {
    JulianDayCountsDays(date);
    var j := JulianDayOf(date);
    DayNumberRoundTrip(j);
    var back := GetYearMonthDay(j);
    if Before(date, back) { DayNumberOrdersDates(date, back); }
    if Before(back, date) { DayNumberOrdersDates(back, date); }
  }

  lemma EpochDay()
    ensures GetJulianDayNumber(1970, 1, 1) == JULIAN_DAY_OF_1970_01_01
  {
  }

  /** weekDay() advances by one each day, from the Thursday that 1 January 1970 was. */
  lemma WeekDayCycles(j: int)
    requires -1 <= j
    ensures WeekDay(j + 1) == (if WeekDay(j) == 6 then 0 else WeekDay(j) + 1)
    ensures WeekDay(JULIAN_DAY_OF_1970_01_01) == 4
  {
    hide Rem;
    assert 2440589 == 348655 * 7 + 4;
  }

  /** weekDay() is one of 0 to 6 exactly for day -1 and later, and for the Sundays before. */
  lemma WeekDayInRange(j: int)
    ensures 0 <= WeekDay(j) < DAYS_PER_WEEK <==> -1 <= j || (-(j + 1)) % 7 == 0
  {
  }

  /** The day before is the first one without a weekday. */
  lemma WeekDayOutOfRange()
    ensures WeekDay(-2) == -1
  {
  }
}
