/** base/TimeZone.cc: broken-down UTC time and back. */
module UtcTime {
  import opened CMath
  import opened Date

  // struct tm: months count from 0, years from 1900.
  datatype Tm = Tm(sec: int, min: int, hour: int, mday: int, mon: int, year: int,
                   wday: int, yday: int, isDst: bool, gmtoff: int)

  const SECONDS_PER_DAY := 24 * 60 * 60
  const ZERO_TM := Tm(0, 0, 0, 0, 0, 0, 0, 0, false, 0)

  // static_cast<int> of a 64-bit value.
  function ToInt32(x: int): (r: int)
    ensures IsInt32(x) ==> r == x
  {
    (x + 0x8000_0000) % 0x1_0000_0000 - 0x8000_0000
  }

  function DayNumber(t: int): int {
    t / SECONDS_PER_DAY + JULIAN_DAY_OF_1970_01_01
  }

  // The times whose day the calendar covers without leaving a 32-bit int.
  predicate InUtcRange(t: int) {
    FIRST_DAY <= DayNumber(t) <= LAST_DAY
  }

  method FillHMS(seconds: nat, tm: Tm) returns (utc: Tm)
    ensures 0 <= utc.sec < 60 && 0 <= utc.min < 60 && 0 <= utc.hour
    ensures utc.hour * 3600 + utc.min * 60 + utc.sec == seconds
    ensures utc == tm.(sec := utc.sec, min := utc.min, hour := utc.hour)
  {
    utc := tm.(sec := seconds % 60);
    var minutes := seconds / 60;
    utc := utc.(min := minutes % 60);
    utc := utc.(hour := minutes / 60);
  }

  function DateOf(utc: Tm): YearMonthDay {
    YearMonthDay(utc.year + 1900, utc.mon + 1, utc.mday)
  }

  predicate ValidClock(utc: Tm) {
    0 <= utc.sec < 60 && 0 <= utc.min < 60 && 0 <= utc.hour < 24
  }

  // What toUtcTime returns: the floor of the day count and the second of the day.
  function UtcOf(t: int, yday: bool): Tm {
    var date := GetYearMonthDay(DayNumber(t));
    var second := t % SECONDS_PER_DAY;
    Tm(second % 60, second / 60 % 60, second / 3600,
       date.day, date.month - 1, date.year - 1900,
       WeekDay(DayNumber(t)), if yday then DayNumber(t) - GetJulianDayNumber(date.year, 1, 1) else 0,
       false, 0)
  }

  lemma HMSUnique(seconds: nat, hour: nat, min: nat, sec: nat)
    requires hour * 3600 + min * 60 + sec == seconds && min < 60 && sec < 60
    ensures hour == seconds / 3600 && min == seconds / 60 % 60 && sec == seconds % 60
  {
    RemainderIs(seconds, 60, hour * 60 + min, sec);
    RemainderIs(hour * 60 + min, 60, hour, min);
    RemainderIs(seconds, 3600, hour, min * 60 + sec);
  }

  lemma FloorOfTruncated(t: int)
    ensures var q, r := Quot(t, SECONDS_PER_DAY), Rem(t, SECONDS_PER_DAY);
            if r < 0 then t / SECONDS_PER_DAY == q - 1 && t % SECONDS_PER_DAY == r + SECONDS_PER_DAY
            else t / SECONDS_PER_DAY == q && t % SECONDS_PER_DAY == r
  {
  }

  lemma DaysFit(t: int)
    requires InUtcRange(t)
    ensures ToInt32(Quot(t, SECONDS_PER_DAY)) == Quot(t, SECONDS_PER_DAY)
  {
    FloorOfTruncated(t);
  }

  lemma UtcOfParts(t: int, yday: bool, utc: Tm, j: int)
    requires j == DayNumber(t) && ValidClock(utc) && utc.hour * 3600 + utc.min * 60 + utc.sec == t % SECONDS_PER_DAY
    requires DateOf(utc) == GetYearMonthDay(j) && utc.wday == WeekDay(j) && utc.isDst == false && utc.gmtoff == 0
    requires utc.yday == if yday then j - GetJulianDayNumber(utc.year + 1900, 1, 1) else 0
    ensures utc == UtcOf(t, yday)
  {
    HMSUnique(t % SECONDS_PER_DAY, utc.hour, utc.min, utc.sec);
  }

  method ToUtcTime(secondsSinceEpoch: int, yday: bool) returns (utc: Tm)
    ensures InUtcRange(secondsSinceEpoch) ==> utc == UtcOf(secondsSinceEpoch, yday)
  {
    hide Quot, Rem, ToInt32, UtcOf, GetYearMonthDay, GetJulianDayNumber, WeekDay;
    if InUtcRange(secondsSinceEpoch) { DaysFit(secondsSinceEpoch); }
    utc := ZERO_TM;
    var seconds := Rem(secondsSinceEpoch, SECONDS_PER_DAY);
    var days := ToInt32(Quot(secondsSinceEpoch, SECONDS_PER_DAY));
    if seconds < 0 {
      seconds := seconds + SECONDS_PER_DAY;
      days := days - 1;
    }
    FloorOfTruncated(secondsSinceEpoch);
    utc := FillHMS(seconds, utc);
    var date := days + JULIAN_DAY_OF_1970_01_01;
    var ymd := GetYearMonthDay(date);
    utc := utc.(year := ymd.year - 1900);
    utc := utc.(mon := ymd.month - 1);
    utc := utc.(mday := ymd.day);
    utc := utc.(wday := WeekDay(date));
    if yday {
      var startOfYear := GetJulianDayNumber(ymd.year, 1, 1);
      utc := utc.(yday := date - startOfYear);
    }
    if InUtcRange(secondsSinceEpoch) {
      UtcOfParts(secondsSinceEpoch, yday, utc, date);
    }
  }

  function FromUtcFields(year: int, month: int, day: int, hour: int, minute: int, seconds: int): int {
    var secondsInDay := hour * 3600 + minute * 60 + seconds;
    var days := GetJulianDayNumber(year, month, day) - JULIAN_DAY_OF_1970_01_01;
    days * SECONDS_PER_DAY + secondsInDay
  }

  function FromUtcTime(utc: Tm): int {
    FromUtcFields(utc.year + 1900, utc.mon + 1, utc.mday, utc.hour, utc.min, utc.sec)
  }

  // The days of the year before the given month.
  function DaysBeforeMonthOfYear(year: int, month: int): nat
    decreases month
  {
    if month <= 1 then 0 else DaysBeforeMonthOfYear(year, month - 1) + DaysInMonth(year, month - 1)
  }

  function DayOfYear(date: YearMonthDay): int {
    DaysBeforeMonthOfYear(date.year, date.month) + date.day - 1
  }

  lemma SecondOfDay(second: nat)
    requires second < SECONDS_PER_DAY
    ensures second / 3600 < 24
    ensures second / 3600 * 3600 + second / 60 % 60 * 60 + second % 60 == second
  {
  }

  lemma UtcOfFields(t: int, yday: bool)
    requires InUtcRange(t)
    ensures DateOf(UtcOf(t, yday)) == GetYearMonthDay(DayNumber(t))
    ensures ValidClock(UtcOf(t, yday))
    ensures UtcOf(t, yday).hour * 3600 + UtcOf(t, yday).min * 60 + UtcOf(t, yday).sec == t % SECONDS_PER_DAY
  {
    SecondOfDay(t % SECONDS_PER_DAY);
  }

  lemma FromUtcOfDate(utc: Tm, j: int, t: int)
    requires JulianDayOf(DateOf(utc)) == j
    requires utc.hour * 3600 + utc.min * 60 + utc.sec == t % SECONDS_PER_DAY
    requires j - JULIAN_DAY_OF_1970_01_01 == t / SECONDS_PER_DAY
    ensures FromUtcTime(utc) == t
  {
  }

  /** fromUtcTime undoes toUtcTime, before the epoch too. */
  lemma UtcRoundTrip(t: int, yday: bool)
    requires InUtcRange(t)
    ensures FromUtcTime(UtcOf(t, yday)) == t
  {
    var utc, j := UtcOf(t, yday), DayNumber(t);
    UtcOfFields(t, yday);
    DayNumberRoundTrip(j);
    FromUtcOfDate(utc, j, t);
  }

  /** toUtcTime yields a valid date and time of day, the weekday of that date, and no offset; without the flag it
      leaves the day of the year at 0. */
  lemma UtcFieldsValid(t: int, yday: bool)
    requires InUtcRange(t)
    ensures var utc := UtcOf(t, yday);
            && InCalendar(DateOf(utc)) && ValidClock(utc)
            && utc.wday == WeekDay(JulianDayOf(DateOf(utc)))
            && !utc.isDst && utc.gmtoff == 0 && (!yday ==> utc.yday == 0)
  {
    UtcOfFields(t, yday);
    DateCountsDays(DayNumber(t), DateOf(UtcOf(t, yday)));
    DayNumberRoundTrip(DayNumber(t));
    UtcOfRest(t, yday);
  }

  lemma UtcOfRest(t: int, yday: bool)
    ensures var utc := UtcOf(t, yday);
            utc.wday == WeekDay(DayNumber(t)) && !utc.isDst && utc.gmtoff == 0 && (!yday ==> utc.yday == 0)
  {
    hide WeekDay;
  }

  lemma DayAndSecond(days: int, second: nat)
    requires second < SECONDS_PER_DAY
    ensures (days * SECONDS_PER_DAY + second) / SECONDS_PER_DAY == days
    ensures (days * SECONDS_PER_DAY + second) % SECONDS_PER_DAY == second
  {
  }

  lemma UtcOfDay(utc: Tm, j: int, t: int, yday: bool)
    requires ValidClock(utc)
    requires t == (j - JULIAN_DAY_OF_1970_01_01) * SECONDS_PER_DAY + (utc.hour * 3600 + utc.min * 60 + utc.sec)
    ensures DayNumber(t) == j
    ensures var back := UtcOf(t, yday); back.hour == utc.hour && back.min == utc.min && back.sec == utc.sec
  {
    var second := utc.hour * 3600 + utc.min * 60 + utc.sec;
    DayAndSecond(j - JULIAN_DAY_OF_1970_01_01, second);
    HMSUnique(second, utc.hour, utc.min, utc.sec);
  }

  lemma DateOfUtc(t: int, yday: bool, date: YearMonthDay)
    requires GetYearMonthDay(DayNumber(t)) == date
    ensures DateOf(UtcOf(t, yday)) == date
  {
  }

  /** toUtcTime undoes fromUtcTime on every valid date and time of day. */
  lemma FromUtcRoundTrip(utc: Tm, yday: bool)
    requires InCalendar(DateOf(utc)) && ValidClock(utc)
    requires JulianDayOf(DateOf(utc)) <= LAST_DAY
    ensures InUtcRange(FromUtcTime(utc))
    ensures var back := UtcOf(FromUtcTime(utc), yday);
            DateOf(back) == DateOf(utc) && back.hour == utc.hour && back.min == utc.min && back.sec == utc.sec
  {
    var j, t := JulianDayOf(DateOf(utc)), FromUtcTime(utc);
    UtcOfDay(utc, j, t, yday);
    DateRoundTrip(DateOf(utc));
    DateOfUtc(t, yday, DateOf(utc));
  }

  lemma {:induction false} DaysOfYearInTwoParts(year: int, month: int)
    requires 3 <= month <= 12
    ensures DaysBeforeMonthOfYear(year, month) == 31 + DaysInMonth(year, 2) + DaysBeforeMonth(month - 3)
  {
    if month > 3 { DaysOfYearInTwoParts(year, month - 1); }
  }

  lemma NewYearsDay(year: int)
    requires year >= -4800
    ensures year > -4800 ==> GetJulianDayNumber(year, 1, 1) == FIRST_DAY + DaysBeforeYear(year + 4799) + 306
    ensures year == -4800 ==> GetJulianDayNumber(year, 1, 1) == FIRST_DAY - 59
  {
    if year > -4800 {
      JulianFormula(year, 1, 1, year + 4799, 10);
      MonthFormula(10);
    }
  }

  lemma DaysSinceMarch(date: YearMonthDay)
    requires InCalendar(date) && date.month >= 3
    ensures DaysBefore(date) == DaysBeforeYear(date.year + 4800) + DayOfYear(date) - 31 - DaysInMonth(date.year, 2)
  {
    DaysOfYearInTwoParts(date.year, date.month);
  }

  lemma DaysSinceNewYear(date: YearMonthDay)
    requires InCalendar(date) && date.year > -4800
    ensures DaysBefore(date) == DaysBeforeYear(date.year + 4799) + 306 + DayOfYear(date)
  {
    if date.month >= 3 {
      DaysSinceMarch(date);
    } else {
      MonthFormula(10);
      MonthFormula(11);
    }
  }

  /** The day of the year that toUtcTime fills in counts from 1 January, except in the calendar's first year, of which
      it has the last 306 days. */
  lemma DayOfYearCountsFromNewYear(t: int)
    requires InUtcRange(t)
    ensures UtcOf(t, true).yday == DayOfYear(DateOf(UtcOf(t, true))) <==> DayNumber(t) >= FIRST_DAY + 306
    ensures DateOf(UtcOf(t, true)).year > -4800 <==> DayNumber(t) >= FIRST_DAY + 306
  {
    var date := GetYearMonthDay(DayNumber(t));
    UtcOfFields(t, true);
    DateCountsDays(DayNumber(t), date);
    NewYearsDay(date.year);
    FirstNewYear(date);
    if date.year > -4800 {
      DaysSinceNewYear(date);
    } else {
      FirstYear(date);
    }
  }

  lemma FirstNewYear(date: YearMonthDay)
    requires InCalendar(date)
    ensures date.year > -4800 <==> DaysBefore(date) >= 306
  {
    var newYear := YearMonthDay(-4799, 1, 1);
    NewYearCounts();
    JulianDayCountsDays(date);
    JulianDayCountsDays(newYear);
    hide DaysBefore, GetJulianDayNumber;
    if Before(date, newYear) {
      DayNumberOrdersDates(date, newYear);
    } else if Before(newYear, date) {
      DayNumberOrdersDates(newYear, date);
    }
  }

  lemma NewYearCounts()
    ensures InCalendar(YearMonthDay(-4799, 1, 1)) && DaysBefore(YearMonthDay(-4799, 1, 1)) == 306
  {
    MonthFormula(10);
  }

  lemma FirstYear(date: YearMonthDay)
    requires InCalendar(date) && date.year == -4800
    ensures DaysBefore(date) + 60 == DayOfYear(date)
  {
    DaysOfYearInTwoParts(date.year, date.month);
  }

  // The start of the calendar, 1 March of the year -4800.
  const CALENDAR_START := -213635404800

  /** At that time, for one, the day of the year is not the number of days since 1 January. */
  lemma DayOfYearAtCalendarStart()
    ensures InUtcRange(CALENDAR_START)
    ensures UtcOf(CALENDAR_START, true).yday != DayOfYear(DateOf(UtcOf(CALENDAR_START, true)))
  {
    CalendarStartsInMarch();
    UtcOfFields(CALENDAR_START, true);
    hide UtcOf, GetYearMonthDay, DayOfYear;
    DayOfYearCountsFromNewYear(CALENDAR_START);
  }

  lemma CalendarStartsInMarch()
    ensures DayNumber(CALENDAR_START) == FIRST_DAY && GetYearMonthDay(FIRST_DAY) == YearMonthDay(-4800, 3, 1)
  {
    hide GetYearMonthDay, GetJulianDayNumber;
    var date := YearMonthDay(-4800, 3, 1);
    JulianDayCountsDays(date);
    DateRoundTrip(date);
  }
}
