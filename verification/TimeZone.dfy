/** base/TimeZone.cc: local time, looked up in a table of offset transitions. */
module TimeZone {
  import opened CMath
  import opened Date
  import opened UtcTime

  datatype Transition = Transition(gmttime: int, localtime: int, localtimeIdx: nat)

  datatype Localtime = Localtime(gmtOffset: int, isDst: bool, arrbIdx: int)

  datatype Data = Data(transitions: seq<Transition>, localtimes: seq<Localtime>)

  // Comp: transitions are compared by UTC time or by local time.
  function Key(transition: Transition, compareGmt: bool): int {
    if compareGmt then transition.gmttime else transition.localtime
  }

  predicate Sorted(transitions: seq<Transition>, compareGmt: bool) {
    forall i, j :: 0 <= i < j < |transitions| ==> Key(transitions[i], compareGmt) < Key(transitions[j], compareGmt)
  }

  // A table as readTimeZoneFile builds it from 32-bit fields, in order of time.
  predicate ValidData(data: Data) {
    && |data.localtimes| > 0
    && Sorted(data.transitions, true)
    && (forall i :: 0 <= i < |data.localtimes| ==> IsInt32(data.localtimes[i].gmtOffset))
    && (forall i :: 0 <= i < |data.transitions| ==> ValidTransition(data, data.transitions[i]))
  }

  predicate ValidTransition(data: Data, transition: Transition) {
    && transition.localtimeIdx < |data.localtimes|
    && IsInt32(transition.gmttime)
    && transition.localtime == transition.gmttime + data.localtimes[transition.localtimeIdx].gmtOffset
  }

  // The index of the last transition at or before the key, or -1.
  function LastAtOrBefore(transitions: seq<Transition>, key: int, compareGmt: bool): (r: int)
    ensures -1 <= r < |transitions|
    ensures 0 <= r ==> Key(transitions[r], compareGmt) <= key
    ensures forall j :: r < j < |transitions| ==> key < Key(transitions[j], compareGmt)
  {
    if |transitions| == 0 then -1
    else
      var last := |transitions| - 1;
      if Key(transitions[last], compareGmt) <= key then last
      else LastAtOrBefore(transitions[..last], key, compareGmt)
  }

  lemma LastIs(transitions: seq<Transition>, key: int, compareGmt: bool, i: int)
    requires Sorted(transitions, compareGmt) && -1 <= i < |transitions|
    requires 0 <= i ==> Key(transitions[i], compareGmt) <= key
    requires i + 1 < |transitions| ==> key < Key(transitions[i + 1], compareGmt)
    ensures LastAtOrBefore(transitions, key, compareGmt) == i
  {
  }

  // The row in force after transition i; before the first transition it is the first row of the table.
  function Row(data: Data, i: int): Localtime
    requires ValidData(data) && -1 <= i < |data.transitions|
  {
    if i < 0 then data.localtimes[0] else data.localtimes[data.transitions[i].localtimeIdx]
  }

  function Offset(data: Data, i: int): int
    requires ValidData(data) && -1 <= i < |data.transitions|
  {
    Row(data, i).gmtOffset
  }

  method LowerBound(transitions: seq<Transition>, key: int, compareGmt: bool) returns (first: nat)
    requires Sorted(transitions, compareGmt)
    ensures first <= |transitions|
    ensures forall i :: 0 <= i < first ==> Key(transitions[i], compareGmt) < key
    ensures forall i :: first <= i < |transitions| ==> key <= Key(transitions[i], compareGmt)
  {
    first := 0;
    var len := |transitions|;
    while len > 0
      invariant 0 <= len && first + len <= |transitions|
      invariant forall i :: 0 <= i < first ==> Key(transitions[i], compareGmt) < key
      invariant forall i :: first + len <= i < |transitions| ==> key <= Key(transitions[i], compareGmt)
    {
      var half := len / 2;
      if Key(transitions[first + half], compareGmt) < key {
        first := first + half + 1;
        len := len - half - 1;
      } else {
        len := half;
      }
    }
  }

  method FindLocaltime(data: Data, key: int, compareGmt: bool) returns (local: Localtime)
    requires ValidData(data) && Sorted(data.transitions, compareGmt)
    ensures local == Row(data, LastAtOrBefore(data.transitions, key, compareGmt))
  {
    var n := |data.transitions|;
    if n == 0 || key < Key(data.transitions[0], compareGmt) {
      local := data.localtimes[0];
    } else {
      var transI := LowerBound(data.transitions, key, compareGmt);
      if transI != n {
        if key != Key(data.transitions[transI], compareGmt) {
          assert transI != 0;
          transI := transI - 1;
        }
        LastIs(data.transitions, key, compareGmt, transI);
        local := data.localtimes[data.transitions[transI].localtimeIdx];
      } else {
        LastIs(data.transitions, key, compareGmt, n - 1);
        local := data.localtimes[data.transitions[n - 1].localtimeIdx];
      }
    }
  }

  // The transition in force at UTC time t.
  function Segment(data: Data, t: int): (i: int)
    ensures -1 <= i < |data.transitions|
  {
    LastAtOrBefore(data.transitions, t, true)
  }

  function LocalOf(data: Data, t: int): Tm
    requires ValidData(data)
  {
    var local := Row(data, Segment(data, t));
    UtcOf(t + local.gmtOffset, true).(isDst := local.isDst, gmtoff := local.gmtOffset)
  }

  // The times whose local and UTC forms are both in the calendar, whatever row applies.
  predicate InLocalRange(t: int) {
    InUtcRange(t - 0x8000_0000) && InUtcRange(t + 0x8000_0000)
  }

  lemma RangeIsConvex(x: int, t: int, y: int)
    requires InUtcRange(x) && x <= t <= y && InUtcRange(y)
    ensures InUtcRange(t)
  {
  }

  lemma SortedByGmt(data: Data)
    requires ValidData(data)
    ensures Sorted(data.transitions, true)
  {
  }

  method ToLocalTime(data: Data, seconds: int) returns (localTime: Tm)
    requires ValidData(data)
    ensures InUtcRange(seconds + Offset(data, Segment(data, seconds))) ==> localTime == LocalOf(data, seconds)
  {
    hide UtcOf, ValidData, InUtcRange, LastAtOrBefore;
    SortedByGmt(data);
    var local := FindLocaltime(data, seconds, true);
    var localSeconds := seconds + local.gmtOffset;
    localTime := ToUtcTime(localSeconds, true);
    localTime := localTime.(isDst := local.isDst);
    localTime := localTime.(gmtoff := local.gmtOffset);
  }

  function FromLocalOf(data: Data, localTm: Tm): int
    requires ValidData(data)
  {
    var seconds := FromUtcTime(localTm);
    var offset := Offset(data, LastAtOrBefore(data.transitions, seconds, false));
    var tryTm := LocalOf(data, seconds - offset);
    if localTm.isDst && !tryTm.isDst && tryTm.hour == localTm.hour && tryTm.min == localTm.min
    then seconds - 3600 - offset
    else seconds - offset
  }

  // timegm's result, with room for two offsets on either side.
  predicate LocalInRange(localTm: Tm) {
    var seconds := FromUtcTime(localTm);
    InUtcRange(seconds - 0x1_0000_0000) && InUtcRange(seconds + 0x1_0000_0000)
  }

  lemma TryInRange(data: Data, localTm: Tm, t: int, offset: int)
    requires ValidData(data) && LocalInRange(localTm) && IsInt32(offset) && t == FromUtcTime(localTm) - offset
    ensures InUtcRange(t + Offset(data, Segment(data, t)))
  {
    OffsetBounds(data, Segment(data, t));
    var seconds := FromUtcTime(localTm);
    RangeIsConvex(seconds - 0x1_0000_0000, t + Offset(data, Segment(data, t)), seconds + 0x1_0000_0000);
  }

  method FromLocalTime(data: Data, localTm: Tm) returns (result: int)
    requires ValidData(data) && Sorted(data.transitions, false)
    requires LocalInRange(localTm)
    ensures result == FromLocalOf(data, localTm)
  {
    hide UtcOf, FromUtcTime;
    var seconds := FromUtcTime(localTm);
    var local := FindLocaltime(data, seconds, false);
    if localTm.isDst {
      OffsetBounds(data, LastAtOrBefore(data.transitions, seconds, false));
      TryInRange(data, localTm, seconds - local.gmtOffset, local.gmtOffset);
      var tryTm := ToLocalTime(data, seconds - local.gmtOffset);
      if !tryTm.isDst && tryTm.hour == localTm.hour && tryTm.min == localTm.min {
        seconds := seconds - 3600;
      }
    }
    result := seconds - local.gmtOffset;
  }

  // How far the local clock is set back at transition i.
  function Drop(data: Data, i: int): nat
    requires ValidData(data) && 0 <= i < |data.transitions|
  {
    var d := Offset(data, i - 1) - Offset(data, i);
    if d > 0 then d else 0
  }

  // The hours repeated around one transition have passed before those of the next begin.
  predicate Spaced(data: Data)
    requires ValidData(data)
  {
    forall i :: 0 <= i < |data.transitions| - 1 ==> WellSpaced(data, i)
  }

  predicate WellSpaced(data: Data, i: int)
    requires ValidData(data) && 0 <= i < |data.transitions| - 1
  {
    data.transitions[i + 1].gmttime - data.transitions[i].gmttime > Drop(data, i) + Drop(data, i + 1)
  }

  // Transition i ends daylight saving time by setting the clock back one hour.
  predicate EndsDstByOneHour(data: Data, i: int)
    requires ValidData(data) && 0 <= i < |data.transitions|
  {
    Row(data, i - 1).isDst && !Row(data, i).isDst && Drop(data, i) == 3600
  }

  // t lies in the first pass of an interval of local time that the next transition repeats.
  predicate FirstPass(data: Data, t: int)
    requires ValidData(data)
  {
    var next := Segment(data, t) + 1;
    next < |data.transitions| && data.transitions[next].gmttime - Drop(data, next) <= t
  }

  lemma NextLocalIsLater(data: Data, i: int)
    requires ValidData(data) && Spaced(data) && 0 <= i < |data.transitions| - 1
    ensures data.transitions[i].localtime + Drop(data, i) < data.transitions[i + 1].localtime
  {
    assert WellSpaced(data, i);
    assert ValidTransition(data, data.transitions[i]) && ValidTransition(data, data.transitions[i + 1]);
  }

  lemma {:induction false} LaterLocalIsLater(data: Data, i: int, j: int)
    requires ValidData(data) && Spaced(data) && 0 <= i < j < |data.transitions|
    ensures data.transitions[i].localtime + Drop(data, i) < data.transitions[j].localtime
    decreases j - i
  {
    NextLocalIsLater(data, i);
    if i + 1 < j { LaterLocalIsLater(data, i + 1, j); }
  }

  /** Such a table is sorted by local time too, so both binary searches find the last transition at or before the
      key. */
  lemma SpacedIsSorted(data: Data)
    requires ValidData(data) && Spaced(data)
    ensures Sorted(data.transitions, false)
  {
    forall i, j | 0 <= i < j < |data.transitions|
      ensures Key(data.transitions[i], false) < Key(data.transitions[j], false)
    {
      LaterLocalIsLater(data, i, j);
    }
  }

  /** Where the local clock time leads: to the segment of t itself, or to the next one in a first pass. */
  lemma LocalSegment(data: Data, t: int)
    requires ValidData(data) && Spaced(data)
    ensures var i := Segment(data, t); var s := t + Offset(data, i);
            LastAtOrBefore(data.transitions, s, false) == if FirstPass(data, t) then i + 1 else i
  {
    hide Spaced, LastAtOrBefore;
    var i, n := Segment(data, t), |data.transitions|;
    var s := t + Offset(data, i);
    SpacedIsSorted(data);
    if 0 <= i { assert ValidTransition(data, data.transitions[i]); }
    if i + 1 < n { assert ValidTransition(data, data.transitions[i + 1]); }
    if FirstPass(data, t) {
      if i + 2 < n { NextLocalIsLater(data, i + 1); }
      LastIs(data.transitions, s, false, i + 1);
    } else {
      LastIs(data.transitions, s, false, i);
    }
  }

  // In a first pass the code looks again a little later: at the same clock time, after the transition.
  lemma SecondPass(data: Data, t: int)
    requires ValidData(data) && Spaced(data) && FirstPass(data, t)
    ensures var next := Segment(data, t) + 1;
            Segment(data, t + Drop(data, next)) == next
                && Drop(data, next) == Offset(data, next - 1) - Offset(data, next)
  {
    var next, n := Segment(data, t) + 1, |data.transitions|;
    if next + 1 < n { assert WellSpaced(data, next); }
    LastIs(data.transitions, t + Drop(data, next), true, next);
  }

  lemma OffsetBounds(data: Data, i: int)
    requires ValidData(data) && -1 <= i < |data.transitions|
    ensures IsInt32(Offset(data, i))
  {
  }

  lemma LocalSeconds(data: Data, t: int)
    requires ValidData(data) && InLocalRange(t)
    ensures FromUtcTime(LocalOf(data, t)) == t + Offset(data, Segment(data, t))
  {
    hide UtcOf, FromUtcTime, InUtcRange, LastAtOrBefore, ValidData, Row;
    var s := t + Offset(data, Segment(data, t));
    OffsetBounds(data, Segment(data, t));
    RangeIsConvex(t - 0x8000_0000, s, t + 0x8000_0000);
    UtcRoundTrip(s, true);
    SameSeconds(UtcOf(s, true), LocalOf(data, t));
  }

  lemma SameSeconds(x: Tm, y: Tm)
    requires y == x.(isDst := y.isDst, gmtoff := y.gmtoff)
    ensures FromUtcTime(y) == FromUtcTime(x)
  {
  }

  // The row of the last transition at or before t, or the first row of the table.
  predicate InForce(data: Data, t: int, local: Localtime)
    requires ValidData(data)
  {
    if exists i :: 0 <= i < |data.transitions| && data.transitions[i].gmttime <= t then
      exists i :: 0 <= i < |data.transitions| && data.transitions[i].gmttime <= t
                  && (forall j :: i < j < |data.transitions| ==> t < data.transitions[j].gmttime)
                  && local == data.localtimes[data.transitions[i].localtimeIdx]
    else local == data.localtimes[0]
  }

  lemma RowIsInForce(data: Data, t: int)
    requires ValidData(data)
    ensures InForce(data, t, Row(data, Segment(data, t)))
  {
    var i := Segment(data, t);
    if i >= 0 {
      assert data.transitions[i].gmttime == Key(data.transitions[i], true) <= t;
    }
    forall j | i < j < |data.transitions| ensures t < data.transitions[j].gmttime {
      assert t < Key(data.transitions[j], true);
    }
  }

  /** Every field of the local time: date and clock are UTC's shifted by the offset of the row in force, which it
      reports with that row's flag, and the weekday and the day of the year are those of the date. */
  lemma LocalIsShiftedUtc(data: Data, t: int)
    requires ValidData(data) && InLocalRange(t)
    ensures var local := LocalOf(data, t);
            && FromUtcTime(local) - local.gmtoff == t
            && InCalendar(DateOf(local)) && ValidClock(local)
            && (exists row :: InForce(data, t, row) && local.gmtoff == row.gmtOffset && local.isDst == row.isDst)
            && local.wday == WeekDay(JulianDayOf(DateOf(local)))
            && (DateOf(local).year > -4800 ==> local.yday == DayOfYear(DateOf(local)))
  {
    hide UtcOf, FromUtcTime, InUtcRange, LastAtOrBefore, ValidData, Row, InForce, WeekDay, DayOfYear,
        GetJulianDayNumber;
    var s := t + Offset(data, Segment(data, t));
    LocalSeconds(data, t);
    OffsetBounds(data, Segment(data, t));
    RangeIsConvex(t - 0x8000_0000, s, t + 0x8000_0000);
    RowIsInForce(data, t);
    UtcFieldsValid(s, true);
    DayOfYearCountsFromNewYear(s);
  }

  lemma LocalFields(data: Data, t: int, u: int)
    requires ValidData(data) && t + Offset(data, Segment(data, t)) == u + Offset(data, Segment(data, u))
    ensures LocalOf(data, t).isDst == Row(data, Segment(data, t)).isDst
    ensures LocalOf(data, u).isDst == Row(data, Segment(data, u)).isDst
    ensures LocalOf(data, t).hour == LocalOf(data, u).hour && LocalOf(data, t).min == LocalOf(data, u).min
  {
    hide UtcOf;
  }

  // fromLocalTime, given where its two look-ups lead.
  lemma FromLocalResult(data: Data, localTm: Tm, seconds: int, j: int, u: int)
    requires ValidData(data) && -1 <= j < |data.transitions|
    requires seconds == FromUtcTime(localTm) && j == LastAtOrBefore(data.transitions, seconds, false)
    requires u == seconds - Offset(data, j)
    requires LocalOf(data, u).hour == localTm.hour && LocalOf(data, u).min == localTm.min
    ensures FromLocalOf(data, localTm) == if localTm.isDst && !LocalOf(data, u).isDst then u - 3600 else u
  {
    hide UtcOf, FromUtcTime;
  }

  /** Local time converts back to the same moment exactly when it is not in a first pass,
      or the clock was set back by one hour at the end of daylight saving time. */
  lemma LocalRoundTrip(data: Data, t: int)
    requires ValidData(data) && Spaced(data) && InLocalRange(t)
    ensures FromLocalOf(data, LocalOf(data, t)) == t
       <==> !FirstPass(data, t) || EndsDstByOneHour(data, Segment(data, t) + 1)
  {
    hide UtcOf, FromUtcTime, LastAtOrBefore, InLocalRange, Spaced;
    LocalSeconds(data, t);
    LocalSegment(data, t);
    var i := Segment(data, t);
    var localTm, s := LocalOf(data, t), t + Offset(data, i);
    if FirstPass(data, t) {
      SecondPass(data, t);
      LocalFields(data, t, t + Drop(data, i + 1));
      FromLocalResult(data, localTm, s, i + 1, t + Drop(data, i + 1));
    } else {
      LocalFields(data, t, t);
      FromLocalResult(data, localTm, s, i, t);
    }
  }

  /** A local time read with either daylight saving flag: as the second pass in the interval that is repeated, and an
      hour earlier where the flag is set and the row then in force has no daylight saving time. */
  lemma FlaggedReading(data: Data, t: int, isDst: bool)
    requires ValidData(data) && Spaced(data) && InLocalRange(t)
    ensures var i := Segment(data, t);
            var u, j := if FirstPass(data, t) then t + Drop(data, i + 1) else t, if FirstPass(data, t) then i + 1
                else i;
            FromLocalOf(data, LocalOf(data, t).(isDst := isDst))
                == if isDst && !Row(data, j).isDst then u - 3600 else u
  {
    hide UtcOf, FromUtcTime, LastAtOrBefore, InLocalRange, Spaced;
    LocalSeconds(data, t);
    LocalSegment(data, t);
    var i := Segment(data, t);
    var localTm, s := LocalOf(data, t).(isDst := isDst), t + Offset(data, i);
    SameSeconds(LocalOf(data, t), localTm);
    if FirstPass(data, t) {
      SecondPass(data, t);
      LocalFields(data, t, t + Drop(data, i + 1));
      FromLocalResult(data, localTm, s, i + 1, t + Drop(data, i + 1));
    } else {
      LocalFields(data, t, t);
      FromLocalResult(data, localTm, s, i, t);
    }
  }

  // fromLocalTime, where the time that its look-up leads to has another clock.
  lemma FromLocalPlain(data: Data, localTm: Tm, seconds: int, j: int)
    requires ValidData(data) && -1 <= j < |data.transitions|
    requires seconds == FromUtcTime(localTm) && j == LastAtOrBefore(data.transitions, seconds, false)
    requires var tryTm := LocalOf(data, seconds - Offset(data,
        j)); tryTm.hour != localTm.hour || tryTm.min != localTm.min
    ensures FromLocalOf(data, localTm) == seconds - Offset(data, j)
  {
    hide UtcOf, FromUtcTime, LastAtOrBefore, LocalOf, ValidData, Row;
  }

  lemma LocalClock(data: Data, t: int)
    requires ValidData(data)
    ensures var utc := UtcOf(t + Offset(data, Segment(data, t)), true);
            LocalOf(data, t).hour == utc.hour && LocalOf(data, t).min == utc.min
  {
    hide UtcOf;
  }

  // Two times whose clocks differ by at least a minute, either way round.
  lemma ClocksDiffer(s: int, jump: int)
    requires 60 <= jump <= 86340
    ensures UtcOf(s + jump, true).hour != UtcOf(s, true).hour || UtcOf(s + jump, true).min != UtcOf(s, true).min
  {
    hide UtcOf;
    ClockOf(s);
    ClockOf(s + jump);
    DayShifts(s, jump);
  }

  lemma ClockOf(t: int)
    ensures var utc := UtcOf(t, true);
            0 <= utc.sec < 60 && utc.hour * 3600 + utc.min * 60 + utc.sec == t % SECONDS_PER_DAY
  {
    hide GetYearMonthDay, GetJulianDayNumber, WeekDay;
    SecondOfDay(t % SECONDS_PER_DAY);
  }

  lemma DayShifts(s: int, jump: nat)
    requires jump < SECONDS_PER_DAY
    ensures var x, y := s % SECONDS_PER_DAY, (s + jump) % SECONDS_PER_DAY;
            y == x + jump || y == x + jump - SECONDS_PER_DAY
  {
    var x := s % SECONDS_PER_DAY + jump;
    if x < SECONDS_PER_DAY {
      RemainderIs(s + jump, SECONDS_PER_DAY, s / SECONDS_PER_DAY, x);
    } else {
      RemainderIs(s + jump, SECONDS_PER_DAY, s / SECONDS_PER_DAY + 1, x - SECONDS_PER_DAY);
    }
  }

  /** A local time that transition i skips is read by the row before it, whatever its flag. */
  lemma SkippedReading(data: Data, i: nat, s: int, isDst: bool)
    requires ValidData(data) && Spaced(data) && i < |data.transitions| && InUtcRange(s)
    requires data.transitions[i].gmttime + Offset(data, i - 1) <= s < data.transitions[i].localtime
    requires 60 <= Offset(data, i) - Offset(data, i - 1) <= 86340
    requires i + 1 < |data.transitions| ==> s - Offset(data, i - 1) < data.transitions[i + 1].gmttime
    ensures FromLocalOf(data, UtcOf(s, true).(isDst := isDst)) == s - Offset(data, i - 1)
  {
    hide FromLocalOf, LocalOf, Offset, UtcOf, FromUtcTime, LastAtOrBefore, InUtcRange, Spaced, ValidData, Row, Segment;
    SkippedSegments(data, i, s);
    UtcRoundTrip(s, true);
    var localTm, u := UtcOf(s, true).(isDst := isDst), s - Offset(data, i - 1);
    SameSeconds(UtcOf(s, true), localTm);
    ClocksDiffer(s, Offset(data, i) - Offset(data, i - 1));
    LocalClock(data, u);
    assert u + Offset(data, i) == s + (Offset(data, i) - Offset(data, i - 1));
    FromLocalPlain(data, localTm, s, i - 1);
  }

  lemma SkippedSegments(data: Data, i: nat, s: int)
    requires ValidData(data) && Spaced(data) && i < |data.transitions|
    requires data.transitions[i].gmttime + Offset(data, i - 1) <= s < data.transitions[i].localtime
    requires i + 1 < |data.transitions| ==> s - Offset(data, i - 1) < data.transitions[i + 1].gmttime
    ensures LastAtOrBefore(data.transitions, s, false) == i - 1 && Segment(data, s - Offset(data, i - 1)) == i
  {
    hide LastAtOrBefore;
    SpacedIsSorted(data);
    if i > 0 { assert ValidTransition(data, data.transitions[i - 1]); }
    LastIs(data.transitions, s, false, i - 1);
    LastIs(data.transitions, s - Offset(data, i - 1), true, i);
  }

  lemma FirstPassIsBeforeDrop(data: Data, t: int)
    requires ValidData(data) && FirstPass(data, t)
    ensures Drop(data, Segment(data, t) + 1) > 0
  {
  }

  /** Every moment survives the round trip exactly when every set-back ends daylight saving time by one hour. */
  lemma AlwaysInvertible(data: Data)
    requires ValidData(data) && Spaced(data)
    ensures (forall t :: InLocalRange(t) ==> FromLocalOf(data, LocalOf(data, t)) == t)
       <==> (forall i :: 0 <= i < |data.transitions| && Drop(data, i) > 0 ==> EndsDstByOneHour(data, i))
  {
    hide FromLocalOf, LocalOf, Spaced, Segment, Drop, EndsDstByOneHour;
    if forall i :: 0 <= i < |data.transitions| && Drop(data, i) > 0 ==> EndsDstByOneHour(data, i) {
      forall t | InLocalRange(t) ensures FromLocalOf(data, LocalOf(data, t)) == t {
        LocalRoundTrip(data, t);
        if FirstPass(data, t) { FirstPassIsBeforeDrop(data, t); }
      }
    }
    forall i | 0 <= i < |data.transitions| && Drop(data, i) > 0 && !EndsDstByOneHour(data, i)
      ensures exists t :: InLocalRange(t) && FromLocalOf(data, LocalOf(data, t)) != t
    {
      var t := data.transitions[i].gmttime - 1;
      LastSecondIsFirstPass(data, i);
      LocalRoundTrip(data, t);
    }
  }

  lemma LastSecondIsFirstPass(data: Data, i: int)
    requires ValidData(data) && Spaced(data) && 0 <= i < |data.transitions| && Drop(data, i) > 0
    ensures var t := data.transitions[i].gmttime - 1;
            InLocalRange(t) && Segment(data, t) == i - 1 && FirstPass(data, t)
  {
    hide Drop, Spaced;
    assert ValidTransition(data, data.transitions[i]);
    TransitionsInRange(data.transitions[i].gmttime - 1);
    hide InLocalRange, ValidTransition;
    LastIs(data.transitions, data.transitions[i].gmttime - 1, true, i - 1);
    hide LastAtOrBefore, ValidData;
  }

  lemma TransitionsInRange(t: int)
    requires IsInt32(t + 1)
    ensures InLocalRange(t)
  {
  }

  // A zone whose standard time moves back one hour, as Moscow's did in 2014.
  const STANDARD_TIME_CHANGE := Data([Transition(1414274400, 1414285200, 1)],
                                     [Localtime(14400, false, 0), Localtime(10800, false, 0)])

  /** Such a change makes the hour before it convert back to one hour later. */
  lemma StandardTimeChangeIsNotInvertible()
    ensures ValidData(STANDARD_TIME_CHANGE) && Spaced(STANDARD_TIME_CHANGE)
    ensures FromLocalOf(STANDARD_TIME_CHANGE, LocalOf(STANDARD_TIME_CHANGE, 1414274399)) != 1414274399
  {
  }
}
