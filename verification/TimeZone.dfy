/** UTC fields, and local time by a table of transitions (base/TimeZone.cpp). */
module TimeZones {
  import opened Arith
  import opened Calendar

  const SECONDS_PER_DAY: nat := 24 * 60 * 60

  /** `struct tm`: `year` counts from 1900 and `mon` from 0; `zone` stands for the abbreviation's index. */
  datatype Tm = Tm(year: int, mon: int, mday: int, hour: int, min: int, sec: int,
                   wday: int, yday: int, isDst: bool, gmtOffset: int, zone: nat)

  // ---------- UTC ----------

  function FillHMS(seconds: nat, tm: Tm): Tm {
    var minutes := seconds / 60;
    tm.(sec := seconds % 60, min := minutes % 60, hour := minutes / 60)
  }

  function ToUtcTime(time: int, yday: bool): Tm {
    var utc := Tm(0, 0, 0, 0, 0, 0, 0, 0, false, 0, 0);
    var rest := TruncMod(time, SECONDS_PER_DAY);
    var whole := TruncDiv(time, SECONDS_PER_DAY);
    var seconds := if rest < 0 then rest + SECONDS_PER_DAY else rest;
    var days := if rest < 0 then whole - 1 else whole;
    var julianDay := days + JULIAN_DAY_OF_1970_01_01;
    var ymd := GetYearMonthDay(julianDay);
    FillHMS(seconds, utc).(
      year := ymd.year - 1900, mon := ymd.month - 1, mday := ymd.day, wday := WeekDay(julianDay),
      yday := if yday then julianDay - GetJulianDayNumber(ymd.year, 1, 1) else 0)
  }

  function FromUtcTime(tm: Tm): int {
    FromFields(tm.year + 1900, tm.mon + 1, tm.mday, tm.hour, tm.min, tm.sec)
  }

  function FromFields(year: int, month: int, day: int, hour: int, minute: int, seconds: int): int {
    var secondsInDay := hour * 3600 + minute * 60 + seconds;
    var days := GetJulianDayNumber(year, month, day) - JULIAN_DAY_OF_1970_01_01;
    days * SECONDS_PER_DAY + secondsInDay
  }

  function DateOf(tm: Tm): YearMonthDay {
    YearMonthDay(tm.year + 1900, tm.mon + 1, tm.mday)
  }

  /** The Julian day of a time, by the floor and not by truncation. */
  function DayOf(time: int): int {
    time / SECONDS_PER_DAY + JULIAN_DAY_OF_1970_01_01
  }

  predicate TimeInRange(time: int) {
    DayOf(time) >= -32044
  }

  predicate ValidFields(tm: Tm) {
    && ValidDate(DateOf(tm)) && InRange(DateOf(tm))
    && 0 <= tm.hour <= 23 && 0 <= tm.min <= 59 && 0 <= tm.sec <= 59
  }

  /** Days from 1 January to the first of the month. */
  function DaysBeforeMonthInYear(year: int, month: int): int
    requires 1 <= month <= 12
    decreases month
  {
    if month == 1 then 0 else DaysBeforeMonthInYear(year, month - 1) + DaysOfMonth(year, month - 1)
  }

  lemma SplitTime(time: int)
    ensures var r := TruncMod(time, SECONDS_PER_DAY); var q := TruncDiv(time, SECONDS_PER_DAY);
            && time % SECONDS_PER_DAY == (if r < 0 then r + SECONDS_PER_DAY else r)
            && time / SECONDS_PER_DAY == (if r < 0 then q - 1 else q)
  {
    var m := SECONDS_PER_DAY;
    if time < 0 {
      var q, r := -time / m, -time % m;
      assert -time == q * m + r;
      assert time == -q * m - r;
      if r == 0 { ModUnique(time, m, -q, 0); } else { ModUnique(time, m, -q - 1, m - r); }
    }
  }

  lemma UtcFields(time: int, yday: bool)
    ensures var tm := ToUtcTime(time, yday); var s := time % SECONDS_PER_DAY;
            && DateOf(tm) == GetYearMonthDay(DayOf(time)) && tm.wday == WeekDay(DayOf(time))
            && 0 <= s < SECONDS_PER_DAY && tm.sec == s % 60 && tm.min == s / 60 % 60 && tm.hour == s / 60 / 60
            && tm.yday == (if yday then DayOf(time) - GetJulianDayNumber(tm.year + 1900, 1, 1) else 0)
  {
    hide GetYearMonthDay, GetJulianDayNumber, WeekDay, TruncDiv, TruncMod;
    SplitTime(time);
  }

  lemma ClockSplit(s: int)
    requires 0 <= s < SECONDS_PER_DAY
    ensures var h := s / 60 / 60; var m := s / 60 % 60; var c := s % 60;
            && 0 <= h <= 23 && 0 <= m <= 59 && 0 <= c <= 59 && s == h * 3600 + m * 60 + c
  {
  }

  /** UTC round trip, negative times included; every field is valid, and the weekday is right, and in range
      exactly from Julian day -1 on and on every seventh day before. */
  lemma UtcRoundTrip(time: int, yday: bool)
    requires TimeInRange(time)
    ensures var tm := ToUtcTime(time, yday);
            && ValidFields(tm) && FromUtcTime(tm) == time && tm.wday == WeekDay(DayOf(time))
            && (0 <= tm.wday <= 6 <==> DayOf(time) >= -1 || (DayOf(time) + 1) % 7 == 0)
  {
    hide GetYearMonthDay, GetJulianDayNumber, WeekDay, ToUtcTime, ValidDate, InRange;
    UtcFields(time, yday);
    WeekDayInRangeIff(DayOf(time));
    DateOfDay(DayOf(time));
    ClockSplit(time % SECONDS_PER_DAY);
    SameDay(ToUtcTime(time, yday));
  }

  lemma SameDay(tm: Tm)
    ensures GetJulianDayNumber(tm.year + 1900, tm.mon + 1, tm.mday) == Jdn(DateOf(tm))
  {
  }

  /** The seconds of valid fields lie in their day. */
  lemma FieldsInDay(tm: Tm)
    requires ValidFields(tm)
    ensures var s := tm.hour * 3600 + tm.min * 60 + tm.sec;
            && 0 <= s < SECONDS_PER_DAY
            && DayOf(FromUtcTime(tm)) == Jdn(DateOf(tm)) && FromUtcTime(tm) % SECONDS_PER_DAY == s
            && s % 60 == tm.sec && s / 60 % 60 == tm.min && s / 60 / 60 == tm.hour
  {
    hide GetJulianDayNumber, ValidDate, InRange, Jdn;
    SameDay(tm);
    var s := tm.hour * 3600 + tm.min * 60 + tm.sec;
    var days := Jdn(DateOf(tm)) - JULIAN_DAY_OF_1970_01_01;
    ModUnique(FromUtcTime(tm), SECONDS_PER_DAY, days, s);
    ModUnique(s, 60, tm.hour * 60 + tm.min, tm.sec);
    ModUnique(tm.hour * 60 + tm.min, 60, tm.hour, tm.min);
  }

  /** The other way round: all valid fields come back. */
  lemma FieldsRoundTrip(tm: Tm, yday: bool)
    requires ValidFields(tm)
    ensures TimeInRange(FromUtcTime(tm))
    ensures var back := ToUtcTime(FromUtcTime(tm), yday);
            && DateOf(back) == DateOf(tm) && back.hour == tm.hour && back.min == tm.min && back.sec == tm.sec
  {
    hide GetYearMonthDay, GetJulianDayNumber, WeekDay, ToUtcTime, FromUtcTime, ValidDate, InRange, Jdn;
    FieldsInDay(tm);
    UtcFields(FromUtcTime(tm), yday);
    DayOfDate(DateOf(tm));
  }

  predicate EarlierFields(a: Tm, b: Tm) {
    Earlier(DateOf(a), DateOf(b))
    || (DateOf(a) == DateOf(b)
        && (a.hour < b.hour || (a.hour == b.hour && (a.min < b.min || (a.min == b.min && a.sec < b.sec)))))
  }

  /** `fromUtcTime` is strictly increasing in the lexicographic order of the fields. */
  lemma FromUtcIncreasing(a: Tm, b: Tm)
    requires ValidFields(a) && ValidFields(b) && EarlierFields(a, b)
    ensures FromUtcTime(a) < FromUtcTime(b)
  {
    hide GetJulianDayNumber, ValidDate, InRange, Jdn, Earlier;
    FieldsInDay(a);
    FieldsInDay(b);
    SameDay(a);
    SameDay(b);
    if Earlier(DateOf(a), DateOf(b)) {
      EarlierIsLess(DateOf(a), DateOf(b));
    }
  }

  lemma {:induction false} MonthStart(year: int, month: int)
    requires year > -4800 && 1 <= month <= 12
    ensures Jdn(YearMonthDay(year, month, 1)) - Jdn(YearMonthDay(year, 1, 1)) == DaysBeforeMonthInYear(year, month)
    decreases month
  {
    hide Jdn, IsLeapYear;
    if month > 1 {
      MonthStart(year, month - 1);
      var last := YearMonthDay(year, month - 1, DaysOfMonth(year, month - 1));
      NextDayIsPlusOne(last);
      WithinMonth(year, month - 1, last.day);
    }
  }

  lemma {:induction false} WithinMonth(year: int, month: int, day: int)
    requires year > -4800 && 1 <= month <= 12 && 1 <= day <= DaysOfMonth(year, month)
    ensures Jdn(YearMonthDay(year, month, day)) == Jdn(YearMonthDay(year, month, 1)) + day - 1
    decreases day
  {
  }

  /** The Julian day of 1 January -4799. */
  const FIRST_NEW_YEAR: int := -31738

  lemma FirstFullYear(d: YearMonthDay)
    requires ValidDate(d) && InRange(d) && Jdn(d) >= FIRST_NEW_YEAR
    ensures d.year > -4800
  {
    var first := YearMonthDay(-4799, 1, 1);
    assert ValidDate(first) && InRange(first) && Jdn(first) == FIRST_NEW_YEAR;
    hide Jdn;
    if d.year == -4800 {
      EarlierIsLess(d, first);
      assert false;
    }
  }

  lemma DaysBeforeYearEnd(year: int, month: int)
    requires 1 <= month <= 12
    ensures 0 <= DaysBeforeMonthInYear(year, month)
    ensures DaysBeforeMonthInYear(year, month) + DaysOfMonth(year, month) <= (if IsLeapYear(year) then 366 else 365)
  {
    hide IsLeapYear;
    var leap := if IsLeapYear(year) then 1 else 0;
    assert DaysBeforeMonthInYear(year, 2) == 31;
    assert DaysBeforeMonthInYear(year, 3) == 59 + leap;
    assert DaysBeforeMonthInYear(year, 4) == 90 + leap;
    assert DaysBeforeMonthInYear(year, 5) == 120 + leap;
    assert DaysBeforeMonthInYear(year, 6) == 151 + leap;
    assert DaysBeforeMonthInYear(year, 7) == 181 + leap;
    assert DaysBeforeMonthInYear(year, 8) == 212 + leap;
    assert DaysBeforeMonthInYear(year, 9) == 243 + leap;
    assert DaysBeforeMonthInYear(year, 10) == 273 + leap;
    assert DaysBeforeMonthInYear(year, 11) == 304 + leap;
    assert DaysBeforeMonthInYear(year, 12) == 334 + leap;
  }

  /** `tm_yday` counts the days since 1 January of the same year, from the first full year of the range on;
      it is 365 at most, and only in a leap year. */
  lemma YearDay(time: int)
    requires DayOf(time) >= FIRST_NEW_YEAR
    ensures var tm := ToUtcTime(time, true);
            && 1 <= tm.mon + 1 <= 12
            && tm.yday == DaysBeforeMonthInYear(tm.year + 1900, tm.mon + 1) + tm.mday - 1
            && 0 <= tm.yday <= (if IsLeapYear(tm.year + 1900) then 365 else 364)
  {
    hide GetYearMonthDay, GetJulianDayNumber, WeekDay, ToUtcTime, Jdn, DaysOfMonth, IsLeapYear;
    UtcFields(time, true);
    DateOfDay(DayOf(time));
    var d := DateOf(ToUtcTime(time, true));
    FirstFullYear(d);
    MonthStart(d.year, d.month);
    WithinMonth(d.year, d.month, d.day);
    FirstOfYear(d.year);
    DaysBeforeYearEnd(d.year, d.month);
  }

  lemma FirstOfYear(year: int)
    ensures Jdn(YearMonthDay(year, 1, 1)) == GetJulianDayNumber(year, 1, 1)
  {
  }

  // ---------- local time, as in the source ----------

  datatype Localtime = Localtime(gmtOffset: int, isDst: bool, arrbIdx: nat)

  datatype Transition = Transition(gmttime: int, localtime: int, localtimeIdx: nat)

  datatype Data = Data(transitions: seq<Transition>, localtimes: seq<Localtime>)

  /** `Comp`: by UTC or by local time. */
  function Key(t: Transition, gmt: bool): int {
    if gmt then t.gmttime else t.localtime
  }

  predicate Less(a: Transition, b: Transition, gmt: bool) {
    Key(a, gmt) < Key(b, gmt)
  }

  /** `lower_bound`: the first transition from the `i`-th on that is not less than `sentry`. */
  function LowerBound(ts: seq<Transition>, sentry: Transition, gmt: bool, i: nat): (r: nat)
    requires i <= |ts|
    ensures i <= r <= |ts|
    ensures forall j :: i <= j < r ==> Less(ts[j], sentry, gmt)
    ensures r < |ts| ==> !Less(ts[r], sentry, gmt)
    decreases |ts| - i
  {
    if i < |ts| && Less(ts[i], sentry, gmt) then LowerBound(ts, sentry, gmt, i + 1) else i
  }

  /** The loaded table: there is a type, and every transition names one. */
  predicate TableOk(data: Data) {
    && |data.localtimes| > 0
    && forall i :: 0 <= i < |data.transitions| ==> data.transitions[i].localtimeIdx < |data.localtimes|
  }

  function FindLocaltime(data: Data, sentry: Transition, gmt: bool): Localtime
    requires TableOk(data)
  {
    var ts := data.transitions;
    if ts == [] || Less(sentry, ts[0], gmt) then data.localtimes[0]
    else
      var i := LowerBound(ts, sentry, gmt, 0);
      if i < |ts| then
        var k := if Key(sentry, gmt) == Key(ts[i], gmt) then i else i - 1;
        data.localtimes[ts[k].localtimeIdx]
      else data.localtimes[ts[|ts| - 1].localtimeIdx]
  }

  function ToLocalTime(data: Data, seconds: int): Tm
    requires TableOk(data)
  {
    var local := FindLocaltime(data, Transition(seconds, 0, 0), true);
    ToUtcTime(seconds + local.gmtOffset, true).(isDst := local.isDst, gmtOffset := local.gmtOffset,
      zone := local.arrbIdx)
  }

  /** Whether `fromLocalTime` takes an hour off. */
  predicate Corrects(data: Data, tm: Tm)
    requires TableOk(data)
  {
    var seconds := FromUtcTime(tm);
    var local := FindLocaltime(data, Transition(0, seconds, 0), false);
    var tryTm := ToLocalTime(data, seconds - local.gmtOffset);
    tm.isDst && !tryTm.isDst && tryTm.hour == tm.hour && tryTm.min == tm.min
  }

  function FromLocalTime(data: Data, tm: Tm): int
    requires TableOk(data)
  {
    var seconds := FromUtcTime(tm);
    var local := FindLocaltime(data, Transition(0, seconds, 0), false);
    (if Corrects(data, tm) then seconds - 3600 else seconds) - local.gmtOffset
  }

  // ---------- tables ----------

  /** The type in force after the first `n` transitions. */
  function TypeAfter(data: Data, n: nat): Localtime
    requires TableOk(data) && n <= |data.transitions|
  {
    if n == 0 then data.localtimes[0] else data.localtimes[data.transitions[n - 1].localtimeIdx]
  }

  /** How far the `i`-th transition sets the clock forward, or back if negative. */
  function Jump(data: Data, i: nat): int
    requires TableOk(data) && i < |data.transitions|
  {
    TypeAfter(data, i + 1).gmtOffset - TypeAfter(data, i).gmtOffset
  }

  /** How far it sets the clock back. */
  function Back(data: Data, i: nat): nat
    requires TableOk(data) && i < |data.transitions|
  {
    if Jump(data, i) < 0 then -Jump(data, i) else 0
  }

  /** Any table as loaded whose transitions are further apart than the clock is set back at both ends. */
  ghost predicate Spread(data: Data) {
    && TableOk(data)
    && (forall i :: 0 <= i < |data.transitions| ==>
          data.transitions[i].localtime == data.transitions[i].gmttime + TypeAfter(data, i + 1).gmtOffset)
    && (forall i :: 0 <= i < |data.transitions| - 1 ==>
          data.transitions[i].gmttime + Back(data, i) + Back(data, i + 1) < data.transitions[i + 1].gmttime)
  }

  /** The one kind of step back that the source provides for: an hour, from daylight to standard time. */
  predicate EndsDaylightHour(data: Data, i: nat)
    requires TableOk(data) && i < |data.transitions|
  {
    Jump(data, i) == -3600 && TypeAfter(data, i).isDst && !TypeAfter(data, i + 1).isDst
  }

  /** Adjacent types are standard and daylight time of one zone, an hour apart. */
  predicate Alternate(a: Localtime, b: Localtime) {
    a.isDst != b.isDst && (if a.isDst then a.gmtOffset == b.gmtOffset + 3600 else b.gmtOffset == a.gmtOffset + 3600)
  }

  ghost predicate Regular(data: Data) {
    && TableOk(data)
    && (forall i :: 0 <= i < |data.transitions| ==>
          data.transitions[i].localtime == data.transitions[i].gmttime + TypeAfter(data, i + 1).gmtOffset)
    && (forall i :: 0 <= i < |data.transitions| ==> Alternate(TypeAfter(data, i), TypeAfter(data, i + 1)))
    && (forall i, j :: 0 <= i < j < |data.transitions| ==>
          data.transitions[i].gmttime + 3600 < data.transitions[j].gmttime)
  }

  lemma RegularIsSpread(data: Data)
    requires Regular(data)
    ensures Spread(data)
    ensures forall i :: 0 <= i < |data.transitions| && Back(data, i) > 0 ==> EndsDaylightHour(data, i)
  {
    forall i | 0 <= i < |data.transitions|
      ensures Back(data, i) > 0 ==> EndsDaylightHour(data, i)
      ensures Back(data, i) == if TypeAfter(data, i).isDst then 3600 else 0
    {
      assert Alternate(TypeAfter(data, i), TypeAfter(data, i + 1));
    }
    forall i | 0 <= i < |data.transitions| - 1
      ensures data.transitions[i].gmttime + Back(data, i) + Back(data, i + 1) < data.transitions[i + 1].gmttime
    {
      assert Alternate(TypeAfter(data, i), TypeAfter(data, i + 1));
      assert data.transitions[i].gmttime + 3600 < data.transitions[i + 1].gmttime;
    }
  }

  /** Exactly the first `n` transitions are not after `x`. */
  ghost predicate InForce(data: Data, n: nat, x: int, gmt: bool) {
    && n <= |data.transitions|
    && (forall i :: 0 <= i < n ==> Key(data.transitions[i], gmt) <= x)
    && (forall i :: n <= i < |data.transitions| ==> x < Key(data.transitions[i], gmt))
  }

  lemma FindsInForce(data: Data, n: nat, sentry: Transition, gmt: bool)
    requires TableOk(data) && InForce(data, n, Key(sentry, gmt), gmt)
    requires forall i, j :: 0 <= i < j < |data.transitions| ==>
               Key(data.transitions[i], gmt) < Key(data.transitions[j], gmt)
    ensures FindLocaltime(data, sentry, gmt) == TypeAfter(data, n)
  {
    var ts := data.transitions;
    if n > 0 {
      var i := LowerBound(ts, sentry, gmt, 0);
      assert forall j :: 0 <= j < n - 1 ==> Key(ts[j], gmt) < Key(ts[n - 1], gmt);
      assert n < |ts| ==> !Less(ts[n], sentry, gmt);
      assert i == n - 1 || i == n;
    }
  }

  /** Transitions ascend by UTC and by local time. */
  lemma {:induction false} TimesAscend(data: Data, i: nat, j: nat)
    requires Spread(data) && i < j < |data.transitions|
    ensures data.transitions[i].gmttime + Back(data, i) + Back(data, j) < data.transitions[j].gmttime
    ensures data.transitions[i].localtime < data.transitions[j].localtime
    decreases j - i
  {
    hide TypeAfter;
    if i + 1 < j {
      TimesAscend(data, i, j - 1);
      TimesAscend(data, j - 1, j);
    }
  }

  lemma Locate(data: Data, x: int, gmt: bool) returns (n: nat)
    requires Spread(data)
    ensures InForce(data, n, x, gmt)
  {
    n := 0;
    while n < |data.transitions| && Key(data.transitions[n], gmt) <= x
      invariant n <= |data.transitions|
      invariant forall i :: 0 <= i < n ==> Key(data.transitions[i], gmt) <= x
    {
      n := n + 1;
    }
    forall i | n < i < |data.transitions|
      ensures x < Key(data.transitions[i], gmt)
    {
      TimesAscend(data, n, i);
    }
  }

  /** The repeated time, on its first pass: the coming transition sets the clock back beyond `t`. */
  ghost predicate Repeated(data: Data, n: nat, t: int)
    requires TableOk(data)
  {
    n < |data.transitions| && data.transitions[n].gmttime <= t + Back(data, n)
  }

  lemma RepeatedBack(data: Data, n: nat, t: int)
    requires TableOk(data) && InForce(data, n, t, true) && Repeated(data, n, t)
    ensures n < |data.transitions| && t < data.transitions[n].gmttime && Back(data, n) > 0
    ensures TypeAfter(data, n).gmtOffset == TypeAfter(data, n + 1).gmtOffset + Back(data, n)
  {
  }

  /** By local time one transition more counts as past exactly in the repeated time. */
  lemma LocalInForce(data: Data, n: nat, t: int)
    requires Spread(data) && InForce(data, n, t, true)
    ensures var s := t + TypeAfter(data, n).gmtOffset;
            InForce(data, if Repeated(data, n, t) then n + 1 else n, s, false)
  {
    hide TypeAfter;
    var ts, s := data.transitions, t + TypeAfter(data, n).gmtOffset;
    forall i | 0 <= i < n
      ensures ts[i].localtime <= s
    {
      if i < n - 1 { TimesAscend(data, i, n - 1); }
    }
    if n < |ts| {
      assert ts[n].localtime == ts[n].gmttime + Jump(data, n) + TypeAfter(data, n).gmtOffset;
      assert ts[n].localtime <= s <==> Repeated(data, n, t);
      forall i | n + 1 <= i < |ts|
        ensures s < ts[i].localtime
      {
        TimesAscend(data, n, n + 1);
        assert ts[n + 1].localtime == ts[n + 1].gmttime + Jump(data, n + 1) + TypeAfter(data, n + 1).gmtOffset;
        if i > n + 1 { TimesAscend(data, n + 1, i); }
      }
    }
  }

  lemma TypeIsThere(data: Data, n: nat, x: int, gmt: bool)
    requires Spread(data) && InForce(data, n, x, gmt)
    ensures TableOk(data) && n <= |data.transitions|
  {
  }

  lemma FoundByUtc(data: Data, n: nat, t: int)
    requires Spread(data) && InForce(data, n, t, true)
    ensures FindLocaltime(data, Transition(t, 0, 0), true) == TypeAfter(data, n)
  {
    forall i, j | 0 <= i < j < |data.transitions|
      ensures Key(data.transitions[i], true) < Key(data.transitions[j], true)
    {
      TimesAscend(data, i, j);
    }
    FindsInForce(data, n, Transition(t, 0, 0), true);
  }

  lemma FoundByLocal(data: Data, n: nat, s: int)
    requires Spread(data) && InForce(data, n, s, false)
    ensures FindLocaltime(data, Transition(0, s, 0), false) == TypeAfter(data, n)
  {
    forall i, j | 0 <= i < j < |data.transitions|
      ensures Key(data.transitions[i], false) < Key(data.transitions[j], false)
    {
      TimesAscend(data, i, j);
    }
    FindsInForce(data, n, Transition(0, s, 0), false);
  }

  /** What `toLocalTime` fills in. */
  lemma LocalFields(data: Data, n: nat, t: int)
    requires Spread(data) && InForce(data, n, t, true) && TimeInRange(t + TypeAfter(data, n).gmtOffset)
    ensures var tm := ToLocalTime(data, t); var l := TypeAfter(data, n);
            && tm.isDst == l.isDst && tm.gmtOffset == l.gmtOffset && tm.zone == l.arrbIdx
            && tm.wday == WeekDay(DayOf(t + l.gmtOffset)) && tm.yday == ToUtcTime(t + l.gmtOffset, true).yday
            && FromUtcTime(tm) == t + l.gmtOffset
            && DateOf(tm) == DateOf(ToUtcTime(t + l.gmtOffset, true))
            && tm.hour == ToUtcTime(t + l.gmtOffset, true).hour && tm.min == ToUtcTime(t + l.gmtOffset, true).min
  {
    hide ToUtcTime, ValidFields, TimeInRange, Spread, InForce, FindLocaltime, WeekDay;
    TypeIsThere(data, n, t, true);
    FoundByUtc(data, n, t);
    UtcRoundTrip(t + TypeAfter(data, n).gmtOffset, true);
  }

  /** The same reading of the clock on the second pass comes after the change and before the next one. */
  lemma AfterTheChange(data: Data, n: nat, t: int)
    requires Spread(data) && InForce(data, n, t, true) && Repeated(data, n, t)
    ensures n < |data.transitions| && InForce(data, n + 1, t + Back(data, n), true)
  {
    hide TypeAfter;
    RepeatedBack(data, n, t);
    forall i | n + 1 <= i < |data.transitions|
      ensures t + Back(data, n) < data.transitions[i].gmttime
    {
      TimesAscend(data, n, i);
    }
  }

  /** What comes back, exactly, on every table: the time itself outside the repeated times; within one the
      second pass, less the built-in hour where daylight time ends. */
  lemma LocalThereAndBack(data: Data, n: nat, t: int)
    requires Spread(data) && InForce(data, n, t, true) && TimeInRange(t + TypeAfter(data, n).gmtOffset)
    ensures Corrects(data, ToLocalTime(data, t)) <==>
              Repeated(data, n, t) && TypeAfter(data, n).isDst && !TypeAfter(data, n + 1).isDst
    ensures FromLocalTime(data, ToLocalTime(data, t)) ==
              if !Repeated(data, n, t) then t
              else t + Back(data, n) - (if TypeAfter(data, n).isDst && !TypeAfter(data, n + 1).isDst then 3600 else 0)
  {
    hide Spread, InForce, FindLocaltime, ToLocalTime, FromUtcTime, ToUtcTime, TimeInRange, TypeAfter, Back;
    TypeIsThere(data, n, t, true);
    var l := TypeAfter(data, n);
    LocalFields(data, n, t);
    LocalInForce(data, n, t);
    if Repeated(data, n, t) {
      RepeatedBack(data, n, t);
      FoundByLocal(data, n + 1, t + l.gmtOffset);
      AfterTheChange(data, n, t);
      LocalFields(data, n + 1, t + Back(data, n));
    } else {
      FoundByLocal(data, n, t + l.gmtOffset);
    }
  }

  /** The local reading is in the range of dates, and comes back. */
  predicate ReadingInRange(data: Data, t: int)
    requires TableOk(data)
  {
    TimeInRange(t + FindLocaltime(data, Transition(t, 0, 0), true).gmtOffset)
  }

  predicate RoundTrips(data: Data, t: int)
    requires TableOk(data)
  {
    FromLocalTime(data, ToLocalTime(data, t)) == t
  }

  lemma RoundTripAt(data: Data, n: nat, t: int)
    requires Spread(data) && InForce(data, n, t, true) && ReadingInRange(data, t)
    ensures RoundTrips(data, t) <==> !Repeated(data, n, t) || EndsDaylightHour(data, n)
  {
    hide Spread, InForce, FindLocaltime, FromLocalTime, ToLocalTime, TimeInRange;
    TypeIsThere(data, n, t, true);
    FoundByUtc(data, n, t);
    LocalThereAndBack(data, n, t);
    if Repeated(data, n, t) { RepeatedBack(data, n, t); }
  }

  /** The first repeated reading of the clock. */
  lemma FirstRepeated(data: Data, i: nat)
    requires Spread(data) && i < |data.transitions| && Back(data, i) > 0 && TimeInRange(data.transitions[i].localtime)
    ensures var t := data.transitions[i].gmttime - Back(data, i);
            InForce(data, i, t, true) && Repeated(data, i, t) && ReadingInRange(data, t)
  {
    hide FindLocaltime, TimeInRange, TypeAfter;
    var t := data.transitions[i].gmttime - Back(data, i);
    forall k | 0 <= k < |data.transitions|
      ensures k < i ==> data.transitions[k].gmttime <= t
      ensures k >= i ==> t < data.transitions[k].gmttime
    {
      if k < i { TimesAscend(data, k, i); }
      if k > i { TimesAscend(data, i, k); }
    }
    assert InForce(data, i, t, true);
    FoundByUtc(data, i, t);
    assert t + TypeAfter(data, i).gmtOffset == data.transitions[i].localtime;
  }

  /** When `fromLocalTime` inverts `toLocalTime`, for every table with transitions far enough apart: for all
      times exactly when every step back of the clock is by an hour and from daylight to standard time. */
  lemma LocalRoundTripIff(data: Data)
    requires Spread(data) && (forall i :: 0 <= i < |data.transitions| ==> TimeInRange(data.transitions[i].localtime))
    ensures (forall t :: ReadingInRange(data, t) ==> RoundTrips(data, t))
       <==> (forall i :: 0 <= i < |data.transitions| && Back(data, i) > 0 ==> EndsDaylightHour(data, i))
  {
    hide FindLocaltime, TimeInRange, TypeAfter, ReadingInRange, RoundTrips, EndsDaylightHour, Back;
    if forall i :: 0 <= i < |data.transitions| && Back(data, i) > 0 ==> EndsDaylightHour(data, i) {
      forall t | ReadingInRange(data, t)
        ensures RoundTrips(data, t)
      {
        var n := Locate(data, t, true);
        RoundTripAt(data, n, t);
        if Repeated(data, n, t) { RepeatedBack(data, n, t); }
      }
    } else {
      var i :| 0 <= i < |data.transitions| && Back(data, i) > 0 && !EndsDaylightHour(data, i);
      FirstRepeated(data, i);
      RoundTripAt(data, i, data.transitions[i].gmttime - Back(data, i));
    }
  }

  /** The repeated hour, on its first pass: the coming transition ends daylight time within the hour. */
  ghost predicate RepeatedHourDst(data: Data, n: nat, t: int)
    requires TableOk(data)
  {
    && n < |data.transitions| && TypeAfter(data, n).isDst && data.transitions[n].gmttime <= t + 3600
  }

  /** Local-time round trip, the repeated autumn hour included, for every regular table: and the hour is
      taken off exactly in the repeated hour on its daylight-time side. */
  lemma LocalRoundTrip(data: Data, n: nat, t: int)
    requires Regular(data) && InForce(data, n, t, true) && TimeInRange(t + TypeAfter(data, n).gmtOffset)
    ensures Corrects(data, ToLocalTime(data, t)) <==> RepeatedHourDst(data, n, t)
    ensures FromLocalTime(data, ToLocalTime(data, t)) == t
  {
    hide FindLocaltime, ToLocalTime, FromLocalTime, Corrects, TimeInRange;
    RegularIsSpread(data);
    LocalThereAndBack(data, n, t);
    if n < |data.transitions| {
      assert Alternate(TypeAfter(data, n), TypeAfter(data, n + 1));
    }
  }

  /** For every time: such a number of transitions exists. */
  lemma LocalRoundTripAlways(data: Data, t: int)
    requires Regular(data) && (forall k :: 0 <= k < |data.localtimes| ==> TimeInRange(t + data.localtimes[k].gmtOffset))
    ensures FromLocalTime(data, ToLocalTime(data, t)) == t
  {
    RegularIsSpread(data);
    var n := Locate(data, t, true);
    LocalRoundTrip(data, n, t);
  }

  /** One change at 0, from a time `d` seconds ahead of UTC to UTC. */
  function OneChange(d: int, before: bool, after: bool): Data {
    Data([Transition(0, 0, 1)], [Localtime(d, before, 0), Localtime(0, after, 0)])
  }

  /** Such a table fails for a shift back of anything but an hour, and for one of an hour too unless
      daylight time ends with it. */
  lemma OneChangeRoundTripsIff(d: int, before: bool, after: bool)
    ensures var data := OneChange(d, before, after);
            && TableOk(data)
            && ((forall t :: ReadingInRange(data, t) ==> RoundTrips(data, t))
               <==> d <= 0 || (d == 3600 && before && !after))
  {
    hide FindLocaltime, ReadingInRange, RoundTrips;
    var data := OneChange(d, before, after);
    assert TypeAfter(data, 0) == Localtime(d, before, 0) && TypeAfter(data, 1) == Localtime(0, after, 0);
    assert Jump(data, 0) == -d;
    assert TimeInRange(0);
    LocalRoundTripIff(data);
    assert (forall i :: 0 <= i < |data.transitions| && Back(data, i) > 0 ==> EndsDaylightHour(data, i))
      <==> (Back(data, 0) > 0 ==> EndsDaylightHour(data, 0));
  }

  /** From one standard time to another an hour behind it: the second before the change comes back an hour late. */
  lemma StandardChangeComesBackLate()
    ensures var data := OneChange(3600, false, false);
            TableOk(data) && FromLocalTime(data, ToLocalTime(data, -1)) == 3599
  {
    hide FindLocaltime, ToLocalTime, FromLocalTime;
    var data := OneChange(3600, false, false);
    assert TypeAfter(data, 0) == Localtime(3600, false, 0) && TypeAfter(data, 1) == Localtime(0, false, 0);
    assert Jump(data, 0) == -3600;
    LocalThereAndBack(data, 0, -1);
  }

  // ---------- fields that the caller filled in ----------

  predicate SameReading(a: Tm, b: Tm) {
    DateOf(a) == DateOf(b) && a.hour == b.hour && a.min == b.min && a.sec == b.sec
  }

  /** Weekday, day of the year, offset and abbreviation are not looked at. */
  lemma OnlyReadingAndFlag(data: Data, a: Tm, b: Tm)
    requires TableOk(data) && SameReading(a, b) && a.isDst == b.isDst
    ensures FromLocalTime(data, a) == FromLocalTime(data, b)
  {
    hide FindLocaltime, ToLocalTime, GetJulianDayNumber;
    assert FromUtcTime(a) == FromUtcTime(b);
  }

  /** A clock shows the same hour and minute. */
  predicate SameMinute(a: int, b: int) {
    a % SECONDS_PER_DAY / 60 == b % SECONDS_PER_DAY / 60
  }

  lemma MinuteOf(s: int)
    ensures var c := s % SECONDS_PER_DAY; c / 60 == (c / 60 / 60) * 60 + c / 60 % 60 && 0 <= c / 60 % 60 < 60
  {
  }

  lemma ShownMinute(data: Data, m: nat, t: int)
    requires Spread(data) && InForce(data, m, t, true)
    ensures var x := t + TypeAfter(data, m).gmtOffset; var tm := ToLocalTime(data, t);
            tm.isDst == TypeAfter(data, m).isDst && tm.hour * 60 + tm.min == x % SECONDS_PER_DAY / 60
            && 0 <= tm.min < 60
  {
    hide ToUtcTime, GetYearMonthDay, GetJulianDayNumber, WeekDay, Spread, InForce, FindLocaltime, TypeAfter;
    TypeIsThere(data, m, t, true);
    FoundByUtc(data, m, t);
    UtcFields(t + TypeAfter(data, m).gmtOffset, true);
    MinuteOf(t + TypeAfter(data, m).gmtOffset);
  }

  /** The time of given fields, on every table: the reading less the offset in force by local time, and an hour
      less if the flag is set but the type in force then is not daylight time and shows the same minute. */
  lemma TimeOfFields(data: Data, n: nat, m: nat, tm: Tm)
    requires Spread(data) && ValidFields(tm) && InForce(data, n, FromUtcTime(tm), false)
    requires TableOk(data) && n <= |data.transitions|
    requires InForce(data, m, FromUtcTime(tm) - TypeAfter(data, n).gmtOffset, true) && m <= |data.transitions|
    ensures var s, l, k := FromUtcTime(tm), TypeAfter(data, n), TypeAfter(data, m);
            FromLocalTime(data, tm) == s - l.gmtOffset -
              (if tm.isDst && !k.isDst && SameMinute(s, s - l.gmtOffset + k.gmtOffset) then 3600 else 0)
  {
    hide Spread, InForce, FindLocaltime, ToLocalTime, FromUtcTime, TypeAfter, ValidFields;
    var s := FromUtcTime(tm);
    FoundByLocal(data, n, s);
    ShownMinute(data, m, s - TypeAfter(data, n).gmtOffset);
    FieldsInDay(tm);
    MinuteOf(s);
  }

  /** `t` is read as `s`, on the clock after the first `k` transitions. */
  ghost predicate ReadAs(data: Data, k: nat, t: int, s: int)
    requires TableOk(data)
  {
    InForce(data, k, t, true) && t + TypeAfter(data, k).gmtOffset == s
  }

  /** The skipped hour: a reading between standard time before a change and daylight time after it. */
  ghost predicate Skipped(data: Data, n: nat, s: int)
    requires TableOk(data)
  {
    && n < |data.transitions| && !TypeAfter(data, n).isDst
    && data.transitions[n].gmttime + TypeAfter(data, n).gmtOffset <= s
  }

  /** The repeated hour: a reading in standard time less than an hour after daylight time ended. */
  predicate ReadTwice(data: Data, n: nat, s: int) {
    0 < n <= |data.transitions| && s < data.transitions[n - 1].localtime + 3600
  }

  lemma RegularTypes(data: Data, n: nat)
    requires Regular(data) && n < |data.transitions|
    ensures var a, b := TypeAfter(data, n), TypeAfter(data, n + 1);
            a.isDst != b.isDst && b.gmtOffset == (if a.isDst then a.gmtOffset - 3600 else a.gmtOffset + 3600)
    ensures data.transitions[n].localtime == data.transitions[n].gmttime + TypeAfter(data, n + 1).gmtOffset
  {
    assert Alternate(TypeAfter(data, n), TypeAfter(data, n + 1));
  }

  /** By UTC the same number of transitions is past, or in the skipped hour one more. */
  lemma UtcInForce(data: Data, n: nat, s: int)
    requires Regular(data) && InForce(data, n, s, false)
    ensures TableOk(data) && n <= |data.transitions|
    ensures InForce(data, if Skipped(data, n, s) then n + 1 else n, s - TypeAfter(data, n).gmtOffset, true)
  {
    hide TypeAfter, Alternate;
    var ts, u := data.transitions, s - TypeAfter(data, n).gmtOffset;
    if n > 0 { assert ts[n - 1].gmttime <= u; }
    if n < |ts| {
      RegularTypes(data, n);
      assert ts[n].gmttime <= u <==> Skipped(data, n, s);
    }
  }

  /** What comes of given fields on a regular table, whatever the rest of the structure holds.  In the skipped
      hour the flag is ignored, and the time is the one that reads an hour later.  With the flag set where
      standard time is in force: in the repeated hour the daylight pass; at any other time, the time that reads
      an hour earlier.  In all other cases the time that reads so: in the repeated hour, the standard pass. */
  lemma TimeOfFieldsRegular(data: Data, tm: Tm) returns (n: nat)
    requires Regular(data) && ValidFields(tm)
    ensures TableOk(data) && n <= |data.transitions| && InForce(data, n, FromUtcTime(tm), false)
    ensures var s, t := FromUtcTime(tm), FromLocalTime(data, tm);
            if Skipped(data, n, s) then ReadAs(data, n + 1, t, s + 3600)
            else if tm.isDst && !TypeAfter(data, n).isDst then
              if ReadTwice(data, n, s) then ReadAs(data, n - 1, t, s) && TypeAfter(data, n - 1).isDst
              else ReadAs(data, n, t, s - 3600)
            else ReadAs(data, n, t, s)
  {
    hide Regular, TypeAfter, FromUtcTime, FromLocalTime, ValidFields, InForce, Spread;
    var s := FromUtcTime(tm);
    RegularIsSpread(data);
    n := Locate(data, s, false);
    UtcInForce(data, n, s);
    if Skipped(data, n, s) {
      RegularTypes(data, n);
      TimeOfFields(data, n, n + 1, tm);
    } else {
      TimeOfFields(data, n, n, tm);
      if tm.isDst && !TypeAfter(data, n).isDst { HourBefore(data, n, s); }
    }
  }

  lemma HourBefore(data: Data, n: nat, s: int)
    requires Regular(data) && InForce(data, n, s, false) && TableOk(data) && n <= |data.transitions|
    requires !TypeAfter(data, n).isDst && !Skipped(data, n, s)
    ensures var t := s - TypeAfter(data, n).gmtOffset - 3600;
            if ReadTwice(data, n, s) then ReadAs(data, n - 1, t, s) && TypeAfter(data, n - 1).isDst
            else ReadAs(data, n, t, s - 3600)
  {
    hide TypeAfter, Alternate;
    UtcInForce(data, n, s);
    if n > 0 {
      RegularTypes(data, n - 1);
      if n > 1 { assert data.transitions[n - 2].gmttime + 3600 < data.transitions[n - 1].gmttime; }
    }
  }

  /** The last second of daylight time as a caller writes it, with nothing filled in but date, clock and flag. */
  lemma CallersLastDaylightSecond()
    ensures FromLocalTime(OneChange(3600, true, false), Tm(70, 0, 1, 0, 59, 59, 0, 0, true, 0, 0)) == -1
  {
    hide FromUtcTime;
    var data := OneChange(3600, true, false);
    var tm := Tm(70, 0, 1, 0, 59, 59, 0, 0, true, 0, 0);
    assert TypeAfter(data, 0) == Localtime(3600, true, 0) && TypeAfter(data, 1) == Localtime(0, false, 0);
    assert Regular(data);
    FirstHour(tm);
    var n := TimeOfFieldsRegular(data, tm);
    assert n == 1;
  }

  lemma FirstHour(tm: Tm)
    requires tm == Tm(70, 0, 1, 0, 59, 59, 0, 0, true, 0, 0)
    ensures ValidFields(tm) && FromUtcTime(tm) == 3599
  {
  }
}
