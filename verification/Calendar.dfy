/** Gregorian dates and Julian day numbers (base/Date.cpp, base/Date.h). */
module Calendar {
  import opened Arith

  datatype YearMonthDay = YearMonthDay(year: int, month: int, day: int)

  // ---------- the source's arithmetic ----------

  function GetJulianDayNumber(year: int, month: int, day: int): int {
    var a := TruncDiv(14 - month, 12);
    var y := year + 4800 - a;
    var m := month + 12 * a - 3;
    day + TruncDiv(153 * m + 2, 5) + y * 365 + TruncDiv(y, 4) - TruncDiv(y, 100) + TruncDiv(y, 400) - 32045
  }

  function GetYearMonthDay(julianDayNumber: int): YearMonthDay {
    var a := julianDayNumber + 32044;
    var b := TruncDiv(4 * a + 3, 146097);
    var c := a - TruncDiv(b * 146097, 4);
    var d := TruncDiv(4 * c + 3, 1461);
    var e := c - TruncDiv(1461 * d, 4);
    var m := TruncDiv(5 * e + 2, 153);
    YearMonthDay(b * 100 + d - 4800 + TruncDiv(m, 10),
                 m + 3 - 12 * TruncDiv(m, 10),
                 e - TruncDiv(153 * m + 2, 5) + 1)
  }

  function WeekDay(julianDayNumber: int): int {
    TruncMod(julianDayNumber + 1, 7)
  }

  const JULIAN_DAY_OF_1970_01_01: int := GetJulianDayNumber(1970, 1, 1)

  // ---------- the calendar, independently ----------

  predicate IsLeapYear(year: int) {
    year % 4 == 0 && (year % 100 != 0 || year % 400 == 0)
  }

  function DaysOfMonth(year: int, month: int): int {
    if month == 2 then (if IsLeapYear(year) then 29 else 28)
    else if month in {4, 6, 9, 11} then 30
    else 31
  }

  predicate ValidDate(d: YearMonthDay) {
    1 <= d.month <= 12 && 1 <= d.day <= DaysOfMonth(d.year, d.month)
  }

  function NextDay(d: YearMonthDay): YearMonthDay {
    if d.day < DaysOfMonth(d.year, d.month) then d.(day := d.day + 1)
    else if d.month < 12 then YearMonthDay(d.year, d.month + 1, 1)
    else YearMonthDay(d.year + 1, 1, 1)
  }

  /** From 1 March of the year -4800 on no dividend is negative. */
  predicate InRange(d: YearMonthDay) {
    d.year > -4800 || (d.year == -4800 && d.month >= 3)
  }

  function Jdn(d: YearMonthDay): int {
    GetJulianDayNumber(d.year, d.month, d.day)
  }

  // ---------- the proof: years that begin in March ----------

  /** Years since March -4800 and months since March. */
  function MarchYear(d: YearMonthDay): int {
    if d.month <= 2 then d.year + 4799 else d.year + 4800
  }

  function MarchMonth(d: YearMonthDay): int {
    if d.month <= 2 then d.month + 9 else d.month - 3
  }

  /** Days before the `y`-th March year. */
  function DaysBeforeYear(y: nat): int {
    y * 365 + y / 4 - y / 100 + y / 400
  }

  /** Days before the `m`-th month of a March year. */
  function DaysBeforeMonth(m: nat): int {
    (153 * m + 2) / 5
  }

  lemma JdnByMarch(d: YearMonthDay)
    requires ValidDate(d) && InRange(d)
    ensures MarchYear(d) >= 0 && 0 <= MarchMonth(d) <= 11
    ensures Jdn(d) == d.day + DaysBeforeMonth(MarchMonth(d)) + DaysBeforeYear(MarchYear(d)) - 32045
  {
  }

  function LeapDay(year: int): int {
    if IsLeapYear(year) then 1 else 0
  }

  lemma LeapByDivisors(n: int)
    ensures LeapDay(n) == (if n % 4 == 0 then 1 else 0) - (if n % 100 == 0 then 1 else 0)
            + (if n % 400 == 0 then 1 else 0)
  {
    if n % 400 == 0 { ModUnique(n, 100, n / 400 * 4, 0); }
    if n % 100 == 0 { ModUnique(n, 4, n / 100 * 25, 0); }
  }

  lemma LeapShift(year: int)
    ensures IsLeapYear(year + 4800) == IsLeapYear(year)
  {
    ModUnique(year + 4800, 4, year / 4 + 1200, year % 4);
    ModUnique(year + 4800, 100, year / 100 + 48, year % 100);
    ModUnique(year + 4800, 400, year / 400 + 12, year % 400);
  }

  /** A March year has a leap day, its last, exactly when the calendar year it ends in is a leap year. */
  lemma NextMarchYear(y: nat)
    ensures DaysBeforeYear(y + 1) == DaysBeforeYear(y) + 365 + LeapDay(y + 1)
  {
    DivStep(y, 4);
    DivStep(y, 100);
    DivStep(y, 400);
    hide LeapDay;
    LeapByDivisors(y + 1);
  }

  lemma MonthLengths(d: YearMonthDay)
    requires 1 <= d.month <= 12
    ensures var m := MarchMonth(d);
            && 0 <= m <= 11
            && (m < 11 ==> DaysOfMonth(d.year, d.month) == DaysBeforeMonth(m + 1) - DaysBeforeMonth(m))
            && (m == 11 ==> DaysOfMonth(d.year, d.month) == 365 + LeapDay(MarchYear(d) + 1) - DaysBeforeMonth(11))
  {
    LeapShift(d.year);
  }

  /** The calendar's next day is always Julian day + 1. */
  lemma NextDayIsPlusOne(d: YearMonthDay)
    requires ValidDate(d) && InRange(d)
    ensures ValidDate(NextDay(d)) && InRange(NextDay(d))
    ensures Jdn(NextDay(d)) == Jdn(d) + 1
  {
    hide DaysBeforeYear, DaysBeforeMonth, Jdn, LeapDay;
    MonthLengths(d);
    assert ValidDate(NextDay(d)) && InRange(NextDay(d));
    JdnByMarch(d);
    JdnByMarch(NextDay(d));
    NextMarchYear(MarchYear(d));
    assert DaysBeforeMonth(0) == 0 by { MonthZero(); }
  }

  lemma MonthZero()
    ensures DaysBeforeMonth(0) == 0
  {
  }

  // ---------- from days back to dates ----------

  /** Quarters of the 400-year cycle: `b` and `c` of the source. */
  lemma CenturySplit(n: nat)
    ensures var b := (4 * n + 3) / 146097;
            && b >= 0 && b * 146097 / 4 == 36524 * b + b / 4
            && var c := n - b * 146097 / 4;
            0 <= c && 4 * c <= 146093 + b % 4
  {
    var b := (4 * n + 3) / 146097;
    ModUnique(b * 146097, 4, 36524 * b + b / 4, b % 4);
  }

  /** Years of a century: `d` and `e`. */
  lemma YearSplit(c: nat, k: nat)
    requires 4 * c <= 146093 + k && k <= 3
    ensures var d := (4 * c + 3) / 1461;
            && 0 <= d <= 99 && 1461 * d / 4 == 365 * d + d / 4
            && var e := c - 1461 * d / 4;
            0 <= e <= 365 && (e == 365 ==> d % 4 == 3 && (d == 99 ==> k == 3))
  {
    var d := (4 * c + 3) / 1461;
    ModUnique(1461 * d, 4, 365 * d + d / 4, d % 4);
  }

  /** Months of a March year: `m`. */
  lemma MonthSplit(e: nat)
    requires e <= 365
    ensures var m := (5 * e + 2) / 153;
            0 <= m <= 11 && DaysBeforeMonth(m) <= e && (m < 11 ==> e < DaysBeforeMonth(m + 1))
  {
  }

  lemma YearOfCentury(b: nat, d: nat)
    requires d <= 99
    ensures DaysBeforeYear(100 * b + d) == 36524 * b + b / 4 + 365 * d + d / 4
  {
    var y := 100 * b + d;
    ModUnique(y, 4, 25 * b + d / 4, d % 4);
    ModUnique(y, 100, b, d);
    ModUnique(y, 400, b / 4, 100 * (b % 4) + d);
  }

  lemma LongYear(b: nat, d: nat)
    requires d <= 99 && d % 4 == 3 && (d == 99 ==> b % 4 == 3)
    ensures LeapDay(100 * b + d + 1) == 1
  {
    var n := 100 * b + d + 1;
    ModUnique(n, 4, 25 * b + (d + 1) / 4, 0);
    if d < 99 {
      ModUnique(n, 100, b, d + 1);
    } else {
      ModUnique(n, 400, (b + 1) / 4, 0);
    }
  }

  /** Days since 1 March -4800, as a March year, a month in it and a day in that. */
  lemma DaySplit(n: nat)
    ensures var b := (4 * n + 3) / 146097; var c := n - b * 146097 / 4;
            var d := (4 * c + 3) / 1461; var e := c - 1461 * d / 4; var m := (5 * e + 2) / 153;
            && 0 <= b && 0 <= c && 0 <= d <= 99 && 0 <= e && 0 <= m <= 11
            && n == DaysBeforeYear(100 * b + d) + e
            && DaysBeforeMonth(m) <= e
            && e < (if m < 11 then DaysBeforeMonth(m + 1) else 365 + LeapDay(100 * b + d + 1))
  {
    hide DaysBeforeYear, DaysBeforeMonth, LeapDay;
    var b := (4 * n + 3) / 146097;
    CenturySplit(n);
    var c := n - b * 146097 / 4;
    YearSplit(c, b % 4);
    var d := (4 * c + 3) / 1461;
    var e := c - 1461 * d / 4;
    MonthSplit(e);
    YearOfCentury(b, d);
    if e == 365 { LongYear(b, d); }
    LeapDayRange(100 * b + d + 1);
  }

  lemma LeapDayRange(year: int)
    ensures 0 <= LeapDay(year) <= 1
  {
  }

  /** Every day number from the range on names a valid date, whose day number it is. */
  lemma DateOfDay(julianDayNumber: int)
    requires julianDayNumber >= -32044
    ensures var d := GetYearMonthDay(julianDayNumber);
            ValidDate(d) && InRange(d) && Jdn(d) == julianDayNumber
  {
    hide DaysBeforeYear, DaysBeforeMonth, LeapDay, Jdn, DaysOfMonth;
    var n := julianDayNumber + 32044;
    DaySplit(n);
    YmdByMarch(n);
    var d := GetYearMonthDay(julianDayNumber);
    MonthLengths(d);
    JdnByMarch(d);
  }

  /** The source's result in terms of the split. */
  lemma YmdByMarch(n: nat)
    ensures var b := (4 * n + 3) / 146097; var c := n - b * 146097 / 4;
            var d := (4 * c + 3) / 1461; var e := c - 1461 * d / 4; var m := (5 * e + 2) / 153;
            && 0 <= b && 0 <= d <= 99 && 0 <= m <= 11
            && var r := GetYearMonthDay(n - 32044);
            && 1 <= r.month <= 12 && InRange(r)
            && MarchYear(r) == 100 * b + d && MarchMonth(r) == m && r.day == e - DaysBeforeMonth(m) + 1
  {
    hide DaysBeforeYear, LeapDay, DaysOfMonth, TruncDiv, InRange, MarchYear, MarchMonth;
    DaySplit(n);
    var b := (4 * n + 3) / 146097;
    var c := n - b * 146097 / 4;
    var d := (4 * c + 3) / 1461;
    var e := c - 1461 * d / 4;
    var m := (5 * e + 2) / 153;
    TruncIsDiv(4 * n + 3, 146097);
    TruncIsDiv(b * 146097, 4);
    TruncIsDiv(4 * c + 3, 1461);
    TruncIsDiv(1461 * d, 4);
    TruncIsDiv(5 * e + 2, 153);
    TruncIsDiv(153 * m + 2, 5);
    TruncIsDiv(m, 10);
    MarchBack(100 * b + d, m, e - DaysBeforeMonth(m) + 1);
  }

  lemma MarchBack(y: nat, m: nat, day: int)
    requires m <= 11
    ensures var r := YearMonthDay(y - 4800 + m / 10, m + 3 - 12 * (m / 10), day);
            1 <= r.month <= 12 && InRange(r) && MarchYear(r) == y && MarchMonth(r) == m
  {
  }

  /** Before the range the truncating divisions give no valid date, so its bound is exact. */
  lemma DateOfDayIff(julianDayNumber: int)
    ensures ValidDate(GetYearMonthDay(julianDayNumber)) <==> julianDayNumber >= -32044
  {
    if julianDayNumber >= -32044 {
      hide GetYearMonthDay;
      DateOfDay(julianDayNumber);
    } else {
      DayBeforeRange(julianDayNumber);
    }
  }

  lemma DayBeforeRange(julianDayNumber: int)
    requires julianDayNumber < -32044
    ensures GetYearMonthDay(julianDayNumber).day <= 0
  {
    var a := julianDayNumber + 32044;
    var b := TruncDiv(4 * a + 3, 146097);
    TruncUp(a, 146097);
    var c := a - TruncDiv(b * 146097, 4);
    TruncUp(c, 1461);
    var d := TruncDiv(4 * c + 3, 1461);
    var e := c - TruncDiv(1461 * d, 4);
    var m := TruncDiv(5 * e + 2, 153);
    assert 153 * m >= 5 * e + 2 && m <= 0;
  }

  /** Below zero the split into periods of `p` quarter-days leaves a negative rest. */
  lemma TruncUp(a: int, p: nat)
    requires a < 0 && p > 3
    ensures a - TruncDiv(TruncDiv(4 * a + 3, p) * p, 4) < 0
    ensures a - TruncDiv(p * TruncDiv(4 * a + 3, p), 4) < 0
  {
    var b := -(4 * a + 3) / p;
    assert TruncDiv(4 * a + 3, p) == -b && b * p <= -(4 * a + 3);
    assert p * b == b * p && -b * p == -(b * p) && p * -b == -(b * p);
    MulMonotone(0, b, p);
  }

  // ---------- order ----------

  predicate Earlier(d: YearMonthDay, e: YearMonthDay) {
    d.year < e.year || (d.year == e.year && (d.month < e.month || (d.month == e.month && d.day < e.day)))
  }

  lemma {:induction false} YearsMonotone(y: nat, z: nat)
    requires y < z
    ensures DaysBeforeYear(y) + 365 + LeapDay(y + 1) <= DaysBeforeYear(z)
    decreases z
  {
    hide DaysBeforeYear, LeapDay;
    NextMarchYear(z - 1);
    if y < z - 1 {
      YearsMonotone(y, z - 1);
      LeapDayRange(z);
    }
  }

  lemma MonthsMonotone(m: nat, k: nat)
    requires m < k <= 11
    ensures DaysBeforeMonth(m + 1) <= DaysBeforeMonth(k)
  {
  }

  /** Day numbers compare as dates do. */
  lemma EarlierIsLess(d: YearMonthDay, e: YearMonthDay)
    requires ValidDate(d) && ValidDate(e) && InRange(d) && InRange(e) && Earlier(d, e)
    ensures Jdn(d) < Jdn(e)
  {
    hide DaysBeforeYear, DaysBeforeMonth, LeapDay, Jdn, DaysOfMonth;
    JdnByMarch(d);
    JdnByMarch(e);
    MonthLengths(d);
    if MarchYear(d) < MarchYear(e) {
      YearsMonotone(MarchYear(d), MarchYear(e));
      if MarchMonth(d) < 11 { MonthsMonotone(MarchMonth(d), 11); }
      LongestYear(MarchYear(d) + 1);
      MonthNotNegative(MarchMonth(e));
    } else if MarchMonth(d) < MarchMonth(e) {
      MonthsMonotone(MarchMonth(d), MarchMonth(e));
    }
  }

  lemma LongestYear(year: int)
    ensures DaysBeforeMonth(11) <= 365 + LeapDay(year)
  {
  }

  lemma MonthNotNegative(m: nat)
    ensures DaysBeforeMonth(m) >= 0
  {
  }

  /** The other direction of the bijection: every valid date from the range on comes back. */
  lemma DayOfDate(d: YearMonthDay)
    requires ValidDate(d) && InRange(d)
    ensures Jdn(d) >= -32044
    ensures GetYearMonthDay(Jdn(d)) == d
  {
    hide Jdn, GetYearMonthDay, DaysOfMonth, IsLeapYear;
    var first := YearMonthDay(-4800, 3, 1);
    FirstDay();
    if Earlier(first, d) { EarlierIsLess(first, d); }
    DateOfDay(Jdn(d));
    var e := GetYearMonthDay(Jdn(d));
    if Earlier(d, e) { EarlierIsLess(d, e); }
    if Earlier(e, d) { EarlierIsLess(e, d); }
  }

  lemma FirstDay()
    ensures var d := YearMonthDay(-4800, 3, 1);
            ValidDate(d) && InRange(d) && Jdn(d) == -32044
  {
  }

  // ---------- 32 bits ----------

  predicate Fits32(x: int) {
    -0x8000_0000 <= x < 0x8000_0000
  }

  predicate AllFit32(s: seq<int>) {
    forall i :: 0 <= i < |s| ==> Fits32(s[i])
  }

  /** The values that `getYearMonthDay` computes on its way, in its order. */
  function YmdIntermediates(julianDayNumber: int): seq<int> {
    var a := julianDayNumber + 32044;
    var b := TruncDiv(4 * a + 3, 146097);
    var c := a - TruncDiv(b * 146097, 4);
    var d := TruncDiv(4 * c + 3, 1461);
    var e := c - TruncDiv(1461 * d, 4);
    var m := TruncDiv(5 * e + 2, 153);
    [a, 4 * a, 4 * a + 3, b * 146097, 4 * c + 3, 1461 * d, 5 * e + 2, 153 * m + 2,
     b * 100 + d, b * 100 + d - 4800 + TruncDiv(m, 10)]
  }

  function JdnIntermediates(year: int, month: int, day: int): seq<int> {
    var a := TruncDiv(14 - month, 12);
    var y := year + 4800 - a;
    var m := month + 12 * a - 3;
    var s := day + TruncDiv(153 * m + 2, 5) + y * 365;
    [y, m, 153 * m + 2, y * 365, s, s + TruncDiv(y, 4), s + TruncDiv(y, 4) - TruncDiv(y, 100),
     s + TruncDiv(y, 4) - TruncDiv(y, 100) + TruncDiv(y, 400)]
  }

  /** In `getYearMonthDay` nothing overflows from the range on up to a bound, which is exact. */
  lemma NoOverflowIff(julianDayNumber: int)
    requires julianDayNumber >= -32044
    ensures AllFit32(YmdIntermediates(julianDayNumber)) <==> julianDayNumber + 32044 <= 536870911
  {
    hide DaysBeforeYear, DaysBeforeMonth, LeapDay;
    var n := julianDayNumber + 32044;
    DaySplit(n);
    CenturySplit(n);
    assert YmdIntermediates(julianDayNumber)[2] == 4 * n + 3;
  }

  /** The dates up to that bound do not overflow `getJulianDayNumber` either. */
  lemma NoOverflowBack(d: YearMonthDay)
    requires ValidDate(d) && InRange(d) && Jdn(d) + 32044 <= 536870911
    ensures AllFit32(JdnIntermediates(d.year, d.month, d.day))
  {
  }

  // ---------- days of the week ----------

  /** Weekdays count on modulo 7 from a known Thursday. */
  lemma WeekDaysCycle(julianDayNumber: int)
    requires julianDayNumber >= -1
    ensures 0 <= WeekDay(julianDayNumber) <= 6
    ensures WeekDay(julianDayNumber + 1) == (WeekDay(julianDayNumber) + 1) % 7
    ensures JULIAN_DAY_OF_1970_01_01 == 2440588 && WeekDay(JULIAN_DAY_OF_1970_01_01) == 4
  {
  }

  /** Further back the truncating remainder is negative, except every seventh day. */
  lemma WeekDayInRangeIff(julianDayNumber: int)
    ensures 0 <= WeekDay(julianDayNumber) <= 6 <==> julianDayNumber >= -1 || (julianDayNumber + 1) % 7 == 0
  {
    if julianDayNumber < -1 {
      var x := -(julianDayNumber + 1);
      if x % 7 == 0 { ModUnique(-x, 7, -(x / 7), 0); }
      else { ModUnique(-x, 7, -(x / 7) - 1, 7 - x % 7); }
    }
  }
}
