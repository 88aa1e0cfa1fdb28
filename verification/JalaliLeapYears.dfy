/** The leap years of the calendar in use and the days they add up to, by literal years only. */
module JalaliLeapYears {
  import opened Arithmetic
  import opened Wrappers
  import opened Jalali
  import opened JalaliYear
  import G = Gregorian

  /** The first year of the period of jy, and that of the next. */
  function Period(jy: int): (p: (int, int))
    requires -61 <= jy < 3178
    ensures p.0 <= jy < p.1
  {
    if jy < 9 then (-61, 9)
    else if jy < 38 then (9, 38)
    else if jy < 199 then (38, 199)
    else if jy < 426 then (199, 426)
    else if jy < 686 then (426, 686)
    else if jy < 756 then (686, 756)
    else if jy < 818 then (756, 818)
    else if jy < 1111 then (818, 1111)
    else if jy < 1181 then (1111, 1181)
    else if jy < 1210 then (1181, 1210)
    else if jy < 1635 then (1210, 1635)
    else if jy < 2060 then (1635, 2060)
    else if jy < 2097 then (2060, 2097)
    else if jy < 2192 then (2097, 2192)
    else if jy < 2262 then (2192, 2262)
    else if jy < 2324 then (2262, 2324)
    else if jy < 2394 then (2324, 2394)
    else if jy < 2456 then (2394, 2456)
    else (2456, 3178)
  }

  /** Every fourth year of a period is leap, from its first on and starting again after 33 years; but of its last five
      only the first is. */
  predicate IsLeapIn(first: int, next: int, jy: int) {
    if jy >= next - 5 then jy == next - 5 else (jy - first) % 33 in {0, 4, 8, 12, 16, 20, 24, 28}
  }

  predicate IsLeap(jy: int)
    requires -61 <= jy < 3178
  {
    IsLeapIn(Period(jy).0, Period(jy).1, jy)
  }

  lemma SegmentOf(jy: int) returns (s: nat)
    requires -61 <= jy < 3178
    ensures GoodTable(BREAKS) && InTable(BREAKS, jy) && s < 19 && s == Segment(BREAKS, jy, 0)
    ensures (BREAKS[s], BREAKS[s + 1]) == Period(jy)
  {
    hide Segment;
    BreaksAreGood();
    s := Segment(BREAKS, jy, 0);
  }

  lemma CyclesAreFours(first: int, next: int, jy: int)
    requires first <= jy < next && GoodGap(next - first)
    ensures CycleLeap(next - first, jy - first) <==> IsLeapIn(first, next, jy)
  {
    hide CycleLeap, ClosingCycle;
    var jump, n := next - first, jy - first;
    if n >= jump - 5 {
      CycleLeapNearTheEnd(jump, n);
    } else {
      CycleLeapBefore(jump, n, n / 33, n % 33);
      Fours(n % 33);
    }
  }

  lemma Fours(c: int)
    requires 0 <= c < 33
    ensures c in {0, 4, 8, 12, 16, 20, 24, 28} <==> c % 4 == 0 && c != 32
  {
  }

  /** The years whose Esfand has 30 days. */
  lemma LeapYearsOfTheCalendar(jy: int)
    requires -61 <= jy < 3178
    ensures MonthLength(BREAKS, jy, 12) == Success(if IsLeap(jy) then 30 else 29)
  {
    hide LeapCode, LeapJ, LeapG, CycleLeap, IsLeapIn, Period, Segment;
    var s := SegmentOf(jy);
    assert GoodGap(Gap(BREAKS, s));
    LeapCodeIsCycles(Gap(BREAKS, s), jy - BREAKS[s]);
    CyclesAreFours(BREAKS[s], BREAKS[s + 1], jy);
  }

  /** Around the present, leap years are told by the remainder modulo 33 alone. */
  lemma LeapYearsAroundThePresent(jy: int)
    requires 1181 <= jy < 1634
    ensures MonthLength(BREAKS, jy, 12) == Success(if jy % 33 in {1, 5, 9, 13, 17, 22, 26, 30} then 30 else 29)
  {
    hide MonthLength;
    LeapYearsOfTheCalendar(jy);
  }

  // ----- days -----

  /** The days of all years from -61 up to, but not including, jy. */
  function DaysOfYears(jy: int): int
    requires -61 <= jy <= 3178
    decreases jy + 61
  {
    if jy == -61 then 0 else DaysOfYears(jy - 1) + (if IsLeap(jy - 1) then 366 else 365)
  }

  lemma {:induction false} YearsAddUp(jy: int)
    requires -61 <= jy < 3178
    ensures Calendar(BREAKS) && InTable(BREAKS, jy) && FirstDay(BREAKS, jy) == G.G2d(560, 3, 20) + DaysOfYears(jy)
    decreases jy + 61
  {
    hide LeapCode, LeapJ, G.G2d, IsLeap, FirstDay;
    CalendarStarts();
    BreaksAreGood();
    if jy > -61 {
      YearsAddUp(jy - 1);
      LeapYearRule(BREAKS, jy - 1);
      LeapYearsOfTheCalendar(jy - 1);
    }
  }

  /** Day number and Gregorian date of every date of the calendar: day 1 is 20 March 560, years have 366 days exactly
      when leap, and months 31 days up to the sixth and then 30. */
  lemma DateByDays(d: Date)
    requires IsJalali(BREAKS, d)
    ensures -61 <= d.year < 3178
    ensures var days := G.G2d(560, 3, 20) + DaysOfYears(d.year) + d.day - 1
        + (if d.month <= 7 then 31 * (d.month - 1) else 186 + 30 * (d.month - 7));
      JalaliToGregorian(BREAKS, d) == Success(G.D2g(days)) && G.IsDate(G.D2g(days)) && G.DayNumber(G.D2g(days)) == days
  {
    hide Div, LeapCode, LeapJ, G.G2d, G.D2g, FirstDay, DaysOfYears;
    BreaksAreACalendar();
    YearsAddUp(d.year);
    MonthsAreConsecutive(d.month);
    JDayIs(BREAKS, d);
    JalaliDayInScope(BREAKS, d);
    G.DayThenBack(JDay(BREAKS, d));
  }

  lemma LeapsBefore1210(b: Breaks, i: nat)
    requires GoodTable(b) && i < |b| && i == 10 && b[0] == -61 && b[i] == 1210
    ensures LeapsBefore(b, i) == 308
  {
    LeapsBeforeIsClose(b, i);
  }

  lemma LeapJ1403(b: Breaks, jy: int, i: nat)
    requires GoodTable(b) && |b| == 20 && i == 10 && b[0] == -61 && b[i] == 1210 && b[i + 1] == 1635 && b[19] == 3178
    requires jy == 1403
    ensures InTable(b, jy) && LeapJ(b, jy) == 341
  {
    SegmentIs(b, jy, 0, i);
    LeapsBefore1210(b, i);
    LeapsIntoIs(425, 193, 5, 28);
  }

  lemma NowruzOf1403()
    ensures GoodTable(BREAKS) && InTable(BREAKS, 1403) && FirstDay(BREAKS, 1403) == 2460390
  {
    BreaksAreGood();
    LeapJ1403(BREAKS, 1403, 10);
    FirstDayIs(BREAKS, 1403);
  }

  lemma March2024()
    ensures G.G2d(2024, 3, 20) == 2460390
  {
  }

  lemma March2025()
    ensures G.G2d(2025, 3, 20) == 2460755
  {
  }

  lemma August2025()
    ensures G.G2d(2025, 8, 27) == 2460915
  {
  }

  lemma NowruzOf1404()
    ensures InTable(BREAKS, 1403) && InTable(BREAKS, 1404) && MonthLength(BREAKS, 1403, 12) == Success(30)
    ensures FirstDay(BREAKS, 1403) == 2460390 && FirstDay(BREAKS, 1404) == 2460756
  {
    hide Info, MonthLength, FirstDay, InTable;
    NowruzOf1403();
    LeapYearsAroundThePresent(1403);
    NextNowruz(1403);
  }

  lemma NextNowruz(jy: int)
    requires -61 <= jy < 3177 && MonthLength(BREAKS, jy, 12) == Success(30)
    ensures InTable(BREAKS, jy) && InTable(BREAKS, jy + 1)
    ensures FirstDay(BREAKS, jy + 1) == FirstDay(BREAKS, jy) + 366
  {
    hide LeapCode, LeapJ, LeapG, G.G2d, FirstDay;
    BreaksAreGood();
    LeapYearRule(BREAKS, jy);
  }

  lemma DaysOf1403And1404(j: Date)
    requires (j.year == 1403 || j.year == 1404) && 1 <= j.month <= 12 && 1 <= j.day <= (if j.month <= 6 then 31 else 30)
    requires j.year == 1403 || j.month < 12
    ensures IsJalali(BREAKS, j) && JDay(BREAKS, j) == (if j.year == 1403 then 2460390 else 2460756) + DayOfYear(j)
  {
    hide Div, LeapCode, LeapJ, LeapG, G.G2d, G.D2g, FirstDay, IsLeap, DaysBeforeMonth, InTable, Info;
    NowruzOf1404();
    BreaksAreACalendar();
    JDayIs(BREAKS, j);
  }

  lemma SameDaySameDate(j: Date, g: Date)
    requires IsJalali(BREAKS, j) && G.InScope(g) && JDay(BREAKS, j) == G.DayNumber(g)
    requires G.Before(j, G.Date(3177, 10, 12))
    ensures JalaliToGregorian(BREAKS, j) == Success(g) && GregorianToJalali(BREAKS, g) == Success(j)
  {
    hide Div, LeapCode, LeapJ, LeapG, G.G2d, G.D2g, FirstDay;
    BreaksAreACalendar();
    JDayIs(BREAKS, j);
    G.DateThenBack(g);
    JalaliToGregorianAndBack(j);
  }

  /** Both conversions on three dates: a Nowruz, the end of its leap year, and a day of the year after. */
  lemma KnownDates(j: Date, g: Date)
    requires || (j == G.Date(1403, 1, 1) && g == G.Date(2024, 3, 20))
             || (j == G.Date(1403, 12, 30) && g == G.Date(2025, 3, 20))
             || (j == G.Date(1404, 6, 5) && g == G.Date(2025, 8, 27))
    ensures JalaliToGregorian(BREAKS, j) == Success(g) && GregorianToJalali(BREAKS, g) == Success(j)
  {
    hide Div, JDay, J2d, MonthLength, InTable, FirstDay, G.G2d, G.D2g;
    March2024();
    March2025();
    August2025();
    assert DayOfYear(j) == (if j.month == 1 then 0 else if j.month == 12 then 365 else 159) by {
      MonthsAreConsecutive(j.month);
    }
    DaysOf1403And1404(j);
    SameDaySameDate(j, g);
  }
}
