/** Jalali dates, their day numbers, and the two public conversions. */
module Jalali {
  import opened Arithmetic
  import opened Wrappers
  import opened JalaliYear
  import G = Gregorian

  type Date = G.Date

  /** A table whose first days all lie in March of their own Gregorian year. */
  ghost predicate Calendar(b: Breaks) {
    && GoodTable(b)
    && b[0] >= -621
    && forall jy :: InTable(b, jy) ==> 1 <= JalaliYear.Info(b, jy).value.march <= 31
  }

  lemma BreaksAreACalendar()
    ensures Calendar(BREAKS) && |BREAKS| == 20 && BREAKS[0] == -61 && BREAKS[19] == 3178
  {
    BreaksAreGood();
    forall jy | InTable(BREAKS, jy)
      ensures 1 <= Info(BREAKS, jy).value.march <= 31
    {
      NowruzInMarch(jy);
    }
  }

  // ----- the source -----

  function MonthLength(b: Breaks, jy: int, jm: int): Result<int, Error>
    requires |b| >= 2
  {
    if jm <= 6 then Success(31)
    else if jm <= 11 then Success(30)
    else match Info(b, jy)
      case Failure(e) => Failure(e)
      case Success(info) => Success(if info.leap == 0 then 30 else 29)
  }

  function DaysBeforeMonth(jm: int): int {
    (jm - 1) * 31 - Div(jm, 7) * (jm - 7)
  }

  function J2d(b: Breaks, jy: int, jm: int, jd: int): Result<int, Error>
    requires |b| >= 2
  {
    match Info(b, jy)
    case Failure(e) => Failure(e)
    case Success(info) => Success(G.G2d(info.gy, 3, info.march) + DaysBeforeMonth(jm) + jd - 1)
  }

  /** Day k of the six months of 31 days. */
  function EarlyMonth(jy: int, k: int): Date {
    G.Date(jy, 1 + Div(k, 31), Mod(k, 31) + 1)
  }

  /** Day k of the six months of 30 days. */
  function LateMonth(jy: int, k: int): Date {
    G.Date(jy, 7 + Div(k, 30), Mod(k, 30) + 1)
  }

  /** The date k days after 1 Farvardin of jy; k is negative in the Gregorian year's first months. */
  function FromNowruz(jy: int, k: int, leap: int): Date {
    if 0 <= k <= 185 then EarlyMonth(jy, k)
    else if k >= 0 then LateMonth(jy, k - 186)
    else LateMonth(jy - 1, k + 179 + (if leap == 1 then 1 else 0))
  }

  /** The date of day jdn, once its Gregorian year is known. */
  function InGregorianYear(b: Breaks, gy: int, jdn: int): Result<Date, Error>
    requires |b| >= 2
  {
    match Info(b, gy - 621)
    case Failure(e) => Failure(e)
    case Success(info) => Success(FromNowruz(gy - 621, jdn - G.G2d(gy, 3, info.march), info.leap))
  }

  function D2j(b: Breaks, jdn: int): Result<Date, Error>
    requires |b| >= 2
  {
    InGregorianYear(b, G.D2g(jdn).year, jdn)
  }

  /** `_d2j`. */
  method DayToJalali(b: Breaks, jdn: int) returns (r: Result<Date, Error>)
    requires GoodTable(b)
    ensures r == D2j(b, jdn)
  {
    hide Div, Mod, G.G2d, G.D2g, FromNowruz, LeapCode;
    var gy := G.D2g(jdn).year;
    var info := JalCal(b, gy - 621);
    if info.Failure? {
      return Failure(info.error);
    }
    var jdn1f := G.G2d(gy, 3, info.value.march);
    var d := MonthAndDay(gy - 621, jdn - jdn1f, info.value.leap);
    r := Success(d);
  }

  /** The part of `_d2j` that reassigns k and jy. */
  method MonthAndDay(year: int, since: int, leap: int) returns (d: Date)
    ensures d == FromNowruz(year, since, leap)
  {
    var jy, k := year, since;
    if k >= 0 {
      if k <= 185 {
        return EarlyMonth(jy, k);
      }
      k := k - 186;
    } else {
      jy := jy - 1;
      k := k + 179;
      if leap == 1 {
        k := k + 1;
      }
    }
    d := LateMonth(jy, k);
  }

  function GregorianToJalali(b: Breaks, d: Date): Result<Date, Error>
    requires |b| >= 2
  {
    D2j(b, G.DayNumber(d))
  }

  function JalaliToGregorian(b: Breaks, d: Date): Result<Date, Error>
    requires |b| >= 2
  {
    match J2d(b, d.year, d.month, d.day)
    case Failure(e) => Failure(e)
    case Success(jdn) => Success(G.D2g(jdn))
  }

  // ----- dates of the calendar -----

  predicate IsJalali(b: Breaks, d: Date)
    requires |b| >= 2
  {
    InTable(b, d.year) && 1 <= d.month <= 12 && 1 <= d.day <= MonthLength(b, d.year, d.month).value
  }

  function DayOfYear(d: Date): int {
    DaysBeforeMonth(d.month) + d.day - 1
  }

  function JDay(b: Breaks, d: Date): int
    requires |b| >= 2 && InTable(b, d.year)
  {
    J2d(b, d.year, d.month, d.day).value
  }

  function Tomorrow(b: Breaks, d: Date): Date
    requires |b| >= 2 && IsJalali(b, d)
  {
    if d.day < MonthLength(b, d.year, d.month).value then d.(day := d.day + 1)
    else if d.month < 12 then G.Date(d.year, d.month + 1, 1)
    else G.Date(d.year + 1, 1, 1)
  }

  lemma MonthsAreConsecutive(jm: int)
    requires 1 <= jm <= 12
    ensures DaysBeforeMonth(jm) == (if jm <= 7 then 31 * (jm - 1) else 186 + 30 * (jm - 7))
  {
  }

  lemma JDayIs(b: Breaks, d: Date)
    requires Calendar(b) && IsJalali(b, d)
    ensures J2d(b, d.year, d.month, d.day) == Success(FirstDay(b, d.year) + DayOfYear(d))
    ensures 0 <= DayOfYear(d) <= (if Info(b, d.year).value.leap == 0 then 365 else 364)
  {
    MonthsAreConsecutive(d.month);
  }

  lemma {:induction false} FirstDaysGrow(b: Breaks, x: int, y: int)
    requires Calendar(b) && InTable(b, x) && InTable(b, y) && x <= y
    ensures FirstDay(b, x) + 365 * (y - x) <= FirstDay(b, y)
    decreases y - x
  {
    hide G.G2d, LeapCode;
    if x < y {
      LeapYearRule(b, x);
      FirstDaysGrow(b, x + 1, y);
    }
  }

  /** Day numbers order Jalali dates. */
  lemma JDaysOrderDates(b: Breaks, x: Date, y: Date)
    requires Calendar(b) && IsJalali(b, x) && IsJalali(b, y)
    ensures G.Before(x, y) <==> JDay(b, x) < JDay(b, y)
    ensures JDay(b, x) == JDay(b, y) ==> x == y
  {
    hide G.G2d, LeapCode;
    if x.year < y.year {
      EarlierYear(b, x, y);
    } else if y.year < x.year {
      EarlierYear(b, y, x);
    } else {
      JDayIs(b, x);
      JDayIs(b, y);
      MonthsAreConsecutive(x.month);
      MonthsAreConsecutive(y.month);
    }
  }

  lemma EarlierYear(b: Breaks, x: Date, y: Date)
    requires Calendar(b) && IsJalali(b, x) && IsJalali(b, y) && x.year < y.year
    ensures JDay(b, x) < JDay(b, y)
  {
    hide G.G2d, LeapCode, DayOfYear;
    JDayIs(b, x);
    JDayIs(b, y);
    LeapYearRule(b, x.year);
    FirstDaysGrow(b, x.year + 1, y.year);
  }

  /** Months tile the calendar, Esfand to Farvardin included. */
  lemma MonthsTile(b: Breaks, d: Date)
    requires Calendar(b) && IsJalali(b, d) && InTable(b, Tomorrow(b, d).year)
    ensures IsJalali(b, Tomorrow(b, d))
    ensures JDay(b, Tomorrow(b, d)) == JDay(b, d) + 1
  {
    hide Div, G.G2d, LeapCode, DayOfYear;
    TomorrowInYear(b, d);
    JDayIs(b, d);
    JDayIs(b, Tomorrow(b, d));
    if Tomorrow(b, d).year != d.year {
      LeapYearRule(b, d.year);
    }
  }

  lemma TomorrowInYear(b: Breaks, d: Date)
    requires Calendar(b) && IsJalali(b, d) && InTable(b, Tomorrow(b, d).year)
    ensures var t := Tomorrow(b, d);
      && IsJalali(b, t)
      && (t.year == d.year ==> DayOfYear(t) == DayOfYear(d) + 1)
      && (t.year != d.year ==> t.year == d.year + 1 && DayOfYear(t) == 0
                               && DayOfYear(d) == (if Info(b, d.year).value.leap == 0 then 365 else 364))
  {
    hide LeapCode;
    MonthsAreConsecutive(d.month);
    if d.month < 12 {
      MonthsAreConsecutive(d.month + 1);
    }
  }

  // ----- day number to Jalali date -----

  lemma EarlyMonths(b: Breaks, jy: int, k: int)
    requires Calendar(b) && InTable(b, jy) && 0 <= k <= 185
    ensures IsJalali(b, EarlyMonth(jy, k)) && DayOfYear(EarlyMonth(jy, k)) == k
  {
    var m := k / 31;
    assert m <= 5;
    MonthsAreConsecutive(m + 1);
  }

  lemma LateMonths(b: Breaks, jy: int, k: int)
    requires Calendar(b) && InTable(b, jy) && 0 <= k <= (if Info(b, jy).value.leap == 0 then 179 else 178)
    ensures IsJalali(b, LateMonth(jy, k)) && DayOfYear(LateMonth(jy, k)) == k + 186
  {
    var m := k / 30;
    assert m <= 5;
    MonthsAreConsecutive(m + 7);
  }

  lemma FromNowruzIsRight(b: Breaks, jy: int, k: int)
    requires Calendar(b) && InTable(b, jy) && -90 <= k <= 305 && (k < 0 ==> InTable(b, jy - 1))
    ensures var d := FromNowruz(jy, k, Info(b, jy).value.leap);
      && IsJalali(b, d)
      && d.year == (if k >= 0 then jy else jy - 1)
      && DayOfYear(d) == (if k >= 0 then k else if Info(b, jy - 1).value.leap == 0 then k + 366 else k + 365)
  {
    if 0 <= k <= 185 {
      EarlyMonths(b, jy, k);
    } else if k >= 0 {
      LateMonths(b, jy, k - 186);
    } else {
      LeapJGrows(b, jy - 1);
      LateMonths(b, jy - 1, k + 179 + (if Info(b, jy).value.leap == 1 then 1 else 0));
    }
  }

  lemma FromNowruzHasDay(b: Breaks, jy: int, k: int)
    requires Calendar(b) && InTable(b, jy) && -90 <= k <= 305 && (k < 0 ==> InTable(b, jy - 1))
    ensures var d := FromNowruz(jy, k, Info(b, jy).value.leap);
      IsJalali(b, d) && JDay(b, d) == FirstDay(b, jy) + k
  {
    FromNowruzIsRight(b, jy, k);
    JDayIs(b, FromNowruz(jy, k, Info(b, jy).value.leap));
    if k < 0 {
      LeapYearRule(b, jy - 1);
    }
  }

  lemma InGregorianYearIs(b: Breaks, gy: int, jdn: int, k: int)
    requires |b| >= 2 && InTable(b, gy - 621) && k == jdn - FirstDay(b, gy - 621)
    ensures InGregorianYear(b, gy, jdn) == Success(FromNowruz(gy - 621, k, Info(b, gy - 621).value.leap))
  {
  }

  lemma NotBeforeTheTable(b: Breaks, jy: int, k: int)
    requires |b| >= 2 && InTable(b, b[0]) && InTable(b, jy) && FirstDay(b, b[0]) <= FirstDay(b, jy) + k
    ensures k < 0 ==> InTable(b, jy - 1)
  {
  }

  lemma DaysSinceNowruz(b: Breaks, d: Date, k: int)
    requires Calendar(b) && G.InScope(d) && InTable(b, d.year - 621)
    requires k == G.DayNumber(d) - FirstDay(b, d.year - 621)
    ensures -90 <= k <= 305
  {
    G.DaysSinceMarch(d, Info(b, d.year - 621).value.march);
  }

  lemma InGregorianYearIsRight(b: Breaks, d: Date, jdn: int)
    requires Calendar(b) && G.InScope(d) && G.DayNumber(d) == jdn
    requires InTable(b, b[0]) && InTable(b, d.year - 621) && jdn >= FirstDay(b, b[0])
    ensures var r := InGregorianYear(b, d.year, jdn);
      r.Success? && IsJalali(b, r.value) && JDay(b, r.value) == jdn
  {
    hide Div, G.G2d;
    var k := jdn - FirstDay(b, d.year - 621);
    NotBeforeTheTable(b, d.year - 621, k);
    InGregorianYearIs(b, d.year, jdn, k);
    DaysSinceNowruz(b, d, k);
    FromNowruzHasDay(b, d.year - 621, k);
  }

  /** Every day number from the first 1 Farvardin on gives the valid date that has it. */
  lemma DayToJalaliAndBack(b: Breaks, jdn: int)
    requires Calendar(b) && InTable(b, b[0]) && jdn >= G.FIRST_DAY && InTable(b, G.D2g(jdn).year - 621)
    requires jdn >= FirstDay(b, b[0])
    ensures D2j(b, jdn).Success? && IsJalali(b, D2j(b, jdn).value)
    ensures JDay(b, D2j(b, jdn).value) == jdn
  {
    G.DayThenBack(jdn);
    InGregorianYearIsRight(b, G.D2g(jdn), jdn);
  }

  // ----- the theorems, for any calendar table -----

  function EndYear(b: Breaks): int
    requires |b| >= 2
  {
    b[|b| - 1] + 621
  }

  lemma TableIsNotEmpty(b: Breaks)
    requires Calendar(b)
    ensures InTable(b, b[0])
  {
    Increasing(b, 0, |b| - 1);
  }

  /** The day number of a Jalali date belongs to a Gregorian date in scope. */
  lemma JalaliDayInScope(b: Breaks, d: Date)
    requires Calendar(b) && IsJalali(b, d)
    ensures J2d(b, d.year, d.month, d.day) == Success(JDay(b, d))
    ensures InTable(b, b[0]) && FirstDay(b, b[0]) <= JDay(b, d)
    ensures G.FIRST_DAY <= FirstDay(b, b[0]) && G.G2d(b[0] + 621, 1, 1) <= FirstDay(b, b[0])
  {
    hide Div, G.G2d, G.D2g;
    TableIsNotEmpty(b);
    JDayIs(b, d);
    FirstDaysGrow(b, b[0], d.year);
    FirstDayInItsYear(b, b[0]);
  }

  lemma FirstDayInItsYear(b: Breaks, jy: int)
    requires Calendar(b) && InTable(b, jy)
    ensures G.FIRST_DAY <= FirstDay(b, jy) && G.G2d(jy + 621, 1, 1) <= FirstDay(b, jy)
  {
    var nowruz := G.Date(jy + 621, 3, Info(b, jy).value.march);
    G.ScopeStartsAtFirstDay(nowruz);
    G.DayNumbersOrderDates(G.Date(jy + 621, 1, 1), nowruz);
  }

  lemma YearOfDay(b: Breaks, jdn: int)
    requires Calendar(b) && InTable(b, b[0]) && G.FIRST_DAY <= jdn && FirstDay(b, b[0]) <= jdn
    ensures InTable(b, G.D2g(jdn).year - 621) <==> jdn < G.G2d(EndYear(b), 1, 1)
  {
    hide Div, G.G2d, G.D2g;
    G.DayThenBack(jdn);
    FirstDayInItsYear(b, b[0]);
    G.YearsFromJanuary(G.D2g(jdn), b[0] + 621);
    G.YearsFromJanuary(G.D2g(jdn), EndYear(b));
  }

  /** Jalali to Gregorian and back: exact up to the last day of the Gregorian year before the table's end. */
  lemma JalaliRoundTrip(b: Breaks, d: Date)
    requires Calendar(b) && IsJalali(b, d)
    ensures JalaliToGregorian(b, d).Success? && G.InScope(JalaliToGregorian(b, d).value)
    ensures GregorianToJalali(b, JalaliToGregorian(b, d).value) == Success(d) <==> JDay(b, d) < G.G2d(EndYear(b), 1, 1)
    ensures JDay(b, d) >= G.G2d(EndYear(b), 1, 1) ==>
              GregorianToJalali(b, JalaliToGregorian(b, d).value).Failure?
  {
    hide Div, G.G2d, G.D2g;
    var jdn := JDay(b, d);
    JalaliDayInScope(b, d);
    G.DayThenBack(jdn);
    YearOfDay(b, jdn);
    if jdn < G.G2d(EndYear(b), 1, 1) {
      DayToJalaliAndBack(b, jdn);
      JDaysOrderDates(b, D2j(b, jdn).value, d);
    }
  }

  /** Gregorian to Jalali and back: exact from the first 1 Farvardin to the table's last whole Gregorian year. */
  lemma GregorianRoundTrip(b: Breaks, g: Date)
    requires Calendar(b) && InTable(b, b[0]) && G.IsDate(g)
    ensures (GregorianToJalali(b, g).Success? && JalaliToGregorian(b, GregorianToJalali(b, g).value) == Success(g))
      <==> FirstDay(b, b[0]) <= G.DayNumber(g) && g.year < EndYear(b)
    ensures GregorianToJalali(b, g).Success? <==> b[0] + 621 <= g.year < EndYear(b)
  {
    hide Div, G.G2d, G.D2g;
    var jdn := G.DayNumber(g);
    if G.Before(g, G.FIRST_DATE) {
      FirstDayInItsYear(b, b[0]);
      TooEarly(b, g);
      return;
    }
    G.DateThenBack(g);
    if InTable(b, g.year - 621) {
      G.ScopeStartsAtFirstDay(g);
      if FirstDay(b, b[0]) <= jdn {
        DayToJalaliAndBack(b, jdn);
        JalaliDayInScope(b, D2j(b, jdn).value);
      } else {
        BeforeTheTable(b, g);
      }
    } else if g.year < b[0] + 621 {
      FirstDayInItsYear(b, b[0]);
      G.YearsFromJanuary(g, b[0] + 621);
    }
  }

  /** Dates before the scope of the formulas are far outside any table. */
  lemma TooEarly(b: Breaks, g: Date)
    requires Calendar(b) && G.IsDate(g) && G.Before(g, G.FIRST_DATE)
    ensures GregorianToJalali(b, g).Failure? && G.DayNumber(g) < G.FIRST_DAY && g.year < b[0] + 621
  {
    hide Div, G.G2d, G.D2g, FromNowruz;
    G.EarlyDateEarlyDay(g);
    G.EarlyDayEarlyYear(G.DayNumber(g));
  }

  /** Before the first 1 Farvardin the answer is a date of the year before the table, which does not convert back. */
  lemma BeforeTheTable(b: Breaks, g: Date)
    requires Calendar(b) && InTable(b, b[0]) && G.InScope(g) && InTable(b, g.year - 621)
    requires G.DayNumber(g) < FirstDay(b, b[0])
    ensures GregorianToJalali(b, g).Success? && GregorianToJalali(b, g).value.year == b[0] - 1
    ensures JalaliToGregorian(b, GregorianToJalali(b, g).value).Failure?
  {
    hide Div, G.G2d, G.D2g;
    G.DateThenBack(g);
    var jy := g.year - 621;
    var k := G.DayNumber(g) - FirstDay(b, jy);
    FirstDaysGrow(b, b[0], jy);
    G.DaysSinceMarch(g, Info(b, jy).value.march);
    FirstDaysFar(b, jy, k);
    InGregorianYearIs(b, g.year, G.DayNumber(g), k);
  }

  lemma FirstDaysFar(b: Breaks, jy: int, k: int)
    requires Calendar(b) && InTable(b, b[0]) && InTable(b, jy) && -90 <= k <= 305
    requires FirstDay(b, jy) + k < FirstDay(b, b[0])
    ensures jy == b[0] && k < 0
  {
    FirstDaysGrow(b, b[0], jy);
  }

  /** Both conversions keep the order of dates. */
  lemma ConversionKeepsOrder(b: Breaks, x: Date, y: Date)
    requires Calendar(b) && IsJalali(b, x) && IsJalali(b, y)
    ensures JalaliToGregorian(b, x).Success? && JalaliToGregorian(b, y).Success?
    ensures G.Before(x, y) <==> G.Before(JalaliToGregorian(b, x).value, JalaliToGregorian(b, y).value)
  {
    hide Div, G.G2d, G.D2g;
    JalaliDayInScope(b, x);
    JalaliDayInScope(b, y);
    JDaysOrderDates(b, x, y);
    G.DayThenBack(JDay(b, x));
    G.DayThenBack(JDay(b, y));
    G.DayNumbersOrderDates(G.D2g(JDay(b, x)), G.D2g(JDay(b, y)));
  }

  /** Converting steps day by day: the Gregorian date of tomorrow is tomorrow's Gregorian date. */
  lemma ConversionStepsByDay(b: Breaks, d: Date)
    requires Calendar(b) && IsJalali(b, d) && InTable(b, Tomorrow(b, d).year)
    ensures JalaliToGregorian(b, d).Success?
    ensures JalaliToGregorian(b, Tomorrow(b, d)) == Success(G.Tomorrow(JalaliToGregorian(b, d).value))
  {
    hide Div, G.G2d, G.D2g;
    JalaliDayInScope(b, d);
    MonthsTile(b, d);
    JalaliDayInScope(b, Tomorrow(b, d));
    G.NextDayNextDate(JDay(b, d));
  }

  lemma MonthEnd(b: Breaks, d: Date, next: Date)
    requires |b| >= 2 && IsJalali(b, d) && d.day == MonthLength(b, d.year, d.month).value
    requires next == (if d.month == 12 then G.Date(d.year + 1, 1, 1) else G.Date(d.year, d.month + 1, 1))
    ensures next == Tomorrow(b, d)
  {
  }

  // ----- the theorems, for the table of the source -----

  lemma CalendarStarts()
    ensures Calendar(BREAKS) && InTable(BREAKS, -61) && FirstDay(BREAKS, -61) == G.G2d(560, 3, 20)
  {
    BreaksAreACalendar();
    SegmentIs(BREAKS, -61, 0, 0);
    assert LeapJ(BREAKS, -61) == -14;
  }

  /** The gap that starts at 2456 has exactly 610 leap years before it: nothing else is close enough. */
  lemma LeapsBefore2456(b: Breaks, i: nat)
    requires GoodTable(b) && i < |b| && i == 18 && b[0] == -61 && b[i] == 2456
    ensures LeapsBefore(b, i) == 610
  {
    LeapsBeforeIsClose(b, i);
  }

  lemma LastLeapJ(b: Breaks, jy: int, i: nat)
    requires GoodTable(b) && |b| == 20 && i == 18 && b[0] == -61 && b[i] == 2456 && b[i + 1] == 3178 && jy == 3177
    ensures InTable(b, jy) && LeapJ(b, jy) == 771
  {
    SegmentIs(b, jy, 0, i);
    LeapsBefore2456(b, i);
    LeapsIntoIs(722, 721, 21, 28);
  }

  lemma LastNowruz()
    ensures GoodTable(BREAKS) && InTable(BREAKS, 3177) && FirstDay(BREAKS, 3177) == 3108330
  {
    BreaksAreGood();
    LastLeapJ(BREAKS, 3177, 18);
    FirstDayIs(BREAKS, 3177);
  }

  lemma NewYear3799()
    ensures G.G2d(3799, 1, 1) == 3108617
  {
  }

  /** 1 January 3799 is 12 Dey 3177. */
  lemma CalendarEnds(d: Date)
    requires d == G.Date(3177, 10, 12)
    ensures Calendar(BREAKS) && EndYear(BREAKS) == 3799 && IsJalali(BREAKS, d)
    ensures JDay(BREAKS, d) == G.G2d(3799, 1, 1)
  {
    BreaksAreACalendar();
    LastNowruz();
    NewYear3799();
    MonthsAreConsecutive(10);
    JDayIs(BREAKS, d);
  }

  /** Every valid date before 12 Dey 3177 survives the trip; from then on the way back raises. */
  lemma JalaliToGregorianAndBack(d: Date)
    requires |BREAKS| >= 2 && IsJalali(BREAKS, d)
    ensures JalaliToGregorian(BREAKS, d).Success?
    ensures GregorianToJalali(BREAKS, JalaliToGregorian(BREAKS, d).value) == Success(d)
      <==> G.Before(d, G.Date(3177, 10, 12))
  {
    hide Div, G.G2d, G.D2g, LeapCode;
    CalendarEnds(G.Date(3177, 10, 12));
    JalaliRoundTrip(BREAKS, d);
    JDaysOrderDates(BREAKS, d, G.Date(3177, 10, 12));
  }

  /** Every Gregorian date from 20 March 560 to 31 December 3798 survives the trip, and no other one does. */
  lemma GregorianToJalaliAndBack(g: Date)
    requires G.IsDate(g)
    ensures (GregorianToJalali(BREAKS, g).Success?
             && JalaliToGregorian(BREAKS, GregorianToJalali(BREAKS, g).value) == Success(g))
      <==> !G.Before(g, G.Date(560, 3, 20)) && g.year <= 3798
  {
    hide Div, G.G2d, G.D2g, LeapCode;
    CalendarStarts();
    BreaksAreGood();
    GregorianRoundTrip(BREAKS, g);
    if !G.Before(g, G.FIRST_DATE) {
      G.DayNumbersOrderDates(g, G.Date(560, 3, 20));
    } else {
      TooEarly(BREAKS, g);
    }
  }
}
