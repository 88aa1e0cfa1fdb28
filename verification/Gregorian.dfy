/** Day numbers of the proleptic Gregorian calendar. */
module Gregorian {
  import opened Arithmetic

  datatype Date = Date(year: int, month: int, day: int)

  // ----- the calendar of section 3.2.1 of ISO 8601:2004, defined without day numbers -----

  predicate IsLeapYear(y: int) {
    y % 4 == 0 && (y % 100 != 0 || y % 400 == 0)
  }

  function MonthLength(y: int, m: int): int {
    if m == 2 then (if IsLeapYear(y) then 29 else 28)
    else if m == 4 || m == 6 || m == 9 || m == 11 then 30
    else 31
  }

  predicate IsDate(d: Date) {
    1 <= d.month <= 12 && 1 <= d.day <= MonthLength(d.year, d.month)
  }

  function Tomorrow(d: Date): Date {
    if d.day < MonthLength(d.year, d.month) then d.(day := d.day + 1)
    else if d.month < 12 then Date(d.year, d.month + 1, 1)
    else Date(d.year + 1, 1, 1)
  }

  predicate Before(a: Date, b: Date) {
    a.year < b.year || (a.year == b.year && (a.month < b.month || (a.month == b.month && a.day < b.day)))
  }

  const FIRST_DATE := Date(-100100, 3, 1)
  const FIRST_DAY := -34839655

  /** The dates the day-number formulas are right for. */
  predicate InScope(d: Date) {
    IsDate(d) && !Before(d, FIRST_DATE)
  }

  // ----- the formulas of the source -----

  function G2d(gy: int, gm: int, gd: int): int {
    var d := Div((gy + Div(gm - 8, 6) + 100100) * 1461, 4) + Div(153 * Mod(gm + 9, 12) + 2, 5) + gd - 34840408;
    d - Div(Div(gy + 100100 + Div(gm - 8, 6), 100) * 3, 4) + 752
  }

  function D2g(jdn: int): Date {
    var j := 4 * jdn + 139361631 + Div(Div(4 * jdn + 183187720, 146097) * 3, 4) * 4 - 3908;
    var i := Div(Mod(j, 1461), 4) * 5 + 308;
    var gd := Div(Mod(i, 153), 5) + 1;
    var gm := Mod(Div(i, 153), 12) + 1;
    var gy := Div(j, 1461) - 100100 + Div(8 - gm, 6);
    Date(gy, gm, gd)
  }

  function DayNumber(d: Date): int {
    G2d(d.year, d.month, d.day)
  }

  // ----- years counted from March -----

  /** The year that starts in March, counted from March -100100. */
  function MarchYear(d: Date): int {
    d.year + 100100 - (if d.month <= 2 then 1 else 0)
  }

  /** Days since the March that starts the year. */
  function DayOfMarchYear(d: Date): int {
    (153 * (if d.month <= 2 then d.month + 9 else d.month - 3) + 2) / 5 + d.day - 1
  }

  /** Days from March -100100 to the start of March year y, with the leap days of every century taken out. */
  function MarchStart(y: int): int {
    1461 * y / 4 - y / 100 * 3 / 4
  }

  /** A March year as c centuries, p groups of four years, and u years; the c centuries lose w leap days. */
  ghost predicate Parts(y: int, c: int, p: int, u: int, w: int, v: int) {
    y == 100 * c + 4 * p + u && 3 * c == 4 * w + v && c >= 0 && 0 <= p < 25 && 0 <= u < 4 && 0 <= v < 4
  }

  lemma PartsOf(y: int) returns (c: int, p: int, u: int, w: int, v: int)
    requires y >= 0
    ensures Parts(y, c, p, u, w, v)
  {
    c := y / 100;
    p, u := y % 100 / 4, y % 100 % 4;
    w, v := 3 * c / 4, 3 * c % 4;
  }

  lemma PartsGive(y: int, c: int, p: int, u: int, w: int, v: int)
    requires Parts(y, c, p, u, w, v)
    ensures y / 100 == c && y % 4 == u && c * 3 / 4 == w
    ensures MarchStart(y) == 36525 * c + 1461 * p + 365 * u - w
  {
    QuotientIs(y, 100, c, 4 * p + u);
    QuotientIs(y, 4, 25 * c + p, u);
    QuotientIs(3 * c, 4, w, v);
    QuotientIs(1461 * y, 4, 36525 * c + 1461 * p + 365 * u, u);
  }

  lemma DayNumberByMarch(d: Date)
    requires InScope(d)
    ensures MarchYear(d) >= 0
    ensures DayNumber(d) == MarchStart(MarchYear(d)) + DayOfMarchYear(d) + 1 - 34840408 + 752
  {
    var shift := if d.month <= 2 then -1 else 0;
    assert Div(d.month - 8, 6) == shift;
    assert Mod(d.month + 9, 12) == (if d.month <= 2 then d.month + 9 else d.month - 3);
  }

  /** Only a leap year's 29 February is day 365, and then the next century loses no leap day. */
  ghost predicate InMarchYear(u: int, p: int, v: int, e: int) {
    0 <= e <= 365 && (e == 365 ==> u == 3 && (p == 24 ==> v == 0))
  }

  lemma LeapByMarch(y: int, year: int, c: int, p: int, u: int, w: int, v: int)
    requires Parts(y, c, p, u, w, v) && y + 1 == year + 100100
    ensures IsLeapYear(year) <==> u == 3 && (p == 24 ==> v == 0)
  {
    if u < 3 {
      QuotientIs(year, 4, 25 * (c - 1001) + p, u + 1);
    } else if p < 24 {
      QuotientIs(year, 4, 25 * (c - 1001) + p + 1, 0);
      QuotientIs(year, 100, c - 1001, 4 * p + 4);
    } else {
      var z := c / 4;
      QuotientIs(year, 4, 25 * (c - 1000), 0);
      QuotientIs(year, 100, c - 1000, 0);
      QuotientIs(year, 400, z - 250, 100 * (c % 4));
      assert v == 0 <==> c % 4 == 0;
    }
  }

  lemma MarchYearLength(d: Date, c: int, p: int, u: int, w: int, v: int)
    requires InScope(d) && Parts(MarchYear(d), c, p, u, w, v)
    ensures InMarchYear(u, p, v, DayOfMarchYear(d))
  {
    if d.month <= 2 {
      LeapByMarch(MarchYear(d), d.year, c, p, u, w, v);
    }
  }

  /** The century step of `D2g` finds the century of the March year. */
  lemma CenturyFound(c: int, p: int, u: int, w: int, v: int, e: int, jdn: int)
    requires Parts(100 * c + 4 * p + u, c, p, u, w, v) && InMarchYear(u, p, v, e)
    requires jdn == 36525 * c + 1461 * p + 365 * u - w + e + 1 - 34840408 + 752
    ensures Div(Div(4 * jdn + 183187720, 146097) * 3, 4) == w + 225
  {
    var rest := 1461 * (4 * p + u) - u + 4 * e + v;
    assert 4 * jdn + 183187720 == 146097 * (c + 300) + rest;
    QuotientIs(4 * jdn + 183187720, 146097, c + 300, rest);
    QuotientIs((c + 300) * 3, 4, w + 225, v);
  }

  /** The date of day e of March year y, by the month step of `D2g`. */
  function FromMarch(y: int, e: int): Date {
    var i := e * 5 + 308;
    var gm := Mod(Div(i, 153), 12) + 1;
    Date(y - 100100 + Div(8 - gm, 6), gm, Div(Mod(i, 153), 5) + 1)
  }

  lemma YearAndDayFound(y: int, e: int, jdn: int, c: int, p: int, u: int, w: int, v: int)
    requires Parts(y, c, p, u, w, v) && InMarchYear(u, p, v, e)
    requires jdn == 36525 * c + 1461 * p + 365 * u - w + e + 1 - 34840408 + 752
    ensures D2g(jdn) == FromMarch(y, e)
  {
    CenturyFound(c, p, u, w, v, e, jdn);
    var j := 4 * jdn + 139361631 + (w + 225) * 4 - 3908;
    var rest := 4 * e + 3 - u;
    assert j == 1461 * y + rest;
    QuotientIs(j, 1461, y, rest);
    QuotientIs(rest, 4, e, 3 - u);
  }

  lemma MonthAndDayFound(d: Date)
    requires IsDate(d)
    ensures FromMarch(MarchYear(d), DayOfMarchYear(d)) == d
  {
    var m := if d.month <= 2 then d.month + 9 else d.month - 3;
    var i := DayOfMarchYear(d) * 5 + 308;
    assert i / 153 == m + 2;
  }

  // ----- the theorems -----

  lemma DateThenBack(d: Date)
    requires InScope(d)
    ensures D2g(DayNumber(d)) == d
  {
    hide G2d, D2g, MarchStart, DayOfMarchYear, FromMarch;
    DayNumberByMarch(d);
    var c, p, u, w, v := PartsOf(MarchYear(d));
    PartsGive(MarchYear(d), c, p, u, w, v);
    MarchYearLength(d, c, p, u, w, v);
    YearAndDayFound(MarchYear(d), DayOfMarchYear(d), DayNumber(d), c, p, u, w, v);
    MonthAndDayFound(d);
  }

  lemma ConsecutiveDates(d: Date)
    requires InScope(d)
    ensures InScope(Tomorrow(d)) && Before(d, Tomorrow(d))
    ensures DayNumber(Tomorrow(d)) == DayNumber(d) + 1
  {
    hide Div, Mod, MarchStart;
    var t := Tomorrow(d);
    DayNumberByMarch(d);
    DayNumberByMarch(t);
    if d.month == 2 && t.month == 3 {
      MarchYearEnds(MarchYear(d), d.year);
    } else {
      TomorrowByMarch(d);
    }
  }

  lemma TomorrowByMarch(d: Date)
    requires IsDate(d) && !(d.month == 2 && Tomorrow(d).month == 3)
    ensures MarchYear(Tomorrow(d)) == MarchYear(d) && DayOfMarchYear(Tomorrow(d)) == DayOfMarchYear(d) + 1
  {
  }

  /** The last day of February is followed by day 0 of the next March year. */
  lemma MarchYearEnds(y: int, year: int)
    requires y >= 0 && y + 1 == year + 100100
    ensures MarchStart(y + 1) == MarchStart(y) + 337 + MonthLength(year, 2)
  {
    var c, p, u, w, v := PartsOf(y);
    PartsGive(y, c, p, u, w, v);
    LeapByMarch(y, year, c, p, u, w, v);
    if u < 3 {
      PartsGive(y + 1, c, p, u + 1, w, v);
    } else if p < 24 {
      PartsGive(y + 1, c, p + 1, 0, w, v);
    } else if v == 0 {
      PartsGive(y + 1, c + 1, 0, 0, w, 3);
    } else {
      PartsGive(y + 1, c + 1, 0, 0, w + 1, v - 1);
    }
  }

  /** Every day number from the first on belongs to a date. */
  lemma {:induction false} DateOfDay(jdn: int) returns (d: Date)
    requires jdn >= FIRST_DAY
    ensures InScope(d) && DayNumber(d) == jdn
    decreases jdn - FIRST_DAY
  {
    if jdn == FIRST_DAY {
      d := FIRST_DATE;
    } else {
      var yesterday := DateOfDay(jdn - 1);
      ConsecutiveDates(yesterday);
      d := Tomorrow(yesterday);
    }
  }

  lemma DayThenBack(jdn: int)
    requires jdn >= FIRST_DAY
    ensures InScope(D2g(jdn)) && DayNumber(D2g(jdn)) == jdn
  {
    hide G2d, D2g;
    var d := DateOfDay(jdn);
    DateThenBack(d);
  }

  lemma NextDayNextDate(jdn: int)
    requires jdn >= FIRST_DAY
    ensures D2g(jdn + 1) == Tomorrow(D2g(jdn))
  {
    hide G2d, D2g;
    var d := DateOfDay(jdn);
    DateThenBack(d);
    ConsecutiveDates(d);
    DateThenBack(Tomorrow(d));
  }

  lemma ScopeStartsAtFirstDay(d: Date)
    requires InScope(d)
    ensures DayNumber(d) >= FIRST_DAY
  {
    DayNumberByMarch(d);
  }

  lemma SameNumberSameDate(a: Date, b: Date)
    requires InScope(a) && InScope(b) && DayNumber(a) == DayNumber(b)
    ensures a == b
  {
    hide G2d, D2g;
    DateThenBack(a);
    DateThenBack(b);
  }

  lemma {:induction false} LaterNumberLaterDate(a: Date, b: Date)
    requires InScope(a) && InScope(b) && DayNumber(a) < DayNumber(b)
    ensures Before(a, b)
    decreases DayNumber(b) - DayNumber(a)
  {
    hide G2d;
    ConsecutiveDates(a);
    var t := Tomorrow(a);
    if DayNumber(t) < DayNumber(b) {
      LaterNumberLaterDate(t, b);
    } else {
      SameNumberSameDate(t, b);
    }
  }

  lemma DayNumbersOrderDates(a: Date, b: Date)
    requires InScope(a) && InScope(b)
    ensures Before(a, b) <==> DayNumber(a) < DayNumber(b)
  {
    hide G2d;
    if DayNumber(a) < DayNumber(b) {
      LaterNumberLaterDate(a, b);
    } else if DayNumber(b) < DayNumber(a) {
      LaterNumberLaterDate(b, a);
    } else {
      SameNumberSameDate(a, b);
    }
  }

  /** The days of a year lie between 90 days before and 305 days after any day of its March. */
  lemma DaysSinceMarch(d: Date, march: int)
    requires InScope(d) && d.year > -100100 && 1 <= march <= 31
    ensures -90 <= DayNumber(d) - G2d(d.year, 3, march) <= 305
  {
    hide Div, Mod, MarchStart;
    var m := Date(d.year, 3, march);
    DayNumberByMarch(d);
    DayNumberByMarch(m);
    if d.month <= 2 {
      MarchYearEnds(MarchYear(d), d.year);
      assert 306 <= DayOfMarchYear(d);
    } else {
      assert 0 <= DayOfMarchYear(d) <= 305;
    }
  }

  lemma YearsFromJanuary(d: Date, year: int)
    requires InScope(d) && year > -100100
    ensures d.year < year <==> DayNumber(d) < G2d(year, 1, 1)
  {
    hide G2d;
    DayNumbersOrderDates(d, Date(year, 1, 1));
  }

  // ----- before the scope of the formulas -----

  lemma EarlyYears(y: int)
    requires y <= -1
    ensures Div(y * 1461, 4) - Div(Div(y, 100) * 3, 4) <= 365 * y
  {
    var z := -y;
    var q, h := 1461 * z / 4, z / 100;
    var t := 3 * h / 4;
    assert y * 1461 == -(1461 * z);
    assert Div(y * 1461, 4) == -q && Div(y, 100) == -h;
    assert -h * 3 == -(3 * h);
    assert Div(Div(y, 100) * 3, 4) == -t;
    assert 4 * q >= 1461 * z - 3 && 100 * h <= z && 4 * t <= 3 * h;
  }

  lemma EarlyDateEarlyDay(d: Date)
    requires IsDate(d) && Before(d, FIRST_DATE)
    ensures DayNumber(d) < FIRST_DAY
  {
    var y := MarchYear(d);
    EarlyYears(y);
    assert d.year + Div(d.month - 8, 6) + 100100 == y;
    assert DayOfMarchYear(d) <= (if y == -1 then 364 else 365);
    MonthTerm(d.month);
  }

  lemma MonthTerm(m: int)
    requires 1 <= m <= 12
    ensures Mod(m + 9, 12) == (if m <= 2 then m + 9 else m - 3)
    ensures Div(153 * Mod(m + 9, 12) + 2, 5) == (153 * (if m <= 2 then m + 9 else m - 3) + 2) / 5
  {
  }

  /** Before the first day the formulas give years far in the past. */
  lemma EarlyDayEarlyYear(jdn: int)
    requires jdn < FIRST_DAY
    ensures D2g(jdn).year < -99999
  {
    var j := 4 * jdn + 139361631 + Div(Div(4 * jdn + 183187720, 146097) * 3, 4) * 4 - 3908;
    EarlyCenturies(4 * jdn);
    assert j <= 10;
    var i := Div(Mod(j, 1461), 4) * 5 + 308;
    ModIsSmall(j, 1461);
    assert -1517 <= i <= 2133;
    var gm := Mod(Div(i, 153), 12) + 1;
    ModIsSmall(Div(i, 153), 12);
  }

  lemma EarlyCenturies(n: int)
    requires n < 4 * FIRST_DAY
    ensures n + 139361631 + Div(Div(n + 183187720, 146097) * 3, 4) * 4 - 3908 <= 10
  {
    hide Div;
    var c := Div(n + 183187720, 146097);
    DivIsSmall(n + 183187720, 146097, 299);
    DivIsSmall(c * 3, 4, 224);
  }

  lemma DivIsSmall(a: int, b: int, k: nat)
    requires b > 0 && a < b * (k + 1)
    ensures Div(a, b) <= k
  {
    if a >= 0 {
      assert b * (a / b) <= a;
      if a / b >= k + 1 {
        MultipleIsLarge(b, a / b - k);
        assert b * (a / b) == b * (a / b - k) + b * k;
      }
    }
  }

  lemma ModIsSmall(a: int, b: int)
    requires b > 0
    ensures -b < Mod(a, b) < b
  {
    if a >= 0 {
      assert a == b * (a / b) + a % b;
    } else {
      assert -a == b * (-a / b) + (-a) % b;
      assert Div(a, b) * b == -(b * (-a / b));
    }
  }
}
