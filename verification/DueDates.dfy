/** When an income is due if no date is given: at the end of its Jalali month. */
module DueDates {
  import opened Arithmetic
  import opened Wrappers
  import opened JalaliYear
  import opened Jalali
  import G = Gregorian

  /** A moment of a Gregorian day, or a time stamp. */
  datatype Due = EndOf(date: Date, hour: int, minute: int, second: int) | Stamp(at: real)

  /** The dates `datetime` accepts. */
  predicate IsDatetime(d: Date) {
    G.IsDate(d) && 1 <= d.year <= 9999
  }

  /** The due date of `create_income` for a month; whatever raises falls back to five days after t. Months outside 1
      to 12 are not refused: the last day of month jm is counted from 1 Farvardin by the same formula. */
  method DueAt(jy: int, jm: int, t: real) returns (due: Due)
    ensures InTable(BREAKS, jy) && 1 <= jm <= 12 ==>
      var last := G.Date(jy, jm, MonthLength(BREAKS, jy, jm).value);
      IsJalali(BREAKS, last) && JalaliToGregorian(BREAKS, last).Success?
      && due == EndOf(JalaliToGregorian(BREAKS, last).value, 23, 59, 59)
    ensures InTable(BREAKS, jy) ==>
      var day := G.D2g(FirstDay(BREAKS, jy) + DaysBeforeMonth(jm) + MonthLength(BREAKS, jy, jm).value - 1);
      due == if IsDatetime(day) then EndOf(day, 23, 59, 59) else Stamp(t + 432000.0)
    ensures !InTable(BREAKS, jy) ==> due == Stamp(t + 432000.0)
  {
    hide Div, G.G2d, G.D2g, LeapCode;
    BreaksAreACalendar();
    var length := MonthLength(BREAKS, jy, jm);
    if length.Failure? {
      return Stamp(t + 5.0 * 86400.0);
    }
    var day := JalaliToGregorian(BREAKS, G.Date(jy, jm, length.value));
    if day.Failure? {
      return Stamp(t + 5.0 * 86400.0);
    }
    if InTable(BREAKS, jy) && 1 <= jm <= 12 {
      LastDayIsDatetime(jy, jm);
    }
    if !IsDatetime(day.value) {
      return Stamp(t + 5.0 * 86400.0);
    }
    due := EndOf(day.value, 23, 59, 59);
  }

  lemma LastDayIsDatetime(jy: int, jm: int)
    requires InTable(BREAKS, jy) && 1 <= jm <= 12
    ensures var last := G.Date(jy, jm, MonthLength(BREAKS, jy, jm).value);
      IsJalali(BREAKS, last) && JalaliToGregorian(BREAKS, last).Success?
      && IsDatetime(JalaliToGregorian(BREAKS, last).value)
  {
    hide Div, G.G2d, G.D2g, LeapCode;
    BreaksAreACalendar();
    var last := G.Date(jy, jm, MonthLength(BREAKS, jy, jm).value);
    JalaliDayInScope(BREAKS, last);
    JalaliRoundTrip(BREAKS, last);
    YearsOfTable(last);
  }

  /** The table lies within the years 560 to 3799. */
  lemma YearsOfTable(d: Date)
    requires IsJalali(BREAKS, d)
    ensures JalaliToGregorian(BREAKS, d).Success? && 560 <= JalaliToGregorian(BREAKS, d).value.year <= 3799
  {
    hide Div, G.G2d, G.D2g, LeapCode, LeapJ;
    BreaksAreACalendar();
    JalaliDayInScope(BREAKS, d);
    JDayIs(BREAKS, d);
    LastNowruz();
    FirstDaysGrow(BREAKS, d.year, 3177);
    NewYear3800();
    var jdn := JDay(BREAKS, d);
    G.DayThenBack(jdn);
    G.YearsFromJanuary(G.D2g(jdn), 560);
    G.YearsFromJanuary(G.D2g(jdn), 3800);
  }

  lemma NewYear3800()
    ensures G.G2d(3800, 1, 1) == 3108982
  {
  }

  /** The day after the due day is the 1st of the next month. */
  lemma DueDateIsMonthEnd(jy: int, jm: int, due: Date, next: Date)
    requires -61 <= jy < 3178 && 1 <= jm <= 12 && (jy == 3177 ==> jm < 12)
    requires due == G.Date(jy, jm, MonthLength(BREAKS, jy, jm).value)
    requires next == (if jm == 12 then G.Date(jy + 1, 1, 1) else G.Date(jy, jm + 1, 1))
    ensures JalaliToGregorian(BREAKS, due).Success?
    ensures JalaliToGregorian(BREAKS, next) == Success(G.Tomorrow(JalaliToGregorian(BREAKS, due).value))
  {
    hide Div, G.G2d, G.D2g, LeapCode;
    BreaksAreACalendar();
    MonthEnd(BREAKS, due, next);
    ConversionStepsByDay(BREAKS, due);
  }
}
