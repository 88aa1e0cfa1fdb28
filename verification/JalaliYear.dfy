/** Leap years and first days of the Jalali calendar, for any table of cycle breaks. */
module JalaliYear {
  import opened Arithmetic
  import opened Wrappers
  import G = Gregorian

  /** What `_jal_cal` returns: years since the last leap year, the Gregorian year, and the March day of 1 Farvardin. */
  datatype YearInfo = YearInfo(leap: int, gy: int, march: int)

  datatype Error = InvalidYear(year: int)

  type Breaks = seq<int>

  const BREAKS: Breaks := [
    -61, 9, 38, 199, 426, 686, 756, 818, 1111, 1181, 1210,
    1635, 2060, 2097, 2192, 2262, 2324, 2394, 2456, 3178
  ]

  function Gap(b: Breaks, i: nat): int
    requires i + 1 < |b|
  {
    b[i + 1] - b[i]
  }

  /** The gaps Borkowski's method is right for. */
  predicate GoodGap(jump: int) {
    jump >= 29 && (jump % 33 == 4 || jump % 33 == 29)
  }

  predicate GoodTable(b: Breaks) {
    |b| >= 2 && forall i :: 0 <= i < |b| - 1 ==> GoodGap(Gap(b, i))
  }

  predicate InTable(b: Breaks, jy: int)
    requires |b| >= 1
  {
    b[0] <= jy < b[|b| - 1]
  }

  lemma BreaksAreGood()
    ensures GoodTable(BREAKS) && |BREAKS| == 20 && BREAKS[0] == -61 && BREAKS[19] == 3178
  {
    assert Gap(BREAKS, 0) == 70 && Gap(BREAKS, 1) == 29 && Gap(BREAKS, 2) == 161 && Gap(BREAKS, 3) == 227;
    assert Gap(BREAKS, 4) == 260 && Gap(BREAKS, 5) == 70 && Gap(BREAKS, 6) == 62 && Gap(BREAKS, 7) == 293;
    assert Gap(BREAKS, 8) == 70 && Gap(BREAKS, 9) == 29 && Gap(BREAKS, 10) == 425 && Gap(BREAKS, 11) == 425;
    assert Gap(BREAKS, 12) == 37 && Gap(BREAKS, 13) == 95 && Gap(BREAKS, 14) == 70 && Gap(BREAKS, 15) == 62;
    assert Gap(BREAKS, 16) == 70 && Gap(BREAKS, 17) == 62 && Gap(BREAKS, 18) == 722;
  }

  // ----- the specification of `_jal_cal` -----

  /** The gap that year jy lies in. */
  function Segment(b: Breaks, jy: int, i: nat): (s: nat)
    requires i + 1 < |b| && b[i] <= jy < b[|b| - 1]
    ensures i <= s && s + 1 < |b| && b[s] <= jy < b[s + 1]
    decreases |b| - i
  {
    if jy < b[i + 1] then i else Segment(b, jy, i + 1)
  }

  lemma {:induction false} SegmentIs(b: Breaks, jy: int, i: nat, s: nat)
    requires GoodTable(b) && i <= s && s + 1 < |b| && b[i] <= jy && b[s] <= jy < b[s + 1] && jy < b[|b| - 1]
    ensures Segment(b, jy, i) == s
    decreases s - i
  {
    if i < s {
      Increasing(b, i + 1, s);
      SegmentIs(b, jy, i + 1, s);
    }
  }

  lemma {:induction false} Increasing(b: Breaks, i: nat, k: nat)
    requires GoodTable(b) && i <= k < |b|
    ensures b[i] + 29 * (k - i) <= b[k]
    decreases k - i
  {
    if i < k {
      assert GoodGap(Gap(b, i));
      Increasing(b, i + 1, k);
    }
  }

  /** Leap years in a whole gap, as the loop adds them up. */
  function LeapsInGap(jump: int): int {
    Div(jump, 33) * 8 + Div(Mod(jump, 33), 4)
  }

  function LeapsBefore(b: Breaks, i: nat): int
    requires i < |b|
  {
    if i == 0 then 0 else LeapsBefore(b, i - 1) + LeapsInGap(Gap(b, i - 1))
  }

  /** Leap years among the first n years of a gap. */
  function LeapsInto(jump: int, n: int): int {
    Div(n, 33) * 8 + Div(Mod(n, 33) + 3, 4) + (if Mod(jump, 33) == 4 && jump - n == 4 then 1 else 0)
  }

  function LeapCode(jump: int, n: int): int {
    var n := if jump - n < 6 then n - jump + Div(jump + 4, 33) * 33 else n;
    var leap := Mod(Mod(n + 1, 33) - 1, 4);
    if leap == -1 then 4 else leap
  }

  function LeapG(gy: int): int {
    Div(gy, 4) - Div((Div(gy, 100) + 1) * 3, 4) - 150
  }

  function LeapJ(b: Breaks, jy: int): int
    requires |b| >= 2 && InTable(b, jy)
  {
    var s := Segment(b, jy, 0);
    -14 + LeapsBefore(b, s) + LeapsInto(Gap(b, s), jy - b[s])
  }

  function Info(b: Breaks, jy: int): Result<YearInfo, Error>
    requires |b| >= 2
  {
    if !InTable(b, jy) then Failure(InvalidYear(jy)) else
    var s := Segment(b, jy, 0);
    Success(YearInfo(LeapCode(Gap(b, s), jy - b[s]), jy + 621, 20 + LeapJ(b, jy) - LeapG(jy + 621)))
  }

  /** `_jal_cal`. */
  method JalCal(b: Breaks, jy: int) returns (r: Result<YearInfo, Error>)
    requires GoodTable(b)
    ensures r == Info(b, jy)
  {
    hide Div, Mod;
    if jy < b[0] || jy >= b[|b| - 1] {
      return Failure(InvalidYear(jy));
    }
    var jp, jump, leapJ := WalkBreaks(b, jy);
    var n := jy - jp;
    leapJ := leapJ + LeapsInto(jump, n);
    r := Success(YearInfo(LeapCode(jump, n), jy + 621, 20 + leapJ - LeapG(jy + 621)));
  }

  /** The loop of `_jal_cal`: the start and length of the gap of jy, and the leap years before it. */
  method WalkBreaks(b: Breaks, jy: int) returns (jp: int, jump: int, leapJ: int)
    requires GoodTable(b) && InTable(b, jy)
    ensures var s := Segment(b, jy, 0);
      jp == b[s] && jump == Gap(b, s) && leapJ == -14 + LeapsBefore(b, s)
  {
    hide Div, Mod;
    jp, jump, leapJ := b[0], 0, -14;
    ghost var s := 0;
    for i := 1 to |b|
      invariant s == i - 1 && jp == b[s] <= jy
      invariant leapJ == -14 + LeapsBefore(b, s)
    {
      var jm := b[i];
      jump := jm - jp;
      if jy < jm {
        break;
      }
      leapJ := leapJ + LeapsInGap(jump);
      jp := jm;
      s := i;
    }
    SegmentIs(b, jy, 0, s);
  }

  // ----- leap years by cycles -----

  /** A gap is cut into cycles of 33 years and one closing cycle of 29 or 37. */
  function ClosingCycle(jump: int): int {
    if jump % 33 == 4 then 37 else 29
  }

  /** In each cycle every fourth year is leap, from the first on, except the last year of the cycle. */
  predicate CycleLeap(jump: int, n: int) {
    var closing := jump - ClosingCycle(jump);
    var length := if n >= closing then ClosingCycle(jump) else 33;
    var place := if n >= closing then n - closing else n % 33;
    place % 4 == 0 && place != length - 1
  }

  /** In the last five years of a gap the leap code just counts up from 0. */
  lemma LeapCodeNearTheEnd(jump: int, n: int)
    requires GoodGap(jump) && jump - 5 <= n < jump
    ensures LeapCode(jump, n) == n - (jump - 5)
  {
    var k, t := jump / 33, n - (jump - 5);
    var n' := n - jump + Div(jump + 4, 33) * 33;
    if jump % 33 == 29 {
      QuotientIs(jump + 4, 33, k + 1, 0);
    } else {
      QuotientIs(jump + 4, 33, k, 8);
    }
    if t < 4 {
      QuotientIs(n' + 1, 33, n' / 33, 29 + t);
    } else {
      QuotientIs(n' + 1, 33, n' / 33 + 1, 0);
    }
  }

  lemma LeapCodeBefore(jump: int, n: int, q: int, c: int)
    requires 0 <= n < jump - 5 && n == 33 * q + c && 0 <= c < 33
    ensures LeapCode(jump, n) == (if c == 32 then 4 else c % 4)
  {
    if c < 32 {
      QuotientIs(n + 1, 33, q, c + 1);
    } else {
      QuotientIs(n + 1, 33, q + 1, 0);
    }
  }

  lemma CycleLeapBefore(jump: int, n: int, q: int, c: int)
    requires GoodGap(jump) && 0 <= n < jump - 5 && n == 33 * q + c && 0 <= c < 33
    ensures CycleLeap(jump, n) <==> c % 4 == 0 && c != 32
  {
    var closing := jump - ClosingCycle(jump);
    QuotientIs(n, 33, q, c);
    if n >= closing {
      QuotientIs(n, 33, closing / 33, n - closing);
    }
  }

  lemma CycleLeapNearTheEnd(jump: int, n: int)
    requires GoodGap(jump) && jump - 5 <= n < jump
    ensures CycleLeap(jump, n) <==> n == jump - 5
  {
  }

  /** The code is 0 exactly in the leap years of the cycles. */
  lemma LeapCodeIsCycles(jump: int, n: int)
    requires GoodGap(jump) && 0 <= n < jump
    ensures LeapCode(jump, n) == 0 <==> CycleLeap(jump, n)
  {
    hide LeapCode, CycleLeap;
    if n >= jump - 5 {
      LeapCodeNearTheEnd(jump, n);
      CycleLeapNearTheEnd(jump, n);
    } else {
      LeapCodeBefore(jump, n, n / 33, n % 33);
      CycleLeapBefore(jump, n, n / 33, n % 33);
    }
  }

  lemma LeapsIntoIs(jump: int, n: int, q: int, c: int)
    requires jump >= 0 && n >= 0 && n == 33 * q + c && 0 <= c < 33
    ensures LeapsInto(jump, n) == 8 * q + (c + 3) / 4 + (if jump % 33 == 4 && jump - n == 4 then 1 else 0)
  {
    QuotientIs(n, 33, q, c);
  }

  lemma LeapsInGapIs(jump: int, k: int, c: int)
    requires jump >= 0 && jump == 33 * k + c && 0 <= c < 33
    ensures LeapsInGap(jump) == 8 * k + c / 4
  {
    QuotientIs(jump, 33, k, c);
  }

  function LeapsAfter(jump: int, n: int): int {
    if n + 1 < jump then LeapsInto(jump, n + 1) else LeapsInGap(jump)
  }

  lemma LeapsGrowBefore(jump: int, n: int, q: int, c: int)
    requires 0 <= n < jump - 5 && n == 33 * q + c && 0 <= c < 33
    ensures LeapsAfter(jump, n) == LeapsInto(jump, n) + (if c % 4 == 0 && c != 32 then 1 else 0)
  {
    hide LeapsInto, LeapsInGap;
    LeapsIntoIs(jump, n, q, c);
    if c < 32 {
      LeapsIntoIs(jump, n + 1, q, c + 1);
    } else {
      LeapsIntoIs(jump, n + 1, q + 1, 0);
    }
  }

  /** The end of a gap of 33k + 29 years; t counts its last five. */
  lemma LeapsGrowInShortEnd(jump: int, k: int, t: int)
    requires jump == 33 * k + 29 && k >= 0 && 0 <= t < 5
    ensures LeapsAfter(jump, jump - 5 + t) == LeapsInto(jump, jump - 5 + t) + (if t == 0 then 1 else 0)
  {
    hide LeapsInto, LeapsInGap;
    QuotientIs(jump, 33, k, 29);
    LeapsIntoIs(jump, jump - 5 + t, k, 24 + t);
    if t < 4 {
      LeapsIntoIs(jump, jump - 5 + t + 1, k, 25 + t);
    } else {
      LeapsInGapIs(jump, k, 29);
    }
  }

  /** The end of a gap of 33k + 4 years, where the correction moves a leap year. */
  lemma LeapsGrowInLongEnd(jump: int, k: int, t: int)
    requires jump == 33 * k + 4 && k >= 1 && 0 <= t < 5
    ensures LeapsAfter(jump, jump - 5 + t) == LeapsInto(jump, jump - 5 + t) + (if t == 0 then 1 else 0)
  {
    hide LeapsInto, LeapsInGap;
    QuotientIs(jump, 33, k, 4);
    if t == 0 {
      LeapsIntoIs(jump, jump - 5, k - 1, 32);
    } else {
      LeapsIntoIs(jump, jump - 5 + t, k, t - 1);
    }
    if t < 4 {
      LeapsIntoIs(jump, jump - 5 + t + 1, k, t);
    } else {
      LeapsInGapIs(jump, k, 4);
    }
  }

  /** Within a gap, the count of leap years grows by one after each year with code 0. */
  lemma LeapsGrow(jump: int, n: int)
    requires GoodGap(jump) && 0 <= n < jump
    ensures LeapsAfter(jump, n) == LeapsInto(jump, n) + (if LeapCode(jump, n) == 0 then 1 else 0)
  {
    hide LeapsAfter, LeapsInto, LeapCode;
    if n < jump - 5 {
      LeapCodeBefore(jump, n, n / 33, n % 33);
      LeapsGrowBefore(jump, n, n / 33, n % 33);
    } else {
      LeapCodeNearTheEnd(jump, n);
      if jump % 33 == 29 {
        LeapsGrowInShortEnd(jump, jump / 33, n - (jump - 5));
      } else {
        LeapsGrowInLongEnd(jump, jump / 33, n - (jump - 5));
      }
    }
  }

  /** The leap year rule for any table: code 0 is a year of 366 days, and code 1 is the year after one. */
  lemma LeapJGrows(b: Breaks, jy: int)
    requires GoodTable(b) && InTable(b, jy) && InTable(b, jy + 1)
    ensures Info(b, jy).Success? && Info(b, jy + 1).Success?
    ensures LeapJ(b, jy + 1) == LeapJ(b, jy) + (if Info(b, jy).value.leap == 0 then 1 else 0)
    ensures Info(b, jy + 1).value.leap == 1 <==> Info(b, jy).value.leap == 0
  {
    hide LeapsInto, LeapsInGap, LeapCode, LeapG;
    var s := Segment(b, jy, 0);
    var jump, n := Gap(b, s), jy - b[s];
    LeapsGrow(jump, n);
    if n + 1 < jump {
      SegmentIs(b, jy + 1, 0, s);
      LeapCodeSteps(jump, n);
    } else {
      NextSegment(b, jy, s);
      LeapCodeNearTheEnd(jump, n);
    }
  }

  lemma NextSegment(b: Breaks, jy: int, s: nat)
    requires GoodTable(b) && InTable(b, jy + 1) && s + 1 < |b| && b[s] <= jy && jy + 1 == b[s + 1] && b[0] <= jy
    ensures s + 2 < |b| && Segment(b, jy + 1, 0) == s + 1
    ensures LeapJ(b, jy + 1) == -14 + LeapsBefore(b, s + 1)
    ensures LeapCode(Gap(b, s + 1), 0) == 0
  {
    Increasing(b, s + 1, s + 2);
    SegmentIs(b, jy + 1, 0, s + 1);
    LeapsIntoIs(Gap(b, s + 1), 0, 0, 0);
    LeapCodeBefore(Gap(b, s + 1), 0, 0, 0);
  }

  lemma LeapCodeSteps(jump: int, n: int)
    requires GoodGap(jump) && 0 <= n && n + 1 < jump
    ensures LeapCode(jump, n + 1) == 1 <==> LeapCode(jump, n) == 0
  {
    hide LeapCode;
    if n >= jump - 5 {
      LeapCodeNearTheEnd(jump, n);
      LeapCodeNearTheEnd(jump, n + 1);
    } else if n + 1 < jump - 5 {
      var q, c := n / 33, n % 33;
      LeapCodeBefore(jump, n, q, c);
      if c < 32 {
        LeapCodeBefore(jump, n + 1, q, c + 1);
      } else {
        LeapCodeBefore(jump, n + 1, q + 1, 0);
      }
    } else {
      LeapCodeNearTheEnd(jump, n + 1);
      LeapCodeJustBefore(jump, n);
    }
  }

  lemma LeapCodeJustBefore(jump: int, n: int)
    requires GoodGap(jump) && n == jump - 6
    ensures LeapCode(jump, n) == 3
  {
    var k := jump / 33;
    if jump % 33 == 29 {
      LeapCodeBefore(jump, n, k, 23);
    } else {
      LeapCodeBefore(jump, n, k - 1, 31);
    }
  }

  // ----- 1 Farvardin -----

  /** The day number of 1 Farvardin. */
  function FirstDay(b: Breaks, jy: int): int
    requires |b| >= 2 && InTable(b, jy)
  {
    G.G2d(jy + 621, 3, Info(b, jy).value.march)
  }

  /** The Gregorian leap terms in `march` cancel those in `G2d`. */
  lemma LeapTermsCancel(gy: int, leapJ: int)
    requires gy >= 0
    ensures G.G2d(gy, 3, 20 + leapJ - LeapG(gy)) == 365 * gy + leapJ + 1721289
  {
    var c, p, u, w, v := G.PartsOf(gy);
    G.PartsGive(gy, c, p, u, w, v);
    QuotientIs(gy, 4, 25 * c + p, u);
    var y := gy + 100100;
    QuotientIs(y * 1461, 4, 365 * y + 25 * (c + 1001) + p, u);
    QuotientIs(y, 100, c + 1001, 4 * p + u);
    var w' := if v == 0 then w else w + 1;
    QuotientIs((c + 1) * 3, 4, w', if v == 0 then 3 else v - 1);
    QuotientIs((c + 1001) * 3, 4, w' + 750, if v == 0 then 3 else v - 1);
  }

  lemma FirstDayIs(b: Breaks, jy: int)
    requires GoodTable(b) && b[0] >= -621 && InTable(b, jy)
    ensures FirstDay(b, jy) == 365 * (jy + 621) + LeapJ(b, jy) + 1721289
  {
    LeapTermsCancel(jy + 621, LeapJ(b, jy));
  }

  /** First days are 366 days apart exactly after a leap year, and code 1 marks the year after one. */
  lemma LeapYearRule(b: Breaks, jy: int)
    requires GoodTable(b) && b[0] >= -621 && InTable(b, jy) && InTable(b, jy + 1)
    ensures Info(b, jy).Success? && Info(b, jy + 1).Success?
    ensures FirstDay(b, jy + 1) - FirstDay(b, jy) == (if Info(b, jy).value.leap == 0 then 366 else 365)
    ensures Info(b, jy + 1).value.leap == 1 <==> Info(b, jy).value.leap == 0
  {
    hide LeapJ, LeapCode, G.G2d;
    LeapJGrows(b, jy);
    FirstDayIs(b, jy);
    FirstDayIs(b, jy + 1);
  }

  // ----- 1 Farvardin stays in March -----

  /** A whole gap has 8/33 leap years a year, give or take 1/33 of a leap year. */
  lemma {:induction false} LeapsBeforeIsClose(b: Breaks, i: nat)
    requires GoodTable(b) && i < |b|
    ensures 8 * (b[i] - b[0]) - i <= 33 * LeapsBefore(b, i) <= 8 * (b[i] - b[0]) + i
  {
    if i > 0 {
      LeapsBeforeIsClose(b, i - 1);
      var jump := Gap(b, i - 1);
      assert GoodGap(jump);
      GapLeaps(jump);
    }
  }

  lemma GapLeaps(jump: int)
    requires GoodGap(jump)
    ensures -1 <= 33 * LeapsInGap(jump) - 8 * jump <= 1
  {
  }

  lemma LeapsIntoIsClose(jump: int, n: int)
    requires GoodGap(jump) && 0 <= n < jump
    ensures 0 <= 33 * LeapsInto(jump, n) - 8 * n <= 33
  {
    var q, c := n / 33, n % 33;
    LeapsIntoIs(jump, n, q, c);
    if jump % 33 == 4 && jump - n == 4 {
      QuotientIs(n, 33, jump / 33, 0);
    }
  }

  lemma LeapGIsClose(gy: int)
    requires gy >= 0
    ensures -300 <= 400 * LeapG(gy) - 97 * gy + 60300 <= 597
  {
    var c, p, u, w, v := G.PartsOf(gy);
    QuotientIs(gy, 100, c, 4 * p + u);
    QuotientIs(gy, 4, 25 * c + p, u);
    var w' := if v == 0 then w else w + 1;
    QuotientIs((c + 1) * 3, 4, w', if v == 0 then 3 else v - 1);
  }

  /** Over the whole table, 1 Farvardin falls on 19 to 23 March. */
  lemma NowruzInMarch(jy: int)
    requires InTable(BREAKS, jy)
    ensures Info(BREAKS, jy).Success? && 19 <= Info(BREAKS, jy).value.march <= 23
  {
    hide LeapsInto, LeapsBefore, LeapG, LeapCode, Segment;
    BreaksAreGood();
    var s := Segment(BREAKS, jy, 0);
    assert GoodGap(Gap(BREAKS, s));
    LeapsBeforeIsClose(BREAKS, s);
    LeapsIntoIsClose(Gap(BREAKS, s), jy - BREAKS[s]);
    LeapGIsClose(jy + 621);
    MarchIsClose(jy, BREAKS[s], LeapsBefore(BREAKS, s), LeapsInto(Gap(BREAKS, s), jy - BREAKS[s]), LeapG(jy + 621));
  }

  lemma MarchIsClose(jy: int, jp: int, before: int, into: int, leapG: int)
    requires -61 <= jy < 3178
    requires -19 <= 33 * before - 8 * (jp + 61) <= 19 && 0 <= 33 * into - 8 * (jy - jp) <= 33
    requires -300 <= 400 * leapG - 97 * (jy + 621) + 60300 <= 597
    ensures 19 <= 20 + (-14 + before + into) - leapG <= 23
  {
  }
}
