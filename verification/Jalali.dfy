/** The Gregorian to Jalali (Solar Hijri) conversion behind the expiry labels:
    a Julian Day Number is computed from the Gregorian date, and the Jalali
    calendar is walked month by month from the reference 2024-01-01 = 1402-10-11.

    The reference definitions are two calendars, each with its own successor
    function; the conversion is shown to map one onto the other day by day. */
module Jalali {

  datatype Date = Date(y: int, m: int, d: int)

  // Go's integer division and remainder truncate toward zero.
  function GoDiv(a: int, b: int): int
    requires b > 0
  {
    if a >= 0 then a / b else -((-a) / b)
  }

  function GoRem(a: int, b: int): int
    requires b > 0
  {
    a - b * GoDiv(a, b)
  }

  // ---------------------------------------------------------------------
  // The Jalali calendar
  // ---------------------------------------------------------------------

  predicate IsJalaliLeap(y: int) {
    GoRem(y, 33) in {1, 5, 9, 13, 17, 22, 26, 30}
  }

  function JalaliMonthDays(y: int, m: int): (n: int)
    ensures 29 <= n <= 31
  {
    if m <= 6 then 31
    else if m <= 11 then 30
    else if IsJalaliLeap(y) then 30
    else 29
  }

  predicate ValidJalali(j: Date) {
    1 <= j.m <= 12 && 1 <= j.d <= JalaliMonthDays(j.y, j.m)
  }

  function NextJalali(j: Date): Date {
    if j.d < JalaliMonthDays(j.y, j.m) then j.(d := j.d + 1)
    else if j.m < 12 then Date(j.y, j.m + 1, 1)
    else Date(j.y + 1, 1, 1)
  }

  function JalaliYearDays(y: int): int {
    336 + JalaliMonthDays(y, 12)
  }

  // Days from the start of 1402 to the start of year y (negative before it).
  function JalaliYearStart(y: int): int
    decreases if y >= 1402 then y - 1402 else 1402 - y
  {
    if y == 1402 then 0
    else if y > 1402 then JalaliYearStart(y - 1) + JalaliYearDays(y - 1)
    else JalaliYearStart(y + 1) - JalaliYearDays(y)
  }

  function JalaliDaysBeforeMonth(m: int): int {
    if m <= 7 then 31 * (m - 1) else 186 + 30 * (m - 7)
  }

  // The day ordinal of a Jalali date, counted from the start of 1402.
  function JalaliOrdinal(j: Date): int {
    JalaliYearStart(j.y) + JalaliDaysBeforeMonth(j.m) + j.d
  }

  ghost predicate Before(a: Date, b: Date) {
    a.y < b.y || (a.y == b.y && (a.m < b.m || (a.m == b.m && a.d < b.d)))
  }

  lemma JalaliYearStep(y: int)
    ensures JalaliYearStart(y + 1) == JalaliYearStart(y) + JalaliYearDays(y)
  {
    if y < 1402 {
      assert JalaliYearStart(y) == JalaliYearStart(y + 1) - JalaliYearDays(y);
    }
  }

  lemma JalaliMonthStep(y: int, m: int)
    requires 1 <= m <= 12
    ensures m < 12 ==> JalaliDaysBeforeMonth(m + 1) == JalaliDaysBeforeMonth(m) + JalaliMonthDays(y, m)
    ensures m == 12 ==> JalaliDaysBeforeMonth(m) + JalaliMonthDays(y, m) == JalaliYearDays(y)
  {
  }

  // The ordinal counts days: the next calendar day has the next ordinal.
  lemma NextJalaliOrdinal(j: Date)
    requires ValidJalali(j)
    ensures ValidJalali(NextJalali(j))
    ensures JalaliOrdinal(NextJalali(j)) == JalaliOrdinal(j) + 1
  {
    JalaliMonthStep(j.y, j.m);
    JalaliYearStep(j.y);
  }

  lemma {:induction false} JalaliYearStartMonotone(y1: int, y2: int)
    requires y1 < y2
    ensures JalaliYearStart(y1) + JalaliYearDays(y1) <= JalaliYearStart(y2)
    decreases y2 - y1
  {
    JalaliYearStep(y2 - 1);
    if y1 < y2 - 1 {
      JalaliYearStartMonotone(y1, y2 - 1);
    }
  }

  lemma JalaliDayOfYearBound(j: Date)
    requires ValidJalali(j)
    ensures 1 <= JalaliDaysBeforeMonth(j.m) + j.d <= JalaliYearDays(j.y)
  {
  }

  lemma JalaliOrdinalBefore(a: Date, b: Date)
    requires ValidJalali(a) && ValidJalali(b) && Before(a, b)
    ensures JalaliOrdinal(a) < JalaliOrdinal(b)
  {
    if a.y < b.y {
      JalaliYearStartMonotone(a.y, b.y);
      JalaliDayOfYearBound(a);
      JalaliDayOfYearBound(b);
    }
  }

  // The ordinal orders the valid dates exactly as the calendar does; in
  // particular it determines the date.
  lemma JalaliOrdinalOrders(a: Date, b: Date)
    requires ValidJalali(a) && ValidJalali(b)
    ensures Before(a, b) <==> JalaliOrdinal(a) < JalaliOrdinal(b)
    ensures a == b <==> JalaliOrdinal(a) == JalaliOrdinal(b)
  {
    if Before(a, b) {
      JalaliOrdinalBefore(a, b);
    } else if Before(b, a) {
      JalaliOrdinalBefore(b, a);
    } else {
      assert a == b;
    }
  }

  // ---------------------------------------------------------------------
  // The leap rule, in arithmetic
  // ---------------------------------------------------------------------

  // 25 * y + 11 modulo 33 depends on y modulo 33 only.
  lemma LeapRemainder(y: int)
    requires y >= 0
    ensures (25 * y + 11) % 33 == (25 * (y % 33) + 11) % 33
  {
    var q, r := y / 33, y % 33;
    var n := 25 * r + 11;
    assert 25 * y + 11 == 33 * (25 * q + n / 33) + n % 33;
    SameRemainder(25 * y + 11, 25 * q + n / 33, n % 33);
  }

  lemma SameRemainder(n: int, q: int, r: int)
    requires n == 33 * q + r && 0 <= r < 33
    ensures n / 33 == q && n % 33 == r
  {
  }

  /** Eight years in 33 are leap, spread as evenly as can be: the list of
      remainders is one inequality. Before year 1 the code knows no leap year. */
  lemma LeapRule(y: int)
    ensures y >= 0 ==> (IsJalaliLeap(y) <==> (25 * y + 11) % 33 < 8)
    ensures y < 0 ==> !IsJalaliLeap(y)
  {
    if y >= 0 {
      LeapRemainder(y);
      var r := y % 33;
      assert GoRem(y, 33) == r;
      LeapTable(r);
    }
  }

  lemma LeapTable(r: int)
    requires 0 <= r < 33
    ensures r in {1, 5, 9, 13, 17, 22, 26, 30} <==> (25 * r + 11) % 33 < 8
  {
  }

  // The leap years from year 0 up to, not including, year y.
  function LeapsBefore(y: int): int {
    if y < 0 then 0 else (8 * y + 21) / 33
  }

  lemma LeapsBeforeStep(y: int)
    ensures LeapsBefore(y + 1) == LeapsBefore(y) + (if IsJalaliLeap(y) then 1 else 0)
  {
    LeapRule(y);
    if y >= 0 {
      var n := 8 * y + 21;
      assert 25 * y + 11 == 33 * (y - n / 33) + (32 - n % 33);
      SameRemainder(25 * y + 11, y - n / 33, 32 - n % 33);
      assert n + 8 == 33 * (n / 33) + (n % 33 + 8);
    }
  }

  /** Where each year starts, in closed form. */
  lemma {:induction false} YearStartClosed(y: int)
    ensures JalaliYearStart(y) == 365 * (y - 1402) + LeapsBefore(y) - 340
    decreases if y >= 1402 then y - 1402 else 1402 - y
  {
    if y > 1402 {
      YearStartClosed(y - 1);
      LeapsBeforeStep(y - 1);
    } else if y < 1402 {
      YearStartClosed(y + 1);
      LeapsBeforeStep(y);
    }
  }

  /** Any 33 consecutive years have 12053 days. */
  lemma CycleLength(y: int)
    requires y >= 0
    ensures JalaliYearStart(y + 33) - JalaliYearStart(y) == 12053
  {
    YearStartClosed(y);
    YearStartClosed(y + 33);
    var n := 8 * y + 21;
    SameRemainder(n + 264, n / 33 + 8, n % 33);
  }

  // ---------------------------------------------------------------------
  // The Gregorian calendar
  // ---------------------------------------------------------------------

  predicate IsGregorianLeap(y: int) {
    y % 4 == 0 && (y % 100 != 0 || y % 400 == 0)
  }

  function GregorianMonthDays(y: int, m: int): int {
    if m == 2 then (if IsGregorianLeap(y) then 29 else 28)
    else if m in {4, 6, 9, 11} then 30
    else 31
  }

  // The formula divides by truncation, which is a floor from this year on.
  const EARLIEST_YEAR := -4799

  predicate ValidGregorian(g: Date) {
    EARLIEST_YEAR <= g.y && 1 <= g.m <= 12 && 1 <= g.d <= GregorianMonthDays(g.y, g.m)
  }

  function NextGregorian(g: Date): Date {
    if g.d < GregorianMonthDays(g.y, g.m) then g.(d := g.d + 1)
    else if g.m < 12 then Date(g.y, g.m + 1, 1)
    else Date(g.y + 1, 1, 1)
  }

  function JulianDayNumber(g: Date): int {
    var a := GoDiv(14 - g.m, 12);
    var y := g.y + 4800 - a;
    var m := g.m + 12 * a - 3;
    g.d + GoDiv(153 * m + 2, 5) + 365 * y + GoDiv(y, 4) - GoDiv(y, 100) + GoDiv(y, 400) - 32045
  }

  lemma QuotientSteps(y: int)
    ensures (y + 1) / 4 == y / 4 + (if (y + 1) % 4 == 0 then 1 else 0)
    ensures (y + 1) / 100 == y / 100 + (if (y + 1) % 100 == 0 then 1 else 0)
  {
  }

  lemma QuotientStep400(y: int)
    ensures (y + 1) / 400 == y / 400 + (if (y + 1) % 400 == 0 then 1 else 0)
  {
  }

  lemma CenturiesAreFourths(y: int)
    ensures y % 400 == 0 ==> y % 100 == 0
    ensures y % 100 == 0 ==> y % 4 == 0
  {
  }

  lemma LeapDayCount(y: int)
    requires 0 <= y
    ensures (y + 1) / 4 - (y + 1) / 100 + (y + 1) / 400
         == y / 4 - y / 100 + y / 400 + (if IsGregorianLeap(y + 1) then 1 else 0)
  {
    QuotientSteps(y);
    QuotientStep400(y);
    CenturiesAreFourths(y + 1);
  }

  lemma EndOfFebruary(g: Date)
    requires ValidGregorian(g) && g.m == 2 && g.d == GregorianMonthDays(g.y, 2)
    ensures JulianDayNumber(Date(g.y, 3, 1)) == JulianDayNumber(g) + 1
  {
    var y := g.y + 4799;
    LeapDayCount(y);
    LeapEveryFourCenturies(g.y);
    assert JulianDayNumber(g) == g.d + 337 + 365 * y + y / 4 - y / 100 + y / 400 - 32045;
    assert JulianDayNumber(Date(g.y, 3, 1))
        == 1 + 365 * (y + 1) + (y + 1) / 4 - (y + 1) / 100 + (y + 1) / 400 - 32045;
  }

  lemma ShiftBy4800(y: int)
    ensures (y + 4800) % 4 == y % 4
    ensures (y + 4800) % 100 == y % 100
  {
    assert y + 4800 == 4 * (y / 4 + 1200) + y % 4;
    assert y + 4800 == 100 * (y / 100 + 48) + y % 100;
  }

  lemma ShiftBy4800Too(y: int)
    ensures (y + 4800) % 400 == y % 400
  {
    assert y + 4800 == 400 * (y / 400 + 12) + y % 400;
  }

  lemma LeapEveryFourCenturies(y: int)
    ensures IsGregorianLeap(y + 4800) == IsGregorianLeap(y)
  {
    ShiftBy4800(y);
    ShiftBy4800Too(y);
  }

  // The closed formula is a day count of the Gregorian calendar.
  lemma NextGregorianDay(g: Date)
    requires ValidGregorian(g)
    ensures ValidGregorian(NextGregorian(g))
    ensures JulianDayNumber(NextGregorian(g)) == JulianDayNumber(g) + 1
  {
    if g.d < GregorianMonthDays(g.y, g.m) {
      NextDayInMonth(g);
    } else if g.m == 2 {
      EndOfFebruary(g);
    } else if g.m < 12 {
      MonthLengths(g);
    } else {
      EndOfYear(g);
    }
  }

  lemma NextDayInMonth(g: Date)
    ensures JulianDayNumber(g.(d := g.d + 1)) == JulianDayNumber(g) + 1
  {
  }

  lemma EndOfYear(g: Date)
    requires ValidGregorian(g) && g.m == 12 && g.d == 31
    ensures JulianDayNumber(Date(g.y + 1, 1, 1)) == JulianDayNumber(g) + 1
  {
  }

  lemma MonthLengths(g: Date)
    requires ValidGregorian(g) && g.m != 2 && g.m != 12
    requires g.d == GregorianMonthDays(g.y, g.m)
    ensures JulianDayNumber(Date(g.y, g.m + 1, 1)) == JulianDayNumber(g) + 1
  {
    if g.m == 1 { } else if g.m == 3 { } else if g.m == 4 { } else if g.m == 5 { }
    else if g.m == 6 { } else if g.m == 7 { } else if g.m == 8 { } else if g.m == 9 { }
    else if g.m == 10 { } else { assert g.m == 11; }
  }

  // Grows with every day, to induct over the distance between dates.
  function Rank(g: Date): int {
    32 * (12 * g.y + g.m) + g.d
  }

  lemma NextGregorianRank(a: Date, b: Date)
    requires ValidGregorian(a) && ValidGregorian(b) && Before(a, b)
    ensures ValidGregorian(NextGregorian(a))
    ensures NextGregorian(a) == b || Before(NextGregorian(a), b)
    ensures Rank(a) < Rank(NextGregorian(a)) <= Rank(b)
  {
    MonthIsShort(a.y, a.m);
    MonthIsShort(b.y, b.m);
  }

  lemma MonthIsShort(y: int, m: int)
    ensures 28 <= GregorianMonthDays(y, m) <= 31
  {
  }

  // Any number that goes up by one from a day to the next orders the days.
  lemma {:induction false} DayCountBefore(a: Date, b: Date, count: Date -> int)
    requires ValidGregorian(a) && ValidGregorian(b) && Before(a, b)
    requires forall g :: ValidGregorian(g) ==> count(NextGregorian(g)) == count(g) + 1
    ensures count(a) < count(b)
    decreases Rank(b) - Rank(a)
  {
    var next := NextGregorian(a);
    NextGregorianRank(a, b);
    assert count(next) == count(a) + 1;
    if next != b {
      DayCountBefore(next, b, count);
    }
  }

  lemma JulianDayNumberBefore(a: Date, b: Date)
    requires ValidGregorian(a) && ValidGregorian(b) && Before(a, b)
    ensures JulianDayNumber(a) < JulianDayNumber(b)
  {
    forall g: Date | ValidGregorian(g)
      ensures JulianDayNumber(NextGregorian(g)) == JulianDayNumber(g) + 1
    {
      NextGregorianDay(g);
    }
    DayCountBefore(a, b, JulianDayNumber);
  }

  lemma JulianDayNumberOrders(a: Date, b: Date)
    requires ValidGregorian(a) && ValidGregorian(b)
    ensures Before(a, b) <==> JulianDayNumber(a) < JulianDayNumber(b)
    ensures a == b <==> JulianDayNumber(a) == JulianDayNumber(b)
  {
    if Before(a, b) {
      JulianDayNumberBefore(a, b);
    } else if Before(b, a) {
      JulianDayNumberBefore(b, a);
    } else {
      assert a == b;
    }
  }

  // ---------------------------------------------------------------------
  // The conversion
  // ---------------------------------------------------------------------

  const REFERENCE_JDN := 2460311
  const REFERENCE := Date(1402, 10, 11)

  // What a conversion must satisfy: a real Jalali date, as many days away
  // from the reference as the Gregorian date is.
  ghost predicate IsConversion(g: Date, j: Date) {
    && ValidJalali(j)
    && JalaliOrdinal(j) - JalaliOrdinal(REFERENCE) == JulianDayNumber(g) - REFERENCE_JDN
  }

  // The two reference days are one day.
  lemma ReferenceIsAnchor()
    ensures JulianDayNumber(Date(2024, 1, 1)) == REFERENCE_JDN
    ensures IsConversion(Date(2024, 1, 1), REFERENCE)
  {
  }

  /** The day every Jalali year begins, and the day before it, in closed form;
      the last day is the 30th exactly in the years of the leap rule. */
  lemma NewYearOf(jy: int, g: Date)
    requires jy >= 1
    ensures IsConversion(g, Date(jy, 1, 1)) <==> JulianDayNumber(g) == NewYearNumber(jy)
    ensures IsConversion(g, EveOf(jy)) <==> JulianDayNumber(g) == NewYearNumber(jy) - 1
  {
    NewYearOrdinals(jy);
    ReferenceOrdinal();
  }

  // New Year's Eve of the year before, by the leap rule in arithmetic.
  function EveOf(jy: int): Date {
    Date(jy - 1, 12, if (25 * (jy - 1) + 11) % 33 < 8 then 30 else 29)
  }

  lemma NewYearOrdinals(jy: int)
    requires jy >= 1
    ensures ValidJalali(Date(jy, 1, 1)) && JalaliOrdinal(Date(jy, 1, 1)) == NewYearNumber(jy) - 2460024
    ensures ValidJalali(EveOf(jy)) && JalaliOrdinal(EveOf(jy)) == NewYearNumber(jy) - 2460025
  {
    YearStartClosed(jy);
    EveIsLast(jy);
    LastDayOrdinal(jy - 1);
  }

  lemma EveIsLast(jy: int)
    requires jy >= 1
    ensures EveOf(jy) == Date(jy - 1, 12, JalaliMonthDays(jy - 1, 12))
  {
    LeapRule(jy - 1);
  }

  lemma LastDayOrdinal(y: int)
    ensures JalaliOrdinal(Date(y, 12, JalaliMonthDays(y, 12))) == JalaliYearStart(y + 1)
  {
    JalaliYearStep(y);
  }

  lemma ReferenceOrdinal()
    ensures JalaliOrdinal(REFERENCE) == 287
  {
  }

  function NewYearNumber(jy: int): int {
    2460025 + 365 * (jy - 1402) + (8 * jy + 21) / 33 - 340
  }

  lemma MarchNumber(y: int, d: int)
    requires y >= 0
    ensures JulianDayNumber(Date(y, 3, d))
         == d + 365 * (y + 4800) + (y + 4800) / 4 - (y + 4800) / 100 + (y + 4800) / 400 - 32045
  {
  }

  // A Jalali year that begins on a day of March.
  ghost predicate BeginsInMarch(jy: int, gy: int, d: int) {
    IsConversion(Date(gy, 3, d), Date(jy, 1, 1)) && IsConversion(Date(gy, 3, d - 1), EveOf(jy))
  }

  lemma NewYear(jy: int, gy: int, d: int)
    requires gy >= 0 && jy >= 1
    requires d + 365 * (gy + 4800) + (gy + 4800) / 4 - (gy + 4800) / 100 + (gy + 4800) / 400 - 32045
          == NewYearNumber(jy)
    ensures BeginsInMarch(jy, gy, d)
  {
    MarchNumber(gy, d);
    MarchNumber(gy, d - 1);
    NewYearOf(jy, Date(gy, 3, d));
    NewYearOf(jy, Date(gy, 3, d - 1));
  }

  /** New Years as the almanac has them, on both sides of the reference: 1399 and
      1403 are leap years, 1401 and 1402 are not. */
  lemma NewYears(jy: int)
    ensures jy == 1400 ==> BeginsInMarch(jy, 2021, 21)
    ensures jy == 1402 ==> BeginsInMarch(jy, 2023, 21)
    ensures jy == 1403 ==> BeginsInMarch(jy, 2024, 20)
    ensures jy == 1404 ==> BeginsInMarch(jy, 2025, 21)
  {
    if jy == 1400 {
      NewYear(jy, 2021, 21);
    } else if jy == 1402 {
      NewYear(jy, 2023, 21);
    } else if jy == 1403 {
      NewYear(jy, 2024, 20);
    } else if jy == 1404 {
      NewYear(jy, 2025, 21);
    }
  }

  lemma Eves()
    ensures EveOf(1400) == Date(1399, 12, 30) && EveOf(1402) == Date(1401, 12, 29)
    ensures EveOf(1403) == Date(1402, 12, 29) && EveOf(1404) == Date(1403, 12, 30)
  {
  }

  // The forward loop: days from the reference on.
  method WalkForward(from: int) returns (jy: int, jm: int, jd: int)
    requires from >= 0
    ensures ValidJalali(Date(jy, jm, jd))
    ensures JalaliOrdinal(Date(jy, jm, jd)) == JalaliOrdinal(REFERENCE) + from
  {
    var days := from;
    jy, jm, jd := 1402, 10, 11;
    while days > 0
      invariant days >= 0
      invariant ValidJalali(Date(jy, jm, jd))
      invariant JalaliOrdinal(Date(jy, jm, jd)) + days == JalaliOrdinal(REFERENCE) + from
    {
      var remaining := JalaliMonthDays(jy, jm) - jd + 1;
      if days < remaining {
        jd := jd + days;
        return;
      }
      days := days - remaining;
      JalaliMonthStep(jy, jm);
      JalaliYearStep(jy);
      jm := jm + 1;
      if jm > 12 {
        jm := 1;
        jy := jy + 1;
      }
      jd := 1;
    }
  }

  // The backward loop: days before the reference. The outer loop around it in
  // the source runs at most once.
  method WalkBackward(from: int) returns (jy: int, jm: int, jd: int)
    requires from <= 0
    ensures ValidJalali(Date(jy, jm, jd))
    ensures JalaliOrdinal(Date(jy, jm, jd)) == JalaliOrdinal(REFERENCE) + from
  {
    jy, jm, jd := 1402, 10, 11 + from;
    while jd < 1
      invariant 1 <= jm <= 12 && jd <= JalaliMonthDays(jy, jm)
      invariant JalaliOrdinal(Date(jy, jm, jd)) == JalaliOrdinal(REFERENCE) + from
      decreases 1 - jd
    {
      jm := jm - 1;
      if jm < 1 {
        jm := 12;
        jy := jy - 1;
        JalaliYearStep(jy);
      }
      JalaliMonthStep(jy, jm);
      jd := jd + JalaliMonthDays(jy, jm);
    }
  }

  method GregorianToJalali(gy: int, gm: int, gd: int) returns (jy: int, jm: int, jd: int)
    ensures IsConversion(Date(gy, gm, gd), Date(jy, jm, jd))
  {
    var a := GoDiv(14 - gm, 12);
    var y := gy + 4800 - a;
    var m := gm + 12 * a - 3;
    var jdn := gd + GoDiv(153 * m + 2, 5) + 365 * y + GoDiv(y, 4) - GoDiv(y, 100) + GoDiv(y, 400) - 32045;
    var days := jdn - 2460311;
    if days >= 0 {
      jy, jm, jd := WalkForward(days);
    } else {
      jy, jm, jd := WalkBackward(days);
    }
  }

  // There is one conversion of a date, so the loops compute the conversion.
  lemma ConversionUnique(g: Date, j1: Date, j2: Date)
    requires IsConversion(g, j1) && IsConversion(g, j2)
    ensures j1 == j2
  {
    JalaliOrdinalOrders(j1, j2);
  }

  // The conversion is an isomorphism of the two calendars: it commutes with
  // "the next day" and it preserves and reflects the order of dates.
  lemma ConversionFollowsCalendar(g: Date, j: Date, jNext: Date)
    requires ValidGregorian(g)
    requires IsConversion(g, j) && IsConversion(NextGregorian(g), jNext)
    ensures jNext == NextJalali(j)
  {
    NextGregorianDay(g);
    NextJalaliOrdinal(j);
    JalaliOrdinalOrders(jNext, NextJalali(j));
  }

  lemma ConversionOrders(g1: Date, g2: Date, j1: Date, j2: Date)
    requires ValidGregorian(g1) && ValidGregorian(g2)
    requires IsConversion(g1, j1) && IsConversion(g2, j2)
    ensures Before(g1, g2) <==> Before(j1, j2)
    ensures g1 == g2 <==> j1 == j2
  {
    JulianDayNumberOrders(g1, g2);
    JalaliOrdinalOrders(j1, j2);
  }
}
