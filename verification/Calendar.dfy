/** The Gregorian date <-> Julian Day Number conversions of Date.cc and the Date class of Date.h. */
module Calendar {
  import opened CInt

  datatype YearMonthDay = YearMonthDay(year: int, month: int, day: int)

  const FIRST_DAY := -32044          // 1 March 4801 BC, year -4800 astronomically
  const LAST_DAY := 536_838_867      // the last day number whose decoding stays inside int
  const EPOCH_DAY := 2_440_588       // 1 January 1970

  function GetJulianDayNumber(ymd: YearMonthDay): int {
    var a := Quot(14 - ymd.month, 12);
    var y := ymd.year + 4800 - a;
    var m := ymd.month + 12 * a - 3;
    ymd.day + Quot(153 * m + 2, 5) + y * 365 + Quot(y, 4) - Quot(y, 100) + Quot(y, 400) - 32045
  }

  function GetYearMonthDay(julianDayNumber: int): YearMonthDay {
    var a := julianDayNumber + 32044;
    var b := Quot(4 * a + 3, 146097);
    var c := a - Quot(b * 146097, 4);
    var d := Quot(4 * c + 3, 1461);
    var e := c - Quot(1461 * d, 4);
    var m := Quot(5 * e + 2, 153);
    YearMonthDay(b * 100 + d - 4800 + Quot(m, 10),
                 m + 3 - 12 * Quot(m, 10),
                 e - Quot(153 * m + 2, 5) + 1)
  }

  /** The Date class: an immutable day number. */
  datatype Date = Date(julianDayNumber: int) {
    // 0 is Sunday
    function WeekDay(): int {
      Rem(julianDayNumber + 1, 7)
    }

    predicate Less(that: Date) {
      julianDayNumber < that.julianDayNumber
    }
  }

  /* ---- The proleptic Gregorian calendar, stated independently of both conversions ---- */

  predicate IsLeap(year: int) {
    year % 4 == 0 && (year % 100 != 0 || year % 400 == 0)
  }

  function DaysInMonth(year: int, month: int): int
    requires 1 <= month <= 12
  {
    if month == 2 then (if IsLeap(year) then 29 else 28)
    else if month == 4 || month == 6 || month == 9 || month == 11 then 30
    else 31
  }

  predicate IsDate(ymd: YearMonthDay) {
    1 <= ymd.month <= 12 && 1 <= ymd.day <= DaysInMonth(ymd.year, ymd.month)
  }

  function NextDate(ymd: YearMonthDay): (r: YearMonthDay)
    requires IsDate(ymd)
    ensures IsDate(r)
  {
    if ymd.day < DaysInMonth(ymd.year, ymd.month) then ymd.(day := ymd.day + 1)
    else if ymd.month < 12 then YearMonthDay(ymd.year, ymd.month + 1, 1)
    else YearMonthDay(ymd.year + 1, 1, 1)
  }

  predicate Before(x: YearMonthDay, y: YearMonthDay) {
    x.year < y.year
    || (x.year == y.year && (x.month < y.month || (x.month == y.month && x.day < y.day)))
  }

  /** The date n days after ymd, by walking the calendar. */
  function Advance(ymd: YearMonthDay, n: nat): (r: YearMonthDay)
    requires IsDate(ymd)
    ensures IsDate(r)
  {
    if n == 0 then ymd else NextDate(Advance(ymd, n - 1))
  }

  const ORIGIN := YearMonthDay(-4800, 3, 1)

  /* ---- Years counted from March, as the algorithm does ---- */

  function MarchYear(ymd: YearMonthDay): int {
    if ymd.month <= 2 then ymd.year + 4799 else ymd.year + 4800
  }

  function MarchMonth(ymd: YearMonthDay): int {
    if ymd.month <= 2 then ymd.month + 9 else ymd.month - 3
  }

  function YearStart(y: int): int {
    365 * y + y / 4 - y / 100 + y / 400
  }

  function MonthStart(m: int): int {
    (153 * m + 2) / 5
  }

  /** The day number of a date with mathematical (floor) division: right for every date. */
  function ProlepticDay(ymd: YearMonthDay): int {
    ymd.day + MonthStart(MarchMonth(ymd)) + YearStart(MarchYear(ymd)) - 32045
  }

  /** Every valid date is the day after a date, one day number later. */
  lemma ProlepticSuccession(ymd: YearMonthDay)
    requires IsDate(ymd)
    ensures ProlepticDay(NextDate(ymd)) == ProlepticDay(ymd) + 1
  {
    if ymd.day == DaysInMonth(ymd.year, ymd.month) {
      if ymd.month == 2 {
        FebruaryEnds(ymd.year);
      } else {
        MonthEnds(ymd);
      }
    }
  }

  lemma MonthEnds(ymd: YearMonthDay)
    requires IsDate(ymd) && ymd.month != 2 && ymd.day == DaysInMonth(ymd.year, ymd.month)
    ensures MarchYear(NextDate(ymd)) == MarchYear(ymd) && NextDate(ymd).day == 1
    ensures MonthStart(MarchMonth(NextDate(ymd))) == MonthStart(MarchMonth(ymd)) + ymd.day
  {
    MonthLength(ymd.year, ymd.month);
  }

  lemma FebruaryEnds(year: int)
    ensures DaysInMonth(year, 2) + MonthStart(11) + YearStart(year + 4799) == YearStart(year + 4800)
  {
    LeapShift(year);
    YearLength(year + 4799);
  }

  lemma MonthLength(year: int, month: int)
    requires 1 <= month <= 12 && month != 2
    ensures var m := if month <= 2 then month + 9 else month - 3;
            MonthStart(m + 1) == MonthStart(m) + DaysInMonth(year, month)
  {
  }

  lemma DivMod4(x: int, q: int, r: int)
    requires x == 4 * q + r && 0 <= r < 4
    ensures x / 4 == q && x % 4 == r
  {
  }

  lemma DivMod100(x: int, q: int, r: int)
    requires x == 100 * q + r && 0 <= r < 100
    ensures x / 100 == q && x % 100 == r
  {
  }

  lemma DivMod400(x: int, q: int, r: int)
    requires x == 400 * q + r && 0 <= r < 400
    ensures x / 400 == q && x % 400 == r
  {
  }

  /** A year as 400-year cycle q, century c, four-year group d and year r. */
  ghost predicate Splits(y: int, q: int, c: int, d: int, r: int) {
    y == 400 * q + 100 * c + 4 * d + r && 0 <= c <= 3 && 0 <= d <= 24 && 0 <= r <= 3
  }

  lemma OfSplit(y: int, q: int, c: int, d: int, r: int)
    requires Splits(y, q, c, d, r)
    ensures YearStart(y) == 146097 * q + 36524 * c + 1461 * d + 365 * r
    ensures IsLeap(y) <==> (r == 0 && (d == 0 ==> c == 0))
  {
    DivMod4(y, 100 * q + 25 * c + d, r);
    DivMod100(y, 4 * q + c, 4 * d + r);
    DivMod400(y, q, 100 * c + 4 * d + r);
  }

  lemma Split(y: int) returns (q: int, c: int, d: int, r: int)
    ensures Splits(y, q, c, d, r)
  {
    q := y / 400;
    var s := y % 400;
    c := s / 100;
    var t := s % 100;
    d := t / 4;
    r := t % 4;
  }

  lemma YearLength(y: int)
    ensures YearStart(y + 1) - YearStart(y) == (if IsLeap(y + 1) then 366 else 365)
  {
    var q, c, d, r := Split(y);
    OfSplit(y, q, c, d, r);
    if r < 3 {
      OfSplit(y + 1, q, c, d, r + 1);
    } else if d < 24 {
      OfSplit(y + 1, q, c, d + 1, 0);
    } else if c < 3 {
      OfSplit(y + 1, q, c + 1, 0, 0);
    } else {
      OfSplit(y + 1, q + 1, 0, 0, 0);
    }
  }

  /** The calendar repeats every n cycles of 400 years. */
  lemma Period(y: int, n: int)
    ensures IsLeap(y + 400 * n) == IsLeap(y)
    ensures YearStart(y + 400 * n) == YearStart(y) + 146097 * n
  {
    var q, c, d, r := Split(y);
    OfSplit(y, q, c, d, r);
    OfSplit(y + 400 * n, q + n, c, d, r);
  }

  lemma LeapShift(y: int)
    ensures IsLeap(y + 4800) == IsLeap(y)
  {
    Period(y, 12);
  }

  lemma YearStartMonotone(y: int, y': int)
    requires y < y'
    ensures YearStart(y + 1) <= YearStart(y')
    decreases y' - y
  {
    if y + 1 < y' {
      YearLength(y' - 1);
      YearStartMonotone(y, y' - 1);
    }
  }

  lemma DayInYear(ymd: YearMonthDay)
    requires IsDate(ymd)
    ensures 0 <= MarchMonth(ymd) <= 11
    ensures 0 <= ymd.day - 1 + MonthStart(MarchMonth(ymd)) < YearStart(MarchYear(ymd) + 1) - YearStart(MarchYear(ymd))
  {
    YearLength(MarchYear(ymd));
    LeapShift(ymd.year);
  }

  lemma ProlepticMonotone(x: YearMonthDay, y: YearMonthDay)
    requires IsDate(x) && IsDate(y) && Before(x, y)
    ensures ProlepticDay(x) < ProlepticDay(y)
  {
    DayInYear(x);
    DayInYear(y);
    if MarchYear(x) < MarchYear(y) {
      YearStartMonotone(MarchYear(x), MarchYear(y));
    } else {
      WithinYear(x, y);
    }
  }

  lemma WithinYear(x: YearMonthDay, y: YearMonthDay)
    requires IsDate(x) && IsDate(y) && Before(x, y) && MarchYear(x) >= MarchYear(y)
    ensures MarchYear(x) == MarchYear(y)
    ensures x.day + MonthStart(MarchMonth(x)) < y.day + MonthStart(MarchMonth(y))
  {
    var m, m' := MarchMonth(x), MarchMonth(y);
    if m < m' {
      if m == 11 {
      } else {
        var month := if m < 10 then m + 3 else m - 9;
        MonthLength(x.year, month);
        assert MonthStart(m + 1) <= MonthStart(m');
      }
    }
  }

  lemma SameProlepticDay(x: YearMonthDay, y: YearMonthDay)
    requires IsDate(x) && IsDate(y) && ProlepticDay(x) == ProlepticDay(y)
    ensures x == y
  {
    if Before(x, y) {
      ProlepticMonotone(x, y);
    } else if Before(y, x) {
      ProlepticMonotone(y, x);
    }
  }

  /* ---- The decoding, for day numbers from FIRST_DAY on ---- */

  /** Centuries: c is a day inside a 100-year block whose last block of four has one day more. */
  lemma CenturySplit(a: nat, b: int, c: int)
    requires b == (4 * a + 3) / 146097 && c == a - b * 146097 / 4
    ensures 0 <= b
    ensures 0 <= c <= 36524 && (c == 36524 ==> b % 4 == 3)
  {
    var q, s := b / 4, b % 4;
    assert 0 <= 4 * a + 3 - 146097 * b < 146097;
    DivMod4(b * 146097, 146097 * q + 36524 * s, s);
  }

  lemma YearSplit(b: nat, c: int, d: int, e: int)
    requires 0 <= c <= 36524 && (c == 36524 ==> b % 4 == 3)
    requires d == (4 * c + 3) / 1461 && e == c - 1461 * d / 4
    ensures 0 <= d <= 99 && 0 <= e <= 365
    ensures e == 365 ==> d % 4 == 3 && (d == 99 ==> b % 4 == 3)
  {
    var q, s := d / 4, d % 4;
    assert 0 <= 4 * c + 3 - 1461 * d < 1461;
    DivMod4(1461 * d, 1461 * q + 365 * s, s);
  }

  lemma MonthSplit(e: int, m: int)
    requires 0 <= e <= 365 && m == (5 * e + 2) / 153
    ensures 0 <= m <= 11
    ensures MonthStart(m) <= e
    ensures m < 11 ==> e < MonthStart(m + 1)
  {
  }

  lemma BlockStart(b: nat, d: int)
    requires 0 <= d <= 99
    ensures YearStart(100 * b + d) == b * 146097 / 4 + 1461 * d / 4
    ensures IsLeap(100 * b + d + 1) <==> (d % 4 == 3 && (d == 99 ==> b % 4 == 3))
  {
    var q, c, p, r := b / 4, b % 4, d / 4, d % 4;
    DivMod4(b * 146097, 146097 * q + 36524 * c, c);
    DivMod4(1461 * d, 1461 * p + 365 * r, r);
    OfSplit(100 * b + d, q, c, p, r);
    YearLength(100 * b + d);
    if r < 3 {
      OfSplit(100 * b + d + 1, q, c, p, r + 1);
    } else if p < 24 {
      OfSplit(100 * b + d + 1, q, c, p + 1, 0);
    } else if c < 3 {
      OfSplit(100 * b + d + 1, q, c + 1, 0, 0);
    } else {
      OfSplit(100 * b + d + 1, q + 1, 0, 0, 0);
    }
  }

  /** From FIRST_DAY on, the decoded triple is a valid date and names exactly that day. */
  lemma DecodeIsDate(j: int)
    requires j >= FIRST_DAY
    ensures IsDate(GetYearMonthDay(j))
    ensures MarchYear(GetYearMonthDay(j)) >= 0
    ensures ProlepticDay(GetYearMonthDay(j)) == j
  {
    var y, m, e := DecodeParts(j);
    ComposeDate(y, m, e);
  }

  /** What the decoding computes: March year y, March month m, and day e of that year. */
  lemma DecodeParts(j: int) returns (y: nat, m: int, e: int)
    requires j >= FIRST_DAY
    ensures 0 <= m <= 11 && MonthStart(m) <= e <= 365
    ensures m < 11 ==> e < MonthStart(m + 1)
    ensures e == 365 ==> IsLeap(y + 1)
    ensures j == e + 1 + YearStart(y) - 32045
    ensures GetYearMonthDay(j) == YearMonthDay(y - 4800 + m / 10, m + 3 - 12 * (m / 10), e - MonthStart(m) + 1)
  {
    var a := j + 32044;
    var b := (4 * a + 3) / 146097;
    var c := a - b * 146097 / 4;
    CenturySplit(a, b, c);
    var d := (4 * c + 3) / 1461;
    e := c - 1461 * d / 4;
    YearSplit(b, c, d, e);
    m := (5 * e + 2) / 153;
    MonthSplit(e, m);
    BlockStart(b, d);
    y := 100 * b + d;
    DecodeShape(j, b, c, d, e, m);
  }

  lemma DecodeShape(j: int, b: nat, c: nat, d: nat, e: nat, m: nat)
    requires j >= FIRST_DAY
    requires b == (4 * (j + 32044) + 3) / 146097 && c == j + 32044 - b * 146097 / 4
    requires d == (4 * c + 3) / 1461 && e == c - 1461 * d / 4
    requires m == (5 * e + 2) / 153
    ensures GetYearMonthDay(j)
            == YearMonthDay(100 * b + d - 4800 + m / 10, m + 3 - 12 * (m / 10), e - MonthStart(m) + 1)
  {
  }

  /** A March year, month and day offset name the date whose month and day the decoding prints. */
  lemma ComposeDate(y: nat, m: int, e: int)
    requires 0 <= m <= 11 && MonthStart(m) <= e <= 365
    requires m < 11 ==> e < MonthStart(m + 1)
    requires e == 365 ==> IsLeap(y + 1)
    ensures var ymd := YearMonthDay(y - 4800 + m / 10, m + 3 - 12 * (m / 10), e - MonthStart(m) + 1);
            IsDate(ymd) && MarchYear(ymd) == y && MarchMonth(ymd) == m
            && ProlepticDay(ymd) == e + 1 + YearStart(y) - 32045
  {
    LeapShift(y - 4800 + m / 10);
  }

  /** How far truncating division overshoots: one day in common March-based years before the origin. */
  function Excess(y: int): int {
    if y < 0 && !IsLeap(y) then 1 else 0
  }

  /** The encoded day number of every date: the right one, or one too many. */
  lemma EncodeExact(ymd: YearMonthDay)
    requires IsDate(ymd)
    ensures GetJulianDayNumber(ymd) == ProlepticDay(ymd) + Excess(MarchYear(ymd))
  {
    TruncatedYearStart(MarchYear(ymd));
    MarchParts(ymd);
  }

  lemma MarchParts(ymd: YearMonthDay)
    requires IsDate(ymd)
    ensures var a := Quot(14 - ymd.month, 12);
            MarchYear(ymd) == ymd.year + 4800 - a && MarchMonth(ymd) == ymd.month + 12 * a - 3
    ensures Quot(153 * MarchMonth(ymd) + 2, 5) == MonthStart(MarchMonth(ymd))
  {
  }

  lemma TruncatedYearStart(y: int)
    ensures y * 365 + Quot(y, 4) - Quot(y, 100) + Quot(y, 400) == YearStart(y) + Excess(y)
  {
    if y < 0 {
      NegativeQuot4(y);
      NegativeQuot100(y);
      NegativeQuot400(y);
      var q, c, d, r := Split(y);
      DivMod4(y, 100 * q + 25 * c + d, r);
      DivMod100(y, 4 * q + c, 4 * d + r);
      DivMod400(y, q, 100 * c + 4 * d + r);
    }
  }

  lemma NegativeQuot4(y: int)
    requires y < 0
    ensures Quot(y, 4) == y / 4 + (if y % 4 == 0 then 0 else 1)
  {
  }

  lemma NegativeQuot100(y: int)
    requires y < 0
    ensures Quot(y, 100) == y / 100 + (if y % 100 == 0 then 0 else 1)
  {
  }

  lemma NegativeQuot400(y: int)
    requires y < 0
    ensures Quot(y, 400) == y / 400 + (if y % 400 == 0 then 0 else 1)
  {
  }

  /** Encoding undoes decoding for every day number the algorithm is defined on. */
  lemma DayNumberRoundTrip(j: int)
    requires FIRST_DAY <= j
    ensures IsDate(GetYearMonthDay(j))
    ensures GetJulianDayNumber(GetYearMonthDay(j)) == j
  {
    DecodeIsDate(j);
    EncodeExact(GetYearMonthDay(j));
  }

  /** Below FIRST_DAY the truncated remainders go negative and the day of month is not positive. */
  lemma DecodeBelowFirst(j: int)
    requires j < FIRST_DAY
    ensures !IsDate(GetYearMonthDay(j))
  {
    var a := j + 32044;
    var b := Quot(4 * a + 3, 146097);
    var c := a - Quot(b * 146097, 4);
    assert -36525 <= c < 0;
    var d := Quot(4 * c + 3, 1461);
    var e := c - Quot(1461 * d, 4);
    assert -366 <= e < 0;
  }

  /** Decoding yields a calendar date exactly from FIRST_DAY on. */
  lemma DecodeIsDateIff(j: int)
    ensures IsDate(GetYearMonthDay(j)) <==> j >= FIRST_DAY
  {
    if j >= FIRST_DAY {
      DecodeIsDate(j);
    } else {
      DecodeBelowFirst(j);
    }
  }

  lemma NotBeforeOrigin(ymd: YearMonthDay)
    requires IsDate(ymd)
    ensures MarchYear(ymd) >= 0 <==> !Before(ymd, ORIGIN)
  {
  }

  /** Decoding undoes encoding for a date exactly when it is not before 1 March -4800. */
  lemma DateRoundTripIff(ymd: YearMonthDay)
    requires IsDate(ymd)
    ensures GetYearMonthDay(GetJulianDayNumber(ymd)) == ymd <==> !Before(ymd, ORIGIN)
  {
    NotBeforeOrigin(ymd);
    var j := GetJulianDayNumber(ymd);
    var back := GetYearMonthDay(j);
    DecodeIsDateIff(j);
    if MarchYear(ymd) >= 0 {
      EncodeExact(ymd);
      DayInYear(ymd);
      YearStartNonNegative(MarchYear(ymd));
      DecodeIsDate(j);
      SameProlepticDay(ymd, back);
    } else if j >= FIRST_DAY {
      DecodeIsDate(j);
    }
  }

  lemma YearStartNonNegative(y: nat)
    ensures YearStart(y) >= 0
  {
    if y > 0 {
      YearStartMonotone(-1, y);
    }
  }

  /** 29 February up to -4800: the next day gets the same day number. */
  predicate StandsStill(x: YearMonthDay) {
    x.year <= -4800 && x.month == 2 && x.day == 29
  }

  /** 28 February in the year after a leap year, up to -4800: the next day number is passed over. */
  predicate SkipsAhead(x: YearMonthDay) {
    x.year <= -4800 && x.month == 2 && x.day == 28 && IsLeap(x.year - 1)
  }

  /** By how much the day number of the next date is greater, for every date. */
  lemma Succession(x: YearMonthDay)
    requires IsDate(x)
    ensures GetJulianDayNumber(NextDate(x)) - GetJulianDayNumber(x)
            == if StandsStill(x) then 0 else if SkipsAhead(x) then 2 else 1
  {
    ProlepticSuccession(x);
    EncodeExact(x);
    EncodeExact(NextDate(x));
    ExcessChange(x, NextDate(x));
  }

  /** The error changes only at the end of a February next to a leap year. */
  lemma ExcessChange(x: YearMonthDay, next: YearMonthDay)
    requires IsDate(x) && next == NextDate(x)
    ensures Excess(MarchYear(next)) - Excess(MarchYear(x))
            == if StandsStill(x) then -1 else if SkipsAhead(x) then 1 else 0
  {
    if x.month == 2 && x.day == DaysInMonth(x.year, 2) {
      FebruaryExcess(x.year);
      assert MarchYear(x) == x.year + 4799 && MarchYear(next) == x.year + 4800;
    } else {
      assert MarchYear(next) == MarchYear(x);
    }
  }

  lemma FebruaryExcess(year: int)
    ensures Excess(year + 4800) - Excess(year + 4799)
            == if year > -4800 then 0 else if IsLeap(year) then -1 else if IsLeap(year - 1) then 1 else 0
  {
    FebruaryLeaps(year);
  }

  /** The leap years on either side of the end of February, counted from March. */
  lemma FebruaryLeaps(year: int)
    ensures IsLeap(year + 4800) == IsLeap(year) && IsLeap(year + 4799) == IsLeap(year - 1)
    ensures IsLeap(year - 1) ==> !IsLeap(year)
  {
    LeapShift(year);
    LeapShift(year - 1);
  }

  lemma NextIsLeast(x: YearMonthDay, y: YearMonthDay)
    requires IsDate(x) && IsDate(y) && Before(x, y)
    ensures y == NextDate(x) || Before(NextDate(x), y)
  {
  }

  /** Day numbers never decrease along the calendar, and stand still only where succession does. */
  lemma EncodeMonotone(x: YearMonthDay, y: YearMonthDay)
    requires IsDate(x) && IsDate(y) && Before(x, y)
    ensures GetJulianDayNumber(x) <= GetJulianDayNumber(y)
    ensures GetJulianDayNumber(x) == GetJulianDayNumber(y) <==> StandsStill(x) && y == NextDate(x)
  {
    Succession(x);
    NextIsLeast(x, y);
    if y != NextDate(x) {
      EncodeExact(x);
      EncodeExact(y);
      ProlepticSuccession(x);
      ProlepticMonotone(NextDate(x), y);
    }
  }

  /** For any two dates, day-number order and equality are date order and equality,
      but for the two days around the end of a leap February up to -4800. */
  lemma DayNumberOrder(x: YearMonthDay, y: YearMonthDay)
    requires IsDate(x) && IsDate(y)
    ensures Date(GetJulianDayNumber(x)).Less(Date(GetJulianDayNumber(y)))
            <==> Before(x, y) && !(StandsStill(x) && y == NextDate(x))
    ensures Date(GetJulianDayNumber(x)) == Date(GetJulianDayNumber(y))
            <==> x == y || (StandsStill(x) && y == NextDate(x)) || (StandsStill(y) && x == NextDate(y))
  {
    if Before(x, y) {
      EncodeMonotone(x, y);
    } else if Before(y, x) {
      EncodeMonotone(y, x);
    }
  }

  /** Before the origin succession fails both ways: 29 February -4800 and the next day share a day
      number, and no date near 28 February -4803 has the one between it and the next day's. */
  lemma SuccessionFailsBeforeOrigin()
    ensures NextDate(YearMonthDay(-4800, 2, 29)) == ORIGIN
    ensures GetJulianDayNumber(YearMonthDay(-4800, 2, 29)) == GetJulianDayNumber(ORIGIN)
    ensures NextDate(YearMonthDay(-4803, 2, 28)) == YearMonthDay(-4803, 3, 1)
    ensures GetJulianDayNumber(YearMonthDay(-4803, 3, 1)) == GetJulianDayNumber(YearMonthDay(-4803, 2, 28)) + 2
  {
  }

  /** Day number FIRST_DAY + n is what walking the calendar n days from the origin reaches. */
  lemma {:induction false} DecodeWalksCalendar(n: nat)
    ensures GetYearMonthDay(FIRST_DAY + n) == Advance(ORIGIN, n)
  {
    if n == 0 {
      DecodeFirst(FIRST_DAY + n);
    } else {
      DecodeWalksCalendar(n - 1);
      DecodeStep(FIRST_DAY + n);
    }
  }

  lemma DecodeFirst(j: int)
    requires j == FIRST_DAY
    ensures GetYearMonthDay(j) == ORIGIN
  {
    DecodeIsDate(j);
    OriginByDay(GetYearMonthDay(j));
  }

  lemma OriginByDay(x: YearMonthDay)
    requires IsDate(x) && ProlepticDay(x) == FIRST_DAY
    ensures x == ORIGIN
  {
    SameProlepticDay(x, ORIGIN);
  }

  lemma DecodeStep(j: int)
    requires j > FIRST_DAY
    ensures IsDate(GetYearMonthDay(j - 1)) && GetYearMonthDay(j) == NextDate(GetYearMonthDay(j - 1))
  {
    DecodeIsDate(j - 1);
    DecodeIsDate(j);
    NextByDay(GetYearMonthDay(j - 1), GetYearMonthDay(j), j);
  }

  lemma NextByDay(x: YearMonthDay, y: YearMonthDay, j: int)
    requires IsDate(x) && IsDate(y) && ProlepticDay(x) == j - 1 && ProlepticDay(y) == j
    ensures y == NextDate(x)
  {
    ProlepticSuccession(x);
    SameProlepticDay(NextDate(x), y);
  }

  /** Whether 400 years count as 146097 days, as they should. */
  predicate FullPeriod(ymd: YearMonthDay) {
    MarchYear(ymd) >= 0 || MarchYear(ymd) < -400 || IsLeap(MarchYear(ymd))
  }

  /** Four centuries are 146097 days, a whole number of weeks, or one less where the truncation error
      disappears in between. The computed weekday repeats only in the first case, and there exactly
      when neither or both day numbers are negative or the day is a Sunday. */
  lemma FourCenturies(ymd: YearMonthDay)
    requires IsDate(ymd)
    ensures var later := ymd.(year := ymd.year + 400);
            var j, j' := GetJulianDayNumber(ymd), GetJulianDayNumber(later);
            && IsDate(later)
            && j' - j == (if FullPeriod(ymd) then 146097 else 146096)
            && (Date(j').WeekDay() == Date(j).WeekDay()
                <==> FullPeriod(ymd) && (j >= -1 || j < -146097 || (j + 1) % 7 == 0))
  {
    EncodedPeriod(ymd);
    if FullPeriod(ymd) {
      WeekPeriod(GetJulianDayNumber(ymd));
    } else {
      ShortWeekPeriod(GetJulianDayNumber(ymd));
    }
  }

  lemma EncodedPeriod(ymd: YearMonthDay)
    requires IsDate(ymd)
    ensures var later := ymd.(year := ymd.year + 400);
            && IsDate(later)
            && GetJulianDayNumber(later) - GetJulianDayNumber(ymd)
               == (if FullPeriod(ymd) then 146097 else 146096)
    ensures !FullPeriod(ymd) ==> GetJulianDayNumber(ymd) < 0
  {
    ProlepticPeriod(ymd);
    EncodeExact(ymd);
    EncodeExact(ymd.(year := ymd.year + 400));
    ExcessPeriod(MarchYear(ymd));
    if !FullPeriod(ymd) {
      BeforeOriginNegative(ymd);
    }
  }

  lemma ExcessPeriod(y: int)
    ensures Excess(y) - Excess(y + 400) == if y >= 0 || y < -400 || IsLeap(y) then 0 else 1
  {
    Period(y, 1);
  }

  lemma BeforeOriginNegative(ymd: YearMonthDay)
    requires IsDate(ymd) && MarchYear(ymd) < 0
    ensures ProlepticDay(ymd) < -1
  {
    DayInYear(ymd);
    YearStartMonotone(MarchYear(ymd), 0);
  }

  lemma ProlepticPeriod(ymd: YearMonthDay)
    requires IsDate(ymd)
    ensures var later := ymd.(year := ymd.year + 400);
            IsDate(later) && ProlepticDay(later) == ProlepticDay(ymd) + 146097
  {
    Period(ymd.year, 1);
    Period(MarchYear(ymd), 1);
  }

  lemma WeekPeriod(j: int)
    ensures Date(j + 146097).WeekDay() == Date(j).WeekDay() <==> j >= -1 || j < -146097 || (j + 1) % 7 == 0
  {
    assert 146097 == 7 * 20871;
  }

  lemma ShortWeekPeriod(j: int)
    requires j < 0
    ensures Date(j + 146096).WeekDay() != Date(j).WeekDay()
  {
    assert 146096 == 7 * 20870 + 6;
  }

  /** The truncating weekday is the real one (Thursday on the epoch), and the next day has the next
      weekday, exactly when the day number is at least -1 or the day (the next day) is a Sunday. */
  lemma WeekDayExact(j: int)
    ensures Date(j).WeekDay() == (j - EPOCH_DAY + 4) % 7 <==> (j >= -1 || (j + 1) % 7 == 0)
    ensures Date(j + 1).WeekDay() == (Date(j).WeekDay() + 1) % 7 <==> (j >= -1 || (j + 2) % 7 == 0)
  {
    SignedWeekDay(j);
    SignedWeekDay(j + 1);
    EpochIsThursday(j);
    NextRemainder(j + 1);
    WeekDayAdvances(Date(j).WeekDay(), (j + 1) % 7);
  }

  lemma EpochIsThursday(j: int)
    ensures (j - EPOCH_DAY + 4) % 7 == (j + 1) % 7
  {
    assert EPOCH_DAY - 3 == 7 * 348655;
  }

  lemma NextRemainder(a: int)
    ensures (a + 1) % 7 == if a % 7 == 6 then 0 else a % 7 + 1
  {
  }

  lemma WeekDayAdvances(x: int, r: int)
    requires 0 <= r < 7 && (x == r || x == r - 7)
    ensures (x + 1) % 7 == if r == 6 then 0 else r + 1
  {
  }

  lemma SignedWeekDay(j: int)
    ensures Date(j).WeekDay() == (j + 1) % 7 - (if j < -1 && (j + 1) % 7 != 0 then 7 else 0)
  {
    var q, r := (j + 1) / 7, (j + 1) % 7;
    if j < -1 {
      assert -(j + 1) == 7 * -q - r;
      assert (-(j + 1)) % 7 == if r == 0 then 0 else 7 - r;
    }
  }

  /** The weekday of day -2, a Saturday, is not even in range. */
  lemma WeekDayFails()
    ensures Date(-2).WeekDay() == -1 && (-2 - EPOCH_DAY + 4) % 7 == 6
  {
  }

  /** Walking n days through the calendar adds n to the reference day number. */
  lemma {:induction false} WalkCounts(x: YearMonthDay, n: nat)
    requires IsDate(x)
    ensures ProlepticDay(Advance(x, n)) == ProlepticDay(x) + n
  {
    if n > 0 {
      var before := Advance(x, n - 1);
      WalkCounts(x, n - 1);
      ProlepticSuccession(before);
    }
  }

  /** So any later date is reached by walking the difference. */
  lemma WalkReaches(x: YearMonthDay, y: YearMonthDay, n: nat)
    requires IsDate(x) && IsDate(y) && ProlepticDay(y) == ProlepticDay(x) + n
    ensures Advance(x, n) == y
  {
    WalkCounts(x, n);
    SameProlepticDay(Advance(x, n), y);
  }

  /** The day number of the epoch. */
  lemma EpochDay()
    ensures GetJulianDayNumber(YearMonthDay(1970, 1, 1)) == 2_440_588 == EPOCH_DAY
    ensures ProlepticDay(YearMonthDay(1970, 1, 1)) == EPOCH_DAY
  {
    var epoch := YearMonthDay(1970, 1, 1);
    assert MarchYear(epoch) == 6769 && YearStart(6769) == 2_472_326;
    assert MarchMonth(epoch) == 10 && MonthStart(10) == 306;
    EncodeExact(epoch);
  }

  /* ---- No int overflow ---- */

  /** Every intermediate of the decoding fits a 32-bit int. */
  predicate DecodeFits(j: int) {
    var a := j + 32044;
    var b := Quot(4 * a + 3, 146097);
    var c := a - Quot(b * 146097, 4);
    FitsInt32(j) && FitsInt32(a) && FitsInt32(4 * a) && FitsInt32(4 * a + 3) && DecodeTailFits(b, c)
  }

  predicate DecodeTailFits(b: int, c: int) {
    var d := Quot(4 * c + 3, 1461);
    var e := c - Quot(1461 * d, 4);
    var m := Quot(5 * e + 2, 153);
    && FitsInt32(b * 146097) && FitsInt32(c) && FitsInt32(4 * c + 3)
    && FitsInt32(1461 * d) && FitsInt32(e) && FitsInt32(5 * e + 2)
    && FitsInt32(153 * m + 2) && FitsInt32(m + 3 - 12 * Quot(m, 10))
    && FitsInt32(b * 100) && FitsInt32(b * 100 + d - 4800 + Quot(m, 10))
  }

  /** No intermediate of the decoding overflows exactly from day -536902956 to LAST_DAY. */
  lemma DecodeFitsIff(j: int)
    ensures DecodeFits(j) <==> -536_902_956 <= j <= LAST_DAY
  {
    if -536_902_956 <= j <= LAST_DAY {
      InRangeFits(j);
    } else {
      assert !FitsInt32(j) || !FitsInt32(4 * (j + 32044)) || !FitsInt32(4 * (j + 32044) + 3);
    }
  }

  lemma InRangeFits(j: int)
    requires -536_902_956 <= j <= LAST_DAY
    ensures DecodeFits(j)
  {
    var a := j + 32044;
    var b := Quot(4 * a + 3, 146097);
    var c := a - Quot(b * 146097, 4);
    CenturyBounds(a, b, c);
    TailFits(b, c);
  }

  lemma TailFits(b: int, c: int)
    requires -15_000 <= b <= 15_000 && FitsInt32(b * 146097) && -36525 <= c <= 36525
    ensures DecodeTailFits(b, c)
  {
    var d := Quot(4 * c + 3, 1461);
    var e := c - Quot(1461 * d, 4);
    YearBounds(c, d, e);
    MonthBounds(e, Quot(5 * e + 2, 153));
  }

  lemma MonthBounds(e: int, m: int)
    requires -366 <= e <= 366 && m == Quot(5 * e + 2, 153)
    ensures -12 <= m <= 12 && -2 <= Quot(m, 10) <= 2
  {
  }

  lemma CenturyBounds(a: int, b: int, c: int)
    requires FitsInt32(4 * a + 3) && FitsInt32(4 * a)
    requires b == Quot(4 * a + 3, 146097) && c == a - Quot(b * 146097, 4)
    ensures -15_000 <= b <= 15_000 && FitsInt32(b * 146097) && -36525 <= c <= 36525
  {
  }

  lemma YearBounds(c: int, d: int, e: int)
    requires -36525 <= c <= 36525 && d == Quot(4 * c + 3, 1461) && e == c - Quot(1461 * d, 4)
    ensures -100 <= d <= 100 && -366 <= e <= 366
  {
  }

  /** Every intermediate of the encoding, in evaluation order, fits a 32-bit int. */
  predicate EncodeFits(ymd: YearMonthDay) {
    && FitsInt32(14 - ymd.month) && FitsInt32(ymd.year + 4800) && FitsInt32(EncodeMonth(ymd) + 3)
    && EncodeSumsFit(ymd.day, EncodeYear(ymd), EncodeMonth(ymd))
  }

  /** The year and month, counted from March, that the encoding computes. */
  function EncodeYear(ymd: YearMonthDay): int {
    ymd.year + 4800 - Quot(14 - ymd.month, 12)
  }

  function EncodeMonth(ymd: YearMonthDay): int {
    ymd.month + 12 * Quot(14 - ymd.month, 12) - 3
  }

  predicate EncodeSumsFit(day: int, y: int, m: int) {
    var s0 := day + Quot(153 * m + 2, 5);
    var s1 := s0 + y * 365 + Quot(y, 4);
    var s2 := s1 - Quot(y, 100) + Quot(y, 400);
    && FitsInt32(y) && FitsInt32(m) && FitsInt32(153 * m) && FitsInt32(153 * m + 2) && FitsInt32(s0)
    && FitsInt32(y * 365) && FitsInt32(s0 + y * 365) && FitsInt32(s1)
    && FitsInt32(s1 - Quot(y, 100)) && FitsInt32(s2) && FitsInt32(s2 - 32045)
  }

  const FIRST_ENCODABLE := YearMonthDay(-5_884_290, 5, 13)
  const LAST_ENCODABLE := YearMonthDay(5_874_689, 12, 15)

  /** The encoding of a date never overflows exactly between these two dates. */
  lemma EncodeFitsIff(ymd: YearMonthDay)
    requires IsDate(ymd)
    ensures EncodeFits(ymd) <==> !Before(ymd, FIRST_ENCODABLE) && !Before(LAST_ENCODABLE, ymd)
  {
    var y, m := MarchYear(ymd), MarchMonth(ymd);
    DayOfMarchYear(ymd);
    EncodeFitsParts(ymd, y, m);
    SumsFitIff(ymd.day, y, m, ymd.day + MonthStart(m));
    LargestSumIff(y, ymd.day + MonthStart(m));
    FirstEncodable(ymd);
    LastEncodable(ymd);
  }

  lemma EncodeFitsParts(ymd: YearMonthDay, y: int, m: int)
    requires IsDate(ymd) && y == MarchYear(ymd) && m == MarchMonth(ymd)
    ensures EncodeFits(ymd) <==> FitsInt32(ymd.year + 4800) && EncodeSumsFit(ymd.day, y, m)
  {
    EncodeMarch(ymd);
  }

  lemma EncodeMarch(ymd: YearMonthDay)
    requires IsDate(ymd)
    ensures EncodeYear(ymd) == MarchYear(ymd) && EncodeMonth(ymd) == MarchMonth(ymd)
    ensures 0 <= EncodeMonth(ymd) <= 11
  {
  }

  /** The sum that comes closest to the ends of int. */
  function LargestSum(y: int, e: int): int {
    e + 365 * y + Quot(y, 4)
  }

  lemma DayOfMarchYear(ymd: YearMonthDay)
    requires IsDate(ymd)
    ensures 0 <= MarchMonth(ymd) <= 11 && 1 <= ymd.day + MonthStart(MarchMonth(ymd)) <= 366
  {
  }

  lemma SumsFitIff(day: int, y: int, m: int, e: int)
    requires 0 <= m <= 11 && 1 <= day <= 31 && e == day + MonthStart(m) <= 366
    ensures EncodeSumsFit(day, y, m) <==> FitsInt32(LargestSum(y, e))
  {
    assert Quot(153 * m + 2, 5) == MonthStart(m);
    LeapTerms(y);
  }

  /** How the leap terms compare. */
  lemma LeapTerms(y: int)
    ensures y >= 0 ==> 0 <= Quot(y, 400) <= Quot(y, 100) <= Quot(y, 4) <= y
    ensures y < 0 ==> y <= Quot(y, 4) <= Quot(y, 100) <= Quot(y, 400) <= 0
    ensures y <= -5_000_000 ==> Quot(y, 400) - Quot(y, 100) >= 37_000
  {
  }

  lemma LargestSumIff(y: int, e: int)
    requires 1 <= e <= 366
    ensures FitsInt32(LargestSum(y, e)) <==>
              && (y > -5_879_490 || (y == -5_879_490 && e >= 74))
              && (y < 5_879_489 || (y == 5_879_489 && e <= 290))
  {
  }

  lemma FirstEncodable(ymd: YearMonthDay)
    requires IsDate(ymd)
    ensures var y, e := MarchYear(ymd), ymd.day + MonthStart(MarchMonth(ymd));
            Before(ymd, FIRST_ENCODABLE) <==> y < -5_879_490 || (y == -5_879_490 && e < 74)
  {
  }

  lemma LastEncodable(ymd: YearMonthDay)
    requires IsDate(ymd)
    ensures var y, e := MarchYear(ymd), ymd.day + MonthStart(MarchMonth(ymd));
            Before(LAST_ENCODABLE, ymd) <==> y > 5_879_489 || (y == 5_879_489 && e > 290)
  {
  }

  /** Encoding a decoded date never overflows. */
  lemma EncodeFitsOnImage(j: int)
    requires FIRST_DAY <= j <= LAST_DAY
    ensures EncodeFits(GetYearMonthDay(j))
  {
    DecodeIsDate(j);
    SmallYear(GetYearMonthDay(j));
    EncodeFitsIff(GetYearMonthDay(j));
  }

  lemma SmallYear(ymd: YearMonthDay)
    requires IsDate(ymd) && MarchYear(ymd) >= 0 && ProlepticDay(ymd) <= LAST_DAY
    ensures MarchYear(ymd) <= 1_500_000
  {
    DayInYear(ymd);
    if MarchYear(ymd) > 1_500_000 {
      YearStartMonotone(1_500_000, MarchYear(ymd));
    }
  }
}
