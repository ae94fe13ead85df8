/** Seconds since the epoch <-> broken-down time: BreakTime, fillHMS and fromUtcTime of TimeZone.cc. */
module CivilTime {
  import opened CInt
  import opened Calendar

  const SECONDS_PER_DAY := 86_400

  datatype DateTime = DateTime(year: int, month: int, day: int, hour: int, minute: int, second: int) {
    function Date(): YearMonthDay {
      YearMonthDay(year, month, day)
    }

    function SecondsInDay(): int {
      hour * 3600 + minute * 60 + second
    }

    predicate Valid() {
      IsDate(Date()) && 0 <= hour < 24 && 0 <= minute < 60 && 0 <= second < 60
    }
  }

  function FromUtcTime(dt: DateTime): int {
    (GetJulianDayNumber(dt.Date()) - EPOCH_DAY) * SECONDS_PER_DAY + dt.SecondsInDay()
  }

  /** The day number an instant falls on, with mathematical division. */
  function DayOf(t: int): int {
    t / SECONDS_PER_DAY + EPOCH_DAY
  }

  /** The broken-down time of an instant, with mathematical division and remainder. */
  function CivilOf(t: int): DateTime {
    var ymd := GetYearMonthDay(DayOf(t));
    var s := t % SECONDS_PER_DAY;
    DateTime(ymd.year, ymd.month, ymd.day, s / 3600, s / 60 % 60, s % 60)
  }

  /** The instants whose day the calendar can decode without leaving int. */
  predicate InRange(t: int) {
    FIRST_DAY <= DayOf(t) <= LAST_DAY
  }

  method FillHMS(seconds: nat, dt: DateTime) returns (r: DateTime)
    requires seconds < SECONDS_PER_DAY
    ensures r.Date() == dt.Date()
    ensures r.SecondsInDay() == seconds && 0 <= r.hour < 24 && 0 <= r.minute < 60 && 0 <= r.second < 60
  {
    r := dt.(second := seconds % 60);
    var minutes := seconds / 60;
    r := r.(minute := minutes % 60);
    r := r.(hour := minutes / 60);
  }

  /** Whether breaking an instant down stays inside int: the day count, the epoch day added to it,
      and every intermediate of the decoding. */
  predicate BreakFits(t: int) {
    FitsInt32(t / SECONDS_PER_DAY) && DecodeFits(DayOf(t))
  }

  /** Truncating division, corrected for negative remainders, is the floor split. */
  method BreakTime(t: int) returns (dt: DateTime)
    requires FitsInt64(t)
    ensures BreakFits(t) ==> dt == CivilOf(t)
  {
    var seconds := WrapInt32(Rem(t, SECONDS_PER_DAY));
    var days := WrapInt32(Quot(t, SECONDS_PER_DAY));
    CastsExact(t);
    if seconds < 0 {
      seconds := seconds + SECONDS_PER_DAY;
      days := days - 1;
    }
    dt := FillHMS(seconds, DateTime(0, 0, 0, 0, 0, 0));
    var ymd := GetYearMonthDay(days + EPOCH_DAY);
    dt := dt.(year := ymd.year, month := ymd.month, day := ymd.day);
    if BreakFits(t) {
      AssembleCivil(dt, t, days);
    }
  }

  lemma AssembleCivil(dt: DateTime, t: int, days: int)
    requires days == t / SECONDS_PER_DAY && dt.Date() == GetYearMonthDay(days + EPOCH_DAY)
    requires dt.SecondsInDay() == t % SECONDS_PER_DAY
    requires 0 <= dt.hour < 24 && 0 <= dt.minute < 60 && 0 <= dt.second < 60
    ensures dt == CivilOf(t)
  {
    HmsUnique(dt.hour, dt.minute, dt.second, t % SECONDS_PER_DAY);
  }

  lemma FloorSplit(t: int)
    ensures var q, r := Quot(t, SECONDS_PER_DAY), Rem(t, SECONDS_PER_DAY);
            -SECONDS_PER_DAY < r < SECONDS_PER_DAY && (r < 0 ==> q <= 0)
            && (if r < 0 then t / SECONDS_PER_DAY == q - 1 && t % SECONDS_PER_DAY == r + SECONDS_PER_DAY
                else t / SECONDS_PER_DAY == q && t % SECONDS_PER_DAY == r)
  {
    if t < 0 {
      var q, r := (-t) / SECONDS_PER_DAY, (-t) % SECONDS_PER_DAY;
      assert t == -q * SECONDS_PER_DAY - r;
      DaySplitUnique(t, if r == 0 then -q else -q - 1, if r == 0 then 0 else SECONDS_PER_DAY - r);
    }
  }

  lemma CastsExact(t: int)
    ensures var days, seconds := WrapInt32(Quot(t, SECONDS_PER_DAY)), WrapInt32(Rem(t, SECONDS_PER_DAY));
            -SECONDS_PER_DAY < seconds < SECONDS_PER_DAY
            && t % SECONDS_PER_DAY == (if seconds < 0 then seconds + SECONDS_PER_DAY else seconds)
            && (FitsInt32(t / SECONDS_PER_DAY) ==>
                  t / SECONDS_PER_DAY == (if seconds < 0 then days - 1 else days))
  {
    FloorSplit(t);
    WrapExact(Rem(t, SECONDS_PER_DAY));
    if FitsInt32(t / SECONDS_PER_DAY) {
      WrapExact(Quot(t, SECONDS_PER_DAY));
    }
  }

  lemma WrapExact(x: int)
    requires FitsInt32(x)
    ensures WrapInt32(x) == x
  {
  }

  lemma DaySplitUnique(t: int, q: int, r: int)
    requires t == q * SECONDS_PER_DAY + r && 0 <= r < SECONDS_PER_DAY
    ensures t / SECONDS_PER_DAY == q && t % SECONDS_PER_DAY == r
  {
  }

  lemma HmsUnique(hour: int, minute: int, second: int, s: int)
    requires s == hour * 3600 + minute * 60 + second
    requires 0 <= hour < 24 && 0 <= minute < 60 && 0 <= second < 60
    ensures hour == s / 3600 && minute == s / 60 % 60 && second == s % 60
  {
    assert s / 60 == hour * 60 + minute;
  }

  lemma HmsOf(s: int)
    requires 0 <= s < SECONDS_PER_DAY
    ensures 0 <= s / 3600 < 24 && s / 3600 * 3600 + s / 60 % 60 * 60 + s % 60 == s
  {
    assert s / 60 / 60 == s / 3600;
  }

  /** From the first day on, an instant breaks into a valid time that names exactly that instant. */
  lemma SecondsRoundTrip(t: int)
    requires DayOf(t) >= FIRST_DAY
    ensures CivilOf(t).Valid() && FromUtcTime(CivilOf(t)) == t
  {
    DayNumberRoundTrip(DayOf(t));
    HmsOf(t % SECONDS_PER_DAY);
    SameSeconds(CivilOf(t), t);
  }

  lemma SameSeconds(dt: DateTime, t: int)
    requires GetJulianDayNumber(dt.Date()) == DayOf(t) && dt.SecondsInDay() == t % SECONDS_PER_DAY
    ensures FromUtcTime(dt) == t
  {
  }

  /** Breaking an instant gives a valid time naming that instant exactly from the first day on. */
  lemma SecondsRoundTripIff(t: int)
    ensures CivilOf(t).Valid() && FromUtcTime(CivilOf(t)) == t <==> DayOf(t) >= FIRST_DAY
  {
    if DayOf(t) >= FIRST_DAY {
      SecondsRoundTrip(t);
    } else {
      DecodeIsDateIff(DayOf(t));
    }
  }

  /** What the instants from 1 March -4800 on break into, counted from 1 January 1970: as many days through
      the calendar as 86400 goes into them, and the rest as a time of day. */
  lemma BreaksAsCalendar(t: int)
    requires t >= -213_635_404_800
    ensures var dt := CivilOf(t);
            var date, days := YearMonthDay(dt.year, dt.month, dt.day), t / 86_400;
            && IsDate(date)
            && 0 <= dt.hour < 24 && 0 <= dt.minute < 60 && 0 <= dt.second < 60
            && dt.hour * 3600 + dt.minute * 60 + dt.second == t % 86_400
            && (if days >= 0 then date == Advance(YearMonthDay(1970, 1, 1), days)
                else Advance(date, -days) == YearMonthDay(1970, 1, 1))
  {
    HmsOf(t % SECONDS_PER_DAY);
    HoursAndMinutes(t % SECONDS_PER_DAY);
    DaysFromEpoch(t / SECONDS_PER_DAY);
  }

  lemma HoursAndMinutes(s: int)
    ensures 0 <= s / 60 % 60 < 60 && 0 <= s % 60 < 60
  {
  }

  lemma DaysFromEpoch(days: int)
    requires days + EPOCH_DAY >= FIRST_DAY
    ensures var date := GetYearMonthDay(days + EPOCH_DAY);
            && IsDate(date)
            && (if days >= 0 then date == Advance(YearMonthDay(1970, 1, 1), days)
                else Advance(date, -days) == YearMonthDay(1970, 1, 1))
  {
    var date := GetYearMonthDay(days + EPOCH_DAY);
    DecodeIsDate(days + EPOCH_DAY);
    EpochDay();
    if days >= 0 {
      WalkReaches(YearMonthDay(1970, 1, 1), date, days);
    } else {
      WalkReaches(date, YearMonthDay(1970, 1, 1), -days);
    }
  }

  /** The instant of any valid time: 86400 for each of the n calendar days between its date and
      1 January 1970, and the seconds in the day; a day too many in common March-based years before
      1 March -4800. */
  lemma ComposesAsCalendar(dt: DateTime) returns (n: nat)
    requires dt.Valid()
    ensures var date, epoch := YearMonthDay(dt.year, dt.month, dt.day), YearMonthDay(1970, 1, 1);
            var s := dt.hour * 3600 + dt.minute * 60 + dt.second;
            var excess := 86_400 * Excess(MarchYear(date));
            && (if Before(date, epoch)
                then Advance(date, n) == epoch && FromUtcTime(dt) == s - 86_400 * n + excess
                else Advance(epoch, n) == date && FromUtcTime(dt) == s + 86_400 * n)
            && (!Before(date, YearMonthDay(-4800, 3, 1)) ==> excess == 0)
  {
    var date, epoch := dt.Date(), YearMonthDay(1970, 1, 1);
    EncodeExact(date);
    EpochDay();
    if Before(date, epoch) {
      ProlepticMonotone(date, epoch);
      n := EPOCH_DAY - ProlepticDay(date);
      WalkReaches(date, epoch, n);
    } else {
      if date != epoch {
        ProlepticMonotone(epoch, date);
      }
      n := ProlepticDay(date) - EPOCH_DAY;
      WalkReaches(epoch, date, n);
    }
  }

  lemma FromUtcSplit(dt: DateTime)
    requires dt.Valid()
    ensures DayOf(FromUtcTime(dt)) == GetJulianDayNumber(dt.Date())
    ensures FromUtcTime(dt) % SECONDS_PER_DAY == dt.SecondsInDay()
  {
    DaySplitUnique(FromUtcTime(dt), GetJulianDayNumber(dt.Date()) - EPOCH_DAY, dt.SecondsInDay());
  }

  /** A valid time comes back from its instant exactly when its date is not before the origin. */
  lemma DateTimeRoundTripIff(dt: DateTime)
    requires dt.Valid()
    ensures CivilOf(FromUtcTime(dt)) == dt <==> !Before(dt.Date(), ORIGIN)
  {
    FromUtcSplit(dt);
    HmsUnique(dt.hour, dt.minute, dt.second, dt.SecondsInDay());
    DateRoundTripIff(dt.Date());
  }

  /** Every intermediate of fromUtcTime fits its type: the encoding, the seconds in the day and the
      day count are int, the product and the sum int64. */
  predicate ComposeFits(dt: DateTime) {
    var days := GetJulianDayNumber(dt.Date()) - EPOCH_DAY;
    && EncodeFits(dt.Date())
    && FitsInt32(dt.hour * 3600) && FitsInt32(dt.minute * 60)
    && FitsInt32(dt.hour * 3600 + dt.minute * 60) && FitsInt32(dt.SecondsInDay())
    && FitsInt32(days) && FitsInt64(days * SECONDS_PER_DAY) && FitsInt64(FromUtcTime(dt))
  }

  /** Breaking down stays inside int exactly for these days. */
  lemma BreakFitsIff(t: int)
    ensures BreakFits(t) <==> -536_902_956 <= DayOf(t) <= LAST_DAY
  {
    DecodeFitsIff(DayOf(t));
  }

  /** Breaking and composing an instant of the range stays inside int and int64. */
  lemma InRangeFits(t: int)
    requires InRange(t)
    ensures FitsInt64(t) && BreakFits(t) && ComposeFits(CivilOf(t))
  {
    BreakFitsIff(t);
    EncodeFitsOnImage(DayOf(t));
    SecondsRoundTrip(t);
    DayNumberRoundTrip(DayOf(t));
  }
}
