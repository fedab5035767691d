/** Civil dates: the closed-form conversion of the configurator link (MspProcessor.cpp) against the
    year-by-year day count of the Blackbox shim (platform.c). */
module CivilDates {
  import opened Arithmetic

  datatype DateTime = DateTime(year: nat, month: nat, day: nat, hour: nat, minute: nat, second: nat)

  // ----- The Gregorian calendar -----

  predicate Leap(y: nat) { y % 4 == 0 && (y % 100 != 0 || y % 400 == 0) }

  function LeapDay(y: nat): nat { if Leap(y) then 1 else 0 }

  const MONTH_DAYS: seq<nat> := [0, 31, 59, 90, 120, 151, 181, 212, 243, 273, 304, 334]
  const LEAP_MONTH_DAYS: seq<nat> := [0, 31, 60, 91, 121, 152, 182, 213, 244, 274, 305, 335]

  /** Days of the year before a month. */
  function DaysBeforeMonth(y: nat, month: nat): nat
    requires 1 <= month <= 12
  {
    (if Leap(y) then LEAP_MONTH_DAYS else MONTH_DAYS)[month - 1]
  }

  function MonthLength(y: nat, month: nat): nat
    requires 1 <= month <= 12
  {
    match month
    case 2 => 28 + LeapDay(y)
    case 4 => 30 case 6 => 30 case 9 => 30 case 11 => 30
    case _ => 31
  }

  /** Days from the epoch to the first day of a year, year by year. */
  function DaysBeforeYear(y: nat): nat {
    if y <= 1970 then 0 else DaysBeforeYear(y - 1) + 365 + LeapDay(y - 1)
  }

  predicate ValidDay(y: nat, month: nat, day: nat) {
    1970 <= y && 1 <= month <= 12 && 1 <= day <= MonthLength(y, month)
  }

  predicate Valid(t: DateTime) {
    ValidDay(t.year, t.month, t.day) && t.hour < 24 && t.minute < 60 && t.second < 60
  }

  function DayNumber(y: nat, month: nat, day: nat): nat
    requires 1 <= month <= 12 && 1 <= day
  {
    DaysBeforeYear(y) + DaysBeforeMonth(y, month) + (day - 1)
  }

  /** The specification of `dateTimeToUnixSeconds`. */
  function UnixSeconds(t: DateTime): nat
    requires 1 <= t.month <= 12 && 1 <= t.day
  {
    DayNumber(t.year, t.month, t.day) * 86400 + t.hour * 3600 + t.minute * 60 + t.second
  }

  /** `dateTimeToUnixSeconds` counts days in a loop over the years. */
  method DateTimeToUnixSeconds(t: DateTime) returns (seconds: nat)
    requires 1 <= t.month <= 12 && 1 <= t.day
    ensures seconds == UnixSeconds(t)
  {
    hide Leap;
    var days := 0;
    var y := 1970;
    while y < t.year
      invariant y <= t.year || y == 1970
      invariant days == DaysBeforeYear(y)
    {
      days := days + if Leap(y) then 366 else 365;
      y := y + 1;
    }
    assert DaysBeforeYear(t.year) == days;
    days := days + (if Leap(t.year) then LEAP_MONTH_DAYS else MONTH_DAYS)[t.month - 1] + (t.day - 1);
    seconds := days * 86400 + t.hour * 3600 + t.minute * 60 + t.second;
  }

  // ----- The calendar, day by day -----

  /** The days of a month: thirty days hath September. */
  function DaysOf(y: nat, month: nat): nat {
    if month == 2 then FebruaryDays(y) else if month in {4, 6, 9, 11} then 30 else 31
  }

  function FebruaryDays(y: nat): nat {
    if y % 400 == 0 || (y % 4 == 0 && y % 100 != 0) then 29 else 28
  }

  lemma FebruaryIs(y: nat)
    ensures FebruaryDays(y) == if Leap(y) then 29 else 28
  {
    var k := y / 400;
    if y % 400 == 0 {
      assert y == (100 * k) * 4;
      QuotientIs(y, 100 * k, 0, 4);
    }
  }

  /** The count starts on 1 January 1970 and goes up by one from every day to the next. */
  lemma NextDay(y: nat, month: nat, day: nat)
    requires 1970 <= y && 1 <= month <= 12 && 1 <= day <= DaysOf(y, month)
    ensures DayNumber(1970, 1, 1) == 0
    ensures DayNumber(y, month, day) + 1 ==
            if day < DaysOf(y, month) then DayNumber(y, month, day + 1)
            else if month < 12 then DayNumber(y, month + 1, 1)
            else DayNumber(y + 1, 1, 1)
  {
    assert DaysBeforeYear(1970) == 0;
    NextYear(y);
    FebruaryIs(y);
    hide DaysBeforeYear, Leap, FebruaryDays;
    if day == DaysOf(y, month) && month < 12 { NextMonth(y, month); }
  }

  lemma NextYear(y: nat)
    requires 1970 <= y
    ensures DaysBeforeYear(y + 1) == DaysBeforeYear(y) + 365 + LeapDay(y)
  {}

  lemma NextMonth(y: nat, month: nat)
    requires 1 <= month < 12
    ensures DaysBeforeMonth(y, month + 1) == DaysBeforeMonth(y, month) + DaysOf(y, month)
  {
    FebruaryIs(y);
    hide Leap, FebruaryDays;
  }

  /** Hours, minutes and seconds on top of the days. */
  lemma SecondsOf(t: DateTime)
    requires 1 <= t.month <= 12 && 1 <= t.day
    ensures UnixSeconds(t) == ((DayNumber(t.year, t.month, t.day) * 24 + t.hour) * 60 + t.minute) * 60 + t.second
    ensures UnixSeconds(DateTime(1970, 1, 1, 0, 0, 0)) == 0
  {
    assert DaysBeforeYear(1970) == 0;
    hide DayNumber, DaysBeforeYear;
    var d := DayNumber(t.year, t.month, t.day);
    assert ((d * 24 + t.hour) * 60 + t.minute) * 60 + t.second == d * 86400 + t.hour * 3600 + t.minute * 60 + t.second;
    assert DayNumber(1970, 1, 1) == 0 by { FirstDay(); }
  }

  lemma FirstDay()
    ensures DayNumber(1970, 1, 1) == 0
  {}

  // ----- The closed form -----

  /** `doe`, the day of a 400-year era counted from March, to its year of the era. */
  function YearOfEra(doe: nat): nat {
    (doe - doe / 1460 + doe / 36524 - doe / 146096) / 365
  }

  function EraYearStart(yoe: nat): int { 365 * yoe + yoe / 4 - yoe / 100 }

  datatype Date = Date(year: int, month: int, day: int)

  /** Month and day of a day of the year that begins in March. */
  function FromMarch(y: nat, doy: int): Date {
    var mp := (5 * doy + 2) / 153;
    var day := doy - (153 * mp + 2) / 5 + 1;
    var month := mp + if mp < 10 then 3 else -9;
    Date(y + (if month <= 2 then 1 else 0), month, day)
  }

  /** The date part of `unixSecondsToUtc`. */
  function CivilFromDays(days: nat): Date {
    var z := days + 719468;
    var era := z / 146097;
    var doe := z - era * 146097;
    var yoe := YearOfEra(doe);
    var doy := doe - EraYearStart(yoe);
    FromMarch(yoe + era * 400, doy)
  }

  /** `unixSecondsToUtc`: the year is cut to 16 bits. */
  function UnixSecondsToUtc(seconds: nat): DateTime
    requires seconds < 0x1_0000_0000
  {
    var date := CivilFromDays(seconds / 86400);
    var ofDay := seconds % 86400;
    DaysRoundTrip(seconds / 86400);
    DateTime(date.year % 65536, date.month, date.day, ofDay / 3600, (ofDay % 3600) / 60, ofDay % 60)
  }

  // ----- Years of an era -----

  /** Where a day lies: century, quadrennium, year and day of that year, all counted from March. */
  datatype Place = Place(c: nat, q: nat, r: nat, doy: nat)
  {
    predicate Ok() {
      c < 4 && q < 25 && r < 4 && doy < 366 && (doy == 365 ==> r == 3 && (q < 24 || c == 3))
    }

    function Doe(): nat { 36524 * c + 1461 * q + 365 * r + doy }

    function Year(): nat { 100 * c + 4 * q + r }
  }

  lemma PlaceOf(doe: nat) returns (p: Place)
    requires doe < 146097
    ensures p.Ok() && p.Doe() == doe
  {
    var c := if doe == 146096 then 3 else doe / 36524;
    var inCentury := doe - 36524 * c;
    var q := inCentury / 1461;
    var inFour := inCentury - 1461 * q;
    var r := if inFour == 1460 then 3 else inFour / 365;
    p := Place(c, q, r, inFour - 365 * r);
  }

  lemma CenturyOf(p: Place)
    requires p.Ok()
    ensures p.Doe() / 36524 - p.Doe() / 146096 == p.c
  {
    var d := p.Doe();
    if d == 146096 {
    } else {
      assert 36524 * p.c <= d < 36524 * p.c + 36524;
    }
  }

  lemma QuadrenniumOf(p: Place)
    requires p.Ok()
    ensures var late := if 24 * p.c + p.q + 365 * p.r + p.doy >= 1460 then 1 else 0;
            p.Doe() / 1460 == 25 * p.c + p.q + late
  {}

  /** The source's division finds the year. */
  lemma YearOfEraIs(p: Place)
    requires p.Ok()
    ensures YearOfEra(p.Doe()) == p.Year()
    ensures EraYearStart(p.Year()) == p.Doe() - p.doy
  {
    CenturyOf(p);
    QuadrenniumOf(p);
    var q := p.Doe() - p.Doe() / 1460 + p.Doe() / 36524 - p.Doe() / 146096;
    assert 365 * p.Year() <= q < 365 * p.Year() + 365;
    assert p.Year() / 4 == 25 * p.c + p.q && p.Year() / 100 == p.c;
  }

  lemma LastDayIsLeap(p: Place, era: nat)
    requires p.Ok() && p.doy == 365
    ensures Leap(p.Year() + era * 400 + 1)
  {
    var y := p.Year() + era * 400 + 1;
    QuotientIs(y, 25 * p.c + p.q + 1 + 100 * era, 0, 4);
    if p.q < 24 {
      QuotientIs(y, p.c + 4 * era, 4 * (p.q + 1), 100);
    } else {
      QuotientIs(y, era + 1, 0, 400);
    }
  }

  // ----- Closed form of the year count -----

  function Leaps(n: nat): int { n / 4 - n / 100 + n / 400 }

  lemma LeapsStep(n: nat)
    ensures Leaps(n + 1) == Leaps(n) + LeapDay(n + 1)
  {
    hide Leap;
    Carries(n, 4); Carries(n, 100); Carries(n, 400);
    LeapRule(n + 1);
  }

  function Divides(k: nat, n: nat): nat
    requires k > 0
  {
    if n % k == 0 then 1 else 0
  }

  lemma LeapRule(y: nat)
    ensures LeapDay(y) == Divides(4, y) - Divides(100, y) + Divides(400, y)
  {
    if y % 400 == 0 { QuotientIs(y, 4 * (y / 400), 0, 100); }
    if y % 100 == 0 { QuotientIs(y, 25 * (y / 100), 0, 4); }
  }

  /** A quotient grows by one exactly at the multiples of its divisor. */
  lemma Carries(n: nat, k: nat)
    requires k > 1
    ensures (n + 1) / k == n / k + Divides(k, n + 1)
  {
    var q, r := n / k, n % k;
    assert n == q * k + r;
    if r + 1 < k {
      QuotientIs(n + 1, q, r + 1, k);
    } else {
      assert n + 1 == (q + 1) * k;
      QuotientIs(n + 1, q + 1, 0, k);
    }
  }

  lemma {:induction false} DaysBeforeYearIs(y: nat)
    requires y >= 1970
    ensures DaysBeforeYear(y) == 365 * (y - 1970) + Leaps(y - 1) - 477
  {
    hide Leaps, Leap;
    if y == 1970 {
      LeapsAtEpoch();
    } else {
      DaysBeforeYearIs(y - 1);
      LeapsStep(y - 2);
    }
  }

  lemma LeapsAtEpoch()
    ensures Leaps(1969) == 477
  {}

  lemma LeapsOfEra(yoe: nat, era: nat)
    requires yoe < 400
    ensures 365 * (yoe + era * 400) + Leaps(yoe + era * 400) == era * 146097 + EraYearStart(yoe)
  {
    var y := yoe + era * 400;
    assert y / 400 == era;
    assert y / 100 == yoe / 100 + 4 * era;
    assert y / 4 == yoe / 4 + 100 * era;
  }

  // ----- Months -----

  /** A day of the March year, as month and day of the calendar year. */
  lemma MonthOf(y: nat, doy: nat)
    requires doy < 366 && (doy == 365 ==> Leap(y + 1))
    ensures var t := FromMarch(y, doy);
            1 <= t.month <= 12 && t.year == y + (if doy >= 306 then 1 else 0) &&
            1 <= t.day <= MonthLength(t.year, t.month) &&
            DaysBeforeMonth(t.year, t.month) + t.day - 1 == if doy >= 306 then doy - 306 else doy + 59 + LeapDay(y)
  {
    hide Leap;
    var mp := (5 * doy + 2) / 153;
    MonthStarts(mp);
    var start := (153 * mp + 2) / 5;
    assert mp < 12 && start <= doy;
  }

  lemma MonthStarts(mp: nat)
    ensures mp < 12 ==> (153 * mp + 2) / 5 == [0, 31, 61, 92, 122, 153, 184, 214, 245, 275, 306, 337][mp]
  {}

  // ----- Round trips -----

  /** The source's divisions split a day number into a March year and a day of it. */
  lemma SplitDays(days: nat) returns (y: nat, doy: nat)
    ensures doy < 366 && (doy == 365 ==> Leap(y + 1))
    ensures days + 719468 == 365 * y + Leaps(y) + doy
    ensures CivilFromDays(days) == FromMarch(y, doy)
  {
    hide Leap, Leaps, YearOfEra, EraYearStart, FromMarch, CivilFromDays;
    var era, doe := EraOf(days + 719468);
    CivilIs(days, era, doe);
    var yoe, d := SplitEra(doe, era);
    LeapsOfEra(yoe, era);
    y, doy := yoe + era * 400, d;
  }

  lemma SplitEra(doe: nat, era: nat) returns (yoe: nat, doy: nat)
    requires doe < 146097
    ensures yoe < 400 && doy < 366 && YearOfEra(doe) == yoe && EraYearStart(yoe) + doy == doe
    ensures doy == 365 ==> Leap(yoe + era * 400 + 1)
  {
    hide Leap, YearOfEra, EraYearStart;
    var p := PlaceOf(doe);
    YearOfEraIs(p);
    yoe, doy := p.Year(), p.doy;
    if doy == 365 { LastDayIsLeap(p, era); }
  }

  lemma EraOf(z: nat) returns (era: nat, doe: nat)
    ensures z == era * 146097 + doe && doe < 146097
  {
    era, doe := z / 146097, z % 146097;
  }

  lemma CivilIs(days: nat, era: nat, doe: nat)
    requires days + 719468 == era * 146097 + doe && doe < 146097
    ensures CivilFromDays(days) == FromMarch(YearOfEra(doe) + era * 400, doe - EraYearStart(YearOfEra(doe)))
  {
    hide YearOfEra, EraYearStart, FromMarch;
    QuotientIs(days + 719468, era, doe, 146097);
  }

  /** The date of every day number is valid, and the year loop counts it back. */
  lemma DaysRoundTrip(days: nat)
    ensures var t := CivilFromDays(days);
            t.year >= 1970 && t.month >= 1 && t.day >= 1 && ValidDay(t.year, t.month, t.day) &&
            DayNumber(t.year, t.month, t.day) == days
    ensures 365 * (CivilFromDays(days).year - 1970) <= days
  {
    hide Leap, Leaps, FromMarch, MonthLength, DaysBeforeMonth, DaysBeforeYear, CivilFromDays;
    var y, doy := SplitDays(days);
    MonthOf(y, doy);
    AfterEpoch(y, doy);
    CountedBack(y, doy);
  }

  lemma AfterEpoch(y: nat, doy: nat)
    requires doy < 366 && 365 * y + Leaps(y) + doy >= 719468
    ensures y >= 1969 && (y == 1969 ==> doy >= 306)
  {}

  /** Days to the new year before or inside a March year. */
  lemma {:induction false} CountedBack(y: nat, doy: nat)
    requires doy < 366 && y >= 1969 && (y == 1969 ==> doy >= 306)
    ensures DaysBeforeYear(if doy >= 306 then y + 1 else y) + (if doy >= 306 then doy - 306 else doy + 59 + LeapDay(y))
            == 365 * y + Leaps(y) + doy - 719468
    ensures 365 * ((if doy >= 306 then y + 1 else y) - 1970) <= DaysBeforeYear(if doy >= 306 then y + 1 else y)
  {
    hide Leap, Leaps, DaysBeforeYear;
    YearsAreLong(if doy >= 306 then y + 1 else y);
    if doy >= 306 {
      DaysBeforeYearIs(y + 1);
    } else {
      DaysBeforeYearIs(y);
      LeapsStep(y - 1);
    }
  }

  lemma {:induction false} YearsAreLong(y: nat)
    requires y >= 1970
    ensures 365 * (y - 1970) <= DaysBeforeYear(y)
  {
    hide Leap;
    if y > 1970 { YearsAreLong(y - 1); }
  }

  /** Every 32-bit second count becomes a valid date whose year loop counts the same second. */
  lemma SecondsRoundTrip(seconds: nat)
    requires seconds < 0x1_0000_0000
    ensures Valid(UnixSecondsToUtc(seconds)) && UnixSeconds(UnixSecondsToUtc(seconds)) == seconds
    ensures UnixSecondsToUtc(seconds).year <= 2106
  {
    hide CivilFromDays, MonthLength, DayNumber;
    DaysRoundTrip(seconds / 86400);
    ClockRoundTrip(seconds);
  }

  lemma ClockRoundTrip(seconds: nat)
    ensures var ofDay := seconds % 86400;
            ofDay / 3600 < 24 && (ofDay % 3600) / 60 < 60 && ofDay % 60 < 60 &&
            seconds / 86400 * 86400 + ofDay / 3600 * 3600 + (ofDay % 3600) / 60 * 60 + ofDay % 60 == seconds
  {}

  // ----- The other direction -----

  /** Day numbers name valid days one to one. */
  lemma DayNumberInjective(s: Date, t: Date)
    requires s.year >= 0 && s.month >= 1 && s.day >= 1 && ValidDay(s.year, s.month, s.day)
    requires t.year >= 0 && t.month >= 1 && t.day >= 1 && ValidDay(t.year, t.month, t.day)
    requires DayNumber(s.year, s.month, s.day) == DayNumber(t.year, t.month, t.day)
    ensures s == t
  {
    InsideYear(s); InsideYear(t);
    hide Leap, MonthLength, DaysBeforeMonth;
    if s.year < t.year { YearsGrow(s.year + 1, t.year); }
    if t.year < s.year { YearsGrow(t.year + 1, s.year); }
    SameYear(s, t);
  }

  lemma InsideYear(t: Date)
    requires t.year >= 0 && t.month >= 1 && t.day >= 1 && ValidDay(t.year, t.month, t.day)
    ensures DaysBeforeMonth(t.year, t.month) + t.day <= 365 + LeapDay(t.year)
  {}

  lemma {:induction false} YearsGrow(a: nat, b: nat)
    requires a <= b
    ensures DaysBeforeYear(a) <= DaysBeforeYear(b)
  {
    hide Leap;
    if a < b { YearsGrow(a, b - 1); }
  }

  lemma MonthsGrow(y: nat, m: nat, n: nat)
    requires 1 <= m < n <= 12
    ensures DaysBeforeMonth(y, m) + MonthLength(y, m) <= DaysBeforeMonth(y, n)
  {}

  lemma SameYear(s: Date, t: Date)
    requires s.year == t.year >= 0 && s.month >= 1 && s.day >= 1 && ValidDay(s.year, s.month, s.day)
    requires t.month >= 1 && t.day >= 1 && ValidDay(t.year, t.month, t.day)
    requires DaysBeforeMonth(s.year, s.month) + s.day == DaysBeforeMonth(t.year, t.month) + t.day
    ensures s == t
  {
    hide Leap, MonthLength, DaysBeforeMonth;
    if s.month < t.month { MonthsGrow(s.year, s.month, t.month); }
    if t.month < s.month { MonthsGrow(t.year, t.month, s.month); }
  }

  /** Every valid date whose second count fits 32 bits is found again. */
  lemma DatesRoundTrip(t: DateTime)
    requires Valid(t) && UnixSeconds(t) < 0x1_0000_0000
    ensures UnixSecondsToUtc(UnixSeconds(t)) == t
  {
    hide CivilFromDays, MonthLength, DaysBeforeYear, DaysBeforeMonth;
    var seconds := UnixSeconds(t);
    var days := DayNumber(t.year, t.month, t.day);
    ClockIs(days, t.hour, t.minute, t.second);
    DaysRoundTrip(days);
    DayNumberInjective(CivilFromDays(days), Date(t.year, t.month, t.day));
    SecondsRoundTrip(seconds);
  }

  lemma ClockIs(days: nat, h: nat, m: nat, s: nat)
    requires h < 24 && m < 60 && s < 60
    ensures var x := days * 86400 + h * 3600 + m * 60 + s;
            x / 86400 == days && x % 86400 / 3600 == h && x % 86400 % 3600 / 60 == m && x % 86400 % 60 == s
  {}

  // ----- The GPS time stamp of the log -----

  datatype GpsTime = GpsTime(valid: bool, time: DateTime)

  predicate Plausible(g: GpsTime) {
    var t := g.time;
    g.valid && t.year >= 1980 && 1 <= t.month <= 12 && 1 <= t.day <= 31 && t.hour <= 23 && t.minute <= 59 && t.second <= 60
  }

  /** The low 32 bits of the second count, or zero. */
  function EpochOf(g: GpsTime): nat {
    if Plausible(g) then UnixSeconds(g.time) % 0x1_0000_0000 else 0
  }

  /** Until the count leaves 32 bits, zero means a time that is not plausible, and every plausible time
      that the calendar has is found again from its stamp. */
  lemma StampRoundTrip(g: GpsTime)
    requires Plausible(g) ==> UnixSeconds(g.time) < 0x1_0000_0000
    ensures var t := g.time;
            EpochOf(g) == 0 <==>
              !g.valid || t.year < 1980 || t.month == 0 || t.month > 12 || t.day == 0 || t.day > 31 ||
              t.hour > 23 || t.minute > 59 || t.second > 60
    ensures Plausible(g) && Valid(g.time) ==> UnixSecondsToUtc(EpochOf(g)) == g.time
  {
    hide UnixSecondsToUtc, DaysBeforeMonth, MonthLength, DaysBeforeYear;
    if Plausible(g) {
      YearsAreLong(g.time.year);
      if Valid(g.time) { DatesRoundTrip(g.time); }
    }
  }

  /** `gpsDateTimeToEpoch` */
  method GpsDateTimeToEpoch(g: GpsTime) returns (epoch: nat)
    ensures epoch == EpochOf(g)
  {
    if !g.valid { return 0; }
    var t := g.time;
    if t.year < 1980 || t.month < 1 || t.month > 12 || t.day < 1 ||
       t.day > 31 || t.hour > 23 || t.minute > 59 || t.second > 60 {
      return 0;
    }
    epoch := DateTimeToUnixSeconds(t);
    epoch := epoch % 0x1_0000_0000;
  }
}
