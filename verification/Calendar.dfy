/**
 * Broadcast start times: Modified Julian Date and BCD time of day to seconds
 * since 1970 (Annex C and section 5.2.4 of ETSI EN 300 468), and the calendar
 * arithmetic below it. Doubles are replaced by exact scaled integers.
 */
module Calendar {

  // ---------------------------------------------------------------- calendar

  predicate Leap(y: int) {
    y % 4 == 0 && (y % 100 != 0 || y % 400 == 0)
  }

  function LeapDay(y: int): int {
    if Leap(y) then 1 else 0
  }

  const DAYS_BEFORE: seq<int> := [0, 31, 59, 90, 120, 151, 181, 212, 243, 273, 304, 334, 0]

  /** Years count from 1900 and months from 0, as in the C library. */
  predicate Accepted(year: int, month: int, mday: int, hour: int, minute: int, second: int) {
    && 70 <= year && 0 <= month <= 11 && 1 <= mday <= 31
    && 0 <= hour <= 23 && 0 <= minute <= 59 && 0 <= second <= 59
  }

  /** Leap days of the years 1970 up to, not including, 1900 + `year`. */
  function LeapDaysBefore(year: int): int
    requires 70 <= year
  {
    if year == 70 then 0 else LeapDaysBefore(year - 1) + LeapDay(1900 + year - 1)
  }

  function DayNumber(year: int, month: int, mday: int): int
    requires 70 <= year && 0 <= month <= 11
  {
    365 * (year - 70) + DAYS_BEFORE[month] + mday - 1
    + LeapDaysBefore(year) + (if month > 1 then LeapDay(1900 + year) else 0)
  }

  function Seconds(days: int, hour: int, minute: int, second: int): int {
    ((24 * days + hour) * 60 + minute) * 60 + second
  }

  function Timegm(year: int, month: int, mday: int, hour: int, minute: int, second: int): int {
    if !Accepted(year, month, mday, hour, minute, second) then -1
    else Seconds(DayNumber(year, month, mday), hour, minute, second)
  }

  /** The leap days are added year by year. */
  method SessionTimegm(year: int, month: int, mday: int, hour: int, minute: int, second: int) returns (t: int)
    ensures t == Timegm(year, month, mday, hour, minute, second)
  {
    if year < 70 || month < 0 || month > 11 || mday < 1 || mday > 31 ||
       hour < 0 || hour > 23 || minute < 0 || minute > 59 || second < 0 || second > 59
    {
      return -1;
    }
    var day := 365 * (year - 70) + DAYS_BEFORE[month] + mday - 1;
    ghost var start := day;
    for i := 70 to year
      invariant day == start + LeapDaysBefore(i)
    {
      day := day + LeapDay(1900 + i);
    }
    if month > 1 {
      day := day + LeapDay(1900 + year);
    }
    return ((24 * day + hour) * 60 + minute) * 60 + second;
  }

  /** Leap years among the years 1 to `y`. */
  function LeapYearsUpTo(y: int): int {
    y / 4 - y / 100 + y / 400
  }

  lemma DivStep(y: int, k: int)
    requires k in {4, 100, 400}
    ensures (y + 1) / k == y / k + (if (y + 1) % k == 0 then 1 else 0)
  {
  }

  lemma LeapYearStep(y: int)
    ensures LeapYearsUpTo(y + 1) == LeapYearsUpTo(y) + LeapDay(y + 1)
  {
    DivStep(y, 4);
    DivStep(y, 100);
    DivStep(y, 400);
    assert (y + 1) % 400 == 0 ==> (y + 1) % 100 == 0 by {
      assert y + 1 == 100 * (4 * ((y + 1) / 400)) + (y + 1) % 400;
    }
    assert (y + 1) % 100 == 0 ==> (y + 1) % 4 == 0 by {
      assert y + 1 == 4 * (25 * ((y + 1) / 100)) + (y + 1) % 100;
    }
  }

  /** The leap-year loop equals the closed-form count, for every year. */
  lemma {:induction false} LeapLoopClosedForm(year: int)
    requires 70 <= year
    ensures LeapDaysBefore(year) == LeapYearsUpTo(1900 + year - 1) - LeapYearsUpTo(1969)
  {
    if year > 70 {
      LeapLoopClosedForm(year - 1);
      LeapYearStep(1900 + year - 2);
    }
  }

  lemma {:induction false} LeapDaysPositive(year: int)
    requires 70 <= year
    ensures LeapDaysBefore(year) >= 0
  {
    if year > 70 {
      LeapDaysPositive(year - 1);
    }
  }

  /** Exactly the fields outside these ranges are refused; 30 February is not. */
  lemma RefusedExactly(year: int, month: int, mday: int, hour: int, minute: int, second: int)
    ensures Timegm(year, month, mday, hour, minute, second) == -1 <==>
            year < 70 || month < 0 || month > 11 || mday < 1 || mday > 31 || hour < 0 || hour > 23
            || minute < 0 || minute > 59 || second < 0 || second > 59
  {
    if Accepted(year, month, mday, hour, minute, second) {
      LeapDaysPositive(year);
    }
  }

  // ---------------------------------------------------------------- the clock

  datatype DateTime = DateTime(year: int, month: int, mday: int, hour: int, minute: int, second: int)

  function MonthLength(year: int, month: int): int {
    if month == 1 then 28 + LeapDay(1900 + year)
    else if month in {3, 5, 8, 10} then 30
    else 31
  }

  /** A real Gregorian date and time of day, 1970 or later. */
  predicate Real(d: DateTime) {
    Accepted(d.year, d.month, d.mday, d.hour, d.minute, d.second) && d.mday <= MonthLength(d.year, d.month)
  }

  function NextDay(d: DateTime): DateTime {
    if d.mday < MonthLength(d.year, d.month) then d.(mday := d.mday + 1)
    else if d.month < 11 then d.(month := d.month + 1, mday := 1)
    else d.(year := d.year + 1, month := 0, mday := 1)
  }

  /** The wall clock one second later. */
  function NextSecond(d: DateTime): DateTime {
    if d.second < 59 then d.(second := d.second + 1)
    else if d.minute < 59 then d.(minute := d.minute + 1, second := 0)
    else if d.hour < 23 then d.(hour := d.hour + 1, minute := 0, second := 0)
    else NextDay(d.(hour := 0, minute := 0, second := 0))
  }

  function Stamp(d: DateTime): int {
    Timegm(d.year, d.month, d.mday, d.hour, d.minute, d.second)
  }

  lemma NextDayCounts(d: DateTime)
    requires Real(d)
    ensures Real(NextDay(d)) && DayNumber(NextDay(d).year, NextDay(d).month, NextDay(d).mday) ==
                                DayNumber(d.year, d.month, d.mday) + 1
  {
    hide Leap;
    assert LeapDaysBefore(d.year + 1) == LeapDaysBefore(d.year) + LeapDay(1900 + d.year);
    hide LeapDaysBefore;
  }

  lemma NextDayKeepsTime(d: DateTime)
    ensures NextDay(d).hour == d.hour && NextDay(d).minute == d.minute && NextDay(d).second == d.second
  {
  }

  /** Consecutive seconds have consecutive stamps; the clock never leaves the
      real date-times. */
  lemma StampCountsSeconds(d: DateTime)
    requires Real(d)
    ensures Real(NextSecond(d)) && Stamp(NextSecond(d)) == Stamp(d) + 1
  {
    hide DayNumber, NextDay, MonthLength;
    var midnight := d.(hour := 0, minute := 0, second := 0);
    NextDayCounts(midnight);
    NextDayKeepsTime(midnight);
  }

  /** Chronological order. */
  predicate Before(a: DateTime, b: DateTime) {
    a.year < b.year || (a.year == b.year && (
    a.month < b.month || (a.month == b.month && (
    a.mday < b.mday || (a.mday == b.mday &&
    Seconds(0, a.hour, a.minute, a.second) < Seconds(0, b.hour, b.minute, b.second))))))
  }

  lemma {:induction false} LeapDaysMonotone(a: int, b: int)
    requires 70 <= a <= b
    ensures LeapDaysBefore(a) <= LeapDaysBefore(b)
    decreases b - a
  {
    if a < b {
      LeapDaysMonotone(a, b - 1);
    }
  }

  /** Within a year a day number stays below the year's length. */
  lemma DayInYear(d: DateTime)
    requires Real(d)
    ensures 365 * (d.year - 70) + LeapDaysBefore(d.year) <= DayNumber(d.year, d.month, d.mday)
            < 365 * (d.year + 1 - 70) + LeapDaysBefore(d.year + 1)
  {
  }

  lemma MonthsInOrder(a: DateTime, b: DateTime)
    requires Real(a) && Real(b) && a.year == b.year && a.month < b.month
    ensures DayNumber(a.year, a.month, a.mday) < DayNumber(b.year, b.month, b.mday)
  {
  }

  lemma StampIncreases(a: DateTime, b: DateTime)
    requires Real(a) && Real(b) && Before(a, b)
    ensures Stamp(a) < Stamp(b)
  {
    DayInYear(a);
    DayInYear(b);
    var da, db := DayNumber(a.year, a.month, a.mday), DayNumber(b.year, b.month, b.mday);
    if a.year < b.year {
      LeapDaysMonotone(a.year + 1, b.year);
      assert da < db;
    } else if a.month < b.month {
      MonthsInOrder(a, b);
    }
  }

  /** Stamps respect and reflect the order of real date-times. */
  lemma StampOrder(a: DateTime, b: DateTime)
    requires Real(a) && Real(b)
    ensures Before(a, b) <==> Stamp(a) < Stamp(b)
  {
    if Before(a, b) {
      StampIncreases(a, b);
    } else if a != b {
      StampIncreases(b, a);
    }
  }

  // ---------------------------------------------------------------- Modified Julian Date

  /** C division and conversion to int: towards zero. */
  function TruncDiv(a: int, b: int): int
    requires b > 0
  {
    if a >= 0 then a / b else -((-a) / b)
  }

  /** (mjd - 15078.2) / 365.25, both sides scaled by 20. */
  function YearPrime(mjd: int): int {
    TruncDiv(20 * mjd - 301564, 7305)
  }

  /** The whole days in `yp` Julian years: yp * 365.25. */
  function YearDays(yp: int): int {
    TruncDiv(1461 * yp, 4)
  }

  /** (mjd - 14956.1 - days) / 30.6001, scaled by 10000. */
  function MonthPrime(mjd: int, days: int): int {
    TruncDiv(1000 * (10 * (mjd - days) - 149561), 306001)
  }

  /** mp * 30.6001 */
  function MonthDays(mp: int): int {
    TruncDiv(306001 * mp, 10000)
  }

  function EITDecodeMjd(mjd: int): (int, int, int) {
    var yp := YearPrime(mjd);
    var days := YearDays(yp);
    var mp := MonthPrime(mjd, days);
    var c := if mp == 14 || mp == 15 then 1 else 0;
    (1900 + yp + c, mp - 1 - 12 * c, mjd - 14956 - days - MonthDays(mp))
  }

  /** The day of the Julian year the decoder works in; it starts in March. */
  function MarchDay(mjd: int): int {
    mjd - 14956 - YearDays(YearPrime(mjd))
  }

  lemma YearPrimeBounds(mjd: int)
    requires 15079 <= mjd
    ensures 0 <= YearPrime(mjd) && 123 <= MarchDay(mjd) <= 488
  {
  }

  lemma NoMonthBoundary(d: int)
    requires 123 <= d <= 488
    ensures 1000 * (10 * d - 1) % 306001 != 0
  {
    var n := 10 * d - 1;
    var q, r := 1000 * n / 306001, 1000 * n % 306001;
    assert 1000 * n == 306001 * q + r;
    assert q + r == 1000 * (n - 306 * q);
  }

  /** None of the divided quantities is a whole number, so the rounding of
      doubles cannot push one across. */
  lemma NeverOnABoundary(mjd: int)
    requires 15079 <= mjd
    ensures (20 * mjd - 301564) % 7305 != 0
    ensures 1000 * (10 * (mjd - YearDays(YearPrime(mjd))) - 149561) % 306001 != 0
  {
    YearPrimeBounds(mjd);
    var x := 20 * mjd - 301564;
    assert x == 5 * (1461 * (x / 7305)) + x % 7305;
    assert x == 5 * (4 * mjd - 60313) + 1;
    NoMonthBoundary(MarchDay(mjd));
  }

  /** Month number and day of month for every day of the Julian year. */
  lemma MonthTable(d: int)
    requires 123 <= d <= 488
    ensures var mp := TruncDiv(1000 * (10 * d - 1), 306001);
            && 4 <= mp <= 15 && 1 <= d - MonthDays(mp) <= 31
            && (mp < 14 ==> DAYS_BEFORE[mp - 2] - MonthDays(mp) == -63)
            && (mp >= 14 ==> DAYS_BEFORE[mp - 14] - MonthDays(mp) == -428)
  {
    var mp := TruncDiv(1000 * (10 * d - 1), 306001);
    assert mp == 4 || mp == 5 || mp == 6 || mp == 7 || mp == 8 || mp == 9 ||
           mp == 10 || mp == 11 || mp == 12 || mp == 13 || mp == 14 || mp == 15;
  }

  /** Days the decoder loses to century years its formula takes for leap years. */
  function CenturyError(yp: int): int {
    4 + yp / 100 - (1900 + yp) / 400
  }

  lemma CenturyErrorSign(yp: int)
    requires 0 <= yp
    ensures CenturyError(yp) >= 0 && (CenturyError(yp) == 0 <==> yp < 200)
  {
    assert (1900 + yp) / 400 == (19 + yp / 100) / 4;
  }

  lemma LeapYearParts(yp: int)
    requires 0 <= yp
    ensures LeapYearsUpTo(1900 + yp) == 475 + yp / 4 - (19 + yp / 100) + (1900 + yp) / 400
  {
  }

  lemma LeapDaysThrough(yp: int)
    requires 69 <= yp
    ensures LeapDaysBefore(yp + 1) == yp / 4 - 17 - CenturyError(yp)
  {
    hide LeapDaysBefore, Leap;
    LeapLoopClosedForm(yp + 1);
    LeapYearParts(yp);
    LeapYearParts(69);
    hide LeapYearsUpTo;
  }

  /** The day number of a decoded date, from the parts the decoder splits it in. */
  lemma DecodedDay(yp: int, d: int)
    requires 69 <= yp && 123 <= d <= 488
    ensures var mp := TruncDiv(1000 * (10 * d - 1), 306001);
            var c := if mp == 14 || mp == 15 then 1 else 0;
            && 4 <= mp <= 15 && 1 <= d - MonthDays(mp) <= 31
            && (70 <= yp + c ==>
                  DayNumber(yp + c, mp - 2 - 12 * c, d - MonthDays(mp)) ==
                  365 * yp + yp / 4 + d - 25631 - CenturyError(yp))
  {
    hide MonthDays, TruncDiv, Leap, CenturyError;
    MonthTable(d);
    LeapDaysThrough(yp);
  }

  lemma YearPrimeAtLeast69(mjd: int)
    requires 40587 <= mjd
    ensures 69 <= YearPrime(mjd) && (YearPrime(mjd) == 69 ==> MarchDay(mjd) >= 429)
  {
  }

  lemma JulianYears(yp: int)
    requires 0 <= yp
    ensures YearDays(yp) == 365 * yp + yp / 4
  {
  }

  /** What decoding and converting back yields for every day since 1970. */
  lemma MjdSeconds(mjd: int, hour: int, minute: int, second: int)
    requires 40587 <= mjd && 0 <= hour <= 23 && 0 <= minute <= 59 && 0 <= second <= 59
    ensures var (y, m, d) := EITDecodeMjd(mjd);
            Timegm(y - 1900, m - 1, d, hour, minute, second) ==
            Seconds(mjd - 40587 - CenturyError(YearPrime(mjd)), hour, minute, second)
  {
    hide DayNumber, MonthDays, CenturyError;
    YearPrimeBounds(mjd);
    YearPrimeAtLeast69(mjd);
    DecodedDay(YearPrime(mjd), MarchDay(mjd));
    JulianYears(YearPrime(mjd));
  }

  /** The decoder is exact up to 29 February 2100 as it calls that day, and behind
      by whole days ever after. */
  lemma MjdRoundTrip(mjd: int)
    requires 40587 <= mjd
    ensures var (y, m, d) := EITDecodeMjd(mjd);
            Timegm(y - 1900, m - 1, d, 0, 0, 0) == 86400 * (mjd - 40587) <==> mjd <= 88128
  {
    MjdSeconds(mjd, 0, 0, 0);
    YearPrimeBounds(mjd);
    CenturyErrorSign(YearPrime(mjd));
  }

  /** Days before 1970 are refused whatever the time of day. */
  lemma MjdBefore1970(mjd: int, hour: int, minute: int, second: int)
    requires 0 <= mjd < 40587
    ensures var (y, m, d) := EITDecodeMjd(mjd);
            Timegm(y - 1900, m - 1, d, hour, minute, second) == -1
  {
    if mjd >= 15079 {
      YearPrimeBounds(mjd);
      MonthTable(MarchDay(mjd));
    }
  }

  // ---------------------------------------------------------------- start times

  /** Two BCD digits from the low byte of `v`. */
  function FromBcd(v: nat): nat {
    v / 16 % 16 * 10 + v % 16
  }

  function EITConvertStartTime(date: nat): int {
    var mjd := date / 0x100_0000;
    if date == 0xFF_FFFF_FFFF then -1
    else
      var (y, m, d) := EITDecodeMjd(mjd);
      Timegm(y - 1900, m - 1, d, FromBcd(date / 0x1_0000), FromBcd(date / 0x100), FromBcd(date))
  }

  function EITConvertDuration(duration: nat): nat {
    FromBcd(duration / 0x1_0000) * 3600 + FromBcd(duration / 0x100) * 60 + FromBcd(duration)
  }

  /** The byte that encodes a two-digit number. */
  function ToBcd(n: nat): nat
    requires n < 100
  {
    n / 10 * 16 + n % 10
  }

  function Pack(mjd: nat, hour: nat, minute: nat, second: nat): nat
    requires hour < 100 && minute < 100 && second < 100
  {
    ((mjd * 256 + ToBcd(hour)) * 256 + ToBcd(minute)) * 256 + ToBcd(second)
  }

  lemma BcdByte(high: nat, n: nat)
    requires n < 100
    ensures FromBcd(high * 256 + ToBcd(n)) == n
    ensures (high * 256 + ToBcd(n)) / 256 == high
  {
    var v := high * 256 + ToBcd(n);
    assert v == 16 * (16 * high + n / 10) + n % 10;
    assert v / 16 == 16 * high + n / 10;
  }

  lemma DivTwice(x: nat)
    ensures x / 0x1_0000 == x / 256 / 256 && x / 0x100_0000 == x / 256 / 256 / 256
  {
  }

  lemma PackedFields(mjd: nat, hour: nat, minute: nat, second: nat)
    requires hour < 100 && minute < 100 && second < 100
    ensures var date := Pack(mjd, hour, minute, second);
            && FromBcd(date) == second && FromBcd(date / 0x100) == minute
            && FromBcd(date / 0x1_0000) == hour && date / 0x100_0000 == mjd
  {
    hide FromBcd, ToBcd;
    var h := mjd * 256 + ToBcd(hour);
    var m := h * 256 + ToBcd(minute);
    BcdByte(mjd, hour);
    BcdByte(h, minute);
    BcdByte(m, second);
    DivTwice(Pack(mjd, hour, minute, second));
  }

  /** A well-formed 40-bit start time becomes the exact number of seconds. */
  lemma StartTimeExact(mjd: nat, hour: nat, minute: nat, second: nat)
    requires mjd <= 0xFFFF && hour <= 23 && minute <= 59 && second <= 59
    ensures EITConvertStartTime(Pack(mjd, hour, minute, second)) ==
            if mjd < 40587 then -1 else 86400 * (mjd - 40587) + 3600 * hour + 60 * minute + second
  {
    PackedFields(mjd, hour, minute, second);
    if mjd < 40587 {
      MjdBefore1970(mjd, hour, minute, second);
    } else {
      MjdSeconds(mjd, hour, minute, second);
      YearPrimeBounds(mjd);
      CenturyErrorSign(YearPrime(mjd));
    }
  }

  /** A BCD duration is its value in seconds. */
  lemma DurationExact(hour: nat, minute: nat, second: nat)
    requires hour < 100 && minute < 100 && second < 100
    ensures EITConvertDuration(Pack(0, hour, minute, second)) == 3600 * hour + 60 * minute + second
  {
    PackedFields(0, hour, minute, second);
  }
}
