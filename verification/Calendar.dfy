/** nginx/src/core/ngx_times.c: from seconds since 1970 to the date and time of day. */
module Calendar {

  /** ngx_tm_t; months count from 1, weekdays from Sunday == 0 */
  datatype Tm = Tm(sec: int, min: int, hour: int, mday: int, mon: int, year: int, wday: int)

  // ----- the Gregorian calendar, counted day by day -----

  predicate Leap(y: int) { y % 4 == 0 && (y % 100 != 0 || y % 400 == 0) }

  function One(b: bool): int { if b then 1 else 0 }

  function MonthLength(y: int, m: int): int {
    if m == 2 then 28 + One(Leap(y)) else if m == 4 || m == 6 || m == 9 || m == 11 then 30 else 31
  }

  predicate IsDate(y: int, m: int, d: int) { 1970 <= y && 1 <= m <= 12 && 1 <= d <= MonthLength(y, m) }

  /** Days from January 1, 1970 to January 1 of year y. */
  function DaysBeforeYear(y: int): int
    requires 1970 <= y
    decreases y
  {
    if y == 1970 then 0 else DaysBeforeYear(y - 1) + 365 + One(Leap(y - 1))
  }

  /** Days from January 1 to the first day of month m. */
  function DaysBeforeMonth(y: int, m: int): int
    requires 1 <= m <= 12
    decreases m
  {
    if m == 1 then 0 else DaysBeforeMonth(y, m - 1) + MonthLength(y, m - 1)
  }

  function DayNumber(y: int, m: int, d: int): int
    requires IsDate(y, m, d)
  {
    DaysBeforeYear(y) + DaysBeforeMonth(y, m) + d - 1
  }

  /** January 1, 1970 was a Thursday. */
  function Weekday(day: nat): int { if day == 0 then 4 else (Weekday(day - 1) + 1) % 7 }

  // ----- ngx_gmtime -----

  const EPOCH := 719527 - (31 + 28)     // January 1, 1970 counted from March 1 of year 0

  /** Days from March 1 of year 0 to March 1 of year y. */
  function March(y: int): int { 365 * y + y / 4 - y / 100 + y / 400 }

  /** Gauss' estimate of the year that began before day d. */
  function Estimate(d: int): int { (d + 2) * 400 / (365 * 400 + 100 - 4 + 1) }

  datatype Date = Date(year: int, mon: int, mday: int)

  /** The date of day d, counted from March 1 of year 0. */
  function DateOf(d: int): Date {
    var estimate := Estimate(d);
    var rest := d - March(estimate);
    DateIn(if rest < 0 then estimate - 1 else estimate, if rest < 0 then 365 + One(Leap(estimate)) + rest else rest)
  }

  /** Month and day of the month, in the year that began on March 1. */
  function DateIn(year: int, yday: int): Date {
    var mon := (yday + 31) * 10 / 306;
    var mday := yday - (367 * mon / 12 - 30) + 1;
    if yday >= 306 then Date(year + 1, mon - 10, mday) else Date(year, mon + 2, mday)
  }

  /** ngx_gmtime */
  function GmTime(t: nat): Tm {
    var days := t / 86400;
    var n := t % 86400;
    var date := DateOf(days + EPOCH);
    Tm(n % 3600 % 60, n % 3600 / 60, n / 3600, date.mday, date.mon, date.year, (4 + days) % 7)
  }

  /** The estimate is never low and at most one too high. */
  lemma EstimateIs(d: int)
    requires d >= 0
    ensures d < March(Estimate(d) + 1)
    ensures March(Estimate(d) - 1) <= d
  {
  }

  lemma NextMarch(y: int)
    ensures March(y) == March(y - 1) + 365 + One(Leap(y))
  {
    assert y / 4 == (y - 1) / 4 + One(y % 4 == 0);
    assert y / 100 == (y - 1) / 100 + One(y % 100 == 0);
    assert y / 400 == (y - 1) / 400 + One(y % 400 == 0);
    Centuries(y);
  }

  lemma Centuries(y: int)
    ensures (y % 400 == 0 ==> y % 100 == 0) && (y % 100 == 0 ==> y % 4 == 0)
  {
    if y % 400 == 0 {
      assert y == 100 * (4 * (y / 400));
      Hundreds(4 * (y / 400));
    }
    if y % 100 == 0 {
      assert y == 4 * (25 * (y / 100));
      Fours(25 * (y / 100));
    }
  }

  lemma Hundreds(k: int)
    ensures 100 * k % 100 == 0
  {
  }

  lemma Fours(k: int)
    ensures 4 * k % 4 == 0
  {
  }

  lemma {:induction false} YearIs(y: int)
    requires 1970 <= y
    ensures DaysBeforeYear(y) == March(y - 1) + 306 - EPOCH
    decreases y
  {
    if y > 1970 {
      YearIs(y - 1);
      NextMarch(y - 1);
    }
  }

  /** Days from March 1 to the first day of the k-th month after it. */
  function Cumulative(k: nat): int {
    match k
    case 0 => 0 case 1 => 31 case 2 => 61 case 3 => 92 case 4 => 122 case 5 => 153 case 6 => 184 case 7 => 214
    case 8 => 245 case 9 => 275 case 10 => 306 case 11 => 337 case _ => 367
  }

  /** The empirical formulas for month and day. */
  lemma MonthIs(yday: int) returns (k: nat)
    requires 0 <= yday <= 365
    ensures k < 12 && Cumulative(k) <= yday < Cumulative(k + 1) && (yday >= 306 <==> k >= 10)
    ensures (yday + 31) * 10 / 306 == k + 1 && 367 * (k + 1) / 12 - 30 == Cumulative(k)
  {
    k := (yday + 31) * 10 / 306 - 1;
    if k < 6 {
      if k == 0 {} else if k == 1 {} else if k == 2 {} else if k == 3 {} else if k == 4 {} else {}
    } else {
      if k == 6 {} else if k == 7 {} else if k == 8 {} else if k == 9 {} else if k == 10 {} else {}
    }
  }

  /** The months of a year that begins in March, in the year's own order. */
  lemma MonthsFromMarch(y: int)
    ensures forall k: nat :: k < 10 ==> DaysBeforeMonth(y, k + 3) == 59 + One(Leap(y)) + Cumulative(k)
    ensures DaysBeforeMonth(y, 1) == 0 && DaysBeforeMonth(y, 2) == 31
  {
    assert DaysBeforeMonth(y, 3) == 59 + One(Leap(y));
    assert DaysBeforeMonth(y, 6) == DaysBeforeMonth(y, 3) + 92;
    assert DaysBeforeMonth(y, 9) == DaysBeforeMonth(y, 6) + 92;
    assert DaysBeforeMonth(y, 12) == DaysBeforeMonth(y, 9) + 91;
    forall k: nat | k < 10 ensures DaysBeforeMonth(y, k + 3) == 59 + One(Leap(y)) + Cumulative(k) {
      if k == 0 {} else if k == 1 {} else if k == 2 {} else if k == 3 {} else if k == 4 {}
      else if k == 5 {} else if k == 6 {} else if k == 7 {} else if k == 8 {} else {}
    }
  }

  /** A day of the year that begins in March, as a date. */
  lemma DateFromMarch(y: int, yday: int, k: nat)
    requires 1969 <= y && k < 12 && 0 <= yday < 365 + One(Leap(y + 1)) && Cumulative(k) <= yday < Cumulative(k + 1)
    requires y == 1969 ==> k >= 10
    ensures var year, mon := if k >= 10 then y + 1 else y, if k >= 10 then k - 9 else k + 3;
      && IsDate(year, mon, yday - Cumulative(k) + 1)
      && DayNumber(year, mon, yday - Cumulative(k) + 1) == March(y) + yday - EPOCH
  {
    if k >= 10 {
      YearIs(y + 1);
      MonthsFromMarch(y + 1);
    } else {
      YearIs(y);
      NextMarch(y);
      MonthsFromMarch(y);
      if k < 5 {
        if k == 0 {} else if k == 1 {} else if k == 2 {} else if k == 3 {} else {}
      } else {
        if k == 5 {} else if k == 6 {} else if k == 7 {} else if k == 8 {} else {}
      }
    }
  }

  lemma {:induction false} WeekdayIs(day: nat)
    ensures Weekday(day) == (4 + day) % 7
  {
    if day > 0 {
      WeekdayIs(day - 1);
      NextDay(day + 3);
    }
  }

  lemma NextDay(x: nat)
    ensures (x % 7 + 1) % 7 == (x + 1) % 7
  {
    assert x + 1 == x / 7 * 7 + (x % 7 + 1);
    if x % 7 == 6 { assert x + 1 == (x / 7 + 1) * 7; }
  }

  lemma TimeOfDay(n: nat)
    requires n < 86400
    ensures 0 <= n / 3600 < 24 && 0 <= n % 3600 / 60 < 60 && 0 <= n % 3600 % 60 < 60
    ensures n == n / 3600 * 3600 + n % 3600 / 60 * 60 + n % 3600 % 60
  {
  }

  lemma DateIs(d: int)
    requires d >= EPOCH
    ensures var date := DateOf(d);
      IsDate(date.year, date.mon, date.mday) && DayNumber(date.year, date.mon, date.mday) == d - EPOCH
  {
    var y, yday := YearOf(d);
    var k := MonthIs(yday);
    Since1970(d, y);
    DateFromMarch(y, yday, k);
  }

  /** The estimate, corrected. */
  lemma YearOf(d: int) returns (y: int, yday: int)
    requires d >= 0
    ensures yday == d - March(y) && 0 <= yday < 365 + One(Leap(y + 1)) && DateOf(d) == DateIn(y, yday)
  {
    var e := Estimate(d);
    var before, here, after := March(e - 1), March(e), March(e + 1);
    assert before <= d < after by { EstimateIs(d); }
    assert here == before + 365 + One(Leap(e)) by { NextMarch(e); }
    assert after == here + 365 + One(Leap(e + 1)) by { NextMarch(e + 1); }
    if d < here { y, yday := e - 1, d - before; } else { y, yday := e, d - here; }
  }

  /** The closed forms agree with counting: the date is a date of the Gregorian calendar,
      its day number is the day of t, the weekday is right, and the time of day makes up
      the rest of t. */
  lemma GmTimeIs(t: nat)
    ensures var tm := GmTime(t);
      && IsDate(tm.year, tm.mon, tm.mday) && DayNumber(tm.year, tm.mon, tm.mday) == t / 86400
      && tm.wday == Weekday(t / 86400)
      && 0 <= tm.hour < 24 && 0 <= tm.min < 60 && 0 <= tm.sec < 60
      && t == t / 86400 * 86400 + tm.hour * 3600 + tm.min * 60 + tm.sec
  {
    DateIs(t / 86400 + EPOCH);
    WeekdayIs(t / 86400);
    TimeOfDay(t % 86400);
    assert t == t / 86400 * 86400 + t % 86400;
  }

  lemma Since1970(d: int, y: int)
    requires d >= EPOCH && March(y) <= d && d - March(y) < 366
    ensures 1969 <= y && (y == 1969 ==> d - March(y) >= 306)
  {
    assert March(1969) == 719162 && March(1968) == 718797;
  }

  /** No other date has that day number. */
  lemma {:induction false} LaterYear(y: int, z: int, m: int, d: int)
    requires IsDate(y, m, d) && y < z
    ensures DayNumber(y, m, d) < DaysBeforeYear(z)
    decreases z
  {
    if z == y + 1 {
      YearLength(y, m);
    } else {
      LaterYear(y, z - 1, m, d);
    }
  }

  lemma {:induction false} YearLength(y: int, m: int)
    requires 1 <= m <= 12
    ensures DaysBeforeMonth(y, m) + MonthLength(y, m) <= 365 + One(Leap(y)) && DaysBeforeMonth(y, m) >= 0
    decreases 12 - m
  {
    MonthsFromMarch(y);
    if m >= 3 { assert DaysBeforeMonth(y, m) == 59 + One(Leap(y)) + Cumulative(m - 3); }
  }

  lemma {:induction false} LaterMonth(y: int, m: int, k: int, d: int)
    requires IsDate(y, m, d) && m < k <= 12
    ensures DaysBeforeMonth(y, m) + d - 1 < DaysBeforeMonth(y, k)
    decreases k
  {
    if k > m + 1 { LaterMonth(y, m, k - 1, d); }
  }

  lemma OneDate(y: int, m: int, d: int, y': int, m': int, d': int)
    requires IsDate(y, m, d) && IsDate(y', m', d') && DayNumber(y, m, d) == DayNumber(y', m', d')
    ensures y == y' && m == m' && d == d'
  {
    YearLength(y, m);
    YearLength(y', m');
    if y < y' { LaterYear(y, y', m, d); }
    if y' < y { LaterYear(y', y, m', d'); }
    if m < m' { LaterMonth(y, m, m', d); }
    if m' < m { LaterMonth(y, m', m, d'); }
  }
}
