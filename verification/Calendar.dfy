/** The proleptic Gregorian calendar behind timegm and gmtime_r: broken-down UTC time, its
    second number, and the proof that the two directions are inverse. */
module Calendar {
  const SECS_PER_DAY := 86400

  /** A broken-down time. `mon` counts from 0 and `wday` from Sunday, as in struct tm;
      `year` is the full year (tm_year + 1900). */
  datatype Tm = Tm(year: int, mon: int, mday: int, hour: int, min: int, sec: int, wday: int)

  datatype Date = Date(year: int, mon: int, mday: int) {
    predicate Valid() {
      0 <= mon < 12 && 1 <= mday <= MonthLen(year, mon)
    }
  }

  predicate IsLeap(y: int) {
    y % 4 == 0 && (y % 100 != 0 || y % 400 == 0)
  }

  function MonthLen(y: int, m: int): (n: int)
    requires 0 <= m < 12
    ensures 28 <= n <= 31
  {
    if m == 1 then (if IsLeap(y) then 29 else 28)
    else if m == 3 || m == 5 || m == 8 || m == 10 then 30
    else 31
  }

  function YearLen(y: int): (n: int)
    ensures 365 <= n <= 366
  {
    if IsLeap(y) then 366 else 365
  }

  /** Day number of January 1 of year y, counting from 1970-01-01. */
  function YearStart(y: int): int
    decreases if y > 1970 then y - 1970 else 1970 - y
  {
    if y == 1970 then 0
    else if y > 1970 then YearStart(y - 1) + YearLen(y - 1)
    else YearStart(y + 1) - YearLen(y)
  }

  /** Days of year y before month m. */
  function MonthStart(y: int, m: int): (n: int)
    requires 0 <= m <= 12
    ensures n >= 28 * m
  {
    if m == 0 then 0 else MonthStart(y, m - 1) + MonthLen(y, m - 1)
  }

  function DayNum(y: int, m: int, d: int): int
    requires 0 <= m < 12
  {
    YearStart(y) + MonthStart(y, m) + d - 1
  }

  /** The day after a date, by the calendar's own rule. */
  function NextDate(d: Date): Date
    requires d.Valid()
  {
    if d.mday < MonthLen(d.year, d.mon) then Date(d.year, d.mon, d.mday + 1)
    else if d.mon < 11 then Date(d.year, d.mon + 1, 1)
    else Date(d.year + 1, 0, 1)
  }

  lemma YearStep(y: int)
    ensures YearStart(y + 1) == YearStart(y) + YearLen(y)
    ensures MonthStart(y, 12) == YearLen(y)
  {
    MonthTable(y);
  }

  lemma MonthTable(y: int)
    ensures var l := if IsLeap(y) then 1 else 0;
            && MonthStart(y, 0) == 0 && MonthStart(y, 1) == 31 && MonthStart(y, 2) == 59 + l
            && MonthStart(y, 3) == 90 + l && MonthStart(y, 4) == 120 + l && MonthStart(y, 5) == 151 + l
            && MonthStart(y, 6) == 181 + l && MonthStart(y, 7) == 212 + l && MonthStart(y, 8) == 243 + l
            && MonthStart(y, 9) == 273 + l && MonthStart(y, 10) == 304 + l && MonthStart(y, 11) == 334 + l
            && MonthStart(y, 12) == 365 + l
  {
    assert MonthStart(y, 2) == MonthStart(y, 1) + MonthLen(y, 1);
    assert MonthStart(y, 4) == MonthStart(y, 3) + MonthLen(y, 3);
    assert MonthStart(y, 6) == MonthStart(y, 5) + MonthLen(y, 5);
    assert MonthStart(y, 8) == MonthStart(y, 7) + MonthLen(y, 7);
    assert MonthStart(y, 10) == MonthStart(y, 9) + MonthLen(y, 9);
    assert MonthStart(y, 12) == MonthStart(y, 11) + MonthLen(y, 11);
  }

  /** Day numbers count days: the epoch is day 0 and each calendar step adds one. */
  lemma DayNumCounts(d: Date)
    requires d.Valid()
    ensures DayNum(1970, 0, 1) == 0
    ensures NextDate(d).Valid()
    ensures DayNum(NextDate(d).year, NextDate(d).mon, NextDate(d).mday) == DayNum(d.year, d.mon, d.mday) + 1
  {
    YearStep(d.year);
  }

  /** Counting years one by one agrees with the leap-day formula. */
  lemma {:induction false} YearStartFormula(y: int)
    ensures YearStart(y) == 365 * (y - 1970) + (y - 1) / 4 - (y - 1) / 100 + (y - 1) / 400 - 477
    decreases if y > 1970 then y - 1970 else 1970 - y
  {
    if y > 1970 {
      YearStartFormula(y - 1);
      LeapDays(y - 1);
    } else if y < 1970 {
      YearStartFormula(y + 1);
      LeapDays(y);
    }
  }

  lemma LeapDays(y: int)
    ensures y / 4 - y / 100 + y / 400 == (y - 1) / 4 - (y - 1) / 100 + (y - 1) / 400 + (if IsLeap(y) then 1 else 0)
  {
    DivStep4(y);
    DivStep100(y);
    DivStep400(y);
  }

  lemma DivStep4(y: int)
    ensures y / 4 == (y - 1) / 4 + (if y % 4 == 0 then 1 else 0)
  {
  }

  lemma DivStep100(y: int)
    ensures y / 100 == (y - 1) / 100 + (if y % 100 == 0 then 1 else 0)
    ensures y % 100 == 0 ==> y % 4 == 0
  {
  }

  lemma DivStep400(y: int)
    ensures y / 400 == (y - 1) / 400 + (if y % 400 == 0 then 1 else 0)
    ensures y % 400 == 0 ==> y % 100 == 0
  {
  }

  lemma {:induction false} YearStartMonotone(y: int, z: int)
    requires y <= z
    ensures YearStart(z) >= YearStart(y) + 365 * (z - y)
    decreases z - y
  {
    if y < z {
      YearStartMonotone(y, z - 1);
      YearStep(z - 1);
    }
  }

  lemma {:induction false} MonthStartMonotone(y: int, m: int, n: int)
    requires 0 <= m < n <= 12
    ensures MonthStart(y, n) >= MonthStart(y, m) + MonthLen(y, m)
    decreases n
  {
    if m < n - 1 { MonthStartMonotone(y, m, n - 1); }
  }

  /** A later month begins after every day of an earlier one. */
  lemma MonthsInOrder(y: int, m: int, z: int, n: int)
    requires 0 <= m < 12 && 0 <= n < 12
    requires y < z || (y == z && m < n)
    ensures DayNum(z, n, 1) >= DayNum(y, m, 1) + MonthLen(y, m)
  {
    if y == z {
      MonthStartMonotone(y, m, n);
    } else {
      MonthStartMonotone(y, m, 12);
      YearStep(y);
      YearStartMonotone(y + 1, z);
    }
  }

  function YearOf(n: int, y: int): (r: int)
    ensures YearStart(r) <= n < YearStart(r + 1)
    decreases if n < YearStart(y) then YearStart(y) - n
              else if n >= YearStart(y + 1) then n - YearStart(y + 1) + 1 else 0
  {
    YearStep(y); YearStep(y - 1); YearStep(y + 1);
    if n < YearStart(y) then YearOf(n, y - 1)
    else if n >= YearStart(y + 1) then YearOf(n, y + 1)
    else y
  }

  function MonthOf(y: int, n: int, m: int): (r: int)
    requires 0 <= m < 12 && MonthStart(y, m) <= n < MonthStart(y, 12)
    ensures m <= r < 12 && MonthStart(y, r) <= n < MonthStart(y, r + 1)
    decreases y, n, 12 - m
  {
    if n < MonthStart(y, m + 1) then m else MonthOf(y, n, m + 1)
  }

  /** The date of a day number. */
  function CivilOf(n: int): (d: Date)
    ensures d.Valid()
    ensures DayNum(d.year, d.mon, d.mday) == n
  {
    var y := YearOf(n, 1970);
    YearStep(y);
    var m := MonthOf(y, n - YearStart(y), 0);
    Date(y, m, n - YearStart(y) - MonthStart(y, m) + 1)
  }

  /** No two dates share a day number, so CivilOf inverts DayNum. */
  lemma CivilUnique(d: Date)
    requires d.Valid()
    ensures CivilOf(DayNum(d.year, d.mon, d.mday)) == d
  {
    var e := CivilOf(DayNum(d.year, d.mon, d.mday));
    if e.year < d.year || (e.year == d.year && e.mon < d.mon) {
      MonthsInOrder(e.year, e.mon, d.year, d.mon);
    } else if d.year < e.year || (e.year == d.year && d.mon < e.mon) {
      MonthsInOrder(d.year, d.mon, e.year, e.mon);
    }
  }

  function DayOf(t: int): int {
    t / SECS_PER_DAY
  }

  /** gmtime_r. 1970-01-01 was a Thursday. */
  function GmTime(t: int): Tm {
    var d := CivilOf(DayOf(t));
    Tm(d.year, d.mon, d.mday, t / 3600 % 24, t / 60 % 60, t % 60, (DayOf(t) + 4) % 7)
  }

  /** The value timegm returns: fields outside their usual range carry into the next one up. */
  function TimeGm(tm: Tm): int {
    DayNum(tm.year + tm.mon / 12, tm.mon % 12, tm.mday) * SECS_PER_DAY + tm.hour * 3600 + tm.min * 60 + tm.sec
  }

  /** What timegm leaves in its argument: the same instant with every field in range. */
  function Normalised(tm: Tm): Tm {
    GmTime(TimeGm(tm))
  }

  /** The clock fields of a time are the digits of its second number. */
  lemma ClockFields(t: int)
    ensures var tm := GmTime(t);
            && t == DayOf(t) * SECS_PER_DAY + tm.hour * 3600 + tm.min * 60 + tm.sec
            && 0 <= tm.hour < 24 && 0 <= tm.min < 60 && 0 <= tm.sec < 60
  {
    hide CivilOf, DayNum, YearStart, MonthStart;
    assert t / 60 / 60 == t / 3600;
    assert t / 3600 / 24 == t / 86400;
  }

  /** The same, one unit at a time. */
  lemma Minutes(t: int)
    ensures var tm := GmTime(t);
            && t == t / 60 * 60 + tm.sec && t / 60 == t / 3600 * 60 + tm.min && t / 3600 == DayOf(t) * 24 + tm.hour
            && 0 <= tm.hour < 24 && 0 <= tm.min < 60 && 0 <= tm.sec < 60
  {
    hide CivilOf, DayNum, YearStart, MonthStart;
    assert t / 60 / 60 == t / 3600;
    assert t / 3600 / 24 == t / 86400;
  }

  /** The date fields of a time are those of its day. */
  lemma DateFields(t: int)
    ensures var (tm, d) := (GmTime(t), CivilOf(DayOf(t)));
            && tm.year == d.year && tm.mon == d.mon && tm.mday == d.mday && tm.wday == (DayOf(t) + 4) % 7
            && d.Valid() && DayNum(tm.year, tm.mon, tm.mday) == DayOf(t)
  {
    hide CivilOf, DayNum, YearStart, MonthStart;
  }

  /** timegm is linear in the day of the month and the clock fields. */
  lemma TimeGmAt(tm: Tm)
    requires 0 <= tm.mon < 12
    ensures TimeGm(tm) == DayNum(tm.year, tm.mon, 1) * SECS_PER_DAY + (tm.mday - 1) * SECS_PER_DAY
                          + tm.hour * 3600 + tm.min * 60 + tm.sec
    ensures TimeGm(tm) == DayNum(tm.year, tm.mon, tm.mday) * SECS_PER_DAY
                          + tm.hour * 3600 + tm.min * 60 + tm.sec
  {
    hide YearStart, MonthStart;
    assert tm.mon / 12 == 0 && tm.mon % 12 == tm.mon;
  }

  /** timegm undoes gmtime_r. */
  lemma TimeGmInverts(t: int)
    ensures TimeGm(GmTime(t)) == t
  {
    hide GmTime, TimeGm, CivilOf, DayNum;
    ClockFields(t);
    DateFields(t);
    TimeGmAt(GmTime(t));
  }

  /** Day number and clock fields can be read off a second number. */
  lemma Split(t: int, n: int, hour: int, min: int, sec: int)
    requires t == n * SECS_PER_DAY + hour * 3600 + min * 60 + sec
    requires 0 <= hour < 24 && 0 <= min < 60 && 0 <= sec < 60
    ensures DayOf(t) == n && GmTime(t).hour == hour && GmTime(t).min == min && GmTime(t).sec == sec
  {
    hide GmTime, CivilOf;
    ClockFields(t);
    assert DayOf(t) == n;
  }

  /** gmtime_r undoes timegm on every normalised time, field by field. */
  lemma GmTimeInverts(tm: Tm)
    requires Date(tm.year, tm.mon, tm.mday).Valid()
    requires 0 <= tm.hour < 24 && 0 <= tm.min < 60 && 0 <= tm.sec < 60
    ensures Normalised(tm) == tm.(wday := (DayNum(tm.year, tm.mon, tm.mday) + 4) % 7)
  {
    hide GmTime, TimeGm, CivilOf, DayNum;
    TimeGmAt(tm);
    Split(TimeGm(tm), DayNum(tm.year, tm.mon, tm.mday), tm.hour, tm.min, tm.sec);
    DateFields(TimeGm(tm));
    CivilUnique(Date(tm.year, tm.mon, tm.mday));
  }
}
