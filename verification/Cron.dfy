/** The cron scheduler's next-run search and its test-mode trigger.

    Time points are signed tick counts (nanoseconds) from the epoch, seconds are `int`.  `Search` is the
    search loop as a function of the broken-down time it starts at; `CronScheduler.CalcNextRunTime`
    is the loop itself. */
module Cron {
  import opened Calendar
  import opened Options
  import opened OrderedIntSet

  const TICKS := 1_000_000_000
  const MAX_STEPS := 400

  /** The six field sets of a cron task; an empty set allows every value. */
  datatype Schedule = Schedule(seconds: set<int>, minutes: set<int>, hours: set<int>,
                               days: set<int>, months: set<int>, weekdays: set<int>)

  datatype TaskType = Interval(seconds: int) | Cron(schedule: Schedule)

  datatype Task = Task(kind: TaskType, lastRun: int, nextRun: int, active: bool)

  predicate InRange(s: Schedule) {
    && (forall v | v in s.seconds :: 0 <= v < 60)
    && (forall v | v in s.minutes :: 0 <= v < 60)
    && (forall v | v in s.hours :: 0 <= v < 24)
    && (forall v | v in s.days :: 1 <= v <= 31)
    && (forall v | v in s.months :: 1 <= v <= 12)
    && (forall v | v in s.weekdays :: 0 <= v < 7)
  }

  predicate Allows(field: set<int>, v: int) {
    field == {} || v in field
  }

  predicate DateMatches(s: Schedule, tm: Tm) {
    Allows(s.days, tm.mday) && Allows(s.months, tm.mon + 1) && Allows(s.weekdays, tm.wday)
  }

  predicate Matches(s: Schedule, tm: Tm) {
    && Allows(s.seconds, tm.sec) && Allows(s.minutes, tm.min) && Allows(s.hours, tm.hour)
    && DateMatches(s, tm)
  }

  function First(field: set<int>, default: int): int {
    if field == {} then default else Least(field)
  }

  // ----- the search -----

  /** One jump of the search from a time that does not match, by the first field that fails
      (seconds, minutes, hours, days, months, weekdays). */
  function Jump(s: Schedule, tm: Tm): Tm
    requires !Matches(s, tm)
  {
    if !Allows(s.seconds, tm.sec) then
      match LowerBound(s.seconds, tm.sec + 1)
      case None => tm.(min := tm.min + 1, sec := Least(s.seconds))
      case Some(v) => tm.(sec := v)
    else if !Allows(s.minutes, tm.min) then
      (match LowerBound(s.minutes, tm.min + 1)
       case None => tm.(hour := tm.hour + 1, min := Least(s.minutes))
       case Some(v) => tm.(min := v)).(sec := First(s.seconds, 0))
    else if !Allows(s.hours, tm.hour) then
      (match LowerBound(s.hours, tm.hour + 1)
       case None => tm.(mday := tm.mday + 1, hour := Least(s.hours))
       case Some(v) => tm.(hour := v)).(min := First(s.minutes, 0), sec := First(s.seconds, 0))
    else if !Allows(s.days, tm.mday) then
      AtDayStart(s, tm.(mday := tm.mday + 1))
    else if !Allows(s.months, tm.mon + 1) then
      AtDayStart(s, (match LowerBound(s.months, tm.mon + 2)
                     case None => tm.(year := tm.year + 1, mon := Least(s.months) - 1)
                     case Some(v) => tm.(mon := v - 1)).(mday := First(s.days, 1)))
    else
      AtDayStart(s, tm.(mday := tm.mday + 1))
  }

  function AtDayStart(s: Schedule, tm: Tm): Tm {
    tm.(hour := First(s.hours, 0), min := First(s.minutes, 0), sec := First(s.seconds, 0))
  }

  function Search(s: Schedule, tm: Tm, steps: nat): Option<Tm>
    decreases steps
  {
    if steps == 0 then None
    else if Matches(s, tm) then Some(tm)
    else Search(s, Normalised(Jump(s, tm)), steps - 1)
  }

  /** to_time_t: whole seconds, truncated toward zero. */
  function ToTimeT(tp: int): int {
    if tp >= 0 then tp / TICKS else -((-tp) / TICKS)
  }

  function ToLocalTm(tp: int, tz: int): Tm {
    GmTime(ToTimeT(tp + tz * 60 * TICKS))
  }

  function FromLocalTm(tm: Tm, tz: int): int {
    (TimeGm(tm) - tz * 60) * TICKS
  }

  function NextRun(kind: TaskType, tz: int, from: int): int {
    match kind
    case Interval(n) => from + n * TICKS
    case Cron(s) =>
      match Search(s, ToLocalTm(from + TICKS, tz), MAX_STEPS)
      case Some(tm) => FromLocalTm(tm, tz)
      case None => from + 24 * 365 * 3600 * TICKS
  }

  // ----- no jump passes a match -----

  ghost predicate MatchesAt(s: Schedule, t: int) {
    Matches(s, GmTime(t))
  }

  ghost predicate NoMatchIn(s: Schedule, lo: int, hi: int) {
    forall t :: lo <= t < hi ==> !MatchesAt(s, t)
  }

  /** Every jump moves forward, and no matching second lies between the time it leaves and the
      time it reaches. */
  lemma JumpSkipsNothing(s: Schedule, t: int)
    requires InRange(s) && !MatchesAt(s, t)
    ensures TimeGm(Jump(s, GmTime(t))) > t
    ensures NoMatchIn(s, t, TimeGm(Jump(s, GmTime(t))))
  {
    hide GmTime, TimeGm;
    var tm := GmTime(t);
    if !Allows(s.seconds, tm.sec) {
      SecondJump(s, t);
    } else if !Allows(s.minutes, tm.min) {
      MinuteJump(s, t);
    } else if !Allows(s.hours, tm.hour) {
      HourJump(s, t);
    } else if Allows(s.days, tm.mday) && !Allows(s.months, tm.mon + 1) {
      MonthJump(s, t);
    } else {
      DayJump(s, t);
    }
  }

  /** Where a jump lands, before normalisation. */
  lemma Landing(s: Schedule, t: int)
    requires InRange(s) && !MatchesAt(s, t)
    ensures var (tm, j) := (GmTime(t), Jump(s, GmTime(t)));
            && 0 <= j.mon < 12
            && TimeGm(j) == DayNum(j.year, j.mon, j.mday) * SECS_PER_DAY + j.hour * 3600 + j.min * 60 + j.sec
            && (j.year == tm.year && j.mon == tm.mon ==>
                  DayNum(j.year, j.mon, j.mday) == DayOf(t) + j.mday - tm.mday)
            && t == DayOf(t) * SECS_PER_DAY + tm.hour * 3600 + tm.min * 60 + tm.sec
  {
    hide GmTime, TimeGm, CivilOf, YearStart, MonthStart;
    ClockFields(t);
    DateFields(t);
    TimeGmAt(Jump(s, GmTime(t)));
  }

  lemma SecondJump(s: Schedule, t: int)
    requires InRange(s) && !Allows(s.seconds, GmTime(t).sec)
    ensures TimeGm(Jump(s, GmTime(t))) > t
    ensures NoMatchIn(s, t, TimeGm(Jump(s, GmTime(t))))
  {
    hide GmTime, TimeGm, DayNum, DayOf;
    Landing(s, t);
    Minutes(t);
    var (tm, j) := (GmTime(t), Jump(s, GmTime(t)));
    assert TimeGm(j) == t + 60 * (j.min - tm.min) + j.sec - tm.sec;
    forall u | t <= u < TimeGm(j) ensures !MatchesAt(s, u) {
      Minutes(u);
      assert t / 60 <= u / 60 <= t / 60 + j.min - tm.min;
    }
  }

  lemma MinuteJump(s: Schedule, t: int)
    requires InRange(s) && !Allows(s.minutes, GmTime(t).min) && Allows(s.seconds, GmTime(t).sec)
    ensures TimeGm(Jump(s, GmTime(t))) > t
    ensures NoMatchIn(s, t, TimeGm(Jump(s, GmTime(t))))
  {
    hide GmTime, TimeGm, DayNum, DayOf;
    Landing(s, t);
    Minutes(t);
    var (tm, j) := (GmTime(t), Jump(s, GmTime(t)));
    assert TimeGm(j) == t + 3600 * (j.hour - tm.hour) + 60 * (j.min - tm.min) + j.sec - tm.sec;
    forall u | t <= u < TimeGm(j) ensures !MatchesAt(s, u) {
      MinuteJumpSecond(s, t, u);
    }
  }

  lemma MinuteJumpSecond(s: Schedule, t: int, u: int)
    requires InRange(s) && !Allows(s.minutes, GmTime(t).min) && Allows(s.seconds, GmTime(t).sec)
    requires var (tm, j) := (GmTime(t), Jump(s, GmTime(t)));
             t <= u < t + 3600 * (j.hour - tm.hour) + 60 * (j.min - tm.min) + j.sec - tm.sec
    ensures !MatchesAt(s, u)
  {
    hide GmTime, DayOf;
    Minutes(t);
    Minutes(u);
    var (tm, j) := (GmTime(t), Jump(s, GmTime(t)));
    assert t / 60 <= u / 60 <= t / 60 + 60 * (j.hour - tm.hour) + j.min - tm.min;
    assert t / 3600 <= u / 3600 <= t / 3600 + j.hour - tm.hour;
  }

  lemma HourJump(s: Schedule, t: int)
    requires InRange(s) && !Allows(s.hours, GmTime(t).hour)
    requires Allows(s.minutes, GmTime(t).min) && Allows(s.seconds, GmTime(t).sec)
    ensures TimeGm(Jump(s, GmTime(t))) > t
    ensures NoMatchIn(s, t, TimeGm(Jump(s, GmTime(t))))
  {
    hide GmTime, TimeGm, DayNum, DayOf;
    Landing(s, t);
    Minutes(t);
    var (tm, j) := (GmTime(t), Jump(s, GmTime(t)));
    assert TimeGm(j) == (DayOf(t) + j.mday - tm.mday) * SECS_PER_DAY + 3600 * j.hour + 60 * j.min + j.sec;
    forall u | t <= u < TimeGm(j) ensures !MatchesAt(s, u) {
      HourJumpSecond(s, t, u);
    }
  }

  lemma HourJumpSecond(s: Schedule, t: int, u: int)
    requires InRange(s) && !Allows(s.hours, GmTime(t).hour)
    requires t <= u < TimeGm(Jump(s, GmTime(t)))
    requires var (tm, j) := (GmTime(t), Jump(s, GmTime(t)));
             && Allows(s.minutes, tm.min) && Allows(s.seconds, tm.sec)
             && TimeGm(j) == (DayOf(t) + j.mday - tm.mday) * SECS_PER_DAY + 3600 * j.hour + 60 * j.min + j.sec
    ensures !MatchesAt(s, u)
  {
    hide GmTime, TimeGm, DayNum, DayOf, Jump, Allows, First, InRange;
    var (tm, j, v) := (GmTime(t), Jump(s, GmTime(t)), GmTime(u));
    Minutes(t);
    Minutes(u);
    HourJumpFields(s, tm);
    var days := DayOf(t) + j.mday - tm.mday;
    HoursUpTo(t, u, days, j.hour, j.min, j.sec);
    if u / 3600 < days * 24 + j.hour {
      HoursPassed(s, tm, DayOf(t), DayOf(u), v.hour);
    } else {
      assert v.min * 60 + v.sec < j.min * 60 + j.sec;
      BeforeFirst(s, v.min, v.sec);
    }
  }

  lemma HoursUpTo(t: int, u: int, day: int, hour: int, min: int, sec: int)
    requires t <= u < day * SECS_PER_DAY + 3600 * hour + 60 * min + sec && 0 <= min < 60 && 0 <= sec < 60
    ensures t / 3600 <= u / 3600 <= day * 24 + hour
  {
  }

  lemma HourJumpFields(s: Schedule, tm: Tm)
    requires InRange(s) && !Allows(s.hours, tm.hour) && Allows(s.minutes, tm.min) && Allows(s.seconds, tm.sec)
    ensures var j := Jump(s, tm);
      j.min == First(s.minutes, 0) && j.sec == First(s.seconds, 0) && 0 <= j.min < 60 && 0 <= j.sec < 60
  {
  }

  /** The hours before the one jumped to are not allowed. */
  lemma HoursPassed(s: Schedule, tm: Tm, day: int, d: int, hour: int)
    requires InRange(s) && !Allows(s.hours, tm.hour) && Allows(s.minutes, tm.min) && Allows(s.seconds, tm.sec)
    requires 0 <= tm.hour < 24 && 0 <= hour < 24
    requires var j := Jump(s, tm); day * 24 + tm.hour <= d * 24 + hour < (day + j.mday - tm.mday) * 24 + j.hour
    ensures !Allows(s.hours, hour)
  {
  }

  /** Nor is anything in that hour before its first allowed minute and second. */
  lemma BeforeFirst(s: Schedule, min: int, sec: int)
    requires InRange(s) && 0 <= min && 0 <= sec && min * 60 + sec < First(s.minutes, 0) * 60 + First(s.seconds, 0)
    ensures !Allows(s.minutes, min) || !Allows(s.seconds, sec)
  {
  }

  /** Seconds from midnight to the first allowed time of a day. */
  function StartOfDay(s: Schedule): int {
    First(s.hours, 0) * 3600 + First(s.minutes, 0) * 60 + First(s.seconds, 0)
  }

  /** No second before the first allowed time of its day matches. */
  lemma BeforeDayStart(s: Schedule, t: int)
    requires InRange(s) && t < DayOf(t) * SECS_PER_DAY + StartOfDay(s)
    ensures !MatchesAt(s, t)
  {
    hide GmTime, DayOf;
    ClockFields(t);
  }

  lemma DayJump(s: Schedule, t: int)
    requires InRange(s) && !DateMatches(s, GmTime(t)) && (Allows(s.days, GmTime(t).mday) ==> Allows(s.months, GmTime(t).mon + 1))
    requires Allows(s.hours, GmTime(t).hour) && Allows(s.minutes, GmTime(t).min) && Allows(s.seconds, GmTime(t).sec)
    ensures TimeGm(Jump(s, GmTime(t))) == (DayOf(t) + 1) * SECS_PER_DAY + StartOfDay(s) > t
    ensures NoMatchIn(s, t, TimeGm(Jump(s, GmTime(t))))
  {
    hide GmTime, TimeGm, DayNum, CivilOf;
    Landing(s, t);
    DateFields(t);
    ClockFields(t);
    forall u | t <= u < TimeGm(Jump(s, GmTime(t))) ensures !MatchesAt(s, u) {
      if DayOf(u) == DayOf(t) {
        DateFields(u);
      } else {
        BeforeDayStart(s, u);
      }
    }
  }

  /** The month jump. Where the first allowed day is past the end of the month it lands on, the
      date carries into the month after; the days it passes there are all below the first
      allowed day. */
  lemma MonthJump(s: Schedule, t: int)
    requires InRange(s) && Allows(s.days, GmTime(t).mday) && !Allows(s.months, GmTime(t).mon + 1)
    requires Allows(s.hours, GmTime(t).hour) && Allows(s.minutes, GmTime(t).min) && Allows(s.seconds, GmTime(t).sec)
    ensures exists n :: n > DayOf(t) && TimeGm(Jump(s, GmTime(t))) == n * SECS_PER_DAY + StartOfDay(s)
    ensures TimeGm(Jump(s, GmTime(t))) > t
    ensures NoMatchIn(s, t, TimeGm(Jump(s, GmTime(t))))
  {
    hide GmTime, TimeGm, CivilOf, YearStart, MonthStart;
    var (tm, jump) := (GmTime(t), Jump(s, GmTime(t)));
    var (y, m, first) := (jump.year, jump.mon, jump.mday);
    Landing(s, t);
    DateFields(t);
    ClockFields(t);
    assert tm.year < y || (tm.year == y && tm.mon < m);
    MonthsInOrder(tm.year, tm.mon, y, m);
    var n := DayNum(y, m, first);
    assert n > DayOf(t);
    assert TimeGm(jump) == n * SECS_PER_DAY + StartOfDay(s);
    forall u | t <= u < TimeGm(jump) ensures !MatchesAt(s, u) {
      if u >= DayOf(u) * SECS_PER_DAY + StartOfDay(s) {
        MonthJumpDay(s, t, u, n);
      } else {
        BeforeDayStart(s, u);
      }
    }
  }

  lemma MonthJumpDay(s: Schedule, t: int, u: int, n: int)
    requires InRange(s) && Allows(s.days, GmTime(t).mday) && !Allows(s.months, GmTime(t).mon + 1)
    requires Allows(s.hours, GmTime(t).hour) && Allows(s.minutes, GmTime(t).min) && Allows(s.seconds, GmTime(t).sec)
    requires var j := Jump(s, GmTime(t)); 0 <= j.mon < 12 && n == DayNum(j.year, j.mon, j.mday)
    requires DayOf(t) <= DayOf(u) < n
    ensures !MatchesAt(s, u)
  {
    hide GmTime, TimeGm, CivilOf, YearStart, MonthStart;
    var (tm, jump, d) := (GmTime(t), Jump(s, GmTime(t)), GmTime(u));
    var (y, m, first) := (jump.year, jump.mon, jump.mday);
    DateFields(t);
    DateFields(u);
    if d.year < tm.year || (d.year == tm.year && d.mon < tm.mon) {
      MonthsInOrder(d.year, d.mon, tm.year, tm.mon);
    } else if y < d.year || (y == d.year && m < d.mon) {
      MonthsInOrder(y, m, d.year, d.mon);
      assert d.mday < first;
    }
  }

  // ----- what the search finds -----

  /** A search that ends in a match ends in the first one: nothing between its start and its
      result matches. */
  lemma {:induction false} SearchFindsFirst(s: Schedule, t: int, steps: nat)
    requires InRange(s)
    requires Search(s, GmTime(t), steps).Some?
    ensures var u := TimeGm(Search(s, GmTime(t), steps).value);
            u >= t && Search(s, GmTime(t), steps).value == GmTime(u) && MatchesAt(s, u) && NoMatchIn(s, t, u)
    decreases steps
  {
    hide GmTime, TimeGm, Jump, Matches;
    TimeGmInverts(t);
    if !MatchesAt(s, t) {
      JumpSkipsNothing(s, t);
      SearchFindsFirst(s, TimeGm(Jump(s, GmTime(t))), steps - 1);
    }
  }

  /** Clock jumps still possible: each of seconds, minutes and hours fails at most once. */
  function Rank(s: Schedule, tm: Tm): nat {
    if !Allows(s.seconds, tm.sec) then 3
    else if !Allows(s.minutes, tm.min) then 2
    else if !Allows(s.hours, tm.hour) then 1
    else 0
  }

  lemma AtStartOfDay(s: Schedule, n: int)
    requires InRange(s)
    ensures var t := n * SECS_PER_DAY + StartOfDay(s); DayOf(t) == n && Rank(s, GmTime(t)) == 0
  {
    hide GmTime, DayOf;
    Split(n * SECS_PER_DAY + StartOfDay(s), n, First(s.hours, 0), First(s.minutes, 0), First(s.seconds, 0));
  }

  /** A jump uses up a clock jump without going back a day, or reaches the first allowed time of a
      later day. */
  lemma JumpProgress(s: Schedule, t: int)
    requires InRange(s) && !MatchesAt(s, t)
    ensures var u := TimeGm(Jump(s, GmTime(t)));
            && DayOf(u) >= DayOf(t)
            && (Rank(s, GmTime(t)) > 0 ==> Rank(s, GmTime(u)) < Rank(s, GmTime(t)))
            && (Rank(s, GmTime(t)) == 0 ==> DayOf(u) > DayOf(t) && Rank(s, GmTime(u)) == 0)
  {
    hide GmTime, TimeGm, CivilOf, DayNum;
    var (tm, j) := (GmTime(t), Jump(s, GmTime(t)));
    var u := TimeGm(j);
    JumpSkipsNothing(s, t);
    if Rank(s, tm) > 0 {
      Landing(s, t);
      ClockJumpFields(s, t);
    } else if Allows(s.days, tm.mday) && !Allows(s.months, tm.mon + 1) {
      MonthJump(s, t);
      var n :| n > DayOf(t) && u == n * SECS_PER_DAY + StartOfDay(s);
      AtStartOfDay(s, n);
    } else {
      DayJump(s, t);
      AtStartOfDay(s, DayOf(t) + 1);
    }
  }

  lemma ClockJumpFields(s: Schedule, t: int)
    requires InRange(s) && Rank(s, GmTime(t)) > 0
    ensures Rank(s, GmTime(TimeGm(Jump(s, GmTime(t))))) < Rank(s, GmTime(t))
  {
    hide GmTime, TimeGm, CivilOf, DayNum, DayOf;
    Landing(s, t);
    ClockFields(t);
    var (tm, j) := (GmTime(t), Jump(s, GmTime(t)));
    var (u, n) := (TimeGm(j), DayNum(j.year, j.mon, j.mday));
    if j.hour == 24 {
      Split(u, n + 1, 0, j.min, j.sec);
    } else if j.min < 60 {
      Split(u, n, j.hour, j.min, j.sec);
    } else if j.hour < 23 {
      Split(u, n, j.hour + 1, 0, j.sec);
    } else {
      Split(u, n + 1, 0, 0, j.sec);
    }
  }

  /** A search with enough steps left to walk day by day to a matching second reaches a match. */
  lemma {:induction false} SearchReaches(s: Schedule, t: int, goal: int, steps: nat)
    requires InRange(s) && MatchesAt(s, goal) && t <= goal
    requires steps > DayOf(goal) - DayOf(t) + Rank(s, GmTime(t))
    ensures Search(s, GmTime(t), steps).Some?
    decreases steps
  {
    hide GmTime, TimeGm, Jump, Matches, Rank;
    if !MatchesAt(s, t) {
      JumpSkipsNothing(s, t);
      JumpProgress(s, t);
      SearchReaches(s, TimeGm(Jump(s, GmTime(t))), goal, steps - 1);
    }
  }

  // ----- time points -----

  /** The second `u`, seen on the task's local calendar, matches. */
  ghost predicate MatchesLocally(s: Schedule, tz: int, u: int) {
    MatchesAt(s, u + tz * 60)
  }

  /** `r` is the first time point after `from` whose local second matches. */
  ghost predicate IsNextRun(s: Schedule, tz: int, from: int, r: int) {
    && from < r && r % TICKS == 0 && MatchesLocally(s, tz, r / TICKS)
    && forall u :: from < u * TICKS < r ==> !MatchesLocally(s, tz, u)
  }

  /** The first whole local second after `from`. */
  function SecondAfter(from: int, tz: int): int {
    from / TICKS + tz * 60 + 1
  }

  /** Where the search begins. */
  function Start(from: int, tz: int): int {
    ToTimeT(from + TICKS + tz * 60 * TICKS)
  }

  /** to_time_t drops the fraction toward zero, so before the epoch a fractional time point makes
      the search begin one second late. */
  lemma StartSecond(from: int, tz: int)
    ensures Start(from, tz) == if SecondAfter(from, tz) >= 0 || from % TICKS == 0
                               then SecondAfter(from, tz) else SecondAfter(from, tz) + 1
  {
    var tp := from + TICKS + tz * 60 * TICKS;
    assert tp / TICKS == SecondAfter(from, tz);
    assert tp % TICKS == from % TICKS;
  }

  lemma AfterFrom(from: int, tz: int, u: int)
    ensures from < u * TICKS <==> u + tz * 60 >= SecondAfter(from, tz)
  {
  }

  /** When the search exits by a match, its result is the next run exactly when the search began
      at the right second, or the second it left out does not match. */
  lemma NextRunIsFirstMatch(s: Schedule, tz: int, from: int)
    requires InRange(s)
    requires Search(s, ToLocalTm(from + TICKS, tz), MAX_STEPS).Some?
    ensures from < NextRun(Cron(s), tz, from)
    ensures IsNextRun(s, tz, from, NextRun(Cron(s), tz, from)) <==>
              SecondAfter(from, tz) >= 0 || from % TICKS == 0 || !MatchesAt(s, SecondAfter(from, tz))
  {
    hide GmTime, TimeGm, Search, Matches;
    var t := Start(from, tz);
    StartSecond(from, tz);
    SearchFindsFirst(s, t, MAX_STEPS);
    var u := TimeGm(Search(s, GmTime(t), MAX_STEPS).value);
    var r := NextRun(Cron(s), tz, from);
    assert r == (u - tz * 60) * TICKS && r / TICKS == u - tz * 60 && r % TICKS == 0;
    AfterFrom(from, tz, u - tz * 60);
    var g := SecondAfter(from, tz);
    if t == g || !MatchesAt(s, g) {
      forall v | from < v * TICKS < r ensures !MatchesLocally(s, tz, v) {
        AfterFrom(from, tz, v);
      }
    } else {
      AfterFrom(from, tz, g - tz * 60);
      assert r == (u - tz * 60) * TICKS && u >= t == g + 1;
      var v := g - tz * 60;
      assert from < v * TICKS < r && MatchesLocally(s, tz, v);
    }
  }

  /** A matching second on one of the 396 days after the start is always found: with the previous
      lemma, the result is then the first match, and the fallback means that no second of those
      days matches. */
  lemma SearchCoversWindow(s: Schedule, tz: int, from: int, goal: int)
    requires InRange(s) && MatchesAt(s, goal)
    requires Start(from, tz) <= goal && DayOf(goal) <= DayOf(Start(from, tz)) + 396
    ensures Search(s, ToLocalTm(from + TICKS, tz), MAX_STEPS).Some?
  {
    hide GmTime, TimeGm, Search, Matches;
    SearchReaches(s, Start(from, tz), goal, MAX_STEPS);
  }

  /** With days, months and weekdays empty, four steps are enough, so the fallback is never
      reached. */
  lemma DailyWithinFour(s: Schedule, t: int)
    requires InRange(s) && s.days == {} && s.months == {} && s.weekdays == {}
    ensures Search(s, GmTime(t), 4).Some?
  {
    hide GmTime;
    DailyWithin(s, t, 4);
  }

  lemma {:induction false} DailyWithin(s: Schedule, t: int, steps: nat)
    requires InRange(s) && s.days == {} && s.months == {} && s.weekdays == {}
    requires steps > Rank(s, GmTime(t))
    ensures Search(s, GmTime(t), steps).Some?
    decreases steps
  {
    hide GmTime, TimeGm, Jump;
    if !MatchesAt(s, t) {
      JumpProgress(s, t);
      DailyWithin(s, TimeGm(Jump(s, GmTime(t))), steps - 1);
    }
  }

  /** A day whose date is allowed, within 396 days of the start, keeps the search from falling
      back. */
  lemma AllowedDayFound(s: Schedule, tz: int, from: int, n: int)
    requires InRange(s)
    requires DayOf(Start(from, tz)) < n <= DayOf(Start(from, tz)) + 396
    requires var d := CivilOf(n); Allows(s.days, d.mday) && Allows(s.months, d.mon + 1) && Allows(s.weekdays, (n + 4) % 7)
    ensures Search(s, ToLocalTm(from + TICKS, tz), MAX_STEPS).Some?
  {
    hide GmTime, CivilOf, Search, ToTimeT;
    var goal := n * SECS_PER_DAY + StartOfDay(s);
    AtStartOfDay(s, n);
    DateFields(goal);
    SearchCoversWindow(s, tz, from, goal);
  }

  /** Weekly schedules: with only the weekday restricted the search never falls back. */
  lemma WeeklyNeverFallsBack(s: Schedule, tz: int, from: int)
    requires InRange(s) && s.days == {} && s.months == {}
    ensures Search(s, ToLocalTm(from + TICKS, tz), MAX_STEPS).Some?
  {
    hide Search, CivilOf, Start, DayOf, ToLocalTm;
    var start := DayOf(Start(from, tz));
    AllowedDayFound(s, tz, from, start + 1 + (First(s.weekdays, 0) - start - 5) % 7);
  }

  /** The fallback time point is never the next run: it lies inside the window that was searched
      in vain. */
  lemma FallbackIsNoMatch(s: Schedule, tz: int, from: int)
    requires InRange(s) && Search(s, ToLocalTm(from + TICKS, tz), MAX_STEPS).None?
    ensures NextRun(Cron(s), tz, from) == from + 365 * SECS_PER_DAY * TICKS
    ensures !IsNextRun(s, tz, from, NextRun(Cron(s), tz, from))
  {
    hide GmTime, TimeGm, Search, Matches, Start, ToLocalTm;
    var r := NextRun(Cron(s), tz, from);
    if IsNextRun(s, tz, from, r) {
      StartSecond(from, tz);
      var goal := r / TICKS + tz * 60;
      assert goal == from / TICKS + 365 * SECS_PER_DAY + tz * 60;
      SearchCoversWindow(s, tz, from, goal);
    }
  }

  /** Field sets outside their range are outside the promise: with seconds {5, 75} the jump from
      second 10 lands on second 75 of the minute and passes the match at 65. */
  lemma OutOfRangePassesMatch()
    ensures var s := Schedule({5, 75}, {}, {}, {}, {}, {});
            !MatchesAt(s, 10) && TimeGm(Jump(s, GmTime(10))) == 75 && MatchesAt(s, 65)
  {
    hide GmTime, TimeGm, CivilOf, DayNum;
    Split(10, 0, 0, 0, 10);
    Split(65, 0, 0, 1, 5);
    DateFields(10);
    var s := Schedule({5, 75}, {}, {}, {}, {}, {});
    assert 5 in s.seconds && 75 in s.seconds;
    assert LowerBound(s.seconds, 11) == Some(75);
    TimeGmAt(Jump(s, GmTime(10)));
  }

  lemma SearchStep(s: Schedule, tm: Tm, steps: nat)
    ensures Search(s, tm, steps) == if steps == 0 then None else if Matches(s, tm) then Some(tm)
                                    else Search(s, Normalised(Jump(s, tm)), steps - 1)
  {
    hide Matches, Normalised, Jump;
  }

  // ----- the scheduler -----

  predicate Due(t: Task, now: int) {
    t.active && t.nextRun <= now
  }

  /** A task after a check at `now`. */
  function AfterCheck(t: Task, tz: int, now: int): Task {
    if Due(t, now) then t.(lastRun := t.nextRun, nextRun := NextRun(t.kind, tz, now)) else t
  }

  class CronScheduler {
    var tasks: map<nat, Task>
    var nextId: nat
    const tzOffsetMinutes: int

    constructor (tzOffsetMinutes: int)
      ensures this.tzOffsetMinutes == tzOffsetMinutes && tasks == map[] && nextId == 1
    {
      this.tzOffsetMinutes := tzOffsetMinutes;
      tasks := map[];
      nextId := 1;
    }

    /** calcNextRunTime: the loop over the broken-down time. */
    method CalcNextRunTime(kind: TaskType, from: int) returns (r: int)
      ensures r == NextRun(kind, tzOffsetMinutes, from)
    {
      hide GmTime, TimeGm, Search, Normalised;
      if kind.Interval? {
        return from + kind.seconds * TICKS;
      }
      var s := kind.schedule;
      var tm := ToLocalTm(from + TICKS, tzOffsetMinutes);
      for i := 0 to MAX_STEPS
        invariant Search(s, ToLocalTm(from + TICKS, tzOffsetMinutes), MAX_STEPS) == Search(s, tm, MAX_STEPS - i)
      {
        SearchStep(s, tm, MAX_STEPS - i);
        if s.seconds != {} && tm.sec !in s.seconds {
          match LowerBound(s.seconds, tm.sec + 1) {
            case None => tm := tm.(min := tm.min + 1, sec := Least(s.seconds));
            case Some(v) => tm := tm.(sec := v);
          }
          tm := Normalised(tm);
          continue;
        }
        if s.minutes != {} && tm.min !in s.minutes {
          match LowerBound(s.minutes, tm.min + 1) {
            case None => tm := tm.(hour := tm.hour + 1, min := Least(s.minutes));
            case Some(v) => tm := tm.(min := v);
          }
          tm := tm.(sec := First(s.seconds, 0));
          tm := Normalised(tm);
          continue;
        }
        if s.hours != {} && tm.hour !in s.hours {
          match LowerBound(s.hours, tm.hour + 1) {
            case None => tm := tm.(mday := tm.mday + 1, hour := Least(s.hours));
            case Some(v) => tm := tm.(hour := v);
          }
          tm := tm.(min := First(s.minutes, 0), sec := First(s.seconds, 0));
          tm := Normalised(tm);
          continue;
        }
        if s.days != {} && tm.mday !in s.days {
          tm := AtDayStart(s, tm.(mday := tm.mday + 1));
          tm := Normalised(tm);
          continue;
        }
        if s.months != {} && tm.mon + 1 !in s.months {
          match LowerBound(s.months, tm.mon + 2) {
            case None => tm := tm.(year := tm.year + 1, mon := Least(s.months) - 1);
            case Some(v) => tm := tm.(mon := v - 1);
          }
          tm := AtDayStart(s, tm.(mday := First(s.days, 1)));
          tm := Normalised(tm);
          continue;
        }
        if s.weekdays != {} && tm.wday !in s.weekdays {
          tm := AtDayStart(s, tm.(mday := tm.mday + 1));
          tm := Normalised(tm);
          continue;
        }
        return FromLocalTm(tm, tzOffsetMinutes);
      }
      SearchStep(s, tm, 0);
      return from + 24 * 365 * 3600 * TICKS;
    }

    method AddTask(kind: TaskType, now: int) returns (id: nat)
      modifies this
      ensures id == old(nextId) && nextId == id + 1
      ensures tasks == old(tasks)[id := Task(kind, 0, NextRun(kind, tzOffsetMinutes, now), true)]
    {
      hide NextRun;
      id := nextId;
      nextId := nextId + 1;
      var next := CalcNextRunTime(kind, now);
      tasks := tasks[id := Task(kind, 0, next, true)];
    }

    method Cancel(id: nat) returns (found: bool)
      modifies this`tasks
      ensures found == (id in old(tasks))
      ensures tasks == if found then old(tasks)[id := old(tasks)[id].(active := false)] else old(tasks)
    {
      found := id in tasks;
      if found {
        tasks := tasks[id := tasks[id].(active := false)];
      }
    }

    /** runOnce. The callbacks to run are returned as task ids, in the map's (arbitrary) order. */
    method RunOnce(now: int) returns (toRun: seq<nat>)
      modifies this`tasks
      ensures tasks.Keys == old(tasks).Keys
      ensures forall id :: id in toRun <==> id in old(tasks) && old(tasks)[id].active && old(tasks)[id].nextRun <= now
      ensures forall id | id in toRun ::
        tasks[id] == old(tasks)[id].(lastRun := old(tasks)[id].nextRun, nextRun := NextRun(old(tasks)[id].kind, tzOffsetMinutes, now))
      ensures forall id | id in tasks && id !in toRun :: tasks[id] == old(tasks)[id]
      ensures forall i, j :: 0 <= i < j < |toRun| ==> toRun[i] != toRun[j]
    {
      hide NextRun;
      toRun := [];
      var rest := tasks.Keys;
      while rest != {}
        invariant rest <= tasks.Keys == old(tasks).Keys
        invariant forall id | id in tasks ::
            tasks[id] == if id in rest then old(tasks)[id] else AfterCheck(old(tasks)[id], tzOffsetMinutes, now)
        invariant forall id :: id in toRun <==> id in old(tasks) && id !in rest && Due(old(tasks)[id], now)
        invariant forall i, j :: 0 <= i < j < |toRun| ==> toRun[i] != toRun[j]
        decreases rest
      {
        assert (forall x :: x !in rest) ==> rest == {};
        var id :| id in rest;
        var t := tasks[id];
        if t.active && t.nextRun <= now {
          var next := CalcNextRunTime(t.kind, now);
          tasks := tasks[id := t.(lastRun := t.nextRun, nextRun := next)];
          toRun := toRun + [id];
        }
        rest := rest - {id};
      }
    }
  }

  /** Every next run of a cron task lies after the time it was computed from, match or fallback. */
  lemma NextRunAdvances(s: Schedule, tz: int, from: int)
    requires InRange(s)
    ensures from < NextRun(Cron(s), tz, from)
  {
    hide Search;
    if Search(s, ToLocalTm(from + TICKS, tz), MAX_STEPS).Some? {
      NextRunIsFirstMatch(s, tz, from);
    }
  }

  /** A second check at the same `now` finds a task due again exactly when it is an interval task
      of no length that the first check ran. */
  lemma SecondCheckRunsNothing(t: Task, tz: int, now: int)
    requires t.kind.Cron? ==> InRange(t.kind.schedule)
    ensures Due(AfterCheck(t, tz, now), now) <==> Due(t, now) && t.kind.Interval? && t.kind.seconds <= 0
  {
    hide Search;
    if t.kind.Cron? { NextRunAdvances(t.kind.schedule, tz, now); }
  }

  /** A task under checks at the given times, and the scheduled times it ran for. */
  function RunsOver(t: Task, tz: int, nows: seq<int>): seq<int>
    decreases |nows|
  {
    if nows == [] then []
    else if Due(t, nows[0]) then [t.nextRun] + RunsOver(AfterCheck(t, tz, nows[0]), tz, nows[1..])
    else RunsOver(t, tz, nows[1..])
  }

  ghost predicate IncreasingFrom(runs: seq<int>, first: int) {
    && (forall i :: 0 <= i < |runs| ==> runs[i] >= first)
    && (forall i, j :: 0 <= i < j < |runs| ==> runs[i] < runs[j])
  }

  lemma IncreasingCons(x: int, runs: seq<int>, y: int, first: int)
    requires IncreasingFrom(runs, y) && first <= x < y
    ensures IncreasingFrom([x] + runs, first)
  {
  }

  /** Over any number of checks with a clock that does not go back, a task runs for strictly
      increasing scheduled times, none before its first: no scheduled time is run twice. */
  lemma {:induction false} RunsIncrease(t: Task, tz: int, nows: seq<int>)
    requires if t.kind.Cron? then InRange(t.kind.schedule) else t.kind.seconds > 0
    requires forall i, j :: 0 <= i < j < |nows| ==> nows[i] <= nows[j]
    ensures IncreasingFrom(RunsOver(t, tz, nows), t.nextRun)
    decreases |nows|
  {
    hide NextRun, IncreasingFrom;
    if nows == [] {
      NoRuns(t.nextRun);
    } else {
      var next := AfterCheck(t, tz, nows[0]);
      RunsIncrease(next, tz, nows[1..]);
      if Due(t, nows[0]) {
        SecondCheckRunsNothing(t, tz, nows[0]);
        IncreasingCons(t.nextRun, RunsOver(next, tz, nows[1..]), next.nextRun, t.nextRun);
      }
    }
  }

  lemma NoRuns(first: int)
    ensures IncreasingFrom([], first)
  {
  }
}
