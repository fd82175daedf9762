/** When the cron search gives up.

    After at most three iterations that put the clock right, every iteration stops on one day.  Which
    days those are can be told from the schedule, and the search falls back exactly when 400 of them
    come before every match. */
module CronFallback {
  import opened Calendar
  import opened Options
  import opened OrderedIntSet
  import opened Cron

  // ----- The days a search stops on -----

  predicate DayAllowed(s: Schedule, n: int) {
    Allows(s.days, CivilOf(n).mday)
  }

  predicate MonthAllowed(s: Schedule, n: int) {
    Allows(s.months, CivilOf(n).mon + 1)
  }

  predicate DateAllowed(s: Schedule, n: int) {
    DayAllowed(s, n) && MonthAllowed(s, n) && Allows(s.weekdays, (n + 4) % 7)
  }

  /** The days before the months are tested, so only an allowed day leaves its month at once. */
  predicate LeavesMonth(s: Schedule, n: int) {
    DayAllowed(s, n) && !MonthAllowed(s, n)
  }

  /** The next allowed month, and its year. */
  function NextMonth(s: Schedule, d: Date): (r: (int, int))
    requires InRange(s) && s.months != {} && d.Valid()
    ensures 0 <= r.1 < 12 && r.1 + 1 in s.months && (r.0 > d.year || (r.0 == d.year && r.1 > d.mon))
  {
    match LowerBound(s.months, d.mon + 2)
    case None => (d.year + 1, Least(s.months) - 1)
    case Some(v) => (d.year, v - 1)
  }

  /** The first allowed day number of that month, counted on into the month after if it is too short. */
  function NewMonth(s: Schedule, n: int): int
    requires InRange(s) && LeavesMonth(s, n)
  {
    var (y, m) := NextMonth(s, CivilOf(n));
    DayNum(y, m, First(s.days, 1))
  }

  /** The day after n on which the search stops. */
  function NextStop(s: Schedule, n: int): int
    requires InRange(s)
  {
    if LeavesMonth(s, n) then NewMonth(s, n) else n + 1
  }

  /** Left out, because some day from n on leaves its month for a later day. */
  ghost predicate Passed(s: Schedule, n: int, d: int)
    requires InRange(s)
  {
    exists e :: n <= e < d && LeavesMonth(s, e) && d < NewMonth(s, e)
  }

  /** The days before `goal` on which a search from day n stops. */
  ghost function Stops(s: Schedule, n: int, goal: int): set<int>
    requires InRange(s)
  {
    set d | n <= d < goal && !Passed(s, n, d)
  }

  lemma NewMonthLater(s: Schedule, n: int)
    requires InRange(s) && LeavesMonth(s, n)
    ensures NewMonth(s, n) > n
  {
    hide CivilOf, NextMonth, YearStart, MonthStart;
    var d := CivilOf(n);
    var (y, m) := NextMonth(s, d);
    MonthsInOrder(d.year, d.mon, y, m);
  }

  /** From one disallowed month, or from the days left out behind it, the search goes to the same day. */
  lemma SameNewMonth(s: Schedule, n: int, e: int)
    requires InRange(s) && LeavesMonth(s, n) && LeavesMonth(s, e) && n <= e < NewMonth(s, n)
    ensures NewMonth(s, e) == NewMonth(s, n)
  {
    hide CivilOf, NextMonth, YearStart, MonthStart, InRange;
    NewMonthOf(s, n);
    NewMonthOf(s, e);
    var (y, m) := NextMonth(s, CivilOf(n));
    NotBefore(s, n, e);
    NotBehind(s, e, y, m);
    SameNextMonth(s, CivilOf(n), CivilOf(e));
  }

  lemma NewMonthOf(s: Schedule, n: int)
    requires InRange(s) && LeavesMonth(s, n)
    ensures s.months != {} && !Allows(s.months, CivilOf(n).mon + 1)
    ensures var (y, m) := NextMonth(s, CivilOf(n)); NewMonth(s, n) == DayNum(y, m, First(s.days, 1))
  {
    hide CivilOf, NextMonth, DayNum;
  }

  /** Dates in the order of their day numbers. */
  lemma NotBefore(s: Schedule, n: int, e: int)
    requires n <= e
    ensures var (a, b) := (CivilOf(n), CivilOf(e)); a.year < b.year || (a.year == b.year && a.mon <= b.mon)
  {
    hide CivilOf, YearStart, MonthStart;
    var (a, b) := (CivilOf(n), CivilOf(e));
    if b.year < a.year || (b.year == a.year && b.mon < a.mon) { MonthsInOrder(b.year, b.mon, a.year, a.mon); }
  }

  lemma NotBehind(s: Schedule, e: int, y: int, m: int)
    requires InRange(s) && LeavesMonth(s, e) && 0 <= m < 12 && m + 1 in s.months && e < DayNum(y, m, First(s.days, 1))
    ensures var b := CivilOf(e); b.year < y || (b.year == y && b.mon < m)
  {
    hide CivilOf, YearStart, MonthStart;
    var b := CivilOf(e);
    if y < b.year || (y == b.year && m < b.mon) {
      MonthsInOrder(y, m, b.year, b.mon);
    }
  }

  lemma SameNextMonth(s: Schedule, a: Date, b: Date)
    requires InRange(s) && s.months != {} && a.Valid() && b.Valid() && !Allows(s.months, b.mon + 1)
    requires a.year < b.year || (a.year == b.year && a.mon <= b.mon)
    requires var (y, m) := NextMonth(s, a); b.year < y || (b.year == y && b.mon < m)
    ensures NextMonth(s, b) == NextMonth(s, a)
  {
  }

  lemma StopsHere(s: Schedule, n: int)
    requires InRange(s)
    ensures Stops(s, n, n) == {}
  {
  }

  /** The next stop, seen from n. */
  lemma StopsNext(s: Schedule, n: int, goal: int)
    requires InRange(s) && NextStop(s, n) <= goal
    ensures n < NextStop(s, n) && |Stops(s, n, goal)| == 1 + |Stops(s, NextStop(s, n), goal)|
  {
    hide LeavesMonth, NewMonth;
    var next := NextStop(s, n);
    if LeavesMonth(s, n) { NewMonthLater(s, n); }
    forall d ensures d in Stops(s, n, goal) <==> d in {n} + Stops(s, next, goal) {
      if n < d < goal { StopsLater(s, n, d); }
    }
    assert Stops(s, n, goal) == {n} + Stops(s, next, goal);
  }

  lemma StopsLater(s: Schedule, n: int, d: int)
    requires InRange(s) && n < d
    ensures !Passed(s, n, d) <==> NextStop(s, n) <= d && !Passed(s, NextStop(s, n), d)
  {
    hide LeavesMonth, NewMonth;
    var next := NextStop(s, n);
    if LeavesMonth(s, n) && next <= d {
      NewMonthLater(s, n);
      forall e | n <= e < next && LeavesMonth(s, e) ensures NewMonth(s, e) <= d { SameNewMonth(s, n, e); }
    }
  }

  // ----- The search stops there -----

  /** With the clock right, one iteration. */
  lemma JumpStops(s: Schedule, t: int)
    requires InRange(s) && !MatchesAt(s, t) && Rank(s, GmTime(t)) == 0
    ensures var u := TimeGm(Jump(s, GmTime(t)));
      DayOf(u) == NextStop(s, DayOf(t)) && Rank(s, GmTime(u)) == 0
  {
    hide GmTime, TimeGm, CivilOf, YearStart, MonthStart, MatchesAt;
    JumpProgress(s, t);
    DateFields(t);
    RankZero(s, t);
    if LeavesMonth(s, DayOf(t)) {
      MonthJumpDayNum(s, t);
    } else {
      DayJump(s, t);
      AtStartOfDay(s, DayOf(t) + 1);
    }
  }

  lemma RankZero(s: Schedule, t: int)
    ensures MatchesAt(s, t) <==> Rank(s, GmTime(t)) == 0 && DateAllowed(s, DayOf(t))
    ensures Rank(s, GmTime(t)) == 0 ==>
      var tm := GmTime(t); Allows(s.hours, tm.hour) && Allows(s.minutes, tm.min) && Allows(s.seconds, tm.sec)
    ensures DateMatches(s, GmTime(t)) <==> DateAllowed(s, DayOf(t))
  {
    hide GmTime, CivilOf;
    DateFields(t);
  }

  lemma MonthJumpDayNum(s: Schedule, t: int)
    requires InRange(s) && Rank(s, GmTime(t)) == 0 && LeavesMonth(s, DayOf(t))
    ensures DayOf(TimeGm(Jump(s, GmTime(t)))) == NewMonth(s, DayOf(t))
  {
    hide GmTime, TimeGm, CivilOf, YearStart, MonthStart;
    DateFields(t);
    RankZero(s, t);
    Landing(s, t);
    AtStartOfDay(s, NewMonth(s, DayOf(t)));
  }

  /** A search that has stopped on `steps` days gives up: with the clock right it finds a match exactly
      when there is one with fewer days to stop on before it. */
  lemma SearchStops(s: Schedule, t: int, steps: nat)
    requires InRange(s) && Rank(s, GmTime(t)) == 0
    ensures Search(s, GmTime(t), steps).Some?
            <==> exists goal :: t <= goal && |Stops(s, DayOf(t), DayOf(goal))| < steps && MatchesAt(s, goal)
  {
    hide GmTime, TimeGm, Search, Matches, Rank, DayOf, Stops;
    if Search(s, GmTime(t), steps).Some? {
      SearchFindsFirst(s, t, steps);
      FoundBefore(s, t, steps);
    }
    forall goal | t <= goal && |Stops(s, DayOf(t), DayOf(goal))| < steps && MatchesAt(s, goal)
      ensures Search(s, GmTime(t), steps).Some?
    {
      SearchGets(s, t, goal, steps);
    }
  }

  lemma {:induction false} SearchGets(s: Schedule, t: int, goal: int, steps: nat)
    requires InRange(s) && Rank(s, GmTime(t)) == 0 && MatchesAt(s, goal) && t <= goal
    requires |Stops(s, DayOf(t), DayOf(goal))| < steps
    ensures Search(s, GmTime(t), steps).Some?
    decreases steps
  {
    hide GmTime, TimeGm, Jump, Matches, Rank, Stops, NextStop;
    if !MatchesAt(s, t) {
      JumpSkipsNothing(s, t);
      JumpStops(s, t);
      StopsNext(s, DayOf(t), DayOf(goal));
      SearchGets(s, TimeGm(Jump(s, GmTime(t))), goal, steps - 1);
    }
  }

  lemma {:induction false} FoundBefore(s: Schedule, t: int, steps: nat)
    requires InRange(s) && Rank(s, GmTime(t)) == 0 && Search(s, GmTime(t), steps).Some?
    ensures |Stops(s, DayOf(t), DayOf(TimeGm(Search(s, GmTime(t), steps).value)))| < steps
    decreases steps
  {
    hide GmTime, TimeGm, Jump, Matches, Rank, Stops, NextStop;
    TimeGmInverts(t);
    if MatchesAt(s, t) {
      StopsHere(s, DayOf(t));
    } else {
      JumpStops(s, t);
      var u := TimeGm(Jump(s, GmTime(t)));
      SearchFindsFirst(s, u, steps - 1);
      StopsNext(s, DayOf(t), DayOf(TimeGm(Search(s, GmTime(t), steps).value)));
      FoundBefore(s, u, steps - 1);
    }
  }

  // ----- The clock -----

  /** The jumps that put the clock right, at most three, and where they end. */
  ghost function ClockJumps(s: Schedule, t: int): (r: (nat, int))
    requires InRange(s)
    ensures r.0 <= Rank(s, GmTime(t)) && Rank(s, GmTime(r.1)) == 0
    decreases Rank(s, GmTime(t))
  {
    if Rank(s, GmTime(t)) == 0 then (0, t)
    else
      JumpProgress(s, t);
      var (k, u) := ClockJumps(s, TimeGm(Jump(s, GmTime(t))));
      (k + 1, u)
  }

  function ClockOnly(s: Schedule): Schedule {
    Schedule(s.seconds, s.minutes, s.hours, {}, {}, {})
  }

  lemma ClockJumpIsSame(s: Schedule, tm: Tm)
    requires Rank(s, tm) > 0
    ensures !Matches(s, tm) && !Matches(ClockOnly(s), tm) && Jump(s, tm) == Jump(ClockOnly(s), tm)
  {
  }

  /** They end at the first second, from t on, that the clock fields allow. */
  lemma {:induction false} ClockJumpsEnd(s: Schedule, t: int)
    requires InRange(s)
    ensures var u := ClockJumps(s, t).1;
      t <= u && MatchesAt(ClockOnly(s), u) && NoMatchIn(ClockOnly(s), t, u)
    decreases Rank(s, GmTime(t))
  {
    hide GmTime, TimeGm, Jump;
    if Rank(s, GmTime(t)) > 0 {
      ClockJumpIsSame(s, GmTime(t));
      JumpProgress(s, t);
      JumpSkipsNothing(ClockOnly(s), t);
      ClockJumpsEnd(s, TimeGm(Jump(s, GmTime(t))));
    }
  }

  lemma {:induction false} SearchAfterClock(s: Schedule, t: int, steps: nat)
    requires InRange(s) && steps > Rank(s, GmTime(t))
    ensures var (k, u) := ClockJumps(s, t);
      k < steps && Search(s, GmTime(t), steps) == Search(s, GmTime(u), steps - k)
    decreases steps
  {
    hide GmTime, TimeGm, Jump;
    if Rank(s, GmTime(t)) > 0 {
      ClockJumpIsSame(s, GmTime(t));
      JumpProgress(s, t);
      SearchAfterClock(s, TimeGm(Jump(s, GmTime(t))), steps - 1);
    }
  }

  lemma MatchesClock(s: Schedule, t: int)
    requires MatchesAt(s, t)
    ensures MatchesAt(ClockOnly(s), t)
  {
  }

  // ----- The fallback -----

  /** For every schedule: the search falls back exactly when 400 days, less the clock jumps, on which
      it stops come before every match. */
  lemma FallsBackExactly(s: Schedule, tz: int, from: int)
    requires InRange(s)
    ensures var t := Start(from, tz);
      var (k, u) := ClockJumps(s, t);
      Search(s, ToLocalTm(from + TICKS, tz), MAX_STEPS).None?
      <==> forall goal :: t <= goal && MatchesAt(s, goal) ==> |Stops(s, DayOf(u), DayOf(goal))| >= MAX_STEPS - k
  {
    hide GmTime, TimeGm, Search, Matches, ToTimeT, Stops;
    var t := Start(from, tz);
    var (k, u) := ClockJumps(s, t);
    ClockJumpsEnd(s, t);
    SearchAfterClock(s, t, MAX_STEPS);
    SearchStops(s, u, MAX_STEPS - k);
    forall goal | t <= goal && MatchesAt(s, goal) ensures u <= goal {
      MatchesClock(s, goal);
    }
  }

  /** With no month set the search stops on every day. */
  lemma {:induction false} StopsWithoutMonths(s: Schedule, n: int, goal: int)
    requires InRange(s) && s.months == {} && n <= goal
    ensures |Stops(s, n, goal)| == goal - n
    decreases goal - n
  {
    hide CivilOf, NewMonth, Stops;
    if n < goal {
      StopsNext(s, n, goal);
      StopsWithoutMonths(s, n + 1, goal);
    } else {
      StopsHere(s, n);
    }
  }

  /** So it falls back exactly when nothing matches before the end of its last day. */
  lemma FallsBackWithoutMonths(s: Schedule, tz: int, from: int)
    requires InRange(s) && s.months == {}
    ensures var t := Start(from, tz);
      var (k, u) := ClockJumps(s, t);
      Search(s, ToLocalTm(from + TICKS, tz), MAX_STEPS).None?
      <==> NoMatchIn(s, t, (DayOf(u) + MAX_STEPS - k) * SECS_PER_DAY)
  {
    hide GmTime, TimeGm, Search, Matches, ToTimeT, Stops;
    var t := Start(from, tz);
    var (k, u) := ClockJumps(s, t);
    FallsBackExactly(s, tz, from);
    ClockJumpsEnd(s, t);
    forall goal | t <= goal && MatchesAt(s, goal) ensures |Stops(s, DayOf(u), DayOf(goal))| == DayOf(goal) - DayOf(u) {
      MatchesClock(s, goal);
      StopsWithoutMonths(s, DayOf(u), DayOf(goal));
    }
    assert forall goal :: DayOf(goal) < DayOf(u) + MAX_STEPS - k <==> goal < (DayOf(u) + MAX_STEPS - k) * SECS_PER_DAY;
  }

  // ----- Dates of the year -----

  /** Some date that exists, in a leap year at least, is allowed. */
  predicate Possible(s: Schedule) {
    exists m, d :: 1 <= m <= 12 && 1 <= d <= MonthLen(2000, m - 1) && Allows(s.months, m) && Allows(s.days, d)
  }

  /** A date of every year comes within a year. */
  lemma WithinAYear(start: int, m: int, d: int) returns (y: int)
    requires 0 <= m < 12 && 1 <= d <= MonthLen(2001, m)
    ensures start < DayNum(y, m, d) <= start + 367 && d <= MonthLen(y, m)
  {
    hide CivilOf, YearStart, MonthStart;
    var today := CivilOf(start);
    var z := today.year;
    y := if DayNum(z, m, d) > start then z else z + 1;
    InYear(z, today.mon, today.mday);
    InYear(z, m, d);
    InYear(z + 1, m, d);
    MonthTable(z);
    MonthTable(z + 1);
    assert m == 0 || m == 1 || m == 2 || m == 3 || m == 4 || m == 5 || m == 6 || m == 7 || m == 8 || m == 9 || m == 10 || m == 11;
    assert MonthStart(z + 1, m) <= MonthStart(z, m) + 1;
  }

  lemma InYear(y: int, m: int, d: int)
    requires 0 <= m < 12 && 1 <= d <= MonthLen(y, m)
    ensures YearStart(y) <= DayNum(y, m, d) < YearStart(y + 1) == YearStart(y) + YearLen(y)
  {
    hide YearStart, MonthStart;
    YearStep(y);
    MonthStartMonotone(y, m, 12);
    MonthBegins(y, m);
  }

  lemma MonthBegins(y: int, m: int)
    requires 0 <= m <= 12
    ensures MonthStart(y, m) >= 0
  {
  }

  lemma YearlyFound(s: Schedule, tz: int, from: int, m: int, d: int)
    requires InRange(s) && s.weekdays == {} && 1 <= m <= 12 && 1 <= d <= MonthLen(2001, m - 1)
    requires Allows(s.months, m) && Allows(s.days, d)
    ensures Search(s, ToLocalTm(from + TICKS, tz), MAX_STEPS).Some?
  {
    hide Search, CivilOf, Start, DayOf, ToLocalTm, DayNum;
    var y := WithinAYear(DayOf(Start(from, tz)), m - 1, d);
    CivilUnique(Date(y, m - 1, d));
    AllowedDayFound(s, tz, from, DayNum(y, m - 1, d));
  }

  // ----- 29 February -----

  /** No date but 29 February is allowed. */
  predicate LeapDayOnly(s: Schedule) {
    s.months == {2} && 29 in s.days && forall d | d in s.days :: d >= 29
  }

  lemma LeapYearNear(y: int) returns (leap: int)
    ensures y <= leap <= y + 7 && IsLeap(leap) && forall z :: y <= z < leap ==> !IsLeap(z)
  {
    var four := y + (-y) % 4;
    FourthYear(four, 0 - (-y) / 4);
    leap := if IsLeap(four) then four else four + 4;
    forall z | y <= z < leap && IsLeap(z) ensures z == four { }
  }

  lemma FourthYear(four: int, q: int)
    requires four == 4 * q
    ensures IsLeap(four) || IsLeap(four + 4)
  {
  }

  /** From March 1 + k the search walks to the 29th and leaves for February. */
  lemma {:induction false} MarchWalk(s: Schedule, y: int, k: nat, goal: int)
    requires InRange(s) && LeapDayOnly(s) && k <= 28 && DayNum(y + 1, 1, 29) <= goal
    ensures |Stops(s, DayNum(y, 2, 1 + k), goal)| == 29 - k + |Stops(s, DayNum(y + 1, 1, 29), goal)|
    decreases 28 - k
  {
    hide CivilOf, YearStart, MonthStart, Stops;
    var n := DayNum(y, 2, 1 + k);
    CivilUnique(Date(y, 2, 1 + k));
    MonthsInOrder(y, 2, y + 1, 1);
    StopsNext(s, n, goal);
    if k < 28 { MarchWalk(s, y, k + 1, goal); }
  }

  /** 29 days a year, as long as 29 February is 1 March. */
  lemma {:induction false} YearsWalk(s: Schedule, y: int, leap: int)
    requires InRange(s) && LeapDayOnly(s) && y <= leap && forall z :: y <= z < leap ==> !IsLeap(z)
    ensures |Stops(s, DayNum(y, 1, 29), DayNum(leap, 1, 29))| == 29 * (leap - y)
    decreases leap - y
  {
    hide CivilOf, YearStart, MonthStart, Stops;
    if y == leap {
      StopsHere(s, DayNum(y, 1, 29));
    } else {
      MonthTable(y);
      assert DayNum(y, 1, 29) == DayNum(y, 2, 1);
      if y + 1 < leap { MonthsInOrder(y + 1, 1, leap, 1); }
      MarchWalk(s, y, 0, DayNum(leap, 1, 29));
      YearsWalk(s, y + 1, leap);
    }
  }

  lemma Next29th(n: int) returns (e: int)
    ensures n <= e <= n + 59 && CivilOf(e).mday == 29
  {
    hide CivilOf, YearStart, MonthStart;
    var d := CivilOf(n);
    if d.mday <= 29 <= MonthLen(d.year, d.mon) {
      e := DayNum(d.year, d.mon, 29);
      CivilUnique(Date(d.year, d.mon, 29));
    } else {
      var a := MonthAfter(d.year, d.mon);
      if MonthLen(a.year, a.mon) >= 29 {
        e := DayNum(a.year, a.mon, 29);
        CivilUnique(Date(a.year, a.mon, 29));
      } else {
        var b := MonthAfter(a.year, a.mon);
        e := DayNum(b.year, b.mon, 29);
        CivilUnique(Date(b.year, b.mon, 29));
      }
    }
  }

  lemma MonthAfter(y: int, m: int) returns (d: Date)
    requires 0 <= m < 12
    ensures d.Valid() && d.mday == 1 && DayNum(d.year, d.mon, 1) == DayNum(y, m, 1) + MonthLen(y, m)
    ensures m == 1 ==> d.mon == 2
    ensures m != 1 && MonthLen(d.year, d.mon) < 29 ==> m == 0
  {
    d := NextDate(Date(y, m, MonthLen(y, m)));
    DayNumCounts(Date(y, m, MonthLen(y, m)));
  }

  /** From any day the search comes to a 29 February, or the 1 March in its place. */
  lemma {:induction false} ToFebruary(s: Schedule, n: int, e: int) returns (y: int)
    requires InRange(s) && LeapDayOnly(s) && n <= e && CivilOf(e).mday == 29
    ensures n <= DayNum(y, 1, 29)
    ensures forall goal :: DayNum(y, 1, 29) <= goal ==>
              |Stops(s, n, goal)| <= e - n + 1 + |Stops(s, DayNum(y, 1, 29), goal)|
    decreases e - n
  {
    hide CivilOf, YearStart, MonthStart, Stops;
    var d := CivilOf(n);
    if DayAllowed(s, n) && d.mon == 1 {
      y := d.year;
    } else if DayAllowed(s, n) {
      y := if d.mon == 0 then d.year else d.year + 1;
      NewMonthLater(s, n);
      forall goal | DayNum(y, 1, 29) <= goal
        ensures |Stops(s, n, goal)| <= e - n + 1 + |Stops(s, DayNum(y, 1, 29), goal)|
      {
        StopsNext(s, n, goal);
      }
    } else {
      y := ToFebruary(s, n + 1, e);
      forall goal | DayNum(y, 1, 29) <= goal
        ensures |Stops(s, n, goal)| <= e - n + 1 + |Stops(s, DayNum(y, 1, 29), goal)|
      {
        StopsNext(s, n, goal);
      }
    }
  }

  lemma LeapDayNear(s: Schedule, n: int) returns (leap: int)
    requires InRange(s) && LeapDayOnly(s)
    ensures IsLeap(leap) && n <= DayNum(leap, 1, 29) && |Stops(s, n, DayNum(leap, 1, 29))| <= 263
  {
    hide CivilOf, YearStart, MonthStart, Stops;
    var e := Next29th(n);
    var y := ToFebruary(s, n, e);
    leap := LeapYearNear(y);
    YearsWalk(s, y, leap);
    if y < leap { MonthsInOrder(y, 1, leap, 1); }
  }

  /** Even across 2096 to 2104 the search finds 29 February. */
  lemma LeapDayFound(s: Schedule, tz: int, from: int)
    requires InRange(s) && LeapDayOnly(s) && s.weekdays == {}
    ensures Search(s, ToLocalTm(from + TICKS, tz), MAX_STEPS).Some?
  {
    hide GmTime, CivilOf, Search, Start, DayNum, Stops, LeapDayOnly, ToLocalTm;
    var t := Start(from, tz);
    var (k, u) := ClockJumps(s, t);
    ClockJumpsEnd(s, t);
    FallsBackExactly(s, tz, from);
    var leap := LeapDayNear(s, DayOf(u));
    var n := DayNum(leap, 1, 29);
    LeapDayAllowed(s, leap);
    RankZero(s, u);
    if n == DayOf(u) {
      StopsHere(s, n);
      assert MatchesAt(s, u);
    } else {
      var goal := n * SECS_PER_DAY + StartOfDay(s);
      AtStartOfDay(s, n);
      RankZero(s, goal);
      assert t <= goal && MatchesAt(s, goal);
    }
  }

  lemma LeapDayAllowed(s: Schedule, leap: int)
    requires LeapDayOnly(s) && s.weekdays == {} && IsLeap(leap)
    ensures DateAllowed(s, DayNum(leap, 1, 29))
  {
    hide CivilOf, DayNum;
    CivilUnique(Date(leap, 1, 29));
  }

  /** Which schedules without a weekday set ever fall back: those that no date of any year meets. */
  lemma YearlyFallsBack(s: Schedule, tz: int, from: int)
    requires InRange(s) && s.weekdays == {}
    ensures Search(s, ToLocalTm(from + TICKS, tz), MAX_STEPS).None? <==> !Possible(s)
  {
    hide GmTime, TimeGm, CivilOf, Search, ToTimeT, LeapDayOnly;
    if Possible(s) {
      var m, d :| 1 <= m <= 12 && 1 <= d <= MonthLen(2000, m - 1) && Allows(s.months, m) && Allows(s.days, d);
      PossibleFound(s, tz, from, m, d);
    } else if Search(s, ToLocalTm(from + TICKS, tz), MAX_STEPS).Some? {
      SearchFindsFirst(s, Start(from, tz), MAX_STEPS);
      MatchIsPossible(s, TimeGm(Search(s, ToLocalTm(from + TICKS, tz), MAX_STEPS).value));
    }
  }

  lemma MatchIsPossible(s: Schedule, t: int)
    requires MatchesAt(s, t)
    ensures Possible(s)
  {
    hide GmTime, CivilOf;
    DateFields(t);
    var tm := GmTime(t);
    assert MonthLen(tm.year, tm.mon) <= MonthLen(2000, tm.mon);
    assert 1 <= tm.mon + 1 <= 12 && tm.mday <= MonthLen(2000, tm.mon + 1 - 1);
  }

  lemma PossibleFound(s: Schedule, tz: int, from: int, m: int, d: int)
    requires InRange(s) && s.weekdays == {} && 1 <= m <= 12 && 1 <= d <= MonthLen(2000, m - 1)
    requires Allows(s.months, m) && Allows(s.days, d)
    ensures Search(s, ToLocalTm(from + TICKS, tz), MAX_STEPS).Some?
  {
    hide Search, ToLocalTm;
    if d <= MonthLen(2001, m - 1) {
      YearlyFound(s, tz, from, m, d);
    } else if s.months == {} {
      YearlyFound(s, tz, from, 1, d);
    } else if s.days == {} {
      YearlyFound(s, tz, from, m, 1);
    } else if early :| early in s.days && early < 29 {
      YearlyFound(s, tz, from, m, early);
    } else if other :| other in s.months && other != 2 {
      YearlyFound(s, tz, from, other, d);
    } else {
      assert m == 2 && d == 29;
      assert forall x :: x in s.months <==> x == 2;
      LeapDayFound(s, tz, from);
    }
  }

  // ----- Two schedules that fall back -----

  /** Midnight on 29 February, if it is a Monday. */
  function LeapMonday(): Schedule {
    Schedule({0}, {0}, {0}, {29}, {2}, {1})
  }

  /** A 29 February that does not match costs a step more, and the years go on as before. */
  lemma {:induction false} YearsAtLeast(s: Schedule, y: int, k: nat, z: int)
    requires InRange(s) && LeapDayOnly(s) && k <= 28 && y < z
    ensures |Stops(s, DayNum(y, 2, 1 + k), DayNum(z, 1, 29))| >= 29 * (z - y) - k
    decreases z - y
  {
    hide CivilOf, YearStart, MonthStart, Stops;
    if y + 1 < z { MonthsInOrder(y + 1, 1, z, 1); }
    MarchWalk(s, y, k, DayNum(z, 1, 29));
    if y + 1 < z {
      YearsAtLeast(s, y + 1, 0, z);
      MonthTable(y + 1);
      if IsLeap(y + 1) {
        CivilUnique(Date(y + 1, 1, 29));
        StopsNext(s, DayNum(y + 1, 1, 29), DayNum(z, 1, 29));
      }
    }
  }

  lemma NoLeapMonday(y: int)
    requires 2024 < y < 2038 && IsLeap(y)
    ensures (DayNum(y, 1, 29) + 4) % 7 != 1
  {
    hide YearStart, MonthStart;
    MonthTable(y);
    YearStartFormula(y);
    assert y == 2028 || y == 2032 || y == 2036;
  }

  lemma March2024()
    ensures DayNum(2024, 2, 1) == 19783
  {
    hide YearStart, MonthStart;
    MonthTable(2024);
    YearStartFormula(2024);
  }

  /** From 1 or 2 March 2024 every such Monday is 400 days of searching away. */
  lemma LeapMondayFar(goal: int, k: nat)
    requires MatchesAt(LeapMonday(), goal) && goal >= 19783 * SECS_PER_DAY && k <= 1
    ensures |Stops(LeapMonday(), 19783 + k, DayOf(goal))| >= MAX_STEPS
  {
    hide GmTime, CivilOf, YearStart, MonthStart, Stops;
    March2024();
    DateFields(goal);
    var y := CivilOf(DayOf(goal)).year;
    assert IsLeap(y);
    if y <= 2024 {
      MonthsInOrder(y, 1, 2024, 2);
    } else if y < 2038 {
      NoLeapMonday(y);
    } else {
      YearsAtLeast(LeapMonday(), 2024, k, y);
    }
  }

  /** With a month and a weekday the search can give up 20 years early: on 1 March 2024 the next
      Monday that is a 29 February is in 2044. */
  lemma LeapMondayFallsBack()
    ensures var (s, from) := (LeapMonday(), 19783 * SECS_PER_DAY * TICKS);
            && InRange(s)
            && MatchesLocally(s, 0, DayNum(2044, 1, 29) * SECS_PER_DAY)
            && Search(s, ToLocalTm(from + TICKS, 0), MAX_STEPS).None?
            && !IsNextRun(s, 0, from, NextRun(TaskType.Cron(s), 0, from))
  {
    hide GmTime, TimeGm, CivilOf, DayNum, Search, Matches, ClockOnly, Stops;
    var (s, from) := (LeapMonday(), 19783 * SECS_PER_DAY * TICKS);
    var t := 19783 * SECS_PER_DAY + 1;
    assert Start(from, 0) == t by { StartSecond(from, 0); }
    LeapMondayMatches();
    FallsBackExactly(s, 0, from);
    ClockJumpsEnd(s, t);
    var (k, u) := ClockJumps(s, t);
    Midnight(s, 19784);
    assert 19783 <= DayOf(u) <= 19784;
    forall goal | t <= goal && MatchesAt(s, goal) ensures |Stops(s, DayOf(u), DayOf(goal))| >= MAX_STEPS - k {
      LeapMondayFar(goal, DayOf(u) - 19783);
    }
    FallbackIsNoMatch(s, 0, from);
  }

  lemma LeapMondayMatches()
    ensures MatchesLocally(LeapMonday(), 0, DayNum(2044, 1, 29) * SECS_PER_DAY)
  {
    hide GmTime, CivilOf, YearStart, MonthStart;
    var n := DayNum(2044, 1, 29);
    YearStartFormula(2044);
    MonthTable(2044);
    CivilUnique(Date(2044, 1, 29));
    Split(n * SECS_PER_DAY, n, 0, 0, 0);
    DateFields(n * SECS_PER_DAY);
  }

  /** Midnight on every Friday the 13th. */
  function FridayThe13th(): Schedule {
    Schedule({0}, {0}, {0}, {13}, {}, {5})
  }

  /** From 13 August 1999 (day 10816) to 13 October 2000 (day 11243) no Friday is the 13th. */
  lemma NoFriday13(n: int)
    requires 10816 < n < 11243
    ensures !(CivilOf(n).mday == 13 && (n + 4) % 7 == 5)
  {
    hide CivilOf;
    var d := CivilOf(n);
    YearStartFormula(1999);
    YearStartFormula(2000);
    YearStartFormula(2001);
    assert YearStart(1999) == 10592 && YearStart(2000) == 10957 && YearStart(2001) == 11323;
    if d.year < 1999 {
      MonthsInOrder(d.year, d.mon, 1999, 0);
    } else if d.year > 2000 {
      YearStartMonotone(2001, d.year);
    } else {
      MonthTable(d.year);
      assert d.mon == 0 || d.mon == 1 || d.mon == 2 || d.mon == 3 || d.mon == 4 || d.mon == 5
          || d.mon == 6 || d.mon == 7 || d.mon == 8 || d.mon == 9 || d.mon == 10 || d.mon == 11;
    }
  }

  /** The search gives up too early on a gap of 427 days: after Friday 13 August 1999 the next
      match is 13 October 2000, and the search answers with the fallback. */
  lemma FridayThe13thFallsBack()
    ensures var (s, from, next) := (FridayThe13th(), 10816 * SECS_PER_DAY * TICKS, 11243 * SECS_PER_DAY * TICKS);
            && InRange(s)
            && MatchesLocally(s, 0, 11243 * SECS_PER_DAY)
            && Search(s, ToLocalTm(from + TICKS, 0), MAX_STEPS).None?
            && from < NextRun(TaskType.Cron(s), 0, from) < next
            && !IsNextRun(s, 0, from, NextRun(TaskType.Cron(s), 0, from))
  {
    hide GmTime, TimeGm, CivilOf, DayNum, Search, Matches, ClockOnly;
    var (s, from) := (FridayThe13th(), 10816 * SECS_PER_DAY * TICKS);
    var t := 10816 * SECS_PER_DAY + 1;
    assert Start(from, 0) == t by { StartSecond(from, 0); }
    FridayMatches();
    FallsBackWithoutMonths(s, 0, from);
    ClockJumpsEnd(s, t);
    var (k, u) := ClockJumps(s, t);
    Midnight(s, 10817);
    assert u <= 10817 * SECS_PER_DAY;
    assert DayOf(u) + MAX_STEPS - k < 11243;
    forall goal | t <= goal < (DayOf(u) + MAX_STEPS - k) * SECS_PER_DAY ensures !MatchesAt(s, goal) {
      FridayGap(goal);
    }
    FallbackIsNoMatch(s, 0, from);
  }

  lemma Midnight(s: Schedule, n: int)
    requires s.seconds == s.minutes == s.hours == {0}
    ensures MatchesAt(ClockOnly(s), n * SECS_PER_DAY)
  {
    hide GmTime;
    Split(n * SECS_PER_DAY, n, 0, 0, 0);
  }

  lemma FridayGap(goal: int)
    requires 10816 * SECS_PER_DAY < goal < 11243 * SECS_PER_DAY
    ensures !MatchesAt(FridayThe13th(), goal)
  {
    hide GmTime, CivilOf, DayNum;
    ClockFields(goal);
    DateFields(goal);
    if goal == DayOf(goal) * SECS_PER_DAY { NoFriday13(DayOf(goal)); }
  }

  lemma FridayMatches()
    ensures MatchesLocally(FridayThe13th(), 0, 11243 * SECS_PER_DAY)
  {
    hide GmTime, CivilOf;
    YearStartFormula(2000);
    MonthTable(2000);
    CivilUnique(Date(2000, 9, 13));
    Split(11243 * SECS_PER_DAY, 11243, 0, 0, 0);
    DateFields(11243 * SECS_PER_DAY);
  }

}
