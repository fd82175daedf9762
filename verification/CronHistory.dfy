/** What becomes of the tasks of a scheduler over any history of additions, cancellations and checks. */
module CronHistory {
  import opened Calendar
  import opened Cron

  /** The scheduler's fields. */
  datatype Scheduler = Scheduler(tasks: map<nat, Task>, nextId: nat)

  datatype Op = Add(kind: TaskType, now: int) | CancelTask(id: nat) | Check(now: int)

  function After(s: Scheduler, tz: int, op: Op): Scheduler {
    match op
    case Add(kind, now) => Scheduler(s.tasks[s.nextId := Task(kind, 0, NextRun(kind, tz, now), true)], s.nextId + 1)
    case CancelTask(id) => if id in s.tasks then s.(tasks := s.tasks[id := s.tasks[id].(active := false)]) else s
    case Check(now) => s.(tasks := map id | id in s.tasks :: AfterCheck(s.tasks[id], tz, now))
  }

  /** The callbacks an operation runs. */
  function Ran(s: Scheduler, op: Op): set<nat> {
    if op.Check? then set id | id in s.tasks && Due(s.tasks[id], op.now) else {}
  }

  function AfterAll(s: Scheduler, tz: int, ops: seq<Op>): Scheduler
    decreases |ops|
  {
    if |ops| == 0 then s else After(AfterAll(s, tz, ops[..|ops| - 1]), tz, ops[|ops| - 1])
  }

  /** The object does the same. */
  method Perform(c: CronScheduler, op: Op) returns (ran: set<nat>)
    modifies c
    ensures Scheduler(c.tasks, c.nextId) == After(Scheduler(old(c.tasks), old(c.nextId)), c.tzOffsetMinutes, op)
    ensures ran == Ran(Scheduler(old(c.tasks), old(c.nextId)), op)
  {
    hide NextRun;
    ran := {};
    match op {
      case Add(kind, now) => var _ := c.AddTask(kind, now);
      case CancelTask(id) => var _ := c.Cancel(id);
      case Check(now) =>
        var toRun := c.RunOnce(now);
        ran := set id | id in toRun;
    }
  }

  /** Ids are given out once. */
  predicate Numbered(s: Scheduler) {
    forall id :: id in s.tasks ==> id < s.nextId
  }

  lemma {:induction false} AllNumbered(s: Scheduler, tz: int, ops: seq<Op>)
    requires Numbered(s)
    ensures Numbered(AfterAll(s, tz, ops)) && s.nextId <= AfterAll(s, tz, ops).nextId
    decreases |ops|
  {
    hide NextRun;
    if |ops| > 0 { AllNumbered(s, tz, ops[..|ops| - 1]); }
  }

  /** A check runs exactly the active tasks whose time has come. */
  lemma RunsWhenDue(s: Scheduler, now: int, id: nat)
    ensures id in Ran(s, Check(now)) <==> id in s.tasks && s.tasks[id].active && s.tasks[id].nextRun <= now
  {
  }

  /** Once cancelled, a task is never run and never changed again, whatever is done to the scheduler. */
  lemma {:induction false} CancelledNeverRuns(s: Scheduler, tz: int, id: nat, ops: seq<Op>, later: Op)
    requires Numbered(s) && id in s.tasks
    ensures var c := AfterAll(After(s, tz, CancelTask(id)), tz, ops);
      id in c.tasks && c.tasks[id] == s.tasks[id].(active := false) && id !in Ran(c, later)
    decreases |ops|
  {
    hide NextRun;
    var c := After(s, tz, CancelTask(id));
    if |ops| > 0 {
      var init := ops[..|ops| - 1];
      CancelledNeverRuns(s, tz, id, init, later);
      AllNumbered(c, tz, init);
    }
  }

  // ----- Interval tasks -----

  /** The times of the checks. */
  function Checks(nows: seq<int>): seq<Op> {
    seq(|nows|, i requires 0 <= i < |nows| => Check(nows[i]))
  }

  /** Whether check k runs the task. */
  predicate RunsAt(s: Scheduler, tz: int, id: nat, nows: seq<int>, k: nat)
    requires k < |nows|
  {
    id in Ran(AfterAll(s, tz, Checks(nows[..k])), Check(nows[k]))
  }

  lemma OneCheckMore(s: Scheduler, tz: int, nows: seq<int>, k: nat)
    requires k < |nows|
    ensures AfterAll(s, tz, Checks(nows[..k + 1])) == After(AfterAll(s, tz, Checks(nows[..k])), tz, Check(nows[k]))
  {
    hide After;
    var ops := Checks(nows[..k + 1]);
    assert ops[..|ops| - 1] == Checks(nows[..k]);
  }

  /** Since when the task waits for its next run: the addition, or the last check that ran it. */
  predicate Waiting(s: Scheduler, id: nat, n: int, since: int) {
    id in s.tasks && s.tasks[id].active && s.tasks[id].kind == Interval(n) && s.tasks[id].nextRun == since + n * 1_000_000_000
  }

  lemma {:induction false} StillWaiting(s: Scheduler, tz: int, id: nat, n: int, since: int, nows: seq<int>, i: nat, k: nat)
    requires i <= k <= |nows| && Waiting(AfterAll(s, tz, Checks(nows[..i])), id, n, since)
    requires forall j :: i <= j < k ==> !RunsAt(s, tz, id, nows, j)
    ensures Waiting(AfterAll(s, tz, Checks(nows[..k])), id, n, since)
    decreases k - i
  {
    hide AfterAll, NextRun;
    if i < k {
      StillWaiting(s, tz, id, n, since, nows, i, k - 1);
      assert !RunsAt(s, tz, id, nows, k - 1);
      OneCheckMore(s, tz, nows, k - 1);
    }
  }

  lemma WaitsAgain(s: Scheduler, tz: int, id: nat, n: int, nows: seq<int>, i: nat)
    requires i < |nows| && RunsAt(s, tz, id, nows, i)
    requires var t := AfterAll(s, tz, Checks(nows[..i])); id in t.tasks && t.tasks[id].kind == Interval(n)
    ensures Waiting(AfterAll(s, tz, Checks(nows[..i + 1])), id, n, nows[i])
  {
    hide AfterAll;
    OneCheckMore(s, tz, nows, i);
  }

  lemma {:induction false} KindStays(s: Scheduler, tz: int, id: nat, n: int, nows: seq<int>, k: nat)
    requires k <= |nows| && id in s.tasks && s.tasks[id].kind == Interval(n)
    ensures var t := AfterAll(s, tz, Checks(nows[..k])); id in t.tasks && t.tasks[id].kind == Interval(n)
    decreases k
  {
    hide NextRun;
    if k > 0 {
      KindStays(s, tz, id, n, nows, k - 1);
      OneCheckMore(s, tz, nows, k - 1);
    }
  }

  /** A task added with an interval is run by the first check at least that long after the addition, and
      from then on by each check at least that long after the last that ran it; by no other. */
  lemma IntervalRuns(s: Scheduler, tz: int, n: int, added: int, nows: seq<int>, k: nat)
    requires k < |nows|
    ensures var id, c := s.nextId, After(s, tz, Add(Interval(n), added));
      && ((forall j :: 0 <= j < k ==> !RunsAt(c, tz, id, nows, j)) ==>
            (RunsAt(c, tz, id, nows, k) <==> nows[k] >= added + n * 1_000_000_000))
      && (forall i :: 0 <= i < k && RunsAt(c, tz, id, nows, i) && (forall j :: i < j < k ==> !RunsAt(c, tz, id, nows, j)) ==>
            (RunsAt(c, tz, id, nows, k) <==> nows[k] >= nows[i] + n * 1_000_000_000))
  {
    var id, c := s.nextId, After(s, tz, Add(Interval(n), added));
    assert nows[..0] == [] && AfterAll(c, tz, Checks(nows[..0])) == c;
    assert Waiting(c, id, n, added);
    hide AfterAll, After, RunsAt;
    if forall j :: 0 <= j < k ==> !RunsAt(c, tz, id, nows, j) {
      StillWaiting(c, tz, id, n, added, nows, 0, k);
      RunsMeans(c, tz, id, nows, k);
    }
    forall i | 0 <= i < k && RunsAt(c, tz, id, nows, i) && forall j :: i < j < k ==> !RunsAt(c, tz, id, nows, j)
      ensures RunsAt(c, tz, id, nows, k) <==> nows[k] >= nows[i] + n * 1_000_000_000
    {
      KindStays(c, tz, id, n, nows, i);
      WaitsAgain(c, tz, id, n, nows, i);
      StillWaiting(c, tz, id, n, nows[i], nows, i + 1, k);
      RunsMeans(c, tz, id, nows, k);
    }
  }

  lemma RunsMeans(s: Scheduler, tz: int, id: nat, nows: seq<int>, k: nat)
    requires k < |nows|
    ensures var t := AfterAll(s, tz, Checks(nows[..k]));
      RunsAt(s, tz, id, nows, k) <==> id in t.tasks && t.tasks[id].active && t.tasks[id].nextRun <= nows[k]
  {
    RunsWhenDue(AfterAll(s, tz, Checks(nows[..k])), nows[k], id);
  }

  // ----- Cron tasks -----

  /** A second matches when every field that is set holds the value of its part of the local time. */
  predicate Meets(s: Schedule, local: Tm) {
    && (s.seconds == {} || local.sec in s.seconds)
    && (s.minutes == {} || local.min in s.minutes)
    && (s.hours == {} || local.hour in s.hours)
    && (s.days == {} || local.mday in s.days)
    && (s.months == {} || local.mon + 1 in s.months)
    && (s.weekdays == {} || local.wday in s.weekdays)
  }

  /** A cron task that a check runs, and whose search does not fall back, is next run at the first second
      after the check whose local time meets the schedule; for a check from 1970 on, or at a whole second. */
  lemma RescheduledToFirst(s: Scheduler, tz: int, now: int, id: nat)
    requires id in Ran(s, Check(now)) && s.tasks[id].kind.Cron? && InRange(s.tasks[id].kind.schedule)
    requires Search(s.tasks[id].kind.schedule, ToLocalTm(now + TICKS, tz), MAX_STEPS).Some?
    requires now % 1_000_000_000 == 0 || now / 1_000_000_000 + tz * 60 + 1 >= 0
    ensures var sched, t := s.tasks[id].kind.schedule, After(s, tz, Check(now)).tasks[id];
      var second := t.nextRun / 1_000_000_000;
      && t.lastRun == s.tasks[id].nextRun && t.nextRun > now && t.nextRun % 1_000_000_000 == 0
      && Meets(sched, GmTime(second + tz * 60))
      && forall u :: now < u * 1_000_000_000 < t.nextRun ==> !Meets(sched, GmTime(u + tz * 60))
  {
    hide Search, GmTime, ToLocalTm, NextRun, MatchesLocally;
    var sched := s.tasks[id].kind.schedule;
    assert s.tasks[id].kind == TaskType.Cron(sched);
    NextRunIsFirstMatch(sched, tz, now);
    var r := NextRun(TaskType.Cron(sched), tz, now);
    LocalMeets(sched, tz, r / TICKS);
    forall u | now < u * 1_000_000_000 < r ensures !Meets(sched, GmTime(u + tz * 60)) { LocalMeets(sched, tz, u); }
  }

  lemma LocalMeets(s: Schedule, tz: int, u: int)
    ensures MatchesLocally(s, tz, u) <==> Meets(s, GmTime(u + tz * 60))
  {
    hide GmTime;
  }
}
