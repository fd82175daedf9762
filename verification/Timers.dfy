/** One-shot and repeating timers: cancelling against executing, on any number of threads.

    A timer is touched only by operations on its own id, so its life is a state machine of its own;
    every locked section and every access outside the lock is one step. */
module Timers {

  datatype Kind = OneShot | Repeating

  /** A timer and what is under way for it.  `active`: it is in active_timers_.  The counters say how
      many of its executions stand at each point: `pending`, not yet given to the task group,
      `scheduled` there, `entered` past the locked test, `called` in the callback, `again` about to
      be scheduled once more.  `starts` and `rounds` count callbacks and further schedulings. */
  datatype Timer = Timer(
    kind: Kind, interval: int, first: int, next: int, cancelled: bool, active: bool,
    pending: nat, scheduled: nat, entered: nat, called: nat, again: nat, starts: nat, rounds: nat)

  datatype Event = Schedule | Begin | Call | Finish | Reschedule | Cancel

  /** A timer just put into active_timers_. */
  function New(kind: Kind, interval: int, first: int): Timer {
    Timer(kind, interval, first, first, false, true, 1, 0, 0, 0, 0, 0, 0)
  }

  predicate Enabled(t: Timer, e: Event) {
    match e
    case Schedule => t.pending > 0
    case Begin => t.scheduled > 0
    case Call => t.entered > 0
    case Finish => t.called > 0
    case Reschedule => t.again > 0
    case Cancel => true
  }

  function Step(t: Timer, e: Event): Timer
    requires Enabled(t, e)
  {
    match e
    case Schedule => t.(pending := t.pending - 1, scheduled := t.scheduled + 1)
    case Begin =>
      var u := t.(scheduled := t.scheduled - 1);
      if !t.active || t.cancelled then u
      else u.(entered := t.entered + 1, active := t.kind == Repeating)
    case Call => t.(entered := t.entered - 1, called := t.called + 1, starts := t.starts + 1)
    case Finish =>
      if t.kind == Repeating && !t.cancelled then t.(called := t.called - 1, again := t.again + 1)
      else t.(called := t.called - 1)
    case Reschedule =>
      t.(again := t.again - 1, next := t.next + t.interval, rounds := t.rounds + 1, scheduled := t.scheduled + 1)
    case Cancel => if t.active then t.(cancelled := true, active := false) else t
  }

  /** Steps that are not enabled do not happen. */
  function Run(t: Timer, es: seq<Event>): Timer
    decreases |es|
  {
    if |es| == 0 then t
    else Run(if Enabled(t, es[0]) then Step(t, es[0]) else t, es[1..])
  }

  // ----- The invariant -----

  function Outstanding(t: Timer): nat {
    t.pending + t.scheduled + t.entered + t.called + t.again
  }

  predicate Inv(t: Timer) {
    && Outstanding(t) <= 1
    && (t.active ==> !t.cancelled && Outstanding(t) == 1)
    && t.next == t.first + t.rounds * t.interval
    && (t.pending + t.scheduled + t.entered == 1 ==> t.starts == t.rounds)
    && (t.called + t.again == 1 ==> t.starts == t.rounds + 1)
    && t.starts <= t.rounds + 1
    && (t.kind == OneShot ==> t.rounds == 0 && t.again == 0)
    && (t.kind == OneShot && t.active ==> t.starts == 0 && t.pending + t.scheduled == 1)
    && (t.kind == OneShot && t.cancelled ==> t.starts == 0 && t.entered == 0 && t.called == 0)
  }

  lemma NextTarget(first: int, rounds: nat, interval: int)
    ensures first + (rounds + 1) * interval == first + rounds * interval + interval
  {
  }

  lemma StepInv(t: Timer, e: Event)
    requires Inv(t) && Enabled(t, e)
    ensures Inv(Step(t, e))
  {
    NextTarget(t.first, t.rounds, t.interval);
  }

  lemma {:induction false} RunInv(t: Timer, es: seq<Event>)
    requires Inv(t)
    ensures Inv(Run(t, es))
    decreases |es|
  {
    hide Inv, Step, Enabled;
    if |es| > 0 {
      if Enabled(t, es[0]) { StepInv(t, es[0]); }
      RunInv(if Enabled(t, es[0]) then Step(t, es[0]) else t, es[1..]);
    }
  }

  // ----- What users can rely on -----

  /** Never more than one execution of a timer is under way, and one is as long as it is active. */
  lemma OneOutstanding(kind: Kind, interval: int, first: int, es: seq<Event>)
    ensures var t := Run(New(kind, interval, first), es);
      Outstanding(t) <= 1 && (t.active ==> Outstanding(t) == 1)
  {
    RunInv(New(kind, interval, first), es);
  }

  /** A one-shot timer's callback runs at most once, and not at all once CancelTimer returned true. */
  lemma OneShotOnce(interval: int, first: int, es: seq<Event>)
    ensures var t := Run(New(OneShot, interval, first), es);
      t.starts <= 1 && (t.cancelled ==> t.starts == 0)
  {
    RunInv(New(OneShot, interval, first), es);
    KeepsKind(New(OneShot, interval, first), es);
  }

  lemma {:induction false} KeepsKind(t: Timer, es: seq<Event>)
    ensures var u := Run(t, es); u.kind == t.kind && u.first == t.first && u.interval == t.interval
    decreases |es|
  {
    if |es| > 0 { KeepsKind(if Enabled(t, es[0]) then Step(t, es[0]) else t, es[1..]); }
  }

  /** The callback about to start for the k-th time, counting from 0, was due k intervals after the
      first target: repeating timers do not drift. */
  lemma TargetsDoNotDrift(kind: Kind, interval: int, first: int, es: seq<Event>)
    ensures var t := Run(New(kind, interval, first), es);
      Enabled(t, Begin) || Enabled(t, Call) ==> t.next == first + t.starts * interval
  {
    RunInv(New(kind, interval, first), es);
    KeepsKind(New(kind, interval, first), es);
  }

  /** Once cancelled, no execution gets past the locked test: only a callback that had already passed
      it can still start. */
  lemma {:induction false} NoStartAfterCancel(t: Timer, es: seq<Event>)
    requires t.cancelled && !t.active
    ensures Run(t, es).starts + Run(t, es).entered == t.starts + t.entered && Run(t, es).cancelled && !Run(t, es).active
    decreases |es|
  {
    if |es| > 0 { NoStartAfterCancel(if Enabled(t, es[0]) then Step(t, es[0]) else t, es[1..]); }
  }

  /** After CancelTimer returned true a repeating timer's callback starts at most once more, and not
      at all unless an execution had passed the test when it was cancelled. */
  lemma CancelStops(interval: int, first: int, before: seq<Event>, es: seq<Event>)
    requires Run(New(Repeating, interval, first), before).active
    ensures var t := Run(New(Repeating, interval, first), before);
      var u := Run(Step(t, Cancel), es);
      t.starts <= u.starts <= t.starts + t.entered <= t.starts + 1
  {
    var t := Run(New(Repeating, interval, first), before);
    RunInv(New(Repeating, interval, first), before);
    NoStartAfterCancel(Step(t, Cancel), es);
    StartsGrow(Step(t, Cancel), es);
  }

  lemma {:induction false} StartsGrow(t: Timer, es: seq<Event>)
    ensures t.starts <= Run(t, es).starts
    decreases |es|
  {
    if |es| > 0 { StartsGrow(if Enabled(t, es[0]) then Step(t, es[0]) else t, es[1..]); }
  }

  /** And that one can happen exactly when one had: cancelling an active timer comes too late for a
      callback if and only if it comes between the test and the call. */
  lemma CancelComesTooLate(t: Timer)
    requires t.active && Inv(t)
    ensures (exists es :: Run(Step(t, Cancel), es).starts > t.starts) <==> t.entered > 0
  {
    var c := Step(t, Cancel);
    forall es ensures t.entered == 0 ==> Run(c, es).starts <= t.starts { NoStartAfterCancel(c, es); }
    if t.entered > 0 {
      OneStep(c, Call);
      assert Run(c, [Call]).starts > t.starts;
    }
  }

  lemma OneStep(t: Timer, e: Event)
    requires Enabled(t, e)
    ensures Run(t, [e]) == Step(t, e)
  {
    assert [e][1..] == [];
    assert Run(Step(t, e), []) == Step(t, e);
  }

  /** A run in which it does. */
  lemma CancelCanComeTooLate(interval: int, first: int)
    ensures var t := Run(New(Repeating, interval, first), [Schedule, Begin]);
      t.active && t.starts == 0 && exists es :: Run(Step(t, Cancel), es).starts > 0
  {
    var n := New(Repeating, interval, first);
    assert [Schedule, Begin][1..] == [Begin];
    var t := Step(Step(n, Schedule), Begin);
    OneStep(Step(n, Schedule), Begin);
    assert Run(n, [Schedule, Begin]) == t;
    RunInv(n, [Schedule, Begin]);
    CancelComesTooLate(t);
  }

  // ----- Callbacks do come -----

  /** The events that take an active timer from where it stands to its next callback. */
  function ToCallback(t: Timer): seq<Event> {
    if t.pending > 0 then [Schedule, Begin, Call]
    else if t.scheduled > 0 then [Begin, Call]
    else if t.entered > 0 then [Call]
    else if t.called > 0 then [Finish, Reschedule, Begin, Call]
    else [Reschedule, Begin, Call]
  }

  lemma Front(t: Timer, e: Event, es: seq<Event>)
    requires Enabled(t, e)
    ensures Run(t, [e] + es) == Run(Step(t, e), es)
  {
    assert ([e] + es)[1..] == es;
  }

  /** A timer that is active in any run and is left to go on starts its callback once more; at most two
      of the way are scheduling and rescheduling. */
  lemma CallbackStarts(kind: Kind, interval: int, first: int, es: seq<Event>)
    requires Run(New(kind, interval, first), es).active
    ensures var t := Run(New(kind, interval, first), es);
      && Cancel !in ToCallback(t)
      && Run(t, ToCallback(t)).starts == t.starts + 1
  {
    var t := Run(New(kind, interval, first), es);
    RunInv(New(kind, interval, first), es);
    hide Run;
    if t.pending > 0 {
      var u := Step(t, Schedule);
      Front(t, Schedule, [Begin, Call]);
      Front(u, Begin, [Call]);
      OneStep(Step(u, Begin), Call);
    } else if t.scheduled > 0 {
      Front(t, Begin, [Call]);
      OneStep(Step(t, Begin), Call);
    } else if t.entered > 0 {
      OneStep(t, Call);
    } else if t.called > 0 {
      var u := Step(t, Finish);
      var v := Step(u, Reschedule);
      Front(t, Finish, [Reschedule, Begin, Call]);
      Front(u, Reschedule, [Begin, Call]);
      Front(v, Begin, [Call]);
      OneStep(Step(v, Begin), Call);
    } else {
      var v := Step(t, Reschedule);
      Front(t, Reschedule, [Begin, Call]);
      Front(v, Begin, [Call]);
      OneStep(Step(v, Begin), Call);
    }
  }

  /** A repeating timer stays active until it is cancelled, a one-shot timer until its execution begins. */
  lemma {:induction false} StaysActive(t: Timer, es: seq<Event>)
    requires t.active && !t.cancelled && Cancel !in es && (t.kind == Repeating || Begin !in es)
    ensures Run(t, es).active
    decreases |es|
  {
    if |es| > 0 {
      assert es[0] != Cancel && (t.kind == Repeating || es[0] != Begin);
      StaysActive(if Enabled(t, es[0]) then Step(t, es[0]) else t, es[1..]);
    }
  }

  // ----- The code as it runs -----

  const INVALID_TIMER_ID := 0

  class BaseTimer {
    var timers: map<nat, Timer>  // every timer ever set; those in active_timers_ are active
    var nextTimerId: nat

    ghost predicate Valid()
      reads this
    {
      nextTimerId >= 1 && forall id :: id in timers ==> 1 <= id < nextTimerId && Inv(timers[id])
    }

    constructor ()
      ensures Valid() && timers == map[]
    {
      timers := map[];
      nextTimerId := 1;
    }

    /** SetRelativeTimer at time `now`: the timer is put into the table, and then scheduled. */
    method SetRelativeTimer(now: int, delayMs: nat, hasCallback: bool, kind: Kind) returns (id: nat)
      requires Valid()
      modifies this
      ensures Valid()
      ensures !hasCallback ==> id == INVALID_TIMER_ID && timers == old(timers)
      ensures hasCallback ==> id != INVALID_TIMER_ID && id !in old(timers) && timers == old(timers)[id := New(kind, delayMs, now + delayMs)]
    {
      hide Inv;
      if !hasCallback { return INVALID_TIMER_ID; }
      var target := now + delayMs;
      id := nextTimerId;
      nextTimerId := nextTimerId + 1;
      NewInv(kind, delayMs, target);
      timers := timers[id := New(kind, delayMs, target)];
    }

    method SetRepeatingTimer(now: int, intervalMs: nat, hasCallback: bool) returns (id: nat)
      requires Valid()
      modifies this
      ensures Valid()
      ensures intervalMs == 0 || !hasCallback ==> id == INVALID_TIMER_ID && timers == old(timers)
      ensures intervalMs > 0 && hasCallback ==> id !in old(timers) && timers == old(timers)[id := New(Repeating, intervalMs, now + intervalMs)]
    {
      if intervalMs == 0 { return INVALID_TIMER_ID; }
      id := SetRelativeTimer(now, intervalMs, hasCallback, Repeating);
    }

    /** True exactly when the timer was active, which it is then no more. */
    method CancelTimer(id: nat) returns (found: bool)
      requires Valid()
      modifies this
      ensures Valid()
      ensures found <==> id in old(timers) && old(timers)[id].active
      ensures timers == if id in old(timers) then old(timers)[id := Step(old(timers)[id], Cancel)] else old(timers)
    {
      hide Inv;
      if id !in timers || !timers[id].active {
        assert id in timers ==> timers == timers[id := timers[id]];
        return false;
      }
      StepInv(timers[id], Cancel);
      timers := timers[id := timers[id].(cancelled := true, active := false)];
      return true;
    }

    /** ScheduleTimerExecution after SetRelativeTimer. */
    method ScheduleTimerExecution(id: nat)
      requires Valid() && id in timers && Enabled(timers[id], Schedule)
      modifies this
      ensures Valid() && timers == old(timers)[id := Step(old(timers)[id], Schedule)]
    {
      hide Inv;
      var t := timers[id];
      StepInv(t, Schedule);
      timers := timers[id := t.(pending := t.pending - 1, scheduled := t.scheduled + 1)];
    }

    /** The locked part of ExecuteTimer: whether to go on. */
    method EnterTimer(id: nat) returns (run: bool)
      requires Valid() && id in timers && Enabled(timers[id], Begin)
      modifies this
      ensures Valid() && timers == old(timers)[id := Step(old(timers)[id], Begin)]
      ensures run == (timers[id].entered > old(timers)[id].entered)
    {
      hide Inv;
      var t := timers[id];
      StepInv(t, Begin);
      t := t.(scheduled := t.scheduled - 1);
      run := t.active && !t.cancelled;
      if run {
        t := t.(entered := t.entered + 1);
        if t.kind == OneShot { t := t.(active := false); }
      }
      timers := timers[id := t];
    }

    /** The callback. */
    method CallTimer(id: nat)
      requires Valid() && id in timers && Enabled(timers[id], Call)
      modifies this
      ensures Valid() && timers == old(timers)[id := Step(old(timers)[id], Call)]
    {
      hide Inv;
      var t := timers[id];
      StepInv(t, Call);
      timers := timers[id := t.(entered := t.entered - 1, called := t.called + 1, starts := t.starts + 1)];
    }

    /** The end of ExecuteTimer: whether ScheduleRepeatingTimer is called. */
    method FinishTimer(id: nat) returns (again: bool)
      requires Valid() && id in timers && Enabled(timers[id], Finish)
      modifies this
      ensures Valid() && timers == old(timers)[id := Step(old(timers)[id], Finish)]
      ensures again == (timers[id].again > old(timers)[id].again)
    {
      hide Inv;
      var t := timers[id];
      StepInv(t, Finish);
      again := t.kind == Repeating && !t.cancelled;
      t := t.(called := t.called - 1);
      if again { t := t.(again := t.again + 1); }
      timers := timers[id := t];
    }

    method ScheduleRepeatingTimer(id: nat)
      requires Valid() && id in timers && Enabled(timers[id], Reschedule)
      modifies this
      ensures Valid() && timers == old(timers)[id := Step(old(timers)[id], Reschedule)]
    {
      hide Inv;
      var t := timers[id];
      StepInv(t, Reschedule);
      t := t.(again := t.again - 1, next := t.next + t.interval);
      timers := timers[id := t.(rounds := t.rounds + 1, scheduled := t.scheduled + 1)];
    }
  }

  lemma NewInv(kind: Kind, interval: int, first: int)
    ensures Inv(New(kind, interval, first))
  {
  }
}
