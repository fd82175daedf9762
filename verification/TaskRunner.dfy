/** The task runner: immediate tasks in a queue, delayed ones in a multimap by deadline, and one
    loop that takes at most one of each at a time.

    Every locked section is one step, and so is taking a handle; tasks are known by the order in which
    they were posted. */
module TaskRunner {
  import opened Integers

  const INVALID_HANDLE := 0

  datatype Slot = Slot(deadline: int, handle: nat, id: nat)

  /** The fields under the lock, the handles taken for tasks not inserted yet, and a record of what
      became of every task. */
  datatype State = State(
    immediate: seq<nat>, delayed: seq<Slot>, quit: bool, advanced: int, nextHandle: nat, claimed: set<nat>,
    nextId: nat, ranNow: seq<nat>, ranLater: seq<Slot>, cancelled: seq<Slot>, dropped: set<nat>)

  const INITIAL := State([], [], false, 0, 1, {}, 0, [], [], [], {})

  datatype Event =
    | Post
    | Claim
    | PostDelayed(now: int, delay: nat, handle: nat)
    | Cancel(handle: nat)
    | RunOnce(now: int)
    | Quit
    | Start
    | Advance(ms: nat)

  // ----- Steps -----

  /** multimap::insert: after the entries of the same key. */
  function Insert(m: seq<Slot>, x: Slot): seq<Slot>
    decreases |m|
  {
    if |m| == 0 || x.deadline < m[0].deadline then [x] + m else [m[0]] + Insert(m[1..], x)
  }

  /** The place of a handle, or the end. */
  function Place(m: seq<Slot>, handle: nat): (i: nat)
    ensures i <= |m| && (i < |m| ==> m[i].handle == handle) && forall j :: 0 <= j < i ==> m[j].handle != handle
    decreases |m|
  {
    if |m| == 0 || m[0].handle == handle then 0 else 1 + Place(m[1..], handle)
  }

  function Without(m: seq<Slot>, i: nat): seq<Slot>
    requires i < |m|
  {
    m[..i] + m[i + 1..]
  }

  function StepPost(s: State): State {
    if s.quit then s.(nextId := s.nextId + 1, dropped := s.dropped + {s.nextId})
    else s.(nextId := s.nextId + 1, immediate := s.immediate + [s.nextId])
  }

  /** Not tracked, or under a handle taken before. */
  predicate MayPost(s: State, handle: nat) {
    handle == INVALID_HANDLE || handle in s.claimed
  }

  /** A task under a handle that nobody took is not posted. */
  function StepPostDelayed(s: State, now: int, delay: nat, handle: nat): State {
    if !MayPost(s, handle) then s
    else s.(nextId := s.nextId + 1, claimed := s.claimed - {handle}, delayed := Insert(s.delayed, NewSlot(s, now, delay, handle)))
  }

  function NewSlot(s: State, now: int, delay: nat, handle: nat): Slot {
    Slot(now + delay + s.advanced, handle, s.nextId)
  }

  /** What CancelDelayedTask returns. */
  predicate Cancels(s: State, handle: nat) {
    handle != INVALID_HANDLE && Place(s.delayed, handle) < |s.delayed|
  }

  function StepCancel(s: State, handle: nat): State {
    if !Cancels(s, handle) then s
    else
      var i := Place(s.delayed, handle);
      s.(delayed := Without(s.delayed, i), cancelled := s.cancelled + [s.delayed[i]])
  }

  predicate Due(s: State, now: int) {
    |s.delayed| > 0 && now + s.advanced >= s.delayed[0].deadline
  }

  /** RunImmediateAndDelayedTask. */
  function StepRun(s: State, now: int): State {
    var s1 := if |s.immediate| > 0 then s.(immediate := s.immediate[1..], ranNow := s.ranNow + [s.immediate[0]]) else s;
    if Due(s, now) then s1.(delayed := s.delayed[1..], ranLater := s.ranLater + [s.delayed[0]]) else s1
  }

  function Step(s: State, e: Event): State {
    match e
    case Post => StepPost(s)
    case Claim => s.(nextHandle := s.nextHandle + 1, claimed := s.claimed + {s.nextHandle})
    case PostDelayed(now, delay, handle) => StepPostDelayed(s, now, delay, handle)
    case Cancel(handle) => StepCancel(s, handle)
    case RunOnce(now) => StepRun(s, now)
    case Quit => s.(quit := true)
    case Start => s.(quit := false)
    case Advance(ms) => s.(advanced := s.advanced + ms)
  }

  function Run(s: State, es: seq<Event>): State
    decreases |es|
  {
    if |es| == 0 then s else Run(Step(s, es[0]), es[1..])
  }

  // ----- The invariant -----

  /** Earlier deadline first; at one deadline, posted first. */
  predicate Before(x: Slot, y: Slot) {
    x.deadline < y.deadline || (x.deadline == y.deadline && x.id < y.id)
  }

  predicate Ordered(m: seq<Slot>) {
    forall i, j :: 0 <= i < j < |m| ==> Before(m[i], m[j])
  }

  predicate Increasing(q: seq<nat>) {
    forall i, j :: 0 <= i < j < |q| ==> q[i] < q[j]
  }

  function Ids(m: seq<Slot>): seq<nat> {
    seq(|m|, i requires 0 <= i < |m| => m[i].id)
  }

  /** Where a task is, counted over all the places it can be. */
  function Count(s: State, id: nat): nat {
    multiset(s.immediate)[id] + multiset(s.ranNow)[id] + multiset(Ids(s.delayed))[id]
    + multiset(Ids(s.ranLater))[id] + multiset(Ids(s.cancelled))[id] + if id in s.dropped then 1 else 0
  }

  /** Every task posted is in exactly one place, and no other is in any. */
  ghost predicate Accounted(s: State) {
    forall id: nat :: Count(s, id) == if id < s.nextId then 1 else 0
  }

  /** Every delayed task there has been. */
  predicate Seen(s: State, x: Slot) {
    x in s.delayed || x in s.ranLater || x in s.cancelled
  }

  predicate SameHandle(x: Slot, y: Slot) {
    x.handle == y.handle && x.handle != INVALID_HANDLE
  }

  /** Tracked tasks have handles of their own, given out from 1 up; the rest of those are waiting. */
  ghost predicate Handles(s: State) {
    && 1 <= s.nextHandle
    && (forall x :: Seen(s, x) ==> x.handle < s.nextHandle)
    && (forall x, y :: Seen(s, x) && Seen(s, y) && SameHandle(x, y) ==> x == y)
    && (forall h :: h in s.claimed ==> 1 <= h < s.nextHandle && !HasSlot(s, h))
    && (forall h :: 1 <= h < s.nextHandle ==> h in s.claimed || HasSlot(s, h))
  }

  ghost predicate HasSlot(s: State, h: nat) {
    exists x :: Seen(s, x) && x.handle == h
  }

  ghost predicate Inv(s: State) {
    Accounted(s) && Handles(s) && Ordered(s.delayed) && Increasing(s.ranNow + s.immediate)
  }

  lemma {:induction false} InsertHas(m: seq<Slot>, x: Slot)
    ensures multiset(Insert(m, x)) == multiset(m) + multiset{x}
    decreases |m|
  {
    if |m| > 0 && x.deadline >= m[0].deadline {
      InsertHas(m[1..], x);
      assert m == [m[0]] + m[1..];
    }
  }

  lemma {:induction false} InsertIds(m: seq<Slot>, x: Slot)
    ensures multiset(Ids(Insert(m, x))) == multiset(Ids(m)) + multiset{x.id}
    decreases |m|
  {
    if |m| == 0 || x.deadline < m[0].deadline {
      assert Ids([x] + m) == [x.id] + Ids(m);
    } else {
      InsertIds(m[1..], x);
      assert Ids(Insert(m, x)) == [m[0].id] + Ids(Insert(m[1..], x));
      assert Ids(m) == [m[0].id] + Ids(m[1..]);
      hide Ids;
    }
  }

  lemma {:induction false} InsertOrdered(m: seq<Slot>, x: Slot)
    requires Ordered(m) && forall i :: 0 <= i < |m| ==> m[i].id < x.id
    ensures Ordered(Insert(m, x))
    decreases |m|
  {
    if |m| == 0 || x.deadline < m[0].deadline {
    } else {
      var rest := Insert(m[1..], x);
      InsertOrdered(m[1..], x);
      InsertHas(m[1..], x);
      forall i | 0 <= i < |rest| ensures Before(m[0], rest[i]) {
        assert rest[i] in multiset(rest);
        if rest[i] != x {
          assert rest[i] in m[1..];
          var j :| 0 <= j < |m[1..]| && m[1..][j] == rest[i];
          assert m[j + 1] == rest[i];
        }
      }
    }
  }

  lemma {:induction false} InsertMember(m: seq<Slot>, x: Slot, y: Slot)
    ensures y in Insert(m, x) <==> y in m || y == x
  {
    InsertHas(m, x);
    assert y in multiset(Insert(m, x)) <==> y in multiset(m) + multiset{x};
  }

  /** Taking one out. */
  lemma WithoutIds(m: seq<Slot>, i: nat)
    requires i < |m|
    ensures multiset(Ids(m)) == multiset(Ids(Without(m, i))) + multiset{m[i].id}
  {
    assert Ids(m) == Ids(m[..i]) + [m[i].id] + Ids(m[i + 1..]);
    assert Ids(Without(m, i)) == Ids(m[..i]) + Ids(m[i + 1..]);
  }

  lemma AppendIds(m: seq<Slot>, x: Slot)
    ensures multiset(Ids(m + [x])) == multiset(Ids(m)) + multiset{x.id}
  {
    assert Ids(m + [x]) == Ids(m) + [x.id];
  }

  lemma FirstIds(m: seq<Slot>)
    requires |m| > 0
    ensures multiset(Ids(m)) == multiset(Ids(m[1..])) + multiset{m[0].id}
  {
    assert Ids(m) == [m[0].id] + Ids(m[1..]);
  }

  lemma IdIn(m: seq<Slot>, i: nat)
    requires i < |m|
    ensures multiset(Ids(m))[m[i].id] >= 1
  {
    assert m[i].id == Ids(m)[i];
    assert m[i].id in Ids(m);
  }

  lemma StepCount(s: State, e: Event, id: nat)
    requires Count(s, id) == if id < s.nextId then 1 else 0
    requires s.nextId !in s.dropped || id != s.nextId
    ensures Count(Step(s, e), id) == if id < Step(s, e).nextId then 1 else 0
  {
    hide Ids, Insert, Place, Without, StepRun;
    match e {
      case Post =>
      case PostDelayed(now, delay, handle) => InsertIds(s.delayed, NewSlot(s, now, delay, handle));
      case Cancel(handle) =>
        if Cancels(s, handle) {
          var i := Place(s.delayed, handle);
          WithoutIds(s.delayed, i);
          AppendIds(s.cancelled, s.delayed[i]);
        }
      case RunOnce(now) => RunCount(s, now, id);
      case _ =>
    }
  }

  lemma RunCount(s: State, now: int, id: nat)
    ensures Count(StepRun(s, now), id) == Count(s, id) && StepRun(s, now).nextId == s.nextId
  {
    hide Ids;
    if |s.immediate| > 0 { assert s.immediate == [s.immediate[0]] + s.immediate[1..]; }
    if Due(s, now) {
      FirstIds(s.delayed);
      AppendIds(s.ranLater, s.delayed[0]);
    }
  }

  lemma StepOrdered(s: State, e: Event)
    requires Ordered(s.delayed) && Accounted(s)
    ensures Ordered(Step(s, e).delayed)
  {
    hide Insert, Place, Count;
    if e.PostDelayed? {
      forall i | 0 <= i < |s.delayed| ensures s.delayed[i].id < s.nextId {
        IdIn(s.delayed, i);
        assert Count(s, s.delayed[i].id) >= 1 by { CountAtLeast(s, s.delayed[i].id); }
      }
      InsertOrdered(s.delayed, NewSlot(s, e.now, e.delay, e.handle));
    }
  }

  lemma CountAtLeast(s: State, id: nat)
    ensures Count(s, id) >= multiset(Ids(s.delayed))[id]
    ensures Count(s, id) >= multiset(s.immediate)[id] + multiset(s.ranNow)[id]
  {
  }

  lemma StepIncreasing(s: State, e: Event)
    requires Increasing(s.ranNow + s.immediate) && Accounted(s)
    ensures Increasing(Step(s, e).ranNow + Step(s, e).immediate)
  {
    hide Insert, Place, Count, Ids;
    var q := s.ranNow + s.immediate;
    if e.Post? && !s.quit {
      forall i | 0 <= i < |q| ensures q[i] < s.nextId {
        CountAtLeast(s, q[i]);
        assert q[i] in multiset(s.immediate) + multiset(s.ranNow);
        assert Count(s, q[i]) >= 1;
      }
      assert s.ranNow + (s.immediate + [s.nextId]) == q + [s.nextId];
    } else if e.RunOnce? && |s.immediate| > 0 {
      assert s.ranNow + [s.immediate[0]] + s.immediate[1..] == q;
    }
  }

  lemma StepHandles(s: State, e: Event)
    requires Handles(s)
    ensures Handles(Step(s, e))
  {
    hide Insert, Place;
    var s' := Step(s, e);
    match e {
      case PostDelayed(now, delay, handle) =>
        if MayPost(s, handle) { PostHandles(s, now, delay, handle); }
      case Claim =>
        forall h ensures HasSlot(s', h) <==> HasSlot(s, h) { SameSlots(s, s', h); }
        assert !HasSlot(s, s.nextHandle);
        hide HasSlot;
      case _ =>
        forall y ensures Seen(s', y) <==> Seen(s, y) { StepSeen(s, e, y); }
        hide Seen;
        forall h ensures HasSlot(s', h) <==> HasSlot(s, h) { SameSlots(s, s', h); }
    }
  }

  lemma SameSlots(s: State, t: State, h: nat)
    requires forall y :: Seen(t, y) <==> Seen(s, y)
    ensures HasSlot(t, h) <==> HasSlot(s, h)
  {
    hide Seen;
    if HasSlot(s, h) {
      var y :| Seen(s, y) && y.handle == h;
      assert Seen(t, y);
    }
    if HasSlot(t, h) {
      var y :| Seen(t, y) && y.handle == h;
      assert Seen(s, y);
    }
  }

  lemma PostHandles(s: State, now: int, delay: nat, handle: nat)
    requires Handles(s) && MayPost(s, handle)
    ensures Handles(StepPostDelayed(s, now, delay, handle))
  {
    hide Insert;
    var t, x := StepPostDelayed(s, now, delay, handle), NewSlot(s, now, delay, handle);
    forall y ensures Seen(t, y) <==> Seen(s, y) || y == x { InsertMember(s.delayed, x, y); }
    hide Seen;
    forall h ensures HasSlot(t, h) <==> HasSlot(s, h) || h == handle { OneMoreSlot(s, t, x, h); }
    forall y | Seen(s, y) && y.handle == handle ensures HasSlot(s, handle) { }
  }

  lemma OneMoreSlot(s: State, t: State, x: Slot, h: nat)
    requires forall y :: Seen(t, y) <==> Seen(s, y) || y == x
    ensures HasSlot(t, h) <==> HasSlot(s, h) || h == x.handle
  {
    hide Seen;
    if HasSlot(s, h) {
      var y :| Seen(s, y) && y.handle == h;
      assert Seen(t, y);
    }
    if h == x.handle { assert Seen(t, x); }
    if HasSlot(t, h) && h != x.handle {
      var y :| Seen(t, y) && y.handle == h;
      assert Seen(s, y);
    }
  }

  lemma StepSeen(s: State, e: Event, y: Slot)
    requires !e.PostDelayed?
    ensures Seen(Step(s, e), y) <==> Seen(s, y)
  {
    hide Insert;
    if e.Cancel? && Cancels(s, e.handle) {
      WithoutMember(s.delayed, Place(s.delayed, e.handle), y);
    } else if e.RunOnce? && Due(s, e.now) {
      assert s.delayed == [s.delayed[0]] + s.delayed[1..];
    }
    hide Place, Without;
  }

  lemma WithoutMember(m: seq<Slot>, i: nat, y: Slot)
    requires i < |m|
    ensures y in m <==> y in Without(m, i) || y == m[i]
  {
    assert m == m[..i] + [m[i]] + m[i + 1..];
  }

  lemma StepInv(s: State, e: Event)
    requires Inv(s)
    ensures Inv(Step(s, e))
  {
    hide Count, Handles, Ordered, Increasing;
    assert s.nextId !in s.dropped by { NotDropped(s); }
    forall id: nat ensures Count(Step(s, e), id) == if id < Step(s, e).nextId then 1 else 0 {
      StepCount(s, e, id);
    }
    StepOrdered(s, e);
    StepIncreasing(s, e);
    StepHandles(s, e);
    hide Step;
  }

  lemma NotDropped(s: State)
    requires Accounted(s)
    ensures s.nextId !in s.dropped
  {
    assert Count(s, s.nextId) == 0;
  }

  lemma {:induction false} RunInv(s: State, es: seq<Event>)
    requires Inv(s)
    ensures Inv(Run(s, es))
    decreases |es|
  {
    hide Inv, Step;
    if |es| > 0 {
      StepInv(s, es[0]);
      RunInv(Step(s, es[0]), es[1..]);
    }
  }

  lemma InitialInv()
    ensures Inv(INITIAL)
  {
  }

  ghost predicate Reachable(s: State) {
    exists es :: s == Run(INITIAL, es)
  }

  lemma ReachableInv(s: State)
    requires Reachable(s)
    ensures Inv(s)
  {
    hide Inv, Run;
    var es :| s == Run(INITIAL, es);
    InitialInv();
    RunInv(INITIAL, es);
  }

  // ----- What callers can rely on -----

  /** Immediate tasks run in the order they were posted: those run so far come before those waiting. */
  lemma ImmediateInOrder(s: State)
    requires Reachable(s)
    ensures Increasing(s.ranNow + s.immediate)
  {
    ReachableInv(s);
    hide Increasing;
  }

  /** No task runs twice, and a task that ran was not cancelled, is not waiting and was not dropped. */
  lemma AtMostOnce(s: State, id: nat)
    requires Reachable(s)
    ensures multiset(s.ranNow)[id] + multiset(Ids(s.ranLater))[id] <= 1
    ensures multiset(s.ranNow)[id] + multiset(Ids(s.ranLater))[id] == 1 ==>
              id !in Ids(s.cancelled) && id !in s.immediate && id !in Ids(s.delayed) && id !in s.dropped
    ensures id < s.nextId ==>
              id in s.ranNow || id in Ids(s.ranLater) || id in Ids(s.cancelled) || id in s.immediate || id in Ids(s.delayed) || id in s.dropped
  {
    ReachableInv(s);
    assert Count(s, id) == if id < s.nextId then 1 else 0;
    hide Inv, Ids, Reachable;
  }

  /** A delayed task is taken when one is due, and then it is the one posted first among those with
      the earliest deadline; when none is taken, none is due. */
  lemma TakesEarliestDue(s: State, now: int)
    requires Reachable(s)
    ensures var t := StepRun(s, now);
      if t.delayed == s.delayed then forall x :: x in s.delayed ==> x.deadline > now + s.advanced
      else |s.delayed| > 0 && t.ranLater == s.ranLater + [s.delayed[0]] && s.delayed[0].deadline <= now + s.advanced
           && forall i :: 1 <= i < |s.delayed| ==> Before(s.delayed[0], s.delayed[i])
  {
    ReachableInv(s);
    hide Reachable, Accounted, Handles, Increasing;
    var t := StepRun(s, now);
    if Due(s, now) { assert |t.delayed| == |s.delayed| - 1; }
  }

  /** CancelDelayedTask with the handle of a posted task returns true exactly when the task has
      neither been taken to run nor cancelled before. */
  lemma CancelTells(s: State, handle: nat)
    requires Reachable(s) && 1 <= handle < s.nextHandle && handle !in s.claimed
    ensures Cancels(s, handle) <==> forall x :: x in s.ranLater || x in s.cancelled ==> x.handle != handle
  {
    ReachableInv(s);
    hide Reachable, Accounted, Increasing, Ordered;
    assert HasSlot(s, handle);
    var x :| Seen(s, x) && x.handle == handle;
    var i := Place(s.delayed, handle);
    if Cancels(s, handle) {
      var y := s.delayed[i];
      forall z | z in s.ranLater || z in s.cancelled ensures z.handle != handle {
        if z.handle == handle {
          assert Seen(s, z) && Seen(s, y) && SameHandle(y, z);
          TwoPlaces(s, i, y);
          assert false;
        }
      }
    } else {
      PlaceFinds(s.delayed, x);
    }
  }

  lemma PlaceFinds(m: seq<Slot>, x: Slot)
    ensures x in m ==> Place(m, x.handle) < |m|
  {
    if Place(m, x.handle) == |m| {
      assert forall j :: 0 <= j < |m| ==> m[j].handle != x.handle;
    }
  }

  lemma TwoPlaces(s: State, i: nat, y: Slot)
    requires i < |s.delayed| && s.delayed[i] == y
    ensures y in s.ranLater || y in s.cancelled ==> Count(s, y.id) >= 2
  {
    IdIn(s.delayed, i);
    if y in s.ranLater {
      var j :| 0 <= j < |s.ranLater| && s.ranLater[j] == y;
      IdIn(s.ranLater, j);
    } else if y in s.cancelled {
      var j :| 0 <= j < |s.cancelled| && s.cancelled[j] == y;
      IdIn(s.cancelled, j);
    }
  }

  lemma {:induction false} LogsGrow(s: State, es: seq<Event>)
    ensures s.cancelled <= Run(s, es).cancelled && s.ranLater <= Run(s, es).ranLater && s.ranNow <= Run(s, es).ranNow
    ensures s.nextHandle <= Run(s, es).nextHandle
    decreases |es|
  {
    hide Insert, Place, Without;
    if |es| > 0 { LogsGrow(Step(s, es[0]), es[1..]); }
  }

  /** A cancelled task never runs, whatever happens afterwards. */
  lemma CancelledNeverRuns(s: State, handle: nat, es: seq<Event>)
    requires Reachable(s) && Cancels(s, handle)
    ensures var t := Run(Step(s, Cancel(handle)), es);
      forall x :: x in t.ranLater ==> x.handle != handle
  {
    ReachableInv(s);
    var s1 := Step(s, Cancel(handle));
    StepInv(s, Cancel(handle));
    RunInv(s1, es);
    LogsGrow(s1, es);
    hide Reachable, Increasing, Ordered, Run;
    var t := Run(s1, es);
    var y := s.delayed[Place(s.delayed, handle)];
    assert y in s1.cancelled;
    assert t.cancelled[|s1.cancelled| - 1] == y;
    hide Step, Place;
    forall x | x in t.ranLater ensures x.handle != handle {
      if x.handle == handle {
        assert Seen(t, x) && Seen(t, y) && SameHandle(x, y);
        RanAndCancelled(t, y);
        assert false;
      }
    }
  }

  lemma RanAndCancelled(t: State, y: Slot)
    requires y in t.ranLater && y in t.cancelled
    ensures Count(t, y.id) >= 2
  {
    var i :| 0 <= i < |t.ranLater| && t.ranLater[i] == y;
    var j :| 0 <= j < |t.cancelled| && t.cancelled[j] == y;
    IdIn(t.ranLater, i);
    IdIn(t.cancelled, j);
  }

  // ----- Nothing waits for ever -----

  /** How often the loop went round. */
  function Rounds(es: seq<Event>): nat
    decreases |es|
  {
    if |es| == 0 then 0 else (if es[0].RunOnce? then 1 else 0) + Rounds(es[1..])
  }

  /** From s on, the loop only goes round once x is due, and no task with an earlier deadline comes. */
  predicate Undisturbed(s: State, es: seq<Event>, x: Slot)
    decreases |es|
  {
    |es| == 0 || (
      && (es[0].RunOnce? ==> es[0].now + s.advanced >= x.deadline)
      && (es[0].PostDelayed? && MayPost(s, es[0].handle) ==> es[0].now + es[0].delay + s.advanced >= x.deadline)
      && Undisturbed(Step(s, es[0]), es[1..], x))
  }

  lemma {:induction false} InsertAfter(m: seq<Slot>, x: Slot, k: nat)
    requires Ordered(m) && k < |m| && m[k].deadline <= x.deadline
    ensures |Insert(m, x)| == |m| + 1 && Insert(m, x)[k] == m[k]
    decreases |m|
  {
    InsertHas(m, x);
    assert |multiset(Insert(m, x))| == |multiset(m) + multiset{x}|;
    if k > 0 {
      assert Before(m[0], m[k]);
      InsertAfter(m[1..], x, k - 1);
    }
  }

  /** What one step does to the task at place k. */
  lemma StepPlace(s: State, e: Event, k: nat) returns (k': nat)
    requires Ordered(s.delayed) && k < |s.delayed| && Undisturbed(s, [e], s.delayed[k])
    ensures var t, x := Step(s, e), s.delayed[k];
      if k' < |t.delayed| && t.delayed[k'] == x then k' + (if e.RunOnce? then 1 else 0) <= k
      else x in t.ranLater || x in t.cancelled
  {
    hide Insert, Place;
    var x := s.delayed[k];
    k' := k;
    match e {
      case PostDelayed(now, delay, handle) =>
        if MayPost(s, handle) { InsertAfter(s.delayed, NewSlot(s, now, delay, handle), k); }
      case Cancel(handle) =>
        if Cancels(s, handle) {
          var i := Place(s.delayed, handle);
          var t := Step(s, e);
          if i < k {
            k' := k - 1;
          } else if i == k {
            assert t.cancelled[|s.cancelled|] == x;
          }
        }
      case RunOnce(now) =>
        assert k > 0 ==> Before(s.delayed[0], x);
        assert Due(s, now);
        var t := Step(s, e);
        if k == 0 { assert t.ranLater[|s.ranLater|] == x; } else { k' := k - 1; }
      case _ =>
    }
  }

  /** A due delayed task with k before it is taken within k + 1 rounds, unless it is cancelled, as
      long as no task with an earlier deadline is posted. */
  lemma {:induction false} DelayedWithin(s: State, es: seq<Event>, k: nat)
    requires Inv(s) && k < |s.delayed| && Undisturbed(s, es, s.delayed[k]) && Rounds(es) > k
    ensures s.delayed[k] in Run(s, es).ranLater || s.delayed[k] in Run(s, es).cancelled
    decreases |es|
  {
    var x, e := s.delayed[k], es[0];
    assert Undisturbed(s, [e], x) by { assert [e][1..] == []; }
    var k' := StepPlace(s, e, k);
    StepInv(s, e);
    hide Inv, Step;
    var t := Step(s, e);
    if k' < |t.delayed| && t.delayed[k'] == x {
      DelayedWithin(t, es[1..], k');
    } else {
      LogsGrow(t, es[1..]);
    }
  }

  /** An immediate task with k before it runs within k + 1 rounds, whatever else is posted. */
  lemma {:induction false} ImmediateWithin(s: State, es: seq<Event>, k: nat)
    requires k < |s.immediate| && Rounds(es) > k
    ensures s.immediate[k] in Run(s, es).ranNow
    decreases |es|
  {
    hide Insert, Place, Without;
    var x, e := s.immediate[k], es[0];
    var t := Step(s, e);
    if e.RunOnce? && k == 0 {
      assert t.ranNow[|s.ranNow|] == x;
      LogsGrow(t, es[1..]);
    } else if e.RunOnce? {
      assert t.immediate[k - 1] == x;
      ImmediateWithin(t, es[1..], k - 1);
    } else {
      assert t.immediate[k] == x;
      ImmediateWithin(t, es[1..], k);
    }
  }

  // ----- How long to sleep -----

  /** GetDelayMsToNextTaskLocked: milliseconds to wait, -1 for as long as it takes. */
  function PollTimeout(s: State, now: int): int {
    if |s.immediate| > 0 then 0
    else if |s.delayed| > 0 then
      var diff := ToInt(s.delayed[0].deadline - now - s.advanced);
      if diff < 0 then 0 else diff
    else -1
  }

  /** The loop sleeps without end only when nothing is waiting, and never past the next deadline;
      it sleeps exactly until then if that is less than 2^31 milliseconds away, and otherwise, in
      the next 2^31, not at all. */
  lemma NeverOversleeps(s: State, now: int)
    ensures PollTimeout(s, now) == -1 <==> |s.immediate| == 0 && |s.delayed| == 0
    ensures |s.immediate| == 0 && |s.delayed| > 0 ==>
              var left := s.delayed[0].deadline - now - s.advanced;
              && (-0x8000_0000 <= left < 0x8000_0000 ==> PollTimeout(s, now) == if left < 0 then 0 else left)
              && (0x8000_0000 <= left < 0x1_0000_0000 ==> PollTimeout(s, now) == 0)
              && (left >= 0 ==> 0 <= PollTimeout(s, now) <= left)
  {
  }

  // ----- The code as it runs -----

  class UnixTaskRunner {
    var immediateTasks: seq<nat>
    var delayedTasks: seq<Slot>
    var quit: bool
    var advancedTime: int
    var nextDelayedHandle: nat
    var nextId: nat  // the number of the next task posted
    ghost var ranNow: seq<nat>
    ghost var ranLater: seq<Slot>
    ghost var cancelled: seq<Slot>
    ghost var dropped: set<nat>
    ghost var claimed: set<nat>

    ghost function Abs(): State
      reads this
    {
      State(immediateTasks, delayedTasks, quit, advancedTime, nextDelayedHandle, claimed, nextId, ranNow, ranLater, cancelled, dropped)
    }

    constructor ()
      ensures Abs() == INITIAL
    {
      immediateTasks, delayedTasks, quit, advancedTime, nextDelayedHandle := [], [], false, 0, 1;
      nextId, ranNow, ranLater, cancelled, dropped, claimed := 0, [], [], [], {}, {};
    }

    /** PostTask: the new task gets the next number. */
    method PostTask()
      modifies this
      ensures Abs() == Step(old(Abs()), Post)
    {
      var task := nextId;
      nextId := nextId + 1;
      if quit {
        dropped := dropped + {task};
        return;
      }
      immediateTasks := immediateTasks + [task];
    }

    method PostDelayedTask(now: int, delayMs: nat)
      modifies this
      ensures Abs() == Step(old(Abs()), PostDelayed(now, delayMs, INVALID_HANDLE))
    {
      var task := nextId;
      var runtime := now + delayMs;
      nextId := nextId + 1;
      delayedTasks := Insert(delayedTasks, Slot(runtime + advancedTime, INVALID_HANDLE, task));
      claimed := claimed - {INVALID_HANDLE};
    }

    /** Other threads may come between the two. */
    method PostDelayedTaskWithHandle(now: int, delayMs: nat) returns (handle: nat)
      modifies this
      ensures Abs() == Step(Step(old(Abs()), Claim), PostDelayed(now, delayMs, handle)) && handle == old(nextDelayedHandle)
    {
      handle := FetchHandle();
      InsertTracked(now + delayMs, handle, now, delayMs);
    }

    /** fetch_add, outside the lock. */
    method FetchHandle() returns (handle: nat)
      modifies this
      ensures Abs() == Step(old(Abs()), Claim) && handle == old(nextDelayedHandle)
    {
      handle := nextDelayedHandle;
      nextDelayedHandle := nextDelayedHandle + 1;
      claimed := claimed + {handle};
    }

    /** The locked part. */
    method InsertTracked(runtime: int, handle: nat, ghost now: int, ghost delayMs: nat)
      requires handle in claimed && runtime == now + delayMs
      modifies this
      ensures Abs() == Step(old(Abs()), PostDelayed(now, delayMs, handle))
    {
      var task := nextId;
      nextId := nextId + 1;
      delayedTasks := Insert(delayedTasks, Slot(runtime + advancedTime, handle, task));
      claimed := claimed - {handle};
    }

    method CancelDelayedTask(handle: nat) returns (found: bool)
      modifies this
      ensures found == Cancels(old(Abs()), handle) && Abs() == Step(old(Abs()), Cancel(handle))
    {
      if handle == INVALID_HANDLE { return false; }
      var i := 0;
      while i < |delayedTasks|
        invariant 0 <= i <= |delayedTasks| && Abs() == old(Abs())
        invariant forall j :: 0 <= j < i ==> delayedTasks[j].handle != handle
      {
        if delayedTasks[i].handle == handle {
          cancelled := cancelled + [delayedTasks[i]];
          delayedTasks := Without(delayedTasks, i);
          return true;
        }
        i := i + 1;
      }
      return false;
    }

    /** The locked part of RunImmediateAndDelayedTask; the two tasks are then run in this order. */
    method RunImmediateAndDelayedTask(now: int) returns (immediate: seq<nat>, delayed: seq<nat>)
      modifies this
      ensures Abs() == Step(old(Abs()), RunOnce(now))
      ensures ranNow == old(ranNow) + immediate && Ids(ranLater) == Ids(old(ranLater)) + delayed
    {
      immediate, delayed := [], [];
      if |immediateTasks| > 0 {
        immediate := [immediateTasks[0]];
        ranNow := ranNow + immediate;
        immediateTasks := immediateTasks[1..];
      }
      if |delayedTasks| > 0 {
        var it := delayedTasks[0];
        if now + advancedTime >= it.deadline {
          delayed := [it.id];
          ranLater := ranLater + [it];
          delayedTasks := delayedTasks[1..];
        }
      }
    }
  }
}
