/** The behavior-tree engine as a state machine over trees: `Tick` and `Reset` on a tree's state,
    what every run keeps, and which trees cannot be told apart.

    A tree is split into its fixed `Shape` and its changing `State`.  Actions, shuffles and events
    from outside are answered by an `Env`, a function of everything that happened before. */
module BehaviorTree {

  datatype Status = Success | Failure | Running | Idle

  /** What an action, or an interrupted guard, may return. */
  type Outcome = s: Status | s != Idle witness Success
  type Verdict = s: Status | s == Success || s == Failure witness Failure

  datatype Kind =
    | Action(id: nat)
    | Sequence | Selector | Fallback | RandomSelector
    | Inverter | Retry(maxRetries: int) | Repeater(repeatCount: int)
    | EventGuard(event: int, immediate: bool, onInterrupt: Verdict)

  datatype Shape = Shape(kind: Kind, kids: seq<Shape>)

  /** The fields a node updates; each kind uses the ones its class has. */
  datatype State = State(started: bool, status: Status, current: nat, count: int,
                         interrupted: bool, order: seq<nat>, kids: seq<State>)

  datatype Act = Call(id: nat) | Draw(size: nat)

  /** Everything outside the nodes: the event queue and the calls made so far. */
  datatype World = World(events: seq<int>, log: seq<Act>)

  datatype Env = Env(act: (seq<Act>, nat) -> Outcome,
                     shuffle: (seq<Act>, nat) -> seq<nat>,
                     arrive: seq<Act> -> seq<int>)

  predicate IsPermutation(p: seq<nat>, n: nat) {
    && |p| == n
    && (forall i :: 0 <= i < n ==> p[i] < n)
    && (forall i, j :: 0 <= i < j < n ==> p[i] != p[j])
  }

  /** std::shuffle of 0..n-1: whatever the environment answers, if it is a permutation. */
  function Shuffled(env: Env, log: seq<Act>, n: nat): (p: seq<nat>)
    ensures IsPermutation(p, n)
  {
    var p := env.shuffle(log, n);
    if IsPermutation(p, n) then p else seq(n, i requires 0 <= i < n => i)
  }

  function Happened(env: Env, w: World, a: Act): World {
    var log := w.log + [a];
    World(w.events + env.arrive(log), log)
  }

  /** consumeEvent: erase the first event of this type. */
  function Consume(events: seq<int>, event: int): seq<int> {
    if events == [] then []
    else if events[0] == event then events[1..]
    else [events[0]] + Consume(events[1..], event)
  }

  predicate IsComposite(kind: Kind) {
    kind.Sequence? || kind.Selector? || kind.Fallback? || kind.RandomSelector?
  }

  /** The state has the shape's children, and a shuffle only names children that exist. */
  ghost predicate Fits(sh: Shape, st: State)
    ensures Fits(sh, st) ==> |st.kids| == |sh.kids| && KidsFit(sh, st.kids)
    decreases sh, 1
  {
    OrderFits(st.order, |st.kids|) && KidsFit(sh, st.kids)
  }

  ghost predicate OrderFits(order: seq<nat>, n: nat) {
    forall i :: 0 <= i < |order| ==> order[i] < n
  }

  ghost predicate KidsFit(sh: Shape, kids: seq<State>)
    ensures KidsFit(sh, kids) ==> |kids| == |sh.kids| && forall i :: 0 <= i < |kids| ==> Fits(sh.kids[i], kids[i])
    decreases sh, 0
  {
    |kids| == |sh.kids| && forall i :: 0 <= i < |kids| ==> Fits(sh.kids[i], kids[i])
  }

  /** A node as its constructor leaves it. */
  function Fresh(sh: Shape): State
    decreases sh
  {
    State(false, Idle, 0, 0, false, [], seq(|sh.kids|, i requires 0 <= i < |sh.kids| => Fresh(sh.kids[i])))
  }

  // ----- reset -----

  function Reset(sh: Shape, st: State): State
    requires Fits(sh, st)
    decreases sh
  {
    st.(started := false, status := Idle,
        current := if IsComposite(sh.kind) then 0 else st.current,
        kids := seq(|st.kids|, i requires 0 <= i < |st.kids| => Reset(sh.kids[i], st.kids[i])))
  }

  lemma {:induction false} ResetFits(sh: Shape, st: State)
    requires Fits(sh, st)
    ensures Fits(sh, Reset(sh, st))
    decreases sh
  {
    forall i | 0 <= i < |st.kids| ensures Fits(sh.kids[i], Reset(sh.kids[i], st.kids[i])) {
      ResetFits(sh.kids[i], st.kids[i]);
    }
  }

  lemma {:induction false} FreshFits(sh: Shape)
    ensures Fits(sh, Fresh(sh))
    decreases sh
  {
    forall i | 0 <= i < |sh.kids| ensures Fits(sh.kids[i], Fresh(sh.kids[i])) {
      FreshFits(sh.kids[i]);
    }
  }

  // ----- tick -----

  /** Node::tick. The new status is the one it returns. */
  function Tick(env: Env, sh: Shape, st: State, w: World): (r: (State, World))
    requires Fits(sh, st)
    ensures Fits(sh, r.0)
    decreases sh, 2
  {
    var (s1, w1) := Begin(env, sh, st, w);
    var (s2, w2) := if s1.status == Running then OnTick(env, sh, s1, w1) else (s1, w1);
    (Finish(s2), w2)
  }

  function Begin(env: Env, sh: Shape, st: State, w: World): (r: (State, World))
    requires Fits(sh, st)
    ensures Fits(sh, r.0)
  {
    if st.started then (st, w) else OnStart(env, sh, st.(started := true), w)
  }

  /** The end of a tick: a node that is done stops; OnStop clears the guard's flag. */
  function Finish(st: State): State {
    if st.status == Success || st.status == Failure then st.(started := false, interrupted := false) else st
  }

  function OnStart(env: Env, sh: Shape, st: State, w: World): (r: (State, World))
    requires Fits(sh, st)
    ensures Fits(sh, r.0)
  {
    match sh.kind
    case RandomSelector =>
      if |sh.kids| == 0 then (st.(status := Failure), w)
      else
        (st.(status := Running, current := 0, order := Shuffled(env, w.log, |sh.kids|)),
         Happened(env, w, Draw(|sh.kids|)))
    case Fallback => (st.(status := Running, current := 0), w)
    case Retry(_) => (st.(status := Running, count := 0), w)
    case Repeater(_) => (st.(status := Running, count := 0), w)
    case EventGuard(_, _, _) => (st.(status := Running, interrupted := false), w)
    case _ => (st.(status := Running), w)
  }

  function OnTick(env: Env, sh: Shape, st: State, w: World): (r: (State, World))
    requires Fits(sh, st)
    ensures Fits(sh, r.0)
    decreases sh, 1
  {
    if sh.kind.Action? then
      (st.(status := env.act(w.log, sh.kind.id)), Happened(env, w, Call(sh.kind.id)))
    else if IsComposite(sh.kind) then
      Walk(env, sh, st, w)
    else if |sh.kids| == 0 then
      (st.(status := Failure), w)
    else if sh.kind.Retry? then Retrying(env, sh, st, w)
    else if sh.kind.Repeater? then Repeating(env, sh, st, w)
    else if sh.kind.EventGuard? then Guarding(env, sh, st, w)
    else
      var (s, w1) := TickKid(env, sh, st, w, 0);
      (s.(status := Invert(s.kids[0].status)), w1)
  }

  function Invert(s: Status): Status {
    match s
    case Running => Running
    case Success => Failure
    case _ => Success
  }

  function TickKid(env: Env, sh: Shape, st: State, w: World, k: nat): (r: (State, World))
    requires Fits(sh, st) && k < |sh.kids|
    ensures Fits(sh, r.0)
    decreases sh, 0, 0
  {
    var (kid, w1) := Tick(env, sh.kids[k], st.kids[k], w);
    (st.(kids := st.kids[k := kid]), w1)
  }

  /** How many positions a composite steps through, and the child at a position. */
  function Width(sh: Shape, st: State): nat {
    if sh.kind.RandomSelector? then |st.order| else |sh.kids|
  }

  function Slot(sh: Shape, st: State, i: nat): (k: nat)
    requires Fits(sh, st) && i < Width(sh, st)
    ensures k < |sh.kids|
  {
    if sh.kind.RandomSelector? then st.order[i] else i
  }

  /** A child status that ends the composite before its last child. */
  predicate Stops(kind: Kind, s: Status) {
    match kind
    case Sequence => s == Failure
    case Fallback => s != Failure
    case _ => s == Success
  }

  function StopStatus(kind: Kind): Verdict {
    if kind.Sequence? then Failure else Success
  }

  function EndStatus(kind: Kind): Verdict {
    if kind.Sequence? then Success else Failure
  }

  /** The children loop of the four composites. */
  function Walk(env: Env, sh: Shape, st: State, w: World): (r: (State, World))
    requires Fits(sh, st)
    ensures Fits(sh, r.0)
    decreases sh, 0, 1 + if st.current < Width(sh, st) then Width(sh, st) - st.current else 0
  {
    if st.current >= Width(sh, st) then
      (st.(current := 0, status := EndStatus(sh.kind)), w)
    else
      var k := Slot(sh, st, st.current);
      var (s1, w1) := TickKid(env, sh, st, w, k);
      var s := s1.kids[k].status;
      if s == Running then (s1.(status := Running), w1)
      else if Stops(sh.kind, s) then (s1.(current := 0, status := StopStatus(sh.kind)), w1)
      else Walk(env, sh, s1.(current := st.current + 1), w1)
  }

  function ResetKid(sh: Shape, st: State): (r: State)
    requires Fits(sh, st) && |sh.kids| > 0
    ensures Fits(sh, r)
  {
    ResetFits(sh.kids[0], st.kids[0]);
    st.(kids := st.kids[0 := Reset(sh.kids[0], st.kids[0])])
  }

  function Retrying(env: Env, sh: Shape, st: State, w: World): (r: (State, World))
    requires Fits(sh, st) && sh.kind.Retry? && |sh.kids| > 0
    ensures Fits(sh, r.0)
    decreases sh, 0, 1 + if st.count < sh.kind.maxRetries then sh.kind.maxRetries - st.count else 0
  {
    if st.count >= sh.kind.maxRetries then (st.(status := Failure), w)
    else
      var (s1, w1) := TickKid(env, sh, st, w, 0);
      var s := s1.kids[0].status;
      if s == Success || s == Running then (s1.(status := s), w1)
      else Retrying(env, sh, ResetKid(sh, s1.(count := st.count + 1)), w1)
  }

  function Repeating(env: Env, sh: Shape, st: State, w: World): (r: (State, World))
    requires Fits(sh, st) && sh.kind.Repeater? && |sh.kids| > 0
    ensures Fits(sh, r.0)
    decreases sh, 0, 1 + if st.count < sh.kind.repeatCount then sh.kind.repeatCount - st.count else 0
  {
    if st.count >= sh.kind.repeatCount then (st.(status := Success), w)
    else
      var (s1, w1) := TickKid(env, sh, st, w, 0);
      var s := s1.kids[0].status;
      if s == Failure || s == Running then (s1.(status := s), w1)
      else Repeating(env, sh, ResetKid(sh, s1.(count := st.count + 1)), w1)
  }

  /** EventGuard::OnTick. In the deferred mode the flag set here is looked at again in the same
      tick. */
  function Guarding(env: Env, sh: Shape, st: State, w: World): (r: (State, World))
    requires Fits(sh, st) && sh.kind.EventGuard? && |sh.kids| > 0
    ensures Fits(sh, r.0)
    decreases sh, 0, 1
  {
    var seen := sh.kind.event in w.events;
    var s1 := if seen then st.(interrupted := true) else st;
    var w1 := if seen then w.(events := Consume(w.events, sh.kind.event)) else w;
    if (seen && sh.kind.immediate) || (s1.interrupted && !sh.kind.immediate) then
      (ResetKid(sh, s1).(status := sh.kind.onInterrupt), w1)
    else
      var (s2, w2) := TickKid(env, sh, s1, w1, 0);
      (s2.(status := s2.kids[0].status), w2)
  }

  // ----- the loops, one iteration at a time -----

  lemma WalkStep(env: Env, sh: Shape, st: State, w: World)
    requires Fits(sh, st) && st.current < Width(sh, st)
    ensures var k := Slot(sh, st, st.current);
            var (s1, w1) := TickKid(env, sh, st, w, k);
            var s := s1.kids[k].status;
            Walk(env, sh, st, w) ==
              if s == Running then (s1.(status := Running), w1)
              else if Stops(sh.kind, s) then (s1.(current := 0, status := StopStatus(sh.kind)), w1)
              else Walk(env, sh, s1.(current := st.current + 1), w1)
  {
    hide TickKid;
  }

  lemma WalkEnd(env: Env, sh: Shape, st: State, w: World)
    requires Fits(sh, st) && st.current >= Width(sh, st)
    ensures Walk(env, sh, st, w) == (st.(current := 0, status := EndStatus(sh.kind)), w)
  {
  }

  lemma RetryingStep(env: Env, sh: Shape, st: State, w: World)
    requires Fits(sh, st) && sh.kind.Retry? && |sh.kids| > 0
    ensures var (s1, w1) := TickKid(env, sh, st, w, 0);
            var s := s1.kids[0].status;
            Retrying(env, sh, st, w) ==
              if st.count >= sh.kind.maxRetries then (st.(status := Failure), w)
              else if s == Success || s == Running then (s1.(status := s), w1)
              else Retrying(env, sh, ResetKid(sh, s1.(count := st.count + 1)), w1)
  {
    hide TickKid, ResetKid;
  }

  lemma RepeatingStep(env: Env, sh: Shape, st: State, w: World)
    requires Fits(sh, st) && sh.kind.Repeater? && |sh.kids| > 0
    ensures var (s1, w1) := TickKid(env, sh, st, w, 0);
            var s := s1.kids[0].status;
            Repeating(env, sh, st, w) ==
              if st.count >= sh.kind.repeatCount then (st.(status := Success), w)
              else if s == Failure || s == Running then (s1.(status := s), w1)
              else Repeating(env, sh, ResetKid(sh, s1.(count := st.count + 1)), w1)
  {
    hide TickKid, ResetKid;
  }

  // ----- runs -----

  datatype Command = DoTick | DoReset | Send(event: int) | ClearEvents

  function Step(env: Env, sh: Shape, st: State, w: World, c: Command): (r: (State, World))
    requires Fits(sh, st)
    ensures Fits(sh, r.0)
  {
    ResetFits(sh, st);
    match c
    case DoTick => Tick(env, sh, st, w)
    case DoReset => (Reset(sh, st), w)
    case Send(e) => (st, w.(events := w.events + [e]))
    case ClearEvents => (st, w.(events := []))
  }

  function Run(env: Env, sh: Shape, st: State, w: World, cs: seq<Command>): (r: (State, World))
    requires Fits(sh, st)
    ensures Fits(sh, r.0)
    decreases |cs|
  {
    if cs == [] then (st, w)
    else
      var (s1, w1) := Step(env, sh, st, w, cs[0]);
      Run(env, sh, s1, w1, cs[1..])
  }

  /** What an observer of a run sees: the status each tick returns and, at the end, every call
      made, in order, and the events left. */
  function Observed(env: Env, sh: Shape, st: State, w: World, cs: seq<Command>): (seq<Status>, World)
    requires Fits(sh, st)
    decreases |cs|
  {
    if cs == [] then ([], w)
    else
      var (s1, w1) := Step(env, sh, st, w, cs[0]);
      var (rest, end) := Observed(env, sh, s1, w1, cs[1..]);
      (if cs[0].DoTick? then [s1.status] + rest else rest, end)
  }

  // ----- what every run keeps -----

  /** The child that is running when the node is. */
  function ActiveSlot(sh: Shape, st: State): nat
    requires Fits(sh, st)
  {
    if IsComposite(sh.kind) && st.current < Width(sh, st) then Slot(sh, st, st.current) else 0
  }

  /** A counting decorator still has attempts left. */
  predicate Armed(kind: Kind, count: int) {
    && (kind.Retry? ==> count < kind.maxRetries)
    && (kind.Repeater? ==> count < kind.repeatCount)
  }

  /** A node is started exactly when it is Running; it then is an action or has exactly one
      started child, the one its memory points at; a node that is not started has no started
      child and its memory is rewound. */
  ghost predicate Inv(sh: Shape, st: State)
    requires Fits(sh, st)
    decreases sh
  {
    && (st.started <==> st.status == Running)
    && (st.started ==> Armed(sh.kind, st.count))
    && !st.interrupted
    && (IsComposite(sh.kind) ==> if st.started then st.current < Width(sh, st) else st.current == 0)
    && (forall i :: 0 <= i < |st.kids| ==> st.kids[i].started ==> st.started && !sh.kind.Action? && i == ActiveSlot(sh, st))
    && (st.started && !sh.kind.Action? ==> |st.kids| > 0 && st.kids[ActiveSlot(sh, st)].started)
    && (forall i :: 0 <= i < |st.kids| ==> Inv(sh.kids[i], st.kids[i]))
  }

  lemma {:induction false} FreshInv(sh: Shape)
    ensures Fits(sh, Fresh(sh)) && Inv(sh, Fresh(sh))
    decreases sh
  {
    FreshFits(sh);
    forall i | 0 <= i < |sh.kids| ensures Inv(sh.kids[i], Fresh(sh).kids[i]) {
      FreshInv(sh.kids[i]);
    }
  }

  lemma {:induction false} ResetInv(sh: Shape, st: State)
    requires Fits(sh, st) && Inv(sh, st)
    ensures Fits(sh, Reset(sh, st)) && Inv(sh, Reset(sh, st)) && !Reset(sh, st).started
    decreases sh
  {
    ResetFits(sh, st);
    forall i | 0 <= i < |st.kids| ensures Inv(sh.kids[i], Reset(sh, st).kids[i]) && !Reset(sh, st).kids[i].started {
      ResetInv(sh.kids[i], st.kids[i]);
    }
  }

  /** A started node in the middle of its tick: its children are as `Inv` asks, and none is
      started other than the one its memory points at. */
  ghost predicate Midway(sh: Shape, st: State)
    requires Fits(sh, st)
  {
    && st.started && !st.interrupted && !sh.kind.Action?
    && (forall i :: 0 <= i < |st.kids| ==> Inv(sh.kids[i], st.kids[i]))
    && (forall i :: 0 <= i < |st.kids| ==> st.kids[i].started ==>
          && i == ActiveSlot(sh, st) && Armed(sh.kind, st.count)
          && (IsComposite(sh.kind) ==> st.current < Width(sh, st)))
  }

  /** A tick keeps the invariant and returns Success, Failure or Running. */
  lemma {:induction false} TickInv(env: Env, sh: Shape, st: State, w: World)
    requires Fits(sh, st) && Inv(sh, st)
    ensures Inv(sh, Tick(env, sh, st, w).0)
    ensures Tick(env, sh, st, w).0.status != Idle
    decreases sh, 2
  {
    var (s1, w1) := Begin(env, sh, st, w);
    if s1.status == Running && !sh.kind.Action? {
      assert Midway(sh, s1);
      OnTickInv(env, sh, s1, w1);
    }
  }

  lemma {:induction false} OnTickInv(env: Env, sh: Shape, st: State, w: World)
    requires Fits(sh, st) && Midway(sh, st) && !sh.kind.Action?
    ensures Inv(sh, Finish(OnTick(env, sh, st, w).0)) && OnTick(env, sh, st, w).0.status != Idle
    decreases sh, 1
  {
    hide Inv, Midway;
    if IsComposite(sh.kind) {
      WalkInv(env, sh, st, w);
    } else if |sh.kids| == 0 {
      DoneInv(sh, st, Failure);
    } else if sh.kind.Retry? {
      RetryingInv(env, sh, st, w);
    } else if sh.kind.Repeater? {
      RepeatingInv(env, sh, st, w);
    } else if sh.kind.EventGuard? {
      GuardingInv(env, sh, st, w);
    } else {
      var (s, w1) := TickKid(env, sh, st, w, 0);
      KidInv(env, sh, st, w, 0);
      if s.kids[0].status == Running { RunningInv(sh, s); } else { DoneInv(sh, s, Invert(s.kids[0].status)); }
    }
  }

  /** Ticking the active child keeps the node midway; the child is started exactly when it is
      Running. */
  lemma {:induction false} KidInv(env: Env, sh: Shape, st: State, w: World, k: nat)
    requires Fits(sh, st) && Midway(sh, st) && k < |sh.kids| && k == ActiveSlot(sh, st)
    requires Armed(sh.kind, st.count) && (IsComposite(sh.kind) ==> st.current < Width(sh, st))
    ensures var s := TickKid(env, sh, st, w, k).0;
            Midway(sh, s) && s.kids[k].status != Idle && (s.kids[k].started <==> s.kids[k].status == Running)
    decreases sh, 0, 0
  {
    TickInv(env, sh.kids[k], st.kids[k], w);
  }

  /** A node whose active child is not started may stop, or move on. */
  lemma DoneInv(sh: Shape, st: State, s: Status)
    requires Fits(sh, st) && Midway(sh, st) && (s == Success || s == Failure)
    requires |st.kids| > ActiveSlot(sh, st) ==> !st.kids[ActiveSlot(sh, st)].started
    ensures Inv(sh, Finish(st.(status := s, current := if IsComposite(sh.kind) then 0 else st.current)))
    ensures Inv(sh, Finish(st.(status := s, current := 0)))
  {
    var r := Finish(st.(status := s, current := 0));
    assert forall i :: 0 <= i < |r.kids| ==> !r.kids[i].started;
  }

  lemma RunningInv(sh: Shape, st: State)
    requires Fits(sh, st) && Midway(sh, st) && |st.kids| > 0 && st.kids[ActiveSlot(sh, st)].started
    ensures Inv(sh, Finish(st.(status := Running)))
  {
    var r := Finish(st.(status := Running));
    assert ActiveSlot(sh, r) == ActiveSlot(sh, st);
  }

  lemma {:induction false} WalkInv(env: Env, sh: Shape, st: State, w: World)
    requires Fits(sh, st) && Midway(sh, st) && IsComposite(sh.kind)
    ensures Inv(sh, Finish(Walk(env, sh, st, w).0)) && Walk(env, sh, st, w).0.status != Idle
    decreases sh, 0, 1 + if st.current < Width(sh, st) then Width(sh, st) - st.current else 0
  {
    hide Inv;
    if st.current >= Width(sh, st) {
      DoneInv(sh, st, EndStatus(sh.kind));
    } else {
      var k := Slot(sh, st, st.current);
      var (s1, w1) := TickKid(env, sh, st, w, k);
      KidInv(env, sh, st, w, k);
      var s := s1.kids[k].status;
      if s == Running {
        RunningInv(sh, s1);
      } else if Stops(sh.kind, s) {
        DoneInv(sh, s1, StopStatus(sh.kind));
      } else {
        WalkInv(env, sh, s1.(current := st.current + 1), w1);
      }
    }
  }

  lemma {:induction false} ResetKidInv(sh: Shape, st: State)
    requires Fits(sh, st) && Midway(sh, st) && |sh.kids| > 0 && !IsComposite(sh.kind)
    ensures Midway(sh, ResetKid(sh, st)) && !ResetKid(sh, st).kids[0].started
  {
    ResetInv(sh.kids[0], st.kids[0]);
  }

  lemma {:induction false} RetryingInv(env: Env, sh: Shape, st: State, w: World)
    requires Fits(sh, st) && Midway(sh, st) && sh.kind.Retry? && |sh.kids| > 0
    ensures Inv(sh, Finish(Retrying(env, sh, st, w).0)) && Retrying(env, sh, st, w).0.status != Idle
    decreases sh, 0, 1 + if st.count < sh.kind.maxRetries then sh.kind.maxRetries - st.count else 0
  {
    hide Inv;
    if st.count >= sh.kind.maxRetries {
      DoneInv(sh, st, Failure);
    } else {
      var (s1, w1) := TickKid(env, sh, st, w, 0);
      KidInv(env, sh, st, w, 0);
      var s := s1.kids[0].status;
      if s == Running {
        RunningInv(sh, s1);
      } else if s == Success {
        DoneInv(sh, s1, s);
      } else {
        var next := s1.(count := st.count + 1);
        ResetKidInv(sh, next);
        RetryingInv(env, sh, ResetKid(sh, next), w1);
      }
    }
  }

  lemma {:induction false} RepeatingInv(env: Env, sh: Shape, st: State, w: World)
    requires Fits(sh, st) && Midway(sh, st) && sh.kind.Repeater? && |sh.kids| > 0
    ensures Inv(sh, Finish(Repeating(env, sh, st, w).0)) && Repeating(env, sh, st, w).0.status != Idle
    decreases sh, 0, 1 + if st.count < sh.kind.repeatCount then sh.kind.repeatCount - st.count else 0
  {
    hide Inv;
    if st.count >= sh.kind.repeatCount {
      DoneInv(sh, st, Success);
    } else {
      var (s1, w1) := TickKid(env, sh, st, w, 0);
      KidInv(env, sh, st, w, 0);
      var s := s1.kids[0].status;
      if s == Running {
        RunningInv(sh, s1);
      } else if s == Failure {
        DoneInv(sh, s1, s);
      } else {
        var next := s1.(count := st.count + 1);
        ResetKidInv(sh, next);
        RepeatingInv(env, sh, ResetKid(sh, next), w1);
      }
    }
  }

  lemma {:induction false} GuardingInv(env: Env, sh: Shape, st: State, w: World)
    requires Fits(sh, st) && Midway(sh, st) && sh.kind.EventGuard? && |sh.kids| > 0
    ensures Inv(sh, Finish(Guarding(env, sh, st, w).0)) && Guarding(env, sh, st, w).0.status != Idle
    decreases sh, 0, 1
  {
    hide Inv;
    if sh.kind.event in w.events {
      ResetKidInv(sh, st);
      DoneInv(sh, ResetKid(sh, st), sh.kind.onInterrupt);
      var r := Guarding(env, sh, st, w).0;
      assert Finish(r) == Finish(ResetKid(sh, st).(status := sh.kind.onInterrupt, current := st.current));
    } else {
      var (s1, w1) := TickKid(env, sh, st, w, 0);
      KidInv(env, sh, st, w, 0);
      var s := s1.kids[0].status;
      if s == Running { RunningInv(sh, s1); } else { DoneInv(sh, s1, s); }
    }
  }

  /** Every run from a tree that is as `Inv` says stays so. */
  lemma {:induction false} RunInv(env: Env, sh: Shape, st: State, w: World, cs: seq<Command>)
    requires Fits(sh, st) && Inv(sh, st)
    ensures Inv(sh, Run(env, sh, st, w, cs).0)
    decreases |cs|
  {
    hide Inv, Tick, Reset;
    if cs != [] {
      TickInv(env, sh, st, w);
      ResetInv(sh, st);
      var (s1, w1) := Step(env, sh, st, w, cs[0]);
      RunInv(env, sh, s1, w1, cs[1..]);
    }
  }

  // ----- the started nodes form one path -----

  /** Nodes are named by paths of child numbers from the root. */
  ghost predicate IsNode(sh: Shape, p: seq<nat>)
    decreases |p|
  {
    p == [] || (p[0] < |sh.kids| && IsNode(sh.kids[p[0]], p[1..]))
  }

  function KindAt(sh: Shape, p: seq<nat>): Kind
    requires IsNode(sh, p)
    decreases |p|
  {
    if p == [] then sh.kind else KindAt(sh.kids[p[0]], p[1..])
  }

  function StartedAt(sh: Shape, st: State, p: seq<nat>): bool
    requires Fits(sh, st) && IsNode(sh, p)
    decreases |p|
  {
    if p == [] then st.started else StartedAt(sh.kids[p[0]], st.kids[p[0]], p[1..])
  }

  function StatusAt(sh: Shape, st: State, p: seq<nat>): Status
    requires Fits(sh, st) && IsNode(sh, p)
    decreases |p|
  {
    if p == [] then st.status else StatusAt(sh.kids[p[0]], st.kids[p[0]], p[1..])
  }

  lemma {:induction false} StartedIffRunning(sh: Shape, st: State, p: seq<nat>)
    requires Fits(sh, st) && Inv(sh, st) && IsNode(sh, p)
    ensures StartedAt(sh, st, p) <==> StatusAt(sh, st, p) == Running
    decreases |p|
  {
    if p != [] { StartedIffRunning(sh.kids[p[0]], st.kids[p[0]], p[1..]); }
  }

  lemma {:induction false} IdleBelow(sh: Shape, st: State, p: seq<nat>)
    requires Fits(sh, st) && Inv(sh, st) && !st.started && IsNode(sh, p)
    ensures !StartedAt(sh, st, p)
    decreases |p|
  {
    if p != [] { IdleBelow(sh.kids[p[0]], st.kids[p[0]], p[1..]); }
  }

  /** In a started tree the started nodes are exactly those on the path to one action. */
  lemma {:induction false} OneActivePath(sh: Shape, st: State) returns (a: seq<nat>)
    requires Fits(sh, st) && Inv(sh, st) && st.started
    ensures IsNode(sh, a) && KindAt(sh, a).Action?
    ensures forall p :: IsNode(sh, p) ==> (StartedAt(sh, st, p) <==> p <= a)
    decreases sh
  {
    if sh.kind.Action? {
      a := [];
      forall p | IsNode(sh, p) && p != [] ensures !StartedAt(sh, st, p) {
        IdleBelow(sh.kids[p[0]], st.kids[p[0]], p[1..]);
      }
    } else {
      var k := ActiveSlot(sh, st);
      var rest := OneActivePath(sh.kids[k], st.kids[k]);
      a := [k] + rest;
      assert a[1..] == rest;
      forall p | IsNode(sh, p) ensures StartedAt(sh, st, p) <==> p <= a {
        if p != [] {
          if p[0] == k {
            assert p <= a <==> p[1..] <= rest by { assert p == [k] + p[1..]; }
          } else {
            IdleBelow(sh.kids[p[0]], st.kids[p[0]], p[1..]);
          }
        }
      }
    }
  }

  /** A node is started exactly when its status is Running, and the started nodes are either none or
      exactly the nodes on the path from the root to one action. */
  ghost predicate OneActivePathOrNone(sh: Shape, st: State)
    requires Fits(sh, st)
  {
    && (forall p :: IsNode(sh, p) ==> (StartedAt(sh, st, p) <==> StatusAt(sh, st, p) == Running))
    && (if st.started
        then exists a :: IsNode(sh, a) && KindAt(sh, a).Action?
               && forall p :: IsNode(sh, p) ==> (StartedAt(sh, st, p) <==> p <= a)
        else forall p :: IsNode(sh, p) ==> !StartedAt(sh, st, p))
  }

  /** In every reachable tree a node is started exactly when its status is Running, and the started
      nodes are either none or exactly the nodes on the path from the root to one action. */
  lemma ReachableStructure(env: Env, sh: Shape, w: World, cs: seq<Command>)
    ensures Fits(sh, Fresh(sh))
    ensures var st := Run(env, sh, Fresh(sh), w, cs).0;
      OneActivePathOrNone(sh, st)
  {
    FreshInv(sh);
    RunInv(env, sh, Fresh(sh), w, cs);
    var st := Run(env, sh, Fresh(sh), w, cs).0;
    forall p | IsNode(sh, p) ensures StartedAt(sh, st, p) <==> StatusAt(sh, st, p) == Running {
      StartedIffRunning(sh, st, p);
    }
    if st.started {
      var a := OneActivePath(sh, st);
    } else {
      forall p | IsNode(sh, p) ensures !StartedAt(sh, st, p) { IdleBelow(sh, st, p); }
    }
  }
}
