/** Trees that cannot be told apart: a bisimulation between tree states that is closed under ticks
    and resets, holds in every context, and gives the engine's algebraic laws. */
module BehaviorTreeLaws {
  import opened BehaviorTree

  predicate IsSelector(kind: Kind) {
    kind.Selector? || kind.Fallback?
  }

  /** Kinds that behave alike on like children: Fallback is Selector with a rewind in OnStart, and
      the two interrupt modes of EventGuard. */
  predicate Alike(a: Kind, b: Kind) {
    || a == b
    || (IsSelector(a) && IsSelector(b))
    || (a.EventGuard? && b.EventGuard? && a.event == b.event && a.onInterrupt == b.onInterrupt)
  }

  predicate Dual(a: Kind, b: Kind) {
    (a.Sequence? && IsSelector(b)) || (IsSelector(a) && b.Sequence?)
  }

  predicate IsInverter(sh: Shape) {
    sh.kind.Inverter? && |sh.kids| == 1
  }

  /** The memory that counts while a node of this kind is started. */
  predicate Aligned(kind: Kind, a: State, b: State) {
    && (IsComposite(kind) ==> a.current == b.current)
    && (kind.Retry? || kind.Repeater? ==> a.count == b.count)
    && (kind.RandomSelector? ==> a.order == b.order)
  }

  /** Two trees in states no run can tell apart. Memory of nodes that are not started does not
      count. */
  ghost predicate Same(s: Shape, a: State, t: Shape, b: State)
    requires Fits(s, a) && Fits(t, b)
    decreases s, 1
  {
    && a.started == b.started
    && (SameNode(s, a, t, b) || SameDeMorgan(s, a, t, b) || SameDoubleNot(s, a, t, b))
  }

  ghost predicate SameNode(s: Shape, a: State, t: Shape, b: State)
    requires Fits(s, a) && Fits(t, b)
    decreases s, 0
  {
    && Alike(s.kind, t.kind) && |s.kids| == |t.kids|
    && (a.started ==> Aligned(s.kind, a, b))
    && (forall i :: 0 <= i < |s.kids| ==> Same(s.kids[i], a.kids[i], t.kids[i], b.kids[i]))
  }

  /** Inverter(Sequence(c..)) against Selector(Inverter(c)..), and the other way round. */
  ghost predicate SameDeMorgan(s: Shape, a: State, t: Shape, b: State)
    requires Fits(s, a) && Fits(t, b)
    decreases s, 0
  {
    && IsInverter(s) && Dual(s.kids[0].kind, t.kind)
    && (a.started ==> a.kids[0].current == b.current)
    && Inverted(s.kids[0], a.kids[0], t, b)
  }

  ghost predicate Inverted(q: Shape, x: State, t: Shape, b: State)
    requires Fits(q, x) && Fits(t, b)
    decreases q, 2
  {
    && |q.kids| == |t.kids|
    && (forall i :: 0 <= i < |t.kids| ==> IsInverter(t.kids[i]) && Fits(t.kids[i], b.kids[i]))
    && (forall i :: 0 <= i < |q.kids| ==> Fits(q.kids[i], x.kids[i]))
    && (forall i :: 0 <= i < |t.kids| ==> Same(q.kids[i], x.kids[i], t.kids[i].kids[0], b.kids[i].kids[0]))
  }

  /** Inverter(Inverter(c)) against c. */
  ghost predicate SameDoubleNot(s: Shape, a: State, t: Shape, b: State)
    requires Fits(s, a) && Fits(t, b)
    decreases s, 0
  {
    && IsInverter(s) && IsInverter(s.kids[0]) && Fits(s.kids[0], a.kids[0])
    && Same(s.kids[0].kids[0], a.kids[0].kids[0], t, b)
  }

  // ----- resets -----

  lemma ResetKids(sh: Shape, st: State)
    requires Fits(sh, st)
    ensures Fits(sh, Reset(sh, st)) && |Reset(sh, st).kids| == |st.kids| == |sh.kids|
    ensures forall i :: 0 <= i < |sh.kids| ==>
              && Fits(sh.kids[i], st.kids[i]) && Fits(sh.kids[i], Reset(sh, st).kids[i])
              && Reset(sh, st).kids[i] == Reset(sh.kids[i], st.kids[i])
  {
    ResetFits(sh, st);
  }

  lemma {:induction false} SameReset(s: Shape, a: State, t: Shape, b: State)
    requires Fits(s, a) && Fits(t, b) && Same(s, a, t, b)
    ensures Fits(s, Reset(s, a)) && Fits(t, Reset(t, b)) && Same(s, Reset(s, a), t, Reset(t, b))
    decreases s
  {
    ResetKids(s, a);
    ResetKids(t, b);
    var (a', b') := (Reset(s, a), Reset(t, b));
    if SameNode(s, a, t, b) {
      forall i | 0 <= i < |s.kids| ensures Same(s.kids[i], a'.kids[i], t.kids[i], b'.kids[i]) {
        SameReset(s.kids[i], a.kids[i], t.kids[i], b.kids[i]);
      }
      assert SameNode(s, a', t, b');
    } else if SameDeMorgan(s, a, t, b) {
      InvertedReset(s, a, t, b);
      SameIntro(s, a', t, b');
    } else {
      ResetKids(s.kids[0], a.kids[0]);
      SameReset(s.kids[0].kids[0], a.kids[0].kids[0], t, b);
      assert SameDoubleNot(s, a', t, b');
    }
  }

  lemma {:induction false} InvertedReset(s: Shape, a: State, t: Shape, b: State)
    requires Fits(s, a) && Fits(t, b) && SameDeMorgan(s, a, t, b)
    ensures Fits(s, Reset(s, a)) && Fits(t, Reset(t, b)) && SameDeMorgan(s, Reset(s, a), t, Reset(t, b))
    decreases s, 0
  {
    hide Same;
    ResetKids(s, a);
    ResetKids(t, b);
    var (q, x, a', b') := (s.kids[0], a.kids[0], Reset(s, a), Reset(t, b));
    ResetKids(q, x);
    var x' := a'.kids[0];
    forall i | 0 <= i < |q.kids|
      ensures Fits(t.kids[i], b'.kids[i])
      ensures Same(q.kids[i], x'.kids[i], t.kids[i].kids[0], b'.kids[i].kids[0])
    {
      ResetKids(t.kids[i], b.kids[i]);
      SameReset(q.kids[i], x.kids[i], t.kids[i].kids[0], b.kids[i].kids[0]);
    }
    assert Inverted(q, x', t, b');
  }

  lemma SameIntro(s: Shape, a: State, t: Shape, b: State)
    requires Fits(s, a) && Fits(t, b) && a.started == b.started
    requires SameNode(s, a, t, b) || SameDeMorgan(s, a, t, b) || SameDoubleNot(s, a, t, b)
    ensures Same(s, a, t, b)
  {
  }

  /** Whatever a tree's state, after a reset it is a fresh tree but for memory that does not
      count. */
  lemma {:induction false} ResetIsFresh(s: Shape, a: State)
    requires Fits(s, a)
    ensures Fits(s, Reset(s, a)) && Fits(s, Fresh(s)) && Same(s, Reset(s, a), s, Fresh(s))
    decreases s
  {
    ResetFits(s, a);
    FreshFits(s);
    forall i | 0 <= i < |s.kids| ensures Same(s.kids[i], Reset(s, a).kids[i], s.kids[i], Fresh(s).kids[i]) {
      ResetIsFresh(s.kids[i], a.kids[i]);
    }
    assert SameNode(s, Reset(s, a), s, Fresh(s));
  }

  // ----- ticks: two like nodes -----

  /** Two like nodes in the middle of a tick. */
  ghost predicate Pair(s: Shape, a: State, t: Shape, b: State)
    requires Fits(s, a) && Fits(t, b)
  {
    && Midway(s, a) && Midway(t, b)
    && Alike(s.kind, t.kind) && |s.kids| == |t.kids|
    && Aligned(s.kind, a, b)
    && (forall i :: 0 <= i < |s.kids| ==> Same(s.kids[i], a.kids[i], t.kids[i], b.kids[i]))
  }

  /** The same once their OnTick has set a status. */
  ghost predicate Done(s: Shape, a: State, t: Shape, b: State)
    requires Fits(s, a) && Fits(t, b)
  {
    && a.started && b.started && a.status == b.status != Idle
    && Alike(s.kind, t.kind) && |s.kids| == |t.kids|
    && (a.status == Running ==> Aligned(s.kind, a, b))
    && (forall i :: 0 <= i < |s.kids| ==> Same(s.kids[i], a.kids[i], t.kids[i], b.kids[i]))
  }

  lemma DoneSame(s: Shape, a: State, t: Shape, b: State)
    requires Fits(s, a) && Fits(t, b) && Done(s, a, t, b)
    ensures Same(s, Finish(a), t, Finish(b))
  {
    assert SameNode(s, Finish(a), t, Finish(b));
  }

  /** One tick of two trees in the same situation: same status, same calls, and again the same
      situation. */
  lemma {:induction false} SameTick(env: Env, s: Shape, a: State, t: Shape, b: State, w: World)
    requires Fits(s, a) && Fits(t, b) && Inv(s, a) && Inv(t, b) && Same(s, a, t, b)
    ensures var (x, y) := (Tick(env, s, a, w), Tick(env, t, b, w));
            x.0.status == y.0.status && x.1 == y.1 && Same(s, x.0, t, y.0)
    decreases s, 3
  {
    if SameNode(s, a, t, b) {
      NodeTick(env, s, a, t, b, w);
    } else if SameDeMorgan(s, a, t, b) {
      DeMorganTick(env, s, a, t, b, w);
    } else {
      DoubleNotTick(env, s, a, t, b, w);
    }
  }

  lemma {:induction false} NodeTick(env: Env, s: Shape, a: State, t: Shape, b: State, w: World)
    requires Fits(s, a) && Fits(t, b) && Inv(s, a) && Inv(t, b) && a.started == b.started && SameNode(s, a, t, b)
    ensures var (x, y) := (Tick(env, s, a, w), Tick(env, t, b, w));
            x.0.status == y.0.status && x.1 == y.1 && Same(s, x.0, t, y.0)
    decreases s, 2
  {
    hide Same, SameNode, Inv, Pair, OnTick;
    if s.kind.Action? {
      ActionTick(env, s, a, t, b, w);
    } else {
      BeginSame(env, s, a, t, b, w);
      var (a1, w1) := Begin(env, s, a, w);
      var (b1, v1) := Begin(env, t, b, w);
      if a1.status == Running {
        OnTickSame(env, s, a1, t, b1, w1);
        DoneSame(s, OnTick(env, s, a1, w1).0, t, OnTick(env, t, b1, w1).0);
      } else {
        DoneSame(s, a1, t, b1);
      }
    }
  }

  lemma ActionTick(env: Env, s: Shape, a: State, t: Shape, b: State, w: World)
    requires Fits(s, a) && Fits(t, b) && Inv(s, a) && Inv(t, b) && a.started == b.started && SameNode(s, a, t, b)
    requires s.kind.Action?
    ensures var (x, y) := (Tick(env, s, a, w), Tick(env, t, b, w));
            x.0.status == y.0.status && x.1 == y.1 && Same(s, x.0, t, y.0)
  {
    ActionResult(env, s, a, w);
    ActionResult(env, t, b, w);
    hide Same, Inv, Tick;
    var (x, y) := (Tick(env, s, a, w).0, Tick(env, t, b, w).0);
    assert SameNode(s, x, t, y);
    SameIntro(s, x, t, y);
  }

  lemma ActionResult(env: Env, s: Shape, a: State, w: World)
    requires Fits(s, a) && Inv(s, a) && s.kind.Action?
    ensures var r := Tick(env, s, a, w);
            && r.0.status == env.act(w.log, s.kind.id) && r.1 == Happened(env, w, Call(s.kind.id))
            && r.0.kids == a.kids && (r.0.started <==> r.0.status == Running)
  {
    InvRunning(s, a);
    hide Inv, Happened;
  }

  lemma InvRunning(s: Shape, a: State)
    requires Fits(s, a) && Inv(s, a)
    ensures a.started <==> a.status == Running
    ensures IsComposite(s.kind) && !a.started ==> a.current == 0
  {
  }

  /** Like nodes start alike; one that cannot start (a RandomSelector without children) is done. */
  lemma BeginSame(env: Env, s: Shape, a: State, t: Shape, b: State, w: World)
    requires Fits(s, a) && Fits(t, b) && Inv(s, a) && Inv(t, b) && a.started == b.started && SameNode(s, a, t, b)
    requires !s.kind.Action?
    ensures var (x, y) := (Begin(env, s, a, w), Begin(env, t, b, w));
            && x.1 == y.1 && x.0.status == y.0.status
            && (if x.0.status == Running then Pair(s, x.0, t, y.0) else Done(s, x.0, t, y.0))
  {
    hide Same;
    BeginMidway(env, s, a, w);
    BeginMidway(env, t, b, w);
    InvRunning(s, a);
    InvRunning(t, b);
    hide Inv, Midway;
    BeginFields(env, s, a, t, b, w);
  }

  lemma BeginFields(env: Env, s: Shape, a: State, t: Shape, b: State, w: World)
    requires Fits(s, a) && Fits(t, b) && Alike(s.kind, t.kind) && |s.kids| == |t.kids|
    requires a.started == b.started && (a.started ==> a.status == b.status == Running && Aligned(s.kind, a, b))
    requires !a.started && IsComposite(s.kind) ==> a.current == b.current == 0
    ensures var (x, y) := (Begin(env, s, a, w), Begin(env, t, b, w));
            && x.1 == y.1 && x.0.status == y.0.status && x.0.started && y.0.started
            && x.0.kids == a.kids && y.0.kids == b.kids && (x.0.status == Running ==> Aligned(s.kind, x.0, y.0))
            && x.0.status != Idle
  {
    hide Begin, OnStart, Fits, Shuffled, Happened, Consume, IsPermutation;
    if a.started {
      BeginStarted(env, s, a, w);
      BeginStarted(env, t, b, w);
    } else {
      StartFields(env, s, a, w);
      StartFields(env, t, b, w);
    }
  }

  lemma BeginStarted(env: Env, s: Shape, a: State, w: World)
    requires Fits(s, a) && a.started
    ensures Begin(env, s, a, w) == (a, w)
  {
  }

  lemma StartFields(env: Env, s: Shape, a: State, w: World)
    requires Fits(s, a) && !a.started
    ensures var (r, draws) := (Begin(env, s, a, w), s.kind.RandomSelector? && |s.kids| > 0);
            && r.0.kids == a.kids && r.0.started
            && r.0.status == (if s.kind.RandomSelector? && |s.kids| == 0 then Failure else Running)
            && r.1 == (if draws then Happened(env, w, Draw(|s.kids|)) else w)
            && r.0.current == (if draws || s.kind.Fallback? then 0 else a.current)
            && (s.kind.Retry? || s.kind.Repeater? ==> r.0.count == 0)
            && r.0.order == (if draws then Shuffled(env, w.log, |s.kids|) else a.order)
  {
    hide Fits, Shuffled, Happened;
  }

  lemma BeginMidway(env: Env, s: Shape, a: State, w: World)
    requires Fits(s, a) && Inv(s, a) && !s.kind.Action?
    ensures Begin(env, s, a, w).0.status == Running ==> Midway(s, Begin(env, s, a, w).0)
  {
  }

  lemma {:induction false} OnTickSame(env: Env, s: Shape, a: State, t: Shape, b: State, w: World)
    requires Fits(s, a) && Fits(t, b) && Pair(s, a, t, b) && !s.kind.Action?
    ensures var (x, y) := (OnTick(env, s, a, w), OnTick(env, t, b, w));
            x.1 == y.1 && Done(s, x.0, t, y.0)
    decreases s, 1
  {
    hide Same, Inv, Pair, Done, Midway;
    PairFacts(s, a, t, b);
    if IsComposite(s.kind) {
      WalkSame(env, s, a, t, b, w);
    } else if s.kids == [] {
      PairDone(s, a, t, b, Failure);
    } else if s.kind.Retry? {
      RetryingSame(env, s, a, t, b, w);
    } else if s.kind.Repeater? {
      RepeatingSame(env, s, a, t, b, w);
    } else if s.kind.EventGuard? {
      GuardingSame(env, s, a, t, b, w);
    } else {
      KidSame(env, s, a, t, b, w, 0);
      var x := TickKid(env, s, a, w, 0).0;
      PairDone(s, x, t, TickKid(env, t, b, w, 0).0, Invert(x.kids[0].status));
    }
  }

  lemma PairFacts(s: Shape, a: State, t: Shape, b: State)
    requires Fits(s, a) && Fits(t, b) && Pair(s, a, t, b)
    ensures Alike(s.kind, t.kind) && |s.kids| == |t.kids| && !s.kind.Action?
    ensures Aligned(s.kind, a, b) && !a.interrupted && !b.interrupted
    ensures Width(s, a) == Width(t, b) && ActiveSlot(s, a) == ActiveSlot(t, b)
    ensures IsComposite(s.kind) && a.current < Width(s, a) ==> Slot(s, a, a.current) == Slot(t, b, b.current)
  {
    hide Same, Inv;
  }

  lemma PairDone(s: Shape, a: State, t: Shape, b: State, status: Status)
    requires status != Idle
    requires Fits(s, a) && Fits(t, b) && Pair(s, a, t, b)
    ensures Done(s, a.(status := status), t, b.(status := status))
    ensures Done(s, a.(status := status, current := 0), t, b.(status := status, current := 0))
  {
    hide Same, Inv;
  }

  /** Moving on from a child that is not started keeps the pair. */
  lemma PairNext(s: Shape, a: State, t: Shape, b: State)
    requires Fits(s, a) && Fits(t, b) && Pair(s, a, t, b)
    requires |a.kids| > ActiveSlot(s, a) && !a.kids[ActiveSlot(s, a)].started
    ensures IsComposite(s.kind) ==> Pair(s, a.(current := a.current + 1), t, b.(current := b.current + 1))
    ensures Pair(s, a.(count := a.count + 1), t, b.(count := b.count + 1))
  {
    var k := ActiveSlot(s, a);
    assert Same(s.kids[k], a.kids[k], t.kids[k], b.kids[k]);
    assert ActiveSlot(t, b) == k;
    assert !b.kids[k].started;
    hide Same, Inv;
  }

  lemma {:induction false} KidSame(env: Env, s: Shape, a: State, t: Shape, b: State, w: World, k: nat)
    requires Fits(s, a) && Fits(t, b) && Pair(s, a, t, b) && k < |s.kids| && k == ActiveSlot(s, a)
    requires Armed(s.kind, a.count) && (IsComposite(s.kind) ==> a.current < Width(s, a))
    ensures var (x, y) := (TickKid(env, s, a, w, k), TickKid(env, t, b, w, k));
            && x.1 == y.1 && Pair(s, x.0, t, y.0) && x.0.kids[k].status == y.0.kids[k].status != Idle
            && (x.0.kids[k].started <==> x.0.kids[k].status == Running)
            && k == ActiveSlot(s, x.0)
    decreases s, 0, 0
  {
    hide Same, Inv, Tick;
    SameTick(env, s.kids[k], a.kids[k], t.kids[k], b.kids[k], w);
    KidInv(env, s, a, w, k);
    KidInv(env, t, b, w, k);
  }

  lemma {:induction false} WalkSame(env: Env, s: Shape, a: State, t: Shape, b: State, w: World)
    requires Fits(s, a) && Fits(t, b) && Pair(s, a, t, b) && IsComposite(s.kind)
    ensures var (x, y) := (Walk(env, s, a, w), Walk(env, t, b, w));
            x.1 == y.1 && Done(s, x.0, t, y.0)
    decreases s, 0, 1 + if a.current < Width(s, a) then Width(s, a) - a.current else 0
  {
    hide Same, Inv, Pair, Done, Midway, Walk;
    PairFacts(s, a, t, b);
    if a.current >= Width(s, a) {
      WalkEnd(env, s, a, w);
      WalkEnd(env, t, b, w);
      PairDone(s, a, t, b, EndStatus(s.kind));
    } else {
      var k := Slot(s, a, a.current);
      WalkStep(env, s, a, w);
      WalkStep(env, t, b, w);
      KidSame(env, s, a, t, b, w, k);
      var (a1, w1) := TickKid(env, s, a, w, k);
      var (b1, v1) := TickKid(env, t, b, w, k);
      var st := a1.kids[k].status;
      if st == Running {
        PairDone(s, a1, t, b1, Running);
      } else if Stops(s.kind, st) {
        PairDone(s, a1, t, b1, StopStatus(s.kind));
      } else {
        PairNext(s, a1, t, b1);
        WalkSame(env, s, a1.(current := a.current + 1), t, b1.(current := a.current + 1), w1);
      }
    }
  }

  lemma {:induction false} ResetKidSame(s: Shape, a: State, t: Shape, b: State)
    requires Fits(s, a) && Fits(t, b) && Pair(s, a, t, b) && |s.kids| > 0 && !IsComposite(s.kind)
    ensures Pair(s, ResetKid(s, a), t, ResetKid(t, b))
  {
    hide Same, Inv;
    SameReset(s.kids[0], a.kids[0], t.kids[0], b.kids[0]);
    ResetKidInv(s, a);
    ResetKidInv(t, b);
  }

  lemma {:induction false} RetryingSame(env: Env, s: Shape, a: State, t: Shape, b: State, w: World)
    requires Fits(s, a) && Fits(t, b) && Pair(s, a, t, b) && s.kind.Retry? && |s.kids| > 0
    ensures var (x, y) := (Retrying(env, s, a, w), Retrying(env, t, b, w));
            x.1 == y.1 && Done(s, x.0, t, y.0)
    decreases s, 0, 1 + if a.count < s.kind.maxRetries then s.kind.maxRetries - a.count else 0
  {
    hide Same, Inv, Pair, Done, Midway, Retrying;
    PairFacts(s, a, t, b);
    RetryingStep(env, s, a, w);
    RetryingStep(env, t, b, w);
    if a.count >= s.kind.maxRetries {
      PairDone(s, a, t, b, Failure);
    } else {
      KidSame(env, s, a, t, b, w, 0);
      var (a1, w1) := TickKid(env, s, a, w, 0);
      var (b1, v1) := TickKid(env, t, b, w, 0);
      var st := a1.kids[0].status;
      if st == Failure {
        PairNext(s, a1, t, b1);
        var (a2, b2) := (a1.(count := a.count + 1), b1.(count := a.count + 1));
        ResetKidSame(s, a2, t, b2);
        RetryingSame(env, s, ResetKid(s, a2), t, ResetKid(t, b2), w1);
      } else {
        PairDone(s, a1, t, b1, st);
      }
    }
  }

  lemma {:induction false} RepeatingSame(env: Env, s: Shape, a: State, t: Shape, b: State, w: World)
    requires Fits(s, a) && Fits(t, b) && Pair(s, a, t, b) && s.kind.Repeater? && |s.kids| > 0
    ensures var (x, y) := (Repeating(env, s, a, w), Repeating(env, t, b, w));
            x.1 == y.1 && Done(s, x.0, t, y.0)
    decreases s, 0, 1 + if a.count < s.kind.repeatCount then s.kind.repeatCount - a.count else 0
  {
    hide Same, Inv, Pair, Done, Midway, Repeating;
    PairFacts(s, a, t, b);
    RepeatingStep(env, s, a, w);
    RepeatingStep(env, t, b, w);
    if a.count >= s.kind.repeatCount {
      PairDone(s, a, t, b, Success);
    } else {
      KidSame(env, s, a, t, b, w, 0);
      var (a1, w1) := TickKid(env, s, a, w, 0);
      var (b1, v1) := TickKid(env, t, b, w, 0);
      var st := a1.kids[0].status;
      if st == Success {
        PairNext(s, a1, t, b1);
        var (a2, b2) := (a1.(count := a.count + 1), b1.(count := a.count + 1));
        ResetKidSame(s, a2, t, b2);
        RepeatingSame(env, s, ResetKid(s, a2), t, ResetKid(t, b2), w1);
      } else {
        PairDone(s, a1, t, b1, st);
      }
    }
  }

  lemma {:induction false} GuardingSame(env: Env, s: Shape, a: State, t: Shape, b: State, w: World)
    requires Fits(s, a) && Fits(t, b) && Pair(s, a, t, b) && s.kind.EventGuard? && |s.kids| > 0
    ensures var (x, y) := (Guarding(env, s, a, w), Guarding(env, t, b, w));
            x.1 == y.1 && Done(s, x.0, t, y.0)
    decreases s, 0, 1
  {
    hide Same, Inv, Pair, Midway;
    PairFacts(s, a, t, b);
    if s.kind.event in w.events {
      ResetKidSame(s, a, t, b);
      PairDone(s, ResetKid(s, a), t, ResetKid(t, b), s.kind.onInterrupt);
    } else {
      KidSame(env, s, a, t, b, w, 0);
      var a1 := TickKid(env, s, a, w, 0).0;
      PairDone(s, a1, t, TickKid(env, t, b, w, 0).0, a1.kids[0].status);
    }
  }

  // ----- ticks: De Morgan -----

  /** An inverter's tick is its child's with the verdict turned round. */
  lemma InverterTick(env: Env, sh: Shape, st: State, w: World)
    requires Fits(sh, st) && Inv(sh, st) && IsInverter(sh)
    ensures var (x, y) := (Tick(env, sh, st, w), Tick(env, sh.kids[0], st.kids[0], w));
            x.0.kids == [y.0] && x.1 == y.1 && x.0.status == Invert(y.0.status)
  {
    InvRunning(sh, st);
    var s1 := Begin(env, sh, st, w).0;
    assert s1.status == Running && s1.kids == st.kids;
    hide Inv;
    InverterOnTick(env, sh, s1, w);
  }

  lemma InverterOnTick(env: Env, sh: Shape, st: State, w: World)
    requires Fits(sh, st) && IsInverter(sh)
    ensures var (x, y) := (OnTick(env, sh, st, w), Tick(env, sh.kids[0], st.kids[0], w));
            x.0.kids == [y.0] && x.1 == y.1 && x.0.status == Invert(y.0.status)
  {
    hide Tick;
  }

  /** The two walks of De Morgan's law in the middle of a tick. */
  ghost predicate DualPair(q: Shape, x: State, t: Shape, b: State)
    requires Fits(q, x) && Fits(t, b)
  {
    && Midway(q, x) && Midway(t, b) && Dual(q.kind, t.kind)
    && x.current == b.current && Inverted(q, x, t, b)
  }

  lemma {:induction false} DualKid(env: Env, q: Shape, x: State, t: Shape, b: State, w: World, k: nat)
    requires Fits(q, x) && Fits(t, b) && DualPair(q, x, t, b) && k == x.current < |q.kids|
    ensures var (x', b') := (TickKid(env, q, x, w, k), TickKid(env, t, b, w, k));
            && x'.1 == b'.1 && DualPair(q, x'.0, t, b'.0)
            && x'.0.kids[k].status != Idle && b'.0.kids[k].status == Invert(x'.0.kids[k].status)
            && (x'.0.kids[k].started <==> x'.0.kids[k].status == Running)
            && (b'.0.kids[k].started <==> x'.0.kids[k].status == Running)
    decreases q, 4, 0
  {
    hide Same, Inv, Tick;
    InvKids(t.kids[k], b.kids[k]);
    SameTick(env, q.kids[k], x.kids[k], t.kids[k].kids[0], b.kids[k].kids[0], w);
    InverterTick(env, t.kids[k], b.kids[k], w);
    KidInv(env, q, x, w, k);
    KidInv(env, t, b, w, k);
  }

  lemma InvKids(s: Shape, a: State)
    requires Fits(s, a) && Inv(s, a)
    ensures forall i :: 0 <= i < |a.kids| ==> Fits(s.kids[i], a.kids[i]) && Inv(s.kids[i], a.kids[i])
  {
  }

  lemma DualNext(q: Shape, x: State, t: Shape, b: State)
    requires Fits(q, x) && Fits(t, b) && DualPair(q, x, t, b) && x.current < |q.kids|
    requires !x.kids[x.current].started && !b.kids[x.current].started
    ensures DualPair(q, x.(current := x.current + 1), t, b.(current := x.current + 1))
  {
    hide Same, Inv;
  }

  lemma DualFacts(q: Shape, x: State, t: Shape, b: State)
    requires Fits(q, x) && Fits(t, b) && DualPair(q, x, t, b)
    ensures x.current == b.current && |q.kids| == |t.kids| && Dual(q.kind, t.kind)
  {
    hide Same, Inv;
  }

  /** What the two walks have become. */
  ghost predicate DualDone(q: Shape, x: (State, World), t: Shape, b: (State, World))
    requires Fits(q, x.0) && Fits(t, b.0)
  {
    x.1 == b.1 && Invert(x.0.status) == b.0.status && x.0.current == b.0.current && Inverted(q, x.0, t, b.0)
  }

  lemma DualStop(q: Shape, x: State, t: Shape, b: State, status: Status, w: World)
    requires Fits(q, x) && Fits(t, b) && DualPair(q, x, t, b)
    ensures DualDone(q, (x.(status := status), w), t, (b.(status := Invert(status)), w))
    ensures DualDone(q, (x.(status := status, current := 0), w), t, (b.(status := Invert(status), current := 0), w))
  {
    hide Same, Inv;
  }

  lemma {:induction false} InvertedWalk(env: Env, q: Shape, x: State, t: Shape, b: State, w: World)
    requires Fits(q, x) && Fits(t, b) && DualPair(q, x, t, b)
    ensures DualDone(q, Walk(env, q, x, w), t, Walk(env, t, b, w))
    decreases q, 4, 1 + if x.current < |q.kids| then |q.kids| - x.current else 0
  {
    hide Same, Inv, DualPair, DualDone, Inverted, Walk;
    DualFacts(q, x, t, b);
    if x.current >= |q.kids| {
      WalkEnd(env, q, x, w);
      WalkEnd(env, t, b, w);
      DualStop(q, x, t, b, EndStatus(q.kind), w);
    } else {
      var k := x.current;
      WalkStep(env, q, x, w);
      WalkStep(env, t, b, w);
      DualKid(env, q, x, t, b, w, k);
      var (x1, w1) := TickKid(env, q, x, w, k);
      var (b1, v1) := TickKid(env, t, b, w, k);
      var st := x1.kids[k].status;
      DualStop(q, x1, t, b1, st, w1);
      if st != Running && !Stops(q.kind, st) {
        DualNext(q, x1, t, b1);
        InvertedWalk(env, q, x1.(current := k + 1), t, b1.(current := k + 1), w1);
      }
    }
  }

  lemma {:induction false} DualTick(env: Env, q: Shape, x: State, t: Shape, b: State, w: World)
    requires Fits(q, x) && Fits(t, b) && Inv(q, x) && Inv(t, b)
    requires IsComposite(q.kind) && !q.kind.RandomSelector? && IsComposite(t.kind) && !t.kind.RandomSelector?
    requires DualPair(q, Begin(env, q, x, w).0, t, Begin(env, t, b, w).0)
    ensures var (x', b') := (Tick(env, q, x, w), Tick(env, t, b, w));
            && x'.1 == b'.1 && Invert(x'.0.status) == b'.0.status && x'.0.current == b'.0.current
            && Inverted(q, x'.0, t, b'.0)
    decreases q, 5
  {
    hide Same, Inv, Inverted, Tick, Walk, DualPair, Begin;
    var (x1, b1) := (Begin(env, q, x, w).0, Begin(env, t, b, w).0);
    InvertedWalk(env, q, x1, t, b1, w);
    WalkTick(env, q, x, w);
    WalkTick(env, t, b, w);
    FinishInverted(q, Walk(env, q, x1, w).0, t, Walk(env, t, b1, w).0);
  }

  lemma {:induction false} DeMorganTick(env: Env, s: Shape, a: State, t: Shape, b: State, w: World)
    requires Fits(s, a) && Fits(t, b) && Inv(s, a) && Inv(t, b) && a.started == b.started && SameDeMorgan(s, a, t, b)
    ensures var (x, y) := (Tick(env, s, a, w), Tick(env, t, b, w));
            x.0.status == y.0.status && x.1 == y.1 && Same(s, x.0, t, y.0)
    decreases s, 2
  {
    hide Same, Inv, Tick, Inverted, Begin, DualPair;
    DualBegin(env, s, a, t, b, w);
    DualTick(env, s.kids[0], a.kids[0], t, b, w);
    InverterTick(env, s, a, w);
    TickRunning(env, s, a, w);
    TickRunning(env, t, b, w);
    SameIntro(s, Tick(env, s, a, w).0, t, Tick(env, t, b, w).0);
  }

  lemma FinishInverted(q: Shape, x: State, t: Shape, b: State)
    requires Fits(q, x) && Fits(t, b) && Inverted(q, x, t, b)
    ensures Fits(q, Finish(x)) && Fits(t, Finish(b)) && Inverted(q, Finish(x), t, Finish(b))
  {
    hide Same;
  }

  /** A composite other than RandomSelector starts by walking. */
  lemma WalkTick(env: Env, sh: Shape, st: State, w: World)
    requires Fits(sh, st) && Inv(sh, st) && IsComposite(sh.kind) && !sh.kind.RandomSelector?
    ensures var s1 := Begin(env, sh, st, w);
            && s1.1 == w && s1.0.status == Running
            && Tick(env, sh, st, w) == (Finish(Walk(env, sh, s1.0, w).0), Walk(env, sh, s1.0, w).1)
  {
    InvRunning(sh, st);
    hide Inv, Walk;
  }

  lemma DualBegin(env: Env, s: Shape, a: State, t: Shape, b: State, w: World)
    requires Fits(s, a) && Fits(t, b) && Inv(s, a) && Inv(t, b) && a.started == b.started && SameDeMorgan(s, a, t, b)
    ensures Inv(s.kids[0], a.kids[0])
    ensures DualPair(s.kids[0], Begin(env, s.kids[0], a.kids[0], w).0, t, Begin(env, t, b, w).0)
  {
    hide Same;
    var (q, x) := (s.kids[0], a.kids[0]);
    assert x.started == a.started;
    InvKids(s, a);
    InvRunning(q, x);
    InvRunning(t, b);
    BeginMidway(env, q, x, w);
    BeginMidway(env, t, b, w);
    hide Inv;
    var (x1, b1) := (Begin(env, q, x, w).0, Begin(env, t, b, w).0);
    assert x1.kids == x.kids && b1.kids == b.kids;
    assert Inverted(q, x1, t, b1);
  }

  lemma {:induction false} DoubleNotTick(env: Env, s: Shape, a: State, t: Shape, b: State, w: World)
    requires Fits(s, a) && Fits(t, b) && Inv(s, a) && Inv(t, b) && a.started == b.started && SameDoubleNot(s, a, t, b)
    ensures var (x, y) := (Tick(env, s, a, w), Tick(env, t, b, w));
            x.0.status == y.0.status && x.1 == y.1 && Same(s, x.0, t, y.0)
    decreases s, 2
  {
    hide Same, Tick, Inv;
    InvKids(s, a);
    InvKids(s.kids[0], a.kids[0]);
    InverterTick(env, s, a, w);
    InverterTick(env, s.kids[0], a.kids[0], w);
    SameTick(env, s.kids[0].kids[0], a.kids[0].kids[0], t, b, w);
    TickInv(env, s, a, w);
    TickInv(env, t, b, w);
    TickRunning(env, s, a, w);
    TickRunning(env, t, b, w);
    assert SameDoubleNot(s, Tick(env, s, a, w).0, t, Tick(env, t, b, w).0);
    SameIntro(s, Tick(env, s, a, w).0, t, Tick(env, t, b, w).0);
  }

  lemma TickRunning(env: Env, s: Shape, a: State, w: World)
    requires Fits(s, a) && Inv(s, a)
    ensures var r := Tick(env, s, a, w).0; (r.started <==> r.status == Running) && r.status != Idle
  {
    hide Tick;
    TickInv(env, s, a, w);
  }

  // ----- runs -----

  /** No sequence of ticks, resets and events tells the two trees apart: the statuses returned, the
      actions called, their order and the events left over all agree. */
  lemma {:induction false} SameObserved(env: Env, s: Shape, a: State, t: Shape, b: State, w: World, cs: seq<Command>)
    requires Fits(s, a) && Fits(t, b) && Inv(s, a) && Inv(t, b) && Same(s, a, t, b)
    ensures Observed(env, s, a, w, cs) == Observed(env, t, b, w, cs)
    decreases |cs|
  {
    hide Same, Inv, Tick, Reset;
    if cs != [] {
      var (a1, w1) := Step(env, s, a, w, cs[0]);
      var (b1, v1) := Step(env, t, b, w, cs[0]);
      StepSame(env, s, a, t, b, w, cs[0]);
      SameObserved(env, s, a1, t, b1, w1, cs[1..]);
    }
  }

  lemma StepSame(env: Env, s: Shape, a: State, t: Shape, b: State, w: World, c: Command)
    requires Fits(s, a) && Fits(t, b) && Inv(s, a) && Inv(t, b) && Same(s, a, t, b)
    ensures var (x, y) := (Step(env, s, a, w, c), Step(env, t, b, w, c));
            && x.1 == y.1 && Inv(s, x.0) && Inv(t, y.0) && Same(s, x.0, t, y.0)
            && (c.DoTick? ==> x.0.status == y.0.status)
  {
    hide Same, Inv, Tick, Reset;
    SameTick(env, s, a, t, b, w);
    SameReset(s, a, t, b);
    TickInv(env, s, a, w);
    TickInv(env, t, b, w);
    ResetInv(s, a);
    ResetInv(t, b);
  }

  /** In any reachable state, reset() leaves a tree that runs exactly as a freshly built one. */
  lemma ResetRunsAsFresh(env: Env, s: Shape, a: State, w: World, cs: seq<Command>)
    requires Fits(s, a) && Inv(s, a)
    ensures Fits(s, Reset(s, a)) && Fits(s, Fresh(s))
    ensures Observed(env, s, Reset(s, a), w, cs) == Observed(env, s, Fresh(s), w, cs)
  {
    hide Same, Inv, Observed, Reset;
    ResetInv(s, a);
    FreshInv(s);
    ResetIsFresh(s, a);
    SameObserved(env, s, Reset(s, a), s, Fresh(s), w, cs);
  }

  /** So does a tree that has finished: no memory is carried over from one success or failure to
      the next activation. */
  lemma {:induction false} FinishedIsFresh(s: Shape, a: State)
    requires Fits(s, a) && Inv(s, a) && !a.started
    ensures Fits(s, Fresh(s)) && Same(s, a, s, Fresh(s))
    decreases s
  {
    FreshFits(s);
    InvKids(s, a);
    forall i | 0 <= i < |s.kids| ensures Same(s.kids[i], a.kids[i], s.kids[i], Fresh(s).kids[i]) {
      FinishedIsFresh(s.kids[i], a.kids[i]);
    }
    assert SameNode(s, a, s, Fresh(s));
  }

  // ----- laws -----

  lemma FreshSame(s: Shape)
    ensures Fits(s, Fresh(s)) && Same(s, Fresh(s), s, Fresh(s))
  {
    FreshInv(s);
    FinishedIsFresh(s, Fresh(s));
  }

  function Not(c: Shape): Shape {
    Shape(Inverter, [c])
  }

  function NotAll(cs: seq<Shape>): seq<Shape> {
    seq(|cs|, i requires 0 <= i < |cs| => Not(cs[i]))
  }

  lemma FreshDeMorgan(q: Kind, t: Kind, cs: seq<Shape>)
    requires Dual(q, t)
    ensures var (s, d) := (Not(Shape(q, cs)), Shape(t, NotAll(cs)));
            Fits(s, Fresh(s)) && Fits(d, Fresh(d)) && Same(s, Fresh(s), d, Fresh(d))
  {
    hide Same;
    var (s, d) := (Not(Shape(q, cs)), Shape(t, NotAll(cs)));
    FreshFits(s);
    FreshFits(d);
    var x := Fresh(s).kids[0];
    assert s.kids[0] == Shape(q, cs) && x == Fresh(Shape(q, cs));
    FreshFits(Shape(q, cs));
    forall i | 0 <= i < |cs|
      ensures Fits(d.kids[i], Fresh(d).kids[i]) && Fits(cs[i], x.kids[i])
      ensures Same(cs[i], x.kids[i], d.kids[i].kids[0], Fresh(d).kids[i].kids[0])
    {
      FreshSame(cs[i]);
      FreshFits(d.kids[i]);
      assert Fresh(d).kids[i].kids[0] == Fresh(cs[i]);
    }
    assert Inverted(s.kids[0], x, d, Fresh(d));
    SameIntro(s, Fresh(s), d, Fresh(d));
  }

  /** De Morgan: Inverter(Sequence(c1..cn)) and Selector(Inverter(c1)..Inverter(cn)) agree on every
      run, and so do Inverter(Selector(..)) and Sequence(Inverter..), with Fallback for Selector
      too. */
  lemma DeMorgan(env: Env, q: Kind, t: Kind, cs: seq<Shape>, w: World, run: seq<Command>)
    requires Dual(q, t)
    ensures var (s, d) := (Not(Shape(q, cs)), Shape(t, NotAll(cs)));
            && Fits(s, Fresh(s)) && Fits(d, Fresh(d))
            && Observed(env, s, Fresh(s), w, run) == Observed(env, d, Fresh(d), w, run)
  {
    hide Same, Inv, Observed;
    var (s, d) := (Not(Shape(q, cs)), Shape(t, NotAll(cs)));
    FreshDeMorgan(q, t, cs);
    FreshInv(s);
    FreshInv(d);
    SameObserved(env, s, Fresh(s), d, Fresh(d), w, run);
  }

  /** A tree with every Fallback made a Selector, every guard immediate and double inverters
      removed. */
  function Simplify(sh: Shape): Shape
    decreases sh
  {
    if IsInverter(sh) && IsInverter(sh.kids[0]) then Simplify(sh.kids[0].kids[0])
    else
      Shape(match sh.kind
            case Fallback => Selector
            case EventGuard(e, _, s) => EventGuard(e, true, s)
            case k => k,
            seq(|sh.kids|, i requires 0 <= i < |sh.kids| => Simplify(sh.kids[i])))
  }

  lemma {:induction false} FreshSimplify(s: Shape)
    ensures Fits(s, Fresh(s)) && Fits(Simplify(s), Fresh(Simplify(s)))
    ensures Same(s, Fresh(s), Simplify(s), Fresh(Simplify(s)))
    decreases s
  {
    var t := Simplify(s);
    FreshFits(s);
    FreshFits(t);
    if IsInverter(s) && IsInverter(s.kids[0]) {
      FreshFits(s.kids[0]);
      FreshSimplify(s.kids[0].kids[0]);
      assert SameDoubleNot(s, Fresh(s), t, Fresh(t));
    } else {
      forall i | 0 <= i < |s.kids| ensures Same(s.kids[i], Fresh(s).kids[i], t.kids[i], Fresh(t).kids[i]) {
        FreshSimplify(s.kids[i]);
      }
      assert SameNode(s, Fresh(s), t, Fresh(t));
    }
  }

  /** Simplifying any tree changes nothing an observer can see. In particular Fallback is Selector,
      and the deferred and immediate modes of EventGuard are the same, wherever they stand. */
  lemma SimplifyPreserves(env: Env, s: Shape, w: World, run: seq<Command>)
    ensures Fits(s, Fresh(s)) && Fits(Simplify(s), Fresh(Simplify(s)))
    ensures Observed(env, s, Fresh(s), w, run) == Observed(env, Simplify(s), Fresh(Simplify(s)), w, run)
  {
    hide Same, Inv, Observed;
    FreshSimplify(s);
    FreshInv(s);
    FreshInv(Simplify(s));
    SameObserved(env, s, Fresh(s), Simplify(s), Fresh(Simplify(s)), w, run);
  }
}
