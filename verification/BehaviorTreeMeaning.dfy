/** What a tick of each kind of node means: which children it ticks, in what order, and what it returns,
    in terms of the ticks of the children alone. */
module BehaviorTreeMeaning {
  import opened BehaviorTree

  // ----- Children in order -----

  /** The children at these places are ticked one after the other. */
  function Visited(env: Env, sh: Shape, kids: seq<State>, w: World, places: seq<nat>): (r: (seq<State>, World))
    requires KidsFit(sh, kids) && forall j :: 0 <= j < |places| ==> places[j] < |kids|
    ensures KidsFit(sh, r.0)
    decreases |places|
  {
    if |places| == 0 then (kids, w)
    else
      var p := places[0];
      var (kid, w1) := Tick(env, sh.kids[p], kids[p], w);
      Visited(env, sh, kids[p := kid], w1, places[1..])
  }

  /** What the child at the j-th place returns when its turn comes. */
  function Returned(env: Env, sh: Shape, kids: seq<State>, w: World, places: seq<nat>, j: nat): Status
    requires KidsFit(sh, kids) && (forall i :: 0 <= i < |places| ==> places[i] < |kids|) && j < |places|
  {
    Visited(env, sh, kids, w, places[..j + 1]).0[places[j]].status
  }

  /** The children are ticked in order as long as they return `on`, and none after the first that does
      not: its status is the result.  If all do, the result is `on`. */
  ghost predicate InOrder(env: Env, sh: Shape, kids: seq<State>, w: World, places: seq<nat>, on: Verdict,
                          status: Status, kids1: seq<State>, w1: World, next: nat)
    requires KidsFit(sh, kids) && forall j :: 0 <= j < |places| ==> places[j] < |kids|
  {
    && next <= |places|
    && (forall j :: 0 <= j < next ==> Returned(env, sh, kids, w, places, j) == on)
    && (if next == |places| then status == on && (kids1, w1) == Visited(env, sh, kids, w, places)
        else status == Returned(env, sh, kids, w, places, next) != on && (kids1, w1) == Visited(env, sh, kids, w, places[..next + 1]))
  }

  ghost predicate KidsInv(sh: Shape, kids: seq<State>)
    requires KidsFit(sh, kids)
  {
    forall i :: 0 <= i < |kids| ==> Inv(sh.kids[i], kids[i])
  }

  /** The places of a composite's children from one on. */
  function Rest(n: nat, from: nat): seq<nat> {
    if from <= n then seq(n - from, i requires 0 <= i < n - from => from + i) else []
  }

  /** A composite's tick from its memory on: it returns `on` exactly when all of the rest do, and otherwise
      what the first that does not returns; it remembers that child exactly while it is running. */
  ghost predicate TicksInOrder(env: Env, sh: Shape, kids: seq<State>, w: World, places: seq<nat>, on: Verdict,
                               from: nat, r: State, w1: World)
    requires KidsFit(sh, kids) && forall j :: 0 <= j < |places| ==> places[j] < |kids|
  {
    && (r.status == on <==> forall j :: 0 <= j < |places| ==> Returned(env, sh, kids, w, places, j) == on)
    && exists next :: InOrder(env, sh, kids, w, places, on, r.status, r.kids, w1, next)
                   && r.current == if r.status == Running then from + next else 0
  }

  lemma VisitedFirst(env: Env, sh: Shape, kids: seq<State>, w: World, places: seq<nat>, j: nat)
    requires KidsFit(sh, kids) && (forall i :: 0 <= i < |places| ==> places[i] < |kids|) && 0 < j <= |places|
    ensures var p := places[0];
      var (kid, w1) := Tick(env, sh.kids[p], kids[p], w);
      Visited(env, sh, kids, w, places[..j]) == Visited(env, sh, kids[p := kid], w1, places[1..][..j - 1])
  {
    hide Tick;
    assert places[..j][1..] == places[1..][..j - 1];
  }

  /** One child has returned `on`; the rest is ticked after it. */
  lemma InOrderNext(env: Env, sh: Shape, kids: seq<State>, w: World, places: seq<nat>, on: Verdict,
                    status: Status, kids2: seq<State>, w2: World, next: nat)
    requires KidsFit(sh, kids) && (forall i :: 0 <= i < |places| ==> places[i] < |kids|) && |places| > 0
    requires var p := places[0];
      var (kid, w1) := Tick(env, sh.kids[p], kids[p], w);
      kid.status == on && InOrder(env, sh, kids[p := kid], w1, places[1..], on, status, kids2, w2, next)
    ensures InOrder(env, sh, kids, w, places, on, status, kids2, w2, next + 1)
  {
    hide Tick, Visited;
    var p := places[0];
    var (kid, w1) := Tick(env, sh.kids[p], kids[p], w);
    var rest := places[1..];
    FirstReturns(env, sh, kids, w, places);
    forall j | 1 <= j < |places| ensures Returned(env, sh, kids, w, places, j) == Returned(env, sh, kids[p := kid], w1, rest, j - 1) {
      VisitedFirst(env, sh, kids, w, places, j + 1);
    }
    VisitedFirst(env, sh, kids, w, places, |places|);
    assert places[..|places|] == places && rest[..|rest|] == rest;
    if next < |rest| { VisitedFirst(env, sh, kids, w, places, next + 2); }
    forall j | 0 <= j < next + 1 ensures Returned(env, sh, kids, w, places, j) == on {
      if j > 0 { assert Returned(env, sh, kids[p := kid], w1, rest, j - 1) == on; }
    }
  }

  lemma FirstReturns(env: Env, sh: Shape, kids: seq<State>, w: World, places: seq<nat>)
    requires KidsFit(sh, kids) && (forall i :: 0 <= i < |places| ==> places[i] < |kids|) && |places| > 0
    ensures var p := places[0];
      var (kid, w1) := Tick(env, sh.kids[p], kids[p], w);
      Visited(env, sh, kids, w, places[..1]) == (kids[p := kid], w1) && Returned(env, sh, kids, w, places, 0) == kid.status
  {
    hide Tick;
    VisitedFirst(env, sh, kids, w, places, 1);
    assert places[1..][..0] == [];
  }

  lemma InOrderEnds(env: Env, sh: Shape, kids: seq<State>, w: World, places: seq<nat>, on: Verdict)
    requires KidsFit(sh, kids) && (forall i :: 0 <= i < |places| ==> places[i] < |kids|) && |places| > 0
    requires var p := places[0]; Tick(env, sh.kids[p], kids[p], w).0.status != on
    ensures var p := places[0];
      var (kid, w1) := Tick(env, sh.kids[p], kids[p], w);
      InOrder(env, sh, kids, w, places, on, kid.status, kids[p := kid], w1, 0)
  {
    hide Tick, Visited;
    FirstReturns(env, sh, kids, w, places);
  }

  /** The places a composite still has to go through. */
  function Places(sh: Shape, st: State): (r: seq<nat>)
    requires Fits(sh, st)
    ensures forall j :: 0 <= j < |r| ==> r[j] < |st.kids|
  {
    if sh.kind.RandomSelector? then (if st.current <= |st.order| then st.order[st.current..] else [])
    else Rest(|sh.kids|, st.current)
  }

  lemma PlacesFrom(sh: Shape, st: State)
    requires Fits(sh, st) && st.current <= Width(sh, st)
    ensures |Places(sh, st)| == Width(sh, st) - st.current
    ensures st.current < Width(sh, st) ==>
              Places(sh, st)[0] == Slot(sh, st, st.current)
              && Fits(sh, st.(current := st.current + 1)) && Places(sh, st)[1..] == Places(sh, st.(current := st.current + 1))
  {
    hide KidsFit;
  }

  /** What is to be shown of the loop of a composite. */
  ghost predicate Walked(env: Env, sh: Shape, st: State, w: World, on: Verdict)
    requires Fits(sh, st)
  {
    var (r, w1) := Walk(env, sh, st, w);
    exists next :: InOrder(env, sh, st.kids, w, Places(sh, st), on, r.status, r.kids, w1, next)
                && r.current == if r.status == Running then st.current + next else 0
  }

  lemma {:induction false} WalkInOrder(env: Env, sh: Shape, st: State, w: World, on: Verdict)
    requires Fits(sh, st) && IsComposite(sh.kind) && st.current <= Width(sh, st) && KidsInv(sh, st.kids)
    requires on == if sh.kind.Sequence? then Success else Failure
    ensures Walked(env, sh, st, w, on)
    decreases Width(sh, st) - st.current
  {
    hide Tick, Inv, Fits, Walked, Walk, TickKid;
    if st.current == Width(sh, st) {
      WalkedAll(env, sh, st, w, on);
    } else {
      var k := Slot(sh, st, st.current);
      KidTicked(env, sh, st, w, k);
      var (s1, w1) := TickKid(env, sh, st, w, k);
      if s1.kids[k].status == on {
        Moved(sh, s1, st.current + 1);
        WalkInOrder(env, sh, s1.(current := st.current + 1), w1, on);
        WalkedOn(env, sh, st, w, on);
      } else {
        WalkedEnd(env, sh, st, w, on);
      }
    }
  }

  lemma KidTicked(env: Env, sh: Shape, st: State, w: World, k: nat)
    requires Fits(sh, st) && KidsInv(sh, st.kids) && k < |sh.kids|
    ensures var (s1, w1) := TickKid(env, sh, st, w, k);
      && s1.kids[k].status != Idle && KidsInv(sh, s1.kids) && Fits(sh, s1)
      && s1.order == st.order && s1.current == st.current
      && (s1.kids[k], w1) == Tick(env, sh.kids[k], st.kids[k], w) && s1.kids == st.kids[k := s1.kids[k]]
  {
    hide Tick, Inv;
    TickInv(env, sh.kids[k], st.kids[k], w);
  }

  lemma WalkedAll(env: Env, sh: Shape, st: State, w: World, on: Verdict)
    requires Fits(sh, st) && IsComposite(sh.kind) && st.current == Width(sh, st)
    requires on == if sh.kind.Sequence? then Success else Failure
    ensures Walked(env, sh, st, w, on)
  {
    hide Tick, Fits, Walk, InOrder;
    PlacesFrom(sh, st);
    AllVisited(env, sh, st.kids, w, on);
    WalkEnd(env, sh, st, w);
    assert Places(sh, st) == [];
    var (r, w1) := Walk(env, sh, st, w);
    assert InOrder(env, sh, st.kids, w, Places(sh, st), on, r.status, r.kids, w1, 0);
  }

  lemma WalkedOn(env: Env, sh: Shape, st: State, w: World, on: Verdict)
    requires Fits(sh, st) && KidsInv(sh, st.kids) && IsComposite(sh.kind) && st.current < Width(sh, st)
    requires on == if sh.kind.Sequence? then Success else Failure
    requires var k := Slot(sh, st, st.current);
      var (s1, w1) := TickKid(env, sh, st, w, k);
      && s1.kids[k].status == on && Fits(sh, s1.(current := st.current + 1))
      && Walked(env, sh, s1.(current := st.current + 1), w1, on)
    ensures Walked(env, sh, st, w, on)
  {
    hide Tick, Inv, Fits, Walk, InOrder, TickKid, Places;
    var k := Slot(sh, st, st.current);
    var (s1, w1) := TickKid(env, sh, st, w, k);
    var s2 := s1.(current := st.current + 1);
    KidTicked(env, sh, st, w, k);
    PlacesFrom(sh, st);
    SamePlaces(sh, st, s2);
    WalkStep(env, sh, st, w);
    var (r, w2) := Walk(env, sh, s2, w1);
    var next: nat :| InOrder(env, sh, s2.kids, w1, Places(sh, s2), on, r.status, r.kids, w2, next)
                  && r.current == if r.status == Running then s2.current + next else 0;
    InOrderNext(env, sh, st.kids, w, Places(sh, st), on, r.status, r.kids, w2, next);
    assert InOrder(env, sh, st.kids, w, Places(sh, st), on, r.status, r.kids, w2, next + 1);
  }

  lemma WalkedEnd(env: Env, sh: Shape, st: State, w: World, on: Verdict)
    requires Fits(sh, st) && KidsInv(sh, st.kids) && IsComposite(sh.kind) && st.current < Width(sh, st)
    requires on == if sh.kind.Sequence? then Success else Failure
    requires var k := Slot(sh, st, st.current); TickKid(env, sh, st, w, k).0.kids[k].status != on
    ensures Walked(env, sh, st, w, on)
  {
    hide Tick, Inv, Fits, Walk, InOrder, TickKid, Places;
    var k := Slot(sh, st, st.current);
    KidTicked(env, sh, st, w, k);
    PlacesFrom(sh, st);
    WalkStep(env, sh, st, w);
    InOrderEnds(env, sh, st.kids, w, Places(sh, st), on);
    var (r, w1) := Walk(env, sh, st, w);
    assert InOrder(env, sh, st.kids, w, Places(sh, st), on, r.status, r.kids, w1, 0);
  }

  lemma AllVisited(env: Env, sh: Shape, kids: seq<State>, w: World, on: Verdict)
    requires KidsFit(sh, kids)
    ensures InOrder(env, sh, kids, w, [], on, on, kids, w, 0)
  {
  }

  lemma Moved(sh: Shape, st: State, n: nat)
    requires Fits(sh, st)
    ensures Fits(sh, st.(current := n))
  {
  }

  lemma SamePlaces(sh: Shape, a: State, b: State)
    requires Fits(sh, a) && Fits(sh, b) && b.order == a.order && b.current == a.current + 1 && a.current < Width(sh, a)
    ensures Places(sh, b) == Places(sh, a)[1..]
  {
    hide KidsFit;
  }

  lemma OrderDecides(env: Env, sh: Shape, kids: seq<State>, w: World, places: seq<nat>, on: Verdict, from: nat, r: State, w1: World)
    requires KidsFit(sh, kids) && forall j :: 0 <= j < |places| ==> places[j] < |kids|
    requires exists next :: InOrder(env, sh, kids, w, places, on, r.status, r.kids, w1, next)
                         && r.current == if r.status == Running then from + next else 0
    ensures TicksInOrder(env, sh, kids, w, places, on, from, r, w1)
  {
    hide Visited, Returned;
  }

  /** Sequence: it succeeds exactly when all children from the remembered one on do. */
  lemma SequenceTick(env: Env, sh: Shape, st: State, w: World)
    requires Fits(sh, st) && Inv(sh, st) && sh.kind == Sequence
    ensures var (r, w1) := Tick(env, sh, st, w);
      TicksInOrder(env, sh, st.kids, w, Rest(|sh.kids|, st.current), Success, st.current, r, w1)
  {
    CompositeTick(env, sh, st.(started := true, status := Running), w, Success);
    hide Fits, Inv, Walk, TicksInOrder;
  }

  /** Selector: it fails exactly when all children from the remembered one on do. */
  lemma SelectorTick(env: Env, sh: Shape, st: State, w: World)
    requires Fits(sh, st) && Inv(sh, st) && sh.kind == Selector
    ensures var (r, w1) := Tick(env, sh, st, w);
      TicksInOrder(env, sh, st.kids, w, Rest(|sh.kids|, st.current), Failure, st.current, r, w1)
  {
    CompositeTick(env, sh, st.(started := true, status := Running), w, Failure);
    hide Fits, Inv, Walk, TicksInOrder;
  }

  /** Fallback: the same as Selector. */
  lemma FallbackTick(env: Env, sh: Shape, st: State, w: World)
    requires Fits(sh, st) && Inv(sh, st) && sh.kind == Fallback
    ensures var (r, w1) := Tick(env, sh, st, w);
      TicksInOrder(env, sh, st.kids, w, Rest(|sh.kids|, st.current), Failure, st.current, r, w1)
  {
    CompositeTick(env, sh, st.(started := true, status := Running), w, Failure);
    hide Fits, Inv, Walk, TicksInOrder;
  }

  /** RandomSelector: the same as Selector, in an order drawn when it starts and kept while it runs. */
  lemma RandomSelectorTick(env: Env, sh: Shape, st: State, w: World)
    requires Fits(sh, st) && Inv(sh, st) && sh.kind == RandomSelector
    ensures var (r, w1) := Tick(env, sh, st, w);
      && (st.started ==> st.current < |st.order|)
      && (st.started ==> TicksInOrder(env, sh, st.kids, w, st.order[st.current..], Failure, st.current, r, w1))
      && (!st.started && |sh.kids| > 0 ==>
            var order := Shuffled(env, w.log, |sh.kids|);
            var log := w.log + [Draw(|sh.kids|)];
            r.order == order
            && TicksInOrder(env, sh, st.kids, World(w.events + env.arrive(log), log), order, Failure, 0, r, w1))
      && (|sh.kids| == 0 ==> r.status == Failure && w1 == w)
  {
    hide Fits, Inv, Walk, TicksInOrder;
    if st.started {
      RandomGoesOn(env, sh, st, w);
    } else {
      RandomStarts(env, sh, st, w);
    }
  }

  lemma RandomGoesOn(env: Env, sh: Shape, st: State, w: World)
    requires Fits(sh, st) && Inv(sh, st) && sh.kind == RandomSelector && st.started
    ensures |sh.kids| > 0 && st.current < |st.order|
    ensures var (r, w1) := Tick(env, sh, st, w);
      TicksInOrder(env, sh, st.kids, w, st.order[st.current..], Failure, st.current, r, w1)
  {
    CompositeTick(env, sh, st, w, Failure);
    hide Walk, TicksInOrder, KidsFit;
  }

  lemma RandomStarts(env: Env, sh: Shape, st: State, w: World)
    requires Fits(sh, st) && Inv(sh, st) && sh.kind == RandomSelector && !st.started
    ensures var (r, w1) := Tick(env, sh, st, w);
      if |sh.kids| == 0 then r.status == Failure && w1 == w
      else
        var order := Shuffled(env, w.log, |sh.kids|);
        var log := w.log + [Draw(|sh.kids|)];
        r.order == order
        && TicksInOrder(env, sh, st.kids, World(w.events + env.arrive(log), log), order, Failure, 0, r, w1)
  {
    hide Walk, TicksInOrder, KidsFit;
    if |sh.kids| > 0 {
      var (s1, w1) := Begin(env, sh, st, w);
      CompositeTick(env, sh, s1, w1, Failure);
      WalkKeepsOrder(env, sh, s1, w1);
      assert s1.order[0..] == s1.order;
    }
  }

  lemma {:induction false} WalkKeepsOrder(env: Env, sh: Shape, st: State, w: World)
    requires Fits(sh, st)
    ensures Walk(env, sh, st, w).0.order == st.order
    decreases if st.current < Width(sh, st) then Width(sh, st) - st.current else 0
  {
    hide Tick, Fits, Stops;
    if st.current < Width(sh, st) {
      WalkStep(env, sh, st, w);
      var k := Slot(sh, st, st.current);
      var (s1, w1) := TickKid(env, sh, st, w, k);
      Moved(sh, s1, st.current + 1);
      WalkKeepsOrder(env, sh, s1.(current := st.current + 1), w1);
    }
  }

  lemma CompositeTick(env: Env, sh: Shape, st: State, w: World, on: Verdict)
    requires Fits(sh, st) && IsComposite(sh.kind) && st.started && st.status == Running && st.current <= Width(sh, st)
    requires KidsInv(sh, st.kids) && on == if sh.kind.Sequence? then Success else Failure
    ensures var (r, w1) := Walk(env, sh, st, w);
      TicksInOrder(env, sh, st.kids, w, Places(sh, st), on, st.current, r, w1)
      && Tick(env, sh, st, w) == (Finish(r), w1)
      && TicksInOrder(env, sh, st.kids, w, Places(sh, st), on, st.current, Finish(r), w1)
  {
    WalkInOrder(env, sh, st, w, on);
    hide Fits, Inv, Walk, InOrder, TicksInOrder;
    var (r, w1) := Walk(env, sh, st, w);
    OrderDecides(env, sh, st.kids, w, Places(sh, st), on, st.current, r, w1);
    OrderDecides(env, sh, st.kids, w, Places(sh, st), on, st.current, Finish(r), w1);
  }

  // ----- Attempts -----

  /** The child after k attempts, each of them a tick and then a reset. */
  function Attempts(env: Env, sh: Shape, kid: State, w: World, k: nat): (r: (State, World))
    requires Fits(sh, kid)
    ensures Fits(sh, r.0)
    decreases k
  {
    if k == 0 then (kid, w)
    else
      var (kid1, w1) := Attempts(env, sh, kid, w, k - 1);
      var (kid2, w2) := Tick(env, sh, kid1, w1);
      ResetFits(sh, kid2);
      (Reset(sh, kid2), w2)
  }

  /** What the child returns in attempt k, counting from 0. */
  function Attempted(env: Env, sh: Shape, kid: State, w: World, k: nat): Status
    requires Fits(sh, kid)
  {
    var (kid1, w1) := Attempts(env, sh, kid, w, k);
    Tick(env, sh, kid1, w1).0.status
  }

  /** The first k attempts returned `on`; then either no attempts were left and the result is `on`, or the
      next one returned something else, which is the result. */
  ghost predicate TriedTo(env: Env, sh: Shape, kid: State, w: World, on: Verdict, left: nat, status: Status, kid1: State, w1: World, k: nat)
    requires Fits(sh, kid)
  {
    && k <= left
    && (forall i :: 0 <= i < k ==> Attempted(env, sh, kid, w, i) == on)
    && (if k == left then status == on && (kid1, w1) == Attempts(env, sh, kid, w, k)
        else
          var (before, wb) := Attempts(env, sh, kid, w, k);
          status == Attempted(env, sh, kid, w, k) != on && (kid1, w1) == Tick(env, sh, before, wb))
  }

  /** A counting decorator's tick with some attempts left: it returns `on` exactly when all of them do, and
      otherwise what the first that does not returns; it counts the ones that did. */
  ghost predicate Tries(env: Env, sh: Shape, kid: State, w: World, on: Verdict, left: nat, from: int, r: State, w1: World)
    requires Fits(sh, kid)
  {
    && |r.kids| == 1
    && (r.status == on <==> forall i :: 0 <= i < left ==> Attempted(env, sh, kid, w, i) == on)
    && exists k :: TriedTo(env, sh, kid, w, on, left, r.status, r.kids[0], w1, k) && r.count == from + k
  }

  function Left(limit: int, count: int): nat {
    if count < limit then limit - count else 0
  }

  lemma {:induction false} AttemptsNext(env: Env, sh: Shape, kid: State, w: World, k: nat)
    requires Fits(sh, kid)
    ensures var (kid1, w1) := Tick(env, sh, kid, w);
      && Fits(sh, Reset(sh, kid1))
      && Attempts(env, sh, kid, w, k + 1) == Attempts(env, sh, Reset(sh, kid1), w1, k)
    decreases k
  {
    hide Tick, Reset, Fits;
    ResetFits(sh, Tick(env, sh, kid, w).0);
    if k == 0 {
      assert Attempts(env, sh, kid, w, 0) == (kid, w);
    } else {
      AttemptsNext(env, sh, kid, w, k - 1);
    }
  }

  /** One attempt returned `on`; the rest follows. */
  lemma TriedNext(env: Env, sh: Shape, kid: State, w: World, on: Verdict, left: nat, status: Status, kid2: State, w2: World, k: nat)
    requires Fits(sh, kid) && left > 0
    requires var (kid1, w1) := Tick(env, sh, kid, w);
      && kid1.status == on && Fits(sh, Reset(sh, kid1))
      && TriedTo(env, sh, Reset(sh, kid1), w1, on, left - 1, status, kid2, w2, k)
    ensures TriedTo(env, sh, kid, w, on, left, status, kid2, w2, k + 1)
  {
    hide Tick, Reset, Fits, Attempts;
    var (kid1, w1) := Tick(env, sh, kid, w);
    FirstAttempt(env, sh, kid, w);
    forall i | 1 <= i <= k + 1 ensures Attempted(env, sh, kid, w, i) == Attempted(env, sh, Reset(sh, kid1), w1, i - 1) {
      AttemptsNext(env, sh, kid, w, i - 1);
    }
    AttemptsNext(env, sh, kid, w, k);
    forall i | 0 <= i < k + 1 ensures Attempted(env, sh, kid, w, i) == on {
      if i > 0 { assert Attempted(env, sh, Reset(sh, kid1), w1, i - 1) == on; }
    }
  }

  lemma FirstAttempt(env: Env, sh: Shape, kid: State, w: World)
    requires Fits(sh, kid)
    ensures Attempts(env, sh, kid, w, 0) == (kid, w) && Attempted(env, sh, kid, w, 0) == Tick(env, sh, kid, w).0.status
  {
    hide Tick, Fits;
  }

  lemma TriesFrom(env: Env, sh: Shape, kid: State, w: World, on: Verdict, left: nat, from: int, r: State, w1: World, k: nat)
    requires Fits(sh, kid) && |r.kids| == 1 && TriedTo(env, sh, kid, w, on, left, r.status, r.kids[0], w1, k) && r.count == from + k
    ensures Tries(env, sh, kid, w, on, left, from, r, w1)
  {
    hide Tick, Fits, Attempts;
  }

  ghost predicate Tried(env: Env, sh: Shape, st: State, w: World, on: Verdict, limit: int, r: State, w1: World)
    requires Fits(sh, st) && |sh.kids| == 1
  {
    |r.kids| == 1 && exists k :: TriedTo(env, sh.kids[0], st.kids[0], w, on, Left(limit, st.count), r.status, r.kids[0], w1, k) && r.count == st.count + k
  }

  lemma NoneLeft(env: Env, sh: Shape, st: State, w: World, on: Verdict, limit: int)
    requires Fits(sh, st) && |sh.kids| == 1 && st.count >= limit
    ensures Tried(env, sh, st, w, on, limit, st.(status := on), w)
  {
    hide Tick;
    assert TriedTo(env, sh.kids[0], st.kids[0], w, on, Left(limit, st.count), on, st.kids[0], w, 0);
  }

  lemma LastAttempt(env: Env, sh: Shape, st: State, w: World, on: Verdict, limit: int)
    requires Fits(sh, st) && |sh.kids| == 1 && st.count < limit
    requires Tick(env, sh.kids[0], st.kids[0], w).0.status != on
    ensures var (s1, w1) := TickKid(env, sh, st, w, 0);
      Tried(env, sh, st, w, on, limit, s1.(status := s1.kids[0].status), w1)
  {
    hide Tick, Fits;
    FirstAttempt(env, sh.kids[0], st.kids[0], w);
    var (s1, w1) := TickKid(env, sh, st, w, 0);
    assert TriedTo(env, sh.kids[0], st.kids[0], w, on, Left(limit, st.count), s1.kids[0].status, s1.kids[0], w1, 0);
  }

  lemma TriedOn(env: Env, sh: Shape, st: State, w: World, on: Verdict, limit: int, r: State, w2: World)
    requires Fits(sh, st) && |sh.kids| == 1 && st.count < limit
    requires Tick(env, sh.kids[0], st.kids[0], w).0.status == on
    requires var (s1, w1) := TickKid(env, sh, st, w, 0);
      Fits(sh, s1.(count := st.count + 1)) && Tried(env, sh, ResetKid(sh, s1.(count := st.count + 1)), w1, on, limit, r, w2)
    ensures Tried(env, sh, st, w, on, limit, r, w2)
  {
    hide Tick, Fits, TriedTo, Reset;
    var (s1, w1) := TickKid(env, sh, st, w, 0);
    var s2 := ResetKid(sh, s1.(count := st.count + 1));
    var k: nat :| TriedTo(env, sh.kids[0], s2.kids[0], w1, on, Left(limit, s2.count), r.status, r.kids[0], w2, k) && r.count == s2.count + k;
    assert s2.kids[0] == Reset(sh.kids[0], Tick(env, sh.kids[0], st.kids[0], w).0);
    TriedNext(env, sh.kids[0], st.kids[0], w, on, Left(limit, st.count), r.status, r.kids[0], w2, k);
    assert TriedTo(env, sh.kids[0], st.kids[0], w, on, Left(limit, st.count), r.status, r.kids[0], w2, k + 1);
  }

  lemma Counted(sh: Shape, st: State, n: int)
    requires Fits(sh, st)
    ensures Fits(sh, st.(count := n))
  {
  }

  lemma {:induction false} RetryingTries(env: Env, sh: Shape, st: State, w: World)
    requires Fits(sh, st) && sh.kind.Retry? && |sh.kids| == 1 && KidsInv(sh, st.kids)
    ensures var (r, w1) := Retrying(env, sh, st, w); Tried(env, sh, st, w, Failure, sh.kind.maxRetries, r, w1)
    decreases Left(sh.kind.maxRetries, st.count)
  {
    hide Tick, Inv, Fits, Tried, TickKid, ResetKid, Retrying;
    RetryingStep(env, sh, st, w);
    if st.count >= sh.kind.maxRetries {
      NoneLeft(env, sh, st, w, Failure, sh.kind.maxRetries);
    } else {
      KidTicked(env, sh, st, w, 0);
      var (s1, w1) := TickKid(env, sh, st, w, 0);
      if s1.kids[0].status == Failure {
        var s2 := s1.(count := st.count + 1);
        Counted(sh, s1, st.count + 1);
        KidReset(sh, s2);
        RetryingTries(env, sh, ResetKid(sh, s2), w1);
        var (r, w2) := Retrying(env, sh, ResetKid(sh, s2), w1);
        TriedOn(env, sh, st, w, Failure, sh.kind.maxRetries, r, w2);
      } else {
        LastAttempt(env, sh, st, w, Failure, sh.kind.maxRetries);
      }
    }
  }

  lemma KidReset(sh: Shape, st: State)
    requires Fits(sh, st) && |sh.kids| > 0 && KidsInv(sh, st.kids)
    ensures Fits(sh, ResetKid(sh, st)) && KidsInv(sh, ResetKid(sh, st).kids) && ResetKid(sh, st).count == st.count
  {
    hide Inv, Reset;
    ResetInv(sh.kids[0], st.kids[0]);
  }

  lemma {:induction false} RepeatingTries(env: Env, sh: Shape, st: State, w: World)
    requires Fits(sh, st) && sh.kind.Repeater? && |sh.kids| == 1 && KidsInv(sh, st.kids)
    ensures var (r, w1) := Repeating(env, sh, st, w); Tried(env, sh, st, w, Success, sh.kind.repeatCount, r, w1)
    decreases Left(sh.kind.repeatCount, st.count)
  {
    hide Tick, Inv, Fits, Tried, TickKid, ResetKid, Repeating;
    RepeatingStep(env, sh, st, w);
    if st.count >= sh.kind.repeatCount {
      NoneLeft(env, sh, st, w, Success, sh.kind.repeatCount);
    } else {
      KidTicked(env, sh, st, w, 0);
      var (s1, w1) := TickKid(env, sh, st, w, 0);
      if s1.kids[0].status == Success {
        var s2 := s1.(count := st.count + 1);
        Counted(sh, s1, st.count + 1);
        KidReset(sh, s2);
        RepeatingTries(env, sh, ResetKid(sh, s2), w1);
        var (r, w2) := Repeating(env, sh, ResetKid(sh, s2), w1);
        TriedOn(env, sh, st, w, Success, sh.kind.repeatCount, r, w2);
      } else {
        LastAttempt(env, sh, st, w, Success, sh.kind.repeatCount);
      }
    }
  }

  /** Retry: it fails exactly when every attempt it has left fails, and a new start gives it all of them. */
  lemma RetryTick(env: Env, sh: Shape, st: State, w: World)
    requires Fits(sh, st) && Inv(sh, st) && sh.kind.Retry? && |sh.kids| == 1
    ensures var (r, w1) := Tick(env, sh, st, w);
      var count := if st.started then st.count else 0;
      Tries(env, sh.kids[0], st.kids[0], w, Failure, Left(sh.kind.maxRetries, count), count, r, w1)
  {
    hide Tried, Tries, Retrying, KidsFit, TriedTo;
    var (s1, w1) := Begin(env, sh, st, w);
    RetryingTries(env, sh, s1, w1);
    var (s2, w2) := Retrying(env, sh, s1, w1);
    FinishTries(env, sh, s1, w1, Failure, sh.kind.maxRetries, s2, w2);
  }

  lemma FinishTries(env: Env, sh: Shape, st: State, w: World, on: Verdict, limit: int, r: State, w1: World)
    requires Fits(sh, st) && |sh.kids| == 1 && Tried(env, sh, st, w, on, limit, r, w1)
    ensures Tries(env, sh.kids[0], st.kids[0], w, on, Left(limit, st.count), st.count, Finish(r), w1)
  {
    hide Fits, Tries, TriedTo;
    var k: nat :| TriedTo(env, sh.kids[0], st.kids[0], w, on, Left(limit, st.count), r.status, r.kids[0], w1, k) && r.count == st.count + k;
    TriesFrom(env, sh.kids[0], st.kids[0], w, on, Left(limit, st.count), st.count, Finish(r), w1, k);
  }

  /** Repeater: it succeeds exactly when every round it has left succeeds. */
  lemma RepeaterTick(env: Env, sh: Shape, st: State, w: World)
    requires Fits(sh, st) && Inv(sh, st) && sh.kind.Repeater? && |sh.kids| == 1
    ensures var (r, w1) := Tick(env, sh, st, w);
      var count := if st.started then st.count else 0;
      Tries(env, sh.kids[0], st.kids[0], w, Success, Left(sh.kind.repeatCount, count), count, r, w1)
  {
    hide Tried, Tries, Repeating, KidsFit, TriedTo;
    var (s1, w1) := Begin(env, sh, st, w);
    RepeatingTries(env, sh, s1, w1);
    var (s2, w2) := Repeating(env, sh, s1, w1);
    FinishTries(env, sh, s1, w1, Success, sh.kind.repeatCount, s2, w2);
  }

  // ----- One child, or none -----

  /** The start of a tick changes a node's own fields only, unless it draws an order. */
  lemma Begins(env: Env, sh: Shape, st: State, w: World)
    requires Fits(sh, st) && Inv(sh, st) && !sh.kind.RandomSelector?
    ensures var (s1, w1) := Begin(env, sh, st, w);
      s1.status == Running && !s1.interrupted && s1.kids == st.kids && w1 == w
  {
  }

  lemma TickBegun(env: Env, sh: Shape, st: State, w: World)
    requires Fits(sh, st) && Begin(env, sh, st, w).0.status == Running
    ensures var (s1, w1) := Begin(env, sh, st, w);
      var (s2, w2) := OnTick(env, sh, s1, w1);
      Tick(env, sh, st, w) == (Finish(s2), w2)
  {
    hide OnTick, Begin, Fits;
  }

  lemma OneKid(kids: seq<State>, kid: State)
    requires |kids| == 1
    ensures kids[0 := kid] == [kid]
  {
  }

  /** Inverter: Success and Failure exchanged, Running as it is. */
  lemma InverterTick(env: Env, sh: Shape, st: State, w: World)
    requires Fits(sh, st) && Inv(sh, st) && sh.kind == Inverter && |sh.kids| == 1
    ensures var (r, w1) := Tick(env, sh, st, w);
      var (kid, w2) := Tick(env, sh.kids[0], st.kids[0], w);
      && r.kids == [kid] && w1 == w2
      && (r.status == Success <==> kid.status == Failure)
      && (r.status == Failure <==> kid.status == Success)
      && (r.status == Running <==> kid.status == Running)
  {
    hide Fits, Inv, Begin, Tick;
    Begins(env, sh, st, w);
    TickBegun(env, sh, st, w);
    KidReturns(env, sh, st, w);
    OneKid(st.kids, Tick(env, sh.kids[0], st.kids[0], w).0);
  }

  lemma KidReturns(env: Env, sh: Shape, st: State, w: World)
    requires Fits(sh, st) && Inv(sh, st) && |sh.kids| > 0
    ensures Tick(env, sh.kids[0], st.kids[0], w).0.status != Idle
  {
    hide Tick;
    TickInv(env, sh.kids[0], st.kids[0], w);
  }

  /** A decorator without a child fails. */
  lemma NoChildTick(env: Env, sh: Shape, st: State, w: World)
    requires Fits(sh, st) && Inv(sh, st) && |sh.kids| == 0
    requires sh.kind.Inverter? || sh.kind.Retry? || sh.kind.Repeater? || sh.kind.EventGuard?
    ensures var (r, w1) := Tick(env, sh, st, w); r.status == Failure && w1 == w
  {
    hide KidsFit, Inv, Begin;
    Begins(env, sh, st, w);
  }

  /** Action: the callback is called, once, with everything that happened before. */
  lemma ActionTick(env: Env, sh: Shape, st: State, w: World)
    requires Fits(sh, st) && Inv(sh, st) && sh.kind.Action?
    ensures var (r, w1) := Tick(env, sh, st, w);
      && r.status == env.act(w.log, sh.kind.id)
      && w1.log == w.log + [Call(sh.kind.id)] && w1.events == w.events + env.arrive(w1.log)
  {
    hide KidsFit, Inv, Begin;
    Begins(env, sh, st, w);
  }

  /** EventGuard: an event of its type, wherever it stands in the queue, is taken out and interrupts the
      child, which is reset and not ticked; without one the child is ticked and decides. */
  lemma EventGuardTick(env: Env, sh: Shape, st: State, w: World)
    requires Fits(sh, st) && Inv(sh, st) && sh.kind.EventGuard? && |sh.kids| == 1
    ensures var (r, w1) := Tick(env, sh, st, w);
      var (kid, w2) := Tick(env, sh.kids[0], st.kids[0], w);
      if sh.kind.event in w.events then
        && r.status == sh.kind.onInterrupt && r.kids == [Reset(sh.kids[0], st.kids[0])]
        && w1.log == w.log && FirstTaken(w.events, sh.kind.event, w1.events)
      else r.status == kid.status && r.kids == [kid] && w1 == w2
  {
    hide Fits, Inv, Begin, Tick, Consume, Reset, FirstTaken;
    Begins(env, sh, st, w);
    TickBegun(env, sh, st, w);
    var event := sh.kind.event;
    if event in w.events {
      ConsumeTakes(w.events, event);
      OneKid(st.kids, Reset(sh.kids[0], st.kids[0]));
    } else {
      var (s1, w1) := Begin(env, sh, st, w);
      GuardPasses(env, sh, s1, w1);
      OneKid(st.kids, Tick(env, sh.kids[0], st.kids[0], w).0);
    }
  }

  lemma GuardPasses(env: Env, sh: Shape, st: State, w: World)
    requires Fits(sh, st) && sh.kind.EventGuard? && |sh.kids| == 1 && sh.kind.event !in w.events && !st.interrupted
    ensures var (kid, w1) := Tick(env, sh.kids[0], st.kids[0], w);
      OnTick(env, sh, st, w) == (st.(status := kid.status, kids := st.kids[0 := kid]), w1)
  {
    hide Tick, Fits, Consume;
    var (s1, w1) := TickKid(env, sh, st, w, 0);
    assert Guarding(env, sh, st, w) == (s1.(status := s1.kids[0].status), w1);
  }

  ghost predicate FirstTaken(events: seq<int>, event: int, rest: seq<int>) {
    exists i :: 0 <= i < |events| && events[i] == event && event !in events[..i] && rest == events[..i] + events[i + 1..]
  }

  lemma {:induction false} ConsumeTakes(events: seq<int>, event: int)
    requires event in events
    ensures FirstTaken(events, event, Consume(events, event))
    decreases |events|
  {
    if events[0] == event {
      assert events[..0] + events[0 + 1..] == events[1..];
    } else {
      ConsumeTakes(events[1..], event);
      var i :| 0 <= i < |events[1..]| && events[1..][i] == event && event !in events[1..][..i]
            && Consume(events[1..], event) == events[1..][..i] + events[1..][i + 1..];
      TakenLater(events, event, i, Consume(events[1..], event));
    }
  }

  lemma TakenLater(events: seq<int>, event: int, i: nat, rest: seq<int>)
    requires |events| > 0 && events[0] != event && i < |events[1..]| && events[1..][i] == event && event !in events[1..][..i]
    requires rest == events[1..][..i] + events[1..][i + 1..]
    ensures FirstTaken(events, event, [events[0]] + rest)
  {
    var n := i + 1;
    assert events[..n] == [events[0]] + events[1..][..i] && events[n + 1..] == events[1..][i + 1..];
    assert events[n] == event && event !in events[..n];
    assert [events[0]] + rest == events[..n] + events[n + 1..];
  }
}
