/** The nodes themselves: mutable objects whose methods change the tree in place, each proved to do
    what the functions of `BehaviorTree` say. */
module BehaviorTreeNodes {
  import opened BehaviorTree

  class BtTree {
    var events: seq<int>
    var log: seq<Act>
    const env: Env

    constructor (env: Env)
      ensures this.env == env && Now() == World([], [])
    {
      this.env := env;
      events, log := [], [];
    }

    function Now(): World
      reads this
    {
      World(events, log)
    }

    /** A call to an action, or the draw of a shuffle; events may arrive meanwhile. */
    method Happen(a: Act)
      modifies this
      ensures Now() == Happened(env, old(Now()), a)
    {
      log := log + [a];
      events := events + env.arrive(log);
    }

    method SendEvent(event: int)
      modifies this`events
      ensures events == old(events) + [event]
    {
      events := events + [event];
    }

    method ClearEvents()
      modifies this`events
      ensures events == []
    {
      events := [];
    }

    method HasEvent(event: int) returns (found: bool)
      ensures found == (event in events)
    {
      for i := 0 to |events|
        invariant event !in events[..i]
      {
        if events[i] == event { return true; }
      }
      assert events[..|events|] == events;
      return false;
    }

    /** consumeEvent: the loop finds and erases the first event of this type. */
    method ConsumeEvent(event: int) returns (found: bool)
      modifies this`events
      ensures found == (event in old(events)) && events == Consume(old(events), event)
    {
      for i := 0 to |events|
        invariant events == old(events) && event !in events[..i]
        invariant Consume(events, event) == events[..i] + Consume(events[i..], event)
      {
        assert events[i..] == [events[i]] + events[i + 1..];
        if events[i] == event {
          events := events[..i] + events[i + 1..];
          return true;
        }
        assert events[..i + 1] == events[..i] + [events[i]];
      }
      assert events[..|events|] == events && events[|events|..] == [];
      return false;
    }
  }

  class Node {
    const kind: Kind
    const children: seq<Node>
    const tree: BtTree
    ghost const shape: Shape
    ghost const repr: set<Node>

    var started: bool
    var status: Status
    var current: nat
    var count: int
    var interrupted: bool
    var order: seq<nat>

    /** The children are trees of their own, over the same event queue. */
    ghost predicate Wired()
      decreases shape
    {
      && this in repr && shape.kind == kind && |shape.kids| == |children|
      && (forall i :: 0 <= i < |children| ==>
            && children[i].shape == shape.kids[i] && children[i].tree == tree
            && children[i].repr <= repr && this !in children[i].repr && children[i].Wired())
      && (forall i, j :: 0 <= i < j < |children| ==> children[i].repr !! children[j].repr)
    }

    ghost function Abs(): State
      requires Wired()
      reads repr
      decreases shape, 1
    {
      State(started, status, current, count, interrupted, order, KidStates(|children|))
    }

    ghost function KidStates(n: nat): (r: seq<State>)
      requires Wired() && n <= |children|
      reads repr
      ensures |r| == n && forall i :: 0 <= i < n ==> r[i] == children[i].Abs()
      decreases shape, 0, n
    {
      if n == 0 then [] else KidStates(n - 1) + [children[n - 1].Abs()]
    }

    constructor (kind: Kind, children: seq<Node>, tree: BtTree)
      requires forall i :: 0 <= i < |children| ==> children[i].Wired() && children[i].tree == tree
      requires forall i, j :: 0 <= i < j < |children| ==> children[i].repr !! children[j].repr
      ensures Wired() && this.children == children && this.tree == tree
      ensures repr == {this} + set i, n | 0 <= i < |children| && n in children[i].repr :: n
      ensures shape == Shape(kind, seq(|children|, i requires 0 <= i < |children| => children[i].shape))
      ensures !started && status == Idle && current == 0 && count == 0 && !interrupted && order == []
    {
      this.kind, this.children, this.tree := kind, children, tree;
      shape := Shape(kind, seq(|children|, i requires 0 <= i < |children| => children[i].shape));
      repr := {this} + set i, n | 0 <= i < |children| && n in children[i].repr :: n;
      started, status, current, count, interrupted, order := false, Idle, 0, 0, false, [];
    }

    /** A node built over freshly built children is a fresh tree. */
    lemma BuiltFresh()
      requires Wired()
      requires !started && status == Idle && current == 0 && count == 0 && !interrupted && order == []
      requires forall i :: 0 <= i < |children| ==> children[i].Abs() == Fresh(children[i].shape)
      ensures Abs() == Fresh(shape)
    {
      assert KidStates(|children|) == Fresh(shape).kids;
    }

    method TickChild(k: nat) returns (s: Status)
      requires Wired() && Fits(shape, Abs()) && k < |children|
      modifies repr, tree
      ensures (Abs(), tree.Now()) == TickKid(tree.env, shape, old(Abs()), old(tree.Now()), k)
      ensures s == Abs().kids[k].status
      decreases shape, 0, 0
    {
      ghost var before := Abs();
      assert before.kids[k] == children[k].Abs();
      s := children[k].Tick();
      forall i | 0 <= i < |children| && i != k ensures children[i].Abs() == before.kids[i] {}
      assert Abs().kids == before.kids[k := children[k].Abs()];
    }

    /** The same tree with other values in this node's own fields. */
    twostate lemma KidsUnchanged()
      requires Wired()
      requires forall i :: 0 <= i < |children| ==> unchanged(children[i].repr)
      ensures Abs().kids == old(Abs()).kids
    {
      forall i | 0 <= i < |children| ensures children[i].Abs() == old(children[i].Abs()) {}
    }

    method SetCurrent(n: nat)
      requires Wired()
      modifies this`current
      ensures Abs() == old(Abs()).(current := n)
    {
      current := n;
      KidsUnchanged();
    }

    method SetCount(n: int)
      requires Wired()
      modifies this`count
      ensures Abs() == old(Abs()).(count := n)
    {
      count := n;
      KidsUnchanged();
    }

    /** A node's own flags, set around OnStart, OnTick and OnStop. */
    method SetStatus(started: bool, s: Status, interrupted: bool)
      requires Wired()
      modifies this`started, this`status, this`interrupted
      ensures Abs() == old(Abs()).(started := started, status := s, interrupted := interrupted)
    {
      this.started, this.status, this.interrupted := started, s, interrupted;
      KidsUnchanged();
    }

    lemma OwnField()
      requires Wired()
      ensures this in repr && |shape.kids| == |children| && shape.kind == kind
    {
    }

    /** Node::tick. */
    method Tick() returns (r: Status)
      requires Wired() && Fits(shape, Abs())
      modifies repr, tree
      ensures (Abs(), tree.Now()) == BehaviorTree.Tick(tree.env, shape, old(Abs()), old(tree.Now()))
      ensures r == status
      decreases shape, 3
    {
      OwnField();
      hide Wired, BehaviorTree.OnTick, BehaviorTree.OnStart, Begin;
      Activate();
      if status == Running {
        var s := OnTick();
        SetStatus(started, s, interrupted);
      }
      if status == Success || status == Failure {
        SetStatus(false, status, interrupted);
        OnStop();
      }
      r := status;
    }

    /** The first activation since the node stopped. */
    method Activate()
      requires Wired() && Fits(shape, Abs())
      modifies repr, tree
      ensures (Abs(), tree.Now()) == Begin(tree.env, shape, old(Abs()), old(tree.Now())) && Fits(shape, Abs())
      decreases shape, 2
    {
      OwnField();
      hide Wired, BehaviorTree.OnStart;
      if !started {
        SetStatus(true, status, interrupted);
        var s := OnStart();
        SetStatus(true, s, interrupted);
      }
    }

    method OnStop()
      requires Wired()
      modifies this`interrupted
      ensures Abs() == old(Abs()).(interrupted := false)
    {
      interrupted := false;
      KidsUnchanged();
    }

    method OnStart() returns (s: Status)
      requires Wired() && Fits(shape, Abs())
      modifies this, tree
      ensures (Abs().(status := s), tree.Now()) == BehaviorTree.OnStart(tree.env, shape, old(Abs()), old(tree.Now()))
      ensures s == BehaviorTree.OnStart(tree.env, shape, old(Abs()), old(tree.Now())).0.status
    {
      s := Running;
      match kind {
        case RandomSelector =>
          if |children| == 0 { return Failure; }
          order := Shuffled(tree.env, tree.log, |children|);
          tree.Happen(Draw(|children|));
          current := 0;
        case Fallback => current := 0;
        case Retry(_) => count := 0;
        case Repeater(_) => count := 0;
        case EventGuard(_, _, _) => interrupted := false;
        case _ =>
      }
      KidsUnchanged();
    }

    /** The OnTick methods return the status their spec sets. */
    method OnTick() returns (s: Status)
      requires Wired() && Fits(shape, Abs())
      modifies repr, tree
      ensures (Abs().(status := s), tree.Now()) == BehaviorTree.OnTick(tree.env, shape, old(Abs()), old(tree.Now()))
      decreases shape, 2
    {
      match kind {
        case Action(id) => s := CallAction(id);
        case Sequence => s := TickSequence();
        case Selector => s := TickSelector();
        case Fallback => s := TickFallback();
        case RandomSelector => s := TickRandomSelector();
        case Inverter => s := TickInverter();
        case Retry(n) => s := TickRetry(n);
        case Repeater(n) => s := TickRepeater(n);
        case EventGuard(e, now, verdict) => s := TickEventGuard(e, now, verdict);
      }
    }

    method CallAction(id: nat) returns (s: Status)
      requires Wired() && Fits(shape, Abs()) && kind == Action(id)
      modifies tree
      ensures (Abs().(status := s), tree.Now()) == BehaviorTree.OnTick(tree.env, shape, old(Abs()), old(tree.Now()))
    {
      s := tree.env.act(tree.log, id);
      tree.Happen(Call(id));
      KidsUnchanged();
    }

    /** Tick the child at the current place of a composite, and what that leaves of the walk. */
    method TickCurrent(k: nat) returns (s: Status)
      requires Wired() && Fits(shape, Abs()) && current < Width(shape, Abs()) && k == Slot(shape, Abs(), current)
      modifies repr, tree
      ensures Fits(shape, Abs()) && current == old(current) && order == old(order)
      ensures s == Running ==>
                (Abs().(status := Running), tree.Now()) == Walk(tree.env, shape, old(Abs()), old(tree.Now()))
      ensures s != Running && Stops(shape.kind, s) ==>
                (Abs().(current := 0, status := StopStatus(shape.kind)), tree.Now()) == Walk(tree.env, shape, old(Abs()), old(tree.Now()))
      ensures s != Running && !Stops(shape.kind, s) ==>
                Walk(tree.env, shape, Abs().(current := current + 1), tree.Now()) == Walk(tree.env, shape, old(Abs()), old(tree.Now()))
      decreases shape, 0, 1
    {
      hide Wired, Walk, Stops, StopStatus, Fits, Width;
      OwnField();
      SlotFits(shape, Abs());
      WalkStep(tree.env, shape, Abs(), tree.Now());
      s := TickChild(k);
      OtherPlace(shape, Abs(), current + 1);
    }

    method TickSequence() returns (s: Status)
      requires Wired() && Fits(shape, Abs()) && kind.Sequence?
      modifies repr, tree
      ensures (Abs().(status := s), tree.Now()) == Walk(tree.env, shape, old(Abs()), old(tree.Now()))
      decreases shape, 1
    {
      hide Wired, Walk, TickKid;
      OwnField();
      ghost var goal := Walk(tree.env, shape, Abs(), tree.Now());
      while current < |children|
        invariant Fits(shape, Abs())
        invariant Walk(tree.env, shape, Abs(), tree.Now()) == goal
        decreases |children| - current
      {
        s := TickCurrent(current);
        if s == Running { return Running; }
        if s == Failure {
          SetCurrent(0);
          return Failure;
        }
        SetCurrent(current + 1);
      }
      WalkEnd(tree.env, shape, Abs(), tree.Now());
      SetCurrent(0);
      return Success;
    }

    method TickSelector() returns (s: Status)
      requires Wired() && Fits(shape, Abs()) && kind.Selector?
      modifies repr, tree
      ensures (Abs().(status := s), tree.Now()) == Walk(tree.env, shape, old(Abs()), old(tree.Now()))
      decreases shape, 1
    {
      hide Wired, Walk, TickKid;
      OwnField();
      ghost var goal := Walk(tree.env, shape, Abs(), tree.Now());
      while current < |children|
        invariant Fits(shape, Abs())
        invariant Walk(tree.env, shape, Abs(), tree.Now()) == goal
        decreases |children| - current
      {
        s := TickCurrent(current);
        if s == Running { return Running; }
        if s == Success {
          SetCurrent(0);
          return Success;
        }
        SetCurrent(current + 1);
      }
      WalkEnd(tree.env, shape, Abs(), tree.Now());
      SetCurrent(0);
      return Failure;
    }

    method TickFallback() returns (s: Status)
      requires Wired() && Fits(shape, Abs()) && kind.Fallback?
      modifies repr, tree
      ensures (Abs().(status := s), tree.Now()) == Walk(tree.env, shape, old(Abs()), old(tree.Now()))
      decreases shape, 1
    {
      hide Wired, Walk, TickKid;
      OwnField();
      ghost var goal := Walk(tree.env, shape, Abs(), tree.Now());
      while current < |children|
        invariant Fits(shape, Abs())
        invariant Walk(tree.env, shape, Abs(), tree.Now()) == goal
        decreases |children| - current
      {
        s := TickCurrent(current);
        if s == Running { return Running; }
        if s == Failure {
          SetCurrent(current + 1);
          continue;
        }
        SetCurrent(0);
        return Success;
      }
      WalkEnd(tree.env, shape, Abs(), tree.Now());
      SetCurrent(0);
      return Failure;
    }

    method TickRandomSelector() returns (s: Status)
      requires Wired() && Fits(shape, Abs()) && kind.RandomSelector?
      modifies repr, tree
      ensures (Abs().(status := s), tree.Now()) == Walk(tree.env, shape, old(Abs()), old(tree.Now()))
      decreases shape, 1
    {
      hide Wired, Walk, TickKid;
      OwnField();
      ghost var goal := Walk(tree.env, shape, Abs(), tree.Now());
      while current < |order|
        invariant Fits(shape, Abs()) && order == old(order)
        invariant Walk(tree.env, shape, Abs(), tree.Now()) == goal
        decreases |order| - current
      {
        s := TickCurrent(order[current]);
        if s == Running { return Running; }
        if s == Success {
          SetCurrent(0);
          return Success;
        }
        SetCurrent(current + 1);
      }
      WalkEnd(tree.env, shape, Abs(), tree.Now());
      SetCurrent(0);
      return Failure;
    }

    method TickInverter() returns (s: Status)
      requires Wired() && Fits(shape, Abs()) && kind.Inverter?
      modifies repr, tree
      ensures (Abs().(status := s), tree.Now()) == BehaviorTree.OnTick(tree.env, shape, old(Abs()), old(tree.Now()))
      decreases shape, 1
    {
      if |children| == 0 { return Failure; }
      s := TickChild(0);
      if s == Running { return Running; }
      if s == Success { return Failure; }
      return Success;
    }

    method ResetChild(k: nat)
      requires Wired() && Fits(shape, Abs()) && k < |children|
      modifies repr
      ensures Abs() == old(Abs()).(kids := old(Abs()).kids[k := BehaviorTree.Reset(shape.kids[k], old(Abs()).kids[k])])
      decreases shape, 0, 0
    {
      ghost var before := Abs();
      assert before.kids[k] == children[k].Abs();
      children[k].DoReset();
      forall i | 0 <= i < |children| && i != k ensures children[i].Abs() == before.kids[i] {}
      assert Abs().kids == before.kids[k := children[k].Abs()];
    }

    /** Count the attempt and reset the child for the next one. */
    method NextAttempt()
      requires Wired() && Fits(shape, Abs()) && |children| > 0
      modifies repr
      ensures Abs() == ResetKid(shape, old(Abs()).(count := old(Abs()).count + 1))
      decreases shape, 0, 1
    {
      SetCount(count + 1);
      ResetChild(0);
    }

    method TickRetry(maxRetries: int) returns (s: Status)
      requires Wired() && Fits(shape, Abs()) && kind == Retry(maxRetries)
      modifies repr, tree
      ensures (Abs().(status := s), tree.Now()) == BehaviorTree.OnTick(tree.env, shape, old(Abs()), old(tree.Now()))
      decreases shape, 1, 1
    {
      if |children| == 0 { return Failure; }
      OwnField();
      hide Wired, Fits, Retrying;
      while count < maxRetries
        invariant Fits(shape, Abs())
        invariant Retrying(tree.env, shape, Abs(), tree.Now()) == Retrying(tree.env, shape, old(Abs()), old(tree.Now()))
        decreases maxRetries - count
      {
        var done;
        done, s := RetryOnce(maxRetries);
        if done { return s; }
      }
      RetryingStep(tree.env, shape, Abs(), tree.Now());
      return Failure;
    }

    /** Tick the child of a Retry with attempts left, and what that leaves of its loop. */
    method TickAttempt(limit: int) returns (s: Status)
      requires Wired() && Fits(shape, Abs()) && |children| > 0 && kind == Retry(limit) && count < limit
      modifies repr, tree
      ensures Fits(shape, Abs()) && count == old(count)
      ensures Retrying(tree.env, shape, old(Abs()), old(tree.Now())) ==
              if s == Success || s == Running then (Abs().(status := s), tree.Now())
              else Retrying(tree.env, shape, ResetKid(shape, Abs().(count := count + 1)), tree.Now())
      decreases shape, 0, 1
    {
      hide Wired, Retrying, ResetKid;
      OwnField();
      RetryingStep(tree.env, shape, Abs(), tree.Now());
      s := TickChild(0);
    }

    /** Tick the child of a Repeater with attempts left, and what that leaves of its loop. */
    method TickRepeat(limit: int) returns (s: Status)
      requires Wired() && Fits(shape, Abs()) && |children| > 0 && kind == Repeater(limit) && count < limit
      modifies repr, tree
      ensures Fits(shape, Abs()) && count == old(count)
      ensures Repeating(tree.env, shape, old(Abs()), old(tree.Now())) ==
              if s == Failure || s == Running then (Abs().(status := s), tree.Now())
              else Repeating(tree.env, shape, ResetKid(shape, Abs().(count := count + 1)), tree.Now())
      decreases shape, 0, 1
    {
      hide Wired, Repeating, ResetKid;
      OwnField();
      RepeatingStep(tree.env, shape, Abs(), tree.Now());
      s := TickChild(0);
    }

    /** One turn of the loop: tick the child and, if that settles nothing, prepare the next
        attempt. */
    method RetryOnce(maxRetries: int) returns (done: bool, s: Status)
      requires Wired() && Fits(shape, Abs()) && kind == Retry(maxRetries) && |children| > 0 && count < maxRetries
      modifies repr, tree
      ensures done ==> (Abs().(status := s), tree.Now()) == Retrying(tree.env, shape, old(Abs()), old(tree.Now()))
      ensures !done ==> Fits(shape, Abs()) && count == old(count) + 1
      ensures !done ==> Retrying(tree.env, shape, Abs(), tree.Now()) == Retrying(tree.env, shape, old(Abs()), old(tree.Now()))
      decreases shape, 1, 0
    {
      hide Wired, Fits, Retrying;
      s := TickAttempt(maxRetries);
      done := s == Success || s == Running;
      if !done {
        NextAttempt();
      }
    }

    method TickRepeater(repeatCount: int) returns (s: Status)
      requires Wired() && Fits(shape, Abs()) && kind == Repeater(repeatCount)
      modifies repr, tree
      ensures (Abs().(status := s), tree.Now()) == BehaviorTree.OnTick(tree.env, shape, old(Abs()), old(tree.Now()))
      decreases shape, 1, 1
    {
      if |children| == 0 { return Failure; }
      OwnField();
      hide Wired, Fits, Repeating;
      while count < repeatCount
        invariant Fits(shape, Abs())
        invariant Repeating(tree.env, shape, Abs(), tree.Now()) == Repeating(tree.env, shape, old(Abs()), old(tree.Now()))
        decreases repeatCount - count
      {
        var done;
        done, s := RepeaterOnce(repeatCount);
        if done { return s; }
      }
      RepeatingStep(tree.env, shape, Abs(), tree.Now());
      return Success;
    }

    /** One turn of the loop: tick the child and, if that settles nothing, prepare the next
        attempt. */
    method RepeaterOnce(repeatCount: int) returns (done: bool, s: Status)
      requires Wired() && Fits(shape, Abs()) && kind == Repeater(repeatCount) && |children| > 0 && count < repeatCount
      modifies repr, tree
      ensures done ==> (Abs().(status := s), tree.Now()) == Repeating(tree.env, shape, old(Abs()), old(tree.Now()))
      ensures !done ==> Fits(shape, Abs()) && count == old(count) + 1
      ensures !done ==> Repeating(tree.env, shape, Abs(), tree.Now()) == Repeating(tree.env, shape, old(Abs()), old(tree.Now()))
      decreases shape, 1, 0
    {
      hide Wired, Fits, Repeating;
      s := TickRepeat(repeatCount);
      done := s == Running || s == Failure;
      if !done {
        NextAttempt();
      }
    }

    method TickEventGuard(event: int, immediate: bool, onInterrupt: Verdict) returns (s: Status)
      requires Wired() && Fits(shape, Abs()) && kind == EventGuard(event, immediate, onInterrupt)
      modifies repr, tree
      ensures (Abs().(status := s), tree.Now()) == BehaviorTree.OnTick(tree.env, shape, old(Abs()), old(tree.Now()))
      decreases shape, 1
    {
      if |children| == 0 { return Failure; }
      var seen := tree.HasEvent(event);
      if seen {
        var _ := tree.ConsumeEvent(event);
        interrupted := true;
        KidsUnchanged();
        if immediate {
          ResetChild(0);
          return onInterrupt;
        }
      }
      if interrupted && !immediate {
        ResetChild(0);
        return onInterrupt;
      }
      s := TickChild(0);
    }

    /** The `for` loops over the children in Node::reset and Composite::reset. */
    method ResetChildren()
      requires Wired() && Fits(shape, Abs())
      modifies repr
      ensures Abs() == old(Abs()).(kids := BehaviorTree.Reset(shape, old(Abs())).kids)
      decreases shape, 0, 1
    {
      hide Wired, BehaviorTree.Reset;
      ghost var before := Abs();
      OwnField();
      for k := 0 to |children|
        invariant Fits(shape, Abs()) && Abs() == before.(kids := Abs().kids)
        invariant forall i :: 0 <= i < k ==> Abs().kids[i] == BehaviorTree.Reset(shape.kids[i], before.kids[i])
        invariant forall i :: k <= i < |children| ==> Abs().kids[i] == before.kids[i]
      {
        ghost var (sh, st) := (shape.kids[k], Abs().kids[k]);
        ResetFits(sh, st);
        ResetChild(k);
      }
      AllReset(shape, before, Abs().kids);
    }

    /** reset(): a composite resets its children, then does what Node::reset does, which resets
        them once more. */
    method DoReset()
      requires Wired() && Fits(shape, Abs())
      modifies repr
      ensures Abs() == BehaviorTree.Reset(shape, old(Abs()))
      decreases shape, 1
    {
      OwnField();
      hide Wired;
      ResetTwice(shape, Abs());
      if IsComposite(kind) {
        ResetChildren();
        KidsReset(shape, old(Abs()), Abs());
      }
      SetStatus(false, Idle, interrupted);
      ResetChildren();
      if IsComposite(kind) {
        SetCurrent(0);
      }
    }
  }

  /** buildNode: the children first, each added to the list of its parent. */
  method BuildNode(sh: Shape, tree: BtTree) returns (n: Node)
    ensures n.Wired() && n.shape == sh && n.tree == tree && fresh(n.repr) && n.Abs() == Fresh(sh)
    decreases sh
  {
    hide Node.Wired, Node.Abs, Fresh;
    var children: seq<Node> := [];
    for k := 0 to |sh.kids|
      invariant |children| == k
      invariant forall i :: 0 <= i < k ==>
        && children[i].Wired() && children[i].shape == sh.kids[i] && children[i].tree == tree
        && fresh(children[i].repr) && children[i].Abs() == Fresh(sh.kids[i])
      invariant forall i, j :: 0 <= i < j < k ==> children[i].repr !! children[j].repr
    {
      var child := BuildNode(sh.kids[k], tree);
      children := children + [child];
    }
    n := new Node(sh.kind, children, tree);
    n.BuiltFresh();
    assert n.shape.kids == sh.kids;
  }

  /** What a program does with a tree: tick(), reset(), sendEvent() and clearEvents(), in any order. */
  method Drive(root: Node, commands: seq<Command>) returns (seen: seq<Status>)
    requires root.Wired() && Fits(root.shape, root.Abs())
    modifies root.repr, root.tree
    ensures (root.Abs(), root.tree.Now()) == Run(root.tree.env, root.shape, old(root.Abs()), old(root.tree.Now()), commands)
    ensures (seen, root.tree.Now()) == Observed(root.tree.env, root.shape, old(root.Abs()), old(root.tree.Now()), commands)
  {
    hide Node.Wired, Node.Abs, Step;
    var tree := root.tree;
    seen := [];
    assert commands[0..] == commands;
    AfterNothing(Observed(tree.env, root.shape, root.Abs(), tree.Now(), commands));
    for k := 0 to |commands|
      invariant Fits(root.shape, root.Abs())
      invariant Run(tree.env, root.shape, root.Abs(), tree.Now(), commands[k..])
             == Run(tree.env, root.shape, old(root.Abs()), old(tree.Now()), commands)
      invariant After(seen, Observed(tree.env, root.shape, root.Abs(), tree.Now(), commands[k..]))
             == Observed(tree.env, root.shape, old(root.Abs()), old(tree.Now()), commands)
    {
      RunStep(tree.env, root.shape, root.Abs(), tree.Now(), commands[k..], seen);
      assert commands[k..][1..] == commands[k + 1..];
      var s := Obey(root, commands[k]);
      seen := seen + s;
    }
    assert commands[|commands|..] == [] && seen + [] == seen;
  }

  method Obey(root: Node, c: Command) returns (seen: seq<Status>)
    requires root.Wired() && Fits(root.shape, root.Abs())
    modifies root.repr, root.tree
    ensures (root.Abs(), root.tree.Now()) == Step(root.tree.env, root.shape, old(root.Abs()), old(root.tree.Now()), c)
    ensures seen == Shown(c, root.Abs())
  {
    hide Node.Wired, BehaviorTree.Tick, BehaviorTree.Reset;
    seen := [];
    match c {
      case DoTick =>
        var s := root.Tick();
        seen := [s];
      case DoReset => root.DoReset();
      case Send(e) => root.tree.SendEvent(e);
      case ClearEvents => root.tree.ClearEvents();
    }
  }

  /** What a command shows: a tick its status. */
  function Shown(c: Command, after: State): seq<Status> {
    if c.DoTick? then [after.status] else []
  }

  function After(seen: seq<Status>, rest: (seq<Status>, World)): (seq<Status>, World) {
    (seen + rest.0, rest.1)
  }

  lemma AfterNothing(rest: (seq<Status>, World))
    ensures After([], rest) == rest
  {
    assert [] + rest.0 == rest.0;
  }

  lemma RunStep(env: Env, sh: Shape, st: State, w: World, cs: seq<Command>, seen: seq<Status>)
    requires Fits(sh, st) && cs != []
    ensures var (s1, w1) := Step(env, sh, st, w, cs[0]);
      && Run(env, sh, st, w, cs) == Run(env, sh, s1, w1, cs[1..])
      && After(seen, Observed(env, sh, st, w, cs)) == After(seen + Shown(cs[0], s1), Observed(env, sh, s1, w1, cs[1..]))
  {
    hide Step, Run;
    StepOnce(env, sh, st, w, cs);
    var (s1, w1) := Step(env, sh, st, w, cs[0]);
    var (rest, end) := Observed(env, sh, s1, w1, cs[1..]);
    assert seen + (Shown(cs[0], s1) + rest) == seen + Shown(cs[0], s1) + rest;
  }

  lemma StepOnce(env: Env, sh: Shape, st: State, w: World, cs: seq<Command>)
    requires Fits(sh, st) && cs != []
    ensures var (s1, w1) := Step(env, sh, st, w, cs[0]);
      && Run(env, sh, st, w, cs) == Run(env, sh, s1, w1, cs[1..])
      && Observed(env, sh, st, w, cs) == After(Shown(cs[0], s1), Observed(env, sh, s1, w1, cs[1..]))
  {
    hide Step;
    var (s1, w1) := Step(env, sh, st, w, cs[0]);
    AfterNothing(Observed(env, sh, s1, w1, cs[1..]));
  }

  /** A tree built from nothing and driven by any commands has one active path, or none. */
  method BuildAndDrive(env: Env, sh: Shape, commands: seq<Command>) returns (root: Node, seen: seq<Status>)
    ensures fresh(root.repr) && root.Wired() && root.shape == sh && Fits(sh, root.Abs())
    ensures OneActivePathOrNone(sh, root.Abs())
    ensures Fits(sh, Fresh(sh))
    ensures (seen, root.tree.Now()) == Observed(env, sh, Fresh(sh), World([], []), commands)
  {
    var tree := new BtTree(env);
    root := BuildNode(sh, tree);
    hide Node.Wired, OneActivePathOrNone, Observed;
    ReachableStructure(env, sh, World([], []), commands);
    seen := Drive(root, commands);
  }

  lemma SlotFits(sh: Shape, st: State)
    requires Fits(sh, st) && st.current < Width(sh, st)
    ensures Slot(sh, st, st.current) < |sh.kids|
  {
  }

  lemma OtherPlace(sh: Shape, st: State, n: nat)
    requires Fits(sh, st)
    ensures Fits(sh, st.(current := n)) && Width(sh, st.(current := n)) == Width(sh, st)
  {
  }

  /** Children that have been reset once are reset by the second loop to what they are. */
  lemma KidsReset(sh: Shape, st: State, now: State)
    requires Fits(sh, st) && now == st.(kids := BehaviorTree.Reset(sh, st).kids)
    ensures Fits(sh, now) && BehaviorTree.Reset(sh, now).kids == now.kids
  {
    ResetFits(sh, st);
    ResetTwice(sh, st);
  }

  lemma AllReset(sh: Shape, st: State, kids: seq<State>)
    requires Fits(sh, st) && |kids| == |sh.kids|
    requires forall i :: 0 <= i < |kids| ==> kids[i] == BehaviorTree.Reset(sh.kids[i], st.kids[i])
    ensures kids == BehaviorTree.Reset(sh, st).kids
  {
  }

  /** A second reset does nothing. */
  lemma {:induction false} ResetTwice(sh: Shape, st: State)
    requires Fits(sh, st)
    ensures Fits(sh, BehaviorTree.Reset(sh, st))
    ensures BehaviorTree.Reset(sh, BehaviorTree.Reset(sh, st)) == BehaviorTree.Reset(sh, st)
    decreases sh
  {
    ResetFits(sh, st);
    forall i | 0 <= i < |st.kids|
      ensures BehaviorTree.Reset(sh.kids[i], BehaviorTree.Reset(sh, st).kids[i]) == BehaviorTree.Reset(sh, st).kids[i]
    {
      ResetTwice(sh.kids[i], st.kids[i]);
    }
  }
}
