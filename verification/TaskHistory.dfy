/** What becomes of a task that was posted: when it runs, and when it does not. */
module TaskHistory {
  import opened TaskRunner

  /** A task posted while the runner has not quit runs within as many rounds as there are tasks waiting,
      and one more. */
  lemma PostedRuns(s: State, es: seq<Event>)
    requires !s.quit && Rounds(es) > |s.immediate|
    ensures s.nextId in Run(Step(s, Post), es).ranNow
  {
    hide Run;
    var t := Step(s, Post);
    assert t.immediate[|s.immediate|] == s.nextId;
    ImmediateWithin(t, es, |s.immediate|);
  }

  predicate Lacks(es: seq<Event>, e: Event) {
    forall i :: 0 <= i < |es| ==> es[i] != e
  }

  lemma {:induction false} QuitStays(s: State, es: seq<Event>)
    ensures s.quit && Lacks(es, Start) ==> Run(s, es).quit
    ensures !s.quit && Lacks(es, Quit) ==> !Run(s, es).quit
    decreases |es|
  {
    hide Insert, Place;
    if |es| > 0 { QuitStays(Step(s, es[0]), es[1..]); }
  }

  lemma {:induction false} DroppedStays(s: State, es: seq<Event>)
    ensures s.dropped <= Run(s, es).dropped
    decreases |es|
  {
    hide Insert, Place;
    if |es| > 0 { DroppedStays(Step(s, es[0]), es[1..]); }
  }

  /** From Quit to the next Start a task posted is dropped for good. */
  lemma QuitDrops(s: State, between: seq<Event>, es: seq<Event>)
    requires Inv(s) && Lacks(between, Start)
    ensures var t := Run(Step(s, Quit), between);
      t.nextId !in Run(Step(t, Post), es).ranNow && t.nextId !in Run(Step(t, Post), es).immediate
  {
    StepInv(s, Quit);
    RunInv(Step(s, Quit), between);
    QuitStays(Step(s, Quit), between);
    var t := Run(Step(s, Quit), between);
    StepInv(t, Post);
    RunInv(Step(t, Post), es);
    DroppedStays(Step(t, Post), es);
    hide Run, Handles, Ordered, Increasing;
    var u := Run(Step(t, Post), es);
    assert t.nextId in Step(t, Post).dropped;
    assert Count(u, t.nextId) <= 1;
    hide Ids;
  }

  /** From Start to the next Quit it is taken. */
  lemma StartTakes(s: State, between: seq<Event>, es: seq<Event>)
    requires Lacks(between, Quit)
    ensures var t := Run(Step(s, Start), between);
      Rounds(es) > |t.immediate| ==> t.nextId in Run(Step(t, Post), es).ranNow
  {
    hide Run;
    QuitStays(Step(s, Start), between);
    var t := Run(Step(s, Start), between);
    if Rounds(es) > |t.immediate| { PostedRuns(t, es); }
  }

  /** The slot of a delayed task: due when the delay is over, on the runner's own clock. */
  lemma PostedSlot(s: State, now: int, delay: nat, handle: nat)
    requires handle == 0 || handle in s.claimed
    ensures var t := Step(s, PostDelayed(now, delay, handle));
      && multiset(t.delayed) == multiset(s.delayed) + multiset{Slot(now + delay + s.advanced, handle, s.nextId)}
      && t.nextId == s.nextId + 1 && t.immediate == s.immediate && t.ranLater == s.ranLater && t.cancelled == s.cancelled
  {
    hide Insert;
    InsertHas(s.delayed, NewSlot(s, now, delay, handle));
  }

  /** The k-th event is a round of the loop at a time when the slot is due. */
  predicate RoundWhenDue(s: State, es: seq<Event>, x: Slot, k: nat) {
    k < |es| && es[k].RunOnce? && es[k].now + Run(s, es[..k]).advanced >= x.deadline
  }

  lemma {:induction false} TakenWhenDue(s: State, es: seq<Event>, x: Slot) returns (k: nat)
    requires x !in s.ranLater && x in Run(s, es).ranLater
    ensures RoundWhenDue(s, es, x, k)
    decreases |es|
  {
    hide Insert, Place;
    if |es| > 0 {
      var t := Step(s, es[0]);
      if x in t.ranLater {
        k := 0;
        assert es[..0] == [];
      } else {
        hide Step;
        var j := TakenWhenDue(t, es[1..], x);
        k := j + 1;
        assert es[..k][1..] == es[1..][..j] && es[..k][0] == es[0];
      }
    }
  }

  /** A delayed task is never taken before its delay is over: the round that takes it comes at least that
      much later, time advanced meanwhile included. */
  lemma NeverEarly(s: State, now: int, delay: nat, handle: nat, es: seq<Event>)
    requires Inv(s) && (handle == 0 || handle in s.claimed)
    ensures var t := Step(s, PostDelayed(now, delay, handle));
      var x := Slot(now + delay + s.advanced, handle, s.nextId);
      x in Run(t, es).ranLater ==>
        exists k :: 0 <= k < |es| && RoundWhenDue(t, es, x, k) && es[k].now + Run(t, es[..k]).advanced >= now + delay + s.advanced
  {
    hide Run;
    var t := Step(s, PostDelayed(now, delay, handle));
    var x := Slot(now + delay + s.advanced, handle, s.nextId);
    PostedSlot(s, now, delay, handle);
    NotSeenYet(s, x);
    if x in Run(t, es).ranLater {
      var k := TakenWhenDue(t, es, x);
    }
  }

  lemma NotSeenYet(s: State, x: Slot)
    requires Inv(s) && x.id == s.nextId
    ensures x !in s.ranLater
  {
    hide Handles, Ordered, Increasing;
    assert Count(s, s.nextId) == 0;
    if x in s.ranLater {
      var j :| 0 <= j < |s.ranLater| && s.ranLater[j] == x;
      IdIn(s.ranLater, j);
    }
  }

  /** The time the tests add counts for deadlines and rounds alike. */
  lemma {:induction false} AdvancedIs(s: State, es: seq<Event>)
    ensures Run(s, es).advanced == s.advanced + Added(es)
    decreases |es|
  {
    hide Insert, Place;
    if |es| > 0 { AdvancedIs(Step(s, es[0]), es[1..]); }
  }

  function Added(es: seq<Event>): nat
    decreases |es|
  {
    if |es| == 0 then 0 else (if es[0].Advance? then es[0].ms else 0) + Added(es[1..])
  }
}
