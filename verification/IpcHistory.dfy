/** What calls are told, traced back to the events of a run: the answers received, the sends that failed,
    the waits that ended and the disconnections. */
module IpcHistory {
  import opened IpcChannel

  // ----- Events of a run -----

  /** The k-th event happened. */
  ghost predicate Fired(es: seq<Event>, k: nat, e: Event) {
    k < |es| && es[k] == e && Enabled(Run(es[..k]), e)
  }

  ghost predicate Happened(es: seq<Event>, e: Event) {
    exists k: nat :: Fired(es, k, e)
  }

  /** The pending table has call h under this id. */
  predicate Holds(s: State, id: int, h: nat) {
    id in s.pending && s.pending[id] == h
  }

  /** The response was received while the call was in the table under its id. */
  ghost predicate Answered(es: seq<Event>, h: nat, r: Response) {
    exists k: nat :: k < |es| && Fired(es, k, Acts(TheReader, Receive(r))) && Holds(Run(es[..k]), r.id, h)
  }

  /** The table was swept while the call was in it. */
  ghost predicate SweptUp(es: seq<Event>, h: nat) {
    exists k: nat, who, id :: k < |es| && Fired(es, k, Acts(who, Sweep)) && Holds(Run(es[..k]), id, h)
  }

  /** The call began while the client was not connected. */
  ghost predicate TurnedAway(es: seq<Event>, h: nat) {
    exists k: nat, async :: k < |es| && Fired(es, k, Enter(async)) && |Run(es[..k]).calls| == h && !Run(es[..k]).connected
  }

  /** Why a call may be completed with this. */
  ghost predicate Completes(es: seq<Event>, h: nat, o: Outcome) {
    match o
    case Answer(r) => Answered(es, h, r)
    case Failed(Disconnected) => SweptUp(es, h)
    case Failed(SendFailed) => Happened(es, Caller(h, Send(false)))
    case Failed(_) => false
  }

  // ----- The invariant of histories -----

  ghost predicate AgentHist(es: seq<Event>, a: Agent) {
    && (a.job != Nothing ==> Completes(es, a.target, a.job.outcome))
    && (forall h :: h in a.rest ==> SweptUp(es, h))
  }

  /** What a call holds, and where that came from. */
  ghost predicate ToldHist(es: seq<Event>, h: nat, c: Call) {
    && (c.done && !c.async ==> Completes(es, h, c.result))
    && (c.job != Nothing ==> Completes(es, h, c.job.outcome))
    && (forall o :: o in c.posted ==> Completes(es, h, o) || (o == Failed(NotConnected) && TurnedAway(es, h)))
    && (Refused(c) ==> TurnedAway(es, h) && c.returned == Failed(NotConnected))
  }

  /** Which of its moves a caller has made, and what it returned after. */
  ghost predicate MovesHist(es: seq<Event>, h: nat, c: Call) {
    && (Happened(es, Caller(h, Wake)) ==> c.at == Returned && c.done && c.returned == c.result)
    && (Happened(es, Caller(h, GiveUp)) ==> c.at == GivenUp || (c.at == Returned && c.returned == Failed(TimedOut)))
    && (Happened(es, Caller(h, Send(false))) ==>
          c.at == SendBroken || c.at == Finishing || (c.at == Returned && (c.async || c.returned == Failed(SendFailed))))
    && (c.at == SendBroken || c.at == Finishing ==> Happened(es, Caller(h, Send(false))))
    && (c.at == GivenUp ==> Happened(es, Caller(h, GiveUp)))
    && (c.at == Returned && !c.async && Known(c) ==>
          Happened(es, Caller(h, Wake)) || Happened(es, Caller(h, GiveUp)) || Happened(es, Caller(h, Send(false))))
  }

  ghost predicate Hist(es: seq<Event>, s: State) {
    && AgentHist(es, s.reader) && AgentHist(es, s.disconnecter)
    && (forall h :: 0 <= h < |s.calls| ==> ToldHist(es, h, s.calls[h]) && MovesHist(es, h, s.calls[h]))
    && (forall h: nat, m :: Happened(es, Caller(h, m)) ==> h < |s.calls|)
  }

  // ----- One event more -----

  lemma FiredMore(es: seq<Event>, k: nat, e: Event)
    requires |es| > 0
    ensures Fired(es, k, e) <==>
              Fired(es[..|es| - 1], k, e) || (k == |es| - 1 && e == es[k] && Enabled(Run(es[..|es| - 1]), e))
  {
    hide Run, Enabled;
    var init := es[..|es| - 1];
    if k < |init| { assert init[..k] == es[..k] && init[k] == es[k]; }
  }

  lemma HappenedMore(es: seq<Event>, e: Event)
    requires |es| > 0
    ensures Happened(es, e) <==> Happened(es[..|es| - 1], e) || (e == es[|es| - 1] && Enabled(Run(es[..|es| - 1]), e))
  {
    hide Fired, Run, Enabled;
    var init := es[..|es| - 1];
    if Happened(init, e) {
      var k: nat :| Fired(init, k, e);
      FiredMore(es, k, e);
    }
    FiredMore(es, |es| - 1, e);
    if Happened(es, e) {
      var k: nat :| Fired(es, k, e);
      FiredMore(es, k, e);
    }
  }

  lemma Before(es: seq<Event>, k: nat, e: Event)
    requires |es| > 0 && Fired(es[..|es| - 1], k, e)
    ensures Fired(es, k, e) && es[..k] == es[..|es| - 1][..k]
  {
    FiredMore(es, k, e);
    hide Run, Enabled;
  }

  lemma CompletesMore(es: seq<Event>, h: nat, o: Outcome)
    requires |es| > 0
    ensures Completes(es[..|es| - 1], h, o) ==> Completes(es, h, o)
    ensures TurnedAway(es[..|es| - 1], h) ==> TurnedAway(es, h)
    ensures SweptUp(es[..|es| - 1], h) ==> SweptUp(es, h)
  {
    hide Fired, Run, Holds, Happened;
    var init := es[..|es| - 1];
    HappenedMore(es, Caller(h, Send(false)));
    if o.Answer? && Answered(init, h, o.response) {
      var k: nat :| k < |init| && Fired(init, k, Acts(TheReader, Receive(o.response))) && Holds(Run(init[..k]), o.response.id, h);
      Before(es, k, Acts(TheReader, Receive(o.response)));
    }
    if SweptUp(init, h) {
      var k: nat, who, id :| k < |init| && Fired(init, k, Acts(who, Sweep)) && Holds(Run(init[..k]), id, h);
      Before(es, k, Acts(who, Sweep));
    }
    if TurnedAway(init, h) {
      var k: nat, async :| k < |init| && Fired(init, k, Enter(async)) && |Run(init[..k]).calls| == h && !Run(init[..k]).connected;
      Before(es, k, Enter(async));
    }
  }

  lemma ToldMore(es: seq<Event>, h: nat, c: Call)
    requires |es| > 0 && ToldHist(es[..|es| - 1], h, c)
    ensures ToldHist(es, h, c)
  {
    hide Completes, TurnedAway, SweptUp;
    CompletesMore(es, h, c.result);
    if c.job != Nothing { CompletesMore(es, h, c.job.outcome); }
    forall o | o in c.posted ensures Completes(es, h, o) || (o == Failed(NotConnected) && TurnedAway(es, h)) { CompletesMore(es, h, o); }
  }

  lemma AgentMore(es: seq<Event>, a: Agent)
    requires |es| > 0 && AgentHist(es[..|es| - 1], a)
    ensures AgentHist(es, a)
  {
    hide Completes, TurnedAway, SweptUp;
    if a.job != Nothing { CompletesMore(es, a.target, a.job.outcome); }
    forall h | h in a.rest ensures SweptUp(es, h) { CompletesMore(es, h, Failed(Disconnected)); }
  }

  lemma MovesMore(es: seq<Event>, h: nat, c: Call, d: Call)
    requires |es| > 0 && MovesHist(es[..|es| - 1], h, c)
    requires forall m :: es[|es| - 1] == Caller(h, m) ==> !Enabled(Run(es[..|es| - 1]), es[|es| - 1])
    requires d.at == c.at && d.async == c.async && d.id == c.id && d.returned == c.returned
    requires c.done ==> d.done && d.result == c.result
    ensures MovesHist(es, h, d)
  {
    hide Happened, Enabled, Run;
    HappenedMore(es, Caller(h, Wake));
    HappenedMore(es, Caller(h, GiveUp));
    HappenedMore(es, Caller(h, Send(false)));
  }

  // ----- Steps -----

  /** The last event happened, in this state. */
  ghost predicate Last(es: seq<Event>, s: State, e: Event) {
    |es| > 0 && s == Run(es[..|es| - 1]) && e == es[|es| - 1] && Enabled(s, e) && Run(es) == Step(s, e)
  }

  lemma LastFired(es: seq<Event>, s: State, e: Event)
    requires Last(es, s, e)
    ensures Fired(es, |es| - 1, e) && Run(es[..|es| - 1]) == s
  {
    hide Run, Enabled;
    FiredMore(es, |es| - 1, e);
  }

  lemma EnterHist(es: seq<Event>, s: State, async: bool)
    requires Last(es, s, Enter(async)) && Hist(es[..|es| - 1], s)
    ensures var c := NewCall(s.connected, async); ToldHist(es, |s.calls|, c) && MovesHist(es, |s.calls|, c)
  {
    hide Run, Completes, SweptUp;
    var h := |s.calls|;
    LastFired(es, s, Enter(async));
    forall m ensures !Happened(es, Caller(h, m)) { HappenedMore(es, Caller(h, m)); }
    if !s.connected { assert TurnedAway(es, h); }
    hide Happened;
  }

  lemma CallerMoves(es: seq<Event>, s: State, h: nat, m: CallerMove)
    requires Last(es, s, Caller(h, m)) && h < |s.calls| && MovesHist(es[..|es| - 1], h, s.calls[h]) && CallShape(s.calls[h])
    ensures MovesHist(es, h, Moved(s.calls[h], m, s.nextId))
  {
    hide Happened, Run;
    HappenedMore(es, Caller(h, Wake));
    HappenedMore(es, Caller(h, GiveUp));
    HappenedMore(es, Caller(h, Send(false)));
  }

  lemma CallerTold(es: seq<Event>, s: State, h: nat, m: CallerMove)
    requires Last(es, s, Caller(h, m)) && h < |s.calls| && CallShape(s.calls[h])
    requires ToldHist(es[..|es| - 1], h, s.calls[h]) && MovesHist(es[..|es| - 1], h, s.calls[h])
    ensures ToldHist(es, h, Moved(s.calls[h], m, s.nextId))
  {
    hide Happened, Run, TurnedAway, SweptUp, Answered, Step;
    ToldMore(es, h, s.calls[h]);
    HappenedMore(es, Caller(h, Send(false)));
    assert s.calls[h].at == SendBroken ==> Completes(es, h, Failed(SendFailed));
    hide Completes;
  }

  lemma WorkTold(es: seq<Event>, h: nat, c: Call, job: Job)
    requires ToldHist(es, h, c) && CallShape(c) && (job != Nothing ==> Completes(es, h, job.outcome))
    ensures ToldHist(es, h, Worked(c, job))
    ensures JobLeft(c, job) != Nothing ==> Completes(es, h, JobLeft(c, job).outcome)
  {
    hide Completes, TurnedAway, SweptUp;
  }

  lemma ActsHist(es: seq<Event>, s: State, who: Who, m: AgentMove)
    requires Last(es, s, Acts(who, m)) && Hist(es[..|es| - 1], s)
    ensures AgentHist(es, AgentOf(Act(s, who, m), who))
  {
    var a := AgentOf(s, who);
    hide Run, Completes, Happened, Worked, ToldHist, MovesHist;
    LastFired(es, s, Acts(who, m));
    AgentMore(es, a);
    match m {
      case Receive(r) => if r.id in s.pending { ReceiveCompletes(es, s, r); }
      case Sweep =>
        forall h | h in s.pending.Values ensures SweptUp(es, h) { SweepReaches(es, s, who, h); }
      case Pick(h) => SweptCompletes(es, h);
      case _ =>
    }
  }

  lemma SweptCompletes(es: seq<Event>, h: nat)
    ensures SweptUp(es, h) ==> Completes(es, h, Failed(Disconnected))
  {
  }

  lemma ReceiveCompletes(es: seq<Event>, s: State, r: Response)
    requires Last(es, s, Acts(TheReader, Receive(r))) && r.id in s.pending
    ensures Completes(es, s.pending[r.id], Answer(r))
  {
    hide Run, Fired;
    LastFired(es, s, Acts(TheReader, Receive(r)));
    assert Holds(Run(es[..|es| - 1]), r.id, s.pending[r.id]);
  }

  lemma SweepReaches(es: seq<Event>, s: State, who: Who, h: nat)
    requires Last(es, s, Acts(who, Sweep)) && h in s.pending.Values
    ensures SweptUp(es, h)
  {
    hide Run, Fired;
    LastFired(es, s, Acts(who, Sweep));
    assert (forall id :: id in s.pending ==> s.pending[id] != h) ==> h !in s.pending.Values;
    var id :| id in s.pending && s.pending[id] == h;
    assert Holds(Run(es[..|es| - 1]), id, h);
  }

  lemma OtherAgent(es: seq<Event>, s: State, who: Who, m: AgentMove, other: Who)
    requires Last(es, s, Acts(who, m)) && Hist(es[..|es| - 1], s) && other != who
    ensures AgentHist(es, AgentOf(Act(s, who, m), other))
  {
    hide Run, Completes, Happened, ToldHist, MovesHist;
    AgentMore(es, AgentOf(s, other));
  }

  lemma ActsCall(es: seq<Event>, s: State, who: Who, m: AgentMove, h: nat)
    requires Last(es, s, Acts(who, m)) && Hist(es[..|es| - 1], s) && h < |s.calls| && CallShape(s.calls[h])
    ensures |Act(s, who, m).calls| == |s.calls|
    ensures ToldHist(es, h, Act(s, who, m).calls[h]) && MovesHist(es, h, Act(s, who, m).calls[h])
  {
    hide Run, Completes, Happened, ToldHist, MovesHist;
    var c := s.calls[h];
    assert ToldHist(es[..|es| - 1], h, c) && MovesHist(es[..|es| - 1], h, c);
    ToldMore(es, h, c);
    AgentMore(es, AgentOf(s, who));
    var a := AgentOf(s, who);
    if m.Work? && a.target == h { WorkTold(es, h, c, a.job); }
    WorkSame(c, a.job);
    MovesMore(es, h, c, Act(s, who, m).calls[h]);
  }

  lemma WorkSame(c: Call, job: Job)
    ensures var d := Worked(c, job);
      d.at == c.at && d.async == c.async && d.id == c.id && d.returned == c.returned && (c.done ==> d.done && d.result == c.result)
  {
  }

  lemma CallsStay(es: seq<Event>, s: State, e: Event)
    requires Last(es, s, e) && Hist(es[..|es| - 1], s)
    ensures |s.calls| <= |Step(s, e).calls|
    ensures forall h: nat, m :: Happened(es, Caller(h, m)) ==> h < |Step(s, e).calls|
  {
    hide Run, AgentHist, ToldHist, MovesHist, Happened, CanMove, CanAct, Moved, Worked, Act;
    if e.Acts? { ActKeepsCount(s, e.who, e.action); }
    forall h: nat, m | Happened(es, Caller(h, m)) ensures h < |s.calls| { HappenedMore(es, Caller(h, m)); }
  }

  lemma {:induction false} RunHist(es: seq<Event>)
    ensures Hist(es, Run(es))
    decreases |es|
  {
    hide Fired;
    if |es| == 0 {
      NothingYet();
      assert es == [];
    } else {
      var init, e := es[..|es| - 1], es[|es| - 1];
      var s := Run(init);
      RunHist(init);
      RunInv(init);
      if Enabled(s, e) { StepHist(es, s, e); } else { SkipHist(es, s); }
    }
  }

  lemma NothingYet()
    ensures Hist([], INITIAL)
  {
  }

  lemma SkipHist(es: seq<Event>, s: State)
    requires |es| > 0 && s == Run(es[..|es| - 1]) == Run(es) && Hist(es[..|es| - 1], s) && !Enabled(s, es[|es| - 1])
    ensures Hist(es, s)
  {
    hide Run, Enabled, Happened, AgentHist, ToldHist, MovesHist;
    AgentMore(es, s.reader);
    AgentMore(es, s.disconnecter);
    forall h | 0 <= h < |s.calls| ensures ToldHist(es, h, s.calls[h]) && MovesHist(es, h, s.calls[h]) {
      ToldMore(es, h, s.calls[h]);
      MovesMore(es, h, s.calls[h], s.calls[h]);
    }
    forall h: nat, m | Happened(es, Caller(h, m)) ensures h < |s.calls| { HappenedMore(es, Caller(h, m)); }
  }

  lemma StepHist(es: seq<Event>, s: State, e: Event)
    requires Last(es, s, e) && Hist(es[..|es| - 1], s) && Inv(s)
    ensures Hist(es, Step(s, e))
  {
    CallsStay(es, s, e);
    forall h | 0 <= h < |s.calls| ensures CallShape(s.calls[h]) { assert CallInv(s, h); }
    hide Run, CallShape, Inv, IdsInv, Happened, AgentHist, ToldHist, MovesHist, Act, CanAct, Moved, CanMove, NewCall;
    match e {
      case Enter(async) =>
        AgentMore(es, s.reader);
        AgentMore(es, s.disconnecter);
        EnterHist(es, s, async);
        forall h | 0 <= h < |s.calls| ensures ToldHist(es, h, s.calls[h]) && MovesHist(es, h, s.calls[h]) {
          ToldMore(es, h, s.calls[h]);
          MovesMore(es, h, s.calls[h], s.calls[h]);
        }
      case Caller(g, m) =>
        AgentMore(es, s.reader);
        AgentMore(es, s.disconnecter);
        CallerMoves(es, s, g, m);
        CallerTold(es, s, g, m);
        forall h | 0 <= h < |s.calls| && h != g ensures ToldHist(es, h, s.calls[h]) && MovesHist(es, h, s.calls[h]) {
          ToldMore(es, h, s.calls[h]);
          MovesMore(es, h, s.calls[h], s.calls[h]);
        }
      case Acts(who, m) =>
        ActsHist(es, s, who, m);
        OtherAgent(es, s, who, m, if who.TheReader? then TheDisconnecter else TheReader);
        ActKeepsCount(s, who, m);
        forall h | 0 <= h < |s.calls| ensures ToldHist(es, h, Act(s, who, m).calls[h]) && MovesHist(es, h, Act(s, who, m).calls[h]) {
          ActsCall(es, s, who, m, h);
        }
    }
  }

  // ----- What a caller is told, and why -----

  /** A synchronous call that has returned: with a timeout exactly when its wait ended before it was
      complete, with a failed send exactly when its send failed, refused exactly when it began while not
      connected; and else, after its wait, with what completed it: an answer received for its id, or the
      disconnection that found it waiting. */
  lemma SynchronousReturn(es: seq<Event>, h: nat)
    requires h < |Run(es).calls| && Run(es).calls[h].at == Returned && !Run(es).calls[h].async
    ensures var o := Run(es).calls[h].returned;
      && (o == Failed(TimedOut) <==> Happened(es, Caller(h, GiveUp)))
      && (o == Failed(SendFailed) <==> Happened(es, Caller(h, Send(false))))
      && (o == Failed(NotConnected) ==> TurnedAway(es, h))
      && (o == Failed(Disconnected) ==> Happened(es, Caller(h, Wake)) && SweptUp(es, h))
      && (o.Answer? ==> Happened(es, Caller(h, Wake)) && Answered(es, h, o.response))
    ensures Happened(es, Caller(h, Wake)) ==> Run(es).calls[h].done && Run(es).calls[h].returned == Run(es).calls[h].result
  {
    RunHist(es);
    RunInv(es);
    var c := Run(es).calls[h];
    assert ToldHist(es, h, c) && MovesHist(es, h, c) && CallInv(Run(es), h);
    hide Run, Happened, Answered, SweptUp, TurnedAway;
    assert Known(c) || Refused(c);
  }

  /** A wait only ends early while the call is not complete. */
  lemma GivesUpIncomplete(es: seq<Event>, k: nat, h: nat)
    requires Fired(es, k, Caller(h, GiveUp))
    ensures h < |Run(es[..k]).calls| && Run(es[..k]).calls[h].at == Waiting && !Run(es[..k]).calls[h].done
  {
    hide Run;
  }

  /** Every callback posted for an asynchronous call is told an answer received for its id, a disconnection
      that found it in the table, its own failed send, or that it began while not connected. */
  lemma AsynchronousReturn(es: seq<Event>, h: nat, o: Outcome)
    requires h < |Run(es).calls| && o in Run(es).calls[h].posted
    ensures match o
      case Answer(r) => Answered(es, h, r)
      case Failed(Disconnected) => SweptUp(es, h)
      case Failed(SendFailed) => Happened(es, Caller(h, Send(false)))
      case Failed(NotConnected) => TurnedAway(es, h)
      case Failed(TimedOut) => false
  {
    RunHist(es);
    var c := Run(es).calls[h];
    assert ToldHist(es, h, c);
    hide Run, Happened, Answered, SweptUp, TurnedAway;
  }

  // ----- A response received is what the call returns -----

  lemma RunMore(es: seq<Event>, e: Event)
    requires Enabled(Run(es), e)
    ensures Run(es + [e]) == Step(Run(es), e)
  {
    assert (es + [e])[..|es|] == es && (es + [e])[|es|] == e;
  }

  /** A response to a call that waits for it: the reader hands it on, and the call returns it. */
  lemma ResponseReturned(es: seq<Event>, r: Response, h: nat)
    requires Enabled(Run(es), Acts(TheReader, Receive(r))) && Holds(Run(es), r.id, h)
    requires h < |Run(es).calls| && Run(es).calls[h].at == Waiting
    ensures var s := Run(es + [Acts(TheReader, Receive(r))] + [Acts(TheReader, Work)] + [Caller(h, Wake)]);
      h < |s.calls| && s.calls[h].at == Returned && s.calls[h].returned == Answer(r)
  {
    var s := Run(es);
    RunInv(es);
    assert CallInv(s, h);
    ResponseCompletes(es, r);
    hide Run, Inv, CallInv;
    RunMore(es, Acts(TheReader, Receive(r)));
    var s1 := Run(es + [Acts(TheReader, Receive(r))]);
    RunMore(es + [Acts(TheReader, Receive(r))], Acts(TheReader, Work));
    RunMore(es + [Acts(TheReader, Receive(r))] + [Acts(TheReader, Work)], Caller(h, Wake));
  }

  /** And to an asynchronous one: its callback is posted with it. */
  lemma ResponsePosted(es: seq<Event>, r: Response, h: nat)
    requires Enabled(Run(es), Acts(TheReader, Receive(r))) && Holds(Run(es), r.id, h)
    requires h < |Run(es).calls| && Run(es).calls[h].async
    ensures var s := Run(es + [Acts(TheReader, Receive(r))] + [Acts(TheReader, Work)] + [Acts(TheReader, Work)]);
      h < |s.calls| && s.calls[h].posted == [Answer(r)]
  {
    var s := Run(es);
    RunInv(es);
    assert CallInv(s, h);
    CompletedIsNotPending(es, r.id);
    ResponseCompletes(es, r);
    AtMostOnce(es, h);
    hide Run, Inv, CallInv;
    RunMore(es, Acts(TheReader, Receive(r)));
    RunMore(es + [Acts(TheReader, Receive(r))], Acts(TheReader, Work));
    RunMore(es + [Acts(TheReader, Receive(r))] + [Acts(TheReader, Work)], Acts(TheReader, Work));
  }
}
