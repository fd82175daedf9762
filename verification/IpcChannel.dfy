/** The IPC client's pending calls: caller threads, the reader thread and a disconnecting
    thread, interleaved at every lock section, atomic access and socket call.

    A call is known by its handle, its position in `calls`: the shared PendingCall object.
    The pending table maps a request id to a handle. */
module IpcChannel {

  datatype Reason = NotConnected | SendFailed | TimedOut | Disconnected

  /** A response from the server: its id, and which of the messages received it was. */
  datatype Response = Response(id: int, body: nat)

  datatype Outcome = Answer(response: Response) | Failed(reason: Reason)

  /** CompletePending in progress: about to lock the call, or done and about to post its callback. */
  datatype Job = Nothing | Complete(outcome: Outcome) | Post(outcome: Outcome)

  /** Where a calling thread stands. */
  datatype At =
    | Entered     // saw connected_, has no id yet
    | Numbered    // has its id
    | Inserted    // is in the pending table, about to send
    | SendBroken  // could not send, about to leave the table
    | Finishing   // completes its own failed asynchronous call
    | Waiting     // a synchronous call waits for `done`
    | GivenUp     // the wait timed out, about to leave the table
    | Returned

  /** One Call or CallAsync.  `async` calls were given a callback, held until it is moved out. */
  datatype Call = Call(
    async: bool, at: At, id: int, done: bool, callback: bool, result: Outcome,
    job: Job, posted: seq<Outcome>, returned: Outcome)

  /** Progress of a thread that fails pending calls. */
  datatype Phase =
    | Idle      // disconnecter: not disconnecting
    | Running   // reader: in its loop
    | Flagged   // disconnecter: cleared connected_
    | Shut      // disconnecter: closed the socket, now joins the reader
    | Leaving   // reader: out of its loop.  disconnecter: joined the reader
    | Sweeping  // took the whole pending table, completes the calls in it
    | Ended

  /** The reader or the disconnecter, with the calls it still has to fail and its CompletePending. */
  datatype Agent = Agent(phase: Phase, rest: set<nat>, job: Job, target: nat)

  datatype State = State(
    connected: bool, open: bool, nextId: int, pending: map<int, nat>, calls: seq<Call>,
    reader: Agent, disconnecter: Agent, received: set<Response>, swept: bool)

  datatype Who = TheReader | TheDisconnecter

  datatype CallerMove = Number | Insert | Send(ok: bool) | Erase | Wake | GiveUp | Return | WorkOwn

  datatype AgentMove =
    | Receive(response: Response) | LoseConnection | LeaveLoop
    | ClearConnected | Shutdown | Join
    | Sweep | Pick(call: nat) | Work | End

  datatype Event = Enter(async: bool) | Caller(call: nat, move: CallerMove) | Acts(who: Who, action: AgentMove)

  /** After a successful Connect. */
  const INITIAL := State(true, true, 1, map[], [], Agent(Running, {}, Nothing, 0), Agent(Idle, {}, Nothing, 0), {}, false)

  // ----- CompletePending -----

  /** One half of CompletePending: the locked test and set of `done`, or the dispatch of the callback. */
  function Worked(c: Call, job: Job): Call {
    if job.Post? then c.(posted := c.posted + [job.outcome])
    else if job.Nothing? || c.done then c
    else if c.callback then c.(done := true, callback := false)
    else c.(done := true, result := job.outcome)
  }

  function JobLeft(c: Call, job: Job): Job {
    if job.Complete? && !c.done && c.callback then Post(job.outcome) else Nothing
  }

  // ----- Callers -----

  /** A new call tests connected_; when it is clear, an asynchronous one is told through its callback. */
  function NewCall(connected: bool, async: bool): Call {
    if connected then Call(async, Entered, 0, false, async, Failed(TimedOut), Nothing, [], Failed(TimedOut))
    else Call(async, Returned, 0, false, false, Failed(TimedOut), Nothing,
              if async then [Failed(NotConnected)] else [], Failed(NotConnected))
  }

  predicate CanMove(c: Call, m: CallerMove, open: bool) {
    match m
    case Number => c.at == Entered
    case Insert => c.at == Numbered
    case Send(ok) => c.at == Inserted && (ok ==> open)
    case Erase => c.at == SendBroken || c.at == GivenUp
    case Wake => c.at == Waiting && c.done
    case GiveUp => c.at == Waiting && !c.done
    case WorkOwn => c.at == Finishing && c.job != Nothing
    case Return => c.at == Finishing && c.job == Nothing
  }

  function Moved(c: Call, m: CallerMove, nextId: int): Call {
    match m
    case Number => c.(at := Numbered, id := nextId)
    case Insert => c.(at := Inserted)
    case Send(ok) => c.(at := if !ok then SendBroken else if c.async then Returned else Waiting)
    case Erase =>
      if c.at == GivenUp then c.(at := Returned, returned := Failed(TimedOut))
      else if c.async then c.(at := Finishing, job := Complete(Failed(SendFailed)))
      else c.(at := Returned, returned := Failed(SendFailed))
    case Wake => c.(at := Returned, returned := c.result)
    case GiveUp => c.(at := GivenUp)
    case WorkOwn => Worked(c, c.job).(job := JobLeft(c, c.job))
    case Return => c.(at := Returned)
  }

  /** What a caller's move does to the pending table. */
  function TableAfter(pending: map<int, nat>, m: CallerMove, id: int, h: nat): map<int, nat> {
    if m.Insert? then pending[id := h] else if m.Erase? then pending - {id} else pending
  }

  function MoveCaller(s: State, h: nat, m: CallerMove): State
    requires h < |s.calls|
  {
    s.(calls := s.calls[h := Moved(s.calls[h], m, s.nextId)],
       nextId := if m.Number? then s.nextId + 1 else s.nextId,
       pending := TableAfter(s.pending, m, s.calls[h].id, h))
  }

  // ----- Reader and disconnecter -----

  function AgentOf(s: State, who: Who): Agent {
    if who.TheReader? then s.reader else s.disconnecter
  }

  function WithAgent(s: State, who: Who, a: Agent): State {
    if who.TheReader? then s.(reader := a) else s.(disconnecter := a)
  }

  predicate CanAct(s: State, who: Who, m: AgentMove) {
    var a := AgentOf(s, who);
    match m
    case Receive(r) => who.TheReader? && a.phase == Running && a.job == Nothing
    case LoseConnection => who.TheReader? && a.phase == Running && a.job == Nothing
    case LeaveLoop => who.TheReader? && a.phase == Running && a.job == Nothing && !(s.connected && s.open)
    case ClearConnected => who.TheDisconnecter? && (a.phase == Idle || a.phase == Ended)
    case Shutdown => who.TheDisconnecter? && a.phase == Flagged
    case Join => who.TheDisconnecter? && a.phase == Shut && s.reader.phase == Ended
    case Sweep => a.phase == Leaving
    case Pick(h) => a.phase == Sweeping && a.job == Nothing && h in a.rest
    case Work => a.job != Nothing && a.target < |s.calls|
    case End => a.phase == Sweeping && a.job == Nothing && a.rest == {}
  }

  function Act(s: State, who: Who, m: AgentMove): State
    requires CanAct(s, who, m)
  {
    var a := AgentOf(s, who);
    match m
    case Receive(r) => HandleResponse(s, r)
    case LoseConnection => s.(connected := false, reader := a.(phase := Leaving))
    case LeaveLoop => s.(reader := a.(phase := Leaving))
    case ClearConnected => s.(connected := false, disconnecter := a.(phase := Flagged))
    case Shutdown => s.(open := false, disconnecter := a.(phase := Shut))
    case Join => s.(disconnecter := a.(phase := Leaving))
    case Sweep => TakeTable(s, who)
    case Pick(h) => WithAgent(s, who, a.(rest := a.rest - {h}, job := Complete(Failed(Disconnected)), target := h))
    case Work =>
      var c := s.calls[a.target];
      WithAgent(s, who, a.(job := JobLeft(c, a.job))).(calls := s.calls[a.target := Worked(c, a.job)])
    case End => WithAgent(s, who, a.(phase := Ended))
  }

  /** HandleMessage: find the call with the response's id, take it out of the table. */
  function HandleResponse(s: State, r: Response): State {
    if r.id in s.pending then
      s.(received := s.received + {r}, pending := s.pending - {r.id},
         reader := s.reader.(job := Complete(Answer(r)), target := s.pending[r.id]))
    else s.(received := s.received + {r})
  }

  /** The locked part of FailPendingCalls: copy the table and clear it. */
  function TakeTable(s: State, who: Who): State {
    WithAgent(s, who, AgentOf(s, who).(phase := Sweeping, rest := s.pending.Values))
    .(pending := map[], swept := s.swept || who.TheDisconnecter?)
  }

  // ----- Runs -----

  predicate Enabled(s: State, e: Event) {
    match e
    case Enter(async) => true
    case Caller(h, m) => h < |s.calls| && CanMove(s.calls[h], m, s.open)
    case Acts(who, m) => CanAct(s, who, m)
  }

  function Step(s: State, e: Event): State
    requires Enabled(s, e)
  {
    match e
    case Enter(async) => s.(calls := s.calls + [NewCall(s.connected, async)])
    case Caller(h, m) => MoveCaller(s, h, m)
    case Acts(who, m) => Act(s, who, m)
  }

  /** Any interleaving: a step that is not enabled does not happen. */
  function Run(es: seq<Event>): State
    decreases |es|
  {
    if |es| == 0 then INITIAL
    else
      var s := Run(es[..|es| - 1]);
      var e := es[|es| - 1];
      if Enabled(s, e) then Step(s, e) else s
  }

  // ----- The invariant -----

  predicate Known(c: Call) {
    c.id != 0
  }

  /** Turned away because the client was not connected. */
  predicate Refused(c: Call) {
    c.at == Returned && !Known(c)
  }

  /** Ids are handed out once, from 1 up. */
  ghost predicate IdsInv(s: State) {
    && 1 <= s.nextId
    && (forall h :: 0 <= h < |s.calls| ==> 0 <= s.calls[h].id < s.nextId)
    && (forall g, h :: 0 <= g < |s.calls| && 0 <= h < |s.calls| && s.calls[g].id == s.calls[h].id ==>
         g == h || !Known(s.calls[g]))
  }

  /** A call's own fields. */
  predicate CallShape(c: Call) {
    && (c.callback == (c.async && !c.done && !Refused(c)))
    && (c.at == Entered ==> !Known(c))
    && (c.at != Entered && c.at != Returned ==> Known(c))
    && (c.at == Entered || c.at == Numbered || Refused(c) ==> !c.done)
    && (c.at == Waiting || c.at == GivenUp ==> !c.async)
    && (c.at == Finishing ==> c.async && (!c.done ==> c.job.Complete?))
    && (c.at != Finishing ==> c.job == Nothing)
    && (c.at == Returned && !c.async && Known(c) ==>
         c.returned == Failed(TimedOut) || c.returned == Failed(SendFailed) || (c.done && c.returned == c.result))
  }

  /** The table holds calls under their own id, and none of them is complete.
      Once the disconnecter has swept it, only calls that were not sent are in it. */
  predicate Tabled(c: Call, id: int, swept: bool) {
    && c.id == id && Known(c) && !c.done
    && (c.at == Inserted || c.at == SendBroken
        || (!swept && (c.at == Waiting || c.at == GivenUp || (c.at == Returned && c.async))))
  }

  ghost predicate TableInv(s: State) {
    forall id :: id in s.pending ==> s.pending[id] < |s.calls| && Tabled(s.calls[s.pending[id]], id, s.swept)
  }

  /** Call h was inserted once, and is out of the table for good. */
  predicate Taken(s: State, h: nat) {
    && h < |s.calls| && Known(s.calls[h]) && s.calls[h].id !in s.pending
    && s.calls[h].at != Numbered
  }

  /** Calls an agent works on have left the table. */
  ghost predicate AgentInv(s: State, a: Agent) {
    && (forall h :: h in a.rest ==> Taken(s, h))
    && (a.job != Nothing ==> Taken(s, a.target) && Rightful(s, s.calls[a.target], a.job.outcome))
    && (a.phase != Sweeping ==> a.rest == {})
    && (a.phase != Sweeping && a.phase != Running ==> a.job == Nothing)
  }

  /** An outcome a call may be given: a failure, or a response that carries its id. */
  predicate Rightful(s: State, c: Call, o: Outcome) {
    o.Answer? ==> Known(c) && o.response.id == c.id && o.response in s.received
  }

  ghost predicate Outcomes(s: State, c: Call) {
    && Rightful(s, c, c.result) && Rightful(s, c, c.returned)
    && (c.job != Nothing ==> Rightful(s, c, c.job.outcome))
    && (forall i :: 0 <= i < |c.posted| ==> Rightful(s, c, c.posted[i]))
  }

  /** An agent is to complete call h. */
  predicate Owes(a: Agent, h: nat) {
    h in a.rest || (a.job.Complete? && a.target == h)
  }

  function PostsOf(a: Agent, h: nat): nat {
    if a.job.Post? && a.target == h then 1 else 0
  }

  function OwnPosts(c: Call): nat {
    |c.posted| + if c.job.Post? then 1 else 0
  }

  /** How many callbacks a call is entitled to by now. */
  function Due(c: Call): nat {
    if c.async && (c.done || Refused(c)) then 1 else 0
  }

  /** A sent call that is not complete is somebody's to complete. */
  predicate Uncared(c: Call) {
    && Known(c) && !c.done
    && (c.at == Inserted || c.at == SendBroken || c.at == Waiting || c.at == GivenUp || (c.at == Returned && c.async))
  }

  ghost predicate CallInv(s: State, h: nat)
    requires h < |s.calls|
  {
    var c := s.calls[h];
    && CallShape(c)
    && (c.at == Finishing ==> c.id !in s.pending)
    && OwnPosts(c) + PostsOf(s.reader, h) + PostsOf(s.disconnecter, h) == Due(c)
    && (Uncared(c) ==> c.id in s.pending || Owes(s.reader, h) || Owes(s.disconnecter, h))
    && Outcomes(s, c)
  }

  /** How far each thread is, and what that says about the flags. */
  predicate PhaseInv(s: State) {
    && s.reader.phase in {Running, Leaving, Sweeping, Ended}
    && s.disconnecter.phase != Running
    && (s.disconnecter.phase in {Leaving, Sweeping} ==> s.reader.phase == Ended)
    && (s.disconnecter.phase in {Shut, Leaving, Sweeping, Ended} ==> !s.open)
    && (s.disconnecter.phase in {Sweeping, Ended} ==> s.swept)
    && (s.disconnecter.phase != Idle || !s.open ==> !s.connected)
    && (s.swept ==> s.reader.phase == Ended && !s.open)
  }

  ghost predicate CallsInv(s: State) {
    forall h :: 0 <= h < |s.calls| ==> CallInv(s, h)
  }

  ghost predicate Inv(s: State) {
    IdsInv(s) && TableInv(s) && AgentInv(s, s.reader) && AgentInv(s, s.disconnecter) && CallsInv(s) && PhaseInv(s)
  }

  // ----- The invariant is kept: callers -----

  lemma MovedShape(c: Call, m: CallerMove, n: int, open: bool)
    requires CallShape(c) && CanMove(c, m, open) && n != 0
    ensures CallShape(Moved(c, m, n))
    ensures OwnPosts(Moved(c, m, n)) + Due(c) == OwnPosts(c) + Due(Moved(c, m, n))
    ensures Uncared(Moved(c, m, n)) ==> m.Insert? || Uncared(c)
    ensures Moved(c, m, n).id == if m.Number? then n else c.id
  {
  }

  lemma MovedOutcomes(s: State, h: nat, m: CallerMove)
    requires h < |s.calls| && Outcomes(s, s.calls[h]) && CallShape(s.calls[h]) && CanMove(s.calls[h], m, s.open)
    ensures Outcomes(MoveCaller(s, h, m), MoveCaller(s, h, m).calls[h])
  {
  }

  lemma MoveKeepsCall(s: State, g: nat, m: CallerMove, h: nat)
    requires IdsInv(s) && TableInv(s) && CallsInv(s)
    requires g < |s.calls| && CanMove(s.calls[g], m, s.open) && h < |s.calls|
    ensures CallInv(MoveCaller(s, g, m), h)
  {
    assert CallInv(s, h) && CallInv(s, g);
    MovedShape(s.calls[g], m, s.nextId, s.open);
    MovedOutcomes(s, g, m);
  }

  lemma MoveKeepsIds(s: State, g: nat, m: CallerMove)
    requires IdsInv(s) && g < |s.calls| && CanMove(s.calls[g], m, s.open)
    ensures IdsInv(MoveCaller(s, g, m))
  {
    assert Moved(s.calls[g], m, s.nextId).id == if m.Number? then s.nextId else s.calls[g].id;
    hide Moved, CanMove, TableAfter;
  }

  lemma MoveKeepsTable(s: State, g: nat, m: CallerMove)
    requires IdsInv(s) && TableInv(s) && CallsInv(s) && (s.swept ==> !s.open)
    requires g < |s.calls| && CanMove(s.calls[g], m, s.open)
    ensures TableInv(MoveCaller(s, g, m))
  {
    assert CallInv(s, g);
    hide CallInv;
    MovedTabled(s.calls[g], m, s.nextId, s.open, s.swept);
    hide Moved, CanMove, Tabled, CallShape;
  }

  lemma MovedTabled(c: Call, m: CallerMove, n: int, open: bool, swept: bool)
    requires CallShape(c) && CanMove(c, m, open) && (swept ==> !open)
    ensures m.Insert? ==> Tabled(Moved(c, m, n), c.id, swept)
    ensures !m.Erase? && Tabled(c, c.id, swept) ==> Tabled(Moved(c, m, n), c.id, swept)
  {
  }

  lemma MoveKeepsTaken(s: State, g: nat, m: CallerMove, h: nat)
    requires IdsInv(s) && g < |s.calls| && CanMove(s.calls[g], m, s.open)
    requires Taken(s, h) && CallShape(s.calls[h])
    ensures Taken(MoveCaller(s, g, m), h)
    ensures forall o :: Rightful(s, s.calls[h], o) ==> Rightful(MoveCaller(s, g, m), MoveCaller(s, g, m).calls[h], o)
  {
  }

  lemma MoveKeepsAgent(s: State, g: nat, m: CallerMove, a: Agent)
    requires IdsInv(s) && CallsInv(s) && AgentInv(s, a) && g < |s.calls| && CanMove(s.calls[g], m, s.open)
    ensures AgentInv(MoveCaller(s, g, m), a)
  {
    hide Taken, Rightful, MoveCaller, CanMove, CallShape;
    forall h | h in a.rest ensures Taken(MoveCaller(s, g, m), h) {
      assert Taken(s, h);
      assert CallInv(s, h) by { InTable(s, h); }
      MoveKeepsTaken(s, g, m, h);
    }
    if a.job != Nothing {
      assert CallInv(s, a.target) by { InTable(s, a.target); }
      MoveKeepsTaken(s, g, m, a.target);
    }
  }

  lemma InTable(s: State, h: nat)
    requires Taken(s, h) && CallsInv(s)
    ensures h < |s.calls| && CallInv(s, h)
  {
    hide CallInv;
  }

  // ----- The invariant is kept: a new call -----

  lemma EnterKeepsCall(s: State, async: bool, h: nat)
    requires Inv(s) && h < |Step(s, Enter(async)).calls|
    ensures CallInv(Step(s, Enter(async)), h)
  {
    var c := NewCall(s.connected, async);
    assert h == |s.calls| ==> Step(s, Enter(async)).calls[h] == c;
    if h < |s.calls| { assert CallInv(s, h); }
    hide IdsInv, TableInv, PhaseInv, CallsInv;
  }

  lemma EnterKeepsRest(s: State, async: bool)
    requires Inv(s)
    ensures var s' := Step(s, Enter(async));
      IdsInv(s') && TableInv(s') && AgentInv(s', s'.reader) && AgentInv(s', s'.disconnecter) && PhaseInv(s')
  {
    hide CallInv, Tabled;
  }

  // ----- The invariant is kept: reader and disconnecter -----

  lemma ActKeepsIds(s: State, who: Who, m: AgentMove)
    requires IdsInv(s) && CanAct(s, who, m)
    ensures IdsInv(Act(s, who, m))
  {
  }

  lemma ActKeepsTable(s: State, who: Who, m: AgentMove)
    requires Inv(s) && CanAct(s, who, m)
    ensures TableInv(Act(s, who, m))
  {
  }

  lemma ActKeepsPhases(s: State, who: Who, m: AgentMove)
    requires PhaseInv(s) && CanAct(s, who, m)
    ensures PhaseInv(Act(s, who, m))
  {
  }

  lemma ActKeepsTaken(s: State, who: Who, m: AgentMove, h: nat)
    requires CanAct(s, who, m) && Taken(s, h)
    ensures Taken(Act(s, who, m), h)
    ensures forall o :: Rightful(s, s.calls[h], o) ==> Rightful(Act(s, who, m), Act(s, who, m).calls[h], o)
  {
  }

  /** The calls in the table, once out of it. */
  lemma TabledThenTaken(s: State, id: int)
    requires TableInv(s) && id in s.pending
    ensures s.pending[id] < |s.calls| && s.calls[s.pending[id]].id == id && id != 0
    ensures s.calls[s.pending[id]].at != Numbered
  {
    assert Tabled(s.calls[s.pending[id]], id, s.swept);
  }

  lemma ActKeepsAgent(s: State, who: Who, m: AgentMove, other: Who)
    requires Inv(s) && CanAct(s, who, m)
    ensures AgentInv(Act(s, who, m), AgentOf(Act(s, who, m), other))
  {
    var a, s' := AgentOf(s, other), Act(s, who, m);
    assert AgentInv(s, a);
    forall h | h in a.rest ensures Taken(s', h) {
      assert Taken(s, h);
      ActKeepsTaken(s, who, m, h);
    }
    if a.job != Nothing { ActKeepsTaken(s, who, m, a.target); }
    hide IdsInv, CallInv, PhaseInv;
    if other == who {
      if m.Receive? && m.response.id in s.pending {
        TabledThenTaken(s, m.response.id);
      } else if m.Sweep? {
        forall h | h in AgentOf(s', who).rest ensures Taken(s', h) {
          assert (forall id :: id in s.pending ==> s.pending[id] != h) ==> h !in s.pending.Values;
          var id :| id in s.pending && s.pending[id] == h;
          TabledThenTaken(s, id);
        }
      }
    }
  }

  lemma WorkedCall(c: Call, job: Job)
    requires CallShape(c) && Known(c) && c.at != Numbered
    ensures CallShape(Worked(c, job)) && Worked(c, job).id == c.id
    ensures OwnPosts(Worked(c, job)) + (if JobLeft(c, job).Post? then 1 else 0) + Due(c) == OwnPosts(c) + (if job.Post? then 1 else 0) + Due(Worked(c, job))
    ensures Uncared(Worked(c, job)) ==> Uncared(c) && !job.Complete?
  {
  }

  lemma WorkedOutcome(s: State, c: Call, job: Job)
    requires Outcomes(s, c)
    ensures job != Nothing && Rightful(s, c, job.outcome) ==> Outcomes(s, Worked(c, job))
  {
  }

  lemma WorkedOutcomes(s: State, who: Who, h: nat)
    requires CanAct(s, who, Work) && h < |s.calls| && Outcomes(s, s.calls[h])
    requires AgentOf(s, who).target == h ==> Rightful(s, s.calls[h], AgentOf(s, who).job.outcome)
    ensures Outcomes(Act(s, who, Work), Act(s, who, Work).calls[h])
  {
    WorkedOutcome(s, s.calls[h], AgentOf(s, who).job);
    hide Worked, JobLeft, Rightful;
  }

  lemma WorkKeepsCall(s: State, who: Who, h: nat)
    requires CanAct(s, who, Work) && h < |s.calls| && CallInv(s, h)
    requires AgentOf(s, who).target == h ==> Taken(s, h) && Rightful(s, s.calls[h], AgentOf(s, who).job.outcome)
    ensures CallInv(Act(s, who, Work), h)
  {
    WorkedOutcomes(s, who, h);
    if AgentOf(s, who).target == h { WorkedCall(s.calls[h], AgentOf(s, who).job); }
    hide Outcomes, CallShape, Worked, JobLeft, Uncared, OwnPosts, Due;
  }

  lemma ActKeepsCall(s: State, who: Who, m: AgentMove, h: nat)
    requires Inv(s) && CanAct(s, who, m) && h < |s.calls| && !m.Work?
    ensures CallInv(Act(s, who, m), h)
  {
    assert CallInv(s, h);
    hide CallShape, Due, OwnPosts, IdsInv;
  }
  // ----- Runs -----

  lemma StepKeeps(s: State, e: Event)
    requires Inv(s) && Enabled(s, e)
    ensures Inv(Step(s, e))
  {
    hide IdsInv, TableInv, AgentInv, CallInv, PhaseInv, CanMove, CanAct, Act, MoveCaller;
    match e {
      case Enter(async) =>
        EnterKeepsRest(s, async);
        forall h | 0 <= h < |Step(s, e).calls| ensures CallInv(Step(s, e), h) { EnterKeepsCall(s, async, h); }
      case Caller(g, m) =>
        MoveKeeps(s, g, m);
      case Acts(who, m) =>
        ActKeeps(s, who, m);
    }
  }

  lemma MoveKeeps(s: State, g: nat, m: CallerMove)
    requires Inv(s) && g < |s.calls| && CanMove(s.calls[g], m, s.open)
    ensures Inv(MoveCaller(s, g, m))
  {
    MoveKeepsIds(s, g, m);
    MoveKeepsTable(s, g, m);
    MoveKeepsAgent(s, g, m, s.reader);
    MoveKeepsAgent(s, g, m, s.disconnecter);
    forall h | 0 <= h < |s.calls| ensures CallInv(MoveCaller(s, g, m), h) { MoveKeepsCall(s, g, m, h); }
    hide IdsInv, TableInv, AgentInv, CallInv, CanMove;
  }

  lemma ActKeeps(s: State, who: Who, m: AgentMove)
    requires Inv(s) && CanAct(s, who, m)
    ensures Inv(Act(s, who, m))
  {
    ActKeepsIds(s, who, m);
    ActKeepsTable(s, who, m);
    ActKeepsPhases(s, who, m);
    ActKeepsAgent(s, who, m, TheReader);
    ActKeepsAgent(s, who, m, TheDisconnecter);
    ActKeepsCount(s, who, m);
    assert AgentInv(s, AgentOf(s, who));
    hide IdsInv, TableInv, CallInv, PhaseInv, CanAct, Act;
    forall h | 0 <= h < |s.calls| ensures CallInv(Act(s, who, m), h) {
      assert CallInv(s, h);
      if m.Work? { WorkTarget(s, who); WorkKeepsCall(s, who, h); } else { ActKeepsCall(s, who, m, h); }
    }
  }

  lemma ActKeepsCount(s: State, who: Who, m: AgentMove)
    requires CanAct(s, who, m)
    ensures |Act(s, who, m).calls| == |s.calls|
  {
  }

  lemma WorkTarget(s: State, who: Who)
    requires AgentInv(s, AgentOf(s, who)) && CanAct(s, who, Work)
    ensures Taken(s, AgentOf(s, who).target)
    ensures Rightful(s, s.calls[AgentOf(s, who).target], AgentOf(s, who).job.outcome)
  {
  }

  /** Every state of every interleaving. */
  lemma {:induction false} RunInv(es: seq<Event>)
    ensures Inv(Run(es))
    decreases |es|
  {
    if |es| > 0 {
      var s, e := Run(es[..|es| - 1]), es[|es| - 1];
      RunInv(es[..|es| - 1]);
      hide Inv, Step, Enabled;
      if Enabled(s, e) { StepKeeps(s, e); }
    }
  }

  // ----- What callers and callbacks can rely on -----

  /** A callback is posted at most once, and only for a call that completed or was refused. */
  lemma AtMostOnce(es: seq<Event>, h: nat)
    requires h < |Run(es).calls|
    ensures var c := Run(es).calls[h];
      && |c.posted| <= 1
      && (c.posted != [] ==> c.async && (c.done || Refused(c)))
  {
    RunInv(es);
    assert CallInv(Run(es), h);
    hide Run;
  }

  /** A completed call is not in the pending table. */
  lemma CompletedIsNotPending(es: seq<Event>, id: int)
    ensures var s := Run(es); id in s.pending ==> s.pending[id] < |s.calls| && !s.calls[s.pending[id]].done && s.calls[s.pending[id]].id == id
  {
    RunInv(es);
    hide Run, CallInv;
    assert id in Run(es).pending ==> Tabled(Run(es).calls[Run(es).pending[id]], id, Run(es).swept);
  }

  /** What a call is given, through its callback or as its return value, is a failure or a
      response that was received with this call's id: no other call can be given that response. */
  lemma AnswersAreOnesOwn(es: seq<Event>, h: nat, o: Outcome)
    requires h < |Run(es).calls| && o.Answer?
    requires o in Run(es).calls[h].posted || o == Run(es).calls[h].returned
    ensures var s := Run(es);
      && o.response in s.received && o.response.id == s.calls[h].id
      && forall g :: 0 <= g < |s.calls| && g != h ==> o !in s.calls[g].posted && o != s.calls[g].returned
  {
    var s := Run(es);
    RunInv(es);
    hide Run, CallShape, Due, OwnPosts, PostsOf, Owes, Uncared;
    assert CallInv(s, h);
    assert Rightful(s, s.calls[h], o);
    forall g | 0 <= g < |s.calls| && g != h ensures o !in s.calls[g].posted && o != s.calls[g].returned {
      assert CallInv(s, g);
    }
  }

  predicate Continues(c: Call, d: Call) {
    && (c.done ==> d.done && d.result == c.result)
    && c.posted <= d.posted
    && (c.at == Returned ==> d.at == Returned && d.returned == c.returned)
    && (Known(c) ==> d.id == c.id)
  }

  /** `done`, and the result that came with it, are for good; posted callbacks stay posted;
      a call that returned does not return again. */
  lemma CompletionIsFinal(s: State, e: Event, h: nat)
    requires Enabled(s, e) && h < |s.calls| && CallShape(s.calls[h])
    ensures Continues(s.calls[h], Step(s, e).calls[h])
  {
    hide CanMove, CanAct, Moved, Worked;
    match e {
      case Enter(async) =>
      case Caller(g, m) => if g == h { MovedContinues(s.calls[h], m, s.nextId, s.open); }
      case Acts(who, m) => ActContinues(s, who, m, h);
    }
  }

  lemma MovedContinues(c: Call, m: CallerMove, n: int, open: bool)
    requires CanMove(c, m, open) && CallShape(c)
    ensures Continues(c, Moved(c, m, n))
  {
  }

  lemma ActContinues(s: State, who: Who, m: AgentMove, h: nat)
    requires CanAct(s, who, m) && h < |s.calls|
    ensures Continues(s.calls[h], Act(s, who, m).calls[h])
  {
  }

  /** Disconnect leaves nobody waiting: a synchronous caller still in its wait has been completed. */
  lemma DisconnectWakes(es: seq<Event>, h: nat)
    requires Run(es).disconnecter.phase == Ended
    requires h < |Run(es).calls| && Run(es).calls[h].at == Waiting
    ensures Run(es).calls[h].done
  {
    var s := Run(es);
    RunInv(es);
    hide Run, Due, OwnPosts, PostsOf, Outcomes;
    assert CallInv(s, h);
    NothingLeft(s, h);
  }

  /** After the sweep a sent call is complete. */
  lemma NothingLeft(s: State, h: nat)
    requires Inv(s) && s.disconnecter.phase == Ended && h < |s.calls|
    ensures Uncared(s.calls[h]) ==> s.calls[h].at == Inserted || s.calls[h].at == SendBroken
  {
    hide Due, OwnPosts, PostsOf, Outcomes, CallShape;
    assert CallInv(s, h);
  }

  /** Once Disconnect has returned with no caller in the middle of a call, the table is empty and
      every asynchronous call's callback has been posted exactly once. */
  lemma DisconnectSettles(es: seq<Event>)
    requires var s := Run(es); s.disconnecter.phase == Ended && forall h :: 0 <= h < |s.calls| ==> s.calls[h].at == Returned
    ensures Run(es).pending == map[]
    ensures forall h :: 0 <= h < |Run(es).calls| ==> |Run(es).calls[h].posted| == if Run(es).calls[h].async then 1 else 0
  {
    var s := Run(es);
    RunInv(es);
    hide Run;
    forall h | 0 <= h < |s.calls| ensures |s.calls[h].posted| == if s.calls[h].async then 1 else 0 {
      assert CallInv(s, h);
      NothingLeft(s, h);
    }
    assert forall id :: id !in s.pending;
  }

  /** A response to a pending call is delivered: handling it completes exactly that call with it. */
  lemma ResponseCompletes(es: seq<Event>, r: Response)
    requires Enabled(Run(es), Acts(TheReader, Receive(r))) && r.id in Run(es).pending
    ensures var s1 := Step(Run(es), Acts(TheReader, Receive(r)));
      && Enabled(s1, Acts(TheReader, Work))
      && var s2 := Step(s1, Acts(TheReader, Work));
      && var h := Run(es).pending[r.id];
      && h < |Run(es).calls| && |s2.calls| == |Run(es).calls|
      && s2.calls[h].done && s2.calls[h].id == r.id && r.id !in s2.pending
      && (if s2.calls[h].async then s2.reader.job == Post(Answer(r)) && s2.reader.target == h else s2.calls[h].result == Answer(r))
      && forall g :: 0 <= g < |s2.calls| && g != h ==> s2.calls[g] == Run(es).calls[g]
  {
    var s := Run(es);
    RunInv(es);
    hide Run;
    var h := s.pending[r.id];
    assert Tabled(s.calls[h], r.id, s.swept);
    assert CallInv(s, h);
  }
}
