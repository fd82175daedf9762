/** The WebSocket client's receiving side: frames taken from whatever the transport delivers,
    fragments put together, control frames answered in between. */
module WebSocketStream {
  import opened Bytes
  import opened Options
  import opened Text
  import opened WebSocketFrame

  datatype Failure = MaskedFrame | PayloadTooLarge | UnexpectedData | UnexpectedContinuation | UnsupportedOpcode

  /** What the listener is told and what is sent back, in order. */
  datatype Event =
    | Message(data: Bytes, isText: bool)
    | PingSeen(data: Bytes)
    | PongSeen(data: Bytes)
    | CloseSeen(code: nat, reason: Bytes)
    | Failed(failure: Failure)
    | PongSent(data: Bytes)
    | CloseSent(code: nat, reason: Bytes)

  datatype Phase = Connected | Closing | Closed | Error

  const NO_STATUS_RCVD := 1005

  datatype Client = Client(
    buffer: Bytes, receiving: bool, fragmentedText: bool, fragments: Bytes,
    phase: Phase, closeSent: bool, log: seq<Event>)

  function Logged(c: Client, e: Event): Client {
    c.(log := c.log + [e])
  }

  function Fails(c: Client, f: Failure): Client {
    Logged(c.(phase := Error), Failed(f))
  }

  // ----- One frame -----

  /** A text or binary frame. */
  function HandleData(c: Client, f: Frame): Client {
    if c.receiving then Fails(c, UnexpectedData)
    else if f.fin then Logged(c, Message(f.payload, f.opcode == TEXT))
    else c.(receiving := true, fragmentedText := f.opcode == TEXT, fragments := f.payload)
  }

  function HandleContinuation(c: Client, f: Frame): Client {
    if !c.receiving then Fails(c, UnexpectedContinuation)
    else
      var all := c.fragments + f.payload;
      if f.fin then Logged(c.(receiving := false, fragments := []), Message(all, c.fragmentedText))
      else c.(fragments := all)
  }

  function CloseCode(payload: Bytes): nat {
    if |payload| >= 2 then FromBigEndian(payload[..2]) else NO_STATUS_RCVD
  }

  function CloseReason(payload: Bytes): Bytes {
    if |payload| > 2 then payload[2..] else []
  }

  /** A close frame is echoed unless one was sent already. */
  function HandleClose(c: Client, payload: Bytes): Client {
    var code, reason := CloseCode(payload), CloseReason(payload);
    var c1 := if !c.closeSent && c.phase == Connected
              then Logged(c.(closeSent := true, phase := Closing), CloseSent(code, reason)) else c;
    Logged(c1.(phase := Closed), CloseSeen(code, reason))
  }

  function HandlePing(c: Client, payload: Bytes): Client {
    Logged(if c.phase == Connected then Logged(c, PongSent(payload)) else c, PingSeen(payload))
  }

  /** HandleWebSocketFrame. */
  function Handle(c: Client, f: Frame): Client {
    if f.opcode == TEXT || f.opcode == BINARY then HandleData(c, f)
    else if f.opcode == CONTINUATION then HandleContinuation(c, f)
    else if f.opcode == CLOSE then HandleClose(c, f.payload)
    else if f.opcode == PING then HandlePing(c, f.payload)
    else if f.opcode == PONG then Logged(c, PongSeen(f.payload))
    else Fails(c, UnsupportedOpcode)
  }

  // ----- A read -----

  predicate Bad(f: Frame, max: nat) {
    f.masked || |f.payload| > max
  }

  /** ProcessWebSocketFrames: frame after frame, until more data is needed or a frame is refused.
      A refused frame stays in the buffer. */
  function Process(c: Client, max: nat): (r: Client)
    decreases |c.buffer|
  {
    match ParseFrame(c.buffer)
    case None => c
    case Some((f, n)) =>
      if Bad(f, max) then Fails(c, if f.masked then MaskedFrame else PayloadTooLarge)
      else
        FrameSize(c.buffer);
        HandleKeepsBuffer(c.(buffer := c.buffer[n..]), f);
        Process(Handle(c.(buffer := c.buffer[n..]), f), max)
  }

  lemma FrameSize(data: Bytes)
    requires ParseFrame(data).Some?
    ensures 2 <= ParseFrame(data).value.1 <= |data|
  {
  }

  lemma HandleKeepsBuffer(c: Client, f: Frame)
    ensures Handle(c, f).buffer == c.buffer
  {
  }

  /** OnDataReceived, after the handshake. */
  function OnData(c: Client, data: Bytes, max: nat): Client {
    Process(c.(buffer := c.buffer + data), max)
  }

  function OnReads(c: Client, chunks: seq<Bytes>, max: nat): Client
    decreases |chunks|
  {
    if |chunks| == 0 then c else OnReads(OnData(c, chunks[0], max), chunks[1..], max)
  }

  // ----- Cuts -----

  /** The frame at the front of the buffer has been refused. */
  predicate Stuck(buffer: Bytes, max: nat) {
    ParseFrame(buffer).Some? && Bad(ParseFrame(buffer).value.0, max)
  }

  lemma StuckStays(buffer: Bytes, more: Bytes, max: nat)
    requires Stuck(buffer, max)
    ensures Stuck(buffer + more, max)
  {
    hide ParseFrame;
    ParseStable(buffer, more);
  }

  /** Handling never looks at the buffer. */
  lemma HandleCommutes(c: Client, f: Frame, b: Bytes)
    ensures Handle(c.(buffer := b), f) == Handle(c, f).(buffer := b)
  {
  }

  lemma ProcessStep(c: Client, max: nat)
    requires ParseFrame(c.buffer).Some?
    ensures var (f, n) := ParseFrame(c.buffer).value;
      && n <= |c.buffer|
      && Process(c, max) == if Bad(f, max) then Fails(c, if f.masked then MaskedFrame else PayloadTooLarge)
                            else Process(Handle(c, f).(buffer := c.buffer[n..]), max)
  {
    hide ParseFrame, Handle;
    FrameSize(c.buffer);
    var (f, n) := ParseFrame(c.buffer).value;
    HandleCommutes(c, f, c.buffer[n..]);
  }

  /** After a read, more data does what it would have done had it come with that read; unless that
      read ended in a refusal, which is then repeated. */
  lemma {:induction false} ProcessSplit(c: Client, more: Bytes, max: nat)
    ensures var d := Process(c, max);
      if Stuck(d.buffer, max) then
        Process(c.(buffer := c.buffer + more), max) == d.(buffer := d.buffer + more)
      else Process(c.(buffer := c.buffer + more), max) == OnData(d, more, max)
    decreases |c.buffer|
  {
    hide ParseFrame, Handle;
    if ParseFrame(c.buffer).Some? {
      var (f, n) := ParseFrame(c.buffer).value;
      FrameSize(c.buffer);
      ParseStable(c.buffer, more);
      ProcessStep(c, max);
      var c1 := c.(buffer := c.buffer + more);
      ProcessStep(c1, max);
      assert (c.buffer + more)[n..] == c.buffer[n..] + more;
      HandleCommutes(c, f, c.buffer + more);
      if !Bad(f, max) {
        ProcessSplit(Handle(c, f).(buffer := c.buffer[n..]), more, max);
      }
    }
  }

  /** Two reads are as good as one exactly when the first is not refused: a refused frame is
      reported again on every later read. */
  lemma CutMatters(c: Client, first: Bytes, second: Bytes, max: nat)
    ensures var d := OnData(c, first, max);
      OnData(d, second, max) == OnData(c, first + second, max) <==> !Stuck(d.buffer, max)
  {
    hide ParseFrame, Handle;
    var d := OnData(c, first, max);
    assert c.buffer + (first + second) == c.buffer + first + second;
    ProcessSplit(c.(buffer := c.buffer + first), second, max);
    if Stuck(d.buffer, max) {
      StuckStays(d.buffer, second, max);
      assert |OnData(d, second, max).log| == |d.log| + 1;
    }
  }

  /** Some frame of the stream is refused. */
  predicate Refused(s: Bytes, max: nat)
    decreases |s|
  {
    match ParseFrame(s)
    case None => false
    case Some((f, n)) =>
      FrameSize(s);
      Bad(f, max) || Refused(s[n..], max)
  }

  lemma {:induction false} RefusedIsStuck(c: Client, max: nat)
    ensures Stuck(Process(c, max).buffer, max) <==> Refused(c.buffer, max)
    decreases |c.buffer|
  {
    hide ParseFrame, Handle;
    if ParseFrame(c.buffer).Some? {
      var (f, n) := ParseFrame(c.buffer).value;
      FrameSize(c.buffer);
      ProcessStep(c, max);
      if !Bad(f, max) { RefusedIsStuck(Handle(c, f).(buffer := c.buffer[n..]), max); }
    }
  }

  /** The client ends in the same state however a stream is cut exactly when no frame of it is refused. */
  lemma CutsDoNotMatter(c: Client, text: Bytes, max: nat)
    requires Process(c, max) == c
    ensures (forall chunks: seq<Bytes> | Concat(chunks) == text :: OnReads(c, chunks, max) == OnData(c, text, max))
            <==> !Refused(c.buffer + text, max)
  {
    hide Process, Refused, Stuck, Concat, OnReads;
    RefusedIsStuck(c.(buffer := c.buffer + text), max);
    if Refused(c.buffer + text, max) {
      ReadAndNothing(c, text, max);
      CutMatters(c, text, [], max);
      assert text + [] == text;
      assert OnReads(c, [text, []], max) != OnData(c, text, max);
    } else {
      forall chunks: seq<Bytes> | Concat(chunks) == text ensures OnReads(c, chunks, max) == OnData(c, text, max) {
        CutsAgree(c, chunks, max);
      }
    }
  }

  lemma ReadAndNothing(c: Client, text: Bytes, max: nat)
    ensures OnReads(c, [text, []], max) == OnData(OnData(c, text, max), [], max) && Concat([text, []]) == text
  {
    hide OnData;
    var d := OnData(c, text, max);
    var none: seq<Bytes> := [];
    assert [text, []][1..] == [[]] && [[]][1..] == none;
    assert OnReads(OnData(d, [], max), none, max) == OnData(d, [], max);
    assert Concat([[]]) == [] + Concat(none) == [];
  }

  lemma {:induction false} CutsAgree(c: Client, chunks: seq<Bytes>, max: nat)
    requires Process(c, max) == c
    requires !Stuck(OnData(c, Concat(chunks), max).buffer, max)
    ensures OnReads(c, chunks, max) == OnData(c, Concat(chunks), max)
    decreases |chunks|
  {
    hide ParseFrame, Handle;
    if |chunks| == 0 {
      assert c.buffer + [] == c.buffer;
    } else {
      var d, rest := OnData(c, chunks[0], max), Concat(chunks[1..]);
      CutMatters(c, chunks[0], rest, max);
      ProcessSplit(c.(buffer := c.buffer + chunks[0]), rest, max);
      assert c.buffer + Concat(chunks) == c.buffer + chunks[0] + rest;
      if Stuck(d.buffer, max) {
        StuckStays(d.buffer, rest, max);
        assert false;
      }
      Settled(c.(buffer := c.buffer + chunks[0]), max);
      CutsAgree(d, chunks[1..], max);
    }
  }

  /** What a read leaves has nothing more in it to process. */
  lemma {:induction false} Settled(c: Client, max: nat)
    requires !Stuck(Process(c, max).buffer, max)
    ensures Process(Process(c, max), max) == Process(c, max)
    decreases |c.buffer|
  {
    hide ParseFrame, Handle;
    if ParseFrame(c.buffer).Some? {
      var (f, n) := ParseFrame(c.buffer).value;
      FrameSize(c.buffer);
      ProcessStep(c, max);
      if !Bad(f, max) { Settled(Handle(c, f).(buffer := c.buffer[n..]), max); }
    }
  }

  // ----- Reassembly -----

  datatype Control = Ping(data: Bytes) | Pong(data: Bytes)

  /** A continuation fragment, and the control frames sent before it. */
  datatype Part = Part(before: seq<Control>, data: Bytes)

  /** What a server sends: messages, whole or in fragments, and control frames anywhere. */
  datatype Item = Say(isText: bool, first: Bytes, parts: seq<Part>) | Between(control: Control)

  function ControlFrame(c: Control): Bytes {
    match c
    case Ping(d) => Build(PING, d, true, None)
    case Pong(d) => Build(PONG, d, true, None)
  }

  function ControlFrames(cs: seq<Control>): Bytes
    decreases |cs|
  {
    if |cs| == 0 then [] else ControlFrame(cs[0]) + ControlFrames(cs[1..])
  }

  function PartFrames(ps: seq<Part>): Bytes
    decreases |ps|
  {
    if |ps| == 0 then []
    else ControlFrames(ps[0].before) + (Build(CONTINUATION, ps[0].data, |ps| == 1, None) + PartFrames(ps[1..]))
  }

  function ItemFrames(i: Item): Bytes {
    match i
    case Say(isText, first, parts) =>
      Build(if isText then TEXT else BINARY, first, |parts| == 0, None) + PartFrames(parts)
    case Between(c) => ControlFrame(c)
  }

  function Stream(items: seq<Item>): Bytes
    decreases |items|
  {
    if |items| == 0 then [] else ItemFrames(items[0]) + Stream(items[1..])
  }

  /** What should be heard. */
  function ControlHeard(c: Control): seq<Event> {
    match c
    case Ping(d) => [PongSent(d), PingSeen(d)]
    case Pong(d) => [PongSeen(d)]
  }

  function ControlsHeard(cs: seq<Control>): seq<Event>
    decreases |cs|
  {
    if |cs| == 0 then [] else ControlHeard(cs[0]) + ControlsHeard(cs[1..])
  }

  function PartsHeard(ps: seq<Part>): seq<Event>
    decreases |ps|
  {
    if |ps| == 0 then [] else ControlsHeard(ps[0].before) + PartsHeard(ps[1..])
  }

  function PartsData(ps: seq<Part>): Bytes
    decreases |ps|
  {
    if |ps| == 0 then [] else ps[0].data + PartsData(ps[1..])
  }

  /** The control frames as they come, then the one message, whole. */
  function ItemHeard(i: Item): seq<Event> {
    match i
    case Say(isText, first, parts) => PartsHeard(parts) + [Message(first + PartsData(parts), isText)]
    case Between(c) => ControlHeard(c)
  }

  function Heard(items: seq<Item>): seq<Event>
    decreases |items|
  {
    if |items| == 0 then [] else ItemHeard(items[0]) + Heard(items[1..])
  }

  /** Payloads within both limits. */
  predicate Fits(d: Bytes, max: nat) {
    |d| <= MAX_FRAME_SIZE && |d| <= max
  }

  predicate PartFits(p: Part, max: nat) {
    Fits(p.data, max) && forall i :: 0 <= i < |p.before| ==> Fits(p.before[i].data, max)
  }

  predicate ItemFits(i: Item, max: nat) {
    match i
    case Say(_, first, parts) => Fits(first, max) && forall k :: 0 <= k < |parts| ==> PartFits(parts[k], max)
    case Between(c) => Fits(c.data, max)
  }

  /** One legal frame at the front of the buffer. */
  lemma OneFrame(c: Client, opcode: bv8, d: Bytes, fin: bool, rest: Bytes, max: nat)
    requires opcode & 0xf0 == 0 && Fits(d, max)
    ensures Process(c.(buffer := Build(opcode, d, fin, None) + rest), max) ==
            Process(Handle(c, Frame(fin, opcode, false, d)).(buffer := rest), max)
  {
    hide ParseFrame, Handle, Build;
    var b, f := Build(opcode, d, fin, None), Frame(fin, opcode, false, d);
    FrameRoundTrip(opcode, d, fin, None, rest);
    ProcessStep(c.(buffer := b + rest), max);
    HandleCommutes(c, f, b + rest);
    assert (b + rest)[|b|..] == rest;
  }

  lemma OneControl(c: Client, x: Control, rest: Bytes, max: nat)
    requires c.phase == Connected && Fits(x.data, max)
    ensures Process(c.(buffer := ControlFrame(x) + rest), max) ==
            Process(c.(buffer := rest, log := c.log + ControlHeard(x)), max)
  {
    hide Process, Build;
    OneFrame(c, if x.Ping? then PING else PONG, x.data, true, rest, max);
    assert x.Ping? ==> c.log + [PongSent(x.data)] + [PingSeen(x.data)] == c.log + ControlHeard(x);
  }

  lemma {:induction false} Controls(c: Client, cs: seq<Control>, rest: Bytes, max: nat)
    requires c.phase == Connected && forall i :: 0 <= i < |cs| ==> Fits(cs[i].data, max)
    ensures Process(c.(buffer := ControlFrames(cs) + rest), max) ==
            Process(c.(buffer := rest, log := c.log + ControlsHeard(cs)), max)
    decreases |cs|
  {
    hide Process, ControlFrame, ControlHeard, Fits;
    if |cs| == 0 {
      assert [] + rest == rest && c.log + [] == c.log;
    } else {
      assert ControlFrames(cs) + rest == ControlFrame(cs[0]) + (ControlFrames(cs[1..]) + rest);
      assert c.log + ControlHeard(cs[0]) + ControlsHeard(cs[1..]) == c.log + ControlsHeard(cs);
      OneControl(c, cs[0], ControlFrames(cs[1..]) + rest, max);
      Controls(c.(log := c.log + ControlHeard(cs[0])), cs[1..], rest, max);
    }
  }

  /** The client after the last of some fragments. */
  function Assembled(c: Client, ps: seq<Part>): Client {
    c.(receiving := false, fragments := [],
       log := c.log + PartsHeard(ps) + [Message(c.fragments + PartsData(ps), c.fragmentedText)])
  }

  lemma OnePart(c: Client, p: Part, last: bool, rest: Bytes, max: nat)
    requires c.phase == Connected && c.receiving && PartFits(p, max)
    ensures var log, all := c.log + ControlsHeard(p.before), c.fragments + p.data;
      Process(c.(buffer := ControlFrames(p.before) + (Build(CONTINUATION, p.data, last, None) + rest)), max) ==
      Process(if last then c.(buffer := rest, receiving := false, fragments := [], log := log + [Message(all, c.fragmentedText)])
              else c.(buffer := rest, fragments := all, log := log), max)
  {
    hide Process, Build, ControlFrames, ControlsHeard;
    Controls(c, p.before, Build(CONTINUATION, p.data, last, None) + rest, max);
    OneFrame(c.(log := c.log + ControlsHeard(p.before)), CONTINUATION, p.data, last, rest, max);
  }

  lemma {:induction false} Parts(c: Client, ps: seq<Part>, rest: Bytes, max: nat)
    requires |ps| > 0 && c.phase == Connected && c.receiving && forall k :: 0 <= k < |ps| ==> PartFits(ps[k], max)
    ensures Process(c.(buffer := PartFrames(ps) + rest), max) == Process(Assembled(c, ps).(buffer := rest), max)
    decreases |ps|
  {
    hide Process, Build, ControlFrames, ControlsHeard, PartFits;
    var p, tail := ps[0], ps[1..];
    OnePart(c, p, |ps| == 1, PartFrames(tail) + rest, max);
    assert PartFrames(ps) + rest == ControlFrames(p.before) + (Build(CONTINUATION, p.data, |ps| == 1, None) + (PartFrames(tail) + rest));
    if |ps| == 1 {
      assert PartFrames(tail) + rest == rest;
      assert PartsHeard(tail) == [] && PartsData(tail) == [] && p.data + [] == p.data;
      assert PartsHeard(ps) == ControlsHeard(p.before);
    } else {
      var c1 := c.(fragments := c.fragments + p.data, log := c.log + ControlsHeard(p.before));
      Parts(c1, tail, rest, max);
      PartsConcat(c, ps);
    }
  }

  lemma PartsConcat(c: Client, ps: seq<Part>)
    requires |ps| > 0
    ensures Assembled(c.(fragments := c.fragments + ps[0].data, log := c.log + ControlsHeard(ps[0].before)), ps[1..]) == Assembled(c, ps)
  {
    hide ControlsHeard;
    assert c.fragments + ps[0].data + PartsData(ps[1..]) == c.fragments + PartsData(ps);
    assert c.log + ControlsHeard(ps[0].before) + PartsHeard(ps[1..]) == c.log + PartsHeard(ps);
  }

  /** Ready for the next item: connected, between messages. */
  predicate Ready(c: Client) {
    c.phase == Connected && !c.receiving && c.fragments == []
  }

  lemma OneItem(c: Client, i: Item, rest: Bytes, max: nat)
    requires Ready(c) && ItemFits(i, max)
    ensures exists text ::
              Process(c.(buffer := ItemFrames(i) + rest), max) ==
              Process(c.(buffer := rest, fragmentedText := text, log := c.log + ItemHeard(i)), max)
  {
    hide Process, Build, PartFrames, PartsHeard, ControlFrame, ControlHeard, PartsData;
    match i {
      case Between(x) =>
        OneControl(c, x, rest, max);
        assert c == c.(fragmentedText := c.fragmentedText);
        assert Process(c.(buffer := ItemFrames(i) + rest), max) ==
               Process(c.(buffer := rest, fragmentedText := c.fragmentedText, log := c.log + ItemHeard(i)), max);
      case Say(isText, first, parts) =>
        var op := if isText then TEXT else BINARY;
        assert ItemFrames(i) + rest == Build(op, first, |parts| == 0, None) + (PartFrames(parts) + rest);
        OneFrame(c, op, first, |parts| == 0, PartFrames(parts) + rest, max);
        SayHeard(c, isText, first, parts);
        if |parts| == 0 {
          assert PartFrames(parts) + rest == rest;
        } else {
          Parts(c.(receiving := true, fragmentedText := isText, fragments := first), parts, rest, max);
        }
        var text := if |parts| == 0 then c.fragmentedText else isText;
        assert Process(c.(buffer := ItemFrames(i) + rest), max) ==
               Process(c.(buffer := rest, fragmentedText := text, log := c.log + ItemHeard(i)), max);
    }
  }

  lemma SayHeard(c: Client, isText: bool, first: Bytes, parts: seq<Part>)
    requires Ready(c)
    ensures var heard := c.log + ItemHeard(Say(isText, first, parts));
      if |parts| == 0 then PartFrames(parts) == [] && heard == c.log + [Message(first, isText)]
      else Assembled(c.(receiving := true, fragmentedText := isText, fragments := first), parts) ==
           c.(fragmentedText := isText, log := heard)
  {
    hide ControlsHeard, ControlFrames, Build;
    if |parts| == 0 { assert first + [] == first; }
    assert c.log + PartsHeard(parts) + [Message(first + PartsData(parts), isText)] ==
           c.log + (PartsHeard(parts) + [Message(first + PartsData(parts), isText)]);
  }

  /** `d` is `c` after hearing some events, with nothing left to read. */
  predicate HeardFrom(c: Client, d: Client, heard: seq<Event>) {
    d == c.(buffer := [], fragmentedText := d.fragmentedText, log := c.log + heard)
  }

  lemma {:induction false} AllItems(c: Client, items: seq<Item>, max: nat)
    requires Ready(c) && forall k :: 0 <= k < |items| ==> ItemFits(items[k], max)
    ensures HeardFrom(c, Process(c.(buffer := Stream(items)), max), Heard(items))
    decreases |items|
  {
    hide ItemFrames, ItemHeard, ItemFits, Process;
    if |items| == 0 {
      assert c.log + [] == c.log;
      EmptyNeedsMore(c.(buffer := []), max);
    } else {
      OneItem(c, items[0], Stream(items[1..]), max);
      var text :| Process(c.(buffer := ItemFrames(items[0]) + Stream(items[1..])), max) ==
                  Process(c.(buffer := Stream(items[1..]), fragmentedText := text, log := c.log + ItemHeard(items[0])), max);
      AllItems(c.(fragmentedText := text, log := c.log + ItemHeard(items[0])), items[1..], max);
      assert c.log + ItemHeard(items[0]) + Heard(items[1..]) == c.log + Heard(items);
    }
  }

  /** Whatever the messages, their fragments and the control frames between them, and however the
      bytes are cut into reads: the listener hears every message once, whole and in order, each
      control frame in its place, and nothing is left over. */
  lemma MessagesArrive(c: Client, items: seq<Item>, chunks: seq<Bytes>, max: nat)
    requires Ready(c) && c.buffer == [] && Concat(chunks) == Stream(items)
    requires forall k :: 0 <= k < |items| ==> ItemFits(items[k], max)
    ensures var d := OnReads(c, chunks, max);
      d.log == c.log + Heard(items) && d.buffer == [] && !d.receiving && d.phase == Connected && d.closeSent == c.closeSent
  {
    AllItems(c, items, max);
    assert [] + Stream(items) == Stream(items);
    assert ParseFrame([]) == None && Process(c, max) == c;
    hide ItemFits, Process, Heard, Stream;
    CutsAgree(c, chunks, max);
  }

  /** A close frame is echoed with its own code and reason, once, and the listener is told. */
  lemma CloseEchoed(c: Client, payload: Bytes, rest: Bytes, max: nat)
    requires Fits(payload, max) && c.phase == Connected && !c.closeSent
    ensures var code, reason := if |payload| < 2 then NO_STATUS_RCVD else payload[0] as int * 256 + payload[1] as int,
                                if |payload| < 2 then [] else payload[2..];
      Process(c.(buffer := Build(CLOSE, payload, true, None) + rest), max) ==
      Process(c.(buffer := rest, phase := Closed, closeSent := true,
                 log := c.log + [CloseSent(code, reason), CloseSeen(code, reason)]), max)
  {
    hide Process, Build, CloseCode, CloseReason;
    OneFrame(c, CLOSE, payload, true, rest, max);
    CloseFields(payload);
    var code, reason := CloseCode(payload), CloseReason(payload);
    assert c.log + [CloseSent(code, reason)] + [CloseSeen(code, reason)] == c.log + [CloseSent(code, reason), CloseSeen(code, reason)];
  }

  lemma CloseFields(payload: Bytes)
    ensures |payload| < 2 ==> CloseCode(payload) == NO_STATUS_RCVD && CloseReason(payload) == []
    ensures |payload| >= 2 ==>
              CloseCode(payload) == payload[0] as int * 256 + payload[1] as int && CloseReason(payload) == payload[2..]
  {
    if |payload| >= 2 {
      var s := payload[..2];
      assert s[..1] == [payload[0]] && s[..1][..0] == [];
      assert FromBigEndian(s[..1]) == payload[0] as int;
      assert payload[2..] == CloseReason(payload);
    }
  }

  // ----- The client as it runs -----

  class WebSocketClient {
    var receiveBuffer: Bytes
    var receivingFragmented: bool
    var fragmentedText: bool
    var fragmentedMessage: Bytes
    var phase: Phase
    var closeSent: bool
    var log: seq<Event>
    const maxMessageSize: nat

    ghost function State(): Client
      reads this
    {
      Client(receiveBuffer, receivingFragmented, fragmentedText, fragmentedMessage, phase, closeSent, log)
    }

    /** A client whose handshake is complete. */
    constructor (maxMessageSize: nat)
      ensures Ready(State()) && State().buffer == [] && !closeSent && log == [] && this.maxMessageSize == maxMessageSize
    {
      receiveBuffer, receivingFragmented, fragmentedText, fragmentedMessage := [], false, true, [];
      phase, closeSent, log := Connected, false, [];
      this.maxMessageSize := maxMessageSize;
    }

    method HandleError(f: Failure)
      modifies this
      ensures State() == Fails(old(State()), f)
    {
      phase := Error;
      log := log + [Failed(f)];
    }

    method HandleWebSocketFrame(frame: Frame)
      modifies this
      ensures State() == Handle(old(State()), frame)
    {
      if frame.opcode == TEXT || frame.opcode == BINARY {
        if receivingFragmented {
          HandleError(UnexpectedData);
        } else if frame.fin {
          log := log + [Message(frame.payload, frame.opcode == TEXT)];
        } else {
          receivingFragmented := true;
          fragmentedText := frame.opcode == TEXT;
          fragmentedMessage := [];
          fragmentedMessage := fragmentedMessage + frame.payload;
        }
      } else if frame.opcode == CONTINUATION {
        if !receivingFragmented {
          HandleError(UnexpectedContinuation);
        } else {
          fragmentedMessage := fragmentedMessage + frame.payload;
          if frame.fin {
            var message := Message(fragmentedMessage, fragmentedText);
            receivingFragmented := false;
            fragmentedMessage := [];
            log := log + [message];
          }
        }
      } else if frame.opcode == CLOSE {
        HandleCloseFrame(frame.payload);
      } else if frame.opcode == PING {
        if phase == Connected { log := log + [PongSent(frame.payload)]; }
        log := log + [PingSeen(frame.payload)];
      } else if frame.opcode == PONG {
        log := log + [PongSeen(frame.payload)];
      } else {
        HandleError(UnsupportedOpcode);
      }
    }

    method HandleCloseFrame(payload: Bytes)
      modifies this
      ensures State() == HandleClose(old(State()), payload)
    {
      var code, reason := NO_STATUS_RCVD, [];
      if |payload| >= 2 {
        code := FromBigEndian(payload[..2]);
        if |payload| > 2 { reason := payload[2..]; }
      }
      if !closeSent { SendClose(code, reason); }
      phase := Closed;
      log := log + [CloseSeen(code, reason)];
    }

    method SendClose(code: nat, reason: Bytes)
      modifies this
      ensures State() == if old(closeSent || phase != Connected) then old(State())
                         else Logged(old(State()).(closeSent := true, phase := Closing), CloseSent(code, reason))
    {
      if closeSent || phase != Connected { return; }
      closeSent := true;
      phase := Closing;
      log := log + [CloseSent(code, reason)];
    }

    /** One frame out of the buffer, if it is all there and acceptable. */
    method ParseWebSocketFrame() returns (more: bool)
      modifies this
      ensures more ==> Process(State(), maxMessageSize) == Process(old(State()), maxMessageSize)
      ensures !more ==> State() == Process(old(State()), maxMessageSize)
      ensures more ==> |receiveBuffer| < |old(receiveBuffer)|
    {
      hide ParseFrame, Handle;
      ghost var c := State();
      var consumed, frame := ReadFrame(receiveBuffer);
      if consumed == 0 {
        if ParseFrame(c.buffer).Some? { FrameSize(c.buffer); }
        return false;
      }
      ProcessStep(c, maxMessageSize);
      FrameSize(c.buffer);
      if frame.masked {
        HandleError(MaskedFrame);
        return false;
      }
      if |frame.payload| > maxMessageSize {
        HandleError(PayloadTooLarge);
        return false;
      }
      HandleCommutes(c, frame, receiveBuffer[consumed..]);
      receiveBuffer := receiveBuffer[consumed..];
      HandleWebSocketFrame(frame);
      return true;
    }

    method ProcessWebSocketFrames()
      modifies this
      ensures State() == Process(old(State()), maxMessageSize)
    {
      hide ParseFrame, Handle;
      ghost var c := State();
      EmptyNeedsMore(c, maxMessageSize);
      while receiveBuffer != []
        invariant Process(State(), maxMessageSize) == Process(c, maxMessageSize)
        decreases |receiveBuffer|
      {
        var more := ParseWebSocketFrame();
        if !more { return; }
        EmptyNeedsMore(State(), maxMessageSize);
      }
      EmptyNeedsMore(State(), maxMessageSize);
    }

    /** OnDataReceived, after the handshake. */
    method OnDataReceived(data: Bytes)
      modifies this
      ensures State() == OnData(old(State()), data, maxMessageSize)
    {
      receiveBuffer := receiveBuffer + data;
      ProcessWebSocketFrames();
    }
  }

  lemma EmptyNeedsMore(c: Client, max: nat)
    ensures c.buffer == [] ==> Process(c, max) == c
  {
    assert ParseFrame([]) == None;
  }
}
