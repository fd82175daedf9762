/** Frames byte by byte, as section 5.2 of RFC 6455 lays them out, and that the encoder writes and both
    decoders read exactly these. */
module WebSocketWire {
  import opened Bytes
  import opened Options
  import opened WebSocketFrame
  import opened WebSocketStream

  /** Eight bytes in network order, from the third on. */
  function Eight(s: Bytes): nat
    requires |s| >= 10
  {
    s[2] as int * 0x100_0000_0000_0000 + s[3] as int * 0x1_0000_0000_0000
    + s[4] as int * 0x100_0000_0000 + s[5] as int * 0x1_0000_0000
    + s[6] as int * 0x100_0000 + s[7] as int * 0x1_0000 + s[8] as int * 0x100 + s[9] as int
  }

  /** How many bytes the extended length takes, and what the length bits and those bytes announce. */
  predicate Announces(s: Bytes, extended: nat, n: nat) {
    && |s| >= 2 + extended
    && match extended
       case 0 => (s[1] & 0x7f) as int == n && n <= 125
       case 2 => s[1] & 0x7f == 126 && n == s[2] as int * 256 + s[3] as int
       case 8 => s[1] & 0x7f == 127 && n == Eight(s)
       case _ => false
  }

  /** The payload as it travels: with a key, each byte is combined with the key byte whose turn it is. */
  predicate Carries(raw: Bytes, key: Option<Bytes>, payload: Bytes) {
    match key
    case None => raw == payload
    case Some(k) =>
      && |k| == 4 && |raw| == 4 + |payload| && raw[..4] == k
      && forall i :: 0 <= i < |payload| ==> raw[4 + i] == payload[i] ^ k[i % 4]
  }

  /** A frame: FIN and opcode, mask bit and length, the extended length, the key, the payload. */
  predicate OnWire(s: Bytes, fin: bool, opcode: bv8, extended: nat, key: Option<Bytes>, payload: Bytes) {
    && Announces(s, extended, |payload|)
    && (s[0] & 0x80 == 0x80 <==> fin) && s[0] & 0x0f == opcode
    && (s[1] & 0x80 == 0x80 <==> key.Some?)
    && Carries(s[2 + extended..], key, payload)
  }

  // ----- The encoder -----

  lemma TwoBytes(s: Bytes)
    requires |s| == 2
    ensures FromBigEndian(s) == s[0] as int * 256 + s[1] as int
  {
    assert s[..1] == [s[0]] && s[..1][..0] == [];
    assert FromBigEndian(s[..1]) == s[0] as int;
  }

  lemma EightBytes(s: Bytes)
    requires |s| >= 10
    ensures FromBigEndian(s[2..10]) == Eight(s)
  {
    hide FromBigEndian;
    var t := s[2..10];
    TwoBytes(t[..2]);
    OneMore(t, 2);
    OneMore(t, 3);
    OneMore(t, 4);
    OneMore(t, 5);
    OneMore(t, 6);
    OneMore(t, 7);
    assert t[..8] == t;
  }

  lemma OneMore(s: Bytes, k: nat)
    requires k < |s|
    ensures FromBigEndian(s[..k + 1]) == FromBigEndian(s[..k]) * 256 + s[k] as int
  {
    assert s[..k + 1][..k] == s[..k];
  }

  /** The bits of the bytes that the encoder makes. */
  lemma FirstByte(opcode: bv8, fin: bool)
    requires opcode & 0xf0 == 0
    ensures var b := Byte0(opcode, fin); (b & 0x80 == 0x80 <==> fin) && b & 0x0f == opcode && b & 0x70 == 0
  {
  }

  lemma SecondByte(b: bv8, mask: bool)
    requires b & 0x80 == 0
    ensures var c := if mask then b | 0x80 else b; (c & 0x80 == 0x80 <==> mask) && c & 0x7f == b
  {
  }

  lemma LengthOnWire(b0: bv8, mask: bool, n: nat, rest: Bytes)
    requires n < SIZE_T
    ensures var s := [b0] + LengthBytes(mask, n) + rest;
      var extended := if n < 126 then 0 else if n < 65536 then 2 else 8;
      && Announces(s, extended, n) && (s[1] & 0x80 == 0x80 <==> mask) && s[2 + extended..] == rest
      && |LengthBytes(mask, n)| == 1 + extended
  {
    hide FromBigEndian, ToBigEndian, Eight;
    var code := if n < 126 then n else if n < 65536 then 126 else 127;
    SmallByte(code);
    SecondByte(Byte(code), mask);
    if n >= 126 { ExtendedOnWire(b0, Byte1(mask, code), n, if n < 65536 then 2 else 8, rest); }
    assert ([b0] + LengthBytes(mask, n) + rest)[1] == Byte1(mask, code);
  }

  lemma ExtendedOnWire(b0: bv8, b1: bv8, n: nat, k: nat, rest: Bytes)
    requires (k == 2 && n < 65536) || (k == 8 && n < SIZE_T)
    ensures var s := [b0] + ([b1] + ToBigEndian(n, k)) + rest;
      |s| >= 2 + k && s[2 + k..] == rest && (if k == 2 then s[2] as int * 256 + s[3] as int else Eight(s)) == n
  {
    hide FromBigEndian, ToBigEndian, Eight;
    Pow256Values();
    BigEndianRoundTrip(n, k);
    var s, l := [b0] + ([b1] + ToBigEndian(n, k)) + rest, ToBigEndian(n, k);
    assert s[2..2 + k] == l;
    if k == 2 { TwoBytes(l); } else { EightBytes(s); }
  }

  /** The encoder: no reserved bits, the shortest of the three lengths. */
  lemma BuiltOnWire(opcode: bv8, payload: Bytes, fin: bool, key: Option<Bytes>)
    requires opcode & 0xf0 == 0 && |payload| < SIZE_T && (key.Some? ==> |key.value| == 4)
    ensures var s := Build(opcode, payload, fin, key);
      && OnWire(s, fin, opcode, if |payload| <= 125 then 0 else if |payload| <= 65535 then 2 else 8, key, payload)
      && s[0] & 0x70 == 0
  {
    hide Byte0, LengthBytes, Announces;
    var rest := Tail(payload, key);
    FirstByte(opcode, fin);
    LengthOnWire(Byte0(opcode, fin), key.Some?, |payload|, rest);
    TailCarries(payload, key);
    assert Build(opcode, payload, fin, key) == [Byte0(opcode, fin)] + LengthBytes(key.Some?, |payload|) + rest;
    hide Carries, Tail, Build;
  }

  lemma TailCarries(payload: Bytes, key: Option<Bytes>)
    requires key.Some? ==> |key.value| == 4
    ensures Carries(Tail(payload, key), key, payload)
  {
  }

  // ----- The decoders -----

  lemma LengthRead(s: Bytes, extended: nat, n: nat)
    requires Announces(s, extended, n)
    ensures ExtendedSize(s[1]) == extended
    ensures n == if extended == 0 then (s[1] & 0x7f) as int else FromBigEndian(s[2..2 + extended])
  {
    hide FromBigEndian, Eight;
    LengthCode(s[1]);
    if extended == 2 { TwoBytes(s[2..4]); } else if extended == 8 { EightBytes(s); }
  }

  lemma LengthWritten(s: Bytes)
    requires |s| >= 2 && |s| >= 2 + ExtendedSize(s[1])
    ensures var k := ExtendedSize(s[1]);
      Announces(s, k, if k == 0 then (s[1] & 0x7f) as int else FromBigEndian(s[2..2 + k]))
  {
    hide FromBigEndian, Eight;
    ShortLength(s[1]);
    var k := ExtendedSize(s[1]);
    if k == 2 { TwoBytes(s[2..4]); } else if k == 8 { EightBytes(s); }
  }

  /** The length is in the first bytes. */
  lemma AnnouncesMore(s: Bytes, rest: Bytes, extended: nat, n: nat)
    requires |s| >= 2 + extended
    ensures Announces(s, extended, n) <==> Announces(s + rest, extended, n)
  {
    assert forall i :: 0 <= i < |s| ==> (s + rest)[i] == s[i];
  }

  lemma HeaderOnWire(s: Bytes, rest: Bytes, fin: bool, opcode: bv8, extended: nat, key: Option<Bytes>, payload: Bytes)
    requires OnWire(s, fin, opcode, extended, key, payload)
    ensures HeaderOf(s + rest) == Some(Header(fin, opcode, key.Some?, |payload|, 2 + extended))
  {
    hide FromBigEndian, Carries, Announces, ExtendedSize;
    Long(s, extended, |payload|);
    TopBit(s[0]);
    TopBit(s[1]);
    AnnouncesMore(s, rest, extended, |payload|);
    LengthRead(s + rest, extended, |payload|);
    assert (s + rest)[0] == s[0] && (s + rest)[1] == s[1];
  }

  lemma TopBit(b: bv8)
    ensures (b & 0x80 != 0) <==> b & 0x80 == 0x80
  {
  }

  lemma LengthCode(b: bv8)
    ensures (b & 0x7f) as int <= 125 ==> b & 0x7f != 126 && b & 0x7f != 127
  {
  }

  lemma Long(s: Bytes, extended: nat, n: nat)
    requires Announces(s, extended, n)
    ensures |s| >= 2 + extended
  {
  }

  lemma PayloadOnWire(s: Bytes, rest: Bytes, h: Header, key: Option<Bytes>, payload: Bytes)
    requires h.size <= |s| && Carries(s[h.size..], key, payload) && h.masked == key.Some? && h.len == |payload|
    ensures |s| == h.size + KeySize(h) + h.len && PayloadOf(s + rest, h) == payload
  {
    var data := s + rest;
    var at := h.size + KeySize(h);
    match key {
      case None => assert data[at..at + h.len] == s[h.size..];
      case Some(k) =>
        assert data[h.size..h.size + 4] == s[h.size..][..4] == k;
        var raw := data[at..at + h.len];
        forall i | 0 <= i < |payload| ensures Masked(raw, k)[i] == payload[i] {
          assert raw[i] == s[h.size..][4 + i];
          XorTwice(payload[i], k[i % 4]);
        }
        assert Masked(raw, k) == payload;
    }
  }

  /** The client's decoder: whatever the reserved bits and the form of the length, and whatever follows. */
  lemma ClientReads(s: Bytes, rest: Bytes, fin: bool, opcode: bv8, extended: nat, key: Option<Bytes>, payload: Bytes)
    requires OnWire(s, fin, opcode, extended, key, payload)
    ensures ParseFrame(s + rest) ==
            if |payload| <= 1024 * 1024 then Some((Frame(fin, opcode, key.Some?, payload), |s|)) else None
  {
    hide HeaderOf, PayloadOf, Announces, Carries;
    Long(s, extended, |payload|);
    HeaderOnWire(s, rest, fin, opcode, extended, key, payload);
    PayloadOnWire(s, rest, Header(fin, opcode, key.Some?, |payload|, 2 + extended), key, payload);
  }

  /** The server's: a frame without a key or with too long a payload is refused, any other taken. */
  lemma ServerReads(s: Bytes, rest: Bytes, fin: bool, opcode: bv8, extended: nat, key: Option<Bytes>, payload: Bytes, maxPayload: nat)
    requires OnWire(s, fin, opcode, extended, key, payload)
    ensures ParseOnServer(s + rest, maxPayload) ==
            if key.None? || |payload| >= maxPayload then Refuse else Take(opcode, payload, |s|)
  {
    hide HeaderOf, PayloadOf, Announces, Carries;
    Long(s, extended, |payload|);
    HeaderOnWire(s, rest, fin, opcode, extended, key, payload);
    PayloadOnWire(s, rest, Header(fin, opcode, key.Some?, |payload|, 2 + extended), key, payload);
  }

  /** And nothing else is read: what the client's decoder takes is a frame on the wire. */
  lemma ReadIsOnWire(data: Bytes) returns (extended: nat, key: Option<Bytes>)
    requires ParseFrame(data).Some?
    ensures var (f, n) := ParseFrame(data).value;
      n <= |data| && OnWire(data[..n], f.fin, f.opcode, extended, key, f.payload) && f.masked == key.Some?
  {
    hide FromBigEndian, PayloadOf, Announces, Carries, ExtendedSize;
    var h := HeaderOf(data).value;
    extended := h.size - 2;
    key := if h.masked then Some(data[h.size..h.size + 4]) else None;
    var n := ParseFrame(data).value.1;
    TopBit(data[0]);
    TopBit(data[1]);
    LengthWritten(data);
    assert data == data[..n] + data[n..];
    AnnouncesMore(data[..n], data[n..], extended, h.len);
    CarriedBack(data, h);
    assert data[..n][2 + extended..] == data[h.size..n];
    PayloadSize(data, h);
  }

  lemma PayloadSize(data: Bytes, h: Header)
    requires h.size + KeySize(h) + h.len <= |data|
    ensures |PayloadOf(data, h)| == h.len
  {
  }

  lemma ShortLength(b: bv8)
    ensures b & 0x7f != 126 && b & 0x7f != 127 ==> (b & 0x7f) as int <= 125
  {
    var c := b & 0x7f;
    assert c < 128;
    assert c != 126 && c != 127 ==> c <= 125;
  }

  lemma CarriedBack(data: Bytes, h: Header)
    requires h.size + KeySize(h) + h.len <= |data|
    ensures Carries(data[h.size..h.size + KeySize(h) + h.len], if h.masked then Some(data[h.size..h.size + 4]) else None, PayloadOf(data, h))
  {
    if h.masked {
      var at := h.size + 4;
      var k, raw := data[h.size..at], data[at..at + h.len];
      var payload := Masked(raw, k);
      var all := data[h.size..at + h.len];
      assert all[..4] == k;
      forall i | 0 <= i < h.len ensures all[4 + i] == payload[i] ^ k[i % 4] {
        assert all[4 + i] == raw[i];
        XorTwice(raw[i], k[i % 4]);
      }
    }
  }

  // ----- What a client hears -----

  /** The two bytes that open a close frame's payload. */
  function StatusCode(payload: Bytes): nat
    requires |payload| >= 2
  {
    payload[0] as int * 256 + payload[1] as int
  }

  /** One frame without a key, all at once, for a client that is connected and has nothing else to read. */
  lemma FrameHeard(c: Client, s: Bytes, fin: bool, opcode: bv8, extended: nat, payload: Bytes, max: nat)
    requires OnWire(s, fin, opcode, extended, None, payload) && |payload| <= 1024 * 1024 && |payload| <= max
    requires c.buffer == [] && c.phase == Connected && !c.receiving && !c.closeSent
    ensures var d := OnData(c, s, max);
      && d.buffer == []
      && (opcode == 0x1 && fin ==> d == c.(log := c.log + [Message(payload, true)]))
      && (opcode == 0x2 && fin ==> d == c.(log := c.log + [Message(payload, false)]))
      && (opcode == 0x1 && !fin ==> d == c.(receiving := true, fragmentedText := true, fragments := payload))
      && (opcode == 0x2 && !fin ==> d == c.(receiving := true, fragmentedText := false, fragments := payload))
      && (opcode == 0x0 ==> d == c.(phase := Error, log := c.log + [Failed(UnexpectedContinuation)]))
      && (opcode == 0x9 ==> d == c.(log := c.log + [PongSent(payload), PingSeen(payload)]))
      && (opcode == 0xA ==> d == c.(log := c.log + [PongSeen(payload)]))
      && (opcode == 0x8 && |payload| >= 2 ==>
            var code := StatusCode(payload);
            d == c.(phase := Closed, closeSent := true, log := c.log + [CloseSent(code, payload[2..]), CloseSeen(code, payload[2..])]))
      && (opcode !in {0x0, 0x1, 0x2, 0x8, 0x9, 0xA} ==> d == c.(phase := Error, log := c.log + [Failed(UnsupportedOpcode)]))
  {
    hide ParseFrame, OnWire, Process, CloseCode, CloseReason, StatusCode;
    ClientReads(s, [], fin, opcode, extended, None, payload);
    assert s + [] == s && [] + s == s;
    var f := Frame(fin, opcode, false, payload);
    OneFrame(c, s, f, max);
    if opcode == 0x8 && |payload| >= 2 {
      CloseHandled(c, payload);
      CloseRead(payload);
    }
  }

  lemma CloseHandled(c: Client, payload: Bytes)
    requires c.phase == Connected && !c.closeSent
    ensures var (code, reason) := (CloseCode(payload), CloseReason(payload));
      HandleClose(c, payload) == c.(phase := Closed, closeSent := true, log := c.log + [CloseSent(code, reason), CloseSeen(code, reason)])
  {
    hide CloseCode, CloseReason;
    Both(c.log, CloseSent(CloseCode(payload), CloseReason(payload)), CloseSeen(CloseCode(payload), CloseReason(payload)));
  }

  lemma Both<T>(s: seq<T>, a: T, b: T)
    ensures s + [a] + [b] == s + [a, b]
  {
  }

  lemma CloseRead(payload: Bytes)
    requires |payload| >= 2
    ensures CloseCode(payload) == StatusCode(payload) && CloseReason(payload) == payload[2..]
  {
    hide FromBigEndian;
    TwoBytes(payload[..2]);
    assert payload[..2][0] == payload[0] && payload[..2][1] == payload[1];
  }

  lemma OneFrame(c: Client, s: Bytes, f: Frame, max: nat)
    requires ParseFrame(s) == Some((f, |s|)) && !f.masked && |f.payload| <= max && c.buffer == []
    ensures OnData(c, s, max) == Handle(c, f)
  {
    hide ParseFrame, Handle;
    assert c.buffer + s == s;
    ProcessStep(c.(buffer := s), max);
    HandleCommutes(c, f, s);
    HandleKeepsBuffer(c, f);
    assert s[|s|..] == [];
    NothingThere(Handle(c, f), max);
    assert Handle(c, f).(buffer := []) == Handle(c, f);
  }

  lemma NothingThere(c: Client, max: nat)
    requires c.buffer == []
    ensures Process(c, max) == c
  {
  }
}
