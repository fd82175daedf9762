/** WebSocket frames on the wire: the encoder, the client's decoder and the server's. */
module WebSocketFrame {
  import opened Bytes
  import opened Options

  const MAX_FRAME_SIZE := 1024 * 1024

  const CONTINUATION: bv8 := 0x0
  const TEXT: bv8 := 0x1
  const BINARY: bv8 := 0x2
  const CLOSE: bv8 := 0x8
  const PING: bv8 := 0x9
  const PONG: bv8 := 0xA

  datatype Frame = Frame(fin: bool, opcode: bv8, masked: bool, payload: Bytes)

  /** data[i] ^= mask[i % 4]. */
  function Masked(data: Bytes, key: Bytes): (r: Bytes)
    requires |key| == 4
    ensures |r| == |data| && forall i :: 0 <= i < |data| ==> r[i] == data[i] ^ key[i % 4]
  {
    seq(|data|, i requires 0 <= i < |data| => data[i] ^ key[i % 4])
  }

  lemma MaskTwice(data: Bytes, key: Bytes)
    requires |key| == 4
    ensures Masked(Masked(data, key), key) == data
  {
    forall i | 0 <= i < |data| ensures Masked(Masked(data, key), key)[i] == data[i] { XorTwice(data[i], key[i % 4]); }
  }

  lemma XorTwice(a: bv8, k: bv8)
    ensures (a ^ k) ^ k == a
  {
  }

  // ----- Encoding -----

  function Byte0(opcode: bv8, fin: bool): bv8 {
    if fin then opcode | 0x80 else opcode
  }

  function Byte1(mask: bool, len7: nat): bv8
    requires len7 < 128
  {
    if mask then Byte(len7) | 0x80 else Byte(len7)
  }

  /** The second byte and the extended length. */
  function LengthBytes(mask: bool, len: nat): Bytes {
    if len < 126 then [Byte1(mask, len)]
    else if len < 65536 then [Byte1(mask, 126)] + ToBigEndian(len, 2)
    else [Byte1(mask, 127)] + ToBigEndian(len, 8)
  }

  /** What BuildFrame makes; `key` is the masking key of a masked frame. */
  function Build(opcode: bv8, payload: Bytes, fin: bool, key: Option<Bytes>): Bytes
    requires key.Some? ==> |key.value| == 4
  {
    [Byte0(opcode, fin)] + LengthBytes(key.Some?, |payload|)
    + match key case None => payload case Some(k) => k + Masked(payload, k)
  }

  // ----- Decoding -----

  /** A decoded header: everything before the masking key. */
  datatype Header = Header(fin: bool, opcode: bv8, masked: bool, len: nat, size: nat)

  function ExtendedSize(byte1: bv8): nat {
    if byte1 & 0x7f == 126 then 2 else if byte1 & 0x7f == 127 then 8 else 0
  }

  function HeaderOf(data: Bytes): (h: Option<Header>)
    ensures h.Some? ==> 2 <= h.value.size <= |data|
  {
    if |data| < 2 then None
    else
      var x := ExtendedSize(data[1]);
      if |data| < 2 + x then None
      else Some(Header(data[0] & 0x80 != 0, data[0] & 0x0f, data[1] & 0x80 != 0,
                       if x == 0 then (data[1] & 0x7f) as int else FromBigEndian(data[2..2 + x]), 2 + x))
  }

  function KeySize(h: Header): nat {
    if h.masked then 4 else 0
  }

  /** The payload after the header and the key, unmasked. */
  function PayloadOf(data: Bytes, h: Header): Bytes
    requires h.size + KeySize(h) + h.len <= |data|
  {
    var at := h.size + KeySize(h);
    var raw := data[at..at + h.len];
    if h.masked then Masked(raw, data[h.size..h.size + 4]) else raw
  }

  /** ParseFrame: the frame and how many bytes it took; None is its result 0. */
  function ParseFrame(data: Bytes): Option<(Frame, nat)> {
    match HeaderOf(data)
    case None => None
    case Some(h) =>
      if h.len > MAX_FRAME_SIZE || |data| < h.size + KeySize(h) + h.len then None
      else Some((Frame(h.fin, h.opcode, h.masked, PayloadOf(data, h)), h.size + KeySize(h) + h.len))
  }

  // ----- Any byte string -----

  lemma HeaderStable(data: Bytes, more: Bytes)
    requires HeaderOf(data).Some?
    ensures HeaderOf(data + more) == HeaderOf(data)
  {
    var x := ExtendedSize(data[1]);
    assert (data + more)[2..2 + x] == data[2..2 + x];
  }

  /** A frame once complete is not changed by what follows it. */
  lemma ParseStable(data: Bytes, more: Bytes)
    requires ParseFrame(data).Some?
    ensures ParseFrame(data + more) == ParseFrame(data)
  {
    HeaderStable(data, more);
    hide HeaderOf;
    PayloadStable(data, more, HeaderOf(data).value);
    hide PayloadOf;
  }

  lemma PayloadStable(data: Bytes, more: Bytes, h: Header)
    requires h.size + KeySize(h) + h.len <= |data|
    ensures PayloadOf(data + more, h) == PayloadOf(data, h)
  {
    hide Masked;
    var at := h.size + KeySize(h);
    assert (data + more)[at..at + h.len] == data[at..at + h.len];
    if h.masked { assert (data + more)[h.size..h.size + 4] == data[h.size..h.size + 4]; }
  }

  /** No strict prefix of a frame parses. */
  lemma PrefixNeedsMore(data: Bytes, n: nat)
    requires ParseFrame(data).Some? && n < ParseFrame(data).value.1
    ensures n <= |data| && ParseFrame(data[..n]) == None
  {
    assert ParseFrame(data).value.1 <= |data|;
    assert data[..n] + data[n..] == data;
    if ParseFrame(data[..n]).Some? { ParseStable(data[..n], data[n..]); }
  }

  /** An announced length above the limit never parses, whatever follows: the decoder waits for ever. */
  lemma OversizeNeverParses(data: Bytes, more: Bytes)
    requires HeaderOf(data).Some? && HeaderOf(data).value.len > MAX_FRAME_SIZE
    ensures ParseFrame(data + more) == None
  {
    HeaderStable(data, more);
  }

  // ----- Round trip -----

  lemma Bits0(opcode: bv8, fin: bool)
    requires opcode & 0xf0 == 0
    ensures (Byte0(opcode, fin) & 0x80 != 0) == fin && Byte0(opcode, fin) & 0x0f == opcode
  {
  }

  lemma Bits1(mask: bool, b: bv8)
    requires b & 0x80 == 0
    ensures var c := if mask then b | 0x80 else b; (c & 0x80 != 0) == mask && c & 0x7f == b
  {
  }

  lemma SmallByte(n: nat)
    requires n < 128
    ensures Byte(n) & 0x80 == 0
  {
    var b := Byte(n);
    HighBit(b);
  }

  lemma HighBit(b: bv8)
    ensures (b & 0x80 != 0) == (b as int >= 128)
  {
  }

  /** A header read from its first byte and its length bytes. */
  lemma HeaderFrom(b0: bv8, l: Bytes, rest: Bytes)
    requires |l| >= 1 && |l| == 1 + ExtendedSize(l[0])
    ensures HeaderOf([b0] + l + rest) ==
            Some(Header(b0 & 0x80 != 0, b0 & 0x0f, l[0] & 0x80 != 0,
                        if |l| == 1 then (l[0] & 0x7f) as int else FromBigEndian(l[1..]), 1 + |l|))
  {
    var data := [b0] + l + rest;
    assert data[1] == l[0];
    assert data[2..1 + |l|] == l[1..];
    hide ExtendedSize, FromBigEndian;
  }

  lemma LengthRoundTrip(mask: bool, len: nat)
    requires len < SIZE_T
    ensures var s := LengthBytes(mask, len);
      && |s| >= 1 && |s| == 1 + ExtendedSize(s[0])
      && (s[0] & 0x80 != 0) == mask
      && (if |s| == 1 then (s[0] & 0x7f) as int else FromBigEndian(s[1..])) == len
  {
    var len7 := if len < 126 then len else if len < 65536 then 126 else 127;
    SmallByte(len7);
    Bits1(mask, Byte(len7));
    Pow256Values();
    if len >= 126 {
      var k := if len < 65536 then 2 else 8;
      BigEndianRoundTrip(len, k);
      assert LengthBytes(mask, len)[1..] == ToBigEndian(len, k);
    }
    hide FromBigEndian, ToBigEndian;
  }

  lemma HeaderRoundTrip(opcode: bv8, fin: bool, mask: bool, len: nat, rest: Bytes)
    requires opcode & 0xf0 == 0 && len < SIZE_T
    ensures var s := [Byte0(opcode, fin)] + LengthBytes(mask, len);
      HeaderOf(s + rest) == Some(Header(fin, opcode, mask, len, |s|))
  {
    Bits0(opcode, fin);
    LengthRoundTrip(mask, len);
    hide Byte0, LengthBytes, HeaderOf, FromBigEndian, ExtendedSize;
    HeaderFrom(Byte0(opcode, fin), LengthBytes(mask, len), rest);
  }

  /** Whatever is built parses back, and takes exactly its own bytes. */
  lemma FrameRoundTrip(opcode: bv8, payload: Bytes, fin: bool, key: Option<Bytes>, rest: Bytes)
    requires opcode & 0xf0 == 0 && |payload| <= MAX_FRAME_SIZE && (key.Some? ==> |key.value| == 4)
    ensures var s := Build(opcode, payload, fin, key);
      ParseFrame(s + rest) == Some((Frame(fin, opcode, key.Some?, payload), |s|))
  {
    var head := [Byte0(opcode, fin)] + LengthBytes(key.Some?, |payload|);
    var tail := Tail(payload, key);
    BuildParts(opcode, payload, fin, key, rest);
    HeaderRoundTrip(opcode, fin, key.Some?, |payload|, tail + rest);
    hide Build, HeaderOf, Byte0, LengthBytes, Tail, PayloadOf;
    PayloadRoundTrip(head, payload, key, rest, Header(fin, opcode, key.Some?, |payload|, |head|));
  }

  /** The key and the masked payload. */
  function Tail(payload: Bytes, key: Option<Bytes>): (t: Bytes)
    requires key.Some? ==> |key.value| == 4
    ensures |t| == |payload| + if key.Some? then 4 else 0
  {
    match key case None => payload case Some(k) => k + Masked(payload, k)
  }

  lemma BuildParts(opcode: bv8, payload: Bytes, fin: bool, key: Option<Bytes>, rest: Bytes)
    requires key.Some? ==> |key.value| == 4
    ensures var head := [Byte0(opcode, fin)] + LengthBytes(key.Some?, |payload|);
      && |Build(opcode, payload, fin, key)| == |head| + |Tail(payload, key)|
      && Build(opcode, payload, fin, key) + rest == head + (Tail(payload, key) + rest)
  {
    hide Byte0, LengthBytes, Masked;
  }

  lemma PayloadRoundTrip(head: Bytes, payload: Bytes, key: Option<Bytes>, rest: Bytes, h: Header)
    requires key.Some? ==> |key.value| == 4
    requires h.size == |head| && h.len == |payload| && h.masked == key.Some?
    ensures PayloadOf(head + (Tail(payload, key) + rest), h) == payload
  {
    match key {
      case None => assert (head + (payload + rest))[|head|..|head| + |payload|] == payload;
      case Some(k) =>
        var raw := Masked(payload, k);
        var data := head + (k + raw + rest);
        MaskTwice(payload, k);
        hide Masked;
        assert data[|head|..|head| + 4] == k;
        assert data[|head| + 4..|head| + 4 + |payload|] == raw;
    }
  }

  // ----- The server's decoder -----

  /** ParseOneWebsocketFrame: not all there yet, the connection is closed, or one frame. */
  datatype ServerParse = Wait | Refuse | Take(opcode: bv8, payload: Bytes, size: nat)

  /** `maxPayload` is max_request_size - 4096. */
  function ParseOnServer(data: Bytes, maxPayload: nat): ServerParse {
    match HeaderOf(data)
    case None => Wait
    case Some(h) =>
      if h.len >= maxPayload || !h.masked then Refuse
      else if |data| < h.size + 4 + h.len then Wait
      else Take(h.opcode, PayloadOf(data, h), h.size + 4 + h.len)
  }

  /** On any bytes at all, where both size limits allow it, the two decoders see the same frame. */
  lemma DecodersAgree(data: Bytes, maxPayload: nat)
    ensures ParseFrame(data).Some? && ParseFrame(data).value.0.masked && |ParseFrame(data).value.0.payload| < maxPayload ==>
              var (f, n) := ParseFrame(data).value;
              ParseOnServer(data, maxPayload) == Take(f.opcode, f.payload, n)
    ensures ParseOnServer(data, maxPayload).Take? && |ParseOnServer(data, maxPayload).payload| <= MAX_FRAME_SIZE ==>
              && ParseFrame(data).Some?
              && var (f, n) := ParseFrame(data).value;
              f.masked && ParseOnServer(data, maxPayload) == Take(f.opcode, f.payload, n)
  {
    hide HeaderOf, Masked;
  }

  /** So the server recovers the payload of every frame the client masks, whatever the key. */
  lemma ServerRoundTrip(opcode: bv8, payload: Bytes, fin: bool, key: Bytes, rest: Bytes, maxPayload: nat)
    requires opcode & 0xf0 == 0 && |key| == 4 && |payload| < maxPayload && |payload| <= MAX_FRAME_SIZE
    ensures var s := Build(opcode, payload, fin, Some(key));
      ParseOnServer(s + rest, maxPayload) == Take(opcode, payload, |s|)
  {
    hide Build, ParseFrame, ParseOnServer;
    FrameRoundTrip(opcode, payload, fin, Some(key), rest);
    DecodersAgree(Build(opcode, payload, fin, Some(key)) + rest, maxPayload);
  }

  // ----- The code as it runs -----

  /** ApplyMask on the bytes of an array from `at` on. */
  method ApplyMask(a: array<bv8>, at: nat, len: nat, mask: Bytes)
    requires at + len <= a.Length && |mask| == 4
    modifies a
    ensures a[..at] == old(a[..at]) && a[at + len..] == old(a[at + len..])
    ensures a[at..at + len] == Masked(old(a[at..at + len]), mask)
  {
    for i := 0 to len
      invariant forall j :: 0 <= j < a.Length && !(at <= j < at + i) ==> a[j] == old(a[j])
      invariant forall j :: 0 <= j < i ==> a[at + j] == old(a[at + j]) ^ mask[j % 4]
    {
      a[at + i] := a[at + i] ^ mask[i % 4];
    }
    assert forall j :: 0 <= j < len ==> a[at..at + len][j] == old(a[at..at + len])[j] ^ mask[j % 4];
  }

  /** The first part of BuildFrame: the second byte and the extended length. */
  method AppendLength(start: Bytes, mask: bool, len: nat) returns (frame: Bytes)
    requires len < SIZE_T
    ensures frame == start + LengthBytes(mask, len)
  {
    hide ToBigEndian;
    var byte1: bv8 := 0;
    if mask { byte1 := byte1 | 0x80; }
    if len < 126 {
      OrSecond(mask, Byte(len));
      byte1 := byte1 | Byte(len);
      frame := start + [byte1];
    } else if len < 65536 {
      OrSecond(mask, Byte(126));
      byte1 := byte1 | Byte(126);
      frame := start + [byte1];
      assert start + LengthBytes(mask, len) == frame + ToBigEndian(len, 2);
      frame := frame + ToBigEndian(len, 2);
    } else {
      OrSecond(mask, Byte(127));
      byte1 := byte1 | Byte(127);
      frame := start + [byte1];
      assert start + LengthBytes(mask, len) == frame + ToBigEndian(len, 8);
      frame := frame + ToBigEndian(len, 8);
    }
  }

  /** BuildFrame. */
  method BuildFrame(opcode: bv8, payload: Bytes, fin: bool, key: Option<Bytes>) returns (frame: Bytes)
    requires |payload| < SIZE_T && (key.Some? ==> |key.value| == 4)
    ensures frame == Build(opcode, payload, fin, key)
  {
    var byte0 := opcode;
    if fin { byte0 := byte0 | 0x80; }
    frame := [byte0];
    var mask := key.Some?;
    frame := AppendLength(frame, mask, |payload|);
    hide LengthBytes, Masked;
    ghost var head := frame;
    if mask { frame := frame + key.value; }
    if |payload| > 0 {
      var data := payload;
      if mask { data := MaskBytes(data, key.value); }
      frame := frame + data;
    } else {
      assert payload == [] && (mask ==> Masked(payload, key.value) == []);
      assert frame + [] == frame;
    }
    assert mask ==> head + (key.value + Masked(payload, key.value)) == head + key.value + Masked(payload, key.value);
  }

  lemma OrSecond(mask: bool, b: bv8)
    ensures (if mask then 0x80 else 0) | b == if mask then b | 0x80 else b
  {
  }

  /** The first half of ParseFrame: the two bytes and the extended length. */
  method ReadHeader(data: Bytes) returns (h: Option<Header>)
    ensures h == HeaderOf(data)
  {
    hide FromBigEndian;
    if |data| < 2 { return None; }
    var byte0, byte1 := data[0], data[1];
    var consumed := 2;
    var payloadLen: nat := (byte1 & 0x7f) as int;
    if byte1 & 0x7f == 126 {
      if |data| < consumed + 2 { return None; }
      payloadLen := FromBigEndian(data[2..4]);
      consumed := consumed + 2;
    } else if byte1 & 0x7f == 127 {
      if |data| < consumed + 8 { return None; }
      payloadLen := FromBigEndian(data[2..10]);
      consumed := consumed + 8;
    }
    h := Some(Header(byte0 & 0x80 != 0, byte0 & 0x0f, byte1 & 0x80 != 0, payloadLen, consumed));
  }

  /** ParseFrame: the bytes consumed, 0 for none, and the frame. */
  method ReadFrame(data: Bytes) returns (consumed: nat, frame: Frame)
    ensures match ParseFrame(data) case None => consumed == 0 case Some((f, n)) => consumed == n && frame == f
  {
    hide HeaderOf, Masked;
    frame := Frame(true, TEXT, false, []);
    var h := ReadHeader(data);
    if h == None || h.value.len > MAX_FRAME_SIZE { return 0, frame; }
    consumed := h.value.size;
    var mask := [0, 0, 0, 0];
    if h.value.masked {
      if |data| < consumed + 4 { return 0, frame; }
      mask := data[consumed..consumed + 4];
      consumed := consumed + 4;
    }
    if |data| < consumed + h.value.len { return 0, frame; }
    var payload := data[consumed..consumed + h.value.len];
    if h.value.masked { payload := MaskBytes(payload, mask); }
    assert payload == PayloadOf(data, h.value);
    frame := Frame(h.value.fin, h.value.opcode, h.value.masked, payload);
    consumed := consumed + h.value.len;
  }

  /** Masking a vector's bytes in place. */
  method MaskBytes(payload: Bytes, mask: Bytes) returns (r: Bytes)
    requires |mask| == 4
    ensures r == Masked(payload, mask)
  {
    var a := new bv8[|payload|](i requires 0 <= i < |payload| => payload[i]);
    assert a[0..0 + |payload|] == payload;
    ApplyMask(a, 0, |payload|, mask);
    r := a[0..0 + |payload|];
  }

  datatype Received = Received(payload: Bytes, isText: bool)

  function SizeTaken(r: ServerParse): nat {
    if r.Take? then r.size else 0
  }

  /** What one decoded frame does to a connection: a ping is answered, a data frame is handed on
      as a message of its own, a close frame or a refused one closes. */
  predicate Dispatched(r: ServerParse, closed: bool, pongs: seq<Bytes>, messages: seq<Received>,
                       closed': bool, pongs': seq<Bytes>, messages': seq<Received>) {
    && closed' == (closed || r.Refuse? || (r.Take? && r.opcode == CLOSE))
    && pongs' == pongs + (if r.Take? && r.opcode == PING then [r.payload] else [])
    && messages' == messages +
         (if r.Take? && (r.opcode == CONTINUATION || r.opcode == TEXT || r.opcode == BINARY)
          then [Received(r.payload, r.opcode == TEXT)] else [])
  }

  /** A server connection upgraded to WebSocket: its receive buffer, the frames it answered with
      and the messages its handler got. */
  class HttpServerConnection {
    const rxbuf: array<bv8>
    var used: nat
    var closed: bool
    var pongs: seq<Bytes>
    var messages: seq<Received>

    predicate Valid()
      reads this
    {
      used <= rxbuf.Length
    }

    constructor (size: nat)
      ensures Valid() && used == 0 && !closed && pongs == [] && messages == [] && rxbuf.Length == size
    {
      rxbuf := new bv8[size];
      used, closed, pongs, messages := 0, false, [], [];
    }

    /** The start of ParseOneWebsocketFrame, up to the masking key. */
    method ReadHeader() returns (h: Option<Header>)
      requires Valid()
      ensures h == HeaderOf(rxbuf[..used])
    {
      hide FromBigEndian;
      if used < 2 { return None; }
      var h0, h1 := rxbuf[0], rxbuf[1];
      var payloadLen: nat := (h1 & 0x7f) as int;
      var extended := if h1 & 0x7f == 126 then 2 else if h1 & 0x7f == 127 then 8 else 0;
      if extended > 0 {
        if used - 2 < extended { return None; }
        payloadLen := ReadLength(extended);
        assert rxbuf[..used][2..2 + extended] == rxbuf[2..2 + extended];
      }
      h := Some(Header(h0 & 0x80 != 0, h0 & 0x0f, h1 & 0x80 != 0, payloadLen, 2 + extended));
    }

    /** ParseOneWebsocketFrame, which unmasks the payload where it lies in the buffer. */
    method ParseOneWebsocketFrame(maxPayload: nat) returns (consumed: nat)
      requires Valid()
      modifies rxbuf, `closed, `pongs, `messages
      ensures consumed <= used && rxbuf[consumed..used] == old(rxbuf[consumed..used])
      ensures consumed == SizeTaken(ParseOnServer(old(rxbuf[..used]), maxPayload))
      ensures Dispatched(ParseOnServer(old(rxbuf[..used]), maxPayload), old(closed), old(pongs), old(messages), closed, pongs, messages)
    {
      hide HeaderOf, Masked;
      ghost var data := rxbuf[..used];
      var h := ReadHeader();
      if h == None { return 0; }
      var rd := h.value.size;
      if h.value.len >= maxPayload || !h.value.masked {
        closed := true;
        return 0;
      }
      if used - rd < 4 { return 0; }
      var mask := rxbuf[rd..rd + 4];
      SliceOfPrefix(rxbuf, used, rd, rd + 4);
      rd := rd + 4;
      if used - rd < h.value.len { return 0; }
      var payload := UnmaskInBuffer(rd, h.value.len, mask);
      assert ParseOnServer(data, maxPayload) == Take(h.value.opcode, payload, rd + h.value.len);
      consumed := rd + h.value.len;
      hide PayloadOf, ParseOnServer;
      Dispatch(h.value.opcode, payload);
    }

    method UnmaskInBuffer(rd: nat, len: nat, mask: Bytes) returns (payload: Bytes)
      requires Valid() && rd + len <= used && |mask| == 4
      modifies rxbuf
      ensures payload == Masked(old(rxbuf[..used])[rd..rd + len], mask)
      ensures rxbuf[rd + len..used] == old(rxbuf[rd + len..used])
    {
      SliceOfPrefix(rxbuf, used, rd, rd + len);
      ApplyMask(rxbuf, rd, len, mask);
      payload := rxbuf[rd..rd + len];
      assert rxbuf[rd + len..used] == rxbuf[rd + len..][..used - rd - len];
    }

    /** The loop over the extended length's bytes. */
    method ReadLength(size: nat) returns (len: nat)
      requires Valid() && 2 + size <= used
      ensures len == FromBigEndian(rxbuf[2..2 + size])
    {
      len := 0;
      for i := 0 to size
        invariant len == FromBigEndian(rxbuf[2..2 + i])
      {
        assert rxbuf[2..2 + (i + 1)][..i] == rxbuf[2..2 + i];
        len := len * 256 + rxbuf[2 + i] as int;
      }
    }

    method Dispatch(opcode: bv8, payload: Bytes)
      modifies `closed, `pongs, `messages
      ensures closed == (old(closed) || opcode == CLOSE)
      ensures pongs == old(pongs) + (if opcode == PING then [payload] else [])
      ensures messages == old(messages) + (if opcode == CONTINUATION || opcode == TEXT || opcode == BINARY then [Received(payload, opcode == TEXT)] else [])
    {
      if opcode == PING {
        pongs := pongs + [payload];
      } else if opcode == BINARY || opcode == TEXT || opcode == CONTINUATION {
        messages := messages + [Received(payload, opcode == TEXT)];
      } else if opcode == CLOSE {
        closed := true;
      }
    }
  }

  lemma SliceOfPrefix(a: array<bv8>, used: nat, from: nat, to: nat)
    requires from <= to <= used <= a.Length
    ensures a[..used][from..to] == a[from..to]
  {
  }
}
