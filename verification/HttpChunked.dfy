/** The HTTP client's decoder of chunked bodies, fed by whatever the transport delivers.

    The response announces "Transfer-Encoding: chunked", is not a redirect, and no listener cancels. */
module HttpChunked {
  import opened Options
  import opened JsonParser
  import opened Text
  import opened Integers

  // ----- Sizes -----

  /** The hexadecimal digits s begins with: their value after `v`, and what follows them. */
  function HexDigits(s: string, v: nat): (nat, string)
    decreases |s|
  {
    if |s| > 0 && IsHex(s[0]) then HexDigits(s[1..], v * 16 + HexValue(s[0])) else (v, s)
  }

  const UINT64 := 0x1_0000_0000_0000_0000

  function SkipPrefix(s: string): string {
    if |s| >= 3 && s[0] == '0' && (s[1] == 'x' || s[1] == 'X') && IsHex(s[2]) then s[2..] else s
  }

  /** StringToUInt64(s, 16): strtoull, which skips spaces, takes a sign and a prefix, and stops at
      the largest value; the whole text must be used. */
  function HexSize(text: string): Option<nat> {
    var s := SkipWs(CStr(text));
    var signed := s != "" && (s[0] == '+' || s[0] == '-');
    var digits := SkipPrefix(if signed then s[1..] else s);
    var (v, rest) := HexDigits(digits, 0);
    if digits == "" || !IsHex(digits[0]) || rest != "" then None
    else if v >= UINT64 then Some(UINT64 - 1)
    else Some(if signed && s[0] == '-' then (UINT64 - v) % UINT64 else v)
  }

  /** chunk_size + 2 as the size_t it is compared as. */
  function Room(size: Int32): (r: nat)
    ensures 0 <= size + 2 < 0x8000_0000 ==> r == size + 2
    ensures size > 0 ==> r >= size + 2
  {
    ToInt(size + 2) % UINT64
  }

  /** Sizes for which chunk_size + 2 is no overflow. */
  predicate Fits(n: nat) {
    n + 2 < 0x8000_0000
  }

  // ----- The decoder -----

  datatype Outcome = Receiving | Completed | Failed | Thrown

  /** current_, as far as the body decoder uses it.  `keeps`: the listener wants the body kept.
      `pieces` are the calls of OnBodyData with a chunk's data, `overlong` counts those with a
      negative length, `signals` the completions signalled. */
  datatype State = State(
    headers: Option<string>, buffer: string, chunkSize: Int32, body: string, pieces: seq<string>,
    outcome: Outcome, signals: nat, keeps: bool, overlong: nat)

  function Fail(b: State): State {
    b.(outcome := Failed)
  }

  function Complete(b: State): State {
    b.(outcome := Completed, signals := b.signals + 1)
  }

  /** The section after the last chunk: an empty line, or lines and an empty line. */
  function Trailer(b: State): State {
    if |b.buffer| >= 2 && b.buffer[..2] == CRLF then Complete(b.(buffer := b.buffer[2..]))
    else match Find(b.buffer, BLANK_LINE)
      case Some(end) => Complete(b.(buffer := b.buffer[end + 4..]))
      case None => b
  }

  /** The size line ending at `end` is used up. */
  function SizeRead(b: State, end: nat, size: Int32): State
    requires end + 2 <= |b.buffer|
  {
    b.(chunkSize := size, buffer := b.buffer[end + 2..])
  }

  function TakeChunk(b: State): State
    requires 0 < b.chunkSize && Room(b.chunkSize) <= |b.buffer|
  {
    var data := b.buffer[..b.chunkSize];
    b.(body := if b.keeps then b.body + data else b.body, pieces := b.pieces + [data],
       buffer := b.buffer[Room(b.chunkSize)..], chunkSize := -1)
  }

  /** A negative size: keeping that much of the view throws. */
  function TakeNegative(b: State): State
    requires b.chunkSize < 0 && Room(b.chunkSize) <= |b.buffer|
  {
    var told := b.(overlong := b.overlong + 1);
    if b.keeps then told.(outcome := Thrown) else told.(buffer := b.buffer[Room(b.chunkSize)..], chunkSize := -1)
  }

  /** ProcessChunkedBody, from the top of its loop. */
  function Process(b: State): State
    decreases 2 * |b.buffer| + if b.chunkSize >= 0 then 2 else 0
  {
    match Find(b.buffer, CRLF)
    case None => b
    case Some(end) =>
      if b.chunkSize >= 0 then Sized(b)
      else match HexSize(b.buffer[..end])
        case None => Fail(b)
        case Some(n) => Sized(SizeRead(b, end, ToInt(n)))
  }

  /** The rest of the loop, once the size is known. */
  function Sized(b: State): State
    decreases 2 * |b.buffer| + 1
  {
    if b.chunkSize == 0 then Trailer(b)
    else if |b.buffer| < Room(b.chunkSize) then b
    else if b.chunkSize > 0 then Process(TakeChunk(b))
    else if b.keeps then TakeNegative(b)
    else Process(TakeNegative(b))
  }

  /** OnDataReceived and ProcessReceivedData. */
  function OnData(b: State, data: string): State {
    if b.outcome != Receiving then b else Received(More(b, data))
  }

  function More(b: State, more: string): State {
    b.(buffer := b.buffer + more)
  }

  function Received(b: State): State {
    if b.headers.Some? then Process(b)
    else match Find(b.buffer, BLANK_LINE)
      case None => b
      case Some(end) => Process(Headed(b, end))
  }

  /** The headers are taken off. */
  function Headed(b: State, end: nat): State
    requires end + 4 <= |b.buffer|
  {
    b.(headers := Some(b.buffer[..end]), buffer := b.buffer[end + 4..])
  }

  function OnReads(b: State, chunks: seq<string>): State
    decreases |chunks|
  {
    if |chunks| == 0 then b else OnReads(OnData(b, chunks[0]), chunks[1..])
  }

  function Start(keeps: bool): State {
    State(None, "", -1, "", [], Receiving, 0, keeps, 0)
  }

  // ----- What a text comes to -----

  /** How the sizes of a body work out: as chunks; as chunks, the last of them taken although no line
      end follows its size line; up to a negative size that stops the read, with another line behind
      it; or up to a negative size that has as many characters behind it as are compared with it. */
  datatype Ending = Plain | OpenChunk | Stalled | Overrun

  function EndingOf(s: string, keeps: bool): Ending
    decreases 2 * |s|
  {
    match Find(s, CRLF)
    case None => Plain
    case Some(end) =>
      match HexSize(s[..end])
      case None => Plain
      case Some(n) => SizedEnding(ToInt(n), s[end + 2..], keeps)
  }

  /** -2 asks for no characters at all, so the loop goes on or throws at once. */
  function SizedEnding(size: Int32, s: string, keeps: bool): Ending
    decreases 2 * |s| + 1
  {
    if size == 0 then Plain
    else if |s| < Room(size) then if size < 0 && Find(s, CRLF).Some? then Stalled else Plain
    else if size > 0 then if Find(s, CRLF) == None then OpenChunk else EndingOf(s[Room(size)..], keeps)
    else if size == -2 then if keeps then Plain else EndingOf(s, keeps)
    else Overrun
  }

  /** The same of what a decoder still has to read, headers first. */
  function EndingFrom(headers: Option<string>, s: string, keeps: bool): Ending {
    if headers.Some? then EndingOf(s, keeps)
    else match Find(s, BLANK_LINE)
      case None => Plain
      case Some(end) => EndingOf(s[end + 4..], keeps)
  }

  // ----- Cuts -----

  /** The same to everybody; once over, what is left in the buffer does not matter. */
  predicate Agree(x: State, y: State) {
    if x.outcome == Receiving then x == y
    else x.(buffer := "", chunkSize := 0) == y.(buffer := "", chunkSize := 0)
  }

  /** The guard at the top of the loop holds up a whole chunk: there is no line end in the buffer, and
      none is needed to take it. */
  predicate Lagging(x: State) {
    x.outcome == Receiving && x.chunkSize > 0 && Room(x.chunkSize) <= |x.buffer| && Find(x.buffer, CRLF) == None
  }

  /** With that chunk taken. */
  function CaughtUp(x: State): State {
    if Lagging(x) then TakeChunk(x) else x
  }

  /** The sizes a read can end waiting with. */
  predicate Pending(size: Int32) {
    size >= 0 || size < -2
  }

  /** The headers, once in, stay; before that no size is known. */
  predicate Ready(x: State) {
    x.outcome == Receiving ==> x.chunkSize != -2 && (x.headers.None? ==> x.chunkSize == -1)
  }

  /** What a decoder makes of more data if it goes on where it was, without the test at the top of the
      loop and without taking a negative size for none. */
  function Resume(x: State, s: string): State {
    if x.outcome != Receiving then x
    else if Pending(x.chunkSize) then Sized(More(x, s))
    else Received(More(x, s))
  }

  function ResumeEnding(x: State, s: string): Ending {
    if x.outcome != Receiving then Plain
    else if Pending(x.chunkSize) then SizedEnding(x.chunkSize, x.buffer + s, x.keeps)
    else EndingFrom(x.headers, x.buffer + s, x.keeps)
  }

  /** Seen from later on, an open chunk may be behind already. */
  predicate Continues(part: Ending, whole: Ending) {
    part == whole || (part == Plain && whole == OpenChunk)
  }

  lemma AgreeSelf(x: State)
    ensures Agree(x, x)
  {
  }

  lemma AgreeOver(x: State, y: State)
    requires x.outcome != Receiving && x.(buffer := "") == y.(buffer := "")
    ensures Agree(x, y)
  {
  }

  lemma AgreeTrans(x: State, y: State, z: State)
    requires Agree(x, y) && Agree(y, z)
    ensures Agree(x, z)
  {
  }

  lemma AgreeSame(x: State, y: State, z: State)
    requires Agree(y, z)
    ensures Agree(x, y) <==> Agree(x, z)
  {
  }

  lemma TrailerSplit(b: State, more: string)
    requires b.outcome == Receiving
    ensures Trailer(b).headers == b.headers
    ensures Trailer(b).outcome == Receiving ==> Trailer(b) == b
    ensures Trailer(b).outcome != Receiving ==> Agree(Trailer(b), Trailer(More(b, more)))
  {
    assert |b.buffer| >= 2 ==> (b.buffer + more)[..2] == b.buffer[..2];
    if Find(b.buffer, BLANK_LINE).Some? { FindStable(b.buffer, more, BLANK_LINE); }
    BlankLineNotAtStart(b.buffer, more);
    hide Find;
  }

  lemma BlankLineNotAtStart(s: string, more: string)
    ensures |s| >= 2 || Find(s, BLANK_LINE) == None
  {
  }

  lemma TakeChunkMore(b: State, more: string)
    requires 0 < b.chunkSize && Room(b.chunkSize) <= |b.buffer|
    ensures TakeChunk(More(b, more)) == More(TakeChunk(b), more)
  {
    var s := b.buffer + more;
    assert s[..b.chunkSize] == b.buffer[..b.chunkSize];
    assert s[Room(b.chunkSize)..] == b.buffer[Room(b.chunkSize)..] + more;
  }

  lemma TakeChunkKeeps(b: State)
    requires 0 < b.chunkSize && Room(b.chunkSize) <= |b.buffer|
    ensures var c := TakeChunk(b);
      && c.outcome == b.outcome && c.headers == b.headers && c.keeps == b.keeps && c.chunkSize == -1
      && c.buffer == b.buffer[Room(b.chunkSize)..] && |c.buffer| < |b.buffer|
  {
  }

  /** A size of -2 costs nothing. */
  lemma TakeMinusTwo(b: State, more: string)
    requires b.chunkSize == -2
    ensures Room(-2) == 0 && TakeNegative(More(b, more)).overlong == TakeNegative(b).overlong
    ensures var c := TakeNegative(b);
      && c.headers == b.headers && c.keeps == b.keeps && c.buffer == b.buffer
      && TakeNegative(More(b, more)) == More(c, more)
      && (if b.keeps then c.outcome == Thrown else c.outcome == b.outcome && c.chunkSize == -1)
  {
  }

  /** A read and then more, against both at once: the loop from its top... */
  lemma {:induction false} ProcessSplit(b: State, more: string)
    requires b.outcome == Receiving && b.headers.Some? && b.chunkSize == -1 && EndingOf(b.buffer + more, b.keeps) != Overrun
    ensures Process(b).headers == b.headers && Ready(Process(b))
    ensures Agree(Resume(Process(b), more), Process(More(b, more)))
    ensures Continues(ResumeEnding(Process(b), more), EndingOf(b.buffer + more, b.keeps))
    decreases 2 * |b.buffer|
  {
    hide Find, HexSize, Agree, Sized, SizedEnding, ToInt;
    match Find(b.buffer, CRLF) {
      case None => AgreeSelf(Process(More(b, more)));
      case Some(end) =>
        FindStable(b.buffer, more, CRLF);
        assert (b.buffer + more)[..end] == b.buffer[..end];
        assert (b.buffer + more)[end + 2..] == b.buffer[end + 2..] + more;
        match HexSize(b.buffer[..end]) {
          case None => AgreeOver(Fail(b), Fail(More(b, more)));
          case Some(n) =>
            var b1 := SizeRead(b, end, ToInt(n));
            assert Process(b) == Sized(b1) && Process(More(b, more)) == Sized(More(b1, more));
            SizedSplit(b1, more);
        }
    }
  }

  /** ...and from where the size is known. */
  lemma {:induction false} SizedSplit(b: State, more: string)
    requires b.outcome == Receiving && b.headers.Some? && SizedEnding(b.chunkSize, b.buffer + more, b.keeps) != Overrun
    ensures Sized(b).headers == b.headers && Ready(Sized(b))
    ensures Agree(Resume(Sized(b), more), Sized(More(b, more)))
    ensures Continues(ResumeEnding(Sized(b), more), SizedEnding(b.chunkSize, b.buffer + more, b.keeps))
    decreases 2 * |b.buffer| + 1
  {
    hide Find, Agree, Trailer, TakeChunk, TakeNegative, Process, EndingOf;
    if b.chunkSize == 0 {
      TrailerSplit(b, more);
      AgreeSelf(Sized(More(b, more)));
    } else if |b.buffer| < Room(b.chunkSize) {
      SizedWaits(b, more);
    } else if b.chunkSize > 0 {
      TakeChunkMore(b, more);
      TakeChunkKeeps(b);
      TakeChunkKeeps(More(b, more));
      if Find(b.buffer + more, CRLF) == None { NoLineNoEnding(b.buffer + more, Room(b.chunkSize), b.keeps); }
      ProcessSplit(TakeChunk(b), more);
    } else {
      TakeMinusTwo(b, more);
      if b.keeps { AgreeOver(TakeNegative(b), TakeNegative(More(b, more))); } else { ProcessSplit(TakeNegative(b), more); }
    }
  }

  lemma NoLineNoEnding(s: string, from: nat, keeps: bool)
    requires from <= |s| && Find(s, CRLF) == None
    ensures EndingOf(s[from..], keeps) == Plain
  {
    NothingLeft(s, from);
    hide Find;
  }

  /** -1 waits only as long as nothing comes. */
  lemma SizedWaits(b: State, more: string)
    requires b.outcome == Receiving && b.headers.Some? && SizedEnding(b.chunkSize, b.buffer + more, b.keeps) != Overrun
    requires b.chunkSize != 0 && |b.buffer| < Room(b.chunkSize)
    ensures Sized(b) == b && Ready(b)
    ensures Agree(Resume(b, more), Sized(More(b, more)))
    ensures ResumeEnding(b, more) == SizedEnding(b.chunkSize, b.buffer + more, b.keeps)
  {
    hide Trailer, TakeChunk, TakeNegative;
    if b.chunkSize == -1 {
      assert b.buffer == more == b.buffer + more == "";
      assert Find("", CRLF) == None;
      assert More(b, more) == b;
    }
    hide Find, Process, EndingOf;
    assert b.chunkSize != -2;
    AgreeSelf(Sized(More(b, more)));
  }

  lemma ReceivedSplit(b: State, more: string)
    requires b.outcome == Receiving && b.chunkSize == -1 && EndingFrom(b.headers, b.buffer + more, b.keeps) != Overrun
    ensures Ready(Received(b))
    ensures Agree(Resume(Received(b), more), Received(More(b, more)))
    ensures Continues(ResumeEnding(Received(b), more), EndingFrom(b.headers, b.buffer + more, b.keeps))
  {
    hide Process, Agree, Find, EndingOf, SizedEnding, ResumeEnding, Resume;
    if b.headers.Some? {
      ProcessSplit(b, more);
    } else if Find(b.buffer, BLANK_LINE).Some? {
      var end := Find(b.buffer, BLANK_LINE).value;
      FindStable(b.buffer, more, BLANK_LINE);
      assert (b.buffer + more)[..end] == b.buffer[..end];
      assert (b.buffer + more)[end + 4..] == b.buffer[end + 4..] + more;
      ProcessSplit(Headed(b, end), more);
    } else {
      ReceivedNothing(b, more);
    }
  }

  lemma ReceivedNothing(b: State, more: string)
    requires b.outcome == Receiving && b.chunkSize == -1 && Received(b) == b
    ensures Agree(Resume(b, more), Received(More(b, more)))
    ensures ResumeEnding(b, more) == EndingFrom(b.headers, b.buffer + more, b.keeps)
  {
    hide Received, EndingFrom;
  }

  lemma MoreMore(x: State, first: string, rest: string)
    ensures More(More(x, first), rest) == More(x, first + rest) && x.buffer + first + rest == x.buffer + (first + rest)
  {
  }

  lemma ResumeSplit(x: State, first: string, rest: string)
    requires Ready(x) && ResumeEnding(x, first + rest) != Overrun
    ensures var y := Resume(x, first);
      && Ready(y)
      && Agree(Resume(y, rest), Resume(x, first + rest))
      && Continues(ResumeEnding(y, rest), ResumeEnding(x, first + rest))
  {
    MoreMore(x, first, rest);
    hide Sized, Received, SizedEnding, EndingFrom;
    if x.outcome == Receiving {
      if Pending(x.chunkSize) { SizedSplit(More(x, first), rest); } else { ReceivedSplit(More(x, first), rest); }
    }
  }

  /** The loop from its top tests for a line end first, and that only matters before a chunk. */
  lemma ProcessIsSized(b: State)
    requires b.outcome == Receiving && b.chunkSize >= 0
    ensures Process(b) == if Lagging(b) then b else Sized(b)
    ensures Lagging(b) ==> Sized(b) == TakeChunk(b)
  {
    if b.chunkSize == 0 {
      ProcessTrailer(b);
    } else if Lagging(b) {
      NothingLeft(b.buffer, Room(b.chunkSize));
    }
    hide Find;
  }

  lemma NothingLeft(s: string, from: nat)
    requires from <= |s| && Find(s, CRLF) == None
    ensures Find(s[from..], CRLF) == None
  {
    if Find(s[from..], CRLF).Some? {
      var i := Find(s[from..], CRLF).value;
      FindSound(s[from..], CRLF);
      assert s[from + i..from + i + 2] == s[from..][i..i + 2];
      FindWithin(s, from + i, CRLF);
    }
  }

  lemma ProcessTrailer(b: State)
    requires b.chunkSize == 0
    ensures Process(b) == Trailer(b)
  {
    if |b.buffer| >= 2 && b.buffer[..2] == CRLF { FindWithin(b.buffer, 0, CRLF); }
    if Find(b.buffer, BLANK_LINE).Some? {
      var i := Find(b.buffer, BLANK_LINE).value;
      FindSound(b.buffer, BLANK_LINE);
      assert b.buffer[i..i + 2] == b.buffer[i..i + 4][..2] == CRLF;
      FindWithin(b.buffer, i, CRLF);
    }
  }

  /** A decoder that has just read a size or taken a chunk does not lag. */
  lemma {:induction false} ProcessNotLagging(b: State)
    requires b.chunkSize < 0
    ensures !Lagging(Process(b))
    decreases 2 * |b.buffer|
  {
    hide Find, HexSize;
    match Find(b.buffer, CRLF) {
      case None =>
      case Some(end) =>
        if HexSize(b.buffer[..end]).Some? {
          SizedNotLagging(SizeRead(b, end, ToInt(HexSize(b.buffer[..end]).value)));
        }
    }
  }

  lemma {:induction false} SizedNotLagging(b: State)
    ensures !Lagging(Sized(b))
    decreases 2 * |b.buffer| + 1
  {
    hide Find, Process;
    if b.chunkSize != 0 && Room(b.chunkSize) <= |b.buffer| {
      if b.chunkSize > 0 {
        ProcessNotLagging(TakeChunk(b));
      } else if !b.keeps {
        ProcessNotLagging(TakeNegative(b));
      }
    }
  }

  /** A read makes of a state what going on makes of it, up to one chunk; unless a negative size meets
      another line. */
  lemma ReadCatchesUp(x: State, data: string)
    requires Ready(x) && (x.outcome == Receiving && x.chunkSize < -2 ==> ResumeEnding(x, data) == Plain)
    ensures CaughtUp(OnData(x, data)) == Resume(x, data)
    ensures Lagging(OnData(x, data)) <==> Lagging(More(x, data))
    ensures Lagging(OnData(x, data)) ==> OnData(x, data) == More(x, data) && x.chunkSize > 0
  {
    hide Find, Process, Sized, EndingOf, EndingFrom;
    var y := More(x, data);
    if x.outcome == Receiving {
      if x.chunkSize >= 0 {
        ProcessIsSized(y);
        SizedNotLagging(y);
      } else if x.chunkSize < -2 {
        Idle(y);
      } else if x.headers.Some? {
        ProcessNotLagging(y);
      } else if Find(y.buffer, BLANK_LINE).Some? {
        ProcessNotLagging(Headed(y, Find(y.buffer, BLANK_LINE).value));
      }
    }
  }

  lemma Idle(x: State)
    requires x.chunkSize < 0 && Find(x.buffer, CRLF) == None && |x.buffer| < Room(x.chunkSize)
    ensures Process(x) == x && Sized(x) == x
  {
    hide Find;
  }

  /** Part of the data brings no more trouble than all of it. */
  lemma EndingBefore(x: State, first: string, rest: string)
    requires Ready(x) && ResumeEnding(x, first + rest) != Overrun && ResumeEnding(x, first + rest) != Stalled
    requires x.outcome == Receiving && x.chunkSize < -2
    ensures ResumeEnding(x, first) == Plain
  {
    MoreMore(x, first, rest);
    if Find(x.buffer + first, CRLF).Some? { FindStable(x.buffer + first, rest, CRLF); }
    hide Find, EndingOf;
  }

  lemma ReadSplit(x: State, first: string, rest: string)
    requires Ready(x) && ResumeEnding(x, first + rest) != Overrun && ResumeEnding(x, first + rest) != Stalled
    ensures var y := OnData(x, first);
      && Ready(y)
      && Agree(Resume(y, rest), Resume(x, first + rest))
      && Continues(ResumeEnding(y, rest), ResumeEnding(x, first + rest))
  {
    if x.outcome == Receiving && x.chunkSize < -2 { EndingBefore(x, first, rest); }
    ReadCatchesUp(x, first);
    if Lagging(OnData(x, first)) {
      MoreMore(x, first, rest);
      AgreeSelf(Resume(x, first + rest));
      hide Sized, Lagging, SizedEnding;
    } else {
      ResumeSplit(x, first, rest);
      hide Resume, OnData, Lagging, Agree, ResumeEnding;
    }
  }

  lemma OneRead(x: State, data: string)
    ensures OnReads(x, [data]) == OnData(x, data) && Concat([data]) == data
  {
    hide OnData;
    assert [data][1..] == [];
    assert OnReads(OnData(x, data), []) == OnData(x, data);
    assert Concat<char>([]) == [];
  }

  /** Any reads, from a decoder that may lag already. */
  lemma {:induction false} ReadsCatchUp(x: State, chunks: seq<string>)
    requires |chunks| > 0 && Ready(x) && ResumeEnding(x, Concat(chunks)) != Overrun && ResumeEnding(x, Concat(chunks)) != Stalled
    ensures Agree(CaughtUp(OnReads(x, chunks)), Resume(x, Concat(chunks)))
    ensures Lagging(OnReads(x, chunks)) ==> ResumeEnding(x, Concat(chunks)) == OpenChunk
    decreases |chunks|
  {
    hide Resume, OnData, Lagging, Agree, ResumeEnding, CaughtUp;
    var first := chunks[0];
    if |chunks| == 1 {
      assert chunks == [first];
      OneRead(x, first);
      NotStalled(x, first);
      ReadCatchesUp(x, first);
      AgreeSelf(Resume(x, first));
      if Lagging(OnData(x, first)) { LaggingIsOpen(x, first); }
    } else {
      var rest := Concat(chunks[1..]);
      ReadSplit(x, first, rest);
      ReadsCatchUp(OnData(x, first), chunks[1..]);
      AgreeTrans(CaughtUp(OnReads(x, chunks)), Resume(OnData(x, first), rest), Resume(x, first + rest));
    }
  }

  lemma NotStalled(x: State, data: string)
    requires ResumeEnding(x, data) != Overrun && ResumeEnding(x, data) != Stalled
    ensures x.outcome == Receiving && x.chunkSize < -2 ==> ResumeEnding(x, data) == Plain
  {
    hide Find, Room, EndingOf, EndingFrom;
  }

  lemma LaggingIsOpen(x: State, data: string)
    requires x.chunkSize > 0 && Lagging(More(x, data))
    ensures ResumeEnding(x, data) == OpenChunk
  {
    hide Find, Room, EndingOf;
  }

  /** A response in which no negative size meets another line, however it is cut into reads: the decoder
      has done what one read does, except that it may have one last chunk to take. */
  lemma CutsLag(b: State, chunks: seq<string>)
    requires |chunks| > 0 && b.outcome == Receiving && b.chunkSize == -1
    requires var e := EndingFrom(b.headers, b.buffer + Concat(chunks), b.keeps); e == Plain || e == OpenChunk
    ensures Agree(CaughtUp(OnReads(b, chunks)), OnData(b, Concat(chunks)))
    ensures Agree(OnReads(b, chunks), OnData(b, Concat(chunks))) <==> !Lagging(OnReads(b, chunks))
    ensures Lagging(OnReads(b, chunks)) ==> EndingFrom(b.headers, b.buffer + Concat(chunks), b.keeps) == OpenChunk
  {
    ReadsCatchUp(b, chunks);
    hide OnReads, Received, EndingFrom, Find, Concat;
    assert Resume(b, Concat(chunks)) == OnData(b, Concat(chunks));
  }

  /** A read differs from going on exactly where it leaves a whole chunk with no line end, or takes
      another line after a negative size. */
  predicate Differs(d: State, rest: string) {
    && d.outcome == Receiving
    && if Find(d.buffer + rest, CRLF) == None then d.chunkSize > 0 && Room(d.chunkSize) <= |d.buffer + rest| else d.chunkSize < -2
  }

  lemma ReadDiffers(d: State, rest: string)
    requires Ready(d) && ResumeEnding(d, rest) != Overrun
    ensures Agree(OnData(d, rest), Resume(d, rest)) <==> !Differs(d, rest)
  {
    if d.outcome == Receiving && d.chunkSize < -2 {
      MinusDiffers(d, rest);
    } else {
      ReadCatchesUp(d, rest);
      AgreeSelf(Resume(d, rest));
      hide OnData, Resume, Find, Room;
    }
  }

  lemma MinusDiffers(d: State, rest: string)
    requires d.outcome == Receiving && d.chunkSize < -2 && Ready(d) && ResumeEnding(d, rest) != Overrun
    ensures Agree(OnData(d, rest), Resume(d, rest)) <==> Find(d.buffer + rest, CRLF) == None
  {
    ReadsSizeLine(More(d, rest));
    hide Find, Process, Agree, EndingOf, Trailer;
    assert Sized(More(d, rest)) == More(d, rest);
    assert OnData(d, rest) == Process(More(d, rest));
  }

  /** Two reads agree with one exactly when the second finds neither; -1 with something behind it apart. */
  lemma CutMatters(b: State, first: string, rest: string)
    requires b.outcome == Receiving && b.chunkSize == -1 && EndingFrom(b.headers, b.buffer + (first + rest), b.keeps) != Overrun
    ensures Agree(OnData(OnData(b, first), rest), OnData(b, first + rest)) <==> !Differs(OnData(b, first), rest)
  {
    hide Find, ResumeEnding, EndingFrom, Agree, Process, Differs;
    MoreMore(b, first, rest);
    ReceivedSplit(More(b, first), rest);
    var d := OnData(b, first);
    ReadDiffers(d, rest);
    AgreeSame(OnData(d, rest), Resume(d, rest), OnData(b, first + rest));
  }

  lemma TwoReads(b: State, x: string, y: string)
    ensures OnReads(b, [x, y]) == OnData(OnData(b, x), y) && Concat([x, y]) == x + y
  {
    hide OnData;
    assert [x, y][1..] == [y];
    OneRead(OnData(b, x), y);
  }

  // ----- Texts for which no cut matters -----

  lemma FindInPrefix(s: string, i: nat, pattern: string)
    requires pattern != "" && Find(s, pattern).Some? && Find(s, pattern).value + |pattern| <= i <= |s|
    ensures Find(s[..i], pattern) == Find(s, pattern)
  {
    hide Find;
    var end := Find(s, pattern).value;
    FindSound(s, pattern);
    assert s[..i][end..end + |pattern|] == s[end..end + |pattern|];
    FindWithin(s[..i], end, pattern);
    assert s == s[..i] + s[i..];
    FindStable(s[..i], s[i..], pattern);
  }

  /** The bad cut: behind the last size line. */
  lemma {:induction false} OpenCut(b: State) returns (i: nat)
    requires b.outcome == Receiving && b.headers.Some? && b.chunkSize == -1
    requires EndingOf(b.buffer, b.keeps) == OpenChunk || EndingOf(b.buffer, b.keeps) == Stalled
    ensures i <= |b.buffer| && Differs(Process(b.(buffer := b.buffer[..i])), b.buffer[i..])
    decreases 2 * |b.buffer|
  {
    hide Find, HexSize, Sized, SizedEnding, ToInt, Differs;
    var end := Find(b.buffer, CRLF).value;
    var n := HexSize(b.buffer[..end]).value;
    var b1 := SizeRead(b, end, ToInt(n));
    var j := SizedOpenCut(b1);
    i := end + 2 + j;
    FindInPrefix(b.buffer, i, CRLF);
    assert b.buffer[..i][..end] == b.buffer[..end];
    assert b.buffer[..i][end + 2..] == b1.buffer[..j];
    assert b.buffer[i..] == b1.buffer[j..];
    assert Process(b.(buffer := b.buffer[..i])) == Sized(b1.(buffer := b1.buffer[..j]));
  }

  lemma {:induction false} SizedOpenCut(b: State) returns (i: nat)
    requires b.outcome == Receiving && b.headers.Some?
    requires var e := SizedEnding(b.chunkSize, b.buffer, b.keeps); e == OpenChunk || e == Stalled
    ensures i <= |b.buffer| && Differs(Sized(b.(buffer := b.buffer[..i])), b.buffer[i..])
    decreases 2 * |b.buffer| + 1
  {
    hide Find, Process, EndingOf, TakeNegative;
    if |b.buffer| < Room(b.chunkSize) || (b.chunkSize > 0 && Find(b.buffer, CRLF) == None) {
      i := 0;
      assert b.buffer[..0] == "" && "" + b.buffer[0..] == b.buffer;
      assert b.chunkSize == -1 ==> b.buffer == "";
      NoLineInNothing();
    } else if b.chunkSize > 0 {
      TakeChunkKeeps(b);
      var j := OpenCut(TakeChunk(b));
      i := Room(b.chunkSize) + j;
      SameChunk(b, j);
      assert b.buffer[i..] == TakeChunk(b).buffer[j..];
    } else {
      TakeMinusTwo(b, "");
      i := OpenCut(TakeNegative(b));
      SameMinusTwo(b, b.buffer[..i]);
    }
  }

  lemma NoLineInNothing()
    ensures Find("", CRLF) == None
  {
  }

  lemma SameMinusTwo(b: State, s: string)
    requires b.chunkSize == -2 && !b.keeps
    ensures TakeNegative(b.(buffer := s)) == TakeNegative(b).(buffer := s)
  {
  }

  lemma SameChunk(b: State, j: nat)
    requires 0 < b.chunkSize && Room(b.chunkSize) + j <= |b.buffer|
    ensures TakeChunk(b.(buffer := b.buffer[..Room(b.chunkSize) + j])) == TakeChunk(b).(buffer := TakeChunk(b).buffer[..j])
  {
    var s := b.buffer[..Room(b.chunkSize) + j];
    assert s[..b.chunkSize] == b.buffer[..b.chunkSize];
    assert s[Room(b.chunkSize)..] == b.buffer[Room(b.chunkSize)..][..j];
  }

  lemma ReceivedOpenCut(b: State) returns (i: nat)
    requires b.outcome == Receiving && b.chunkSize == -1
    requires var e := EndingFrom(b.headers, b.buffer, b.keeps); e == OpenChunk || e == Stalled
    ensures i <= |b.buffer| && Differs(Received(b.(buffer := b.buffer[..i])), b.buffer[i..])
  {
    hide Find, Process, EndingOf, Differs;
    if b.headers.Some? {
      i := OpenCut(b);
    } else {
      var end := Find(b.buffer, BLANK_LINE).value;
      var j := OpenCut(Headed(b, end));
      i := end + 4 + j;
      FindInPrefix(b.buffer, i, BLANK_LINE);
      assert b.buffer[..i][..end] == b.buffer[..end];
      assert b.buffer[..i][end + 4..] == b.buffer[end + 4..][..j];
      assert b.buffer[i..] == b.buffer[end + 4..][j..];
    }
  }

  /** A response is decoded the same however it is cut exactly when its last chunk is followed by a line
      end somewhere behind the size line and no negative size by a line; -1 with something behind it
      apart. */
  lemma CutsDoNotMatter(b: State, text: string)
    requires b.outcome == Receiving && b.chunkSize == -1 && b.buffer == "" && EndingFrom(b.headers, text, b.keeps) != Overrun
    ensures (forall chunks: seq<string> | |chunks| > 0 && Concat(chunks) == text :: Agree(OnReads(b, chunks), OnData(b, text)))
            <==> EndingFrom(b.headers, text, b.keeps) == Plain
  {
    hide OnReads, OnData, Agree, EndingFrom, Concat, Lagging;
    assert "" + text == text;
    if EndingFrom(b.headers, text, b.keeps) == Plain {
      forall chunks: seq<string> | |chunks| > 0 && Concat(chunks) == text ensures Agree(OnReads(b, chunks), OnData(b, text)) {
        CutsLag(b, chunks);
      }
    } else {
      var chunks := SomeBadCut(b, text);
    }
  }

  lemma SomeBadCut(b: State, text: string) returns (chunks: seq<string>)
    requires b.outcome == Receiving && b.chunkSize == -1 && b.buffer == ""
    requires var e := EndingFrom(b.headers, text, b.keeps); e == OpenChunk || e == Stalled
    ensures |chunks| > 0 && Concat(chunks) == text && !Agree(OnReads(b, chunks), OnData(b, text))
  {
    hide OnReads, Agree, EndingFrom, Concat, Differs, Received;
    var i := ReceivedOpenCut(b.(buffer := text));
    var first, rest := text[..i], text[i..];
    assert text == first + rest && "" + text == text && "" + first == first;
    chunks := [first, rest];
    TwoReads(b, first, rest);
    CutMatters(b, first, rest);
  }

  // ----- Well-formed bodies -----

  /** A chunk: its size in hexadecimal digits, as RFC 9112, section 7.1, has it, and its data. */
  datatype Chunk = Chunk(size: string, data: string)

  predicate Digits(s: string) {
    s != "" && forall i :: 0 <= i < |s| ==> IsHex(s[i])
  }

  predicate ChunkOk(c: Chunk) {
    Digits(c.size) && HexDigits(c.size, 0).0 == |c.data| && 0 < |c.data| && Fits(|c.data|)
  }

  function ChunkText(c: Chunk): string {
    c.size + CRLF + c.data + CRLF
  }

  function ChunksText(cs: seq<Chunk>): string
    decreases |cs|
  {
    if |cs| == 0 then "" else ChunkText(cs[0]) + ChunksText(cs[1..])
  }

  function BodyText(cs: seq<Chunk>, zeros: string, trailers: seq<string>): string {
    ChunksText(cs) + (zeros + CRLF + (Lines(trailers) + CRLF))
  }

  function Datas(cs: seq<Chunk>): seq<string> {
    seq(|cs|, i requires 0 <= i < |cs| => cs[i].data)
  }

  lemma TrailerEnds(b: State, ls: seq<string>)
    requires forall i :: 0 <= i < |ls| ==> LineOk(ls[i])
    requires b.buffer == Lines(ls) + CRLF
    ensures Trailer(b) == Complete(b.(buffer := ""))
  {
    if |ls| == 0 {
      assert b.buffer[..2] == CRLF && b.buffer[2..] == "";
    } else {
      assert b.buffer == Lines(ls) + CRLF + "";
      FindTrailerEnd(ls, "");
      assert b.buffer[0] == ls[0][0] && b.buffer[..2][0] != CRLF[0];
      assert b.buffer[|b.buffer|..] == "";
    }
    hide Find;
  }

  lemma {:induction false} AllDigits(s: string, v: nat)
    requires forall i :: 0 <= i < |s| ==> IsHex(s[i])
    ensures HexDigits(s, v).1 == ""
    decreases |s|
  {
    hide IsHex;
    if |s| > 0 { AllDigits(s[1..], v * 16 + HexValue(s[0])); }
  }

  lemma {:induction false} DigitsCStr(s: string)
    requires forall i :: 0 <= i < |s| ==> IsHex(s[i])
    ensures CStr(s) == s
    decreases |s|
  {
    if |s| > 0 { DigitsCStr(s[1..]); }
  }

  /** What a run of hexadecimal digits reads as: its value, or the largest there is. */
  function Value(s: string): nat {
    var n := HexDigits(s, 0).0;
    if n < UINT64 then n else UINT64 - 1
  }

  lemma HexSizeOfDigits(s: string)
    requires Digits(s)
    ensures HexSize(s) == Some(Value(s))
  {
    DigitsCStr(s);
    AllDigits(s, 0);
    assert SkipWs(s) == s;
    assert |s| >= 2 ==> IsHex(s[1]);
    assert SkipPrefix(s) == s;
  }

  lemma DigitsNoReturn(s: string)
    requires Digits(s)
    ensures '\r' !in s
  {
  }

  function AfterChunk(b: State, data: string): State {
    b.(body := if b.keeps then b.body + data else b.body, pieces := b.pieces + [data])
  }

  /** A size line at the front of a text. */
  lemma SizeLineFound(size: string, rest: string, keeps: bool)
    requires Digits(size)
    ensures var s := size + CRLF + rest;
      && Find(s, CRLF) == Some(|size|) && HexSize(s[..|size|]) == Some(Value(size)) && s[|size| + 2..] == rest
      && EndingOf(s, keeps) == SizedEnding(ToInt(Value(size)), rest, keeps)
  {
    var s := size + CRLF + rest;
    DigitsNoReturn(size);
    FindLine(size, rest);
    HexSizeOfDigits(size);
    assert s[..|size|] == size && s[|size| + 2..] == rest;
    hide Find, HexSize, Digits, HexDigits, SizedEnding, ToInt, Value;
  }

  lemma SizeLine(b: State, size: string, rest: string)
    requires b.chunkSize < 0 && Digits(size) && b.buffer == size + CRLF + rest
    ensures Process(b) == Sized(b.(chunkSize := ToInt(Value(size)), buffer := rest))
  {
    SizeLineFound(size, rest, b.keeps);
    hide Find, HexSize, Digits, HexDigits, Sized, ToInt, EndingOf, SizedEnding, Value;
  }

  /** A chunk's data at the front of the buffer. */
  lemma DataTaken(b: State, data: string, rest: string)
    requires b.chunkSize == |data| && 0 < |data| && Fits(|data|) && b.buffer == data + CRLF + rest
    ensures Sized(b) == Process(AfterChunk(b, data).(buffer := rest, chunkSize := -1))
    ensures SizedEnding(b.chunkSize, b.buffer, b.keeps) == EndingOf(rest, b.keeps)
  {
    var s := b.buffer;
    hide Find, Process, Trailer, EndingOf;
    assert s[..|data|] == data && s[|data|..|data| + 2] == CRLF && s[|data| + 2..] == rest;
    FindWithin(s, |data|, CRLF);
    assert TakeChunk(b) == AfterChunk(b, data).(buffer := rest, chunkSize := -1);
  }

  lemma OneChunk(b: State, c: Chunk, rest: string)
    requires b.chunkSize == -1 && b.outcome == Receiving && ChunkOk(c)
    ensures Process(b.(buffer := ChunkText(c) + rest)) == Process(AfterChunk(b, c.data).(buffer := rest))
    ensures EndingOf(ChunkText(c) + rest, b.keeps) == EndingOf(rest, b.keeps)
  {
    hide Process, Sized, Digits, HexDigits, EndingOf, SizedEnding;
    var tail := c.data + CRLF + rest;
    assert ChunkText(c) + rest == c.size + CRLF + tail;
    SizeLine(b.(buffer := c.size + CRLF + tail), c.size, tail);
    SizeLineFound(c.size, tail, b.keeps);
    var b1 := b.(chunkSize := |c.data|, buffer := tail);
    DataTaken(b1, c.data, rest);
    assert AfterChunk(b1, c.data).(buffer := rest, chunkSize := -1) == AfterChunk(b, c.data).(buffer := rest);
  }

  function AfterChunks(b: State, cs: seq<Chunk>): State
    decreases |cs|
  {
    if |cs| == 0 then b else AfterChunks(AfterChunk(b, cs[0].data), cs[1..])
  }

  lemma {:induction false} AllChunks(b: State, cs: seq<Chunk>, rest: string)
    requires b.chunkSize == -1 && b.outcome == Receiving && forall i :: 0 <= i < |cs| ==> ChunkOk(cs[i])
    ensures Process(b.(buffer := ChunksText(cs) + rest)) == Process(AfterChunks(b, cs).(buffer := rest))
    ensures EndingOf(ChunksText(cs) + rest, b.keeps) == EndingOf(rest, b.keeps)
    ensures var a := AfterChunks(b, cs);
      a == b.(body := if b.keeps then b.body + Concat(Datas(cs)) else b.body, pieces := b.pieces + Datas(cs))
    decreases |cs|
  {
    hide Process, ChunkText, ChunkOk, EndingOf;
    if |cs| == 0 {
      assert "" + rest == rest && b.pieces + [] == b.pieces && b.body + "" == b.body;
    } else {
      var b1 := AfterChunk(b, cs[0].data);
      assert ChunksText(cs) + rest == ChunkText(cs[0]) + (ChunksText(cs[1..]) + rest);
      OneChunk(b, cs[0], ChunksText(cs[1..]) + rest);
      AllChunks(b1, cs[1..], rest);
      assert AfterChunks(b1, cs[1..]).(buffer := rest) == AfterChunks(b, cs).(buffer := rest);
      assert Datas(cs) == [cs[0].data] + Datas(cs[1..]);
      assert b.pieces + [cs[0].data] + Datas(cs[1..]) == b.pieces + Datas(cs);
      assert Datas(cs)[1..] == Datas(cs[1..]);
      assert b.body + cs[0].data + Concat(Datas(cs[1..])) == b.body + Concat(Datas(cs));
    }
  }

  /** A whole body in the buffer. */
  lemma WholeBody(b: State, cs: seq<Chunk>, zeros: string, trailers: seq<string>)
    requires b.chunkSize == -1 && b.outcome == Receiving && forall i :: 0 <= i < |cs| ==> ChunkOk(cs[i])
    requires Digits(zeros) && HexDigits(zeros, 0).0 == 0 && forall i :: 0 <= i < |trailers| ==> LineOk(trailers[i])
    requires b.buffer == BodyText(cs, zeros, trailers)
    ensures Process(b) == b.(
      buffer := "", chunkSize := 0, outcome := Completed, signals := b.signals + 1,
      body := if b.keeps then b.body + Concat(Datas(cs)) else b.body, pieces := b.pieces + Datas(cs))
    ensures EndingOf(BodyText(cs, zeros, trailers), b.keeps) == Plain
  {
    hide Process, EndingOf, HexDigits, Lines, ChunksText, Digits, ChunkOk, LineOk;
    var rest := Lines(trailers) + CRLF;
    var last := zeros + CRLF + rest;
    AllChunks(b, cs, last);
    var a := AfterChunks(b, cs).(buffer := last);
    assert b.(buffer := ChunksText(cs) + last) == b;
    SizeLine(a, zeros, rest);
    SizeLineFound(zeros, rest, b.keeps);
    TrailerEnds(a.(chunkSize := 0, buffer := rest), trailers);
  }

  lemma WholeResponse(headers: string, cs: seq<Chunk>, zeros: string, trailers: seq<string>, keeps: bool)
    requires Find(headers + BLANK_LINE, BLANK_LINE) == Some(|headers|)
    requires forall i :: 0 <= i < |cs| ==> ChunkOk(cs[i])
    requires Digits(zeros) && HexDigits(zeros, 0).0 == 0 && forall i :: 0 <= i < |trailers| ==> LineOk(trailers[i])
    ensures var text := headers + BLANK_LINE + BodyText(cs, zeros, trailers);
      && OnData(Start(keeps), text) ==
         State(Some(headers), "", 0, if keeps then Concat(Datas(cs)) else "", Datas(cs), Completed, 1, keeps, 0)
      && EndingFrom(None, text, keeps) == Plain
  {
    var text, b := BodyText(cs, zeros, trailers), Start(keeps);
    hide BodyText, Digits, HexDigits, LineOk, ChunkOk, Process, Find, Concat, Received, EndingOf;
    HeadersOff(b, headers, text);
    WholeBody(b.(headers := Some(headers), buffer := text), cs, zeros, trailers);
    assert "" + (headers + BLANK_LINE + text) == headers + BLANK_LINE + text && [] + Datas(cs) == Datas(cs);
    assert "" + Concat(Datas(cs)) == Concat(Datas(cs));
  }

  /** A chunked response, however it is cut into reads, completes exactly once; the pieces handed to
      the listener are the chunks' data in order, and the body is all of it. */
  lemma ChunkedResponse(headers: string, cs: seq<Chunk>, zeros: string, trailers: seq<string>, chunks: seq<string>, keeps: bool)
    requires Find(headers + BLANK_LINE, BLANK_LINE) == Some(|headers|)
    requires forall i :: 0 <= i < |cs| ==> ChunkOk(cs[i])
    requires Digits(zeros) && HexDigits(zeros, 0).0 == 0 && forall i :: 0 <= i < |trailers| ==> LineOk(trailers[i])
    requires Concat(chunks) == headers + BLANK_LINE + BodyText(cs, zeros, trailers)
    ensures var d := OnReads(Start(keeps), chunks);
      && d.outcome == Completed && d.signals == 1 && d.headers == Some(headers)
      && d.pieces == Datas(cs) && d.body == if keeps then Concat(Datas(cs)) else ""
  {
    assert |chunks| == 0 ==> Concat(chunks) == [];
    hide BodyText, Digits, HexDigits, LineOk, ChunkOk, Find, Received, OnData, Concat, Datas, EndingFrom;
    WholeResponse(headers, cs, zeros, trailers, keeps);
    assert |chunks| > 0;
    assert Start(keeps).buffer + Concat(chunks) == Concat(chunks);
    CutsLag(Start(keeps), chunks);
  }

  lemma HeadersOff(b: State, headers: string, text: string)
    requires b.headers == None
    requires Find(headers + BLANK_LINE, BLANK_LINE) == Some(|headers|)
    ensures Received(b.(buffer := headers + BLANK_LINE + text)) == Process(b.(headers := Some(headers), buffer := text))
    ensures EndingFrom(None, headers + BLANK_LINE + text, b.keeps) == EndingOf(text, b.keeps)
  {
    hide Process, Find, EndingOf;
    FindStable(headers + BLANK_LINE, text, BLANK_LINE);
    var all := headers + BLANK_LINE + text;
    assert all[..|headers|] == headers;
    assert all[|headers| + 4..] == text;
  }

  // ----- Bodies that are not well formed -----

  /** A chunk and two characters that need not be a line end: read at once the chunk is taken; with a
      cut after the size line it is taken exactly when a line end comes somewhere in data and characters. */
  lemma MissingLineEnd(b: State, c: Chunk, two: string)
    requires b.headers.Some? && b.chunkSize == -1 && b.outcome == Receiving && b.buffer == "" && ChunkOk(c) && |two| == 2
    ensures OnData(b, c.size + CRLF + (c.data + two)).pieces == b.pieces + [c.data]
    ensures Agree(OnData(OnData(b, c.size + CRLF), c.data + two), OnData(b, c.size + CRLF + (c.data + two)))
            <==> Find(c.data + two, CRLF).Some?
    ensures Find(c.data + two, CRLF) == None ==> OnData(OnData(b, c.size + CRLF), c.data + two).pieces == b.pieces
  {
    hide Find, Digits, HexDigits, OnData, Agree, EndingFrom;
    assert "" + (c.data + two) == c.data + two;
    ReadAtOnce(b, c, two);
    ReadSizeAlone(b, c, c.data + two);
    CutMatters(b, c.size + CRLF, c.data + two);
  }

  lemma ReadAtOnce(b: State, c: Chunk, two: string)
    requires b.headers.Some? && b.chunkSize == -1 && b.outcome == Receiving && b.buffer == "" && ChunkOk(c) && |two| == 2
    ensures var text := c.size + CRLF + (c.data + two);
      OnData(b, text).pieces == b.pieces + [c.data] && EndingFrom(b.headers, b.buffer + text, b.keeps) != Overrun
  {
    hide Find, Digits, HexDigits, Process, Sized, EndingOf, SizedEnding;
    var tail := c.data + two;
    assert "" + (c.size + CRLF + tail) == c.size + CRLF + tail;
    SizeLineFound(c.size, tail, b.keeps);
    SizeLine(More(b, c.size + CRLF + tail), c.size, tail);
    TakenAtOnce(b.(chunkSize := |c.data|, buffer := tail), c.data);
  }

  lemma ReadSizeAlone(b: State, c: Chunk, tail: string)
    requires b.headers.Some? && b.chunkSize == -1 && b.outcome == Receiving && b.buffer == "" && ChunkOk(c)
    ensures OnData(b, c.size + CRLF) == b.(chunkSize := |c.data|)
    ensures Find(tail, CRLF) == None ==> OnData(b.(chunkSize := |c.data|), tail) == b.(chunkSize := |c.data|, buffer := tail)
  {
    hide Find, Digits, HexDigits, Process, Sized;
    assert "" + (c.size + CRLF) == c.size + CRLF + "" && "" + tail == tail;
    SizeLine(More(b, c.size + CRLF), c.size, "");
    WaitsForLineEnd(b.(chunkSize := |c.data|), tail);
  }

  lemma TakenAtOnce(b: State, data: string)
    requires b.chunkSize == |data| && 0 < |data| && Fits(|data|) && |b.buffer| == |data| + 2 && b.buffer[..|data|] == data
    ensures Sized(b).pieces == b.pieces + [data] && SizedEnding(b.chunkSize, b.buffer, b.keeps) != Overrun
  {
    var taken := TakeChunk(b);
    assert taken.buffer == "";
    assert Find("", CRLF) == None;
    hide Find;
    assert Process(taken) == taken;
  }

  lemma WaitsForLineEnd(b: State, tail: string)
    requires b.chunkSize > 0 && b.buffer == ""
    ensures Sized(b) == b && (Find(tail, CRLF) == None ==> Process(More(b, tail)) == More(b, tail))
  {
    hide Find;
    assert "" + tail == tail;
  }

  lemma {:induction false} ProcessShrinks(b: State)
    ensures |Process(b).buffer| <= |b.buffer|
    decreases 2 * |b.buffer| + if b.chunkSize >= 0 then 2 else 0
  {
    hide Find, HexSize, Sized;
    match Find(b.buffer, CRLF) {
      case None =>
      case Some(end) =>
        if b.chunkSize >= 0 {
          SizedShrinks(b);
        } else if HexSize(b.buffer[..end]).Some? {
          SizedShrinks(SizeRead(b, end, ToInt(HexSize(b.buffer[..end]).value)));
        }
    }
  }

  lemma {:induction false} SizedShrinks(b: State)
    ensures |Sized(b).buffer| <= |b.buffer|
    decreases 2 * |b.buffer| + 1
  {
    hide Find, Process;
    if b.chunkSize != 0 && Room(b.chunkSize) <= |b.buffer| {
      if b.chunkSize > 0 {
        ProcessShrinks(TakeChunk(b));
      } else if !b.keeps {
        ProcessShrinks(TakeNegative(b));
      }
    }
  }

  /** A size below -2: one read waits for ever, the next takes a size line again.  So a cut after the
      line changes what is decoded, unless no line comes. */
  lemma NegativeSizeCut(b: State, size: string, rest: string)
    requires b.headers.Some? && b.chunkSize == -1 && b.outcome == Receiving && b.buffer == ""
    requires Digits(size) && ToInt(Value(size)) < -2 && |rest| < Room(ToInt(Value(size)))
    ensures OnData(b, size + CRLF + rest) == b.(chunkSize := ToInt(Value(size)), buffer := rest)
    ensures Agree(OnData(OnData(b, size + CRLF), rest), OnData(b, size + CRLF + rest)) <==> Find(rest, CRLF) == None
  {
    hide Find, Digits, Value, Process, ToInt, Room;
    var n := ToInt(Value(size));
    assert "" + (size + CRLF + rest) == size + CRLF + rest && "" + (size + CRLF) == size + CRLF + "" && "" + rest == rest;
    SizeLine(More(b, size + CRLF + rest), size, rest);
    SizeLine(More(b, size + CRLF), size, "");
    ReadsSizeLine(b.(chunkSize := n, buffer := rest));
  }

  /** A size of -1, which every size from 2^64 on is: one read throws, or loses a character; a cut after
      the line makes nothing of the size at all.  The two agree only if what follows has a negative
      size too. */
  lemma MinusOneCut(b: State, size: string, rest: string)
    requires b.headers.Some? && b.chunkSize == -1 && b.outcome == Receiving && b.buffer == ""
    requires Digits(size) && ToInt(Value(size)) == -1 && rest != ""
    ensures var told := b.(overlong := b.overlong + 1);
      OnData(b, size + CRLF + rest) == if b.keeps then told.(chunkSize := -1, buffer := rest, outcome := Thrown) else OnData(told, rest[1..])
    ensures OnData(OnData(b, size + CRLF), rest) == OnData(b, rest)
    ensures OnData(b, rest).overlong == b.overlong ==>
              !Agree(OnData(OnData(b, size + CRLF), rest), OnData(b, size + CRLF + rest))
  {
    hide Find, Digits, Value, Process, ToInt;
    assert "" + (size + CRLF + rest) == size + CRLF + rest && "" + (size + CRLF) == size + CRLF + "";
    assert "" + rest == rest && "" + rest[1..] == rest[1..];
    SizeLine(More(b, size + CRLF + rest), size, rest);
    SizeLine(More(b, size + CRLF), size, "");
    ProcessTells(b.(overlong := b.overlong + 1, buffer := rest[1..]));
  }

  lemma {:induction false} ProcessTells(b: State)
    ensures Process(b).overlong >= b.overlong
    decreases 2 * |b.buffer| + if b.chunkSize >= 0 then 2 else 0
  {
    hide Find, HexSize, Sized;
    match Find(b.buffer, CRLF) {
      case None =>
      case Some(end) =>
        if b.chunkSize >= 0 {
          SizedTells(b);
        } else if HexSize(b.buffer[..end]).Some? {
          SizedTells(SizeRead(b, end, ToInt(HexSize(b.buffer[..end]).value)));
        }
    }
  }

  lemma {:induction false} SizedTells(b: State)
    ensures Sized(b).overlong >= b.overlong
    decreases 2 * |b.buffer| + 1
  {
    hide Find, Process;
    if b.chunkSize != 0 && Room(b.chunkSize) <= |b.buffer| {
      if b.chunkSize > 0 {
        ProcessTells(TakeChunk(b));
      } else if !b.keeps {
        ProcessTells(TakeNegative(b));
      }
    }
  }

  /** From a negative size the loop uses up a line, if there is one. */
  lemma ReadsSizeLine(b: State)
    requires b.chunkSize < 0
    ensures b.outcome == Receiving ==> (Agree(Process(b), b) <==> Find(b.buffer, CRLF) == None)
  {
    hide Find, HexSize, Sized, ToInt;
    if Find(b.buffer, CRLF).Some? {
      var end := Find(b.buffer, CRLF).value;
      var size := HexSize(b.buffer[..end]);
      if size.Some? { SizedShrinks(SizeRead(b, end, ToInt(size.value))); }
    }
  }

  /** A size is cut to its low 32 bits, and from 2^64 on it reads as -1: exactly the multiples of 2^32
      below that, 0 among them, end the body. */
  lemma HugeSizeEndsBody(b: State, size: string)
    requires b.headers.Some? && b.chunkSize == -1 && b.outcome == Receiving && b.buffer == "" && Digits(size)
    ensures var n := HexDigits(size, 0).0;
      OnData(b, size + CRLF + CRLF).outcome == Completed <==> n < UINT64 && n % 0x1_0000_0000 == 0
    ensures OnData(b, size + CRLF + CRLF).pieces == b.pieces
  {
    hide Find, Digits, HexDigits, Process, Sized;
    assert "" + (size + CRLF + CRLF) == size + CRLF + CRLF;
    SizeLine(More(b, size + CRLF + CRLF), size, CRLF);
    EmptyLine(b.(chunkSize := ToInt(Value(size)), buffer := CRLF));
  }

  lemma EmptyLine(b: State)
    requires b.outcome == Receiving && b.buffer == CRLF
    ensures Sized(b).outcome == Completed <==> b.chunkSize == 0
    ensures Sized(b).pieces == b.pieces
  {
    hide Find, HexSize, Process;
    if b.chunkSize < 0 && Room(b.chunkSize) <= 2 && !b.keeps { EmptyRest(TakeNegative(b)); }
  }

  lemma EmptyRest(b: State)
    requires b.outcome == Receiving && b.chunkSize == -1 && (|b.buffer| < 2 || b.buffer == CRLF)
    ensures Process(b).outcome != Completed && Process(b).pieces == b.pieces
  {
    hide HexSize, Sized;
    if |b.buffer| >= 2 {
      NoSize();
      assert CRLF[..2] == CRLF && CRLF[..0] == "";
    }
  }

  lemma NoSize()
    ensures HexSize("") == None
  {
  }

  // ----- The code as it runs -----

  /** The response under way, and what was delivered of it. */
  class HttpClient {
    var headers: Option<string>
    var receiveBuffer: string
    var chunkSize: Int32
    var body: string
    var pieces: seq<string>
    var outcome: Outcome
    var signals: nat
    const keeps: bool
    var overlong: nat

    ghost function Abs(): State
      reads this
    {
      State(headers, receiveBuffer, chunkSize, body, pieces, outcome, signals, keeps, overlong)
    }

    constructor (keeps: bool)
      ensures Abs() == Start(keeps)
    {
      headers, receiveBuffer, chunkSize, body, pieces := None, "", -1, "", [];
      outcome, signals, overlong := Receiving, 0, 0;
      this.keeps := keeps;
    }

    method CompleteRequest()
      modifies this
      ensures Abs() == Complete(old(Abs()))
    {
      outcome := Completed;
      signals := signals + 1;
    }

    /** The end of the body. */
    method ReadTrailer()
      modifies this
      ensures Abs() == Trailer(old(Abs()))
    {
      hide Find;
      if |receiveBuffer| >= 2 && receiveBuffer[..2] == CRLF {
        receiveBuffer := receiveBuffer[2..];
        CompleteRequest();
      } else {
        var end := Find(receiveBuffer, BLANK_LINE);
        if end.Some? {
          receiveBuffer := receiveBuffer[end.value + 4..];
          CompleteRequest();
        }
      }
    }

    method ReadChunk()
      requires 0 < chunkSize && Room(chunkSize) <= |receiveBuffer|
      modifies this
      ensures Abs() == TakeChunk(old(Abs()))
    {
      var data := receiveBuffer[..chunkSize];
      pieces := pieces + [data];
      if keeps { body := body + data; }
      receiveBuffer := receiveBuffer[Room(chunkSize)..];
      chunkSize := -1;
    }

    method ReadNegative()
      requires chunkSize < 0 && Room(chunkSize) <= |receiveBuffer|
      modifies this
      ensures Abs() == TakeNegative(old(Abs())) && |receiveBuffer| <= old(|receiveBuffer|)
    {
      overlong := overlong + 1;
      if keeps {
        outcome := Thrown;
      } else {
        receiveBuffer := receiveBuffer[Room(chunkSize)..];
        chunkSize := -1;
      }
    }

    method ProcessChunkedBody()
      modifies this
      ensures Abs() == Process(old(Abs()))
    {
      hide Find, HexSize, Trailer, TakeChunk, TakeNegative;
      ghost var goal := Process(Abs());
      while true
        invariant Process(Abs()) == goal
        decreases |receiveBuffer|
      {
        var end := Find(receiveBuffer, CRLF);
        if end.None? { return; }
        if chunkSize < 0 {
          var size := HexSize(receiveBuffer[..end.value]);
          if size.None? {
            outcome := Failed;
            return;
          }
          chunkSize := ToInt(size.value);
          receiveBuffer := receiveBuffer[end.value + 2..];
        }
        assert Sized(Abs()) == goal;
        if chunkSize == 0 {
          ReadTrailer();
          return;
        }
        if |receiveBuffer| < Room(chunkSize) { return; }
        if chunkSize < 0 {
          ReadNegative();
          if keeps { return; }
        } else {
          TakeChunkKeeps(Abs());
          ReadChunk();
        }
      }
    }

    /** OnDataReceived and ProcessReceivedData. */
    method OnDataReceived(data: string)
      modifies this
      ensures Abs() == OnData(old(Abs()), data)
    {
      hide Process, Find;
      if outcome != Receiving { return; }
      receiveBuffer := receiveBuffer + data;
      if headers.None? {
        var end := Find(receiveBuffer, BLANK_LINE);
        if end.Some? {
          headers := Some(receiveBuffer[..end.value]);
          receiveBuffer := receiveBuffer[end.value + 4..];
        }
      }
      if headers.Some? { ProcessChunkedBody(); }
    }
  }
}
