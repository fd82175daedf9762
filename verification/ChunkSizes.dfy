/** What a size line of a chunked body may say, written down apart from the functions that read it; and
    chunked responses as they are on the wire. */
module ChunkSizes {
  import opened HttpChunked
  import opened JsonParser
  import opened JsonStrings
  import opened Options
  import opened Text

  /** s is the number n in hexadecimal digits. */
  predicate IsHexNumber(s: string, n: nat)
    decreases |s|
  {
    if |s| == 0 then n == 0 else IsNibble(s[|s| - 1], n % 16) && IsHexNumber(s[..|s| - 1], n / 16)
  }

  predicate White(s: string) {
    forall i :: 0 <= i < |s| ==> s[i] in [' ', '\t', '\n', 11 as char, 12 as char, '\r']
  }

  /** White space, a sign or none, a prefix or none, and one digit or more. */
  predicate Spelled(c: string, space: string, sign: string, prefix: string, digits: string, n: nat) {
    && c == space + (sign + (prefix + digits))
    && White(space) && (sign == "" || sign == "+" || sign == "-") && (prefix == "" || prefix == "0x" || prefix == "0X")
    && digits != "" && IsHexNumber(digits, n)
  }

  /** A size too large is the largest there is, and minus wraps round. */
  function Given(sign: string, n: nat): nat {
    if n >= 0x1_0000_0000_0000_0000 then 0xFFFF_FFFF_FFFF_FFFF
    else if sign == "-" && n > 0 then 0x1_0000_0000_0000_0000 - n
    else n
  }

  // ----- Digits -----

  lemma {:induction false} NumberOf(s: string, n: nat)
    requires IsHexNumber(s, n)
    ensures (forall i :: 0 <= i < |s| ==> IsHex(s[i])) && HexDigits(s, 0) == (n, "")
    decreases |s|
  {
    hide IsHex, IsNibble, HexValue;
    if |s| > 0 {
      var init, c := s[..|s| - 1], s[|s| - 1];
      NumberOf(init, n / 16);
      NibbleReads(c, n % 16);
      HexMore(init, c, 0);
      assert s == init + [c];
    }
  }

  lemma {:induction false} HexMore(init: string, c: char, v: nat)
    requires IsHex(c) && forall i :: 0 <= i < |init| ==> IsHex(init[i])
    ensures HexDigits(init + [c], v) == (HexDigits(init, v).0 * 16 + HexValue(c), "")
    decreases |init|
  {
    hide IsHex, HexValue;
    if |init| > 0 {
      HexMore(init[1..], c, v * 16 + HexValue(init[0]));
      assert (init + [c])[1..] == init[1..] + [c];
    } else {
      assert init + [c] == [c] && [c][1..] == "";
    }
  }

  lemma {:induction false} IsNumber(s: string)
    requires forall i :: 0 <= i < |s| ==> IsHex(s[i])
    ensures IsHexNumber(s, HexDigits(s, 0).0)
    decreases |s|
  {
    hide IsHex, IsNibble, HexValue;
    if |s| > 0 {
      var init, c := s[..|s| - 1], s[|s| - 1];
      IsNumber(init);
      HexMore(init, c, 0);
      assert s == init + [c];
      var n := HexDigits(s, 0).0;
      assert n / 16 == HexDigits(init, 0).0 && n % 16 == HexValue(c);
      NibbleReads(c, 0);
    }
  }

  lemma {:induction false} AllUsed(s: string, v: nat)
    requires HexDigits(s, v).1 == ""
    ensures forall i :: 0 <= i < |s| ==> IsHex(s[i])
    decreases |s|
  {
    hide IsHex, HexValue;
    if |s| > 0 { AllUsed(s[1..], v * 16 + HexValue(s[0])); }
  }

  // ----- Size lines -----

  lemma {:induction false} SpacePassed(space: string, rest: string)
    requires White(space) && (rest == "" || !IsSpace(rest[0]))
    ensures SkipWs(space + rest) == rest
    decreases |space|
  {
    if |space| > 0 {
      assert space[0] in [' ', '\t', '\n', 11 as char, 12 as char, '\r'];
      SpacePassed(space[1..], rest);
      assert (space + rest)[1..] == space[1..] + rest;
    } else {
      assert space + rest == rest;
    }
  }

  lemma {:induction false} SpaceOf(s: string)
    ensures var rest := SkipWs(s);
      s == s[..|s| - |rest|] + rest && White(s[..|s| - |rest|]) && (rest == "" || !IsSpace(rest[0]))
    decreases |s|
  {
    if s != "" && IsSpace(s[0]) {
      SpaceOf(s[1..]);
      var rest := SkipWs(s[1..]);
      assert s == [s[0]] + s[1..];
      assert s[..|s| - |rest|] == [s[0]] + s[1..][..|s| - 1 - |rest|];
    }
  }

  lemma PrefixPassed(prefix: string, digits: string)
    requires (prefix == "" || prefix == "0x" || prefix == "0X") && digits != "" && forall i :: 0 <= i < |digits| ==> IsHex(digits[i])
    ensures SkipPrefix(prefix + digits) == digits
  {
    if prefix == "" {
      assert prefix + digits == digits;
      assert |digits| >= 2 ==> IsHex(digits[1]);
    } else {
      assert (prefix + digits)[2..] == digits && IsHex(digits[0]);
    }
  }

  function PrefixOf(s: string): (prefix: string)
    ensures (prefix == "" || prefix == "0x" || prefix == "0X") && s == prefix + SkipPrefix(s)
  {
    if SkipPrefix(s) == s then "" else if s[1] == 'x' then "0x" else "0X"
  }

  function SignOf(s: string): (sign: string)
    ensures (sign == "" || sign == "+" || sign == "-") && s == sign + Unsigned(s)
  {
    if s != "" && s[0] == '+' then "+" else if s != "" && s[0] == '-' then "-" else ""
  }

  function Unsigned(s: string): string {
    if s != "" && (s[0] == '+' || s[0] == '-') then s[1..] else s
  }

  /** The reading, once the white space, the sign and the prefix are taken off. */
  lemma Taken(text: string)
    ensures var s := SkipWs(CStr(text));
      var digits := SkipPrefix(Unsigned(s));
      var (n, rest) := HexDigits(digits, 0);
      HexSize(text) == if digits == "" || !IsHex(digits[0]) || rest != "" then None else Some(Given(SignOf(s), n))
  {
    hide CStr, SkipWs, SkipPrefix, HexDigits, IsHex;
  }

  lemma SignTaken(sign: string, body: string)
    requires (sign == "" || sign == "+" || sign == "-") && body != "" && IsHex(body[0])
    ensures SignOf(sign + body) == sign && Unsigned(sign + body) == body
  {
    assert sign == "" ==> sign + body == body;
  }

  /** What is so spelled is read as the number it gives. */
  lemma SpelledIsRead(text: string, c: string, space: string, sign: string, prefix: string, digits: string, n: nat)
    requires CString(text, c) && Spelled(c, space, sign, prefix, digits, n)
    ensures HexSize(text) == Some(Given(sign, n))
  {
    hide CStr, SkipWs, SkipPrefix, HexDigits, IsHexNumber, White, CString, HexSize, Given, SignOf, Unsigned, HexValue;
    CStrIs(text, c);
    NumberOf(digits, n);
    PrefixPassed(prefix, digits);
    var body := prefix + digits;
    assert IsHex(digits[0]) && IsHex(body[0]);
    SignTaken(sign, body);
    var rest := sign + body;
    assert !IsSpace(rest[0]);
    SpacePassed(space, rest);
    Taken(text);
  }

  /** What is read is so spelled. */
  lemma ReadIsSpelled(text: string)
    requires HexSize(text).Some?
    ensures exists c, space, sign, prefix, digits, n: nat ::
      CString(text, c) && Spelled(c, space, sign, prefix, digits, n) && HexSize(text) == Some(Given(sign, n))
  {
    hide CStr, SkipWs, SkipPrefix, HexDigits, IsHexNumber, White, CString, HexSize, Given, SignOf, PrefixOf, Unsigned, IsHex, IsSpace;
    var c := CStr(text);
    CStrIs(text, c);
    SpaceOf(c);
    var s := SkipWs(c);
    var space, sign, body := c[..|c| - |s|], SignOf(s), Unsigned(s);
    var prefix, digits := PrefixOf(body), SkipPrefix(body);
    Taken(text);
    AllUsed(digits, 0);
    IsNumber(digits);
    assert Spelled(c, space, sign, prefix, digits, HexDigits(digits, 0).0);
  }

  /** The size lines that are read, and as what: exactly those spelled so, up to a NUL. */
  lemma SizesAreRead(text: string, size: nat)
    ensures HexSize(text) == Some(size) <==>
              exists c, space, sign, prefix, digits, n: nat ::
                CString(text, c) && Spelled(c, space, sign, prefix, digits, n) && size == Given(sign, n)
  {
    hide *;
    if HexSize(text).Some? { ReadIsSpelled(text); }
    if c, space, sign, prefix, digits, n: nat
        :| CString(text, c) && Spelled(c, space, sign, prefix, digits, n) && size == Given(sign, n) {
      SpelledIsRead(text, c, space, sign, prefix, digits, n);
    }
  }

  // ----- Responses on the wire -----

  /** Chunks as section 7.1 of RFC 9112 has them: a size, a line end, so many characters, a line end. */
  ghost predicate ChunksOnWire(text: string, datas: seq<string>)
    decreases |datas|
  {
    if |datas| == 0 then text == ""
    else exists size: string, rest: string :: (
      && size != "" && IsHexNumber(size, |datas[0]|) && 0 < |datas[0]| < 0x7FFF_FFFE
      && text == size + "\r\n" + datas[0] + "\r\n" + rest && ChunksOnWire(rest, datas[1..]))
  }

  /** Header lines behind the last chunk: none empty, none with a carriage return inside. */
  ghost predicate TrailersOnWire(text: string, lines: seq<string>)
    decreases |lines|
  {
    if |lines| == 0 then text == ""
    else
      && lines[0] != "" && '\r' !in lines[0]
      && exists rest: string :: text == lines[0] + "\r\n" + rest && TrailersOnWire(rest, lines[1..])
  }

  /** A response: headers, an empty line, chunks, a size that is zero, trailers and an empty line. */
  ghost predicate ResponseOnWire(text: string, headers: string, datas: seq<string>) {
    exists chunks: string, zeros: string, trailers: string, lines: seq<string> :: (
      && (forall i: nat :: StandsAt(headers + "\r\n\r\n", "\r\n\r\n", i) ==> i >= |headers|)
      && ChunksOnWire(chunks, datas) && zeros != "" && IsHexNumber(zeros, 0) && TrailersOnWire(trailers, lines)
      && text == headers + "\r\n\r\n" + (chunks + (zeros + "\r\n" + (trailers + "\r\n"))))
  }

  lemma ChunkIs(size: string, data: string)
    requires size != "" && IsHexNumber(size, |data|) && 0 < |data| < 0x7FFF_FFFE
    ensures ChunkOk(Chunk(size, data))
  {
    hide IsHexNumber, HexDigits, IsHex;
    NumberOf(size, |data|);
  }

  ghost function ChunksOf(text: string, datas: seq<string>): (cs: seq<Chunk>)
    requires ChunksOnWire(text, datas)
    ensures |cs| == |datas| && forall i :: 0 <= i < |cs| ==> ChunkOk(cs[i]) && cs[i].data == datas[i]
    ensures ChunksText(cs) == text
    decreases |datas|
  {
    hide ChunkOk, IsHexNumber;
    if |datas| == 0 then []
    else
      var size: string, rest: string :|
        && size != "" && IsHexNumber(size, |datas[0]|) && 0 < |datas[0]| < 0x7FFF_FFFE
        && text == size + "\r\n" + datas[0] + "\r\n" + rest && ChunksOnWire(rest, datas[1..]);
      ChunkIs(size, datas[0]);
      [Chunk(size, datas[0])] + ChunksOf(rest, datas[1..])
  }

  lemma {:induction false} TrailersAre(text: string, lines: seq<string>)
    requires TrailersOnWire(text, lines)
    ensures text == Lines(lines) && forall i :: 0 <= i < |lines| ==> LineOk(lines[i])
    decreases |lines|
  {
    if |lines| > 0 {
      var rest: string :| text == lines[0] + "\r\n" + rest && TrailersOnWire(rest, lines[1..]);
      TrailersAre(rest, lines[1..]);
      assert forall i :: 1 <= i < |lines| ==> lines[i] == lines[1..][i - 1];
    }
  }

  /** A response on the wire, however it is cut into reads, completes exactly once: the listener is
      given the data of each chunk in turn, and the body kept is all of it. */
  lemma ResponseHeard(arrived: seq<string>, headers: string, datas: seq<string>, keeps: bool)
    requires ResponseOnWire(Concat(arrived), headers, datas)
    ensures var d := OnReads(Start(keeps), arrived);
      && d.outcome == Completed && d.signals == 1 && d.headers == Some(headers)
      && d.pieces == datas && d.body == if keeps then Concat(datas) else ""
  {
    hide ChunksOnWire, TrailersOnWire, IsHexNumber, ChunkOk, LineOk, ChunksText, Lines, OnReads, HexDigits, IsHex, Concat;
    var chunks: string, zeros: string, trailers: string, lines: seq<string> :|
      && (forall i: nat :: StandsAt(headers + "\r\n\r\n", "\r\n\r\n", i) ==> i >= |headers|)
      && ChunksOnWire(chunks, datas) && zeros != "" && IsHexNumber(zeros, 0) && TrailersOnWire(trailers, lines)
      && Concat(arrived) == headers + "\r\n\r\n" + (chunks + (zeros + "\r\n" + (trailers + "\r\n")));
    var cs := ChunksOf(chunks, datas);
    TrailersAre(trailers, lines);
    NumberOf(zeros, 0);
    assert StandsAt(headers + BLANK_LINE, BLANK_LINE, |headers|);
    FindIs(headers + BLANK_LINE, BLANK_LINE, |headers|);
    ChunkedResponse(headers, cs, zeros, lines, arrived, keeps);
    assert Datas(cs) == datas;
  }
}
