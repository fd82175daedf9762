/** Unicode escapes: every code point, written as one escape or as a surrogate pair, is read as its
    UTF-8 bytes, and those bytes decode back to it. */
module JsonUnicode {
  import opened Json
  import opened JsonParser
  import opened Options

  predicate IsScalar(code: nat) {
    code < 0x11_0000 && !HighSurrogate(code) && !LowSurrogate(code)
  }

  predicate Continues(c: char) {
    0x80 <= c as int < 0xC0
  }

  /** A decoder for one UTF-8 sequence. */
  function Utf8Decode(s: string): Option<nat> {
    if |s| == 1 && s[0] as int < 0x80 then Some(s[0] as int)
    else if |s| == 2 && 0xC0 <= s[0] as int < 0xE0 && Continues(s[1]) then
      Some((s[0] as int - 0xC0) * 0x40 + s[1] as int - 0x80)
    else if |s| == 3 && 0xE0 <= s[0] as int < 0xF0 && Continues(s[1]) && Continues(s[2]) then
      Some((s[0] as int - 0xE0) * 0x1000 + (s[1] as int - 0x80) * 0x40 + s[2] as int - 0x80)
    else if |s| == 4 && 0xF0 <= s[0] as int < 0xF8 && Continues(s[1]) && Continues(s[2]) && Continues(s[3]) then
      Some((s[0] as int - 0xF0) * 0x4_0000 + (s[1] as int - 0x80) * 0x1000 + (s[2] as int - 0x80) * 0x40
           + s[3] as int - 0x80)
    else None
  }

  lemma Utf8Decodes(code: nat)
    requires code < 0x11_0000
    ensures Utf8Decode(Utf8(code)) == Some(code)
  {
    if code >= 0x1_0000 {
      assert code == code / 0x4_0000 * 0x4_0000 + code / 0x1000 % 0x40 * 0x1000 + code / 0x40 % 0x40 * 0x40 + code % 0x40;
    } else if code >= 0x800 {
      assert code == code / 0x1000 * 0x1000 + code / 0x40 % 0x40 * 0x40 + code % 0x40;
    }
  }

  function Hex4Text(n: nat): string
    requires n < 0x1_0000
  {
    [HexDigit(n / 4096), HexDigit(n / 256 % 16), HexDigit(n / 16 % 16), HexDigit(n % 16)]
  }

  /** What follows the backslash of an escaped code point. */
  function EscapeText(code: nat): string
    requires IsScalar(code)
  {
    if code < 0x1_0000 then "u" + Hex4Text(code)
    else "u" + Hex4Text(0xD800 + (code - 0x1_0000) / 0x400) + "\\u" + Hex4Text(0xDC00 + (code - 0x1_0000) % 0x400)
  }

  lemma HexDigitReads(d: nat)
    requires d < 16
    ensures IsHex(HexDigit(d)) && HexValue(HexDigit(d)) == d
  {
  }

  lemma Hex4Reads(n: nat, rest: string)
    requires n < 0x1_0000
    ensures Hex4(Hex4Text(n) + rest) == Ok(n, rest)
  {
    hide HexDigit, IsHex, HexValue;
    var s := Hex4Text(n) + rest;
    HexDigitReads(n / 4096);
    HexDigitReads(n / 256 % 16);
    HexDigitReads(n / 16 % 16);
    HexDigitReads(n % 16);
    assert s[4..] == rest;
    HexDigits(n);
  }

  lemma HexDigits(n: nat)
    ensures n == n / 4096 * 4096 + n / 256 % 16 * 256 + n / 16 % 16 * 16 + n % 16
  {
    assert n / 256 == n / 16 / 16 && n / 4096 == n / 256 / 16;
  }

  /** Escape then read: the UTF-8 bytes of the code point, and nothing else consumed. */
  lemma EscapeReads(code: nat, rest: string)
    requires IsScalar(code)
    ensures Escape(EscapeText(code) + rest) == Ok(Utf8(code), rest)
  {
    hide Hex4Text, Hex4, Utf8;
    var s := EscapeText(code) + rest;
    if code < 0x1_0000 {
      assert s[1..] == Hex4Text(code) + rest;
      Hex4Reads(code, rest);
    } else {
      var (high, low) := (0xD800 + (code - 0x1_0000) / 0x400, 0xDC00 + (code - 0x1_0000) % 0x400);
      var tail := "\\u" + (Hex4Text(low) + rest);
      assert s[1..] == Hex4Text(high) + tail;
      Hex4Reads(high, tail);
      assert tail[2..] == Hex4Text(low) + rest;
      Hex4Reads(low, rest);
    }
  }

  /** A lone low surrogate, and a high one not followed by an escaped low one, are errors. */
  lemma LoneSurrogateFails(code: nat, rest: string)
    requires code < 0x1_0000
    requires LowSurrogate(code) || (HighSurrogate(code) && !("\\u" <= rest && Hex4(rest[2..]).Ok? && LowSurrogate(Hex4(rest[2..]).value)))
    ensures Escape("u" + Hex4Text(code) + rest) == Fail
  {
    hide Hex4Text, Hex4;
    assert ("u" + Hex4Text(code) + rest)[1..] == Hex4Text(code) + rest;
    Hex4Reads(code, rest);
  }
}
