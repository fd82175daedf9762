/** What a JSON string means, written down from the table in section 7 of RFC 8259; that the parser accepts
    exactly these texts and gives these values; and how the printer writes each character. */
module JsonStrings {
  import opened Json
  import opened JsonParser
  import opened JsonUnicode

  // ----- The table -----

  /** The letter after a backslash, and the code of the character it stands for. */
  const SHORT: seq<(char, nat)> :=
    [('\"', 0x22), ('\\', 0x5C), ('/', 0x2F), ('b', 0x08), ('f', 0x0C), ('n', 0x0A), ('r', 0x0D), ('t', 0x09)]

  const LOWER := "0123456789abcdef"
  const UPPER := "0123456789ABCDEF"

  predicate IsNibble(c: char, v: nat) {
    v < 16 && (c == LOWER[v] || c == UPPER[v])
  }

  /** Four hexadecimal digits and their number. */
  predicate IsHex4(h: string, code: nat) {
    && |h| == 4 && code < 0x1_0000
    && IsNibble(h[0], code / 4096) && IsNibble(h[1], code / 256 % 16) && IsNibble(h[2], code / 16 % 16) && IsNibble(h[3], code % 16)
  }

  /** A piece of a string: a character as it is, a short escape by its row in the table, an escaped code
      unit, or two that make one code point. */
  datatype Token = Raw(c: char) | Short(row: nat) | Unit(hex: string, code: nat) | Surrogates(high: string, low: string, code: nat)

  predicate PieceOk(p: Token) {
    match p
    case Raw(c) => c as int >= 0x20 && c != '\"' && c != '\\'
    case Short(row) => row < |SHORT|
    case Unit(hex, code) => IsHex4(hex, code) && !(0xD800 <= code <= 0xDFFF)
    case Surrogates(high, low, code) =>
      && 0x1_0000 <= code < 0x11_0000
      && IsHex4(high, 0xD800 + (code - 0x1_0000) / 0x400) && IsHex4(low, 0xDC00 + (code - 0x1_0000) % 0x400)
  }

  type Piece = p: Token | PieceOk(p) witness Raw('a')

  function PieceText(p: Piece): string
  {
    match p
    case Raw(c) => [c]
    case Short(row) => ['\\', SHORT[row].0]
    case Unit(hex, _) => "\\u" + hex
    case Surrogates(high, low, _) => "\\u" + high + "\\u" + low
  }

  function PieceValue(p: Piece): string
  {
    match p
    case Raw(c) => [c]
    case Short(row) => [SHORT[row].1 as char]
    case Unit(_, code) => Utf8(code)
    case Surrogates(_, _, code) => Utf8(code)
  }

  function TextOf(ps: seq<Piece>): string
    decreases |ps|
  {
    if |ps| == 0 then "" else PieceText(ps[0]) + TextOf(ps[1..])
  }

  function ValueOf(ps: seq<Piece>): string
    decreases |ps|
  {
    if |ps| == 0 then "" else PieceValue(ps[0]) + ValueOf(ps[1..])
  }

  // ----- Reading -----

  lemma NibbleReads(c: char, v: nat)
    ensures IsNibble(c, v) ==> IsHex(c) && HexValue(c) == v
    ensures IsHex(c) ==> IsNibble(c, HexValue(c))
  {
    if IsNibble(c, v) {
      assert v == 0 || v == 1 || v == 2 || v == 3 || v == 4 || v == 5 || v == 6 || v == 7
          || v == 8 || v == 9 || v == 10 || v == 11 || v == 12 || v == 13 || v == 14 || v == 15;
    }
    if IsHex(c) {
      var d := HexValue(c);
      assert d == 0 || d == 1 || d == 2 || d == 3 || d == 4 || d == 5 || d == 6 || d == 7
          || d == 8 || d == 9 || d == 10 || d == 11 || d == 12 || d == 13 || d == 14 || d == 15;
    }
  }

  lemma Hex4Accepts(h: string, code: nat, rest: string)
    requires IsHex4(h, code)
    ensures Hex4(h + rest) == Ok(code, rest)
  {
    hide IsHex, HexValue, IsNibble;
    NibbleReads(h[0], code / 4096);
    NibbleReads(h[1], code / 256 % 16);
    NibbleReads(h[2], code / 16 % 16);
    NibbleReads(h[3], code % 16);
    HexDigits(code);
    assert (h + rest)[4..] == rest;
  }

  lemma Hex4Only(s: string)
    requires Hex4(s).Ok?
    ensures |s| >= 4 && IsHex4(s[..4], Hex4(s).value) && s == s[..4] + Hex4(s).rest
  {
    hide IsHex, HexValue, IsNibble;
    NibbleReads(s[0], 0);
    NibbleReads(s[1], 0);
    NibbleReads(s[2], 0);
    NibbleReads(s[3], 0);
    Nibbles(HexValue(s[0]), HexValue(s[1]), HexValue(s[2]), HexValue(s[3]));
  }

  lemma Nibbles(a: nat, b: nat, c: nat, d: nat)
    requires a < 16 && b < 16 && c < 16 && d < 16
    ensures var n := a * 4096 + b * 256 + c * 16 + d;
      n / 4096 == a && n / 256 % 16 == b && n / 16 % 16 == c && n % 16 == d
  {
    var n := a * 4096 + b * 256 + c * 16 + d;
    assert n / 256 == a * 16 + b && n / 16 == a * 256 + b * 16 + c;
  }

  /** One piece in front of a string body is read, and the rest after it. */
  lemma PieceReads(p: Piece, t: string)
    ensures StringBody(PieceText(p) + t) == Prepend(PieceValue(p), StringBody(t))
  {
    hide Utf8, IsHex4, Unicode, StringBody;
    match p {
      case Raw(c) => RawReads(c, t);
      case Short(row) => ShortReads(row, t);
      case Unit(hex, code) => UnitStep(hex, code, t);
      case Surrogates(high, low, code) => SurrogatesStep(high, low, code, t);
    }
  }

  lemma UnitStep(hex: string, code: nat, t: string)
    requires PieceOk(Unit(hex, code))
    ensures StringBody("\\u" + hex + t) == Prepend(Utf8(code), StringBody(t))
  {
    hide Utf8, StringBody, Unicode, IsNibble;
    UnitReads(hex, code, t);
    EscapeStep(hex + t, Utf8(code), t);
    assert "\\u" + hex + t == "\\u" + (hex + t);
  }

  lemma SurrogatesStep(high: string, low: string, code: nat, t: string)
    requires PieceOk(Surrogates(high, low, code))
    ensures StringBody("\\u" + high + "\\u" + low + t) == Prepend(Utf8(code), StringBody(t))
  {
    hide Utf8, StringBody, Unicode, IsNibble;
    var s := high + ("\\u" + low + t);
    SurrogatesRead(high, low, code, t);
    EscapeStep(s, Utf8(code), t);
    assert "\\u" + high + "\\u" + low + t == "\\u" + s;
  }

  lemma RawReads(c: char, t: string)
    requires PieceOk(Raw(c))
    ensures StringBody([c] + t) == Prepend([c], StringBody(t))
  {
    assert ([c] + t)[1..] == t;
  }

  lemma EscapeStep(s: string, value: string, t: string)
    requires Unicode(s) == Ok(value, t)
    ensures StringBody("\\u" + s) == Prepend(value, StringBody(t))
  {
    hide Unicode;
    assert ("\\u" + s)[1..][1..] == s;
  }

  lemma UnitReads(hex: string, code: nat, t: string)
    requires PieceOk(Unit(hex, code))
    ensures Unicode(hex + t) == Ok(Utf8(code), t)
  {
    hide Hex4, Utf8, IsHex4;
    Hex4Accepts(hex, code, t);
  }

  lemma SurrogatesRead(high: string, low: string, code: nat, t: string)
    requires PieceOk(Surrogates(high, low, code))
    ensures Unicode(high + ("\\u" + low + t)) == Ok(Utf8(code), t)
  {
    hide Hex4, Utf8, IsHex4;
    assert ("\\u" + low + t)[2..] == low + t;
    Hex4Accepts(high, 0xD800 + (code - 0x1_0000) / 0x400, "\\u" + low + t);
    Hex4Accepts(low, 0xDC00 + (code - 0x1_0000) % 0x400, t);
    Halves(code);
  }

  lemma Halves(code: nat)
    requires 0x1_0000 <= code < 0x11_0000
    ensures (code - 0x1_0000) / 0x400 < 0x400
    ensures 0x1_0000 + (code - 0x1_0000) / 0x400 * 0x400 + (code - 0x1_0000) % 0x400 == code
  {
  }

  lemma ShortReads(row: nat, t: string)
    requires row < |SHORT|
    ensures StringBody(['\\', SHORT[row].0] + t) == Prepend([SHORT[row].1 as char], StringBody(t))
  {
    var s := ['\\', SHORT[row].0] + t;
    assert s[1..][1..] == t;
    assert row == 0 || row == 1 || row == 2 || row == 3 || row == 4 || row == 5 || row == 6 || row == 7;
  }

  lemma {:induction false} BodyReads(ps: seq<Piece>, rest: string)
    ensures StringBody(TextOf(ps) + "\"" + rest) == Ok(ValueOf(ps), rest)
    decreases |ps|
  {
    hide StringBody, PieceOk;
    if |ps| == 0 {
      EmptyBody(rest);
      assert TextOf(ps) + "\"" + rest == "\"" + rest;
    } else {
      var t := TextOf(ps[1..]) + "\"" + rest;
      assert TextOf(ps) + "\"" + rest == PieceText(ps[0]) + t;
      PieceReads(ps[0], t);
      BodyReads(ps[1..], rest);
    }
  }

  lemma EmptyBody(rest: string)
    ensures StringBody("\"" + rest) == Ok("", rest)
  {
    assert ("\"" + rest)[1..] == rest;
  }

  /** The first piece of a body that is read. */
  lemma FirstPiece(s: string) returns (p: Piece, t: string)
    requires StringBody(s).Ok? && s[0] != '\"'
    ensures s == PieceText(p) + t && |t| < |s| && StringBody(t).Ok?
    ensures StringBody(s) == Prepend(PieceValue(p), StringBody(t))
  {
    if s[0] != '\\' {
      p, t := Raw(s[0]), s[1..];
    } else {
      p, t := EscapedPiece(s[1..]);
      assert s == ['\\'] + s[1..];
      EscapeAgrees(p, t);
      assert s == PieceText(p) + t;
      PieceReads(p, t);
    }
  }

  /** What follows a backslash. */
  lemma EscapedPiece(s: string) returns (p: Piece, t: string)
    requires Escape(s).Ok?
    ensures !p.Raw? && ['\\'] + s == PieceText(p) + t && t == Escape(s).rest && PieceValue(p) == Escape(s).value
  {
    hide Hex4, Utf8, IsHex4;
    var c := s[0];
    if c == 'u' {
      p, t := UnicodePiece(s[1..]);
      assert ['\\'] + s == "\\u" + s[1..];
    } else {
      var row := ShortRow(c);
      p, t := Short(row), s[1..];
      assert ['\\'] + s == ['\\', c] + t;
    }
  }

  lemma ShortRow(c: char) returns (row: nat)
    requires c == '\"' || c == '\\' || c == '/' || c == 'n' || c == 't' || c == 'r' || c == 'b' || c == 'f'
    ensures row < |SHORT| && SHORT[row].0 == c
  {
    row := if c == '\"' then 0 else if c == '\\' then 1 else if c == '/' then 2 else if c == 'b' then 3
           else if c == 'f' then 4 else if c == 'n' then 5 else if c == 'r' then 6 else 7;
  }

  lemma EscapeAgrees(p: Piece, t: string)
    ensures |PieceText(p) + t| > |t|
  {
  }

  lemma UnicodePiece(s: string) returns (p: Piece, t: string)
    requires Unicode(s).Ok?
    ensures !p.Raw? && "\\u" + s == PieceText(p) + t && t == Unicode(s).rest && PieceValue(p) == Unicode(s).value
  {
    hide Hex4, Utf8, IsHex4;
    var code, rest := Hex4(s).value, Hex4(s).rest;
    Hex4Only(s);
    if HighSurrogate(code) {
      p, t := SurrogatesPiece(s);
    } else {
      p, t := Unit(s[..4], code), rest;
      assert "\\u" + s == "\\u" + s[..4] + rest;
    }
  }

  lemma SurrogatesPiece(s: string) returns (p: Piece, t: string)
    requires Hex4(s).Ok? && HighSurrogate(Hex4(s).value) && Unicode(s).Ok?
    ensures !p.Raw? && "\\u" + s == PieceText(p) + t && t == Unicode(s).rest && PieceValue(p) == Unicode(s).value
  {
    hide Hex4, Utf8, IsHex4;
    var code, rest := Hex4(s).value, Hex4(s).rest;
    var low := Hex4(rest[2..]).value;
    Hex4Only(s);
    Hex4Only(rest[2..]);
    Joined(code, low);
    t := Hex4(rest[2..]).rest;
    var a, b := s[..4], rest[2..][..4];
    p := Surrogates(a, b, 0x1_0000 + (code - 0xD800) * 0x400 + (low - 0xDC00));
    ThreeParts(s, rest, a, b, t);
  }

  lemma ThreeParts(s: string, rest: string, a: string, b: string, t: string)
    requires s == a + rest && |rest| >= 2 && rest[0] == '\\' && rest[1] == 'u' && rest[2..] == b + t
    ensures "\\u" + s == "\\u" + a + "\\u" + b + t
  {
    assert rest == "\\u" + rest[2..];
  }

  lemma Joined(high: nat, low: nat)
    requires HighSurrogate(high) && LowSurrogate(low)
    ensures var full := 0x1_0000 + (high - 0xD800) * 0x400 + (low - 0xDC00);
      && 0x1_0000 <= full < 0x11_0000
      && 0xD800 + (full - 0x1_0000) / 0x400 == high && 0xDC00 + (full - 0x1_0000) % 0x400 == low
  {
  }

  lemma {:induction false} BodyOnly(s: string) returns (ps: seq<Piece>)
    requires StringBody(s).Ok?
    ensures s == TextOf(ps) + "\"" + StringBody(s).rest && StringBody(s).value == ValueOf(ps)
    decreases |s|
  {
    hide PieceOk;
    if s[0] == '\"' {
      ps := [];
      assert s == "" + "\"" + s[1..];
    } else {
      var p, t := FirstPiece(s);
      var qs := BodyOnly(t);
      ps := [p] + qs;
      OnePiece(p, qs, StringBody(t).rest);
    }
  }

  lemma OnePiece(p: Piece, qs: seq<Piece>, rest: string)
    ensures ValueOf([p] + qs) == PieceValue(p) + ValueOf(qs)
    ensures TextOf([p] + qs) + "\"" + rest == PieceText(p) + (TextOf(qs) + "\"" + rest)
  {
    hide PieceOk, PieceText, PieceValue;
    assert ([p] + qs)[1..] == qs;
  }

  /** The text of a string. */
  ghost predicate IsString(text: string, value: string) {
    exists ps: seq<Piece> :: text == "\"" + TextOf(ps) + "\"" && value == ValueOf(ps)
  }

  /** The parser reads a string exactly where one stands, and it is the one that stands there. */
  lemma StringsAreRead(s: string, value: string, rest: string)
    ensures ParseString(s, 0) == Ok(value, rest) <==>
              |rest| <= |s| && s[|s| - |rest|..] == rest && IsString(s[..|s| - |rest|], value)
  {
    hide StringBody, IsString, ParseString;
    if ParseString(s, 0) == Ok(value, rest) { ReadIsString(s, value, rest); }
    if |rest| <= |s| && s[|s| - |rest|..] == rest && IsString(s[..|s| - |rest|], value) {
      StringIsRead(s[..|s| - |rest|], value, rest);
      assert s == s[..|s| - |rest|] + rest;
    }
  }

  lemma ReadIsString(s: string, value: string, rest: string)
    requires ParseString(s, 0) == Ok(value, rest)
    ensures |rest| <= |s| && s[|s| - |rest|..] == rest && IsString(s[..|s| - |rest|], value)
  {
    hide StringBody;
    var ps := BodyOnly(s[1..]);
    var text := "\"" + TextOf(ps) + "\"";
    hide TextOf, ValueOf;
    assert s == text + rest by { assert s == ['\"'] + s[1..]; }
    assert s[..|s| - |rest|] == text;
  }

  lemma StringIsRead(text: string, value: string, rest: string)
    requires IsString(text, value)
    ensures ParseString(text + rest, 0) == Ok(value, rest)
  {
    hide StringBody, TextOf, ValueOf;
    var ps: seq<Piece> :| text == "\"" + TextOf(ps) + "\"" && value == ValueOf(ps);
    BodyReads(ps, rest);
    assert (text + rest)[1..] == TextOf(ps) + "\"" + rest;
  }

  // ----- Writing -----

  /** How a character is written: by the table where it has a row there other than the slash's, as a code
      unit below the space, and as it is. */
  predicate WrittenAs(c: char, text: string) {
    if exists row :: 0 <= row < |SHORT| && row != 2 && SHORT[row].1 == c as int then
      exists row :: 0 <= row < |SHORT| && row != 2 && SHORT[row].1 == c as int && text == ['\\', SHORT[row].0]
    else if c as int < 0x20 then text == "\\u00" + [LOWER[c as int / 16], LOWER[c as int % 16]]
    else text == [c]
  }

  lemma EscapedIsWritten(c: char)
    ensures WrittenAs(c, Escaped(c))
  {
    if c as int < 0x20 && c as int !in {8, 9, 10, 12, 13} {
      HexDigitLower(c as int / 16);
      HexDigitLower(c as int % 16);
    }
    assert SHORT[0].1 == 0x22 && SHORT[1].1 == 0x5C && SHORT[3].1 == 8 && SHORT[4].1 == 12 && SHORT[5].1 == 10 && SHORT[6].1 == 13 && SHORT[7].1 == 9;
  }

  lemma HexDigitLower(d: nat)
    requires d < 16
    ensures HexDigit(d) == LOWER[d]
  {
    assert d == 0 || d == 1 || d == 2 || d == 3 || d == 4 || d == 5 || d == 6 || d == 7
        || d == 8 || d == 9 || d == 10 || d == 11 || d == 12 || d == 13 || d == 14 || d == 15;
  }

  /** The parts of a text, one for each character. */
  ghost predicate Writes(s: string, parts: seq<string>) {
    |parts| == |s| && forall i :: 0 <= i < |s| ==> WrittenAs(s[i], parts[i])
  }

  function Joins(parts: seq<string>): string
    decreases |parts|
  {
    if |parts| == 0 then "" else parts[0] + Joins(parts[1..])
  }

  /** The printer: between quotes, every character as the table has it. */
  lemma StringIsWritten(s: string) returns (parts: seq<string>)
    ensures Writes(s, parts) && StrText(s) == "\"" + Joins(parts) + "\""
  {
    hide WrittenAs;
    parts := AllWritten(s);
  }

  lemma {:induction false} AllWritten(s: string) returns (parts: seq<string>)
    ensures Writes(s, parts) && EscapedAll(s) == Joins(parts)
    decreases |s|
  {
    hide WrittenAs;
    if s == "" {
      parts := [];
    } else {
      var rest := AllWritten(s[1..]);
      EscapedIsWritten(s[0]);
      parts := [Escaped(s[0])] + rest;
      assert parts[1..] == rest;
      forall i | 0 <= i < |s| ensures WrittenAs(s[i], parts[i]) {
        if i > 0 { assert s[i] == s[1..][i - 1] && parts[i] == rest[i - 1]; }
      }
    }
  }

  /** No character can be written in two ways. */
  lemma WrittenOnce(c: char, a: string, b: string)
    requires WrittenAs(c, a) && WrittenAs(c, b)
    ensures a == b
  {
  }
}
