/** The recursive-descent parser as functions of the text still to be read, and what it accepts. */
module JsonParser {
  import opened Doubles
  import opened Json
  import opened Options

  const MAX_PARSE_DEPTH := 100

  /** A thrown exception, or a value and the rest of the text. */
  datatype Parse<+T> = Fail | Ok(value: T, rest: string)

  /** std::isspace, std::isdigit and std::isxdigit in the C locale. */
  predicate IsSpace(c: char) {
    c == ' ' || 9 <= c as int <= 13
  }

  predicate IsDigit(c: char) {
    '0' <= c <= '9'
  }

  predicate IsHex(c: char) {
    IsDigit(c) || 'a' <= c <= 'f' || 'A' <= c <= 'F'
  }

  function HexValue(c: char): (v: nat)
    requires IsHex(c)
    ensures v < 16
  {
    if IsDigit(c) then c as int - '0' as int
    else if 'a' <= c <= 'f' then c as int - 'a' as int + 10
    else c as int - 'A' as int + 10
  }

  function SkipWs(s: string): (r: string)
    ensures |r| <= |s|
    decreases |s|
  {
    if s != [] && IsSpace(s[0]) then SkipWs(s[1..]) else s
  }

  // ----- strings -----

  /** Four hexadecimal digits. */
  function Hex4(s: string): (r: Parse<nat>)
    ensures r.Ok? ==> |r.rest| + 4 == |s| && r.value < 0x1_0000
  {
    if |s| < 4 || !(forall i :: 0 <= i < 4 ==> IsHex(s[i])) then Fail
    else
      var (a, b, c, d) := (HexValue(s[0]), HexValue(s[1]), HexValue(s[2]), HexValue(s[3]));
      Ok(a * 4096 + b * 256 + c * 16 + d, s[4..])
  }

  function Character(n: nat): char
    requires n < 256
  {
    n as char
  }

  /** The UTF-8 bytes of a code point (RFC 3629 section 3). */
  function Utf8(code: nat): string
    requires code < 0x11_0000
  {
    if code < 0x80 then [Character(code)]
    else if code < 0x800 then [Character(0xC0 + code / 0x40), Character(0x80 + code % 0x40)]
    else if code < 0x1_0000 then
      [Character(0xE0 + code / 0x1000), Character(0x80 + code / 0x40 % 0x40), Character(0x80 + code % 0x40)]
    else
      [Character(0xF0 + code / 0x4_0000), Character(0x80 + code / 0x1000 % 0x40), Character(0x80 + code / 0x40 % 0x40),
       Character(0x80 + code % 0x40)]
  }

  predicate HighSurrogate(code: nat) {
    0xD800 <= code <= 0xDBFF
  }

  predicate LowSurrogate(code: nat) {
    0xDC00 <= code <= 0xDFFF
  }

  /** The low surrogate that must follow a high one, as the code point of the pair. */
  function Pair(high: nat, s: string): (r: Parse<nat>)
    requires HighSurrogate(high)
    ensures r.Ok? ==> |r.rest| < |s| && 0x1_0000 <= r.value < 0x11_0000
  {
    if |s| < 2 || s[0] != '\\' || s[1] != 'u' then Fail
    else
      match Hex4(s[2..])
      case Fail => Fail
      case Ok(low, rest) =>
        if LowSurrogate(low) then Ok(0x1_0000 + (high - 0xD800) * 0x400 + (low - 0xDC00), rest) else Fail
  }

  /** What follows "\u". */
  function Unicode(s: string): (r: Parse<string>)
    ensures r.Ok? ==> |r.rest| < |s|
  {
    match Hex4(s)
    case Fail => Fail
    case Ok(code, rest) =>
      if HighSurrogate(code) then
        match Pair(code, rest)
        case Fail => Fail
        case Ok(full, rest2) => Ok(Utf8(full), rest2)
      else if LowSurrogate(code) then Fail
      else Ok(Utf8(code), rest)
  }

  /** What follows a backslash. */
  function Escape(s: string): (r: Parse<string>)
    ensures r.Ok? ==> |r.rest| < |s|
  {
    if s == [] then Fail
    else
      var c := s[0];
      if c == 'u' then Unicode(s[1..])
      else if c == '\"' || c == '\\' || c == '/' then Ok([c], s[1..])
      else if c == 'n' then Ok("\n", s[1..])
      else if c == 't' then Ok("\t", s[1..])
      else if c == 'r' then Ok("\r", s[1..])
      else if c == 'b' then Ok([Character(8)], s[1..])
      else if c == 'f' then Ok([Character(12)], s[1..])
      else Fail
  }

  function Prepend(prefix: string, p: Parse<string>): Parse<string> {
    match p
    case Fail => Fail
    case Ok(v, rest) => Ok(prefix + v, rest)
  }

  /** The characters of a string and its closing quote. */
  function StringBody(s: string): (r: Parse<string>)
    ensures r.Ok? ==> |r.rest| < |s|
    decreases |s|
  {
    if s == [] then Fail
    else if s[0] == '\"' then Ok("", s[1..])
    else if s[0] as int < 32 then Fail
    else if s[0] == '\\' then
      match Escape(s[1..])
      case Fail => Fail
      case Ok(v, rest) => Prepend(v, StringBody(rest))
    else Prepend([s[0]], StringBody(s[1..]))
  }

  function ParseString(s: string, depth: nat): (r: Parse<string>)
    ensures r.Ok? ==> |r.rest| < |s|
  {
    if depth > MAX_PARSE_DEPTH || s == [] || s[0] != '\"' then Fail else StringBody(s[1..])
  }

  // ----- numbers and literals -----

  /** The longest run of digits at the front. */
  function DigitRun(s: string): (n: nat)
    ensures n <= |s|
    ensures forall i :: 0 <= i < n ==> IsDigit(s[i])
    ensures n < |s| ==> !IsDigit(s[n])
    decreases |s|
  {
    if s != [] && IsDigit(s[0]) then 1 + DigitRun(s[1..]) else 0
  }

  /** The value of a run of digits. */
  function NatValue(s: string): nat
    requires forall i :: 0 <= i < |s| ==> IsDigit(s[i])
    decreases |s|
  {
    if s == [] then 0
    else
      assert IsDigit(s[|s| - 1]);
      NatValue(s[..|s| - 1]) * 10 + (s[|s| - 1] as int - '0' as int)
  }

  /** The integer part: digits without a leading zero. */
  function IntegerPart(s: string): (r: Parse<string>)
    ensures r.Ok? ==> |r.rest| < |s| && forall i :: 0 <= i < |r.value| ==> IsDigit(r.value[i])
  {
    var n := DigitRun(s);
    if n == 0 || (s[0] == '0' && n > 1) then Fail else Ok(s[..n], s[n..])
  }

  /** ".5", or nothing. */
  function Fraction(s: string): (r: Parse<string>)
    ensures r.Ok? ==> |r.rest| <= |s|
  {
    if s == [] || s[0] != '.' then Ok("", s)
    else
      var t := s[1..];
      var n := DigitRun(t);
      if n == 0 then Fail else Ok("." + t[..n], t[n..])
  }

  /** "e+5", or nothing. */
  function Exponent(s: string): (r: Parse<string>)
    ensures r.Ok? ==> |r.rest| <= |s|
  {
    if s == [] || (s[0] != 'e' && s[0] != 'E') then Ok("", s)
    else
      var signed := |s| > 1 && (s[1] == '+' || s[1] == '-');
      var t := if signed then s[1..][1..] else s[1..];
      var n := DigitRun(t);
      if n == 0 then Fail else Ok([s[0]] + (if signed then [s[1]] else "") + t[..n], t[n..])
  }

  /** std::stoll, which throws where the value does not fit an int64. */
  function ToInt64(negative: bool, digits: string): Option<int>
    requires forall i :: 0 <= i < |digits| ==> IsDigit(digits[i])
  {
    var m: int := NatValue(digits);
    var n := if negative then -m else m;
    if INT64_MIN <= n <= INT64_MAX then Some(n) else None
  }

  /** parse_number. */
  function ParseNumber(s: string): (r: Parse<Json>)
    ensures r.Ok? ==> |r.rest| < |s|
  {
    if s != [] && s[0] == '-' then Unsigned(true, s[1..]) else Unsigned(false, s)
  }

  function OnlyDigits(s: string): (r: string)
    ensures forall i :: 0 <= i < |r| ==> IsDigit(r[i])
    decreases |s|
  {
    if s == [] then [] else (if IsDigit(s[0]) then [s[0]] else []) + OnlyDigits(s[1..])
  }

  /** stod of an unsigned number with this integer part, ".5" or nothing, and "e+5" or nothing. */
  function StodOf(digits: string, fraction: string, exponent: string): Option<Double> {
    var m := NatValue(OnlyDigits(digits + fraction));
    var k: int := NatValue(OnlyDigits(exponent));
    var places: int := if fraction == "" then 0 else |fraction| - 1;
    var power: int := if '-' in exponent then -k - places else k - places;
    if power >= 0 then Stod(m * Pow(10, power), 1) else Stod(m, Pow(10, -power))
  }

  /** What a number without a fraction becomes: the integer the double is, if it is an int64. */
  function WholeInt64(negative: bool, d: Double): Option<int> {
    match Whole(d)
    case None => None
    case Some(size) =>
      var m: int := size;
      var n: int := if negative then -m else m;
      if INT64_MIN <= n <= INT64_MAX then Some(n) else None
  }

  /** A number that goes through stod. One that is not made an integer is kept as its text. */
  function Scientific(negative: bool, digits: string, fraction: string, exponent: string): Option<Json> {
    match StodOf(digits, fraction, exponent)
    case None => None
    case Some(d) =>
      if fraction == "" && WholeInt64(negative, d).Some? then Some(Integer(WholeInt64(negative, d).value))
      else Some(Float((if negative then "-" else "") + digits + fraction + exponent))
  }

  /** A number after its sign. */
  function Unsigned(negative: bool, s: string): (r: Parse<Json>)
    ensures r.Ok? ==> |r.rest| < |s|
  {
    match IntegerPart(s)
    case Fail => Fail
    case Ok(digits, s1) =>
      match Fraction(s1)
      case Fail => Fail
      case Ok(fraction, s2) =>
        match Exponent(s2)
        case Fail => Fail
        case Ok(exponent, s3) =>
          if fraction != "" || exponent != "" then
            match Scientific(negative, digits, fraction, exponent)
            case None => Fail
            case Some(v) => Ok(v, s3)
          else
            match ToInt64(negative, digits)
            case None => Fail
            case Some(n) => Ok(Integer(n), s3)
  }

  function ParseLiteral(s: string, literal: string, v: Json): (r: Parse<Json>)
    ensures r.Ok? ==> |r.rest| + |literal| == |s|
  {
    if literal <= s then Ok(v, s[|literal|..]) else Fail
  }

  // ----- values -----

  function ParseValue(s: string, depth: nat): (r: Parse<Json>)
    ensures r.Ok? ==> |r.rest| < |s|
    decreases |s|, 3
  {
    var t := SkipWs(s);
    if depth > MAX_PARSE_DEPTH || t == [] then Fail
    else if t[0] == '\"' then
      match ParseString(t, depth)
      case Fail => Fail
      case Ok(v, rest) => Ok(Str(v), rest)
    else if t[0] == '{' then ParseObject(t, depth)
    else if t[0] == '[' then ParseArray(t, depth)
    else if IsDigit(t[0]) || t[0] == '-' then ParseNumber(t)
    else if t[0] == 't' then ParseLiteral(t, "true", Bool(true))
    else if t[0] == 'f' then ParseLiteral(t, "false", Bool(false))
    else if t[0] == 'n' then ParseLiteral(t, "null", Null)
    else Fail
  }

  function ParseArray(s: string, depth: nat): (r: Parse<Json>)
    requires s != [] && s[0] == '['
    ensures r.Ok? ==> |r.rest| < |s|
    decreases |s|, 2
  {
    if depth > MAX_PARSE_DEPTH then Fail
    else
      match ParseElements(SkipWs(s[1..]), depth, [])
      case Fail => Fail
      case Ok(es, rest) => Ok(Arr(es), rest)
  }

  /** After a child: a comma and something other than the closing bracket, or that bracket. */
  function Separator(s: string, close: char): (r: Parse<()>)
    ensures r.Ok? ==> |r.rest| <= |s|
  {
    var t := SkipWs(s);
    if t == [] then Fail
    else if t[0] == ',' then
      var u := SkipWs(t[1..]);
      if u == [] || u[0] == close then Fail else Ok((), u)
    else if t[0] == close then Ok((), t)
    else Fail
  }

  /** The loop of parse_array. */
  function ParseElements(s: string, depth: nat, done: seq<Json>): (r: Parse<seq<Json>>)
    ensures r.Ok? ==> |r.rest| < |s|
    decreases |s|, 4
  {
    if s == [] then Fail
    else if s[0] == ']' then Ok(done, s[1..])
    else
      match ParseValue(s, depth + 1)
      case Fail => Fail
      case Ok(v, rest) =>
        match Separator(rest, ']')
        case Fail => Fail
        case Ok(_, next) => ParseElements(next, depth, done + [v])
  }

  function ParseObject(s: string, depth: nat): (r: Parse<Json>)
    requires s != [] && s[0] == '{'
    ensures r.Ok? ==> |r.rest| < |s|
    decreases |s|, 2
  {
    if depth > MAX_PARSE_DEPTH then Fail
    else
      match ParseMembers(SkipWs(s[1..]), depth, [])
      case Fail => Fail
      case Ok(ms, rest) => Ok(Obj(ms), rest)
  }

  /** The key of a member and the colon after it. */
  function ParseKey(s: string, depth: nat): (r: Parse<string>)
    ensures r.Ok? ==> |r.rest| < |s|
  {
    match ParseString(s, depth + 1)
    case Fail => Fail
    case Ok(k, rest) =>
      var t := SkipWs(rest);
      if t == [] || t[0] != ':' then Fail else Ok(k, SkipWs(t[1..]))
  }

  /** The loop of parse_object. */
  function ParseMembers(s: string, depth: nat, done: seq<Member>): (r: Parse<seq<Member>>)
    ensures r.Ok? ==> |r.rest| < |s|
    decreases |s|, 4
  {
    if s == [] then Fail
    else if s[0] == '}' then Ok(done, s[1..])
    else
      match ParseKey(s, depth)
      case Fail => Fail
      case Ok(k, rest) =>
        if exists i :: 0 <= i < |done| && done[i].key == k then Fail
        else
          match ParseValue(rest, depth + 1)
          case Fail => Fail
          case Ok(v, rest2) =>
            match Separator(rest2, '}')
            case Fail => Fail
            case Ok(_, next) => ParseMembers(next, depth, Insert(done, k, v))
  }

  /** Json::parse. */
  function ParseText(text: string): Option<Json> {
    if text == "" then None
    else
      match ParseValue(text, 0)
      case Fail => None
      case Ok(v, rest) => if SkipWs(rest) == [] then Some(v) else None
  }
}
