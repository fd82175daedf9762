/** The parser and the printer as they run: loops over a stream and an output buffer, proved to do
    what the functions of `JsonParser` and `Json` say. */
module JsonReader {
  import opened Json
  import opened JsonParser
  import opened Options

  /** A std::istringstream, as what has not been read yet. A thrown exception is None. */
  class Reader {
    var rest: string

    constructor (text: string)
      ensures rest == text
    {
      rest := text;
    }

    method SkipSpace()
      modifies this`rest
      ensures rest == SkipWs(old(rest))
    {
      while rest != [] && IsSpace(rest[0])
        invariant SkipWs(rest) == SkipWs(old(rest))
      {
        rest := rest[1..];
      }
    }

    /** Has the stream moved to where the spec's parse ends, with its value? */
    predicate Agrees<T(==)>(spec: Parse<T>, r: Option<T>)
      reads this
    {
      match spec
      case Fail => r == None
      case Ok(v, left) => r == Some(v) && rest == left
    }

    /** The four digits of a unicode escape, gathered one by one. */
    method ReadHex4() returns (r: Option<nat>)
      modifies this`rest
      ensures Agrees(Hex4(old(rest)), r)
    {
      ghost var s := rest;
      var code := 0;
      for i := 0 to 4
        invariant i <= |s| && rest == s[i..] && (forall j :: 0 <= j < i ==> IsHex(s[j]))
        invariant code == HexFold(s, i)
      {
        if rest == [] || !IsHex(rest[0]) { return None; }
        code := code * 16 + HexValue(rest[0]);
        rest := rest[1..];
      }
      assert s[4..] == rest;
      HexFour(s);
      return Some(code);
    }

    /** What follows "\u", surrogate pairs included, as UTF-8. */
    method ReadUnicode() returns (r: Option<string>)
      modifies this`rest
      ensures Agrees(Unicode(old(rest)), r)
    {
      hide Hex4, Utf8;
      var code := ReadHex4();
      if code == None { return None; }
      if HighSurrogate(code.value) {
        ghost var s := rest;
        if rest == [] || rest[0] != '\\' { return None; }
        rest := rest[1..];
        if rest == [] || rest[0] != 'u' { return None; }
        rest := rest[1..];
        assert rest == s[2..];
        var low := ReadHex4();
        if low == None || !LowSurrogate(low.value) { return None; }
        return Some(Utf8(0x1_0000 + (code.value - 0xD800) * 0x400 + (low.value - 0xDC00)));
      }
      if LowSurrogate(code.value) { return None; }
      return Some(Utf8(code.value));
    }

    /** The escape after a backslash that has been read. */
    method ReadEscape() returns (r: Option<string>)
      modifies this`rest
      ensures Agrees(Escape(old(rest)), r)
    {
      hide Unicode;
      if rest == [] { return None; }
      var c := rest[0];
      rest := rest[1..];
      if c == 'u' { r := ReadUnicode(); return; }
      if c == '\"' { return Some("\""); }
      if c == 'n' { return Some("\n"); }
      if c == 't' { return Some("\t"); }
      if c == 'r' { return Some("\r"); }
      if c == '\\' { return Some("\\"); }
      if c == '/' { return Some("/"); }
      if c == 'b' { return Some([Character(8)]); }
      if c == 'f' { return Some([Character(12)]); }
      return None;
    }

    method ReadString(depth: nat) returns (r: Option<string>)
      modifies this`rest
      ensures Agrees(ParseString(old(rest), depth), r)
    {
      hide StringBody, Escape;
      if depth > MAX_PARSE_DEPTH { return None; }
      if rest == [] || rest[0] != '\"' { return None; }
      rest := rest[1..];
      ghost var goal := StringBody(rest);
      var result := "";
      assert goal.Ok? ==> "" + goal.value == goal.value;
      while rest != [] && rest[0] != '\"'
        invariant Prepend(result, StringBody(rest)) == goal
        decreases |rest|
      {
        StringStep(rest);
        if rest[0] as int < 32 { return None; }
        ghost var so := result;
        if rest[0] == '\\' {
          rest := rest[1..];
          var e := ReadEscape();
          if e == None { return None; }
          result := result + e.value;
          PrependTwice(so, e.value, StringBody(rest));
        } else {
          var c := rest[0];
          result := result + [c];
          rest := rest[1..];
          PrependTwice(so, [c], StringBody(rest));
        }
      }
      StringStep(rest);
      if rest == [] { return None; }
      assert result + "" == result;
      rest := rest[1..];
      return Some(result);
    }

    /** A run of digits. */
    method ReadDigits() returns (digits: string)
      modifies this`rest
      ensures DigitRun(old(rest)) == |digits|
      ensures digits == old(rest)[..|digits|] && rest == old(rest)[|digits|..]
    {
      ghost var s := rest;
      digits := "";
      while rest != [] && IsDigit(rest[0])
        invariant |digits| <= |s| && digits == s[..|digits|] && rest == s[|digits|..]
        invariant DigitRun(s) == |digits| + DigitRun(rest)
        decreases |rest|
      {
        digits := digits + [rest[0]];
        rest := rest[1..];
      }
    }

    method ReadNumber() returns (r: Option<Json>)
      modifies this`rest
      ensures Agrees(ParseNumber(old(rest)), r)
    {
      hide Unsigned;
      if rest != [] && rest[0] == '-' {
        rest := rest[1..];
        r := ReadUnsigned(true);
      } else {
        r := ReadUnsigned(false);
      }
    }

    method ReadIntegerPart() returns (r: Option<string>)
      modifies this`rest
      ensures Agrees(IntegerPart(old(rest)), r)
    {
      ghost var s := rest;
      if rest == [] || !IsDigit(rest[0]) { return None; }
      if rest[0] == '0' {
        rest := rest[1..];
        if rest != [] && IsDigit(rest[0]) {
          assert DigitRun(s) == 1 + DigitRun(s[1..]) && DigitRun(s[1..]) > 0;
          return None;
        }
        assert s[..1] == "0";
        return Some("0");
      }
      var digits := ReadDigits();
      return Some(digits);
    }

    method ReadFraction() returns (r: Option<string>)
      modifies this`rest
      ensures Agrees(Fraction(old(rest)), r)
    {
      if rest == [] || rest[0] != '.' { return Some(""); }
      rest := rest[1..];
      var digits := ReadDigits();
      if digits == "" { return None; }
      return Some("." + digits);
    }

    method ReadExponent() returns (r: Option<string>)
      modifies this`rest
      ensures Agrees(Exponent(old(rest)), r)
    {
      hide DigitRun;
      if rest == [] || (rest[0] != 'e' && rest[0] != 'E') { return Some(""); }
      var read := [rest[0]];
      rest := rest[1..];
      var sign := "";
      if rest != [] && (rest[0] == '+' || rest[0] == '-') {
        sign := [rest[0]];
        rest := rest[1..];
      }
      var digits := ReadDigits();
      if digits == "" { return None; }
      return Some(read + sign + digits);
    }

    method ReadUnsigned(negative: bool) returns (r: Option<Json>)
      modifies this`rest
      ensures Agrees(Unsigned(negative, old(rest)), r)
    {
      hide IntegerPart, Fraction, Exponent, ToInt64, Scientific;
      var digits := ReadIntegerPart();
      if digits == None { return None; }
      var fraction := ReadFraction();
      if fraction == None { return None; }
      var exponent := ReadExponent();
      if exponent == None { return None; }
      if fraction.value != "" || exponent.value != "" {
        return Scientific(negative, digits.value, fraction.value, exponent.value);
      }
      var n := ToInt64(negative, digits.value);
      return if n == None then None else Some(Integer(n.value));
    }

    method ReadLiteral(literal: string, v: Json) returns (r: Option<Json>)
      modifies this`rest
      ensures Agrees(ParseLiteral(old(rest), literal, v), r)
    {
      ghost var s := rest;
      for i := 0 to |literal|
        invariant i <= |s| && rest == s[i..] && literal[..i] == s[..i]
      {
        if rest == [] || rest[0] != literal[i] { return None; }
        rest := rest[1..];
      }
      assert s[|literal|..] == rest;
      return Some(v);
    }

    method ReadSeparator(close: char) returns (ok: bool)
      requires close != ','
      modifies this`rest
      ensures Agrees(Separator(old(rest), close), if ok then Some(()) else None)
    {
      hide SkipWs;
      SkipSpace();
      if rest == [] { return false; }
      if rest[0] == ',' {
        rest := rest[1..];
        SkipSpace();
        return rest != [] && rest[0] != close;
      }
      return rest[0] == close;
    }

    method ReadValue(depth: nat) returns (r: Option<Json>)
      modifies this`rest
      ensures Agrees(ParseValue(old(rest), depth), r)
      decreases |rest|, 3
    {
      if depth > MAX_PARSE_DEPTH { return None; }
      SkipSpace();
      if rest == [] { return None; }
      var c := rest[0];
      if c == '\"' {
        var s := ReadString(depth);
        return if s == None then None else Some(Str(s.value));
      } else if c == '{' { r := ReadObject(depth);
      } else if c == '[' { r := ReadArray(depth);
      } else if IsDigit(c) || c == '-' { r := ReadNumber();
      } else if c == 't' { r := ReadLiteral("true", Bool(true));
      } else if c == 'f' { r := ReadLiteral("false", Bool(false));
      } else if c == 'n' { r := ReadLiteral("null", Null);
      } else { return None; }
    }

    method ReadArray(depth: nat) returns (r: Option<Json>)
      requires rest != [] && rest[0] == '['
      modifies this`rest
      ensures Agrees(ParseArray(old(rest), depth), r)
      decreases |rest|, 2
    {
      hide ParseElements;
      if depth > MAX_PARSE_DEPTH { return None; }
      rest := rest[1..];
      SkipSpace();
      var es := ReadElements(depth);
      return if es == None then None else Some(Arr(es.value));
    }

    method ReadElements(depth: nat) returns (r: Option<seq<Json>>)
      modifies this`rest
      ensures Agrees(ParseElements(old(rest), depth, []), r)
      decreases |rest|, 4
    {
      hide ParseValue, Separator;
      ghost var goal := ParseElements(rest, depth, []);
      var arr: seq<Json> := [];
      while rest != [] && rest[0] != ']'
        invariant ParseElements(rest, depth, arr) == goal
        decreases |rest|
      {
        var v := ReadValue(depth + 1);
        if v == None { return None; }
        var ok := ReadSeparator(']');
        if !ok { return None; }
        arr := arr + [v.value];
      }
      if rest == [] { return None; }
      rest := rest[1..];
      return Some(arr);
    }

    method ReadObject(depth: nat) returns (r: Option<Json>)
      requires rest != [] && rest[0] == '{'
      modifies this`rest
      ensures Agrees(ParseObject(old(rest), depth), r)
      decreases |rest|, 2
    {
      hide ParseMembers;
      if depth > MAX_PARSE_DEPTH { return None; }
      rest := rest[1..];
      SkipSpace();
      var ms := ReadMembers(depth);
      return if ms == None then None else Some(Obj(ms.value));
    }

    method ReadKey(depth: nat) returns (r: Option<string>)
      modifies this`rest
      ensures Agrees(ParseKey(old(rest), depth), r)
    {
      hide SkipWs, ParseString;
      r := ReadString(depth + 1);
      if r == None { return; }
      SkipSpace();
      if rest == [] || rest[0] != ':' { return None; }
      rest := rest[1..];
      SkipSpace();
    }

    method ReadMembers(depth: nat) returns (r: Option<seq<Member>>)
      modifies this`rest
      ensures Agrees(ParseMembers(old(rest), depth, []), r)
      decreases |rest|, 4
    {
      hide ParseValue, Separator, ParseKey, Insert;
      ghost var goal := ParseMembers(rest, depth, []);
      var obj: seq<Member> := [];
      while rest != [] && rest[0] != '}'
        invariant ParseMembers(rest, depth, obj) == goal
        decreases |rest|
      {
        var k := ReadKey(depth);
        if k == None { return None; }
        if exists i :: 0 <= i < |obj| && obj[i].key == k.value { return None; }
        var v := ReadValue(depth + 1);
        if v == None { return None; }
        var ok := ReadSeparator('}');
        if !ok { return None; }
        obj := Insert(obj, k.value, v.value);
      }
      if rest == [] { return None; }
      rest := rest[1..];
      return Some(obj);
    }
  }

  /** The value of the first n hexadecimal digits. */
  function HexFold(s: string, n: nat): nat
    requires n <= |s| && forall j :: 0 <= j < n ==> IsHex(s[j])
  {
    if n == 0 then 0 else HexFold(s, n - 1) * 16 + HexValue(s[n - 1])
  }

  lemma HexFour(s: string)
    requires |s| >= 4 && forall j :: 0 <= j < 4 ==> IsHex(s[j])
    ensures Hex4(s) == Ok(HexFold(s, 4), s[4..])
  {
    assert HexFold(s, 2) == HexFold(s, 1) * 16 + HexValue(s[1]);
    assert HexFold(s, 4) == HexFold(s, 3) * 16 + HexValue(s[3]);
  }

  lemma PrependTwice(a: string, b: string, p: Parse<string>)
    ensures Prepend(a + b, p) == Prepend(a, Prepend(b, p))
  {
    if p.Ok? { assert a + b + p.value == a + (b + p.value); }
  }

  lemma StringStep(s: string)
    ensures StringBody(s) ==
              if s == [] then Fail
              else if s[0] == '\"' then Ok("", s[1..])
              else if s[0] as int < 32 then Fail
              else if s[0] == '\\' then
                (match Escape(s[1..]) case Fail => Fail case Ok(v, rest) => Prepend(v, StringBody(rest)))
              else Prepend([s[0]], StringBody(s[1..]))
  {
    hide Escape, Prepend;
  }

  /** Json::parse. */
  method Parse(text: string) returns (r: Option<Json>)
    ensures r == ParseText(text)
  {
    hide ParseValue;
    if text == "" { return None; }
    var reader := new Reader(text);
    r := reader.ReadValue(0);
    if r == None { return; }
    reader.SkipSpace();
    if reader.rest != [] { return None; }
  }
}
