/** Printing and parsing are inverse, down to the parser's depth limit, and the parser only returns
    values the printer can print. */
module JsonRoundTrip {
  import opened Doubles
  import opened Json
  import opened JsonParser
  import opened Options

  // ----- strings -----

  /** One escaped byte is read back as that byte. */
  lemma EscapedReads(c: char, t: string)
    ensures StringBody(Escaped(c) + t) == Prepend([c], StringBody(t))
  {
    var s := Escaped(c) + t;
    if c == '\"' || c == '\\' || c == '\n' || c == '\r' || c == '\t' || c as int == 8 || c as int == 12 {
      assert s[1..][1..] == t;
    } else if c as int < 32 {
      ControlReads(c, t);
    } else {
      assert s[1..] == t;
    }
  }

  lemma ControlReads(c: char, t: string)
    requires c as int < 32
    ensures var s := "\\u00" + [HexDigit(c as int / 16), HexDigit(c as int % 16)] + t;
            StringBody(s) == Prepend([c], StringBody(t))
  {
    var (h, l) := (HexDigit(c as int / 16), HexDigit(c as int % 16));
    var s := "\\u00" + [h, l] + t;
    var hex := "00" + [h, l] + t;
    assert s[1..][1..] == hex;
    assert hex[4..] == t;
    assert HexValue(h) == c as int / 16 && HexValue(l) == c as int % 16;
    assert Hex4(hex) == Ok(c as int, t);
    assert Unicode(hex) == Ok([c], t);
  }

  lemma {:induction false} BodyRoundTrip(s: string, rest: string)
    ensures StringBody(EscapedAll(s) + "\"" + rest) == Ok(s, rest)
    decreases |s|
  {
    if s == "" {
      assert (EscapedAll(s) + "\"" + rest)[1..] == rest;
    } else {
      var t := EscapedAll(s[1..]) + "\"" + rest;
      assert EscapedAll(s) + "\"" + rest == Escaped(s[0]) + t;
      EscapedReads(s[0], t);
      BodyRoundTrip(s[1..], rest);
      assert [s[0]] + s[1..] == s;
    }
  }

  /** Every string of bytes survives, quotes, backslashes and control characters included. */
  lemma StringRoundTrip(s: string, depth: nat, rest: string)
    ensures ParseString(StrText(s) + rest, depth) == if depth > MAX_PARSE_DEPTH then Fail else Ok(s, rest)
  {
    assert (StrText(s) + rest)[1..] == EscapedAll(s) + "\"" + rest;
    BodyRoundTrip(s, rest);
  }

  // ----- integers -----

  lemma {:induction false} NatTextDigits(n: nat)
    ensures |NatText(n)| > 0 && forall i :: 0 <= i < |NatText(n)| ==> IsDigit(NatText(n)[i])
    ensures NatValue(NatText(n)) == n
    ensures NatText(n)[0] == '0' ==> n == 0 && |NatText(n)| == 1
    decreases n
  {
    if n >= 10 {
      NatTextDigits(n / 10);
      var s := NatText(n);
      assert s[..|s| - 1] == NatText(n / 10);
    }
  }

  /** Text that ends a number. */
  predicate EndsNumber(s: string) {
    s == [] || (!IsDigit(s[0]) && s[0] != '.' && s[0] != 'e' && s[0] != 'E')
  }

  lemma {:induction false} DigitRunIs(s: string, rest: string)
    requires (forall i :: 0 <= i < |s| ==> IsDigit(s[i])) && (rest == [] || !IsDigit(rest[0]))
    ensures DigitRun(s + rest) == |s|
    decreases |s|
  {
    if s == [] {
      assert s + rest == rest;
    } else {
      assert (s + rest)[1..] == s[1..] + rest;
      DigitRunIs(s[1..], rest);
    }
  }

  /** A number without fraction or exponent. */
  lemma NumberReads(negative: bool, digits: string, rest: string)
    requires digits != [] && (forall i :: 0 <= i < |digits| ==> IsDigit(digits[i])) && EndsNumber(rest)
    requires digits[0] == '0' ==> |digits| == 1
    ensures Unsigned(negative, digits + rest) ==
              match ToInt64(negative, digits) case None => Fail case Some(n) => Ok(Integer(n), rest)
  {
    DigitRunIs(digits, rest);
    hide ToInt64, DigitRun;
    var t := digits + rest;
    assert t[..|digits|] == digits && t[|digits|..] == rest;
    assert Fraction(rest) == Ok("", rest) && Exponent(rest) == Ok("", rest);
  }

  lemma {:induction false} OnlyDigitsIs(s: string)
    requires forall i :: 0 <= i < |s| ==> IsDigit(s[i])
    ensures OnlyDigits(s) == s
    decreases |s|
  {
    if s != [] { OnlyDigitsIs(s[1..]); }
  }

  lemma WholeSmall(negative: bool, n: nat)
    requires n < TWO53
    ensures Stod(n, 1).Some? && WholeInt64(negative, Stod(n, 1).value) == Some(if negative then 0 - n else n)
  {
    SmallWhole(n);
    hide Stod, Whole;
  }

  lemma ExponentReads(power: string, rest: string)
    requires power != [] && (forall i :: 0 <= i < |power| ==> IsDigit(power[i])) && (rest == [] || !IsDigit(rest[0]))
    ensures Exponent("e" + power + rest) == Ok("e" + power, rest)
  {
    hide DigitRun;
    var s := "e" + power + rest;
    DigitRunIs(power, rest);
    assert s[1..] == power + rest && (power + rest)[..|power|] == power && (power + rest)[|power|..] == rest;
    assert |s| > 1 && s[1] == power[0];
    assert ['e'] + "" + power == "e" + power;
  }

  /** A whole number with an exponent is an integer: exactly the one it writes, below 2^53. */
  lemma ScientificReads(negative: bool, digits: string, k: nat, rest: string)
    requires digits != [] && (forall i :: 0 <= i < |digits| ==> IsDigit(digits[i])) && (rest == [] || !IsDigit(rest[0]))
    requires digits[0] == '0' ==> |digits| == 1
    requires NatValue(digits) * Pow(10, k) < TWO53
    ensures var n := NatValue(digits) * Pow(10, k);
      Unsigned(negative, digits + ("e" + NatText(k) + rest)) == Ok(Integer(if negative then 0 - n else n), rest)
  {
    hide NatText, NatValue, Scientific, Pow, DigitRun, Exponent;
    NatTextDigits(k);
    var next := "e" + NatText(k) + rest;
    ExponentReads(NatText(k), rest);
    DigitRunIs(digits, next);
    var t := digits + next;
    assert t[..|digits|] == digits && t[|digits|..] == next && next[0] == 'e' && t[0] == digits[0];
    assert Fraction(next) == Ok("", next);
    ScientificValue(negative, digits, NatText(k));
  }

  lemma ScientificValue(negative: bool, digits: string, power: string)
    requires forall i :: 0 <= i < |digits| ==> IsDigit(digits[i])
    requires forall i :: 0 <= i < |power| ==> IsDigit(power[i])
    requires NatValue(digits) * Pow(10, NatValue(power)) < TWO53
    ensures var n := NatValue(digits) * Pow(10, NatValue(power));
      Scientific(negative, digits, "", "e" + power) == Some(Integer(if negative then 0 - n else n))
  {
    hide NatValue, Stod, WholeInt64, Pow, StodOf;
    StodOfWhole(digits, power);
    WholeSmall(negative, NatValue(digits) * Pow(10, NatValue(power)));
  }

  lemma StodOfWhole(digits: string, power: string)
    requires forall i :: 0 <= i < |digits| ==> IsDigit(digits[i])
    requires forall i :: 0 <= i < |power| ==> IsDigit(power[i])
    ensures StodOf(digits, "", "e" + power) == Stod(NatValue(digits) * Pow(10, NatValue(power)), 1)
  {
    hide NatValue, Stod, Pow, OnlyDigits;
    OnlyDigitsIs(digits);
    OnlyDigitsPast('e', power);
    assert digits + "" == digits;
    assert '-' !in "e" + power;
  }

  lemma OnlyDigitsPast(c: char, s: string)
    requires !IsDigit(c) && forall i :: 0 <= i < |s| ==> IsDigit(s[i])
    ensures OnlyDigits([c] + s) == s
  {
    assert ([c] + s)[1..] == s && [] + OnlyDigits(s) == OnlyDigits(s);
    OnlyDigitsIs(s);
  }

  function Magnitude(n: int): nat {
    if n < 0 then -n else n
  }

  lemma ToInt64Reads(n: int)
    requires INT64_MIN <= n <= INT64_MAX
    ensures forall i :: 0 <= i < |NatText(Magnitude(n))| ==> IsDigit(NatText(Magnitude(n))[i])
    ensures ToInt64(n < 0, NatText(Magnitude(n))) == Some(n)
  {
    hide NatText;
    NatTextDigits(Magnitude(n));
  }

  /** Every int64 survives. */
  lemma IntegerRoundTrip(n: int, rest: string)
    requires INT64_MIN <= n <= INT64_MAX && EndsNumber(rest)
    ensures ParseNumber(IntText(n) + rest) == Ok(Integer(n), rest)
    ensures IntText(n) != [] && (IsDigit(IntText(n)[0]) || IntText(n)[0] == '-')
  {
    hide NatText, ToInt64, Unsigned, NatValue, EndsNumber;
    var digits := NatText(Magnitude(n));
    NatTextDigits(Magnitude(n));
    ToInt64Reads(n);
    NumberReads(n < 0, digits, rest);
    if n < 0 {
      assert (IntText(n) + rest)[1..] == digits + rest;
    } else {
      assert IntText(n) + rest == digits + rest;
      assert IsDigit(digits[0]);
    }
  }

  // ----- white space -----

  predicate AllSpace(s: string) {
    forall i :: 0 <= i < |s| ==> IsSpace(s[i])
  }

  lemma {:induction false} SkipSpaces(ws: string, s: string)
    requires AllSpace(ws) && (s == [] || !IsSpace(s[0]))
    ensures SkipWs(ws + s) == s
    decreases |ws|
  {
    if ws == [] {
      assert ws + s == s;
    } else {
      assert (ws + s)[1..] == ws[1..] + s;
      SkipSpaces(ws[1..], s);
    }
  }

  /** How the text of a value begins. */
  lemma DumpBegins(v: Json, depth: nat, indent: int)
    requires FloatFree(v)
    ensures var s := Dump(v, depth, indent); s != [] && !IsSpace(s[0]) && s[0] != ']' && s[0] != '}' && s[0] != ','
  {
    if v.Integer? { NatTextDigits(if v.n < 0 then -v.n else v.n); }
  }

  // ----- values -----

  /** Text that may follow a value. */
  predicate Follows(s: string) {
    s == [] || s[0] == ',' || s[0] == ']' || s[0] == '}' || s[0] == '\n'
  }

  function ExpectValue(v: Json, depth: nat, rest: string): Parse<Json> {
    if depth + Height(v) <= MAX_PARSE_DEPTH then Ok(v, rest) else Fail
  }

  /** parse_value on text that begins with no white space. */
  lemma Dispatch(s: string, depth: nat)
    requires s != [] && !IsSpace(s[0])
    ensures ParseValue(s, depth) ==
              if depth > MAX_PARSE_DEPTH then Fail
              else if s[0] == '\"' then
                (match ParseString(s, depth) case Fail => Fail case Ok(v, rest) => Ok(Str(v), rest))
              else if s[0] == '{' then ParseObject(s, depth)
              else if s[0] == '[' then ParseArray(s, depth)
              else if IsDigit(s[0]) || s[0] == '-' then ParseNumber(s)
              else if s[0] == 't' then ParseLiteral(s, "true", Bool(true))
              else if s[0] == 'f' then ParseLiteral(s, "false", Bool(false))
              else if s[0] == 'n' then ParseLiteral(s, "null", Null)
              else Fail
  {
    hide ParseString, ParseObject, ParseArray, ParseNumber, ParseLiteral;
    assert SkipWs(s) == s;
  }

  lemma LiteralReads(literal: string, v: Json, rest: string)
    ensures ParseLiteral(literal + rest, literal, v) == Ok(v, rest)
  {
    assert (literal + rest)[|literal|..] == rest;
  }

  lemma StrTextBegins(s: string)
    ensures StrText(s) != [] && StrText(s)[0] == '\"'
  {
  }

  /** What the printer writes at some level, the parser reads there, as long as no node lies below
      level 100; where one does, it fails. */
  lemma {:induction false} ValueRoundTrip(v: Json, depth: nat, indent: int, rest: string)
    requires WellFormed(v) && FloatFree(v) && Follows(rest)
    ensures ParseValue(Dump(v, depth, indent) + rest, depth) == ExpectValue(v, depth, rest)
    decreases v, 1
  {
    hide ParseValue, ParseString, ParseObject, ParseArray, ParseNumber, ParseLiteral, SkipWs;
    var s := Dump(v, depth, indent) + rest;
    DumpBegins(v, depth, indent);
    Dispatch(s, depth);
    if depth <= MAX_PARSE_DEPTH {
      match v
      case Null => LiteralReads("null", v, rest);
      case Bool(b) => LiteralReads(if b then "true" else "false", v, rest);
      case Integer(n) => hide IntText; IntegerRoundTrip(n, rest);
      case Str(t) => hide StrText; StringRoundTrip(t, depth, rest); StrTextBegins(t);
      case Arr(es) => hide Dump; ArrayRoundTrip(es, depth, indent, rest);
      case Obj(ms) => hide Dump; ObjectRoundTrip(ms, depth, indent, rest);
    }
  }

  lemma Whitespace(depth: nat, indent: int)
    ensures AllSpace(Lead(depth, indent)) && AllSpace(Close(depth, indent))
  {
  }

  /** The end of a container, whatever its indentation. */
  lemma SeparatorEnd(depth: nat, indent: int, close: char, rest: string)
    requires close == ']' || close == '}'
    ensures Separator(Close(depth, indent) + [close] + rest, close) == Ok((), [close] + rest)
  {
    Whitespace(depth, indent);
    SkipSpaces(Close(depth, indent), [close] + rest);
    assert Close(depth, indent) + [close] + rest == Close(depth, indent) + ([close] + rest);
  }

  lemma SeparatorNext(depth: nat, indent: int, close: char, next: string)
    requires close == ']' || close == '}'
    requires next != [] && !IsSpace(next[0]) && next[0] != close
    ensures Separator("," + Lead(depth, indent) + next, close) == Ok((), next)
  {
    Whitespace(depth, indent);
    SkipSpaces(Lead(depth, indent), next);
    assert ("," + Lead(depth, indent) + next)[1..] == Lead(depth, indent) + next;
  }

  /** The text of the elements from one on, without the space before it. */
  function ElemsText(es: seq<Json>, depth: nat, indent: int, rest: string): string
    requires es != []
  {
    Dump(es[0], depth + 1, indent) + (DumpElems(es[1..], depth, indent) + rest)
  }

  lemma ElemsTextBegins(es: seq<Json>, depth: nat, indent: int, rest: string)
    requires es != [] && AllFloatFree(es)
    ensures var s := ElemsText(es, depth, indent, rest); s != [] && !IsSpace(s[0]) && s[0] != ']'
  {
    DumpBegins(es[0], depth + 1, indent);
  }

  /** The texts of the printer's two element branches, regrouped from the right. */
  lemma ElemText(before: string, es: seq<Json>, depth: nat, indent: int, rest: string)
    requires es != []
    ensures before + Lead(depth, indent) + Dump(es[0], depth + 1, indent) + DumpElems(es[1..], depth, indent) + rest
            == before + Lead(depth, indent) + ElemsText(es, depth, indent, rest)
  {
    hide Dump, DumpElems, Lead;
  }

  lemma ElemsTailFollows(es: seq<Json>, depth: nat, indent: int, rest: string)
    ensures Follows(DumpElems(es, depth, indent) + rest)
    ensures es == [] ==> DumpElems(es, depth, indent) + rest == Close(depth, indent) + "]" + rest
    ensures es != [] ==> DumpElems(es, depth, indent) + rest == "," + Lead(depth, indent) + ElemsText(es, depth, indent, rest)
  {
    hide Dump, Lead, ElemsText;
    if es != [] {
      ElemText(",", es, depth, indent, rest);
    }
  }

  lemma {:induction false} ElemsRoundTrip(es: seq<Json>, depth: nat, indent: int, rest: string, done: seq<Json>)
    requires es != [] && AllWellFormed(es) && AllFloatFree(es)
    ensures ParseElements(ElemsText(es, depth, indent, rest), depth, done) ==
              if depth + ElemsHeight(es) <= MAX_PARSE_DEPTH then Ok(done + es, rest) else Fail
    decreases es, 2
  {
    hide Dump, DumpElems, ParseValue, Separator, Lead, Close, Height;
    var (s, tail) := (ElemsText(es, depth, indent, rest), DumpElems(es[1..], depth, indent) + rest);
    ElemsTextBegins(es, depth, indent, rest);
    ElemsTailFollows(es[1..], depth, indent, rest);
    ValueRoundTrip(es[0], depth + 1, indent, tail);
    if depth + 1 + Height(es[0]) <= MAX_PARSE_DEPTH {
      if es[1..] == [] {
        SeparatorEnd(depth, indent, ']', rest);
        ElementsEnd(s, depth, done, es[0], tail, rest);
        assert es == [es[0]];
      } else {
        var next := ElemsText(es[1..], depth, indent, rest);
        ElemsTextBegins(es[1..], depth, indent, rest);
        SeparatorNext(depth, indent, ']', next);
        ElemsRoundTrip(es[1..], depth, indent, rest, done + [es[0]]);
        assert done + [es[0]] + es[1..] == done + es;
      }
    }
  }

  lemma ElementsEnd(s: string, depth: nat, done: seq<Json>, v: Json, tail: string, rest: string)
    requires s != [] && s[0] != ']' && ParseValue(s, depth + 1) == Ok(v, tail)
    requires Separator(tail, ']') == Ok((), "]" + rest)
    ensures ParseElements(s, depth, done) == Ok(done + [v], rest)
  {
    hide ParseValue, Separator;
    assert ("]" + rest)[1..] == rest;
    assert ParseElements("]" + rest, depth, done + [v]) == Ok(done + [v], rest);
  }

  /** parse_array on a bracket, space and the text of the first element. */
  lemma ArrayReads(ws: string, t: string, depth: nat)
    requires AllSpace(ws) && t != [] && !IsSpace(t[0]) && depth <= MAX_PARSE_DEPTH
    ensures ParseArray("[" + ws + t, depth) ==
              match ParseElements(t, depth, []) case Fail => Fail case Ok(es, rest) => Ok(Arr(es), rest)
  {
    hide ParseElements;
    assert ("[" + ws + t)[1..] == ws + t;
    SkipSpaces(ws, t);
  }

  lemma ArrayText(es: seq<Json>, depth: nat, indent: int, rest: string)
    ensures Dump(Arr(es), depth, indent) + rest ==
              if es == [] then "[" + "" + ("]" + rest)
              else "[" + Lead(depth, indent) + ElemsText(es, depth, indent, rest)
  {
    hide ElemsText, StrText, Colon, Lead;
    if es != [] { ElemText("[", es, depth, indent, rest); }
  }

  lemma {:induction false} ArrayRoundTrip(es: seq<Json>, depth: nat, indent: int, rest: string)
    requires AllWellFormed(es) && AllFloatFree(es) && depth <= MAX_PARSE_DEPTH
    ensures var s := Dump(Arr(es), depth, indent) + rest;
            s != [] && s[0] == '[' && ParseArray(s, depth) == ExpectValue(Arr(es), depth, rest)
    decreases es, 3
  {
    hide Dump, ParseArray, ParseElements, ElemsText, Lead;
    var (ws, t) := if es == [] then ("", "]" + rest) else (Lead(depth, indent), ElemsText(es, depth, indent, rest));
    Whitespace(depth, indent);
    ArrayText(es, depth, indent, rest);
    if es == [] {
      EmptyElements(rest, depth);
    } else {
      ElemsTextBegins(es, depth, indent, rest);
      ElemsRoundTrip(es, depth, indent, rest, []);
      assert [] + es == es;
    }
    ArrayReads(ws, t, depth);
  }

  lemma EmptyElements(rest: string, depth: nat)
    ensures ParseElements("]" + rest, depth, []) == Ok([], rest)
    ensures ParseMembers("}" + rest, depth, []) == Ok([], rest)
  {
    assert ("]" + rest)[1..] == rest && ("}" + rest)[1..] == rest;
  }

  // ----- objects -----

  function MembersText(ms: seq<Member>, depth: nat, indent: int, rest: string): string
    requires ms != []
  {
    StrText(ms[0].key) + (Colon(indent) + MemberValueText(ms, depth, indent, rest))
  }

  function MemberValueText(ms: seq<Member>, depth: nat, indent: int, rest: string): string
    requires ms != []
  {
    Dump(ms[0].value, depth + 1, indent) + (DumpMembers(ms[1..], depth, indent) + rest)
  }

  lemma MembersTailFollows(ms: seq<Member>, depth: nat, indent: int, rest: string)
    ensures Follows(DumpMembers(ms, depth, indent) + rest)
    ensures ms == [] ==> DumpMembers(ms, depth, indent) + rest == Close(depth, indent) + "}" + rest
    ensures ms != [] ==> DumpMembers(ms, depth, indent) + rest == "," + Lead(depth, indent) + MembersText(ms, depth, indent, rest)
  {
    hide Dump, StrText, Colon, Lead;
    if ms != [] {
      MemberText(",", ms, depth, indent, rest);
    }
  }

  /** The texts of the printer's two member branches, regrouped from the right. */
  lemma MemberText(before: string, ms: seq<Member>, depth: nat, indent: int, rest: string)
    requires ms != []
    ensures before + Lead(depth, indent) + StrText(ms[0].key) + Colon(indent) + Dump(ms[0].value, depth + 1, indent)
            + DumpMembers(ms[1..], depth, indent) + rest
            == before + Lead(depth, indent) + MembersText(ms, depth, indent, rest)
  {
    hide Dump, DumpMembers, StrText, Colon, Lead;
    var (l, k, c) := (before + Lead(depth, indent), StrText(ms[0].key), Colon(indent));
    var (v, m) := (Dump(ms[0].value, depth + 1, indent), DumpMembers(ms[1..], depth, indent));
    assert l + k + c + v + m + rest == l + (k + (c + (v + (m + rest))));
  }

  /** A key and its colon; one level below 100 the key is already too deep. */
  lemma KeyReads(ms: seq<Member>, depth: nat, indent: int, rest: string)
    requires ms != [] && MembersFloatFree(ms)
    ensures ParseKey(MembersText(ms, depth, indent, rest), depth) ==
              if depth + 1 <= MAX_PARSE_DEPTH then Ok(ms[0].key, MemberValueText(ms, depth, indent, rest)) else Fail
  {
    hide Dump, DumpMembers, StrText, ParseString;
    var v := MemberValueText(ms, depth, indent, rest);
    StringRoundTrip(ms[0].key, depth + 1, Colon(indent) + v);
    DumpBegins(ms[0].value, depth + 1, indent);
    var t := Colon(indent) + v;
    assert t[1..] == (if indent > 0 then " " else "") + v;
    SkipSpaces(if indent > 0 then " " else "", v);
    assert SkipWs(t) == t;
  }

  lemma {:induction false} MembersRoundTrip(ms: seq<Member>, depth: nat, indent: int, rest: string, done: seq<Member>)
    requires ms != [] && Sorted(done + ms) && MembersWellFormed(ms) && MembersFloatFree(ms)
    ensures ParseMembers(MembersText(ms, depth, indent, rest), depth, done) ==
              if depth + MembersHeight(ms) <= MAX_PARSE_DEPTH then Ok(done + ms, rest) else Fail
    decreases ms, 2
  {
    hide Dump, DumpMembers, ParseValue, ParseKey, Separator, Lead, Close, Height, LexLess, Insert;
    var (k, v) := (ms[0].key, ms[0].value);
    var (s, tail) := (MembersText(ms, depth, indent, rest), DumpMembers(ms[1..], depth, indent) + rest);
    KeyReads(ms, depth, indent, rest);
    MembersTailFollows(ms[1..], depth, indent, rest);
    if depth + 1 <= MAX_PARSE_DEPTH {
      KeyIsLast(done, ms);
      InsertLast(done, k, v);
      ValueRoundTrip(v, depth + 1, indent, tail);
      assert done + [ms[0]] + ms[1..] == done + ms;
      if depth + 1 + Height(v) <= MAX_PARSE_DEPTH {
        if ms[1..] == [] {
          assert ms == [ms[0]];
          SeparatorEnd(depth, indent, '}', rest);
          MembersEnd(s, depth, done, k, v, tail, rest);
        } else {
          var next := MembersText(ms[1..], depth, indent, rest);
          SeparatorNext(depth, indent, '}', next);
          MembersRoundTrip(ms[1..], depth, indent, rest, done + [ms[0]]);
        }
      }
    }
  }

  lemma KeyIsLast(done: seq<Member>, ms: seq<Member>)
    requires ms != [] && Sorted(done + ms)
    ensures forall i :: 0 <= i < |done| ==> LexLess(done[i].key, ms[0].key)
  {
    var all := done + ms;
    forall i | 0 <= i < |done| ensures LexLess(done[i].key, ms[0].key) {
      assert all[i] == done[i] && all[|done|] == ms[0];
    }
  }

  lemma MembersEnd(s: string, depth: nat, done: seq<Member>, k: string, v: Json, tail: string, rest: string)
    requires s != [] && s[0] != '}' && ParseKey(s, depth).Ok? && ParseKey(s, depth).value == k && !HasKey(done, k)
    requires ParseValue(ParseKey(s, depth).rest, depth + 1) == Ok(v, tail)
    requires Separator(tail, '}') == Ok((), "}" + rest)
    ensures ParseMembers(s, depth, done) == Ok(Insert(done, k, v), rest)
  {
    hide ParseValue, ParseKey, Separator, Insert;
    assert ("}" + rest)[1..] == rest;
    assert ParseMembers("}" + rest, depth, Insert(done, k, v)) == Ok(Insert(done, k, v), rest);
  }

  lemma MembersTextBegins(ms: seq<Member>, depth: nat, indent: int, rest: string)
    requires ms != []
    ensures var s := MembersText(ms, depth, indent, rest); s != [] && s[0] == '\"'
  {
    hide Dump, DumpMembers;
  }

  lemma ObjectReads(ws: string, t: string, depth: nat)
    requires AllSpace(ws) && t != [] && !IsSpace(t[0]) && depth <= MAX_PARSE_DEPTH
    ensures ParseObject("{" + ws + t, depth) ==
              match ParseMembers(t, depth, []) case Fail => Fail case Ok(ms, rest) => Ok(Obj(ms), rest)
  {
    hide ParseMembers;
    assert ("{" + ws + t)[1..] == ws + t;
    SkipSpaces(ws, t);
  }

  lemma ObjectText(ms: seq<Member>, depth: nat, indent: int, rest: string)
    ensures Dump(Obj(ms), depth, indent) + rest ==
              if ms == [] then "{" + "" + ("}" + rest)
              else "{" + Lead(depth, indent) + MembersText(ms, depth, indent, rest)
  {
    hide MembersText, StrText, Colon, Lead;
    if ms != [] { MemberText("{", ms, depth, indent, rest); }
  }

  lemma {:induction false} ObjectRoundTrip(ms: seq<Member>, depth: nat, indent: int, rest: string)
    requires Sorted(ms) && MembersWellFormed(ms) && MembersFloatFree(ms) && depth <= MAX_PARSE_DEPTH
    ensures var s := Dump(Obj(ms), depth, indent) + rest;
            s != [] && s[0] == '{' && ParseObject(s, depth) == ExpectValue(Obj(ms), depth, rest)
    decreases ms, 3
  {
    hide Dump, ParseObject, ParseMembers, MembersText, StrText, Colon, Lead;
    var (ws, t) := if ms == [] then ("", "}" + rest) else (Lead(depth, indent), MembersText(ms, depth, indent, rest));
    Whitespace(depth, indent);
    ObjectText(ms, depth, indent, rest);
    if ms == [] {
      EmptyElements(rest, depth);
    } else {
      MembersTextBegins(ms, depth, indent, rest);
      assert [] + ms == ms;
      MembersRoundTrip(ms, depth, indent, rest, []);
    }
    ObjectReads(ws, t, depth);
  }

  // ----- whole texts -----

  /** Json::parse(v.dump(indent)) is v exactly when no node of v lies below level 100, and fails
      otherwise, for every indent. */
  lemma RoundTrip(v: Json, indent: int)
    requires WellFormed(v) && FloatFree(v)
    ensures ParseText(Dump(v, 0, indent)) == if Height(v) <= MAX_PARSE_DEPTH then Some(v) else None
  {
    hide Dump, ParseValue;
    ValueRoundTrip(v, 0, indent, "");
    DumpBegins(v, 0, indent);
    assert Dump(v, 0, indent) + "" == Dump(v, 0, indent);
  }

  /** So no two values print alike. */
  lemma DumpInjective(v: Json, w: Json, indent: int, jndent: int)
    requires WellFormed(v) && FloatFree(v) && WellFormed(w) && FloatFree(w)
    requires Height(v) <= MAX_PARSE_DEPTH && Dump(v, 0, indent) == Dump(w, 0, jndent)
    ensures v == w
  {
    RoundTrip(v, indent);
    RoundTrip(w, jndent);
  }

  // ----- what the parser returns -----

  lemma NumberWellFormed(s: string)
    requires ParseNumber(s).Ok?
    ensures WellFormed(ParseNumber(s).value) && Height(ParseNumber(s).value) == 0
  {
    hide IntegerPart, Fraction, Exponent, NatValue, StodOf, Whole;
  }

  /** A value read at some level is well formed and ends no lower than level 100. */
  lemma {:induction false} ParsedWellFormed(s: string, depth: nat)
    requires ParseValue(s, depth).Ok?
    ensures WellFormed(ParseValue(s, depth).value)
    ensures depth + Height(ParseValue(s, depth).value) <= MAX_PARSE_DEPTH
    decreases |s|, 3
  {
    hide ParseNumber, ParseString, SkipWs, ParseElements, ParseMembers;
    var t := SkipWs(s);
    if t[0] == '[' {
      ElementsWellFormed(SkipWs(t[1..]), depth, []);
    } else if t[0] == '{' {
      MembersParsed(SkipWs(t[1..]), depth, []);
    } else if ParseNumber(t).Ok? {
      NumberWellFormed(t);
    }
  }

  lemma {:induction false} AppendElem(es: seq<Json>, v: Json)
    requires AllWellFormed(es) && WellFormed(v)
    ensures AllWellFormed(es + [v]) && ElemsHeight(es + [v]) == Max(ElemsHeight(es), 1 + Height(v))
    decreases |es|
  {
    if es == [] {
      assert es + [v] == [v];
    } else {
      assert (es + [v])[1..] == es[1..] + [v];
      AppendElem(es[1..], v);
    }
  }

  lemma {:induction false} ElementsWellFormed(s: string, depth: nat, done: seq<Json>)
    requires ParseElements(s, depth, done).Ok? && AllWellFormed(done) && depth + ElemsHeight(done) <= MAX_PARSE_DEPTH
    ensures var es := ParseElements(s, depth, done).value; AllWellFormed(es) && depth + ElemsHeight(es) <= MAX_PARSE_DEPTH
    decreases |s|, 4
  {
    hide WellFormed, Height, ParseValue, Separator;
    if s[0] != ']' {
      var r := ParseValue(s, depth + 1);
      ParsedWellFormed(s, depth + 1);
      AppendElem(done, r.value);
      ElementsWellFormed(Separator(r.rest, ']').rest, depth, done + [r.value]);
    }
  }

  lemma {:induction false} InsertMember(ms: seq<Member>, k: string, v: Json)
    requires MembersWellFormed(ms) && WellFormed(v)
    ensures MembersWellFormed(Insert(ms, k, v)) && MembersHeight(Insert(ms, k, v)) == Max(MembersHeight(ms), 1 + Height(v))
    decreases |ms|
  {
    hide LexLess, WellFormed, Height;
    var r := Insert(ms, k, v);
    if ms == [] || LexLess(k, ms[0].key) {
      assert r[1..] == ms;
    } else {
      assert r[1..] == Insert(ms[1..], k, v);
      InsertMember(ms[1..], k, v);
    }
  }

  lemma {:induction false} MembersParsed(s: string, depth: nat, done: seq<Member>)
    requires ParseMembers(s, depth, done).Ok? && Sorted(done) && MembersWellFormed(done)
    requires depth + MembersHeight(done) <= MAX_PARSE_DEPTH
    ensures var ms := ParseMembers(s, depth, done).value;
            Sorted(ms) && MembersWellFormed(ms) && depth + MembersHeight(ms) <= MAX_PARSE_DEPTH
    decreases |s|, 4
  {
    hide WellFormed, Height, ParseValue, ParseKey, Separator, Insert, Sorted, MembersWellFormed, MembersHeight;
    if s[0] != '}' {
      var key := ParseKey(s, depth);
      var r := ParseValue(key.rest, depth + 1);
      ParsedWellFormed(key.rest, depth + 1);
      InsertSorted(done, key.value, r.value);
      InsertMember(done, key.value, r.value);
      MembersParsed(Separator(r.rest, '}').rest, depth, Insert(done, key.value, r.value));
    }
  }

  /** Whatever text the parser accepts, printing the result and parsing again gives the same
      value: one parse is enough to normalise a text. */
  lemma ParseDumpParse(text: string, indent: int)
    requires ParseText(text).Some? && FloatFree(ParseText(text).value)
    ensures ParseText(Dump(ParseText(text).value, 0, indent)) == ParseText(text)
  {
    hide ParseValue;
    ParsedWellFormed(text, 0);
    RoundTrip(ParseText(text).value, indent);
  }
}
