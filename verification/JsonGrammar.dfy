/** The grammar of JSON texts, with the value each text has, and that the parser accepts exactly the texts of
    the grammar and gives exactly these values.

    The grammar is that of RFC 8259 with the parser's own white space, no repeated keys, no node below level
    100, and numbers that fit. */
module JsonGrammar {
  import opened Json
  import opened JsonParser
  import opened JsonStrings
  import opened JsonRoundTrip
  import opened Options

  // ----- Texts -----

  /** A value as it is written, white space and all. */
  datatype Tree =
    | TNull | TTrue | TFalse
    | TNumber(negative: bool, digits: string, fraction: string, exponent: string)
    | TString(pieces: seq<Piece>)
    | TArray(open: string, items: seq<Item>)
    | TObject(open: string, entries: seq<Entry>)

  /** An element, the space after it, and the space after the comma, if one follows. */
  datatype Item = Item(value: Tree, after: string, next: string)

  datatype Entry = Entry(key: seq<Piece>, before: string, behind: string, value: Tree, after: string, next: string)

  /** Space, tab, line feed, vertical tab, form feed and carriage return. */
  predicate Blank(s: string) {
    forall i :: 0 <= i < |s| ==> s[i] as int in {0x20, 0x09, 0x0A, 0x0B, 0x0C, 0x0D}
  }

  predicate AllDigits(s: string) {
    s != "" && forall i :: 0 <= i < |s| ==> '0' <= s[i] <= '9'
  }

  predicate FractionOk(s: string) {
    s == "" || (s[0] == '.' && AllDigits(s[1..]))
  }

  predicate ExponentOk(s: string) {
    s == "" || ((s[0] == 'e' || s[0] == 'E')
                && (AllDigits(s[1..]) || (|s| > 1 && (s[1] == '+' || s[1] == '-') && AllDigits(s[2..]))))
  }

  const DIGITS := "0123456789"

  predicate IsDecimal(c: char, d: nat) {
    d < 10 && DIGITS[d] == c
  }

  /** The number that a run of digits writes: each digit counts ten times the next. */
  ghost predicate Decimal(s: string, n: nat)
    decreases |s|
  {
    if |s| == 0 then n == 0 else IsDecimal(s[|s| - 1], n % 10) && Decimal(s[..|s| - 1], n / 10)
  }

  /** The value of a number: an int64, or whatever stod makes of it. */
  function NumberValue(negative: bool, digits: string, fraction: string, exponent: string): Option<Json>
    requires AllDigits(digits)
  {
    if fraction == "" && exponent == "" then
      var n: int := if negative then 0 - (NatValue(digits) as int) else NatValue(digits);
      if -9223372036854775808 <= n <= 9223372036854775807 then Some(Integer(n)) else None
    else Scientific(negative, digits, fraction, exponent)
  }

  ghost predicate NumberOk(negative: bool, digits: string, fraction: string, exponent: string) {
    && AllDigits(digits) && (digits[0] == '0' ==> |digits| == 1) && FractionOk(fraction) && ExponentOk(exponent)
    && NumberValue(negative, digits, fraction, exponent).Some?
  }

  /** NatValue is the number the digits write. */
  lemma {:induction false} DecimalValue(s: string)
    requires forall i :: 0 <= i < |s| ==> IsDigit(s[i])
    ensures Decimal(s, NatValue(s))
    decreases |s|
  {
    if |s| > 0 {
      var init, d := s[..|s| - 1], s[|s| - 1] as int - '0' as int;
      DecimalValue(init);
      DigitIs(s[|s| - 1]);
      LastDigit(NatValue(init), d);
    }
  }

  lemma DigitIs(c: char)
    requires IsDigit(c)
    ensures 0 <= c as int - '0' as int < 10 && IsDecimal(c, c as int - '0' as int)
  {
    var d := c as int - '0' as int;
    assert d == 0 || d == 1 || d == 2 || d == 3 || d == 4 || d == 5 || d == 6 || d == 7 || d == 8 || d == 9;
  }

  lemma LastDigit(n: nat, d: int)
    requires 0 <= d < 10
    ensures (n * 10 + d) % 10 == d && (n * 10 + d) / 10 == n
  {
  }

  /** And no other number is. */
  lemma {:induction false} DecimalUnique(s: string, a: nat, b: nat)
    requires Decimal(s, a) && Decimal(s, b)
    ensures a == b
    decreases |s|
  {
    if |s| > 0 {
      DecimalUnique(s[..|s| - 1], a / 10, b / 10);
      SameDigit(s[|s| - 1], a % 10, b % 10);
    }
  }

  lemma SameDigit(c: char, a: nat, b: nat)
    requires IsDecimal(c, a) && IsDecimal(c, b)
    ensures a == b
  {
    assert a == 0 || a == 1 || a == 2 || a == 3 || a == 4 || a == 5 || a == 6 || a == 7 || a == 8 || a == 9;
  }

  function NumberText(negative: bool, digits: string, fraction: string, exponent: string): string {
    (if negative then "-" else "") + (digits + (fraction + exponent))
  }

  ghost predicate Good(t: Tree, depth: nat)
    decreases t, 1
  {
    && depth <= 100
    && match t
       case TNumber(negative, digits, fraction, exponent) => NumberOk(negative, digits, fraction, exponent)
       case TArray(open, items) => Blank(open) && ItemsGood(items, depth + 1)
       case TObject(open, entries) => Blank(open) && EntriesGood(entries, depth + 1) && KeysDiffer(entries)
       case _ => true
  }

  ghost predicate ItemsGood(items: seq<Item>, depth: nat)
    decreases items, 0
  {
    |items| == 0
    || (Good(items[0].value, depth) && Blank(items[0].after) && Blank(items[0].next) && ItemsGood(items[1..], depth))
  }

  ghost predicate EntriesGood(entries: seq<Entry>, depth: nat)
    decreases entries, 0
  {
    |entries| == 0
    || (var e := entries[0];
        && Blank(e.before) && Blank(e.behind) && Good(e.value, depth) && Blank(e.after) && Blank(e.next)
        && EntriesGood(entries[1..], depth))
  }

  predicate KeysDiffer(entries: seq<Entry>) {
    forall i, j :: 0 <= i < j < |entries| ==> ValueOf(entries[i].key) != ValueOf(entries[j].key)
  }

  function KeyText(key: seq<Piece>): string {
    "\"" + TextOf(key) + "\""
  }

  function Text(t: Tree): string
    decreases t, 1
  {
    match t
    case TNull => "null"
    case TTrue => "true"
    case TFalse => "false"
    case TNumber(negative, digits, fraction, exponent) => NumberText(negative, digits, fraction, exponent)
    case TString(pieces) => KeyText(pieces)
    case TArray(open, items) => "[" + open + ItemsText(items)
    case TObject(open, entries) => "{" + open + EntriesText(entries)
  }

  /** A comma between two elements, and the bracket after the last. */
  function ItemsText(items: seq<Item>): string
    decreases items, 0
  {
    if |items| == 0 then "]"
    else Text(items[0].value) + (items[0].after + if |items| == 1 then "]" else "," + (items[0].next + ItemsText(items[1..])))
  }

  function EntriesText(entries: seq<Entry>): string
    decreases entries, 0
  {
    if |entries| == 0 then "}"
    else
      var e := entries[0];
      KeyText(e.key) + (e.before + (":" + (e.behind + (Text(e.value) +
        (e.after + if |entries| == 1 then "}" else "," + (e.next + EntriesText(entries[1..])))))))
  }

  function Meaning(t: Tree): Json
    decreases t, 1
  {
    match t
    case TNull => Null
    case TTrue => Bool(true)
    case TFalse => Bool(false)
    case TNumber(negative, digits, fraction, exponent) =>
      if AllDigits(digits) && NumberValue(negative, digits, fraction, exponent).Some?
      then NumberValue(negative, digits, fraction, exponent).value else Null
    case TString(pieces) => Str(ValueOf(pieces))
    case TArray(_, items) => Arr(Meanings(items))
    case TObject(_, entries) => Obj(Inserted(entries, []))
  }

  function Meanings(items: seq<Item>): seq<Json>
    decreases items, 0
  {
    if |items| == 0 then [] else [Meaning(items[0].value)] + Meanings(items[1..])
  }

  /** The members in the order of the map. */
  function Inserted(entries: seq<Entry>, done: seq<Member>): seq<Member>
    decreases entries, 0
  {
    if |entries| == 0 then done
    else Inserted(entries[1..], Insert(done, ValueOf(entries[0].key), Meaning(entries[0].value)))
  }

  // ----- Small things -----

  lemma BlankIsSpace(s: string)
    ensures Blank(s) <==> AllSpace(s)
  {
  }

  /** A character that begins a value. */
  predicate Begins(c: char) {
    c == '\"' || c == '[' || c == '{' || c == '-' || '0' <= c <= '9' || c == 't' || c == 'f' || c == 'n'
  }

  lemma BeginsIs(c: char)
    requires Begins(c)
    ensures !IsSpace(c) && c != ']' && c != '}' && c != ',' && c != ':'
  {
  }

  lemma TextBegins(t: Tree, depth: nat)
    requires Good(t, depth)
    ensures Text(t) != "" && Begins(Text(t)[0])
  {
    hide ItemsText, EntriesText, TextOf, ItemsGood, EntriesGood, NumberValue;
  }

  lemma {:induction false} Skipped(s: string)
    ensures SkipWs(s) != "" ==> !IsSpace(SkipWs(s)[0])
    ensures |SkipWs(s)| <= |s| && s == s[..|s| - |SkipWs(s)|] + SkipWs(s) && AllSpace(s[..|s| - |SkipWs(s)|])
    decreases |s|
  {
    if s != [] && IsSpace(s[0]) {
      Skipped(s[1..]);
      var n := |s| - |SkipWs(s)|;
      assert s[..n] == [s[0]] + s[1..][..n - 1];
    } else {
      assert s[..0] == "";
    }
  }

  /** What may follow a value. */
  predicate Ends(s: string) {
    s == "" || IsSpace(s[0]) || s[0] == ',' || s[0] == ']' || s[0] == '}'
  }

  lemma EndsIs(s: string)
    requires Ends(s)
    ensures EndsNumber(s)
  {
  }

  lemma ValueSkips(ws: string, s: string, depth: nat)
    requires AllSpace(ws) && s != "" && !IsSpace(s[0])
    ensures ParseValue(ws + s, depth) == ParseValue(s, depth)
  {
    hide ParseString, ParseObject, ParseArray, ParseNumber, ParseLiteral, SkipWs;
    SkipSpaces(ws, s);
    SkipSpaces("", s);
    assert "" + s == s;
  }

  // ----- Numbers -----

  lemma DigitsAre(s: string)
    ensures AllDigits(s) <==> s != "" && forall i :: 0 <= i < |s| ==> IsDigit(s[i])
  {
  }

  lemma FractionReads(fraction: string, rest: string)
    requires FractionOk(fraction) && (rest == "" || (!IsDigit(rest[0]) && rest[0] != '.'))
    ensures Fraction(fraction + rest) == Ok(fraction, rest)
  {
    hide DigitRun;
    if fraction == "" {
      assert fraction + rest == rest;
    } else {
      var ds := fraction[1..];
      DigitsAre(ds);
      DigitRunIs(ds, rest);
      var s := fraction + rest;
      assert s[1..] == ds + rest && (ds + rest)[..|ds|] == ds && (ds + rest)[|ds|..] == rest;
      assert fraction == "." + ds;
    }
  }

  lemma ExponentReadsBack(exponent: string, rest: string)
    requires ExponentOk(exponent) && (rest == "" || (!IsDigit(rest[0]) && rest[0] != 'e' && rest[0] != 'E'))
    ensures Exponent(exponent + rest) == Ok(exponent, rest)
  {
    hide DigitRun, Exponent;
    if exponent == "" {
      assert exponent + rest == rest;
      NoExponentRead(rest);
    } else if |exponent| > 1 && (exponent[1] == '+' || exponent[1] == '-') {
      assert exponent == [exponent[0]] + [exponent[1]] + exponent[2..];
      SignedReads(exponent[0], exponent[1], exponent[2..], rest);
    } else {
      assert exponent == [exponent[0]] + exponent[1..];
      PlainReads(exponent[0], exponent[1..], rest);
    }
  }

  lemma SignedReads(e: char, sign: char, ds: string, rest: string)
    requires (e == 'e' || e == 'E') && (sign == '+' || sign == '-') && AllDigits(ds) && (rest == "" || !IsDigit(rest[0]))
    ensures Exponent([e] + [sign] + ds + rest) == Ok([e] + [sign] + ds, rest)
  {
    hide DigitRun;
    DigitsAre(ds);
    DigitRunIs(ds, rest);
    var s := [e] + [sign] + ds + rest;
    assert s[1..][1..] == ds + rest && (ds + rest)[..|ds|] == ds && (ds + rest)[|ds|..] == rest;
  }

  lemma PlainReads(e: char, ds: string, rest: string)
    requires (e == 'e' || e == 'E') && AllDigits(ds) && (rest == "" || !IsDigit(rest[0]))
    ensures Exponent([e] + ds + rest) == Ok([e] + ds, rest)
  {
    hide DigitRun;
    DigitsAre(ds);
    DigitRunIs(ds, rest);
    var s := [e] + ds + rest;
    assert s[1..] == ds + rest && (ds + rest)[..|ds|] == ds && (ds + rest)[|ds|..] == rest;
    assert [e] + "" + ds == [e] + ds;
  }

  /** What a number's parts do to the text after them. */
  lemma PartsFollow(fraction: string, exponent: string, rest: string)
    requires FractionOk(fraction) && ExponentOk(exponent) && Ends(rest)
    ensures var e := exponent + rest; e == "" || (!IsDigit(e[0]) && e[0] != '.')
    ensures var f := fraction + (exponent + rest); f == "" || !IsDigit(f[0])
  {
  }

  lemma NumberValueIs(negative: bool, digits: string, fraction: string, exponent: string)
    requires AllDigits(digits)
    ensures NumberValue(negative, digits, fraction, exponent) ==
      if fraction == "" && exponent == "" then
        (match ToInt64(negative, digits) case None => None case Some(n) => Some(Integer(n)))
      else Scientific(negative, digits, fraction, exponent)
  {
    hide NatValue, Scientific;
  }

  lemma UnsignedReads(negative: bool, digits: string, fraction: string, exponent: string, rest: string)
    requires NumberOk(negative, digits, fraction, exponent) && Ends(rest)
    ensures Unsigned(negative, digits + (fraction + (exponent + rest))) ==
            Ok(NumberValue(negative, digits, fraction, exponent).value, rest)
  {
    hide DigitRun, Fraction, Exponent, IntegerPart, ToInt64, Scientific, FractionOk, ExponentOk, AllDigits, NumberValue;
    NumberValueIs(negative, digits, fraction, exponent);
    PartsFollow(fraction, exponent, rest);
    EndsIs(rest);
    FractionReads(fraction, exponent + rest);
    ExponentReadsBack(exponent, rest);
    IntegerReads(digits, fraction + (exponent + rest));
  }

  lemma IntegerReads(digits: string, t: string)
    requires AllDigits(digits) && (digits[0] == '0' ==> |digits| == 1) && (t == "" || !IsDigit(t[0]))
    ensures IntegerPart(digits + t) == Ok(digits, t)
  {
    hide DigitRun;
    DigitsAre(digits);
    DigitRunIs(digits, t);
    assert (digits + t)[..|digits|] == digits && (digits + t)[|digits|..] == t;
  }

  lemma NumberReadsBack(negative: bool, digits: string, fraction: string, exponent: string, rest: string)
    requires NumberOk(negative, digits, fraction, exponent) && Ends(rest)
    ensures ParseNumber(NumberText(negative, digits, fraction, exponent) + rest) ==
            Ok(NumberValue(negative, digits, fraction, exponent).value, rest)
  {
    hide Unsigned, NumberValue, FractionOk, ExponentOk;
    var t := digits + (fraction + (exponent + rest));
    UnsignedReads(negative, digits, fraction, exponent, rest);
    var s := NumberText(negative, digits, fraction, exponent) + rest;
    if negative { assert s == "-" + t; } else { assert s == t; }
  }

  /** And a number that is read is one. */
  lemma NumberOnly(s: string) returns (t: Tree)
    requires ParseNumber(s).Ok?
    ensures t.TNumber? && NumberOk(t.negative, t.digits, t.fraction, t.exponent)
    ensures s == Text(t) + ParseNumber(s).rest && Meaning(t) == ParseNumber(s).value
  {
    hide Unsigned, NumberOk, Meaning, TextOf, ItemsText, EntriesText;
    var negative := s != [] && s[0] == '-';
    var u := if negative then s[1..] else s;
    t := UnsignedOnly(negative, u);
    assert negative ==> s == "-" + u;
  }

  lemma UnsignedOnly(negative: bool, s: string) returns (t: Tree)
    requires Unsigned(negative, s).Ok?
    ensures t.TNumber? && t.negative == negative && NumberOk(negative, t.digits, t.fraction, t.exponent)
    ensures s == t.digits + (t.fraction + t.exponent) + Unsigned(negative, s).rest && Meaning(t) == Unsigned(negative, s).value
  {
    hide ToInt64, Scientific, IntegerPart, Fraction, Exponent, FractionOk, ExponentOk, AllDigits, NumberValue;
    var digits, s1 := IntegerPart(s).value, IntegerPart(s).rest;
    var fraction, s2 := Fraction(s1).value, Fraction(s1).rest;
    var exponent, s3 := Exponent(s2).value, Exponent(s2).rest;
    IntegerOnly(s);
    FractionOnly(s1);
    ExponentOnly(s2);
    t := TNumber(negative, digits, fraction, exponent);
    NumberValueIs(negative, digits, fraction, exponent);
    assert digits + (fraction + (exponent + s3)) == digits + (fraction + exponent) + s3;
  }

  lemma IntegerOnly(s: string)
    requires IntegerPart(s).Ok?
    ensures var d := IntegerPart(s).value; AllDigits(d) && (d[0] == '0' ==> |d| == 1) && s == d + IntegerPart(s).rest
  {
    hide DigitRun;
  }

  lemma FractionOnly(s: string)
    requires Fraction(s).Ok?
    ensures FractionOk(Fraction(s).value) && s == Fraction(s).value + Fraction(s).rest
  {
    hide DigitRun;
    if s != [] && s[0] == '.' {
      var n := DigitRun(s[1..]);
      assert Fraction(s).value[1..] == s[1..][..n];
      assert s == "." + s[1..][..n] + s[1..][n..];
    }
  }

  lemma ExponentOnly(s: string)
    requires Exponent(s).Ok?
    ensures ExponentOk(Exponent(s).value) && s == Exponent(s).value + Exponent(s).rest
  {
    hide DigitRun, ExponentOk, Exponent;
    if s == [] || (s[0] != 'e' && s[0] != 'E') {
      NoExponent();
      NoExponentRead(s);
    } else if |s| > 1 && (s[1] == '+' || s[1] == '-') {
      SignedOnly(s);
    } else {
      PlainOnly(s);
    }
  }

  lemma NoExponentRead(s: string)
    requires s == [] || (s[0] != 'e' && s[0] != 'E')
    ensures Exponent(s) == Ok("", s)
  {
  }

  lemma SignedOnly(s: string)
    requires Exponent(s).Ok? && |s| > 1 && (s[0] == 'e' || s[0] == 'E') && (s[1] == '+' || s[1] == '-')
    ensures ExponentOk(Exponent(s).value) && s == Exponent(s).value + Exponent(s).rest
  {
    hide DigitRun, ExponentOk;
    var t := s[1..][1..];
    var ds, rest := t[..DigitRun(t)], t[DigitRun(t)..];
    DigitsAre(ds);
    SignedOk(s[0], s[1], ds);
    Signs(s[0], s[1], ds, rest);
    assert s == [s[0], s[1]] + t && t == ds + rest;
  }

  lemma Signs(e: char, sign: char, ds: string, rest: string)
    ensures [e, sign] + (ds + rest) == [e] + [sign] + ds + rest
  {
  }

  lemma PlainOnly(s: string)
    requires Exponent(s).Ok? && |s| > 0 && (s[0] == 'e' || s[0] == 'E') && !(|s| > 1 && (s[1] == '+' || s[1] == '-'))
    ensures ExponentOk(Exponent(s).value) && s == Exponent(s).value + Exponent(s).rest
  {
    hide DigitRun, ExponentOk;
    var t := s[1..];
    var ds, rest := t[..DigitRun(t)], t[DigitRun(t)..];
    DigitsAre(ds);
    UnsignedOk(s[0], ds);
    assert s == [s[0]] + t && t == ds + rest;
    Regroup([s[0]] + "", ds, rest);
  }

  lemma NoExponent()
    ensures ExponentOk("")
  {
  }

  lemma SignedOk(e: char, sign: char, ds: string)
    requires (e == 'e' || e == 'E') && (sign == '+' || sign == '-') && AllDigits(ds)
    ensures ExponentOk([e] + [sign] + ds)
  {
    assert ([e] + [sign] + ds)[2..] == ds;
    hide AllDigits;
  }

  lemma UnsignedOk(e: char, ds: string)
    requires (e == 'e' || e == 'E') && AllDigits(ds)
    ensures ExponentOk([e] + "" + ds)
  {
    assert ([e] + "" + ds)[1..] == ds;
    hide AllDigits;
  }

  // ----- Every text of the grammar is read -----

  lemma {:induction false} TreeReads(t: Tree, depth: nat, rest: string)
    requires Good(t, depth) && Ends(rest)
    ensures ParseValue(Text(t) + rest, depth) == Ok(Meaning(t), rest)
    decreases t, 1
  {
    hide ParseValue, ParseString, ParseObject, ParseArray, ParseNumber, ParseLiteral, NumberText, NumberValue, NumberOk;
    TextBegins(t, depth);
    BeginsIs(Text(t)[0]);
    var s := Text(t) + rest;
    Dispatch(s, depth);
    match t {
      case TNull => LiteralReads("null", Null, rest);
      case TTrue => LiteralReads("true", Bool(true), rest);
      case TFalse => LiteralReads("false", Bool(false), rest);
      case TNumber(negative, digits, fraction, exponent) =>
        NumberReadsBack(negative, digits, fraction, exponent, rest);
        NumberBegins(negative, digits, fraction, exponent);
        NumberMeans(t);
      case TString(pieces) => KeyIsRead(pieces, depth, rest);
      case TArray(open, items) => ArrayReadsBack(open, items, depth, rest);
      case TObject(open, entries) => ObjectReadsBack(open, entries, depth, rest);
    }
  }

  lemma NumberMeans(t: Tree)
    requires t.TNumber? && NumberOk(t.negative, t.digits, t.fraction, t.exponent)
    ensures Meaning(t) == NumberValue(t.negative, t.digits, t.fraction, t.exponent).value
  {
    hide NumberValue, FractionOk, ExponentOk;
  }

  lemma NumberBegins(negative: bool, digits: string, fraction: string, exponent: string)
    requires NumberOk(negative, digits, fraction, exponent)
    ensures var s := NumberText(negative, digits, fraction, exponent); s != "" && (IsDigit(s[0]) || s[0] == '-')
  {
    hide FractionOk, ExponentOk, NumberValue;
  }

  lemma KeyIsRead(pieces: seq<Piece>, depth: nat, rest: string)
    requires depth <= 100
    ensures ParseString(KeyText(pieces) + rest, depth) == Ok(ValueOf(pieces), rest)
    ensures KeyText(pieces) != "" && KeyText(pieces)[0] == '\"'
  {
    hide StringBody, TextOf, ValueOf;
    BodyReads(pieces, rest);
    assert (KeyText(pieces) + rest)[1..] == TextOf(pieces) + "\"" + rest;
  }

  lemma {:induction false} ArrayReadsBack(open: string, items: seq<Item>, depth: nat, rest: string)
    requires depth <= 100 && Blank(open) && ItemsGood(items, depth + 1)
    ensures ParseArray("[" + open + ItemsText(items) + rest, depth) == Ok(Arr(Meanings(items)), rest)
    decreases items, 2
  {
    hide ParseArray, ParseElements, Text, Meaning;
    BlankIsSpace(open);
    var t := ItemsText(items) + rest;
    ItemsBegin(items, depth + 1);
    assert "[" + open + ItemsText(items) + rest == "[" + open + t;
    ArrayReads(open, t, depth);
    if |items| == 0 {
      EmptyElements(rest, depth);
      assert t == "]" + rest;
    } else {
      ItemsRead(items, depth, rest, []);
      assert [] + Meanings(items) == Meanings(items);
    }
  }

  lemma ItemsBegin(items: seq<Item>, depth: nat)
    requires ItemsGood(items, depth)
    ensures var s := ItemsText(items); s != "" && !IsSpace(s[0]) && (|items| > 0 ==> s[0] != ']')
  {
    hide Text, Good;
    if |items| > 0 {
      TextBegins(items[0].value, depth);
      BeginsIs(Text(items[0].value)[0]);
    }
  }

  /** What stands after an element. */
  function ItemTail(items: seq<Item>, rest: string): string
    requires |items| > 0
  {
    items[0].after + if |items| == 1 then "]" + rest else "," + (items[0].next + (ItemsText(items[1..]) + rest))
  }

  lemma ItemsSplit(items: seq<Item>, rest: string)
    requires |items| > 0
    ensures ItemsText(items) + rest == Text(items[0].value) + ItemTail(items, rest)
  {
    hide Text;
    var a, b := Text(items[0].value), items[0].after;
    if |items| == 1 {
      Regroup(a, b + "]", rest);
      Regroup(b, "]", rest);
    } else {
      var c, d := items[0].next, ItemsText(items[1..]);
      assert ItemsText(items) == a + (b + ("," + (c + d)));
      hide ItemsText;
      Regroup(a, b + ("," + (c + d)), rest);
      Regroup(b, "," + (c + d), rest);
      Regroup(",", c + d, rest);
      Regroup(c, d, rest);
    }
  }

  lemma Regroup(a: string, b: string, c: string)
    ensures a + b + c == a + (b + c)
  {
  }

  lemma TailEnds(ws: string, s: string)
    requires AllSpace(ws) && s != "" && (s[0] == ',' || s[0] == ']' || s[0] == '}')
    ensures Ends(ws + s)
  {
  }

  lemma {:induction false} ItemsRead(items: seq<Item>, depth: nat, rest: string, done: seq<Json>)
    requires |items| > 0 && ItemsGood(items, depth + 1)
    ensures ParseElements(ItemsText(items) + rest, depth, done) == Ok(done + Meanings(items), rest)
    decreases items, 1
  {
    hide Text, Meaning, ItemsText, ParseValue, ParseElements, Separator, Blank, Good;
    var s, tail := ItemsText(items) + rest, ItemTail(items, rest);
    ItemsBegin(items, depth + 1);
    FirstItem(items, depth, rest);
    BlankIsSpace(items[0].after);
    BlankIsSpace(items[0].next);
    var v := Meaning(items[0].value);
    if |items| == 1 {
      SeparatorCloses(items[0].after, ']', rest);
      ElementsEnd(s, depth, done, v, tail, rest);
      assert Meanings(items) == [v];
    } else {
      var next := ItemsText(items[1..]) + rest;
      ItemsBegin(items[1..], depth + 1);
      SeparatorGoesOn(items[0].after, items[0].next, ']', next);
      ItemsRead(items[1..], depth, rest, done + [v]);
      assert done + [v] + Meanings(items[1..]) == done + Meanings(items);
      ElementsGoOn(s, depth, done, v, tail, next);
    }
  }

  lemma {:induction false} FirstItem(items: seq<Item>, depth: nat, rest: string)
    requires |items| > 0 && ItemsGood(items, depth + 1)
    ensures ParseValue(ItemsText(items) + rest, depth + 1) == Ok(Meaning(items[0].value), ItemTail(items, rest))
    decreases items, 0
  {
    hide Text, Meaning, ItemsText, ParseValue, Blank, Good;
    ItemsSplit(items, rest);
    BlankIsSpace(items[0].after);
    TailEnds(items[0].after, if |items| == 1 then "]" + rest else "," + (items[0].next + (ItemsText(items[1..]) + rest)));
    TreeReads(items[0].value, depth + 1, ItemTail(items, rest));
  }

  lemma SeparatorCloses(ws: string, close: char, rest: string)
    requires AllSpace(ws) && (close == ']' || close == '}')
    ensures Separator(ws + ([close] + rest), close) == Ok((), [close] + rest)
  {
    SkipSpaces(ws, [close] + rest);
  }

  lemma SeparatorGoesOn(ws: string, behind: string, close: char, next: string)
    requires AllSpace(ws) && AllSpace(behind) && (close == ']' || close == '}')
    requires next != "" && !IsSpace(next[0]) && next[0] != close
    ensures Separator(ws + ("," + (behind + next)), close) == Ok((), next)
  {
    SkipSpaces(ws, "," + (behind + next));
    SkipSpaces(behind, next);
    assert ("," + (behind + next))[1..] == behind + next;
  }

  lemma ElementsGoOn(s: string, depth: nat, done: seq<Json>, v: Json, tail: string, next: string)
    requires s != [] && s[0] != ']' && ParseValue(s, depth + 1) == Ok(v, tail) && Separator(tail, ']') == Ok((), next)
    ensures ParseElements(s, depth, done) == ParseElements(next, depth, done + [v])
  {
    hide ParseValue, Separator;
  }

  lemma {:induction false} ObjectReadsBack(open: string, entries: seq<Entry>, depth: nat, rest: string)
    requires depth <= 100 && Blank(open) && EntriesGood(entries, depth + 1) && KeysDiffer(entries)
    ensures ParseObject("{" + open + EntriesText(entries) + rest, depth) == Ok(Obj(Inserted(entries, [])), rest)
    decreases entries, 2
  {
    hide ParseObject, ParseMembers, Text, Meaning;
    BlankIsSpace(open);
    var t := EntriesText(entries) + rest;
    EntriesBegin(entries);
    assert "{" + open + EntriesText(entries) + rest == "{" + open + t;
    ObjectReads(open, t, depth);
    if |entries| == 0 {
      EmptyElements(rest, depth);
      assert t == "}" + rest;
    } else {
      EntriesRead(entries, depth, rest, []);
    }
  }

  lemma EntriesBegin(entries: seq<Entry>)
    ensures var s := EntriesText(entries); s != "" && !IsSpace(s[0]) && (|entries| > 0 ==> s[0] == '\"')
  {
    hide Text, KeyText;
    if |entries| > 0 { KeyBegins(entries[0].key); }
  }

  lemma KeyBegins(key: seq<Piece>)
    ensures KeyText(key) != "" && KeyText(key)[0] == '\"'
  {
    hide TextOf;
  }

  function EntryTail(entries: seq<Entry>, rest: string): string
    requires |entries| > 0
  {
    entries[0].after + if |entries| == 1 then "}" + rest else "," + (entries[0].next + (EntriesText(entries[1..]) + rest))
  }

  lemma EntriesSplit(entries: seq<Entry>, rest: string)
    requires |entries| > 0
    ensures var e := entries[0];
      EntriesText(entries) + rest == KeyText(e.key) + (e.before + (":" + (e.behind + (Text(e.value) + EntryTail(entries, rest)))))
  {
    hide Text, KeyText;
    var e := entries[0];
    var k, v := KeyText(e.key), Text(e.value);
    if |entries| == 1 {
      FiveParts(k, e.before, e.behind, v, e.after + "}", rest);
      Regroup(e.after, "}", rest);
    } else {
      var d := EntriesText(entries[1..]);
      assert EntriesText(entries) == k + (e.before + (":" + (e.behind + (v + (e.after + ("," + (e.next + d)))))));
      hide EntriesText;
      FiveParts(k, e.before, e.behind, v, e.after + ("," + (e.next + d)), rest);
      Regroup(e.after, "," + (e.next + d), rest);
      Regroup(",", e.next + d, rest);
      Regroup(e.next, d, rest);
    }
  }

  lemma FiveParts(a: string, b: string, c: string, d: string, e: string, rest: string)
    ensures a + (b + (":" + (c + (d + e)))) + rest == a + (b + (":" + (c + (d + (e + rest)))))
  {
    Regroup(a, b + (":" + (c + (d + e))), rest);
    Regroup(b, ":" + (c + (d + e)), rest);
    Regroup(":", c + (d + e), rest);
    Regroup(c, d + e, rest);
    Regroup(d, e, rest);
  }

  lemma KeyReadsBack(e: Entry, depth: nat, t: string)
    requires depth + 1 <= 100 && Blank(e.before) && Blank(e.behind) && t != "" && !IsSpace(t[0])
    ensures ParseKey(KeyText(e.key) + (e.before + (":" + (e.behind + t))), depth) == Ok(ValueOf(e.key), t)
  {
    hide ParseString, KeyText;
    KeyIsRead(e.key, depth + 1, e.before + (":" + (e.behind + t)));
    BlankIsSpace(e.before);
    BlankIsSpace(e.behind);
    SkipSpaces(e.before, ":" + (e.behind + t));
    SkipSpaces(e.behind, t);
    assert (":" + (e.behind + t))[1..] == e.behind + t;
  }

  lemma {:induction false} HasInserted(m: seq<Member>, k: string, v: Json, x: string)
    ensures HasKey(Insert(m, k, v), x) <==> HasKey(m, x) || x == k
    decreases |m|
  {
    hide LexLess;
    var r := Insert(m, k, v);
    if m == [] || LexLess(k, m[0].key) {
      assert r == [Member(k, v)] + m;
      if HasKey(m, x) {
        var i :| 0 <= i < |m| && m[i].key == x;
        assert r[i + 1].key == x;
      }
      assert r[0].key == k;
    } else {
      HasInserted(m[1..], k, v, x);
      FirstOrLater(m, x);
      FirstOrLater(r, x);
      assert r[1..] == Insert(m[1..], k, v);
    }
  }

  lemma FirstOrLater(m: seq<Member>, x: string)
    requires |m| > 0
    ensures HasKey(m, x) <==> m[0].key == x || HasKey(m[1..], x)
  {
    if HasKey(m[1..], x) {
      var i :| 0 <= i < |m[1..]| && m[1..][i].key == x;
      assert m[i + 1].key == x;
    }
    if HasKey(m, x) && m[0].key != x {
      var i :| 0 <= i < |m| && m[i].key == x;
      assert m[1..][i - 1].key == x;
    }
  }

  predicate KeysNew(entries: seq<Entry>, done: seq<Member>) {
    forall i :: 0 <= i < |entries| ==> !HasKey(done, ValueOf(entries[i].key))
  }

  lemma NextKeysNew(entries: seq<Entry>, done: seq<Member>)
    requires |entries| > 0 && KeysDiffer(entries) && KeysNew(entries, done)
    ensures KeysDiffer(entries[1..]) && KeysNew(entries[1..], Insert(done, ValueOf(entries[0].key), Meaning(entries[0].value)))
  {
    hide Meaning, Insert, ValueOf, HasKey;
    forall i | 0 <= i < |entries[1..]|
      ensures !HasKey(Insert(done, ValueOf(entries[0].key), Meaning(entries[0].value)), ValueOf(entries[1..][i].key))
    {
      assert entries[1..][i] == entries[i + 1];
      HasInserted(done, ValueOf(entries[0].key), Meaning(entries[0].value), ValueOf(entries[i + 1].key));
    }
  }

  lemma {:induction false} EntriesRead(entries: seq<Entry>, depth: nat, rest: string, done: seq<Member>)
    requires |entries| > 0 && EntriesGood(entries, depth + 1) && KeysDiffer(entries) && KeysNew(entries, done)
    ensures ParseMembers(EntriesText(entries) + rest, depth, done) == Ok(Inserted(entries, done), rest)
    decreases entries, 1
  {
    hide Text, Meaning, EntriesText, ParseValue, ParseKey, Separator, Blank, Insert, ValueOf, KeyText, HasKey, KeysDiffer;
    var e := entries[0];
    var s, tail := EntriesText(entries) + rest, EntryTail(entries, rest);
    EntriesBegin(entries);
    EntriesSplit(entries, rest);
    BlankIsSpace(e.after);
    BlankIsSpace(e.next);
    TailEnds(e.after, if |entries| == 1 then "}" + rest else "," + (e.next + (EntriesText(entries[1..]) + rest)));
    EntryReads(e, depth, tail);
    var k, v := ValueOf(e.key), Meaning(e.value);
    NextKeysNew(entries, done);
    if |entries| == 1 {
      SeparatorCloses(e.after, '}', rest);
      MembersEnd(s, depth, done, k, v, tail, rest);
      assert Inserted(entries, done) == Insert(done, k, v);
    } else {
      var next := EntriesText(entries[1..]) + rest;
      EntriesBegin(entries[1..]);
      SeparatorGoesOn(e.after, e.next, '}', next);
      EntriesRead(entries[1..], depth, rest, Insert(done, k, v));
      MembersGoOn(s, depth, done, k, v, tail, next);
    }
  }

  /** A key, its colon and its value. */
  lemma {:induction false} EntryReads(e: Entry, depth: nat, tail: string)
    requires Blank(e.before) && Blank(e.behind) && Good(e.value, depth + 1) && Ends(tail)
    ensures var s := KeyText(e.key) + (e.before + (":" + (e.behind + (Text(e.value) + tail))));
      && ParseKey(s, depth) == Ok(ValueOf(e.key), Text(e.value) + tail)
      && ParseValue(Text(e.value) + tail, depth + 1) == Ok(Meaning(e.value), tail)
    decreases e.value, 2
  {
    hide Text, Meaning, ParseValue, ParseKey, Blank, ValueOf, KeyText;
    TextBegins(e.value, depth + 1);
    BeginsIs(Text(e.value)[0]);
    KeyReadsBack(e, depth, Text(e.value) + tail);
    TreeReads(e.value, depth + 1, tail);
  }

  lemma MembersGoOn(s: string, depth: nat, done: seq<Member>, k: string, v: Json, tail: string, next: string)
    requires s != [] && s[0] != '}' && ParseKey(s, depth).Ok? && ParseKey(s, depth).value == k && !HasKey(done, k)
    requires ParseValue(ParseKey(s, depth).rest, depth + 1) == Ok(v, tail) && Separator(tail, '}') == Ok((), next)
    ensures ParseMembers(s, depth, done) == ParseMembers(next, depth, Insert(done, k, v))
  {
    hide ParseValue, ParseKey, Separator, Insert;
  }

  // ----- Nothing else is read -----

  /** The space at the front. */
  lemma SpaceBefore(s: string) returns (ws: string)
    ensures Blank(ws) && s == ws + SkipWs(s) && (SkipWs(s) != "" ==> !IsSpace(SkipWs(s)[0]))
  {
    Skipped(s);
    ws := s[..|s| - |SkipWs(s)|];
    BlankIsSpace(ws);
  }

  /** The parts of the text between two children, or after the last. */
  lemma SeparatorParts(s: string, close: char) returns (ws: string, behind: string, more: bool)
    requires Separator(s, close).Ok? && (close == ']' || close == '}')
    ensures var next := Separator(s, close).rest;
      && Blank(ws) && Blank(behind) && next != "" && !IsSpace(next[0])
      && (if more then next[0] != close && s == ws + ("," + (behind + next)) else next[0] == close && behind == "" && s == ws + next)
  {
    hide SkipWs;
    var t := SkipWs(s);
    ws := SpaceBefore(s);
    more := t[0] == ',';
    if more {
      behind := SpaceBefore(t[1..]);
      assert t == "," + t[1..];
    } else {
      behind := "";
      BlankIsSpace("");
    }
  }

  lemma {:induction false} Parsed(s: string, depth: nat) returns (ws: string, t: Tree)
    requires ParseValue(s, depth).Ok?
    ensures Blank(ws) && Good(t, depth) && s == ws + (Text(t) + ParseValue(s, depth).rest) && Meaning(t) == ParseValue(s, depth).value
    decreases |s|, 3
  {
    hide ParseValue, ParseString, ParseObject, ParseArray, ParseNumber, ParseLiteral, SkipWs, Good, Text, Meaning;
    ws := SpaceBefore(s);
    var u := SkipWs(s);
    NotEmpty(s, depth);
    BlankIsSpace(ws);
    ValueSkips(ws, u, depth);
    Dispatch(u, depth);
    if u[0] == '\"' {
      t := StringParsed(u, depth);
    } else if u[0] == '{' {
      t := ObjectParsed(u, depth);
    } else if u[0] == '[' {
      t := ArrayParsed(u, depth);
    } else if IsDigit(u[0]) || u[0] == '-' {
      t := NumberOnly(u);
      NumberGood(t, depth);
    } else {
      t := LiteralParsed(u, depth);
    }
  }

  lemma NotEmpty(s: string, depth: nat)
    requires ParseValue(s, depth).Ok?
    ensures SkipWs(s) != "" && depth <= 100 && |SkipWs(s)| <= |s|
  {
    hide ParseString, ParseObject, ParseArray, ParseNumber, ParseLiteral;
  }

  lemma NumberGood(t: Tree, depth: nat)
    requires t.TNumber? && NumberOk(t.negative, t.digits, t.fraction, t.exponent) && depth <= 100
    ensures Good(t, depth)
  {
    hide NumberOk;
  }

  lemma StringParsed(s: string, depth: nat) returns (t: Tree)
    requires ParseString(s, depth).Ok? && s[0] == '\"' && depth <= 100
    ensures Good(t, depth) && s == Text(t) + ParseString(s, depth).rest && Meaning(t) == Str(ParseString(s, depth).value)
  {
    var ps := KeyParsed(s, depth);
    t := TString(ps);
    hide KeyText, ParseString;
  }

  lemma KeyParsed(s: string, depth: nat) returns (ps: seq<Piece>)
    requires ParseString(s, depth).Ok?
    ensures s == KeyText(ps) + ParseString(s, depth).rest && ValueOf(ps) == ParseString(s, depth).value
  {
    hide StringBody, TextOf, ValueOf;
    ps := BodyOnly(s[1..]);
    assert s == "\"" + s[1..];
  }

  lemma LiteralParsed(s: string, depth: nat) returns (t: Tree)
    requires s != "" && depth <= 100
    requires (s[0] == 't' && ParseLiteral(s, "true", Bool(true)).Ok?) || (s[0] == 'f' && ParseLiteral(s, "false", Bool(false)).Ok?)
          || (s[0] == 'n' && ParseLiteral(s, "null", Null).Ok?)
    ensures Good(t, depth)
    ensures var r := if s[0] == 't' then ParseLiteral(s, "true", Bool(true)) else if s[0] == 'f' then ParseLiteral(s, "false", Bool(false))
                     else ParseLiteral(s, "null", Null);
      r.Ok? && s == Text(t) + r.rest && Meaning(t) == r.value
  {
    t := if s[0] == 't' then TTrue else if s[0] == 'f' then TFalse else TNull;
  }

  lemma {:induction false} ArrayParsed(s: string, depth: nat) returns (t: Tree)
    requires s != "" && s[0] == '[' && ParseArray(s, depth).Ok?
    ensures Good(t, depth) && s == Text(t) + ParseArray(s, depth).rest && Meaning(t) == ParseArray(s, depth).value
    decreases |s|, 2
  {
    hide ParseElements, SkipWs, Text, Meaning, ItemsText;
    var open := SpaceBefore(s[1..]);
    var u := SkipWs(s[1..]);
    assert |u| <= |s[1..]| < |s|;
    var items := ElementsParsed(u, depth, []);
    t := TArray(open, items);
    ArrayMeans(open, items);
    assert [] + Meanings(items) == Meanings(items);
    OpenText("[", open, ItemsText(items), ParseElements(u, depth, []).rest, s);
  }

  lemma OpenText(bracket: string, open: string, text: string, rest: string, s: string)
    requires |s| > 0 && bracket == [s[0]] && s[1..] == open + (text + rest)
    ensures s == bracket + open + text + rest
  {
    Regroup(bracket, open, text);
    Regroup(bracket, open + text, rest);
    Regroup(open, text, rest);
    assert s == [s[0]] + s[1..];
  }

  lemma ArrayMeans(open: string, items: seq<Item>)
    ensures Text(TArray(open, items)) == "[" + open + ItemsText(items) && Meaning(TArray(open, items)) == Arr(Meanings(items))
  {
  }

  lemma {:induction false} ElementsParsed(s: string, depth: nat, done: seq<Json>) returns (items: seq<Item>)
    requires depth <= 100 && (s == "" || !IsSpace(s[0])) && ParseElements(s, depth, done).Ok?
    ensures ItemsGood(items, depth + 1) && s == ItemsText(items) + ParseElements(s, depth, done).rest
    ensures ParseElements(s, depth, done).value == done + Meanings(items)
    ensures |items| > 0 <==> s[0] != ']'
    decreases |s|, 4
  {
    hide ParseValue, Separator, Text, Meaning, Good;
    if s[0] == ']' {
      items := [];
      assert done + [] == done;
      assert s == "]" + s[1..];
    } else {
      var r := ParseValue(s, depth + 1);
      var ws, t := Parsed(s, depth + 1);
      NoSpaceBefore(ws, Text(t) + r.rest, s);
      var after, behind, more := SeparatorParts(r.rest, ']');
      var next := Separator(r.rest, ']').rest;
      var later := ElementsParsed(next, depth, done + [r.value]);
      var item := Item(t, after, behind);
      items := [item] + later;
      assert items[1..] == later;
      assert done + [r.value] + Meanings(later) == done + Meanings(items);
      assert !more ==> later == [];
      ItemsSplit(items, ParseElements(next, depth, done + [r.value]).rest);
    }
  }

  lemma NoSpaceBefore(ws: string, t: string, s: string)
    requires Blank(ws) && s == ws + t && (s == "" || !IsSpace(s[0]))
    ensures ws == "" && s == t
  {
    if ws != "" { assert false; }
  }

  lemma {:induction false} ObjectParsed(s: string, depth: nat) returns (t: Tree)
    requires s != "" && s[0] == '{' && ParseObject(s, depth).Ok?
    ensures Good(t, depth) && s == Text(t) + ParseObject(s, depth).rest && Meaning(t) == ParseObject(s, depth).value
    decreases |s|, 2
  {
    hide ParseMembers, SkipWs, Text, Meaning, KeysDiffer, HasKey, EntriesText, Inserted;
    var open := SpaceBefore(s[1..]);
    var u := SkipWs(s[1..]);
    assert |u| <= |s[1..]| < |s|;
    var entries := EntriesParsed(u, depth, []);
    t := TObject(open, entries);
    ObjectMeans(open, entries);
    OpenText("{", open, EntriesText(entries), ParseMembers(u, depth, []).rest, s);
  }

  lemma ObjectMeans(open: string, entries: seq<Entry>)
    ensures Text(TObject(open, entries)) == "{" + open + EntriesText(entries) && Meaning(TObject(open, entries)) == Obj(Inserted(entries, []))
  {
  }

  /** A key, its colon, and where the value begins. */
  lemma KeyParts(s: string, depth: nat) returns (key: seq<Piece>, before: string, behind: string)
    requires ParseKey(s, depth).Ok?
    ensures Blank(before) && Blank(behind) && ValueOf(key) == ParseKey(s, depth).value && depth + 1 <= 100
    ensures var t := ParseKey(s, depth).rest;
      s == KeyText(key) + (before + (":" + (behind + t))) && (t == "" || !IsSpace(t[0]))
  {
    hide SkipWs, KeyText, ValueOf, StringBody;
    var rest := ParseString(s, depth + 1).rest;
    key := KeyParsed(s, depth + 1);
    before := SpaceBefore(rest);
    var t := SkipWs(rest);
    behind := SpaceBefore(t[1..]);
    assert t == ":" + t[1..];
  }

  lemma {:induction false} EntriesParsed(s: string, depth: nat, done: seq<Member>) returns (entries: seq<Entry>)
    requires depth <= 100 && (s == "" || !IsSpace(s[0])) && ParseMembers(s, depth, done).Ok?
    ensures EntriesGood(entries, depth + 1) && KeysDiffer(entries) && KeysNew(entries, done)
    ensures s == EntriesText(entries) + ParseMembers(s, depth, done).rest
    ensures ParseMembers(s, depth, done).value == Inserted(entries, done)
    ensures |entries| > 0 <==> s[0] != '}'
    decreases |s|, 4
  {
    hide ParseValue, ParseKey, Separator, Text, Meaning, Good, KeyText, HasKey, Insert, ValueOf;
    if s[0] == '}' {
      entries := [];
      assert s == "}" + s[1..];
    } else {
      var key, before, behind := KeyParts(s, depth);
      var k, u := ParseKey(s, depth).value, ParseKey(s, depth).rest;
      var r := ParseValue(u, depth + 1);
      var ws, t := Parsed(u, depth + 1);
      NoSpaceBefore(ws, Text(t) + r.rest, u);
      var after, next, more := SeparatorParts(r.rest, '}');
      var v := Separator(r.rest, '}').rest;
      var later := EntriesParsed(v, depth, Insert(done, k, r.value));
      var e := Entry(key, before, behind, t, after, next);
      entries := [e] + later;
      assert entries[1..] == later;
      assert !more ==> later == [];
      NotSeen(done, k);
      FirstKeyNew(entries, done);
      EntriesSplit(entries, ParseMembers(v, depth, Insert(done, k, r.value)).rest);
    }
  }

  lemma NotSeen(done: seq<Member>, k: string)
    ensures (exists i :: 0 <= i < |done| && done[i].key == k) <==> HasKey(done, k)
  {
  }

  lemma FirstKeyNew(entries: seq<Entry>, done: seq<Member>)
    requires |entries| > 0 && !HasKey(done, ValueOf(entries[0].key)) && KeysDiffer(entries[1..])
    requires KeysNew(entries[1..], Insert(done, ValueOf(entries[0].key), Meaning(entries[0].value)))
    ensures KeysDiffer(entries) && KeysNew(entries, done)
  {
    hide HasKey, Insert, Meaning, ValueOf;
    var k, v := ValueOf(entries[0].key), Meaning(entries[0].value);
    forall i | 1 <= i < |entries| ensures ValueOf(entries[i].key) != k && !HasKey(done, ValueOf(entries[i].key)) {
      assert entries[1..][i - 1] == entries[i];
      HasInserted(done, k, v, ValueOf(entries[i].key));
    }
    forall i, j | 0 <= i < j < |entries| ensures ValueOf(entries[i].key) != ValueOf(entries[j].key) {
      if i > 0 { assert entries[1..][i - 1] == entries[i] && entries[1..][j - 1] == entries[j]; }
    }
  }

  // ----- Whole texts -----

  /** The text of a value, with space before and behind. */
  ghost predicate IsText(text: string, v: Json) {
    exists before: string, t: Tree, behind: string ::
      Blank(before) && Good(t, 0) && Blank(behind) && text == before + (Text(t) + behind) && v == Meaning(t)
  }

  /** Json::parse accepts exactly the texts of the grammar, and gives each its value. */
  lemma ParsesTexts(text: string, v: Json)
    ensures ParseText(text) == Some(v) <==> IsText(text, v)
  {
    hide ParseText, IsText;
    if ParseText(text) == Some(v) { ParsedIsText(text, v); }
    if IsText(text, v) { TextIsParsed(text, v); }
  }

  lemma ParsedIsText(text: string, v: Json)
    requires ParseText(text) == Some(v)
    ensures IsText(text, v)
  {
    hide ParseValue, SkipWs, Good, Text, Meaning, Blank;
    var before, t := Parsed(text, 0);
    var rest := ParseValue(text, 0).rest;
    var behind := SpaceBefore(rest);
    assert behind + "" == behind;
    assert text == before + (Text(t) + behind);
  }

  lemma TextIsParsed(text: string, v: Json)
    requires IsText(text, v)
    ensures ParseText(text) == Some(v)
  {
    hide ParseValue, Good, Text, Meaning;
    var before: string, t: Tree, behind: string :|
      Blank(before) && Good(t, 0) && Blank(behind) && text == before + (Text(t) + behind) && v == Meaning(t);
    BlankIsSpace(before);
    BlankIsSpace(behind);
    TextBegins(t, 0);
    BeginsIs(Text(t)[0]);
    TreeReads(t, 0, behind);
    ValueSkips(before, Text(t) + behind, 0);
    SkipSpaces(behind, "");
    assert behind + "" == behind;
  }
}
