/** How values are laid out by the printer, on one line or indented. */
module JsonLayout {
  import opened Json
  import opened JsonGrammar
  import opened JsonParser
  import opened JsonRoundTrip

  function Join(parts: seq<string>, between: string): string
    decreases |parts|
  {
    if |parts| == 0 then "" else if |parts| == 1 then parts[0] else parts[0] + between + Join(parts[1..], between)
  }

  /** Nothing on one line; else a new line and `indent` spaces for each level. */
  ghost predicate NewLine(s: string, levels: nat, indent: int) {
    if indent <= 0 then s == ""
    else |s| == 1 + indent * levels && s[0] == '\n' && forall i :: 1 <= i < |s| ==> s[i] == ' '
  }

  function ElemTexts(es: seq<Json>, depth: nat, indent: int): seq<string> {
    seq(|es|, i requires 0 <= i < |es| => Dump(es[i], depth + 1, indent))
  }

  function MemberTexts(ms: seq<Member>, depth: nat, indent: int): seq<string> {
    seq(|ms|, i requires 0 <= i < |ms| =>
      StrText(ms[i].key) + (if indent > 0 then ": " else ":") + Dump(ms[i].value, depth + 1, indent))
  }

  lemma LeadIs(depth: nat, indent: int)
    ensures NewLine(Lead(depth, indent), depth + 1, indent) && NewLine(Close(depth, indent), depth, indent)
  {
    if indent > 0 {
      SpacesAre(indent * (depth + 1));
      SpacesAre(indent * depth);
      NotNegative(indent, depth);
    }
  }

  lemma SpacesAre(n: int)
    ensures n >= 0 ==> |Spaces(n)| == n && forall i :: 0 <= i < n ==> Spaces(n)[i] == ' '
  {
  }

  lemma NotNegative(a: int, b: nat)
    requires a > 0
    ensures a * b >= 0 && a * (b + 1) >= 0
  {
  }

  lemma {:induction false} ElemsJoin(es: seq<Json>, depth: nat, indent: int)
    requires |es| > 0
    ensures Dump(es[0], depth + 1, indent) + DumpElems(es[1..], depth, indent) ==
            Join(ElemTexts(es, depth, indent), "," + Lead(depth, indent)) + Close(depth, indent) + "]"
    decreases |es|
  {
    hide Dump, Lead, Close;
    var texts, lead, end := ElemTexts(es, depth, indent), Lead(depth, indent), Close(depth, indent) + "]";
    if |es| == 1 {
      assert texts == [Dump(es[0], depth + 1, indent)];
    } else {
      ElemsJoin(es[1..], depth, indent);
      assert texts[1..] == ElemTexts(es[1..], depth, indent);
      JoinMore(texts, "," + lead, end);
      var d, e := Dump(es[1], depth + 1, indent), DumpElems(es[1..][1..], depth, indent);
      assert DumpElems(es[1..], depth, indent) == "," + lead + d + e;
      Regroup("," + lead, d, e);
      Regroup(Join(texts, "," + lead), Close(depth, indent), "]");
      Regroup(Join(texts[1..], "," + lead), Close(depth, indent), "]");
      Regroup(texts[0], "," + lead, d + e);
    }
  }

  lemma JoinMore(parts: seq<string>, between: string, end: string)
    requires |parts| >= 2
    ensures Join(parts, between) + end == parts[0] + (between + (Join(parts[1..], between) + end))
  {
    Regroup(parts[0], between, Join(parts[1..], between));
    Regroup(parts[0], between + Join(parts[1..], between), end);
    Regroup(between, Join(parts[1..], between), end);
  }

  /** An array: a bracket, the elements with commas between them, each after a new line, and a bracket
      after one more. */
  lemma ArrayLayout(es: seq<Json>, depth: nat, indent: int)
    ensures es == [] ==> Dump(Arr(es), depth, indent) == "[]"
    ensures es != [] ==>
              exists lead, close :: (
                NewLine(lead, depth + 1, indent) && NewLine(close, depth, indent)
                && Dump(Arr(es), depth, indent) == "[" + lead + Join(ElemTexts(es, depth, indent), "," + lead) + close + "]")
  {
    hide NewLine, Lead, Close, ElemTexts;
    LeadIs(depth, indent);
    if es != [] {
      ElemsJoin(es, depth, indent);
      hide Join;
      var lead, close := Lead(depth, indent), Close(depth, indent);
      var d, e := Dump(es[0], depth + 1, indent), DumpElems(es[1..], depth, indent);
      var j := Join(ElemTexts(es, depth, indent), "," + lead);
      Regroup("[" + lead, d, e);
      Regroup("[" + lead, j + close, "]");
      Regroup("[" + lead, j, close);
      assert Dump(Arr(es), depth, indent) == "[" + lead + j + close + "]";
    }
  }

  lemma {:induction false} MembersJoin(ms: seq<Member>, depth: nat, indent: int)
    requires |ms| > 0
    ensures MemberTexts(ms, depth, indent)[0] + DumpMembers(ms[1..], depth, indent) ==
            Join(MemberTexts(ms, depth, indent), "," + Lead(depth, indent)) + Close(depth, indent) + "}"
    decreases |ms|
  {
    hide Dump, Lead, Close, StrText;
    var texts, lead, end := MemberTexts(ms, depth, indent), Lead(depth, indent), Close(depth, indent) + "}";
    if |ms| == 1 {
      assert texts == [texts[0]];
    } else {
      MembersJoin(ms[1..], depth, indent);
      assert texts[1..] == MemberTexts(ms[1..], depth, indent);
      JoinMore(texts, "," + lead, end);
      var e := DumpMembers(ms[1..][1..], depth, indent);
      MemberGrouped("," + lead, ms[1], depth, indent, e);
      assert DumpMembers(ms[1..], depth, indent) == "," + lead + texts[1] + e;
      Regroup("," + lead, texts[1], e);
      Regroup(Join(texts, "," + lead), Close(depth, indent), "}");
      Regroup(Join(texts[1..], "," + lead), Close(depth, indent), "}");
      Regroup(texts[0], "," + lead, texts[1] + e);
    }
  }

  lemma MemberGrouped(before: string, m: Member, depth: nat, indent: int, e: string)
    ensures before + StrText(m.key) + Colon(indent) + Dump(m.value, depth + 1, indent) + e ==
            before + (StrText(m.key) + (if indent > 0 then ": " else ":") + Dump(m.value, depth + 1, indent)) + e
  {
    hide StrText, Dump;
    Regroup(before, StrText(m.key), Colon(indent));
    Regroup(before, StrText(m.key) + Colon(indent), Dump(m.value, depth + 1, indent));
  }

  /** An object: the same with braces, each member a key, a colon and a value. */
  lemma ObjectLayout(ms: seq<Member>, depth: nat, indent: int)
    ensures ms == [] ==> Dump(Obj(ms), depth, indent) == "{}"
    ensures ms != [] ==>
              exists lead, close :: (
                NewLine(lead, depth + 1, indent) && NewLine(close, depth, indent)
                && Dump(Obj(ms), depth, indent) == "{" + lead + Join(MemberTexts(ms, depth, indent), "," + lead) + close + "}")
  {
    hide NewLine, Lead, Close, StrText;
    LeadIs(depth, indent);
    if ms != [] {
      MembersJoin(ms, depth, indent);
      hide Join;
      var lead, close := Lead(depth, indent), Close(depth, indent);
      var d, e := MemberTexts(ms, depth, indent)[0], DumpMembers(ms[1..], depth, indent);
      var j := Join(MemberTexts(ms, depth, indent), "," + lead);
      MemberGrouped("{" + lead, ms[0], depth, indent, e);
      Regroup("{" + lead, d, e);
      Regroup("{" + lead, j + close, "}");
      Regroup("{" + lead, j, close);
      assert Dump(Obj(ms), depth, indent) == "{" + lead + j + close + "}";
    }
  }

  /** The rest: literals, and integers in decimal, without leading zeros. */
  lemma PlainLayout(v: Json, depth: nat, indent: int)
    ensures v == Null ==> Dump(v, depth, indent) == "null"
    ensures v == Bool(true) ==> Dump(v, depth, indent) == "true"
    ensures v == Bool(false) ==> Dump(v, depth, indent) == "false"
    ensures v.Integer? && v.n >= 0 ==>
              var s := Dump(v, depth, indent); AllDigits(s) && Decimal(s, v.n) && (s[0] == '0' ==> v.n == 0 && |s| == 1)
    ensures v.Integer? && v.n < 0 ==>
              var s := Dump(v, depth, indent);
              |s| > 1 && s[0] == '-' && AllDigits(s[1..]) && Decimal(s[1..], -v.n) && s[1] != '0'
  {
    if v.Integer? {
      var m := Magnitude(v.n);
      NatTextDigits(m);
      DecimalValue(NatText(m));
      hide NatText, Decimal;
      assert v.n < 0 ==> ("-" + NatText(m))[1..] == NatText(m);
    }
  }
}
