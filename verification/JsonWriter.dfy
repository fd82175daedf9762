/** The printer as it runs: appending to an output buffer. */
module JsonWriter {
  import opened Json

  class Writer {
    var out: string

    constructor ()
      ensures out == ""
    {
      out := "";
    }

    method Append(s: string)
      modifies this
      ensures out == old(out) + s
    {
      out := out + s;
    }

    /** dump_string. */
    method DumpString(s: string)
      modifies this
      ensures out == old(out) + StrText(s)
    {
      out := out + "\"";
      for i := 0 to |s|
        invariant out + EscapedAll(s[i..]) == old(out) + "\"" + EscapedAll(s)
      {
        ghost var before := out;
        var c := s[i];
        if c == '\"' { out := out + "\\\"";
        } else if c == '\\' { out := out + "\\\\";
        } else if c == '\n' { out := out + "\\n";
        } else if c == '\r' { out := out + "\\r";
        } else if c == '\t' { out := out + "\\t";
        } else if c as int == 8 { out := out + "\\b";
        } else if c as int == 12 { out := out + "\\f";
        } else if c as int < 32 { out := out + ("\\u00" + [HexDigit(c as int / 16), HexDigit(c as int % 16)]);
        } else { out := out + [c]; }
        assert out == before + Escaped(c);
        EscapedStep(before, s[i..]);
        assert s[i..][1..] == s[i + 1..];
      }
      assert s[|s|..] == "" && out + "" == out;
      out := out + "\"";
    }

    /** dump_value. */
    method DumpValue(v: Json, depth: nat, indent: int)
      modifies this
      ensures out == old(out) + Dump(v, depth, indent)
      decreases v, 1
    {
      match v {
        case Null => Append("null");
        case Bool(b) => Append(if b then "true" else "false");
        case Integer(n) => Append(IntText(n));
        case Float(lexeme) => Append(lexeme);
        case Str(s) => DumpString(s);
        case Arr(es) => DumpArray(es, depth, indent);
        case Obj(ms) => DumpObject(ms, depth, indent);
      }
    }

    method DumpArray(arr: seq<Json>, depth: nat, indent: int)
      modifies this
      ensures out == old(out) + Dump(Arr(arr), depth, indent)
      decreases arr, 1
    {
      FirstElem(out, arr, depth, indent);
      hide Dump, DumpElems, StrText, Spaces;
      Append("[");
      if arr != [] && indent > 0 {
        PrettyArray(arr, depth, indent);
      } else if arr != [] {
        CompactArray(arr, depth, indent);
      }
      Append("]");
    }

    method PrettyArray(arr: seq<Json>, depth: nat, indent: int)
      requires arr != [] && indent > 0
      modifies this
      ensures out + "]" == ElemText(Before(old(out), depth, indent), arr[0], depth, indent) + DumpElems(arr[1..], depth, indent)
      decreases arr, 0
    {
      hide Dump, DumpElems, StrText, Spaces;
      ghost var goal := ElemText(Before(out, depth, indent), arr[0], depth, indent) + DumpElems(arr[1..], depth, indent);
      var childIndent := Spaces(indent * (depth + 1));
      var closeIndent := Spaces(indent * depth);
      Append("\n");
      var first := true;
      for i := 0 to |arr|
        invariant first == (i == 0)
        invariant if i == 0 then out == old(out) + "\n" else out + DumpElems(arr[i..], depth, indent) == goal
      {
        NextElem(out, arr[i..], depth, indent);
        if !first { Append(",\n"); }
        Append(childIndent);
        DumpValue(arr[i], depth + 1, indent);
        first := false;
      }
      NextElem(out, [], depth, indent);
      Append("\n");
      Append(closeIndent);
    }

    method CompactArray(arr: seq<Json>, depth: nat, indent: int)
      requires arr != [] && indent <= 0
      modifies this
      ensures out + "]" == ElemText(Before(old(out), depth, indent), arr[0], depth, indent) + DumpElems(arr[1..], depth, indent)
      decreases arr, 0
    {
      hide Dump, DumpElems, StrText;
      ghost var goal := ElemText(Before(out, depth, indent), arr[0], depth, indent) + DumpElems(arr[1..], depth, indent);
      var first := true;
      for i := 0 to |arr|
        invariant first == (i == 0)
        invariant if i == 0 then out == old(out) else out + DumpElems(arr[i..], depth, indent) == goal
      {
        NextElem(out, arr[i..], depth, indent);
        if !first { Append(","); }
        DumpValue(arr[i], depth + 1, indent);
        first := false;
      }
      NextElem(out, [], depth, indent);
    }

    method DumpObject(obj: seq<Member>, depth: nat, indent: int)
      modifies this
      ensures out == old(out) + Dump(Obj(obj), depth, indent)
      decreases obj, 1
    {
      FirstMember(out, obj, depth, indent);
      hide Dump, DumpMembers, StrText, Spaces;
      Append("{");
      if obj != [] && indent > 0 {
        PrettyObject(obj, depth, indent);
      } else if obj != [] {
        CompactObject(obj, depth, indent);
      }
      Append("}");
    }

    method PrettyObject(obj: seq<Member>, depth: nat, indent: int)
      requires obj != [] && indent > 0
      modifies this
      ensures out + "}" == MemberText(Before(old(out), depth, indent), obj[0], depth, indent) + DumpMembers(obj[1..], depth, indent)
      decreases obj, 0
    {
      hide Dump, DumpMembers, StrText, Spaces, MemberText;
      ghost var goal := MemberText(Before(out, depth, indent), obj[0], depth, indent) + DumpMembers(obj[1..], depth, indent);
      var childIndent := Spaces(indent * (depth + 1));
      var closeIndent := Spaces(indent * depth);
      Append("\n");
      var first := true;
      for i := 0 to |obj|
        invariant first == (i == 0)
        invariant if i == 0 then out == old(out) + "\n" else out + DumpMembers(obj[i..], depth, indent) == goal
      {
        NextMember(out, obj[i..], depth, indent);
        if !first { Append(",\n"); }
        Append(childIndent);
        DumpMember(obj[i], depth, indent);
        first := false;
      }
      NextMember(out, [], depth, indent);
      Append("\n");
      Append(closeIndent);
    }

    method CompactObject(obj: seq<Member>, depth: nat, indent: int)
      requires obj != [] && indent <= 0
      modifies this
      ensures out + "}" == MemberText(Before(old(out), depth, indent), obj[0], depth, indent) + DumpMembers(obj[1..], depth, indent)
      decreases obj, 0
    {
      hide Dump, DumpMembers, StrText, MemberText;
      ghost var goal := MemberText(Before(out, depth, indent), obj[0], depth, indent) + DumpMembers(obj[1..], depth, indent);
      var first := true;
      for i := 0 to |obj|
        invariant first == (i == 0)
        invariant if i == 0 then out == old(out) else out + DumpMembers(obj[i..], depth, indent) == goal
      {
        NextMember(out, obj[i..], depth, indent);
        if !first { Append(","); }
        DumpMember(obj[i], depth, indent);
        first := false;
      }
      NextMember(out, [], depth, indent);
    }

    /** A key, its colon and the value. */
    method DumpMember(m: Member, depth: nat, indent: int)
      modifies this
      ensures out == MemberText(old(out), m, depth, indent)
      decreases m, 0
    {
      hide Dump, StrText;
      DumpString(m.key);
      Append(if indent > 0 then ": " else ":");
      DumpValue(m.value, depth + 1, indent);
    }
  }

  lemma EscapedStep(before: string, s: string)
    requires s != ""
    ensures before + EscapedAll(s) == before + Escaped(s[0]) + EscapedAll(s[1..])
  {
    hide Escaped;
  }

  /** Where the children of a container stand: the text before the first, and between two. */
  function Before(before: string, depth: nat, indent: int): string {
    if indent > 0 then before + "\n" + Spaces(indent * (depth + 1)) else before
  }

  function ElemText(before: string, e: Json, depth: nat, indent: int): string {
    before + Dump(e, depth + 1, indent)
  }

  function MemberText(before: string, m: Member, depth: nat, indent: int): string {
    before + StrText(m.key) + Colon(indent) + Dump(m.value, depth + 1, indent)
  }

  lemma FirstElem(before: string, es: seq<Json>, depth: nat, indent: int)
    ensures before + Dump(Arr(es), depth, indent) ==
              if es == [] then before + "[" + "]"
              else ElemText(Before(before + "[", depth, indent), es[0], depth, indent) + DumpElems(es[1..], depth, indent)
  {
    hide DumpElems, Spaces;
  }

  lemma NextElem(before: string, es: seq<Json>, depth: nat, indent: int)
    ensures before + DumpElems(es, depth, indent) ==
              if es == [] then (if indent > 0 then before + "\n" + Spaces(indent * depth) else before) + "]"
              else ElemText(if indent > 0 then before + ",\n" + Spaces(indent * (depth + 1)) else before + ",",
                            es[0], depth, indent) + DumpElems(es[1..], depth, indent)
  {
    hide Dump, Spaces;
  }

  lemma FirstMember(before: string, ms: seq<Member>, depth: nat, indent: int)
    ensures before + Dump(Obj(ms), depth, indent) ==
              if ms == [] then before + "{" + "}"
              else MemberText(Before(before + "{", depth, indent), ms[0], depth, indent) + DumpMembers(ms[1..], depth, indent)
  {
    hide DumpMembers, Spaces, StrText, Colon;
  }

  lemma NextMember(before: string, ms: seq<Member>, depth: nat, indent: int)
    ensures before + DumpMembers(ms, depth, indent) ==
              if ms == [] then (if indent > 0 then before + "\n" + Spaces(indent * depth) else before) + "}"
              else MemberText(if indent > 0 then before + ",\n" + Spaces(indent * (depth + 1)) else before + ",",
                              ms[0], depth, indent) + DumpMembers(ms[1..], depth, indent)
  {
    hide Dump, Spaces, StrText, Colon;
  }

  /** Json::dump. */
  method DumpText(v: Json, indent: int) returns (text: string)
    ensures text == Dump(v, 0, indent)
  {
    var w := new Writer();
    w.DumpValue(v, 0, indent);
    text := w.out;
  }
}
