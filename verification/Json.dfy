/** JSON values and the text the printer makes of them.

    A std::string is a sequence of characters standing for its bytes.  An object is std::map's
    sequence of members, in strictly increasing key order. */
module Json {

  datatype Json =
    | Null
    | Bool(b: bool)
    | Integer(n: int)
    | Float(lexeme: string)
    | Str(s: string)
    | Arr(elems: seq<Json>)
    | Obj(members: seq<Member>)

  datatype Member = Member(key: string, value: Json)

  const INT64_MIN := -0x8000_0000_0000_0000
  const INT64_MAX := 0x7fff_ffff_ffff_ffff

  // ----- std::map<std::string, Json> -----

  /** operator< on std::string: lexicographic by byte. */
  predicate LexLess(a: string, b: string) {
    if a == [] then b != []
    else b != [] && (a[0] < b[0] || (a[0] == b[0] && LexLess(a[1..], b[1..])))
  }

  predicate Sorted(m: seq<Member>) {
    forall i, j :: 0 <= i < j < |m| ==> LexLess(m[i].key, m[j].key)
  }

  predicate HasKey(m: seq<Member>, k: string) {
    exists i :: 0 <= i < |m| && m[i].key == k
  }

  /** obj[k] = v for a key that is not there yet. */
  function Insert(m: seq<Member>, k: string, v: Json): seq<Member> {
    if m == [] || LexLess(k, m[0].key) then [Member(k, v)] + m
    else [m[0]] + Insert(m[1..], k, v)
  }

  lemma {:induction false} LexTrans(a: string, b: string, c: string)
    requires LexLess(a, b) && LexLess(b, c)
    ensures LexLess(a, c)
    decreases |a|
  {
    if a != [] && a[0] == b[0] && b[0] == c[0] { LexTrans(a[1..], b[1..], c[1..]); }
  }

  lemma {:induction false} LexIrreflexive(a: string)
    ensures !LexLess(a, a)
    decreases |a|
  {
    if a != [] { LexIrreflexive(a[1..]); }
  }

  lemma {:induction false} LexTotal(a: string, b: string)
    ensures a == b || LexLess(a, b) || LexLess(b, a)
    decreases |a|
  {
    if a != [] && b != [] && a[0] == b[0] {
      LexTotal(a[1..], b[1..]);
      assert a == [a[0]] + a[1..] && b == [b[0]] + b[1..];
    }
  }

  /** A key after all others goes last. */
  lemma {:induction false} InsertLast(m: seq<Member>, k: string, v: Json)
    requires forall i :: 0 <= i < |m| ==> LexLess(m[i].key, k)
    ensures Insert(m, k, v) == m + [Member(k, v)] && !HasKey(m, k)
    decreases |m|
  {
    if HasKey(m, k) {
      LexIrreflexive(k);
    }
    if m != [] {
      if LexLess(k, m[0].key) {
        LexTrans(k, m[0].key, k);
        LexIrreflexive(k);
      }
      InsertLast(m[1..], k, v);
      assert m == [m[0]] + m[1..];
    }
  }

  /** Inserting keeps the map's order and adds exactly the new member. */
  lemma {:induction false} InsertSorted(m: seq<Member>, k: string, v: Json)
    requires Sorted(m) && !HasKey(m, k)
    ensures Sorted(Insert(m, k, v)) && |Insert(m, k, v)| == |m| + 1
    ensures forall x :: x in Insert(m, k, v) <==> x in m || x == Member(k, v)
    decreases |m|
  {
    if m == [] {
    } else if LexLess(k, m[0].key) {
      forall i | 0 <= i < |m| ensures LexLess(k, m[i].key) {
        if i > 0 { LexTrans(k, m[0].key, m[i].key); }
      }
    } else {
      var rest := m[1..];
      forall i | 0 <= i < |rest| ensures rest[i].key != k { assert rest[i] == m[i + 1]; }
      InsertSorted(rest, k, v);
      assert m[0].key != k;
      LexTotal(m[0].key, k);
      var r := Insert(rest, k, v);
      forall i | 0 <= i < |r| ensures LexLess(m[0].key, r[i].key) {
        assert r[i] in r;
        if r[i] != Member(k, v) {
          assert r[i] in rest;
          var j :| 0 <= j < |rest| && rest[j] == r[i];
          assert m[j + 1] == r[i];
        }
      }
      assert m == [m[0]] + rest;
    }
  }

  // ----- values -----

  /** What every Json object is: int64 integers, maps in order. */
  ghost predicate WellFormed(v: Json)
    decreases v, 1
  {
    match v
    case Integer(n) => INT64_MIN <= n <= INT64_MAX
    case Arr(es) => AllWellFormed(es)
    case Obj(ms) => Sorted(ms) && MembersWellFormed(ms)
    case _ => true
  }

  ghost predicate AllWellFormed(es: seq<Json>)
    decreases es, 0
  {
    es == [] || (WellFormed(es[0]) && AllWellFormed(es[1..]))
  }

  ghost predicate MembersWellFormed(ms: seq<Member>)
    decreases ms, 0
  {
    ms == [] || (WellFormed(ms[0].value) && MembersWellFormed(ms[1..]))
  }

  ghost predicate FloatFree(v: Json)
    decreases v, 1
  {
    match v
    case Float(_) => false
    case Arr(es) => AllFloatFree(es)
    case Obj(ms) => MembersFloatFree(ms)
    case _ => true
  }

  ghost predicate AllFloatFree(es: seq<Json>)
    decreases es, 0
  {
    es == [] || (FloatFree(es[0]) && AllFloatFree(es[1..]))
  }

  ghost predicate MembersFloatFree(ms: seq<Member>)
    decreases ms, 0
  {
    ms == [] || (FloatFree(ms[0].value) && MembersFloatFree(ms[1..]))
  }

  function Max(a: nat, b: nat): nat {
    if a < b then b else a
  }

  /** The level of the deepest node below a value, the value itself being at level 0. */
  function Height(v: Json): nat
    decreases v, 1
  {
    match v
    case Arr(es) => ElemsHeight(es)
    case Obj(ms) => MembersHeight(ms)
    case _ => 0
  }

  function ElemsHeight(es: seq<Json>): nat
    decreases es, 0
  {
    if es == [] then 0 else Max(1 + Height(es[0]), ElemsHeight(es[1..]))
  }

  function MembersHeight(ms: seq<Member>): nat
    decreases ms, 0
  {
    if ms == [] then 0 else Max(1 + Height(ms[0].value), MembersHeight(ms[1..]))
  }

  // ----- printing -----

  function Digit(d: nat): char
    requires d < 10
  {
    '0' + d as char
  }

  function HexDigit(d: nat): char
    requires d < 16
  {
    if d < 10 then '0' + d as char else 'a' + (d - 10) as char
  }

  function NatText(n: nat): string
    decreases n
  {
    if n < 10 then [Digit(n)] else NatText(n / 10) + [Digit(n % 10)]
  }

  /** std::to_string of an int64. */
  function IntText(n: int): string {
    if n < 0 then "-" + NatText(-n) else NatText(n)
  }

  /** One byte of dump_string. */
  function Escaped(c: char): string {
    if c == '\"' then "\\\""
    else if c == '\\' then "\\\\"
    else if c == '\n' then "\\n"
    else if c == '\r' then "\\r"
    else if c == '\t' then "\\t"
    else if c as int == 8 then "\\b"
    else if c as int == 12 then "\\f"
    else if c as int < 32 then "\\u00" + [HexDigit(c as int / 16), HexDigit(c as int % 16)]
    else [c]
  }

  function EscapedAll(s: string): string {
    if s == "" then "" else Escaped(s[0]) + EscapedAll(s[1..])
  }

  function StrText(s: string): string {
    "\"" + EscapedAll(s) + "\""
  }

  function Spaces(n: int): string {
    if n <= 0 then "" else seq(n, _ => ' ')
  }

  /** What stands before a child, and before the closing bracket. */
  function Lead(depth: nat, indent: int): string {
    if indent > 0 then "\n" + Spaces(indent * (depth + 1)) else ""
  }

  function Close(depth: nat, indent: int): string {
    if indent > 0 then "\n" + Spaces(indent * depth) else ""
  }

  function Colon(indent: int): string {
    if indent > 0 then ": " else ":"
  }

  /** dump_value. */
  function Dump(v: Json, depth: nat, indent: int): string
    decreases v, 1
  {
    match v
    case Null => "null"
    case Bool(b) => if b then "true" else "false"
    case Integer(n) => IntText(n)
    case Float(lexeme) => lexeme
    case Str(s) => StrText(s)
    case Arr(es) =>
      if es == [] then "[]"
      else "[" + Lead(depth, indent) + Dump(es[0], depth + 1, indent) + DumpElems(es[1..], depth, indent)
    case Obj(ms) =>
      if ms == [] then "{}"
      else "{" + Lead(depth, indent) + StrText(ms[0].key) + Colon(indent) + Dump(ms[0].value, depth + 1, indent)
           + DumpMembers(ms[1..], depth, indent)
  }

  /** The elements after the first, and the end of the array. */
  function DumpElems(es: seq<Json>, depth: nat, indent: int): string
    decreases es, 0
  {
    if es == [] then Close(depth, indent) + "]"
    else "," + Lead(depth, indent) + Dump(es[0], depth + 1, indent) + DumpElems(es[1..], depth, indent)
  }

  function DumpMembers(ms: seq<Member>, depth: nat, indent: int): string
    decreases ms, 0
  {
    if ms == [] then Close(depth, indent) + "}"
    else "," + Lead(depth, indent) + StrText(ms[0].key) + Colon(indent) + Dump(ms[0].value, depth + 1, indent)
         + DumpMembers(ms[1..], depth, indent)
  }
}
