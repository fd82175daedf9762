/** Base64, in the standard and the URL-safe alphabet (RFC 4648, sections 4 and 5). */
module Base64 {
  import opened Bytes
  import opened Options

  const PADDING := '='

  const INVALID: bv8 := 0xff

  /** kEncTable. */
  function EncodeChar(v: bv8): char
    requires v < 64
  {
    var n := v as int;
    if n < 26 then (n + 'A' as int) as char
    else if n < 52 then (n - 26 + 'a' as int) as char
    else if n < 62 then (n - 52 + '0' as int) as char
    else if n == 62 then '+' else '/'
  }

  /** kDecTable: both alphabets; the padding counts as 0. */
  function DecodeChar(c: char): (v: bv8)
    ensures v < 64 || v == INVALID
  {
    if 'A' <= c <= 'Z' then Small(c as int - 'A' as int)
    else if 'a' <= c <= 'z' then Small(c as int - 'a' as int + 26)
    else if '0' <= c <= '9' then Small(c as int - '0' as int + 52)
    else if c == '+' || c == '-' then 62
    else if c == '/' || c == '_' then 63
    else if c == PADDING then 0
    else INVALID
  }

  function Small(n: nat): (v: bv8)
    requires n < 64
    ensures v < 64 && v as int == n
  {
    Byte(n)
  }

  lemma DecodeEncodeChar(v: bv8)
    requires v < 64
    ensures DecodeChar(EncodeChar(v)) == v && EncodeChar(v) != PADDING
  {
    SmallValue(v);
    BackAndForth(v);
    hide Small;
    BackAndForth(Small(v as int));
  }

  lemma SmallValue(v: bv8)
    ensures (v < 64) == (v as int < 64)
  {
  }

  // ----- Encoding -----

  function EncSize(n: nat): nat { (n + 2) / 3 * 4 }

  function DecSize(n: nat): nat { (n + 3) / 4 * 3 }

  /** The four sextets of three bytes. */
  function Sextet0(a: bv8): (v: bv8)
    ensures v < 64
  {
    a >> 2
  }

  function Sextet1(a: bv8, b: bv8): (v: bv8)
    ensures v < 64
  {
    ((a & 0x03) << 4) | (b >> 4)
  }

  function Sextet2(b: bv8, c: bv8): (v: bv8)
    ensures v < 64
  {
    ((b & 0x0f) << 2) | (c >> 6)
  }

  function Sextet3(c: bv8): (v: bv8)
    ensures v < 64
  {
    c & 0x3f
  }

  function Group3(a: bv8, b: bv8, c: bv8): string {
    [EncodeChar(Sextet0(a)), EncodeChar(Sextet1(a, b)), EncodeChar(Sextet2(b, c)), EncodeChar(Sextet3(c))]
  }

  function Group2(a: bv8, b: bv8): string {
    [EncodeChar(Sextet0(a)), EncodeChar(Sextet1(a, b)), EncodeChar(Sextet2(b, 0)), PADDING]
  }

  function Group1(a: bv8): string {
    [EncodeChar(Sextet0(a)), EncodeChar(Sextet1(a, 0)), PADDING, PADDING]
  }

  function Encode(s: Bytes): (t: string)
    ensures |t| == EncSize(|s|)
    decreases |s|
  {
    if |s| == 0 then ""
    else if |s| == 1 then Group1(s[0])
    else if |s| == 2 then Group2(s[0], s[1])
    else Group3(s[0], s[1], s[2]) + Encode(s[3..])
  }

  // ----- Decoding -----

  /** Character j of the group at the front: past the end, NUL for the first two and padding for the others. */
  function CharAt(t: string, j: nat): char
    requires j < 4
  {
    if j < |t| then t[j] else if j < 2 then 0 as char else PADDING
  }

  predicate GroupOk(t: string) {
    DecodeChar(CharAt(t, 0)) != INVALID && DecodeChar(CharAt(t, 1)) != INVALID
    && DecodeChar(CharAt(t, 2)) != INVALID && DecodeChar(CharAt(t, 3)) != INVALID
  }

  function GroupBytes(t: string): (r: Bytes)
    ensures |r| == 3
  {
    var d0, d1, d2, d3 := DecodeChar(CharAt(t, 0)), DecodeChar(CharAt(t, 1)), DecodeChar(CharAt(t, 2)), DecodeChar(CharAt(t, 3));
    Combined(d0, d1, d2, d3)
  }

  /** Three bytes from four sextets. */
  function Combined(d0: bv8, d1: bv8, d2: bv8, d3: bv8): (r: Bytes)
    ensures |r| == 3
  {
    [(d0 << 2) | (d1 >> 4), (d1 << 4) | (d2 >> 2), (d2 << 6) | d3]
  }

  /** How many bytes the padding of the last group takes away. */
  function Padding(t: string): nat {
    (if CharAt(t, 3) == PADDING then 1 else 0) + (if CharAt(t, 2) == PADDING then 1 else 0)
  }

  function Rest(t: string): string {
    if |t| <= 4 then "" else t[4..]
  }

  function Decode(t: string): (r: Option<Bytes>)
    ensures r.Some? ==> |r.value| <= DecSize(|t|)
    decreases |t|
  {
    if |t| == 0 then Some([])
    else if !GroupOk(t) then None
    else if |t| <= 4 then Some(GroupBytes(t)[..3 - Padding(t)])
    else match Decode(Rest(t))
      case None => None
      case Some(b) => Some(GroupBytes(t) + b)
  }

  // ----- Round trip -----

  /** The same text in either alphabet, chosen character by character. */
  predicate SameChar(c: char, d: char) {
    c == d || (d == '+' && c == '-') || (d == '/' && c == '_')
  }

  predicate Respelled(t: string, e: string) {
    |t| == |e| && forall i :: 0 <= i < |t| ==> SameChar(t[i], e[i])
  }

  /** `t` spells an encoding of s, with all, some or none of its padding. */
  predicate Spells(t: string, s: Bytes) {
    |t| <= |Encode(s)| && Respelled(t, Encode(s)[..|t|]) && forall i :: |t| <= i < |Encode(s)| ==> Encode(s)[i] == PADDING
  }

  lemma SameDecodes(c: char, d: char)
    requires SameChar(c, d)
    ensures DecodeChar(c) == DecodeChar(d) && (c == PADDING <==> d == PADDING)
  {
  }

  /** The sextets hold all the bits. */
  lemma SextetsBack(a: bv8, b: bv8, c: bv8)
    ensures Combined(Sextet0(a), Sextet1(a, b), Sextet2(b, c), Sextet3(c)) == [a, b, c]
    ensures Sextet3(0) == 0 && Sextet2(0, 0) == 0
  {
  }

  /** A group whose characters spell given ones reads as their values. */
  lemma GroupReads(t: string, e: string)
    requires |e| == 4 && forall j :: 0 <= j < 4 ==> SameChar(CharAt(t, j), e[j])
    ensures forall j :: 0 <= j < 4 ==> DecodeChar(CharAt(t, j)) == DecodeChar(e[j]) && (CharAt(t, j) == PADDING <==> e[j] == PADDING)
  {
    forall j | 0 <= j < 4
      ensures DecodeChar(CharAt(t, j)) == DecodeChar(e[j]) && (CharAt(t, j) == PADDING <==> e[j] == PADDING)
    {
      SameDecodes(CharAt(t, j), e[j]);
    }
  }

  lemma FullGroup(t: string, a: bv8, b: bv8, c: bv8)
    requires forall j :: 0 <= j < 4 ==> SameChar(CharAt(t, j), Group3(a, b, c)[j])
    ensures GroupOk(t) && GroupBytes(t) == [a, b, c] && Padding(t) == 0
  {
    GroupReads(t, Group3(a, b, c));
    DecodeEncodeChar(Sextet0(a));
    DecodeEncodeChar(Sextet1(a, b));
    DecodeEncodeChar(Sextet2(b, c));
    DecodeEncodeChar(Sextet3(c));
    SextetsBack(a, b, c);
    hide CharAt, SameChar, DecodeChar, EncodeChar, Sextet0, Sextet1, Sextet2, Sextet3, Combined;
  }

  lemma TwoByteGroup(t: string, a: bv8, b: bv8)
    requires forall j :: 0 <= j < 4 ==> SameChar(CharAt(t, j), Group2(a, b)[j])
    ensures GroupOk(t) && GroupBytes(t)[..2] == [a, b] && Padding(t) == 1
  {
    GroupReads(t, Group2(a, b));
    DecodeEncodeChar(Sextet0(a));
    DecodeEncodeChar(Sextet1(a, b));
    DecodeEncodeChar(Sextet2(b, 0));
    SextetsBack(a, b, 0);
    PaddingDecodes();
    hide CharAt, SameChar, DecodeChar, EncodeChar, Sextet0, Sextet1, Sextet2, Sextet3, Combined;
  }

  lemma OneByteGroup(t: string, a: bv8)
    requires forall j :: 0 <= j < 4 ==> SameChar(CharAt(t, j), Group1(a)[j])
    ensures GroupOk(t) && GroupBytes(t)[..1] == [a] && Padding(t) == 2
  {
    GroupReads(t, Group1(a));
    DecodeEncodeChar(Sextet0(a));
    DecodeEncodeChar(Sextet1(a, 0));
    SextetsBack(a, 0, 0);
    PaddingDecodes();
    hide CharAt, SameChar, DecodeChar, EncodeChar, Sextet0, Sextet1, Sextet2, Sextet3, Combined;
  }

  lemma PaddingDecodes()
    ensures DecodeChar(PADDING) == 0
  {
  }

  /** The first two characters of an encoding are never padding. */
  lemma EncodeStarts(s: Bytes)
    requires |s| > 0
    ensures Encode(s)[0] != PADDING && Encode(s)[1] != PADDING
    ensures |s| >= 3 ==> Encode(s)[2] != PADDING && Encode(s)[3] != PADDING
  {
    hide EncodeChar, DecodeChar, Sextet0, Sextet1, Sextet2, Sextet3;
    var a := s[0];
    var b := if |s| > 1 then s[1] else 0;
    var c := if |s| > 2 then s[2] else 0;
    DecodeEncodeChar(Sextet0(a));
    DecodeEncodeChar(Sextet1(a, b));
    DecodeEncodeChar(Sextet2(b, c));
    DecodeEncodeChar(Sextet3(c));
    if |s| >= 3 { FrontGroup(Group3(a, b, c), Encode(s[3..])); }
  }

  lemma FrontGroup(group: string, rest: string)
    requires |group| == 4
    ensures forall j :: 0 <= j < 4 ==> (group + rest)[j] == group[j]
  {
  }

  lemma SpellsFront(t: string, s: Bytes)
    requires Spells(t, s) && |s| > 0
    ensures |t| >= 2 && forall j :: 0 <= j < 4 ==> SameChar(CharAt(t, j), Encode(s)[j])
  {
    EncodeStarts(s);
    var e := Encode(s);
    hide Encode, SameChar;
    forall j | 0 <= j < 4 ensures SameChar(CharAt(t, j), e[j]) {
      if j < |t| { assert e[..|t|][j] == e[j]; } else { PaddingIsPadding(); }
    }
  }

  lemma PaddingIsPadding()
    ensures SameChar(PADDING, PADDING)
  {
  }

  lemma SpellsRest(t: string, s: Bytes)
    requires Spells(t, s) && |s| >= 3
    ensures if |s| == 3 then |t| == 4 else |t| > 4 && Spells(Rest(t), s[3..])
  {
    EncodeStarts(s);
    var e := Encode(s);
    assert |e| == 4 + EncSize(|s| - 3);
    if |s| > 3 {
      EncodeStarts(s[3..]);
      var f := Encode(s[3..]);
      assert e[4..] == f;
      hide Encode, SameChar;
      assert e[4] == f[0];
      var u := Rest(t);
      assert f[..|u|] == e[..|t|][4..];
      forall i | 0 <= i < |u| ensures SameChar(u[i], f[..|u|][i]) { assert u[i] == t[i + 4] && f[..|u|][i] == e[..|t|][i + 4]; }
      forall i | |u| <= i < |f| ensures f[i] == PADDING { assert f[i] == e[i + 4]; }
    }
  }

  /** Decoding any spelling of an encoding, in either alphabet, with or without its padding, returns
      the bytes encoded. */
  lemma {:induction false} DecodeEncode(s: Bytes, t: string)
    requires Spells(t, s)
    ensures Decode(t) == Some(s)
    decreases |s|
  {
    hide SameChar, CharAt, DecodeChar, EncodeChar, GroupBytes, GroupOk, Padding;
    var e := Encode(s);
    if |s| == 0 {
    } else {
      SpellsFront(t, s);
      if |s| == 1 {
        OneByteGroup(t, s[0]);
        assert s == [s[0]];
      } else if |s| == 2 {
        TwoByteGroup(t, s[0], s[1]);
        assert s == [s[0], s[1]];
      } else {
        FullGroup(t, s[0], s[1], s[2]);
        SpellsRest(t, s);
        assert s == [s[0], s[1], s[2]] + s[3..];
        if |s| > 3 { DecodeEncode(s[3..], Rest(t)); } else { assert s == [s[0], s[1], s[2]]; }
      }
    }
  }

  /** A text decodes exactly when all its characters are of an alphabet or padding, and no group has
      a single character. */
  lemma {:induction false} DecodeAccepts(t: string)
    ensures Decode(t).Some? <==> |t| % 4 != 1 && forall i :: 0 <= i < |t| ==> DecodeChar(t[i]) != INVALID
    decreases |t|
  {
    hide DecodeChar, GroupBytes, Padding, GroupOk;
    if |t| > 0 { GroupOkMeans(t); }
    if |t| > 4 {
      DecodeAccepts(Rest(t));
      assert forall i :: 4 <= i < |t| ==> t[i] == Rest(t)[i - 4];
      assert forall i :: 0 <= i < |Rest(t)| ==> Rest(t)[i] == t[i + 4];
    }
  }

  lemma GroupOkMeans(t: string)
    requires |t| > 0
    ensures GroupOk(t) <==> |t| != 1 && forall i :: 0 <= i < |t| && i < 4 ==> DecodeChar(t[i]) != INVALID
  {
    PaddingDecodes();
    assert DecodeChar(0 as char) == INVALID;
    hide DecodeChar;
    assert forall i :: 0 <= i < |t| && i < 4 ==> CharAt(t, i) == t[i];
  }

  // ----- The code as it runs -----

  /** The characters of the first group. */
  function FirstGroup(s: Bytes): (g: string)
    requires |s| > 0
    ensures |g| == 4
  {
    if |s| == 1 then Group1(s[0]) else if |s| == 2 then Group2(s[0], s[1]) else Group3(s[0], s[1], s[2])
  }

  function AfterGroup(s: Bytes): Bytes {
    if |s| <= 3 then [] else s[3..]
  }

  lemma EncodeIs(s: Bytes)
    requires |s| > 0
    ensures Encode(s) == FirstGroup(s) + Encode(AfterGroup(s))
  {
    hide Group1, Group2, Group3;
    assert |s| == 3 ==> s[3..] == [];
  }

  lemma EncodeStep(before: string, s: Bytes)
    requires |s| > 0
    ensures before + Encode(s) == before + FirstGroup(s) + Encode(AfterGroup(s))
  {
    hide Encode, FirstGroup, AfterGroup;
    EncodeIs(s);
  }

  /** One round of the encoder's loop. */
  method EncodeGroup(src: Bytes, rd: nat, dst: array<char>, wr: nat) returns (next: nat)
    requires rd < |src| && wr + 4 <= dst.Length
    modifies dst
    ensures rd < next <= |src| && src[next..] == AfterGroup(src[rd..])
    ensures dst[..wr + 4] == old(dst[..wr]) + FirstGroup(src[rd..]) && dst[wr + 4..] == old(dst[wr + 4..])
  {
    hide EncodeChar, Sextet0, Sextet1, Sextet2, Sextet3;
    dst[wr] := EncodeChar(Sextet0(src[rd]));
    if rd + 1 >= |src| {
      dst[wr + 1], dst[wr + 2], dst[wr + 3] := EncodeChar(Sextet1(src[rd], 0)), PADDING, PADDING;
      return rd + 1;
    }
    dst[wr + 1] := EncodeChar(Sextet1(src[rd], src[rd + 1]));
    if rd + 2 >= |src| {
      dst[wr + 2], dst[wr + 3] := EncodeChar(Sextet2(src[rd + 1], 0)), PADDING;
      return rd + 2;
    }
    dst[wr + 2] := EncodeChar(Sextet2(src[rd + 1], src[rd + 2]));
    dst[wr + 3] := EncodeChar(Sextet3(src[rd + 2]));
    next := rd + 3;
  }

  /** Base64Encode into a buffer: the whole padded text, or -1 and nothing if there is no room. */
  method EncodeInto(src: Bytes, dst: array<char>) returns (size: int)
    modifies dst
    ensures dst.Length < EncSize(|src|) ==> size == -1 && dst[..] == old(dst[..])
    ensures dst.Length >= EncSize(|src|) ==>
              size == EncSize(|src|) && dst[..size] == Encode(src) && dst[size..] == old(dst[size..])
  {
    var padded := EncSize(|src|);
    if dst.Length < padded { return -1; }
    hide Encode, FirstGroup;
    var rd, wr := 0, 0;
    assert src[0..] == src;
    while rd < |src|
      invariant 0 <= rd <= |src| && 0 <= wr && wr + |Encode(src[rd..])| == padded
      invariant dst[..wr] + Encode(src[rd..]) == Encode(src)
      invariant dst[padded..] == old(dst[padded..])
      decreases |src| - rd
    {
      EncodeStep(dst[..wr], src[rd..]);
      rd := EncodeGroup(src, rd, dst, wr);
      assert dst[padded..] == dst[wr + 4..][padded - (wr + 4)..];
      wr := wr + 4;
    }
    EncodeNothing();
    assert src[|src|..] == [] && dst[..wr] + [] == dst[..wr];
    size := padded;
  }

  lemma EncodeNothing()
    ensures Encode([]) == ""
  {
  }

  /** One round of the decoder's loop: the group's bytes written, unless a character is bad. */
  method DecodeGroup(src: string, rd: nat, dst: array<bv8>, wr: nat) returns (ok: bool, s: string)
    requires rd < |src| && wr + 3 <= dst.Length
    modifies dst
    ensures ok == GroupOk(src[rd..])
    ensures ok ==> dst[..wr + 3] == old(dst[..wr]) + GroupBytes(src[rd..]) && |s| == 4 && PaddingOf(s) == Padding(src[rd..])
    ensures forall k :: wr + 3 <= k < dst.Length ==> dst[k] == old(dst[k])
  {
    hide DecodeChar, Combined;
    var d;
    ok, s, d := ReadGroup(src, rd);
    if !ok { return; }
    var bytes := Combined(d[0], d[1], d[2], d[3]);
    dst[wr], dst[wr + 1], dst[wr + 2] := bytes[0], bytes[1], bytes[2];
    assert dst[..wr + 3] == old(dst[..wr]) + bytes;
  }

  /** Its inner loop: the four characters, padding standing in past the end, and their values. */
  method ReadGroup(src: string, rd: nat) returns (ok: bool, s: string, d: Bytes)
    requires rd < |src|
    ensures ok == GroupOk(src[rd..])
    ensures ok ==> |s| == 4 && |d| == 4 && forall k :: 0 <= k < 4 ==> s[k] == CharAt(src[rd..], k) && d[k] == DecodeChar(s[k])
  {
    hide DecodeChar;
    ghost var left := src[rd..];
    s := [0 as char, 0 as char, 0 as char, 0 as char];
    d := [0, 0, 0, 0];
    for j := 0 to 4
      invariant |s| == 4 && |d| == 4
      invariant forall k :: 0 <= k < j ==> s[k] == CharAt(left, k) && d[k] == DecodeChar(CharAt(left, k)) && d[k] != INVALID
    {
      var c := if rd + j < |src| then src[rd + j] else if j < 2 then 0 as char else PADDING;
      assert c == CharAt(left, j);
      s := s[j := c];
      d := d[j := DecodeChar(c)];
      if d[j] == INVALID { return false, s, d; }
    }
    ok := true;
  }

  function PaddingOf(s: string): (n: nat)
    requires |s| == 4
    ensures n <= 2
  {
    (if s[3] == PADDING then 1 else 0) + (if s[2] == PADDING then 1 else 0)
  }

  function Prefixed(before: Bytes, r: Option<Bytes>): Option<Bytes> {
    match r case None => None case Some(b) => Some(before + b)
  }

  lemma DecodeStep(before: Bytes, t: string)
    requires |t| > 0
    ensures Prefixed(before, Decode(t)) ==
            if !GroupOk(t) then None
            else if |t| <= 4 then Some(before + GroupBytes(t)[..3 - Padding(t)])
            else Prefixed(before + GroupBytes(t), Decode(Rest(t)))
  {
    hide GroupOk, GroupBytes, Padding;
    if |t| > 4 && GroupOk(t) && Decode(Rest(t)).Some? {
      var b := Decode(Rest(t)).value;
      assert before + (GroupBytes(t) + b) == before + GroupBytes(t) + b;
    }
  }

  /** The same, as a step of decoding the whole text. */
  method DecodeRound(src: string, rd: nat, dst: array<bv8>, wr: nat) returns (ok: bool, padding: nat)
    requires rd < |src| && wr + 3 <= dst.Length && Decode(src) == Prefixed(dst[..wr], Decode(src[rd..]))
    modifies dst
    ensures !ok ==> Decode(src) == None
    ensures ok && rd + 4 < |src| ==> Decode(src) == Prefixed(dst[..wr + 3], Decode(src[rd + 4..]))
    ensures ok ==> padding <= 2
    ensures ok && rd + 4 >= |src| ==> Decode(src) == Some(dst[..wr + 3 - padding])
    ensures forall k :: wr + 3 <= k < dst.Length ==> dst[k] == old(dst[k])
  {
    hide Decode, GroupOk, GroupBytes, Padding, PaddingOf, Rest, Prefixed;
    ghost var left, before := src[rd..], dst[..wr];
    DecodeStep(before, left);
    RestIs(src, rd);
    var s;
    ok, s := DecodeGroup(src, rd, dst, wr);
    if !ok { return false, 0; }
    padding := PaddingOf(s);
    DropLast(dst[..wr + 3], before, GroupBytes(left), padding);
    assert dst[..wr + 3 - padding] == dst[..wr + 3][..wr + 3 - padding];
  }

  /** The decoder's loop. */
  method DecodeAll(src: string, dst: array<bv8>) returns (size: int)
    requires DecSize(|src|) <= dst.Length
    modifies dst
    ensures forall k :: DecSize(|src|) <= k < dst.Length ==> dst[k] == old(dst[k])
    ensures match Decode(src)
            case None => size == -1
            case Some(bytes) => 0 <= size <= dst.Length && dst[..size] == bytes
  {
    hide Decode, DecSize, Prefixed;
    var rd, wr, padding := 0, 0, 0;
    DecodeNothing();
    DecSizeStep(0);
    PrefixedNothing(Decode(src));
    assert src[0..] == src && dst[..0] == [];
    while rd < |src|
      invariant 0 <= rd <= |src| && 0 <= wr && wr + DecSize(|src| - rd) == DecSize(|src|) && 0 <= padding <= wr
      invariant if rd < |src| then Decode(src) == Prefixed(dst[..wr], Decode(src[rd..])) else Decode(src) == Some(dst[..wr - padding])
      invariant forall k :: DecSize(|src|) <= k < dst.Length ==> dst[k] == old(dst[k])
      decreases |src| - rd
    {
      DecSizeStep(|src| - rd);
      var ok;
      ok, padding := DecodeRound(src, rd, dst, wr);
      if !ok { return -1; }
      rd := if rd + 4 < |src| then rd + 4 else |src|;
      wr := wr + 3;
    }
    size := wr - padding;
  }

  /** Base64Decode into a buffer: the number of bytes decoded, or -1 for a bad text or too little room.
      Nothing is written past the computed size. */
  method DecodeInto(src: string, dst: array<bv8>) returns (size: int)
    modifies dst
    ensures dst.Length < DecSize(|src|) ==> size == -1 && dst[..] == old(dst[..])
    ensures dst.Length >= DecSize(|src|) ==> dst[DecSize(|src|)..] == old(dst[DecSize(|src|)..])
    ensures dst.Length >= DecSize(|src|) ==>
              match Decode(src)
              case None => size == -1
              case Some(bytes) => size == |bytes| && dst[..size] == bytes
  {
    hide Decode, DecSize;
    if dst.Length < DecSize(|src|) { return -1; }
    size := DecodeAll(src, dst);
  }

  lemma PrefixedNothing(r: Option<Bytes>)
    ensures Prefixed([], r) == r
  {
    if r.Some? { assert [] + r.value == r.value; }
  }

  lemma RestIs(src: string, rd: nat)
    requires rd < |src|
    ensures rd + 4 < |src| ==> Rest(src[rd..]) == src[rd + 4..]
  {
  }

  lemma DropLast(all: Bytes, before: Bytes, group: Bytes, n: nat)
    requires all == before + group && n <= |group|
    ensures all[..|all| - n] == before + group[..|group| - n]
  {
  }

  lemma DecSizeStep(n: nat)
    ensures DecSize(n) == if n == 0 then 0 else 3 + DecSize(if n < 4 then 0 else n - 4)
  {
  }

  lemma DecodeNothing()
    ensures Decode("") == Some([])
  {
  }
}
