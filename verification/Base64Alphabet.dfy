/** What an encoding is, character by character: the 24-bit groups and the alphabets of RFC 4648, sections
    4 and 5. */
module Base64Alphabet {
  import opened Base64
  import opened Bytes

  const STANDARD := "ABCDEFGHIJKLMNOPQRSTUVWXYZ" + "abcdefghijklmnopqrstuvwxyz" + "0123456789+/"
  const URL_SAFE := "ABCDEFGHIJKLMNOPQRSTUVWXYZ" + "abcdefghijklmnopqrstuvwxyz" + "0123456789-_"

  lemma LettersAre(n: nat)
    requires n < 64
    ensures |STANDARD| == |URL_SAFE| == 64
    ensures STANDARD[n] == if n < 26 then (n + 'A' as int) as char else if n < 52 then (n - 26 + 'a' as int) as char
                           else if n < 62 then (n - 52 + '0' as int) as char else if n == 62 then '+' else '/'
    ensures n < 62 ==> URL_SAFE[n] == STANDARD[n]
  {
    if n < 26 { UpperCase(n); } else if n < 52 { LowerCase(n); } else { DigitsAndSigns(n); }
  }

  lemma UpperCase(n: nat)
    requires 0 <= n < 26
    ensures |STANDARD| == |URL_SAFE| == 64 && STANDARD[n] == ('A' as int + n) as char
    ensures URL_SAFE[n] == STANDARD[n]
  {
    assert n == 0 || n == 1 || n == 2 || n == 3 || n == 4 || n == 5 || n == 6 || n == 7
        || n == 8 || n == 9 || n == 10 || n == 11 || n == 12 || n == 13 || n == 14 || n == 15
        || n == 16 || n == 17 || n == 18 || n == 19 || n == 20 || n == 21 || n == 22 || n == 23
        || n == 24 || n == 25;
  }

  lemma LowerCase(n: nat)
    requires 26 <= n < 52
    ensures |STANDARD| == |URL_SAFE| == 64 && STANDARD[n] == ('a' as int + (n - 26)) as char
    ensures URL_SAFE[n] == STANDARD[n]
  {
    assert n == 26 || n == 27 || n == 28 || n == 29 || n == 30 || n == 31 || n == 32 || n == 33
        || n == 34 || n == 35 || n == 36 || n == 37 || n == 38 || n == 39 || n == 40 || n == 41
        || n == 42 || n == 43 || n == 44 || n == 45 || n == 46 || n == 47 || n == 48 || n == 49
        || n == 50 || n == 51;
  }

  lemma DigitsAndSigns(n: nat)
    requires 52 <= n < 64
    ensures |STANDARD| == |URL_SAFE| == 64 && STANDARD[n] == if n < 62 then ('0' as int + (n - 52)) as char else if n == 62 then '+' else '/'
    ensures n < 62 ==> URL_SAFE[n] == STANDARD[n]
  {
    assert n == 52 || n == 53 || n == 54 || n == 55 || n == 56 || n == 57 || n == 58 || n == 59
        || n == 60 || n == 61 || n == 62 || n == 63;
  }

  lemma LastTwo()
    ensures |URL_SAFE| == 64 && URL_SAFE[62] == '-' && URL_SAFE[63] == '_'
  {
  }

  lemma SextetValue(v: bv8)
    ensures (v < 64) == (v as int < 64)
  {
  }

  /** A sextet is written as the character at its place. */
  lemma WrittenAt(v: bv8)
    requires v < 64
    ensures v as int < |STANDARD| && EncodeChar(v) == STANDARD[v as int]
  {
    SextetValue(v);
    LettersAre(v as int);
  }

  /** And a character of either alphabet is read as its place; the padding, alone of all others, as 0. */
  lemma ReadAt(n: nat)
    requires n < 64
    ensures |STANDARD| == |URL_SAFE| == 64
    ensures DecodeChar(STANDARD[n]) as int == n && DecodeChar(URL_SAFE[n]) as int == n
  {
    LettersAre(n);
    LastTwo();
  }

  lemma NotRead(c: char)
    requires c !in STANDARD && c !in URL_SAFE
    ensures DecodeChar(c) == if c == '=' then 0 else 0xff
  {
    if 'A' <= c <= 'Z' {
      LettersAre(c as int - 'A' as int);
    } else if 'a' <= c <= 'z' {
      LettersAre(c as int - 'a' as int + 26);
    } else if '0' <= c <= '9' {
      LettersAre(c as int - '0' as int + 52);
    } else {
      LettersAre(62);
      LettersAre(63);
      LastTwo();
    }
  }

  /** Three bytes as one group of 24 bits. */
  function Group(a: bv8, b: bv8, c: bv8): bv24 {
    ((a as bv24) << 16) | ((b as bv24) << 8) | (c as bv24)
  }

  lemma Sextets(a: bv8, b: bv8, c: bv8)
    ensures var g := Group(a, b, c);
      && (Sextet0(a) as bv24) == (g >> 18) & 63
      && (Sextet1(a, b) as bv24) == (g >> 12) & 63
      && (Sextet2(b, c) as bv24) == (g >> 6) & 63
      && (Sextet3(c) as bv24) == g & 63
  {
  }

  /** The character for six bits. */
  function Written(v: bv24): char
    requires v < 64
  {
    WrittenInRange(v);
    STANDARD[v as int]
  }

  lemma WrittenInRange(v: bv24)
    requires v < 64
    ensures v as int < |STANDARD|
  {
    SixBits(v);
  }

  lemma SixBits(v: bv24)
    ensures (v < 64) == (v as int < 64)
  {
  }

  lemma Widened(v: bv8)
    requires v < 64
    ensures (v as bv24) < 64 && Written(v as bv24) == EncodeChar(v)
  {
    WrittenAt(v);
    SameValue(v);
  }

  lemma SameValue(v: bv8)
    ensures (v as bv24) as int == v as int
  {
  }

  lemma LowBits(g: bv24)
    ensures (g >> 18) & 63 < 64 && (g >> 12) & 63 < 64 && (g >> 6) & 63 < 64 && g & 63 < 64
  {
  }

  /** The first n characters of a group, and padding up to four. */
  function Quad(a: bv8, b: bv8, c: bv8, n: nat): string {
    var g := Group(a, b, c);
    LowBits(g);
    [Written((g >> 18) & 63), Written((g >> 12) & 63),
     if n > 2 then Written((g >> 6) & 63) else '=', if n > 3 then Written(g & 63) else '=']
  }

  lemma QuadIs(a: bv8, b: bv8, c: bv8)
    ensures Group3(a, b, c) == Quad(a, b, c, 4)
  {
    hide Sextet0, Sextet1, Sextet2, Sextet3, Written, Group, EncodeChar;
    Sextets(a, b, c);
    Widened(Sextet0(a));
    Widened(Sextet1(a, b));
    Widened(Sextet2(b, c));
    Widened(Sextet3(c));
  }

  lemma QuadOfTwo(a: bv8, b: bv8)
    ensures Group2(a, b) == Quad(a, b, 0, 3)
  {
    hide Sextet0, Sextet1, Sextet2, Sextet3, Written, Group, EncodeChar;
    Sextets(a, b, 0);
    Widened(Sextet0(a));
    Widened(Sextet1(a, b));
    Widened(Sextet2(b, 0));
  }

  lemma QuadOfOne(a: bv8)
    ensures Group1(a) == Quad(a, 0, 0, 2)
  {
    hide Sextet0, Sextet1, Sextet2, Sextet3, Written, Group, EncodeChar;
    Sextets(a, 0, 0);
    Widened(Sextet0(a));
    Widened(Sextet1(a, 0));
  }

  /** Every whole group of three bytes gives four characters; one or two bytes left over give two or three
      and the padding, with zeros for the bits that are missing. */
  lemma {:induction false} EncodingIs(s: Bytes, k: nat)
    requires 3 * k < |s|
    ensures |Encode(s)| >= 4 * k + 4
    ensures Encode(s)[4 * k..4 * k + 4] ==
      if 3 * k + 2 < |s| then Quad(s[3 * k], s[3 * k + 1], s[3 * k + 2], 4)
      else if 3 * k + 1 < |s| then Quad(s[3 * k], s[3 * k + 1], 0, 3)
      else Quad(s[3 * k], 0, 0, 2)
    decreases k
  {
    hide Quad, Group3, Group2, Group1;
    if k == 0 {
      if |s| >= 3 { QuadIs(s[0], s[1], s[2]); } else if |s| == 2 { QuadOfTwo(s[0], s[1]); } else { QuadOfOne(s[0]); }
      FourEach(s);
    } else {
      EncodingIs(s[3..], k - 1);
      FourEach(s);
      assert Encode(s)[4 * k..4 * k + 4] == Encode(s[3..])[4 * (k - 1)..4 * (k - 1) + 4];
    }
  }

  lemma FourEach(s: Bytes)
    requires |s| > 0
    ensures |s| >= 3 ==> |Encode(s)| >= 4 && Encode(s)[..4] == Group3(s[0], s[1], s[2]) && Encode(s)[4..] == Encode(s[3..])
    ensures |s| == 2 ==> Encode(s) == Group2(s[0], s[1]) && |Encode(s)| == 4
    ensures |s| == 1 ==> Encode(s) == Group1(s[0]) && |Encode(s)| == 4
    ensures |Encode(s)| >= 4
  {
    hide EncodeChar, Sextet0, Sextet1, Sextet2, Sextet3;
  }
}
