/** SHA-1: the streaming computation against the one-shot definition of FIPS 180-3. */
module Sha1 {
  import opened Bytes

  type Word = bv32

  /** H, or the working variables A to E. */
  datatype Chain = Chain(a: Word, b: Word, c: Word, d: Word, e: Word)

  const INITIAL := Chain(0x67452301, 0xefcdab89, 0x98badcfe, 0x10325476, 0xc3d2e1f0)

  const BLOCK := 64

  const WORDS := 80

  // ----- One block: FIPS 180-3, section 6.1.2 -----

  function F(t: nat, b: Word, c: Word, d: Word): Word {
    if t < 20 then (b & c) | ((!b) & d)
    else if t < 40 then b ^ c ^ d
    else if t < 60 then ((b & c) | (b & d)) | (c & d)
    else b ^ c ^ d
  }

  /** Rotation to the left. */
  function S(n: nat, x: Word): Word
    requires 0 < n < 32
  {
    (x << n) | (x >> (32 - n))
  }

  function K(t: nat): Word {
    if t < 20 then 0x5a827999 else if t < 40 then 0x6ed9eba1 else if t < 60 then 0x8f1bbcdc else 0xca62c1d6
  }

  /** Four bytes, the first the most significant. */
  function BigEndianWord(s: Bytes): Word
    requires |s| == 4
  {
    (((s[0] as Word) << 24) | ((s[1] as Word) << 16)) | (((s[2] as Word) << 8) | (s[3] as Word))
  }

  /** The word after 16 or more. */
  function Expanded(w: seq<Word>): Word
    requires |w| >= 16
  {
    var t := |w|;
    S(1, w[t - 3] ^ w[t - 8] ^ w[t - 14] ^ w[t - 16])
  }

  /** The message schedule: the first n words. */
  function Schedule(block: Bytes, n: nat): (w: seq<Word>)
    requires |block| == BLOCK && n <= WORDS
    ensures |w| == n
    decreases n
  {
    if n == 0 then []
    else
      var w := Schedule(block, n - 1);
      var t := n - 1;
      w + [if t < 16 then BigEndianWord(block[4 * t..4 * t + 4]) else Expanded(w)]
  }

  function Temp(t: nat, a: Word, b: Word, c: Word, d: Word, e: Word, w: Word): Word {
    S(5, a) + F(t, b, c, d) + e + w + K(t)
  }

  function Round(t: nat, v: Chain, w: Word): Chain {
    Chain(Temp(t, v.a, v.b, v.c, v.d, v.e, w), v.a, S(30, v.b), v.c, v.d)
  }

  /** The first n rounds. */
  function Rounds(v: Chain, w: seq<Word>, n: nat): Chain
    requires n <= |w|
    decreases n
  {
    if n == 0 then v else Round(n - 1, Rounds(v, w, n - 1), w[n - 1])
  }

  function Plus(x: Chain, y: Chain): Chain {
    Chain(x.a + y.a, x.b + y.b, x.c + y.c, x.d + y.d, x.e + y.e)
  }

  function Compress(h: Chain, block: Bytes): Chain
    requires |block| == BLOCK
  {
    var w := Schedule(block, WORDS);
    Plus(h, Rounds(h, w, |w|))
  }

  // ----- The whole message: sections 5.1.1 and 6.1.2 -----

  /** The blocks of a message in turn. */
  function Fold(s: Bytes): Chain
    requires |s| % BLOCK == 0
    decreases |s|
  {
    if |s| == 0 then INITIAL else Compress(Fold(s[..|s| - BLOCK]), s[|s| - BLOCK..])
  }

  /** Zero bytes between the 1 bit and the length: as few as make whole blocks. */
  function ZeroCount(n: nat): (k: nat)
    ensures k < BLOCK && (n + 1 + k + 8) % BLOCK == 0
  {
    (119 - n % BLOCK) % BLOCK
  }

  function Zeros(k: nat): Bytes {
    seq(k, _ => 0)
  }

  /** The length in bits is kept in 64 bits: exact for messages under 2^61 bytes. */
  function BitLength(n: nat): (l: nat)
    ensures l < SIZE_T
  {
    8 * n % SIZE_T
  }

  function Padded(m: Bytes): (s: Bytes)
    ensures |s| % BLOCK == 0
  {
    m + [0x80] + Zeros(ZeroCount(|m|)) + ToBigEndian(BitLength(|m|), 8)
  }

  /** No two messages under 2^61 bytes have the same padded form. */
  lemma PaddedInjective(a: Bytes, b: Bytes)
    requires 8 * |a| < SIZE_T && 8 * |b| < SIZE_T && Padded(a) == Padded(b)
    ensures a == b
  {
    hide ToBigEndian, Zeros, ZeroCount;
    var s, t := Padded(a), Padded(b);
    assert s[|s| - 8..] == ToBigEndian(8 * |a|, 8) && t[|t| - 8..] == ToBigEndian(8 * |b|, 8);
    Pow256Values();
    BigEndianRoundTrip(8 * |a|, 8);
    BigEndianRoundTrip(8 * |b|, 8);
    assert s[..|a|] == a && t[..|b|] == b;
  }

  function WordBytes(x: Word): Bytes {
    [(x >> 24) as bv8, ((x >> 16) & 0xff) as bv8, ((x >> 8) & 0xff) as bv8, (x & 0xff) as bv8]
  }

  function ChainBytes(h: Chain): Bytes {
    WordBytes(h.a) + WordBytes(h.b) + WordBytes(h.c) + WordBytes(h.d) + WordBytes(h.e)
  }

  function Sha1(m: Bytes): Bytes {
    ChainBytes(Fold(Padded(m)))
  }

  function BSwap32(x: Word): Word {
    (((x & 0xff000000) >> 24) | ((x & 0x00ff0000) >> 8)) | (((x & 0x0000ff00) << 8) | ((x & 0x000000ff) << 24))
  }

  /** A word as it lies in memory, the first byte the least significant. */
  function Load(s: Bytes): Word
    requires |s| == 4
  {
    ((s[0] as Word) | ((s[1] as Word) << 8)) | (((s[2] as Word) << 16) | ((s[3] as Word) << 24))
  }

  function Store(x: Word): (s: Bytes)
    ensures |s| == 4
  {
    [(x & 0xff) as bv8, ((x >> 8) & 0xff) as bv8, ((x >> 16) & 0xff) as bv8, (x >> 24) as bv8]
  }

  lemma SwappedLoad(s: Bytes)
    requires |s| == 4
    ensures BSwap32(Load(s)) == BigEndianWord(s)
  {
  }

  lemma SwappedStore(x: Word)
    ensures Store(BSwap32(x)) == WordBytes(x)
  {
  }

  // ----- The code as it runs -----

  /** l >> 56, ..., l, each cut to a byte. */
  function LengthBytes(l: nat): (s: Bytes)
    ensures |s| == 8
  {
    [Byte(l / 0x100_0000_0000_0000 % 256), Byte(l / 0x1_0000_0000_0000 % 256), Byte(l / 0x100_0000_0000 % 256), Byte(l / 0x1_0000_0000 % 256),
     Byte(l / 0x100_0000 % 256), Byte(l / 0x1_0000 % 256), Byte(l / 0x100 % 256), Byte(l % 256)]
  }

  lemma LengthIsBigEndian(l: nat)
    ensures LengthBytes(l) == ToBigEndian(l, 8)
  {
    hide Byte;
    var l1 := l / 256;
    var l2 := l1 / 256;
    var l3 := l2 / 256;
    var l4 := l3 / 256;
    var l5 := l4 / 256;
    var l6 := l5 / 256;
    var l7 := l6 / 256;
    ShiftedBytes(l);
    assert ToBigEndian(l7, 1) == [Byte(l7 % 256)];
    assert ToBigEndian(l6, 2) == ToBigEndian(l7, 1) + [Byte(l6 % 256)];
    assert ToBigEndian(l5, 3) == ToBigEndian(l6, 2) + [Byte(l5 % 256)];
    assert ToBigEndian(l4, 4) == ToBigEndian(l5, 3) + [Byte(l4 % 256)];
    assert ToBigEndian(l3, 5) == ToBigEndian(l4, 4) + [Byte(l3 % 256)];
    assert ToBigEndian(l2, 6) == ToBigEndian(l3, 5) + [Byte(l2 % 256)];
    assert ToBigEndian(l1, 7) == ToBigEndian(l2, 6) + [Byte(l1 % 256)];
    hide ToBigEndian;
  }

  lemma ShiftedBytes(l: nat)
    ensures l / 256 / 256 == l / 0x1_0000 && l / 0x1_0000 / 256 == l / 0x100_0000 && l / 0x100_0000 / 256 == l / 0x1_0000_0000
    ensures l / 0x1_0000_0000 / 256 == l / 0x100_0000_0000 && l / 0x100_0000_0000 / 256 == l / 0x1_0000_0000_0000
    ensures l / 0x1_0000_0000_0000 / 256 == l / 0x100_0000_0000_0000
  {
  }

  class SecureHashAlgorithm {
    var h: Chain
    const M: array<bv8>  // in a union with W: Process leaves its schedule in it
    var cursor: nat
    var l: nat
    ghost var whole: Bytes  // the blocks that are in h

    /** Every byte stored so far: those in h, and those waiting in M. */
    ghost function Stream(): Bytes
      requires cursor <= M.Length
      reads this, M
    {
      whole + M[..cursor]
    }

    ghost predicate Holds()
      reads this
    {
      M.Length == BLOCK && cursor <= BLOCK && |whole| % BLOCK == 0 && h == Fold(whole)
    }

    /** Between calls of Update. */
    ghost predicate Valid()
      reads this, M
    {
      Holds() && cursor < BLOCK && l == BitLength(|Stream()|)
    }

    constructor ()
      ensures Valid() && Stream() == [] && fresh(M)
    {
      h := INITIAL;
      M := new bv8[BLOCK];
      cursor, l := 0, 0;
      whole := [];
    }

    /** M[cursor++] = b. */
    method Put(b: bv8)
      requires Holds() && cursor < BLOCK
      modifies this, M
      ensures Holds() && cursor == old(cursor) + 1 && l == old(l) && whole == old(whole)
      ensures Stream() == old(Stream()) + [b]
    {
      hide Fold;
      ghost var before := M[..cursor];
      M[cursor] := b;
      cursor := cursor + 1;
      assert M[..cursor] == before + [b];
      assert whole + (before + [b]) == whole + before + [b];
    }

    /** The block in M into h. */
    method Process()
      requires Holds() && cursor == BLOCK
      modifies this, M
      ensures Holds() && cursor == 0 && l == old(l) && Stream() == old(Stream())
    {
      hide Fold, Compress, Schedule, Rounds, Plus;
      ghost var block := M[..];
      var w := ReadSchedule();
      var v := RunRounds(w);
      CompressIs(h, block, w, v);
      FoldNext(whole, block);
      h := Plus(h, v);
      assert block == M[..cursor];
      whole := whole + block;
      cursor := 0;
      LeaveSchedule(w);
      assert whole + M[..0] == whole;
    }

    /** Steps a and b: the schedule. */
    method ReadSchedule() returns (w: seq<Word>)
      requires M.Length == BLOCK
      ensures w == Schedule(M[..], WORDS)
    {
      hide Expanded, Load, BSwap32, BigEndianWord;
      w := [];
      for t := 0 to 16
        invariant w == Schedule(M[..], t)
      {
        SwappedLoad(M[4 * t..4 * t + 4]);
        assert M[..][4 * t..4 * t + 4] == M[4 * t..4 * t + 4];
        w := w + [BSwap32(Load(M[4 * t..4 * t + 4]))];
      }
      for t := 16 to WORDS
        invariant w == Schedule(M[..], t)
      {
        w := w + [Expanded(w)];
      }
    }

    /** Steps c and d: the rounds. */
    method RunRounds(w: seq<Word>) returns (v: Chain)
      requires |w| == WORDS
      ensures v == Rounds(h, w, |w|)
    {
      hide S, Temp;
      var a, b, c, d, e := h.a, h.b, h.c, h.d, h.e;
      for t := 0 to |w|
        invariant Chain(a, b, c, d, e) == Rounds(h, w, t)
      {
        var temp := Temp(t, a, b, c, d, e, w[t]);
        e := d;
        d := c;
        c := S(30, b);
        b := a;
        a := temp;
      }
      v := Chain(a, b, c, d, e);
    }

    /** W lies over M. */
    method LeaveSchedule(w: seq<Word>)
      requires |w| == WORDS && M.Length == BLOCK
      modifies M
    {
      hide Store;
      for t := 0 to 16 {
        var s := Store(w[t]);
        M[4 * t], M[4 * t + 1], M[4 * t + 2], M[4 * t + 3] := s[0], s[1], s[2], s[3];
      }
    }

    method Update(data: Bytes)
      requires Valid()
      modifies this, M
      ensures Valid() && Stream() == old(Stream()) + data
    {
      hide Fold, BitLength;
      assert old(Stream()) + data[..0] == old(Stream());
      for i := 0 to |data|
        invariant Valid() && Stream() == old(Stream()) + data[..i]
      {
        NextLength(|Stream()|);
        assert old(Stream()) + data[..i + 1] == old(Stream()) + data[..i] + [data[i]];
        Put(data[i]);
        if cursor >= BLOCK { Process(); }
        l := (l + 8) % SIZE_T;
      }
      assert data[..|data|] == data;
    }

    method Pad()
      requires Valid()
      modifies this, M
      ensures Holds() && cursor == BLOCK && Stream() == Padded(old(Stream()))
    {
      hide Fold, LengthBytes, ToBigEndian, BitLength, Zeros;
      ghost var m := Stream();
      ghost var start := cursor;
      NoZeros();
      Put(0x80);
      assert Stream() == m + [0x80] + Zeros(0);
      if cursor > BLOCK - 8 {
        PutZeros(BLOCK, m + [0x80], 0);
        Process();
        PutZeros(BLOCK - 8, m + [0x80], BLOCK - (start + 1));
      } else {
        PutZeros(BLOCK - 8, m + [0x80], 0);
      }
      ZerosNeeded(|whole|, start, |m|, |old(whole)|);
      PutLength();
      LengthIsBigEndian(l);
    }

    /** while (cursor < to) M[cursor++] = 0, `k` zeros having been stored after `s`. */
    method PutZeros(to: nat, ghost s: Bytes, ghost k: nat)
      requires Holds() && cursor <= to <= BLOCK && Stream() == s + Zeros(k)
      modifies this, M
      ensures Holds() && cursor == to && l == old(l) && Stream() == s + Zeros(k + to - old(cursor))
    {
      hide Fold, Zeros;
      ghost var start := cursor;
      while cursor < to
        invariant Holds() && start <= cursor <= to && l == old(l) && Stream() == s + Zeros(k + cursor - start)
      {
        OneMoreZero(s, k + cursor - start);
        Put(0);
      }
    }

    method PutLength()
      requires Holds() && cursor == BLOCK - 8
      modifies this, M
      ensures Holds() && cursor == BLOCK && Stream() == old(Stream()) + LengthBytes(l) && l == old(l)
    {
      hide Fold, LengthBytes;
      ghost var s := Stream();
      var b := LengthBytes(l);
      PutFour(b[0], b[1], b[2], b[3]);
      PutFour(b[4], b[5], b[6], b[7]);
      assert s + [b[0], b[1], b[2], b[3]] + [b[4], b[5], b[6], b[7]] == s + b;
    }

    method PutFour(x0: bv8, x1: bv8, x2: bv8, x3: bv8)
      requires Holds() && cursor + 4 <= BLOCK
      modifies this, M
      ensures Holds() && cursor == old(cursor) + 4 && Stream() == old(Stream()) + [x0, x1, x2, x3] && l == old(l)
    {
      hide Fold;
      Put(x0);
      Put(x1);
      assert Stream() == old(Stream()) + [x0, x1];
      Put(x2);
      Put(x3);
      assert old(Stream()) + [x0, x1] + [x2] + [x3] == old(Stream()) + [x0, x1, x2, x3];
    }

    /** Final, and the digest as it then lies in memory: that of all the bytes given to Update, in
        however many calls. */
    method Final() returns (digest: Bytes)
      requires Valid()
      modifies this, M
      ensures digest == Sha1(old(Stream()))
    {
      hide Fold, Store, WordBytes, BSwap32, Padded;
      Pad();
      Process();
      assert M[..0] == [] && whole + [] == whole;
      var x := Chain(BSwap32(h.a), BSwap32(h.b), BSwap32(h.c), BSwap32(h.d), BSwap32(h.e));
      SwappedStore(h.a);
      SwappedStore(h.b);
      SwappedStore(h.c);
      SwappedStore(h.d);
      SwappedStore(h.e);
      digest := Store(x.a) + Store(x.b) + Store(x.c) + Store(x.d) + Store(x.e);
      h := x;
    }
  }

  lemma NoZeros()
    ensures forall s: Bytes :: s + Zeros(0) == s
  {
  }

  lemma OneMoreZero(s: Bytes, k: nat)
    ensures s + Zeros(k) + [0] == s + Zeros(k + 1)
  {
    assert Zeros(k + 1) == Zeros(k) + [0];
  }

  /** The zeros the two loops of Pad store. */
  lemma ZerosNeeded(whole: nat, cursor: nat, n: nat, before: nat)
    requires before % BLOCK == 0 && n == before + cursor && cursor < BLOCK
    ensures ZeroCount(n) == if cursor + 1 > BLOCK - 8 then BLOCK - (cursor + 1) + (BLOCK - 8) else BLOCK - 8 - (cursor + 1)
  {
  }

  lemma CompressIs(h: Chain, block: Bytes, w: seq<Word>, v: Chain)
    requires |block| == BLOCK && w == Schedule(block, WORDS) && v == Rounds(h, w, |w|)
    ensures Plus(h, v) == Compress(h, block)
  {
    hide Schedule, Rounds, Plus;
  }

  lemma FoldNext(s: Bytes, block: Bytes)
    requires |s| % BLOCK == 0 && |block| == BLOCK
    ensures Fold(s + block) == Compress(Fold(s), block)
  {
    hide Compress;
    assert (s + block)[..|s|] == s && (s + block)[|s|..] == block;
  }

  lemma NextLength(n: nat)
    ensures BitLength(n + 1) == (BitLength(n) + 8) % SIZE_T
  {
  }

  /** SHA1Hash. */
  method Sha1Hash(data: Bytes) returns (digest: Bytes)
    ensures digest == Sha1(data)
  {
    var sha := new SecureHashAlgorithm();
    sha.Update(data);
    assert [] + data == data;
    digest := sha.Final();
  }
}
