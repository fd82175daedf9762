/** The example of FIPS 180 for one block: the digest of "abc". */
module Sha1Example {
  import opened Bytes
  import opened Sha1

  const ABC: Bytes := [0x61, 0x62, 0x63]

  /** The words of the message schedule. */
  function W(t: nat): Word
    requires t < 80
  {
    if t == 0 then 0x61626380 else if t == 1 then 0x00000000 else if t == 2 then 0x00000000 else if t == 3 then 0x00000000
    else if t == 4 then 0x00000000 else if t == 5 then 0x00000000 else if t == 6 then 0x00000000 else if t == 7 then 0x00000000
    else if t == 8 then 0x00000000 else if t == 9 then 0x00000000 else if t == 10 then 0x00000000 else if t == 11 then 0x00000000
    else if t == 12 then 0x00000000 else if t == 13 then 0x00000000 else if t == 14 then 0x00000000 else if t == 15 then 0x00000018
    else if t == 16 then 0xc2c4c700 else if t == 17 then 0x00000000 else if t == 18 then 0x00000030 else if t == 19 then 0x85898e01
    else if t == 20 then 0x00000000 else if t == 21 then 0x00000060 else if t == 22 then 0x0b131c03 else if t == 23 then 0x00000030
    else if t == 24 then 0x85898ec1 else if t == 25 then 0x16263806 else if t == 26 then 0x00000000 else if t == 27 then 0x00000180
    else if t == 28 then 0x2c4c700c else if t == 29 then 0x000000f0 else if t == 30 then 0x93afb507 else if t == 31 then 0x5898e048
    else if t == 32 then 0x8e9a9202 else if t == 33 then 0x00000600 else if t == 34 then 0xb131c0f0 else if t == 35 then 0x16263bc6
    else if t == 36 then 0x4ebed41e else if t == 37 then 0x626380a1 else if t == 38 then 0x16263806 else if t == 39 then 0x000018c0
    else if t == 40 then 0xd2e138c4 else if t == 41 then 0x00000f00 else if t == 42 then 0x3afb5079 else if t == 43 then 0x898e04e5
    else if t == 44 then 0xe2ba3c2b else if t == 45 then 0x000060c0 else if t == 46 then 0x053a37cd else if t == 47 then 0x74458547
    else if t == 48 then 0xda9415ed else if t == 49 then 0x26380a16 else if t == 50 then 0x626383a1 else if t == 51 then 0x4ebf54de
    else if t == 52 then 0x3835b44b else if t == 53 then 0x0000f600 else if t == 54 then 0x1e84c7a3 else if t == 55 then 0x98e04d98
    else if t == 56 then 0x651d16a0 else if t == 57 then 0x62658ca1 else if t == 58 then 0x458544d6 else if t == 59 then 0x44584cb7
    else if t == 60 then 0x7ba06619 else if t == 61 then 0x6380aea2 else if t == 62 then 0x0ae55269 else if t == 63 then 0x627b49a1
    else if t == 64 then 0x7cd45c9d else if t == 65 then 0x000f0000 else if t == 66 then 0xfb50753a else if t == 67 then 0xec6765e8
    else if t == 68 then 0xba3c2be2 else if t == 69 then 0x0060c000 else if t == 70 then 0x3a37cd05 else if t == 71 then 0x458546f4
    else if t == 72 then 0xb8599dd6 else if t == 73 then 0x380a1a26 else if t == 74 then 0x01e02203 else if t == 75 then 0xe7cc3456
    else if t == 76 then 0xe6e60b69 else if t == 77 then 0x00f60a00 else if t == 78 then 0x5795ef4f else if t == 79 then 0x822e0879
    else 0
  }

  /** The variable A after t - 4 rounds; before the first, what the other four begin with, rotated back. */
  function A(t: nat): Word
    requires t < 85
  {
    if t == 0 then 0x0f4b87c3 else if t == 1 then 0x40c951d8 else if t == 2 then 0x62eb73fa else if t == 3 then 0xefcdab89
    else if t == 4 then 0x67452301 else if t == 5 then 0x0116fc33 else if t == 6 then 0x8990536d else if t == 7 then 0xa1390f08
    else if t == 8 then 0xcdd8e11b else if t == 9 then 0xcfd499de else if t == 10 then 0x3fc7ca40 else if t == 11 then 0x993e30c1
    else if t == 12 then 0x9e8c07d4 else if t == 13 then 0x4b6ae328 else if t == 14 then 0x8351f929 else if t == 15 then 0xfbda9e89
    else if t == 16 then 0x63188fe4 else if t == 17 then 0x4607b664 else if t == 18 then 0x9128f695 else if t == 19 then 0x196bee77
    else if t == 20 then 0x20bdd62f else if t == 21 then 0x4e925823 else if t == 22 then 0x82aa6728 else if t == 23 then 0xdc64901d
    else if t == 24 then 0xfd9e1d7d else if t == 25 then 0x1a37b0ca else if t == 26 then 0x33a23bfc else if t == 27 then 0x21283486
    else if t == 28 then 0xd541f12d else if t == 29 then 0xc7567dc6 else if t == 30 then 0x48413ba4 else if t == 31 then 0xbe35fbd5
    else if t == 32 then 0x4aa84d97 else if t == 33 then 0x8370b52e else if t == 34 then 0xc5fbaf5d else if t == 35 then 0x1267b407
    else if t == 36 then 0x3b845d33 else if t == 37 then 0x046faa0a else if t == 38 then 0x2c0ebc11 else if t == 39 then 0x21796ad4
    else if t == 40 then 0xdcbbb0cb else if t == 41 then 0x0f511fd8 else if t == 42 then 0xdc63973f else if t == 43 then 0x4c986405
    else if t == 44 then 0x32de1cba else if t == 45 then 0xfc87dedf else if t == 46 then 0x970a0d5c else if t == 47 then 0x7f193dc5
    else if t == 48 then 0xee1b1aaf else if t == 49 then 0x40f28e09 else if t == 50 then 0x1c51e1f2 else if t == 51 then 0xa01b846c
    else if t == 52 then 0xbead02ca else if t == 53 then 0xbaf39337 else if t == 54 then 0x120731c5 else if t == 55 then 0x641db2ce
    else if t == 56 then 0x3847ad66 else if t == 57 then 0xe490436d else if t == 58 then 0x27e9f1d8 else if t == 59 then 0x7b71f76d
    else if t == 60 then 0x5e6456af else if t == 61 then 0xc846093f else if t == 62 then 0xd262ff50 else if t == 63 then 0x09d785fd
    else if t == 64 then 0x3f52de5a else if t == 65 then 0xd756c147 else if t == 66 then 0x548c9cb2 else if t == 67 then 0xb66c020b
    else if t == 68 then 0x6b61c9e1 else if t == 69 then 0x19dfa7ac else if t == 70 then 0x101655f9 else if t == 71 then 0x0c3df2b4
    else if t == 72 then 0x78dd4d2b else if t == 73 then 0x497093c0 else if t == 74 then 0x3f2588c2 else if t == 75 then 0xc199f8c7
    else if t == 76 then 0x39859de7 else if t == 77 then 0xedb42de4 else if t == 78 then 0x11793f6f else if t == 79 then 0x5ee76897
    else if t == 80 then 0x63f7dab7 else if t == 81 then 0xa079b7d9 else if t == 82 then 0x860d21cc else if t == 83 then 0x5738d5e1
    else if t == 84 then 0x42541b35
    else 0
  }

  /** The working variables after t rounds: A moves down, rotated on its way to C. */
  function V(t: nat): Chain
    requires t <= 80
  {
    Chain(A(t + 4), A(t + 3), Sha1.S(30, A(t + 2)), Sha1.S(30, A(t + 1)), Sha1.S(30, A(t)))
  }

  lemma Words(t: nat)
    requires 16 <= t < 80
    ensures W(t) == Sha1.S(1, W(t - 3) ^ W(t - 8) ^ W(t - 14) ^ W(t - 16))
  {
    if t < 32 { Words16(t); } else if t < 48 { Words32(t); } else if t < 64 { Words48(t); } else { Words64(t); }
  }

  lemma Words16(t: nat)
    requires 16 <= t < 32
    ensures W(t) == Sha1.S(1, W(t - 3) ^ W(t - 8) ^ W(t - 14) ^ W(t - 16))
  {
    assert t == 16 || t == 17 || t == 18 || t == 19 || t == 20 || t == 21 || t == 22 || t == 23
        || t == 24 || t == 25 || t == 26 || t == 27 || t == 28 || t == 29 || t == 30 || t == 31;
  }

  lemma Words32(t: nat)
    requires 32 <= t < 48
    ensures W(t) == Sha1.S(1, W(t - 3) ^ W(t - 8) ^ W(t - 14) ^ W(t - 16))
  {
    assert t == 32 || t == 33 || t == 34 || t == 35 || t == 36 || t == 37 || t == 38 || t == 39
        || t == 40 || t == 41 || t == 42 || t == 43 || t == 44 || t == 45 || t == 46 || t == 47;
  }

  lemma Words48(t: nat)
    requires 48 <= t < 64
    ensures W(t) == Sha1.S(1, W(t - 3) ^ W(t - 8) ^ W(t - 14) ^ W(t - 16))
  {
    assert t == 48 || t == 49 || t == 50 || t == 51 || t == 52 || t == 53 || t == 54 || t == 55
        || t == 56 || t == 57 || t == 58 || t == 59 || t == 60 || t == 61 || t == 62 || t == 63;
  }

  lemma Words64(t: nat)
    requires 64 <= t < 80
    ensures W(t) == Sha1.S(1, W(t - 3) ^ W(t - 8) ^ W(t - 14) ^ W(t - 16))
  {
    assert t == 64 || t == 65 || t == 66 || t == 67 || t == 68 || t == 69 || t == 70 || t == 71
        || t == 72 || t == 73 || t == 74 || t == 75 || t == 76 || t == 77 || t == 78 || t == 79;
  }

  lemma RoundIs(t: nat)
    requires t < 80
    ensures Round(t, V(t), W(t)) == V(t + 1)
  {
    hide A, W, Temp;
    var v := V(t);
    if t < 40 {
      if t < 10 { Temp0(t); } else if t < 20 { Temp10(t); } else if t < 30 { Temp20(t); } else { Temp30(t); }
    } else {
      if t < 50 { Temp40(t); } else if t < 60 { Temp50(t); } else if t < 70 { Temp60(t); } else { Temp70(t); }
    }
  }

  lemma Temp0(t: nat)
    requires 0 <= t < 10
    ensures var v := V(t); Temp(t, v.a, v.b, v.c, v.d, v.e, W(t)) == A(t + 5)
  {
    assert t == 0 || t == 1 || t == 2 || t == 3 || t == 4 || t == 5 || t == 6 || t == 7
        || t == 8 || t == 9;
  }

  lemma Temp10(t: nat)
    requires 10 <= t < 20
    ensures var v := V(t); Temp(t, v.a, v.b, v.c, v.d, v.e, W(t)) == A(t + 5)
  {
    assert t == 10 || t == 11 || t == 12 || t == 13 || t == 14 || t == 15 || t == 16 || t == 17
        || t == 18 || t == 19;
  }

  lemma Temp20(t: nat)
    requires 20 <= t < 30
    ensures var v := V(t); Temp(t, v.a, v.b, v.c, v.d, v.e, W(t)) == A(t + 5)
  {
    assert t == 20 || t == 21 || t == 22 || t == 23 || t == 24 || t == 25 || t == 26 || t == 27
        || t == 28 || t == 29;
  }

  lemma Temp30(t: nat)
    requires 30 <= t < 40
    ensures var v := V(t); Temp(t, v.a, v.b, v.c, v.d, v.e, W(t)) == A(t + 5)
  {
    assert t == 30 || t == 31 || t == 32 || t == 33 || t == 34 || t == 35 || t == 36 || t == 37
        || t == 38 || t == 39;
  }

  lemma Temp40(t: nat)
    requires 40 <= t < 50
    ensures var v := V(t); Temp(t, v.a, v.b, v.c, v.d, v.e, W(t)) == A(t + 5)
  {
    assert t == 40 || t == 41 || t == 42 || t == 43 || t == 44 || t == 45 || t == 46 || t == 47
        || t == 48 || t == 49;
  }

  lemma Temp50(t: nat)
    requires 50 <= t < 60
    ensures var v := V(t); Temp(t, v.a, v.b, v.c, v.d, v.e, W(t)) == A(t + 5)
  {
    assert t == 50 || t == 51 || t == 52 || t == 53 || t == 54 || t == 55 || t == 56 || t == 57
        || t == 58 || t == 59;
  }

  lemma Temp60(t: nat)
    requires 60 <= t < 70
    ensures var v := V(t); Temp(t, v.a, v.b, v.c, v.d, v.e, W(t)) == A(t + 5)
  {
    assert t == 60 || t == 61 || t == 62 || t == 63 || t == 64 || t == 65 || t == 66 || t == 67
        || t == 68 || t == 69;
  }

  lemma Temp70(t: nat)
    requires 70 <= t < 80
    ensures var v := V(t); Temp(t, v.a, v.b, v.c, v.d, v.e, W(t)) == A(t + 5)
  {
    assert t == 70 || t == 71 || t == 72 || t == 73 || t == 74 || t == 75 || t == 76 || t == 77
        || t == 78 || t == 79;
  }

  function Block(): Bytes {
    Padded(ABC)
  }

  /** The padded message is one block: the three bytes, the 1 bit, zeros, and the length of 24 bits. */
  lemma BlockIs()
    ensures var b := Block(); |b| == 64 && b[..4] == [0x61, 0x62, 0x63, 0x80] && b[63] == 24 && forall i :: 4 <= i < 63 ==> b[i] == 0
  {
    hide ToBigEndian, BitLength;
    LengthIs();
    assert ZeroCount(3) == 52;
    assert Block() == [0x61, 0x62, 0x63, 0x80] + Zeros(52) + [0, 0, 0, 0, 0, 0, 0, 24];
  }

  lemma LengthIs()
    ensures ToBigEndian(BitLength(3), 8) == [0, 0, 0, 0, 0, 0, 0, 24]
  {
    hide Byte;
    NoBytes(7);
    SmallByte();
    assert BitLength(3) == 24;
    assert ToBigEndian(24, 8) == ToBigEndian(0, 7) + [Byte(24)];
  }

  lemma SmallByte()
    ensures Byte(24) == 24 && Byte(0) == 0
  {
    BackAndForth(24);
    BackAndForth(0);
    BackAndForth(Byte(24));
    BackAndForth(Byte(0));
  }

  lemma {:induction false} NoBytes(k: nat)
    ensures ToBigEndian(0, k) == seq(k, _ => 0)
    decreases k
  {
    hide Byte;
    SmallByte();
    if k > 0 { NoBytes(k - 1); }
  }

  lemma FirstWords(t: nat)
    requires t < 16
    ensures |Block()| == 64 && BigEndianWord(Block()[4 * t..4 * t + 4]) == W(t)
  {
    BlockIs();
    var s := Block()[4 * t..4 * t + 4];
    if t == 0 {
      assert s == [0x61, 0x62, 0x63, 0x80];
    } else if t == 15 {
      assert s == [0, 0, 0, 24];
    } else {
      assert s == [0, 0, 0, 0];
      NoWord(t);
    }
  }

  lemma NoWord(t: nat)
    requires 0 < t < 15
    ensures W(t) == 0
  {
  }

  lemma {:induction false} ScheduleIs(n: nat)
    requires n <= 80
    ensures |Block()| == 64 && var w := Schedule(Block(), n); forall t :: 0 <= t < n ==> w[t] == W(t)
    decreases n
  {
    hide W, BigEndianWord, Expanded, Block;
    if n > 0 {
      FirstWords(0);
      ScheduleIs(n - 1);
      if n - 1 < 16 { FirstWords(n - 1); } else { NextWord(Schedule(Block(), n - 1)); }
    } else {
      FirstWords(0);
    }
  }

  lemma NextWord(w: seq<Word>)
    requires 16 <= |w| < 80 && forall t :: 0 <= t < |w| ==> w[t] == W(t)
    ensures Expanded(w) == W(|w|)
  {
    hide W, Sha1.S;
    var t := |w|;
    Words(t);
    assert w[t - 3] == W(t - 3) && w[t - 8] == W(t - 8) && w[t - 14] == W(t - 14) && w[t - 16] == W(t - 16);
  }

  lemma {:induction false} RoundsAre(w: seq<Word>, t: nat)
    requires |w| == 80 && (forall i :: 0 <= i < 80 ==> w[i] == W(i)) && t <= 80
    ensures Rounds(INITIAL, w, t) == V(t)
    decreases t
  {
    hide W, V, Round;
    if t == 0 {
      NoRounds();
    } else {
      RoundsAre(w, t - 1);
      RoundIs(t - 1);
    }
  }

  lemma NoRounds()
    ensures V(0) == INITIAL
  {
  }

  lemma LastA(t: nat)
    requires 80 <= t < 85
    ensures A(t) == if t == 80 then 0x63f7dab7 else if t == 81 then 0xa079b7d9 else if t == 82 then 0x860d21cc
                    else if t == 83 then 0x5738d5e1 else 0x42541b35
  {
    assert t == 80 || t == 81 || t == 82 || t == 83 || t == 84;
  }

  lemma LastVariables()
    ensures Plus(INITIAL, V(80)) == Chain(0xa9993e36, 0x4706816a, 0xba3e2571, 0x7850c26c, 0x9cd0d89d)
  {
    hide A;
    LastA(80);
    LastA(81);
    LastA(82);
    LastA(83);
    LastA(84);
  }

  /** The published digest. */
  lemma DigestOfAbc()
    ensures Sha1.Sha1(ABC) == [0xa9, 0x99, 0x3e, 0x36, 0x47, 0x06, 0x81, 0x6a, 0xba, 0x3e, 0x25, 0x71,
                          0x78, 0x50, 0xc2, 0x6c, 0x9c, 0xd0, 0xd8, 0x9d]
  {
    hide Compress, Fold;
    OneBlock();
    ChainOfAbc();
  }

  lemma OneBlock()
    ensures |Block()| == 64 && Fold(Padded(ABC)) == Compress(INITIAL, Block())
  {
    hide Padded, Compress;
    BlockIs();
    var b := Block();
    assert b[..0] == [] && b[0..] == b;
    assert Fold([]) == INITIAL;
  }

  lemma ChainOfAbc()
    ensures |Block()| == 64 && Compress(INITIAL, Block()) == Chain(0xa9993e36, 0x4706816a, 0xba3e2571, 0x7850c26c, 0x9cd0d89d)
  {
    hide W, V, Round, Schedule, Rounds, Block, Plus;
    ScheduleIs(80);
    RoundsAre(Schedule(Block(), 80), 80);
    LastVariables();
  }
}
