/** Byte strings, and integers in big-endian order. */
module Bytes {

  type Bytes = seq<bv8>

  const SIZE_T: nat := 0x1_0000_0000_0000_0000

  function Byte(n: nat): (b: bv8)
    requires n < 256
    ensures b as int == n
  {
    ByteValue(n);
    n as bv8
  }

  lemma {:induction false} ByteValue(n: nat)
    requires n < 256
    ensures (n as bv8) as int == n
    decreases n
  {
    if n > 0 {
      ByteValue(n - 1);
      var b := (n - 1) as bv8;
      NextByte(b);
      BackAndForth(b + 1);
    }
  }

  lemma NextByte(b: bv8)
    requires b < 255
    ensures (b + 1) as int == b as int + 1
  {
  }

  lemma BackAndForth(b: bv8)
    ensures (b as int) as bv8 == b
  {
  }

  function Pow256(k: nat): (p: nat)
    ensures p > 0
  {
    if k == 0 then 1 else 256 * Pow256(k - 1)
  }

  lemma Pow256Values()
    ensures Pow256(2) == 0x1_0000 && Pow256(8) == SIZE_T
  {
    assert Pow256(4) == 0x1_0000_0000;
    assert Pow256(6) == 0x1_0000_0000_0000;
  }

  /** The k low bytes of n, most significant first. */
  function ToBigEndian(n: nat, k: nat): (s: Bytes)
    ensures |s| == k
    decreases k
  {
    if k == 0 then [] else ToBigEndian(n / 256, k - 1) + [Byte(n % 256)]
  }

  function FromBigEndian(s: Bytes): (n: nat)
    decreases |s|
  {
    if |s| == 0 then 0 else FromBigEndian(s[..|s| - 1]) * 256 + s[|s| - 1] as int
  }

  lemma {:induction false} BigEndianRoundTrip(n: nat, k: nat)
    requires n < Pow256(k)
    ensures FromBigEndian(ToBigEndian(n, k)) == n
    decreases k
  {
    if k > 0 {
      BigEndianRoundTrip(n / 256, k - 1);
      var s := ToBigEndian(n, k);
      assert s[..|s| - 1] == ToBigEndian(n / 256, k - 1);
    }
  }
}
