/** The machine integers that several modules convert to. */
module Integers {
  type Int32 = n: int | -0x8000_0000 <= n < 0x8000_0000

  /** Conversion to int: the low 32 bits, as two's complement. */
  function ToInt(n: int): Int32 {
    var m := n % 0x1_0000_0000;
    if m < 0x8000_0000 then m else m - 0x1_0000_0000
  }
}
