/** std::stod: a decimal number as the nearest IEEE 754 double. */
module Doubles {
  import opened Options

  /** The size of a finite double: units * 2^exponent. */
  datatype Double = Double(units: nat, exponent: int)

  const TWO53 := 0x20_0000_0000_0000
  const MIN_EXPONENT := -1074
  const MAX_EXPONENT := 971

  function Pow(b: nat, k: nat): (r: nat)
    ensures b > 0 ==> r > 0
    decreases k
  {
    if k == 0 then 1 else Pow(b, k - 1) * b
  }

  /** num / den in units of 2^e, as a fraction. */
  function InUnits(num: nat, den: nat, e: int): (r: (nat, nat))
    ensures den > 0 ==> r.1 > 0
  {
    if e >= 0 then (num, den * Pow(2, e)) else (num * Pow(2, -e), den)
  }

  /** To the nearest integer, and half way to the even one. */
  function Nearest(a: nat, b: nat): nat
    requires b > 0
  {
    var q, r := a / b, a % b;
    if 2 * r > b || (2 * r == b && q % 2 == 1) then q + 1 else q
  }

  /** The least exponent, from e on, for which 53 bits are enough. */
  function Scale(num: nat, den: nat, e: int): (r: int)
    requires den > 0 && e <= MAX_EXPONENT
    ensures e <= r <= MAX_EXPONENT
    ensures r < MAX_EXPONENT ==> InUnits(num, den, r).0 < TWO53 * InUnits(num, den, r).1
    decreases MAX_EXPONENT - e
  {
    var (a, b) := InUnits(num, den, e);
    if e == MAX_EXPONENT || a < TWO53 * b then e else Scale(num, den, e + 1)
  }

  /** None where strtod reports a range error: above the largest double, or inexact below the least
      normal one. */
  function Stod(num: nat, den: nat): Option<Double>
    requires den > 0
  {
    var e := Scale(num, den, MIN_EXPONENT);
    var (a, b) := InUnits(num, den, e);
    var q := Nearest(a, b);
    if e == MAX_EXPONENT && q >= TWO53 then None
    else if 2 * q < TWO53 && q * b != a then None
    else Some(Double(q, e))
  }

  /** The double as an integer, if it is one. */
  function Whole(d: Double): Option<nat> {
    if d.exponent >= 0 then Some(d.units * Pow(2, d.exponent))
    else if d.units % Pow(2, -d.exponent) == 0 then Some(d.units / Pow(2, -d.exponent))
    else None
  }

  function Distance(x: int, y: int): nat {
    if x < y then y - x else x - y
  }

  /** No integer is nearer. */
  lemma NearestIsNearest(a: nat, b: nat, m: nat)
    requires b > 0
    ensures Distance(Nearest(a, b) * b, a) <= Distance(m * b, a)
  {
    var q := a / b;
    assert a == q * b + a % b;
    if m <= q { Times(m, q, b); } else { Times(q + 1, m, b); }
    assert (q + 1) * b == q * b + b;
  }

  lemma Times(x: nat, y: nat, b: nat)
    requires x <= y
    ensures x * b <= y * b
  {
  }

  lemma {:induction false} ScaleSmall(num: nat, e: int)
    requires num < TWO53 && e <= 0
    ensures Scale(num, 1, e) <= 0
    decreases -e
  {
    hide Pow;
    if e < 0 {
      ScaleSmall(num, e + 1);
    } else {
      assert Pow(2, 0) == 1 by { PowZero(); }
    }
  }

  lemma PowZero()
    ensures Pow(2, 0) == 1
  {
  }

  lemma Exactly(n: nat, p: nat)
    requires p > 0
    ensures Nearest(n * p, 1) == n * p && (n * p) % p == 0 && (n * p) / p == n
  {
    Divides(n, p);
  }

  lemma Divides(n: nat, p: nat)
    requires p > 0
    ensures (n * p) / p == n && (n * p) % p == 0
  {
    var q, r := (n * p) / p, (n * p) % p;
    assert n * p == q * p + r;
    assert (n - q) * p == r;
    if n > q { Times(1, n - q, p); }
    assert (q - n) * p == -r;
    if n < q { Times(1, q - n, p); }
  }

  /** An integer below 2^53 is read exactly. */
  lemma SmallWhole(n: nat)
    requires n < TWO53
    ensures Stod(n, 1).Some? && Whole(Stod(n, 1).value) == Some(n)
  {
    hide Pow, Nearest;
    ScaleSmall(n, MIN_EXPONENT);
    var e := Scale(n, 1, MIN_EXPONENT);
    Exactly(n, Pow(2, -e));
    PowZero();
  }
}
