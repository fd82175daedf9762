/** What std::stod gives: the double nearest to the number written, of two equally near the even one, and a
    range error exactly outside these bounds.

    Every finite double is a whole number of units of 2^-1074, so all is said in whole numbers. */
module DoubleRounding {
  import opened Doubles
  import opened Options

  /** A double in units of 2^-1074. */
  function Fine(d: Double): nat
    requires d.exponent >= -1074
  {
    d.units * Pow(2, d.exponent + 1074)
  }

  /** The finite doubles of IEEE 754: a significand of 53 bits and an exponent. */
  predicate Finite(d: Double) {
    d.units < 0x20_0000_0000_0000 && -1074 <= d.exponent <= 971
  }

  /** How far d is from num / den, in units of 2^-1074 / den. */
  function Error(num: nat, den: nat, d: Double): nat
    requires d.exponent >= -1074
  {
    Distance(Fine(d) * den, num * Pow(2, 1074))
  }

  // ----- Powers -----

  lemma {:induction false} PowAdd(i: nat, j: nat)
    ensures Pow(2, i + j) == Pow(2, i) * Pow(2, j)
    decreases j
  {
    if j > 0 {
      PowAdd(i, j - 1);
      Regroup(Pow(2, i), Pow(2, j - 1), 2);
    }
  }

  lemma Regroup(x: nat, y: nat, z: nat)
    ensures x * (y * z) == x * y * z
  {
  }

  lemma TimesBoth(x: nat, y: nat, s: nat)
    requires x <= y
    ensures x * s <= y * s
  {
  }

  lemma DistanceTimes(x: nat, y: nat, s: nat)
    ensures Distance(x * s, y * s) == Distance(x, y) * s
  {
    if x < y { TimesBoth(x, y, s); assert (y - x) * s == y * s - x * s; }
    else { TimesBoth(y, x, s); assert (x - y) * s == x * s - y * s; }
  }

  /** What a numerator and a denominator in units of 2^e are short of in units of 2^-1074. */
  function Factor(e: int): (s: nat)
    requires -1074 <= e
    ensures s > 0
  {
    if e >= 0 then Pow(2, 1074) else Pow(2, e + 1074)
  }

  lemma Scaled(num: nat, den: nat, e: int)
    requires den > 0 && -1074 <= e
    ensures var (a, b) := InUnits(num, den, e);
      b > 0 && num * Pow(2, 1074) == a * Factor(e) && Pow(2, e + 1074) * den == b * Factor(e)
  {
    hide Pow;
    if e >= 0 {
      PowAdd(e, 1074);
      assert Pow(2, e) * Pow(2, 1074) * den == den * Pow(2, e) * Pow(2, 1074) by { Turn(Pow(2, e), Pow(2, 1074), den); }
    } else {
      var s := Pow(2, e + 1074);
      PowAdd(-e, e + 1074);
      assert -e + (e + 1074) == 1074;
      Regroup(num, Pow(2, -e), s);
      Swap(s, den);
    }
  }

  lemma Turn(x: nat, y: nat, z: nat)
    ensures x * y * z == z * x * y
  {
    Swap(x * y, z);
    Regroup(z, x, y);
  }

  lemma Swap(x: nat, y: nat)
    ensures x * y == y * x
  {
  }

  /** The error of m units of 2^e. */
  lemma ErrorOf(num: nat, den: nat, e: int, m: nat)
    requires den > 0 && -1074 <= e
    ensures var (a, b) := InUnits(num, den, e); b > 0 && Error(num, den, Double(m, e)) == Distance(m * b, a) * Factor(e)
  {
    hide Pow, InUnits, Factor, Distance;
    Scaled(num, den, e);
    var (a, b) := InUnits(num, den, e);
    Regroup(m, Pow(2, e + 1074), den);
    Regroup(m, b, Factor(e));
    DistanceTimes(m * b, a, Factor(e));
  }

  // ----- Scales -----

  /** A scale that was not the first is needed: the number has more than 53 bits at the one before. */
  lemma {:induction false} ScaleTight(num: nat, den: nat, e: int)
    requires den > 0 && e <= MAX_EXPONENT
    ensures var r := Scale(num, den, e);
      r > e ==> InUnits(num, den, r - 1).0 >= TWO53 * InUnits(num, den, r - 1).1
    decreases MAX_EXPONENT - e
  {
    hide InUnits;
    if e < MAX_EXPONENT { ScaleTight(num, den, e + 1); }
  }

  /** Then it is 2^52 units at least. */
  lemma Large(num: nat, den: nat)
    requires den > 0
    ensures var e := Scale(num, den, -1074);
      e > -1074 ==> num * Pow(2, 1074) >= 0x10_0000_0000_0000 * (Pow(2, e + 1074) * den)
  {
    hide Scale, Pow, InUnits, Factor;
    var e := Scale(num, den, -1074);
    ScaleTight(num, den, -1074);
    if e > -1074 {
      var (a, b) := InUnits(num, den, e - 1);
      Scaled(num, den, e - 1);
      TimesBoth(0x20_0000_0000_0000 * b, a, Factor(e - 1));
      Regroup(0x20_0000_0000_0000, b, Factor(e - 1));
      PowNext(e - 1 + 1074);
      Regroup(2, Pow(2, e - 1 + 1074), den);
    }
  }

  lemma PowNext(k: nat)
    ensures Pow(2, k + 1) == 2 * Pow(2, k)
  {
  }

  /** A double of a smaller exponent is below 2^52 units of 2^e. */
  lemma Smaller(d: Double, e: int)
    requires Finite(d) && d.exponent < e
    ensures Fine(d) < 0x10_0000_0000_0000 * Pow(2, e + 1074)
  {
    hide Pow;
    var k, l := d.exponent + 1074, e + 1074;
    PowAdd(k, l - k);
    PowNext(l - k - 1);
    var p, q := Pow(2, k), Pow(2, l - k);
    assert q >= 2;
    TimesBoth(2, q, p);
    Swap(p, q);
    assert 0x10_0000_0000_0000 * Pow(2, l) >= 0x10_0000_0000_0000 * (2 * p);
    Below(d.units, p);
  }

  lemma Below(u: nat, p: nat)
    requires u < 0x20_0000_0000_0000 && p > 0
    ensures u * p < 0x20_0000_0000_0000 * p
  {
  }

  /** A double of no smaller exponent is a whole number of units of 2^e. */
  lemma Coarser(d: Double, e: int) returns (m: nat)
    requires -1074 <= e <= d.exponent
    ensures Fine(d) == Fine(Double(m, e))
  {
    hide Pow;
    m := d.units * Pow(2, d.exponent - e);
    PowAdd(d.exponent - e, e + 1074);
    Regroup(d.units, Pow(2, d.exponent - e), Pow(2, e + 1074));
  }

  // ----- Nearest -----

  lemma Gap(m: nat, n: nat, b: nat)
    requires m < n
    ensures m * b + b <= n * b
  {
    TimesBoth(m + 1, n, b);
    assert (m + 1) * b == m * b + b;
  }

  /** How far another integer is from a, which is r above q * b. */
  lemma TieAt(a: nat, b: nat, q: nat, r: nat, m: nat)
    requires a == q * b + r && r < b
    ensures m != q && 2 * r <= b && Distance(m * b, a) == Distance(q * b, a) ==> 2 * r == b
    ensures m != q + 1 && 2 * r >= b && Distance(m * b, a) == Distance((q + 1) * b, a) ==> 2 * r == b
  {
    assert (q + 1) * b == q * b + b;
    if m < q {
      Gap(m, q, b);
    } else if m > q + 1 {
      Gap(q + 1, m, b);
    } else if m == q + 1 {
      assert m * b == (q + 1) * b;
    } else {
      assert m * b == q * b;
    }
  }

  /** Of two equally near integers the even one is taken. */
  lemma TieIsEven(a: nat, b: nat, m: nat)
    requires b > 0 && Distance(m * b, a) == Distance(Nearest(a, b) * b, a) && m != Nearest(a, b)
    ensures Nearest(a, b) % 2 == 0
  {
    hide Distance;
    var q, r := a / b, a % b;
    TieAt(a, b, q, r, m);
  }

  lemma NearestAmong(num: nat, den: nat, e: int, m: nat)
    requires den > 0 && -1074 <= e
    ensures var (a, b) := InUnits(num, den, e);
      && b > 0
      && Error(num, den, Double(Nearest(a, b), e)) <= Error(num, den, Double(m, e))
      && (Error(num, den, Double(Nearest(a, b), e)) == Error(num, den, Double(m, e)) && m != Nearest(a, b) ==> Nearest(a, b) % 2 == 0)
  {
    hide Pow, InUnits, Factor, Nearest, Distance, Error;
    var (a, b) := InUnits(num, den, e);
    var q := Nearest(a, b);
    ErrorOf(num, den, e, q);
    ErrorOf(num, den, e, m);
    var x, y := Distance(q * b, a), Distance(m * b, a);
    NearestIsNearest(a, b, m);
    TimesBoth(x, y, Factor(e));
    if x < y { TimesBoth(x + 1, y, Factor(e)); assert (x + 1) * Factor(e) == x * Factor(e) + Factor(e); }
    if x == y && m != q { TieIsEven(a, b, m); }
  }

  lemma FarBelow(num: nat, den: nat, other: Double)
    requires den > 0 && Finite(other) && other.exponent < Scale(num, den, -1074)
    ensures Error(num, den, Double(0x10_0000_0000_0000, Scale(num, den, -1074))) < Error(num, den, other)
  {
    hide Pow, Scale, InUnits;
    var e := Scale(num, den, -1074);
    Large(num, den);
    Smaller(other, e);
    var top := 0x10_0000_0000_0000 * Pow(2, e + 1074);
    Regroup(0x10_0000_0000_0000, Pow(2, e + 1074), den);
    TimesBoth(Fine(other) + 1, top, den);
    assert (Fine(other) + 1) * den == Fine(other) * den + den;
  }

  /** The double given is the nearest of all, and of two that are equally near the one with an even significand. */
  lemma StodIsNearest(num: nat, den: nat, other: Double)
    requires den > 0 && Stod(num, den).Some? && Finite(other)
    ensures var d := Stod(num, den).value;
      && -1074 <= d.exponent
      && Error(num, den, d) <= Error(num, den, other)
      && (Error(num, den, d) == Error(num, den, other) && Fine(d) != Fine(other) ==> d.units % 2 == 0)
  {
    hide Pow, Scale, InUnits, Factor, Nearest, Fine, Distance;
    var e := Scale(num, den, -1074);
    if other.exponent >= e {
      var m := Coarser(other, e);
      assert Error(num, den, other) == Error(num, den, Double(m, e));
      NearestAmong(num, den, e, m);
    } else {
      FarBelow(num, den, other);
      NearestAmong(num, den, e, 0x10_0000_0000_0000);
    }
  }

  /** What is given is a finite double: a significand of 2^53 is 2^52 of the next exponent. */
  lemma StodIsFinite(num: nat, den: nat) returns (d: Double)
    requires den > 0 && Stod(num, den).Some?
    ensures Finite(d) && Stod(num, den).value.exponent >= -1074 && Fine(d) == Fine(Stod(num, den).value)
  {
    hide Pow, Scale, InUnits, Nearest, Fine;
    d := Stod(num, den).value;
    NoMore(num, den);
    if d.units == 0x20_0000_0000_0000 {
      Carry(d.exponent);
      d := Double(0x10_0000_0000_0000, d.exponent + 1);
    }
  }

  lemma Carry(e: int)
    requires -1074 <= e
    ensures Fine(Double(0x20_0000_0000_0000, e)) == Fine(Double(0x10_0000_0000_0000, e + 1))
  {
    hide Pow;
    PowNext(e + 1074);
  }

  /** Below the largest exponent the units do not pass 2^53. */
  lemma NoMore(num: nat, den: nat)
    requires den > 0
    ensures var e := Scale(num, den, -1074);
      var (a, b) := InUnits(num, den, e);
      e < 971 ==> b > 0 && Nearest(a, b) <= 0x20_0000_0000_0000
  {
    hide Pow, Scale, InUnits;
    var e := Scale(num, den, -1074);
    var (a, b) := InUnits(num, den, e);
    if e < 971 { AtMost(a, b, 0x20_0000_0000_0000); }
  }

  lemma AtMost(a: nat, b: nat, n: nat)
    requires b > 0 && a < n * b
    ensures Nearest(a, b) <= n
  {
    var q := a / b;
    assert a == q * b + a % b;
    if q >= n { TimesBoth(n, q, b); assert false; }
  }

  // ----- Range errors -----

  /** From half a unit above the largest double on. */
  predicate TooLarge(num: nat, den: nat) {
    2 * num >= 0x3F_FFFF_FFFF_FFFF * (Pow(2, 971) * den)
  }

  /** Not a whole number of the smallest units, and below half of one under 2^52 of them. */
  predicate TooSmall(num: nat, den: nat)
    requires den > 0
  {
    2 * (num * Pow(2, 1074)) < 0x1F_FFFF_FFFF_FFFF * den && num * Pow(2, 1074) % den != 0
  }

  lemma FromAt(a: nat, b: nat, q: nat, r: nat, n: nat)
    requires a == q * b + r && r < b && n > 0
    ensures q >= n ==> 2 * a >= (2 * n - 1) * b
    ensures q + 1 == n ==> (2 * r >= b <==> 2 * a >= (2 * n - 1) * b)
    ensures q + 2 <= n ==> 2 * a < (2 * n - 1) * b
  {
    Twice(n, b);
    if q >= n {
      TimesBoth(n, q, b);
    } else if q + 1 == n {
      assert n * b == q * b + b;
    } else {
      Gap(q, q + 1, b);
      Gap(q + 1, n, b);
    }
  }

  lemma Twice(n: nat, b: nat)
    ensures (2 * n - 1) * b == 2 * (n * b) - b
  {
  }

  /** Rounding reaches an even number half a unit before it. */
  lemma NearestFrom(a: nat, b: nat, n: nat)
    requires b > 0 && n > 0 && n % 2 == 0
    ensures Nearest(a, b) >= n <==> 2 * a >= (2 * n - 1) * b
  {
    FromAt(a, b, a / b, a % b, n);
  }

  lemma NearestWhole(a: nat, b: nat)
    requires b > 0
    ensures Nearest(a, b) * b == a <==> a % b == 0
  {
    var q, r := a / b, a % b;
    assert a == q * b + r && (q + 1) * b == q * b + b;
  }

  lemma {:induction false} PowGrows(i: nat, j: nat)
    requires i <= j
    ensures Pow(2, i) <= Pow(2, j)
    decreases j
  {
    if i < j { PowGrows(i, j - 1); }
  }

  lemma NotLarge(num: nat, den: nat)
    requires den > 0 && Scale(num, den, -1074) < 971
    ensures !TooLarge(num, den)
  {
    hide Pow, Scale, InUnits, Factor;
    var e := Scale(num, den, -1074);
    var (a, b) := InUnits(num, den, e);
    Scaled(num, den, e);
    TimesBoth(a + 1, 0x20_0000_0000_0000 * b, Factor(e));
    assert (a + 1) * Factor(e) == a * Factor(e) + Factor(e);
    Regroup(0x20_0000_0000_0000, b, Factor(e));
    var n, p := num * Pow(2, 1074), Pow(2, e + 1074) * den;
    assert n < 0x20_0000_0000_0000 * p;
    PowNext(e + 1074);
    PowGrows(e + 1074 + 1, 971 + 1074);
    TimesBoth(2 * Pow(2, e + 1074), Pow(2, 971 + 1074), den);
    Regroup(2, Pow(2, e + 1074), den);
    if TooLarge(num, den) { LargeScaled(num, den); assert false; }
  }

  lemma LargeScaled(num: nat, den: nat)
    requires den > 0 && TooLarge(num, den)
    ensures 2 * (num * Pow(2, 1074)) >= 0x3F_FFFF_FFFF_FFFF * (Pow(2, 971 + 1074) * den) && Pow(2, 971 + 1074) * den > 0
  {
    hide Pow;
    var s := Pow(2, 1074);
    PowAdd(971, 1074);
    TimesBoth(0x3F_FFFF_FFFF_FFFF * (Pow(2, 971) * den), 2 * num, s);
    Regroup(0x3F_FFFF_FFFF_FFFF, Pow(2, 971) * den, s);
    Regroup(2, num, s);
    Swap(Pow(2, 971), den);
    Regroup(den, Pow(2, 971), s);
    Swap(den, Pow(2, 971) * s);
    Positive(Pow(2, 971 + 1074), den);
  }

  lemma Positive(x: nat, y: nat)
    requires x > 0 && y > 0
    ensures x * y > 0
  {
  }

  /** At a scale that was not the first the number is 2^52 units or more. */
  lemma NotSmall(num: nat, den: nat)
    requires den > 0 && Scale(num, den, -1074) > -1074
    ensures !TooSmall(num, den)
    ensures var (a, b) := InUnits(num, den, Scale(num, den, -1074)); b > 0 && 2 * Nearest(a, b) >= TWO53
  {
    hide Pow, Scale, InUnits, Factor, Nearest;
    var e := Scale(num, den, -1074);
    var (a, b) := InUnits(num, den, e);
    Large(num, den);
    Scaled(num, den, e);
    Regroup(0x10_0000_0000_0000, b, Factor(e));
    Cancel(0x10_0000_0000_0000 * b, a, Factor(e));
    NearestFrom(a, b, 0x10_0000_0000_0000);
    PowPositive(e + 1074);
    TimesBoth(1, Pow(2, e + 1074), den);
  }

  lemma PowPositive(k: nat)
    ensures Pow(2, k) >= 1
  {
  }

  lemma Cancel(x: nat, y: nat, s: nat)
    requires s > 0 && x * s <= y * s
    ensures x <= y
  {
    if y < x { Gap(y, x, s); }
  }

  lemma AtSmallest(num: nat, den: nat)
    requires den > 0
    ensures InUnits(num, den, -1074) == (num * Pow(2, 1074), den)
    ensures InUnits(num, den, 971) == (num, den * Pow(2, 971))
  {
    hide Pow;
  }

  /** A number is out of range exactly when it is too large or too small. */
  lemma OutOfRange(num: nat, den: nat)
    requires den > 0
    ensures Stod(num, den) == None <==> TooLarge(num, den) || TooSmall(num, den)
  {
    hide Pow, Scale, InUnits, Nearest;
    var e := Scale(num, den, -1074);
    AtSmallest(num, den);
    if e == 971 {
      NotSmall(num, den);
      PowPositive(971);
      Swap(den, Pow(2, 971));
      Positive(den, Pow(2, 971));
      NearestFrom(num, den * Pow(2, 971), 0x20_0000_0000_0000);
    } else {
      NotLarge(num, den);
      if e == -1074 {
        var a := num * Pow(2, 1074);
        NearestFrom(a, den, 0x10_0000_0000_0000);
        NearestWhole(a, den);
      } else {
        NotSmall(num, den);
      }
    }
  }
}
