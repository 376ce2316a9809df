/** The Newton reciprocals of positive fixed-point numbers. */
module Reciprocal {
  import opened Arithmetic
  import opened FixedPoint

  /**
    * One pass of the loop in exact arithmetic. `h` is one half of full scale: 2^30 in the q31 routine, 2^14 in the
    * q15 routine. The number sought is 2 * h * h / x.
    */
  function Pass(x: int, y: int, h: int): int
    requires h > 0
  {
    y * (2 * h - 1 - x * y / (2 * h)) / h
  }

  /** How far `y` is from the reciprocal of `x`, scaled by `x`. */
  function Defect(x: int, y: int, h: int): int { 2 * (h * h) - x * y }

  /** Normalised input and estimates. */
  predicate InRange(x: int, y: int, h: int) { 0 < h <= x < 2 * h && 0 <= y < 2 * h }

  /**
    * The defect after a pass is, up to the common factor, the square of the defect before it and two rounding terms.
    * `u` is the product, `q` and `f` its division by 2 * h, `t` the correction, `z` the next estimate and `rest` what
    * its division by `h` drops.
    */
  lemma PassIdentity(x: int, y: int, h: int, u: int, q: int, f: int, t: int, z: int, rest: int)
    requires u == x * y && u == 2 * h * q + f && t == 2 * h - 1 - q && y * t == h * z + rest
    ensures 2 * (h * h) * (2 * (h * h) - x * z)
      == (2 * (h * h) - u) * (2 * (h * h) - u) + u * (2 * h - f) + 2 * h * (x * rest)
  {
  }

  /** The two rounding terms are small, and the first is not zero when the estimate is not. */
  lemma FirstRounding(x: int, y: int, h: int, u: int, g: int)
    requires InRange(x, y, h) && u == x * y && 0 < g <= 2 * h
    ensures 0 <= u * g < 2 * (h * h) * (2 * x)
    ensures y > 0 ==> u * g > 0
  {
    Product(x, y, h);
    var c, v := 2 * h, x * (2 * h - 1);
    assert u * g <= u * c by {
      MulMonotone(g, c, u);
    }
    assert u * c <= v * c by {
      MulMonotone(u, v, c);
    }
    Room(x, h, c);
    Positive(u, g);
  }

  lemma Room(x: int, h: int, c: int)
    requires c == 2 * h && x > 0 && h > 0
    ensures x * (c - 1) * c < 2 * (h * h) * (2 * x)
  {
    var a := x * c;
    assert x * (c - 1) * c == a * c - a;
    Positive(x, c);
    assert a * c == 2 * (h * h) * (2 * x);
  }

  lemma Positive(u: int, g: int)
    requires 0 <= u && 0 < g
    ensures 0 <= u * g && (u > 0 ==> u * g > 0)
  {
  }

  lemma Product(x: int, y: int, h: int)
    requires InRange(x, y, h)
    ensures 0 <= x * y <= x * (2 * h - 1) && (y > 0 ==> x * y > 0)
  {
    MulMonotone(y, 2 * h - 1, x);
    MulMonotone(0, y, x);
    if y > 0 {
      MulMonotone(1, y, x);
    }
  }

  lemma SecondRounding(x: int, h: int, rest: int)
    requires 0 < x && 0 <= rest < h
    ensures 0 <= 2 * h * (x * rest) <= 2 * (h * h) * x
  {
    MulMonotone(0, rest, x);
    MulMonotone(rest, h, x);
    MulMonotone(x * rest, x * h, 2 * h);
    assert 0 <= 2 * h * (x * rest);
    assert 2 * h * (x * h) == 2 * (h * h) * x;
  }

  /** The estimate never exceeds the reciprocal after a pass, stays in range, and its defect is squared up to 3 * x. */
  lemma PassConverges(x: int, y: int, h: int)
    requires InRange(x, y, h)
    ensures InRange(x, Pass(x, y, h), h)
    ensures var (e, e') := (Defect(x, y, h), Defect(x, Pass(x, y, h), h));
      0 < e' && e * e <= 2 * (h * h) * e' < e * e + 2 * (h * h) * (3 * x)
  {
    var u, z := x * y, Pass(x, y, h);
    var f, t := u % (2 * h), 2 * h - 1 - u / (2 * h);
    var rest := y * t % h;
    Correction(x, y, h);
    PassIdentity(x, y, h, u, u / (2 * h), f, t, z, rest);
    var first, second := u * (2 * h - f), 2 * h * (x * rest);
    assert 2 * (h * h) * Defect(x, z, h) == Defect(x, y, h) * Defect(x, y, h) + (first + second);
    hide Pass, Defect;
    FirstRounding(x, y, h, u, 2 * h - f);
    SecondRounding(x, h, rest);
    Below(x, y, z, h, first + second);
    Together(h, x, first, second);
  }

  lemma Together(h: int, x: int, first: int, second: int)
    requires first < 2 * (h * h) * (2 * x) && second <= 2 * (h * h) * x
    ensures first + second < 2 * (h * h) * (3 * x)
  {
  }

  /** The correction factor is not negative, so neither is the next estimate. */
  lemma Correction(x: int, y: int, h: int)
    requires InRange(x, y, h)
    ensures 0 <= x * y / (2 * h) <= 2 * h - 1 && Pass(x, y, h) >= 0
  {
    Product(x, y, h);
    var u, c := x * y, 2 * h - 1;
    assert 0 <= u <= c * (2 * h) by {
      MulMonotone(x, 2 * h, c);
    }
    DivideExactly(c * (2 * h), c, 0, 2 * h);
    Quotients(u, c * (2 * h), 2 * h);
    assert Pass(x, y, h) == y * (c - u / (2 * h)) / h;
    hide Pass;
    MulMonotone(0, c - u / (2 * h), y);
    Quotients(0, y * (c - u / (2 * h)), h);
  }

  lemma Quotients(a: int, b: int, d: int)
    requires 0 <= a <= b && d > 0
    ensures 0 <= a / d <= b / d
  {
    if a / d > b / d {
      MulMonotone(b / d + 1, a / d, d);
    }
  }

  lemma Below(x: int, y: int, z: int, h: int, rounding: int)
    requires InRange(x, y, h) && z >= 0 && rounding >= 0 && (y > 0 ==> rounding > 0)
    requires 2 * (h * h) * Defect(x, z, h) == Defect(x, y, h) * Defect(x, y, h) + rounding
    ensures Defect(x, z, h) > 0 && z < 2 * h
  {
    var d, e := h * h, Defect(x, y, h);
    assert d > 0;
    if y == 0 {
      assert e == 2 * d;
    }
    assert e * e + rounding > 0;
    if Defect(x, z, h) <= 0 {
      MulMonotone(Defect(x, z, h), 0, 2 * d);
      assert false;
    }
    if z >= 2 * h {
      MulMonotone(2 * h, z, x);
      MulMonotone(h, x, 2 * h);
      assert false;
    }
  }

  function Passes(x: int, y: int, h: int, n: nat): int
    requires h > 0
  {
    if n == 0 then y else Pass(x, Passes(x, y, h, n - 1), h)
  }

  /** A bound on the defect gives a bound on the next one. */
  lemma Improves(x: int, y: int, h: int, bound: int, next: int)
    requires InRange(x, y, h) && -bound <= Defect(x, y, h) <= bound
    requires bound * bound + 2 * (h * h) * (3 * x) <= 2 * (h * h) * next
    ensures InRange(x, Pass(x, y, h), h) && 0 < Defect(x, Pass(x, y, h), h) < next
  {
    PassConverges(x, y, h);
    hide *;
    Square(Defect(x, y, h), bound);
    Smaller(2 * (h * h), Defect(x, Pass(x, y, h), h), next);
  }

  lemma Square(e: int, bound: int)
    requires -bound <= e <= bound
    ensures e * e <= bound * bound
  {
    var a := if e >= 0 then e else -e;
    MulMonotone(a, bound, a);
    MulMonotone(a, bound, bound);
  }

  lemma Smaller(d: int, a: int, b: int)
    requires d > 0 && d * a < d * b
    ensures a < b
  {
    if a >= b {
      MulMonotone(b, a, d);
      assert false;
    }
  }

  /**
    * A table good to seven bits gives a result that is below the reciprocal by less than 12 units in the q31 routine
    * and by less than 4 in the q15 routine.
    */
  lemma TwoPassesQ31(x: int, y: int)
    requires InRange(x, y, HALF_Q31)
    requires -0x40_0000_0000_0000 <= Defect(x, y, HALF_Q31) <= 0x40_0000_0000_0000
    ensures 0 < Defect(x, Passes(x, y, HALF_Q31, 2), HALF_Q31) < 12 * x
  {
    var z := Pass(x, y, HALF_Q31);
    Improves(x, y, HALF_Q31, 0x40_0000_0000_0000, 0x8000_0000_0000 + 3 * x);
    Improves(x, z, HALF_Q31, 0x8002_0000_0000, 12 * x);
    assert Passes(x, y, HALF_Q31, 1) == z;
  }

  lemma TwoPassesQ15(x: int, y: int)
    requires InRange(x, y, HALF_Q15)
    requires -0x40_0000 <= Defect(x, y, HALF_Q15) <= 0x40_0000
    ensures 0 < Defect(x, Passes(x, y, HALF_Q15, 2), HALF_Q15) < 4 * x
  {
    var z := Pass(x, y, HALF_Q15);
    Improves(x, y, HALF_Q15, 0x40_0000, 0x8000 + 3 * x);
    Improves(x, z, HALF_Q15, 0x2_0000, 4 * x);
    assert Passes(x, y, HALF_Q15, 1) == z;
  }

  const HALF_Q31: int := 0x4000_0000
  const HALF_Q15: int := 0x4000
  const INDEX_MASK: int := 0x3F

  /** `__CLZ` of the cores that lack the instruction. Its loop does not end for zero. */
  method Clz(data: int) returns (count: nat)
    requires IsQ31(data) && data != 0
    ensures count <= 31 && Pow2(31 - count) <= ToU32(data) < Pow2(32 - count)
  {
    hide ToU32, Pow2, IsClear;
    Powers();
    NonZeroWord(data);
    count := 0;
    var mask := 0x8000_0000;
    var word := ToU32(data);
    TopBit(word, mask);
    while IsClear(word, mask)
      invariant count <= 31 && mask == Pow2(31 - count) && 2 * mask == Pow2(32 - count) && 0 < word < 2 * mask
      invariant IsClear(word, mask) <==> word < mask
      decreases mask
    {
      NextMask(count, mask);
      TopBit(word, mask / 2);
      count := count + 1;
      mask := mask / 2;
    }
  }

  lemma NonZeroWord(data: int)
    requires IsQ31(data) && data != 0
    ensures 0 < ToU32(data) < TWO_32
  {
  }

  lemma NextMask(count: nat, mask: int)
    requires count <= 31 && mask == Pow2(31 - count) && mask > 1
    ensures count < 31 && mask == 2 * Pow2(30 - count)
  {
  }

  /** A conjunction with a mask of one bit. */
  predicate IsClear(word: nat, mask: int)
    requires mask > 0
  {
    word / mask % 2 == 0
  }

  lemma TopBit(word: nat, mask: int)
    requires mask > 0 && 0 <= word < 2 * mask
    ensures IsClear(word, mask) <==> word < mask
  {
  }

  lemma Powers()
    ensures Pow2(30) == HALF_Q31 && Pow2(31) == TWO_31 && Pow2(32) == TWO_32 && Pow2(14) == HALF_Q15 && Pow2(15) == TWO_15
  {
    assert Pow2(6) == 64;
    assert Pow2(14) == 0x4000;
    assert Pow2(22) == 0x40_0000;
  }

  /** A table of estimates: non-negative numbers of the routine's type. */
  predicate IsTable(table: seq<int>, h: int) {
    |table| == INDEX_MASK + 1 && forall i :: 0 <= i < |table| ==> 0 <= table[i] < 2 * h
  }

  /** Shifting out the leading zeros but the sign puts the leading one below the sign bit of the routine's type. */
  lemma Normalised(input: int, zeros: nat, width: nat)
    requires 1 <= width <= 31 && 0 < input < Pow2(width) && zeros <= 31 && Pow2(31 - zeros) <= input < Pow2(32 - zeros)
    ensures zeros >= 32 - width && Pow2(width - 1) <= input * Pow2(zeros - (32 - width)) < Pow2(width)
  {
    hide Pow2;
    if zeros < 32 - width {
      PowerMonotone(width, 31 - zeros);
      assert false;
    }
    var n := zeros - (32 - width);
    PowerSum(31 - zeros, n);
    PowerSum(32 - zeros, n);
    MulMonotone(Pow2(31 - zeros), input, Pow2(n));
    MulIncreasing(input, Pow2(32 - zeros), Pow2(n));
  }

  /** In the q31 pass the 63-bit clip leaves its argument as it is: it never fires. */
  lemma PassQ31(x: int, y: int)
    requires InRange(x, y, HALF_Q31)
    ensures 0 <= x * y / TWO_31 < TWO_31
    ensures var v := y * (0x7FFF_FFFF - x * y / TWO_31) / HALF_Q31; IsQ31(v) && ClipQ63ToQ31(v) == v == Pass(x, y, HALF_Q31)
  {
    PassConverges(x, y, HALF_Q31);
    Correction(x, y, HALF_Q31);
    ClipSaturates(Pass(x, y, HALF_Q31));
  }

  /** In the q15 pass the unsigned product does not wrap and the narrowing keeps the value. */
  lemma PassQ15(x: int, y: int)
    requires InRange(x, y, HALF_Q15)
    ensures 0 <= x * y / TWO_15 < TWO_15
    ensures ToQ15(ToU32(y * (0x7FFF - x * y / TWO_15)) / HALF_Q15) == Pass(x, y, HALF_Q15)
  {
    PassConverges(x, y, HALF_Q15);
    Correction(x, y, HALF_Q15);
    var t := 0x7FFF - x * y / TWO_15;
    MulMonotone(0, t, y);
    MulMonotone(y, TWO_15, t);
    assert ToU32(y * t) == y * t;
    assert y * t / HALF_Q15 == Pass(x, y, HALF_Q15);
  }

  lemma ToU32Kept(x: nat)
    requires x < TWO_31
    ensures ToU32(x) == x
  {
  }

  /** How far the result is from the reciprocal, in plain numbers. */
  lemma EndQ31(x: int, y: int, dst: int)
    requires InRange(x, y, HALF_Q31) && dst == Passes(x, y, HALF_Q31, 2) && Defect(x, dst, HALF_Q31) > 0
    ensures var full := 0x2000_0000_0000_0000;
      && 0 < full - x * dst
      && (-0x40_0000_0000_0000 <= full - x * y <= 0x40_0000_0000_0000 ==> full - x * dst < 12 * x)
  {
    hide Passes;
    if -0x40_0000_0000_0000 <= Defect(x, y, HALF_Q31) <= 0x40_0000_0000_0000 {
      TwoPassesQ31(x, y);
    }
  }

  lemma EndQ15(x: int, y: int, dst: int)
    requires InRange(x, y, HALF_Q15) && dst == Passes(x, y, HALF_Q15, 2) && Defect(x, dst, HALF_Q15) > 0
    ensures var full := 0x2000_0000;
      && 0 < full - x * dst && (-0x40_0000 <= full - x * y <= 0x40_0000 ==> full - x * dst < 4 * x)
  {
    hide Passes;
    if -0x40_0000 <= Defect(x, y, HALF_Q15) <= 0x40_0000 {
      TwoPassesQ15(x, y);
    }
  }

  /** `arm_recip_q31` for positive numbers. */
  method RecipQ31(input: int, table: seq<int>) returns (bits: nat, dst: int)
    requires 0 < input < TWO_31 && IsTable(table, HALF_Q31)
    ensures 1 <= bits <= 31 && HALF_Q31 <= input * Pow2(bits - 1) < TWO_31
    ensures var x := input * Pow2(bits - 1);
      dst == Passes(x, table[x / 0x100_0000 - 64], HALF_Q31, 2) && InRange(x, dst, HALF_Q31) && Defect(x, dst, HALF_Q31) > 0
    ensures var x, full := input * Pow2(bits - 1), 0x2000_0000_0000_0000;
      var before := full - x * table[x / 0x100_0000 - 64];
      0 < full - x * dst && (-0x40_0000_0000_0000 <= before <= 0x40_0000_0000_0000 ==> full - x * dst < 12 * x)
  {
    Powers();
    hide Pow2, ToU32, Pass, Defect, ClipQ63ToQ31;
    var zeros := Clz(input);
    ToU32Kept(input);
    Normalised(input, zeros, 31);
    var x := input * Pow2(zeros - 1);
    var index := x / 0x100_0000 % (INDEX_MASK + 1);
    dst := table[index];
    for i := 0 to 2
      invariant dst == Passes(x, table[index], HALF_Q31, i) && InRange(x, dst, HALF_Q31)
      invariant i > 0 ==> Defect(x, dst, HALF_Q31) > 0
    {
      PassQ31(x, dst);
      PassConverges(x, dst, HALF_Q31);
      var tempVal := 0x7FFF_FFFF - x * dst / TWO_31;
      dst := ClipQ63ToQ31(dst * tempVal / HALF_Q31);
    }
    bits := zeros;
    EndQ31(x, table[index], dst);
  }

  /** `arm_recip_q15` for positive numbers. */
  method RecipQ15(input: int, table: seq<int>) returns (bits: nat, dst: int)
    requires 0 < input < TWO_15 && IsTable(table, HALF_Q15)
    ensures 1 <= bits <= 15 && HALF_Q15 <= input * Pow2(bits - 1) < TWO_15
    ensures var x := input * Pow2(bits - 1);
      dst == Passes(x, table[x / 0x100 - 64], HALF_Q15, 2) && InRange(x, dst, HALF_Q15) && Defect(x, dst, HALF_Q15) > 0
    ensures var x, full := input * Pow2(bits - 1), 0x2000_0000;
      var before := full - x * table[x / 0x100 - 64];
      0 < full - x * dst && (-0x40_0000 <= before <= 0x40_0000 ==> full - x * dst < 4 * x)
  {
    Powers();
    hide Pow2, ToU32, Pass, Defect, ToQ15;
    var zeros := Clz(input);
    ToU32Kept(input);
    Normalised(input, zeros, 15);
    var x := input * Pow2(zeros - 17);
    var index := x / 0x100 % (INDEX_MASK + 1);
    dst := table[index];
    for i := 0 to 2
      invariant dst == Passes(x, table[index], HALF_Q15, i) && InRange(x, dst, HALF_Q15)
      invariant i > 0 ==> Defect(x, dst, HALF_Q15) > 0
    {
      PassQ15(x, dst);
      PassConverges(x, dst, HALF_Q15);
      var tempVal := 0x7FFF - x * dst / TWO_15;
      dst := ToQ15(ToU32(dst * tempVal) / HALF_Q15);
    }
    bits := zeros - 16;
    EndQ15(x, table[index], dst);
  }
}
