/** Machine integers of the signal-processing header, and its saturations. */
module FixedPoint {
  import opened Arithmetic

  const TWO_7: int := 0x80
  const TWO_15: int := 0x8000
  const TWO_31: int := 0x8000_0000
  const TWO_63: int := 0x8000_0000_0000_0000

  predicate IsQ7(x: int) { -TWO_7 <= x < TWO_7 }
  predicate IsQ15(x: int) { -TWO_15 <= x < TWO_15 }
  predicate IsQ31(x: int) { -TWO_31 <= x < TWO_31 }
  predicate IsQ63(x: int) { -TWO_63 <= x < TWO_63 }

  /** The conversions to the narrower types, which keep the low bits. */
  function ToQ7(x: int): int { (x + TWO_7) % 0x100 - TWO_7 }
  function ToQ15(x: int): int { (x + TWO_15) % 0x1_0000 - TWO_15 }
  function ToQ31(x: int): int { (x + TWO_31) % TWO_32 - TWO_31 }
  function ToQ63(x: int): int { (x + TWO_63) % (2 * TWO_63) - TWO_63 }

  /** Whole turns around the word are dropped. */
  lemma WrapQ7(u: int, turns: int)
    requires IsQ7(u)
    ensures ToQ7(u + turns * 0x100) == u
  {
  }

  lemma WrapQ15(u: int, turns: int)
    requires IsQ15(u)
    ensures ToQ15(u + turns * 0x1_0000) == u
  {
  }

  lemma WrapQ31(u: int, turns: int)
    requires IsQ31(u)
    ensures ToQ31(u + turns * TWO_32) == u
  {
  }

  function Clamp(x: int, low: int, high: int): int {
    if x < low then low else if x > high then high else x
  }

  /** Exclusive or of `m` with a sign word, all zeros or all ones. */
  function XorSign(m: int, sign: int): int
    requires sign == 0 || sign == -1
  {
    if sign == 0 then m else -1 - m
  }

  /** `clip_q63_to_q31`: right shifts are arithmetic, that is, floor divisions. */
  function ClipQ63ToQ31(x: int): int
    requires IsQ63(x)
  {
    if ToQ31(x / TWO_32) != ToQ31(x) / TWO_31 then XorSign(TWO_31 - 1, ToQ31(x / TWO_63)) else ToQ31(x)
  }

  /** Comparing the high word with the sign of the low word detects exactly the values that do not fit. */
  lemma ClipSaturates(x: int)
    requires IsQ63(x)
    ensures ClipQ63ToQ31(x) == Clamp(x, -TWO_31, TWO_31 - 1)
  {
  }

  /** `clip_q31_to_q15`, which saturates as it says. */
  function ClipQ31ToQ15(x: int): int
    requires IsQ31(x)
  {
    if ToQ31(x / 0x1_0000) != x / TWO_15 then XorSign(TWO_15 - 1, ToQ15(x / TWO_31)) else ToQ15(x)
  }

  lemma ClipQ15Saturates(x: int)
    requires IsQ31(x)
    ensures ClipQ31ToQ15(x) == Clamp(x, -0x8000, 0x7FFF)
  {
  }

  /** `clip_q63_to_q15`, which drops 15 bits: the test is that of 32 bits instead of 31. */
  function ClipQ63ToQ15(x: int): int
    requires IsQ63(x)
  {
    if ToQ31(x / TWO_32) != ToQ31(x) / TWO_31 then XorSign(TWO_15 - 1, ToQ15(x / TWO_63)) else ToQ15(x / TWO_15)
  }

  /** It saturates all but the numbers that need exactly 32 bits. */
  lemma ClipLongSaturates(x: int)
    requires IsQ63(x)
    ensures ClipQ63ToQ15(x) == Clamp(x / 0x8000, -0x8000, 0x7FFF)
      <==> -0x4000_0000 <= x < 0x4000_0000 || x < -0x8000_0000 || x >= 0x8000_0000
  {
  }

  /** `clip_q31_to_q7`: the test is that of 24 bits instead of 8. */
  function ClipQ31ToQ7(x: int): int
    requires IsQ31(x)
  {
    if ToQ31(x / 0x100_0000) != x / 0x80_0000 then XorSign(TWO_7 - 1, ToQ7(x / TWO_31)) else ToQ7(x)
  }

  /** In between the low byte comes out, and that is the saturated value for one number in 256. */
  lemma ClipByteSaturates(x: int)
    requires IsQ31(x)
    ensures ClipQ31ToQ7(x) == Clamp(x, -0x80, 0x7F)
      <==> -0x80 <= x < 0x80 || x < -0x80_0000 || x >= 0x80_0000 || x % 0x100 == if x > 0 then 0x7F else 0x80
  {
  }

  /** So the smallest number that does not fit a byte comes out negative. */
  lemma ByteIsNotClipped()
    ensures ClipQ31ToQ7(0x80) == -0x80 && ClipQ63ToQ15(0x4000_0000) == -0x8000
  {
  }

  /** `mult32x64`: the low word of the first factor is taken without a sign. */
  function Mult32x64(x: int, y: int): int {
    x % TWO_32 * y / TWO_32 + ToQ31(x / TWO_32) * y
  }

  /** The two halves make up the exact quotient of the 96-bit product, and nothing overflows 64 bits. */
  lemma LongProduct(x: int, y: int)
    requires IsQ63(x) && IsQ31(y)
    ensures Mult32x64(x, y) == x * y / 0x1_0000_0000
    ensures IsQ63(x % TWO_32 * y) && IsQ63(ToQ31(x / TWO_32) * y) && IsQ63(Mult32x64(x, y))
  {
    var high, low := x / TWO_32, x % TWO_32;
    assert x * y == low * y + high * y * TWO_32;
    DivideExactly(x * y, low * y / TWO_32 + high * y, low * y % TWO_32, TWO_32);
    Magnitude(low, TWO_32, y);
    Magnitude(high, TWO_31, y);
  }

  lemma Magnitude(a: int, size: int, y: int)
    requires -size <= a <= size && IsQ31(y)
    ensures -size * TWO_31 <= a * y <= size * TWO_31
  {
    var b, z := if a < 0 then -a else a, if y < 0 then -y else y;
    MulMonotone(b, size, z);
    MulMonotone(z, TWO_31, size);
    assert a * y == b * z || a * y == -(b * z);
    assert 0 <= b * z;
  }

  /** `__SSAT` of the cores that lack the instruction. For 32 bits its bounds wrap, to the numbers that saturate nothing. */
  method Ssat(x: int, bits: nat) returns (r: int)
    requires IsQ31(x) && 1 <= bits <= 32
    ensures r == Clamp(x, -Pow2(bits - 1), Pow2(bits - 1) - 1)
  {
    BoundsOf(0);
    BoundsOf(bits - 1);
    hide Pow2, ToQ31;
    var posMax := 1;
    for i := 0 to bits - 1
      invariant posMax == ToQ31(Pow2(i))
    {
      BoundDoubles(i);
      posMax := ToQ31(posMax * 2);
    }
    r := x;
    if x > 0 {
      posMax := ToQ31(posMax - 1);
      if x > posMax {
        r := posMax;
      }
    } else {
      var negMin := ToQ31(-posMax);
      if x < negMin {
        r := negMin;
      }
    }
  }

  lemma BoundDoubles(n: nat)
    requires n < 31
    ensures ToQ31(ToQ31(Pow2(n)) * 2) == ToQ31(Pow2(n + 1))
  {
    PowersFit(n);
    assert Pow2(n + 1) == 2 * Pow2(n);
    hide Pow2;
  }

  lemma BoundsOf(n: nat)
    requires n <= 31
    ensures Pow2(0) == 1 && ToQ31(1) == 1
    ensures ToQ31(ToQ31(Pow2(n)) - 1) == Pow2(n) - 1 && ToQ31(-ToQ31(Pow2(n))) == -Pow2(n)
  {
    PowersFit(n);
    assert Pow2(0) == 1;
    hide Pow2;
  }

  lemma PowersFit(n: nat)
    requires n <= 31
    ensures if n < 31 then Pow2(n) < TWO_31 else Pow2(n) == TWO_31
  {
    TopPowers();
    hide Pow2;
    if n < 31 {
      PowerMonotone(n, 30);
    }
  }

  lemma TopPowers()
    ensures Pow2(30) == 0x4000_0000 && Pow2(31) == TWO_31
  {
    assert Pow2(6) == 0x40;
    assert Pow2(14) == 0x4000;
    assert Pow2(22) == 0x40_0000;
  }

  /** `__QADD` and `__QSUB` of those cores. */
  function QAdd(x: int, y: int): int
    requires IsQ31(x) && IsQ31(y)
  {
    ClipQ63ToQ31(x + y)
  }

  function QSub(x: int, y: int): int
    requires IsQ31(x) && IsQ31(y)
  {
    ClipQ63ToQ31(x - y)
  }

  lemma QAddSubSaturate(x: int, y: int)
    requires IsQ31(x) && IsQ31(y)
    ensures QAdd(x, y) == Clamp(x + y, -TWO_31, TWO_31 - 1)
    ensures QSub(x, y) == Clamp(x - y, -TWO_31, TWO_31 - 1)
  {
    ClipSaturates(x + y);
    ClipSaturates(x - y);
  }
}
