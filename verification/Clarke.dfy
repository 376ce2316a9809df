/** The Clarke transform and its inverse in 31-bit fixed point. */
module Clarke {
  import opened Arithmetic
  import opened FixedPoint

  /** 1 / sqrt(3) and 2 / sqrt(3) with 30 fractional bits, sqrt(3) / 2 with 31. */
  const ONE_BY_SQRT3: int := 0x24F3_4E8B
  const TWO_BY_SQRT3: int := 0x49E6_9D16
  const HALF_SQRT3: int := 0x6ED9_EBA1
  const TWO_30: int := 0x4000_0000

  datatype Phases = Phases(a: int, b: int)
  datatype Vector = Vector(alpha: int, beta: int)

  predicate IsPhases(i: Phases) { IsQ31(i.a) && IsQ31(i.b) }
  predicate IsVector(v: Vector) { IsQ31(v.alpha) && IsQ31(v.beta) }

  function Forward(i: Phases): (v: Vector)
    requires IsPhases(i)
    ensures IsVector(v)
  {
    var product1 := ToQ31(i.a * ONE_BY_SQRT3 / TWO_30);
    var product2 := ToQ31(i.b * TWO_BY_SQRT3 / TWO_30);
    QAddSubSaturate(product1, product2);
    Vector(i.a, QAdd(product1, product2))
  }

  function Inverse(v: Vector): (i: Phases)
    requires IsVector(v)
    ensures IsPhases(i)
  {
    var product1 := ToQ31(v.alpha * TWO_30 / TWO_31);
    var product2 := ToQ31(v.beta * HALF_SQRT3 / TWO_31);
    QAddSubSaturate(product2, product1);
    Phases(v.alpha, QSub(product2, product1))
  }

  /** The second product overflows its type for the outer part of the input range, whatever the addition saturates. */
  lemma SecondProductFits(b: int)
    requires IsQ31(b)
    ensures ToQ31(b * TWO_BY_SQRT3 / TWO_30) == b * TWO_BY_SQRT3 / TWO_30 <==> -HALF_SQRT3 <= b <= HALF_SQRT3
  {
  }

  /** The largest phase current comes out with the wrong sign. */
  lemma ProductWraps()
    ensures Forward(Phases(0, TWO_31 - 1)).beta < 0
  {
  }

  /** The promised saturating sum of the two products is what comes out exactly for the inner part of the input range. */
  lemma SaturatesAsPromised(i: Phases)
    requires IsPhases(i)
    ensures Forward(i).beta == Clamp(i.a * ONE_BY_SQRT3 / TWO_30 + i.b * TWO_BY_SQRT3 / TWO_30, -TWO_31, TWO_31 - 1)
      <==> -HALF_SQRT3 <= i.b <= HALF_SQRT3
  {
    var p1, p2 := i.a * ONE_BY_SQRT3 / TWO_30, i.b * TWO_BY_SQRT3 / TWO_30;
    SecondProductFits(i.b);
    SecondProductTurns(i.b);
    hide ToQ31, ClipQ63ToQ31;
    WrapQ31(p1, 0);
    QAddSubSaturate(p1, ToQ31(p2));
  }

  lemma SecondProductTurns(b: int)
    requires IsQ31(b)
    ensures var p := b * TWO_BY_SQRT3 / TWO_30;
      ToQ31(p) == p - (if b > HALF_SQRT3 then TWO_32 else if b < -HALF_SQRT3 then -TWO_32 else 0)
  {
  }

  /** Neither the cast of the second product nor the addition loses anything. */
  predicate InCircle(i: Phases) {
    -HALF_SQRT3 <= i.b <= HALF_SQRT3 && IsQ31(i.a * ONE_BY_SQRT3 / TWO_30 + i.b * TWO_BY_SQRT3 / TWO_30)
  }

  lemma ForwardExact(i: Phases)
    requires IsPhases(i) && InCircle(i)
    ensures Forward(i) == Vector(i.a, i.a * ONE_BY_SQRT3 / TWO_30 + i.b * TWO_BY_SQRT3 / TWO_30)
  {
    hide ToQ31, ClipQ63ToQ31;
    var p1, p2 := i.a * ONE_BY_SQRT3 / TWO_30, i.b * TWO_BY_SQRT3 / TWO_30;
    SecondProductFits(i.b);
    WrapQ31(p1, 0);
    QAddSubSaturate(p1, ToQ31(p2));
  }

  /** The second component is the textbook one, (a + 2 * b) / sqrt(3), up to three units below and one above. */
  lemma ForwardAccurate(i: Phases, root: real)
    requires IsPhases(i) && InCircle(i) && root > 0.0 && 3.0 * (root * root) == 1.0
    ensures -3.0 < Forward(i).beta as real - (i.a + 2 * i.b) as real * root < 1.0
  {
    hide *;
    Sums(i);
    Nearest(root);
    NearTheLine(Forward(i).beta, i.a + 2 * i.b, root);
  }

  lemma Sums(i: Phases)
    requires IsPhases(i) && InCircle(i)
    ensures -2 * TWO_30 < TWO_30 * Forward(i).beta - ONE_BY_SQRT3 * (i.a + 2 * i.b) <= 0
    ensures -6000000000 < i.a + 2 * i.b < 6000000000
  {
    ForwardExact(i);
    hide Forward;
    TwoFloors(i.a, i.b);
  }

  lemma NearTheLine(beta: int, s: int, root: real)
    requires -2 * TWO_30 < TWO_30 * beta - ONE_BY_SQRT3 * s <= 0 && -6000000000 < s < 6000000000
    requires ONE_BY_SQRT3 as real < 1073741824.0 * root < ONE_BY_SQRT3 as real + 1.0 / 7.0
    ensures -3.0 < beta as real - s as real * root < 1.0
  {
    var short := 1073741824.0 * root - ONE_BY_SQRT3 as real;
    Scaled(s as real, short);
    assert s as real * short == 1073741824.0 * (s as real * root) - ONE_BY_SQRT3 as real * s as real;
  }

  lemma TwoFloors(a: int, b: int)
    ensures var beta := a * ONE_BY_SQRT3 / TWO_30 + b * TWO_BY_SQRT3 / TWO_30;
      -2 * TWO_30 < TWO_30 * beta - ONE_BY_SQRT3 * (a + 2 * b) <= 0
  {
  }

  /** The constant is the number it stands for, rounded down, and short of it by less than one part in seven. */
  lemma Nearest(root: real)
    requires root > 0.0 && 3.0 * (root * root) == 1.0
    ensures ONE_BY_SQRT3 as real < 1073741824.0 * root < ONE_BY_SQRT3 as real + 1.0 / 7.0
  {
    var exact := 1073741824.0 * root;
    assert exact * exact == 1073741824.0 * 1073741824.0 * (root * root);
    Root(ONE_BY_SQRT3 as real, exact);
    Root(exact, ONE_BY_SQRT3 as real + 1.0 / 7.0);
  }

  lemma Squares(a: real, b: real)
    requires a >= b > 0.0
    ensures a * a >= b * b
  {
    assert a * a >= a * b;
  }

  lemma Root(a: real, b: real)
    requires a > 0.0 && b > 0.0 && a * a < b * b
    ensures a < b
  {
    if a >= b {
      Squares(a, b);
      assert false;
    }
  }

  lemma Scaled(s: real, short: real)
    requires -6000000000.0 < s < 6000000000.0 && 0.0 < short < 1.0 / 7.0
    ensures -1000000000.0 < s * short < 1000000000.0
  {
    var size := if s >= 0.0 then s else -s;
    assert size * short <= size * (1.0 / 7.0);
  }

  lemma InverseExact(v: Vector)
    requires IsVector(v)
    ensures Inverse(v) == Phases(v.alpha, Clamp(v.beta * HALF_SQRT3 / TWO_31 - v.alpha / 2, -TWO_31, TWO_31 - 1))
  {
    hide ToQ31, ClipQ63ToQ31;
    assert v.alpha * TWO_30 / TWO_31 == v.alpha / 2;
    WrapQ31(v.alpha / 2, 0);
    WrapQ31(v.beta * HALF_SQRT3 / TWO_31, 0);
    QAddSubSaturate(v.beta * HALF_SQRT3 / TWO_31, v.alpha / 2);
  }

  /** The transform and its inverse give back the first phase exactly and the second within three units below, one above. */
  lemma RoundTrip(i: Phases)
    requires IsPhases(i) && InCircle(i)
    ensures var j := Inverse(Forward(i)); j.a == i.a && -3 <= j.b - i.b <= 1
  {
    ForwardExact(i);
    var v := Forward(i);
    InverseExact(v);
    Errors(i.a, i.b, i.a * ONE_BY_SQRT3 / TWO_30, i.b * TWO_BY_SQRT3 / TWO_30, i.a / 2, v.beta * HALF_SQRT3 / TWO_31);
    hide Forward, Inverse;
  }

  /** Three floors and the error of the constants, whose product falls short of one half by 470745493 / 2^61. */
  lemma Errors(a: int, b: int, p1: int, p2: int, q1: int, q2: int)
    requires p1 == a * ONE_BY_SQRT3 / TWO_30 && p2 == b * TWO_BY_SQRT3 / TWO_30 && IsQ31(p1 + p2)
    requires q1 == a / 2 && q2 == (p1 + p2) * HALF_SQRT3 / TWO_31
    ensures -3 <= q2 - q1 - b <= 1
  {
  }
}
