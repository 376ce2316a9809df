/** Unsigned conversions, powers of two, and the facts about products and quotients that the proofs need. */
module Arithmetic {
  const TWO_32: int := 0x1_0000_0000

  function ToU16(x: int): nat { x % 0x1_0000 }
  function ToU32(x: int): nat { x % TWO_32 }

  lemma MulMonotone(a: int, b: int, m: int)
    requires a <= b && 0 <= m
    ensures a * m <= b * m
  {
  }

  lemma MulIncreasing(a: int, b: int, m: int)
    requires a < b && 0 < m
    ensures a * m < b * m
  {
  }

  lemma DivideExactly(x: int, q: int, r: int, d: int)
    requires d > 0 && x == q * d + r && 0 <= r < d
    ensures x / d == q
  {
    if x / d < q {
      MulMonotone(x / d + 1, q, d);
    } else {
      MulMonotone(q, x / d, d);
      if x / d > q {
        MulMonotone(q + 1, x / d, d);
      }
    }
  }

  lemma Remainder(x: int, q: int, r: int, d: int)
    requires d > 0 && x == q * d + r && 0 <= r < d
    ensures x % d == r
  {
    DivideExactly(x, q, r, d);
  }

  function Pow2(n: nat): (p: int)
    ensures p > 0
  {
    if n == 0 then 1 else 2 * Pow2(n - 1)
  }

  lemma {:induction false} PowerSum(a: nat, b: nat)
    ensures Pow2(a) * Pow2(b) == Pow2(a + b)
  {
    if a == 0 {
    } else {
      PowerSum(a - 1, b);
    }
  }

  lemma PowerMonotone(a: nat, b: nat)
    requires a <= b
    ensures Pow2(a) <= Pow2(b)
  {
  }
}
