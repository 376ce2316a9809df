/** Table interpolation in fixed point: coordinates have 12 bits of index and 20 bits of fraction. */
module Interpolation {
  import opened Arithmetic
  import opened FixedPoint

  const ONE: int := 0x10_0000
  const TOP: int := 0xF_FFFF

  /** Two's complement shifts and masks: the index is negative for negative coordinates, the fraction never is. */
  function Index(x: int): int { x / ONE }
  function Fraction(x: int): int { x % ONE }

  predicate Entries(t: seq<int>, bound: int) { forall i :: 0 <= i < |t| ==> -bound <= t[i] < bound }
  predicate NonDecreasing(t: seq<int>) { forall i, j :: 0 <= i <= j < |t| ==> t[i] <= t[j] }

  /** `arm_linear_interp_q15`, which accumulates in 64 bits, and `arm_linear_interp_q7`, which does in 32, with their casts. */
  function LinearQ15(t: seq<int>, x: int): int
    requires t != []
  {
    var index := Index(x);
    if index >= |t| - 1 then t[|t| - 1]
    else if index < 0 then t[0]
    else ToQ15(Between(t[index], t[index + 1], Fraction(x)))
  }

  function LinearQ7(t: seq<int>, x: int): int
    requires t != []
  {
    if x < 0 then t[0] else
    var index := Index(x) % 0x1000;
    if index >= |t| - 1 then t[|t| - 1] else
    var f := Fraction(x);
    ToQ7(ToQ31(ToQ31(t[index] * (TOP - f)) + ToQ31(t[index + 1] * f)) / ONE)
  }

  /** The weighted sum of two entries. */
  function Blend(y0: int, y1: int, f: int): int { y0 * (TOP - f) + y1 * f }
  function Between(y0: int, y1: int, f: int): int { Blend(y0, y1, f) / ONE }

  /** Both without casts and masks. */
  function Linear(t: seq<int>, x: int): int
    requires t != []
  {
    var index := Index(x);
    if index >= |t| - 1 then t[|t| - 1]
    else if index < 0 then t[0]
    else Between(t[index], t[index + 1], Fraction(x))
  }

  lemma BlendInHull(y0: int, y1: int, f: int, low: int, high: int)
    requires 0 <= f <= TOP && low <= y0 <= high && low <= y1 <= high
    ensures low * TOP <= Blend(y0, y1, f) <= high * TOP
  {
    MulMonotone(low, y0, TOP - f);
    MulMonotone(low, y1, f);
    MulMonotone(y0, high, TOP - f);
    MulMonotone(y1, high, f);
    Slope(low, low, f);
    Slope(high, high, f);
  }

  lemma Slope(y0: int, y1: int, f: int)
    ensures Blend(y0, y1, f) == y0 * TOP + f * (y1 - y0)
  {
  }

  /** The weights add up to one unit less than a whole, so a positive result can be one below the entries. */
  lemma BetweenInHull(y0: int, y1: int, f: int, low: int, high: int)
    requires 0 <= f <= TOP && low <= y0 <= high && low <= y1 <= high && -TWO_15 <= low && high < TWO_15
    ensures (if low > 0 then low - 1 else low) <= Between(y0, y1, f) <= high
  {
    BlendInHull(y0, y1, f, low, high);
  }

  /** The straight line between two entries, in units of 2^-20, is missed by less than a unit and 2^-5. */
  lemma BetweenNearTheLine(y0: int, y1: int, f: int)
    requires IsQ15(y0)
    ensures -ONE - TWO_15 < Between(y0, y1, f) * ONE - (y0 * ONE + (y1 - y0) * f) <= TWO_15
  {
  }

  /** The entry pair that a coordinate falls between has a result that fits the type of the entries. */
  lemma CellFits(y0: int, y1: int, f: int, bound: int)
    requires 0 <= f <= TOP && 0 < bound <= TWO_15 && -bound <= y0 < bound && -bound <= y1 < bound
    ensures -bound <= Between(y0, y1, f) < bound
  {
    BetweenInHull(y0, y1, f, -bound, bound - 1);
  }

  lemma LinearQ15Exact(t: seq<int>, x: int)
    requires t != [] && IsQ31(x) && Entries(t, TWO_15)
    ensures LinearQ15(t, x) == Linear(t, x)
  {
    hide Between;
    var i := Index(x);
    if 0 <= i < |t| - 1 {
      CellFits(t[i], t[i + 1], Fraction(x), TWO_15);
      WrapQ15(Linear(t, x), 0);
    }
  }

  /** The products of the q7 function, and their sum, fit 32 bits. */
  lemma AccumulatorQ7Fits(y0: int, y1: int, f: int)
    requires 0 <= f <= TOP && IsQ7(y0) && IsQ7(y1)
    ensures ToQ31(ToQ31(y0 * (TOP - f)) + ToQ31(y1 * f)) == Blend(y0, y1, f)
  {
    BlendInHull(y0, 0, f, -TWO_7, TWO_7);
    BlendInHull(0, y1, f, -TWO_7, TWO_7);
    BlendInHull(y0, y1, f, -TWO_7, TWO_7);
    WrapQ31(y0 * (TOP - f), 0);
    WrapQ31(y1 * f, 0);
    WrapQ31(Blend(y0, y1, f), 0);
  }

  lemma LinearQ7Exact(t: seq<int>, x: int)
    requires t != [] && IsQ31(x) && Entries(t, TWO_7)
    ensures LinearQ7(t, x) == Linear(t, x)
  {
    hide ToQ7, ToQ31;
    var i := Index(x);
    assert x >= 0 ==> 0 <= i < 0x1000;
    if 0 <= i < |t| - 1 {
      AccumulatorQ7Fits(t[i], t[i + 1], Fraction(x));
      CellFits(t[i], t[i + 1], Fraction(x), TWO_7);
      WrapQ7(Linear(t, x), 0);
    }
  }

  /**
    * What the two functions compute, on the coordinate itself: its upper bits choose the cell and its 20 lower bits the
    * place in it. Outside the table the end entries come out. Inside, the result is the weighted sum of the two entries
    * rounded down, next to the straight line between them.
    */
  predicate Interpolates(t: seq<int>, x: int, r: int)
    requires t != []
  {
    var i, f := x / 0x10_0000, x % 0x10_0000;
    if i >= |t| - 1 then r == t[|t| - 1]
    else if i < 0 then r == t[0]
    else
      && r * 0x10_0000 <= t[i] * (0xF_FFFF - f) + t[i + 1] * f < (r + 1) * 0x10_0000
      && -0x10_8000 <= r * 0x10_0000 - (t[i] * 0x10_0000 + (t[i + 1] - t[i]) * f) <= 0x8000
  }

  lemma LinearInterpolates(t: seq<int>, x: int)
    requires t != [] && Entries(t, TWO_15)
    ensures Interpolates(t, x, Linear(t, x))
  {
    var i, f := x / 0x10_0000, x % 0x10_0000;
    if 0 <= i < |t| - 1 {
      BetweenNearTheLine(t[i], t[i + 1], f);
    }
  }

  lemma LinearQ15Interpolates(t: seq<int>, x: int)
    requires t != [] && IsQ31(x) && forall i :: 0 <= i < |t| ==> -0x8000 <= t[i] < 0x8000
    ensures Interpolates(t, x, LinearQ15(t, x))
  {
    LinearQ15Exact(t, x);
    LinearInterpolates(t, x);
  }

  lemma LinearQ7Interpolates(t: seq<int>, x: int)
    requires t != [] && IsQ31(x) && forall i :: 0 <= i < |t| ==> -0x80 <= t[i] < 0x80
    ensures Interpolates(t, x, LinearQ7(t, x))
  {
    LinearQ7Exact(t, x);
    LinearInterpolates(t, x);
  }

  /** The result at the lower border of a cell, where the next one takes over. */
  function Border(y: int): int { y * TOP / ONE }

  lemma CellIsMonotone(y0: int, y1: int, f: int, f': int)
    requires y0 <= y1 && 0 <= f <= f' <= TOP
    ensures Border(y0) <= Between(y0, y1, f) <= Between(y0, y1, f') <= Border(y1)
  {
  }

  lemma BorderIsMonotone(y: int, y': int)
    requires -TWO_15 <= y <= y' < TWO_15
    ensures Border(y) <= Border(y') <= y'
  {
  }

  /** Monotone over all non-negative coordinates: within a cell, across cell borders, and into the clamp at the end. */
  lemma LinearIsMonotone(t: seq<int>, x: int, x': int)
    requires t != [] && Entries(t, TWO_15) && NonDecreasing(t) && 0 <= x <= x'
    ensures Linear(t, x) <= Linear(t, x')
  {
    hide Between, Border;
    var i, i', f, f' := Index(x), Index(x'), Fraction(x), Fraction(x');
    assert i < i' || (i == i' && f <= f');
    if i < |t| - 1 {
      CellIsMonotone(t[i], t[i + 1], f, if i == i' then f' else f);
      BorderIsMonotone(t[i + 1], t[i + 1]);
      if i < i' < |t| - 1 {
        BorderIsMonotone(t[i + 1], t[i']);
        CellIsMonotone(t[i'], t[i' + 1], f', f');
      }
    }
  }

  /** So are the two functions of the source. */
  lemma LinearQ15IsMonotone(t: seq<int>, x: int, x': int)
    requires t != [] && Entries(t, TWO_15) && NonDecreasing(t) && 0 <= x <= x' && IsQ31(x')
    ensures LinearQ15(t, x) <= LinearQ15(t, x')
  {
    LinearQ15Exact(t, x);
    LinearQ15Exact(t, x');
    LinearIsMonotone(t, x, x');
  }

  lemma LinearQ7IsMonotone(t: seq<int>, x: int, x': int)
    requires t != [] && Entries(t, TWO_7) && NonDecreasing(t) && 0 <= x <= x' && IsQ31(x')
    ensures LinearQ7(t, x) <= LinearQ7(t, x')
  {
    LinearQ7Exact(t, x);
    LinearQ7Exact(t, x');
    LinearIsMonotone(t, x, x');
  }

  /** Over negative coordinates too exactly when the first entry is not positive or is the only one. */
  lemma LinearIsMonotoneFromBelow(t: seq<int>)
    requires t != [] && Entries(t, TWO_15) && NonDecreasing(t)
    ensures (forall x, x' :: x <= x' ==> Linear(t, x) <= Linear(t, x')) <==> |t| == 1 || t[0] <= 0
  {
    hide Between;
    if |t| == 1 || t[0] <= 0 {
      forall x, x' | x <= x'
        ensures Linear(t, x) <= Linear(t, x')
      {
        if 0 <= x {
          LinearIsMonotone(t, x, x');
        } else if 0 <= x' {
          LinearIsMonotone(t, 0, x');
          AtZero(t);
        }
      }
    } else {
      AtZero(t);
      assert Linear(t, -1) > Linear(t, 0);
    }
  }

  lemma AtZero(t: seq<int>)
    requires t != [] && Entries(t, TWO_15)
    ensures Linear(t, -1) == t[0] && Linear(t, 0) == if |t| > 1 && t[0] > 0 then t[0] - 1 else t[0]
  {
  }

  /** The guard of the bilinear functions, and the first of the four corners of a cell. */
  predicate Inside(rows: nat, cols: nat, x: int, y: int) {
    0 <= Index(x) <= rows - 1 && 0 <= Index(y) <= cols - 1
  }

  function Corner(cols: nat, x: int, y: int): int { Index(x) + cols * Index(y) }

  /** What the guard leaves open: the cell's far corners can be outside the table. */
  predicate CellInTable(t: seq<int>, cols: nat, x: int, y: int) {
    var k := Corner(cols, x, y); 0 <= k && k + cols + 1 < |t|
  }

  /** The number of indices that a coordinate of 32 bits can reach. */
  function Reach(n: nat): nat { if n < 0x800 then n else 0x800 }

  /** The guard keeps every cell inside the table exactly when the cell of the largest indices is. */
  lemma GuardSuffices(t: seq<int>, rows: nat, cols: nat)
    requires rows > 0 && cols > 0 && |t| == rows * cols
    ensures (forall x, y :: IsQ31(x) && IsQ31(y) && Inside(rows, cols, x, y) ==> CellInTable(t, cols, x, y))
      <==> Reach(rows) + cols * Reach(cols) < rows * cols
  {
    var x, y := (Reach(rows) - 1) * ONE, (Reach(cols) - 1) * ONE;
    assert IsQ31(x) && IsQ31(y) && Index(x) == Reach(rows) - 1 && Index(y) == Reach(cols) - 1;
    assert Corner(cols, x, y) + cols == Reach(rows) - 1 + cols * Reach(cols);
    MulMonotone(0, Reach(cols) - 1, cols);
    if Reach(rows) + cols * Reach(cols) < rows * cols {
      forall x, y | IsQ31(x) && IsQ31(y) && Inside(rows, cols, x, y)
        ensures CellInTable(t, cols, x, y)
      {
        LastCell(rows, cols, x, y);
      }
    } else {
      assert Inside(rows, cols, x, y) && !CellInTable(t, cols, x, y);
    }
  }

  lemma LastCell(rows: nat, cols: nat, x: int, y: int)
    requires IsQ31(x) && IsQ31(y) && Inside(rows, cols, x, y)
    ensures 0 <= Corner(cols, x, y) && Corner(cols, x, y) + cols + 1 <= Reach(rows) + cols * Reach(cols)
  {
    assert Index(x) < Reach(rows) && Index(y) < Reach(cols);
    MulMonotone(0, Index(y), cols);
    MulMonotone(Index(y) + 1, Reach(cols), cols);
  }

  /** Which cells of a square table are inside it. */
  lemma SquareTableCells(t: seq<int>, n: nat, x: int, y: int)
    requires |t| == n * n && Inside(n, n, x, y)
    ensures CellInTable(t, n, x, y) <==> Index(y) < n - 2 || (Index(y) == n - 2 && Index(x) < n - 1)
  {
    var r, c := Index(x), Index(y);
    MulMonotone(0, c, n);
    assert n * n == n * c + n * (n - c);
    if c < n - 2 {
      MulMonotone(3, n - c, n);
    } else {
      assert n - c == 1 || n - c == 2;
    }
  }

  /** With no more rows than columns, every cell of the last column index reaches past the end. */
  lemma GuardAdmitsOpenCells(t: seq<int>, rows: nat, cols: nat, x: int, y: int)
    requires rows <= cols && |t| == rows * cols && Inside(rows, cols, x, y)
    ensures Index(y) == cols - 1 ==> !CellInTable(t, cols, x, y)
    ensures Index(x) < rows - 1 && Index(y) < cols - 1 && rows == cols ==> CellInTable(t, cols, x, y)
  {
    MulMonotone(rows, cols, cols);
    if Index(y) == cols - 1 {
      assert Corner(cols, x, y) + cols == Index(x) + cols * cols;
    } else {
      MulMonotone(0, Index(y), cols);
      MulMonotone(Index(y) + 2, cols, cols);
    }
  }

  /** The accumulators of `arm_bilinear_interp_q15` and `arm_bilinear_interp_q7`, with the casts of their parts. */
  function AccumulateQ15(x1: int, x2: int, y1: int, y2: int, f: int, g: int): int {
    ToQ31(x1 * (TOP - f) / 16) * (TOP - g) + ToQ31(x2 * (TOP - g) / 16) * f
    + ToQ31(y1 * (TOP - f) / 16) * g + ToQ31(y2 * f / 16) * g
  }

  function AccumulateQ7(x1: int, x2: int, y1: int, y2: int, f: int, g: int): int {
    ToQ31(x1 * (TOP - f)) * (TOP - g) + ToQ31(x2 * (TOP - g)) * f
    + ToQ31(y1 * (TOP - f)) * g + ToQ31(y2 * g) * f
  }

  function BilinearQ15(t: seq<int>, rows: nat, cols: nat, x: int, y: int): int
    requires Inside(rows, cols, x, y) ==> CellInTable(t, cols, x, y)
  {
    if !Inside(rows, cols, x, y) then 0 else
    var k := Corner(cols, x, y);
    ToQ15(AccumulateQ15(t[k], t[k + 1], t[k + cols], t[k + cols + 1], Fraction(x), Fraction(y)) / 0x10_0000_0000)
  }

  function BilinearQ7(t: seq<int>, rows: nat, cols: nat, x: int, y: int): int
    requires Inside(rows, cols, x, y) ==> CellInTable(t, cols, x, y)
  {
    if !Inside(rows, cols, x, y) then 0 else
    var k := Corner(cols, x, y);
    ToQ7(AccumulateQ7(t[k], t[k + 1], t[k + cols], t[k + cols + 1], Fraction(x), Fraction(y)) / WHOLE)
  }

  /** An entry times a weight, cut by four bits in the q15 function, fits 31 bits and a sign. */
  lemma PartFits(v: int, w: int, bound: int, cut: int)
    requires 0 <= w <= TOP && -bound <= v < bound && ((bound == TWO_15 && cut == 16) || (bound == TWO_7 && cut == 1))
    ensures ToQ31(v * w / cut) == v * w / cut && v * w - (cut - 1) <= cut * (v * w / cut) <= v * w
  {
    MulMonotone(-bound, v, w);
    MulMonotone(v, bound - 1, w);
    MulMonotone(0, w, bound);
    MulMonotone(w, TOP, bound);
    WrapQ31(v * w / cut, 0);
  }

  /** One of the four terms: an entry, its two weights, and what the cut of the first product can lose. */
  lemma Term(v: int, w: int, u: int, bound: int, cut: int)
    requires 0 <= w <= TOP && 0 <= u && -bound <= v < bound
    requires (bound == TWO_15 && cut == 16) || (bound == TWO_7 && cut == 1)
    ensures v * w * u - (cut - 1) * u <= cut * (ToQ31(v * w / cut) * u) <= v * w * u
  {
    PartFits(v, w, bound, cut);
    var p := v * w / cut;
    MulMonotone(v * w - (cut - 1), cut * p, u);
    MulMonotone(cut * p, v * w, u);
  }

  /** The reference: along one coordinate on both rows, then along the other between the rows. */
  function Nested(x1: int, x2: int, y1: int, y2: int, f: int, g: int): int {
    Blend(Blend(x1, x2, f), Blend(y1, y2, f), g)
  }

  lemma FourTerms(x1: int, x2: int, y1: int, y2: int, f: int, g: int)
    ensures Nested(x1, x2, y1, y2, f, g)
      == x1 * (TOP - f) * (TOP - g) + x2 * (TOP - g) * f + y1 * (TOP - f) * g + y2 * f * g
    ensures y2 * f * g == y2 * g * f
  {
  }

  lemma NestedInHull(x1: int, x2: int, y1: int, y2: int, f: int, g: int, low: int, high: int)
    requires 0 <= f <= TOP && 0 <= g <= TOP
    requires low <= x1 <= high && low <= x2 <= high && low <= y1 <= high && low <= y2 <= high
    ensures low * TOP * TOP <= Nested(x1, x2, y1, y2, f, g) <= high * TOP * TOP
  {
    BlendInHull(x1, x2, f, low, high);
    BlendInHull(y1, y2, f, low, high);
    BlendInHull(Blend(x1, x2, f), Blend(y1, y2, f), g, low * TOP, high * TOP);
  }

  lemma AccumulatorQ15(x1: int, x2: int, y1: int, y2: int, f: int, g: int)
    requires 0 <= f <= TOP && 0 <= g <= TOP && IsQ15(x1) && IsQ15(x2) && IsQ15(y1) && IsQ15(y2)
    ensures -45 * TOP <= 16 * AccumulateQ15(x1, x2, y1, y2, f, g) - Nested(x1, x2, y1, y2, f, g) <= 0
  {
    Term(x1, TOP - f, TOP - g, TWO_15, 16);
    Term(x2, TOP - g, f, TWO_15, 16);
    Term(y1, TOP - f, g, TWO_15, 16);
    Term(y2, f, g, TWO_15, 16);
    FourTerms(x1, x2, y1, y2, f, g);
    hide ToQ31, Nested;
  }

  lemma AccumulatorQ7(x1: int, x2: int, y1: int, y2: int, f: int, g: int)
    requires 0 <= f <= TOP && 0 <= g <= TOP && IsQ7(x1) && IsQ7(x2) && IsQ7(y1) && IsQ7(y2)
    ensures AccumulateQ7(x1, x2, y1, y2, f, g) == Nested(x1, x2, y1, y2, f, g)
  {
    Term(x1, TOP - f, TOP - g, TWO_7, 1);
    Term(x2, TOP - g, f, TWO_7, 1);
    Term(y1, TOP - f, g, TWO_7, 1);
    Term(y2, g, f, TWO_7, 1);
    FourTerms(x1, x2, y1, y2, f, g);
    hide ToQ31, Nested;
  }

  /** Cutting the accumulator down to the type of the entries. */
  lemma CutDown(nested: int, acc: int, cut: int, loss: int, low: int, high: int)
    requires (cut == 16 && loss == 45 * TOP) || (cut == 1 && loss == 0)
    requires -TWO_15 <= low <= high < TWO_15 && low * TOP * TOP <= nested <= high * TOP * TOP
    requires -loss <= cut * acc - nested <= 0
    ensures var r := acc / (WHOLE / cut);
      && low - 1 <= r <= high && (low == -TWO_15 || (cut == 1 && low < 0) ==> low <= r)
      && -WHOLE - loss < r * WHOLE - nested <= 0
  {
    var r := acc / (WHOLE / cut);
    if cut == 16 {
      assert WHOLE / cut == 0x10_0000_0000;
    }
    assert -WHOLE < r * WHOLE - cut * acc <= 0;
    assert low * TOP * TOP >= (low - 1) * WHOLE + 45 * TOP;
  }

  const WHOLE: int := 0x100_0000_0000

  /** Every corner of the cell is between two numbers. */
  predicate CornersBetween(t: seq<int>, k: int, cols: nat, low: int, high: int)
    requires 0 <= k && k + cols + 1 < |t|
  {
    low <= t[k] <= high && low <= t[k + 1] <= high && low <= t[k + cols] <= high && low <= t[k + cols + 1] <= high
  }

  /** In a cell no cast of the bilinear functions wraps. */
  lemma BilinearQ15InCell(t: seq<int>, rows: nat, cols: nat, x: int, y: int, low: int, high: int)
    requires Inside(rows, cols, x, y) && CellInTable(t, cols, x, y)
    requires CornersBetween(t, Corner(cols, x, y), cols, low, high) && -TWO_15 <= low && high < TWO_15
    ensures var k, r := Corner(cols, x, y), BilinearQ15(t, rows, cols, x, y);
      && low - 1 <= r <= high
      && -WHOLE - 45 * TOP < r * WHOLE - Nested(t[k], t[k + 1], t[k + cols], t[k + cols + 1], Fraction(x), Fraction(y)) <= 0
  {
    var k, f, g := Corner(cols, x, y), Fraction(x), Fraction(y);
    var acc := AccumulateQ15(t[k], t[k + 1], t[k + cols], t[k + cols + 1], f, g);
    var nested := Nested(t[k], t[k + 1], t[k + cols], t[k + cols + 1], f, g);
    AccumulatorQ15(t[k], t[k + 1], t[k + cols], t[k + cols + 1], f, g);
    NestedInHull(t[k], t[k + 1], t[k + cols], t[k + cols + 1], f, g, low, high);
    NestedInHull(t[k], t[k + 1], t[k + cols], t[k + cols + 1], f, g, -TWO_15, high);
    hide AccumulateQ15, Nested;
    CutDown(nested, acc, 16, 45 * TOP, low, high);
    CutDown(nested, acc, 16, 45 * TOP, -TWO_15, high);
    WrapQ15(acc / 0x10_0000_0000, 0);
  }

  lemma BilinearQ7InCell(t: seq<int>, rows: nat, cols: nat, x: int, y: int, low: int, high: int)
    requires Inside(rows, cols, x, y) && CellInTable(t, cols, x, y)
    requires CornersBetween(t, Corner(cols, x, y), cols, low, high) && -TWO_7 <= low && high < TWO_7
    ensures var k, r := Corner(cols, x, y), BilinearQ7(t, rows, cols, x, y);
      && (if low < 0 then low else low - 1) <= r <= high
      && -WHOLE < r * WHOLE - Nested(t[k], t[k + 1], t[k + cols], t[k + cols + 1], Fraction(x), Fraction(y)) <= 0
  {
    var k, f, g := Corner(cols, x, y), Fraction(x), Fraction(y);
    var acc := AccumulateQ7(t[k], t[k + 1], t[k + cols], t[k + cols + 1], f, g);
    AccumulatorQ7(t[k], t[k + 1], t[k + cols], t[k + cols + 1], f, g);
    NestedInHull(t[k], t[k + 1], t[k + cols], t[k + cols + 1], f, g, low, high);
    hide AccumulateQ7, Nested;
    CutDown(acc, acc, 1, 0, low, high);
    WrapQ7(acc / WHOLE, 0);
  }

  function Least(a: int, b: int): int { if a < b then a else b }

  /** What the caller has to see to: when the guard lets a coordinate pair through, all four corners are in the table. */
  predicate CornersAreIn(t: seq<int>, rows: nat, cols: nat, i: int, j: int) {
    0 <= i < rows && 0 <= j < cols ==> 0 <= i + cols * j && i + cols * j + cols + 1 < |t|
  }

  /**
    * What the bilinear functions compute, on the coordinates themselves. Outside the guard the result is 0. Inside, it
    * misses the reference, along one coordinate on both rows and then along the other between the rows, by less than a
    * unit and `loss` from below and never from above, in units of 2^-40; and it stays between the least and the
    * greatest corner but for one unit.
    */
  predicate Bilinear(t: seq<int>, rows: nat, cols: nat, x: int, y: int, loss: int, r: int)
    requires CornersAreIn(t, rows, cols, x / 0x10_0000, y / 0x10_0000)
  {
    var i, j, f, g := x / 0x10_0000, y / 0x10_0000, x % 0x10_0000, y % 0x10_0000;
    if !(0 <= i < rows && 0 <= j < cols) then r == 0 else
    var k := i + cols * j;
    var x1, x2, y1, y2 := t[k], t[k + 1], t[k + cols], t[k + cols + 1];
    var reference := (x1 * (0xF_FFFF - f) + x2 * f) * (0xF_FFFF - g) + (y1 * (0xF_FFFF - f) + y2 * f) * g;
    && -0x100_0000_0000 - loss < r * 0x100_0000_0000 - reference <= 0
    && (x1 - 1 <= r || x2 - 1 <= r || y1 - 1 <= r || y2 - 1 <= r)
    && (r <= x1 || r <= x2 || r <= y1 || r <= y2)
  }

  lemma BilinearQ15Accurate(t: seq<int>, rows: nat, cols: nat, x: int, y: int)
    requires forall i :: 0 <= i < |t| ==> -0x8000 <= t[i] < 0x8000
    requires CornersAreIn(t, rows, cols, x / 0x10_0000, y / 0x10_0000)
    ensures Bilinear(t, rows, cols, x, y, 45 * 0xF_FFFF, BilinearQ15(t, rows, cols, x, y))
  {
    if 0 <= x / 0x10_0000 < rows && 0 <= y / 0x10_0000 < cols {
      var k := x / 0x10_0000 + cols * (y / 0x10_0000);
      var low := Least(Least(t[k], t[k + 1]), Least(t[k + cols], t[k + cols + 1]));
      var high := -Least(Least(-t[k], -t[k + 1]), Least(-t[k + cols], -t[k + cols + 1]));
      BilinearQ15InCell(t, rows, cols, x, y, low, high);
    }
  }

  lemma BilinearQ7Accurate(t: seq<int>, rows: nat, cols: nat, x: int, y: int)
    requires forall i :: 0 <= i < |t| ==> -0x80 <= t[i] < 0x80
    requires CornersAreIn(t, rows, cols, x / 0x10_0000, y / 0x10_0000)
    ensures Bilinear(t, rows, cols, x, y, 0, BilinearQ7(t, rows, cols, x, y))
  {
    if 0 <= x / 0x10_0000 < rows && 0 <= y / 0x10_0000 < cols {
      var k := x / 0x10_0000 + cols * (y / 0x10_0000);
      var low := Least(Least(t[k], t[k + 1]), Least(t[k + cols], t[k + cols + 1]));
      var high := -Least(Least(-t[k], -t[k + 1]), Least(-t[k + cols], -t[k + cols + 1]));
      BilinearQ7InCell(t, rows, cols, x, y, low, high);
    }
  }
}
