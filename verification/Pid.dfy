/** The 16-bit fixed-point PID controller. */
module Pid {
  import opened Arithmetic
  import opened FixedPoint
  import PackedLanes

  /** The derived gains, and what the state array holds: the last two samples and the last output. */
  datatype Gains = Gains(a0: int, a1: int, a2: int)
  datatype State = State(x1: int, x2: int, y: int)

  predicate IsGains(g: Gains) { IsQ15(g.a0) && IsQ15(g.a1) && IsQ15(g.a2) }
  predicate IsState(s: State) { IsQ15(s.x1) && IsQ15(s.x2) && IsQ15(s.y) }

  /** The accumulator, with 30 fractional bits, and the 15-bit quotient before saturation. */
  function Accumulated(g: Gains, s: State, x: int): int {
    g.a0 * x + g.a1 * s.x1 + g.a2 * s.x2 + s.y * TWO_15
  }

  function Unsaturated(g: Gains, s: State, x: int): int { Accumulated(g, s, x) / TWO_15 }

  function Step(g: Gains, s: State, x: int): State {
    State(x, s.x1, Clamp(Unsaturated(g, s, x), -TWO_15, TWO_15 - 1))
  }

  function After(g: Gains, xs: seq<int>): State {
    if xs == [] then State(0, 0, 0) else Step(g, After(g, xs[..|xs| - 1]), xs[|xs| - 1])
  }

  /** No step of the run needed its saturation. */
  predicate Unclipped(g: Gains, xs: seq<int>) {
    xs == [] ||
    (Unclipped(g, xs[..|xs| - 1]) && IsQ15(Unsaturated(g, After(g, xs[..|xs| - 1]), xs[|xs| - 1])))
  }

  /** The textbook controller: proportional, integral and derivative terms over the whole run. */
  function Sum(xs: seq<int>): int { if xs == [] then 0 else Sum(xs[..|xs| - 1]) + xs[|xs| - 1] }
  function Recent(xs: seq<int>, back: nat): int { if back < |xs| then xs[|xs| - 1 - back] else 0 }
  function Ideal(kp: int, ki: int, kd: int, xs: seq<int>): int {
    kp * Recent(xs, 0) + ki * Sum(xs) + kd * (Recent(xs, 0) - Recent(xs, 1))
  }

  function Derived(kp: int, ki: int, kd: int): Gains { Gains(kp + ki + kd, -kp - 2 * kd, kd) }

  lemma Remembers(g: Gains, xs: seq<int>)
    ensures After(g, xs).x1 == Recent(xs, 0) && After(g, xs).x2 == Recent(xs, 1)
  {
  }

  /** The recurrence adds to the output what the textbook value gains. */
  lemma Telescopes(kp: int, ki: int, kd: int, xs: seq<int>)
    requires xs != []
    ensures var before := xs[..|xs| - 1];
      Ideal(kp, ki, kd, xs) - Ideal(kp, ki, kd, before)
      == (kp + ki + kd) * Recent(xs, 0) + (-kp - 2 * kd) * Recent(before, 0) + kd * Recent(before, 1)
  {
  }

  /** While nothing saturates the output trails the textbook value by less than one unit a sample. */
  lemma {:induction false} TracksTheTextbook(kp: int, ki: int, kd: int, xs: seq<int>)
    requires Unclipped(Derived(kp, ki, kd), xs)
    ensures 0 <= Ideal(kp, ki, kd, xs) - TWO_15 * After(Derived(kp, ki, kd), xs).y <= |xs| * (TWO_15 - 1)
  {
    if xs == [] {
    } else {
      var g, before, x := Derived(kp, ki, kd), xs[..|xs| - 1], xs[|xs| - 1];
      TracksTheTextbook(kp, ki, kd, before);
      Remembers(g, before);
      Telescopes(kp, ki, kd, xs);
      var s := After(g, before);
      assert Ideal(kp, ki, kd, xs) == Accumulated(g, s, x) + (Ideal(kp, ki, kd, before) - TWO_15 * s.y);
      assert After(g, xs).y == Accumulated(g, s, x) / TWO_15;
    }
  }

  lemma Product(x: int, y: int)
    requires IsQ15(x) && IsQ15(y)
    ensures -0x3FFF_8000 <= x * y <= 0x4000_0000
    ensures x * y == 0x4000_0000 ==> x == y == -TWO_15
  {
    var a, b := if x >= 0 then x else -x, if y >= 0 then y else -y;
    Sizes(a, b);
    assert x * y == if (x >= 0) == (y >= 0) then a * b else -(a * b);
  }

  lemma Sizes(a: nat, b: nat)
    requires a <= TWO_15 && b <= TWO_15
    ensures 0 <= a * b <= if a == b == TWO_15 then 0x4000_0000 else 0x3FFF_8000
  {
    MulMonotone(0, a, b);
    if a < TWO_15 {
      MulMonotone(a, TWO_15 - 1, b);
      MulMonotone(b, TWO_15, TWO_15 - 1);
    } else if b < TWO_15 {
      MulMonotone(b, TWO_15 - 1, a);
    }
  }

  lemma Bounded(g: Gains, s: State, x: int)
    requires IsGains(g) && IsState(s) && IsQ15(x)
    ensures -0x1_0000_0000 < g.a0 * x + g.a1 * s.x1 + g.a2 * s.x2 + s.y * TWO_15 < 0x1_0000_0000
    ensures -0x2_0000 <= Unsaturated(g, s, x) < 0x2_0000
  {
    Product(g.a0, x);
    Product(g.a1, s.x1);
    Product(g.a2, s.x2);
  }

  /** The controller of the cores without packed multiplication. `samples` is every input since the reset. */
  class Controller {
    var a0: int
    var a1: int
    var a2: int
    const state: array<int>
    ghost var samples: seq<int>

    ghost function Now(): State
      requires state.Length == 3
      reads state
    {
      State(state[0], state[1], state[2])
    }

    ghost predicate Valid()
      reads this, state
    {
      state.Length == 3 && IsGains(Gains(a0, a1, a2)) && IsState(Now()) && Now() == After(Gains(a0, a1, a2), samples)
    }

    constructor (g: Gains)
      requires IsGains(g)
      ensures Valid() && fresh(state) && Gains(a0, a1, a2) == g && samples == []
    {
      a0, a1, a2 := g.a0, g.a1, g.a2;
      state := new int[3](_ => 0);
      samples := [];
    }

    method Process(x: int) returns (out: int)
      requires Valid() && IsQ15(x)
      modifies this`samples, state
      ensures Valid() && samples == old(samples) + [x]
      ensures out == After(Gains(a0, a1, a2), samples).y
      ensures state[0] == x && state[1] == old(state[0]) && state[2] == out
      ensures var acc := a0 * x + a1 * old(state[0]) + a2 * old(state[1]) + 0x8000 * old(state[2]);
        out == if acc < -0x4000_0000 then -0x8000 else if acc < 0x4000_0000 then acc / 0x8000 else 0x7FFF
    {
      Bounded(Gains(a0, a1, a2), Now(), x);
      var acc := a0 * x;
      acc := acc + a1 * state[0];
      acc := acc + a2 * state[1];
      acc := acc + state[2] * TWO_15;
      PackedLanes.Powers();
      out := Ssat(acc / TWO_15, 16);
      state[1] := state[0];
      state[0] := x;
      state[2] := out;
      samples := samples + [x];
      assert samples[..|samples| - 1] == old(samples);
    }
  }

  /** The emulated dual multiplications. The sum of the two products is formed in 32 bits, where it can wrap. */
  function Products(x: int, y: int): int {
    PackedLanes.Field(x, 0x1_0000, 0x1_0000) * PackedLanes.Field(y, 0x1_0000, 0x1_0000)
    + PackedLanes.Field(x, 1, 0x1_0000) * PackedLanes.Field(y, 1, 0x1_0000)
  }

  function Smuad(x: int, y: int): int { ToU32(Products(x, y)) }
  function Smlald(x: int, y: int, sum: int): int { ToQ31(Products(x, y)) + sum }

  lemma ProductsOfLanes(x: int, y: int)
    requires PackedLanes.IsU32(x) && PackedLanes.IsU32(y)
    ensures Products(x, y) == PackedLanes.Lane16(x, 1) * PackedLanes.Lane16(y, 1)
      + PackedLanes.Lane16(x, 0x1_0000) * PackedLanes.Lane16(y, 0x1_0000)
  {
    PackedLanes.HalvesOf(x);
    PackedLanes.HalvesOf(y);
  }

  /** A 16-bit number widened to a word keeps its sign in the upper lane. */
  lemma Widened(v: int)
    requires IsQ15(v)
    ensures PackedLanes.Halves(ToU32(v), v, if v < 0 then -1 else 0)
  {
    if v < 0 {
      assert (v + TWO_32) / 0x1_0000 == 0xFFFF;
    } else {
      assert v / 0x1_0000 == 0;
    }
  }

  /** What the packed path accumulates: the signs of gain and sample are multiplied too, and the old samples can wrap. */
  function PackedAccumulated(g: Gains, s: State, x: int): int {
    g.a0 * x + (if g.a0 < 0 && x < 0 then 1 else 0) + ToQ31(g.a1 * s.x1 + g.a2 * s.x2) + s.y * TWO_15
  }

  function PackedStep(g: Gains, s: State, x: int): State {
    State(x, s.x1, Clamp(PackedAccumulated(g, s, x) / TWO_15, -TWO_15, TWO_15 - 1))
  }

  /** Both old products at their maximum: the one sum that does not fit 32 bits. */
  predicate Corner(g: Gains, s: State) { g.a1 == s.x1 == g.a2 == s.x2 == -TWO_15 }

  lemma WrapsInTheCorner(g: Gains, s: State)
    requires IsGains(g) && IsState(s)
    ensures ToQ31(g.a1 * s.x1 + g.a2 * s.x2) == g.a1 * s.x1 + g.a2 * s.x2 - (if Corner(g, s) then TWO_32 else 0)
  {
    Product(g.a1, s.x1);
    Product(g.a2, s.x2);
    var sum := g.a1 * s.x1 + g.a2 * s.x2;
    if Corner(g, s) {
      assert sum == TWO_31;
    } else {
      assert IsQ31(sum);
    }
  }

  /**
    * From the same state the two paths differ by at most one unit exactly outside the corner, and there by one unit
    * exactly when the extra sign product carries into the quotient and the quotient is not saturated.
    */
  lemma PathsAgree(g: Gains, s: State, x: int)
    requires IsGains(g) && IsState(s) && IsQ15(x)
    ensures var d, q := PackedStep(g, s, x).y - Step(g, s, x).y, Unsaturated(g, s, x);
      && (!Corner(g, s) <==> -1 <= d <= 1)
      && (!Corner(g, s) ==> d == if g.a0 < 0 && x < 0 && (Accumulated(g, s, x) + 1) % TWO_15 == 0
                                  && -TWO_15 <= q < TWO_15 - 1 then 1 else 0)
  {
    WrapsInTheCorner(g, s);
    var acc, carry := Accumulated(g, s, x), if g.a0 < 0 && x < 0 then 1 else 0;
    if Corner(g, s) {
      Product(g.a0, x);
      assert g.a1 * s.x1 == 0x4000_0000 && g.a2 * s.x2 == 0x4000_0000;
      assert 0 <= acc <= TWO_32 - TWO_15;
      assert PackedAccumulated(g, s, x) == acc + carry - TWO_32;
    } else {
      assert PackedAccumulated(g, s, x) == acc + carry;
    }
  }

  lemma FirstProduct(a0: int, x: int)
    requires IsQ15(a0) && IsQ15(x)
    ensures ToQ31(Smuad(ToU32(a0), ToU32(x))) == a0 * x + (if a0 < 0 && x < 0 then 1 else 0)
  {
    Widened(a0);
    Widened(x);
    ProductsOfLanes(ToU32(a0), ToU32(x));
    var first := a0 * x + (if a0 < 0 && x < 0 then 1 else 0);
    assert Products(ToU32(a0), ToU32(x)) == first by {
      hide PackedLanes.Lane16, ToU32, Products;
    }
    hide Products;
    Product(a0, x);
    Signed(first);
  }

  lemma Signed(v: int)
    requires IsQ31(v)
    ensures ToQ31(ToU32(v)) == v
  {
  }

  lemma SecondProducts(g: Gains, s: State, word: int)
    requires IsGains(g) && IsState(s) && PackedLanes.Halves(word, g.a1, g.a2)
    ensures Products(word, PackedLanes.Pack16(s.x1, s.x2)) == g.a1 * s.x1 + g.a2 * s.x2
  {
    hide PackedLanes.Lane16, PackedLanes.Pack16, Products;
    PackedLanes.Packed16(s.x1, s.x2);
    ProductsOfLanes(word, PackedLanes.Pack16(s.x1, s.x2));
  }

  lemma PackedPath(g: Gains, s: State, x: int, word: int)
    requires IsGains(g) && IsState(s) && IsQ15(x) && PackedLanes.Halves(word, g.a1, g.a2)
    ensures var acc := Smlald(word, PackedLanes.Pack16(s.x1, s.x2), ToQ31(Smuad(ToU32(g.a0), ToU32(x)))) + s.y * TWO_15;
      acc == PackedAccumulated(g, s, x) && ToQ31(acc / TWO_15) == acc / TWO_15
  {
    hide PackedLanes.Lane16, PackedLanes.Pack16, PackedLanes.Halves, Products, Smuad, ToU32, ToQ31;
    FirstProduct(g.a0, x);
    SecondProducts(g, s, word);
    Product(g.a0, x);
    Narrowed(g.a1 * s.x1 + g.a2 * s.x2);
    Small(PackedAccumulated(g, s, x));
  }

  lemma Narrowed(v: int)
    ensures IsQ31(ToQ31(v))
  {
  }

  lemma Small(acc: int)
    requires -0x2_0000_0000 <= acc < 0x2_0000_0000
    ensures ToQ31(acc / TWO_15) == acc / TWO_15
  {
  }

  /** What a packed step computes, in full. */
  lemma PackedStepInFull(g: Gains, s: State, x: int)
    requires IsGains(g) && IsState(s) && IsQ15(x)
    ensures var sum := g.a1 * s.x1 + g.a2 * s.x2;
      var acc := g.a0 * x + (if g.a0 < 0 && x < 0 then 1 else 0)
        + (if sum == 0x8000_0000 then -0x8000_0000 else sum) + 0x8000 * s.y;
      PackedStep(g, s, x).y
      == if acc < -0x4000_0000 then -0x8000 else if acc < 0x4000_0000 then acc / 0x8000 else 0x7FFF
  {
    WrapsInTheCorner(g, s);
    Product(g.a1, s.x1);
    Product(g.a2, s.x2);
    hide ToQ31;
  }

  /** The controller of the other cores. The gains of the old samples share one word, low half first. */
  class PackedController {
    var a0: int
    var a1: int
    const state: array<int>

    ghost function Gained(): Gains
      reads this
    {
      Gains(a0, PackedLanes.Lane16(a1, 1), PackedLanes.Lane16(a1, 0x1_0000))
    }

    ghost function Now(): State
      requires state.Length == 3
      reads state
    {
      State(state[0], state[1], state[2])
    }

    ghost predicate Valid()
      reads this, state
    {
      state.Length == 3 && IsQ15(a0) && PackedLanes.IsU32(a1) && IsState(Now())
    }

    constructor (a0: int, a1: int)
      requires IsQ15(a0) && PackedLanes.IsU32(a1)
      ensures Valid() && fresh(state) && this.a0 == a0 && this.a1 == a1 && Now() == State(0, 0, 0)
    {
      this.a0, this.a1 := a0, a1;
      state := new int[3](_ => 0);
    }

    method Process(x: int) returns (out: int)
      requires Valid() && IsQ15(x)
      modifies state
      ensures Valid() && Now() == PackedStep(Gained(), old(Now()), x) && out == Now().y
      ensures state[0] == x && state[1] == old(state[0]) && state[2] == out
      ensures var sum := Gained().a1 * old(state[0]) + Gained().a2 * old(state[1]);
        var acc := a0 * x + (if a0 < 0 && x < 0 then 1 else 0)
          + (if sum == 0x8000_0000 then -0x8000_0000 else sum) + 0x8000 * old(state[2]);
        out == if acc < -0x4000_0000 then -0x8000 else if acc < 0x4000_0000 then acc / 0x8000 else 0x7FFF
    {
      PackedStepInFull(Gained(), Now(), x);
      PackedPath(Gained(), Now(), x, a1);
      hide *;
      var acc := ToQ31(Smuad(ToU32(a0), ToU32(x)));
      acc := Smlald(a1, PackedLanes.Pack16(state[0], state[1]), acc);
      acc := acc + state[2] * TWO_15;
      out := Clamp(ToQ31(acc / TWO_15), -TWO_15, TWO_15 - 1);
      state[1] := state[0];
      state[0] := x;
      state[2] := out;
    }
  }

  // -------------------------------------------------------------------------------------
  // The 31-bit controller
  // -------------------------------------------------------------------------------------

  /** What one sample adds to the output, before anything wraps. */
  function Gain31(g: Gains, x: int, x1: int, x2: int): int { (g.a0 * x + g.a1 * x1 + g.a2 * x2) / 0x8000_0000 }

  function Total31(g: Gains, xs: seq<int>): int {
    if xs == [] then 0
    else var before := xs[..|xs| - 1]; Total31(g, before) + Gain31(g, xs[|xs| - 1], Recent(before, 0), Recent(before, 1))
  }

  lemma TurnQ31(x: int, turns: int)
    ensures ToQ31(x + turns * TWO_32) == ToQ31(x)
  {
    WrapQ31(ToQ31(x), (x + TWO_31) / TWO_32 + turns);
  }

  lemma TurnQ63(x: int, turns: int)
    ensures ToQ63(x + turns * (2 * TWO_63)) == ToQ63(x)
  {
    Remainder(x + turns * (2 * TWO_63) + TWO_63, (x + TWO_63) / (2 * TWO_63) + turns, ToQ63(x) + TWO_63, 2 * TWO_63);
  }

  /** An accumulator that has wrapped gives the same low word of the quotient. */
  lemma WrappedQuotient(acc: int)
    ensures ToQ31(ToQ63(acc) / TWO_31) == ToQ31(acc / TWO_31)
  {
    var turns := (acc + TWO_63) / (2 * TWO_63);
    assert ToQ63(acc) == acc - turns * (2 * TWO_63);
    assert ToQ63(acc) / TWO_31 == acc / TWO_31 - 2 * turns * TWO_32;
    TurnQ31(acc / TWO_31, -2 * turns);
    hide ToQ31, ToQ63;
  }

  lemma WrappedSum(a: int, b: int)
    ensures ToQ63(ToQ63(a) + b) == ToQ63(a + b)
    ensures ToQ31(ToQ31(a) + b) == ToQ31(a + b) == ToQ31(a + ToQ31(b))
  {
    TurnQ63(a + b, -((a + TWO_63) / (2 * TWO_63)));
    TurnQ31(a + b, -((a + TWO_31) / TWO_32));
    TurnQ31(a + b, -((b + TWO_31) / TWO_32));
  }

  lemma Congruent(v: int)
    ensures IsQ31(ToQ31(v)) && (ToQ31(v) - v) % 0x1_0000_0000 == 0
  {
  }

  lemma TotalOfOneMore(g: Gains, xs: seq<int>, x: int)
    ensures Total31(g, xs + [x]) == Total31(g, xs) + Gain31(g, x, Recent(xs, 0), Recent(xs, 1))
    ensures Recent(xs + [x], 0) == x && Recent(xs + [x], 1) == Recent(xs, 0)
  {
    assert (xs + [x])[..|xs|] == xs;
  }

  /** No value is saturated: the promised saturation of a sum comes out when it fits, and at two numbers that do not. */
  lemma SaturatesQ31(g: Gains, s: State, x: int)
    requires IsQ31(g.a0) && IsQ31(g.a1) && IsQ31(g.a2) && IsQ31(s.x1) && IsQ31(s.x2) && IsQ31(s.y) && IsQ31(x)
    ensures var v := Gain31(g, x, s.x1, s.x2) + s.y;
      ToQ31(v) == Clamp(v, -0x8000_0000, 0x7FFF_FFFF)
      <==> -0x8000_0000 <= v <= 0x7FFF_FFFF || v == 0x1_7FFF_FFFF || v == -0x1_8000_0000
  {
    Magnitude(g.a0, TWO_31, x);
    Magnitude(g.a1, TWO_31, s.x1);
    Magnitude(g.a2, TWO_31, s.x2);
  }

  /** The unwrapped total trails the textbook value by less than one unit a sample. */
  lemma {:induction false} TotalTracks(kp: int, ki: int, kd: int, xs: seq<int>)
    ensures 0 <= Ideal(kp, ki, kd, xs) - TWO_31 * Total31(Derived(kp, ki, kd), xs) <= |xs| * (TWO_31 - 1)
  {
    if xs == [] {
    } else {
      var g, before := Derived(kp, ki, kd), xs[..|xs| - 1];
      TotalTracks(kp, ki, kd, before);
      Telescopes(kp, ki, kd, xs);
      var acc := g.a0 * xs[|xs| - 1] + g.a1 * Recent(before, 0) + g.a2 * Recent(before, 1);
      assert Ideal(kp, ki, kd, xs) == Ideal(kp, ki, kd, before) + acc;
      assert Total31(g, xs) == Total31(g, before) + acc / TWO_31;
    }
  }

  /**
    * While the textbook value is in range the output is within one unit a sample of it, whatever has wrapped before:
    * an overflow is undone when the value comes back.
    */
  lemma RecoversFromOverflow(kp: int, ki: int, kd: int, xs: seq<int>)
    requires (|xs| - 0x8000_0000) * 0x8000_0000 <= Ideal(kp, ki, kd, xs) < 0x8000_0000 * 0x8000_0000
    ensures var y := ToQ31(Total31(Derived(kp, ki, kd), xs));
      0 <= Ideal(kp, ki, kd, xs) - 0x8000_0000 * y <= |xs| * 0x7FFF_FFFF
  {
    TotalTracks(kp, ki, kd, xs);
    hide Total31, Ideal;
    WrapQ31(Total31(Derived(kp, ki, kd), xs), 0);
  }

  class ControllerQ31 {
    var a0: int
    var a1: int
    var a2: int
    const state: array<int>
    ghost var samples: seq<int>

    /** The output is the total of all gains, of which 32 bits are left. */
    ghost predicate Valid()
      reads this, state
    {
      && state.Length == 3
      && state[0] == Recent(samples, 0) && state[1] == Recent(samples, 1)
      && state[2] == ToQ31(Total31(Gains(a0, a1, a2), samples))
    }

    constructor (g: Gains)
      ensures Valid() && fresh(state) && Gains(a0, a1, a2) == g && samples == []
    {
      a0, a1, a2 := g.a0, g.a1, g.a2;
      state := new int[3](_ => 0);
      samples := [];
    }

    /** `arm_pid_q31`. Its sums wrap. */
    method Process(x: int) returns (out: int)
      requires Valid()
      modifies this`samples, state
      ensures Valid() && samples == old(samples) + [x]
      ensures state[0] == x && state[1] == old(state[0]) && state[2] == out
      ensures var v := (a0 * x + a1 * old(state[0]) + a2 * old(state[1])) / 0x8000_0000 + old(state[2]);
        -0x8000_0000 <= out < 0x8000_0000 && (out - v) % 0x1_0000_0000 == 0
    {
      hide ToQ31, ToQ63, Total31, Recent;
      ghost var gain, total := Gain31(Gains(a0, a1, a2), x, state[0], state[1]), Total31(Gains(a0, a1, a2), samples);
      TotalOfOneMore(Gains(a0, a1, a2), samples, x);
      WrappedSum(a0 * x + a1 * state[0], a2 * state[1]);
      WrappedQuotient(a0 * x + a1 * state[0] + a2 * state[1]);
      WrappedSum(gain, state[2]);
      WrappedSum(gain, total);
      Congruent(gain + state[2]);
      var acc := a0 * x;
      acc := ToQ63(acc + a1 * state[0]);
      acc := ToQ63(acc + a2 * state[1]);
      out := ToQ31(acc / TWO_31);
      out := ToQ31(out + state[2]);
      state[1] := state[0];
      state[0] := x;
      state[2] := out;
      samples := samples + [x];
    }
  }
}
