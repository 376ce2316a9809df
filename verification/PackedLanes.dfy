/** Saturating arithmetic on the bytes and half-words packed into one 32-bit word. */
module PackedLanes {
  import opened Arithmetic
  import opened FixedPoint

  predicate IsU32(x: int) { 0 <= x < TWO_32 }

  /** What the lanes of a word mean: the byte, or half-word, that starts at the place value `unit`, as a signed number. */
  function Lane8(word: int, unit: int): int
    requires unit > 0
  {
    ToQ7(word / unit)
  }

  function Lane16(word: int, unit: int): int
    requires unit > 0
  {
    ToQ15(word / unit)
  }

  /** The word with these lanes, lowest first. */
  predicate Bytes(word: int, b0: int, b1: int, b2: int, b3: int) {
    && IsU32(word)
    && Lane8(word, 1) == b0 && Lane8(word, 0x100) == b1 && Lane8(word, 0x1_0000) == b2 && Lane8(word, 0x100_0000) == b3
  }

  predicate Halves(word: int, h0: int, h1: int) {
    IsU32(word) && Lane16(word, 1) == h0 && Lane16(word, 0x1_0000) == h1
  }

  /** `((q31_t)x << n) >> m`: the field moved to the top, then down again with its sign. `left` and `right` are the powers. */
  function Field(x: int, left: int, right: int): int
    requires right > 0
  {
    ToQ31(ToQ31(x) * left) / right
  }

  /** A field at the top of a word comes down with its own sign, whatever is below it and beyond the word. */
  lemma SignedField(v: int, g: int, low: int, turns: int, right: int, half: int)
    requires v == g * right + low + turns * TWO_32
    requires 0 <= low < right && half * right == TWO_31 && -half <= g < half
    ensures ToQ31(v) / right == g
  {
    MulMonotone(-half, g, right);
    MulMonotone(g + 1, half, right);
    WrapQ31(g * right + low, turns);
    DivideExactly(g * right + low, g, low, right);
  }

  /** Where a shift to the left takes the parts of a word: `high` out of it, the field of size `2 * half` to its top. */
  lemma Shifted(x: int, high: int, f: int, low: int, unit: int, left: int, right: int, size: int)
    requires x == (high * size + f) * unit + low
    requires unit * left == right && size * right == TWO_32
    ensures x * left == f * right + low * left + high * TWO_32
  {
  }

  lemma FieldAt(x: int, unit: int, left: int, right: int, half: int, g: int, low: int, high: int)
    requires IsU32(x) && x == (high * (2 * half) + g) * unit + low
    requires 0 < left && 0 <= low < unit && unit * left == right && half * right == TWO_31 && -half <= g < half
    ensures Field(x, left, right) == g
  {
    var sign := if x < TWO_31 then 0 else 1;
    WrapQ31(x - sign * TWO_32, sign);
    Shifted(x, high, g, low, unit, left, right, 2 * half);
    MulMonotone(low + 1, unit, left);
    MulMonotone(0, low, left);
    SignedField((x - sign * TWO_32) * left, g, low * left, high - sign * left, right, half);
  }

  lemma Byte(x: int, unit: int, left: int)
    requires IsU32(x) && 0 < unit && 0 < left && unit * left == 0x100_0000
    ensures Field(x, left, 0x100_0000) == Lane8(x, unit)
  {
    var y := x / unit;
    var g := ToQ7(y);
    FieldAt(x, unit, left, 0x100_0000, 0x80, g, x % unit, (y - g) / 0x100);
  }

  lemma Half(x: int, unit: int, left: int)
    requires IsU32(x) && 0 < unit && 0 < left && unit * left == 0x1_0000
    ensures Field(x, left, 0x1_0000) == Lane16(x, unit)
  {
    var y := x / unit;
    var g := ToQ15(y);
    FieldAt(x, unit, left, 0x1_0000, 0x8000, g, x % unit, (y - g) / 0x1_0000);
  }

  lemma BytesOf(x: int)
    requires IsU32(x)
    ensures Bytes(x, Field(x, 0x100_0000, 0x100_0000), Field(x, 0x1_0000, 0x100_0000),
                  Field(x, 0x100, 0x100_0000), Field(x, 1, 0x100_0000))
  {
    hide Field, Lane8;
    Byte(x, 1, 0x100_0000);
    Byte(x, 0x100, 0x1_0000);
    Byte(x, 0x1_0000, 0x100);
    Byte(x, 0x100_0000, 1);
  }

  lemma HalvesOf(x: int)
    requires IsU32(x)
    ensures Halves(x, Field(x, 0x1_0000, 0x1_0000), Field(x, 1, 0x1_0000))
  {
    hide Field, Lane16;
    Half(x, 1, 0x1_0000);
    Half(x, 0x1_0000, 1);
  }

  lemma Powers()
    ensures Pow2(7) == 0x80 && Pow2(8) == 0x100 && Pow2(15) == 0x8000 && Pow2(16) == 0x1_0000 && Pow2(24) == 0x100_0000
  {
  }

  /** Bitwise or of two numbers, bit by bit. */
  function Or(a: nat, b: nat): (r: nat)
    decreases a + b
  {
    if a == 0 && b == 0 then 0 else 2 * Or(a / 2, b / 2) + (if a % 2 == 1 || b % 2 == 1 then 1 else 0)
  }

  /** Two fields that do not overlap are put together by addition. */
  lemma {:induction false} OrDisjoint(high: nat, low: nat, n: nat)
    requires low < Pow2(n)
    ensures Or(high * Pow2(n), low) == high * Pow2(n) + low
  {
    if n == 0 {
      OrZero(high);
    } else {
      var p := Pow2(n - 1);
      assert high * Pow2(n) == 2 * (high * p);
      OrDisjoint(high, low / 2, n - 1);
    }
  }

  lemma {:induction false} OrZero(a: nat)
    ensures Or(a, 0) == a
  {
    if a == 0 {
    } else {
      OrZero(a / 2);
    }
  }

  /** The words the functions return: fields masked to their width, shifted into place and or-ed. */
  function Pack8(r: int, s: int, t: int, u: int): nat {
    Or(Or(Or(Mask8(u) * 0x100_0000, Mask8(t) * 0x1_0000), Mask8(s) * 0x100), Mask8(r))
  }

  function Pack16(r: int, s: int): nat {
    Or(Mask16(s) * 0x1_0000, Mask16(r))
  }

  /** A conjunction with 0xFF, or 0xFFFF, keeps the residue of a two's complement number. */
  function Mask8(x: int): (m: nat)
    ensures m < 0x100
  {
    x % 0x100
  }

  function Mask16(x: int): (m: nat)
    ensures m < 0x1_0000
  {
    x % 0x1_0000
  }

  lemma OrBytes(a: nat, b: nat, c: nat, d: nat)
    requires a < 0x100 && b < 0x100 && c < 0x100
    ensures Or(Or(Or(d * 0x100_0000, c * 0x1_0000), b * 0x100), a)
      == ((d * 0x100 + c) * 0x100 + b) * 0x100 + a
  {
    hide Or;
    Powers();
    OrDisjoint(d, c * 0x1_0000, 24);
    OrDisjoint(d * 0x100 + c, b * 0x100, 16);
    OrDisjoint(d * 0x1_0000 + c * 0x100 + b, a, 8);
  }

  /** The lanes of a word put together from fields are the numbers the fields were cut from. */
  lemma Packed8(r: int, s: int, t: int, u: int)
    requires IsQ7(r) && IsQ7(s) && IsQ7(t) && IsQ7(u)
    ensures Bytes(Pack8(r, s, t, u), r, s, t, u)
  {
    hide Mask8, ToQ7, Or;
    var a, b, c, d := Mask8(r), Mask8(s), Mask8(t), Mask8(u);
    OrBytes(a, b, c, d);
    Low8(r, (d * 0x100 + c) * 0x100 + b);
    Low8(s, d * 0x100 + c);
    Low8(t, d);
    Low8(u, 0);
    Places(a, b, c, d);
  }

  lemma Places(a: nat, b: nat, c: nat, d: nat)
    requires a < 0x100 && b < 0x100 && c < 0x100 && d < 0x100
    ensures var w := ((d * 0x100 + c) * 0x100 + b) * 0x100 + a;
      && w / 0x100 == (d * 0x100 + c) * 0x100 + b && w / 0x1_0000 == d * 0x100 + c && w / 0x100_0000 == d
  {
  }

  lemma Low8(r: int, high: int)
    requires IsQ7(r)
    ensures ToQ7(high * 0x100 + Mask8(r)) == r
  {
  }

  lemma Low16(r: int, high: int)
    requires IsQ15(r)
    ensures ToQ15(high * 0x1_0000 + Mask16(r)) == r
  {
  }

  lemma Packed16(r: int, s: int)
    requires IsQ15(r) && IsQ15(s)
    ensures Halves(Pack16(r, s), r, s)
  {
    hide Mask16, ToQ15, Or;
    var a, b := Mask16(r), Mask16(s);
    OrHalves(a, b);
    Low16(r, b);
    Low16(s, 0);
    DivideExactly(b * 0x1_0000 + a, b, a, 0x1_0000);
  }

  lemma OrHalves(a: nat, b: nat)
    requires a < 0x1_0000
    ensures Or(b * 0x1_0000, a) == b * 0x1_0000 + a
  {
    Powers();
    OrDisjoint(b, a, 16);
  }

  /** `Sat8` and `Sat16` are the saturations of section A7.7 of the Armv7-M Architecture Reference Manual. */
  function Sat8(x: int): int { Clamp(x, -TWO_7, TWO_7 - 1) }
  function Sat16(x: int): int { Clamp(x, -TWO_15, TWO_15 - 1) }

  method QAdd8(x: int, y: int) returns (w: int)
    requires IsU32(x) && IsU32(y)
    ensures Bytes(w, Sat8(Lane8(x, 1) + Lane8(y, 1)), Sat8(Lane8(x, 0x100) + Lane8(y, 0x100)),
                  Sat8(Lane8(x, 0x1_0000) + Lane8(y, 0x1_0000)), Sat8(Lane8(x, 0x100_0000) + Lane8(y, 0x100_0000)))
  {
    BytesOf(x);
    BytesOf(y);
    Powers();
    hide Field, Lane8, Pack8;
    var r := Ssat(Field(x, 0x100_0000, 0x100_0000) + Field(y, 0x100_0000, 0x100_0000), 8);
    var s := Ssat(Field(x, 0x1_0000, 0x100_0000) + Field(y, 0x1_0000, 0x100_0000), 8);
    var t := Ssat(Field(x, 0x100, 0x100_0000) + Field(y, 0x100, 0x100_0000), 8);
    var u := Ssat(Field(x, 1, 0x100_0000) + Field(y, 1, 0x100_0000), 8);
    Packed8(r, s, t, u);
    w := Pack8(r, s, t, u);
  }

  method QSub8(x: int, y: int) returns (w: int)
    requires IsU32(x) && IsU32(y)
    ensures Bytes(w, Sat8(Lane8(x, 1) - Lane8(y, 1)), Sat8(Lane8(x, 0x100) - Lane8(y, 0x100)),
                  Sat8(Lane8(x, 0x1_0000) - Lane8(y, 0x1_0000)), Sat8(Lane8(x, 0x100_0000) - Lane8(y, 0x100_0000)))
  {
    BytesOf(x);
    BytesOf(y);
    Powers();
    hide Field, Lane8, Pack8;
    var r := Ssat(Field(x, 0x100_0000, 0x100_0000) - Field(y, 0x100_0000, 0x100_0000), 8);
    var s := Ssat(Field(x, 0x1_0000, 0x100_0000) - Field(y, 0x1_0000, 0x100_0000), 8);
    var t := Ssat(Field(x, 0x100, 0x100_0000) - Field(y, 0x100, 0x100_0000), 8);
    var u := Ssat(Field(x, 1, 0x100_0000) - Field(y, 1, 0x100_0000), 8);
    Packed8(r, s, t, u);
    w := Pack8(r, s, t, u);
  }

  method QAdd16(x: int, y: int) returns (w: int)
    requires IsU32(x) && IsU32(y)
    ensures Halves(w, Sat16(Lane16(x, 1) + Lane16(y, 1)), Sat16(Lane16(x, 0x1_0000) + Lane16(y, 0x1_0000)))
  {
    HalvesOf(x);
    HalvesOf(y);
    Powers();
    hide Field, Lane16, Pack16;
    var r := Ssat(Field(x, 0x1_0000, 0x1_0000) + Field(y, 0x1_0000, 0x1_0000), 16);
    var s := Ssat(Field(x, 1, 0x1_0000) + Field(y, 1, 0x1_0000), 16);
    Packed16(r, s);
    w := Pack16(r, s);
  }

  method QSub16(x: int, y: int) returns (w: int)
    requires IsU32(x) && IsU32(y)
    ensures Halves(w, Sat16(Lane16(x, 1) - Lane16(y, 1)), Sat16(Lane16(x, 0x1_0000) - Lane16(y, 0x1_0000)))
  {
    HalvesOf(x);
    HalvesOf(y);
    Powers();
    hide Field, Lane16, Pack16;
    var r := Ssat(Field(x, 0x1_0000, 0x1_0000) - Field(y, 0x1_0000, 0x1_0000), 16);
    var s := Ssat(Field(x, 1, 0x1_0000) - Field(y, 1, 0x1_0000), 16);
    Packed16(r, s);
    w := Pack16(r, s);
  }

  /** The two that exchange the halves of the second word. */
  method QAsx(x: int, y: int) returns (w: int)
    requires IsU32(x) && IsU32(y)
    ensures Halves(w, Sat16(Lane16(x, 1) - Lane16(y, 0x1_0000)), Sat16(Lane16(x, 0x1_0000) + Lane16(y, 1)))
  {
    HalvesOf(x);
    HalvesOf(y);
    Powers();
    hide Field, Lane16, Pack16;
    var r := Ssat(Field(x, 0x1_0000, 0x1_0000) - Field(y, 1, 0x1_0000), 16);
    var s := Ssat(Field(x, 1, 0x1_0000) + Field(y, 0x1_0000, 0x1_0000), 16);
    Packed16(r, s);
    w := Pack16(r, s);
  }

  method QSax(x: int, y: int) returns (w: int)
    requires IsU32(x) && IsU32(y)
    ensures Halves(w, Sat16(Lane16(x, 1) + Lane16(y, 0x1_0000)), Sat16(Lane16(x, 0x1_0000) - Lane16(y, 1)))
  {
    HalvesOf(x);
    HalvesOf(y);
    Powers();
    hide Field, Lane16, Pack16;
    var r := Ssat(Field(x, 0x1_0000, 0x1_0000) + Field(y, 1, 0x1_0000), 16);
    var s := Ssat(Field(x, 1, 0x1_0000) - Field(y, 0x1_0000, 0x1_0000), 16);
    Packed16(r, s);
    w := Pack16(r, s);
  }
}
