/** Reversal of the bits of a word, for the cores that have no instruction for it. */
module BitReverse {
  function Bit(v: bv32, i: bv32): bv32
    requires i < 32
  {
    (v >> i) & 1
  }

  /** Mirroring as a network: exchange neighbours, then pairs, nibbles, bytes and halves. */
  function Mirror(v: bv32): bv32 {
    var a := ((v >> 1) & 0x5555_5555) | ((v & 0x5555_5555) << 1);
    var b := ((a >> 2) & 0x3333_3333) | ((a & 0x3333_3333) << 2);
    var c := ((b >> 4) & 0x0F0F_0F0F) | ((b & 0x0F0F_0F0F) << 4);
    var d := ((c >> 8) & 0x00FF_00FF) | ((c & 0x00FF_00FF) << 8);
    (d >> 16) | (d << 16)
  }

  lemma MirrorTwice(v: bv32)
    ensures Mirror(Mirror(v)) == v
  {
  }

  lemma MirrorBit(v: bv32, i: bv32)
    requires i < 32
    ensures Bit(Mirror(v), i) == Bit(v, 31 - i)
  {
  }

  /** What the loop has left of `v` when `s` shifts are to come, and what it has built of the mirror image, from the top. */
  predicate Left(v: bv32, s: bv32, value: bv32) { s < 32 && value == v >> (32 - s) }
  predicate Built(r: bv32, s: bv32, m: bv32) { s < 32 && r << s == (m >> s) << s }

  lemma First(v: bv32)
    ensures Left(v, 31, v >> 1) && Built(v, 31, Mirror(v))
  {
  }

  lemma ShiftIn(r: bv32, s: bv32, m: bv32, bit: bv32)
    requires 0 < s < 32 && r << s == (m >> s) << s && bit == (m >> (s - 1)) & 1
    ensures ((r << 1) | bit) << (s - 1) == (m >> (s - 1)) << (s - 1)
  {
  }

  lemma NextBuilt(r: bv32, s: bv32, m: bv32, bit: bv32)
    requires 0 < s && Built(r, s, m) && bit == Bit(m, s - 1)
    ensures Built((r << 1) | bit, s - 1, m)
  {
    ShiftIn(r, s, m, bit);
  }

  lemma ShiftOut(v: bv32, s: bv32)
    requires 0 < s < 32
    ensures (v >> (32 - s)) >> 1 == v >> (32 - (s - 1))
  {
  }

  lemma NextLeft(v: bv32, s: bv32, value: bv32)
    requires 0 < s && Left(v, s, value)
    ensures Left(v, s - 1, value >> 1) && value & 1 == Bit(v, 32 - s)
  {
    ShiftOut(v, s);
  }

  lemma SomeLeft(v: bv32, s: bv32, value: bv32)
    requires Left(v, s, value) && value != 0
    ensures s != 0
  {
  }

  lemma Smaller(value: bv32)
    requires value != 0
    ensures value >> 1 < value
  {
  }

  lemma Next(v: bv32, r: bv32, s: bv32, value: bv32)
    requires Left(v, s, value) && value != 0 && Built(r, s, Mirror(v))
    ensures s != 0 && value >> 1 < value
    ensures Left(v, s - 1, value >> 1) && Built((r << 1) | (value & 1), s - 1, Mirror(v))
  {
    hide Mirror, Built, Bit;
    SomeLeft(v, s, value);
    Smaller(value);
    NextLeft(v, s, value);
    hide Left;
    MirrorBit(v, s - 1);
    Opposite(s);
    NextBuilt(r, s, Mirror(v), value & 1);
  }

  lemma Opposite(s: bv32)
    ensures 31 - (s - 1) == 32 - s
  {
  }

  lemma Last(v: bv32, r: bv32, s: bv32)
    requires Left(v, s, 0) && Built(r, s, Mirror(v))
    ensures r << s == Mirror(v)
  {
    hide Mirror;
    LowZeros(v, s, s);
    ShiftedBack(s, Mirror(v));
  }

  lemma ShiftedBack(s: bv32, m: bv32)
    requires s < 32 && m << (32 - s) == 0
    ensures (m >> s) << s == m
  {
  }

  /** When the loop ends early, the bits of the mirror image it has not reached are zero. */
  lemma {:induction false} LowZeros(v: bv32, s: bv32, j: bv32)
    requires s < 32 && j <= s && v >> (32 - s) == 0
    ensures Mirror(v) << (32 - j) == 0
    decreases j
  {
    if j == 0 {
      AllOut(Mirror(v));
    } else {
      LowZeros(v, s, j - 1);
      MirrorBit(v, j - 1);
      HighZero(v, s, j - 1);
      hide Mirror;
      OneMoreZero(Mirror(v), j);
    }
  }

  lemma HighZero(v: bv32, s: bv32, i: bv32)
    requires i < s < 32 && v >> (32 - s) == 0
    ensures Bit(v, 31 - i) == 0
  {
  }

  lemma OneMoreZero(m: bv32, j: bv32)
    requires 0 < j < 32 && m << (33 - j) == 0 && Bit(m, j - 1) == 0
    ensures m << (32 - j) == 0
  {
  }

  lemma AllOut(m: bv32)
    ensures m << 32 == 0
  {
  }

  /** `__RBIT`: the loop ends early when no bits are left, and the last shift makes up for it. */
  method Rbit(v: bv32) returns (result: bv32)
    ensures result == Mirror(v)
    ensures forall i: bv32 :: i < 32 ==> Bit(result, i) == Bit(v, 31 - i)
  {
    hide *;
    var s: bv32 := 31;
    result := v;
    var value := v >> 1;
    First(v);
    while value != 0
      invariant s < 32 && Left(v, s, value) && Built(result, s, Mirror(v))
      decreases value
    {
      Next(v, result, s, value);
      result := result << 1;
      result := result | (value & 1);
      s := s - 1;
      value := value >> 1;
    }
    Last(v, result, s);
    result := result << s;
    forall i: bv32 | i < 32
      ensures Bit(result, i) == Bit(v, 31 - i)
    {
      MirrorBit(v, i);
    }
  }
}
