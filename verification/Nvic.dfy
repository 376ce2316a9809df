/** Interrupt priorities, four to a word, of the cores whose priority registers are accessed by words. */
module Nvic {
  predicate IsShift(sh: bv32) { sh == 0 || sh == 8 || sh == 16 || sh == 24 }

  /** The byte of a word, and a word with one byte replaced. */
  function ByteAt(word: bv32, sh: bv32): bv32
    requires IsShift(sh)
  {
    (word >> sh) & 0xFF
  }

  function WithByte(word: bv32, sh: bv32, b: bv32): bv32
    requires IsShift(sh)
  {
    (word & !((0xFF as bv32) << sh)) | ((b & 0xFF) << sh)
  }

  lemma ByteWritten(word: bv32, sh: bv32, b: bv32)
    requires IsShift(sh)
    ensures ByteAt(WithByte(word, sh, b), sh) == b & 0xFF
  {
  }

  lemma OtherByteKept(word: bv32, sh: bv32, b: bv32, other: bv32)
    requires IsShift(sh) && IsShift(other) && sh != other
    ensures ByteAt(WithByte(word, sh, b), other) == ByteAt(word, other)
  {
    if sh == 0 {
      Byte0Written(word, b);
    } else if sh == 8 {
      Byte1Written(word, b);
    } else if sh == 16 {
      Byte2Written(word, b);
    } else {
      Byte3Written(word, b);
    }
    hide ByteAt, WithByte;
  }

  /** One by one: the other bytes of a word with one byte replaced. */
  lemma Byte0Written(word: bv32, b: bv32)
    ensures var w := WithByte(word, 0, b);
      ByteAt(w, 8) == ByteAt(word, 8) && ByteAt(w, 16) == ByteAt(word, 16) && ByteAt(w, 24) == ByteAt(word, 24)
  {
  }

  lemma Byte1Written(word: bv32, b: bv32)
    ensures var w := WithByte(word, 8, b);
      ByteAt(w, 0) == ByteAt(word, 0) && ByteAt(w, 16) == ByteAt(word, 16) && ByteAt(w, 24) == ByteAt(word, 24)
  {
  }

  lemma Byte2Written(word: bv32, b: bv32)
    ensures var w := WithByte(word, 16, b);
      ByteAt(w, 0) == ByteAt(word, 0) && ByteAt(w, 8) == ByteAt(word, 8) && ByteAt(w, 24) == ByteAt(word, 24)
  {
  }

  lemma Byte3Written(word: bv32, b: bv32)
    ensures var w := WithByte(word, 24, b);
      ByteAt(w, 0) == ByteAt(word, 0) && ByteAt(w, 8) == ByteAt(word, 8) && ByteAt(w, 16) == ByteAt(word, 16)
  {
  }

  /** A priority is kept in the upper bits of its byte. What comes back is its residue. */
  function Residue(priority: bv32, bits: bv32): bv32
    requires bits <= 8
  {
    priority & ((1 << bits) - 1)
  }

  lemma KeptInUpperBits(priority: bv32, bits: bv32)
    requires bits <= 8
    ensures (Moved(priority, bits) & 0xFF) >> (8 - bits) == Residue(priority, bits)
  {
  }

  /** Core exceptions have negative numbers. */
  predicate IsIrq(irq: int) { -8 <= irq < 32 }

  function Shift(irq: int): (sh: bv32)
    ensures IsShift(sh)
  {
    match irq % 4
    case 0 => 0
    case 1 => 8
    case 2 => 16
    case _ => 24
  }

  /** The register word of an interrupt: core exceptions have two, from number -8 on, external interrupts eight. */
  function Index(irq: int): (i: nat)
    requires IsIrq(irq)
    ensures if irq < 0 then i < 2 else i < 8
  {
    if irq < 0 then (irq % 16 - 8) / 4 else irq / 4
  }

  lemma OwnByte(irq: int, other: int)
    requires IsIrq(irq) && IsIrq(other) && irq != other && (irq < 0) == (other < 0) && Index(irq) == Index(other)
    ensures Shift(irq) != Shift(other)
  {
  }

  /** A priority moved to the bits of its byte that are kept. */
  function Moved(priority: bv32, bits: bv32): bv32
    requires bits <= 8
  {
    (priority << (8 - bits)) & 0xFF
  }

  function Kept(b: bv32, bits: bv32): bv32
    requires bits <= 8
  {
    b >> (8 - bits)
  }

  /** Byte `n` of a word, counted from its low end. */
  function ByteNumber(word: bv32, n: int): bv32
    requires 0 <= n < 4
  {
    match n
    case 0 => word & 0xFF
    case 1 => (word >> 8) & 0xFF
    case 2 => (word >> 16) & 0xFF
    case _ => (word >> 24) & 0xFF
  }

  /** The byte of a priority register that a priority makes. */
  function PriorityByte(priority: bv32, bits: bv32): bv32
    requires bits <= 8
  {
    (priority & ((1 << bits) - 1)) << (8 - bits)
  }

  lemma MovedResidue(priority: bv32, bits: bv32)
    requires bits <= 8
    ensures Moved(priority, bits) & 0xFF == PriorityByte(priority, bits)
  {
  }

  lemma NumberIsAt(word: bv32, n: int)
    requires 0 <= n < 4
    ensures ByteNumber(word, n) == ByteAt(word, Shift(n))
  {
  }

  lemma ShiftOfNumber(irq: int, n: int)
    requires 0 <= n < 4
    ensures Shift(irq) == Shift(n) <==> n == irq % 4
  {
  }

  /** A write of one byte of a word, seen byte by byte. */
  lemma BytesAfterWrite(word: bv32, irq: int, b: bv32, n: int)
    requires 0 <= n < 4
    ensures ByteNumber(WithByte(word, Shift(irq), b), n) == if n == irq % 4 then b & 0xFF else ByteNumber(word, n)
  {
    hide ByteAt, WithByte, ByteNumber, Shift;
    NumberIsAt(WithByte(word, Shift(irq), b), n);
    NumberIsAt(word, n);
    ShiftOfNumber(irq, n);
    if n == irq % 4 {
      ByteWritten(word, Shift(irq), b);
    } else {
      OtherByteKept(word, Shift(irq), b, Shift(n));
    }
  }

  /** The number of an interrupt from its word and byte: external ones start with 0, core exceptions with -8. */
  lemma NumberFromPlace(irq: int, w: int, n: int)
    requires IsIrq(irq) && 0 <= n < 4
    ensures irq >= 0 ==> (irq == 4 * w + n <==> w == Index(irq) && n == irq % 4)
    ensures irq < 0 ==> (irq == 4 * w + n - 8 <==> w == Index(irq) && n == irq % 4)
  {
  }

  class Controller {
    const ip: array<bv32>
    const shp: array<bv32>
    const bits: bv32

    ghost predicate Valid() { ip.Length == 8 && shp.Length == 2 && ip != shp && bits <= 8 }

    constructor (bits: bv32)
      requires bits <= 8
      ensures Valid() && fresh(ip) && fresh(shp) && this.bits == bits
    {
      ip, shp := new bv32[8], new bv32[2];
      this.bits := bits;
    }

    ghost function Priority(irq: int): bv32
      requires Valid() && IsIrq(irq)
      reads ip, shp
    {
      Kept(ByteAt(if irq < 0 then shp[Index(irq)] else ip[Index(irq)], Shift(irq)), bits)
    }

    method SetPriority(irq: int, priority: bv32)
      requires Valid() && IsIrq(irq)
      modifies ip, shp
      ensures Priority(irq) == Residue(priority, bits)
      ensures forall other :: IsIrq(other) && other != irq ==> Priority(other) == old(Priority(other))
      // on the registers, four to a word: external interrupts from number 0 on, core exceptions from number -8 on
      ensures forall w, n :: 0 <= w < 8 && 0 <= n < 4 ==>
                ByteNumber(ip[w], n) == if irq == 4 * w + n then PriorityByte(priority, bits) else old(ByteNumber(ip[w], n))
      ensures forall w, n :: 0 <= w < 2 && 0 <= n < 4 ==>
                ByteNumber(shp[w], n) == if irq == 4 * w + n - 8 then PriorityByte(priority, bits) else old(ByteNumber(shp[w], n))
    {
      hide ByteAt, WithByte, ByteNumber, PriorityByte, Residue, IsShift, Shift, Index, Moved, Kept;
      var b, shift, i := Moved(priority, bits), Shift(irq), Index(irq);
      ghost var word := if irq < 0 then shp[i] else ip[i];
      if irq < 0 {
        shp[i] := WithByte(shp[i], shift, b);
      } else {
        ip[i] := WithByte(ip[i], shift, b);
      }
      ReadBack(word, shift, priority, bits);
      MovedResidue(priority, bits);
      forall other | IsIrq(other) && other != irq
        ensures Priority(other) == old(Priority(other))
      {
        if (irq < 0) == (other < 0) && i == Index(other) {
          OwnByte(irq, other);
          OtherByteKept(word, shift, b, Shift(other));
        }
      }
      forall w, n | 0 <= w < 8 && 0 <= n < 4
        ensures ByteNumber(ip[w], n) == if irq == 4 * w + n then PriorityByte(priority, bits) else old(ByteNumber(ip[w], n))
      {
        NumberFromPlace(irq, w, n);
        BytesAfterWrite(word, irq, b, n);
      }
      forall w, n | 0 <= w < 2 && 0 <= n < 4
        ensures ByteNumber(shp[w], n) == if irq == 4 * w + n - 8 then PriorityByte(priority, bits) else old(ByteNumber(shp[w], n))
      {
        NumberFromPlace(irq, w, n);
        BytesAfterWrite(word, irq, b, n);
      }
    }

    method GetPriority(irq: int) returns (priority: bv32)
      requires Valid() && IsIrq(irq)
      ensures priority == Priority(irq)
      ensures priority == ByteNumber(if irq < 0 then shp[(irq + 8) / 4] else ip[irq / 4], irq % 4) >> (8 - bits)
    {
      var i := Index(irq);
      var word := if irq < 0 then shp[i] else ip[i];
      NumberIsAt(word, irq % 4);
      ShiftOfNumber(irq, irq % 4);
      NumberFromPlace(irq, i, irq % 4);
      hide ByteAt, ByteNumber, Shift, Index;
      priority := Kept(ByteAt(word, Shift(irq)), bits);
    }
  }

  lemma ReadBack(word: bv32, sh: bv32, priority: bv32, bits: bv32)
    requires IsShift(sh) && bits <= 8
    ensures Kept(ByteAt(WithByte(word, sh, Moved(priority, bits)), sh), bits) == Residue(priority, bits)
  {
    ByteWritten(word, sh, Moved(priority, bits));
    KeptInUpperBits(priority, bits);
    hide ByteAt, WithByte;
  }
}
