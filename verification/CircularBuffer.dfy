/** The circular buffer of 16-bit samples, written and read in blocks with unit increments. */
module CircularBuffer {
  import opened Arithmetic
  import opened FixedPoint

  /** The source's way around the buffer, a subtraction, is the remainder. */
  lemma StepAround(x: nat, length: nat)
    requires length > 0
    ensures (x + 1) % length == if x % length + 1 >= length then x % length + 1 - length else x % length + 1
  {
    var q, r := x / length, x % length;
    if r + 1 >= length {
      Remainder(x + 1, q + 1, 0, length);
    } else {
      Remainder(x + 1, q, r + 1, length);
    }
  }

  lemma Shift(a: nat, b: nat, length: nat)
    requires length > 0
    ensures (a % length + b) % length == (a + b) % length
  {
    var q, r := (a % length + b) / length, (a % length + b) % length;
    assert a + b == (a / length + q) * length + r;
    Remainder(a + b, a / length + q, r, length);
  }

  lemma Distinct(x: nat, y: nat, length: nat)
    requires x < y < x + length
    ensures x % length != y % length
  {
    if x % length == y % length {
      var turns := y / length - x / length;
      assert y - x == turns * length;
      if turns >= 1 {
        MulMonotone(1, turns, length);
      } else {
        MulMonotone(turns, 0, length);
      }
      assert false;
    }
  }

  /** The cell that is `k` steps after `start`. */
  function Cell(start: nat, k: nat, length: nat): (c: nat)
    requires length > 0
    ensures c < length
  {
    (start + k) % length
  }

  /** The ring holds the end of the stream, as much as fits, sample `k` at the residue of `start + k`. */
  predicate Holds(ring: seq<int>, stream: seq<int>, start: nat)
    requires |ring| > 0
  {
    forall k :: 0 <= k < |stream| && |stream| - |ring| <= k ==> ring[Cell(start, k, |ring|)] == stream[k]
  }

  lemma HoldsOneMore(ring: seq<int>, stream: seq<int>, start: nat, v: int)
    requires |ring| > 0 && Holds(ring, stream, start)
    ensures Holds(ring[Cell(start, |stream|, |ring|) := v], stream + [v], start)
  {
    var p, more := Cell(start, |stream|, |ring|), stream + [v];
    forall k | 0 <= k < |more| && |more| - |ring| <= k
      ensures ring[p := v][Cell(start, k, |ring|)] == more[k]
    {
      if k < |stream| {
        Distinct(start + k, start + |stream|, |ring|);
      }
    }
  }

  /** The cells of the ring that a stream of `n` samples has not reached are as they were. */
  predicate Untouched(ring: seq<int>, before: seq<int>, start: nat, n: nat)
    requires |ring| == |before| > 0
  {
    forall k :: n <= k < |ring| ==> ring[Cell(start, k, |ring|)] == before[Cell(start, k, |ring|)]
  }

  lemma UntouchedOneMore(ring: seq<int>, before: seq<int>, start: nat, n: nat, v: int)
    requires |ring| == |before| > 0 && Untouched(ring, before, start, n)
    ensures Untouched(ring[Cell(start, n, |ring|) := v], before, start, n + 1)
  {
    forall k | n + 1 <= k < |ring|
      ensures ring[Cell(start, n, |ring|) := v][Cell(start, k, |ring|)] == before[Cell(start, k, |ring|)]
    {
      Distinct(start + n, start + k, |ring|);
    }
  }

  /** The samples met going around from an offset. */
  function Around(ring: seq<int>, offset: nat, count: nat): (s: seq<int>)
    requires |ring| > 0
    ensures |s| == count
  {
    seq(count, j requires 0 <= j < count => ring[Cell(offset, j, |ring|)])
  }

  /** Reading from as many samples back as are asked for gives the last samples of the stream in order. */
  lemma ReadsTheLast(ring: seq<int>, stream: seq<int>, count: nat)
    requires |ring| > 0 && Holds(ring, stream, 0) && count <= |stream| && count <= |ring|
    ensures Around(ring, (|stream| - count) % |ring|, count) == stream[|stream| - count..]
  {
    var from := |stream| - count;
    forall j | 0 <= j < count
      ensures ring[Cell(from % |ring|, j, |ring|)] == stream[from + j]
    {
      Shift(from, j, |ring|);
    }
  }

  lemma AroundOneMore(ring: seq<int>, offset: nat, count: nat)
    requires |ring| > 0
    ensures Around(ring, offset, count + 1) == Around(ring, offset, count) + [ring[Cell(offset, count, |ring|)]]
  {
  }

  /** The source's way around a ring. */
  lemma NextCell(start: nat, k: nat, length: nat)
    requires length > 0
    ensures var c := Cell(start, k, length); Cell(start, k + 1, length) == if c + 1 >= length then c + 1 - length else c + 1
  {
    StepAround(start + k, length);
  }

  lemma FirstCell(start: nat, length: nat)
    requires start < length
    ensures Cell(start, 0, length) == start
  {
  }

  class RingBuffer {
    const circBuffer: array<int>
    var writeOffset: nat
    ghost var stream: seq<int>

    ghost predicate Valid()
      reads this, circBuffer
    {
      && 0 < circBuffer.Length <= 0x1_0000
      && writeOffset == |stream| % circBuffer.Length
      && Holds(circBuffer[..], stream, 0)
    }

    constructor (length: nat)
      requires 0 < length <= 0x1_0000
      ensures Valid() && fresh(circBuffer) && circBuffer.Length == length && stream == []
    {
      circBuffer := new int[length];
      writeOffset, stream := 0, [];
    }

    /** `arm_circularWrite_q15`. The offset is kept in 16 bits, so the buffer is not longer than 2^16. */
    method Write(src: seq<int>)
      requires Valid()
      modifies this, circBuffer
      ensures Valid() && stream == old(stream) + src
    {
      var wOffset := writeOffset;
      var i := |src|;
      while i > 0
        invariant 0 <= i <= |src| && stream == old(stream) + src[..|src| - i]
        invariant wOffset == |stream| % circBuffer.Length && Holds(circBuffer[..], stream, 0)
      {
        var sample := src[|src| - i];
        HoldsOneMore(circBuffer[..], stream, 0, sample);
        StepAround(|stream|, circBuffer.Length);
        circBuffer[wOffset] := sample;
        stream := stream + [sample];
        wOffset := wOffset + 1;
        if wOffset >= circBuffer.Length {
          wOffset := wOffset - circBuffer.Length;
        }
        i := i - 1;
      }
      writeOffset := ToU16(wOffset);
    }

    /** `arm_circularRead_q15` into a destination that is a ring of its own, written from the index `start`. */
    method Read(readOffset: nat, dst: array<int>, start: nat, blockSize: nat) returns (newOffset: nat)
      requires Valid() && readOffset < circBuffer.Length && start < dst.Length && dst != circBuffer
      modifies dst
      ensures Valid() && newOffset == Cell(readOffset, blockSize, circBuffer.Length)
      ensures Holds(dst[..], Around(circBuffer[..], readOffset, blockSize), start)
      ensures Untouched(dst[..], old(dst[..]), start, blockSize)
    {
      newOffset := readOffset;
      var to := start;
      FirstCell(readOffset, circBuffer.Length);
      FirstCell(start, dst.Length);
      hide Cell, Untouched;
      ghost var ring, done := circBuffer[..], 0;
      var i := blockSize;
      while i > 0
        invariant done == blockSize - i && 0 <= i <= blockSize && circBuffer[..] == ring
        invariant newOffset == Cell(readOffset, done, circBuffer.Length) && to == Cell(start, done, dst.Length)
        invariant Holds(dst[..], Around(ring, readOffset, done), start)
        invariant Untouched(dst[..], old(dst[..]), start, done)
      {
        hide Holds, Around;
        var sample := circBuffer[newOffset];
        HoldsOneMore(dst[..], Around(ring, readOffset, done), start, sample);
        UntouchedOneMore(dst[..], old(dst[..]), start, done, sample);
        AroundOneMore(ring, readOffset, done);
        NextCell(readOffset, done, circBuffer.Length);
        NextCell(start, done, dst.Length);
        assert dst[..][to := sample] == dst[..][Cell(start, done, dst.Length) := sample];
        dst[to] := sample;
        to := to + 1;
        if to == dst.Length {
          to := 0;
        }
        newOffset := newOffset + 1;
        if newOffset >= circBuffer.Length {
          newOffset := newOffset - circBuffer.Length;
        }
        i := i - 1;
        done := done + 1;
      }
    }
  }
}
