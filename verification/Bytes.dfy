/** Bytes, and the RAM from which the drivers fetch what they send. */
module Bytes {
  type uint8 = x: int | 0 <= x < 0x100
  type uint16 = x: int | 0 <= x < 0x1_0000

  /** RAM as the DMA sees it: every address has a byte, also those past the end of a buffer. */
  type Memory = int -> uint8

  /** The truncating conversion to `uint8_t`. */
  function ToUint8(x: int): uint8 {
    x % 0x100
  }

  /** The `n` bytes that start at `address`. */
  function Fetch(ram: Memory, address: int, n: nat): (bytes: seq<uint8>)
    ensures |bytes| == n
  {
    seq(n, i requires 0 <= i < n => ram(address + i))
  }

  /** A fetch may be cut anywhere: this is why a pointer that moves by what was sent loses nothing. */
  lemma FetchSplit(ram: Memory, address: int, n: nat, m: nat)
    ensures Fetch(ram, address, n + m) == Fetch(ram, address, n) + Fetch(ram, address + n, m)
  {
  }
}
