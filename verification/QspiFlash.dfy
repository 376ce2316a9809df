/**
  The QSPI driver of the on-board flash, over a model of the device: a status register with write-in-progress
  and write-enable bits, two configuration registers, and a memory that can only be programmed page by page,
  by clearing bits. A page program that runs past the end of its page wraps to its beginning.
 */
module QspiFlash {
  import opened Arithmetic

  type Word = bv8

  const ERASED: Word := 0xFF

  datatype Status = QspiOk | QspiError | QspiNotSupported

  /** How a call of the HAL ends: well, or after the first `reached` bytes of its data (a command without
      data is executed when `reached` is positive). */
  datatype Outcome = Good | Failed(reached: nat)

  /** The status register: write in progress, write-enable latch, quad enable, and its other bits. */
  datatype StatusRegister = StatusRegister(wip: bool, wel: bool, qe: bool, rest: Word)

  /** The second configuration register: the switch to high performance, and its other bits. */
  datatype ConfigRegister2 = ConfigRegister2(lhSwitch: bool, rest: Word)

  /** The transfer that the last command has set up. */
  datatype Transfer =
    | PageProgram(address: nat, count: nat)
    | ReadData(address: nat, count: nat)
    | ReadStatus(count: nat)
    | ReadConfiguration(count: nat)
    | WriteRegisters(count: nat)
    | ResetEnable

  /** What the driver waits for when it polls the status register. */
  datatype Awaited = WriteEnabled | NotBusy

  /** A write to the status register reaches neither the busy bit nor the write-enable latch; the latter is
      consumed, and the device is busy for a while. */
  function StatusWritten(value: StatusRegister): StatusRegister {
    value.(wip := true, wel := false)
  }

  function Overwritten(reg: Word, value: Word, writable: Word): Word {
    (reg & !writable) | (value & writable)
  }

  /** The device programs up to a page of data: it stays within the page, and wraps in it. */
  function Programmed(mem: seq<Word>, page: nat, address: nat, data: seq<Word>): (r: seq<Word>)
    requires page > 0
    ensures |r| == |mem|
  {
    seq(|mem|, a requires 0 <= a < |mem| =>
      if a / page == address / page && (a - address) % page < |data| then mem[a] & data[(a - address) % page] else mem[a])
  }

  predicate Aligned(page: nat, address: nat)
    requires page > 0
  {
    address % page == 0
  }

  predicate WithinPage(page: nat, address: nat, n: nat)
    requires page > 0
  {
    address % page + n <= page
  }

  /** What is left of the page from an address on. */
  function PageRest(page: nat, address: nat): (n: nat)
    requires page > 0
    ensures 0 < n <= page
  {
    page - address % page
  }

  /** Where chunk `j` of a write begins: the first chunk runs to the end of its page, the others are pages. */
  function ChunkStart(page: nat, address: nat, j: nat): (k: nat)
    requires page > 0
    ensures j > 0 ==> k > 0
  {
    if j == 0 then 0 else if j == 1 then PageRest(page, address) else ChunkStart(page, address, j - 1) + page
  }

  /** Every chunk but the first begins where a page begins, and the chunks take the pages in order. */
  lemma {:induction false} ChunkStartsAPage(page: nat, address: nat, j: nat)
    requires page > 0 && j > 0
    ensures address + ChunkStart(page, address, j) == page * (address / page + j)
  {
    if j == 1 {
      assert address == page * (address / page) + address % page;
      assert page * (address / page + 1) == page * (address / page) + page;
    } else {
      ChunkStartsAPage(page, address, j - 1);
      assert page * (address / page + (j - 1)) + page == page * (address / page + j);
    }
  }

  function Min(a: nat, b: nat): nat { if a < b then a else b }

  /** The calls that one chunk takes: write enable and its polling, command, data, polling of the end. */
  const CALLS_PER_CHUNK: nat := 5

  /**
    * What a write of `size` bytes has stored when its call number `c`, counted from 0, is the one that fails: every
    * chunk before the one that the call belongs to, and of that one nothing before its data are transmitted, some
    * prefix when the transmission fails, and all of it when only the polling of the end does.
    */
  predicate StoredAtFailure(page: nat, address: nat, size: nat, c: nat, n: nat)
    requires page > 0
  {
    var j, step := c / CALLS_PER_CHUNK, c % CALLS_PER_CHUNK;
    var start, end := ChunkStart(page, address, j), Min(size, ChunkStart(page, address, j + 1));
    start < size && start <= n <= end && (step < 3 ==> n == start) && (step == 4 ==> n == end)
  }

  /** A write of `size` bytes is as many chunks as it takes to reach its end. */
  predicate IsChunkCount(page: nat, address: nat, size: nat, chunks: nat)
    requires page > 0
  {
    chunks > 0 && ChunkStart(page, address, chunks - 1) < size <= ChunkStart(page, address, chunks)
  }

  /** The calls of a write that stores all of its `size` bytes. */
  predicate AllChunks(page: nat, address: nat, size: nat, calls: nat)
    requires page > 0
  {
    calls % CALLS_PER_CHUNK == 0 && IsChunkCount(page, address, size, calls / CALLS_PER_CHUNK)
  }

  lemma CallsOfChunks(page: nat, address: nat, size: nat, j: nat)
    requires page > 0 && IsChunkCount(page, address, size, j)
    ensures AllChunks(page, address, size, CALLS_PER_CHUNK * j)
  {
    hide IsChunkCount;
  }

  lemma StepOfChunk(page: nat, address: nat, size: nat, j: nat, calls: nat, n: nat)
    requires page > 0 && ChunkStart(page, address, j) < size && 0 < calls <= CALLS_PER_CHUNK
    requires var start, end := ChunkStart(page, address, j), Min(size, ChunkStart(page, address, j + 1));
      start <= n <= end && (calls <= 3 ==> n == start) && (calls == 5 ==> n == end)
    ensures StoredAtFailure(page, address, size, CALLS_PER_CHUNK * j + calls - 1, n)
  {
  }

  /** What a write is to leave: the data in place, ANDed with what was there, and nothing else changed. */
  function Merged(mem: seq<Word>, address: nat, data: seq<Word>): (r: seq<Word>)
    ensures |r| == |mem|
  {
    seq(|mem|, a requires 0 <= a < |mem| =>
      if address <= a < address + |data| then mem[a] & data[a - address] else mem[a])
  }

  /** Within one page nothing wraps. */
  lemma ProgramInPage(mem: seq<Word>, page: nat, address: nat, data: seq<Word>)
    requires page > 0 && WithinPage(page, address, |data|)
    ensures Programmed(mem, page, address, data) == Merged(mem, address, data)
  {
    forall a | 0 <= a < |mem|
      ensures Programmed(mem, page, address, data)[a] == Merged(mem, address, data)[a]
    {
      InPage(page, address, a, |data|);
    }
  }

  lemma InPage(page: nat, address: nat, a: nat, n: nat)
    requires page > 0 && address % page + n <= page
    ensures a / page == address / page && (a - address) % page < n <==> address <= a < address + n
    ensures address <= a < address + n ==> (a - address) % page == a - address
  {
    var q, r := address / page, address % page;
    assert address == page * q + r;
    if address <= a < address + n {
      Quotient(page, q, r + (a - address));
      Quotient(page, 0, a - address);
    } else if a / page == q {
      assert a == page * q + a % page;
      if a < address {
        Quotient(page, -1, page + (a - address));
      } else {
        Quotient(page, 0, a - address);
      }
    }
  }

  lemma Quotient(page: nat, q: int, r: nat)
    requires r < page
    ensures (page * q + r) / page == q && (page * q + r) % page == r
  {
    DivideExactly(page * q + r, q, r, page);
    Remainder(page * q + r, q, r, page);
  }

  /** `after` is `before` with the first `n` bytes of the data written, and nothing else changed. */
  predicate WrittenUpTo(before: seq<Word>, address: nat, data: seq<Word>, n: nat, after: seq<Word>) {
    n <= |data| && after == Merged(before, address, data[..n])
  }

  /** The next `n` bytes of the data, written after what comes before them, go on with the write. */
  lemma WriteOn(before: seq<Word>, address: nat, data: seq<Word>, k: nat, n: nat, mem: seq<Word>, after: seq<Word>)
    requires WrittenUpTo(before, address, data, k, mem) && WrittenUpTo(mem, address + k, data[k..], n, after)
    ensures WrittenUpTo(before, address, data, k + n, after)
  {
  }

  predicate AllAnded(before: seq<Word>, address: nat, data: seq<Word>, after: seq<Word>) {
    && |after| == |before|
    && forall a :: 0 <= a < |after| ==>
         after[a] == if address <= a < address + |data| then before[a] & data[a - address] else before[a]
  }

  /** All of the data written is each byte of them ANDed with what was in its place. */
  lemma WholeWrite(before: seq<Word>, address: nat, data: seq<Word>, after: seq<Word>)
    requires WrittenUpTo(before, address, data, |data|, after)
    ensures AllAnded(before, address, data, after)
  {
    assert data[..|data|] == data;
  }

  /** Data written over erased flash reads back. */
  lemma ErasedReadsBack(mem: seq<Word>, address: nat, data: seq<Word>)
    requires address + |data| <= |mem|
    requires forall a :: address <= a < address + |data| ==> mem[a] == ERASED
    ensures Merged(mem, address, data)[address..address + |data|] == data
  {
  }

  lemma OverwrittenBySelf(reg: Word, writable: Word)
    ensures Overwritten(reg, reg, writable) == reg
  {
  }

  class Flash {
    // the device
    const capacity: nat
    const pageSize: nat
    const cr1Writable: Word
    const cr2Writable: Word
    const cr1Reset: Word
    const cr2Reset: ConfigRegister2
    var mem: seq<Word>
    var sr: StatusRegister
    var cr1: Word
    var cr2: ConfigRegister2

    // the interface
    var command: Transfer

    // how the calls of the HAL will end
    const outcome: nat -> Outcome
    var calls: nat

    ghost predicate Valid()
      reads this
    {
      0 < pageSize && pageSize + capacity < 0x1_0000_0000 && |mem| == capacity
    }

    /** Not busy, not write-enabled, in quad mode: the state that initialisation leaves. */
    predicate Ready()
      reads this
    {
      !sr.wip && !sr.wel && sr.qe
    }

    ghost predicate NoFault() {
      forall k :: outcome(k).Good?
    }

    ghost predicate AllGood(from: nat, to: nat) {
      forall k :: from <= k < to ==> outcome(k).Good?
    }

    /** The calls from `from` to `to` have all ended well if `ok`, and otherwise all but the last one, which failed. */
    ghost predicate Ran(from: nat, to: nat, ok: bool) {
      from < to && AllGood(from, to - 1) && (ok <==> outcome(to - 1).Good?)
    }

    method NextOutcome() returns (o: Outcome)
      modifies `calls
      ensures calls == old(calls) + 1 && o == outcome(old(calls))
    {
      o := outcome(calls);
      calls := calls + 1;
    }

    // -------------------------------------------------------------------------------------
    // The HAL, with what its commands do to the device
    // -------------------------------------------------------------------------------------

    /** A command sets up the transfer that is to follow. */
    method Command(transfer: Transfer) returns (ok: bool)
      modifies `command, `calls
      ensures calls == old(calls) + 1 && (ok <==> outcome(old(calls)).Good?)
      ensures ok ==> command == transfer
    {
      var o := NextOutcome();
      ok := o.Good?;
      if ok {
        command := transfer;
      }
    }

    /** Initialisation of the interface, or its undoing. */
    method Initialise() returns (ok: bool)
      modifies `calls
      ensures calls == old(calls) + 1 && (ok <==> outcome(old(calls)).Good?)
    {
      var o := NextOutcome();
      ok := o.Good?;
    }

    method WriteEnableCommand() returns (ok: bool)
      modifies `sr, `calls
      ensures calls == old(calls) + 1 && (ok <==> outcome(old(calls)).Good?)
      ensures sr == old(sr) || sr == old(sr).(wel := true)
      ensures ok ==> sr == if old(sr).wip then old(sr) else old(sr).(wel := true)
    {
      var o := NextOutcome();
      ok := o.Good?;
      if (ok || o.reached > 0) && !sr.wip {
        sr := sr.(wel := true);
      }
    }

    /** Data of a quad page program, as many as the command says. Without data the transfer is taken never to complete. */
    method TransmitProgram(source: seq<Word>) returns (ok: bool, ghost n: nat)
      requires Valid() && command.PageProgram? && command.count <= pageSize && command.count <= |source|
      modifies `mem, `sr, `calls
      ensures calls == old(calls) + 1 && (ok <==> outcome(old(calls)).Good? && command.count > 0)
      ensures Valid() && n <= command.count && (ok ==> n == command.count)
      ensures var accepted := old(sr).wel && !old(sr).wip && old(sr).qe;
              && mem == Programmed(old(mem), pageSize, command.address, if accepted then source[..n] else [])
              && sr == if accepted && n > 0 then old(sr).(wel := false, wip := true) else old(sr)
    {
      var o := NextOutcome();
      ok := o.Good? && command.count > 0;
      var reached := if o.Good? || o.reached > command.count then command.count else o.reached;
      n := reached;
      if sr.wel && !sr.wip && sr.qe {
        mem := Programmed(mem, pageSize, command.address, source[..reached]);
        if reached > 0 {
          sr := sr.(wel := false, wip := true);
        }
      } else {
        ProgramNothing(mem, pageSize, command.address);
      }
    }

    /** Data of a read, as many as the command says. Without data the transfer is taken never to complete. */
    method ReceiveData() returns (ok: bool, data: seq<Word>)
      requires Valid() && command.ReadData? && command.address + command.count <= |mem|
      modifies `calls
      ensures calls == old(calls) + 1 && (ok <==> outcome(old(calls)).Good? && command.count > 0)
      ensures ok ==> data == mem[command.address..command.address + command.count]
    {
      var o := NextOutcome();
      ok := o.Good? && command.count > 0;
      data := mem[command.address..command.address + command.count];
    }

    /** Data of a write to the registers: the status register, and both configuration registers if they follow. */
    method TransmitRegisters(status: StatusRegister, configuration: seq<(Word, ConfigRegister2)>) returns (ok: bool)
      requires |configuration| <= 1 && command == WriteRegisters(1 + 2 * |configuration|)
      modifies `sr, `cr1, `cr2, `calls
      ensures calls == old(calls) + 1 && (ok <==> outcome(old(calls)).Good?)
      ensures ok && old(sr).wel && !old(sr).wip ==>
                && sr == StatusWritten(status)
                && if configuration == [] then cr1 == old(cr1) && cr2 == old(cr2)
                   else && cr1 == Overwritten(old(cr1), configuration[0].0, cr1Writable)
                        && cr2 == ConfigRegister2(configuration[0].1.lhSwitch,
                                                  Overwritten(old(cr2).rest, configuration[0].1.rest, cr2Writable))
    {
      var o := NextOutcome();
      ok := o.Good?;
      if ok && sr.wel && !sr.wip {
        sr := StatusWritten(status);
        if configuration != [] {
          cr1 := Overwritten(cr1, configuration[0].0, cr1Writable);
          cr2 := ConfigRegister2(configuration[0].1.lhSwitch, Overwritten(cr2.rest, configuration[0].1.rest, cr2Writable));
        }
      }
    }

    /** Software reset: configuration registers to their defaults, write enable and operations cancelled. */
    method ResetCommand() returns (ok: bool)
      requires command == ResetEnable
      modifies `sr, `cr1, `cr2, `calls
      ensures calls == old(calls) + 1 && (ok <==> outcome(old(calls)).Good?)
      ensures ok ==> sr == old(sr).(wel := false, wip := true) && cr1 == cr1Reset && cr2 == cr2Reset
    {
      var o := NextOutcome();
      ok := o.Good?;
      if ok {
        sr, cr1, cr2 := sr.(wel := false, wip := true), cr1Reset, cr2Reset;
      }
    }

    /** Automatic polling: time passes, an operation in progress ends unless the polling fails. */
    method AutoPolling(awaited: Awaited) returns (ok: bool)
      modifies `sr, `calls
      ensures calls == old(calls) + 1 && (ok <==> outcome(old(calls)).Good? && (awaited == WriteEnabled ==> old(sr).wel))
      ensures sr == old(sr) || sr == old(sr).(wip := false)
      ensures ok ==> sr == old(sr).(wip := false)
    {
      var o := NextOutcome();
      if o.Good? || o.reached > 0 {
        sr := sr.(wip := false);
      }
      ok := o.Good? && match awaited case WriteEnabled => sr.wel case NotBusy => !sr.wip;
    }

    method ReceiveStatus() returns (ok: bool, reg: StatusRegister)
      requires command == ReadStatus(1)
      modifies `calls
      ensures calls == old(calls) + 1 && (ok <==> outcome(old(calls)).Good?)
      ensures ok ==> reg == sr
    {
      var o := NextOutcome();
      ok, reg := o.Good?, sr;
    }

    method ReceiveConfiguration() returns (ok: bool, reg1: Word, reg2: ConfigRegister2)
      requires command == ReadConfiguration(2)
      modifies `calls
      ensures calls == old(calls) + 1 && (ok <==> outcome(old(calls)).Good?)
      ensures ok ==> reg1 == cr1 && reg2 == cr2
    {
      var o := NextOutcome();
      ok, reg1, reg2 := o.Good?, cr1, cr2;
    }

    // -------------------------------------------------------------------------------------
    // The driver
    // -------------------------------------------------------------------------------------

    method AutoPollingMemReady() returns (status: Status)
      modifies `sr, `calls
      ensures calls == old(calls) + 1 && status == if outcome(old(calls)).Good? then QspiOk else QspiError
      ensures sr == old(sr) || sr == old(sr).(wip := false)
      ensures status == QspiOk ==> !sr.wip
    {
      var ok := AutoPolling(NotBusy);
      status := if ok then QspiOk else QspiError;
    }

    method WriteEnable() returns (status: Status)
      modifies `sr, `calls
      ensures sr == old(sr).(wip := sr.wip, wel := sr.wel)
      ensures status == QspiOk ==> sr.wel && !sr.wip && calls == old(calls) + 2
      ensures status != QspiNotSupported && calls <= old(calls) + 2
      ensures !old(sr).wip ==> Ran(old(calls), calls, status == QspiOk)
    {
      var ok := WriteEnableCommand();
      if !ok {
        return QspiError;
      }
      ok := AutoPolling(WriteEnabled);
      if !ok {
        return QspiError;
      }
      return QspiOk;
    }

    /** One page program of `size` bytes from `source`, with its own write enable: it leaves a prefix of them. */
    method ProgramChunk(address: nat, size: nat, source: seq<Word>) returns (status: Status, ghost n: nat)
      requires Valid() && Ready() && WithinPage(pageSize, address, size) && size <= |source|
      modifies `mem, `sr, `command, `calls
      ensures Valid() && n <= size && WrittenUpTo(old(mem), address, source, n, mem)
      ensures status == QspiOk ==> n == size > 0 && sr == old(sr) && calls == old(calls) + CALLS_PER_CHUNK
      ensures status != QspiNotSupported && calls <= old(calls) + CALLS_PER_CHUNK
      ensures size > 0 ==> Ran(old(calls), calls, status == QspiOk)
      ensures (calls <= old(calls) + 3 ==> n == 0) && (calls == old(calls) + 5 ==> n == size)
    {
      n := 0;
      MergedNothing(mem, address);
      assert source[..0] == [];
      status := WriteEnable();
      if status != QspiOk {
        return;
      }
      var ok := Command(PageProgram(address, size));
      if !ok {
        return QspiError, 0;
      }
      ok, n := TransmitProgram(source);
      ProgramInPage(old(mem), pageSize, address, source[..n]);
      if !ok {
        return QspiError, n;
      }
      status := AutoPollingMemReady();
    }

    /** Chunk `j` of a write that has come so far: the write goes on by a prefix of it. */
    method ProgramNext(ghost was: seq<Word>, writeAddr: nat, data: seq<Word>, k: nat, size: nat, ghost j: nat)
      returns (status: Status, ghost n: nat)
      requires Valid() && Ready() && ChunkAt(pageSize, writeAddr, |data|, j, k, size)
      requires WrittenUpTo(was, writeAddr, data, k, mem)
      modifies `mem, `sr, `command, `calls
      ensures Valid() && WrittenUpTo(was, writeAddr, data, n, mem)
      ensures status == QspiOk ==> n == k + size > k && sr == old(sr) && calls == old(calls) + CALLS_PER_CHUNK
      ensures status != QspiNotSupported
      ensures size > 0 ==> Ran(old(calls), calls, status == QspiOk)
      ensures size > 0 ==>
                calls > old(calls) &&
                StoredAtFailure(pageSize, writeAddr, |data|, CALLS_PER_CHUNK * j + (calls - old(calls)) - 1, n)
    {
      hide WithinPage, WrittenUpTo, Ran, StoredAtFailure, ChunkStart;
      ghost var sent, before := 0, mem;
      status, sent := ProgramChunk(writeAddr + k, size, data[k..]);
      WriteOn(was, writeAddr, data, k, sent, before, mem);
      n := k + sent;
      if size > 0 {
        RanSomething(old(calls), calls, status == QspiOk);
        StepOfChunk(pageSize, writeAddr, |data|, j, calls - old(calls), n);
      }
    }

    lemma RanSomething(from: nat, to: nat, ok: bool)
      requires Ran(from, to, ok)
      ensures from < to
    {
    }

    lemma NothingRan(from: nat)
      ensures AllGood(from, from)
    {
    }

    /** Calls that ended well, and the calls after them. */
    lemma RanOn(from: nat, mid: nat, to: nat, ok: bool)
      requires from <= mid && AllGood(from, mid) && Ran(mid, to, ok)
      ensures Ran(from, to, ok) && (ok ==> AllGood(from, to))
    {
    }

    /** Address and size of the chunk that follows chunk `j`, in 32-bit arithmetic. */
    method Advance(address: nat, chunk: nat, endAddr: nat, ghost writeAddr: nat, ghost j: nat)
      returns (nextAddr: nat, nextChunk: int)
      requires 0 < pageSize && endAddr + pageSize < 0x1_0000_0000 && writeAddr <= address && writeAddr <= endAddr
      requires 0 < chunk && ChunkAt(pageSize, writeAddr, endAddr - writeAddr, j, address - writeAddr, chunk)
      ensures nextAddr == address + chunk
      ensures if nextAddr < endAddr then ChunkAt(pageSize, writeAddr, endAddr - writeAddr, j + 1, nextAddr - writeAddr, nextChunk)
              else IsChunkCount(pageSize, writeAddr, endAddr - writeAddr, j + 1)
    {
      hide ToU32, ChunkAt, IsChunkCount, WithinPage;
      ChunkAfter(pageSize, writeAddr, endAddr - writeAddr, j, address - writeAddr, chunk);
      nextAddr := ToU32(address + chunk);
      nextChunk := if ToU32(nextAddr + pageSize) > endAddr then ToU32(endAddr - nextAddr) else pageSize;
    }

    /**
      * `BSP_QSPI_Write`. The calls before the last have ended well. When the last one fails, the flash holds what that
      * call says, and is otherwise unchanged; on success it holds all of the data, after the calls of all its chunks. A
      * write of no bytes fails.
      */
    method BspWrite(data: seq<Word>, writeAddr: nat) returns (status: Status, ghost n: nat)
      requires Valid() && Ready() && writeAddr + |data| <= capacity
      modifies `mem, `sr, `command, `calls
      ensures Valid() && WrittenUpTo(old(mem), writeAddr, data, n, mem)
      ensures status == QspiOk || status == QspiError
      ensures data == [] ==> status == QspiError
      ensures data != [] ==> Ran(old(calls), calls, status == QspiOk)
      ensures data != [] && status == QspiError ==>
                StoredAtFailure(pageSize, writeAddr, |data|, calls - old(calls) - 1, n)
      ensures status == QspiOk ==>
                n == |data| && sr == old(sr) && AllChunks(pageSize, writeAddr, |data|, calls - old(calls))
      ensures status == QspiOk ==> AllAnded(old(mem), writeAddr, data, mem)
    {
      n := 0;
      MergedNothing(mem, writeAddr);
      assert WrittenUpTo(mem, writeAddr, data, 0, mem);
      hide PageRest, ToU32, WithinPage, WrittenUpTo, ChunkAt, ChunkStart, StoredAtFailure;
      hide IsChunkCount, AllChunks, AllAnded, AllGood, Ran;
      FirstChunk(pageSize, writeAddr, |data|);
      NothingRan(calls);
      var currentSize := PageRest(pageSize, writeAddr);
      if currentSize > |data| {
        currentSize := |data|;
      }
      var currentAddr: nat, pData: nat := writeAddr, 0;
      var endAddr := ToU32(writeAddr + |data|);
      ghost var j := 0;
      while true
        invariant Valid() && sr == old(sr)
        invariant ChunkAt(pageSize, writeAddr, |data|, j, pData, currentSize)
        invariant n == pData && currentAddr == writeAddr + pData
        invariant WrittenUpTo(old(mem), writeAddr, data, n, mem)
        invariant currentAddr < endAddr || data == []
        invariant calls == old(calls) + CALLS_PER_CHUNK * j && AllGood(old(calls), calls)
        decreases endAddr - currentAddr
      {
        ghost var before := calls;
        status, n := ProgramNext(old(mem), writeAddr, data, pData, currentSize, j);
        if currentSize > 0 {
          RanOn(old(calls), before, calls, status == QspiOk);
        }
        if status != QspiOk {
          return;
        }
        pData := pData + currentSize;
        currentAddr, currentSize := Advance(currentAddr, currentSize, endAddr, writeAddr, j);
        j := j + 1;
        if currentAddr >= endAddr {
          CallsOfChunks(pageSize, writeAddr, |data|, j);
          WholeWrite(old(mem), writeAddr, data, mem);
          break;
        }
      }
    }

    /** `BSP_QSPI_Read`. */
    method BspRead(readAddr: nat, size: nat) returns (status: Status, data: seq<Word>)
      requires Valid() && Ready() && readAddr + size <= capacity
      modifies `command, `calls
      ensures status == QspiOk ==> data == mem[readAddr..readAddr + size]
      ensures status == if size > 0 && outcome(old(calls)).Good? && outcome(old(calls) + 1).Good? then QspiOk else QspiError
    {
      data := [];
      var ok := Command(ReadData(readAddr, size));
      if !ok {
        return QspiError, [];
      }
      ok, data := ReceiveData();
      status := if ok then QspiOk else QspiError;
    }

    /** What was written over erased flash is what is read. */
    method WriteThenRead(data: seq<Word>, address: nat) returns (status: Status, back: seq<Word>)
      requires Valid() && Ready() && address + |data| <= capacity
      requires forall a :: address <= a < address + |data| ==> mem[a] == ERASED
      modifies this
      ensures status == QspiOk ==> back == data
      ensures NoFault() && data != [] ==> status == QspiOk
    {
      ghost var n, was := 0, mem;
      back := [];
      status, n := BspWrite(data, address);
      if status == QspiOk {
        assert data[..n] == data;
        ErasedReadsBack(was, address, data);
        status, back := BspRead(address, |data|);
      }
    }

    method ResetMemory() returns (status: Status)
      modifies `sr, `cr1, `cr2, `command, `calls
      ensures status == QspiOk ==> sr == old(sr).(wip := false, wel := false) && cr1 == cr1Reset && cr2 == cr2Reset
      ensures status != QspiNotSupported && Ran(old(calls), calls, status == QspiOk)
      ensures status == QspiOk ==> calls == old(calls) + 3
    {
      var ok := Command(ResetEnable);
      if !ok {
        return QspiError;
      }
      ok := ResetCommand();
      if !ok {
        return QspiError;
      }
      status := AutoPollingMemReady();
    }

    /** The command that reads the status register, and its data. */
    method StatusNow() returns (ok: bool, reg: StatusRegister)
      modifies `command, `calls
      ensures Ran(old(calls), calls, ok) && (ok ==> reg == sr && calls == old(calls) + 2)
    {
      reg := sr;
      ok := Command(ReadStatus(1));
      if ok {
        ok, reg := ReceiveStatus();
      }
    }

    method ConfigurationNow() returns (ok: bool, reg1: Word, reg2: ConfigRegister2)
      modifies `command, `calls
      ensures Ran(old(calls), calls, ok) && (ok ==> reg1 == cr1 && reg2 == cr2 && calls == old(calls) + 2)
    {
      reg1, reg2 := cr1, cr2;
      ok := Command(ReadConfiguration(2));
      if ok {
        ok, reg1, reg2 := ReceiveConfiguration();
      }
    }

    /** The registers as they are but for two switches, under a write enable of their own. */
    method SetRegisters(status: StatusRegister, configuration: seq<(Word, ConfigRegister2)>) returns (ok: bool)
      requires !sr.wip && status.rest == sr.rest && |configuration| <= 1
      requires configuration != [] ==> configuration[0].0 == cr1 && configuration[0].1.rest == cr2.rest
      modifies `sr, `cr1, `cr2, `command, `calls
      ensures ok ==>
                && sr == old(sr).(qe := status.qe, wip := false, wel := false) && cr1 == old(cr1)
                && cr2 == if configuration == [] then old(cr2) else configuration[0].1
      ensures Ran(old(calls), calls, ok) && (ok ==> calls == old(calls) + 5)
    {
      var enabled := WriteEnable();
      if enabled != QspiOk {
        return false;
      }
      ok := Command(WriteRegisters(1 + 2 * |configuration|));
      if !ok {
        return false;
      }
      OverwrittenBySelf(cr1, cr1Writable);
      OverwrittenBySelf(cr2.rest, cr2Writable);
      ok := TransmitRegisters(status, configuration);
      if !ok {
        return false;
      }
      var ready := AutoPollingMemReady();
      return ready == QspiOk;
    }

    /** Read-modify-write of the status register alone. */
    method QuadMode(enable: bool) returns (status: Status)
      requires !sr.wip
      modifies `sr, `cr1, `cr2, `command, `calls
      ensures status == QspiOk ==>
                sr == old(sr).(qe := enable, wip := false, wel := false) && cr1 == old(cr1) && cr2 == old(cr2)
      ensures status != QspiNotSupported && Ran(old(calls), calls, status == QspiOk)
      ensures status == QspiOk ==> calls == old(calls) + 9
    {
      var ok, reg := StatusNow();
      if !ok {
        return QspiError;
      }
      reg := reg.(qe := enable);
      ok := SetRegisters(reg, []);
      if !ok {
        return QspiError;
      }
      ok, reg := StatusNow();
      if !ok || reg.qe != enable {
        return QspiError;
      }
      return QspiOk;
    }

    /** Read-modify-write of all three registers. */
    method HighPerfMode(enable: bool) returns (status: Status)
      requires !sr.wip
      modifies `sr, `cr1, `cr2, `command, `calls
      ensures status == QspiOk ==>
                sr == old(sr).(wip := false, wel := false) && cr1 == old(cr1) && cr2 == old(cr2).(lhSwitch := enable)
      ensures status != QspiNotSupported && Ran(old(calls), calls, status == QspiOk)
      ensures status == QspiOk ==> calls == old(calls) + 11
    {
      var ok, reg0 := StatusNow();
      if !ok {
        return QspiError;
      }
      var reg1, reg2;
      ok, reg1, reg2 := ConfigurationNow();
      if !ok {
        return QspiError;
      }
      reg2 := reg2.(lhSwitch := enable);
      ok := SetRegisters(reg0, [(reg1, reg2)]);
      if !ok {
        return QspiError;
      }
      ok, reg1, reg2 := ConfigurationNow();
      if !ok || reg2.lhSwitch != enable {
        return QspiError;
      }
      return QspiOk;
    }

    /**
      * `BSP_QSPI_Init`. It succeeds exactly when every call of the HAL ends well, all 26 of them. Then the quad mode
      * and the high-performance switch are on, every other bit of the registers is as the reset left it, and the
      * device is ready: neither busy nor write-enabled.
      */
    method BspInit() returns (status: Status)
      requires Valid()
      modifies this
      ensures Valid() && mem == old(mem)
      ensures status == QspiOk ==>
                && Ready()
                && sr == old(sr).(qe := true, wip := false, wel := false)
                && cr1 == cr1Reset && cr2 == cr2Reset.(lhSwitch := true)
      ensures Ran(old(calls), calls, status == QspiOk) && (status == QspiOk ==> calls == old(calls) + 26)
    {
      var ok := Initialise();
      if !ok {
        return QspiError;
      }
      ok := Initialise();
      if !ok {
        return QspiError;
      }
      status := ResetMemory();
      if status != QspiOk {
        return QspiNotSupported;
      }
      status := QuadMode(true);
      if status != QspiOk {
        return QspiError;
      }
      status := HighPerfMode(true);
      if status != QspiOk {
        return QspiError;
      }
      ok := Initialise();
      if !ok {
        return QspiError;
      }
      return QspiOk;
    }
  }

  /** The first chunk of a write ends where the next page begins. */
  lemma PageEnd(page: nat, address: nat)
    requires page > 0
    ensures Aligned(page, address + PageRest(page, address))
  {
    Quotient(page, address / page + 1, 0);
    assert address + (page - address % page) == page * (address / page + 1);
  }

  /** A chunk of `m` bytes at `a`, in a write that ends at `e`: within a page, and up to its end unless it is
      the last. */
  predicate IsChunk(page: nat, a: nat, e: nat, m: int): (r: bool)
    requires page > 0
    ensures r ==> 0 <= m <= e - a && WithinPage(page, a, m) && (m == 0 ==> a == e)
  {
    0 <= m && a + m <= e && (m == 0 ==> a == e) && WithinPage(page, a, m) && (a + m == e || Aligned(page, a + m))
  }

  /** Chunk `j` of a write of `size` bytes at `address` has the `m` bytes from byte `k` on, and they are not past a page. */
  predicate ChunkAt(page: nat, address: nat, size: nat, j: nat, k: nat, m: int): (r: bool)
    requires page > 0
    ensures r ==> 0 <= m && k + m <= size && WithinPage(page, address + k, m) && (m == 0 ==> k == size)
  {
    && k == ChunkStart(page, address, j) && k + m == Min(size, ChunkStart(page, address, j + 1))
    && IsChunk(page, address + k, address + size, m)
  }

  lemma FirstChunk(page: nat, address: nat, size: nat)
    requires page > 0 && address + size < 0x1_0000_0000
    ensures ToU32(address + size) == address + size
    ensures ChunkAt(page, address, size, 0, 0, Min(PageRest(page, address), size))
  {
    PageEnd(page, address);
  }

  lemma NextChunk(page: nat, a: nat, e: nat, m: int)
    requires page > 0 && e + page < 0x1_0000_0000 && IsChunk(page, a, e, m)
    ensures var a' := ToU32(a + m);
            && a' == a + m
            && (a' < e ==> && Aligned(page, a')
                           && var m' := if ToU32(a' + page) > e then ToU32(e - a') else page;
                              m' == Min(e - a', page) && IsChunk(page, a', e, m'))
  {
    if a + m < e {
      PageEnd(page, a + m);
      assert (a + m) % page == 0;
    }
  }

  lemma ChunkAfter(page: nat, address: nat, size: nat, j: nat, k: nat, m: nat)
    requires page > 0 && address + size + page < 0x1_0000_0000 && m > 0 && ChunkAt(page, address, size, j, k, m)
    ensures var a, e := ToU32(address + k + m), address + size;
      && a == address + k + m
      && if a < e then ChunkAt(page, address, size, j + 1, k + m, if ToU32(a + page) > e then ToU32(e - a) else page)
         else IsChunkCount(page, address, size, j + 1)
  {
    hide ToU32, IsChunk, WithinPage, Aligned, PageRest;
    NextChunk(page, address + k, address + size, m);
    assert ChunkStart(page, address, j + 2) == ChunkStart(page, address, j + 1) + page;
  }

  lemma MergedNothing(mem: seq<Word>, address: nat)
    ensures Merged(mem, address, []) == mem
  {
  }

  lemma ProgramNothing(mem: seq<Word>, page: nat, address: nat)
    requires page > 0
    ensures Programmed(mem, page, address, []) == mem
  {
  }
}
