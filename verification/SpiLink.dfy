/**
  The interrupt-driven SPI driver of the BlueNRG. Every entry point is proved to take the protocol of
  `LinkProtocol` exactly one step, and to leave the registers in agreement with the phase reached.
 */
module SpiDriver {
  import opened Bytes
  import opened LinkProtocol
  import opened SpiRegisters

  /** A reply to the question for room goes to the header buffer. */
  lemma ReplyToWrite(r: Registers, h: History, bytes: seq<uint8>, lineHigh: bool)
    requires Sound(r, h) && Enabled(Abstraction(r, h), RxDone(bytes, lineHigh)) && CurrentPhase(r) == TxQuery
    ensures |bytes| == HEADER_SIZE && r.dma.rx.target == ReceivedHeader
  {
    hide Inv;
  }

  /** After a refusal the same question is asked once more, in registers as before. */
  lemma AsksAgain(r: Registers, h: History, r': Registers, bytes: seq<uint8>, lineHigh: bool)
    requires Sound(r, h) && CurrentPhase(r) == TxQuery && |bytes| == HEADER_SIZE && Refuses(bytes, Room(bytes))
    requires r'.timer == r.timer && r'.lines == r.lines.(csLow := true)
    requires r'.context == r.context.(rx := r.context.rx.(event := CheckHeaderForTx))
    requires r'.dma.tx == Channel(true, false, HEADER_SIZE, WriteHeaderCmd, true)
    requires r'.dma.rx == Channel(true, true, HEADER_SIZE, ReceivedHeader, r.dma.rx.increment)
    ensures Sound(r', h) && Abstraction(r', h) == OnRxDone(Abstraction(r, h), bytes, lineHigh)
  {
    hide Inv;
    assert Abstraction(r', h) == Abstraction(r, h);
  }

  /** After a reply with room the transmission of the first header, or of the next chunk, is under way. */
  lemma BeginsToTransmit(r: Registers, h: History, r': Registers, bytes: seq<uint8>, lineHigh: bool)
    requires Sound(r, h) && CurrentPhase(r) == TxQuery && |bytes| == HEADER_SIZE && !Refuses(bytes, Room(bytes))
    requires r'.timer == r.timer && r'.lines == r.lines && !r'.dma.rx.enabled && !r'.dma.rx.notify
    requires r'.context == r.context.(tx := r'.context.tx) && r'.context.tx.requestPending == r.context.tx.requestPending
    requires WriteOf(r'.context.tx) == Accept(WriteOf(r.context.tx), Room(bytes))
    requires if r.context.tx.packetCont then
               && r'.context.tx.event == PayloadTransmitted
               && r'.dma.tx == Channel(true, true, r'.context.tx.payloadSizeToTransmit, Ram(r'.context.tx.payloadData), true)
             else
               && r'.context.tx.event == HeaderTransmitted
               && r'.dma.tx == Channel(true, true, r'.context.tx.headerSize, Ram(r'.context.tx.headerData), true)
    ensures var h' := h.(transfers := h.transfers + [Transfer(Room(bytes), [])]);
      Sound(r', h') && Abstraction(r', h') == OnRxDone(Abstraction(r, h), bytes, lineHigh)
  {
    var e := RxDone(bytes, lineHigh);
    assert Enabled(Abstraction(r, h), e);
    ReceptionKeepsInv((_ => 0), Abstraction(r, h), e);
    hide Inv, Accept;
    assert CurrentPhase(r') == if r.context.tx.packetCont then TxPayload else TxHeader;
  }

  /** The history once the transmit channel has put out what it was programmed for. */
  function Transmitted(ram: Memory, r: Registers, h: History): History
    requires h.transfers != [] && r.dma.tx.target.Ram?
  {
    var last := |h.transfers| - 1;
    var bytes := Fetch(ram, r.dma.tx.target.address, r.dma.tx.count);
    h.(transfers := h.transfers[last := h.transfers[last].(sent := h.transfers[last].sent + bytes)])
  }

  lemma ChunkIsUnderWay(r: Registers, h: History)
    requires Sound(r, h) && Enabled(Abstraction(r, h), TxDone)
    ensures h.transfers != [] && r.dma.tx.target.Ram?
  {
    hide Inv;
  }

  /** After a chunk that was not the last one the question for room is asked, with the payload pointer moved on. */
  lemma AsksForMore(ram: Memory, r: Registers, h: History, r': Registers)
    requires Sound(r, h) && CurrentPhase(r) == TxPayload && Enabled(Abstraction(r, h), TxDone) && r.dma.tx.target.Ram?
    requires r.context.tx.packetCont && r.context.tx.payloadSize != 0
    requires r'.timer == r.timer && r'.lines == r.lines.(csLow := true)
    requires var tx := r.context.tx;
      r'.context == r.context.(tx := tx.(payloadData := tx.payloadData + tx.payloadSizeToTransmit),
                               rx := r.context.rx.(event := CheckHeaderForTx))
    requires r'.dma.tx == Channel(true, false, HEADER_SIZE, WriteHeaderCmd, true)
    requires r'.dma.rx == Channel(true, true, HEADER_SIZE, ReceivedHeader, r.dma.rx.increment)
    ensures var h' := Transmitted(ram, r, h); Sound(r', h') && Abstraction(r', h') == OnTxDone(ram, Abstraction(r, h))
  {
    TransmissionKeepsInv(ram, Abstraction(r, h));
    hide Inv, Fetch;
    assert CurrentPhase(r') == TxQuery;
  }

  /** After the last chunk everything is released. */
  lemma ClosesWrite(ram: Memory, r: Registers, h: History, r': Registers)
    requires Sound(r, h) && CurrentPhase(r) == TxPayload && Enabled(Abstraction(r, h), TxDone) && r.dma.tx.target.Ram?
    requires !(r.context.tx.packetCont && r.context.tx.payloadSize != 0)
    requires r'.timer == r.timer && r'.context == r.context.(state := SpiAvailable)
    requires !r'.dma.tx.enabled && !r'.dma.rx.enabled
    requires r'.lines == Lines(false, r.lines.interruptEnabled || r.context.rx.bufferStatus == BufferAvailable, Stop, r.lines.rxPower)
    ensures var h' := Transmitted(ram, r, h).(stage := NoCommand, finished := h.finished + 1);
      Sound(r', h') && Abstraction(r', h') == OnTxDone(ram, Abstraction(r, h))
  {
    TransmissionKeepsInv(ram, Abstraction(r, h));
    hide Inv, Fetch;
    assert CurrentPhase(r') == Idle;
  }

  datatype TransmitRequest = TransmitHeader | TransmitPayload
  datatype ReceiveRequest = RequestHeaderForRx | RequestHeaderForTx | RequestPayload

  class SpiLink {
    var context: Context
    const receivedHeader: array<uint8>
    var timer: SharedTimer
    var dma: Dma
    var lines: Lines

    const ram: Memory
    ghost var history: History

    function Snapshot(): Registers
      reads this
    {
      Registers(context, timer, dma, lines)
    }

    ghost function Abstract(): Link
      reads this
    {
      Abstraction(Snapshot(), history)
    }

    ghost predicate Valid()
      reads this
    {
      receivedHeader.Length == HEADER_SIZE && Sound(Snapshot(), history)
    }

    /** `BNRG_SPI_Init`, on zero-initialised storage. */
    constructor (ram: Memory)
      ensures Valid() && Abstract() == Init() && this.ram == ram && fresh(receivedHeader)
    {
      this.ram := ram;
      context := Context(SpiAvailable,
                         TransmitContext(HeaderTransmitted, 0, 0, 0, 0, 0, false, false),
                         ReceiveContext(CheckHeaderForRx, 0, 0, 0, BufferAvailable));
      receivedHeader := new uint8[HEADER_SIZE](_ => 0);
      timer := SharedTimer(Off, TransmitCallback, 0);
      dma := Dma(Channel(false, false, 0, DummyByte, false), Channel(false, false, 0, DummyByte, false));
      lines := Lines(false, false, Stop, Stop);
      history := Init().h;
    }

    // -------------------------------------------------------------------------------------
    // Pins, paths and managers
    // -------------------------------------------------------------------------------------

    method EnableReceivingPath()
      modifies `lines
      ensures lines == old(lines).(interruptEnabled := true)
    {
      lines := lines.(interruptEnabled := true);
    }

    method DisableReceivingPath()
      modifies `lines
      ensures lines == old(lines).(interruptEnabled := false)
    {
      lines := lines.(interruptEnabled := false);
    }

    method EnableCS()
      modifies `lines
      ensures lines == old(lines).(csLow := true)
    {
      lines := lines.(csLow := true);
    }

    method DisableCS()
      modifies `lines
      ensures lines == old(lines).(csLow := false)
    {
      lines := lines.(csLow := false);
    }

    method PulseCS()
      modifies `lines
      ensures lines == old(lines).(csLow := true)
    {
      DisableCS();
      EnableCS();
    }

    method DisableDma()
      modifies `dma
      ensures dma == Dma(old(dma).tx.(enabled := false), old(dma).rx.(enabled := false))
    {
      dma := dma.(tx := dma.tx.(enabled := false));
      dma := dma.(rx := dma.rx.(enabled := false));
    }

    method RequestTimerStart(callback: TimerCallback, ticks: nat)
      modifies `timer
      ensures timer == SharedTimer(Requested, callback, ticks)
    {
      timer := timer.(callback := callback);
      timer := timer.(ticks := ticks);
      timer := timer.(state := Requested);
    }

    method Wakeup()
      modifies `lines, `timer
      ensures lines == Lines(true, false, Stop, old(lines).rxPower)
      ensures timer == SharedTimer(Requested, TransmitCallback, SPI_TX_TIMEOUT)
    {
      DisableReceivingPath();
      EnableCS();
      RequestTimerStart(TransmitCallback, SPI_TX_TIMEOUT);
      lines := lines.(txPower := Stop);
    }

    method ReceiveHeader(event: ReceiveEvent, command: Target)
      modifies `context, `dma
      ensures context == old(context).(rx := old(context).rx.(event := event))
      ensures dma == Dma(old(dma).tx.(count := HEADER_SIZE, target := command, increment := true),
                         old(dma).rx.(count := HEADER_SIZE, target := ReceivedHeader))
    {
      context := context.(rx := context.rx.(event := event));
      dma := dma.(tx := dma.tx.(increment := true));
      dma := dma.(tx := dma.tx.(count := HEADER_SIZE), rx := dma.rx.(count := HEADER_SIZE));
      dma := dma.(rx := dma.rx.(target := ReceivedHeader), tx := dma.tx.(target := command));
    }

    method ReceiveManager(request: ReceiveRequest)
      requires receivedHeader.Length == HEADER_SIZE
      modifies `context, `dma
      ensures request == RequestHeaderForRx ==>
                && context == old(context).(rx := old(context).rx.(event := CheckHeaderForRx))
                && dma == Dma(Channel(true, false, HEADER_SIZE, ReadHeaderCmd, true),
                              Channel(true, true, HEADER_SIZE, ReceivedHeader, old(dma).rx.increment))
      ensures request == RequestHeaderForTx ==>
                && context == old(context).(rx := old(context).rx.(event := CheckHeaderForTx))
                && dma == Dma(Channel(true, false, HEADER_SIZE, WriteHeaderCmd, true),
                              Channel(true, true, HEADER_SIZE, ReceivedHeader, old(dma).rx.increment))
      ensures request == RequestPayload ==>
                var count := Min(Available(receivedHeader[..]), context.rx.bufferSize);
                && context == old(context).(rx := old(context).rx.(event := ReceiveEnd, payloadLen := count))
                && dma == Dma(Channel(true, false, count, DummyByte, false),
                              Channel(true, true, count, Ram(context.rx.buffer), old(dma).rx.increment))
    {
      DisableDma();
      dma := dma.(rx := dma.rx.(notify := true), tx := dma.tx.(notify := false));
      match request {
        case RequestHeaderForRx =>
          ReceiveHeader(CheckHeaderForRx, ReadHeaderCmd);
        case RequestHeaderForTx =>
          ReceiveHeader(CheckHeaderForTx, WriteHeaderCmd);
        case RequestPayload =>
          context := context.(rx := context.rx.(event := ReceiveEnd));
          var byteCount := receivedHeader[4] as int * 0x100 + receivedHeader[3] as int;
          if byteCount > context.rx.bufferSize {
            byteCount := context.rx.bufferSize;
          }
          context := context.(rx := context.rx.(payloadLen := byteCount));
          dma := dma.(tx := dma.tx.(increment := false));
          dma := dma.(rx := dma.rx.(count := byteCount), tx := dma.tx.(count := byteCount));
          dma := dma.(rx := dma.rx.(target := Ram(context.rx.buffer)), tx := dma.tx.(target := DummyByte));
      }
      dma := dma.(rx := dma.rx.(enabled := true));
      dma := dma.(tx := dma.tx.(enabled := true));
    }

    method TransmitManager(request: TransmitRequest)
      modifies `context, `dma
      ensures dma.rx == old(dma).rx.(enabled := false, notify := false)
      ensures request == TransmitHeader ==>
                && context == old(context).(tx := old(context).tx.(event := HeaderTransmitted))
                && dma.tx == Channel(true, true, context.tx.headerSize, Ram(context.tx.headerData), true)
      ensures request == TransmitPayload ==>
                && context == old(context).(tx := old(context).tx.(event := PayloadTransmitted))
                && dma.tx == Channel(true, true, context.tx.payloadSizeToTransmit, Ram(context.tx.payloadData), true)
    {
      DisableDma();
      dma := dma.(rx := dma.rx.(notify := false));
      dma := dma.(tx := dma.tx.(notify := true));
      dma := dma.(tx := dma.tx.(increment := true));
      match request {
        case TransmitHeader =>
          context := context.(tx := context.tx.(event := HeaderTransmitted));
          dma := dma.(tx := dma.tx.(count := context.tx.headerSize, target := Ram(context.tx.headerData)));
        case TransmitPayload =>
          context := context.(tx := context.tx.(event := PayloadTransmitted));
          dma := dma.(tx := dma.tx.(count := context.tx.payloadSizeToTransmit, target := Ram(context.tx.payloadData)));
      }
      dma := dma.(tx := dma.tx.(enabled := true));
    }

    method TransmitClosure()
      modifies `lines, `context, `dma, `history
      ensures context == old(context).(state := SpiAvailable)
      ensures dma == Dma(old(dma).tx.(enabled := false), old(dma).rx.(enabled := false))
      ensures lines == Lines(false, old(lines).interruptEnabled || context.rx.bufferStatus == BufferAvailable,
                             Stop, old(lines).rxPower)
      ensures history == old(history).(stage := NoCommand, finished := old(history).finished + 1)
    {
      lines := lines.(txPower := Stop);
      context := context.(state := SpiAvailable);
      DisableCS();
      DisableDma();
      if context.rx.bufferStatus == BufferAvailable {
        EnableReceivingPath();
      }
      history := history.(stage := NoCommand, finished := history.finished + 1);
    }

    method ReceiveClosure()
      modifies `lines, `context, `dma, `timer, `history
      ensures dma == Dma(old(dma).tx.(enabled := false), old(dma).rx.(enabled := false))
      ensures if old(context).tx.requestPending then
                && context == old(context).(tx := old(context).tx.(requestPending := false), state := SpiBusy)
                && lines == Lines(true, false, Stop, old(lines).rxPower)
                && timer == SharedTimer(Requested, TransmitCallback, SPI_TX_TIMEOUT)
                && history == old(history).(stage := Launched, launched := old(history).launched + 1)
              else
                && context == old(context).(state := SpiAvailable)
                && lines == old(lines).(interruptEnabled := false)
                && timer == old(timer) && history == old(history)
    {
      DisableDma();
      DisableReceivingPath();
      if context.tx.requestPending {
        context := context.(tx := context.tx.(requestPending := false));
        context := context.(state := SpiBusy);
        Wakeup();
        history := history.(stage := Launched, launched := history.launched + 1);
      } else {
        context := context.(state := SpiAvailable);
      }
    }

    // -------------------------------------------------------------------------------------
    // Entry points of the application
    // -------------------------------------------------------------------------------------

    /** First half of `BlueNRG_SPI_Write`; receive-side callbacks may come between it and the second. */
    method WriteFill(c: Command)
      requires Valid() && Enabled(Abstract(), Fill(c))
      modifies this
      ensures Valid() && Abstract() == Next(ram, old(Abstract()), Fill(c))
    {
      StepKeepsInv(ram, Abstract(), Fill(c));
      hide Inv;
      context := context.(tx := context.tx.(headerData := c.header, payloadData := c.payload,
                                            headerSize := c.headerSize, payloadSize := c.payloadSize));
      context := context.(tx := context.tx.(packetCont := false));
      history := history.(stage := Filled, transfers := [], command := c);
    }

    /** Second half of `BlueNRG_SPI_Write`: its critical section. */
    method WriteCommit()
      requires Valid() && Enabled(Abstract(), Commit)
      modifies this
      ensures Valid() && Abstract() == Next(ram, old(Abstract()), Commit)
    {
      StepKeepsInv(ram, Abstract(), Commit);
      hide Inv;
      history := history.(written := history.written + 1);
      if context.state == SpiAvailable {
        context := context.(state := SpiBusy);
        DisableReceivingPath();
        Wakeup();
        history := history.(stage := Launched, launched := history.launched + 1);
      } else {
        context := context.(tx := context.tx.(requestPending := true));
        history := history.(stage := Parked);
      }
    }

    method RequestEvents(buffer: int, size: uint8)
      requires Valid() && Enabled(Abstract(), Arm(buffer, size))
      modifies this
      ensures Valid() && Abstract() == Next(ram, old(Abstract()), Arm(buffer, size))
    {
      StepKeepsInv(ram, Abstract(), Arm(buffer, size));
      context := context.(rx := context.rx.(buffer := buffer, bufferSize := size));
      context := context.(rx := context.rx.(bufferStatus := BufferAvailable));
      EnableReceivingPath();
      history := history.(armed := history.armed + 1);
    }

    // -------------------------------------------------------------------------------------
    // Interrupt and timer
    // -------------------------------------------------------------------------------------

    method IrqCallback()
      requires Valid() && Enabled(Abstract(), Interrupt)
      modifies this
      ensures Valid() && Abstract() == Next(ram, old(Abstract()), Interrupt)
    {
      StepKeepsInv(ram, Abstract(), Interrupt);
      hide Inv;
      if context.state == SpiAvailable {
        context := context.(state := SpiBusy);
        EnableCS();
        ReceiveManager(RequestHeaderForRx);
        lines := lines.(rxPower := Sleep);
      }
    }

    method TimerStartAllowed()
      requires Valid() && Enabled(Abstract(), TimerStarted)
      modifies this
      ensures Valid() && Abstract() == Next(ram, old(Abstract()), TimerStarted)
    {
      StepKeepsInv(ram, Abstract(), TimerStarted);
      hide Inv;
      timer := timer.(state := Running);
    }

    /** The single-shot timer has expired: it calls whatever callback was installed last. */
    method TimerTxRxCallback()
      requires Valid() && Enabled(Abstract(), TimerFired)
      modifies this
      ensures Valid() && Abstract() == Next(ram, old(Abstract()), TimerFired)
    {
      StepKeepsInv(ram, Abstract(), TimerFired);
      hide Inv;
      timer := timer.(state := Off);
      match timer.callback {
        case TransmitCallback =>
          ReceiveManager(RequestHeaderForTx);
          lines := lines.(txPower := Sleep);
        case EndOfReceiveCallback =>
          ProcessEndOfReceive();
      }
    }

    /** Closes the read, and hands the buffer up with the length that the context then holds. */
    method ProcessEndOfReceive()
      modifies `lines, `context, `dma, `timer, `history
      ensures dma == Dma(old(dma).tx.(enabled := false), old(dma).rx.(enabled := false))
      ensures var rx, h := old(context).rx, old(history);
              var c := old(context).(rx := rx.(bufferStatus := NoBuffer));
              var h' := h.(delivered := h.delivered + [Packet(rx.buffer, rx.payloadLen, h.incoming)]);
              if c.tx.requestPending then
                && context == c.(tx := c.tx.(requestPending := false), state := SpiBusy)
                && lines == Lines(true, false, Stop, old(lines).rxPower)
                && timer == SharedTimer(Requested, TransmitCallback, SPI_TX_TIMEOUT)
                && history == h'.(stage := Launched, launched := h.launched + 1)
              else
                && context == c.(state := SpiAvailable)
                && lines == old(lines).(interruptEnabled := false)
                && timer == old(timer) && history == h'
    {
      context := context.(rx := context.rx.(bufferStatus := NoBuffer));
      ReceiveClosure();
      history := history.(delivered := history.delivered
                                       + [Packet(context.rx.buffer, context.rx.payloadLen, history.incoming)]);
    }

    // -------------------------------------------------------------------------------------
    // DMA
    // -------------------------------------------------------------------------------------

    /** The hardware ends a receive transfer: `bytes` are in memory and both counters have run down. */
    method RxTransferEnds(bytes: seq<uint8>)
      requires receivedHeader.Length == HEADER_SIZE
      requires dma.rx.target == ReceivedHeader ==> |bytes| == HEADER_SIZE
      modifies `dma, `history, receivedHeader
      ensures dma == Dma(old(dma).tx.(count := 0), old(dma).rx.(count := 0))
      ensures if old(dma).rx.target == ReceivedHeader then receivedHeader[..] == bytes && history == old(history)
              else history == old(history).(incoming := bytes)
    {
      dma := Dma(dma.tx.(count := 0), dma.rx.(count := 0));
      if dma.rx.target == ReceivedHeader {
        forall i | 0 <= i < HEADER_SIZE {
          receivedHeader[i] := bytes[i];
        }
      } else {
        history := history.(incoming := bytes);
      }
    }

    method RxCallback(bytes: seq<uint8>, lineHigh: bool)
      requires Valid() && Enabled(Abstract(), RxDone(bytes, lineHigh))
      modifies this, receivedHeader
      ensures Valid() && Abstract() == Next(ram, old(Abstract()), RxDone(bytes, lineHigh))
    {
      match context.rx.event {
        case CheckHeaderForRx => HeaderForRxReceived(bytes, lineHigh);
        case ReceiveEnd => PayloadReceived(bytes, lineHigh);
        case CheckHeaderForTx => HeaderForTxReceived(bytes, lineHigh);
      }
    }

    method HeaderForRxReceived(bytes: seq<uint8>, lineHigh: bool)
      requires Valid() && Enabled(Abstract(), RxDone(bytes, lineHigh)) && Abstract().phase == RxQuery
      modifies this, receivedHeader
      ensures Valid() && Abstract() == OnRxDone(old(Abstract()), bytes, lineHigh)
    {
      StepKeepsInv(ram, Abstract(), RxDone(bytes, lineHigh));
      hide Inv;
      RxTransferEnds(bytes);
      var byteCount := receivedHeader[4] as int * 0x100 + receivedHeader[3] as int;
      var readyState := receivedHeader[0];
      if byteCount == 0 || readyState != READY_STATE {
        if !lineHigh {
          DisableCS();
          lines := lines.(rxPower := Stop);
          ReceiveClosure();
        } else {
          PulseCS();
          ReceiveManager(RequestHeaderForRx);
        }
      } else {
        ReceiveManager(RequestPayload);
      }
    }

    method PayloadReceived(bytes: seq<uint8>, lineHigh: bool)
      requires Valid() && Enabled(Abstract(), RxDone(bytes, lineHigh)) && Abstract().phase == RxPayload
      modifies this, receivedHeader
      ensures Valid() && Abstract() == OnRxDone(old(Abstract()), bytes, lineHigh)
    {
      StepKeepsInv(ram, Abstract(), RxDone(bytes, lineHigh));
      hide Inv;
      RxTransferEnds(bytes);
      DisableCS();
      lines := lines.(rxPower := Stop);
      RequestTimerStart(EndOfReceiveCallback, SPI_END_RECEIVE_FIX_TIMEOUT);
    }

    method HeaderForTxReceived(bytes: seq<uint8>, lineHigh: bool)
      requires Valid() && Enabled(Abstract(), RxDone(bytes, lineHigh)) && Abstract().phase == TxQuery
      modifies this, receivedHeader
      ensures Valid() && Abstract() == OnRxDone(old(Abstract()), bytes, lineHigh)
    {
      ghost var r, h := Snapshot(), history;
      hide Sound, Accept, Agree, CurrentPhase;
      ReplyToWrite(r, h, bytes, lineHigh);
      RxTransferEnds(bytes);
      var byteCount := receivedHeader[2] as int * 0x100 + receivedHeader[1] as int;
      var readyState := receivedHeader[0];
      if byteCount == 0 || readyState != READY_STATE {
        PulseCS();
        ReceiveManager(RequestHeaderForTx);
        AsksAgain(r, h, Snapshot(), bytes, lineHigh);
      } else {
        history := history.(transfers := history.transfers + [Transfer(byteCount, [])]);
        StartTransmission(byteCount);
        BeginsToTransmit(r, h, Snapshot(), bytes, lineHigh);
      }
    }

    /** Sizes the next chunk to the room that the controller advertises, and starts to send it. */
    method StartTransmission(byteCount: uint16)
      modifies `context, `dma
      ensures WriteOf(context.tx) == Accept(WriteOf(old(context).tx), byteCount)
      ensures context == old(context).(tx := context.tx) && context.tx.requestPending == old(context).tx.requestPending
      ensures dma.rx == old(dma).rx.(enabled := false, notify := false)
      ensures if old(context).tx.packetCont then
                && context.tx.event == PayloadTransmitted
                && dma.tx == Channel(true, true, context.tx.payloadSizeToTransmit, Ram(context.tx.payloadData), true)
              else
                && context.tx.event == HeaderTransmitted
                && dma.tx == Channel(true, true, context.tx.headerSize, Ram(context.tx.headerData), true)
    {
      var tx := context.tx;
      if !tx.packetCont {
        if byteCount < tx.headerSize + tx.payloadSize {
          tx := tx.(payloadSizeToTransmit := ToUint8(byteCount - tx.headerSize));
          tx := tx.(payloadSize := ToUint8(tx.payloadSize - tx.payloadSizeToTransmit));
          tx := tx.(packetCont := true);
        } else {
          tx := tx.(payloadSizeToTransmit := tx.payloadSize);
        }
        context := context.(tx := tx);
        TransmitManager(TransmitHeader);
      } else {
        if byteCount < tx.payloadSize {
          tx := tx.(payloadSizeToTransmit := byteCount);
          tx := tx.(payloadSize := tx.payloadSize - tx.payloadSizeToTransmit);
        } else {
          tx := tx.(payloadSizeToTransmit := tx.payloadSize);
          tx := tx.(payloadSize := 0);
        }
        context := context.(tx := tx);
        TransmitManager(TransmitPayload);
      }
    }

    /** The hardware ends a transmit transfer: the bytes that the channel was programmed for have gone out. */
    method TxTransferEnds()
      requires history.transfers != [] && dma.tx.target.Ram?
      modifies `dma, `history
      ensures dma == old(dma).(tx := old(dma).tx.(count := 0))
      ensures var ts := old(history).transfers;
              var last := |ts| - 1;
              var bytes := Fetch(ram, old(dma).tx.target.address, old(dma).tx.count);
              history == old(history).(transfers := ts[last := ts[last].(sent := ts[last].sent + bytes)])
    {
      ghost var ts := history.transfers;
      ghost var last := |ts| - 1;
      ghost var bytes := Fetch(ram, dma.tx.target.address, dma.tx.count);
      history := history.(transfers := ts[last := ts[last].(sent := ts[last].sent + bytes)]);
      dma := dma.(tx := dma.tx.(count := 0));
    }

    method TxCallback()
      requires Valid() && Enabled(Abstract(), TxDone)
      modifies this
      ensures Valid() && Abstract() == Next(ram, old(Abstract()), TxDone)
    {
      match context.tx.event {
        case HeaderTransmitted => HeaderSent();
        case PayloadTransmitted => PayloadSent();
      }
    }

    method HeaderSent()
      requires Valid() && Enabled(Abstract(), TxDone) && Abstract().phase == TxHeader
      modifies this
      ensures Valid() && Abstract() == OnTxDone(ram, old(Abstract()))
    {
      StepKeepsInv(ram, Abstract(), TxDone);
      hide Inv, Fetch;
      TxTransferEnds();
      if context.tx.payloadSizeToTransmit != 0 {
        TransmitManager(TransmitPayload);
      } else {
        TransmitClosure();
      }
    }

    method PayloadSent()
      requires Valid() && Enabled(Abstract(), TxDone) && Abstract().phase == TxPayload
      modifies this
      ensures Valid() && Abstract() == OnTxDone(ram, old(Abstract()))
    {
      ghost var r, h := Snapshot(), history;
      ChunkIsUnderWay(r, h);
      hide Sound, Agree, CurrentPhase, Fetch, OnTxDone;
      TxTransferEnds();
      if context.tx.packetCont && context.tx.payloadSize != 0 {
        context := context.(tx := context.tx.(payloadData := context.tx.payloadData + context.tx.payloadSizeToTransmit));
        PulseCS();
        ReceiveManager(RequestHeaderForTx);
        AsksForMore(ram, r, h, Snapshot());
      } else {
        TransmitClosure();
        ClosesWrite(ram, r, h, Snapshot());
      }
    }
  }
}
