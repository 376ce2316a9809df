/** The context and the registers of the SPI driver, and what they say about the link. */
module SpiRegisters {
  import opened Bytes
  import opened LinkProtocol

  datatype PeripheralState = SpiAvailable | SpiBusy
  datatype TransmitEvent = HeaderTransmitted | PayloadTransmitted
  datatype ReceiveEvent = CheckHeaderForRx | CheckHeaderForTx | ReceiveEnd
  datatype BufferStatus = BufferAvailable | NoBuffer
  datatype TimerCallback = TransmitCallback | EndOfReceiveCallback
  datatype Timer = Off | Requested | Running
  datatype PowerMode = Sleep | Stop

  datatype TransmitContext = TransmitContext(
    event: TransmitEvent,
    headerData: int,
    payloadData: int,
    headerSize: uint8,
    payloadSize: uint8,
    payloadSizeToTransmit: uint8,
    packetCont: bool,
    requestPending: bool)

  datatype ReceiveContext = ReceiveContext(
    event: ReceiveEvent,
    payloadLen: uint16,
    buffer: int,
    bufferSize: uint8,
    bufferStatus: BufferStatus)

  /** The memory side of a DMA channel. */
  datatype Target = ReceivedHeader | WriteHeaderCmd | ReadHeaderCmd | DummyByte | Ram(address: int)

  /** A DMA channel: enabled, completion interrupt enabled, bytes left, memory side, address incremented. */
  datatype Channel = Channel(enabled: bool, notify: bool, count: nat, target: Target, increment: bool) {
    predicate Running() {
      enabled && count > 0
    }
  }

  datatype Context = Context(state: PeripheralState, tx: TransmitContext, rx: ReceiveContext)

  /** The shared timer: its state, the callback that it will call, and its timeout. */
  datatype SharedTimer = SharedTimer(state: Timer, callback: TimerCallback, ticks: nat)

  datatype Dma = Dma(tx: Channel, rx: Channel)

  /** The pins, the interrupt and the low-power requests. */
  datatype Lines = Lines(csLow: bool, interruptEnabled: bool, txPower: PowerMode, rxPower: PowerMode)

  datatype Registers = Registers(context: Context, timer: SharedTimer, dma: Dma, lines: Lines)

  const SPI_TX_TIMEOUT: nat := 6
  const SPI_END_RECEIVE_FIX_TIMEOUT: nat := 2

  /** The activity, read off the registers. */
  function CurrentPhase(r: Registers): Phase {
    if r.context.state == SpiAvailable then Idle
    else if r.timer.state != Off then
      match r.timer.callback
      case TransmitCallback => if r.timer.state == Requested then WakeRequested else WakeArmed
      case EndOfReceiveCallback => if r.timer.state == Requested then EndRequested else EndArmed
    else if r.dma.rx.notify then
      match r.context.rx.event
      case CheckHeaderForRx => RxQuery
      case CheckHeaderForTx => TxQuery
      case ReceiveEnd => RxPayload
    else
      match r.context.tx.event
      case HeaderTransmitted => TxHeader
      case PayloadTransmitted => TxPayload
  }

  function WriteOf(t: TransmitContext): Write {
    Write(t.headerData, t.payloadData, t.headerSize, t.payloadSize, t.payloadSizeToTransmit, t.packetCont)
  }

  function BufferOf(b: ReceiveContext): EventBuffer {
    EventBuffer(b.buffer, b.bufferSize, b.bufferStatus == BufferAvailable, b.payloadLen)
  }

  function Abstraction(r: Registers, h: History): Link {
    Link(CurrentPhase(r), r.lines.interruptEnabled, WriteOf(r.context.tx), BufferOf(r.context.rx), h)
  }

  predicate Powered(r: Registers, tx: PowerMode, rx: PowerMode) {
    r.lines.txPower == tx && r.lines.rxPower == rx
  }

  /** The registers agree with the phase that they show. */
  predicate Agree(r: Registers) {
    match CurrentPhase(r)
    case Idle =>
      && !r.lines.csLow && r.timer.state == Off && !r.dma.tx.enabled && !r.dma.rx.enabled
      && !r.context.tx.requestPending && Powered(r, Stop, Stop)
    case WakeRequested => WakingUp(r)
    case WakeArmed => WakingUp(r)
    case TxQuery =>
      && r.lines.csLow && Powered(r, Sleep, Stop)
      && r.dma.tx == Channel(true, false, HEADER_SIZE, WriteHeaderCmd, true)
      && r.dma.rx == Channel(true, true, HEADER_SIZE, ReceivedHeader, r.dma.rx.increment)
    case TxHeader =>
      && r.lines.csLow && Powered(r, Sleep, Stop) && !r.dma.rx.enabled
      && r.dma.tx == Channel(true, true, r.context.tx.headerSize, Ram(r.context.tx.headerData), true)
    case TxPayload =>
      && r.lines.csLow && Powered(r, Sleep, Stop) && !r.dma.rx.enabled
      && r.dma.tx == Channel(true, true, r.context.tx.payloadSizeToTransmit, Ram(r.context.tx.payloadData), true)
    case RxQuery =>
      && r.lines.csLow && Powered(r, Stop, Sleep)
      && r.dma.tx == Channel(true, false, HEADER_SIZE, ReadHeaderCmd, true)
      && r.dma.rx == Channel(true, true, HEADER_SIZE, ReceivedHeader, r.dma.rx.increment)
    case RxPayload =>
      && r.lines.csLow && Powered(r, Stop, Sleep)
      && r.dma.tx == Channel(true, false, r.context.rx.payloadLen, DummyByte, false)
      && r.dma.rx == Channel(true, true, r.context.rx.payloadLen, Ram(r.context.rx.buffer), r.dma.rx.increment)
    case EndRequested => EndingRead(r)
    case EndArmed => EndingRead(r)
  }

  predicate WakingUp(r: Registers) {
    r.lines.csLow && Powered(r, Stop, Stop) && !r.dma.tx.enabled && !r.dma.rx.enabled && r.timer.ticks == SPI_TX_TIMEOUT
  }

  predicate EndingRead(r: Registers) {
    && !r.lines.csLow && Powered(r, Stop, Stop) && r.timer.ticks == SPI_END_RECEIVE_FIX_TIMEOUT
    && r.dma.tx.count == 0 && r.dma.rx.count == 0
  }

  predicate Sound(r: Registers, h: History) {
    && Agree(r)
    && (r.context.tx.requestPending <==> h.stage == Parked)
    && Inv(Abstraction(r, h))
  }

  /** What is outstanding, counted on the registers alone. */
  function Outstanding(r: Registers): nat {
    (if r.timer.state != Off then 1 else 0)
    + (if r.dma.rx.Running() && r.dma.rx.notify then 1 else 0)
    + (if r.dma.tx.Running() && r.dma.tx.notify then 1 else 0)
  }

  /** In every state between two callbacks: an available peripheral has everything released; a busy one has
      one thing outstanding, unless a DMA was programmed for no bytes; exactly one completion interrupt is
      enabled while a DMA runs; the timer carries the callback of the phase; the external interrupt is enabled
      only with a buffer; and a DMA into RAM goes to that buffer, and within it. */
  lemma RegisterSafety(r: Registers, h: History)
    requires Sound(r, h)
    ensures r.context.state == SpiAvailable ==>
              && Outstanding(r) == 0 && !r.lines.csLow && !r.dma.tx.enabled && !r.dma.rx.enabled
              && r.timer.state == Off && !r.context.tx.requestPending && Powered(r, Stop, Stop)
    ensures r.context.state == SpiBusy ==> Outstanding(r) == if r.timer.state == Off && r.dma.tx.count == 0 then 0 else 1
    ensures r.dma.tx.Running() || r.dma.rx.Running() ==> r.dma.tx.notify != r.dma.rx.notify && r.timer.state == Off && r.lines.csLow
    ensures r.dma.rx.Running() ==> r.dma.rx.notify && r.dma.tx.Running() && r.dma.tx.count == r.dma.rx.count
    ensures r.timer.state != Off ==> (r.timer.callback == TransmitCallback <==> h.stage == Launched)
    ensures r.lines.interruptEnabled ==> r.context.rx.bufferStatus == BufferAvailable
    ensures r.dma.rx.Running() && r.dma.rx.target.Ram? ==>
              && r.dma.rx.target == Ram(r.context.rx.buffer) && r.context.rx.bufferStatus == BufferAvailable
              && r.dma.rx.count == r.context.rx.payloadLen <= r.context.rx.bufferSize
    ensures r.lines.csLow <==> r.context.state == SpiBusy && !(r.timer.state != Off && r.timer.callback == EndOfReceiveCallback)
    ensures r.lines.txPower == Sleep <==> r.context.state == SpiBusy && r.timer.state == Off && h.stage == Launched
    ensures r.lines.rxPower == Sleep <==> r.context.state == SpiBusy && r.timer.state == Off && h.stage != Launched
    ensures r.timer.state != Off ==> r.timer.ticks == if h.stage == Launched then 6 else 2
    ensures r.dma.tx.Running() && r.dma.rx.Running() ==>
              && (r.dma.rx.target == ReceivedHeader || r.dma.rx.target.Ram?)
              && r.dma.tx.target == (if r.dma.rx.target.Ram? then DummyByte else if h.stage == Launched then WriteHeaderCmd
                                     else ReadHeaderCmd)
              && (r.dma.tx.increment <==> r.dma.rx.target == ReceivedHeader)
              && (r.dma.rx.target == ReceivedHeader ==> r.dma.rx.count == 5)
    ensures r.dma.tx.Running() && !r.dma.rx.Running() ==>
              && h.stage == Launched && r.dma.tx.increment
              && match r.context.tx.event
                 case HeaderTransmitted =>
                   r.dma.tx.target == Ram(r.context.tx.headerData) && r.dma.tx.count == r.context.tx.headerSize
                 case PayloadTransmitted =>
                   r.dma.tx.target == Ram(r.context.tx.payloadData) && r.dma.tx.count == r.context.tx.payloadSizeToTransmit
  {
  }

  /**
    * The events that the protocol enables are those that the registers can raise: the timer's, the external interrupt,
    * and the completion of a running channel whose notification is on, with as many bytes as it was programmed for.
    */
  lemma EventsOfTheHardware(r: Registers, h: History)
    requires Sound(r, h)
    ensures var l := Abstraction(r, h);
            && (Enabled(l, TimerStarted) <==> r.timer.state == Requested)
            && (Enabled(l, TimerFired) <==> r.timer.state == Running)
            && (Enabled(l, Interrupt) <==> r.lines.interruptEnabled)
            && (Enabled(l, TxDone) <==> r.dma.tx.Running() && r.dma.tx.notify)
            && (forall bytes, lineHigh :: Enabled(l, RxDone(bytes, lineHigh)) <==>
                  r.dma.rx.Running() && r.dma.rx.notify && |bytes| == r.dma.rx.count)
  {
  }
}
