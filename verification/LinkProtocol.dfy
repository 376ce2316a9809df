/**
  The host side of the BlueNRG SPI link, seen as a protocol: which activity is in progress,
  what the application has asked for, and what has been sent and handed up. No register
  appears here. `SpiLink` is the driver, with its registers, and is proved to follow this
  machine step by step.
 */
module LinkProtocol {
  import opened Bytes

  /** The activity that the bus is engaged in. */
  datatype Phase =
    | Idle
    | WakeRequested | WakeArmed   // waiting for the controller to wake up before a write
    | TxQuery                     // asking how much room the controller has for a write
    | TxHeader | TxPayload        // a write in progress
    | RxQuery                     // asking how many bytes the controller has for us
    | RxPayload                   // a read in progress
    | EndRequested | EndArmed     // waiting before an event is handed up

  predicate Writing(p: Phase) {
    (p.WakeRequested? || p.WakeArmed? || p.TxQuery? || p.TxHeader? || p.TxPayload?)
  }

  predicate Reading(p: Phase) {
    (p.RxQuery? || p.RxPayload? || p.EndRequested? || p.EndArmed?)
  }

  predicate Ending(p: Phase) {
    (p.EndRequested? || p.EndArmed?)
  }

  /** Where the (single) command of the application stands. */
  datatype Stage = NoCommand | Filled | Parked | Launched

  /** A write as the application asked for it. */
  datatype Command = Command(header: int, payload: int, headerSize: uint8, payloadSize: uint8) {
    function Message(ram: Memory): seq<uint8> {
      Fetch(ram, header, headerSize) + Fetch(ram, payload, payloadSize)
    }
  }

  /** A write in progress: `payload` is the pointer that moves, `left` what the driver believes to be left
      after the chunk in flight, and `continued` says that the packet has been split. */
  datatype Write = Write(header: int, payload: int, headerSize: uint8, left: uint8, chunk: uint8, continued: bool)

  /** The buffer for incoming events. */
  datatype EventBuffer = EventBuffer(address: int, size: uint8, ready: bool, length: uint16)

  /** One transaction in which the controller accepted data: the room it advertised and what it got. */
  datatype Transfer = Transfer(room: uint16, sent: seq<uint8>)

  datatype Packet = Packet(address: int, length: uint16, data: seq<uint8>)

  /** What an observer of the link remembers. */
  datatype History = History(
    stage: Stage,
    command: Command,           // the last command the application filled in
    transfers: seq<Transfer>,   // the accepted transactions of that command
    incoming: seq<uint8>,       // the last payload read into the event buffer
    delivered: seq<Packet>,     // the packets handed up
    armed: nat,                 // event requests made
    written: nat,               // commands the application completed the submission of
    launched: nat,              // commands started on the bus
    finished: nat)              // commands whose transmission was closed

  datatype Link = Link(
    phase: Phase,
    listening: bool,            // the external interrupt is enabled
    write: Write,
    buffer: EventBuffer,
    h: History)

  datatype Event =
    | Fill(command: Command)                            // first half of a write request
    | Commit                                            // second half: its critical section
    | Arm(address: int, size: uint8)                    // request for events
    | Interrupt                                         // the controller's interrupt line
    | TimerStarted
    | TimerFired
    | RxDone(bytes: seq<uint8>, lineHigh: bool)         // receive DMA complete
    | TxDone                                            // transmit DMA complete

  const HEADER_SIZE: nat := 5
  const READY_STATE: uint8 := 2

  function Room(reply: seq<uint8>): (room: uint16)
    requires |reply| == HEADER_SIZE
  {
    reply[2] as int * 0x100 + reply[1] as int
  }

  function Available(reply: seq<uint8>): (count: uint16)
    requires |reply| == HEADER_SIZE
  {
    reply[4] as int * 0x100 + reply[3] as int
  }

  predicate Refuses(reply: seq<uint8>, count: uint16)
    requires |reply| == HEADER_SIZE
  {
    count == 0 || reply[0] != READY_STATE
  }

  function Min(a: nat, b: nat): nat {
    if a < b then a else b
  }

  // ---------------------------------------------------------------------------------------
  // The steps
  // ---------------------------------------------------------------------------------------

  /** The controller accepts `room` bytes: size of the chunk, and what remains after it. */
  function Accept(w: Write, room: uint16): Write {
    if w.continued then
      if room < w.left then w.(chunk := room, left := w.left - room) else w.(chunk := w.left, left := 0)
    else if room < w.headerSize + w.left then
      var chunk := ToUint8(room - w.headerSize);
      w.(chunk := chunk, left := ToUint8(w.left - chunk), continued := true)
    else
      w.(chunk := w.left)
  }

  function Launch(l: Link): Link {
    l.(phase := WakeRequested, listening := false, h := l.h.(stage := Launched, launched := l.h.launched + 1))
  }

  /** The end of a read: a parked command goes first. */
  function EndRead(l: Link): Link {
    if l.h.stage == Parked then Launch(l) else l.(phase := Idle, listening := false)
  }

  /** The end of a write. */
  function EndWrite(l: Link): Link {
    l.(phase := Idle, listening := l.listening || l.buffer.ready,
       h := l.h.(stage := NoCommand, finished := l.h.finished + 1))
  }

  /** `bytes` went out in the transaction that is under way. */
  function Send(l: Link, bytes: seq<uint8>): Link
    requires l.h.transfers != []
  {
    var last := |l.h.transfers| - 1;
    l.(h := l.h.(transfers := l.h.transfers[last := l.h.transfers[last].(sent := l.h.transfers[last].sent + bytes)]))
  }

  function Deliver(l: Link): Link {
    l.(buffer := l.buffer.(ready := false),
       h := l.h.(delivered := l.h.delivered + [Packet(l.buffer.address, l.buffer.length, l.h.incoming)]))
  }

  /** The number of bytes that the receive DMA is programmed for. */
  function RxCount(l: Link): nat {
    if l.phase == RxPayload then l.buffer.length else HEADER_SIZE
  }

  /** What can happen. The application has one command outstanding at a time, and requests events for the
      first time outside a read and later only after the last buffer was handed up. A DMA that is
      programmed for no bytes never completes. */
  predicate Enabled(l: Link, e: Event) {
    match e
    case Fill(_) => l.h.stage == NoCommand
    case Commit => l.h.stage == Filled
    case Arm(_, _) => !l.buffer.ready || (l.h.armed == 0 && !Reading(l.phase))
    case Interrupt => l.listening
    case TimerStarted => (l.phase.WakeRequested? || l.phase.EndRequested?)
    case TimerFired => (l.phase.WakeArmed? || l.phase.EndArmed?)
    case RxDone(bytes, _) => (l.phase.TxQuery? || l.phase.RxQuery? || l.phase.RxPayload?) && |bytes| == RxCount(l) > 0
    case TxDone => l.h.transfers != [] && (|| (l.phase == TxHeader && l.write.headerSize > 0)
                                           || (l.phase == TxPayload && l.write.chunk > 0))
  }

  function OnRxDone(l: Link, bytes: seq<uint8>, lineHigh: bool): Link
    requires Enabled(l, RxDone(bytes, lineHigh))
  {
    match l.phase
    case TxQuery =>
      var room := Room(bytes);
      if Refuses(bytes, room) then
        l
      else
        l.(phase := if l.write.continued then TxPayload else TxHeader, write := Accept(l.write, room),
           h := l.h.(transfers := l.h.transfers + [Transfer(room, [])]))
    case RxQuery =>
      var count := Available(bytes);
      if !Refuses(bytes, count) then
        l.(phase := RxPayload, buffer := l.buffer.(length := Min(count, l.buffer.size)))
      else if lineHigh then
        l
      else
        EndRead(l)
    case _ =>
      l.(phase := EndRequested, h := l.h.(incoming := bytes))
  }

  function OnTxDone(ram: Memory, l: Link): Link
    requires Enabled(l, TxDone)
  {
    if l.phase == TxHeader then
      var l' := Send(l, Fetch(ram, l.write.header, l.write.headerSize));
      if l.write.chunk != 0 then l'.(phase := TxPayload) else EndWrite(l')
    else
      var l' := Send(l, Fetch(ram, l.write.payload, l.write.chunk));
      if l.write.continued && l.write.left != 0 then
        l'.(phase := TxQuery, write := l.write.(payload := l.write.payload + l.write.chunk))
      else
        EndWrite(l')
  }

  function OnTimer(l: Link): Link
    requires Enabled(l, TimerFired)
  {
    if l.phase == WakeArmed then l.(phase := TxQuery) else EndRead(Deliver(l))
  }

  function Next(ram: Memory, l: Link, e: Event): Link
    requires Enabled(l, e)
  {
    match e
    case Fill(c) =>
      l.(write := l.write.(header := c.header, payload := c.payload, headerSize := c.headerSize,
                           left := c.payloadSize, continued := false),
         h := l.h.(stage := Filled, command := c, transfers := []))
    case Commit =>
      var l' := l.(h := l.h.(written := l.h.written + 1));
      if l.phase == Idle then Launch(l') else l'.(h := l'.h.(stage := Parked))
    case Arm(address, size) =>
      l.(listening := true, buffer := l.buffer.(address := address, size := size, ready := true),
         h := l.h.(armed := l.h.armed + 1))
    case Interrupt => if l.phase == Idle then l.(phase := RxQuery) else l
    case TimerStarted => l.(phase := if l.phase == WakeRequested then WakeArmed else EndArmed)
    case TimerFired => OnTimer(l)
    case RxDone(bytes, lineHigh) => OnRxDone(l, bytes, lineHigh)
    case TxDone => OnTxDone(ram, l)
  }

  /** The static storage of the driver is zero, and zero is the code of BUFFER_AVAILABLE: before the first
      request there already is an "available" buffer, of no bytes. */
  function Init(): Link {
    Link(Idle, false, Write(0, 0, 0, 0, 0, false), EventBuffer(0, 0, true, 0),
         History(NoCommand, Command(0, 0, 0, 0), [], [], [], 0, 0, 0, 0))
  }

  // ---------------------------------------------------------------------------------------
  // Runs
  // ---------------------------------------------------------------------------------------

  predicate CanRun(ram: Memory, l: Link, es: seq<Event>)
    decreases |es|
  {
    es == [] || (Enabled(l, es[0]) && CanRun(ram, Next(ram, l, es[0]), es[1..]))
  }

  function Run(ram: Memory, l: Link, es: seq<Event>): Link
    requires CanRun(ram, l, es)
    decreases |es|
  {
    if es == [] then l else Run(ram, Next(ram, l, es[0]), es[1..])
  }

  lemma {:induction false} RunSplit(ram: Memory, l: Link, es: seq<Event>, k: nat)
    requires CanRun(ram, l, es) && k <= |es|
    ensures CanRun(ram, l, es[..k])
    ensures CanRun(ram, Run(ram, l, es[..k]), es[k..])
    ensures Run(ram, l, es) == Run(ram, Run(ram, l, es[..k]), es[k..])
    decreases |es|
  {
    hide Next, Enabled;
    if k == 0 {
      assert es[..0] == [] && es[0..] == es;
    } else {
      assert es[..k][1..] == es[1..][..k - 1];
      assert es[k..] == es[1..][k - 1..];
      RunSplit(ram, Next(ram, l, es[0]), es[1..], k - 1);
    }
  }

  /** One more event at the end of a run. */
  lemma {:induction false} RunExtend(ram: Memory, l: Link, es: seq<Event>, e: Event)
    requires CanRun(ram, l, es) && Enabled(Run(ram, l, es), e)
    ensures CanRun(ram, l, es + [e]) && Run(ram, l, es + [e]) == Next(ram, Run(ram, l, es), e)
    decreases |es|
  {
    hide Next, Enabled;
    if es == [] {
      assert (es + [e])[1..] == [];
    } else {
      assert (es + [e])[1..] == es[1..] + [e];
      RunExtend(ram, Next(ram, l, es[0]), es[1..], e);
    }
  }

  /** What every interleaving of application, interrupt, timer and DMA keeps. */
  predicate Inv(l: Link) {
    // the bus writes exactly when a command is launched; a command is parked only behind a read
    && (l.h.stage == Launched <==> Writing(l.phase))
    && (l.h.stage == Parked ==> Reading(l.phase))
    // no command lost or doubled
    && l.h.written == l.h.launched + (if l.h.stage == Parked then 1 else 0)
    && l.h.launched == l.h.finished + (if l.h.stage == Launched then 1 else 0)
    // the interrupt is enabled only with a buffer to read into, and a read has one until it is handed up
    && (l.listening ==> l.buffer.ready)
    && (Reading(l.phase) ==> l.listening)
    && (l.h.armed == 0 ==> l.h.delivered == [] && l.buffer.ready && l.buffer.size == 0
                           && (!l.phase.EndRequested? && !l.phase.EndArmed?))
    && (l.h.armed > 0 ==> l.h.armed == |l.h.delivered| + (if l.buffer.ready then 1 else 0))
    // a read never exceeds its buffer
    && ((l.phase.RxPayload? || l.phase.EndRequested? || l.phase.EndArmed?) ==> l.buffer.length <= l.buffer.size)
    && ((l.phase.EndRequested? || l.phase.EndArmed?) ==> |l.h.incoming| == l.buffer.length)
    && (forall i :: 0 <= i < |l.h.delivered| ==> |l.h.delivered[i].data| == l.h.delivered[i].length)
    // what is left of the last packet handed up, until the next request
    && (!l.buffer.ready ==> l.h.delivered != [] &&
                            var p := l.h.delivered[|l.h.delivered| - 1];
                            p.address == l.buffer.address && p.length == l.buffer.length <= l.buffer.size)
    // chunks of payload and continuations are never empty; an accepted transaction is under way
    && ((l.h.stage.Filled? || l.h.stage.Parked?) || (l.phase.WakeRequested? || l.phase.WakeArmed?) ==> !l.write.continued)
    && (l.phase == TxPayload ==> l.write.chunk > 0)
    && (l.phase == TxQuery && l.write.continued ==> l.write.left > 0)
    && ((l.phase.TxHeader? || l.phase.TxPayload?) ==> l.h.transfers != [])
  }

  lemma ReceptionKeepsInv(ram: Memory, l: Link, e: Event)
    requires Inv(l) && Enabled(l, e) && e.RxDone?
    ensures Inv(Next(ram, l, e))
  {
  }

  lemma TransmissionKeepsInv(ram: Memory, l: Link)
    requires Inv(l) && Enabled(l, TxDone)
    ensures Inv(Next(ram, l, TxDone))
  {
    hide OnRxDone, Fetch;
  }

  lemma StepKeepsInv(ram: Memory, l: Link, e: Event)
    requires Inv(l) && Enabled(l, e)
    ensures Inv(Next(ram, l, e))
  {
    if e.RxDone? {
      ReceptionKeepsInv(ram, l, e);
    } else if e.TxDone? {
      TransmissionKeepsInv(ram, l);
    } else {
      hide OnRxDone, OnTxDone;
    }
  }

  lemma {:induction false} RunKeepsInv(ram: Memory, l: Link, es: seq<Event>)
    requires Inv(l) && CanRun(ram, l, es)
    ensures Inv(Run(ram, l, es))
    decreases |es|
  {
    hide Next, Enabled, Inv;
    if es == [] {
    } else {
      StepKeepsInv(ram, l, es[0]);
      RunKeepsInv(ram, Next(ram, l, es[0]), es[1..]);
    }
  }
}
