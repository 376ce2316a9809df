/** A command split over several transactions arrives complete, once and in order. */
module LinkTransmit {
  import opened Bytes
  import opened LinkProtocol

  function Sent(ts: seq<Transfer>): seq<uint8> {
    if ts == [] then [] else Sent(ts[..|ts| - 1]) + ts[|ts| - 1].sent
  }

  predicate Fits(t: Transfer) {
    |t.sent| <= t.room
  }

  predicate Full(t: Transfer) {
    |t.sent| == t.room
  }

  /** The condition on the first accepted room. With less the driver's 8-bit arithmetic wraps and it overruns
      the room; with exactly the header's size it closes without sending the payload. */
  predicate GoodRoom(c: Command, room: uint16) {
    room > c.headerSize || room >= c.headerSize + c.payloadSize
  }

  /** Under that condition no 8-bit field wraps. */
  lemma AcceptIsExact(w: Write, c: Command, room: uint16)
    requires room > 0
    requires !w.continued ==> w.headerSize == c.headerSize && w.left == c.payloadSize && GoodRoom(c, room)
    ensures var w' := Accept(w, room);
            && (if w'.continued then w'.left + w'.chunk else w'.chunk) == w.left
            && w'.chunk == Min(if w.continued then room else room - w.headerSize, w.left)
            && (w.left > 0 ==> w'.chunk > 0)
  {
  }

  lemma AcceptFrame(w: Write, room: uint16)
    ensures var w' := Accept(w, room);
            && w' == w.(chunk := w'.chunk, left := w'.left, continued := w'.continued)
            && (w.continued ==> w'.continued)
            && (!w.continued ==> (w'.continued <==> room < w.headerSize + w.left))
            && (!w.continued && room == w.headerSize ==> w'.chunk == 0)
  {
  }

  /** What the driver has still to send of a write in which a transaction was accepted. */
  function Unsent(ram: Memory, l: Link): seq<uint8> {
    var w := l.write;
    var rest := if w.continued then w.left else 0;
    match l.phase
    case TxHeader => Fetch(ram, w.header, w.headerSize) + Fetch(ram, w.payload, w.chunk + rest)
    case TxPayload => Fetch(ram, w.payload, w.chunk + rest)
    case TxQuery => Fetch(ram, w.payload, rest)
    case _ => []
  }

  /** What it has still to send in the transaction under way. */
  function InFlight(l: Link): nat {
    match l.phase
    case TxHeader => l.write.headerSize + l.write.chunk
    case TxPayload => l.write.chunk
    case _ => 0
  }

  predicate Unstarted(l: Link) {
    var c, w := l.h.command, l.write;
    && w.header == c.header && w.payload == c.payload && w.headerSize == c.headerSize && w.left == c.payloadSize
    && !w.continued && (!l.phase.TxHeader? && !l.phase.TxPayload?)
  }

  predicate Faithful(ram: Memory, l: Link) {
    var c, w, ts := l.h.command, l.write, l.h.transfers;
    && ts != []
    && (l.phase.TxQuery? || l.phase.TxHeader? || l.phase.TxPayload?)
    && w.header == c.header && w.headerSize == c.headerSize
    && Sent(ts) + Unsent(ram, l) == c.Message(ram)
    && (forall i :: 0 <= i < |ts| - 1 ==> Full(ts[i]))
    && |ts[|ts| - 1].sent| + InFlight(l) <= ts[|ts| - 1].room
    && (w.continued && w.left > 0 ==> |ts[|ts| - 1].sent| + InFlight(l) == ts[|ts| - 1].room)
    && (l.phase == TxQuery ==> w.continued)
    && (l.phase == TxHeader && w.continued ==> w.chunk > 0)
    && (if w.continued then |ts| + w.left <= c.payloadSize else |ts| == 1)
  }

  predicate Complete(ram: Memory, l: Link) {
    var c, ts := l.h.command, l.h.transfers;
    && Sent(ts) == c.Message(ram)
    && (forall i :: 0 <= i < |ts| ==> Fits(ts[i]))
    && (forall i :: 0 <= i < |ts| - 1 ==> Full(ts[i]))
    && |ts| <= if c.payloadSize == 0 then 1 else c.payloadSize
  }

  /** The first accepted room was smaller than the header. */
  predicate Overrun(l: Link) {
    var ts, w := l.h.transfers, l.write;
    && ts != [] && w.headerSize == l.h.command.headerSize && (l.phase.TxQuery? || l.phase.TxHeader? || l.phase.TxPayload?)
    && (|ts[0].sent| >= w.headerSize || (|ts| == 1 && ts[0].sent == [] && l.phase == TxHeader))
  }

  /** The first accepted room was just the header's. */
  predicate CutShort(l: Link) {
    var ts, w := l.h.transfers, l.write;
    && |ts| == 1 && ts[0].sent == [] && l.phase == TxHeader && w.chunk == 0
    && w.headerSize == l.h.command.headerSize
  }

  /** What the trace of the current (or last) command looks like, in every reachable state. */
  predicate TraceInv(ram: Memory, l: Link) {
    var c, ts := l.h.command, l.h.transfers;
    && Inv(l)
    && (ts == [] && l.h.stage != NoCommand ==> Unstarted(l))
    && (ts == [] && l.h.stage == NoCommand ==> l.h.finished == 0)
    && (ts != [] ==> (l.h.stage.NoCommand? || l.h.stage.Launched?) && ts[0].room > 0)
    && (ts != [] && l.h.stage == Launched ==>
          if GoodRoom(c, ts[0].room) then Faithful(ram, l)
          else if ts[0].room < c.headerSize then Overrun(l)
          else CutShort(l))
    && (ts != [] && l.h.stage == NoCommand ==>
          if GoodRoom(c, ts[0].room) then Complete(ram, l)
          else if ts[0].room < c.headerSize then |ts[0].sent| >= c.headerSize
          else |Sent(ts)| == c.headerSize)
  }

  lemma SentAppend(ts: seq<Transfer>, t: Transfer)
    ensures Sent(ts + [t]) == Sent(ts) + t.sent
  {
  }

  lemma SentUpdate(ts: seq<Transfer>, bytes: seq<uint8>)
    requires ts != []
    ensures var last := |ts| - 1;
            Sent(ts[last := ts[last].(sent := ts[last].sent + bytes)]) == Sent(ts) + bytes
  {
  }

  lemma FirstAcceptKeepsTrace(ram: Memory, l: Link, bytes: seq<uint8>, lineHigh: bool)
    requires TraceInv(ram, l) && Enabled(l, RxDone(bytes, lineHigh)) && l.phase == TxQuery
    requires l.h.transfers == [] && !Refuses(bytes, Room(bytes))
    ensures TraceInv(ram, OnRxDone(l, bytes, lineHigh))
  {
    var l', c, room := OnRxDone(l, bytes, lineHigh), l.h.command, Room(bytes);
    assert Inv(l') by { StepKeepsInv(ram, l, RxDone(bytes, lineHigh)); }
    AcceptFrame(l.write, room);
    hide Inv, Fetch, Accept;
    assert l'.h.transfers == [Transfer(room, [])];
    if GoodRoom(c, room) {
      FirstAccepted(ram, l, l', room);
    }
    hide Sent, Room, Faithful, Complete;
  }

  lemma FirstAccepted(ram: Memory, l: Link, l': Link, room: uint16)
    requires Unstarted(l) && room > 0 && GoodRoom(l.h.command, room) && l'.phase == TxHeader
    requires l'.write == Accept(l.write, room) && l'.h.command == l.h.command && l'.h.transfers == [Transfer(room, [])]
    ensures Faithful(ram, l')
  {
    AcceptIsExact(l.write, l.h.command, room);
    AcceptFrame(l.write, room);
    assert Sent(l'.h.transfers) == [] by {
      SentAppend([], Transfer(room, []));
      assert [] + [Transfer(room, [])] == l'.h.transfers;
    }
    hide Fetch, Accept, Sent;
    assert Unsent(ram, l') == l'.h.command.Message(ram);
  }

  lemma NextAcceptKeepsTrace(ram: Memory, l: Link, bytes: seq<uint8>, lineHigh: bool)
    requires TraceInv(ram, l) && Enabled(l, RxDone(bytes, lineHigh)) && l.phase == TxQuery
    requires l.h.transfers != [] && !Refuses(bytes, Room(bytes))
    ensures TraceInv(ram, OnRxDone(l, bytes, lineHigh))
  {
    var l', c, room := OnRxDone(l, bytes, lineHigh), l.h.command, Room(bytes);
    assert Inv(l') by { StepKeepsInv(ram, l, RxDone(bytes, lineHigh)); }
    assert l.write.continued ==> l.write.left > 0;
    AcceptFrame(l.write, room);
    hide Inv, Fetch, Accept;
    assert l'.h.transfers == l.h.transfers + [Transfer(room, [])];
    assert l'.h.transfers[0] == l.h.transfers[0];
    if GoodRoom(c, l.h.transfers[0].room) {
      NextAccepted(ram, l, l', room);
    }
    hide Sent, Faithful, Complete;
  }

  lemma NextAccepted(ram: Memory, l: Link, l': Link, room: uint16)
    requires Faithful(ram, l) && l.phase == TxQuery && room > 0 && l.write.left > 0 && l'.phase == TxPayload
    requires l'.write == Accept(l.write, room) && l'.h.command == l.h.command
    requires l'.h.transfers == l.h.transfers + [Transfer(room, [])]
    ensures Faithful(ram, l')
  {
    AcceptIsExact(l.write, l.h.command, room);
    AcceptFrame(l.write, room);
    SentAppend(l.h.transfers, Transfer(room, []));
    hide Fetch, Accept, Sent;
    assert Unsent(ram, l') == Unsent(ram, l);
  }

  /** The bytes that the transmit DMA puts out. */
  function Outgoing(ram: Memory, l: Link): seq<uint8> {
    if l.phase == TxHeader then Fetch(ram, l.write.header, l.write.headerSize)
    else Fetch(ram, l.write.payload, l.write.chunk)
  }

  predicate OnlyLastGrows(before: seq<Transfer>, after: seq<Transfer>, n: nat) {
    && |before| == |after| > 0
    && (forall i :: 0 <= i < |before| - 1 ==> after[i] == before[i])
    && after[|after| - 1].room == before[|before| - 1].room
    && |after[|after| - 1].sent| == |before[|before| - 1].sent| + n
  }

  lemma SendTakesFromTheUnsent(ram: Memory, l: Link)
    requires Enabled(l, TxDone) && Faithful(ram, l)
    ensures Unsent(ram, l) == Outgoing(ram, l) + Unsent(ram, OnTxDone(ram, l))
  {
    var w := l.write;
    FetchSplit(ram, w.payload, w.chunk, if w.continued then w.left else 0);
    hide Fetch, Sent;
  }

  lemma SendAddsToTheSent(ram: Memory, l: Link)
    requires Enabled(l, TxDone)
    ensures Sent(OnTxDone(ram, l).h.transfers) == Sent(l.h.transfers) + Outgoing(ram, l)
  {
    SentUpdate(l.h.transfers, Outgoing(ram, l));
    hide Fetch, Sent;
  }

  /** What has gone out and what is still to go out always make up the same bytes. */
  lemma SendConserves(ram: Memory, l: Link)
    requires Enabled(l, TxDone) && Faithful(ram, l)
    ensures var l' := OnTxDone(ram, l);
            Sent(l'.h.transfers) + Unsent(ram, l') == Sent(l.h.transfers) + Unsent(ram, l)
  {
    SendTakesFromTheUnsent(ram, l);
    SendAddsToTheSent(ram, l);
    hide Sent, Unsent, Outgoing, OnTxDone, Enabled, Faithful;
  }

  lemma SendFrame(ram: Memory, l: Link)
    requires Enabled(l, TxDone) && Faithful(ram, l)
    ensures var l' := OnTxDone(ram, l);
            && InFlight(l) == |Outgoing(ram, l)| + InFlight(l')
            && OnlyLastGrows(l.h.transfers, l'.h.transfers, |Outgoing(ram, l)|)
            && l'.h.command == l.h.command && l'.write == l.write.(payload := l'.write.payload)
            && if l'.phase == Idle then l'.h.stage == NoCommand && Unsent(ram, l') == []
               else l'.h.stage == l.h.stage && (l'.phase.TxQuery? || l'.phase.TxPayload?)
                    && (l'.phase == TxQuery ==> l.write.continued)
  {
    hide Sent, Fetch;
  }

  lemma GoodSendKeepsTrace(ram: Memory, l: Link)
    requires TraceInv(ram, l) && Enabled(l, TxDone) && GoodRoom(l.h.command, l.h.transfers[0].room)
    ensures TraceInv(ram, OnTxDone(ram, l))
  {
    var l' := OnTxDone(ram, l);
    assert Inv(l') by { StepKeepsInv(ram, l, TxDone); }
    assert l.h.stage == Launched;
    SendConserves(ram, l);
    SendFrame(ram, l);
    hide Inv, Sent, Unsent, OnTxDone, Enabled, Outgoing;
    assert l'.h.transfers[0].room == l.h.transfers[0].room;
    if l'.phase == Idle {
      LastSend(ram, l, l', |Outgoing(ram, l)|);
    } else {
      NotTheLastSend(ram, l, l', |Outgoing(ram, l)|);
    }
    hide Faithful, Complete, GoodRoom, OnlyLastGrows;
  }

  /** The send that closes the command, and one that does not. */
  lemma LastSend(ram: Memory, l: Link, l': Link, n: nat)
    requires Faithful(ram, l) && l'.h.command == l.h.command && OnlyLastGrows(l.h.transfers, l'.h.transfers, n)
    requires Sent(l'.h.transfers) + Unsent(ram, l') == Sent(l.h.transfers) + Unsent(ram, l) && Unsent(ram, l') == []
    requires InFlight(l) == n + InFlight(l')
    ensures Complete(ram, l')
  {
    hide Sent, Unsent;
    assert Sent(l'.h.transfers) + [] == Sent(l'.h.transfers);
  }

  lemma NotTheLastSend(ram: Memory, l: Link, l': Link, n: nat)
    requires Faithful(ram, l) && l'.h.command == l.h.command && OnlyLastGrows(l.h.transfers, l'.h.transfers, n)
    requires Sent(l'.h.transfers) + Unsent(ram, l') == Sent(l.h.transfers) + Unsent(ram, l)
    requires InFlight(l) == n + InFlight(l') && l'.write == l.write.(payload := l'.write.payload)
    requires (l'.phase.TxQuery? || l'.phase.TxPayload?) && (l'.phase == TxQuery ==> l.write.continued)
    ensures Faithful(ram, l')
  {
    hide Sent, Unsent;
  }

  lemma BadSendKeepsTrace(ram: Memory, l: Link)
    requires TraceInv(ram, l) && Enabled(l, TxDone) && !GoodRoom(l.h.command, l.h.transfers[0].room)
    ensures TraceInv(ram, OnTxDone(ram, l))
  {
    var l' := OnTxDone(ram, l);
    assert Inv(l') by { StepKeepsInv(ram, l, TxDone); }
    assert l.h.stage == Launched;
    SentUpdate(l.h.transfers, Outgoing(ram, l));
    hide Inv;
  }

  /** The other steps do not touch the trace, but that a new command begins a new one. */
  lemma OtherStepKeepsTrace(ram: Memory, l: Link, e: Event)
    requires TraceInv(ram, l) && Enabled(l, e)
    requires !e.TxDone? && !(e.RxDone? && l.phase == TxQuery)
    ensures TraceInv(ram, Next(ram, l, e))
  {
    var l' := Next(ram, l, e);
    assert Inv(l') by { StepKeepsInv(ram, l, e); }
    if !e.Fill? {
      assert l'.h.transfers == l.h.transfers && l'.h.command == l.h.command && l'.write == l.write;
      if l.h.transfers != [] && l.h.stage == Launched {
        assert l'.phase == l.phase;
        hide Next, Enabled, Inv, Fetch, Sent;
        assert Unsent(ram, l') == Unsent(ram, l) && InFlight(l') == InFlight(l);
      }
    }
  }

  lemma StepKeepsTrace(ram: Memory, l: Link, e: Event)
    requires TraceInv(ram, l) && Enabled(l, e)
    ensures TraceInv(ram, Next(ram, l, e))
  {
    if e.TxDone? {
      if GoodRoom(l.h.command, l.h.transfers[0].room) {
        GoodSendKeepsTrace(ram, l);
      } else {
        BadSendKeepsTrace(ram, l);
      }
    } else if e.RxDone? && l.phase == TxQuery {
      if Refuses(e.bytes, Room(e.bytes)) {
      } else if l.h.transfers == [] {
        FirstAcceptKeepsTrace(ram, l, e.bytes, e.lineHigh);
      } else {
        NextAcceptKeepsTrace(ram, l, e.bytes, e.lineHigh);
      }
    } else {
      OtherStepKeepsTrace(ram, l, e);
    }
  }

  lemma {:induction false} RunKeepsTrace(ram: Memory, l: Link, es: seq<Event>)
    requires TraceInv(ram, l) && CanRun(ram, l, es)
    ensures TraceInv(ram, Run(ram, l, es))
    decreases |es|
  {
    hide Next, Enabled, TraceInv;
    if es == [] {
    } else {
      StepKeepsTrace(ram, l, es[0]);
      RunKeepsTrace(ram, Next(ram, l, es[0]), es[1..]);
    }
  }

  /** Lossless transmission. When a command has been closed, after whatever replies: its header and payload
      went out exactly once and in order, and no transaction exceeded the room advertised for it, if and
      only if the first accepted room was good; and then every transaction but the last used all its room,
      and there were at most as many transactions as there are bytes of payload. */
  lemma TransmissionIsFaithful(ram: Memory, es: seq<Event>)
    requires CanRun(ram, Init(), es)
    ensures var l := Run(ram, Init(), es);
            var c, ts := l.h.command, l.h.transfers;
            l.h.stage == NoCommand && l.h.finished > 0 ==>
              && ts != []
              && (GoodRoom(c, ts[0].room) <==>
                    Sent(ts) == c.Message(ram) && forall i :: 0 <= i < |ts| ==> Fits(ts[i]))
              && (GoodRoom(c, ts[0].room) ==> && (forall i :: 0 <= i < |ts| - 1 ==> Full(ts[i]))
                                              && |ts| <= if c.payloadSize == 0 then 1 else c.payloadSize)
  {
    RunKeepsTrace(ram, Init(), es);
    var l := Run(ram, Init(), es);
    var c, ts := l.h.command, l.h.transfers;
    if l.h.stage == NoCommand && l.h.finished > 0 && !GoodRoom(c, ts[0].room) {
      if ts[0].room < c.headerSize {
        assert !Fits(ts[0]);
      } else {
        assert |Sent(ts)| < |c.Message(ram)|;
      }
    }
  }

  lemma InitIsTraced(ram: Memory)
    ensures TraceInv(ram, Init())
  {
  }

  lemma TraceIsAPrefix(ram: Memory, l: Link)
    requires TraceInv(ram, l) && l.h.transfers != [] && GoodRoom(l.h.command, l.h.transfers[0].room)
    ensures Sent(l.h.transfers) <= l.h.command.Message(ram)
    ensures forall i :: 0 <= i < |l.h.transfers| ==> Fits(l.h.transfers[i])
  {
    hide Inv, Sent, Unsent, Fetch;
  }

  /** And while it is being sent, what has gone out is a prefix of the command. */
  lemma TransmissionIsAPrefix(ram: Memory, es: seq<Event>)
    requires CanRun(ram, Init(), es)
    ensures var l := Run(ram, Init(), es);
            var c, ts := l.h.command, l.h.transfers;
            ts != [] && GoodRoom(c, ts[0].room) ==>
              && Sent(ts) <= c.Message(ram)
              && forall i :: 0 <= i < |ts| ==> Fits(ts[i])
  {
    InitIsTraced(ram);
    RunKeepsTrace(ram, Init(), es);
    var l := Run(ram, Init(), es);
    hide TraceInv, Run, Sent, Fits, GoodRoom;
    if l.h.transfers != [] && GoodRoom(l.h.command, l.h.transfers[0].room) {
      TraceIsAPrefix(ram, l);
    }
  }

  // ---------------------------------------------------------------------------------------
  // The same on the bytes of the replies
  // ---------------------------------------------------------------------------------------

  /** A reply with the ready state 2 grants the room in its second and third byte, the low one first, when that is not 0. */
  predicate Grants(reply: seq<uint8>) {
    |reply| == 5 && reply[0] == 2 && (reply[1] != 0 || reply[2] != 0)
  }

  /** The last command that was filled in, and the replies since then that granted room for a write. */
  datatype Exchange = Exchange(command: Command, replies: seq<seq<uint8>>)

  function AfterEvent(l: Link, e: Event, x: Exchange): Exchange {
    if e.Fill? then Exchange(e.command, [])
    else if l.phase == TxQuery && e.RxDone? && Grants(e.bytes) then x.(replies := x.replies + [e.bytes])
    else x
  }

  function AfterRun(ram: Memory, l: Link, es: seq<Event>, x: Exchange): Exchange
    requires CanRun(ram, l, es)
    decreases |es|
  {
    if es == [] then x else AfterRun(ram, Next(ram, l, es[0]), es[1..], AfterEvent(l, es[0], x))
  }

  /** Each transaction belongs to one such reply, in order, and its room is the one in that reply. */
  predicate RoomsGranted(ts: seq<Transfer>, replies: seq<seq<uint8>>) {
    && |ts| == |replies|
    && forall i :: 0 <= i < |ts| ==> Grants(replies[i]) && ts[i].room == replies[i][1] as int + 0x100 * replies[i][2] as int
  }

  predicate Corresponds(l: Link, x: Exchange) {
    l.h.command == x.command && RoomsGranted(l.h.transfers, x.replies)
  }

  lemma StepCorresponds(ram: Memory, l: Link, e: Event, x: Exchange)
    requires Enabled(l, e) && Corresponds(l, x)
    ensures Corresponds(Next(ram, l, e), AfterEvent(l, e, x))
  {
    hide Fetch, Accept;
  }

  lemma {:induction false} RunCorresponds(ram: Memory, l: Link, es: seq<Event>, x: Exchange)
    requires CanRun(ram, l, es) && Corresponds(l, x)
    ensures Corresponds(Run(ram, l, es), AfterRun(ram, l, es, x))
    decreases |es|
  {
    hide Next, Enabled, Corresponds, AfterEvent;
    if es == [] {
    } else {
      StepCorresponds(ram, l, es[0], x);
      RunCorresponds(ram, Next(ram, l, es[0]), es[1..], AfterEvent(l, es[0], x));
    }
  }

  /** The bytes of a command: the header and then the payload, from where each of them is in RAM. */
  predicate IsMessage(ram: Memory, c: Command, bytes: seq<uint8>) {
    && |bytes| == c.headerSize + c.payloadSize
    && (forall k :: 0 <= k < c.headerSize ==> bytes[k] == ram(c.header + k))
    && (forall k :: c.headerSize <= k < c.headerSize + c.payloadSize ==> bytes[k] == ram(c.payload + (k - c.headerSize)))
  }

  lemma MessageBytes(ram: Memory, c: Command, bytes: seq<uint8>)
    ensures bytes == c.Message(ram) <==> IsMessage(ram, c, bytes)
  {
    var m := c.Message(ram);
    assert IsMessage(ram, c, m);
    if IsMessage(ram, c, bytes) {
      assert forall k :: 0 <= k < |m| ==> bytes[k] == m[k];
    }
  }

  /** The transactions of a closed command, against the command as it was filled in and the replies as they came. */
  lemma TransmissionAnswersTheReplies(ram: Memory, es: seq<Event>)
    requires CanRun(ram, Init(), es)
    ensures var l := Run(ram, Init(), es);
            var x, ts := AfterRun(ram, Init(), es, Exchange(Init().h.command, [])), l.h.transfers;
            && l.h.command == x.command && RoomsGranted(ts, x.replies)
            && (l.h.stage == NoCommand && l.h.finished > 0 ==>
                  && ts != []
                  && var room := x.replies[0][1] as int + 0x100 * x.replies[0][2] as int;
                     && (room > x.command.headerSize || room >= x.command.headerSize + x.command.payloadSize <==>
                           && IsMessage(ram, x.command, Sent(ts))
                           && forall i :: 0 <= i < |ts| ==> |ts[i].sent| <= x.replies[i][1] as int + 0x100 * x.replies[i][2] as int)
                     && (room > x.command.headerSize || room >= x.command.headerSize + x.command.payloadSize ==>
                           && |ts| <= (if x.command.payloadSize == 0 then 1 else x.command.payloadSize)
                           && forall i :: 0 <= i < |ts| - 1 ==>
                                |ts[i].sent| == x.replies[i][1] as int + 0x100 * x.replies[i][2] as int))
  {
    var l := Run(ram, Init(), es);
    RunCorresponds(ram, Init(), es, Exchange(Init().h.command, []));
    TransmissionIsFaithful(ram, es);
    MessageBytes(ram, l.h.command, Sent(l.h.transfers));
    hide Run, Sent, IsMessage, CanRun, AfterRun;
  }

  /** A command up to the reply to its first question. */
  lemma UpToTheReply(ram: Memory, c: Command, reply: seq<uint8>) returns (es: seq<Event>)
    requires |reply| == HEADER_SIZE && !Refuses(reply, Room(reply))
    ensures CanRun(ram, Init(), es)
    ensures var l := Run(ram, Init(), es);
            && l.phase == TxHeader && l.h.command == c && l.h.transfers == [Transfer(Room(reply), [])] && l.h.finished == 0
            && l.write == Accept(Write(c.header, c.payload, c.headerSize, c.payloadSize, 0, false), Room(reply))
  {
    es := [];
    hide Accept, Room;
    RunExtend(ram, Init(), es, Fill(c));
    es := es + [Fill(c)];
    RunExtend(ram, Init(), es, Commit);
    es := es + [Commit];
    RunExtend(ram, Init(), es, TimerStarted);
    es := es + [TimerStarted];
    RunExtend(ram, Init(), es, TimerFired);
    es := es + [TimerFired];
    RunExtend(ram, Init(), es, RxDone(reply, true));
    es := es + [RxDone(reply, true)];
  }

  /** Both bad rooms happen: a first room of just the header closes the command with nothing but the header sent. */
  lemma PayloadIsDropped(ram: Memory) returns (es: seq<Event>)
    ensures CanRun(ram, Init(), es)
    ensures var l := Run(ram, Init(), es);
            && l.h.stage == NoCommand && l.h.finished > 0 && l.h.command == Command(0, 0, 4, 1)
            && |l.h.transfers| == 1 && l.h.transfers[0].room == 4 && l.h.transfers[0].sent == Fetch(ram, 0, 4)
  {
    es := UpToTheReply(ram, Command(0, 0, 4, 1), [READY_STATE, 4, 0, 0, 0]);
    hide Fetch;
    assert [] + Fetch(ram, 0, 4) == Fetch(ram, 0, 4);
    RunExtend(ram, Init(), es, TxDone);
    es := es + [TxDone];
  }

  /** And a smaller one sends 259 bytes into a room of 3. */
  lemma RoomIsOverrun(ram: Memory) returns (es: seq<Event>)
    ensures CanRun(ram, Init(), es)
    ensures var l := Run(ram, Init(), es);
            && l.h.stage == NoCommand && l.h.finished > 0
            && |l.h.transfers| == 1 && l.h.transfers[0].room == 3 && |l.h.transfers[0].sent| == 259
  {
    es := UpToTheReply(ram, Command(0, 0, 4, 255), [READY_STATE, 3, 0, 0, 0]);
    hide Fetch;
    RunExtend(ram, Init(), es, TxDone);
    es := es + [TxDone];
    RunExtend(ram, Init(), es, TxDone);
    es := es + [TxDone];
  }
}
