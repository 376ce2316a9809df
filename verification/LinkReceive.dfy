/** The packets handed up are what the application offered room for and the controller sent, in order. */
module LinkReceive {
  import opened Bytes
  import opened LinkProtocol

  /** What an event adds to the buffers offered, to the lengths the controller announced, and to the payloads it sent. */
  datatype Offer = Offer(address: int, size: uint8)

  function Offered(e: Event): seq<Offer> {
    if e.Arm? then [Offer(e.address, e.size)] else []
  }

  /** A reply with the ready state 2 announces the number in its last two bytes, the low one first, when that is not 0. */
  function Announced(l: Link, e: Event): seq<uint16> {
    if l.phase == RxQuery && e.RxDone? && |e.bytes| == 5 && e.bytes[0] == 2 && (e.bytes[3] != 0 || e.bytes[4] != 0)
    then [e.bytes[3] as int + 0x100 * e.bytes[4] as int]
    else []
  }

  function Payload(l: Link, e: Event): seq<seq<uint8>> {
    if l.phase == RxPayload && e.RxDone? then [e.bytes] else []
  }

  /** The same over a run. None of them looks at what the link remembers. */
  function Offers(es: seq<Event>): seq<Offer> {
    if es == [] then [] else Offered(es[0]) + Offers(es[1..])
  }

  function Announcements(ram: Memory, l: Link, es: seq<Event>): seq<uint16>
    requires CanRun(ram, l, es)
    decreases |es|
  {
    if es == [] then [] else Announced(l, es[0]) + Announcements(ram, Next(ram, l, es[0]), es[1..])
  }

  function Payloads(ram: Memory, l: Link, es: seq<Event>): seq<seq<uint8>>
    requires CanRun(ram, l, es)
    decreases |es|
  {
    if es == [] then [] else Payload(l, es[0]) + Payloads(ram, Next(ram, l, es[0]), es[1..])
  }

  /** Packet `i` went to buffer `i`, with payload `i`, cut to the buffer by asking for no more than that. */
  predicate InOrder(delivered: seq<Packet>, offers: seq<Offer>, counts: seq<uint16>, payloads: seq<seq<uint8>>) {
    && |delivered| <= |offers| && |delivered| <= |counts| && |delivered| <= |payloads|
    && forall i :: 0 <= i < |delivered| ==>
         && delivered[i].address == offers[i].address && delivered[i].data == payloads[i]
         && delivered[i].length == |payloads[i]| == if counts[i] < offers[i].size then counts[i] else offers[i].size
  }

  predicate Receipts(l: Link, offers: seq<Offer>, counts: seq<uint16>, payloads: seq<seq<uint8>>) {
    var n := |l.h.delivered|;
    && Inv(l) && |offers| == l.h.armed
    && |payloads| == n + (if Ending(l.phase) then 1 else 0)
    && |counts| == n + (if Ending(l.phase) || l.phase == RxPayload then 1 else 0)
    && InOrder(l.h.delivered, offers, counts, payloads)
    && (offers != [] ==> offers[|offers| - 1] == Offer(l.buffer.address, l.buffer.size))
    && (Ending(l.phase) ==> payloads[n] == l.h.incoming)
    && (Ending(l.phase) || l.phase == RxPayload ==> l.buffer.length == Min(counts[n], l.buffer.size))
  }

  /** The hand-up. */
  lemma DeliveryKeepsReceipts(ram: Memory, l: Link, offers: seq<Offer>, counts: seq<uint16>, payloads: seq<seq<uint8>>)
    requires Receipts(l, offers, counts, payloads) && l.phase == EndArmed
    ensures Receipts(Next(ram, l, TimerFired), offers, counts, payloads)
  {
    StepKeepsInv(ram, l, TimerFired);
    hide Inv;
  }

  /** A reply that announces bytes, and their reception. */
  lemma ReceptionKeepsReceipts(ram: Memory, l: Link, e: Event, offers: seq<Offer>, counts: seq<uint16>, payloads: seq<seq<uint8>>)
    requires Receipts(l, offers, counts, payloads) && Enabled(l, e) && e.RxDone?
    requires l.phase == RxPayload || Announced(l, e) != []
    ensures Receipts(Next(ram, l, e), offers, counts + Announced(l, e), payloads + Payload(l, e))
  {
    StepKeepsInv(ram, l, e);
    hide Inv;
  }

  lemma OfferKeepsReceipts(ram: Memory, l: Link, e: Event, offers: seq<Offer>, counts: seq<uint16>, payloads: seq<seq<uint8>>)
    requires Receipts(l, offers, counts, payloads) && Enabled(l, e) && e.Arm?
    ensures Receipts(Next(ram, l, e), offers + Offered(e), counts, payloads)
  {
    StepKeepsInv(ram, l, e);
    assert !Ending(l.phase) && l.phase != RxPayload;
    hide Inv;
  }

  /** What the other steps do not touch. */
  predicate SameReception(l: Link, l': Link) {
    && l'.buffer == l.buffer && l'.h.delivered == l.h.delivered && l'.h.armed == l.h.armed && l'.h.incoming == l.h.incoming
    && (Ending(l'.phase) <==> Ending(l.phase)) && (l'.phase == RxPayload <==> l.phase == RxPayload)
  }

  lemma OtherStep(ram: Memory, l: Link, e: Event)
    requires Inv(l) && Enabled(l, e) && !e.Arm? && !(e.TimerFired? && l.phase == EndArmed)
    requires e.RxDone? ==> l.phase != RxPayload && Announced(l, e) == []
    ensures SameReception(l, Next(ram, l, e))
  {
    hide Inv;
  }

  lemma FrameKeepsReceipts(l: Link, l': Link, offers: seq<Offer>, counts: seq<uint16>, payloads: seq<seq<uint8>>)
    requires Receipts(l, offers, counts, payloads) && Inv(l') && SameReception(l, l')
    ensures Receipts(l', offers, counts, payloads)
  {
    hide Inv;
  }

  lemma StepKeepsReceipts(ram: Memory, l: Link, e: Event, offers: seq<Offer>, counts: seq<uint16>, payloads: seq<seq<uint8>>)
    requires Receipts(l, offers, counts, payloads) && Enabled(l, e)
    ensures Receipts(Next(ram, l, e), offers + Offered(e), counts + Announced(l, e), payloads + Payload(l, e))
  {
    hide Next, Enabled, Receipts, Inv, SameReception;
    assert offers + [] == offers && counts + [] == counts && payloads + [] == payloads;
    if e.RxDone? && (l.phase == RxPayload || Announced(l, e) != []) {
      ReceptionKeepsReceipts(ram, l, e, offers, counts, payloads);
    } else if e.TimerFired? && l.phase == EndArmed {
      DeliveryKeepsReceipts(ram, l, offers, counts, payloads);
    } else if e.Arm? {
      OfferKeepsReceipts(ram, l, e, offers, counts, payloads);
    } else {
      Sound(l, offers, counts, payloads);
      StepKeepsInv(ram, l, e);
      OtherStep(ram, l, e);
      FrameKeepsReceipts(l, Next(ram, l, e), offers, counts, payloads);
    }
  }

  lemma Sound(l: Link, offers: seq<Offer>, counts: seq<uint16>, payloads: seq<seq<uint8>>)
    requires Receipts(l, offers, counts, payloads)
    ensures Inv(l)
  {
  }

  lemma {:induction false} RunKeepsReceipts(ram: Memory, l: Link, es: seq<Event>,
                                            offers: seq<Offer>, counts: seq<uint16>, payloads: seq<seq<uint8>>)
    requires Receipts(l, offers, counts, payloads) && CanRun(ram, l, es)
    ensures Receipts(Run(ram, l, es), offers + Offers(es), counts + Announcements(ram, l, es), payloads + Payloads(ram, l, es))
    decreases |es|
  {
    hide Next, Enabled, Receipts, Offered, Announced, Payload;
    if es == [] {
      assert offers + [] == offers && counts + [] == counts && payloads + [] == payloads;
    } else {
      var e, l' := es[0], Next(ram, l, es[0]);
      StepKeepsReceipts(ram, l, e, offers, counts, payloads);
      RunKeepsReceipts(ram, l', es[1..], offers + Offered(e), counts + Announced(l, e), payloads + Payload(l, e));
      Regroup(offers, Offered(e), Offers(es[1..]));
      Regroup(counts, Announced(l, e), Announcements(ram, l', es[1..]));
      Regroup(payloads, Payload(l, e), Payloads(ram, l', es[1..]));
    }
  }

  lemma Regroup<T>(a: seq<T>, b: seq<T>, c: seq<T>)
    ensures a + b + c == a + (b + c)
  {
  }

  lemma Received(l: Link, offers: seq<Offer>, counts: seq<uint16>, payloads: seq<seq<uint8>>)
    requires Receipts(l, offers, counts, payloads)
    ensures InOrder(l.h.delivered, offers, counts, payloads) && |l.h.delivered| <= |offers| <= |l.h.delivered| + 1
    ensures |offers| > |l.h.delivered| ==> l.buffer.ready && offers[|offers| - 1] == Offer(l.buffer.address, l.buffer.size)
    ensures |payloads| == |l.h.delivered| + (if Ending(l.phase) then 1 else 0)
  {
  }

  lemma NothingReceived()
    ensures Receipts(Init(), [], [], [])
  {
  }

  /**
    * Over every run the packets handed up are, in order, the buffers offered with the payloads received. No buffer is
    * handed up twice or left out, and no payload is lost or doubled, but that the last buffer can still be on offer and
    * the last payload waiting for its hand-up.
    */
  lemma ReceptionIsFaithful(ram: Memory, es: seq<Event>)
    requires CanRun(ram, Init(), es)
    ensures var l := Run(ram, Init(), es);
            var offers, payloads := Offers(es), Payloads(ram, Init(), es);
            && InOrder(l.h.delivered, offers, Announcements(ram, Init(), es), payloads)
            && |l.h.delivered| <= |offers| <= |l.h.delivered| + 1
            && (|offers| > |l.h.delivered| ==> l.buffer.ready && offers[|offers| - 1] == Offer(l.buffer.address, l.buffer.size))
            && |payloads| == |l.h.delivered| + (if Ending(l.phase) then 1 else 0)
  {
    NothingReceived();
    hide Inv, Run, CanRun, InOrder, Offers, Announcements, Payloads, Receipts;
    RunKeepsReceipts(ram, Init(), es, [], [], []);
    assert [] + Offers(es) == Offers(es);
    assert [] + Announcements(ram, Init(), es) == Announcements(ram, Init(), es);
    assert [] + Payloads(ram, Init(), es) == Payloads(ram, Init(), es);
    Received(Run(ram, Init(), es), Offers(es), Announcements(ram, Init(), es), Payloads(ram, Init(), es));
  }
}
