/** When the link can hang: in a transfer of no bytes, which the driver starts and never leaves. */
module LinkHangs {
  import opened Bytes
  import opened LinkProtocol
  import opened LinkRuns

  lemma StuckStep(ram: Memory, l: Link, e: Event)
    requires Inv(l) && Stuck(l) && Enabled(l, e)
    ensures Stuck(Next(ram, l, e))
  {
  }

  /** A transfer of no bytes is never left: the driver has no way out of it. */
  lemma {:induction false} StuckForEver(ram: Memory, l: Link, es: seq<Event>)
    requires Inv(l) && Stuck(l) && CanRun(ram, l, es)
    ensures Stuck(Run(ram, l, es))
    decreases |es|
  {
    if es == [] {
    } else {
      StuckStep(ram, l, es[0]);
      StepKeepsInv(ram, l, es[0]);
      hide Next, Enabled, Inv, Stuck;
      StuckForEver(ram, Next(ram, l, es[0]), es[1..]);
    }
  }

  /** The write of a header of four bytes, from the initial state, with no request for events before it. */
  lemma WriteFromInit(ram: Memory) returns (es: seq<Event>)
    ensures CanRun(ram, Init(), es) && forall e :: e in es ==> !e.Arm?
    ensures var l := Run(ram, Init(), es);
            l.phase == Idle && l.listening && l.buffer.size == 0
  {
    es := [];
    RunExtend(ram, Init(), es, Fill(Command(0, 0, 4, 0)));
    es := es + [Fill(Command(0, 0, 4, 0))];
    RunExtend(ram, Init(), es, Commit);
    es := es + [Commit];
    RunExtend(ram, Init(), es, TimerStarted);
    es := es + [TimerStarted];
    RunExtend(ram, Init(), es, TimerFired);
    es := es + [TimerFired];
    RunExtend(ram, Init(), es, RxDone([2, 127, 0, 0, 0], true));
    es := es + [RxDone([2, 127, 0, 0, 0], true)];
    RunExtend(ram, Init(), es, TxDone);
    es := es + [TxDone];
  }

  /** A write before the first request for events ends with the interrupt enabled on the "available" buffer of
      no bytes that zero-initialised storage holds; the next event from the controller then hangs the link. */
  lemma WriteBeforeFirstRequestHangs(ram: Memory) returns (es: seq<Event>)
    ensures CanRun(ram, Init(), es) && Stuck(Run(ram, Init(), es))
    ensures forall e :: e in es ==> !e.Arm?
  {
    es := WriteFromInit(ram);
    RunExtend(ram, Init(), es, Interrupt);
    es := es + [Interrupt];
    RunExtend(ram, Init(), es, RxDone([2, 0, 0, 9, 0], true));
    es := es + [RxDone([2, 0, 0, 9, 0], true)];
  }

  // ---------------------------------------------------------------------------------------
  // The exact condition
  // ---------------------------------------------------------------------------------------

  /** A buffer of no bytes is on offer, and something will make the driver read into it. */
  predicate EmptyBuffer(l: Link) {
    l.buffer.ready && l.buffer.size == 0 && !Ending(l.phase) && (l.listening || l.h.stage != NoCommand)
  }

  /** A header of no bytes is still to be sent. */
  predicate EmptyHeader(l: Link) {
    && l.h.stage != NoCommand && l.write.headerSize == 0
    && l.phase != TxPayload && !(l.phase == TxQuery && l.write.continued)
  }

  predicate Hangable(l: Link) { Stuck(l) || EmptyBuffer(l) || EmptyHeader(l) }

  /** Events that the application does not begin: the hardware's, and the second half of a write. */
  predicate Continues(es: seq<Event>) { forall e :: e in es ==> !e.Fill? && !e.Arm? }

  lemma SafeStep(ram: Memory, l: Link, e: Event)
    requires Inv(l) && !Hangable(l) && Enabled(l, e) && !e.Fill? && !e.Arm?
    ensures !Hangable(Next(ram, l, e))
  {
  }

  lemma {:induction false} SafeRun(ram: Memory, l: Link, es: seq<Event>)
    requires Inv(l) && !Hangable(l) && CanRun(ram, l, es) && Continues(es)
    ensures !Hangable(Run(ram, l, es))
    decreases |es|
  {
    hide Next, Enabled, Inv, Hangable;
    if es == [] {
    } else {
      StepKeepsInv(ram, l, es[0]);
      SafeStep(ram, l, es[0]);
      SafeRun(ram, Next(ram, l, es[0]), es[1..]);
    }
  }

  /** A reply that advertises all the room there can be, and as many bytes. */
  const READY_REPLY: seq<uint8> := [READY_STATE, 255, 255, 255, 255]
  const IDLE_REPLY: seq<uint8> := [READY_STATE, 0, 0, 0, 0]

  /** The event that leads on to the hang, and how many more there are at most. */
  function Towards(l: Link): Event {
    match l.phase
    case Idle => if EmptyBuffer(l) && l.listening then Interrupt else Commit
    case WakeRequested => TimerStarted
    case WakeArmed => TimerFired
    case TxQuery => RxDone(READY_REPLY, true)
    case TxHeader => TxDone
    case TxPayload => TxDone
    case RxQuery =>
      if EmptyBuffer(l) then RxDone(READY_REPLY, true) else if l.h.stage == Filled then Commit else RxDone(IDLE_REPLY, false)
    case RxPayload => if l.h.stage == Filled then Commit else RxDone(seq(l.buffer.length, _ => 0), true)
    case EndRequested => if l.h.stage == Filled then Commit else TimerStarted
    case EndArmed => if l.h.stage == Filled then Commit else TimerFired
  }

  function Distance(l: Link): nat {
    match l.phase
    case Idle => if EmptyBuffer(l) && l.listening then 1 else 9
    case WakeRequested => 8
    case WakeArmed => 7
    case TxQuery => if l.write.continued then 3 else 6
    case TxHeader => 5
    case TxPayload => if l.write.continued && l.write.left != 0 then 4 else 2
    case RxQuery => if EmptyBuffer(l) then 0 else if l.h.stage == Filled then 20 else 10
    case RxPayload => if l.h.stage == Filled then 20 else 13
    case EndRequested => if l.h.stage == Filled then 20 else 12
    case EndArmed => if l.h.stage == Filled then 20 else 11
  }

  lemma HangStep(ram: Memory, l: Link)
    requires Inv(l) && Hangable(l) && !Stuck(l)
    ensures var e := Towards(l);
      && Enabled(l, e) && !e.Fill? && !e.Arm?
      && (Stuck(Next(ram, l, e)) || (Hangable(Next(ram, l, e)) && Distance(Next(ram, l, e)) < Distance(l)))
  {
  }

  lemma {:induction false} HangRun(ram: Memory, l: Link) returns (es: seq<Event>)
    requires Inv(l) && Hangable(l)
    ensures Continues(es) && CanRun(ram, l, es) && Stuck(Run(ram, l, es))
    decreases Distance(l)
  {
    if Stuck(l) {
      es := [];
    } else {
      var e := Towards(l);
      HangStep(ram, l);
      StepKeepsInv(ram, l, e);
      var rest := [];
      var l' := Next(ram, l, e);
      if !Stuck(l') {
        rest := HangRun(ram, l');
      }
      es := [e] + rest;
      assert es[1..] == rest;
    }
  }

  /** In any state of the link a hang can follow, without a further call of the application, exactly when it is hangable. */
  lemma HangsIffHangable(ram: Memory, l: Link)
    requires Inv(l)
    ensures Hangable(l) <==> exists es :: Continues(es) && CanRun(ram, l, es) && Stuck(Run(ram, l, es))
  {
    if Hangable(l) {
      var es := HangRun(ram, l);
    } else {
      forall es | Continues(es) && CanRun(ram, l, es)
        ensures !Stuck(Run(ram, l, es))
      {
        SafeRun(ram, l, es);
      }
    }
  }

  /** What an application has to look at before it fills in a command or offers a buffer. */
  predicate SafeCall(l: Link, e: Event) {
    match e
    case Fill(c) => c.headerSize > 0 && !(l.buffer.ready && l.buffer.size == 0 && !Ending(l.phase))
    case Arm(_, size) => size > 0
    case _ => true
  }

  /** A call makes a sound link hangable exactly when it fails that test. */
  lemma SafeCallIsExact(ram: Memory, l: Link, e: Event)
    requires Inv(l) && !Hangable(l) && Enabled(l, e)
    ensures Hangable(Next(ram, l, e)) <==> !SafeCall(l, e)
  {
    if !e.Fill? && !e.Arm? {
      SafeStep(ram, l, e);
    }
  }

  /** Every call in the run passes the test in the state that it meets. */
  predicate Careful(ram: Memory, l: Link, es: seq<Event>)
    requires CanRun(ram, l, es)
    decreases |es|
  {
    es == [] || (SafeCall(l, es[0]) && Careful(ram, Next(ram, l, es[0]), es[1..]))
  }

  /** Over a whole run the link is at no point hangable exactly when every call passed the test. */
  lemma {:induction false} CarefulIsExact(ram: Memory, l: Link, es: seq<Event>)
    requires Inv(l) && !Hangable(l) && CanRun(ram, l, es)
    ensures Careful(ram, l, es) <==> forall k :: 0 <= k <= |es| ==> !Hangable(StateAt(ram, l, es, k))
    decreases |es|
  {
    hide Next, Enabled, Inv, Hangable, SafeCall;
    RunSplit(ram, l, es, 0);
    assert es[..0] == [];
    if es == [] {
    } else {
      var l' := Next(ram, l, es[0]);
      SafeCallIsExact(ram, l, es[0]);
      StepKeepsInv(ram, l, es[0]);
      forall k | 0 < k <= |es|
        ensures StateAt(ram, l, es, k) == StateAt(ram, l', es[1..], k - 1)
      {
        StateAfterFirst(ram, l, es, k);
      }
      assert StateAt(ram, l', es[1..], 0) == l' by {
        RunSplit(ram, l', es[1..], 0);
        assert es[1..][..0] == [];
      }
      if !Hangable(l') {
        CarefulIsExact(ram, l', es[1..]);
        forall k | 0 <= k <= |es| - 1
          ensures StateAt(ram, l', es[1..], k) == StateAt(ram, l, es, k + 1)
        {
        }
      } else {
        assert Hangable(StateAt(ram, l, es, 1));
      }
    }
  }

  /** From its initial state the link is sound, whatever zero-initialised storage offers. */
  lemma InitIsSafe()
    ensures Inv(Init()) && !Hangable(Init())
  {
  }

  /**
    * An application that passes the test at every call is never in for a hang, and the bus is then busy exactly when
    * one activity is outstanding, with exactly one.
    */
  lemma CarefulNeverHangs(ram: Memory, es: seq<Event>)
    requires CanRun(ram, Init(), es) && Careful(ram, Init(), es)
    ensures var l := Run(ram, Init(), es);
            && !Hangable(l)
            && (l.phase != Idle <==> exists a :: Outstanding(l, a))
            && (forall a, b :: Outstanding(l, a) && Outstanding(l, b) ==> a == b)
  {
    InitIsSafe();
    CarefulIsExact(ram, Init(), es);
    assert es[..|es|] == es;
    assert Run(ram, Init(), es) == StateAt(ram, Init(), es, |es|);
    RunKeepsInv(ram, Init(), es);
    BusyMeansOneActivity(Run(ram, Init(), es));
  }

  /** The test is passed by an application that requests events before all else and leaves nothing empty. */
  predicate WellUsed(es: seq<Event>) {
    && (es != [] ==> es[0].Arm?)
    && (forall e :: e in es && e.Arm? ==> e.size > 0)
    && (forall e :: e in es && e.Fill? ==> e.command.headerSize > 0)
  }

  lemma {:induction false} FilledBuffers(ram: Memory, l: Link, es: seq<Event>)
    requires l.buffer.size > 0 && CanRun(ram, l, es)
    requires forall e :: e in es && e.Arm? ==> e.size > 0
    requires forall e :: e in es && e.Fill? ==> e.command.headerSize > 0
    ensures Careful(ram, l, es)
    decreases |es|
  {
    if es == [] {
    } else {
      assert Next(ram, l, es[0]).buffer.size > 0;
      hide Next, Enabled;
      FilledBuffers(ram, Next(ram, l, es[0]), es[1..]);
    }
  }

  lemma WellUsedIsCareful(ram: Memory, es: seq<Event>)
    requires WellUsed(es) && CanRun(ram, Init(), es)
    ensures Careful(ram, Init(), es)
  {
    if es != [] {
      FilledBuffers(ram, Next(ram, Init(), es[0]), es[1..]);
    }
  }

  /** Under such an application the link never hangs. */
  lemma WellUsedNeverHangs(ram: Memory, es: seq<Event>)
    requires WellUsed(es) && CanRun(ram, Init(), es)
    ensures var l := Run(ram, Init(), es);
            && !Stuck(l)
            && (l.phase != Idle <==> exists a :: Outstanding(l, a))
            && (forall a, b :: Outstanding(l, a) && Outstanding(l, b) ==> a == b)
  {
    WellUsedIsCareful(ram, es);
    CarefulNeverHangs(ram, es);
  }
}
