/** What holds over whole runs of the link, whatever the order in which its events arrive. */
module LinkRuns {
  import opened Bytes
  import opened LinkProtocol

  function StateAt(ram: Memory, l: Link, es: seq<Event>, k: nat): Link
    requires CanRun(ram, l, es) && k <= |es|
  {
    RunSplit(ram, l, es, k);
    Run(ram, l, es[..k])
  }

  lemma StateAfterFirst(ram: Memory, l: Link, es: seq<Event>, k: nat)
    requires CanRun(ram, l, es) && 0 < k <= |es|
    ensures StateAt(ram, l, es, k) == StateAt(ram, Next(ram, l, es[0]), es[1..], k - 1)
  {
    hide Next, Enabled;
    assert es[..k][1..] == es[1..][..k - 1];
    RunSplit(ram, l, es, k);
  }

  // ---------------------------------------------------------------------------------------
  // A parked command
  // ---------------------------------------------------------------------------------------

  /** The command of `from` is still waiting, untouched, behind a read. */
  predicate StillParked(from: Link, l: Link) {
    l.h.stage == Parked && Reading(l.phase) && l.write == from.write && l.h.launched == from.h.launched
  }

  /** The command of `from` has just been started. */
  predicate JustLaunched(from: Link, l: Link) {
    l.h.stage == Launched && l.phase == WakeRequested && l.write == from.write && l.h.launched == from.h.launched + 1
  }

  predicate EndsRead(l: Link, e: Event) {
    || (l.phase == EndArmed && e == TimerFired)
    || (l.phase == RxQuery && e.RxDone? && !e.lineHigh)
  }

  lemma ParkedStep(ram: Memory, from: Link, l: Link, e: Event)
    requires Inv(l) && StillParked(from, l) && Enabled(l, e)
    ensures var l' := Next(ram, l, e);
            StillParked(from, l') || (JustLaunched(from, l') && EndsRead(l, e))
  {
  }

  /** A command that arrives during a read stays parked for `k` events and is launched by the very step
      that ends the read, with what the application filled in; in between the bus is never idle. */
  lemma {:induction false} ParkedCommandFollowsTheRead(ram: Memory, from: Link, l: Link, es: seq<Event>) returns (k: nat)
    requires Inv(l) && StillParked(from, l) && CanRun(ram, l, es)
    ensures k <= |es|
    ensures forall j :: 0 <= j <= k ==> StillParked(from, StateAt(ram, l, es, j))
    ensures k < |es| ==> && EndsRead(StateAt(ram, l, es, k), es[k])
                         && JustLaunched(from, StateAt(ram, l, es, k + 1))
    decreases |es|
  {
    hide Next, Enabled, Inv, Reading;
    RunSplit(ram, l, es, 0);
    assert es[..0] == [];
    k := 0;
    if es == [] {
    } else {
      var l' := Next(ram, l, es[0]);
      ParkedStep(ram, from, l, es[0]);
      StateAfterFirst(ram, l, es, 1);
      assert es[1..][..0] == [];
      if StillParked(from, l') {
        StepKeepsInv(ram, l, es[0]);
        var k' := ParkedCommandFollowsTheRead(ram, from, l', es[1..]);
        k := k' + 1;
        forall j | 0 < j <= |es|
          ensures StateAt(ram, l, es, j) == StateAt(ram, l', es[1..], j - 1)
        {
          StateAfterFirst(ram, l, es, j);
        }
      }
    }
  }

  /** No command is lost or doubled: of the commands submitted in a run, every one was launched exactly
      once, but for one that may be waiting behind a read; and of those launched every one was closed,
      but for one that may be on the bus. An idle bus owes nothing. */
  lemma CommandsAreConserved(ram: Memory, es: seq<Event>)
    requires CanRun(ram, Init(), es)
    ensures var l := Run(ram, Init(), es);
            && l.h.finished <= l.h.launched <= l.h.written <= l.h.finished + 1
            && (l.phase == Idle ==> l.h.finished == l.h.written && (l.h.stage.NoCommand? || l.h.stage.Filled?))
            && (l.h.launched < l.h.written <==> l.h.stage == Parked)
            && (l.h.stage == Parked ==> Reading(l.phase))
  {
    RunKeepsInv(ram, Init(), es);
  }

  /** Counted on the run itself: submissions, starts of a wake-up, and ends of a write. */
  datatype Tally = Tally(submitted: nat, started: nat, closed: nat)

  function Count(ram: Memory, l: Link, es: seq<Event>, t: Tally): Tally
    requires CanRun(ram, l, es)
    decreases |es|
  {
    if es == [] then t else Count(ram, Next(ram, l, es[0]), es[1..], CountStep(l, es[0], Next(ram, l, es[0]), t))
  }

  function CountStep(l: Link, e: Event, l': Link, t: Tally): Tally {
    Tally(t.submitted + (if e == Commit then 1 else 0),
          t.started + (if l.phase != WakeRequested && l'.phase == WakeRequested then 1 else 0),
          t.closed + (if Writing(l.phase) && !Writing(l'.phase) then 1 else 0))
  }

  lemma StepIsCounted(ram: Memory, l: Link, e: Event)
    requires Inv(l) && Enabled(l, e)
    ensures var l' := Next(ram, l, e);
            Tally(l'.h.written, l'.h.launched, l'.h.finished)
            == CountStep(l, e, l', Tally(l.h.written, l.h.launched, l.h.finished))
  {
  }

  lemma {:induction false} RunIsCounted(ram: Memory, l: Link, es: seq<Event>)
    requires Inv(l) && CanRun(ram, l, es)
    ensures var f := Run(ram, l, es);
            Tally(f.h.written, f.h.launched, f.h.finished) == Count(ram, l, es, Tally(l.h.written, l.h.launched, l.h.finished))
    decreases |es|
  {
    hide Next, Enabled, Inv, CountStep;
    if es == [] {
    } else {
      StepIsCounted(ram, l, es[0]);
      StepKeepsInv(ram, l, es[0]);
      RunIsCounted(ram, Next(ram, l, es[0]), es[1..]);
    }
  }

  /** Every submission leads to one start on the bus and every start to one end, but for the last of each. */
  lemma SubmissionsReachTheBus(ram: Memory, es: seq<Event>)
    requires CanRun(ram, Init(), es)
    ensures var t := Count(ram, Init(), es, Tally(0, 0, 0));
            && t.closed <= t.started <= t.submitted <= t.closed + 1
            && (Run(ram, Init(), es).phase == Idle ==> t.closed == t.submitted)
  {
    RunIsCounted(ram, Init(), es);
    CommandsAreConserved(ram, es);
  }

  // ---------------------------------------------------------------------------------------
  // The event buffer
  // ---------------------------------------------------------------------------------------

  lemma BufferStep(ram: Memory, l: Link, e: Event)
    requires Inv(l) && !l.buffer.ready && Enabled(l, e) && !e.Arm?
    ensures var l' := Next(ram, l, e);
            l'.buffer == l.buffer && l'.h.delivered == l.h.delivered && !l'.listening && !Reading(l'.phase)
  {
  }

  /** Once a buffer was handed up, nothing reads into it and its length stays that of the packet handed up,
      until the application requests events again; a write that goes on or starts meanwhile changes neither. */
  lemma {:induction false} HandedUpBufferIsLeftAlone(ram: Memory, l: Link, es: seq<Event>)
    requires Inv(l) && !l.buffer.ready && CanRun(ram, l, es)
    requires forall e :: e in es ==> !e.Arm?
    ensures var f := Run(ram, l, es);
            && f.buffer == l.buffer && f.h.delivered == l.h.delivered && !f.listening && !Reading(f.phase)
            && var p := f.h.delivered[|f.h.delivered| - 1]; p.address == f.buffer.address && p.length == f.buffer.length
    decreases |es|
  {
    if es == [] {
    } else {
      BufferStep(ram, l, es[0]);
      StepKeepsInv(ram, l, es[0]);
      hide Next, Enabled;
      HandedUpBufferIsLeftAlone(ram, Next(ram, l, es[0]), es[1..]);
    }
  }

  /** Every buffer that the application offered is handed up exactly once, but for the one still offered;
      each packet has the length that it says. */
  lemma BuffersAreConserved(ram: Memory, es: seq<Event>)
    requires CanRun(ram, Init(), es)
    ensures var l := Run(ram, Init(), es);
            && |l.h.delivered| <= l.h.armed <= |l.h.delivered| + 1
            && (l.h.armed > |l.h.delivered| ==> l.buffer.ready)
            && forall i :: 0 <= i < |l.h.delivered| ==> |l.h.delivered[i].data| == l.h.delivered[i].length
  {
    RunKeepsInv(ram, Init(), es);
  }

  /** The interrupt is enabled by a request, by the end of a write with a buffer on offer, and until a start or the end of a read. */
  lemma InterruptIsExact(ram: Memory, l: Link, e: Event)
    requires Inv(l) && Enabled(l, e)
    ensures var l' := Next(ram, l, e);
            l'.listening <==> || e.Arm?
                              || (Writing(l.phase) && l'.phase == Idle && l.buffer.ready)
                              || (l.listening && !(l.phase != WakeRequested && l'.phase == WakeRequested)
                                  && !(Reading(l.phase) && l'.phase == Idle))
  {
  }

  // ---------------------------------------------------------------------------------------
  // Progress
  // ---------------------------------------------------------------------------------------

  datatype Activity = ATimerStart | ATimer | ARxDma | ATxDma

  /** The activity that an event ends, for the events that the application does not cause. */
  function Ends(e: Event): (a: set<Activity>) {
    match e
    case TimerStarted => {ATimerStart}
    case TimerFired => {ATimer}
    case RxDone(_, _) => {ARxDma}
    case TxDone => {ATxDma}
    case _ => {}
  }

  ghost predicate Outstanding(l: Link, a: Activity) {
    exists e :: Enabled(l, e) && Ends(e) == {a}
  }

  /** A DMA transfer of no bytes has been started. */
  predicate Stuck(l: Link) {
    || (l.phase == TxHeader && l.write.headerSize == 0)
    || (l.phase == RxPayload && l.buffer.length == 0)
  }

  /** The bus is busy exactly when one activity is outstanding, unless it waits for a transfer of no bytes. */
  lemma BusyMeansOneActivity(l: Link)
    requires Inv(l)
    ensures (exists a :: Outstanding(l, a)) <==> l.phase != Idle && !Stuck(l)
    ensures forall a, b :: Outstanding(l, a) && Outstanding(l, b) ==> a == b
  {
    if l.phase != Idle && !Stuck(l) {
      var bytes := seq(RxCount(l), i => 0);
      var e := match l.phase
        case WakeRequested => TimerStarted
        case EndRequested => TimerStarted
        case WakeArmed => TimerFired
        case EndArmed => TimerFired
        case TxHeader => TxDone
        case TxPayload => TxDone
        case _ => RxDone(bytes, true);
      assert Enabled(l, e);
      var a :| a in Ends(e);
      assert Ends(e) == {a};
      assert Outstanding(l, a);
    }
  }
}
