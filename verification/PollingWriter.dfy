/**
  The polling writer of the BlueNRG, in its optimised form, which splits a message over several transactions,
  and in its plain form, which sends a message whole or not at all. Both are proved against what the
  interrupt-driven driver is proved against: the header and the payload, once and in order, in
  transactions that fit the room advertised for them.
 */
module PollingWriter {
  import opened Bytes
  import opened LinkProtocol
  import opened LinkTransmit

  /** One attempt: the first two bytes that the controller answers, its status and its room, and whether the time is up
      after it. */
  datatype Attempt = Attempt(status: uint8, room: uint8, expired: bool)

  const NOT_AWAKE := -1
  const NO_ROOM := -2

  /** Every transaction used all the room it had. */
  predicate AllFull(ts: seq<Transfer>) {
    forall i :: 0 <= i < |ts| ==> Full(ts[i])
  }

  /** No attempt met a controller with room for `n` bytes. */
  predicate NoneFits(attempts: seq<Attempt>, n: nat) {
    forall k :: 0 <= k < |attempts| ==> attempts[k].status != 2 || attempts[k].room < n
  }

  /** The rooms of the attempts that can take something: awake, and with room for what is left of the first `head` bytes. */
  function Rooms(tried: seq<Attempt>, head: nat): seq<int> {
    if tried == [] then [] else
    var before, a := Rooms(tried[..|tried| - 1], head), tried[|tried| - 1];
    if a.status == 2 && a.room >= (if before == [] then head else 0) then before + [a.room] else before
  }

  function Sum(rooms: seq<int>): int {
    if rooms == [] then 0 else Sum(rooms[..|rooms| - 1]) + rooms[|rooms| - 1]
  }

  function RoomsOf(ts: seq<Transfer>): seq<int> { seq(|ts|, i requires 0 <= i < |ts| => ts[i].room) }

  lemma OneMoreRoom(tried: seq<Attempt>, head: nat, a: Attempt, ts: seq<Transfer>, t: Transfer)
    requires RoomsOf(ts) == Rooms(tried, head) && t.room == a.room
    ensures var takes := a.status == 2 && a.room >= if ts == [] then head else 0;
      Rooms(tried + [a], head) == if takes then RoomsOf(ts + [t]) else RoomsOf(ts)
  {
    assert (tried + [a])[..|tried|] == tried;
    assert RoomsOf(ts + [t]) == RoomsOf(ts) + [t.room];
    assert ts == [] <==> RoomsOf(ts) == [];
  }

  /** Transactions that use all their room have sent as much as their rooms are together. */
  lemma {:induction false} SumOfRooms(ts: seq<Transfer>)
    requires AllFull(ts)
    ensures Sum(RoomsOf(ts)) == |Sent(ts)|
  {
    if ts == [] {
    } else {
      var before := ts[..|ts| - 1];
      SumOfRooms(before);
      assert RoomsOf(ts)[..|ts| - 1] == RoomsOf(before);
    }
  }

  lemma NoneYet(n: nat)
    ensures NoneFits([], n)
  {
  }

  lemma NoneStill(attempts: seq<Attempt>, a: Attempt, n: nat)
    requires NoneFits(attempts, n)
    ensures a.status != 2 || a.room < n ==> NoneFits(attempts + [a], n)
  {
  }

  /** How far the optimised loop has come: nothing yet, or the header and `offset` bytes of payload. The
      offset is kept in a byte, and stays within the payload's length taken as a byte. */
  predicate Progress(data1: seq<uint8>, data2: seq<uint8>, ts: seq<Transfer>, n1: nat, offset: nat) {
    && offset <= |data2| % 0x100
    && (forall i :: 0 <= i < |ts| ==> Fits(ts[i]))
    && if ts == [] then n1 == |data1| && offset == 0
       else n1 == 0 && Sent(ts) == data1 + data2[..offset]
  }

  /** An accepted attempt takes the loop further, and leaves something only when the room was used up. */
  lemma Advance(data1: seq<uint8>, data2: seq<uint8>, ts: seq<Transfer>, n1: nat, offset: nat, room: uint8, ret: nat)
    requires Progress(data1, data2, ts, n1, offset)
    requires n1 <= room && ret == Min(|data2| % 0x100 - offset, room - n1)
    ensures Progress(data1, data2, ts + [Transfer(room, data1[..n1] + data2[offset..][..ret])], 0, offset + ret)
  {
    var t := Transfer(room, data1[..n1] + data2[offset..][..ret]);
    SentAppend(ts, t);
    assert Sent([]) == [];
    hide Sent;
    Chunks(data1, data2, n1, offset, ret);
    assert Fits(t);
  }

  lemma Chunks(data1: seq<uint8>, data2: seq<uint8>, n1: nat, offset: nat, ret: nat)
    requires offset + ret <= |data2|
    ensures n1 == 0 ==> data1 + data2[..offset] + (data1[..n1] + data2[offset..][..ret]) == data1 + data2[..offset + ret]
    ensures n1 == |data1| && offset == 0 ==> data1[..n1] + data2[offset..][..ret] == data1 + data2[..offset + ret]
  {
  }

  /** What the loop takes for the first buffer: as much as its length passed on as a byte. */
  function Head(data1: seq<uint8>): seq<uint8> { data1[..ToUint8(|data1|)] }

  lemma HeadIsPrefix(data1: seq<uint8>, n1: nat)
    requires n1 == |data1| || n1 == 0
    ensures ToUint8(n1) <= |data1| && ToUint8(n1) <= |Head(data1)| && data1[..ToUint8(n1)] == Head(data1)[..ToUint8(n1)]
  {
  }

  lemma Narrowed(x: nat)
    requires x < 0x100
    ensures ToUint8(x) == x
  {
  }

  /** How much of the payload goes out in rooms that are so much together: what fits, up to its length taken as a byte. */
  function Reached(data1: seq<uint8>, data2: seq<uint8>, rooms: int): int {
    if rooms - |data1| < |data2| % 0x100 then rooms - |data1| else |data2| % 0x100
  }

  lemma ReachedWithOneMore(data1: seq<uint8>, data2: seq<uint8>, ts: seq<Transfer>, t: Transfer, offset: nat, ret: nat)
    requires offset == (if ts == [] then 0 else Reached(data1, data2, Sum(RoomsOf(ts)))) && offset <= |data2| % 0x100
    requires var n1 := if ts == [] then |data1| else 0; n1 <= t.room && ret == Min(|data2| % 0x100 - offset, t.room - n1)
    ensures offset + ret == Reached(data1, data2, Sum(RoomsOf(ts + [t])))
  {
    var rooms := RoomsOf(ts + [t]);
    assert rooms[..|ts|] == RoomsOf(ts) && rooms[|ts|] == t.room;
  }

  /** What the loop keeps while it goes on: its progress, and why no attempt so far was the last. */
  ghost predicate Going(data1: seq<uint8>, data2: seq<uint8>, ts: seq<Transfer>, n1: nat, offset: nat, tried: seq<Attempt>) {
    && Progress(data1, data2, ts, n1, offset)
    && (offset == |data2| ==> ts == [])
    && RoomsOf(ts) == Rooms(tried, |data1|)
    && (ts != [] ==> offset == Reached(data1, data2, Sum(RoomsOf(ts))))
    && (|data2| < 0x100 ==> AllFull(ts) && NoneFits(tried, |data1| + |data2|))
  }

  lemma FirstAttempt(data1: seq<uint8>, data2: seq<uint8>)
    ensures Going(Head(data1), data2, [], ToUint8(|data1|), 0, [])
  {
  }

  lemma Missed(data1: seq<uint8>, data2: seq<uint8>, ts: seq<Transfer>, n1: nat, offset: nat, tried: seq<Attempt>, a: Attempt)
    requires Going(data1, data2, ts, n1, offset, tried) && (a.status != READY_STATE || a.room < n1)
    ensures Going(data1, data2, ts, n1, offset, tried + [a])
  {
    OneMoreRoom(tried, |data1|, a, ts, Transfer(a.room, []));
    hide Sent, Rooms, RoomsOf;
  }

  lemma UsedUp(ts: seq<Transfer>, t: Transfer, tried: seq<Attempt>, a: Attempt, n: nat)
    requires AllFull(ts) && Full(t) && NoneFits(tried, n) && a.room < n
    ensures AllFull(ts + [t]) && NoneFits(tried + [a], n)
  {
  }

  lemma Accepted(data1: seq<uint8>, data2: seq<uint8>, ts: seq<Transfer>, n1: nat, offset: nat, tried: seq<Attempt>,
                 a: Attempt, ret: nat)
    requires Going(data1, data2, ts, n1, offset, tried)
    requires a.status == READY_STATE && n1 <= a.room && ret == Min(|data2| % 0x100 - offset, a.room - n1)
    ensures var ts' := ts + [Transfer(a.room, data1[..n1] + data2[offset..][..ret])];
      && Progress(data1, data2, ts', 0, offset + ret) && offset + ret == Reached(data1, data2, Sum(RoomsOf(ts')))
      && RoomsOf(ts') == Rooms(tried + [a], |data1|)
      && (offset + ret < |data2| ==> Going(data1, data2, ts', 0, offset + ret, tried + [a]))
      && (|data2| < 0x100 ==> AllFull(ts))
  {
    var t := Transfer(a.room, data1[..n1] + data2[offset..][..ret]);
    Advance(data1, data2, ts, n1, offset, a.room, ret);
    OneMoreRoom(tried, |data1|, a, ts, t);
    ReachedWithOneMore(data1, data2, ts, t, offset, ret);
    hide Sent, Rooms, RoomsOf, Sum, Reached, AllFull, NoneFits;
    if |data2| < 0x100 && offset + ret < |data2| {
      UsedUp(ts, t, tried, a, |data1| + |data2|);
    }
  }

  /** The narrowing of the length that is left. */
  lemma InBounds(data1: seq<uint8>, data2: seq<uint8>, ts: seq<Transfer>, n1: nat, offset: nat, tried: seq<Attempt>)
    requires Going(data1, data2, ts, n1, offset, tried)
    ensures n1 <= |data1| && offset <= |data2| && ToUint8(|data2| - offset) == |data2| % 0x100 - offset
  {
  }

  /** What the optimised loop leaves behind. */
  ghost predicate Outcome(data1: seq<uint8>, data2: seq<uint8>, ts: seq<Transfer>, done: bool, tried: seq<Attempt>) {
    // always a prefix, in transactions that fit and that use all the room there is, and so as much as the rooms allow
    && Sent(ts) <= data1 + data2
    && (forall i :: 0 <= i < |ts| ==> Fits(ts[i]))
    && (ts != [] && |data2| < 0x100 ==> AllFull(ts[..|ts| - 1]))
    // one for each attempt that could take something, in order and with its room
    && RoomsOf(ts) == Rooms(tried, |data1|)
    && (ts != [] ==> |Sent(ts)| == |data1| + Reached(data1, data2, Sum(Rooms(tried, |data1|))))
    // all of it exactly when done, which a payload of more than 255 bytes never is
    && (done <==> Sent(ts) == data1 + data2 && ts != [])
    && (done ==> |data2| < 0x100)
    // giving up only when the time is up, with no attempt that had room for the whole message, nor all of them together
    && tried != []
    && (!done ==> tried[|tried| - 1].expired)
    && (!done && |data2| < 0x100 ==>
          && NoneFits(tried, |data1| + |data2|)
          && (ts != [] ==> Sum(Rooms(tried, |data1|)) < |data1| + |data2|))
  }

  lemma EndsLate(data1: seq<uint8>, data2: seq<uint8>, ts: seq<Transfer>, n1: nat, offset: nat, tried: seq<Attempt>)
    requires Going(data1, data2, ts, n1, offset, tried) && tried != [] && tried[|tried| - 1].expired
    ensures Outcome(data1, data2, ts, false, tried)
  {
    if |data2| < 0x100 {
      SumOfRooms(ts);
    }
    PartIsPrefix(data1, data2, offset);
    if ts == [] {
      assert Sent(ts) == [];
    }
    hide Sent, Rooms, RoomsOf, Sum, NoneFits, Fits;
  }

  lemma PartIsPrefix(data1: seq<uint8>, data2: seq<uint8>, k: nat)
    requires k <= |data2|
    ensures data1 + data2[..k] <= data1 + data2 && |data1 + data2[..k]| == |data1| + k
    ensures data1 + data2[..k] == data1 + data2 <==> k == |data2|
  {
  }

  lemma EndsWhole(data1: seq<uint8>, data2: seq<uint8>, before: seq<Transfer>, t: Transfer, tried: seq<Attempt>)
    requires Progress(data1, data2, before + [t], 0, |data2|) && (|data2| < 0x100 ==> AllFull(before)) && tried != []
    requires |data2| == Reached(data1, data2, Sum(RoomsOf(before + [t]))) && RoomsOf(before + [t]) == Rooms(tried, |data1|)
    ensures Outcome(data1, data2, before + [t], true, tried)
  {
  }

  /** One plain transaction carries the residues of the lengths: the whole message when both fit a byte. */
  lemma PlainIsWhole(data1: seq<uint8>, data2: seq<uint8>, t: Transfer)
    requires t.sent == data1[..|data1| % 0x100] + data2[..|data2| % 0x100]
    ensures Sent([t]) == t.sent && (t.sent == data1 + data2 <==> |data1| < 0x100 && |data2| < 0x100)
  {
    SentAppend([], t);
    assert [] + [t] == [t] && Sent([]) == [];
    if |data1| < 0x100 && |data2| < 0x100 {
      assert data1[..|data1|] == data1 && data2[..|data2|] == data2;
    } else {
      assert |t.sent| < |data1 + data2|;
    }
  }

  lemma LongHeaderIsCut(data1: seq<uint8>, data2: seq<uint8>, ts: seq<Transfer>, done: bool, tried: seq<Attempt>)
    requires Outcome(Head(data1), data2, ts, done, tried)
    ensures |data1| >= 0x100 ==> Sent(ts) != data1 + data2
  {
    hide Sent, Fits, AllFull, NoneFits;
    assert |Sent(ts)| <= |data1| % 0x100 + |data2|;
  }

  class Bus {
    var csLow: bool
    var irqEnabled: bool
    /** The transactions in which the controller accepted data. */
    ghost var transfers: seq<Transfer>

    constructor ()
      ensures !csLow && irqEnabled && transfers == []
    {
      csLow, irqEnabled, transfers := false, true, [];
    }

    /** One transaction of the optimised driver. */
    method WriteOptimized(data1: seq<uint8>, data2: seq<uint8>, n1: uint8, n2: uint8, reply: Attempt) returns (result: int)
      requires n1 <= |data1| && n2 <= |data2|
      modifies `csLow, `transfers
      ensures !csLow
      ensures reply.status != READY_STATE ==> result == NOT_AWAKE
      ensures reply.status == READY_STATE && reply.room < n1 ==> result == NO_ROOM
      ensures result < 0 ==> transfers == old(transfers)
      ensures reply.status == READY_STATE && reply.room >= n1 ==>
                && result == Min(n2, reply.room - n1)
                && transfers == old(transfers) + [Transfer(reply.room, data1[..n1] + data2[..result])]
    {
      csLow := true;
      if reply.status != READY_STATE {
        result := NOT_AWAKE;
      } else if reply.room < n1 {
        result := NO_ROOM;
      } else {
        ghost var bytes := data1[..n1];
        var room := reply.room - n1;
        var txBytes := if n2 > room then room else n2;
        bytes := bytes + data2[..txBytes];
        transfers := transfers + [Transfer(reply.room, bytes)];
        result := txBytes;
      }
      csLow := false;
    }

    /** One attempt of the loop below, and what it means for the message. */
    method AttemptOptimized(data1: seq<uint8>, data2: seq<uint8>, n1: nat, n2: nat, offset: nat, attempt: Attempt,
                            ghost head: seq<uint8>, ghost tried: seq<Attempt>)
      returns (ret: int)
      requires n1 == |data1| || n1 == 0
      requires head == Head(data1) && offset + n2 == |data2|
      requires Going(head, data2, transfers, ToUint8(n1), offset, tried)
      modifies `csLow, `transfers
      ensures ret < 0 ==> Going(head, data2, transfers, ToUint8(n1), offset, tried + [attempt])
      ensures ret >= 0 ==> ret <= n2 && offset + ret < 0x100
      ensures 0 <= ret < n2 ==> Going(head, data2, transfers, 0, offset + ret, tried + [attempt])
      ensures 0 <= ret == n2 ==> Outcome(head, data2, transfers, true, tried + [attempt])
    {
      ghost var before := transfers;
      var size1, size2 := ToUint8(n1), ToUint8(n2);
      hide Sent, Fits, AllFull, NoneFits, Going, Progress, Outcome, Head, ToUint8;
      InBounds(head, data2, before, size1, offset, tried);
      HeadIsPrefix(data1, n1);
      ret := WriteOptimized(data1, data2[offset..], size1, size2, attempt);
      if ret >= 0 {
        Accepted(head, data2, before, size1, offset, tried, attempt, ret);
        if ret == n2 {
          EndsWhole(head, data2, before, transfers[|before|], tried + [attempt]);
        }
      } else {
        Missed(head, data2, before, size1, offset, tried, attempt);
      }
    }

    /**
      * The loop of the optimised driver, over the attempts it makes until the time is up; `done` says that it ended
      * with nothing left to send. The lengths are passed on as bytes: of the first buffer, the residue is what is sent.
      */
    method WriteSerialOptimized(data1: seq<uint8>, data2: seq<uint8>, attempts: seq<Attempt>) returns (done: bool, used: nat)
      requires attempts != [] && attempts[|attempts| - 1].expired
      requires transfers == []
      modifies this
      ensures 0 < used <= |attempts| && Outcome(data1[..|data1| % 0x100], data2, transfers, done, attempts[..used])
      ensures forall k :: 0 <= k < used - 1 ==> !attempts[k].expired
      ensures |data1| >= 0x100 ==> Sent(transfers) != data1 + data2
      ensures irqEnabled
    {
      var n1: nat, n2: nat, offset: nat := |data1|, |data2|, 0;
      irqEnabled := false;
      done, used := false, 0;
      ghost var head := Head(data1);
      FirstAttempt(data1, data2);
      assert attempts[..0] == [] && head == data1[..|data1| % 0x100];
      hide Going, Outcome, Sent, Head, ToUint8;
      Narrowed(0);
      while true
        invariant 0 <= used < |attempts| && !done && (n1 == |data1| || n1 == 0)
        invariant offset + n2 == |data2| && Going(head, data2, transfers, ToUint8(n1), offset, attempts[..used])
        invariant forall k :: 0 <= k < used ==> !attempts[k].expired
        decreases |attempts| - used
      {
        var attempt := attempts[used];
        var ret := AttemptOptimized(data1, data2, n1, n2, offset, attempt, head, attempts[..used]);
        used := used + 1;
        assert attempts[..used] == attempts[..used - 1] + [attempt];
        if ret >= 0 {
          n1 := 0;
          n2 := n2 - ret;
          Narrowed(offset + ret);
          offset := ToUint8(offset + ret);
          if n2 == 0 {
            done := true;
            break;
          }
        }
        if attempt.expired {
          EndsLate(head, data2, transfers, ToUint8(n1), offset, attempts[..used]);
          break;
        }
      }
      LongHeaderIsCut(data1, data2, transfers, done, attempts[..used]);
      irqEnabled := true;
    }

    /** One transaction of the plain driver. */
    method WritePlain(data1: seq<uint8>, data2: seq<uint8>, n1: uint8, n2: uint8, reply: Attempt) returns (result: int)
      requires n1 <= |data1| && n2 <= |data2|
      modifies this
      ensures !csLow && irqEnabled
      ensures result == if reply.status != READY_STATE then NOT_AWAKE else if reply.room < n1 + n2 then NO_ROOM else 0
      ensures transfers == old(transfers) + if result == 0 then [Transfer(reply.room, data1[..n1] + data2[..n2])] else []
    {
      result := 0;
      irqEnabled := false;
      csLow := true;
      if reply.status == READY_STATE {
        if reply.room >= n1 + n2 {
          ghost var bytes := [];
          if n1 > 0 {
            bytes := bytes + data1[..n1];
          }
          if n2 > 0 {
            bytes := bytes + data2[..n2];
          }
          assert bytes == data1[..n1] + data2[..n2];
          transfers := transfers + [Transfer(reply.room, bytes)];
        } else {
          result := NO_ROOM;
        }
      } else {
        result := NOT_AWAKE;
      }
      csLow := false;
      irqEnabled := true;
    }

    /** The loop of the plain driver. */
    method WriteSerialPlain(data1: seq<uint8>, data2: seq<uint8>, attempts: seq<Attempt>) returns (done: bool, used: nat)
      requires attempts != [] && attempts[|attempts| - 1].expired
      requires transfers == []
      modifies this
      // nothing, or everything once: all of the message when its two lengths fit a byte, and only then
      ensures 0 < used <= |attempts|
      ensures !done ==> transfers == []
      ensures done ==> |transfers| == 1 && Fits(transfers[0]) && transfers[0].room == attempts[used - 1].room
      ensures done ==> Sent(transfers) == data1[..|data1| % 0x100] + data2[..|data2| % 0x100]
      ensures done ==> (Sent(transfers) == data1 + data2 <==> |data1| < 0x100 && |data2| < 0x100)
      // giving up only when the time is up, with no attempt that had room, the last one included
      ensures !done ==> attempts[used - 1].expired
      ensures forall k :: 0 <= k < used - 1 ==> !attempts[k].expired
      ensures NoneFits(attempts[..if done then used - 1 else used], |data1| % 0x100 + |data2| % 0x100)
    {
      done, used := false, 0;
      hide Sent, NoneFits;
      NoneYet(|data1| % 0x100 + |data2| % 0x100);
      while true
        invariant 0 <= used < |attempts| && !done && transfers == []
        invariant NoneFits(attempts[..used], |data1| % 0x100 + |data2| % 0x100)
        invariant forall k :: 0 <= k < used ==> !attempts[k].expired
        decreases |attempts| - used
      {
        var attempt := attempts[used];
        NoneStill(attempts[..used], attempt, |data1| % 0x100 + |data2| % 0x100);
        used := used + 1;
        assert attempts[..used] == attempts[..used - 1] + [attempt];
        var ret := WritePlain(data1, data2, ToUint8(|data1|), ToUint8(|data2|), attempt);
        if ret == 0 {
          PlainIsWhole(data1, data2, transfers[0]);
          assert transfers == [transfers[0]];
          done := true;
          break;
        }
        if attempt.expired {
          break;
        }
      }
    }
  }
}
