/** Every byte received is passed on and, where it was asked for and fits the ring, read. */
module UartReceipt {
  import opened R = RingBuffer
  import opened RingReader
  import opened Uart

  lemma {:induction false} RxRunFirst(s: Rx, events: seq<RxEvent>)
    requires RxInv(s) && events != []
    ensures RxInv(RxStep(s, events[0])) && RxRun(s, events) == RxRun(RxStep(s, events[0]), events[1..])
  {
    RxStepKeepsInv(s, events[0]);
  }

  // ---------------------------------------------------------------- passing on

  lemma {:induction false} StepGrows(s: Rx, e: RxEvent)
    requires RxInv(s)
    ensures s.received <= RxStep(s, e).received && s.offered <= RxStep(s, e).offered
  {
  }

  lemma {:induction false} RunGrows(s: Rx, events: seq<RxEvent>)
    requires RxInv(s)
    ensures s.received <= RxRun(s, events).received && s.offered <= RxRun(s, events).offered
    decreases |events|
  {
    hide RxInv, RxStep;
    if events != [] {
      RxRunFirst(s, events);
      StepGrows(s, events[0]);
      RunGrows(RxStep(s, events[0]), events[1..]);
    }
  }

  /** Whatever else happens, a timer interrupt passes on every byte received before it. */
  lemma {:induction false} EverythingOffered(s: Rx, events: seq<RxEvent>)
    requires RxInv(s) && RxTimer in events
    ensures s.received <= RxRun(s, events).offered
    decreases |events|
  {
    hide RxInv, RxStep;
    var e, rest := events[0], events[1..];
    RxRunFirst(s, events);
    var t := RxStep(s, e);
    StepGrows(s, e);
    if e == RxTimer {
      TimerOffers(s);
      RunGrows(t, rest);
    } else {
      EverythingOffered(t, rest);
    }
  }

  // ---------------------------------------------------------------- no byte dropped

  /** The ring has room for all that waits in the driver buffer. */
  ghost predicate HasRoom(s: Rx) {
    |s.drv| - s.lastPos <= |s.ring.buf| - 2 - (|s.ring.produced| - s.ring.done)
  }

  /** It has whenever bytes are passed on. */
  ghost predicate AlwaysRoom(s: Rx, events: seq<RxEvent>)
    requires RxInv(s)
    decreases |events|
  {
    events == [] ||
    (RxStepKeepsInv(s, events[0]);
     (events[0] == RxTimer || (events[0] == RxInterrupt && s.pending) ==> HasRoom(s))
     && AlwaysRoom(RxStep(s, events[0]), events[1..]))
  }

  lemma {:induction false} StepStores(s: Rx, e: RxEvent)
    requires RxInv(s) && s.ring.produced == s.offered
    requires e == RxTimer || (e == RxInterrupt && s.pending) ==> HasRoom(s)
    ensures RxStep(s, e).ring.produced == RxStep(s, e).offered
  {
    var chunk := s.drv[s.lastPos..];
    if e == RxTimer {
      TimerOffers(s);
      assert chunk[..|chunk|] == chunk;
    } else if e == RxInterrupt && s.pending {
      InterruptOffers(s);
      assert chunk[..|chunk|] == chunk;
    }
  }

  /** While there is room, the ring has accepted exactly what was offered. */
  lemma {:induction false} NothingDropped(s: Rx, events: seq<RxEvent>)
    requires RxInv(s) && s.ring.produced == s.offered && AlwaysRoom(s, events)
    ensures RxRun(s, events).ring.produced == RxRun(s, events).offered
    decreases |events|
  {
    hide RxInv, RxStep, HasRoom;
    if events != [] {
      RxRunFirst(s, events);
      StepStores(s, events[0]);
      NothingDropped(RxStep(s, events[0]), events[1..]);
    }
  }

  lemma {:induction false} AlwaysRoomBefore(s: Rx, x: seq<RxEvent>, y: seq<RxEvent>)
    requires RxInv(s) && AlwaysRoom(s, x + y)
    ensures AlwaysRoom(s, x)
    decreases |x|
  {
    hide RxInv, RxStep, HasRoom;
    if x != [] {
      assert (x + y)[0] == x[0] && (x + y)[1..] == x[1..] + y;
      RxRunFirst(s, x);
      AlwaysRoomBefore(RxStep(s, x[0]), x[1..], y);
    }
  }

  // ---------------------------------------------------------------- reading

  ghost predicate NoRead(events: seq<RxEvent>) {
    forall i :: 0 <= i < |events| ==> !events[i].Read?
  }

  function Turns(events: seq<RxEvent>): nat {
    if events == [] then 0 else (if events[0] == ReaderMoves then 1 else 0) + Turns(events[1..])
  }

  /** To the reader every event but its own is one that may add bytes. */
  lemma {:induction false} RingMoves(s: Rx, e: RxEvent)
    requires RxInv(s) && !e.Read?
    ensures var t := RxStep(s, e);
            if e == ReaderMoves then t.ring == R.ConsumerStep(s.ring) else OthersMove(s.ring, t.ring)
  {
    RxStepKeepsInv(s, e);
    if e == RxTimer {
      TimerOffers(s);
    } else if e == RxInterrupt && s.pending {
      InterruptOffers(s);
    }
  }

  lemma {:induction false} OneEvent(s: Rx, e: RxEvent)
    requires RxInv(s) && s.ring.co.wait && !e.Read?
    ensures var r, q := s.ring, RxStep(s, e).ring;
            && R.Inv(r) && q.co.wait && Goal(q) == Goal(r) && r.produced <= q.produced
            && (Goal(r) <= |r.produced| ==> ReaderWork(q) <= ReaderWork(r))
            && (e == ReaderMoves && r.co.pc != Idle && Goal(r) <= |r.produced| ==> ReaderWork(q) < ReaderWork(r))
            && (r.co.pc == Idle ==> q.co.pc == Idle)
  {
    RingMoves(s, e);
    assert R.Inv(s.ring);
    hide RxInv, RxStep, R.Inv;
    if e == ReaderMoves {
      ReaderStep(s.ring);
    }
  }

  lemma {:induction false} ReadKept(s: Rx, events: seq<RxEvent>)
    requires RxInv(s) && s.ring.co.wait && NoRead(events)
    ensures var q := RxRun(s, events).ring;
            && q.co.wait && Goal(q) == Goal(s.ring) && s.ring.produced <= q.produced
            && (q.co.pc == Idle ==> q.done == Goal(s.ring) <= |q.produced| && q.taken == q.produced[..Goal(s.ring)])
    decreases |events|
  {
    hide RxStep, R.Inv, Goal, ReaderWork;
    if events == [] {
      IdleDone(s.ring);
    } else {
      RxRunFirst(s, events);
      OneEvent(s, events[0]);
      ReadKept(RxStep(s, events[0]), events[1..]);
    }
  }

  lemma {:induction false} ReadFinishes(s: Rx, events: seq<RxEvent>)
    requires RxInv(s) && s.ring.co.wait && NoRead(events)
    requires s.ring.co.pc == Idle || (Goal(s.ring) <= |s.ring.produced| && Turns(events) >= ReaderWork(s.ring))
    ensures RxRun(s, events).ring.co.pc == Idle
    decreases |events|
  {
    hide RxInv, RxStep, Goal, ReaderWork;
    if events == [] {
      WorkLeft(s.ring);
    } else {
      RxRunFirst(s, events);
      OneEvent(s, events[0]);
      ReadFinishes(RxStep(s, events[0]), events[1..]);
    }
  }

  lemma {:induction false} RunAppend(s: Rx, x: seq<RxEvent>, y: seq<RxEvent>)
    requires RxInv(s)
    ensures RxRun(s, x + y) == RxRun(RxRun(s, x), y)
    decreases |x|
  {
    hide RxInv, RxStep;
    if x == [] {
      assert x + y == y;
    } else {
      assert (x + y)[1..] == x[1..] + y;
      RxRunFirst(s, x);
      RxRunFirst(s, x + y);
      RunAppend(RxStep(s, x[0]), x[1..], y);
    }
  }

  lemma {:induction false} ReadStarts(s: Rx, n: nat)
    requires RxInv(s) && s.ring.co.pc == Idle
    ensures var t := RxStep(s, Read(n));
            && RxInv(t) && t.ring.co.wait && Goal(t.ring) == s.ring.done + n
            && t.offered == s.offered && t.ring.produced == s.ring.produced
  {
    RxStepKeepsInv(s, Read(n));
  }

  /** A blocking read of n bytes, under every schedule of bytes, timers, buffer-full interrupts and turns of the
      reader: it never returns without its bytes, and what it returns are the next n received. If the ring had
      room for all that was passed on, the first part of the schedule passed on as many bytes as it asks for and
      the second gives the reader its turns, it does return. */
  lemma {:induction false} EverythingRead(s: Rx, n: nat, x: seq<RxEvent>, y: seq<RxEvent>)
    requires RxInv(s) && s.ring.co.pc == Idle && s.ring.produced == s.offered && NoRead(x) && NoRead(y)
    ensures var called := RxStep(s, Read(n));
            RxInv(called) &&
            (AlwaysRoom(called, x + y) ==>
               var mid, t := RxRun(called, x), RxRun(called, x + y);
               var want := s.ring.done + n;
               && (t.ring.co.pc == Idle ==> want <= |t.received| && t.ring.taken == t.received[..want])
               && (want <= |mid.offered| && Turns(y) >= ReaderWork(mid.ring) ==> t.ring.co.pc == Idle))
  {
    hide RxInv, RxStep, Goal, ReaderWork, HasRoom;
    ReadStarts(s, n);
    var called := RxStep(s, Read(n));
    if AlwaysRoom(called, x + y) {
      AlwaysRoomBefore(called, x, y);
      var mid, t, want := RxRun(called, x), RxRun(called, x + y), s.ring.done + n;
      NothingDropped(called, x);
      NothingDropped(called, x + y);
      ReadKept(called, x);
      RunAppend(called, x, y);
      ReadKept(mid, y);
      if want <= |mid.offered| && Turns(y) >= ReaderWork(mid.ring) {
        ReadFinishes(mid, y);
      }
      OfferedPrefix(t);
      assert t.ring.co.pc == Idle ==> t.received[..want] == t.offered[..want];
    }
  }

  lemma OfferedPrefix(s: Rx)
    requires RxInv(s)
    ensures s.offered <= s.received
  {
  }
}
