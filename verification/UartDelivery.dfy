/** Every byte written is sent: under any fair schedule the transmit engine runs out of work. */
module UartDelivery {
  import opened R = RingBuffer
  import opened Uart

  /** Rank of the writer's next access. A snapshot of cons that is out of date costs one more turn
      through the waiting loop. */
  function WriterRank(pr: Producer, done: nat): nat {
    var late := if pr.seen == done then 0 else 5;
    match pr.pc
    case Idle => 0
    case Wait => 1 + late
    case Advance => 2 + late
    case At => 3 + late
    case Second => 4
    case First => 5
  }

  function EngineRank(s: Tx): nat {
    if s.flight > 0 then 2 else if s.pending then 1 else 0
  }

  /** Steps left, at most: bytes to take from the ring, bytes to put into it, and where both sides are. */
  ghost function Work(s: Tx): nat
    requires TxInv(s)
  {
    10 * (|s.written| - s.ring.done) + 10 * |s.ring.pr.data| + WriterRank(s.ring.pr, s.ring.done) + EngineRank(s)
  }

  /** Only locals of the last consuming call differ. */
  ghost predicate Stutter(s: Tx, t: Tx) {
    t == s.(ring := s.ring.(co := t.ring.co))
  }

  /** The event that gets the next piece of work done. */
  function Helper(s: Tx): TxEvent {
    if s.flight > 0 then Complete
    else if s.pending then TxInterrupt
    else if |s.ring.produced| > s.ring.done then Timer
    else MainMoves
  }

  lemma {:induction false} NoWork(s: Tx)
    requires TxInv(s) && Work(s) == 0
    ensures s.sent == s.written
  {
    assert s.drv[..0] == [];
    assert s.ring.taken == s.ring.produced[..|s.ring.taken|];
  }

  /** An idle engine takes what it can; that pays for the turn the writer may now have to make. */
  lemma {:induction false} StartTxWork(s: Tx)
    requires TxInv(s) && !s.active
    ensures var t := StartTx(s);
            TxInv(t) && if |s.ring.produced| > s.ring.done then Work(t) < Work(s) else Stutter(s, t)
  {
    StartTxKeepsInv(s);
    StartTxRing(s);
    var t := StartTx(s);
    hide TxInv, StartTx, R.Inv;
    assert s.ring.done < t.ring.done ==> WriterRank(t.ring.pr, t.ring.done) <= WriterRank(s.ring.pr, s.ring.done) + 5;
  }

  lemma {:induction false} StartTxRing(s: Tx)
    requires TxInv(s) && !s.active
    ensures var t, x := StartTx(s), R.Min(CHUNK, |s.ring.produced| - s.ring.done);
            && t.ring.pr == s.ring.pr && t.ring.done == s.ring.done + x && t.written == s.written && 0 <= x
            && |t.ring.buf| == |s.ring.buf| && (x == 0 ==> Stutter(s, t))
  {
    var called := R.ConsumeCall(s.ring, CHUNK, false);
    var ring := R.Drain(called);
    assert ring == called.(co := ring.co, cons := ring.cons, taken := ring.taken, done := ring.done);
    assert ring.taken == ring.produced[..ring.done] && s.ring.taken == s.ring.produced[..s.ring.done];
  }

  /** A step of the writer does some of its work, unless it has none or waits for a full ring. */
  lemma {:induction false} WriterWork(s: R.State)
    requires R.Inv(s) && (s.pr.pc != Idle ==> s.pr.wait)
    ensures var t := R.ProducerStep(s);
            && t.done == s.done && |t.buf| == |s.buf|
            && (t == s || 10 * |t.pr.data| + WriterRank(t.pr, t.done) < 10 * |s.pr.data| + WriterRank(s.pr, s.done))
    ensures R.ProducerStep(s) == s ==> s.pr.pc == Idle || (s.pr.pc == Wait && |s.produced| == s.done + |s.buf| - 2)
  {
    if s.pr.pc == Wait {
      SlotEq(s.pr.seen, s.done, |s.buf|);
    }
  }

  /** No event but a new write adds work, and one that does no work changes nothing that matters. */
  lemma {:induction false} StepWork(s: Tx, e: TxEvent)
    requires TxInv(s) && !e.Write?
    ensures var t := TxStep(s, e);
            TxInv(t) && t.written == s.written && |t.ring.buf| == |s.ring.buf| && (Work(t) < Work(s) || Stutter(s, t))
  {
    TxStepKeepsInv(s, e);
    match e
    case Write(_) =>
    case MainMoves => WriterWork(s.ring);
    case Timer =>
      if !s.active {
        StartTxWork(s);
        StartTxRing(s);
      }
    case Complete =>
    case TxInterrupt =>
      if s.pending {
        InterruptWork(s);
      }
  }

  lemma {:induction false} InterruptWork(s: Tx)
    requires TxInv(s) && s.pending
    ensures var t := TxStep(s, TxInterrupt);
            TxInv(t) && t.written == s.written && |t.ring.buf| == |s.ring.buf| && Work(t) < Work(s)
  {
    var idle := s.(pending := false, active := false);
    StartTxWork(idle);
    StartTxRing(idle);
  }

  /** While there is work, the helper does some of it, if the ring can hold a byte at all. */
  lemma {:induction false} HelperWorks(s: Tx)
    requires TxInv(s) && Work(s) > 0 && |s.ring.buf| >= 3
    ensures TxInv(TxStep(s, Helper(s))) && Work(TxStep(s, Helper(s))) < Work(s)
  {
    TxStepKeepsInv(s, Helper(s));
    match Helper(s)
    case Write(_) =>
    case MainMoves =>
      WriterWork(s.ring);
    case Timer =>
      StartTxWork(s);
    case Complete =>
    case TxInterrupt =>
      InterruptWork(s);
  }

  ghost predicate NoWrites(events: seq<TxEvent>) {
    forall i :: 0 <= i < |events| ==> !events[i].Write?
  }

  lemma {:induction false} RunWork(s: Tx, events: seq<TxEvent>)
    requires TxInv(s) && NoWrites(events)
    ensures var t := TxRun(s, events);
            Work(t) <= Work(s) && t.written == s.written && |t.ring.buf| == |s.ring.buf|
    decreases |events|
  {
    hide TxInv, TxStep, Work;
    if events != [] {
      StepWork(s, events[0]);
      StutterWork(s, TxStep(s, events[0]));
      RunWork(TxStep(s, events[0]), events[1..]);
    }
  }

  lemma {:induction false} StutterWork(s: Tx, t: Tx)
    requires TxInv(s) && TxInv(t)
    ensures Stutter(s, t) ==> Work(t) == Work(s) && Helper(t) == Helper(s)
  {
  }

  /** Events among which is the helper do some of the work. */
  lemma {:induction false} TurnComes(s: Tx, events: seq<TxEvent>)
    requires TxInv(s) && NoWrites(events) && Work(s) > 0 && |s.ring.buf| >= 3 && Helper(s) in events
    ensures Work(TxRun(s, events)) < Work(s)
    decreases |events|
  {
    var e, rest := events[0], events[1..];
    hide TxInv, TxStep, Work, Helper, Stutter;
    StepWork(s, e);
    var t := TxStep(s, e);
    StutterWork(s, t);
    RunWork(t, rest);
    HelperWorks(s);
    if Work(t) == Work(s) {
      assert Helper(s) in rest;
      TurnComes(t, rest);
    }
  }

  function Flatten(segments: seq<seq<TxEvent>>): seq<TxEvent> {
    if segments == [] then [] else segments[0] + Flatten(segments[1..])
  }

  /** In each segment the timer ticks, a transfer completes, its interrupt is delivered and the writer
      runs, in any order and with any repetitions. */
  ghost predicate Fair(segments: seq<seq<TxEvent>>) {
    forall i :: 0 <= i < |segments| ==>
      && NoWrites(segments[i])
      && Timer in segments[i] && Complete in segments[i] && TxInterrupt in segments[i] && MainMoves in segments[i]
  }

  lemma {:induction false} RunAppend(s: Tx, x: seq<TxEvent>, y: seq<TxEvent>)
    requires TxInv(s)
    ensures TxRun(s, x + y) == TxRun(TxRun(s, x), y)
    decreases |x|
  {
    hide TxInv, TxStep;
    if x == [] {
      assert x + y == y;
    } else {
      assert (x + y)[1..] == x[1..] + y;
      TxStepKeepsInv(s, x[0]);
      RunAppend(TxStep(s, x[0]), x[1..], y);
    }
  }

  lemma {:induction false} FlattenNoWrites(segments: seq<seq<TxEvent>>)
    requires Fair(segments)
    ensures NoWrites(Flatten(segments))
    decreases |segments|
  {
    if segments != [] {
      FlattenNoWrites(segments[1..]);
    }
  }

  lemma FairHelps(segments: seq<seq<TxEvent>>, s: Tx)
    requires Fair(segments) && segments != []
    ensures Fair(segments[1..]) && NoWrites(segments[0]) && Helper(s) in segments[0]
  {
  }

  /** Whatever the order of events, once the main thread starts no further write every byte written is
      sent after as many fair segments as there is work. A ring of two bytes holds none and is excluded. */
  lemma {:induction false} EverythingSent(s: Tx, segments: seq<seq<TxEvent>>)
    requires TxInv(s) && |s.ring.buf| >= 3 && Fair(segments) && |segments| >= Work(s)
    ensures TxRun(s, Flatten(segments)).sent == s.written
    decreases |segments|
  {
    hide TxInv, TxStep, Work, Helper, Fair, NoWrites;
    FlattenNoWrites(segments);
    RunWork(s, Flatten(segments));
    if Work(s) == 0 {
      NoWork(TxRun(s, Flatten(segments)));
    } else {
      var x, rest := segments[0], segments[1..];
      FairHelps(segments, s);
      TurnComes(s, x);
      RunWork(s, x);
      EverythingSent(TxRun(s, x), rest);
      RunAppend(s, x, Flatten(rest));
    }
  }

  lemma {:induction false} TinyStep(s: Tx, e: TxEvent)
    requires TxInv(s) && |s.ring.buf| == 2
    ensures TxInv(TxStep(s, e)) && |TxStep(s, e).ring.buf| == 2 && TxStep(s, e).ring.produced == s.ring.produced
  {
    TxStepKeepsInv(s, e);
  }

  /** Two bytes are too few: nothing is ever sent through such a ring. */
  lemma {:induction false} TinyRingStuck(s: Tx, events: seq<TxEvent>)
    requires TxInv(s) && |s.ring.buf| == 2 && s.ring.produced == []
    ensures TxRun(s, events).sent == []
    decreases |events|
  {
    if events == [] {
      assert s.ring.taken == [];
    } else {
      hide TxInv, TxStep;
      TinyStep(s, events[0]);
      TinyRingStuck(TxStep(s, events[0]), events[1..]);
    }
  }
}
