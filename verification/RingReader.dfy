/** A waiting consume returns exactly when it has its bytes, and does so under every schedule that gives it
    enough turns once they are there.
 */
module RingReader {
  import opened R = RingBuffer

  /** Where cons will be when the running call returns. */
  function Goal(s: R.State): nat { s.done + s.co.want }

  /** Accesses a waiting reader still makes, at most, once its bytes are there. A snapshot of prod taken before
      costs one more turn through the waiting loop. */
  function ReaderWork(s: R.State): nat {
    var co := s.co;
    var late := if co.seen < Goal(s) then 5 else 0;
    10 * co.want + match co.pc
      case Idle => 0
      case Wait => 6
      case Advance => 2 + late
      case At => 3 + late
      case Second => 4 + late
      case First => 5
  }

  /** What anything but a step of the reader does, as the reader sees it: bytes may be added. */
  ghost predicate OthersMove(s: R.State, t: R.State) {
    t.co == s.co && t.done == s.done && t.taken == s.taken && s.produced <= t.produced && R.Inv(t)
  }

  /** A step of a waiting reader keeps its goal and, if the bytes are there, does some of its work. */
  lemma {:induction false} ReaderStep(s: R.State)
    requires R.Inv(s) && s.co.wait
    ensures var t := R.ConsumerStep(s);
            && R.Inv(t) && t.co.wait && Goal(t) == Goal(s) && t.produced == s.produced
            && (s.co.pc != Idle && Goal(s) <= |s.produced| ==> ReaderWork(t) < ReaderWork(s))
            && (s.co.pc == Idle ==> t == s)
  {
    R.ConsumerStepKeepsInv(s);
    if s.co.pc == At {
      R.SlotEq(s.done + 1, s.co.seen + 1, |s.buf|);
    } else if s.co.pc == Wait {
      R.SlotEq(s.co.seen + 1, |s.produced| + 1, |s.buf|);
    }
  }

  lemma InBuffer(s: R.State)
    requires R.Inv(s)
    ensures s.prod < |s.buf|
  {
  }

  /** Events of the ring that start no further consume. */
  ghost predicate NoConsume(events: seq<R.Event>) {
    forall i :: 0 <= i < |events| ==> !events[i].Consume?
  }

  function Moves(events: seq<R.Event>): nat {
    if events == [] then 0 else (if events[0].ConsumerMoves? then 1 else 0) + Moves(events[1..])
  }

  lemma {:induction false} OtherStep(s: R.State, e: R.Event)
    requires R.Inv(s) && (e.Produce? || e.ProducerMoves?)
    ensures OthersMove(s, R.Step(s, e))
  {
    R.StepKeepsInv(s, e);
  }

  /** Whatever happens, the reader keeps its goal, and is idle only with all its bytes. */
  lemma {:induction false} GoalKept(s: R.State, events: seq<R.Event>)
    requires R.Inv(s) && s.co.wait && NoConsume(events)
    ensures var t := R.Run(s, events);
            && t.co.wait && Goal(t) == Goal(s) && s.produced <= t.produced
            && (t.co.pc == Idle ==> t.done == Goal(s) && t.taken == t.produced[..Goal(s)])
    decreases |events|
  {
    hide R.Inv, R.Step, R.ConsumerStep, Goal, ReaderWork;
    if events == [] {
      IdleDone(s);
    } else {
      var e := events[0];
      InBuffer(s);
      R.StepKeepsInv(s, e);
      OneEvent(s, e);
      GoalKept(R.Step(s, e), events[1..]);
    }
  }

  lemma IdleDone(s: R.State)
    requires R.Inv(s) && s.co.wait
    ensures s.co.pc == Idle ==> s.done == Goal(s) <= |s.produced| && s.taken == s.produced[..Goal(s)]
  {
  }

  lemma {:induction false} OneEvent(s: R.State, e: R.Event)
    requires R.Inv(s) && s.co.wait && !e.Consume?
    ensures var t := R.Step(s, e);
            && t.co.wait && Goal(t) == Goal(s) && s.produced <= t.produced
            && (Goal(s) <= |s.produced| ==> ReaderWork(t) <= ReaderWork(s))
    ensures var t := R.Step(s, e);
            e.ConsumerMoves? && s.co.pc != Idle && Goal(s) <= |s.produced| ==> ReaderWork(t) < ReaderWork(s)
  {
    hide R.Inv;
    if e.ConsumerMoves? {
      ReaderStep(s);
    } else {
      OtherStep(s, e);
    }
  }

  /** Once enough bytes are published, as many turns as there is work bring the call to its end. */
  lemma {:induction false} ReaderFinishes(s: R.State, events: seq<R.Event>)
    requires R.Inv(s) && s.co.wait && NoConsume(events)
    requires Goal(s) <= |s.produced| && Moves(events) >= ReaderWork(s)
    ensures R.Run(s, events).co.pc == Idle
    decreases |events|
  {
    hide R.Inv, R.Step, Goal, ReaderWork;
    if s.co.pc == Idle {
      StaysIdle(s, events);
    } else if events == [] {
      WorkLeft(s);
    } else {
      var e := events[0];
      InBuffer(s);
      R.StepKeepsInv(s, e);
      OneEvent(s, e);
      ReaderFinishes(R.Step(s, e), events[1..]);
    }
  }

  lemma WorkLeft(s: R.State)
    ensures s.co.pc != Idle ==> ReaderWork(s) > 0
  {
  }

  lemma {:induction false} StaysIdle(s: R.State, events: seq<R.Event>)
    requires R.Inv(s) && s.co.pc == Idle && NoConsume(events)
    ensures R.Run(s, events).co.pc == Idle
    decreases |events|
  {
    if events != [] {
      hide R.Inv;
      InBuffer(s);
      R.StepKeepsInv(s, events[0]);
      StaysIdle(R.Step(s, events[0]), events[1..]);
    }
  }

  lemma {:induction false} RunAppend(s: R.State, x: seq<R.Event>, y: seq<R.Event>)
    requires R.Inv(s)
    ensures R.Run(s, x + y) == R.Run(R.Run(s, x), y)
    decreases |x|
  {
    hide R.Inv, R.Step;
    if x == [] {
      assert x + y == y;
    } else {
      assert (x + y)[1..] == x[1..] + y;
      InBuffer(s);
      R.StepKeepsInv(s, x[0]);
      RunAppend(R.Step(s, x[0]), x[1..], y);
    }
  }

  lemma CallStarts(s: R.State, n: nat)
    requires R.Inv(s) && s.co.pc == Idle
    ensures var t := R.ConsumeCall(s, n, true); R.Inv(t) && t.co.wait && t.co.pc != Idle && Goal(t) == s.done + n
  {
  }

  /** A blocking read of n bytes, under every schedule: it never returns without them; and if the first part of
      the schedule publishes them and the second gives the reader its turns, it returns, and what it has read
      are exactly the next n bytes. */
  lemma {:induction false} WaitingConsume(s: R.State, n: nat, x: seq<R.Event>, y: seq<R.Event>)
    requires R.Inv(s) && s.co.pc == Idle && NoConsume(x) && NoConsume(y)
    ensures var called := R.ConsumeCall(s, n, true);
            R.Inv(called) &&
            var mid, t := R.Run(called, x), R.Run(called, x + y);
            && (t.co.pc == Idle ==> t.done == s.done + n && t.taken == t.produced[..s.done + n])
            && (|mid.produced| >= s.done + n && Moves(y) >= ReaderWork(mid) ==> t.co.pc == Idle)
  {
    hide R.Inv, R.Step, Goal, ReaderWork, R.ConsumeCall;
    CallStarts(s, n);
    var called := R.ConsumeCall(s, n, true);
    var mid := R.Run(called, x);
    GoalKept(called, x);
    RunAppend(called, x, y);
    GoalKept(mid, y);
    if |mid.produced| >= s.done + n && Moves(y) >= ReaderWork(mid) {
      ReaderFinishes(mid, y);
    }
  }
}
