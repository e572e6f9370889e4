/** The single-producer single-consumer ring of consprod.c. Producer and consumer run at the same
    time; each transition below is one access to shared memory, so every interleaving is covered.
 */
module RingBuffer {
  import opened Common

  // ---------------------------------------------------------------- slots

  /** Where the i-th logical position lives in a buffer of n bytes. */
  function Slot(i: nat, n: nat): nat
    requires n > 0
  {
    i % n
  }

  /** Where the j-th byte produced is stored: the buffer starts with prod at 1. */
  function Cell(j: nat, n: nat): nat
    requires n > 0
  {
    Slot(j + 1, n)
  }

  /** cp_ptr_next */
  function Next(x: nat, n: nat): nat {
    if x + 1 == n then 0 else x + 1
  }

  lemma MulSucc(n: nat, q: nat)
    ensures n * (q + 1) == n * q + n
  {
  }

  lemma {:induction false} NextSlot(i: nat, n: nat)
    requires n > 0
    ensures Slot(i, n) < n && Next(Slot(i, n), n) == Slot(i + 1, n)
  {
    var q, r := i / n, i % n;
    if r + 1 == n {
      MulSucc(n, q);
      DivUnique(i + 1, q + 1, 0, n);
    } else {
      DivUnique(i + 1, q, r + 1, n);
    }
  }

  /** Positions less than a lap apart share a slot only when equal; a whole lap apart they do. */
  lemma {:induction false} SlotEq(i: nat, j: nat, n: nat)
    requires n > 0 && i <= j <= i + n
    ensures Slot(i, n) == Slot(j, n) <==> j == i || j == i + n
  {
    var q, r, d := i / n, i % n, j - i;
    assert i == n * q + r;
    if r + d < n {
      DivUnique(j, q, r + d, n);
    } else {
      MulSucc(n, q);
      DivUnique(j, q + 1, r + d - n, n);
    }
  }

  // ---------------------------------------------------------------- the machine

  type byte = x: int | 0 <= x < 256

  /** The access a call does next. `At` stands for both the loop test, which reads no shared
      memory, and the buffer access that follows when the test succeeds. */
  datatype Pc = Idle | First | Second | At | Advance | Wait

  /** A running consprod_produce: bytes still to write, the locals p and c, and the wait flag.
      `seen` is how many bytes had been consumed when c was read; no access depends on it. */
  datatype Producer = Producer(pc: Pc, data: seq<byte>, p: nat, c: nat, wait: bool, seen: nat)

  /** A running consprod_consume: bytes still wanted and the locals p and c. `seen` is how many
      bytes had been produced when p was read. */
  datatype Consumer = Consumer(pc: Pc, want: nat, p: nat, c: nat, wait: bool, seen: nat)

  /** Shared memory and both sides, with the history: `produced` are the bytes published so far,
      `taken` those copied out, and `done` counts the advances of cons. */
  datatype State = State(buf: seq<byte>, prod: nat, cons: nat, pr: Producer, co: Consumer,
                         produced: seq<byte>, taken: seq<byte>, done: nat)

  function Init(buf: seq<byte>): State {
    State(buf, 1, 0, Producer(Idle, [], 0, 0, false, 0), Consumer(Idle, 0, 0, 0, false, 0), [], [], 0)
  }

  function ProduceCall(s: State, data: seq<byte>, wait: bool): State {
    if s.pr.pc == Idle then s.(pr := s.pr.(pc := First, data := data, wait := wait)) else s
  }

  function ConsumeCall(s: State, want: nat, wait: bool): State {
    if s.co.pc == Idle then s.(co := s.co.(pc := First, want := want, wait := wait)) else s
  }

  /** One shared access by the producer. */
  function ProducerStep(s: State): State
    requires s.prod < |s.buf|
  {
    var pr := s.pr;
    match pr.pc
    case Idle => s
    case First => s.(pr := pr.(pc := Second, p := Next(s.prod, |s.buf|)))
    case Second => s.(pr := pr.(pc := At, c := s.cons, seen := s.done))
    case At =>
      if pr.data != [] && pr.p != pr.c then s.(buf := s.buf[s.prod := pr.data[0]], pr := pr.(pc := Advance))
      else if pr.data != [] && pr.wait then s.(pr := pr.(pc := Wait))
      else s.(pr := pr.(pc := Idle))
    case Advance =>
      if pr.data == [] then s
      else s.(prod := pr.p, produced := s.produced + [pr.data[0]],
              pr := pr.(pc := At, p := Next(pr.p, |s.buf|), data := pr.data[1..]))
    case Wait => if s.cons == pr.c then s else s.(pr := pr.(pc := First))
  }

  /** One shared access by the consumer. */
  function ConsumerStep(s: State): State {
    var co := s.co;
    match co.pc
    case Idle => s
    case First => s.(co := co.(pc := Second, p := s.prod, seen := |s.produced|))
    case Second => s.(co := co.(pc := At, c := Next(s.cons, |s.buf|)))
    case At =>
      if co.want > 0 && co.c != co.p then
        if co.c < |s.buf| then s.(taken := s.taken + [s.buf[co.c]], co := co.(pc := Advance)) else s
      else if co.want > 0 && co.wait then s.(co := co.(pc := Wait))
      else s.(co := co.(pc := Idle))
    case Advance =>
      if co.want == 0 then s
      else s.(cons := co.c, done := s.done + 1, co := co.(pc := At, c := Next(co.c, |s.buf|), want := co.want - 1))
    case Wait => if s.prod == co.p then s else s.(co := co.(pc := First))
  }

  // ---------------------------------------------------------------- the invariant

  /** Bytes published and not yet released; at most n - 2, so prod never meets cons. */
  ghost predicate SharedOk(s: State) {
    var n := |s.buf|;
    && n >= 2
    && s.done <= |s.produced| <= s.done + n - 2
    && s.prod == Cell(|s.produced|, n) < n
    && s.cons == Slot(s.done, n)
    && (forall j: nat :: s.done <= j < |s.produced| ==> s.buf[Cell(j, n)] == s.produced[j])
    && |s.taken| == s.done + (if s.co.pc == Advance then 1 else 0) <= |s.produced|
    && s.taken == s.produced[..|s.taken|]
  }

  ghost predicate ProducerOk(s: State) {
    var n, k, pr := |s.buf|, |s.produced|, s.pr;
    && n >= 2
    && (pr.pc !in {Idle, First} ==> pr.p == Slot(k + 2, n))
    && (pr.pc !in {Idle, First, Second} ==>
          pr.c == Slot(pr.seen, n) && pr.seen <= s.done && k <= pr.seen + n - 2)
    && (pr.pc == Advance ==> k < pr.seen + n - 2 && pr.data != [] && s.prod < n && s.buf[s.prod] == pr.data[0])
    && (pr.pc == Wait ==> k == pr.seen + n - 2 && pr.data != [])
    && (pr.pc == Idle && pr.wait ==> pr.data == [])
  }

  ghost predicate ConsumerOk(s: State) {
    var n, co := |s.buf|, s.co;
    && n >= 2
    && (co.pc !in {Idle, First} ==> co.p == Cell(co.seen, n) && s.done <= co.seen <= |s.produced|)
    && (co.pc !in {Idle, First, Second} ==> co.c == Cell(s.done, n))
    && (co.pc == Advance ==> s.done < co.seen && co.want > 0)
    && (co.pc == Wait ==> s.done == co.seen && co.want > 0)
    && (co.pc == Idle && co.wait ==> co.want == 0)
  }

  ghost predicate Inv(s: State) {
    SharedOk(s) && ProducerOk(s) && ConsumerOk(s)
  }

  lemma {:induction false} InitInv(buf: seq<byte>)
    requires |buf| >= 2
    ensures Inv(Init(buf))
  {
  }

  /** A slot the producer may store into holds no byte that is still to be read. */
  lemma {:induction false} FreshSlot(s: State, j: nat)
    requires SharedOk(s) && s.done <= j < |s.produced|
    ensures Cell(j, |s.buf|) < |s.buf| && Cell(j, |s.buf|) != s.prod
  {
    SlotEq(j + 1, |s.produced| + 1, |s.buf|);
  }

  lemma {:induction false} StoreKeepsInv(s: State)
    requires Inv(s) && s.pr.pc == At
    ensures Inv(ProducerStep(s))
  {
    var n, k := |s.buf|, |s.produced|;
    SlotEq(s.pr.seen, k + 2, n);
    forall j: nat | s.done <= j < k ensures Cell(j, n) < n && Cell(j, n) != s.prod {
      FreshSlot(s, j);
    }
  }

  lemma {:induction false} PublishKeepsInv(s: State)
    requires Inv(s) && s.pr.pc == Advance
    ensures Inv(ProducerStep(s))
  {
    var k := |s.produced|;
    NextSlot(k + 2, |s.buf|);
    var t := ProducerStep(s);
    assert forall j: nat :: j < k ==> t.produced[j] == s.produced[j];
    assert t.taken == t.produced[..|t.taken|];
  }

  lemma {:induction false} ProducerStepKeepsInv(s: State)
    requires Inv(s)
    ensures s.prod < |s.buf| && Inv(ProducerStep(s))
  {
    assert s.prod < |s.buf|;
    hide Inv;
    if s.pr.pc == At {
      StoreKeepsInv(s);
    } else if s.pr.pc == Advance {
      PublishKeepsInv(s);
    } else {
      LookKeepsInv(s);
    }
  }

  /** Accesses of the producer that only read. */
  lemma {:induction false} LookKeepsInv(s: State)
    requires Inv(s) && s.pr.pc != At && s.pr.pc != Advance
    ensures Inv(ProducerStep(s))
  {
    NextSlot(|s.produced| + 1, |s.buf|);
    assert SharedOk(ProducerStep(s)) && ConsumerOk(ProducerStep(s));
  }

  lemma {:induction false} LoadKeepsInv(s: State)
    requires Inv(s) && s.co.pc == At
    ensures Inv(ConsumerStep(s))
  {
    SlotEq(s.done + 1, s.co.seen + 1, |s.buf|);
    NextSlot(s.done, |s.buf|);
    var t := ConsumerStep(s);
    if t.co.pc == Advance {
      assert s.buf[Cell(s.done, |s.buf|)] == s.produced[s.done];
      assert s.produced[..s.done + 1] == s.produced[..s.done] + [s.produced[s.done]];
    }
  }

  lemma {:induction false} ConsumerStepKeepsInv(s: State)
    requires Inv(s)
    ensures Inv(ConsumerStep(s))
  {
    match s.co.pc
    case At => LoadKeepsInv(s);
    case Advance => ReleaseKeepsInv(s);
    case _ => NextSlot(s.done, |s.buf|);
  }

  lemma {:induction false} ReleaseKeepsInv(s: State)
    requires Inv(s) && s.co.pc == Advance
    ensures Inv(ConsumerStep(s))
  {
    NextSlot(s.done + 1, |s.buf|);
  }

  // ---------------------------------------------------------------- every interleaving

  datatype Event = Produce(data: seq<byte>, wait: bool) | Consume(want: nat, wait: bool) | ProducerMoves | ConsumerMoves

  function Step(s: State, e: Event): State
    requires s.prod < |s.buf|
  {
    match e
    case Produce(data, wait) => ProduceCall(s, data, wait)
    case Consume(want, wait) => ConsumeCall(s, want, wait)
    case ProducerMoves => ProducerStep(s)
    case ConsumerMoves => ConsumerStep(s)
  }

  /** An idle side takes a call with its bytes, a busy one finishes first; each side moves by its own steps. */
  lemma StepIs(s: State, data: seq<byte>, n: nat, wait: bool)
    requires s.prod < |s.buf|
    ensures var t := Step(s, Produce(data, wait));
            if s.pr.pc != Idle then t == s
            else t == s.(pr := t.pr) && t.pr.pc == First && t.pr.data == data && t.pr.wait == wait
    ensures var t := Step(s, Consume(n, wait));
            if s.co.pc != Idle then t == s
            else t == s.(co := t.co) && t.co.pc == First && t.co.want == n && t.co.wait == wait
    ensures Step(s, ProducerMoves) == ProducerStep(s) && Step(s, ConsumerMoves) == ConsumerStep(s)
  {
    hide ProducerStep, ConsumerStep;
  }

  lemma {:induction false} StepKeepsInv(s: State, e: Event)
    requires Inv(s)
    ensures Inv(Step(s, e))
  {
    match e
    case Produce(_, _) =>
    case Consume(_, _) =>
    case ProducerMoves => ProducerStepKeepsInv(s);
    case ConsumerMoves => ConsumerStepKeepsInv(s);
  }

  ghost function Run(s: State, events: seq<Event>): (r: State)
    requires Inv(s)
    ensures Inv(r)
    decreases |events|
  {
    if events == [] then s
    else
      StepKeepsInv(s, events[0]);
      Run(Step(s, events[0]), events[1..])
  }

  /** The producer is about to store into slot prod; the consumer about to load from slot c. */
  predicate Storing(s: State) {
    s.pr.pc == At && s.pr.data != [] && s.pr.p != s.pr.c
  }

  predicate Loading(s: State) {
    s.co.pc == At && s.co.want > 0 && s.co.c != s.co.p
  }

  /** In every state of every interleaving: what was consumed is a prefix of what was produced, at
      most n - 2 bytes are buffered, prod never meets cons, a store and a load never aim at the same
      slot, a spin-wait sees a changed pointer exactly when the other side has moved, and a waiting call
      returns only when it has moved all its bytes. */
  lemma {:induction false} RingSafe(buf: seq<byte>, events: seq<Event>)
    requires |buf| >= 2
    ensures Inv(Init(buf))
    ensures var s := Run(Init(buf), events);
            && s.taken <= s.produced
            && 0 <= |s.produced| - s.done <= |s.buf| - 2
            && s.prod != s.cons
            && (Storing(s) && Loading(s) ==> s.prod != s.co.c)
            && (s.pr.pc == Wait ==> (s.cons == s.pr.c <==> s.done == s.pr.seen))
            && (s.co.pc == Wait ==> (s.prod == s.co.p <==> |s.produced| == s.co.seen))
            && (s.pr.pc == Idle && s.pr.wait ==> s.pr.data == [])
            && (s.co.pc == Idle && s.co.wait ==> s.co.want == 0)
  {
    InitInv(buf);
    var s := Run(Init(buf), events);
    var n, k := |s.buf|, |s.produced|;
    SlotEq(s.done, k + 1, n);
    if Storing(s) && Loading(s) {
      SlotEq(s.done + 1, s.co.seen + 1, n);
      SlotEq(s.done + 1, k + 1, n);
    }
    if s.pr.pc == Wait {
      SlotEq(s.pr.seen, s.done, n);
    }
    if s.co.pc == Wait {
      SlotEq(s.co.seen + 1, k + 1, n);
    }
  }

  /** A waiting side stands still exactly as long as the other has not moved since it looked. */
  lemma {:induction false} SpinExact(s: State)
    requires Inv(s)
    ensures s.pr.pc == Wait ==> (ProducerStep(s) == s <==> s.done == s.pr.seen)
    ensures s.co.pc == Wait ==> (ConsumerStep(s) == s <==> |s.produced| == s.co.seen)
  {
    if s.pr.pc == Wait {
      SlotEq(s.pr.seen, s.done, |s.buf|);
    }
    if s.co.pc == Wait {
      SlotEq(s.co.seen + 1, |s.produced| + 1, |s.buf|);
    }
  }

  // ---------------------------------------------------------------- a call run to completion

  function Min(a: int, b: int): int { if a <= b then a else b }

  function Rank(pc: Pc): nat {
    match pc case Idle => 0 case Advance => 1 case At => 2 case Second => 3 case First => 4 case Wait => 5
  }

  /** How far cons will be when a non-waiting consume returns, if the producer stands still. */
  function DrainGoal(s: State): int {
    var co := s.co;
    if co.pc == Idle then s.done
    else s.done + Min(co.want, (if co.pc == First then |s.produced| else co.seen) - s.done)
  }

  lemma {:induction false} DrainStep(s: State)
    requires Inv(s) && !s.co.wait && s.co.pc != Wait && s.co.pc != Idle
    ensures var t := ConsumerStep(s);
            && Inv(t) && !t.co.wait && t.co.pc != Wait && DrainGoal(t) == DrainGoal(s)
            && t == s.(co := t.co, cons := t.cons, taken := t.taken, done := t.done)
            && (t.co.want < s.co.want || (t.co.want == s.co.want && Rank(t.co.pc) < Rank(s.co.pc)))
  {
    ConsumerStepKeepsInv(s);
    NextSlot(s.done, |s.buf|);
    if s.co.pc == At {
      SlotEq(s.done + 1, s.co.seen + 1, |s.buf|);
    }
  }

  /** A non-waiting consume, run by an interrupt handler while the producer stands still, takes
      exactly as many bytes as it wants or there are. */
  ghost function Drain(s: State): (r: State)
    requires Inv(s) && !s.co.wait && s.co.pc != Wait
    ensures Inv(r) && r.co.pc == Idle && r.done == DrainGoal(s)
    ensures r == s.(co := r.co, cons := r.cons, taken := r.taken, done := r.done)
    decreases s.co.want, Rank(s.co.pc)
  {
    if s.co.pc == Idle then s
    else
      DrainStep(s);
      Drain(ConsumerStep(s))
  }

  /** How many bytes will be published when a non-waiting produce returns, if the consumer
      stands still. */
  function FillGoal(s: State): int {
    var pr, k := s.pr, |s.produced|;
    if pr.pc == Idle then k
    else k + Min(|pr.data|, (if pr.pc == First || pr.pc == Second then s.done else pr.seen) + |s.buf| - 2 - k)
  }

  /** What a step of a non-waiting produce does to the goal, the data and the measure. */
  ghost predicate FillProgress(s: State, t: State) {
    && FillGoal(t) == FillGoal(s) && !t.pr.wait && t.pr.pc != Wait
    && t == s.(pr := t.pr, prod := t.prod, produced := t.produced, buf := t.buf) && |t.buf| == |s.buf|
    && t.produced + t.pr.data == s.produced + s.pr.data
    && (|t.pr.data| < |s.pr.data| || (|t.pr.data| == |s.pr.data| && Rank(t.pr.pc) < Rank(s.pr.pc)))
  }

  lemma {:induction false} FillStep(s: State)
    requires Inv(s) && !s.pr.wait && s.pr.pc != Wait && s.pr.pc != Idle
    ensures Inv(ProducerStep(s)) && FillProgress(s, ProducerStep(s))
  {
    ProducerStepKeepsInv(s);
    if s.pr.pc == At {
      FillStore(s);
    } else if s.pr.pc == Advance {
      FillPublish(s);
    }
  }

  lemma {:induction false} FillStore(s: State)
    requires SharedOk(s) && ProducerOk(s) && !s.pr.wait && s.pr.pc == At
    ensures FillProgress(s, ProducerStep(s))
  {
    SlotEq(s.pr.seen, |s.produced| + 2, |s.buf|);
  }

  lemma {:induction false} FillPublish(s: State)
    requires SharedOk(s) && ProducerOk(s) && !s.pr.wait && s.pr.pc == Advance
    ensures FillProgress(s, ProducerStep(s))
  {
    var t := ProducerStep(s);
    assert t.produced + t.pr.data == s.produced + s.pr.data;
  }

  /** A non-waiting produce, run to completion, publishes exactly the prefix there is room for. */
  ghost function Fill(s: State): (r: State)
    requires Inv(s) && !s.pr.wait && s.pr.pc != Wait
    ensures Inv(r) && r.pr.pc == Idle && |r.produced| == FillGoal(s)
    ensures r == s.(pr := r.pr, prod := r.prod, produced := r.produced, buf := r.buf) && |r.buf| == |s.buf|
    ensures r.produced + r.pr.data == s.produced + s.pr.data
    decreases |s.pr.data|, Rank(s.pr.pc)
  {
    if s.pr.pc == Idle then s
    else
      FillStep(s);
      Fill(ProducerStep(s))
  }
}
