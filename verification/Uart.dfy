/** The interrupt-driven UART engine on its two rings. The main thread runs one shared access at a
    time and may be interrupted between any two; a handler runs to completion. The DMA engine is
    an environment with one outstanding transmit and a growing receive position.
 */
module Uart {
  import opened R = RingBuffer

  const CHUNK := 255   // largest transfer

  // ---------------------------------------------------------------- transmit

  /** `flight` bytes of the driver buffer are being sent (0: none), `pending` is an undelivered
      completion interrupt, `active` the driver's own flag. `sent` is what left the wire and
      `written` everything handed to blocking writes. */
  datatype Tx = Tx(ring: R.State, active: bool, drv: seq<byte>, flight: nat, pending: bool,
                   sent: seq<byte>, written: seq<byte>)

  datatype TxEvent = Write(data: seq<byte>) | MainMoves | Timer | Complete | TxInterrupt

  function TxInit(buf: seq<byte>): Tx {
    Tx(R.Init(buf), false, [], 0, false, [], [])
  }

  ghost predicate TxInv(s: Tx) {
    && R.Inv(s.ring) && s.ring.co.pc == Idle
    && s.flight <= |s.drv|
    && (s.active <==> s.flight > 0 || s.pending)
    && !(s.flight > 0 && s.pending)
    && s.sent + s.drv[..s.flight] == s.ring.taken
    && s.ring.produced + s.ring.pr.data == s.written
    && (s.ring.pr.pc == Idle ==> s.ring.pr.data == [])
    && (s.ring.pr.pc != Idle ==> s.ring.pr.wait)
  }

  /** The body of process_tx_data when no transfer is active: consume up to 255 bytes, copy them
      to the driver buffer and start the transfer. */
  ghost function StartTx(s: Tx): Tx
    requires R.Inv(s.ring) && s.ring.co.pc == Idle
  {
    var ring := R.Drain(R.ConsumeCall(s.ring, CHUNK, false));
    var x := ring.done - s.ring.done;
    if x > 0 then
      var bytes := ring.taken[s.ring.done..];
      s.(ring := ring, drv := bytes + (if x <= |s.drv| then s.drv[x..] else []), flight := x, active := true)
    else s.(ring := ring)
  }

  ghost function TxStep(s: Tx, e: TxEvent): Tx
    requires TxInv(s)
  {
    match e
    case Write(data) =>
      if s.ring.pr.pc == Idle then s.(ring := R.ProduceCall(s.ring, data, true), written := s.written + data) else s
    case MainMoves => s.(ring := R.ProducerStep(s.ring))
    case Timer => if s.active then s else StartTx(s)
    case Complete =>
      if s.flight > 0 then s.(sent := s.sent + s.drv[..s.flight], flight := 0, pending := true) else s
    case TxInterrupt =>
      if s.pending then StartTx(s.(pending := false, active := false)) else s
  }

  lemma {:induction false} StartTxKeepsInv(s: Tx)
    requires TxInv(s) && !s.active
    ensures TxInv(StartTx(s))
    ensures |StartTx(s).ring.taken| - |s.ring.taken| == R.Min(CHUNK, |s.ring.produced| - s.ring.done)
  {
    var ring := R.Drain(R.ConsumeCall(s.ring, CHUNK, false));
    assert s.drv[..0] == [];
    DrainTakes(s.ring, CHUNK);
    hide R.Inv, R.Drain, R.ConsumeCall;
    var t := StartTx(s);
    if ring.done > s.ring.done {
      assert t.drv[..t.flight] == ring.taken[s.ring.done..];
      assert s.sent + ring.taken[s.ring.done..] == ring.taken;
    }
  }

  /** What a non-waiting consume leaves of the ring. */
  lemma {:induction false} DrainTakes(ring: R.State, n: nat)
    requires R.Inv(ring) && ring.co.pc == Idle
    ensures var called := R.ConsumeCall(ring, n, false);
            R.Inv(called) && !called.co.wait && called.co.pc != Wait &&
            var r := R.Drain(called);
            && R.Inv(r) && r.co.pc == Idle && r.pr == ring.pr && r.produced == ring.produced && r.buf == ring.buf
            && r.done == ring.done + R.Min(n, |ring.produced| - ring.done) && r.done == |r.taken|
            && ring.done == |ring.taken| && ring.taken == r.taken[..ring.done]
  {
    var r := R.Drain(R.ConsumeCall(ring, n, false));
    assert ring.taken == ring.produced[..ring.done];
    assert r.taken == ring.produced[..r.done];
  }

  lemma {:induction false} MainMovesAccounts(s: R.State)
    requires R.Inv(s) && s.pr.pc != Idle && s.pr.wait
    ensures var t := R.ProducerStep(s);
            && t.produced + t.pr.data == s.produced + s.pr.data
            && (t.pr.pc == Idle ==> t.pr.data == []) && t.pr.wait
            && t.co == s.co && t.taken == s.taken
  {
  }

  /** A blocking write by an idle main thread hands over all its bytes. */
  lemma WriteAccepted(s: Tx, data: seq<byte>)
    requires TxInv(s)
    ensures var t := TxStep(s, Write(data));
            if s.ring.pr.pc != Idle then t == s
            else t.written == s.written + data && t.ring.pr.data == data && t.ring.pr.wait && t.ring.pr.pc != Idle
  {
  }

  lemma {:induction false} TxStepKeepsInv(s: Tx, e: TxEvent)
    requires TxInv(s)
    ensures TxInv(TxStep(s, e))
  {
    match e
    case Write(data) =>
      if s.ring.pr.pc == Idle {
        assert s.ring.produced + [] == s.ring.produced;
      }
    case MainMoves =>
      R.ProducerStepKeepsInv(s.ring);
      if s.ring.pr.pc != Idle {
        MainMovesAccounts(s.ring);
      }
    case Timer =>
      if !s.active {
        StartTxKeepsInv(s);
      }
    case Complete =>
      assert s.flight > 0 ==> s.drv[..0] == [];
    case TxInterrupt =>
      if s.pending {
        StartTxKeepsInv(s.(pending := false, active := false));
      }
  }

  ghost function TxRun(s: Tx, events: seq<TxEvent>): (r: Tx)
    requires TxInv(s)
    ensures TxInv(r)
    decreases |events|
  {
    if events == [] then s
    else
      TxStepKeepsInv(s, events[0]);
      TxRun(TxStep(s, events[0]), events[1..])
  }

  /** Whatever the interleaving of writes, accesses, timers and completions: the bytes on the wire,
      with those in flight, are a prefix of the bytes written, and a step taken while a transfer is
      in flight leaves the driver buffer alone. */
  lemma {:induction false} TransmitSafe(buf: seq<byte>, events: seq<TxEvent>, e: TxEvent)
    requires |buf| >= 2
    ensures TxInv(TxInit(buf))
    ensures var s := TxRun(TxInit(buf), events);
            && s.sent <= s.written
            && s.sent + s.drv[..s.flight] <= s.written
            && (s.flight > 0 ==> TxStep(s, e).drv == s.drv)
  {
    R.InitInv(buf);
    var s := TxRun(TxInit(buf), events);
    assert s.ring.taken <= s.ring.produced;
  }

  /** Nothing is stuck: an idle engine whose ring holds bytes starts a transfer at the next timer. */
  lemma {:induction false} TimerStartsTransfer(s: Tx)
    requires TxInv(s) && !s.active
    ensures TxStep(s, Timer).flight == R.Min(255, |s.ring.produced| - s.ring.done)
  {
    StartTxKeepsInv(s);
  }

  /** The completion interrupt starts the next transfer at once, or leaves the engine idle. */
  lemma {:induction false} InterruptStartsTransfer(s: Tx)
    requires TxInv(s) && s.pending
    ensures var t := TxStep(s, TxInterrupt);
            t.flight == R.Min(255, |s.ring.produced| - s.ring.done) && !t.pending && (t.active <==> t.flight > 0)
  {
    StartTxKeepsInv(s.(pending := false, active := false));
  }

  /** Between transfers the timer finds nothing to do. */
  lemma {:induction false} TimerLeavesTransfer(s: Tx)
    requires TxInv(s) && (s.flight > 0 || s.pending)
    ensures TxStep(s, Timer) == s
  {
  }

  // ---------------------------------------------------------------- receive

  /** `drv[..pos]` is what the DMA engine has stored since it was last armed, `lastPos` how much of
      that the driver has passed on, and `pending` an undelivered buffer-full interrupt. `received`
      is every byte the engine has stored and `offered` every byte passed to the ring, in order; a
      byte that arrives while the buffer is full is lost and in neither. */
  datatype Rx = Rx(ring: R.State, drv: seq<byte>, lastPos: nat, pending: bool,
                   received: seq<byte>, offered: seq<byte>)

  datatype RxEvent = Byte(b: byte) | RxTimer | RxInterrupt | Read(want: nat) | ReaderMoves

  function RxInit(buf: seq<byte>): Rx {
    Rx(R.Init(buf), [], 0, false, [], [])
  }

  ghost predicate RxInv(s: Rx) {
    && R.Inv(s.ring) && s.ring.pr.pc == Idle
    && s.lastPos <= |s.drv| <= CHUNK
    && (s.pending <==> |s.drv| == CHUNK)
    && s.offered + s.drv[s.lastPos..] == s.received
  }

  /** process_rx_data: pass on what arrived since the last call; a full buffer is armed again. */
  ghost function ProcessRx(s: Rx, interrupt: bool): Rx
    requires R.Inv(s.ring) && s.ring.pr.pc == Idle && s.lastPos <= |s.drv|
  {
    var pos := |s.drv|;
    var t := if pos > s.lastPos then
               var chunk := s.drv[s.lastPos..pos];
               s.(ring := R.Fill(R.ProduceCall(s.ring, chunk, false)), lastPos := pos, offered := s.offered + chunk)
             else s;
    if interrupt then t.(lastPos := 0, drv := [], pending := false) else t
  }

  ghost function RxStep(s: Rx, e: RxEvent): Rx
    requires RxInv(s)
  {
    match e
    case Byte(b) =>
      if |s.drv| < CHUNK then
        s.(drv := s.drv + [b], received := s.received + [b], pending := |s.drv| + 1 == CHUNK)
      else s
    case RxTimer => ProcessRx(s, false)
    case RxInterrupt => if s.pending then ProcessRx(s, true) else s
    case Read(want) => s.(ring := R.ConsumeCall(s.ring, want, true))
    case ReaderMoves => s.(ring := R.ConsumerStep(s.ring))
  }

  lemma {:induction false} RxStepKeepsInv(s: Rx, e: RxEvent)
    requires RxInv(s)
    ensures RxInv(RxStep(s, e))
  {
    match e
    case Byte(b) =>
      if |s.drv| < CHUNK {
        assert (s.drv + [b])[s.lastPos..] == s.drv[s.lastPos..] + [b];
      }
    case RxTimer => ProcessKeepsInv(s, false);
    case RxInterrupt =>
      if s.pending {
        ProcessKeepsInv(s, true);
      }
    case Read(want) =>
    case ReaderMoves => R.ConsumerStepKeepsInv(s.ring);
  }

  lemma {:induction false} ProcessKeepsInv(s: Rx, interrupt: bool)
    requires RxInv(s) && (interrupt ==> s.pending)
    ensures RxInv(ProcessRx(s, interrupt))
  {
    assert s.drv[s.lastPos..|s.drv|] == s.drv[s.lastPos..];
    assert s.drv[|s.drv|..] == [];
    assert s.offered + [] == s.offered;
  }

  ghost function RxRun(s: Rx, events: seq<RxEvent>): (r: Rx)
    requires RxInv(s)
    ensures RxInv(r)
    decreases |events|
  {
    if events == [] then s
    else
      RxStepKeepsInv(s, events[0]);
      RxRun(RxStep(s, events[0]), events[1..])
  }

  /** Across any mix of timer and buffer-full interrupts each byte received is offered to the ring
      once and in order: the offers are the bytes received but for those still in the driver buffer,
      and what the main thread has read is a prefix of what the ring accepted. */
  lemma {:induction false} ReceiveSafe(buf: seq<byte>, events: seq<RxEvent>)
    requires |buf| >= 2
    ensures RxInv(RxInit(buf))
    ensures var s := RxRun(RxInit(buf), events);
            && s.offered <= s.received
            && s.received == s.offered + s.drv[s.lastPos..]
            && s.ring.taken <= s.ring.produced
  {
    R.InitInv(buf);
  }

  lemma {:induction false} FillStored(ring: R.State, chunk: seq<byte>)
    requires R.Inv(ring) && ring.pr.pc == Idle
    ensures var room := |ring.buf| - 2 - (|ring.produced| - ring.done);
            R.Fill(R.ProduceCall(ring, chunk, false)).produced == ring.produced + chunk[..R.Min(|chunk|, room)]
  {
    var r := R.Fill(R.ProduceCall(ring, chunk, false));
    assert r.produced == (ring.produced + chunk)[..|r.produced|];
  }

  /** An offer is stored up to the room in the ring; only what does not fit is dropped. */
  lemma {:induction false} OfferStored(s: Rx, interrupt: bool)
    requires RxInv(s)
    ensures var chunk, room := s.drv[s.lastPos..], |s.ring.buf| - 2 - (|s.ring.produced| - s.ring.done);
            ProcessRx(s, interrupt).ring.produced == s.ring.produced + chunk[..R.Min(|chunk|, room)]
  {
    var chunk := s.drv[s.lastPos..];
    assert s.drv[s.lastPos..|s.drv|] == chunk;
    if |s.drv| > s.lastPos {
      FillStored(s.ring, chunk);
    }
  }

  /** Every timer interrupt passes on all that has arrived, as far as the ring has room for it. */
  lemma {:induction false} TimerOffers(s: Rx)
    requires RxInv(s)
    ensures var t, chunk := RxStep(s, RxTimer), s.drv[s.lastPos..];
            var room := |s.ring.buf| - 2 - (|s.ring.produced| - s.ring.done);
            && t.offered == s.received == t.received && t.drv == s.drv && t.lastPos == |s.drv|
            && t.ring.produced == s.ring.produced + chunk[..R.Min(|chunk|, room)]
  {
    OfferStored(s, false);
    assert s.drv[s.lastPos..|s.drv|] == s.drv[s.lastPos..];
  }

  /** So does the interrupt of a full buffer, after which the buffer is empty and armed again. */
  lemma {:induction false} InterruptOffers(s: Rx)
    requires RxInv(s) && |s.drv| == 255
    ensures var t, chunk := RxStep(s, RxInterrupt), s.drv[s.lastPos..];
            var room := |s.ring.buf| - 2 - (|s.ring.produced| - s.ring.done);
            && t.offered == s.received == t.received && t.drv == [] && t.lastPos == 0
            && t.ring.produced == s.ring.produced + chunk[..R.Min(|chunk|, room)]
  {
    OfferStored(s, true);
    assert s.drv[s.lastPos..|s.drv|] == s.drv[s.lastPos..];
  }

  /** A byte is stored unless the buffer is full; the buffer-full interrupt comes with the 255th. */
  lemma {:induction false} ByteStored(s: Rx, b: byte)
    requires RxInv(s)
    ensures var t := RxStep(s, Byte(b));
            if |s.drv| < 255 then t.received == s.received + [b] && t.drv == s.drv + [b]
               && (t.pending <==> |t.drv| == 255)
            else t == s
  {
  }

  // ---------------------------------------------------------------- uart0_blocking_write_multiple

  function Concat(chunks: seq<seq<byte>>): seq<byte> {
    if chunks == [] then [] else Concat(chunks[..|chunks| - 1]) + chunks[|chunks| - 1]
  }

  /** Chunks one after another. */
  lemma {:induction false} ConcatAppend(a: seq<seq<byte>>, b: seq<seq<byte>>, x: seq<byte>)
    ensures Concat([x]) == x && Concat(a + b) == Concat(a) + Concat(b)
    decreases |b|
  {
    assert [x][..0] == [];
    if b == [] {
      assert a + b == a;
    } else {
      assert (a + b)[..|a + b| - 1] == a + b[..|b| - 1];
      ConcatAppend(a, b[..|b| - 1], x);
    }
  }

  /** The blocking writes issued for a buffer: chunks of 255 bytes, the last of 1 to 255, that make up the
      buffer. */
  method BlockingWriteMultiple(buf: seq<byte>) returns (w: nat, calls: seq<seq<byte>>)
    ensures w == |buf| && Concat(calls) == buf
    ensures forall i :: 0 <= i < |calls| ==> 0 < |calls[i]| <= 255
    ensures forall i :: 0 <= i < |calls| - 1 ==> |calls[i]| == 255
  {
    w, calls := 0, [];
    while w < |buf|
      invariant w <= |buf| && Concat(calls) == buf[..w]
      invariant forall i :: 0 <= i < |calls| ==> 0 < |calls[i]| <= 255
      invariant forall i :: 0 <= i < |calls| ==> |calls[i]| == 255 || (i == |calls| - 1 && w == |buf|)
    {
      var count := if CHUNK <= |buf| - w then CHUNK else |buf| - w;
      ghost var before := calls;
      calls := calls + [buf[w..w + count]];
      assert calls[..|calls| - 1] == before;
      w := w + count;
    }
    assert buf[..w] == buf;
  }

  function Sum(ns: seq<nat>): nat {
    if ns == [] then 0 else Sum(ns[..|ns| - 1]) + ns[|ns| - 1]
  }

  /** The blocking reads issued for a buffer of len bytes: 255 bytes each, the last 1 to 255, len in all. */
  method BlockingReadMultiple(len: nat) returns (r: nat, calls: seq<nat>)
    ensures r == len && Sum(calls) == len
    ensures forall i :: 0 <= i < |calls| ==> 0 < calls[i] <= 255
    ensures forall i :: 0 <= i < |calls| - 1 ==> calls[i] == 255
  {
    r, calls := 0, [];
    while r < len
      invariant r <= len && Sum(calls) == r
      invariant forall i :: 0 <= i < |calls| ==> 0 < calls[i] <= 255
      invariant forall i :: 0 <= i < |calls| ==> calls[i] == 255 || (i == |calls| - 1 && r == len)
    {
      var count := if CHUNK <= len - r then CHUNK else len - r;
      ghost var before := calls;
      calls := calls + [count];
      assert calls[..|calls| - 1] == before;
      r := r + count;
    }
  }
}
