/** The sense-reversing barrier: n threads interleaved at the grain of single memory accesses,
    passing the same barrier any number of times.
 */
module Barrier {

  /** Where a thread is: outside the barrier, or about to do the named access. */
  datatype Pc = Out | FetchAdd | Reset | Publish | Spin

  /** `threadSense` is thread local; `entered` and `left` count a thread's passes and `rounds`
      the number of times the shared sense was published. */
  datatype Thread = Thread(pc: Pc, threadSense: bool, entered: nat, left: nat)
  datatype State = State(threads: seq<Thread>, sense: bool, count: int, rounds: nat)

  function Init(n: nat): State {
    State(seq(n, i => Thread(Out, false, 0, 0)), false, 0, 0)
  }

  function Leave(t: Thread): Thread {
    t.(pc := Out, left := t.left + 1)
  }

  /** One memory access by thread i. */
  function Step(s: State, i: nat): (r: State)
    requires i < |s.threads|
    ensures |r.threads| == |s.threads|
  {
    var t := s.threads[i];
    match t.pc
    case Out => s.(threads := s.threads[i := t.(pc := FetchAdd, threadSense := !t.threadSense,
                                                entered := t.entered + 1)])
    case FetchAdd =>
      var last := s.count == |s.threads| - 1;
      s.(threads := s.threads[i := t.(pc := if last then Reset else Spin)], count := s.count + 1)
    case Reset => s.(threads := s.threads[i := t.(pc := Publish)], count := 0)
    case Publish => s.(threads := s.threads[i := Leave(t)], sense := t.threadSense, rounds := s.rounds + 1)
    case Spin => if s.sense == t.threadSense then s.(threads := s.threads[i := Leave(t)]) else s
  }

  function Run(s: State, schedule: seq<nat>): (r: State)
    requires forall k :: 0 <= k < |schedule| ==> schedule[k] < |s.threads|
    ensures |r.threads| == |s.threads|
    decreases |schedule|
  {
    if schedule == [] then s else Run(Step(s, schedule[0]), schedule[1..])
  }

  // ---------------------------------------------------------------- the inductive invariant

  predicate Odd(k: nat) { k % 2 == 1 }

  /** Each thread's sense is the parity of its passes, and it is in the current round or the next. */
  ghost predicate ThreadOk(t: Thread, rounds: nat) {
    && t.threadSense == Odd(t.entered)
    && t.entered == t.left + (if t.pc == Out then 0 else 1)
    && match t.pc
       case Out => t.entered == rounds
       case Spin => t.entered == rounds || t.entered == rounds + 1
       case _ => t.entered == rounds + 1
  }

  /** Arrived in the round that is still open. */
  predicate Waiting(t: Thread, rounds: nat) {
    t.pc == Spin && t.entered == rounds + 1
  }

  predicate Leading(t: Thread) {
    t.pc == Reset || t.pc == Publish
  }

  ghost function WaitingSet(s: State): set<nat> {
    set i: nat | i < |s.threads| && Waiting(s.threads[i], s.rounds)
  }

  /** At most one thread is between its fetch-and-add and the publication, and then all others wait. */
  ghost predicate Led(s: State, l: nat) {
    && l < |s.threads|
    && (forall j :: 0 <= j < |s.threads| && j != l ==> Waiting(s.threads[j], s.rounds))
    && Leading(s.threads[l])
    && s.count == if s.threads[l].pc == Reset then |s.threads| else 0
  }

  ghost predicate Unled(s: State) {
    && (forall j :: 0 <= j < |s.threads| ==> !Leading(s.threads[j]))
    && s.count == |WaitingSet(s)| < |s.threads|
  }

  ghost predicate Inv(s: State) {
    && (forall j :: 0 <= j < |s.threads| ==> ThreadOk(s.threads[j], s.rounds))
    && s.sense == Odd(s.rounds)
    && (Unled(s) || exists l: nat :: Led(s, l))
  }

  lemma {:induction false} InitInv(n: nat)
    requires n > 0
    ensures Inv(Init(n))
  {
    assert WaitingSet(Init(n)) == {};
  }

  lemma {:induction false} SubrangeSize(xs: set<nat>, n: nat)
    requires forall i :: i in xs ==> i < n
    ensures |xs| <= n
    ensures |xs| == n ==> forall i: nat :: i < n ==> i in xs
    decreases n
  {
    if n == 0 {
      assert xs == {};
    } else {
      var ys := xs - {n - 1};
      SubrangeSize(ys, n - 1);
      if n - 1 in xs {
        assert |xs| == |ys| + 1;
        assert forall i :: i in ys ==> i in xs;
      } else {
        assert ys == xs;
      }
    }
  }

  lemma {:induction false} LastArrives(s: State, i: nat)
    requires Unled(s) && i < |s.threads| && s.threads[i].pc == FetchAdd && s.count == |s.threads| - 1
    ensures Led(Step(s, i), i)
  {
    var t, ws := Step(s, i), WaitingSet(s);
    assert i !in ws;
    SubrangeSize(ws + {i}, |s.threads|);
    forall j | 0 <= j < |t.threads| && j != i ensures Waiting(t.threads[j], t.rounds) {
      assert j in ws + {i};
    }
  }

  lemma {:induction false} OtherArrives(s: State, i: nat)
    requires Unled(s) && i < |s.threads| && s.count != |s.threads| - 1
    requires s.threads[i].pc == FetchAdd && s.threads[i].entered == s.rounds + 1
    ensures Unled(Step(s, i))
  {
    var t, ws := Step(s, i), WaitingSet(s);
    assert i !in ws;
    assert WaitingSet(t) == ws + {i};
  }

  /** Arrivals: the thread that finds n - 1 others waiting leads, any other waits. */
  lemma {:induction false} ArriveKeepsInv(s: State, i: nat)
    requires Inv(s) && i < |s.threads| && s.threads[i].pc == FetchAdd
    ensures Inv(Step(s, i))
  {
    assert Unled(s);
    assert ThreadOk(s.threads[i], s.rounds);
    if s.count == |s.threads| - 1 {
      LastArrives(s, i);
    } else {
      OtherArrives(s, i);
    }
  }

  lemma {:induction false} PublishKeepsInv(s: State, i: nat)
    requires Inv(s) && i < |s.threads| && s.threads[i].pc == Publish
    ensures Inv(Step(s, i))
  {
    var t := Step(s, i);
    assert Led(s, i);
    assert WaitingSet(t) == {};
    forall j | 0 <= j < |t.threads| ensures ThreadOk(t.threads[j], t.rounds) && !Leading(t.threads[j]) {
      assert j != i ==> t.threads[j] == s.threads[j] && Waiting(s.threads[j], s.rounds);
    }
  }

  lemma {:induction false} StepKeepsInv(s: State, i: nat)
    requires Inv(s) && i < |s.threads|
    ensures Inv(Step(s, i))
  {
    var t := Step(s, i);
    match s.threads[i].pc
    case FetchAdd => ArriveKeepsInv(s, i);
    case Publish => PublishKeepsInv(s, i);
    case Reset =>
      assert Led(s, i);
      assert Led(t, i);
    case Out =>
      assert Unled(s);
      assert WaitingSet(t) == WaitingSet(s);
    case Spin =>
      if s.sense == s.threads[i].threadSense {
        assert s.threads[i].entered == s.rounds;
        assert Unled(s);
        assert WaitingSet(t) == WaitingSet(s);
      }
  }

  lemma {:induction false} RunKeepsInv(s: State, schedule: seq<nat>)
    requires Inv(s) && forall k :: 0 <= k < |schedule| ==> schedule[k] < |s.threads|
    ensures Inv(Run(s, schedule))
    decreases |schedule|
  {
    if schedule != [] {
      StepKeepsInv(s, schedule[0]);
      RunKeepsInv(Step(s, schedule[0]), schedule[1..]);
    }
  }

  // ---------------------------------------------------------------- what the barrier is for

  /** For every number of threads and every schedule: nobody has left more often than anybody has
      entered, no two threads are more than one round apart, and the counter stays in range. */
  lemma {:induction false} BarrierSafe(n: nat, schedule: seq<nat>, i: nat, j: nat)
    requires n > 0 && i < n && j < n && forall k :: 0 <= k < |schedule| ==> schedule[k] < n
    ensures var s := Run(Init(n), schedule);
            && s.threads[i].left <= s.threads[j].entered
            && s.threads[i].entered <= s.threads[j].entered + 1
            && s.threads[i].left <= s.threads[j].left + 1
            && 0 <= s.count <= n
  {
    InitInv(n);
    RunKeepsInv(Init(n), schedule);
    var s := Run(Init(n), schedule);
    assert ThreadOk(s.threads[i], s.rounds) && ThreadOk(s.threads[j], s.rounds);
  }

  /** Thread i's next access changes the state: it is not spinning in vain. */
  predicate Enabled(s: State, i: nat)
    requires i < |s.threads|
  {
    s.threads[i].pc == Spin ==> s.sense == s.threads[i].threadSense
  }

  /** While some thread has not left round k, one that has not can move. */
  lemma {:induction false} RoundCanFinish(s: State, k: nat, i: nat)
    requires Inv(s) && i < |s.threads| && s.threads[i].left < k
    ensures exists j: nat :: j < |s.threads| && s.threads[j].left < k && Enabled(s, j)
  {
    assert ThreadOk(s.threads[i], s.rounds);
    if s.threads[i].left < s.rounds {
      assert Enabled(s, i);
    } else if l: nat :| Led(s, l) {
      assert ThreadOk(s.threads[l], s.rounds);
      assert s.threads[l].left < k && Enabled(s, l);
    } else {
      var j := SomeNotWaiting(s);
      assert ThreadOk(s.threads[j], s.rounds);
      assert s.threads[j].left < k && Enabled(s, j);
    }
  }

  lemma {:induction false} SomeNotWaiting(s: State) returns (j: nat)
    requires Unled(s)
    ensures j < |s.threads| && !Waiting(s.threads[j], s.rounds)
  {
    j := FindOutside(WaitingSet(s), |s.threads|);
  }

  lemma {:induction false} FindOutside(xs: set<nat>, n: nat) returns (j: nat)
    requires |xs| < n
    ensures j < n && j !in xs
    decreases n
  {
    j := n - 1;
    if n - 1 in xs {
      assert |xs - {n - 1}| == |xs| - 1;
      j := FindOutside(xs - {n - 1}, n - 1);
    }
  }

  /** In every reachable state some thread can move: the barrier never deadlocks. */
  lemma {:induction false} BarrierProgress(n: nat, schedule: seq<nat>)
    requires n > 0 && forall k :: 0 <= k < |schedule| ==> schedule[k] < n
    ensures exists j: nat :: j < n && Enabled(Run(Init(n), schedule), j)
  {
    InitInv(n);
    RunKeepsInv(Init(n), schedule);
    var s := Run(Init(n), schedule);
    if l: nat :| Led(s, l) {
      assert l < n && Enabled(s, l);
    } else {
      var j := SomeNotWaiting(s);
      assert ThreadOk(s.threads[j], s.rounds);
      assert j < n && Enabled(s, j);
    }
  }

  // ---------------------------------------------------------------- every round ends

  /** Accesses thread t still has to make, at most, before it has left k rounds. */
  function Todo(t: Thread, k: nat): nat {
    if t.left >= k then 0
    else 6 * (k - t.left - 1) + match t.pc
      case Out => 5
      case FetchAdd => 4
      case Reset => 3
      case Publish => 2
      case Spin => 1
  }

  function Work(ts: seq<Thread>, k: nat): nat {
    if ts == [] then 0 else Work(ts[..|ts| - 1], k) + Todo(ts[|ts| - 1], k)
  }

  lemma {:induction false} WorkUpdate(ts: seq<Thread>, i: nat, t: Thread, k: nat)
    requires i < |ts|
    ensures Work(ts[i := t], k) == Work(ts, k) - Todo(ts[i], k) + Todo(t, k)
    decreases |ts|
  {
    var n := |ts| - 1;
    if i == n {
      assert ts[i := t][..n] == ts[..n];
    } else {
      assert ts[i := t][..n] == ts[..n][i := t];
      WorkUpdate(ts[..n], i, t, k);
    }
  }

  /** A move by a thread that has not left k rounds brings the end nearer and no other step moves it away. */
  lemma {:induction false} WorkShrinks(s: State, i: nat, k: nat)
    requires Inv(s) && i < |s.threads|
    ensures if s.threads[i].left < k && Enabled(s, i) then Work(Step(s, i).threads, k) < Work(s.threads, k)
            else Work(Step(s, i).threads, k) == Work(s.threads, k)
    ensures Work(s.threads, k) == 0 <==> forall j :: 0 <= j < |s.threads| ==> s.threads[j].left >= k
  {
    var t := Step(s, i);
    assert ThreadOk(s.threads[i], s.rounds);
    assert s.threads[i := s.threads[i]] == s.threads;
    assert t.threads == s.threads[i := t.threads[i]];
    WorkUpdate(s.threads, i, t.threads[i], k);
    WorkZero(s.threads, k);
  }

  lemma {:induction false} WorkZero(ts: seq<Thread>, k: nat)
    ensures Work(ts, k) == 0 <==> forall j :: 0 <= j < |ts| ==> ts[j].left >= k
    decreases |ts|
  {
    if ts != [] {
      WorkZero(ts[..|ts| - 1], k);
      assert forall j :: 0 <= j < |ts| - 1 ==> ts[j] == ts[..|ts| - 1][j];
    }
  }

  /** What every step keeps: the invariant, and the work or less. */
  lemma {:induction false} StepInRound(s: State, i: nat, k: nat)
    requires Inv(s) && i < |s.threads|
    ensures Inv(Step(s, i)) && Work(Step(s, i).threads, k) <= Work(s.threads, k)
    ensures s.threads[i].left < k && Enabled(s, i) ==> Work(Step(s, i).threads, k) < Work(s.threads, k)
  {
    hide Inv, Step;
    StepKeepsInv(s, i);
    WorkShrinks(s, i, k);
  }

  lemma {:induction false} SomeCanLeave(s: State, k: nat) returns (j: nat)
    requires Inv(s) && Work(s.threads, k) > 0
    ensures j < |s.threads| && s.threads[j].left < k && Enabled(s, j)
  {
    hide Inv, Enabled;
    WorkZero(s.threads, k);
    var i: nat :| i < |s.threads| && s.threads[i].left < k;
    RoundCanFinish(s, k, i);
    j :| j < |s.threads| && s.threads[j].left < k && Enabled(s, j);
  }

  /** Moves by threads that have not left k rounds take all of them there. */
  lemma {:induction false} RoundEnds(s: State, k: nat) returns (schedule: seq<nat>)
    requires Inv(s)
    ensures forall m :: 0 <= m < |schedule| ==> schedule[m] < |s.threads|
    ensures |schedule| <= Work(s.threads, k)
    ensures forall j :: 0 <= j < |s.threads| ==> k <= Run(s, schedule).threads[j].left
    decreases Work(s.threads, k)
  {
    hide Inv, Enabled, Step, Work;
    schedule := [];
    WorkZero(s.threads, k);
    if Work(s.threads, k) > 0 {
      var j := SomeCanLeave(s, k);
      StepInRound(s, j, k);
      var rest := RoundEnds(Step(s, j), k);
      schedule := [j] + rest;
      assert schedule[1..] == rest;
    }
  }

  /** A thread that can move still can after a step by another. */
  lemma {:induction false} EnabledPersists(s: State, i: nat, j: nat)
    requires Inv(s) && i < |s.threads| && j < |s.threads| && i != j && Enabled(s, j)
    ensures Step(s, i).threads[j] == s.threads[j] && Enabled(Step(s, i), j)
  {
    if s.threads[i].pc == Publish {
      assert Led(s, i);
      assert Waiting(s.threads[j], s.rounds);
      assert ThreadOk(s.threads[j], s.rounds);
    }
  }

  ghost predicate Schedule(schedule: seq<nat>, n: nat) {
    forall m :: 0 <= m < |schedule| ==> schedule[m] < n
  }

  /** Steps never add work. */
  lemma {:induction false} RunInRound(s: State, schedule: seq<nat>, k: nat)
    requires Inv(s) && Schedule(schedule, |s.threads|)
    ensures var t := Run(s, schedule); Inv(t) && Work(t.threads, k) <= Work(s.threads, k)
    decreases |schedule|
  {
    hide Inv, Step, Work;
    if schedule != [] {
      StepInRound(s, schedule[0], k);
      RunInRound(Step(s, schedule[0]), schedule[1..], k);
    }
  }

  /** A schedule in which a thread takes part that can move out of round k does some of the work. */
  lemma {:induction false} TurnComes(s: State, schedule: seq<nat>, k: nat, j: nat)
    requires Inv(s) && Schedule(schedule, |s.threads|)
    requires j < |s.threads| && s.threads[j].left < k && Enabled(s, j) && j in schedule
    ensures Work(Run(s, schedule).threads, k) < Work(s.threads, k)
    decreases |schedule|
  {
    hide Inv, Step, Work, Enabled;
    var i, rest := schedule[0], schedule[1..];
    var t := Step(s, i);
    StepInRound(s, i, k);
    RunInRound(t, rest, k);
    if i != j {
      EnabledPersists(s, i, j);
      assert j in rest;
      TurnComes(t, rest, k, j);
    }
  }

  function Flatten(segments: seq<seq<nat>>): seq<nat> {
    if segments == [] then [] else segments[0] + Flatten(segments[1..])
  }

  /** Each segment lets every thread take part. */
  ghost predicate Fair(segments: seq<seq<nat>>, n: nat) {
    forall m :: 0 <= m < |segments| ==> Schedule(segments[m], n) && forall i: nat :: i < n ==> i in segments[m]
  }

  lemma {:induction false} RunAppend(s: State, x: seq<nat>, y: seq<nat>)
    requires Schedule(x, |s.threads|) && Schedule(y, |s.threads|)
    ensures Schedule(x + y, |s.threads|) && Run(s, x + y) == Run(Run(s, x), y)
    decreases |x|
  {
    hide Step;
    if x == [] {
      assert x + y == y;
    } else {
      assert (x + y)[1..] == x[1..] + y;
      RunAppend(Step(s, x[0]), x[1..], y);
    }
  }

  lemma {:induction false} FlattenSchedule(segments: seq<seq<nat>>, n: nat)
    requires Fair(segments, n)
    ensures Schedule(Flatten(segments), n)
    decreases |segments|
  {
    if segments != [] {
      FlattenSchedule(segments[1..], n);
    }
  }

  /** Under every fair schedule every round ends: as many segments as there is work, in each of which every
      thread takes part, in any order and with any repetitions, take all threads through k rounds. */
  lemma {:induction false} FairRoundEnds(s: State, k: nat, segments: seq<seq<nat>>)
    requires Inv(s) && Fair(segments, |s.threads|) && |segments| >= Work(s.threads, k)
    ensures Schedule(Flatten(segments), |s.threads|)
    ensures forall j :: 0 <= j < |s.threads| ==> k <= Run(s, Flatten(segments)).threads[j].left
    decreases |segments|
  {
    FlattenSchedule(segments, |s.threads|);
    hide Inv, Work, Enabled, Step;
    if Work(s.threads, k) == 0 {
      RunInRound(s, Flatten(segments), k);
      WorkZero(Run(s, Flatten(segments)).threads, k);
    } else {
      var x, rest := segments[0], segments[1..];
      var j := SomeCanLeave(s, k);
      assert j in x;
      TurnComes(s, x, k, j);
      RunInRound(s, x, k);
      FairRoundEnds(Run(s, x), k, rest);
      RunAppend(s, x, Flatten(rest));
    }
  }

  lemma {:induction false} WorkBound(ts: seq<Thread>, k: nat)
    ensures Work(ts, k) <= 6 * k * |ts|
    decreases |ts|
  {
    if ts != [] {
      var n := |ts| - 1;
      WorkBound(ts[..n], k);
      TodoBound(ts[n], k);
      hide Todo;
      MoreThreads(6 * k, n);
    }
  }

  lemma TodoBound(t: Thread, k: nat)
    ensures Todo(t, k) <= 6 * k
  {
  }

  lemma MoreThreads(w: nat, n: nat)
    ensures w * (n + 1) == w * n + w
  {
  }

  /** From the start, for any number of threads and rounds: 6 * k * n fair segments see every thread through k
      rounds. */
  lemma {:induction false} BarrierRuns(n: nat, k: nat, segments: seq<seq<nat>>)
    requires n > 0 && Fair(segments, n) && |segments| >= 6 * k * n
    ensures Schedule(Flatten(segments), n)
    ensures forall j :: 0 <= j < n ==> k <= Run(Init(n), Flatten(segments)).threads[j].left
  {
    InitInv(n);
    WorkBound(Init(n).threads, k);
    FairRoundEnds(Init(n), k, segments);
  }
}
