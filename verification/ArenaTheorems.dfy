/** What a client of the allocator may rely on in every reachable state. */
module ArenaTheorems {
  import opened Common
  import opened Ring
  import opened Arena
  import opened ArenaRuns

  // ---------------------------------------------------------------- malloc fails only when it must

  /** len consecutive free bytes from a. */
  ghost predicate FreeRun(m: Blocks, a: int, len: int) {
    forall x :: a <= x < a + len ==> FreeByte(m, x)
  }

  lemma EndNotFree(m: Blocks, b: int)
    requires Layout(m) && Coalesced(m) && b in m && m[b].free
    ensures !FreeByte(m, End(m, b))
  {
  }

  /** Immediate coalescing puts every run of free bytes inside a single free block. */
  lemma {:induction false} FreeRunInOneBlock(m: Blocks, a: int, len: int)
    requires Layout(m) && Coalesced(m) && 0 < len
    ensures FreeRun(m, a, len) ==> exists b :: b in m && m[b].free && b <= a && a + len <= End(m, b)
  {
    if FreeRun(m, a, len) {
      assert FreeByte(m, a);
      var b :| Has(m, b, a) && m[b].free;
      EndNotFree(m, b);
      assert b in m && m[b].free && b <= a && a + len <= End(m, b);
    }
  }

  lemma {:induction false} NoneFits(s: State, r: int)
    requires Inv(s) && FirstFit(s, 0, r) == |s.order|
    ensures forall b :: b in s.m && s.m[b].free ==> s.m[b].size < r
  {
    forall b | b in s.m && s.m[b].free ensures s.m[b].size < r {
      assert b in s.order;
      var i :| 0 <= i < |s.order| && s.order[i] == b;
    }
  }

  /** malloc(n > 0) returns NULL exactly when no run of free bytes, anywhere in the managed
      memory, is as long as the rounded request. */
  lemma {:induction false} MallocNullIff(s: State, n: nat)
    requires Inv(s) && n > 0
    ensures Malloc(s, n, true).1 == NULL <==> !exists a :: FreeRun(s.m, a, Round(n))
  {
    var r := Round(n);
    var j := FirstFit(s, 0, r);
    if j < |s.order| {
      var b := s.order[j];
      assert b in s.order;
      forall x | b <= x < b + r ensures FreeByte(s.m, x) {
        assert Has(s.m, b, x);
      }
      assert FreeRun(s.m, b, r);
    } else {
      NoneFits(s, r);
      forall a ensures !FreeRun(s.m, a, r) {
        FreeRunInOneBlock(s.m, a, r);
      }
    }
  }

  // ---------------------------------------------------------------- what malloc hands out

  /** x is one of the bytes requested by the allocation whose header is at a. */
  predicate InPayload(w: World, a: int, x: int) {
    a in w.live && a + HEADER <= x < a + HEADER + w.live[a]
  }

  /** Header bytes of the block at a: free blocks also hold the two free-chain pointers. */
  predicate InHeader(m: Blocks, a: int, x: int) {
    a in m && a <= x < a + if m[a].free then FREE_HEADER else HEADER
  }

  /** Live payloads are inside managed memory, apart from each other and from every header. */
  lemma {:induction false} PayloadsApart(w: World, a: int, x: int)
    requires WorldInv(w) && InPayload(w, a, x)
    ensures Managed(w.s.m, x) && !FreeByte(w.s.m, x)
    ensures forall b :: b != a ==> !InPayload(w, b, x)
    ensures forall b :: !InHeader(w.s.m, b, x)
  {
    var m := w.s.m;
    assert Used(m, a);
    assert Has(m, a, x);
    forall b | b != a ensures !InPayload(w, b, x) {
      if b in w.live {
        assert Used(m, b);
        assert b < a ==> End(m, b) <= a;
      }
    }
  }

  /** A successful malloc returns a new pointer and moves no other allocation. */
  lemma {:induction false} MallocFresh(w: World, n: nat, granted: bool)
    requires WorldInv(w)
    ensures var (t, p) := Malloc(w.s, n, granted);
            p != NULL ==> p - HEADER !in w.live && Step(w, MallocOp(n, granted)).live == w.live[p - HEADER := n]
                          && SameBytes(w.s.m, t.m)
  {
    var s, r := w.s, Round(n);
    var j := FirstFit(s, 0, r);
    if n > 0 && granted && j < |s.order| {
      assert s.order[j] in s.order;
      AllocEffect(s, j, r);
    }
  }

  /** Which block malloc takes and how much of it: the first of the free chain that is large enough, cut to
      the rounded request unless less than 32 bytes would be left over. Without a lock or for no bytes it does
      nothing. */
  lemma {:induction false} MallocFirstFit(s: State, n: nat, granted: bool)
    requires Inv(s)
    ensures n == 0 || !granted ==> Malloc(s, n, granted) == (s, NULL)
    ensures var (t, p) := Malloc(s, n, granted);
            p == NULL ==> t == s
    ensures var (t, p) := Malloc(s, n, granted);
            p != NULL ==>
              && Used(t.m, p - HEADER) && Round(n) <= t.m[p - HEADER].size < Round(n) + 2 * HEADER
              && exists j :: 0 <= j < |s.order| && IsFirstFit(s, j, Round(n)) && p == s.order[j] + HEADER
  {
    var r := Round(n);
    var j := FirstFit(s, 0, r);
    if n > 0 && granted && j < |s.order| {
      OrderFree(s, j);
      AllocEffect(s, j, r);
      assert IsFirstFit(s, j, r);
    }
  }

  /** Block j of the free chain holds r bytes and none before it does. */
  ghost predicate IsFirstFit(s: State, j: int, r: int) {
    && 0 <= j < |s.order|
    && (s.order[j] in s.m && s.m[s.order[j]].size >= r)
    && forall i :: 0 <= i < j && s.order[i] in s.m ==> s.m[s.order[i]].size < r
  }

  /** What is split off takes the place of the whole: two equal requests from one block lie side by side. */
  lemma {:induction false} MallocsAdjacent(s: State, n: nat)
    requires Inv(s) && n > 0
    ensures var (t, p) := Malloc(s, n, true);
            p != NULL && p - HEADER in s.m && s.m[p - HEADER].size >= 2 * Round(n) ==>
              Malloc(t, n, true).1 == p + Round(n)
  {
    var r := Round(n);
    var j := FirstFit(s, 0, r);
    var (t, p) := Malloc(s, n, true);
    if j < |s.order| {
      OrderFree(s, j);
      assert (t, p) == (AllocAt(s, j, r), s.order[j] + HEADER);
      if s.m[s.order[j]].size >= 2 * r {
        SecondFit(s, j, r);
        hide Inv, AllocAt, FirstFit;
        assert Malloc(t, n, true).1 == t.order[j] + HEADER;
      }
    }
  }

  /** After a split the rest is the first block that fits again. */
  lemma {:induction false} SecondFit(s: State, j: int, r: int)
    requires Inv(s) && 0 <= j < |s.order| && s.order[j] in s.m && j == FirstFit(s, 0, r)
    requires 2 * HEADER <= r && s.m[s.order[j]].size >= 2 * r
    ensures var t := AllocAt(s, j, r);
            && |t.order| == |s.order| && t.order[j] == s.order[j] + r && t.order[j] in t.m && FirstFit(t, 0, r) == j
  {
    var t, a := AllocAt(s, j, r), s.order[j];
    SplitOthers(s.m, a, r);
    forall i | 0 <= i < j ensures t.order[i] in t.m && t.m[t.order[i]].size < r {
      assert t.order[i] == s.order[i];
      OrderFree(s, i);
    }
    FirstFitIs(t, 0, j, r);
  }

  lemma {:induction false} FirstFitIs(s: State, k: nat, j: nat, r: int)
    requires k <= j < |s.order| && s.order[j] in s.m && s.m[s.order[j]].size >= r
    requires forall i :: k <= i < j ==> s.order[i] in s.m && s.m[s.order[i]].size < r
    ensures FirstFit(s, k, r) == j
    decreases j - k
  {
    if k < j {
      FirstFitIs(s, k + 1, j, r);
    }
  }

  /** A block freed between blocks in use is the first to be handed out again. */
  lemma {:induction false} LastFreedFirst(s: State, a: int, n: nat)
    requires Inv(s) && Used(s.m, a) && n > 0 && Round(n) <= s.m[a].size
    requires forall p :: !JoinsPrev(s.m, p, a)
    requires End(s.m, a) in s.m ==> !s.m[End(s.m, a)].free
    ensures Malloc(Free(s, a + HEADER, true), n, true).1 == a + HEADER
  {
    var t := State(s.m[a := s.m[a].(free := true)], [a] + s.order);
    assert ReleasePrev(s, a) == (t, a);
    assert End(t.m, a) == End(s.m, a);
    assert Free(s, a + HEADER, true) == t;
    FirstFitIs(t, 0, 0, Round(n));
  }

  /** The free chain after a release: merged into a free predecessor the block takes its place, otherwise it goes
      first; a free successor that is merged in leaves the chain. */
  lemma {:induction false} FreeChainAfterFree(s: State, a: int)
    requires Inv(s) && Used(s.m, a)
    ensures var t, b := Free(s, a + HEADER, true), End(s.m, a);
            var front := if exists p :: JoinsPrev(s.m, p, a) then s.order else [a] + s.order;
            t.order == if b in s.m && s.m[b].free then Remove(front, b) else front
  {
    var (t, p) := ReleasePrev(s, a);
    ReleasePrevKeeps(s, a);
    AlmostInvHas(t, p);
    if exists q :: JoinsPrev(s.m, q, a) {
      assert JoinsPrev(s.m, p, a);
    }
    assert End(t.m, p) == End(s.m, a);
    assert End(s.m, a) != a;
    hide Remove, Inv, AlmostInv;
  }

  predicate OnBoundary(a: int) { a % HEADER == 0 }

  ghost predicate Aligned(m: Blocks) {
    forall a :: a in m ==> OnBoundary(a)
  }

  ghost predicate AlignedOp(op: Op) {
    op.AddOp? ==> op.addr % HEADER == 0
  }

  lemma {:induction false} ReleaseAligned(s: State, a: int)
    requires Aligned(s.m) && a in s.m
    ensures Aligned(Release(s, a).m)
  {
  }

  lemma {:induction false} StepAligned(w: World, op: Op)
    requires Aligned(w.s.m) && AlignedOp(op)
    ensures Aligned(Step(w, op).s.m)
  {
    match op
    case AddOp(addr, size, granted) =>
      if FREE_HEADER <= size && granted {
        ReleaseAligned(Insert(w.s, addr, size), addr);
      }
    case MallocOp(n, granted) =>
      assert Round(n) % HEADER == 0;
    case FreeOp(p, granted) =>
      if p != NULL && granted && p - HEADER in w.s.m {
        ReleaseAligned(w.s, p - HEADER);
      }
  }

  /** If every arena given is 16-aligned, so is every live pointer of every reachable state. */
  lemma {:induction false} RunAligned(w: World, ops: seq<Op>)
    requires WorldInv(w) && ValidRun(w, ops) && Aligned(w.s.m)
    requires forall i :: 0 <= i < |ops| ==> AlignedOp(ops[i])
    ensures Aligned(Run(w, ops).s.m)
    ensures forall a :: a in Run(w, ops).live ==> OnBoundary(a + HEADER)
    decreases |ops|
  {
    hide WorldInv, ValidRun, ValidOp, Run, Step, Aligned, AlignedOp, OnBoundary;
    if ops == [] {
      RunNone(w);
      LiveAligned(w);
    } else {
      RunFirst(w, ops);
      StepAligned(w, ops[0]);
      StepKeepsInv(w, ops[0]);
      RunAligned(Step(w, ops[0]), ops[1..]);
    }
  }

  lemma {:induction false} LiveAligned(w: World)
    requires WorldInv(w) && Aligned(w.s.m)
    ensures forall a :: a in w.live ==> OnBoundary(a + HEADER)
  {
    hide Inv, Total, OnBoundary;
    forall a | a in w.live ensures OnBoundary(a + HEADER) {
      assert Used(w.s.m, a);
      NextBoundary(a);
    }
  }

  lemma NextBoundary(a: int)
    requires OnBoundary(a)
    ensures OnBoundary(a + HEADER)
  {
  }

  /** No managed byte lies beyond the 32-bit address space. */
  ghost predicate InSpace(m: Blocks) {
    forall x :: Managed(m, x) ==> x < ADDRESSES
  }

  lemma {:induction false} StepInSpace(w: World, op: Op)
    requires WorldInv(w) && ValidOp(w, op) && InSpace(w.s.m)
    ensures InSpace(Step(w, op).s.m)
  {
    hide Malloc, Free, Add, Outside, Managed;
    match op
    case AddOp(addr, size, granted) =>
      NothingAdded(w.s, addr, size, granted);
      if FREE_HEADER <= size && granted {
        AddEffect(w.s, addr, size);
      }
    case MallocOp(n, granted) =>
      MallocSame(w, n, granted);
    case FreeOp(p, granted) =>
      NothingFreed(w.s, p, granted);
      if p != NULL && granted {
        FreeKeepsInv(w, p);
      }
  }

  lemma {:induction false} MallocSame(w: World, n: nat, granted: bool)
    requires WorldInv(w)
    ensures SameBytes(w.s.m, Malloc(w.s, n, granted).0.m)
  {
    MallocFresh(w, n, granted);
  }

  /** Every block of every run ends within the 32-bit address space. */
  lemma {:induction false} RunInSpace(w: World, ops: seq<Op>)
    requires WorldInv(w) && ValidRun(w, ops) && InSpace(w.s.m)
    ensures forall a :: a in Run(w, ops).s.m ==> End(Run(w, ops).s.m, a) <= ADDRESSES
    decreases |ops|
  {
    hide WorldInv, ValidRun, ValidOp, Run, Step, InSpace;
    if ops == [] {
      RunNone(w);
      WorldLayout(w);
      EndsInSpace(w.s.m);
    } else {
      RunFirst(w, ops);
      StepInSpace(w, ops[0]);
      StepKeepsInv(w, ops[0]);
      RunInSpace(Step(w, ops[0]), ops[1..]);
    }
  }

  lemma WorldLayout(w: World)
    requires WorldInv(w)
    ensures Layout(w.s.m)
  {
  }

  lemma {:induction false} EndsInSpace(m: Blocks)
    requires Layout(m) && InSpace(m)
    ensures forall a :: a in m ==> End(m, a) <= ADDRESSES
  {
    forall a | a in m ensures End(m, a) <= ADDRESSES {
      assert Has(m, a, End(m, a) - 1);
      assert Managed(m, End(m, a) - 1);
    }
  }

  // ---------------------------------------------------------------- freeing everything

  ghost predicate AllFree(m: Blocks) {
    forall a :: a in m ==> m[a].free
  }

  /** Each block is a maximal region of managed bytes. */
  ghost predicate OneBlockPerRegion(m: Blocks) {
    forall a :: a in m ==> !Managed(m, a - 1) && !Managed(m, End(m, a))
  }

  lemma {:induction false} AllFreeMaximal(m: Blocks)
    requires Layout(m) && Coalesced(m) && AllFree(m)
    ensures OneBlockPerRegion(m)
  {
    forall a | a in m ensures !Managed(m, a - 1) && !Managed(m, End(m, a)) {
      assert forall c :: c in m && c < a ==> End(m, c) < a;
    }
  }

  /** The all-free heap is determined by the bytes managed. */
  lemma {:induction false} AllFreeUnique(m: Blocks, t: Blocks)
    requires Layout(m) && Coalesced(m) && AllFree(m)
    requires Layout(t) && Coalesced(t) && AllFree(t)
    requires forall x :: Managed(m, x) <==> Managed(t, x)
    ensures m == t
  {
    AllFreeMaximal(m);
    AllFreeMaximal(t);
    forall a | a in m ensures a in t && End(m, a) <= End(t, a) {
      BlockCovered(m, t, a);
    }
    forall a | a in t ensures a in m && End(t, a) <= End(m, a) {
      BlockCovered(t, m, a);
    }
    assert forall a :: a in m <==> a in t;
    forall a | a in m ensures m[a] == t[a] {
      assert End(m, a) <= End(t, a) && End(t, a) <= End(m, a);
      assert m[a] == Block(End(t, a) - a, true);
    }
  }

  lemma {:induction false} BlockCovered(m: Blocks, t: Blocks, a: int)
    requires Layout(m) && Layout(t) && a in m
    requires OneBlockPerRegion(m) && OneBlockPerRegion(t)
    requires forall x :: Managed(m, x) <==> Managed(t, x)
    ensures a in t && End(m, a) <= End(t, a)
  {
    assert Has(m, a, a);
    assert Managed(t, a);
    var b :| Has(t, b, a);
    assert !Managed(m, a - 1);
    assert !Has(t, b, a - 1);
    assert !Managed(t, End(t, a));
    assert !Has(m, a, End(t, a));
  }

  function FreeOps(ps: seq<int>): seq<Op> {
    seq(|ps|, i requires 0 <= i < |ps| => FreeOp(ps[i] + HEADER, true))
  }

  /** Freeing every live allocation once, in any order, is a valid run; it keeps the bytes managed,
      leaves nothing in use, and ends with one free block per maximal region. */
  lemma {:induction false} FreeAllAnyOrder(w: World, ps: seq<int>)
    requires WorldInv(w) && NoDup(ps) && forall p :: p in ps <==> p in w.live
    ensures ValidRun(w, FreeOps(ps))
    ensures var u := Run(w, FreeOps(ps));
            && WorldInv(u) && u.live == map[] && AllFree(u.s.m)
            && SameBytes(w.s.m, u.s.m) && OneBlockPerRegion(u.s.m)
    decreases |ps|
  {
    hide WorldInv, ValidRun, ValidOp, Run, Step, AllFree, SameBytes, OneBlockPerRegion, FreeOps, NoDup;
    if ps == [] {
      NothingLive(w, ps);
      RunNone(w);
    } else {
      var ops, w1 := FreeOps(ps), Step(w, FreeOp(ps[0] + HEADER, true));
      FreeFirst(w, ps);
      FreeOpsFirst(ps);
      RunFirst(w, ops);
      FreeAllAnyOrder(w1, ps[1..]);
      SameBytesTrans(w.s.m, w1.s.m, Run(w, ops).s.m);
    }
  }

  lemma {:induction false} FreeFirst(w: World, ps: seq<int>)
    requires WorldInv(w) && NoDup(ps) && ps != [] && forall p :: p in ps <==> p in w.live
    ensures ValidOp(w, FreeOp(ps[0] + HEADER, true))
    ensures var w1 := Step(w, FreeOp(ps[0] + HEADER, true));
            && WorldInv(w1) && SameBytes(w.s.m, w1.s.m)
            && NoDup(ps[1..]) && forall p :: p in ps[1..] <==> p in w1.live
  {
    hide WorldInv, SameBytes, Free;
    assert ps[0] in ps;
    FreeKeepsInv(w, ps[0] + HEADER);
    RestMembers(ps, w.live);
    var w1 := Step(w, FreeOp(ps[0] + HEADER, true));
    assert w1 == World(Free(w.s, ps[0] + HEADER, true), w.live - {ps[0]}, w.added) by {
      assert ps[0] + HEADER - HEADER == ps[0];
      LiveUsed(w, ps[0]);
    }
  }

  lemma FreeOpsFirst(ps: seq<int>)
    requires ps != []
    ensures FreeOps(ps) != [] && FreeOps(ps)[0] == FreeOp(ps[0] + HEADER, true) && FreeOps(ps)[1..] == FreeOps(ps[1..])
  {
  }

  lemma {:induction false} NothingLive(w: World, ps: seq<int>)
    requires WorldInv(w) && ps == [] && forall p :: p in ps <==> p in w.live
    ensures w.live == map[] && AllFree(w.s.m) && OneBlockPerRegion(w.s.m) && SameBytes(w.s.m, w.s.m)
            && FreeOps(ps) == []
  {
    assert forall p :: p in w.live ==> p in ps;
    forall a | a in w.s.m ensures w.s.m[a].free {
      assert Used(w.s.m, a) ==> a in w.live;
    }
    AllFreeMaximal(w.s.m);
  }

  lemma {:induction false} RestMembers(ps: seq<int>, live: map<int, nat>)
    requires ps != [] && NoDup(ps) && forall p :: p in ps <==> p in live
    ensures NoDup(ps[1..])
    ensures forall p :: p in ps[1..] <==> p in live - {ps[0]}
  {
    forall p | p in live - {ps[0]} ensures p in ps[1..] {
      var i :| 0 <= i < |ps| && ps[i] == p;
      assert ps[1..][i - 1] == p;
    }
  }

  /** Two orders of freeing everything end in the same heap. */
  lemma {:induction false} FreeOrderIrrelevant(w: World, ps: seq<int>, qs: seq<int>)
    requires WorldInv(w) && NoDup(ps) && NoDup(qs)
    requires forall p :: p in ps <==> p in w.live
    requires forall p :: p in qs <==> p in w.live
    ensures Run(w, FreeOps(ps)).s.m == Run(w, FreeOps(qs)).s.m
  {
    FreeAllAnyOrder(w, ps);
    FreeAllAnyOrder(w, qs);
    AllFreeUnique(Run(w, FreeOps(ps)).s.m, Run(w, FreeOps(qs)).s.m);
  }

  // ---------------------------------------------------------------- memory status

  /** Sum of the sizes along (a prefix of) the free chain. */
  function SumSizes(m: Blocks, xs: seq<int>): int
    requires forall i :: 0 <= i < |xs| ==> xs[i] in m
  {
    if xs == [] then 0 else SumSizes(m, xs[..|xs| - 1]) + m[xs[|xs| - 1]].size
  }

  ghost function FreePart(m: Blocks): Blocks { map a | a in m && m[a].free :: m[a] }
  ghost function UsedPart(m: Blocks): Blocks { map a | a in m && !m[a].free :: m[a] }

  lemma {:induction false} PartsAddUp(m: Blocks)
    ensures Total(FreePart(m)) + Total(UsedPart(m)) == Total(m)
    decreases |m|
  {
    if a :| a in m {
      PartsAddUp(m - {a});
      TotalRemove(m, a);
      if m[a].free {
        TotalRemove(FreePart(m), a);
        assert FreePart(m) - {a} == FreePart(m - {a});
        assert UsedPart(m) == UsedPart(m - {a});
      } else {
        TotalRemove(UsedPart(m), a);
        assert UsedPart(m) - {a} == UsedPart(m - {a});
        assert FreePart(m) == FreePart(m - {a});
      }
    }
  }

  lemma {:induction false} SumIsTotal(f: Blocks, xs: seq<int>)
    requires NoDup(xs) && forall a :: a in xs <==> a in f
    ensures forall i :: 0 <= i < |xs| ==> xs[i] in f
    ensures SumSizes(f, xs) == Total(f)
    decreases |xs|
  {
    if xs != [] {
      var z, ys := xs[|xs| - 1], xs[..|xs| - 1];
      forall a ensures a in ys <==> a in f - {z} {
        if a in f - {z} {
          var i :| 0 <= i < |xs| && xs[i] == a;
          assert ys[i] == a;
        }
      }
      SumIsTotal(f - {z}, ys);
      SumSame(f - {z}, f, ys);
      TotalRemove(f, z);
    }
  }

  lemma {:induction false} SumSame(f: Blocks, g: Blocks, xs: seq<int>)
    requires forall i :: 0 <= i < |xs| ==> xs[i] in f && xs[i] in g && f[xs[i]] == g[xs[i]]
    ensures SumSizes(f, xs) == SumSizes(g, xs)
    decreases |xs|
  {
    if xs != [] {
      SumSame(f, g, xs[..|xs| - 1]);
    }
  }

  /** `largest` is the size of the largest free block, zero when there is none. */
  ghost predicate IsLargest(s: State, largest: int) {
    && (forall a :: a in s.m && s.m[a].free ==> s.m[a].size <= largest)
    && ((largest == 0 && s.order == []) || exists a :: a in s.m && s.m[a].free && s.m[a].size == largest)
  }

  /** The walk of the free chain sums all free bytes; with the used blocks they are all the bytes
      ever added. */
  lemma {:induction false} StatusConserves(w: World)
    requires WorldInv(w)
    ensures forall i :: 0 <= i < |w.s.order| ==> w.s.order[i] in w.s.m
    ensures SumSizes(w.s.m, w.s.order) == Total(FreePart(w.s.m))
    ensures SumSizes(w.s.m, w.s.order) + Total(UsedPart(w.s.m)) == w.added
  {
    PartsAddUp(w.s.m);
    forall i | 0 <= i < |w.s.order| ensures w.s.order[i] in w.s.m && w.s.m[w.s.order[i]].free {
      assert w.s.order[i] in w.s.order;
    }
    SumIsTotal(FreePart(w.s.m), w.s.order);
    SumSame(FreePart(w.s.m), w.s.m, w.s.order);
  }

  /** The reported largest block decides exactly which requests succeed. */
  lemma {:induction false} LargestDecides(s: State, largest: int, n: nat)
    requires Inv(s) && IsLargest(s, largest) && n > 0
    ensures Malloc(s, n, true).1 != NULL <==> Round(n) <= largest
  {
    var j := FirstFit(s, 0, Round(n));
    if j < |s.order| {
      assert s.order[j] in s.order;
    }
    if Round(n) <= largest {
      var a :| a in s.m && s.m[a].free && s.m[a].size == largest;
      assert a in s.order;
      var i :| 0 <= i < |s.order| && s.order[i] == a;
      assert i >= j;
    }
  }
}
