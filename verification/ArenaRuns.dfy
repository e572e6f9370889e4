/** What every run of the allocator keeps: bytes, sums, and the allocations handed out. */
module ArenaRuns {
  import opened Ring
  import opened Arena

  // ---------------------------------------------------------------- sums of sizes

  ghost function Total(m: Blocks): int
    decreases |m|
  {
    if exists a :: a in m then var a :| a in m; m[a].size + Total(m - {a}) else 0
  }

  lemma {:induction false} TotalRemove(m: Blocks, a: int)
    requires a in m
    ensures Total(m) == m[a].size + Total(m - {a})
    decreases |m.Keys|
  {
    var b :| b in m && Total(m) == m[b].size + Total(m - {b});
    if a != b {
      TotalRemove(m - {b}, a);
      TotalRemove(m - {a}, b);
      assert m - {a} - {b} == m - {b} - {a};
    }
  }

  lemma {:induction false} TotalInsert(m: Blocks, a: int, b: Block)
    ensures Total(m[a := b]) == Total(m - {a}) + b.size
  {
    TotalRemove(m[a := b], a);
    assert m[a := b] - {a} == m - {a};
  }

  lemma {:induction false} TotalSplit(m: Blocks, a: int, r: int)
    requires a in m && r > 0 && a + r !in m
    ensures Total(Split(m, a, r)) == Total(m)
  {
    var m1 := m[a := Block(r, false)];
    TotalInsert(m, a, Block(r, false));
    TotalInsert(m1, a + r, Block(m[a].size - r, true));
    assert m1 - {a + r} == m1;
    TotalRemove(m, a);
  }

  lemma {:induction false} TotalJoin(m: Blocks, a: int, b: int)
    requires a in m && b in m && a != b
    ensures Total(Join(m, a, b)) == Total(m)
  {
    TotalRemove(m, b);
    TotalRemove(m - {b}, a);
    TotalInsert(m - {b}, a, Block(m[a].size + m[b].size, true));
  }

  lemma {:induction false} TotalMark(m: Blocks, a: int, f: bool)
    requires a in m
    ensures Total(m[a := m[a].(free := f)]) == Total(m)
  {
    TotalRemove(m, a);
    TotalInsert(m, a, m[a].(free := f));
  }

  // ---------------------------------------------------------------- effects on bytes and on used blocks

  /** t manages the same bytes as m, and the same number of them. */
  ghost predicate SameBytes(m: Blocks, t: Blocks) {
    (forall x :: Managed(m, x) <==> Managed(t, x)) && Total(m) == Total(t)
  }

  predicate Used(m: Blocks, a: int) {
    a in m && !m[a].free
  }

  lemma {:induction false} SplitBytes(m: Blocks, a: int, r: int)
    requires Layout(m) && a in m && 0 < r < m[a].size && a + r !in m
    ensures SameBytes(m, Split(m, a, r))
  {
    var t := Split(m, a, r);
    TotalSplit(m, a, r);
    forall x ensures Managed(m, x) <==> Managed(t, x) {
      if Managed(m, x) {
        var b :| Has(m, b, x);
        assert Has(t, b, x) || Has(t, a + r, x);
      }
      if Managed(t, x) {
        var b :| Has(t, b, x);
        assert Has(m, if b == a + r then a else b, x);
      }
    }
  }

  lemma {:induction false} JoinBytes(m: Blocks, a: int, b: int)
    requires Layout(m) && a in m && b in m && End(m, a) == b
    ensures SameBytes(m, Join(m, a, b))
  {
    var t := Join(m, a, b);
    TotalJoin(m, a, b);
    forall x ensures Managed(m, x) <==> Managed(t, x) {
      if Managed(m, x) {
        var c :| Has(m, c, x);
        assert Has(t, if c == b then a else c, x);
      }
      if Managed(t, x) {
        var c :| Has(t, c, x);
        assert Has(m, c, x) || Has(m, b, x);
      }
    }
  }

  lemma {:induction false} MarkBytes(m: Blocks, a: int, f: bool)
    requires a in m
    ensures SameBytes(m, m[a := m[a].(free := f)])
  {
    var t := m[a := m[a].(free := f)];
    TotalMark(m, a, f);
    forall x ensures Managed(m, x) <==> Managed(t, x) {
      assert forall c :: Has(m, c, x) <==> Has(t, c, x);
    }
  }

  lemma {:induction false} AllocEffect(s: State, j: int, r: int)
    requires Inv(s) && 0 <= j < |s.order| && s.order[j] in s.m
    requires 2 * HEADER <= r <= s.m[s.order[j]].size
    ensures var a, t := s.order[j], AllocAt(s, j, r).m;
            && SameBytes(s.m, t)
            && !Used(s.m, a) && Used(t, a) && r <= t[a].size < r + 2 * HEADER && SameUsed(s.m, t, a)
  {
    var a := s.order[j];
    assert a in s.order;
    if s.m[a].size >= r + 2 * HEADER {
      SplitKeeps(s.m, a, r);
      SplitBytes(s.m, a, r);
    } else {
      MarkBytes(s.m, a, false);
    }
  }

  lemma {:induction false} ReleaseEffect(s: State, a: int)
    requires Inv(s) && Used(s.m, a)
    ensures var t := Release(s, a).m;
            && SameBytes(s.m, t)
            && !Used(t, a) && SameUsed(s.m, t, a)
  {
    var (t, b) := ReleasePrev(s, a);
    ReleasePrevKeeps(s, a);
    ReleasePrevEffect(s, a);
    MergeNextEffect(t, b);
    AlmostInvHas(t, b);
    hide ReleasePrev, MergeNext, Inv, AlmostInv, SameBytes, Used;
    SameBytesTrans(s.m, t.m, MergeNext(t, b).m);
  }

  lemma AlmostInvHas(s: State, a: int)
    requires AlmostInv(s, a)
    ensures a in s.m
  {
  }

  lemma SameBytesTrans(m: Blocks, t: Blocks, u: Blocks)
    requires SameBytes(m, t) && SameBytes(t, u)
    ensures SameBytes(m, u)
  {
  }

  lemma {:induction false} ReleasePrevEffect(s: State, a: int)
    requires Inv(s) && Used(s.m, a)
    ensures var t := ReleasePrev(s, a).0.m;
            && SameBytes(s.m, t)
            && !Used(t, a) && SameUsed(s.m, t, a)
  {
    if exists p :: JoinsPrev(s.m, p, a) {
      var b := ReleasePrev(s, a).1;
      assert JoinsPrev(s.m, b, a);
      JoinBytes(s.m, b, a);
    } else {
      MarkBytes(s.m, a, true);
    }
  }

  lemma {:induction false} MergeNextEffect(s: State, a: int)
    requires AlmostInv(s, a)
    ensures var t := MergeNext(s, a).m;
            && SameBytes(s.m, t)
            && forall b :: (Used(s.m, b) <==> Used(t, b)) && (Used(t, b) ==> t[b] == s.m[b])
  {
    var c := End(s.m, a);
    if c in s.m && s.m[c].free {
      JoinBytes(s.m, a, c);
    }
  }

  lemma {:induction false} InsertEffect(m: Blocks, addr: int, size: int)
    requires addr !in m
    ensures var t := m[addr := Block(size, false)];
            && Total(t) == Total(m) + size
            && forall x :: Managed(t, x) <==> Managed(m, x) || addr <= x < addr + size
  {
    var t := m[addr := Block(size, false)];
    TotalInsert(m, addr, Block(size, false));
    assert m - {addr} == m;
    forall x ensures Managed(t, x) <==> Managed(m, x) || addr <= x < addr + size {
      if addr <= x < addr + size {
        assert Has(t, addr, x);
      }
      if Managed(m, x) {
        var c :| Has(m, c, x);
        assert Has(t, c, x);
      }
      if Managed(t, x) {
        var c :| Has(t, c, x);
        assert c == addr || Has(m, c, x);
      }
    }
  }

  /** Giving the allocator an arena adds exactly its bytes and touches no used block. */
  lemma {:induction false} AddEffect(s: State, addr: int, size: int)
    requires Inv(s) && FREE_HEADER <= size && 0 <= addr && Outside(s.m, addr, size)
    ensures var t := Add(s, addr, size, true);
            && Inv(t) && Total(t.m) == Total(s.m) + size
            && (forall x :: Managed(t.m, x) <==> Managed(s.m, x) || addr <= x < addr + size)
            && forall b :: (Used(s.m, b) <==> Used(t.m, b)) && (Used(t.m, b) ==> t.m[b] == s.m[b])
  {
    InsertKeepsInv(s, addr, size);
    InsertEffect(s.m, addr, size);
    var t := Insert(s, addr, size);
    assert SameUsed(s.m, t.m, addr);
    ReleaseKeepsInv(t, addr);
    ReleaseEffect(t, addr);
  }

  // ---------------------------------------------------------------- runs

  /** `granted` is what the installable lock function answers to the call. */
  datatype Op =
    | AddOp(addr: int, size: nat, granted: bool)
    | MallocOp(n: nat, granted: bool)
    | FreeOp(p: int, granted: bool)

  /** The allocator with what a client knows: requested size of each live allocation, by the
      address of its header (16 below the pointer handed out), and the bytes given. */
  datatype World = World(s: State, live: map<int, nat>, added: int)

  const Start := World(Empty, map[], 0)

  /** Arenas are disjoint and lie in a 32-bit address space, requests do not wrap a 32-bit size, only
      live pointers are freed. */
  ghost predicate ValidOp(w: World, op: Op) {
    match op
    case AddOp(addr, size, _) => 0 <= addr && addr + size <= ADDRESSES && Outside(w.s.m, addr, size)
    case MallocOp(n, _) => n + 2 * HEADER - 1 < ADDRESSES
    case FreeOp(p, _) => p == NULL || p - HEADER in w.live
  }

  ghost function Step(w: World, op: Op): World {
    match op
    case AddOp(addr, size, granted) =>
      World(Add(w.s, addr, size, granted), w.live, if size < FREE_HEADER || !granted then w.added else w.added + size)
    case MallocOp(n, granted) =>
      var (t, p) := Malloc(w.s, n, granted);
      World(t, if p == NULL then w.live else w.live[p - HEADER := n], w.added)
    case FreeOp(p, granted) =>
      World(Free(w.s, p, granted), if p == NULL || !granted then w.live else w.live - {p - HEADER}, w.added)
  }

  /** What each call does to the client's view: arenas count when taken, pointers live from malloc to free. */
  lemma StepsAre(w: World, addr: int, size: nat, n: nat, p: int, granted: bool)
    ensures var t := Step(w, AddOp(addr, size, granted));
            && t.s == Add(w.s, addr, size, granted) && t.live == w.live
            && t.added == w.added + if size >= FREE_HEADER && granted then size else 0
    ensures var t, m := Step(w, MallocOp(n, granted)), Malloc(w.s, n, granted);
            && t.s == m.0 && t.added == w.added
            && (m.1 == NULL ==> t.live == w.live) && (m.1 != NULL ==> t.live == w.live[m.1 - HEADER := n])
    ensures var t := Step(w, FreeOp(p, granted));
            && t.s == Free(w.s, p, granted) && t.added == w.added
            && (p == NULL || !granted ==> t.live == w.live) && (p != NULL && granted
                                                                ==> t.live == w.live - {p - HEADER})
  {
    hide Add, Malloc, Free;
  }

  ghost predicate ValidRun(w: World, ops: seq<Op>)
    decreases |ops|
  {
    ops == [] || (ValidOp(w, ops[0]) && ValidRun(Step(w, ops[0]), ops[1..]))
  }

  ghost function Run(w: World, ops: seq<Op>): World
    decreases |ops|
  {
    if ops == [] then w else Run(Step(w, ops[0]), ops[1..])
  }

  /** The chain invariant, conservation, and per live pointer one used block, large enough for the request and
      less than 32 bytes larger than its rounded size. */
  ghost predicate WorldInv(w: World) {
    && Inv(w.s)
    && Total(w.s.m) == w.added
    && LiveOk(w.live, w.s.m)
  }

  ghost predicate LiveOk(live: map<int, nat>, m: Blocks) {
    && (forall a :: a in live <==> Used(m, a))
    && (forall a :: a in live ==> 0 < live[a] <= m[a].size - HEADER)
    && (forall a :: a in live ==> Round(live[a]) <= m[a].size < Round(live[a]) + 2 * HEADER)
  }

  /** Outside block a, m and t have the same used blocks. */
  ghost predicate SameUsed(m: Blocks, t: Blocks, a: int) {
    forall b :: b != a ==> (Used(m, b) <==> Used(t, b)) && (Used(t, b) ==> t[b] == m[b])
  }

  lemma LiveLess(live: map<int, nat>, m: Blocks, t: Blocks, a: int)
    requires LiveOk(live, m) && !Used(t, a) && SameUsed(m, t, a)
    ensures LiveOk(live - {a}, t)
  {
  }

  lemma LiveMore(live: map<int, nat>, m: Blocks, t: Blocks, a: int, n: nat)
    requires LiveOk(live, m) && Used(t, a) && 0 < n <= t[a].size - HEADER && SameUsed(m, t, a)
    requires Round(n) <= t[a].size < Round(n) + 2 * HEADER
    ensures LiveOk(live[a := n], t)
  {
  }

  lemma LiveSame(live: map<int, nat>, m: Blocks, t: Blocks)
    requires LiveOk(live, m)
    requires forall b :: (Used(m, b) <==> Used(t, b)) && (Used(t, b) ==> t[b] == m[b])
    ensures LiveOk(live, t)
  {
  }

  lemma {:induction false} StepKeepsInv(w: World, op: Op)
    requires WorldInv(w) && ValidOp(w, op)
    ensures WorldInv(Step(w, op))
  {
    hide WorldInv, Malloc, Free, Add, Outside;
    match op
    case AddOp(addr, size, granted) =>
      NothingAdded(w.s, addr, size, granted);
      if FREE_HEADER <= size && granted {
        AddKeepsInv(w, addr, size);
      }
    case MallocOp(n, granted) =>
      MallocKeepsInv(w, n, granted);
    case FreeOp(p, granted) =>
      NothingFreed(w.s, p, granted);
      if p != NULL && granted {
        FreeKeepsInv(w, p);
      }
  }

  lemma NothingAdded(s: State, addr: int, size: nat, granted: bool)
    ensures size < FREE_HEADER || !granted ==> Add(s, addr, size, granted) == s
  {
  }

  lemma NothingFreed(s: State, p: int, granted: bool)
    ensures p == NULL || !granted ==> Free(s, p, granted) == s
  {
  }

  lemma {:induction false} AddKeepsInv(w: World, addr: int, size: nat)
    requires WorldInv(w) && FREE_HEADER <= size && 0 <= addr && Outside(w.s.m, addr, size)
    ensures WorldInv(World(Add(w.s, addr, size, true), w.live, w.added + size))
  {
    AddEffect(w.s, addr, size);
    LiveSame(w.live, w.s.m, Add(w.s, addr, size, true).m);
  }

  lemma {:induction false} MallocKeepsInv(w: World, n: nat, granted: bool)
    requires WorldInv(w)
    ensures WorldInv(Step(w, MallocOp(n, granted)))
  {
    hide Inv, LiveOk, Total;
    var s, r := w.s, Round(n);
    var j := FirstFit(s, 0, r);
    if n > 0 && granted && j < |s.order| {
      OrderFree(s, j);
      AllocKeepsInv(s, j, r);
      AllocEffect(s, j, r);
      var t := AllocAt(s, j, r);
      hide AllocAt, SameUsed, FirstFit;
      LiveMore(w.live, s.m, t.m, s.order[j], n);
      assert Step(w, MallocOp(n, granted)) == World(t, w.live[s.order[j] := n], w.added);
    }
  }

  lemma OrderFree(s: State, j: int)
    requires Inv(s) && 0 <= j < |s.order|
    ensures s.order[j] in s.m && s.order[j] >= 0
  {
    var a := s.order[j];
    assert a in s.order;
    assert a in s.m;
  }

  lemma LiveUsed(w: World, a: int)
    requires WorldInv(w) && a in w.live
    ensures Used(w.s.m, a) && a >= 0
  {
  }

  lemma {:induction false} FreeKeepsInv(w: World, p: int)
    requires WorldInv(w) && p - HEADER in w.live
    ensures WorldInv(World(Free(w.s, p, true), w.live - {p - HEADER}, w.added))
    ensures SameBytes(w.s.m, Free(w.s, p, true).m)
  {
    hide Inv, Release, Total, LiveOk, SameUsed;
    LiveUsed(w, p - HEADER);
    ReleaseKeepsInv(w.s, p - HEADER);
    ReleaseEffect(w.s, p - HEADER);
    LiveLess(w.live, w.s.m, Release(w.s, p - HEADER).m, p - HEADER);
  }

  lemma StartInv()
    ensures WorldInv(Start)
  {
  }

  /** A run is its first call and the others. */
  lemma RunFirst(w: World, ops: seq<Op>)
    requires ops != []
    ensures Run(w, ops) == Run(Step(w, ops[0]), ops[1..])
    ensures ValidRun(w, ops) <==> ValidOp(w, ops[0]) && ValidRun(Step(w, ops[0]), ops[1..])
  {
  }

  lemma RunNone(w: World)
    ensures Run(w, []) == w && ValidRun(w, [])
  {
  }

  /** Safety over whole runs: every valid run from the empty heap keeps the invariant. */
  lemma {:induction false} RunKeepsInv(w: World, ops: seq<Op>)
    requires WorldInv(w) && ValidRun(w, ops)
    ensures WorldInv(Run(w, ops))
    decreases |ops|
  {
    hide WorldInv, ValidOp, Step;
    if ops != [] {
      StepKeepsInv(w, ops[0]);
      RunKeepsInv(Step(w, ops[0]), ops[1..]);
    }
  }
}
