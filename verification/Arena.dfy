/** The heap allocator as a state machine over values: what each call of malloc.c does to the
    blocks of memory under management, without the pointers.
 */
module Arena {
  import opened Common
  import opened Ring

  const HEADER := 16        // sizeof(struct arena_header) on a 32-bit target
  const FREE_HEADER := 24   // sizeof(struct free_arena_header)
  const NULL := 0
  const ADDRESSES := 0x1_0000_0000   // 2^32

  /** A block's size, header included, and whether it is free. */
  datatype Block = Block(size: int, free: bool)

  /** Blocks by the address of their header. */
  type Blocks = map<int, Block>

  /** The blocks, and the addresses of the free ones in free-chain order. */
  datatype State = State(m: Blocks, order: seq<int>)

  const Empty := State(map[], [])

  function End(m: Blocks, a: int): int
    requires a in m
  {
    a + m[a].size
  }

  // ---------------------------------------------------------------- the invariant

  /** Blocks have room for a free header and do not overlap. */
  ghost predicate Layout(m: Blocks) {
    && (forall a :: a in m ==> 0 <= a && FREE_HEADER <= m[a].size)
    && (forall a, b :: a in m && b in m && a < b ==> End(m, a) <= b)
  }

  /** No two free blocks touch. */
  ghost predicate Coalesced(m: Blocks) {
    forall a, b :: a in m && b in m && m[a].free && m[b].free ==> End(m, a) != b
  }

  /** The free chain lists exactly the free blocks, each once. */
  ghost predicate OrderOk(s: State) {
    && NoDup(s.order)
    && forall a :: a in s.order <==> a in s.m && s.m[a].free
  }

  ghost predicate Inv(s: State) {
    Layout(s.m) && Coalesced(s.m) && OrderOk(s)
  }

  // ---------------------------------------------------------------- the operations

  /** Request plus header, rounded up to a multiple of 16. */
  function Round(n: nat): int {
    (n + 2 * HEADER - 1) / HEADER * HEADER
  }

  /** The same in 32 bits, as the source computes it, exceeds the request and its header exactly when
      nothing wraps. */
  lemma {:induction false} RoundWraps(n: nat)
    requires 0 < n < ADDRESSES
    ensures var r := (n + 2 * HEADER - 1) % ADDRESSES / HEADER * HEADER;
            && (n + HEADER <= r <==> n + 2 * HEADER - 1 < ADDRESSES)
            && (n + 2 * HEADER - 1 < ADDRESSES ==> r == Round(n))
  {
    var x := n + 2 * HEADER - 1;
    if x >= ADDRESSES {
      assert x % ADDRESSES == x - ADDRESSES;
    }
  }

  /** The test for splitting a block of so many bytes, in 32 bits, is the intended one exactly when
      the sum does not wrap. */
  lemma {:induction false} SplitTestWraps(r: int, size: int)
    requires 0 <= r <= size < ADDRESSES
    ensures (size >= (r + 2 * HEADER) % ADDRESSES <==> size >= r + 2 * HEADER) <==> r + 2 * HEADER < ADDRESSES
  {
    var x := r + 2 * HEADER;
    if x >= ADDRESSES {
      assert x % ADDRESSES == x - ADDRESSES;
    }
  }

  /** First position on the free chain, from j on, whose block holds r bytes, or |order|. */
  function FirstFit(s: State, j: nat, r: int): (k: nat)
    requires j <= |s.order|
    ensures j <= k <= |s.order|
    ensures k < |s.order| && s.order[k] in s.m ==> s.m[s.order[k]].size >= r
    ensures forall i :: j <= i < k && s.order[i] in s.m ==> s.m[s.order[i]].size < r
    decreases |s.order| - j
  {
    if j == |s.order| then j
    else if s.order[j] in s.m && s.m[s.order[j]].size >= r then j
    else FirstFit(s, j + 1, r)
  }

  function RemoveAt(xs: seq<int>, k: int): seq<int>
    requires 0 <= k < |xs|
  {
    xs[..k] + xs[k + 1..]
  }

  /** Block a cut in two after r bytes, the first part in use and the second free. */
  function Split(m: Blocks, a: int, r: int): Blocks
    requires a in m
  {
    m[a := Block(r, false)][a + r := Block(m[a].size - r, true)]
  }

  /** Blocks a and b as one free block at a. */
  function Join(m: Blocks, a: int, b: int): Blocks
    requires a in m && b in m
  {
    (m - {b})[a := Block(m[a].size + m[b].size, true)]
  }

  /** Carve r bytes out of the block at position j of the free chain. */
  function AllocAt(s: State, j: int, r: int): State
    requires 0 <= j < |s.order| && s.order[j] in s.m
  {
    var a := s.order[j];
    var b := s.m[a];
    if b.size >= r + 2 * HEADER then
      State(Split(s.m, a, r), s.order[j := a + r])
    else
      State(s.m[a := b.(free := false)], RemoveAt(s.order, j))
  }

  function Malloc(s: State, n: nat, granted: bool): (State, int) {
    var j := FirstFit(s, 0, Round(n));
    if n == 0 || !granted || j == |s.order| || s.order[j] !in s.m then (s, NULL)
    else (AllocAt(s, j, Round(n)), s.order[j] + HEADER)
  }

  /** p is a free block ending where block a starts. */
  predicate JoinsPrev(m: Blocks, p: int, a: int) {
    p in m && m[p].free && End(m, p) == a
  }

  /** Release block a into a free predecessor, or to the front of the free chain. Returns the
      address of the free block that now holds it. */
  ghost function ReleasePrev(s: State, a: int): (State, int)
    requires a in s.m
  {
    if exists p :: JoinsPrev(s.m, p, a) then
      var p :| JoinsPrev(s.m, p, a);
      (State(Join(s.m, p, a), s.order), p)
    else
      (State(s.m[a := s.m[a].(free := true)], [a] + s.order), a)
  }

  function Index(xs: seq<int>, a: int): (k: nat)
    ensures k <= |xs|
    ensures k < |xs| ==> xs[k] == a
    ensures k == |xs| <==> a !in xs
  {
    if xs == [] then 0 else if xs[0] == a then 0 else 1 + Index(xs[1..], a)
  }

  function Remove(xs: seq<int>, a: int): seq<int> {
    var k := Index(xs, a);
    if k < |xs| then RemoveAt(xs, k) else xs
  }

  /** Merge a free successor into block a, dropping it from the free chain. */
  function MergeNext(s: State, a: int): State
    requires a in s.m
  {
    var b := End(s.m, a);
    if b in s.m && s.m[b].free then
      State(Join(s.m, a, b), Remove(s.order, b))
    else s
  }

  ghost function Release(s: State, a: int): State
    requires a in s.m
  {
    var (t, b) := ReleasePrev(s, a);
    if b in t.m then MergeNext(t, b) else t
  }

  ghost function Free(s: State, p: int, granted: bool): State {
    if p == NULL || !granted || p - HEADER !in s.m then s else Release(s, p - HEADER)
  }

  /** A block enters as if in use, to be released at once. */
  function Insert(s: State, addr: int, size: int): State {
    s.(m := s.m[addr := Block(size, false)])
  }

  ghost function Add(s: State, addr: int, size: int, granted: bool): State {
    if size < FREE_HEADER || !granted then s else Release(Insert(s, addr, size), addr)
  }

  // ---------------------------------------------------------------- memory as bytes

  predicate Has(m: Blocks, a: int, x: int) {
    a in m && a <= x < End(m, a)
  }

  ghost predicate Managed(m: Blocks, x: int) {
    exists a :: Has(m, a, x)
  }

  ghost predicate FreeByte(m: Blocks, x: int) {
    exists a :: Has(m, a, x) && m[a].free
  }

  /** The region lies outside the memory already managed. */
  ghost predicate Outside(m: Blocks, addr: int, size: int) {
    forall x :: addr <= x < addr + size ==> !Managed(m, x)
  }

  // ---------------------------------------------------------------- every operation keeps the invariant

  lemma {:induction false} RemoveMembers(xs: seq<int>, k: int)
    requires NoDup(xs) && 0 <= k < |xs|
    ensures NoDup(RemoveAt(xs, k))
    ensures forall a :: a in RemoveAt(xs, k) <==> a in xs && a != xs[k]
  {
    var ys := RemoveAt(xs, k);
    forall a | a in xs && a != xs[k] ensures a in ys {
      var i :| 0 <= i < |xs| && xs[i] == a;
      assert ys[if i < k then i else i - 1] == a;
    }
  }

  lemma {:induction false} ReplaceMembers(xs: seq<int>, k: int, x: int)
    requires NoDup(xs) && 0 <= k < |xs| && x !in xs
    ensures NoDup(xs[k := x])
    ensures forall a :: a in xs[k := x] <==> a == x || (a in xs && a != xs[k])
  {
    var ys := xs[k := x];
    assert ys[k] == x;
    forall a | a in xs && a != xs[k] ensures a in ys {
      var i :| 0 <= i < |xs| && xs[i] == a;
      assert ys[i] == a;
    }
  }

  lemma {:induction false} SplitKeeps(m: Blocks, a: int, r: int)
    requires Layout(m) && Coalesced(m) && a in m && m[a].free
    requires 2 * HEADER <= r <= m[a].size - 2 * HEADER
    ensures a + r !in m && Layout(Split(m, a, r)) && Coalesced(Split(m, a, r))
  {
    var t := Split(m, a, r);
    SplitOthers(m, a, r);
    hide Split;
    assert Layout(t);
    SplitCoalesced(m, t, a, r);
  }

  /** Apart from the two parts, blocks are as before and lie on either side. */
  lemma {:induction false} SplitOthers(m: Blocks, a: int, r: int)
    requires Layout(m) && a in m && 0 < r < m[a].size
    ensures var t := Split(m, a, r);
            && a in t && a + r in t && a + r !in m && t[a] == Block(r, false) && t[a + r] == Block(m[a].size - r, true)
            && forall b :: b in t && b != a && b != a + r ==>
                 b in m && t[b] == m[b] && (End(m, b) <= a || End(m, a) <= b)
  {
  }

  lemma {:induction false} SplitCoalesced(m: Blocks, t: Blocks, a: int, r: int)
    requires Layout(m) && Coalesced(m) && a in m && m[a].free && 0 < r < m[a].size && a in t && a + r in t
    requires t[a] == Block(r, false) && t[a + r] == Block(m[a].size - r, true)
    requires forall b :: b in t && b != a && b != a + r ==> b in m && t[b] == m[b] && (End(m, b) <= a || End(m, a) <= b)
    ensures Coalesced(t)
  {
    assert End(t, a + r) == End(m, a);
  }

  lemma {:induction false} JoinLayout(m: Blocks, a: int, b: int)
    requires Layout(m) && a in m && b in m && End(m, a) == b
    ensures Layout(Join(m, a, b))
  {
    var t := Join(m, a, b);
    assert forall c :: c in t && c != a ==> c in m && t[c] == m[c] && (End(m, c) <= a || End(m, b) <= c);
  }

  lemma {:induction false} SplitOrder(s: State, j: int, r: int)
    requires OrderOk(s) && 0 <= j < |s.order| && s.order[j] in s.m && r > 0 && s.order[j] + r !in s.m
    ensures OrderOk(State(Split(s.m, s.order[j], r), s.order[j := s.order[j] + r]))
  {
    ReplaceMembers(s.order, j, s.order[j] + r);
  }

  lemma {:induction false} WholeOrder(s: State, j: int)
    requires OrderOk(s) && 0 <= j < |s.order| && s.order[j] in s.m
    ensures OrderOk(State(s.m[s.order[j] := s.m[s.order[j]].(free := false)], RemoveAt(s.order, j)))
  {
    RemoveMembers(s.order, j);
  }

  lemma {:induction false} AllocKeepsInv(s: State, j: int, r: int)
    requires Inv(s) && 0 <= j < |s.order| && s.order[j] in s.m
    requires 2 * HEADER <= r <= s.m[s.order[j]].size
    ensures Inv(AllocAt(s, j, r))
  {
    var a := s.order[j];
    assert a in s.order;
    if s.m[a].size >= r + 2 * HEADER {
      SplitKeeps(s.m, a, r);
      SplitOrder(s, j, r);
    } else {
      WholeKeeps(s.m, a);
      WholeOrder(s, j);
    }
  }

  lemma WholeKeeps(m: Blocks, a: int)
    requires Layout(m) && Coalesced(m) && a in m
    ensures Layout(m[a := m[a].(free := false)]) && Coalesced(m[a := m[a].(free := false)])
  {
  }

  /** Between the two merging steps of a release, only block a and its successor may touch. */
  ghost predicate CoalescedBut(m: Blocks, a: int) {
    forall b, c :: b in m && c in m && m[b].free && m[c].free && b != a ==> End(m, b) != c
  }

  ghost predicate AlmostInv(s: State, a: int) {
    Layout(s.m) && OrderOk(s) && a in s.m && s.m[a].free && CoalescedBut(s.m, a)
  }

  lemma {:induction false} JoinPrevCoalesced(m: Blocks, p: int, a: int)
    requires Layout(m) && Coalesced(m) && a in m && !m[a].free && JoinsPrev(m, p, a)
    ensures CoalescedBut(Join(m, p, a), p)
  {
    var t := Join(m, p, a);
    assert forall c :: c in t && c != p ==> c in m && t[c] == m[c];
  }

  lemma {:induction false} FrontOrder(s: State, a: int)
    requires OrderOk(s) && a in s.m && !s.m[a].free
    ensures OrderOk(State(s.m[a := s.m[a].(free := true)], [a] + s.order))
  {
    assert forall x :: x in [a] + s.order <==> x == a || x in s.order;
  }

  lemma {:induction false} ReleasePrevKeeps(s: State, a: int)
    requires Inv(s) && a in s.m && !s.m[a].free
    ensures AlmostInv(ReleasePrev(s, a).0, ReleasePrev(s, a).1)
  {
    var (t, b) := ReleasePrev(s, a);
    if exists p :: JoinsPrev(s.m, p, a) {
      assert JoinsPrev(s.m, b, a);
      JoinLayout(s.m, b, a);
      JoinPrevCoalesced(s.m, b, a);
      JoinPrevOrder(s, b, a);
      hide Layout, Coalesced, CoalescedBut, OrderOk;
    } else {
      assert forall p :: p in s.m && s.m[p].free ==> !JoinsPrev(s.m, p, a);
      FrontOrder(s, a);
      MarkFree(s.m, a);
      hide Layout, Coalesced, CoalescedBut, OrderOk;
    }
  }

  lemma JoinPrevOrder(s: State, p: int, a: int)
    requires OrderOk(s) && a in s.m && !s.m[a].free && JoinsPrev(s.m, p, a)
    ensures OrderOk(State(Join(s.m, p, a), s.order))
  {
  }

  /** Freeing a block that no free block precedes. */
  lemma MarkFree(m: Blocks, a: int)
    requires Layout(m) && Coalesced(m) && a in m && forall p :: p in m && m[p].free ==> !JoinsPrev(m, p, a)
    ensures Layout(m[a := m[a].(free := true)]) && CoalescedBut(m[a := m[a].(free := true)], a)
  {
  }

  lemma {:induction false} JoinNextCoalesced(m: Blocks, a: int, b: int)
    requires Layout(m) && CoalescedBut(m, a) && a in m && b in m && m[a].free && m[b].free && End(m, a) == b
    ensures Coalesced(Join(m, a, b))
  {
    var t := Join(m, a, b);
    assert forall c :: c in t && c != a ==> c in m && t[c] == m[c];
    assert End(t, a) == End(m, b);
  }

  lemma {:induction false} MergeNextKeeps(s: State, a: int)
    requires AlmostInv(s, a)
    ensures Inv(MergeNext(s, a))
  {
    var b := End(s.m, a);
    if b in s.m && s.m[b].free {
      assert b in s.order;
      RemoveMembers(s.order, Index(s.order, b));
      JoinLayout(s.m, a, b);
      JoinNextCoalesced(s.m, a, b);
    } else {
      assert Coalesced(s.m);
    }
  }

  lemma {:induction false} ReleaseKeepsInv(s: State, a: int)
    requires Inv(s) && a in s.m && !s.m[a].free
    ensures Inv(Release(s, a))
  {
    ReleasePrevKeeps(s, a);
    MergeNextKeeps(ReleasePrev(s, a).0, ReleasePrev(s, a).1);
  }

  lemma {:induction false} InsertKeepsInv(s: State, addr: int, size: int)
    requires Inv(s) && 0 <= addr && FREE_HEADER <= size && Outside(s.m, addr, size)
    ensures addr !in s.m && Inv(Insert(s, addr, size))
  {
    assert !Has(s.m, addr, addr) by {
      assert !Managed(s.m, addr);
    }
    forall a | a in s.m ensures if a < addr then End(s.m, a) <= addr else addr + size <= a {
      if a < addr < End(s.m, a) {
        assert Has(s.m, a, addr);
        assert Managed(s.m, addr);
      }
      if addr <= a < addr + size {
        assert Has(s.m, a, a);
        assert Managed(s.m, a);
      }
    }
  }
}
