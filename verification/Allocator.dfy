/** malloc.c itself: pointer-threaded headers in memory, updated in place, refining Arena. */
module Allocator {
  import opened Ring
  import opened Arena
  import opened ArenaRuns
  import opened ArenaTheorems

  datatype Kind = UsedKind | FreeKind | HeadKind

  /** Address of the static head node, outside every arena. */
  const HEAD := -1

  function KindOf(b: Block): Kind {
    if b.free then FreeKind else UsedKind
  }

  // ---------------------------------------------------------------- the main chain by address

  /** The main chain lists the blocks by increasing address. */
  ghost predicate ChainOk(chain: seq<int>, m: Blocks) {
    && (forall i, j :: 0 <= i < j < |chain| ==> chain[i] < chain[j])
    && forall a :: a in chain <==> a in m
  }

  /** The type and size fields of every header in the chain, except the type of header x. */
  ghost predicate Headers(m: Blocks, kind: map<int, Kind>, size: map<int, int>, x: int) {
    && HEAD in kind && kind[HEAD] == HeadKind
    && forall a :: a in m ==> a in kind && (a != x ==> kind[a] == KindOf(m[a])) && a in size && size[a] == m[a].size
  }

  lemma {:induction false} ChainInsert(chain: seq<int>, m: Blocks, k: int, x: int, b: Block)
    requires ChainOk(chain, m) && 0 <= k <= |chain|
    requires (k > 0 ==> chain[k - 1] < x) && (k < |chain| ==> x < chain[k])
    ensures x !in chain && ChainOk(chain[..k] + [x] + chain[k..], m[x := b])
  {
    var ys := chain[..k] + [x] + chain[k..];
    forall i | 0 <= i < |chain| ensures if i < k then chain[i] < x else x < chain[i] {
      assert i < k - 1 ==> chain[i] < chain[k - 1];
      assert k < i ==> chain[k] < chain[i];
    }
    forall i, j | 0 <= i < j < |ys| ensures ys[i] < ys[j] {
      var i', j' := if i <= k then i else i - 1, if j <= k then j else j - 1;
      assert i == k || ys[i] == chain[i'];
      assert j == k || ys[j] == chain[j'];
    }
    InsertMembers(chain, k, x);
  }

  lemma {:induction false} InsertMembers(xs: seq<int>, k: int, x: int)
    requires 0 <= k <= |xs|
    ensures forall a :: a in xs[..k] + [x] + xs[k..] <==> a in xs || a == x
  {
    assert xs == xs[..k] + xs[k..];
  }

  lemma {:induction false} ChainRemove(chain: seq<int>, m: Blocks, k: int)
    requires ChainOk(chain, m) && 0 <= k < |chain|
    ensures ChainOk(RemoveAt(chain, k), m - {chain[k]})
  {
    RemoveMembers(chain, k);
    var ys := RemoveAt(chain, k);
    assert forall i :: 0 <= i < |ys| ==> ys[i] == if i < k then chain[i] else chain[i + 1];
  }

  lemma {:induction false} ChainUpdate(chain: seq<int>, m: Blocks, a: int, b: Block)
    requires ChainOk(chain, m) && a in m
    ensures ChainOk(chain, m[a := b])
  {
    forall c ensures c in chain <==> c in m[a := b] {
    }
  }

  /** A block that ends where block k starts is its neighbour on the chain, and the same for a
      block that starts where block k ends. */
  lemma {:induction false} Neighbours(chain: seq<int>, m: Blocks, k: int)
    requires Layout(m) && ChainOk(chain, m) && 0 <= k < |chain| && chain[k] in m
    ensures forall p :: p in m && End(m, p) == chain[k] ==> 0 < k && p == chain[k - 1]
    ensures End(m, chain[k]) in m ==> k + 1 < |chain| && chain[k + 1] == End(m, chain[k])
  {
    var a := chain[k];
    forall p | p in m && End(m, p) == a ensures 0 < k && p == chain[k - 1] {
      assert p in chain;
      var i :| 0 <= i < |chain| && chain[i] == p;
      assert i < k;
      assert chain[k - 1] in chain;
    }
    if End(m, a) in m {
      var b := End(m, a);
      assert b in chain;
      var i :| 0 <= i < |chain| && chain[i] == b;
      assert i > k;
      assert chain[k + 1] in chain;
    }
  }

  /** Largest size along (a prefix of) the free chain. */
  function MaxSize(m: Blocks, xs: seq<int>): int
    requires forall i :: 0 <= i < |xs| ==> xs[i] in m
  {
    if xs == [] then 0
    else
      var v, w := MaxSize(m, xs[..|xs| - 1]), m[xs[|xs| - 1]].size;
      if w >= v then w else v
  }

  lemma {:induction false} MaxBounds(m: Blocks, xs: seq<int>)
    requires forall i :: 0 <= i < |xs| ==> xs[i] in m && 0 < m[xs[i]].size
    ensures forall i :: 0 <= i < |xs| ==> m[xs[i]].size <= MaxSize(m, xs)
    ensures xs != [] ==> exists i :: 0 <= i < |xs| && m[xs[i]].size == MaxSize(m, xs)
    decreases |xs|
  {
    if xs != [] {
      var ys := xs[..|xs| - 1];
      MaxBounds(m, ys);
      assert xs[|xs| - 1] in m;
      if ys != [] {
        var i :| 0 <= i < |ys| && m[ys[i]].size == MaxSize(m, ys);
        assert xs[i] == ys[i];
      }
    }
  }

  lemma {:induction false} MaxIsLargest(s: State)
    requires Inv(s)
    ensures forall i :: 0 <= i < |s.order| ==> s.order[i] in s.m
    ensures IsLargest(s, MaxSize(s.m, s.order))
  {
    forall i | 0 <= i < |s.order| ensures s.order[i] in s.m && s.m[s.order[i]].free && 0 < s.m[s.order[i]].size {
      var a := s.order[i];
      assert a in s.order;
      assert a in s.m;
    }
    MaxBounds(s.m, s.order);
    var v := MaxSize(s.m, s.order);
    forall a | a in s.m && s.m[a].free ensures s.m[a].size <= v {
      assert a in s.order;
      var i :| 0 <= i < |s.order| && s.order[i] == a;
    }
    if s.order != [] {
      var i :| 0 <= i < |s.order| && s.m[s.order[i]].size == v;
      assert s.order[i] in s.m && s.m[s.order[i]].free;
    }
  }

  /** Memory: one map per field of struct free_arena_header, indexed by address. */
  datatype Mem = Mem(kind: map<int, Kind>, size: map<int, int>,
                     next: map<int, int>, prev: map<int, int>,
                     nextFree: map<int, int>, prevFree: map<int, int>)

  /** Memory represents s; the type field of header x may be anything. */
  ghost predicate Rep(mm: Mem, chain: seq<int>, s: State, x: int) {
    && Linked(HEAD, chain, mm.next, mm.prev)
    && Linked(HEAD, s.order, mm.nextFree, mm.prevFree)
    && ChainOk(chain, s.m)
    && Headers(s.m, mm.kind, mm.size, x)
  }

  /** What user code may do: bytes 16..23 of a used block overlay its free-chain pointers, and
      writing there disturbs nothing. */
  lemma {:induction false} UserWritesHarmless(mm: Mem, chain: seq<int>, s: State, a: int, v: int, w: int)
    requires Rep(mm, chain, s, HEAD) && Inv(s) && a in s.m && !s.m[a].free
    ensures Rep(mm.(nextFree := mm.nextFree[a := v], prevFree := mm.prevFree[a := w]), chain, s, HEAD)
  {
    var n, p := mm.nextFree[a := v], mm.prevFree[a := w];
    forall i | -1 <= i < |s.order| ensures Link(HEAD, s.order, n, p, i) {
      assert Link(HEAD, s.order, mm.nextFree, mm.prevFree, i);
      assert 0 <= i ==> s.order[i] in s.order;
      assert i + 1 < |s.order| ==> s.order[i + 1] in s.order;
    }
  }

  lemma {:induction false} SplitChain(chain: seq<int>, m: Blocks, k: int, r: int)
    requires Layout(m) && ChainOk(chain, m) && 0 <= k < |chain| && chain[k] in m && 0 < r < m[chain[k]].size
    ensures chain[k] + r !in m && chain[k] + r !in chain
    ensures ChainOk(chain[..k + 1] + [chain[k] + r] + chain[k + 1..], Split(m, chain[k], r))
  {
    if k + 1 < |chain| {
      assert chain[k + 1] in chain;
    }
    ChainUpdate(chain, m, chain[k], Block(r, false));
    ChainInsert(chain, m[chain[k] := Block(r, false)], k + 1, chain[k] + r, Block(m[chain[k]].size - r, true));
  }

  lemma {:induction false} ChainIndex(mm: Mem, chain: seq<int>, s: State, a: int, x: int) returns (k: int)
    requires Rep(mm, chain, s, x) && a in s.m
    ensures 0 <= k < |chain| && chain[k] == a
  {
    assert a in chain;
    k :| 0 <= k < |chain| && chain[k] == a;
  }

  /** One step along the free chain, from the head (j == -1) or from position j. */
  lemma {:induction false} FreeNode(mm: Mem, chain: seq<int>, s: State, j: int)
    requires Rep(mm, chain, s, HEAD) && Inv(s) && -1 <= j < |s.order|
    ensures 0 <= j ==> s.order[j] in s.m && s.order[j] in mm.size && mm.size[s.order[j]] == s.m[s.order[j]].size
    ensures var fp, n := Nth(HEAD, s.order, j), Nth(HEAD, s.order, j + 1);
            && fp in mm.nextFree && mm.nextFree[fp] == n
            && n in mm.kind && (mm.kind[n] == HeadKind <==> j + 1 == |s.order|)
  {
    assert Link(HEAD, s.order, mm.nextFree, mm.prevFree, j);
    assert 0 <= j ==> s.order[j] in s.order;
    assert j + 1 < |s.order| ==> s.order[j + 1] in s.order;
  }

  /** One step back along the main chain, from position k, |chain| being the head. */
  lemma {:induction false} PrevNode(mm: Mem, chain: seq<int>, s: State, k: int)
    requires Rep(mm, chain, s, HEAD) && Inv(s) && 0 <= k <= |chain|
    ensures var pah, p := Nth(HEAD, chain, k), Nth(HEAD, chain, k - 1);
            && pah in mm.prev && mm.prev[pah] == p
            && p in mm.kind && (mm.kind[p] == HeadKind <==> k == 0)
  {
    assert Link(HEAD, chain, mm.next, mm.prev, k - 1);
    assert 0 < k ==> chain[k - 1] in chain;
  }

  /** Type and size may be stored at an address that holds no block. */
  lemma {:induction false} NewHeader(mm: Mem, chain: seq<int>, s: State, addr: int, len: int)
    requires Rep(mm, chain, s, HEAD) && addr !in s.m && addr >= 0
    ensures Rep(mm.(kind := mm.kind[addr := FreeKind], size := mm.size[addr := len]), chain, s, HEAD)
  {
  }

  lemma InsertHas(s: State, addr: int, len: int)
    ensures addr in Insert(s, addr, len).m && !Insert(s, addr, len).m[addr].free
  {
  }

  /** The four stores that put a new header on the main chain before position k. */
  lemma {:induction false} InsertRep(mm: Mem, chain: seq<int>, s: State, addr: int, len: int, k: int)
    requires Rep(mm, chain, s, HEAD) && Layout(s.m) && addr !in s.m && addr >= 0
    requires addr in mm.kind && addr in mm.size && mm.size[addr] == len && 0 <= k <= |chain|
    requires (k > 0 ==> chain[k - 1] < addr) && (k < |chain| ==> addr <= chain[k])
    ensures var p := Nth(HEAD, chain, k - 1);
            && p in mm.next
            && var n := mm.next[p];
               Rep(mm.(next := mm.next[addr := n][p := addr], prev := mm.prev[addr := p][n := addr]),
                   chain[..k] + [addr] + chain[k..], Insert(s, addr, len), addr)
  {
    if k < |chain| {
      assert chain[k] in chain;
    }
    ChainInsert(chain, s.m, k, addr, Block(len, false));
    InsertLinked(HEAD, chain, mm.next, mm.prev, k, addr);
    assert Link(HEAD, chain, mm.next, mm.prev, k - 1);
  }

  /** Memory after remove_from_main_chain and after remove_from_free_chain. */
  function MainUnlinked(mm: Mem, a: int): Mem
    requires a in mm.prev && a in mm.next
  {
    mm.(next := mm.next[mm.prev[a] := mm.next[a]], prev := mm.prev[mm.next[a] := mm.prev[a]])
  }

  function FreeUnlinked(mm: Mem, a: int): Mem
    requires a in mm.prevFree && a in mm.nextFree
  {
    mm.(nextFree := mm.nextFree[mm.prevFree[a] := mm.nextFree[a]],
        prevFree := mm.prevFree[mm.nextFree[a] := mm.prevFree[a]])
  }

  lemma {:induction false} FreeUnlink(mm: Mem, s: State, j: int)
    requires Linked(HEAD, s.order, mm.nextFree, mm.prevFree) && 0 <= j < |s.order|
    ensures s.order[j] in mm.prevFree && s.order[j] in mm.nextFree
    ensures var u := FreeUnlinked(mm, s.order[j]); Linked(HEAD, RemoveAt(s.order, j), u.nextFree, u.prevFree)
  {
    RemoveLinked(HEAD, s.order, mm.nextFree, mm.prevFree, j);
    assert Link(HEAD, s.order, mm.nextFree, mm.prevFree, j - 1) && Link(HEAD, s.order, mm.nextFree, mm.prevFree, j);
  }

  /** The stores that hand out block j of the free chain whole. */
  lemma {:induction false} WholeRep(mm: Mem, chain: seq<int>, s: State, j: int)
    requires Rep(mm, chain, s, HEAD) && Inv(s) && 0 <= j < |s.order| && s.order[j] in s.m
    ensures var a := s.order[j];
            && a in mm.prevFree && a in mm.nextFree
            && Rep(FreeUnlinked(mm.(kind := mm.kind[a := UsedKind]), a), chain,
                   State(s.m[a := s.m[a].(free := false)], RemoveAt(s.order, j)), HEAD)
  {
    FreeUnlink(mm, s, j);
    ChainUpdate(chain, s.m, s.order[j], s.m[s.order[j]].(free := false));
  }

  /** The stores that merge block k + 1 of the chain, free, into block k. */
  lemma {:induction false} MergeRep(mm: Mem, chain: seq<int>, s: State, k: int)
    requires Rep(mm, chain, s, HEAD) && 0 <= k && k + 1 < |chain| && chain[k + 1] in s.order
    requires chain[k] in s.m && chain[k + 1] in s.m && s.m[chain[k]].free && chain[k] >= 0
    ensures var ah, nah := chain[k], chain[k + 1];
            && ah in mm.size && nah in mm.size && nah in mm.prevFree && nah in mm.nextFree && nah in mm.prev
               && nah in mm.next
            && Rep(MainUnlinked(FreeUnlinked(mm.(size := mm.size[ah := mm.size[ah] + mm.size[nah]]), nah), nah),
                   RemoveAt(chain, k + 1), State(Join(s.m, ah, nah), Remove(s.order, nah)), HEAD)
  {
    var ah, nah := chain[k], chain[k + 1];
    JoinHeaders(s.m, mm.kind, mm.size, ah, nah, HEAD);
    JoinChain(chain, s.m, k + 1);
    FreeUnlink(mm, s, Index(s.order, nah));
    RemoveLinked(HEAD, chain, mm.next, mm.prev, k + 1);
    assert Link(HEAD, chain, mm.next, mm.prev, k) && Link(HEAD, chain, mm.next, mm.prev, k + 1);
  }

  /** Memory after the stores of the splitting branch of __malloc_from_block. */
  function SplitMem(mm: Mem, fp: int, r: int): Mem
    requires fp in mm.size && fp in mm.next && fp in mm.nextFree && fp in mm.prevFree
  {
    var nfp, na, fpn, fpp := fp + r, mm.next[fp], mm.nextFree[fp], mm.prevFree[fp];
    Mem(mm.kind[nfp := FreeKind][fp := UsedKind], mm.size[nfp := mm.size[fp] - r][fp := r],
        mm.next[nfp := na][fp := nfp], mm.prev[nfp := fp][na := nfp],
        mm.nextFree[nfp := fpn][fpp := nfp], mm.prevFree[nfp := fpp][fpn := nfp])
  }

  lemma {:induction false} SplitRep(mm: Mem, chain: seq<int>, s: State, j: int, k: int, r: int)
    requires Rep(mm, chain, s, HEAD) && Inv(s) && 0 <= j < |s.order| && 0 <= k < |chain| && chain[k] == s.order[j]
    requires s.order[j] in s.m && 2 * HEADER <= r && r + 2 * HEADER <= s.m[s.order[j]].size
    ensures var fp := s.order[j];
            && fp in mm.next && fp in mm.nextFree && fp in mm.prevFree && fp in mm.size
            && Rep(SplitMem(mm, fp, r), chain[..k + 1] + [fp + r] + chain[k + 1..], AllocAt(s, j, r), HEAD)
  {
    var fp := s.order[j];
    var nfp := fp + r;
    SplitChain(chain, s.m, k, r);
    assert nfp !in s.order;
    InsertLinked(HEAD, chain, mm.next, mm.prev, k + 1, nfp);
    ReplaceLinked(HEAD, s.order, mm.nextFree, mm.prevFree, j, nfp);
    assert Link(HEAD, chain, mm.next, mm.prev, k);
    assert Link(HEAD, s.order, mm.nextFree, mm.prevFree, j - 1) && Link(HEAD, s.order, mm.nextFree, mm.prevFree, j);
    SplitHeaders(s.m, mm.kind, mm.size, fp, r);
  }

  lemma {:induction false} SplitHeaders(m: Blocks, kind: map<int, Kind>, size: map<int, int>, fp: int, r: int)
    requires Headers(m, kind, size, HEAD) && fp in m && 0 <= fp && 0 < r
    ensures Headers(Split(m, fp, r), kind[fp + r := FreeKind][fp := UsedKind], size[fp + r := size[fp] - r][fp := r],
                    HEAD)
  {
    var t := Split(m, fp, r);
    assert forall a :: a in t ==> a == fp || a == fp + r || (a in m && t[a] == m[a]);
  }

  /** The stores that merge block k of the chain into its free predecessor. */
  lemma {:induction false} JoinRep(mm: Mem, chain: seq<int>, s: State, k: int)
    requires 0 < k < |chain| && Rep(mm, chain, s, chain[k])
    requires chain[k - 1] in s.m && chain[k] in s.m && s.m[chain[k - 1]].free && chain[k - 1] >= 0
    ensures var a, p, n := chain[k], chain[k - 1], Nth(HEAD, chain, k + 1);
            && a in mm.size && p in mm.size
            && Rep(mm.(size := mm.size[p := mm.size[p] + mm.size[a]], next := mm.next[p := n], prev := mm.prev[n := p]),
                   RemoveAt(chain, k), State(Join(s.m, p, a), s.order), HEAD)
  {
    var a, p := chain[k], chain[k - 1];
    RemoveLinked(HEAD, chain, mm.next, mm.prev, k);
    JoinChain(chain, s.m, k);
    JoinHeaders(s.m, mm.kind, mm.size, p, a, a);
  }

  lemma {:induction false} JoinHeaders(m: Blocks, kind: map<int, Kind>, size: map<int, int>, p: int, a: int, x: int)
    requires Headers(m, kind, size, x) && p in m && a in m && m[p].free && p != a && p != HEAD && x in {a, HEAD}
    ensures Headers(Join(m, p, a), kind, size[p := size[p] + size[a]], HEAD)
  {
    var t := Join(m, p, a);
    assert forall c :: c in t ==> c != a && c in m && (c != p ==> t[c] == m[c]);
  }

  lemma {:induction false} JoinChain(chain: seq<int>, m: Blocks, k: int)
    requires ChainOk(chain, m) && 0 < k < |chain| && chain[k - 1] in m && chain[k] in m
    ensures ChainOk(RemoveAt(chain, k), Join(m, chain[k - 1], chain[k]))
  {
    ChainRemove(chain, m, k);
    ChainUpdate(RemoveAt(chain, k), m - {chain[k]}, chain[k - 1], Join(m, chain[k - 1], chain[k])[chain[k - 1]]);
  }

  /** The stores that put block a, marked free, at the front of the free chain. */
  lemma {:induction false} FrontRep(mm: Mem, chain: seq<int>, s: State, a: int)
    requires Rep(mm, chain, s, a) && OrderOk(s) && a in s.m && !s.m[a].free && a >= 0
    ensures HEAD in mm.nextFree
    ensures var n := mm.nextFree[HEAD];
            Rep(mm.(kind := mm.kind[a := FreeKind],
                    nextFree := mm.nextFree[a := n][HEAD := a], prevFree := mm.prevFree[a := HEAD][n := a]),
                chain, State(s.m[a := s.m[a].(free := true)], [a] + s.order), HEAD)
  {
    assert a !in s.order;
    InsertLinked(HEAD, s.order, mm.nextFree, mm.prevFree, 0, a);
    assert s.order[..0] + [a] + s.order[0..] == [a] + s.order;
    assert Link(HEAD, s.order, mm.nextFree, mm.prevFree, -1);
    ChainUpdate(chain, s.m, a, s.m[a].(free := true));
  }

  class Malloc {
    var kind: map<int, Kind>
    var size: map<int, int>
    var next: map<int, int>
    var prev: map<int, int>
    var nextFree: map<int, int>
    var prevFree: map<int, int>

    ghost var chain: seq<int>
    ghost var st: State

    ghost function Memory(): Mem
      reads this
    {
      Mem(kind, size, next, prev, nextFree, prevFree)
    }

    ghost predicate Represents(x: int)
      reads this
    {
      Rep(Memory(), chain, st, x)
    }

    ghost predicate Valid()
      reads this
    {
      Represents(HEAD) && Inv(st)
    }

    constructor ()
      ensures Valid() && st == Empty
    {
      kind, size := map[HEAD := HeadKind], map[HEAD := 0];
      next, prev, nextFree, prevFree := map[HEAD := HEAD], map[HEAD := HEAD], map[HEAD := HEAD], map[HEAD := HEAD];
      chain, st := [], Empty;
    }

    method RemoveFromMainChain(ah: int)
      requires ah in prev && ah in next
      modifies this`next, this`prev
      ensures Memory() == MainUnlinked(old(Memory()), ah)
    {
      var ap, an := prev[ah], next[ah];
      next := next[ap := an];
      prev := prev[an := ap];
    }

    method RemoveFromFreeChain(ah: int)
      requires ah in prevFree && ah in nextFree
      modifies this`nextFree, this`prevFree
      ensures Memory() == FreeUnlinked(old(Memory()), ah)
    {
      var ap, an := prevFree[ah], nextFree[ah];
      nextFree := nextFree[ap := an];
      prevFree := prevFree[an := ap];
    }

    method MallocFromBlock(fp: int, r: int, ghost j: int) returns (p: int)
      requires Valid() && 0 <= j < |st.order| && st.order[j] == fp
      requires fp in st.m && 2 * HEADER <= r <= st.m[fp].size
      modifies this
      ensures Valid() && st == AllocAt(old(st), j, r) && p == fp + HEADER
    {
      AllocKeepsInv(st, j, r);
      var fsize := size[fp];
      if fsize >= r + 2 * HEADER {
        SplitBlock(fp, r, j);
      } else {
        WholeRep(Memory(), chain, st, j);
        ghost var st' := AllocAt(st, j, r);
        hide Rep, Inv;
        kind := kind[fp := UsedKind];
        RemoveFromFreeChain(fp);
        st := st';
      }
      return fp + HEADER;
    }

    /** The splitting branch of __malloc_from_block. */
    method SplitBlock(fp: int, r: int, ghost j: int)
      requires Valid() && 0 <= j < |st.order| && st.order[j] == fp
      requires fp in st.m && 2 * HEADER <= r && r + 2 * HEADER <= st.m[fp].size
      modifies this
      ensures Represents(HEAD) && st == AllocAt(old(st), j, r)
    {
      hide Rep, Inv;
      ghost var k := ChainIndex(Memory(), chain, st, fp, HEAD);
      SplitRep(Memory(), chain, st, j, k, r);
      ghost var chain', st' := chain[..k + 1] + [fp + r] + chain[k + 1..], AllocAt(st, j, r);
      SplitStores(fp, r);
      chain, st := chain', st';
    }

    method SplitStores(fp: int, r: int)
      requires fp in size && fp in next && fp in nextFree && fp in prevFree && r > 0
      modifies this`kind, this`size, this`next, this`prev, this`nextFree, this`prevFree
      ensures Memory() == SplitMem(old(Memory()), fp, r)
    {
      var fsize := size[fp];
      var nfp := fp + r;
      var na := next[fp];
      kind := kind[nfp := FreeKind];
      size := size[nfp := fsize - r];
      kind := kind[fp := UsedKind];
      size := size[fp := r];

      prev := prev[nfp := fp];
      next := next[nfp := na];
      prev := prev[na := nfp];
      next := next[fp := nfp];

      var fpn := nextFree[fp];
      nextFree := nextFree[nfp := fpn];
      var fpp := prevFree[fp];
      prevFree := prevFree[nfp := fpp];
      prevFree := prevFree[fpn := nfp];
      nextFree := nextFree[fpp := nfp];
    }

    method FreeBlock(a: int) returns (ah: int)
      requires Represents(a) && Inv(st) && a in st.m && !st.m[a].free
      modifies this
      ensures Valid() && st == Release(old(st), a)
      ensures ah in st.m && st.m[ah].free
    {
      ReleasePrevKeeps(st, a);
      ah := ReleaseIntoPrev(a);
      MergeNextKeeps(st, ah);
      MergeWithNext(ah);
    }

    /** First half of __free_block: into the previous block, or to the front of the free chain. */
    method ReleaseIntoPrev(a: int) returns (ah: int)
      requires Represents(a) && Inv(st) && a in st.m && !st.m[a].free
      modifies this
      ensures Represents(HEAD) && (st, ah) == ReleasePrev(old(st), a)
    {
      ghost var k := ChainIndex(Memory(), chain, st, a, a);
      Neighbours(chain, st.m, k);
      assert Link(HEAD, chain, next, prev, k - 1) && Link(HEAD, chain, next, prev, k);
      var pah, nah := prev[a], next[a];
      assert pah != HEAD ==> pah in chain;
      if kind[pah] == FreeKind && pah + size[pah] == a {
        assert JoinsPrev(st.m, pah, a);
        JoinIntoPrev(a, pah, nah, k);
        ah := pah;
      } else {
        assert forall p :: !JoinsPrev(st.m, p, a);
        PushFront(a);
        ah := a;
      }
    }

    method JoinIntoPrev(a: int, pah: int, nah: int, ghost k: int)
      requires Represents(a) && 0 < k < |chain| && a == chain[k] && pah == chain[k - 1]
               && nah == Nth(HEAD, chain, k + 1)
      requires pah in st.m && a in st.m && st.m[pah].free && pah >= 0
      modifies this
      ensures Represents(HEAD) && st == State(Join(old(st).m, pah, a), old(st).order)
    {
      hide Rep;
      JoinRep(Memory(), chain, st, k);
      size := size[pah := size[pah] + size[a]];
      next := next[pah := nah];
      prev := prev[nah := pah];
      chain, st := RemoveAt(chain, k), State(Join(st.m, pah, a), st.order);
    }

    method PushFront(a: int)
      requires Represents(a) && OrderOk(st) && a in st.m && !st.m[a].free && a >= 0
      modifies this
      ensures Represents(HEAD) && st == State(old(st).m[a := old(st).m[a].(free := true)], [a] + old(st).order)
    {
      hide Rep;
      FrontRep(Memory(), chain, st, a);
      kind := kind[a := FreeKind];
      nextFree := nextFree[a := nextFree[HEAD]];
      prevFree := prevFree[a := HEAD];
      nextFree := nextFree[HEAD := a];
      prevFree := prevFree[nextFree[a] := a];
      st := State(st.m[a := st.m[a].(free := true)], [a] + st.order);
    }

    /** Second half of __free_block: take in a free block that follows. */
    method MergeWithNext(ah: int)
      requires Represents(HEAD) && AlmostInv(st, ah)
      modifies this
      ensures Represents(HEAD) && st == MergeNext(old(st), ah)
    {
      ghost var k := ChainIndex(Memory(), chain, st, ah, HEAD);
      Neighbours(chain, st.m, k);
      assert Link(HEAD, chain, next, prev, k);
      var nah := next[ah];
      assert nah != HEAD ==> nah in chain;
      if kind[nah] == FreeKind && ah + size[ah] == nah {
        assert nah in st.order;
        MergeBlocks(ah, nah, k);
      }
    }

    method MergeBlocks(ah: int, nah: int, ghost k: int)
      requires Represents(HEAD) && 0 <= k && k + 1 < |chain| && ah == chain[k] && nah == chain[k + 1]
      requires ah in st.m && nah in st.m && st.m[ah].free && ah >= 0 && nah in st.order
      modifies this
      ensures Represents(HEAD) && st == State(Join(old(st).m, ah, nah), Remove(old(st).order, nah))
    {
      hide Rep;
      MergeRep(Memory(), chain, st, k);
      ghost var chain', st' := RemoveAt(chain, k + 1), State(Join(st.m, ah, nah), Remove(st.order, nah));
      size := size[ah := size[ah] + size[nah]];
      RemoveFromFreeChain(nah);
      RemoveFromMainChain(nah);
      chain, st := chain', st';
    }

    method Allocate(n: nat, granted: bool) returns (p: int)
      requires Valid() && n + 2 * HEADER - 1 < ADDRESSES
      modifies this
      ensures Valid() && (st, p) == Arena.Malloc(old(st), n, granted)
    {
      if n == 0 {
        return NULL;
      }
      var r := (n + 2 * HEADER - 1) / HEADER * HEADER;
      if !granted {
        return NULL;
      }
      p := NULL;
      ghost var j, s := 0, st;
      hide Rep, Inv, AllocAt;
      FreeNode(Memory(), chain, st, -1);
      var fp := nextFree[HEAD];
      while kind[fp] != HeadKind
        invariant st == s == old(st) && Valid() && p == NULL
        invariant 0 <= j <= |s.order| && fp == Nth(HEAD, s.order, j) && fp in kind
        invariant kind[fp] == HeadKind <==> j == |s.order|
        invariant FirstFit(s, 0, r) == FirstFit(s, j, r)
        decreases |s.order| - j
      {
        FreeNode(Memory(), chain, st, j);
        if size[fp] >= r {
          p := MallocFromBlock(fp, r, j);
          break;
        }
        fp := nextFree[fp];
        j := j + 1;
      }
    }

    method AddBlock(addr: int, len: nat, granted: bool)
      requires Valid() && 0 <= addr && addr + len <= ADDRESSES && Outside(st.m, addr, len)
      modifies this
      ensures Valid() && st == Add(old(st), addr, len, granted)
    {
      if len < FREE_HEADER {
        return;
      }
      hide Rep, Inv, Outside, Release, Insert;
      InsertKeepsInv(st, addr, len);
      NewHeader(Memory(), chain, st, addr, len);
      kind := kind[addr := FreeKind];
      size := size[addr := len];
      if !granted {
        return;
      }
      var pah; ghost var k;
      pah, k := FindPredecessor(addr);
      InsertHeader(addr, len, pah, k);
      InsertHas(old(st), addr, len);
      var fp := FreeBlock(addr);
    }

    /** The backward search for the block to insert after. */
    method FindPredecessor(addr: int) returns (pah: int, ghost k: int)
      requires Valid()
      ensures 0 <= k <= |chain| && pah == Nth(HEAD, chain, k - 1)
      ensures (k > 0 ==> chain[k - 1] < addr) && (k < |chain| ==> addr <= chain[k])
    {
      hide Rep, Inv;
      k := |chain|;
      PrevNode(Memory(), chain, st, k);
      pah := prev[HEAD];
      while kind[pah] != HeadKind && !(pah < addr)
        invariant 0 <= k <= |chain| && pah == Nth(HEAD, chain, k - 1) && pah in kind
        invariant kind[pah] == HeadKind <==> k == 0
        invariant k < |chain| ==> addr <= chain[k]
        decreases k
      {
        PrevNode(Memory(), chain, st, k - 1);
        pah := prev[pah];
        k := k - 1;
      }
    }

    /** The four stores that put a new header on the main chain after pah. */
    method InsertHeader(addr: int, len: nat, pah: int, ghost k: int)
      requires Valid() && addr !in st.m && addr >= 0 && addr in kind && addr in size && size[addr] == len
      requires 0 <= k <= |chain| && pah == Nth(HEAD, chain, k - 1)
      requires (k > 0 ==> chain[k - 1] < addr) && (k < |chain| ==> addr <= chain[k])
      modifies this
      ensures Represents(addr) && st == Insert(old(st), addr, len)
    {
      InsertRep(Memory(), chain, st, addr, len, k);
      hide Rep, Inv;
      ghost var chain', st' := chain[..k] + [addr] + chain[k..], Insert(st, addr, len);
      next := next[addr := next[pah]];
      prev := prev[addr := pah];
      next := next[pah := addr];
      prev := prev[next[addr] := addr];
      chain, st := chain', st';
    }

    /** `p` is NULL or a pointer that malloc returned and that is still live. */
    method Deallocate(p: int, granted: bool)
      requires Valid() && (p == NULL || (p - HEADER in st.m && !st.m[p - HEADER].free))
      modifies this
      ensures Valid() && st == Arena.Free(old(st), p, granted)
    {
      if p == NULL {
        return;
      }
      var ah := p - HEADER;
      if !granted {
        return;
      }
      ah := FreeBlock(ah);
    }

    method MemoryStatus(granted: bool) returns (freeBytes: int, largest: int)
      requires Valid()
      ensures !granted ==> freeBytes == 0 && largest == 0
      ensures granted ==> (forall i :: 0 <= i < |st.order| ==> st.order[i] in st.m)
                          && freeBytes == SumSizes(st.m, st.order) && IsLargest(st, largest)
    {
      freeBytes, largest := 0, 0;
      if !granted {
        return;
      }
      ghost var j, order, m := 0, st.order, st.m;
      MaxIsLargest(st);
      hide Rep, Inv, IsLargest;
      FreeNode(Memory(), chain, st, -1);
      var fp := nextFree[HEAD];
      while kind[fp] != HeadKind
        invariant 0 <= j <= |order| && fp == Nth(HEAD, order, j) && fp in kind
        invariant kind[fp] == HeadKind <==> j == |order|
        invariant freeBytes == SumSizes(m, order[..j])
        invariant largest == MaxSize(m, order[..j])
        decreases |order| - j
      {
        FreeNode(Memory(), chain, st, j);
        freeBytes := freeBytes + size[fp];
        if size[fp] >= largest {
          largest := size[fp];
        }
        fp := nextFree[fp];
        j := j + 1;
        assert order[..j][..j - 1] == order[..j - 1];
      }
      assert order[..j] == order;
    }
  }

  // ---------------------------------------------------------------- whole runs

  /** What the calls of a run return, with NULL for those that return nothing. */
  ghost function Returned(w: World, ops: seq<Op>): (ps: seq<int>)
    ensures |ps| == |ops|
    decreases |ops|
  {
    if ops == [] then []
    else
      var op := ops[0];
      [if op.MallocOp? then Arena.Malloc(w.s, op.n, op.granted).1 else NULL] + Returned(Step(w, op), ops[1..])
  }

  /** The i-th value returned is that of malloc in the heap the calls before it left. */
  lemma {:induction false} ReturnedAt(w: World, ops: seq<Op>, i: nat)
    requires i < |ops|
    ensures Returned(w, ops)[i] ==
            if ops[i].MallocOp? then Arena.Malloc(Run(w, ops[..i]).s, ops[i].n, ops[i].granted).1 else NULL
    decreases i
  {
    hide Step, Arena.Malloc;
    if i == 0 {
      assert ops[..0] == [];
    } else {
      assert ops[..i][0] == ops[0] && ops[..i][1..] == ops[1..][..i - 1];
      ReturnedAt(Step(w, ops[0]), ops[1..], i - 1);
    }
  }

  /** One call on the pointers is one step of the client's world. */
  method Call(heap: Malloc, op: Op, ghost w: World) returns (p: int)
    requires heap.Valid() && heap.st == w.s && WorldInv(w) && ValidOp(w, op)
    modifies heap
    ensures heap.Valid() && heap.st == Step(w, op).s && WorldInv(Step(w, op))
    ensures p == if op.MallocOp? then Arena.Malloc(w.s, op.n, op.granted).1 else NULL
  {
    StepKeepsInv(w, op);
    hide WorldInv, Inv, Rep, Arena.Malloc, Arena.Free, Add, Outside, Step;
    p := NULL;
    match op
    case AddOp(addr, size, granted) =>
      StepsAre(w, addr, size, 0, 0, granted);
      heap.AddBlock(addr, size, granted);
    case MallocOp(n, granted) =>
      StepsAre(w, 0, 0, n, 0, granted);
      p := heap.Allocate(n, granted);
    case FreeOp(q, granted) =>
      StepsAre(w, 0, 0, 0, q, granted);
      if q != NULL {
        LiveUsed(w, q - HEADER);
      }
      heap.Deallocate(q, granted);
  }

  /** A whole valid run on the pointers: what every theorem about runs says of the last world holds of
      the memory it leaves. */
  method Execute(heap: Malloc, ops: seq<Op>, ghost w0: World) returns (ps: seq<int>)
    requires heap.Valid() && heap.st == w0.s && WorldInv(w0) && ValidRun(w0, ops)
    modifies heap
    ensures heap.Valid() && heap.st == Run(w0, ops).s && WorldInv(Run(w0, ops))
    ensures ps == Returned(w0, ops)
  {
    hide WorldInv, ValidOp, Step, Inv, Rep;
    ps := [];
    ghost var w := w0;
    var i := 0;
    while i < |ops|
      invariant 0 <= i <= |ops| && heap.Valid() && heap.st == w.s && WorldInv(w) && ValidRun(w, ops[i..])
      invariant Run(w, ops[i..]) == Run(w0, ops) && ps + Returned(w, ops[i..]) == Returned(w0, ops)
    {
      RunFirst(w, ops[i..]);
      assert ops[i..][1..] == ops[i + 1..];
      var p := Call(heap, ops[i], w);
      ps := ps + [p];
      w := Step(w, ops[i]);
      i := i + 1;
    }
  }
}
