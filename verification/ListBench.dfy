/** The list benchmark: finds, reversals, splices, a caching sort, a removal undone, and a sort by
    index that puts everything back.
 */
module ListBench {
  import opened Common
  import opened ListMerge
  import opened ListRuns
  import opened ListSort

  // ---------------------------------------------------------------- finding

  /** What core_list_find looks for: an index when that is not negative, a low byte otherwise. */
  predicate Matches(c: Cells, n: int, idx: int, data: int) {
    if idx >= 0 then Idx(c, n) == idx else Data(c, n) % 256 == data
  }

  /** By index when one is asked for, by the low data byte otherwise. */
  lemma MatchesIs(c: Cells, n: int, idx: int, data: int)
    ensures idx >= 0 ==> (Matches(c, n, idx, data) <==> Idx(c, n) == idx)
    ensures idx < 0 ==> (Matches(c, n, idx, data) <==> Data(c, n) % 256 == data)
  {
  }

  /** Node k is the first of xs that matches. */
  ghost predicate FirstMatch(c: Cells, xs: seq<int>, idx: int, data: int, k: nat) {
    k < |xs| && Matches(c, xs[k], idx, data) && forall i :: 0 <= i < k ==> !Matches(c, xs[i], idx, data)
  }

  /** core_list_find: the first node that matches, or NULL. */
  method Find(m: Lists, list: int, idx: int, data: int, ghost xs: seq<int>) returns (r: int)
    requires List(m.next, xs) && list == At(xs, 0) && HasItems(m.C(), xs)
    ensures r == NULL ==> forall i :: 0 <= i < |xs| ==> !Matches(m.C(), xs[i], idx, data)
    ensures r != NULL ==> exists k: nat :: k < |xs| && FirstMatch(m.C(), xs, idx, data, k) && r == xs[k]
  {
    r := list;
    ghost var k, c := 0, m.C();
    while r != NULL && (if idx >= 0 then m.idx[m.info[r]] != idx else m.data16[m.info[r]] % 256 != data)
      invariant 0 <= k <= |xs| && r == At(xs, k)
      invariant r != NULL ==> k < |xs| && r in m.info && m.info[r] in m.idx && m.info[r] in m.data16
      invariant forall i :: 0 <= i < k ==> !Matches(c, xs[i], idx, data)
      decreases |xs| - k
    {
      ListNext(m.next, xs, k);
      r := m.next[r];
      k := k + 1;
    }
  }

  // ---------------------------------------------------------------- reversing

  function Reversed(s: seq<int>): (r: seq<int>)
    ensures |r| == |s|
  {
    seq(|s|, i requires 0 <= i < |s| => s[|s| - 1 - i])
  }

  lemma {:induction false} ListCons(next: map<int, int>, ys: seq<int>, x: int)
    requires List(next, ys) && x !in ys && x != NULL
    ensures List(next[x := At(ys, 0)], [x] + ys)
  {
    var zs, next' := [x] + ys, next[x := At(ys, 0)];
    forall i, j | 0 <= i < |zs| && j == i + 1 && j < |zs| ensures next'[zs[i]] == zs[j] {
      if i > 0 {
        SegmentNext(next, ys, i - 1);
      }
    }
  }

  lemma {:induction false} ReverseStep(next: map<int, int>, xs: seq<int>, k: nat)
    requires k < |xs| && NoDup(xs) && List(next, Reversed(xs[..k])) && List(next, xs[k..])
    ensures xs[k] in next && next[xs[k]] == At(xs[k + 1..], 0)
    ensures var next' := next[xs[k] := At(Reversed(xs[..k]), 0)];
            List(next', Reversed(xs[..k + 1])) && List(next', xs[k + 1..])
  {
    var r, rest := Reversed(xs[..k]), xs[k..];
    ListNext(next, rest, 0);
    assert At(rest, 1) == At(xs[k + 1..], 0);
    assert forall i :: 0 <= i < k ==> r[i] == xs[k - 1 - i];
    ListCons(next, r, xs[k]);
    assert [xs[k]] + r == Reversed(xs[..k + 1]);
    ListTail(next, rest);
    assert rest[1..] == xs[k + 1..];
    ListFrame(next, xs[k + 1..], xs[k], At(r, 0));
  }

  /** core_list_reverse */
  method Reverse(m: Lists, list0: int, ghost xs: seq<int>) returns (r: int)
    requires List(m.next, xs) && list0 == At(xs, 0)
    modifies m`next
    ensures List(m.next, Reversed(xs)) && r == At(Reversed(xs), 0) && NextKept(old(m.next), m.next, xs)
  {
    var list := list0;
    r := NULL;
    ghost var k, next0 := 0, m.next;
    NextKeptSelf(next0, xs);
    assert xs[0..] == xs && Reversed(xs[..0]) == [];
    while list != NULL
      invariant 0 <= k <= |xs| && list == At(xs[k..], 0) && r == At(Reversed(xs[..k]), 0)
      invariant List(m.next, Reversed(xs[..k])) && List(m.next, xs[k..]) && NextKept(next0, m.next, xs)
      decreases |xs| - k
    {
      ReverseStep(m.next, xs, k);
      NextKeptStore(next0, m.next, xs[k], r, xs);
      hide List, NextKept;
      var tmp := m.next[list];
      m.next := m.next[list := r];
      r := list;
      list := tmp;
      k := k + 1;
      assert r == At(Reversed(xs[..k]), 0);
    }
    assert xs[..k] == xs by {
      assert List(m.next, xs[k..]);
    }
  }

  lemma {:induction false} ReversedMultiset(s: seq<int>)
    ensures multiset(Reversed(s)) == multiset(s)
    decreases |s|
  {
    if s != [] {
      var n := |s| - 1;
      assert Reversed(s) == [s[n]] + Reversed(s[..n]);
      ReversedMultiset(s[..n]);
      assert s == s[..n] + [s[n]];
    }
  }

  // ---------------------------------------------------------------- moving a node to the front

  /** The node after position k moved behind the head. */
  function Spliced(xs: seq<int>, k: nat): seq<int>
    requires k + 1 < |xs|
  {
    [xs[0], xs[k + 1]] + xs[1..k + 1] + xs[k + 2..]
  }

  lemma {:induction false} SplicedMultiset(xs: seq<int>, k: nat)
    requires k + 1 < |xs|
    ensures multiset(Spliced(xs, k)) == multiset(xs)
  {
    assert xs == [xs[0]] + xs[1..k + 1] + [xs[k + 1]] + xs[k + 2..];
  }

  /** Where position i of the spliced list was before. */
  function SplicedFrom(k: nat, i: int): int {
    if i == 0 then 0 else if i == 1 then k + 1 else if i <= k + 1 then i - 1 else i
  }

  lemma {:induction false} SpliceLinks(next: map<int, int>, xs: seq<int>, k: nat)
    requires List(next, xs) && k + 1 < |xs|
    ensures xs[k] in next && next[xs[k]] == xs[k + 1] && xs[k + 1] in next && xs[0] in next
    ensures var next1 := next[xs[k] := next[xs[k + 1]]];
            List(next1[xs[k + 1] := next1[xs[0]]][xs[0] := xs[k + 1]], Spliced(xs, k))
  {
    var ys, next1 := Spliced(xs, k), next[xs[k] := next[xs[k + 1]]];
    var next' := next1[xs[k + 1] := next1[xs[0]]][xs[0] := xs[k + 1]];
    SegmentNext(next, xs, k);
    ListNext(next, xs, 0);
    ListNext(next, xs, k + 1);
    SplicedNoDup(xs, k);
    SplicedElements(xs, k);
    forall i | 0 <= i < |ys| ensures ys[i] != NULL && ys[i] in next' && next'[ys[i]] == At(ys, i + 1) {
      SpliceLink(next, xs, k, i);
    }
    hide Spliced;
  }

  lemma SplicedElements(xs: seq<int>, k: nat)
    requires k + 1 < |xs|
    ensures |Spliced(xs, k)| == |xs| && forall i :: 0 <= i < |xs| ==> Spliced(xs, k)[i] == xs[SplicedFrom(k, i)]
  {
  }

  /** One link of the spliced list. */
  lemma {:induction false} SpliceLink(next: map<int, int>, xs: seq<int>, k: nat, i: nat)
    requires List(next, xs) && k + 1 < |xs| && i < |xs|
    requires xs[k] in next && xs[k + 1] in next && xs[0] in next
    ensures var ys, next1 := Spliced(xs, k), next[xs[k] := next[xs[k + 1]]];
            var next' := next1[xs[k + 1] := next1[xs[0]]][xs[0] := xs[k + 1]];
            i < |ys| && ys[i] != NULL && ys[i] in next' && next'[ys[i]] == At(ys, i + 1)
  {
    var ys, j := Spliced(xs, k), SplicedFrom(k, i);
    SplicedElements(xs, k);
    hide Spliced;
    ListNext(next, xs, 0);
    ListNext(next, xs, k);
    ListNext(next, xs, k + 1);
    ListNext(next, xs, j);
    ListNodes(next, xs);
    hide List;
    assert ys[i] == xs[j] && At(ys, i + 1) == if i + 1 < |xs| then xs[SplicedFrom(k, i + 1)] else NULL;
  }

  lemma ListNodes(next: map<int, int>, xs: seq<int>)
    requires List(next, xs)
    ensures NoDup(xs) && forall i :: 0 <= i < |xs| ==> xs[i] != NULL
  {
  }

  lemma {:induction false} SplicedNoDup(xs: seq<int>, k: nat)
    requires NoDup(xs) && k + 1 < |xs|
    ensures NoDup(Spliced(xs, k))
  {
    var ys := Spliced(xs, k);
    assert forall i :: 0 <= i < |ys| ==> ys[i] == xs[SplicedFrom(k, i)];
    forall i, j | 0 <= i < j < |ys| ensures ys[i] != ys[j] {
      assert SplicedFrom(k, i) != SplicedFrom(k, j);
    }
  }

  /** "Cache next item at the head of the list": the three stores of the find loop. */
  method Splice(m: Lists, list: int, find: int, ghost xs: seq<int>, ghost k: nat)
    requires List(m.next, xs) && k + 1 < |xs| && list == xs[0] && find == xs[k]
    modifies m`next
    ensures List(m.next, Spliced(xs, k)) && NextKept(old(m.next), m.next, xs)
  {
    SpliceLinks(m.next, xs, k);
    assert xs[0] in xs && xs[k] in xs && xs[k + 1] in xs;
    hide List;
    var finder := m.next[find];
    m.next := m.next[find := m.next[finder]];
    m.next := m.next[finder := m.next[list]];
    m.next := m.next[list := finder];
  }

  // ---------------------------------------------------------------- removing and undoing it

  function WithoutThird(xs: seq<int>): seq<int>
    requires |xs| >= 3
  {
    xs[..2] + xs[3..]
  }

  lemma {:induction false} RemoveLinks(next: map<int, int>, xs: seq<int>)
    requires List(next, xs) && |xs| >= 3
    ensures xs[1] in next && next[xs[1]] == xs[2] && xs[2] in next && next[xs[2]] == At(xs, 3)
    ensures List(next[xs[1] := next[xs[2]]][xs[2] := NULL], WithoutThird(xs))
  {
    var ys, next' := WithoutThird(xs), next[xs[1] := next[xs[2]]][xs[2] := NULL];
    ListNext(next, xs, 1);
    ListNext(next, xs, 2);
    assert forall i :: 0 <= i < |ys| ==> ys[i] == xs[if i < 2 then i else i + 1];
    forall i | 0 <= i < |ys| ensures ys[i] != NULL && ys[i] in next' && next'[ys[i]] == At(ys, i + 1) {
      ListNext(next, xs, if i < 2 then i else i + 1);
    }
  }

  /** core_list_remove on the second node: it takes over the data of the third, which is unlinked
      and carries the data away. */
  method Remove(m: Lists, item: int, ghost xs: seq<int>) returns (ret: int)
    requires List(m.next, xs) && |xs| >= 3 && item == xs[1] && HasItems(m.C(), xs)
    modifies m`next, m`info
    ensures ret == xs[2] && List(m.next, WithoutThird(xs)) && ret in m.next && item in m.next
            && m.next[item] == At(xs, 3)
    ensures m.next[ret] == NULL && NextKept(old(m.next), m.next, xs)
    ensures m.info == old(m.info)[item := old(m.info)[ret]][ret := old(m.info)[item]]
  {
    RemoveLinks(m.next, xs);
    assert xs[1] in xs && xs[2] in xs && xs[1] != xs[2];
    hide List;
    ret := m.next[item];
    var tmp := m.info[item];
    m.info := m.info[item := m.info[ret]];
    m.info := m.info[ret := tmp];
    m.next := m.next[item := m.next[m.next[item]]];
    m.next := m.next[ret := NULL];
  }

  lemma {:induction false} UndoLinks(next: map<int, int>, xs: seq<int>)
    requires |xs| >= 3 && NoDup(xs) && List(next, WithoutThird(xs)) && xs[2] != NULL && xs[1] in next
             && next[xs[1]] == At(xs, 3)
    ensures List(next[xs[2] := next[xs[1]]][xs[1] := xs[2]], xs)
  {
    var ys, next' := WithoutThird(xs), next[xs[2] := next[xs[1]]][xs[1] := xs[2]];
    assert forall i :: 0 <= i < |ys| ==> ys[i] == xs[if i < 2 then i else i + 1];
    forall i | 0 <= i < |xs| ensures xs[i] != NULL && xs[i] in next' && next'[xs[i]] == At(xs, i + 1) {
      if i < 2 {
        assert ys[i] == xs[i];
        ListNext(next, ys, i);
      } else if i > 2 {
        assert ys[i - 1] == xs[i];
        ListNext(next, ys, i - 1);
      }
    }
  }

  /** core_list_undo_remove: list and data pointers are as before the removal. */
  method UndoRemove(m: Lists, removed: int, modified: int, ghost xs: seq<int>)
    requires |xs| >= 3 && NoDup(xs) && List(m.next, WithoutThird(xs)) && removed == xs[2] != NULL && modified == xs[1]
    requires modified in m.next && m.next[modified] == At(xs, 3) && removed in m.info && modified in m.info
    modifies m`next, m`info
    ensures List(m.next, xs) && NextKept(old(m.next), m.next, xs)
    ensures m.info == old(m.info)[removed := old(m.info)[modified]][modified := old(m.info)[removed]]
  {
    UndoLinks(m.next, xs);
    assert xs[1] in xs && xs[2] in xs;
    hide List;
    var tmp := m.info[removed];
    m.info := m.info[removed := m.info[modified]];
    m.info := m.info[modified := tmp];
    m.next := m.next[removed := m.next[modified]];
    m.next := m.next[modified := removed];
  }

  lemma {:induction false} InfoRestored(info: map<int, int>, a: int, b: int)
    requires a in info && b in info && a != b
    ensures var info' := info[a := info[b]][b := info[a]]; info'[b := info'[a]][a := info'[b]] == info
  {
  }

  // ---------------------------------------------------------------- sorting by index restores the list

  /** Strictly increasing indices: the state core_list_init leaves, with distinct indices. */
  ghost predicate Increasing(c: Cells, xs: seq<int>) {
    forall i, j :: 0 <= i < j < |xs| ==> Idx(c, xs[i]) < Idx(c, xs[j])
  }

  lemma IdxCompare(c: Cells, xs: seq<int>, i: int, j: int)
    requires Increasing(c, xs) && 0 <= i < |xs| && 0 <= j < |xs|
    ensures (i < j ==> Idx(c, xs[i]) < Idx(c, xs[j])) && (j < i ==> Idx(c, xs[j]) < Idx(c, xs[i]))
  {
    hide Idx;
  }

  /** A list by increasing index is the only one with these nodes. */
  lemma {:induction false} SortedUnique(c: Cells, xs: seq<int>, ys: seq<int>)
    requires multiset(xs) == multiset(ys) && Increasing(c, xs) && Increasing(c, ys)
    ensures xs == ys
    decreases |xs|
  {
    hide Idx;
    SameLength(xs, ys);
    if xs != [] {
      HeadsAgree(c, xs, ys);
      RestSame(xs, ys);
      SortedUnique(c, xs[1..], ys[1..]);
      assert xs == [xs[0]] + xs[1..] && ys == [ys[0]] + ys[1..];
    }
  }

  lemma SameLength(xs: seq<int>, ys: seq<int>)
    requires multiset(xs) == multiset(ys)
    ensures |xs| == |ys|
  {
    assert |multiset(xs)| == |xs| && |multiset(ys)| == |ys|;
  }

  lemma {:induction false} RestSame(xs: seq<int>, ys: seq<int>)
    requires multiset(xs) == multiset(ys) && xs != [] && ys != [] && xs[0] == ys[0]
    ensures multiset(xs[1..]) == multiset(ys[1..])
  {
    assert xs == [xs[0]] + xs[1..] && ys == [ys[0]] + ys[1..];
    assert multiset(xs[1..]) == multiset(xs) - multiset{xs[0]};
    assert multiset(ys[1..]) == multiset(ys) - multiset{ys[0]};
  }

  lemma {:induction false} HeadsAgree(c: Cells, xs: seq<int>, ys: seq<int>)
    requires multiset(xs) == multiset(ys) && Increasing(c, xs) && Increasing(c, ys) && xs != [] && ys != []
    ensures xs[0] == ys[0]
  {
    hide Idx, Increasing;
    assert xs[0] in multiset(ys) && ys[0] in multiset(xs);
    var i :| 0 <= i < |ys| && ys[i] == xs[0];
    var j :| 0 <= j < |xs| && xs[j] == ys[0];
    IdxCompare(c, ys, 0, i);
    IdxCompare(c, xs, 0, j);
  }

  /** Distinct indices make a stable order by index strict. */
  lemma {:induction false} OrderByIdxStrict(c: Cells, xs: seq<int>, zs: seq<int>, ys: seq<int>)
    requires InOrder(ByIdx, c, zs, ys) && Increasing(c, xs) && multiset(xs) == multiset(ys) && NoDup(ys)
    ensures Increasing(c, ys)
  {
    hide Idx, Position;
    forall i, j | 0 <= i < j < |ys| ensures Idx(c, ys[i]) < Idx(c, ys[j]) {
      assert Before(ByIdx, c, zs, ys[i], ys[j]);
      assert ys[i] in multiset(xs) && ys[j] in multiset(xs);
      var i' :| 0 <= i' < |xs| && xs[i'] == ys[i];
      var j' :| 0 <= j' < |xs| && xs[j'] == ys[j];
      IdxCompare(c, xs, i', j');
    }
  }

  /** High bytes kept throughout, and low bytes regenerated from them at the end. */
  lemma {:induction false} DataRestored(c0: Cells, c1: Cells, c2: Cells, n: int)
    requires Evolves(Complex, c0, c1) && Evolves(ByIdx, c1, c2) && n in c0.info && c0.info[n] in c0.data16
    requires Fixed(ByIdx, c0, n) && Fixed(ByIdx, c2, n)
    ensures Data(c2, n) == Data(c0, n)
  {
    var d := c0.info[n];
    assert d in c1.data16 && d in c2.data16;
    assert c2.data16[d] / 256 == c0.data16[d] / 256;
  }

  // ---------------------------------------------------------------- core_bench_list

  /** The list seen from outside: linked as xs, from `list`, with its data. */
  ghost predicate At0(m: Lists, xs: seq<int>, list: int)
    reads m
  {
    List(m.next, xs) && xs != [] && list == xs[0] && HasItems(m.C(), xs) && DataOk(m.data16)
  }

  lemma {:induction false} ItemsSame(c: Cells, xs: seq<int>, ys: seq<int>)
    requires HasItems(c, xs) && multiset(ys) == multiset(xs)
    ensures HasItems(c, ys) && |ys| == |xs|
  {
    assert |multiset(xs)| == |xs| && |multiset(ys)| == |ys|;
    forall i | 0 <= i < |ys| ensures ys[i] in c.info && c.info[ys[i]] in c.data16 && c.info[ys[i]] in c.idx {
      assert ys[i] in multiset(xs);
      var j :| 0 <= j < |xs| && xs[j] == ys[i];
    }
  }

  /** The list after a round of the find loop that found node k. */
  function Cached(xs: seq<int>, k: nat): (ys: seq<int>)
    requires k < |xs|
    ensures |ys| == |xs|
  {
    if k == 0 then Reversed(xs) else Spliced(Reversed(xs), |xs| - 1 - k)
  }

  ghost predicate Hits(c: Cells, xs: seq<int>, idx: int, data: int) {
    exists k: nat :: FirstMatch(c, xs, idx, data, k)
  }

  ghost function HitAt(c: Cells, xs: seq<int>, idx: int, data: int): (k: nat)
    requires Hits(c, xs, idx, data)
    ensures k < |xs| && FirstMatch(c, xs, idx, data, k)
  {
    var k: nat :| FirstMatch(c, xs, idx, data, k);
    k
  }

  lemma {:induction false} HitUnique(c: Cells, xs: seq<int>, idx: int, data: int, k: nat)
    requires FirstMatch(c, xs, idx, data, k)
    ensures Hits(c, xs, idx, data) && HitAt(c, xs, idx, data) == k
  {
    hide Matches;
    var j := HitAt(c, xs, idx, data);
  }

  lemma {:induction false} NoHit(c: Cells, xs: seq<int>, idx: int, data: int)
    requires forall k :: 0 <= k < |xs| ==> !Matches(c, xs[k], idx, data)
    ensures !Hits(c, xs, idx, data)
  {
    hide Matches;
  }

  /** The list after a round of the find loop. */
  ghost function RoundList(c: Cells, xs: seq<int>, idx: int, data: int): (ys: seq<int>)
    ensures |ys| == |xs|
  {
    if Hits(c, xs, idx, data) then Cached(xs, HitAt(c, xs, idx, data)) else Reversed(xs)
  }

  /** What a round adds to the result. */
  ghost function RoundBit(c: Cells, xs: seq<int>, idx: int, data: int): int
    requires |xs| >= 2
  {
    if Hits(c, xs, idx, data) then
      var v := Data(c, xs[HitAt(c, xs, idx, data)]);
      if v % 2 == 1 then v / 512 % 2 else 0
    else Data(c, Reversed(xs)[1]) / 256 % 2
  }

  /** One round of the find loop: find, reverse, and move the successor of the node found. */
  method FindRound(m: Lists, list: int, infoIdx: int, data: int, ghost xs: seq<int>)
    returns (list': int, hit: bool, bit: int, ghost ys: seq<int>)
    requires At0(m, xs, list) && |xs| >= 3
    modifies m`next
    ensures At0(m, ys, list') && multiset(ys) == multiset(xs) && |ys| == |xs| && NextKept(old(m.next), m.next, xs)
    ensures hit <==> Hits(m.C(), xs, infoIdx, data)
    ensures ys == RoundList(m.C(), xs, infoIdx, data) && bit == RoundBit(m.C(), xs, infoIdx, data)
  {
    hide List, Matches, FirstMatch, Hits, HasItems, Data, Reversed, Cached, DataOk, NextKept;
    ghost var c := m.C();
    var found := Find(m, list, infoIdx, data, xs);
    ghost var k: nat := 0;
    if found != NULL {
      k :| k < |xs| && FirstMatch(c, xs, infoIdx, data, k) && found == xs[k];
      HitUnique(c, xs, infoIdx, data, k);
    } else {
      NoHit(c, xs, infoIdx, data);
    }
    list' := Reverse(m, list, xs);
    ys := Reversed(xs);
    ReversedMultiset(xs);
    ItemsSame(c, xs, ys);
    hit := found != NULL;
    if !hit {
      var v := SecondData(m, list', ys);
      bit := v / 256 % 2;
    } else {
      var v := NodeData(m, found, xs, k);
      bit := if v % 2 == 1 then v / 512 % 2 else 0;
      ghost var next1 := m.next;
      CacheNext(m, list', found, xs, k);
      NextKeptTrans(old(m.next), next1, m.next, xs);
      CachedMultiset(xs, k);
      ys := Cached(xs, k);
      ItemsSame(c, xs, ys);
    }
  }

  /** A miss reverses the list and counts bit 8 of its new second node; a hit at node k also moves the node
      before it behind the new head, and counts bit 9 of an odd value. */
  lemma {:induction false} RoundIs(c: Cells, xs: seq<int>, idx: int, data: int, k: nat)
    requires |xs| >= 2
    ensures (forall i :: 0 <= i < |xs| ==> !Matches(c, xs[i], idx, data)) ==>
              RoundList(c, xs, idx, data) == Reversed(xs) && RoundBit(c, xs, idx, data) == Data(c,
                  xs[|xs| - 2]) / 256 % 2
    ensures FirstMatch(c, xs, idx, data, k) ==>
              && RoundList(c, xs, idx, data) == (if k == 0 then Reversed(xs) else Spliced(Reversed(xs), |xs| - 1 - k))
              && RoundBit(c, xs, idx, data) == Data(c, xs[k]) % 2 * (Data(c, xs[k]) / 512 % 2)
  {
    if FirstMatch(c, xs, idx, data, k) {
      HitUnique(c, xs, idx, data, k);
    } else if forall i :: 0 <= i < |xs| ==> !Matches(c, xs[i], idx, data) {
      NoHit(c, xs, idx, data);
    }
    hide Matches, Data;
  }

  /** n->info->data16 */
  method NodeData(m: Lists, n: int, ghost xs: seq<int>, ghost k: nat) returns (v: int)
    requires HasItems(m.C(), xs) && k < |xs| && n == xs[k]
    ensures v == Data(m.C(), n)
  {
    v := m.data16[m.info[n]];
  }

  /** list->next->info->data16 */
  method SecondData(m: Lists, list: int, ghost xs: seq<int>) returns (v: int)
    requires List(m.next, xs) && HasItems(m.C(), xs) && |xs| >= 2 && list == xs[0]
    ensures v == Data(m.C(), xs[1])
  {
    ListNext(m.next, xs, 0);
    v := m.data16[m.info[m.next[list]]];
  }

  /** The node after the one found, if any, moves behind the head. */
  method CacheNext(m: Lists, list: int, found: int, ghost xs: seq<int>, ghost k: nat)
    requires List(m.next, Reversed(xs)) && k < |xs| && list == At(Reversed(xs), 0) && found == xs[k]
    modifies m`next
    ensures List(m.next, Cached(xs, k)) && list == At(Cached(xs, k), 0) && Cached(xs, k) != []
    ensures NextKept(old(m.next), m.next, xs)
  {
    ghost var ys, k' := Reversed(xs), |xs| - 1 - k;
    assert ys[k'] == found;
    ListNext(m.next, ys, k');
    hide NextKept;
    NextKeptSelf(m.next, xs);
    if m.next[found] != NULL {
      Splice(m, list, found, ys, k');
      ReversedMultiset(xs);
      NextKeptMembers(old(m.next), m.next, ys, xs);
    }
  }

  lemma {:induction false} NextKeptMembers(next: map<int, int>, next': map<int, int>, ys: seq<int>, xs: seq<int>)
    requires NextKept(next, next', ys) && multiset(ys) == multiset(xs)
    ensures NextKept(next, next', xs)
  {
    SameMembers(ys, xs);
  }

  lemma {:induction false} DataKeptMembers(c: Cells, c': Cells, ys: seq<int>, xs: seq<int>)
    requires DataKept(c, c', ys) && multiset(ys) == multiset(xs)
    ensures DataKept(c, c', xs)
  {
    SameMembers(ys, xs);
    forall d | d in c.data16 && !ItemOf(c, xs, d) ensures !ItemOf(c, ys, d) {
      assert forall i :: 0 <= i < |ys| ==> ys[i] in ys;
      assert forall n :: n in xs ==> Item(c, n) != d;
    }
  }

  lemma {:induction false} CachedMultiset(xs: seq<int>, k: nat)
    requires k < |xs|
    ensures multiset(Cached(xs, k)) == multiset(xs)
  {
    hide Spliced, Reversed;
    ReversedMultiset(xs);
    if k > 0 {
      SplicedMultiset(Reversed(xs), |xs| - 1 - k);
    }
  }

  /** Where the find loop stands: the list, what is looked for, and the counts. */
  datatype Finds = Finds(list: seq<int>, idx: int, data: int, sum: int, found: nat, missed: nat)

  ghost function NextFind(c: Cells, f: Finds, i: int): (g: Finds)
    requires |f.list| >= 3
    ensures |g.list| == |f.list|
  {
    var data := i % 256;
    var hit := Hits(c, f.list, f.idx, data);
    Finds(RoundList(c, f.list, f.idx, data), NextIdx(f.idx), data,
          (f.sum + RoundBit(c, f.list, f.idx, data)) % 0x1_0000,
          if hit then f.found + 1 else f.found, if hit then f.missed else f.missed + 1)
  }

  /** The find loop: n rounds, the i-th for the data value i. `stale` is what the data value holds when
      there is no round. */
  ghost function FindLoop(c: Cells, xs: seq<int>, idx: int, stale: int, n: nat): (f: Finds)
    requires |xs| >= 3
    ensures |f.list| == |xs|
  {
    if n == 0 then Finds(xs, idx, stale, 0, 0, 0) else NextFind(c, FindLoop(c, xs, idx, stale, n - 1), n - 1)
  }

  /** After n rounds: the last data value, an index n further until it wraps and stays negative, and every
      round counted once. */
  lemma {:induction false} FindLoopCounts(c: Cells, xs: seq<int>, idx: int, stale: int, n: nat)
    requires |xs| >= 3 && idx <= 0x7FFF
    ensures var f := FindLoop(c, xs, idx, stale, n);
            && f.data == (if n == 0 then stale else (n - 1) % 256)
            && f.idx == (if idx < 0 then idx else if idx + n <= 0x7FFF then idx + n else -0x8000)
            && f.found == |HitRounds(c, xs, idx, stale, n)| && f.missed == n - f.found
    decreases n
  {
    hide FindLoop, HitRounds, HitsIn;
    if n > 0 {
      FindLoopCounts(c, xs, idx, stale, n - 1);
      HitRoundsNext(c, xs, idx, stale, n - 1);
      FindLoopStep(c, xs, idx, stale, n - 1);
    } else {
      FindLoopNone(c, xs, idx, stale);
    }
  }

  lemma FindLoopNone(c: Cells, xs: seq<int>, idx: int, stale: int)
    requires |xs| >= 3
    ensures FindLoop(c, xs, idx, stale, 0) == Finds(xs, idx, stale, 0, 0, 0) && HitRounds(c, xs, idx, stale, 0) == {}
  {
  }

  lemma {:induction false} FindLoopStep(c: Cells, xs: seq<int>, idx: int, stale: int, n: nat)
    requires |xs| >= 3
    ensures var f, g := FindLoop(c, xs, idx, stale, n), FindLoop(c, xs, idx, stale, n + 1);
            var hit := HitsIn(c, xs, idx, stale, n);
            && g.data == n % 256
            && g.idx == (if f.idx < 0 then f.idx else if f.idx == 0x7FFF then -0x8000 else f.idx + 1)
            && g.found == f.found + (if hit then 1 else 0) && g.missed == f.missed + (if hit then 0 else 1)
  {
    NextFindIs(c, FindLoop(c, xs, idx, stale, n), n);
    hide NextFind, Hits;
  }

  lemma NextFindIs(c: Cells, f: Finds, i: int)
    requires |f.list| >= 3
    ensures var g, hit := NextFind(c, f, i), Hits(c, f.list, f.idx, i % 256);
            && g.data == i % 256
            && g.idx == (if f.idx < 0 then f.idx else if f.idx == 0x7FFF then -0x8000 else f.idx + 1)
            && g.found == f.found + (if hit then 1 else 0) && g.missed == f.missed + (if hit then 0 else 1)
            && g.list == RoundList(c, f.list, f.idx, i % 256)
            && g.sum == (f.sum + RoundBit(c, f.list, f.idx, i % 256)) % 0x1_0000
  {
  }

  lemma {:induction false} HitRoundsNext(c: Cells, xs: seq<int>, idx: int, stale: int, n: nat)
    requires |xs| >= 3
    ensures |HitRounds(c, xs, idx, stale, n + 1)| ==
            |HitRounds(c, xs, idx, stale, n)| + (if HitsIn(c, xs, idx, stale, n) then 1 else 0)
  {
    hide HitsIn;
    var a, b := HitRounds(c, xs, idx, stale, n), HitRounds(c, xs, idx, stale, n + 1);
    assert b == if HitsIn(c, xs, idx, stale, n) then a + {n} else a;
  }

  /** Round i finds its value. */
  ghost predicate HitsIn(c: Cells, xs: seq<int>, idx: int, stale: int, i: nat)
    requires |xs| >= 3
  {
    var f := FindLoop(c, xs, idx, stale, i);
    Hits(c, f.list, f.idx, i % 256)
  }

  ghost function HitRounds(c: Cells, xs: seq<int>, idx: int, stale: int, n: nat): set<nat>
    requires |xs| >= 3
  {
    set i: nat | i < n && HitsIn(c, xs, idx, stale, i)
  }

  /** info.idx++ on a 16-bit index that is not negative. */
  function NextIdx(idx: int): int {
    if idx < 0 then idx else if idx == 0x7FFF then -0x8000 else idx + 1
  }

  /** The list between the two sorts: the first sort by the values it computed, if there was one. */
  ghost predicate Sorted(sorts: bool, c0: Cells, c1: Cells, zs: seq<int>, mid: seq<int>) {
    if sorts then
      multiset(mid) == multiset(zs) && InOrder(Complex, c1, zs, mid) && AllFixed(Complex, c1, mid)
          && Evolves(Complex, c0, c1)
    else mid == zs && c1 == c0
  }

  /** core_bench_list: whatever the seeds, the list is back in its original state at the end: the
      same nodes in the same order, the same data items and the same data, and nothing outside it has
      changed. `crc16` is the checksum of two bytes. The value returned is the count of the find loop
      run through the two checksum walks; `mid` and `c1` are the list and its data in between. */
  method CoreBenchList(m: Lists, finderIdx: int, findNum: int, stale: int, crc16: (int, int) -> int, list0: int,
                       ghost xs: seq<int>)
    returns (retval: int, ghost mid: seq<int>, ghost c1: Cells)
    requires At0(m, xs, list0) && |xs| >= 3 && Increasing(m.C(), xs) && AllFixed(ByIdx, m.C(), xs)
    modifies m`next, m`info, m`data16, m`crc, m`crcState, m`crcMatrix, m`computed
    ensures List(m.next, xs) && m.info == old(m.info) && m.idx == old(m.idx)
    ensures forall i :: 0 <= i < |xs| ==> Data(m.C(), xs[i]) == Data(old(m.C()), xs[i])
    ensures NextKept(old(m.next), m.next, xs) && DataKept(old(m.C()), m.C(), xs)
    ensures var f := FindLoop(old(m.C()), xs, finderIdx, stale, if findNum > 0 then findNum else 0);
            && Sorted(finderIdx > 0, old(m.C()), c1, f.list, mid) && |mid| == |xs| && HasItems(c1, mid)
            && retval == CrcTimes(crc16, Data(old(m.C()), xs[0]),
                                  CrcTimes(crc16, Data(c1, mid[0]), (f.sum + f.found * 4 - f.missed) % 0x1_0000,
                                           WalkLength(c1, mid, f.idx, f.data)),
                                  |xs| - 1)
  {
    hide Increasing, AllFixed, Evolves, List, HasItems, DataOk, InOrder, NextKept, DataKept, Data, WalkLength, CrcTimes;
    hide Sorted, FindLoop;
    ghost var c0, next0 := m.C(), m.next;
    ghost var ys, f;
    var list, infoIdx, data;
    retval, list, infoIdx, data, ys, f := FindItems(m, finderIdx, findNum, stale, list0, xs);
    list, mid := SortByValue(m, finderIdx > 0, list, c0, next0, ys, xs);
    c1 := m.C();
    ghost var next1 := m.next;
    retval := RemoveAndUndo(m, list, infoIdx, data, crc16, retval, mid);
    assert m.C() == c1;
    NextKeptMembers(next1, m.next, mid, xs);
    NextKeptTrans(next0, next1, m.next, xs);
    list, ys := SortAgain(m, ByIdx, list, c1, next0, mid, xs);
    Restored(c0, c1, m.C(), m.next, xs, mid, ys);
    DataKeptTrans(c0, c1, m.C(), xs);
    retval := CrcList(m, list, crc16, retval, ys);
  }

  /** The first sort, which only a positive index asks for. */
  method SortByValue(m: Lists, sorts: bool, list0: int, ghost c: Cells, ghost next0: map<int, int>,
                     ghost zs: seq<int>, ghost xs: seq<int>)
    returns (list: int, ghost ys: seq<int>)
    requires At0(m, zs, list0) && c == m.C() && |xs| >= 3 && multiset(zs) == multiset(xs) && NextKept(next0, m.next, xs)
    modifies m`next, m`data16, m`crc, m`crcState, m`crcMatrix, m`computed
    ensures At0(m, ys, list) && multiset(ys) == multiset(xs) && |ys| == |xs| && m.info == old(m.info)
            && m.idx == old(m.idx)
    ensures Sorted(sorts, c, m.C(), zs, ys) && Evolves(Complex, c, m.C())
    ensures NextKept(next0, m.next, xs) && DataKept(c, m.C(), xs)
  {
    EvolvesSelf(Complex, c);
    DataKeptSelf(c, xs);
    hide AllFixed, Evolves, List, HasItems, DataOk, InOrder, NextKept, DataKept;
    SameLength(zs, xs);
    list, ys := list0, zs;
    if sorts {
      list, ys := SortAgain(m, Complex, list, c, next0, zs, xs);
    }
  }

  /** One of the two sorts, with what it leaves alone. */
  method SortAgain(m: Lists, cmp: Cmp, list0: int, ghost c: Cells, ghost next0: map<int, int>, ghost zs: seq<int>,
                   ghost xs: seq<int>)
    returns (list: int, ghost ys: seq<int>)
    requires At0(m, zs, list0) && c == m.C() && |xs| >= 3 && multiset(zs) == multiset(xs) && NextKept(next0, m.next, xs)
    modifies m`next, m`data16, m`crc, m`crcState, m`crcMatrix, m`computed
    ensures At0(m, ys, list) && multiset(ys) == multiset(xs) && |ys| == |xs| && m.info == old(m.info)
            && m.idx == old(m.idx)
    ensures InOrder(cmp, m.C(), zs, ys) && AllFixed(cmp, m.C(), ys) && Evolves(cmp, c, m.C())
    ensures NextKept(next0, m.next, xs) && DataKept(c, m.C(), xs)
  {
    hide AllFixed, Evolves, List, HasItems, DataOk, InOrder, NextKept, DataKept;
    ghost var next1 := m.next;
    SameLength(zs, xs);
    list, ys := m.MergeSort(cmp, list0, zs);
    ItemsSame(m.C(), zs, ys);
    NextKeptMembers(next1, m.next, zs, xs);
    NextKeptTrans(next0, next1, m.next, xs);
    DataKeptMembers(c, m.C(), zs, xs);
  }

  /** The find loop. */
  method FindItems(m: Lists, finderIdx: int, findNum: int, stale: int, list0: int, ghost xs: seq<int>)
    returns (retval: int, list: int, infoIdx: int, data: int, ghost ys: seq<int>, ghost f: Finds)
    requires At0(m, xs, list0) && |xs| >= 3
    modifies m`next
    ensures At0(m, ys, list) && multiset(ys) == multiset(xs) && |ys| == |xs| && NextKept(old(m.next), m.next, xs)
    ensures f == FindLoop(m.C(), xs, finderIdx, stale, if findNum > 0 then findNum else 0)
    ensures f.list == ys && f.idx == infoIdx && f.data == data && retval == (f.sum + f.found * 4 - f.missed) % 0x1_0000
  {
    hide List, HasItems, DataOk, NextKept, RoundList, RoundBit, Hits;
    ghost var c0, next0 := m.C(), m.next;
    NextKeptSelf(next0, xs);
    var found, missed, i := 0, 0, 0;
    list, infoIdx, data, retval := list0, finderIdx, stale, 0;
    ys, f := xs, FindLoop(c0, xs, finderIdx, stale, 0);
    while i < findNum
      invariant At0(m, ys, list) && multiset(ys) == multiset(xs) && |ys| == |xs| && m.C() == c0
                && NextKept(next0, m.next, xs)
      invariant 0 <= i && (findNum > 0 ==> i <= findNum) && (findNum <= 0 ==> i == 0)
      invariant f == FindLoop(c0, xs, finderIdx, stale, i) && f == Finds(ys, infoIdx, data, retval, found, missed)
    {
      var hit, bit;
      ghost var zs, next1 := ys, m.next;
      data := i % 256;
      list, hit, bit, ys := FindRound(m, list, infoIdx, data, zs);
      NextKeptMembers(next1, m.next, zs, xs);
      NextKeptTrans(next0, next1, m.next, xs);
      f := NextFind(c0, f, i);
      if hit {
        found := found + 1;
      } else {
        missed := missed + 1;
      }
      retval := (retval + bit) % 0x1_0000;
      if infoIdx >= 0 {
        infoIdx := if infoIdx == 0x7FFF then -0x8000 else infoIdx + 1;
      }
      i := i + 1;
    }
    retval := (retval + found * 4 - missed) % 0x1_0000;
  }

  lemma DataKeptSelf(c: Cells, xs: seq<int>)
    ensures DataKept(c, c, xs)
  {
  }

  lemma EvolvesSelf(cmp: Cmp, c: Cells)
    ensures Evolves(cmp, c, c)
  {
  }

  lemma {:induction false} Restored(c0: Cells, c1: Cells, c2: Cells, next: map<int, int>, xs: seq<int>, zs: seq<int>,
                                    ys: seq<int>)
    requires Evolves(Complex, c0, c1) && Evolves(ByIdx, c1, c2) && HasItems(c0, xs)
    requires List(next, ys) && multiset(ys) == multiset(xs) && InOrder(ByIdx, c2, zs, ys) && AllFixed(ByIdx, c2, ys)
    requires Increasing(c0, xs) && AllFixed(ByIdx, c0, xs)
    ensures ys == xs && forall i :: 0 <= i < |xs| ==> Data(c2, xs[i]) == Data(c0, xs[i])
  {
    assert Increasing(c2, xs) by {
      hide FixedValue;
      forall i, j | 0 <= i < j < |xs| ensures Idx(c2, xs[i]) < Idx(c2, xs[j]) {
        assert Idx(c2, xs[i]) == Idx(c0, xs[i]) && Idx(c2, xs[j]) == Idx(c0, xs[j]);
      }
    }
    OrderByIdxStrict(c2, xs, zs, ys);
    SortedUnique(c2, xs, ys);
    hide Evolves, Fixed, Data;
    forall i | 0 <= i < |xs| ensures Data(c2, xs[i]) == Data(c0, xs[i]) {
      DataRestored(c0, c1, c2, xs[i]);
    }
  }

  /** The data pointers of two nodes exchanged. */
  function Exchanged(c: Cells, a: int, b: int): Cells
    requires a in c.info && b in c.info
  {
    c.(info := c.info[a := c.info[b]][b := c.info[a]])
  }

  /** How many nodes the walk after the removal visits: from the first match on, or from the second node. */
  ghost function WalkLength(c: Cells, xs: seq<int>, idx: int, data: int): nat
    requires |xs| >= 3 && HasItems(c, xs)
  {
    var c', ys := Exchanged(c, xs[1], xs[2]), WithoutThird(xs);
    |ys| - if Hits(c', ys, idx, data) then HitAt(c', ys, idx, data) else 1
  }

  /** Without a match the walk visits all of the shortened list but its head, otherwise all from the match on. */
  lemma {:induction false} WalkLengthIs(c: Cells, xs: seq<int>, idx: int, data: int)
    requires |xs| >= 3 && HasItems(c, xs)
    ensures var c', ys := Exchanged(c, xs[1], xs[2]), WithoutThird(xs);
            && ((forall i :: 0 <= i < |ys| ==> !Matches(c', ys[i], idx, data)) ==>
                  WalkLength(c, xs, idx, data) == |xs| - 2)
            && (forall k: nat :: FirstMatch(c', ys, idx, data, k) ==> WalkLength(c, xs, idx, data) == |xs| - 1 - k)
  {
    var c', ys := Exchanged(c, xs[1], xs[2]), WithoutThird(xs);
    hide Matches, FirstMatch, Hits;
    if forall i :: 0 <= i < |ys| ==> !Matches(c', ys[i], idx, data) {
      NoHit(c', ys, idx, data);
    }
    forall k: nat | FirstMatch(c', ys, idx, data, k) ensures WalkLength(c, xs, idx, data) == |xs| - 1 - k {
      HitUnique(c', ys, idx, data, k);
    }
  }

  /** The middle part: a removal, a walk over the shortened list, and the removal undone. */
  method RemoveAndUndo(m: Lists, list: int, infoIdx: int, data: int, crc16: (int, int) -> int, retval0: int,
                       ghost xs: seq<int>)
    returns (retval: int)
    requires At0(m, xs, list) && |xs| >= 3
    modifies m`next, m`info
    ensures At0(m, xs, list) && m.info == old(m.info) && NextKept(old(m.next), m.next, xs)
    ensures retval == CrcTimes(crc16, Data(m.C(), xs[0]), retval0, WalkLength(m.C(), xs, infoIdx, data))
  {
    ListNext(m.next, xs, 0);
    ghost var c, ys, next0 := m.C(), WithoutThird(xs), m.next;
    var remover := Remove(m, m.next[list], xs);
    ghost var c', next1 := m.C(), m.next;
    SwappedItems(c, xs, m.info);
    HeadSame(c, xs);
    hide List, HasItems, NextKept, FirstMatch, Hits, Data, CrcTimes;
    var finder := Find(m, list, infoIdx, data, ys);
    ListNext(m.next, ys, 0);
    ghost var start: nat := 1;
    if finder == NULL {
      finder := m.next[list];
      NoHit(c', ys, infoIdx, data);
    } else {
      start :| start < |ys| && FirstMatch(c', ys, infoIdx, data, start) && finder == ys[start];
      HitUnique(c', ys, infoIdx, data, start);
    }
    retval := CrcFrom(m, list, finder, crc16, retval0, ys, start);
    ListNext(m.next, ys, 0);
    UndoRemove(m, remover, m.next[list], xs);
    NextKeptTrans(next0, next1, m.next, xs);
    InfoRestored(c.info, xs[1], xs[2]);
  }

  /** The removal leaves the data of the head alone. */
  lemma HeadSame(c: Cells, xs: seq<int>)
    requires HasItems(c, xs) && |xs| >= 3 && NoDup(xs)
    ensures xs[1] in c.info && xs[2] in c.info && Data(Exchanged(c, xs[1], xs[2]), xs[0]) == Data(c, xs[0])
  {
    assert xs[0] != xs[1] && xs[0] != xs[2];
  }

  lemma {:induction false} SwappedItems(c: Cells, xs: seq<int>, info': map<int, int>)
    requires HasItems(c, xs) && |xs| >= 3 && NoDup(xs)
    requires xs[1] in c.info && xs[2] in c.info && info' == c.info[xs[1] := c.info[xs[2]]][xs[2] := c.info[xs[1]]]
    ensures HasItems(c.(info := info'), WithoutThird(xs)) && xs[1] in info' && xs[2] in info'
  {
    var ys := WithoutThird(xs);
    forall i | 0 <= i < |ys| ensures ys[i] in info' && info'[ys[i]] in c.data16 && info'[ys[i]] in c.idx {
      assert ys[i] == xs[if i < 2 then i else i + 1];
    }
  }

  /** The checksum of value x taken k times. */
  function CrcTimes(crc16: (int, int) -> int, x: int, retval: int, k: nat): int {
    if k == 0 then retval else crc16(x, CrcTimes(crc16, x, retval, k - 1))
  }

  /** Each step of the walk feeds the value and the checksum so far to the next. */
  lemma {:induction false} CrcTimesNext(crc16: (int, int) -> int, x: int, retval: int, k: nat)
    ensures CrcTimes(crc16, x, retval, 0) == retval
    ensures CrcTimes(crc16, x, retval, k + 1) == CrcTimes(crc16, x, crc16(x, retval), k)
    decreases k
  {
    if k > 0 {
      CrcTimesNext(crc16, x, retval, k - 1);
    }
  }

  /** Both checksum loops: one step per node from `finder` on, always over the data of the head. */
  method CrcFrom(m: Lists, list: int, finder0: int, crc16: (int, int) -> int, retval0: int, ghost xs: seq<int>,
                 ghost start: nat)
    returns (retval: int)
    requires List(m.next, xs) && xs != [] && list == xs[0] && HasItems(m.C(), xs)
    requires start <= |xs| && finder0 == At(xs, start)
    ensures retval == CrcTimes(crc16, Data(m.C(), list), retval0, |xs| - start)
  {
    retval := retval0;
    var finder := finder0;
    ghost var k := start;
    while finder != NULL
      invariant start <= k <= |xs| && finder == At(xs, k)
      invariant retval == CrcTimes(crc16, Data(m.C(), list), retval0, k - start)
      decreases |xs| - k
    {
      retval := crc16(m.data16[m.info[list]], retval);
      ListNext(m.next, xs, k);
      finder := m.next[finder];
      k := k + 1;
    }
  }

  method CrcList(m: Lists, list: int, crc16: (int, int) -> int, retval0: int, ghost xs: seq<int>) returns (retval: int)
    requires List(m.next, xs) && xs != [] && list == xs[0] && HasItems(m.C(), xs)
    ensures retval == CrcTimes(crc16, Data(m.C(), list), retval0, |xs| - 1)
  {
    ListNext(m.next, xs, 0);
    retval := CrcFrom(m, list, m.next[list], crc16, retval0, xs, 1);
  }
}
