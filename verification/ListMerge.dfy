/** Merging runs of list nodes whose keys are computed, and fixed, by the comparisons themselves.

    A comparison may change the data of the two nodes it looks at, but never the key of a node
    compared before. The lemmas here say why a bottom-up merge sort is still a stable sort by the
    final keys.
 */
module ListMerge {

  /** The two comparators of core_list_join.c: cmp_complex, and cmp_idx with a null result. */
  datatype Cmp = Complex | ByIdx

  /** Data of the nodes: `info` from node to data item, and the two fields of a data item. Data
      is a 16-bit pattern, 0..65535. */
  datatype Cells = Cells(info: map<int, int>, data16: map<int, int>, idx: map<int, int>)

  function Item(c: Cells, n: int): int { if n in c.info then c.info[n] else 0 }
  function Data(c: Cells, n: int): int { if Item(c, n) in c.data16 then c.data16[Item(c, n)] else 0 }
  function Idx(c: Cells, n: int): int { if Item(c, n) in c.idx then c.idx[Item(c, n)] else 0 }

  /** A value the comparator has already prepared: cached (bit 7), or regenerated (both bytes equal). */
  predicate FixedValue(cmp: Cmp, v: int) {
    if cmp == Complex then v / 128 % 2 == 1 else v % 256 == v / 256
  }

  predicate Fixed(cmp: Cmp, c: Cells, n: int) { FixedValue(cmp, Data(c, n)) }

  /** What the comparator orders by. */
  function Key(cmp: Cmp, c: Cells, n: int): int {
    if cmp == Complex then Data(c, n) % 128 else Idx(c, n)
  }

  /** What comparisons may do to the data: high bytes stay, prepared values stay. */
  ghost predicate Evolves(cmp: Cmp, c: Cells, c': Cells) {
    && c'.info == c.info && c'.idx == c.idx && c'.data16.Keys == c.data16.Keys
    && forall d :: d in c.data16 ==> c'.data16[d] / 256 == c.data16[d] / 256
                                     && (FixedValue(cmp, c.data16[d]) ==> c'.data16[d] == c.data16[d])
  }

  lemma EvolvesFixed(cmp: Cmp, c: Cells, c': Cells, n: int)
    requires Evolves(cmp, c, c') && Fixed(cmp, c, n)
    ensures Fixed(cmp, c', n) && Key(cmp, c', n) == Key(cmp, c, n)
  {
  }

  lemma EvolvesTrans(cmp: Cmp, c: Cells, c': Cells, c'': Cells)
    requires Evolves(cmp, c, c') && Evolves(cmp, c', c'')
    ensures Evolves(cmp, c, c'')
  {
  }

  // ---------------------------------------------------------------- order

  /** Place of x in xs, |xs| when absent. */
  function Position(xs: seq<int>, x: int): nat {
    if xs == [] then 0 else if xs[0] == x then 0 else 1 + Position(xs[1..], x)
  }

  /** x belongs before y: smaller key, or the same key and earlier in the original list xs. */
  predicate Before(cmp: Cmp, c: Cells, xs: seq<int>, x: int, y: int) {
    Key(cmp, c, x) < Key(cmp, c, y) || (Key(cmp, c, x) == Key(cmp, c, y) && Position(xs, x) < Position(xs, y))
  }

  ghost predicate AllBefore(cmp: Cmp, c: Cells, xs: seq<int>, a: seq<int>, b: seq<int>) {
    forall i, j :: 0 <= i < |a| && 0 <= j < |b| ==> Before(cmp, c, xs, a[i], b[j])
  }

  ghost predicate InOrder(cmp: Cmp, c: Cells, xs: seq<int>, a: seq<int>) {
    forall i, j :: 0 <= i < j < |a| ==> Before(cmp, c, xs, a[i], a[j])
  }

  ghost predicate AllFixed(cmp: Cmp, c: Cells, a: seq<int>) {
    forall i :: 0 <= i < |a| ==> Fixed(cmp, c, a[i])
  }

  /** Positions of a all precede positions of b. */
  ghost predicate Earlier(xs: seq<int>, a: seq<int>, b: seq<int>) {
    forall i, j :: 0 <= i < |a| && 0 <= j < |b| ==> Position(xs, a[i]) < Position(xs, b[j])
  }

  /** A run: in order, and beyond one node with all keys fixed. */
  ghost predicate RunOk(cmp: Cmp, c: Cells, xs: seq<int>, a: seq<int>) {
    InOrder(cmp, c, xs, a) && (|a| >= 2 ==> AllFixed(cmp, c, a))
  }

  lemma {:induction false} RunEvolves(cmp: Cmp, c: Cells, c': Cells, xs: seq<int>, a: seq<int>)
    requires Evolves(cmp, c, c') && RunOk(cmp, c, xs, a)
    ensures RunOk(cmp, c', xs, a)
  {
    hide Position, Key, Evolves, Fixed;
    if |a| >= 2 {
      forall i | 0 <= i < |a| ensures Fixed(cmp, c', a[i]) && Key(cmp, c', a[i]) == Key(cmp, c, a[i]) {
        EvolvesFixed(cmp, c, c', a[i]);
      }
    }
  }

  // ---------------------------------------------------------------- one merge

  /** State of a merge: `cur` is done, `ps` and `qs` remain, `two` says there was a second run. */
  ghost predicate MergeInv(cmp: Cmp, c: Cells, xs: seq<int>, cur: seq<int>, ps: seq<int>, qs: seq<int>, two: bool) {
    && InOrder(cmp, c, xs, cur) && RunOk(cmp, c, xs, ps) && RunOk(cmp, c, xs, qs)
    && AllBefore(cmp, c, xs, cur, ps) && AllBefore(cmp, c, xs, cur, qs)
    && Earlier(xs, ps, qs)
    && (two && cur != [] ==> AllFixed(cmp, c, cur) && AllFixed(cmp, c, ps) && AllFixed(cmp, c, qs))
    && (!two ==> qs == [] && (|cur| + |ps| >= 2 ==> AllFixed(cmp, c, cur) && AllFixed(cmp, c, ps)))
  }

  lemma {:induction false} MergeStart(cmp: Cmp, c: Cells, xs: seq<int>, ps: seq<int>, qs: seq<int>)
    requires RunOk(cmp, c, xs, ps) && RunOk(cmp, c, xs, qs) && Earlier(xs, ps, qs)
    ensures MergeInv(cmp, c, xs, [], ps, qs, qs != [])
  {
    hide Position, Key, Fixed;
  }

  /** Comparing the two heads prepares them, and with them everything in this merge. */
  lemma {:induction false} MergeCompared(cmp: Cmp, c: Cells, c': Cells, xs: seq<int>, cur: seq<int>, ps: seq<int>,
                                         qs: seq<int>)
    requires MergeInv(cmp, c, xs, cur, ps, qs, true) && ps != [] && qs != []
    requires Evolves(cmp, c, c') && Fixed(cmp, c', ps[0]) && Fixed(cmp, c', qs[0])
    ensures MergeInv(cmp, c', xs, cur, ps, qs, true)
    ensures AllFixed(cmp, c', cur) && AllFixed(cmp, c', ps) && AllFixed(cmp, c', qs)
  {
    hide Position, Key, Evolves, Fixed;
    RunEvolves(cmp, c, c', xs, ps);
    RunEvolves(cmp, c, c', xs, qs);
    if cur != [] {
      KeysKept(cmp, c, c', cur);
      KeysKept(cmp, c, c', ps);
      KeysKept(cmp, c, c', qs);
    }
  }

  lemma {:induction false} KeysKept(cmp: Cmp, c: Cells, c': Cells, a: seq<int>)
    requires Evolves(cmp, c, c') && AllFixed(cmp, c, a)
    ensures AllFixed(cmp, c', a) && forall i :: 0 <= i < |a| ==> Key(cmp, c', a[i]) == Key(cmp, c, a[i])
  {
    hide Evolves, Key, Fixed;
    forall i | 0 <= i < |a| ensures Fixed(cmp, c', a[i]) && Key(cmp, c', a[i]) == Key(cmp, c, a[i]) {
      EvolvesFixed(cmp, c, c', a[i]);
    }
  }

  /** The first run gives the next node: the second is used up, or its head is not smaller. */
  lemma {:induction false} MergeTakeP(cmp: Cmp, c: Cells, xs: seq<int>, cur: seq<int>, ps: seq<int>, qs: seq<int>,
                                      two: bool)
    requires MergeInv(cmp, c, xs, cur, ps, qs, two) && ps != []
    requires qs != [] ==> Key(cmp, c, ps[0]) <= Key(cmp, c, qs[0]) && AllFixed(cmp, c, ps) && AllFixed(cmp, c, qs)
    requires two && qs == [] ==> cur != []
    ensures MergeInv(cmp, c, xs, cur + [ps[0]], ps[1..], qs, two)
  {
    hide Position, Key, Fixed;
    var e, cur', ps' := ps[0], cur + [ps[0]], ps[1..];
    assert forall i :: 0 <= i < |ps'| ==> ps'[i] == ps[i + 1];
    forall j | 0 <= j < |qs| ensures Before(cmp, c, xs, e, qs[j]) {
      assert j > 0 ==> Before(cmp, c, xs, qs[0], qs[j]);
    }
    TakeKeeps(cmp, c, xs, cur, ps);
    forall i, j | 0 <= i < |cur'| && 0 <= j < |qs| ensures Before(cmp, c, xs, cur'[i], qs[j]) {
    }
  }

  /** Moving the head of a run to the end of what is done. */
  lemma {:induction false} TakeKeeps(cmp: Cmp, c: Cells, xs: seq<int>, cur: seq<int>, ps: seq<int>)
    requires InOrder(cmp, c, xs, cur) && InOrder(cmp, c, xs, ps) && AllBefore(cmp, c, xs, cur, ps) && ps != []
    ensures InOrder(cmp, c, xs, cur + [ps[0]]) && InOrder(cmp, c, xs, ps[1..])
            && AllBefore(cmp, c, xs, cur + [ps[0]], ps[1..])
  {
    hide Position, Key, Before;
    var cur', ps' := cur + [ps[0]], ps[1..];
    assert forall i :: 0 <= i < |ps'| ==> ps'[i] == ps[i + 1];
  }

  /** The second run gives the next node: the first is used up, or its head is greater. */
  lemma {:induction false} MergeTakeQ(cmp: Cmp, c: Cells, xs: seq<int>, cur: seq<int>, ps: seq<int>, qs: seq<int>)
    requires MergeInv(cmp, c, xs, cur, ps, qs, true) && qs != []
    requires ps != [] ==>
               Key(cmp, c, qs[0]) < Key(cmp, c, ps[0]) && AllFixed(cmp, c, cur) && AllFixed(cmp, c, ps)
                   && AllFixed(cmp, c, qs)
    requires ps == [] ==> cur != []
    ensures MergeInv(cmp, c, xs, cur + [qs[0]], ps, qs[1..], true)
  {
    hide Position, Key, Fixed;
    var e, cur', qs' := qs[0], cur + [qs[0]], qs[1..];
    assert forall i :: 0 <= i < |qs'| ==> qs'[i] == qs[i + 1];
    forall j | 0 <= j < |ps| ensures Before(cmp, c, xs, e, ps[j]) {
      assert j > 0 ==> Before(cmp, c, xs, ps[0], ps[j]);
    }
    TakeKeeps(cmp, c, xs, cur, qs);
    forall i, j | 0 <= i < |cur'| && 0 <= j < |ps| ensures Before(cmp, c, xs, cur'[i], ps[j]) {
    }
  }

  lemma {:induction false} MergeDone(cmp: Cmp, c: Cells, xs: seq<int>, cur: seq<int>, two: bool)
    requires MergeInv(cmp, c, xs, cur, [], [], two)
    ensures RunOk(cmp, c, xs, cur)
  {
    hide Position, Key, Fixed;
  }
}
