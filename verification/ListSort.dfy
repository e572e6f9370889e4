/** core_list_join.c: the linked list in memory, its comparators and its merge sort. */
module ListSort {
  import opened Common
  import opened ListMerge
  import opened ListRuns

  ghost predicate DataOk(data16: map<int, int>) {
    forall d :: d in data16 ==> 0 <= data16[d] < 0x1_0000
  }

  /** Every node of xs has a data item. */
  ghost predicate HasItems(c: Cells, xs: seq<int>) {
    forall i :: 0 <= i < |xs| ==> xs[i] in c.info && c.info[xs[i]] in c.data16 && c.info[xs[i]] in c.idx
  }

  /** Entries of the log from `mark` on: no data item twice, and all cached by now. */
  ghost predicate Once(computed: seq<int>, mark: nat, data16: map<int, int>) {
    && mark <= |computed|
    && (forall i, j :: mark <= i < j < |computed| ==> computed[i] != computed[j])
    && (forall i :: mark <= i < |computed| ==> computed[i] in data16 && FixedValue(Complex, data16[computed[i]]))
  }

  lemma OnceMore(computed: seq<int>, mark: nat, data16: map<int, int>, d: int, v: int)
    requires Once(computed, mark, data16) && d in data16 && !FixedValue(Complex, data16[d]) && FixedValue(Complex, v)
    ensures Once(computed + [d], mark, data16[d := v])
  {
    hide FixedValue;
  }

  /** Nodes outside xs point where they did. */
  ghost predicate NextKept(next: map<int, int>, next': map<int, int>, xs: seq<int>) {
    forall n :: n in next && n !in xs ==> n in next' && next'[n] == next[n]
  }

  ghost predicate ItemOf(c: Cells, xs: seq<int>, d: int) {
    exists i :: 0 <= i < |xs| && Item(c, xs[i]) == d
  }

  /** Data items of no node of xs are as they were. */
  ghost predicate DataKept(c: Cells, c': Cells, xs: seq<int>) {
    forall d :: d in c.data16 && !ItemOf(c, xs, d) ==> d in c'.data16 && c'.data16[d] == c.data16[d]
  }

  lemma NextKeptSelf(next: map<int, int>, xs: seq<int>)
    ensures NextKept(next, next, xs)
  {
  }

  lemma NextKeptStore(n0: map<int, int>, n1: map<int, int>, a: int, v: int, xs: seq<int>)
    requires NextKept(n0, n1, xs) && a in xs
    ensures NextKept(n0, n1[a := v], xs)
  {
  }

  lemma NextKeptTrans(n0: map<int, int>, n1: map<int, int>, n2: map<int, int>, xs: seq<int>)
    requires NextKept(n0, n1, xs) && NextKept(n1, n2, xs)
    ensures NextKept(n0, n2, xs)
  {
  }

  lemma {:induction false} DataKeptTrans(c0: Cells, c1: Cells, c2: Cells, xs: seq<int>)
    requires DataKept(c0, c1, xs) && DataKept(c1, c2, xs) && c1.info == c0.info
    ensures DataKept(c0, c2, xs)
  {
    forall d | d in c0.data16 && !ItemOf(c0, xs, d) ensures d in c2.data16 && c2.data16[d] == c0.data16[d] {
      assert ItemOf(c1, xs, d) ==> ItemOf(c0, xs, d);
    }
  }

  /** Comparing two nodes of xs touches only data of xs. */
  lemma {:induction false} DataKeptTwo(c: Cells, c': Cells, p: int, q: int, xs: seq<int>)
    requires DataKept(c, c', [p, q]) && p in xs && q in xs
    ensures DataKept(c, c', xs)
  {
    forall d | d in c.data16 && !ItemOf(c, xs, d) ensures d in c'.data16 && c'.data16[d] == c.data16[d] {
      ItemOfTwo(c, p, q, xs, d);
    }
  }

  lemma {:induction false} ItemOfTwo(c: Cells, p: int, q: int, xs: seq<int>, d: int)
    requires p in xs && q in xs
    ensures ItemOf(c, [p, q], d) ==> ItemOf(c, xs, d)
  {
    if ItemOf(c, [p, q], d) {
      var i :| 0 <= i < 2 && Item(c, [p, q][i]) == d;
      var n := [p, q][i];
      var j :| 0 <= j < |xs| && xs[j] == n;
    }
  }

  lemma {:induction false} DataKeptPair(c: Cells, c': Cells, p: int, q: int)
    requires forall d :: d in c.data16 && d != Item(c, p) && d != Item(c, q) ==>
               d in c'.data16 && c'.data16[d] == c.data16[d]
    ensures DataKept(c, c', [p, q])
  {
    forall d | d in c.data16 && !ItemOf(c, [p, q], d) ensures d != Item(c, p) && d != Item(c, q) {
      assert [p, q][0] == p && [p, q][1] == q;
    }
  }

  /** (data & 0xff00) | 0x0080 | v, for 7-bit v. */
  function CacheValue(data: int, v: int): int {
    data / 256 * 256 + 128 + v % 128
  }

  /** (data & 0xff00) | (0x00ff & (data >> 8)) */
  function Regenerate(data: int): int {
    data / 256 * 256 + data / 256 % 256
  }

  lemma CacheValueFixes(data: int, v: int)
    requires 0 <= data < 0x1_0000
    ensures 0 <= CacheValue(data, v) < 0x1_0000 && FixedValue(Complex, CacheValue(data, v))
    ensures CacheValue(data, v) / 256 == data / 256 && CacheValue(data, v) % 128 == v % 128
  {
  }

  lemma RegenerateFixes(data: int)
    requires 0 <= data < 0x1_0000
    ensures 0 <= Regenerate(data) < 0x1_0000 && FixedValue(ByIdx, Regenerate(data))
    ensures Regenerate(data) / 256 == data / 256 && (FixedValue(ByIdx, data) ==> Regenerate(data) == data)
  {
  }

  /** Storing a prepared value with the same high byte is what Evolves allows. */
  lemma EvolvesStore(cmp: Cmp, c: Cells, d: int, v: int)
    requires d in c.data16 && v / 256 == c.data16[d] / 256 && (FixedValue(cmp, c.data16[d]) ==> v == c.data16[d])
    ensures Evolves(cmp, c, c.(data16 := c.data16[d := v]))
  {
    hide FixedValue;
  }

  class Lists {
    // Fields of struct list_head by node, fields of struct list_data by data item.
    var next: map<int, int>
    var info: map<int, int>
    var data16: map<int, int>
    var idx: map<int, int>

    // The part of core_results the comparators use.
    var crc: int
    var crcState: int
    var crcMatrix: int

    // core_bench_state, core_bench_matrix and crcu16: they work on other memory.
    const benchState: (int, int) -> int
    const benchMatrix: (int, int) -> int
    const crcu16: (int, int) -> int

    // Every data item calc_func computed a value for, in order.
    ghost var computed: seq<int>

    ghost function C(): Cells
      reads this
    {
      Cells(info, data16, idx)
    }

    constructor (benchState: (int, int) -> int, benchMatrix: (int, int) -> int, crcu16: (int, int) -> int)
      ensures next == map[] && info == map[] && data16 == map[] && idx == map[] && computed == []
    {
      this.benchState, this.benchMatrix, this.crcu16 := benchState, benchMatrix, crcu16;
      next, info, data16, idx, computed := map[], map[], map[], map[], [];
    }

    /** calc_func: a cached value is returned as it is; otherwise it is computed and cached. */
    method CalcFunc(d: int, ghost mark: nat) returns (v: int)
      requires d in data16 && DataOk(data16) && Once(computed, mark, data16)
      modifies this`data16, this`crc, this`crcState, this`crcMatrix, this`computed
      ensures DataOk(data16) && Evolves(Complex, old(C()), C()) && Once(computed, mark, data16)
      ensures d in data16 && FixedValue(Complex, data16[d]) && v == data16[d] % 128
      ensures |computed| == |old(computed)| <==> FixedValue(Complex, old(data16)[d])
      ensures FixedValue(Complex, old(data16)[d]) ==>
                data16 == old(data16) && crc == old(crc) && crcState == old(crcState) && crcMatrix == old(crcMatrix)
      ensures !FixedValue(Complex, old(data16)[d]) && old(data16)[d] % 8 == 0 ==>
                var g := old(data16)[d] / 8 % 16;
                var step := if g < 3 then 0x22 else 0x11 * g;
                var w := benchState(step, old(crc));
                && step >= 0x22
                && data16 == old(data16)[d := CacheValue(old(data16)[d], w)] && crc == crcu16(w, old(crc))
                && crcState == (if old(crcState) == 0 then w else old(crcState)) && crcMatrix == old(crcMatrix)
      ensures !FixedValue(Complex, old(data16)[d]) && old(data16)[d] % 8 == 1 ==>
                var w := benchMatrix(0x11 * (old(data16)[d] / 8 % 16), old(crc));
                && data16 == old(data16)[d := CacheValue(old(data16)[d], w)] && crc == crcu16(w, old(crc))
                && crcMatrix == (if old(crcMatrix) == 0 then w else old(crcMatrix)) && crcState == old(crcState)
      ensures !FixedValue(Complex, old(data16)[d]) && old(data16)[d] % 8 >= 2 ==>
                var w := old(data16)[d];
                && data16 == old(data16)[d := CacheValue(w, w)] && crc == crcu16(w, old(crc))
                && crcState == old(crcState) && crcMatrix == old(crcMatrix)
    {
      var data := data16[d];
      if data / 128 % 2 == 1 {
        return data % 128;
      }
      var flag, dtype := data % 8, data / 8 % 16;
      dtype := dtype * 16 + dtype;
      var retval;
      if flag == 0 {
        if dtype < 0x22 {
          dtype := 0x22;
        }
        retval := benchState(dtype, crc);
        if crcState == 0 {
          crcState := retval;
        }
      } else if flag == 1 {
        retval := benchMatrix(dtype, crc);
        if crcMatrix == 0 {
          crcMatrix := retval;
        }
      } else {
        retval := data;
      }
      crc := crcu16(retval, crc);
      CacheValueFixes(data, retval);
      OnceMore(computed, mark, data16, d, CacheValue(data, retval));
      EvolvesStore(Complex, C(), d, CacheValue(data, retval));
      hide Evolves, Once;
      data16 := data16[d := CacheValue(data, retval)];
      computed := computed + [d];
      return retval % 128;
    }

    /** cmp_idx on a null result: regenerate both items, compare by index. */
    method CompareIdx(a: int, b: int) returns (r: int)
      requires a in data16 && b in data16 && a in idx && b in idx && DataOk(data16)
      modifies this`data16
      ensures DataOk(data16) && Evolves(ByIdx, old(C()), C())
      ensures a in data16 && b in data16 && FixedValue(ByIdx, data16[a]) && FixedValue(ByIdx, data16[b])
      ensures r == idx[a] - idx[b]
      ensures data16 == old(data16)[a := Regenerate(old(data16)[a])][b := Regenerate(old(data16)[b])]
    {
      ghost var c0 := C();
      RegenerateFixes(data16[a]);
      EvolvesStore(ByIdx, c0, a, Regenerate(data16[a]));
      data16 := data16[a := Regenerate(data16[a])];
      ghost var c1 := C();
      RegenerateFixes(data16[b]);
      EvolvesStore(ByIdx, c1, b, Regenerate(data16[b]));
      data16 := data16[b := Regenerate(data16[b])];
      EvolvesTrans(ByIdx, c0, c1, C());
      return idx[a] - idx[b];
    }

    /** cmp_complex: the value of each item, computed and cached where needed. */
    method CompareComplex(a: int, b: int, ghost mark: nat) returns (r: int)
      requires a in data16 && b in data16 && DataOk(data16) && Once(computed, mark, data16)
      modifies this`data16, this`crc, this`crcState, this`crcMatrix, this`computed
      ensures DataOk(data16) && Evolves(Complex, old(C()), C()) && Once(computed, mark, data16)
      ensures a in data16 && b in data16 && FixedValue(Complex, data16[a]) && FixedValue(Complex, data16[b])
      ensures r == data16[a] % 128 - data16[b] % 128
      ensures forall d :: d in old(data16) && d != a && d != b ==> d in data16 && data16[d] == old(data16)[d]
    {
      ghost var c0 := C();
      var v1 := CalcFunc(a, mark);
      ghost var c1 := C();
      assert b in c1.data16;
      var v2 := CalcFunc(b, mark);
      EvolvesTrans(Complex, c0, c1, C());
      return v1 - v2;
    }

    /** A call through the comparator pointer: afterwards both nodes are prepared, and the sign of r
        orders them by what is now their key. */
    method Compare(cmp: Cmp, p: int, q: int, ghost mark: nat) returns (r: int)
      requires HasItems(C(), [p, q]) && DataOk(data16) && (cmp == Complex ==> Once(computed, mark, data16))
      modifies this`data16, this`crc, this`crcState, this`crcMatrix, this`computed
      ensures DataOk(data16) && Evolves(cmp, old(C()), C()) && (cmp == Complex ==> Once(computed, mark, data16))
      ensures Fixed(cmp, C(), p) && Fixed(cmp, C(), q) && r == Key(cmp, C(), p) - Key(cmp, C(), q)
      ensures cmp == ByIdx ==> computed == old(computed)
      ensures DataKept(old(C()), C(), [p, q])
    {
      assert [p, q][0] == p && [p, q][1] == q;
      ghost var c := C();
      hide DataKept, Evolves, Once;
      if cmp == Complex {
        r := CompareComplex(info[p], info[q], mark);
      } else {
        r := CompareIdx(info[p], info[q]);
      }
      DataKeptPair(c, C(), p, q);
    }

    // ------------------------------------------------------------ merge sort

    /** Which run gives the next node: the other one is used up, or the comparison says so. The
        second run wins only with a strictly smaller key. */
    method ChooseFirst(cmp: Cmp, p: int, q: int, psize: int, qsize: int, ghost mark: nat,
                       ghost xs: seq<int>, ghost cur: seq<int>, ghost ps: seq<int>, ghost qs: seq<int>,
                       ghost two: bool, ghost c0: Cells)
      returns (fromP: bool, ghost cur': seq<int>, ghost ps': seq<int>, ghost qs': seq<int>)
      requires MergeInv(cmp, C(), xs, cur, ps, qs, two) && (ps != [] || qs != [])
      requires two && (ps == [] || qs == []) ==> cur != []
      requires psize == |ps| && (psize > 0 ==> p == ps[0]) && (qsize == 0 || q == NULL <==> qs == [])
               && (qs != [] ==> q == qs[0] && two)
      requires Within(ps, xs) && Within(qs, xs) && Env(cmp, c0, C(), xs, computed, mark)
      modifies this`data16, this`crc, this`crcState, this`crcMatrix, this`computed
      ensures Took(fromP, cur, ps, qs, cur', ps', qs') && MergeInv(cmp, C(), xs, cur', ps', qs', two)
      ensures Env(cmp, c0, C(), xs, computed, mark) && (cmp == ByIdx ==> computed == old(computed))
    {
      hide Evolves, MergeInv, Once, DataOk, Key, Fixed, DataKept;
      EnvInfo(cmp, c0, C(), xs, computed, mark);
      ghost var c1 := C();
      if psize == 0 {
        MergeTakeQ(cmp, c1, xs, cur, ps, qs);
        fromP := false;
      } else if qsize == 0 || q == NULL {
        MergeTakeP(cmp, c1, xs, cur, ps, qs, two);
        fromP := true;
      } else {
        assert ps[0] in xs && qs[0] in xs;
        ItemsOfTwo(c1, xs, p, q);
        var r := Compare(cmp, p, q, mark);
        ItemsKept(cmp, c1, C(), xs);
        EvolvesTrans(cmp, c0, c1, C());
        DataKeptTwo(c1, C(), p, q, xs);
        DataKeptTrans(c0, c1, C(), xs);
        MergeCompared(cmp, c1, C(), xs, cur, ps, qs);
        if r <= 0 {
          MergeTakeP(cmp, C(), xs, cur, ps, qs, two);
        } else {
          MergeTakeQ(cmp, C(), xs, cur, ps, qs);
        }
        fromP := r <= 0;
      }
      if fromP {
        cur', ps', qs' := cur + [ps[0]], ps[1..], qs;
      } else {
        cur', ps', qs' := cur + [qs[0]], ps, qs[1..];
      }
    }

    /** Take the chosen node off its run and hang it behind the last one. */
    method Append(fromP: bool, list: int, tail: int, p: int, q: int, psize: int, qsize: int,
                  ghost out: seq<int>, ghost cur: seq<int>, ghost ps: seq<int>, ghost qs: seq<int>,
                  ghost rest: seq<int>,
                  ghost cur': seq<int>, ghost ps': seq<int>, ghost qs': seq<int>, ghost xs: seq<int>)
      returns (list': int, tail': int, p': int, q': int, psize': int, qsize': int)
      requires Cursor(next, out, cur, ps, qs, rest, list, tail, p, q, psize, qsize)
               && Took(fromP, cur, ps, qs, cur', ps', qs')
      requires (tail == NULL || tail in xs) && Within(ps, xs) && Within(qs, xs)
      modifies this`next
      ensures Cursor(next, out, cur', ps', qs', rest, list', tail', p', q', psize', qsize')
      ensures NextKept(old(next), next, xs) && tail' in xs
    {
      hide Pass;
      NonNull(next, out + cur, ps, qs + rest);
      list', p', q', psize', qsize' := list, p, q, psize, qsize;
      var e;
      if fromP {
        PassTakeP(next, out + cur, ps, qs + rest);
        TakenP(out, cur, ps, qs);
        e := p;
        p' := next[p];
        psize' := psize - 1;
      } else {
        PassTakeQ(next, out + cur, ps, qs + rest);
        TakenQ(out, cur, ps, qs, rest);
        e := q;
        q' := next[q];
        qsize' := qsize - 1;
      }
      hide Bag;
      if tail != NULL {
        next := next[tail := e];
      } else {
        list' := e;
      }
      tail' := e;
    }

    /** The inner merge loop: one merged run is hung behind `out`. */
    method MergeTwo(cmp: Cmp, p0: int, q0: int, psize0: int, qsize0: int, list0: int, tail0: int, ghost mark: nat,
                    ghost xs: seq<int>, ghost out: seq<int>, ghost ps0: seq<int>, ghost qs0: seq<int>,
                    ghost rest: seq<int>)
      returns (list: int, tail: int, q: int, ghost cur: seq<int>)
      requires Cursor(next, out, [], ps0, qs0, rest, list0, tail0, p0, q0, psize0, qsize0)
      requires RunOk(cmp, C(), xs, ps0) && RunOk(cmp, C(), xs, qs0) && Earlier(xs, ps0, qs0) && ps0 != []
      requires Within(ps0, xs) && Within(qs0, xs) && Env(cmp, C(), C(), xs, computed, mark)
               && (tail0 == NULL || tail0 in xs)
      modifies this`next, this`data16, this`crc, this`crcState, this`crcMatrix, this`computed
      ensures Pass(next, out + cur, [], rest) && list == At(out + cur, 0) && tail == At(out + cur, |out + cur| - 1)
              && q == At(rest, 0)
      ensures multiset(cur) == multiset(ps0 + qs0) && |cur| == |ps0| + |qs0| && RunOk(cmp, C(), xs, cur)
      ensures Env(cmp, old(C()), C(), xs, computed, mark) && (cmp == ByIdx ==> computed == old(computed))
      ensures NextKept(old(next), next, xs) && tail in xs
    {
      hide NextKept, Bag, At, MergeInv, RunOk, Cursor, Earlier, Env, Within, Took, Pass;
      var p, psize, qsize := p0, psize0, qsize0;
      list, tail, q, cur := list0, tail0, q0, [];
      ghost var ps, qs, two, c0, next0 := ps0, qs0, qs0 != [], C(), next;
      NextKeptSelf(next, xs);
      MergeStart(cmp, c0, xs, ps, qs);
      CursorGuard(next, out, cur, ps, qs, rest, list, tail, p, q, psize, qsize);
      BagStart(ps0, qs0);
      while psize > 0 || (qsize > 0 && q != NULL)
        invariant Cursor(next, out, cur, ps, qs, rest, list, tail, p, q, psize, qsize)
        invariant psize == |ps| && (psize > 0 ==> p == ps[0])
        invariant (qsize > 0 && q != NULL <==> qs != []) && (qsize == 0 || q == NULL <==> qs == [])
                  && (qs != [] ==> q == qs[0])
        invariant MergeInv(cmp, C(), xs, cur, ps, qs, two) && (two && (ps == [] || qs == []) ==> cur != [])
                  && (qs != [] ==> two)
        invariant Within(ps, xs) && Within(qs, xs) && Env(cmp, c0, C(), xs, computed, mark)
        invariant Bag(cur, ps, qs) == multiset(ps0 + qs0) && |cur| + |ps| + |qs| == |ps0| + |qs0|
        invariant cmp == ByIdx ==> computed == old(computed)
        invariant NextKept(next0, next, xs) && (if cur == [] then tail == NULL || tail in xs else tail in xs)
        decreases |ps| + |qs|
      {
        var fromP; ghost var cur', ps', qs';
        ghost var n1 := next;
        fromP, cur', ps', qs' := ChooseFirst(cmp, p, q, psize, qsize, mark, xs, cur, ps, qs, two, c0);
        list, tail, p, q, psize, qsize := Append(fromP, list, tail, p, q, psize, qsize, out, cur, ps, qs, rest, cur',
                                                 ps', qs', xs);
        TookKeeps(fromP, cur, ps, qs, cur', ps', qs', xs);
        NextKeptTrans(next0, n1, next, xs);
        cur, ps, qs := cur', ps', qs';
        CursorGuard(next, out, cur, ps, qs, rest, list, tail, p, q, psize, qsize);
      }
      CursorEnd(next, out, cur, rest, list, tail, p, q, psize, qsize);
      MergeDone(cmp, C(), xs, cur, two);
    }

    /** Step `insize` nodes along from p, or to the end of the list. */
    method StepAlong(p: int, insize: nat, ghost rem: seq<int>) returns (psize: int, q: int)
      requires List(next, rem) && rem != [] && p == rem[0] && insize > 0
      ensures psize == (if insize <= |rem| then insize else |rem|) && q == At(rem, psize)
    {
      q, psize := p, 0;
      var i := 0;
      while i < insize
        invariant 0 <= i <= insize && psize == i <= |rem| && q == At(rem, i) && (i < insize ==> i < |rem|)
      {
        psize := psize + 1;
        ListNext(next, rem, i);
        q := next[q];
        if q == NULL {
          assert i + 1 == |rem| by {
            assert List(next, rem);
          }
          break;
        }
        i := i + 1;
      }
    }

    /** One merge of a pass: the next one or two runs move, merged, to the output. */
    method MergeNext(cmp: Cmp, insize: nat, p: int, list: int, tail: int, ghost mark: nat,
                     ghost c0: Cells, ghost xs: seq<int>, ghost done: seq<seq<int>>, ghost todo: seq<seq<int>>)
      returns (p': int, list': int, tail': int, ghost done': seq<seq<int>>, ghost todo': seq<seq<int>>)
      requires PassInv(cmp, C(), next, xs, done, todo, insize, p, list, tail) && todo != []
               && Env(cmp, c0, C(), xs, computed, mark)
      requires tail == NULL || tail in xs
      modifies this`next, this`data16, this`crc, this`crcState, this`crcMatrix, this`computed
      ensures PassInv(cmp, C(), next, xs, done', todo', insize, p', list', tail')
              && Env(cmp, c0, C(), xs, computed, mark)
      ensures |done'| == |done| + 1 && |todo'| < |todo| && (|todo'| + 1) / 2 + 1 == (|todo| + 1) / 2
              && (p' != NULL <==> todo' != [])
      ensures multiset(Flatten(done')) + multiset(Flatten(todo')) == multiset(Flatten(done)) + multiset(Flatten(todo))
      ensures cmp == ByIdx ==> computed == old(computed)
      ensures NextKept(old(next), next, xs) && tail' in xs
    {
      hide NextKept, PassInv, PassRuns, RunsOk, Env, Evolves, Flatten, List, Pass, Cursor, RunOk, Earlier, FirstRun,
           SecondRun, LaterRuns, Within, Sizes, DoneSizes;
      ghost var ps, qs, rest := FirstRun(todo), SecondRun(todo), LaterRuns(todo);
      PassInvOpens(cmp, C(), next, xs, done, todo, insize, p, list, tail);
      var psize, q := StepAlong(p, insize, Flatten(todo));
      EnvRestart(cmp, c0, C(), xs, computed, mark);
      ghost var c1 := C();
      ghost var cur;
      list', tail', p', cur := MergeTwo(cmp, p, q, psize, insize, list, tail, mark, xs, Flatten(done), ps, qs,
                                        Flatten(rest));
      EnvTrans(cmp, c0, c1, C(), xs, computed, mark);
      EnvEvolves(cmp, c1, C(), xs, computed, mark);
      done', todo' := done + [cur], rest;
      LaterCount(todo);
      PassInvCloses(cmp, c1, C(), next, xs, done, todo, insize, p, list, tail, cur, p', list', tail');
      PassCursor(cmp, C(), next, xs, done', todo', insize, p', list', tail');
    }

    /** The body of the outer loop: one pass over the list, merging runs of `insize` in pairs. */
    method MergePass(cmp: Cmp, insize: nat, list0: int, ghost mark: nat, ghost c0: Cells, ghost xs: seq<int>,
                     ghost runs: seq<seq<int>>)
      returns (list: int, nmerges: int, ghost runs': seq<seq<int>>)
      requires Sorting(cmp, C(), next, xs, runs, insize, list0) && Env(cmp, c0, C(), xs, computed, mark)
      modifies this`next, this`data16, this`crc, this`crcState, this`crcMatrix, this`computed
      ensures Sorting(cmp, C(), next, xs, runs', 2 * insize, list) && Env(cmp, c0, C(), xs, computed, mark)
      ensures nmerges == |runs'| == (|runs| + 1) / 2
      ensures cmp == ByIdx ==> computed == old(computed)
      ensures NextKept(old(next), next, xs)
    {
      hide NextKept, PassInv, Env, Flatten, Sorting;
      ghost var next0 := next;
      NextKeptSelf(next, xs);
      var p, tail := list0, NULL;
      list, nmerges := NULL, 0;
      ghost var done, todo := [], runs;
      PassBegins(cmp, C(), next, xs, runs, insize, list0);
      while p != NULL
        invariant PassInv(cmp, C(), next, xs, done, todo, insize, p, list, tail)
                  && Env(cmp, c0, C(), xs, computed, mark)
        invariant p != NULL <==> todo != []
        invariant nmerges == |done| && nmerges + (|todo| + 1) / 2 == (|runs| + 1) / 2
        invariant multiset(Flatten(done)) + multiset(Flatten(todo)) == multiset(xs)
        invariant cmp == ByIdx ==> computed == old(computed)
        invariant NextKept(next0, next, xs) && (if nmerges == 0 then tail == NULL else tail in xs)
        decreases |todo|
      {
        ghost var n1 := next;
        nmerges := nmerges + 1;
        p, list, tail, done, todo := MergeNext(cmp, insize, p, list, tail, mark, c0, xs, done, todo);
        NextKeptTrans(next0, n1, next, xs);
      }
      PassEnds(cmp, C(), next, xs, done, insize, p, list, tail);
      NextKeptStore(next0, next, tail, NULL, xs);
      next := next[tail := NULL];
      runs' := done;
    }

    /** core_list_mergesort: a stable sort of the nodes, in place, by what are their keys when it is
        over. Beyond one node every node was compared; under cmp_complex no value is computed twice. */
    method MergeSort(cmp: Cmp, list0: int, ghost xs: seq<int>) returns (list: int, ghost ys: seq<int>)
      requires List(next, xs) && xs != [] && list0 == xs[0] && HasItems(C(), xs) && DataOk(data16)
      modifies this`next, this`data16, this`crc, this`crcState, this`crcMatrix, this`computed
      ensures List(next, ys) && |ys| == |xs| && list == ys[0] && multiset(ys) == multiset(xs)
      ensures InOrder(cmp, C(), xs, ys) && (|xs| >= 2 ==> AllFixed(cmp, C(), ys))
      ensures Evolves(cmp, old(C()), C()) && HasItems(C(), xs) && DataOk(data16)
      ensures cmp == Complex ==> Once(computed, |old(computed)|, data16)
      ensures cmp == ByIdx ==> computed == old(computed)
      ensures NextKept(old(next), next, xs) && DataKept(old(C()), C(), xs)
    {
      ghost var c0, mark, runs := C(), |computed|, Singletons(xs);
      var insize := 1;
      list := list0;
      SortBegins(cmp, c0, next, xs, list, computed);
      hide Sorting, Env, InOrder, AllFixed, Evolves, HasItems, DataOk, Once, List, NextKept, DataKept;
      ghost var next0 := next;
      NextKeptSelf(next, xs);
      while true
        invariant insize > 0 && Sorting(cmp, C(), next, xs, runs, insize, list) && runs != []
        invariant Env(cmp, c0, C(), xs, computed, mark) && NextKept(next0, next, xs)
        invariant cmp == ByIdx ==> computed == old(computed)
        decreases |runs|
      {
        var nmerges;
        ghost var n1 := next;
        list, nmerges, runs := MergePass(cmp, insize, list, mark, c0, xs, runs);
        NextKeptTrans(next0, n1, next, xs);
        insize := 2 * insize;
        if nmerges <= 1 {
          break;
        }
      }
      ys := runs[0];
      SortEnds(cmp, c0, C(), next, xs, runs, insize, list, computed, mark);
    }
  }

  /** What being in order means: smaller keys first, equal keys as in the original list. */
  lemma StableOrder(cmp: Cmp, c: Cells, xs: seq<int>, ys: seq<int>)
    requires InOrder(cmp, c, xs, ys)
    ensures forall i, j :: 0 <= i < j < |ys| ==>
              var k, k' := Key(cmp, c, ys[i]), Key(cmp, c, ys[j]);
              k < k' || (k == k' && Position(xs, ys[i]) < Position(xs, ys[j]))
  {
    hide Key, Position;
  }

  /** Where the merge stands in memory: `cur` hangs behind `out`, the variables of the loop point
      at the heads of what remains. */
  ghost predicate Cursor(next: map<int, int>, out: seq<int>, cur: seq<int>, ps: seq<int>, qs: seq<int>, rest: seq<int>,
                         list: int, tail: int, p: int, q: int, psize: int, qsize: int) {
    && Pass(next, out + cur, ps, qs + rest) && list == At(out + cur, 0) && tail == At(out + cur, |out + cur| - 1)
    && psize == |ps| && (psize > 0 ==> p == ps[0])
    && q == At(qs + rest, 0) && |qs| <= qsize && (rest != [] ==> |qs| == qsize)
  }

  lemma CursorGuard(next: map<int, int>, out: seq<int>, cur: seq<int>, ps: seq<int>, qs: seq<int>, rest: seq<int>,
                    list: int, tail: int, p: int, q: int, psize: int, qsize: int)
    requires Cursor(next, out, cur, ps, qs, rest, list, tail, p, q, psize, qsize)
    ensures psize == |ps| && (psize > 0 ==> p == ps[0])
    ensures (qsize > 0 && q != NULL <==> qs != []) && (qsize == 0 || q == NULL <==> qs == [])
            && (qs != [] ==> q == qs[0])
  {
    NonNull(next, out + cur, ps, qs + rest);
  }

  lemma CursorEnd(next: map<int, int>, out: seq<int>, cur: seq<int>, rest: seq<int>,
                  list: int, tail: int, p: int, q: int, psize: int, qsize: int)
    requires Cursor(next, out, cur, [], [], rest, list, tail, p, q, psize, qsize)
    ensures Pass(next, out + cur, [], rest) && list == At(out + cur, 0) && tail == At(out + cur, |out + cur| - 1)
            && q == At(rest, 0)
    ensures Bag(cur, [], []) == multiset(cur)
  {
    assert [] + rest == rest && cur + [] + [] == cur;
  }

  /** The nodes of a merge, done or not. */
  function Bag(cur: seq<int>, ps: seq<int>, qs: seq<int>): multiset<int> {
    multiset(cur + ps + qs)
  }

  lemma {:induction false} BagStart(ps: seq<int>, qs: seq<int>)
    ensures Bag([], ps, qs) == multiset(ps + qs)
  {
    assert [] + ps + qs == ps + qs;
  }

  /** What comparisons keep while the sort runs. */
  ghost predicate Env(cmp: Cmp, c0: Cells, c: Cells, xs: seq<int>, computed: seq<int>, mark: nat) {
    && Evolves(cmp, c0, c) && HasItems(c, xs) && DataOk(c.data16)
    && (cmp == Complex ==> Once(computed, mark, c.data16))
    && DataKept(c0, c, xs)
  }

  lemma EnvInfo(cmp: Cmp, c0: Cells, c: Cells, xs: seq<int>, computed: seq<int>, mark: nat)
    requires Env(cmp, c0, c, xs, computed, mark)
    ensures c.info == c0.info && c.idx == c0.idx
  {
  }

  /** One node moved from the head of a run to the end of what is done. */
  ghost predicate Took(fromP: bool, cur: seq<int>, ps: seq<int>, qs: seq<int>, cur': seq<int>, ps': seq<int>,
                       qs': seq<int>) {
    if fromP then ps != [] && cur' == cur + [ps[0]] && ps' == ps[1..] && qs' == qs
    else qs != [] && cur' == cur + [qs[0]] && ps' == ps && qs' == qs[1..]
  }

  lemma {:induction false} TookKeeps(fromP: bool, cur: seq<int>, ps: seq<int>, qs: seq<int>,
                                     cur': seq<int>, ps': seq<int>, qs': seq<int>, xs: seq<int>)
    requires Took(fromP, cur, ps, qs, cur', ps', qs') && Within(ps, xs) && Within(qs, xs)
    ensures Within(ps', xs) && Within(qs', xs) && Bag(cur', ps', qs') == Bag(cur, ps, qs)
    ensures |cur'| == |cur| + 1 && |ps'| + |qs'| == |ps| + |qs| - 1 && (qs' != [] ==> qs != [])
  {
    if fromP {
      TakenP([], cur, ps, qs);
    } else {
      TakenQ([], cur, ps, qs, []);
    }
  }

  /** All of a are nodes of xs. */
  ghost predicate Within(a: seq<int>, xs: seq<int>) {
    forall i :: 0 <= i < |a| ==> a[i] in xs
  }

  lemma ItemsOfTwo(c: Cells, xs: seq<int>, p: int, q: int)
    requires HasItems(c, xs) && p in xs && q in xs
    ensures HasItems(c, [p, q])
  {
  }

  lemma ItemsKept(cmp: Cmp, c: Cells, c': Cells, xs: seq<int>)
    requires HasItems(c, xs) && Evolves(cmp, c, c')
    ensures HasItems(c', xs)
  {
    hide FixedValue;
  }

  lemma NonNull(next: map<int, int>, out: seq<int>, ps: seq<int>, qr: seq<int>)
    requires Pass(next, out, ps, qr)
    ensures (out == [] <==> At(out, |out| - 1) == NULL) && (qr == [] <==> At(qr, 0) == NULL)
  {
  }

  lemma {:induction false} TakenP(out: seq<int>, cur: seq<int>, ps: seq<int>, qs: seq<int>)
    requires ps != []
    ensures Bag(cur + [ps[0]], ps[1..], qs) == Bag(cur, ps, qs)
    ensures out + (cur + [ps[0]]) == out + cur + [ps[0]]
  {
    assert cur + [ps[0]] + ps[1..] + qs == cur + ps + qs;
  }

  lemma {:induction false} TakenQ(out: seq<int>, cur: seq<int>, ps: seq<int>, qs: seq<int>, rest: seq<int>)
    requires qs != []
    ensures Bag(cur + [qs[0]], ps, qs[1..]) == Bag(cur, ps, qs)
    ensures out + (cur + [qs[0]]) == out + cur + [qs[0]]
    ensures (qs + rest)[0] == qs[0] && (qs + rest)[1..] == qs[1..] + rest && At(qs + rest, 1) == At(qs[1..] + rest, 0)
  {
    assert qs == [qs[0]] + qs[1..];
  }

  // ---------------------------------------------------------------- runs between passes

  function FirstRun(todo: seq<seq<int>>): seq<int> { if |todo| >= 1 then todo[0] else [] }
  function SecondRun(todo: seq<seq<int>>): seq<int> { if |todo| >= 2 then todo[1] else [] }
  function LaterRuns(todo: seq<seq<int>>): seq<seq<int>> { if |todo| >= 2 then todo[2..] else [] }

  lemma {:induction false} FlattenRuns(todo: seq<seq<int>>)
    requires todo != []
    ensures Flatten(todo) == FirstRun(todo) + SecondRun(todo) + Flatten(LaterRuns(todo))
  {
    if |todo| >= 2 {
      assert todo[1..][1..] == todo[2..];
    }
  }

  /** Inside a pass: runs in `done` are merged and output, runs in `todo` are still to come. */
  ghost predicate PassInv(cmp: Cmp, c: Cells, next: map<int, int>, xs: seq<int>, done: seq<seq<int>>,
                          todo: seq<seq<int>>,
                          insize: nat, p: int, list: int, tail: int) {
    && PassRuns(cmp, c, xs, done, todo, insize)
    && Pass(next, Flatten(done), [], Flatten(todo))
    && p == At(Flatten(todo), 0) && list == At(Flatten(done), 0) && tail == At(Flatten(done), |Flatten(done)| - 1)
  }

  ghost predicate PassRuns(cmp: Cmp, c: Cells, xs: seq<int>, done: seq<seq<int>>, todo: seq<seq<int>>, insize: nat) {
    && insize > 0 && RunsOk(cmp, c, xs, done + todo) && Sizes(todo, insize) && DoneSizes(done, todo, insize)
    && Within(Flatten(todo), xs)
  }

  /** Output runs have twice the size, but for the last one when there is nothing to come. */
  ghost predicate DoneSizes(done: seq<seq<int>>, todo: seq<seq<int>>, insize: nat) {
    forall i :: 0 <= i < |done| ==>
             0 < |done[i]| <= 2 * insize && (i < |done| - 1 || todo != [] ==> |done[i]| == 2 * insize)
  }

  /** Between passes. */
  ghost predicate Sorting(cmp: Cmp, c: Cells, next: map<int, int>, xs: seq<int>, runs: seq<seq<int>>, insize: nat,
                          list: int) {
    && insize > 0 && runs != [] && RunsOk(cmp, c, xs, runs) && Sizes(runs, insize)
    && List(next, Flatten(runs)) && list == At(Flatten(runs), 0) && multiset(Flatten(runs)) == multiset(xs)
  }

  lemma LaterCount(todo: seq<seq<int>>)
    requires todo != []
    ensures |LaterRuns(todo)| < |todo| && (|LaterRuns(todo)| + 1) / 2 + 1 == (|todo| + 1) / 2
  {
  }

  /** The next runs at the front of what is to come, by the sizes the loop counts. */
  lemma {:induction false} OpenSizes(todo: seq<seq<int>>, insize: nat)
    requires todo != [] && insize > 0 && Sizes(todo, insize)
    ensures var rem, ps, qs, rest := Flatten(todo), FirstRun(todo), SecondRun(todo), Flatten(LaterRuns(todo));
            && rem == ps + (qs + rest) && ps != [] && |ps| == (if insize <= |rem| then insize else |rem|)
            && |qs| <= insize && (rest != [] ==> |qs| == insize)
  {
    FlattenRuns(todo);
    LaterNil(todo);
    assert 0 < |todo[0]| <= insize;
    if |todo| == 1 {
      FlattenNil();
      assert Flatten(todo) == todo[0] + [] + [];
    }
  }

  lemma {:induction false} OpenCursor(next: map<int, int>, out: seq<int>, rem: seq<int>, ps: seq<int>, qs: seq<int>,
                                      rest: seq<int>,
                                      insize: nat, list: int, tail: int, p: int)
    requires Pass(next, out, [], rem) && rem == ps + (qs + rest) && ps != [] && |qs| <= insize
             && (rest != [] ==> |qs| == insize)
    requires list == At(out, 0) && tail == At(out, |out| - 1) && p == At(rem, 0)
    ensures Cursor(next, out, [], ps, qs, rest, list, tail, p, At(rem, |ps|), |ps|, insize)
  {
    PassSplit(next, out, rem, |ps|);
    assert rem[..|ps|] == ps && rem[|ps|..] == qs + rest;
    assert out + [] == out;
    hide Pass;
    assert At(rem, |ps|) == At(qs + rest, 0);
  }

  lemma {:induction false} PassInvOpens(cmp: Cmp, c: Cells, next: map<int, int>, xs: seq<int>, done: seq<seq<int>>,
                                        todo: seq<seq<int>>,
                                        insize: nat, p: int, list: int, tail: int)
    requires PassInv(cmp, c, next, xs, done, todo, insize, p, list, tail) && todo != []
    ensures var rem, ps, qs, rest := Flatten(todo), FirstRun(todo), SecondRun(todo), Flatten(LaterRuns(todo));
            && List(next, rem) && rem != [] && p == rem[0] && insize > 0 && ps != []
            && |ps| == (if insize <= |rem| then insize else |rem|)
            && Cursor(next, Flatten(done), [], ps, qs, rest, list, tail, p, At(rem, |ps|), |ps|, insize)
            && RunOk(cmp, c, xs, ps) && RunOk(cmp, c, xs, qs) && Earlier(xs, ps, qs)
            && Within(ps, xs) && Within(qs, xs) && PassRuns(cmp, c, xs, done, todo, insize)
  {
    hide RunsOk, RunOk, Earlier, Pass, List, Cursor, Sizes, DoneSizes, Within, Flatten, FirstRun, SecondRun, LaterRuns;
    var rem, ps, qs, rest := Flatten(todo), FirstRun(todo), SecondRun(todo), Flatten(LaterRuns(todo));
    OpenSizes(todo, insize);
    OpenRuns(cmp, c, xs, done, todo);
    RestOfPass(next, Flatten(done), rem);
    OpenCursor(next, Flatten(done), rem, ps, qs, rest, insize, list, tail, p);
    WithinParts(ps, qs, rest, xs);
  }

  lemma {:induction false} WithinParts(ps: seq<int>, qs: seq<int>, rest: seq<int>, xs: seq<int>)
    requires Within(ps + (qs + rest), xs)
    ensures Within(ps, xs) && Within(qs, xs) && Within(rest, xs)
  {
    var rem := ps + (qs + rest);
    assert forall i :: 0 <= i < |ps| ==> ps[i] == rem[i];
    assert forall i :: 0 <= i < |qs| ==> qs[i] == rem[|ps| + i];
    assert forall i :: 0 <= i < |rest| ==> rest[i] == rem[|ps| + |qs| + i];
  }

  lemma RestOfPass(next: map<int, int>, out: seq<int>, rem: seq<int>)
    requires Pass(next, out, [], rem)
    ensures List(next, rem)
  {
  }

  lemma FlattenNil()
    ensures Flatten([]) == []
  {
  }

  lemma LaterNil(todo: seq<seq<int>>)
    ensures Flatten(LaterRuns(todo)) != [] ==> |todo| > 2
  {
  }

  lemma OpenRuns(cmp: Cmp, c: Cells, xs: seq<int>, done: seq<seq<int>>, todo: seq<seq<int>>)
    requires RunsOk(cmp, c, xs, done + todo) && todo != []
    ensures RunOk(cmp, c, xs, FirstRun(todo)) && RunOk(cmp, c, xs, SecondRun(todo))
            && Earlier(xs, FirstRun(todo), SecondRun(todo))
  {
    hide Key, Fixed, Position;
    var w, n := done + todo, |done|;
    assert w[n] == todo[0];
    assert |todo| >= 2 ==> w[n + 1] == todo[1];
  }

  lemma {:induction false} PassInvCloses(cmp: Cmp, c: Cells, c': Cells, next: map<int, int>, xs: seq<int>,
                                         done: seq<seq<int>>, todo: seq<seq<int>>,
                                         insize: nat, p: int, list: int, tail: int, cur: seq<int>, p': int,
                                         list': int, tail': int)
    requires PassRuns(cmp, c, xs, done, todo, insize) && todo != [] && Evolves(cmp, c, c')
    requires var out, rest := Flatten(done) + cur, Flatten(LaterRuns(todo));
             Pass(next, out, [], rest) && list' == At(out, 0) && tail' == At(out, |out| - 1) && p' == At(rest, 0)
    requires multiset(cur) == multiset(FirstRun(todo) + SecondRun(todo))
             && |cur| == |FirstRun(todo)| + |SecondRun(todo)| && RunOk(cmp, c', xs, cur)
    ensures PassInv(cmp, c', next, xs, done + [cur], LaterRuns(todo), insize, p', list', tail')
    ensures multiset(Flatten(done + [cur])) + multiset(Flatten(LaterRuns(todo))) ==
            multiset(Flatten(done)) + multiset(Flatten(todo))
  {
    hide RunsOk, RunOk, Evolves, Pass, Sizes, DoneSizes, Flatten, Within, FirstRun, SecondRun, LaterRuns;
    var ps, qs, rest := FirstRun(todo), SecondRun(todo), LaterRuns(todo);
    FlattenAppend(done, [cur]);
    FlattenOne(cur);
    FlattenRuns(todo);
    CloseRuns(cmp, c, c', xs, done, todo, cur);
    CloseSizes(done, todo, insize, cur);
    assert Flatten(todo) == ps + (qs + Flatten(rest));
    WithinParts(ps, qs, Flatten(rest), xs);
  }

  lemma {:induction false} CloseSizes(done: seq<seq<int>>, todo: seq<seq<int>>, insize: nat, cur: seq<int>)
    requires todo != [] && insize > 0 && Sizes(todo, insize) && DoneSizes(done, todo, insize)
             && |cur| == |FirstRun(todo)| + |SecondRun(todo)|
    ensures Sizes(LaterRuns(todo), insize) && DoneSizes(done + [cur], LaterRuns(todo), insize)
  {
    var rest := LaterRuns(todo);
    assert forall i :: 0 <= i < |rest| ==> rest[i] == todo[i + 2];
    assert 0 < |todo[0]| <= insize;
  }

  lemma {:induction false} CloseRuns(cmp: Cmp, c: Cells, c': Cells, xs: seq<int>, done: seq<seq<int>>,
                                     todo: seq<seq<int>>, cur: seq<int>)
    requires todo != [] && RunsOk(cmp, c, xs, done + todo) && Evolves(cmp, c, c') && RunOk(cmp, c', xs, cur)
    requires multiset(cur) == multiset(FirstRun(todo) + SecondRun(todo))
    ensures RunsOk(cmp, c', xs, done + [cur] + LaterRuns(todo))
  {
    hide RunsOk, RunOk, Evolves;
    RunsEvolve(cmp, c, c', xs, done + todo);
    if |todo| >= 2 {
      assert done + todo == done + [todo[0], todo[1]] + todo[2..];
      ReplacePair(cmp, c', xs, done, todo[0], todo[1], todo[2..], cur);
    } else {
      assert todo == [todo[0]] && FirstRun(todo) + SecondRun(todo) == todo[0];
      ReplaceLast(cmp, c', xs, done, todo[0], cur);
      assert done + [cur] + LaterRuns(todo) == done + [cur];
    }
  }

  lemma EnvRestart(cmp: Cmp, c0: Cells, c: Cells, xs: seq<int>, computed: seq<int>, mark: nat)
    requires Env(cmp, c0, c, xs, computed, mark)
    ensures Env(cmp, c, c, xs, computed, mark)
  {
    hide FixedValue, Once, HasItems, DataOk;
  }

  lemma EnvTrans(cmp: Cmp, c0: Cells, c1: Cells, c: Cells, xs: seq<int>, computed: seq<int>, mark: nat)
    requires (exists m :: Env(cmp, c0, c1, xs, m, mark)) && Env(cmp, c1, c, xs, computed, mark)
    ensures Env(cmp, c0, c, xs, computed, mark)
  {
    ghost var m :| Env(cmp, c0, c1, xs, m, mark);
    EnvInfo(cmp, c0, c1, xs, m, mark);
    hide Evolves, Once, HasItems, DataOk, DataKept;
    EvolvesTrans(cmp, c0, c1, c);
    DataKeptTrans(c0, c1, c, xs);
  }

  lemma EnvEvolves(cmp: Cmp, c0: Cells, c: Cells, xs: seq<int>, computed: seq<int>, mark: nat)
    requires Env(cmp, c0, c, xs, computed, mark)
    ensures Evolves(cmp, c0, c)
  {
  }

  lemma {:induction false} PassBegins(cmp: Cmp, c: Cells, next: map<int, int>, xs: seq<int>, runs: seq<seq<int>>,
                                      insize: nat, list: int)
    requires Sorting(cmp, c, next, xs, runs, insize, list)
    ensures PassInv(cmp, c, next, xs, [], runs, insize, list, NULL, NULL) && list != NULL && runs != []
    ensures multiset(Flatten([])) + multiset(Flatten(runs)) == multiset(xs)
  {
    hide RunsOk, Pass, List, Flatten, Within, Sizes;
    assert [] + runs == runs;
    FlattenNil();
    FlattenEmpty(runs, insize);
    WithinSame(Flatten(runs), xs);
    ListPass(next, Flatten(runs));
  }

  lemma {:induction false} WithinSame(f: seq<int>, xs: seq<int>)
    requires multiset(f) == multiset(xs)
    ensures Within(f, xs)
  {
    forall i | 0 <= i < |f| ensures f[i] in xs {
      assert f[i] in multiset(f);
      assert f[i] in multiset(xs);
    }
  }

  lemma ListPass(next: map<int, int>, f: seq<int>)
    requires List(next, f)
    ensures Pass(next, [], [], f) && (f != [] ==> f[0] != NULL)
  {
    assert [] + [] + f == f;
  }

  lemma FlattenEmpty(runs: seq<seq<int>>, insize: nat)
    requires Sizes(runs, insize)
    ensures Flatten(runs) == [] <==> runs == []
  {
  }

  lemma {:induction false} PassCursor(cmp: Cmp, c: Cells, next: map<int, int>, xs: seq<int>, done: seq<seq<int>>,
                                      todo: seq<seq<int>>,
                                      insize: nat, p: int, list: int, tail: int)
    requires PassInv(cmp, c, next, xs, done, todo, insize, p, list, tail)
    ensures p != NULL <==> todo != []
  {
    hide RunsOk;
    FlattenEmpty(todo, insize);
    NonNull(next, Flatten(done), [], Flatten(todo));
  }

  lemma {:induction false} PassEnds(cmp: Cmp, c: Cells, next: map<int, int>, xs: seq<int>, done: seq<seq<int>>,
                                    insize: nat, p: int, list: int, tail: int)
    requires PassInv(cmp, c, next, xs, done, [], insize, p, list, tail) && done != []
    requires multiset(Flatten(done)) + multiset(Flatten([])) == multiset(xs)
    ensures Sorting(cmp, c, next[tail := NULL], xs, done, 2 * insize, list)
  {
    hide RunsOk, Pass;
    assert done + [] == done;
    FlattenNil();
    assert Sizes(done, 2 * insize);
    FlattenEmpty(done, 2 * insize);
    PassDone(next, Flatten(done));
  }

  /** Every node a run of its own. */
  function Singletons(xs: seq<int>): seq<seq<int>> {
    seq(|xs|, i requires 0 <= i < |xs| => [xs[i]])
  }

  lemma {:induction false} FlattenSingletons(xs: seq<int>)
    ensures Flatten(Singletons(xs)) == xs
    decreases |xs|
  {
    if xs != [] {
      assert Singletons(xs)[1..] == Singletons(xs[1..]);
      FlattenSingletons(xs[1..]);
    }
  }

  lemma {:induction false} PositionOf(xs: seq<int>, i: nat)
    requires NoDup(xs) && i < |xs|
    ensures Position(xs, xs[i]) == i
    decreases i
  {
    if i > 0 {
      assert xs[0] != xs[i];
      assert xs[1..][i - 1] == xs[i];
      PositionOf(xs[1..], i - 1);
    }
  }

  lemma {:induction false} SingletonRuns(cmp: Cmp, c: Cells, xs: seq<int>)
    requires NoDup(xs)
    ensures RunsOk(cmp, c, xs, Singletons(xs)) && Sizes(Singletons(xs), 1)
  {
    var runs := Singletons(xs);
    hide Position, Key, Fixed;
    forall i, j | 0 <= i < j < |runs| ensures Earlier(xs, runs[i], runs[j]) {
      PositionOf(xs, i);
      PositionOf(xs, j);
    }
  }

  lemma {:induction false} SortBegins(cmp: Cmp, c: Cells, next: map<int, int>, xs: seq<int>, list: int,
                                      computed: seq<int>)
    requires List(next, xs) && xs != [] && list == xs[0] && HasItems(c, xs) && DataOk(c.data16)
    ensures Sorting(cmp, c, next, xs, Singletons(xs), 1, list) && Singletons(xs) != []
    ensures Env(cmp, c, c, xs, computed, |computed|)
  {
    hide RunsOk, FixedValue;
    SingletonRuns(cmp, c, xs);
    FlattenSingletons(xs);
  }

  lemma {:induction false} SortEnds(cmp: Cmp, c0: Cells, c: Cells, next: map<int, int>, xs: seq<int>,
                                    runs: seq<seq<int>>, insize: nat,
                                    list: int, computed: seq<int>, mark: nat)
    requires Sorting(cmp, c, next, xs, runs, insize, list) && |runs| == 1 && Env(cmp, c0, c, xs, computed, mark)
    ensures List(next, runs[0]) && |runs[0]| == |xs| && runs[0] != [] && list == runs[0][0]
            && multiset(runs[0]) == multiset(xs)
    ensures InOrder(cmp, c, xs, runs[0]) && (|xs| >= 2 ==> AllFixed(cmp, c, runs[0]))
    ensures Evolves(cmp, c0, c) && HasItems(c, xs) && DataOk(c.data16)
            && (cmp == Complex ==> Once(computed, mark, c.data16))
    ensures DataKept(c0, c, xs)
  {
    assert runs == [runs[0]];
    FlattenOne(runs[0]);
    hide List, Evolves, HasItems, DataOk, Once, InOrder, AllFixed, Flatten;
    assert RunOk(cmp, c, xs, runs[0]);
    assert |multiset(runs[0])| == |runs[0]| && |multiset(xs)| == |xs|;
  }
}
