/** Runs of a merge-sort pass, and the linked memory the pass rewires. */
module ListRuns {
  import opened Common
  import opened ListMerge

  const NULL := 0

  // ---------------------------------------------------------------- runs

  function Flatten(runs: seq<seq<int>>): seq<int> {
    if runs == [] then [] else runs[0] + Flatten(runs[1..])
  }

  lemma {:induction false} FlattenAppend(a: seq<seq<int>>, b: seq<seq<int>>)
    ensures Flatten(a + b) == Flatten(a) + Flatten(b)
    decreases |a|
  {
    if a == [] {
      assert a + b == b;
    } else {
      assert (a + b)[1..] == a[1..] + b;
      FlattenAppend(a[1..], b);
      assert (a + b)[0] == a[0];
    }
  }

  lemma {:induction false} FlattenOne(r: seq<int>)
    ensures Flatten([r]) == r
  {
    assert [r][1..] == [];
  }

  /** Every run is ordered and fixed, and runs keep to the order of the original list. */
  ghost predicate RunsOk(cmp: Cmp, c: Cells, xs: seq<int>, runs: seq<seq<int>>) {
    && (forall i :: 0 <= i < |runs| ==> RunOk(cmp, c, xs, runs[i]))
    && (forall i, j :: 0 <= i < j < |runs| ==> Earlier(xs, runs[i], runs[j]))
  }

  /** All runs have `size` nodes but the last, which has one to `size`. */
  ghost predicate Sizes(runs: seq<seq<int>>, size: nat) {
    forall i :: 0 <= i < |runs| ==> 0 < |runs[i]| <= size && (i < |runs| - 1 ==> |runs[i]| == size)
  }

  lemma {:induction false} RunsEvolve(cmp: Cmp, c: Cells, c': Cells, xs: seq<int>, runs: seq<seq<int>>)
    requires Evolves(cmp, c, c') && RunsOk(cmp, c, xs, runs)
    ensures RunsOk(cmp, c', xs, runs)
  {
    hide Evolves, RunOk, Earlier;
    forall i | 0 <= i < |runs| ensures RunOk(cmp, c', xs, runs[i]) {
      RunEvolves(cmp, c, c', xs, runs[i]);
    }
  }

  lemma {:induction false} EarlierMembers(xs: seq<int>, a: seq<int>, b: seq<int>, a': seq<int>, b': seq<int>)
    requires Earlier(xs, a, b) && (forall x :: x in a' ==> x in a) && (forall x :: x in b' ==> x in b)
    ensures Earlier(xs, a', b')
  {
    hide Position;
    forall i, j | 0 <= i < |a'| && 0 <= j < |b'| ensures Position(xs, a'[i]) < Position(xs, b'[j]) {
      assert a'[i] in a && b'[j] in b;
      var i', j' :| 0 <= i' < |a| && a[i'] == a'[i] && 0 <= j' < |b| && b[j'] == b'[j];
    }
  }

  lemma {:induction false} EarlierJoin(xs: seq<int>, a: seq<int>, p: seq<int>, q: seq<int>)
    requires Earlier(xs, a, p) && Earlier(xs, a, q)
    ensures Earlier(xs, a, p + q)
  {
    hide Position;
  }

  lemma {:induction false} JoinEarlier(xs: seq<int>, p: seq<int>, q: seq<int>, b: seq<int>)
    requires Earlier(xs, p, b) && Earlier(xs, q, b)
    ensures Earlier(xs, p + q, b)
  {
    hide Position;
  }

  lemma {:induction false} SameMembers(a: seq<int>, b: seq<int>)
    requires multiset(a) == multiset(b)
    ensures forall x :: x in a ==> x in b
  {
    forall x | x in a ensures x in b {
      assert x in multiset(a);
    }
  }

  /** Two neighbouring runs replaced by their merge. */
  lemma {:induction false} ReplacePair(cmp: Cmp, c: Cells, xs: seq<int>, a: seq<seq<int>>, p: seq<int>, q: seq<int>,
                                       b: seq<seq<int>>, cur: seq<int>)
    requires RunsOk(cmp, c, xs, a + [p, q] + b) && RunOk(cmp, c, xs, cur) && multiset(cur) == multiset(p + q)
    ensures RunsOk(cmp, c, xs, a + [cur] + b)
  {
    hide RunOk, Earlier;
    var w, w' := a + [p, q] + b, a + [cur] + b;
    var n := |a|;
    assert w[n] == p && w[n + 1] == q && w'[n] == cur;
    assert forall i :: 0 <= i < n ==> w[i] == a[i] == w'[i];
    assert forall i :: n < i < |w'| ==> w'[i] == w[i + 1];
    SameMembers(cur, p + q);
    forall i, j | 0 <= i < j < |w'| ensures Earlier(xs, w'[i], w'[j]) {
      if j == n {
        EarlierJoin(xs, w[i], p, q);
        EarlierMembers(xs, w[i], p + q, w[i], cur);
      } else if i == n {
        JoinEarlier(xs, p, q, w[j + 1]);
        EarlierMembers(xs, p + q, w[j + 1], cur, w[j + 1]);
      }
    }
  }

  /** A last run without a partner goes through as it is. */
  lemma {:induction false} ReplaceLast(cmp: Cmp, c: Cells, xs: seq<int>, a: seq<seq<int>>, p: seq<int>, cur: seq<int>)
    requires RunsOk(cmp, c, xs, a + [p]) && RunOk(cmp, c, xs, cur) && multiset(cur) == multiset(p)
    ensures RunsOk(cmp, c, xs, a + [cur])
  {
    hide RunOk, Earlier;
    var w, w', n := a + [p], a + [cur], |a|;
    assert w[n] == p && w'[n] == cur;
    assert forall i :: 0 <= i < n ==> w[i] == a[i] == w'[i];
    SameMembers(cur, p);
    forall i, j | 0 <= i < j < |w'| ensures Earlier(xs, w'[i], w'[j]) {
      if j == n {
        EarlierMembers(xs, w[i], p, w[i], cur);
      }
    }
  }

  // ---------------------------------------------------------------- linked memory

  function At(xs: seq<int>, i: int): int {
    if 0 <= i < |xs| then xs[i] else NULL
  }

  /** Nodes of xs are linked one to the next; where the last one points is left open. */
  ghost predicate Segment(next: map<int, int>, xs: seq<int>) {
    && (forall i :: 0 <= i < |xs| ==> xs[i] != NULL && xs[i] in next)
    && (forall i, j :: 0 <= i < |xs| && j == i + 1 && j < |xs| ==> next[xs[i]] == xs[j])
  }

  /** A whole null-terminated list. */
  ghost predicate List(next: map<int, int>, xs: seq<int>) {
    Segment(next, xs) && NoDup(xs) && (xs != [] ==> next[xs[|xs| - 1]] == NULL)
  }

  /** During a pass: `out` is linked up to its last node, `ps` is what remains of the first run and
      `qr` the rest of the input, null terminated; no node occurs twice. */
  ghost predicate Pass(next: map<int, int>, out: seq<int>, ps: seq<int>, qr: seq<int>) {
    && Segment(next, out) && Segment(next, ps) && List(next, qr)
    && NoDup(out + ps + qr)
  }

  /** Memory after `if (tail) tail->next = e`. */
  function Linked(next: map<int, int>, out: seq<int>, e: int): map<int, int> {
    if out == [] then next else next[out[|out| - 1] := e]
  }

  lemma {:induction false} SegmentNext(next: map<int, int>, xs: seq<int>, i: int)
    requires Segment(next, xs) && 0 <= i && i + 1 < |xs|
    ensures next[xs[i]] == xs[i + 1]
  {
  }

  lemma {:induction false} ListNext(next: map<int, int>, xs: seq<int>, i: int)
    requires List(next, xs) && 0 <= i < |xs|
    ensures xs[i] in next && next[xs[i]] == At(xs, i + 1)
  {
    if i + 1 < |xs| {
      SegmentNext(next, xs, i);
    }
  }

  lemma {:induction false} SegmentTail(next: map<int, int>, xs: seq<int>)
    requires Segment(next, xs) && xs != []
    ensures Segment(next, xs[1..])
  {
    var ys := xs[1..];
    assert forall i :: 0 <= i < |ys| ==> ys[i] == xs[i + 1];
    forall i, j | 0 <= i < |ys| && j == i + 1 && j < |ys| ensures next[ys[i]] == ys[j] {
      SegmentNext(next, xs, i + 1);
    }
  }

  lemma {:induction false} ListTail(next: map<int, int>, xs: seq<int>)
    requires List(next, xs) && xs != []
    ensures List(next, xs[1..])
  {
    SegmentTail(next, xs);
  }

  /** A store to a node that is not in xs leaves xs as it was. */
  lemma {:induction false} SegmentFrame(next: map<int, int>, xs: seq<int>, t: int, e: int)
    requires Segment(next, xs) && t !in xs
    ensures Segment(next[t := e], xs)
  {
    forall i, j | 0 <= i < |xs| && j == i + 1 && j < |xs| ensures next[t := e][xs[i]] == xs[j] {
      SegmentNext(next, xs, i);
    }
  }

  lemma {:induction false} ListFrame(next: map<int, int>, xs: seq<int>, t: int, e: int)
    requires List(next, xs) && t !in xs
    ensures List(next[t := e], xs)
  {
    SegmentFrame(next, xs, t, e);
  }

  /** Hanging e behind the last node of a segment. */
  lemma {:induction false} SegmentSnoc(next: map<int, int>, xs: seq<int>, e: int)
    requires Segment(next, xs) && NoDup(xs) && e !in xs && e != NULL && e in next
    ensures Segment(Linked(next, xs, e), xs + [e])
  {
    var ys, next' := xs + [e], Linked(next, xs, e);
    forall i, j | 0 <= i < |ys| && j == i + 1 && j < |ys| ensures next'[ys[i]] == ys[j] {
      if j < |xs| {
        SegmentNext(next, xs, i);
      }
    }
  }

  /** NoDup of a concatenation, in the pieces the proofs use. */
  lemma {:induction false} NoDupParts(a: seq<int>, b: seq<int>)
    requires NoDup(a + b)
    ensures NoDup(a) && NoDup(b) && forall x :: x in a ==> x !in b
  {
    var ab := a + b;
    assert forall i :: 0 <= i < |a| ==> ab[i] == a[i];
    assert forall i :: 0 <= i < |b| ==> ab[|a| + i] == b[i];
    forall x | x in a ensures x !in b {
      var i :| 0 <= i < |a| && a[i] == x;
      forall j | 0 <= j < |b| ensures b[j] != x {
        assert ab[i] != ab[|a| + j];
      }
    }
  }

  lemma {:induction false} PassTakeP(next: map<int, int>, out: seq<int>, ps: seq<int>, qr: seq<int>)
    requires Pass(next, out, ps, qr) && ps != []
    ensures Pass(Linked(next, out, ps[0]), out + [ps[0]], ps[1..], qr)
    ensures ps[0] in next && (|ps| > 1 ==> next[ps[0]] == ps[1])
  {
    var e := ps[0];
    assert (out + ps) + qr == out + ps + qr;
    NoDupParts(out + ps, qr);
    NoDupParts(out, ps);
    assert e in ps;
    assert out + [e] + ps[1..] + qr == out + ps + qr;
    SegmentSnoc(next, out, e);
    SegmentTail(next, ps);
    if |ps| > 1 {
      SegmentNext(next, ps, 0);
    }
    if out != [] {
      var t := out[|out| - 1];
      assert t in out && t in out + ps;
      SegmentFrame(next, ps[1..], t, e);
      ListFrame(next, qr, t, e);
    }
  }

  lemma {:induction false} PassTakeQ(next: map<int, int>, out: seq<int>, ps: seq<int>, qr: seq<int>)
    requires Pass(next, out, ps, qr) && qr != []
    ensures qr[0] in next && next[qr[0]] == At(qr, 1)
    ensures Pass(Linked(next, out, qr[0]), out + [qr[0]], ps, qr[1..])
  {
    var e := qr[0];
    NoDupParts(out + ps, qr);
    NoDupParts(out, ps);
    assert e in qr;
    ListNext(next, qr, 0);
    ListTail(next, qr);
    assert e !in out by {
      assert forall x :: x in out ==> x in out + ps;
    }
    NoDupMove(out, ps, qr);
    SegmentSnoc(next, out, e);
    if out != [] {
      var t := out[|out| - 1];
      assert t in out && t in out + ps;
      SegmentFrame(next, ps, t, e);
      ListFrame(next, qr[1..], t, e);
    }
  }

  lemma {:induction false} NoDupMove(out: seq<int>, ps: seq<int>, qr: seq<int>)
    requires NoDup(out + ps + qr) && qr != []
    ensures NoDup(out + [qr[0]] + ps + qr[1..])
  {
    var u, v := out + ps + qr, out + [qr[0]] + ps + qr[1..];
    var m, k := |out|, |out| + |ps|;
    forall i, j | 0 <= i < j < |v| ensures v[i] != v[j] {
      var i', j' := if i < m then i else if i == m then k else if i <= k then i - 1 else i,
                    if j < m then j else if j == m then k else if j <= k then j - 1 else j;
      assert v[i] == u[i'] && v[j] == u[j'] && i' != j';
    }
  }

  /** The end of a pass: the last node is terminated and the output is a list. */
  lemma {:induction false} PassDone(next: map<int, int>, out: seq<int>)
    requires Pass(next, out, [], []) && out != []
    ensures List(next[out[|out| - 1] := NULL], out)
  {
    assert out + [] + [] == out;
    var t, next' := out[|out| - 1], next[out[|out| - 1] := NULL];
    forall i, j | 0 <= i < |out| && j == i + 1 && j < |out| ensures next'[out[i]] == out[j] {
      SegmentNext(next, out, i);
    }
  }

  /** Splitting off the first m nodes of the rest as the next first run. */
  lemma {:induction false} PassSplit(next: map<int, int>, out: seq<int>, rem: seq<int>, m: nat)
    requires Pass(next, out, [], rem) && m <= |rem|
    ensures Pass(next, out, rem[..m], rem[m..])
  {
    var ps, qr := rem[..m], rem[m..];
    assert out + [] + rem == out + ps + qr;
    forall i, j | 0 <= i < |ps| && j == i + 1 && j < |ps| ensures next[ps[i]] == ps[j] {
      SegmentNext(next, rem, i);
    }
    forall i, j | 0 <= i < |qr| && j == i + 1 && j < |qr| ensures next[qr[i]] == qr[j] {
      SegmentNext(next, rem, m + i);
    }
    NoDupParts(out + ps, qr);
  }
}
