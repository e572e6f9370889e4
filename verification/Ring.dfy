/** Circular doubly linked lists threaded through memory by address.

    Memory is one map per struct field: `next[a]` is the `next` field of the struct at address
    `a`. A ring with head node `h` and members `xs` visits h, xs[0], xs[1], ..., and h again.
 */
module Ring {
  import opened Common

  /** Position i of the ring; both ends, -1 and |xs|, are the head node. */
  function Nth(h: int, xs: seq<int>, i: int): int {
    if 0 <= i < |xs| then xs[i] else h
  }

  ghost predicate Link(h: int, xs: seq<int>, next: map<int, int>, prev: map<int, int>, i: int) {
    && Nth(h, xs, i) in next && next[Nth(h, xs, i)] == Nth(h, xs, i + 1)
    && Nth(h, xs, i + 1) in prev && prev[Nth(h, xs, i + 1)] == Nth(h, xs, i)
  }

  ghost predicate Linked(h: int, xs: seq<int>, next: map<int, int>, prev: map<int, int>) {
    && h !in xs
    && NoDup(xs)
    && forall i :: -1 <= i < |xs| ==> Link(h, xs, next, prev, i)
  }

  /** Inserting x before position k by the four stores of a doubly linked insertion. */
  lemma {:induction false} InsertLinked(h: int, xs: seq<int>, next: map<int, int>, prev: map<int, int>, k: int, x: int)
    requires Linked(h, xs, next, prev)
    requires 0 <= k <= |xs| && x != h && x !in xs
    ensures var p, n := Nth(h, xs, k - 1), Nth(h, xs, k);
            Linked(h, xs[..k] + [x] + xs[k..], next[x := n][p := x], prev[x := p][n := x])
  {
    var p, n := Nth(h, xs, k - 1), Nth(h, xs, k);
    var ys, next', prev' := xs[..k] + [x] + xs[k..], next[x := n][p := x], prev[x := p][n := x];
    assert forall i :: 0 <= i < |ys| ==> ys[i] == if i < k then xs[i] else if i == k then x else xs[i - 1];
    forall i | -1 <= i < |ys| ensures Link(h, ys, next', prev', i) {
      if i < k {
        assert Link(h, xs, next, prev, i);
      } else {
        assert Link(h, xs, next, prev, i - 1);
      }
    }
  }

  /** Removing position k by the two stores of a doubly linked removal. */
  lemma {:induction false} RemoveLinked(h: int, xs: seq<int>, next: map<int, int>, prev: map<int, int>, k: int)
    requires Linked(h, xs, next, prev)
    requires 0 <= k < |xs|
    ensures var p, n := Nth(h, xs, k - 1), Nth(h, xs, k + 1);
            Linked(h, xs[..k] + xs[k + 1..], next[p := n], prev[n := p])
  {
    var p, n := Nth(h, xs, k - 1), Nth(h, xs, k + 1);
    var ys, next', prev' := xs[..k] + xs[k + 1..], next[p := n], prev[n := p];
    assert forall i :: 0 <= i < |ys| ==> ys[i] == if i < k then xs[i] else xs[i + 1];
    forall i | -1 <= i < |ys| ensures Link(h, ys, next', prev', i) {
      if i < k {
        assert Link(h, xs, next, prev, i);
      } else {
        assert Link(h, xs, next, prev, i + 1);
      }
    }
  }

  /** Putting x in the place of position k. */
  lemma {:induction false} ReplaceLinked(h: int, xs: seq<int>, next: map<int, int>, prev: map<int, int>, k: int, x: int)
    requires Linked(h, xs, next, prev)
    requires 0 <= k < |xs| && x != h && x !in xs
    ensures var p, n := Nth(h, xs, k - 1), Nth(h, xs, k + 1);
            Linked(h, xs[k := x], next[x := n][p := x], prev[x := p][n := x])
  {
    var p, n := Nth(h, xs, k - 1), Nth(h, xs, k + 1);
    var ys, next', prev' := xs[k := x], next[x := n][p := x], prev[x := p][n := x];
    forall i | -1 <= i < |ys| ensures Link(h, ys, next', prev', i) {
      assert Link(h, xs, next, prev, i);
    }
  }
}
