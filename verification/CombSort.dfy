/** The C library's qsort, which is a comb sort. */
module CombSort {

  const SIZE_MAX := 0xFFFF_FFFF

  /** What section 7.20.5.2 of ISO/IEC 9899:1999 asks of a comparison function, by its sign. */
  ghost predicate TotalPreorder<T(!new)>(cmp: (T, T) -> int) {
    && (forall x, y :: cmp(x, y) <= 0 || cmp(y, x) <= 0)
    && (forall x, y, z :: cmp(x, y) <= 0 && cmp(y, z) <= 0 ==> cmp(x, z) <= 0)
  }

  // ---------------------------------------------------------------- the gap

  /** newgap on a 32-bit size_t, where gap * 10 may wrap. */
  function NewGap(gap: nat): (g: nat)
    requires gap <= SIZE_MAX
    ensures 1 <= g && (gap > 1 ==> g < gap) && (gap <= 1 ==> g == 1)
    ensures g != 9 && g != 10
    ensures var w := gap * 10 % 0x1_0000_0000;
            if 117 <= w < 143 then g == 11 else if w < 13 then g == 1 else 13 * g <= w < 13 * g + 13
  {
    var g := gap * 10 % (SIZE_MAX + 1) / 13;
    if g == 9 || g == 10 then 11 else if g < 1 then 1 else g
  }

  // ---------------------------------------------------------------- inversions

  function Swapped<T>(s: seq<T>, i: int, j: int): seq<T>
    requires 0 <= i < |s| && 0 <= j < |s|
  {
    s[i := s[j]][j := s[i]]
  }

  ghost function InversionSet<T(!new)>(cmp: (T, T) -> int, s: seq<T>): set<(int, int)> {
    set i, j | 0 <= i < |s| && 0 <= j < |s| && i < j && cmp(s[i], s[j]) > 0 :: (i, j)
  }

  ghost function Inversions<T(!new)>(cmp: (T, T) -> int, s: seq<T>): nat {
    |InversionSet(cmp, s)|
  }

  lemma {:induction false} InjectionSize(a: set<(int, int)>, b: set<(int, int)>, f: ((int, int)) -> (int, int))
    requires forall p :: p in a ==> f(p) in b
    requires forall p, q :: p in a && q in a && f(p) == f(q) ==> p == q
    ensures |a| <= |b|
    decreases a
  {
    if p :| p in a {
      InjectionSize(a - {p}, b - {f(p)}, f);
    }
  }

  /** The position whose element is at x after exchanging i and j. */
  function Exchange(i: int, j: int, x: int): int {
    if x == i then j else if x == j then i else x
  }

  /** Sends an inversion of the exchanged sequence to one of the original. */
  function Origin(i: int, j: int, p: (int, int)): (int, int) {
    var (x, y) := (Exchange(i, j, p.0), Exchange(i, j, p.1));
    if x < y then (x, y) else p
  }

  lemma {:induction false} GreaterTrans<T(!new)>(cmp: (T, T) -> int, x: T, y: T, z: T)
    requires TotalPreorder(cmp)
    ensures cmp(x, y) > 0 && cmp(y, z) > 0 ==> cmp(x, z) > 0
    ensures cmp(x, y) > 0 ==> cmp(y, x) <= 0
  {
    assert cmp(x, y) <= 0 || cmp(y, x) <= 0;
    assert cmp(y, z) <= 0 || cmp(z, y) <= 0;
    assert cmp(x, z) <= 0 && cmp(z, y) <= 0 ==> cmp(x, y) <= 0;
  }

  lemma {:induction false} OriginInverts<T(!new)>(cmp: (T, T) -> int, s: seq<T>, i: int, j: int, p: (int, int))
    requires TotalPreorder(cmp) && 0 <= i < j < |s| && cmp(s[i], s[j]) > 0
    requires p in InversionSet(cmp, Swapped(s, i, j))
    ensures Origin(i, j, p) in InversionSet(cmp, s) - {(i, j)}
  {
    var (x, y) := p;
    var t := Swapped(s, i, j);
    assert t[x] == s[Exchange(i, j, x)] && t[y] == s[Exchange(i, j, y)];
    if Exchange(i, j, x) > Exchange(i, j, y) {
      GreaterTrans(cmp, s[i], s[j], s[y]);
      GreaterTrans(cmp, s[x], s[i], s[j]);
    }
  }

  /** Exchanging two elements that are in the wrong order, at any distance, strictly reduces the
      number of inversions. */
  lemma {:induction false} SwapReduces<T(!new)>(cmp: (T, T) -> int, s: seq<T>, i: int, j: int)
    requires TotalPreorder(cmp) && 0 <= i < j < |s| && cmp(s[i], s[j]) > 0
    ensures Inversions(cmp, Swapped(s, i, j)) < Inversions(cmp, s)
  {
    var t := Swapped(s, i, j);
    var a, b := InversionSet(cmp, t), InversionSet(cmp, s);
    forall p | p in a ensures Origin(i, j, p) in b - {(i, j)} {
      OriginInverts(cmp, s, i, j, p);
    }
    forall p, q | p in a && q in a && Origin(i, j, p) == Origin(i, j, q) ensures p == q {
      OriginInjective(i, j, p, q);
    }
    assert (i, j) in b;
    hide InversionSet, Swapped, Origin, TotalPreorder;
    InjectionSize(a, b - {(i, j)}, p => Origin(i, j, p));
  }

  lemma {:induction false} OriginInjective(i: int, j: int, p: (int, int), q: (int, int))
    requires i < j && p.0 < p.1 && q.0 < q.1 && Origin(i, j, p) == Origin(i, j, q)
    ensures p == q
  {
  }

  // ---------------------------------------------------------------- the sort

  ghost predicate Sorted<T(!new)>(cmp: (T, T) -> int, s: seq<T>) {
    forall i, j :: 0 <= i < j < |s| ==> cmp(s[i], s[j]) <= 0
  }

  lemma {:induction false} AdjacentSorted<T(!new)>(cmp: (T, T) -> int, s: seq<T>, i: int, j: int)
    requires TotalPreorder(cmp) && 0 <= i < j < |s|
    requires forall k, m :: 0 <= k && m == k + 1 && m < |s| ==> cmp(s[k], s[m]) <= 0
    ensures cmp(s[i], s[j]) <= 0
    decreases j
  {
    if j > i + 1 {
      AdjacentSorted(cmp, s, i, j - 1);
      assert cmp(s[j - 1], s[j]) <= 0;
    }
  }

  /** memswap of elements i and j. */
  method Exchanged<T(!new)>(a: array<T>, i: int, j: int)
    requires 0 <= i < a.Length && 0 <= j < a.Length
    modifies a
    ensures a[..] == Swapped(old(a[..]), i, j) && multiset(a[..]) == multiset(old(a[..]))
  {
    ghost var s := a[..];
    a[i], a[j] := a[j], a[i];
    assert a[..] == Swapped(s, i, j);
  }

  /** Pairs `gap` apart, the first below n, are in order. */
  ghost predicate CombOrdered<T(!new)>(cmp: (T, T) -> int, s: seq<T>, gap: int, n: int) {
    forall k, m :: 0 <= k < n && k < |s| && m == k + gap && 0 <= m < |s| ==> cmp(s[k], s[m]) <= 0
  }

  /** The first i steps of a sweep: pairs `gap` apart, from the left, each exchanged if in the wrong order. */
  function Swept<T>(cmp: (T, T) -> int, s: seq<T>, gap: nat, i: nat): (t: seq<T>)
    requires i == 0 || i + gap <= |s|
    ensures |t| == |s|
  {
    if i == 0 then s else SweepStep(cmp, Swept(cmp, s, gap, i - 1), i - 1, i - 1 + gap)
  }

  function SweepStep<T>(cmp: (T, T) -> int, s: seq<T>, i: nat, j: nat): (t: seq<T>)
    requires i < |s| && j < |s|
    ensures |t| == |s| && (forall k :: 0 <= k < |s| && k != i && k != j ==> t[k] == s[k])
    ensures if cmp(s[i], s[j]) > 0 then t[i] == s[j] && t[j] == s[i] else t[i] == s[i] && t[j] == s[j]
  {
    if cmp(s[i], s[j]) > 0 then Swapped(s, i, j) else s
  }

  /** A sweep carries the greatest element of each comb along: what it leaves behind at i is not above what it
      takes on to i + gap. */
  lemma {:induction false} SweepCarries<T(!new)>(cmp: (T, T) -> int, s: seq<T>, gap: nat, i: nat)
    requires TotalPreorder(cmp) && 1 <= gap && i + 1 + gap <= |s|
    ensures var t, u := Swept(cmp, s, gap, i), Swept(cmp, s, gap, i + 1);
            && u == SweepStep(cmp, t, i, i + gap)
            && cmp(u[i], u[i + gap]) <= 0 && cmp(t[i], u[i + gap]) <= 0 && cmp(t[i + gap], u[i + gap]) <= 0
  {
    var t := Swept(cmp, s, gap, i);
    assert cmp(t[i], t[i + gap]) <= 0 || cmp(t[i + gap], t[i]) <= 0;
    assert cmp(t[i], t[i]) <= 0 && cmp(t[i + gap], t[i + gap]) <= 0;
  }

  /** One sweep: exchange every pair `gap` apart that is in the wrong order. */
  method Sweep<T(!new)>(a: array<T>, gap: nat, cmp: (T, T) -> int) returns (swapped: bool)
    requires TotalPreorder(cmp) && 1 <= gap
    modifies a
    ensures multiset(a[..]) == multiset(old(a[..]))
    ensures swapped ==> Inversions(cmp, a[..]) < Inversions(cmp, old(a[..]))
    ensures !swapped ==> CombOrdered(cmp, a[..], gap, a.Length)
    ensures a[..] == Swept(cmp, old(a[..]), gap, if gap < a.Length then a.Length - gap else 0)
  {
    hide TotalPreorder, Inversions, Swept, SweepStep, CombOrdered, Swapped;
    swapped := false;
    var i := 0;
    ghost var s0 := a[..];
    ghost var s := s0;
    SweepBegins(cmp, s0, gap);
    while i < a.Length - gap
      invariant 0 <= i <= (if gap < a.Length then a.Length - gap else 0) && s == a[..] && multiset(s) == multiset(s0)
      invariant s == Swept(cmp, s0, gap, i)
      invariant if swapped then Inversions(cmp, s) < Inversions(cmp, s0) else s == s0 && CombOrdered(cmp, s, gap, i)
    {
      var j := i + gap;
      SweepNext(cmp, s0, gap, i);
      if cmp(a[i], a[j]) > 0 {
        SwapReduces(cmp, s, i, j);
        Exchanged(a, i, j);
        s := a[..];
        swapped := true;
      }
      i := i + 1;
    }
    SweepEnds(cmp, s, gap, i);
  }

  lemma SweepBegins<T(!new)>(cmp: (T, T) -> int, s: seq<T>, gap: nat)
    ensures Swept(cmp, s, gap, 0) == s && CombOrdered(cmp, s, gap, 0)
  {
  }

  lemma {:induction false} SweepNext<T(!new)>(cmp: (T, T) -> int, s0: seq<T>, gap: nat, i: nat)
    requires i + 1 + gap <= |s0|
    ensures var s := Swept(cmp, s0, gap, i);
            && Swept(cmp, s0, gap, i + 1) == (if cmp(s[i], s[i + gap]) > 0 then Swapped(s, i, i + gap) else s)
            && (CombOrdered(cmp, s, gap, i) && cmp(s[i], s[i + gap]) <= 0 ==> CombOrdered(cmp, s, gap, i + 1))
  {
    hide Swapped;
  }

  lemma SweepEnds<T(!new)>(cmp: (T, T) -> int, s: seq<T>, gap: nat, i: int)
    requires i >= |s| - gap
    ensures CombOrdered(cmp, s, gap, i) ==> CombOrdered(cmp, s, gap, |s|)
  {
  }

  /** qsort: terminates, by the gap and then the inversions, with a sorted permutation. `gaps` are the gaps of the
      sweeps: each the shrunk one before, down to 1. */
  method Sort<T(!new)>(a: array<T>, cmp: (T, T) -> int) returns (ghost gaps: seq<nat>)
    requires TotalPreorder(cmp) && a.Length <= SIZE_MAX
    modifies a
    ensures Sorted(cmp, a[..]) && multiset(a[..]) == multiset(old(a[..]))
    ensures Shrinking(a.Length, gaps) && (a.Length > 0 ==> gaps != [] && gaps[|gaps| - 1] == 1)
  {
    hide Shrinking, NewGap, Inversions, CombOrdered, TotalPreorder, Sorted, Swept, SweepStep, Swapped;
    gaps := [];
    NoGaps(a.Length);
    if a.Length == 0 {
      CombSorted(cmp, a[..]);
      return;
    }
    var gap := NewGap(a.Length);
    var swapped := Sweep(a, gap, cmp);
    NextGap(a.Length, gaps, a.Length);
    gaps := gaps + [gap];
    while gap > 1 || swapped
      invariant 1 <= gap <= SIZE_MAX
      invariant multiset(a[..]) == multiset(old(a[..]))
      invariant !swapped ==> CombOrdered(cmp, a[..], gap, a.Length)
      invariant Shrinking(a.Length, gaps) && gaps != [] && gaps[|gaps| - 1] == gap
      decreases gap, Inversions(cmp, a[..])
    {
      NextGap(a.Length, gaps, gap);
      gap := NewGap(gap);
      swapped := Sweep(a, gap, cmp);
      gaps := gaps + [gap];
      if gap == 1 && !swapped {
        break;
      }
    }
    CombSorted(cmp, a[..]);
  }

  lemma {:induction false} CombSorted<T(!new)>(cmp: (T, T) -> int, s: seq<T>)
    requires TotalPreorder(cmp)
    ensures s == [] || CombOrdered(cmp, s, 1, |s|) ==> Sorted(cmp, s)
  {
    if CombOrdered(cmp, s, 1, |s|) {
      forall i, j | 0 <= i < j < |s| ensures cmp(s[i], s[j]) <= 0 {
        AdjacentSorted(cmp, s, i, j);
      }
    }
  }

  lemma NoGaps(n: nat)
    ensures Shrinking(n, [])
  {
  }

  lemma {:induction false} NextGap(n: nat, gaps: seq<nat>, gap: nat)
    requires Shrinking(n, gaps) && gap <= SIZE_MAX && gap == if gaps == [] then n else gaps[|gaps| - 1]
    ensures Shrinking(n, gaps + [NewGap(gap)])
  {
    hide NewGap;
    var t := gaps + [NewGap(gap)];
    forall j | 0 <= j < |t| ensures Follows(n, t, j) {
      assert j < |gaps| ==> Follows(n, gaps, j);
    }
  }

  /** Gap j follows from the one before, the first from the length. */
  ghost predicate Follows(n: nat, gaps: seq<nat>, j: int)
    requires 0 <= j < |gaps|
  {
    var before := if j == 0 then n else gaps[j - 1];
    before <= SIZE_MAX && gaps[j] == NewGap(before)
  }

  ghost predicate Shrinking(n: nat, gaps: seq<nat>) {
    forall j :: 0 <= j < |gaps| ==> Follows(n, gaps, j)
  }
}
