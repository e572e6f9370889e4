/** The benchmark's iterative quicksort: median of three, scans without bounds checks, and an
    explicit stack of fixed size.
 */
module QuickSort {
  import opened Common

  const INSERTION_THRESHOLD := 10
  const NSTACK := 50

  // ---------------------------------------------------------------- permutations inside a range

  ghost predicate SortedRange(s: seq<int>, lo: int, hi: int) {
    forall x, y :: lo <= x < y < hi && 0 <= x < y < |s| ==> s[x] <= s[y]
  }

  /** t rearranges s inside [lo, hi) and agrees with it outside. */
  ghost predicate Rearranged(s: seq<int>, t: seq<int>, lo: int, hi: int) {
    && |s| == |t| && 0 <= lo <= hi <= |s|
    && multiset(s) == multiset(t)
    && s[..lo] == t[..lo] && s[hi..] == t[hi..]
  }

  lemma {:induction false} RearrangedSlice(s: seq<int>, t: seq<int>, lo: int, hi: int)
    requires Rearranged(s, t, lo, hi)
    ensures multiset(s[lo..hi]) == multiset(t[lo..hi])
  {
    SliceParts(s, lo, hi);
    SliceParts(t, lo, hi);
  }

  lemma {:induction false} SliceParts(s: seq<int>, lo: int, hi: int)
    requires 0 <= lo <= hi <= |s|
    ensures multiset(s[lo..hi]) == multiset(s) - multiset(s[..lo]) - multiset(s[hi..])
  {
    assert s == s[..lo] + s[lo..hi] + s[hi..];
  }

  lemma {:induction false} RearrangedTrans(s: seq<int>, t: seq<int>, u: seq<int>, lo: int, hi: int)
    requires Rearranged(s, t, lo, hi) && Rearranged(t, u, lo, hi)
    ensures Rearranged(s, u, lo, hi)
  {
  }

  /** Every value in the range of t was in the range of s. */
  lemma {:induction false} Origin(s: seq<int>, t: seq<int>, lo: int, hi: int, x: int) returns (x': int)
    requires Rearranged(s, t, lo, hi) && lo <= x < hi
    ensures lo <= x' < hi && s[x'] == t[x]
  {
    RearrangedSlice(s, t, lo, hi);
    assert t[lo..hi][x - lo] in multiset(t[lo..hi]);
    assert t[x] in s[lo..hi];
    var k :| 0 <= k < hi - lo && s[lo..hi][k] == t[x];
    x' := lo + k;
  }

  lemma {:induction false} SwapRearranges(s: seq<int>, i: int, j: int, lo: int, hi: int)
    requires 0 <= lo <= i < hi <= |s| && lo <= j < hi
    ensures Rearranged(s, s[i := s[j]][j := s[i]], lo, hi)
  {
    var t := s[i := s[j]][j := s[i]];
    assert multiset(t) == multiset(s);
  }

  method Swap(a: array<int>, i: int, j: int, ghost lo: int, ghost hi: int)
    requires 0 <= lo <= i < hi <= a.Length && lo <= j < hi
    modifies a
    ensures a[..] == old(a[..])[i := old(a[j])][j := old(a[i])]
    ensures a[i] == old(a[j]) && a[j] == old(a[i])
    ensures forall k :: 0 <= k < a.Length && k != i && k != j ==> a[k] == old(a[k])
    ensures Rearranged(old(a[..]), a[..], lo, hi)
  {
    SwapRearranges(a[..], i, j, lo, hi);
    a[i], a[j] := a[j], a[i];
    assert a[..] == old(a[..])[i := old(a[j])][j := old(a[i])];
  }

  method SwapIfGreater(a: array<int>, i: int, j: int, ghost lo: int, ghost hi: int)
    requires 0 <= lo <= i < hi <= a.Length && lo <= j < hi && i != j
    modifies a
    ensures a[i] <= a[j] && ((a[i] == old(a[i]) && a[j] == old(a[j])) || (a[i] == old(a[j]) && a[j] == old(a[i])))
    ensures forall k :: 0 <= k < a.Length && k != i && k != j ==> a[k] == old(a[k])
    ensures Rearranged(old(a[..]), a[..], lo, hi)
  {
    if a[i] > a[j] {
      Swap(a, i, j, lo, hi);
    }
  }

  // ---------------------------------------------------------------- insertion sort

  /** insertion_sort(n, a + lo) */
  method InsertionSort(a: array<int>, lo: int, n: nat)
    requires 0 <= lo && lo + n <= a.Length
    modifies a
    ensures SortedRange(a[..], lo, lo + n)
    ensures Rearranged(old(a[..]), a[..], lo, lo + n)
  {
    hide SortedRange, Rearranged, MoveDown;
    ghost var s, t := a[..], a[..];
    RearrangedSelf(s, lo, lo + n);
    OneSorted(s, lo);
    var i := lo + 1;
    while i < lo + n
      invariant lo + 1 <= i && (n > 0 ==> i <= lo + n)
      invariant t == a[..] && SortedRange(t, lo, if n > 0 then i else lo) && Rearranged(s, t, lo, lo + n)
    {
      var j := InsertOne(a, lo, i);
      MoveDownRearranges(t, lo, j, i);
      MoveDownSorts(t, lo, j, i);
      RearrangedWider(t, a[..], lo, i + 1, lo + n);
      RearrangedTrans(s, t, a[..], lo, lo + n);
      t := a[..];
      i := i + 1;
    }
  }

  lemma OneSorted(s: seq<int>, lo: int)
    ensures SortedRange(s, lo, lo + 1) && SortedRange(s, lo, lo)
  {
  }

  lemma {:induction false} RearrangedWider(s: seq<int>, t: seq<int>, lo: int, hi: int, hi': int)
    requires Rearranged(s, t, lo, hi) && hi <= hi' <= |s|
    ensures Rearranged(s, t, lo, hi')
  {
    assert s[hi'..] == s[hi..][hi' - hi..] && t[hi'..] == t[hi..][hi' - hi..];
  }

  /** s with its element i moved down to position j. */
  function MoveDown(s: seq<int>, j: int, i: int): seq<int>
    requires 0 <= j <= i < |s|
  {
    s[..j] + [s[i]] + s[j..i] + s[i + 1..]
  }

  lemma {:induction false} MoveDownRearranges(s: seq<int>, lo: int, j: int, i: int)
    requires 0 <= lo <= j <= i < |s|
    ensures Rearranged(s, MoveDown(s, j, i), lo, i + 1)
  {
    MoveDownMultiset(s, j, i);
    var t := MoveDown(s, j, i);
    assert |t| == |s|;
    assert s[..lo] == t[..lo];
    assert s[i + 1..] == t[i + 1..];
  }

  lemma {:induction false} MoveDownMultiset(s: seq<int>, j: int, i: int)
    requires 0 <= j <= i < |s|
    ensures multiset(MoveDown(s, j, i)) == multiset(s)
  {
    MoveDownParts(s, j, i);
    RotateMultiset(s[..j], s[j..i], [s[i]], s[i + 1..]);
  }

  lemma MoveDownParts(s: seq<int>, j: int, i: int)
    requires 0 <= j <= i < |s|
    ensures s == s[..j] + s[j..i] + [s[i]] + s[i + 1..]
  {
  }

  lemma RotateMultiset(p: seq<int>, q: seq<int>, v: seq<int>, r: seq<int>)
    ensures multiset(p + q + v + r) == multiset(p + v + q + r)
  {
  }

  lemma {:induction false} MoveDownSorts(s: seq<int>, lo: int, j: int, i: int)
    requires 0 <= lo <= j <= i < |s| && SortedRange(s, lo, i)
    requires (j > lo ==> s[j - 1] <= s[i]) && (j < i ==> s[i] <= s[j])
    ensures SortedRange(MoveDown(s, j, i), lo, i + 1)
  {
    var t := MoveDown(s, j, i);
    forall x, y | lo <= x < y < i + 1 ensures t[x] <= t[y] {
      var x', y' := if x < j then x else if x == j then i else x - 1, if y < j then y else if y == j then i else y - 1;
      assert t[x] == s[x'] && t[y] == s[y'];
      assert x' < y' < i ==> s[x'] <= s[y'];
      assert y' == i && x' < j - 1 ==> s[x'] <= s[j - 1];
      assert x' == i && j < y' ==> s[j] <= s[y'];
    }
  }

  /** s with positions j..i moved up by one, position j still holding its old value. */
  function Shifted(s: seq<int>, j: int, i: int): seq<int>
    requires 0 <= j <= i < |s|
  {
    s[..j + 1] + s[j..i] + s[i + 1..]
  }

  lemma {:induction false} ShiftedStep(s: seq<int>, j: int, i: int)
    requires 0 <= j <= i < |s|
    ensures |Shifted(s, j, i)| == |s| && Shifted(s, j, i)[j := s[i]] == MoveDown(s, j, i)
    ensures j > 0 ==> Shifted(s, j, i)[j - 1] == s[j - 1] && Shifted(s, j, i)[j := s[j - 1]] == Shifted(s, j - 1, i)
  {
  }

  /** One round of the outer loop: a[i] moves down past the values greater than it. */
  method InsertOne(a: array<int>, lo: int, i: int) returns (j: int)
    requires 0 <= lo < i < a.Length
    modifies a
    ensures lo <= j <= i && a[..] == MoveDown(old(a[..]), j, i)
    ensures (j > lo ==> old(a[j - 1]) <= old(a[i])) && (j < i ==> old(a[i]) <= old(a[j]))
  {
    ghost var s := a[..];
    var value := a[i];
    j := i;
    assert s == Shifted(s, i, i);
    ShiftedStep(s, j, i);
    hide Shifted, MoveDown;
    while value < a[j - 1]
      invariant lo < j <= i
      invariant a[..] == Shifted(s, j, i) && a[j - 1] == s[j - 1]
      invariant j < i ==> value <= s[j]
      decreases j
    {
      ShiftedStep(s, j, i);
      a[j] := a[j - 1];
      assert a[..] == Shifted(s, j, i)[j := s[j - 1]];
      j := j - 1;
      if j == lo {
        break;
      }
      ShiftedStep(s, j, i);
      assert a[..][j - 1] == s[j - 1];
    }
    ShiftedStep(s, j, i);
    a[j] := value;
    assert a[..] == Shifted(s, j, i)[j := value];
  }

  // ---------------------------------------------------------------- partitioning

  /** [lo, hi) is split: what lies before `left` and from `right` on may be unordered among
      themselves, everything else is in order. */
  ghost predicate Split(s: seq<int>, lo: int, left: int, right: int, hi: int) {
    && 0 <= lo <= left < right <= hi <= |s|
    && forall x, y :: lo <= x < y < hi && !(y < left) && !(right <= x) ==> s[x] <= s[y]
  }

  /** All elements are equal. */
  ghost predicate Constant(s: seq<int>) {
    forall x, y :: 0 <= x < |s| && 0 <= y < |s| ==> s[x] == s[y]
  }

  lemma {:induction false} ConstantRearranged(s: seq<int>, t: seq<int>)
    requires multiset(s) == multiset(t)
    ensures Constant(s) ==> Constant(t)
  {
    if Constant(s) {
      forall x, y | 0 <= x < |t| && 0 <= y < |t| ensures t[x] == t[y] {
        assert t[x] in multiset(s) && t[y] in multiset(s);
      }
    }
  }

  /** The four exchanges that put the median of three at lo + 1, its sentinels at both ends. */
  method MedianOfThree(a: array<int>, lo: int, hi: int)
    requires 0 <= lo && lo + 2 < hi <= a.Length
    modifies a
    ensures a[lo] <= a[lo + 1] <= a[hi - 1]
    ensures Rearranged(old(a[..]), a[..], lo, hi)
    ensures var mid := (lo + 1 + hi) / 2 - 1;
            && Ranked(old(a[lo]), old(a[mid]), old(a[hi - 1]), a[lo], a[lo + 1], a[hi - 1])
            && (mid != lo + 1 ==> a[mid] == old(a[lo + 1]))
            && forall k :: 0 <= k < a.Length && k !in {lo, lo + 1, mid, hi - 1} ==> a[k] == old(a[k])
  {
    hide Rearranged;
    ghost var s := a[..];
    Swap(a, (lo + 1 + hi) / 2 - 1, lo + 1, lo, hi);
    ghost var t := a[..];
    SwapIfGreater(a, lo, hi - 1, lo, hi);
    ghost var u := a[..];
    SwapIfGreater(a, lo + 1, hi - 1, lo, hi);
    ghost var v := a[..];
    SwapIfGreater(a, lo, lo + 1, lo, hi);
    RearrangedTrans(s, t, u, lo, hi);
    RearrangedTrans(s, u, v, lo, hi);
    RearrangedTrans(s, v, a[..], lo, hi);
  }

  /** p, q, r are x, y, z by size: the least, the greatest, and what is left of their sum. */
  predicate Ranked(x: int, y: int, z: int, p: int, q: int, r: int) {
    && p <= q <= r && p + q + r == x + y + z
    && p <= x && p <= y && p <= z && (p == x || p == y || p == z)
    && x <= r && y <= r && z <= r && (r == x || r == y || r == z)
  }

  /** The upward scan: no bound is tested, a value not below p at hi - 1 stops it. */
  method ScanUp(a: array<int>, start: int, p: int, ghost hi: int) returns (i: int)
    requires 0 <= start < hi <= a.Length && p <= a[hi - 1]
    ensures start < i <= hi && p <= a[i - 1]
    ensures forall k :: start <= k < i - 1 ==> a[k] < p
  {
    i := start + 1;
    while a[i - 1] < p
      invariant start < i <= hi
      invariant forall k :: start <= k < i - 1 ==> a[k] < p
      decreases hi - i
    {
      i := i + 1;
    }
  }

  /** The downward scan: a value not above p at position lo stops it. */
  method ScanDown(a: array<int>, start: int, p: int, ghost lo: int) returns (j: int)
    requires 0 <= lo && lo + 2 <= start <= a.Length && a[lo] <= p
    ensures lo < j < start && a[j - 1] <= p
    ensures forall k :: j <= k < start - 1 ==> p < a[k]
  {
    j := start - 1;
    while a[j - 1] > p
      invariant lo < j < start
      invariant forall k :: j <= k < start - 1 ==> p < a[k]
      decreases j
    {
      j := j - 1;
    }
  }

  /** The scans have crossed, with the pivot at lo + 1: nothing before i - 1 is above it, nothing from
      j on below it. */
  ghost predicate Sided(t: seq<int>, lo: int, hi: int, i: int, j: int) {
    && 0 <= lo && lo + 2 <= j < i <= hi <= |t|
    && (forall k :: lo <= k < i - 1 ==> t[k] <= t[lo + 1])
    && (forall k :: j <= k < hi ==> t[lo + 1] <= t[k])
    && t[j - 1] <= t[lo + 1]
  }

  /** Exchanging the pivot with the last small element splits the range. */
  lemma {:induction false} PivotPlaced(t: seq<int>, lo: int, hi: int, i: int, j: int)
    requires Sided(t, lo, hi, i, j)
    ensures Split(t[lo + 1 := t[j - 1]][j - 1 := t[lo + 1]], lo, j - 1, i - 1, hi)
  {
    var p := t[lo + 1];
    var u := t[lo + 1 := t[j - 1]][j - 1 := p];
    forall x, y | lo <= x < y < hi && !(y < j - 1) && !(i - 1 <= x) ensures u[x] <= u[y] {
      assert u[x] <= p && p <= u[y];
    }
  }

  /** Both scans and the exchanges. The scans stay inside [lo, hi) because the pivot below and the
      value at hi - 1 above stop them, and every exchange leaves both in place. */
  method Partition(a: array<int>, lo: int, hi: int) returns (i: int, j: int)
    requires 0 <= lo && lo + 2 < hi <= a.Length
    modifies a
    ensures lo + 2 <= j < i <= hi
    ensures Split(a[..], lo, j - 1, i - 1, hi)
    ensures Rearranged(old(a[..]), a[..], lo, hi)
    ensures Constant(old(a[..])) ==> j - 1 - lo == hi - (i - 1) == (hi - lo - 1) / 2
  {
    hide Rearranged, Split, Constant, Sided;
    ghost var s := a[..];
    MedianOfThree(a, lo, hi);
    ghost var t := a[..];
    RearrangedMultiset(s, t, lo, hi);
    ConstantRearranged(s, t);
    i, j := ScanAndSwap(a, lo, hi);
    RearrangedTrans(s, t, a[..], lo, hi);
    t := a[..];
    PivotPlaced(t, lo, hi, i, j);
    Swap(a, lo + 1, j - 1, lo, hi);
    RearrangedTrans(s, t, a[..], lo, hi);
  }

  lemma RearrangedMultiset(s: seq<int>, t: seq<int>, lo: int, hi: int)
    requires Rearranged(s, t, lo, hi)
    ensures multiset(s) == multiset(t)
  {
  }

  lemma RearrangedSelf(s: seq<int>, lo: int, hi: int)
    requires 0 <= lo <= hi <= |s|
    ensures Rearranged(s, s, lo, hi)
  {
  }

  method ScanAndSwap(a: array<int>, lo: int, hi: int) returns (i: int, j: int)
    requires 0 <= lo && lo + 2 < hi <= a.Length && a[lo] <= a[lo + 1] <= a[hi - 1]
    modifies a
    ensures lo + 2 <= j < i <= hi && Sided(a[..], lo, hi, i, j)
    ensures Rearranged(old(a[..]), a[..], lo, hi)
    ensures Constant(old(a[..])) ==> j - 1 - lo == hi - (i - 1) == (hi - lo - 1) / 2
  {
    hide Rearranged, Constant, Scanned, Sided;
    ghost var s, t := a[..], a[..];
    RearrangedSelf(s, lo, hi);
    i, j := lo + 2, hi;
    var p := a[lo + 1];
    StartScanned(s, lo, hi, p);
    while true
      invariant t == a[..] && Scanned(t, lo, hi, i, j, p) && Rearranged(s, t, lo, hi)
      invariant lo + 2 <= i <= j <= hi && i < hi && lo + 3 <= j && a[lo + 1] == p && p <= a[hi - 1]
      invariant Constant(s) ==> Constant(t) && i - (lo + 2) == hi - j
      decreases j - i
    {
      i, j := ScanBoth(a, i, j, p, lo, hi, t);
      if j < i {
        if Constant(s) {
          Middle(lo, hi, i, j);
        }
        break;
      }
      Swap(a, i - 1, j - 1, lo, hi);
      RearrangedTrans(s, t, a[..], lo, hi);
      RearrangedMultiset(t, a[..], lo, hi);
      ConstantRearranged(t, a[..]);
      t := a[..];
    }
  }

  /** One round of both scans. */
  method ScanBoth(a: array<int>, i0: int, j0: int, p: int, ghost lo: int, ghost hi: int, ghost t: seq<int>)
    returns (i: int, j: int)
    requires t == a[..] && Scanned(t, lo, hi, i0, j0, p) && 0 <= lo
    requires lo + 2 <= i0 <= j0 <= hi <= a.Length && i0 < hi && lo + 3 <= j0 && p <= a[hi - 1]
    ensures i0 < i <= hi && lo + 1 < j < j0
    ensures j < i ==> Sided(t, lo, hi, i, j)
    ensures i <= j ==> Scanned(t[i - 1 := t[j - 1]][j - 1 := t[i - 1]], lo, hi, i, j, p)
    ensures Constant(t) ==> i == i0 + 1 && j == j0 - 1
  {
    i := ScanUp(a, i0, p, hi);
    j := ScanDown(a, j0, p, lo + 1);
    ScansOfConstant(t, lo + 1, i0, i, j, j0, p);
    ScansMeet(t, lo, hi, i0, j0, i, j, p);
  }

  /** Between two rounds: nothing before i is above the pivot, nothing from j - 1 on below it. */
  ghost predicate Scanned(s: seq<int>, lo: int, hi: int, i: int, j: int, p: int) {
    && 0 <= lo && lo + 2 <= i <= hi <= |s| && lo + 1 <= j <= hi && s[lo + 1] == p
    && (forall k :: lo <= k < i ==> s[k] <= p)
    && (forall k :: j - 1 <= k < hi ==> p <= s[k])
  }

  lemma StartScanned(s: seq<int>, lo: int, hi: int, p: int)
    requires 0 <= lo && lo + 2 < hi <= |s| && s[lo] <= s[lo + 1] == p <= s[hi - 1]
    ensures Scanned(s, lo, hi, lo + 2, hi, p)
  {
  }

  /** What both scans passed lies on its side of the pivot, and what is then exchanged too. */
  lemma {:induction false} ScansMeet(s: seq<int>, lo: int, hi: int, i0: int, j0: int, i: int, j: int, p: int)
    requires Scanned(s, lo, hi, i0, j0, p) && i0 < i <= hi && lo + 1 < j < j0
    requires forall k :: i0 <= k < i - 1 ==> s[k] < p
    requires forall k :: j <= k < j0 - 1 ==> p < s[k]
    requires p <= s[i - 1] && s[j - 1] <= p
    ensures j < i ==> Sided(s, lo, hi, i, j)
    ensures i <= j ==> Scanned(s[i - 1 := s[j - 1]][j - 1 := s[i - 1]], lo, hi, i, j, p)
  {
    assert forall k :: lo <= k < i - 1 ==> k < i0 || s[k] < p;
    assert forall k :: j <= k < hi ==> j0 - 1 <= k || p < s[k];
  }

  /** Among equal elements both scans stop at once. */
  lemma {:induction false} ScansOfConstant(s: seq<int>, q: int, i0: int, i: int, j: int, j0: int, p: int)
    requires 0 <= q < |s| && s[q] == p && 0 <= i0 < i <= |s| && 0 < j < j0 <= |s|
    requires forall k :: i0 <= k < i - 1 ==> s[k] < p
    requires forall k :: j <= k < j0 - 1 ==> p < s[k]
    ensures Constant(s) ==> i == i0 + 1 && j == j0 - 1
  {
    assert i0 < i - 1 ==> s[i0] != s[q];
    assert j < j0 - 1 ==> s[j] != s[q];
  }

  /** Scans that move together meet in the middle. */
  lemma Middle(lo: int, hi: int, i: int, j: int)
    requires i - (lo + 2) == hi - j && j < i <= j + 2
    ensures j - 1 - lo == hi - (i - 1) == (hi - lo - 1) / 2
  {
  }

  // ---------------------------------------------------------------- pending ranges

  datatype Range = Range(lo: int, hi: int) {
    predicate Has(x: int) { lo <= x < hi }
    function Size(): int { hi - lo }
  }

  ghost predicate Together(rs: seq<Range>, x: int, y: int) {
    exists k :: 0 <= k < |rs| && rs[k].Has(x) && rs[k].Has(y)
  }

  /** Any two positions that no pending range holds together are in order. */
  ghost predicate Ordered(s: seq<int>, rs: seq<Range>) {
    forall x, y :: 0 <= x < y < |s| ==> s[x] <= s[y] || Together(rs, x, y)
  }

  /** Pending ranges lie inside the array, apart from each other. */
  ghost predicate Apart(rs: seq<Range>, n: int) {
    && (forall k :: 0 <= k < |rs| ==> 0 <= rs[k].lo <= rs[k].hi <= n)
    && forall k, m, x :: 0 <= k < m < |rs| && rs[k].Has(x) ==> !rs[m].Has(x)
  }

  /** Work inside the last pending range that leaves it split into two new ones, in order but for
      these, keeps the whole array ordered up to the pending ranges. */
  lemma {:induction false} SplitKeepsOrder(s: seq<int>, t: seq<int>, rs: seq<Range>, r: Range, new0: Range, new1: Range)
    requires Apart(rs + [r], |s|) && Ordered(s, rs + [r]) && Rearranged(s, t, r.lo, r.hi)
    requires forall x, y :: r.lo <= x < y < r.hi ==>
               t[x] <= t[y] || (new0.Has(x) && new0.Has(y)) || (new1.Has(x) && new1.Has(y))
    ensures Ordered(t, rs + [new0, new1])
  {
    var rs0, rs1 := rs + [r], rs + [new0, new1];
    assert rs0[|rs|] == r && rs1[|rs|] == new0 && rs1[|rs| + 1] == new1;
    forall x, y | 0 <= x < y < |t| ensures t[x] <= t[y] || Together(rs1, x, y) {
      if r.Has(x) && r.Has(y) {
      } else {
        OutsideKeepsOrder(s, t, rs, r, x, y);
        if k :| 0 <= k < |rs| && rs[k].Has(x) && rs[k].Has(y) {
          assert rs1[k] == rs[k];
        }
      }
    }
  }

  lemma {:induction false} OutsideKeepsOrder(s: seq<int>, t: seq<int>, rs: seq<Range>, r: Range, x: int, y: int)
    requires Apart(rs + [r], |s|) && Ordered(s, rs + [r]) && Rearranged(s, t, r.lo, r.hi)
    requires 0 <= x < y < |s| && !(r.Has(x) && r.Has(y))
    ensures t[x] <= t[y] || Together(rs, x, y)
  {
    var rs0 := rs + [r];
    assert rs0[|rs|] == r;
    assert forall k :: 0 <= k < |rs| ==> rs0[k] == rs[k];
    var x', y' := x, y;
    if r.Has(x) {
      x' := Origin(s, t, r.lo, r.hi, x);
    } else {
      assert t[x] == (if x < r.lo then t[..r.lo][x] else t[r.hi..][x - r.hi]);
    }
    if r.Has(y) {
      y' := Origin(s, t, r.lo, r.hi, y);
    } else {
      assert t[y] == (if y < r.lo then t[..r.lo][y] else t[r.hi..][y - r.hi]);
    }
    assert s[x'] == t[x] && s[y'] == t[y] && x' < y';
    assert s[x'] <= s[y'] || Together(rs0, x', y');
  }

  // ---------------------------------------------------------------- the depth of the stack

  function Pow2(k: nat): (r: nat)
    ensures r >= 1
  {
    if k == 0 then 1 else 2 * Pow2(k - 1)
  }

  function Log2(n: nat): nat
    requires n > 0
  {
    if n == 1 then 0 else 1 + Log2(n / 2)
  }

  /** How many ranges an array of n equal elements puts on the stack, which is the most any does. */
  function Depth(n: nat): nat {
    if n <= INSERTION_THRESHOLD then 0 else 1 + Depth((n - 1) / 2)
  }

  lemma {:induction false} DepthMonotone(m: nat, n: nat)
    requires m <= n
    ensures Depth(m) <= Depth(n)
  {
    if m > INSERTION_THRESHOLD {
      DepthMonotone((m - 1) / 2, (n - 1) / 2);
    }
  }

  /** More than k ranges exactly from 12 * 2^k - 1 elements on. */
  lemma {:induction false} DepthExceeds(n: nat, k: nat)
    ensures Depth(n) > k <==> n >= 12 * Pow2(k) - 1
    decreases k
  {
    if k == 0 {
      assert Pow2(0) == 1;
    } else if n > INSERTION_THRESHOLD {
      DepthExceeds((n - 1) / 2, k - 1);
    }
  }

  /** The rule of thumb of 2 * lg n slots is always enough. */
  lemma {:induction false} DepthLog(n: nat)
    requires n > 0
    ensures Depth(n) <= Log2(n) && (n > INSERTION_THRESHOLD ==> Depth(n) < Log2(n))
    decreases n
  {
    if n > INSERTION_THRESHOLD {
      if n > 22 {
        DepthLog((n - 1) / 2);
      }
      Log2Monotone((n - 1) / 2, n / 2);
    }
  }

  lemma {:induction false} Log2Monotone(m: nat, n: nat)
    requires 0 < m <= n
    ensures Log2(m) <= Log2(n)
    decreases n
  {
    if m > 1 {
      Log2Monotone(m / 2, n / 2);
    }
  }

  /** The fifty slots of the source hold every array of a given length if and only if it has fewer
      than 12 * 2^24 - 1 elements. */
  lemma {:induction false} FiftySlots(n: nat)
    ensures 2 * Depth(n) < NSTACK <==> n < 12 * 0x100_0000 - 1
  {
    DepthExceeds(n, 24);
    Pow2Of24();
  }

  /** The first length that fails: its equal elements need one slot more than there are. */
  lemma {:induction false} FirstFailure(n: nat)
    requires n == 12 * 0x100_0000 - 1
    ensures 2 * Depth(n) == NSTACK && 2 * Depth(n - 1) == NSTACK - 2
  {
    hide Depth;
    Pow2Of24();
    DepthExceeds(n, 24);
    DepthExceeds(n, 25);
    DepthExceeds(n - 1, 24);
    DepthExceeds(n - 1, 23);
    assert Pow2(25) == 2 * Pow2(24) == 4 * Pow2(23);
  }

  lemma {:induction false} Pow2Sum(k: nat, m: nat)
    ensures Pow2(k + m) == Pow2(k) * Pow2(m)
    decreases m
  {
    if m > 0 {
      Pow2Sum(k, m - 1);
    }
  }

  lemma {:induction false} Pow2Of24()
    ensures Pow2(24) == 0x100_0000
  {
    assert Pow2(2) == 4;
    Pow2Sum(2, 1);
    Pow2Sum(3, 3);
    Pow2Sum(6, 6);
    Pow2Sum(12, 12);
  }

  /** A range k levels up the stack has at most n / 2^k elements, and is at most so deep itself that
      with those below it the depth of the whole array is not exceeded. */
  ghost predicate Halving(rs: seq<Range>, n: int) {
    forall k :: 0 <= k < |rs| ==> Level(rs[k].Size(), k, n)
  }

  ghost predicate Level(size: int, k: nat, n: int) {
    0 <= size <= n && k + Depth(size) <= Depth(n) && size * Pow2(k) <= n
  }

  /** Work left: twice the elements pending, plus one per range. */
  function Weight(rs: seq<Range>): int {
    if rs == [] then 0 else Weight(rs[..|rs| - 1]) + 2 * rs[|rs| - 1].Size() + 1
  }

  lemma {:induction false} WeightNat(rs: seq<Range>, n: int)
    requires Apart(rs, n)
    ensures Weight(rs) >= |rs|
    decreases |rs|
  {
    if rs != [] {
      assert forall k :: 0 <= k < |rs| - 1 ==> rs[..|rs| - 1][k] == rs[k];
      WeightNat(rs[..|rs| - 1], n);
    }
  }

  /** The stack memory holds the pending ranges below the current one: l in odd slots, ir in even
      ones, from slot 1 on. */
  ghost predicate Stacked(stack: seq<int>, rs: seq<Range>) {
    && 2 * |rs| < |stack|
    && forall k :: 0 <= k < |rs| ==> stack[2 * k + 1] == rs[k].lo + 1 && stack[2 * k + 2] == rs[k].hi
  }

  /** What the main loop keeps: every position is in order but inside the pending ranges, of which
      `cur` is being worked on and the others are on the stack. */
  ghost predicate LoopInv(s: seq<int>, rs: seq<Range>, cur: Range, n: int) {
    && |s| == n
    && Apart(rs + [cur], n)
    && Ordered(s, rs + [cur])
    && Halving(rs + [cur], n)
  }

  /** The current range sorted: it is no longer pending. */
  lemma {:induction false} DoneKeepsInv(s: seq<int>, t: seq<int>, rs: seq<Range>, cur: Range, n: int)
    requires LoopInv(s, rs, cur, n) && Rearranged(s, t, cur.lo, cur.hi) && SortedRange(t, cur.lo, cur.hi)
    ensures rs == [] ==> SortedRange(t, 0, n)
    ensures rs != [] ==> LoopInv(t, rs[..|rs| - 1], rs[|rs| - 1], n)
  {
    var none := Range(0, 0);
    SplitKeepsOrder(s, t, rs, cur, none, none);
    var rs1 := rs + [none, none];
    forall x, y | 0 <= x < y < n ensures t[x] <= t[y] || Together(rs, x, y) {
      if k :| 0 <= k < |rs1| && rs1[k].Has(x) && rs1[k].Has(y) {
        assert rs1[k] == rs[k];
      }
    }
    assert forall k :: 0 <= k < |rs| ==> (rs + [cur])[k] == rs[k];
    assert rs != [] ==> rs[..|rs| - 1] + [rs[|rs| - 1]] == rs;
  }

  /** Inside cur, positions not both in p or both in q are in order. */
  ghost predicate OrderedBut(t: seq<int>, cur: Range, p: Range, q: Range) {
    && 0 <= cur.lo <= cur.hi <= |t|
    && forall x, y :: cur.lo <= x < y < cur.hi ==> t[x] <= t[y] || (p.Has(x) && p.Has(y)) || (q.Has(x) && q.Has(y))
  }

  /** Two ranges inside a third, apart from each other. */
  ghost predicate Parts(cur: Range, p: Range, q: Range) {
    && cur.lo <= p.lo <= p.hi <= cur.hi && cur.lo <= q.lo <= q.hi <= cur.hi
    && (p.hi <= q.lo || q.hi <= p.lo)
    && p.Size() + q.Size() < cur.Size()
  }

  lemma SplitOrdered(t: seq<int>, cur: Range, left: int, right: int)
    requires Split(t, cur.lo, left, right, cur.hi)
    ensures OrderedBut(t, cur, Range(cur.lo, left), Range(right, cur.hi))
    ensures OrderedBut(t, cur, Range(right, cur.hi), Range(cur.lo, left))
  {
  }

  /** The current range partitioned: its larger part goes on the stack, its smaller part is next. */
  lemma {:induction false} PushKeepsInv(s: seq<int>, t: seq<int>, rs: seq<Range>, cur: Range, big: Range,
                                        small: Range, n: int)
    requires LoopInv(s, rs, cur, n) && Rearranged(s, t, cur.lo, cur.hi)
    requires Parts(cur, big, small) && small.Size() <= big.Size() && OrderedBut(t, cur, big, small)
    requires cur.Size() > INSERTION_THRESHOLD
    ensures LoopInv(t, rs + [big], small, n)
  {
    assert rs + [big] + [small] == rs + [big, small];
    SplitKeepsOrder(s, t, rs, cur, big, small);
    PushApart(rs, cur, big, small, n);
    PushHalving(rs, cur, big, small, n);
  }

  lemma {:induction false} PushHalving(rs: seq<Range>, cur: Range, big: Range, small: Range, n: int)
    requires Halving(rs + [cur], n) && Parts(cur, big, small) && small.Size() <= big.Size()
    requires cur.Size() > INSERTION_THRESHOLD
    ensures Halving(rs + [big, small], n)
  {
    var rs0, rs1 := rs + [cur], rs + [big, small];
    assert rs0[|rs|] == cur;
    LevelDown(small.Size(), big.Size(), cur.Size(), |rs|, n);
    hide Level;
    forall k | 0 <= k < |rs1| ensures Level(rs1[k].Size(), k, n) {
      assert k < |rs| ==> rs0[k] == rs1[k];
    }
  }

  /** The larger part stays at the level of its range, the smaller one fits the next. */
  lemma {:induction false} LevelDown(small: int, big: int, size: int, k: nat, n: int)
    requires Level(size, k, n) && 0 <= small <= big && small + big < size && size > INSERTION_THRESHOLD
    ensures Level(big, k, n) && Level(small, k + 1, n)
  {
    DepthMonotone(big, size);
    DepthMonotone(small, (size - 1) / 2);
    var p := Pow2(k);
    assert Depth(size) == 1 + Depth((size - 1) / 2) && Pow2(k + 1) == 2 * p;
    hide Depth, Pow2;
    MulMono(big, size, p);
    HalfSize(small, size, p);
  }

  lemma HalfSize(small: int, size: int, p: nat)
    requires 2 * small <= size
    ensures small * (2 * p) <= size * p
  {
    MulMono(2 * small, size, p);
  }

  lemma {:induction false} PushWeight(rs: seq<Range>, cur: Range, p: Range, q: Range)
    requires p.Size() + q.Size() < cur.Size()
    ensures Weight(rs + [p] + [q]) < Weight(rs + [cur])
  {
    assert (rs + [p] + [q])[..|rs| + 1] == rs + [p];
    assert (rs + [p])[..|rs|] == rs && (rs + [cur])[..|rs|] == rs;
  }

  lemma {:induction false} PushApart(rs: seq<Range>, cur: Range, p: Range, q: Range, n: int)
    requires Apart(rs + [cur], n) && Parts(cur, p, q)
    ensures Apart(rs + [p, q], n)
  {
    var rs0, rs1 := rs + [cur], rs + [p, q];
    assert rs0[|rs|] == cur;
    forall k, m, x | 0 <= k < m < |rs1| && rs1[k].Has(x) ensures !rs1[m].Has(x) {
      if k < |rs| {
        assert rs0[k] == rs1[k];
        assert !rs0[if m < |rs| then m else |rs|].Has(x);
      }
    }
    forall k | 0 <= k < |rs1| ensures 0 <= rs1[k].lo <= rs1[k].hi <= n {
      if k < |rs| {
        assert rs0[k] == rs1[k];
      }
    }
  }

  /** A push at depth k takes the stack no deeper than the array is. */
  lemma {:induction false} RoomToPush(k: nat, n: nat, size: int)
    requires size > INSERTION_THRESHOLD && Level(size, k, n)
    ensures k + 1 <= Depth(n)
  {
  }

  /** Push the larger of [l, j - 1] and [i, ir], go on with the other. */
  method PushLarger(stack: array<int>, sp: nat, l: int, j: int, i: int, ir: int, ghost rs: seq<Range>)
    returns (sp': nat, l': int, ir': int)
    requires Stacked(stack[..], rs) && sp == 2 * |rs| && sp + 2 < stack.Length
    modifies stack
    ensures sp' == sp + 2
    ensures var left, right := Range(l - 1, j - 1), Range(i - 1, ir);
            if right.Size() >= left.Size() then Range(l' - 1, ir') == left && Stacked(stack[..], rs + [right])
            else Range(l' - 1, ir') == right && Stacked(stack[..], rs + [left])
  {
    sp' := sp + 2;
    if ir - i + 1 >= j - l {
      stack[sp'] := ir;
      stack[sp' - 1] := i;
      l', ir' := l, j - 1;
    } else {
      stack[sp'] := j - 1;
      stack[sp' - 1] := l;
      l', ir' := i, ir;
    }
  }

  method Pop(stack: array<int>, sp: nat, ghost rs: seq<Range>) returns (sp': nat, l: int, ir: int)
    requires Stacked(stack[..], rs) && sp == 2 * |rs| > 0
    ensures sp' == sp - 2 && Range(l - 1, ir) == rs[|rs| - 1] && Stacked(stack[..], rs[..|rs| - 1])
  {
    sp' := sp;
    ir := stack[sp'];
    sp' := sp' - 1;
    l := stack[sp'];
    sp' := sp' - 1;
    assert stack[..][2 * (|rs| - 1) + 1] == rs[|rs| - 1].lo + 1;
  }

  /** Partition the current range; `big` is the part to push and `small` the one to go on with. */
  method PartitionCurrent(a: array<int>, l: int, ir: int, ghost s: seq<int>, ghost rs: seq<Range>)
    returns (i: int, j: int, ghost t: seq<int>, ghost big: Range, ghost small: Range)
    requires s == a[..] && LoopInv(s, rs, Range(l - 1, ir), a.Length) && ir - l >= INSERTION_THRESHOLD
    requires 0 <= l - 1 && ir <= a.Length
    modifies a
    ensures t == a[..] && multiset(t) == multiset(s)
    ensures if ir - i + 1 >= j - l then big == Range(i - 1, ir) && small == Range(l - 1, j - 1)
            else big == Range(l - 1, j - 1) && small == Range(i - 1, ir)
    ensures LoopInv(t, rs + [big], small, a.Length)
    ensures Weight(rs + [big] + [small]) < Weight(rs + [Range(l - 1, ir)])
    ensures Constant(s) ==> small.Size() == (ir - l) / 2
  {
    hide LoopInv, Constant, Weight, Split, OrderedBut, Rearranged;
    i, j := Partition(a, l - 1, ir);
    t := a[..];
    RearrangedMultiset(s, t, l - 1, ir);
    if ir - i + 1 >= j - l {
      big, small := Range(i - 1, ir), Range(l - 1, j - 1);
    } else {
      big, small := Range(l - 1, j - 1), Range(i - 1, ir);
    }
    SplitOrdered(t, Range(l - 1, ir), j - 1, i - 1);
    PushKeepsInv(s, t, rs, Range(l - 1, ir), big, small, a.Length);
    PushWeight(rs, Range(l - 1, ir), big, small);
  }

  /** A range too small to partition is sorted by insertion; the one on top of the stack is next. */
  method SortCurrent(a: array<int>, l: int, ir: int, ghost s: seq<int>,
                     ghost rs: seq<Range>) returns (ghost t: seq<int>)
    requires s == a[..] && LoopInv(s, rs, Range(l - 1, ir), a.Length)
    requires 0 <= l - 1 <= ir <= a.Length
    modifies a
    ensures t == a[..] && multiset(t) == multiset(s)
    ensures rs == [] ==> SortedRange(t, 0, a.Length)
    ensures rs != [] ==> LoopInv(t, rs[..|rs| - 1], rs[|rs| - 1], a.Length)
  {
    InsertionSort(a, l - 1, ir - l + 1);
    t := a[..];
    DoneKeepsInv(s, t, rs, Range(l - 1, ir), a.Length);
  }

  /** A run over equal elements goes straight down, each range half of the one before, until the
      stack is as deep as the array. */
  ghost predicate Descending(s: seq<int>, rs: seq<Range>, cur: Range, n: nat, peak: nat) {
    Constant(s) && peak != 2 * Depth(n) ==>
      peak == 2 * |rs| && 0 <= cur.Size() && |rs| + Depth(cur.Size()) == Depth(n)
  }

  lemma {:induction false} Descends(s: seq<int>, t: seq<int>, rs: seq<Range>, cur: Range, big: Range, small: Range,
                                    n: nat, peak: nat)
    requires Descending(s, rs, cur, n, peak) && cur.Size() > INSERTION_THRESHOLD && multiset(s) == multiset(t)
    requires Constant(s) ==> small.Size() == (cur.Size() - 1) / 2
    requires |rs| + 1 <= Depth(n) && peak <= 2 * Depth(n)
    ensures var sp := 2 * |rs| + 2; Descending(t, rs + [big], small, n, if sp > peak then sp else peak)
  {
    ConstantRearranged(t, s);
  }

  lemma {:induction false} Bottom(s: seq<int>, t: seq<int>, rs: seq<Range>, cur: Range, rs': seq<Range>, cur': Range,
                                  n: nat, peak: nat)
    requires Descending(s, rs, cur, n, peak) && cur.Size() <= INSERTION_THRESHOLD && multiset(s) == multiset(t)
    ensures Descending(t, rs', cur', n, peak) && (Constant(s) ==> peak == 2 * Depth(n))
  {
    ConstantRearranged(t, s);
  }

  /** sort with a stack of so many slots. A push beyond them, which in the source writes past the
      array, ends the run as an overflow; without one the result is a sorted permutation. No array
      uses more than 2 * Depth(n) entries and an array of equal elements uses exactly so many. */
  method SortWithin(a: array<int>, slots: nat) returns (overflow: bool, ghost peak: nat)
    requires slots > 0
    modifies a
    ensures !overflow ==> SortedRange(a[..], 0, a.Length)
    ensures multiset(a[..]) == multiset(old(a[..]))
    ensures peak <= 2 * Depth(a.Length) && peak < slots
    ensures 2 * Depth(a.Length) < slots ==> !overflow
    ensures Constant(old(a[..])) ==> (overflow <==> slots <= 2 * Depth(a.Length))
    ensures Constant(old(a[..])) && !overflow ==> peak == 2 * Depth(a.Length)
  {
    hide LoopInv, Depth, Constant, Descending, Stacked, Weight, Level, SortedRange;
    var l, ir := 1, a.Length;
    var stack := new int[slots];
    var sp: nat := 0;
    ghost var n, s, rs: seq<Range>, cur := a.Length, a[..], [], Range(0, a.Length);
    peak, overflow := 0, false;
    StartInv(s);
    NothingStacked(stack[..]);
    while true
      invariant fresh(stack) && stack.Length == slots && !overflow
      invariant s == a[..] && multiset(s) == multiset(old(a[..]))
      invariant cur == Range(l - 1, ir) && LoopInv(s, rs, cur, n)
      invariant Stacked(stack[..], rs) && sp == 2 * |rs|
      invariant peak <= 2 * Depth(n) && peak < slots && Descending(s, rs, cur, n, peak)
      decreases Weight(rs + [cur])
    {
      CurInside(s, rs, cur, n);
      if ir - l < INSERTION_THRESHOLD {
        ghost var t := s;
        s := SortCurrent(a, l, ir, s, rs);
        if sp == 0 {
          Bottom(t, s, rs, cur, rs, cur, n, peak);
          ConstantRearranged(old(a[..]), t);
          break;
        }
        sp, l, ir := Pop(stack, sp, rs);
        Bottom(t, s, rs, cur, rs[..|rs| - 1], rs[|rs| - 1], n, peak);
        rs, cur := rs[..|rs| - 1], rs[|rs| - 1];
      } else {
        RoomToPush(|rs|, n, cur.Size());
        if sp + 2 >= slots {
          overflow := true;
          break;
        }
        var i, j; ghost var t, big, small;
        i, j, t, big, small := PartitionCurrent(a, l, ir, s, rs);
        sp, l, ir := PushLarger(stack, sp, l, j, i, ir, rs);
        Descends(s, t, rs, cur, big, small, n, peak);
        s, rs, cur := t, rs + [big], small;
        peak := if sp > peak then sp else peak;
      }
    }
  }

  /** sort, with its fifty slots: a sorted permutation of every array of fewer than 12 * 2^24 - 1
      elements; from there on an array of equal elements overruns the stack. */
  method Sort(a: array<int>) returns (overflow: bool, ghost peak: nat)
    modifies a
    ensures !overflow ==> SortedRange(a[..], 0, a.Length)
    ensures multiset(a[..]) == multiset(old(a[..]))
    ensures a.Length < 12 * 0x100_0000 - 1 ==> !overflow
    ensures Constant(old(a[..])) ==> (overflow <==> a.Length >= 12 * 0x100_0000 - 1)
    ensures a.Length > 0 ==> peak <= 2 * Log2(a.Length)
  {
    FiftySlots(a.Length);
    if a.Length > 0 {
      DepthLog(a.Length);
    }
    hide Depth, Constant, SortedRange, Log2;
    overflow, peak := SortWithin(a, NSTACK);
  }

  lemma NothingStacked(stack: seq<int>)
    requires stack != []
    ensures Stacked(stack, [])
  {
  }

  lemma {:induction false} CurInside(s: seq<int>, rs: seq<Range>, cur: Range, n: int)
    requires LoopInv(s, rs, cur, n)
    ensures 0 <= cur.lo <= cur.hi <= n && Level(cur.Size(), |rs|, n)
    ensures 0 <= Weight(rs) < Weight(rs + [cur])
    ensures rs != [] ==> Weight(rs[..|rs| - 1] + [rs[|rs| - 1]]) == Weight(rs)
  {
    assert (rs + [cur])[|rs|] == cur && (rs + [cur])[..|rs|] == rs;
    assert forall k :: 0 <= k < |rs| ==> (rs + [cur])[k] == rs[k];
    WeightNat(rs, n);
    assert rs != [] ==> rs[..|rs| - 1] + [rs[|rs| - 1]] == rs;
  }

  lemma {:induction false} StartInv(s: seq<int>)
    ensures LoopInv(s, [], Range(0, |s|), |s|) && Descending(s, [], Range(0, |s|), |s|, 0)
  {
    var rs := [] + [Range(0, |s|)];
    assert rs[0] == Range(0, |s|);
    assert Pow2(0) == 1;
    forall x, y | 0 <= x < y < |s| ensures Together(rs, x, y) {
      assert rs[0].Has(x) && rs[0].Has(y);
    }
  }
}
