/** The benchmark's least-significant-digit radix sort: histogram and scatter loops unrolled four
    times, prefix sums in place, and two arrays that trade places after each pass.
 */
module RadixSort {
  import opened Common

  type word = x: int | 0 <= x < 0x1_0000_0000

  const BASE := 256

  function Pow(k: nat): (r: nat)
    ensures r > 0
  {
    if k == 0 then 1 else BASE * Pow(k - 1)
  }

  /** (x >> 8 * k) % 256 */
  function Digit(x: word, k: nat): (d: int)
    ensures 0 <= d < BASE
  {
    x / Pow(k) % BASE
  }

  // ---------------------------------------------------------------- what a pass computes

  /** The elements of s whose k-th digit is b, in order. */
  function Filter(s: seq<word>, k: nat, b: int): seq<word> {
    if s == [] then [] else (if Digit(s[0], k) == b then [s[0]] else []) + Filter(s[1..], k, b)
  }

  /** How many elements have a k-th digit below b. */
  function Start(s: seq<word>, k: nat, b: nat): nat {
    if b == 0 then 0 else Start(s, k, b - 1) + |Filter(s, k, b - 1)|
  }

  /** The buckets below b one after the other. */
  function Gather(s: seq<word>, k: nat, b: nat): seq<word> {
    if b == 0 then [] else Gather(s, k, b - 1) + Filter(s, k, b - 1)
  }

  /** A stable sort by the k-th digit. */
  function Pass(s: seq<word>, k: nat): seq<word> {
    Gather(s, k, BASE)
  }

  // ---------------------------------------------------------------- counting

  lemma {:induction false} FilterAppend(s: seq<word>, t: seq<word>, k: nat, b: int)
    ensures Filter(s + t, k, b) == Filter(s, k, b) + Filter(t, k, b)
    decreases |s|
  {
    hide Digit;
    if s == [] {
      assert s + t == t;
    } else {
      var u := s + t;
      assert u[0] == s[0] && u[1..] == s[1..] + t;
      FilterAppend(s[1..], t, k, b);
      var h: seq<word> := if Digit(s[0], k) == b then [s[0]] else [];
      assert Filter(u, k, b) == h + (Filter(s[1..], k, b) + Filter(t, k, b));
      assert Filter(s, k, b) == h + Filter(s[1..], k, b);
    }
  }

  lemma {:induction false} FilterSnoc(s: seq<word>, x: word, k: nat, b: int)
    ensures Filter(s + [x], k, b) == Filter(s, k, b) + (if Digit(x, k) == b then [x] else [])
  {
    FilterAppend(s, [x], k, b);
    hide Digit;
    assert [x][1..] == [];
  }

  lemma {:induction false} FilterSuffix(s: seq<word>, p: nat, k: nat, b: int)
    requires p <= |s|
    ensures |Filter(s[p..], k, b)| <= |Filter(s, k, b)|
    decreases |s|
  {
    hide Digit;
    if p == 0 {
      assert s[p..] == s;
    } else {
      assert s[p..] == s[1..][p - 1..];
      FilterSuffix(s[1..], p - 1, k, b);
    }
  }

  lemma {:induction false} StartMonotone(s: seq<word>, k: nat, b: nat, c: nat)
    requires b <= c
    ensures Start(s, k, b) <= Start(s, k, c)
    decreases c
  {
    if b < c {
      StartMonotone(s, k, b, c - 1);
    }
  }

  lemma {:induction false} StartCons(s: seq<word>, k: nat, b: nat)
    requires s != []
    ensures Start(s, k, b) == Start(s[1..], k, b) + (if Digit(s[0], k) < b then 1 else 0)
    decreases b
  {
    if b > 0 {
      StartCons(s, k, b - 1);
    }
  }

  lemma {:induction false} StartTotal(s: seq<word>, k: nat)
    ensures Start(s, k, BASE) == |s|
    decreases |s|
  {
    hide Start, Digit;
    if s == [] {
      StartEmpty(k, BASE);
    } else {
      StartCons(s, k, BASE);
      StartTotal(s[1..], k);
    }
  }

  lemma {:induction false} StartEmpty(k: nat, b: nat)
    ensures Start([], k, b) == 0
    decreases b
  {
    if b > 0 {
      StartEmpty(k, b - 1);
    }
  }

  // ---------------------------------------------------------------- passes sort

  lemma {:induction false} FilterCons(s: seq<word>, k: nat, b: int)
    requires s != []
    ensures multiset(Filter(s, k, b)) ==
            multiset(Filter(s[1..], k, b)) + (if Digit(s[0], k) == b then multiset{s[0]} else multiset{})
  {
    hide Digit;
  }

  lemma {:induction false} GatherCons(s: seq<word>, k: nat, b: nat)
    requires s != []
    ensures multiset(Gather(s, k, b)) ==
            multiset(Gather(s[1..], k, b)) + (if Digit(s[0], k) < b then multiset{s[0]} else multiset{})
    decreases b
  {
    hide Filter, Digit;
    if b > 0 {
      GatherCons(s, k, b - 1);
      FilterCons(s, k, b - 1);
    }
  }

  lemma {:induction false} GatherEmpty(k: nat, b: nat)
    ensures Gather([], k, b) == []
    decreases b
  {
    if b > 0 {
      GatherEmpty(k, b - 1);
    }
  }

  lemma {:induction false} PassPermutes(s: seq<word>, k: nat)
    ensures multiset(Pass(s, k)) == multiset(s)
    decreases |s|
  {
    hide Gather, Digit;
    if s == [] {
      GatherEmpty(k, BASE);
    } else {
      GatherCons(s, k, BASE);
      PassPermutes(s[1..], k);
      assert s == [s[0]] + s[1..];
    }
  }

  lemma {:induction false} FilterTwice(s: seq<word>, k: nat, b: int, c: int)
    ensures Filter(Filter(s, k, b), k, c) == if b == c then Filter(s, k, b) else []
    decreases |s|
  {
    if s != [] {
      FilterTwice(s[1..], k, b, c);
      FilterAppend(if Digit(s[0], k) == b then [s[0]] else [], Filter(s[1..], k, b), k, c);
    }
  }

  lemma FilterNil(k: nat, b: int)
    ensures Filter([], k, b) == []
  {
  }

  lemma {:induction false} GatherFilter(s: seq<word>, k: nat, b: nat, c: int)
    ensures Filter(Gather(s, k, b), k, c) == if 0 <= c < b then Filter(s, k, c) else []
    decreases b
  {
    hide Filter, Digit;
    assert Filter([], k, c) == [] by {
      FilterNil(k, c);
    }
    if b > 0 {
      GatherFilter(s, k, b - 1, c);
      FilterAppend(Gather(s, k, b - 1), Filter(s, k, b - 1), k, c);
      FilterTwice(s, k, b - 1, c);
    }
  }

  /** Stability: a pass leaves elements with the same digit in the order they had. */
  lemma {:induction false} PassStable(s: seq<word>, k: nat, b: int)
    requires 0 <= b < BASE
    ensures Filter(Pass(s, k), k, b) == Filter(s, k, b)
  {
    hide Gather, Filter;
    GatherFilter(s, k, BASE, b);
  }

  /** In order by the k low digits. */
  ghost predicate LowSorted(s: seq<word>, k: nat) {
    forall i, j :: 0 <= i < j < |s| ==> s[i] % Pow(k) <= s[j] % Pow(k)
  }

  lemma {:induction false} SplitMod(x: nat, p: nat)
    requires p > 0
    ensures x % (BASE * p) == (x / p % BASE) * p + x % p
  {
    var q, m := x / p, x / p / BASE;
    var d := q % BASE;
    assert q == BASE * m + d;
    assert x == p * q + x % p;
    assert p * q == p * (BASE * m) + p * d;
    assert p * (BASE * m) == (BASE * p) * m;
    MulMono(d, BASE - 1, p);
    DivUnique(x, m, d * p + x % p, BASE * p);
  }

  lemma {:induction false} DigitSplit(x: word, k: nat)
    ensures x % Pow(k + 1) == Digit(x, k) * Pow(k) + x % Pow(k)
  {
    SplitMod(x, Pow(k));
  }

  /** All k-th digits of s are in [lo, hi). */
  ghost predicate AllDigit(s: seq<word>, k: nat, lo: int, hi: int) {
    forall i :: 0 <= i < |s| ==> lo <= Digit(s[i], k) < hi
  }

  lemma {:induction false} FilterMembers(s: seq<word>, k: nat, b: int)
    ensures forall x :: x in Filter(s, k, b) ==> x in s && Digit(x, k) == b
    decreases |s|
  {
    hide Digit;
    if s != [] {
      FilterMembers(s[1..], k, b);
    }
  }

  /** A bucket keeps the order of s. */
  lemma {:induction false} FilterLowSorted(s: seq<word>, k: nat, b: int)
    requires LowSorted(s, k)
    ensures LowSorted(Filter(s, k, b), k)
    decreases |s|
  {
    if s != [] {
      var x, t := s[0], s[1..];
      LowSortedTail(s, k);
      FilterLowSorted(t, k, b);
      FilterMembers(t, k, b);
      hide Digit, Pow, LowSorted;
      if Digit(x, k) == b {
        ConsLowSorted(x, Filter(t, k, b), k);
      }
    } else {
      LowSortedNil(k);
    }
  }

  lemma LowSortedTail(s: seq<word>, k: nat)
    requires LowSorted(s, k) && s != []
    ensures LowSorted(s[1..], k) && forall y :: y in s[1..] ==> s[0] % Pow(k) <= y % Pow(k)
  {
  }

  lemma {:induction false} ConsLowSorted(x: word, g: seq<word>, k: nat)
    requires LowSorted(g, k) && forall y :: y in g ==> x % Pow(k) <= y % Pow(k)
    ensures LowSorted([x] + g, k)
  {
    var f := [x] + g;
    forall i, j | 0 <= i < j < |f| ensures f[i] % Pow(k) <= f[j] % Pow(k) {
      assert f[j] == g[j - 1] && f[j] in g;
      assert i > 0 ==> f[i] == g[i - 1];
    }
  }

  lemma {:induction false} Lexicographic(dx: nat, rx: nat, dy: nat, ry: nat, p: nat)
    requires rx < p && dx < dy
    ensures dx * p + rx <= dy * p + ry
  {
    MulMono(dx + 1, dy, p);
    assert (dx + 1) * p == dx * p + p;
  }

  lemma {:induction false} CompareByDigits(x: word, y: word, k: nat)
    requires Digit(x, k) < Digit(y, k) || (Digit(x, k) == Digit(y, k) && x % Pow(k) <= y % Pow(k))
    ensures x % Pow(k + 1) <= y % Pow(k + 1)
  {
    DigitSplit(x, k);
    DigitSplit(y, k);
    hide Digit, Pow;
    if Digit(x, k) < Digit(y, k) {
      Lexicographic(Digit(x, k), x % Pow(k), Digit(y, k), y % Pow(k), Pow(k));
    }
  }

  lemma {:induction false} JoinLowSorted(g: seq<word>, f: seq<word>, k: nat, b: int)
    requires LowSorted(g, k + 1) && AllDigit(g, k, 0, b)
    requires LowSorted(f, k) && AllDigit(f, k, b, b + 1)
    ensures LowSorted(g + f, k + 1) && AllDigit(g + f, k, 0, b + 1)
  {
    hide Digit, Pow;
    var h := g + f;
    forall i, j | 0 <= i < j < |h| ensures h[i] % Pow(k + 1) <= h[j] % Pow(k + 1) {
      if j < |g| {
        assert h[i] == g[i] && h[j] == g[j];
      } else {
        var y := f[j - |g|];
        assert h[j] == y && Digit(y, k) == b;
        if i < |g| {
          assert h[i] == g[i] && Digit(g[i], k) < b;
        } else {
          assert h[i] == f[i - |g|] && Digit(f[i - |g|], k) == b;
        }
        CompareByDigits(h[i], h[j], k);
      }
    }
    forall i | 0 <= i < |h| ensures 0 <= Digit(h[i], k) < b + 1 {
      assert h[i] == if i < |g| then g[i] else f[i - |g|];
    }
  }

  lemma {:induction false} GatherLowSorted(s: seq<word>, k: nat, b: nat)
    requires LowSorted(s, k)
    ensures LowSorted(Gather(s, k, b), k + 1) && AllDigit(Gather(s, k, b), k, 0, b)
    decreases b
  {
    hide Digit, Pow, Filter, LowSorted;
    if b == 0 {
      LowSortedNil(k + 1);
    } else {
      GatherLowSorted(s, k, b - 1);
      FilterLowSorted(s, k, b - 1);
      FilterMembers(s, k, b - 1);
      var f := Filter(s, k, b - 1);
      assert forall i :: 0 <= i < |f| ==> f[i] in f;
      JoinLowSorted(Gather(s, k, b - 1), f, k, b - 1);
    }
  }

  lemma LowSortedNil(k: nat)
    ensures LowSorted([], k)
  {
  }

  /** After passes 0..k-1 the data is a permutation in order by its k low digits. */
  function Passes(s: seq<word>, k: nat): seq<word> {
    if k == 0 then s else Pass(Passes(s, k - 1), k - 1)
  }

  lemma LowSortedZero(s: seq<word>)
    ensures LowSorted(s, 0)
  {
  }

  lemma {:induction false} PassesSort(s: seq<word>, k: nat)
    ensures LowSorted(Passes(s, k), k) && multiset(Passes(s, k)) == multiset(s)
    decreases k
  {
    hide Gather, Pow, Digit;
    if k == 0 {
      LowSortedZero(s);
    } else {
      PassesSort(s, k - 1);
      GatherLowSorted(Passes(s, k - 1), k - 1, BASE);
      PassPermutes(Passes(s, k - 1), k - 1);
    }
  }

  ghost predicate Sorted(s: seq<word>) {
    forall i, j :: 0 <= i < j < |s| ==> s[i] <= s[j]
  }

  /** Four passes of eight bits sort 32-bit words. */
  lemma {:induction false} FourPassesSort(s: seq<word>)
    ensures Sorted(Passes(s, 4)) && multiset(Passes(s, 4)) == multiset(s)
  {
    PassesSort(s, 4);
    hide Passes;
    assert Pow(1) == BASE;
    assert Pow(2) == BASE * BASE;
    assert Pow(4) == 0x1_0000_0000;
    var t := Passes(s, 4);
    forall i, j | 0 <= i < j < |t| ensures t[i] <= t[j] {
      assert t[i] % Pow(4) <= t[j] % Pow(4);
    }
  }

  // ---------------------------------------------------------------- the scatter, one element at a time

  /** Elements from p on are in place: each bucket's part of the scratch array, from the bucket's
      pointer to the start of the next bucket, holds them in order. */
  ghost predicate Scattered(s: seq<word>, k: nat, p: nat, bucket: seq<int>, scratch: seq<word>) {
    && p <= |s| == |scratch| && |bucket| == BASE
    && forall b :: 0 <= b < BASE ==> Placed(s, k, p, bucket, scratch, b)
  }

  ghost predicate Placed(s: seq<word>, k: nat, p: nat, bucket: seq<int>, scratch: seq<word>, b: int)
    requires p <= |s| == |scratch| && |bucket| == BASE && 0 <= b < BASE
  {
    && bucket[b] == Start(s, k, b + 1) - |Filter(s[p..], k, b)|
    && Start(s, k, b) <= bucket[b] <= Start(s, k, b + 1) <= |s|
    && scratch[bucket[b]..Start(s, k, b + 1)] == Filter(s[p..], k, b)
  }

  lemma {:induction false} FilterDrop(s: seq<word>, p: nat, k: nat, b: int)
    requires p < |s|
    ensures Filter(s[p..], k, b) == (if Digit(s[p], k) == b then [s[p]] else []) + Filter(s[p + 1..], k, b)
  {
    hide Digit;
    assert s[p..][0] == s[p] && s[p..][1..] == s[p + 1..];
  }

  /** The bucket that receives the element. */
  lemma {:induction false} OwnBucket(s: seq<word>, k: nat, p: nat, bucket: seq<int>, scratch: seq<word>, d: int)
    requires p < |s| == |scratch| && |bucket| == BASE && d == Digit(s[p], k) && Placed(s, k, p + 1, bucket, scratch, d)
    ensures Start(s, k, d) <= bucket[d] - 1 < Start(s, k, d + 1) <= |s| && 0 <= bucket[d] - 1
    ensures Placed(s, k, p, bucket[d := bucket[d] - 1], scratch[bucket[d] - 1 := s[p]], d)
  {
    hide Digit, Filter, Start;
    FilterDrop(s, p, k, d);
    FilterSuffix(s, p, k, d);
    StartStep(s, k, d);
    var scratch', e := scratch[bucket[d] - 1 := s[p]], Start(s, k, d + 1);
    assert scratch'[bucket[d] - 1..e] == [s[p]] + scratch[bucket[d]..e];
  }

  /** Any other bucket: the store falls outside its part of the scratch array. */
  lemma {:induction false} OtherBucket(s: seq<word>, k: nat, p: nat, bucket: seq<int>, scratch: seq<word>, d: int,
                                       b: int, x: word)
    requires p < |s| == |scratch| && |bucket| == BASE && d == Digit(s[p], k) && 0 <= b < BASE && b != d
    requires Start(s, k, d) <= bucket[d] - 1 < Start(s, k, d + 1) <= |s| && 0 <= bucket[d] - 1
    requires Placed(s, k, p + 1, bucket, scratch, b)
    ensures Placed(s, k, p, bucket[d := bucket[d] - 1], scratch[bucket[d] - 1 := x], b)
  {
    hide Digit, Filter, Start;
    FilterDrop(s, p, k, b);
    if b < d {
      StartMonotone(s, k, b + 1, d);
    } else {
      StartMonotone(s, k, d + 1, b);
    }
    var scratch', e := scratch[bucket[d] - 1 := x], Start(s, k, b + 1);
    assert scratch'[bucket[b]..e] == scratch[bucket[b]..e];
  }

  /** One element: decrement its bucket's pointer and store there. */
  lemma {:induction false} ScatterStep(s: seq<word>, k: nat, p: nat, bucket: seq<int>, scratch: seq<word>)
    requires p < |s| && Scattered(s, k, p + 1, bucket, scratch)
    ensures var d := Digit(s[p], k);
            && 0 <= bucket[d] - 1 < |scratch|
            && Scattered(s, k, p, bucket[d := bucket[d] - 1], scratch[bucket[d] - 1 := s[p]])
  {
    var d := Digit(s[p], k);
    assert Placed(s, k, p + 1, bucket, scratch, d);
    OwnBucket(s, k, p, bucket, scratch, d);
    var bucket', scratch' := bucket[d := bucket[d] - 1], scratch[bucket[d] - 1 := s[p]];
    forall b | 0 <= b < BASE && b != d ensures Placed(s, k, p, bucket', scratch', b) {
      assert Placed(s, k, p + 1, bucket, scratch, b);
      OtherBucket(s, k, p, bucket, scratch, d, b, s[p]);
    }
  }

  lemma StartStep(s: seq<word>, k: nat, b: nat)
    ensures Start(s, k, b + 1) == Start(s, k, b) + |Filter(s, k, b)|
  {
  }

  /** Before the scatter the pointers are at the ends of the buckets. */
  lemma {:induction false} ScatterStart(s: seq<word>, k: nat, bucket: seq<int>, scratch: seq<word>)
    requires |s| == |scratch| && |bucket| == BASE && forall b :: 0 <= b < BASE ==> bucket[b] == Start(s, k, b + 1)
    ensures Scattered(s, k, |s|, bucket, scratch)
  {
    hide Start, Filter, Digit;
    StartTotal(s, k);
    forall b | 0 <= b < BASE ensures Placed(s, k, |s|, bucket, scratch, b) {
      StartStep(s, k, b);
      StartMonotone(s, k, b + 1, BASE);
      assert s[|s|..] == [];
      FilterNil(k, b);
    }
  }

  /** After it they are at the starts, and the scratch array holds the buckets in a row. */
  lemma {:induction false} ScatterDone(s: seq<word>, k: nat, bucket: seq<int>, scratch: seq<word>)
    requires Scattered(s, k, 0, bucket, scratch)
    ensures scratch == Pass(s, k)
  {
    hide Start, Gather;
    StartTotal(s, k);
    GatherPrefix(s, k, bucket, scratch, BASE);
    assert scratch[..|s|] == scratch;
  }

  lemma {:induction false} GatherPrefix(s: seq<word>, k: nat, bucket: seq<int>, scratch: seq<word>, b: nat)
    requires Scattered(s, k, 0, bucket, scratch) && b <= BASE
    ensures Start(s, k, b) <= |s| && scratch[..Start(s, k, b)] == Gather(s, k, b)
    decreases b
  {
    hide Filter, Digit;
    if b > 0 {
      GatherPrefix(s, k, bucket, scratch, b - 1);
      assert Placed(s, k, 0, bucket, scratch, b - 1);
      assert s[0..] == s;
      StartStep(s, k, b - 1);
      var lo, hi := Start(s, k, b - 1), Start(s, k, b);
      assert scratch[..hi] == scratch[..lo] + scratch[lo..hi];
    }
  }

  // ---------------------------------------------------------------- the loops

  /** Bucket b holds the number of elements of s with k-th digit b. */
  ghost predicate Counted(bucket: seq<int>, s: seq<word>, k: nat) {
    |bucket| == BASE && forall b :: 0 <= b < BASE ==> bucket[b] == |Filter(s, k, b)|
  }

  lemma {:induction false} CountStep(bucket: seq<int>, s: seq<word>, p: nat, k: nat)
    requires p < |s| && Counted(bucket, s[..p], k)
    ensures var d := Digit(s[p], k); Counted(bucket[d := bucket[d] + 1], s[..p + 1], k)
  {
    var d := Digit(s[p], k);
    hide Digit, Filter;
    assert s[..p + 1] == s[..p] + [s[p]];
    var bucket' := bucket[d := bucket[d] + 1];
    forall b | 0 <= b < BASE ensures bucket'[b] == |Filter(s[..p + 1], k, b)| {
      FilterSnoc(s[..p], s[p], k, b);
    }
  }

  method CountOne(bucket: array<int>, x: word, k: nat, ghost s: seq<word>, ghost p: nat)
    requires bucket.Length == BASE && p < |s| && s[p] == x && Counted(bucket[..], s[..p], k)
    modifies bucket
    ensures Counted(bucket[..], s[..p + 1], k)
  {
    CountStep(bucket[..], s, p, k);
    var d := Digit(x, k);
    ghost var before := bucket[..];
    bucket[d] := bucket[d] + 1;
    assert bucket[..] == before[d := before[d] + 1];
  }

  /** Clear the buckets, count four elements at a time, then the rest. */
  method Histogram(arr: array<word>, bucket: array<int>, k: nat)
    requires bucket.Length == BASE && bucket as object != arr
    modifies bucket
    ensures Counted(bucket[..], arr[..], k)
  {
    var b := 0;
    while b < BASE
      invariant 0 <= b <= BASE && forall c :: 0 <= c < b ==> bucket[c] == 0
    {
      bucket[b] := 0;
      b := b + 1;
    }
    ghost var s := arr[..];
    var n, p := arr.Length, 0;
    CountedNil(bucket[..], k);
    hide Counted;
    while p < n - 3
      invariant 0 <= p <= n && s == arr[..] && Counted(bucket[..], s[..p], k)
    {
      var a0, a1, a2, a3 := arr[p], arr[p + 1], arr[p + 2], arr[p + 3];
      CountOne(bucket, a0, k, s, p);
      CountOne(bucket, a1, k, s, p + 1);
      CountOne(bucket, a2, k, s, p + 2);
      CountOne(bucket, a3, k, s, p + 3);
      p := p + 4;
    }
    while p < n
      invariant 0 <= p <= n && s == arr[..] && Counted(bucket[..], s[..p], k)
    {
      CountOne(bucket, arr[p], k, s, p);
      p := p + 1;
    }
    assert s[..p] == s;
  }

  lemma CountedNil(bucket: seq<int>, k: nat)
    requires |bucket| == BASE && forall b :: 0 <= b < BASE ==> bucket[b] == 0
    ensures Counted(bucket, [], k)
  {
  }

  /** Buckets below b hold the end of their part, the others still their count. */
  ghost predicate Summed(bucket: seq<int>, s: seq<word>, k: nat, m: int) {
    |bucket| == BASE && forall b :: 0 <= b < BASE ==>
      bucket[b] == if b < m then Start(s, k, b + 1) else |Filter(s, k, b)|
  }

  /** fetch_add(&bucket[b], prev), and the new running total. */
  method AddPrevious(bucket: array<int>, b: nat, prev: int, ghost s: seq<word>, k: nat) returns (prev': int)
    requires 0 < b < BASE && Summed(bucket[..], s, k, b) && prev == Start(s, k, b)
    modifies bucket
    ensures Summed(bucket[..], s, k, b + 1) && prev' == Start(s, k, b + 1)
  {
    hide Start, Filter;
    StartStep(s, k, b);
    ghost var before := bucket[..];
    bucket[b] := bucket[b] + prev;
    prev' := prev + (bucket[b] - prev);
    assert bucket[..] == before[b := before[b] + prev];
  }

  /** The prefix sums, two buckets per round. */
  method PrefixSums(bucket: array<int>, ghost s: seq<word>, k: nat)
    requires Counted(bucket[..], s, k)
    modifies bucket
    ensures forall b :: 0 <= b < BASE ==> bucket[b] == Start(s, k, b + 1)
  {
    hide Start, Filter, Summed, Counted;
    FirstSum(bucket[..], s, k);
    var prev := bucket[0];
    assert prev == bucket[..][0];
    prev := AddPrevious(bucket, 1, prev, s, k);
    var b := 2;
    while b < BASE
      invariant 2 <= b <= BASE && b % 2 == 0
      invariant Summed(bucket[..], s, k, b) && prev == Start(s, k, b)
    {
      prev := AddPrevious(bucket, b, prev, s, k);
      prev := AddPrevious(bucket, b + 1, prev, s, k);
      b := b + 2;
    }
    AllSummed(bucket[..], s, k);
    assert forall c :: 0 <= c < BASE ==> bucket[c] == bucket[..][c];
  }

  lemma FirstSum(bucket: seq<int>, s: seq<word>, k: nat)
    requires Counted(bucket, s, k)
    ensures |bucket| == BASE && Summed(bucket, s, k, 1) && bucket[0] == Start(s, k, 1)
  {
    hide Filter;
    StartStep(s, k, 0);
  }

  lemma AllSummed(bucket: seq<int>, s: seq<word>, k: nat)
    requires Summed(bucket, s, k, BASE)
    ensures |bucket| == BASE && forall b :: 0 <= b < BASE ==> bucket[b] == Start(s, k, b + 1)
  {
  }

  /** Four elements at a time from the end: all four pointers are fetched and decremented before
      any of the four stores; then the rest one by one. */
  method Scatter(arr: array<word>, scratch: array<word>, bucket: array<int>, k: nat)
    requires arr != scratch && arr.Length == scratch.Length && bucket.Length == BASE && bucket as object != arr
             && bucket as object != scratch
    requires forall b :: 0 <= b < BASE ==> bucket[b] == Start(arr[..], k, b + 1)
    modifies scratch, bucket
    ensures scratch[..] == Pass(arr[..], k)
  {
    hide Scattered, Start;
    ghost var s := arr[..];
    ScatterStart(s, k, bucket[..], scratch[..]);
    var p := arr.Length - 1;
    while p >= 3
      invariant -1 <= p < arr.Length && s == arr[..] && Scattered(s, k, p + 1, bucket[..], scratch[..])
    {
      ScatterFour(arr, scratch, bucket, k, p, s);
      p := p - 4;
    }
    while p >= 0
      invariant -1 <= p < arr.Length && s == arr[..] && Scattered(s, k, p + 1, bucket[..], scratch[..])
    {
      ScatterStep(s, k, p, bucket[..], scratch[..]);
      ghost var b0, s0 := bucket[..], scratch[..];
      var d := Digit(arr[p], k);
      bucket[d] := bucket[d] - 1;
      scratch[bucket[d]] := arr[p];
      assert bucket[..] == b0[d := b0[d] - 1] && scratch[..] == s0[b0[d] - 1 := s[p]];
      p := p - 1;
    }
    ScatterDone(s, k, bucket[..], scratch[..]);
  }

  method FetchDecrement(bucket: array<int>, d: int) returns (v: int)
    requires 0 <= d < bucket.Length
    modifies bucket
    ensures v == old(bucket[d]) && bucket[..] == old(bucket[..])[d := v - 1]
  {
    v := bucket[d];
    bucket[d] := v - 1;
  }

  method ScatterFour(arr: array<word>, scratch: array<word>, bucket: array<int>, k: nat, p: nat, ghost s: seq<word>)
    requires arr != scratch && arr.Length == scratch.Length && bucket.Length == BASE && bucket as object != arr
             && bucket as object != scratch
    requires 3 <= p < arr.Length && s == arr[..] && Scattered(s, k, p + 1, bucket[..], scratch[..])
    modifies scratch, bucket
    ensures Scattered(s, k, p - 3, bucket[..], scratch[..])
  {
    hide Scattered, Digit;
    var a0, a1, a2, a3 := arr[p], arr[p - 1], arr[p - 2], arr[p - 3];
    var d0, d1, d2, d3 := Digit(a0, k), Digit(a1, k), Digit(a2, k), Digit(a3, k);
    ghost var b0, m0 := bucket[..], scratch[..];
    ScatterStep(s, k, p, b0, m0);
    ghost var b1, m1 := b0[d0 := b0[d0] - 1], m0[b0[d0] - 1 := a0];
    ScatterStep(s, k, p - 1, b1, m1);
    ghost var b2, m2 := b1[d1 := b1[d1] - 1], m1[b1[d1] - 1 := a1];
    ScatterStep(s, k, p - 2, b2, m2);
    ghost var b3, m3 := b2[d2 := b2[d2] - 1], m2[b2[d2] - 1 := a2];
    ScatterStep(s, k, p - 3, b3, m3);
    var s0 := FetchDecrement(bucket, d0);
    var s1 := FetchDecrement(bucket, d1);
    var s2 := FetchDecrement(bucket, d2);
    var s3 := FetchDecrement(bucket, d3);
    scratch[s0 - 1] := a0;
    assert scratch[..] == m1;
    scratch[s1 - 1] := a1;
    assert scratch[..] == m2;
    scratch[s2 - 1] := a2;
    assert scratch[..] == m3;
    scratch[s3 - 1] := a3;
    assert scratch[..] == m3[b3[d3] - 1 := a3];
  }

  method OnePass(arr: array<word>, scratch: array<word>, bucket: array<int>, k: nat)
    requires arr != scratch && arr.Length == scratch.Length && bucket.Length == BASE && bucket as object != arr
             && bucket as object != scratch
    modifies scratch, bucket
    ensures scratch[..] == Pass(arr[..], k)
  {
    hide Start, Counted, Pass;
    ghost var s := arr[..];
    Histogram(arr, bucket, k);
    assert arr[..] == s;
    PrefixSums(bucket, s, k);
    assert arr[..] == s;
    Scatter(arr, scratch, bucket, k);
    assert arr[..] == s;
  }

  /** sort: four passes between the two arrays leave the result in the caller's own array. */
  method Sort(arrIn: array<word>, scratchIn: array<word>)
    requires arrIn != scratchIn && arrIn.Length == scratchIn.Length
    modifies arrIn, scratchIn
    ensures Sorted(arrIn[..]) && multiset(arrIn[..]) == multiset(old(arrIn[..]))
  {
    hide Passes, Pass, Sorted;
    ghost var s, k := arrIn[..], 0;
    var bucket := new int[BASE];
    var arr, scratch := arrIn, scratchIn;
    var logExp: nat := 0;
    PassesZero(s);
    while logExp < 32
      invariant 0 <= k <= 4 && logExp == 8 * k
      invariant if k % 2 == 0 then arr == arrIn && scratch == scratchIn else arr == scratchIn && scratch == arrIn
      invariant arr[..] == Passes(s, k)
      decreases 32 - logExp
    {
      PassesNext(s, k);
      OnePass(arr, scratch, bucket, logExp / 8);
      arr, scratch := scratch, arr;
      logExp, k := logExp + 8, k + 1;
    }
    if arr != arrIn {
      assert false;   // the final memcpy is never reached
    }
    FourPassesSort(s);
  }

  lemma PassesZero(s: seq<word>)
    ensures Passes(s, 0) == s
  {
  }

  lemma PassesNext(s: seq<word>, k: nat)
    ensures Passes(s, k + 1) == Pass(Passes(s, k), k)
  {
  }
}
