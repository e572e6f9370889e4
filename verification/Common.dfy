/** Facts of arithmetic and of sequences that several modules use. */
module Common {

  ghost predicate NoDup(xs: seq<int>) {
    forall i, j :: 0 <= i < j < |xs| ==> xs[i] != xs[j]
  }

  lemma MulMono(a: int, b: int, c: nat)
    requires a <= b
    ensures a * c <= b * c
  {
  }

  /** Quotient and remainder are unique. */
  lemma {:induction false} DivUnique(x: nat, q: nat, r: nat, n: nat)
    requires n > 0 && x == n * q + r && r < n
    ensures x / n == q && x % n == r
  {
    var e: int := x / n - q;
    assert n * e == n * (x / n) - n * q;
    assert e >= 1 ==> n * e >= n * 1;
    assert e <= -1 ==> n * e <= n * -1;
  }
}
