/** Small notions about sequences and rounding that several modules share. */
module Basics {

  predicate Distinct<T(==)>(s: seq<T>) {
    forall i, j :: 0 <= i < j < |s| ==> s[i] != s[j]
  }

  /** `n / d` rounded to the nearest whole number, halves up. */
  function RoundDiv(n: nat, d: nat): nat
    requires d > 0
  {
    (2 * n + d) / (2 * d)
  }

  lemma RoundBelow(n: nat, d: nat, q: nat)
    requires d > 0 && n <= d * q
    ensures RoundDiv(n, d) <= q
  {
    assert (2 * d) * (q + 1) == 2 * (d * q) + 2 * d;
    DivBelow(2 * n + d, 2 * d, q);
  }

  /** The nearest whole number: within half of `d` of the exact quotient. */
  lemma RoundsToNearest(n: nat, d: nat)
    requires d > 0
    ensures 2 * n - d < 2 * d * RoundDiv(n, d) <= 2 * n + d
  {
    var q := RoundDiv(n, d);
    assert 2 * n + d == (2 * d) * q + (2 * n + d) % (2 * d);
  }

  lemma Cancel(d: nat, a: nat, b: nat)
    requires d * a < d * b
    ensures a < b
  {
    assert d * (b - a) > 0;
  }

  lemma DivBelow(n: nat, d: nat, q: nat)
    requires d > 0 && n < d * (q + 1)
    ensures n / d <= q
  {
    assert d * (n / d) <= n;
    Cancel(d, n / d, q + 1);
  }
}
