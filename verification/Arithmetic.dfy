/** Facts about products and quotients that several proofs need. */
module Arithmetic {

  lemma Apart(a: int, b: int, n: int)
    requires n > 0 && a < b
    ensures a * n + n <= b * n
  {
    var d := b - a - 1;
    assert d * n >= 0;
    assert b * n == a * n + n + d * n;
  }

  lemma QuotientIs(k: nat, n: nat, q: nat)
    requires n > 0 && q * n <= k < q * n + n
    ensures k / n == q
  {
    var t := k / n;
    assert t * n <= k < t * n + n;
    if t < q {
      Apart(t, q, n);
    } else if q < t {
      Apart(q, t, n);
    }
  }

  lemma RemainderIs(k: nat, n: nat, q: nat, r: nat)
    requires n > 0 && k == q * n + r && r < n
    ensures k / n == q && k % n == r
  {
    QuotientIs(k, n, q);
    assert k == k / n * n + k % n;
  }
}
