/** Quotients and remainders by any positive number. */
module Arithmetic {
  lemma MulAtLeast(a: int, d: nat)
    requires a >= 1
    ensures a * d >= d
  {
    assert a * d == (a - 1) * d + d;
  }

  lemma DivModUnique(n: int, d: nat, q: int, r: nat)
    requires r < d && n == q * d + r
    ensures n / d == q && n % d == r
  {
    var e, f := n / d, n % d;
    assert n == e * d + f;
    assert (e - q) * d == r - f && (q - e) * d == f - r;
    if e > q { MulAtLeast(e - q, d); }
    if e < q { MulAtLeast(q - e, d); }
  }
}
