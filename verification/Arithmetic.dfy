/**
 Facts of integer division.
 */
module Arithmetic {

  lemma {:induction false} MulGap(n: int, p: int, q: int)
    requires n > 0 && p > q
    ensures n * p >= n * q + n
    decreases p - q
  {
    assert n * p == n * (p - 1) + n;
    if p > q + 1 {
      MulGap(n, p - 1, q);
    }
  }

  lemma DivUnique(a: int, q: int, r: int, n: int)
    requires n > 0 && a == n * q + r && 0 <= r < n
    ensures a / n == q && a % n == r
  {
    var p := a / n;
    assert a == n * p + a % n;
    if p > q { MulGap(n, p, q); }
    if p < q { MulGap(n, q, p); }
  }
}
