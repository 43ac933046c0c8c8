/** Integer division. */
module Arithmetic {

  /** Quotient and remainder are the only ones of their kind. */
  lemma {:induction false} DivisionIsUnique(x: int, q: int, r: int, n: int)
    requires x == q * n + r && 0 <= r < n
    ensures x / n == q && x % n == r
  {
    var d := x / n - q;
    assert x == (x / n) * n + x % n;
    assert d * n == r - x % n;
    assert (d >= 1 ==> d * n >= n) && (d <= -1 ==> d * n <= -n);
  }

  /** The next number has the next quotient exactly when it is a multiple. */
  lemma {:induction false} NextQuotient(y: int, n: int)
    requires n > 0
    ensures (y + 1) / n == y / n + if (y + 1) % n == 0 then 1 else 0
  {
    var q, r := y / n, y % n;
    assert y == q * n + r;
    if r == n - 1 {
      assert y + 1 == (q + 1) * n + 0;
      DivisionIsUnique(y + 1, q + 1, 0, n);
    } else {
      DivisionIsUnique(y + 1, q, r + 1, n);
    }
  }
}
