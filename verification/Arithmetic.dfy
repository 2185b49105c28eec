/** Integer division facts the nonlinear solver does not find by itself. */
module Arithmetic {

  lemma MulMono(a: int, b: int, n: int)
    requires n > 0 && a <= b
    ensures n * a <= n * b
  {
  }

  lemma SmallMultiple(n: int, k: int)
    requires n > 0 && -n < n * k < n
    ensures k == 0
  {
    if k >= 1 {
      MulMono(1, k, n);
    } else if k <= -1 {
      MulMono(k, -1, n);
    }
  }

  /** Quotient and remainder are determined by the division equation. */
  lemma ModUnique(x: int, n: nat, q: int, r: nat)
    requires x == n * q + r && r < n
    ensures x % n == r && x / n == q
  {
    var q', r' := x / n, x % n;
    assert x == n * q' + r';
    assert n * (q - q') == r' - r;
    SmallMultiple(n, q - q');
  }

  lemma MultipleMod(n: nat, a: int)
    requires n > 0
    ensures n * a % n == 0
  {
    ModUnique(n * a, n, a, 0);
  }
}
