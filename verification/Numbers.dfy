/** Division facts the solver does not find by itself. */
module Numbers {
  lemma MulGe(n: nat, k: int)
    requires k >= 1
    ensures n * k >= n
  {
  }

  lemma DivMod(x: nat, n: nat)
    requires n > 0
    ensures x == n * (x / n) + x % n && 0 <= x % n < n
  {
  }

  /** Quotient and remainder are unique. */
  lemma Narrow(n: nat, q: int, a: int, i: int, r: int)
    requires 0 <= i < n && 0 <= r < n && n * q + i == n * a + r
    ensures i == r && q == a
  {
    assert n * (a - q) == i - r && n * (q - a) == r - i;
    if a > q {
      MulGe(n, a - q);
    } else if a < q {
      MulGe(n, q - a);
    }
  }

  lemma DivModUnique(x: nat, q: int, i: nat, n: nat)
    requires i < n && x == n * q + i
    ensures x % n == i && x / n == q
  {
    DivMod(x, n);
    Narrow(n, q, x / n, i, x % n);
  }
}
