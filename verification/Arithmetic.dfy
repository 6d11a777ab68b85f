/** Facts about products, quotients and remainders by a variable. */
module Arithmetic {
  lemma {:induction false} MulAtLeast(a: nat, n: nat)
    requires a >= 1
    ensures a * n >= n
  {
  }

  lemma SmallQuotient(n: nat, q: nat, r: nat, q': nat, r': nat)
    requires r < n && r' < n && q * n + r == q' * n + r'
    ensures !(q < q')
  {
    if q < q' {
      MulAtLeast(q' - q, n);
      Distribute(q, q' - q, n);
    }
  }

  lemma DivModOf(x: nat, n: nat, q: nat, r: nat)
    requires r < n && x == q * n + r
    ensures x / n == q && x % n == r
  {
    var q', r' := x / n, x % n;
    assert x == q' * n + r';
    SmallQuotient(n, q, r, q', r');
    SmallQuotient(n, q', r', q, r);
  }

  lemma Distribute(a: int, b: int, n: int)
    ensures (a + b) * n == a * n + b * n
  {
  }

  /** How the quotient and remainder of a counter move. */
  lemma ModStep(x: nat, n: nat)
    requires n > 0
    ensures x % n < n
    ensures (x + 1) % n == (if x % n + 1 == n then 0 else x % n + 1)
    ensures (x + 1) / n == (if x % n + 1 == n then x / n + 1 else x / n)
  {
    var q, r := x / n, x % n;
    if r + 1 == n {
      Distribute(q, 1, n);
      DivModOf(x + 1, n, q + 1, 0);
    } else {
      DivModOf(x + 1, n, q, r + 1);
    }
  }

  lemma RoundedUp(k: nat, n: nat)
    requires n > 0
    ensures (k + n - 1) / n == k / n + (if k % n == 0 then 0 else 1)
  {
    var q, r := k / n, k % n;
    if r > 0 {
      Distribute(q, 1, n);
      DivModOf(k + n - 1, n, q + 1, r - 1);
    } else {
      DivModOf(k + n - 1, n, q, n - 1);
    }
  }
}
