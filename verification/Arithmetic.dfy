/** Facts about quotients and remainders by a variable. */
module Arithmetic {
  lemma AtLeastOnce(x: int, n: nat)
    requires x >= 1
    ensures x * n >= n
  {
    assert x * n == (x - 1) * n + n;
  }

  lemma RemainderUnique(x: nat, q: nat, r: nat, n: nat)
    requires r < n && x == q * n + r
    ensures x % n == r
  {
    var q', r' := x / n, x % n;
    assert x == q' * n + r';
    assert (q - q') * n == q * n - q' * n;
    assert (q' - q) * n == q' * n - q * n;
    if q > q' {
      AtLeastOnce(q - q', n);
      assert false;
    }
    if q' > q {
      AtLeastOnce(q' - q, n);
      assert false;
    }
  }

  lemma RemainderAtMost(x: nat, n: nat)
    requires n > 0
    ensures x % n <= x
  {
    if x < n {
      RemainderUnique(x, 0, x, n);
    }
  }

  lemma QuotientStep(m: nat, n: nat)
    requires 0 < n <= m
    ensures m / n == (m - n) / n + 1 && (m + n - 1) / n == (m - 1) / n + 1
  {
    DividesStep(m - n, n);
    DividesStep(m - 1, n);
  }

  lemma DividesStep(x: nat, n: nat)
    requires n > 0
    ensures (x + n) / n == x / n + 1
  {
    var q, r := x / n, x % n;
    assert x == q * n + r;
    assert x + n == (q + 1) * n + r;
    RemainderUnique(x + n, q + 1, r, n);
    assert ((x + n) / n) * n == (q + 1) * n;
    SameFactor((x + n) / n, q + 1, n);
  }

  lemma SameFactor(a: nat, b: nat, n: nat)
    requires n > 0 && a * n == b * n
    ensures a == b
  {
    assert (a - b) * n == 0;
    assert (b - a) * n == 0;
    if a > b {
      AtLeastOnce(a - b, n);
      assert false;
    }
    if b > a {
      AtLeastOnce(b - a, n);
      assert false;
    }
  }

  lemma SmallQuotients(m: nat, n: nat)
    requires m < n
    ensures m / n == 0 && (m + n - 1) / n == if m == 0 then 0 else 1
  {
    SmallQuotient(m, n);
    if m > 0 {
      SmallQuotient(m - 1, n);
      DividesStep(m - 1, n);
    } else {
      SmallQuotient(n - 1, n);
    }
  }

  lemma SmallQuotient(m: nat, n: nat)
    requires m < n
    ensures m / n == 0
  {
  }

  lemma QuotientAtLeast(a: nat, m: nat, total: nat)
    requires m > 0 && a * m <= total
    ensures a <= total / m
  {
    var q := total / m;
    assert total == q * m + total % m;
    assert (a - q) * m == a * m - q * m;
    if a > q {
      AtLeastOnce(a - q, m);
      assert false;
    }
  }
}
