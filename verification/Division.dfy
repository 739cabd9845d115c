/** Facts about Euclidean division that the models need. */
module Division {

  lemma LargeMultiple(a: int, n: int)
    requires n > 0 && a != 0
    ensures a * n >= n || a * n <= -n
  {
    if a > 0 {
      assert a * n == n + (a - 1) * n && (a - 1) * n >= 0;
    } else {
      assert a * n == -n - (-a - 1) * n && (-a - 1) * n >= 0;
    }
  }

  /** Quotient and remainder are determined by the defining equation. */
  lemma Unique(x: int, q: int, r: int, n: int)
    requires n > 0 && x == q * n + r && 0 <= r < n
    ensures x / n == q && x % n == r
  {
    var p, s := x / n, x % n;
    assert x == p * n + s;
    assert (p - q) * n == p * n - q * n;
    if p != q { LargeMultiple(p - q, n); }
  }

  lemma ModSucc(a: nat, n: nat)
    requires n > 0
    ensures (a % n + 1) % n == (a + 1) % n
  {
    var q, m := a / n, a % n;
    assert a == q * n + m;
    if m + 1 == n {
      assert (q + 1) * n == q * n + n;
      Unique(a + 1, q + 1, 0, n);
      Unique(n, 1, 0, n);
    } else {
      Unique(a + 1, q, m + 1, n);
    }
  }

  lemma ModSmall(a: nat, n: nat)
    requires a < n
    ensures a % n == a
  {
  }

  lemma ModPlus(a: nat, n: nat)
    requires n > 0
    ensures (a + n) % n == a % n
  {
    assert a + n == (a / n + 1) * n + a % n by {
      assert (a / n + 1) * n == a / n * n + n;
    }
    Unique(a + n, a / n + 1, a % n, n);
  }
}
