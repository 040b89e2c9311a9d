/** Products and quotients of naturals. */
module Arithmetic {

  lemma Times(a: nat, b: nat, n: nat)
    requires a <= b
    ensures a * n <= b * n
  {
  }

  lemma QuotientPositive(x: nat, n: nat)
    requires n > 0
    ensures x / n > 0 <==> x >= n
  {
    assert x == x / n * n + x % n;
    if x / n > 0 {
      Times(1, x / n, n);
    }
  }

  lemma CeilingIs(total: nat, n: nat)
    requires n > 0
    ensures total / n <= (total + n - 1) / n <= total / n + 1
  {
    var q, r, c := total / n, total % n, (total + n - 1) / n;
    assert total == n * q + r;
    if c < q {
      Times(c + 1, q, n);
    } else if c > q + 1 {
      Times(q + 2, c, n);
    }
  }

  lemma Wrapped(x: nat, n: nat)
    requires n > 0 && x < 2 * n
    ensures x % n == if x < n then x else x - n
  {
    var q, r := x / n, x % n;
    assert x == q * n + r;
    if q >= 2 {
      Times(2, q, n);
    } else if q == 1 {
      assert 1 * n == n;
    }
  }

  lemma Quotient(n: nat, k: nat)
    requires n > 0
    ensures n * k / n == k
  {
    var q, r := n * k / n, n * k % n;
    assert n * k == q * n + r;
    assert (k - q) * n == r;
    if k > q {
      Times(1, k - q, n);
    }
  }
}
