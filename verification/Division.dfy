/** Quotients and remainders for divisors that are not constants. */
module Division {
  lemma AtLeastOnce(a: int, k: int)
    requires a >= 1 && k > 0
    ensures a * k >= k
  {
    assert (a - 1) * k >= 0;
  }

  lemma SameQuotient(p: int, q: int, k: int, r: int, s: int)
    requires k > 0 && 0 <= r < k && 0 <= s < k && p * k + r == q * k + s
    ensures p == q && r == s
  {
    assert (p - q) * k == s - r;
    if p > q { AtLeastOnce(p - q, k); }
    if q > p {
      assert (q - p) * k == r - s;
      AtLeastOnce(q - p, k);
    }
  }

  lemma ModMultiple(n: int, k: int, r: int)
    requires k > 0 && 0 <= r < k
    ensures (n * k + r) / k == n && (n * k + r) % k == r
  {
    var x := n * k + r;
    assert x == (x / k) * k + x % k;
    SameQuotient(n, x / k, k, r, x % k);
  }

  lemma OneMore(x: nat, k: nat)
    requires k > 0
    ensures (x + 1) % k == if x % k == k - 1 then 0 else x % k + 1
    ensures (x + 1) / k == if x % k == k - 1 then x / k + 1 else x / k
  {
    var q, r := x / k, x % k;
    assert x == q * k + r;
    if r == k - 1 {
      assert (q + 1) * k == q * k + k;
      ModMultiple(q + 1, k, 0);
    } else {
      ModMultiple(q, k, r + 1);
    }
  }
}
