/** Facts about quotients and remainders. */
module Division {

  lemma ModStep(m: nat, k: nat)
    requires k > 0
    ensures (m + 1) % k == (if m % k == k - 1 then 0 else m % k + 1)
  {
    var q, r := m / k, m % k;
    assert m == q * k + r;
    if r == k - 1 {
      assert m + 1 == (q + 1) * k;
      ModOf(q + 1, 0, k, m + 1);
    } else {
      ModOf(q, r + 1, k, m + 1);
    }
  }

  lemma ModOf(q: nat, r: nat, k: nat, n: nat)
    requires 0 <= r < k && n == q * k + r
    ensures n % k == r
  {
    QuotientUnique(q, r, n / k, n % k, k);
  }

  lemma QuotientUnique(q: nat, r: nat, q': nat, r': nat, k: nat)
    requires r < k && r' < k && q * k + r == q' * k + r'
    ensures q == q' && r == r'
  {
    if q < q' {
      MulStep(q, q', k);
    } else if q' < q {
      MulStep(q', q, k);
    }
  }

  lemma MulStep(a: nat, b: nat, k: nat)
    requires a < b
    ensures a * k + k <= b * k
  {
    assert b * k == a * k + k + (b - a - 1) * k;
  }

  lemma ModShift(n: nat, k: nat)
    requires k > 0
    ensures (n + k) % k == n % k
  {
    ModOf(n / k + 1, n % k, k, n + k);
  }

  lemma DivOf(n: nat, k: nat, q: nat, r: nat)
    requires r < k && n == q * k + r
    ensures n / k == q
  {
    QuotientUnique(q, r, n / k, n % k, k);
  }

  lemma DivByTen(n: nat, b: nat)
    requires b >= 1
    ensures n / (10 * b) == n / 10 / b
  {
    var m := n / 10;
    var q, r := m / b, m % b;
    assert n == 10 * m + n % 10 && m == q * b + r;
    assert q * (10 * b) == 10 * (q * b);
    DivOf(n, 10 * b, q, 10 * r + n % 10);
  }
}
