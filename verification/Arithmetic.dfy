/** Facts about products and quotients that the solver has to be told. */
module Arithmetic {

  lemma TimesIsMonotone(a: nat, b: nat, k: nat)
    ensures a <= b ==> a * k <= b * k
  {}

  lemma OneMoreTimes(k: nat, n: nat)
    ensures k * (n + 1) == k * n + k && (n + 1) * k == n * k + k
  {}

  lemma ProductIsMonotone(a: nat, b: nat, p: nat, q: nat)
    ensures a <= p && b <= q ==> a * b <= p * q
    ensures a < p && b < q ==> a * b < p * q
  {
    if a <= p && b <= q {
      TimesIsMonotone(b, q, a);
      TimesIsMonotone(a, p, q);
      if a < p && b < q {
        TimesIsMonotone(a + 1, p, q);
        OneMoreTimes(q, a);
      }
    }
  }

  /** A quotient is the number of times the divisor fits. */
  lemma QuotientIs(n: nat, k: nat, q: nat)
    requires k > 0
    ensures q * k <= n < (q + 1) * k <==> n / k == q
  {
    var f := n / k;
    assert n == f * k + n % k;
    OneMoreTimes(k, f);
    TimesIsMonotone(f + 1, q, k);
    TimesIsMonotone(q + 1, f, k);
  }

  lemma QuotientIsMonotone(a: nat, b: nat, k: nat)
    requires k > 0
    ensures a <= b ==> a / k <= b / k
  {
    QuotientIs(a, k, a / k);
    QuotientIs(b, k, b / k);
    TimesIsMonotone(b / k + 1, a / k, k);
  }

  lemma QuotientAndRemainder(n: nat, k: nat)
    ensures k > 0 ==> n == n / k * k + n % k
    ensures k > 1 && n > 0 ==> n / k < n
  {
    if k > 1 {
      TimesIsMonotone(2, k, n / k);
    }
  }

  lemma QuotientOfSum(q: nat, r: nat, k: nat)
    ensures r < k ==> (q * k + r) / k == q && (q * k + r) % k == r
  {
    if r < k {
      OneMoreTimes(k, q);
      QuotientIs(q * k + r, k, q);
      QuotientAndRemainder(q * k + r, k);
    }
  }

  lemma QuotientOfNext(n: nat, k: nat)
    ensures k > 0 ==> (n + 1) / k == n / k + if (n + 1) % k == 0 then 1 else 0
  {
    if k > 0 {
      var q, r := n / k, n % k;
      QuotientAndRemainder(n, k);
      OneMoreTimes(k, q);
      if r + 1 < k {
        QuotientOfSum(q, r + 1, k);
        assert n + 1 == q * k + (r + 1);
      } else {
        QuotientOfSum(q + 1, 0, k);
        assert n + 1 == (q + 1) * k + 0;
      }
    }
  }

  lemma MultipleOfMultiple(n: nat, k: nat, m: nat)
    ensures k > 0 && m > 0 && n % (k * m) == 0 ==> n % m == 0
  {
    if k > 0 && m > 0 && n % (k * m) == 0 {
      var q := n / (k * m);
      QuotientAndRemainder(n, k * m);
      assert n == q * k * m;
      QuotientOfSum(q * k, 0, m);
    }
  }
}
