/** Facts about quotients that the solver does not find by itself. */
module Arithmetic {

  lemma {:induction false} MultiplesApart(n: nat, x: int, y: int)
    ensures x < y ==> n * x + n <= n * y
    decreases y - x
  {
    if x < y {
      assert n * y == n * (y - 1) + n;
      MultiplesApart(n, x, y - 1);
    }
  }

  lemma QuotientIs(a: nat, n: nat, q: nat)
    requires n > 0 && n * q <= a < n * q + n
    ensures a / n == q && a % n == a - n * q
  {
    MultiplesApart(n, q, a / n);
    MultiplesApart(n, a / n, q);
  }

  lemma ZeroQuotientIffBelow(a: nat, n: nat)
    requires n > 0
    ensures a / n == 0 <==> a < n
  {
    MultiplesApart(n, 0, a / n);
  }

  lemma AddOneRound(a: nat, n: nat)
    requires n > 0
    ensures (a + n) / n == a / n + 1 && (a + n) % n == a % n
  {
    var q := a / n;
    assert a == n * q + a % n;
    assert n * (q + 1) == n * q + n;
    QuotientIs(a + n, n, q + 1);
  }

  lemma QuotientMonotone(a: nat, b: nat, n: nat)
    requires n > 0 && a <= b
    ensures a / n <= b / n
  {
    var p, q := a / n, b / n;
    assert a == n * p + a % n && b == n * q + b % n;
    MultiplesApart(n, q, p);
  }
}
