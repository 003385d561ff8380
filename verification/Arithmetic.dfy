/** Integer facts that several parts need. */
module Arithmetic {

  function Min(a: nat, b: nat): nat {
    if a < b then a else b
  }

  lemma MultipleOf(m: int, d: int)
    requires m > 0
    ensures d >= 1 ==> d * m >= m
    ensures d <= -1 ==> d * m <= -m
  {
  }

  lemma RemainderIs(x: int, m: int, q: int, r: int)
    requires m > 0 && x == q * m + r && 0 <= r < m
    ensures x % m == r
  {
    var d := x / m - q;
    assert d * m == r - x % m;
    MultipleOf(m, d);
  }

  lemma MulMonotonic(m: int, n: int, b: int)
    requires b >= 0
    ensures m >= n ==> m * b >= n * b
    ensures n >= m ==> n * b >= m * b
  {
    assert m * b - n * b == (m - n) * b;
  }

  lemma DivIsLargest(a: int, b: int)
    requires a >= 0 && b > 0
    ensures (a / b) * b <= a && forall m :: m > a / b ==> m * b > a
  {
    forall m | m > a / b
      ensures m * b > a
    {
      MulMonotonic(m, a / b + 1, b);
    }
  }
}
