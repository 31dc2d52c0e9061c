/** Products and quotients of integers. */
module Arithmetic {
  // Division that rounds down, whatever the sign of b.
  function FloorDiv(a: int, b: int): int
    requires b != 0
  {
    if b > 0 then a / b else (-a) / (-b)
  }

  lemma MulAtLeast(x: int, d: int)
    requires x >= 1 && d >= 0
    ensures x * d >= d
  {
    assert x * d == d + (x - 1) * d;
  }

  // Two ways of writing a number as quotient and remainder are the same.
  lemma SameQuotient(d: int, q: int, r: int, q': int, r': int)
    requires 0 <= r < d && 0 <= r' < d && q * d + r == q' * d + r'
    ensures q == q' && r == r'
  {
    assert (q - q') * d == r' - r && (q' - q) * d == r - r';
    if q > q' {
      MulAtLeast(q - q', d);
    } else if q < q' {
      MulAtLeast(q' - q, d);
    }
  }

  lemma DivisionIsUnique(a: nat, d: nat, q: nat, r: nat)
    requires r < d && a == q * d + r
    ensures a / d == q && a % d == r
  {
    SameQuotient(d, a / d, a % d, q, r);
  }

  lemma QuotientAndRemainder(a: nat, d: nat)
    requires d > 0
    ensures a == a / d * d + a % d && 0 <= a % d < d && a / d >= 0
  {
  }

  lemma Doubled(q: int, d: int)
    ensures q * (2 * d) == 2 * (q * d)
  {
  }
}
