/** Products, quotients and remainders. */
module Arithmetic {

  lemma Quotient(a: int, n: int)
    requires n > 0
    ensures a == a / n * n + a % n && 0 <= a % n < n
  {
  }

  /** Numbers that differ by a multiple of n have the same remainder. */
  lemma SameRemainder(a: int, q: int, n: int)
    requires n > 0
    ensures (a + q * n) % n == a % n
  {
    var b := a + q * n;
    Quotient(a, n);
    Quotient(b, n);
    OneQuotient(a / n + q, a % n, b / n, b % n, n);
    Distributes(a / n, q, n);
  }

  lemma Distributes(a: int, b: int, c: int)
    ensures (a + b) * c == a * c + b * c
  {
  }

  lemma OneQuotient(q: int, r: int, q': int, r': int, n: int)
    requires 0 <= r < n && 0 <= r' < n
    ensures q * n + r == q' * n + r' ==> q == q' && r == r'
  {
    if q < q' { Times(q + 1, q', n); Distributes(q, 1, n); }
    if q' < q { Times(q' + 1, q, n); Distributes(q', 1, n); }
  }

  lemma Times(a: int, b: int, n: int)
    requires a <= b && n >= 0
    ensures a * n <= b * n
  {
  }

  lemma SmallRemainder(a: int, n: int)
    requires 0 <= a < n
    ensures a % n == a
  {
  }

  lemma TimesAtLeast(x: nat, y: nat)
    requires x >= 1
    ensures x * y >= y
  {
  }
}
