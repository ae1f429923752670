/** Facts about products and quotients, one at a time. */
module Arithmetic {

  lemma Distribute(a: int, b: int, c: int)
    ensures (a + b) * c == a * c + b * c
  {
  }

  lemma Regroup(a: int, b: int, c: int)
    ensures a * b * c == a * (c * b)
  {
  }

  lemma ProductPositive(a: nat, b: nat)
    requires a > 0 && b > 0
    ensures a * b > 0
  {
  }

  /** The only multiple of n strictly between -n and n is zero. */
  lemma MultipleInRange(k: int, n: int)
    requires -n < k * n < n
    ensures k == 0
  {
  }

  /** A quotient and remainder that fit are the quotient and remainder. */
  lemma DivModUnique(x: int, q: int, t: int, n: int)
    requires n > 0 && 0 <= t < n && x == q * n + t
    ensures x / n == q && x % n == t
  {
    var q', t' := x / n, x % n;
    assert x == q' * n + t';
    Distribute(q, -q', n);
    MultipleInRange(q - q', n);
  }
}
