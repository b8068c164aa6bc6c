/** Powers, and division as C does it. */
module Arithmetic {

  /** C's n / d, which rounds toward zero. */
  function Quotient(n: int, d: int): int
    requires 0 < d
  {
    if n >= 0 then n / d else -((-n) / d)
  }

  /** It is the only quotient whose remainder is smaller than the divisor and has the sign of the dividend. */
  lemma QuotientTruncates(n: int, d: int, q: int)
    requires 0 < d
    ensures q == Quotient(n, d) <==> if n >= 0 then 0 <= n - q * d < d else -d < n - q * d <= 0
  {
    if n >= 0 { QuotientUnique(n, d, q); } else { QuotientUnique(-n, d, -q); }
  }

  lemma QuotientUnique(n: nat, d: int, q: int)
    requires 0 < d
    ensures q == n / d <==> 0 <= n - q * d < d
  {
    var e := n / d - q;
    assert n == n / d * d + n % d;
    assert n - q * d == e * d + n % d;
    if e > 0 { Product(e - 1, d); }
    if e < 0 { Product(-e - 1, d); }
  }

  lemma Product(a: int, d: int)
    requires 0 <= a && 0 < d
    ensures 0 <= a * d
  {
  }

  /** C's n % d, which has the sign of n. */
  function Remainder(n: int, d: int): int
    requires 0 < d
  {
    n - Quotient(n, d) * d
  }

  function Pow(b: nat, e: nat): nat {
    if e == 0 then 1 else b * Pow(b, e - 1)
  }

  function Pow2(n: nat): (r: nat)
    ensures r >= 1
  {
    if n == 0 then 1 else 2 * Pow2(n - 1)
  }
}
