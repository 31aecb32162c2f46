/** Small facts of integer arithmetic that the solver needs one at a time. */
module Arith {

  lemma MulMono(a: int, b: int, c: nat)
    requires a <= b
    ensures a * c <= b * c
  {
  }

  lemma Distribute(a: int, b: int, c: int)
    ensures (a + b) * c == a * c + b * c
  {
  }

  /** Quotient and remainder are determined by the two facts that define them. */
  lemma DivModUnique(x: int, m: int, q: int, r: int)
    requires 0 <= r < m && x == q * m + r
    ensures x / m == q && x % m == r
  {
    var d := x / m - q;
    assert x == (x / m) * m + x % m;
    Distribute(x / m, -q, m);
    assert d * m == r - x % m;
    assert d <= 0 || d * m >= m by { MulMono(1, if d <= 0 then 1 else d, m); }
    assert d >= 0 || d * m <= -m by { MulMono(if d >= 0 then -1 else d, -1, m); }
  }

  /** Adding a multiple of the modulus does not change the remainder. */
  lemma AddMultiple(x: int, q: int, m: int)
    requires m > 0
    ensures (x + q * m) % m == x % m
  {
    assert x == (x / m) * m + x % m;
    Distribute(x / m, q, m);
    DivModUnique(x + q * m, m, x / m + q, x % m);
  }

}
