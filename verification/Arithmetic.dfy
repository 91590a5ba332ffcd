/** Division by a variable, which the solver is left alone with nowhere else. */
module Arithmetic {

  lemma {:induction false} NextMultiple(d: nat, p: nat, q: nat)
    requires p < q
    ensures d * p + d <= d * q
  {
    if p < q - 1 { NextMultiple(d, p, q - 1); }
    assert d * q == d * (q - 1) + d;
  }

  /** There is only one quotient and one remainder. */
  lemma DivModUnique(x: nat, d: nat, q: nat, r: nat)
    requires d > 0 && r < d && x == d * q + r
    ensures x / d == q && x % d == r
  {
    var p, m := x / d, x % d;
    assert x == d * p + m;
    if p < q { NextMultiple(d, p, q); } else if q < p { NextMultiple(d, q, p); }
  }

  lemma DivShift(x: nat, d: nat)
    requires d > 0
    ensures (x + d) / d == x / d + 1
  {
    var q, r := x / d, x % d;
    assert x == d * q + r;
    assert x + d == d * (q + 1) + r;
    DivModUnique(x + d, d, q + 1, r);
  }

  /** Halving first and dividing then is dividing by twice as much. */
  lemma Halved(x: nat, d: nat)
    requires d > 0
    ensures x / (2 * d) == x / 2 / d && x % (2 * d) == 2 * (x / 2 % d) + x % 2
  {
    var q, r := x / 2 / d, x / 2 % d;
    assert x / 2 == d * q + r;
    assert x == 2 * (d * q + r) + x % 2 == (2 * d) * q + (2 * r + x % 2);
    DivModUnique(x, 2 * d, q, 2 * r + x % 2);
  }
}
