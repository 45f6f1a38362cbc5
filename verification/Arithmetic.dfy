/** Division by a known quotient, for closed forms and shifts. */
module Arithmetic {

  lemma Multiplied(d: nat, small: int, large: int)
    ensures small <= large ==> d * small <= d * large
  {
  }

  lemma Quotient(x: int, d: nat, k: int)
    requires 0 < d && d * k <= x < d * k + d
    ensures x / d == k
    ensures x % d == x - d * k
  {
    assert x == d * (x / d) + x % d;
    Multiplied(d, x / d + 1, k);
    Multiplied(d, k + 1, x / d);
  }

  lemma DividedTwice(x: nat, b: nat, c: nat)
    requires 0 < b && 0 < c
    ensures b * c > 0
    ensures x / b / c == x / (b * c)
  {
    var q := x / b / c;
    var r := (x / b) % c;
    assert x / b == c * q + r;
    assert x == b * (x / b) + x % b;
    assert b * (c * q + r) == (b * c) * q + b * r;
    Multiplied(b, r + 1, c);
    Quotient(x, b * c, q);
  }
}
