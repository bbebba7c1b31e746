/** Powers of two, and division with remainder. */
module Arithmetic {

  /** Below 2^53 a double holds every integer. */
  const SAFE := 0x20_0000_0000_0000

  function Pow2(n: nat): (r: nat)
    ensures r > 0
  {
    if n == 0 then 1 else 2 * Pow2(n - 1)
  }

  lemma {:induction false} Multiples(k: int, d: int)
    requires d > 0
    ensures (k >= 1 ==> k * d >= d) && (k <= -1 ==> k * d <= -d)
  {}

  /** Division with remainder is unique. */
  lemma {:induction false} DivMod(a: int, d: int, q: int, r: int)
    requires d > 0 && a == q * d + r && 0 <= r < d
    ensures a / d == q && a % d == r
  {
    var k := q - a / d;
    assert k * d == a % d - r;
    Multiples(k, d);
  }

  lemma {:induction false} Euclid(m: nat, p: nat) returns (d: nat, r: nat)
    requires p > 0
    ensures d == m / p && r == m % p && r < p && m == d * p + r
  {
    d, r := m / p, m % p;
  }
}
