// Products, quotients and powers, for the modules whose constants are variables.
module Arithmetic {

  lemma ProductAtLeast(a: int, m: int)
    requires a >= 1 && m >= 1
    ensures a * m >= m
  {
    assert a * m == (a - 1) * m + m;
  }

  lemma ScaleOrder(a: int, b: int, m: int)
    requires m >= 1
    ensures a < b <==> a * m < b * m
    ensures a < b ==> a * m + m <= b * m
    ensures a == b <==> a * m == b * m
  {
    assert b * m - a * m == (b - a) * m == -((a - b) * m);
    if a < b { ProductAtLeast(b - a, m); } else if b < a { ProductAtLeast(a - b, m); }
  }

  lemma DivModUnique(x: int, q: int, r: int, m: int)
    requires m > 0 && x == q * m + r && 0 <= r < m
    ensures x / m == q && x % m == r
  {
    ScaleOrder(x / m, q, m);
    ScaleOrder(q, x / m, m);
  }

  lemma QuotientRemainder(x: int, m: int)
    requires m > 0
    ensures x == (x / m) * m + x % m && 0 <= x % m < m
  {
  }

  function Pow2(k: nat): (r: nat)
    ensures r >= 1
  {
    if k == 0 then 1 else 2 * Pow2(k - 1)
  }

  lemma {:induction false} Pow2Add(a: nat, b: nat)
    ensures Pow2(a + b) == Pow2(a) * Pow2(b)
  {
    if a > 0 { Pow2Add(a - 1, b); }
  }

  lemma Pow2Of32()
    ensures Pow2(32) == 0x1_0000_0000
  {
    Pow2Add(8, 8);
    Pow2Add(16, 16);
    assert Pow2(8) == 256;
  }
}
