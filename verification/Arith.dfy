/** Powers of two and facts about division that the solver does not find by itself. */
module Arith {
  type Byte = x: nat | x < 256

  function Min(a: nat, b: nat): nat { if a < b then a else b }

  function Max(a: nat, b: nat): nat { if a > b then a else b }

  function Pow2(n: nat): (r: nat)
    ensures r > 0
  {
    if n == 0 then 1 else 2 * Pow2(n - 1)
  }

  lemma Pow2Next(n: nat)
    ensures Pow2(n + 1) == 2 * Pow2(n)
  {
  }

  lemma Pow2Values()
    ensures Pow2(0) == 1 && Pow2(1) == 2 && Pow2(2) == 4 && Pow2(3) == 8 && Pow2(4) == 16 && Pow2(5) == 32
    ensures Pow2(6) == 64 && Pow2(7) == 128 && Pow2(8) == 256 && Pow2(10) == 1024 && Pow2(15) == 32768
  {
    assert Pow2(4) == 2 * Pow2(3) && Pow2(5) == 2 * Pow2(4) && Pow2(6) == 2 * Pow2(5) && Pow2(7) == 2 * Pow2(6);
    assert Pow2(8) == 2 * Pow2(7) && Pow2(9) == 2 * Pow2(8) && Pow2(10) == 2 * Pow2(9) && Pow2(11) == 2 * Pow2(10);
    assert Pow2(12) == 2 * Pow2(11) && Pow2(13) == 2 * Pow2(12) && Pow2(14) == 2 * Pow2(13) && Pow2(15) == 2 * Pow2(14);
  }

  lemma {:induction false} Pow2Monotone(a: nat, b: nat)
    requires a <= b
    ensures Pow2(a) <= Pow2(b)
    ensures a >= 10 ==> Pow2(a) >= 1024
    decreases b
  {
    if a < b { Pow2Monotone(a, b - 1); }
    if a >= 10 {
      Pow2Values();
      if a > 10 { Pow2Monotone(10, a - 1); }
    }
  }

  lemma MulSign(d: int, m: nat)
    ensures d >= 1 ==> d * m >= m
    ensures d <= -1 ==> d * m <= 0 - m
  {
    if d >= 1 {
      assert d * m == m + (d - 1) * m;
    }
    if d <= -1 {
      assert d * m == (d + 1) * m - m;
    }
  }

  /** Quotient and remainder are determined by their product form. */
  lemma DivModUnique(a: int, m: nat, q: int, r: nat)
    requires a == q * m + r && r < m
    ensures a / m == q && a % m == r
  {
    var d := a / m - q;
    assert d * m == (a / m) * m - q * m == r - a % m;
    MulSign(d, m);
  }
}
