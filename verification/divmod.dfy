// Division with remainder and products of integers.
module DivMod {

  function Quot(a: nat, p: nat): nat
    requires p > 0
  {
    a / p
  }

  function Rem(a: nat, p: nat): (r: nat)
    requires p > 0
    ensures r < p
  {
    a % p
  }

  lemma QuotRem(a: nat, p: nat)
    requires p > 0
    ensures a == p * Quot(a, p) + Rem(a, p)
    ensures p > 1 && a > 0 ==> Quot(a, p) < a
  {
    MulSign(Quot(a, p), p - 1);
  }

  lemma MulSign(m: nat, d: int)
    ensures d >= 1 ==> m * d >= m
    ensures d <= -1 ==> m * d <= 0 - m
    ensures d == 0 ==> m * d == 0
  {
    if d >= 1 {
      assert m * (d - 1) >= 0;
    } else if d <= -1 {
      assert m * (-1 - d) >= 0;
    }
  }

  lemma Multiples(m: nat, x: int, y: int)
    requires x <= y
    ensures m * x <= m * y && m * (x + 1) == m * x + m
  {
    assert m * (y - x) >= 0;
  }

  /** Quotient and remainder are determined by what they have to satisfy. */
  lemma ModUnique(x: int, m: nat, q: int, r: nat)
    requires x == r + m * q && r < m
    ensures x % m == r && x / m == q
  {
    var d := x / m - q;
    assert x == m * (x / m) + x % m;
    assert m * d == r - x % m by { assert m * (x / m) - m * q == m * d; }
    MulSign(m, d);
  }

  lemma DivLess(w: nat, p: nat)
    requires p > 0
    ensures w / p <= w
  {
    assert w == p * (w / p) + w % p;
    Multiples(w / p, 1, p);
  }
}
