// Numbers as sequences of 32-bit digits, least significant first, and the bit operations the limb code
// is written with (src/arith_uint256.h, src/arith_uint256.cpp).
module Limbs {
  import opened DivMod
  import opened Powers

  const BASE: nat := 0x1_0000_0000

  lemma Pow2Base()
    ensures Pow2(8) == 256 && Pow2(16) == 65536 && Pow2(24) == 0x100_0000 && Pow2(32) == BASE
  {
    assert Pow2(4) == 16;
    Pow2Add(4, 4);
    Pow2Add(8, 8);
    Pow2Add(16, 8);
    Pow2Add(16, 16);
  }

  predicate IsLimbs(s: seq<nat>) { forall i :: 0 <= i < |s| ==> s[i] < BASE }

  ghost function Val(s: seq<nat>): nat {
    if s == [] then 0 else s[0] + BASE * Val(s[1..])
  }

  /** One more than the largest value of `n` limbs. */
  ghost function Size(n: nat): nat { Pow2(32 * n) }

  lemma SizeStep(n: nat)
    ensures Size(n + 1) == BASE * Size(n) && Size(0) == 1
  {
    Pow2Base();
    Pow2Add(32, 32 * n);
  }

  lemma {:induction false} ValBound(s: seq<nat>)
    requires IsLimbs(s)
    ensures Val(s) < Size(|s|)
  {
    if s == [] {
      SizeStep(0);
    } else {
      ValBound(s[1..]);
      SizeStep(|s| - 1);
    }
  }

  lemma {:induction false} ValConcat(a: seq<nat>, b: seq<nat>)
    ensures Val(a + b) == Val(a) + Size(|a|) * Val(b)
  {
    if a == [] {
      assert a + b == b;
      SizeStep(0);
    } else {
      hide Size;
      assert (a + b)[1..] == a[1..] + b;
      ValConcat(a[1..], b);
      SizeStep(|a| - 1);
      Distribute(BASE, Val(a[1..]), Size(|a| - 1), Val(b));
    }
  }

  lemma Distribute(b: int, x: int, y: int, z: int)
    ensures b * (x + y * z) == b * x + (b * y) * z
  {
  }

  lemma {:induction false} ValZeros(n: nat)
    ensures Val(seq(n, _ => 0)) == 0
  {
    if n > 0 {
      ValZeros(n - 1);
      assert seq(n, _ => 0)[1..] == seq(n - 1, _ => 0);
    }
  }

  /** Keeping the lowest `n` limbs reduces the value modulo their size. */
  lemma ValTake(s: seq<nat>, n: nat)
    requires IsLimbs(s) && n <= |s|
    ensures Val(s[..n]) == Val(s) % Size(n)
  {
    assert s == s[..n] + s[n..];
    ValConcat(s[..n], s[n..]);
    ValBound(s[..n]);
    ModUnique(Val(s), Size(n), Val(s[n..]), Val(s[..n]));
  }

  // ----- shifts of a number

  function Shl(x: nat, n: nat): nat
    decreases n
  {
    if n == 0 then x else Shl(2 * x, n - 1)
  }

  function Shr(x: nat, n: nat): nat { if n == 0 then x else Shr(x / 2, n - 1) }

  lemma {:induction false} ShlValue(x: nat, n: nat)
    ensures Shl(x, n) == x * Pow2(n)
    decreases n
  {
    if n > 0 {
      ShlValue(2 * x, n - 1);
      assert (2 * x) * Pow2(n - 1) == x * (2 * Pow2(n - 1));
    }
  }

  lemma {:induction false} ShrValue(x: nat, n: nat)
    ensures var r := x - Pow2(n) * Shr(x, n); 0 <= r < Pow2(n)
    ensures Shr(x, n) == x / Pow2(n)
  {
    if n > 0 {
      ShrValue(x / 2, n - 1);
      Halving(x, Pow2(n - 1), Shr(x / 2, n - 1));
    }
    ModUnique(x, Pow2(n), Shr(x, n), x - Pow2(n) * Shr(x, n));
  }

  lemma Halving(x: nat, p: nat, q: nat)
    requires 0 <= x / 2 - p * q < p
    ensures 0 <= x - (2 * p) * q < 2 * p
  {
    assert (2 * p) * q == 2 * (p * q);
  }

  /** Bit `n` of a number. */
  predicate BitSet(x: nat, n: nat) { Shr(x, n) % 2 == 1 }

  // ----- the bitwise or of two numbers

  function Or(x: nat, y: nat): nat
    decreases x + y
  {
    if x == 0 then y else if y == 0 then x
    else (if x % 2 == 1 || y % 2 == 1 then 1 else 0) + 2 * Or(x / 2, y / 2)
  }

  /** Numbers without common bits are added. */
  lemma {:induction false} OrDisjoint(x: nat, y: nat, s: nat)
    requires x % Pow2(s) == 0 && y < Pow2(s)
    ensures Or(x, y) == x + y
  {
    if s > 0 && x != 0 && y != 0 {
      var p := Pow2(s - 1);
      var q := x / Pow2(s);
      assert x == 2 * (p * q) by { assert x == Pow2(s) * q; assert (2 * p) * q == 2 * (p * q); }
      ModUnique(x / 2, p, q, 0);
      OrDisjoint(x / 2, y / 2, s - 1);
    }
  }

  lemma OrSwap(x: nat, y: nat)
    ensures Or(x, y) == Or(y, x)
    decreases x + y
  {
    if x != 0 && y != 0 {
      OrSwap(x / 2, y / 2);
    }
  }
}
