// Multiplication of base_uint (src/arith_uint256.cpp), for any number of limbs.
module LimbMultiplication {
  import opened DivMod
  import opened Powers
  import opened Limbs
  import opened LimbArithmetic
  import opened LimbDivision

  /** The 64-bit sum of a product of two limbs and two more limbs never wraps, and its upper half is a limb. */
  lemma FitsWord(x: nat, y: nat, a: nat, carry: nat)
    requires x < BASE && y < BASE && a < BASE && carry < BASE
    ensures carry + a + x * y < 0x1_0000_0000_0000_0000 && (carry + a + x * y) / BASE < BASE
  {
    MulBound(x, y);
    var n := carry + a + x * y;
    assert n < BASE * BASE;
  }

  lemma MulBound(x: nat, y: nat)
    requires x < BASE && y < BASE
    ensures x * y <= (BASE - 1) * (BASE - 1)
  {
    assert x * y <= x * (BASE - 1) by { Multiples(x, y, BASE - 1); }
    assert (BASE - 1) * x <= (BASE - 1) * (BASE - 1) by { Multiples(BASE - 1, x, BASE - 1); }
  }

  /** What a row has taken in: `r` in place and `carry` above it, against `x` times `v` shifted and added to `before`.
      */
  ghost predicate RowHolds(r: nat, size: nat, carry: nat, before: nat, shift: nat, x: nat, v: nat) {
    r + size * carry == before + shift * (x * v)
  }

  /** One limb of a row: `r` plus the carry is `old` plus `x` times the multiplicand `v` so far, shifted by `shift`. */
  lemma RowStep(r: nat, carry: nat, size: nat, before: nat, shift: nat, x: nat, v: nat, part: nat, a: nat, y: nat,
                n: nat)
    requires RowHolds(r, size, carry, before, shift, x, v) && size == shift * part && n == carry + a + x * y
    ensures RowHolds(r + size * (n % BASE), BASE * size, n / BASE, before + size * a, shift, x, v + part * y)
  {
    assert n == n % BASE + BASE * (n / BASE);
    assert size * n == size * (n % BASE) + (size * BASE) * (n / BASE) by {
      Distributes(size, n % BASE, BASE * (n / BASE));
      Associate(size, BASE, n / BASE);
    }
    assert size * n == size * carry + size * a + size * (x * y) by {
      Distributes(size, carry + a, x * y);
      Distributes(size, carry, a);
    }
    assert x * (v + part * y) == x * v + x * (part * y) by { Distributes(x, v, part * y); }
    assert shift * (x * v + x * (part * y)) == shift * (x * v) + shift * (x * (part * y)) by {
      Distributes(shift, x * v, x * (part * y));
    }
    assert size * (x * y) == shift * (x * (part * y)) by { Shuffle(shift, part, x, y); }
  }

  lemma Distributes(s: int, a: int, b: int)
    ensures s * (a + b) == s * a + s * b
  {
  }

  lemma Associate(a: int, b: int, c: int)
    ensures a * (b * c) == (a * b) * c
  {
  }

  lemma Shuffle(a: nat, b: nat, x: nat, y: nat)
    ensures (a * b) * (x * y) == a * (x * (b * y))
  {
    Associate(a, b, x * y);
    Associate(b, x, y);
    Associate(x, b, y);
  }

  /** `pn *= b32`, modulo the size. */
  method MultiplyBy(pn: array<nat>, b32: nat)
    requires IsLimbs(pn[..]) && b32 < BASE
    modifies pn
    ensures IsLimbs(pn[..]) && Val(pn[..]) == (Val(old(pn[..])) * b32) % Size(pn.Length)
  {
    RowStart(b32);
    hide Val, Size, RowHolds;
    ghost var a := pn[..];
    var carry: nat := 0;
    StartEmpty(a);
    for i := 0 to pn.Length
      invariant carry < BASE && IsLimbs(pn[..]) && pn[i..] == a[i..]
      invariant RowHolds(Val(pn[..i]), Size(i), carry, 0, 1, b32, Val(a[..i]))
    {
      ghost var before := pn[..];
      assert pn[i] == pn[i..][0] == a[i];
      var n := carry + b32 * pn[i];
      FitsWord(b32, a[i], 0, carry);
      RowStep(Val(pn[..i]), carry, Size(i), 0, 1, b32, Val(a[..i]), Size(i), 0, a[i], n);
      SizeStep(i);
      ValSnoc(a, i);
      pn[i] := n % BASE;
      carry := n / BASE;
      assert pn[..i] == before[..i] && pn[i + 1..] == before[i + 1..] == a[i + 1..];
      ValSnoc(pn[..], i);
    }
    assert pn[..pn.Length] == pn[..] && a[..pn.Length] == a;
    ValBound(pn[..]);
    RowRemainder(Val(pn[..]), Size(pn.Length), carry, b32, Val(a));
  }

  lemma Remainder(u: nat, v: nat, size: nat, dropped: nat, r: nat)
    requires r + size * dropped == v * u && r < size
    ensures r == (u * v) % size
  {
    ModUnique(u * v, size, dropped, r);
  }

  lemma RowStart(x: nat)
    ensures RowHolds(0, 1, 0, 0, 1, x, 0)
  {
  }

  lemma RowRemainder(r: nat, size: nat, carry: nat, x: nat, v: nat)
    requires RowHolds(r, size, carry, 0, 1, x, v) && r < size
    ensures r == (v * x) % size
  {
    Remainder(v, x, size, carry, r);
  }

  lemma RowBegins(r: nat, size: nat, shift: nat, x: nat)
    ensures RowHolds(r, size, 0, r, shift, x, 0)
  {
  }

  lemma StartEmpty(a: seq<nat>)
    ensures Val(a[..0]) == 0 && Size(0) == 1
  {
    SizeStep(0);
    assert a[..0] == [];
  }

  /** Add `x` times `b`, shifted by `j` limbs, to the limbs of `a`, dropping what does not fit. */
  method AddRow(a: array<nat>, x: nat, b: seq<nat>, j: nat) returns (ghost dropped: nat)
    requires IsLimbs(a[..]) && IsLimbs(b) && |b| == a.Length && x < BASE && j < a.Length
    modifies a
    ensures IsLimbs(a[..]) && Val(a[..]) + Size(a.Length) * dropped == Val(old(a[..])) + Size(j) * (x * Val(b))
  {
    hide Val, Size, RowHolds;
    ghost var was := a[..];
    var carry: nat := 0;
    StartEmpty(b);
    RowBegins(Val(a[..j]), Size(j), Size(j), x);
    var i := 0;
    while i + j < a.Length
      invariant 0 <= i && i + j <= a.Length && carry < BASE && IsLimbs(a[..]) && a[i + j..] == was[i + j..]
      invariant RowHolds(Val(a[..i + j]), Size(i + j), carry, Val(was[..i + j]), Size(j), x, Val(b[..i]))
    {
      ghost var before := a[..];
      assert a[i + j] == a[i + j..][0] == was[i + j];
      FitsWord(x, b[i], a[i + j], carry);
      var n := carry + a[i + j] + x * b[i];
      RowNext(before, was, x, b, j, i, carry, n);
      a[i + j] := n % BASE;
      carry := n / BASE;
      assert a[..] == before[i + j := n % BASE] && a[i + 1 + j..] == before[i + j..][1..] == was[i + j..][1..];
      assert a[..i + 1 + j] == before[i + j := n % BASE][..i + 1 + j];
      i := i + 1;
    }
    assert a[..a.Length] == a[..] && was[..a.Length] == was;
    dropped := carry + x * Val(b[i..]);
    RowEnd(Val(a[..]), carry, Val(was), j, x, b, i);
  }

  /** One limb further along the row, on the sequences. */
  lemma {:induction false} RowNext(before: seq<nat>, was: seq<nat>, x: nat, b: seq<nat>, j: nat, i: nat, carry: nat,
                                   n: nat)
    requires i + j < |before| == |was| == |b| && n == carry + was[i + j] + x * b[i]
    requires RowHolds(Val(before[..i + j]), Size(i + j), carry, Val(was[..i + j]), Size(j), x, Val(b[..i]))
    ensures RowHolds(Val(before[i + j := n % BASE][..i + 1 + j]), Size(i + 1 + j), n / BASE,
                     Val(was[..i + 1 + j]), Size(j), x, Val(b[..i + 1]))
  {
    hide Val, Size, RowHolds;
    var after, k := before[i + j := n % BASE], i + j;
    assert after[..k] == before[..k];
    SizeSplit(i, j);
    RowStep(Val(before[..k]), carry, Size(k), Val(was[..k]), Size(j), x, Val(b[..i]), Size(i), was[k], b[i], n);
    SizeStep(k);
    ValSnoc(was, k);
    ValSnoc(b, i);
    ValSnoc(after, k);
  }

  lemma {:induction false} SizeSplit(i: nat, j: nat)
    ensures Size(i + j) == Size(j) * Size(i)
  {
    Pow2Add(32 * j, 32 * i);
  }

  /** The limbs of `b` that the row does not reach only matter above the width. */
  lemma {:induction false} RowEnd(r: nat, carry: nat, was: nat, j: nat, x: nat, b: seq<nat>, i: nat)
    requires i <= |b| && i + j == |b| && RowHolds(r, Size(|b|), carry, was, Size(j), x, Val(b[..i]))
    ensures r + Size(|b|) * (carry + x * Val(b[i..])) == was + Size(j) * (x * Val(b))
  {
    assert b == b[..i] + b[i..];
    ValConcat(b[..i], b[i..]);
    SizeSplit(i, j);
    var u, v := Val(b[..i]), Val(b[i..]);
    hide Val, Size;
    Distributes(Size(|b|), carry, x * v);
    Distributes(x, u, Size(i) * v);
    Distributes(Size(j), x * u, x * (Size(i) * v));
    Shuffle(Size(j), Size(i), x, v);
  }

  /** `pn *= b`, modulo the size. */
  method Multiply(pn: array<nat>, b: seq<nat>)
    requires IsLimbs(pn[..]) && IsLimbs(b) && |b| == pn.Length
    modifies pn
    ensures IsLimbs(pn[..]) && Val(pn[..]) == (Val(old(pn[..])) * Val(b)) % Size(pn.Length)
  {
    hide Val, Size;
    ghost var p := pn[..];
    var a := new nat[pn.Length](_ => 0);
    ghost var dropped: nat := 0;
    NothingYet(a[..], p);
    for j := 0 to pn.Length
      invariant fresh(a) && a.Length == pn.Length && pn[..] == p && IsLimbs(a[..])
      invariant Val(a[..]) + Size(pn.Length) * dropped == Val(b) * Val(p[..j])
    {
      ghost var before := Val(a[..]);
      ghost var more := AddRow(a, pn[j], b, j);
      ValSnoc(p, j);
      RowAdded(before, Val(a[..]), Size(pn.Length), dropped, more, Val(p[..j]), Val(b), Size(j), p[j]);
      dropped := dropped + more;
    }
    assert p[..pn.Length] == p;
    ValBound(a[..]);
    Remainder(Val(p), Val(b), Size(pn.Length), dropped, Val(a[..]));
    Copy(pn, a[..]);
  }

  lemma {:induction false} NothingYet(a: seq<nat>, p: seq<nat>)
    requires forall i :: 0 <= i < |a| ==> a[i] == 0
    ensures Val(a) == 0 && Val(p[..0]) == 0
  {
    ValAllZero(a);
    StartEmpty(p);
  }

  lemma RowAdded(before: nat, after: nat, size: nat, dropped: nat, more: nat, u: nat, v: nat, shift: nat, x: nat)
    requires before + size * dropped == v * u && after + size * more == before + shift * (x * v)
    ensures after + size * (dropped + more) == v * (u + shift * x)
  {
    Distributes(size, dropped, more);
    Distributes(v, u, shift * x);
    Associate(shift, x, v);
  }
}
