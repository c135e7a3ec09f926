// Arithmetic of base_uint (src/arith_uint256.h, src/arith_uint256.cpp), for any number of limbs. An
// object is its array `pn` of limbs, changed in place.
module LimbArithmetic {
  import opened DivMod
  import opened Powers
  import opened Limbs

  lemma {:induction false} ValSnoc(s: seq<nat>, i: nat)
    requires i < |s|
    ensures Val(s[..i + 1]) == Val(s[..i]) + Size(i) * s[i]
  {
    assert s[..i + 1] == s[..i] + [s[i]];
    ValConcat(s[..i], [s[i]]);
    assert Val([s[i]]) == s[i] + BASE * Val([]);
  }

  // ----- addition

  /** One digit of the addition loop. */
  lemma AddStep(x: nat, y: nat, r: nat, size: nat, carry: nat, a: nat, b: nat, n: nat)
    requires r + carry * size == x + y && n == carry + a + b
    ensures (r + size * (n % BASE)) + (n / BASE) * (size * BASE) == (x + size * a) + (y + size * b)
  {
    assert n == n % BASE + BASE * (n / BASE);
    assert size * n == size * (n % BASE) + size * (BASE * (n / BASE));
    assert size * (BASE * (n / BASE)) == (n / BASE) * (size * BASE);
    assert size * n == size * carry + size * a + size * b;
  }

  /** `pn += b`, modulo the size. */
  method Add(pn: array<nat>, b: seq<nat>)
    requires IsLimbs(pn[..]) && IsLimbs(b) && |b| == pn.Length
    modifies pn
    ensures IsLimbs(pn[..]) && Val(pn[..]) == (Val(old(pn[..])) + Val(b)) % Size(pn.Length)
  {
    ghost var a := pn[..];
    var carry := 0;
    var i := 0;
    SizeStep(0);
    while i < pn.Length
      invariant 0 <= i <= pn.Length && 0 <= carry <= 1
      invariant pn[i..] == a[i..] && IsLimbs(pn[..])
      invariant Val(pn[..i]) + carry * Size(i) == Val(a[..i]) + Val(b[..i])
    {
      hide Val, Size;
      ghost var before := pn[..];
      assert pn[i] == pn[i..][0] == a[i];
      var n := carry + pn[i] + b[i];
      assert n < 0x1_0000_0000_0000_0000;
      ValSnoc(a, i);
      ValSnoc(b, i);
      SizeStep(i);
      AddStep(Val(a[..i]), Val(b[..i]), Val(pn[..i]), Size(i), carry, a[i], b[i], n);
      pn[i] := n % BASE;
      carry := n / BASE;
      assert pn[..i] == before[..i] && pn[i + 1..] == before[i + 1..] == a[i + 1..];
      ValSnoc(pn[..], i);
      i := i + 1;
    }
    assert pn[..i] == pn[..] && a[..i] == a && b[..i] == b;
    ValBound(pn[..]);
    ModUnique(Val(a) + Val(b), Size(pn.Length), carry, Val(pn[..]));
  }

  // ----- complement, increment, subtraction

  /** The limbs of `~b`. */
  function Complement(b: seq<nat>): seq<nat>
    requires IsLimbs(b)
  {
    seq(|b|, i requires 0 <= i < |b| => BASE - 1 - b[i])
  }

  lemma {:induction false} ValComplement(b: seq<nat>)
    requires IsLimbs(b)
    ensures IsLimbs(Complement(b)) && Val(Complement(b)) + Val(b) == Size(|b|) - 1
  {
    SizeStep(0);
    if b != [] {
      ValComplement(b[1..]);
      assert Complement(b)[1..] == Complement(b[1..]);
      SizeStep(|b| - 1);
    }
  }

  /** All limbs at their maximum. */
  lemma {:induction false} ValFull(s: seq<nat>)
    requires forall i :: 0 <= i < |s| ==> s[i] == BASE - 1
    ensures Val(s) == Size(|s|) - 1
  {
    SizeStep(0);
    if s != [] {
      ValFull(s[1..]);
      SizeStep(|s| - 1);
    }
  }

  lemma {:induction false} ValAllZero(s: seq<nat>)
    requires forall i :: 0 <= i < |s| ==> s[i] == 0
    ensures Val(s) == 0
  {
    if s != [] {
      ValAllZero(s[1..]);
    }
  }

  /** `++pn`, modulo the size. */
  method Increment(pn: array<nat>)
    requires IsLimbs(pn[..])
    modifies pn
    ensures IsLimbs(pn[..]) && Val(pn[..]) == (Val(old(pn[..])) + 1) % Size(pn.Length)
  {
    ghost var a := pn[..];
    var i := 0;
    while i < pn.Length
      invariant 0 <= i <= pn.Length && pn[i..] == a[i..] && IsLimbs(pn[..])
      invariant forall j :: 0 <= j < i ==> pn[j] == 0 && a[j] == BASE - 1
    {
      ghost var before := pn[..];
      assert pn[i] == pn[i..][0] == a[i];
      pn[i] := (pn[i] + 1) % BASE;
      assert pn[i + 1..] == before[i + 1..] == a[i + 1..];
      if pn[i] != 0 {
        IncrementEnds(a, pn[..], i);
        return;
      }
      i := i + 1;
    }
    assert pn[..i] == pn[..] && a[..i] == a;
    ValAllZero(pn[..]);
    ValFull(a);
    ModUnique(Val(a) + 1, Size(pn.Length), 1, 0);
  }

  lemma {:induction false} IncrementEnds(a: seq<nat>, r: seq<nat>, i: nat)
    requires IsLimbs(r) && IsLimbs(a) && |a| == |r| && i < |a| && r[i] == a[i] + 1 && r[i + 1..] == a[i + 1..]
    requires forall j :: 0 <= j < i ==> r[j] == 0 && a[j] == BASE - 1
    ensures Val(r) == (Val(a) + 1) % Size(|a|)
  {
    hide Val, Size;
    ValSnoc(a, i);
    ValSnoc(r, i);
    ValFull(a[..i]);
    ValAllZero(r[..i]);
    assert a == a[..i + 1] + a[i + 1..] && r == r[..i + 1] + r[i + 1..];
    ValConcat(a[..i + 1], a[i + 1..]);
    ValConcat(r[..i + 1], r[i + 1..]);
    assert Size(i) * (a[i] + 1) == Size(i) * a[i] + Size(i);
    ValBound(r);
    ModUnique(Val(a) + 1, Size(|a|), 0, Val(r));
  }

  /** The limbs of `-b`. */
  method Negate(b: seq<nat>) returns (ret: array<nat>)
    requires IsLimbs(b)
    ensures fresh(ret) && ret.Length == |b| && IsLimbs(ret[..]) && Val(ret[..]) == (Size(|b|) - Val(b)) % Size(|b|)
  {
    ret := new nat[|b|];
    ghost var full := Complement(b);
    for i := 0 to |b|
      invariant forall j :: 0 <= j < i ==> ret[j] == full[j]
    {
      ret[i] := BASE - 1 - b[i];
    }
    assert ret[..] == full;
    ValComplement(b);
    Increment(ret);
  }

  /** `pn -= b`, modulo the size; exact when it does not borrow. */
  method Subtract(pn: array<nat>, b: seq<nat>)
    requires IsLimbs(pn[..]) && IsLimbs(b) && |b| == pn.Length
    modifies pn
    ensures IsLimbs(pn[..]) && Val(pn[..]) == (Val(old(pn[..])) - Val(b)) % Size(pn.Length)
    ensures Val(b) <= Val(old(pn[..])) ==> Val(pn[..]) == Val(old(pn[..])) - Val(b)
  {
    var negated := Negate(b);
    ValBound(pn[..]);
    ValBound(b);
    NegateAdd(Val(pn[..]), Val(b), Size(|b|));
    Add(pn, negated[..]);
  }

  lemma NegateAdd(a: nat, b: nat, m: nat)
    requires a < m && b < m
    ensures (a + (m - b) % m) % m == (a - b) % m
    ensures b <= a ==> (a - b) % m == a - b
  {
    if b == 0 {
      ModUnique(m, m, 1, 0);
      ModUnique(a, m, 0, a);
    } else {
      ModUnique(m - b, m, 0, m - b);
      if b <= a {
        ModUnique(a - b, m, 0, a - b);
        ModUnique(a + (m - b), m, 1, a - b);
      } else {
        ModUnique(a - b, m, -1, a - b + m);
        ModUnique(a + (m - b), m, 0, a - b + m);
      }
    }
  }

  // ----- comparison and bit length

  /** The sign of `a - b`, found from the highest limb that differs. */
  method CompareTo(a: seq<nat>, b: seq<nat>) returns (c: int)
    requires IsLimbs(a) && IsLimbs(b) && |a| == |b|
    ensures c == if Val(a) < Val(b) then -1 else if Val(a) > Val(b) then 1 else 0
  {
    var i := |a|;
    while i > 0
      invariant 0 <= i <= |a| && a[i..] == b[i..]
    {
      i := i - 1;
      if a[i] != b[i] {
        HigherLimb(a, b, i);
        HigherLimb(b, a, i);
        return if a[i] < b[i] then -1 else 1;
      }
      assert a[i..] == [a[i]] + a[i + 1..] && b[i..] == [b[i]] + b[i + 1..];
    }
    assert a[0..] == a && b[0..] == b;
    c := 0;
  }

  lemma {:induction false} HigherLimb(a: seq<nat>, b: seq<nat>, i: nat)
    requires IsLimbs(a) && IsLimbs(b) && |a| == |b| && i < |a| && a[i + 1..] == b[i + 1..]
    ensures a[i] < b[i] ==> Val(a) < Val(b)
  {
    hide Val, Size;
    ValSnoc(a, i);
    ValSnoc(b, i);
    ValBound(a[..i]);
    assert a == a[..i + 1] + a[i + 1..] && b == b[..i + 1] + b[i + 1..];
    ValConcat(a[..i + 1], a[i + 1..]);
    ValConcat(b[..i + 1], b[i + 1..]);
    if a[i] < b[i] {
      assert Size(i) * a[i] + Size(i) <= Size(i) * b[i] by { Multiples(Size(i), a[i] + 1, b[i]); }
    }
  }

  /** The least number of binary digits that can write the value; 0 needs none. */
  method Bits(a: seq<nat>) returns (n: nat)
    requires IsLimbs(a)
    ensures Val(a) == 0 ==> n == 0
    ensures Val(a) > 0 ==> n > 0 && Pow2(n - 1) <= Val(a) < Pow2(n) && n <= 32 * |a|
  {
    var pos := |a|;
    while pos > 0
      invariant 0 <= pos <= |a| && forall j :: pos <= j < |a| ==> a[j] == 0
    {
      pos := pos - 1;
      if a[pos] != 0 {
        var bits := LimbBits(a[pos]);
        TopLimb(a, pos, bits);
        return 32 * pos + bits;
      }
    }
    ValAllZero(a);
    n := 0;
  }

  method LimbBits(x: nat) returns (bits: nat)
    requires 0 < x < BASE
    ensures 1 <= bits <= 32 && Pow2(bits - 1) <= x < Pow2(bits)
  {
    Pow2Base();
    var nbits := 31;
    while nbits > 0
      invariant 0 <= nbits <= 31 && x < Pow2(nbits + 1)
    {
      HighBit(x, nbits);
      if BitSet(x, nbits) {
        return nbits + 1;
      }
      nbits := nbits - 1;
    }
    bits := 1;
  }

  lemma HighBit(x: nat, n: nat)
    requires x < Pow2(n + 1)
    ensures BitSet(x, n) <==> x >= Pow2(n)
  {
    var p := Pow2(n);
    ShrValue(x, n);
    if x >= p {
      ModUnique(x, p, 1, x - p);
    } else {
      ModUnique(x, p, 0, x);
    }
  }

  lemma {:induction false} TopLimb(a: seq<nat>, pos: nat, bits: nat)
    requires IsLimbs(a) && pos < |a| && 1 <= bits <= 32 && Pow2(bits - 1) <= a[pos] < Pow2(bits)
    requires forall j :: pos < j < |a| ==> a[j] == 0
    ensures Pow2(32 * pos + bits - 1) <= Val(a) < Pow2(32 * pos + bits)
  {
    hide Val;
    assert a == a[..pos + 1] + a[pos + 1..];
    ValConcat(a[..pos + 1], a[pos + 1..]);
    ValAllZero(a[pos + 1..]);
    ValSnoc(a, pos);
    ValBound(a[..pos]);
    Pow2Add(32 * pos, bits - 1);
    Pow2Add(32 * pos, bits);
    assert Size(pos) == Pow2(32 * pos);
    hide Pow2, Size;
    Multiples(Size(pos), Pow2(bits - 1), a[pos]);
    Multiples(Size(pos), a[pos] + 1, Pow2(bits));
    Multiples(Size(pos), a[pos], a[pos]);
  }
}
