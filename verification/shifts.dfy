// The shift operators of base_uint (src/arith_uint256.cpp).
module LimbShifts {
  import opened DivMod
  import opened Powers
  import opened Limbs
  import opened LimbArithmetic

  /** What moves out of a limb shifted left by `s` bits, and what stays. */
  function High(x: nat, s: nat): nat
    requires s < 32
  {
    if s == 0 then 0 else Shr(x, 32 - s)
  }

  function Low(x: nat, s: nat): nat { Shl(x, s) % BASE }

  /** Limb `j` of `a` shifted left by `s` bits. */
  ghost function LeftDigit(a: seq<nat>, s: nat, j: int): nat
    requires s < 32
  {
    (if 0 <= j < |a| then Low(a[j], s) else 0) + (if 0 < j <= |a| then High(a[j - 1], s) else 0)
  }

  lemma HighLow(x: nat, s: nat)
    requires x < BASE && s < 32
    ensures Low(x, s) + BASE * High(x, s) == x * Pow2(s)
    ensures High(x, s) < Pow2(s) && Low(x, s) % Pow2(s) == 0 && Low(x, s) <= BASE - Pow2(s)
  {
    Pow2Base();
    ShlValue(x, s);
    if s == 0 {
      ModUnique(x, BASE, 0, x);
    } else {
      ShrValue(x, 32 - s);
      Pow2Add(s, 32 - s);
      Product(x, Pow2(s), Pow2(32 - s), Shr(x, 32 - s));
    }
  }

  lemma Product(x: nat, c: nat, d: nat, q: nat)
    requires c > 0 && d > 0 && c * d == BASE && x < BASE && 0 <= x - d * q < d
    ensures (x * c) % BASE + BASE * q == x * c && q < c && ((x * c) % BASE) % c == 0 && (x * c) % BASE <= BASE - c
  {
    var r := x - d * q;
    ScaledSplit(x, c, d, q, r);
    ModUnique(x * c, BASE, q, c * r);
    ModUnique(c * r, c, r, 0);
    SmallQuotient(x, c, d, q);
  }

  lemma ScaledSplit(x: nat, c: nat, d: nat, q: nat, r: nat)
    requires x == d * q + r && r < d
    ensures x * c == c * r + (c * d) * q && c * r <= c * d - c
  {
    Multiples(c, r + 1, d);
    assert (d * q) * c == (c * d) * q;
    assert x * c == (d * q) * c + r * c;
  }

  lemma SmallQuotient(x: nat, c: nat, d: nat, q: nat)
    requires d > 0 && x < c * d && d * q <= x
    ensures q < c
  {
    if q >= c {
      Multiples(d, c, q);
    }
  }

  /** The digits of the product with 2^s. */
  ghost function LeftDigits(a: seq<nat>, s: nat, n: nat): seq<nat>
    requires s < 32
  {
    seq(n, j requires 0 <= j < n => LeftDigit(a, s, j))
  }

  lemma {:induction false} LeftValue(a: seq<nat>, s: nat, n: nat)
    requires IsLimbs(a) && s < 32 && n <= |a|
    ensures Val(LeftDigits(a, s, n)) + Size(n) * (if n > 0 then High(a[n - 1], s) else 0) == Val(a[..n]) * Pow2(s)
  {
    hide Pow2, Size, High, Low;
    SizeStep(0);
    if n > 0 {
      var m := n - 1;
      LeftValue(a, s, m);
      HighLow(a[m], s);
      ValSnoc(a, m);
      var ds := LeftDigits(a, s, n);
      assert ds[..m] == LeftDigits(a, s, m) && ds[..n] == ds;
      ValSnoc(ds, m);
      SizeStep(m);
      LeftStep(Val(a[..m]), a[m], Size(m), Pow2(s), if m > 0 then High(a[m - 1], s) else 0, Low(a[m], s), High(a[m], s),
          Val(ds[..m]));
    }
  }

  lemma LeftStep(x: nat, y: nat, size: nat, c: nat, carry: nat, low: nat, high: nat, v: nat)
    requires v + size * carry == x * c && low + BASE * high == y * c
    ensures v + size * (low + carry) + (BASE * size) * high == (x + size * y) * c
  {
    assert (x + size * y) * c == x * c + size * (y * c);
    assert size * (low + BASE * high) == size * low + (BASE * size) * high;
  }

  /** Limb `j` of the result while the first `i` limbs of `a` have been shifted by `k` limbs and `s` bits. */
  ghost function LeftSoFar(a: seq<nat>, k: nat, s: nat, i: nat, j: nat): nat
    requires s < 32
  {
    if j < k || j > i + k then 0
    else if j < i + k then LeftDigit(a, s, j - k)
    else if 0 < i <= |a| then High(a[i - 1], s) else 0
  }

  /** Adding the parts of limb `i` with a bitwise or. */
  lemma LeftOr(a: seq<nat>, s: nat, i: nat)
    requires IsLimbs(a) && s < 32 && i < |a|
    ensures Or(if 0 < i then High(a[i - 1], s) else 0, Low(a[i], s)) == LeftDigit(a, s, i) < BASE
    ensures Or(0, High(a[i], s)) == High(a[i], s) < BASE
  {
    HighLow(a[i], s);
    if i > 0 {
      HighLow(a[i - 1], s);
      OrSwap(High(a[i - 1], s), Low(a[i], s));
      OrDisjoint(Low(a[i], s), High(a[i - 1], s), s);
    }
  }

  lemma LeftNone(a: seq<nat>, k: nat, s: nat)
    requires s < 32
    ensures forall j: nat {:trigger LeftSoFar(a, k, s, 0, j)} :: LeftSoFar(a, k, s, 0, j) == 0
  {
  }

  /** What the round for limb `i` changes. */
  lemma LeftNext(a: seq<nat>, k: nat, s: nat, i: nat)
    requires s < 32 && i < |a|
    ensures LeftSoFar(a, k, s, i, i + k) == (if 0 < i then High(a[i - 1], s) else 0)
    ensures LeftSoFar(a, k, s, i, i + k + 1) == 0
    ensures forall j: nat {:trigger LeftSoFar(a, k, s, i + 1, j)} ::
              LeftSoFar(a, k, s, i + 1, j) == if j == i + k then LeftDigit(a, s, i)
                                              else if j == i + k + 1 then High(a[i], s) else LeftSoFar(a, k, s, i, j)
  {
    hide LeftDigit, High;
  }

  method Clear(pn: array<nat>)
    modifies pn
    ensures forall j :: 0 <= j < pn.Length ==> pn[j] == 0
  {
    for i := 0 to pn.Length
      invariant forall j :: 0 <= j < i ==> pn[j] == 0
    {
      pn[i] := 0;
    }
  }

  /** `pn <<= shift`: multiply by 2^shift, modulo the size. */
  method ShiftLeft(pn: array<nat>, shift: nat)
    requires IsLimbs(pn[..])
    modifies pn
    ensures IsLimbs(pn[..]) && Val(pn[..]) == (Val(old(pn[..])) * Pow2(shift)) % Size(pn.Length)
  {
    var a := pn[..];
    Clear(pn);
    var k, s := shift / 32, shift % 32;
    assert shift == 32 * k + s;
    var i := 0;
    hide Val, Size, Pow2, Low, Or, Shr, LeftDigit, LeftSoFar;
    LeftNone(a, k, s);
    while i < pn.Length
      invariant 0 <= i <= pn.Length
      invariant forall j {:trigger pn[j]} :: 0 <= j < pn.Length ==> pn[j] == LeftSoFar(a, k, s, i, j)
    {
      LeftOr(a, s, i);
      LeftNext(a, k, s, i);
      if i + k + 1 < pn.Length && s != 0 {
        pn[i + k + 1] := Or(pn[i + k + 1], Shr(a[i], 32 - s));
      }
      if i + k < pn.Length {
        pn[i + k] := Or(pn[i + k], Low(a[i], s));
      }
      i := i + 1;
    }
    LeftTotal(a, k, s, pn[..]);
  }

  /** Limb-wise and bit-wise shift together. */
  lemma LeftTotal(a: seq<nat>, k: nat, s: nat, r: seq<nat>)
    requires IsLimbs(a) && s < 32 && |r| == |a| && forall j :: 0 <= j < |a| ==> r[j] == LeftSoFar(a, k, s, |a|, j)
    ensures IsLimbs(r) && Val(r) == (Val(a) * Pow2(32 * k + s)) % Size(|a|)
  {
    var n := |a|;
    var ds := LeftDigits(a, s, n + 1);
    var full := seq(k, _ => 0) + ds;
    assert IsLimbs(full) by { DigitsAreLimbs(a, s); }
    assert r == full[..n];
    ValTake(full, n);
    assert Val(ds) == Val(a) * Pow2(s) by {
      LeftValue(a, s, n);
      assert a[..n] == a && ds[..n] == LeftDigits(a, s, n) && ds[..n + 1] == ds;
      ValSnoc(ds, n);
    }
    ValConcat(seq(k, _ => 0), ds);
    ValZeros(k);
    Pow2Add(32 * k, s);
    assert Size(k) * (Val(a) * Pow2(s)) == Val(a) * Pow2(32 * k + s) by {
      Rearrange(Pow2(32 * k), Val(a), Pow2(s));
    }
  }

  lemma Rearrange(x: nat, y: nat, z: nat)
    ensures x * (y * z) == y * (x * z)
  {
  }

  lemma DigitsAreLimbs(a: seq<nat>, s: nat)
    requires IsLimbs(a) && s < 32
    ensures IsLimbs(LeftDigits(a, s, |a| + 1))
  {
    hide High, Low;
    forall j | 0 <= j <= |a|
      ensures LeftDigit(a, s, j) < BASE
    {
      if j < |a| {
        LeftOr(a, s, j);
      } else if j > 0 {
        LeftOr(a, s, j - 1);
      }
    }
  }

  // ----- shifting right

  /** What a limb shifted right by `s` bits hands down to the one below it. */
  function Upper(x: nat, s: nat): nat
    requires s < 32
  {
    if s == 0 then 0 else Shl(x, 32 - s) % BASE
  }

  ghost function RightDigit(a: seq<nat>, s: nat, j: nat): nat
    requires s < 32
  {
    if j >= |a| then 0 else Shr(a[j], s) + if j + 1 < |a| then Upper(a[j + 1], s) else 0
  }

  ghost function RightDigits(a: seq<nat>, s: nat): seq<nat>
    requires s < 32
  {
    seq(|a|, j requires 0 <= j < |a| => RightDigit(a, s, j))
  }

  lemma UpperLower(x: nat, s: nat)
    requires x < BASE && s < 32
    ensures Shr(x, s) < Pow2(32 - s) && x == Pow2(s) * Shr(x, s) + x % Pow2(s)
    ensures Upper(x, s) * Pow2(s) == BASE * (x % Pow2(s)) && Upper(x, s) % Pow2(32 - s) == 0
             && Upper(x, s) <= BASE - Pow2(32 - s)
  {
    Pow2Base();
    ShrValue(x, s);
    Pow2Add(s, 32 - s);
    if s > 0 {
      ShlValue(x, 32 - s);
    } else {
      ModUnique(x, 1, x, 0);
      ModUnique(0, BASE, 0, 0);
    }
    hide Pow2, Shr, Shl;
    LowerPart(x, Pow2(s), Pow2(32 - s), Shr(x, s));
  }

  lemma LowerPart(x: nat, c: nat, d: nat, q: nat)
    requires c > 0 && d > 0 && c * d == BASE && x < BASE && 0 <= x - c * q < c
    ensures x % c == x - c * q && q < d && (x * d) % BASE == (x % c) * d
    ensures ((x % c) * d) * c == BASE * (x % c) && ((x % c) * d) % d == 0 && (x % c) * d <= BASE - d
  {
    ModUnique(x, c, q, x - c * q);
    SmallQuotient(x, d, c, q);
    LowerProduct(x, c, d, q, x - c * q);
  }

  lemma LowerProduct(x: nat, c: nat, d: nat, q: nat, r: nat)
    requires c * d == BASE && x == c * q + r && r < c && d > 0
    ensures (x * d) % BASE == r * d && (r * d) * c == BASE * r && (r * d) % d == 0 && r * d <= BASE - d
  {
    Multiples(d, r + 1, c);
    Multiples(d, r, r);
    Regroup(x, c, d, q, r);
    ModUnique(x * d, BASE, q, r * d);
    ModUnique(r * d, d, r, 0);
  }

  lemma Regroup(x: nat, c: nat, d: nat, q: nat, r: nat)
    requires x == c * q + r
    ensures x * d == (c * d) * q + r * d && (r * d) * c == (c * d) * r
  {
  }

  lemma {:induction false} RightValue(a: seq<nat>, s: nat)
    requires IsLimbs(a) && s < 32
    ensures Val(RightDigits(a, s)) * Pow2(s) + (if a == [] then 0 else a[0] % Pow2(s)) == Val(a)
  {
    hide Upper, Pow2, Shr, Val, RightDigits;
    if a == [] {
      NoDigits(s);
    } else {
      var t := a[1..];
      RightHead(a, s);
      RightValue(t, s);
      UpperLower(a[0], s);
      if t != [] {
        UpperLower(t[0], s);
      }
      RightStep(Pow2(s), Shr(a[0], s), a[0], if t == [] then 0 else Upper(t[0], s),
                if t == [] then 0 else t[0] % Pow2(s), Val(RightDigits(t, s)), Val(t));
    }
  }

  lemma NoDigits(s: nat)
    requires s < 32
    ensures Val(RightDigits([], s)) == 0 && Val([]) == 0
  {
  }

  lemma {:induction false} RightHead(a: seq<nat>, s: nat)
    requires a != [] && s < 32
    ensures var t := a[1..];
            && Val(RightDigits(a, s))
               == Shr(a[0], s) + (if t == [] then 0 else Upper(t[0], s)) + BASE * Val(RightDigits(t, s))
            && Val(a) == a[0] + BASE * Val(t)
  {
    hide Upper, Pow2, Shr;
    var ds := RightDigits(a, s);
    assert ds[1..] == RightDigits(a[1..], s);
    assert Val(ds) == ds[0] + BASE * Val(ds[1..]);
  }

  lemma RightStep(c: nat, q: nat, x: nat, up: nat, low: nat, v: nat, w: nat)
    requires c > 0 && x == c * q + x % c && up * c == BASE * low && v * c + low == w
    ensures (q + up + BASE * v) * c + x % c == x + BASE * w
  {
    assert (q + up + BASE * v) * c == c * q + up * c + BASE * (v * c);
  }

  ghost function RightSoFar(a: seq<nat>, k: nat, s: nat, i: nat, j: nat): nat
    requires s < 32
  {
    if j + k + 1 < i then RightDigit(a, s, j + k)
    else if j + k < i && j + k < |a| then Shr(a[j + k], s)
    else 0
  }

  lemma RightOr(a: seq<nat>, s: nat, i: nat)
    requires IsLimbs(a) && s < 32 && i < |a|
    ensures Or(0, Shr(a[i], s)) == Shr(a[i], s) < BASE
    ensures i > 0 ==> Or(Shr(a[i - 1], s), Upper(a[i], s)) == RightDigit(a, s, i - 1) < BASE
  {
    Pow2Base();
    UpperLower(a[i], s);
    Pow2Mono(32 - s, 32);
    if i > 0 {
      UpperLower(a[i - 1], s);
      OrSwap(Shr(a[i - 1], s), Upper(a[i], s));
      OrDisjoint(Upper(a[i], s), Shr(a[i - 1], s), 32 - s);
    }
  }

  /** `pn >>= shift`: divide by 2^shift, rounding down. */
  method ShiftRight(pn: array<nat>, shift: nat)
    requires IsLimbs(pn[..])
    modifies pn
    ensures IsLimbs(pn[..]) && Val(pn[..]) == Val(old(pn[..])) / Pow2(shift)
  {
    hide Or, Shr, Upper, RightDigit, Val, Pow2;
    var a := pn[..];
    Clear(pn);
    var k, s := shift / 32, shift % 32;
    var i := 0;
    while i < pn.Length
      invariant 0 <= i <= pn.Length
      invariant forall j {:trigger pn[j]} :: 0 <= j < pn.Length ==> pn[j] == RightSoFar(a, k, s, i, j)
    {
      RightOr(a, s, i);
      LastAlone(a, s, i);
      if i - k - 1 >= 0 && s != 0 {
        pn[i - k - 1] := Or(pn[i - k - 1], Upper(a[i], s));
      }
      if i - k >= 0 {
        pn[i - k] := Or(pn[i - k], Shr(a[i], s));
      }
      i := i + 1;
    }
    RightTotal(a, k, s, pn[..]);
  }

  lemma LastAlone(a: seq<nat>, s: nat, i: nat)
    requires s < 32 && i < |a|
    ensures s == 0 && i > 0 ==> RightDigit(a, s, i - 1) == Shr(a[i - 1], s)
  {
  }

  lemma RightTotal(a: seq<nat>, k: nat, s: nat, r: seq<nat>)
    requires IsLimbs(a) && s < 32 && |r| == |a| && forall j :: 0 <= j < |a| ==> r[j] == RightSoFar(a, k, s, |a|, j)
    ensures IsLimbs(r) && Val(r) == Val(a) / Pow2(32 * k + s)
  {
    if k <= |a| {
      hide Val, Pow2, RightDigits, RightSoFar;
      LastDigit(a, k, s, r);
      RightDigitsLimbs(a, s);
      DropDigits(RightDigits(a, s), k);
      ValBound(RightDigits(a, s)[..k]);
      RightQuotient(a, k, s, Val(RightDigits(a, s)[k..]), Val(RightDigits(a, s)[..k]));
    } else {
      ValAllZero(r);
      hide Val, RightDigits, RightSoFar;
      RightDigitsLimbs(a, s);
      ValBound(RightDigits(a, s));
      Pow2Mono(32 * |a|, 32 * k);
      RightQuotient(a, k, s, 0, Val(RightDigits(a, s)));
    }
  }

  lemma {:induction false} DropDigits(ds: seq<nat>, k: nat)
    requires IsLimbs(ds) && k <= |ds|
    ensures IsLimbs(ds[..k]) && IsLimbs(ds[k..] + seq(k, _ => 0)) && Val(ds[k..] + seq(k, _ => 0)) == Val(ds[k..])
    ensures Val(ds) == Val(ds[..k]) + Size(k) * Val(ds[k..])
  {
    hide Val, Pow2;
    ValConcat(ds[k..], seq(k, _ => 0));
    ValZeros(k);
    assert ds == ds[..k] + ds[k..];
    ValConcat(ds[..k], ds[k..]);
  }

  lemma {:induction false} RightQuotient(a: seq<nat>, k: nat, s: nat, q: nat, rest: nat)
    requires IsLimbs(a) && s < 32 && Val(RightDigits(a, s)) == rest + Size(k) * q && rest < Size(k)
    ensures q == Val(a) / Pow2(32 * k + s)
  {
    hide Val, RightDigits;
    RightValue(a, s);
    Pow2Add(32 * k, s);
    var low := if a == [] then 0 else a[0] % Pow2(s);
    QuotientOfQuotient(Val(a), Val(RightDigits(a, s)), q, Size(k), Pow2(s), low, rest);
  }

  lemma LastDigit(a: seq<nat>, k: nat, s: nat, r: seq<nat>)
    requires s < 32 && k <= |a| == |r| && forall j :: 0 <= j < |a| ==> r[j] == RightSoFar(a, k, s, |a|, j)
    ensures r == RightDigits(a, s)[k..] + seq(k, _ => 0)
  {
    var ds := RightDigits(a, s);
    forall j | 0 <= j < |a|
      ensures r[j] == (ds[k..] + seq(k, _ => 0))[j]
    {
    }
  }

  lemma RightDigitsLimbs(a: seq<nat>, s: nat)
    requires IsLimbs(a) && s < 32
    ensures IsLimbs(RightDigits(a, s))
  {
    hide Shr, Upper;
    forall j | 0 <= j < |a|
      ensures RightDigit(a, s, j) < BASE
    {
      if j + 1 < |a| {
        RightOr(a, s, j + 1);
      } else {
        RightOr(a, s, j);
      }
    }
  }

  lemma QuotientOfQuotient(v: nat, d: nat, q: nat, size: nat, c: nat, low: nat, rest: nat)
    requires c > 0 && size > 0 && v == d * c + low && low < c && d == rest + size * q && rest < size
    ensures v / (size * c) == q
  {
    assert v == (rest * c + low) + (size * c) * q by { assert (rest + size * q) * c == rest * c + (size * c) * q; }
    assert rest * c + low < size * c by { Multiples(c, rest + 1, size); Multiples(c, rest, rest); }
    ModUnique(v, size * c, q, rest * c + low);
  }
}
