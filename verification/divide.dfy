// Long division of base_uint by shifting and subtracting (src/arith_uint256.cpp).
module LimbDivision {
  import opened DivMod
  import opened Powers
  import opened Limbs
  import opened LimbArithmetic
  import opened LimbShifts

  /** The bits of `q` below position `n` are clear. */
  ghost predicate ClearBelow(q: seq<nat>, n: nat) {
    && (forall i :: 0 <= i < |q| && i < n / 32 ==> q[i] == 0)
    && (n / 32 < |q| ==> q[n / 32] % Pow2(n % 32) == 0)
  }

  /** The state of the loop: what is left of the dividend, and the quotient bits from `n` up. */
  ghost predicate Dividing(num0: nat, b: nat, q: nat, num: nat, n: nat) {
    num0 == q * b + num && num < b * Pow2(n)
  }

  lemma {:induction false} ClearLimb(q: seq<nat>, n: nat)
    requires IsLimbs(q) && n < 32 * |q| && ClearBelow(q, n + 1)
    ensures q[n / 32] % Pow2(n % 32 + 1) == 0
  {
    if (n + 1) % 32 == 0 {
      assert n / 32 < (n + 1) / 32;
      ModUnique(0, Pow2(n % 32 + 1), 0, 0);
    } else {
      assert n / 32 == (n + 1) / 32 && (n + 1) % 32 == n % 32 + 1;
    }
  }

  lemma HalfStep(p: nat, x: nat)
    requires p > 0 && x % (2 * p) == 0 && x < BASE && BASE % (2 * p) == 0
    ensures x + p < BASE && (x + p) % p == 0 && x % p == 0
  {
    var k, m := x / (2 * p), BASE / (2 * p);
    assert x == (2 * p) * k && BASE == (2 * p) * m;
    assert x + 2 * p <= BASE by {
      Multiples(2 * p, k, k);
      if k >= m {
        Multiples(2 * p, m, k);
      } else {
        Multiples(2 * p, k + 1, m);
      }
    }
    assert x == p * (2 * k) by { assert (2 * p) * k == p * (2 * k); }
    Multiples(p, 2 * k, 2 * k);
    ModUnique(x + p, p, 2 * k + 1, 0);
    ModUnique(x, p, 2 * k, 0);
  }

  lemma {:induction false} BaseMultiple(n: nat)
    requires n <= 32
    ensures BASE % Pow2(n) == 0
  {
    Pow2Base();
    Pow2Add(n, 32 - n);
    ModUnique(BASE, Pow2(n), Pow2(32 - n), 0);
  }

  /** The limb with bit `n` set. */
  lemma {:induction false} BitLimb(q: seq<nat>, n: nat)
    requires IsLimbs(q) && n < 32 * |q| && ClearBelow(q, n + 1)
    ensures var x := Or(q[n / 32], Shl(1, n % 32));
            x == q[n / 32] + Pow2(n % 32) && x < BASE && x % Pow2(n % 32) == 0
  {
    var i, r := n / 32, n % 32;
    assert Pow2(r + 1) == 2 * Pow2(r);
    ClearLimb(q, n);
    hide ClearBelow, Pow2, Or, Shl;
    ShlValue(1, r);
    OrDisjoint(q[i], Pow2(r), r + 1);
    BaseMultiple(r + 1);
    HalfStep(Pow2(r), q[i]);
  }

  /** Setting bit `n` of the quotient. */
  lemma {:induction false} BitAdded(q: seq<nat>, n: nat, q': seq<nat>)
    requires IsLimbs(q) && n < 32 * |q| && ClearBelow(q, n + 1)
    requires q' == q[n / 32 := Or(q[n / 32], Shl(1, n % 32))]
    ensures IsLimbs(q') && ClearBelow(q', n) && Val(q') == Val(q) + Pow2(n)
  {
    hide Pow2, Or, Shl, Val;
    BitLimb(q, n);
    UpdateLimb(q, n / 32, q'[n / 32]);
    Pow2Add(32 * (n / 32), n % 32);
  }

  lemma {:induction false} UpdateLimb(q: seq<nat>, i: nat, x: nat)
    requires i < |q|
    ensures Val(q[i := x]) == Val(q) + Size(i) * (x - q[i])
  {
    hide Val, Size;
    var q' := q[i := x];
    ValSnoc(q, i);
    ValSnoc(q', i);
    assert q'[..i] == q[..i] && q'[i + 1..] == q[i + 1..];
    assert q == q[..i + 1] + q[i + 1..] && q' == q'[..i + 1] + q'[i + 1..];
    ValConcat(q[..i + 1], q[i + 1..]);
    ValConcat(q'[..i + 1], q'[i + 1..]);
    assert Size(i) * x - Size(i) * q[i] == Size(i) * (x - q[i]);
  }

  lemma {:induction false} NoBitAdded(q: seq<nat>, n: nat)
    requires IsLimbs(q) && n < 32 * |q| && ClearBelow(q, n + 1)
    ensures ClearBelow(q, n)
  {
    ClearLimb(q, n);
    var r := n % 32;
    BaseMultiple(r + 1);
    HalfStep(Pow2(r), q[n / 32]);
  }

  lemma {:induction false} Stepped(num0: nat, b: nat, q: nat, num: nat, n: nat)
    requires Dividing(num0, b, q, num, n + 1)
    ensures num >= b * Pow2(n) ==> Dividing(num0, b, q + Pow2(n), num - b * Pow2(n), n)
    ensures num < b * Pow2(n) ==> Dividing(num0, b, q, num, n)
  {
    assert b * Pow2(n + 1) == 2 * (b * Pow2(n)) by { assert b * (2 * Pow2(n)) == 2 * (b * Pow2(n)); }
    assert (q + Pow2(n)) * b == q * b + b * Pow2(n);
  }

  /** Aligned so that the divisor starts just at or above the dividend's top. */
  lemma {:induction false} Aligned(num: nat, b: nat, numBits: nat, divBits: nat, width: nat)
    requires 0 < divBits <= numBits <= width && num < Pow2(numBits) && Pow2(divBits - 1) <= b < Pow2(divBits)
    ensures b * Pow2(numBits - divBits) < Pow2(width) && Dividing(num, b, 0, num, numBits - divBits + 1)
  {
    hide Pow2;
    var shift := numBits - divBits;
    Pow2Add(divBits, shift);
    Pow2Add(divBits - 1, shift + 1);
    Pow2Mono(numBits, width);
    Multiples(Pow2(shift), b + 1, Pow2(divBits));
    Multiples(Pow2(shift), b, b);
    Multiples(Pow2(shift + 1), Pow2(divBits - 1), b);
  }

  /** `pn /= b`: the exact quotient, rounded down; or an error for division by zero. */
  method Divide(pn: array<nat>, b: seq<nat>) returns (divisionByZero: bool)
    requires IsLimbs(pn[..]) && IsLimbs(b) && |b| == pn.Length
    modifies pn
    ensures divisionByZero <==> Val(b) == 0
    ensures IsLimbs(pn[..]) && (Val(b) != 0 ==> Val(pn[..]) == Val(old(pn[..])) / Val(b))
  {
    hide Val, Pow2, Dividing;
    ghost var num0 := Val(pn[..]);
    var div, num := new nat[|b|], new nat[|b|];
    Copy(div, b);
    Copy(num, pn[..]);
    Clear(pn);
    ValAllZero(pn[..]);
    var numBits := Bits(num[..]);
    var divBits := Bits(div[..]);
    if divBits == 0 {
      return true;
    }
    divisionByZero := false;
    if divBits > numBits {
      QuotientZero(num0, Val(b), numBits, divBits);
      return;
    }
    Aligned(num0, Val(b), numBits, divBits, 32 * |b|);
    var shift := numBits - divBits;
    ShiftLeft(div, shift);
    ModUnique(Val(b) * Pow2(shift), Size(|b|), 0, Val(b) * Pow2(shift));
    DivideLoop(pn, b, num, div, shift, num0);
  }

  lemma QuotientZero(num: nat, b: nat, numBits: nat, divBits: nat)
    requires numBits < divBits && (numBits == 0 ==> num == 0) && (numBits > 0 ==>
                num < Pow2(numBits)) && Pow2(divBits - 1) <= b
    ensures num / b == 0
  {
    Pow2Mono(numBits, divBits - 1);
    ModUnique(num, b, 0, num);
  }

  method Copy(to: array<nat>, from: seq<nat>)
    requires to.Length == |from|
    modifies to
    ensures to[..] == from
  {
    for i := 0 to |from|
      invariant forall j :: 0 <= j < i ==> to[j] == from[j]
    {
      to[i] := from[i];
    }
  }

  method DivideLoop(pn: array<nat>, b: seq<nat>, num: array<nat>, div: array<nat>, shift0: nat, ghost num0: nat)
    requires |b| == pn.Length == num.Length == div.Length && IsLimbs(b) && Val(b) > 0
    requires pn != num && pn != div && num != div && shift0 < 32 * |b|
    requires IsLimbs(num[..]) && IsLimbs(div[..]) && (forall j :: 0 <= j < pn.Length ==> pn[j] == 0)
    requires Dividing(num0, Val(b), 0, Val(num[..]), shift0 + 1) && Val(div[..]) == Val(b) * Pow2(shift0)
    modifies pn, num, div
    ensures IsLimbs(pn[..]) && Val(pn[..]) == num0 / Val(b)
  {
    var shift: int := shift0;
    ValAllZero(pn[..]);
    ClearAtFirst(pn[..], shift0 + 1);
    while shift >= 0
      invariant -1 <= shift <= shift0 && IsLimbs(pn[..]) && IsLimbs(num[..]) && IsLimbs(div[..])
      invariant ClearBelow(pn[..], shift + 1) && Dividing(num0, Val(b), Val(pn[..]), Val(num[..]), shift + 1)
      invariant shift >= 0 ==> Val(div[..]) == Val(b) * Pow2(shift)
      decreases shift
    {
      hide Val, ClearBelow, Dividing, Pow2;
      Reduce(pn, b, num, div, shift, num0);
      ShiftRight(div, 1);
      Halved(Val(b), shift);
      shift := shift - 1;
    }
    QuotientFound(num0, Val(b), Val(pn[..]), Val(num[..]));
  }

  /** Subtract the divisor if it fits, and set the quotient bit. */
  method Reduce(pn: array<nat>, b: seq<nat>, num: array<nat>, div: array<nat>, shift: nat, ghost num0: nat)
    requires |b| == pn.Length == num.Length == div.Length && pn != num && pn != div && num != div && shift < 32 * |b|
    requires IsLimbs(pn[..]) && IsLimbs(num[..]) && IsLimbs(div[..])
    requires ClearBelow(pn[..], shift + 1) && Dividing(num0, Val(b), Val(pn[..]), Val(num[..]), shift + 1)
    requires Val(div[..]) == Val(b) * Pow2(shift)
    modifies pn, num
    ensures IsLimbs(pn[..]) && IsLimbs(num[..])
    ensures ClearBelow(pn[..], shift) && Dividing(num0, Val(b), Val(pn[..]), Val(num[..]), shift)
  {
    hide Val, ClearBelow, Dividing, Pow2, Or, Shl;
    ghost var q := pn[..];
    Stepped(num0, Val(b), Val(pn[..]), Val(num[..]), shift);
    var c := CompareTo(num[..], div[..]);
    if c >= 0 {
      Subtract(num, div[..]);
      ghost var q' := q[shift / 32 := Or(q[shift / 32], Shl(1, shift % 32))];
      BitAdded(q, shift, q');
      pn[shift / 32] := Or(pn[shift / 32], Shl(1, shift % 32));
      assert pn[..] == q';
    } else {
      NoBitAdded(pn[..], shift);
    }
  }

  lemma {:induction false} ClearAtFirst(q: seq<nat>, n: nat)
    requires forall j :: 0 <= j < |q| ==> q[j] == 0
    ensures ClearBelow(q, n)
  {
    ModUnique(0, Pow2(n % 32), 0, 0);
  }

  lemma Halved(b: nat, shift: nat)
    ensures shift > 0 ==> (b * Pow2(shift)) / Pow2(1) == b * Pow2(shift - 1)
  {
    if shift > 0 {
      assert Pow2(1) == 2 * Pow2(0) == 2;
      assert b * (2 * Pow2(shift - 1)) == 2 * (b * Pow2(shift - 1));
      ModUnique(b * Pow2(shift), 2, b * Pow2(shift - 1), 0);
    }
  }

  lemma QuotientFound(num0: nat, b: nat, q: nat, num: nat)
    requires Dividing(num0, b, q, num, 0)
    ensures q == num0 / b
  {
    ModUnique(num0, b, q, num);
  }
}
