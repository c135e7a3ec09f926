// The compact representation of difficulty targets (src/arith_uint256.cpp), as functions of numbers.
module CompactFormat {
  import opened DivMod
  import opened Powers
  import opened Limbs

  const MANTISSA: nat := 0x80_0000
  const EXPONENT: nat := 0x100_0000

  ghost function Pow256(n: nat): (p: nat)
    ensures p > 0
  {
    Pow2(8 * n)
  }

  lemma Pow256Step(n: nat)
    ensures Pow256(n + 1) == 256 * Pow256(n) && Pow256(0) == 1
  {
    Pow2Base();
    Pow2Add(8, 8 * n);
  }

  lemma Pow256Add(a: nat, b: nat)
    ensures Pow256(a + b) == Pow256(a) * Pow256(b)
  {
    Pow2Add(8 * a, 8 * b);
  }

  lemma Pow256Small()
    ensures Pow256(1) == 256 && Pow256(2) == 0x1_0000 && Pow256(3) == 0x100_0000 && Pow256(0) == 1
  {
    Pow2Base();
  }

  /** The exponent, sign bit and mantissa of a compact number. */
  function SizeOf(n: nat): nat { n / EXPONENT }
  predicate SignOf(n: nat) { (n / MANTISSA) % 2 == 1 }
  function WordOf(n: nat): nat { n % MANTISSA }

  /** The number that a compact encoding denotes, without its sign and of any size. */
  ghost function Magnitude(n: nat): nat {
    var size, word := SizeOf(n), WordOf(n);
    if size <= 3 then Quot(word, Pow256(3 - size)) else word * Pow256(size - 3)
  }

  /** The number of bytes of a number. */
  ghost function ByteLen(v: nat): nat { if v == 0 then 0 else 1 + ByteLen(v / 256) }

  lemma {:induction false} ByteLenBounds(v: nat)
    requires v > 0
    ensures ByteLen(v) > 0 && Pow256(ByteLen(v) - 1) <= v < Pow256(ByteLen(v))
  {
    hide Pow256;
    var q := v / 256;
    Pow256Step(0);
    if q == 0 {
      assert ByteLen(v) == 1;
    } else {
      assert ByteLen(v) == 1 + ByteLen(q);
      ByteLenBounds(q);
      hide ByteLen;
      var l := ByteLen(q);
      Pow256Step(l - 1);
      Pow256Step(l);
      ByteMore(v, q, Pow256(l - 1), Pow256(l));
    }
  }

  lemma ByteMore(v: nat, q: nat, lo: nat, hi: nat)
    requires q == v / 256 && lo <= q < hi
    ensures 256 * lo <= v < 256 * hi
  {
  }

  /** Only one length fits a number. */
  lemma ByteLenIs(v: nat, n: nat)
    requires n > 0 && Pow256(n - 1) <= v < Pow256(n)
    ensures ByteLen(v) == n
  {
    ByteLenBounds(v);
    var l := ByteLen(v);
    if l < n {
      Pow2Mono(8 * l, 8 * (n - 1));
    } else if l > n {
      Pow2Mono(8 * n, 8 * (l - 1));
    }
  }

  /** The top three bytes of `v`, and what `v` would denote with a mantissa of them. */
  ghost function TopBytes(v: nat): nat {
    var s := ByteLen(v);
    if s <= 3 then v * Pow256(3 - s) else Quot(v, Pow256(s - 3))
  }

  /** The compact encoding of a number: its top bytes, moved up by one when they would touch the sign bit. */
  ghost function Compact(v: nat): nat {
    var s, m := ByteLen(v), TopBytes(v);
    if m >= MANTISSA then (s + 1) * EXPONENT + m / 256 else s * EXPONENT + m
  }

  lemma TopBytesBounds(v: nat)
    requires v > 0
    ensures 0x1_0000 <= TopBytes(v) < 0x100_0000
  {
    hide Pow256, Pow2;
    Pow256Small();
    ByteLenBounds(v);
    var s := ByteLen(v);
    if s <= 3 {
      Pow256Add(s, 3 - s);
      Pow256Add(s - 1, 3 - s);
      Multiples(Pow256(3 - s), Pow256(s - 1), v);
      Multiples(Pow256(3 - s), v + 1, Pow256(s));
      Multiples(Pow256(3 - s), v, v);
    } else {
      Pow256Add(s - 3, 3);
      Pow256Add(s - 3, 2);
      DivBounds(v, Pow256(s - 3), 0x1_0000, 0x100_0000);
    }
  }

  lemma DivBounds(v: nat, p: nat, lo: nat, hi: nat)
    requires p > 0 && p * lo <= v < p * hi
    ensures lo <= v / p < hi
  {
    var q := v / p;
    assert v == p * q + v % p;
    if q < lo {
      Multiples(p, q + 1, lo);
      Multiples(p, q, q);
    } else if q >= hi {
      Multiples(p, hi, q);
    }
  }

  /** Putting an encoding together and taking it apart. */
  lemma Fields(e: nat, w: nat)
    requires w < MANTISSA
    ensures var n := e * EXPONENT + w; SizeOf(n) == e && WordOf(n) == w && !SignOf(n)
  {
    var n := e * EXPONENT + w;
    ModUnique(n, EXPONENT, e, w);
    ModUnique(n, MANTISSA, 2 * e, w);
    assert n == w + MANTISSA * (2 * e);
    assert (2 * e) % 2 == 0;
  }

  /** The exponent and mantissa chosen for a number, and what they denote. */
  ghost predicate Chosen(v: nat, e: nat, w: nat) {
    && 0x8000 <= w < MANTISSA
    && (e <= 3 ==> Quot(w, Pow256(3 - e)) == v)
    && (e > 3 ==> w == Quot(v, Pow256(e - 3)))
  }

  lemma PartsHigh(v: nat)
    requires v > 0 && TopBytes(v) >= MANTISSA
    ensures Chosen(v, ByteLen(v) + 1, TopBytes(v) / 256)
  {
    hide Pow256, Pow2, ByteLen;
    TopBytesBounds(v);
    var s := ByteLen(v);
    if s >= 3 {
      Pow256Small();
      Pow256Step(s - 3);
      DivTwice(v, Pow256(s - 3), 256);
    } else {
      Pow256Step(2 - s);
      ScaledBack(v, Pow256(2 - s));
    }
  }

  lemma PartsLow(v: nat)
    requires v > 0 && TopBytes(v) < MANTISSA
    ensures Chosen(v, ByteLen(v), TopBytes(v))
  {
    hide Pow256, Pow2, ByteLen;
    TopBytesBounds(v);
    var s := ByteLen(v);
    if s <= 3 {
      ModUnique(v * Pow256(3 - s), Pow256(3 - s), v, 0);
    }
  }

  lemma CompactChosen(v: nat)
    requires v > 0
    ensures var n := Compact(v); Chosen(v, SizeOf(n), WordOf(n)) && !SignOf(n) && n == SizeOf(n) * EXPONENT + WordOf(n)
    ensures SizeOf(Compact(v)) == if TopBytes(v) >= MANTISSA then ByteLen(v) + 1 else ByteLen(v)
    ensures WordOf(Compact(v)) == if TopBytes(v) >= MANTISSA then TopBytes(v) / 256 else TopBytes(v)
  {
    hide Pow256, Pow2, TopBytes, ByteLen, Chosen, SizeOf, WordOf, SignOf;
    TopBytesBounds(v);
    if TopBytes(v) >= MANTISSA {
      Fields(ByteLen(v) + 1, TopBytes(v) / 256);
      PartsHigh(v);
    } else {
      Fields(ByteLen(v), TopBytes(v));
      PartsLow(v);
    }
  }

  lemma DivTwice(v: nat, p: nat, d: nat)
    requires p > 0 && d > 0
    ensures p * d > 0 && (v / p) / d == v / (p * d)
  {
    Multiples(p, 1, d);
    var q, r := v / p, v % p;
    var q2, r2 := q / d, q % d;
    assert v == p * q + r && q == d * q2 + r2;
    assert v == (p * r2 + r) + (p * d) * q2 by { assert p * (d * q2 + r2) == (p * d) * q2 + p * r2; }
    Multiples(p, r2 + 1, d);
    Multiples(p, r2, r2);
    ModUnique(v, p * d, q2, p * r2 + r);
  }

  lemma ScaledBack(v: nat, p: nat)
    requires p > 0
    ensures (v * (256 * p)) / 256 == v * p && (v * p) / p == v
  {
    assert v * (256 * p) == 256 * (v * p);
    ModUnique(v * (256 * p), 256, v * p, 0);
    ModUnique(v * p, p, v, 0);
  }

  /** Decoding the encoding never exceeds the number ... */
  lemma DecodesBelow(v: nat)
    ensures Magnitude(Compact(v)) <= v
  {
    hide Pow256, Pow2;
    if v == 0 {
      ZeroCompact();
    } else {
      CompactChosen(v);
      var e, w := SizeOf(Compact(v)), WordOf(Compact(v));
      if e > 3 {
        assert v == Pow256(e - 3) * (v / Pow256(e - 3)) + v % Pow256(e - 3);
      }
    }
  }

  lemma ZeroCompact()
    ensures Compact(0) == 0 && Magnitude(0) == 0
  {
    Pow256Small();
  }

  /** ... and no encoding denotes anything between the two. */
  lemma LargestBelow(v: nat, n: nat)
    requires Magnitude(n) <= v
    ensures Magnitude(n) <= Magnitude(Compact(v))
  {
    hide Pow256, Pow2;
    if v == 0 {
      ZeroCompact();
    } else {
      CompactChosen(v);
      var e, w := SizeOf(Compact(v)), WordOf(Compact(v));
      if e > 3 {
        LargestAbove(v, e, w, n);
      }
    }
  }

  lemma LargestAbove(v: nat, e: nat, w: nat, n: nat)
    requires e > 3 && Chosen(v, e, w) && Magnitude(n) <= v
    ensures Magnitude(n) <= w * Pow256(e - 3)
  {
    hide Pow256, Pow2;
    var e', w', p := SizeOf(n), WordOf(n), Pow256(e - 3);
    if e' >= e {
      Pow256Add(e - 3, e' - e);
      var k := w' * Pow256(e' - e);
      assert Magnitude(n) == p * k by { assert w' * (p * Pow256(e' - e)) == p * k; }
      MultipleBelow(v, p, k);
    } else {
      Pow256Step(e - 4);
      var q := Pow256(e - 4);
      assert Magnitude(n) <= w' * q by { BelowScale(n, e - 4); }
      Multiples(q, w', MANTISSA);
      Multiples(p, 0x8000, w);
    }
  }

  lemma MultipleBelow(v: nat, p: nat, k: nat)
    requires p > 0 && p * k <= v
    ensures p * k <= (v / p) * p
  {
    var q := v / p;
    assert v == p * q + v % p;
    if k > q {
      Multiples(p, q + 1, k);
      Multiples(p, q, q);
    }
    Multiples(p, k, q);
  }

  lemma BelowScale(n: nat, k: nat)
    requires SizeOf(n) <= k + 3
    ensures Magnitude(n) <= WordOf(n) * Pow256(k)
  {
    hide Pow2;
    var e, w := SizeOf(n), WordOf(n);
    Pow2Mono(0, 8 * k);
    if e <= 3 {
      assert w / Pow256(3 - e) <= w by { DivLess(w, Pow256(3 - e)); }
      Multiples(w, 1, Pow256(k));
    } else {
      Pow2Mono(8 * (e - 3), 8 * k);
      Multiples(w, Pow256(e - 3), Pow256(k));
    }
  }

  /** Encoding what an encoding denotes gives the same encoding. */
  lemma CompactStable(v: nat)
    ensures Compact(Magnitude(Compact(v))) == Compact(v)
  {
    hide Pow256, Pow2;
    if v == 0 {
      ZeroCompact();
    } else {
      var n := Compact(v);
      CompactChosen(v);
      var e, w := SizeOf(n), WordOf(n);
      if e > 3 {
        StableAbove(v, e, w);
      }
    }
  }

  lemma StableAbove(v: nat, e: nat, w: nat)
    requires v > 0 && e == SizeOf(Compact(v)) && w == WordOf(Compact(v)) && e > 3
    ensures Compact(w * Pow256(e - 3)) == Compact(v)
  {
    hide Pow256, Pow2, TopBytes, ByteLen, Chosen, SizeOf, WordOf, SignOf;
    CompactChosen(v);
    TopBytesBounds(v);
    if TopBytes(v) >= MANTISSA {
      StableHigh(TopBytes(v) / 256, ByteLen(v));
    } else {
      StableLow(TopBytes(v), ByteLen(v));
    }
  }

  lemma StableHigh(w: nat, s: nat)
    requires s >= 3 && 0x8000 <= w < 0x1_0000
    ensures var d := w * Pow256(s - 2); ByteLen(d) == s && TopBytes(d) == 256 * w
  {
    hide Pow256, Pow2, ByteLen;
    var p, d := Pow256(s - 2), w * Pow256(s - 2);
    Pow256Small();
    Pow256Add(s - 2, 1);
    Pow256Add(s - 2, 2);
    Pow256Step(s - 3);
    Multiples(p, 256, w);
    Multiples(p, w + 1, 0x1_0000);
    Multiples(p, w, w);
    ByteLenIs(d, s);
    assert d == (256 * w) * Pow256(s - 3);
    ModUnique(d, Pow256(s - 3), 256 * w, 0);
  }

  lemma StableLow(w: nat, s: nat)
    requires s > 3 && 0x1_0000 <= w < 0x100_0000
    ensures var d := w * Pow256(s - 3); ByteLen(d) == s && TopBytes(d) == w
  {
    hide Pow256, Pow2, ByteLen;
    var p, d := Pow256(s - 3), w * Pow256(s - 3);
    Pow256Small();
    Pow256Add(s - 3, 2);
    Pow256Add(s - 3, 3);
    Multiples(p, 0x1_0000, w);
    Multiples(p, w + 1, 0x100_0000);
    Multiples(p, w, w);
    ByteLenIs(d, s);
    ModUnique(d, p, w, 0);
  }
}
