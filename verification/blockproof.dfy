// SetCompact and GetCompact of arith_uint256 (src/arith_uint256.cpp) and GetBlockProof (src/chain.cpp).
module BlockProofs {
  import opened DivMod
  import opened Powers
  import opened Limbs
  import opened LimbArithmetic
  import opened LimbShifts
  import opened LimbDivision
  import opened CompactFormat

  const WIDTH: nat := 8

  /** `*this = b` for a number that fits one limb. */
  method Assign(pn: array<nat>, b: nat)
    requires pn.Length == WIDTH && b < BASE
    modifies pn
    ensures IsLimbs(pn[..]) && Val(pn[..]) == b
  {
    pn[0] := b;
    for i := 1 to WIDTH
      invariant pn[0] == b && forall j :: 1 <= j < i ==> pn[j] == 0
    {
      pn[i] := 0;
    }
    ValAllZero(pn[..][1..]);
  }

  /** The flag of SetCompact, in terms of exponent and mantissa. */
  predicate TooLarge(size: nat, word: nat) {
    word != 0 && (size > 34 || (word > 0xff && size > 33) || (word > 0xffff && size > 32))
  }

  /** It is set exactly when the number needs more than 256 bits. */
  lemma TooLargeIff(n: nat)
    ensures TooLarge(SizeOf(n), WordOf(n)) <==> Magnitude(n) >= Pow2(256)
  {
    var size, word := SizeOf(n), WordOf(n);
    assert word < MANTISSA;
    hide SizeOf, WordOf, Pow2, Pow256;
    if size <= 32 {
      Pow256Small();
      BelowScale(n, 29);
      Pow256Add(29, 3);
      Multiples(Pow256(29), word + 1, Pow256(3));
      Multiples(Pow256(29), word, word);
      Whole();
    } else {
      ScaledTooLarge(size, word);
    }
  }

  lemma Whole()
    ensures Pow256(32) == Pow2(256) == Size(8)
  {
  }

  lemma ScaledTooLarge(size: nat, word: nat)
    requires size > 32 && word < MANTISSA
    ensures TooLarge(size, word) <==> word * Pow256(size - 3) >= Pow2(256)
  {
    Whole();
    Pow256Small();
    hide Pow2, Pow256;
    if size <= 35 {
      // word * 256^(size - 3) against 256^(35 - size) * 256^(size - 3)
      var p, t := Pow256(size - 3), Pow256(35 - size);
      Pow256Add(size - 3, 35 - size);
      if word >= t {
        Multiples(p, t, word);
      } else {
        Multiples(p, word + 1, t);
        Multiples(p, word, word);
      }
    } else {
      Pow256Add(32, size - 35);
      var p, r := Pow256(32), Pow256(size - 35);
      assert word * (p * r) == p * (word * r);
      if word > 0 {
        Multiples(word, 1, r);
        Multiples(p, 1, word * r);
      }
    }
  }

  /** Decode a compact number: its value modulo 2^256, its sign, and whether it needs more bits. */
  method SetCompact(pn: array<nat>, nCompact: nat) returns (negative: bool, overflow: bool)
    requires pn.Length == WIDTH && nCompact < BASE
    modifies pn
    ensures IsLimbs(pn[..]) && Val(pn[..]) == Magnitude(nCompact) % Pow2(256)
    ensures negative <==> Magnitude(nCompact) != 0 && SignOf(nCompact)
    ensures overflow <==> Magnitude(nCompact) >= Pow2(256)
  {
    hide Val, Pow2, Pow256;
    var size := SizeOf(nCompact);
    var word := WordOf(nCompact);
    TooLargeIff(nCompact);
    Whole();
    if size <= 3 {
      ShrValue(word, 8 * (3 - size));
      Shifted(word, 3 - size);
      word := Shr(word, 8 * (3 - size));
      Assign(pn, word);
      SmallFits(Magnitude(nCompact));
    } else {
      Assign(pn, word);
      ShiftLeft(pn, 8 * (size - 3));
      Shifted(word, size - 3);
    }
    negative := word != 0 && SignOf(nCompact);
    overflow := TooLarge(size, word);
  }

  lemma Shifted(word: nat, k: nat)
    ensures Pow256(k) == Pow2(8 * k) && (word * Pow256(k) == 0 <==> word == 0)
    ensures Quot(word, Pow256(k)) <= word
  {
    DivLess(word, Pow256(k));
    if word > 0 {
      Multiples(word, 1, Pow256(k));
    }
  }

  lemma SmallFits(x: nat)
    requires x < BASE
    ensures x % Pow2(256) == x && x < Pow2(256)
  {
    Pow2Base();
    Pow2Mono(32, 256);
    ModUnique(x, Pow2(256), 0, x);
  }

  // ----- encoding

  /** The byte length from the bit length. */
  lemma BytesFromBits(v: nat, bits: nat)
    requires v == 0 ==> bits == 0
    requires v > 0 ==> bits > 0 && Pow2(bits - 1) <= v < Pow2(bits)
    ensures (bits + 7) / 8 == ByteLen(v)
  {
    if v > 0 {
      var n := (bits + 7) / 8;
      Pow2Mono(8 * (n - 1), bits - 1);
      Pow2Mono(bits, 8 * n);
      ByteLenIs(v, n);
    }
  }

  /** Encode a number, optionally with a sign. */
  method GetCompact(a: seq<nat>, fNegative: bool) returns (nCompact: nat)
    requires |a| == WIDTH && IsLimbs(a)
    ensures nCompact < BASE
    ensures nCompact == Compact(Val(a)) + if fNegative && WordOf(Compact(Val(a))) != 0 then MANTISSA else 0
  {
    hide Val, Pow2, Pow256;
    ghost var v := Val(a);
    ValBound(a);
    Whole();
    var bits := Bits(a);
    BytesFromBits(v, bits);
    var nSize := (bits + 7) / 8;
    ByteLenAtMost(v);
    var mantissa;
    if nSize <= 3 {
      OneLimb(a, nSize);
      mantissa := Shl(a[0], 8 * (3 - nSize));
      ShlValue(a[0], 8 * (3 - nSize));
      Shifted(v, 3 - nSize);
    } else {
      var bn := new nat[WIDTH];
      Copy(bn, a);
      ShiftRight(bn, 8 * (nSize - 3));
      Shifted(v, nSize - 3);
      TopFits(v);
      OneLimb(bn[..], 3);
      mantissa := bn[0];
    }
    assert mantissa == TopBytes(v);
    TopFits(v);
    if BitSet(mantissa, 23) {
      SignBit(mantissa);
      mantissa := mantissa / 256;
      nSize := nSize + 1;
    } else {
      SignBit(mantissa);
    }
    assert mantissa < MANTISSA && nSize < 256;
    nCompact := nSize * EXPONENT + mantissa;
    Fields(nSize, mantissa);
    nCompact := nCompact + if fNegative && mantissa != 0 then MANTISSA else 0;
  }

  lemma SignBit(m: nat)
    requires m < 0x100_0000
    ensures BitSet(m, 23) <==> m >= MANTISSA
  {
    Pow2Base();
    Pow2Add(16, 7);
    Pow2Add(23, 1);
    assert Pow2(7) == 128 && Pow2(1) == 2;
    hide Pow2;
    HighBit(m, 23);
  }

  lemma TopFits(v: nat)
    ensures TopBytes(v) < 0x100_0000
  {
    if v > 0 {
      TopBytesBounds(v);
    }
  }

  lemma ByteLenAtMost(v: nat)
    requires v < Pow256(32)
    ensures ByteLen(v) <= 32
  {
    if v > 0 && ByteLen(v) > 32 {
      ByteLenBounds(v);
      Pow2Mono(8 * 32, 8 * (ByteLen(v) - 1));
    }
  }

  /** A number of at most three bytes is its lowest limb. */
  lemma OneLimb(a: seq<nat>, bytes: nat)
    requires |a| == WIDTH && IsLimbs(a) && bytes <= 3
    requires Val(a) < 0x100_0000 || (ByteLen(Val(a)) == bytes)
    ensures Val(a) == a[0]
  {
    assert Val(a) < BASE by {
      if Val(a) > 0 && ByteLen(Val(a)) == bytes {
        ByteLenBounds(Val(a));
        Pow2Mono(8 * bytes, 32);
        Pow2Base();
      }
    }
    hide Pow2;
    assert Val(a) == a[0] + BASE * Val(a[1..]);
  }

  /** Decoding the encoding of a 256-bit number: neither flag is set, the result is the largest encodable
      number not above it, and it encodes the same way again. */
  lemma DecodeEncode(v: nat)
    requires v < Pow2(256)
    ensures var n := Compact(v);
            && Magnitude(n) <= v && !SignOf(n) && Magnitude(n) < Pow2(256)
            && Compact(Magnitude(n)) == n
            && forall k {:trigger Magnitude(k)} :: Magnitude(k) <= v ==> Magnitude(k) <= Magnitude(n)
  {
    hide Magnitude, Compact, Pow2;
    DecodesBelow(v);
    CompactStable(v);
    if v > 0 {
      CompactChosen(v);
    } else {
      ZeroCompact();
    }
    forall k | Magnitude(k) <= v
      ensures Magnitude(k) <= Magnitude(Compact(v))
    {
      LargestBelow(v, k);
    }
  }

  // ----- the work of a block

  /** The number of hashes a block with these bits stands for: floor(2^256 / (target + 1)), or 0 when the
      bits do not denote a proper target. */
  method GetBlockProof(nBits: nat) returns (proof: array<nat>)
    requires nBits < BASE
    ensures fresh(proof) && proof.Length == WIDTH && IsLimbs(proof[..])
    ensures var t := Magnitude(nBits);
            Val(proof[..]) == if t == 0 || SignOf(nBits) || t >= Pow2(256) then 0 else Pow2(256) / (t + 1)
  {
    hide Val, Pow2, Pow256, Magnitude, SignOf;
    Whole();
    var target := new nat[WIDTH];
    var negative, overflow := SetCompact(target, nBits);
    proof := new nat[WIDTH];
    var zero := new nat[WIDTH];
    Assign(zero, 0);
    var c := CompareTo(target[..], zero[..]);
    if negative || overflow || c == 0 {
      Assign(proof, 0);
      TargetReduced(nBits);
      return;
    }
    TargetReduced(nBits);
    ghost var t := Magnitude(nBits);
    var flipped := Complement(target[..]);
    ValComplement(target[..]);
    Increment(target);
    NoWrap(nBits);
    Copy(proof, flipped);
    var divisionByZero := Divide(proof, target[..]);
    assert !divisionByZero;
    Increment(proof);
    ProofFormula(t);
  }

  lemma TargetReduced(n: nat)
    ensures Magnitude(n) < Pow2(256) ==> Magnitude(n) % Pow2(256) == Magnitude(n)
  {
    hide Magnitude;
    if Magnitude(n) < Pow2(256) {
      ModUnique(Magnitude(n), Pow2(256), 0, Magnitude(n));
    }
  }

  lemma SizeBound(n: nat)
    requires Magnitude(n) < Pow2(256) && WordOf(n) != 0
    ensures SizeOf(n) <= 34
  {
    hide Magnitude, Pow2, SizeOf, WordOf;
    TooLargeIff(n);
  }

  lemma ShortTarget(n: nat)
    requires SizeOf(n) <= 3
    ensures Magnitude(n) + 1 < Pow2(256)
  {
    hide Pow2, Pow256, WordOf, SizeOf;
    var word := WordOf(n);
    WordBound(n);
    Shifted(word, 3 - SizeOf(n));
    SmallFits(word + 1);
  }

  lemma WordBound(n: nat)
    ensures WordOf(n) < MANTISSA
  {
  }

  /** A target that fits is too short to be all ones. */
  lemma NoWrap(n: nat)
    requires Magnitude(n) < Pow2(256)
    ensures (Magnitude(n) + 1) % Pow2(256) == Magnitude(n) + 1
  {
    var m := Magnitude(n);
    assert m + 1 < Pow2(256) by {
      if SizeOf(n) <= 3 {
        ShortTarget(n);
      } else if WordOf(n) == 0 {
        ZeroWord(n);
        SmallFits(1);
      } else {
        SizeBound(n);
        hide SizeOf, WordOf, Pow2, Pow256;
        EvenBelow(WordOf(n), SizeOf(n));
      }
    }
    hide Pow2, Magnitude;
    ModUnique(m + 1, Pow2(256), 0, m + 1);
  }

  lemma ZeroWord(n: nat)
    requires WordOf(n) == 0
    ensures Magnitude(n) == 0
  {
    if SizeOf(n) <= 3 {
      ModUnique(0, Pow256(3 - SizeOf(n)), 0, 0);
    }
  }

  /** Multiples of 256 below 2^256 stay away from it. */
  lemma EvenBelow(word: nat, size: nat)
    requires 3 < size <= 35 && word * Pow256(size - 3) < Pow2(256)
    ensures word * Pow256(size - 3) + 1 < Pow2(256)
  {
    hide Pow2, Pow256;
    Whole();
    Pow256Step(size - 4);
    Pow256Step(31);
    SameProduct(word, Pow256(size - 4));
  }

  lemma SameProduct(x: nat, y: nat)
    ensures x * (256 * y) == 256 * (x * y)
  {
  }

  /** ~t / (t + 1) + 1 is the quotient that does not fit. */
  lemma ProofFormula(t: nat)
    requires 0 < t < Pow2(256)
    ensures (Pow2(256) - 1 - t) / (t + 1) + 1 == Pow2(256) / (t + 1)
    ensures Pow2(256) / (t + 1) < Pow2(256)
    ensures ((Pow2(256) - 1 - t) / (t + 1) + 1) % Pow2(256) == Pow2(256) / (t + 1)
  {
    hide Pow2;
    var m, d := Pow2(256), t + 1;
    var q, r := (m - d) / d, (m - d) % d;
    assert m - d == d * q + r;
    Multiples(d, q, q);
    ModUnique(m, d, q + 1, r);
    Multiples(q + 1, 2, d);
    ModUnique(q + 1, m, 0, q + 1);
  }
}
