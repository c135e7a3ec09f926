// Numbers in positional notation, most significant digit first, and the buffer bounds that radix
// conversion between bases 58 and 256 relies on (src/base58.cpp).
module Radix {
  import opened DivMod

  ghost function Pow(b: nat, n: nat): nat { if n == 0 then 1 else b * Pow(b, n - 1) }

  lemma {:induction false} PowAdd(b: nat, m: nat, n: nat)
    ensures Pow(b, m + n) == Pow(b, m) * Pow(b, n)
  {
    if m > 0 {
      PowAdd(b, m - 1, n);
      Assoc(b, Pow(b, m - 1), Pow(b, n));
    }
  }

  lemma Assoc(x: int, y: int, z: int)
    ensures x * (y * z) == (x * y) * z
  {
  }

  lemma {:induction false} PowMul(b: nat, m: nat, n: nat)
    ensures Pow(Pow(b, m), n) == Pow(b, m * n)
  {
    if n > 0 {
      PowMul(b, m, n - 1);
      PowAdd(b, m, m * (n - 1));
      assert m + m * (n - 1) == m * n;
    } else {
      assert m * n == 0;
    }
  }

  lemma {:induction false} PowPositive(b: nat, n: nat)
    requires b > 0
    ensures Pow(b, n) > 0
  {
    if n > 0 {
      PowPositive(b, n - 1);
      MulMono(1, b, 1, Pow(b, n - 1));
    }
  }

  lemma MulMono(a: nat, b: nat, c: nat, d: nat)
    requires a <= b && c <= d
    ensures a * c <= b * d
  {
    assert a * c <= b * c by { assert (b - a) * c >= 0; }
    assert b * c <= b * d by { assert b * (d - c) >= 0; }
  }

  /** Larger bases have larger powers ... */
  lemma {:induction false} PowBase(a: nat, b: nat, n: nat)
    requires a <= b
    ensures Pow(a, n) <= Pow(b, n)
  {
    if n > 0 {
      PowBase(a, b, n - 1);
      MulMono(a, b, Pow(a, n - 1), Pow(b, n - 1));
    }
  }

  /** ... strictly so for positive exponents. */
  lemma {:induction false} PowBaseStrict(a: nat, b: nat, n: nat)
    requires a < b && n > 0
    ensures Pow(a, n) < Pow(b, n)
  {
    PowBase(a, b, n - 1);
    PowPositive(b, n - 1);
    MulMono(a, b - 1, Pow(a, n - 1), Pow(b, n - 1));
    assert b * Pow(b, n - 1) == (b - 1) * Pow(b, n - 1) + Pow(b, n - 1);
  }

  lemma {:induction false} PowExp(b: nat, m: nat, n: nat)
    requires b > 0 && m <= n
    ensures Pow(b, m) <= Pow(b, n)
  {
    PowAdd(b, m, n - m);
    PowPositive(b, n - m);
    MulMono(Pow(b, m), Pow(b, m), 1, Pow(b, n - m));
  }

  // ----- the buffer bounds

  /** From x^p <= y^q to x^n <= y^m whenever q/p <= m/n. */
  lemma {:induction false} RatioBound(x: nat, y: nat, p: nat, q: nat, n: nat, m: nat)
    requires Pow(x, p) <= Pow(y, q) && q * n <= p * m && p > 0 && y > 0
    ensures Pow(x, n) <= Pow(y, m)
  {
    PowMul(x, n, p);
    PowMul(x, p, n);
    PowBase(Pow(x, p), Pow(y, q), n);
    PowMul(y, q, n);
    PowExp(y, q * n, p * m);
    PowMul(y, m, p);
    assert n * p == p * n && m * p == p * m;
    assert Pow(Pow(x, n), p) <= Pow(Pow(y, m), p);
    if Pow(x, n) > Pow(y, m) {
      PowBaseStrict(Pow(y, m), Pow(x, n), p);
    }
  }

  lemma Square(b: nat, n: nat)
    ensures Pow(b, 2 * n) == Pow(b, n) * Pow(b, n)
  {
    PowAdd(b, n, n);
  }

  /** 256^19 <= 58^26. */
  lemma Bytes19()
    ensures Pow(256, 19) <= Pow(58, 26)
  {
    assert Pow(58, 3) == 195112 && Pow(256, 3) == 0x100_0000 && Pow(58, 1) == 58 && Pow(256, 1) == 256;
    hide Pow;
    Square(58, 3);
    Square(58, 6);
    PowAdd(58, 12, 1);
    Square(58, 13);
    Square(256, 3);
    Square(256, 6);
    PowAdd(256, 12, 6);
    PowAdd(256, 18, 1);
  }

  lemma Digits36()
    ensures Pow(58, 36) == 0x7661f_ffc79dc527cbe584_29a0bc53ca417600_3162551000000000
  {
    assert Pow(58, 2) == 3364 && Pow(58, 1) == 58;
    hide Pow;
    Square(58, 2);
    Square(58, 4);
    PowAdd(58, 8, 1);
    Square(58, 9);
    Square(58, 18);
  }

  lemma Bytes26()
    ensures Pow(256, 26) == 0x10000_0000000000000000_0000000000000000_0000000000000000
  {
    assert Pow(256, 3) == 0x100_0000 && Pow(256, 1) == 256;
    hide Pow;
    Square(256, 3);
    Square(256, 6);
    PowAdd(256, 12, 1);
    Square(256, 13);
  }

  /** 58^71 <= 256^52. */
  lemma Digits71()
    ensures Pow(58, 71) <= Pow(256, 52)
  {
    assert Pow(58, 72) == 58 * Pow(58, 71);
    hide Pow;
    Digits36();
    Square(58, 36);
    Bytes26();
    Square(256, 26);
  }

  /** The base-58 buffer of EncodeBase58 is large enough. */
  lemma EncodeBufferSuffices(n: nat)
    ensures Pow(256, n) <= Pow(58, n * 138 / 100 + 1)
  {
    Bytes19();
    RatioBound(256, 58, 19, 26, n, n * 138 / 100 + 1);
  }

  /** The base-256 buffer of DecodeBase58 is large enough. */
  lemma DecodeBufferSuffices(n: nat)
    ensures Pow(58, n) <= Pow(256, n * 733 / 1000 + 1)
  {
    Digits71();
    RatioBound(58, 256, 71, 52, n, n * 733 / 1000 + 1);
  }

  // ----- digits

  predicate IsDigits(s: seq<nat>, b: nat) { forall i :: 0 <= i < |s| ==> s[i] < b }

  /** The number that a sequence of digits denotes. */
  ghost function Value(s: seq<nat>, b: nat): nat {
    if s == [] then 0 else Value(s[..|s| - 1], b) * b + s[|s| - 1]
  }

  /** Its digits without leading zeros. */
  ghost function Digits(v: nat, b: nat): seq<nat>
    requires b > 1
  {
    if v == 0 then []
    else
      QuotRem(v, b);
      Digits(Quot(v, b), b) + [Rem(v, b)]
  }

  lemma {:induction false} ValueSnoc(s: seq<nat>, d: nat, b: nat)
    ensures Value(s + [d], b) == Value(s, b) * b + d
  {
    assert (s + [d])[..|s|] == s;
  }

  lemma {:induction false} ValueConcat(s: seq<nat>, t: seq<nat>, b: nat)
    ensures Value(s + t, b) == Value(s, b) * Pow(b, |t|) + Value(t, b)
  {
    if t == [] {
      assert s + t == s;
    } else {
      var t', d := t[..|t| - 1], t[|t| - 1];
      assert s + t == (s + t') + [d];
      ValueSnoc(s + t', d, b);
      ValueConcat(s, t', b);
      Expand(Value(s, b), Pow(b, |t'|), Value(t', b), b);
    }
  }

  lemma Expand(x: int, p: int, y: int, b: int)
    ensures (x * p + y) * b == x * (b * p) + y * b
  {
  }

  lemma NextDigit(v: nat, d: nat, b: nat, p: nat)
    requires v < p && d < b
    ensures v * b + d < b * p
  {
    Multiples(b, v + 1, p);
  }

  lemma {:induction false} ValueBound(s: seq<nat>, b: nat)
    requires IsDigits(s, b) && b > 0
    ensures Value(s, b) < Pow(b, |s|)
  {
    if s != [] {
      var t := s[..|s| - 1];
      assert Pow(b, |s|) == b * Pow(b, |t|);
      assert Value(s, b) == Value(t, b) * b + s[|s| - 1];
      hide Value, Pow;
      ValueBound(t, b);
      NextDigit(Value(t, b), s[|s| - 1], b, Pow(b, |t|));
    }
  }

  lemma {:induction false} ValueZeros(s: seq<nat>, b: nat)
    requires forall i :: 0 <= i < |s| ==> s[i] == 0
    ensures Value(s, b) == 0
  {
    if s != [] {
      ValueZeros(s[..|s| - 1], b);
    }
  }

  lemma {:induction false} DigitsValue(v: nat, b: nat)
    requires b > 1
    ensures IsDigits(Digits(v, b), b) && Value(Digits(v, b), b) == v && (v > 0 ==>
                Digits(v, b) != [] && Digits(v, b)[0] != 0)
  {
    hide Quot, Rem;
    if v > 0 {
      var ds, d := Digits(Quot(v, b), b), Rem(v, b);
      QuotRem(v, b);
      DigitsSnoc(v, b);
      hide Digits, Value;
      DigitsValue(Quot(v, b), b);
      ValueSnoc(ds, d, b);
    }
  }

  lemma {:induction false} DigitsSnoc(v: nat, b: nat)
    requires b > 1 && v > 0
    ensures Digits(v, b) == Digits(Quot(v, b), b) + [Rem(v, b)]
  {
    hide Quot, Rem;
  }

  /** A digit sequence without leading zeros is the one that its value has. */
  lemma {:induction false} DigitsUnique(s: seq<nat>, b: nat)
    requires b > 1 && IsDigits(s, b) && (s != [] ==> s[0] != 0)
    ensures Digits(Value(s, b), b) == s
  {
    if s != [] {
      var t, d := s[..|s| - 1], s[|s| - 1];
      assert s == t + [d];
      SplitDigit(Value(t, b), d, b);
      hide Value, Digits;
      DigitsUnique(t, b);
      ValueSnoc(t, d, b);
      ValuePositive(s, b);
      DigitsSnoc(Value(s, b), b);
    }
  }

  lemma {:induction false} ValuePositive(s: seq<nat>, b: nat)
    requires b > 0 && s != [] && s[0] != 0
    ensures Value(s, b) > 0
  {
    if |s| > 1 {
      ValuePositive(s[..|s| - 1], b);
      MulMono(1, Value(s[..|s| - 1], b), 1, b);
    }
  }

  lemma SplitDigit(x: nat, d: nat, b: nat)
    requires d < b
    ensures (x * b + d) / b == x && (x * b + d) % b == d
  {
    ModUnique(x * b + d, b, x, d);
  }

  /** Larger numbers do not have fewer digits. */
  lemma {:induction false} DigitsMono(v: nat, w: nat, b: nat)
    requires b > 1 && v <= w
    ensures |Digits(v, b)| <= |Digits(w, b)|
    decreases w
  {
    if v > 0 {
      QuotRem(w, b);
      QuotMono(v, w, b);
      hide Quot, Rem;
      DigitsMono(Quot(v, b), Quot(w, b), b);
    }
  }

  lemma QuotMono(v: nat, w: nat, b: nat)
    requires b > 0 && v <= w
    ensures Quot(v, b) <= Quot(w, b)
  {
    QuotRem(v, b);
    QuotRem(w, b);
    var k := Quot(v, b) - Quot(w, b);
    assert b * k == b * Quot(v, b) - b * Quot(w, b);
    MulSign(b, k);
  }
}
