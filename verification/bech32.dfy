/** Bech32 (BIP 173) and Bech32m (BIP 350) strings. */
module Bech32 {
  import opened Options
  import opened PolyMods
  import opened Bech32Charset
  import BchCodes

  datatype Encoding = BECH32 | BECH32M

  datatype DecodeResult = Invalid | Valid(encoding: Encoding, hrp: string, data: seq<bv8>)

  const CHECKSUM_SIZE := 6
  const SEPARATOR := '1'

  function EncodingConstant(encoding: Encoding): bv32 {
    if encoding == BECH32 then 1 else 0x2bc830a3
  }

  // ----- the checksum

  function Byte(c: char): bv8 {
    (c as int % 256) as bv8
  }

  /** The upper bits of a signed char. */
  function High(c: char): bv8 {
    if Byte(c) < 128 then Byte(c) >> 5 else (Byte(c) >> 5) | 0xf8
  }

  function Low(c: char): bv8 {
    Byte(c) & 0x1f
  }

  function Highs(hrp: string): seq<bv8> {
    seq(|hrp|, i requires 0 <= i < |hrp| => High(hrp[i]))
  }

  function Lows(hrp: string): seq<bv8> {
    seq(|hrp|, i requires 0 <= i < |hrp| => Low(hrp[i]))
  }

  function Coefficients(hrp: string, values: seq<bv8>): seq<bv8> {
    Highs(hrp) + [0] + Lows(hrp) + values
  }

  method PreparePolynomialCoefficients(hrp: string, values: seq<bv8>) returns (ret: seq<bv8>)
    ensures ret == Coefficients(hrp, values)
  {
    hide High, Low;
    ret := [];
    for i := 0 to |hrp|
      invariant ret == Highs(hrp)[..i]
    {
      ret := ret + [High(hrp[i])];
    }
    ret := ret + [0];
    for i := 0 to |hrp|
      invariant ret == Highs(hrp) + [0] + Lows(hrp)[..i]
    {
      ret := ret + [Low(hrp[i])];
    }
    ret := ret + values;
  }

  /** The encoding whose constant is the residue. */
  function Verified(hrp: string, values: seq<bv8>): Option<Encoding> {
    var check := Run(1, Coefficients(hrp, values));
    if check == EncodingConstant(BECH32) then Some(BECH32)
    else if check == EncodingConstant(BECH32M) then Some(BECH32M)
    else None
  }

  method VerifyChecksum(hrp: string, values: seq<bv8>) returns (r: Option<Encoding>)
    ensures r == Verified(hrp, values)
  {
    var enc := PreparePolynomialCoefficients(hrp, values);
    var check := PolyMod(enc);
    if check == EncodingConstant(BECH32) {
      return Some(BECH32);
    }
    if check == EncodingConstant(BECH32M) {
      return Some(BECH32M);
    }
    return None;
  }

  /** What must be added to six trailing zeros to make the residue the constant. */
  function Correction(encoding: Encoding, hrp: string, values: seq<bv8>): bv32 {
    Plus(Run(1, Coefficients(hrp, values) + Zeros(6)), EncodingConstant(encoding))
  }

  function Checksum(encoding: Encoding, hrp: string, values: seq<bv8>): (ck: seq<bv8>)
    ensures |ck| == 6
  {
    Residue(Correction(encoding, hrp, values))
  }

  method CreateChecksum(encoding: Encoding, hrp: string, values: seq<bv8>) returns (ret: seq<bv8>)
    ensures ret == Checksum(encoding, hrp, values)
  {
    hide Run;
    var enc := PreparePolynomialCoefficients(hrp, values);
    enc := enc + seq(CHECKSUM_SIZE, _ => 0);
    var mod := PolyMod(enc);
    mod := mod ^ EncodingConstant(encoding);
    assert enc == Coefficients(hrp, values) + Zeros(6);
    assert mod == Correction(encoding, hrp, values);
    hide Correction, Group;
    ret := [];
    for i := 0 to CHECKSUM_SIZE
      invariant ret == Residue(mod)[..i]
    {
      ret := ret + [Group(mod, i)];
    }
  }

  lemma ConstantsDiffer()
    ensures EncodingConstant(BECH32) != EncodingConstant(BECH32M)
    ensures forall e :: EncodingConstant(e) < 0x40000000
  {
  }

  lemma VerifiedIff(hrp: string, values: seq<bv8>, e: Encoding)
    ensures Verified(hrp, values) == Some(e) <==> Run(1, Coefficients(hrp, values)) == EncodingConstant(e)
  {
    ConstantsDiffer();
    hide EncodingConstant, Run;
  }

  /** Six final symbols add their packed value to what six zeros give. */
  lemma {:induction false} SixMore(hrp: string, values: seq<bv8>, ck: seq<bv8>)
    requires |ck| == 6
    ensures Run(1, Coefficients(hrp, values + ck)) == Plus(Run(1, Coefficients(hrp, values) + Zeros(6)), Run(0, ck))
  {
    var p := Coefficients(hrp, values);
    var m := Run(1, p);
    assert Coefficients(hrp, values + ck) == p + ck;
    RunConcat(1, p, ck);
    RunConcat(1, p, Zeros(6));
    assert Sum(Zeros(6), ck) == ck by {
      forall i | 0 <= i < 6 ensures Add(0, ck[i]) == ck[i] {
        Cancel(ck[i], 0, 0);
      }
    }
    FoldNone(m);
    hide Run, Plus, Add, Coefficients;
    RunLinear(m, 0, Zeros(6), ck);
  }

  lemma PlusMoves(x: bv32, y: bv32, k: bv32)
    ensures Plus(x, y) == k <==> y == Plus(x, k)
  {
    FoldNone(y);
    FoldNone(k);
    PlusCommutative(0, y);
    PlusCommutative(0, k);
    hide Plus;
    PlusSelf(x);
    PlusAssociative(x, x, y);
    PlusAssociative(x, x, k);
  }

  lemma ResidueSymbols(c: bv32)
    ensures AreSymbols(Residue(c))
  {
  }

  lemma {:induction false} PackedResidue(c: bv32, ck: seq<bv8>)
    requires c < 0x40000000 && |ck| == 6 && AreSymbols(ck)
    ensures Run(0, ck) == c <==> ck == Residue(c)
  {
    RunBound(0, ck);
    forall i | 0 <= i < 6 ensures Group(Run(0, ck), i) == ck[i] {
      RunPacks(ck, i);
    }
    hide Run, Group;
    if ck == Residue(c) {
      GroupsDiffer(Run(0, ck), c);
    }
  }

  lemma PlusBound(x: bv32, y: bv32)
    requires x < 0x40000000 && y < 0x40000000
    ensures Plus(x, y) < 0x40000000
  {
  }

  /** Exactly one six-symbol suffix makes the residue the constant: the computed checksum. */
  lemma {:induction false} ChecksumUnique(e: Encoding, hrp: string, values: seq<bv8>, ck: seq<bv8>)
    requires |ck| == 6 && AreSymbols(ck)
    ensures Verified(hrp, values + ck) == Some(e) <==> ck == Checksum(e, hrp, values)
  {
    var p := Coefficients(hrp, values);
    var x := Run(1, p + Zeros(6));
    RunConcat(1, p, Zeros(6));
    RunBound(Run(1, p), Zeros(6));
    ConstantsDiffer();
    VerifiedIff(hrp, values + ck, e);
    SixMore(hrp, values, ck);
    hide Run, Plus, Verified, EncodingConstant, Residue, Coefficients;
    PlusBound(x, EncodingConstant(e));
    PlusMoves(x, Run(0, ck), EncodingConstant(e));
    PackedResidue(Plus(x, EncodingConstant(e)), ck);
  }

  ghost predicate DifferWithin<T>(a: seq<T>, b: seq<T>, i: nat) {
    |a| == |b| && forall j :: 0 <= j < |a| && !(i <= j < i + 6) ==> a[j] == b[j]
  }

  /** An error confined to six consecutive symbols is never accepted under the same constant. */
  lemma {:induction false} BurstRejected(hrp: string, a: seq<bv8>, b: seq<bv8>, i: nat, e: Encoding)
    requires AreSymbols(a) && AreSymbols(b) && DifferWithin(a, b, i) && a != b
    requires Verified(hrp, a) == Some(e)
    ensures Verified(hrp, b) != Some(e)
  {
    VerifiedIff(hrp, a, e);
    VerifiedIff(hrp, b, e);
    var p, x, y, q := DifferenceParts(a, b, i);
    hide Run, Coefficients, Verified, AreSymbols;
    SymbolsConcat(p + x, q);
    SymbolsConcat(p, x);
    SymbolsConcat(p + y, q);
    SymbolsConcat(p, y);
    CoefficientParts(hrp, p, x, q);
    CoefficientParts(hrp, p, y, q);
    BurstDetected(1, Coefficients(hrp, []) + p, x, y, q);
  }

  /** One, two or three wrong symbols within 1023 are never accepted under the same constant. */
  lemma {:induction false} ThreeRejected(hrp: string, a: seq<bv8>, b: seq<bv8>, i: nat, j: nat, k: nat, e: Encoding)
    requires AreSymbols(a) && AreSymbols(b) && BchCodes.DifferOnlyAt(a, b, i, j, k) && a != b
    requires i <= j <= k < |a| && k - i < 1023 && Verified(hrp, a) == Some(e)
    ensures Verified(hrp, b) != Some(e)
  {
    VerifiedIff(hrp, a, e);
    VerifiedIff(hrp, b, e);
    hide Run, Verified, AreSymbols, Highs, Lows, EncodingConstant;
    var p := Coefficients(hrp, []);
    assert Coefficients(hrp, a) == p + a && Coefficients(hrp, b) == p + b;
    RunConcat(1, p, a);
    RunConcat(1, p, b);
    BchCodes.ThreeDetected(Run(1, p), a, b, i, j, k);
  }

  lemma {:induction false} DifferenceParts<T>(a: seq<T>, b: seq<T>, i: nat)
    returns (p: seq<T>, x: seq<T>, y: seq<T>, q: seq<T>)
    requires DifferWithin(a, b, i) && a != b
    ensures a == p + x + q && b == p + y + q && |x| == |y| <= 6 && x != y
  {
    var k :| 0 <= k < |a| && a[k] != b[k];
    var hi: nat := if i + 6 <= |a| then i + 6 else |a|;
    p, x, y, q := a[..i], a[i..hi], b[i..hi], a[hi..];
    ThreeParts(a, i, hi);
    ThreeParts(b, i, hi);
    assert q == b[hi..] && p == b[..i];
    assert x[k - i] != y[k - i];
  }

  lemma {:induction false} ThreeParts<T>(a: seq<T>, lo: nat, hi: nat)
    requires lo <= hi <= |a|
    ensures a == a[..lo] + a[lo..hi] + a[hi..]
  {
  }

  lemma {:induction false} CoefficientParts(hrp: string, u: seq<bv8>, v: seq<bv8>, w: seq<bv8>)
    ensures Coefficients(hrp, u + v + w) == Coefficients(hrp, []) + u + v + w
  {
    hide Highs, Lows;
  }

  // ----- strings

  function Chars(values: seq<bv8>): string
    requires AreSymbols(values)
  {
    seq(|values|, i requires 0 <= i < |values| => Charset(values[i]))
  }

  function Lowered(s: string): (l: string)
    ensures |l| == |s|
  {
    seq(|s|, i requires 0 <= i < |s| => LowerCase(s[i]))
  }

  ghost predicate NoUpper(s: string) {
    forall i :: 0 <= i < |s| ==> !IsUpper(s[i])
  }

  ghost predicate NoLower(s: string) {
    forall i :: 0 <= i < |s| ==> !IsLower(s[i])
  }

  ghost predicate Printable(s: string) {
    forall i :: 0 <= i < |s| ==> IsPrintable(s[i])
  }

  /** Printable characters, not of mixed case. */
  ghost predicate Acceptable(s: string) {
    Printable(s) && (NoUpper(s) || NoLower(s))
  }

  ghost predicate IsLetter(c: char) {
    IsLower(c) || IsUpper(c)
  }

  /** `j` is the first letter of `s`. */
  ghost predicate FirstLetter(s: string, j: nat) {
    j < |s| && IsLetter(s[j]) && forall k :: 0 <= k < j ==> !IsLetter(s[k])
  }

  /** Position `i` holds no printable character, or a letter of another case than the first letter's. */
  ghost predicate Wrong(s: string, i: nat) {
    i < |s| && (!IsPrintable(s[i]) ||
                exists j: nat {:trigger FirstLetter(s, j)} ::
                  FirstLetter(s, j) && (if IsLower(s[j]) then IsUpper(s[i]) else IsLower(s[i])))
  }

  /** The wrong positions among the first `n`, in order. */
  ghost predicate ListsWrong(s: string, n: nat, errors: seq<nat>) {
    && (forall a, b :: 0 <= a < b < |errors| ==> errors[a] < errors[b])
    && (forall i: nat {:trigger Wrong(s, i)} :: i in errors <==> i < n && Wrong(s, i))
  }

  lemma {:induction false} AcceptableIff(s: string, errors: seq<nat>)
    requires ListsWrong(s, |s|, errors)
    ensures errors == [] <==> Acceptable(s)
  {
    if errors != [] {
      var i := errors[0];
      assert i in errors;
      assert Wrong(s, i);
      if IsPrintable(s[i]) {
        var j: nat :| FirstLetter(s, j) && (if IsLower(s[j]) then IsUpper(s[i]) else IsLower(s[i]));
        assert !NoUpper(s) && !NoLower(s);
      }
    } else {
      forall i | 0 <= i < |s|
        ensures IsPrintable(s[i])
      {
        assert !Wrong(s, i);
      }
      if a, b :| 0 <= a < |s| && 0 <= b < |s| && IsLower(s[a]) && IsUpper(s[b]) {
        var f := FindFirstLetter(s, a);
        assert Wrong(s, if IsLower(s[f]) then b else a);
      }
    }
  }

  lemma {:induction false} FindFirstLetter(s: string, a: nat) returns (f: nat)
    requires a < |s| && IsLetter(s[a])
    ensures FirstLetter(s, f)
  {
    if k :| 0 <= k < a && IsLetter(s[k]) {
      f := FindFirstLetter(s, k);
    } else {
      f := a;
    }
  }

  method CheckCharacters(str: string) returns (errors: seq<nat>)
    ensures ListsWrong(str, |str|, errors)
    ensures errors == [] <==> Acceptable(str)
  {
    errors := [];
    var lower, upper := false, false;
    ghost var first: nat := 0;
    for i := 0 to |str|
      invariant first <= i && forall k :: 0 <= k < first ==> !IsLetter(str[k])
      invariant if first == i then !lower && !upper
                else FirstLetter(str, first) && lower == IsLower(str[first]) && upper == IsUpper(str[first])
      invariant ListsWrong(str, i, errors)
    {
      var c := str[i];
      ghost var known := errors;
      if IsLower(c) {
        if upper {
          errors := errors + [i];
        } else {
          lower := true;
        }
      } else if IsUpper(c) {
        if lower {
          errors := errors + [i];
        } else {
          upper := true;
        }
      } else if c as int < 33 || c as int > 126 {
        errors := errors + [i];
      }
      first := if first == i && !IsLetter(c) then i + 1 else first;
      WrongHere(str, i, first);
      MoreWrong(str, i, known, errors);
    }
    AcceptableIff(str, errors);
  }

  lemma {:induction false} WrongHere(s: string, i: nat, f: nat)
    requires i < |s| && f <= i + 1 && (f <= i ==> FirstLetter(s, f)) && forall k :: 0 <= k < f ==> !IsLetter(s[k])
    ensures Wrong(s, i) <==> !IsPrintable(s[i]) || (f < i && (if IsLower(s[f]) then IsUpper(s[i]) else IsLower(s[i])))
  {
    if j: nat :| FirstLetter(s, j) && (if IsLower(s[j]) then IsUpper(s[i]) else IsLower(s[i])) {
      assert IsLetter(s[i]);
      assert j == f;
    }
    if f < i && (if IsLower(s[f]) then IsUpper(s[i]) else IsLower(s[i])) {
      assert FirstLetter(s, f);
    }
  }

  lemma {:induction false} MoreWrong(s: string, i: nat, known: seq<nat>, errors: seq<nat>)
    requires i < |s| && ListsWrong(s, i, known) && errors == (if Wrong(s, i) then known + [i] else known)
    ensures ListsWrong(s, i + 1, errors)
  {
    forall a | 0 <= a < |known|
      ensures known[a] < i
    {
      assert known[a] in known;
      assert Wrong(s, known[a]);
    }
    forall k: nat
      ensures k in errors <==> k < i + 1 && Wrong(s, k)
    {
      assert k in known <==> k < i && Wrong(s, k);
    }
  }

  /** The position of the last separator, or -1. */
  function LastSeparator(s: string): (p: int)
    ensures -1 <= p < |s|
  {
    if s == [] then -1 else if s[|s| - 1] == SEPARATOR then |s| - 1 else LastSeparator(s[..|s| - 1])
  }

  lemma {:induction false} LastSeparatorIs(s: string, p: int)
    requires -1 <= p < |s| && (p >= 0 ==> s[p] == SEPARATOR) && forall i :: p < i < |s| ==> s[i] != SEPARATOR
    ensures LastSeparator(s) == p
  {
    if s != [] && p < |s| - 1 {
      LastSeparatorIs(s[..|s| - 1], p);
    }
  }

  lemma {:induction false} LastSeparatorAt(s: string)
    ensures LastSeparator(s) >= 0 ==> s[LastSeparator(s)] == SEPARATOR
  {
    if s != [] && s[|s| - 1] != SEPARATOR {
      LastSeparatorAt(s[..|s| - 1]);
    }
  }

  method FindLastSeparator(str: string) returns (pos: int)
    ensures pos == LastSeparator(str)
  {
    pos := |str| - 1;
    while pos >= 0 && str[pos] != SEPARATOR
      invariant -1 <= pos < |str| && forall i :: pos < i < |str| ==> str[i] != SEPARATOR
    {
      pos := pos - 1;
    }
    LastSeparatorIs(str, pos);
  }

  ghost predicate InCharset(s: string) {
    forall i :: 0 <= i < |s| ==> CharsetRev(s[i]).Some?
  }

  ghost function ValuesOf(s: string): (vs: seq<bv8>)
    requires InCharset(s)
    ensures |vs| == |s|
  {
    seq(|s|, i requires 0 <= i < |s| => CharsetRev(s[i]).value)
  }

  ghost function Encoded(encoding: Encoding, hrp: string, values: seq<bv8>): string
    requires AreSymbols(values)
  {
    ResidueSymbols(Correction(encoding, hrp, values));
    hrp + [SEPARATOR] + Chars(values) + Chars(Checksum(encoding, hrp, values))
  }

  ghost function Decoded(str: string, limit: nat): DecodeResult {
    var pos := LastSeparator(str);
    if !Acceptable(str) || |str| > limit || pos <= 0 || pos + CHECKSUM_SIZE >= |str| then Invalid
    else if !InCharset(str[pos + 1..]) then Invalid
    else
      var hrp, values := Lowered(str[..pos]), ValuesOf(str[pos + 1..]);
      match Verified(hrp, values)
      case None => Invalid
      case Some(e) => Valid(e, hrp, values[..|values| - CHECKSUM_SIZE])
  }

  method Encode(encoding: Encoding, hrp: string, values: seq<bv8>) returns (ret: string)
    requires NoUpper(hrp) && AreSymbols(values)
    ensures ret == Encoded(encoding, hrp, values)
  {
    hide Charset, Residue, Chars, Correction;
    ret := AppendChars(hrp + [SEPARATOR], values);
    var checksum := CreateChecksum(encoding, hrp, values);
    ResidueSymbols(Correction(encoding, hrp, values));
    ret := AppendChars(ret, checksum);
  }

  method AppendChars(s: string, values: seq<bv8>) returns (ret: string)
    requires AreSymbols(values)
    ensures ret == s + Chars(values)
  {
    hide Charset;
    ret := s;
    for k := 0 to |values|
      invariant ret == s + Chars(values)[..k]
    {
      ret := ret + [Charset(values[k])];
    }
  }

  method Decode(str: string, limit: nat) returns (r: DecodeResult)
    ensures r == Decoded(str, limit)
  {
    hide Acceptable, LastSeparator, Verified, CharsetRev, LowerCase;
    var errors := CheckCharacters(str);
    if errors != [] {
      return Invalid;
    }
    var pos := FindLastSeparator(str);
    if |str| > limit {
      return Invalid;
    }
    if pos <= 0 || pos + CHECKSUM_SIZE >= |str| {
      return Invalid;
    }
    ghost var tail := str[pos + 1..];
    var values := [];
    for i := 0 to |str| - 1 - pos
      invariant InCharset(tail[..i]) && values == ValuesOf(tail[..i])
    {
      var rev := CharsetRev(str[i + pos + 1]);
      assert str[i + pos + 1] == tail[i];
      if rev == None {
        return Invalid;
      }
      values := values + [rev.value];
    }
    assert tail[..|tail|] == tail;
    var hrp := "";
    for i := 0 to pos
      invariant hrp == Lowered(str[..i])
    {
      hrp := hrp + [LowerCase(str[i])];
    }
    var result := VerifyChecksum(hrp, values);
    if result == None {
      return Invalid;
    }
    return Valid(result.value, hrp, values[..|values| - CHECKSUM_SIZE]);
  }

  // ----- round trips

  ghost predicate Sendable(hrp: string, values: seq<bv8>, limit: nat) {
    hrp != [] && Printable(hrp) && |hrp| + 1 + |values| + CHECKSUM_SIZE <= limit
  }

  lemma {:induction false} CharsBack(values: seq<bv8>)
    requires AreSymbols(values)
    ensures InCharset(Chars(values)) && ValuesOf(Chars(values)) == values
    ensures Printable(Chars(values)) && NoUpper(Chars(values)) && forall i :: 0 <= i < |values| ==>
                Chars(values)[i] != SEPARATOR
  {
    hide Charset, CharsetRev, IsPrintable, IsUpper;
    forall i | 0 <= i < |values|
      ensures CharsetRev(Chars(values)[i]) == Some(values[i]) && IsPrintable(Chars(values)[i])
               && !IsUpper(Chars(values)[i])
      ensures Chars(values)[i] != SEPARATOR
    {
      CharsetBack(values[i]);
    }
  }

  lemma {:induction false} NoUpperLowered(s: string)
    requires NoUpper(s)
    ensures Lowered(s) == s
  {
  }

  /** Decoding an encoded string gives back what was encoded exactly when the HRP is printable and not empty and the
      string is not too long. */
  lemma {:induction false} DecodeEncode(e: Encoding, hrp: string, values: seq<bv8>, limit: nat)
    requires NoUpper(hrp) && AreSymbols(values)
    ensures Decoded(Encoded(e, hrp, values), limit) == if Sendable(hrp, values, limit) then Valid(e, hrp,
                values) else Invalid
  {
    var ck := Checksum(e, hrp, values);
    ResidueSymbols(Correction(e, hrp, values));
    var all := values + ck;
    EncodedParts(e, hrp, values);
    hide Checksum, Chars, InCharset, ValuesOf, Lowered, Verified, LastSeparator, Acceptable, AreSymbols, Printable,
         NoUpper;
    ChecksumUnique(e, hrp, values, ck);
    TextParts(hrp, all);
    assert all[..|all| - 6] == values;
  }

  ghost function Text(hrp: string, all: seq<bv8>): string
    requires AreSymbols(all)
  {
    hrp + [SEPARATOR] + Chars(all)
  }

  lemma {:induction false} EncodedParts(e: Encoding, hrp: string, values: seq<bv8>)
    requires AreSymbols(values)
    ensures var ck := Checksum(e, hrp, values);
            AreSymbols(ck) && AreSymbols(values + ck) && Encoded(e, hrp, values) == Text(hrp, values + ck)
  {
    ResidueSymbols(Correction(e, hrp, values));
    var ck := Checksum(e, hrp, values);
    assert AreSymbols(ck);
    hide Checksum, Chars, AreSymbols;
    SymbolsConcat(values, ck);
    CharsConcat(values, ck);
    ConcatAssociative(hrp + [SEPARATOR], Chars(values), Chars(ck));
  }

  lemma {:induction false} ConcatAssociative<T>(a: seq<T>, b: seq<T>, c: seq<T>)
    ensures a + b + c == a + (b + c)
  {
  }

  lemma {:induction false} SymbolsConcat(u: seq<bv8>, v: seq<bv8>)
    ensures AreSymbols(u + v) <==> AreSymbols(u) && AreSymbols(v)
  {
    if AreSymbols(u + v) {
      assert forall i :: 0 <= i < |u| ==> u[i] == (u + v)[i];
      assert forall i :: 0 <= i < |v| ==> v[i] == (u + v)[|u| + i];
    }
  }

  lemma {:induction false} CharsConcat(u: seq<bv8>, v: seq<bv8>)
    requires AreSymbols(u) && AreSymbols(v) && AreSymbols(u + v)
    ensures Chars(u + v) == Chars(u) + Chars(v)
  {
    hide Charset;
  }

  /** How the decoder takes such a string apart. */
  lemma {:induction false} TextParts(hrp: string, all: seq<bv8>)
    requires NoUpper(hrp) && AreSymbols(all)
    ensures var s := Text(hrp, all);
            && |s| == |hrp| + 1 + |all| && LastSeparator(s) == |hrp| && (Acceptable(s) <==>
                Printable(hrp)) && Lowered(s[..|hrp|]) == hrp
            && InCharset(s[|hrp| + 1..]) && ValuesOf(s[|hrp| + 1..]) == all
  {
    hide Charset, CharsetRev, IsPrintable, IsUpper, IsLower, LowerCase;
    var s := Text(hrp, all);
    CharsBack(all);
    LastSeparatorIs(s, |hrp|);
    assert s[..|hrp|] == hrp && s[|hrp| + 1..] == Chars(all);
    NoUpperLowered(hrp);
    SeparatorPlain();
    assert NoUpper(s);
    assert Printable(s) <==> Printable(hrp) by {
      assert forall k :: 0 <= k < |hrp| ==> s[k] == hrp[k];
      assert forall k :: |hrp| < k < |s| ==> s[k] == Chars(all)[k - |hrp| - 1];
    }
  }

  lemma SeparatorPlain()
    ensures IsPrintable(SEPARATOR) && !IsUpper(SEPARATOR) && LowerCase(SEPARATOR) == SEPARATOR
  {
  }

  /** Whatever decodes is, up to letter case, the encoding of the result. */
  lemma {:induction false} EncodeDecode(str: string, limit: nat)
    requires Decoded(str, limit).Valid?
    ensures var r := Decoded(str, limit);
            NoUpper(r.hrp) && AreSymbols(r.data) && Encoded(r.encoding, r.hrp, r.data) == Lowered(str)
                && Sendable(r.hrp, r.data, limit)
  {
    var r := Decoded(str, limit);
    var pos := Opened(str, limit);
    hide Decoded, Verified, ValuesOf, InCharset, Printable, AreSymbols, NoUpper, Lowered, Text;
    var values := ValuesOf(str[pos + 1..]);
    var ck := values[|values| - 6..];
    SplitLast(values, 6);
    Reassembled(str, pos);
    SymbolsConcat(r.data, ck);
    hide Checksum;
    ChecksumUnique(r.encoding, r.hrp, r.data, ck);
    EncodedParts(r.encoding, r.hrp, r.data);
  }

  lemma {:induction false} Opened(str: string, limit: nat) returns (pos: nat)
    requires Decoded(str, limit).Valid?
    ensures 0 < pos && pos + 6 < |str| <= limit && str[pos] == SEPARATOR && Printable(str) && InCharset(str[pos + 1..])
    ensures Decoded(str, limit).hrp == Lowered(str[..pos])
    ensures var values := ValuesOf(str[pos + 1..]);
            && Decoded(str, limit).data == values[..|values| - 6]
            && Verified(Lowered(str[..pos]), values) == Some(Decoded(str, limit).encoding)
  {
    LastSeparatorAt(str);
    hide LastSeparator, Verified, ValuesOf, InCharset, Lowered;
    pos := LastSeparator(str);
  }

  lemma {:induction false} Reassembled(str: string, pos: nat)
    requires pos < |str| && str[pos] == SEPARATOR && Printable(str) && InCharset(str[pos + 1..])
    ensures NoUpper(Lowered(str[..pos])) && Printable(Lowered(str[..pos]))
    ensures AreSymbols(ValuesOf(str[pos + 1..])) && Text(Lowered(str[..pos]), ValuesOf(str[pos + 1..])) == Lowered(str)
  {
    assert Printable(str[..pos]);
    hide LowerCase, InCharset, Lowered, Chars, ValuesOf, Printable, NoUpper, AreSymbols;
    ValuesForth(str[pos + 1..]);
    LoweredParts(str, pos);
    LoweredPlain(str[..pos]);
  }

  lemma {:induction false} SplitLast<T>(a: seq<T>, n: nat)
    requires n <= |a|
    ensures a == a[..|a| - n] + a[|a| - n..]
  {
  }

  lemma {:induction false} LoweredParts(str: string, pos: nat)
    requires pos < |str| && str[pos] == SEPARATOR
    ensures Lowered(str) == Lowered(str[..pos]) + [SEPARATOR] + Lowered(str[pos + 1..])
  {
    SeparatorPlain();
    hide LowerCase;
  }

  lemma {:induction false} ValuesForth(tail: string)
    requires InCharset(tail)
    ensures AreSymbols(ValuesOf(tail)) && Chars(ValuesOf(tail)) == Lowered(tail)
  {
    hide Charset, CharsetRev, LowerCase;
    forall i | 0 <= i < |tail|
      ensures ValuesOf(tail)[i] < 32 && Charset(ValuesOf(tail)[i]) == LowerCase(tail[i])
    {
      CharsetForth(tail[i]);
    }
  }

  lemma {:induction false} LoweredPlain(s: string)
    ensures NoUpper(Lowered(s))
    ensures Printable(s) ==> Printable(Lowered(s))
  {
  }
}
