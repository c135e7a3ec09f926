// Base58 encoding and decoding (src/base58.cpp).
module Base58 {
  import opened Options
  import opened DivMod
  import opened Radix

  // ----- characters: digits, then letters without I, O and l

  /** The value of a base-58 character, or -1. */
  function MapBase58(c: char): (d: int)
    ensures -1 <= d < 58
  {
    if '1' <= c <= '9' then c as int - '1' as int
    else if 'A' <= c <= 'H' then c as int - 'A' as int + 9
    else if 'J' <= c <= 'N' then c as int - 'J' as int + 17
    else if 'P' <= c <= 'Z' then c as int - 'P' as int + 22
    else if 'a' <= c <= 'k' then c as int - 'a' as int + 33
    else if 'm' <= c <= 'z' then c as int - 'm' as int + 44
    else -1
  }

  /** The character for a base-58 digit. */
  function Symbol(d: nat): (c: char)
    requires d < 58
    ensures MapBase58(c) == d && !IsSpace(c) && c != '\0'
  {
    if d < 9 then (d + '1' as int) as char
    else if d < 17 then (d - 9 + 'A' as int) as char
    else if d < 22 then (d - 17 + 'J' as int) as char
    else if d < 33 then (d - 22 + 'P' as int) as char
    else if d < 44 then (d - 33 + 'a' as int) as char
    else (d - 44 + 'm' as int) as char
  }

  lemma SymbolOf(c: char)
    requires MapBase58(c) >= 0
    ensures Symbol(MapBase58(c)) == c
  {
  }

  /** The alphabet is the digits, capitals and small letters without the four that look alike, in the order of their
      codes; `Symbol` has a character for every value. */
  lemma Alphabet(c: char, c': char)
    ensures MapBase58(c) >= 0 <==>
            ('0' <= c <= '9' || 'A' <= c <= 'Z' || 'a' <= c <= 'z') && c !in ['0', 'O', 'I', 'l']
    ensures MapBase58(c) >= 0 && MapBase58(c') >= 0 ==> (c < c' <==> MapBase58(c) < MapBase58(c'))
  {
  }

  predicate IsSpace(c: char) { c == ' ' || c as int == 12 || c == '\n' || c == '\r' || c == '\t' || c as int == 11 }

  ghost function Symbols(ds: seq<nat>): string
    requires IsDigits(ds, 58)
  {
    seq(|ds|, i requires 0 <= i < |ds| => Symbol(ds[i]))
  }

  predicate AllSymbols(s: string) { forall i :: 0 <= i < |s| ==> MapBase58(s[i]) >= 0 }

  ghost function SymbolValues(s: string): (ds: seq<nat>)
    requires AllSymbols(s)
    ensures IsDigits(ds, 58) && |ds| == |s|
  {
    seq(|s|, i requires 0 <= i < |s| => MapBase58(s[i]))
  }

  // ----- multiply and add on a digit buffer

  /** A buffer whose last `length` digits are the number's digits without leading zeros. */
  ghost predicate Holds(buf: seq<nat>, length: nat, base: nat) {
    && IsDigits(buf, base) && length <= |buf|
    && (forall i :: 0 <= i < |buf| - length ==> buf[i] == 0)
    && (length > 0 ==> buf[|buf| - length] != 0)
  }

  lemma {:induction false} HeldDigits(buf: seq<nat>, length: nat, base: nat)
    requires base > 1 && Holds(buf, length, base)
    ensures buf[|buf| - length..] == Digits(Value(buf, base), base)
  {
    hide Value, Digits, Pow;
    var hi, lo := buf[..|buf| - length], buf[|buf| - length..];
    assert buf == hi + lo;
    ValueConcat(hi, lo, base);
    ValueZeros(hi, base);
    DigitsUnique(lo, base);
  }

  /** The loop state: the last `i` digits have been multiplied, with `carry` left over. */
  ghost predicate Carried(old_: seq<nat>, buf: seq<nat>, length: nat, base: nat, factor: nat, digit: nat, i: nat,
                          carry: nat) {
    && i <= |buf| == |old_| && IsDigits(buf, base) && buf[..|buf| - i] == old_[..|buf| - i]
    && CarryEquation(old_[|buf| - i..], buf[|buf| - i..], base, factor, digit, carry)
    && (i > 0 && i >= length ==> buf[|buf| - i] != 0 || carry != 0)
  }

  ghost predicate CarryEquation(old_: seq<nat>, buf: seq<nat>, base: nat, factor: nat, digit: nat, carry: nat) {
    carry * Pow(base, |buf|) + Value(buf, base) == factor * Value(old_, base) + digit
  }

  lemma {:induction false} EquationStep(old_: seq<nat>, buf: seq<nat>, base: nat, factor: nat, digit: nat, carry: nat,
                                        d: nat)
    requires base > 0 && |old_| == |buf| && CarryEquation(old_, buf, base, factor, digit, carry)
    ensures var t := carry + factor * d;
            CarryEquation([d] + old_, [Rem(t, base)] + buf, base, factor, digit, Quot(t, base))
  {
    var t := carry + factor * d;
    assert Pow(base, |buf| + 1) == base * Pow(base, |buf|);
    hide Value, Rem, Quot, Pow;
    ValueConcat([Rem(t, base)], buf, base);
    ValueConcat([d], old_, base);
    SingleValue(Rem(t, base), base);
    SingleValue(d, base);
    QuotRem(t, base);
    CarryAlgebra(carry, Pow(base, |buf|), Value(buf, base), factor, Value(old_, base), digit, d, base, Quot(t, base),
        Rem(t, base));
  }

  lemma {:induction false} CarryStep(old_: seq<nat>, buf: seq<nat>, length: nat, base: nat, factor: nat, digit: nat,
                                     i: nat, carry: nat)
    requires base > 1 && factor > 0 && Holds(old_, length, base)
             && Carried(old_, buf, length, base, factor, digit, i, carry)
    requires i < |buf| && (carry != 0 || i < length)
    ensures var p := |buf| - 1 - i; var t := carry + factor * buf[p];
            Carried(old_, buf[p := Rem(t, base)], length, base, factor, digit, i + 1, Quot(t, base))
  {
    hide CarryEquation, Rem, Quot;
    var n, p := |buf|, |buf| - 1 - i;
    var t := carry + factor * buf[p];
    var buf' := buf[p := Rem(t, base)];
    assert buf[p] == buf[..n - i][p] == old_[p];
    EquationStep(old_[n - i..], buf[n - i..], base, factor, digit, carry, old_[p]);
    assert buf'[p..] == [Rem(t, base)] + buf[n - i..] && old_[p..] == [old_[p]] + old_[n - i..];
    assert buf'[..p] == buf[..n - i][..p] == old_[..p];
    if i + 1 >= length {
      PositiveStep(carry, factor, old_[p], base);
    }
  }

  lemma PositiveStep(carry: nat, factor: nat, d: nat, base: nat)
    requires base > 0 && factor > 0 && (carry != 0 || d != 0)
    ensures var t := carry + factor * d; Rem(t, base) != 0 || Quot(t, base) != 0
  {
    var t := carry + factor * d;
    if d > 0 {
      MulMono(1, factor, 1, d);
    }
    QuotRem(t, base);
  }

  lemma {:induction false} SingleValue(d: nat, base: nat)
    ensures Value([d], base) == d
  {
    assert [d][..0] == [];
  }

  lemma CarryAlgebra(carry: nat, p: nat, v: nat, factor: nat, w: nat, digit: nat, d: nat, base: nat, q: nat, r: nat)
    requires carry * p + v == factor * w + digit && carry + factor * d == base * q + r
    ensures q * (base * p) + (r * p + v) == factor * (d * p + w) + digit
  {
    assert (base * q + r) * p == q * (base * p) + r * p;
    assert (carry + factor * d) * p == carry * p + factor * (d * p);
    assert factor * (d * p + w) == factor * (d * p) + factor * w;
  }

  /** "buf = buf * factor + digit"; the carry is always used up when the result fits. */
  method MultiplyAdd(buf: array<nat>, length: nat, base: nat, factor: nat, digit: nat) returns (length': nat)
    requires base > 1 && factor > 0 && Holds(buf[..], length, base)
    requires Value(buf[..], base) * factor + digit < Pow(base, buf.Length)
    modifies buf
    ensures Holds(buf[..], length', base) && Value(buf[..], base) == Value(old(buf[..]), base) * factor + digit
    ensures length' >= length
  {
    hide Carried, Holds, Rem, Quot, Value, Pow;
    ghost var before := buf[..];
    var carry: nat, i: nat := digit, 0;
    CarryStarts(before, length, base, factor, digit);
    while (carry != 0 || i < length) && i < buf.Length
      invariant 0 <= i <= buf.Length && Carried(before, buf[..], length, base, factor, digit, i, carry)
      decreases buf.Length - i
    {
      CarryStep(before, buf[..], length, base, factor, digit, i, carry);
      ghost var now := buf[..];
      var p := buf.Length - 1 - i;
      carry := carry + factor * buf[p];
      buf[p] := Rem(carry, base);
      assert buf[..] == now[p := Rem(carry, base)];
      carry := Quot(carry, base);
      i := i + 1;
    }
    CarryEnds(before, buf[..], length, base, factor, digit, i, carry);
    assert carry == 0;
    length' := i;
  }

  lemma CarryStarts(buf: seq<nat>, length: nat, base: nat, factor: nat, digit: nat)
    requires Holds(buf, length, base)
    ensures Carried(buf, buf, length, base, factor, digit, 0, digit)
  {
    assert buf[|buf|..] == [];
  }

  lemma {:induction false} CarryEnds(old_: seq<nat>, buf: seq<nat>, length: nat, base: nat, factor: nat, digit: nat,
                                     i: nat, carry: nat)
    requires base > 1 && Holds(old_, length, base) && Carried(old_, buf, length, base, factor, digit, i, carry)
    requires (carry == 0 && i >= length) || i == |buf|
    requires Value(old_, base) * factor + digit < Pow(base, |buf|)
    ensures carry == 0 && i >= length && Holds(buf, i, base) && Value(buf, base) == Value(old_, base) * factor + digit
  {
    hide Value, Pow, CarryEquation;
    var n := |buf|;
    assert forall j :: 0 <= j < n - i ==> buf[j] == buf[..n - i][j] == old_[j];
    EndValue(old_, buf, base, factor, digit, n - i, carry, length);
  }

  lemma {:induction false} EndValue(old_: seq<nat>, buf: seq<nat>, base: nat, factor: nat, digit: nat, k: nat,
                                    carry: nat, length: nat)
    requires k <= |buf| == |old_| && CarryEquation(old_[k..], buf[k..], base, factor, digit, carry)
             && (k == 0 || carry == 0)
    requires forall j :: 0 <= j < |buf| - length ==> old_[j] == 0
    requires k > 0 ==> k <= |buf| - length
    requires forall j :: 0 <= j < k ==> buf[j] == old_[j]
    requires Value(old_, base) * factor + digit < Pow(base, |buf|)
    ensures carry == 0 && Value(buf, base) == Value(old_, base) * factor + digit
  {
    hide Value, Pow;
    if k == 0 {
      assert buf[k..] == buf && old_[k..] == old_;
      NoCarry(carry, Pow(base, |buf|), Value(buf, base), factor * Value(old_, base) + digit);
    } else {
      DropZeros(buf, k, base);
      DropZeros(old_, k, base);
    }
  }

  lemma {:induction false} DropZeros(s: seq<nat>, k: nat, base: nat)
    requires k <= |s| && forall j :: 0 <= j < k ==> s[j] == 0
    ensures Value(s, base) == Value(s[k..], base)
  {
    hide Value, Pow;
    assert s == s[..k] + s[k..];
    ValueConcat(s[..k], s[k..], base);
    ValueZeros(s[..k], base);
  }

  lemma NoCarry(carry: nat, p: nat, v: nat, total: nat)
    requires carry * p + v == total < p
    ensures carry == 0
  {
    if carry > 0 {
      MulMono(1, carry, p, p);
    }
  }

  // ----- encoding

  function Repeat<T>(x: T, n: nat): seq<T> { seq(n, _ => x) }

  /** How many elements at the front equal `x`. */
  ghost function Leading<T>(s: seq<T>, x: T): (n: nat)
    ensures n <= |s|
  {
    if s == [] || s[0] != x then 0 else 1 + Leading(s[1..], x)
  }

  lemma {:induction false} LeadingIs<T>(s: seq<T>, x: T, n: nat)
    requires n <= |s| && (forall i :: 0 <= i < n ==> s[i] == x) && (n < |s| ==> s[n] != x)
    ensures Leading(s, x) == n
  {
    if n > 0 {
      LeadingIs(s[1..], x, n - 1);
    }
  }

  lemma {:induction false} LeadingSplit<T>(s: seq<T>, x: T)
    ensures var n := Leading(s, x); s == Repeat(x, n) + s[n..] && (n < |s| ==> s[n] != x)
  {
    LeadingAll(s, x);
    hide Leading;
    var n := Leading(s, x);
    var r := Repeat(x, n) + s[n..];
    assert |r| == |s| && forall i :: 0 <= i < |s| ==> r[i] == s[i];
  }

  lemma {:induction false} LeadingAll<T>(s: seq<T>, x: T)
    ensures var n := Leading(s, x); (forall i :: 0 <= i < n ==> s[i] == x) && (n < |s| ==> s[n] != x)
  {
    if s != [] && s[0] == x {
      LeadingAll(s[1..], x);
      var n := Leading(s[1..], x);
      assert forall i :: 0 < i <= n ==> s[i] == s[1..][i - 1];
    }
  }

  /** The base-58 string of a byte string: a '1' for each leading zero byte, then the number's digits. */
  ghost function Encoded(x: seq<nat>): string {
    var z := Leading(x, 0);
    var ds := Digits(Value(x[z..], 256), 58);
    DigitsValue(Value(x[z..], 256), 58);
    Repeat('1', z) + Symbols(ds)
  }

  /** What the first `j` bytes denote fits the buffer. */
  lemma EncodeFits(rest: seq<nat>, j: nat)
    requires IsDigits(rest, 256) && j < |rest|
    ensures Value(rest[..j], 256) * 256 + rest[j] == Value(rest[..j + 1], 256) < Pow(58, |rest| * 138 / 100 + 1)
  {
    hide Value, Pow;
    assert rest[..j + 1] == rest[..j] + [rest[j]];
    ValueSnoc(rest[..j], rest[j], 256);
    ValueBound(rest[..j + 1], 256);
    PowExp(256, j + 1, |rest|);
    EncodeBufferSuffices(|rest|);
  }

  method ToBase58(rest: seq<nat>) returns (b58: array<nat>, length: nat)
    requires IsDigits(rest, 256)
    ensures fresh(b58) && Holds(b58[..], length, 58) && Value(b58[..], 58) == Value(rest, 256)
  {
    hide Value, Pow, Holds;
    b58 := new nat[|rest| * 138 / 100 + 1](_ => 0);
    length := 0;
    Empty(b58[..], 58);
    assert rest[..0] == [];
    Empty(rest[..0], 256);
    for j := 0 to |rest|
      invariant fresh(b58) && b58.Length == |rest| * 138 / 100 + 1
      invariant Holds(b58[..], length, 58) && Value(b58[..], 58) == Value(rest[..j], 256)
    {
      EncodeFits(rest, j);
      length := MultiplyAdd(b58, length, 58, 256, rest[j]);
    }
    assert rest[..|rest|] == rest;
  }

  lemma Empty(buf: seq<nat>, base: nat)
    requires base > 1 && forall i :: 0 <= i < |buf| ==> buf[i] == 0
    ensures Holds(buf, 0, base) && Value(buf, base) == 0
  {
    ValueZeros(buf, base);
  }

  method EncodeBase58(input: seq<nat>) returns (str: string)
    requires IsDigits(input, 256)
    ensures str == Encoded(input)
  {
    var zeroes := 0;
    while zeroes < |input| && input[zeroes] == 0
      invariant 0 <= zeroes <= |input| && forall i :: 0 <= i < zeroes ==> input[i] == 0
    {
      zeroes := zeroes + 1;
    }
    LeadingIs(input, 0, zeroes);
    var b58, length := ToBase58(input[zeroes..]);
    var it := SkipZeros(b58[..], b58.Length - length);
    HeldDigits(b58[..], length, 58);
    hide Value, Digits, Holds, Leading;
    DigitsValue(Value(input[zeroes..], 256), 58);
    NoneSkipped(b58[..], length, it);
    var tail := Translate(b58[it..]);
    str := Repeat('1', zeroes) + tail;
  }

  method SkipZeros(buf: seq<nat>, first: nat) returns (it: nat)
    requires first <= |buf|
    ensures first <= it <= |buf| && (forall j :: first <= j < it ==> buf[j] == 0) && (it < |buf| ==> buf[it] != 0)
  {
    it := first;
    while it < |buf| && buf[it] == 0
      invariant first <= it <= |buf| && forall j :: first <= j < it ==> buf[j] == 0
    {
      it := it + 1;
    }
  }

  /** The digits kept have no leading zeros left. */
  lemma NoneSkipped(buf: seq<nat>, length: nat, it: nat)
    requires Holds(buf, length, 58) && |buf| - length <= it <= |buf| && forall j :: |buf| - length <= j < it ==>
                buf[j] == 0
    ensures it == |buf| - length
  {
  }

  method Translate(ds: seq<nat>) returns (str: string)
    requires IsDigits(ds, 58)
    ensures str == Symbols(ds)
  {
    str := "";
    for i := 0 to |ds|
      invariant str == Symbols(ds[..i])
    {
      assert ds[..i + 1] == ds[..i] + [ds[i]];
      str := str + [Symbol(ds[i])];
    }
    assert ds[..|ds|] == ds;
  }

  // ----- decoding

  ghost function DropSpaces(s: string): string {
    if s != [] && IsSpace(s[0]) then DropSpaces(s[1..]) else s
  }

  ghost function WordLength(s: string): (n: nat)
    ensures n <= |s|
  {
    if s == [] || IsSpace(s[0]) then 0 else 1 + WordLength(s[1..])
  }

  /** The string without the white space around it. */
  ghost function Trimmed(s: string): string {
    var t := DropSpaces(s);
    t[..WordLength(t)]
  }

  ghost predicate OnlySpaces(s: string) { forall i :: 0 <= i < |s| ==> IsSpace(s[i]) }

  /** The bytes of a word of base-58 symbols. */
  ghost function WordBytes(w: string): seq<nat>
    requires AllSymbols(w)
  {
    var z := Leading(w, '1');
    Repeat(0, z) + Digits(Value(SymbolValues(w[z..]), 58), 256)
  }

  /** One word of symbols with nothing but white space around it, denoting at most `max` bytes; the empty word always
      decodes. */
  ghost function Decoded(str: string, max: int): Option<seq<nat>> {
    var t, w := DropSpaces(str), Trimmed(str);
    if '\0' in str || !OnlySpaces(t[|w|..]) || !AllSymbols(w) || (w != [] && |WordBytes(w)| > max) then None
    else Some(WordBytes(w))
  }

  lemma {:induction false} SymbolsBack(ds: seq<nat>)
    requires IsDigits(ds, 58)
    ensures AllSymbols(Symbols(ds)) && SymbolValues(Symbols(ds)) == ds
  {
  }

  lemma {:induction false} ValuesBack(s: string)
    requires AllSymbols(s)
    ensures Symbols(SymbolValues(s)) == s
  {
    forall i | 0 <= i < |s|
      ensures Symbol(MapBase58(s[i])) == s[i]
    {
      SymbolOf(s[i]);
    }
  }

  lemma {:induction false} PlainWord(s: string)
    requires forall i :: 0 <= i < |s| ==> !IsSpace(s[i])
    ensures DropSpaces(s) == s && WordLength(s) == |s| && Trimmed(s) == s
  {
    if s != [] {
      PlainWord(s[1..]);
    }
  }

  /** Decoding inverts encoding, for every byte string within the length limit. */
  lemma {:induction false} DecodeEncode(x: seq<nat>, max: int)
    requires IsDigits(x, 256) && |x| <= max
    ensures Decoded(Encoded(x), max) == Some(x)
  {
    hide Value, Digits, DropSpaces, WordLength, Trimmed, Encoded, WordBytes, MapBase58;
    var s := Encoded(x);
    EncodedPlain(x);
    PlainWord(s);
    assert s[|s|..] == [];
    WordBack(x);
  }

  lemma {:induction false} EncodedPlain(x: seq<nat>)
    ensures AllSymbols(Encoded(x)) && '\0' !in Encoded(x) && forall i :: 0 <= i < |Encoded(x)| ==>
                !IsSpace(Encoded(x)[i])
  {
    var z := Leading(x, 0);
    var v := Value(x[z..], 256);
    DigitsValue(v, 58);
    var ds := Digits(v, 58);
    hide Value, Digits, Leading;
    assert Encoded(x) == Repeat('1', z) + Symbols(ds);
    hide Encoded;
    forall i | 0 <= i < |ds|
      ensures MapBase58(Symbols(ds)[i]) >= 0 && !IsSpace(Symbols(ds)[i]) && Symbols(ds)[i] != '\0'
    {
    }
    assert MapBase58('1') == 0 && !IsSpace('1');
    hide MapBase58, IsSpace, Symbols;
  }

  lemma {:induction false} WordBack(x: seq<nat>)
    requires IsDigits(x, 256) && AllSymbols(Encoded(x))
    ensures WordBytes(Encoded(x)) == x
  {
    hide Value, MapBase58, Leading;
    var z := Leading(x, 0);
    var v := Value(x[z..], 256);
    var ds := Digits(v, 58);
    LeadingSplit(x, 0);
    DigitsValue(v, 58);
    FirstSymbol(v, ds);
    hide Digits, Symbols;
    SymbolsBack(ds);
    DigitsUnique(x[z..], 256);
    OnesThen(z, Symbols(ds));
  }

  lemma {:induction false} FirstSymbol(v: nat, ds: seq<nat>)
    requires ds == Digits(v, 58) && IsDigits(ds, 58) && (v > 0 ==> ds != [] && ds[0] != 0)
    ensures Symbols(ds) != [] ==> Symbols(ds)[0] != '1'
  {
  }

  lemma {:induction false} OnesThen(z: nat, t: string)
    requires t != [] ==> t[0] != '1'
    ensures Leading(Repeat('1', z) + t, '1') == z && (Repeat('1', z) + t)[z..] == t
  {
    LeadingIs(Repeat('1', z) + t, '1', z);
  }

  /** Whatever decodes is, without the white space around it, the encoding of what it decodes to. */
  lemma {:induction false} EncodeDecode(str: string, max: int)
    requires Decoded(str, max).Some?
    ensures Encoded(Decoded(str, max).value) == Trimmed(str)
  {
    var w := Trimmed(str);
    var z := Leading(w, '1');
    var vs := SymbolValues(w[z..]);
    var v := Value(vs, 58);
    var bytes := Repeat(0, z) + Digits(v, 256);
    LeadingSplit(w, '1');
    DigitsValue(v, 256);
    hide DropSpaces, WordLength, Trimmed, IsSpace, Value, Digits;
    if vs != [] {
      assert MapBase58(w[z]) != 0 by { SymbolOf(w[z]); }
    }
    DigitsUnique(vs, 58);
    LeadingIs(bytes, 0, z);
    assert bytes[z..] == Digits(v, 256);
    ValuesBack(w[z..]);
  }

  // ----- the decoding loop

  lemma {:induction false} DropSpacesIs(s: string, p: nat)
    requires p <= |s| && (forall i :: 0 <= i < p ==> IsSpace(s[i])) && (p < |s| ==> !IsSpace(s[p]))
    ensures DropSpaces(s) == s[p..]
  {
    if p > 0 {
      DropSpacesIs(s[1..], p - 1);
      assert s[1..][p - 1..] == s[p..];
    } else {
      assert s[0..] == s;
    }
  }

  lemma {:induction false} WordAtLeast(t: string, k: nat)
    requires k <= |t| && forall i :: 0 <= i < k ==> !IsSpace(t[i])
    ensures WordLength(t) >= k
    ensures k == |t| || IsSpace(t[k]) ==> WordLength(t) == k
  {
    if k > 0 {
      WordAtLeast(t[1..], k - 1);
    }
  }

  lemma {:induction false} LeadingPrefix(u: string, w: string)
    requires u <= w
    ensures if Leading(u, '1') < |u| then Leading(w, '1') == Leading(u, '1') else Leading(w, '1') >= |u|
  {
    if u != [] && u[0] == '1' {
      LeadingPrefix(u[1..], w[1..]);
    }
  }

  lemma {:induction false} ValuePrefix(u: seq<nat>, w: seq<nat>, b: nat)
    requires u <= w && b > 0
    ensures Value(u, b) <= Value(w, b)
  {
    hide Value, Pow;
    assert w == u + w[|u|..];
    ValueConcat(u, w[|u|..], b);
    PowPositive(b, |w| - |u|);
    MulMono(Value(u, b), Value(u, b), 1, Pow(b, |w| - |u|));
  }

  /** A longer word does not denote fewer bytes. */
  lemma {:induction false} BytesGrow(u: string, w: string)
    requires u <= w && AllSymbols(w)
    ensures AllSymbols(u) && |WordBytes(u)| <= |WordBytes(w)|
  {
    LeadingPrefix(u, w);
    var z := Leading(u, '1');
    assert forall i :: 0 <= i < |u| ==> u[i] == w[i];
    if z < |u| {
      var us, ws := SymbolValues(u[z..]), SymbolValues(w[z..]);
      assert us <= ws;
      ValuePrefix(us, ws, 58);
      DigitsMono(Value(us, 58), Value(ws, 58), 256);
    } else {
      assert u[z..] == [];
    }
  }

  /** The state after reading `u`: its bytes are `zeroes` zeros and the digits in the buffer. */
  ghost predicate Reading(u: string, zeroes: nat, buf: seq<nat>, length: nat) {
    && AllSymbols(u) && zeroes == Leading(u, '1') && Holds(buf, length, 256)
    && Value(buf, 256) == Value(SymbolValues(u[zeroes..]), 58)
  }

  lemma {:induction false} ReadBytes(u: string, zeroes: nat, buf: seq<nat>, length: nat)
    requires Reading(u, zeroes, buf, length)
    ensures AllSymbols(u) && length <= |buf|
    ensures WordBytes(u) == Repeat(0, zeroes) + buf[|buf| - length..] && |WordBytes(u)| == zeroes + length
  {
    hide Value, Digits;
    HeldDigits(buf, length, 256);
  }

  lemma {:induction false} ReadOn(u: string, zeroes: nat, buf: seq<nat>, length: nat, c: char, total: nat)
    requires Reading(u, zeroes, buf, length) && MapBase58(c) >= 0 && (zeroes == |u| ==> c != '1')
    requires |u| - zeroes < total && |buf| == total * 733 / 1000 + 1
    ensures AllSymbols(u + [c]) && Leading(u + [c], '1') == zeroes
    ensures Value(buf, 256) * 58 + MapBase58(c) == Value(SymbolValues((u + [c])[zeroes..]), 58) < Pow(256, |buf|)
  {
    var u' := u + [c];
    LeadingSplit(u, '1');
    LeadingIs(u', '1', zeroes);
    var vs, vs' := SymbolValues(u[zeroes..]), SymbolValues(u'[zeroes..]);
    hide Value, Pow, Leading, MapBase58;
    assert vs' == vs + [MapBase58(c)];
    ValueSnoc(vs, MapBase58(c), 58);
    ValueBound(vs', 58);
    PowExp(58, |vs'|, total);
    DecodeBufferSuffices(total);
  }

  lemma {:induction false} NotDecoded(str: string, p: nat, q: nat, max: int)
    requires p <= q <= |str| && DropSpaces(str) == str[p..] && forall i :: p <= i < q ==> !IsSpace(str[i])
    ensures str[p..q] <= Trimmed(str)
    ensures !AllSymbols(str[p..q]) ==> Decoded(str, max) == None
    ensures p < q && AllSymbols(str[p..q]) && |WordBytes(str[p..q])| > max ==> Decoded(str, max) == None
  {
    var u, w := str[p..q], Trimmed(str);
    WordStarts(str, p, q);
    hide DropSpaces, WordLength, Trimmed, WordBytes, MapBase58;
    assert forall i :: 0 <= i < |u| ==> u[i] == w[i];
    if AllSymbols(w) {
      BytesGrow(u, w);
    }
  }

  lemma {:induction false} WordStarts(str: string, p: nat, q: nat)
    requires p <= q <= |str| && DropSpaces(str) == str[p..] && forall i :: p <= i < q ==> !IsSpace(str[i])
    ensures str[p..q] <= Trimmed(str)
  {
    var t := DropSpaces(str);
    WordAtLeast(t, q - p);
    hide DropSpaces, WordLength;
    assert str[p..q] == t[..q - p] == Trimmed(str)[..q - p];
  }

  method DecodeBase58(str: string, maxRetLen: int) returns (r: Option<seq<nat>>)
    ensures r == Decoded(str, maxRetLen)
  {
    hide DropSpaces, WordLength, Trimmed, WordBytes, MapBase58, Leading, Value, AllSymbols;
    if '\0' in str {
      return None;
    }
    var start := 0;
    while start < |str| && IsSpace(str[start])
      invariant 0 <= start <= |str| && forall i :: 0 <= i < start ==> IsSpace(str[i])
    {
      start := start + 1;
    }
    DropSpacesIs(str, start);
    var p, zeroes := start, 0;
    while p < |str| && str[p] == '1'
      invariant start <= p <= |str| && zeroes == p - start && (zeroes > 0 ==> zeroes <= maxRetLen)
      invariant forall i :: start <= i < p ==> str[i] == '1'
    {
      zeroes := zeroes + 1;
      if zeroes > maxRetLen {
        OnesBytes(str[start..p + 1]);
        NotDecoded(str, start, p + 1, maxRetLen);
        return None;
      }
      p := p + 1;
    }
    OnesBytes(str[start..p]);
    r := DecodeWord(str, start, p, zeroes, maxRetLen);
  }

  lemma {:induction false} OnesBytes(u: string)
    requires forall i :: 0 <= i < |u| ==> u[i] == '1'
    ensures AllSymbols(u) && Leading(u, '1') == |u| && |WordBytes(u)| == |u|
    ensures Value(SymbolValues(u[|u|..]), 58) == 0
  {
    LeadingIs(u, '1', |u|);
    assert u[|u|..] == [];
  }

  /** Read the digits that follow the leading ones, and what comes after the word. */
  method DecodeWord(str: string, start: nat, first: nat, zeroes: nat, maxRetLen: int) returns (r: Option<seq<nat>>)
    requires start <= first <= |str| && '\0' !in str && DropSpaces(str) == str[start..]
    requires zeroes == first - start && (zeroes > 0 ==> zeroes <= maxRetLen) && (forall i :: start <= i < first ==>
                str[i] == '1') && (first < |str| ==> str[first] != '1')
    ensures r == Decoded(str, maxRetLen)
  {
    hide Value, Pow, Digits, Leading, DropSpaces, WordLength, Trimmed, WordBytes, Decoded, Reading, MapBase58;
    var p := first;
    var size := (|str| - p) * 733 / 1000 + 1;
    var b256 := new nat[size](_ => 0);
    var length: nat := 0;
    OnesBytes(str[start..p]);
    Empty(b256[..], 256);
    ReadStart(str[start..p], zeroes, b256[..]);
    while p < |str| && !IsSpace(str[p])
      invariant first <= p <= |str| && b256.Length == size && fresh(b256)
      invariant forall i :: start <= i < p ==> !IsSpace(str[i])
      invariant Reading(str[start..p], zeroes, b256[..], length) && (start < p ==> zeroes + length <= maxRetLen)
    {
      assert str[start..p + 1] == str[start..p] + [str[p]];
      NotDecoded(str, start, p + 1, maxRetLen);
      var carry := MapBase58(str[p]);
      assert str[start..p + 1][p - start] == str[p];
      if carry == -1 {
        return None;
      }
      length := ReadNext(b256, str[start..p], zeroes, length, str[p], carry, |str| - first);
      ReadBytes(str[start..p + 1], zeroes, b256[..], length);
      if length + zeroes > maxRetLen {
        return None;
      }
      p := p + 1;
    }
    r := FinishWord(str, start, p, zeroes, b256, length, maxRetLen);
  }

  /** Skip the white space after the word, which must be all that is left, and copy the result out. */
  method FinishWord(str: string, start: nat, stop: nat, zeroes: nat, b256: array<nat>, length: nat, maxRetLen: int)
    returns (r: Option<seq<nat>>)
    requires start <= stop <= |str| && '\0' !in str && DropSpaces(str) == str[start..]
    requires (forall i :: start <= i < stop ==> !IsSpace(str[i])) && (stop < |str| ==> IsSpace(str[stop]))
    requires Reading(str[start..stop], zeroes, b256[..], length) && (start < stop ==> zeroes + length <= maxRetLen)
    ensures r == Decoded(str, maxRetLen)
  {
    hide Value, Digits, Leading, DropSpaces, WordLength, Trimmed, WordBytes, Decoded, Reading, MapBase58;
    var p := stop;
    while p < |str| && IsSpace(str[p])
      invariant stop <= p <= |str| && forall i :: stop <= i < p ==> IsSpace(str[i])
    {
      p := p + 1;
    }
    ReadBytes(str[start..stop], zeroes, b256[..], length);
    Finished(str, start, stop, p, maxRetLen);
    if p < |str| {
      return None;
    }
    return Some(Repeat(0, zeroes) + b256[b256.Length - length..]);
  }

  lemma ReadStart(u: string, zeroes: nat, buf: seq<nat>)
    requires AllSymbols(u) && Leading(u, '1') == |u| == zeroes && Holds(buf, 0, 256) && Value(buf, 256) == 0
    requires Value(SymbolValues(u[|u|..]), 58) == 0
    ensures Reading(u, zeroes, buf, 0)
  {
  }

  method ReadNext(b256: array<nat>, ghost u: string, ghost zeroes: nat, length: nat, c: char, carry: int,
                  ghost total: nat) returns (length': nat)
    requires Reading(u, zeroes, b256[..], length) && carry == MapBase58(c) >= 0 && (zeroes == |u| ==> c != '1')
    requires |u| - zeroes < total && b256.Length == total * 733 / 1000 + 1
    modifies b256
    ensures Reading(u + [c], zeroes, b256[..], length')
  {
    ReadOn(u, zeroes, b256[..], length, c, total);
    hide Value, Pow, Leading, Holds, MapBase58;
    length' := MultiplyAdd(b256, length, 256, 58, carry);
  }

  lemma {:induction false} Finished(str: string, start: nat, stop: nat, p: nat, max: int)
    requires start <= stop <= p <= |str| && '\0' !in str && DropSpaces(str) == str[start..]
    requires (forall i :: start <= i < stop ==> !IsSpace(str[i])) && (stop < |str| ==> IsSpace(str[stop]))
    requires (forall i :: stop <= i < p ==> IsSpace(str[i])) && (p < |str| ==>
                !IsSpace(str[p])) && AllSymbols(str[start..stop])
    ensures p < |str| ==> Decoded(str, max) == None
    ensures p == |str| && (start < stop ==> |WordBytes(str[start..stop])| <= max) ==>
                Decoded(str, max) == Some(WordBytes(str[start..stop]))
  {
    var t := DropSpaces(str);
    WordAtLeast(t, stop - start);
    assert Trimmed(str) == t[..stop - start] == str[start..stop];
    hide DropSpaces, WordLength, Trimmed, WordBytes, IsSpace, MapBase58;
    assert t[stop - start..] == str[stop..];
    if p < |str| {
      assert str[stop..][p - stop] == str[p];
    }
  }
}
