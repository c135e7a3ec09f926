/** The checksum of Bech32: the remainder of a polynomial over GF(32). */
module PolyMods {

  /** Symbols are five bits wide. */
  ghost predicate AreSymbols(vs: seq<bv8>) {
    forall i :: 0 <= i < |vs| ==> vs[i] < 32
  }

  /** Addition of packed polynomials over GF(32). */
  function Plus(a: bv32, b: bv32): bv32 {
    a ^ b
  }

  /** Addition of symbols. */
  function Add(a: bv8, b: bv8): bv8 {
    a ^ b
  }

  /** The bits of `k` where `c0` has the bit `bit`. */
  function Select(c0: bv8, bit: bv8, k: bv32): bv32 {
    if c0 & bit != 0 then k else 0
  }

  /** Add to `c` the multiple of the generator for the five bits `c0` shifted out. */
  function Fold(c: bv32, c0: bv8): bv32 {
    var c1 := Plus(c, Select(c0, 1, 0x3b6a57b2));
    var c2 := Plus(c1, Select(c0, 2, 0x26508e6d));
    var c3 := Plus(c2, Select(c0, 4, 0x1ea119fa));
    Plus(Plus(c3, Select(c0, 8, 0x3d4233dd)), Select(c0, 16, 0x2a1462b3))
  }

  function Top(c: bv32): bv8 {
    (c >> 25) as bv8
  }

  function Shifted(c: bv32, v: bv8): bv32 {
    ((c & 0x1ffffff) << 5) ^ (v as bv32)
  }

  function Step(c: bv32, v: bv8): bv32 {
    Fold(Shifted(c, v), Top(c))
  }

  function Run(c: bv32, vs: seq<bv8>): bv32 {
    if vs == [] then c else Step(Run(c, vs[..|vs| - 1]), vs[|vs| - 1])
  }

  method PolyMod(v: seq<bv8>) returns (c: bv32)
    ensures c == Run(1, v)
  {
    c := 1;
    for i := 0 to |v|
      invariant c == Run(1, v[..i])
    {
      c := NextResidue(c, v[i]);
      assert v[..i + 1][..i] == v[..i];
    }
    assert v[..|v|] == v;
  }

  method NextResidue(c: bv32, v: bv8) returns (c': bv32)
    ensures c' == Step(c, v)
  {
    var c0: bv8 := (c >> 25) as bv8;
    c' := ((c & 0x1ffffff) << 5) ^ (v as bv32);
    c' := Conditionally(c', c0, 1, 0x3b6a57b2);
    c' := Conditionally(c', c0, 2, 0x26508e6d);
    c' := Conditionally(c', c0, 4, 0x1ea119fa);
    c' := Conditionally(c', c0, 8, 0x3d4233dd);
    c' := Conditionally(c', c0, 16, 0x2a1462b3);
  }

  method Conditionally(c: bv32, c0: bv8, bit: bv8, k: bv32) returns (c': bv32)
    ensures c' == Plus(c, Select(c0, bit, k))
  {
    c' := c;
    if c0 & bit != 0 {
      c' := c' ^ k;
    }
  }

  lemma {:induction false} RunConcat(c: bv32, a: seq<bv8>, b: seq<bv8>)
    ensures Run(c, a + b) == Run(Run(c, a), b)
  {
    if b == [] {
      assert a + b == a;
    } else {
      RunConcat(c, a, b[..|b| - 1]);
      assert (a + b)[..|a + b| - 1] == a + b[..|b| - 1];
    }
  }

  // ----- the step is linear, and injective on 30-bit states

  lemma PlusAssociative(a: bv32, b: bv32, c: bv32)
    ensures Plus(Plus(a, b), c) == Plus(a, Plus(b, c))
  {
  }

  lemma PlusCommutative(a: bv32, b: bv32)
    ensures Plus(a, b) == Plus(b, a)
  {
  }

  lemma Regroup(a: bv32, b: bv32, c: bv32, d: bv32)
    ensures Plus(Plus(a, b), Plus(c, d)) == Plus(Plus(a, c), Plus(b, d))
  {
    hide Plus;
    PlusAssociative(a, b, Plus(c, d));
    PlusAssociative(b, c, d);
    PlusCommutative(b, c);
    PlusAssociative(c, b, d);
    PlusAssociative(a, c, Plus(b, d));
  }

  ghost predicate IsBit(bit: bv8) {
    bit == 1 || bit == 2 || bit == 4 || bit == 8 || bit == 16
  }

  lemma BitOfSum(a: bv8, b: bv8, bit: bv8)
    requires IsBit(bit)
    ensures ((a ^ b) & bit != 0) == ((a & bit != 0) != (b & bit != 0))
  {
  }

  lemma SelectLinear(a: bv8, b: bv8, bit: bv8, k: bv32)
    requires IsBit(bit)
    ensures Select(Add(a, b), bit, k) == Plus(Select(a, bit, k), Select(b, bit, k))
  {
    BitOfSum(a, b, bit);
    assert Plus(k, k) == 0 && Plus(k, 0) == k && Plus(0, k) == k && Plus(0, 0) == 0;
    hide Plus;
  }

  lemma GateLinear(c: bv32, d: bv32, a: bv8, b: bv8, bit: bv8, k: bv32)
    requires IsBit(bit)
    ensures Plus(Plus(c, d), Select(Add(a, b), bit, k)) == Plus(Plus(c, Select(a, bit, k)), Plus(d, Select(b, bit, k)))
  {
    hide Select, Plus, Add;
    SelectLinear(a, b, bit, k);
    Regroup(c, d, Select(a, bit, k), Select(b, bit, k));
  }

  lemma FoldLinear(c: bv32, d: bv32, a: bv8, b: bv8)
    ensures Fold(Plus(c, d), Add(a, b)) == Plus(Fold(c, a), Fold(d, b))
  {
    hide Select, Plus, Add;
    var c1, d1 := Plus(c, Select(a, 1, 0x3b6a57b2)), Plus(d, Select(b, 1, 0x3b6a57b2));
    var c2, d2 := Plus(c1, Select(a, 2, 0x26508e6d)), Plus(d1, Select(b, 2, 0x26508e6d));
    var c3, d3 := Plus(c2, Select(a, 4, 0x1ea119fa)), Plus(d2, Select(b, 4, 0x1ea119fa));
    var c4, d4 := Plus(c3, Select(a, 8, 0x3d4233dd)), Plus(d3, Select(b, 8, 0x3d4233dd));
    GateLinear(c, d, a, b, 1, 0x3b6a57b2);
    GateLinear(c1, d1, a, b, 2, 0x26508e6d);
    GateLinear(c2, d2, a, b, 4, 0x1ea119fa);
    GateLinear(c3, d3, a, b, 8, 0x3d4233dd);
    GateLinear(c4, d4, a, b, 16, 0x2a1462b3);
  }

  lemma ShiftedLinear(c: bv32, d: bv32, v: bv8, w: bv8)
    ensures Shifted(Plus(c, d), Add(v, w)) == Plus(Shifted(c, v), Shifted(d, w))
    ensures Top(Plus(c, d)) == Add(Top(c), Top(d))
  {
  }

  lemma StepLinear(c: bv32, d: bv32, v: bv8, w: bv8)
    ensures Step(Plus(c, d), Add(v, w)) == Plus(Step(c, v), Step(d, w))
  {
    ShiftedLinear(c, d, v, w);
    hide Fold, Shifted, Top, Plus, Add;
    FoldLinear(Shifted(c, v), Shifted(d, w), Top(c), Top(d));
  }

  lemma FoldNone(c: bv32)
    ensures Plus(c, 0) == c && Fold(c, 0) == c
  {
    assert forall bit: bv8, k: bv32 :: Select(0, bit, k) == 0;
    assert forall d: bv32 :: Plus(d, 0) == d;
    hide Plus, Select;
  }

  lemma FoldSplit(c: bv32, c0: bv8)
    ensures Fold(c, c0) == Plus(c, Fold(0, c0))
  {
    FoldNone(c);
    assert Add(0, c0) == c0;
    hide Fold, Plus, Add;
    FoldLinear(c, 0, 0, c0);
  }

  /** Only a zero top group leaves the lowest group zero, the generator's last coefficient being invertible. */
  lemma LowGroup(c0: bv8)
    requires c0 < 32 && Fold(0, c0) & 31 == 0
    ensures c0 == 0
  {
  }

  lemma StepInjective(d: bv32)
    requires d < 0x40000000 && Step(d, 0) == 0
    ensures d == 0
  {
    FoldSplit(Shifted(d, 0), Top(d));
    var f := Fold(0, Top(d));
    assert Fold(0, 0) == 0;
    hide Fold;
    assert Top(d) < 32 && f & 31 == 0;
    LowGroup(Top(d));
  }

  lemma StepBound(c: bv32, v: bv8)
    requires v < 32
    ensures Step(c, v) < 0x40000000
  {
  }

  // ----- arithmetic in GF(32) = GF(2)[a] / (a^5 + a^3 + 1)

  function Double(a: bv8): bv8 {
    (a << 1) ^ (if a & 16 != 0 then 41 else 0)
  }

  function Times(a: bv8, b: bv8): bv8 {
    var b2 := Double(b);
    var b4 := Double(b2);
    var b8 := Double(b4);
    Add(Add(Add(Add(if a & 1 != 0 then b else 0, if a & 2 != 0 then b2 else 0), if a & 4 != 0 then b4 else 0),
            if a & 8 != 0 then b8 else 0), if a & 16 != 0 then Double(b8) else 0)
  }

  // The five-bit groups of a residue, the coefficient of x^5 first.
  function Group0(c: bv32): bv8 { ((c >> 25) & 31) as bv8 }
  function Group1(c: bv32): bv8 { ((c >> 20) & 31) as bv8 }
  function Group2(c: bv32): bv8 { ((c >> 15) & 31) as bv8 }
  function Group3(c: bv32): bv8 { ((c >> 10) & 31) as bv8 }
  function Group4(c: bv32): bv8 { ((c >> 5) & 31) as bv8 }
  function Group5(c: bv32): bv8 { (c & 31) as bv8 }

  function Group(c: bv32, i: nat): bv8
    requires i < 6
  {
    match i
    case 0 => Group0(c)
    case 1 => Group1(c)
    case 2 => Group2(c)
    case 3 => Group3(c)
    case 4 => Group4(c)
    case _ => Group5(c)
  }

  /** The coefficients of the generating polynomial, from x^6 down. */
  function Generator(i: nat): bv8
    requires i < 7
  {
    match i
    case 0 => 1
    case 1 => 29
    case 2 => 22
    case 3 => 20
    case 4 => 21
    case 5 => 29
    case _ => 18
  }

  /** The packed constants are the multiples of the generator's lower part. */
  lemma FoldGroups(c0: bv8)
    requires c0 < 32
    ensures Group0(Fold(0, c0)) == Times(c0, 29)
    ensures Group1(Fold(0, c0)) == Times(c0, 22)
    ensures Group2(Fold(0, c0)) == Times(c0, 20)
    ensures Group3(Fold(0, c0)) == Times(c0, 21)
    ensures Group4(Fold(0, c0)) == Times(c0, 29)
    ensures Group5(Fold(0, c0)) == Times(c0, 18)
  {
  }

  /** Multiplying by x and adding `v`: the top coefficient comes back as its multiple of the generator. */
  lemma {:induction false} StepGroups(c: bv32, v: bv8, i: nat)
    requires c < 0x40000000 && v < 32 && i < 6
    ensures Group(Step(c, v), i) == Add(if i < 5 then Group(c, i + 1) else v, Times(Group(c, 0), Generator(i + 1)))
  {
    var s, f := Shifted(c, v), Fold(0, Top(c));
    hide Fold, Times, Add, Group0, Group1, Group2, Group3, Group4, Group5, Shifted, Top, Plus;
    TopGroup(c);
    FoldGroups(Top(c));
    FoldSplit(s, Top(c));
    ShiftedGroups(c, v);
    match i {
      case 0 => Group0Sum(s, f);
      case 1 => Group1Sum(s, f);
      case 2 => Group2Sum(s, f);
      case 3 => Group3Sum(s, f);
      case 4 => Group4Sum(s, f);
      case _ => Group5Sum(s, f);
    }
  }

  lemma TopGroup(c: bv32)
    requires c < 0x40000000
    ensures Top(c) == Group0(c) < 32
  {
  }

  lemma Group0Sum(c: bv32, d: bv32)
    ensures Group0(Plus(c, d)) == Add(Group0(c), Group0(d))
  {
  }

  lemma Group1Sum(c: bv32, d: bv32)
    ensures Group1(Plus(c, d)) == Add(Group1(c), Group1(d))
  {
  }

  lemma Group2Sum(c: bv32, d: bv32)
    ensures Group2(Plus(c, d)) == Add(Group2(c), Group2(d))
  {
  }

  lemma Group3Sum(c: bv32, d: bv32)
    ensures Group3(Plus(c, d)) == Add(Group3(c), Group3(d))
  {
  }

  lemma Group4Sum(c: bv32, d: bv32)
    ensures Group4(Plus(c, d)) == Add(Group4(c), Group4(d))
  {
  }

  lemma Group5Sum(c: bv32, d: bv32)
    ensures Group5(Plus(c, d)) == Add(Group5(c), Group5(d))
  {
  }

  lemma ShiftedGroups(c: bv32, v: bv8)
    requires v < 32
    ensures Group0(Shifted(c, v)) == Group1(c) && Group1(Shifted(c, v)) == Group2(c)
    ensures Group2(Shifted(c, v)) == Group3(c) && Group3(Shifted(c, v)) == Group4(c)
    ensures Group4(Shifted(c, v)) == Group5(c) && Group5(Shifted(c, v)) == v
  {
  }

  lemma TimesZero(b: bv8)
    ensures Times(0, b) == 0
  {
  }

  lemma TimesOne(a: bv8)
    requires a < 32
    ensures Times(a, 1) == a
  {
  }

  lemma GroupsDiffer(c: bv32, d: bv32)
    requires c < 0x40000000 && d < 0x40000000 && forall i :: 0 <= i < 6 ==> Group(c, i) == Group(d, i)
    ensures c == d
  {
    assert Group(c, 0) == Group(d, 0) && Group(c, 1) == Group(d, 1) && Group(c, 2) == Group(d, 2);
    assert Group(c, 3) == Group(d, 3) && Group(c, 4) == Group(d, 4) && Group(c, 5) == Group(d, 5);
  }

  // ----- runs

  function Sum(vs: seq<bv8>, ws: seq<bv8>): seq<bv8>
    requires |vs| == |ws|
  {
    seq(|vs|, i requires 0 <= i < |vs| => Add(vs[i], ws[i]))
  }

  function Zeros(n: nat): (z: seq<bv8>)
    ensures |z| == n
  {
    seq(n, _ => 0)
  }

  lemma {:induction false} RunLinear(c: bv32, d: bv32, vs: seq<bv8>, ws: seq<bv8>)
    requires |vs| == |ws|
    ensures Run(Plus(c, d), Sum(vs, ws)) == Plus(Run(c, vs), Run(d, ws))
  {
    hide Step, Plus, Add;
    if vs != [] {
      var n := |vs| - 1;
      RunLinear(c, d, vs[..n], ws[..n]);
      assert Sum(vs, ws)[..n] == Sum(vs[..n], ws[..n]);
      StepLinear(Run(c, vs[..n]), Run(d, ws[..n]), vs[n], ws[n]);
    }
  }

  lemma {:induction false} RunBound(c: bv32, vs: seq<bv8>)
    requires AreSymbols(vs) && (vs == [] ==> c < 0x40000000)
    ensures Run(c, vs) < 0x40000000
  {
    if vs != [] {
      StepBound(Run(c, vs[..|vs| - 1]), vs[|vs| - 1]);
    }
  }

  /** Up to six symbols are simply packed. */
  lemma {:induction false} RunPacks(vs: seq<bv8>, i: nat)
    requires |vs| <= 6 && AreSymbols(vs) && i < 6
    ensures Group(Run(0, vs), i) == if i < 6 - |vs| then 0 else vs[i - (6 - |vs|)]
  {
    hide Step, Times, Group, Add;
    if vs == [] {
      ZeroGroup(i);
    } else {
      var n := |vs| - 1;
      RunBound(0, vs[..n]);
      RunPacks(vs[..n], 0);
      if i < 5 {
        RunPacks(vs[..n], i + 1);
      }
      StepGroups(Run(0, vs[..n]), vs[n], i);
      TimesZero(Generator(i + 1));
      Cancel(if i < 5 then Group(Run(0, vs[..n]), i + 1) else vs[n], 0, 0);
    }
  }

  lemma ZeroGroup(i: nat)
    requires i < 6
    ensures Group(0, i) == 0
  {
  }

  /** A non-zero difference never dies out. */
  lemma {:induction false} DifferenceStays(d: bv32, n: nat)
    requires 0 < d < 0x40000000
    ensures 0 < Run(d, Zeros(n)) < 0x40000000
  {
    if n > 0 {
      hide Step;
      DifferenceStays(d, n - 1);
      assert Zeros(n)[..n - 1] == Zeros(n - 1);
      StepNonzero(Run(d, Zeros(n - 1)));
    }
  }

  lemma StepNonzero(d: bv32)
    requires 0 < d < 0x40000000
    ensures 0 < Step(d, 0) < 0x40000000
  {
    hide Step;
    StepBound(d, 0);
    if Step(d, 0) == 0 {
      StepInjective(d);
    }
  }

  /** Changing at most six consecutive symbols changes the checksum. */
  lemma {:induction false} BurstDetected(c: bv32, a: seq<bv8>, x: seq<bv8>, y: seq<bv8>, b: seq<bv8>)
    requires AreSymbols(x) && AreSymbols(y) && |x| == |y| <= 6 && x != y
    ensures Run(c, a + x + b) != Run(c, a + y + b)
  {
    hide Plus, Add;
    RunConcat(c, a + x, b);
    RunConcat(c, a, x);
    RunConcat(c, a + y, b);
    RunConcat(c, a, y);
    var m := Run(c, a);
    var cx, cy := Run(m, x), Run(m, y);
    var d := Run(0, Sum(x, y));
    PlusSelf(m);
    RunLinear(m, m, x, y);
    assert d == Plus(cx, cy);
    DifferenceNonzero(x, y);
    DifferenceStays(d, |b|);
    RunLinear(cx, cy, b, b);
    assert Sum(b, b) == Zeros(|b|) by {
      forall i | 0 <= i < |b| ensures Add(b[i], b[i]) == 0 {
        SymbolSelf(b[i]);
      }
    }
    PlusSelf(Run(cx, b));
  }

  lemma PlusSelf(c: bv32)
    ensures Plus(c, c) == 0
  {
  }

  lemma SymbolSelf(v: bv8)
    ensures Add(v, v) == 0
  {
  }

  lemma SymbolSum(v: bv8, w: bv8)
    requires v < 32 && w < 32
    ensures Add(v, w) < 32 && (Add(v, w) == 0 <==> v == w)
  {
  }

  lemma {:induction false} DifferenceNonzero(x: seq<bv8>, y: seq<bv8>)
    requires AreSymbols(x) && AreSymbols(y) && |x| == |y| <= 6 && x != y
    ensures 0 < Run(0, Sum(x, y)) < 0x40000000
  {
    hide Group, Run, Add;
    var s := Sum(x, y);
    forall i | 0 <= i < |x| ensures s[i] < 32 {
      SymbolSum(x[i], y[i]);
    }
    var k :| 0 <= k < |x| && x[k] != y[k];
    SymbolSum(x[k], y[k]);
    RunBound(0, s);
    RunPacks(s, 6 - |s| + k);
    ZeroGroup(6 - |s| + k);
  }

  // ----- the remainder

  /** The generator times the symbol `a`. */
  function Scaled(a: bv8): (p: seq<bv8>)
    ensures |p| == 7
  {
    seq(7, i requires 0 <= i < 7 => Times(a, Generator(i)))
  }

  /** The product of the polynomial `q` and the generator, highest power first. */
  ghost function TimesGenerator(q: seq<bv8>): (p: seq<bv8>)
    ensures |p| == |q| + 6
  {
    if q == [] then Zeros(6)
    else
      var n := |q| - 1;
      Sum(TimesGenerator(q[..n]) + [0], Zeros(n) + Scaled(q[n]))
  }

  /** The six coefficients packed in `c`. */
  function Residue(c: bv32): (r: seq<bv8>)
    ensures |r| == 6
  {
    seq(6, i requires 0 <= i < 6 => Group(c, i))
  }

  /** The symbols `vs` with the implicit one in front, as coefficients of a polynomial of degree |vs|. */
  function Message(vs: seq<bv8>): (p: seq<bv8>)
    ensures |p| == |vs| + 6
  {
    [0, 0, 0, 0, 0, 1] + vs
  }

  /** The top coefficients met on the way. */
  ghost function Quotient(vs: seq<bv8>): (q: seq<bv8>)
    ensures |q| == |vs|
  {
    if vs == [] then []
    else Quotient(vs[..|vs| - 1]) + [Group(Run(1, vs[..|vs| - 1]), 0)]
  }

  /** The polynomial of the symbols `vs` is a multiple of the generator plus the residue. */
  lemma {:induction false} RemainderOf(vs: seq<bv8>)
    requires AreSymbols(vs)
    ensures Sum(TimesGenerator(Quotient(vs)), Zeros(|vs|) + Residue(Run(1, vs))) == Message(vs)
  {
    if vs == [] {
      assert Residue(1) == [0, 0, 0, 0, 0, 1];
      assert Sum(Zeros(6), Zeros(0) + Residue(1)) == Message(vs);
    } else {
      var n := |vs| - 1;
      RemainderOf(vs[..n]);
      RemainderStep(vs);
    }
  }

  lemma {:induction false} TimesQuotient(vs: seq<bv8>)
    requires vs != []
    ensures var n := |vs| - 1;
            TimesGenerator(Quotient(vs)) == Sum(TimesGenerator(Quotient(vs[..n])) + [0],
                Zeros(n) + Scaled(Group(Run(1, vs[..n]), 0)))
  {
    var n := |vs| - 1;
    assert Quotient(vs)[..n] == Quotient(vs[..n]);
  }

  lemma {:induction false} RemainderStep(vs: seq<bv8>)
    requires vs != [] && AreSymbols(vs)
    requires Sum(TimesGenerator(Quotient(vs[..|vs| - 1])),
                Zeros(|vs| - 1) + Residue(Run(1, vs[..|vs| - 1]))) == Message(vs[..|vs| - 1])
    ensures Sum(TimesGenerator(Quotient(vs)), Zeros(|vs|) + Residue(Run(1, vs))) == Message(vs)
  {
    var n := |vs| - 1;
    var c, v := Run(1, vs[..n]), vs[n];
    assert AreSymbols(vs[..n]) && v < 32;
    hide *;
    RunBound(1, vs[..n]);
    var t := TimesGenerator(Quotient(vs[..n]));
    TimesQuotient(vs);
    forall j | 0 <= j < n + 7 ensures CoefficientKept(t, n, c, v, j) {
      CoefficientStep(t, n, c, v, j);
    }
    SumsAgree(t, n, c, v);
    MessageLast(vs);
    RunLast(1, vs);
  }

  lemma {:induction false} MessageLast(vs: seq<bv8>)
    requires vs != []
    ensures Message(vs) == Message(vs[..|vs| - 1]) + [vs[|vs| - 1]]
  {
  }

  lemma RunLast(c: bv32, vs: seq<bv8>)
    requires vs != []
    ensures Run(c, vs) == Step(Run(c, vs[..|vs| - 1]), vs[|vs| - 1])
  {
  }

  /** Coefficient `j` before and after one more symbol, `t` being the multiple of the generator so far. */
  ghost predicate CoefficientKept(t: seq<bv8>, n: nat, c: bv32, v: bv8, j: nat)
    requires |t| == n + 6 && j < n + 7
  {
    Add(Add((t + [0])[j], (Zeros(n) + Scaled(Group(c, 0)))[j]), (Zeros(n + 1) + Residue(Step(c, v)))[j]) ==
    if j < n + 6 then Add(t[j], (Zeros(n) + Residue(c))[j]) else v
  }

  lemma {:induction false} SumsAgree(t: seq<bv8>, n: nat, c: bv32, v: bv8)
    requires |t| == n + 6 && forall j :: 0 <= j < n + 7 ==> CoefficientKept(t, n, c, v, j)
    ensures Sum(Sum(t + [0], Zeros(n) + Scaled(Group(c, 0))), Zeros(n + 1) + Residue(Step(c, v))) ==
            Sum(t, Zeros(n) + Residue(c)) + [v]
  {
    hide Add, Zeros, Scaled, Residue, Group, Step;
    var a, b := Sum(Sum(t + [0], Zeros(n) + Scaled(Group(c, 0))), Zeros(n + 1) + Residue(Step(c, v))),
        Sum(t, Zeros(n) + Residue(c)) + [v];
    forall j | 0 <= j < n + 7 ensures a[j] == b[j] {
      assert CoefficientKept(t, n, c, v, j);
    }
  }

  lemma {:induction false} CoefficientStep(t: seq<bv8>, n: nat, c: bv32, v: bv8, j: nat)
    requires |t| == n + 6 && c < 0x40000000 && v < 32 && j < n + 7
    ensures CoefficientKept(t, n, c, v, j)
  {
    hide Add, Step, Times, Group0, Group1, Group2, Group3, Group4, Group5;
    if j < n {
      Cancel(t[j], 0, 0);
    } else if j == n {
      TopGroup(c);
      TimesOne(Group(c, 0));
      Cancel(Add(t[j], Group(c, 0)), 0, 0);
    } else {
      var i := j - n;
      var x := Times(Group(c, 0), Generator(i));
      StepGroups(c, v, i - 1);
      if i < 6 {
        Cancel(t[j], Group(c, i), x);
      } else {
        Cancel(0, v, x);
        Cancel(v, 0, 0);
      }
    }
  }

  lemma Cancel(a: bv8, b: bv8, x: bv8)
    ensures Add(Add(a, x), Add(b, x)) == Add(a, b) && Add(0, a) == Add(a, 0) == a
  {
  }
}
