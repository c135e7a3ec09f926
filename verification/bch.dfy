/** The generator of Bech32 has three consecutive powers of `e` as roots, so three errors are always detected. */
module BchCodes {
  import opened PolyMods
  import opened ExtensionField

  /** The value at `k` of the polynomial with coefficients `cs`, the highest first. */
  ghost function At(k: bv10, cs: seq<bv8>): bv10 {
    if cs == [] then 0 else Plus10(Mul(k, At(k, cs[..|cs| - 1])), Embed(cs[|cs| - 1]))
  }

  lemma {:induction false} AtSnoc(k: bv10, cs: seq<bv8>, v: bv8)
    ensures At(k, cs + [v]) == Plus10(Mul(k, At(k, cs)), Embed(v))
  {
    assert (cs + [v])[..|cs + [v]| - 1] == cs;
  }

  // ----- roots of the generator

  /** The value at `k` of the generator's first `n` coefficients. */
  ghost function Partial(k: bv10, n: nat): bv10
    requires n <= 7
  {
    if n == 0 then 0 else Plus10(Mul(k, Partial(k, n - 1)), Embed(Generator(n - 1)))
  }

  lemma {:induction false} MultipleAt(k: bv10, g: bv8, n: nat)
    requires g < 32 && n <= 7
    ensures At(k, Scaled(g)[..n]) == Scale(g, Partial(k, n))
  {
    hide Mul, Times, Plus10, Embed, Scale;
    if n == 0 {
      ScaleZero(g);
    } else {
      var c := Generator(n - 1);
      MultipleAt(k, g, n - 1);
      assert Scaled(g)[..n] == Scaled(g)[..n - 1] + [Times(g, c)];
      AtSnoc(k, Scaled(g)[..n - 1], Times(g, c));
      MulScale(k, g, Partial(k, n - 1));
      EmbedScale(g, c);
      ScaleSum(g, Mul(k, Partial(k, n - 1)), Embed(c));
    }
  }

  ghost predicate IsRoot(k: bv10) {
    Partial(k, 7) == 0
  }

  lemma PartialStep(k: bv10, n: nat, p: bv10, q: bv10)
    requires n < 7 && Partial(k, n) == p && Plus10(Mul(k, p), Embed(Generator(n))) == q
    ensures Partial(k, n + 1) == q
  {
  }

  lemma Root997()
    ensures IsRoot(445)
  {
    assert Partial(445, 0) == 0;
    assert Plus10(Mul(445, 0), Embed(Generator(0))) == 1;
    assert Plus10(Mul(445, 1), Embed(Generator(1))) == 416;
    assert Plus10(Mul(445, 416), Embed(Generator(2))) == 742;
    assert Plus10(Mul(445, 742), Embed(Generator(3))) == 753;
    assert Plus10(Mul(445, 753), Embed(Generator(4))) == 580;
    assert Plus10(Mul(445, 580), Embed(Generator(5))) == 90;
    assert Plus10(Mul(445, 90), Embed(Generator(6))) == 0;
    hide Mul, Plus10, Embed, Partial;
    PartialStep(445, 0, 0, 1);
    PartialStep(445, 1, 1, 416);
    PartialStep(445, 2, 416, 742);
    PartialStep(445, 3, 742, 753);
    PartialStep(445, 4, 753, 580);
    PartialStep(445, 5, 580, 90);
    PartialStep(445, 6, 90, 0);
  }

  lemma Root998()
    ensures IsRoot(101)
  {
    assert Partial(101, 0) == 0;
    assert Plus10(Mul(101, 0), Embed(Generator(0))) == 1;
    assert Plus10(Mul(101, 1), Embed(Generator(1))) == 120;
    assert Plus10(Mul(101, 120), Embed(Generator(2))) == 332;
    assert Plus10(Mul(101, 332), Embed(Generator(3))) == 229;
    assert Plus10(Mul(101, 229), Embed(Generator(4))) == 239;
    assert Plus10(Mul(101, 239), Embed(Generator(5))) == 812;
    assert Plus10(Mul(101, 812), Embed(Generator(6))) == 0;
    hide Mul, Plus10, Embed, Partial;
    PartialStep(101, 0, 0, 1);
    PartialStep(101, 1, 1, 120);
    PartialStep(101, 2, 120, 332);
    PartialStep(101, 3, 332, 229);
    PartialStep(101, 4, 229, 239);
    PartialStep(101, 5, 239, 812);
    PartialStep(101, 6, 812, 0);
  }

  lemma Root999()
    ensures IsRoot(976)
  {
    assert Partial(976, 0) == 0;
    assert Plus10(Mul(976, 0), Embed(Generator(0))) == 1;
    assert Plus10(Mul(976, 1), Embed(Generator(1))) == 973;
    assert Plus10(Mul(976, 973), Embed(Generator(2))) == 954;
    assert Plus10(Mul(976, 954), Embed(Generator(3))) == 37;
    assert Plus10(Mul(976, 37), Embed(Generator(4))) == 691;
    assert Plus10(Mul(976, 691), Embed(Generator(5))) == 376;
    assert Plus10(Mul(976, 376), Embed(Generator(6))) == 0;
    hide Mul, Plus10, Embed, Partial;
    PartialStep(976, 0, 0, 1);
    PartialStep(976, 1, 1, 973);
    PartialStep(976, 2, 973, 954);
    PartialStep(976, 3, 954, 37);
    PartialStep(976, 4, 37, 691);
    PartialStep(976, 5, 691, 376);
    PartialStep(976, 6, 376, 0);
  }

  // ----- the remainder and the word agree at a root

  lemma {:induction false} AtSum(k: bv10, j: nat, a: seq<bv8>, b: seq<bv8>)
    requires |a| == |b| && Raise(1, j) == k
    ensures At(k, Sum(a, b)) == Plus10(At(k, a), At(k, b))
  {
    hide Mul, Plus10, Embed, Add, Raise;
    if a == [] {
      assert Plus10(0, 0) == 0 by { PlusNone(0); }
    } else {
      var n := |a| - 1;
      var p, q := a[..n], b[..n];
      AtSum(k, j, p, q);
      assert Sum(a, b) == Sum(p, q) + [Add(a[n], b[n])];
      AtSnoc(k, Sum(p, q), Add(a[n], b[n]));
      MulPlus(k, j, At(k, p), At(k, q));
      EmbedSum(a[n], b[n]);
      Regroup10(Mul(k, At(k, p)), Mul(k, At(k, q)), Embed(a[n]), Embed(b[n]));
    }
  }

  lemma EmbedSum(a: bv8, b: bv8)
    ensures Embed(Add(a, b)) == Plus10(Embed(a), Embed(b))
  {
  }

  lemma Associative10(a: bv10, b: bv10, c: bv10)
    ensures Plus10(Plus10(a, b), c) == Plus10(a, Plus10(b, c)) && Plus10(a, b) == Plus10(b, a)
  {
  }

  lemma Regroup10(a: bv10, b: bv10, c: bv10, d: bv10)
    ensures Plus10(Plus10(a, b), Plus10(c, d)) == Plus10(Plus10(a, c), Plus10(b, d))
  {
    hide Plus10;
    Associative10(a, b, Plus10(c, d));
    Associative10(b, c, d);
    Associative10(c, b, d);
    Associative10(a, c, Plus10(b, d));
  }

  lemma MulPlus(k: bv10, j: nat, v: bv10, w: bv10)
    requires Raise(1, j) == k
    ensures Mul(k, Plus10(v, w)) == Plus10(Mul(k, v), Mul(k, w))
  {
    hide Mul, Plus10, Raise;
    RaiseIsMul(v, j);
    RaiseIsMul(w, j);
    RaiseIsMul(Plus10(v, w), j);
    RaiseLinear(v, w, j);
  }

  lemma {:induction false} AtZeroFirst(k: bv10, j: nat, cs: seq<bv8>)
    requires Raise(1, j) == k
    ensures Mul(k, 0) == 0 && At(k, [0] + cs) == At(k, cs)
  {
    hide Mul, Raise, Plus10;
    MulPlus(k, j, 0, 0);
    Cancels(0, 0);
    Cancels(Mul(k, 0), Mul(k, 0));
    if cs == [] {
      AtSnoc(k, [], 0);
      assert [] + [0] == [0] + cs;
    } else {
      var n := |cs| - 1;
      AtZeroFirst(k, j, cs[..n]);
      assert [0] + cs == [0] + cs[..n] + [cs[n]];
      AtSnoc(k, [0] + cs[..n], cs[n]);
    }
  }

  /** One step of the checksum, at a root: multiply by it and add the symbol. */
  lemma {:induction false} StepAt(k: bv10, j: nat, c: bv32, v: bv8)
    requires IsRoot(k) && Raise(1, j) == k && c < 0x40000000 && v < 32
    ensures At(k, Residue(Step(c, v))) == Plus10(Mul(k, At(k, Residue(c))), Embed(v))
  {
    hide Mul, Raise, Plus10, Step, Group, Residue, Scaled, Scale, Embed, Partial, Times;
    var g := Group(c, 0);
    var a, b := Residue(c) + [v], [0] + Residue(Step(c, v));
    GroupBound(c);
    StepDifference(c, v);
    AtSum(k, j, a, b);
    assert Scaled(g)[..7] == Scaled(g);
    MultipleAt(k, g, 7);
    ScaleZero(g);
    AtZeroFirst(k, j, Residue(Step(c, v)));
    AtSnoc(k, Residue(c), v);
    Cancels(At(k, a), At(k, b));
  }

  lemma {:induction false} StepDifference(c: bv32, v: bv8)
    requires c < 0x40000000 && v < 32
    ensures Sum(Residue(c) + [v], [0] + Residue(Step(c, v))) == Scaled(Group(c, 0))
  {
    hide Step, Group, Times, Add;
    var a, b := Residue(c) + [v], [0] + Residue(Step(c, v));
    forall i | 0 <= i < 7
      ensures Add(a[i], b[i]) == Times(Group(c, 0), Generator(i))
    {
      if i == 0 {
        Cancel(Group(c, 0), 0, 0);
        GroupBound(c);
        TimesOne(Group(c, 0));
      } else {
        StepGroups(c, v, i - 1);
        CancelFirst(a[i], Times(Group(c, 0), Generator(i)));
      }
    }
  }

  lemma GroupBound(c: bv32)
    ensures Group(c, 0) < 32
  {
  }

  lemma CancelFirst(a: bv8, b: bv8)
    ensures Add(a, Add(a, b)) == b
  {
  }

  /** The remainder that a run from zero leaves has the value of the whole word at each root. */
  lemma {:induction false} RunAt(k: bv10, j: nat, vs: seq<bv8>)
    requires IsRoot(k) && Raise(1, j) == k && AreSymbols(vs)
    ensures At(k, Residue(Run(0, vs))) == At(k, vs)
  {
    hide Mul, Raise, Plus10, Step, IsRoot, Embed;
    if vs == [] {
      NoResidue(k, j);
    } else {
      var n := |vs| - 1;
      RunAt(k, j, vs[..n]);
      RunBound(0, vs[..n]);
      StepAt(k, j, Run(0, vs[..n]), vs[n]);
    }
  }

  lemma NoResidue(k: bv10, j: nat)
    requires Raise(1, j) == k
    ensures At(k, Residue(0)) == 0
  {
    hide Mul, Raise, Plus10;
    forall i | 0 <= i < 6
      ensures Group(0, i) == 0
    {
      ZeroGroup(i);
    }
    assert Residue(0) == Zeros(6);
    hide Residue;
    AtZeros(k, j, 6);
  }

  lemma {:induction false} AtZeros(k: bv10, j: nat, n: nat)
    requires Raise(1, j) == k
    ensures At(k, Zeros(n)) == 0
  {
    hide Mul, Raise, Plus10;
    if n > 0 {
      AtZeros(k, j, n - 1);
      assert Zeros(n) == [0] + Zeros(n - 1);
      AtZeroFirst(k, j, Zeros(n - 1));
    }
  }

  // ----- three unknowns, three equations

  ghost function Sum3(a: bv10, b: bv10, c: bv10): bv10 {
    Plus10(Plus10(a, b), c)
  }

  lemma RaiseSum3(a: bv10, b: bv10, c: bv10, n: nat)
    ensures Raise(Sum3(a, b, c), n) == Sum3(Raise(a, n), Raise(b, n), Raise(c, n))
  {
    hide Plus10, Raise;
    RaiseLinear(Plus10(a, b), c, n);
    RaiseLinear(a, b, n);
  }

  /** Two sums that are both zero, with the same first term. */
  lemma Eliminate(a: bv10, b: bv10, c: bv10, b': bv10, c': bv10)
    requires Sum3(a, b, c) == 0 && Sum3(a, b', c') == 0
    ensures Plus10(b, b') == Plus10(c, c')
  {
    hide Plus10;
    Cancels(Plus10(a, b), c);
    Cancels(Plus10(a, b'), c');
    Regroup10(a, b, a, b');
    Cancels(a, a);
    Associative10(0, Plus10(b, b'), 0);
    PlusNone(Plus10(b, b'));
  }

  lemma PlusNone(a: bv10)
    ensures Plus10(0, a) == a && Plus10(a, 0) == a
  {
  }

  lemma RaiseZero(n: nat)
    ensures Raise(0, n) == 0
  {
    hide Plus10, NextPower;
    Cancels(0, 0);
    RaiseLinear(0, 0, n);
    Cancels(Raise(0, n), Raise(0, n));
  }

  /** Two distinct powers of `e` never act alike. */
  lemma {:induction false} Separate(v: bv10, m: nat, n: nat)
    requires m < n < m + 1023 && Raise(v, m) == Raise(v, n)
    ensures v == 0
  {
    hide Raise;
    RaiseAdd(v, n - m, m);
    RaiseCancel(v, Raise(v, n - m), m);
    Period(v, n - m);
  }

  /** A combination of three distinct powers that vanishes at three consecutive exponents has no terms. */
  lemma {:induction false} Vandermonde(a: bv10, b: bv10, c: bv10, m: nat, n: nat, p: nat)
    requires p < n < m < p + 1023
    requires Sum3(a, b, c) == 0 && Sum3(Raise(a, m), Raise(b, n), Raise(c, p)) == 0
    requires Sum3(Raise(a, m + m), Raise(b, n + n), Raise(c, p + p)) == 0
    ensures a == 0 && b == 0 && c == 0
  {
    hide Plus10, Raise, Sum3;
    var u, v := Plus10(Raise(b, m), Raise(b, n)), Plus10(Raise(c, m), Raise(c, p));
    assert u == v by {
      FirstElimination(a, b, c, Raise(b, n), Raise(c, p), m);
    }
    assert Raise(u, n) == Raise(v, p) by {
      SecondElimination(a, b, c, m, n, p);
    }
    Separate(v, p, n);
    Cancels(Raise(c, m), Raise(c, p));
    Separate(c, p, m);
    Cancels(Raise(b, m), Raise(b, n));
    Separate(b, n, m);
    LastOne(a);
  }

  lemma LastOne(a: bv10)
    requires Sum3(a, 0, 0) == 0
    ensures a == 0
  {
  }

  lemma FirstElimination(a: bv10, b: bv10, c: bv10, b': bv10, c': bv10, m: nat)
    requires Sum3(a, b, c) == 0 && Sum3(Raise(a, m), b', c') == 0
    ensures Plus10(Raise(b, m), b') == Plus10(Raise(c, m), c')
  {
    hide Plus10, Raise, Sum3;
    RaiseSum3(a, b, c, m);
    RaiseZero(m);
    Eliminate(Raise(a, m), Raise(b, m), Raise(c, m), b', c');
  }

  lemma {:induction false} SecondElimination(a: bv10, b: bv10, c: bv10, m: nat, n: nat, p: nat)
    requires Sum3(Raise(a, m), Raise(b, n), Raise(c, p)) == 0
    requires Sum3(Raise(a, m + m), Raise(b, n + n), Raise(c, p + p)) == 0
    ensures Raise(Plus10(Raise(b, m), Raise(b, n)), n) == Raise(Plus10(Raise(c, m), Raise(c, p)), p)
  {
    hide Plus10, Raise, Sum3;
    RaiseAdd(a, m, m);
    RaiseAdd(b, n, n);
    RaiseAdd(c, p, p);
    FirstElimination(Raise(a, m), Raise(b, n), Raise(c, p), Raise(b, n + n), Raise(c, p + p), m);
    RaiseTwice(b, n, m);
    RaiseTwice(c, p, m);
    RaiseLinear(Raise(b, m), Raise(b, n), n);
    RaiseLinear(Raise(c, m), Raise(c, p), p);
  }

  // ----- words that differ in three places

  /** The word of length `n` with only `v`, `m` places from the end. */
  ghost function Single(n: nat, v: bv8, m: nat): (s: seq<bv8>)
    requires m < n
    ensures |s| == n
  {
    Zeros(n - 1 - m) + [v] + Zeros(m)
  }

  lemma {:induction false} AtShift(k: bv10, j: nat, s: seq<bv8>, m: nat)
    requires Raise(1, j) == k
    ensures At(k, s + Zeros(m)) == Raise(At(k, s), j * m)
  {
    hide Mul, NextPower, Plus10, At;
    if m == 0 {
      assert s + Zeros(0) == s;
      assert j * 0 == 0;
    } else {
      AtShift(k, j, s, m - 1);
      var w := At(k, s + Zeros(m - 1));
      assert s + Zeros(m) == s + Zeros(m - 1) + [0];
      AtSnoc(k, s + Zeros(m - 1), 0);
      PlusNone(Mul(k, w));
      RaiseIsMul(w, j);
      RaiseAdd(At(k, s), j * (m - 1), j);
      assert j * (m - 1) + j == j * m;
    }
  }

  lemma {:induction false} AtSingle(k: bv10, j: nat, n: nat, v: bv8, m: nat)
    requires Raise(1, j) == k && m < n
    ensures At(k, Single(n, v, m)) == Raise(Embed(v), j * m)
  {
    hide Mul, Raise, Plus10;
    AtShift(k, j, Zeros(n - 1 - m) + [v], m);
    AtZeros(k, j, n - 1 - m);
    AtSnoc(k, Zeros(n - 1 - m), v);
    AtZeroFirst(k, j, []);
    PlusNone(Embed(v));
  }

  /** A word with at most three symbols that are not zero, at a root. */
  lemma {:induction false} AtThree(k: bv10, j: nat, d: seq<bv8>, x: bv8, y: bv8, z: bv8, m: nat, n: nat, p: nat)
    requires Raise(1, j) == k && m < |d| && n < |d| && p < |d|
    requires d == Sum(Sum(Single(|d|, x, m), Single(|d|, y, n)), Single(|d|, z, p))
    ensures At(k, d) == Sum3(Raise(Embed(x), j * m), Raise(Embed(y), j * n), Raise(Embed(z), j * p))
  {
    hide Mul, Raise, Plus10, Single;
    AtSum(k, j, Single(|d|, x, m), Single(|d|, y, n));
    AtSum(k, j, Sum(Single(|d|, x, m), Single(|d|, y, n)), Single(|d|, z, p));
    AtSingle(k, j, |d|, x, m);
    AtSingle(k, j, |d|, y, n);
    AtSingle(k, j, |d|, z, p);
  }

  ghost predicate OnlyAt(d: seq<bv8>, i: nat, j: nat, k: nat) {
    forall m :: 0 <= m < |d| && d[m] != 0 ==> m == i || m == j || m == k
  }

  lemma {:induction false} SingleAt(n: nat, v: bv8, i: nat, t: nat)
    requires i < n && t < n
    ensures Single(n, v, n - 1 - i)[t] == if t == i then v else 0
  {
  }

  lemma {:induction false} ThreeSingles(d: seq<bv8>, i: nat, j: nat, k: nat)
    requires i < j < k < |d| && OnlyAt(d, i, j, k)
    ensures var n := |d|;
            d == Sum(Sum(Single(n, d[i], n - 1 - i), Single(n, d[j], n - 1 - j)), Single(n, d[k], n - 1 - k))
  {
    var n := |d|;
    var a, b, c := Single(n, d[i], n - 1 - i), Single(n, d[j], n - 1 - j), Single(n, d[k], n - 1 - k);
    forall m | 0 <= m < n
      ensures Add(Add(a[m], b[m]), c[m]) == d[m]
    {
      hide Add, Single;
      Cancel(d[m], 0, 0);
      Cancel(0, 0, 0);
      SingleAt(n, d[i], i, m);
      SingleAt(n, d[j], j, m);
      SingleAt(n, d[k], k, m);
    }
  }

  /** The word has the value zero at the `e`-th power. */
  ghost predicate Vanishes(d: seq<bv8>, e: nat) {
    At(Raise(1, e), d) == 0
  }

  lemma {:induction false} NoRemainder(d: seq<bv8>, e: nat)
    requires AreSymbols(d) && Run(0, d) == 0 && IsRoot(Raise(1, e))
    ensures Vanishes(d, e)
  {
    hide Mul, Raise, Plus10, Run, IsRoot, Embed, AreSymbols;
    RunAt(Raise(1, e), e, d);
    NoResidue(Raise(1, e), e);
  }

  lemma {:induction false} Equation(d: seq<bv8>, i: nat, j: nat, k: nat, e: nat, u: nat, v: nat, w: nat)
    requires i < j < k < |d| && OnlyAt(d, i, j, k)
    requires u == e * (|d| - 1 - i) && v == e * (|d| - 1 - j) && w == e * (|d| - 1 - k)
    ensures Vanishes(d, e) ==> Sum3(Raise(Embed(d[i]), u), Raise(Embed(d[j]), v), Raise(Embed(d[k]), w)) == 0
  {
    hide Mul, Raise, Plus10, Single, Sum, Sum3, Embed, OnlyAt, At;
    ThreeSingles(d, i, j, k);
    AtThree(Raise(1, e), e, d, d[i], d[j], d[k], |d| - 1 - i, |d| - 1 - j, |d| - 1 - k);
  }

  lemma {:induction false} NextEquation(v: bv10, m: nat)
    ensures Raise(v, 998 * m) == Raise(Raise(v, 997 * m), m) && Raise(v, 999 * m) == Raise(Raise(v, 997 * m), m + m)
  {
    hide Raise;
    RaiseAdd(v, 997 * m, m);
    RaiseAdd(v, 997 * m, m + m);
  }

  /** Three errors in distinct places, none more than 1022 from another, never leave the remainder zero. */
  lemma {:induction false} NoThreeCancel(d: seq<bv8>, i: nat, j: nat, k: nat)
    requires AreSymbols(d) && i < j < k < |d| && k - i < 1023 && OnlyAt(d, i, j, k) && Run(0, d) == 0
    ensures d == Zeros(|d|)
  {
    hide Raise, Plus10, Sum3, Run, IsRoot, Embed, Vanishes;
    RootPowers();
    Root997();
    Root998();
    Root999();
    var m, n, p: nat := |d| - 1 - i, |d| - 1 - j, |d| - 1 - k;
    NoRemainder(d, 997);
    Equation(d, i, j, k, 997, 997 * m, 997 * n, 997 * p);
    NoRemainder(d, 998);
    Equation(d, i, j, k, 998, 998 * m, 998 * n, 998 * p);
    NoRemainder(d, 999);
    Equation(d, i, j, k, 999, 999 * m, 999 * n, 999 * p);
    var x, y, z := Embed(d[i]), Embed(d[j]), Embed(d[k]);
    NextEquation(x, m);
    NextEquation(y, n);
    NextEquation(z, p);
    Vandermonde(Raise(x, 997 * m), Raise(y, 997 * n), Raise(z, 997 * p), m, n, p);
    RaiseInjective(x, 997 * m);
    RaiseInjective(y, 997 * n);
    RaiseInjective(z, 997 * p);
    EmbedZero(d[i]);
    EmbedZero(d[j]);
    EmbedZero(d[k]);
  }

  lemma EmbedZero(v: bv8)
    requires Embed(v) == 0
    ensures v == 0
  {
  }

  /** `a` and `b` differ at most at `i`, `j` and `k`. */
  ghost predicate DifferOnlyAt<T>(a: seq<T>, b: seq<T>, i: nat, j: nat, k: nat) {
    |a| == |b| && forall m :: 0 <= m < |a| && a[m] != b[m] ==> m == i || m == j || m == k
  }

  lemma {:induction false} ApartDetected(c: bv32, a: seq<bv8>, b: seq<bv8>, i: nat, j: nat, k: nat)
    requires AreSymbols(a) && AreSymbols(b) && DifferOnlyAt(a, b, i, j, k) && i < j < k < |a| && k - i < 1023
    requires Run(c, a) == Run(c, b)
    ensures a == b
  {
    hide Run, Plus;
    var d := Sum(a, b);
    RunLinear(c, c, a, b);
    PlusSelf(c);
    PlusSelf(Run(c, a));
    forall m | 0 <= m < |a|
      ensures d[m] < 32 && (d[m] == 0 <==> a[m] == b[m])
    {
      SymbolSum(a[m], b[m]);
    }
    NoThreeCancel(d, i, j, k);
    assert forall m :: 0 <= m < |a| ==> d[m] == 0;
  }

  lemma {:induction false} SamePrefix<T>(a: seq<T>, b: seq<T>, z: seq<T>)
    requires |a| == |b| && a + z == b + z
    ensures a == b
  {
    assert a == (a + z)[..|a|] && b == (b + z)[..|b|];
  }

  /** Changing one, two or three symbols within a window of 1023 changes the checksum. */
  lemma {:induction false} ThreeDetected(c: bv32, a: seq<bv8>, b: seq<bv8>, i: nat, j: nat, k: nat)
    requires AreSymbols(a) && AreSymbols(b) && DifferOnlyAt(a, b, i, j, k) && i <= j <= k < |a| && k - i < 1023
    requires a != b
    ensures Run(c, a) != Run(c, b)
  {
    hide Run;
    if Run(c, a) == Run(c, b) {
      var a', b' := a + [0, 0], b + [0, 0];
      RunConcat(c, a, [0, 0]);
      RunConcat(c, b, [0, 0]);
      var lo, mid, hi: nat := i, if i < j < k then j else i + 1, if k <= i + 1 then i + 2 else k;
      assert DifferOnlyAt(a', b', lo, mid, hi);
      ApartDetected(c, a', b', lo, mid, hi);
      SamePrefix(a, b, [0, 0]);
    }
  }
}
