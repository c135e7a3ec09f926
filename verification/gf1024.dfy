/** The field GF(1024), GF(32) extended by a root `e` of x^2 + 9x + 23, and the powers of `e`. */
module ExtensionField {
  import opened PolyMods

  function High(v: bv10): bv8 { (v >> 5) as bv8 }
  function Low(v: bv10): bv8 { (v & 31) as bv8 }

  /** The element `hi` e + `lo`. */
  function Pair(hi: bv8, lo: bv8): bv10
    requires hi < 32 && lo < 32
  {
    ((hi as bv10) << 5) | (lo as bv10)
  }

  /** A symbol as an element of the larger field. */
  function Embed(v: bv8): bv10 { v as bv10 }

  function Plus10(a: bv10, b: bv10): bv10 { a ^ b }

  /** The next power: `e` times an element. */
  function NextPower(v: bv10): bv10 {
    TimesBound(High(v), 9);
    TimesBound(High(v), 23);
    Pair(Add(Times(High(v), 9), Low(v)), Times(High(v), 23))
  }

  /** Multiplication. */
  function Mul(k: bv10, v: bv10): bv10 {
    var top := Times(High(k), High(v));
    ProductsBound(k, v);
    Pair(Add(Times(9, top), Add(Times(High(k), Low(v)), Times(Low(k), High(v)))),
         Add(Times(23, top), Times(Low(k), Low(v))))
  }

  lemma TimesBound(a: bv8, b: bv8)
    requires b < 32
    ensures Times(a, b) < 32
  {
  }

  lemma ProductsBound(k: bv10, v: bv10)
    ensures var top := Times(High(k), High(v));
            && Add(Times(9, top), Add(Times(High(k), Low(v)), Times(Low(k), High(v)))) < 32
            && Add(Times(23, top), Times(Low(k), Low(v))) < 32
  {
    var top := Times(High(k), High(v));
    assert High(v) < 32 && Low(v) < 32;
    hide Times, High, Low, Add;
    TimesBound(High(k), High(v));
    TimesBound(9, top);
    TimesBound(23, top);
    TimesBound(High(k), Low(v));
    TimesBound(Low(k), High(v));
    TimesBound(Low(k), Low(v));
    SymbolSum(Times(High(k), Low(v)), Times(Low(k), High(v)));
    SymbolSum(Times(9, top), Add(Times(High(k), Low(v)), Times(Low(k), High(v))));
    SymbolSum(Times(23, top), Times(Low(k), Low(v)));
  }

  /** Multiply `n` times by `e`. */
  ghost function Raise(v: bv10, n: nat): bv10 {
    if n == 0 then v else NextPower(Raise(v, n - 1))
  }

  lemma {:induction false} RaiseAdd(v: bv10, m: nat, n: nat)
    ensures Raise(Raise(v, m), n) == Raise(v, m + n)
  {
    hide NextPower;
    if n > 0 {
      RaiseAdd(v, m, n - 1);
    }
  }

  lemma {:induction false} RaiseTwice(v: bv10, m: nat, n: nat)
    ensures Raise(Raise(v, m), n) == Raise(Raise(v, n), m)
  {
    RaiseAdd(v, m, n);
    RaiseAdd(v, n, m);
  }

  // ----- GF(32) is a commutative ring

  /** `m` if the bit is set in `a`. */
  ghost function Gate(a: bv8, bit: bv8, m: bv8): bv8 {
    if a & bit != 0 then m else 0
  }

  /** The sum of the `m`s for the bits that are set in `a`. */
  ghost function Choose(a: bv8, m0: bv8, m1: bv8, m2: bv8, m3: bv8, m4: bv8): bv8 {
    Add(Add(Add(Add(Gate(a, 1, m0), Gate(a, 2, m1)), Gate(a, 4, m2)), Gate(a, 8, m3)), Gate(a, 16, m4))
  }

  lemma TimesIs(a: bv8, b: bv8)
    ensures var b2 := Double(b);
            var b4 := Double(b2);
            var b8 := Double(b4);
            Times(a, b) == Choose(a, b, b2, b4, b8, Double(b8))
  {
    hide Double, Add;
  }

  lemma AddAssociative(a: bv8, b: bv8, c: bv8)
    ensures Add(Add(a, b), c) == Add(a, Add(b, c)) && Add(a, b) == Add(b, a)
  {
  }

  lemma Regroup4(a: bv8, b: bv8, c: bv8, d: bv8)
    ensures Add(Add(a, b), Add(c, d)) == Add(Add(a, c), Add(b, d))
  {
    hide Add;
    AddAssociative(a, b, Add(c, d));
    AddAssociative(b, c, d);
    AddAssociative(c, b, d);
    AddAssociative(a, c, Add(b, d));
  }

  lemma GateSum(a: bv8, b: bv8, bit: bv8, m: bv8)
    requires IsBit(bit)
    ensures Gate(Add(a, b), bit, m) == Add(Gate(a, bit, m), Gate(b, bit, m))
  {
    BitOfSum(a, b, bit);
    assert Add(m, m) == 0 && Add(m, 0) == m && Add(0, m) == m && Add(0, 0) == 0;
    hide Add;
  }

  lemma ChooseSum(a: bv8, b: bv8, m0: bv8, m1: bv8, m2: bv8, m3: bv8, m4: bv8)
    ensures Choose(Add(a, b), m0, m1, m2, m3, m4) == Add(Choose(a, m0, m1, m2, m3, m4), Choose(b, m0, m1, m2, m3, m4))
  {
    hide Add, Gate;
    GateSum(a, b, 1, m0);
    GateSum(a, b, 2, m1);
    GateSum(a, b, 4, m2);
    GateSum(a, b, 8, m3);
    GateSum(a, b, 16, m4);
    var a1, b1 := Add(Gate(a, 1, m0), Gate(a, 2, m1)), Add(Gate(b, 1, m0), Gate(b, 2, m1));
    var a2, b2 := Add(a1, Gate(a, 4, m2)), Add(b1, Gate(b, 4, m2));
    var a3, b3 := Add(a2, Gate(a, 8, m3)), Add(b2, Gate(b, 8, m3));
    Regroup4(Gate(a, 1, m0), Gate(b, 1, m0), Gate(a, 2, m1), Gate(b, 2, m1));
    Regroup4(a1, b1, Gate(a, 4, m2), Gate(b, 4, m2));
    Regroup4(a2, b2, Gate(a, 8, m3), Gate(b, 8, m3));
    Regroup4(a3, b3, Gate(a, 16, m4), Gate(b, 16, m4));
  }

  lemma TimesSum(a: bv8, b: bv8, c: bv8)
    ensures Times(Add(a, b), c) == Add(Times(a, c), Times(b, c))
  {
    hide Add, Choose, Double, Times;
    TimesIs(Add(a, b), c);
    TimesIs(a, c);
    TimesIs(b, c);
    var c2 := Double(c);
    var c4 := Double(c2);
    var c8 := Double(c4);
    ChooseSum(a, b, c, c2, c4, c8, Double(c8));
  }

  lemma DoubleSum(a: bv8, b: bv8)
    ensures Double(Add(a, b)) == Add(Double(a), Double(b))
  {
  }

  lemma DoubleGate(a: bv8, bit: bv8, m: bv8)
    ensures Double(Gate(a, bit, m)) == Gate(a, bit, Double(m))
  {
    assert Double(0) == 0;
    hide Double;
  }

  lemma DoubleChoose(a: bv8, m0: bv8, m1: bv8, m2: bv8, m3: bv8, m4: bv8)
    ensures Double(Choose(a, m0, m1, m2, m3, m4))
            == Choose(a, Double(m0), Double(m1), Double(m2), Double(m3), Double(m4))
  {
    hide Add, Gate, Double;
    var a1 := Add(Gate(a, 1, m0), Gate(a, 2, m1));
    var a2 := Add(a1, Gate(a, 4, m2));
    DoubleSum(Add(a2, Gate(a, 8, m3)), Gate(a, 16, m4));
    DoubleSum(a2, Gate(a, 8, m3));
    DoubleSum(a1, Gate(a, 4, m2));
    DoubleSum(Gate(a, 1, m0), Gate(a, 2, m1));
    DoubleGate(a, 1, m0);
    DoubleGate(a, 2, m1);
    DoubleGate(a, 4, m2);
    DoubleGate(a, 8, m3);
    DoubleGate(a, 16, m4);
  }

  lemma DoubleInside(a: bv8, b: bv8)
    ensures Times(a, Double(b)) == Double(Times(a, b))
  {
    hide Choose, Double, Times;
    TimesIs(a, b);
    TimesIs(a, Double(b));
    var b2 := Double(b);
    var b4 := Double(b2);
    var b8 := Double(b4);
    DoubleChoose(a, b, b2, b4, b8, Double(b8));
  }

  lemma GateOfSum(a: bv8, bit: bv8, m: bv8, n: bv8)
    ensures Gate(a, bit, Add(m, n)) == Add(Gate(a, bit, m), Gate(a, bit, n))
  {
    assert Add(0, 0) == 0;
    hide Add;
  }

  lemma ChooseOfSum(a: bv8, m0: bv8, m1: bv8, m2: bv8, m3: bv8, m4: bv8,
                    n0: bv8, n1: bv8, n2: bv8, n3: bv8, n4: bv8)
    ensures Choose(a, Add(m0, n0), Add(m1, n1), Add(m2, n2), Add(m3, n3), Add(m4, n4))
            == Add(Choose(a, m0, m1, m2, m3, m4), Choose(a, n0, n1, n2, n3, n4))
  {
    hide Add, Gate;
    GateOfSum(a, 1, m0, n0);
    GateOfSum(a, 2, m1, n1);
    GateOfSum(a, 4, m2, n2);
    GateOfSum(a, 8, m3, n3);
    GateOfSum(a, 16, m4, n4);
    var m01, n01 := Add(Gate(a, 1, m0), Gate(a, 2, m1)), Add(Gate(a, 1, n0), Gate(a, 2, n1));
    var m02, n02 := Add(m01, Gate(a, 4, m2)), Add(n01, Gate(a, 4, n2));
    Regroup4(Gate(a, 1, m0), Gate(a, 1, n0), Gate(a, 2, m1), Gate(a, 2, n1));
    Regroup4(m01, n01, Gate(a, 4, m2), Gate(a, 4, n2));
    Regroup4(m02, n02, Gate(a, 8, m3), Gate(a, 8, n3));
    Regroup4(Add(m02, Gate(a, 8, m3)), Add(n02, Gate(a, 8, n3)), Gate(a, 16, m4), Gate(a, 16, n4));
  }

  lemma SumTimes(a: bv8, b: bv8, c: bv8)
    ensures Times(c, Add(a, b)) == Add(Times(c, a), Times(c, b))
  {
    hide Add, Choose, Double, Times;
    TimesIs(c, a);
    TimesIs(c, b);
    TimesIs(c, Add(a, b));
    var a2, b2 := Double(a), Double(b);
    var a4, b4 := Double(a2), Double(b2);
    var a8, b8 := Double(a4), Double(b4);
    DoubleSum(a, b);
    DoubleSum(a2, b2);
    DoubleSum(a4, b4);
    DoubleSum(a8, b8);
    ChooseOfSum(c, a, a2, a4, a8, Double(a8), b, b2, b4, b8, Double(b8));
  }

  lemma GateInside(b: bv8, a: bv8, bit: bv8, m: bv8)
    ensures Times(b, Gate(a, bit, m)) == Gate(a, bit, Times(b, m))
  {
    TimesNone(b);
    hide Times;
  }

  lemma TimesNone(b: bv8)
    ensures Times(b, 0) == 0
  {
  }

  lemma ChooseInside(b: bv8, a: bv8, m0: bv8, m1: bv8, m2: bv8, m3: bv8, m4: bv8)
    ensures Times(b, Choose(a, m0, m1, m2, m3, m4))
            == Choose(a, Times(b, m0), Times(b, m1), Times(b, m2), Times(b, m3), Times(b, m4))
  {
    hide Add, Gate, Times;
    var a1 := Add(Gate(a, 1, m0), Gate(a, 2, m1));
    var a2 := Add(a1, Gate(a, 4, m2));
    SumTimes(Add(a2, Gate(a, 8, m3)), Gate(a, 16, m4), b);
    SumTimes(a2, Gate(a, 8, m3), b);
    SumTimes(a1, Gate(a, 4, m2), b);
    SumTimes(Gate(a, 1, m0), Gate(a, 2, m1), b);
    GateInside(b, a, 1, m0);
    GateInside(b, a, 2, m1);
    GateInside(b, a, 4, m2);
    GateInside(b, a, 8, m3);
    GateInside(b, a, 16, m4);
  }

  /** A symbol is the sum of its bits, and these are what doubling makes of 1. */
  lemma Binary(a: bv8)
    requires a < 32
    ensures a == Choose(a, 1, 2, 4, 8, 16)
    ensures Double(1) == 2 && Double(2) == 4 && Double(4) == 8 && Double(8) == 16
  {
  }

  lemma TimesCommutes(a: bv8, b: bv8)
    requires a < 32 && b < 32
    ensures Times(a, b) == Times(b, a)
  {
    hide Choose, Times, Double;
    Binary(a);
    TimesIs(a, b);
    ChooseInside(b, a, 1, 2, 4, 8, 16);
    TimesOne(b);
    DoubleInside(b, 1);
    DoubleInside(b, 2);
    DoubleInside(b, 4);
    DoubleInside(b, 8);
  }

  lemma TimesDouble(a: bv8, b: bv8)
    requires a < 32 && b < 32
    ensures Double(b) < 32 && Times(a, Double(b)) == Double(Times(a, b)) && Times(Double(b), a) == Double(Times(b, a))
  {
    assert Double(b) < 32;
    hide Times, Double;
    DoubleInside(a, b);
    TimesCommutes(a, b);
    TimesCommutes(a, Double(b));
  }

  lemma GateTimes(a: bv8, bit: bv8, m: bv8, c: bv8)
    ensures Times(Gate(a, bit, m), c) == Gate(a, bit, Times(m, c))
  {
    TimesZero(c);
    hide Times;
  }

  lemma ChooseTimes(a: bv8, m0: bv8, m1: bv8, m2: bv8, m3: bv8, m4: bv8, c: bv8)
    ensures Times(Choose(a, m0, m1, m2, m3, m4), c)
            == Choose(a, Times(m0, c), Times(m1, c), Times(m2, c), Times(m3, c), Times(m4, c))
  {
    hide Add, Gate, Times;
    var a1 := Add(Gate(a, 1, m0), Gate(a, 2, m1));
    var a2 := Add(a1, Gate(a, 4, m2));
    TimesSum(Add(a2, Gate(a, 8, m3)), Gate(a, 16, m4), c);
    TimesSum(a2, Gate(a, 8, m3), c);
    TimesSum(a1, Gate(a, 4, m2), c);
    TimesSum(Gate(a, 1, m0), Gate(a, 2, m1), c);
    GateTimes(a, 1, m0, c);
    GateTimes(a, 2, m1, c);
    GateTimes(a, 4, m2, c);
    GateTimes(a, 8, m3, c);
    GateTimes(a, 16, m4, c);
  }

  lemma TimesAssociative(a: bv8, b: bv8, c: bv8)
    requires a < 32 && b < 32 && c < 32
    ensures Times(a, Times(b, c)) == Times(Times(a, b), c)
  {
    hide Add, Choose, Double, Times;
    var b2 := Double(b);
    var b4 := Double(b2);
    var b8 := Double(b4);
    var p := Times(b, c);
    TimesIs(a, p);
    TimesIs(a, b);
    TimesDouble(c, b);
    TimesDouble(c, b2);
    TimesDouble(c, b4);
    TimesDouble(c, b8);
    ChooseTimes(a, b, b2, b4, b8, Double(b8), c);
  }

  // ----- linearity

  lemma PairSum(v: bv10, w: bv10)
    ensures High(Plus10(v, w)) == Add(High(v), High(w)) && Low(Plus10(v, w)) == Add(Low(v), Low(w))
    ensures High(v) < 32 && Low(v) < 32
  {
  }

  lemma PairPlus(a: bv8, b: bv8, c: bv8, d: bv8)
    requires a < 32 && b < 32 && c < 32 && d < 32
    ensures Add(a, c) < 32 && Add(b, d) < 32
    ensures Plus10(Pair(a, b), Pair(c, d)) == Pair(Add(a, c), Add(b, d))
  {
  }

  lemma NextPowerLinear(v: bv10, w: bv10)
    ensures NextPower(Plus10(v, w)) == Plus10(NextPower(v), NextPower(w))
  {
    hide Add, Times, High, Low, Pair, Plus10;
    PairSum(v, w);
    PairSum(w, v);
    var a, c := High(v), High(w);
    TimesSum(a, c, 9);
    TimesSum(a, c, 23);
    TimesBound(a, 9);
    TimesBound(c, 9);
    TimesBound(a, 23);
    TimesBound(c, 23);
    SymbolSum(Times(a, 9), Low(v));
    SymbolSum(Times(c, 9), Low(w));
    PairPlus(Add(Times(a, 9), Low(v)), Times(a, 23), Add(Times(c, 9), Low(w)), Times(c, 23));
    Regroup4(Times(a, 9), Low(v), Times(c, 9), Low(w));
  }

  lemma NextPowerInjective(v: bv10)
    requires NextPower(v) == 0
    ensures v == 0
  {
  }

  lemma {:induction false} RaiseLinear(v: bv10, w: bv10, n: nat)
    ensures Raise(Plus10(v, w), n) == Plus10(Raise(v, n), Raise(w, n))
  {
    hide NextPower, Plus10;
    if n > 0 {
      RaiseLinear(v, w, n - 1);
      NextPowerLinear(Raise(v, n - 1), Raise(w, n - 1));
    }
  }

  lemma {:induction false} RaiseInjective(v: bv10, n: nat)
    requires Raise(v, n) == 0
    ensures v == 0
  {
    hide NextPower;
    if n > 0 {
      NextPowerInjective(Raise(v, n - 1));
      RaiseInjective(v, n - 1);
    }
  }

  lemma Cancels(v: bv10, w: bv10)
    ensures Plus10(v, w) == 0 <==> v == w
  {
  }

  lemma {:induction false} RaiseCancel(v: bv10, w: bv10, n: nat)
    requires Raise(v, n) == Raise(w, n)
    ensures v == w
  {
    hide NextPower, Plus10;
    RaiseLinear(v, w, n);
    Cancels(Raise(v, n), Raise(w, n));
    RaiseInjective(Plus10(v, w), n);
    Cancels(v, w);
  }

  // ----- the powers of e as elements

  lemma PairParts(hi: bv8, lo: bv8)
    requires hi < 32 && lo < 32
    ensures High(Pair(hi, lo)) == hi && Low(Pair(hi, lo)) == lo
  {
  }

  lemma Halves(v: bv10)
    ensures High(v) < 32 && Low(v) < 32
  {
  }

  lemma MulOne(v: bv10)
    ensures Mul(1, v) == v
  {
  }

  /** `c` (a x + b y) distributed, `c` moved inside. */
  lemma Distribute(c: bv8, a: bv8, x: bv8, b: bv8, y: bv8)
    requires c < 32 && a < 32 && x < 32 && b < 32 && y < 32
    ensures Times(c, Add(Times(a, x), Times(b, y))) == Add(Times(Times(c, a), x), Times(Times(c, b), y))
  {
    hide Times, Add;
    TimesBound(a, x);
    TimesBound(b, y);
    SumTimes(Times(a, x), Times(b, y), c);
    TimesAssociative(c, a, x);
    TimesAssociative(c, b, y);
  }

  /** Multiplying by `e` commutes with multiplying by any element. */
  lemma NextPowerMul(k: bv10, v: bv10)
    ensures NextPower(Mul(k, v)) == Mul(NextPower(k), v)
  {
    hide Times, Add, High, Low, Pair;
    Halves(k);
    Halves(v);
    var a, b, x, y := High(k), Low(k), High(v), Low(v);
    var t := Times(a, x);
    ProductsBound(k, v);
    var hi, lo := Add(Times(9, t), Add(Times(a, y), Times(b, x))), Add(Times(23, t), Times(b, y));
    PairParts(hi, lo);
    TimesBound(a, 9);
    TimesBound(a, 23);
    SymbolSum(Times(a, 9), b);
    var a', b' := Add(Times(a, 9), b), Times(a, 23);
    PairParts(a', b');
    NextProduct(a, b, x, y);
  }

  lemma NextProduct(a: bv8, b: bv8, x: bv8, y: bv8)
    requires a < 32 && b < 32 && x < 32 && y < 32
    ensures var t := Times(a, x);
            var hi, lo := Add(Times(9, t), Add(Times(a, y), Times(b, x))), Add(Times(23, t), Times(b, y));
            var a', b' := Add(Times(a, 9), b), Times(a, 23);
            var t' := Times(a', x);
            && Add(Times(hi, 9), lo) == Add(Times(9, t'), Add(Times(a', y), Times(b', x)))
            && Times(hi, 23) == Add(Times(23, t'), Times(b', y))
  {
    hide Times, Add;
    var t, a', b' := Times(a, x), Add(Times(a, 9), b), Times(a, 23);
    var ay, bx, bY, ax9, ax23 := Times(a, y), Times(b, x), Times(b, y), Times(9, t), Times(23, t);
    TimesBound(a, x);
    TimesBound(a, y);
    TimesBound(b, x);
    TimesBound(b, y);
    TimesBound(9, t);
    SymbolSum(ay, bx);
    SymbolSum(ax9, Add(ay, bx));
    var hi := Add(ax9, Add(ay, bx));
    ScaledSum(9, ax9, ay, bx);
    ScaledSum(23, ax9, ay, bx);
    assert Times(hi, 9) == Add(Times(9, ax9), Add(Times(9, ay), Times(9, bx)));
    assert Times(hi, 23) == Add(Times(23, ax9), Add(Times(23, ay), Times(23, bx)));
    assert Times(a', x) == Add(ax9, bx) by {
      TimesSum(Times(a, 9), b, x);
      TimesCommutes(a, 9);
      TimesAssociative(9, a, x);
    }
    assert Times(a', y) == Add(Times(9, ay), bY) by {
      TimesSum(Times(a, 9), b, y);
      TimesCommutes(a, 9);
      TimesAssociative(9, a, y);
    }
    assert Times(b', x) == ax23 && Times(b', y) == Times(23, ay) by {
      TimesCommutes(a, 23);
      TimesAssociative(23, a, x);
      TimesAssociative(23, a, y);
    }
    SumTimes(ax9, bx, 9);
    SumTimes(ax9, bx, 23);
    Rearrange(Times(9, ax9), Times(9, ay), Times(9, bx), ax23, bY);
    Rearrange(Times(23, ax9), Times(23, ay), Times(23, bx), 0, 0);
  }

  lemma ScaledSum(c: bv8, a: bv8, b: bv8, d: bv8)
    requires c < 32 && a < 32 && b < 32 && d < 32
    ensures Add(a, Add(b, d)) < 32
    ensures Times(Add(a, Add(b, d)), c) == Add(Times(c, a), Add(Times(c, b), Times(c, d)))
  {
    SymbolSum(b, d);
    SymbolSum(a, Add(b, d));
    hide Times, Add;
    TimesSum(a, Add(b, d), c);
    TimesSum(b, d, c);
    TimesCommutes(a, c);
    TimesCommutes(b, c);
    TimesCommutes(d, c);
  }

  lemma Rearrange(p: bv8, q: bv8, r: bv8, s: bv8, t: bv8)
    ensures Add(Add(p, Add(q, r)), Add(s, t)) == Add(Add(p, r), Add(Add(q, t), s))
    ensures Add(p, Add(q, r)) == Add(Add(p, r), q)
  {
    hide Add;
    AddAssociative(q, r, 0);
    AddAssociative(p, r, q);
    AddAssociative(s, t, 0);
    Regroup4(Add(p, r), q, t, s);
    AddAssociative(Add(p, r), Add(q, t), s);
    AddAssociative(Add(p, r), q, Add(t, s));
    AddAssociative(q, t, s);
  }

  /** An element times a symbol. */
  ghost function Scale(g: bv8, v: bv10): bv10 {
    Halves(v);
    TimesBound(g, High(v));
    TimesBound(g, Low(v));
    Pair(Times(g, High(v)), Times(g, Low(v)))
  }

  lemma ScaleSum(g: bv8, v: bv10, w: bv10)
    requires g < 32
    ensures Scale(g, Plus10(v, w)) == Plus10(Scale(g, v), Scale(g, w))
  {
    hide Times, Add, High, Low, Pair, Plus10;
    PairSum(v, w);
    PairSum(w, v);
    SumTimes(High(v), High(w), g);
    SumTimes(Low(v), Low(w), g);
    TimesBound(g, High(v));
    TimesBound(g, Low(v));
    TimesBound(g, High(w));
    TimesBound(g, Low(w));
    PairPlus(Times(g, High(v)), Times(g, Low(v)), Times(g, High(w)), Times(g, Low(w)));
  }

  /** A symbol can be taken out of a product. */
  lemma TakeOut(a: bv8, g: bv8, x: bv8)
    requires a < 32 && g < 32 && x < 32
    ensures Times(a, Times(g, x)) == Times(g, Times(a, x))
  {
    hide Times;
    TimesAssociative(a, g, x);
    TimesAssociative(g, a, x);
    TimesCommutes(a, g);
  }

  lemma MulScale(k: bv10, g: bv8, v: bv10)
    requires g < 32
    ensures Mul(k, Scale(g, v)) == Scale(g, Mul(k, v))
  {
    hide Times, Add, High, Low, Pair;
    Halves(k);
    Halves(v);
    var a, b, x, y := High(k), Low(k), High(v), Low(v);
    TimesBound(g, x);
    TimesBound(g, y);
    PairParts(Times(g, x), Times(g, y));
    ProductsBound(k, v);
    ProductsBound(k, Scale(g, v));
    var t := Times(a, x);
    PairParts(Add(Times(9, t), Add(Times(a, y), Times(b, x))), Add(Times(23, t), Times(b, y)));
    ScaledProduct(a, b, g, x, y);
  }

  lemma ScaledProduct(a: bv8, b: bv8, g: bv8, x: bv8, y: bv8)
    requires a < 32 && b < 32 && g < 32 && x < 32 && y < 32
    ensures var t, t' := Times(a, x), Times(a, Times(g, x));
            && Add(Times(9, t'), Add(Times(a, Times(g, y)), Times(b, Times(g, x))))
               == Times(g, Add(Times(9, t), Add(Times(a, y), Times(b, x))))
            && Add(Times(23, t'), Times(b, Times(g, y))) == Times(g, Add(Times(23, t), Times(b, y)))
  {
    hide Times, Add;
    var t := Times(a, x);
    TakeOut(a, g, x);
    TakeOut(a, g, y);
    TakeOut(b, g, x);
    TakeOut(b, g, y);
    TimesBound(a, x);
    TimesBound(a, y);
    TimesBound(b, x);
    TimesBound(b, y);
    TakeOut(9, g, t);
    TakeOut(23, g, t);
    TimesBound(9, t);
    TimesBound(23, t);
    SymbolSum(Times(a, y), Times(b, x));
    SumTimes(Times(a, y), Times(b, x), g);
    SumTimes(Times(9, t), Add(Times(a, y), Times(b, x)), g);
    SumTimes(Times(23, t), Times(b, y), g);
  }

  lemma EmbedScale(g: bv8, c: bv8)
    requires g < 32 && c < 32
    ensures Embed(Times(g, c)) == Scale(g, Embed(c))
  {
    assert High(Embed(c)) == 0 && Low(Embed(c)) == c;
    TimesCommutes(g, 0);
    TimesZero(g);
    TimesBound(g, c);
    hide Times, High, Low;
  }

  lemma ScaleZero(g: bv8)
    requires g < 32
    ensures Scale(g, 0) == 0
  {
    assert High(0) == 0 && Low(0) == 0;
    TimesCommutes(g, 0);
    TimesZero(g);
    hide Times, High, Low;
  }

  /** Raising by `n` is multiplying by the `n`-th power. */
  lemma {:induction false} RaiseIsMul(v: bv10, n: nat)
    ensures Raise(v, n) == Mul(Raise(1, n), v)
  {
    MulOne(v);
    hide NextPower, Mul;
    if n > 0 {
      RaiseIsMul(v, n - 1);
      NextPowerMul(Raise(1, n - 1), v);
    }
  }

  lemma {:induction false} PowerSum(m: nat, n: nat)
    ensures Raise(1, m + n) == Mul(Raise(1, n), Raise(1, m))
  {
    RaiseAdd(1, m, n);
    RaiseIsMul(Raise(1, m), n);
  }

  lemma Products()
    ensures Mul(32, 32) == 311
    ensures Mul(311, 311) == 206
    ensures Mul(206, 206) == 537
    ensures Mul(537, 537) == 675
    ensures Mul(675, 675) == 41
    ensures Mul(41, 41) == 292
    ensures Mul(292, 292) == 209
    ensures Mul(209, 209) == 516
    ensures Mul(32, 41) == 23
    ensures Mul(537, 675) == 1007
    ensures Mul(311, 1007) == 356
    ensures Mul(1007, 292) == 1011
    ensures Mul(206, 1011) == 597
    ensures Mul(32, 597) == 854
    ensures Mul(292, 516) == 900
    ensures Mul(675, 900) == 154
    ensures Mul(206, 154) == 780
    ensures Mul(32, 780) == 365
    ensures Mul(365, 365) == 364
    ensures Mul(365, 364) == 1
  {
  }

  lemma FirstPower()
    ensures Raise(1, 1) == 32
  {
    assert NextPower(1) == 32;
    hide NextPower;
    assert Raise(1, 0) == 1;
  }

  lemma DoubledPowers()
    ensures Raise(1, 1) == 32 && Raise(1, 2) == 311 && Raise(1, 4) == 206 && Raise(1, 8) == 537
    ensures Raise(1, 16) == 675 && Raise(1, 32) == 41 && Raise(1, 64) == 292 && Raise(1, 256) == 516
  {
    hide Mul, NextPower, Raise;
    Products();
    FirstPower();
    PowerSum(1, 1);
    PowerSum(2, 2);
    PowerSum(4, 4);
    PowerSum(8, 8);
    PowerSum(16, 16);
    PowerSum(32, 32);
    PowerSum(64, 64);
    PowerSum(128, 128);
  }

  lemma SomePowers()
    ensures Raise(1, 26) == 356 && Raise(1, 33) == 23 && Raise(1, 93) == 854 && Raise(1, 341) == 365
    ensures Raise(1, 1023) == 1
  {
    hide Mul, NextPower, Raise;
    Products();
    DoubledPowers();
    PowerSum(32, 1);
    PowerSum(16, 8);
    PowerSum(24, 2);
    PowerSum(64, 24);
    PowerSum(88, 4);
    PowerSum(92, 1);
    PowerSum(256, 64);
    PowerSum(320, 16);
    PowerSum(336, 4);
    PowerSum(340, 1);
    PowerSum(341, 341);
    PowerSum(682, 341);
  }


  lemma RootProducts()
    ensures Mul(356, 445) == 1 && NextPower(445) == 101 && NextPower(101) == 976
  {
    RootProduct();
    NextRoot(445);
    NextRoot(101);
  }

  lemma RootProduct()
    ensures Mul(356, 445) == 1
  {
  }

  lemma NextRoot(v: bv10)
    ensures v == 445 ==> NextPower(v) == 101
    ensures v == 101 ==> NextPower(v) == 976
  {
  }

  /** The generator's roots 997, 998 and 999, from the 26th power, since 997 + 26 = 1023. */
  lemma RootPowers()
    ensures Raise(1, 997) == 445 && Raise(1, 998) == 101 && Raise(1, 999) == 976
  {
    RootProducts();
    hide Mul, NextPower;
    SomePowers();
    RaiseAdd(1, 997, 26);
    RaiseIsMul(445, 26);
    RaiseCancel(Raise(1, 997), 445, 26);
    assert Raise(1, 998) == NextPower(Raise(1, 997));
    assert Raise(1, 999) == NextPower(Raise(1, 998));
  }

  // ----- the order of e

  lemma {:induction false} PeriodTimes(v: bv10, g: nat, m: nat)
    requires Raise(v, g) == v
    ensures Raise(v, g * m) == v
  {
    hide NextPower;
    if m > 0 {
      PeriodTimes(v, g, m - 1);
      RaiseAdd(v, g * (m - 1), g);
      assert g * (m - 1) + g == g * m;
    }
  }

  /** Two periods have a common divisor that is a period. */
  lemma {:induction false} CommonPeriod(v: bv10, a: nat, b: nat) returns (g: nat, x: nat, y: nat)
    requires a > 0 && b > 0 && Raise(v, a) == v && Raise(v, b) == v
    ensures a == g * x && b == g * y && Raise(v, g) == v
    decreases a + b
  {
    hide NextPower, Raise;
    if a == b {
      g, x, y := a, 1, 1;
    } else if a > b {
      RaiseAdd(v, a - b, b);
      RaiseCancel(Raise(v, a - b), v, b);
      var x';
      g, x', y := CommonPeriod(v, a - b, b);
      x := x' + y;
      assert g * (x' + y) == g * x' + g * y;
    } else {
      RaiseAdd(v, b - a, a);
      RaiseCancel(Raise(v, b - a), v, a);
      var y';
      g, x, y' := CommonPeriod(v, a, b - a);
      y := x + y';
      assert g * (x + y') == g * x + g * y';
    }
  }

  lemma SmallDivisor(g: nat, x: nat)
    requires g * x == 1023 && g <= 32
    ensures g == 1 || g == 3 || g == 11 || g == 31
  {
  }

  /** A proper divisor of 1023 = 3 * 11 * 31 divides a third, an eleventh or a thirty-first of it. */
  lemma ProperDivisor(g: nat, x: nat) returns (m: nat)
    requires g * x == 1023 && x > 1
    ensures g * m == 341 || g * m == 93 || g * m == 33
  {
    if g <= 32 {
      SmallDivisor(g, x);
      m := if g == 3 then 31 else 341 / g;
    } else {
      assert x <= 32;
      SmallDivisor(x, g);
      m := 1;
    }
  }

  lemma Fixed33(v: bv10)
    requires Mul(23, v) == v
    ensures v == 0
  {
  }

  lemma Fixed93(v: bv10)
    requires Mul(854, v) == v
    ensures v == 0
  {
  }

  lemma Fixed341(v: bv10)
    requires Mul(365, v) == v
    ensures v == 0
  {
  }

  /** The powers of `e` come back after 1023 steps and, for an element other than zero, not before. */
  lemma {:induction false} Period(v: bv10, d: nat)
    ensures Raise(v, 1023) == v
    ensures 0 < d < 1023 && Raise(v, d) == v ==> v == 0
  {
    MulOne(v);
    SomePowers();
    hide NextPower, Mul, Raise;
    RaiseIsMul(v, 1023);
    if 0 < d < 1023 && Raise(v, d) == v {
      var g, x, y := CommonPeriod(v, 1023, d);
      var m := ProperDivisor(g, x);
      PeriodTimes(v, g, m);
      if g * m == 33 {
        RaiseIsMul(v, 33);
        Fixed33(v);
      } else if g * m == 93 {
        RaiseIsMul(v, 93);
        Fixed93(v);
      } else {
        RaiseIsMul(v, 341);
        Fixed341(v);
      }
    }
  }
}
