// Chunking of a list of fee/size pairs and the feerate diagram it implies
// (src/cluster_linearize.h, src/util/feefrac.h).
module Diagrams {
  import opened FeeFracs

  function Max(a: int, b: int): int { if a < b then b else a }

  predicate AllPositive(fs: seq<FeeFrac>) {
    forall i :: 0 <= i < |fs| ==> fs[i].size > 0
  }

  function Total(fs: seq<FeeFrac>): FeeFrac {
    if fs == [] then EMPTY else Plus(fs[0], Total(fs[1..]))
  }

  /** The largest gain over `r` of any prefix of `fs` (the empty prefix included). */
  function Peak(fs: seq<FeeFrac>, r: FeeFrac): int {
    if fs == [] then 0 else Max(0, Gain(fs[0], r) + Peak(fs[1..], r))
  }

  /** `a` has, at every feerate, a prefix at least as good as any prefix of `b`.
      `DominatesIffDiagram` shows that this is domination of the feerate diagrams. */
  ghost predicate Dominates(a: seq<FeeFrac>, b: seq<FeeFrac>) {
    forall r: FeeFrac {:trigger Peak(a, r)} {:trigger Peak(b, r)} :: r.size > 0 ==> Peak(a, r) >= Peak(b, r)
  }

  // ----- chunking

  /** Push `f` on a chunking, absorbing final chunks while they have a lower feerate. */
  function Absorb(cs: seq<FeeFrac>, f: FeeFrac): seq<FeeFrac> {
    if cs != [] && Higher(f, cs[|cs| - 1]) then
      Absorb(cs[..|cs| - 1], Plus(f, cs[|cs| - 1]))
    else
      cs + [f]
  }

  function Chunk(fs: seq<FeeFrac>): seq<FeeFrac> {
    if fs == [] then [] else Absorb(Chunk(fs[..|fs| - 1]), fs[|fs| - 1])
  }

  predicate NonIncreasing(cs: seq<FeeFrac>) {
    forall i, j :: 0 <= i < j < |cs| ==> !Higher(cs[j], cs[i])
  }

  // ----- totals and peaks of concatenations

  lemma {:induction false} TotalConcat(a: seq<FeeFrac>, b: seq<FeeFrac>)
    ensures Total(a + b) == Plus(Total(a), Total(b))
  {
    if a == [] {
      assert a + b == b;
    } else {
      var t, ab := a[1..], a + b;
      assert ab[1..] == t + b && ab[0] == a[0];
      TotalConcat(t, b);
      assert Total(ab) == Plus(a[0], Total(t + b));
    }
  }

  lemma TotalSingle(f: FeeFrac)
    ensures Total([f]) == f
  {
    assert Total([f]) == Plus(f, Total([]));
    PlusEmpty(f);
  }

  lemma {:induction false} PeakConcat(a: seq<FeeFrac>, b: seq<FeeFrac>, r: FeeFrac)
    ensures Peak(a + b, r) == Max(Peak(a, r), Gain(Total(a), r) + Peak(b, r))
  {
    if a == [] {
      assert a + b == b;
    } else {
      assert (a + b)[1..] == a[1..] + b;
      PeakConcat(a[1..], b, r);
      GainPlus(a[0], Total(a[1..]), r);
    }
  }

  lemma PeakNonNegative(fs: seq<FeeFrac>, r: FeeFrac)
    ensures Peak(fs, r) >= 0
  {
  }

  lemma {:induction false} PeakBound(fs: seq<FeeFrac>, k: nat, r: FeeFrac)
    requires k <= |fs|
    ensures Gain(Total(fs[..k]), r) <= Peak(fs, r)
  {
    if k > 0 {
      assert fs[..k][1..] == fs[1..][..k - 1];
      PeakBound(fs[1..], k - 1, r);
      GainPlus(fs[0], Total(fs[1..][..k - 1]), r);
    }
  }

  lemma {:induction false} PeakAttained(fs: seq<FeeFrac>, r: FeeFrac) returns (k: nat)
    ensures k <= |fs|
    ensures Gain(Total(fs[..k]), r) == Peak(fs, r)
  {
    if Peak(fs, r) == 0 {
      return 0;
    }
    k := PeakAttained(fs[1..], r);
    assert fs[..k + 1][1..] == fs[1..][..k];
    GainPlus(fs[0], Total(fs[1..][..k]), r);
    k := k + 1;
  }

  /** Putting the same list in front of both keeps domination. */
  lemma DominatesPrepend(s: seq<FeeFrac>, a: seq<FeeFrac>, b: seq<FeeFrac>)
    requires Dominates(a, b)
    ensures Dominates(s + a, s + b)
  {
    forall r: FeeFrac | r.size > 0
      ensures Peak(s + a, r) >= Peak(s + b, r)
    {
      assert Peak(a, r) >= Peak(b, r);
      PeakConcat(s, a, r);
      PeakConcat(s, b, r);
    }
  }

  // ----- chunking keeps every peak and yields non-increasing feerates

  lemma {:induction false} TotalPositive(fs: seq<FeeFrac>)
    requires AllPositive(fs) && fs != []
    ensures Total(fs).size > 0
  {
    if |fs| > 1 {
      TotalPositive(fs[1..]);
    }
  }

  /** Fusing the last two entries when the later one is better moves no peak. */
  lemma FusePeak(x: seq<FeeFrac>, c: FeeFrac, f: FeeFrac, r: FeeFrac)
    requires c.size > 0 && f.size > 0 && r.size > 0 && Higher(f, c)
    ensures Peak(x + [c] + [f], r) == Peak(x + [Plus(f, c)], r)
    ensures Total(x + [c] + [f]) == Total(x + [Plus(f, c)])
  {
    FusePair(c, f, r);
    assert x + [c] + [f] == x + [c, f];
    PeakConcat(x, [c, f], r);
    PeakConcat(x, [Plus(f, c)], r);
    FuseTotal(x, c, f);
    TotalConcat(x, [c, f]);
  }

  lemma FuseTotal(x: seq<FeeFrac>, c: FeeFrac, f: FeeFrac)
    ensures Total(x + [c] + [f]) == Total(x + [Plus(f, c)])
  {
    TotalConcat(x + [c], [f]);
    TotalConcat(x, [c]);
    TotalConcat(x, [Plus(f, c)]);
  }

  lemma FusePair(c: FeeFrac, f: FeeFrac, r: FeeFrac)
    requires c.size > 0 && f.size > 0 && r.size > 0 && Higher(f, c)
    ensures Peak([c, f], r) == Peak([Plus(f, c)], r)
    ensures Total([c, f]) == Total([Plus(f, c)])
  {
    hide Gain;
    var cf, sum := [c, f], [Plus(f, c)];
    assert cf[1..] == [f] && [f][1..] == [] && sum[1..] == [];
    assert Total([f]) == Plus(f, EMPTY);
    assert Total(cf) == Plus(cf[0], Total(cf[1..]));
    assert Peak([f], r) == Max(0, Gain(f, r)) && Peak(cf, r) == Max(0, Gain(c, r) + Peak([f], r));
    assert Peak(sum, r) == Max(0, Gain(Plus(f, c), r));
    GainPlus(f, c, r);
    GainSelf(f, c);
    GainSelf(c, r);
    GainSelf(f, r);
    if Gain(c, r) > 0 {
      GainTransitive(r, c, f);
    }
  }

  lemma {:induction false} AbsorbPeak(cs: seq<FeeFrac>, f: FeeFrac, r: FeeFrac)
    requires AllPositive(cs) && f.size > 0 && r.size > 0
    ensures Peak(Absorb(cs, f), r) == Peak(cs + [f], r)
    ensures Total(Absorb(cs, f)) == Total(cs + [f])
  {
    if cs != [] && Higher(f, cs[|cs| - 1]) {
      var x, c := cs[..|cs| - 1], cs[|cs| - 1];
      assert cs == x + [c];
      AbsorbPeak(x, Plus(f, c), r);
      FusePeak(x, c, f, r);
    }
  }

  lemma {:induction false} AbsorbNonIncreasing(cs: seq<FeeFrac>, f: FeeFrac)
    requires AllPositive(cs) && NonIncreasing(cs) && f.size > 0
    ensures AllPositive(Absorb(cs, f)) && NonIncreasing(Absorb(cs, f))
    ensures Absorb(cs, f) != []
  {
    if cs == [] {
    } else if Higher(f, cs[|cs| - 1]) {
      AbsorbNonIncreasing(cs[..|cs| - 1], Plus(f, cs[|cs| - 1]));
    } else {
      forall i | 0 <= i < |cs|
        ensures !Higher(f, cs[i])
      {
        if i < |cs| - 1 {
          assert !Higher(cs[|cs| - 1], cs[i]);
          GainTransitive(f, cs[|cs| - 1], cs[i]);
        }
      }
    }
  }

  lemma {:induction false} ChunkNonIncreasing(fs: seq<FeeFrac>)
    requires AllPositive(fs)
    ensures AllPositive(Chunk(fs)) && NonIncreasing(Chunk(fs))
    ensures fs != [] ==> Chunk(fs) != []
  {
    if fs != [] {
      ChunkNonIncreasing(fs[..|fs| - 1]);
      AbsorbNonIncreasing(Chunk(fs[..|fs| - 1]), fs[|fs| - 1]);
    }
  }

  lemma {:induction false} ChunkPeak(fs: seq<FeeFrac>, r: FeeFrac)
    requires AllPositive(fs) && r.size > 0
    ensures Peak(Chunk(fs), r) == Peak(fs, r)
    ensures Total(Chunk(fs)) == Total(fs)
  {
    if fs != [] {
      var x, f := fs[..|fs| - 1], fs[|fs| - 1];
      assert fs == x + [f];
      assert Chunk(fs) == Absorb(Chunk(x), f);
      hide Gain, Peak, Total, Chunk, Absorb;
      ChunkPeak(x, r);
      ChunkNonIncreasing(x);
      AbsorbPeak(Chunk(x), f, r);
      PeakConcat(Chunk(x), [f], r);
      PeakConcat(x, [f], r);
      TotalConcat(Chunk(x), [f]);
      TotalConcat(x, [f]);
    }
  }

  // ----- the diagram

  /** The diagram at size `x`: straight segments through the cumulative points of the chunks,
      then a horizontal line. */
  ghost function DiagramAt(cs: seq<FeeFrac>, x: real): real
    requires AllPositive(cs)
  {
    if cs == [] then 0.0
    else if x <= cs[0].size as real then cs[0].fee as real * (x / cs[0].size as real)
    else cs[0].fee as real + DiagramAt(cs[1..], x - cs[0].size as real)
  }

  /** The diagram of `cs` is nowhere below that of `ds`. */
  ghost predicate DiagramAbove(cs: seq<FeeFrac>, ds: seq<FeeFrac>)
    requires AllPositive(cs) && AllPositive(ds)
  {
    forall x: real :: x >= 0.0 ==> DiagramAt(cs, x) >= DiagramAt(ds, x)
  }

  /** How far the point (x, y) lies above the line of slope `r` through the origin. */
  ghost function Above(x: real, y: real, r: FeeFrac): real {
    y * r.size as real - r.fee as real * x
  }

  lemma AboveGain(f: FeeFrac, r: FeeFrac)
    ensures Above(f.size as real, f.fee as real, r) == Gain(f, r) as real
  {
    assert f.fee as real * r.size as real == (f.fee * r.size) as real;
    assert r.fee as real * f.size as real == (r.fee * f.size) as real;
  }

  lemma AboveShift(f: FeeFrac, x: real, y: real, r: FeeFrac)
    ensures Above(f.size as real + x, f.fee as real + y, r) == Gain(f, r) as real + Above(x, y, r)
  {
    AboveGain(f, r);
    var p, q := r.size as real, r.fee as real;
    assert (f.fee as real + y) * p == f.fee as real * p + y * p;
    assert q * (f.size as real + x) == q * f.size as real + q * x;
  }

  /** On a segment from the origin the height is the matching fraction of the end's height. */
  lemma AboveFraction(f: FeeFrac, x: real, r: FeeFrac)
    requires f.size > 0
    ensures Above(x, f.fee as real * (x / f.size as real), r) == (x / f.size as real) * Gain(f, r) as real
  {
    AboveGain(f, r);
    var t := x / f.size as real;
    assert x == t * f.size as real;
    var p, q, a, s := r.size as real, r.fee as real, f.fee as real, f.size as real;
    assert (a * t) * p - q * (t * s) == t * (a * p - q * s);
  }

  lemma UnitFraction(x: real, s: real)
    requires 0.0 <= x <= s && s > 0.0
    ensures 0.0 <= x / s <= 1.0
  {
    assert x == (x / s) * s;
  }

  lemma FractionOf(t: real, g: real)
    requires 0.0 <= t <= 1.0
    ensures g >= 0.0 ==> t * g <= g
    ensures g <= 0.0 ==> t * g <= 0.0
  {
  }

  lemma SegmentUnder(f: FeeFrac, x: real, r: FeeFrac, peak: int)
    requires f.size > 0 && 0.0 <= x <= f.size as real && peak >= 0 && peak >= Gain(f, r)
    ensures Above(x, f.fee as real * (x / f.size as real), r) <= peak as real
  {
    hide Gain, Above;
    AboveFraction(f, x, r);
    UnitFraction(x, f.size as real);
    FractionBelow(x / f.size as real, Gain(f, r), peak);
  }

  lemma FractionBelow(t: real, g: int, peak: int)
    requires 0.0 <= t <= 1.0 && peak >= 0 && peak >= g
    ensures t * g as real <= peak as real
  {
    FractionOf(t, g as real);
  }

  /** No point of the diagram rises above the peak line. */
  lemma {:induction false} DiagramUnderPeak(cs: seq<FeeFrac>, x: real, r: FeeFrac)
    requires AllPositive(cs) && r.size > 0
    requires 0.0 <= x <= Total(cs).size as real
    ensures Above(x, DiagramAt(cs, x), r) <= Peak(cs, r) as real
  {
    if cs == [] {
    } else if x <= cs[0].size as real {
      hide Gain, Above;
      PeakNonNegative(cs[1..], r);
      SegmentUnder(cs[0], x, r, Peak(cs, r));
    } else {
      hide Gain, Above;
      var x' := x - cs[0].size as real;
      DiagramUnderPeak(cs[1..], x', r);
      AboveShift(cs[0], x', DiagramAt(cs[1..], x'), r);
    }
  }

  lemma {:induction false} PeakOfWorse(cs: seq<FeeFrac>, r: FeeFrac)
    requires forall i :: 0 <= i < |cs| ==> !Higher(cs[i], r)
    ensures Peak(cs, r) == 0
  {
    if cs != [] {
      PeakOfWorse(cs[1..], r);
    }
  }

  /** Every point of a concave diagram lies on some peak line. */
  lemma {:induction false} DiagramTouchesPeak(cs: seq<FeeFrac>, x: real) returns (r: FeeFrac)
    requires AllPositive(cs) && NonIncreasing(cs)
    requires cs != [] && 0.0 <= x <= Total(cs).size as real
    ensures r in cs && r.size > 0
    ensures Above(x, DiagramAt(cs, x), r) == Peak(cs, r) as real
  {
    if x <= cs[0].size as real {
      r := cs[0];
      AboveFraction(cs[0], x, r);
      GainSelf(r, r);
      PeakOfWorse(cs, r);
    } else {
      assert |cs| > 1;
      var x' := x - cs[0].size as real;
      r := DiagramTouchesPeak(cs[1..], x');
      AboveShift(cs[0], x', DiagramAt(cs[1..], x'), r);
      var j :| 0 <= j < |cs| - 1 && cs[1..][j] == r;
      assert !Higher(cs[j + 1], cs[0]);
      GainSelf(cs[0], r);
    }
  }

  lemma {:induction false} DiagramBeyond(cs: seq<FeeFrac>, x: real)
    requires AllPositive(cs) && x >= Total(cs).size as real
    ensures DiagramAt(cs, x) == Total(cs).fee as real
  {
    if cs != [] {
      if x <= cs[0].size as real {
        assert Total(cs[1..]).size == 0;
        assert x / cs[0].size as real == 1.0;
      } else {
        DiagramBeyond(cs[1..], x - cs[0].size as real);
      }
    }
  }

  lemma ScaleOrder(y: real, z: real, p: real)
    requires p > 0.0
    ensures y <= z <==> y * p <= z * p
  {
    ProductSign(z - y, p);
  }

  lemma ProductSign(d: real, p: real)
    requires p > 0.0
    ensures d >= 0.0 <==> d * p >= 0.0
  {
  }

  lemma AboveOrder(x: real, y: real, z: real, r: FeeFrac)
    requires r.size > 0
    ensures y <= z <==> Above(x, y, r) <= Above(x, z, r)
  {
    ScaleOrder(y, z, r.size as real);
  }

  lemma DominatesImpliesDiagram(a: seq<FeeFrac>, b: seq<FeeFrac>, x: real)
    requires AllPositive(a) && AllPositive(b) && Total(a).size == Total(b).size && Total(a).fee >= Total(b).fee
    requires Dominates(a, b) && x >= 0.0
    requires AllPositive(Chunk(a)) && AllPositive(Chunk(b))
    ensures DiagramAt(Chunk(a), x) >= DiagramAt(Chunk(b), x)
  {
    hide Gain, Above, DiagramAt, Chunk;
    ChunkNonIncreasing(a);
    ChunkNonIncreasing(b);
    ChunkPeak(a, FeeFrac(0, 1));
    ChunkPeak(b, FeeFrac(0, 1));
    if a == [] || x > Total(a).size as real {
      if a == [] && b != [] {
        TotalPositive(b);
      }
      DiagramBeyond(Chunk(a), x);
      DiagramBeyond(Chunk(b), x);
    } else {
      var r := DiagramTouchesPeak(Chunk(a), x);
      DiagramUnderPeak(Chunk(b), x, r);
      ChunkPeak(a, r);
      ChunkPeak(b, r);
      assert Peak(a, r) >= Peak(b, r);
      AboveOrder(x, DiagramAt(Chunk(b), x), DiagramAt(Chunk(a), x), r);
    }
  }

  lemma PrefixTotal(fs: seq<FeeFrac>, k: nat)
    requires k <= |fs|
    ensures Total(fs[..k]).size <= Total(fs).size
  {
    TotalConcat(fs[..k], fs[k..]);
    assert fs[..k] + fs[k..] == fs;
  }

  /** The diagram passes through, or above, every cumulative point of the list it chunks. */
  lemma HullCoversPoint(fs: seq<FeeFrac>, k: nat)
    requires AllPositive(fs) && k <= |fs| && AllPositive(Chunk(fs))
    ensures DiagramAt(Chunk(fs), Total(fs[..k]).size as real) >= Total(fs[..k]).fee as real
  {
    var p := Total(fs[..k]);
    PrefixTotal(fs, k);
    if fs != [] {
      hide Gain, Above, DiagramAt, Chunk;
      ChunkNonIncreasing(fs);
      ChunkPeak(fs, FeeFrac(0, 1));
      var r := DiagramTouchesPeak(Chunk(fs), p.size as real);
      ChunkPeak(fs, r);
      PeakBound(fs, k, r);
      AboveGain(p, r);
      AboveOrder(p.size as real, p.fee as real, DiagramAt(Chunk(fs), p.size as real), r);
    }
  }

  lemma DiagramImpliesDominates(a: seq<FeeFrac>, b: seq<FeeFrac>)
    requires AllPositive(a) && AllPositive(b) && Total(a) == Total(b)
    requires AllPositive(Chunk(a)) && AllPositive(Chunk(b))
    requires DiagramAbove(Chunk(a), Chunk(b))
    ensures Dominates(a, b)
  {
    hide Gain, Above, DiagramAt, Chunk;
    forall r: FeeFrac | r.size > 0
      ensures Peak(a, r) >= Peak(b, r)
    {
      var k := PeakAttained(b, r);
      var p := Total(b[..k]);
      HullCoversPoint(b, k);
      PrefixTotal(b, k);
      var x := p.size as real;
      ChunkPeak(a, r);
      DiagramUnderPeak(Chunk(a), x, r);
      AboveGain(p, r);
      assert DiagramAt(Chunk(a), x) >= DiagramAt(Chunk(b), x);
      AboveOrder(x, p.fee as real, DiagramAt(Chunk(a), x), r);
    }
  }

  // ----- raising fees

  /** The same sizes, with fees that are no lower. */
  ghost predicate Raised(a: seq<FeeFrac>, b: seq<FeeFrac>) {
    |a| == |b| && forall i :: 0 <= i < |a| ==> a[i].size == b[i].size && a[i].fee >= b[i].fee
  }

  lemma GainRaised(f: FeeFrac, e: FeeFrac, r: FeeFrac)
    requires f.size == e.size && f.fee >= e.fee
    ensures Gain(f, r) >= Gain(e, r)
  {
    NonNegativeProduct(r.size, f.fee - e.fee);
  }

  lemma {:induction false} RaisedDominates(a: seq<FeeFrac>, b: seq<FeeFrac>, r: FeeFrac)
    requires Raised(a, b)
    ensures Peak(a, r) >= Peak(b, r) && Total(a).size == Total(b).size && Total(a).fee >= Total(b).fee
  {
    if a != [] {
      GainRaised(a[0], b[0], r);
      hide Gain;
      RaisedDominates(a[1..], b[1..], r);
    }
  }

  /** Raising fees lowers the diagram nowhere. */
  lemma RaisedDiagram(a: seq<FeeFrac>, b: seq<FeeFrac>)
    requires AllPositive(a) && Raised(a, b)
    ensures AllPositive(b) && AllPositive(Chunk(a)) && AllPositive(Chunk(b)) && DiagramAbove(Chunk(a), Chunk(b))
  {
    ChunkNonIncreasing(a);
    ChunkNonIncreasing(b);
    hide Chunk, DiagramAt, Peak;
    RaisedDominates(a, b, EMPTY);
    forall r: FeeFrac | r.size > 0
      ensures Peak(a, r) >= Peak(b, r)
    {
      RaisedDominates(a, b, r);
    }
    forall x: real | x >= 0.0
      ensures DiagramAt(Chunk(a), x) >= DiagramAt(Chunk(b), x)
    {
      DominatesImpliesDiagram(a, b, x);
    }
  }

  /** Domination of peaks is exactly domination of the feerate diagrams at every size. */
  lemma DominatesIffDiagram(a: seq<FeeFrac>, b: seq<FeeFrac>)
    requires AllPositive(a) && AllPositive(b) && Total(a) == Total(b)
    ensures AllPositive(Chunk(a)) && AllPositive(Chunk(b))
    ensures Dominates(a, b) <==> DiagramAbove(Chunk(a), Chunk(b))
  {
    hide Gain, Above, DiagramAt, Chunk, Dominates;
    ChunkNonIncreasing(a);
    ChunkNonIncreasing(b);
    if Dominates(a, b) {
      forall x: real | x >= 0.0
        ensures DiagramAt(Chunk(a), x) >= DiagramAt(Chunk(b), x)
      {
        DominatesImpliesDiagram(a, b, x);
      }
    }
    if DiagramAbove(Chunk(a), Chunk(b)) {
      DiagramImpliesDominates(a, b);
    }
  }

  /** `p` is one of the cumulative fee/size points of `fs`. */
  ghost predicate IsPoint(fs: seq<FeeFrac>, p: FeeFrac) {
    exists k :: 0 <= k <= |fs| && p == Total(fs[..k])
  }

  /** Every chunk boundary is a cumulative point of the original list. */
  lemma {:induction false} AbsorbBoundary(cs: seq<FeeFrac>, f: FeeFrac, j: nat)
    requires j <= |Absorb(cs, f)|
    ensures j < |Absorb(cs, f)| ==> j <= |cs| && Absorb(cs, f)[..j] == cs[..j]
    ensures j == |Absorb(cs, f)| ==> Total(Absorb(cs, f)[..j]) == Total(cs + [f])
  {
    if cs != [] && Higher(f, cs[|cs| - 1]) {
      var x, c := cs[..|cs| - 1], cs[|cs| - 1];
      AbsorbBoundary(x, Plus(f, c), j);
      assert cs + [f] == x + [c] + [f];
      FuseTotal(x, c, f);
    } else {
      assert Absorb(cs, f)[..|cs| + 1] == cs + [f];
    }
  }

  lemma {:induction false} ChunkBoundary(fs: seq<FeeFrac>, j: nat) returns (k: nat)
    requires j <= |Chunk(fs)|
    ensures k <= |fs|
    ensures Total(Chunk(fs)[..j]) == Total(fs[..k])
  {
    if fs == [] {
      return 0;
    }
    var x, f := fs[..|fs| - 1], fs[|fs| - 1];
    AbsorbBoundary(Chunk(x), f, j);
    if j < |Chunk(fs)| {
      k := ChunkBoundary(x, j);
      assert x[..k] == fs[..k];
    } else {
      k := |fs|;
      var _ := ChunkBoundary(x, |Chunk(x)|);
      ChunkTotal(x);
      TotalConcat(Chunk(x), [f]);
      TotalConcat(x, [f]);
      assert fs[..k] == x + [f];
    }
  }

  lemma {:induction false} ChunkTotal(fs: seq<FeeFrac>)
    ensures Total(Chunk(fs)) == Total(fs)
  {
    if fs != [] {
      var x, f := fs[..|fs| - 1], fs[|fs| - 1];
      ChunkTotal(x);
      var cs := Chunk(fs);
      AbsorbBoundary(Chunk(x), f, |cs|);
      assert cs[..|cs|] == cs;
      TotalConcat(Chunk(x), [f]);
      TotalConcat(x, [f]);
      assert fs == x + [f];
    }
  }

  /** Chunking yields the upper concave hull: non-increasing slopes, vertices taken from the
      cumulative points of the list, and every cumulative point on or below it. */
  lemma ChunkIsHull(fs: seq<FeeFrac>)
    requires AllPositive(fs)
    ensures AllPositive(Chunk(fs)) && NonIncreasing(Chunk(fs))
    ensures Total(Chunk(fs)) == Total(fs)
    ensures forall j :: 0 <= j <= |Chunk(fs)| ==> IsPoint(fs, Total(Chunk(fs)[..j]))
    ensures forall k :: 0 <= k <= |fs| ==>
              DiagramAt(Chunk(fs), Total(fs[..k]).size as real) >= Total(fs[..k]).fee as real
  {
    ChunkNonIncreasing(fs);
    ChunkTotal(fs);
    forall j | 0 <= j <= |Chunk(fs)|
      ensures IsPoint(fs, Total(Chunk(fs)[..j]))
    {
      var k := ChunkBoundary(fs, j);
    }
    forall k | 0 <= k <= |fs|
      ensures DiagramAt(Chunk(fs), Total(fs[..k]).size as real) >= Total(fs[..k]).fee as real
    {
      HullCoversPoint(fs, k);
    }
  }
}
