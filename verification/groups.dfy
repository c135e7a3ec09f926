// The groups a post-linearization pass works with, and why its merges and swaps never worsen the
// linearization (PostLinearize of src/cluster_linearize.h).
module Groups {
  import opened FeeFracs
  import opened DepGraphs
  import opened Diagrams
  import opened Linearizations
  import opened Sequences

  ghost function GroupRate(h: Graph, grp: seq<nat>): FeeFrac { Total(Rates(h, grp)) }

  ghost function GroupRates(h: Graph, gs: seq<seq<nat>>): seq<FeeFrac> {
    seq(|gs|, k requires 0 <= k < |gs| => GroupRate(h, gs[k]))
  }

  /** Every proper non-empty prefix of the group has a strictly lower feerate than the group. */
  ghost predicate Strict(h: Graph, grp: seq<nat>) {
    && grp != []
    && forall k {:trigger grp[..k]} :: 0 < k < |grp| ==> Gain(GroupRate(h, grp[..k]), GroupRate(h, grp)) < 0
  }

  // ----- connected sets

  predicate Related(g: Graph, a: nat, b: nat) { a in g.Anc(b) || b in g.Anc(a) }

  /** Some relation crosses from `t` to the rest of `s`. */
  ghost predicate Crosses(g: Graph, s: set<nat>, t: set<nat>) {
    exists a, b :: a in t && b in s - t && Related(g, a, b)
  }

  /** `s` cannot be cut in two without separating related positions. */
  ghost predicate Connected(g: Graph, s: set<nat>) {
    forall t {:trigger Crosses(g, s, t)} :: t <= s && t != {} && t != s ==> Crosses(g, s, t)
  }

  lemma ConnectedUnion(g: Graph, p: set<nat>, c: set<nat>, a: nat, b: nat)
    requires Connected(g, p) && Connected(g, c)
    requires a in p && b in c && Related(g, a, b)
    ensures Connected(g, p + c)
  {
    forall t | t <= p + c && t != {} && t != p + c
      ensures Crosses(g, p + c, t)
    {
      if t * p != {} && t * p != p {
        assert Crosses(g, p, t * p);
        var x, y :| x in t * p && y in p - t * p && Related(g, x, y);
        assert x in t && y in (p + c) - t;
      } else if t * c != {} && t * c != c {
        assert Crosses(g, c, t * c);
        var x, y :| x in t * c && y in c - t * c && Related(g, x, y);
        assert x in t && y in (p + c) - t;
      } else if a in t {
        assert a in t * p;
        assert t == t * p + t * c;
        assert t * c == {} && b !in t * c;
        assert a in t && b in (p + c) - t;
      } else {
        assert a !in t * p;
        assert t == t * p + t * c;
        assert t * c == c;
        assert b in t && a in (p + c) - t && Related(g, b, a);
      }
    }
  }

  // ----- flattening

  lemma FlattenPair(p: seq<nat>, c: seq<nat>)
    ensures Flatten([p, c]) == p + c == Flatten([p + c])
  {
    assert [p, c][1..] == [c] && [c][1..] == [] && [p + c][1..] == [];
    assert Flatten([c]) == c + [];
    assert Flatten([p + c]) == p + c + [];
  }

  // ----- peaks at group level

  lemma TotalOfConcat(h: Graph, a: seq<nat>, b: seq<nat>)
    ensures GroupRate(h, a + b) == Plus(GroupRate(h, a), GroupRate(h, b))
  {
    RatesConcat(h, a, b);
    TotalConcat(Rates(h, a), Rates(h, b));
  }

  lemma RatesPrefix(h: Graph, grp: seq<nat>, k: nat)
    requires k <= |grp|
    ensures Rates(h, grp)[..k] == Rates(h, grp[..k])
  {
  }

  lemma GroupPositive(h: Graph, grp: seq<nat>)
    requires h.PositiveSizes() && Elems(grp) <= h.used && grp != []
    ensures GroupRate(h, grp).size > 0
  {
    RatesPositive(h, grp);
    TotalPositive(Rates(h, grp));
  }

  /** Inside a strict group no prefix beats both the empty prefix and the whole group. */
  lemma StrictPeak(h: Graph, grp: seq<nat>, r: FeeFrac)
    requires h.PositiveSizes() && Elems(grp) <= h.used && r.size > 0
    requires Strict(h, grp)
    ensures Peak(Rates(h, grp), r) == Max(0, Gain(GroupRate(h, grp), r))
  {
    hide Gain;
    var fs := Rates(h, grp);
    var k := PeakAttained(fs, r);
    RatesPrefix(h, grp, k);
    PeakBound(fs, |grp|, r);
    assert fs[..|grp|] == fs;
    PeakBound(fs, 0, r);
    GainEmpty(r);
    if 0 < k < |grp| {
      var a, b, t := GroupRate(h, grp[..k]), GroupRate(h, grp[k..]), GroupRate(h, grp);
      assert grp == grp[..k] + grp[k..];
      ElemsConcat(grp[..k], grp[k..]);
      TotalOfConcat(h, grp[..k], grp[k..]);
      GroupPositive(h, grp);
      GroupPositive(h, grp[..k]);
      GroupPositive(h, grp[k..]);
      assert Gain(a, t) < 0;
      StrictCut(a, b, t, r);
    }
  }

  /** A prefix `a` of lower feerate than the whole `t = a + b` gains less than `t` or than nothing. */
  lemma StrictCut(a: FeeFrac, b: FeeFrac, t: FeeFrac, r: FeeFrac)
    requires t == Plus(a, b) && a.size > 0 && b.size > 0 && r.size > 0
    requires Gain(a, t) < 0
    ensures Gain(a, r) <= Gain(t, r) || Gain(a, r) <= 0
  {
    hide Gain;
    GainPlus(a, b, r);
    GainPlus(a, b, t);
    GainSelf(t, t);
    GainSelf(b, t);
    if Gain(b, r) < 0 {
      // rate(a) < rate(t) < rate(b) < rate(r)
      GainTransitive(t, b, r);
      GainTransitive(a, t, r);
    }
  }

  ghost predicate GoodGroup(h: Graph, grp: seq<nat>) {
    Strict(h, grp) && Elems(grp) <= h.used && Connected(h, Elems(grp))
  }

  ghost predicate GoodGroups(h: Graph, gs: seq<seq<nat>>) {
    forall k {:trigger gs[k]} :: 0 <= k < |gs| ==> GoodGroup(h, gs[k])
  }

  lemma {:induction false} PeakOfGroups(h: Graph, gs: seq<seq<nat>>, r: FeeFrac)
    requires h.PositiveSizes() && r.size > 0 && GoodGroups(h, gs)
    ensures Peak(Rates(h, Flatten(gs)), r) == Peak(GroupRates(h, gs), r)
    ensures Total(Rates(h, Flatten(gs))) == Total(GroupRates(h, gs))
  {
    if gs != [] {
      hide Gain, Strict;
      var a, b := gs[0], gs[1..];
      assert GoodGroup(h, gs[0]);
      PeakOfGroups(h, b, r);
      StrictPeak(h, a, r);
      RatesConcat(h, a, Flatten(b));
      PeakConcat(Rates(h, a), Rates(h, Flatten(b)), r);
      TotalConcat(Rates(h, a), Rates(h, Flatten(b)));
      assert GroupRates(h, gs)[1..] == GroupRates(h, b);
      assert GroupRates(h, gs)[0] == GroupRate(h, a);
    }
  }

  /** Swapping two adjacent entries so that the better one comes first lowers no peak. */
  lemma SwapPeak(x: seq<FeeFrac>, p: FeeFrac, c: FeeFrac, y: seq<FeeFrac>, r: FeeFrac)
    requires p.size > 0 && c.size > 0 && r.size > 0 && Higher(c, p)
    ensures Peak(x + [c, p] + y, r) >= Peak(x + [p, c] + y, r)
  {
    SwapPair(p, c, r);
    MiddlePeak(x, [p, c], [c, p], y, r);
  }

  lemma MiddlePeak(x: seq<FeeFrac>, a: seq<FeeFrac>, b: seq<FeeFrac>, y: seq<FeeFrac>, r: FeeFrac)
    requires Peak(b, r) >= Peak(a, r) && Total(a) == Total(b)
    ensures Peak(x + b + y, r) >= Peak(x + a + y, r)
  {
    hide Gain, Peak, Total;
    PeakConcat(x + a, y, r);
    PeakConcat(x + b, y, r);
    PeakConcat(x, a, r);
    PeakConcat(x, b, r);
    TotalConcat(x, a);
    TotalConcat(x, b);
  }

  lemma SwapPair(p: FeeFrac, c: FeeFrac, r: FeeFrac)
    requires p.size > 0 && c.size > 0 && r.size > 0 && Higher(c, p)
    ensures Peak([c, p], r) >= Peak([p, c], r)
    ensures Total([c, p]) == Total([p, c])
  {
    hide Gain;
    assert [c, p][1..] == [p] && [p, c][1..] == [c] && [p][1..] == [] && [c][1..] == [];
    assert Peak([p], r) == Max(0, Gain(p, r)) && Peak([c], r) == Max(0, Gain(c, r));
    TotalSingle(p);
    TotalSingle(c);
    assert Total([c, p]) == Plus(c, Total([p])) && Total([p, c]) == Plus(p, Total([c]));
    GainSelf(p, r);
    GainSelf(c, r);
    GainSelf(c, p);
    if Gain(p, r) > 0 {
      GainTransitive(r, p, c);
    }
  }

  /** Merging a group with a worse predecessor gives a strict group again. */
  lemma MergeStrict(h: Graph, p: seq<nat>, c: seq<nat>)
    requires h.PositiveSizes() && Elems(p) <= h.used && Elems(c) <= h.used
    requires Strict(h, p) && Strict(h, c)
    requires Higher(GroupRate(h, c), GroupRate(h, p))
    ensures Strict(h, p + c)
  {
    var m := p + c;
    forall k | 0 < k < |m|
      ensures Gain(GroupRate(h, m[..k]), GroupRate(h, m)) < 0
    {
      MergePrefix(h, p, c, k);
    }
  }

  lemma MergePrefix(h: Graph, p: seq<nat>, c: seq<nat>, k: nat)
    requires h.PositiveSizes() && Elems(p) <= h.used && Elems(c) <= h.used
    requires Strict(h, p) && Strict(h, c) && 0 < k < |p + c|
    requires Higher(GroupRate(h, c), GroupRate(h, p))
    ensures Gain(GroupRate(h, (p + c)[..k]), GroupRate(h, p + c)) < 0
  {
    hide Gain, GroupRate;
    var m := p + c;
    var fp, fc, t := GroupRate(h, p), GroupRate(h, c), GroupRate(h, m);
    TotalOfConcat(h, p, c);
    GroupPositive(h, p);
    GroupPositive(h, c);
    GainPlus(fp, fc, fp);
    GainPlus(fp, fc, fc);
    GainSelf(fp, fp);
    GainSelf(fc, fc);
    GainSelf(fp, fc);
    GainSelf(t, fp);
    GainSelf(t, fc);
    assert Gain(fp, t) < 0 && Gain(t, fc) < 0;
    if k < |p| {
      assert m[..k] == p[..k];
      assert Gain(GroupRate(h, p[..k]), fp) < 0;
      GainTransitive(GroupRate(h, p[..k]), fp, t);
    } else if k == |p| {
      assert m[..k] == p;
    } else {
      var j := k - |p|;
      assert m[..k] == p + c[..j];
      assert c == c[..j] + c[j..];
      ElemsConcat(c[..j], c[j..]);
      TotalOfConcat(h, p, c[..j]);
      TotalOfConcat(h, c[..j], c[j..]);
      GroupPositive(h, c[j..]);
      var c1, c2 := GroupRate(h, c[..j]), GroupRate(h, c[j..]);
      assert Gain(c1, fc) < 0;
      SuffixGain(fp, c1, c2, fc, t);
    }
  }

  lemma SuffixGain(fp: FeeFrac, c1: FeeFrac, c2: FeeFrac, fc: FeeFrac, t: FeeFrac)
    requires fc == Plus(c1, c2) && t == Plus(fp, fc) && fc.size > 0 && c2.size > 0 && fp.size > 0
    requires Gain(c1, fc) < 0 && Gain(t, fc) < 0
    ensures Gain(Plus(fp, c1), t) < 0
  {
    hide Gain;
    GainPlus(c1, c2, fc);
    GainSelf(fc, fc);
    GainSelf(c2, fc);
    GainTransitive(t, fc, c2);
    PlusAssoc(fp, c1, c2);
    GainPlus(Plus(fp, c1), c2, t);
    GainSelf(t, t);
    GainSelf(c2, t);
  }
}
