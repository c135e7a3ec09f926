// The reversed view of a dependency graph that a backward pass works with (PostLinearize of src/cluster_linearize.h).
module Mirrors {
  import opened FeeFracs
  import opened DepGraphs
  import opened Diagrams
  import opened Linearizations
  import opened TreeShapes
  import opened Trees
  import opened Sequences

  function Negate(f: FeeFrac): FeeFrac { FeeFrac(-f.fee, f.size) }

  /** What a backward pass sees: ancestors and descendants exchanged, fees negated. */
  ghost function Mirror(g: Graph): Graph {
    Graph(seq(|g.entries|, i requires 0 <= i < |g.entries| =>
                Entry(Negate(g.entries[i].feerate), g.entries[i].descendants, g.entries[i].ancestors)),
          g.used)
  }

  ghost function Reverse(s: seq<nat>): seq<nat> {
    seq(|s|, i requires 0 <= i < |s| => s[|s| - 1 - i])
  }

  lemma ReverseElems(s: seq<nat>)
    ensures Elems(Reverse(s)) == Elems(s)
    ensures Distinct(Reverse(s)) <==> Distinct(s)
    ensures Reverse(Reverse(s)) == s
  {
    var r := Reverse(s);
    forall x
      ensures x in r <==> x in s
    {
      if x in s {
        var i :| 0 <= i < |s| && s[i] == x;
        assert r[|s| - 1 - i] == x;
      }
    }
    if Distinct(r) {
      forall i, j | 0 <= i < j < |s|
        ensures s[i] != s[j]
      {
        assert r[|s| - 1 - j] != r[|s| - 1 - i];
      }
    }
  }

  lemma MirrorValid(g: Graph)
    requires g.Valid() && g.PositiveSizes()
    ensures Mirror(g).PositiveSizes()
    ensures forall i :: i in g.used ==> Mirror(g).Anc(i) == g.Desc(i) && Mirror(g).Rate(i) == Negate(g.Rate(i))
  {
    UsedInRange(g);
  }

  lemma MirrorTopological(g: Graph, lin: seq<nat>)
    requires g.Valid() && g.PositiveSizes() && Elems(lin) <= g.used
    ensures Topological(g, lin) <==> Topological(Mirror(g), Reverse(lin))
  {
    MirrorValid(g);
    var m, r, n := Mirror(g), Reverse(lin), |lin|;
    forall i, j | 0 <= i < j < n
      ensures lin[j] in g.Anc(lin[i]) <==> r[n - 1 - i] in m.Anc(r[n - 1 - j])
    {
      assert lin[i] in Elems(lin) && lin[j] in Elems(lin);
      assert g.Consistent(lin[i]);
    }
    if Topological(g, lin) {
      forall i, j | 0 <= i < j < n
        ensures r[j] !in m.Anc(r[i])
      {
        assert lin[n - 1 - i] !in g.Anc(lin[n - 1 - j]);
      }
    }
    if Topological(m, r) {
      forall i, j | 0 <= i < j < n
        ensures lin[j] !in g.Anc(lin[i])
      {
        assert r[n - 1 - i] !in m.Anc(r[n - 1 - j]);
      }
    }
  }

  ghost function Mirrored(fs: seq<FeeFrac>): seq<FeeFrac> {
    if fs == [] then [] else Mirrored(fs[1..]) + [Negate(fs[0])]
  }

  lemma NegateGain(f: FeeFrac, r: FeeFrac)
    ensures Gain(Negate(f), Negate(r)) == -Gain(f, r)
  {
  }

  lemma PeakSingle(f: FeeFrac, r: FeeFrac)
    ensures Peak([f], r) == Max(0, Gain(f, r))
  {
    assert Peak([f], r) == Max(0, Gain(f, r) + Peak([], r));
  }

  /** Prefixes of the mirrored list are complements of prefixes of the list. */
  lemma {:induction false} MirrorPeak(fs: seq<FeeFrac>, r: FeeFrac)
    ensures Peak(Mirrored(fs), Negate(r)) == Peak(fs, r) - Gain(Total(fs), r)
    ensures Total(Mirrored(fs)) == Negate(Total(fs))
  {
    if fs == [] {
      hide Gain;
      GainEmpty(r);
    } else {
      hide Gain, Peak, Total;
      MirrorPeak(fs[1..], r);
      MirrorPeakStep(fs[0], fs[1..], Mirrored(fs[1..]), r);
      SplitFirst(fs);
    }
  }

  lemma SplitFirst<T>(s: seq<T>)
    requires s != []
    ensures s == [s[0]] + s[1..]
  {
  }

  lemma MirrorPeakStep(f: FeeFrac, t: seq<FeeFrac>, mt: seq<FeeFrac>, r: FeeFrac)
    requires Peak(mt, Negate(r)) == Peak(t, r) - Gain(Total(t), r) && Total(mt) == Negate(Total(t))
    ensures Peak(mt + [Negate(f)], Negate(r)) == Peak([f] + t, r) - Gain(Total([f] + t), r)
    ensures Total(mt + [Negate(f)]) == Negate(Total([f] + t))
  {
    PeakNonNegative(t, r);
    PeakSingle(Negate(f), Negate(r));
    PeakSingle(f, r);
    hide Peak, Total, Gain;
    PeakConcat(mt, [Negate(f)], Negate(r));
    PeakConcat([f], t, r);
    TotalConcat(mt, [Negate(f)]);
    TotalConcat([f], t);
    TotalSingle(f);
    TotalSingle(Negate(f));
    NegateGain(f, r);
    NegateGain(Total(t), r);
    GainPlus(f, Total(t), r);
  }

  lemma MirrorDominates(a: seq<FeeFrac>, b: seq<FeeFrac>)
    requires Dominates(Mirrored(a), Mirrored(b)) && Total(a) == Total(b)
    ensures Dominates(a, b)
  {
    forall r: FeeFrac | r.size > 0
      ensures Peak(a, r) >= Peak(b, r)
    {
      assert Peak(Mirrored(a), Negate(r)) >= Peak(Mirrored(b), Negate(r));
      MirrorPeak(a, r);
      MirrorPeak(b, r);
    }
  }

  lemma {:induction false} MirrorRates(g: Graph, lin: seq<nat>)
    requires g.Valid() && g.PositiveSizes() && Elems(lin) <= g.used
    ensures Rates(Mirror(g), Reverse(lin)) == Mirrored(Rates(g, lin))
  {
    if lin != [] {
      MirrorValid(g);
      var x, t := lin[0], lin[1..];
      assert lin == [x] + t;
      ElemsConcat([x], t);
      assert x in Elems(lin);
      MirrorRates(g, t);
      assert Rates(g, lin)[1..] == Rates(g, t);
      assert Reverse(lin) == Reverse(t) + [x];
      RatesConcat(Mirror(g), Reverse(t), [x]);
      assert Rates(Mirror(g), [x]) == [Negate(g.Rate(x))];
    }
  }

  // ----- trees upside down

  lemma {:induction false} MirrorOrder(g: Graph)
    requires g.Valid() && g.PositiveSizes() && IsOrder(g)
    ensures IsOrder(Mirror(g))
  {
    var h := Mirror(g);
    UsedInRange(g);
    MirrorValid(g);
    hide Mirror;
    forall a | a in g.used
      ensures forall b :: b in h.Anc(a) <==> b in g.used && a in g.Anc(b)
    {
      assert g.Consistent(a);
    }
  }

  lemma {:induction false} MirrorChild(g: Graph, p: nat, c: nat)
    requires g.Valid() && g.PositiveSizes()
    ensures IsChild(Mirror(g), c, p) <==> IsChild(g, p, c)
  {
    var h := Mirror(g);
    MirrorValid(g);
    forall a, b | a in g.used && b in g.used
      ensures b in h.Anc(a) <==> a in g.Anc(b)
    {
      assert g.Consistent(a);
    }
    assert h.used == g.used;
    hide Mirror;
  }

  /** A backward pass sees "at most one parent" as the shape it handles optimally. */
  lemma {:induction false} OneParentTreelike(g: Graph)
    requires g.Valid() && g.PositiveSizes() && IsOrder(g)
    ensures OneParent(g) <==> Treelike(Mirror(g))
  {
    var h := Mirror(g);
    MirrorOrder(g);
    OneChildTreelike(h);
    forall p, c
      ensures IsChild(h, c, p) <==> IsChild(g, p, c)
    {
      MirrorChild(g, p, c);
    }
    hide Mirror, IsChild, Treelike;
  }
}
