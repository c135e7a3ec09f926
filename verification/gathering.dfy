// Why moving a well-chosen set to the front never worsens a linearization: the argument behind
// LinearizationChunking::IntersectPrefixes (src/cluster_linearize.h).
module Gathering {
  import opened FeeFracs
  import opened DepGraphs
  import opened Diagrams
  import opened Linearizations
  import opened Chunking
  import opened Sequences

  /** `s` is at least as good as the first chunk, and no intersection of `s` with a prefix of the
      chunks is better than `s`. */
  ghost predicate Gatherable(g: Graph, cs: seq<SetInfo>, s: set<nat>) {
    && s != {}
    && (cs != [] ==> Gain(cs[0].feerate, SetRate(g, s)) <= 0)
    && forall j {:trigger PrefixSet(cs, j)} :: 0 <= j <= |cs| ==>
         Gain(SetRate(g, s * PrefixSet(cs, j)), SetRate(g, s)) <= 0
  }

  /** Moving the set `s` (in any order `t`) in front of the rest of `lin` keeps a prefix whose
      element set is `s` together with any prefix set `p` of `lin`. */
  lemma GatheredSplit(lin: seq<nat>, s: set<nat>, t: seq<nat>, p: set<nat>) returns (head: seq<nat>, rest: seq<nat>)
    requires Distinct(lin) && Distinct(t) && Elems(t) == s && s <= Elems(lin)
    requires IsPrefixSet(lin, p)
    ensures t + Filter(lin, Elems(lin) - s) == head + rest
    ensures Distinct(head) && Elems(head) == s + p
  {
    var k :| 0 <= k <= |lin| && p == Elems(lin[..k]);
    var keep := Elems(lin) - s;
    var a, b := lin[..k], lin[k..];
    assert lin == a + b;
    ElemsConcat(a, b);
    hide Distinct, Filter, Elems;
    var fa, fb := Filter(a, keep), Filter(b, keep);
    assert t + Filter(lin, keep) == t + fa + fb by {
      FilterConcat(a, b, keep);
      assert t + (fa + fb) == t + fa + fb;
    }
    assert Elems(fa) == p * keep && Distinct(fa) by {
      FilterElems(a, keep);
      FilterDistinct(a, keep);
    }
    head, rest := t + fa, fb;
    ElemsConcat(t, fa);
  }

  lemma GatheredPrefix(g: Graph, lin: seq<nat>, s: set<nat>, t: seq<nat>, p: set<nat>, r: FeeFrac)
    requires Distinct(lin) && Distinct(t) && Elems(t) == s && s <= Elems(lin)
    requires IsPrefixSet(lin, p)
    ensures Peak(Rates(g, t + Filter(lin, Elems(lin) - s)), r) >= Gain(SetRate(g, s + p), r)
  {
    hide Distinct, Filter, Gain, SetRate, Elems;
    var head, rest := GatheredSplit(lin, s, t, p);
    TotalRates(g, head);
    RatesConcat(g, head, rest);
    var all := Rates(g, head + rest);
    assert all[..|head|] == Rates(g, head);
    PeakBound(all, |head|, r);
  }

  lemma {:induction false} FilterDistinct(lin: seq<nat>, s: set<nat>)
    requires Distinct(lin)
    ensures Distinct(Filter(lin, s))
  {
    if lin != [] {
      var h, t := [lin[0]], lin[1..];
      assert lin == h + t;
      ElemsConcat(h, t);
      FilterDistinct(t, s);
      FilterElems(t, s);
      ElemsConcat(if lin[0] in s then h else [], Filter(t, s));
    }
  }

  /** The rate-level core: either adding `s` to `p` gains over `r`, or everything loses to `r`. */
  lemma GatherGain(g: Graph, cs: seq<SetInfo>, s: set<nat>, p: set<nat>, r: FeeFrac)
    requires g.PositiveSizes() && s <= g.used && s != {} && r.size > 0
    requires cs != [] && NonIncreasing(RatesOf(cs)) && cs[0].feerate.size > 0
    requires Gain(cs[0].feerate, SetRate(g, s)) <= 0
    requires Gain(SetRate(g, s * p), SetRate(g, s)) <= 0
    ensures Gain(SetRate(g, s + p), r) >= Gain(SetRate(g, p), r) || Peak(RatesOf(cs), r) == 0
  {
    hide Gain, SetRate;
    var rs, c := SetRate(g, s), cs[0].feerate;
    var extra := SetRate(g, s - p);
    assert s + p == p + (s - p);
    SetRateUnion(g, p, s - p);
    GainPlus(SetRate(g, p), extra, r);
    if Gain(extra, r) < 0 {
      EmptyGain(g, r);
      assert s - p != {};
      SetRatePositive(g, s);
      SetRatePositive(g, s - p);
      SetRateSplit(g, s, p);
      GainPlus(SetRate(g, s * p), extra, rs);
      GainSelf(rs, rs);
      GainSelf(extra, rs);
      // rate(c) <= rate(s) <= rate(s - p) < rate(r)
      GainTransitive(rs, extra, r);
      GainTransitive(c, rs, r);
      forall i | 0 <= i < |cs|
        ensures !Higher(RatesOf(cs)[i], r)
      {
        assert Gain(c, r) <= 0;
        if i > 0 {
          assert !Higher(RatesOf(cs)[i], RatesOf(cs)[0]);
          GainTransitive(cs[i].feerate, c, r);
        }
      }
      PeakOfWorse(RatesOf(cs), r);
    }
  }

  lemma EmptyGain(g: Graph, r: FeeFrac)
    ensures Gain(SetRate(g, {}), r) == 0
  {
    GainEmpty(r);
  }

  /** Moving a gatherable set to the front yields a linearization at least as good everywhere. */
  lemma Gather(g: Graph, lin: seq<nat>, s: set<nat>, t: seq<nat>)
    requires g.PositiveSizes() && Elems(lin) <= g.used
    requires Distinct(lin) && Distinct(t) && Elems(t) == s && s <= Elems(lin)
    requires Gatherable(g, ChunkSets(g, lin), s)
    ensures Dominates(Rates(g, t + Filter(lin, Elems(lin) - s)), Rates(g, lin))
  {
    hide Gain, SetRate, ChunkSets, Filter;
    var cs := ChunkSets(g, lin);
    var moved := t + Filter(lin, Elems(lin) - s);
    RatesPositive(g, lin);
    ChunkSetsRates(g, lin);
    ChunkSetsGood(g, lin);
    ChunkNonIncreasing(Rates(g, lin));
    var x :| x in s;
    assert lin != [];
    assert RatesOf(cs)[0].size > 0;
    forall r: FeeFrac | r.size > 0
      ensures Peak(Rates(g, moved), r) >= Peak(Rates(g, lin), r)
    {
      ChunkPeak(Rates(g, lin), r);
      var k := PeakAttained(RatesOf(cs), r);
      PrefixSetTotal(g, cs, k);
      var p := PrefixSet(cs, k);
      ChunkPrefix(g, lin, k);
      GatheredPrefix(g, lin, s, t, p, r);
      GatherGain(g, cs, s, p, r);
    }
  }
}
