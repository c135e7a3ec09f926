// Why the branch-and-bound search of SearchCandidateFinder discards no optimum: the potential-set
// bound, the jump-ahead step and the include/exclude split (src/cluster_linearize.h).
module SearchBounds {
  import opened FeeFracs
  import opened DepGraphs
  import opened Linearizations
  import opened Chunking
  import opened Groups
  import opened Components

  /** Positions carry decreasing individual feerates. */
  ghost predicate SortedByRate(s: Graph) {
    forall i, j :: i in s.used && j in s.used && i < j ==> Gain(s.Rate(j), s.Rate(i)) <= 0
  }

  /** `x` contains what is included and, beyond that, only undecided positions. */
  ghost predicate Compatible(inc: set<nat>, und: set<nat>, x: set<nat>) {
    inc <= x <= inc + und
  }

  /** The positions of `todo` with a higher feerate than `best`. */
  ghost function Improving(s: Graph, todo: set<nat>, best: FeeFrac): set<nat> {
    set x | x in todo && Gain(s.Rate(x), best) > 0
  }

  // ----- the potential set

  /** `pot` is `inc` plus positions of `imp * und`, each better than `pot` itself; the positions of
      `imp * und` left out are not. */
  ghost predicate IsPotential(s: Graph, inc: set<nat>, cand: set<nat>, pot: SetInfo) {
    && inc <= pot.transactions <= inc + cand
    && pot.feerate == SetRate(s, pot.transactions)
    && (forall a :: a in pot.transactions - inc ==> Gain(s.Rate(a), pot.feerate) > 0)
    && (forall x :: x in cand - pot.transactions ==> Gain(s.Rate(x), pot.feerate) <= 0)
  }

  /** Keeping only part of a set and adding nothing that gains cannot gain more than the set. */
  lemma KeepAndAdd(s: Graph, whole: set<nat>, kept: set<nat>, x: set<nat>, r: FeeFrac)
    requires kept <= whole && kept <= x
    requires forall a :: a in whole - kept ==> Gain(s.Rate(a), r) > 0
    requires forall b :: b in x - kept ==> Gain(s.Rate(b), r) <= 0
    ensures Gain(SetRate(s, x), r) <= Gain(SetRate(s, whole), r)
  {
    hide Gain, SetRate;
    assert whole * kept == kept && x * kept == kept;
    SetRateSplit(s, whole, kept);
    SetRateSplit(s, x, kept);
    SetGainPositive(s, whole - kept, r);
    SetGainNonPositive(s, x - kept, r);
    GainPlus(SetRate(s, kept), SetRate(s, whole - kept), r);
    GainPlus(SetRate(s, kept), SetRate(s, x - kept), r);
  }

  /** Any compatible set, topological or not, is bounded by the potential set or by best. */
  lemma PotentialBound(s: Graph, todo: set<nat>, best: FeeFrac, inc: set<nat>, und: set<nat>, pot: SetInfo, x: set<nat>)
    requires s.PositiveSizes() && todo <= s.used && inc <= todo && und <= todo && inc !! und && inc != {}
    requires best.size > 0 && IsPotential(s, inc, Improving(s, todo, best) * und, pot)
    requires Compatible(inc, und, x)
    ensures Gain(SetRate(s, x), pot.feerate) <= 0 || Gain(SetRate(s, x), best) <= 0
  {
    SetRatePositive(s, pot.transactions);
    var p := pot.transactions;
    if Gain(best, pot.feerate) <= 0 {
      forall b | b in x - x * p
        ensures Gain(s.Rate(b), pot.feerate) <= 0
      {
        if b !in Improving(s, todo, best) {
          GainTransitive(s.Rate(b), best, pot.feerate);
        }
      }
      KeepAndAdd(s, p, x * p, x, pot.feerate);
      GainSelf(pot.feerate, pot.feerate);
    } else {
      BelowBest(s, todo, best, inc, und, pot, x);
    }
  }

  lemma BelowBest(s: Graph, todo: set<nat>, best: FeeFrac, inc: set<nat>, und: set<nat>, pot: SetInfo, x: set<nat>)
    requires s.PositiveSizes() && todo <= s.used && inc <= todo && und <= todo && inc !! und && inc != {}
    requires best.size > 0 && IsPotential(s, inc, Improving(s, todo, best) * und, pot)
    requires Compatible(inc, und, x) && pot.feerate.size > 0
    requires Gain(best, pot.feerate) > 0
    ensures Gain(SetRate(s, x), best) <= 0
  {
    var p, cand := pot.transactions, Improving(s, todo, best) * und;
    GainSelf(best, pot.feerate);
    forall y | y in cand
      ensures y in p
    {
      if y !in p {
        GainSelf(s.Rate(y), best);
        GainTransitive(best, s.Rate(y), pot.feerate);
      }
    }
    forall b | b in x - x * p
      ensures Gain(s.Rate(b), best) <= 0
    {
      assert b in und;
    }
    KeepAndAdd(s, p, x * p, x, best);
  }

  // ----- jumping ahead

  /** Adding members of the potential set to a compatible set that beats best does not lower it. */
  lemma JumpAhead(s: Graph, inc: set<nat>, cand: set<nat>, pot: SetInfo, x: set<nat>, t: set<nat>)
    requires s.PositiveSizes() && x <= s.used && x != {} && IsPotential(s, inc, cand, pot)
    requires inc <= x && t <= pot.transactions && pot.feerate.size > 0
    requires Gain(SetRate(s, x), pot.feerate) <= 0
    ensures Gain(SetRate(s, x + t), SetRate(s, x)) >= 0
  {
    hide Gain, SetRate;
    var rx := SetRate(s, x);
    SetRatePositive(s, x);
    GainSelf(rx, pot.feerate);
    forall a | a in t - x
      ensures Gain(s.Rate(a), rx) > 0
    {
      assert Gain(s.Rate(a), pot.feerate) > 0;
      GainSelf(s.Rate(a), pot.feerate);
      GainSelf(s.Rate(a), rx);
      GainTransitive(rx, pot.feerate, s.Rate(a));
    }
    SetGainPositive(s, t - x, rx);
    assert x + t == x + (t - x);
    SetRateUnion(s, x, t - x);
    GainPlus(rx, SetRate(s, t - x), rx);
    GainSelf(rx, rx);
  }

  // ----- closed sets

  lemma ClosedUnion(g: Graph, todo: set<nat>, a: set<nat>, b: set<nat>)
    requires Closed(g, todo, a) && Closed(g, todo, b)
    ensures Closed(g, todo, a + b)
  {
  }

  /** A closed set either contains `t` with all its ancestors, or none of its descendants. */
  lemma SplitCases(g: Graph, todo: set<nat>, t: nat, x: set<nat>)
    requires g.Valid() && todo <= g.used && t in todo && Closed(g, todo, x)
    ensures t in x ==> g.Anc(t) * todo <= x
    ensures t !in x ==> x !! g.Desc(t)
  {
    if t !in x {
      forall d | d in x
        ensures d !in g.Desc(t)
      {
        assert g.Consistent(d);
        assert g.Anc(d) * todo <= x;
      }
    }
  }

  /** Excluding a position with its descendants leaves a closed set of candidates. */
  lemma ExcludeClosed(g: Graph, todo: set<nat>, inc: set<nat>, und: set<nat>, t: nat)
    requires g.Valid() && todo <= g.used && t in und && inc !! und
    requires Closed(g, todo, inc) && Closed(g, todo, inc + und)
    ensures Closed(g, todo, inc + (und - g.Desc(t)))
  {
    forall i | i in inc + (und - g.Desc(t))
      ensures g.Anc(i) * todo <= inc + (und - g.Desc(t))
    {
      assert g.Anc(i) * todo <= inc + und;
      if i !in inc {
        forall a | a in g.Anc(i) * todo
          ensures a !in g.Desc(t)
        {
          assert g.Consistent(i) && g.Consistent(a);
          assert a in g.Desc(t) <==> t in g.Anc(a);
          assert t in g.Anc(a) ==> t in g.Anc(i);
          assert t !in g.Anc(i);
        }
      }
    }
  }

  lemma IncludeClosed(g: Graph, todo: set<nat>, inc: set<nat>, und: set<nat>, t: nat)
    requires g.Valid() && todo <= g.used && t in und && inc !! und
    requires Closed(g, todo, inc) && Closed(g, todo, inc + und)
    ensures var anc := g.Anc(t) * todo;
            && anc <= inc + und && t in anc
            && Closed(g, todo, inc + anc)
            && (inc + anc) + (und - anc) == inc + und
            && (inc + anc) !! (und - anc)
  {
    AncestorsClosed(g, todo, t);
    ClosedUnion(g, todo, inc, g.Anc(t) * todo);
  }

  /** Within a component, a closed set stays closed. */
  lemma ComponentClosed(g: Graph, todo: set<nat>, comp: set<nat>, y: set<nat>)
    requires g.Valid() && todo <= g.used && Separate(g, todo, comp) && Closed(g, todo, y)
    ensures Closed(g, todo, y * comp) && Closed(g, todo, comp)
  {
    forall i, a | i in comp && a in g.Anc(i) * todo
      ensures a in comp
    {
      assert Related(g, i, a);
    }
  }

  /** Of two parts of a set, one is at least as good as the set. */
  lemma BetterPart(g: Graph, y: set<nat>, comp: set<nat>)
    requires g.PositiveSizes() && y <= g.used && y != {}
    ensures (y * comp != {} && Gain(SetRate(g, y * comp), SetRate(g, y)) >= 0) ||
            (y - comp != {} && Gain(SetRate(g, y - comp), SetRate(g, y)) >= 0)
  {
    hide Gain, SetRate;
    var ry := SetRate(g, y);
    SetRateSplit(g, y, comp);
    GainPlus(SetRate(g, y * comp), SetRate(g, y - comp), ry);
    GainSelf(ry, ry);
    assert y == y * comp + (y - comp);
    if y * comp == {} {
      assert y - comp == y;
    } else if y - comp == {} {
      assert y * comp == y;
    }
  }
}
