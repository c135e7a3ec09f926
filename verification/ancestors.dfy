// Class AncestorCandidateFinder (src/cluster_linearize.h).
module AncestorFinders {
  import opened FeeFracs
  import opened IndexSets
  import opened DepGraphs
  import opened Linearizations
  import opened Chunking

  /** The remaining ancestors of `i`, itself included. */
  ghost function AncLeft(g: Graph, todo: set<nat>, i: nat): set<nat> { g.Anc(i) * todo }

  /** The cached feerates are those of the remaining ancestor sets. */
  ghost predicate Cached(g: Graph, todo: set<nat>, rates: seq<FeeFrac>, who: set<nat>) {
    && |rates| == |g.entries|
    && (forall i :: i in who ==> i < |rates|)
    && forall i {:trigger AncLeft(g, todo, i)} :: i in who ==> rates[i] == SetRate(g, AncLeft(g, todo, i))
  }

  /** `a` = `first`'s ancestors plus the others. */
  lemma AncestorsSplit(g: Graph, i: nat, first: nat)
    requires g.Valid() && g.Acyclic() && i in g.used && first in g.Anc(i) && first != i
    ensures SetRate(g, g.Anc(i)) == Plus(SetRate(g, g.Anc(first)), SetRate(g, g.Anc(i) - g.Anc(first)))
    ensures i in g.Anc(i) - g.Anc(first)
  {
    assert g.Consistent(i);
    assert g.Anc(i) * g.Anc(first) == g.Anc(first);
    SetRateSplit(g, g.Anc(i), g.Anc(first));
  }

  lemma AncLeftAll(g: Graph, i: nat)
    requires g.Valid() && i in g.used
    ensures AncLeft(g, g.used, i) == g.Anc(i)
  {
    assert g.Consistent(i);
  }

  method SubtractFrom(rates: seq<FeeFrac>, who: set<nat>, f: FeeFrac) returns (r: seq<FeeFrac>)
    requires forall j :: j in who ==> j < |rates| && rates[j].size >= f.size
    ensures |r| == |rates|
    ensures forall j :: 0 <= j < |rates| ==> r[j] == if j in who then Minus(rates[j], f) else rates[j]
  {
    r := rates;
    var rest := who;
    while rest != {}
      invariant rest <= who && |r| == |rates|
      invariant forall j :: 0 <= j < |rates| ==> r[j] == if j in who - rest then Minus(rates[j], f) else rates[j]
      decreases rest
    {
      var j :| j in rest;
      rest := rest - {j};
      r := r[j := Minus(r[j], f)];
    }
  }

  /** Taking `i` out of what remains lowers the ancestor sets of exactly its descendants. */
  lemma DropOne(g: Graph, left: set<nat>, i: nat, j: nat)
    requires g.Valid() && left <= g.used && i in left && j in g.used
    ensures j in g.Desc(i) ==> SetRate(g, AncLeft(g, left, j)) == Plus(g.Rate(i), SetRate(g, AncLeft(g, left - {i}, j)))
    ensures j !in g.Desc(i) ==> AncLeft(g, left - {i}, j) == AncLeft(g, left, j)
  {
    assert g.Consistent(i);
    if j in g.Desc(i) {
      SetRateRemove(g, AncLeft(g, left, j), i);
      assert AncLeft(g, left, j) - {i} == AncLeft(g, left - {i}, j);
    }
  }

  /** What one round of MarkDone's loop does to the cache. */
  lemma CacheStep(g: Graph, left: set<nat>, who: set<nat>, i: nat, rates: seq<FeeFrac>, r: seq<FeeFrac>)
    requires g.Valid() && left <= g.used && i in left && who <= g.used
    requires Cached(g, left, rates, who) && |r| == |rates|
    requires forall j :: j in g.Desc(i) * who ==> rates[j].size >= g.Rate(i).size
    requires forall j :: 0 <= j < |rates| ==>
                r[j] == if j in g.Desc(i) * who then Minus(rates[j], g.Rate(i)) else rates[j]
    ensures Cached(g, left - {i}, r, who)
  {
    forall j | j in who
      ensures r[j] == SetRate(g, AncLeft(g, left - {i}, j))
    {
      DropOne(g, left, i, j);
      assert rates[j] == SetRate(g, AncLeft(g, left, j));
      MinusPlus(g.Rate(i), SetRate(g, AncLeft(g, left - {i}, j)));
    }
  }

  lemma CacheRoom(g: Graph, left: set<nat>, who: set<nat>, i: nat, rates: seq<FeeFrac>)
    requires g.Valid() && left <= g.used && i in left && who <= g.used
    requires Cached(g, left, rates, who)
    ensures forall j :: j in g.Desc(i) * who ==> j < |rates| && rates[j].size >= g.Rate(i).size
  {
    forall j | j in g.Desc(i) * who
      ensures j < |rates| && rates[j].size >= g.Rate(i).size
    {
      DropOne(g, left, i, j);
      assert rates[j] == SetRate(g, AncLeft(g, left, j));
    }
  }

  lemma CachedPositive(g: Graph, todo: set<nat>, rates: seq<FeeFrac>)
    requires g.Valid() && g.PositiveSizes() && todo <= g.used && Cached(g, todo, rates, todo)
    ensures forall i :: i in todo ==> rates[i].size > 0
  {
    forall i | i in todo
      ensures rates[i].size > 0
    {
      AncestorsClosed(g, todo, i);
      assert rates[i] == SetRate(g, AncLeft(g, todo, i));
      SetRatePositive(g, AncLeft(g, todo, i));
    }
  }

  class AncestorCandidateFinder {
    const g: Graph
    /** The positions that no candidate has covered yet. */
    var todo: set<nat>
    /** Ancestor-set feerates, kept up to date for the positions in `todo`. */
    var rates: seq<FeeFrac>

    ghost predicate Valid()
      reads this
    {
      g.Valid() && g.PositiveSizes() && todo <= g.used && Cached(g, todo, rates, todo)
    }

    constructor (g: Graph)
      requires g.Valid() && g.Acyclic() && g.PositiveSizes()
      ensures Valid() && this.g == g && todo == g.used
    {
      this.g, todo := g, g.used;
      var rs := seq(|g.entries|, _ => EMPTY);
      UsedInRange(g);
      var rest := g.used;
      while rest != {}
        invariant rest <= g.used && Cached(g, g.used, rs, g.used - rest)
        decreases rest
      {
        var i := First(rest);
        assert g.Consistent(i);
        var ancToAdd, base := g.Anc(i), EMPTY;
        var first := First(ancToAdd);
        AncLeftAll(g, i);
        PlusEmpty(SetRate(g, g.Anc(i)));
        if first < i {
          // Reuse the accumulated feerate of the first ancestor.
          AncestorsSplit(g, i, first);
          AncLeftAll(g, first);
          base := rs[first];
          ancToAdd := ancToAdd - g.Anc(first);
        }
        assert i in ancToAdd;
        var sum := FeeRateOf(g, ancToAdd);
        rs := rs[i := Plus(base, sum)];
        rest := rest - {i};
      }
      assert g.used - rest == g.used;
      rates := rs;
    }

    /** Take `select` out of `todo`, keeping the cached feerates exact. */
    method MarkDone(select: set<nat>)
      requires Valid() && select <= todo
      modifies this
      ensures Valid() && todo == old(todo) - select
    {
      var left := todo - select;
      assert Cached(g, left + select, rates, left) by { assert left + select == todo; }
      todo := left;
      var rest := select;
      while rest != {}
        invariant rest <= select && todo == left && left !! select
        invariant Cached(g, left + rest, rates, left)
        decreases rest
      {
        var i := First(rest);
        CacheRoom(g, left + rest, left, i, rates);
        var lowered := SubtractFrom(rates, g.Desc(i) * todo, g.Rate(i));
        CacheStep(g, left + rest, left, i, rates, lowered);
        assert left + rest - {i} == left + (rest - {i});
        rates := lowered;
        rest := rest - {i};
      }
      assert left + {} == left;
    }

    /** The best (highest feerate, smallest on a tie) remaining ancestor set. */
    method FindCandidateSet() returns (r: SetInfo)
      requires Valid() && todo != {}
      ensures exists i :: i in todo && r.transactions == AncLeft(g, todo, i)
      ensures r.feerate == SetRate(g, r.transactions) && Closed(g, todo, r.transactions) && r.transactions != {}
      ensures forall j :: j in todo ==> !Better(SetRate(g, AncLeft(g, todo, j)), r.feerate)
    {
      var rest := todo;
      var best := First(rest);
      rest := rest - {best};
      BetterIrreflexive(rates[best]);
      CachedPositive(g, todo, rates);
      while rest != {}
        invariant rest <= todo && best in todo
        invariant forall j :: j in todo - rest ==> !Better(rates[j], rates[best])
        decreases rest
      {
        hide Better;
        var i := First(rest);
        rest := rest - {i};
        if Better(rates[i], rates[best]) {
          forall j | j in todo - rest
            ensures !Better(rates[j], rates[i])
          {
            BetterIrreflexive(rates[i]);
            if j != i {
              BetterTrans(rates[j], rates[best], rates[i]);
            }
          }
          best := i;
        }
      }
      AncestorsClosed(g, todo, best);
      r := SetInfo(g.Anc(best) * todo, rates[best]);
      assert r.transactions == AncLeft(g, todo, best);
      forall j | j in todo
        ensures !Better(SetRate(g, AncLeft(g, todo, j)), r.feerate)
      {
        assert rates[j] == SetRate(g, AncLeft(g, todo, j));
      }
    }
  }

  lemma BetterIrreflexive(a: FeeFrac)
    ensures !Better(a, a)
  {
    GainSelf(a, a);
  }

  /** If `b` is replaced by the better `c`, what did not beat `b` does not beat `c`. */
  lemma BetterTrans(a: FeeFrac, b: FeeFrac, c: FeeFrac)
    requires a.size > 0 && b.size > 0 && c.size > 0
    requires !Better(a, b) && Better(c, b)
    ensures !Better(a, c)
  {
    hide Gain;
    GainSelf(b, c);
    GainTransitive(a, b, c);
  }
}
