// What a pass over a linearization guarantees, whichever way it goes (PostLinearize of src/cluster_linearize.h).
module PassGuarantees {
  import opened FeeFracs
  import opened DepGraphs
  import opened Diagrams
  import opened Linearizations
  import opened Passes
  import opened GroupPasses
  import opened Trees
  import opened TreeShapes
  import opened MovedLeaves
  import opened Mirrors
  import opened Sequences

  /** The graph as the pass sees it. */
  ghost function Seen(g: Graph, rev: bool): Graph { if rev then Mirror(g) else g }

  ghost function Order(lin: seq<nat>, rev: bool): seq<nat> { if rev then Reverse(lin) else lin }

  lemma SeenFacts(g: Graph, lin: seq<nat>, rev: bool)
    requires g.Valid() && g.PositiveSizes() && IsLin(g, lin, g.used)
    ensures var h, inp := Seen(g, rev), Order(lin, rev);
            && h.PositiveSizes() && h.used == g.used
            && IsLin(h, inp, g.used) && |inp| == |lin|
            && (forall x :: x in g.used ==>
                  && h.Anc(x) == (if rev then g.Desc(x) else g.Anc(x))
                  && h.Rate(x) == (if rev then Negate(g.Rate(x)) else g.Rate(x)))
  {
    MirrorValid(g);
    MirrorTopological(g, lin);
    ReverseElems(lin);
  }

  lemma PassResult(g: Graph, before: seq<nat>, after: seq<nat>, rev: bool, gs: seq<seq<nat>>)
    requires g.Valid() && g.PositiveSizes() && IsLin(g, before, g.used)
    requires Sound(Seen(g, rev), Order(before, rev), gs)
    requires after == Order(Flatten(gs), rev)
    ensures IsLin(g, after, g.used) && Dominates(Rates(g, after), Rates(g, before))
  {
    if rev {
      ReverseElems(before);
      ReverseElems(Flatten(gs));
      MirrorTopological(g, after);
      MirrorRates(g, after);
      MirrorRates(g, before);
      TotalRates(g, after);
      TotalRates(g, before);
      MirrorDominates(Rates(g, after), Rates(g, before));
    }
  }

  // ----- trees

  /** On the shape its direction handles, a pass is as good as every linearization. */
  lemma {:induction false} PassOptimal(g: Graph, before: seq<nat>, after: seq<nat>, rev: bool, l: seq<nat>)
    requires g.Valid() && g.PositiveSizes() && IsLin(g, before, g.used) && IsLin(g, l, g.used)
    requires Treelike(Seen(g, rev)) && after == Order(Flatten(GroupsOf(Seen(g, rev), Order(before, rev))), rev)
    ensures Dominates(Rates(g, after), Rates(g, l))
  {
    var h, inp, alt := Seen(g, rev), Order(before, rev), Order(l, rev);
    SeenFacts(g, before, rev);
    SeenFacts(g, l, rev);
    SeenReflexive(g, rev);
    hide GroupsOf, Seen, Order, Treelike;
    var gs := GroupsOf(h, inp);
    assert inp + [] == inp;
    GroupsTight(h, inp, []);
    TightOptimal(h, gs, alt);
    PassResult(g, l, after, rev, gs);
  }

  lemma SeenReflexive(g: Graph, rev: bool)
    requires g.Valid() && g.PositiveSizes()
    ensures forall x :: x in g.used ==> x in Seen(g, rev).Anc(x)
  {
    MirrorValid(g);
    forall x | x in g.used
      ensures x in g.Anc(x) && x in g.Desc(x)
    {
      assert g.Consistent(x);
    }
  }

  lemma {:induction false} TreeSeen(g: Graph, lin: seq<nat>)
    requires g.Valid() && g.PositiveSizes() && IsLin(g, lin, g.used)
    ensures OneChild(g) <==> Treelike(Seen(g, false))
    ensures OneParent(g) <==> Treelike(Seen(g, true))
  {
    LinOrder(g, lin);
    OneChildTreelike(g);
    OneParentTreelike(g);
  }

  // ----- a transaction moved to the end

  /** `l` with its last transaction put back at position `k`. */
  ghost function LastAt(l: seq<nat>, k: nat): seq<nat>
    requires k < |l|
  {
    l[..k] + [l[|l| - 1]] + l[k..|l| - 1]
  }

  /** A backward pass makes up for a transaction having been moved to the end. */
  lemma {:induction false} PassMoved(g: Graph, before: seq<nat>, after: seq<nat>, k: nat)
    requires g.Valid() && g.PositiveSizes() && IsLin(g, before, g.used)
    requires k < |before| && IsLin(g, LastAt(before, k), g.used)
    requires after == Reverse(Flatten(GroupsOf(Mirror(g), Reverse(before))))
    ensures Dominates(Rates(g, after), Rates(g, LastAt(before, k)))
  {
    var h, n := Mirror(g), |before| - 1;
    var a, b, x := before[..k], before[k..n], before[n];
    var alt := LastAt(before, k);
    hide *;
    BackwardsLin(g, before);
    BackwardsLin(g, alt);
    LastParts(before, k);
    MovedPass(h, x, Reverse(b), Reverse(a));
    BackwardsResult(g, alt, after, GroupsOf(h, Reverse(before)));
  }

  lemma BackwardsLin(g: Graph, l: seq<nat>)
    requires g.Valid() && g.PositiveSizes() && IsLin(g, l, g.used)
    ensures Mirror(g).PositiveSizes() && Mirror(g).used == g.used && IsLin(Mirror(g), Reverse(l), Mirror(g).used)
  {
    SeenFacts(g, l, true);
  }

  lemma BackwardsResult(g: Graph, l: seq<nat>, after: seq<nat>, gs: seq<seq<nat>>)
    requires g.Valid() && g.PositiveSizes() && IsLin(g, l, g.used)
    requires Sound(Mirror(g), Reverse(l), gs) && after == Reverse(Flatten(gs))
    ensures Dominates(Rates(g, after), Rates(g, l))
  {
    PassResult(g, l, after, true, gs);
  }

  lemma {:induction false} LastParts(l: seq<nat>, k: nat)
    requires k < |l|
    ensures var n := |l| - 1;
            && Reverse(l) == [l[n]] + Reverse(l[k..n]) + Reverse(l[..k])
            && Reverse(LastAt(l, k)) == Reverse(l[k..n]) + [l[n]] + Reverse(l[..k])
  {
  }

  /** `g` is `g0` with the fee of `x` possibly raised. */
  ghost predicate FeeRaised(g0: Graph, g: Graph, x: nat) {
    && g.used == g0.used && (forall i :: i in g.used ==> g.Anc(i) == g0.Anc(i))
    && (forall i :: i in g.used && i != x ==> g.Rate(i) == g0.Rate(i))
    && g.Rate(x).size == g0.Rate(x).size && g.Rate(x).fee >= g0.Rate(x).fee
  }

  /** The diagram of `a` in `g` is nowhere below that of `b` in `g0`. */
  ghost predicate AsGoodAs(g: Graph, a: seq<nat>, g0: Graph, b: seq<nat>) {
    && AllPositive(Chunk(Rates(g, a))) && AllPositive(Chunk(Rates(g0, b)))
    && DiagramAbove(Chunk(Rates(g, a)), Chunk(Rates(g0, b)))
  }

  lemma {:induction false} RaisedAsGood(g0: Graph, g: Graph, x: nat, a: seq<nat>, b: seq<nat>)
    requires g.PositiveSizes() && FeeRaised(g0, g, x) && Elems(b) <= g.used && NowhereBelow(g, a, b)
    ensures AsGoodAs(g, a, g0, b)
  {
    RatesPositive(g, b);
    forall i | 0 <= i < |b|
      ensures Rates(g, b)[i].size == Rates(g0, b)[i].size && Rates(g, b)[i].fee >= Rates(g0, b)[i].fee
    {
      assert b[i] in Elems(b);
    }
    hide Chunk, DiagramAt, Rates;
    RaisedDiagram(Rates(g, b), Rates(g0, b));
  }

  lemma DominatesTransitive(a: seq<FeeFrac>, b: seq<FeeFrac>, c: seq<FeeFrac>)
    requires Dominates(a, b) && Dominates(b, c)
    ensures Dominates(a, c)
  {
    forall r: FeeFrac | r.size > 0
      ensures Peak(a, r) >= Peak(c, r)
    {
      assert Peak(a, r) >= Peak(b, r);
    }
  }
}
