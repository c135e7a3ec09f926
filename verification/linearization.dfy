// Linearizations: orderings of a set of positions, their feerates, and their chunk sets
// (src/cluster_linearize.h).
module Linearizations {
  import opened FeeFracs
  import opened IndexSets
  import opened DepGraphs
  import opened Diagrams
  import opened Sequences

  // ----- aggregate feerates

  /** The combined fee and size of a set of positions. */
  ghost function SetRate(g: Graph, s: set<nat>): FeeFrac {
    if s == {} then EMPTY else
      var x :| x in s;
      Plus(g.Rate(x), SetRate(g, s - {x}))
  }

  lemma {:induction false} SetRateRemove(g: Graph, s: set<nat>, x: nat)
    requires x in s
    ensures SetRate(g, s) == Plus(g.Rate(x), SetRate(g, s - {x}))
    decreases |s|
  {
    var m :| m in s && SetRate(g, s) == Plus(g.Rate(m), SetRate(g, s - {m}));
    if x != m {
      SetRateRemove(g, s - {m}, x);
      SetRateRemove(g, s - {x}, m);
      assert s - {m} - {x} == s - {x} - {m};
      var t := SetRate(g, s - {m} - {x});
      PlusAssoc(g.Rate(m), g.Rate(x), t);
      PlusAssoc(g.Rate(x), g.Rate(m), t);
    }
  }

  lemma SetRateNone(g: Graph)
    ensures SetRate(g, {}) == EMPTY
  {
  }

  lemma {:induction false} SetRateUnion(g: Graph, a: set<nat>, b: set<nat>)
    requires a !! b
    ensures SetRate(g, a + b) == Plus(SetRate(g, a), SetRate(g, b))
    decreases |a|
  {
    SetRateNone(g);
    hide SetRate, Plus;
    if a == {} {
      assert a + b == b;
      PlusEmpty(SetRate(g, b));
    } else {
      var x :| x in a;
      assert a + b - {x} == (a - {x}) + b;
      SetRateRemove(g, a, x);
      SetRateRemove(g, a + b, x);
      SetRateUnion(g, a - {x}, b);
      PlusAssoc(g.Rate(x), SetRate(g, a - {x}), SetRate(g, b));
    }
  }

  lemma SetRateSplit(g: Graph, s: set<nat>, part: set<nat>)
    ensures SetRate(g, s) == Plus(SetRate(g, s * part), SetRate(g, s - part))
  {
    assert s == (s * part) + (s - part);
    SetRateUnion(g, s * part, s - part);
  }

  lemma {:induction false} SetRatePositive(g: Graph, s: set<nat>)
    requires g.PositiveSizes() && s <= g.used && s != {}
    ensures SetRate(g, s).size > 0
    decreases |s|
  {
    var m :| m in s;
    SetRateRemove(g, s, m);
    assert g.Rate(m).size > 0;
  }

  /** If no member beats `r`, the set does not. */
  lemma {:induction false} SetGainNonPositive(g: Graph, s: set<nat>, r: FeeFrac)
    requires forall x :: x in s ==> Gain(g.Rate(x), r) <= 0
    ensures Gain(SetRate(g, s), r) <= 0
    decreases |s|
  {
    hide Gain;
    GainEmpty(r);
    if s != {} {
      var m :| m in s;
      SetRateRemove(g, s, m);
      SetGainNonPositive(g, s - {m}, r);
      GainPlus(g.Rate(m), SetRate(g, s - {m}), r);
    }
  }

  /** If every member beats `r`, so does the set. */
  lemma {:induction false} SetGainPositive(g: Graph, s: set<nat>, r: FeeFrac)
    requires forall x :: x in s ==> Gain(g.Rate(x), r) > 0
    ensures Gain(SetRate(g, s), r) >= 0
    ensures s != {} ==> Gain(SetRate(g, s), r) > 0
    decreases |s|
  {
    hide Gain;
    GainEmpty(r);
    if s != {} {
      var m :| m in s;
      SetRateRemove(g, s, m);
      SetGainPositive(g, s - {m}, r);
      GainPlus(g.Rate(m), SetRate(g, s - {m}), r);
    }
  }

  method FeeRateOf(g: Graph, elems: set<nat>) returns (sum: FeeFrac)
    ensures sum == SetRate(g, elems)
  {
    sum := EMPTY;
    var rest := elems;
    PlusEmpty(SetRate(g, elems));
    while rest != {}
      invariant rest <= elems
      invariant SetRate(g, elems) == Plus(sum, SetRate(g, rest))
      decreases rest
    {
      hide SetRate;
      var pos := First(rest);
      SetRateRemove(g, rest, pos);
      PlusAssoc(sum, g.Rate(pos), SetRate(g, rest - {pos}));
      sum := Plus(sum, g.Rate(pos));
      rest := rest - {pos};
    }
    PlusEmpty(sum);
  }

  // ----- orderings

  ghost function Elems(lin: seq<nat>): set<nat> { set x | x in lin }

  /** No element comes before one of its ancestors. */
  ghost predicate Topological(g: Graph, lin: seq<nat>) {
    forall i, j :: 0 <= i < j < |lin| ==> lin[j] !in g.Anc(lin[i])
  }

  /** `lin` lists every member of `s` once, ancestors first. */
  ghost predicate IsLin(g: Graph, lin: seq<nat>, s: set<nat>) {
    Distinct(lin) && Elems(lin) == s && Topological(g, lin)
  }

  /** `s` holds, for each of its members, all ancestors still in `todo`. */
  ghost predicate Closed(g: Graph, todo: set<nat>, s: set<nat>) {
    s <= todo && forall i :: i in s ==> g.Anc(i) * todo <= s
  }

  /** What is left of an ancestor set is closed. */
  lemma AncestorsClosed(g: Graph, todo: set<nat>, i: nat)
    requires g.Valid() && todo <= g.used && i in todo
    ensures Closed(g, todo, g.Anc(i) * todo) && i in g.Anc(i) * todo
  {
    assert g.Consistent(i);
  }

  ghost function Rates(g: Graph, lin: seq<nat>): seq<FeeFrac> {
    seq(|lin|, i requires 0 <= i < |lin| => g.Rate(lin[i]))
  }

  lemma ElemsConcat(a: seq<nat>, b: seq<nat>)
    ensures Elems(a + b) == Elems(a) + Elems(b)
    ensures Distinct(a + b) <==> Distinct(a) && Distinct(b) && Elems(a) !! Elems(b)
  {
    if Distinct(a + b) {
      forall i, j | 0 <= i < j < |a|
        ensures a[i] != a[j]
      {
        assert (a + b)[i] != (a + b)[j];
      }
      forall i, j | 0 <= i < j < |b|
        ensures b[i] != b[j]
      {
        assert (a + b)[|a| + i] != (a + b)[|a| + j];
      }
      forall i, j | 0 <= i < |a| && 0 <= j < |b|
        ensures a[i] != b[j]
      {
        assert (a + b)[i] != (a + b)[|a| + j];
      }
    } else {
      var i, j :| 0 <= i < j < |a + b| && (a + b)[i] == (a + b)[j];
      if i < |a| && |a| <= j {
        assert a[i] in Elems(a) && b[j - |a|] in Elems(b);
      }
    }
  }

  lemma TopologicalConcat(g: Graph, a: seq<nat>, b: seq<nat>)
    ensures Topological(g, a + b) <==>
            && Topological(g, a) && Topological(g, b)
            && forall x, y :: x in a && y in b ==> y !in g.Anc(x)
  {
    var ab := a + b;
    if Topological(g, ab) {
      forall i, j | 0 <= i < j < |a|
        ensures a[j] !in g.Anc(a[i])
      {
        assert ab[j] !in g.Anc(ab[i]);
      }
      forall i, j | 0 <= i < j < |b|
        ensures b[j] !in g.Anc(b[i])
      {
        assert ab[|a| + j] !in g.Anc(ab[|a| + i]);
      }
      forall x, y | x in a && y in b
        ensures y !in g.Anc(x)
      {
        var i :| 0 <= i < |a| && a[i] == x;
        var j :| 0 <= j < |b| && b[j] == y;
        assert ab[|a| + j] !in g.Anc(ab[i]);
      }
    } else {
      var i, j :| 0 <= i < j < |ab| && ab[j] in g.Anc(ab[i]);
      if i < |a| && |a| <= j {
        assert ab[i] in a && ab[j] in b;
      }
    }
  }

  lemma RatesConcat(g: Graph, a: seq<nat>, b: seq<nat>)
    ensures Rates(g, a + b) == Rates(g, a) + Rates(g, b)
  {
  }

  lemma NoRate(g: Graph)
    ensures SetRate(g, {}) == EMPTY
  {
  }

  lemma {:induction false} TotalRates(g: Graph, lin: seq<nat>)
    requires Distinct(lin)
    ensures Total(Rates(g, lin)) == SetRate(g, Elems(lin))
  {
    NoRate(g);
    hide SetRate;
    if lin == [] {
      assert Elems(lin) == {};
    } else {
      var x, t := lin[0], lin[1..];
      assert lin == [x] + t;
      ElemsConcat([x], t);
      TotalRates(g, t);
      SetRateRemove(g, Elems(lin), x);
      assert Elems(lin) - {x} == Elems(t);
      assert Rates(g, lin)[1..] == Rates(g, t);
    }
  }

  lemma RatesPositive(g: Graph, lin: seq<nat>)
    requires g.PositiveSizes() && Elems(lin) <= g.used
    ensures AllPositive(Rates(g, lin))
  {
    forall i | 0 <= i < |lin|
      ensures g.Rate(lin[i]).size > 0
    {
      assert lin[i] in Elems(lin);
    }
  }

  /** The feerate diagram of `a` is at or above that of `b` at every size. */
  ghost predicate NowhereBelow(g: Graph, a: seq<nat>, b: seq<nat>) {
    && AllPositive(Chunk(Rates(g, a))) && AllPositive(Chunk(Rates(g, b)))
    && DiagramAbove(Chunk(Rates(g, a)), Chunk(Rates(g, b)))
  }

  lemma DominatesIsNowhereBelow(g: Graph, a: seq<nat>, b: seq<nat>)
    requires g.PositiveSizes() && Distinct(a) && Distinct(b) && Elems(a) == Elems(b) <= g.used
    ensures Dominates(Rates(g, a), Rates(g, b)) <==> NowhereBelow(g, a, b)
  {
    hide Chunk, Dominates, SetRate, DiagramAbove, Rates;
    RatesPositive(g, a);
    RatesPositive(g, b);
    TotalRates(g, a);
    TotalRates(g, b);
    DominatesIffDiagram(Rates(g, a), Rates(g, b));
  }

  /** A prefix of a linearization of `todo` is closed in `todo`. */
  lemma PrefixClosed(g: Graph, lin: seq<nat>, todo: set<nat>, k: nat)
    requires IsLin(g, lin, todo) && k <= |lin|
    ensures Closed(g, todo, Elems(lin[..k]))
  {
    assert lin == lin[..k] + lin[k..];
    TopologicalConcat(g, lin[..k], lin[k..]);
  }

  // ----- filtering

  ghost function Filter(lin: seq<nat>, s: set<nat>): seq<nat> {
    if lin == [] then [] else (if lin[0] in s then [lin[0]] else []) + Filter(lin[1..], s)
  }

  lemma {:induction false} FilterConcat(a: seq<nat>, b: seq<nat>, s: set<nat>)
    ensures Filter(a + b, s) == Filter(a, s) + Filter(b, s)
  {
    if a == [] {
      assert a + b == b;
      assert [] + Filter(b, s) == Filter(b, s);
    } else {
      var ab, t, h := a + b, a[1..], if a[0] in s then [a[0]] else [];
      assert ab[1..] == t + b && ab[0] == a[0];
      FilterConcat(t, b, s);
      assert h + (Filter(t, s) + Filter(b, s)) == h + Filter(t, s) + Filter(b, s);
    }
  }

  lemma {:induction false} FilterElems(lin: seq<nat>, s: set<nat>)
    ensures Elems(Filter(lin, s)) == Elems(lin) * s
  {
    if lin != [] {
      var h, t := [lin[0]], lin[1..];
      assert lin == h + t;
      FilterElems(t, s);
      ElemsConcat(h, t);
      ElemsConcat(if lin[0] in s then h else [], Filter(t, s));
    }
  }

  lemma {:induction false} FilterIsLin(g: Graph, lin: seq<nat>, todo: set<nat>, s: set<nat>)
    requires IsLin(g, lin, todo)
    ensures IsLin(g, Filter(lin, s), todo * s)
  {
    FilterElems(lin, s);
    if lin != [] {
      var h, t := [lin[0]], lin[1..];
      assert lin == h + t;
      ElemsConcat(h, t);
      TopologicalConcat(g, h, t);
      FilterIsLin(g, t, Elems(t), s);
      FilterElems(t, s);
      var h' := if lin[0] in s then h else [];
      ElemsConcat(h', Filter(t, s));
      assert forall y :: y in Filter(t, s) ==> y in Elems(Filter(t, s));
      TopologicalConcat(g, h', Filter(t, s));
    }
  }

  lemma {:induction false} FilterAll(lin: seq<nat>, s: set<nat>)
    requires Elems(lin) <= s
    ensures Filter(lin, s) == lin
  {
    if lin != [] {
      assert lin == [lin[0]] + lin[1..];
      ElemsConcat([lin[0]], lin[1..]);
      assert lin[0] in Elems(lin);
      FilterAll(lin[1..], s);
    }
  }

  lemma {:induction false} FilterNone(lin: seq<nat>, s: set<nat>)
    requires Elems(lin) !! s
    ensures Filter(lin, s) == []
  {
    if lin != [] {
      assert lin == [lin[0]] + lin[1..];
      ElemsConcat([lin[0]], lin[1..]);
      assert lin[0] in Elems(lin);
      FilterNone(lin[1..], s);
    }
  }

  lemma {:induction false} FilterFilter(lin: seq<nat>, a: set<nat>, b: set<nat>)
    ensures Filter(Filter(lin, a), b) == Filter(lin, a * b)
  {
    if lin != [] {
      FilterFilter(lin[1..], a, b);
      var h := if lin[0] in a then [lin[0]] else [];
      FilterConcat(h, Filter(lin[1..], a), b);
      assert Filter(h, b) == if lin[0] in a * b then [lin[0]] else [];
    }
  }
}
