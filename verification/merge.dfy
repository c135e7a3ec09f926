// Appending sets in topological order, and MergeLinearizations (src/cluster_linearize.h).
module Merging {
  import opened FeeFracs
  import opened IndexSets
  import opened DepGraphs
  import opened Diagrams
  import opened Linearizations
  import opened Chunking
  import opened Gathering
  import opened LinearizationChunkings
  import opened Sequences

  /** The order AppendTopo sorts by: fewer ancestors first, then lower position. */
  predicate Before(g: Graph, a: nat, b: nat) {
    |g.Anc(a)| < |g.Anc(b)| || (|g.Anc(a)| == |g.Anc(b)| && a < b)
  }

  ghost predicate Sorted(g: Graph, t: seq<nat>) {
    forall i, j :: 0 <= i < j < |t| ==> Before(g, t[i], t[j])
  }

  /** Sorting by ancestor count is a topological order of an acyclic graph. */
  lemma SortedIsTopological(g: Graph, t: seq<nat>)
    requires g.Valid() && g.Acyclic() && Elems(t) <= g.used && Sorted(g, t)
    ensures Topological(g, t) && Distinct(t)
  {
    forall i, j | 0 <= i < j < |t|
      ensures t[j] !in g.Anc(t[i]) && t[i] != t[j]
    {
      assert t[i] in Elems(t) && t[j] in Elems(t);
      assert Before(g, t[i], t[j]);
      if t[j] in g.Anc(t[i]) {
        assert g.Consistent(t[i]) && g.Consistent(t[j]);
        SubsetSize(g.Anc(t[j]), g.Anc(t[i]));
      }
    }
  }

  method InsertSorted(g: Graph, t: seq<nat>, x: nat) returns (r: seq<nat>)
    requires Sorted(g, t) && x !in t
    ensures Sorted(g, r) && Elems(r) == Elems(t) + {x}
  {
    var k := 0;
    while k < |t| && Before(g, t[k], x)
      invariant 0 <= k <= |t|
      invariant forall i :: 0 <= i < k ==> Before(g, t[i], x)
    {
      k := k + 1;
    }
    r := t[..k] + [x] + t[k..];
    assert t == t[..k] + t[k..];
    ElemsConcat(t[..k], t[k..]);
    ElemsConcat(t[..k] + [x], t[k..]);
    ElemsConcat(t[..k], [x]);
    forall i, j | 0 <= i < j < |r|
      ensures Before(g, r[i], r[j])
    {
      if i == k {
        assert Before(g, x, t[k]) by { assert t[k] != x; }
        if j > k + 1 {
          assert Before(g, t[k], t[j - 1]);
        }
      } else if j == k {
      } else {
        var i', j' := if i < k then i else i - 1, if j < k then j else j - 1;
        assert Before(g, t[i'], t[j']);
      }
    }
  }

  /** Extend `list` by a linearization `t` of `select`. */
  method AppendTopo(g: Graph, list: seq<nat>, select: set<nat>) returns (r: seq<nat>, ghost t: seq<nat>)
    requires g.Valid() && g.Acyclic() && select <= g.used
    ensures r == list + t && IsLin(g, t, select)
  {
    var s: seq<nat> := [];
    var rest := select;
    while rest != {}
      invariant rest <= select
      invariant Sorted(g, s) && Elems(s) == select - rest
      decreases rest
    {
      var i := First(rest);
      assert i !in Elems(s);
      s := InsertSorted(g, s, i);
      rest := rest - {i};
    }
    SortedIsTopological(g, s);
    r, t := list + s, s;
  }

  /** `out` is a finished part of a linearization of `g`: `todo` is what is left, and nothing left
      is an ancestor of anything finished. */
  ghost predicate PartialLin(g: Graph, out: seq<nat>, todo: set<nat>) {
    && todo <= g.used && IsLin(g, out, g.used - todo)
    && forall x, y :: x in out && y in todo ==> y !in g.Anc(x)
  }

  /** Appending an ordered closed subset of what is left. */
  lemma PartialStep(g: Graph, out: seq<nat>, todo: set<nat>, s: set<nat>, t: seq<nat>)
    requires PartialLin(g, out, todo) && Closed(g, todo, s) && IsLin(g, t, s)
    ensures PartialLin(g, out + t, todo - s)
  {
    ElemsConcat(out, t);
    assert forall x :: x in t ==> x in Elems(t);
    assert forall x :: x in out ==> x in Elems(out);
    TopologicalConcat(g, out, t);
    assert g.used - (todo - s) == (g.used - todo) + s;
    forall x, y | x in out + t && y in todo - s
      ensures y !in g.Anc(x)
    {
      if x in t {
        assert x in s && g.Anc(x) * todo <= s;
      }
    }
  }

  /** Following `lin` for what is left is still at least as good as `lin`. */
  ghost predicate KeepsUp(g: Graph, out: seq<nat>, todo: set<nat>, lin: seq<nat>) {
    Dominates(Rates(g, out + Filter(lin, todo)), Rates(g, lin))
  }

  lemma KeepsUpStart(g: Graph, lin: seq<nat>)
    requires Distinct(lin)
    ensures KeepsUp(g, [], Elems(lin), lin)
  {
    FilterAll(lin, Elems(lin));
    assert [] + lin == lin;
  }

  lemma KeepsUpEnd(g: Graph, out: seq<nat>, lin: seq<nat>)
    requires g.PositiveSizes() && KeepsUp(g, out, {}, lin)
    requires Distinct(out) && Distinct(lin) && Elems(out) == Elems(lin) <= g.used
    ensures NowhereBelow(g, out, lin)
  {
    FilterNone(lin, {});
    assert out + [] == out;
    DominatesIsNowhereBelow(g, out, lin);
  }

  /** Outputting a gatherable set keeps up. */
  lemma KeepsUpStep(g: Graph, out: seq<nat>, todo: set<nat>, lin: seq<nat>, s: set<nat>, t: seq<nat>)
    requires g.PositiveSizes() && todo <= g.used && Distinct(lin) && todo <= Elems(lin)
    requires KeepsUp(g, out, todo, lin)
    requires s <= todo && Distinct(t) && Elems(t) == s
    requires Gatherable(g, ChunkSets(g, Filter(lin, todo)), s)
    ensures KeepsUp(g, out + t, todo - s, lin)
  {
    hide Gatherable, ChunkSets, Filter, Distinct, Rates, Elems;
    var rem := Filter(lin, todo);
    FilterElems(lin, todo);
    FilterDistinct(lin, todo);
    assert Elems(rem) == todo;
    Gather(g, rem, s, t);
    FilterFilter(lin, todo, todo - s);
    assert todo * (todo - s) == todo - s;
    var next := Filter(lin, todo - s);
    RatesConcat(g, out, t + next);
    RatesConcat(g, out, rem);
    DominatesPrepend(Rates(g, out), Rates(g, t + next), Rates(g, rem));
    assert out + (t + next) == out + t + next;
  }

  /** A set within the first chunk, at least as good as it, can be moved to the front. */
  lemma WithinFirstChunk(g: Graph, cs: seq<SetInfo>, s: set<nat>)
    requires cs != [] && s != {} && s <= cs[0].transactions
    requires Gain(cs[0].feerate, SetRate(g, s)) <= 0
    ensures Gatherable(g, cs, s)
  {
    forall j | 0 <= j <= |cs|
      ensures Gain(SetRate(g, s * PrefixSet(cs, j)), SetRate(g, s)) <= 0
    {
      if j == 0 {
        assert s * PrefixSet(cs, j) == {};
        EmptyGain(g, SetRate(g, s));
      } else {
        PrefixSetGrows(cs, 1, j);
        assert PrefixSet(cs, 1) == PrefixSet(cs, 0) + cs[0].transactions;
        assert s * PrefixSet(cs, j) == s;
        GainSelf(SetRate(g, s), SetRate(g, s));
      }
    }
  }

  /** One round of the merge: intersect the better first chunk `c` of one input with prefixes of
      the other; the result can be moved to the front of both. */
  lemma MergeRound(g: Graph, cs: seq<SetInfo>, ds: seq<SetInfo>, r: SetInfo)
    requires GoodChunks(g, cs) && GoodChunks(g, ds) && cs != [] && ds != []
    requires cs[0].feerate.size > 0
    requires Gain(ds[0].feerate, cs[0].feerate) <= 0
    requires GoodIntersection(g, ds, cs[0], r)
    ensures Gatherable(g, cs, r.transactions) && Gatherable(g, ds, r.transactions)
  {
    IntersectionGatherable(g, ds, cs[0], r);
    GainSelf(cs[0].feerate, r.feerate);
    WithinFirstChunk(g, cs, r.transactions);
  }

  lemma FirstChunkFacts(g: Graph, lin: seq<nat>, todo: set<nat>)
    requires g.PositiveSizes() && todo <= g.used && todo != {}
    requires IsLin(g, lin, g.used)
    ensures var rem := Filter(lin, todo);
            var cs := ChunkSets(g, rem);
            && IsLin(g, rem, todo)
            && GoodChunks(g, cs) && cs != []
            && cs[0].feerate.size > 0 && cs[0].feerate == SetRate(g, cs[0].transactions)
            && cs[0].transactions != {} && cs[0].transactions <= todo
            && Closed(g, todo, cs[0].transactions)
  {
    FilterIsLin(g, lin, g.used, todo);
    assert g.used * todo == todo;
    var rem := Filter(lin, todo);
    assert rem != [] by {
      var x :| x in todo;
      assert x in Elems(rem);
    }
    hide Filter, SetRate;
    var k := FirstChunkPrefix(g, rem);
    var cs := ChunkSets(g, rem);
    ChunkSetsGood(g, rem);
    assert GoodChunk(g, cs, 0);
    PrefixClosed(g, rem, todo, k);
    SetRatePositive(g, cs[0].transactions);
  }

  /** What has been output so far keeps up with both inputs. */
  ghost predicate Merging2(g: Graph, out: seq<nat>, todo: set<nat>, lin1: seq<nat>, lin2: seq<nat>) {
    PartialLin(g, out, todo) && KeepsUp(g, out, todo, lin1) && KeepsUp(g, out, todo, lin2)
  }

  lemma MergingTodo(g: Graph, out: seq<nat>, todo: set<nat>, lin1: seq<nat>, lin2: seq<nat>)
    requires Merging2(g, out, todo, lin1, lin2)
    ensures todo <= g.used
  {
  }

  lemma MergeOutput(g: Graph, out: seq<nat>, todo: set<nat>, lin1: seq<nat>, lin2: seq<nat>, s: set<nat>, t: seq<nat>)
    requires g.PositiveSizes() && IsLin(g, lin1, g.used) && IsLin(g, lin2, g.used)
    requires Merging2(g, out, todo, lin1, lin2) && Closed(g, todo, s) && IsLin(g, t, s)
    requires Gatherable(g, ChunkSets(g, Filter(lin1, todo)), s)
    requires Gatherable(g, ChunkSets(g, Filter(lin2, todo)), s)
    ensures Merging2(g, out + t, todo - s, lin1, lin2)
  {
    hide Gatherable, ChunkSets, Filter, KeepsUp, Topological, Distinct;
    PartialStep(g, out, todo, s, t);
    KeepsUpStep(g, out, todo, lin1, s, t);
    KeepsUpStep(g, out, todo, lin2, s, t);
  }

  /** A linearization whose diagram is nowhere below either of the given ones. */
  method MergeLinearizations(g: Graph, lin1: seq<nat>, lin2: seq<nat>) returns (ret: seq<nat>)
    requires g.Valid() && g.Acyclic() && g.PositiveSizes()
    requires IsLin(g, lin1, g.used) && IsLin(g, lin2, g.used)
    ensures IsLin(g, ret, g.used)
    ensures NowhereBelow(g, ret, lin1) && NowhereBelow(g, ret, lin2)
  {
    hide Merging2, ChunkSets, Filter, NowhereBelow, Graph.Valid, Graph.Acyclic;
    var chunking1 := new LinearizationChunking(g, lin1);
    var chunking2 := new LinearizationChunking(g, lin2);
    ret := [];
    MergingStart(g, lin1, lin2);
    if g.used == {} {
      MergingEnd(g, ret, lin1, lin2);
      return;
    }
    while true
      invariant chunking1.Valid() && chunking2.Valid() && chunking1.g == chunking2.g == g
      invariant chunking1.original == lin1 && chunking2.original == lin2
      invariant chunking1.todo == chunking2.todo != {}
      invariant Merging2(g, ret, chunking1.todo, lin1, lin2)
      decreases chunking1.todo
      modifies chunking1, chunking2
    {
      hide IsLin;
      MergingTodo(g, ret, chunking1.todo, lin1, lin2);
      var best := MergeBest(g, lin1, lin2, chunking1, chunking2);
      ghost var todo, before, t := chunking1.todo, ret, [];
      ret, t := AppendTopo(g, ret, best.transactions);
      MergeOutput(g, before, todo, lin1, lin2, best.transactions, t);
      chunking1.MarkDone(best.transactions);
      chunking1.HasChunk();
      if chunking1.NumChunksLeft() == 0 { break; }
      chunking2.MarkDone(best.transactions);
    }
    MergingEnd(g, ret, lin1, lin2);
  }

  lemma {:induction false} MergingStart(g: Graph, lin1: seq<nat>, lin2: seq<nat>)
    requires IsLin(g, lin1, g.used) && IsLin(g, lin2, g.used)
    ensures Merging2(g, [], g.used, lin1, lin2)
  {
    KeepsUpStart(g, lin1);
    KeepsUpStart(g, lin2);
    assert Elems([]) == {};
  }

  lemma {:induction false} MergingEnd(g: Graph, out: seq<nat>, lin1: seq<nat>, lin2: seq<nat>)
    requires g.PositiveSizes() && IsLin(g, lin1, g.used) && IsLin(g, lin2, g.used) && Merging2(g, out, {}, lin1, lin2)
    ensures IsLin(g, out, g.used) && NowhereBelow(g, out, lin1) && NowhereBelow(g, out, lin2)
  {
    assert g.used - {} == g.used;
    hide NowhereBelow, KeepsUp;
    KeepsUpEnd(g, out, lin1);
    KeepsUpEnd(g, out, lin2);
  }

  /** The set to output next: the better of the two first chunks, intersected with prefixes of the
      other linearization. */
  method MergeBest(g: Graph, lin1: seq<nat>, lin2: seq<nat>, chunking1: LinearizationChunking,
                   chunking2: LinearizationChunking)
    returns (best: SetInfo)
    requires g.Valid() && g.PositiveSizes()
    requires IsLin(g, lin1, g.used) && IsLin(g, lin2, g.used)
    requires chunking1.Valid() && chunking2.Valid() && chunking1.g == chunking2.g == g
    requires chunking1.original == lin1 && chunking2.original == lin2
    requires chunking1.todo == chunking2.todo != {} && chunking1.todo <= g.used
    ensures best.transactions != {} && Closed(g, chunking1.todo, best.transactions)
    ensures Gatherable(g, ChunkSets(g, Filter(lin1, chunking1.todo)), best.transactions)
    ensures Gatherable(g, ChunkSets(g, Filter(lin2, chunking1.todo)), best.transactions)
  {
    ghost var todo := chunking1.todo;
    FirstChunkFacts(g, lin1, todo);
    FirstChunkFacts(g, lin2, todo);
    ghost var rem1, rem2 := Filter(lin1, todo), Filter(lin2, todo);
    ghost var cs1, cs2 := ChunkSets(g, rem1), ChunkSets(g, rem2);
    var first1, first2 := chunking1.GetChunk(0), chunking2.GetChunk(0);
    assert first1 == cs1[0] && first2 == cs2[0];
    if Higher(first2.feerate, first1.feerate) {
      best := chunking1.IntersectPrefixes(first2);
      IntersectionClosed(g, rem1, todo, first2, best);
      GainSelf(first1.feerate, first2.feerate);
      MergeRound(g, cs2, cs1, best);
    } else {
      best := chunking2.IntersectPrefixes(first1);
      IntersectionClosed(g, rem2, todo, first1, best);
      MergeRound(g, cs1, cs2, best);
    }
  }
}
