// The SearchCandidateFinder object: the graph reordered by feerate, and the search in the caller's
// positions (src/cluster_linearize.h).
module SearchFinders {
  import opened FeeFracs
  import opened Powers
  import opened IndexSets
  import opened DepGraphs
  import opened Linearizations
  import opened Chunking
  import opened Searching
  import opened SearchLoops
  import opened Sequences

  // ----- sorting by decreasing feerate

  /** `a` is sorted before `b`: better, or equal and at a lower position. */
  predicate RateBefore(g: Graph, a: nat, b: nat) {
    Better(g.Rate(a), g.Rate(b)) || (!Better(g.Rate(b), g.Rate(a)) && a < b)
  }

  ghost predicate RateSorted(g: Graph, t: seq<nat>) {
    forall i, j :: 0 <= i < j < |t| ==> RateBefore(g, t[i], t[j])
  }

  lemma NotBetterTrans(a: FeeFrac, b: FeeFrac, c: FeeFrac)
    requires a.size > 0 && b.size > 0 && c.size > 0 && !Better(a, b) && !Better(b, c)
    ensures !Better(a, c)
  {
    hide Gain;
    GainTransitive(a, b, c);
  }

  lemma RateBeforeOrder(g: Graph, a: nat, b: nat, c: nat)
    requires g.PositiveSizes() && {a, b, c} <= g.used
    ensures a != b ==> RateBefore(g, a, b) || RateBefore(g, b, a)
    ensures RateBefore(g, a, b) && RateBefore(g, b, c) ==> RateBefore(g, a, c)
    ensures RateBefore(g, a, b) ==> a != b && Gain(g.Rate(b), g.Rate(a)) <= 0
  {
    var x, y, z := g.Rate(a), g.Rate(b), g.Rate(c);
    GainSelf(x, y);
    GainSelf(y, z);
    GainSelf(x, z);
    GainSelf(x, x);
    hide Gain;
    if RateBefore(g, a, b) && RateBefore(g, b, c) {
      NotBetterTrans(z, y, x);
      if !Better(x, y) && !Better(y, z) {
        NotBetterTrans(x, y, z);
      } else if !Better(x, z) {
        if Better(x, y) {
          NotBetterTrans(x, z, y);
        } else {
          NotBetterTrans(y, x, z);
        }
      }
    }
  }

  method InsertByRate(g: Graph, t: seq<nat>, x: nat) returns (r: seq<nat>)
    requires g.PositiveSizes() && Elems(t) <= g.used && x in g.used && RateSorted(g, t) && x !in t
    ensures RateSorted(g, r) && Elems(r) == Elems(t) + {x}
  {
    var k := 0;
    while k < |t| && RateBefore(g, t[k], x)
      invariant 0 <= k <= |t|
      invariant forall i :: 0 <= i < k ==> RateBefore(g, t[i], x)
    {
      k := k + 1;
    }
    forall j | k <= j < |t|
      ensures RateBefore(g, x, t[j])
    {
      assert t[k] in Elems(t) && t[j] in Elems(t);
      RateBeforeOrder(g, x, t[k], t[j]);
    }
    InsertedSorted(g, t, k, x);
    r := t[..k] + [x] + t[k..];
    assert Elems(r) == Elems(t) + {x} by {
      assert t == t[..k] + t[k..];
      ElemsConcat(t[..k], t[k..]);
      ElemsConcat(t[..k] + [x], t[k..]);
      ElemsConcat(t[..k], [x]);
    }
  }

  lemma InsertedSorted(g: Graph, t: seq<nat>, k: nat, x: nat)
    requires RateSorted(g, t) && k <= |t|
    requires forall i :: 0 <= i < k ==> RateBefore(g, t[i], x)
    requires forall j :: k <= j < |t| ==> RateBefore(g, x, t[j])
    ensures RateSorted(g, t[..k] + [x] + t[k..])
  {
    hide RateBefore;
    var r := t[..k] + [x] + t[k..];
    forall i, j | 0 <= i < j < |r|
      ensures RateBefore(g, r[i], r[j])
    {
      if i != k && j != k {
        var i', j' := if i < k then i else i - 1, if j < k then j else j - 1;
        assert RateBefore(g, t[i'], t[j']);
      }
    }
  }

  method SortByRate(g: Graph) returns (t: seq<nat>)
    requires g.PositiveSizes()
    ensures RateSorted(g, t) && Elems(t) == g.used
  {
    t := [];
    var rest := g.used;
    while rest != {}
      invariant rest <= g.used && RateSorted(g, t) && Elems(t) == g.used - rest
      decreases rest
    {
      hide RateSorted, Graph.PositiveSizes;
      var i := First(rest);
      assert i !in Elems(t);
      t := InsertByRate(g, t, i);
      rest := rest - {i};
    }
  }

  // ----- moving between the two orders

  /** `s` is `g` with position `i` renamed to `to[i]`, and `back` undoes `to`. */
  ghost predicate Reordered(g: Graph, s: Graph, to: seq<nat>, back: seq<nat>) {
    Renamed(g, s, to) && forall i :: i in g.used ==> to[i] < |back| && back[to[i]] == i
  }

  lemma {:induction false} ImageSize(to: seq<nat>, a: set<nat>)
    requires forall i :: i in a ==> i < |to|
    ensures |Image(to, a)| <= |a|
    decreases |a|
  {
    if a == {} {
      assert Image(to, a) == {};
    } else {
      var x :| x in a;
      ImageSize(to, a - {x});
      assert Image(to, a) == Image(to, a - {x}) + {to[x]};
    }
  }

  lemma ThereAndBack(g: Graph, s: Graph, to: seq<nat>, back: seq<nat>, todo: set<nat>, a: set<nat>)
    requires Reordered(g, s, to, back) && todo <= g.used && a <= Image(to, todo)
    ensures forall i :: i in a ==> i < |back|
    ensures Image(back, a) <= todo && Image(to, Image(back, a)) == a
  {
    forall i | i in a
      ensures i < |back| && back[i] in todo && to[back[i]] == i
    {
      var j :| j in todo && to[j] == i;
    }
    forall i | i in a
      ensures i in Image(to, Image(back, a))
    {
      assert back[i] in Image(back, a);
    }
  }

  /** The two orders agree on which sets are closed ... */
  lemma ClosedRenamed(g: Graph, s: Graph, to: seq<nat>, back: seq<nat>, todo: set<nat>, a: set<nat>)
    requires Reordered(g, s, to, back) && a <= todo <= g.used
    ensures Closed(g, todo, a) <==> Closed(s, Image(to, todo), Image(to, a))
  {
    if Closed(g, todo, a) {
      forall p, q | p in Image(to, a) && q in s.Anc(p) * Image(to, todo)
        ensures q in Image(to, a)
      {
        var i :| i in a && to[i] == p;
        assert RenamedAt(g, s, to, i);
        var j :| j in g.Anc(i) && to[j] == q;
        assert j in todo by { var k :| k in todo && to[k] == q; assert k == back[q] == j; }
      }
    }
    if Closed(s, Image(to, todo), Image(to, a)) {
      forall i, j | i in a && j in g.Anc(i) * todo
        ensures j in a
      {
        assert RenamedAt(g, s, to, i);
        assert to[i] in Image(to, a) && to[j] in s.Anc(to[i]) * Image(to, todo);
        var k :| k in a && to[k] == to[j];
        assert k == back[to[j]] == j;
      }
    }
  }

  /** ... and on their feerates. */
  lemma {:induction false} RateRenamed(g: Graph, s: Graph, to: seq<nat>, back: seq<nat>, a: set<nat>)
    requires Reordered(g, s, to, back) && a <= g.used
    ensures SetRate(s, Image(to, a)) == SetRate(g, a)
    decreases |a|
  {
    if a == {} {
      assert Image(to, a) == {};
    } else {
      var x :| x in a;
      SetRateRemove(g, a, x);
      assert to[x] in Image(to, a);
      SetRateRemove(s, Image(to, a), to[x]);
      assert Image(to, a) - {to[x]} == Image(to, a - {x}) by {
        forall p | p in Image(to, a) - {to[x]}
          ensures p in Image(to, a - {x})
        {
          var i :| i in a && to[i] == p;
        }
        forall i | i in a - {x}
          ensures to[i] != to[x]
        {
          assert back[to[i]] == i && back[to[x]] == x;
        }
      }
      assert RenamedAt(g, s, to, x);
      RateRenamed(g, s, to, back, a - {x});
    }
  }

  lemma CandidateRenamed(g: Graph, s: Graph, to: seq<nat>, back: seq<nat>, todo: set<nat>, a: set<nat>, rate: FeeFrac)
    requires Reordered(g, s, to, back) && a <= todo <= g.used
    ensures IsCandidate(g, todo, SetInfo(a, rate)) <==> IsCandidate(s, Image(to, todo), SetInfo(Image(to, a), rate))
    ensures Beats(g, todo, rate, a) <==> Beats(s, Image(to, todo), rate, Image(to, a))
  {
    hide SetRate, Closed;
    ClosedRenamed(g, s, to, back, todo, a);
    RateRenamed(g, s, to, back, a);
    if a != {} {
      var x :| x in a;
      assert to[x] in Image(to, a);
    }
  }

  method MapSet(mapping: seq<nat>, arg: set<nat>) returns (ret: set<nat>)
    requires forall i :: i in arg ==> i < |mapping|
    ensures ret == Image(mapping, arg)
  {
    ret := {};
    var rest := arg;
    while rest != {}
      invariant rest <= arg && ret == Image(mapping, arg - rest)
      decreases rest
    {
      var pos := First(rest);
      assert arg - (rest - {pos}) == (arg - rest) + {pos};
      rest := rest - {pos};
      ret := ret + {mapping[pos]};
    }
    assert arg - rest == arg;
  }

  /** The reverse of the sorted order. */
  method Inverse(n: nat, t: seq<nat>) returns (to: seq<nat>)
    requires Distinct(t) && forall k :: 0 <= k < |t| ==> t[k] < n
    ensures |to| == n && forall k :: 0 <= k < |t| ==> to[t[k]] == k
  {
    to := seq(n, _ => 0);
    for k := 0 to |t|
      invariant |to| == n && forall m :: 0 <= m < k ==> to[t[m]] == m
    {
      to := to[t[k] := k];
    }
  }

  lemma SortedSearchable(g: Graph, s: Graph, to: seq<nat>, back: seq<nat>)
    requires g.Valid() && g.PositiveSizes() && s.Valid() && Reordered(g, s, to, back)
    requires RateSorted(g, back)
    ensures Searchable(s, s.used)
  {
    forall p | p in s.used
      ensures s.Rate(p).size > 0
    {
      var i :| i in g.used && to[i] == p;
      assert RenamedAt(g, s, to, i);
    }
    forall p, q | p in s.used && q in s.used && p < q
      ensures Gain(s.Rate(q), s.Rate(p)) <= 0
    {
      var i :| i in g.used && to[i] == p;
      var j :| j in g.used && to[j] == q;
      assert RenamedAt(g, s, to, i) && RenamedAt(g, s, to, j);
      assert RateBefore(g, back[p], back[q]);
      RateBeforeOrder(g, i, j, i);
    }
  }

  class SearchCandidateFinder {
    ghost const g: Graph
    /** The remaining transactions, in the positions of `g`. */
    ghost var left: set<nat>
    var sortedToOriginal: seq<nat>
    var originalToSorted: seq<nat>
    var sorted: Graph
    var todo: set<nat>

    ghost predicate Valid()
      reads this
    {
      && Searchable(sorted, todo) && Reordered(g, sorted, originalToSorted, sortedToOriginal)
      && left <= g.used && todo == Image(originalToSorted, left)
    }

    constructor (g: Graph)
      requires g.Valid() && g.Acyclic() && g.PositiveSizes()
      ensures Valid() && this.g == g && left == g.used
    {
      var t := SortByRate(g);
      SortedDistinct(g, t);
      UsedInRange(g);
      forall k | 0 <= k < |t|
        ensures t[k] < |g.entries|
      {
        assert t[k] in Elems(t);
      }
      var to := Inverse(|g.entries|, t);
      MappingOk(g, t, to);
      var d := new DepGraph.Remap(g, to, |t|, |t|);
      this.g, left := g, g.used;
      sortedToOriginal, originalToSorted, sorted := t, to, d.View();
      todo := d.used;
      assert Reordered(g, d.View(), to, t);
      SortedSearchable(g, d.View(), to, t);
    }

    /** A closed set of high feerate: never worse than the one supplied, and optimal when fewer
        splits than allowed were made. */
    method FindCandidateSet(maxIterations: nat, best0: SetInfo) returns (best: SetInfo, steps: nat)
      requires Valid() && left != {}
      requires best0 == SetInfo({}, EMPTY) || IsCandidate(g, left, best0)
      ensures IsCandidate(g, left, best) && steps <= maxIterations
      ensures best0.transactions != {} ==> NoWorse(best.feerate, best0.feerate)
      ensures steps < maxIterations ==> forall y :: !Beats(g, left, best.feerate, y)
      ensures steps < Pow2(|left|)
    {
      var known := MapSet(originalToSorted, best0.transactions);
      SizeTellsEmpty(sorted, known);
      hide Searchable, SetRate;
      CandidateRenamed(g, sorted, originalToSorted, sortedToOriginal, left, best0.transactions, best0.feerate);
      ghost var x :| x in left;
      assert originalToSorted[x] in todo;
      var found;
      found, steps := Search(sorted, todo, maxIterations, SetInfo(known, best0.feerate));
      ImageSize(originalToSorted, left);
      Pow2Mono(|todo|, |left|);
      ThereAndBack(g, sorted, originalToSorted, sortedToOriginal, left, found.transactions);
      var transactions := MapSet(sortedToOriginal, found.transactions);
      CandidateRenamed(g, sorted, originalToSorted, sortedToOriginal, left, transactions, found.feerate);
      best := SetInfo(transactions, found.feerate);
      if steps < maxIterations {
        forall y
          ensures !Beats(g, left, best.feerate, y)
        {
          if y <= left {
            CandidateRenamed(g, sorted, originalToSorted, sortedToOriginal, left, y, found.feerate);
          }
        }
      }
    }

    method MarkDone(done: set<nat>)
      requires Valid() && done <= left
      modifies this
      ensures Valid() && left == old(left) - done
    {
      var doneSorted := MapSet(originalToSorted, done);
      todo := todo - doneSorted;
      left := left - done;
    }
  }

  lemma SortedDistinct(g: Graph, t: seq<nat>)
    requires g.PositiveSizes() && Elems(t) <= g.used && RateSorted(g, t)
    ensures Distinct(t)
  {
    forall i, j | 0 <= i < j < |t|
      ensures t[i] != t[j]
    {
      assert t[i] in Elems(t) && t[j] in Elems(t);
      RateBeforeOrder(g, t[i], t[j], t[i]);
    }
  }

  lemma MappingOk(g: Graph, t: seq<nat>, to: seq<nat>)
    requires |to| == |g.entries| && Elems(t) == g.used && (forall k :: 0 <= k < |t| ==> t[k] < |to|)
    requires forall k :: 0 <= k < |t| ==> to[t[k]] == k
    ensures IsMapping(g, to, |t|) && forall i :: i in g.used ==> i < |to| && to[i] < |t| && t[to[i]] == i
  {
    forall i | i in g.used
      ensures i < |to| && to[i] < |t| && t[to[i]] == i
    {
      assert i in Elems(t);
      var k :| 0 <= k < |t| && t[k] == i;
    }
  }
}
