// One post-linearization pass at the level of group lists: what each merge and swap keeps, and why
// the final groups are the chunks of the result (PostLinearize of src/cluster_linearize.h).
module Passes {
  import opened FeeFracs
  import opened DepGraphs
  import opened Diagrams
  import opened Linearizations
  import opened Chunking
  import opened Groups
  import opened Sequences

  /** The groups are good, list the input once in topological order, and are no worse than it. */
  ghost predicate Sound(h: Graph, inp: seq<nat>, gs: seq<seq<nat>>) {
    && GoodGroups(h, gs)
    && IsLin(h, Flatten(gs), Elems(inp)) && Distinct(inp)
    && Dominates(Rates(h, Flatten(gs)), Rates(h, inp))
  }

  /** Feerates never increase along the list, leaving out the group at `c`, which is at least as
      good as every group behind it. */
  ghost predicate OrderedBut(h: Graph, gs: seq<seq<nat>>, c: nat) {
    && c < |gs|
    && (forall i, j :: 0 <= i < j < |gs| && i != c && j != c ==> !Higher(GroupRate(h, gs[j]), GroupRate(h, gs[i])))
    && (forall j :: c < j < |gs| ==> !Higher(GroupRate(h, gs[j]), GroupRate(h, gs[c])))
  }

  ghost function SwapAt(gs: seq<seq<nat>>, c: nat): seq<seq<nat>>
    requires 0 < c < |gs|
  {
    gs[..c - 1] + [gs[c], gs[c - 1]] + gs[c + 1..]
  }

  ghost function MergeAt(gs: seq<seq<nat>>, c: nat): seq<seq<nat>>
    requires 0 < c < |gs|
  {
    gs[..c - 1] + [gs[c - 1] + gs[c]] + gs[c + 1..]
  }

  lemma {:induction false} MergeElems(gs: seq<seq<nat>>, c: nat)
    requires 0 < c < |gs|
    ensures |MergeAt(gs, c)| == |gs| - 1
    ensures forall j {:trigger MergeAt(gs, c)[j]} :: 0 <= j < |gs| - 1 ==>
              MergeAt(gs, c)[j] == if j < c - 1 then gs[j] else if j == c - 1 then gs[c - 1] + gs[c] else gs[j + 1]
  {
  }

  lemma {:induction false} SwapElems(gs: seq<seq<nat>>, c: nat)
    requires 0 < c < |gs|
    ensures |SwapAt(gs, c)| == |gs|
    ensures forall j {:trigger SwapAt(gs, c)[j]} :: 0 <= j < |gs| ==>
              SwapAt(gs, c)[j] == if j == c - 1 then gs[c] else if j == c then gs[c - 1] else gs[j]
  {
  }

  lemma SplitSeq<T>(s: seq<T>, c: nat)
    requires 0 < c < |s|
    ensures s == s[..c - 1] + [s[c - 1], s[c]] + s[c + 1..]
  {
  }

  lemma SplitAt(gs: seq<seq<nat>>, c: nat)
    requires 0 < c < |gs|
    ensures gs == gs[..c - 1] + [gs[c - 1], gs[c]] + gs[c + 1..]
    ensures Flatten(gs) == Flatten(gs[..c - 1]) + (gs[c - 1] + gs[c]) + Flatten(gs[c + 1..])
    ensures Flatten(MergeAt(gs, c)) == Flatten(gs)
    ensures Flatten(SwapAt(gs, c)) == Flatten(gs[..c - 1]) + (gs[c] + gs[c - 1]) + Flatten(gs[c + 1..])
  {
    hide Flatten;
    var x, p, q, y := gs[..c - 1], gs[c - 1], gs[c], gs[c + 1..];
    SplitSeq(gs, c);
    assert Flatten(gs) == Flatten(x) + (p + q) + Flatten(y) by {
      FlattenMiddle(x, [p, q], y);
      FlattenPair(p, q);
    }
    assert Flatten(SwapAt(gs, c)) == Flatten(x) + (q + p) + Flatten(y) by {
      FlattenMiddle(x, [q, p], y);
      FlattenPair(q, p);
    }
    assert Flatten(MergeAt(gs, c)) == Flatten(x) + (p + q) + Flatten(y) by {
      FlattenMiddle(x, [p + q], y);
      FlattenPair(p, q);
    }
  }

  lemma FlattenMiddle(x: seq<seq<nat>>, m: seq<seq<nat>>, y: seq<seq<nat>>)
    ensures Flatten(x + m + y) == Flatten(x) + Flatten(m) + Flatten(y)
  {
    FlattenConcat(x + m, y);
    FlattenConcat(x, m);
  }

  // ----- starting a cycle

  lemma SingletonGood(h: Graph, x: nat)
    requires x in h.used
    ensures GoodGroup(h, [x])
  {
    assert Elems([x]) == {x};
  }

  lemma {:induction false} SoundAppend(h: Graph, inp: seq<nat>, gs: seq<seq<nat>>, x: nat)
    requires Sound(h, inp, gs) && x in h.used && x !in inp
    requires Topological(h, inp + [x])
    ensures Sound(h, inp + [x], gs + [[x]])
  {
    hide Flatten, GoodGroup, Dominates, Rates, Distinct;
    var f := Flatten(gs);
    FlattenSingle(gs, x);
    SingletonGood(h, x);
    assert GoodGroups(h, gs + [[x]]) by {
      assert forall k :: 0 <= k < |gs| ==> (gs + [[x]])[k] == gs[k];
    }
    LinAppend(h, f, inp, x);
    TotalRates(h, f);
    TotalRates(h, inp);
    RatesConcat(h, f, [x]);
    RatesConcat(h, inp, [x]);
    DominatesAppend(Rates(h, f), Rates(h, inp), Rates(h, [x]));
  }

  lemma {:induction false} FlattenSingle(gs: seq<seq<nat>>, x: nat)
    ensures Flatten(gs + [[x]]) == Flatten(gs) + [x]
  {
    FlattenConcat(gs, [[x]]);
    assert Flatten([[x]]) == [x] + Flatten([]);
  }

  /** What may follow one order of some transactions may follow any. */
  lemma {:induction false} LinAppend(h: Graph, f: seq<nat>, inp: seq<nat>, x: nat)
    requires IsLin(h, f, Elems(inp)) && Distinct(inp) && x !in inp && Topological(h, inp + [x])
    ensures IsLin(h, f + [x], Elems(inp + [x])) && Distinct(inp + [x])
  {
    ElemsConcat(f, [x]);
    ElemsConcat(inp, [x]);
    assert Elems([x]) == {x};
    TopologicalConcat(h, inp, [x]);
    assert forall y :: y in f <==> y in Elems(f);
    assert forall y :: y in inp <==> y in Elems(inp);
    TopologicalConcat(h, f, [x]);
  }

  lemma DominatesAppend(a: seq<FeeFrac>, b: seq<FeeFrac>, z: seq<FeeFrac>)
    requires Dominates(a, b) && Total(a) == Total(b)
    ensures Dominates(a + z, b + z)
  {
    forall r: FeeFrac | r.size > 0
      ensures Peak(a + z, r) >= Peak(b + z, r)
    {
      assert Peak(a, r) >= Peak(b, r);
      PeakConcat(a, z, r);
      PeakConcat(b, z, r);
    }
  }

  // ----- merging

  lemma SoundMerge(h: Graph, inp: seq<nat>, gs: seq<seq<nat>>, c: nat)
    requires h.PositiveSizes() && Sound(h, inp, gs) && 0 < c < |gs|
    requires Higher(GroupRate(h, gs[c]), GroupRate(h, gs[c - 1]))
    requires exists a, b :: a in gs[c - 1] && b in gs[c] && a in h.Anc(b)
    ensures Sound(h, inp, MergeAt(gs, c))
  {
    hide GoodGroup, Dominates, IsLin, Flatten, GroupRate, MergeAt, Distinct;
    SplitAt(gs, c);
    var p, q := gs[c - 1], gs[c];
    assert GoodGroup(h, p) && GoodGroup(h, q);
    var a, b :| a in p && b in q && a in h.Anc(b);
    MergedGood(h, p, q, a, b);
    MergeElems(gs, c);
    assert GoodGroups(h, MergeAt(gs, c));
  }

  lemma {:induction false} MergedGood(h: Graph, p: seq<nat>, q: seq<nat>, a: nat, b: nat)
    requires h.PositiveSizes() && GoodGroup(h, p) && GoodGroup(h, q) && Higher(GroupRate(h, q), GroupRate(h, p))
    requires a in p && b in q && a in h.Anc(b)
    ensures GoodGroup(h, p + q)
  {
    MergeStrict(h, p, q);
    ElemsConcat(p, q);
    ConnectedUnion(h, Elems(p), Elems(q), a, b);
  }

  // ----- swapping

  lemma {:induction false} SwapGroupPeak(h: Graph, gs: seq<seq<nat>>, c: nat, r: FeeFrac)
    requires h.PositiveSizes() && r.size > 0 && GoodGroups(h, gs) && 0 < c < |gs|
    requires Higher(GroupRate(h, gs[c]), GroupRate(h, gs[c - 1]))
    ensures Peak(GroupRates(h, SwapAt(gs, c)), r) >= Peak(GroupRates(h, gs), r)
  {
    assert GoodGroup(h, gs[c - 1]) && GoodGroup(h, gs[c]);
    var p, q := GroupRate(h, gs[c - 1]), GroupRate(h, gs[c]);
    GroupPositive(h, gs[c - 1]);
    GroupPositive(h, gs[c]);
    var x, y := GroupRates(h, gs[..c - 1]), GroupRates(h, gs[c + 1..]);
    assert GroupRates(h, gs) == x + [p, q] + y;
    assert GroupRates(h, SwapAt(gs, c)) == x + [q, p] + y;
    hide Peak, GroupRates, GroupRate, GoodGroups, GoodGroup, SwapAt, Gain;
    SwapPeak(x, p, q, y, r);
  }

  lemma SwapGood(h: Graph, gs: seq<seq<nat>>, c: nat)
    requires GoodGroups(h, gs) && 0 < c < |gs|
    ensures GoodGroups(h, SwapAt(gs, c))
  {
    var ss := SwapAt(gs, c);
    forall k | 0 <= k < |ss|
      ensures GoodGroup(h, ss[k])
    {
      var j := if k == c - 1 then c else if k == c then c - 1 else k;
      assert ss[k] == gs[j];
    }
  }

  lemma SwapIsLin(h: Graph, x: seq<nat>, p: seq<nat>, q: seq<nat>, y: seq<nat>, s: set<nat>)
    requires IsLin(h, x + (p + q) + y, s)
    requires forall a, b :: a in p && b in q ==> a !in h.Anc(b)
    ensures IsLin(h, x + (q + p) + y, s)
  {
    ElemsConcat(x + (p + q), y);
    ElemsConcat(x, p + q);
    ElemsConcat(p, q);
    ElemsConcat(x + (q + p), y);
    ElemsConcat(x, q + p);
    ElemsConcat(q, p);
    hide Distinct, Elems, Topological;
    assert forall e :: e in x + (q + p) <==> e in x + (p + q);
    assert forall e :: e in q + p <==> e in p + q;
    TopologicalConcat(h, x + (p + q), y);
    TopologicalConcat(h, x, p + q);
    TopologicalConcat(h, p, q);
    TopologicalConcat(h, q, p);
    TopologicalConcat(h, x, q + p);
    TopologicalConcat(h, x + (q + p), y);
  }

  lemma SoundSwap(h: Graph, inp: seq<nat>, gs: seq<seq<nat>>, c: nat)
    requires h.PositiveSizes() && Sound(h, inp, gs) && 0 < c < |gs|
    requires Higher(GroupRate(h, gs[c]), GroupRate(h, gs[c - 1]))
    requires forall a, b :: a in gs[c - 1] && b in gs[c] ==> a !in h.Anc(b)
    ensures Sound(h, inp, SwapAt(gs, c))
  {
    SplitAt(gs, c);
    var ss := SwapAt(gs, c);
    SwapGood(h, gs, c);
    SwapIsLin(h, Flatten(gs[..c - 1]), gs[c - 1], gs[c], Flatten(gs[c + 1..]), Elems(inp));
    hide GoodGroups, SwapAt, GroupRate, IsLin;
    forall r: FeeFrac | r.size > 0
      ensures Peak(Rates(h, Flatten(ss)), r) >= Peak(Rates(h, inp), r)
    {
      assert Peak(Rates(h, Flatten(gs)), r) >= Peak(Rates(h, inp), r);
      PeakOfGroups(h, gs, r);
      PeakOfGroups(h, ss, r);
      SwapGroupPeak(h, gs, c, r);
    }
  }

  // ----- the order of the groups

  lemma OrderedSwap(h: Graph, gs: seq<seq<nat>>, c: nat)
    requires OrderedBut(h, gs, c) && 0 < c
    requires Higher(GroupRate(h, gs[c]), GroupRate(h, gs[c - 1]))
    ensures OrderedBut(h, SwapAt(gs, c), c - 1)
  {
    hide GroupRate, Gain;
    var ss := SwapAt(gs, c);
    var from := (k: int) => if k == c - 1 then c else if k == c then c - 1 else k;
    forall k | 0 <= k < |ss|
      ensures 0 <= from(k) < |gs| && ss[k] == gs[from(k)]
    {
    }
    GainSelf(GroupRate(h, gs[c]), GroupRate(h, gs[c - 1]));
    forall i, j | 0 <= i < j < |ss| && i != c - 1 && j != c - 1
      ensures !Higher(GroupRate(h, ss[j]), GroupRate(h, ss[i]))
    {
      assert !Higher(GroupRate(h, gs[from(j)]), GroupRate(h, gs[from(i)]));
    }
  }

  /** The merged group lies between its parts, so it still beats everything behind it. */
  lemma MergedBehind(h: Graph, gs: seq<seq<nat>>, c: nat, j: nat)
    requires h.PositiveSizes() && OrderedBut(h, gs, c) && 0 < c < j < |gs| && GoodGroups(h, gs)
    requires Higher(GroupRate(h, gs[c]), GroupRate(h, gs[c - 1]))
    ensures !Higher(GroupRate(h, gs[j]), GroupRate(h, gs[c - 1] + gs[c]))
  {
    assert GoodGroup(h, gs[c - 1]);
    var p, q := GroupRate(h, gs[c - 1]), GroupRate(h, gs[c]);
    GroupPositive(h, gs[c - 1]);
    TotalOfConcat(h, gs[c - 1], gs[c]);
    hide GroupRate, Gain, GoodGroups, GoodGroup;
    GainPlus(p, q, p);
    GainSelf(p, p);
    GainSelf(p, Plus(p, q));
    assert !Higher(GroupRate(h, gs[j]), p);
    GainTransitive(GroupRate(h, gs[j]), p, Plus(p, q));
  }

  lemma OrderedMerge(h: Graph, gs: seq<seq<nat>>, c: nat)
    requires h.PositiveSizes() && OrderedBut(h, gs, c) && 0 < c && GoodGroups(h, gs)
    requires Higher(GroupRate(h, gs[c]), GroupRate(h, gs[c - 1]))
    ensures OrderedBut(h, MergeAt(gs, c), c - 1)
  {
    hide GroupRate, GoodGroups, MergeAt;
    var ms := MergeAt(gs, c);
    MergeElems(gs, c);
    forall i, j | 0 <= i < j < |ms| && i != c - 1 && j != c - 1
      ensures !Higher(GroupRate(h, ms[j]), GroupRate(h, ms[i]))
    {
    }
    forall j | c - 1 < j < |ms|
      ensures !Higher(GroupRate(h, ms[j]), GroupRate(h, ms[c - 1]))
    {
      MergedBehind(h, gs, c, j + 1);
    }
  }

  lemma OrderedStart(h: Graph, gs: seq<seq<nat>>, grp: seq<nat>)
    requires NonIncreasing(GroupRates(h, gs))
    ensures OrderedBut(h, gs + [grp], |gs|)
  {
    forall i, j | 0 <= i < j < |gs|
      ensures !Higher(GroupRate(h, gs[j]), GroupRate(h, gs[i]))
    {
      assert !Higher(GroupRates(h, gs)[j], GroupRates(h, gs)[i]);
    }
  }

  lemma OrderedEnd(h: Graph, gs: seq<seq<nat>>, c: nat)
    requires h.PositiveSizes() && OrderedBut(h, gs, c) && GoodGroups(h, gs)
    requires c > 0 ==> !Higher(GroupRate(h, gs[c]), GroupRate(h, gs[c - 1]))
    ensures NonIncreasing(GroupRates(h, gs))
  {
    forall i, j | 0 <= i < j < |gs|
      ensures !Higher(GroupRate(h, gs[j]), GroupRate(h, gs[i]))
    {
      if j == c && i < c - 1 {
        assert GoodGroup(h, gs[c - 1]);
        GroupPositive(h, gs[c - 1]);
        assert !Higher(GroupRate(h, gs[c - 1]), GroupRate(h, gs[i]));
        GainTransitive(GroupRate(h, gs[c]), GroupRate(h, gs[c - 1]), GroupRate(h, gs[i]));
      }
    }
  }

  // ----- the groups of a finished pass are the chunks of its result

  /** Absorbing stays within the later chunks if even all of them together do not beat the last
      earlier one. */
  lemma {:induction false} AbsorbAfter(cs: seq<SetInfo>, ds: seq<SetInfo>, a: SetInfo)
    requires cs != [] ==> !Higher(Plus(a.feerate, Total(RatesOf(ds))), cs[|cs| - 1].feerate)
    ensures AbsorbSet(cs + ds, a) == cs + AbsorbSet(ds, a)
  {
    var all := cs + ds;
    if ds == [] {
      assert all == cs;
      PlusEmpty(a.feerate);
    } else {
      var n := |ds| - 1;
      assert all[|all| - 1] == ds[n] && all[..|all| - 1] == cs + ds[..n];
      if Higher(a.feerate, ds[n].feerate) {
        var d, fs := ds[n].feerate, RatesOf(ds[..n]);
        assert RatesOf(ds) == fs + [d];
        TotalConcat(fs, [d]);
        TotalSingle(d);
        assert Plus(Plus(a.feerate, d), Total(fs)) == Plus(a.feerate, Plus(Total(fs), d));
        AbsorbAfter(cs, ds[..n], Join(a, ds[n]));
      } else {
        assert all + [a] == cs + (ds + [a]);
      }
    }
  }

  lemma {:induction false} ChunksConcat(h: Graph, a: seq<nat>, b: seq<nat>, last: FeeFrac)
    requires ChunkSets(h, a) != [] ==> ChunkSets(h, a)[|ChunkSets(h, a)| - 1].feerate == last
    requires forall k {:trigger b[..k]} :: 0 < k <= |b| ==> !Higher(GroupRate(h, b[..k]), last)
    ensures ChunkSets(h, a + b) == ChunkSets(h, a) + ChunkSets(h, b)
  {
    hide Gain, GroupRate, AbsorbSet;
    if b == [] {
      assert a + b == a;
    } else {
      var n := |b| - 1;
      var b', x := b[..n], b[n];
      assert (a + b)[..|a + b| - 1] == a + b' && (a + b)[|a + b| - 1] == x;
      forall k | 0 < k <= |b'|
        ensures !Higher(GroupRate(h, b'[..k]), last)
      {
        assert b'[..k] == b[..k];
      }
      ChunksConcat(h, a, b', last);
      assert b == b' + [x] && b[..|b|] == b;
      ChunkTotalNext(h, b', x);
      AbsorbAfter(ChunkSets(h, a), ChunkSets(h, b'), SetInfo({x}, h.Rate(x)));
    }
  }

  lemma ChunkTotalNext(h: Graph, b: seq<nat>, x: nat)
    ensures Plus(h.Rate(x), Total(RatesOf(ChunkSets(h, b)))) == GroupRate(h, b + [x])
  {
    hide ChunkSets, Chunk, Total, Gain;
    ChunkSetsRates(h, b);
    ChunkTotal(Rates(h, b));
    TotalOfConcat(h, b, [x]);
    TotalSingle(h.Rate(x));
    assert Rates(h, [x]) == [h.Rate(x)];
    PlusAssoc(h.Rate(x), GroupRate(h, b), EMPTY);
  }

  lemma FirstAtLeastTotal(cs: seq<FeeFrac>)
    requires NonIncreasing(cs) && cs != []
    ensures Gain(Total(cs), cs[0]) <= 0
  {
    GainSelf(cs[0], cs[0]);
    PeakOfWorse(cs, cs[0]);
    PeakBound(cs, |cs|, cs[0]);
    assert cs[..|cs|] == cs;
  }

  /** The first chunk of a list is a non-empty prefix at least as good as the list. */
  lemma FirstChunkRate(h: Graph, grp: seq<nat>) returns (k: nat)
    requires h.PositiveSizes() && Elems(grp) <= h.used && Distinct(grp) && grp != []
    ensures ChunkSets(h, grp) != [] && 0 < k <= |grp|
    ensures ChunkSets(h, grp)[0] == SetInfo(Elems(grp[..k]), GroupRate(h, grp[..k]))
    ensures Gain(GroupRate(h, grp), GroupRate(h, grp[..k])) <= 0
  {
    hide Gain, SetRate, Strict;
    var cs := ChunkSets(h, grp);
    k := FirstChunkPrefix(h, grp);
    ChunkSetsGood(h, grp);
    assert GoodChunk(h, cs, 0);
    assert Distinct(grp[..k]);
    TotalRates(h, grp[..k]);
    assert k > 0;
    RatesPositive(h, grp);
    ChunkSetsRates(h, grp);
    ChunkNonIncreasing(Rates(h, grp));
    ChunkTotal(Rates(h, grp));
    FirstAtLeastTotal(RatesOf(cs));
  }

  /** A strict group is a single chunk. */
  lemma StrictSingle(h: Graph, grp: seq<nat>)
    requires h.PositiveSizes() && Strict(h, grp) && Elems(grp) <= h.used && Distinct(grp)
    ensures ChunkSets(h, grp) == [SetInfo(Elems(grp), GroupRate(h, grp))]
  {
    hide ChunkSets;
    var cs := ChunkSets(h, grp);
    var k := FirstChunkRate(h, grp);
    GainSelf(GroupRate(h, grp[..k]), GroupRate(h, grp));
    assert k == |grp|;
    assert grp[..|grp|] == grp;
    AllChunks(h, grp);
    ChunkSetsGood(h, grp);
    SingleChunk(h, cs);
  }

  ghost function GroupChunks(h: Graph, gs: seq<seq<nat>>): seq<SetInfo> {
    seq(|gs|, k requires 0 <= k < |gs| => SetInfo(Elems(gs[k]), GroupRate(h, gs[k])))
  }

  lemma {:induction false} GroupsAreChunks(h: Graph, gs: seq<seq<nat>>)
    requires h.PositiveSizes() && GoodGroups(h, gs) && NonIncreasing(GroupRates(h, gs))
    requires Distinct(Flatten(gs))
    ensures ChunkSets(h, Flatten(gs)) == GroupChunks(h, gs)
  {
    if gs != [] {
      var n := |gs| - 1;
      var gs', grp := gs[..n], gs[n];
      SplitLast(gs);
      FlattenConcat(gs', [grp]);
      assert Flatten([grp]) == grp + [] == grp;
      assert Flatten(gs) == Flatten(gs') + grp;
      ElemsConcat(Flatten(gs'), grp);
      assert GroupRates(h, gs') == GroupRates(h, gs)[..n];
      GroupsAreChunks(h, gs');
      assert GoodGroup(h, gs[n]);
      StrictSingle(h, grp);
      var last := if n == 0 then EMPTY else GroupRate(h, gs[n - 1]);
      LastBound(h, gs, last);
      ChunksConcat(h, Flatten(gs'), grp, last);
      assert GroupChunks(h, gs) == GroupChunks(h, gs') + [SetInfo(Elems(grp), GroupRate(h, grp))];
    }
  }

  lemma SplitLast<T>(s: seq<T>)
    requires s != []
    ensures s == s[..|s| - 1] + [s[|s| - 1]]
  {
  }

  lemma LastBound(h: Graph, gs: seq<seq<nat>>, last: FeeFrac)
    requires h.PositiveSizes() && gs != [] && GoodGroups(h, gs) && NonIncreasing(GroupRates(h, gs))
    requires last == if |gs| == 1 then EMPTY else GroupRate(h, gs[|gs| - 2])
    ensures forall k {:trigger gs[|gs| - 1][..k]} :: 0 < k <= |gs[|gs| - 1]| ==>
              !Higher(GroupRate(h, gs[|gs| - 1][..k]), last)
  {
    var n := |gs| - 1;
    var grp := gs[n];
    assert GoodGroup(h, gs[n]);
    GroupPositive(h, grp);
    forall k | 0 < k <= |grp|
      ensures !Higher(GroupRate(h, grp[..k]), last)
    {
      GainEmpty(GroupRate(h, grp[..k]));
      if n > 0 {
        assert !Higher(GroupRates(h, gs)[n], GroupRates(h, gs)[n - 1]);
        if k < |grp| {
          GainTransitive(GroupRate(h, grp[..k]), GroupRate(h, grp), last);
        } else {
          assert grp[..k] == grp;
        }
      }
    }
  }
}
