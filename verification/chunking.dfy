// Chunk sets of a linearization, and the effect of moving a set to its front
// (ChunkLinearization and LinearizationChunking of src/cluster_linearize.h).
module Chunking {
  import opened FeeFracs
  import opened DepGraphs
  import opened Diagrams
  import opened Linearizations
  import opened Sequences

  /** Positions of the graph, and the sum of their fees and sizes. */
  datatype SetInfo = SetInfo(transactions: set<nat>, feerate: FeeFrac)

  function Join(a: SetInfo, b: SetInfo): SetInfo {
    SetInfo(a.transactions + b.transactions, Plus(a.feerate, b.feerate))
  }

  /** Push `a` on the chunks, absorbing final chunks while they have a lower feerate. */
  function AbsorbSet(cs: seq<SetInfo>, a: SetInfo): seq<SetInfo> {
    if cs != [] && Higher(a.feerate, cs[|cs| - 1].feerate) then
      AbsorbSet(cs[..|cs| - 1], Join(a, cs[|cs| - 1]))
    else
      cs + [a]
  }

  /** The chunks of a linearization, each with its set and feerate. */
  ghost function ChunkSets(g: Graph, lin: seq<nat>): seq<SetInfo> {
    if lin == [] then []
    else AbsorbSet(ChunkSets(g, lin[..|lin| - 1]), SetInfo({lin[|lin| - 1]}, g.Rate(lin[|lin| - 1])))
  }

  ghost function RatesOf(cs: seq<SetInfo>): seq<FeeFrac> {
    seq(|cs|, i requires 0 <= i < |cs| => cs[i].feerate)
  }

  /** All transactions of the first `j` chunks. */
  ghost function PrefixSet(cs: seq<SetInfo>, j: nat): set<nat>
    requires j <= |cs|
  {
    if j == 0 then {} else PrefixSet(cs, j - 1) + cs[j - 1].transactions
  }

  // ----- chunk sets and chunk feerates are the same chunking

  lemma {:induction false} AbsorbSetRates(cs: seq<SetInfo>, a: SetInfo)
    ensures RatesOf(AbsorbSet(cs, a)) == Absorb(RatesOf(cs), a.feerate)
    ensures AbsorbSet(cs, a) != []
  {
    if cs != [] && Higher(a.feerate, cs[|cs| - 1].feerate) {
      AbsorbSetRates(cs[..|cs| - 1], Join(a, cs[|cs| - 1]));
      assert RatesOf(cs)[..|cs| - 1] == RatesOf(cs[..|cs| - 1]);
    }
  }

  lemma {:induction false} ChunkSetsRates(g: Graph, lin: seq<nat>)
    ensures RatesOf(ChunkSets(g, lin)) == Chunk(Rates(g, lin))
    ensures lin != [] ==> ChunkSets(g, lin) != []
  {
    if lin != [] {
      var x, i := lin[..|lin| - 1], lin[|lin| - 1];
      ChunkSetsRates(g, x);
      AbsorbSetRates(ChunkSets(g, x), SetInfo({i}, g.Rate(i)));
      assert Rates(g, lin)[..|lin| - 1] == Rates(g, x);
    }
  }

  // ----- chunk boundaries are prefixes of the linearization

  lemma {:induction false} PrefixSetOfPrefix(cs: seq<SetInfo>, ds: seq<SetInfo>, j: nat)
    requires j <= |cs| && j <= |ds| && cs[..j] == ds[..j]
    ensures PrefixSet(cs, j) == PrefixSet(ds, j)
  {
    if j > 0 {
      assert cs[..j - 1] == cs[..j][..j - 1] && ds[..j - 1] == ds[..j][..j - 1];
      assert cs[..j][j - 1] == cs[j - 1] && ds[..j][j - 1] == ds[j - 1];
      PrefixSetOfPrefix(cs, ds, j - 1);
    }
  }

  /** Absorbing leaves a prefix of the chunks and one new last chunk that holds the pushed set. */
  lemma {:induction false} AbsorbSetShape(cs: seq<SetInfo>, a: SetInfo)
    ensures var r := AbsorbSet(cs, a);
            && 1 <= |r| <= |cs| + 1
            && r[..|r| - 1] == cs[..|r| - 1]
            && a.transactions <= r[|r| - 1].transactions
            && PrefixSet(r, |r|) == PrefixSet(cs, |cs|) + a.transactions
  {
    var r := AbsorbSet(cs, a);
    if cs != [] && Higher(a.feerate, cs[|cs| - 1].feerate) {
      var x := cs[..|cs| - 1];
      AbsorbSetShape(x, Join(a, cs[|cs| - 1]));
      PrefixSetOfPrefix(x, cs, |x|);
      assert x[..|r| - 1] == cs[..|r| - 1];
    } else {
      PrefixSetOfPrefix(r, cs, |cs|);
    }
  }

  ghost predicate IsPrefixSet(lin: seq<nat>, s: set<nat>) {
    exists k :: 0 <= k <= |lin| && s == Elems(lin[..k])
  }

  lemma {:induction false} AllChunks(g: Graph, lin: seq<nat>)
    ensures PrefixSet(ChunkSets(g, lin), |ChunkSets(g, lin)|) == Elems(lin)
  {
    if lin != [] {
      var x, i := lin[..|lin| - 1], lin[|lin| - 1];
      assert lin == x + [i] && Elems([i]) == {i};
      hide ChunkSets, AbsorbSet, PrefixSet, Elems;
      AllChunks(g, x);
      ChunkSetsLast(g, lin);
      AbsorbSetShape(ChunkSets(g, x), SetInfo({i}, g.Rate(i)));
      ElemsConcat(x, [i]);
    }
  }

  lemma {:induction false} ChunkPrefix(g: Graph, lin: seq<nat>, j: nat)
    requires j <= |ChunkSets(g, lin)|
    ensures IsPrefixSet(lin, PrefixSet(ChunkSets(g, lin), j))
  {
    hide ChunkSets, AbsorbSet, IsPrefixSet, PrefixSet, Elems;
    if j == |ChunkSets(g, lin)| {
      AllChunks(g, lin);
      WholePrefix(lin);
    } else {
      NoChunks(g);
      var x := lin[..|lin| - 1];
      EarlierChunks(g, lin, j);
      ChunkPrefix(g, x, j);
      PrefixOfPrefix(lin, PrefixSet(ChunkSets(g, x), j));
    }
  }

  lemma NoChunks(g: Graph)
    ensures ChunkSets(g, []) == []
  {
  }

  /** All chunks but the last are there already without the last transaction. */
  lemma {:induction false} EarlierChunks(g: Graph, lin: seq<nat>, j: nat)
    requires lin != [] && j < |ChunkSets(g, lin)|
    ensures var cs := ChunkSets(g, lin[..|lin| - 1]); j <= |cs| && PrefixSet(ChunkSets(g, lin), j) == PrefixSet(cs, j)
  {
    hide ChunkSets, AbsorbSet, PrefixSet, Elems;
    var x, i := lin[..|lin| - 1], lin[|lin| - 1];
    var cs, r := ChunkSets(g, x), ChunkSets(g, lin);
    ChunkSetsLast(g, lin);
    AbsorbSetShape(cs, SetInfo({i}, g.Rate(i)));
    PrefixTake(r, cs, |r| - 1, j);
    PrefixSetOfPrefix(r, cs, j);
  }

  lemma {:induction false} TwoParts<T>(s: seq<T>, k: nat)
    requires k <= |s|
    ensures s == s[..k] + s[k..]
  {
  }

  lemma {:induction false} PrefixTake<T>(s: seq<T>, t: seq<T>, n: nat, j: nat)
    requires j <= n <= |s| && n <= |t| && s[..n] == t[..n]
    ensures s[..j] == t[..j]
  {
    assert s[..j] == s[..n][..j] && t[..j] == t[..n][..j];
  }

  lemma WholePrefix(lin: seq<nat>)
    ensures IsPrefixSet(lin, Elems(lin))
  {
    assert lin[..|lin|] == lin;
  }

  lemma {:induction false} ChunkSetsLast(g: Graph, lin: seq<nat>)
    requires lin != []
    ensures ChunkSets(g, lin) == AbsorbSet(ChunkSets(g, lin[..|lin| - 1]),
                SetInfo({lin[|lin| - 1]}, g.Rate(lin[|lin| - 1])))
  {
  }

  lemma PrefixOfPrefix(lin: seq<nat>, s: set<nat>)
    requires lin != [] && IsPrefixSet(lin[..|lin| - 1], s)
    ensures IsPrefixSet(lin, s)
  {
    var x := lin[..|lin| - 1];
    var k :| 0 <= k <= |x| && s == Elems(x[..k]);
    assert x[..k] == lin[..k];
  }

  /** The j-th chunk: its feerate is that of its set, and it is disjoint from the chunks before it. */
  ghost predicate GoodChunk(g: Graph, cs: seq<SetInfo>, j: nat) {
    && j < |cs|
    && cs[j].transactions != {}
    && cs[j].feerate == SetRate(g, cs[j].transactions)
    && cs[j].transactions !! PrefixSet(cs, j)
  }

  ghost predicate GoodChunks(g: Graph, cs: seq<SetInfo>) {
    forall j {:trigger GoodChunk(g, cs, j)} :: 0 <= j < |cs| ==> GoodChunk(g, cs, j)
  }

  lemma GoodPrefix(g: Graph, cs: seq<SetInfo>, n: nat)
    requires GoodChunks(g, cs) && n <= |cs|
    ensures GoodChunks(g, cs[..n])
  {
    var x := cs[..n];
    forall j | 0 <= j < n
      ensures GoodChunk(g, x, j)
    {
      assert GoodChunk(g, cs, j);
      assert x[..j] == cs[..j];
      PrefixSetOfPrefix(x, cs, j);
    }
  }

  lemma GoodAppend(g: Graph, cs: seq<SetInfo>, a: SetInfo)
    requires GoodChunks(g, cs)
    requires a.transactions != {} && a.feerate == SetRate(g, a.transactions)
    requires a.transactions !! PrefixSet(cs, |cs|)
    ensures GoodChunks(g, cs + [a])
  {
    var r := cs + [a];
    forall j | 0 <= j < |r|
      ensures GoodChunk(g, r, j)
    {
      assert r[..j] == cs[..j];
      PrefixSetOfPrefix(r, cs, j);
      if j < |cs| {
        assert GoodChunk(g, cs, j);
      }
    }
  }

  lemma {:induction false} AbsorbSetGood(g: Graph, cs: seq<SetInfo>, a: SetInfo)
    requires GoodChunks(g, cs)
    requires a.transactions != {} && a.feerate == SetRate(g, a.transactions)
    requires a.transactions !! PrefixSet(cs, |cs|)
    ensures GoodChunks(g, AbsorbSet(cs, a))
  {
    hide SetRate, Gain;
    if cs != [] && Higher(a.feerate, cs[|cs| - 1].feerate) {
      var n := |cs| - 1;
      var x, c := cs[..n], cs[n];
      assert GoodChunk(g, cs, n);
      PrefixSetOfPrefix(x, cs, n);
      GoodPrefix(g, cs, n);
      SetRateUnion(g, a.transactions, c.transactions);
      AbsorbSetGood(g, x, Join(a, c));
    } else {
      GoodAppend(g, cs, a);
    }
  }

  lemma {:induction false} ChunkSetsGood(g: Graph, lin: seq<nat>)
    requires Distinct(lin)
    ensures GoodChunks(g, ChunkSets(g, lin))
  {
    if lin != [] {
      var x, i := lin[..|lin| - 1], lin[|lin| - 1];
      assert lin == x + [i];
      ElemsConcat(x, [i]);
      assert i in Elems([i]);
      ChunkSetsGood(g, x);
      var cs, a := ChunkSets(g, x), SetInfo({i}, g.Rate(i));
      AllChunks(g, x);
      SetRateRemove(g, {i}, i);
      assert {i} - {i} == {};
      PlusEmpty(g.Rate(i));
      AbsorbSetGood(g, cs, a);
    }
  }

  lemma {:induction false} PrefixSetTotal(g: Graph, cs: seq<SetInfo>, j: nat)
    requires j <= |cs| && GoodChunks(g, cs)
    ensures Total(RatesOf(cs)[..j]) == SetRate(g, PrefixSet(cs, j))
  {
    if j > 0 {
      var c, fs := cs[j - 1], RatesOf(cs);
      PrefixSetTotal(g, cs, j - 1);
      assert GoodChunk(g, cs, j - 1);
      SetRateUnion(g, PrefixSet(cs, j - 1), c.transactions);
      hide SetRate, GoodChunks;
      assert fs[..j] == fs[..j - 1] + [c.feerate];
      TotalConcat(fs[..j - 1], [c.feerate]);
      TotalSingle(c.feerate);
    }
  }

  // ----- dropping the first chunk

  lemma {:induction false} AbsorbBehind(d: SetInfo, e: seq<SetInfo>, a: SetInfo)
    requires |AbsorbSet([d] + e, a)| >= 2
    ensures AbsorbSet([d] + e, a) == [d] + AbsorbSet(e, a)
  {
    var cs := [d] + e;
    if Higher(a.feerate, cs[|cs| - 1].feerate) {
      assert cs[..|cs| - 1] == if e == [] then [] else [d] + e[..|e| - 1];
      if e != [] {
        AbsorbBehind(d, e[..|e| - 1], Join(a, e[|e| - 1]));
      }
    } else {
      assert cs + [a] == [d] + (e + [a]);
    }
  }

  lemma SingleChunk(g: Graph, cs: seq<SetInfo>)
    requires GoodChunks(g, cs) && cs != [] && PrefixSet(cs, |cs|) == cs[0].transactions
    ensures |cs| == 1
  {
    var n := |cs| - 1;
    assert GoodChunk(g, cs, n);
    assert PrefixSet(cs, 1) == PrefixSet(cs, 0) + cs[0].transactions;
    if n > 0 {
      PrefixSetGrows(cs, 1, n);
    }
  }

  /** If the first chunk of `pre + post` is exactly `pre`, the other chunks are those of `post`. */
  lemma {:induction false} ChunksAfterFirst(g: Graph, pre: seq<nat>, post: seq<nat>)
    requires Distinct(pre + post)
    requires ChunkSets(g, pre + post) != []
    requires ChunkSets(g, pre + post)[0].transactions == Elems(pre)
    ensures ChunkSets(g, pre + post) == [ChunkSets(g, pre + post)[0]] + ChunkSets(g, post)
  {
    var lin := pre + post;
    var cs := ChunkSets(g, lin);
    if post == [] {
      assert lin == pre;
      ChunkSetsGood(g, lin);
      AllChunks(g, lin);
      SingleChunk(g, cs);
    } else {
      hide ChunkSets, AbsorbSet, PrefixSet, Distinct, Elems;
      var n := |post| - 1;
      var p', x := post[..n], post[n];
      var d, a := ChunkSets(g, pre + p'), SetInfo({x}, g.Rate(x));
      NewLast(g, pre, post);
      ChunksAfterFirst(g, pre, p');
      ChunkSetsLast(g, post);
      AbsorbBehind(d[0], ChunkSets(g, p'), a);
    }
  }

  /** A transaction outside the first chunk does not change it. */
  lemma {:induction false} NewLast(g: Graph, pre: seq<nat>, post: seq<nat>)
    requires post != [] && Distinct(pre + post) && ChunkSets(g, pre + post) != []
    requires ChunkSets(g, pre + post)[0].transactions == Elems(pre)
    ensures var p', x := post[..|post| - 1], post[|post| - 1];
            var cs, d := ChunkSets(g, pre + post), ChunkSets(g, pre + p');
            && cs == AbsorbSet(d, SetInfo({x}, g.Rate(x))) && |cs| >= 2 && d != [] && d[0] == cs[0]
                && Distinct(pre + p')
  {
    var lin, p', x := pre + post, post[..|post| - 1], post[|post| - 1];
    var cs, d := ChunkSets(g, lin), ChunkSets(g, pre + p');
    assert lin[..|lin| - 1] == pre + p' && lin[|lin| - 1] == x && lin == (pre + p') + [x];
    assert x in Elems(post);
    hide ChunkSets, AbsorbSet, PrefixSet, Distinct, Elems;
    ElemsConcat(pre + p', [x]);
    ElemsConcat(pre, post);
    ChunkSetsLast(g, lin);
    AbsorbSetShape(d, SetInfo({x}, g.Rate(x)));
    assert x in cs[|cs| - 1].transactions && x !in cs[0].transactions;
    assert cs[0] == cs[..|cs| - 1][0] == d[..|cs| - 1][0] == d[0];
  }

  lemma {:induction false} PrefixSetGrows(cs: seq<SetInfo>, i: nat, j: nat)
    requires i <= j <= |cs|
    ensures PrefixSet(cs, i) <= PrefixSet(cs, j)
  {
    if i < j {
      PrefixSetGrows(cs, i, j - 1);
    }
  }

  lemma FilterSuffix(pre: seq<nat>, post: seq<nat>)
    requires Distinct(pre + post)
    ensures Filter(pre + post, Elems(pre + post) - Elems(pre)) == post
  {
    ElemsConcat(pre, post);
    var s := Elems(pre + post) - Elems(pre);
    FilterConcat(pre, post, s);
    FilterNone(pre, s);
    FilterAll(post, s);
    assert [] + post == post;
  }

  lemma FirstChunkPrefix(g: Graph, lin: seq<nat>) returns (k: nat)
    requires lin != []
    ensures ChunkSets(g, lin) != []
    ensures k <= |lin| && ChunkSets(g, lin)[0].transactions == Elems(lin[..k])
  {
    ChunkSetsRates(g, lin);
    var cs := ChunkSets(g, lin);
    ChunkPrefix(g, lin, 1);
    assert PrefixSet(cs, 1) == PrefixSet(cs, 0) + cs[0].transactions;
    k :| 0 <= k <= |lin| && PrefixSet(cs, 1) == Elems(lin[..k]);
  }

  /** Removing exactly the first chunk from a linearization leaves the other chunks as they were. */
  lemma {:induction false} DropFirstChunk(g: Graph, lin: seq<nat>) returns (k: nat)
    requires Distinct(lin) && lin != []
    ensures ChunkSets(g, lin) != [] && k <= |lin|
    ensures ChunkSets(g, lin)[0].transactions == Elems(lin[..k])
    ensures Filter(lin, Elems(lin) - Elems(lin[..k])) == lin[k..]
    ensures ChunkSets(g, lin[k..]) == ChunkSets(g, lin)[1..]
  {
    hide ChunkSets, Distinct, Filter, Elems;
    k := FirstChunkPrefix(g, lin);
    var pre, post := lin[..k], lin[k..];
    TwoParts(lin, k);
    ChunksAfterFirst(g, pre, post);
    FilterSuffix(pre, post);
  }
}
