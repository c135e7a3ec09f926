// ChunkLinearization and class LinearizationChunking (src/cluster_linearize.h).
module LinearizationChunkings {
  import opened FeeFracs
  import opened DepGraphs
  import opened Diagrams
  import opened Linearizations
  import opened Chunking
  import opened Gathering
  import opened Sequences

  /** The feerates of the chunks of a linearization; `ChunkIsHull` says what they mean. */
  method ChunkLinearization(g: Graph, lin: seq<nat>) returns (ret: seq<FeeFrac>)
    ensures ret == Chunk(Rates(g, lin))
  {
    ret := [];
    var i := 0;
    while i < |lin|
      invariant 0 <= i <= |lin|
      invariant ret == Chunk(Rates(g, lin[..i]))
    {
      var newChunk := g.Rate(lin[i]);
      assert Rates(g, lin[..i + 1])[..i] == Rates(g, lin[..i]);
      while ret != [] && Higher(newChunk, ret[|ret| - 1])
        invariant Absorb(ret, newChunk) == Chunk(Rates(g, lin[..i + 1]))
        decreases |ret|
      {
        newChunk := Plus(newChunk, ret[|ret| - 1]);
        ret := ret[..|ret| - 1];
      }
      ret := ret + [newChunk];
      i := i + 1;
    }
    assert lin[..|lin|] == lin;
  }

  // ----- facts about filtered linearizations

  lemma {:induction false} FilterLength(lin: seq<nat>, s: set<nat>)
    ensures |Filter(lin, s)| <= |lin|
  {
    if lin != [] {
      FilterLength(lin[1..], s);
    }
  }

  /** Dropping as many entries as the first chunk has elements drops only finished entries. */
  lemma SkipDone(lin: seq<nat>, rem: seq<nat>, todo: set<nat>, k: nat)
    requires Distinct(rem) && Filter(lin, todo) == rem && Elems(rem) == todo && k <= |rem|
    ensures k <= |lin|
    ensures Filter(lin[k..], todo - Elems(rem[..k])) == Filter(rem, todo - Elems(rem[..k]))
  {
    FilterLength(lin, todo);
    var left := todo - Elems(rem[..k]);
    var a, b := lin[..k], lin[k..];
    assert lin == a + b;
    FilterConcat(a, b, todo);
    FilterConcat(a, b, left);
    FilterLength(a, todo);
    var m := |Filter(a, todo)|;
    assert Filter(a, todo) == rem[..m] == rem[..k][..m];
    FilterFilter(a, todo, left);
    FilterFilter(lin, todo, left);
    assert todo * left == left;
    assert rem[..k] == rem[..m] + rem[m..k];
    ElemsConcat(rem[..m], rem[m..k]);
    FilterNone(rem[..m], left);
    assert [] + Filter(b, left) == Filter(b, left);
  }

  lemma FilterSkip(lin: seq<nat>, s: set<nat>)
    requires lin != [] && lin[0] !in s
    ensures Filter(lin, s) == Filter(lin[1..], s)
  {
  }

  lemma FilterEmpty(lin: seq<nat>, s: set<nat>)
    ensures Filter(lin[..0], s) == []
  {
    assert lin[..0] == [];
  }

  lemma FilterStep(lin: seq<nat>, i: nat, s: set<nat>)
    requires i < |lin|
    ensures Filter(lin[..i + 1], s) == Filter(lin[..i], s) + (if lin[i] in s then [lin[i]] else [])
    ensures lin[i] !in s ==> Filter(lin[..i + 1], s) == Filter(lin[..i], s)
    ensures lin[i] in s ==> Filter(lin[..i + 1], s)[..|Filter(lin[..i + 1], s)| - 1] == Filter(lin[..i], s)
  {
    assert lin[..i + 1] == lin[..i] + [lin[i]];
    FilterConcat(lin[..i], [lin[i]], s);
    assert [lin[i]][1..] == [];
  }

  /** What IntersectPrefixes promises about its result `r` for the input set `s`. */
  ghost predicate GoodIntersection(g: Graph, cs: seq<SetInfo>, s: SetInfo, r: SetInfo) {
    && r.transactions != {} && r.transactions <= s.transactions
    && r.feerate == SetRate(g, r.transactions)
    && Gain(r.feerate, s.feerate) >= 0
    && (exists j :: 0 <= j <= |cs| && r.transactions == s.transactions * PrefixSet(cs, j) && NoneYet(g, cs, s, j))
    && (forall j {:trigger PrefixSet(cs, j)} :: 0 <= j <= |cs| ==>
          Gain(SetRate(g, r.transactions * PrefixSet(cs, j)), r.feerate) <= 0)
  }

  /** Each of the first `i` prefixes has no intersection with `s`, or one of a lower feerate than `s`. */
  ghost predicate NoneYet(g: Graph, cs: seq<SetInfo>, s: SetInfo, i: nat)
    requires i <= |cs| + 1
  {
    forall j {:trigger PrefixSet(cs, j)} :: 0 <= j < i ==>
      s.transactions * PrefixSet(cs, j) == {} || Gain(SetRate(g, s.transactions * PrefixSet(cs, j)), s.feerate) < 0
  }

  lemma IntersectionAt(g: Graph, cs: seq<SetInfo>, s: SetInfo, r: SetInfo, i: nat)
    requires i <= |cs| && NoneYet(g, cs, s, i)
    requires s.feerate == SetRate(g, s.transactions) && s.feerate.size > 0
    requires r.transactions == s.transactions * PrefixSet(cs, i) && r.transactions != {}
    requires r.feerate == SetRate(g, r.transactions)
    requires Gain(r.feerate, s.feerate) >= 0
    ensures GoodIntersection(g, cs, s, r)
  {
    hide Gain, SetRate;
    forall j | 0 <= j <= |cs|
      ensures Gain(SetRate(g, r.transactions * PrefixSet(cs, j)), r.feerate) <= 0
    {
      if j < i {
        PrefixSetGrows(cs, j, i);
        assert r.transactions * PrefixSet(cs, j) == s.transactions * PrefixSet(cs, j);
        GainSelf(r.feerate, s.feerate);
        EmptyGain(g, s.feerate);
        GainTransitive(SetRate(g, s.transactions * PrefixSet(cs, j)), s.feerate, r.feerate);
      } else {
        PrefixSetGrows(cs, i, j);
        assert r.transactions * PrefixSet(cs, j) == r.transactions;
        GainSelf(r.feerate, r.feerate);
      }
    }
  }

  /** A good intersection of a set at least as good as the first chunk can be moved to the front. */
  lemma IntersectionGatherable(g: Graph, cs: seq<SetInfo>, s: SetInfo, r: SetInfo)
    requires GoodIntersection(g, cs, s, r) && s.feerate.size > 0
    requires cs != [] ==> Gain(cs[0].feerate, s.feerate) <= 0
    ensures Gatherable(g, cs, r.transactions)
  {
    hide Gain, SetRate;
    if cs != [] {
      GainSelf(r.feerate, s.feerate);
      GainTransitive(cs[0].feerate, s.feerate, r.feerate);
    }
  }

  /** Intersections with prefixes of a topological linearization keep closed sets closed. */
  lemma IntersectionClosed(g: Graph, rem: seq<nat>, todo: set<nat>, s: SetInfo, r: SetInfo)
    requires IsLin(g, rem, todo) && Closed(g, todo, s.transactions)
    requires GoodIntersection(g, ChunkSets(g, rem), s, r)
    ensures Closed(g, todo, r.transactions)
  {
    var cs := ChunkSets(g, rem);
    var j :| 0 <= j <= |cs| && r.transactions == s.transactions * PrefixSet(cs, j) && NoneYet(g, cs, s, j);
    ChunkPrefix(g, rem, j);
    var k :| 0 <= k <= |rem| && PrefixSet(cs, j) == Elems(rem[..k]);
    PrefixClosed(g, rem, todo, k);
  }

  lemma DoneOther(original: seq<nat>, lin: seq<nat>, todo: set<nat>, left: set<nat>)
    requires left <= todo && Filter(lin, todo) == Filter(original, todo)
    ensures Filter(lin, left) == Filter(original, left)
  {
    assert todo * left == left;
    FilterFilter(original, todo, left);
    FilterFilter(lin, todo, left);
  }

  /** The shortcut of MarkDone: skipping the first chunk leaves a fresh chunking of what remains. */
  lemma DoneFirst(g: Graph, original: seq<nat>, lin: seq<nat>, todo: set<nat>, chunks: seq<SetInfo>, skip: nat)
    requires Distinct(original) && todo <= Elems(original) && Filter(lin, todo) == Filter(original, todo)
    requires skip < |chunks| && chunks[skip..] == ChunkSets(g, Filter(original, todo))
    ensures var c := chunks[skip].transactions;
            && |c| <= |lin|
            && Filter(lin[|c|..], todo - c) == Filter(original, todo - c)
            && chunks[skip + 1..] == ChunkSets(g, Filter(original, todo - c))
  {
    var rem := Filter(original, todo);
    FilterElems(original, todo);
    FilterDistinct(original, todo);
    assert Elems(rem) == todo;
    assert rem != [];
    assert chunks[skip] == chunks[skip..][0] && chunks[skip + 1..] == chunks[skip..][1..];
    hide Filter, ChunkSets;
    var k := DropFirstChunk(g, rem);
    SkipDone(lin, rem, todo, k);
    var c := chunks[skip].transactions;
    assert Distinct(rem[..k]);
    hide Distinct, Elems;
    DistinctElems(rem[..k]);
    FilterFilter(original, todo, todo - c);
    assert todo * (todo - c) == todo - c;
  }

  class LinearizationChunking {
    const g: Graph
    /** The linearization this object was made for. */
    ghost const original: seq<nat>
    /** The linearization, possibly with a finished prefix stripped. */
    var lin: seq<nat>
    var chunks: seq<SetInfo>
    /** How many leading chunks are finished. */
    var skip: nat
    /** Which transactions remain. */
    var todo: set<nat>

    /** What remains of the linearization. */
    ghost function Remaining(): seq<nat>
      reads this
    {
      Filter(original, todo)
    }

    /** The remaining chunks are exactly a fresh chunking of what remains. */
    ghost predicate Valid()
      reads this
    {
      && Distinct(original) && todo <= Elems(original)
      && Filter(lin, todo) == Filter(original, todo)
      && skip <= |chunks|
      && chunks[skip..] == ChunkSets(g, Filter(original, todo))
    }

    constructor (g: Graph, lin: seq<nat>)
      requires Distinct(lin)
      ensures Valid() && this.g == g && original == lin && todo == Elems(lin)
    {
      this.g, original := g, lin;
      this.lin, chunks, skip := lin, [], 0;
      var t := {};
      for i := 0 to |lin|
        invariant t == Elems(lin[..i])
      {
        t := t + {lin[i]};
        assert lin[..i + 1] == lin[..i] + [lin[i]];
        ElemsConcat(lin[..i], [lin[i]]);
      }
      assert lin[..|lin|] == lin;
      todo := t;
      new;
      BuildChunks();
    }

    /** Fill `chunks`, and remove the finished prefix of `lin`. */
    method BuildChunks()
      requires chunks == [] && skip == 0
      requires Distinct(original) && todo <= Elems(original) && Filter(lin, todo) == Filter(original, todo)
      modifies this`lin, this`chunks
      ensures Valid()
    {
      hide ChunkSets, Filter, Elems, Distinct;
      while lin != [] && lin[0] !in todo
        invariant Filter(lin, todo) == Filter(original, todo)
        decreases |lin|
        modifies this`lin
      {
        FilterSkip(lin, todo);
        lin := lin[1..];
      }
      var i := 0;
      NoChunks(g);
      FilterEmpty(lin, todo);
      while i < |lin|
        invariant 0 <= i <= |lin|
        invariant chunks == ChunkSets(g, Filter(lin[..i], todo))
        modifies this`chunks
      {
        var idx := lin[i];
        FilterStep(lin, i, todo);
        if idx in todo {
          ChunkSetsLast(g, Filter(lin[..i + 1], todo));
          // Start with a chunk containing just idx, and absorb final chunks of lower feerate.
          var add := SetInfo({idx}, g.Rate(idx));
          while chunks != [] && Higher(add.feerate, chunks[|chunks| - 1].feerate)
            invariant AbsorbSet(chunks, add) == ChunkSets(g, Filter(lin[..i + 1], todo))
            decreases |chunks|
            modifies this`chunks
          {
            add := Join(add, chunks[|chunks| - 1]);
            chunks := chunks[..|chunks| - 1];
          }
          chunks := chunks + [add];
        }
        i := i + 1;
      }
      assert lin[..|lin|] == lin;
    }

    /** The number of chunks that remain. */
    function NumChunksLeft(): nat
      requires skip <= |chunks|
      reads this
    {
      |chunks| - skip
    }

    /** The `n`-th chunk of a fresh chunking of what remains. */
    function GetChunk(n: nat): SetInfo
      requires n + skip < |chunks|
      reads this
    {
      chunks[n + skip]
    }

    ghost function Chunks(): seq<SetInfo>
      requires skip <= |chunks|
      reads this
    {
      chunks[skip..]
    }

    /** While anything remains there is a first chunk. */
    lemma HasChunk()
      requires Valid()
      ensures NumChunksLeft() == 0 <==> todo == {}
    {
      FilterElems(original, todo);
      ChunkSetsRates(g, Remaining());
      assert todo == Elems(Remaining());
      if Remaining() != [] {
        assert Remaining()[0] in Elems(Remaining());
      }
    }

    /** Remove a subset; the chunks afterwards are again those of what remains. */
    method MarkDone(subset: set<nat>)
      requires Valid() && subset != {} && subset <= todo
      modifies this
      ensures Valid() && todo == old(todo) - subset
    {
      hide ChunkSets, Filter, Elems, Distinct;
      HasChunk();
      var left := todo - subset;
      if GetChunk(0).transactions == subset {
        // Exactly the first chunk: no need to rechunk, just skip one more.
        DoneFirst(g, original, lin, todo, chunks, skip);
        todo := left;
        skip := skip + 1;
        lin := lin[|subset|..];
      } else {
        DoneOther(original, lin, todo, left);
        todo := left;
        chunks, skip := [], 0;
        BuildChunks();
      }
    }

    /** The intersection with the prefix of `i` chunks is too poor so far; add what chunk `i` has of `subset`. */
    method AddChunk(subset: SetInfo, acc0: SetInfo, i: nat) returns (acc: SetInfo, done: bool)
      requires Valid() && g.PositiveSizes() && todo <= g.used && i < |Chunks()|
      requires subset.transactions <= todo && subset.transactions != {}
      requires subset.feerate == SetRate(g, subset.transactions)
      requires acc0.transactions == subset.transactions * PrefixSet(Chunks(), i)
      requires acc0.feerate == SetRate(g, acc0.transactions) && NoneYet(g, Chunks(), subset, i + 1)
      ensures if done then GoodIntersection(g, Chunks(), subset, acc)
              else acc.transactions == subset.transactions * PrefixSet(Chunks(), i + 1)
                    && acc.feerate == SetRate(g, acc.transactions) && NoneYet(g, Chunks(), subset, i + 2)
    {
      SetRatePositive(g, subset.transactions);
      FilterDistinct(original, todo);
      ghost var rem, cs := Remaining(), Chunks();
      hide SetRate, ChunkSets, Gain, GoodIntersection, NoneYet, Filter, Elems;
      var toAdd := GetChunk(i).transactions * subset.transactions;
      assert GetChunk(i) == cs[i];
      IntersectStep(g, rem, subset, i, toAdd);
      if toAdd == {} {
        return acc0, false;
      }
      acc := acc0.(transactions := acc0.transactions + toAdd);
      if acc.transactions == subset.transactions {
        // All of `subset` is reached.
        GainSelf(subset.feerate, subset.feerate);
        IntersectionAt(g, cs, subset, subset, i + 1);
        return subset, true;
      }
      var add := FeeRateOf(g, toAdd);
      acc := acc.(feerate := Plus(acc.feerate, add));
      done := !(Gain(acc.feerate, subset.feerate) < 0);
      if done {
        IntersectionAt(g, cs, subset, acc, i + 1);
      }
    }

    /** The shortest intersection of `subset` with a prefix of the remaining chunks whose feerate is
        not below that of `subset`. */
    method IntersectPrefixes(subset: SetInfo) returns (r: SetInfo)
      requires Valid() && g.PositiveSizes() && todo <= g.used
      requires subset.transactions <= todo && subset.transactions != {}
      requires subset.feerate == SetRate(g, subset.transactions)
      ensures GoodIntersection(g, Chunks(), subset, r)
    {
      ghost var cs, rem := Chunks(), Remaining();
      IntersectStart(g, rem, subset);
      FilterElems(original, todo);
      assert Elems(rem) == todo;
      assert subset.transactions * PrefixSet(cs, 0) == {} && SetRate(g, {}) == EMPTY;
      hide SetRate, ChunkSets, Gain, GoodIntersection, NoneYet, Filter, Elems, PrefixSet;
      MoreLeft(g, rem, subset, 0);
      var acc := SetInfo({}, EMPTY);
      var i := 0;
      while i < NumChunksLeft()
        invariant 0 <= i < |cs|
        invariant NoneYet(g, cs, subset, i + 1)
        invariant acc.transactions == subset.transactions * PrefixSet(cs, i)
        invariant acc.feerate == SetRate(g, acc.transactions)
      {
        var done;
        acc, done := AddChunk(subset, acc, i);
        if done {
          return acc;
        }
        i := i + 1;
        MoreLeft(g, rem, subset, i);
      }
      return subset;
    }
  }

  lemma IntersectStart(g: Graph, rem: seq<nat>, s: SetInfo)
    requires g.PositiveSizes() && s.transactions <= g.used && s.transactions != {}
    requires s.feerate == SetRate(g, s.transactions)
    ensures NoneYet(g, ChunkSets(g, rem), s, 1)
    ensures s.feerate.size > 0
  {
    SetRatePositive(g, s.transactions);
    assert s.transactions * {} == {};
  }

  /** One more chunk: the intersection grows by a disjoint part. */
  lemma IntersectStep(g: Graph, rem: seq<nat>, s: SetInfo, i: nat, toAdd: set<nat>)
    requires Distinct(rem)
    requires i < |ChunkSets(g, rem)| && toAdd == ChunkSets(g, rem)[i].transactions * s.transactions
    requires NoneYet(g, ChunkSets(g, rem), s, i + 1)
    ensures var cs := ChunkSets(g, rem);
            && s.transactions * PrefixSet(cs, i + 1) == s.transactions * PrefixSet(cs, i) + toAdd
            && Plus(SetRate(g, s.transactions * PrefixSet(cs, i)), SetRate(g, toAdd))
               == SetRate(g, s.transactions * PrefixSet(cs, i + 1))
            && (Gain(SetRate(g, s.transactions * PrefixSet(cs, i + 1)), s.feerate) < 0 ==> NoneYet(g, cs, s, i + 2))
            && (toAdd == {} ==> NoneYet(g, cs, s, i + 2))
  {
    hide Gain, SetRate, ChunkSets, NoneYet;
    var cs := ChunkSets(g, rem);
    ChunkSetsGood(g, rem);
    assert GoodChunk(g, cs, i);
    var p := s.transactions * PrefixSet(cs, i);
    assert s.transactions * PrefixSet(cs, i + 1) == p + toAdd;
    SetRateUnion(g, p, toAdd);
    if toAdd == {} {
      assert p + toAdd == p;
    }
    NoneYetMore(g, cs, s, i + 1);
  }

  lemma NoneYetMore(g: Graph, cs: seq<SetInfo>, s: SetInfo, i: nat)
    requires 0 < i <= |cs| && NoneYet(g, cs, s, i)
    ensures var p, q := s.transactions * PrefixSet(cs, i - 1), s.transactions * PrefixSet(cs, i);
            p == q || Gain(SetRate(g, q), s.feerate) < 0 ==> NoneYet(g, cs, s, i + 1)
  {
    hide Gain, SetRate, PrefixSet;
  }

  /** The whole linearization cuts out all of `s`, so the search ends before its last chunk has been passed. */
  lemma MoreLeft(g: Graph, rem: seq<nat>, s: SetInfo, i: nat)
    requires s.transactions <= Elems(rem) && s.transactions != {} && s.feerate == SetRate(g, s.transactions)
    requires i <= |ChunkSets(g, rem)| && NoneYet(g, ChunkSets(g, rem), s, i + 1)
    ensures i < |ChunkSets(g, rem)|
  {
    var cs := ChunkSets(g, rem);
    AllChunks(g, rem);
    assert s.transactions * PrefixSet(cs, |cs|) == s.transactions;
    GainSelf(s.feerate, s.feerate);
  }
}
