// Why post-linearizing after a transaction has moved to the end is no worse than not moving it
// (PostLinearize of src/cluster_linearize.h).
module MovedLeaves {
  import opened FeeFracs
  import opened DepGraphs
  import opened Diagrams
  import opened Linearizations
  import opened Groups
  import opened Passes
  import opened GroupLists
  import opened GroupPasses
  import opened Sequences

  ghost function InsertAt<T>(s: seq<T>, t: nat, x: T): seq<T>
    requires t <= |s|
  {
    s[..t] + [x] + s[t..]
  }

  /** `x` is unrelated to every transaction in the groups. */
  ghost predicate Apart(h: Graph, x: nat, gs: seq<seq<nat>>) {
    forall k, e :: 0 <= k < |gs| && e in gs[k] ==> x !in h.Anc(e) && e !in h.Anc(x)
  }

  // ----- the list operations on both sides of the inserted group

  lemma {:induction false} InsertElems<T>(s: seq<T>, t: nat, x: T)
    requires t <= |s|
    ensures |InsertAt(s, t, x)| == |s| + 1
    ensures forall j {:trigger InsertAt(s, t, x)[j]} :: 0 <= j <= |s| ==>
                InsertAt(s, t, x)[j] == if j < t then s[j] else if j == t then x else s[j - 1]
  {
  }

  lemma {:induction false} SameElems<T>(l: seq<T>, r: seq<T>)
    requires |l| == |r| && forall k :: 0 <= k < |l| ==> l[k] == r[k]
    ensures l == r
  {
  }

  lemma {:induction false} MergeBefore(fs: seq<seq<nat>>, c: nat, t: nat, g: seq<nat>)
    requires 0 < c < t <= |fs|
    ensures MergeAt(InsertAt(fs, t, g), c) == InsertAt(MergeAt(fs, c), t - 1, g)
  {
    InsertElems(fs, t, g);
    InsertElems(MergeAt(fs, c), t - 1, g);
    MergeElems(InsertAt(fs, t, g), c);
    MergeElems(fs, c);
    hide InsertAt, MergeAt;
    SameElems(MergeAt(InsertAt(fs, t, g), c), InsertAt(MergeAt(fs, c), t - 1, g));
  }

  lemma {:induction false} SwapBefore(fs: seq<seq<nat>>, c: nat, t: nat, g: seq<nat>)
    requires 0 < c < t <= |fs|
    ensures SwapAt(InsertAt(fs, t, g), c) == InsertAt(SwapAt(fs, c), t, g)
  {
    InsertElems(fs, t, g);
    InsertElems(SwapAt(fs, c), t, g);
    SwapElems(InsertAt(fs, t, g), c);
    SwapElems(fs, c);
    hide InsertAt, SwapAt;
    SameElems(SwapAt(InsertAt(fs, t, g), c), InsertAt(SwapAt(fs, c), t, g));
  }

  lemma {:induction false} MergeBehind(fs: seq<seq<nat>>, c: nat, t: nat, g: seq<nat>)
    requires t < c < |fs|
    ensures MergeAt(InsertAt(fs, t, g), c + 1) == InsertAt(MergeAt(fs, c), t, g)
  {
    InsertElems(fs, t, g);
    InsertElems(MergeAt(fs, c), t, g);
    MergeElems(InsertAt(fs, t, g), c + 1);
    MergeElems(fs, c);
    hide InsertAt, MergeAt;
    SameElems(MergeAt(InsertAt(fs, t, g), c + 1), InsertAt(MergeAt(fs, c), t, g));
  }

  lemma {:induction false} SwapBehind(fs: seq<seq<nat>>, c: nat, t: nat, g: seq<nat>)
    requires t < c < |fs|
    ensures SwapAt(InsertAt(fs, t, g), c + 1) == InsertAt(SwapAt(fs, c), t, g)
  {
    InsertElems(fs, t, g);
    InsertElems(SwapAt(fs, c), t, g);
    SwapElems(InsertAt(fs, t, g), c + 1);
    SwapElems(fs, c);
    hide InsertAt, SwapAt;
    SameElems(SwapAt(InsertAt(fs, t, g), c + 1), InsertAt(SwapAt(fs, c), t, g));
  }

  lemma {:induction false} SwapPast(fs: seq<seq<nat>>, c: nat, g: seq<nat>)
    requires c < |fs|
    ensures SwapAt(InsertAt(fs, c, g), c + 1) == InsertAt(fs, c + 1, g)
  {
    InsertElems(fs, c, g);
    InsertElems(fs, c + 1, g);
    SwapElems(InsertAt(fs, c, g), c + 1);
    hide InsertAt, SwapAt;
    SameElems(SwapAt(InsertAt(fs, c, g), c + 1), InsertAt(fs, c + 1, g));
  }

  lemma {:induction false} ApartMerge(h: Graph, x: nat, fs: seq<seq<nat>>, c: nat)
    requires Apart(h, x, fs) && 0 < c < |fs|
    ensures Apart(h, x, MergeAt(fs, c)) && Apart(h, x, SwapAt(fs, c))
  {
  }

  // ----- a cycle with the unrelated group in the list

  /** Where the current group `c` of the list without `x` stands in the list with it. */
  ghost function Position(c: nat, t: nat): nat {
    if t <= c then c + 1 else c
  }

  ghost predicate Beside(h: Graph, alt: seq<nat>, fs: seq<seq<nat>>, c: nat, x: nat, t: nat) {
    && h.PositiveSizes() && c < |fs| && t <= |fs| && Apart(h, x, fs)
    && Sound(h, alt, InsertAt(fs, t, [x])) && OrderedBut(h, InsertAt(fs, t, [x]), Position(c, t))
  }

  /** The cycle ends with the same list, up to the group `[x]`, as it does without that group. */
  ghost predicate Follows(h: Graph, fs: seq<seq<nat>>, c: nat, x: nat, t: nat) {
    && c < |fs| && t <= |fs|
    && var done := Finish(h, fs, c);
       exists u :: 0 <= u <= |done| && Finish(h, InsertAt(fs, t, [x]), Position(c, t)) == InsertAt(done, u, [x])
  }

  /** A cycle does the same with the unrelated group in the list as without it. */
  lemma {:induction false} FinishBeside(h: Graph, alt: seq<nat>, fs: seq<seq<nat>>, c: nat, x: nat, t: nat)
    requires Beside(h, alt, fs, c, x, t)
    ensures Follows(h, fs, c, x, t)
    decreases Position(c, t)
  {
    BesideBounds(h, alt, fs, c, x, t);
    hide Beside, Follows, GroupRate, Gain, DependsOn, MergeAt, SwapAt;
    if t == c && Higher(GroupRate(h, fs[c]), GroupRate(h, [x])) {
      PastStep(h, alt, fs, c, x);
      FinishBeside(h, alt, fs, c, x, c + 1);
      PastFollows(h, fs, c, x);
    } else if t == c {
      StopsToo(h, alt, fs, c, x);
      StopFollows(h, fs, c, x, t);
    } else if c == 0 || !Higher(GroupRate(h, fs[c]), GroupRate(h, fs[c - 1])) {
      StopFollows(h, fs, c, x, t);
    } else if DependsOn(h, fs[c - 1], fs[c]) {
      MergeStep(h, alt, fs, c, x, t);
      FinishBeside(h, alt, MergeAt(fs, c), c - 1, x, if t < c then t else t - 1);
      MergeFollows(h, fs, c, x, t);
    } else {
      SwapStep(h, alt, fs, c, x, t);
      FinishBeside(h, alt, SwapAt(fs, c), c - 1, x, t);
      SwapFollows(h, fs, c, x, t);
    }
  }

  lemma BesideBounds(h: Graph, alt: seq<nat>, fs: seq<seq<nat>>, c: nat, x: nat, t: nat)
    requires Beside(h, alt, fs, c, x, t)
    ensures c < |fs| && t <= |fs|
  {
  }

  lemma {:induction false} StopFollows(h: Graph, fs: seq<seq<nat>>, c: nat, x: nat, t: nat)
    requires c < |fs| && t <= |fs| && (c == 0 || !Higher(GroupRate(h, fs[c]), GroupRate(h, fs[c - 1])))
    requires t == c ==> !Higher(GroupRate(h, fs[c]), GroupRate(h, [x]))
    ensures Follows(h, fs, c, x, t)
  {
    SameNeighbours(fs, c, x, t);
    hide Finish, InsertAt, GroupRate, Gain;
    FinishStops(h, fs, c);
    FinishStops(h, InsertAt(fs, t, [x]), Position(c, t));
  }

  lemma {:induction false} PastFollows(h: Graph, fs: seq<seq<nat>>, c: nat, x: nat)
    requires Follows(h, fs, c, x, c + 1) && Higher(GroupRate(h, fs[c]), GroupRate(h, [x])) && !DependsOn(h, [x], fs[c])
    ensures Follows(h, fs, c, x, c)
  {
    SameNeighbours(fs, c, x, c);
    SwapPast(fs, c, [x]);
    hide Finish, InsertAt, GroupRate, Gain, DependsOn, SwapAt;
    FinishMoves(h, InsertAt(fs, c, [x]), c + 1);
  }

  lemma {:induction false} MergeFollows(h: Graph, fs: seq<seq<nat>>, c: nat, x: nat, t: nat)
    requires 0 < c < |fs| && t <= |fs| && t != c
    requires Higher(GroupRate(h, fs[c]), GroupRate(h, fs[c - 1])) && DependsOn(h, fs[c - 1], fs[c])
    requires Follows(h, MergeAt(fs, c), c - 1, x, if t < c then t else t - 1)
    ensures Follows(h, fs, c, x, t)
  {
    SameNeighbours(fs, c, x, t);
    if t < c {
      MergeBehind(fs, c, t, [x]);
    } else {
      MergeBefore(fs, c, t, [x]);
    }
    hide Finish, InsertAt, GroupRate, Gain, DependsOn, MergeAt;
    FinishMoves(h, fs, c);
    FinishMoves(h, InsertAt(fs, t, [x]), Position(c, t));
  }

  lemma {:induction false} SwapFollows(h: Graph, fs: seq<seq<nat>>, c: nat, x: nat, t: nat)
    requires 0 < c < |fs| && t <= |fs| && t != c
    requires Higher(GroupRate(h, fs[c]), GroupRate(h, fs[c - 1])) && !DependsOn(h, fs[c - 1], fs[c])
    requires Follows(h, SwapAt(fs, c), c - 1, x, t)
    ensures Follows(h, fs, c, x, t)
  {
    SameNeighbours(fs, c, x, t);
    if t < c {
      SwapBehind(fs, c, t, [x]);
    } else {
      SwapBefore(fs, c, t, [x]);
    }
    hide Finish, InsertAt, GroupRate, Gain, DependsOn, SwapAt;
    FinishMoves(h, fs, c);
    FinishMoves(h, InsertAt(fs, t, [x]), Position(c, t));
  }

  lemma {:induction false} SameNeighbours(fs: seq<seq<nat>>, c: nat, x: nat, t: nat)
    requires c < |fs| && t <= |fs|
    ensures var gs, d := InsertAt(fs, t, [x]), Position(c, t);
            && d < |gs| == |fs| + 1 && gs[d] == fs[c] && (d > 0 ==>
                gs[d - 1] == if t == c then [x] else fs[c - 1]) && (d == 0 <==> c == 0 && t > 0)
  {
  }

  lemma {:induction false} PastStep(h: Graph, alt: seq<nat>, fs: seq<seq<nat>>, c: nat, x: nat)
    requires Beside(h, alt, fs, c, x, c)
    requires Higher(GroupRate(h, fs[c]), GroupRate(h, [x]))
    ensures Beside(h, alt, fs, c, x, c + 1) && !DependsOn(h, [x], fs[c])
    ensures SwapAt(InsertAt(fs, c, [x]), c + 1) == InsertAt(fs, c + 1, [x])
  {
    var gs := InsertAt(fs, c, [x]);
    SwapPast(fs, c, [x]);
    assert gs[c + 1] == fs[c] && gs[c] == [x];
    hide Gain, GroupRate, Sound, SwapAt;
    SoundSwap(h, alt, gs, c + 1);
    OrderedSwap(h, gs, c + 1);
  }

  lemma {:induction false} StopsToo(h: Graph, alt: seq<nat>, fs: seq<seq<nat>>, c: nat, x: nat)
    requires Beside(h, alt, fs, c, x, c)
    requires !Higher(GroupRate(h, fs[c]), GroupRate(h, [x]))
    ensures c == 0 || !Higher(GroupRate(h, fs[c]), GroupRate(h, fs[c - 1]))
  {
    if c > 0 {
      var gs := InsertAt(fs, c, [x]);
      assert gs[c - 1] == fs[c - 1] && gs[c] == [x] && gs[c + 1] == fs[c];
      assert GoodGroup(h, gs[c]);
      GroupPositive(h, [x]);
      hide Gain, GroupRate;
      GainTransitive(GroupRate(h, fs[c]), GroupRate(h, [x]), GroupRate(h, fs[c - 1]));
    }
  }

  lemma {:induction false} MergeStep(h: Graph, alt: seq<nat>, fs: seq<seq<nat>>, c: nat, x: nat, t: nat)
    requires Beside(h, alt, fs, c, x, t) && t != c && c > 0
    requires Higher(GroupRate(h, fs[c]), GroupRate(h, fs[c - 1])) && DependsOn(h, fs[c - 1], fs[c])
    ensures var u := if t < c then t else t - 1;
            && Beside(h, alt, MergeAt(fs, c), c - 1, x, u) && Position(c - 1, u) == Position(c, t) - 1
            && MergeAt(InsertAt(fs, t, [x]), Position(c, t)) == InsertAt(MergeAt(fs, c), u, [x])
  {
    var gs, d := InsertAt(fs, t, [x]), Position(c, t);
    if t < c {
      MergeBehind(fs, c, t, [x]);
    } else {
      MergeBefore(fs, c, t, [x]);
    }
    ApartMerge(h, x, fs, c);
    assert gs[d] == fs[c] && gs[d - 1] == fs[c - 1];
    SoundGood(h, alt, gs);
    hide Gain, GroupRate, Sound, Apart;
    SoundMerge(h, alt, gs, d);
    OrderedMerge(h, gs, d);
  }

  lemma {:induction false} SwapStep(h: Graph, alt: seq<nat>, fs: seq<seq<nat>>, c: nat, x: nat, t: nat)
    requires Beside(h, alt, fs, c, x, t) && t != c && c > 0
    requires Higher(GroupRate(h, fs[c]), GroupRate(h, fs[c - 1])) && !DependsOn(h, fs[c - 1], fs[c])
    ensures Beside(h, alt, SwapAt(fs, c), c - 1, x, t) && Position(c - 1, t) == Position(c, t) - 1
    ensures SwapAt(InsertAt(fs, t, [x]), Position(c, t)) == InsertAt(SwapAt(fs, c), t, [x])
  {
    var gs, d := InsertAt(fs, t, [x]), Position(c, t);
    if t < c {
      SwapBehind(fs, c, t, [x]);
    } else {
      SwapBefore(fs, c, t, [x]);
    }
    ApartMerge(h, x, fs, c);
    assert gs[d] == fs[c] && gs[d - 1] == fs[c - 1];
    hide Gain, GroupRate, Sound, Apart;
    SoundSwap(h, alt, gs, d);
    OrderedSwap(h, gs, d);
  }

  // ----- a whole pass

  ghost predicate ApartFrom(h: Graph, x: nat, bs: seq<nat>) {
    forall b :: b in bs ==> x !in h.Anc(b) && b !in h.Anc(x)
  }

  lemma {:induction false} ApartGroups(h: Graph, x: nat, bs: seq<nat>, fs: seq<seq<nat>>, y: nat)
    requires ApartFrom(h, x, bs + [y]) && Elems(Flatten(fs)) == Elems(bs)
    ensures Apart(h, x, fs + [[y]])
  {
    forall k, e | 0 <= k < |fs + [[y]]| && e in (fs + [[y]])[k]
      ensures x !in h.Anc(e) && e !in h.Anc(x)
    {
      if k < |fs| {
        InFlatten(fs, k, e);
        assert e in Elems(Flatten(fs)) && e in Elems(bs) && e in bs + [y];
      } else {
        assert e in bs + [y];
      }
    }
  }

  ghost predicate Inserted(gs: seq<seq<nat>>, fs: seq<seq<nat>>, x: nat) {
    exists t :: 0 <= t <= |fs| && gs == InsertAt(fs, t, [x])
  }

  /** A pass that starts with an unrelated transaction makes the same groups as without it, and one more. */
  lemma {:induction false} GroupsInserted(h: Graph, x: nat, bs: seq<nat>)
    requires h.PositiveSizes() && InOrder(h, [x] + bs) && InOrder(h, bs) && ApartFrom(h, x, bs)
    ensures Inserted(GroupsOf(h, [x] + bs), GroupsOf(h, bs), x)
    decreases |bs|
  {
    if bs == [] {
      assert [x] + bs == [x] && [x][..0] == [];
      assert GroupsOf(h, [x]) == [[x]] == InsertAt(GroupsOf(h, []), 0, [x]);
    } else {
      var cs, y := bs[..|bs| - 1], bs[|bs| - 1];
      assert bs == cs + [y] && [x] + bs == ([x] + cs) + [y];
      hide GroupsOf, Distinct, Topological, Inserted;
      InOrderParts(h, [x] + cs, [y]);
      InOrderParts(h, cs, [y]);
      GroupsInserted(h, x, cs);
      GroupsOfNext(h, [x] + cs, y);
      GroupsOfNext(h, cs, y);
      InsertNext(h, x, cs, y);
    }
  }

  lemma {:induction false} InsertNext(h: Graph, x: nat, cs: seq<nat>, y: nat)
    requires h.PositiveSizes() && InOrder(h, ([x] + cs) + [y]) && InOrder(h, cs + [y]) && ApartFrom(h, x, cs + [y])
    requires Inserted(GroupsOf(h, [x] + cs), GroupsOf(h, cs), x)
    ensures Inserted(GroupsOf(h, ([x] + cs) + [y]), GroupsOf(h, cs + [y]), x)
  {
    hide GroupsOf, Finish, Sound, OrderedBut, InsertAt, Apart, Distinct, Topological, Elems, ApartFrom;
    var gs, fs := GroupsOf(h, [x] + cs), GroupsOf(h, cs);
    var t :| 0 <= t <= |fs| && gs == InsertAt(fs, t, [x]);
    NextFacts(h, x, cs, y);
    GroupsOfNext(h, [x] + cs, y);
    GroupsOfNext(h, cs, y);
    InsertAppend(fs, t, [x], [y]);
    FinishBeside(h, ([x] + cs) + [y], fs + [[y]], |fs|, x, t);
  }

  lemma {:induction false} InsertAppend<T>(s: seq<T>, t: nat, x: T, y: T)
    requires t <= |s|
    ensures |InsertAt(s, t, x)| == |s| + 1 && InsertAt(s, t, x) + [y] == InsertAt(s + [y], t, x)
  {
  }

  lemma {:induction false} NextFacts(h: Graph, x: nat, cs: seq<nat>, y: nat)
    requires h.PositiveSizes() && InOrder(h, ([x] + cs) + [y]) && InOrder(h, cs + [y]) && ApartFrom(h, x, cs + [y])
    ensures var gs, fs := GroupsOf(h, [x] + cs), GroupsOf(h, cs);
            && Apart(h, x, fs + [[y]]) && OrderedBut(h, gs + [[y]], |gs|) && Sound(h, ([x] + cs) + [y], gs + [[y]])
  {
    InOrderParts(h, [x] + cs, [y]);
    InOrderParts(h, cs, [y]);
    assert y in Elems([y]) && y in Elems(([x] + cs) + [y]);
    assert y !in [x] + cs by { assert y !in Elems([x] + cs); }
    hide GroupsOf, Distinct, Topological, OrderedBut, Apart;
    GroupsSound(h, cs);
    GroupsSound(h, [x] + cs);
    ApartGroups(h, x, cs, GroupsOf(h, cs), y);
    AppendSound(h, [x] + cs, GroupsOf(h, [x] + cs), y);
  }

  // ----- the moved transaction is no worse off

  /** In a list of non-increasing feerates, an entry could as well have been last. */
  lemma {:induction false} InsertPeak(cs: seq<FeeFrac>, t: nat, f: FeeFrac, r: FeeFrac)
    requires t <= |cs| && f.size > 0 && NonIncreasing(InsertAt(cs, t, f))
    ensures Peak(InsertAt(cs, t, f), r) >= Peak(cs + [f], r)
  {
    var all := InsertAt(cs, t, f);
    if t == |cs| {
      assert all == cs + [f];
    } else if t > 0 {
      assert all[1..] == InsertAt(cs[1..], t - 1, f);
      assert (cs + [f])[1..] == cs[1..] + [f];
      InsertPeak(cs[1..], t - 1, f, r);
    } else {
      assert all == [f] + cs;
      FirstCould(cs, f, r);
    }
  }

  lemma {:induction false} FirstCould(cs: seq<FeeFrac>, f: FeeFrac, r: FeeFrac)
    requires f.size > 0 && NonIncreasing([f] + cs)
    ensures Peak([f] + cs, r) >= Peak(cs + [f], r)
  {
    var all := [f] + cs;
    assert all[1..] == cs;
    PeakConcat(cs, [f], r);
    PeakNonNegative(cs, r);
    PeakBound(cs, |cs|, r);
    assert cs[..|cs|] == cs;
    if Gain(f, r) <= 0 {
      forall i | 0 <= i < |cs|
        ensures !Higher(cs[i], r)
      {
        assert !Higher(all[i + 1], all[0]);
        GainTransitive(cs[i], f, r);
      }
      PeakOfWorse(cs, r);
    }
  }

  lemma {:induction false} InsertedRates(h: Graph, fs: seq<seq<nat>>, t: nat, x: nat)
    requires t <= |fs|
    ensures |GroupRates(h, fs)| == |fs|
    ensures GroupRates(h, InsertAt(fs, t, [x])) == InsertAt(GroupRates(h, fs), t, GroupRate(h, [x]))
  {
    InsertElems(fs, t, [x]);
    InsertElems(GroupRates(h, fs), t, GroupRate(h, [x]));
    hide InsertAt, GroupRate;
  }

  lemma {:induction false} MovedPeak(h: Graph, x: nat, bs: seq<nat>, r: FeeFrac)
    requires h.PositiveSizes() && r.size > 0 && x in h.used
    requires Sound(h, bs, GroupsOf(h, bs)) && GoodGroups(h, GroupsOf(h, [x] + bs))
             && NonIncreasing(GroupRates(h, GroupsOf(h, [x] + bs)))
    requires Inserted(GroupsOf(h, [x] + bs), GroupsOf(h, bs), x)
    ensures Peak(Rates(h, Flatten(GroupsOf(h, [x] + bs))), r) >= Peak(Rates(h, bs + [x]), r)
  {
    hide GroupsOf, InsertAt, Rates, GroupRates, GroupRate, Peak, Gain, Sound, Flatten, Distinct, Topological;
    var gs, fs := GroupsOf(h, [x] + bs), GroupsOf(h, bs);
    var t :| 0 <= t <= |fs| && gs == InsertAt(fs, t, [x]);
    var f := h.Rate(x);
    SingleGroupRate(h, x);
    LastBelow(h, bs, fs, x, r);
    PeakOfGroups(h, gs, r);
    InsertedRates(h, fs, t, x);
    InsertPeak(GroupRates(h, fs), t, f, r);
  }

  lemma {:induction false} LastBelow(h: Graph, bs: seq<nat>, fs: seq<seq<nat>>, x: nat, r: FeeFrac)
    requires h.PositiveSizes() && r.size > 0 && Sound(h, bs, fs)
    ensures Peak(GroupRates(h, fs) + [h.Rate(x)], r) >= Peak(Rates(h, bs + [x]), r)
  {
    var f := h.Rate(x);
    assert Rates(h, [x]) == [f];
    assert Peak(Rates(h, Flatten(fs)), r) >= Peak(Rates(h, bs), r);
    hide Rates, GroupRates, Peak, Gain, Flatten, Distinct, Topological;
    TotalRates(h, bs);
    TotalRates(h, Flatten(fs));
    RatesConcat(h, bs, [x]);
    PeakOfGroups(h, fs, r);
    PeakConcat(GroupRates(h, fs), [f], r);
    PeakConcat(Rates(h, bs), [f], r);
  }

  /** A pass over `x`, `bs`, `rest` is as good as `bs`, `x`, `rest`. */
  lemma {:induction false} MovedPass(h: Graph, x: nat, bs: seq<nat>, rest: seq<nat>)
    requires h.PositiveSizes() && IsLin(h, [x] + bs + rest, h.used) && IsLin(h, bs + [x] + rest, h.used)
    ensures Sound(h, bs + [x] + rest, GroupsOf(h, [x] + bs + rest))
  {
    hide GroupsOf, Dominates;
    InOrderParts(h, [x] + bs, rest);
    InOrderParts(h, [x], bs);
    InOrderParts(h, bs + [x], rest);
    InOrderParts(h, bs, [x]);
    assert x in [x];
    GroupsSound(h, bs);
    GroupsSound(h, [x] + bs);
    GroupsInserted(h, x, bs);
    MovedSound(h, x, bs);
    RestSound(h, bs + [x], [x] + bs, rest);
  }

  lemma {:induction false} MovedSound(h: Graph, x: nat, bs: seq<nat>)
    requires h.PositiveSizes() && x in h.used && Distinct(bs + [x])
    requires Sound(h, bs, GroupsOf(h, bs)) && Sound(h, [x] + bs, GroupsOf(h, [x] + bs))
             && NonIncreasing(GroupRates(h, GroupsOf(h, [x] + bs)))
    requires Inserted(GroupsOf(h, [x] + bs), GroupsOf(h, bs), x)
    ensures Sound(h, bs + [x], GroupsOf(h, [x] + bs))
  {
    var gs := GroupsOf(h, [x] + bs);
    ElemsConcat(bs, [x]);
    ElemsConcat([x], bs);
    hide GroupsOf, Inserted, Peak;
    forall r: FeeFrac | r.size > 0
      ensures Peak(Rates(h, Flatten(gs)), r) >= Peak(Rates(h, bs + [x]), r)
    {
      MovedPeak(h, x, bs, r);
    }
  }
}
