// Why a post-linearization pass is optimal on trees (PostLinearize of src/cluster_linearize.h).
module Trees {
  import opened FeeFracs
  import opened DepGraphs
  import opened Diagrams
  import opened Linearizations
  import opened Groups
  import opened Passes
  import opened Gathering
  import opened GroupLists
  import opened GroupPasses
  import opened Sequences

  // ----- tight sets: no closed part is better than the whole

  ghost predicate Tight(h: Graph, s: set<nat>) {
    forall t {:trigger Closed(h, s, t)} :: Closed(h, s, t) ==> Gain(SetRate(h, t), SetRate(h, s)) <= 0
  }

  /** Closed parts of `s` without `x` are no better than `r`. */
  ghost predicate NoneAbove(h: Graph, s: set<nat>, x: nat, r: FeeFrac) {
    forall t {:trigger Closed(h, s, t)} :: Closed(h, s, t) && x !in t ==> Gain(SetRate(h, t), r) <= 0
  }

  /** Every member of `s` is an ancestor of `b`. */
  ghost predicate Rooted(h: Graph, s: set<nat>, b: nat) {
    b in s && s <= h.Anc(b)
  }

  ghost predicate TightGroup(h: Graph, s: set<nat>) {
    Tight(h, s) && exists b :: Rooted(h, s, b)
  }

  /** The shape a pass handles optimally: descendants of the same transaction are related. */
  ghost predicate Treelike(h: Graph) {
    && (forall p, a, b :: a in h.used && b in h.used && p in h.Anc(a) && p in h.Anc(b) ==>
        a in h.Anc(b) || b in h.Anc(a))
    && (forall p, a, b :: a in h.used && b in h.used && p in h.Anc(a) && a in h.Anc(b) ==> p in h.Anc(b))
  }

  lemma ClosedParts(h: Graph, p: set<nat>, q: set<nat>, t: set<nat>)
    requires p !! q && Closed(h, p + q, t)
    ensures Closed(h, p, t * p) && Closed(h, q, t * q) && t * p !! t * q && t == t * p + t * q
    ensures SetRate(h, t) == Plus(SetRate(h, t * p), SetRate(h, t * q))
  {
    assert t == t * p + t * q;
    hide SetRate, Closed;
    ClosedPart(h, p, p + q, t);
    ClosedPart(h, q, p + q, t);
    SetRateUnion(h, t * p, t * q);
  }

  lemma ClosedPart(h: Graph, p: set<nat>, all: set<nat>, t: set<nat>)
    requires p <= all && Closed(h, all, t)
    ensures Closed(h, p, t * p)
  {
    forall i | i in t * p
      ensures h.Anc(i) * p <= t * p
    {
      assert h.Anc(i) * all <= t;
    }
  }

  /** Merging `p` into `q`, seen from a feerate no lower than that of `p`. */
  lemma MergedBelow(h: Graph, p: set<nat>, q: set<nat>, x: nat, r: FeeFrac)
    requires p !! q && Tight(h, p) && NoneAbove(h, q, x, r)
    requires SetRate(h, p).size > 0 && Gain(SetRate(h, p), r) <= 0 && r.size > 0
    ensures NoneAbove(h, p + q, x, r)
  {
    forall t | Closed(h, p + q, t) && x !in t
      ensures Gain(SetRate(h, t), r) <= 0
    {
      ClosedParts(h, p, q, t);
      hide Gain, SetRate, Closed;
      GainTransitive(SetRate(h, t * p), SetRate(h, p), r);
      GainPlus(SetRate(h, t * p), SetRate(h, t * q), r);
    }
  }

  lemma RootTight(h: Graph, s: set<nat>, x: nat)
    requires Rooted(h, s, x) && NoneAbove(h, s, x, SetRate(h, s))
    ensures Tight(h, s)
  {
    forall t | Closed(h, s, t)
      ensures Gain(SetRate(h, t), SetRate(h, s)) <= 0
    {
      if x in t {
        assert h.Anc(x) * s <= t;
        assert t == s;
        GainSelf(SetRate(h, s), SetRate(h, s));
      }
    }
  }

  lemma NoneAboveMono(h: Graph, s: set<nat>, x: nat, r: FeeFrac, r': FeeFrac)
    requires NoneAbove(h, s, x, r) && r.size > 0 && r'.size > 0 && Gain(r, r') <= 0
    ensures NoneAbove(h, s, x, r')
  {
    forall t | Closed(h, s, t) && x !in t
      ensures Gain(SetRate(h, t), r') <= 0
    {
      hide Gain, SetRate, Closed;
      GainTransitive(SetRate(h, t), r, r');
    }
  }

  // ----- what a cycle keeps

  ghost predicate Current(h: Graph, gs: seq<seq<nat>>, c: nat, x: nat)
    requires c < |gs|
  {
    && Rooted(h, Elems(gs[c]), x) && Tight(h, Elems(gs[c]))
    && forall k :: 0 <= k < c ==> NoneAbove(h, Elems(gs[c]), x, SetRate(h, Elems(gs[k])))
  }

  /** All groups but the one at `c`, which holds the new transaction `x`, are tight and have a root. */
  ghost predicate TightBut(h: Graph, gs: seq<seq<nat>>, c: nat, x: nat) {
    && c < |gs| && Current(h, gs, c, x)
    && forall k {:trigger gs[k]} :: 0 <= k < |gs| && k != c ==> TightGroup(h, Elems(gs[k]))
  }

  ghost predicate AllTight(h: Graph, gs: seq<seq<nat>>) {
    forall k {:trigger gs[k]} :: 0 <= k < |gs| ==> TightGroup(h, Elems(gs[k]))
  }

  lemma {:induction false} GroupFacts(h: Graph, alt: seq<nat>, gs: seq<seq<nat>>, k: nat)
    requires h.PositiveSizes() && Sound(h, alt, gs) && k < |gs|
    ensures Elems(gs[k]) <= h.used && Elems(gs[k]) != {} && SetRate(h, Elems(gs[k])).size > 0
    ensures GroupRate(h, gs[k]) == SetRate(h, Elems(gs[k]))
  {
    GroupsDisjoint(gs, k, k);
    assert GoodGroup(h, gs[k]);
    assert gs[k][0] in Elems(gs[k]);
    hide SetRate;
    TotalRates(h, gs[k]);
    SetRatePositive(h, Elems(gs[k]));
  }

  /** Nothing in a later group is an ancestor of anything in an earlier one. */
  lemma {:induction false} LaterGroup(h: Graph, gs: seq<seq<nat>>, c: nat, a: nat, b: nat)
    requires 0 < c < |gs| && Topological(h, Flatten(gs)) && a in gs[c - 1] && b in gs[c]
    ensures b !in h.Anc(a)
  {
    SplitAt(gs, c);
    hide Flatten;
    var x, m, y := Flatten(gs[..c - 1]), gs[c - 1] + gs[c], Flatten(gs[c + 1..]);
    TopologicalConcat(h, x + m, y);
    TopologicalConcat(h, x, m);
    TopologicalConcat(h, gs[c - 1], gs[c]);
  }

  /** The whole previous group consists of ancestors of the new transaction, if one member is. */
  lemma {:induction false} RootMerged(h: Graph, p: set<nat>, q: set<nat>, b: nat, x: nat, a: nat, d: nat)
    requires Treelike(h) && p <= h.used && q <= h.used && Rooted(h, p, b) && Rooted(h, q, x)
    requires a in p && d in q && a in h.Anc(d) && x !in h.Anc(b)
    ensures Rooted(h, p + q, x)
  {
    assert a in h.Anc(x);
    assert b in h.Anc(x);
  }

  lemma {:induction false} MergedRates(h: Graph, p: set<nat>, q: set<nat>, x: nat)
    requires p !! q && Tight(h, p) && NoneAbove(h, q, x, SetRate(h, p)) && Rooted(h, p + q, x)
    requires SetRate(h, p).size > 0 && SetRate(h, q).size > 0 && Higher(SetRate(h, q), SetRate(h, p))
    ensures Tight(h, p + q)
  {
    var rp, rq, r := SetRate(h, p), SetRate(h, q), SetRate(h, p + q);
    SetRateUnion(h, p, q);
    GainSelf(rp, rp);
    MergedBelow(h, p, q, x, rp);
    GainPlus(rp, rq, rp);
    GainSelf(rp, r);
    hide SetRate, Gain;
    NoneAboveMono(h, p + q, x, rp, r);
    RootTight(h, p + q, x);
  }

  lemma {:induction false} MergedCurrent(h: Graph, alt: seq<nat>, gs: seq<seq<nat>>, c: nat, x: nat)
    requires h.PositiveSizes() && Treelike(h) && Sound(h, alt, gs) && TightBut(h, gs, c, x) && c > 0
    requires Higher(GroupRate(h, gs[c]), GroupRate(h, gs[c - 1])) && DependsOn(h, gs[c - 1], gs[c])
    ensures Rooted(h, Elems(gs[c - 1]) + Elems(gs[c]), x) && Tight(h, Elems(gs[c - 1]) + Elems(gs[c]))
  {
    hide Flatten, GoodGroups, Dominates, Tight, NoneAbove, SetRate, Gain, GroupRate, Distinct, Topological, Treelike;
    var p, q := Elems(gs[c - 1]), Elems(gs[c]);
    assert TightGroup(h, p);
    var b :| Rooted(h, p, b);
    var a, d :| a in gs[c - 1] && d in gs[c] && a in h.Anc(d);
    assert a in p && d in q && b in gs[c - 1] && x in gs[c];
    GroupFacts(h, alt, gs, c - 1);
    GroupFacts(h, alt, gs, c);
    GroupsDisjoint(gs, c - 1, c);
    LaterGroup(h, gs, c, b, x);
    RootMerged(h, p, q, b, x, a, d);
    MergedRates(h, p, q, x);
  }

  lemma {:induction false} MergedAbove(h: Graph, alt: seq<nat>, gs: seq<seq<nat>>, c: nat, x: nat, k: nat)
    requires h.PositiveSizes() && Sound(h, alt, gs) && OrderedBut(h, gs, c) && TightBut(h, gs, c, x) && k < c - 1
    ensures NoneAbove(h, Elems(gs[c - 1]) + Elems(gs[c]), x, SetRate(h, Elems(gs[k])))
  {
    var p, q := Elems(gs[c - 1]), Elems(gs[c]);
    assert TightGroup(h, p);
    GroupFacts(h, alt, gs, c - 1);
    GroupFacts(h, alt, gs, k);
    GroupsDisjoint(gs, c - 1, c);
    assert !Higher(GroupRate(h, gs[c - 1]), GroupRate(h, gs[k]));
    hide Sound, Tight, SetRate, GroupRate;
    MergedBelow(h, p, q, x, SetRate(h, Elems(gs[k])));
  }

  lemma {:induction false} TightMerge(h: Graph, alt: seq<nat>, gs: seq<seq<nat>>, c: nat, x: nat)
    requires h.PositiveSizes() && Treelike(h) && Sound(h, alt, gs) && OrderedBut(h, gs, c) && TightBut(h, gs, c, x)
             && c > 0
    requires Higher(GroupRate(h, gs[c]), GroupRate(h, gs[c - 1])) && DependsOn(h, gs[c - 1], gs[c])
    ensures TightBut(h, MergeAt(gs, c), c - 1, x)
  {
    MergedCurrent(h, alt, gs, c, x);
    ElemsConcat(gs[c - 1], gs[c]);
    forall k | 0 <= k < c - 1
      ensures NoneAbove(h, Elems(gs[c - 1]) + Elems(gs[c]), x, SetRate(h, Elems(gs[k])))
    {
      MergedAbove(h, alt, gs, c, x, k);
    }
    hide Sound, OrderedBut, Treelike, MergeAt, Tight, NoneAbove, Rooted, TightGroup, SetRate, GroupRate, DependsOn,
         Elems;
    MergeElems(gs, c);
    var ms := MergeAt(gs, c);
    forall k | 0 <= k < |ms|
      ensures ms[k] == if k < c - 1 then gs[k] else if k == c - 1 then gs[c - 1] + gs[c] else gs[k + 1]
    {
    }
  }

  lemma {:induction false} TightSwap(h: Graph, gs: seq<seq<nat>>, c: nat, x: nat)
    requires TightBut(h, gs, c, x) && c > 0
    ensures TightBut(h, SwapAt(gs, c), c - 1, x)
  {
    hide Tight, NoneAbove, Rooted, TightGroup, SetRate, Elems;
    var ss := SwapAt(gs, c);
    forall k | 0 <= k < |ss|
      ensures ss[k] == if k == c - 1 then gs[c] else if k == c then gs[c - 1] else gs[k]
    {
    }
  }

  lemma {:induction false} TightStart(h: Graph, gs: seq<seq<nat>>, x: nat)
    requires AllTight(h, gs) && x in h.Anc(x)
    ensures TightBut(h, gs + [[x]], |gs|, x)
  {
    assert Elems([x]) == {x};
    assert SetRate(h, {}) == EMPTY;
    forall r: FeeFrac
      ensures NoneAbove(h, {x}, x, r)
    {
      forall t | Closed(h, {x}, t) && x !in t
        ensures Gain(SetRate(h, t), r) <= 0
      {
        assert t == {};
        GainEmpty(r);
      }
    }
    RootTight(h, {x}, x);
    hide Tight, NoneAbove, TightGroup, SetRate, Elems;
  }

  lemma {:induction false} TightExit(h: Graph, gs: seq<seq<nat>>, c: nat, x: nat)
    requires TightBut(h, gs, c, x)
    ensures AllTight(h, gs)
  {
    hide Tight, Rooted, SetRate, Elems, NoneAbove;
    assert TightGroup(h, Elems(gs[c]));
  }

  /** On a tree, a cycle leaves every group tight. */
  lemma {:induction false} FinishTight(h: Graph, alt: seq<nat>, gs: seq<seq<nat>>, c: nat, x: nat)
    requires h.PositiveSizes() && Treelike(h) && Sound(h, alt, gs) && OrderedBut(h, gs, c) && TightBut(h, gs, c, x)
    ensures AllTight(h, Finish(h, gs, c))
    decreases c
  {
    hide Sound, Gain, GroupRate, MergeAt, SwapAt, TightBut, AllTight, Treelike;
    SoundGood(h, alt, gs);
    if c == 0 || !Higher(GroupRate(h, gs[c]), GroupRate(h, gs[c - 1])) {
      TightExit(h, gs, c, x);
    } else if DependsOn(h, gs[c - 1], gs[c]) {
      SoundMerge(h, alt, gs, c);
      OrderedMerge(h, gs, c);
      TightMerge(h, alt, gs, c, x);
      FinishTight(h, alt, MergeAt(gs, c), c - 1, x);
    } else {
      SoundSwap(h, alt, gs, c);
      OrderedSwap(h, gs, c);
      TightSwap(h, gs, c, x);
      FinishTight(h, alt, SwapAt(gs, c), c - 1, x);
    }
  }

  /** On a tree, a pass over any linearization ends with tight groups. */
  lemma {:induction false} GroupsTight(h: Graph, inp: seq<nat>, rest: seq<nat>)
    requires h.PositiveSizes() && Treelike(h) && IsLin(h, inp + rest, h.used) && forall x :: x in h.used ==>
                x in h.Anc(x)
    ensures Sound(h, inp, GroupsOf(h, inp)) && NonIncreasing(GroupRates(h, GroupsOf(h, inp)))
             && AllTight(h, GroupsOf(h, inp))
    decreases |inp|
  {
    if inp == [] {
      EmptySound(h);
    } else {
      var p, x := inp[..|inp| - 1], inp[|inp| - 1];
      assert inp == p + [x];
      assert inp + rest == p + ([x] + rest);
      hide Sound, IsLin, Topological, Finish, AllTight, Treelike, TightBut;
      GroupsTight(h, p, [x] + rest);
      NextOf(h, p, [x] + rest);
      var gs := GroupsOf(h, p);
      AppendSound(h, p, gs, x);
      TightStart(h, gs, x);
      FinishTight(h, p + [x], gs + [[x]], |gs|, x);
    }
  }

  // ----- tight groups in order of feerate are optimal

  /** A closed part of a tight set lies under the better of nothing and the whole. */
  lemma TightPart(h: Graph, s: set<nat>, t: set<nat>, r: FeeFrac)
    requires h.PositiveSizes() && s <= h.used && s != {} && Tight(h, s) && Closed(h, s, t) && r.size > 0
    ensures Gain(SetRate(h, t), r) <= Max(0, Gain(SetRate(h, s), r))
  {
    var w, a, b := SetRate(h, s), SetRate(h, t), SetRate(h, s - t);
    SetRateSplit(h, s, t);
    assert s * t == t;
    SetRatePositive(h, s);
    hide SetRate;
    GainPlus(a, b, w);
    GainPlus(a, b, r);
    GainSelf(w, r);
    GainSelf(b, w);
    GainSelf(b, r);
    hide Gain;
    if Gain(w, r) <= 0 {
      GainTransitive(a, w, r);
    } else {
      GainTransitive(r, w, b);
    }
  }

  ghost predicate ClosedInEach(h: Graph, gs: seq<seq<nat>>, s: set<nat>) {
    forall k {:trigger gs[k]} :: 0 <= k < |gs| ==> Closed(h, Elems(gs[k]), s * Elems(gs[k]))
  }

  /** No set that is closed within each group rises above the peak of the groups. */
  lemma {:induction false} UnderPeak(h: Graph, gs: seq<seq<nat>>, s: set<nat>, r: FeeFrac)
    requires h.PositiveSizes() && r.size > 0 && GoodGroups(h, gs) && AllTight(h, gs) && Distinct(Flatten(gs))
    requires NonIncreasing(GroupRates(h, gs)) && ClosedInEach(h, gs, s) && s <= Elems(Flatten(gs))
    ensures Gain(SetRate(h, s), r) <= Peak(GroupRates(h, gs), r)
  {
    if gs == [] {
      assert s == {};
      EmptyGain(h, r);
    } else {
      hide SetRate, Gain, AllTight, GoodGroups, Flatten, Distinct, NonIncreasing, ClosedInEach, GroupRates, GroupRate;
      var e0, rest := Elems(gs[0]), gs[1..];
      SetRateSplit(h, s, e0);
      FirstRest(h, gs, s);
      UnderPeak(h, rest, s - e0, r);
      FirstPart(h, gs, s, r);
      GainPlus(SetRate(h, s * e0), SetRate(h, s - e0), r);
    }
  }

  lemma {:induction false} FirstRest(h: Graph, gs: seq<seq<nat>>, s: set<nat>)
    requires gs != [] && GoodGroups(h, gs) && AllTight(h, gs) && Distinct(Flatten(gs))
    requires NonIncreasing(GroupRates(h, gs)) && ClosedInEach(h, gs, s) && s <= Elems(Flatten(gs))
    ensures GoodGroups(h, gs[1..]) && AllTight(h, gs[1..]) && Distinct(Flatten(gs[1..]))
             && NonIncreasing(GroupRates(h, gs[1..]))
    ensures ClosedInEach(h, gs[1..], s - Elems(gs[0])) && s - Elems(gs[0]) <= Elems(Flatten(gs[1..]))
  {
    var rest := gs[1..];
    ElemsConcat(gs[0], Flatten(rest));
    assert GroupRates(h, gs)[1..] == GroupRates(h, rest);
    hide GoodGroup, TightGroup, GroupRate, Closed;
    assert forall k :: 0 <= k < |rest| ==> rest[k] == gs[k + 1];
    forall k | 0 <= k < |rest|
      ensures Closed(h, Elems(rest[k]), (s - Elems(gs[0])) * Elems(rest[k]))
    {
      GroupsDisjoint(gs, 0, k + 1);
      assert (s - Elems(gs[0])) * Elems(rest[k]) == s * Elems(gs[k + 1]);
    }
  }

  lemma {:induction false} FirstPart(h: Graph, gs: seq<seq<nat>>, s: set<nat>, r: FeeFrac)
    requires h.PositiveSizes() && r.size > 0 && gs != [] && GoodGroups(h, gs) && AllTight(h, gs)
             && Distinct(Flatten(gs))
    requires NonIncreasing(GroupRates(h, gs)) && ClosedInEach(h, gs, s)
    ensures Gain(SetRate(h, s * Elems(gs[0])), r) + Peak(GroupRates(h, gs[1..]), r) <= Peak(GroupRates(h, gs), r)
  {
    var g0, rs := gs[0], GroupRates(h, gs);
    assert GoodGroup(h, g0) && g0[0] in Elems(g0);
    GroupsDisjoint(gs, 0, 0);
    TotalRates(h, g0);
    GroupPositive(h, g0);
    assert TightGroup(h, Elems(g0));
    assert Closed(h, Elems(g0), s * Elems(g0));
    assert rs[0] == GroupRate(h, g0) && rs[1..] == GroupRates(h, gs[1..]);
    hide SetRate, Tight, Closed, GroupRate, GroupRates, GoodGroups, Flatten, AllTight;
    TightPart(h, Elems(g0), s * Elems(g0), r);
    FirstPeak(rs, r);
  }

  lemma {:induction false} FirstPeak(rs: seq<FeeFrac>, r: FeeFrac)
    requires NonIncreasing(rs) && rs != [] && rs[0].size > 0
    ensures Max(0, Gain(rs[0], r)) + Peak(rs[1..], r) <= Peak(rs, r)
  {
    PeakNonNegative(rs[1..], r);
    if Gain(rs[0], r) <= 0 {
      forall i | 0 <= i < |rs[1..]|
        ensures !Higher(rs[1..][i], r)
      {
        assert !Higher(rs[i + 1], rs[0]);
        GainTransitive(rs[i + 1], rs[0], r);
      }
      PeakOfWorse(rs[1..], r);
    }
  }

  /** Tight groups in order of feerate: no linearization rises above them. */
  lemma {:induction false} TightOptimal(h: Graph, gs: seq<seq<nat>>, l: seq<nat>)
    requires h.PositiveSizes() && GoodGroups(h, gs) && AllTight(h, gs) && NonIncreasing(GroupRates(h, gs))
    requires IsLin(h, Flatten(gs), h.used) && IsLin(h, l, h.used)
    ensures Dominates(Rates(h, Flatten(gs)), Rates(h, l))
  {
    forall r: FeeFrac | r.size > 0
      ensures Peak(Rates(h, Flatten(gs)), r) >= Peak(Rates(h, l), r)
    {
      var k := PeakAttained(Rates(h, l), r);
      var s := Elems(l[..k]);
      RatesPrefix(h, l, k);
      assert l == l[..k] + l[k..];
      ElemsConcat(l[..k], l[k..]);
      TotalRates(h, l[..k]);
      PrefixClosed(h, l, h.used, k);
      hide Peak, SetRate, Gain, Rates;
      EachClosed(h, gs, s);
      UnderPeak(h, gs, s, r);
      PeakOfGroups(h, gs, r);
    }
  }

  lemma {:induction false} EachClosed(h: Graph, gs: seq<seq<nat>>, s: set<nat>)
    requires GoodGroups(h, gs) && Closed(h, h.used, s)
    ensures ClosedInEach(h, gs, s)
  {
    forall k | 0 <= k < |gs|
      ensures Closed(h, Elems(gs[k]), s * Elems(gs[k]))
    {
      assert GoodGroup(h, gs[k]);
      ClosedPart(h, Elems(gs[k]), h.used, s);
    }
  }
}
