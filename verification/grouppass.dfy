// A post-linearization pass as a function on group lists (PostLinearize of src/cluster_linearize.h).
module GroupPasses {
  import opened FeeFracs
  import opened DepGraphs
  import opened Diagrams
  import opened Linearizations
  import opened Groups
  import opened Passes
  import opened Sequences

  ghost predicate DependsOn(h: Graph, p: seq<nat>, q: seq<nat>) {
    exists a, b :: a in p && b in q && a in h.Anc(b)
  }

  /** The list after the merge/swap cycle of the group at `c`. */
  ghost function Finish(h: Graph, gs: seq<seq<nat>>, c: nat): seq<seq<nat>>
    requires c < |gs|
    decreases c
  {
    if c == 0 || !Higher(GroupRate(h, gs[c]), GroupRate(h, gs[c - 1])) then gs
    else if DependsOn(h, gs[c - 1], gs[c]) then Finish(h, MergeAt(gs, c), c - 1)
    else Finish(h, SwapAt(gs, c), c - 1)
  }

  lemma FinishStops(h: Graph, gs: seq<seq<nat>>, c: nat)
    requires c < |gs| && (c == 0 || !Higher(GroupRate(h, gs[c]), GroupRate(h, gs[c - 1])))
    ensures Finish(h, gs, c) == gs
  {
  }

  lemma FinishMoves(h: Graph, gs: seq<seq<nat>>, c: nat)
    requires 0 < c < |gs| && Higher(GroupRate(h, gs[c]), GroupRate(h, gs[c - 1]))
    ensures |MergeAt(gs, c)| == |gs| - 1 && |SwapAt(gs, c)| == |gs|
    ensures DependsOn(h, gs[c - 1], gs[c]) ==> Finish(h, gs, c) == Finish(h, MergeAt(gs, c), c - 1)
    ensures !DependsOn(h, gs[c - 1], gs[c]) ==> Finish(h, gs, c) == Finish(h, SwapAt(gs, c), c - 1)
  {
  }

  /** The groups that a pass over `inp` ends with. */
  ghost function GroupsOf(h: Graph, inp: seq<nat>): seq<seq<nat>> {
    if inp == [] then []
    else
      var gs := GroupsOf(h, inp[..|inp| - 1]);
      Finish(h, gs + [[inp[|inp| - 1]]], |gs|)
  }

  /** A cycle keeps the list sound with respect to any order, and leaves it sorted. */
  lemma {:induction false} FinishSound(h: Graph, alt: seq<nat>, gs: seq<seq<nat>>, c: nat)
    requires h.PositiveSizes() && Sound(h, alt, gs) && OrderedBut(h, gs, c)
    ensures Sound(h, alt, Finish(h, gs, c)) && NonIncreasing(GroupRates(h, Finish(h, gs, c)))
    decreases c
  {
    hide Sound, Gain, GroupRate, MergeAt, SwapAt;
    SoundGood(h, alt, gs);
    if c == 0 || !Higher(GroupRate(h, gs[c]), GroupRate(h, gs[c - 1])) {
      OrderedEnd(h, gs, c);
    } else if DependsOn(h, gs[c - 1], gs[c]) {
      SoundMerge(h, alt, gs, c);
      OrderedMerge(h, gs, c);
      FinishSound(h, alt, MergeAt(gs, c), c - 1);
    } else {
      SoundSwap(h, alt, gs, c);
      OrderedSwap(h, gs, c);
      FinishSound(h, alt, SwapAt(gs, c), c - 1);
    }
  }

  lemma SoundGood(h: Graph, alt: seq<nat>, gs: seq<seq<nat>>)
    requires Sound(h, alt, gs)
    ensures GoodGroups(h, gs)
  {
  }

  /** One more transaction. */
  lemma {:induction false} AppendSound(h: Graph, alt: seq<nat>, gs: seq<seq<nat>>, x: nat)
    requires h.PositiveSizes() && Sound(h, alt, gs) && NonIncreasing(GroupRates(h, gs))
    requires x in h.used && x !in alt && Topological(h, alt + [x])
    ensures OrderedBut(h, gs + [[x]], |gs|) && Sound(h, alt + [x], gs + [[x]])
    ensures Sound(h, alt + [x], Finish(h, gs + [[x]], |gs|))
             && NonIncreasing(GroupRates(h, Finish(h, gs + [[x]], |gs|)))
  {
    hide Sound, Finish, Topological;
    SoundAppend(h, alt, gs, x);
    OrderedStart(h, gs, [x]);
    FinishSound(h, alt + [x], gs + [[x]], |gs|);
  }

  lemma {:induction false} GroupsOfNext(h: Graph, p: seq<nat>, x: nat)
    ensures GroupsOf(h, p + [x]) == Finish(h, GroupsOf(h, p) + [[x]], |GroupsOf(h, p)|)
  {
    hide Finish;
    assert (p + [x])[..|p + [x]| - 1] == p;
  }

  /** If the groups of `p` are sound with respect to another order `alt`, they stay so when both are extended. */
  lemma {:induction false} RestSound(h: Graph, alt: seq<nat>, p: seq<nat>, rest: seq<nat>)
    requires h.PositiveSizes() && IsLin(h, alt + rest, h.used)
    requires Sound(h, alt, GroupsOf(h, p)) && NonIncreasing(GroupRates(h, GroupsOf(h, p)))
    ensures Sound(h, alt + rest, GroupsOf(h, p + rest)) && NonIncreasing(GroupRates(h, GroupsOf(h, p + rest)))
    decreases |rest|
  {
    if rest == [] {
      assert alt + rest == alt && p + rest == p;
    } else {
      hide GroupsOf, Sound, Finish, IsLin, Topological, GroupRates;
      var x := rest[0];
      NextOf(h, alt, rest);
      AppendSound(h, alt, GroupsOf(h, p), x);
      GroupsOfNext(h, p, x);
      FirstMoved(alt, rest);
      FirstMoved(p, rest);
      RestSound(h, alt + [x], p + [x], rest[1..]);
    }
  }

  lemma {:induction false} FirstMoved<T>(a: seq<T>, b: seq<T>)
    requires b != []
    ensures a + b == (a + [b[0]]) + b[1..]
  {
  }

  lemma {:induction false} NextOf(h: Graph, alt: seq<nat>, rest: seq<nat>)
    requires IsLin(h, alt + rest, h.used) && rest != []
    ensures rest[0] in h.used && rest[0] !in alt && Topological(h, alt + [rest[0]])
  {
    var l, n := alt + rest, |alt|;
    FirstMoved(alt, rest);
    TopologicalConcat(h, alt + [rest[0]], rest[1..]);
    assert l[n] in Elems(l) && l[n] == rest[0] && l[..n] == alt;
  }

  ghost predicate InOrder(h: Graph, p: seq<nat>) {
    Distinct(p) && Elems(p) <= h.used && Topological(h, p)
  }

  lemma {:induction false} InOrderParts(h: Graph, a: seq<nat>, b: seq<nat>)
    requires InOrder(h, a + b)
    ensures InOrder(h, a) && InOrder(h, b) && Elems(a) !! Elems(b)
    ensures forall x, y :: x in a && y in b ==> y !in h.Anc(x)
  {
    ElemsConcat(a, b);
    TopologicalConcat(h, a, b);
  }

  lemma EmptySound(h: Graph)
    ensures Sound(h, [], []) && NonIncreasing(GroupRates(h, []))
  {
  }

  /** A pass keeps every list of transactions in topological order, and never worsens it. */
  lemma {:induction false} GroupsSound(h: Graph, p: seq<nat>)
    requires h.PositiveSizes() && InOrder(h, p)
    ensures Sound(h, p, GroupsOf(h, p)) && NonIncreasing(GroupRates(h, GroupsOf(h, p)))
    decreases |p|
  {
    if p == [] {
      EmptySound(h);
    } else {
      var q, x := p[..|p| - 1], p[|p| - 1];
      assert p == q + [x];
      InOrderParts(h, q, [x]);
      assert x in Elems([x]) && x in Elems(p);
      assert x !in q by { assert x !in Elems(q); }
      hide Sound, Finish, GroupsOf, Distinct, Topological, GroupRates;
      GroupsSound(h, q);
      GroupsOfNext(h, q, x);
      AppendSound(h, q, GroupsOf(h, q), x);
    }
  }
}
