// The linked-list representation of the groups in PostLinearize (src/cluster_linearize.h): groups
// are singly linked lists of transactions, themselves on a singly linked circular list.
module GroupLists {
  import opened FeeFracs
  import opened DepGraphs
  import opened Diagrams
  import opened Linearizations
  import opened Groups
  import opened Passes
  import opened Sequences

  const SENTINEL: nat := 0
  const NO_PREV_TX: nat := 0

  /** The entry of transaction t is at index t + 1. All fields but `prevTx` matter only for the last
      transaction of a group, its tail. */
  datatype TxEntry = TxEntry(
    prevTx: nat, firstTx: nat, prevGroup: nat, group: set<nat>, deps: set<nat>, feerate: FeeFrac)

  const BLANK := TxEntry(0, 0, 0, {}, {}, EMPTY)

  /** The index of the tail of group `k`; the sentinel stands on both ends of the list. */
  ghost function TailOf(gs: seq<seq<nat>>, k: int): nat {
    if 0 <= k < |gs| && gs[k] != [] then gs[k][|gs[k]| - 1] + 1 else SENTINEL
  }

  /** From the tail, `prevTx` leads through the group back to its first transaction. */
  ghost predicate ChainRep(e: seq<TxEntry>, grp: seq<nat>) {
    && (forall i :: 0 <= i < |grp| ==> grp[i] + 1 < |e|)
    && (forall i {:trigger ChainAt(e, grp, i)} :: 0 <= i < |grp| ==> ChainAt(e, grp, i))
  }

  ghost predicate ChainAt(e: seq<TxEntry>, grp: seq<nat>, i: nat) {
    && i < |grp| && grp[i] + 1 < |e|
    && e[grp[i] + 1].prevTx == if i == 0 then NO_PREV_TX else grp[i - 1] + 1
  }

  /** The tail entry of a group describes the whole group. */
  ghost predicate TailRep(h: Graph, t: TxEntry, grp: seq<nat>) {
    && grp != []
    && t.firstTx == grp[0] + 1
    && t.group == Elems(grp)
    && t.deps == h.AncUnion(Elems(grp))
    && t.feerate == GroupRate(h, grp)
  }

  /** The entries hold the group `grp`. */
  ghost predicate GroupRep(h: Graph, e: seq<TxEntry>, grp: seq<nat>) {
    grp != [] && ChainRep(e, grp) && TailRep(h, e[grp[|grp| - 1] + 1], grp)
  }

  /** The k-th group (or the sentinel, for k = |gs|) points to the tail of the group before it. */
  ghost predicate LinkRep(e: seq<TxEntry>, gs: seq<seq<nat>>, k: nat) {
    TailOf(gs, k) < |e| && e[TailOf(gs, k)].prevGroup == TailOf(gs, k - 1)
  }

  /** The entries hold the list of groups `gs`. */
  ghost predicate Rep(h: Graph, e: seq<TxEntry>, gs: seq<seq<nat>>) {
    && |e| > 0 && e[SENTINEL].feerate == EMPTY
    && Distinct(Flatten(gs))
    && (forall k {:trigger gs[k]} :: 0 <= k < |gs| ==> GroupRep(h, e, gs[k]))
    && (forall k {:trigger LinkRep(e, gs, k)} :: 0 <= k <= |gs| ==> LinkRep(e, gs, k))
  }

  // ----- groups do not share transactions

  lemma {:induction false} InFlatten(gs: seq<seq<nat>>, k: nat, x: nat)
    requires k < |gs| && x in gs[k]
    ensures x in Flatten(gs)
  {
    if k > 0 {
      InFlatten(gs[1..], k - 1, x);
    }
  }

  lemma {:induction false} GroupsDisjoint(gs: seq<seq<nat>>, j: nat, k: nat)
    requires Distinct(Flatten(gs)) && j < |gs| && k < |gs|
    ensures Distinct(gs[j])
    ensures j != k ==> Elems(gs[j]) !! Elems(gs[k])
  {
    ElemsConcat(gs[0], Flatten(gs[1..]));
    if j > 0 && k > 0 {
      GroupsDisjoint(gs[1..], j - 1, k - 1);
    } else if j != k {
      var m := if j == 0 then k else j;
      forall x | x in gs[m]
        ensures x !in gs[0]
      {
        InFlatten(gs[1..], m - 1, x);
        assert x in Elems(Flatten(gs[1..]));
        assert x !in Elems(gs[0]);
      }
      if j > 0 {
        GroupsDisjoint(gs[1..], j - 1, j - 1);
      }
    }
  }

  lemma {:induction false} TailsDiffer(gs: seq<seq<nat>>, j: nat, k: nat)
    requires Distinct(Flatten(gs)) && j <= |gs| && k < |gs| && j != k
    requires gs[k] != [] && (j < |gs| ==> gs[j] != [])
    ensures TailOf(gs, j) != TailOf(gs, k)
  {
    hide Flatten, Distinct;
    if j < |gs| {
      GroupsDisjoint(gs, j, k);
      assert gs[j][|gs[j]| - 1] in Elems(gs[j]) && gs[k][|gs[k]| - 1] in Elems(gs[k]);
    }
  }

  /** A group survives changes elsewhere, and any change of `prevGroup`. */
  lemma GroupFrame(h: Graph, e: seq<TxEntry>, e': seq<TxEntry>, grp: seq<nat>)
    requires GroupRep(h, e, grp) && |e'| == |e|
    requires forall i :: 0 <= i < |grp| ==> e'[grp[i] + 1] == e[grp[i] + 1].(prevGroup := e'[grp[i] + 1].prevGroup)
    ensures GroupRep(h, e', grp)
  {
    forall i | 0 <= i < |grp|
      ensures ChainAt(e', grp, i)
    {
      assert ChainAt(e, grp, i);
    }
  }

  // ----- inserting a new group at the back

  function Inserted(e: seq<TxEntry>, idx: nat, deps: set<nat>, feerate: FeeFrac): seq<TxEntry>
    requires idx + 1 < |e|
  {
    var e1 := e[idx + 1 := TxEntry(NO_PREV_TX, idx + 1, e[SENTINEL].prevGroup, {idx}, deps, feerate)];
    e1[SENTINEL := e1[SENTINEL].(prevGroup := idx + 1)]
  }

  lemma AppendedTails(gs: seq<seq<nat>>, x: nat, k: int)
    ensures TailOf(gs + [[x]], k) == if k == |gs| then x + 1 else TailOf(gs, k)
  {
    if 0 <= k < |gs| {
      assert (gs + [[x]])[k] == gs[k];
    }
  }

  lemma InsertGroupRep(h: Graph, e: seq<TxEntry>, gs: seq<seq<nat>>, x: nat, k: nat)
    requires Rep(h, e, gs) && x + 1 < |e| && x !in Flatten(gs) && k <= |gs|
    ensures GroupRep(h, Inserted(e, x, h.Anc(x), h.Rate(x)), (gs + [[x]])[k])
  {
    var e', grp := Inserted(e, x, h.Anc(x), h.Rate(x)), (gs + [[x]])[k];
    if k < |gs| {
      assert grp == gs[k];
      forall i | 0 <= i < |grp|
        ensures grp[i] != x
      {
        InFlatten(gs, k, grp[i]);
      }
      GroupFrame(h, e, e', grp);
    } else {
      assert grp == [x];
      assert ChainAt(e', grp, 0);
      SingleGroupRate(h, x);
      assert Elems([x]) == {x};
      assert h.AncUnion({x}) == h.Anc(x);
    }
  }

  lemma {:induction false} InsertLinkRep(h: Graph, e: seq<TxEntry>, gs: seq<seq<nat>>, x: nat, k: nat)
    requires Rep(h, e, gs) && x + 1 < |e| && x !in Flatten(gs) && k <= |gs| + 1
    ensures LinkRep(Inserted(e, x, h.Anc(x), h.Rate(x)), gs + [[x]], k)
  {
    AppendedTails(gs, x, k);
    AppendedTails(gs, x, k - 1);
    assert LinkRep(e, gs, |gs|) && (k <= |gs| ==> LinkRep(e, gs, k));
    if k < |gs| {
      assert GroupRep(h, e, gs[k]);
      InFlatten(gs, k, gs[k][|gs[k]| - 1]);
    }
    hide Rep, GroupRep, Flatten, Distinct;
  }

  lemma RepInsert(h: Graph, e: seq<TxEntry>, gs: seq<seq<nat>>, x: nat)
    requires Rep(h, e, gs) && x + 1 < |e| && x !in Flatten(gs)
    ensures Rep(h, Inserted(e, x, h.Anc(x), h.Rate(x)), gs + [[x]])
  {
    var e', gs' := Inserted(e, x, h.Anc(x), h.Rate(x)), gs + [[x]];
    FlattenConcat(gs, [[x]]);
    assert Flatten([[x]]) == [x] + Flatten([]) == [x];
    ElemsConcat(Flatten(gs), [x]);
    assert Elems([x]) == {x};
    assert x !in Elems(Flatten(gs));
    hide GroupRep, LinkRep;
    forall k | 0 <= k < |gs'|
      ensures GroupRep(h, e', gs'[k])
    {
      InsertGroupRep(h, e, gs, x, k);
    }
    forall k | 0 <= k <= |gs'|
      ensures LinkRep(e', gs', k)
    {
      InsertLinkRep(h, e, gs, x, k);
    }
  }

  lemma SingleGroupRate(h: Graph, x: nat)
    ensures GroupRate(h, [x]) == h.Rate(x)
  {
    hide Total;
    TotalSingle(h.Rate(x));
    assert Rates(h, [x]) == [h.Rate(x)];
  }

  // ----- merging the previous group into the current one

  function Merged(e: seq<TxEntry>, cur: nat, prev: nat): seq<TxEntry>
    requires cur < |e| && prev < |e| && e[cur].firstTx < |e|
  {
    var e1 := e[cur := e[cur].(group := e[cur].group + e[prev].group,
                               deps := e[cur].deps + e[prev].deps,
                               feerate := Plus(e[cur].feerate, e[prev].feerate))];
    // Chain the two groups: what was first in `cur` is preceded by `prev`.
    var e2 := e1[e1[cur].firstTx := e1[e1[cur].firstTx].(prevTx := prev)];
    e2[cur := e2[cur].(firstTx := e2[prev].firstTx, prevGroup := e2[prev].prevGroup)]
  }

  lemma AncUnionPlus(h: Graph, a: set<nat>, b: set<nat>)
    ensures h.AncUnion(a + b) == h.AncUnion(a) + h.AncUnion(b)
  {
  }

  lemma MergedAt(e: seq<TxEntry>, cur: nat, prev: nat, x: nat)
    requires cur < |e| && prev < |e| && e[cur].firstTx < |e| && x < |e| && prev != cur
    ensures var e' := Merged(e, cur, prev);
            && |e'| == |e|
            && e'[x].prevTx == (if x == e[cur].firstTx then prev else e[x].prevTx)
            && e'[x].prevGroup == (if x == cur then e[prev].prevGroup else e[x].prevGroup)
            && (x == cur ==>
                  && e'[x].firstTx == e[prev].firstTx
                  && e'[x].group == e[cur].group + e[prev].group
                  && e'[x].deps == e[cur].deps + e[prev].deps
                  && e'[x].feerate == Plus(e[cur].feerate, e[prev].feerate))
  {
  }

  /** Two different groups held by the entries. */
  ghost predicate Pair(h: Graph, e: seq<TxEntry>, p: seq<nat>, q: seq<nat>) {
    && GroupRep(h, e, p) && GroupRep(h, e, q)
    && Distinct(p) && Distinct(q) && Elems(p) !! Elems(q)
  }

  lemma MergedChain(h: Graph, e: seq<TxEntry>, p: seq<nat>, q: seq<nat>, i: nat)
    ensures Pair(h, e, p, q) && i < |p + q| ==>
              ChainAt(Merged(e, q[|q| - 1] + 1, p[|p| - 1] + 1), p + q, i)
  {
    if Pair(h, e, p, q) && i < |p + q| {
      var cur, prev := q[|q| - 1] + 1, p[|p| - 1] + 1;
      assert q[|q| - 1] in Elems(q) && p[|p| - 1] in Elems(p) && q[0] in Elems(q);
      MergedAt(e, cur, prev, (p + q)[i] + 1);
      if i < |p| {
        assert p[i] in Elems(p);
        assert ChainAt(e, p, i);
      } else {
        assert ChainAt(e, q, i - |p|);
      }
    }
  }

  lemma MergedTail(h: Graph, e: seq<TxEntry>, p: seq<nat>, q: seq<nat>)
    ensures Pair(h, e, p, q) ==>
              TailRep(h, Merged(e, q[|q| - 1] + 1, p[|p| - 1] + 1)[q[|q| - 1] + 1], p + q)
  {
    if Pair(h, e, p, q) {
      var cur, prev := q[|q| - 1] + 1, p[|p| - 1] + 1;
      assert q[|q| - 1] in Elems(q) && p[|p| - 1] in Elems(p);
      MergedAt(e, cur, prev, cur);
      ElemsConcat(p, q);
      TotalOfConcat(h, p, q);
      PlusAssoc(GroupRate(h, p), GroupRate(h, q), EMPTY);
      PlusAssoc(GroupRate(h, q), GroupRate(h, p), EMPTY);
      AncUnionPlus(h, Elems(p), Elems(q));
    }
  }

  lemma MergedChainRep(h: Graph, e: seq<TxEntry>, p: seq<nat>, q: seq<nat>)
    ensures Pair(h, e, p, q) ==> ChainRep(Merged(e, q[|q| - 1] + 1, p[|p| - 1] + 1), p + q)
  {
    if Pair(h, e, p, q) {
      var m, e' := p + q, Merged(e, q[|q| - 1] + 1, p[|p| - 1] + 1);
      assert |e'| == |e|;
      hide Merged, TailRep;
      forall i | 0 <= i < |m|
        ensures ChainAt(e', m, i)
      {
        MergedChain(h, e, p, q, i);
      }
    }
  }

  /** The merged group itself. */
  lemma MergedGroup(h: Graph, e: seq<TxEntry>, p: seq<nat>, q: seq<nat>)
    ensures Pair(h, e, p, q) ==> GroupRep(h, Merged(e, q[|q| - 1] + 1, p[|p| - 1] + 1), p + q)
  {
    if Pair(h, e, p, q) {
      hide Merged, TailRep;
      assert (p + q)[|p + q| - 1] == q[|q| - 1];
      MergedTail(h, e, p, q);
      MergedChainRep(h, e, p, q);
    }
  }

  lemma MergedOther(h: Graph, e: seq<TxEntry>, p: seq<nat>, q: seq<nat>, grp: seq<nat>)
    ensures Pair(h, e, p, q) && GroupRep(h, e, grp) && Elems(grp) !! Elems(q) ==>
              GroupRep(h, Merged(e, q[|q| - 1] + 1, p[|p| - 1] + 1), grp)
  {
    if Pair(h, e, p, q) && GroupRep(h, e, grp) && Elems(grp) !! Elems(q) {
      var e' := Merged(e, q[|q| - 1] + 1, p[|p| - 1] + 1);
      assert q[0] in Elems(q) && q[|q| - 1] in Elems(q);
      forall i | 0 <= i < |grp|
        ensures grp[i] != q[0] && grp[i] != q[|q| - 1]
      {
        assert grp[i] in Elems(grp);
      }
      GroupFrame(h, e, e', grp);
    }
  }

  lemma MergedTails(gs: seq<seq<nat>>, c: nat, k: int)
    requires 0 < c < |gs| && gs[c] != []
    ensures TailOf(MergeAt(gs, c), k) == TailOf(gs, if k < c - 1 then k else k + 1)
  {
    var ms := MergeAt(gs, c);
    if 0 <= k < |ms| {
      assert ms[k] == if k < c - 1 then gs[k] else if k == c - 1 then gs[c - 1] + gs[c] else gs[k + 1];
    }
  }

  /** Where the two groups of a merge or swap at `c` are. */
  lemma MergeBounds(h: Graph, e: seq<TxEntry>, gs: seq<seq<nat>>, c: nat)
    requires Rep(h, e, gs) && 0 < c < |gs|
    ensures GroupRep(h, e, gs[c]) && GroupRep(h, e, gs[c - 1]) && gs[c] != [] && gs[c - 1] != []
    ensures TailOf(gs, c) == gs[c][|gs[c]| - 1] + 1 < |e|
    ensures TailOf(gs, c - 1) == gs[c - 1][|gs[c - 1]| - 1] + 1 < |e|
    ensures e[TailOf(gs, c)].firstTx < |e|
  {
    assert GroupRep(h, e, gs[c]) && GroupRep(h, e, gs[c - 1]);
  }

  lemma RepParts(h: Graph, e: seq<TxEntry>, gs: seq<seq<nat>>, k: nat)
    requires Rep(h, e, gs) && k <= |gs|
    ensures LinkRep(e, gs, k) && Distinct(Flatten(gs)) && (k < |gs| ==> gs[k] != [])
  {
    if k < |gs| {
      assert GroupRep(h, e, gs[k]);
    }
  }

  lemma {:induction false} MergedLink(h: Graph, e: seq<TxEntry>, gs: seq<seq<nat>>, c: nat, k: nat)
    requires Rep(h, e, gs) && 0 < c < |gs| && k < |gs|
    requires TailOf(gs, c) < |e| && TailOf(gs, c - 1) < |e| && e[TailOf(gs, c)].firstTx < |e|
    ensures LinkRep(Merged(e, TailOf(gs, c), TailOf(gs, c - 1)), MergeAt(gs, c), k)
  {
    var j := if k < c - 1 then k else k + 1;
    hide GroupRep, Rep, Merged, MergeAt, Flatten, Distinct, TailOf;
    RepParts(h, e, gs, j);
    RepParts(h, e, gs, c - 1);
    RepParts(h, e, gs, c);
    MergeBounds(h, e, gs, c);
    MergedTails(gs, c, k);
    MergedTails(gs, c, k - 1);
    TailsDiffer(gs, c - 1, c);
    if j != c {
      TailsDiffer(gs, j, c);
    }
    MergedAt(e, TailOf(gs, c), TailOf(gs, c - 1), TailOf(gs, j));
  }

  lemma MergedPair(h: Graph, e: seq<TxEntry>, gs: seq<seq<nat>>, c: nat)
    requires Rep(h, e, gs) && 0 < c < |gs|
    ensures Pair(h, e, gs[c - 1], gs[c])
  {
    GroupsDisjoint(gs, c - 1, c);
    GroupsDisjoint(gs, c, c - 1);
  }

  lemma {:induction false} MergedGroupHere(h: Graph, e: seq<TxEntry>, gs: seq<seq<nat>>, c: nat)
    requires Rep(h, e, gs) && 0 < c < |gs|
    requires TailOf(gs, c) < |e| && TailOf(gs, c - 1) < |e| && e[TailOf(gs, c)].firstTx < |e|
    ensures GroupRep(h, Merged(e, TailOf(gs, c), TailOf(gs, c - 1)), gs[c - 1] + gs[c])
  {
    hide Rep, Merged, Pair, TailOf, Flatten, Distinct, LinkRep, ChainRep, TailRep;
    MergeBounds(h, e, gs, c);
    MergedPair(h, e, gs, c);
    var p, q := gs[c - 1], gs[c];
    MergedGroup(h, e, p, q);
  }

  lemma MergedGroupElse(h: Graph, e: seq<TxEntry>, gs: seq<seq<nat>>, c: nat, j: nat)
    requires Rep(h, e, gs) && 0 < c < |gs| && j < |gs| && j != c
    requires TailOf(gs, c) < |e| && TailOf(gs, c - 1) < |e| && e[TailOf(gs, c)].firstTx < |e|
    ensures GroupRep(h, Merged(e, TailOf(gs, c), TailOf(gs, c - 1)), gs[j])
  {
    assert GroupRep(h, e, gs[j]);
    GroupsDisjoint(gs, j, c);
    MergeBounds(h, e, gs, c);
    MergedPair(h, e, gs, c);
    hide Rep, GroupRep, Merged, Pair, TailOf, Flatten, Distinct;
    MergedOther(h, e, gs[c - 1], gs[c], gs[j]);
  }

  lemma RepMerge(h: Graph, e: seq<TxEntry>, gs: seq<seq<nat>>, c: nat)
    requires Rep(h, e, gs) && 0 < c < |gs|
    ensures TailOf(gs, c) < |e| && TailOf(gs, c - 1) < |e| && e[TailOf(gs, c)].firstTx < |e|
    ensures Rep(h, Merged(e, TailOf(gs, c), TailOf(gs, c - 1)), MergeAt(gs, c))
  {
    MergeBounds(h, e, gs, c);
    var ms, cur := MergeAt(gs, c), TailOf(gs, c);
    var e' := Merged(e, cur, TailOf(gs, c - 1));
    assert |e'| == |e| && e'[SENTINEL].feerate == EMPTY;
    hide GroupRep, LinkRep, MergeAt, Merged, TailOf;
    SplitAt(gs, c);
    MergeElems(gs, c);
    forall k | 0 <= k < |ms|
      ensures GroupRep(h, e', ms[k])
    {
      if k == c - 1 {
        MergedGroupHere(h, e, gs, c);
      } else {
        MergedGroupElse(h, e, gs, c, if k < c - 1 then k else k + 1);
      }
    }
    forall k | 0 <= k <= |ms|
      ensures LinkRep(e', ms, k)
    {
      MergedLink(h, e, gs, c, k);
    }
  }

  lemma InsertedLength(e: seq<TxEntry>, idx: nat, deps: set<nat>, feerate: FeeFrac)
    requires idx + 1 < |e|
    ensures |Inserted(e, idx, deps, feerate)| == |e|
  {
  }

  // ----- swapping the previous and the current group

  function Swapped(e: seq<TxEntry>, cur: nat, prev: nat, next: nat): seq<TxEntry>
    requires cur < |e| && prev < |e| && next < |e|
  {
    var preprev := e[prev].prevGroup;
    var e1 := e[next := e[next].(prevGroup := prev)];
    var e2 := e1[prev := e1[prev].(prevGroup := cur)];
    e2[cur := e2[cur].(prevGroup := preprev)]
  }

  lemma SwappedTails(gs: seq<seq<nat>>, c: nat, k: int)
    requires 0 < c < |gs|
    ensures TailOf(SwapAt(gs, c), k) == TailOf(gs, if k == c - 1 then c else if k == c then c - 1 else k)
  {
    hide SwapAt;
    SwapElems(gs, c);
  }

  lemma SwappedAt(e: seq<TxEntry>, cur: nat, prev: nat, next: nat, x: nat)
    requires cur < |e| && prev < |e| && next < |e| && x < |e|
    requires cur != prev && cur != next && prev != next
    ensures |Swapped(e, cur, prev, next)| == |e|
    ensures Swapped(e, cur, prev, next)[x].prevGroup ==
            if x == cur then e[prev].prevGroup else if x == prev then cur
            else if x == next then prev else e[x].prevGroup
  {
  }

  /** The tails involved in a swap are different entries. */
  lemma SwapTails(h: Graph, e: seq<TxEntry>, gs: seq<seq<nat>>, c: nat)
    requires Rep(h, e, gs) && 0 < c < |gs|
    ensures TailOf(gs, c) != TailOf(gs, c - 1) && TailOf(gs, c) != TailOf(gs, c + 1)
    ensures TailOf(gs, c - 1) != TailOf(gs, c + 1)
  {
    assert GroupRep(h, e, gs[c]) && GroupRep(h, e, gs[c - 1]);
    assert c + 1 < |gs| ==> GroupRep(h, e, gs[c + 1]);
    hide GroupRep, TailOf;
    TailsDiffer(gs, c - 1, c);
    TailsDiffer(gs, c + 1, c);
    TailsDiffer(gs, c + 1, c - 1);
  }

  lemma OtherTails(h: Graph, e: seq<TxEntry>, gs: seq<seq<nat>>, c: nat, k: nat)
    requires Rep(h, e, gs) && 0 < c < |gs| && k <= |gs| && k != c - 1 && k != c && k != c + 1
    ensures TailOf(gs, k) != TailOf(gs, c) && TailOf(gs, k) != TailOf(gs, c - 1) && TailOf(gs, k) != TailOf(gs, c + 1)
  {
    assert GroupRep(h, e, gs[c]) && GroupRep(h, e, gs[c - 1]);
    assert c + 1 < |gs| ==> GroupRep(h, e, gs[c + 1]);
    assert k < |gs| ==> GroupRep(h, e, gs[k]);
    hide GroupRep, TailOf;
    TailsDiffer(gs, k, c);
    TailsDiffer(gs, k, c - 1);
    if c + 1 < |gs| {
      TailsDiffer(gs, k, c + 1);
    } else {
      TailsDiffer(gs, |gs|, k);
    }
  }

  lemma SwappedLink(h: Graph, e: seq<TxEntry>, gs: seq<seq<nat>>, c: nat, k: nat)
    requires Rep(h, e, gs) && 0 < c < |gs| && k <= |gs|
    requires TailOf(gs, c) < |e| && TailOf(gs, c - 1) < |e| && TailOf(gs, c + 1) < |e|
    ensures LinkRep(Swapped(e, TailOf(gs, c), TailOf(gs, c - 1), TailOf(gs, c + 1)), SwapAt(gs, c), k)
  {
    var j := if k == c - 1 then c else if k == c then c - 1 else k;
    assert LinkRep(e, gs, j) && LinkRep(e, gs, c - 1);
    SwapTails(h, e, gs, c);
    SwappedTails(gs, c, k);
    SwappedTails(gs, c, k - 1);
    if k != c - 1 && k != c && k != c + 1 {
      OtherTails(h, e, gs, c, k);
    }
    hide SwapAt, Flatten, TailOf, GroupRep, Rep;
    SwappedAt(e, TailOf(gs, c), TailOf(gs, c - 1), TailOf(gs, c + 1), TailOf(gs, j));
  }

  lemma SwappedGroup(h: Graph, e: seq<TxEntry>, cur: nat, prev: nat, next: nat, grp: seq<nat>)
    requires GroupRep(h, e, grp) && cur < |e| && prev < |e| && next < |e|
    ensures GroupRep(h, Swapped(e, cur, prev, next), grp)
  {
    GroupFrame(h, e, Swapped(e, cur, prev, next), grp);
  }

  lemma RepSwap(h: Graph, e: seq<TxEntry>, gs: seq<seq<nat>>, c: nat)
    requires Rep(h, e, gs) && 0 < c < |gs| && Distinct(Flatten(SwapAt(gs, c)))
    ensures TailOf(gs, c) < |e| && TailOf(gs, c - 1) < |e| && TailOf(gs, c + 1) < |e|
    ensures Rep(h, Swapped(e, TailOf(gs, c), TailOf(gs, c - 1), TailOf(gs, c + 1)), SwapAt(gs, c))
  {
    assert GroupRep(h, e, gs[c]) && GroupRep(h, e, gs[c - 1]);
    assert LinkRep(e, gs, c + 1);
    var ss := SwapAt(gs, c);
    var cur, prev, next := TailOf(gs, c), TailOf(gs, c - 1), TailOf(gs, c + 1);
    var e' := Swapped(e, cur, prev, next);
    assert |e'| == |e| && e'[SENTINEL].feerate == e[SENTINEL].feerate;
    hide SwapAt, Flatten, TailOf, LinkRep, Distinct, Swapped, GroupRep;
    SwapElems(gs, c);
    forall k | 0 <= k < |ss|
      ensures GroupRep(h, e', ss[k])
    {
      var j := if k == c - 1 then c else if k == c then c - 1 else k;
      assert GroupRep(h, e, gs[j]);
      SwappedGroup(h, e, cur, prev, next, gs[j]);
    }
    forall k | 0 <= k <= |ss|
      ensures LinkRep(e', ss, k)
    {
      SwappedLink(h, e, gs, c, k);
    }
  }
}
