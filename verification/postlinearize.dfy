// PostLinearize (src/cluster_linearize.h).
module PostLinearization {
  import opened FeeFracs
  import opened DepGraphs
  import opened Diagrams
  import opened Linearizations
  import opened Chunking
  import opened Groups
  import opened Passes
  import opened GroupLists
  import opened GroupPasses
  import opened LinearizationChunkings
  import opened Trees
  import opened TreeShapes
  import opened Mirrors
  import opened PassGuarantees
  import opened Sequences

  // ----- one pass

  /** The state of a merge/swap cycle: the entries hold the groups `gs`, which are sound and ordered
      except for the current group at `c`, and on the way to the groups of the transactions so far. */
  ghost predicate Cycle(h: Graph, inp: seq<nat>, e: seq<TxEntry>, gs: seq<seq<nat>>, c: nat) {
    c < |gs| && Rep(h, e, gs) && Sound(h, inp, gs) && OrderedBut(h, gs, c) && Finish(h, gs, c) == GroupsOf(h, inp)
  }

  /** The state between two cycles: sound and with feerates that never increase. */
  ghost predicate Between(h: Graph, inp: seq<nat>, e: seq<TxEntry>, gs: seq<seq<nat>>) {
    Rep(h, e, gs) && Sound(h, inp, gs) && NonIncreasing(GroupRates(h, gs)) && gs == GroupsOf(h, inp)
  }

  /** What the loop reads from the entries. */
  lemma CycleView(h: Graph, e: seq<TxEntry>, gs: seq<seq<nat>>, c: nat)
    requires Rep(h, e, gs) && c < |gs|
    ensures TailOf(gs, c) < |e| && TailOf(gs, c - 1) < |e| && TailOf(gs, c + 1) < |e|
    ensures e[TailOf(gs, c)].prevGroup == TailOf(gs, c - 1)
    ensures e[TailOf(gs, c)].firstTx < |e|
    ensures Higher(e[TailOf(gs, c)].feerate, e[TailOf(gs, c - 1)].feerate) ==> c > 0
  {
    assert GroupRep(h, e, gs[c]) && LinkRep(e, gs, c) && LinkRep(e, gs, c + 1);
    if c > 0 {
      assert GroupRep(h, e, gs[c - 1]);
    } else {
      GainEmpty(e[TailOf(gs, c)].feerate);
    }
  }

  lemma DepsOverlap(h: Graph, e: seq<TxEntry>, gs: seq<seq<nat>>, c: nat)
    requires Rep(h, e, gs) && 0 < c < |gs|
    requires TailOf(gs, c) < |e| && TailOf(gs, c - 1) < |e|
    ensures e[TailOf(gs, c)].deps * e[TailOf(gs, c - 1)].group != {} <==>
            exists a, b :: a in gs[c - 1] && b in gs[c] && a in h.Anc(b)
    ensures e[TailOf(gs, c)].feerate == GroupRate(h, gs[c])
    ensures e[TailOf(gs, c - 1)].feerate == GroupRate(h, gs[c - 1])
  {
    var p, q := gs[c - 1], gs[c];
    assert GroupRep(h, e, p) && GroupRep(h, e, q);
    var both := h.AncUnion(Elems(q)) * Elems(p);
    if both != {} {
      var a :| a in both;
      var b :| b in Elems(q) && a in h.Anc(b);
      assert a in p && b in q;
    }
    if exists a, b :: a in p && b in q && a in h.Anc(b) {
      var a, b :| a in p && b in q && a in h.Anc(b);
      assert b in Elems(q) && a in both;
    }
  }

  lemma CycleMerge(h: Graph, inp: seq<nat>, e: seq<TxEntry>, gs: seq<seq<nat>>, c: nat)
    requires h.PositiveSizes() && Cycle(h, inp, e, gs, c) && c > 0
    requires TailOf(gs, c) < |e| && TailOf(gs, c - 1) < |e| && e[TailOf(gs, c)].firstTx < |e|
    requires Higher(e[TailOf(gs, c)].feerate, e[TailOf(gs, c - 1)].feerate)
    requires e[TailOf(gs, c)].deps * e[TailOf(gs, c - 1)].group != {}
    ensures Cycle(h, inp, Merged(e, TailOf(gs, c), TailOf(gs, c - 1)), MergeAt(gs, c), c - 1)
    ensures TailOf(MergeAt(gs, c), c - 1) == TailOf(gs, c)
    ensures TailOf(MergeAt(gs, c), c) == TailOf(gs, c + 1)
  {
    hide MergeAt, Merged, Rep, TailOf, Gain, GroupRate, Finish, GroupsOf, GoodGroups, IsLin, Dominates, OrderedBut;
    DepsOverlap(h, e, gs, c);
    assert DependsOn(h, gs[c - 1], gs[c]);
    NonEmptyGroup(h, e, gs, c);
    MergedTails(gs, c, c - 1);
    MergedTails(gs, c, c);
    RepMerge(h, e, gs, c);
    FinishMoves(h, gs, c);
    SoundMerge(h, inp, gs, c);
    OrderedMerge(h, gs, c);
    MergeElems(gs, c);
  }

  lemma NonEmptyGroup(h: Graph, e: seq<TxEntry>, gs: seq<seq<nat>>, c: nat)
    requires Rep(h, e, gs) && c < |gs|
    ensures gs[c] != []
  {
    hide Flatten, Distinct, LinkRep;
    assert GroupRep(h, e, gs[c]);
  }

  lemma CycleSwap(h: Graph, inp: seq<nat>, e: seq<TxEntry>, gs: seq<seq<nat>>, c: nat)
    requires h.PositiveSizes() && Cycle(h, inp, e, gs, c) && c > 0
    requires TailOf(gs, c) < |e| && TailOf(gs, c - 1) < |e| && TailOf(gs, c + 1) < |e|
    requires Higher(e[TailOf(gs, c)].feerate, e[TailOf(gs, c - 1)].feerate)
    requires e[TailOf(gs, c)].deps * e[TailOf(gs, c - 1)].group == {}
    ensures Cycle(h, inp, Swapped(e, TailOf(gs, c), TailOf(gs, c - 1), TailOf(gs, c + 1)), SwapAt(gs, c), c - 1)
    ensures TailOf(SwapAt(gs, c), c - 1) == TailOf(gs, c)
    ensures TailOf(SwapAt(gs, c), c) == TailOf(gs, c - 1)
    ensures TailOf(SwapAt(gs, c), c - 2) == TailOf(gs, c - 2)
  {
    hide SwapAt, Swapped, Rep, TailOf, Gain, GroupRate, Finish, GroupsOf, GoodGroups, Dominates;
    DepsOverlap(h, e, gs, c);
    SwappedTails(gs, c, c - 1);
    SwappedTails(gs, c, c);
    SwappedTails(gs, c, c - 2);
    assert !DependsOn(h, gs[c - 1], gs[c]);
    hide DependsOn;
    FinishMoves(h, gs, c);
    SoundSwap(h, inp, gs, c);
    OrderedSwap(h, gs, c);
    RepSwap(h, e, gs, c);
    SwapElems(gs, c);
  }

  lemma CycleExit(h: Graph, inp: seq<nat>, e: seq<TxEntry>, gs: seq<seq<nat>>, c: nat)
    requires h.PositiveSizes() && Cycle(h, inp, e, gs, c)
    requires TailOf(gs, c) < |e| && TailOf(gs, c - 1) < |e|
    requires !Higher(e[TailOf(gs, c)].feerate, e[TailOf(gs, c - 1)].feerate)
    ensures Between(h, inp, e, gs)
  {
    if c > 0 {
      DepsOverlap(h, e, gs, c);
    }
    hide Gain, GroupRate, Finish, GroupsOf;
    FinishStops(h, gs, c);
    OrderedEnd(h, gs, c);
  }

  /** The loop variables refer to (the tails of) three consecutive groups. */
  ghost predicate At(gs: seq<seq<nat>>, c: nat, cur: nat, prev: nat, next: nat) {
    cur == TailOf(gs, c) && prev == TailOf(gs, c - 1) && next == TailOf(gs, c + 1)
  }

  /** One merge or swap of the current group with a worse previous one. */
  method MergeOrSwap(ghost h: Graph, ghost inp: seq<nat>, e: seq<TxEntry>, cur: nat, prev: nat, next: nat,
                     ghost gs: seq<seq<nat>>, ghost c: nat)
    returns (e': seq<TxEntry>, prev': nat, next': nat, ghost gs': seq<seq<nat>>)
    requires h.PositiveSizes() && Cycle(h, inp, e, gs, c) && At(gs, c, cur, prev, next)
    requires cur < |e| && prev < |e| && Higher(e[cur].feerate, e[prev].feerate)
    ensures c > 0 && |e'| == |e| && prev' < |e|
    ensures Cycle(h, inp, e', gs', c - 1) && At(gs', c - 1, cur, prev', next')
  {
    CycleIndices(h, inp, e, gs, c, cur, prev, next);
    hide Cycle, At, Merged, Swapped, MergeAt, SwapAt, Gain;
    if e[cur].deps * e[prev].group != {} {
      // A dependency: merge the previous group into the current one.
      AfterMerge(h, inp, e, gs, c, cur, prev, next);
      e', gs' := Merged(e, cur, prev), MergeAt(gs, c);
      prev', next' := e'[cur].prevGroup, next;
    } else {
      // No dependency: swap them.
      AfterSwap(h, inp, e, gs, c, cur, prev, next);
      e', gs' := Swapped(e, cur, prev, next), SwapAt(gs, c);
      prev', next' := e[prev].prevGroup, prev;
    }
  }

  lemma CycleIndices(h: Graph, inp: seq<nat>, e: seq<TxEntry>, gs: seq<seq<nat>>, c: nat, cur: nat, prev: nat,
                     next: nat)
    requires Cycle(h, inp, e, gs, c) && At(gs, c, cur, prev, next)
    requires cur < |e| && prev < |e| && Higher(e[cur].feerate, e[prev].feerate)
    ensures c > 0 && next < |e| && e[cur].firstTx < |e|
  {
    CycleView(h, e, gs, c);
  }

  lemma AfterMerge(h: Graph, inp: seq<nat>, e: seq<TxEntry>, gs: seq<seq<nat>>, c: nat, cur: nat, prev: nat, next: nat)
    requires h.PositiveSizes() && Cycle(h, inp, e, gs, c) && At(gs, c, cur, prev, next) && c > 0
    requires cur < |e| && prev < |e| && Higher(e[cur].feerate, e[prev].feerate)
    requires e[cur].firstTx < |e| && e[cur].deps * e[prev].group != {}
    ensures var e' := Merged(e, cur, prev);
            && |e'| == |e| && e'[cur].prevGroup < |e|
            && Cycle(h, inp, e', MergeAt(gs, c), c - 1)
            && At(MergeAt(gs, c), c - 1, cur, e'[cur].prevGroup, next)
  {
    CycleMerge(h, inp, e, gs, c);
    var e' := Merged(e, cur, prev);
    assert |e'| == |e|;
    hide Merged, MergeAt, Rep, TailOf, Gain, Sound, OrderedBut;
    CycleView(h, e', MergeAt(gs, c), c - 1);
  }

  lemma AfterSwap(h: Graph, inp: seq<nat>, e: seq<TxEntry>, gs: seq<seq<nat>>, c: nat, cur: nat, prev: nat, next: nat)
    requires h.PositiveSizes() && Cycle(h, inp, e, gs, c) && At(gs, c, cur, prev, next) && c > 0
    requires cur < |e| && prev < |e| && next < |e| && Higher(e[cur].feerate, e[prev].feerate)
    requires e[cur].deps * e[prev].group == {}
    ensures |Swapped(e, cur, prev, next)| == |e| && e[prev].prevGroup < |e|
    ensures Cycle(h, inp, Swapped(e, cur, prev, next), SwapAt(gs, c), c - 1)
    ensures At(SwapAt(gs, c), c - 1, cur, e[prev].prevGroup, prev)
  {
    CycleSwap(h, inp, e, gs, c);
    assert |Swapped(e, cur, prev, next)| == |e|;
    hide Swapped, SwapAt, Rep, TailOf, Gain, Sound, OrderedBut;
    CycleView(h, e, gs, c - 1);
  }

  lemma StartAt(h: Graph, inp: seq<nat>, e: seq<TxEntry>, gs: seq<seq<nat>>)
    requires gs != [] && Cycle(h, inp, e, gs, |gs| - 1)
    ensures var cur := TailOf(gs, |gs| - 1);
            cur < |e| && e[cur].prevGroup < |e| && At(gs, |gs| - 1, cur, e[cur].prevGroup, SENTINEL)
  {
    CycleView(h, e, gs, |gs| - 1);
  }

  /** The merge/swap cycle of the group with tail `curGroup`, which was just appended. */
  method MergeSwap(ghost h: Graph, ghost inp: seq<nat>, start: seq<TxEntry>, curGroup: nat, ghost gs0: seq<seq<nat>>)
    returns (entries: seq<TxEntry>, ghost gs: seq<seq<nat>>, ghost c: nat)
    requires h.PositiveSizes() && gs0 != [] && Cycle(h, inp, start, gs0, |gs0| - 1)
    requires curGroup == TailOf(gs0, |gs0| - 1)
    ensures |entries| == |start| && Cycle(h, inp, entries, gs, c)
    ensures TailOf(gs, c) < |entries| && TailOf(gs, c - 1) < |entries|
    ensures !Higher(entries[TailOf(gs, c)].feerate, entries[TailOf(gs, c - 1)].feerate)
  {
    hide Cycle, TailOf, Gain, Rep, Sound, OrderedBut, Finish, GroupsOf;
    entries, gs, c := start, gs0, |gs0| - 1;
    StartAt(h, inp, entries, gs);
    var nextGroup: nat := SENTINEL;
    var prevGroup: nat := entries[curGroup].prevGroup;
    while Higher(entries[curGroup].feerate, entries[prevGroup].feerate)
      invariant |entries| == |start| && curGroup < |entries| && prevGroup < |entries|
      invariant Cycle(h, inp, entries, gs, c) && At(gs, c, curGroup, prevGroup, nextGroup)
      decreases c
    {
      hide At;
      entries, prevGroup, nextGroup, gs := MergeOrSwap(h, inp, entries, curGroup, prevGroup, nextGroup, gs, c);
      c := c - 1;
    }
  }

  // ----- building the groups of a pass

  lemma EmptyStart(h: Graph, e: seq<TxEntry>)
    requires |e| > 0 && e[SENTINEL].feerate == EMPTY && e[SENTINEL].prevGroup == SENTINEL
    ensures Between(h, [], e, [])
  {
  }

  /** Appending the next transaction of the input as a new group starts a cycle. */
  lemma CycleStart(h: Graph, inp: seq<nat>, i: nat, e: seq<TxEntry>, gs: seq<seq<nat>>)
    requires i < |inp| && IsLin(h, inp, h.used) && inp[i] + 1 < |e|
    requires Between(h, inp[..i], e, gs)
    ensures var x := inp[i];
            && Cycle(h, inp[..i + 1], Inserted(e, x, h.Anc(x), h.Rate(x)), gs + [[x]], |gs|)
            && TailOf(gs + [[x]], |gs|) == x + 1
  {
    var x := inp[i];
    assert inp[..i + 1] == inp[..i] + [x];
    assert inp == inp[..i + 1] + inp[i + 1..];
    TopologicalConcat(h, inp[..i + 1], inp[i + 1..]);
    assert x in Elems(inp);
    assert x !in inp[..i];
    assert x !in Flatten(gs) by {
      assert x in Flatten(gs) ==> x in Elems(Flatten(gs));
      assert x !in Elems(inp[..i]);
    }
    AppendedTails(gs, x, |gs|);
    hide Rep, Sound, GroupRate, TailOf, Inserted, Topological, IsLin, Finish, GroupsOf;
    GroupsOfNext(h, inp[..i], x);
    RepInsert(h, e, gs, x);
    SoundAppend(h, inp[..i], gs, x);
    OrderedStart(h, gs, [x]);
  }

  /** Insert transaction `idx` as a new last group and run its merge/swap cycle. */
  method AddGroup(g: Graph, rev: bool, idx: nat, start: seq<TxEntry>,
                  ghost h: Graph, ghost inp: seq<nat>, ghost i: nat, ghost gs0: seq<seq<nat>>)
    returns (entries: seq<TxEntry>, ghost gs: seq<seq<nat>>)
    requires h.PositiveSizes() && i < |inp| && idx == inp[i] && IsLin(h, inp, h.used) && idx + 1 < |start|
    requires h.Anc(idx) == if rev then g.Desc(idx) else g.Anc(idx)
    requires h.Rate(idx) == if rev then Negate(g.Rate(idx)) else g.Rate(idx)
    requires Between(h, inp[..i], start, gs0)
    ensures |entries| == |start| && Between(h, inp[..i + 1], entries, gs)
  {
    hide Between, Cycle, TailOf, Inserted, IsLin, Gain, Negate;
    CycleStart(h, inp, i, start, gs0);
    entries := Inserted(start, idx, if rev then g.Desc(idx) else g.Anc(idx),
                        if rev then Negate(g.Rate(idx)) else g.Rate(idx));
    InsertedLength(start, idx, h.Anc(idx), h.Rate(idx));
    ghost var c;
    entries, gs, c := MergeSwap(h, inp[..i + 1], entries, idx + 1, gs0 + [[idx]]);
    CycleExit(h, inp[..i + 1], entries, gs, c);
  }

  method BuildGroups(g: Graph, lin: seq<nat>, rev: bool, start: seq<TxEntry>)
    returns (entries: seq<TxEntry>, ghost gs: seq<seq<nat>>)
    requires g.Valid() && g.PositiveSizes() && IsLin(g, lin, g.used)
    requires |start| == |g.entries| + 1 && start[SENTINEL].feerate == EMPTY
    ensures |entries| == |start|
    ensures Between(Seen(g, rev), Order(lin, rev), entries, gs)
  {
    ghost var h, inp := Seen(g, rev), Order(lin, rev);
    SeenFacts(g, lin, rev);
    UsedInRange(g);
    entries, gs := start[SENTINEL := start[SENTINEL].(prevGroup := SENTINEL)], [];
    EmptyStart(h, entries);
    var i := 0;
    assert inp[..0] == [];
    while i < |lin|
      invariant 0 <= i <= |lin| && |entries| == |start|
      invariant Between(h, inp[..i], entries, gs)
    {
      // Backward passes go from back to front.
      var idx := lin[if rev then |lin| - 1 - i else i];
      assert idx == inp[i];
      assert idx in g.used by { assert inp[i] in Elems(inp); }
      hide Between, Seen, Order, Mirror, Graph.Valid;
      entries, gs := AddGroup(g, rev, idx, entries, h, inp, i, gs);
      i := i + 1;
    }
    assert inp[..|lin|] == inp;
  }

  // ----- writing the groups back

  /** Where the k-th written transaction goes: backward passes write front to back. */
  function Slot(rev: bool, n: nat, k: nat): int { if rev then k else n - 1 - k }

  /** The last `done` transactions of `flat` have been written, last one first. */
  ghost predicate Written(lin: array<nat>, rev: bool, flat: seq<nat>, done: nat)
    reads lin
  {
    && done <= lin.Length == |flat|
    && forall k {:trigger Slot(rev, |flat|, k)} :: 0 <= k < done ==> lin[Slot(rev, |flat|, k)] == flat[|flat| - 1 - k]
  }

  /** Write the transactions of the group with tail entry `tail`, from back to front. */
  method WriteGroup(entries: seq<TxEntry>, rev: bool, lin: array<nat>, tail: nat, done: nat,
                    ghost flat: seq<nat>, ghost grp: seq<nat>)
    returns (done': nat)
    requires grp != [] && ChainRep(entries, grp) && tail == grp[|grp| - 1] + 1
    requires Written(lin, rev, flat, done) && done + |grp| <= |flat|
    requires flat[|flat| - done - |grp|..|flat| - done] == grp
    modifies lin
    ensures done' == done + |grp| && Written(lin, rev, flat, done')
  {
    var curTx: nat := tail;
    done' := done;
    ghost var n, a, j: nat := |flat|, |flat| - done - |grp|, |grp|;
    assert forall i :: 0 <= i < |grp| ==> flat[a + i] == grp[i];
    while true
      invariant 0 < j <= |grp| && done' == done + (|grp| - j)
      invariant curTx == grp[j - 1] + 1
      invariant Written(lin, rev, flat, done')
      decreases j
    {
      assert ChainAt(entries, grp, j - 1);
      lin[Slot(rev, lin.Length, done')] := curTx - 1;
      done' := done' + 1;
      curTx := entries[curTx].prevTx;
      j := j - 1;
      if curTx == NO_PREV_TX { break; }
    }
  }

  lemma FlattenTail(gs: seq<seq<nat>>, k: nat)
    requires 0 < k <= |gs|
    ensures Flatten(gs) == Flatten(gs[..k - 1]) + gs[k - 1] + Flatten(gs[k..])
    ensures Flatten(gs[k - 1..]) == gs[k - 1] + Flatten(gs[k..])
  {
    SplitThree(gs, k);
    FlattenMiddle(gs[..k - 1], [gs[k - 1]], gs[k..]);
    FlattenConcat([gs[k - 1]], gs[k..]);
    assert Flatten([gs[k - 1]]) == gs[k - 1] + [] == gs[k - 1];
  }

  lemma SplitThree<T>(s: seq<T>, k: nat)
    requires 0 < k <= |s|
    ensures s == s[..k - 1] + [s[k - 1]] + s[k..] && s[k - 1..] == [s[k - 1]] + s[k..]
  {
  }

  /** Read the group list off into `lin`, from its last group to its first. */
  method WriteBack(ghost h: Graph, entries: seq<TxEntry>, rev: bool, lin: array<nat>, ghost gs: seq<seq<nat>>)
    requires Rep(h, entries, gs) && lin.Length == |Flatten(gs)|
    modifies lin
    ensures lin[..] == if rev then Reverse(Flatten(gs)) else Flatten(gs)
  {
    ghost var flat, k: nat := Flatten(gs), |gs|;
    assert LinkRep(entries, gs, |gs|);
    var curGroup: nat := entries[SENTINEL].prevGroup;
    var done: nat := 0;
    assert gs[k..] == [];
    LastNotSentinel(h, entries, gs, k);
    while curGroup != SENTINEL
      invariant k <= |gs| && curGroup == TailOf(gs, k - 1) && (curGroup == SENTINEL ==> k == 0)
      invariant done == |Flatten(gs[k..])| && Written(lin, rev, flat, done)
      decreases k
    {
      assert k > 0;
      FlattenTail(gs, k);
      assert GroupRep(h, entries, gs[k - 1]) && LinkRep(entries, gs, k - 1);
      done := WriteGroup(entries, rev, lin, curGroup, done, flat, gs[k - 1]);
      curGroup := entries[curGroup].prevGroup;
      k := k - 1;
      LastNotSentinel(h, entries, gs, k);
    }
    assert gs[0..] == gs;
    AllWritten(lin, rev, flat);
  }

  lemma LastNotSentinel(h: Graph, entries: seq<TxEntry>, gs: seq<seq<nat>>, k: nat)
    requires Rep(h, entries, gs) && k <= |gs|
    ensures k > 0 ==> TailOf(gs, k - 1) != SENTINEL
  {
    if k > 0 {
      assert GroupRep(h, entries, gs[k - 1]);
    }
  }

  lemma AllWritten(lin: array<nat>, rev: bool, flat: seq<nat>)
    requires Written(lin, rev, flat, |flat|)
    ensures lin[..] == if rev then Reverse(flat) else flat
  {
    forall i | 0 <= i < |flat|
      ensures lin[i] == if rev then Reverse(flat)[i] else flat[i]
    {
      var j := if rev then i else |flat| - 1 - i;
      assert Slot(rev, |flat|, j) == i;
    }
  }

  // ----- the two passes

  method Pass(g: Graph, linearization: array<nat>, rev: bool, start: seq<TxEntry>)
    returns (entries: seq<TxEntry>, ghost gs: seq<seq<nat>>)
    requires g.Valid() && g.PositiveSizes() && IsLin(g, linearization[..], g.used)
    requires |start| == |g.entries| + 1 && start[SENTINEL].feerate == EMPTY
    modifies linearization
    ensures |entries| == |start| && entries[SENTINEL].feerate == EMPTY
    ensures IsLin(g, linearization[..], g.used)
    ensures Dominates(Rates(g, linearization[..]), Rates(g, old(linearization[..])))
    ensures !rev ==> && linearization[..] == Flatten(gs) && GoodGroups(g, gs)
                     && NonIncreasing(GroupRates(g, gs)) && Distinct(Flatten(gs))
    ensures linearization[..] == Order(Flatten(GroupsOf(Seen(g, rev), Order(old(linearization[..]), rev))), rev)
  {
    var lin := linearization[..];
    entries, gs := BuildGroups(g, lin, rev, start);
    ghost var h, flat := Seen(g, rev), Flatten(gs);
    SeenFacts(g, lin, rev);
    SameLength(Order(lin, rev), flat);
    WriteBack(h, entries, rev, linearization, gs);
    PassResult(g, lin, linearization[..], rev, gs);
  }

  lemma SameLength(a: seq<nat>, b: seq<nat>)
    requires Distinct(a) && Distinct(b) && Elems(a) == Elems(b)
    ensures |a| == |b|
  {
    DistinctElems(a);
    DistinctElems(b);
  }

  /** The linearization `lin` comes from one of `g0` by moving the transaction at `k` to the end, with its fee possibly
      raised. */
  ghost predicate Replaced(g0: Graph, g: Graph, lin: seq<nat>, k: nat) {
    k < |lin| && IsLin(g, LastAt(lin, k), g.used) && FeeRaised(g0, g, lin[|lin| - 1])
  }

  /** Improve a linearization in place. The result is a linearization of the same graph, its feerate
      diagram is nowhere below that of the input, and each of its chunks is connected. On trees it is
      optimal, and it is nowhere below a linearization that the input comes from by moving one transaction
      to the end, with its fee possibly raised. */
  method PostLinearize(g: Graph, linearization: array<nat>)
    requires g.Valid() && g.PositiveSizes() && IsLin(g, linearization[..], g.used)
    modifies linearization
    ensures IsLin(g, linearization[..], g.used)
    ensures NowhereBelow(g, linearization[..], old(linearization[..]))
    ensures forall c :: c in ChunkSets(g, linearization[..]) ==> Connected(g, c.transactions)
    ensures OneChild(g) || OneParent(g) ==> forall l :: IsLin(g, l, g.used) ==> NowhereBelow(g, linearization[..], l)
    ensures forall g0, k :: Replaced(g0, g, old(linearization[..]), k) ==>
              AsGoodAs(g, linearization[..], g0, LastAt(old(linearization[..]), k))
  {
    var entries := seq(|g.entries| + 1, _ => BLANK);
    ghost var gs;
    ghost var first := linearization[..];
    // A pass from back to front, then one from front to back.
    entries, gs := Pass(g, linearization, true, entries);
    ghost var second := linearization[..];
    entries, gs := Pass(g, linearization, false, entries);
    ghost var third := linearization[..];
    TwoPasses(g, first, second, third, gs);
  }

  /** What the two passes give together. */
  lemma {:induction false} TwoPasses(g: Graph, first: seq<nat>, second: seq<nat>, third: seq<nat>, gs: seq<seq<nat>>)
    requires g.Valid() && g.PositiveSizes() && IsLin(g, first, g.used) && IsLin(g, second, g.used)
             && IsLin(g, third, g.used)
    requires Dominates(Rates(g, second), Rates(g, first)) && Dominates(Rates(g, third), Rates(g, second))
    requires third == Flatten(gs) && GoodGroups(g, gs) && NonIncreasing(GroupRates(g, gs))
    requires second == Order(Flatten(GroupsOf(Seen(g, true), Order(first, true))), true)
    requires third == Order(Flatten(GroupsOf(Seen(g, false), Order(second, false))), false)
    ensures NowhereBelow(g, third, first)
    ensures forall c :: c in ChunkSets(g, third) ==> Connected(g, c.transactions)
    ensures OneChild(g) || OneParent(g) ==> forall l :: IsLin(g, l, g.used) ==> NowhereBelow(g, third, l)
    ensures forall g0, k :: Replaced(g0, g, first, k) ==> AsGoodAs(g, third, g0, LastAt(first, k))
  {
    hide GroupsOf, Flatten, GroupRates, Rates, Dominates, ChunkSets, OneChild, OneParent, Treelike, NowhereBelow,
         LastAt, Connected, FeeRaised, AsGoodAs;
    ChunksConnected(g, gs);
    Beats(g, first, second, third);
    TreeSeen(g, first);
    forall l | (OneChild(g) || OneParent(g)) && IsLin(g, l, g.used)
      ensures NowhereBelow(g, third, l)
    {
      if OneChild(g) {
        PassOptimal(g, second, third, false, l);
        DominatesIsNowhereBelow(g, third, l);
      } else {
        PassOptimal(g, first, second, true, l);
        Beats(g, l, second, third);
      }
    }
    forall g0, k | Replaced(g0, g, first, k)
      ensures AsGoodAs(g, third, g0, LastAt(first, k))
    {
      PassMoved(g, first, second, k);
      Beats(g, LastAt(first, k), second, third);
      RaisedAsGood(g0, g, first[|first| - 1], third, LastAt(first, k));
    }
  }

  lemma {:induction false} Beats(g: Graph, l: seq<nat>, second: seq<nat>, third: seq<nat>)
    requires g.PositiveSizes() && IsLin(g, l, g.used) && IsLin(g, third, g.used)
    requires Dominates(Rates(g, second), Rates(g, l)) && Dominates(Rates(g, third), Rates(g, second))
    ensures NowhereBelow(g, third, l)
  {
    hide Rates, Dominates, NowhereBelow, Topological;
    DominatesTransitive(Rates(g, third), Rates(g, second), Rates(g, l));
    DominatesIsNowhereBelow(g, third, l);
  }

  lemma {:induction false} ChunksConnected(g: Graph, gs: seq<seq<nat>>)
    requires g.PositiveSizes() && GoodGroups(g, gs) && NonIncreasing(GroupRates(g, gs)) && Distinct(Flatten(gs))
    ensures forall c :: c in ChunkSets(g, Flatten(gs)) ==> Connected(g, c.transactions)
  {
    hide Flatten, ChunkSets, GroupRates, Connected, Strict;
    GroupsAreChunks(g, gs);
    forall c | c in ChunkSets(g, Flatten(gs))
      ensures Connected(g, c.transactions)
    {
      var k :| 0 <= k < |gs| && GroupChunks(g, gs)[k] == c;
      assert GoodGroup(g, gs[k]);
    }
  }
}
