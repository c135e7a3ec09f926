// Linearize (src/cluster_linearize.h): build a linearization from ancestor sets, chunks of an older
// linearization and bounded search.
module Linearizing {
  import opened FeeFracs
  import opened Powers
  import opened DepGraphs
  import opened Linearizations
  import opened Chunking
  import opened Gathering
  import opened LinearizationChunkings
  import opened Merging
  import opened AncestorFinders
  import opened Searching
  import opened SearchFinders
  import opened Sequences

  /** `best` has the highest feerate of all closed sets. */
  ghost predicate Unbeaten(g: Graph, todo: set<nat>, best: SetInfo) {
    forall y :: !Beats(g, todo, best.feerate, y)
  }

  /** A closed set of highest feerate can be moved to the front of any linearization. */
  lemma UnbeatenGatherable(g: Graph, todo: set<nat>, best: SetInfo, lin: seq<nat>)
    requires g.PositiveSizes() && todo <= g.used && IsLin(g, lin, g.used)
    requires IsCandidate(g, todo, best) && Unbeaten(g, todo, best)
    ensures Gatherable(g, ChunkSets(g, Filter(lin, todo)), best.transactions)
  {
    FirstChunkFacts(g, lin, todo);
    var rem := Filter(lin, todo);
    var cs, s := ChunkSets(g, rem), best.transactions;
    hide Filter, ChunkSets, SetRate, Gain;
    assert !Beats(g, todo, best.feerate, cs[0].transactions);
    forall j | 0 <= j <= |cs|
      ensures Gain(SetRate(g, s * PrefixSet(cs, j)), best.feerate) <= 0
    {
      UnbeatenPrefix(g, todo, best, rem, j);
    }
  }

  lemma UnbeatenPrefix(g: Graph, todo: set<nat>, best: SetInfo, rem: seq<nat>, j: nat)
    requires IsLin(g, rem, todo) && Closed(g, todo, best.transactions) && Unbeaten(g, todo, best)
    requires j <= |ChunkSets(g, rem)|
    ensures Gain(SetRate(g, best.transactions * PrefixSet(ChunkSets(g, rem), j)), best.feerate) <= 0
  {
    var p := PrefixSet(ChunkSets(g, rem), j);
    ChunkPrefix(g, rem, j);
    var k :| 0 <= k <= |rem| && p == Elems(rem[..k]);
    PrefixClosed(g, rem, todo, k);
    EmptyGain(g, best.feerate);
    hide ChunkSets, SetRate, Gain, Elems;
    assert !Beats(g, todo, best.feerate, best.transactions * p);
  }

  /** An intersection of a candidate at least as good as the first chunk. */
  lemma IntersectedCandidate(g: Graph, lin: seq<nat>, todo: set<nat>, s: SetInfo, r: SetInfo)
    requires g.PositiveSizes() && todo <= g.used && todo != {} && IsLin(g, lin, g.used)
    requires IsCandidate(g, todo, s) && s.feerate.size > 0
    requires var cs := ChunkSets(g, Filter(lin, todo));
             cs != [] && Gain(cs[0].feerate, s.feerate) <= 0 && GoodIntersection(g, cs, s, r)
    ensures IsCandidate(g, todo, r) && Gatherable(g, ChunkSets(g, Filter(lin, todo)), r.transactions)
  {
    FirstChunkFacts(g, lin, todo);
    IntersectionClosed(g, Filter(lin, todo), todo, s, r);
    IntersectionGatherable(g, ChunkSets(g, Filter(lin, todo)), s, r);
  }

  /** What is left of the older linearization, when there is one. */
  ghost predicate OldLeft(g: Graph, prev: seq<nat>, c: LinearizationChunking, todo: set<nat>)
    reads c
  {
    && c.Valid() && c.g == g && c.original == prev
    && (if prev == [] then c.todo == {} else c.todo == todo && IsLin(g, prev, g.used))
  }

  ghost predicate SearchLeft(g: Graph, src: SearchCandidateFinder?, todo: set<nat>)
    reads src
  {
    src != null ==> src.Valid() && src.g == g && src.left == todo
  }

  ghost predicate Ready(g: Graph, prev: seq<nat>, anc: AncestorCandidateFinder, src: SearchCandidateFinder?,
                        chunking: LinearizationChunking)
    reads anc, src, chunking
  {
    anc.Valid() && anc.g == g && OldLeft(g, prev, chunking, anc.todo) && SearchLeft(g, src, anc.todo)
  }

  /** Record that `s` has been output. */
  method MarkAllDone(g: Graph, prev: seq<nat>, anc: AncestorCandidateFinder, src: SearchCandidateFinder?,
                     chunking: LinearizationChunking, s: set<nat>)
    requires Ready(g, prev, anc, src, chunking) && s <= anc.todo && s != {}
    modifies anc, src, chunking
    ensures anc.todo == old(anc.todo) - s && (anc.todo != {} ==> Ready(g, prev, anc, src, chunking))
  {
    chunking.HasChunk();
    anc.MarkDone(s);
    if anc.todo == {} {
      return;
    }
    if src != null {
      src.MarkDone(s);
    }
    if chunking.NumChunksLeft() > 0 {
      chunking.MarkDone(s);
    }
  }

  /** The better of the best ancestor set and the first chunk of what remains of the previous order. */
  method StartSet(g: Graph, prev: seq<nat>, anc: AncestorCandidateFinder, chunking: LinearizationChunking)
    returns (best: SetInfo)
    requires anc.Valid() && anc.g == g && anc.todo != {} && OldLeft(g, prev, chunking, anc.todo)
    ensures IsCandidate(g, anc.todo, best)
    ensures prev != [] ==> chunking.NumChunksLeft() > 0 && Gain(chunking.GetChunk(0).feerate, best.feerate) <= 0
  {
    best := anc.FindCandidateSet();
    chunking.HasChunk();
    if chunking.NumChunksLeft() > 0 {
      var prefix := chunking.GetChunk(0);
      FirstChunkFacts(g, prev, anc.todo);
      assert prefix == ChunkSets(g, Filter(prev, anc.todo))[0];
      hide SetRate, Gain, ChunkSets, Filter;
      GainSelf(prefix.feerate, best.feerate);
      GainSelf(prefix.feerate, prefix.feerate);
      if prefix.feerate.size != 0 && !Better(best.feerate, prefix.feerate) {
        best := prefix;
      }
    }
  }

  lemma StillAhead(c: FeeFrac, a: FeeFrac, b: FeeFrac)
    requires a.size > 0 && Gain(c, a) <= 0 && NoWorse(b, a)
    ensures Gain(c, b) <= 0
  {
    GainTransitive(c, a, b);
  }

  /** Steps that certainly suffice to find the best sets one after another when `n` transactions are left. */
  ghost function Need(n: nat): nat { n * n + 2 * Pow2(n) }

  lemma NeedPositive(n: nat)
    ensures Need(n) > 0
  {
  }

  lemma NeedStep(n: nat)
    requires n > 0
    ensures Need(n - 1) + (n + 3) / 4 + Pow2(n) - 1 <= Need(n) && (n + 3) / 4 + 2 * Pow2(n) - 1 <= Need(n)
  {
    assert (n - 1) * (n - 1) == n * n - 2 * n + 1;
    assert n * n >= n;
  }

  lemma {:induction false} NeedMono(m: nat, n: nat)
    requires m <= n
    ensures Need(m) <= Need(n)
  {
    hide Need;
    if m < n {
      NeedMono(m, n - 1);
      NeedStep(n);
    }
  }

  /** One round of bounded search, within half of the steps that are left. */
  method SearchRound(g: Graph, src: SearchCandidateFinder?, todo: set<nat>, start: SetInfo, left0: nat)
    returns (best: SetInfo, left: nat, exact: bool)
    requires g.PositiveSizes() && todo <= g.used && todo != {} && SearchLeft(g, src, todo)
             && IsCandidate(g, todo, start)
    ensures IsCandidate(g, todo, best) && left <= left0
    ensures NoWorse(best.feerate, start.feerate)
    ensures exact ==> Unbeaten(g, todo, best)
    ensures left0 - left + Need(|todo| - 1) <= Need(|todo|) && (src == null ==> left == left0)
    ensures src != null && left0 >= Need(|todo|) ==> exact
  {
    NeedStep(|todo|);
    hide Need, Pow2;
    best, left := start, left0;
    NoWorseReplace(start.feerate, start.feerate);
    var doneNow: nat, maxNow: nat := 0, 0;
    if src != null {
      var base := (|todo| + 3) / 4;
      if left > base {
        left := left - base;
        maxNow := (left + 1) / 2;
        best, doneNow := src.FindCandidateSet(maxNow, best);
        left := left - doneNow;
      }
    }
    exact := doneNow != maxNow;
  }

  /** The set to output next. */
  method NextSet(g: Graph, prev: seq<nat>, anc: AncestorCandidateFinder, src: SearchCandidateFinder?,
                 chunking: LinearizationChunking, left0: nat)
    returns (best: SetInfo, left: nat, exact: bool)
    requires Ready(g, prev, anc, src, chunking) && anc.todo != {}
    ensures IsCandidate(g, anc.todo, best) && left <= left0
    ensures exact ==> Unbeaten(g, anc.todo, best)
    ensures prev != [] ==> Gatherable(g, ChunkSets(g, Filter(prev, anc.todo)), best.transactions)
    ensures left0 - left + Need(|anc.todo| - 1) <= Need(|anc.todo|) && (src == null ==> left == left0)
    ensures src != null && left0 >= Need(|anc.todo|) ==> exact
  {
    hide Need;
    ghost var todo := anc.todo;
    var start := StartSet(g, prev, anc, chunking);
    best, left, exact := SearchRound(g, src, anc.todo, start, left0);
    SetRatePositive(g, start.transactions);
    SetRatePositive(g, best.transactions);
    if exact {
      if prev != [] {
        UnbeatenGatherable(g, todo, best, prev);
      }
    } else if chunking.NumChunksLeft() > 0 {
      chunking.HasChunk();
      ghost var s := best;
      StillAhead(chunking.GetChunk(0).feerate, start.feerate, best.feerate);
      best := chunking.IntersectPrefixes(best);
      IntersectedCandidate(g, prev, todo, s, best);
    }
  }

  /** Following any other linearization for what is left is still at least as good as it. */
  ghost predicate KeepsUpWithAll(g: Graph, out: seq<nat>, todo: set<nat>) {
    forall l {:trigger KeepsUp(g, out, todo, l)} :: IsLin(g, l, g.used) ==> KeepsUp(g, out, todo, l)
  }

  ghost predicate Progress(g: Graph, out: seq<nat>, todo: set<nat>, prev: seq<nat>, optimal: bool) {
    && PartialLin(g, out, todo)
    && (prev != [] ==> KeepsUp(g, out, todo, prev))
    && (optimal ==> KeepsUpWithAll(g, out, todo))
  }

  lemma ProgressStart(g: Graph, prev: seq<nat>)
    requires prev == [] || IsLin(g, prev, g.used)
    ensures Progress(g, [], g.used, prev, true)
  {
    forall l | IsLin(g, l, g.used)
      ensures KeepsUp(g, [], g.used, l)
    {
      KeepsUpStart(g, l);
    }
    assert g.used - g.used == {};
  }

  lemma ProgressStep(g: Graph, out: seq<nat>, todo: set<nat>, prev: seq<nat>, optimal: bool, best: SetInfo, exact: bool,
                     t: seq<nat>)
    requires g.PositiveSizes() && (prev == [] || IsLin(g, prev, g.used))
    requires Progress(g, out, todo, prev, optimal) && IsCandidate(g, todo, best) && IsLin(g, t, best.transactions)
    requires exact ==> Unbeaten(g, todo, best)
    requires prev != [] ==> Gatherable(g, ChunkSets(g, Filter(prev, todo)), best.transactions)
    ensures Progress(g, out + t, todo - best.transactions, prev, optimal && exact)
  {
    var s := best.transactions;
    hide Gatherable, ChunkSets, Filter, KeepsUp, Topological, Distinct, Unbeaten;
    PartialStep(g, out, todo, s, t);
    if prev != [] {
      KeepsUpStep(g, out, todo, prev, s, t);
    }
    if optimal && exact {
      forall l | IsLin(g, l, g.used)
        ensures KeepsUp(g, out + t, todo - s, l)
      {
        UnbeatenGatherable(g, todo, best, l);
        KeepsUpStep(g, out, todo, l, s, t);
      }
    }
  }

  lemma ProgressEnd(g: Graph, out: seq<nat>, prev: seq<nat>, optimal: bool)
    requires g.PositiveSizes() && (prev == [] || IsLin(g, prev, g.used)) && Progress(g, out, {}, prev, optimal)
    ensures IsLin(g, out, g.used) && (prev != [] ==> NowhereBelow(g, out, prev))
    ensures optimal ==> forall l :: IsLin(g, l, g.used) ==> NowhereBelow(g, out, l)
  {
    assert g.used - {} == g.used;
    hide NowhereBelow, KeepsUp;
    if prev != [] {
      KeepsUpEnd(g, out, prev);
    }
    if optimal {
      forall l | IsLin(g, l, g.used)
        ensures NowhereBelow(g, out, l)
      {
        KeepsUpEnd(g, out, l);
      }
    }
  }

  /** The steps charged for setting up the search. */
  function StartIterations(txCount: nat): nat { (txCount * txCount + 63) / 64 }

  /** The result is nowhere below the given linearization and, when `optimal` is returned, nowhere below any. */
  method Linearize(g: Graph, maxIterations: nat, prev: seq<nat>) returns (lin: seq<nat>, optimal: bool, steps: nat)
    requires g.Valid() && g.Acyclic() && g.PositiveSizes()
    requires prev == [] || IsLin(g, prev, g.used)
    ensures IsLin(g, lin, g.used) && steps <= maxIterations
    ensures prev != [] ==> NowhereBelow(g, lin, prev)
    ensures optimal ==> forall l :: IsLin(g, l, g.used) ==> NowhereBelow(g, lin, l)
    ensures maxIterations >= StartIterations(|g.used|) + Need(|g.used|) ==> optimal
    ensures g.used != {} && maxIterations > StartIterations(|g.used|) ==> steps >= StartIterations(|g.used|)
    ensures steps <= StartIterations(|g.used|) + Need(|g.used|)
  {
    if |g.used| == 0 {
      ProgressStart(g, prev);
      ProgressEnd(g, [], prev, true);
      return [], true, 0;
    }
    assert Distinct(prev) && Elems(prev) == if prev == [] then {} else g.used;
    hide NowhereBelow, Progress, Distinct, Elems, AncestorCandidateFinder.Valid, SearchCandidateFinder.Valid,
         LinearizationChunking.Valid;
    NeedPositive(|g.used|);
    hide Graph.Valid, Graph.Acyclic, Graph.PositiveSizes, IsLin, Need;
    var left: nat := maxIterations;
    var anc := new AncestorCandidateFinder(g);
    var src: SearchCandidateFinder? := null;
    var start := StartIterations(|g.used|);
    if left > start {
      left := left - start;
      src := new SearchCandidateFinder(g);
    }
    var chunking := new LinearizationChunking(g, prev);
    lin, optimal, left := Rounds(g, prev, anc, src, chunking, left);
    ProgressEnd(g, lin, prev, optimal);
    steps := maxIterations - left;
  }

  /** Output one set after another until nothing is left. */
  method Rounds(g: Graph, prev: seq<nat>, anc: AncestorCandidateFinder, src: SearchCandidateFinder?,
                chunking: LinearizationChunking, left0: nat)
    returns (lin: seq<nat>, optimal: bool, left: nat)
    requires g.Valid() && g.Acyclic() && g.PositiveSizes() && (prev == [] || IsLin(g, prev, g.used))
    requires Ready(g, prev, anc, src, chunking) && anc.todo == g.used != {}
    modifies anc, src, chunking
    ensures Progress(g, lin, {}, prev, optimal) && left <= left0
    ensures left0 - left <= Need(|g.used|) && (src == null ==> left == left0)
    ensures src != null && left0 >= Need(|g.used|) ==> optimal
  {
    ProgressStart(g, prev);
    lin, optimal, left := [], true, left0;
    assert Budget(src != null, left0, left, anc.todo, g.used, optimal);
    hide Progress, IsLin, Unbeaten, IsCandidate, Gatherable, ChunkSets, Filter, Ready, Graph.Valid, Graph.Acyclic,
         Graph.PositiveSizes, Need, Budget;
    while true
      invariant Ready(g, prev, anc, src, chunking) && anc.todo != {}
      invariant Budget(src != null, left0, left, anc.todo, g.used, optimal)
      invariant Progress(g, lin, anc.todo, prev, optimal) && left <= left0
      decreases anc.todo
      modifies anc, src, chunking
    {
      var best, exact;
      ghost var before0, was := left, optimal;
      best, left, exact := NextSet(g, prev, anc, src, chunking, left);
      ghost var before, todo, t := lin, anc.todo, [];
      CandidateFacts(g, prev, anc, src, chunking, best);
      lin, t := AppendTopo(g, lin, best.transactions);
      ProgressStep(g, before, todo, prev, optimal, best, exact, t);
      optimal := optimal && exact;
      MarkAllDone(g, prev, anc, src, chunking, best.transactions);
      BudgetStep(src != null, left0, before0, left, todo, best.transactions, g.used, was, exact);
      if anc.todo == {} {
        BudgetEnd(src != null, left0, left, anc.todo, g.used, optimal);
        break;
      }
    }
  }

  lemma BudgetEnd(searching: bool, left0: nat, left: nat, todo: set<nat>, all: set<nat>, optimal: bool)
    requires Budget(searching, left0, left, todo, all, optimal)
    ensures left <= left0 && left0 - left <= Need(|all|)
    ensures (!searching ==> left == left0) && (searching && left0 >= Need(|all|) ==> optimal)
  {
  }

  /** What has been spent when `todo` is left of `all`; with enough steps nothing has been missed. */
  ghost predicate Budget(searching: bool, left0: nat, left: nat, todo: set<nat>, all: set<nat>, optimal: bool) {
    && left <= left0 && left0 - left + Need(|todo|) <= Need(|all|)
    && (!searching ==> left == left0) && (searching && left0 >= Need(|all|) ==> optimal)
  }

  lemma BudgetStep(searching: bool, left0: nat, before: nat, left: nat, todo: set<nat>, s: set<nat>, all: set<nat>,
                   optimal: bool, exact: bool)
    requires Budget(searching, left0, before, todo, all, optimal) && s != {} && s <= todo && left <= before
    requires before - left + Need(|todo| - 1) <= Need(|todo|) && (!searching ==> left == before)
    requires searching && before >= Need(|todo|) ==> exact
    ensures Budget(searching, left0, left, todo - s, all, optimal && exact)
  {
    hide Need;
    assert todo == s + (todo - s);
    NeedMono(|todo - s|, |todo| - 1);
  }

  lemma CandidateFacts(g: Graph, prev: seq<nat>, anc: AncestorCandidateFinder, src: SearchCandidateFinder?,
                       chunking: LinearizationChunking, c: SetInfo)
    requires Ready(g, prev, anc, src, chunking) && IsCandidate(g, anc.todo, c)
    ensures c.transactions != {} && c.transactions <= anc.todo <= g.used
  {
  }
}
