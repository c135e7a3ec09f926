// SearchCandidateFinder::FindCandidateSet on the graph sorted by feerate (src/cluster_linearize.h).
module Searching {
  import opened FeeFracs
  import opened IndexSets
  import opened DepGraphs
  import opened Linearizations
  import opened Chunking
  import opened SearchBounds

  /** A node of the search: definitely included transactions, undecided ones, and an upper bound on
      the feerate reachable from here (empty exactly when `inc` is). */
  datatype WorkItem = WorkItem(inc: SetInfo, und: set<nat>, pot: FeeFrac)

  /** The graph a search runs on, and what remains of it. */
  ghost predicate Searchable(s: Graph, todo: set<nat>) {
    s.Valid() && s.PositiveSizes() && SortedByRate(s) && todo <= s.used
  }

  /** A non-empty closed set with its feerate. */
  ghost predicate IsCandidate(s: Graph, todo: set<nat>, c: SetInfo) {
    c.transactions != {} && Closed(s, todo, c.transactions) && c.feerate == SetRate(s, c.transactions)
  }

  /** Included and undecided transactions fit together. */
  ghost predicate Shape(s: Graph, todo: set<nat>, inc: SetInfo, und: set<nat>) {
    && inc.transactions <= todo && und <= todo && inc.transactions !! und
    && inc.feerate == SetRate(s, inc.transactions)
    && Closed(s, todo, inc.transactions) && Closed(s, todo, inc.transactions + und)
  }

  /** Every compatible set is bounded by `pot` or by `best`. */
  ghost predicate Bounded(s: Graph, inc: set<nat>, und: set<nat>, pot: FeeFrac, best: FeeFrac) {
    forall x {:trigger Compatible(inc, und, x)} :: Compatible(inc, und, x) ==>
      Gain(SetRate(s, x), pot) <= 0 || Gain(SetRate(s, x), best) <= 0
  }

  ghost predicate ItemOk(s: Graph, todo: set<nat>, best: FeeFrac, it: WorkItem) {
    && Shape(s, todo, it.inc, it.und) && it.und != {}
    && (it.pot.size == 0 <==> it.inc.feerate.size == 0)
    && (it.inc.transactions != {} ==>
          Gain(it.inc.feerate, best) <= 0 && Bounded(s, it.inc.transactions, it.und, it.pot, best))
  }

  /** `y` is a closed set better than `best`. */
  ghost predicate Beats(s: Graph, todo: set<nat>, best: FeeFrac, y: set<nat>) {
    y != {} && Closed(s, todo, y) && Gain(SetRate(s, y), best) > 0
  }

  /** Some closed set compatible with (inc, und) is at least as good as `y`. */
  ghost predicate Holds(s: Graph, todo: set<nat>, inc: set<nat>, und: set<nat>, y: set<nat>) {
    exists x :: Compatible(inc, und, x) && x != {} && Closed(s, todo, x) && Gain(SetRate(s, x), SetRate(s, y)) >= 0
  }

  ghost predicate InQueue(s: Graph, todo: set<nat>, queue: seq<WorkItem>, y: set<nat>) {
    exists k :: 0 <= k < |queue| && Holds(s, todo, queue[k].inc.transactions, queue[k].und, y)
  }

  // ----- the potential set of a new item

  ghost predicate PotentialSoFar(s: Graph, inc: set<nat>, cand: set<nat>, rest: set<nat>, pot: SetInfo) {
    && rest <= cand && inc !! cand
    && pot.transactions == inc + (cand - rest) && pot.feerate == SetRate(s, pot.transactions)
    && (forall a, b :: a in cand - rest && b in rest ==> a < b)
    && (forall a :: a in cand - rest ==> Gain(s.Rate(a), pot.feerate) > 0)
  }

  lemma PotentialStep(s: Graph, inc: set<nat>, cand: set<nat>, rest: set<nat>, pot: SetInfo, p: nat)
    requires s.PositiveSizes() && SortedByRate(s) && inc <= s.used && cand <= s.used && inc != {}
    requires PotentialSoFar(s, inc, cand, rest, pot) && p in rest && (forall b :: b in rest ==> p <= b)
    ensures Higher(s.Rate(p), pot.feerate) ==>
              PotentialSoFar(s, inc, cand, rest - {p}, SetInfo(pot.transactions + {p}, Plus(pot.feerate, s.Rate(p))))
    ensures !Higher(s.Rate(p), pot.feerate) ==> IsPotential(s, inc, cand, pot)
  {
    hide Gain, SetRate;
    var f := s.Rate(p);
    if Higher(f, pot.feerate) {
      var next := Plus(pot.feerate, f);
      SetRateRemove(s, pot.transactions + {p}, p);
      assert pot.transactions + {p} - {p} == pot.transactions;
      PlusAssoc(f, pot.feerate, EMPTY);
      PlusAssoc(pot.feerate, f, EMPTY);
      GainPlus(pot.feerate, f, f);
      GainSelf(f, f);
      GainSelf(f, pot.feerate);
      GainSelf(f, next);
      assert cand - (rest - {p}) == (cand - rest) + {p};
      forall a | a in (cand - rest) + {p}
        ensures Gain(s.Rate(a), next) > 0
      {
        if a != p {
          assert Gain(f, s.Rate(a)) <= 0;
          GainTransitive(next, f, s.Rate(a));
          GainSelf(s.Rate(a), next);
        }
      }
    } else {
      forall x | x in cand - pot.transactions
        ensures Gain(s.Rate(x), pot.feerate) <= 0
      {
        if x != p {
          assert x in rest;
          assert Gain(s.Rate(x), f) <= 0;
          GainTransitive(s.Rate(x), f, pot.feerate);
        }
      }
    }
  }

  /** Add the best improving undecided transactions, ignoring topology, while they improve. */
  method FindPotential(s: Graph, inc: SetInfo, cand: set<nat>) returns (pot: SetInfo)
    requires s.PositiveSizes() && SortedByRate(s) && inc.transactions <= s.used && cand <= s.used
    requires inc.transactions != {} && inc.transactions !! cand
    requires inc.feerate == SetRate(s, inc.transactions)
    ensures IsPotential(s, inc.transactions, cand, pot)
  {
    pot := inc;
    var rest := cand;
    assert cand - rest == {} && inc.transactions + {} == inc.transactions;
    while rest != {}
      invariant PotentialSoFar(s, inc.transactions, cand, rest, pot)
      decreases rest
    {
      hide PotentialSoFar, IsPotential, Gain;
      var pos := First(rest);
      PotentialStep(s, inc.transactions, cand, rest, pot, pos);
      if !Higher(s.Rate(pos), pot.feerate) {
        return;
      }
      pot := SetInfo(pot.transactions + {pos}, Plus(pot.feerate, s.Rate(pos)));
      rest := rest - {pos};
    }
  }

  // ----- jumping ahead

  /** Include every potential transaction whose remaining ancestors are all potential. */
  method Jump(s: Graph, todo: set<nat>, inc: set<nat>, pot: set<nat>) returns (r: set<nat>)
    requires s.Valid() && todo <= s.used && inc <= pot <= todo && Closed(s, todo, inc)
    ensures inc <= r <= pot && Closed(s, todo, r)
  {
    r := inc;
    var rest := pot - inc;
    while rest != {}
      invariant rest <= pot && inc <= r <= pot && Closed(s, todo, r)
      decreases rest
    {
      var pos := First(rest);
      rest := rest - {pos};
      var ancTodo := s.Anc(pos) * todo;
      AncestorsClosed(s, todo, pos);
      if ancTodo <= pot {
        ClosedUnion(s, todo, r, ancTodo);
        r := r + ancTodo;
      }
    }
  }

  // ----- improving transactions

  /** Drop from the back what is not better than best. */
  method TrimImproving(s: Graph, todo: set<nat>, imp: set<nat>, best: FeeFrac) returns (r: set<nat>)
    requires s.PositiveSizes() && SortedByRate(s) && todo <= s.used && imp <= todo && best.size > 0
    requires forall x :: x in todo - imp ==> Gain(s.Rate(x), best) <= 0
    ensures r == Improving(s, todo, best)
  {
    r := imp;
    while r != {}
      invariant r <= todo && forall x :: x in todo - r ==> Gain(s.Rate(x), best) <= 0
      decreases r
    {
      var check := Last(r);
      if Higher(s.Rate(check), best) {
        forall x | x in r
          ensures Gain(s.Rate(x), best) > 0
        {
          if x != check {
            StillImproving(s, check, x, best);
          }
        }
        return;
      }
      r := r - {check};
    }
  }

  lemma StillImproving(s: Graph, check: nat, x: nat, best: FeeFrac)
    requires s.PositiveSizes() && SortedByRate(s) && check in s.used && x in s.used && x < check
    requires Gain(s.Rate(check), best) > 0 && best.size > 0
    ensures Gain(s.Rate(x), best) > 0
  {
    hide Gain;
    assert Gain(s.Rate(check), s.Rate(x)) <= 0;
    GainSelf(s.Rate(check), best);
    GainSelf(s.Rate(x), best);
    GainTransitive(best, s.Rate(check), s.Rate(x));
  }

  // ----- adding an item to the queue

  /** `b` is at least as good as `a`. */
  ghost predicate NoWorse(b: FeeFrac, a: FeeFrac) {
    Gain(a, b) <= 0 && !Better(a, b)
  }

  /** Everything the search knows besides the queue. */
  ghost predicate BestOk(s: Graph, todo: set<nat>, best: SetInfo, imp: set<nat>) {
    IsCandidate(s, todo, best) && best.feerate.size > 0 && imp == Improving(s, todo, best.feerate)
  }

  /** The new items keep whatever (inc, und) could still contribute. */
  ghost predicate Keeps(s: Graph, todo: set<nat>, best: FeeFrac, inc: set<nat>, und: set<nat>, added: seq<WorkItem>) {
    forall y {:trigger Holds(s, todo, inc, und, y)} ::
      Beats(s, todo, best, y) && Holds(s, todo, inc, und, y) ==> InQueue(s, todo, added, y)
  }

  lemma HoldsSingle(s: Graph, todo: set<nat>, it: WorkItem, y: set<nat>)
    requires Holds(s, todo, it.inc.transactions, it.und, y)
    ensures InQueue(s, todo, [it], y)
  {
    assert [it][0] == it;
  }

  /** Jumping ahead and pruning lose nothing that beats the updated best. */
  lemma JumpKeeps(s: Graph, todo: set<nat>, best: FeeFrac, best': FeeFrac, inc: set<nat>, und: set<nat>,
                  pot: SetInfo, inc': set<nat>, y: set<nat>)
    requires s.PositiveSizes() && todo <= s.used && inc <= todo && und <= todo && inc !! und && inc != {}
    requires best.size > 0 && best'.size > 0 && Gain(best, best') <= 0
    requires IsPotential(s, inc, Improving(s, todo, best) * und, pot) && pot.feerate.size > 0
    requires inc <= inc' <= pot.transactions && Closed(s, todo, inc')
    requires Beats(s, todo, best', y) && Holds(s, todo, inc, und, y)
    ensures Holds(s, todo, inc', und - inc', y)
    ensures Gain(best', pot.feerate) < 0
  {
    var x :| Compatible(inc, und, x) && x != {} && Closed(s, todo, x) && Gain(SetRate(s, x), SetRate(s, y)) >= 0;
    var ry, rx, z := SetRate(s, y), SetRate(s, x), x + inc';
    SetRatePositive(s, y);
    SetRatePositive(s, x);
    PotentialBound(s, todo, best, inc, und, pot, x);
    hide Gain, SetRate;
    GainSelf(ry, best');
    GainSelf(rx, ry);
    GainSelf(rx, best');
    // best <= best' < y <= x, so x is bounded by the potential set
    GainTransitive(best', ry, rx);
    GainSelf(rx, best);
    GainTransitive(best, best', rx);
    GainTransitive(best', rx, pot.feerate);
    JumpAhead(s, inc, Improving(s, todo, best) * und, pot, x, inc');
    ClosedUnion(s, todo, x, inc');
    SetRatePositive(s, z);
    GainSelf(SetRate(s, z), rx);
    GainTransitive(ry, rx, SetRate(s, z));
    GainSelf(SetRate(s, z), ry);
    assert Compatible(inc', und - inc', z);
  }

  /** The pushed item is in order. */
  lemma PushedOk(s: Graph, todo: set<nat>, best: FeeFrac, best': FeeFrac, inc: set<nat>, und: set<nat>,
                 pot: SetInfo, it: WorkItem)
    requires Searchable(s, todo) && inc <= todo && und <= todo && inc !! und && inc != {}
    requires Closed(s, todo, inc + und) && best.size > 0 && best'.size > 0 && Gain(best, best') <= 0
    requires IsPotential(s, inc, Improving(s, todo, best) * und, pot)
    requires inc <= it.inc.transactions <= pot.transactions && Closed(s, todo, it.inc.transactions)
    requires it.inc.feerate == SetRate(s, it.inc.transactions) && it.und == und - it.inc.transactions
    requires it.pot == pot.feerate && it.und != {} && Gain(it.inc.feerate, best') <= 0
    ensures ItemOk(s, todo, best', it)
  {
    var i := it.inc.transactions;
    SetRatePositive(s, i);
    SetRatePositive(s, pot.transactions);
    assert i + it.und == inc + und;
    forall x | Compatible(i, it.und, x)
      ensures Gain(SetRate(s, x), it.pot) <= 0 || Gain(SetRate(s, x), best') <= 0
    {
      assert Compatible(inc, und, x);
      PotentialBound(s, todo, best, inc, und, pot, x);
      if Gain(SetRate(s, x), best) <= 0 {
        GainTransitive(SetRate(s, x), best, best');
      }
    }
  }

  lemma SizeTellsEmpty(s: Graph, a: set<nat>)
    requires s.PositiveSizes() && a <= s.used
    ensures SetRate(s, a).size == 0 <==> a == {}
  {
    if a != {} {
      SetRatePositive(s, a);
    }
  }

  /** Equal sizes of nested sets mean equal sets. */
  lemma {:induction false} SameSize(s: Graph, a: set<nat>, b: set<nat>)
    requires s.PositiveSizes() && a <= b <= s.used && SetRate(s, a).size == SetRate(s, b).size
    ensures a == b
  {
    assert b * a == a && b == a + (b - a);
    hide SetRate;
    SetRateSplit(s, b, a);
    SizeTellsEmpty(s, b - a);
  }

  lemma NoWorseReplace(a: FeeFrac, b: FeeFrac)
    ensures Better(b, a) ==> NoWorse(b, a)
    ensures !Better(b, a) ==> Gain(b, a) <= 0
    ensures NoWorse(a, a)
  {
    hide Gain;
    GainSelf(a, b);
    GainSelf(a, a);
  }

  lemma StillNotImproving(s: Graph, todo: set<nat>, best: FeeFrac, best': FeeFrac)
    requires best.size > 0 && Gain(best, best') <= 0
    ensures forall x :: x in todo - Improving(s, todo, best) ==> Gain(s.Rate(x), best') <= 0
  {
    forall x | x in todo - Improving(s, todo, best)
      ensures Gain(s.Rate(x), best') <= 0
    {
      GainTransitive(s.Rate(x), best, best');
    }
  }

  /** What the potential set and the jump establish, and how best may move. */
  ghost predicate Extended(s: Graph, todo: set<nat>, best: FeeFrac, best': FeeFrac, inc: set<nat>, und: set<nat>,
                           pot: SetInfo, inc': SetInfo) {
    && inc <= todo && und <= todo && inc !! und && inc != {} && Closed(s, todo, inc + und)
    && best.size > 0 && best'.size > 0 && Gain(best, best') <= 0
    && IsPotential(s, inc, Improving(s, todo, best) * und, pot)
    && inc <= inc'.transactions <= pot.transactions && Closed(s, todo, inc'.transactions)
    && inc'.feerate == SetRate(s, inc'.transactions) && Gain(inc'.feerate, best') <= 0
  }

  /** If nothing potential is left beyond the included, the item could not beat best. */
  lemma KeepsDropped(s: Graph, todo: set<nat>, best: FeeFrac, best': FeeFrac, inc: set<nat>, und: set<nat>,
                     pot: SetInfo, inc': SetInfo)
    requires Searchable(s, todo) && Extended(s, todo, best, best', inc, und, pot, inc')
    requires pot.feerate.size == inc'.feerate.size
    ensures Keeps(s, todo, best', inc, und, [])
  {
    SetRatePositive(s, pot.transactions);
    SameSize(s, inc'.transactions, pot.transactions);
    GainSelf(inc'.feerate, best');
    forall y | Holds(s, todo, inc, und, y)
      ensures !Beats(s, todo, best', y)
    {
      if Beats(s, todo, best', y) {
        JumpKeeps(s, todo, best, best', inc, und, pot, inc'.transactions, y);
      }
    }
  }

  lemma LeftUndecided(inc: set<nat>, und: set<nat>, pot: set<nat>, inc': set<nat>)
    requires inc <= inc' <= pot <= inc + und && pot != inc'
    ensures und - inc' != {}
  {
    assert pot == inc' + (pot - inc');
    var e :| e in pot - inc';
    assert e in und - inc';
  }

  lemma KeepsPushed(s: Graph, todo: set<nat>, best: FeeFrac, best': FeeFrac, inc: set<nat>, und: set<nat>, pot: SetInfo,
                    inc': SetInfo)
    requires Searchable(s, todo) && Extended(s, todo, best, best', inc, und, pot, inc')
    requires pot.feerate.size != inc'.feerate.size
    ensures var it := WorkItem(inc', und - inc'.transactions, pot.feerate);
            ItemOk(s, todo, best', it) && Keeps(s, todo, best', inc, und, [it])
  {
    var it := WorkItem(inc', und - inc'.transactions, pot.feerate);
    SetRatePositive(s, pot.transactions);
    LeftUndecided(inc, und, pot.transactions, inc'.transactions);
    hide Gain, SetRate, IsPotential, Closed, Improving;
    PushedOk(s, todo, best, best', inc, und, pot, it);
    forall y | Beats(s, todo, best', y) && Holds(s, todo, inc, und, y)
      ensures InQueue(s, todo, [it], y)
    {
      JumpKeeps(s, todo, best, best', inc, und, pot, inc'.transactions, y);
      HoldsSingle(s, todo, it, y);
    }
  }

  lemma KeepsUndecided(s: Graph, todo: set<nat>, best: FeeFrac, inc: SetInfo, und: set<nat>)
    requires Searchable(s, todo) && Shape(s, todo, inc, und) && inc.transactions == {}
    ensures und == {} ==> Keeps(s, todo, best, inc.transactions, und, [])
    ensures und != {} ==> var it := WorkItem(inc, und, inc.feerate);
                          ItemOk(s, todo, best, it) && Keeps(s, todo, best, inc.transactions, und, [it])
  {
    forall y | Holds(s, todo, inc.transactions, und, y) && und != {}
      ensures InQueue(s, todo, [WorkItem(inc, und, inc.feerate)], y)
    {
      HoldsSingle(s, todo, WorkItem(inc, und, inc.feerate), y);
    }
  }

  /** Improve a new work item, update best, and return it unless it cannot beat best. */
  method AddItem(s: Graph, todo: set<nat>, inc0: SetInfo, und0: set<nat>, best0: SetInfo, imp0: set<nat>)
    returns (added: seq<WorkItem>, best: SetInfo, imp: set<nat>)
    requires Searchable(s, todo) && Shape(s, todo, inc0, und0) && BestOk(s, todo, best0, imp0)
    ensures BestOk(s, todo, best, imp) && NoWorse(best.feerate, best0.feerate)
    ensures Child(s, todo, best.feerate, und0, added)
    ensures Keeps(s, todo, best.feerate, inc0.transactions, und0, added)
  {
    best, imp, added := best0, imp0, [];
    SizeTellsEmpty(s, inc0.transactions);
    NoWorseReplace(best0.feerate, best0.feerate);
    if inc0.feerate.size != 0 {
      var pot := FindPotential(s, inc0, imp0 * und0);
      var incTx := Jump(s, todo, inc0.transactions, pot.transactions);
      var und := und0 - incTx;
      var sum := FeeRateOf(s, incTx - inc0.transactions);
      assert incTx * inc0.transactions == inc0.transactions;
      SetRateSplit(s, incTx, inc0.transactions);
      var inc := SetInfo(incTx, Plus(inc0.feerate, sum));
      SetRatePositive(s, incTx);
      hide Gain, SetRate, IsPotential, Keeps, ItemOk, Closed, Improving;
      NoWorseReplace(best0.feerate, inc.feerate);
      if Better(inc.feerate, best.feerate) {
        best := inc;
        StillNotImproving(s, todo, best0.feerate, best.feerate);
        GainSelf(inc.feerate, inc.feerate);
        ImprovingWithin(s, todo, best0.feerate);
        imp := TrimImproving(s, todo, imp, best.feerate);
      }
      assert Extended(s, todo, best0.feerate, best.feerate, inc0.transactions, und0, pot, inc);
      // No potential beyond what is included: no improvement is possible.
      if pot.feerate.size == inc.feerate.size {
        KeepsDropped(s, todo, best0.feerate, best.feerate, inc0.transactions, und0, pot, inc);
        return;
      }
      KeepsPushed(s, todo, best0.feerate, best.feerate, inc0.transactions, und0, pot, inc);
      added := [WorkItem(inc, und, pot.feerate)];
    } else {
      KeepsUndecided(s, todo, best.feerate, inc0, und0);
      if und0 == {} {
        return;
      }
      added := [WorkItem(inc0, und0, inc0.feerate)];
    }
  }

  lemma ImprovingWithin(s: Graph, todo: set<nat>, best: FeeFrac)
    ensures Improving(s, todo, best) <= todo
  {
  }

  // ----- best only improves

  lemma NoWorseTransitive(a: FeeFrac, b: FeeFrac, c: FeeFrac)
    requires a.size > 0 && b.size > 0 && c.size > 0 && NoWorse(b, a) && NoWorse(c, b)
    ensures NoWorse(c, a)
  {
    hide Gain;
    GainSelf(a, b);
    GainSelf(b, c);
    GainSelf(a, c);
    GainTransitive(a, b, c);
  }

  lemma ItemOkMono(s: Graph, todo: set<nat>, best: FeeFrac, best': FeeFrac, it: WorkItem)
    requires ItemOk(s, todo, best, it) && best.size > 0 && Gain(best, best') <= 0
    ensures ItemOk(s, todo, best', it)
  {
    if it.inc.transactions != {} {
      GainTransitive(it.inc.feerate, best, best');
      forall x | Compatible(it.inc.transactions, it.und, x)
        ensures Gain(SetRate(s, x), it.pot) <= 0 || Gain(SetRate(s, x), best') <= 0
      {
        if Gain(SetRate(s, x), best) <= 0 {
          GainTransitive(SetRate(s, x), best, best');
        }
      }
    }
  }

  lemma BeatsMono(s: Graph, todo: set<nat>, best: FeeFrac, best': FeeFrac, y: set<nat>)
    requires Beats(s, todo, best', y) && best.size > 0 && best'.size > 0 && Gain(best, best') <= 0
    ensures Beats(s, todo, best, y)
  {
    hide Gain, SetRate;
    GainSelf(SetRate(s, y), best');
    GainSelf(SetRate(s, y), best);
    GainTransitive(best, best', SetRate(s, y));
  }

  lemma KeepsMono(s: Graph, todo: set<nat>, best: FeeFrac, best': FeeFrac, inc: set<nat>, und: set<nat>,
                  added: seq<WorkItem>)
    requires Keeps(s, todo, best, inc, und, added) && best.size > 0 && best'.size > 0 && Gain(best, best') <= 0
    ensures Keeps(s, todo, best', inc, und, added)
  {
    forall y | Beats(s, todo, best', y) && Holds(s, todo, inc, und, y)
      ensures InQueue(s, todo, added, y)
    {
      BeatsMono(s, todo, best, best', y);
    }
  }

  // ----- pruning

  /** An item none of whose compatible sets beats best can be dropped. */
  lemma NothingBeats(s: Graph, todo: set<nat>, best: FeeFrac, inc: set<nat>, und: set<nat>)
    requires s.PositiveSizes() && todo <= s.used
    requires forall x {:trigger Compatible(inc, und, x)} :: Compatible(inc, und, x) && x != {} ==>
                Gain(SetRate(s, x), best) <= 0
    ensures Keeps(s, todo, best, inc, und, [])
  {
    forall y | y <= todo && Holds(s, todo, inc, und, y)
      ensures !Beats(s, todo, best, y)
    {
      var x :| Compatible(inc, und, x) && x != {} && Closed(s, todo, x) && Gain(SetRate(s, x), SetRate(s, y)) >= 0;
      SetRatePositive(s, x);
      GainSelf(SetRate(s, x), SetRate(s, y));
      GainTransitive(SetRate(s, y), SetRate(s, x), best);
    }
  }

  lemma PruneNoImproving(s: Graph, todo: set<nat>, best: FeeFrac, it: WorkItem)
    requires Searchable(s, todo) && ItemOk(s, todo, best, it) && it.inc.transactions != {}
    requires it.und !! Improving(s, todo, best)
    ensures Keeps(s, todo, best, it.inc.transactions, it.und, [])
  {
    var inc := it.inc.transactions;
    forall x | Compatible(inc, it.und, x) && x != {}
      ensures Gain(SetRate(s, x), best) <= 0
    {
      forall b | b in x - inc
        ensures Gain(s.Rate(b), best) <= 0
      {
        assert b in it.und;
      }
      KeepAndAdd(s, inc, inc, x, best);
    }
    NothingBeats(s, todo, best, inc, it.und);
  }

  lemma PrunePotential(s: Graph, todo: set<nat>, best: FeeFrac, it: WorkItem)
    requires Searchable(s, todo) && ItemOk(s, todo, best, it) && it.inc.transactions != {}
    requires !Better(it.pot, best)
    ensures Keeps(s, todo, best, it.inc.transactions, it.und, [])
  {
    var inc := it.inc.transactions;
    SizeTellsEmpty(s, inc);
    forall x | Compatible(inc, it.und, x) && x != {}
      ensures Gain(SetRate(s, x), best) <= 0
    {
      if Gain(SetRate(s, x), it.pot) <= 0 {
        GainTransitive(SetRate(s, x), it.pot, best);
      }
    }
    NothingBeats(s, todo, best, inc, it.und);
  }

  lemma PruneFirst(s: Graph, todo: set<nat>, best: FeeFrac, it: WorkItem, first: nat)
    requires Searchable(s, todo) && ItemOk(s, todo, best, it) && it.inc.transactions == {}
    requires first in it.und && (forall x :: x in it.und ==> first <= x) && !Better(s.Rate(first), best)
    ensures Keeps(s, todo, best, it.inc.transactions, it.und, [])
  {
    forall x | Compatible({}, it.und, x) && x != {}
      ensures Gain(SetRate(s, x), best) <= 0
    {
      forall b | b in x
        ensures Gain(s.Rate(b), best) <= 0
      {
        if b != first {
          assert Gain(s.Rate(b), s.Rate(first)) <= 0;
          GainTransitive(s.Rate(b), s.Rate(first), best);
        }
      }
      SetGainNonPositive(s, x, best);
    }
    NothingBeats(s, todo, best, {}, it.und);
  }

  // ----- splitting

  /** Both children together keep whatever their parent could contribute. */
  lemma SplitKeeps(s: Graph, todo: set<nat>, best: FeeFrac, inc: set<nat>, und: set<nat>, t: nat,
                   without: seq<WorkItem>, included: seq<WorkItem>)
    requires s.Valid() && todo <= s.used && t in und && t in todo && inc !! und
    requires Keeps(s, todo, best, inc, und - s.Desc(t), without)
    requires Keeps(s, todo, best, inc + s.Anc(t) * todo, und - s.Anc(t) * todo, included)
    ensures Keeps(s, todo, best, inc, und, without + included)
  {
    var anc := s.Anc(t) * todo;
    forall y | Beats(s, todo, best, y) && Holds(s, todo, inc, und, y)
      ensures InQueue(s, todo, without + included, y)
    {
      var x :| Compatible(inc, und, x) && x != {} && Closed(s, todo, x) && Gain(SetRate(s, x), SetRate(s, y)) >= 0;
      SplitCases(s, todo, t, x);
      if t in x {
        assert Compatible(inc + anc, und - anc, x);
        assert Holds(s, todo, inc + anc, und - anc, y);
      } else {
        assert Compatible(inc, und - s.Desc(t), x);
        assert Holds(s, todo, inc, und - s.Desc(t), y);
      }
      InQueueConcat(s, todo, without, included, y);
    }
  }

  lemma InQueueConcat(s: Graph, todo: set<nat>, a: seq<WorkItem>, b: seq<WorkItem>, y: set<nat>)
    ensures InQueue(s, todo, a + b, y) <==> InQueue(s, todo, a, y) || InQueue(s, todo, b, y)
  {
    var ab := a + b;
    if InQueue(s, todo, a, y) {
      var k :| 0 <= k < |a| && Holds(s, todo, a[k].inc.transactions, a[k].und, y);
      assert ab[k] == a[k];
    }
    if InQueue(s, todo, b, y) {
      var k :| 0 <= k < |b| && Holds(s, todo, b[k].inc.transactions, b[k].und, y);
      assert ab[|a| + k] == b[k];
    }
    if InQueue(s, todo, ab, y) {
      var k :| 0 <= k < |ab| && Holds(s, todo, ab[k].inc.transactions, ab[k].und, y);
      assert ab[k] == if k < |a| then a[k] else b[k - |a|];
    }
  }

  /** How many undecided transactions remain after including and after excluding `t`, larger first. */
  function SplitCounts(s: Graph, und: set<nat>, t: nat): (nat, nat) {
    var i, e := |und - s.Anc(t)|, |und - s.Desc(t)|;
    if i < e then (e, i) else (i, e)
  }

  predicate FewerCounts(a: (nat, nat), b: (nat, nat)) {
    a.0 < b.0 || (a.0 == b.0 && a.1 < b.1)
  }

  /** The undecided ancestor of the best undecided transaction that shrinks the search space most,
      the one of highest individual feerate among several. */
  method ChooseSplit(s: Graph, und: set<nat>, first: nat) returns (split: nat)
    requires first in und && first in s.Anc(first)
    ensures split in und && split in s.Anc(first)
    ensures forall t :: t in und * s.Anc(first) ==> !FewerCounts(SplitCounts(s, und, t), SplitCounts(s, und, split))
    ensures forall t :: t in und * s.Anc(first) && t < split ==>
                FewerCounts(SplitCounts(s, und, split), SplitCounts(s, und, t))
  {
    hide SplitCounts;
    var select := und * s.Anc(first);
    assert first in select;
    split := First(select);
    var rest := select - {split};
    while rest != {}
      invariant rest <= select && split in select - rest
      invariant forall a, b :: a in select - rest && b in rest ==> a < b
      invariant forall t :: t in select - rest ==> !FewerCounts(SplitCounts(s, und, t), SplitCounts(s, und, split))
      invariant forall t :: t in select - rest && t < split ==>
                  FewerCounts(SplitCounts(s, und, split), SplitCounts(s, und, t))
      decreases rest
    {
      var t := First(rest);
      assert select - (rest - {t}) == (select - rest) + {t};
      rest := rest - {t};
      if FewerCounts(SplitCounts(s, und, t), SplitCounts(s, und, split)) {
        split := t;
      }
    }
  }

  ghost predicate AllOk(s: Graph, todo: set<nat>, best: FeeFrac, items: seq<WorkItem>) {
    forall k {:trigger items[k]} :: 0 <= k < |items| ==> ItemOk(s, todo, best, items[k])
  }

  ghost predicate AllSmaller(items: seq<WorkItem>, n: nat) {
    forall k {:trigger items[k]} :: 0 <= k < |items| ==> |items[k].und| < n
  }

  /** What processing one work item leaves: new items and the best set so far. */
  ghost predicate Processed(s: Graph, todo: set<nat>, it: WorkItem, best0: FeeFrac, best: FeeFrac,
                            added: seq<WorkItem>) {
    && NoWorse(best, best0) && |added| <= 2
    && AllOk(s, todo, best, added) && AllSmaller(added, |it.und|)
    && Keeps(s, todo, best, it.inc.transactions, it.und, added)
  }

  lemma AllOkMono(s: Graph, todo: set<nat>, best: FeeFrac, best': FeeFrac, items: seq<WorkItem>)
    requires AllOk(s, todo, best, items) && best.size > 0 && NoWorse(best', best)
    ensures AllOk(s, todo, best', items)
  {
    forall k | 0 <= k < |items|
      ensures ItemOk(s, todo, best', items[k])
    {
      ItemOkMono(s, todo, best, best', items[k]);
    }
  }

  lemma AllOkConcat(s: Graph, todo: set<nat>, best: FeeFrac, a: seq<WorkItem>, b: seq<WorkItem>)
    requires AllOk(s, todo, best, a) && AllOk(s, todo, best, b)
    ensures AllOk(s, todo, best, a + b)
  {
    hide ItemOk;
  }

  /** The at most one item queued for one side of a split. */
  ghost predicate Child(s: Graph, todo: set<nat>, best: FeeFrac, und: set<nat>, added: seq<WorkItem>) {
    |added| <= 1 && (|added| == 1 ==> ItemOk(s, todo, best, added[0]) && added[0].und <= und)
  }

  lemma ChildSmaller(s: Graph, todo: set<nat>, best: FeeFrac, und: set<nat>, added: seq<WorkItem>, all: set<nat>,
                     t: nat)
    requires Child(s, todo, best, und, added) && und <= all - {t} && t in all
    ensures AllOk(s, todo, best, added) && AllSmaller(added, |all|)
  {
    hide ItemOk;
    if |added| == 1 {
      SubsetSize(added[0].und, all - {t});
    }
  }

  /** Both children of a split, combined. */
  lemma SplitDone(s: Graph, todo: set<nat>, it: WorkItem, t: nat, best0: FeeFrac, best1: FeeFrac, best2: FeeFrac,
                  without: seq<WorkItem>, included: seq<WorkItem>)
    requires s.Valid() && todo <= s.used && t in it.und && t in todo && it.inc.transactions !! it.und
    requires best0.size > 0 && best1.size > 0 && best2.size > 0 && NoWorse(best1, best0) && NoWorse(best2, best1)
    requires Keeps(s, todo, best1, it.inc.transactions, it.und - s.Desc(t), without)
    requires Keeps(s, todo, best2, it.inc.transactions + s.Anc(t) * todo, it.und - s.Anc(t) * todo, included)
    requires Child(s, todo, best1, it.und - s.Desc(t), without)
    requires Child(s, todo, best2, it.und - s.Anc(t) * todo, included)
    ensures Processed(s, todo, it, best0, best2, without + included)
  {
    assert Gain(best1, best2) <= 0;
    SelfRelated(s, t);
    ChildSmaller(s, todo, best1, it.und - s.Desc(t), without, it.und, t);
    ChildSmaller(s, todo, best2, it.und - s.Anc(t) * todo, included, it.und, t);
    hide ItemOk, Keeps, NoWorse, Gain, AllOk;
    NoWorseTransitive(best0, best1, best2);
    KeepsMono(s, todo, best1, best2, it.inc.transactions, it.und - s.Desc(t), without);
    SplitKeeps(s, todo, best2, it.inc.transactions, it.und, t, without, included);
    AllOkMono(s, todo, best1, best2, without);
    AllOkConcat(s, todo, best2, without, included);
  }

  /** No undecided transaction improves on best, or nothing that the item may become is better. */
  ghost predicate Hopeless(s: Graph, it: WorkItem, best: FeeFrac, imp: set<nat>, first: nat) {
    if it.inc.transactions != {} then it.und !! imp || !Better(it.pot, best) else !Better(s.Rate(first), best)
  }

  /** The three checks under which a work item is dropped unsplit. */
  method CannotImprove(s: Graph, todo: set<nat>, it: WorkItem, best: SetInfo, imp: set<nat>, first: nat)
    returns (skip: bool)
    requires Searchable(s, todo) && ItemOk(s, todo, best.feerate, it) && BestOk(s, todo, best, imp)
    requires first in it.und && forall x :: x in it.und ==> first <= x
    ensures skip <==> Hopeless(s, it, best.feerate, imp, first)
    ensures skip ==> Keeps(s, todo, best.feerate, it.inc.transactions, it.und, [])
  {
    hide Gain, SetRate, Closed, Keeps, Bounded, SortedByRate, Graph.Valid, Graph.PositiveSizes, Improving;
    SizeTellsEmpty(s, it.inc.transactions);
    skip := true;
    if it.inc.feerate.size != 0 {
      if it.und !! imp {
        PruneNoImproving(s, todo, best.feerate, it);
        return;
      }
      if !Better(it.pot, best.feerate) {
        PrunePotential(s, todo, best.feerate, it);
        return;
      }
    } else if !Better(s.Rate(first), best.feerate) {
      PruneFirst(s, todo, best.feerate, it, first);
      return;
    }
    skip := false;
  }

  /** Split a work item in two, unless nothing in it can beat best. */
  method Split(s: Graph, todo: set<nat>, it: WorkItem, best0: SetInfo, imp0: set<nat>)
    returns (added: seq<WorkItem>, best: SetInfo, imp: set<nat>, steps: nat)
    requires Searchable(s, todo) && ItemOk(s, todo, best0.feerate, it) && BestOk(s, todo, best0, imp0)
    ensures BestOk(s, todo, best, imp) && Processed(s, todo, it, best0.feerate, best.feerate, added)
    ensures it.und != {} && steps == (if Hopeless(s, it, best0.feerate, imp0, First(it.und)) then 0 else 1)
    ensures steps == 0 ==> added == [] && best == best0
  {
    added, best, imp, steps := [], best0, imp0, 0;
    var first := First(it.und);
    var skip := CannotImprove(s, todo, it, best, imp, first);
    if skip {
      NoWorseReplace(best0.feerate, best0.feerate);
      return;
    }
    SelfRelated(s, first);
    var split := ChooseSplit(s, it.und, first);
    var anc := s.Anc(split) * todo;
    var sum := FeeRateOf(s, anc - it.inc.transactions);
    var inc := SetInfo(it.inc.transactions + anc, Plus(it.inc.feerate, sum));
    hide Gain, SetRate, Closed, Keeps, Bounded, SortedByRate, Graph.Valid, IsCandidate, Graph.PositiveSizes, Improving,
         NoWorse, Processed;
    SplitShapes(s, todo, it, split, inc);
    added, best, imp := AddBoth(s, todo, it, split, inc, best, imp);
    steps := 1;
  }

  lemma SelfRelated(s: Graph, i: nat)
    requires s.Valid() && i in s.used
    ensures i in s.Anc(i) && i in s.Desc(i)
  {
    assert s.Consistent(i);
  }

  /** Queue the item that excludes `split` and the one that includes it. */
  method AddBoth(s: Graph, todo: set<nat>, it: WorkItem, split: nat, inc: SetInfo, best0: SetInfo, imp0: set<nat>)
    returns (added: seq<WorkItem>, best: SetInfo, imp: set<nat>)
    requires Searchable(s, todo) && BestOk(s, todo, best0, imp0)
    requires split in it.und && split in todo && it.inc.transactions !! it.und
    requires inc.transactions == it.inc.transactions + s.Anc(split) * todo
    requires Shape(s, todo, it.inc, it.und - s.Desc(split)) && Shape(s, todo, inc, it.und - s.Anc(split) * todo)
    ensures BestOk(s, todo, best, imp) && Processed(s, todo, it, best0.feerate, best.feerate, added)
  {
    hide Child, Gain, SetRate, Closed, Keeps, ItemOk, Shape, Improving, NoWorse, Processed, SortedByRate, Graph.Valid,
         IsCandidate, Graph.PositiveSizes;
    var without, best1, imp1 := AddItem(s, todo, it.inc, it.und - s.Desc(split), best0, imp0);
    var included, best2, imp2 := AddItem(s, todo, inc, it.und - s.Anc(split) * todo, best1, imp1);
    SplitDone(s, todo, it, split, best0.feerate, best1.feerate, best2.feerate, without, included);
    added, best, imp := without + included, best2, imp2;
  }

  lemma SplitShapes(s: Graph, todo: set<nat>, it: WorkItem, t: nat, inc: SetInfo)
    requires s.Valid() && todo <= s.used && Shape(s, todo, it.inc, it.und) && t in it.und
    requires var anc := s.Anc(t) * todo; inc == SetInfo(it.inc.transactions + anc,
                Plus(it.inc.feerate, SetRate(s, anc - it.inc.transactions)))
    ensures Shape(s, todo, it.inc, it.und - s.Desc(t)) && Shape(s, todo, inc, it.und - s.Anc(t) * todo)
  {
    ExcludeClosed(s, todo, it.inc.transactions, it.und, t);
    IncludeClosed(s, todo, it.inc.transactions, it.und, t);
    var anc := s.Anc(t) * todo;
    assert inc.transactions * it.inc.transactions == it.inc.transactions;
    assert inc.transactions - it.inc.transactions == anc - it.inc.transactions;
    SetRateSplit(s, inc.transactions, it.inc.transactions);
  }
}
