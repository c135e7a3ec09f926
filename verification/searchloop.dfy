// The work queue of SearchCandidateFinder::FindCandidateSet (src/cluster_linearize.h).
module SearchLoops {
  import opened FeeFracs
  import opened Powers
  import opened IndexSets
  import opened DepGraphs
  import opened Linearizations
  import opened Chunking
  import opened Groups
  import opened Components
  import opened SearchBounds
  import opened Searching

  /** Whatever still beats best is held by some queued item. */
  ghost predicate Covered(s: Graph, todo: set<nat>, queue: seq<WorkItem>, best: FeeFrac) {
    forall y {:trigger InQueue(s, todo, queue, y)} :: Beats(s, todo, best, y) ==> InQueue(s, todo, queue, y)
  }

  /** Each item, explored depth-first from its place in the queue, stays within `cap` places. */
  ghost predicate Fits(queue: seq<WorkItem>, cap: nat) {
    forall k {:trigger queue[k]} :: 0 <= k < |queue| ==> k + |queue[k].und| <= cap
  }

  ghost predicate QueueOk(s: Graph, todo: set<nat>, queue: seq<WorkItem>, best: SetInfo, imp: set<nat>, cap: nat) {
    && BestOk(s, todo, best, imp) && AllOk(s, todo, best.feerate, queue)
    && Covered(s, todo, queue, best.feerate) && Fits(queue, cap)
  }

  // ----- how long a search can take

  /** The most splits that the items can still lead to. */
  ghost function Weight(queue: seq<WorkItem>): nat {
    if queue == [] then 0 else Pow2(|queue[0].und|) - 1 + Weight(queue[1..])
  }

  lemma {:induction false} WeightConcat(a: seq<WorkItem>, b: seq<WorkItem>)
    ensures Weight(a + b) == Weight(a) + Weight(b)
  {
    if a == [] {
      assert a + b == b;
    } else {
      assert (a + b)[1..] == a[1..] + b;
      WeightConcat(a[1..], b);
    }
  }

  lemma WeightOne(it: WorkItem)
    ensures Weight([it]) == Pow2(|it.und|) - 1
  {
    assert [it][1..] == [];
  }

  /** Both halves of an item together weigh less than the item. */
  lemma {:induction false} WeightHalves(added: seq<WorkItem>, n: nat)
    requires |added| <= 2 && AllSmaller(added, n) && n > 0
    ensures Weight(added) + 2 <= Pow2(n)
  {
    hide Weight;
    if |added| == 0 {
      assert Weight([]) == 0 by { NoWeight(); }
    } else {
      WeightOne(added[0]);
      Pow2Mono(|added[0].und|, n - 1);
      if |added| == 2 {
        assert added == [added[0]] + [added[1]];
        WeightConcat([added[0]], [added[1]]);
        WeightOne(added[1]);
        Pow2Mono(|added[1].und|, n - 1);
      } else {
        assert added == [added[0]];
      }
    }
  }

  lemma NoWeight()
    ensures Weight([]) == 0
  {
  }

  /** Replacing an item by what it was split into. */
  lemma {:induction false} WeightReplaced(a: seq<WorkItem>, it: WorkItem, b: seq<WorkItem>, added: seq<WorkItem>)
    requires |added| <= 2 && AllSmaller(added, |it.und|) && |it.und| > 0
    ensures Weight(a + b + added) + 1 <= Weight(a + [it] + b)
  {
    hide Weight, Pow2;
    WeightConcat(a + b, added);
    WeightConcat(a, b);
    WeightConcat(a + [it], b);
    WeightConcat(a, [it]);
    WeightOne(it);
    WeightHalves(added, |it.und|);
  }

  lemma {:induction false} WeightSwapped(queue: seq<WorkItem>, queue': seq<WorkItem>)
    requires IsSwap(queue, queue')
    ensures Weight(queue') == Weight(queue)
  {
    var a, b, rest := queue[0], queue[1], queue[2..];
    assert queue == [a] + [b] + rest && queue' == [b] + [a] + rest;
    hide Weight;
    WeightConcat([a] + [b], rest);
    WeightConcat([b] + [a], rest);
    WeightConcat([a], [b]);
    WeightConcat([b], [a]);
  }

  lemma PowersApart(a: nat, b: nat)
    ensures Pow2(a) + Pow2(b) <= Pow2(a + b) + 1
  {
    Pow2Add(a, b);
    Above(Pow2(a), Pow2(b));
  }

  lemma Above(x: nat, y: nat)
    requires x > 0 && y > 0
    ensures x + y <= x * y + 1
  {
    assert (x - 1) * (y - 1) == x * y - x - y + 1;
  }

  // ----- replacing an item by what it splits into

  lemma CoveredReplace(s: Graph, todo: set<nat>, queue: seq<WorkItem>, rest: seq<WorkItem>, it: WorkItem,
                       added: seq<WorkItem>,
                       best: FeeFrac, best': FeeFrac)
    requires Covered(s, todo, queue, best) && best.size > 0 && best'.size > 0 && NoWorse(best', best)
    requires forall y {:trigger InQueue(s, todo, queue, y)} :: InQueue(s, todo, queue, y) ==>
               InQueue(s, todo, rest, y) || Holds(s, todo, it.inc.transactions, it.und, y)
    requires Keeps(s, todo, best', it.inc.transactions, it.und, added)
    ensures Covered(s, todo, rest + added, best')
  {
    assert Gain(best, best') <= 0;
    forall y | Beats(s, todo, best', y)
      ensures InQueue(s, todo, rest + added, y)
    {
      BeatsMono(s, todo, best, best', y);
      hide InQueue, Holds, Beats, Gain;
      assert InQueue(s, todo, queue, y);
      InQueueConcat(s, todo, rest, added, y);
    }
  }

  lemma InQueueSingle(s: Graph, todo: set<nat>, it: WorkItem, y: set<nat>)
    ensures InQueue(s, todo, [it], y) <==> Holds(s, todo, it.inc.transactions, it.und, y)
  {
    hide Holds;
    assert [it][0] == it;
  }

  /** Taking the first or the last item leaves the others. */
  lemma TakenOut(s: Graph, todo: set<nat>, a: seq<WorkItem>, it: WorkItem, b: seq<WorkItem>, queue: seq<WorkItem>,
                 y: set<nat>)
    requires queue == a + [it] + b
    ensures InQueue(s, todo, queue, y) ==> InQueue(s, todo, a + b, y) || Holds(s, todo, it.inc.transactions, it.und, y)
  {
    InQueueConcat(s, todo, a + [it], b, y);
    InQueueConcat(s, todo, a, [it], y);
    InQueueConcat(s, todo, a, b, y);
    InQueueSingle(s, todo, it, y);
  }

  lemma FitsAdded(rest: seq<WorkItem>, added: seq<WorkItem>, n: nat, cap: nat)
    requires Fits(rest, cap) && |added| <= 2 && AllSmaller(added, n) && |rest| + n <= cap
    ensures Fits(rest + added, cap)
  {
  }

  /** Split the item `it` that stood between `a` and `b`. */
  method ProcessItem(s: Graph, todo: set<nat>, a: seq<WorkItem>, it: WorkItem, b: seq<WorkItem>,
                     ghost queue0: seq<WorkItem>,
                     best0: SetInfo, imp0: set<nat>, cap: nat, left0: nat)
    returns (queue: seq<WorkItem>, best: SetInfo, imp: set<nat>, left: nat)
    requires Searchable(s, todo) && queue0 == a + [it] + b && left0 > 0
    requires QueueOk(s, todo, queue0, best0, imp0, cap) && |a + b| + |it.und| <= cap && Fits(a + b, cap)
    ensures QueueOk(s, todo, queue, best, imp, cap) && NoWorse(best.feerate, best0.feerate)
    ensures (left == left0 && |queue| == |queue0| - 1) || left == left0 - 1
    ensures |queue| >= |queue0| - 1 && Weight(queue) + (left0 - left) <= Weight(queue0)
  {
    ghost var rest := a + b;
    assert it == queue0[|a|];
    assert AllOk(s, todo, best0.feerate, rest) by {
      forall k | 0 <= k < |rest|
        ensures ItemOk(s, todo, best0.feerate, rest[k])
      {
        assert rest[k] == queue0[if k < |a| then k else k + 1];
      }
    }
    forall y | InQueue(s, todo, queue0, y)
      ensures InQueue(s, todo, rest, y) || Holds(s, todo, it.inc.transactions, it.und, y)
    {
      TakenOut(s, todo, a, it, b, queue0, y);
    }
    hide Covered, ItemOk, Keeps, NoWorse, Gain, InQueue, Holds, Fits, Searchable, Improving, Weight, Hopeless;
    var added, steps;
    added, best, imp, steps := Split(s, todo, it, best0, imp0);
    CoveredReplace(s, todo, queue0, rest, it, added, best0.feerate, best.feerate);
    AllOkMono(s, todo, best0.feerate, best.feerate, rest);
    AllOkConcat(s, todo, best.feerate, rest, added);
    FitsAdded(rest, added, |it.und|, cap);
    WeightReplaced(a, it, b, added);
    queue, left := a + b + added, left0 - steps;
  }

  // ----- the initial queue

  /** `y` loses nothing to its part in `rest`. */
  ghost predicate PartHolds(s: Graph, rest: set<nat>, y: set<nat>) {
    y * rest != {} && Gain(SetRate(s, y * rest), SetRate(s, y)) >= 0
  }

  /** Every closed set is covered by the queue or by its part in `rest`. */
  ghost predicate CoveredBut(s: Graph, todo: set<nat>, queue: seq<WorkItem>, rest: set<nat>) {
    forall y {:trigger InQueue(s, todo, queue, y)} :: y != {} && Closed(s, todo, y) ==>
      InQueue(s, todo, queue, y) || PartHolds(s, rest, y)
  }

  lemma CoveredAtFirst(s: Graph, todo: set<nat>)
    ensures CoveredBut(s, todo, [], todo)
  {
    forall y | y != {} && Closed(s, todo, y)
      ensures PartHolds(s, todo, y)
    {
      assert y * todo == y;
      GainSelf(SetRate(s, y), SetRate(s, y));
    }
  }

  lemma CoveredByComponent(s: Graph, todo: set<nat>, queue: seq<WorkItem>, rest: set<nat>, comp: set<nat>, it: WorkItem)
    requires s.Valid() && s.PositiveSizes() && todo <= s.used && CoveredBut(s, todo, queue, rest)
    requires comp <= rest && Separate(s, todo, comp) && it.inc.transactions == {} && it.und == comp
    ensures CoveredBut(s, todo, queue + [it], rest - comp)
  {
    hide SetRate, Gain, InQueue, Holds;
    forall y | y != {} && Closed(s, todo, y)
      ensures InQueue(s, todo, queue + [it], y) || PartHolds(s, rest - comp, y)
    {
      InQueueConcat(s, todo, queue, [it], y);
      if !InQueue(s, todo, queue, y) {
        HoldsByComponent(s, todo, rest, comp, it, y);
        InQueueSingle(s, todo, it, y);
      }
    }
  }

  lemma HoldsByComponent(s: Graph, todo: set<nat>, rest: set<nat>, comp: set<nat>, it: WorkItem, y: set<nat>)
    requires s.Valid() && s.PositiveSizes() && todo <= s.used && PartHolds(s, rest, y) && y != {} && Closed(s, todo, y)
    requires comp <= rest && Separate(s, todo, comp) && it.inc.transactions == {} && it.und == comp
    ensures Holds(s, todo, it.inc.transactions, it.und, y) || PartHolds(s, rest - comp, y)
  {
    hide SetRate, Gain;
    var z, ry := y * rest, SetRate(s, y);
    BetterPart(s, z, comp);
    SetRatePositive(s, z);
    SetRatePositive(s, y);
    GainSelf(SetRate(s, z), ry);
    if z * comp != {} && Gain(SetRate(s, z * comp), SetRate(s, z)) >= 0 {
      assert z * comp == y * comp;
      ComponentClosed(s, todo, comp, y);
      SetRatePositive(s, y * comp);
      AtLeast(SetRate(s, y * comp), SetRate(s, z), ry);
      assert Compatible({}, comp, y * comp);
    } else {
      assert z - comp == y * (rest - comp);
      SetRatePositive(s, z - comp);
      AtLeast(SetRate(s, z - comp), SetRate(s, z), ry);
    }
  }

  lemma AtLeast(a: FeeFrac, b: FeeFrac, c: FeeFrac)
    requires a.size > 0 && b.size > 0 && c.size > 0 && Gain(a, b) >= 0 && Gain(b, c) >= 0
    ensures Gain(a, c) >= 0
  {
    hide Gain;
    GainSelf(a, b);
    GainSelf(b, c);
    GainSelf(a, c);
    GainTransitive(c, b, a);
  }

  lemma SeparateParts(s: Graph, todo: set<nat>, rest: set<nat>, comp: set<nat>)
    requires Separate(s, todo, rest) && Separate(s, rest, comp)
    ensures Separate(s, todo, comp) && Separate(s, todo, rest - comp)
  {
    forall a, b | a in comp && b in todo - comp
      ensures !Related(s, a, b)
    {
    }
    forall a, b | a in rest - comp && b in todo - (rest - comp)
      ensures !Related(s, a, b)
    {
      if b in comp {
        assert !Related(s, b, a);
      }
    }
  }

  /** Items that have decided nothing yet. */
  ghost predicate AllFresh(s: Graph, todo: set<nat>, queue: seq<WorkItem>, n: nat) {
    forall k {:trigger queue[k]} :: 0 <= k < |queue| ==>
      queue[k] == WorkItem(SetInfo({}, EMPTY), queue[k].und, EMPTY) && queue[k].und != {}
      && Separate(s, todo, queue[k].und) && k + |queue[k].und| <= n
  }

  lemma FreshOk(s: Graph, todo: set<nat>, queue: seq<WorkItem>, best: FeeFrac)
    requires s.Valid() && todo <= s.used && AllFresh(s, todo, queue, |todo|)
    ensures AllOk(s, todo, best, queue) && Fits(queue, |todo|)
  {
    forall k | 0 <= k < |queue|
      ensures ItemOk(s, todo, best, queue[k])
    {
      ComponentClosed(s, todo, queue[k].und, todo);
      assert {} + queue[k].und == queue[k].und;
    }
  }

  lemma AddFresh(s: Graph, todo: set<nat>, queue: seq<WorkItem>, rest: set<nat>, comp: set<nat>)
    requires AllFresh(s, todo, queue, |todo|) && Separate(s, todo, comp) && comp != {} && comp <= rest
    requires |queue| + |rest| <= |todo|
    ensures AllFresh(s, todo, queue + [WorkItem(SetInfo({}, EMPTY), comp, EMPTY)], |todo|)
    ensures |queue| + 1 + |rest - comp| <= |todo|
  {
    hide Separate;
    assert rest == comp + (rest - comp);
    assert |rest| == |comp| + |rest - comp|;
  }

  lemma {:induction false} WeightFresh(queue: seq<WorkItem>, rest: set<nat>, comp: set<nat>, it: WorkItem, n: nat)
    requires it.und == comp <= rest && Weight(queue) + Pow2(|rest|) <= Pow2(n)
    ensures Weight(queue + [it]) + Pow2(|rest - comp|) <= Pow2(n)
  {
    hide Weight, Pow2;
    WeightConcat(queue, [it]);
    WeightOne(it);
    assert rest == comp + (rest - comp);
    assert |rest| == |comp| + |rest - comp|;
    PowersApart(|comp|, |rest - comp|);
  }

  method WholeComponent(s: Graph, todo: set<nat>, component: set<nat>) returns (best: SetInfo)
    requires s.Valid() && s.PositiveSizes() && todo <= s.used && Separate(s, todo, component) && component != {}
    ensures IsCandidate(s, todo, best) && best.feerate.size != 0
  {
    ComponentClosed(s, todo, component, todo);
    SetRatePositive(s, component);
    var rate := FeeRateOf(s, component);
    best := SetInfo(component, rate);
  }

  /** One item per connected component; without a given candidate the first component is the best so far. */
  method InitialQueue(s: Graph, todo: set<nat>, best0: SetInfo) returns (queue: seq<WorkItem>, best: SetInfo)
    requires Searchable(s, todo) && todo != {}
    requires best0.feerate.size != 0 ==> IsCandidate(s, todo, best0)
    ensures IsCandidate(s, todo, best) && (best0.feerate.size != 0 ==> best == best0)
    ensures AllOk(s, todo, best.feerate, queue) && Covered(s, todo, queue, best.feerate) && Fits(queue, |todo|)
    ensures Weight(queue) < Pow2(|todo|)
  {
    queue, best := [], best0;
    var toCover := todo;
    CoveredAtFirst(s, todo);
    while toCover != {}
      invariant toCover <= todo && Separate(s, todo, toCover) && |queue| + |toCover| <= |todo|
      invariant best.feerate.size != 0 ==> IsCandidate(s, todo, best)
      invariant best.feerate.size == 0 ==> toCover == todo && best0.feerate.size == 0
      invariant best0.feerate.size != 0 ==> best == best0
      invariant AllFresh(s, todo, queue, |todo|)
      invariant CoveredBut(s, todo, queue, toCover)
      invariant Weight(queue) + Pow2(|toCover|) <= Pow2(|todo|)
      decreases toCover
    {
      hide CoveredBut, SortedByRate, IsCandidate, AllFresh, Graph.PositiveSizes, Graph.Valid, Connected, Separate,
           Weight, Pow2;
      var component := FindConnectedComponent(s, toCover);
      SeparateParts(s, todo, toCover, component);
      var it := WorkItem(SetInfo({}, EMPTY), component, EMPTY);
      CoveredByComponent(s, todo, queue, toCover, component, it);
      AddFresh(s, todo, queue, toCover, component);
      WeightFresh(queue, toCover, component, it, |todo|);
      toCover := toCover - component;
      if best.feerate.size == 0 {
        best := WholeComponent(s, todo, component);
      }
      queue := queue + [it];
    }
    FreshOk(s, todo, queue, best.feerate);
    assert Covered(s, todo, queue, best.feerate);
  }

  // ----- the work processing loop

  ghost predicate IsSwap(queue: seq<WorkItem>, queue': seq<WorkItem>) {
    && |queue'| == |queue| > 1 && queue'[0] == queue[1] && queue'[1] == queue[0]
    && forall k {:trigger queue'[k]} :: 2 <= k < |queue| ==> queue'[k] == queue[k]
  }

  lemma SwappedHolds(s: Graph, todo: set<nat>, queue: seq<WorkItem>, queue': seq<WorkItem>, y: set<nat>)
    requires IsSwap(queue, queue') && InQueue(s, todo, queue, y)
    ensures InQueue(s, todo, queue', y)
  {
    hide Holds;
    var k :| 0 <= k < |queue| && Holds(s, todo, queue[k].inc.transactions, queue[k].und, y);
    var j := if k == 0 then 1 else if k == 1 then 0 else k;
    assert queue'[j] == queue[k];
  }

  lemma SwappedOk(s: Graph, todo: set<nat>, queue: seq<WorkItem>, queue': seq<WorkItem>, best: FeeFrac, cap: nat)
    requires AllOk(s, todo, best, queue) && Fits(queue, cap) && IsSwap(queue, queue') && 1 + |queue[0].und| <= cap
    ensures AllOk(s, todo, best, queue') && Fits(queue', cap)
  {
    hide ItemOk;
  }

  lemma SwappedCovered(s: Graph, todo: set<nat>, queue: seq<WorkItem>, queue': seq<WorkItem>, best: FeeFrac)
    requires Covered(s, todo, queue, best) && IsSwap(queue, queue')
    ensures Covered(s, todo, queue', best)
  {
    hide Beats, InQueue;
    forall y | Beats(s, todo, best, y)
      ensures InQueue(s, todo, queue', y)
    {
      assert InQueue(s, todo, queue, y);
      SwappedHolds(s, todo, queue, queue', y);
    }
  }

  lemma Swapped(s: Graph, todo: set<nat>, queue: seq<WorkItem>, queue': seq<WorkItem>, best: SetInfo, imp: set<nat>,
                cap: nat)
    requires QueueOk(s, todo, queue, best, imp, cap) && IsSwap(queue, queue') && cap >= 2 * |todo|
    ensures QueueOk(s, todo, queue', best, imp, cap)
  {
    NoReallocation(s, todo, queue, best, imp, cap);
    hide AllOk, Covered, Fits, BestOk;
    SwappedOk(s, todo, queue, queue', best.feerate, cap);
    SwappedCovered(s, todo, queue, queue', best.feerate);
  }

  /** The queue never outgrows the places reserved for it. */
  lemma NoReallocation(s: Graph, todo: set<nat>, queue: seq<WorkItem>, best: SetInfo, imp: set<nat>, cap: nat)
    requires QueueOk(s, todo, queue, best, imp, cap)
    ensures |queue| <= cap && best.feerate.size > 0 && IsCandidate(s, todo, best)
    ensures queue != [] ==> 0 < |queue[0].und| <= |todo|
  {
    if queue != [] {
      assert ItemOk(s, todo, best.feerate, queue[|queue| - 1]);
      assert ItemOk(s, todo, best.feerate, queue[0]);
      SubsetSize(queue[0].und, todo);
    }
  }

  lemma {:induction false} BackFits(s: Graph, todo: set<nat>, queue: seq<WorkItem>, best: SetInfo, imp: set<nat>,
                                    cap: nat)
    requires queue != [] && QueueOk(s, todo, queue, best, imp, cap)
    ensures var n := |queue| - 1;
            && queue == queue[..n] + [queue[n]] + [] && Fits(queue[..n] + [], cap)
            && |queue[..n] + []| + |queue[n].und| <= cap
  {
    hide AllOk, Covered, BestOk;
    var rest := queue[..|queue| - 1] + [];
    assert forall k :: 0 <= k < |rest| ==> rest[k] == queue[k];
  }

  /** Split the last item. */
  method ProcessBack(s: Graph, todo: set<nat>, queue0: seq<WorkItem>, best0: SetInfo, imp0: set<nat>, cap: nat,
                     left0: nat)
    returns (queue: seq<WorkItem>, best: SetInfo, imp: set<nat>, left: nat)
    requires Searchable(s, todo) && left0 > 0 && queue0 != [] && QueueOk(s, todo, queue0, best0, imp0, cap)
    ensures QueueOk(s, todo, queue, best, imp, cap) && NoWorse(best.feerate, best0.feerate)
    ensures (left == left0 && |queue| == |queue0| - 1) || left == left0 - 1
    ensures |queue| >= |queue0| - 1 && Weight(queue) + (left0 - left) <= Weight(queue0)
  {
    hide QueueOk, Fits, Searchable, NoWorse, Weight;
    var n := |queue0| - 1;
    BackFits(s, todo, queue0, best0, imp0, cap);
    queue, best, imp, left := ProcessItem(s, todo, queue0[..n], queue0[n], [], queue0, best0, imp0, cap, left0);
  }

  lemma {:induction false} FrontFits(s: Graph, todo: set<nat>, queue: seq<WorkItem>, best: SetInfo, imp: set<nat>,
                                     cap: nat)
    requires queue != [] && QueueOk(s, todo, queue, best, imp, cap)
    ensures Fits([] + queue[1..], cap) && queue == [] + [queue[0]] + queue[1..] && |[] + queue[1..]| == |queue| - 1
  {
    hide AllOk, Covered, BestOk;
    var rest := [] + queue[1..];
    forall k | 0 <= k < |rest|
      ensures k + |rest[k].und| <= cap
    {
      assert rest[k] == queue[k + 1];
    }
  }

  /** Split the first item. */
  method ProcessFront(s: Graph, todo: set<nat>, queue0: seq<WorkItem>, best0: SetInfo, imp0: set<nat>, cap: nat,
                      left0: nat)
    returns (queue: seq<WorkItem>, best: SetInfo, imp: set<nat>, left: nat)
    requires Searchable(s, todo) && left0 > 0 && queue0 != [] && QueueOk(s, todo, queue0, best0, imp0, cap)
    requires |queue0| - 1 + |queue0[0].und| <= cap
    ensures QueueOk(s, todo, queue, best, imp, cap) && NoWorse(best.feerate, best0.feerate)
    ensures (left == left0 && |queue| == |queue0| - 1) || left == left0 - 1
    ensures Weight(queue) + (left0 - left) <= Weight(queue0)
  {
    hide QueueOk, Fits, Searchable, NoWorse, Weight;
    FrontFits(s, todo, queue0, best0, imp0, cap);
    queue, best, imp, left := ProcessItem(s, todo, [], queue0[0], queue0[1..], queue0, best0, imp0, cap, left0);
  }

  /** Depth-first from the back until the first item can be explored within the reserved places. */
  method DepthFirst(s: Graph, todo: set<nat>, queue0: seq<WorkItem>, best0: SetInfo, imp0: set<nat>, cap: nat,
                    left0: nat)
    returns (queue: seq<WorkItem>, best: SetInfo, imp: set<nat>, left: nat)
    requires Searchable(s, todo) && queue0 != [] && QueueOk(s, todo, queue0, best0, imp0, cap) && cap >= |todo|
    ensures QueueOk(s, todo, queue, best, imp, cap) && NoWorse(best.feerate, best0.feerate) && queue != []
    ensures left < left0 || (left == left0 && |queue| <= |queue0|)
    ensures Weight(queue) + (left0 - left) <= Weight(queue0)
    ensures left == 0 || |queue| - 1 + |queue[0].und| <= cap
  {
    queue, best, imp, left := queue0, best0, imp0, left0;
    NoWorseReplace(best0.feerate, best0.feerate);
    while |queue| - 1 + |queue[0].und| > cap
      invariant QueueOk(s, todo, queue, best, imp, cap) && NoWorse(best.feerate, best0.feerate) && queue != []
      invariant left < left0 || (left == left0 && |queue| <= |queue0|)
      invariant Weight(queue) + (left0 - left) <= Weight(queue0)
      decreases left, |queue|
    {
      if left == 0 {
        break;
      }
      hide QueueOk, NoWorse, Searchable, Weight;
      ghost var before := best;
      NoReallocation(s, todo, queue, best, imp, cap);
      NoReallocation(s, todo, queue0, best0, imp0, cap);
      queue, best, imp, left := ProcessBack(s, todo, queue, best, imp, cap, left);
      NoReallocation(s, todo, queue, best, imp, cap);
      NoWorseTransitive(best0.feerate, before.feerate, best.feerate);
    }
  }

  /** Search for a closed subset of `todo` with the highest feerate, within `maxIterations` splits. */
  method Search(s: Graph, todo: set<nat>, maxIterations: nat, best0: SetInfo) returns (best: SetInfo, steps: nat)
    requires Searchable(s, todo) && todo != {}
    requires best0.feerate.size != 0 ==> IsCandidate(s, todo, best0)
    ensures IsCandidate(s, todo, best) && steps <= maxIterations
    ensures best0.feerate.size != 0 ==> NoWorse(best.feerate, best0.feerate)
    ensures steps < maxIterations ==> forall y :: !Beats(s, todo, best.feerate, y)
    ensures steps < Pow2(|todo|)
  {
    var cap := if 2 * |todo| > 256 then 2 * |todo| else 256;
    var queue;
    queue, best := InitialQueue(s, todo, best0);
    ghost var first := best;
    SetRatePositive(s, best.transactions);
    var imp := TrimImproving(s, todo, todo, best.feerate);
    best, steps := ProcessQueue(s, todo, queue, best, imp, cap, maxIterations);
  }

  /** One round of the loop: possibly swap the first two items, go depth-first if space requires it,
      then split the first item. */
  method Round(s: Graph, todo: set<nat>, queue0: seq<WorkItem>, best0: SetInfo, imp0: set<nat>, cap: nat, left0: nat)
    returns (queue: seq<WorkItem>, best: SetInfo, imp: set<nat>, left: nat, stop: bool)
    requires Searchable(s, todo) && queue0 != [] && QueueOk(s, todo, queue0, best0, imp0, cap) && cap >= 2 * |todo|
    ensures QueueOk(s, todo, queue, best, imp, cap) && NoWorse(best.feerate, best0.feerate)
    ensures if stop then left == 0 else left < left0 || (left == left0 && |queue| < |queue0|)
    ensures left <= left0 && Weight(queue) + (left0 - left) <= Weight(queue0)
  {
    hide QueueOk, NoWorse, Searchable, IsCandidate, Weight;
    queue := queue0;
    var swap: bool := *;
    if |queue| > 1 && swap {
      queue := queue[0 := queue[1]][1 := queue[0]];
      Swapped(s, todo, queue0, queue, best0, imp0, cap);
      WeightSwapped(queue0, queue);
    }
    queue, best, imp, left := DepthFirst(s, todo, queue, best0, imp0, cap, left0);
    stop := left == 0;
    if !stop {
      ghost var before := best;
      NoReallocation(s, todo, queue0, best0, imp0, cap);
      NoReallocation(s, todo, queue, best, imp, cap);
      queue, best, imp, left := ProcessFront(s, todo, queue, best, imp, cap, left);
      NoReallocation(s, todo, queue, best, imp, cap);
      NoWorseTransitive(best0.feerate, before.feerate, best.feerate);
    }
  }

  method ProcessQueue(s: Graph, todo: set<nat>, queue0: seq<WorkItem>, best0: SetInfo, imp0: set<nat>, cap: nat,
                      maxIterations: nat)
    returns (best: SetInfo, steps: nat)
    requires Searchable(s, todo) && QueueOk(s, todo, queue0, best0, imp0, cap) && cap >= 2 * |todo|
    ensures IsCandidate(s, todo, best) && steps <= maxIterations
    ensures NoWorse(best.feerate, best0.feerate) && steps <= Weight(queue0)
    ensures steps < maxIterations ==> forall y :: !Beats(s, todo, best.feerate, y)
  {
    var queue, imp := queue0, imp0;
    var left: nat := maxIterations;
    best := best0;
    NoWorseReplace(best.feerate, best.feerate);
    NoReallocation(s, todo, queue, best, imp, cap);
    while queue != []
      invariant QueueOk(s, todo, queue, best, imp, cap) && NoWorse(best.feerate, best0.feerate)
      invariant |queue| <= cap && left <= maxIterations && best.feerate.size > 0
      invariant Weight(queue) + (maxIterations - left) <= Weight(queue0)
      decreases left, |queue|
    {
      hide QueueOk, NoWorse, Searchable, IsCandidate, Weight;
      ghost var before := best;
      var stop;
      queue, best, imp, left, stop := Round(s, todo, queue, best, imp, cap, left);
      NoReallocation(s, todo, queue, best, imp, cap);
      NoWorseTransitive(best0.feerate, before.feerate, best.feerate);
      if stop {
        break;
      }
    }
    steps := maxIterations - left;
    if steps < maxIterations {
      NothingLeft(s, todo, best.feerate);
    }
  }

  lemma NothingLeft(s: Graph, todo: set<nat>, best: FeeFrac)
    requires Covered(s, todo, [], best)
    ensures forall y :: !Beats(s, todo, best, y)
  {
    forall y
      ensures !Beats(s, todo, best, y)
    {
      assert !InQueue(s, todo, [], y);
    }
  }
}
