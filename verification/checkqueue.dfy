// The check queue of src/checkqueue.h as a state machine: each step is one critical section of Loop or
// Add, or the execution of one check outside the lock. Thread 0 is the master; the others are workers.
module CheckQueues {
  import opened Options

  /** A check is known by its number; it returns nothing, or a failure. */
  type Failure = nat
  type Outcome = Option<Failure>

  /** Where a thread is in Loop, with the locals that matter there. */
  datatype Thread =
    | Outside
    | Waiting(localResult: Outcome, notified: bool)
    | Holding(batch: seq<nat>, doWork: bool, pos: nat, localResult: Outcome)

  /** The guarded fields; `added` and `log` record the current round: the checks added to it, and what
      each executed check returned. */
  datatype State = State(
    queue: seq<nat>, nIdle: int, nTotal: int, nTodo: int, result: Outcome, threads: seq<Thread>, batchSize: nat,
    added: set<nat>, log: set<(nat, Outcome)>)

  datatype Event =
    | Add(checks: seq<nat>)
    | Enter(t: nat)
    | Execute(t: nat, outcome: Outcome)
    | CleanUp(t: nat)
    | Wake(t: nat)

  // ----- steps

  function Min(a: nat, b: nat): nat { if a < b then a else b }

  /** How many checks to take. */
  function NextBatch(s: State): nat
    requires s.nTotal + s.nIdle + 1 > 0
  {
    var n := Min(s.batchSize, |s.queue| / (s.nTotal + s.nIdle + 1));
    if n < 1 then 1 else n
  }

  /** Batches are never larger than the queue. */
  lemma NextBatchFits(s: State)
    requires s.nTotal >= 0 && s.nIdle >= 0 && s.queue != []
    ensures 1 <= NextBatch(s) <= |s.queue|
  {
    var d, n := s.nTotal + s.nIdle + 1, |s.queue|;
    assert n / d <= n by {
      if n / d > n {
        assert d * (n / d) >= n / d by { if d > 1 { assert (d - 1) * (n / d) >= 0; } }
      }
    }
  }

  /** The largest batch, up to the limit, that leaves as much for each idle thread and for each one in Loop; at least
      one check. */
  lemma NextBatchShares(s: State)
    requires s.nTotal >= 0 && s.nIdle >= 0
    ensures var n, shares := NextBatch(s), s.nTotal + s.nIdle + 1;
            && (n > 1 ==> n <= s.batchSize && n * shares <= |s.queue|)
            && (n < s.batchSize ==> (n + 1) * shares > |s.queue|)
  {
    var d, q := s.nTotal + s.nIdle + 1, |s.queue|;
    var k := q / d;
    assert q == d * k + q % d;
    assert (k + 1) * d == d * k + d && k * d == d * k;
    if k < 1 {
      assert (1 + 1) * d == d + d;
    }
  }

  predicate Counted(s: State) { s.nTotal >= 0 && s.nIdle >= 0 }

  /** The rest of a critical section: take a batch, wait, or (the master only) return. */
  function Decide(s: State, t: nat, localResult: Outcome): State
    requires t < |s.threads| && Counted(s)
  {
    if s.queue == [] then
      if t == 0 && s.nTodo == 0 then
        s.(nTotal := s.nTotal - 1, result := None, threads := s.threads[t := Outside], added := {}, log := {})
      else
        s.(nIdle := s.nIdle + 1, threads := s.threads[t := Waiting(localResult, false)])
    else
      NextBatchFits(s);
      var start := |s.queue| - NextBatch(s);
      s.(queue := s.queue[..start],
         threads := s.threads[t := Holding(s.queue[start..], s.result.None?, 0, localResult)])
  }

  /** The thread has stopped executing its batch: it was told not to, is through, or met a failure. */
  predicate Executed(th: Thread) {
    th.Holding? && (!th.doWork || th.pos >= |th.batch| || (th.pos > 0 && th.localResult.Some?))
  }

  predicate Enabled(s: State, e: Event) {
    Counted(s) && |s.threads| > 0 &&
    match e
    case Add(checks) => s.threads[0].Outside? && (forall c :: c in checks ==> c !in s.added)
    case Enter(t) => t < |s.threads| && s.threads[t].Outside?
    case Execute(t, _) => t < |s.threads| && s.threads[t].Holding? && !Executed(s.threads[t])
    case CleanUp(t) => t < |s.threads| && Executed(s.threads[t])
    case Wake(t) => t < |s.threads| && s.threads[t].Waiting? && s.nIdle > 0
  }

  /** Clean-up of the finished batch: publish a failure if none is known, count the batch as done, and
      tell the master when nothing is left. */
  function Cleaned(s: State, t: nat): State
    requires t < |s.threads| && s.threads[t].Holding?
  {
    var th := s.threads[t];
    var nTodo := s.nTodo - |th.batch|;
    var threads := s.threads[t := Outside];
    s.(result := if th.localResult.Some? && s.result.None? then th.localResult else s.result,
       nTodo := nTodo,
       threads := if nTodo == 0 && t != 0
           && threads[0].Waiting? then threads[0 := threads[0].(notified := true)] else threads)
  }

  predicate EntersLock(e: Event) { e.Enter? || e.CleanUp? || e.Wake? }

  /** The state in which thread `e.t`, holding the lock, looks at the queue. */
  function Arriving(s: State, e: Event): State
    requires Enabled(s, e) && EntersLock(e)
  {
    match e
    case Enter(t) => s.(nTotal := s.nTotal + 1)
    case CleanUp(t) => Cleaned(s, t)
    case Wake(t) => s.(nIdle := s.nIdle - 1, threads := s.threads[t := Outside])
  }

  /** The thread's local result at that point; a published one has been moved away. */
  function LocalResult(s: State, e: Event): Outcome
    requires Enabled(s, e) && EntersLock(e)
  {
    match e
    case Enter(t) => None
    case CleanUp(t) => if s.threads[t].localResult.Some? && s.result.None? then None else s.threads[t].localResult
    case Wake(t) => s.threads[t].localResult
  }

  function Step(s: State, e: Event): State
    requires Enabled(s, e)
  {
    match e
    case Add(checks) =>
      s.(queue := s.queue + checks, nTodo := s.nTodo + |checks|, added := s.added + set c | c in checks)
    case Execute(t, outcome) =>
      var th := s.threads[t];
      s.(threads := s.threads[t := th.(pos := th.pos + 1, localResult := outcome)],
          log := s.log + {(th.batch[th.pos], outcome)})
    case _ =>
      Decide(Arriving(s, e), e.t, LocalResult(s, e))
  }

  /** What Complete returns, if this step ends it. */
  function Returned(s: State, e: Event): Option<Outcome>
    requires Enabled(s, e)
  {
    if EntersLock(e) && e.t == 0 && Arriving(s, e).queue == [] && Arriving(s, e).nTodo == 0 then
      Some(Arriving(s, e).result)
    else None
  }

  // ----- counting threads

  function Sum(threads: seq<Thread>, f: Thread -> nat): nat {
    if threads == [] then 0 else f(threads[0]) + Sum(threads[1..], f)
  }

  function BatchOf(th: Thread): nat { if th.Holding? then |th.batch| else 0 }
  function InsideOf(th: Thread): nat { if th.Outside? then 0 else 1 }
  function IdleOf(th: Thread): nat { if th.Waiting? then 1 else 0 }

  lemma {:induction false} SumUpdate(threads: seq<Thread>, t: nat, th: Thread, f: Thread -> nat)
    requires t < |threads|
    ensures Sum(threads[t := th], f) == Sum(threads, f) - f(threads[t]) + f(th)
    ensures Sum(threads, f) >= f(threads[t])
  {
    if t == 0 {
      assert threads[t := th][1..] == threads[1..];
    } else {
      assert threads[t := th][1..] == threads[1..][t - 1 := th];
      SumUpdate(threads[1..], t - 1, th, f);
    }
  }

  lemma SumsUpdate(threads: seq<Thread>, t: nat, th: Thread)
    requires t < |threads|
    ensures var threads' := threads[t := th];
            && Sum(threads', BatchOf) == Sum(threads, BatchOf) - BatchOf(threads[t]) + BatchOf(th)
            && Sum(threads', InsideOf) == Sum(threads, InsideOf) - InsideOf(threads[t]) + InsideOf(th)
            && Sum(threads', IdleOf) == Sum(threads, IdleOf) - IdleOf(threads[t]) + IdleOf(th)
    ensures Sum(threads, BatchOf) >= BatchOf(threads[t]) && Sum(threads, IdleOf) >= IdleOf(threads[t])
  {
    SumUpdate(threads, t, th, BatchOf);
    SumUpdate(threads, t, th, InsideOf);
    SumUpdate(threads, t, th, IdleOf);
  }

  /** A positive total is held by someone. */
  lemma {:induction false} SomeHolds(threads: seq<Thread>) returns (t: nat)
    requires Sum(threads, BatchOf) > 0
    ensures t < |threads| && threads[t].Holding?
  {
    if threads[0].Holding? {
      t := 0;
    } else {
      t := SomeHolds(threads[1..]);
      t := t + 1;
    }
  }

  // ----- the invariant

  ghost predicate Logged(s: State, c: nat) { exists o :: (c, o) in s.log }

  ghost predicate Held(s: State, c: nat) {
    exists t :: 0 <= t < |s.threads| && s.threads[t].Holding? && c in s.threads[t].batch
  }

  /** Some thread has found a failure it has not published yet. */
  ghost predicate Pending(s: State) {
    exists t :: 0 <= t < |s.threads| && s.threads[t].Holding? && s.threads[t].pos > 0 && s.threads[t].localResult.Some?
  }

  ghost predicate ThreadOk(s: State, th: Thread) {
    th.Holding? ==>
      && th.batch != [] && th.pos <= |th.batch|
      && (forall c :: c in th.batch ==> c in s.added)
      && (!th.doWork ==> s.result.Some? && th.pos == 0)
      && (forall i {:trigger th.batch[i]} :: 0 <= i < th.pos ==> Logged(s, th.batch[i]))
      && (th.pos > 0 && th.localResult.Some? ==> (th.batch[th.pos - 1], th.localResult) in s.log)
  }

  /** Nothing is lost: each added check is queued, held, executed, or a failure is known. */
  ghost predicate Covered(s: State, c: nat) {
    c in s.queue || Held(s, c) || Logged(s, c) || s.result.Some?
  }

  ghost predicate RoundOk(s: State) {
    && (forall c {:trigger Covered(s, c)} :: c in s.added ==> Covered(s, c))
    && (forall c :: c in s.queue ==> c in s.added)
    && (forall c, o :: (c, o) in s.log ==> c in s.added)
    && (s.result.Some? ==> exists c :: (c, s.result) in s.log)
    && (forall c, o :: (c, o) in s.log && o.Some? ==> s.result.Some? || Pending(s))
  }

  ghost predicate CountsOk(s: State, inside: nat) {
    && s.nTodo == |s.queue| + Sum(s.threads, BatchOf)
    && s.nTotal == Sum(s.threads, InsideOf) + inside
    && s.nIdle == Sum(s.threads, IdleOf)
  }

  /** A waiting master has nothing to take, and has been notified exactly if nothing is in flight. */
  ghost predicate MasterOk(s: State) {
    |s.threads| > 0 && (s.threads[0].Waiting? ==> s.queue == [] && (s.threads[0].notified <==> s.nTodo == 0))
  }

  /** The invariant; `inside` counts a thread that is inside the lock but in no recorded place. */
  ghost predicate Inv(s: State, inside: nat) {
    && CountsOk(s, inside) && MasterOk(s) && RoundOk(s)
    && forall t {:trigger s.threads[t]} :: 0 <= t < |s.threads| ==> ThreadOk(s, s.threads[t])
  }

  function Init(workers: nat, batchSize: nat): State {
    State([], 0, 0, 0, None, seq(workers + 1, _ => Outside), batchSize, {}, {})
  }

  lemma {:induction false} AllOutside(threads: seq<Thread>)
    requires forall th :: th in threads ==> th.Outside?
    ensures Sum(threads, BatchOf) == 0 && Sum(threads, InsideOf) == 0 && Sum(threads, IdleOf) == 0
  {
    if threads != [] {
      assert threads[0] in threads;
      AllOutside(threads[1..]);
    }
  }

  lemma InitInv(workers: nat, batchSize: nat)
    ensures Inv(Init(workers, batchSize), 0)
  {
    AllOutside(Init(workers, batchSize).threads);
  }

  lemma AddInv(s: State, checks: seq<nat>)
    requires Inv(s, 0) && Enabled(s, Add(checks))
    ensures Inv(Step(s, Add(checks)), 0)
  {
    var s' := Step(s, Add(checks));
    forall c | c in s'.added
      ensures Covered(s', c)
    {
      if c in s.added {
        assert Covered(s, c);
        KeepsHeld(s, s', c);
      }
    }
    forall t | 0 <= t < |s.threads|
      ensures ThreadOk(s', s'.threads[t])
    {
      ThreadKept(s, s', s.threads[t]);
    }
    if Pending(s) {
      KeepsPending(s, s');
    }
  }

  lemma KeepsHeld(s: State, s': State, c: nat)
    requires s'.threads == s.threads
    ensures Held(s, c) ==> Held(s', c)
  {
  }

  lemma KeepsPending(s: State, s': State)
    requires s'.threads == s.threads
    ensures Pending(s) ==> Pending(s')
  {
  }

  /** What a thread claims stays true as the round goes on. */
  lemma ThreadKept(s: State, s': State, th: Thread)
    requires ThreadOk(s, th) && s.added <= s'.added && s.log <= s'.log && (s.result.Some? ==> s'.result.Some?)
    ensures ThreadOk(s', th)
  {
    if th.Holding? {
      forall i | 0 <= i < th.pos
        ensures Logged(s', th.batch[i])
      {
        assert Logged(s, th.batch[i]);
      }
    }
  }

  lemma ExecuteInv(s: State, t: nat, outcome: Outcome)
    requires Inv(s, 0) && Enabled(s, Execute(t, outcome))
    ensures Inv(Step(s, Execute(t, outcome)), 0)
  {
    var s' := Step(s, Execute(t, outcome));
    SumsUpdate(s.threads, t, s'.threads[t]);
    forall u | 0 <= u < |s'.threads|
      ensures ThreadOk(s', s'.threads[u])
    {
      if u != t {
        assert s'.threads[u] == s.threads[u];
        ThreadKept(s, s', s.threads[u]);
      } else {
        ExecuteThread(s, t, outcome);
      }
    }
    ExecuteRound(s, t, outcome);
  }

  lemma ExecuteThread(s: State, t: nat, outcome: Outcome)
    requires Inv(s, 0) && Enabled(s, Execute(t, outcome))
    ensures var s' := Step(s, Execute(t, outcome)); ThreadOk(s', s'.threads[t])
  {
    var s' := Step(s, Execute(t, outcome));
    var th, th' := s.threads[t], s'.threads[t];
    assert ThreadOk(s, th) && (th.batch[th.pos], outcome) in s'.log;
    forall i | 0 <= i < th'.pos
      ensures Logged(s', th'.batch[i])
    {
      assert i < th.pos ==> Logged(s, th.batch[i]);
    }
  }

  lemma ExecuteRound(s: State, t: nat, outcome: Outcome)
    requires Inv(s, 0) && Enabled(s, Execute(t, outcome))
    ensures RoundOk(Step(s, Execute(t, outcome)))
  {
    var s' := Step(s, Execute(t, outcome));
    assert ThreadOk(s, s.threads[t]);
    forall d | d in s'.added
      ensures Covered(s', d)
    {
      assert Covered(s, d);
      if Held(s, d) {
        var u :| 0 <= u < |s.threads| && s.threads[u].Holding? && d in s.threads[u].batch;
        assert s'.threads[u].Holding? && d in s'.threads[u].batch;
      }
    }
    if outcome.Some? {
      assert s'.threads[t].Holding? && s'.threads[t].pos > 0;
    } else if Pending(s) {
      var u :| 0 <= u < |s.threads| && s.threads[u].Holding? && s.threads[u].pos > 0 && s.threads[u].localResult.Some?;
      assert s'.threads[u] == s.threads[u];
    }
    if s.result.Some? {
      var d :| (d, s.result) in s.log;
      assert (d, s'.result) in s'.log;
    }
  }

  lemma EnterInv(s: State, t: nat)
    requires Inv(s, 0) && Enabled(s, Enter(t))
    ensures Inv(Arriving(s, Enter(t)), 1)
  {
    var s' := Arriving(s, Enter(t));
    SameRound(s, s');
  }

  lemma WakeInv(s: State, t: nat)
    requires Inv(s, 0) && Enabled(s, Wake(t))
    ensures Inv(Arriving(s, Wake(t)), 1)
  {
    var s' := Arriving(s, Wake(t));
    SumsUpdate(s.threads, t, Outside);
    SameRound(s, s');
  }

  /** Threads that hold a batch are the same, and so are the round's fields. */
  lemma SameRound(s: State, s': State)
    requires RoundOk(s) && s'.queue == s.queue && s'.result == s.result && s'.added == s.added && s'.log == s.log
    requires |s'.threads| == |s.threads| && forall t :: 0 <= t < |s.threads| && s.threads[t].Holding? ==>
                s'.threads[t] == s.threads[t]
    requires forall t {:trigger s.threads[t]} :: 0 <= t < |s.threads| ==> ThreadOk(s, s.threads[t])
    requires forall t :: 0 <= t < |s.threads| && s'.threads[t].Holding? ==> s'.threads[t] == s.threads[t]
    ensures RoundOk(s') && forall t {:trigger s'.threads[t]} :: 0 <= t < |s'.threads| ==> ThreadOk(s', s'.threads[t])
  {
    forall c | c in s'.added
      ensures Covered(s', c)
    {
      assert Covered(s, c);
      if Held(s, c) {
        var u :| 0 <= u < |s.threads| && s.threads[u].Holding? && c in s.threads[u].batch;
        assert s'.threads[u].Holding?;
      }
    }
    forall t | 0 <= t < |s'.threads|
      ensures ThreadOk(s', s'.threads[t])
    {
      ThreadKept(s, s', s.threads[t]);
    }
    if Pending(s) {
      var u :| 0 <= u < |s.threads| && s.threads[u].Holding? && s.threads[u].pos > 0 && s.threads[u].localResult.Some?;
      assert s'.threads[u] == s.threads[u];
    }
  }

  /** A finished batch is executed to the end, or a failure is known once its own is published. A failure
      is only published by a thread that did work in this round, so it is one of this round's. */
  lemma CleanUpCovered(s: State, t: nat)
    requires Inv(s, 0) && Enabled(s, CleanUp(t))
    ensures var s' := Cleaned(s, t);
            forall c :: c in s'.added ==> Covered(s', c)
  {
    var s', th := Cleaned(s, t), s.threads[t];
    assert ThreadOk(s, th);
    forall c | c in s'.added
      ensures Covered(s', c)
    {
      assert Covered(s, c);
      if Held(s, c) && s'.result.None? {
        var u :| 0 <= u < |s.threads| && s.threads[u].Holding? && c in s.threads[u].batch;
        if u == t {
          var i :| 0 <= i < |th.batch| && th.batch[i] == c;
          assert Logged(s, th.batch[i]);
        } else {
          assert s'.threads[u] == s.threads[u];
        }
      }
    }
  }

  lemma CleanUpRound(s: State, t: nat)
    requires Inv(s, 0) && Enabled(s, CleanUp(t))
    ensures var s' := Cleaned(s, t);
            RoundOk(s') && forall u {:trigger s'.threads[u]} :: 0 <= u < |s'.threads| ==> ThreadOk(s', s'.threads[u])
  {
    var s', th := Cleaned(s, t), s.threads[t];
    assert ThreadOk(s, th);
    CleanUpCovered(s, t);
    if s'.result.None? && Pending(s) {
      var u :| 0 <= u < |s.threads| && s.threads[u].Holding? && s.threads[u].pos > 0 && s.threads[u].localResult.Some?;
      assert u != t && s'.threads[u] == s.threads[u];
    }
    if s'.result.Some? && s.result.None? {
      assert th.doWork && th.pos > 0;
      assert (th.batch[th.pos - 1], s'.result) in s'.log;
    }
    forall u | 0 <= u < |s'.threads|
      ensures ThreadOk(s', s'.threads[u])
    {
      ThreadKept(s, s', s.threads[u]);
    }
  }

  lemma CleanUpCounts(s: State, t: nat)
    requires Inv(s, 0) && Enabled(s, CleanUp(t))
    ensures CountsOk(Cleaned(s, t), 1) && MasterOk(Cleaned(s, t))
  {
    SumsUpdate(s.threads, t, Outside);
    var threads := s.threads[t := Outside];
    if threads[0].Waiting? {
      SumsUpdate(threads, 0, threads[0].(notified := true));
    }
  }

  lemma DecideCounts(s: State, t: nat, localResult: Outcome)
    requires Inv(s, 1) && t < |s.threads| && s.threads[t].Outside?
    ensures Counted(s) && CountsOk(Decide(s, t, localResult), 0) && MasterOk(Decide(s, t, localResult))
  {
    var s' := Decide(s, t, localResult);
    SumsUpdate(s.threads, t, s'.threads[t]);
    if s.queue != [] {
      NextBatchFits(s);
    }
  }

  /** With nothing queued or in flight, nobody holds a batch. */
  lemma {:induction false} NoneHolds(threads: seq<Thread>)
    requires Sum(threads, BatchOf) == 0
    ensures forall th :: th in threads && th.Holding? ==> th.batch == []
  {
    if threads != [] {
      assert threads == [threads[0]] + threads[1..];
      NoneHolds(threads[1..]);
    }
  }

  lemma DecideRound(s: State, t: nat, localResult: Outcome)
    requires Inv(s, 1) && t < |s.threads| && s.threads[t].Outside? && Counted(s)
    ensures var s' := Decide(s, t, localResult);
            RoundOk(s') && forall u {:trigger s'.threads[u]} :: 0 <= u < |s'.threads| ==> ThreadOk(s', s'.threads[u])
  {
    var s' := Decide(s, t, localResult);
    if s.queue == [] {
      if t == 0 && s.nTodo == 0 {
        NoneHolds(s.threads);
        forall u | 0 <= u < |s'.threads|
          ensures ThreadOk(s', s'.threads[u])
        {
          assert u != t ==> s'.threads[u] in s.threads && ThreadOk(s, s.threads[u]);
        }
      } else {
        SameRound(s, s');
      }
    } else {
      DecideTakes(s, t, localResult);
    }
  }

  lemma DecideTakes(s: State, t: nat, localResult: Outcome)
    requires Inv(s, 1) && t < |s.threads| && s.threads[t].Outside? && Counted(s) && s.queue != []
    ensures var s' := Decide(s, t, localResult);
            RoundOk(s') && forall u {:trigger s'.threads[u]} :: 0 <= u < |s'.threads| ==> ThreadOk(s', s'.threads[u])
  {
    NextBatchFits(s);
    var s', start := Decide(s, t, localResult), |s.queue| - NextBatch(s);
    assert s.queue == s.queue[..start] + s.queue[start..];
    forall c | c in s'.added
      ensures Covered(s', c)
    {
      assert Covered(s, c);
      if c in s.queue[start..] {
        assert s'.threads[t].Holding? && c in s'.threads[t].batch;
      } else if Held(s, c) {
        var u :| 0 <= u < |s.threads| && s.threads[u].Holding? && c in s.threads[u].batch;
        assert s'.threads[u] == s.threads[u];
      }
    }
    if Pending(s) {
      var u :| 0 <= u < |s.threads| && s.threads[u].Holding? && s.threads[u].pos > 0 && s.threads[u].localResult.Some?;
      assert s'.threads[u] == s.threads[u];
    }
    forall u | 0 <= u < |s'.threads|
      ensures ThreadOk(s', s'.threads[u])
    {
      if u != t {
        ThreadKept(s, s', s.threads[u]);
      }
    }
  }

  lemma ArrivingInv(s: State, e: Event)
    requires Inv(s, 0) && Enabled(s, e) && EntersLock(e)
    ensures var s' := Arriving(s, e); Inv(s', 1) && e.t < |s'.threads| && s'.threads[e.t].Outside?
  {
    match e
    case Enter(t) => EnterInv(s, t);
    case Wake(t) => WakeInv(s, t);
    case CleanUp(t) =>
      CleanUpRound(s, t);
      CleanUpCounts(s, t);
  }

  /** Every step keeps the invariant. */
  lemma StepInv(s: State, e: Event)
    requires Inv(s, 0) && Enabled(s, e)
    ensures Inv(Step(s, e), 0)
  {
    match e
    case Add(checks) => AddInv(s, checks);
    case Execute(t, outcome) => ExecuteInv(s, t, outcome);
    case _ =>
      ArrivingInv(s, e);
      DecideCounts(Arriving(s, e), e.t, LocalResult(s, e));
      DecideRound(Arriving(s, e), e.t, LocalResult(s, e));
  }

  // ----- what Complete returns

  /** Every check of the round was executed and reported no failure. */
  ghost predicate AllPassed(s: State) {
    forall c {:trigger c in s.added} :: c in s.added ==>
        (c, None) in s.log && forall f: Failure :: (c, Some(f)) !in s.log
  }

  /** Complete returns nothing exactly when every check of the round was executed and passed, and
      otherwise a failure that a check of this very round reported. */
  lemma CompleteCorrect(s: State, e: Event)
    requires Inv(s, 0) && Enabled(s, e) && Returned(s, e).Some?
    ensures Returned(s, e).value.None? <==> AllPassed(s)
    ensures Returned(s, e).value.Some? ==> exists c :: c in s.added && (c, Returned(s, e).value) in s.log
  {
    var a := Arriving(s, e);
    ArrivingInv(s, e);
    assert a.log == s.log && a.added == s.added;
    NoneHolds(a.threads);
    forall u | 0 <= u < |a.threads|
      ensures !a.threads[u].Holding?
    {
      assert a.threads[u] in a.threads && ThreadOk(a, a.threads[u]);
    }
    if a.result.None? {
      forall c | c in s.added
        ensures (c, None) in s.log && forall f: Failure :: (c, Some(f)) !in s.log
      {
        assert Covered(a, c);
        var o :| (c, o) in a.log;
      }
    } else {
      var c :| (c, a.result) in a.log;
      assert c in s.added;
    }
  }

  /** A master that waits without having been notified is waiting for a worker that holds a batch. */
  lemma MasterNeverForgotten(s: State) returns (t: nat)
    requires Inv(s, 0) && s.threads[0].Waiting? && !s.threads[0].notified
    ensures 0 < t < |s.threads| && s.threads[t].Holding?
    ensures Enabled(s, CleanUp(t)) || Enabled(s, Execute(t, None))
  {
    t := SomeHolds(s.threads);
    assert ThreadOk(s, s.threads[t]);
  }

  // ----- Complete returns

  /** Checks still to be executed from a held batch. */
  function RestOf(th: Thread): nat { if th.Holding? && th.pos <= |th.batch| then |th.batch| - th.pos else 0 }

  /** What is left to do: it falls with every check executed and every batch accounted for. */
  ghost function Work(s: State): int { 2 * s.nTodo + |s.queue| + Sum(s.threads, RestOf) }

  predicate IsWork(e: Event) { e.Execute? || e.CleanUp? }

  lemma {:induction false} WorkNonNegative(s: State)
    requires Inv(s, 0)
    ensures Work(s) >= 0
  {
  }

  /** Looking at the queue moves work from the queue to a batch, if anything. */
  lemma {:induction false} DecideWork(s: State, t: nat, localResult: Outcome)
    requires t < |s.threads| && Counted(s) && RestOf(s.threads[t]) == 0
    ensures Work(Decide(s, t, localResult)) == Work(s)
  {
    var s' := Decide(s, t, localResult);
    SumUpdate(s.threads, t, s'.threads[t], RestOf);
    if s.queue != [] {
      NextBatchFits(s);
    }
  }

  lemma {:induction false} CleanedWork(s: State, t: nat)
    requires Inv(s, 0) && Enabled(s, CleanUp(t))
    ensures Work(Cleaned(s, t)) < Work(s)
  {
    assert ThreadOk(s, s.threads[t]);
    SumUpdate(s.threads, t, Outside, RestOf);
    var threads := s.threads[t := Outside];
    if threads[0].Waiting? {
      SumUpdate(threads, 0, threads[0].(notified := true), RestOf);
    }
  }

  /** No step but Add makes work, and each executed check and each clean-up does some. */
  lemma {:induction false} StepWork(s: State, e: Event)
    requires Inv(s, 0) && Enabled(s, e) && !e.Add?
    ensures Work(Step(s, e)) <= Work(s) && (IsWork(e) ==> Work(Step(s, e)) < Work(s))
  {
    if e.Execute? {
      assert ThreadOk(s, s.threads[e.t]);
      SumUpdate(s.threads, e.t, Step(s, e).threads[e.t], RestOf);
    } else {
      ArrivingInv(s, e);
      DecideWork(Arriving(s, e), e.t, LocalResult(s, e));
      if e.CleanUp? {
        CleanedWork(s, e.t);
      } else {
        SumUpdate(s.threads, e.t, Outside, RestOf);
      }
    }
  }

  /** The next event of a thread that holds a batch, when the check at hand returns what `outcomes` says. */
  function NextOf(s: State, t: nat, outcomes: nat -> Outcome): Event
    requires t < |s.threads| && s.threads[t].Holding?
  {
    var th := s.threads[t];
    if Executed(th) then CleanUp(t) else Execute(t, outcomes(th.batch[th.pos]))
  }

  /** Something can happen until Complete has returned, without relying on a wake-up that nobody asked for: the master
      works or, when it waits, a worker does, or the master has been notified. */
  lemma {:induction false} NotStuck(s: State, outcomes: nat -> Outcome) returns (e: Event)
    requires Inv(s, 0)
    ensures Enabled(s, e) && Willing(s, e, outcomes)
    ensures Returned(s, e).Some? || IsWork(e) || (s.threads[0].Outside? && e == Enter(0))
    ensures e.Wake? || e.Enter? ==> e.t == 0
  {
    var master := s.threads[0];
    if master.Outside? {
      e := Enter(0);
    } else if master.Holding? {
      e := NextOf(s, 0, outcomes);
    } else if master.notified {
      SumsUpdate(s.threads, 0, master);
      e := Wake(0);
    } else {
      var t := MasterNeverForgotten(s);
      e := NextOf(s, t, outcomes);
    }
  }

  /** No thread is ever stuck: outside it can enter, holding a batch it goes on with it, and waiting it can be woken. */
  lemma {:induction false} CanMove(s: State, t: nat, outcomes: nat -> Outcome)
    requires Inv(s, 0) && t < |s.threads|
    ensures match s.threads[t]
            case Outside => Enabled(s, Enter(t))
            case Waiting(_, _) => Enabled(s, Wake(t))
            case Holding(_, _, _, _) => Enabled(s, NextOf(s, t, outcomes))
  {
    SumsUpdate(s.threads, t, s.threads[t]);
  }

  /** The event wakes nobody who was not notified, and a check returns what `outcomes` says. */
  predicate Willing(s: State, e: Event, outcomes: nat -> Outcome)
    requires Enabled(s, e)
  {
    match e
    case Wake(t) => s.threads[t].notified
    case Execute(t, outcome) => outcome == outcomes(s.threads[t].batch[s.threads[t].pos])
    case Add(_) => false
    case _ => true
  }

  // ----- whole runs

  predicate AllEnabled(s: State, events: seq<Event>)
    decreases events
  {
    events == [] || (Enabled(s, events[0]) && AllEnabled(Step(s, events[0]), events[1..]))
  }

  function Run(s: State, events: seq<Event>): State
    requires AllEnabled(s, events)
    decreases events
  {
    if events == [] then s else Run(Step(s, events[0]), events[1..])
  }

  lemma {:induction false} RunInv(s: State, events: seq<Event>)
    requires Inv(s, 0) && AllEnabled(s, events)
    ensures Inv(Run(s, events), 0)
    decreases events
  {
    if events != [] {
      StepInv(s, events[0]);
      RunInv(Step(s, events[0]), events[1..]);
    }
  }

  /** In every interleaving, of any number of workers: the counters are exact, whenever Complete returns, it
      returns the right thing, and whatever the remaining checks return, it can be brought to its end. */
  lemma EveryRun(workers: nat, batchSize: nat, events: seq<Event>, e: Event, outcomes: nat -> Outcome)
    requires AllEnabled(Init(workers, batchSize), events)
    ensures var s := Run(Init(workers, batchSize), events);
            && s.nTodo == |s.queue| + Sum(s.threads, BatchOf)
            && s.nTotal == Sum(s.threads, InsideOf) && s.nIdle == Sum(s.threads, IdleOf)
            && (Enabled(s, e) && Returned(s, e).Some? ==>
                  && (Returned(s, e).value.None? <==> AllPassed(s))
                  && (Returned(s, e).value.Some? ==> exists c :: c in s.added && (c, Returned(s, e).value) in s.log))
            && exists more :: Completes(s, more, outcomes)
  {
    InitInv(workers, batchSize);
    RunInv(Init(workers, batchSize), events);
    var s := Run(Init(workers, batchSize), events);
    var more := CanComplete(s, outcomes);
    if Enabled(s, e) && Returned(s, e).Some? {
      CompleteCorrect(s, e);
    }
  }

  /** The events can happen one after another, and the last one ends Complete. */
  ghost predicate Completes(s: State, events: seq<Event>, outcomes: nat -> Outcome)
    decreases events
  {
    && events != [] && Enabled(s, events[0]) && Willing(s, events[0], outcomes)
    && if |events| == 1 then Returned(s, events[0]).Some? else Completes(Step(s, events[0]), events[1..], outcomes)
  }

  /** Whatever the checks return, Complete can be brought to its end without adding anything. */
  lemma {:induction false} CanComplete(s: State, outcomes: nat -> Outcome) returns (events: seq<Event>)
    requires Inv(s, 0)
    ensures Completes(s, events, outcomes)
    decreases Work(s), s.threads[0].Outside?
  {
    WorkNonNegative(s);
    var e := NotStuck(s, outcomes);
    if Returned(s, e).Some? {
      events := [e];
    } else {
      StepInv(s, e);
      StepWork(s, e);
      WorkNonNegative(Step(s, e));
      if e.Enter? {
        MasterStays(s, e);
      }
      var rest := CanComplete(Step(s, e), outcomes);
      events := [e] + rest;
      assert events[1..] == rest;
    }
  }

  lemma MasterStays(s: State, e: Event)
    requires Inv(s, 0) && Enabled(s, e) && Returned(s, e).None? && e == Enter(0)
    ensures !Step(s, e).threads[0].Outside?
  {
  }

  function WorkCount(events: seq<Event>): nat {
    if events == [] then 0 else (if IsWork(events[0]) then 1 else 0) + WorkCount(events[1..])
  }

  /** However the threads interleave, between two calls of Add no more than `Work` checks and clean-ups happen. */
  lemma {:induction false} WorkBounded(s: State, events: seq<Event>)
    requires Inv(s, 0) && AllEnabled(s, events) && forall e :: e in events ==> !e.Add?
    ensures WorkCount(events) + Work(Run(s, events)) <= Work(s)
    decreases events
  {
    if events != [] {
      StepInv(s, events[0]);
      StepWork(s, events[0]);
      WorkBounded(Step(s, events[0]), events[1..]);
    }
  }
}
