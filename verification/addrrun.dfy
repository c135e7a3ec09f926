// Whole runs of the address manager's operations (src/addrman.cpp).
module AddrRuns {
  import opened Options
  import opened AddrTables
  import opened AddrBooks
  import opened AddrManagers
  import opened AddrChecks

  // ----- runs

  datatype Op =
    | Add(addr: Service, time: int, services: set<nat>, source: nat, penalty: int, now: int, draw: nat)
    | Good(addr: Service, testBeforeEvict: bool, time: int)
    | Attempt(addr: Service, countFailure: bool, time: int)
    | Connected(addr: Service, time: int)
    | SetServices(addr: Service, services: set<nat>)
    | ResolveCollisions(now: int)
    | SelectTriedCollision(pick: nat)
    | GetAddr(maxAddresses: nat, maxPct: nat, network: Option<nat>, filtered: bool, now: int)

  /** Times handed to the manager are positive. */
  predicate PositiveTimes(op: Op) {
    match op
    case Good(_, _, time) => time > 0
    case Attempt(_, _, time) => time > 0
    case ResolveCollisions(now) => now > 0
    case _ => true
  }

  /** What an operation does to the entries and the tables. */
  ghost function Applied(c: Config, b: Book, op: Op): Book {
    match op
    case Add(addr, time, services, source, penalty, now, draw) =>
      Added(c, b, addr, time, services, source, penalty, now, draw).0
    case Good(addr, testBeforeEvict, time) => Succeeded(c, b, addr, testBeforeEvict, time).0
    case Attempt(addr, countFailure, time) =>
      Changed(b, addr, AfterAttempt(InfoOf(b, addr), countFailure, b.lastGood, time))
    case Connected(addr, time) => Changed(b, addr, AfterConnected(InfoOf(b, addr), time))
    case SetServices(addr, services) => Changed(b, addr, InfoOf(b, addr).(services := services))
    case ResolveCollisions(now) => AllResolved(c, b, b.collisions, now)
    case SelectTriedCollision(pick) => Picked(b, pick)
    case GetAddr(_, _, _, _, _) => b
  }

  ghost function AllApplied(c: Config, b: Book, ops: seq<Op>): Book {
    if ops == [] then b else Applied(c, AllApplied(c, b, ops[..|ops| - 1]), ops[|ops| - 1])
  }

  lemma {:induction false} AppliedNext(c: Config, b: Book, ops: seq<Op>, i: nat)
    requires i < |ops|
    ensures AllApplied(c, b, ops[..i + 1]) == Applied(c, AllApplied(c, b, ops[..i]), ops[i])
  {
    assert ops[..i + 1][..i] == ops[..i];
  }

  method Apply(man: AddrManImpl, op: Op)
    requires man.Valid() && PositiveTimes(op)
    modifies man
    ensures man.Valid() && Grown(old(man.infos), man.infos, old(man.idCount)) && man.idCount >= old(man.idCount)
    ensures old(man.tried).Keys <= man.tried.Keys && man.View() == Applied(man.cfg, old(man.View()), op)
  {
    hide Ok, CollisionsOk, Norm, Added, Succeeded, Changed, AllResolved, Picked;
    match op {
      case Add(addr, time, services, source, penalty, now, draw) =>
        var added := man.AddSingle(addr, time, services, source, penalty, now, draw);
      case Good(addr, testBeforeEvict, time) =>
        var moved := man.Good(addr, testBeforeEvict, time);
      case Attempt(addr, countFailure, time) =>
        man.Attempt(addr, countFailure, time);
      case Connected(addr, time) =>
        man.Connected(addr, time);
      case SetServices(addr, services) =>
        man.SetServices(addr, services);
      case ResolveCollisions(now) =>
        man.ResolveCollisions(now);
      case SelectTriedCollision(pick) =>
        var selected := man.SelectTriedCollision(pick);
      case GetAddr(maxAddresses, maxPct, network, filtered, now) =>
        var addresses, ids := man.GetAddr(maxAddresses, maxPct, network, filtered, now);
        CoreGrown(old(man.infos), man.infos, man.idCount);
    }
  }

  lemma GrownTrans(a: Infos, b: Infos, d: Infos, n: nat, m: nat)
    requires Grown(a, b, n) && Grown(b, d, m) && n <= m
    ensures Grown(a, d, n)
  {
    forall j | j in d
      ensures (j in a && a[j].service == d[j].service) || j >= n
    {
      if j < m {
        assert j in b && b[j] == b[j];
      }
    }
  }

  /** After every run from an empty manager the consistency check passes, and the entries and tables are those that the
      operations make of an empty book. */
  method Run(cfg: Config, ops: seq<Op>) returns (man: AddrManImpl)
    requires forall op :: op in ops ==> PositiveTimes(op)
    ensures fresh(man) && man.cfg == cfg && man.Valid() && CheckPasses(cfg, man.Value())
    ensures man.View() == AllApplied(cfg, EMPTY_BOOK, ops)
  {
    hide Applied, Ok, CollisionsOk, Norm;
    man := new AddrManImpl(cfg);
    assert ops[..0] == [];
    for i := 0 to |ops|
      invariant man.Valid() && fresh(man) && man.cfg == cfg && man.View() == AllApplied(cfg, EMPTY_BOOK, ops[..i])
    {
      assert ops[i] in ops;
      Apply(man, ops[i]);
      AppliedNext(cfg, EMPTY_BOOK, ops, i);
    }
    assert ops[..|ops|] == ops;
    ConsistentPasses(cfg, man.Value());
  }

  /** Over every run from a consistent state: the check passes, no occupied tried slot becomes empty, and ids are
      not reused. */
  method RunOn(man: AddrManImpl, ops: seq<Op>)
    requires man.Valid() && forall op :: op in ops ==> PositiveTimes(op)
    modifies man
    ensures man.Valid() && CheckPasses(man.cfg, man.Value())
    ensures old(man.tried).Keys <= man.tried.Keys && Grown(old(man.infos), man.infos, old(man.idCount))
  {
    hide Ok, CollisionsOk, Grown;
    GrownSelf(man.infos, man.idCount);
    for i := 0 to |ops|
      invariant man.Valid() && old(man.tried).Keys <= man.tried.Keys && old(man.idCount) <= man.idCount
      invariant Grown(old(man.infos), man.infos, old(man.idCount))
    {
      assert ops[i] in ops;
      ghost var before, n := man.infos, man.idCount;
      Apply(man, ops[i]);
      GrownTrans(old(man.infos), before, man.infos, old(man.idCount), n);
    }
    ConsistentPasses(man.cfg, man.Value());
  }
}
