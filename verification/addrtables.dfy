// The mutually redundant indexes of the address manager and what keeps them consistent
// (src/addrman_impl.h, src/addrman.cpp).
module AddrTables {
  import opened Options


  const TRIED_BUCKET_COUNT: nat := 256
  const NEW_BUCKET_COUNT: nat := 1024
  const BUCKET_SIZE: nat := 64
  const NEW_BUCKETS_PER_ADDRESS: nat := 8

  /** An address and port, with the network it belongs to. */
  datatype Service = Service(key: nat, network: nat)

  datatype AddrInfo = AddrInfo(
    service: Service, time: int, services: set<nat>, source: nat, lastTry: int, lastCountAttempt: int, lastSuccess: int,
    attempts: int, refCount: int, inTried: bool, randomPos: nat)

  datatype Slot = Slot(bucket: nat, position: nat)

  /** The keyed bucket hashes, and the facts about addresses that are decided elsewhere. */
  datatype Config = Config(
    triedBucket: Service -> nat, newBucket: (Service, nat) -> nat, position: (Service, bool, nat) -> nat,
    netAddr: Service -> nat, netClass: Service -> nat, routable: Service -> bool, valid: Service -> bool)

  /** Bucket hashes are reduced modulo the table dimensions. */
  function TriedBucket(c: Config, s: Service): nat { c.triedBucket(s) % TRIED_BUCKET_COUNT }
  function NewBucket(c: Config, s: Service, source: nat): nat { c.newBucket(s, source) % NEW_BUCKET_COUNT }
  function Position(c: Config, s: Service, isNew: bool, bucket: nat): nat { c.position(s, isNew, bucket) % BUCKET_SIZE }

  function TriedSlot(c: Config, s: Service): Slot {
    var b := TriedBucket(c, s);
    Slot(b, Position(c, s, false, b))
  }

  /** The only place in a new bucket that an address can have. */
  function NewSlot(c: Config, s: Service, bucket: nat): Slot { Slot(bucket, Position(c, s, true, bucket)) }

  type Infos = map<nat, AddrInfo>

  // ----- the indexes

  /** `mapAddr` inverts the addresses of `infos`; `vRandom` is a permutation of its ids, with each entry's
      place recorded in the entry. */
  ghost predicate Indexed(infos: Infos, mapAddr: map<Service, nat>, vRandom: seq<nat>, idCount: nat) {
    && (forall id :: id in infos ==> InfoIndexed(infos, mapAddr, vRandom, idCount, id))
    && (forall s :: s in mapAddr ==> mapAddr[s] in infos && infos[mapAddr[s]].service == s)
    && (forall k :: 0 <= k < |vRandom| ==> vRandom[k] in infos && infos[vRandom[k]].randomPos == k)
  }

  ghost predicate InfoIndexed(infos: Infos, mapAddr: map<Service, nat>, vRandom: seq<nat>, idCount: nat, id: nat)
    requires id in infos
  {
    var info := infos[id];
    && id < idCount && info.service in mapAddr && mapAddr[info.service] == id
    && info.randomPos < |vRandom| && vRandom[info.randomPos] == id
    && info.lastTry >= 0 && info.lastSuccess >= 0
  }

  /** Each tried entry has exactly its own slot. */
  ghost predicate TriedOk(c: Config, infos: Infos, tried: map<Slot, nat>) {
    && (forall id :: id in infos && infos[id].inTried ==>
          infos[id].lastSuccess > 0 && TriedSlot(c, infos[id].service) in tried
              && tried[TriedSlot(c, infos[id].service)] == id)
    && (forall s :: s in tried ==>
        tried[s] in infos && infos[tried[s]].inTried && TriedSlot(c, infos[tried[s]].service) == s)
  }

  ghost function Places(news: map<Slot, nat>, id: nat): set<Slot> {
    set s | s in news && news[s] == id
  }

  /** New-table slots hold untried entries in the right place, and the reference counts are exact. */
  ghost predicate NewOk(c: Config, infos: Infos, news: map<Slot, nat>) {
    && (forall s :: s in news ==>
          news[s] in infos && !infos[news[s]].inTried && s.bucket < NEW_BUCKET_COUNT
              && NewSlot(c, infos[news[s]].service, s.bucket) == s)
    && (forall id :: id in infos ==> infos[id].refCount == |Places(news, id)|)
  }

  /** Reference counts of untried entries, except those in `loose`, are 1 to 8. */
  ghost predicate RefsOk(infos: Infos, loose: set<nat>) {
    forall id :: id in infos ==>
      0 <= infos[id].refCount <= NEW_BUCKETS_PER_ADDRESS && (!infos[id].inTried && id !in loose ==>
          infos[id].refCount > 0)
  }

  /** The counted ids of one table, overall or for one network. */
  ghost function Members(infos: Infos, limbo: set<nat>, inTried: bool, net: Option<nat>): set<nat> {
    set id | id in infos && id !in limbo && infos[id].inTried == inTried
        && (net.None? || infos[id].service.network == net.value)
  }

  datatype NewTried = NewTried(new_: nat, tried: nat)

  function CountOf(counts: map<nat, NewTried>, net: nat): NewTried {
    if net in counts then counts[net] else NewTried(0, 0)
  }

  /** Global and per-network counts; entries in `limbo` are between tables and not counted. */
  ghost predicate CountsOk(infos: Infos, nTried: int, nNew: int, counts: map<nat, NewTried>, limbo: set<nat>) {
    && nTried == |Members(infos, limbo, true, None)| && nNew == |Members(infos, limbo, false, None)|
    && forall net :: NetOk(infos, counts, limbo, net)
  }

  ghost predicate NetOk(infos: Infos, counts: map<nat, NewTried>, limbo: set<nat>, net: nat) {
    CountOf(counts, net) == NewTried(|Members(infos, limbo, false, Some(net))|,
        |Members(infos, limbo, true, Some(net))|)
  }

  /** Ids waiting to be moved into an occupied tried slot. */
  ghost predicate CollisionsOk(c: Config, infos: Infos, tried: map<Slot, nat>, collisions: set<nat>, idCount: nat) {
    forall id :: id in collisions ==> id < idCount && (id in infos ==> TriedSlot(c, infos[id].service) in tried)
  }

  // ----- changes that no table depends on

  /** The same entries, up to their places in the random order. */
  ghost predicate SameCore(a: Infos, b: Infos) {
    a.Keys == b.Keys && forall id {:trigger b[id]} :: id in b ==> CoreEqual(a[id], b[id])
  }

  /** Equal up to the place in the random order. */
  predicate CoreEqual(a: AddrInfo, b: AddrInfo) {
    a == b.(randomPos := a.randomPos)
  }

  lemma MembersSame(a: Infos, b: Infos, limbo: set<nat>, inTried: bool, net: Option<nat>)
    requires a.Keys == b.Keys
    requires forall id :: id in a && id !in limbo ==> a[id].service == b[id].service && a[id].inTried == b[id].inTried
    ensures Members(a, limbo, inTried, net) == Members(b, limbo, inTried, net)
  {
  }

  lemma CountsSame(a: Infos, b: Infos, nTried: int, nNew: int, counts: map<nat, NewTried>, limbo: set<nat>)
    requires CountsOk(a, nTried, nNew, counts, limbo) && a.Keys == b.Keys
    requires forall id :: id in a && id !in limbo ==> a[id].service == b[id].service && a[id].inTried == b[id].inTried
    ensures CountsOk(b, nTried, nNew, counts, limbo)
  {
    MembersSame(a, b, limbo, true, None);
    MembersSame(a, b, limbo, false, None);
    hide Members;
    forall net
      ensures NetOk(b, counts, limbo, net)
    {
      assert NetOk(a, counts, limbo, net);
      MembersSame(a, b, limbo, true, Some(net));
      MembersSame(a, b, limbo, false, Some(net));
    }
  }

  lemma CoreKeeps(c: Config, a: Infos, b: Infos, tried: map<Slot, nat>, news: map<Slot, nat>, loose: set<nat>)
    requires SameCore(a, b)
    ensures TriedOk(c, a, tried) ==> TriedOk(c, b, tried)
    ensures NewOk(c, a, news) ==> NewOk(c, b, news)
    ensures RefsOk(a, loose) ==> RefsOk(b, loose)
  {
    hide TriedSlot, NewSlot, Places;
    forall id | id in b
      ensures CoreEqual(a[id], b[id])
    {
      assert b[id] == b[id];
    }
  }

  // ----- counting

  predicate Counts(info: AddrInfo, inTried: bool, net: Option<nat>) {
    info.inTried == inTried && (net.None? || info.service.network == net.value)
  }

  lemma CountOne(infos: Infos, limbo: set<nat>, id: nat, inTried: bool, net: Option<nat>)
    requires id in infos && id !in limbo
    ensures |Members(infos, limbo, inTried, net)| ==
            |Members(infos, limbo + {id}, inTried, net)| + if Counts(infos[id], inTried, net) then 1 else 0
  {
    var a, b := Members(infos, limbo, inTried, net), Members(infos, limbo + {id}, inTried, net);
    assert id !in b;
    if Counts(infos[id], inTried, net) {
      assert a == b + {id};
    } else {
      assert a == b;
    }
  }

  /** Adjust the count of one table for one network. */
  function More(counts: map<nat, NewTried>, net: nat, inTried: bool): map<nat, NewTried> {
    var n := CountOf(counts, net);
    counts[net := if inTried then n.(tried := n.tried + 1) else n.(new_ := n.new_ + 1)]
  }

  function Less(counts: map<nat, NewTried>, net: nat, inTried: bool): map<nat, NewTried>
    requires if inTried then CountOf(counts, net).tried > 0 else CountOf(counts, net).new_ > 0
  {
    var n := CountOf(counts, net);
    counts[net := if inTried then n.(tried := n.tried - 1) else n.(new_ := n.new_ - 1)]
  }

  /** Taking an entry out of the counts. */
  lemma Uncount(infos: Infos, nTried: int, nNew: int, counts: map<nat, NewTried>, limbo: set<nat>, id: nat)
    requires CountsOk(infos, nTried, nNew, counts, limbo) && id in infos && id !in limbo
    ensures var net, t := infos[id].service.network, infos[id].inTried;
            && (if t then CountOf(counts, net).tried > 0 else CountOf(counts, net).new_ > 0)
            && CountsOk(infos, if t then nTried - 1 else nTried, if t then nNew else nNew - 1, Less(counts, net, t),
                limbo + {id})
  {
    var net, t := infos[id].service.network, infos[id].inTried;
    CountOne(infos, limbo, id, true, None);
    CountOne(infos, limbo, id, false, None);
    CountOne(infos, limbo, id, t, Some(net));
    hide Members;
    assert NetOk(infos, counts, limbo, net);
    forall n
      ensures NetOk(infos, Less(counts, net, t), limbo + {id}, n)
    {
      assert NetOk(infos, counts, limbo, n);
      CountOne(infos, limbo, id, true, Some(n));
      CountOne(infos, limbo, id, false, Some(n));
    }
  }

  /** Putting it back. */
  lemma Recount(infos: Infos, nTried: int, nNew: int, counts: map<nat, NewTried>, limbo: set<nat>, id: nat)
    requires CountsOk(infos, nTried, nNew, counts, limbo + {id}) && id in infos && id !in limbo
    ensures var net, t := infos[id].service.network, infos[id].inTried;
            CountsOk(infos, if t then nTried + 1 else nTried, if t then nNew else nNew + 1, More(counts, net, t), limbo)
  {
    var net, t := infos[id].service.network, infos[id].inTried;
    CountOne(infos, limbo, id, true, None);
    CountOne(infos, limbo, id, false, None);
    hide Members;
    forall n
      ensures NetOk(infos, More(counts, net, t), limbo, n)
    {
      assert NetOk(infos, counts, limbo + {id}, n);
      CountOne(infos, limbo, id, true, Some(n));
      CountOne(infos, limbo, id, false, Some(n));
    }
  }

  /** An entry in limbo may come or go without being counted. */
  lemma LimboFree(a: Infos, b: Infos, nTried: int, nNew: int, counts: map<nat, NewTried>, limbo: set<nat>,
                  limbo': set<nat>)
    requires CountsOk(a, nTried, nNew, counts, limbo)
    requires a.Keys - limbo == b.Keys - limbo'
    requires forall id :: id in a && id !in limbo ==>
                id in b && a[id].service == b[id].service && a[id].inTried == b[id].inTried
    ensures CountsOk(b, nTried, nNew, counts, limbo')
  {
    forall inTried, net
      ensures Members(a, limbo, inTried, net) == Members(b, limbo', inTried, net)
    {
      MembersEqual(a, b, limbo, limbo', inTried, net);
    }
    hide Members;
    forall net
      ensures NetOk(b, counts, limbo', net)
    {
      assert NetOk(a, counts, limbo, net);
    }
  }

  lemma MembersEqual(a: Infos, b: Infos, limbo: set<nat>, limbo': set<nat>, inTried: bool, net: Option<nat>)
    requires a.Keys - limbo == b.Keys - limbo'
    requires forall id :: id in a && id !in limbo ==>
                id in b && a[id].service == b[id].service && a[id].inTried == b[id].inTried
    ensures Members(a, limbo, inTried, net) == Members(b, limbo', inTried, net)
  {
    forall id
      ensures id in Members(a, limbo, inTried, net) <==> id in Members(b, limbo', inTried, net)
    {
      assert id in a.Keys - limbo <==> id in b.Keys - limbo';
    }
  }

  // ----- reference counts

  lemma PlacesRemoved(news: map<Slot, nat>, s: Slot, id: nat)
    requires s in news && news[s] == id
    ensures |Places(news - {s}, id)| == |Places(news, id)| - 1
    ensures forall j :: j != id ==> Places(news - {s}, j) == Places(news, j)
  {
    assert Places(news - {s}, id) == Places(news, id) - {s};
    forall j | j != id
      ensures Places(news - {s}, j) == Places(news, j)
    {
    }
  }

  lemma PlacesAdded(news: map<Slot, nat>, s: Slot, id: nat)
    requires s !in news
    ensures |Places(news[s := id], id)| == |Places(news, id)| + 1
    ensures forall j :: j != id ==> Places(news[s := id], j) == Places(news, j)
  {
    assert Places(news[s := id], id) == Places(news, id) + {s};
    forall j | j != id
      ensures Places(news[s := id], j) == Places(news, j)
    {
    }
  }

  function WithRefs(infos: Infos, id: nat, refCount: int): Infos
    requires id in infos
  {
    infos[id := infos[id].(refCount := refCount)]
  }

  /** Dropping one occurrence of an entry. */
  lemma NewDropped(c: Config, infos: Infos, news: map<Slot, nat>, s: Slot)
    requires NewOk(c, infos, news) && s in news
    ensures news[s] in infos && infos[news[s]].refCount > 0
    ensures NewOk(c, WithRefs(infos, news[s], infos[news[s]].refCount - 1), news - {s})
  {
    PlacesRemoved(news, s, news[s]);
    assert s in Places(news, news[s]);
    hide Places, NewSlot;
  }

  /** Adding one occurrence in a free slot. */
  lemma NewPlaced(c: Config, infos: Infos, news: map<Slot, nat>, id: nat, bucket: nat)
    requires NewOk(c, infos, news) && id in infos && !infos[id].inTried && bucket < NEW_BUCKET_COUNT
    requires NewSlot(c, infos[id].service, bucket) !in news
    ensures NewOk(c, WithRefs(infos, id, infos[id].refCount + 1), news[NewSlot(c, infos[id].service, bucket) := id])
  {
    var s := NewSlot(c, infos[id].service, bucket);
    PlacesAdded(news, s, id);
    hide Places;
  }

  // ----- the address index and the random order

  lemma IndexedCreate(infos: Infos, mapAddr: map<Service, nat>, vRandom: seq<nat>, idCount: nat, info: AddrInfo)
    requires Indexed(infos, mapAddr, vRandom, idCount) && info.service !in mapAddr && info.randomPos == |vRandom|
    requires info.lastTry >= 0 && info.lastSuccess >= 0
    ensures idCount !in infos
    ensures Indexed(infos[idCount := info], mapAddr[info.service := idCount], vRandom + [idCount], idCount + 1)
  {
    assert forall id :: id in infos ==> InfoIndexed(infos, mapAddr, vRandom, idCount, id);
    var infos', mapAddr', vRandom' := infos[idCount := info], mapAddr[info.service := idCount], vRandom + [idCount];
    forall id | id in infos'
      ensures InfoIndexed(infos', mapAddr', vRandom', idCount + 1, id)
    {
      if id != idCount {
        assert InfoIndexed(infos, mapAddr, vRandom, idCount, id);
      }
    }
  }

  function Swapped(infos: Infos, vRandom: seq<nat>, p: nat, q: nat): Infos
    requires p < |vRandom| && q < |vRandom| && vRandom[p] in infos && vRandom[q] in infos
  {
    infos[vRandom[p] := infos[vRandom[p]].(randomPos := q)][vRandom[q] := infos[vRandom[q]].(randomPos := p)]
  }

  lemma IndexedSwap(infos: Infos, mapAddr: map<Service, nat>, vRandom: seq<nat>, idCount: nat, p: nat, q: nat)
    requires Indexed(infos, mapAddr, vRandom, idCount) && p < |vRandom| && q < |vRandom| && p != q
    ensures vRandom[p] in infos && vRandom[q] in infos && vRandom[p] != vRandom[q]
    ensures Indexed(Swapped(infos, vRandom, p, q), mapAddr, vRandom[p := vRandom[q]][q := vRandom[p]], idCount)
    ensures SameCore(infos, Swapped(infos, vRandom, p, q))
  {
    var infos', vRandom' := Swapped(infos, vRandom, p, q), vRandom[p := vRandom[q]][q := vRandom[p]];
    forall id | id in infos'
      ensures InfoIndexed(infos', mapAddr, vRandom', idCount, id)
    {
      assert InfoIndexed(infos, mapAddr, vRandom, idCount, id);
    }
  }

  lemma IndexedPop(infos: Infos, mapAddr: map<Service, nat>, vRandom: seq<nat>, idCount: nat, id: nat)
    requires Indexed(infos, mapAddr, vRandom, idCount) && id in infos && infos[id].randomPos == |vRandom| - 1
    ensures Indexed(infos - {id}, mapAddr - {infos[id].service}, vRandom[..|vRandom| - 1], idCount)
  {
    var infos', mapAddr', vRandom' := infos - {id}, mapAddr - {infos[id].service}, vRandom[..|vRandom| - 1];
    assert InfoIndexed(infos, mapAddr, vRandom, idCount, id);
    forall j | j in infos'
      ensures InfoIndexed(infos', mapAddr', vRandom', idCount, j)
    {
      assert InfoIndexed(infos, mapAddr, vRandom, idCount, j);
    }
  }

  /** Changing what the indexes do not depend on. */
  lemma IndexedUpdate(infos: Infos, mapAddr: map<Service, nat>, vRandom: seq<nat>, idCount: nat, id: nat,
                      info: AddrInfo)
    requires Indexed(infos, mapAddr, vRandom, idCount) && id in infos
    requires info.service == infos[id].service && info.randomPos == infos[id].randomPos && info.lastTry >= 0
             && info.lastSuccess >= 0
    ensures Indexed(infos[id := info], mapAddr, vRandom, idCount)
  {
    var infos' := infos[id := info];
    forall j | j in infos'
      ensures InfoIndexed(infos', mapAddr, vRandom, idCount, j)
    {
      assert InfoIndexed(infos, mapAddr, vRandom, idCount, j);
    }
  }
}
