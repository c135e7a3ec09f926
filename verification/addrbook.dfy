// What the operations of the address manager do to its entries and its two tables, the redundant indexes left aside
// (src/addrman.cpp). Random draws and clock readings are parameters.
module AddrBooks {
  import opened Options
  import opened IndexSets
  import opened AddrTables

  const TRIED_COLLISION_SIZE: nat := 10
  const HORIZON: int := 30 * 24 * 3600
  const RETRIES: int := 3
  const MAX_FAILURES: int := 10
  const MIN_FAIL: int := 7 * 24 * 3600
  const REPLACEMENT: int := 4 * 3600
  const TEST_WINDOW: int := 40 * 60

  predicate IsTerrible(info: AddrInfo, now: int) {
    if now - info.lastTry <= 60 then false
    else if info.time > now + 600 then true
    else if now - info.time > HORIZON then true
    else if info.lastSuccess == 0 && info.attempts >= RETRIES then true
    else now - info.lastSuccess > MIN_FAIL && info.attempts >= MAX_FAILURES
  }

  /** The entries, without their places in the random order, and the tables that refer to them. */
  datatype Book = Book(
    infos: Infos, tried: map<Slot, nat>, news: map<Slot, nat>, collisions: set<nat>, lastGood: int, idCount: nat)

  const EMPTY_BOOK: Book := Book(map[], map[], map[], {}, 1, 0)

  ghost function Norm(infos: Infos): Infos {
    map id | id in infos :: infos[id].(randomPos := 0)
  }

  /** The entry of an address. */
  ghost function IdOf(infos: Infos, addr: Service): Option<nat> {
    if exists id :: id in infos && infos[id].service == addr then
      var id :| id in infos && infos[id].service == addr;
      Some(id)
    else None
  }

  function NotNegative(time: int): int { if time > 0 then time else 0 }

  // ----- the new table

  /** The slot is emptied; an entry that loses its last place goes. */
  ghost function Cleared(b: Book, slot: Slot): Book {
    if slot in b.news && b.news[slot] in b.infos then
      var id := b.news[slot];
      var n := b.infos[id].refCount - 1;
      b.(news := b.news - {slot}, infos := if n == 0 then b.infos - {id} else WithRefs(b.infos, id, n))
    else b
  }

  /** The slot is free, or its occupant is another entry that is terrible or has more places while `id` has none. */
  ghost predicate GetsPlace(b: Book, id: nat, slot: Slot, now: int)
    requires id in b.infos
  {
    || slot !in b.news
    || (b.news[slot] != id && b.news[slot] in b.infos &&
        (IsTerrible(b.infos[b.news[slot]], now) || (b.infos[b.news[slot]].refCount > 1 && b.infos[id].refCount == 0)))
  }

  /** Entry `id` takes the slot. */
  ghost function Seated(b: Book, id: nat, slot: Slot): Book
    requires id in b.infos
  {
    var c := Cleared(b, slot);
    if id in c.infos then c.(infos := WithRefs(c.infos, id, c.infos[id].refCount + 1), news := c.news[slot := id])
    else c
  }

  ghost function Inserted(b: Book, id: nat, slot: Slot, now: int): (Book, bool)
    requires id in b.infos
  {
    if GetsPlace(b, id, slot, now) then (Seated(b, id, slot), true)
    else if b.infos[id].refCount == 0 then (b.(infos := b.infos - {id}), false)
    else (b, false)
  }

  // ----- adding an address

  /** What an announcement changes in a known entry. */
  function Refreshed(info: AddrInfo, time: int, services: set<nat>, penalty: int, now: int): AddrInfo {
    var interval := if now - time < 24 * 3600 then 3600 else 24 * 3600;
    info.(time := if info.time < time - interval - penalty then NotNegative(time - penalty) else info.time,
          services := info.services + services)
  }

  /** One in how many announcements gives an entry with `n` places another. */
  function Factor(n: int): (f: nat)
    ensures f > 0
    decreases if n > 0 then n else 0
  {
    if n <= 0 then 1 else 2 * Factor(n - 1)
  }

  /** Whether a known entry may get another place. */
  predicate Wanted(info: AddrInfo, time: int, draw: nat) {
    time > info.time && !info.inTried && info.refCount != NEW_BUCKETS_PER_ADDRESS && draw % Factor(info.refCount) == 0
  }

  function NewEntry(addr: Service, time: int, services: set<nat>, source: nat): AddrInfo {
    AddrInfo(addr, time, services, source, 0, 0, 0, 0, 0, false, 0)
  }

  /** The entry of an address, refreshed or new, and whether to give it a place. */
  ghost function Prepared(b: Book, addr: Service, time: int, services: set<nat>, source: nat, penalty: int, now: int,
                          draw: nat): (Book, nat, bool)
  {
    match IdOf(b.infos, addr)
    case Some(id) =>
      if id !in b.infos then (b, id, false) else
      var info := Refreshed(b.infos[id], time, services, penalty, now);
      (b.(infos := b.infos[id := info]), id, Wanted(info, time, draw))
    case None =>
      var info := NewEntry(addr, NotNegative(time - penalty), services, source);
      (b.(infos := b.infos[b.idCount := info], idCount := b.idCount + 1), b.idCount, true)
  }

  ghost function Added(c: Config, b: Book, addr: Service, time: int, services: set<nat>, source: nat, penalty0: int,
                       now: int, draw: nat): (Book, bool)
  {
    if !c.routable(addr) then (b, false)
    else
      var penalty := if c.netAddr(addr) == source then 0 else penalty0;
      var (b1, id, proceed) := Prepared(b, addr, time, services, source, penalty, now, draw);
      if proceed && id in b1.infos then Inserted(b1, id, NewSlot(c, addr, NewBucket(c, addr, source)), now)
      else (b1, false)
  }

  /** The tables refer to entries, ids are not used before their time, and no two entries share an address. */
  ghost predicate Sensible(b: Book) {
    && (forall s :: s in b.news ==> b.news[s] in b.infos) && (forall id :: id in b.infos ==> id < b.idCount)
    && (forall i, j :: i in b.infos && j in b.infos && b.infos[i].service == b.infos[j].service ==> i == j)
  }

  /** A routable address that is not known gets an entry exactly if its place in the new table is free, or taken by an
      entry that is terrible or has other places too. Otherwise nothing changes but that an id has been used up. */
  lemma {:induction false} AddedNew(c: Config, b: Book, addr: Service, time: int, services: set<nat>, source: nat,
                                    penalty0: int, now: int, draw: nat)
    requires Sensible(b) && c.routable(addr) && IdOf(b.infos, addr).None?
    ensures var (b', added) := Added(c, b, addr, time, services, source, penalty0, now, draw);
            var slot, id := NewSlot(c, addr, NewBucket(c, addr, source)), b.idCount;
            var aged := NotNegative(time - if c.netAddr(addr) == source then 0 else penalty0);
            && (added <==> slot !in b.news || IsTerrible(b.infos[b.news[slot]], now)
                                           || b.infos[b.news[slot]].refCount > 1)
            && (added ==> id in b'.infos && b'.infos[id] == NewEntry(addr, aged, services, source).(refCount := 1))
            && (added ==> IdOf(b'.infos, addr) == Some(id) && b'.news == b.news[slot := id])
            && (!added ==> b' == b.(idCount := id + 1))
  {
    hide NewSlot, NewBucket, IsTerrible, Factor, Refreshed;
    var penalty := if c.netAddr(addr) == source then 0 else penalty0;
    var id, slot := b.idCount, NewSlot(c, addr, NewBucket(c, addr, source));
    var b1 := Prepared(b, addr, time, services, source, penalty, now, draw).0;
    assert id !in b.infos && b1.infos - {id} == b.infos;
    assert slot in b.news ==> b.news[slot] != id;
    if GetsPlace(b1, id, slot, now) {
      var b2 := Seated(b1, id, slot);
      assert b2.infos[id].service == addr;
      forall j | j in b2.infos && b2.infos[j].service == addr
        ensures j == id
      {
      }
    }
  }

  /** A known address keeps its entry, refreshed. It gets another place exactly if the announcement is newer than what
      the entry then says, the entry is untried and not at its eight places, the draw is favourable, and the place is
      free or another, terrible entry's. */
  lemma {:induction false} AddedKnown(c: Config, b: Book, addr: Service, time: int, services: set<nat>, source: nat,
                                      penalty0: int, now: int, draw: nat, id: nat)
    requires Sensible(b) && c.routable(addr) && IdOf(b.infos, addr) == Some(id) && id in b.infos
    requires b.infos[id].refCount > 0 || b.infos[id].inTried
    ensures var (b', added) := Added(c, b, addr, time, services, source, penalty0, now, draw);
            var info := Refreshed(b.infos[id], time, services, if c.netAddr(addr) == source then 0 else penalty0, now);
            var slot := NewSlot(c, addr, NewBucket(c, addr, source));
            && id in b'.infos && b'.infos[id] == info.(refCount := info.refCount + if added then 1 else 0)
            && (added <==> && time > info.time && !info.inTried && info.refCount != NEW_BUCKETS_PER_ADDRESS
                           && draw % Factor(info.refCount) == 0
                           && (slot in b.news ==> b.news[slot] != id && IsTerrible(b.infos[b.news[slot]], now)))
            && b'.news == (if added then b.news[slot := id] else b.news)
            && (!added ==> b'.infos == b.infos[id := info])
  {
    hide NewSlot, NewBucket, IsTerrible, IdOf, Factor;
  }

  // ----- promoting to the tried table

  ghost function Without(news: map<Slot, nat>, id: nat): map<Slot, nat> {
    map s | s in news && news[s] != id :: news[s]
  }

  /** An entry that is in neither table takes its place in its new bucket, whatever is there. */
  ghost function BackInNew(c: Config, b: Book, id: nat): Book
    requires id in b.infos
  {
    var info := b.infos[id];
    var place := NewSlot(c, info.service, NewBucket(c, info.service, info.source));
    var b1 := Cleared(b, place);
    if id in b1.infos then b1.(infos := WithRefs(b1.infos, id, 1), news := b1.news[place := id]) else b1
  }

  /** The occupant of a tried slot goes back to its new bucket. */
  ghost function Demoted(c: Config, b: Book, slot: Slot): Book
    requires slot in b.tried && b.tried[slot] in b.infos
  {
    var id := b.tried[slot];
    BackInNew(c, b.(infos := b.infos[id := b.infos[id].(inTried := false)], tried := b.tried - {slot}), id)
  }

  ghost function Vacated(c: Config, b: Book, slot: Slot): Book {
    if slot in b.tried && b.tried[slot] in b.infos then Demoted(c, b, slot) else b
  }

  ghost function Promoted(c: Config, b: Book, id: nat): Book
    requires id in b.infos
  {
    var slot := TriedSlot(c, b.infos[id].service);
    var b1 := Vacated(c, b.(infos := WithRefs(b.infos, id, 0), news := Without(b.news, id)), slot);
    if id in b1.infos then b1.(infos := b1.infos[id := b1.infos[id].(inTried := true)], tried := b1.tried[slot := id])
    else b1
  }

  /** A connection to the address succeeded. */
  ghost function Succeeded(c: Config, b: Book, addr: Service, testBeforeEvict: bool, time: int): (Book, bool) {
    var b0 := b.(lastGood := time);
    match IdOf(b.infos, addr)
    case None => (b0, false)
    case Some(id) =>
      if id !in b.infos then (b0, false) else
      var info := b.infos[id].(lastSuccess := time, lastTry := time, attempts := 0);
      var b1 := b0.(infos := b.infos[id := info]);
      if info.inTried then (b1, false)
      else if testBeforeEvict && TriedSlot(c, info.service) in b.tried then
        (if |b.collisions| < TRIED_COLLISION_SIZE then b1.(collisions := b.collisions + {id}) else b1, false)
      else (Promoted(c, b1, id), true)
  }

  /** Entries in the tried table are at their slots there and have no place in the new table. */
  ghost predicate Apart(c: Config, b: Book) {
    && (forall s :: s in b.tried ==> b.tried[s] in b.infos && b.infos[b.tried[s]].inTried
                                     && TriedSlot(c, b.infos[b.tried[s]].service) == s)
    && (forall s :: s in b.news ==> b.news[s] in b.infos && !b.infos[b.news[s]].inTried)
  }

  /** A known address is promoted exactly if it is untried and, where occupants are to be tested first, its slot is
      free. Then it is at its slot and nowhere in the new table, and a former occupant has one place there. */
  lemma {:induction false} SucceededMeans(c: Config, b: Book, addr: Service, testBeforeEvict: bool, time: int, id: nat)
    requires Apart(c, b) && IdOf(b.infos, addr) == Some(id) && id in b.infos
    ensures var (b', promoted) := Succeeded(c, b, addr, testBeforeEvict, time);
            var info := b.infos[id].(lastSuccess := time, lastTry := time, attempts := 0);
            var slot := TriedSlot(c, info.service);
            && (promoted <==> !info.inTried && !(testBeforeEvict && slot in b.tried))
            && (promoted ==> id in b'.infos && b'.infos[id] == info.(refCount := 0, inTried := true))
            && (promoted ==> b'.tried == b.tried[slot := id] && forall s :: s in b'.news ==> b'.news[s] != id)
            && (promoted && slot in b.tried ==> HasOnePlace(c, b', b.tried[slot]))
            && (!promoted ==> b'.infos == b.infos[id := info] && b'.tried == b.tried && b'.news == b.news)
  {
    hide TriedSlot, NewSlot, NewBucket, IdOf;
    var info := b.infos[id].(lastSuccess := time, lastTry := time, attempts := 0);
    var b1 := b.(lastGood := time, infos := b.infos[id := info]);
    if !info.inTried && !(testBeforeEvict && TriedSlot(c, info.service) in b.tried) {
      PromotedMeans(c, b1, id);
    }
  }

  ghost predicate HasOnePlace(c: Config, b: Book, id: nat) {
    && id in b.infos && !b.infos[id].inTried && b.infos[id].refCount == 1
    && var place := NewSlot(c, b.infos[id].service, NewBucket(c, b.infos[id].service, b.infos[id].source));
       place in b.news && b.news[place] == id
  }

  lemma {:induction false} PromotedMeans(c: Config, b: Book, id: nat)
    requires Apart(c, b) && id in b.infos && !b.infos[id].inTried
    ensures var b', slot := Promoted(c, b, id), TriedSlot(c, b.infos[id].service);
            && id in b'.infos && b'.infos[id] == b.infos[id].(refCount := 0, inTried := true)
            && b'.tried == b.tried[slot := id] && (forall s :: s in b'.news ==> b'.news[s] != id)
            && (slot in b.tried ==> HasOnePlace(c, b', b.tried[slot]))
  {
    hide TriedSlot, NewSlot, NewBucket;
    var slot := TriedSlot(c, b.infos[id].service);
    var b1 := b.(infos := WithRefs(b.infos, id, 0), news := Without(b.news, id));
    if slot in b.tried {
      var o := b.tried[slot];
      var b2 := Demoted(c, b1, slot);
      assert o != id && id in b2.infos && b2.infos[id] == b1.infos[id];
      assert HasOnePlace(c, b2, o);
    }
  }

  // ----- bookkeeping

  /** Change the entry of an address, if there is one. */
  ghost function Changed(b: Book, addr: Service, info: AddrInfo): Book {
    match IdOf(b.infos, addr)
    case None => b
    case Some(id) => b.(infos := b.infos[id := info.(randomPos := 0)])
  }

  ghost function InfoOf(b: Book, addr: Service): AddrInfo {
    match IdOf(b.infos, addr)
    case None => NewEntry(addr, 0, {}, 0)
    case Some(id) => if id in b.infos then b.infos[id] else NewEntry(addr, 0, {}, 0)
  }

  /** A connection is attempted; a failure counts at most once between two successes of anybody. */
  function AfterAttempt(info: AddrInfo, countFailure: bool, lastGood: int, time: int): AddrInfo {
    var tried := info.(lastTry := time);
    if countFailure && info.lastCountAttempt < lastGood then
      tried.(lastCountAttempt := time, attempts := info.attempts + 1)
    else tried
  }

  function AfterConnected(info: AddrInfo, time: int): AddrInfo {
    if time - info.time > 20 * 60 then info.(time := time) else info
  }

  // ----- collisions

  /** What happens to a pending entry: whether it is promoted, and whether it stays pending. */
  ghost function Verdict(c: Config, b: Book, id: nat, now: int): (bool, bool)
    requires id in b.infos
  {
    var info := b.infos[id];
    var slot := TriedSlot(c, info.service);
    if !c.valid(info.service) then (false, false)
    else if slot !in b.tried || b.tried[slot] !in b.infos then (true, false)
    else
      var occupant := b.infos[b.tried[slot]];
      if now - occupant.lastSuccess < REPLACEMENT then (false, false)
      else if now - occupant.lastTry < REPLACEMENT then
        var over := now - occupant.lastTry > 60;
        (over, !over)
      else
        var late := now - info.lastSuccess > TEST_WINDOW;
        (late, !late)
  }

  /** One pending collision decided. */
  ghost function Resolved(c: Config, b: Book, id: nat, now: int): Book {
    if id !in b.infos then b.(collisions := b.collisions - {id})
    else
      var (promote, wait) := Verdict(c, b, id, now);
      var b1 := if promote then Succeeded(c, b, b.infos[id].service, false, now).0 else b;
      if wait then b1 else b1.(collisions := b1.collisions - {id})
  }

  /** All pending collisions decided, in the order of their ids. */
  ghost function AllResolved(c: Config, b: Book, ids: set<nat>, now: int): Book
    decreases ids
  {
    if ids == {} then b else AllResolved(c, Resolved(c, b, First(ids), now), ids - {First(ids)}, now)
  }

  /** The element with `k` smaller ones. */
  function Nth(ids: set<nat>, k: nat): (id: nat)
    requires k < |ids|
    ensures id in ids
    decreases ids
  {
    if k == 0 then First(ids) else
    assert ids == ids - {First(ids)} + {First(ids)};
    Nth(ids - {First(ids)}, k - 1)
  }

  /** A pending collision was picked to be tested; one whose entry is gone is forgotten. */
  ghost function Picked(b: Book, pick: nat): Book {
    if b.collisions == {} then b
    else
      var id := Nth(b.collisions, pick % |b.collisions|);
      if id in b.infos then b else b.(collisions := b.collisions - {id})
  }

  // ----- entries up to their place in the random order

  lemma NormSet(infos: Infos, id: nat, info: AddrInfo)
    ensures Norm(infos[id := info]) == Norm(infos)[id := info.(randomPos := 0)]
  {
  }

  lemma NormDrop(infos: Infos, id: nat)
    ensures Norm(infos - {id}) == Norm(infos) - {id}
  {
  }

  lemma NormSame(a: Infos, b: Infos)
    requires SameCore(a, b)
    ensures Norm(a) == Norm(b)
  {
    forall id | id in b
      ensures CoreEqual(a[id], b[id])
    {
      assert b[id] == b[id];
    }
  }

  lemma NormRefs(infos: Infos, id: nat, n: int)
    requires id in infos
    ensures Norm(WithRefs(infos, id, n)) == WithRefs(Norm(infos), id, n)
  {
    NormSet(infos, id, infos[id].(refCount := n));
  }

  lemma NormAt(infos: Infos, id: nat)
    requires id in infos
    ensures id in Norm(infos) && Norm(infos)[id] == infos[id].(randomPos := 0)
  {
  }

  lemma RefsDropped(infos: Infos, id: nat, n: int)
    requires id in infos
    ensures WithRefs(infos, id, n) - {id} == infos - {id}
  {
  }

  lemma NormKeys(infos: Infos)
    ensures Norm(infos).Keys == infos.Keys
  {
  }

  lemma IsId(infos: Infos, addr: Service, id: nat)
    requires id in infos && infos[id].service == addr
    requires forall j :: j in infos && infos[j].service == addr ==> j == id
    ensures IdOf(Norm(infos), addr) == Some(id)
  {
    assert id in Norm(infos) && Norm(infos)[id].service == addr;
  }

  lemma IsNoId(infos: Infos, addr: Service)
    requires forall j :: j in infos ==> infos[j].service != addr
    ensures IdOf(Norm(infos), addr) == None
  {
  }
}
