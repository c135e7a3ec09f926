// The operations of the address manager (class AddrManImpl of src/addrman.cpp). Random choices are
// nondeterministic and clock readings are parameters.
module AddrManagers {
  import opened Options
  import opened AddrTables
  import opened AddrBooks
  import opened IndexSets
  import opened Sequences

  /** Entries may have gone, and none has changed its address. */
  ghost predicate Evolved(a: Infos, b: Infos) {
    b.Keys <= a.Keys && forall id {:trigger b[id]} :: id in b ==> a[id].service == b[id].service
  }

  /** The value of all tables. */
  datatype Tab = Tab(
    idCount: nat, infos: Infos, mapAddr: map<Service, nat>, vRandom: seq<nat>, nTried: int, tried: map<Slot, nat>,
    nNew: int, news: map<Slot, nat>, counts: map<nat, NewTried>)

  /** All indexes agree. Entries in `limbo` are between the tables and uncounted; untried entries in
      `loose` may be without a place in the new table. */
  ghost predicate Ok(c: Config, t: Tab, limbo: set<nat>, loose: set<nat>) {
    && Indexed(t.infos, t.mapAddr, t.vRandom, t.idCount) && TriedOk(c, t.infos, t.tried) && NewOk(c, t.infos, t.news)
    && RefsOk(t.infos, loose) && CountsOk(t.infos, t.nTried, t.nNew, t.counts, limbo)
  }

  class AddrManImpl {
    const cfg: Config
    var idCount: nat
    var infos: Infos
    var mapAddr: map<Service, nat>
    var vRandom: seq<nat>
    var nTried: int
    var tried: map<Slot, nat>
    var nNew: int
    var news: map<Slot, nat>
    var lastGood: int
    var collisions: set<nat>
    var counts: map<nat, NewTried>

    ghost function Value(): Tab
      reads this
    {
      Tab(idCount, infos, mapAddr, vRandom, nTried, tried, nNew, news, counts)
    }

    /** What the indexes are about. */
    ghost function View(): Book
      reads this
    {
      Book(Norm(infos), tried, news, collisions, lastGood, idCount)
    }

    ghost predicate Tables(limbo: set<nat>, loose: set<nat>)
      reads this
    {
      Ok(cfg, Value(), limbo, loose)
    }

    ghost predicate Valid()
      reads this
    {
      Tables({}, {}) && CollisionsOk(cfg, infos, tried, collisions, idCount)
    }

    constructor (cfg: Config)
      ensures Valid() && View() == EMPTY_BOOK && this.cfg == cfg
    {
      this.cfg, idCount, infos, mapAddr, vRandom := cfg, 0, map[], map[], [];
      nTried, tried, nNew, news, lastGood, collisions, counts := 0, map[], 0, map[], 1, {}, map[];
    }

    function Find(addr: Service): Option<nat>
      reads this
    {
      if addr in mapAddr && mapAddr[addr] in infos then Some(mapAddr[addr]) else None
    }

    /** Create a new entry, not yet placed in a table. */
    method Create(addr: Service, time: int, services: set<nat>, source: nat) returns (id: nat)
      requires Tables({}, {}) && addr !in mapAddr
      modifies this
      ensures id == old(idCount) && idCount == id + 1 && id !in old(infos)
      ensures Tables({}, {id}) && tried == old(tried) && news == old(news) && collisions == old(collisions)
      ensures lastGood == old(lastGood)
      ensures infos == old(infos)[id := AddrInfo(addr, time, services, source, 0, 0, 0, 0, 0, false, |old(vRandom)|)]
    {
      hide Indexed, TriedOk, NewOk, RefsOk, CountsOk, More;
      id := idCount;
      var info := AddrInfo(addr, time, services, source, 0, 0, 0, 0, 0, false, |vRandom|);
      IndexedCreate(infos, mapAddr, vRandom, idCount, info);
      CreatedTables(cfg, infos, tried, news, id, info);
      CreatedCounts(infos, nTried, nNew, counts, id, info);
      idCount := idCount + 1;
      infos := infos[id := info];
      mapAddr := mapAddr[addr := id];
      vRandom := vRandom + [id];
      nNew := nNew + 1;
      counts := More(counts, addr.network, false);
    }

    method SwapRandom(p: nat, q: nat)
      requires Indexed(infos, mapAddr, vRandom, idCount) && (p == q || (p < |vRandom| && q < |vRandom|))
      modifies this`infos, this`vRandom
      ensures Indexed(infos, mapAddr, vRandom, idCount) && SameCore(old(infos), infos) && |vRandom| == |old(vRandom)|
      ensures p < |vRandom| && q < |vRandom| ==> infos[old(vRandom)[p]].randomPos == q
      ensures forall k :: 0 <= k < |vRandom| && k != p && k != q ==> vRandom[k] == old(vRandom)[k]
    {
      if p == q {
        return;
      }
      IndexedSwap(infos, mapAddr, vRandom, idCount, p, q);
      var id1, id2 := vRandom[p], vRandom[q];
      assert id1 in infos && id2 in infos;
      infos := Swapped(infos, vRandom, p, q);
      vRandom := vRandom[p := id2][q := id1];
    }

    /** Delete an untried entry without a place in the new table. */
    method Delete(id: nat, ghost limbo: set<nat>, ghost loose: set<nat>)
      requires Tables(limbo, loose + {id}) && id in infos && id !in limbo && !infos[id].inTried
               && infos[id].refCount == 0
      modifies this
      ensures Tables(limbo, loose) && infos.Keys == old(infos).Keys - {id} && SameCore(old(infos) - {id}, infos)
      ensures View() == old(View()).(infos := Norm(old(infos)) - {id})
    {
      hide Indexed, TriedOk, NewOk, RefsOk, CountsOk, SameCore, Less, Norm;
      ghost var before := infos;
      var info := infos[id];
      IndexedAt(infos, mapAddr, vRandom, idCount, id);
      SwapRandom(info.randomPos, |vRandom| - 1);
      CoreAt(before, infos, id);
      IndexedPop(infos, mapAddr, vRandom, idCount, id);
      DeletedTables(cfg, before, infos, tried, news, loose, id);
      DeletedCounts(before, infos, nTried, nNew, counts, limbo, id);
      counts := Less(counts, info.service.network, false);
      vRandom := vRandom[..|vRandom| - 1];
      mapAddr := mapAddr - {info.service};
      infos := infos - {id};
      nNew := nNew - 1;
      NormSame(before - {id}, infos);
      NormDrop(before, id);
    }

    /** Clear a position of the new table, deleting the entry there if that was its last place. */
    method ClearNew(slot: Slot, ghost limbo: set<nat>, ghost loose: set<nat>)
      requires Tables(limbo, loose) && (slot in news ==> news[slot] !in limbo)
      modifies this
      ensures Tables(limbo, loose) && news == old(news) - {slot} && View() == Cleared(old(View()), slot)
      ensures tried == old(tried) && collisions == old(collisions) && idCount == old(idCount)
      ensures slot !in old(news) ==> infos == old(infos)
      ensures slot in old(news) ==> OthersKept(old(infos), infos, old(news)[slot])
    {
      hide Ok, OthersKept, SameCore, CoreEqual, Norm;
      NormKeys(infos);
      if slot in news {
        var id := news[slot];
        PlaceDropped(cfg, Value(), slot, limbo, loose);
        NormAt(infos, id);
        NormRefs(infos, id, infos[id].refCount - 1);
        assert infos[id].refCount > 0;
        infos := WithRefs(infos, id, infos[id].refCount - 1);
        news := news - {slot};
        RefsKept(old(infos), id, infos[id].refCount);
        if infos[id].refCount == 0 {
          ghost var before := infos;
          Delete(id, limbo, loose);
          KeptDeleted(old(infos), before, infos, id);
          RefsDropped(Norm(old(infos)), id, 0);
        }
      } else {
        assert news - {slot} == news;
      }
    }

    /** Remove an entry from all new buckets, looking at its one possible place in each. */
    method RemoveFromNew(id: nat)
      requires Tables({}, {}) && id in infos
      modifies this`infos, this`news
      ensures Tables({}, {id}) && infos == WithRefs(old(infos), id, 0) && news == Without(old(news), id)
    {
      hide Ok;
      var info := infos[id];
      var start := NewBucket(cfg, info.service, info.source);
      var n := 0;
      LooseAfter(cfg, Value(), id);
      while n < NEW_BUCKET_COUNT
        invariant 0 <= n <= NEW_BUCKET_COUNT && Tables({}, {id})
        invariant id in infos && infos == WithRefs(old(infos), id, infos[id].refCount)
        invariant NotVisited(news, id, start, n) && LessOf(old(news), news, id)
        modifies this`infos, this`news
      {
        hide NotVisited, NewSlot;
        var bucket := Visited(start, n);
        var slot := NewSlot(cfg, info.service, bucket);
        VisitStep(cfg, Value(), id, start, n);
        if slot in news && news[slot] == id {
          PlaceDropped(cfg, Value(), slot, {}, {id});
          assert {id} + {id} == {id};
          news := news - {slot};
          infos := WithRefs(infos, id, infos[id].refCount - 1);
          if infos[id].refCount == 0 {
            break;
          }
        }
        n := n + 1;
      }
      if n == NEW_BUCKET_COUNT {
        AllVisited(cfg, Value(), id, start);
      }
      NoneLeft(cfg, Value(), id, old(news));
    }

    /** Take the occupant of a tried slot out of the tried table and its counts. */
    method Evict(id: nat, slot: Slot) returns (idEvict: nat)
      requires Tables({id}, {id}) && id in infos && !infos[id].inTried && infos[id].refCount == 0 && slot in tried
      modifies this
      ensures idEvict in old(infos) && idEvict != id && infos == WithTried(old(infos), idEvict, false)
      ensures Tables({id, idEvict}, {id, idEvict}) && infos[idEvict].refCount == 0
      ensures idEvict == old(tried)[slot] && tried == old(tried) - {slot} && news == old(news)
      ensures collisions == old(collisions) && idCount == old(idCount) && lastGood == old(lastGood)
    {
      hide Ok, Less;
      idEvict := tried[slot];
      SlotHolder(cfg, Value(), slot, id);
      Evicted(cfg, Value(), slot, {id}, {id});
      counts := Less(counts, infos[idEvict].service.network, true);
      infos := WithTried(infos, idEvict, false);
      tried := tried - {slot};
      nTried := nTried - 1;
      assert {id} + {idEvict} == {id, idEvict};
    }

    /** Put an entry that is in neither table into its new bucket, displacing what is there. */
    method Reenter(idEvict: nat, ghost id: nat)
      requires Tables({id, idEvict}, {id, idEvict}) && id in infos && idEvict in infos && id != idEvict
      requires !infos[id].inTried && infos[id].refCount == 0 && !infos[idEvict].inTried && infos[idEvict].refCount == 0
      modifies this
      ensures Tables({id}, {id}) && tried == old(tried) && View() == BackInNew(cfg, old(View()), idEvict)
      ensures collisions == old(collisions) && idCount == old(idCount)
      ensures Evolved(old(infos), infos) && id in infos && CoreEqual(old(infos)[id], infos[id])
    {
      hide Ok, OthersKept, Evolved, More, NewSlot, NewBucket, Norm, Cleared;
      NormAt(infos, idEvict);
      var infoOld := infos[idEvict];
      var bucket := NewBucket(cfg, infoOld.service, infoOld.source);
      BucketInRange(cfg, infoOld.service, infoOld.source);
      var newSlot := NewSlot(cfg, infoOld.service, bucket);
      ghost var displaced := if newSlot in news then news[newSlot] else id;
      Unplaced(cfg, Value(), {id, idEvict}, newSlot);
      ClearNew(newSlot, {id, idEvict}, {id, idEvict});
      assert newSlot !in news;
      KeptAt(old(infos), infos, displaced, id);
      KeptAt(old(infos), infos, displaced, idEvict);
      assert {id} + {idEvict} == {id, idEvict};
      Reentered(cfg, Value(), idEvict, bucket, {id}, {id});
      ghost var cleared := infos;
      NormKeys(cleared);
      NormRefs(cleared, idEvict, 1);
      infos := WithRefs(infos, idEvict, 1);
      news := news[newSlot := idEvict];
      nNew := nNew + 1;
      counts := More(counts, infoOld.service.network, false);
      KeptEvolved(old(infos), cleared, displaced);
      RefsEvolved(old(infos), cleared, idEvict, 1);
    }

    /** Make space in a tried slot: the entry there goes to its new bucket. */
    method MakeRoom(id: nat, slot: Slot)
      requires Tables({id}, {id}) && id in infos && !infos[id].inTried && infos[id].refCount == 0 && slot in tried
      modifies this
      ensures Tables({id}, {id}) && tried == old(tried) - {slot} && collisions == old(collisions)
               && idCount == old(idCount)
      ensures old(tried)[slot] in old(infos) && View() == Demoted(cfg, old(View()), slot)
      ensures Evolved(old(infos), infos) && id in infos && CoreEqual(old(infos)[id], infos[id])
    {
      hide Ok, Evolved, BackInNew, Norm;
      var idEvict := Evict(id, slot);
      NormAt(old(infos), idEvict);
      NormSet(old(infos), idEvict, infos[idEvict]);
      ghost var before := infos;
      TriedChanged(old(infos), idEvict);
      Reenter(idEvict, id);
      EvolvedTrans(old(infos), before, infos);
    }

    /** Take an entry out of the new table and its counts. */
    method LeaveNew(id: nat)
      requires Tables({}, {}) && id in infos && !infos[id].inTried
      modifies this
      ensures Tables({id}, {id}) && infos == WithRefs(old(infos), id, 0) && news == Without(old(news), id)
      ensures tried == old(tried) && collisions == old(collisions) && idCount == old(idCount)
               && lastGood == old(lastGood)
    {
      hide Ok, Less;
      RemoveFromNew(id);
      LeavesNew(cfg, Value(), id, {}, {id});
      assert {} + {id} == {id};
      nNew := nNew - 1;
      counts := Less(counts, infos[id].service.network, false);
    }

    /** Put an entry that is in neither table into its free tried slot. */
    method EnterTried(id: nat)
      requires Tables({id}, {id}) && id in infos && !infos[id].inTried && infos[id].refCount == 0
               && infos[id].lastSuccess > 0
      requires TriedSlot(cfg, infos[id].service) !in tried
      modifies this
      ensures Tables({}, {}) && infos == WithTried(old(infos), id, true)
      ensures tried == old(tried)[TriedSlot(cfg, old(infos)[id].service) := id]
      ensures news == old(news) && collisions == old(collisions) && idCount == old(idCount)
               && lastGood == old(lastGood)
    {
      hide Ok, More, TriedSlot;
      EntersTried(cfg, Value(), id);
      var service := infos[id].service;
      tried := tried[TriedSlot(cfg, service) := id];
      nTried := nTried + 1;
      infos := WithTried(infos, id, true);
      counts := More(counts, service.network, true);
    }

    /** Promote an entry to the tried table, evicting the occupant of its slot. A tried slot that was occupied stays
        so. */
    method MakeTried(id: nat)
      requires Tables({}, {}) && id in infos && !infos[id].inTried && infos[id].lastSuccess > 0
      modifies this
      ensures Tables({}, {}) && View() == Promoted(cfg, old(View()), id)
      ensures collisions == old(collisions) && idCount == old(idCount)
      ensures Evolved(old(infos), infos) && id in infos && infos[id].inTried
      ensures tried == old(tried)[TriedSlot(cfg, old(infos)[id].service) := id]
    {
      hide Ok, Evolved, TriedSlot, Norm, Without, Demoted;
      NormAt(infos, id);
      NormRefs(infos, id, 0);
      LeaveNew(id);
      NormKeys(infos);
      NormAt(infos, id);
      ghost var before := infos;
      var slot := TriedSlot(cfg, infos[id].service);
      EvolvedSelf(infos);
      if slot in tried {
        MakeRoom(id, slot);
      }
      assert slot !in tried;
      ghost var roomy := infos;
      NormAt(roomy, id);
      NormSet(roomy, id, roomy[id].(inTried := true));
      EnterTried(id);
      TriedEvolved(old(infos), before, roomy, infos, id);
      assert tried == old(tried)[slot := id];
    }

    /** Change bookkeeping data of an entry. */
    method Update(id: nat, info: AddrInfo)
      requires Valid() && id in infos && SameEntry(infos[id], info)
      modifies this`infos
      ensures Valid() && infos == old(infos)[id := info] && Evolved(old(infos), infos)
    {
      hide Ok, CollisionsOk;
      UpdatedOk(cfg, Value(), id, info);
      infos := infos[id := info];
      CollisionsKept(cfg, old(infos), infos, tried, tried, collisions, collisions, idCount, idCount);
    }

    /** Change bookkeeping data of the entry of an address. */
    method Change(addr: Service, found: Option<nat>, info: AddrInfo)
      requires Valid() && found == Find(addr) && (found.Some? ==> SameEntry(infos[found.value], info))
      modifies this`infos
      ensures Valid() && Evolved(old(infos), infos) && View() == Changed(old(View()), addr, info)
    {
      hide Ok, CollisionsOk, Norm, IdOf, SameEntry, Evolved;
      EvolvedSelf(infos);
      FindIs(cfg, Value(), addr);
      if found.Some? {
        NormAt(infos, found.value);
        NormSet(infos, found.value, info);
        Update(found.value, info);
      }
    }

    method Attempt(addr: Service, countFailure: bool, time: int)
      requires Valid() && time > 0
      modifies this`infos
      ensures Valid() && Evolved(old(infos), infos)
      ensures View() ==
              Changed(old(View()), addr, AfterAttempt(InfoOf(old(View()), addr), countFailure, lastGood, time))
    {
      hide Ok, CollisionsOk, Norm, IdOf, Evolved;
      var found := Find(addr);
      FindIs(cfg, Value(), addr);
      var info := NewEntry(addr, 0, {}, 0);
      if found.Some? {
        EntryAt(cfg, Value(), found.value);
        NormAt(infos, found.value);
        info := infos[found.value].(lastTry := time);
        if countFailure && info.lastCountAttempt < lastGood {
          info := info.(lastCountAttempt := time, attempts := info.attempts + 1);
        }
      }
      Change(addr, found, info);
    }

    method Connected(addr: Service, time: int)
      requires Valid()
      modifies this`infos
      ensures Valid() && Evolved(old(infos), infos)
      ensures View() == Changed(old(View()), addr, AfterConnected(InfoOf(old(View()), addr), time))
    {
      hide Ok, CollisionsOk, Norm, IdOf, Evolved;
      var found := Find(addr);
      FindIs(cfg, Value(), addr);
      var info := NewEntry(addr, 0, {}, 0);
      if found.Some? {
        EntryAt(cfg, Value(), found.value);
        NormAt(infos, found.value);
        info := infos[found.value];
        if time - info.time > 20 * 60 {
          info := info.(time := time);
        }
      }
      Change(addr, found, info);
    }

    method SetServices(addr: Service, services: set<nat>)
      requires Valid()
      modifies this`infos
      ensures Valid() && Evolved(old(infos), infos)
      ensures View() == Changed(old(View()), addr, InfoOf(old(View()), addr).(services := services))
    {
      hide Ok, CollisionsOk, Norm, IdOf, Evolved;
      var found := Find(addr);
      FindIs(cfg, Value(), addr);
      var info := NewEntry(addr, 0, {}, 0);
      if found.Some? {
        EntryAt(cfg, Value(), found.value);
        NormAt(infos, found.value);
        info := infos[found.value].(services := services);
      }
      Change(addr, found, info);
    }

    /** Record a successful connection, and move the address to the tried table unless an entry there has
        to be tested first. */
    method Good(addr: Service, testBeforeEvict: bool, time: int) returns (moved: bool)
      requires Valid() && time > 0
      modifies this
      ensures Valid() && Evolved(old(infos), infos) && idCount == old(idCount)
      ensures old(tried).Keys <= tried.Keys && (!moved ==> tried == old(tried))
      ensures moved ==> addr in old(mapAddr) && old(mapAddr)[addr] in infos && infos[old(mapAddr)[addr]].inTried
      ensures collisions <= old(collisions) + infos.Keys && (!testBeforeEvict ==> collisions == old(collisions))
      ensures (View(), moved) == Succeeded(cfg, old(View()), addr, testBeforeEvict, time)
    {
      hide Ok, CollisionsOk, Evolved, TriedSlot, Norm, IdOf, Promoted;
      lastGood := time;
      EvolvedSelf(infos);
      var found := Find(addr);
      FindIs(cfg, Value(), addr);
      if found.None? {
        return false;
      }
      var id := found.value;
      EntryAt(cfg, Value(), id);
      NormAt(infos, id);
      NormSet(infos, id, infos[id].(lastSuccess := time, lastTry := time, attempts := 0));
      Update(id, infos[id].(lastSuccess := time, lastTry := time, attempts := 0));
      if infos[id].inTried {
        return false;
      }
      var slot := TriedSlot(cfg, infos[id].service);
      if testBeforeEvict && slot in tried {
        if |collisions| < TRIED_COLLISION_SIZE {
          EntryAt(cfg, Value(), id);
          CollisionAdded(cfg, infos, tried, collisions, idCount, id);
          collisions := collisions + {id};
        }
        return false;
      }
      ghost var before, tried0 := infos, tried;
      NormKeys(infos);
      MakeTried(id);
      EvolvedTrans(old(infos), before, infos);
      CollisionsKept(cfg, before, infos, tried0, tried, collisions, collisions, idCount, idCount);
      return true;
    }

    /** Give an untried entry a place in the given new bucket, unless a better entry is there; an entry that
        ends up without any place is deleted. */
    method InsertNew(id: nat, bucket: nat, now: int) returns (inserted: bool)
      requires Tables({}, {id}) && id in infos && !infos[id].inTried
               && 0 <= infos[id].refCount < NEW_BUCKETS_PER_ADDRESS
      requires bucket < NEW_BUCKET_COUNT
      modifies this
      ensures Tables({}, {}) && Evolved(old(infos), infos)
      ensures tried == old(tried) && collisions == old(collisions) && idCount == old(idCount)
      ensures (View(), inserted) == Inserted(old(View()), id, NewSlot(cfg, old(infos)[id].service, bucket), now)
    {
      hide Ok, Evolved, OthersKept, NewSlot, SameCore, IsTerrible, Norm, Cleared;
      var slot := NewSlot(cfg, infos[id].service, bucket);
      EvolvedSelf(infos);
      NormAt(infos, id);
      NormKeys(infos);
      inserted := slot !in news;
      if inserted || news[slot] != id {
        if !inserted {
          PlacedAt(cfg, Value(), slot, id);
          var existing := infos[news[slot]];
          NormAt(infos, news[slot]);
          TerribleNorm(existing, now);
          if IsTerrible(existing, now) || (existing.refCount > 1 && infos[id].refCount == 0) {
            inserted := true;
          }
        }
        if inserted {
          ghost var before, displaced := infos, if slot in news then news[slot] else id;
          ClearNew(slot, {}, {id});
          KeptAt(before, infos, displaced, id);
          KeptEvolved(before, infos, displaced);
          PlaceAdded(cfg, Value(), id, bucket);
          ghost var cleared := infos;
          NormAt(cleared, id);
          NormRefs(cleared, id, cleared[id].refCount + 1);
          infos := WithRefs(infos, id, infos[id].refCount + 1);
          news := news[slot := id];
          RefsEvolved(old(infos), cleared, id, infos[id].refCount);
        } else if infos[id].refCount == 0 {
          ghost var before := infos;
          assert {} + {id} == {id};
          Delete(id, {}, {});
          DeletedEvolved(before, infos, id);
        } else {
          TightAgain(cfg, Value(), id);
        }
      } else {
        PlacedAt(cfg, Value(), slot, id);
        TightAgain(cfg, Value(), id);
      }
    }

    /** Refresh what is known about an address; false when it needs no further place in the new table. */
    method Refresh(id: nat, time: int, services: set<nat>, penalty: int, now: int, draw: nat) returns (proceed: bool)
      requires Valid() && id in infos
      modifies this`infos
      ensures Valid() && Evolved(old(infos), infos) && infos.Keys == old(infos).Keys
               && infos[id].service == old(infos)[id].service
      ensures infos == old(infos)[id := Refreshed(old(infos)[id], time, services, penalty, now)]
      ensures proceed <==> Wanted(infos[id], time, draw)
      ensures proceed ==> !infos[id].inTried && 0 < infos[id].refCount < NEW_BUCKETS_PER_ADDRESS
    {
      hide Ok, CollisionsOk, Evolved;
      EntryAt(cfg, Value(), id);
      var info := infos[id];
      var interval := if now - time < 24 * 3600 then 3600 else 24 * 3600;
      if info.time < time - interval - penalty {
        info := info.(time := if time - penalty > 0 then time - penalty else 0);
      }
      info := info.(services := info.services + services);
      Update(id, info);
      if time <= info.time || info.inTried || info.refCount == NEW_BUCKETS_PER_ADDRESS {
        return false;
      }
      // The more places an address has, the less likely it is to get another.
      if info.refCount > 0 {
        return draw % Factor(info.refCount) == 0;
      }
      return true;
    }

    /** Create an entry, its time reduced by the penalty. */
    method CreateAged(addr: Service, time: int, services: set<nat>, source: nat, penalty: int) returns (id: nat)
      requires Tables({}, {}) && addr !in mapAddr
      modifies this
      ensures Tables({}, {id}) && id == old(idCount) && id in infos && id !in old(infos) && infos[id].service == addr
               && !infos[id].inTried && infos[id].refCount == 0
      ensures Grown(old(infos), infos, old(idCount))
      ensures var entry := NewEntry(addr, NotNegative(time - penalty), services, source);
              View() == old(View()).(infos := Norm(old(infos))[id := entry], idCount := id + 1)
    {
      hide Ok, Grown, Norm;
      id := Create(addr, time, services, source);
      var aged := if time - penalty > 0 then time - penalty else 0;
      AgedOk(cfg, Value(), id, aged);
      infos := infos[id := infos[id].(time := aged)];
      assert infos == old(infos)[id := infos[id]];
      NormSet(old(infos), id, infos[id]);
      CreatedGrown(old(infos), infos, id);
    }

    /** The entry of an address that is to get a place in the new table, refreshed or newly created. */
    method Candidate(addr: Service, time: int, services: set<nat>, source: nat, penalty: int, now: int, draw: nat)
      returns (id: nat, proceed: bool)
      requires Valid()
      modifies this
      ensures Grown(old(infos), infos, old(idCount)) && idCount >= old(idCount)
      ensures tried == old(tried) && news == old(news) && collisions == old(collisions)
      ensures !proceed ==> Valid() && infos.Keys == old(infos).Keys
      ensures proceed ==> Tables({}, {id}) && id in infos && infos[id].service == addr && !infos[id].inTried
                           && 0 <= infos[id].refCount < NEW_BUCKETS_PER_ADDRESS
      ensures (View(), id, proceed) == Prepared(old(View()), addr, time, services, source, penalty, now, draw)
    {
      hide Ok, CollisionsOk, Evolved, Grown, IdOf, Norm;
      GrownSelf(infos, idCount);
      NormKeys(infos);
      var found := Find(addr);
      FindIs(cfg, Value(), addr);
      if found.Some? {
        id := found.value;
        FoundIs(cfg, Value(), addr);
        NormAt(infos, id);
        NormSet(infos, id, Refreshed(infos[id], time, services, penalty, now));
        proceed := Refresh(id, time, services, penalty, now, draw);
        EvolvedGrown(old(infos), infos, infos, idCount);
        if proceed {
          LooseAfter(cfg, Value(), id);
        }
      } else {
        NotFound(cfg, Value(), addr);
        id := CreateAged(addr, time, services, source, penalty);
        proceed := true;
      }
    }

    /** Try to add one address to the new table. */
    method AddSingle(addr: Service, time: int, services: set<nat>, source: nat, penalty0: int, now: int, draw: nat)
      returns (added: bool)
      requires Valid()
      modifies this
      ensures Valid() && Grown(old(infos), infos, old(idCount)) && idCount >= old(idCount)
      ensures tried == old(tried) && collisions == old(collisions)
      ensures (View(), added) == Added(cfg, old(View()), addr, time, services, source, penalty0, now, draw)
    {
      hide Ok, CollisionsOk, Evolved, Grown, NewBucket, NewSlot, Norm, IdOf, Inserted, Wanted, Refreshed;
      GrownSelf(infos, idCount);
      NormKeys(infos);
      if !cfg.routable(addr) {
        return false;
      }
      var penalty := if cfg.netAddr(addr) == source then 0 else penalty0;
      var id, proceed := Candidate(addr, time, services, source, penalty, now, draw);
      if !proceed {
        return false;
      }
      ghost var before := infos;
      BucketInRange(cfg, infos[id].service, source);
      added := InsertNew(id, NewBucket(cfg, infos[id].service, source), now);
      GrownEvolved(old(infos), before, infos, old(idCount));
      CollisionsKept(cfg, old(infos), infos, tried, tried, collisions, collisions, old(idCount), idCount);
    }

    /** Decide the pending collisions: keep the tested entry, replace it, or wait. */
    method ResolveCollisions(now: int)
      requires Valid() && now > 0
      modifies this
      ensures Valid() && Evolved(old(infos), infos) && idCount == old(idCount)
      ensures old(tried).Keys <= tried.Keys && collisions <= old(collisions)
      ensures View() == AllResolved(cfg, old(View()), old(collisions), now)
    {
      hide Ok, CollisionsOk, Evolved, TriedSlot, Norm, Resolved;
      EvolvedSelf(infos);
      var rest := collisions;
      while rest != {}
        invariant rest <= old(collisions) && Valid() && Evolved(old(infos), infos) && idCount == old(idCount)
        invariant old(tried).Keys <= tried.Keys && collisions <= old(collisions)
        invariant AllResolved(cfg, View(), rest, now) == AllResolved(cfg, old(View()), old(collisions), now)
        decreases rest
        modifies this
      {
        var idNew := First(rest);
        ghost var before, seen := infos, View();
        ResolveOne(idNew, now);
        EvolvedTrans(old(infos), before, infos);
        NextResolved(cfg, seen, rest, now);
        rest := rest - {idNew};
      }
    }

    /** Decide one pending collision. */
    method ResolveOne(idNew: nat, now: int)
      requires Valid() && now > 0
      modifies this
      ensures Valid() && Evolved(old(infos), infos) && idCount == old(idCount)
      ensures old(tried).Keys <= tried.Keys && collisions <= old(collisions)
      ensures View() == Resolved(cfg, old(View()), idNew, now)
    {
      hide Ok, CollisionsOk, Evolved, TriedSlot, Norm, Succeeded, Verdict, IdOf;
      EvolvedSelf(infos);
      NormKeys(infos);
      var erase := true;
      if idNew in infos {
        NormAt(infos, idNew);
        var promote, wait := Decide(idNew, now);
        erase := !wait;
        if promote {
          var moved := Good(infos[idNew].service, false, now);
        }
      }
      if erase {
        CollisionsKept(cfg, infos, infos, tried, tried, collisions, collisions - {idNew}, idCount, idCount);
        collisions := collisions - {idNew};
      }
    }

    /** Whether to promote a pending entry now, and whether to wait for the test of the entry in its way. */
    method Decide(idNew: nat, now: int) returns (promote: bool, wait: bool)
      requires Valid() && idNew in infos
      ensures idNew in Norm(infos) && (promote, wait) == Verdict(cfg, View(), idNew, now)
    {
      hide Ok, CollisionsOk, TriedSlot, Norm;
      promote, wait := false, false;
      NormAt(infos, idNew);
      NormKeys(infos);
      var infoNew := infos[idNew];
      var slot := TriedSlot(cfg, infoNew.service);
      if !cfg.valid(infoNew.service) {
        return;
      } else if slot in tried {
        SlotEntry(cfg, Value(), slot);
        NormAt(infos, tried[slot]);
        var infoOld := infos[tried[slot]];
        if now - infoOld.lastSuccess < REPLACEMENT {
          return;
        } else if now - infoOld.lastTry < REPLACEMENT {
          if now - infoOld.lastTry > 60 {
            promote := true;
          } else {
            wait := true;
          }
        } else if now - infoNew.lastSuccess > TEST_WINDOW {
          promote := true;
        } else {
          wait := true;
        }
      } else {
        promote := true;
      }
    }

    /** The tried entry that some pending address would replace. Its slot is never empty. */
    method SelectTriedCollision(pick: nat) returns (selected: Option<AddrInfo>)
      requires Valid()
      modifies this`collisions
      ensures Valid() && collisions <= old(collisions) && View() == Picked(old(View()), pick)
      ensures selected.Some? <==> old(collisions) != {} && Nth(old(collisions), pick % |old(collisions)|) in infos
      ensures selected.Some? ==>
                var slot := TriedSlot(cfg, infos[Nth(old(collisions), pick % |old(collisions)|)].service);
                slot in tried && tried[slot] in infos && selected.value == infos[tried[slot]] && selected.value.inTried
    {
      hide Ok, CollisionsOk, TriedSlot, Norm, Nth;
      NormKeys(infos);
      if collisions == {} {
        return None;
      }
      var idNew := Nth(collisions, pick % |collisions|);
      if idNew !in infos {
        CollisionsKept(cfg, infos, infos, tried, tried, collisions, collisions - {idNew}, idCount, idCount);
        collisions := collisions - {idNew};
        return None;
      }
      var slot := TriedSlot(cfg, infos[idNew].service);
      PendingSlot(cfg, infos, tried, collisions, idCount, idNew);
      SlotEntry(cfg, Value(), slot);
      return Some(infos[tried[slot]]);
    }

    /** A random selection of entries, each at most once, no more than asked for and all passing the filters. */
    method GetAddr(maxAddresses: nat, maxPct: nat, network: Option<nat>, filtered: bool, now: int)
      returns (addresses: seq<AddrInfo>, ghost ids: seq<nat>)
      requires Valid()
      modifies this`infos, this`vRandom
      ensures Valid() && SameCore(old(infos), infos) && View() == old(View())
      ensures |addresses| <= Limit(maxAddresses, maxPct, |old(infos)|)
      ensures |addresses| < Limit(maxAddresses, maxPct, |old(infos)|) ==>
                forall id :: id in infos && Passes(cfg, infos[id], network, filtered, now) ==> id in ids
      ensures |ids| == |addresses| && forall i, j :: 0 <= i < j < |ids| ==> ids[i] != ids[j]
      ensures forall i :: 0 <= i < |ids| ==> ids[i] in infos && CoreEqual(addresses[i], infos[ids[i]])
      ensures AllPass(cfg, addresses, network, filtered, now)
    {
      hide Ok, CollisionsOk, SameCore, Passes, Gathered, Norm, Limit, NoneMissed, AllPass;
      RandomCount(cfg, Value());
      var nodes := Nodes(|vRandom|, maxAddresses, maxPct);
      addresses, ids := [], [];
      CoreSelf(infos);
      var n := 0;
      GatheredNone(infos, vRandom);
      NothingTaken(cfg, infos, vRandom, network, filtered, now);
      while n < |vRandom| && |addresses| < nodes
        invariant 0 <= n <= |vRandom| == |old(vRandom)| && |addresses| <= nodes && |ids| == |addresses|
        invariant Valid() && SameCore(old(infos), infos) && Gathered(infos, vRandom, n, ids, addresses)
        invariant AllPass(cfg, addresses, network, filtered, now)
        invariant NoneMissed(cfg, infos, vRandom, n, ids, network, filtered, now)
        modifies this`infos, this`vRandom
      {
        var pos: nat :| n <= pos < |vRandom|;
        ghost var infos0, random0 := infos, vRandom;
        Shuffle(n, pos);
        CoreTrans(old(infos), infos0, infos);
        RandomEntry(cfg, Value(), n);
        var ai := infos[vRandom[n]];
        GatheredStep(infos0, random0, infos, vRandom, n, ids, addresses);
        MissedStep(cfg, infos0, random0, infos, vRandom, n, ids, network, filtered, now);
        if Passes(cfg, ai, network, filtered, now) {
          PassMore(cfg, addresses, ai, network, filtered, now);
          addresses, ids := addresses + [ai], ids + [vRandom[n]];
        }
        n := n + 1;
      }
      GatheredEnd(infos, vRandom, n, ids, addresses);
      NormSame(old(infos), infos);
      if n == |vRandom| {
        MissedEnd(cfg, Value(), ids, network, filtered, now);
      }
    }

    /** Swap two places of the random order; no entry changes otherwise, and earlier places stay. */
    method Shuffle(p: nat, q: nat)
      requires Valid() && p <= q < |vRandom|
      modifies this`infos, this`vRandom
      ensures Valid() && SameCore(old(infos), infos) && |vRandom| == |old(vRandom)|
      ensures vRandom[..p] == old(vRandom)[..p]
    {
      hide SameCore, CollisionsOk, Indexed, TriedOk, NewOk, RefsOk, CountsOk;
      SwapRandom(p, q);
      CoreKeeps(cfg, old(infos), infos, tried, news, {});
      CoreCounts(old(infos), infos, nTried, nNew, counts);
      CoreGrown(old(infos), infos, idCount);
      CollisionsKept(cfg, old(infos), infos, tried, tried, collisions, collisions, idCount, idCount);
    }
  }

  function Pct(maxPct: nat): nat { if maxPct < 100 then maxPct else 100 }

  /** The random order has one place per entry. */
  lemma RandomSize(infos: Infos, mapAddr: map<Service, nat>, vRandom: seq<nat>, idCount: nat)
    requires Indexed(infos, mapAddr, vRandom, idCount)
    ensures |vRandom| == |infos.Keys|
  {
    forall id | id in infos
      ensures id in vRandom
    {
      IndexedAt(infos, mapAddr, vRandom, idCount, id);
    }
    DistinctElems(vRandom);
    var all := set x: nat | x in vRandom;
    assert all == infos.Keys;
  }

  /** How many entries may be handed out: a share of all, and no more than a number; 0 stands for no such limit. */
  ghost function Limit(maxAddresses: nat, maxPct: nat, all: nat): nat {
    var share := if maxPct == 0 then all else Pct(maxPct) * all / 100;
    if maxAddresses == 0 || share < maxAddresses then share else maxAddresses
  }

  method Nodes(all: nat, maxAddresses: nat, maxPct: nat) returns (nodes: nat)
    ensures nodes == Limit(maxAddresses, maxPct, all)
  {
    nodes := all;
    if maxPct != 0 {
      nodes := Pct(maxPct) * nodes / 100;
    }
    if maxAddresses != 0 && maxAddresses < nodes {
      nodes := maxAddresses;
    }
  }

  /** The entry is of the wanted network and of the wanted quality. */
  predicate Passes(c: Config, info: AddrInfo, network: Option<nat>, filtered: bool, now: int) {
    (network.None? || c.netClass(info.service) == network.value) && !(IsTerrible(info, now) && filtered)
  }

  ghost predicate AllPass(c: Config, addresses: seq<AddrInfo>, network: Option<nat>, filtered: bool, now: int) {
    forall ai :: ai in addresses ==> Passes(c, ai, network, filtered, now)
  }

  lemma PassMore(c: Config, addresses: seq<AddrInfo>, ai: AddrInfo, network: Option<nat>, filtered: bool, now: int)
    requires AllPass(c, addresses, network, filtered, now) && Passes(c, ai, network, filtered, now)
    ensures AllPass(c, addresses + [ai], network, filtered, now)
  {
    hide Passes;
  }

  lemma NothingTaken(c: Config, infos: Infos, vRandom: seq<nat>, network: Option<nat>, filtered: bool, now: int)
    ensures AllPass(c, [], network, filtered, now) && NoneMissed(c, infos, vRandom, 0, [], network, filtered, now)
  {
  }

  lemma RandomCount(c: Config, t: Tab)
    requires Ok(c, t, {}, {})
    ensures |t.vRandom| == |t.infos|
  {
    hide Indexed, TriedOk, NewOk, RefsOk, CountsOk;
    RandomSize(t.infos, t.mapAddr, t.vRandom, t.idCount);
    assert |t.infos.Keys| == |t.infos|;
  }

  /** The entries among the first `n` of the random order that pass have all been taken. */
  ghost predicate NoneMissed(c: Config, infos: Infos, vRandom: seq<nat>, n: nat, ids: seq<nat>, network: Option<nat>,
                             filtered: bool, now: int) {
    n <= |vRandom| && forall k {:trigger vRandom[k]} :: 0 <= k < n && vRandom[k] in infos ==>
      Passes(c, infos[vRandom[k]], network, filtered, now) ==> vRandom[k] in ids
  }

  lemma {:induction false} MissedStep(c: Config, infos0: Infos, random0: seq<nat>, infos: Infos, vRandom: seq<nat>,
                                      n: nat, ids: seq<nat>, network: Option<nat>, filtered: bool, now: int)
    requires NoneMissed(c, infos0, random0, n, ids, network, filtered, now) && SameCore(infos0, infos)
    requires n < |vRandom| == |random0| && vRandom[..n] == random0[..n] && vRandom[n] in infos
    ensures if Passes(c, infos[vRandom[n]], network, filtered, now)
            then NoneMissed(c, infos, vRandom, n + 1, ids + [vRandom[n]], network, filtered, now)
            else NoneMissed(c, infos, vRandom, n + 1, ids, network, filtered, now)
  {
    forall k | 0 <= k < n && vRandom[k] in infos && Passes(c, infos[vRandom[k]], network, filtered, now)
      ensures vRandom[k] in ids
    {
      assert vRandom[k] == vRandom[..n][k] == random0[..n][k] == random0[k];
      assert CoreEqual(infos0[random0[k]], infos[random0[k]]);
      PassesSame(c, infos0[random0[k]], infos[random0[k]], network, filtered, now);
    }
  }

  lemma PassesSame(c: Config, a: AddrInfo, b: AddrInfo, network: Option<nat>, filtered: bool, now: int)
    requires CoreEqual(a, b)
    ensures Passes(c, a, network, filtered, now) == Passes(c, b, network, filtered, now)
  {
  }

  lemma {:induction false} MissedEnd(c: Config, t: Tab, ids: seq<nat>, network: Option<nat>, filtered: bool, now: int)
    requires Ok(c, t, {}, {}) && NoneMissed(c, t.infos, t.vRandom, |t.vRandom|, ids, network, filtered, now)
    ensures forall id :: id in t.infos && Passes(c, t.infos[id], network, filtered, now) ==> id in ids
  {
    hide Passes, TriedOk, NewOk, RefsOk, CountsOk;
    forall id | id in t.infos && Passes(c, t.infos[id], network, filtered, now)
      ensures id in ids
    {
      IndexedAt(t.infos, t.mapAddr, t.vRandom, t.idCount, id);
      assert t.vRandom[t.infos[id].randomPos] == id;
    }
  }

  lemma NextResolved(c: Config, b: Book, ids: set<nat>, now: int)
    requires ids != {}
    ensures AllResolved(c, b, ids, now) == AllResolved(c, Resolved(c, b, First(ids), now), ids - {First(ids)}, now)
  {
  }

  lemma CoreSelf(infos: Infos)
    ensures SameCore(infos, infos)
  {
  }

  lemma CoreTrans(a: Infos, b: Infos, d: Infos)
    requires SameCore(a, b) && SameCore(b, d)
    ensures SameCore(a, d)
  {
    forall j | j in d
      ensures CoreEqual(a[j], d[j])
    {
      assert b[j] == b[j];
    }
  }

  lemma CoreCounts(a: Infos, b: Infos, nTried: int, nNew: int, counts: map<nat, NewTried>)
    requires SameCore(a, b) && CountsOk(a, nTried, nNew, counts, {})
    ensures CountsOk(b, nTried, nNew, counts, {})
  {
    hide CountsOk;
    assert forall j :: j in a ==> j in b && CoreEqual(a[j], b[j]) by {
      assert forall j :: j in a ==> j in b && b[j] == b[j];
    }
    CountsSame(a, b, nTried, nNew, counts, {});
  }

  lemma CoreGrown(a: Infos, b: Infos, n: nat)
    requires SameCore(a, b)
    ensures Grown(a, b, n)
  {
  }

  lemma RandomEntry(c: Config, t: Tab, n: nat)
    requires Ok(c, t, {}, {}) && n < |t.vRandom|
    ensures t.vRandom[n] in t.infos && t.vRandom[n] !in t.vRandom[..n]
  {
    forall k | 0 <= k < n
      ensures t.vRandom[k] != t.vRandom[n]
    {
    }
  }

  /** The picked entries stand among the first `n` of the random order. */
  ghost predicate Gathered(infos: Infos, vRandom: seq<nat>, n: nat, ids: seq<nat>, addresses: seq<AddrInfo>) {
    && n <= |vRandom| && |ids| == |addresses| && (forall i, j :: 0 <= i < j < |ids| ==> ids[i] != ids[j])
    && forall i :: 0 <= i < |ids| ==>
        ids[i] in vRandom[..n] && ids[i] in infos && CoreEqual(addresses[i], infos[ids[i]])
  }

  lemma GatheredNone(infos: Infos, vRandom: seq<nat>)
    ensures Gathered(infos, vRandom, 0, [], [])
  {
  }

  lemma GatheredStep(infos0: Infos, random0: seq<nat>, infos: Infos, vRandom: seq<nat>, n: nat, ids: seq<nat>,
                   addresses: seq<AddrInfo>)
    requires Gathered(infos0, random0, n, ids, addresses) && SameCore(infos0, infos) && n < |vRandom| == |random0|
    requires vRandom[..n] == random0[..n] && vRandom[n] in infos && vRandom[n] !in vRandom[..n]
    ensures Gathered(infos, vRandom, n + 1, ids, addresses)
    ensures Gathered(infos, vRandom, n + 1, ids + [vRandom[n]], addresses + [infos[vRandom[n]]])
  {
    assert vRandom[..n + 1] == vRandom[..n] + [vRandom[n]];
    forall i | 0 <= i < |ids|
      ensures ids[i] in infos && CoreEqual(addresses[i], infos[ids[i]])
    {
      assert CoreEqual(infos0[ids[i]], infos[ids[i]]);
    }
  }

  lemma GatheredEnd(infos: Infos, vRandom: seq<nat>, n: nat, ids: seq<nat>, addresses: seq<AddrInfo>)
    requires Gathered(infos, vRandom, n, ids, addresses)
    ensures |ids| == |addresses| && forall i, j :: 0 <= i < j < |ids| ==> ids[i] != ids[j]
    ensures forall i :: 0 <= i < |ids| ==> ids[i] in infos && CoreEqual(addresses[i], infos[ids[i]])
  {
  }

  /** Same entry, up to bookkeeping that keeps times in range. */
  predicate SameEntry(a: AddrInfo, b: AddrInfo) {
    && a.service == b.service && a.refCount == b.refCount && a.inTried == b.inTried && a.randomPos == b.randomPos
    && b.lastTry >= 0 && b.lastSuccess >= 0 && (b.inTried ==> b.lastSuccess > 0)
  }

  lemma EntryAt(c: Config, t: Tab, id: nat)
    requires Ok(c, t, {}, {}) && id in t.infos
    ensures SameEntry(t.infos[id], t.infos[id]) && id < t.idCount
    ensures t.infos[id].service in t.mapAddr && t.mapAddr[t.infos[id].service] == id
    ensures 0 <= t.infos[id].refCount <= NEW_BUCKETS_PER_ADDRESS && (!t.infos[id].inTried ==> t.infos[id].refCount > 0)
  {
    IndexedAt(t.infos, t.mapAddr, t.vRandom, t.idCount, id);
    TimesAt(t.infos, t.mapAddr, t.vRandom, t.idCount, id);
  }

  lemma UpdatedOk(c: Config, t: Tab, id: nat, info: AddrInfo)
    requires Ok(c, t, {}, {}) && id in t.infos && SameEntry(t.infos[id], info)
    ensures Ok(c, t.(infos := t.infos[id := info]), {}, {})
  {
    hide Indexed, TriedOk, RefsOk, CountsOk, NewOk;
    var infos := t.infos[id := info];
    IndexedUpdate(t.infos, t.mapAddr, t.vRandom, t.idCount, id, info);
    CountsSame(t.infos, infos, t.nTried, t.nNew, t.counts, {});
    TriedUpdate(c, t.infos, t.tried, id, info);
    NewUpdate(c, t.infos, t.news, id, info);
    RefsUpdate(t.infos, {}, id, info);
  }

  lemma TriedUpdate(c: Config, infos: Infos, tried: map<Slot, nat>, id: nat, info: AddrInfo)
    requires TriedOk(c, infos, tried) && id in infos && SameEntry(infos[id], info)
    ensures TriedOk(c, infos[id := info], tried)
  {
    hide TriedSlot;
  }

  lemma NewUpdate(c: Config, infos: Infos, news: map<Slot, nat>, id: nat, info: AddrInfo)
    requires NewOk(c, infos, news) && id in infos && SameEntry(infos[id], info)
    ensures NewOk(c, infos[id := info], news)
  {
    hide NewSlot, Places;
  }

  lemma RefsUpdate(infos: Infos, loose: set<nat>, id: nat, info: AddrInfo)
    requires RefsOk(infos, loose) && id in infos && SameEntry(infos[id], info)
    ensures RefsOk(infos[id := info], loose)
  {
  }

  lemma EvolvedTrans(a: Infos, b: Infos, d: Infos)
    requires Evolved(a, b) && Evolved(b, d)
    ensures Evolved(a, d)
  {
    forall j | j in d
      ensures j in a && a[j].service == d[j].service
    {
      assert j in b && b[j] == b[j];
    }
  }

  /** No entry has an id that an earlier one had. */
  ghost predicate Grown(a: Infos, b: Infos, n: nat) {
    forall j {:trigger b[j]} :: j in b ==> (j in a && a[j].service == b[j].service) || j >= n
  }

  /** As occupied tried slots stay occupied and ids are not reused, every pending id that is still present
      collides with an occupied slot. */
  lemma CollisionsKept(c: Config, a: Infos, b: Infos, tried: map<Slot, nat>, tried': map<Slot, nat>,
                       collisions: set<nat>, collisions': set<nat>, n: nat, n': nat)
    requires CollisionsOk(c, a, tried, collisions, n) && collisions' <= collisions && n <= n'
    requires Grown(a, b, n) && tried.Keys <= tried'.Keys
    ensures CollisionsOk(c, b, tried', collisions', n')
  {
    forall id | id in collisions'
      ensures id < n' && (id in b ==> TriedSlot(c, b[id].service) in tried')
    {
      if id in b {
        assert b[id] == b[id];
      }
    }
  }

  lemma CollisionAdded(c: Config, infos: Infos, tried: map<Slot, nat>, collisions: set<nat>, n: nat, id: nat)
    requires CollisionsOk(c, infos, tried, collisions, n) && id in infos && id < n
             && TriedSlot(c, infos[id].service) in tried
    ensures CollisionsOk(c, infos, tried, collisions + {id}, n)
  {
    hide TriedSlot;
  }

  lemma EvolvedSelf(infos: Infos)
    ensures Evolved(infos, infos)
  {
  }

  lemma SlotHolder(c: Config, t: Tab, slot: Slot, id: nat)
    requires Ok(c, t, {id}, {id}) && slot in t.tried && id in t.infos && !t.infos[id].inTried
    ensures t.tried[slot] in t.infos && t.tried[slot] != id
  {
  }

  lemma BucketInRange(c: Config, s: Service, source: nat)
    ensures NewBucket(c, s, source) < NEW_BUCKET_COUNT
  {
  }

  /** Entries without places are not what a slot holds. */
  lemma Unplaced(c: Config, t: Tab, ids: set<nat>, slot: Slot)
    requires Ok(c, t, ids, ids) && forall id :: id in ids ==> id in t.infos && t.infos[id].refCount == 0
    ensures slot in t.news ==> t.news[slot] !in ids
  {
    hide Indexed, TriedOk, RefsOk, CountsOk, NewOk;
    forall id | id in ids
      ensures slot in t.news ==> t.news[slot] != id
    {
      NotPlaced(c, t.infos, t.news, id);
    }
  }

  lemma KeptAt(a: Infos, b: Infos, displaced: nat, id: nat)
    requires b == a || OthersKept(a, b, displaced)
    requires id in a && (b == a || id != displaced)
    ensures id in b && CoreEqual(a[id], b[id])
  {
    if b != a {
      assert id in b && b[id] == b[id];
    }
  }

  lemma TriedChanged(a: Infos, id: nat)
    requires id in a
    ensures Evolved(a, WithTried(a, id, false))
  {
  }

  lemma TriedEvolved(a: Infos, before: Infos, roomy: Infos, b: Infos, id: nat)
    requires id in a && before == WithRefs(a, id, 0) && Evolved(before, roomy) && id in roomy
             && b == WithTried(roomy, id, true)
    ensures Evolved(a, b)
  {
    forall j | j in b
      ensures j in a && a[j].service == b[j].service
    {
      assert j in roomy && roomy[j] == roomy[j];
    }
  }

  /** The entry's places are in buckets after the first `n` visited. */
  ghost predicate NotVisited(news: map<Slot, nat>, id: nat, start: nat, n: nat) {
    forall s, k: nat {:trigger news[s], Visited(start, k)} :: s in news && news[s] == id && k < n ==>
        Visited(start, k) != s.bucket
  }

  /** The bucket visited in round `k`. */
  function Visited(start: nat, k: nat): nat { (start + k) % NEW_BUCKET_COUNT }

  /** `later` lacks only places of `id`. */
  ghost predicate LessOf(news: map<Slot, nat>, later: map<Slot, nat>, id: nat) {
    && (forall s {:trigger later[s]} :: s in later ==> s in news && news[s] == later[s])
    && (forall s {:trigger news[s]} :: s in news && news[s] != id ==> s in later)
  }

  lemma NoneLeft(c: Config, t: Tab, id: nat, news: map<Slot, nat>)
    requires Ok(c, t, {}, {id}) && id in t.infos && t.infos[id].refCount == 0 && LessOf(news, t.news, id)
    ensures t.news == Without(news, id)
  {
    hide Indexed, TriedOk, RefsOk, CountsOk;
    NotPlaced(c, t.infos, t.news, id);
    hide NewOk;
    assert forall s :: s in t.news ==> t.news[s] == t.news[s];
    assert forall s :: s in news ==> news[s] == news[s];
  }

  lemma LooseAfter(c: Config, t: Tab, id: nat)
    requires Ok(c, t, {}, {})
    ensures Ok(c, t, {}, {id})
  {
  }

  lemma VisitStep(c: Config, t: Tab, id: nat, start: nat, n: nat)
    requires Ok(c, t, {}, {id}) && id in t.infos && NotVisited(t.news, id, start, n)
    ensures var slot := NewSlot(c, t.infos[id].service, Visited(start, n));
            if slot in t.news && t.news[slot] == id then NotVisited(t.news - {slot}, id, start, n + 1)
            else NotVisited(t.news, id, start, n + 1)
  {
    hide Indexed, TriedOk, RefsOk, CountsOk;
    var slot := NewSlot(c, t.infos[id].service, Visited(start, n));
    forall s | s in t.news && t.news[s] == id && s != slot
      ensures Visited(start, n) != s.bucket
    {
      NewAt(c, t.infos, t.news, s);
    }
    hide Visited, NewSlot;
    forall s, k: nat | s in t.news && s != slot && t.news[s] == id && k < n + 1
      ensures Visited(start, k) != s.bucket
    {
      if k < n {
        assert t.news[s] == id && Visited(start, k) != s.bucket;
      }
    }
  }

  /** Once every bucket has been visited no place is left. */
  lemma AllVisited(c: Config, t: Tab, id: nat, start: nat)
    requires Ok(c, t, {}, {id}) && id in t.infos && NotVisited(t.news, id, start, NEW_BUCKET_COUNT)
    ensures t.infos[id].refCount == 0
  {
    hide Indexed, TriedOk, RefsOk, CountsOk;
    forall s | s in t.news
      ensures t.news[s] != id
    {
      NewAt(c, t.infos, t.news, s);
      var k: nat := (s.bucket - start) % NEW_BUCKET_COUNT;
      assert k < NEW_BUCKET_COUNT && Visited(start, k) == s.bucket;
      assert t.news[s] == id ==> Visited(start, k) != s.bucket;
    }
    assert Places(t.news, id) == {};
  }

  /** All entries but `id` are as they were, except for bookkeeping; `id` may have gone or have another
      reference count. */
  ghost predicate OthersKept(a: Infos, b: Infos, id: nat) {
    && b.Keys <= a.Keys && a.Keys - {id} <= b.Keys
    && forall j {:trigger b[j]} :: j in b ==>
        CoreEqual(a[j], b[j].(refCount := if j == id then a[j].refCount else b[j].refCount))
  }

  lemma RefsKept(infos: Infos, id: nat, n: int)
    requires id in infos
    ensures OthersKept(infos, WithRefs(infos, id, n), id)
  {
  }

  lemma KeptDeleted(a: Infos, b: Infos, b': Infos, id: nat)
    requires OthersKept(a, b, id) && b'.Keys == b.Keys - {id} && SameCore(b - {id}, b')
    ensures OthersKept(a, b', id)
  {
    forall j | j in b'
      ensures CoreEqual(a[j], b'[j].(refCount := if j == id then a[j].refCount else b'[j].refCount))
    {
      assert b[j] == (b - {id})[j];
      assert CoreEqual((b - {id})[j], b'[j]);
    }
  }

  lemma NewAt(c: Config, infos: Infos, news: map<Slot, nat>, s: Slot)
    requires NewOk(c, infos, news) && s in news
    ensures news[s] in infos && !infos[news[s]].inTried && s.bucket < NEW_BUCKET_COUNT
             && NewSlot(c, infos[news[s]].service, s.bucket) == s
  {
  }

  lemma PlaceDropped(c: Config, t: Tab, slot: Slot, limbo: set<nat>, loose: set<nat>)
    requires Ok(c, t, limbo, loose) && slot in t.news
    ensures var id := t.news[slot];
            && id in t.infos && t.infos[id].refCount > 0 && !t.infos[id].inTried
            && var t' := t.(infos := WithRefs(t.infos, id, t.infos[id].refCount - 1), news := t.news - {slot});
               Ok(c, t', limbo, loose + {id}) && (t'.infos[id].refCount > 0 ==> Ok(c, t', limbo, loose))
  {
    hide Indexed, TriedOk, RefsOk, CountsOk, NewOk;
    var id, infos := t.news[slot], t.infos;
    NewDropped(c, infos, t.news, slot);
    NewAt(c, infos, t.news, slot);
    WithRefsKeeps(c, infos, t.mapAddr, t.vRandom, t.idCount, t.tried, id, infos[id].refCount - 1);
    WithRefsCounts(infos, t.nTried, t.nNew, t.counts, limbo, id, infos[id].refCount - 1);
    WithRefsOk(infos, loose, id);
  }

  lemma WithRefsOk(infos: Infos, loose: set<nat>, id: nat)
    requires RefsOk(infos, loose) && id in infos && infos[id].refCount > 0
    ensures var infos' := WithRefs(infos, id, infos[id].refCount - 1);
            RefsOk(infos', loose + {id}) && (infos'[id].refCount > 0 ==> RefsOk(infos', loose))
  {
  }

  lemma WithRefsKeeps(c: Config, infos: Infos, mapAddr: map<Service, nat>, vRandom: seq<nat>, idCount: nat,
                      tried: map<Slot, nat>, id: nat, n: int)
    requires Indexed(infos, mapAddr, vRandom, idCount) && TriedOk(c, infos, tried) && id in infos
    ensures Indexed(WithRefs(infos, id, n), mapAddr, vRandom, idCount) && TriedOk(c, WithRefs(infos, id, n), tried)
  {
    hide Indexed, TriedSlot;
    TimesAt(infos, mapAddr, vRandom, idCount, id);
    IndexedUpdate(infos, mapAddr, vRandom, idCount, id, infos[id].(refCount := n));
  }

  lemma WithRefsCounts(infos: Infos, nTried: int, nNew: int, counts: map<nat, NewTried>, limbo: set<nat>, id: nat,
                       n: int)
    requires CountsOk(infos, nTried, nNew, counts, limbo) && id in infos
    ensures CountsOk(WithRefs(infos, id, n), nTried, nNew, counts, limbo)
  {
    hide CountsOk;
    CountsSame(infos, WithRefs(infos, id, n), nTried, nNew, counts, limbo);
  }

  lemma IndexedAt(infos: Infos, mapAddr: map<Service, nat>, vRandom: seq<nat>, idCount: nat, id: nat)
    requires Indexed(infos, mapAddr, vRandom, idCount) && id in infos
    ensures infos[id].randomPos < |vRandom| && vRandom[infos[id].randomPos] == id && id < idCount
    ensures infos[id].service in mapAddr && mapAddr[infos[id].service] == id
  {
    assert InfoIndexed(infos, mapAddr, vRandom, idCount, id);
  }

  lemma CoreAt(a: Infos, b: Infos, id: nat)
    requires SameCore(a, b) && id in a
    ensures id in b && CoreEqual(a[id], b[id]) && a.Keys == b.Keys && SameCore(a - {id}, b - {id})
  {
    assert id in b && b[id] == b[id];
    forall j | j in b - {id}
      ensures CoreEqual((a - {id})[j], (b - {id})[j])
    {
      assert b[j] == (b - {id})[j];
    }
  }

  lemma CreatedTables(c: Config, infos: Infos, tried: map<Slot, nat>, news: map<Slot, nat>, id: nat, info: AddrInfo)
    requires TriedOk(c, infos, tried) && NewOk(c, infos, news) && RefsOk(infos, {}) && id !in infos
    requires !info.inTried && info.refCount == 0
    ensures TriedOk(c, infos[id := info], tried) && NewOk(c, infos[id := info], news) && RefsOk(infos[id := info], {id})
  {
    assert Places(news, id) == {};
    hide Places, TriedSlot, NewSlot;
  }

  lemma CreatedCounts(infos: Infos, nTried: int, nNew: int, counts: map<nat, NewTried>, id: nat, info: AddrInfo)
    requires CountsOk(infos, nTried, nNew, counts, {}) && id !in infos && !info.inTried
    ensures CountsOk(infos[id := info], nTried, nNew + 1, More(counts, info.service.network, false), {})
  {
    hide CountsOk, More;
    LimboFree(infos, infos[id := info], nTried, nNew, counts, {}, {id});
    assert {} + {id} == {id};
    Recount(infos[id := info], nTried, nNew, counts, {}, id);
  }

  lemma DeletedTables(c: Config, before: Infos, infos: Infos, tried: map<Slot, nat>, news: map<Slot, nat>,
                      loose: set<nat>, id: nat)
    requires TriedOk(c, before, tried) && NewOk(c, before, news) && RefsOk(before, loose + {id})
             && SameCore(before, infos)
    requires id in infos && !infos[id].inTried && infos[id].refCount == 0
    ensures TriedOk(c, infos - {id}, tried) && NewOk(c, infos - {id}, news) && RefsOk(infos - {id}, loose)
  {
    hide SameCore, TriedOk, NewOk, RefsOk;
    CoreKeeps(c, before, infos, tried, news, loose + {id});
    DropEntry(c, infos, tried, news, loose, id);
  }

  lemma NotPlaced(c: Config, infos: Infos, news: map<Slot, nat>, id: nat)
    requires NewOk(c, infos, news) && id in infos && infos[id].refCount == 0
    ensures forall s :: s in news ==> news[s] != id
  {
    assert Places(news, id) == {};
    assert forall s :: s in news && news[s] == id ==> s in Places(news, id);
  }

  lemma DropEntry(c: Config, infos: Infos, tried: map<Slot, nat>, news: map<Slot, nat>, loose: set<nat>, id: nat)
    requires TriedOk(c, infos, tried) && NewOk(c, infos, news) && RefsOk(infos, loose + {id})
    requires id in infos && !infos[id].inTried && infos[id].refCount == 0
    ensures TriedOk(c, infos - {id}, tried) && NewOk(c, infos - {id}, news) && RefsOk(infos - {id}, loose)
  {
    NotPlaced(c, infos, news, id);
    hide Places, TriedSlot, NewSlot;
  }

  lemma DeletedCounts(before: Infos, infos: Infos, nTried: int, nNew: int, counts: map<nat, NewTried>, limbo: set<nat>,
                      id: nat)
    requires CountsOk(before, nTried, nNew, counts, limbo) && SameCore(before, infos)
    requires id in infos && id !in limbo && !infos[id].inTried
    ensures CountOf(counts, infos[id].service.network).new_ > 0
    ensures CountsOk(infos - {id}, nTried, nNew - 1, Less(counts, infos[id].service.network, false), limbo)
  {
    assert forall j :: j in before ==> j in infos && CoreEqual(before[j], infos[j]) by {
      assert forall j :: j in before ==> j in infos && infos[j] == infos[j];
    }
    hide CountsOk, Less, SameCore;
    CountsSame(before, infos, nTried, nNew, counts, limbo);
    Uncount(infos, nTried, nNew, counts, limbo, id);
    assert infos.Keys - (limbo + {id}) == (infos - {id}).Keys - limbo;
    LimboFree(infos, infos - {id}, nTried, nNew - 1, Less(counts, infos[id].service.network, false), limbo + {id},
        limbo);
  }

  // ----- between the tables

  lemma RefsTried(infos: Infos, loose: set<nat>, id: nat, inTried: bool)
    requires RefsOk(infos, loose + {id}) || RefsOk(infos, loose)
    requires id in infos
    ensures RefsOk(WithTried(infos, id, inTried), if inTried then loose else loose + {id})
  {
  }

  lemma RefsOne(infos: Infos, loose: set<nat>, id: nat)
    requires RefsOk(infos, loose + {id}) && id in infos
    ensures RefsOk(WithRefs(infos, id, 1), loose)
  {
  }

  /** An untried entry leaves the counts. */
  lemma LeavesNew(c: Config, t: Tab, id: nat, limbo: set<nat>, loose: set<nat>)
    requires Ok(c, t, limbo, loose) && id in t.infos && id !in limbo && !t.infos[id].inTried
    ensures CountOf(t.counts, t.infos[id].service.network).new_ > 0
    ensures Ok(c, t.(nNew := t.nNew - 1, counts := Less(t.counts, t.infos[id].service.network, false)), limbo + {id},
                loose)
  {
    hide Indexed, TriedOk, RefsOk, CountsOk, NewOk;
    Uncount(t.infos, t.nTried, t.nNew, t.counts, limbo, id);
  }

  function WithTried(infos: Infos, id: nat, inTried: bool): Infos
    requires id in infos
  {
    infos[id := infos[id].(inTried := inTried)]
  }

  lemma TriedAt(c: Config, infos: Infos, tried: map<Slot, nat>, slot: Slot)
    requires TriedOk(c, infos, tried) && slot in tried
    ensures tried[slot] in infos && infos[tried[slot]].inTried && TriedSlot(c, infos[tried[slot]].service) == slot
  {
  }

  lemma TriedUnplaced(c: Config, infos: Infos, news: map<Slot, nat>, id: nat)
    requires NewOk(c, infos, news) && id in infos && infos[id].inTried
    ensures infos[id].refCount == 0
  {
    assert Places(news, id) == {};
  }

  lemma TriedVacated(c: Config, infos: Infos, tried: map<Slot, nat>, slot: Slot)
    requires TriedOk(c, infos, tried) && slot in tried
    ensures TriedOk(c, WithTried(infos, tried[slot], false), tried - {slot})
  {
    hide TriedSlot;
  }

  lemma TriedFilled(c: Config, infos: Infos, tried: map<Slot, nat>, id: nat)
    requires TriedOk(c, infos, tried) && id in infos && !infos[id].inTried && infos[id].lastSuccess > 0
    requires TriedSlot(c, infos[id].service) !in tried
    ensures TriedOk(c, WithTried(infos, id, true), tried[TriedSlot(c, infos[id].service) := id])
  {
    hide TriedSlot;
  }

  lemma TriedNews(c: Config, infos: Infos, news: map<Slot, nat>, id: nat, inTried: bool)
    requires NewOk(c, infos, news) && id in infos && infos[id].refCount == 0
    ensures NewOk(c, WithTried(infos, id, inTried), news)
  {
    NotPlaced(c, infos, news, id);
    hide Places, NewSlot;
  }

  /** Evict the entry in a tried slot; it is then in neither table. */
  lemma Evicted(c: Config, t: Tab, slot: Slot, limbo: set<nat>, loose: set<nat>)
    requires Ok(c, t, limbo, loose) && slot in t.tried && t.tried[slot] !in limbo
    ensures var id := t.tried[slot];
            && id in t.infos && t.infos[id].inTried && t.infos[id].refCount == 0
            && CountOf(t.counts, t.infos[id].service.network).tried > 0
            && Ok(c, t.(infos := WithTried(t.infos, id, false), tried := t.tried - {slot}, nTried := t.nTried - 1,
                        counts := Less(t.counts, t.infos[id].service.network, true)), limbo + {id}, loose + {id})
  {
    hide Indexed, TriedOk, RefsOk, CountsOk, NewOk, Less;
    var id := t.tried[slot];
    TriedAt(c, t.infos, t.tried, slot);
    RefsTried(t.infos, loose, id, false);
    TimesAt(t.infos, t.mapAddr, t.vRandom, t.idCount, id);
    TriedUnplaced(c, t.infos, t.news, id);
    TriedNews(c, t.infos, t.news, id, false);
    TriedVacated(c, t.infos, t.tried, slot);
    IndexedUpdate(t.infos, t.mapAddr, t.vRandom, t.idCount, id, t.infos[id].(inTried := false));
    Uncount(t.infos, t.nTried, t.nNew, t.counts, limbo, id);
    CountsSame(t.infos, WithTried(t.infos, id, false), t.nTried - 1, t.nNew,
        Less(t.counts, t.infos[id].service.network, true), limbo + {id});
  }

  lemma TimesAt(infos: Infos, mapAddr: map<Service, nat>, vRandom: seq<nat>, idCount: nat, id: nat)
    requires Indexed(infos, mapAddr, vRandom, idCount) && id in infos
    ensures infos[id].lastTry >= 0 && infos[id].lastSuccess >= 0
  {
    assert InfoIndexed(infos, mapAddr, vRandom, idCount, id);
  }

  /** Enter an uncounted entry without places into the new table. */
  lemma Reentered(c: Config, t: Tab, id: nat, bucket: nat, limbo: set<nat>, loose: set<nat>)
    requires Ok(c, t, limbo + {id}, loose + {id}) && id !in limbo && id in t.infos && !t.infos[id].inTried
             && t.infos[id].refCount == 0
    requires bucket < NEW_BUCKET_COUNT && NewSlot(c, t.infos[id].service, bucket) !in t.news
    ensures var slot := NewSlot(c, t.infos[id].service, bucket);
            Ok(c, t.(infos := WithRefs(t.infos, id, 1), news := t.news[slot := id], nNew := t.nNew + 1,
                     counts := More(t.counts, t.infos[id].service.network, false)), limbo, loose)
  {
    hide Indexed, TriedOk, RefsOk, CountsOk, NewOk, More;
    RefsOne(t.infos, loose, id);
    NewPlaced(c, t.infos, t.news, id, bucket);
    WithRefsKeeps(c, t.infos, t.mapAddr, t.vRandom, t.idCount, t.tried, id, 1);
    WithRefsCounts(t.infos, t.nTried, t.nNew, t.counts, limbo + {id}, id, 1);
    Recount(WithRefs(t.infos, id, 1), t.nTried, t.nNew, t.counts, limbo, id);
  }

  /** Move an uncounted entry without places into its free tried slot. */
  lemma EntersTried(c: Config, t: Tab, id: nat)
    requires Ok(c, t, {id}, {id}) && id in t.infos && !t.infos[id].inTried && t.infos[id].refCount == 0
             && t.infos[id].lastSuccess > 0
    requires TriedSlot(c, t.infos[id].service) !in t.tried
    ensures Ok(c, t.(infos := WithTried(t.infos, id, true), tried := t.tried[TriedSlot(c, t.infos[id].service) := id],
                     nTried := t.nTried + 1, counts := More(t.counts, t.infos[id].service.network, true)), {}, {})
  {
    hide Indexed, TriedOk, RefsOk, CountsOk, NewOk, More, TriedSlot;
    assert {} + {id} == {id};
    RefsTried(t.infos, {}, id, true);
    TimesAt(t.infos, t.mapAddr, t.vRandom, t.idCount, id);
    TriedNews(c, t.infos, t.news, id, true);
    TriedFilled(c, t.infos, t.tried, id);
    IndexedUpdate(t.infos, t.mapAddr, t.vRandom, t.idCount, id, t.infos[id].(inTried := true));
    CountsSame(t.infos, WithTried(t.infos, id, true), t.nTried, t.nNew, t.counts, {id});
    Recount(WithTried(t.infos, id, true), t.nTried, t.nNew, t.counts, {}, id);
  }

  // ----- adding addresses

  lemma PlacedAt(c: Config, t: Tab, slot: Slot, id: nat)
    requires Ok(c, t, {}, {id}) && slot in t.news
    ensures t.news[slot] in t.infos && t.infos[t.news[slot]].refCount > 0
  {
    hide Indexed, TriedOk, RefsOk, CountsOk;
    assert slot in Places(t.news, t.news[slot]);
  }

  lemma TightAgain(c: Config, t: Tab, id: nat)
    requires Ok(c, t, {}, {id}) && id in t.infos && t.infos[id].refCount > 0
    ensures Ok(c, t, {}, {})
  {
    hide Indexed, TriedOk, CountsOk, NewOk;
  }

  lemma PlaceAdded(c: Config, t: Tab, id: nat, bucket: nat)
    requires Ok(c, t, {}, {id}) && id in t.infos && !t.infos[id].inTried
             && t.infos[id].refCount < NEW_BUCKETS_PER_ADDRESS
    requires bucket < NEW_BUCKET_COUNT && NewSlot(c, t.infos[id].service, bucket) !in t.news
    ensures Ok(c, t.(infos := WithRefs(t.infos, id, t.infos[id].refCount + 1),
                     news := t.news[NewSlot(c, t.infos[id].service, bucket) := id]), {}, {})
  {
    hide Indexed, TriedOk, RefsOk, CountsOk, NewOk;
    RefsPlus(t.infos, id);
    NewPlaced(c, t.infos, t.news, id, bucket);
    WithRefsKeeps(c, t.infos, t.mapAddr, t.vRandom, t.idCount, t.tried, id, t.infos[id].refCount + 1);
    WithRefsCounts(t.infos, t.nTried, t.nNew, t.counts, {}, id, t.infos[id].refCount + 1);
  }

  lemma RefsPlus(infos: Infos, id: nat)
    requires RefsOk(infos, {id}) && id in infos && infos[id].refCount < NEW_BUCKETS_PER_ADDRESS
    ensures RefsOk(WithRefs(infos, id, infos[id].refCount + 1), {})
  {
  }

  lemma KeptEvolved(a: Infos, b: Infos, displaced: nat)
    requires b == a || OthersKept(a, b, displaced)
    ensures Evolved(a, b)
  {
  }

  lemma RefsEvolved(a: Infos, cleared: Infos, id: nat, n: int)
    requires Evolved(a, cleared) && id in cleared
    ensures Evolved(a, WithRefs(cleared, id, n))
  {
    forall j | j in WithRefs(cleared, id, n)
      ensures j in a && a[j].service == cleared[j].service
    {
      assert cleared[j] == cleared[j];
    }
  }

  lemma DeletedEvolved(a: Infos, b: Infos, id: nat)
    requires b.Keys == a.Keys - {id} && SameCore(a - {id}, b)
    ensures Evolved(a, b)
  {
    forall j | j in b
      ensures j in a && a[j].service == b[j].service
    {
      assert CoreEqual((a - {id})[j], b[j]);
    }
  }

  lemma GrownSelf(infos: Infos, n: nat)
    ensures Grown(infos, infos, n)
  {
  }

  lemma EvolvedGrown(a: Infos, b: Infos, d: Infos, n: nat)
    requires Evolved(a, b) && d == b
    ensures Grown(a, d, n)
  {
  }

  lemma CreatedGrown(a: Infos, b: Infos, id: nat)
    requires b.Keys == a.Keys + {id} && forall j :: j in a && j != id ==> a[j] == b[j]
    ensures Grown(a, b, id)
  {
  }

  lemma GrownEvolved(a: Infos, b: Infos, d: Infos, n: nat)
    requires Grown(a, b, n) && Evolved(b, d)
    ensures Grown(a, d, n)
  {
    forall j | j in d
      ensures (j in a && a[j].service == d[j].service) || j >= n
    {
      assert j in b && b[j] == b[j];
    }
  }

  lemma FindIs(c: Config, t: Tab, addr: Service)
    requires Ok(c, t, {}, {})
    ensures IdOf(Norm(t.infos), addr)
            == if addr in t.mapAddr && t.mapAddr[addr] in t.infos then Some(t.mapAddr[addr]) else None
  {
    hide TriedOk, NewOk, RefsOk, CountsOk;
    forall j | j in t.infos && t.infos[j].service == addr
      ensures addr in t.mapAddr && t.mapAddr[addr] == j
    {
      IndexedAt(t.infos, t.mapAddr, t.vRandom, t.idCount, j);
    }
    if addr in t.mapAddr && t.mapAddr[addr] in t.infos {
      FoundIs(c, t, addr);
      IsId(t.infos, addr, t.mapAddr[addr]);
    } else {
      IsNoId(t.infos, addr);
    }
  }

  /** What the lemmas about books ask for. */
  lemma ViewSensible(c: Config, t: Tab, collisions: set<nat>, lastGood: int)
    requires Ok(c, t, {}, {})
    ensures var b := Book(Norm(t.infos), t.tried, t.news, collisions, lastGood, t.idCount);
            Sensible(b) && Apart(c, b)
  {
    hide RefsOk, CountsOk, NewSlot, TriedSlot, Places;
    forall id | id in t.infos
      ensures id < t.idCount && t.infos[id].service in t.mapAddr && t.mapAddr[t.infos[id].service] == id
    {
      IndexedAt(t.infos, t.mapAddr, t.vRandom, t.idCount, id);
    }
  }

  lemma TerribleNorm(info: AddrInfo, now: int)
    ensures IsTerrible(info.(randomPos := 0), now) == IsTerrible(info, now)
  {
  }

  lemma FoundIs(c: Config, t: Tab, addr: Service)
    requires Ok(c, t, {}, {}) && addr in t.mapAddr && t.mapAddr[addr] in t.infos
    ensures t.infos[t.mapAddr[addr]].service == addr
  {
  }

  lemma NotFound(c: Config, t: Tab, addr: Service)
    requires Ok(c, t, {}, {}) && !(addr in t.mapAddr && t.mapAddr[addr] in t.infos)
    ensures addr !in t.mapAddr
  {
  }

  lemma TriedTime(c: Config, infos: Infos, tried: map<Slot, nat>, id: nat)
    requires TriedOk(c, infos, tried) && id in infos
    ensures infos[id].inTried ==> infos[id].lastSuccess > 0
  {
    hide TriedSlot;
  }

  lemma AgedOk(c: Config, t: Tab, id: nat, time: int)
    requires Ok(c, t, {}, {id}) && id in t.infos
    ensures Ok(c, t.(infos := t.infos[id := t.infos[id].(time := time)]), {}, {id})
  {
    hide Indexed, TriedOk, RefsOk, CountsOk, NewOk;
    var infos := t.infos[id := t.infos[id].(time := time)];
    TimesAt(t.infos, t.mapAddr, t.vRandom, t.idCount, id);
    TriedTime(c, t.infos, t.tried, id);
    IndexedUpdate(t.infos, t.mapAddr, t.vRandom, t.idCount, id, infos[id]);
    CountsSame(t.infos, infos, t.nTried, t.nNew, t.counts, {});
    TriedUpdate(c, t.infos, t.tried, id, infos[id]);
    NewUpdate(c, t.infos, t.news, id, infos[id]);
    RefsUpdate(t.infos, {id}, id, infos[id]);
  }

  lemma SlotEntry(c: Config, t: Tab, slot: Slot)
    requires Ok(c, t, {}, {}) && slot in t.tried
    ensures t.tried[slot] in t.infos && t.infos[t.tried[slot]].inTried
  {
    hide Indexed, NewOk, RefsOk, CountsOk;
  }

  lemma PendingSlot(c: Config, infos: Infos, tried: map<Slot, nat>, collisions: set<nat>, idCount: nat, id: nat)
    requires CollisionsOk(c, infos, tried, collisions, idCount) && id in collisions && id in infos
    ensures TriedSlot(c, infos[id].service) in tried
  {
  }
}
