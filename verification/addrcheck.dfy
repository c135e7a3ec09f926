// The consistency check of the address manager (AddrManImpl::CheckAddrman of src/addrman.cpp).
module AddrChecks {
  import opened Options
  import opened IndexSets
  import opened AddrTables
  import opened AddrManagers

  /** Everything that CheckAddrman tests on the tables. */
  ghost predicate CheckPasses(c: Config, t: Tab) {
    SizesPass(t) && (forall id :: id in t.infos ==> InfoPasses(t, id)) && TriedPasses(c, t) && NewPasses(c, t)
    && NetsPass(t)
  }

  ghost predicate SizesPass(t: Tab) {
    && |t.vRandom| == t.nTried + t.nNew
    && |Members(t.infos, {}, true, None)| == t.nTried && |Members(t.infos, {}, false, None)| == t.nNew
  }

  ghost predicate InfoPasses(t: Tab, id: nat)
    requires id in t.infos
  {
    var info := t.infos[id];
    && (if info.inTried then info.lastSuccess != 0
        && info.refCount == 0 else 0 < info.refCount <= NEW_BUCKETS_PER_ADDRESS)
    && info.service in t.mapAddr && t.mapAddr[info.service] == id
    && info.randomPos < |t.vRandom| && t.vRandom[info.randomPos] == id
    && info.lastTry >= 0 && info.lastSuccess >= 0
  }

  /** The slot holds a tried entry that belongs there. */
  ghost predicate TriedPlace(c: Config, t: Tab, s: Slot)
    requires s in t.tried
  {
    && t.tried[s] in t.infos && t.infos[t.tried[s]].inTried
    && TriedBucket(c, t.infos[t.tried[s]].service) == s.bucket
    && Position(c, t.infos[t.tried[s]].service, false, s.bucket) == s.position
  }

  ghost predicate TriedPasses(c: Config, t: Tab) {
    && (forall s :: s in t.tried ==> TriedPlace(c, t, s))
    && (forall id :: id in t.infos && t.infos[id].inTried ==> exists s :: s in t.tried && t.tried[s] == id)
  }

  /** The slot holds an untried entry at its position in that bucket. */
  ghost predicate NewPlace(c: Config, t: Tab, s: Slot)
    requires s in t.news
  {
    && t.news[s] in t.infos && !t.infos[t.news[s]].inTried
    && Position(c, t.infos[t.news[s]].service, true, s.bucket) == s.position
  }

  ghost predicate NewPasses(c: Config, t: Tab) {
    && (forall s :: s in t.news ==> NewPlace(c, t, s))
    && (forall id :: id in t.infos && !t.infos[id].inTried ==> |Places(t.news, id)| == t.infos[id].refCount)
  }

  /** The networks of the entries outside `rest`. */
  ghost function Networks(t: Tab, rest: set<nat>): set<nat> {
    set id | id in t.infos && id !in rest :: t.infos[id].service.network
  }

  /** There are no more networks with entries than counted ones, and every count is right. */
  ghost predicate NetsPass(t: Tab) {
    |Networks(t, {})| <= |t.counts| && forall net :: net in t.counts ==> NetOk(t.infos, t.counts, {}, net)
  }

  // ----- the check

  /** What the loop over the entries returns for this one; 0 to go on. */
  function EntryCode(t: Tab, id: nat): (code: int)
    requires id in t.infos
    ensures code == 0 <==> InfoPasses(t, id)
  {
    var info := t.infos[id];
    if info.inTried && info.lastSuccess == 0 then -1
    else if info.inTried && info.refCount != 0 then -2
    else if !info.inTried && !(0 <= info.refCount <= NEW_BUCKETS_PER_ADDRESS) then -3
    else if !info.inTried && info.refCount == 0 then -4
    else if info.service !in t.mapAddr || t.mapAddr[info.service] != id then -5
    else if info.randomPos >= |t.vRandom| || t.vRandom[info.randomPos] != id then -14
    else if info.lastTry < 0 then -6
    else if info.lastSuccess < 0 then -8
    else 0
  }

  /** The code names a test that fails; 0 when none does. */
  ghost predicate Explains(c: Config, t: Tab, keyIsNull: bool, code: int) {
    if code == 0 then CheckPasses(c, t) && !keyIsNull
    else if code == -7 then |t.vRandom| != t.nTried + t.nNew
    else if code == -9 then |Members(t.infos, {}, true, None)| != t.nTried
    else if code == -10 then |Members(t.infos, {}, false, None)| != t.nNew
    else if code in {-11, -13, -17, -18} then !TriedPasses(c, t)
    else if code in {-12, -15, -19} then !NewPasses(c, t)
    else if code == -16 then keyIsNull
    else if code in {-20, -21} then !NetsPass(t)
    else exists id :: id in t.infos && EntryCode(t, id) == code
  }

  ghost predicate Passed(t: Tab, rest: set<nat>) {
    forall id :: id in t.infos && id !in rest ==> EntryCode(t, id) == 0
  }

  ghost predicate HasRefs(t: Tab, mapNew: map<nat, int>) {
    forall id :: id in mapNew ==> id in t.infos && mapNew[id] == t.infos[id].refCount
  }

  /** What the loop over the entries has collected before it reaches `rest`. */
  ghost predicate Collected(t: Tab, rest: set<nat>, setTried: set<nat>, mapNew: map<nat, int>,
                            local: map<nat, NewTried>) {
    && Passed(t, rest) && setTried == Members(t.infos, rest, true, None)
    && mapNew.Keys == Members(t.infos, rest, false, None) && HasRefs(t, mapNew)
    && Tallied(t, rest, local)
  }

  /** The counts for each network of the entries outside `rest`. */
  ghost predicate Tallied(t: Tab, rest: set<nat>, local: map<nat, NewTried>) {
    local.Keys == Networks(t, rest) && forall net :: NetOk(t.infos, local, rest, net)
  }

  lemma CollectedNone(t: Tab)
    ensures Collected(t, t.infos.Keys, {}, map[], map[])
  {
    assert forall inTried, net :: Members(t.infos, t.infos.Keys, inTried, net) == {};
    hide Members;
    assert forall net :: NetOk(t.infos, map[], t.infos.Keys, net);
  }

  lemma CollectedTried(t: Tab, rest: set<nat>, id: nat, setTried: set<nat>, mapNew: map<nat, int>,
                       local: map<nat, NewTried>)
    requires Collected(t, rest, setTried, mapNew, local) && id in rest && id in t.infos && EntryCode(t, id) == 0
    requires t.infos[id].inTried
    ensures Collected(t, rest - {id}, setTried + {id}, mapNew, More(local, t.infos[id].service.network, true))
  {
    hide EntryCode, Members, Tallied, Passed, HasRefs, More;
    PassedMore(t, rest, id);
    MembersMore(t.infos, rest, id, true);
    MembersMore(t.infos, rest, id, false);
    TalliedMore(t, rest, id, local);
  }

  lemma CollectedNew(t: Tab, rest: set<nat>, id: nat, setTried: set<nat>, mapNew: map<nat, int>,
                     local: map<nat, NewTried>)
    requires Collected(t, rest, setTried, mapNew, local) && id in rest && id in t.infos && EntryCode(t, id) == 0
    requires !t.infos[id].inTried
    ensures Collected(t, rest - {id}, setTried, mapNew[id := t.infos[id].refCount],
                      More(local, t.infos[id].service.network, false))
  {
    RefsMore(t, mapNew, id);
    hide EntryCode, Members, Tallied, Passed, HasRefs, More;
    PassedMore(t, rest, id);
    MembersMore(t.infos, rest, id, true);
    MembersMore(t.infos, rest, id, false);
    TalliedMore(t, rest, id, local);
    assert mapNew[id := t.infos[id].refCount].Keys == mapNew.Keys + {id};
  }

  lemma TalliedMore(t: Tab, rest: set<nat>, id: nat, local: map<nat, NewTried>)
    requires Tallied(t, rest, local) && id in rest && id in t.infos
    ensures Tallied(t, rest - {id}, More(local, t.infos[id].service.network, t.infos[id].inTried))
  {
    hide Members, More, NetOk, Networks;
    assert rest == rest - {id} + {id};
    var nTried, nNew := |Members(t.infos, rest, true, None)|, |Members(t.infos, rest, false, None)|;
    Recount(t.infos, nTried, nNew, local, rest - {id}, id);
    NetworksMore(t, rest, id);
    MoreKeys(local, t.infos[id].service.network, t.infos[id].inTried);
  }

  lemma PassedMore(t: Tab, rest: set<nat>, id: nat)
    requires Passed(t, rest) && id in t.infos && EntryCode(t, id) == 0
    ensures Passed(t, rest - {id})
  {
    hide EntryCode;
  }

  lemma RefsMore(t: Tab, mapNew: map<nat, int>, id: nat)
    requires HasRefs(t, mapNew) && id in t.infos
    ensures HasRefs(t, mapNew[id := t.infos[id].refCount])
  {
  }

  lemma MoreKeys(local: map<nat, NewTried>, net: nat, inTried: bool)
    ensures More(local, net, inTried).Keys == local.Keys + {net}
  {
  }

  lemma NetworksMore(t: Tab, rest: set<nat>, id: nat)
    requires id in t.infos && id in rest
    ensures Networks(t, rest - {id}) == Networks(t, rest) + {t.infos[id].service.network}
  {
  }

  lemma MembersMore(infos: Infos, rest: set<nat>, id: nat, inTried: bool)
    requires id in infos && id in rest
    ensures id !in Members(infos, rest, inTried, None)
    ensures Members(infos, rest - {id}, inTried, None)
            == if infos[id].inTried == inTried then Members(infos, rest, inTried, None) + {id}
               else Members(infos, rest, inTried, None)
  {
  }

  method CheckEntries(t: Tab) returns (code: int, setTried: set<nat>, mapNew: map<nat, int>, local: map<nat, NewTried>)
    ensures code == 0 ==> Collected(t, {}, setTried, mapNew, local)
    ensures code != 0 ==> exists id :: id in t.infos && EntryCode(t, id) == code
  {
    hide Collected, EntryCode;
    code, setTried, mapNew, local := 0, {}, map[], map[];
    var rest := t.infos.Keys;
    CollectedNone(t);
    while rest != {}
      invariant rest <= t.infos.Keys && code == 0 && Collected(t, rest, setTried, mapNew, local)
      decreases rest
    {
      var id := First(rest);
      code := EntryCode(t, id);
      if code != 0 {
        return;
      }
      var info := t.infos[id];
      if info.inTried {
        CollectedTried(t, rest, id, setTried, mapNew, local);
        setTried := setTried + {id};
      } else {
        CollectedNew(t, rest, id, setTried, mapNew, local);
        mapNew := mapNew[id := info.refCount];
      }
      local := More(local, info.service.network, info.inTried);
      rest := rest - {id};
    }
  }

  /** The tried slots outside `rest` hold the tried entries that are not left, each in its place. */
  ghost predicate TriedSeen(c: Config, t: Tab, rest: set<Slot>, left: set<nat>) {
    && (forall s :: s in t.tried && s !in rest ==> TriedPlace(c, t, s) && t.tried[s] !in left)
    && (forall id :: id in t.infos && t.infos[id].inTried && id !in left ==>
          exists s :: s in t.tried && s !in rest && t.tried[s] == id)
  }

  lemma TriedTwice(c: Config, t: Tab, rest: set<Slot>, left: set<nat>, s: Slot)
    requires TriedSeen(c, t, rest, left) && s in rest && s in t.tried && t.tried[s] !in left
    ensures !TriedPasses(c, t)
  {
    hide TriedBucket, Position;
  }

  lemma TriedMore(c: Config, t: Tab, rest: set<Slot>, left: set<nat>, s: Slot)
    requires TriedSeen(c, t, rest, left) && s in rest && s in t.tried && TriedPlace(c, t, s)
    ensures TriedSeen(c, t, rest - {s}, left - {t.tried[s]})
  {
    hide TriedPlace;
    forall id | id in t.infos && t.infos[id].inTried && id !in left - {t.tried[s]}
      ensures exists s' :: s' in t.tried && s' !in rest - {s} && t.tried[s'] == id
    {
      if id !in left {
        var s' :| s' in t.tried && s' !in rest && t.tried[s'] == id;
        assert s' !in rest - {s};
      } else {
        assert s !in rest - {s} && t.tried[s] == id;
      }
    }
  }

  lemma TriedEnd(c: Config, t: Tab, left: set<nat>)
    requires TriedSeen(c, t, {}, left) && forall id :: id in left ==> id in t.infos && t.infos[id].inTried
    ensures left == {} <==> TriedPasses(c, t)
  {
    hide TriedPlace;
    if id :| id in left {
      assert forall s :: s in t.tried ==> t.tried[s] != id;
    }
  }

  method CheckTried(c: Config, t: Tab, setTried: set<nat>) returns (code: int, left: set<nat>)
    requires setTried == Members(t.infos, {}, true, None)
    ensures code == 0 ==> (left == {} <==> TriedPasses(c, t))
    ensures code != 0 ==> code in {-11, -17, -18} && !TriedPasses(c, t)
  {
    hide TriedSeen, TriedPasses, TriedBucket, Position;
    code, left := 0, setTried;
    var rest := t.tried.Keys;
    assert TriedSeen(c, t, rest, left) by { TriedStart(c, t); }
    while rest != {}
      invariant rest <= t.tried.Keys && code == 0 && TriedSeen(c, t, rest, left)
      invariant forall id :: id in left ==> id in t.infos && t.infos[id].inTried
      decreases rest
    {
      var s: Slot :| s in rest;
      var id := t.tried[s];
      if id !in left {
        TriedTwice(c, t, rest, left, s);
        return -11, left;
      }
      if TriedBucket(c, t.infos[id].service) != s.bucket {
        Misplaced(c, t, s);
        return -17, left;
      }
      if Position(c, t.infos[id].service, false, s.bucket) != s.position {
        Misplaced(c, t, s);
        return -18, left;
      }
      TriedMore(c, t, rest, left, s);
      left := left - {id};
      rest := rest - {s};
    }
    TriedEnd(c, t, left);
  }

  lemma TriedStart(c: Config, t: Tab)
    ensures TriedSeen(c, t, t.tried.Keys, Members(t.infos, {}, true, None))
  {
  }

  lemma Misplaced(c: Config, t: Tab, s: Slot)
    requires s in t.tried && !TriedPlace(c, t, s)
    ensures !TriedPasses(c, t)
  {
  }

  /** The places of `id` outside `rest`. */
  ghost function Seen(news: map<Slot, nat>, rest: set<Slot>, id: nat): set<Slot> {
    set s | s in news && s !in rest && news[s] == id
  }

  /** The new slots outside `rest` hold untried entries in their places, and `left` says how many places are still to
      be found. */
  ghost predicate NewSeen(c: Config, t: Tab, rest: set<Slot>, left: map<nat, int>) {
    && (forall s :: s in t.news && s !in rest ==> NewPlace(c, t, s))
    && (forall id :: id in left ==> id in t.infos && !t.infos[id].inTried && left[id] > 0)
    && (forall id :: id in t.infos && !t.infos[id].inTried ==>
          |Seen(t.news, rest, id)| + (if id in left then left[id] else 0) == t.infos[id].refCount)
  }

  lemma SeenStep(news: map<Slot, nat>, rest: set<Slot>, s: Slot, id: nat)
    requires s in rest && s in news
    ensures |Seen(news, rest - {s}, id)| == |Seen(news, rest, id)| + if news[s] == id then 1 else 0
    ensures news[s] == id ==> |Places(news, id)| > |Seen(news, rest, id)|
  {
    var a, b := Seen(news, rest, id), Seen(news, rest - {s}, id);
    assert s !in a;
    if news[s] == id {
      assert b == a + {s};
      assert Places(news, id) == b + (Places(news, id) - b);
    } else {
      assert b == a;
    }
  }

  /** An entry that has all its places cannot have one more. */
  lemma NewTwice(c: Config, t: Tab, rest: set<Slot>, left: map<nat, int>, s: Slot)
    requires NewSeen(c, t, rest, left) && s in rest && s in t.news && t.news[s] !in left
    ensures !NewPasses(c, t)
  {
    hide Places, Seen;
    SeenStep(t.news, rest, s, t.news[s]);
  }

  /** One place of `id` has been found; none is left after the last. */
  function OneLess(left: map<nat, int>, id: nat): map<nat, int>
    requires id in left
  {
    if left[id] - 1 == 0 then left - {id} else left[id := left[id] - 1]
  }

  lemma NewMore(c: Config, t: Tab, rest: set<Slot>, left: map<nat, int>, s: Slot)
    requires NewSeen(c, t, rest, left) && s in rest && s in t.news && NewPlace(c, t, s) && t.news[s] in left
    ensures NewSeen(c, t, rest - {s}, OneLess(left, t.news[s]))
  {
    hide Places, Seen, NewPlace;
    var left' := OneLess(left, t.news[s]);
    forall j | j in t.infos && !t.infos[j].inTried
      ensures |Seen(t.news, rest - {s}, j)| + (if j in left' then left'[j] else 0) == t.infos[j].refCount
    {
      SeenStep(t.news, rest, s, j);
    }
  }

  lemma NewEnd(c: Config, t: Tab, left: map<nat, int>)
    requires NewSeen(c, t, {}, left)
    ensures left == map[] <==> NewPasses(c, t)
  {
    forall id
      ensures Seen(t.news, {}, id) == Places(t.news, id)
    {
    }
    hide Places, Seen, NewPlace;
    if left != map[] {
      assert left.Keys != {};
      var id :| id in left;
      assert |Places(t.news, id)| < t.infos[id].refCount;
    }
  }

  method CheckNews(c: Config, t: Tab, mapNew: map<nat, int>) returns (code: int, left: map<nat, int>)
    requires mapNew.Keys == Members(t.infos, {}, false, None)
    requires forall id :: id in mapNew ==> mapNew[id] == t.infos[id].refCount > 0
    ensures code == 0 ==> (left == map[] <==> NewPasses(c, t))
    ensures code != 0 ==> code in {-12, -19} && !NewPasses(c, t)
  {
    hide NewSeen, NewPasses, Position, Members, OneLess;
    NewStart(c, t, mapNew);
    code, left := 0, mapNew;
    var rest := t.news.Keys;
    while rest != {}
      invariant rest <= t.news.Keys && code == 0 && NewSeen(c, t, rest, left)
      decreases rest
    {
      var s: Slot :| s in rest;
      var id := t.news[s];
      if id !in left {
        NewTwice(c, t, rest, left, s);
        return -12, left;
      }
      LeftIs(c, t, rest, left, id);
      if Position(c, t.infos[id].service, true, s.bucket) != s.position {
        NotPlacedHere(c, t, s);
        return -19, left;
      }
      NewMore(c, t, rest, left, s);
      left := OneLess(left, id);
      rest := rest - {s};
    }
    NewEnd(c, t, left);
  }

  lemma NewStart(c: Config, t: Tab, mapNew: map<nat, int>)
    requires mapNew.Keys == Members(t.infos, {}, false, None)
    requires forall id :: id in mapNew ==> mapNew[id] == t.infos[id].refCount > 0
    ensures NewSeen(c, t, t.news.Keys, mapNew)
  {
    forall id
      ensures Seen(t.news, t.news.Keys, id) == {}
    {
    }
    hide Seen;
    assert forall id :: id in t.infos && !t.infos[id].inTried ==> id in mapNew.Keys;
  }

  lemma LeftIs(c: Config, t: Tab, rest: set<Slot>, left: map<nat, int>, id: nat)
    requires NewSeen(c, t, rest, left) && id in left
    ensures id in t.infos && !t.infos[id].inTried
  {
  }

  lemma NotPlacedHere(c: Config, t: Tab, s: Slot)
    requires s in t.news && !NewPlace(c, t, s)
    ensures !NewPasses(c, t)
  {
  }

  method CheckNets(t: Tab, local: map<nat, NewTried>) returns (code: int)
    requires local.Keys == Networks(t, {}) && forall net :: NetOk(t.infos, local, {}, net)
    ensures code == 0 <==> NetsPass(t)
    ensures code in {0, -20, -21}
  {
    hide Members, Networks;
    if |t.counts| < |local| {
      return -20;
    }
    code := 0;
    var rest := t.counts.Keys;
    while rest != {}
      invariant rest <= t.counts.Keys && code == 0
      invariant forall net :: net in t.counts && net !in rest ==> NetOk(t.infos, t.counts, {}, net)
      decreases rest
    {
      var net := First(rest);
      assert NetOk(t.infos, local, {}, net);
      if CountOf(local, net) != t.counts[net] {
        assert !NetOk(t.infos, t.counts, {}, net);
        return -21;
      }
      rest := rest - {net};
    }
  }

  /** 0 exactly when every test passes; otherwise the code says which one does not. */
  method CheckAddrman(c: Config, t: Tab, keyIsNull: bool) returns (code: int)
    ensures code == 0 <==> CheckPasses(c, t) && !keyIsNull
    ensures Explains(c, t, keyIsNull, code)
  {
    hide TriedPasses, NewPasses, NetsPass, InfoPasses, Members, EntryCode, NetOk, Passed, HasRefs, Networks;
    if |t.vRandom| != t.nTried + t.nNew {
      return -7;
    }
    var setTried, mapNew, local, left, leftNew;
    code, setTried, mapNew, local := CheckEntries(t);
    if code != 0 {
      CodeKnown(t, code);
      return;
    }
    assert Collected(t, {}, setTried, mapNew, local);
    CollectedAll(t, setTried, mapNew, local);
    if |setTried| != t.nTried {
      return -9;
    }
    if |mapNew| != t.nNew {
      return -10;
    }
    code, left := CheckTried(c, t, setTried);
    if code != 0 {
      return;
    }
    code, leftNew := CheckNews(c, t, mapNew);
    if code != 0 {
      return;
    }
    if left != {} {
      return -13;
    }
    if leftNew != map[] {
      return -15;
    }
    if keyIsNull {
      return -16;
    }
    code := CheckNets(t, local);
  }

  lemma CodeKnown(t: Tab, code: int)
    requires code != 0 && exists id :: id in t.infos && EntryCode(t, id) == code
    ensures code in {-1, -2, -3, -4, -5, -6, -8, -14} && exists id :: id in t.infos && !InfoPasses(t, id)
  {
    var id :| id in t.infos && EntryCode(t, id) == code;
    assert !InfoPasses(t, id);
  }

  lemma CollectedAll(t: Tab, setTried: set<nat>, mapNew: map<nat, int>, local: map<nat, NewTried>)
    requires Collected(t, {}, setTried, mapNew, local)
    ensures forall id :: id in t.infos ==> InfoPasses(t, id)
    ensures forall id :: id in mapNew ==> id in t.infos && mapNew[id] == t.infos[id].refCount > 0
    ensures forall net :: NetOk(t.infos, local, {}, net)
  {
    hide NetOk, Networks;
    forall id | id in t.infos
      ensures InfoPasses(t, id)
    {
      assert EntryCode(t, id) == 0;
    }
    forall id | id in mapNew
      ensures t.infos[id].refCount > 0
    {
      assert id in Members(t.infos, {}, false, None);
      assert InfoPasses(t, id);
    }
  }

  // ----- the invariant of the manager suffices

  lemma InfosPass(c: Config, t: Tab)
    requires Ok(c, t, {}, {})
    ensures forall id :: id in t.infos ==> InfoPasses(t, id)
  {
    forall id | id in t.infos
      ensures InfoPasses(t, id)
    {
      hide Indexed, TriedOk, NewOk, CountsOk;
      EntryAt(c, t, id);
      IndexedAt(t.infos, t.mapAddr, t.vRandom, t.idCount, id);
      if t.infos[id].inTried {
        TriedUnplaced(c, t.infos, t.news, id);
      }
    }
  }

  lemma SizesOk(c: Config, t: Tab)
    requires Ok(c, t, {}, {})
    ensures SizesPass(t)
  {
    hide TriedOk, NewOk, RefsOk, Indexed, Members;
    RandomSize(t.infos, t.mapAddr, t.vRandom, t.idCount);
    BothTables(t.infos);
  }

  lemma BothTables(infos: Infos)
    ensures |infos.Keys| == |Members(infos, {}, true, None)| + |Members(infos, {}, false, None)|
  {
    var a, b := Members(infos, {}, true, None), Members(infos, {}, false, None);
    assert infos.Keys == a + b && a !! b;
  }

  /** A network with an entry has a count. */
  lemma {:induction false} NetworksCounted(t: Tab)
    requires CountsOk(t.infos, t.nTried, t.nNew, t.counts, {})
    ensures Networks(t, {}) <= t.counts.Keys && |Networks(t, {})| <= |t.counts|
  {
    forall id | id in t.infos
      ensures t.infos[id].service.network in t.counts
    {
      var net := t.infos[id].service.network;
      assert NetOk(t.infos, t.counts, {}, net);
      assert id in Members(t.infos, {}, t.infos[id].inTried, Some(net));
    }
    SubsetSize(Networks(t, {}), t.counts.Keys);
  }

  lemma NewOkPasses(c: Config, t: Tab)
    requires NewOk(c, t.infos, t.news)
    ensures NewPasses(c, t)
  {
    hide Places;
  }

  lemma TriedOkPasses(c: Config, t: Tab)
    requires TriedOk(c, t.infos, t.tried)
    ensures TriedPasses(c, t)
  {
  }

  /** Consistent tables pass, and every network with an entry is counted, which the check does not ask. */
  lemma ConsistentPasses(c: Config, t: Tab)
    requires Ok(c, t, {}, {})
    ensures CheckPasses(c, t) && Networks(t, {}) <= t.counts.Keys
  {
    hide Indexed, RefsOk, NewOk, TriedOk, InfoPasses, Networks, SizesPass, TriedPasses, NewPasses, NetOk;
    InfosPass(c, t);
    SizesOk(c, t);
    TriedOkPasses(c, t);
    NewOkPasses(c, t);
    NetworksCounted(t);
  }
}
