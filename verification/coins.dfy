// Coins, cache entries and their flags, and what a stack of caches shows (src/coins.h, src/coins.cpp).
module Coins {
  import opened Options
  import opened FlagLists

  datatype OutPoint = OutPoint(txid: nat, n: nat)

  /** A null coin never existed or has been spent. */
  datatype Coin = Spent | Unspent(value: int, script: seq<nat>, height: nat, coinbase: bool)

  const OP_RETURN: nat := 0x6a
  const MAX_SCRIPT_SIZE: nat := 10000

  predicate Unspendable(c: Coin)
    requires c.Unspent?
  {
    (|c.script| > 0 && c.script[0] == OP_RETURN) || |c.script| > MAX_SCRIPT_SIZE
  }

  datatype Entry = Entry(coin: Coin, isDirty: bool, isFresh: bool)

  predicate Flagged(e: Entry) { e.isDirty || e.isFresh }

  /** The five combinations that SanityCheck admits. */
  predicate Legal(e: Entry) {
    || (e.coin.Unspent? && e.isFresh && e.isDirty)
    || (e.coin.Unspent? && !e.isFresh && e.isDirty)
    || (e.coin.Unspent? && !e.isFresh && !e.isDirty)
    || (e.coin.Spent? && e.isFresh && !e.isDirty)
    || (e.coin.Spent? && !e.isFresh && e.isDirty)
  }

  /** What the flags claim about the coin visible below this cache. */
  predicate EntryOk(e: Entry, below: Coin) {
    Legal(e) && (e.isFresh ==> below.Spent?) && (!e.isDirty ==> e.coin == below)
  }

  // ----- one entry written to the parent

  datatype Written = Kept(entry: Option<Entry>) | FreshMisapplied

  /** The parent's entry after a dirty entry `it` of the child is written to it. */
  function WriteUp(us: Option<Entry>, it: Entry): Written {
    match us
    case None =>
      if it.isFresh && it.coin.Spent? then Kept(None) else Kept(Some(Entry(it.coin, true, it.isFresh)))
    case Some(u) =>
      if it.isFresh && u.coin.Unspent? then FreshMisapplied
      else if u.isFresh && it.coin.Spent? then Kept(None)
      else Kept(Some(Entry(it.coin, true, u.isFresh)))
  }

  /** With honest flags the write succeeds, the parent shows the child's coin, and its own flags stay honest. */
  lemma WriteUpOk(us: Option<Entry>, it: Entry, below: Coin)
    requires it.isDirty && EntryOk(it, if us.Some? then us.value.coin else below)
    requires us.Some? ==> EntryOk(us.value, below)
    ensures var w := WriteUp(us, it);
            && w.Kept?
            && (w.entry.Some? ==> EntryOk(w.entry.value, below) && w.entry.value.coin == it.coin)
            && (w.entry.None? ==> it.coin == below)
  {
  }

  // ----- one cache

  datatype Cache = Cache(coins: map<OutPoint, Entry>, links: Links<OutPoint>)

  const EMPTY_CACHE: Cache := Cache(map[], SelfRef())

  /** The ring holds exactly the flagged entries, in the order `order`. */
  ghost predicate LinkedAs(c: Cache, order: seq<OutPoint>) {
    Ring(c.links, order) && forall o :: o in order <==> o in c.coins && Flagged(c.coins[o])
  }

  ghost predicate Linked(c: Cache) { exists order :: LinkedAs(c, order) }

  /** SetDirty and SetFresh. */
  function AddFlags(c: Cache, o: OutPoint, isDirty: bool, isFresh: bool): Cache
    requires o in c.coins && Sentinel in c.links.prev
  {
    var e := c.coins[o];
    Cache(c.coins[o := Entry(e.coin, e.isDirty || isDirty, e.isFresh || isFresh)],
          if Flagged(e) then c.links else LinkLast(c.links, o))
  }

  /** Store an entry's coin without touching its flags; a new entry has none. */
  function Store(c: Cache, o: OutPoint, coin: Coin): Cache {
    c.(coins := c.coins[o := if o in c.coins then c.coins[o].(coin := coin) else Entry(coin, false, false)])
  }

  function LinksWithout(c: Cache, o: OutPoint): Links<OutPoint>
    requires o in c.coins && (Flagged(c.coins[o]) ==> At(o) in c.links.next && At(o) in c.links.prev)
  {
    if Flagged(c.coins[o]) then Unlink(c.links, o) else c.links
  }

  function SetClean(c: Cache, o: OutPoint): Cache
    requires o in c.coins && (Flagged(c.coins[o]) ==> At(o) in c.links.next && At(o) in c.links.prev)
  {
    Cache(c.coins[o := Entry(c.coins[o].coin, false, false)], LinksWithout(c, o))
  }

  function Erase(c: Cache, o: OutPoint): Cache
    requires o in c.coins && (Flagged(c.coins[o]) ==> At(o) in c.links.next && At(o) in c.links.prev)
  {
    Cache(c.coins - {o}, LinksWithout(c, o))
  }

  lemma EmptyLinked()
    ensures LinkedAs(EMPTY_CACHE, [])
  {
    SelfRefRing<OutPoint>();
  }

  lemma LinkedFacts(c: Cache)
    requires Linked(c)
    ensures Sentinel in c.links.prev && Sentinel in c.links.next
    ensures forall o :: o in c.coins && Flagged(c.coins[o]) ==> At(o) in c.links.next && At(o) in c.links.prev
  {
    var order :| LinkedAs(c, order);
    assert Joined(c.links, order, 0) && Joined(c.links, order, |order|);
  }

  lemma StoreLinked(c: Cache, o: OutPoint, coin: Coin)
    requires Linked(c)
    ensures Linked(Store(c, o, coin))
  {
    var order :| LinkedAs(c, order);
    assert LinkedAs(Store(c, o, coin), order);
  }

  lemma AddFlagsLinked(c: Cache, o: OutPoint, isDirty: bool, isFresh: bool)
    requires Linked(c) && o in c.coins && (isDirty || isFresh)
    ensures Sentinel in c.links.prev && Linked(AddFlags(c, o, isDirty, isFresh))
  {
    LinkedFacts(c);
    var order :| LinkedAs(c, order);
    if Flagged(c.coins[o]) {
      assert LinkedAs(AddFlags(c, o, isDirty, isFresh), order);
    } else {
      LinkLastRing(c.links, order, o);
      assert LinkedAs(AddFlags(c, o, isDirty, isFresh), order + [o]);
    }
  }

  /** Unlinking entry `o`, wherever it stands in the ring. */
  lemma Removed(c: Cache, order: seq<OutPoint>, o: OutPoint) returns (order': seq<OutPoint>)
    requires LinkedAs(c, order) && o in c.coins
    ensures Flagged(c.coins[o]) ==> At(o) in c.links.next && At(o) in c.links.prev
    ensures Ring(LinksWithout(c, o), order')
    ensures forall p :: p in order' <==> p in order && p != o
    ensures order != [] && order[0] == o ==> order' == order[1..]
  {
    order' := order;
    if Flagged(c.coins[o]) {
      var i :| 0 <= i < |order| && order[i] == o;
      var a, b := order[..i], order[i + 1..];
      assert order == a + [o] + b;
      UnlinkRing(c.links, a, o, b);
      order' := a + b;
      assert i == 0 ==> a + b == order[1..];
      assert order[0] == o ==> i == 0;
      assert o !in a && o !in b;
    }
  }

  lemma EraseLinked(c: Cache, o: OutPoint)
    requires Linked(c) && o in c.coins
    ensures Flagged(c.coins[o]) ==> At(o) in c.links.next && At(o) in c.links.prev
    ensures Linked(Erase(c, o))
  {
    var order :| LinkedAs(c, order);
    var order' := Removed(c, order, o);
    assert LinkedAs(Erase(c, o), order');
  }

  lemma SetCleanLinked(c: Cache, order: seq<OutPoint>, o: OutPoint)
    requires LinkedAs(c, order) && o in c.coins && order != [] && order[0] == o
    ensures At(o) in c.links.next && At(o) in c.links.prev
    ensures LinkedAs(SetClean(c, o), order[1..]) && LinkedAs(Erase(c, o), order[1..])
  {
    var order' := Removed(c, order, o);
  }

  // ----- a stack of caches

  function DbCoin(db: map<OutPoint, Coin>, o: OutPoint): Coin { if o in db then db[o] else Spent }

  /** The coin seen through the lowest `k` caches: the highest entry wins. */
  ghost function Visible(db: map<OutPoint, Coin>, caches: seq<Cache>, k: nat, o: OutPoint): Coin
    requires k <= |caches|
  {
    if k == 0 then DbCoin(db, o)
    else if o in caches[k - 1].coins then caches[k - 1].coins[o].coin
    else Visible(db, caches, k - 1, o)
  }

  /** Every entry of cache `k` is honest about what lies below. */
  ghost predicate LevelOk(db: map<OutPoint, Coin>, caches: seq<Cache>, k: nat)
    requires k < |caches|
  {
    && Linked(caches[k])
    && forall o {:trigger caches[k].coins[o]} :: o in caches[k].coins ==>
        EntryOk(caches[k].coins[o], Visible(db, caches, k, o))
  }

  ghost predicate StackOk(db: map<OutPoint, Coin>, caches: seq<Cache>) {
    forall k {:trigger LevelOk(db, caches, k)} :: 0 <= k < |caches| ==> LevelOk(db, caches, k)
  }

  /** Both stacks show the same through their lowest `k` caches. */
  ghost predicate SameView(db: map<OutPoint, Coin>, caches: seq<Cache>, db': map<OutPoint, Coin>, caches': seq<Cache>,
                           k: nat)
    requires k <= |caches| && k <= |caches'|
  {
    forall o :: Visible(db, caches, k, o) == Visible(db', caches', k, o)
  }

  lemma {:induction false} ViewBelow(db: map<OutPoint, Coin>, caches: seq<Cache>, caches': seq<Cache>, k: nat)
    requires k <= |caches| && k <= |caches'| && forall i :: 0 <= i < k ==> caches[i] == caches'[i]
    ensures SameView(db, caches, db, caches', k)
  {
    if k > 0 {
      ViewBelow(db, caches, caches', k - 1);
    }
  }

  lemma {:induction false} ViewAbove(db: map<OutPoint, Coin>, caches: seq<Cache>, db': map<OutPoint, Coin>,
                                     caches': seq<Cache>, j: nat, k: nat)
    requires j <= k <= |caches| == |caches'| && SameView(db, caches, db', caches', j)
    requires forall i :: j <= i < k ==> caches[i] == caches'[i]
    ensures SameView(db, caches, db', caches', k)
  {
    if j < k {
      ViewAbove(db, caches, db', caches', j, k - 1);
    }
  }

  /** Levels whose cache and view below are unchanged stay honest. */
  lemma LevelKept(db: map<OutPoint, Coin>, caches: seq<Cache>, db': map<OutPoint, Coin>, caches': seq<Cache>, k: nat)
    requires k < |caches| == |caches'| && LevelOk(db, caches, k) && caches[k] == caches'[k]
    requires SameView(db, caches, db', caches', k)
    ensures LevelOk(db', caches', k)
  {
    forall o | o in caches'[k].coins
      ensures EntryOk(caches'[k].coins[o], Visible(db', caches', k, o))
    {
      assert Visible(db, caches, k, o) == Visible(db', caches', k, o);
    }
  }

  /** Changing only caches in [lo, hi), so that what is seen through `hi` caches stays the same. */
  lemma StackKept(db: map<OutPoint, Coin>, caches: seq<Cache>, db': map<OutPoint, Coin>, caches': seq<Cache>, lo: nat,
                  hi: nat)
    requires StackOk(db, caches) && lo <= hi <= |caches| == |caches'|
    requires lo > 0 ==> db == db'
    requires forall i :: 0 <= i < |caches| && !(lo <= i < hi) ==> caches'[i] == caches[i]
    requires forall i {:trigger LevelOk(db', caches', i)} :: lo <= i < hi ==> LevelOk(db', caches', i)
    requires SameView(db, caches, db', caches', hi)
    ensures StackOk(db', caches')
    ensures forall k :: hi <= k <= |caches| ==> SameView(db, caches, db', caches', k)
    ensures db == db' ==> forall k :: 0 <= k <= lo ==> SameView(db, caches, db', caches', k)
  {
    hide Visible, LevelOk;
    forall k | hi <= k <= |caches|
      ensures SameView(db, caches, db', caches', k)
    {
      ViewAbove(db, caches, db', caches', hi, k);
    }
    if db == db' {
      forall k | 0 <= k <= lo
        ensures SameView(db, caches, db', caches', k)
      {
        ViewBelow(db, caches, caches', k);
      }
    }
    forall k | 0 <= k < |caches|
      ensures LevelOk(db', caches', k)
    {
      if !(lo <= k < hi) {
        assert LevelOk(db, caches, k);
        LevelKept(db, caches, db', caches', k);
      }
    }
  }
}
