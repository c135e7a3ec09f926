// A stack of CCoinsViewCache objects over a coins database (src/coins.cpp). Cache number `k` is the
// base of cache number `k + 1`; what is seen "through k caches" is the view of the k-th cache.
module CoinStacks {
  import opened Options
  import opened Sequences
  import opened FlagLists
  import opened Coins
  import opened CoinWriting

  // ----- changes to a single entry

  ghost function Below(db: map<OutPoint, Coin>, caches: seq<Cache>, k: nat): OutPoint -> Coin
    requires k <= |caches|
  {
    o => Visible(db, caches, k, o)
  }

  /** Both stacks show the same at every level. */
  ghost predicate SameViews(db: map<OutPoint, Coin>, caches: seq<Cache>, db': map<OutPoint, Coin>,
                            caches': seq<Cache>) {
    |caches| == |caches'| && forall k :: 0 <= k <= |caches| ==> SameView(db, caches, db', caches', k)
  }

  /** The view through `k` caches differs from the former one only in showing `coin` for `o`. */
  ghost predicate ViewWith(db: map<OutPoint, Coin>, caches: seq<Cache>, caches': seq<Cache>, k: nat, o: OutPoint,
                           coin: Coin)
    requires k <= |caches| && k <= |caches'|
  {
    forall p :: Visible(db, caches', k, p) == if p == o then coin else Visible(db, caches, k, p)
  }

  /** Replace the entry for `o` in cache `k` by an honest one, either without a visible effect or in
      the top cache. */
  lemma EntryChanged(db: map<OutPoint, Coin>, caches: seq<Cache>, k: nat, c: Cache, o: OutPoint)
    requires StackOk(db, caches) && k < |caches| && Linked(c) && SameBut(caches[k], c, o)
    requires o in c.coins ==> EntryOk(c.coins[o], Visible(db, caches, k, o))
    requires k == |caches| - 1 || Shown(c, Below(db, caches, k), o) == Visible(db, caches, k + 1, o)
    ensures var caches' := caches[k := c];
            && StackOk(db, caches')
            && (forall j :: 0 <= j <= k ==> SameView(db, caches, db, caches', j))
            && ViewWith(db, caches, caches', k + 1, o, Shown(c, Below(db, caches, k), o))
            && (Shown(c, Below(db, caches, k), o) == Visible(db, caches, k + 1, o) ==>
                SameViews(db, caches, db, caches'))
  {
    var caches' := caches[k := c];
    ViewBelow(db, caches, caches', k);
    assert LevelOk(db, caches, k);
    forall p
      ensures p in c.coins ==> EntryOk(c.coins[p], Visible(db, caches', k, p))
      ensures Visible(db, caches', k + 1, p) ==
              if p == o then Shown(c, Below(db, caches, k), o) else Visible(db, caches, k + 1, p)
    {
      assert Visible(db, caches, k, p) == Visible(db, caches', k, p);
      assert p != o ==> Lookup(caches[k], p) == Lookup(c, p);
    }
    assert LevelOk(db, caches', k);
    hide Visible, EntryOk, LevelOk;
    if Shown(c, Below(db, caches, k), o) == Visible(db, caches, k + 1, o) {
      StackKept(db, caches, db, caches', k, k + 1);
    } else {
      OtherLevels(db, caches, caches', k);
    }
    forall j | 0 <= j <= k
      ensures SameView(db, caches, db, caches', j)
    {
      ViewBelow(db, caches, caches', j);
    }
  }

  /** Changing the top cache leaves those below as they were. */
  lemma OtherLevels(db: map<OutPoint, Coin>, caches: seq<Cache>, caches': seq<Cache>, k: nat)
    requires StackOk(db, caches) && k + 1 == |caches| == |caches'| && caches[..k] == caches'[..k]
    requires LevelOk(db, caches', k)
    ensures StackOk(db, caches')
  {
    hide Visible, LevelOk;
    assert forall i :: 0 <= i < k ==> caches[i] == caches[..k][i] == caches'[i];
    forall j | 0 <= j < k
      ensures LevelOk(db, caches', j)
    {
      ViewBelow(db, caches, caches', j);
      assert LevelOk(db, caches, j);
      LevelKept(db, caches, db, caches', j);
    }
  }

  /** A coin fetched from below is recorded without flags, or as FRESH if it is a spent one. */
  method Fetched(db: map<OutPoint, Coin>, caches: seq<Cache>, k: nat, o: OutPoint, coin: Coin) returns (c: Cache)
    requires StackOk(db, caches) && k < |caches| && o !in caches[k].coins && coin == Visible(db, caches, k, o)
    ensures StackOk(db, caches[k := c]) && SameViews(db, caches, db, caches[k := c])
    ensures o in c.coins
  {
    assert LevelOk(db, caches, k);
    StoreLinked(caches[k], o, coin);
    c := Store(caches[k], o, coin);
    if coin.Spent? {
      AddFlagsLinked(c, o, false, true);
      c := AddFlags(c, o, false, true);
    }
    EntryChanged(db, caches, k, c, o);
  }

  /** The cache part of AddCoin. A coin may be marked FRESH unless its spentness still has to be written down. */
  method AddedTo(c0: Cache, o: OutPoint, coin: Coin, possibleOverwrite: bool) returns (c: Cache)
    requires Linked(c0) && (!possibleOverwrite && o in c0.coins ==> c0.coins[o].coin.Spent?)
    ensures Linked(c) && SameBut(c0, c, o)
    ensures var was := if o in c0.coins then c0.coins[o] else Entry(Spent, false, false);
            Lookup(c, o) == Some(Entry(coin, true, was.isFresh || (!possibleOverwrite && !was.isDirty)))
  {
    hide LinkLast, Linked;
    c := c0;
    if o !in c.coins {
      StoreLinked(c, o, Spent);
      c := Store(c, o, Spent);
    }
    var isFresh := !possibleOverwrite && !c.coins[o].isDirty;
    StoreLinked(c, o, coin);
    c := Store(c, o, coin);
    AddFlagsLinked(c, o, true, false);
    c := AddFlags(c, o, true, false);
    if isFresh {
      AddFlagsLinked(c, o, false, true);
      c := AddFlags(c, o, false, true);
    }
  }

  /** The cache part of SpendCoin. */
  method SpentIn(c0: Cache, o: OutPoint) returns (c: Cache)
    requires Linked(c0) && o in c0.coins
    ensures Linked(c) && SameBut(c0, c, o)
    ensures Lookup(c, o) == if c0.coins[o].isFresh then None else Some(Entry(Spent, true, false))
  {
    hide LinkLast, Linked, LinksWithout;
    c := c0;
    if c.coins[o].isFresh {
      EraseLinked(c, o);
      c := Erase(c, o);
    } else {
      AddFlagsLinked(c, o, true, false);
      c := AddFlags(c, o, true, false);
      StoreLinked(c, o, Spent);
      c := Store(c, o, Spent);
    }
  }

  // ----- writing to the parent

  /** Only unspent coins of `view`, without flags. */
  ghost predicate AllClean(c: Cache, view: OutPoint -> Coin) {
    forall o {:trigger c.coins[o]} :: o in c.coins ==> c.coins[o] == Entry(view(o), false, false) && view(o).Unspent?
  }

  /** After cache `k` has been written to its parent and replaced by `child`. */
  lemma PushedDown(db: map<OutPoint, Coin>, caches: seq<Cache>, k: nat, parent: Cache, child: Cache)
    requires StackOk(db, caches) && 0 < k < |caches|
    requires Honest(parent, Below(db, caches, k - 1)) && Linked(child)
    requires Shows(parent, Below(db, caches, k - 1), Below(db, caches, k + 1))
             && AllClean(child, Below(db, caches, k + 1))
    ensures var caches' := caches[k - 1 := parent][k := child];
            && StackOk(db, caches')
            && (forall o :: Visible(db, caches', k, o) == Visible(db, caches, k + 1, o))
            && (forall j :: 0 <= j <= |caches| && j != k ==> SameView(db, caches, db, caches', j))
  {
    var caches' := caches[k - 1 := parent][k := child];
    ViewBelow(db, caches, caches', k - 1);
    forall o
      ensures Visible(db, caches', k, o) == Visible(db, caches, k + 1, o)
      ensures Visible(db, caches', k + 1, o) == Visible(db, caches, k + 1, o)
      ensures o in parent.coins ==> EntryOk(parent.coins[o], Visible(db, caches', k - 1, o))
    {
      assert Visible(db, caches, k - 1, o) == Visible(db, caches', k - 1, o);
      assert Shown(parent, Below(db, caches, k - 1), o) == Visible(db, caches, k + 1, o);
    }
    assert LevelOk(db, caches', k - 1) && LevelOk(db, caches', k);
    hide Visible, LevelOk;
    StackKept(db, caches, db, caches', k - 1, k + 1);
  }

  /** After the lowest cache has been written to the database. */
  lemma PushedToDb(db: map<OutPoint, Coin>, caches: seq<Cache>, db': map<OutPoint, Coin>, child: Cache)
    requires StackOk(db, caches) && |caches| > 0 && Linked(child)
    requires forall o :: DbCoin(db', o) == Visible(db, caches, 1, o)
    requires AllClean(child, Below(db, caches, 1))
    ensures var caches' := caches[0 := child];
            && StackOk(db', caches')
            && (forall o :: Visible(db', caches', 0, o) == Visible(db, caches, 1, o))
            && (forall j :: 0 < j <= |caches| ==> SameView(db, caches, db', caches', j))
  {
    var caches' := caches[0 := child];
    forall o
      ensures Visible(db', caches', 1, o) == Visible(db, caches, 1, o)
    {
      assert DbCoin(db', o) == Visible(db, caches, 1, o);
    }
    assert LevelOk(db', caches', 0);
    hide Visible, LevelOk;
    StackKept(db, caches, db', caches', 0, 1);
  }

  // ----- the database as the parent

  ghost predicate DbWrittenSoFar(db0: map<OutPoint, Coin>, db: map<OutPoint, Coin>, child: Cache, done: seq<OutPoint>) {
    forall o {:trigger DbCoin(db, o)} :: DbCoin(db, o) ==
      if o in done && o in child.coins then child.coins[o].coin else DbCoin(db0, o)
  }

  lemma DbStep(db0: map<OutPoint, Coin>, db: map<OutPoint, Coin>, db': map<OutPoint, Coin>, child: Cache,
               order: seq<OutPoint>, i: nat)
    requires i < |order| && order[i] in child.coins && DbWrittenSoFar(db0, db, child, order[..i])
    requires DbCoin(db', order[i]) == child.coins[order[i]].coin
    requires forall p {:trigger DbCoin(db', p)} :: p != order[i] ==> DbCoin(db', p) == DbCoin(db, p)
    ensures DbWrittenSoFar(db0, db', child, order[..i + 1])
  {
    assert order[..i + 1] == order[..i] + [order[i]];
    forall o
      ensures DbCoin(db', o) == if o in order[..i + 1] && o in child.coins then child.coins[o].coin else DbCoin(db0, o)
    {
      assert DbCoin(db, o) == if o in order[..i] && o in child.coins then child.coins[o].coin else DbCoin(db0, o);
    }
  }

  /** Write or erase one flagged entry. */
  method DbWriteNext(db0: map<OutPoint, Coin>, before: map<OutPoint, Coin>, child0: Cache, child: Cache,
                     ghost order: seq<OutPoint>, ghost i: nat, o: OutPoint, ghost willErase: bool)
    returns (db: map<OutPoint, Coin>)
    requires i < |order| && o == order[i] && Honest(child0, o => DbCoin(db0, o)) && LinkedAs(child0, order)
    requires Iterating(child0, child, order, i, willErase) && DbWrittenSoFar(db0, before, child0, order[..i])
    ensures DbWrittenSoFar(db0, db, child0, order[..i + 1])
  {
    EntryUnchanged(child0, child, order, i, willErase);
    db := before;
    if child.coins[o].isDirty {
      if child.coins[o].coin.Spent? {
        db := db - {o};
      } else {
        db := db[o := child.coins[o].coin];
      }
    }
    assert EntryOk(child0.coins[o], DbCoin(db0, o));
    assert o !in order[..i] && DbCoin(before, o) == DbCoin(db0, o);
    hide DbWrittenSoFar, Iterating, Honest, LinkedAs;
    DbStep(db0, before, db, child0, order, i);
  }

  lemma DbWrittenAll(db0: map<OutPoint, Coin>, db: map<OutPoint, Coin>, child: Cache, order: seq<OutPoint>)
    requires Honest(child, o => DbCoin(db0, o)) && LinkedAs(child, order) && DbWrittenSoFar(db0, db, child, order)
    ensures forall o :: DbCoin(db, o) == Shown(child, p => DbCoin(db0, p), o)
  {
    forall o
      ensures DbCoin(db, o) == Shown(child, p => DbCoin(db0, p), o)
    {
      if o in child.coins {
        assert EntryOk(child.coins[o], DbCoin(db0, o));
      }
    }
  }

  /** Write the flagged entries of `child` to the database. */
  method DbBatchWrite(db0: map<OutPoint, Coin>, child0: Cache, willErase: bool)
    returns (db: map<OutPoint, Coin>, child: Cache)
    requires Honest(child0, o => DbCoin(db0, o))
    ensures forall o :: DbCoin(db, o) == Shown(child0, p => DbCoin(db0, p), o)
    ensures if willErase then child == child0 else
              LinkedAs(child, []) && IsCleaned(child0, child)
  {
    db, child := db0, child0;
    ghost var order :| LinkedAs(child0, order);
    ghost var i: nat := 0;
    CursorStart(child0, order);
    assert order[..0] == [];
    var it := child.links.next[Sentinel];
    hide DbWrittenSoFar, Iterating, Honest, LinkedAs;
    while it != Sentinel
      invariant i <= |order| && it == CursorAt(order, i) && Iterating(child0, child, order, i, willErase)
      invariant DbWrittenSoFar(db0, db, child0, order[..i])
      decreases |order| - i
    {
      db := DbWriteNext(db0, db, child0, child, order, i, it.key, willErase);
      child, it := NextAndMaybeErase(child0, child, order, i, it.key, willErase);
      i := i + 1;
    }
    assert order[..i] == order;
    DbWrittenAll(db0, db, child0, order);
    CleanedEnd(child0, child, order, willErase, o => DbCoin(db0, o));
  }

  // ----- the stack

  /** Cache number `k` has been written down: its base now shows what it showed, and no other view has changed. */
  ghost predicate Flushed(db: map<OutPoint, Coin>, caches: seq<Cache>, db': map<OutPoint, Coin>, caches': seq<Cache>,
                          k: nat)
    requires 0 < k <= |caches|
  {
    && |caches'| == |caches| && StackOk(db', caches')
    && (forall o :: Visible(db', caches', k - 1, o) == Visible(db, caches, k, o))
    && (forall j :: 0 <= j <= |caches| && j != k - 1 ==> SameView(db, caches, db', caches', j))
  }

  /** Whether cache number `k` has an entry for `o` or can fetch one from below: a cache hands up only unspent coins,
      the database whatever it has. */
  ghost predicate Known(db: map<OutPoint, Coin>, caches: seq<Cache>, k: nat, o: OutPoint)
    requires 0 < k <= |caches|
  {
    o in caches[k - 1].coins || Visible(db, caches, k, o).Unspent? || (k == 1 && o in db)
  }

  class CoinsStack {
    var db: map<OutPoint, Coin>
    var caches: seq<Cache>

    ghost predicate Valid()
      reads this
    {
      StackOk(db, caches)
    }

    /** What a reader of the top cache sees. */
    ghost function Top(o: OutPoint): Coin
      reads this
    {
      Visible(db, caches, |caches|, o)
    }

    constructor (db: map<OutPoint, Coin>)
      ensures Valid() && this.db == db && caches == []
    {
      this.db, caches := db, [];
    }

    /** Construct a new cache on top of the stack. */
    method Push()
      requires Valid()
      modifies this`caches
      ensures Valid() && caches == old(caches) + [EMPTY_CACHE]
      ensures forall o :: Top(o) == old(Top(o))
      ensures forall k :: 0 <= k <= |old(caches)| ==> SameView(old(db), old(caches), db, caches, k)
    {
      EmptyLinked();
      caches := caches + [EMPTY_CACHE];
      forall k | 0 <= k < |caches|
        ensures LevelOk(db, caches, k)
        ensures SameView(db, old(caches), db, caches, k)
      {
        ViewBelow(db, old(caches), caches, k);
        assert forall o :: Visible(db, old(caches), k, o) == Visible(db, caches, k, o);
        if k < |caches| - 1 {
          assert LevelOk(db, old(caches), k);
        } else {
          assert Linked(caches[k]);
        }
      }
      forall o
        ensures Top(o) == old(Top(o))
      {
        assert Top(o) == Visible(db, caches, |caches| - 1, o);
        assert SameView(db, old(caches), db, caches, |caches| - 1);
      }
    }

    /** The lookup that fills the cache: true when cache number `k` then has an entry. */
    method FetchCoin(k: nat, o: OutPoint) returns (found: bool)
      requires Valid() && 0 < k <= |caches|
      modifies this`caches
      ensures Valid() && SameViews(db, old(caches), db, caches)
      ensures forall j :: k <= j < |caches| ==> caches[j] == old(caches)[j]
      ensures found <==> o in caches[k - 1].coins
      ensures found <==> Known(db, old(caches), k, o)
      ensures !found ==> Visible(db, caches, k, o).Spent?
      ensures o in old(caches)[k - 1].coins ==> found && caches == old(caches)
      decreases k, 0
    {
      found := true;
      if o !in caches[k - 1].coins {
        var coin := GetCoin(k - 1, o);
        assert SameView(db, old(caches), db, caches, k - 1);
        assert Visible(db, old(caches), k - 1, o) == Visible(db, caches, k - 1, o) == Visible(db, caches, k, o);
        if coin.None? {
          return false;
        }
        ghost var before := caches;
        var c := Fetched(db, caches, k - 1, o, coin.value);
        caches := caches[k - 1 := c];
        ViewsTrans(db, old(caches), before, caches);
      }
    }

    /** The coin that the view of cache number `k` shows. The database, number 0, returns what it stores. */
    method GetCoin(k: nat, o: OutPoint) returns (coin: Option<Coin>)
      requires Valid() && k <= |caches|
      modifies this`caches
      ensures Valid() && SameViews(db, old(caches), db, caches)
      ensures forall j :: k <= j < |caches| ==> caches[j] == old(caches)[j]
      ensures coin.Some? ==> coin.value == Visible(db, old(caches), k, o) && (k > 0 ==> coin.value.Unspent?)
      ensures coin.None? ==> Visible(db, old(caches), k, o).Spent?
      ensures k == 0 ==> (coin.Some? <==> o in db)
      decreases k, 1
    {
      assert SameViews(db, caches, db, caches);
      if k == 0 {
        return if o in db then Some(db[o]) else None;
      }
      var found := FetchCoin(k, o);
      assert SameView(db, old(caches), db, caches, k);
      assert Visible(db, old(caches), k, o) == Visible(db, caches, k, o);
      if found && caches[k - 1].coins[o].coin.Unspent? {
        return Some(caches[k - 1].coins[o].coin);
      }
      return None;
    }

    /** Add a coin to the top cache. Without `possibleOverwrite` no unspent coin may be visible. */
    method AddCoin(o: OutPoint, coin: Coin, possibleOverwrite: bool)
      requires Valid() && caches != [] && coin.Unspent?
      requires !possibleOverwrite ==> Top(o).Spent?
      modifies this`caches
      ensures Valid() && |caches| == |old(caches)|
      ensures forall p :: Top(p) == if p == o && !Unspendable(coin) then coin else old(Top(p))
      ensures forall k :: 0 <= k < |caches| ==> SameView(db, old(caches), db, caches, k)
    {
      if Unspendable(coin) {
        return;
      }
      var n := |caches| - 1;
      assert LevelOk(db, caches, n);
      var c := AddedTo(caches[n], o, coin, possibleOverwrite);
      assert Lookup(c, o).Some?;
      EntryChanged(db, caches, n, c, o);
      caches := caches[n := c];
    }

    /** Spend a coin in the top cache: it is no longer visible, and the coin itself is handed out. */
    method SpendCoin(o: OutPoint) returns (ok: bool, moveout: Coin)
      requires Valid() && caches != []
      modifies this`caches
      ensures Valid() && |caches| == |old(caches)|
      ensures forall p :: Top(p) == if p == o then Spent else old(Top(p))
      ensures moveout == old(Top(o)) && (ok <==> Known(db, old(caches), |caches|, o))
      ensures forall k :: 0 <= k < |caches| ==> SameView(db, old(caches), db, caches, k)
    {
      var n := |caches| - 1;
      ok := FetchCoin(n + 1, o);
      moveout := Spent;
      assert SameView(db, old(caches), db, caches, n + 1);
      assert Visible(db, old(caches), n + 1, o) == Visible(db, caches, n + 1, o);
      if ok {
        var c := caches[n];
        ghost var before := caches;
        assert LevelOk(db, caches, n);
        moveout := c.coins[o].coin;
        c := SpentIn(c, o);
        EntryChanged(db, caches, n, c, o);
        caches := caches[n := c];
        forall k | 0 <= k < |caches|
          ensures SameView(db, old(caches), db, caches, k)
        {
          ViewTrans(db, old(caches), before, caches, k);
        }
      }
    }

    /** Write the changes of cache number `k` to its base. */
    method WriteBase(k: nat, willErase: bool) returns (child: Cache, misapplied: bool)
      requires Valid() && 0 < k <= |caches|
      modifies this
      ensures !misapplied && |caches| == |old(caches)| && caches[k - 1] == old(caches)[k - 1]
      ensures if willErase then child == caches[k - 1] else
                LinkedAs(child, []) && IsCleaned(caches[k - 1], child)
      ensures forall c: Cache {:trigger Linked(c)} :: Linked(c) && AllClean(c, Below(old(db), old(caches), k)) ==>
                Flushed(old(db), old(caches), db, caches[k - 1 := c], k)
    {
      ghost var db0, caches0 := db, caches;
      misapplied := false;
      if k == 1 {
        assert LevelOk(db, caches, 0);
        db, child := DbBatchWrite(db, caches[0], willErase);
        forall c: Cache | Linked(c) && AllClean(c, Below(db0, caches0, k))
          ensures Flushed(db0, caches0, db, caches[k - 1 := c], k)
        {
          PushedToDb(db0, caches0, db, c);
        }
      } else {
        HonestAbove(db, caches, k - 2);
        var parent;
        parent, child, misapplied := BatchWrite(caches[k - 2], caches[k - 1], willErase, Below(db, caches, k - 2));
        assert Shows(parent, Below(db0, caches0, k - 2), Below(db0, caches0, k));
        caches := caches[k - 2 := parent];
        forall c: Cache | Linked(c) && AllClean(c, Below(db0, caches0, k))
          ensures Flushed(db0, caches0, db, caches[k - 1 := c], k)
        {
          PushedDown(db0, caches0, k - 1, parent, c);
        }
      }
    }

    /** Push the changes of cache number `k` to its base, and wipe it. */
    method Flush(k: nat) returns (misapplied: bool)
      requires Valid() && 0 < k <= |caches|
      modifies this
      ensures !misapplied && Flushed(old(db), old(caches), db, caches, k) && caches[k - 1] == EMPTY_CACHE
    {
      var child;
      child, misapplied := WriteBase(k, true);
      EmptyLinked();
      assert Linked(EMPTY_CACHE);
      caches := caches[k - 1 := EMPTY_CACHE];
    }

    /** Push the changes of cache number `k` to its base, keeping its unspent coins without flags. */
    method Sync(k: nat) returns (misapplied: bool, uncleared: bool)
      requires Valid() && 0 < k <= |caches|
      modifies this
      ensures !misapplied && !uncleared && Flushed(old(db), old(caches), db, caches, k)
      ensures IsCleaned(old(caches)[k - 1], caches[k - 1])
    {
      var child;
      child, misapplied := WriteBase(k, false);
      CleanedClean(old(db), old(caches), k, child);
      assert Linked(child);
      CursorStart(child, []);
      caches := caches[k - 1 := child];
      uncleared := child.links.next[Sentinel] != Sentinel;
    }

    /** Drop an unmodified entry from cache number `k`. */
    method Uncache(k: nat, o: OutPoint)
      requires Valid() && 0 < k <= |caches|
      modifies this`caches
      ensures Valid() && SameViews(db, old(caches), db, caches) && caches == old(caches)[k - 1 := caches[k - 1]]
      ensures var before := old(caches)[k - 1].coins;
              caches[k - 1].coins == if o in before && !Flagged(before[o]) then before - {o} else before
    {
      var c := caches[k - 1];
      assert LevelOk(db, caches, k - 1);
      assert SameViews(db, caches, db, caches);
      if o in c.coins && !c.coins[o].isDirty && !c.coins[o].isFresh {
        EraseLinked(c, o);
        c := Erase(c, o);
        EntryChanged(db, caches, k - 1, c, o);
        caches := caches[k - 1 := c];
      }
    }
  }

  /** An unflagged copy of the unspent coins shows nothing that is not visible anyway. */
  lemma CleanedClean(db: map<OutPoint, Coin>, caches: seq<Cache>, k: nat, child: Cache)
    requires 0 < k <= |caches| && IsCleaned(caches[k - 1], child)
    ensures AllClean(child, Below(db, caches, k))
  {
    forall o | o in child.coins
      ensures child.coins[o] == Entry(Visible(db, caches, k, o), false, false) && child.coins[o].coin.Unspent?
    {
      assert Lookup(child, o) == Cleaned(caches[k - 1], o);
    }
  }

  lemma HonestAbove(db: map<OutPoint, Coin>, caches: seq<Cache>, k: nat)
    requires StackOk(db, caches) && k + 1 < |caches|
    ensures Honest(caches[k], Below(db, caches, k))
    ensures Honest(caches[k + 1], Through(caches[k], Below(db, caches, k)))
    ensures Shows(caches[k + 1], Through(caches[k], Below(db, caches, k)), Below(db, caches, k + 2))
  {
    assert LevelOk(db, caches, k) && LevelOk(db, caches, k + 1);
    var top, below, view := caches[k + 1], Through(caches[k], Below(db, caches, k)), Below(db, caches, k + 2);
    forall o
      ensures Shown(top, below, o) == view(o)
    {
      assert Visible(db, caches, k + 1, o) == Shown(caches[k], Below(db, caches, k), o);
    }
  }

  lemma ViewTrans(db: map<OutPoint, Coin>, a: seq<Cache>, b: seq<Cache>, c: seq<Cache>, k: nat)
    requires k <= |a| == |b| == |c| && SameView(db, a, db, b, k) && SameView(db, b, db, c, k)
    ensures SameView(db, a, db, c, k)
  {
    forall o
      ensures Visible(db, a, k, o) == Visible(db, c, k, o)
    {
      assert Visible(db, b, k, o) == Visible(db, c, k, o);
    }
  }

  lemma ViewsTrans(db: map<OutPoint, Coin>, a: seq<Cache>, b: seq<Cache>, c: seq<Cache>)
    requires SameViews(db, a, db, b) && SameViews(db, b, db, c)
    ensures SameViews(db, a, db, c)
  {
    forall k | 0 <= k <= |a|
      ensures SameView(db, a, db, c, k)
    {
      ViewTrans(db, a, b, c, k);
    }
  }

  /** SanityCheck: only five combinations of flags and spentness; the linked entries are flagged, correctly linked,
      and as many as the flagged ones. */
  lemma Sane(db: map<OutPoint, Coin>, caches: seq<Cache>, k: nat)
    requires StackOk(db, caches) && k < |caches|
    ensures forall o :: o in caches[k].coins ==> Legal(caches[k].coins[o])
    ensures var flagged := set o | o in caches[k].coins && Flagged(caches[k].coins[o]);
            exists order :: Ring(caches[k].links, order) && |order| == |flagged| &&
                            forall o :: o in order ==> o in flagged && Intact(caches[k].links, At(o))
  {
    assert LevelOk(db, caches, k);
    var order :| LinkedAs(caches[k], order);
    assert (set o | o in order) == set o | o in caches[k].coins && Flagged(caches[k].coins[o]);
    DistinctElems(order);
    hide LinkedAs, Ring, LevelOk;
    forall o | o in order
      ensures Intact(caches[k].links, At(o))
    {
      var i :| 0 <= i < |order| && order[i] == o;
      RingIntact(caches[k].links, order, i);
    }
  }
}
