// CCoinsViewCache::BatchWrite and the cursor it is driven by (src/coins.cpp, src/coins.h).
module CoinWriting {
  import opened Options
  import opened FlagLists
  import opened Coins

  function Lookup(c: Cache, o: OutPoint): Option<Entry> {
    if o in c.coins then Some(c.coins[o]) else None
  }

  /** Only the entry for `o` may differ. */
  ghost predicate SameBut(a: Cache, b: Cache, o: OutPoint) {
    forall p {:trigger Lookup(b, p)} :: p != o ==> Lookup(a, p) == Lookup(b, p)
  }

  ghost function Shown(c: Cache, below: OutPoint -> Coin, o: OutPoint): Coin {
    if o in c.coins then c.coins[o].coin else below(o)
  }

  /** The view through `c` of what lies below it. */
  ghost function Through(c: Cache, below: OutPoint -> Coin): OutPoint -> Coin {
    o => Shown(c, below, o)
  }

  ghost predicate Shows(c: Cache, below: OutPoint -> Coin, view: OutPoint -> Coin) {
    forall o :: Shown(c, below, o) == view(o)
  }

  /** Every entry of `c` is honest about `below`. */
  ghost predicate Honest(c: Cache, below: OutPoint -> Coin) {
    Linked(c) && forall o {:trigger c.coins[o]} :: o in c.coins ==> EntryOk(c.coins[o], below(o))
  }

  /** Write one dirty entry of the child into the parent. */
  method WriteEntry(parent0: Cache, o: OutPoint, it: Entry) returns (parent: Cache, misapplied: bool)
    requires Linked(parent0) && it.isDirty
    ensures misapplied <==> WriteUp(Lookup(parent0, o), it).FreshMisapplied?
    ensures !misapplied ==>
              Linked(parent) && SameBut(parent0, parent, o)
                  && Lookup(parent, o) == WriteUp(Lookup(parent0, o), it).entry
  {
    parent, misapplied := parent0, false;
    hide Linked, LinkLast, LinksWithout;
    if o !in parent.coins {
      // Nothing to write: neither the parent nor anything below it ever showed this coin.
      if !(it.isFresh && it.coin.Spent?) {
        StoreLinked(parent, o, it.coin);
        parent := Store(parent, o, it.coin);
        AddFlagsLinked(parent, o, true, false);
        parent := AddFlags(parent, o, true, false);
        if it.isFresh {
          AddFlagsLinked(parent, o, false, true);
          parent := AddFlags(parent, o, false, true);
        }
      }
    } else {
      if it.isFresh && parent.coins[o].coin.Unspent? {
        misapplied := true;
        return;
      }
      if parent.coins[o].isFresh && it.coin.Spent? {
        EraseLinked(parent, o);
        parent := Erase(parent, o);
      } else {
        StoreLinked(parent, o, it.coin);
        parent := Store(parent, o, it.coin);
        AddFlagsLinked(parent, o, true, false);
        parent := AddFlags(parent, o, true, false);
      }
    }
  }

  /** The child with its flagged entries `rest` still to come. Unless the caller will erase it anyway,
      finished entries are clean, and gone if spent. */
  ghost predicate Iterating(child0: Cache, child: Cache, order: seq<OutPoint>, i: nat, willErase: bool)
    requires i <= |order|
  {
    if willErase then child == child0
    else
      && LinkedAs(child, order[i..])
      && forall o {:trigger Lookup(child, o)} ::
          Lookup(child, o) == if o in order[..i] then Cleaned(child0, o) else Lookup(child0, o)
  }

  function Cleaned(c: Cache, o: OutPoint): Option<Entry> {
    if o in c.coins && c.coins[o].coin.Unspent? then Some(Entry(c.coins[o].coin, false, false)) else None
  }

  ghost predicate IsCleaned(c: Cache, c': Cache) {
    forall o {:trigger Lookup(c', o)} :: Lookup(c', o) == Cleaned(c, o)
  }

  ghost function CursorAt(order: seq<OutPoint>, i: nat): Node<OutPoint> {
    if i < |order| then At(order[i]) else Sentinel
  }

  method NextAndMaybeErase(ghost child0: Cache, child: Cache, ghost order: seq<OutPoint>, ghost i: nat, o: OutPoint,
                           willErase: bool)
    returns (child': Cache, next: Node<OutPoint>)
    requires LinkedAs(child0, order) && i < |order| && order[i] == o && Iterating(child0, child, order, i, willErase)
    ensures Iterating(child0, child', order, i + 1, willErase) && next == CursorAt(order, i + 1)
  {
    NextLink(child0, child, order, i, willErase);
    next := child.links.next[At(o)];
    child' := child;
    if !willErase {
      assert o !in order[..i];
      assert Lookup(child, o) == Lookup(child0, o);
      assert order[i..][1..] == order[i + 1..];
      SetCleanLinked(child, order[i..], o);
      if child.coins[o].coin.Spent? {
        child' := Erase(child, o);
      } else {
        child' := SetClean(child, o);
      }
      forall p
        ensures Lookup(child', p) == if p in order[..i + 1] then Cleaned(child0, p) else Lookup(child0, p)
      {
        assert order[..i + 1] == order[..i] + [o];
        assert p != o ==> Lookup(child', p) == Lookup(child, p);
      }
    }
  }

  lemma NextLink(child0: Cache, child: Cache, order: seq<OutPoint>, i: nat, willErase: bool)
    requires LinkedAs(child0, order) && i < |order| && Iterating(child0, child, order, i, willErase)
    ensures At(order[i]) in child.links.next && child.links.next[At(order[i])] == CursorAt(order, i + 1)
    ensures order[i] in child0.coins && order[i] in child.coins && order[i] !in order[..i]
  {
    assert order[i] in order;
    if willErase {
      assert Joined(child.links, order, i + 1);
    } else {
      assert Joined(child.links, order[i..], 1);
      assert order[i..][0] == order[i] && order[i] in order[i..];
    }
  }

  lemma CursorStart(child: Cache, order: seq<OutPoint>)
    requires LinkedAs(child, order)
    ensures Sentinel in child.links.next && child.links.next[Sentinel] == CursorAt(order, 0)
    ensures forall willErase :: Iterating(child, child, order, 0, willErase)
  {
    assert Joined(child.links, order, 0);
    assert order[0..] == order;
  }

  // ----- a cache as the parent

  /** The parent's entry for `o` while the child's entries `done` have been written. */
  ghost predicate WrittenAt(parent0: Cache, parent: Cache, child: Cache, below: OutPoint -> Coin, done: seq<OutPoint>,
                            o: OutPoint) {
    && (o in parent.coins ==> EntryOk(parent.coins[o], below(o)))
    && (if o in done then o in child.coins && Shown(parent, below, o) == child.coins[o].coin
        else Lookup(parent, o) == Lookup(parent0, o))
  }

  ghost predicate WrittenSoFar(parent0: Cache, parent: Cache, child: Cache, below: OutPoint -> Coin,
                               done: seq<OutPoint>) {
    Linked(parent) && forall o {:trigger WrittenAt(parent0, parent, child, below, done, o)} ::
        WrittenAt(parent0, parent, child, below, done, o)
  }

  /** One more entry `o` of the child is reflected in the parent. */
  lemma WrittenStep(parent0: Cache, parent: Cache, parent': Cache, child: Cache, below: OutPoint -> Coin,
                    done: seq<OutPoint>, o: OutPoint)
    requires WrittenSoFar(parent0, parent, child, below, done) && Linked(parent') && SameBut(parent, parent', o)
    requires o in child.coins && Shown(parent', below, o) == child.coins[o].coin
    requires o in parent'.coins ==> EntryOk(parent'.coins[o], below(o))
    ensures WrittenSoFar(parent0, parent', child, below, done + [o])
  {
    forall p
      ensures WrittenAt(parent0, parent', child, below, done + [o], p)
    {
      assert WrittenAt(parent0, parent, child, below, done, p);
      assert p != o ==> Lookup(parent', p) == Lookup(parent, p);
    }
  }

  method WriteNext(ghost parent0: Cache, parent: Cache, ghost child: Cache, ghost below: OutPoint -> Coin,
                   ghost order: seq<OutPoint>, ghost i: nat, e: Entry, o: OutPoint)
    returns (parent': Cache, misapplied: bool)
    requires i < |order| && order[i] == o && o !in order[..i] && WrittenSoFar(parent0, parent, child, below, order[..i])
    requires Honest(parent0, below) && Honest(child, Through(parent0, below))
    requires o in child.coins && child.coins[o] == e && e.isDirty
    ensures !misapplied && WrittenSoFar(parent0, parent', child, below, order[..i + 1])
  {
    hide WrittenSoFar, EntryOk, WriteUp, Honest;
    WriteAllowed(parent0, parent, child, below, order, i);
    parent', misapplied := WriteEntry(parent, o, e);
    WrittenStep(parent0, parent, parent', child, below, order[..i], o);
    assert order[..i + 1] == order[..i] + [o];
  }

  /** Write the flagged entries of `child` into `parent`: with honest flags nothing is misapplied, and
      the parent then shows what the child showed. */
  method BatchWrite(parent0: Cache, child0: Cache, willErase: bool, ghost below: OutPoint -> Coin)
    returns (parent: Cache, child: Cache, misapplied: bool)
    requires Honest(parent0, below) && Honest(child0, Through(parent0, below))
    ensures !misapplied && Honest(parent, below)
    ensures Shows(parent, below, Through(child0, Through(parent0, below)))
    ensures if willErase then child == child0 else
              LinkedAs(child, []) && IsCleaned(child0, child)
  {
    parent, child, misapplied := parent0, child0, false;
    ghost var order :| LinkedAs(child0, order);
    ghost var i: nat := 0;
    CursorStart(child0, order);
    WrittenStart(parent0, child0, below);
    assert order[..0] == [];
    var it := child.links.next[Sentinel];
    while it != Sentinel
      invariant i <= |order| && it == CursorAt(order, i) && Iterating(child0, child, order, i, willErase)
      invariant WrittenSoFar(parent0, parent, child0, below, order[..i])
      decreases |order| - i
    {
      hide WrittenSoFar, Iterating, Honest, LinkedAs;
      var o := it.key;
      EntryUnchanged(child0, child, order, i, willErase);
      if child.coins[o].isDirty {
        parent, misapplied := WriteNext(parent0, parent, child0, below, order, i, child.coins[o], o);
        if misapplied {
          return;
        }
      } else {
        SkipAllowed(parent0, parent, child0, below, order, i);
      }
      child, it := NextAndMaybeErase(child0, child, order, i, o, willErase);
      i := i + 1;
    }
    assert order[..i] == order;
    WrittenEnd(parent0, parent, child0, below, order);
    CleanedEnd(child0, child, order, willErase, Through(parent0, below));
  }

  lemma WrittenStart(parent: Cache, child: Cache, below: OutPoint -> Coin)
    requires Honest(parent, below)
    ensures WrittenSoFar(parent, parent, child, below, [])
  {
  }

  lemma EntryUnchanged(child0: Cache, child: Cache, order: seq<OutPoint>, i: nat, willErase: bool)
    requires LinkedAs(child0, order) && i < |order| && Iterating(child0, child, order, i, willErase)
    ensures order[i] in child0.coins && order[i] in child.coins && child.coins[order[i]] == child0.coins[order[i]]
    ensures order[i] !in order[..i]
  {
    NextLink(child0, child, order, i, willErase);
    assert Lookup(child, order[i]) == Lookup(child0, order[i]);
  }

  lemma WriteAllowed(parent0: Cache, parent: Cache, child: Cache, below: OutPoint -> Coin, order: seq<OutPoint>, i: nat)
    requires i < |order| && order[i] !in order[..i] && WrittenSoFar(parent0, parent, child, below, order[..i])
    requires Honest(parent0, below) && Honest(child, Through(parent0, below))
    requires order[i] in child.coins && child.coins[order[i]].isDirty
    ensures var o := order[i]; var w := WriteUp(Lookup(parent, o), child.coins[o]);
            && Linked(parent) && w.Kept?
            && (w.entry.Some? ==> EntryOk(w.entry.value, below(o)) && w.entry.value.coin == child.coins[o].coin)
            && (w.entry.None? ==> child.coins[o].coin == below(o))
  {
    var o := order[i];
    assert WrittenAt(parent0, parent, child, below, order[..i], o);
    assert EntryOk(child.coins[o], Shown(parent0, below, o));
    assert o in parent0.coins ==> EntryOk(parent0.coins[o], below(o));
    WriteUpOk(Lookup(parent, o), child.coins[o], below(o));
  }

  lemma SkipAllowed(parent0: Cache, parent: Cache, child: Cache, below: OutPoint -> Coin, order: seq<OutPoint>, i: nat)
    requires i < |order| && order[i] !in order[..i] && WrittenSoFar(parent0, parent, child, below, order[..i])
    requires Honest(parent0, below) && Honest(child, Through(parent0, below))
    requires order[i] in child.coins && !child.coins[order[i]].isDirty
    ensures WrittenSoFar(parent0, parent, child, below, order[..i + 1])
  {
    var o := order[i];
    assert WrittenAt(parent0, parent, child, below, order[..i], o);
    assert EntryOk(child.coins[o], Shown(parent0, below, o));
    WrittenStep(parent0, parent, parent, child, below, order[..i], o);
    assert order[..i + 1] == order[..i] + [o];
  }

  lemma WrittenEnd(parent0: Cache, parent: Cache, child: Cache, below: OutPoint -> Coin, order: seq<OutPoint>)
    requires WrittenSoFar(parent0, parent, child, below, order) && LinkedAs(child, order)
    requires Honest(parent0, below) && Honest(child, Through(parent0, below))
    ensures Honest(parent, below)
    ensures Shows(parent, below, Through(child, Through(parent0, below)))
  {
    forall o
      ensures o in parent.coins ==> EntryOk(parent.coins[o], below(o))
      ensures Shown(parent, below, o) == Shown(child, Through(parent0, below), o)
    {
      assert WrittenAt(parent0, parent, child, below, order, o);
      if o !in order && o in child.coins {
        assert EntryOk(child.coins[o], Shown(parent0, below, o));
      }
    }
  }

  lemma CleanedEnd(child0: Cache, child: Cache, order: seq<OutPoint>, willErase: bool, below: OutPoint -> Coin)
    requires Honest(child0, below) && LinkedAs(child0, order) && Iterating(child0, child, order, |order|, willErase)
    ensures if willErase then child == child0 else
              LinkedAs(child, []) && IsCleaned(child0, child)
  {
    if !willErase {
      assert order[..|order|] == order && order[|order|..] == [];
      forall o
        ensures Lookup(child, o) == Cleaned(child0, o)
      {
        if o !in order && o in child0.coins {
          assert EntryOk(child0.coins[o], below(o));
        }
      }
    }
  }
}
