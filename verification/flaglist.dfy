// The circular doubly linked list of flagged cache entries (struct CCoinsCacheEntry of src/coins.h).
module FlagLists {
  import opened Sequences

  /** The head of the ring, or a linked entry. */
  datatype Node<T> = Sentinel | At(key: T)

  datatype Links<!T(==)> = Links(next: map<Node<T>, Node<T>>, prev: map<Node<T>, Node<T>>)

  /** Position `i` of the ring for `order`: the sentinel closes it on both ends. */
  ghost function Nth<T>(order: seq<T>, i: int): Node<T> {
    if 0 < i <= |order| then At(order[i - 1]) else Sentinel
  }

  /** The step from position `i` to the one after it, in both directions. */
  ghost predicate Joined<T(!new)>(l: Links<T>, order: seq<T>, i: nat) {
    var a, b := Nth(order, i), Nth(order, i + 1);
    a in l.next && b in l.prev && l.next[a] == b && l.prev[b] == a
  }

  /** The links run through `order` from the sentinel back to itself. */
  ghost predicate Ring<T(!new)>(l: Links<T>, order: seq<T>) {
    && Distinct(order)
    && (forall x :: At(x) in l.next <==> x in order)
    && (forall x :: At(x) in l.prev <==> x in order)
    && forall i {:trigger Joined(l, order, i)} :: 0 <= i <= |order| ==> Joined(l, order, i)
  }

  /** Each node's neighbours point back at it. */
  ghost predicate Intact<T>(l: Links<T>, x: Node<T>) {
    && x in l.next && l.next[x] in l.prev && l.prev[l.next[x]] == x
    && x in l.prev && l.prev[x] in l.next && l.next[l.prev[x]] == x
  }

  lemma RingIntact<T(!new)>(l: Links<T>, order: seq<T>, i: nat)
    requires Ring(l, order) && i < |order|
    ensures Intact(l, At(order[i]))
  {
    assert Joined(l, order, i) && Joined(l, order, i + 1);
  }

  /** A ring of the sentinel alone. */
  function SelfRef<T>(): Links<T> {
    Links(map[Sentinel := Sentinel], map[Sentinel := Sentinel])
  }

  /** Link an unlinked entry in front of the sentinel. */
  function LinkLast<T>(l: Links<T>, x: T): Links<T>
    requires Sentinel in l.prev
  {
    var p := l.prev[Sentinel];
    Links(l.next[At(x) := Sentinel][p := At(x)], l.prev[At(x) := p][Sentinel := At(x)])
  }

  /** Join the neighbours of an entry and drop its own links. */
  function Unlink<T>(l: Links<T>, x: T): Links<T>
    requires At(x) in l.next && At(x) in l.prev
  {
    var n, p := l.next[At(x)], l.prev[At(x)];
    Links(l.next[p := n] - {At(x)}, l.prev[n := p] - {At(x)})
  }

  lemma SelfRefRing<T(!new)>()
    ensures Ring(SelfRef<T>(), [])
  {
    forall i | 0 <= i <= 0
      ensures Joined(SelfRef<T>(), [], i)
    {
    }
  }

  lemma LinkLastRing<T(!new)>(l: Links<T>, order: seq<T>, x: T)
    requires Ring(l, order) && x !in order
    ensures Sentinel in l.prev && Ring(LinkLast(l, x), order + [x])
  {
    var n, order' := |order|, order + [x];
    assert Joined(l, order, n);
    var l' := LinkLast(l, x);
    forall i | 0 <= i <= n + 1
      ensures Joined(l', order', i)
    {
      if i < n {
        assert Joined(l, order, i);
        assert Nth(order', i) == Nth(order, i) && Nth(order', i + 1) == Nth(order, i + 1);
        assert Nth(order, i) != Nth(order, n);
      }
    }
  }

  lemma {:induction false} RemovedOnce<T>(a: seq<T>, x: T, b: seq<T>)
    requires Distinct(a + [x] + b)
    ensures Distinct(a + b) && forall y :: y in a + b <==> y in a + [x] + b && y != x
  {
    var order, order', k := a + [x] + b, a + b, |a|;
    assert order[k] == x;
    forall y
      ensures y in order' <==> y in order && y != x
    {
      if y in order' {
        var j :| 0 <= j < |order'| && order'[j] == y;
        var j' := if j < k then j else j + 1;
        assert order[j'] == y;
      }
    }
    forall i, j | 0 <= i < j < |order'|
      ensures order'[i] != order'[j]
    {
      var i', j' := if i < k then i else i + 1, if j < k then j else j + 1;
      assert order[i'] != order[j'];
    }
  }

  lemma {:induction false} UnlinkRing<T(!new)>(l: Links<T>, a: seq<T>, x: T, b: seq<T>)
    requires Ring(l, a + [x] + b)
    ensures At(x) in l.next && At(x) in l.prev && Ring(Unlink(l, x), a + b)
  {
    var order, order', k := a + [x] + b, a + b, |a|;
    assert Joined(l, order, k) && Joined(l, order, k + 1);
    assert order[k] == x && Nth(order, k + 1) == At(x);
    var l' := Unlink(l, x);
    RemovedOnce(a, x, b);
    forall i | 0 <= i <= |order'|
      ensures Joined(l', order', i)
    {
      var i' := if i <= k then i else i + 1;
      assert Joined(l, order, if i < k then i else i + 1);
      assert Nth(order', i) == Nth(order, i');
      assert Nth(order', i + 1) == Nth(order, if i < k then i + 1 else i + 2);
    }
  }
}
