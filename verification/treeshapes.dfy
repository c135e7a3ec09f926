// Tree-shaped dependency graphs: every transaction has at most one child, or at most one parent, once
// redundant dependencies are left out (GetReducedChildren and GetReducedParents of src/cluster_linearize.h).
module TreeShapes {
  import opened IndexSets
  import opened DepGraphs
  import opened Linearizations
  import opened Trees

  /** Being an ancestor is a partial order on the used positions. */
  ghost predicate IsOrder(h: Graph) {
    && (forall a :: a in h.used ==> a in h.Anc(a) && h.Anc(a) <= h.used)
    && (forall p, a, b :: a in h.used && b in h.used && p in h.Anc(a) && a in h.Anc(b) ==> p in h.Anc(b))
    && (forall a, b :: a in h.used && b in h.used && a in h.Anc(b) && b in h.Anc(a) ==> a == b)
  }

  /** `c` depends on `p` with nothing in between. */
  ghost predicate IsChild(h: Graph, p: nat, c: nat) {
    && p in h.used && c in h.used && p in h.Anc(c) && p != c
    && forall x :: x in h.used && p in h.Anc(x) && x in h.Anc(c) ==> x == p || x == c
  }

  ghost predicate OneChild(h: Graph) {
    forall p, a, b :: IsChild(h, p, a) && IsChild(h, p, b) ==> a == b
  }

  ghost predicate OneParent(h: Graph) {
    forall p, q, c :: IsChild(h, p, c) && IsChild(h, q, c) ==> p == q
  }

  /** What GetReducedParents returns is exactly the set of parents in this sense. */
  lemma {:induction false} ReducedParentsAre(g: Graph, i: nat, parents: set<nat>, p: nat)
    requires IsOrder(g) && i in g.used && parents <= g.Anc(i) - {i}
    requires forall a {:trigger Covered(g, parents, a)} :: a in g.Anc(i) - {i} ==> Covered(g, parents, a)
    requires forall a, b :: a in parents && b in parents && a in g.Anc(b) ==> a == b
    ensures p in parents <==> IsChild(g, p, i)
  {
    if p in parents {
      forall x | x in g.used && p in g.Anc(x) && x in g.Anc(i)
        ensures x == p || x == i
      {
        if x != i {
          assert Covered(g, parents, x);
          var q :| q in parents && x in g.Anc(q);
          assert p in g.Anc(q);
        }
      }
    }
    if IsChild(g, p, i) {
      assert Covered(g, parents, p);
      var q :| q in parents && p in g.Anc(q);
      assert q == p || q == i;
    }
  }

  lemma {:induction false} ChildToward(h: Graph, p: nat, a: nat) returns (c: nat)
    requires IsOrder(h) && p in h.used && a in h.used && p in h.Anc(a) && p != a
    ensures IsChild(h, p, c) && c in h.Anc(a)
    decreases |h.Anc(a)|
  {
    if IsChild(h, p, a) {
      c := a;
    } else {
      var x :| x in h.used && p in h.Anc(x) && x in h.Anc(a) && x != p && x != a;
      assert h.Anc(x) < h.Anc(a) by {
        assert a !in h.Anc(x);
      }
      SubsetSize(h.Anc(x), h.Anc(a));
      c := ChildToward(h, p, x);
    }
  }

  ghost function Below(h: Graph, p: nat): set<nat> {
    set x | x in h.used && p in h.Anc(x)
  }

  lemma {:induction false} DescendantsRelated(h: Graph, p: nat, a: nat, b: nat)
    requires IsOrder(h) && OneChild(h) && p in h.used && a in h.used && b in h.used && p in h.Anc(a) && p in h.Anc(b)
    ensures a in h.Anc(b) || b in h.Anc(a)
    decreases |Below(h, p)|
  {
    if p != a && p != b {
      var c := ChildToward(h, p, a);
      var d := ChildToward(h, p, b);
      assert c == d;
      assert Below(h, c) < Below(h, p) by {
        assert p in Below(h, p) && p !in Below(h, c);
      }
      SubsetSize(Below(h, c), Below(h, p));
      DescendantsRelated(h, c, a, b);
    }
  }

  /** Having at most one child each is exactly the shape a pass handles optimally. */
  lemma OneChildTreelike(h: Graph)
    requires IsOrder(h)
    ensures OneChild(h) <==> Treelike(h)
  {
    if OneChild(h) {
      forall p, a, b | a in h.used && b in h.used && p in h.Anc(a) && p in h.Anc(b)
        ensures a in h.Anc(b) || b in h.Anc(a)
      {
        DescendantsRelated(h, p, a, b);
      }
    }
    if Treelike(h) {
      forall p, a, b | IsChild(h, p, a) && IsChild(h, p, b)
        ensures a == b
      {
        assert a in h.Anc(b) || b in h.Anc(a);
      }
    }
  }

  /** A graph that has a linearization is a partial order. */
  lemma {:induction false} LinOrder(g: Graph, lin: seq<nat>)
    requires g.Valid() && IsLin(g, lin, g.used)
    ensures IsOrder(g)
  {
    UsedInRange(g);
    forall p, a, b | a in g.used && b in g.used && p in g.Anc(a) && a in g.Anc(b)
      ensures p in g.Anc(b)
    {
      assert g.Consistent(b);
    }
    forall a | a in g.used
      ensures a in g.Anc(a)
    {
      assert g.Consistent(a);
    }
    forall a, b | a in g.used && b in g.used && a in g.Anc(b) && b in g.Anc(a)
      ensures a == b
    {
      assert a in Elems(lin) && b in Elems(lin);
      var i :| 0 <= i < |lin| && lin[i] == a;
      var j :| 0 <= j < |lin| && lin[j] == b;
    }
  }
}
