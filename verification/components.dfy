// Connected components within a subset of the graph (DepGraph::GetConnectedComponent and
// FindConnectedComponent of src/cluster_linearize.h).
module Components {
  import opened IndexSets
  import opened DepGraphs
  import opened Groups

  /** Nothing in `s` is related to anything else in `todo`. */
  ghost predicate Separate(g: Graph, todo: set<nat>, s: set<nat>) {
    s <= todo && forall a, b :: a in s && b in todo - s ==> !Related(g, a, b)
  }

  /** Everything in `s` that is not in `front` already has its relations in `s`. */
  ghost predicate Expanded(g: Graph, todo: set<nat>, s: set<nat>, front: set<nat>) {
    s <= todo && forall a :: a in s - front ==> (g.Anc(a) + g.Desc(a)) * todo <= s
  }

  lemma RelatedSets(g: Graph, a: nat, b: nat)
    requires g.Valid() && a in g.used && b in g.used
    ensures Related(g, a, b) <==> b in g.Anc(a) + g.Desc(a)
  {
    assert g.Consistent(a) && g.Consistent(b);
  }

  /** Adding positions each related to some member keeps a set connected. */
  lemma ConnectedGrow(g: Graph, s: set<nat>, t: set<nat>)
    requires Connected(g, s) && s != {} && s <= t
    requires forall x {:trigger Touches(g, s, x)} :: x in t - s ==> Touches(g, s, x)
    ensures Connected(g, t)
  {
    forall c | c <= t && c != {} && c != t
      ensures Crosses(g, t, c)
    {
      if c * s != {} && c * s != s {
        assert Crosses(g, s, c * s);
        var a, b :| a in c * s && b in s - c * s && Related(g, a, b);
        assert a in c && b in t - c;
      } else if c * s == s {
        assert t - c != {} by { assert t == (t - c) + c; }
        var x :| x in t - c;
        assert x !in s by { assert x !in c * s; }
        assert Touches(g, s, x);
        var y :| y in s && Related(g, x, y);
        assert y in c * s;
        assert y in c && x in t - c && Related(g, y, x);
      } else {
        var x :| x in c;
        assert x !in s by { assert x !in c * s; }
        assert Touches(g, s, x);
        var y :| y in s && Related(g, x, y);
        assert y !in c * s;
        assert x in c && y in t - c;
      }
    }
  }

  ghost predicate Touches(g: Graph, s: set<nat>, x: nat) {
    exists y :: y in s && Related(g, x, y)
  }

  /** `x` is an ancestor or descendant of some member of `who`. */
  ghost predicate Reached(g: Graph, who: set<nat>, x: nat) {
    exists a :: a in who && x in g.Anc(a) + g.Desc(a)
  }

  method AddRelations(g: Graph, s: set<nat>, who: set<nat>) returns (r: set<nat>)
    ensures s <= r
    ensures forall a :: a in who ==> g.Anc(a) + g.Desc(a) <= r
    ensures forall x {:trigger Reached(g, who, x)} :: x in r - s ==> Reached(g, who, x)
  {
    r := s;
    var rest := who;
    while rest != {}
      invariant rest <= who && s <= r
      invariant forall a :: a in who - rest ==> g.Anc(a) + g.Desc(a) <= r
      invariant forall x {:trigger Reached(g, who, x)} :: x in r - s ==> Reached(g, who, x)
      decreases rest
    {
      var add :| add in rest;
      rest := rest - {add};
      forall x | x in g.Desc(add) + g.Anc(add)
        ensures Reached(g, who, x)
      {
        assert x in g.Anc(add) + g.Desc(add);
      }
      r := r + g.Desc(add) + g.Anc(add);
    }
  }

  lemma ComponentConnected(g: Graph, todo: set<nat>, base: set<nat>, front: set<nat>, next: set<nat>)
    requires g.Valid() && todo <= g.used && base <= next <= todo && front <= base && base != {}
    requires Connected(g, base)
    requires forall x {:trigger Reached(g, front, x)} :: x in next - base ==> Reached(g, front, x)
    ensures Connected(g, next)
  {
    forall x | x in next - base
      ensures Touches(g, base, x)
    {
      assert Reached(g, front, x);
      var a :| a in front && x in g.Anc(a) + g.Desc(a);
      RelatedSets(g, a, x);
      assert Related(g, x, a);
    }
    ConnectedGrow(g, base, next);
  }

  /** The connected component of `todo` that contains `tx`. */
  method GetConnectedComponent(g: Graph, todo: set<nat>, tx: nat) returns (ret: set<nat>)
    requires g.Valid() && todo <= g.used && tx in todo
    ensures tx in ret && Separate(g, todo, ret) && Connected(g, ret)
  {
    var toAdd := {tx};
    ret := {};
    assert g.Consistent(tx);
    while true
      invariant toAdd != {} && toAdd <= todo && ret <= todo
      invariant ret == {} ==> toAdd == {tx}
      invariant ret != {} ==> tx in ret && toAdd <= ret && Connected(g, ret) && Expanded(g, todo, ret, toAdd)
      decreases ret == {}, todo - ret
    {
      hide Connected, Graph.Valid;
      var before, front := ret, toAdd;
      var grown := AddRelations(g, ret, toAdd);
      ret := grown * todo;
      ghost var base := if before == {} then {tx} else before;
      assert tx in g.Anc(tx);
      SingletonConnected(g, tx);
      ComponentConnected(g, todo, base, front, ret);
      toAdd := ret - before;
      assert ret - toAdd == before;
      if toAdd == {} { break; }
    }
    ExpandedSeparate(g, todo, ret);
  }

  lemma SingletonConnected(g: Graph, x: nat)
    ensures Connected(g, {x})
  {
  }

  lemma ExpandedSeparate(g: Graph, todo: set<nat>, s: set<nat>)
    requires g.Valid() && todo <= g.used && Expanded(g, todo, s, {})
    ensures Separate(g, todo, s)
  {
    forall a, b | a in s && b in todo - s
      ensures !Related(g, a, b)
    {
      RelatedSets(g, a, b);
      assert a in s - {};
    }
  }

  /** The component of the first position of `todo` (if any). */
  method FindConnectedComponent(g: Graph, todo: set<nat>) returns (ret: set<nat>)
    requires g.Valid() && todo <= g.used
    ensures Separate(g, todo, ret) && Connected(g, ret) && (todo != {} ==> ret != {})
  {
    if todo == {} {
      return todo;
    }
    ret := GetConnectedComponent(g, todo, First(todo));
  }

  /** A subset is connected exactly when its first component is all of it. */
  method IsConnected(g: Graph, subset: set<nat>) returns (b: bool)
    requires g.Valid() && subset <= g.used
    ensures b <==> Connected(g, subset)
  {
    var c := FindConnectedComponent(g, subset);
    b := c == subset;
    if !b {
      assert c != {};
      assert !Crosses(g, subset, c);
    }
  }
}
