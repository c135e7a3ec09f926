// FixLinearization (src/cluster_linearize.h): make an ordering topological, in place.
module FixingLinearizations {
  import opened DepGraphs
  import opened Linearizations
  import opened Sequences

  /** The place in `r` just after the last ancestor of `x`. */
  ghost function Place(g: Graph, r: seq<nat>, x: nat): (k: nat)
    ensures k <= |r|
  {
    if r == [] then 0
    else if r[|r| - 1] in g.Anc(x) then |r|
    else Place(g, r[..|r| - 1], x)
  }

  /** Each element, from the last to the first, moved back to just after its last ancestor. */
  ghost function Fixed(g: Graph, lin: seq<nat>): seq<nat> {
    if lin == [] then []
    else
      var r := Fixed(g, lin[1..]);
      var k := Place(g, r, lin[0]);
      r[..k] + [lin[0]] + r[k..]
  }

  /** Some ancestor of `x` is in `r` at position `k` or later. */
  ghost predicate HasAncestor(g: Graph, r: seq<nat>, x: nat, k: nat) {
    exists i :: k <= i < |r| && r[i] in g.Anc(x)
  }

  lemma {:induction false} PlaceIs(g: Graph, r: seq<nat>, x: nat, k: nat)
    requires k <= |r| && (forall i :: k <= i < |r| ==> r[i] !in g.Anc(x))
    requires k > 0 ==> HasAncestor(g, r, x, k - 1)
    ensures Place(g, r, x) == k && (k > 0 ==> r[k - 1] in g.Anc(x))
  {
    if k < |r| {
      var r' := r[..|r| - 1];
      if k > 0 {
        var i :| k - 1 <= i < |r| && r[i] in g.Anc(x);
        assert r'[i] == r[i];
      }
      PlaceIs(g, r', x, k);
    }
  }

  lemma {:induction false} PlaceExists(g: Graph, r: seq<nat>, x: nat)
    ensures var k := Place(g, r, x);
            && (forall i :: k <= i < |r| ==> r[i] !in g.Anc(x))
            && (k > 0 ==> r[k - 1] in g.Anc(x))
  {
    if r != [] && r[|r| - 1] !in g.Anc(x) {
      PlaceExists(g, r[..|r| - 1], x);
    }
  }

  /** Placing an element after its last ancestor keeps an ordering topological. */
  lemma PlacedTopological(g: Graph, r: seq<nat>, x: nat)
    requires g.Valid() && g.Acyclic() && x in g.used && Elems(r) <= g.used - {x} && Topological(g, r)
    ensures var k := Place(g, r, x); Topological(g, r[..k] + [x] + r[k..])
  {
    var k := Place(g, r, x);
    PlaceExists(g, r, x);
    var a, b := r[..k], r[k..];
    assert r == a + b;
    TopologicalConcat(g, a, b);
    forall y | y in a
      ensures x !in g.Anc(y)
    {
      var i :| 0 <= i < k && r[i] == y;
      var z := r[k - 1];
      assert y in Elems(r) && z in Elems(r);
      assert g.Consistent(x) && g.Consistent(y);
      assert x in g.Anc(y) ==> z in g.Anc(y);
      if i < k - 1 {
        assert z !in g.Anc(y);
      }
    }
    TopologicalConcat(g, a, [x]);
    TopologicalConcat(g, a + [x], b);
  }

  /** The result is a topological reordering of the input, ... */
  lemma {:induction false} FixedIsLin(g: Graph, lin: seq<nat>)
    requires g.Valid() && g.Acyclic() && Distinct(lin) && Elems(lin) <= g.used
    ensures |Fixed(g, lin)| == |lin| && IsLin(g, Fixed(g, lin), Elems(lin))
  {
    if lin != [] {
      var x, r := lin[0], Fixed(g, lin[1..]);
      assert lin == [x] + lin[1..];
      ElemsConcat([x], lin[1..]);
      FixedIsLin(g, lin[1..]);
      assert Elems([x]) == {x} && x !in Elems(r);
      PlacedTopological(g, r, x);
      Inserted(r, Place(g, r, x), x);
    }
  }

  lemma Inserted(r: seq<nat>, k: nat, x: nat)
    requires Distinct(r) && x !in Elems(r) && k <= |r|
    ensures Distinct(r[..k] + [x] + r[k..]) && Elems(r[..k] + [x] + r[k..]) == Elems(r) + {x}
  {
    assert Elems([x]) == {x} && Distinct([x]);
    hide Distinct, Elems;
    assert r == r[..k] + r[k..];
    ElemsConcat(r[..k], r[k..]);
    ElemsConcat(r[..k], [x]);
    ElemsConcat(r[..k] + [x], r[k..]);
  }

  /** ... and the input itself exactly when that was topological already. */
  lemma {:induction false} FixedUnchanged(g: Graph, lin: seq<nat>)
    requires Topological(g, lin)
    ensures Fixed(g, lin) == lin
  {
    if lin != [] {
      var x, t := lin[0], lin[1..];
      assert lin == [x] + t;
      TopologicalConcat(g, [x], t);
      FixedUnchanged(g, t);
      forall i | 0 <= i < |t|
        ensures t[i] !in g.Anc(x)
      {
        assert x in [x] && t[i] in t;
      }
      PlaceIs(g, t, x, 0);
    }
  }

  lemma InTail(g: Graph, r: seq<nat>, x: nat, m: nat, y: nat)
    requires m <= |r| && y in Elems(r[m..]) && y in g.Anc(x)
    ensures m < |r| && HasAncestor(g, r, x, m)
  {
    var j :| 0 <= j < |r| - m && r[m..][j] == y;
    assert r[m + j] == y;
  }

  lemma TailHas(r: seq<nat>, m: nat, i: nat)
    requires m <= i < |r|
    ensures r[i] in Elems(r[m..])
  {
    assert r[m..][i - m] == r[i];
  }

  lemma TailElems(r: seq<nat>, m: nat)
    requires m < |r| && Distinct(r)
    ensures Elems(r[m..]) - {r[m]} == Elems(r[m + 1..])
  {
    assert r[m..] == [r[m]] + r[m + 1..];
    assert r == r[..m] + r[m..];
    ElemsConcat(r[..m], r[m..]);
    ElemsConcat([r[m]], r[m + 1..]);
    assert Elems([r[m]]) == {r[m]};
  }

  /** `pre`, then `r` with `hole` in front of its position `m`. */
  ghost function Around(pre: seq<nat>, r: seq<nat>, m: nat, hole: nat): seq<nat>
    requires m <= |r|
  {
    pre + r[..m] + [hole] + r[m..]
  }

  lemma TailRest(g: Graph, r: seq<nat>, x: nat, m: nat)
    requires m < |r| && Distinct(r)
    ensures Elems(r[m..]) * g.Anc(x) - {r[m]} == Elems(r[m + 1..]) * g.Anc(x)
  {
    TailElems(r, m);
    hide Elems, Distinct;
  }

  lemma Shift(pre: seq<nat>, r: seq<nat>, m: nat, hole: nat)
    requires m < |r|
    ensures var s := Around(pre, r, m, hole);
            && |s| == |pre| + 1 + |r| && s[|pre| + m + 1] == r[m]
            && s[|pre| + m := r[m]] == Around(pre, r, m + 1, r[m])
  {
  }

  lemma Fill(pre: seq<nat>, r: seq<nat>, m: nat, hole: nat, x: nat)
    requires m <= |r|
    ensures var s := Around(pre, r, m, hole);
            |s| == |pre| + 1 + |r| && s[|pre| + m := x] == Around(pre, r, m, x)
  {
  }

  /** Move the element at position `p` back behind its ancestors in `r`, the ordering that follows it. */
  method MoveBack(g: Graph, a: array<nat>, p: nat, done: set<nat>, ghost pre: seq<nat>, ghost r: seq<nat>)
    requires p == |pre| < a.Length && a[..] == Around(pre, r, 0, a[p]) && Distinct(r) && done == Elems(r)
    modifies a
    ensures a[..] == Around(pre, r, Place(g, r, old(a[p])), old(a[p]))
  {
    var elem := a[p];
    ghost var hole := elem;
    var m := 0;
    var placeBefore := done * g.Anc(elem);
    assert r[0..] == r;
    hide Distinct, Elems, Place, HasAncestor, Around;
    while placeBefore != {}
      invariant 0 <= m <= |r| && a[..] == Around(pre, r, m, hole)
      invariant placeBefore == Elems(r[m..]) * g.Anc(elem)
      invariant m > 0 ==> HasAncestor(g, r, elem, m - 1)
      decreases |r| - m
    {
      ghost var y :| y in placeBefore;
      InTail(g, r, elem, m, y);
      TailRest(g, r, elem, m);
      Shift(pre, r, m, hole);
      assert a[..][p + m + 1] == r[m];
      var toSwap := a[p + 1 + m];
      placeBefore := placeBefore - {toSwap};
      a[p + m] := toSwap;
      m, hole := m + 1, toSwap;
    }
    Fill(pre, r, m, hole, elem);
    a[p + m] := elem;
    forall i | m <= i < |r|
      ensures r[i] !in g.Anc(elem)
    {
      TailHas(r, m, i);
      assert r[i] !in placeBefore;
    }
    PlaceIs(g, r, elem, m);
  }

  /** Make a linearization topological; it is left alone when it is topological already. */
  method FixLinearization(g: Graph, linearization: array<nat>)
    requires g.Valid() && g.Acyclic()
    requires Distinct(linearization[..]) && Elems(linearization[..]) <= g.used
    modifies linearization
    ensures linearization[..] == Fixed(g, old(linearization[..]))
    ensures IsLin(g, linearization[..], Elems(old(linearization[..])))
    ensures linearization[..] == old(linearization[..]) <==> Topological(g, old(linearization[..]))
  {
    ghost var lin := linearization[..];
    var len := linearization.Length;
    var done: set<nat> := {};
    var i := 0;
    assert lin == lin[..len] + Fixed(g, lin[len..]);
    while i < len
      invariant 0 <= i <= len && linearization[..] == lin[..len - i] + Fixed(g, lin[len - i..])
      invariant done == Elems(lin[len - i..])
    {
      hide Distinct, Elems, Place, Around, Fixed, Topological;
      ghost var p := len - 1 - i;
      ghost var r := Fixed(g, lin[p + 1..]);
      SuffixFixed(g, lin, p);
      assert linearization[..][p] == lin[p];
      var elem := linearization[len - 1 - i];
      MoveBack(g, linearization, len - 1 - i, done, lin[..p], r);
      done := done + {elem};
      i := i + 1;
    }
    assert lin[0..] == lin;
    assert linearization[..] == Fixed(g, lin);
    FixedIsLin(g, lin);
    if Topological(g, lin) {
      FixedUnchanged(g, lin);
    }
  }

  lemma SuffixFixed(g: Graph, lin: seq<nat>, p: nat)
    requires g.Valid() && g.Acyclic() && Distinct(lin) && Elems(lin) <= g.used && p < |lin|
    ensures Distinct(Fixed(g, lin[p + 1..])) && Elems(Fixed(g, lin[p + 1..])) == Elems(lin[p + 1..])
    ensures Elems(lin[p..]) == Elems(lin[p + 1..]) + {lin[p]}
    ensures var r := Fixed(g, lin[p + 1..]);
            && lin[..p + 1] + r == Around(lin[..p], r, 0, lin[p])
            && (lin[..p + 1] + r)[p] == lin[p]
            && Around(lin[..p], r, Place(g, r, lin[p]), lin[p]) == lin[..p] + Fixed(g, lin[p..])
  {
    hide Fixed, Place, Around, Elems, Distinct, Graph.Valid, Graph.Acyclic;
    SuffixElems(lin, p);
    SuffixPlaced(g, lin, p);
    FixedIsLin(g, lin[p + 1..]);
  }

  lemma {:induction false} SuffixElems(lin: seq<nat>, p: nat)
    requires Distinct(lin) && p < |lin|
    ensures Distinct(lin[p + 1..]) && Elems(lin[p + 1..]) <= Elems(lin)
    ensures Elems(lin[p..]) == Elems(lin[p + 1..]) + {lin[p]}
  {
    var a, b := lin[..p + 1], lin[p + 1..];
    assert lin == a + b;
    ElemsConcat(a, b);
    assert lin[p..] == [lin[p]] + b;
    ElemsConcat([lin[p]], b);
    assert Elems([lin[p]]) == {lin[p]};
  }

  lemma SuffixPlaced(g: Graph, lin: seq<nat>, p: nat)
    requires p < |lin|
    ensures var r := Fixed(g, lin[p + 1..]);
            && lin[..p + 1] + r == Around(lin[..p], r, 0, lin[p])
            && Around(lin[..p], r, Place(g, r, lin[p]), lin[p]) == lin[..p] + Fixed(g, lin[p..])
  {
    var r := Fixed(g, lin[p + 1..]);
    assert lin[p..][1..] == lin[p + 1..];
    assert lin[..p + 1] == lin[..p] + [lin[p]];
    var k := Place(g, r, lin[p]);
    assert Fixed(g, lin[p..]) == r[..k] + [lin[p]] + r[k..];
    hide Fixed, Place;
  }
}
