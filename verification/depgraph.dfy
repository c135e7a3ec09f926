// The preprocessed transaction graph (class DepGraph of src/cluster_linearize.h).
module DepGraphs {
  import opened FeeFracs
  import opened IndexSets

  datatype Entry = Entry(feerate: FeeFrac, ancestors: set<nat>, descendants: set<nat>)

  /** The value of a dependency graph. Positions outside `used` are holes whose entry is stale. */
  datatype Graph = Graph(entries: seq<Entry>, used: set<nat>) {
    function Rate(i: nat): FeeFrac { if i < |entries| then entries[i].feerate else EMPTY }
    function Anc(i: nat): set<nat> { if i < |entries| then entries[i].ancestors else {} }
    function Desc(i: nat): set<nat> { if i < |entries| then entries[i].descendants else {} }

    /** Position `i`: its ancestor set is reflexive, within the used positions and transitively
        closed, and the descendant sets are its exact converse. */
    ghost predicate Consistent(i: nat) {
      && i < |entries| && i in Anc(i) && Anc(i) <= used && Desc(i) <= used
      && (forall j :: j in Anc(i) ==> Anc(j) <= Anc(i))
      && (forall j :: j in used ==> (j in Anc(i) <==> i in Desc(j)))
      && (forall j :: j in used ==> (j in Desc(i) <==> i in Anc(j)))
    }

    ghost predicate Valid() {
      forall i {:trigger Consistent(i)} :: i in used ==> Consistent(i)
    }

    ghost predicate Acyclic() {
      forall i, j :: i in used && j in used && j in Anc(i) && i in Anc(j) ==> i == j
    }

    ghost predicate PositiveSizes() {
      forall i :: i in used ==> Rate(i).size > 0
    }

    /** All ancestors of any member of `s`. */
    ghost function AncUnion(s: set<nat>): set<nat> {
      set p, a | p in s && a in Anc(p) :: a
    }
  }

  /** A relation that contains every ancestor pair of `g`, is transitive on its positions, and
      makes every member of `parents` an ancestor of `child`. */
  ghost predicate Contains(g: Graph, rel: set<(nat, nat)>, parents: set<nat>, child: nat) {
    && (forall i, a :: i in g.used && a in g.Anc(i) ==> (a, i) in rel)
    && (forall p :: p in parents ==> (p, child) in rel)
    && (forall a, b, c :: (a, b) in rel && (b, c) in rel ==> (a, c) in rel)
  }

  /** `h` is `g` with the dependencies `parents -> child` added. */
  ghost predicate DependenciesAdded(g: Graph, h: Graph, parents: set<nat>, child: nat) {
    && h.used == g.used && |h.entries| == |g.entries|
    && (forall x :: x in g.used ==> h.Rate(x) == g.Rate(x))
    && (forall x :: x in g.used ==>
          h.Anc(x) == if child in g.Anc(x) then g.Anc(x) + g.AncUnion(parents) else g.Anc(x))
    && (forall x :: x in g.used ==>
          h.Desc(x) == if x in g.AncUnion(parents) then g.Desc(x) + g.Desc(child) else g.Desc(x))
  }

  lemma UsedInRange(g: Graph)
    requires g.Valid()
    ensures forall i :: i in g.used ==> i < |g.entries| && g.Anc(i) <= g.used && g.Desc(i) <= g.used
  {
    forall i | i in g.used
      ensures i < |g.entries| && g.Anc(i) <= g.used && g.Desc(i) <= g.used
    {
      assert g.Consistent(i);
    }
  }

  lemma AncUnionBounds(g: Graph, s: set<nat>)
    requires g.Valid() && s <= g.used
    ensures s <= g.AncUnion(s) <= g.used
  {
    forall p | p in s
      ensures p in g.AncUnion(s) && g.Anc(p) <= g.used
    {
      assert g.Consistent(p);
    }
  }

  lemma AncUnionClosed(g: Graph, s: set<nat>)
    requires g.Valid() && s <= g.used
    ensures s <= g.AncUnion(s) <= g.used
    ensures forall x, y :: x in g.AncUnion(s) && y in g.Anc(x) ==> y in g.AncUnion(s)
  {
    AncUnionBounds(g, s);
    forall x, y | x in g.AncUnion(s) && y in g.Anc(x)
      ensures y in g.AncUnion(s)
    {
      var p :| p in s && x in g.Anc(p);
      assert g.Consistent(p);
    }
  }

  lemma AddedTransitive(g: Graph, h: Graph, parents: set<nat>, child: nat, i: nat)
    requires g.Valid() && child in g.used && parents <= g.used
    requires DependenciesAdded(g, h, parents, child)
    requires i in g.used
    ensures forall j :: j in h.Anc(i) ==> h.Anc(j) <= h.Anc(i)
  {
    AncUnionClosed(g, parents);
    assert g.Consistent(i) && g.Consistent(child);
    forall j | j in h.Anc(i)
      ensures h.Anc(j) <= h.Anc(i)
    {
      assert g.Consistent(j);
    }
  }

  lemma AddedConsistent(g: Graph, h: Graph, parents: set<nat>, child: nat, i: nat)
    requires g.Valid() && child in g.used && parents <= g.used
    requires DependenciesAdded(g, h, parents, child)
    requires i in g.used
    ensures h.Consistent(i)
  {
    AddedTransitive(g, h, parents, child, i);
    AncUnionBounds(g, parents);
    assert g.Consistent(i) && g.Consistent(child);
    forall j | j in g.used
      ensures j in h.Anc(i) <==> i in h.Desc(j)
      ensures j in h.Desc(i) <==> i in h.Anc(j)
    {
      assert g.Consistent(j);
    }
  }

  /** The result of AddDependencies is again closed. */
  lemma DependenciesAddedValid(g: Graph, h: Graph, parents: set<nat>, child: nat)
    requires g.Valid() && child in g.used && parents <= g.used
    requires DependenciesAdded(g, h, parents, child)
    ensures h.Valid()
    ensures parents <= h.Anc(child)
  {
    forall i | i in g.used
      ensures h.Consistent(i)
    {
      AddedConsistent(g, h, parents, child, i);
    }
    AncUnionClosed(g, parents);
    assert g.Consistent(child);
  }

  /** ... and it is the least transitive relation that extends the old one with the new pairs. */
  lemma DependenciesAddedLeast(g: Graph, h: Graph, parents: set<nat>, child: nat, rel: set<(nat, nat)>, i: nat, a: nat)
    requires g.Valid() && child in g.used && parents <= g.used
    requires DependenciesAdded(g, h, parents, child)
    requires Contains(g, rel, parents, child)
    requires i in h.used && a in h.Anc(i)
    ensures (a, i) in rel
  {
    if a !in g.Anc(i) {
      var p :| p in parents && a in g.Anc(p);
      assert (a, p) in rel && (p, child) in rel && (child, i) in rel;
      assert (a, child) in rel;
    }
  }

  /** What the two update loops of AddDependencies leave behind. */
  ghost predicate LoopsDone(g: Graph, h: Graph, child: nat, parAnc: set<nat>) {
    && |h.entries| == |g.entries| && h.used == g.used
    && forall x :: 0 <= x < |h.entries| ==>
         && h.entries[x].feerate == g.entries[x].feerate
         && h.entries[x].descendants ==
            (if x in parAnc then g.entries[x].descendants + g.Desc(child) else g.entries[x].descendants)
         && h.entries[x].ancestors ==
            (if x in g.Desc(child) then g.entries[x].ancestors + parAnc else g.entries[x].ancestors)
  }

  lemma LoopsNone(g: Graph, child: nat)
    ensures LoopsDone(g, g, child, {})
  {
  }

  lemma LoopsDoneAdded(g: Graph, h: Graph, parents: set<nat>, child: nat, parAnc: set<nat>)
    requires g.Valid() && child in g.used && parents <= g.used
    requires parAnc == g.AncUnion(parents) - g.Anc(child)
    requires LoopsDone(g, h, child, parAnc)
    ensures DependenciesAdded(g, h, parents, child)
  {
    assert g.Consistent(child);
    forall x | x in g.used
      ensures h.Rate(x) == g.Rate(x)
      ensures h.Anc(x) == if child in g.Anc(x) then g.Anc(x) + g.AncUnion(parents) else g.Anc(x)
      ensures h.Desc(x) == if x in g.AncUnion(parents) then g.Desc(x) + g.Desc(child) else g.Desc(x)
    {
      assert g.Consistent(x);
      if x in g.Anc(child) {
        forall y | y in g.Desc(child)
          ensures y in g.Desc(x)
        {
          assert g.Consistent(y);
        }
      }
    }
  }

  lemma NewAncestors(g: Graph, parents: set<nat>, child: nat)
    requires g.Valid() && child in g.used && parents <= g.used
    ensures g.AncUnion(parents - g.Anc(child)) - g.Anc(child) == g.AncUnion(parents) - g.Anc(child)
  {
    assert g.Consistent(child);
    forall a | a in g.AncUnion(parents) - g.Anc(child)
      ensures a in g.AncUnion(parents - g.Anc(child))
    {
      var p :| p in parents && a in g.Anc(p);
      assert p !in g.Anc(child);
    }
  }

  // ----- reduced parents

  lemma {:induction false} GainedAncestors(g: Graph, parents: set<nat>, child: nat)
    requires g.Valid() && child in g.used && parents <= g.used
    ensures child < |g.entries| && g.Anc(child) == g.entries[child].ancestors
    ensures var gained := g.AncUnion(parents - g.Anc(child)) - g.Anc(child);
            gained == g.AncUnion(parents) - g.Anc(child) && gained <= g.used && child !in gained
  {
    UsedInRange(g);
    NewAncestors(g, parents, child);
    AncUnionClosed(g, parents);
    assert g.Consistent(child);
    hide Graph.Valid, Graph.AncUnion;
  }

  ghost predicate Covered(g: Graph, parents: set<nat>, a: nat) {
    exists p :: p in parents && a in g.Anc(p)
  }

  /** `parents` generate all proper ancestors of `i`, and those already visited (not in `rest`)
      are not below any other. */
  ghost predicate Reducing(g: Graph, i: nat, parents: set<nat>, rest: set<nat>) {
    && parents <= g.Anc(i) - {i}
    && (forall a {:trigger Covered(g, parents, a)} :: a in g.Anc(i) - {i} ==> Covered(g, parents, a))
    && (forall p, q :: p in parents && q in parents - rest && p in g.Anc(q) ==> p == q)
  }

  /** The minimal parents of `i`: pairwise unrelated, and with `i` itself they generate all its
      ancestors. */
  method GetReducedParents(g: Graph, i: nat) returns (parents: set<nat>)
    requires g.Valid() && i in g.used
    ensures parents <= g.Anc(i) - {i}
    ensures forall a {:trigger Covered(g, parents, a)} :: a in g.Anc(i) - {i} ==> Covered(g, parents, a)
    ensures forall p, q :: p in parents && q in parents && p in g.Anc(q) ==> p == q
  {
    parents := g.Anc(i) - {i};
    var rest := parents;
    ReducingStart(g, i);
    while rest != {}
      invariant rest <= g.Anc(i) - {i}
      invariant Reducing(g, i, parents, rest)
      decreases rest
    {
      hide Reducing, Graph.Valid;
      var parent := First(rest);
      ReducingStep(g, i, parents, rest, parent);
      rest := rest - {parent};
      if parent in parents {
        parents := parents - g.Anc(parent) + {parent};
      }
    }
  }

  lemma ReducingStart(g: Graph, i: nat)
    requires g.Valid() && i in g.used
    ensures Reducing(g, i, g.Anc(i) - {i}, g.Anc(i) - {i})
  {
    assert g.Consistent(i);
    forall a | a in g.Anc(i) - {i}
      ensures Covered(g, g.Anc(i) - {i}, a)
    {
      assert g.Consistent(a);
    }
  }

  lemma ReducingStep(g: Graph, i: nat, parents: set<nat>, rest: set<nat>, q: nat)
    requires g.Valid() && i in g.used && q in rest && rest <= g.Anc(i) - {i}
    requires Reducing(g, i, parents, rest)
    ensures q !in parents ==> Reducing(g, i, parents, rest - {q})
    ensures q in parents ==> Reducing(g, i, parents - g.Anc(q) + {q}, rest - {q})
  {
    if q in parents {
      var next := parents - g.Anc(q) + {q};
      assert g.Consistent(i);
      assert g.Consistent(q);
      forall a | a in g.Anc(i) - {i}
        ensures Covered(g, next, a)
      {
        assert Covered(g, parents, a);
        var p :| p in parents && a in g.Anc(p);
        var p' := if p in g.Anc(q) then q else p;
        assert p' in next && a in g.Anc(p');
      }
    }
  }

  // ----- remapping

  /** `mapping` sends the used positions of `g` one-to-one into [0, range). */
  ghost predicate IsMapping(g: Graph, mapping: seq<nat>, range: nat) {
    && |mapping| == |g.entries|
    && (forall i :: i in g.used ==> i < |mapping| && mapping[i] < range)
    && (forall i, j :: i in g.used && j in g.used && mapping[i] == mapping[j] ==> i == j)
  }

  ghost function Image(mapping: seq<nat>, s: set<nat>): set<nat>
    requires forall i :: i in s ==> i < |mapping|
  {
    set i | i in s :: mapping[i]
  }

  /** Position `i` of `g` is position `mapping[i]` of `h`, with the same data. */
  ghost predicate RenamedAt(g: Graph, h: Graph, mapping: seq<nat>, i: nat) {
    && i < |mapping| && g.Anc(i) <= g.used && g.Desc(i) <= g.used
    && (forall j :: j in g.used ==> j < |mapping|)
    && h.Rate(mapping[i]) == g.Rate(i)
    && h.Anc(mapping[i]) == Image(mapping, g.Anc(i))
    && h.Desc(mapping[i]) == Image(mapping, g.Desc(i))
  }

  /** `h` is `g` with every position `i` renamed to `mapping[i]`. */
  ghost predicate Renamed(g: Graph, h: Graph, mapping: seq<nat>) {
    && (forall i :: i in g.used ==> i < |mapping|)
    && h.used == Image(mapping, g.used)
    && forall i {:trigger RenamedAt(g, h, mapping, i)} :: i in g.used ==> RenamedAt(g, h, mapping, i)
  }

  /** While remapping: nothing at `mapping[i]` that does not belong there. */
  ghost predicate SoundAt(g: Graph, h: Graph, mapping: seq<nat>, i: nat) {
    && i < |mapping| && g.Anc(i) <= g.used
    && (forall j :: j in g.used ==> j < |mapping|)
    && h.Rate(mapping[i]) == g.Rate(i)
    && h.Anc(mapping[i]) <= Image(mapping, g.Anc(i))
  }

  /** `a` is reached from `i` through a proper ancestor already linked in `h`. */
  ghost predicate Via(g: Graph, h: Graph, mapping: seq<nat>, i: nat, a: nat) {
    i < |mapping| && exists p ::
        p in g.Anc(i) - {i} && a in g.Anc(p) && p < |mapping| && mapping[p] in h.Anc(mapping[i])
  }

  ghost predicate LinkedAt(g: Graph, h: Graph, mapping: seq<nat>, i: nat) {
    forall a {:trigger Via(g, h, mapping, i, a)} :: a in g.Anc(i) - {i} ==> Via(g, h, mapping, i, a)
  }

  ghost predicate Building(g: Graph, h: Graph, mapping: seq<nat>, rest: set<nat>) {
    && (forall i :: i in g.used ==> i < |mapping|)
    && h.used == Image(mapping, g.used)
    && (forall i {:trigger SoundAt(g, h, mapping, i)} :: i in g.used ==> SoundAt(g, h, mapping, i))
    && (forall i {:trigger LinkedAt(g, h, mapping, i)} :: i in g.used - rest ==> LinkedAt(g, h, mapping, i))
  }

  /** Adding the mapped reduced parents of `c` keeps the remapping sound and links `c`. */
  lemma BuildingStep(g: Graph, h: Graph, h': Graph, mapping: seq<nat>, range: nat, rest: set<nat>, c: nat,
                     parents: set<nat>)
    requires g.Valid() && h.Valid() && IsMapping(g, mapping, range) && c in rest && rest <= g.used
    requires Building(g, h, mapping, rest)
    requires parents <= g.Anc(c) - {c}
    requires forall a {:trigger Covered(g, parents, a)} :: a in g.Anc(c) - {c} ==> Covered(g, parents, a)
    requires g.Anc(c) <= g.used
    requires DependenciesAdded(h, h', Image(mapping, parents), mapping[c])
    requires Image(mapping, parents) <= h'.Anc(mapping[c])
    ensures Building(g, h', mapping, rest - {c})
  {
    forall i | i in g.used
      ensures SoundAt(g, h', mapping, i)
    {
      SoundStep(g, h, h', mapping, range, c, parents, i);
    }
    forall i | i in g.used - (rest - {c})
      ensures LinkedAt(g, h', mapping, i)
    {
      forall a | a in g.Anc(i) - {i}
        ensures Via(g, h', mapping, i, a)
      {
        if i == c {
          assert Covered(g, parents, a);
          var p :| p in parents && a in g.Anc(p);
          assert mapping[p] in Image(mapping, parents);
        } else {
          assert LinkedAt(g, h, mapping, i);
          assert Via(g, h, mapping, i, a);
          var p :| p in g.Anc(i) - {i} && a in g.Anc(p) && p < |mapping| && mapping[p] in h.Anc(mapping[i]);
          assert mapping[i] in h.used;
          assert mapping[p] in h'.Anc(mapping[i]);
        }
      }
    }
  }

  lemma SoundStep(g: Graph, h: Graph, h': Graph, mapping: seq<nat>, range: nat, c: nat, parents: set<nat>, i: nat)
    requires g.Valid() && IsMapping(g, mapping, range) && c in g.used && i in g.used
    requires forall i {:trigger SoundAt(g, h, mapping, i)} :: i in g.used ==> SoundAt(g, h, mapping, i)
    requires parents <= g.Anc(c) && g.Anc(c) <= g.used && h.used == Image(mapping, g.used)
    requires DependenciesAdded(h, h', Image(mapping, parents), mapping[c])
    ensures SoundAt(g, h', mapping, i)
  {
    assert SoundAt(g, h, mapping, i) && g.Consistent(i) && g.Consistent(c);
    assert mapping[i] in h.used;
    if mapping[c] in h.Anc(mapping[i]) {
      assert c in g.Anc(i);
      forall x | x in h.AncUnion(Image(mapping, parents))
        ensures x in Image(mapping, g.Anc(i))
      {
        var q :| q in Image(mapping, parents) && x in h.Anc(q);
        var p :| p in parents && mapping[p] == q;
        assert SoundAt(g, h, mapping, p);
        assert g.Anc(p) <= g.Anc(c) <= g.Anc(i);
      }
    }
  }

  /** Once every position is linked, every ancestor is there: induction along the ancestors. */
  lemma {:induction false} BuildingComplete(g: Graph, h: Graph, mapping: seq<nat>, range: nat, i: nat, a: nat)
    requires g.Valid() && g.Acyclic() && h.Valid() && IsMapping(g, mapping, range)
    requires Building(g, h, mapping, {}) && i in g.used && a in g.Anc(i)
    ensures a < |mapping| && mapping[a] in h.Anc(mapping[i])
    decreases |g.Anc(i)|
  {
    assert g.Consistent(i);
    assert mapping[i] in h.used;
    assert h.Consistent(mapping[i]);
    if a != i {
      assert LinkedAt(g, h, mapping, i);
      assert Via(g, h, mapping, i, a);
      var p :| p in g.Anc(i) - {i} && a in g.Anc(p) && p < |mapping| && mapping[p] in h.Anc(mapping[i]);
      assert i !in g.Anc(p);
      SubsetSize(g.Anc(p), g.Anc(i));
      BuildingComplete(g, h, mapping, range, p, a);
    }
  }

  lemma BuildingDone(g: Graph, h: Graph, mapping: seq<nat>, range: nat)
    requires g.Valid() && g.Acyclic() && h.Valid() && IsMapping(g, mapping, range)
    requires Building(g, h, mapping, {})
    ensures Renamed(g, h, mapping)
  {
    forall i, a | i in g.used && a in g.Anc(i)
      ensures a < |mapping| && mapping[a] in h.Anc(mapping[i])
    {
      BuildingComplete(g, h, mapping, range, i, a);
    }
    forall i | i in g.used
      ensures RenamedAt(g, h, mapping, i)
    {
      assert g.Consistent(i) && SoundAt(g, h, mapping, i);
      assert mapping[i] in h.used;
      assert h.Consistent(mapping[i]);
      forall d | d in h.used
        ensures d in h.Desc(mapping[i]) <==> d in Image(mapping, g.Desc(i))
      {
        var j :| j in g.used && mapping[j] == d;
        assert SoundAt(g, h, mapping, j);
        assert g.Consistent(j);
      }
    }
  }

  // ----- adding transactions

  /** `h` is `g` with an unconnected transaction at the first free position `x`. */
  ghost predicate Added(g: Graph, h: Graph, x: nat, feefrac: FeeFrac) {
    && x !in g.used && (forall j :: 0 <= j < x ==> j in g.used)
    && h.used == g.used + {x} && x < |h.entries| && |g.entries| <= |h.entries|
    && h.entries[x] == Entry(feefrac, {x}, {x})
    && forall j :: 0 <= j < |g.entries| && j != x ==> h.entries[j] == g.entries[j]
  }

  lemma AddedValid(g: Graph, h: Graph, x: nat, feefrac: FeeFrac)
    requires g.Valid() && Added(g, h, x, feefrac)
    ensures h.Valid()
  {
    UsedInRange(g);
    forall i | i in h.used
      ensures h.Consistent(i)
    {
      if i != x {
        assert g.Consistent(i);
        assert x !in g.Anc(i) && x !in g.Desc(i);
      }
    }
  }

  method FirstFree(g: Graph, capacity: nat) returns (x: nat)
    requires g.Valid() && |g.entries| <= capacity
    requires exists i :: 0 <= i < capacity && i !in g.used
    ensures x < capacity && x <= |g.entries| && x !in g.used && forall j :: 0 <= j < x ==> j in g.used
  {
    UsedInRange(g);
    ghost var w :| 0 <= w < capacity && w !in g.used;
    var available := set i: nat | i < capacity && i !in g.used;
    assert w in available;
    x := First(available);
    assert |g.entries| < capacity ==> |g.entries| in available;
    forall j: nat | j < x
      ensures j in g.used
    {
      assert j !in available;
    }
  }

  class DepGraph {
    /** The number of positions the bit set type can hold. */
    const capacity: nat
    var entries: seq<Entry>
    var used: set<nat>

    function View(): Graph
      reads this
    {
      Graph(entries, used)
    }

    ghost predicate Valid()
      reads this
    {
      View().Valid() && |entries| <= capacity
    }

    constructor (capacity: nat)
      ensures Valid() && used == {} && entries == [] && this.capacity == capacity
    {
      this.capacity := capacity;
      entries, used := [], {};
    }

    /** Construct the graph that renames position `i` of `g` to `mapping[i]`. */
    constructor Remap(g: Graph, mapping: seq<nat>, range: nat, capacity: nat)
      requires g.Valid() && g.Acyclic() && IsMapping(g, mapping, range) && range <= capacity
      ensures Valid() && this.capacity == capacity
      ensures Renamed(g, View(), mapping)
    {
      this.capacity := capacity;
      var start := Unconnected(g, mapping, range);
      entries, used := start.entries, start.used;
      new;
      var rest := g.used;
      while rest != {}
        invariant rest <= g.used
        invariant Valid() && Building(g, View(), mapping, rest)
        decreases rest
      {
        var i := First(rest);
        var reduced := GetReducedParents(g, i);
        assert g.Consistent(i);
        var parents := set j | j in reduced :: mapping[j];
        assert parents == Image(mapping, reduced);
        ghost var h := View();
        assert parents <= h.used && mapping[i] in h.used;
        AddDependencies(parents, mapping[i]);
        DependenciesAddedValid(h, View(), parents, mapping[i]);
        BuildingStep(g, h, View(), mapping, range, rest, i, reduced);
        rest := rest - {i};
      }
      BuildingDone(g, View(), mapping, range);
    }

    /** Add an unconnected transaction in the first free position. */
    method AddTransaction(feefrac: FeeFrac) returns (newIdx: nat)
      requires Valid()
      requires exists i :: 0 <= i < capacity && i !in used
      modifies this
      ensures Valid()
      ensures newIdx < capacity && Added(old(View()), View(), newIdx, feefrac)
    {
      newIdx := FirstFree(View(), capacity);
      ghost var g := View();
      if newIdx == |entries| {
        entries := entries + [Entry(feefrac, {newIdx}, {newIdx})];
      } else {
        entries := entries[newIdx := Entry(feefrac, {newIdx}, {newIdx})];
      }
      used := used + {newIdx};
      AddedValid(g, View(), newIdx, feefrac);
    }

    /** Remove positions; remaining dependencies are those among the remaining positions. */
    method RemoveTransactions(del: set<nat>)
      requires Valid()
      modifies this
      ensures Valid()
      ensures used == old(used) - del
      ensures entries == [] || |entries| - 1 in used
      ensures forall j :: j in used ==>
                && View().Rate(j) == old(View()).Rate(j)
                && View().Anc(j) == old(View()).Anc(j) * used
                && View().Desc(j) == old(View()).Desc(j) * used
    {
      ghost var g := View();
      UsedInRange(g);
      used := used - del;
      while entries != [] && |entries| - 1 !in used
        invariant entries <= old(entries)
        invariant used == old(used) - del
        invariant forall i :: i in used ==> i < |entries|
        decreases |entries|
      {
        entries := entries[..|entries| - 1];
      }
      var i := 0;
      while i < |entries|
        invariant 0 <= i <= |entries| <= |old(entries)|
        invariant entries == [] || |entries| - 1 in used
        invariant used == old(used) - del
        invariant forall j :: j in used ==> j < |entries|
        invariant forall j :: 0 <= j < i ==>
                    entries[j] == Entry(old(entries)[j].feerate, old(entries)[j].ancestors * used,
                                        old(entries)[j].descendants * used)
        invariant forall j :: i <= j < |entries| ==> entries[j] == old(entries)[j]
      {
        entries := entries[i := entries[i].(ancestors := entries[i].ancestors * used,
                                            descendants := entries[i].descendants * used)];
        i := i + 1;
      }
      forall j | j in used
        ensures View().Consistent(j)
      {
        assert g.Consistent(j);
      }
    }

    /** Make every member of `parents` a parent of `child`. */
    method AddDependencies(parents: set<nat>, child: nat)
      requires Valid() && child in used && parents <= used
      modifies this
      ensures Valid()
      ensures DependenciesAdded(old(View()), View(), parents, child)
    {
      hide Graph.Valid, Graph.AncUnion, Graph.Consistent, LoopsDone, DependenciesAdded;
      ghost var g := View();
      GainedAncestors(g, parents, child);
      // What the child gains; NewAncestors shows that skipping known parents loses nothing.
      var parAnc := CollectAncestors(View(), parents - entries[child].ancestors);
      parAnc := parAnc - entries[child].ancestors;
      LoopsNone(g, child);
      if parAnc != {} {
        entries := LinkAncestors(View(), child, parAnc);
      }
      LoopsDoneAdded(g, View(), parents, child, parAnc);
      DependenciesAddedValid(g, View(), parents, child);
    }
  }

  /** The renamed positions with their feerates and no dependencies yet. */
  method Unconnected(g: Graph, mapping: seq<nat>, range: nat) returns (h: Graph)
    requires g.Valid() && IsMapping(g, mapping, range)
    ensures |h.entries| == range && h.Valid() && Building(g, h, mapping, g.used)
  {
    UsedInRange(g);
    var entries := seq(range, _ => Entry(EMPTY, {}, {}));
    var used := {};
    var rest := g.used;
    while rest != {}
      invariant rest <= g.used && |entries| == range
      invariant used == Image(mapping, g.used - rest)
      invariant forall i :: i in g.used - rest ==>
                  entries[mapping[i]] == Entry(g.Rate(i), {mapping[i]}, {mapping[i]})
      decreases rest
    {
      var i := First(rest);
      entries := entries[mapping[i] := Entry(g.entries[i].feerate, {mapping[i]}, {mapping[i]})];
      used := used + {mapping[i]};
      assert g.used - (rest - {i}) == (g.used - rest) + {i};
      rest := rest - {i};
    }
    h := Graph(entries, used);
    assert g.used - rest == g.used;
    forall i | i in g.used
      ensures SoundAt(g, h, mapping, i)
    {
      assert g.Consistent(i);
    }
    forall x | x in h.used
      ensures h.Consistent(x)
    {
      var i :| i in g.used && mapping[i] == x;
    }
  }

  method CollectAncestors(g: Graph, s: set<nat>) returns (u: set<nat>)
    ensures u == g.AncUnion(s)
  {
    u := {};
    var rest := s;
    while rest != {}
      invariant rest <= s
      invariant u == g.AncUnion(s - rest)
      decreases rest
    {
      var par :| par in rest;
      assert g.AncUnion(s - (rest - {par})) == g.AncUnion(s - rest) + g.Anc(par);
      rest := rest - {par};
      u := u + g.Anc(par);
    }
  }

  method LinkAncestors(g: Graph, child: nat, parAnc: set<nat>) returns (entries: seq<Entry>)
    requires g.Valid() && child in g.used && parAnc <= g.used && child !in parAnc
    ensures LoopsDone(g, Graph(entries, g.used), child, parAnc)
  {
    UsedInRange(g);
    // Both loops together make the new pairs converses of each other.
    var linked := AddToDescendants(g.entries, parAnc, g.entries[child].descendants);
    entries := AddToAncestors(linked, linked[child].descendants, parAnc);
  }

  method AddToDescendants(before: seq<Entry>, who: set<nat>, add: set<nat>) returns (entries: seq<Entry>)
    requires forall x :: x in who ==> x < |before|
    ensures |entries| == |before|
    ensures forall x :: 0 <= x < |before| ==>
              entries[x] == if x in who then before[x].(descendants := before[x].descendants + add) else before[x]
  {
    entries := before;
    var rest := who;
    while rest != {}
      invariant rest <= who && |entries| == |before|
      invariant forall x :: 0 <= x < |before| ==>
                  entries[x] == if x in who - rest then before[x].(descendants := before[x].descendants + add)
                  else before[x]
      decreases rest
    {
      var x :| x in rest;
      rest := rest - {x};
      entries := entries[x := entries[x].(descendants := entries[x].descendants + add)];
    }
  }

  method AddToAncestors(before: seq<Entry>, who: set<nat>, add: set<nat>) returns (entries: seq<Entry>)
    requires forall x :: x in who ==> x < |before|
    ensures |entries| == |before|
    ensures forall x :: 0 <= x < |before| ==>
              entries[x] == if x in who then before[x].(ancestors := before[x].ancestors + add) else before[x]
  {
    entries := before;
    var rest := who;
    while rest != {}
      invariant rest <= who && |entries| == |before|
      invariant forall x :: 0 <= x < |before| ==>
                  entries[x] == if x in who - rest then before[x].(ancestors := before[x].ancestors + add)
                  else before[x]
      decreases rest
    {
      var x :| x in rest;
      rest := rest - {x};
      entries := entries[x := entries[x].(ancestors := entries[x].ancestors + add)];
    }
  }
}
