// Finite sets of positions, iterated in ascending order (the bit sets of src/cluster_linearize.h).
module IndexSets {

  lemma {:induction false} LeastExists(s: set<nat>, y: nat)
    requires y in s
    ensures exists m :: m in s && forall x :: x in s ==> m <= x
    decreases y
  {
    if x :| x in s && x < y {
      LeastExists(s, x);
    }
  }

  lemma {:induction false} GreatestExists(s: set<nat>, y: nat, bound: nat)
    requires y in s && forall x :: x in s ==> x <= bound
    ensures exists m :: m in s && forall x :: x in s ==> x <= m
    decreases bound - y
  {
    if x :| x in s && y < x {
      GreatestExists(s, x, bound);
    }
  }

  lemma {:induction false} Bound(s: set<nat>) returns (b: nat)
    ensures forall x :: x in s ==> x <= b
    decreases |s|
  {
    b := 0;
    if s != {} {
      var y :| y in s;
      b := Bound(s - {y});
      assert forall x :: x in s ==> x == y || x in s - {y};
      b := b + y;
    }
  }

  lemma HasGreatest(s: set<nat>)
    requires s != {}
    ensures exists m :: m in s && forall x :: x in s ==> x <= m
  {
    var b := Bound(s);
    var y :| y in s;
    GreatestExists(s, y, b);
  }

  lemma HasLeast(s: set<nat>)
    requires s != {}
    ensures exists m :: m in s && forall x :: x in s ==> m <= x
  {
    var y :| y in s;
    LeastExists(s, y);
  }

  function First(s: set<nat>): (m: nat)
    requires s != {}
    ensures m in s && forall x :: x in s ==> m <= x
  {
    HasLeast(s);
    var m: nat :| m in s && forall x :: x in s ==> m <= x;
    m
  }

  function Last(s: set<nat>): (m: nat)
    requires s != {}
    ensures m in s && forall x :: x in s ==> x <= m
  {
    HasGreatest(s);
    var m: nat :| m in s && forall x :: x in s ==> x <= m;
    m
  }

  lemma {:induction false} SubsetSize(a: set<nat>, b: set<nat>)
    requires a <= b
    ensures |a| <= |b|
    ensures a != b ==> |a| < |b|
  {
    assert b == a + (b - a);
    if a != b {
      var x :| x in b - a;
      assert |b - a| > 0;
    }
  }
}
