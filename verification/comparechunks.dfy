// The comparison of feerate diagrams (CompareChunks of src/util/feefrac.cpp).
module ChunkComparisons {
  import opened FeeFracs
  import opened Diagrams

  datatype PartialOrdering = Less | Equivalent | Greater | Unordered

  /** How two diagrams compare, given whether each is nowhere below the other. */
  ghost function Ordering(above0: bool, above1: bool): PartialOrdering {
    if above0 && above1 then Equivalent else if above0 then Greater else if above1 then Less else Unordered
  }

  // ----- diagrams as functions that are linear between their points

  /** The `n`-th point of the diagram. */
  function Point(cs: seq<FeeFrac>, n: nat): FeeFrac
    requires n <= |cs|
  {
    Total(cs[..n])
  }

  lemma {:induction false} PointNext(cs: seq<FeeFrac>, n: nat)
    requires n < |cs|
    ensures Point(cs, n + 1) == Plus(Point(cs, n), cs[n])
  {
    assert cs[..n + 1] == cs[..n] + [cs[n]];
    TotalConcat(cs[..n], [cs[n]]);
    TotalSingle(cs[n]);
  }

  /** The number `x` lies on the segment that starts at point `n`; the last one has no end. */
  ghost predicate OnSegment(cs: seq<FeeFrac>, n: nat, x: real) {
    && n <= |cs| && Point(cs, n).size as real <= x
    && (n < |cs| ==> x <= Point(cs, n + 1).size as real)
  }

  /** The fee per size of the segment that starts at point `n`. */
  ghost function Slope(cs: seq<FeeFrac>, n: nat): real
    requires AllPositive(cs) && n <= |cs|
  {
    if n < |cs| then cs[n].fee as real / cs[n].size as real else 0.0
  }

  /** The line through `p` with the given slope. */
  ghost function LineAt(p: FeeFrac, slope: real, x: real): real {
    p.fee as real + slope * (x - p.size as real)
  }

  lemma LineShift(f: FeeFrac, p: FeeFrac, slope: real, x: real)
    ensures LineAt(Plus(f, p), slope, x) == f.fee as real + LineAt(p, slope, x - f.size as real)
  {
    var y := x - Plus(f, p).size as real;
    assert x - f.size as real - p.size as real == y;
  }

  lemma Quotient(f: real, s: real, x: real)
    requires s > 0.0
    ensures f * (x / s) == (f / s) * x
  {
  }

  lemma {:induction false} OnLine(cs: seq<FeeFrac>, n: nat, x: real)
    requires AllPositive(cs) && OnSegment(cs, n, x)
    ensures DiagramAt(cs, x) == LineAt(Point(cs, n), Slope(cs, n), x)
  {
    if n == 0 {
      OnFirst(cs, x);
    } else {
      var t, y := cs[1..], x - cs[0].size as real;
      FirstPoint(cs, n);
      if n < |cs| {
        FirstPoint(cs, n + 1);
      }
      SlopeRest(cs, n);
      hide DiagramAt, Slope, Point, LineAt;
      OnLine(t, n - 1, y);
      LineShift(cs[0], Point(t, n - 1), Slope(t, n - 1), x);
      PastFirst(cs, x);
    }
  }

  lemma SlopeRest(cs: seq<FeeFrac>, n: nat)
    requires AllPositive(cs) && 0 < n <= |cs|
    ensures Slope(cs, n) == Slope(cs[1..], n - 1)
  {
  }

  lemma OnFirst(cs: seq<FeeFrac>, x: real)
    requires AllPositive(cs) && OnSegment(cs, 0, x)
    ensures DiagramAt(cs, x) == LineAt(Point(cs, 0), Slope(cs, 0), x)
  {
    assert cs[..0] == [];
    if cs != [] {
      PointNext(cs, 0);
      Quotient(cs[0].fee as real, cs[0].size as real, x);
    }
  }

  lemma {:induction false} PastFirst(cs: seq<FeeFrac>, x: real)
    requires AllPositive(cs) && cs != [] && x >= cs[0].size as real
    ensures DiagramAt(cs, x) == cs[0].fee as real + DiagramAt(cs[1..], x - cs[0].size as real)
  {
    if x == cs[0].size as real {
      assert x / cs[0].size as real == 1.0;
      assert DiagramAt(cs[1..], 0.0) == 0.0;
    }
  }

  lemma {:induction false} FirstPoint(cs: seq<FeeFrac>, n: nat)
    requires 0 < n <= |cs|
    ensures Point(cs, n) == Plus(cs[0], Point(cs[1..], n - 1))
  {
    assert cs[..n] == [cs[0]] + cs[1..][..n - 1];
    assert cs[..n][1..] == cs[1..][..n - 1];
  }

  /** Two straight lines: one that is no higher at both ends of an interval is no higher within it. */
  lemma Between(p: real, q: real, p': real, q': real, a: real, b: real, x: real)
    requires a <= x <= b && p + q * a <= p' + q' * a && p + q * b <= p' + q' * b
    ensures p + q * x <= p' + q' * x
  {
    var d := q' - q;
    if d >= 0.0 {
      ScaleUp(d, a, x);
    } else {
      ScaleUp(-d, x, b);
    }
    Distribute(q', q, x);
    Distribute(q', q, a);
    Distribute(q', q, b);
  }

  lemma ScaleUp(d: real, a: real, x: real)
    requires d >= 0.0 && a <= x
    ensures d * a <= d * x
  {
  }

  lemma Distribute(q: real, r: real, x: real)
    ensures (q - r) * x == q * x - r * x
    ensures -(q - r) * x == r * x - q * x
  {
  }

  lemma Distribute2(q: real, x: real, y: real)
    ensures q * (x - y) == q * x - q * y
  {
  }

  /** `a` is no higher than `b` up to `x`. */
  ghost predicate NoHigherTo(a: seq<FeeFrac>, b: seq<FeeFrac>, x: real)
    requires AllPositive(a) && AllPositive(b)
  {
    forall y: real :: 0.0 <= y <= x ==> DiagramAt(a, y) <= DiagramAt(b, y)
  }

  /** Between two neighbouring points it is enough to look at the points. */
  lemma {:induction false} NoHigherNext(a: seq<FeeFrac>, n: nat, b: seq<FeeFrac>, m: nat, lo: real, hi: real)
    requires AllPositive(a) && AllPositive(b) && lo <= hi
    requires OnSegment(a, n, lo) && OnSegment(a, n, hi) && OnSegment(b, m, lo) && OnSegment(b, m, hi)
    requires NoHigherTo(a, b, lo) && 0.0 <= lo && DiagramAt(a, hi) <= DiagramAt(b, hi)
    ensures NoHigherTo(a, b, hi)
  {
    forall y: real | lo <= y <= hi
      ensures DiagramAt(a, y) <= DiagramAt(b, y)
    {
      hide DiagramAt, Point, Slope;
      BetweenPoints(a, n, b, m, lo, hi, y);
    }
  }

  lemma {:induction false} BetweenPoints(a: seq<FeeFrac>, n: nat, b: seq<FeeFrac>, m: nat, lo: real, hi: real, y: real)
    requires AllPositive(a) && AllPositive(b) && lo <= y <= hi
    requires OnSegment(a, n, lo) && OnSegment(a, n, hi) && OnSegment(b, m, lo) && OnSegment(b, m, hi)
    requires DiagramAt(a, lo) <= DiagramAt(b, lo) && DiagramAt(a, hi) <= DiagramAt(b, hi)
    ensures DiagramAt(a, y) <= DiagramAt(b, y)
  {
    var p, q := LineOf(a, n);
    var p', q' := LineOf(b, m);
    assert DiagramAt(a, lo) == p + q * lo && DiagramAt(b, lo) == p' + q' * lo;
    assert DiagramAt(a, hi) == p + q * hi && DiagramAt(b, hi) == p' + q' * hi;
    assert DiagramAt(a, y) == p + q * y && DiagramAt(b, y) == p' + q' * y;
    hide DiagramAt, OnSegment;
    Between(p, q, p', q', lo, hi, y);
  }

  lemma {:induction false} LineOf(cs: seq<FeeFrac>, n: nat) returns (p: real, q: real)
    requires AllPositive(cs) && n <= |cs|
    ensures forall x: real {:trigger DiagramAt(cs, x)} :: OnSegment(cs, n, x) ==> DiagramAt(cs, x) == p + q * x
  {
    hide DiagramAt, OnSegment, Slope, Point, LineAt;
    q := Slope(cs, n);
    p := LineAt(Point(cs, n), q, 0.0);
    forall x: real | OnSegment(cs, n, x)
      ensures DiagramAt(cs, x) == p + q * x
    {
      OnLine(cs, n, x);
      FromOrigin(Point(cs, n), q, x);
    }
  }

  lemma FromOrigin(o: FeeFrac, q: real, x: real)
    ensures LineAt(o, q, x) == LineAt(o, q, 0.0) + q * x
  {
    Distribute2(q, x, o.size as real);
    Distribute2(q, 0.0, o.size as real);
  }

  // ----- one step of the walk

  /** Point `n` is the last one at or before size `x`. */
  ghost predicate LastAt(cs: seq<FeeFrac>, n: nat, x: nat) {
    && n <= |cs| && Point(cs, n).size <= x
    && (n < |cs| ==> x < Point(cs, n + 1).size)
  }

  function Sign(x: int): int { if x > 0 then 1 else if x < 0 then -1 else 0 }

  ghost function SignReal(x: real): int { if x > 0.0 then 1 else if x < 0.0 then -1 else 0 }

  /** The comparison of slopes tells on which side of the other diagram the next point lies. */
  lemma {:induction false} SlopeTells(a: seq<FeeFrac>, n: nat, b: seq<FeeFrac>, m: nat)
    requires AllPositive(a) && AllPositive(b) && n < |a| && m <= |b|
    requires Point(b, m).size <= Point(a, n + 1).size && (m < |b| ==> Point(a, n + 1).size <= Point(b, m + 1).size)
    ensures var x := Point(a, n + 1).size as real;
            var ap := Minus(Point(a, n + 1), Point(b, m));
            var ab := if m < |b| then b[m] else FeeFrac(0, 1);
            Sign(Gain(ap, ab)) == SignReal(DiagramAt(a, x) - DiagramAt(b, x))
  {
    var x := Point(a, n + 1).size as real;
    var ap := Minus(Point(a, n + 1), Point(b, m));
    var ab := if m < |b| then b[m] else FeeFrac(0, 1);
    AtPoint(a, n + 1);
    assert Slope(b, m) == ab.fee as real / ab.size as real;
    hide DiagramAt, Point, Slope, LineAt, Gain;
    OnLine(b, m, x);
    LineSign(Point(a, n + 1), Point(b, m), ab);
  }

  lemma LineSign(p: FeeFrac, a: FeeFrac, ab: FeeFrac)
    requires ab.size > 0 && a.size <= p.size
    ensures Sign(Gain(Minus(p, a), ab)) == SignReal(p.fee as real - LineAt(a, ab.fee as real / ab.size as real,
                p.size as real))
  {
    var ap := Minus(p, a);
    assert ap.size as real == p.size as real - a.size as real && ap.fee as real == p.fee as real - a.fee as real;
    hide Gain, Sign, SignReal;
    CrossSign(ap, ab);
  }

  lemma {:induction false} AtPoint(cs: seq<FeeFrac>, n: nat)
    requires AllPositive(cs) && n <= |cs|
    ensures DiagramAt(cs, Point(cs, n).size as real) == Point(cs, n).fee as real
  {
    var x := Point(cs, n).size as real;
    if n < |cs| {
      PointNext(cs, n);
    }
    hide DiagramAt, Slope, Point;
    OnLine(cs, n, x);
    AtItself(Point(cs, n), Slope(cs, n));
  }

  lemma AtItself(p: FeeFrac, slope: real)
    ensures LineAt(p, slope, p.size as real) == p.fee as real
  {
  }

  lemma CrossSign(p: FeeFrac, q: FeeFrac)
    requires q.size > 0
    ensures Sign(Gain(p, q)) == SignReal(p.fee as real - (q.fee as real / q.size as real) * p.size as real)
  {
    var s := q.size as real;
    var v := p.fee as real - (q.fee as real / s) * p.size as real;
    var u := q.fee as real / s;
    assert u * s == q.fee as real;
    assert v * s == p.fee as real * s - (u * s) * p.size as real;
    assert v * s == Gain(p, q) as real;
    SignScaled(v, s);
  }

  lemma SignScaled(v: real, s: real)
    requires s > 0.0
    ensures SignReal(v * s) == SignReal(v)
  {
  }

  /** `a` rises above `b` somewhere. */
  ghost predicate Exceeds(a: seq<FeeFrac>, b: seq<FeeFrac>)
    requires AllPositive(a) && AllPositive(b)
  {
    exists x: real :: x >= 0.0 && DiagramAt(a, x) > DiagramAt(b, x)
  }

  lemma ExceedsNotAbove(a: seq<FeeFrac>, b: seq<FeeFrac>)
    requires AllPositive(a) && AllPositive(b)
    ensures Exceeds(a, b) <==> !DiagramAbove(b, a)
  {
    hide DiagramAt;
  }

  /** Points and positions after moving on to the next point of `a`. */
  lemma {:induction false} NextLast(a: seq<FeeFrac>, n: nat, b: seq<FeeFrac>, m: nat, x: nat)
    requires AllPositive(a) && AllPositive(b) && LastAt(a, n, x) && LastAt(b, m, x) && n < |a|
    requires m < |b| ==> Point(a, n + 1).size <= Point(b, m + 1).size
    ensures var y := Point(a, n + 1).size;
            && x < y && LastAt(a, n + 1, y)
            && LastAt(b, if m < |b| && Point(b, m + 1).size == y then m + 1 else m, y)
  {
    if n + 1 < |a| {
      PointNext(a, n + 1);
    }
    if m + 1 < |b| {
      PointNext(b, m + 1);
    }
    hide Point;
  }

  lemma {:induction false} NextNoHigher(a: seq<FeeFrac>, n: nat, b: seq<FeeFrac>, m: nat, x: nat)
    requires AllPositive(a) && AllPositive(b) && LastAt(a, n, x) && LastAt(b, m, x) && n < |a|
    requires m < |b| ==> Point(a, n + 1).size <= Point(b, m + 1).size
    ensures var y := Point(a, n + 1).size as real;
            && (NoHigherTo(a, b, x as real) && DiagramAt(a, y) <= DiagramAt(b, y) ==> NoHigherTo(a, b, y))
            && (NoHigherTo(b, a, x as real) && DiagramAt(b, y) <= DiagramAt(a, y) ==> NoHigherTo(b, a, y))
  {
    var lo, y := x as real, Point(a, n + 1).size as real;
    hide Point, DiagramAt, NoHigherTo;
    assert OnSegment(a, n, lo) && OnSegment(a, n, y) && OnSegment(b, m, lo) && OnSegment(b, m, y);
    if NoHigherTo(a, b, lo) && DiagramAt(a, y) <= DiagramAt(b, y) {
      NoHigherNext(a, n, b, m, lo, y);
    }
    if NoHigherTo(b, a, lo) && DiagramAt(b, y) <= DiagramAt(a, y) {
      NoHigherNext(b, m, a, n, lo, y);
    }
  }

  lemma {:induction false} NoHigherToEnd(a: seq<FeeFrac>, b: seq<FeeFrac>, x: nat)
    requires AllPositive(a) && AllPositive(b) && LastAt(a, |a|, x) && LastAt(b, |b|, x) && NoHigherTo(a, b, x as real)
    ensures DiagramAbove(b, a)
  {
    assert a[..|a|] == a && b[..|b|] == b;
    hide DiagramAt;
    DiagramBeyond(a, x as real);
    DiagramBeyond(b, x as real);
    forall y: real | y >= 0.0
      ensures DiagramAt(b, y) >= DiagramAt(a, y)
    {
      if y > x as real {
        DiagramBeyond(a, y);
        DiagramBeyond(b, y);
      }
    }
  }

  // ----- the walk over both diagrams

  /** How far one diagram has been processed, up to which point, and whether it was better anywhere. */
  datatype Walker = Walker(nextIndex: nat, accum: FeeFrac, better: bool)

  /** What is known of side `a` against side `b` when everything up to `x` has been compared. */
  ghost predicate Side(a: seq<FeeFrac>, w: Walker, b: seq<FeeFrac>, x: nat)
    requires AllPositive(a) && AllPositive(b)
  {
    && LastAt(a, w.nextIndex, x) && w.accum == Point(a, w.nextIndex)
    && (w.better ==> Exceeds(a, b)) && (!w.better ==> NoHigherTo(a, b, x as real))
  }

  lemma {:induction false} SideStart(a: seq<FeeFrac>, b: seq<FeeFrac>)
    requires AllPositive(a) && AllPositive(b)
    ensures Side(a, Walker(0, EMPTY, false), b, 0)
  {
    assert a[..0] == [];
    if a != [] {
      PointNext(a, 0);
    }
    AtPoint(a, 0);
    AtPoint(b, 0);
    assert b[..0] == [];
  }

  /** The point of `a` that comes next. */
  function NextPoint(a: seq<FeeFrac>, w: Walker): FeeFrac
    requires w.nextIndex < |a|
  {
    Plus(a[w.nextIndex], w.accum)
  }

  /** The slope of the line that the next point of the other side is compared with. */
  ghost function Onward(b: seq<FeeFrac>, v: Walker): FeeFrac {
    if v.nextIndex < |b| then b[v.nextIndex] else FeeFrac(0, 1)
  }

  /** Comparing at the next point of `a`. */
  lemma {:induction false} SidesStep(a: seq<FeeFrac>, w: Walker, b: seq<FeeFrac>, v: Walker, x: nat)
    requires AllPositive(a) && AllPositive(b) && w.nextIndex < |a| && Side(a, w, b, x) && Side(b, v, a, x)
    requires v.nextIndex < |b| ==> NextPoint(a, w).size <= NextPoint(b, v).size
    ensures var p := NextPoint(a, w);
            && v.accum.size < p.size
            && var cmp := Sign(Gain(Minus(p, v.accum), Onward(b, v)));
               && Side(a, Walker(w.nextIndex + 1, p, w.better || cmp > 0), b, p.size)
               && if v.nextIndex < |b| && NextPoint(b, v).size == p.size
                  then Side(b, Walker(v.nextIndex + 1, NextPoint(b, v), v.better || cmp < 0), a, p.size)
                  else Side(b, v.(better := v.better || cmp < 0), a, p.size)
  {
    var n, m := w.nextIndex, v.nextIndex;
    hide Point, DiagramAt, NoHigherTo, Gain, Plus, NextPoint, AllPositive;
    NextIsPoint(a, w);
    if m < |b| {
      NextIsPoint(b, v);
    }
    NextLast(a, n, b, m, x);
    NextNoHigher(a, n, b, m, x);
    SlopeTells(a, n, b, m);
  }

  lemma NextIsPoint(a: seq<FeeFrac>, w: Walker)
    requires w.nextIndex < |a| && w.accum == Point(a, w.nextIndex)
    ensures NextPoint(a, w) == Point(a, w.nextIndex + 1)
  {
    PointNext(a, w.nextIndex);
  }

  /** Process the next point of `a`, which comes no later than that of `b`. */
  method ComparePoint(a: seq<FeeFrac>, w: Walker, b: seq<FeeFrac>, v: Walker, ghost x: nat)
    returns (w': Walker, v': Walker)
    requires AllPositive(a) && AllPositive(b) && w.nextIndex < |a| && v.nextIndex <= |b| && Side(a, w, b, x)
             && Side(b, v, a, x)
    requires v.nextIndex < |b| ==> NextPoint(a, w).size <= NextPoint(b, v).size
    ensures Side(a, w', b, NextPoint(a, w).size) && Side(b, v', a, NextPoint(a, w).size)
    ensures w'.nextIndex == w.nextIndex + 1 && v.nextIndex <= v'.nextIndex <= |b|
  {
    SidesStep(a, w, b, v, x);
    hide Side, Gain;
    w', v' := w, v;
    var pointP := NextPoint(a, w);
    var slopeAp := Minus(pointP, v.accum);
    var cmp: int;
    if v.nextIndex == |b| {
      cmp := Sign(Gain(slopeAp, FeeFrac(0, 1)));
    } else {
      var pointB := NextPoint(b, v);
      MinusPlus(v.accum, b[v.nextIndex]);
      PlusAssoc(b[v.nextIndex], v.accum, EMPTY);
      cmp := Sign(Gain(slopeAp, Minus(pointB, v.accum)));
      if pointB.size == pointP.size {
        v' := v'.(accum := pointB, nextIndex := v.nextIndex + 1);
      }
    }
    if cmp > 0 {
      w' := w'.(better := true);
    }
    if cmp < 0 {
      v' := v'.(better := true);
    }
    w' := w'.(accum := pointP, nextIndex := w.nextIndex + 1);
  }

  /** Compare two lists of chunks by the diagrams they stand for. */
  method CompareChunks(chunks0: seq<FeeFrac>, chunks1: seq<FeeFrac>) returns (r: PartialOrdering)
    requires AllPositive(chunks0) && AllPositive(chunks1)
    ensures r == Ordering(DiagramAbove(chunks0, chunks1), DiagramAbove(chunks1, chunks0))
  {
    hide Side, Point, DiagramAt, DiagramAbove, Exceeds, Gain;
    var w0, w1 := Walker(0, EMPTY, false), Walker(0, EMPTY, false);
    ghost var level: nat := 0;
    SideStart(chunks0, chunks1);
    SideStart(chunks1, chunks0);
    while true
      invariant w0.nextIndex <= |chunks0| && w1.nextIndex <= |chunks1| && !(w0.better && w1.better)
      invariant Side(chunks0, w0, chunks1, level) && Side(chunks1, w1, chunks0, level)
      decreases |chunks0| - w0.nextIndex + |chunks1| - w1.nextIndex
    {
      var done0, done1 := w0.nextIndex == |chunks0|, w1.nextIndex == |chunks1|;
      if done0 && done1 {
        break;
      }
      // Take the smaller next point; ComparePoint relies on that order.
      if done0 || (!done1 && NextPoint(chunks0, w0).size > NextPoint(chunks1, w1).size) {
        ghost var x := level;
        level := NextPoint(chunks1, w1).size;
        w1, w0 := ComparePoint(chunks1, w1, chunks0, w0, x);
      } else {
        ghost var x := level;
        level := NextPoint(chunks0, w0).size;
        w0, w1 := ComparePoint(chunks0, w0, chunks1, w1, x);
      }
      if w0.better && w1.better {
        SidesTell(chunks0, w0, chunks1, w1, level);
        return Unordered;
      }
    }
    SidesTell(chunks0, w0, chunks1, w1, level);
    return if w0.better == w1.better then Equivalent else if w0.better then Greater else Less;
  }

  lemma {:induction false} SidesTell(a: seq<FeeFrac>, w: Walker, b: seq<FeeFrac>, v: Walker, x: nat)
    requires AllPositive(a) && AllPositive(b) && Side(a, w, b, x) && Side(b, v, a, x)
    ensures w.better ==> !DiagramAbove(b, a)
    ensures v.better ==> !DiagramAbove(a, b)
    ensures w.nextIndex == |a| && v.nextIndex == |b| ==>
              (!w.better ==> DiagramAbove(b, a)) && (!v.better ==> DiagramAbove(a, b))
  {
    hide DiagramAbove, NoHigherTo, Exceeds, Point;
    ExceedsNotAbove(a, b);
    ExceedsNotAbove(b, a);
    if w.nextIndex == |a| && v.nextIndex == |b| {
      if !w.better {
        NoHigherToEnd(a, b, x);
      }
      if !v.better {
        NoHigherToEnd(b, a, x);
      }
    }
  }
}
