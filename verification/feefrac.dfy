// Fee/size pairs and their two comparisons (src/util/feefrac.h).
module FeeFracs {

  /** A fee and a size. Machine widths are not modelled: both are unbounded. */
  datatype FeeFrac = FeeFrac(fee: int, size: nat)

  const EMPTY := FeeFrac(0, 0)

  function Plus(a: FeeFrac, b: FeeFrac): FeeFrac {
    FeeFrac(a.fee + b.fee, a.size + b.size)
  }

  function Minus(a: FeeFrac, b: FeeFrac): FeeFrac
    requires a.size >= b.size
  {
    FeeFrac(a.fee - b.fee, a.size - b.size)
  }

  lemma MinusPlus(a: FeeFrac, b: FeeFrac)
    ensures Minus(Plus(a, b), a) == b
  {
    match b case FeeFrac(_, _) =>
  }

  lemma PlusEmpty(a: FeeFrac)
    ensures Plus(EMPTY, a) == a == Plus(a, EMPTY)
  {
    match a case FeeFrac(_, _) =>
  }

  lemma PlusAssoc(a: FeeFrac, b: FeeFrac, c: FeeFrac)
    ensures Plus(Plus(a, b), c) == Plus(a, Plus(b, c))
    ensures Plus(a, b) == Plus(b, a)
  {
  }

  /** The signed cross product: positive exactly when `f` has a higher feerate than `r`,
      and, for a fixed reference `r`, additive in `f`. */
  function Gain(f: FeeFrac, r: FeeFrac): int {
    f.fee * r.size - r.fee * f.size
  }

  /** `a >> b`: strictly higher feerate, ignoring size. */
  predicate Higher(a: FeeFrac, b: FeeFrac) {
    Gain(a, b) > 0
  }

  /** `a > b` in the total order: higher feerate, or equal feerate and smaller size. */
  predicate Better(a: FeeFrac, b: FeeFrac) {
    Gain(a, b) > 0 || (Gain(a, b) == 0 && a.size < b.size)
  }

  lemma GainPlus(a: FeeFrac, b: FeeFrac, r: FeeFrac)
    ensures Gain(Plus(a, b), r) == Gain(a, r) + Gain(b, r)
    ensures Gain(r, Plus(a, b)) == Gain(r, a) + Gain(r, b)
  {
  }

  lemma GainEmpty(r: FeeFrac)
    ensures Gain(EMPTY, r) == 0 == Gain(r, EMPTY)
  {
  }

  lemma GainSelf(a: FeeFrac, b: FeeFrac)
    ensures Gain(a, a) == 0
    ensures Gain(a, b) == -Gain(b, a)
  {
  }

  lemma GainTriangle(a: FeeFrac, b: FeeFrac, c: FeeFrac)
    ensures b.size * Gain(a, c) == c.size * Gain(a, b) + a.size * Gain(b, c)
  {
    calc {
      c.size * Gain(a, b) + a.size * Gain(b, c);
      c.size * (a.fee * b.size) - c.size * (b.fee * a.size) + a.size * (b.fee * c.size) - a.size * (c.fee * b.size);
      b.size * (a.fee * c.size) - b.size * (c.fee * a.size);
      b.size * Gain(a, c);
    }
  }

  /** "Not higher" is transitive through a non-empty middle, and strictly so when a step is strict. */
  lemma GainTransitive(a: FeeFrac, b: FeeFrac, c: FeeFrac)
    requires b.size > 0
    requires Gain(a, b) <= 0 && Gain(b, c) <= 0
    ensures Gain(a, c) <= 0
    ensures Gain(a, b) < 0 && c.size > 0 ==> Gain(a, c) < 0
    ensures Gain(b, c) < 0 && a.size > 0 ==> Gain(a, c) < 0
  {
    GainTriangle(a, b, c);
    var x, y, z := c.size * Gain(a, b), a.size * Gain(b, c), Gain(a, c);
    NonPositiveProduct(c.size, Gain(a, b));
    NonPositiveProduct(a.size, Gain(b, c));
    if z >= 0 {
      NonNegativeProduct(b.size, z);
    }
  }

  lemma NonPositiveProduct(n: nat, v: int)
    requires v <= 0
    ensures n * v <= 0
    ensures n > 0 && v < 0 ==> n * v < 0
  {
  }

  lemma NonNegativeProduct(n: nat, v: int)
    requires v >= 0
    ensures n * v >= 0
    ensures n > 0 && v > 0 ==> n * v > 0
  {
  }
}
