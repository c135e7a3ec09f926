// The heights that skip pointers lead to (src/chain.cpp), and how many steps a walk along them takes.
module SkipHeights {
  import opened Powers

  function And(x: nat, y: nat): (r: nat)
    ensures r <= x && r <= y
    decreases x + y
  {
    if x == 0 || y == 0 then 0
    else (if x % 2 == 1 && y % 2 == 1 then 1 else 0) + 2 * And(x / 2, y / 2)
  }

  /** Clear the last bit that is set. */
  function InvertLowestOne(n: nat): (r: nat)
    ensures n > 0 ==> r < n
  {
    if n == 0 then 0 else And(n, n - 1)
  }

  /** The height the skip pointer of a block leads to: always lower than the block's. */
  function GetSkipHeight(height: nat): (r: nat)
    ensures height > 0 ==> r < height
  {
    if height < 2 then 0
    else if height % 2 == 1 then InvertLowestOne(InvertLowestOne(height - 1)) + 1
    else InvertLowestOne(height)
  }

  // ----- the lowest bit

  /** How many times 2 divides `n`. */
  ghost function Twos(n: nat): nat
    requires n > 0
  {
    if n % 2 == 1 then 0 else 1 + Twos(n / 2)
  }

  lemma {:induction false} AndSelf(n: nat)
    ensures And(n, n) == n
  {
    if n > 0 {
      AndSelf(n / 2);
    }
  }

  /** Clearing the lowest bit subtracts the largest power of two that divides the number. */
  lemma {:induction false} LowestOne(n: nat)
    requires n > 0
    ensures Pow2(Twos(n)) <= n && InvertLowestOne(n) == n - Pow2(Twos(n))
  {
    if n % 2 == 1 {
      AndSelf(n / 2);
      assert (n - 1) / 2 == n / 2;
    } else {
      LowestOne(n / 2);
      assert (n - 1) / 2 == n / 2 - 1;
    }
  }

  lemma {:induction false} TwosBelow(h: nat, m: nat)
    requires h > Pow2(m) && Twos(h) > m
    ensures Twos(h - Pow2(m)) == m
  {
    if m > 0 {
      assert (h - Pow2(m)) / 2 == h / 2 - Pow2(m - 1);
      TwosBelow(h / 2, m - 1);
    }
  }

  lemma {:induction false} TwosCleared(n: nat)
    requires n > 0 && n > Pow2(Twos(n))
    ensures Twos(n - Pow2(Twos(n))) > Twos(n)
  {
    if n % 2 == 0 {
      assert (n - Pow2(Twos(n))) / 2 == n / 2 - Pow2(Twos(n / 2));
      TwosCleared(n / 2);
    }
  }

  /** `n` without its lowest bit. */
  ghost function Clear(n: nat): nat
    requires n > 0
  {
    LowestOne(n);
    n - Pow2(Twos(n))
  }

  lemma SkipEven(h: nat)
    requires h > 0 && h % 2 == 0
    ensures GetSkipHeight(h) == Clear(h)
  {
    LowestOne(h);
  }

  lemma SkipOdd(x: nat)
    requires x > 1 && x % 2 == 1
    ensures GetSkipHeight(x) == if Clear(x - 1) == 0 then 1 else Clear(Clear(x - 1)) + 1
  {
    LowestOne(x - 1);
    if Clear(x - 1) > 0 {
      LowestOne(Clear(x - 1));
    }
  }

  lemma EvenTwos(h: nat)
    requires h > 0
    ensures h % 2 == 0 <==> Twos(h) > 0
  {
  }

  // ----- a walk

  /** Where a walk to height `t` goes from height `h`: along the skip pointer, unless it leads too far down or the
      parent's leads further. */
  function NextHeight(h: nat, t: nat): (r: nat)
    requires h > t
    ensures t <= r < h
  {
    var skip, skipPrev := GetSkipHeight(h), GetSkipHeight(h - 1);
    if skip == t || (skip > t && !(skipPrev < skip - 2 && skipPrev >= t)) then skip else h - 1
  }

  ghost function Steps(h: nat, t: nat): nat
    requires h >= t
    decreases h
  {
    if h == t then 0 else 1 + Steps(NextHeight(h, t), t)
  }

  /** The bound for the stretch below a multiple of 2^p. */
  ghost function Within(p: nat): nat { if p == 0 then 1 else p + 3 + Within(p - 1) }

  lemma {:induction false} WithinMono(a: nat, b: nat)
    requires a <= b
    ensures Within(a) <= Within(b)
  {
    if a < b {
      WithinMono(a, b - 1);
    }
  }

  lemma OneStep(h: nat, t: nat)
    requires h > t
    ensures Steps(h, t) == 1 + Steps(NextHeight(h, t), t) && (GetSkipHeight(h) < t ==> NextHeight(h, t) == h - 1)
    ensures GetSkipHeight(h) == t ==> Steps(h, t) == 1
    ensures t == h - 1 ==> Steps(h, t) == 1
  {
    hide GetSkipHeight;
    assert Steps(t, t) == 0;
  }

  // ----- the stretch below a multiple of a power of two

  lemma {:induction false} Doubles(m: nat)
    requires m >= 1
    ensures Pow2(m + 2) == 4 * Pow2(m) && Pow2(m + 1) == 2 * Pow2(m) && Pow2(m) >= 2 && Pow2(1) == 2
  {
    assert Pow2(0) == 1 && Pow2(1) == 2 * Pow2(0);
    Pow2Mono(1, m);
  }

  /** The pointers of the odd heights h - 2^m + 1 below a multiple `h` of 2^p, and of the even heights before them. */
  lemma {:induction false} ChainFacts(h: nat, p: nat, m: nat)
    requires h > 0 && p <= Twos(h) && Pow2(p) <= h && 1 <= m && m + 2 <= p
    ensures Pow2(m + 2) == 4 * Pow2(m) && Pow2(m + 1) == 2 * Pow2(m) && Pow2(m + 2) <= h && Pow2(m) >= 2
    ensures var y := h - Pow2(m); y > 0 && Twos(y) == m && y % 2 == 0
    ensures GetSkipHeight(h - Pow2(m)) == h - Pow2(m + 1)
    ensures GetSkipHeight(h - Pow2(m) + 1) == h - Pow2(m + 2) + 1
    ensures Twos(h - Pow2(m + 1)) == m + 1
  {
    hide Pow2, Twos, GetSkipHeight;
    Doubles(m);
    Pow2Mono(m + 2, p);
    var y, z := h - Pow2(m), h - Pow2(m + 1);
    TwosBelow(h, m);
    TwosBelow(h, m + 1);
    EvenTwos(y);
    SkipEven(y);
    SkipOdd(y + 1);
    assert Clear(y) == z && Clear(z) == h - Pow2(m + 2);
  }

  /** At an even height that is a multiple of 8, the parent's pointer does not lead further. */
  lemma {:induction false} ParentNear(g: nat)
    requires g > 8 && Twos(g) >= 3
    ensures GetSkipHeight(g - 1) == g - 7
  {
    hide Pow2, Twos, GetSkipHeight;
    Doubles(1);
    TwosBelow(g, 1);
    TwosBelow(g, 2);
    EvenTwos(g);
    SkipOdd(g - 1);
    assert Clear(g - 2) == g - 4 && Clear(g - 4) == g - 8;
  }

  /** From the last height of the chain before `t`, one or two steps lead to a shorter stretch. */
  lemma {:induction false} LeaveChain(h: nat, p: nat, m: nat, t: nat)
    requires h > 0 && p <= Twos(h) && Pow2(p) <= h && 1 <= m && m + 2 <= p && m % 2 == 1
    requires h - Pow2(m + 2) + 1 < t <= h - Pow2(m)
    ensures Steps(h - Pow2(m), t) <= 1 + Within(p - 1)
    decreases p, 0, 0
  {
    hide Pow2, Twos, GetSkipHeight, Within;
    ChainFacts(h, p, m);
    WithinMono(m, p - 1);
    WithinMono(m + 1, p - 1);
    var g, next := h - Pow2(m), h - Pow2(m + 1);
    if t >= next {
      Descent(g, m, t);
    } else {
      OneStep(g, t);
      assert NextHeight(g, t) == next by {
        NotParent(h, m, t);
      }
      Descent(next, m + 1, t);
    }
  }

  lemma {:induction false} NotParent(h: nat, m: nat, t: nat)
    requires h > 0 && m + 2 <= Twos(h) && Pow2(m + 2) <= h && 1 <= m && m % 2 == 1
    requires h - Pow2(m + 2) + 1 < t < h - Pow2(m)
    ensures h - Pow2(m) > 0
    ensures var s := GetSkipHeight(h - Pow2(m) - 1); s < t || s >= h - Pow2(m + 1) - 2
  {
    hide Pow2, Twos, GetSkipHeight;
    ChainFacts(h, m + 2, m);
    var g := h - Pow2(m);
    Doubles(1);
    Doubles(2);
    if m >= 3 {
      Pow2Mono(3, m);
      ParentNear(g);
    } else {
      TwosBelow(h, 2);
      SkipOdd(g - 1);
      assert g - 2 == h - 4 && Clear(h - 4) == h - 8;
    }
  }

  lemma {:induction false} Chain(h: nat, p: nat, m: nat, t: nat)
    requires h > 0 && p <= Twos(h) && Pow2(p) <= h && 1 <= m <= p && m % 2 == 1
    requires h - Pow2(p) <= t <= h - Pow2(m) + 1
    ensures Pow2(m) <= h && Steps(h - Pow2(m) + 1, t) <= (p - m) + 3 + Within(p - 1)
    decreases p, 1, p - m
  {
    hide Pow2, Twos, GetSkipHeight, Within;
    Pow2Mono(m, p);
    if m + 2 <= p {
      ChainFacts(h, p, m);
      Pow2Mono(m + 2, p);
      var x, next := h - Pow2(m) + 1, h - Pow2(m + 2) + 1;
      if t < x {
        OneStep(x, t);
        if t <= next {
          assert NextHeight(x, t) == next;
          Chain(h, p, m + 2, t);
        } else {
          LeaveChain(h, p, m, t);
        }
      }
    } else {
      ChainEnd(h, p, m, t);
    }
  }

  /** The last pointer of the chain leads too far down, except at the very bottom, where it leads to height 1. */
  lemma {:induction false} LastPointer(h: nat, m: nat)
    requires h > 0 && m + 1 <= Twos(h) && Pow2(m + 1) <= h && 1 <= m
    ensures Pow2(m + 1) == 2 * Pow2(m) && Pow2(m) >= 2
    ensures h == Pow2(m + 1) ==> GetSkipHeight(h - Pow2(m) + 1) == 1
    ensures h > Pow2(m + 1) ==> GetSkipHeight(h - Pow2(m) + 1) < h - Pow2(m + 1)
  {
    hide Pow2, Twos, GetSkipHeight;
    Doubles(m);
    var y, z := h - Pow2(m), h - Pow2(m + 1);
    TwosBelow(h, m);
    EvenTwos(y);
    SkipOdd(y + 1);
    assert Clear(y) == z;
    if z > 0 {
      TwosCleared(y);
      Pow2Mono(m + 1, Twos(z));
    }
  }

  lemma {:induction false} ChainEnd(h: nat, p: nat, m: nat, t: nat)
    requires h > 0 && p <= Twos(h) && Pow2(p) <= h && 1 <= m <= p <= m + 1
    requires Pow2(m) <= h && h - Pow2(p) <= t <= h - Pow2(m) + 1
    ensures Steps(h - Pow2(m) + 1, t) <= 2 + Within(p - 1)
    decreases p, 0, 0
  {
    hide Pow2, Twos, GetSkipHeight, Within;
    var x := h - Pow2(m) + 1;
    if t < x {
      OneStep(x, t);
      if p == m + 1 {
        LastPointer(h, m);
        if GetSkipHeight(x) < t {
          TwosBelow(h, m);
          Descent(x - 1, m, t);
        } else if t == 0 {
          assert NextHeight(x, t) == 1;
          OneStep(1, 0);
        }
      }
    }
  }

  lemma {:induction false} Descent(h: nat, p: nat, t: nat)
    requires h > 0 && p <= Twos(h) && h <= t + Pow2(p) && t <= h
    ensures Steps(h, t) <= Within(p)
    decreases p, 2, 0
  {
    LowestOne(h);
    Pow2Mono(p, Twos(h));
    if t < h {
      OneStep(h, t);
      if p > 0 {
        EvenTwos(h);
        SkipEven(h);
        assert Pow2(1) == 2 * Pow2(0);
        hide Pow2, GetSkipHeight;
        if GetSkipHeight(h) < t {
          Chain(h, p, 1, t);
        }
      }
    }
  }

  // ----- the whole walk

  lemma TwosSmall(n: nat, l: nat)
    requires 0 < n < Pow2(l)
    ensures Twos(n) < l
  {
    LowestOne(n);
    if Twos(n) >= l {
      Pow2Mono(l, Twos(n));
      assert false;
    }
  }

  lemma WholeDescent(h: nat, t: nat, l: nat)
    requires 0 < h < Pow2(l) && Clear(h) <= t <= h
    ensures Steps(h, t) <= Within(l)
  {
    hide Steps, Pow2, Twos, Within;
    TwosSmall(h, l);
    WithinMono(Twos(h), l);
    Descent(h, Twos(h), t);
  }

  /** At an even height from which the walk may use the pointer, having come from the odd height above, it does. */
  lemma {:induction false} UsesPointer(y: nat, t: nat)
    requires y > 1 && y % 2 == 0 && GetSkipHeight(y + 1) < t < Clear(y)
    ensures NextHeight(y, t) == Clear(y) && Clear(Clear(y)) < t
  {
    hide Pow2, GetSkipHeight;
    SkipEven(y);
    SkipOdd(y + 1);
    Doubles(1);
    assert Pow2(3) == 2 * Pow2(2) by {
      Doubles(2);
    }
    EvenTwos(y);
    if Twos(y) >= 3 {
      Pow2Mono(3, Twos(y));
      ParentNear(y);
    } else if Twos(y) == 2 {
      TwosBelow(y, 1);
      SkipOdd(y - 1);
    } else {
      SkipOdd(y - 1);
    }
  }

  lemma {:induction false} FromOdd(x: nat, t: nat, l: nat)
    requires 1 < x < Pow2(l) && x % 2 == 1 && t <= x
    ensures Twos(x - 1) < l && Steps(x, t) <= (l - Twos(x - 1)) + 2 + Within(l)
    decreases x
  {
    hide Pow2, Twos, GetSkipHeight, Within;
    var y := x - 1;
    TwosSmall(y, l);
    if t < x {
      OneStep(x, t);
      if GetSkipHeight(x) >= t {
        OddSkips(x, t);
        if GetSkipHeight(x) > 1 {
          FromOdd(GetSkipHeight(x), t, l);
        } else if t == 0 {
          OneStep(1, 0);
        }
      } else if Clear(y) <= t {
        WholeDescent(y, t, l);
      } else {
        UsesPointer(y, t);
        OneStep(y, t);
        WholeDescent(Clear(y), t, l);
      }
    }
  }

  /** From an odd height the walk uses a pointer that does not lead too far; the next height has more trailing bits. */
  lemma {:induction false} OddSkips(x: nat, t: nat)
    requires x > 1 && x % 2 == 1 && t <= GetSkipHeight(x)
    ensures NextHeight(x, t) == GetSkipHeight(x)
    ensures var s := GetSkipHeight(x); s % 2 == 1 && (s > 1 ==> Twos(s - 1) > Twos(x - 1))
  {
    hide Pow2, GetSkipHeight;
    var y := x - 1;
    SkipOdd(x);
    SkipEven(y);
    if Clear(y) > 0 {
      TwosCleared(y);
      var z := Clear(y);
      EvenTwos(y);
      EvenTwos(z);
      if Clear(z) > 0 {
        TwosCleared(z);
        EvenTwos(Clear(z));
      }
    }
  }

  lemma {:induction false} FromEven(n: nat, t: nat, l: nat)
    requires 0 < n < Pow2(l) && n % 2 == 0 && t <= n
    ensures Twos(n) < l && Steps(n, t) <= (l - Twos(n)) + l + 3 + Within(l)
    decreases n
  {
    hide Pow2, Twos, GetSkipHeight, Within;
    TwosSmall(n, l);
    if Clear(n) <= t {
      WholeDescent(n, t, l);
    } else {
      OneStep(n, t);
      SkipEven(n);
      EvenTwos(n);
      Doubles(Twos(n));
      if NextHeight(n, t) == n - 1 {
        FromOdd(n - 1, t, l);
      } else {
        TwosCleared(n);
        EvenTwos(Clear(n));
        FromEven(Clear(n), t, l);
      }
    }
  }

  ghost function StepLimit(l: nat): nat { (l + 3) * (l + 3) }

  lemma {:induction false} Enough(l: nat)
    ensures 2 * l + 4 + Within(l) <= StepLimit(l)
  {
    if l > 0 {
      Enough(l - 1);
      assert (l + 3) * (l + 3) == (l + 2) * (l + 2) + 2 * l + 5;
    }
  }

  /** A walk along skip pointers from a height below 2^l to any lower height takes at most (l + 3)^2 steps. */
  lemma WalkBound(h: nat, t: nat, l: nat)
    requires t <= h < Pow2(l)
    ensures Steps(h, t) <= StepLimit(l)
  {
    hide Pow2, Twos, GetSkipHeight, Within, StepLimit;
    Enough(l);
    if h % 2 == 0 && h > 0 {
      FromEven(h, t, l);
    } else if h > 1 {
      FromOdd(h, t, l);
    } else if h > t {
      OneStep(h, t);
    }
  }
}
