// The active chain and locators (class CChain of src/chain.h, src/chain.cpp).
module ActiveChains {
  import opened Options
  import opened Powers
  import opened BlockIndexes

  /** `slots[h]` is the ancestor of the last slot's block at height `h`. */
  ghost predicate OnTip(blocks: seq<Block>, slots: seq<Option<nat>>)
    requires IsTree(blocks)
  {
    slots != [] ==>
      && slots[|slots| - 1].Some? && slots[|slots| - 1].value < |blocks|
      && Leads(blocks, slots[|slots| - 1].value, slots, |slots|)
  }

  /** The first `n` slots are the ancestors of `tip`, which has height `n - 1` or more. */
  ghost predicate Leads(blocks: seq<Block>, tip: nat, slots: seq<Option<nat>>, n: nat)
    requires IsTree(blocks) && tip < |blocks| && n <= |slots|
  {
    n <= blocks[tip].height + 1 && forall h {:trigger slots[h]} :: 0 <= h < n ==> slots[h] == Some(Walk(blocks, tip, h))
  }

  /** Blocks may have been added and skip links set; parents and heights stand. */
  ghost predicate SameParents(blocks: seq<Block>, blocks': seq<Block>) {
    && |blocks| <= |blocks'|
    && forall j {:trigger blocks[j]} :: 0 <= j < |blocks| ==>
        blocks'[j].prev == blocks[j].prev && blocks'[j].height == blocks[j].height
  }

  /** Adding blocks to the tree and setting skip links leaves a chain as it is. */
  lemma ChainKept(blocks: seq<Block>, blocks': seq<Block>, slots: seq<Option<nat>>)
    requires IsTree(blocks) && IsTree(blocks') && SameParents(blocks, blocks') && OnTip(blocks, slots)
    ensures OnTip(blocks', slots)
  {
    if slots != [] {
      var tip := slots[|slots| - 1].value;
      forall h | 0 <= h < |slots|
        ensures slots[h] == Some(Walk(blocks', tip, h))
      {
        WalkSame(blocks, blocks', tip, h);
      }
    }
  }

  /** Two chains that agree at a height agree below it. */
  lemma AgreeBelow(blocks: seq<Block>, tip: nat, slots: seq<Option<nat>>, n: nat, b: nat, c: nat)
    requires IsTree(blocks) && tip < |blocks| && b < |blocks| && n <= |slots| && Leads(blocks, tip, slots, n)
    requires c < n && c <= blocks[b].height && slots[c] == Some(Walk(blocks, b, c))
    ensures Leads(blocks, b, slots, c + 1)
  {
    forall g | 0 <= g <= c
      ensures slots[g] == Some(Walk(blocks, b, g))
    {
      WalkOn(blocks, tip, c, g);
      WalkOn(blocks, b, c, g);
    }
  }

  function Resized(slots: seq<Option<nat>>, n: nat): seq<Option<nat>> {
    if |slots| > n then slots[..n] else slots + seq(n - |slots|, _ => None)
  }

  /** Slots from `c` up lead to `block`; those below are as they were. */
  ghost predicate Rewritten(blocks: seq<Block>, block: nat, before: seq<Option<nat>>, slots: seq<Option<nat>>, c: nat)
    requires IsTree(blocks) && block < |blocks| && |slots| == blocks[block].height + 1
  {
    && (forall h {:trigger slots[h]} :: c <= h < |slots| ==> slots[h] == Some(Walk(blocks, block, h)))
    && (forall h {:trigger slots[h]} :: 0 <= h < c && h < |slots| ==>
        slots[h] == if h < |before| then before[h] else None)
  }

  lemma RewriteStep(blocks: seq<Block>, block: nat, before: seq<Option<nat>>, slots: seq<Option<nat>>, c: nat)
    requires IsTree(blocks) && block < |blocks| && |slots| == blocks[block].height + 1 && 0 < c <= |slots|
    requires Rewritten(blocks, block, before, slots, c)
    ensures Rewritten(blocks, block, before, slots[c - 1 := Some(Walk(blocks, block, c - 1))], c - 1)
  {
  }

  lemma WalkPrev(blocks: seq<Block>, block: nat, h: nat)
    requires IsTree(blocks) && block < |blocks| && h <= blocks[block].height
    ensures blocks[Walk(blocks, block, h)].prev == if h == 0 then None else Some(Walk(blocks, block, h - 1))
  {
    var i := Walk(blocks, block, h);
    assert ParentOk(blocks, i);
    if h > 0 {
      WalkOn(blocks, block, h, h - 1);
    }
  }

  class CChain {
    const tree: BlockTree
    var slots: seq<Option<nat>>

    ghost predicate Valid()
      reads this, tree
    {
      tree.Valid() && OnTip(tree.blocks, slots)
    }

    constructor (tree: BlockTree)
      requires tree.Valid()
      ensures Valid() && this.tree == tree && slots == []
    {
      this.tree, slots := tree, [];
    }

    function At(h: int): Option<nat>
      reads this
    {
      if 0 <= h < |slots| then slots[h] else None
    }

    predicate Contains(i: nat)
      requires i < |tree.blocks|
      reads this, tree
    {
      At(tree.blocks[i].height) == Some(i)
    }

    function Height(): int
      reads this
    {
      |slots| - 1
    }

    /** Make `block` the tip, rewriting slots only down to the first one that is right already. */
    method SetTip(block: nat)
      requires Valid() && block < |tree.blocks|
      modifies this
      ensures Valid() && |slots| == tree.blocks[block].height + 1
      ensures forall h {:trigger slots[h]} :: 0 <= h < |slots| ==> slots[h] == Some(Walk(tree.blocks, block, h))
    {
      ghost var blocks, before := tree.blocks, slots;
      var height := tree.blocks[block].height;
      slots := Resized(slots, height + 1);
      var index: Option<nat> := Some(block);
      ghost var c := height + 1;
      while index.Some? && slots[tree.blocks[index.value].height] != index
        invariant 0 <= c <= height + 1 == |slots| && blocks == tree.blocks
        invariant if c == 0 then index == None else index == Some(Walk(blocks, block, c - 1))
        invariant Rewritten(blocks, block, before, slots, c)
        decreases c
        modifies this
      {
        hide Rewritten;
        var i := index.value;
        WalkPrev(blocks, block, c - 1);
        RewriteStep(blocks, block, before, slots, c);
        slots := slots[tree.blocks[i].height := index];
        index := tree.blocks[i].prev;
        c := c - 1;
      }
      if c > 0 {
        var tip := before[|before| - 1].value;
        AgreeBelow(blocks, tip, before, |before|, block, c - 1);
      }
      assert Leads(blocks, block, slots, |slots|);
    }

    /** The highest block of this chain that a block descends from. */
    method FindFork(start: Option<nat>) returns (r: Option<nat>)
      requires Valid() && (start.Some? ==> start.value < |tree.blocks|)
      ensures r.Some? ==>
                && start.Some? && r.value < |tree.blocks| && Contains(r.value)
                    && IsAncestor(tree.blocks, r.value, start.value)
                && forall a :: 0 <= a < |tree.blocks| && IsAncestor(tree.blocks, a, start.value) && Contains(a) ==>
                     tree.blocks[a].height <= tree.blocks[r.value].height
      ensures r.None? && start.Some? ==>
                forall a :: 0 <= a < |tree.blocks| && IsAncestor(tree.blocks, a, start.value) ==> !Contains(a)
    {
      if start.None? {
        return None;
      }
      ghost var b := start.value;
      r := start;
      ghost var top: int := tree.blocks[b].height;
      if tree.blocks[start.value].height > Height() {
        var up, _ := tree.GetAncestor(start.value, Height());
        r := up;
        top := Height();
      }
      hide Walk;
      while r.Some? && !Contains(r.value)
        invariant -1 <= top <= tree.blocks[b].height && top <= Height()
        invariant if top < 0 then r == None else r == Some(Walk(tree.blocks, b, top))
        invariant forall a :: 0 <= a < |tree.blocks| && IsAncestor(tree.blocks, a, b) && Contains(a) ==>
                    tree.blocks[a].height <= top
        decreases top
      {
        var i := r.value;
        WalkPrev(tree.blocks, b, top);
        r := tree.blocks[i].prev;
        top := top - 1;
      }
    }
  }

  // ----- runs

  datatype ChainOp = NewBlock(prev: Option<nat>) | SetSkip(i: nat) | NewTip(i: nat)

  /** Whether the operation names blocks that exist. */
  predicate Possible(blocks: seq<Block>, op: ChainOp) {
    match op
    case NewBlock(prev) => if blocks == [] then prev == None else prev.Some? && prev.value < |blocks|
    case SetSkip(i) => i < |blocks|
    case NewTip(i) => i < |blocks|
  }

  /** The chain holds exactly the ancestors of `tip`. */
  ghost predicate ChainOf(blocks: seq<Block>, slots: seq<Option<nat>>, tip: Option<nat>)
    requires IsTree(blocks)
  {
    match tip
    case None => slots == []
    case Some(t) => t < |blocks| && |slots| == blocks[t].height + 1 && Leads(blocks, t, slots, |slots|)
  }

  lemma TipSlot(blocks: seq<Block>, slots: seq<Option<nat>>, t: nat)
    requires IsTree(blocks) && OnTip(blocks, slots) && ChainOf(blocks, slots, Some(t))
    ensures slots[|slots| - 1] == Some(t)
  {
  }

  /** Whatever is done to the tree and however often the tip moves, the chain holds the ancestors of the
      last tip that was set. */
  method RunChain(ops: seq<ChainOp>) returns (chain: CChain, tip: Option<nat>)
    ensures chain.Valid() && ChainOf(chain.tree.blocks, chain.slots, tip)
  {
    var tree := new BlockTree();
    chain := new CChain(tree);
    tip := None;
    for k := 0 to |ops|
      invariant fresh(tree) && fresh(chain) && chain.tree == tree && chain.Valid()
      invariant ChainOf(tree.blocks, chain.slots, tip)
    {
      if Possible(tree.blocks, ops[k]) {
        tip := ApplyOp(chain, ops[k], tip);
      }
    }
  }

  method ApplyOp(chain: CChain, op: ChainOp, tip: Option<nat>) returns (tip': Option<nat>)
    requires chain.Valid() && ChainOf(chain.tree.blocks, chain.slots, tip) && Possible(chain.tree.blocks, op)
    modifies chain, chain.tree
    ensures chain.Valid() && ChainOf(chain.tree.blocks, chain.slots, tip')
    ensures tip' == if op.NewTip? then Some(op.i) else tip
  {
    tip' := tip;
    ghost var before := chain.tree.blocks;
    if tip.Some? {
      TipSlot(before, chain.slots, tip.value);
    }
    hide Walk;
    match op {
      case NewBlock(prev) =>
        var i := chain.tree.AddBlock(prev);
        ChainKept(before, chain.tree.blocks, chain.slots);
      case SetSkip(i) =>
        chain.tree.BuildSkip(i);
        ChainKept(before, chain.tree.blocks, chain.slots);
      case NewTip(i) =>
        chain.SetTip(i);
        tip' := Some(i);
    }
  }

  // ----- locators

  /** How far below the block a locator is made for its `k`th entry is: one step each at first, then at doubling
      distances. */
  ghost function Back(k: nat): nat { if k <= 11 then k else Pow2(k - 10) + 9 }

  ghost function StepAt(n: nat): nat { if n <= 11 then 1 else Pow2(n - 11) }

  ghost function HeightAt(height: nat, k: nat): nat { if Back(k) < height then height - Back(k) else 0 }

  lemma BackStep(n: nat)
    requires n >= 1
    ensures Back(n - 1) + StepAt(n) == Back(n)
  {
    assert Pow2(0) == 1 && Pow2(1) == 2 * Pow2(0) && Pow2(2) == 2 * Pow2(1);
    if n > 12 {
      assert Pow2(n - 10) == 2 * Pow2(n - 11);
    }
  }

  /** The entries of a locator: ancestors at the heights above, which fall strictly. */
  ghost predicate IsLocator(blocks: seq<Block>, start: nat, have: seq<nat>)
    requires IsTree(blocks) && start < |blocks|
  {
    && have != [] && have[0] == start
    && (forall k {:trigger have[k]} :: 0 <= k < |have| ==>
         && have[k] < |blocks| && IsAncestor(blocks, have[k], start)
         && blocks[have[k]].height == HeightAt(blocks[start].height, k))
    && (forall k :: 0 < k < |have| ==> blocks[have[k]].height < blocks[have[k - 1]].height)
  }

  /** The blocks named in a locator: the ancestors at those heights, just as many as it takes to get down to the
      genesis block, which is as few as the logarithm of the height. */
  method LocatorEntries(tree: BlockTree, index: Option<nat>) returns (have: seq<nat>)
    requires tree.Valid() && (index.Some? ==> index.value < |tree.blocks|)
    ensures index.None? ==> have == []
    ensures index.Some? ==>
              && IsLocator(tree.blocks, index.value, have) && tree.blocks[have[|have| - 1]].height == 0
              && tree.blocks[index.value].height <= Back(|have| - 1)
              && (|have| > 1 ==> Back(|have| - 2) < tree.blocks[index.value].height)
              && (|have| > 12 ==> Pow2(|have| - 12) < tree.blocks[index.value].height)
  {
    have := [];
    if index.None? {
      return;
    }
    var step := 1;
    var i: nat := index.value;
    ghost var start: nat := index.value;
    ghost var blocks := tree.blocks;
    assert IsAncestor(blocks, i, start);
    hide Walk, Pow2, IsLocator, StepAt;
    while true
      invariant i < |blocks| && blocks == tree.blocks && IsAncestor(blocks, i, start)
      invariant step == StepAt(|have| + 1)
      invariant have == [] ==> i == start
      invariant have != [] ==> IsLocator(blocks, start, have) && blocks[i].height < blocks[have[|have| - 1]].height
      invariant have != [] ==> Back(|have| - 1) < blocks[start].height
      invariant blocks[i].height == HeightAt(blocks[start].height, |have|)
      decreases blocks[i].height
    {
      LocatorGrows(blocks, start, have, i);
      have := have + [i];
      if tree.blocks[i].height == 0 {
        break;
      }
      var height := if tree.blocks[i].height > step then tree.blocks[i].height - step else 0;
      var up, _ := tree.GetAncestor(i, height);
      WalkOn(blocks, start, blocks[i].height, height);
      BackStep(|have|);
      StepDoubles(|have|);
      i := up.value;
      if |have| > 10 {
        step := step * 2;
      }
    }
  }

  lemma {:induction false} LocatorGrows(blocks: seq<Block>, start: nat, have: seq<nat>, i: nat)
    requires IsTree(blocks) && start < |blocks| && i < |blocks| && IsAncestor(blocks, i, start)
    requires have == [] ==> i == start
    requires have != [] ==> IsLocator(blocks, start, have) && blocks[i].height < blocks[have[|have| - 1]].height
    requires blocks[i].height == HeightAt(blocks[start].height, |have|)
    ensures IsLocator(blocks, start, have + [i])
  {
    hide IsAncestor, IsTree, HeightAt;
  }

  lemma StepDoubles(n: nat)
    requires n >= 1
    ensures StepAt(n + 1) == if n > 10 then StepAt(n) * 2 else StepAt(n)
  {
    if n == 11 {
      assert Pow2(1) == 2 * Pow2(0);
    }
  }
}
