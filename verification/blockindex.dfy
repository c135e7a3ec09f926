// The block index: parent and skip pointers (class CBlockIndex of src/chain.h, src/chain.cpp). Blocks are
// numbered in the order in which they are added; block 0 is the genesis block.
module BlockIndexes {
  import opened Options
  import opened Powers
  import opened SkipHeights

  datatype Block = Block(prev: Option<nat>, skip: Option<nat>, height: nat)

  // ----- the tree

  /** Parents come first and are one lower; only the genesis block has none. */
  ghost predicate IsTree(blocks: seq<Block>) {
    forall i {:trigger ParentOk(blocks, i)} :: 0 <= i < |blocks| ==> ParentOk(blocks, i)
  }

  ghost predicate ParentOk(blocks: seq<Block>, i: nat)
    requires i < |blocks|
  {
    if i == 0 then blocks[i].prev == None && blocks[i].height == 0
    else blocks[i].prev.Some? && blocks[i].prev.value < i && blocks[i].height == blocks[blocks[i].prev.value].height + 1
  }

  /** The plain parent walk from block `i` to a height. */
  ghost function Walk(blocks: seq<Block>, i: nat, height: nat): (r: nat)
    requires IsTree(blocks) && i < |blocks| && height <= blocks[i].height
    ensures r <= i && r < |blocks| && blocks[r].height == height
  {
    assert ParentOk(blocks, i);
    if blocks[i].height == height then i else Walk(blocks, blocks[i].prev.value, height)
  }

  /** `a` is on the path from `i` to the genesis block. */
  ghost predicate IsAncestor(blocks: seq<Block>, a: nat, i: nat)
    requires IsTree(blocks) && a < |blocks| && i < |blocks|
  {
    blocks[a].height <= blocks[i].height && Walk(blocks, i, blocks[a].height) == a
  }

  lemma {:induction false} WalkOn(blocks: seq<Block>, i: nat, h: nat, g: nat)
    requires IsTree(blocks) && i < |blocks| && g <= h <= blocks[i].height
    ensures Walk(blocks, Walk(blocks, i, h), g) == Walk(blocks, i, g)
    decreases i
  {
    assert ParentOk(blocks, i);
    if blocks[i].height != h {
      WalkOn(blocks, blocks[i].prev.value, h, g);
    }
  }

  /** A skip pointer, once set, leads to the ancestor at the skip height. */
  ghost predicate SkipsOk(blocks: seq<Block>)
    requires IsTree(blocks)
  {
    forall i {:trigger SkipOk(blocks, i)} :: 0 < i < |blocks| ==> SkipOk(blocks, i)
  }

  ghost predicate SkipOk(blocks: seq<Block>, i: nat)
    requires IsTree(blocks) && 0 < i < |blocks|
  {
    assert ParentOk(blocks, i);
    blocks[i].skip.Some? ==> blocks[i].skip.value == Walk(blocks, i, GetSkipHeight(blocks[i].height))
  }

  /** Every block but the genesis block has its skip pointer. */
  ghost predicate Linked(blocks: seq<Block>) {
    forall i :: 0 < i < |blocks| ==> blocks[i].skip.Some?
  }

  /** Skip pointers stay right when only other skip pointers change or blocks are added. */
  lemma SkipKept(blocks: seq<Block>, blocks': seq<Block>, i: nat)
    requires IsTree(blocks) && IsTree(blocks') && 0 < i < |blocks| <= |blocks'|
    requires forall j {:trigger blocks[j]} :: 0 <= j < |blocks| ==>
                blocks'[j].prev == blocks[j].prev && blocks'[j].height == blocks[j].height
    requires blocks'[i].skip.Some? ==>
               assert ParentOk(blocks, i); blocks'[i].skip.value == Walk(blocks, i, GetSkipHeight(blocks[i].height))
    ensures SkipOk(blocks', i)
  {
    assert ParentOk(blocks, i);
    assert blocks'[i].height == blocks[i].height;
    hide GetSkipHeight;
    WalkSame(blocks, blocks', i, GetSkipHeight(blocks[i].height));
  }

  lemma {:induction false} WalkSame(blocks: seq<Block>, blocks': seq<Block>, i: nat, h: nat)
    requires IsTree(blocks) && IsTree(blocks') && i < |blocks| && i < |blocks'| && h <= blocks[i].height
    requires forall j {:trigger blocks[j]} :: 0 <= j <= i ==>
                blocks'[j].prev == blocks[j].prev && blocks'[j].height == blocks[j].height
    ensures Walk(blocks', i, h) == Walk(blocks, i, h)
    decreases i
  {
    assert ParentOk(blocks, i) && ParentOk(blocks', i);
    assert blocks'[i].prev == blocks[i].prev && blocks'[i].height == blocks[i].height;
    if blocks[i].height != h {
      WalkSame(blocks, blocks', blocks[i].prev.value, h);
    }
  }

  class BlockTree {
    var blocks: seq<Block>

    ghost predicate Valid()
      reads this
    {
      IsTree(blocks) && SkipsOk(blocks)
    }

    constructor ()
      ensures Valid() && blocks == []
    {
      blocks := [];
    }

    /** Add a block on top of `prev`, or the genesis block. */
    method AddBlock(prev: Option<nat>) returns (i: nat)
      requires Valid() && (if blocks == [] then prev == None else prev.Some? && prev.value < |blocks|)
      modifies this
      ensures Valid() && i == |old(blocks)|
      ensures blocks == old(blocks) + [Block(prev, None, if prev.Some? then old(blocks)[prev.value].height + 1 else 0)]
    {
      i := |blocks|;
      ghost var before := blocks;
      blocks := blocks + [Block(prev, None, if prev.Some? then blocks[prev.value].height + 1 else 0)];
      forall j | 0 <= j < |blocks|
        ensures ParentOk(blocks, j)
      {
        if j < i {
          assert ParentOk(before, j);
        }
      }
      forall j | 0 < j < |blocks|
        ensures SkipOk(blocks, j)
      {
        if j < i {
          assert SkipOk(before, j);
          SkipKept(before, blocks, j);
        }
      }
    }

    /** The ancestor at a height, following skip pointers where that pays: the same block that the plain
        parent walk finds. Once every block has its pointer, a block below height 2^l is done after (l + 3)^2
        steps at most. */
    method GetAncestor(i: nat, height: int) returns (r: Option<nat>, ghost steps: nat)
      requires Valid() && i < |blocks|
      ensures r == if 0 <= height <= blocks[i].height then Some(Walk(blocks, i, height)) else None
      ensures forall l: nat {:trigger Pow2(l)} ::
                  Linked(blocks) && blocks[i].height < Pow2(l) ==> steps <= StepLimit(l)
    {
      hide GetSkipHeight, Steps, Pow2, StepLimit;
      steps := 0;
      if height > blocks[i].height || height < 0 {
        return None, 0;
      }
      var walk: nat, heightWalk: nat := i, blocks[i].height;
      while heightWalk > height
        invariant walk < |blocks| && heightWalk == blocks[walk].height >= height
        invariant Linked(blocks) ==> steps + Steps(heightWalk, height) == Steps(blocks[i].height, height)
        invariant Walk(blocks, walk, height) == Walk(blocks, i, height)
        decreases heightWalk
      {
        assert ParentOk(blocks, walk) && SkipOk(blocks, walk);
        OneStep(heightWalk, height);
        steps := steps + 1;
        var heightSkip := GetSkipHeight(heightWalk);
        var heightSkipPrev := GetSkipHeight(heightWalk - 1);
        var prev := blocks[walk].prev;
        var parentFirst := heightSkipPrev < heightSkip - 2 && heightSkipPrev >= height;
        if blocks[walk].skip.Some? && (heightSkip == height || (heightSkip > height && !parentFirst)) {
          // SkipOk says where this link leads; the parent's link would not get further.
          WalkOn(blocks, walk, heightSkip, height);
          walk := blocks[walk].skip.value;
          heightWalk := heightSkip;
        } else {
          assert prev.Some?;
          walk := prev.value;
          heightWalk := heightWalk - 1;
        }
      }
      forall l: nat | Linked(blocks) && blocks[i].height < Pow2(l)
        ensures steps <= StepLimit(l)
      {
        WalkBound(blocks[i].height, height, l);
      }
      return Some(walk), steps;
    }

    /** Set the skip pointer of a block. */
    method BuildSkip(i: nat)
      requires Valid() && i < |blocks|
      modifies this
      ensures Valid() && |blocks| == |old(blocks)|
      ensures i > 0 ==>
                var skip := Some(Walk(old(blocks), i, GetSkipHeight(old(blocks)[i].height)));
                blocks == old(blocks)[i := old(blocks)[i].(skip := skip)]
      ensures i == 0 ==> blocks == old(blocks)
    {
      hide GetSkipHeight;
      assert ParentOk(blocks, i);
      if blocks[i].prev.Some? {
        ghost var before := blocks;
        var skip, _ := GetAncestor(blocks[i].prev.value, GetSkipHeight(blocks[i].height));
        blocks := blocks[i := blocks[i].(skip := skip)];
        forall j | 0 <= j < |blocks|
          ensures ParentOk(blocks, j)
        {
          assert ParentOk(before, j);
        }
        forall j | 0 < j < |blocks|
          ensures SkipOk(blocks, j)
        {
          assert SkipOk(before, j);
          SkipKept(before, blocks, j);
        }
      }
    }

    /** The highest block that two blocks both descend from. */
    method LastCommonAncestor(a: nat, b: nat) returns (r: nat)
      requires Valid() && a < |blocks| && b < |blocks|
      ensures r < |blocks| && IsAncestor(blocks, r, a) && IsAncestor(blocks, r, b)
      ensures forall c {:trigger blocks[c]} ::
                  0 <= c < |blocks| && IsAncestor(blocks, c, a) && IsAncestor(blocks, c, b) ==>
                blocks[c].height <= blocks[r].height
    {
      var pa: nat, pb: nat := a, b;
      if blocks[pa].height > blocks[pb].height {
        var up, _ := GetAncestor(pa, blocks[pb].height);
        pa := up.value;
      } else if blocks[pb].height > blocks[pa].height {
        var up, _ := GetAncestor(pb, blocks[pa].height);
        pb := up.value;
      }
      hide Walk, IsTree, SkipsOk;
      while pa != pb
        invariant pa < |blocks| && pb < |blocks| && blocks[pa].height == blocks[pb].height
        invariant blocks[pa].height <= blocks[a].height && blocks[pa].height <= blocks[b].height
        invariant pa == Walk(blocks, a, blocks[pa].height) && pb == Walk(blocks, b, blocks[pb].height)
        invariant forall h {:trigger Walk(blocks, a, h)} ::
                    blocks[pa].height < h <= blocks[a].height && h <= blocks[b].height ==>
                    Walk(blocks, a, h) != Walk(blocks, b, h)
        decreases blocks[pa].height
      {
        OnlyGenesis(blocks, pa, pb);
        ParentOnWalk(blocks, a, pa);
        ParentOnWalk(blocks, b, pb);
        pa, pb := blocks[pa].prev.value, blocks[pb].prev.value;
      }
      r := pa;
      forall c | 0 <= c < |blocks| && IsAncestor(blocks, c, a) && IsAncestor(blocks, c, b)
        ensures blocks[c].height <= blocks[r].height
      {
        assert Walk(blocks, a, blocks[c].height) == Walk(blocks, b, blocks[c].height);
      }
    }
  }

  /** The parent of a block on the path from `i` is the next block on that path. */
  lemma ParentOnWalk(blocks: seq<Block>, i: nat, at: nat)
    requires IsTree(blocks) && i < |blocks| && at < |blocks| && blocks[at].prev.Some? && IsAncestor(blocks, at, i)
    ensures blocks[at].height > 0 && blocks[at].prev.value < |blocks|
             && blocks[blocks[at].prev.value].height == blocks[at].height - 1
             && Walk(blocks, i, blocks[at].height - 1) == blocks[at].prev.value
  {
    assert ParentOk(blocks, at);
    WalkOn(blocks, i, blocks[at].height, blocks[at].height - 1);
  }

  /** There is only one block of height 0. */
  lemma OnlyGenesis(blocks: seq<Block>, a: nat, b: nat)
    requires IsTree(blocks) && a < |blocks| && b < |blocks| && a != b && blocks[a].height == blocks[b].height
    ensures blocks[a].height > 0 && blocks[a].prev.Some? && blocks[b].prev.Some?
  {
    assert ParentOk(blocks, a) && ParentOk(blocks, b);
  }
}
