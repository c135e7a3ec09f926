// Any sequence of operations on a stack of coin caches behaves like one plain map of coins.
module CoinRuns {
  import opened Coins
  import opened CoinStacks

  /** Operations of the top cache, and upkeep of any cache by its number. */
  datatype Op =
    | Add(o: OutPoint, coin: Coin, possibleOverwrite: bool)
    | Spend(o: OutPoint)
    | Read(o: OutPoint)
    | ReadAt(k: nat, o: OutPoint)
    | Uncache(k: nat, o: OutPoint)
    | Flush(k: nat)
    | Sync(k: nat)
    | Push

  type Plain = map<OutPoint, Coin>

  function After(m: Plain, op: Op): Plain {
    match op
    case Add(o, coin, _) => if coin.Unspent? && !Unspendable(coin) then m[o := coin] else m
    case Spend(o) => m - {o}
    case _ => m
  }

  /** The coin an operation hands out. */
  function Output(m: Plain, op: Op): Coin {
    match op
    case Spend(o) => DbCoin(m, o)
    case Read(o) => DbCoin(m, o)
    case _ => Spent
  }

  function DepthAfter(depth: nat, op: Op): nat { if op.Push? then depth + 1 else depth }

  /** What the caller of an operation has to respect. */
  predicate Allowed(m: Plain, depth: nat, op: Op) {
    match op
    case Add(o, coin, possibleOverwrite) => depth > 0 && coin.Unspent? && (!possibleOverwrite ==> DbCoin(m, o).Spent?)
    case Spend(_) => depth > 0
    case Read(_) => true
    case ReadAt(k, _) => k <= depth
    case Uncache(k, _) => 0 < k <= depth
    case Flush(k) => 0 < k <= depth
    case Sync(k) => 0 < k <= depth
    case Push => true
  }

  predicate AllAllowed(m: Plain, depth: nat, ops: seq<Op>)
    decreases ops
  {
    ops == [] || (Allowed(m, depth, ops[0]) && AllAllowed(After(m, ops[0]), DepthAfter(depth, ops[0]), ops[1..]))
  }

  function Outputs(m: Plain, ops: seq<Op>): seq<Coin>
    decreases ops
  {
    if ops == [] then [] else [Output(m, ops[0])] + Outputs(After(m, ops[0]), ops[1..])
  }

  /** The top of the stack shows the coins of `m`. */
  ghost predicate Agrees(stack: CoinsStack, m: Plain)
    reads stack
  {
    forall o :: stack.Top(o) == DbCoin(m, o)
  }

  method Step(stack: CoinsStack, op: Op, ghost m: Plain) returns (out: Coin, failed: bool)
    requires stack.Valid() && Agrees(stack, m) && Allowed(m, |stack.caches|, op)
    modifies stack
    ensures stack.Valid() && Agrees(stack, After(m, op)) && |stack.caches| == DepthAfter(|old(stack.caches)|, op)
    ensures out == Output(m, op) && !failed
  {
    out, failed := Spent, false;
    ghost var n := |stack.caches|;
    ghost var db0, caches0 := stack.db, stack.caches;
    match op {
      case Add(o, coin, possibleOverwrite) =>
        assert stack.Top(o) == DbCoin(m, o);
        stack.AddCoin(o, coin, possibleOverwrite);
      case Spend(o) =>
        assert stack.Top(o) == DbCoin(m, o);
        var ok, moveout := stack.SpendCoin(o);
        out := if ok then moveout else Spent;
      case Read(o) =>
        assert stack.Top(o) == DbCoin(m, o);
        var coin := stack.GetCoin(|stack.caches|, o);
        out := if coin.Some? then coin.value else Spent;
        SameTop(db0, caches0, stack, m);
      case ReadAt(k, o) =>
        var coin := stack.GetCoin(k, o);
        SameTop(db0, caches0, stack, m);
      case Uncache(k, o) =>
        stack.Uncache(k, o);
        SameTop(db0, caches0, stack, m);
      case Flush(k) =>
        failed := stack.Flush(k);
        SameTop(db0, caches0, stack, m);
      case Sync(k) =>
        var uncleared;
        failed, uncleared := stack.Sync(k);
        failed := failed || uncleared;
        SameTop(db0, caches0, stack, m);
      case Push =>
        stack.Push();
    }
  }

  lemma SameTop(db: map<OutPoint, Coin>, caches: seq<Cache>, stack: CoinsStack, m: Plain)
    requires |caches| == |stack.caches| && SameView(db, caches, stack.db, stack.caches, |caches|)
    requires forall o :: Visible(db, caches, |caches|, o) == DbCoin(m, o)
    ensures Agrees(stack, m)
  {
    forall o
      ensures stack.Top(o) == DbCoin(m, o)
    {
      assert Visible(db, caches, |caches|, o) == Visible(stack.db, stack.caches, |caches|, o);
    }
  }

  /** For every allowed sequence of operations, on a stack of any depth: no flag error occurs, and every
      coin handed out is the one a plain map would hand out. */
  method Run(stack: CoinsStack, ops: seq<Op>, ghost m0: Plain) returns (outs: seq<Coin>, failed: bool)
    requires stack.Valid() && Agrees(stack, m0) && AllAllowed(m0, |stack.caches|, ops)
    modifies stack
    ensures stack.Valid() && !failed && outs == Outputs(m0, ops)
  {
    outs, failed := [], false;
    ghost var m := m0;
    var i := 0;
    assert ops[0..] == ops;
    while i < |ops|
      invariant 0 <= i <= |ops| && stack.Valid() && Agrees(stack, m) && !failed
      invariant AllAllowed(m, |stack.caches|, ops[i..])
      invariant outs + Outputs(m, ops[i..]) == Outputs(m0, ops)
    {
      hide Agrees, After, Output, Allowed;
      assert ops[i..][1..] == ops[i + 1..] && ops[i..][0] == ops[i];
      var out;
      out, failed := Step(stack, ops[i], m);
      outs := outs + [out];
      m := After(m, ops[i]);
      i := i + 1;
    }
  }
}
