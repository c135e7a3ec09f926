// Header chains as the headers sync protocol sees them (src/headerssync.h, src/headerssync.cpp).
module HeaderChains {

  datatype Header = Header(version: int, prev: nat, merkleRoot: nat, time: nat, bits: nat, nonce: nat)

  /** A header without its hashPrevBlock. */
  datatype Compressed = Compressed(version: int, merkleRoot: nat, time: nat, bits: nat, nonce: nat)

  function Compress(h: Header): Compressed { Compressed(h.version, h.merkleRoot, h.time, h.bits, h.nonce) }

  function GetFullHeader(c: Compressed,
      prev: nat): Header { Header(c.version, prev, c.merkleRoot, c.time, c.bits, c.nonce) }

  const HEADER_COMMITMENT_PERIOD: nat := 632
  const REDOWNLOAD_BUFFER_SIZE: nat := 15009
  const TWO_256: nat := 0x1_0000000000000000_0000000000000000_0000000000000000_0000000000000000

  /** What a sync is about: the header hash, the salted commitment bit, the difficulty rule and the work
      of a header are functions this protocol only calls. */
  datatype Params = Params(
    hash: Header -> nat, bit: nat -> bool, permitted: (int, nat, nat) -> bool, proof: nat -> nat,
    start: Header, startHeight: nat, startWork: nat, minWork: nat, offset: nat, maxCommitments: nat)

  /** The header before position `i` of a chain that builds on the start. */
  ghost function Before(p: Params, hs: seq<Header>, i: nat): Header
    requires i <= |hs|
  {
    if i == 0 then p.start else hs[i - 1]
  }

  ghost predicate Connects(p: Params, hs: seq<Header>, i: nat)
    requires i < |hs|
  {
    hs[i].prev == p.hash(Before(p, hs, i))
  }

  /** Each header names the one before it, and its difficulty is a permitted step from that one's. */
  ghost predicate IsChain(p: Params, hs: seq<Header>) {
    && (forall i {:trigger Connects(p, hs, i)} :: 0 <= i < |hs| ==> Connects(p, hs, i))
    && (forall i {:trigger hs[i]} :: 0 <= i < |hs| ==> Allowed(p, hs, i))
  }

  ghost predicate Allowed(p: Params, hs: seq<Header>, i: nat)
    requires i < |hs|
  {
    p.permitted(p.startHeight + i + 1, Before(p, hs, i).bits, hs[i].bits)
  }

  /** What the caller has checked about a message: its headers follow one another. */
  predicate Continuous(p: Params, hs: seq<Header>) {
    forall i {:trigger hs[i]} :: 0 < i < |hs| ==> hs[i].prev == p.hash(hs[i - 1])
  }

  function Wrap(n: nat): nat { n % TWO_256 }

  /** The accumulated work, as a 256-bit sum. */
  ghost function Work(p: Params, hs: seq<Header>): nat {
    if hs == [] then p.startWork else Wrap(Work(p, hs[..|hs| - 1]) + p.proof(hs[|hs| - 1].bits))
  }

  /** The work threshold was met at some header. */
  ghost predicate Crossed(p: Params, hs: seq<Header>) {
    hs != [] && (Work(p, hs) >= p.minWork || Crossed(p, hs[..|hs| - 1]))
  }

  predicate CommitsAt(p: Params, height: nat) { height % HEADER_COMMITMENT_PERIOD == p.offset }

  ghost function Bit(p: Params, h: Header): bool { p.bit(p.hash(h)) }

  /** The commitment for a header at a height, if there is one. */
  ghost function CommitFor(p: Params, height: nat, h: Header): seq<bool> {
    if CommitsAt(p, height) then [Bit(p, h)] else []
  }

  /** The commitment bits of a chain, in order. */
  ghost function Commits(p: Params, hs: seq<Header>): seq<bool> {
    if hs == [] then []
    else Commits(p, hs[..|hs| - 1]) + CommitFor(p, p.startHeight + |hs|, hs[|hs| - 1])
  }

  /** The bits that are compared in the second phase: those before the threshold is met. */
  ghost function Checked(p: Params, hs: seq<Header>): seq<bool> {
    if hs == [] then []
    else if Crossed(p, hs) then Checked(p, hs[..|hs| - 1])
    else Commits(p, hs)
  }

  /** How many of the headers from position `i` on carry a commitment. */
  ghost function CommitCount(p: Params, from: nat, to: nat): nat
    requires from <= to
  {
    if from == to then 0 else CommitCount(p, from, to - 1) + if CommitsAt(p, to) then 1 else 0
  }

  // ----- extending a chain by one header

  lemma {:induction false} ChainExtend(p: Params, hs: seq<Header>, h: Header)
    requires IsChain(p, hs) && h.prev == p.hash(Before(p, hs, |hs|))
    requires p.permitted(p.startHeight + |hs| + 1, Before(p, hs, |hs|).bits, h.bits)
    ensures IsChain(p, hs + [h])
  {
    var hs' := hs + [h];
    forall i | 0 <= i < |hs'|
      ensures Connects(p, hs', i) && Allowed(p, hs', i)
    {
      assert Before(p, hs', i) == Before(p, hs, i);
      if i < |hs| {
        assert Connects(p, hs, i) && Allowed(p, hs, i);
      }
    }
  }

  lemma {:induction false} Extend(p: Params, hs: seq<Header>, h: Header)
    ensures Work(p, hs + [h]) == Wrap(Work(p, hs) + p.proof(h.bits))
    ensures Crossed(p, hs + [h]) <==> Crossed(p, hs) || Work(p, hs + [h]) >= p.minWork
    ensures Commits(p, hs + [h]) == Commits(p, hs) + CommitFor(p, p.startHeight + |hs| + 1, h)
    ensures Checked(p, hs + [h]) == if Crossed(p, hs + [h]) then Checked(p, hs) else Commits(p, hs + [h])
  {
    hide Wrap, CommitFor;
    assert (hs + [h])[..|hs|] == hs;
  }

  lemma {:induction false} CheckedUncrossed(p: Params, hs: seq<Header>)
    requires !Crossed(p, hs)
    ensures Checked(p, hs) == Commits(p, hs)
  {
  }

  /** Every stretch of 632 heights has one commitment. */
  lemma {:induction false} OnePerPeriod(p: Params, from: nat, k: nat)
    requires p.offset < HEADER_COMMITMENT_PERIOD
    ensures CommitCount(p, from, from + k * HEADER_COMMITMENT_PERIOD) >= k
  {
    if k > 0 {
      OnePerPeriod(p, from, k - 1);
      var mid := from + (k - 1) * HEADER_COMMITMENT_PERIOD;
      var h := NextCommit(p, mid);
      hide CommitsAt;
      CountSplit(p, from, mid, h - 1);
      CountSplit(p, from, h, mid + HEADER_COMMITMENT_PERIOD);
    }
  }

  /** Every period has a height that commits. */
  lemma NextCommit(p: Params, mid: nat) returns (h: nat)
    requires p.offset < HEADER_COMMITMENT_PERIOD
    ensures mid < h <= mid + HEADER_COMMITMENT_PERIOD && CommitsAt(p, h)
  {
    h := mid + 1 + (p.offset - (mid + 1)) % HEADER_COMMITMENT_PERIOD;
  }

  lemma {:induction false} CountSplit(p: Params, from: nat, mid: nat, to: nat)
    requires from <= mid <= to
    ensures CommitCount(p, from, to) == CommitCount(p, from, mid) + CommitCount(p, mid, to)
  {
    if mid < to {
      CountSplit(p, from, mid, to - 1);
    }
  }

  /** The lookahead buffer spans at least 23 commitments. */
  lemma BufferSpans(p: Params, from: nat, to: nat)
    requires p.offset < HEADER_COMMITMENT_PERIOD && from + REDOWNLOAD_BUFFER_SIZE <= to
    ensures CommitCount(p, from, to) >= 23
  {
    OnePerPeriod(p, from, 23);
    CountSplit(p, from, from + 23 * HEADER_COMMITMENT_PERIOD, to);
  }
}
