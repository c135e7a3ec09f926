// HeadersSyncState (src/headerssync.cpp): download a peer's headers twice, committing to them the first
// time and releasing them the second time only behind a lookahead buffer.
module HeadersSync {
  import opened HeaderChains
  import opened Sequences

  datatype Phase = PRESYNC | REDOWNLOAD | FINAL

  datatype ProcessingResult = ProcessingResult(headers: seq<Header>, success: bool, requestMore: bool)

  ghost function CompressAll(hs: seq<Header>): seq<Compressed> {
    seq(|hs|, i requires 0 <= i < |hs| => Compress(hs[i]))
  }

  /** The work threshold is not met, and each of the headers `from` to `to` has the whole lookahead
      buffer, with at least 23 commitments that matched, on top of it. */
  ghost predicate WellBuried(p: Params, presync: seq<Header>, redown: seq<Header>, from: nat, to: nat) {
    && Commits(p, redown) <= Commits(p, presync)
    && forall i {:trigger Buried(p, redown, i)} :: from <= i < to ==> Buried(p, redown, i)
  }

  ghost predicate Buried(p: Params, redown: seq<Header>, i: nat) {
    i + 1 + REDOWNLOAD_BUFFER_SIZE <= |redown| && CommitCount(p, p.startHeight + i + 1, p.startHeight + |redown|) >= 23
  }

  /** The chain accepted in the second phase. */
  ghost predicate ChainPart(p: Params, redown: seq<Header>, lastHash: nat, lastHeight: nat, work: nat,
                            processAll: bool) {
    && IsChain(p, redown) && lastHash == p.hash(Before(p, redown, |redown|))
    && lastHeight == p.startHeight + |redown| && work == Work(p, redown) && processAll == Crossed(p, redown)
  }

  /** The buffer holds what is accepted but not released. */
  ghost predicate BufferPart(p: Params, redown: seq<Header>, released: seq<Header>, buffer: seq<Compressed>,
                             firstPrevHash: nat) {
    && released <= redown && buffer == CompressAll(redown[|released|..])
    && firstPrevHash == p.hash(Before(p, redown, |released|))
  }

  /** Header `i` of a message that extends `before` has a permitted difficulty, and its commitment still fits. */
  ghost predicate TakenAt(p: Params, before: seq<Header>, headers: seq<Header>, i: nat)
    requires i < |headers|
  {
    var hs, height := before + headers[..i], p.startHeight + |before| + i + 1;
    && p.permitted(height, Before(p, hs, |hs|).bits, headers[i].bits)
    && (CommitsAt(p, height) ==> |Commits(p, hs)| < p.maxCommitments)
  }

  /** A message that PRESYNC accepts after `before`. */
  ghost predicate TakenAll(p: Params, before: seq<Header>, headers: seq<Header>)
    requires headers != []
  {
    headers[0].prev == p.hash(Before(p, before, |before|)) && forall i :: 0 <= i < |headers| ==>
        TakenAt(p, before, headers, i)
  }

  /** Header `i` of a message that extends `before` in the second phase: it links on, its difficulty is permitted,
      and, if a commitment is due and the threshold has not been met, it matches the next stored one. */
  ghost predicate AgainAt(p: Params, presync: seq<Header>, before: seq<Header>, headers: seq<Header>, i: nat)
    requires i < |headers|
  {
    var hs, h := before + headers[..i], headers[i];
    var height, n := p.startHeight + |hs| + 1, |Commits(p, hs)|;
    && h.prev == p.hash(Before(p, hs, |hs|)) && p.permitted(height, Before(p, hs, |hs|).bits, h.bits)
    && (!Crossed(p, hs + [h]) && CommitsAt(p, height) ==>
          n < |Commits(p, presync)| && Commits(p, presync)[n] == Bit(p, h))
  }

  /** A message that REDOWNLOAD accepts after `before`. */
  ghost predicate AgainAll(p: Params, presync: seq<Header>, before: seq<Header>, headers: seq<Header>) {
    forall i :: 0 <= i < |headers| ==> AgainAt(p, presync, before, headers, i)
  }

  class HeadersSyncState {
    const p: Params
    var state: Phase
    var commitments: seq<bool>
    var currentWork: nat
    var lastHeader: Header
    var currentHeight: nat
    var buffer: seq<Compressed>
    var lastHeight: nat
    var lastHash: nat
    var firstPrevHash: nat
    var redownloadWork: nat
    var processAll: bool

    /** The headers accepted in the first and in the second phase, and those handed out. */
    ghost var presync: seq<Header>
    ghost var redown: seq<Header>
    ghost var released: seq<Header>

    /** During PRESYNC: the fields describe the headers accepted so far. */
    ghost predicate PresyncOk()
      reads this
    {
      && state == PRESYNC && redown == [] && released == [] && !processAll
      && IsChain(p, presync) && lastHeader == Before(p, presync, |presync|)
      && currentHeight == p.startHeight + |presync| && currentWork == Work(p, presync)
      && commitments == Commits(p, presync) && |commitments| <= p.maxCommitments
    }

    /** During REDOWNLOAD: the commitments left are those not yet compared, and the buffer holds what is
        accepted but not released. */
    ghost predicate RedownloadOk()
      reads this
    {
      && state == REDOWNLOAD && IsChain(p, presync) && Crossed(p, presync)
      && ChainPart(p, redown, lastHash, lastHeight, redownloadWork, processAll)
      && Checked(p, redown) + commitments == Commits(p, presync) && |commitments| <= p.maxCommitments
      && BufferPart(p, redown, released, buffer, firstPrevHash)
      && (redown != [] ==> buffer != [])
    }

    /** Between messages. The buffer is bounded, and it is empty only before the first redownloaded header. */
    ghost predicate Valid()
      reads this
    {
      && p.offset < HEADER_COMMITMENT_PERIOD
      && (state == PRESYNC ==> PresyncOk())
      && (state == REDOWNLOAD ==> RedownloadOk() && !processAll && |buffer| <= REDOWNLOAD_BUFFER_SIZE)
    }

    constructor (p: Params)
      requires p.offset < HEADER_COMMITMENT_PERIOD
      ensures Valid() && this.p == p && state == PRESYNC && presync == []
    {
      this.p, state, commitments, currentWork, lastHeader, currentHeight := p, PRESYNC, [], p.startWork, p.start,
          p.startHeight;
      buffer, lastHeight, lastHash, firstPrevHash, redownloadWork, processAll := [], 0, 0, 0, 0, false;
      presync, redown, released := [], [], [];
    }

    method Finalize()
      modifies this
      ensures state == FINAL && presync == old(presync) && redown == old(redown) && released == old(released)
      ensures commitments == [] && buffer == []
    {
      commitments, buffer, lastHash, firstPrevHash, processAll, currentHeight := [], [], 0, 0, false, 0;
      lastHeader := Header(0, 0, 0, 0, 0, 0);
      state := FINAL;
    }

    /** PRESYNC accepts the next header. */
    ghost predicate TakesPresync(h: Header)
      reads this
    {
      && p.permitted(currentHeight + 1, lastHeader.bits, h.bits)
      && (CommitsAt(p, currentHeight + 1) ==> |commitments| < p.maxCommitments)
    }

    method ValidateAndProcessSingleHeader(current: Header) returns (ok: bool)
      requires PresyncOk() && current.prev == p.hash(lastHeader)
      modifies this
      ensures ok <==> old(TakesPresync(current))
      ensures ok ==> PresyncOk() && presync == old(presync) + [current] && lastHeader == current
      ensures redown == old(redown) && released == old(released)
    {
      hide Work, Crossed, Commits, Checked, IsChain, Wrap;
      var nextHeight := currentHeight + 1;
      Extend(p, presync, current);
      if !p.permitted(nextHeight, lastHeader.bits, current.bits) {
        return false;
      }
      ChainExtend(p, presync, current);
      if CommitsAt(p, nextHeight) {
        commitments := commitments + [p.bit(p.hash(current))];
        if |commitments| > p.maxCommitments {
          return false;
        }
      }
      currentWork := Wrap(currentWork + p.proof(current.bits));
      lastHeader := current;
      currentHeight := nextHeight;
      presync := presync + [current];
      return true;
    }

    method ValidateAndStoreHeadersCommitments(headers: seq<Header>) returns (ok: bool)
      requires PresyncOk() && headers != [] && Continuous(p, headers)
      modifies this
      ensures redown == [] && released == []
      ensures ok <==> TakenAll(p, old(presync), headers)
      ensures ok ==> presync == old(presync) + headers
      ensures ok ==> if Work(p, presync) >= p.minWork then RedownloadOk() && !processAll else PresyncOk()
    {
      hide PresyncOk, RedownloadOk, TakenAt, Before, Work, Continuous;
      PresyncFacts();
      if headers[0].prev != p.hash(lastHeader) {
        return false;
      }
      ok := ProcessAllHeaders(headers);
      if !ok {
        return;
      }
      PresyncFacts();
      if currentWork >= p.minWork {
        StartRedownload();
      }
    }

    /** Process the headers of a message that connects, until one is refused. */
    method ProcessAllHeaders(headers: seq<Header>) returns (ok: bool)
      requires PresyncOk() && headers != [] && Continuous(p, headers) && headers[0].prev == p.hash(lastHeader)
      modifies this
      ensures redown == [] && released == []
      ensures ok <==> forall i :: 0 <= i < |headers| ==> TakenAt(p, old(presync), headers, i)
      ensures ok ==> PresyncOk() && presync == old(presync) + headers
    {
      hide PresyncOk, RedownloadOk, TakesPresync, TakenAt, Before;
      PresyncFacts();
      ghost var before := presync;
      assert before + headers[..0] == before;
      for i := 0 to |headers|
        invariant PresyncOk() && presync == before + headers[..i]
        invariant forall j :: 0 <= j < i ==> TakenAt(p, before, headers, j)
        invariant i < |headers| ==> headers[i].prev == p.hash(lastHeader)
        invariant redown == [] && released == []
      {
        assert before + headers[..i + 1] == before + headers[..i] + [headers[i]];
        TakesIs(before, headers, i);
        var accepted := ValidateAndProcessSingleHeader(headers[i]);
        if !accepted {
          return false;
        }
      }
      assert headers[..|headers|] == headers;
      return true;
    }

    lemma PresyncFacts()
      requires PresyncOk()
      ensures currentWork == Work(p, presync) && redown == [] && released == []
               && lastHeader == Before(p, presync, |presync|)
    {
    }

    lemma {:induction false} TakesIs(before: seq<Header>, headers: seq<Header>, i: nat)
      requires PresyncOk() && i < |headers| && presync == before + headers[..i]
      ensures TakesPresync(headers[i]) <==> TakenAt(p, before, headers, i)
    {
      hide IsChain, Work, Commits, CommitsAt, Before;
      assert currentHeight + 1 == p.startHeight + |before| + i + 1;
    }

    method StartRedownload()
      requires PresyncOk() && presync != [] && currentWork >= p.minWork
      modifies this
      ensures RedownloadOk() && !processAll && presync == old(presync) && redown == old(redown)
               && released == old(released)
    {
      hide Work, Commits, Checked;
      NothingYet(p);
      MeetsThreshold(p, presync);
      buffer := [];
      lastHeight, firstPrevHash, lastHash := p.startHeight, p.hash(p.start), p.hash(p.start);
      redownloadWork := p.startWork;
      state := REDOWNLOAD;
    }

    /** REDOWNLOAD accepts the next header. */
    ghost predicate TakesRedownload(h: Header)
      reads this
    {
      && h.prev == lastHash
      && p.permitted(lastHeight + 1, Before(p, redown, |redown|).bits, h.bits)
      && (!Crossed(p, redown + [h]) && CommitsAt(p, lastHeight + 1) ==>
          commitments != [] && commitments[0] == Bit(p, h))
    }

    /** Compare a commitment, if there is one at this height and the threshold has not been met. */
    method CheckCommitment(header: Header, nextHeight: nat) returns (ok: bool)
      modifies this`commitments
      ensures var due := !processAll && CommitsAt(p, nextHeight);
              && (ok <==> (due ==> old(commitments) != [] && old(commitments)[0] == Bit(p, header)))
              && (ok ==> old(commitments) == (if due then [Bit(p, header)] else []) + commitments)
    {
      if !processAll && CommitsAt(p, nextHeight) {
        if |commitments| == 0 {
          return false;
        }
        var commitment := p.bit(p.hash(header));
        var expected := commitments[0];
        commitments := commitments[1..];
        if commitment != expected {
          return false;
        }
      }
      return true;
    }

    /** The tests made before anything changes: the link to the last header, and the difficulty. */
    method LinksOn(header: Header) returns (ok: bool)
      requires RedownloadOk()
      ensures ok <==> header.prev == lastHash &&
                      p.permitted(lastHeight + 1, Before(p, redown, |redown|).bits, header.bits)
    {
      hide Work, Crossed, Commits, Checked, IsChain, BufferPart, ChainPart;
      if header.prev != lastHash {
        return false;
      }
      ChainEnds(p, redown, lastHash, lastHeight, redownloadWork, processAll);
      BufferEnds(p, redown, released, buffer, firstPrevHash);
      var previousBits := if buffer != [] then buffer[|buffer| - 1].bits else p.start.bits;
      return p.permitted(lastHeight + 1, previousBits, header.bits);
    }

    method CountWork(header: Header)
      modifies this`redownloadWork, this`processAll
      ensures redownloadWork == Wrap(old(redownloadWork) + p.proof(header.bits))
      ensures processAll == (old(processAll) || redownloadWork >= p.minWork)
    {
      hide Wrap;
      redownloadWork := Wrap(redownloadWork + p.proof(header.bits));
      if redownloadWork >= p.minWork {
        processAll := true;
      }
    }

    /** Store a header that has passed every test. */
    method Store(header: Header)
      requires state == REDOWNLOAD && IsChain(p, presync) && Crossed(p, presync)
      requires ChainPart(p, redown + [header], p.hash(header), lastHeight + 1, redownloadWork, processAll)
      requires Checked(p, redown + [header]) + commitments == Commits(p, presync) && |commitments| <= p.maxCommitments
      requires BufferPart(p, redown, released, buffer, firstPrevHash)
      modifies this`buffer, this`lastHeight, this`lastHash, this`redown
      ensures RedownloadOk() && redown == old(redown) + [header]
    {
      hide Work, Crossed, Commits, Checked, IsChain, BufferPart, ChainPart;
      BufferGrows(p, redown, released, buffer, firstPrevHash, header);
      buffer := buffer + [Compress(header)];
      lastHeight := lastHeight + 1;
      lastHash := p.hash(header);
      redown := redown + [header];
    }

    method ValidateAndStoreRedownloadedHeader(header: Header) returns (ok: bool)
      requires RedownloadOk()
      modifies this
      ensures ok <==> old(TakesRedownload(header))
      ensures ok ==> RedownloadOk() && redown == old(redown) + [header]
      ensures !ok ==> redown == old(redown)
      ensures presync == old(presync) && released == old(released)
    {
      hide Work, Crossed, Commits, Checked, IsChain, Wrap, BufferPart, ChainPart, CommitsAt;
      ChainEnds(p, redown, lastHash, lastHeight, redownloadWork, processAll);
      var fits := LinksOn(header);
      if !fits {
        return false;
      }
      ChainGrows(p, redown, lastHash, lastHeight, redownloadWork, processAll, header);
      CountWork(header);
      var matched := CheckCommitment(header, lastHeight + 1);
      if !matched {
        return false;
      }
      CheckedStep(p, redown, header, old(commitments), commitments, presync);
      Store(header);
      return true;
    }

    /** Release what has a full buffer on top of it, or everything once the threshold is met. */
    method PopHeadersReadyForAcceptance() returns (ret: seq<Header>)
      requires RedownloadOk()
      modifies this`buffer, this`firstPrevHash, this`released
      ensures released == old(released) + ret && BufferPart(p, redown, released, buffer, firstPrevHash)
      ensures if processAll then buffer == [] else |buffer| <= REDOWNLOAD_BUFFER_SIZE
      ensures !processAll && ret != [] ==> |buffer| == REDOWNLOAD_BUFFER_SIZE
      ensures ret == [] ==> buffer == old(buffer)
    {
      hide BufferPart;
      ret := [];
      assert released + [] == released;
      while |buffer| > REDOWNLOAD_BUFFER_SIZE || (|buffer| > 0 && processAll)
        invariant released == old(released) + ret && BufferPart(p, redown, released, buffer, firstPrevHash)
        invariant !processAll && ret != [] ==> |buffer| >= REDOWNLOAD_BUFFER_SIZE
        invariant ret == [] ==> buffer == old(buffer)
        decreases |buffer|
        modifies this`buffer, this`firstPrevHash, this`released
      {
        var h := GetFullHeader(buffer[0], firstPrevHash);
        BufferPops(p, redown, released, buffer, firstPrevHash);
        ret := ret + [h];
        buffer := buffer[1..];
        firstPrevHash := p.hash(h);
        released := released + [h];
      }
    }

    lemma {:induction false} AgainIs(before: seq<Header>, headers: seq<Header>, i: nat)
      requires RedownloadOk() && i < |headers| && redown == before + headers[..i]
      ensures TakesRedownload(headers[i]) <==> AgainAt(p, presync, before, headers, i)
    {
      hide Work, Crossed, Commits, Checked, IsChain, BufferPart, CommitsAt, Before;
      NextCommitment(p, redown, headers[i], commitments, presync);
    }

    method RedownloadAll(received: seq<Header>) returns (ok: bool)
      requires RedownloadOk()
      modifies this
      ensures presync == old(presync) && released == old(released)
      ensures ok ==> RedownloadOk() && redown == old(redown) + received
      ensures !ok ==> released <= redown
      ensures ok <==> AgainAll(p, presync, old(redown), received)
    {
      hide RedownloadOk, TakesRedownload, AgainAt;
      var i := 0;
      while i < |received|
        invariant 0 <= i <= |received| && RedownloadOk() && presync == old(presync) && released == old(released)
        invariant redown == old(redown) + received[..i]
        invariant forall j :: 0 <= j < i ==> AgainAt(p, presync, old(redown), received, j)
        modifies this
      {
        assert received[..i + 1] == received[..i] + [received[i]];
        AgainIs(old(redown), received, i);
        ReleasedPrefix();
        var accepted := ValidateAndStoreRedownloadedHeader(received[i]);
        if !accepted {
          return false;
        }
        i := i + 1;
      }
      assert received[..i] == received;
      return true;
    }

    lemma ReleasedPrefix()
      requires RedownloadOk()
      ensures released <= redown
    {
    }

    /** After an accepted message: either everything is released, or every released header is well buried
        and the buffer is within its bound. */
    ghost predicate ReleasedWell(from: nat)
      reads this
    {
      if Crossed(p, redown) then released == redown && buffer == []
      else
        && RedownloadOk() && |buffer| <= REDOWNLOAD_BUFFER_SIZE
        && WellBuried(p, presync, redown, from, |released|)
    }

    method ReleaseReady() returns (ret: seq<Header>)
      requires RedownloadOk() && redown != [] && p.offset < HEADER_COMMITMENT_PERIOD
      modifies this
      ensures state == old(state) && presync == old(presync) && redown == old(redown)
               && processAll == Crossed(p, redown)
      ensures released == old(released) + ret && released <= redown && ReleasedWell(|old(released)|)
    {
      hide Work, Crossed, Commits, Checked, IsChain;
      ret := PopHeadersReadyForAcceptance();
      if !Crossed(p, redown) {
        BufferSize(p, redown, released, buffer, firstPrevHash);
        CheckedUncrossed(p, redown);
        forall i | |old(released)| <= i < |released|
          ensures Buried(p, redown, i)
        {
          BufferSpans(p, p.startHeight + i + 1, p.startHeight + |redown|);
        }
      } else {
        BufferSize(p, redown, released, buffer, firstPrevHash);
      }
    }

    /** A message in the second phase. */
    method ProcessRedownload(received: seq<Header>, full: bool) returns (r: ProcessingResult)
      requires Valid() && state == REDOWNLOAD && received != []
      modifies this
      ensures presync == old(presync) && released == old(released) + r.headers && released <= redown
      ensures r.success ==> redown == old(redown) + received && ReleasedWell(|old(released)|)
      ensures r.success ==> (r.requestMore <==> !Crossed(p, redown) && full)
      ensures !r.success ==> r.headers == [] && !r.requestMore
      ensures r.success <==> AgainAll(p, presync, old(redown), received)
    {
      hide RedownloadOk, ReleasedWell, Crossed, AgainAll;
      var ok := RedownloadAll(received);
      r := ProcessingResult([], ok, false);
      if ok {
        var headers := ReleaseReady();
        var more := false;
        if |buffer| == 0 && processAll {
        } else if full {
          more := true;
        }
        r := ProcessingResult(headers, true, more);
        EmptyWhenDone(|old(released)|);
      }
    }

    lemma EmptyWhenDone(from: nat)
      requires ReleasedWell(from)
      ensures Crossed(p, redown) ==> buffer == []
    {
      hide Crossed, RedownloadOk, WellBuried;
    }

    lemma RedownloadFacts()
      requires Valid() && state == REDOWNLOAD
      ensures IsChain(p, presync) && Crossed(p, presync) && released <= redown && !Crossed(p, redown)
    {
      ReleasedPrefix();
    }

    /** Process the next message of headers. */
    method ProcessNextHeaders(received: seq<Header>, full: bool) returns (r: ProcessingResult)
      requires Valid() && Continuous(p, received)
      modifies this
      ensures Valid()
      ensures received == [] || old(state) == FINAL ==>
                r == ProcessingResult([], false, false) && state == old(state) && released == old(released)
                    && redown == old(redown) && presync == old(presync)
      ensures received != [] && old(state) != FINAL ==> (state == FINAL <==> !(r.success && r.requestMore))
      ensures released == old(released) + r.headers
      ensures old(state) == PRESYNC && received != [] ==> (r.success <==> TakenAll(p, old(presync), received))
      ensures old(state) == PRESYNC && r.success && received != [] ==>
                presync == old(presync) + received && r.headers == [] && (state == REDOWNLOAD <==>
                    Work(p, presync) >= p.minWork)
      ensures old(state) == REDOWNLOAD ==> state != PRESYNC && presync == old(presync) && released <= redown
      ensures old(state) == REDOWNLOAD && r.success ==>
                && redown == old(redown) + received
                && (r.requestMore <==> !Crossed(p, redown) && full)
                && if Crossed(p, redown) then released == redown else WellBuried(p, presync, redown, |old(released)|,
                    |released|)
      ensures old(state) == REDOWNLOAD && received != [] ==>
                (r.success <==> AgainAll(p, presync, old(redown), received))
      ensures old(state) == PRESYNC && r.success ==> (r.requestMore <==> full || Work(p, presync) >= p.minWork)
      ensures !r.success ==> r.headers == [] && !r.requestMore
    {
      hide AgainAll;
      r := ProcessingResult([], false, false);
      assert released + [] == released;
      if received == [] || state == FINAL {
        return;
      }
      if state == PRESYNC {
        var ok := ValidateAndStoreHeadersCommitments(received);
        r := ProcessingResult([], ok, ok && (full || state == REDOWNLOAD));
      } else {
        r := ProcessRedownload(received, full);
      }
      if !(r.success && r.requestMore) {
        Finalize();
      }
    }
  }

  /** The last buffered header is the last accepted one. */
  lemma BufferEnds(p: Params, redown: seq<Header>, released: seq<Header>, buffer: seq<Compressed>, prev: nat)
    requires BufferPart(p, redown, released, buffer, prev)
    ensures buffer != [] ==> redown != [] && buffer[|buffer| - 1].bits == redown[|redown| - 1].bits
  {
  }

  /** The first buffered header, with the hash kept for it, is the first header not yet released. */
  lemma BufferPops(p: Params, redown: seq<Header>, released: seq<Header>, buffer: seq<Compressed>, prev: nat)
    requires BufferPart(p, redown, released, buffer, prev) && buffer != [] && IsChain(p, redown)
    ensures var h := GetFullHeader(buffer[0], prev);
            BufferPart(p, redown, released + [h], buffer[1..], p.hash(h))
  {
    var n := |released|;
    assert Connects(p, redown, n);
    assert buffer[0] == Compress(redown[n]);
    assert redown[n..][1..] == redown[n + 1..];
    assert released + [redown[n]] == redown[..n + 1];
  }

  lemma PrefixStep(a: seq<Header>, b: seq<Header>, i: nat, whole: seq<Header>)
    requires a + b <= whole && i < |b|
    ensures a + b[..i] + [b[i]] <= whole
  {
    assert a + b[..i] + [b[i]] == (a + b)[..|a| + i + 1];
  }

  lemma HonestHeader(p: Params, presync: seq<Header>, redown: seq<Header>, h: Header)
    requires IsChain(p, presync) && redown + [h] <= presync
    ensures h.prev == p.hash(Before(p, redown, |redown|))
    ensures p.permitted(p.startHeight + |redown| + 1, Before(p, redown, |redown|).bits, h.bits)
  {
    var n := |redown|;
    assert presync[n] == h && Before(p, presync, n) == Before(p, redown, n);
    assert Connects(p, presync, n) && Allowed(p, presync, n);
  }

  /** Before the threshold is met, the next commitment left is the next one stored in the first phase. */
  lemma NextCommitment(p: Params, redown: seq<Header>, h: Header, left: seq<bool>, presync: seq<Header>)
    requires Checked(p, redown) + left == Commits(p, presync)
    ensures var n := |Commits(p, redown)|;
            !Crossed(p, redown + [h]) ==>
            && (left != [] <==> n < |Commits(p, presync)|) && (left != [] ==> left[0] == Commits(p, presync)[n])
  {
    hide Work, Crossed, Commits, Checked;
    Extend(p, redown, h);
    if !Crossed(p, redown + [h]) {
      CheckedUncrossed(p, redown);
    }
  }

  lemma {:induction false} HonestCommitment(p: Params, presync: seq<Header>, redown: seq<Header>, h: Header)
    requires redown + [h] <= presync && CommitsAt(p, p.startHeight + |redown| + 1)
    ensures var n := |Commits(p, redown)|; n < |Commits(p, presync)| && Commits(p, presync)[n] == Bit(p, h)
  {
    hide Work, Crossed, Commits, Checked;
    Extend(p, redown, h);
    CommitsPrefix(p, redown + [h], presync);
  }

  /** What was accepted in the first phase is accepted again. */
  lemma {:induction false} HonestAgain(p: Params, presync: seq<Header>, before: seq<Header>, headers: seq<Header>)
    requires IsChain(p, presync) && before + headers <= presync
    ensures AgainAll(p, presync, before, headers)
  {
    hide Work, Crossed, Commits, Checked, IsChain, CommitsAt;
    forall i | 0 <= i < |headers|
      ensures AgainAt(p, presync, before, headers, i)
    {
      var hs := before + headers[..i];
      PrefixStep(before, headers, i, presync);
      HonestHeader(p, presync, hs, headers[i]);
      if CommitsAt(p, p.startHeight + |hs| + 1) {
        HonestCommitment(p, presync, hs, headers[i]);
      }
    }
  }

  lemma {:induction false} AgainSame(p: Params, presync: seq<Header>, before: seq<Header>, headers: seq<Header>,
                                     more: seq<Header>, i: nat)
    requires i < |headers| && AgainAt(p, presync, before, headers, i)
    ensures AgainAt(p, presync, before, headers + more, i)
  {
    hide Work, Crossed, Commits, CommitsAt, Before;
    assert (headers + more)[..i] == headers[..i];
  }

  lemma {:induction false} AgainBeyond(p: Params, presync: seq<Header>, before: seq<Header>, headers: seq<Header>,
                                       i: nat)
    requires i < |headers| && IsChain(p, before + headers) && Crossed(p, before + headers[..i])
    ensures AgainAt(p, presync, before, headers, i)
  {
    hide Work, Crossed, Commits, CommitsAt;
    var hs, k := before + headers, |before| + i;
    assert Connects(p, hs, k) && Allowed(p, hs, k);
    assert before + headers[..i] == hs[..k] && headers[i] == hs[k];
    Extend(p, before + headers[..i], headers[i]);
  }

  /** Once the threshold is met, a chain that goes on is accepted whatever commitments are left. */
  lemma {:induction false} ExtendedAgain(p: Params, presync: seq<Header>, before: seq<Header>, headers: seq<Header>,
                                         more: seq<Header>)
    requires AgainAll(p, presync, before, headers) && Crossed(p, before + headers)
    requires IsChain(p, before + (headers + more))
    ensures AgainAll(p, presync, before, headers + more)
  {
    hide AgainAt, Crossed, IsChain;
    var all := headers + more;
    forall i | 0 <= i < |all|
      ensures AgainAt(p, presync, before, all, i)
    {
      if i < |headers| {
        AgainSame(p, presync, before, headers, more, i);
      } else {
        assert before + headers <= before + all[..i] by {
          assert all[..i] == headers + more[..i - |headers|];
          assert before + all[..i] == before + headers + more[..i - |headers|];
        }
        CrossedStays(p, before + headers, before + all[..i]);
        AgainBeyond(p, presync, before, all, i);
      }
    }
  }

  lemma {:induction false} CrossedStays(p: Params, hs: seq<Header>, longer: seq<Header>)
    requires Crossed(p, hs) && hs <= longer
    ensures Crossed(p, longer)
    decreases |longer|
  {
    if |hs| < |longer| {
      CrossedStays(p, hs, longer[..|longer| - 1]);
    } else {
      assert hs == longer;
    }
  }

  lemma {:induction false} CommitsPrefix(p: Params, hs: seq<Header>, whole: seq<Header>)
    requires hs <= whole
    ensures Commits(p, hs) <= Commits(p, whole)
    decreases |whole|
  {
    if |hs| < |whole| {
      CommitsPrefix(p, hs, whole[..|whole| - 1]);
    } else {
      assert hs == whole;
    }
  }

  lemma BufferSize(p: Params, redown: seq<Header>, released: seq<Header>, buffer: seq<Compressed>, prev: nat)
    requires BufferPart(p, redown, released, buffer, prev)
    ensures |released| + |buffer| == |redown| && released <= redown && (buffer == [] ==> released == redown)
  {
  }

  lemma ChainEnds(p: Params, redown: seq<Header>, lastHash: nat, lastHeight: nat, work: nat, processAll: bool)
    requires ChainPart(p, redown, lastHash, lastHeight, work, processAll)
    ensures lastHeight == p.startHeight + |redown|
  {
  }

  lemma ChainGrows(p: Params, redown: seq<Header>, lastHash: nat, lastHeight: nat, work: nat, processAll: bool,
                   h: Header)
    requires ChainPart(p, redown, lastHash, lastHeight, work, processAll) && h.prev == lastHash
    requires p.permitted(lastHeight + 1, Before(p, redown, |redown|).bits, h.bits)
    ensures var work' := Wrap(work + p.proof(h.bits));
            && ChainPart(p, redown + [h], p.hash(h), lastHeight + 1, work', processAll || work' >= p.minWork)
            && (Crossed(p, redown + [h]) <==> processAll || work' >= p.minWork)
  {
    hide Work, Crossed, IsChain, Wrap;
    Extend(p, redown, h);
    ChainExtend(p, redown, h);
  }

  lemma BufferGrows(p: Params, redown: seq<Header>, released: seq<Header>, buffer: seq<Compressed>, prev: nat,
                    h: Header)
    requires BufferPart(p, redown, released, buffer, prev)
    ensures BufferPart(p, redown + [h], released, buffer + [Compress(h)], prev)
  {
    assert (redown + [h])[|released|..] == redown[|released|..] + [h];
    assert Before(p, redown + [h], |released|) == Before(p, redown, |released|);
  }

  lemma MeetsThreshold(p: Params, hs: seq<Header>)
    requires hs != [] && Work(p, hs) >= p.minWork
    ensures Crossed(p, hs)
  {
  }

  lemma NothingYet(p: Params)
    ensures IsChain(p, []) && Work(p, []) == p.startWork && !Crossed(p, []) && Checked(p, []) == []
  {
  }

  /** A matching commitment moves from those left to those compared. */
  lemma {:induction false} CheckedStep(p: Params, redown: seq<Header>, h: Header, before: seq<bool>, after: seq<bool>,
                                       presync: seq<Header>)
    requires Checked(p, redown) + before == Commits(p, presync)
    requires before ==
             (if !Crossed(p, redown + [h])
                 && CommitsAt(p, p.startHeight + |redown| + 1) then [Bit(p, h)] else []) + after
    ensures Checked(p, redown + [h]) + after == Commits(p, presync)
  {
    hide Work, Crossed, Commits, Checked, CommitsAt;
    Extend(p, redown, h);
    if !Crossed(p, redown + [h]) {
      CheckedUncrossed(p, redown);
    }
    assert Commits(p, redown) + ([Bit(p, h)] + after) == Commits(p, redown) + [Bit(p, h)] + after;
  }

  // ----- an honest peer

  lemma {:induction false} FlattenPrefix(msgs: seq<seq<Header>>, i: nat)
    requires i <= |msgs|
    ensures Flatten(msgs[..i]) <= Flatten(msgs)
    decreases |msgs|
  {
    if i < |msgs| {
      FlattenSnoc(msgs);
      hide Flatten;
      FlattenPrefix(msgs[..|msgs| - 1], i);
      assert msgs[..|msgs| - 1][..i] == msgs[..i];
    } else {
      assert msgs[..i] == msgs;
    }
  }

  /** A stretch of a chain is continuous. */
  lemma {:induction false} MessageContinuous(p: Params, before: seq<Header>, msg: seq<Header>, whole: seq<Header>)
    requires IsChain(p, whole) && before + msg <= whole
    ensures Continuous(p, msg)
  {
    forall i | 0 < i < |msg|
      ensures msg[i].prev == p.hash(msg[i - 1])
    {
      var k := |before| + i;
      assert Connects(p, whole, k);
      assert whole[k] == (before + msg)[k] == msg[i] && whole[k - 1] == (before + msg)[k - 1] == msg[i - 1];
    }
  }

  lemma NoMessages(msgs: seq<seq<Header>>)
    ensures Flatten(msgs[..0]) == []
  {
    assert msgs[..0] == [];
  }

  lemma {:induction false} NextMessage(msgs: seq<seq<Header>>, i: nat)
    requires i < |msgs|
    ensures Flatten(msgs[..i + 1]) == Flatten(msgs[..i]) + msgs[i] && Flatten(msgs[..i + 1]) <= Flatten(msgs)
    ensures i + 1 == |msgs| ==> Flatten(msgs[..i + 1]) == Flatten(msgs)
  {
    assert msgs[..i + 1][..i] == msgs[..i] && msgs[..|msgs|] == msgs;
    FlattenPrefix(msgs, i + 1);
    FlattenSnoc(msgs[..i + 1]);
  }

  /** A peer that serves the presynced headers again, in any division into messages of which all but the
      last are full: nothing is rejected, and exactly the headers through the message that meets the work
      threshold are released. */
  method ServeAgain(sync: HeadersSyncState, msgs: seq<seq<Header>>) returns (outs: seq<Header>, ghost n: nat)
    requires sync.Valid() && sync.state == REDOWNLOAD && sync.redown == []
    requires Flatten(msgs) == sync.presync && forall m :: m in msgs ==> m != []
    modifies sync
    ensures sync.state == FINAL && 0 < n <= |msgs| && outs == Flatten(msgs[..n])
    ensures Crossed(sync.p, Flatten(msgs[..n])) && !Crossed(sync.p, Flatten(msgs[..n - 1]))
  {
    hide IsChain, Continuous, HeadersSyncState.Valid, WellBuried, Crossed, Commits, Work, Flatten, AgainAll;
    outs, n := [], 0;
    ghost var presync := sync.presync;
    sync.RedownloadFacts();
    NoMessages(msgs);
    var i := 0;
    while sync.state == REDOWNLOAD
      invariant 0 <= i == n <= |msgs| && sync.Valid() && sync.presync == presync && outs == sync.released
      invariant sync.redown == Flatten(msgs[..i]) && sync.state != PRESYNC
      invariant sync.state == REDOWNLOAD ==> i < |msgs| && !Crossed(sync.p, sync.redown)
      invariant sync.state == FINAL ==>
        i > 0 && outs == Flatten(msgs[..i]) && Crossed(sync.p, Flatten(msgs[..i]))
            && !Crossed(sync.p, Flatten(msgs[..i - 1]))
      decreases |msgs| - i
      modifies sync
    {
      assert msgs[i] in msgs;
      NextMessage(msgs, i);
      MessageContinuous(sync.p, Flatten(msgs[..i]), msgs[i], presync);
      HonestAgain(sync.p, presync, Flatten(msgs[..i]), msgs[i]);
      var r := sync.ProcessNextHeaders(msgs[i], i + 1 < |msgs|);
      outs := outs + r.headers;
      i, n := i + 1, n + 1;
    }
  }
}
