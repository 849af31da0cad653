/** Catching up with a peer by downloading the blocks it has beyond the local height. */
module Sync {
  import opened Types
  import opened Replay
  import opened Chain
  import opened Ledger
  import opened Node
  import opened Difficulty
  import Panics
  import Respending
  import Supply

  // ---------- finding the longest chain ----------

  datatype Longest = Longest(peer: nat, ahead: nat)

  /** How many blocks each peer reports beyond the local ones; `None` for a peer that fails to answer.
      The first peer with the largest positive difference is chosen. */
  method FindLongestChainNode(answers: seq<Option<int>>) returns (r: Option<Longest>)
    ensures r == None <==> forall i :: 0 <= i < |answers| && answers[i].Some? ==> answers[i].value <= 0
    ensures r.Some? ==>
              var peer, ahead := r.value.peer, r.value.ahead;
              && ahead > 0 && peer < |answers| && answers[peer] == Some(ahead)
              && (forall i :: 0 <= i < |answers| && answers[i].Some? ==> answers[i].value <= ahead)
              && (forall i :: 0 <= i < peer && answers[i].Some? ==> answers[i].value < ahead)
  {
    var longestPeer, longestCount: int := 0, 0;
    for i := 0 to |answers|
      invariant longestCount >= 0
      invariant forall k :: 0 <= k < i && answers[k].Some? ==> answers[k].value <= longestCount
      invariant longestCount > 0 ==>
                  && 0 <= longestPeer < i && answers[longestPeer] == Some(longestCount)
                  && forall k :: 0 <= k < longestPeer && answers[k].Some? ==> answers[k].value < longestCount
    {
      if answers[i] == None {
        continue;
      }
      if answers[i].value > longestCount {
        longestCount, longestPeer := answers[i].value, i;
      }
    }
    if longestCount == 0 {
      return None;
    }
    return Some(Longest(longestPeer, longestCount));
  }

  // ---------- downloading ----------

  /** What a peer streams for a request: `n` blocks from position `start`, as far as it has them. */
  function Served(chain: seq<Block>, start: nat, n: nat): seq<Block> {
    if start >= |chain| then []
    else if start + n >= |chain| then chain[start..]
    else chain[start..start + n]
  }

  /** What is served: the requested number of blocks, or as many as there are, from `start` on. */
  lemma ServedIs(chain: seq<Block>, start: nat, n: nat)
    ensures var blocks := Served(chain, start, n);
            && |blocks| == (if start >= |chain| then 0 else if |chain| - start < n then |chain| - start else n)
            && forall i :: 0 <= i < |blocks| ==> blocks[i] == chain[start + i]
  {
  }

  /** The ledger after the streamed blocks, stopping at the first that fails. */
  function CaughtUp(s: State, stream: seq<Block>): Added
    decreases |stream|
  {
    if stream == [] then Added(s, Pass)
    else
      var one := Submitted(s, stream[0]);
      if one.outcome.Fail? then one else CaughtUp(one.state, stream[1..])
  }

  /** A download that was refused a block, or panicked on one, has taken in nothing behind it; one that
      was not goes on where it stands. */
  lemma {:induction false} CaughtUpStops(s: State, front: seq<Block>, rest: seq<Block>)
    ensures var first := CaughtUp(s, front);
            CaughtUp(s, front + rest) == if first.outcome == Pass then CaughtUp(first.state, rest) else first
    decreases |front|
  {
    if front == [] {
      assert front + rest == rest;
    } else {
      assert (front + rest)[0] == front[0] && (front + rest)[1..] == front[1..] + rest;
      CaughtUpStops(Submitted(s, front[0]).state, front[1..], rest);
    }
  }

  method FetchMissingBlocks(ledger: Blockchain, stream: seq<Block>) returns (r: Outcome)
    modifies ledger
    ensures Added(ledger.Value(), r) == CaughtUp(old(ledger.Value()), stream)
  {
    for i := 0 to |stream|
      invariant CaughtUp(ledger.Value(), stream[i..]) == CaughtUp(old(ledger.Value()), stream)
    {
      var added := ledger.SubmitBlock(stream[i]);
      if added.Fail? {
        return added;
      }
    }
    return Pass;
  }

  /** What each peer's height answers to the local height. */
  function Answers(height: nat, peers: seq<seq<Block>>): seq<Option<int>> {
    seq(|peers|, i requires 0 <= i < |peers| => Some(|peers[i]| - height))
  }

  /** `synchronize_blockchain` against peers whose chains stay fixed meanwhile. */
  method SynchronizeBlockchain(ledger: Blockchain, peers: seq<seq<Block>>)
      returns (r: Outcome, ghost chosen: Option<Longest>)
    modifies ledger
    ensures chosen == None <==> forall i :: 0 <= i < |peers| ==> |peers[i]| <= |old(ledger.Value()).blocks|
    ensures chosen == None ==> r == Pass && ledger.Value() == old(ledger.Value())
    ensures chosen.Some? ==>
              var have, peer, need := |old(ledger.Value()).blocks|, chosen.value.peer, chosen.value.ahead;
              && peer < |peers| && |peers[peer]| == have + need
              && (forall i :: 0 <= i < |peers| ==> |peers[i]| <= |peers[peer]|)
              && var pulled := CaughtUp(old(ledger.Value()), Served(peers[peer], have, need));
                 Added(ledger.Value(), r)
                   == if pulled.outcome == Pass then RebuiltAndRetargeted(pulled.state) else pulled
  {
    var answers := Answers(ledger.BlockHeight(), peers);
    var longest := FindLongestChainNode(answers);
    assert forall i :: 0 <= i < |peers| ==> answers[i] == Some(|peers[i]| - ledger.BlockHeight());
    chosen := longest;
    if longest == None {
      return Pass, chosen;
    }
    r := FetchMissingBlocks(ledger, Served(peers[longest.value.peer], ledger.BlockHeight(), longest.value.ahead));
    if r == Pass {
      ledger.RebuildUtxoSet();
      r := ledger.TryAdjustTarget();
    }
  }

  // ---------- what a download takes in ----------

  ghost predicate CaughtUpAs(s: State, stream: seq<Block>, r: Added) {
    r == CaughtUp(s, stream)
  }

  /** Taking in the stream results in `r`.  The quantifier over the one possible value, here and in
      `TakenCleanly`, keeps the bodies of `CaughtUp` and `Submitted` out of the proofs that pass these
      predicates along. */
  ghost predicate Results(s: State, stream: seq<Block>, r: Added) {
    forall x :: CaughtUpAs(s, stream, x) ==> r == x
  }

  lemma ResultsMeans(s: State, stream: seq<Block>, r: Added)
    ensures Results(s, stream, r) <==> r == CaughtUp(s, stream)
  {
    assert CaughtUpAs(s, stream, CaughtUp(s, stream));
  }

  /** No retarget panics while the blocks are taken in. */
  ghost predicate TakenCleanly(s: State, stream: seq<Block>)
    decreases |stream|
  {
    stream == [] ||
    (!Faults(s, stream[0]) && forall next :: SubmittedAs(s, stream[0], Added(next, Pass)) ==>
                                               TakenCleanly(next, stream[1..]))
  }

  lemma NothingStreamed(s: State, r: Added)
    ensures Results(s, [], r) <==> r == Added(s, Pass)
  {
    ResultsMeans(s, [], r);
  }

  lemma FirstStreamed(s: State, stream: seq<Block>, r: Added)
    requires stream != []
    ensures var one := Submitted(s, stream[0]);
            Results(s, stream, r) <==> if one.outcome.Fail? then r == one else Results(one.state, stream[1..], r)
  {
    ResultsMeans(s, stream, r);
    ResultsMeans(Submitted(s, stream[0]).state, stream[1..], r);
  }

  /** A ledger whose set is up to date takes in a block exactly if it extends the chain; a rejected one
      changes nothing. */
  lemma TakenIffExtends(s: State, b: Block)
    requires Steady(s) && !Faults(s, b)
    ensures var r := Submitted(s, b);
            && (r.outcome == Pass <==> Extends(s.blocks, b))
            && (r.outcome == Pass ==> Steady(r.state) && r.state.blocks == s.blocks + [b])
            && (r.outcome != Pass ==> r.state == s)
  {
    ExtendsIffPass(s.blocks, b);
    FaultsMeans(s, b);
    ReceiveTracked(s, b);
    if Extends(s.blocks, b) {
      PushedWhenChecked(s, b);
      RebuiltTracked(s, [b]);
    }
  }

  /** The first streamed block: taken in, or the end of it. */
  lemma FirstTaken(s: State, stream: seq<Block>, r: Added) returns (next: State, taken: bool)
    requires Steady(s) && stream != [] && TakenCleanly(s, stream) && Results(s, stream, r)
    ensures taken ==>
              && Steady(next) && next.blocks == s.blocks + [stream[0]] && Extends(s.blocks, stream[0])
              && TakenCleanly(next, stream[1..]) && Results(next, stream[1..], r)
    ensures !taken ==> r.state == s && r.outcome.Fail? && !Extends(s.blocks, stream[0])
  {
    TakenIffExtends(s, stream[0]);
    FirstStreamed(s, stream, r);
    var one := Submitted(s, stream[0]);
    next, taken := one.state, one.outcome == Pass;
    assert taken ==> SubmittedAs(s, stream[0], Added(next, Pass));
  }

  /** Each streamed block extends the chain and the blocks streamed before it. */
  ghost predicate Continues(chain: seq<Block>, stream: seq<Block>)
    decreases |stream|
  {
    stream == [] || (Extends(chain, stream[0]) && Continues(chain + [stream[0]], stream[1..]))
  }

  /** What a download leaves, whichever way it ends: an up-to-date ledger with the blocks of the target
      chain up to the first one that does not extend those before it. */
  ghost predicate LeavesFront(r: Added, target: seq<Block>) {
    && Steady(r.state) && r.state.blocks <= target
    && (r.outcome == Pass <==> r.state.blocks == target)
    && (r.state.blocks != target ==>
          |r.state.blocks| < |target| && !Extends(r.state.blocks, target[|r.state.blocks|]))
  }

  lemma ConsFront(chain: seq<Block>, stream: seq<Block>)
    requires stream != []
    ensures chain + [stream[0]] + stream[1..] == chain + stream
    ensures chain <= chain + stream && (chain + stream)[|chain|] == stream[0] && chain != chain + stream
  {
    assert |chain + stream| > |chain|;
  }

  /** Every streamed block is accepted exactly if each extends those before it.  Then the ledger ends
      with the local chain and the stream, and otherwise with a front of them that the next block does
      not extend. */
  lemma {:induction false} DownloadedIff(s: State, stream: seq<Block>, r: Added)
    requires Steady(s) && TakenCleanly(s, stream) && Results(s, stream, r)
    ensures r.outcome == Pass <==> Continues(s.blocks, stream)
    ensures LeavesFront(r, s.blocks + stream)
    decreases |stream|
  {
    if stream == [] {
      NothingStreamed(s, r);
      assert s.blocks + stream == s.blocks;
    } else {
      ConsFront(s.blocks, stream);
      var next, taken := FirstTaken(s, stream, r);
      if taken {
        DownloadedIff(next, stream[1..], r);
      }
    }
  }

  /** On a valid chain that is to say that the whole is a valid chain. */
  lemma {:induction false} ContinuesValid(chain: seq<Block>, stream: seq<Block>)
    requires ValidChain(chain)
    ensures Continues(chain, stream) <==> ValidChain(chain + stream)
    decreases |stream|
  {
    if stream == [] {
      assert chain + stream == chain;
    } else {
      ConsFront(chain, stream);
      if ValidChain(chain + stream) {
        ValidPrefix(chain + stream, |chain|);
        assert (chain + stream)[..|chain|] == chain;
      }
      if Extends(chain, stream[0]) {
        ValidSnoc(chain, stream[0]);
        ContinuesValid(chain + [stream[0]], stream[1..]);
      }
    }
  }

  /** From height `have` on, no block right behind a retarget height spends what the block before it
      spent. */
  ghost predicate NothingRespentFrom(chain: seq<Block>, have: nat) {
    forall i :: 0 < i < |chain| && have <= i && i % DIFFICULTY_UPDATE_INTERVAL == 0 ==>
                  Respending.Disjoint(chain[i], chain[i - 1])
  }

  lemma {:induction false} ContinuesIffNothingRespent(chain: seq<Block>, stream: seq<Block>)
    requires OutputHashInjective()
    requires AcceptedChain(chain + stream) && Respending.AllCreateNothingTheySpend(chain + stream)
    ensures Continues(chain, stream) <==> NothingRespentFrom(chain + stream, |chain|)
    decreases |stream|
  {
    if stream != [] {
      ConsFront(chain, stream);
      AcceptedPrefix(chain + stream, |chain|);
      assert (chain + stream)[..|chain|] == chain;
      NextContinues(chain, stream);
      ContinuesIffNothingRespent(chain + [stream[0]], stream[1..]);
    }
  }

  /** Whether the next block extends the chain, in terms of what it spends. */
  lemma NextContinues(chain: seq<Block>, stream: seq<Block>)
    requires OutputHashInjective() && stream != []
    requires Accepted(chain, stream[0]) && Respending.AllCreateNothingTheySpend(chain + stream)
    ensures NothingRespentFrom(chain + stream, |chain|) <==>
              Extends(chain, stream[0]) && NothingRespentFrom(chain + stream, |chain| + 1)
  {
    var whole, have := chain + stream, |chain|;
    assert whole[have] == stream[0];
    if AtRetarget(chain) {
      assert whole[have - 1] == Last(chain) && Respending.CreatesNothingItSpends(whole[have - 1]);
      if Extends(chain, stream[0]) {
        Respending.ExtendsDisjoint(chain, stream[0]);
      }
      if Respending.Disjoint(stream[0], Last(chain)) {
        Respending.AcceptedExtends(chain, stream[0]);
      }
    } else {
      Respending.AcceptedExtends(chain, stream[0]);
    }
  }

  // ---------- catching up with a peer ----------

  lemma ServedContinues(chain: seq<Block>, peer: seq<Block>, front: seq<Block>)
    requires chain <= front <= peer
    ensures chain + Served(peer, |chain|, |front| - |chain|) == front
  {
  }

  /** A ledger whose chain is a prefix of a peer's accepts every block the peer serves for its height, up
      to the end of some front of the peer's chain, exactly if each of them extends those before it; on a
      valid local chain, if that front is valid.  Then it ends with the front. */
  lemma CatchesUpIff(s: State, peer: seq<Block>, front: seq<Block>, r: Added)
    requires Steady(s) && s.blocks <= front <= peer
    requires TakenCleanly(s, Served(peer, |s.blocks|, |front| - |s.blocks|))
    requires Results(s, Served(peer, |s.blocks|, |front| - |s.blocks|), r)
    ensures r.outcome == Pass <==> Continues(s.blocks, Served(peer, |s.blocks|, |front| - |s.blocks|))
    ensures ValidChain(s.blocks) ==> (r.outcome == Pass <==> ValidChain(front))
    ensures LeavesFront(r, front)
  {
    ServedContinues(s.blocks, peer, front);
    DownloadedIff(s, Served(peer, |s.blocks|, |front| - |s.blocks|), r);
    if ValidChain(s.blocks) {
      ContinuesValid(s.blocks, Served(peer, |s.blocks|, |front| - |s.blocks|));
    }
  }

  lemma FrontReached(r: Added, target: seq<Block>)
    requires LeavesFront(r, target) && r.outcome == Pass
    ensures Steady(r.state) && r.state.blocks == target && Plain(r.state.utxos) == Unspent(target)
    ensures ValidChain(target) ==> Sound(r.state)
  {
  }

  /** In particular a ledger accepts every block served from a valid front that continues its chain, and
      ends with the peer's blocks up to there and their unspent outputs. */
  lemma PrefixCatchesUp(s: State, peer: seq<Block>, front: seq<Block>, r: Added)
    requires Sound(s) && ValidChain(front) && s.blocks <= front <= peer
    requires TakenCleanly(s, Served(peer, |s.blocks|, |front| - |s.blocks|))
    requires Results(s, Served(peer, |s.blocks|, |front| - |s.blocks|), r)
    ensures r.outcome == Pass && Sound(r.state)
    ensures r.state.blocks == front && Plain(r.state.utxos) == Unspent(front)
  {
    SoundIsTracked(s);
    CatchesUpIff(s, peer, front, r);
    FrontReached(r, front);
  }

  /** Where the local chain and the stream make a chain as a run can leave it, without a hash created
      twice, every streamed block is accepted exactly if none of them spends again what a block right
      before it spent behind a fault. */
  lemma ReachableDownloadedIff(s: State, stream: seq<Block>, r: Added)
    requires OutputHashInjective()
    requires AcceptedChain(s.blocks + stream) && Supply.AllHashesDistinct(s.blocks + stream)
    requires Steady(s) && TakenCleanly(s, stream) && Results(s, stream, r)
    ensures r.outcome == Pass <==> NothingRespentFrom(s.blocks + stream, |s.blocks|)
  {
    DownloadedIff(s, stream, r);
    Respending.DistinctCreatesNothing(s.blocks + stream);
    ContinuesIffNothingRespent(s.blocks, stream);
  }

  /** So a ledger catches up with a front of a reachable peer's chain, accepted like the whole chain
      (`Chain.AcceptedPrefix`), exactly if nothing was respent in the part it lacks; for a valid local
      chain, if nothing was respent in it at all. */
  lemma ReachablePeerCatchesUpIff(s: State, peer: seq<Block>, front: seq<Block>, r: Added)
    requires OutputHashInjective()
    requires AcceptedChain(front) && Supply.AllHashesDistinct(front)
    requires Steady(s) && s.blocks <= front <= peer
    requires TakenCleanly(s, Served(peer, |s.blocks|, |front| - |s.blocks|))
    requires Results(s, Served(peer, |s.blocks|, |front| - |s.blocks|), r)
    ensures r.outcome == Pass <==> NothingRespentFrom(front, |s.blocks|)
    ensures ValidChain(s.blocks) ==> (r.outcome == Pass <==> Respending.NothingRespent(front))
  {
    ServedContinues(s.blocks, peer, front);
    ReachableDownloadedIff(s, Served(peer, |s.blocks|, |front| - |s.blocks|), r);
    CatchesUpIff(s, peer, front, r);
    Respending.SafeIffNothingRespent(front);
  }

  /** Synchronising with a peer whose chain continues the local one takes in everything exactly if each
      missing block extends those before it, and then leaves that chain and its unspent outputs, rebuilt,
      whether or not the retarget that ends it panics. */
  lemma SynchronisesIff(s: State, peer: seq<Block>, pulled: Added)
    requires Steady(s) && s.blocks <= peer
    requires TakenCleanly(s, Served(peer, |s.blocks|, |peer| - |s.blocks|))
    requires Results(s, Served(peer, |s.blocks|, |peer| - |s.blocks|), pulled)
    ensures pulled.outcome == Pass <==> Continues(s.blocks, Served(peer, |s.blocks|, |peer| - |s.blocks|))
    ensures ValidChain(s.blocks) ==> (pulled.outcome == Pass <==> ValidChain(peer))
    ensures Steady(pulled.state) && (pulled.outcome == Pass ==> pulled.state.blocks == peer)
    ensures var after := RebuiltAndRetargeted(pulled.state);
            && (after.outcome == Pass <==> !RetargetPanics(pulled.state))
            && Steady(after.state)
            && (pulled.outcome == Pass ==> after.state.blocks == peer && Plain(after.state.utxos) == Unspent(peer))
  {
    CatchesUpIff(s, peer, peer, pulled);
    LoadedTracked(pulled.state);
  }

  /** In particular it ends with the whole chain of a valid peer. */
  lemma SynchronisedWithLongest(s: State, peer: seq<Block>, pulled: Added)
    requires Sound(s) && ValidChain(peer) && s.blocks <= peer
    requires TakenCleanly(s, Served(peer, |s.blocks|, |peer| - |s.blocks|))
    requires Results(s, Served(peer, |s.blocks|, |peer| - |s.blocks|), pulled)
    ensures var after := RebuiltAndRetargeted(pulled.state);
            && pulled.outcome == Pass
            && (after.outcome == Pass <==> !RetargetPanics(pulled.state))
            && Sound(after.state) && after.state.blocks == peer && Plain(after.state.utxos) == Unspent(peer)
  {
    SoundIsTracked(s);
    SynchronisesIff(s, peer, pulled);
  }

  // ---------- when nothing panics on the way ----------

  lemma TakenOneWithin(s: State, b: Block, from: Timestamp)
    requires Tracked(s) && StampedWithin(s.blocks + [b], from)
    ensures !Faults(s, b)
    ensures Submitted(s, b).outcome == Pass ==>
              Tracked(Submitted(s, b).state) && Submitted(s, b).state.blocks == s.blocks + [b]
  {
    Panics.FaultFreeWithin(s, b, from);
    FaultsMeans(s, b);
    ReceiveTracked(s, b);
    if CheckBlock(s.blocks, Plain(s.utxos), b) == Pass {
      PushedWhenChecked(s, b);
    }
  }

  lemma StampedFirst(chain: seq<Block>, stream: seq<Block>, from: Timestamp)
    requires stream != [] && StampedWithin(chain + stream, from)
    ensures StampedWithin(chain + [stream[0]], from)
    ensures chain + [stream[0]] + stream[1..] == chain + stream
  {
    forall b | b in chain + [stream[0]]
      ensures b in chain + stream
    {
    }
  }

  /** No retarget panics on blocks stamped in one window of 32,768,000 seconds with the local ones. */
  lemma {:induction false} StampedTakenCleanly(s: State, stream: seq<Block>, from: Timestamp)
    requires Tracked(s) && StampedWithin(s.blocks + stream, from)
    ensures TakenCleanly(s, stream)
    decreases |stream|
  {
    if stream != [] {
      StampedFirst(s.blocks, stream, from);
      TakenOneWithin(s, stream[0], from);
      forall next | SubmittedAs(s, stream[0], Added(next, Pass))
        ensures TakenCleanly(next, stream[1..])
      {
        StampedTakenCleanly(next, stream[1..], from);
      }
    }
  }

  /** With a peer whose chain continues the local one and is stamped in such a window, synchronising
      succeeds exactly if each missing block extends those before it, the closing retarget included, and
      then ends with that chain and its unspent outputs. */
  lemma StampedPeerSynchronises(s: State, peer: seq<Block>, from: Timestamp, pulled: Added)
    requires Steady(s) && s.blocks <= peer
    requires StampedWithin(peer, from)
    requires Results(s, Served(peer, |s.blocks|, |peer| - |s.blocks|), pulled)
    ensures pulled.outcome == Pass <==> Continues(s.blocks, Served(peer, |s.blocks|, |peer| - |s.blocks|))
    ensures ValidChain(s.blocks) ==> (pulled.outcome == Pass <==> ValidChain(peer))
    ensures var after := RebuiltAndRetargeted(pulled.state);
            pulled.outcome == Pass ==>
              && after.outcome == Pass
              && Steady(after.state) && after.state.blocks == peer && Plain(after.state.utxos) == Unspent(peer)
  {
    ServedContinues(s.blocks, peer, peer);
    StampedTakenCleanly(s, Served(peer, |s.blocks|, |peer| - |s.blocks|), from);
    SynchronisesIff(s, peer, pulled);
    if pulled.outcome == Pass {
      NoClosingPanic(pulled.state, from);
    }
  }

  lemma NoClosingPanic(s: State, from: Timestamp)
    requires Tracked(s) && StampedWithin(s.blocks, from)
    ensures !RetargetPanics(s)
  {
    ChainTimeOrdered(s.blocks);
    RetargetWithin(s.blocks, s.target, from);
  }

  // ---------- a fork does not ----------

  /** When the headers below the requested height differ, the first downloaded block is rejected and
      the ledger stays as it is. */
  lemma ForkIsRejected(s: State, peer: seq<Block>, n: nat)
    requires HeaderHashInjective()
    requires AcceptedChain(peer)
    requires 0 < |s.blocks| < |peer| && n > 0
    requires peer[|s.blocks| - 1].header != Last(s.blocks).header
    ensures CaughtUp(s, Served(peer, |s.blocks|, n)) == Added(s, Fail(PrevHashMismatch))
  {
    PutOnAnother(peer, |s.blocks|, Last(s.blocks).header);
    WrongParentRejected(s, peer[|s.blocks|]);
  }

  lemma PutOnAnother(peer: seq<Block>, have: nat, tip: BlockHeader)
    requires HeaderHashInjective() && AcceptedChain(peer)
    requires 0 < have < |peer| && peer[have - 1].header != tip
    ensures peer[have].header.prevBlockHash != HashHeader(tip)
  {
    AcceptedPrefix(peer, have);
    var _ := AcceptedHeader(peer[..have], peer[have]);
    assert Last(peer[..have]) == peer[have - 1];
  }

  lemma WrongParentRejected(s: State, b: Block)
    requires s.blocks != [] && b.header.prevBlockHash != HashHeader(Last(s.blocks).header)
    ensures Submitted(s, b) == Added(s, Fail(PrevHashMismatch))
  {
  }

  /** The first downloaded block is accepted exactly if the local chain is a prefix of the peer's. */
  lemma AcceptedExactlyOnPrefix(s: State, peer: seq<Block>)
    requires HeaderHashInjective() && MerkleHashInjective()
    requires Sound(s) && ValidChain(peer)
    requires 0 < |s.blocks| < |peer|
    requires s.blocks[0].transactions == peer[0].transactions && ChainTxsHaveInputs(peer)
    ensures Extends(s.blocks, peer[|s.blocks|]) <==> s.blocks <= peer
  {
    if s.blocks <= peer {
      ValidPrefix(peer, |s.blocks|);
      assert peer[..|s.blocks|] == s.blocks;
    }
    if Extends(s.blocks, peer[|s.blocks|]) {
      SameTipBelow(s.blocks, peer);
      ChainPrefixHasInputs(peer, |s.blocks|);
      SameTipSameHistory(peer[..|s.blocks|], s.blocks);
    }
  }

  lemma ChainPrefixHasInputs(peer: seq<Block>, n: nat)
    requires ChainTxsHaveInputs(peer) && n <= |peer|
    ensures ChainTxsHaveInputs(peer[..n])
  {
  }

  lemma SameTipBelow(chain: seq<Block>, peer: seq<Block>)
    requires ValidChain(chain) && ValidChain(peer)
    requires 0 < |chain| < |peer| && Extends(chain, peer[|chain|])
    ensures AcceptedChain(chain) && AcceptedChain(peer[..|chain|])
    ensures SameTip(peer[..|chain|], chain)
  {
    ValidPrefix(peer, |chain|);
    ValidIsAccepted(chain);
    ValidIsAccepted(peer[..|chain|]);
    ExtendsHeader(peer[..|chain|], peer[|chain|]);
    ExtendsHeader(chain, peer[|chain|]);
  }
}
