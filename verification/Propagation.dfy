/** How far a mined block spreads. */
module Propagation {
  import opened Types
  import opened Chain
  import opened Ledger
  import opened Node
  import opened Gossip

  // ---------- a mined block reaches everyone it can ----------

  predicate Has(net: Network, i: nat, chain: seq<Block>, b: Block) {
    i < |net.peers| && net.peers[i].ledger.blocks == chain + [b]
  }

  ghost predicate OnItsWay(net: Network, i: nat) {
    exists m :: m in net.inFlight && m.to == i
  }

  /** Every node is at the common chain, ready to take the block, or has it; only the block is in
      flight, sent by nodes that have it; and whoever subscribes to a node that has it has it too, or
      will be offered it. */
  ghost predicate Spreading(net: Network, chain: seq<Block>, b: Block) {
    && (forall i: nat :: i < |net.peers| ==>
          Has(net, i, chain, b) || (net.peers[i].ledger.blocks == chain && Sound(net.peers[i].ledger)
                                    && !Faults(net.peers[i].ledger, b)))
    && (forall m :: m in net.inFlight ==> m.block == b && (m.from.Some? ==> Has(net, m.from.value, chain, b)))
    && (forall i: nat, v: nat :: Has(net, i, chain, b) && v in net.peers[i].subscribers && v < |net.peers| ==>
          Has(net, v, chain, b) || OnItsWay(net, v))
  }

  lemma {:induction false} BroadcastReaches(subscribers: seq<nat>, self: nat, skip: Option<nat>, block: Block, v: nat)
    requires v in subscribers && skip != Some(v)
    ensures Message(v, Some(self), block) in Broadcast(subscribers, self, skip, block)
  {
    if subscribers[0] != v {
      BroadcastReaches(subscribers[1..], self, skip, block, v);
    }
  }

  lemma {:induction false} BroadcastShape(subscribers: seq<nat>, self: nat, skip: Option<nat>, block: Block, m: Message)
    requires m in Broadcast(subscribers, self, skip, block)
    ensures m.from == Some(self) && m.block == block
  {
    if m !in Broadcast(subscribers[1..], self, skip, block) {
      assert m == Message(subscribers[0], Some(self), block);
    } else {
      BroadcastShape(subscribers[1..], self, skip, block, m);
    }
  }

  lemma TakesNew(s: State, chain: seq<Block>, b: Block)
    requires Sound(s) && s.blocks == chain && Extends(chain, b) && !Faults(s, b)
    ensures Submitted(s, b).outcome == Pass && Submitted(s, b).state.blocks == chain + [b]
  {
    ReceiveSound(s, b);
  }

  lemma IgnoresKnown(s: State, chain: seq<Block>, b: Block)
    requires ValidChain(chain) && Extends(chain, b) && s.blocks == chain + [b]
    ensures Submitted(s, b).outcome != Pass && Submitted(s, b).state == s
  {
    ValidSnoc(chain, b);
    ValidIsAccepted(chain + [b]);
    ChainTimeOrdered(chain + [b]);
    assert s.blocks[|chain|] == b;
    SubmitPushesNew(s, b);
  }

  /** The receiver has the block after the delivery, and sends it on exactly if it is new to it. */
  lemma ReceiverTakes(net: Network, m: Message, chain: seq<Block>, b: Block)
    requires Extends(chain, b) && ValidChain(chain)
    requires Spreading(net, chain, b) && m in net.inFlight && m.to < |net.peers|
    ensures var next := Deliver(net, m);
            && |next.peers| == |net.peers|
            && next.peers[m.to].ledger.blocks == chain + [b]
            && next.peers[m.to].subscribers == net.peers[m.to].subscribers
            && (forall i: nat :: i < |net.peers| && i != m.to ==> next.peers[i] == net.peers[i])
            && next.inFlight == net.inFlight - multiset{m}
                 + (if Has(net, m.to, chain, b) then multiset{}
                    else Broadcast(net.peers[m.to].subscribers, m.to, m.from, b))
  {
    var s := net.peers[m.to].ledger;
    if Has(net, m.to, chain, b) {
      IgnoresKnown(s, chain, b);
    } else {
      TakesNew(s, chain, b);
    }
  }

  lemma StillOnItsWay(net: Network, m: Message, chain: seq<Block>, b: Block, i: nat)
    requires Extends(chain, b) && ValidChain(chain)
    requires Spreading(net, chain, b) && m in net.inFlight
    requires i < |net.peers| && OnItsWay(net, i)
    ensures Has(Deliver(net, m), i, chain, b) || OnItsWay(Deliver(net, m), i)
  {
    var x :| x in net.inFlight && x.to == i;
    if m.to < |net.peers| {
      ReceiverTakes(net, m, chain, b);
    }
    if i != m.to {
      assert x in Deliver(net, m).inFlight;
    }
  }

  /** What one delivery does, in terms of who has the block and to whom it is on its way. */
  lemma HoldersGrow(net: Network, m: Message, chain: seq<Block>, b: Block)
    requires Extends(chain, b) && ValidChain(chain)
    requires Spreading(net, chain, b) && m in net.inFlight
    ensures |Deliver(net, m).peers| == |net.peers|
    ensures forall i: nat :: Has(net, i, chain, b) ==> Has(Deliver(net, m), i, chain, b)
    ensures forall i: nat :: Has(Deliver(net, m), i, chain, b) ==> Has(net, i, chain, b) || i == m.to
    ensures forall i: nat :: i < |net.peers| && OnItsWay(net, i) ==>
                               Has(Deliver(net, m), i, chain, b) || OnItsWay(Deliver(net, m), i)
  {
    if m.to < |net.peers| {
      ReceiverTakes(net, m, chain, b);
    }
    forall i: nat | i < |net.peers| && OnItsWay(net, i)
      ensures Has(Deliver(net, m), i, chain, b) || OnItsWay(Deliver(net, m), i)
    {
      StillOnItsWay(net, m, chain, b, i);
    }
  }

  lemma OnlyTheBlockTravels(net: Network, m: Message, chain: seq<Block>, b: Block)
    requires Extends(chain, b) && ValidChain(chain)
    requires Spreading(net, chain, b) && m in net.inFlight
    ensures forall x :: x in Deliver(net, m).inFlight ==>
                          x.block == b && (x.from.Some? ==> Has(Deliver(net, m), x.from.value, chain, b))
  {
    var next := Deliver(net, m);
    HoldersGrow(net, m, chain, b);
    if m.to < |net.peers| {
      ReceiverTakes(net, m, chain, b);
    }
    forall x | x in next.inFlight
      ensures x.block == b && (x.from.Some? ==> Has(next, x.from.value, chain, b))
    {
      if x !in net.inFlight {
        BroadcastShape(net.peers[m.to].subscribers, m.to, m.from, b, x);
      }
    }
  }

  lemma NewHolderOffers(net: Network, m: Message, chain: seq<Block>, b: Block, v: nat)
    requires Extends(chain, b) && ValidChain(chain)
    requires Spreading(net, chain, b) && m in net.inFlight && m.to < |net.peers|
    requires !Has(net, m.to, chain, b) && v in net.peers[m.to].subscribers && v < |net.peers|
    ensures Has(Deliver(net, m), v, chain, b) || OnItsWay(Deliver(net, m), v)
  {
    ReceiverTakes(net, m, chain, b);
    if m.from == Some(v) {
      HoldersGrow(net, m, chain, b);
    } else {
      BroadcastReaches(net.peers[m.to].subscribers, m.to, m.from, b, v);
      assert Message(v, Some(m.to), b) in Deliver(net, m).inFlight;
    }
  }

  lemma SubscribersKept(net: Network, m: Message, chain: seq<Block>, b: Block)
    requires Extends(chain, b) && ValidChain(chain)
    requires Spreading(net, chain, b) && m in net.inFlight
    ensures |Deliver(net, m).peers| == |net.peers|
    ensures forall i: nat :: i < |net.peers| ==> Deliver(net, m).peers[i].subscribers == net.peers[i].subscribers
    ensures forall i: nat :: i < |net.peers| ==>
                               Has(Deliver(net, m), i, chain, b) || Deliver(net, m).peers[i] == net.peers[i]
  {
    if m.to < |net.peers| {
      ReceiverTakes(net, m, chain, b);
    }
  }

  lemma SubscriberServed(net: Network, m: Message, chain: seq<Block>, b: Block, i: nat, v: nat)
    requires Extends(chain, b) && ValidChain(chain)
    requires Spreading(net, chain, b) && m in net.inFlight && i < |net.peers| && v < |net.peers|
    requires Has(Deliver(net, m), i, chain, b) && v in net.peers[i].subscribers
    ensures Has(Deliver(net, m), v, chain, b) || OnItsWay(Deliver(net, m), v)
  {
    HoldersGrow(net, m, chain, b);
    if !Has(net, i, chain, b) {
      NewHolderOffers(net, m, chain, b, v);
    }
  }

  lemma SpreadingStep(net: Network, m: Message, chain: seq<Block>, b: Block)
    requires Extends(chain, b) && ValidChain(chain)
    requires Spreading(net, chain, b) && m in net.inFlight
    ensures Spreading(Deliver(net, m), chain, b)
    ensures forall i: nat :: i < |net.peers| ==> Deliver(net, m).peers[i].subscribers == net.peers[i].subscribers
  {
    var next := Deliver(net, m);
    SubscribersKept(net, m, chain, b);
    OnlyTheBlockTravels(net, m, chain, b);
    forall i: nat, v: nat | Has(next, i, chain, b) && v in next.peers[i].subscribers && v < |next.peers|
      ensures Has(next, v, chain, b) || OnItsWay(next, v)
    {
      SubscriberServed(net, m, chain, b, i, v);
    }
  }

  /** The network after the deliveries. */
  function Delivered(net: Network, ms: seq<Message>): Network
    requires Deliverable(net, ms)
    decreases |ms|
  {
    if ms == [] then net else Delivered(Deliver(net, ms[0]), ms[1..])
  }

  lemma {:induction false} SpreadingKept(net: Network, ms: seq<Message>, chain: seq<Block>, b: Block, start: nat)
    requires Extends(chain, b) && ValidChain(chain)
    requires Spreading(net, chain, b) && Deliverable(net, ms)
    requires start < |net.peers| && (Has(net, start, chain, b) || OnItsWay(net, start))
    ensures var end := Delivered(net, ms);
            && Spreading(end, chain, b)
            && (Has(end, start, chain, b) || OnItsWay(end, start))
            && |end.peers| == |net.peers|
            && (forall i :: 0 <= i < |net.peers| ==> end.peers[i].subscribers == net.peers[i].subscribers)
    decreases |ms|
  {
    if ms != [] {
      SpreadingStep(net, ms[0], chain, b);
      HoldersGrow(net, ms[0], chain, b);
      SpreadingKept(Deliver(net, ms[0]), ms[1..], chain, b, start);
    }
  }

  /** A chain of subscriptions: each node on the path subscribes to the one before it. */
  ghost predicate Path(net: Network, path: seq<nat>) {
    && path != []
    && (forall k :: 0 <= k < |path| ==> path[k] < |net.peers|)
    && (forall k :: 0 < k < |path| ==> path[k] in net.peers[path[k - 1]].subscribers)
  }

  lemma SubscriberHas(net: Network, i: nat, v: nat, chain: seq<Block>, b: Block)
    requires Spreading(net, chain, b) && net.inFlight == multiset{}
    requires Has(net, i, chain, b) && v in net.peers[i].subscribers && v < |net.peers|
    ensures Has(net, v, chain, b)
  {
    assert !OnItsWay(net, v);
  }

  lemma {:induction false} PathHas(net: Network, path: seq<nat>, k: nat, chain: seq<Block>, b: Block)
    requires Spreading(net, chain, b) && net.inFlight == multiset{}
    requires Path(net, path) && Has(net, path[0], chain, b) && k < |path|
    ensures Has(net, path[k], chain, b)
    decreases k
  {
    if k > 0 {
      PathHas(net, path, k - 1, chain, b);
      SubscriberHas(net, path[k - 1], path[k], chain, b);
    }
  }

  /** A block mined on a chain all nodes share, and submitted to one of them, is in the chain of every
      node connected to it by subscriptions once no message is left, whatever the schedule. */
  lemma MinedBlockReachesAll(net: Network, ms: seq<Message>, chain: seq<Block>, b: Block, path: seq<nat>)
    requires Extends(chain, b)
    requires forall i :: 0 <= i < |net.peers| ==>
                           Sound(net.peers[i].ledger) && net.peers[i].ledger.blocks == chain
                           && !Faults(net.peers[i].ledger, b)
    requires Path(net, path) && net.inFlight == multiset{Message(path[0], None, b)}
    requires Deliverable(net, ms) && Delivered(net, ms).inFlight == multiset{}
    ensures Has(Delivered(net, ms), path[|path| - 1], chain, b)
  {
    assert Sound(net.peers[path[0]].ledger);
    NobodyHasIt(net, chain, b);
    assert Message(path[0], None, b) in net.inFlight;
    SpreadingKept(net, ms, chain, b, path[0]);
    var end := Delivered(net, ms);
    assert !OnItsWay(end, path[0]);
    PathHas(end, path, |path| - 1, chain, b);
  }

  lemma NobodyHasIt(net: Network, chain: seq<Block>, b: Block)
    requires forall i: nat :: i < |net.peers| ==> net.peers[i].ledger.blocks == chain
    ensures forall i: nat :: !Has(net, i, chain, b)
  {
    assert |chain + [b]| == |chain| + 1;
  }
}
