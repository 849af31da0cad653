/** Block gossip between nodes: an accepted block is sent on to every subscriber but its sender. */
module Gossip {
  import opened Types
  import opened Chain
  import opened Ledger
  import opened Replay
  import opened Difficulty

  /** A block on its way to a node; a miner's submission has no sender. */
  datatype Message = Message(to: nat, from: Option<nat>, block: Block)

  datatype Peer = Peer(ledger: State, subscribers: seq<nat>)

  datatype Network = Network(peers: seq<Peer>, inFlight: multiset<Message>)

  /** What a node sends on when it accepts a block. */
  function Broadcast(subscribers: seq<nat>, self: nat, skip: Option<nat>, block: Block): multiset<Message> {
    if subscribers == [] then multiset{}
    else
      (if skip == Some(subscribers[0]) then multiset{} else multiset{Message(subscribers[0], Some(self), block)})
      + Broadcast(subscribers[1..], self, skip, block)
  }

  /** One delivery: the receiver takes the block into its ledger, and sends it on if it was accepted.
      A message to nobody is lost. */
  function Deliver(net: Network, m: Message): Network
    requires m in net.inFlight
  {
    var rest := net.inFlight - multiset{m};
    if m.to >= |net.peers| then net.(inFlight := rest)
    else
      var peer := net.peers[m.to];
      var added := Submitted(peer.ledger, m.block);
      Network(net.peers[m.to := peer.(ledger := added.state)],
              if added.outcome == Pass then rest + Broadcast(peer.subscribers, m.to, m.from, m.block) else rest)
  }

  /** Each subscriber but the originator is sent the block, once for each subscription, and nobody else
      anything. */
  lemma {:induction false} BroadcastExactly(
    subscribers: seq<nat>, self: nat, skip: Option<nat>, block: Block, m: Message)
    ensures Broadcast(subscribers, self, skip, block)[m]
         == if m.from == Some(self) && m.block == block && skip != Some(m.to) then multiset(subscribers)[m.to] else 0
    ensures m in Broadcast(subscribers, self, skip, block) <==>
              m.to in subscribers && skip != Some(m.to) && m.from == Some(self) && m.block == block
    decreases |subscribers|
  {
    if subscribers != [] {
      BroadcastExactly(subscribers[1..], self, skip, block, m);
      assert subscribers == [subscribers[0]] + subscribers[1..];
      assert m == Message(m.to, m.from, m.block);
    }
  }

  /** What one delivery to a node puts in flight, takes out and changes: an accepted block goes on to the
      receiver's subscribers other than the node it came from, and only the receiver's ledger changes. */
  lemma DeliverExactly(net: Network, m: Message, x: Message, i: nat)
    requires m in net.inFlight && m.to < |net.peers| && i < |net.peers|
    ensures var after, peer := Deliver(net, m), net.peers[m.to];
            var sent := Submitted(peer.ledger, m.block).outcome == Pass
                        && x.from == Some(m.to) && x.block == m.block && m.from != Some(x.to);
            && after.inFlight[x] + (if x == m then 1 else 0)
                 == net.inFlight[x] + (if sent then multiset(peer.subscribers)[x.to] else 0)
            && |after.peers| == |net.peers| && after.peers[i].subscribers == net.peers[i].subscribers
            && after.peers[i].ledger
                 == if i == m.to then Submitted(peer.ledger, m.block).state else net.peers[i].ledger
  {
    BroadcastExactly(net.peers[m.to].subscribers, m.to, m.from, m.block, x);
  }

  ghost predicate Ordered(net: Network) {
    forall i :: 0 <= i < |net.peers| ==> TimeOrdered(net.peers[i].ledger.blocks)
  }

  // ---------- a node takes a block at most once ----------

  lemma CheckedLater(s: State, b: Block)
    ensures CheckBlock(s.blocks, Plain(s.utxos), b) == Pass && s.blocks != [] ==>
              b.header.timestamp > Last(s.blocks).header.timestamp
  {
  }

  lemma LaterThanAll(chain: seq<Block>, b: Block)
    requires TimeOrdered(chain)
    requires chain != [] ==> b.header.timestamp > Last(chain).header.timestamp
    ensures TimeOrdered(chain + [b]) && b !in chain
  {
    var n := |chain|;
    forall i | 0 <= i < n
      ensures chain[i].header.timestamp < b.header.timestamp
    {
      if i < n - 1 {
        assert chain[i].header.timestamp < chain[n - 1].header.timestamp;
      }
    }
  }

  /** Whatever the state of its UTXO set, a ledger either stays as it is, or pushes a block it did not
      have, later than all it had. */
  lemma SubmitPushesNew(s: State, b: Block)
    requires TimeOrdered(s.blocks)
    ensures var r := Submitted(s, b);
            && TimeOrdered(r.state.blocks)
            && (r.state == s || (r.state.blocks == s.blocks + [b] && b !in s.blocks))
            && (r.outcome == Pass ==> r.state.blocks == s.blocks + [b] && b !in s.blocks)
  {
    if CheckBlock(s.blocks, Plain(s.utxos), b) == Pass {
      CheckedLater(s, b);
      LaterThanAll(s.blocks, b);
    }
  }

  /** A block a node has is never accepted, and so never sent on, again. */
  lemma TakenAtMostOnce(net: Network, m: Message)
    requires Ordered(net) && m in net.inFlight && m.to < |net.peers|
    requires m.block in net.peers[m.to].ledger.blocks
    ensures Deliver(net, m).peers == net.peers
    ensures Deliver(net, m).inFlight == net.inFlight - multiset{m}
  {
    SubmitPushesNew(net.peers[m.to].ledger, m.block);
    assert net.peers[m.to := net.peers[m.to]] == net.peers;
  }

  // ---------- gossip terminates ----------

  /** The blocks a node does not have yet, each weighing what accepting it can send, and itself. */
  function Pending(peer: Peer, all: set<Block>): nat {
    |all - (set b | b in peer.ledger.blocks)| * (|peer.subscribers| + 1)
  }

  function AllPending(peers: seq<Peer>, all: set<Block>): nat {
    if peers == [] then 0 else Pending(peers[0], all) + AllPending(peers[1..], all)
  }

  function Measure(net: Network, all: set<Block>): nat {
    AllPending(net.peers, all) + |net.inFlight|
  }

  ghost predicate Circulating(net: Network, all: set<Block>) {
    forall m :: m in net.inFlight ==> m.block in all
  }

  lemma {:induction false} BroadcastBounded(subscribers: seq<nat>, self: nat, skip: Option<nat>, block: Block)
    ensures var sent := Broadcast(subscribers, self, skip, block);
            |sent| <= |subscribers| && forall m :: m in sent ==> m.block == block
  {
    if subscribers != [] {
      BroadcastBounded(subscribers[1..], self, skip, block);
    }
  }

  lemma {:induction false} AllPendingUpdated(peers: seq<Peer>, i: nat, peer: Peer, all: set<Block>)
    requires i < |peers|
    ensures AllPending(peers[i := peer], all) + Pending(peers[i], all) == AllPending(peers, all) + Pending(peer, all)
    decreases |peers|
  {
    if i > 0 {
      assert peers[i := peer][1..] == peers[1..][i - 1 := peer];
      AllPendingUpdated(peers[1..], i - 1, peer, all);
    } else {
      assert peers[0 := peer][1..] == peers[1..];
    }
  }

  lemma OneLessMissing(blocks: seq<Block>, b: Block, all: set<Block>)
    requires b in all && b !in blocks
    ensures |all - (set c | c in blocks)| == |all - (set c | c in blocks + [b])| + 1
  {
    var had, has := set c | c in blocks, set c | c in blocks + [b];
    assert has == had + {b};
    assert all - has == (all - had) - {b};
  }

  lemma OneMore(n: nat, weight: nat)
    ensures (n + 1) * weight == n * weight + weight
  {
  }

  /** Taking in a new block lowers what is pending at a node by what it may send on, and one. */
  lemma PendingDrops(peer: Peer, b: Block, after: State, all: set<Block>)
    requires b in all && b !in peer.ledger.blocks && after.blocks == peer.ledger.blocks + [b]
    ensures Pending(peer.(ledger := after), all) + |peer.subscribers| + 1 == Pending(peer, all)
  {
    OneLessMissing(peer.ledger.blocks, b, all);
    OneMore(|all - (set c | c in after.blocks)|, |peer.subscribers| + 1);
  }

  lemma SameBlocksSamePending(peer: Peer, after: State, all: set<Block>)
    requires after.blocks == peer.ledger.blocks
    ensures Pending(peer.(ledger := after), all) == Pending(peer, all)
  {
  }

  /** What a node takes in leaves no more pending, and less by what it sends on. */
  lemma ReceiverPending(peer: Peer, b: Block, all: set<Block>)
    requires TimeOrdered(peer.ledger.blocks) && b in all
    ensures var added := Submitted(peer.ledger, b);
            Pending(peer.(ledger := added.state), all)
              + (if added.outcome == Pass then |peer.subscribers| + 1 else 0) <= Pending(peer, all)
  {
    var added := Submitted(peer.ledger, b);
    SubmitPushesNew(peer.ledger, b);
    if added.state.blocks != peer.ledger.blocks {
      PendingDrops(peer, b, added.state, all);
    } else {
      SameBlocksSamePending(peer, added.state, all);
    }
  }

  lemma DeliveryOrdered(net: Network, m: Message, all: set<Block>)
    requires Ordered(net) && Circulating(net, all) && m in net.inFlight
    ensures Ordered(Deliver(net, m)) && Circulating(Deliver(net, m), all)
  {
    if m.to < |net.peers| {
      SubmitPushesNew(net.peers[m.to].ledger, m.block);
      BroadcastBounded(net.peers[m.to].subscribers, m.to, m.from, m.block);
    }
  }

  /** Every delivery lowers the measure, whether the block is accepted, rejected or lost. */
  lemma DeliveryDecreases(net: Network, m: Message, all: set<Block>)
    requires Ordered(net) && Circulating(net, all) && m in net.inFlight
    ensures Ordered(Deliver(net, m)) && Circulating(Deliver(net, m), all)
    ensures Measure(Deliver(net, m), all) < Measure(net, all)
  {
    DeliveryOrdered(net, m, all);
    if m.to < |net.peers| {
      var peer := net.peers[m.to];
      ReceiverPending(peer, m.block, all);
      AllPendingUpdated(net.peers, m.to, peer.(ledger := Submitted(peer.ledger, m.block).state), all);
      BroadcastBounded(peer.subscribers, m.to, m.from, m.block);
    }
  }

  /** The deliveries are possible one after the other. */
  ghost predicate Deliverable(net: Network, ms: seq<Message>)
    decreases |ms|
  {
    ms == [] || (ms[0] in net.inFlight && Deliverable(Deliver(net, ms[0]), ms[1..]))
  }

  /** However the messages are scheduled, no run of deliveries is longer than the initial measure;
      messages in flight at the start include every block miners will ever submit. */
  lemma {:induction false} GossipTerminates(net: Network, ms: seq<Message>, all: set<Block>)
    requires Ordered(net) && Circulating(net, all) && Deliverable(net, ms)
    ensures |ms| <= Measure(net, all)
    decreases |ms|
  {
    if ms != [] {
      DeliveryDecreases(net, ms[0], all);
      GossipTerminates(Deliver(net, ms[0]), ms[1..], all);
    }
  }
}
