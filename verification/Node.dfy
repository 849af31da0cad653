/** A node as a state machine over its ledger and its file, and what holds in every run. */
module Node {
  import opened Types
  import opened Replay
  import opened Chain
  import opened Mempool
  import opened Ledger
  import Difficulty

  datatype Node = Node(ledger: State, file: Option<State>)

  datatype Step =
    | Receive(block: Block)              // a mined, gossiped or downloaded block
    | Pool(tx: Tx, at: Timestamp)        // a submitted or gossiped transaction
    | Expire(now: Timestamp)             // the periodic mempool cleanup
    | SyncRebuild                        // the rebuild after a synchronisation
    | SyncRetarget                       // the retarget after it, under a lock of its own
    | Save                               // the periodic save; the mempool is not serialised
    | Restart                            // a new process, loading the file when there is one

  const FRESH := Node(EMPTY, None)

  /** A step that panics leaves what it had changed by then.  A panicking load ends the process; the
      model keeps its ledger, so it allows more steps after it than there are. */
  function Execute(n: Node, step: Step): Node {
    match step
    case Receive(b) => n.(ledger := Submitted(n.ledger, b).state)
    case Pool(tx, at) => n.(ledger := WithTx(n.ledger, tx, at).state)
    case Expire(now) => n.(ledger := CleanedUp(n.ledger, now))
    case SyncRebuild => n.(ledger := WithRebuiltUtxos(n.ledger))
    case SyncRetarget => n.(ledger := Retargeted(n.ledger).state)
    case Save => n.(file := Some(n.ledger.(mempool := [])))
    case Restart => n.(ledger := if n.file.Some? then RebuiltAndRetargeted(n.file.value).state else EMPTY)
  }

  function Run(steps: seq<Step>): Node {
    if steps == [] then FRESH
    else Execute(Run(steps[..|steps| - 1]), steps[|steps| - 1])
  }

  // ---------- faults ----------

  ghost predicate SubmittedAs(s: State, b: Block, r: Added) {
    r == Submitted(s, b)
  }

  /** The block is accepted and pushed, and the retarget that follows panics.  The quantifier keeps the
      body of `Submitted` out of the proofs that only carry this predicate along. */
  ghost predicate Faults(s: State, b: Block) {
    forall r :: SubmittedAs(s, b, r) ==> r.outcome == Fail(RetargetFault)
  }

  lemma FaultsMeans(s: State, b: Block)
    ensures Faults(s, b) <==> Submitted(s, b).outcome == Fail(RetargetFault)
  {
    assert SubmittedAs(s, b, Submitted(s, b));
  }

  /** The retarget panics where it runs a second time: at the end of a synchronisation or a load. */
  ghost predicate RetargetPanics(s: State) {
    Difficulty.Retarget(s.blocks, s.target) == None
  }

  /** The step panics. */
  ghost predicate StepFaults(n: Node, step: Step) {
    match step
    case Receive(b) => Faults(n.ledger, b)
    case SyncRetarget => RetargetPanics(n.ledger)
    case Restart => n.file.Some? && RetargetPanics(n.file.value)
    case _ => false
  }

  ghost predicate FaultFree(steps: seq<Step>) {
    steps == [] || (FaultFree(steps[..|steps| - 1]) && !StepFaults(Run(steps[..|steps| - 1]), steps[|steps| - 1]))
  }

  /** No received block faults.  The other two panics change nothing that a run's ledger relies on, so
      this is what the theorems over runs ask for at most. */
  ghost predicate NoBlockFaults(steps: seq<Step>) {
    steps == [] ||
    var before, step := steps[..|steps| - 1], steps[|steps| - 1];
    NoBlockFaults(before) && (step.Receive? ==> !Faults(Run(before).ledger, step.block))
  }

  lemma {:induction false} FaultFreeBlocks(steps: seq<Step>)
    requires FaultFree(steps)
    ensures NoBlockFaults(steps)
    decreases |steps|
  {
    if steps != [] {
      FaultFreeBlocks(steps[..|steps| - 1]);
    }
  }

  lemma ChainTimeOrdered(chain: seq<Block>)
    requires AcceptedChain(chain)
    ensures Difficulty.TimeOrdered(chain)
  {
    forall i, j | 0 <= i < j < |chain|
      ensures chain[i].header.timestamp < chain[j].header.timestamp
    {
      TimestampsIncrease(chain, i, j);
    }
  }

  // ---------- what every state of every run satisfies, faults or not ----------

  /** Every block passed the checks when it was pushed; the UTXO set is the replay of the chain or,
      right after a retarget height, of all but its last block; and the target is legal. */
  ghost predicate Tracked(s: State) {
    && AcceptedChain(s.blocks)
    && (UpToDate(s) || OneBehind(s))
    && s.target <= Difficulty.MIN_TARGET
  }

  ghost predicate UpToDate(s: State) {
    Plain(s.utxos) == Unspent(s.blocks)
  }

  ghost predicate OneBehind(s: State) {
    Difficulty.AtRetarget(s.blocks) && Plain(s.utxos) == Unspent(Init(s.blocks))
  }

  /** Every state of every run, except between a fault and the next rebuild. */
  ghost predicate Steady(s: State) {
    Tracked(s) && UpToDate(s)
  }

  lemma RetargetLegal(chain: seq<Block>, target: nat)
    requires AcceptedChain(chain) && target <= Difficulty.MIN_TARGET
    ensures Difficulty.Retarget(chain, target).Some? ==>
              Difficulty.Retarget(chain, target).value <= Difficulty.MIN_TARGET
  {
    ChainTimeOrdered(chain);
    if Difficulty.AtRetarget(chain) {
      Difficulty.RescaledBounds(target, Difficulty.IntervalSeconds(chain));
    }
  }

  /** How a tracked ledger takes in a block. */
  lemma CheckedIsAccepted(s: State, b: Block)
    requires Tracked(s) && CheckBlock(s.blocks, Plain(s.utxos), b) == Pass
    ensures Accepted(s.blocks, b) && AcceptedChain(s.blocks + [b])
  {
    PassesOverIffPass(s.blocks, if UpToDate(s) then s.blocks else Init(s.blocks), b);
    AcceptedSnoc(s.blocks, b);
  }

  /** A rebuild brings the set of a tracked ledger up to date, whatever has been pushed since. */
  lemma RebuiltTracked(s: State, added: seq<Block>)
    requires Tracked(s)
    ensures var rebuilt := Rebuilt(s.utxos, ChainOps(s.blocks + added));
            Plain(rebuilt) == Unspent(s.blocks + added) && rebuilt == Unmarked(rebuilt)
  {
    RebuildCatchesUp(s.utxos, if UpToDate(s) then s.blocks else Init(s.blocks), s.blocks + added);
  }

  lemma NoRetargetTwiceInARow(chain: seq<Block>, b: Block)
    ensures !(Difficulty.AtRetarget(chain) && Difficulty.AtRetarget(chain + [b]))
  {
  }

  /** What receiving a block does to a ledger whose checks the block passes. */
  lemma PushedWhenChecked(s: State, b: Block)
    requires CheckBlock(s.blocks, Plain(s.utxos), b) == Pass
    ensures var longer, r := s.blocks + [b], Submitted(s, b);
            && r.state.blocks == longer
            && r.state.mempool == WithoutHashes(s.mempool, TxHashes(b.transactions))
            && (Faults(s, b) <==> Difficulty.Retarget(longer, s.target) == None)
            && (Faults(s, b) ==> r.state.target == s.target && r.state.utxos == s.utxos)
            && (!Faults(s, b) ==> r.outcome == Pass && r.state.target == Difficulty.Retarget(longer, s.target).value
                                  && r.state.utxos == Rebuilt(s.utxos, ChainOps(longer)))
  {
    FaultsMeans(s, b);
  }

  lemma ReceiveTracked(s: State, b: Block)
    requires Tracked(s)
    ensures Tracked(Submitted(s, b).state)
  {
    if CheckBlock(s.blocks, Plain(s.utxos), b) == Pass {
      CheckedIsAccepted(s, b);
      PushedWhenChecked(s, b);
      RetargetLegal(s.blocks + [b], s.target);
      RebuiltTracked(s, [b]);
      InitLastSnoc(s.blocks, b);
      NoRetargetTwiceInARow(s.blocks, b);
    }
  }

  lemma LoadedTracked(s: State)
    requires Tracked(s)
    ensures var r := RebuiltAndRetargeted(s);
            && Tracked(r.state) && UpToDate(r.state)
            && r.state.blocks == s.blocks && r.state.mempool == s.mempool
            && r.state.utxos == Unmarked(r.state.utxos)
            && (r.outcome == Pass <==> !RetargetPanics(s))
  {
    assert s.blocks + [] == s.blocks;
    RebuiltTracked(s, []);
    RetargetLegal(s.blocks, s.target);
  }

  lemma SyncTracked(s: State)
    requires Tracked(s)
    ensures Tracked(WithRebuiltUtxos(s)) && Tracked(Retargeted(s).state)
  {
    assert s.blocks + [] == s.blocks;
    RebuiltTracked(s, []);
    RetargetLegal(s.blocks, s.target);
  }

  ghost predicate AllTracked(n: Node) {
    Tracked(n.ledger) && (n.file.Some? ==> Tracked(n.file.value))
  }

  lemma ExecuteTracked(n: Node, step: Step)
    requires AllTracked(n)
    ensures AllTracked(Execute(n, step))
  {
    var s := n.ledger;
    match step
    case Receive(b) =>
      ReceiveTracked(s, b);
    case Pool(tx, at) =>
      InsertKeepsOutputs(tx, at, s.utxos, s.mempool);
    case Expire(now) =>
      SetMarksPlain(s.utxos, ExpiredSpends(s.mempool, now), false);
    case SyncRebuild =>
      SyncTracked(s);
    case SyncRetarget =>
      SyncTracked(s);
    case Save =>
    case Restart =>
      if n.file.Some? {
        LoadedTracked(n.file.value);
      }
  }

  /** In every run, whatever panics on the way, the ledger and the file are tracked. */
  lemma {:induction false} EveryRunTracked(steps: seq<Step>)
    ensures AllTracked(Run(steps))
    decreases |steps|
  {
    if steps != [] {
      EveryRunTracked(steps[..|steps| - 1]);
      ExecuteTracked(Run(steps[..|steps| - 1]), steps[|steps| - 1]);
    }
  }

  // ---------- what every state satisfies while no block faults ----------

  /** The chain is valid, the UTXO set is its replay, and the target is legal. */
  ghost predicate Sound(s: State) {
    ValidChain(s.blocks) && UpToDate(s) && s.target <= Difficulty.MIN_TARGET
  }

  lemma SoundIsTracked(s: State)
    requires Sound(s)
    ensures Tracked(s)
  {
    ValidIsAccepted(s.blocks);
  }

  ghost predicate Good(n: Node) {
    && Sound(n.ledger)
    && MarksReferred(n.ledger.utxos, n.ledger.mempool)
    && (n.file.Some? ==> Sound(n.file.value))
  }

  lemma NoMarks(utxos: UtxoSet, pool: seq<Pooled>)
    requires utxos == Unmarked(utxos)
    ensures MarksReferred(utxos, pool)
  {
    forall h
      ensures !IsMarked(utxos, h)
    {
      if h in utxos {
        assert utxos[h] == Unmarked(utxos)[h];
      }
    }
  }

  /** Receiving a block either changes nothing or, without a fault, appends a block that extends the
      chain and leaves exactly its replay, unmarked. */
  lemma ReceiveSound(s: State, b: Block)
    requires Sound(s)
    ensures var r := Submitted(s, b);
            && (r.outcome.Fail? && !Faults(s, b) ==> r.state == s && !Extends(s.blocks, b))
            && (r.outcome == Pass ==>
                  && Extends(s.blocks, b)
                  && r.state.blocks == s.blocks + [b]
                  && r.state.utxos == Unmarked(r.state.utxos)
                  && r.state.mempool == WithoutHashes(s.mempool, TxHashes(b.transactions))
                  && Plain(r.state.utxos) == Applied(Plain(s.utxos), TxsOps(b.transactions))
                  && Sound(r.state))
  {
    ExtendsIffPass(s.blocks, b);
    FaultsMeans(s, b);
    if Extends(s.blocks, b) {
      PushedWhenChecked(s, b);
      SoundIsTracked(s);
      ReceiveTracked(s, b);
      RebuiltTracked(s, [b]);
      ValidSnoc(s.blocks, b);
      UnspentSnoc(s.blocks, b);
    }
  }

  /** Loading a sound ledger succeeds exactly if its retarget does not panic, and either way leaves it
      sound, with the same blocks and without marks. */
  lemma LoadedSound(s: State)
    requires Sound(s)
    ensures var r := RebuiltAndRetargeted(s);
            && (r.outcome == Pass <==> !RetargetPanics(s))
            && Sound(r.state) && r.state.blocks == s.blocks
            && r.state.utxos == Unmarked(r.state.utxos) && MarksReferred(r.state.utxos, r.state.mempool)
  {
    SoundIsTracked(s);
    LoadedTracked(s);
    NoMarks(RebuiltAndRetargeted(s).state.utxos, s.mempool);
  }

  lemma ExecuteGood(n: Node, step: Step)
    requires Good(n) && (step.Receive? ==> !Faults(n.ledger, step.block))
    ensures Good(Execute(n, step))
  {
    var s := n.ledger;
    SoundIsTracked(s);
    match step
    case Receive(b) =>
      ReceiveSound(s, b);
      var r := Submitted(s, b);
      if r.outcome == Pass {
        NoMarks(r.state.utxos, r.state.mempool);
      }
    case Pool(tx, at) =>
      InsertKeepsMarks(tx, at, s.utxos, s.mempool);
    case Expire(now) =>
      ExpiryKeepsMarks(now, s.utxos, s.mempool);
    case SyncRebuild =>
      RebuildIsReplay(s.utxos, s.blocks);
      NoMarks(Unmarked(s.utxos), s.mempool);
    case SyncRetarget =>
      RetargetLegal(s.blocks, s.target);
    case Save =>
    case Restart =>
      if n.file.Some? {
        LoadedSound(n.file.value);
      }
  }

  /** In every run in which no received block faults, whatever fails, expires or restarts on the way,
      the chain is valid, the UTXO set is exactly its replay, and every mark refers to a pooled
      transaction. */
  lemma {:induction false} EveryRunGood(steps: seq<Step>)
    requires NoBlockFaults(steps)
    ensures Good(Run(steps))
    decreases |steps|
  {
    if steps != [] {
      EveryRunGood(steps[..|steps| - 1]);
      ExecuteGood(Run(steps[..|steps| - 1]), steps[|steps| - 1]);
    }
  }
}
