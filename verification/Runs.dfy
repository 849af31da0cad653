/** Consequences for whole runs of a node, and for any two nodes. */
module Runs {
  import opened Types
  import opened BlockRules
  import opened Replay
  import opened Chain
  import opened Ledger
  import opened Node
  import opened Respending
  import Difficulty
  import Panics
  import Supply
  import SpendSafety

  function LedgerOf(steps: seq<Step>): State {
    Run(steps).ledger
  }

  function BlocksOf(steps: seq<Step>): seq<Block> {
    Run(steps).ledger.blocks
  }

  // ---------- faults ----------

  /** Every block of the chain and of the file was received in the run. */
  ghost predicate AllReceived(chain: seq<Block>, steps: seq<Step>) {
    forall b :: b in chain ==> Receive(b) in steps
  }

  /** A step leaves the chain as it was, appends the block it receives, or goes back to the file's. */
  lemma BlocksAfter(n: Node, step: Step)
    ensures var blocks := Execute(n, step).ledger.blocks;
            || blocks == n.ledger.blocks
            || (step.Receive? && blocks == n.ledger.blocks + [step.block])
            || (step.Restart? && blocks == if n.file.Some? then n.file.value.blocks else [])
    ensures Execute(n, step).file == n.file
            || (Execute(n, step).file.Some? && Execute(n, step).file.value.blocks == n.ledger.blocks)
  {
  }

  lemma {:induction false} BlocksWereReceived(steps: seq<Step>)
    ensures AllReceived(BlocksOf(steps), steps)
    ensures Run(steps).file.Some? ==> AllReceived(Run(steps).file.value.blocks, steps)
    decreases |steps|
  {
    if steps != [] {
      var before, step := steps[..|steps| - 1], steps[|steps| - 1];
      assert steps == before + [step];
      BlocksWereReceived(before);
      BlocksAfter(Run(before), step);
      ReceivedStill(BlocksOf(before), before, step);
      if Run(before).file.Some? {
        ReceivedStill(Run(before).file.value.blocks, before, step);
      }
    }
  }

  lemma ReceivedStill(chain: seq<Block>, before: seq<Step>, step: Step)
    requires AllReceived(chain, before)
    ensures AllReceived(chain, before + [step])
    ensures step.Receive? ==> AllReceived(chain + [step.block], before + [step])
  {
  }

  /** All received blocks are stamped within one window of 32,768,000 seconds. */
  ghost predicate ReceivedWithin(steps: seq<Step>, from: Timestamp) {
    forall b :: Receive(b) in steps ==> from <= b.header.timestamp <= from + 32_768_000 * NANOS_PER_SECOND
  }

  lemma NoPanicWithin(s: State, from: Timestamp)
    requires Tracked(s) && Difficulty.StampedWithin(s.blocks, from)
    ensures !RetargetPanics(s)
  {
    ChainTimeOrdered(s.blocks);
    Difficulty.RetargetWithin(s.blocks, s.target, from);
  }

  lemma StepWithin(before: seq<Step>, step: Step, from: Timestamp)
    requires ReceivedWithin(before + [step], from)
    ensures !StepFaults(Run(before), step)
  {
    EveryRunTracked(before);
    BlocksWereReceived(before);
    match step
    case Receive(b) =>
      assert Receive(b) in before + [step];
      Panics.FaultFreeWithin(LedgerOf(before), b, from);
    case SyncRetarget =>
      NoPanicWithin(LedgerOf(before), from);
    case Restart =>
      if Run(before).file.Some? {
        NoPanicWithin(Run(before).file.value, from);
      }
    case _ =>
  }

  /** In such a run no retarget panics: not on a received block, nor after a synchronisation, nor when
      a saved ledger is loaded. */
  lemma {:induction false} WindowFaultFree(steps: seq<Step>, from: Timestamp)
    requires ReceivedWithin(steps, from)
    ensures FaultFree(steps)
    decreases |steps|
  {
    if steps != [] {
      var before, step := steps[..|steps| - 1], steps[|steps| - 1];
      assert steps == before + [step];
      WindowFaultFree(before, from);
      StepWithin(before, step, from);
    }
  }

  /** In any run, the end of a synchronisation or a load panics exactly when the chain in question is at
      a retarget height and its target, scaled once more, leaves 256 bits. */
  lemma PanicsExactlyInRuns(steps: seq<Step>)
    ensures StepFaults(Run(steps), SyncRetarget) <==> Panics.ScalesOut(LedgerOf(steps))
    ensures StepFaults(Run(steps), Restart) <==>
              Run(steps).file.Some? && Panics.ScalesOut(Run(steps).file.value)
  {
    EveryRunTracked(steps);
    Panics.RepeatedRetargetPanicsExactly(LedgerOf(steps));
    if Run(steps).file.Some? {
      Panics.RepeatedRetargetPanicsExactly(Run(steps).file.value);
    }
  }

  /** After a block whose first coinbase output is new, the UTXO set is the chain's replay exactly if
      the retarget did not panic: a panic leaves the set one block behind. */
  lemma ReplayHoldsIffNoFault(s: State, b: Block)
    requires Sound(s) && Extends(s.blocks, b)
    requires b.transactions != [] && b.transactions[0].outputs != []
    requires HashOutput(b.transactions[0].outputs[0]) !in Unspent(s.blocks)
    ensures var after := Submitted(s, b).state;
            && after.blocks == s.blocks + [b]
            && (Plain(after.utxos) == Unspent(after.blocks) <==> !Faults(s, b))
  {
    ExtendsIffPass(s.blocks, b);
    PushedWhenChecked(s, b);
    SoundIsTracked(s);
    RebuiltTracked(s, [b]);
    if Faults(s, b) {
      CoinbaseAppears(s.blocks, b);
    }
  }

  lemma FirstCoinbaseOp(txs: seq<Tx>)
    requires txs != [] && txs[0].inputs == [] && txs[0].outputs != []
    ensures TxsOps(txs) != [] && TxsOps(txs)[0] == Create(txs[0].outputs[0])
  {
    assert TxOps(txs[0])[0] == Create(txs[0].outputs[0]);
  }

  lemma CoinbaseAppears(chain: seq<Block>, b: Block)
    requires ValidChain(chain) && Extends(chain, b)
    requires b.transactions != [] && b.transactions[0].outputs != []
    requires HashOutput(b.transactions[0].outputs[0]) !in Unspent(chain)
    ensures HashOutput(b.transactions[0].outputs[0]) in Unspent(chain + [b])
  {
    var txs := b.transactions;
    var h := HashOutput(txs[0].outputs[0]);
    ExtendsMeans(chain, b);
    FirstCoinbaseOp(txs);
    NotSpentByBlock(txs, Unspent(chain), h);
    UnspentSnoc(chain, b);
    StaysCreated(ApplyPlain(Unspent(chain), TxsOps(txs)[0]), TxsOps(txs)[1..], h);
  }

  /** A block spends nothing that was not unspent before it. */
  lemma NotSpentByBlock(txs: seq<Tx>, outs: Outputs, h: Hash)
    requires txs != [] && txs[0].inputs == [] && AllBalanced(txs[1..], outs) && h !in outs
    ensures h !in Supply.OpSpends(TxsOps(txs)) && h !in Spends(txs)
    ensures TxsOps(txs) != [] ==> h !in Supply.OpSpends(TxsOps(txs)[1..])
  {
    SpendsAvailable(txs[1..], outs);
    assert Spends(txs) == Spends(txs[1..]);
    Supply.OpsOfTxs(txs);
  }

  lemma {:induction false} StaysCreated(outs: Outputs, ops: seq<Op>, h: Hash)
    requires h in outs && h !in Supply.OpSpends(ops)
    ensures h in Applied(outs, ops)
    decreases |ops|
  {
    if ops != [] {
      StaysCreated(ApplyPlain(outs, ops[0]), ops[1..], h);
    }
  }

  // ---------- agreement between replicas ----------

  /** The set is up to date unless a block faulted, and then except right after a retarget height. */
  ghost predicate Current(steps: seq<Step>) {
    NoBlockFaults(steps) || !Difficulty.AtRetarget(BlocksOf(steps))
  }

  lemma CurrentIsUpToDate(steps: seq<Step>)
    requires Current(steps)
    ensures UpToDate(LedgerOf(steps))
  {
    EveryRunTracked(steps);
    if NoBlockFaults(steps) {
      EveryRunGood(steps);
    }
  }

  /** Two nodes with the same blocks, however they got there, have the same unspent outputs, and both
      give every next block the verdict of the block list alone. */
  lemma ReplicasAgree(a: seq<Step>, b: seq<Step>, next: Block)
    requires Current(a) && Current(b) && BlocksOf(a) == BlocksOf(b)
    ensures Plain(LedgerOf(a).utxos) == Plain(LedgerOf(b).utxos)
    ensures CheckBlock(BlocksOf(a), Plain(LedgerOf(a).utxos), next)
         == CheckBlock(BlocksOf(b), Plain(LedgerOf(b).utxos), next)
    ensures CheckBlock(BlocksOf(a), Plain(LedgerOf(a).utxos), next) == Pass <==> Extends(BlocksOf(b), next)
    ensures Submitted(LedgerOf(a), next).outcome == Pass == Submitted(LedgerOf(b), next).outcome ==>
              Plain(Submitted(LedgerOf(a), next).state.utxos) == Plain(Submitted(LedgerOf(b), next).state.utxos)
  {
    CurrentIsUpToDate(a);
    CurrentIsUpToDate(b);
    ExtendsIffPass(BlocksOf(b), next);
    if Submitted(LedgerOf(a), next).outcome == Pass == Submitted(LedgerOf(b), next).outcome {
      TakenUpToDate(a, next);
      TakenUpToDate(b, next);
    }
  }

  lemma TakenUpToDate(steps: seq<Step>, next: Block)
    requires Submitted(LedgerOf(steps), next).outcome == Pass
    ensures Plain(Submitted(LedgerOf(steps), next).state.utxos) == Unspent(BlocksOf(steps) + [next])
  {
    EveryRunTracked(steps);
    FaultsMeans(LedgerOf(steps), next);
    PushedWhenChecked(LedgerOf(steps), next);
    RebuiltTracked(LedgerOf(steps), [next]);
  }

  /** Two nodes whose tips hash alike, in any runs, have the same headers at the same height.  If their
      first blocks hold the same transactions, they have the same blocks, and their sets, where they are
      current, the same unspent outputs. */
  lemma SameTipSameLedger(a: seq<Step>, b: seq<Step>)
    requires HeaderHashInjective() && SameTip(BlocksOf(a), BlocksOf(b))
    ensures SameHeaders(BlocksOf(a), BlocksOf(b))
    ensures MerkleHashInjective() && BlocksOf(a)[0].transactions == BlocksOf(b)[0].transactions
            && ChainTxsHaveInputs(BlocksOf(a)) ==>
              && BlocksOf(a) == BlocksOf(b)
              && (Current(a) && Current(b) ==> Plain(LedgerOf(a).utxos) == Plain(LedgerOf(b).utxos))
  {
    EveryRunTracked(a);
    EveryRunTracked(b);
    SameTipSameHeaders(BlocksOf(a), BlocksOf(b));
    if MerkleHashInjective() && BlocksOf(a)[0].transactions == BlocksOf(b)[0].transactions
       && ChainTxsHaveInputs(BlocksOf(a)) {
      SameTipSameHistory(BlocksOf(a), BlocksOf(b));
      if Current(a) && Current(b) {
        CurrentIsUpToDate(a);
        CurrentIsUpToDate(b);
      }
    }
  }

  // ---------- validity, money and spends ----------

  /** No block faulted, or at least nothing was spent again behind one. */
  ghost predicate NothingLost(steps: seq<Step>) {
    NoBlockFaults(steps) || (OutputHashInjective() && NothingRespent(BlocksOf(steps)))
  }

  lemma ValidUnlessRespent(steps: seq<Step>)
    requires NothingLost(steps)
    ensures ValidChain(BlocksOf(steps))
  {
    EveryRunTracked(steps);
    if NoBlockFaults(steps) {
      EveryRunGood(steps);
    } else {
      ValidIffNothingRespent(BlocksOf(steps));
    }
  }

  /** In every run the chain ends at the final height and its unspent outputs are worth at most what the
      subsidies issued and respending minted, exactly that for distinct hashes. */
  lemma MoneyInEveryRun(steps: seq<Step>)
    ensures |BlocksOf(steps)| <= FINAL_HEIGHT
    ensures OutputHashInjective() ==> Accounted(BlocksOf(steps))
  {
    EveryRunTracked(steps);
    HeightBound(BlocksOf(steps));
    if OutputHashInjective() {
      SupplyIsIssuedAndMinted(BlocksOf(steps));
    }
  }

  /** Unless an output was spent again behind a fault, what the ledger holds is worth at most what the
      blocks' subsidies issued, which is below the cap. */
  lemma MoneyWithinCap(steps: seq<Step>)
    requires NothingLost(steps)
    ensures var s := LedgerOf(steps);
            && Supply.Total(Plain(s.utxos)) <= Supply.Issued(|s.blocks|) < Supply.SUPPLY_CAP
            && (Supply.AllHashesDistinct(s.blocks) ==>
                  && Supply.Total(Unspent(s.blocks)) == Supply.Issued(|s.blocks|)
                  && (Current(steps) ==> Supply.Total(Plain(s.utxos)) == Supply.Issued(|s.blocks|)))
  {
    var s := LedgerOf(steps);
    ValidUnlessRespent(steps);
    EveryRunTracked(steps);
    Supply.SupplyIsIssued(s.blocks);
    Supply.IssuedBelowCap(|s.blocks|);
    if UpToDate(s) {
    } else {
      ValidPrefix(s.blocks, |s.blocks| - 1);
      Supply.SupplyIsIssued(Init(s.blocks));
    }
    if Current(steps) {
      CurrentIsUpToDate(steps);
    }
  }

  /** Unless an output was spent again behind a fault, no output has been spent more often than it was
      created, counting what is still unspent as not spent. */
  lemma SpendsInEveryRun(steps: seq<Step>, h: Hash)
    requires NothingLost(steps)
    ensures var s := LedgerOf(steps);
            && SpendSafety.TimesSpent(s.blocks, h) + (if h in Unspent(s.blocks) then 1 else 0)
                 <= SpendSafety.TimesCreated(s.blocks, h)
            && (Current(steps) ==> (h in s.utxos <==> h in Unspent(s.blocks)))
  {
    ValidUnlessRespent(steps);
    SpendSafety.SpendsCoveredByEarlierCreations(BlocksOf(steps), h);
    if Current(steps) {
      CurrentIsUpToDate(steps);
      assert h in LedgerOf(steps).utxos <==> h in Plain(LedgerOf(steps).utxos);
    }
  }

  /** In a run whose chain creates no hash twice that condition is exact: the chain is valid, and spends
      nothing more often than it was created, if and only if no block right behind a retarget height
      spends what the block before it spent. */
  lemma SafeExactly(steps: seq<Step>)
    requires OutputHashInjective() && Supply.AllHashesDistinct(BlocksOf(steps))
    ensures NothingRespent(BlocksOf(steps)) <==> ValidChain(BlocksOf(steps))
    ensures NothingRespent(BlocksOf(steps)) <==> SpentAsCreated(BlocksOf(steps))
  {
    EveryRunTracked(steps);
    SafeIffNothingRespent(BlocksOf(steps));
  }

  /** In every run each input of each block carries a signature that verifies under the key of an output
      an earlier block created. */
  lemma SignedInEveryRun(steps: seq<Step>, j: nat, t: nat, k: nat) returns (o: TxOutput)
    requires j < |BlocksOf(steps)|
    requires t < |BlocksOf(steps)[j].transactions| && k < |BlocksOf(steps)[j].transactions[t].inputs|
    ensures o in Supply.ChainCreates(BlocksOf(steps)[..j])
    ensures var input := BlocksOf(steps)[j].transactions[t].inputs[k];
            HashOutput(o) == input.prevTxOutputHash && Verify(input.signature, input.prevTxOutputHash, o.pubkey)
  {
    EveryRunTracked(steps);
    o := SpendSafety.EverySpendIsSigned(BlocksOf(steps), j, t, k);
  }
}
