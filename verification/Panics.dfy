/** When a retarget panics, and the two places other than a received block where it can. */
module Panics {
  import opened Types
  import opened BlockRules
  import opened Replay
  import opened Chain
  import opened Ledger
  import opened Node
  import opened Difficulty
  import Arithmetic

  // ---------- received blocks ----------

  lemma {:induction false} ScanInputsError(inputs: seq<TxInput>, outs: Outputs, spent: set<Hash>, amount: nat)
    ensures ScanInputs(inputs, outs, spent, amount) != Failure(RetargetFault)
    decreases |inputs|
  {
    if inputs != [] {
      var h := inputs[0].prevTxOutputHash;
      if h in outs {
        ScanInputsError(inputs[1..], outs, spent + {h}, amount + outs[h].amount);
      }
    }
  }

  lemma {:induction false} ScanTxsError(txs: seq<Tx>, outs: Outputs, spent: set<Hash>, fees: nat)
    ensures ScanTxs(txs, outs, spent, fees) != Failure(RetargetFault)
    decreases |txs|
  {
    if txs != [] {
      ScanInputsError(txs[0].inputs, outs, spent, 0);
      var scan := ScanInputs(txs[0].inputs, outs, spent, 0);
      if scan.Success? && SumOutputs(txs[0].outputs) <= scan.value.amount {
        ScanTxsError(txs[1..], outs, scan.value.spent, fees + (scan.value.amount - SumOutputs(txs[0].outputs)));
      }
    }
  }

  lemma NeverRetargetFault(chain: seq<Block>, outs: Outputs, b: Block)
    ensures CheckBlock(chain, outs, b) != Fail(RetargetFault)
  {
    if b.transactions != [] {
      ScanTxsError(b.transactions[1..], outs, {}, 0);
    }
  }

  lemma FaultsIffRetargetPanics(s: State, b: Block)
    ensures Faults(s, b) <==>
              CheckBlock(s.blocks, Plain(s.utxos), b) == Pass && Retarget(s.blocks + [b], s.target) == None
  {
    FaultsMeans(s, b);
    NeverRetargetFault(s.blocks, Plain(s.utxos), b);
  }

  /** A received block faults exactly when it extends the chain to a retarget height and the scaled
      target leaves 256 bits. */
  lemma FaultsExactly(s: State, b: Block)
    requires Sound(s)
    ensures var chain := s.blocks + [b];
            Faults(s, b) <==>
              && Extends(s.blocks, b) && AtRetarget(chain)
              && IntervalSeconds(chain) >= 0
              && Scaled(s.target, IntervalSeconds(chain)) > U256_MAX
  {
    FaultsIffRetargetPanics(s, b);
    ExtendsIffPass(s.blocks, b);
    if Extends(s.blocks, b) {
      SoundIsTracked(s);
      AcceptedSnoc(s.blocks, b);
      ChainTimeOrdered(s.blocks + [b]);
      RetargetPanicsExactly(s.blocks + [b], s.target);
    }
  }

  /** No block stamped in one window with the blocks before it faults. */
  lemma FaultFreeWithin(s: State, b: Block, from: Timestamp)
    requires Tracked(s) && StampedWithin(s.blocks + [b], from)
    ensures !Faults(s, b)
  {
    FaultsIffRetargetPanics(s, b);
    if CheckBlock(s.blocks, Plain(s.utxos), b) == Pass {
      CheckedIsAccepted(s, b);
      ChainTimeOrdered(s.blocks + [b]);
      RetargetWithin(s.blocks + [b], s.target, from);
    }
  }

  // ---------- loads and synchronisations ----------

  /** The chain is at a retarget height, and the target scaled by its last interval leaves 256 bits. */
  ghost predicate ScalesOut(s: State) {
    && AtRetarget(s.blocks) && IntervalSeconds(s.blocks) >= 0
    && Scaled(s.target, IntervalSeconds(s.blocks)) > U256_MAX
  }

  /** The retarget at the end of a load or of a synchronisation panics exactly then. */
  lemma RepeatedRetargetPanicsExactly(s: State)
    requires Tracked(s)
    ensures RetargetPanics(s) <==> ScalesOut(s)
  {
    ChainTimeOrdered(s.blocks);
    RetargetPanicsExactly(s.blocks, s.target);
  }

  /** A block taken in without a fault at a retarget height leaves a ledger whose load panics exactly
      if the target it just reached leaves 256 bits when scaled by the same interval again. */
  lemma CleanBlockPanickingLoad(s: State, b: Block, seconds: nat)
    requires AtRetarget(s.blocks + [b]) && IntervalSeconds(s.blocks + [b]) == seconds
    requires Tracked(s) && Submitted(s, b).outcome == Pass
    ensures var saved := Submitted(s, b).state.(mempool := []);
            && Rescaled(s.target, seconds) == Some(saved.target)
            && (RetargetPanics(saved) <==> Scaled(saved.target, seconds) > U256_MAX)
  {
    TakenAtRetarget(s, b);
    ReceiveTracked(s, b);
    RepeatedRetargetPanicsExactly(Submitted(s, b).state.(mempool := []));
  }

  lemma TakenAtRetarget(s: State, b: Block)
    requires AtRetarget(s.blocks + [b]) && Submitted(s, b).outcome == Pass
    ensures Submitted(s, b).state.blocks == s.blocks + [b]
    ensures Retarget(s.blocks + [b], s.target) == Some(Submitted(s, b).state.target)
  {
    FaultsMeans(s, b);
    PushedWhenChecked(s, b);
  }

  /** It happens: from a quarter of `MIN_TARGET`, a block that ends an interval of 131,000,000 seconds
      is taken in, and the ledger saved after it cannot be loaded. */
  lemma QuarterTargetLoadPanics(s: State, b: Block)
    requires AtRetarget(s.blocks + [b]) && IntervalSeconds(s.blocks + [b]) == 131_000_000
    requires s.target == MIN_TARGET / 4
    requires Tracked(s) && CheckBlock(s.blocks, Plain(s.utxos), b) == Pass
    ensures !Faults(s, b) && Submitted(s, b).outcome == Pass
    ensures RetargetPanics(Submitted(s, b).state.(mempool := []))
  {
    QuarterTargetTwice();
    FaultsIffRetargetPanics(s, b);
    PushedWhenChecked(s, b);
    CleanBlockPanickingLoad(s, b, 131_000_000);
  }

  lemma QuarterTargetTwice()
    ensures Rescaled(MIN_TARGET / 4, 131_000_000) == Some(4 * (MIN_TARGET / 4))
    ensures Scaled(4 * (MIN_TARGET / 4), 131_000_000) > U256_MAX
  {
    ScaledWhole(MIN_TARGET / 4, 262_000);
    ScaledWhole(4 * (MIN_TARGET / 4), 262_000);
    RescaledBounds(MIN_TARGET / 4, 131_000_000);
  }

  lemma ScaledWhole(target: nat, factor: nat)
    ensures Scaled(target, TARGET_SECONDS * factor) == target * factor
  {
    Arithmetic.QuotientUnique(target * (TARGET_SECONDS * factor), TARGET_SECONDS, target * factor);
  }

  function Starts(k: nat): seq<Step> {
    if k == 0 then [] else Starts(k - 1) + [Restart]
  }

  lemma RestartKeepsFile(n: Node)
    ensures Execute(n, Restart).file == n.file
  {
  }

  lemma StartsSnoc(steps: seq<Step>, k: nat)
    requires k > 0
    ensures Run(steps + Starts(k)) == Execute(Run(steps + Starts(k - 1)), Restart)
  {
    var all := steps + Starts(k);
    assert all[..|all| - 1] == steps + Starts(k - 1);
  }

  lemma {:induction false} StartsKeepFile(steps: seq<Step>, k: nat)
    ensures Run(steps + Starts(k)).file == Run(steps).file
    decreases k
  {
    if k == 0 {
      assert steps + Starts(0) == steps;
    } else {
      StartsKeepFile(steps, k - 1);
      StartsSnoc(steps, k);
      RestartKeepsFile(Run(steps + Starts(k - 1)));
    }
  }

  /** A file whose load panics is never loaded: however often a process has been started on it, the
      next start panics too. */
  lemma EveryStartPanics(steps: seq<Step>, k: nat)
    requires Run(steps).file.Some? && RetargetPanics(Run(steps).file.value)
    ensures StepFaults(Run(steps + Starts(k)), Restart)
  {
    StartsKeepFile(steps, k);
  }
}
