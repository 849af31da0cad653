/** Which of the verifier's 64-bit sums can leave their range: only the sums of outputs that a block
    lists itself. */
module Overflow {
  import opened Types
  import opened BlockRules
  import opened Replay
  import opened Chain
  import opened Supply
  import Node
  import Runs

  // ---------- what is left to spend bounds every sum ----------

  /** The value of what has not been spent yet. */
  ghost function Left(outs: Outputs, spent: set<Hash>): nat {
    Total(outs - spent)
  }

  lemma LeftAfter(outs: Outputs, spent: set<Hash>, h: Hash)
    requires h in outs && h !in spent
    ensures outs[h].amount + Left(outs, spent + {h}) == Left(outs, spent)
  {
    assert outs - (spent + {h}) == outs - spent - {h};
    TotalWithout(outs - spent, h);
  }

  /** What a transaction's inputs have added up to and what is left unspent never exceed 64 bits
      together, so the sum of the inputs never overflows, whatever the inputs are. */
  lemma {:induction false} InputSumFits(inputs: seq<TxInput>, outs: Outputs, spent: set<Hash>, amount: nat)
    requires amount + Left(outs, spent) <= U64_MAX
    ensures ScanInputs(inputs, outs, spent, amount) != Failure(Overflow)
    ensures var r := ScanInputs(inputs, outs, spent, amount);
            r.Success? ==> r.value.amount + Left(outs, r.value.spent) == amount + Left(outs, spent)
    decreases |inputs|
  {
    if inputs != [] {
      var h := inputs[0].prevTxOutputHash;
      if h in outs && h !in spent {
        LeftAfter(outs, spent, h);
        InputSumFits(inputs[1..], outs, spent + {h}, amount + outs[h].amount);
      }
    }
  }

  /** The sum of each transaction's outputs fits in 64 bits. */
  ghost predicate OutputSumsFit(txs: seq<Tx>) {
    forall i :: 0 <= i < |txs| ==> SumOutputs(txs[i].outputs) <= U64_MAX
  }

  /** The same for the fees, over all transactions. */
  lemma {:induction false} FeeSumFits(txs: seq<Tx>, outs: Outputs, spent: set<Hash>, fees: nat)
    requires OutputSumsFit(txs)
    requires fees + Left(outs, spent) <= U64_MAX
    ensures ScanTxs(txs, outs, spent, fees) != Failure(Overflow)
    ensures var r := ScanTxs(txs, outs, spent, fees);
            r.Success? ==> r.value <= fees + Left(outs, spent)
    decreases |txs|
  {
    if txs != [] {
      InputSumFits(txs[0].inputs, outs, spent, 0);
      var scan := ScanInputs(txs[0].inputs, outs, spent, 0);
      var paid := SumOutputs(txs[0].outputs);
      if scan.Success? && paid <= scan.value.amount {
        FeeSumFits(txs[1..], outs, scan.value.spent, fees + (scan.value.amount - paid));
      }
    }
  }

  lemma RewardFits(coinbase: Tx, height: nat, fees: nat)
    requires height < FINAL_HEIGHT && SumOutputs(coinbase.outputs) <= U64_MAX
    requires INITIAL_SUBSIDY + fees <= U64_MAX
    ensures CheckCoinbase(coinbase, height, fees) != Fail(Overflow)
  {
    DivisorBelowFinalHeight(height);
  }

  /** While the outputs to spend from are worth little enough, the verifier overflows on no list at all
      whose transactions' own outputs add up within 64 bits. */
  lemma VerifierSumsFit(txs: seq<Tx>, height: nat, outs: Outputs)
    requires height < FINAL_HEIGHT && INITIAL_SUBSIDY + Total(outs) <= U64_MAX
    requires OutputSumsFit(txs)
    ensures CheckTransactions(txs, height, outs) != Fail(Overflow)
  {
    if txs != [] {
      assert outs - {} == outs;
      FeeSumFits(txs[1..], outs, {}, 0);
      var fees := ScanTxs(txs[1..], outs, {}, 0);
      if fees.Success? {
        RewardFits(txs[0], height, fees.value);
      }
    }
  }

  // ---------- on a chain, and in a run ----------

  /** On a valid chain below the final height no sum of inputs, no sum of fees and no reward overflows,
      whether the block passes or not: an overflow always comes from outputs that a transaction lists. */
  lemma ValidChainSumsFit(chain: seq<Block>, txs: seq<Tx>)
    requires ValidChain(chain) && |chain| < FINAL_HEIGHT
    requires CheckTransactions(txs, |chain|, Unspent(chain)) == Fail(Overflow)
    ensures exists i :: 0 <= i < |txs| && SumOutputs(txs[i].outputs) > U64_MAX
  {
    SupplyIsIssued(chain);
    IssuedBelowCap(|chain|);
    if OutputSumsFit(txs) {
      VerifierSumsFit(txs, |chain|, Unspent(chain));
    }
  }

  /** The same against the set a node really holds, in every run in which nothing was spent again behind
      a fault. */
  lemma RunSumsFit(steps: seq<Node.Step>, txs: seq<Tx>)
    requires Runs.NothingLost(steps)
    requires var s := Runs.LedgerOf(steps);
             |s.blocks| < FINAL_HEIGHT && CheckTransactions(txs, |s.blocks|, Plain(s.utxos)) == Fail(Overflow)
    ensures exists i :: 0 <= i < |txs| && SumOutputs(txs[i].outputs) > U64_MAX
  {
    Runs.MoneyWithinCap(steps);
    if OutputSumsFit(txs) {
      var s := Runs.LedgerOf(steps);
      VerifierSumsFit(txs, |s.blocks|, Plain(s.utxos));
    }
  }

  // ---------- and they do overflow ----------

  function TwoFullOutputs(key: PublicKey): seq<TxOutput> {
    [TxOutput(U64_MAX, 0, key), TxOutput(U64_MAX, 1, key)]
  }

  lemma TwoFullOutputsSum(key: PublicKey)
    ensures SumOutputs(TwoFullOutputs(key)) == 2 * U64_MAX
  {
    var outputs := TwoFullOutputs(key);
    SumOutputsSnoc(outputs, 0);
    SumOutputsSnoc(outputs, 1);
    assert outputs[..2] == outputs && outputs[..0] == [];
  }

  /** A coinbase that claims 2^64 - 1 twice overflows the verifier at every height, over any outputs, and
      so does any later transaction that lists such outputs. */
  lemma ListedOutputsOverflow(key: PublicKey, coinbase: Tx, height: nat, outs: Outputs)
    requires height < FINAL_HEIGHT
    ensures CheckTransactions([Tx([], TwoFullOutputs(key))], height, outs) == Fail(Overflow)
    ensures CheckTransactions([coinbase, Tx([], TwoFullOutputs(key))], height, outs) == Fail(Overflow)
  {
    DivisorBelowFinalHeight(height);
    TwoFullOutputsSum(key);
    assert [coinbase, Tx([], TwoFullOutputs(key))][1..] == [Tx([], TwoFullOutputs(key))];
  }
}
