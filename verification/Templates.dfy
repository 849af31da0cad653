/** Exactly what a template holds, and exactly when there is one and it can be mined. */
module Templates {
  import opened Types
  import opened BlockRules
  import opened Replay
  import opened Chain
  import opened Mempool
  import opened PoolConsistency
  import opened Ledger
  import opened Node
  import opened Mining
  import Merkle
  import Payments

  /** How many pooled transactions a template takes. */
  function Taken(pool: seq<Pooled>): nat {
    if |pool| < 20 then |pool| else 20
  }

  // ---------- when there is one ----------

  /** The inputs are there and cover the outputs, within 64 bits. */
  ghost predicate Payable(tx: Tx, outs: Outputs) {
    var hs := SpendsOfInputs(tx.inputs);
    AllIn(hs, outs) && SumOutputs(tx.outputs) <= Value(hs, outs) <= U64_MAX
  }

  ghost predicate AllPayable(txs: seq<Tx>, outs: Outputs) {
    forall i :: 0 <= i < |txs| ==> Payable(txs[i], outs)
  }

  /** What the transactions take in over what they pay out. */
  ghost function Left(txs: seq<Tx>, outs: Outputs): nat
    requires AllPayable(txs, outs)
  {
    if txs == [] then 0
    else
      assert Payable(txs[0], outs);
      Value(SpendsOfInputs(txs[0].inputs), outs) - SumOutputs(txs[0].outputs) + Left(txs[1..], outs)
  }

  lemma {:induction false} InputAmountExactly(inputs: seq<TxInput>, outs: Outputs, amount: Amount)
    ensures var r, hs := InputAmount(inputs, outs, amount), SpendsOfInputs(inputs);
            && (r.Success? <==> AllIn(hs, outs) && amount + Value(hs, outs) <= U64_MAX)
            && (r.Success? ==> r.value == amount + Value(hs, outs))
    decreases |inputs|
  {
    if inputs != [] {
      var h, rest := inputs[0].prevTxOutputHash, SpendsOfInputs(inputs[1..]);
      assert SpendsOfInputs(inputs) == [h] + rest;
      assert ([h] + rest)[1..] == rest;
      AllInConcat([h], rest, outs);
      assert [h][0] == h;
      if h in outs && amount + outs[h].amount <= U64_MAX {
        InputAmountExactly(inputs[1..], outs, amount + outs[h].amount);
      }
    }
  }

  lemma FirstPayable(txs: seq<Tx>, outs: Outputs)
    requires txs != []
    ensures AllPayable(txs, outs) <==> Payable(txs[0], outs) && AllPayable(txs[1..], outs)
  {
    if AllPayable(txs[1..], outs) {
      forall i | 1 <= i < |txs|
        ensures Payable(txs[i], outs) <==> Payable(txs[1..][i - 1], outs)
      {
      }
    }
  }

  /** The fee loop succeeds exactly if every transaction's inputs are there and cover its outputs, and
      all sums stay within 64 bits; then it returns what is left over. */
  lemma {:induction false} MinerFeesExactly(txs: seq<Tx>, outs: Outputs, fees: Amount)
    ensures var r := MinerFees(txs, outs, fees);
            && (r.Success? <==> AllPayable(txs, outs) && fees + Left(txs, outs) <= U64_MAX)
            && (r.Success? ==> r.value == fees + Left(txs, outs))
    decreases |txs|
  {
    if txs != [] {
      FirstPayable(txs, outs);
      InputAmountExactly(txs[0].inputs, outs, 0);
      if Payable(txs[0], outs) {
        var gain := Value(SpendsOfInputs(txs[0].inputs), outs) - SumOutputs(txs[0].outputs);
        if fees + gain <= U64_MAX {
          MinerFeesExactly(txs[1..], outs, fees + gain);
        }
      }
    }
  }

  /** What is left over, in total. */
  lemma {:induction false} LeftInTotal(txs: seq<Tx>, outs: Outputs)
    requires AllPayable(txs, outs)
    ensures AllIn(Spends(txs), outs)
    ensures Left(txs, outs) == Value(Spends(txs), outs) - SumOutputs(Creates(txs))
    decreases |txs|
  {
    if txs != [] {
      FirstPayable(txs, outs);
      LeftInTotal(txs[1..], outs);
      ValueConcat(SpendsOfInputs(txs[0].inputs), Spends(txs[1..]), outs);
      SumOutputsConcat(txs[0].outputs, Creates(txs[1..]));
    }
  }

  /** A node has a template to hand out exactly if every one of the first 20 pooled transactions has all its
      inputs in the UTXO set, covering its outputs, the sums fit in 64 bits, and the chain is below its
      final height. */
  lemma TemplateExistsIff(s: State)
    ensures var outs := Plain(s.utxos);
            TemplateExists(s) <==>
              && |s.blocks| < 13440
              && AllPayable(Selected(s.mempool), outs)
              && Subsidy(|s.blocks|) + Left(Selected(s.mempool), outs) <= U64_MAX
  {
    MinerFeesExactly(Selected(s.mempool), Plain(s.utxos), 0);
  }

  /** While an input of one of the first 20 is absent, there is no template, and nothing is one. */
  lemma AbsentInputNoTemplate(s: State, i: nat, j: nat)
    requires i < Taken(s.mempool) && j < |s.mempool[i].tx.inputs|
    requires s.mempool[i].tx.inputs[j].prevTxOutputHash !in s.utxos
    ensures !TemplateExists(s)
    ensures forall key, id, amount, now, b :: !IsTemplate(s, key, id, amount, now, b)
  {
    TemplateExistsIff(s);
    assert Selected(s.mempool)[i] == s.mempool[i].tx;
    assert SpendsOfInputs(s.mempool[i].tx.inputs)[j] !in Plain(s.utxos);
  }

  lemma {:induction false} MissingInputStops(inputs: seq<TxInput>, outs: Outputs, amount: Amount, j: nat)
    requires j < |inputs| && inputs[j].prevTxOutputHash !in outs
    requires AllIn(SpendsOfInputs(inputs[..j]), outs) && amount + Value(SpendsOfInputs(inputs[..j]), outs) <= U64_MAX
    ensures InputAmount(inputs, outs, amount) == Failure(MissingOutput(inputs[j].prevTxOutputHash))
    decreases j
  {
    if j > 0 {
      var h := inputs[0].prevTxOutputHash;
      var rest := SpendsOfInputs(inputs[1..][..j - 1]);
      assert SpendsOfInputs(inputs[..j]) == [h] + rest;
      assert ([h] + rest)[1..] == rest && [h][0] == h;
      AllInConcat([h], rest, outs);
      MissingInputStops(inputs[1..], outs, amount + outs[h].amount, j - 1);
    }
  }

  /** The first transaction that cannot be paid for decides the error: a missing output, if the inputs
      before it are there and fit. */
  lemma {:induction false} MinerFeesStop(txs: seq<Tx>, outs: Outputs, fees: Amount, i: nat, j: nat)
    requires i < |txs| && AllPayable(txs[..i], outs) && fees + Left(txs[..i], outs) <= U64_MAX
    requires j < |txs[i].inputs| && txs[i].inputs[j].prevTxOutputHash !in outs
    requires var before := SpendsOfInputs(txs[i].inputs[..j]);
             AllIn(before, outs) && Value(before, outs) <= U64_MAX
    ensures MinerFees(txs, outs, fees) == Failure(MissingOutput(txs[i].inputs[j].prevTxOutputHash))
    decreases i
  {
    if i == 0 {
      MissingInputStops(txs[0].inputs, outs, 0, j);
    } else {
      assert txs[..i][0] == txs[0] && txs[..i][1..] == txs[1..][..i - 1];
      FirstPayable(txs[..i], outs);
      InputAmountExactly(txs[0].inputs, outs, 0);
      var gain := Value(SpendsOfInputs(txs[0].inputs), outs) - SumOutputs(txs[0].outputs);
      MinerFeesStop(txs[1..], outs, fees + gain, i - 1, j);
    }
  }

  // ---------- what a template holds ----------

  /** A template is a coinbase with a single output and then the first pooled transactions, at most 20 of
      them, each in its place; its header continues the tip at the ledger's target, with nonce zero. */
  lemma TemplateLists(s: State, key: PublicKey, id: nat, amount: Amount, now: Timestamp, b: Block)
    requires IsTemplate(s, key, id, amount, now, b)
    ensures |b.transactions| == 1 + Taken(s.mempool)
    ensures AllPayable(b.transactions[1..], Plain(s.utxos))
    ensures amount == Subsidy(|s.blocks|) + Left(b.transactions[1..], Plain(s.utxos))
    ensures b.transactions[0] == Tx([], [TxOutput(amount, id, key)])
    ensures forall i :: 0 <= i < Taken(s.mempool) ==> b.transactions[i + 1] == s.mempool[i].tx
    ensures b.header.timestamp == now && b.header.nonce == 0 && b.header.target == s.target
    ensures b.header.prevBlockHash == if s.blocks == [] then 0 else HashHeader(s.blocks[|s.blocks| - 1].header)
    ensures b.header.merkleRoot == Merkle.MerkleRoot(b.transactions)
  {
    MinerFeesExactly(Selected(s.mempool), Plain(s.utxos), 0);
    assert b.transactions[1..] == Selected(s.mempool);
  }

  // ---------- when it can be mined ----------

  /** No two of the transactions spend a common output. */
  ghost predicate PairwiseApart(txs: seq<Tx>) {
    forall i, j :: 0 <= i < j < |txs| ==> NoSharedInput(txs[i], txs[j])
  }

  ghost predicate EachDistinct(txs: seq<Tx>) {
    forall i :: 0 <= i < |txs| ==> Distinct(SpendsOfInputs(txs[i].inputs))
  }

  lemma {:induction false} SpentByOne(txs: seq<Tx>, h: Hash) returns (i: nat)
    requires h in Spends(txs)
    ensures i < |txs| && h in SpendsOfInputs(txs[i].inputs)
    decreases |txs|
  {
    var first := SpendsOfInputs(txs[0].inputs);
    if h in first {
      i := 0;
    } else {
      assert Spends(txs) == first + Spends(txs[1..]);
      var k := SpentByOne(txs[1..], h);
      i := k + 1;
    }
  }

  lemma FirstApart(txs: seq<Tx>)
    requires txs != [] && PairwiseApart(txs)
    ensures SetOf(SpendsOfInputs(txs[0].inputs)) !! SetOf(Spends(txs[1..]))
  {
    forall h | h in SetOf(Spends(txs[1..]))
      ensures h !in SetOf(SpendsOfInputs(txs[0].inputs))
    {
      var i := SpentByOne(txs[1..], h);
      assert NoSharedInput(txs[0], txs[i + 1]);
    }
  }

  /** Nothing is spent twice by transactions that each spend different outputs and share none. */
  lemma {:induction false} ApartSpendsDistinct(txs: seq<Tx>)
    requires PairwiseApart(txs) && EachDistinct(txs)
    ensures Distinct(Spends(txs))
    decreases |txs|
  {
    if txs != [] {
      var rest := txs[1..];
      forall i, j | 0 <= i < j < |rest|
        ensures NoSharedInput(rest[i], rest[j])
      {
        assert rest[i] == txs[i + 1] && rest[j] == txs[j + 1];
      }
      forall i | 0 <= i < |rest|
        ensures Distinct(SpendsOfInputs(rest[i].inputs))
      {
        assert rest[i] == txs[i + 1];
      }
      ApartSpendsDistinct(rest);
      FirstApart(txs);
      assert Distinct(SpendsOfInputs(txs[0].inputs));
      DistinctConcat(SpendsOfInputs(txs[0].inputs), Spends(rest));
    }
  }

  lemma DistinctMeansApart(txs: seq<Tx>)
    requires Distinct(Spends(txs))
    ensures PairwiseApart(txs)
  {
    forall i, j | 0 <= i < j < |txs|
      ensures NoSharedInput(txs[i], txs[j])
    {
      if !NoSharedInput(txs[i], txs[j]) {
        var h :| h in SpendsOfInputs(txs[i].inputs) && h in SpendsOfInputs(txs[j].inputs);
        Payments.SharedInputSpentTwice(txs, i, j, h);
      }
    }
  }

  /** Every one of the first 20 pooled transactions is signed. */
  ghost predicate FrontSigned(s: State) {
    forall i :: 0 <= i < Taken(s.mempool) ==> InputsSigned(s.mempool[i].tx.inputs, Plain(s.utxos))
  }

  /** No two of them spend a common output. */
  ghost predicate FrontApart(s: State) {
    forall i, j :: 0 <= i < j < Taken(s.mempool) ==> NoSharedInput(s.mempool[i].tx, s.mempool[j].tx)
  }

  lemma FrontMeans(s: State)
    ensures |Selected(s.mempool)| == Taken(s.mempool)
    ensures FrontApart(s) <==> PairwiseApart(Selected(s.mempool))
    ensures FrontSigned(s) <==>
              var txs := Selected(s.mempool);
              forall i :: 0 <= i < |txs| ==> InputsSigned(txs[i].inputs, Plain(s.utxos))
  {
    var txs := Selected(s.mempool);
    assert forall i :: 0 <= i < |txs| ==> txs[i] == s.mempool[i].tx;
    if FrontApart(s) {
      forall i, j | 0 <= i < j < |txs|
        ensures NoSharedInput(txs[i], txs[j])
      {
        assert NoSharedInput(s.mempool[i].tx, s.mempool[j].tx);
      }
    }
  }

  lemma FrontDistinct(s: State)
    requires Consistent(s.mempool, Plain(s.utxos))
    ensures EachDistinct(Selected(s.mempool))
  {
    var txs := Selected(s.mempool);
    forall i | 0 <= i < |txs|
      ensures Distinct(SpendsOfInputs(txs[i].inputs))
    {
      assert s.mempool[i] in s.mempool && Funded(txs[i], Plain(s.utxos));
    }
  }

  /** On a sound ledger, what a consistent pool has to offer can be mined exactly if its first 20
      transactions are signed and spend no output twice. */
  lemma FrontMinableIff(s: State)
    requires Sound(s) && Consistent(s.mempool, Plain(s.utxos))
    ensures SelectionMinable(s) <==> FrontSigned(s) && FrontApart(s)
  {
    var txs := Selected(s.mempool);
    Payments.ConsistentSelectionMinable(s);
    FrontMeans(s);
    FrontDistinct(s);
    if PairwiseApart(txs) {
      ApartSpendsDistinct(txs);
    }
    if Distinct(Spends(txs)) {
      DistinctMeansApart(txs);
    }
  }

  /** In particular a consistent pool of signed transactions without a conflict always yields a template
      below the final height, and whatever is mined from it extends the chain if it meets the tip's target
      and is later. */
  lemma ConflictFreePoolIsMined(
    s: State, key: PublicKey, id: nat, amount: Amount, now: Timestamp, b: Block, clock: seq<Timestamp>)
    requires Sound(s) && Consistent(s.mempool, Plain(s.utxos)) && ConflictFree(s.mempool)
    requires forall p :: p in s.mempool ==> InputsSigned(p.tx.inputs, Plain(s.utxos))
    ensures SelectionMinable(s)
    ensures |s.blocks| < FINAL_HEIGHT ==> TemplateExists(s)
    ensures IsTemplate(s, key, id, amount, now, b) ==>
              var mined := Candidate(b.header, clock);
              Extends(s.blocks, Block(mined, b.transactions)) <==>
                MeetsTip(s.blocks, mined) && LaterThanTip(s.blocks, mined.timestamp)
  {
    forall i | 0 <= i < Taken(s.mempool)
      ensures InputsSigned(s.mempool[i].tx.inputs, Plain(s.utxos))
    {
      assert s.mempool[i] in s.mempool;
    }
    forall i, j | 0 <= i < j < Taken(s.mempool)
      ensures NoSharedInput(s.mempool[i].tx, s.mempool[j].tx)
    {
      assert s.mempool[i] in s.mempool && s.mempool[j] in s.mempool;
      assert HashTx(s.mempool[i].tx) != HashTx(s.mempool[j].tx);
    }
    FrontMinableIff(s);
    if |s.blocks| < FINAL_HEIGHT {
      MinableTemplateExists(s);
    }
    if IsTemplate(s, key, id, amount, now, b) {
      MinedTemplateExtendsIff(s, key, id, amount, now, b, clock);
    }
  }
}
