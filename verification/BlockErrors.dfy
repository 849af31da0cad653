/** Which error a refused block is refused with: that of the first check that fails, in the order of the
    source. */
module BlockErrors {
  import opened Types
  import opened BlockRules
  import opened Replay
  import opened Chain
  import opened Ledger
  import Merkle

  // ---------- scanning in two parts ----------

  lemma {:induction false} ScanInputsContinues(
    a: seq<TxInput>, b: seq<TxInput>, outs: Outputs, spent: set<Hash>, amount: nat)
    ensures var first := ScanInputs(a, outs, spent, amount);
            ScanInputs(a + b, outs, spent, amount)
              == if first.Success? then ScanInputs(b, outs, first.value.spent, first.value.amount) else first
    decreases |a|
  {
    if a == [] {
      assert a + b == b;
    } else {
      var h := a[0].prevTxOutputHash;
      assert (a + b)[0] == a[0] && (a + b)[1..] == a[1..] + b;
      if h in outs {
        ScanInputsContinues(a[1..], b, outs, spent + {h}, amount + outs[h].amount);
      }
    }
  }

  /** What one transaction is scanned to: the spent hashes and the fee it adds. */
  function ScanTx(tx: Tx, outs: Outputs, spent: set<Hash>, fees: nat): Result<InputScan> {
    var scan :- ScanInputs(tx.inputs, outs, spent, 0);
    var paid := SumOutputs(tx.outputs);
    if paid > U64_MAX then Failure(Overflow)
    else if scan.amount < paid then Failure(SpendingMoreThanAvailable)
    else if fees + (scan.amount - paid) > U64_MAX then Failure(Overflow)
    else Success(InputScan(scan.spent, fees + (scan.amount - paid)))
  }

  lemma ScanTxRefused(tx: Tx, b: seq<Tx>, outs: Outputs, spent: set<Hash>, fees: nat)
    ensures var r := ScanTx(tx, outs, spent, fees);
            r.Failure? ==> ScanTxs([tx] + b, outs, spent, fees) == Failure(r.error)
  {
    assert ([tx] + b)[0] == tx;
  }

  lemma SpentSoFar(first: Tx, rest: seq<Tx>, spent: set<Hash>)
    ensures spent + SetOf(Spends([first] + rest)) == spent + SetOf(SpendsOfInputs(first.inputs)) + SetOf(Spends(rest))
  {
    assert ([first] + rest)[0] == first && ([first] + rest)[1..] == rest;
    SetOfConcat(SpendsOfInputs(first.inputs), Spends(rest));
  }

  lemma ConsTxs(a: seq<Tx>, b: seq<Tx>)
    requires a != []
    ensures a == [a[0]] + a[1..]
    ensures a + b != [] && (a + b)[0] == a[0] && (a + b)[1..] == a[1..] + b
  {
  }

  /** What the scan of a list of transactions that pass has gathered at its end. */
  ghost predicate GathersAs(a: seq<Tx>, outs: Outputs, spent: set<Hash>, fees: Amount, end: InputScan) {
    Scannable(a, outs, spent, fees) && end == InputScan(spent + SetOf(Spends(a)), fees + Fees(a, outs))
  }

  lemma FirstGathered(a: seq<Tx>, outs: Outputs, spent: set<Hash>, fees: Amount, end: InputScan)
    requires a != [] && GathersAs(a, outs, spent, fees, end)
    ensures Takes(a[0], outs, spent, fees)
    ensures GathersAs(a[1..], outs, spent + SetOf(SpendsOfInputs(a[0].inputs)), fees + Gain(a[0], outs), end)
  {
    ScannableStep(a, outs, spent, fees);
    ConsTxs(a, []);
    SpentSoFar(a[0], a[1..], spent);
  }

  lemma FirstScanned(a: seq<Tx>, b: seq<Tx>, outs: Outputs, spent: set<Hash>, fees: Amount)
    requires a != [] && Takes(a[0], outs, spent, fees)
    ensures ScanTxs(a + b, outs, spent, fees)
         == ScanTxs(a[1..] + b, outs, spent + SetOf(SpendsOfInputs(a[0].inputs)), fees + Gain(a[0], outs))
  {
    ConsTxs(a, b);
    ScanTxsStep(a + b, outs, spent, fees);
  }

  lemma OneScanned(a: seq<Tx>, b: seq<Tx>, outs: Outputs, spent: set<Hash>, fees: Amount, end: InputScan)
      returns (spent': set<Hash>, fees': Amount)
    requires a != [] && GathersAs(a, outs, spent, fees, end)
    ensures GathersAs(a[1..], outs, spent', fees', end)
    ensures ScanTxs(a + b, outs, spent, fees) == ScanTxs(a[1..] + b, outs, spent', fees')
  {
    FirstGathered(a, outs, spent, fees, end);
    FirstScanned(a, b, outs, spent, fees);
    spent', fees' := spent + SetOf(SpendsOfInputs(a[0].inputs)), fees + Gain(a[0], outs);
  }

  lemma NothingScanned(b: seq<Tx>, outs: Outputs, spent: set<Hash>, fees: Amount, end: InputScan)
    requires GathersAs([], outs, spent, fees, end)
    ensures ScanTxs([] + b, outs, spent, fees) == ScanTxs(b, outs, end.spent, end.amount)
  {
    assert SetOf(Spends([])) == {} && spent + {} == spent;
    assert end == InputScan(spent, fees);
    assert [] + b == b;
  }

  /** Behind transactions that pass, the scan goes on with what they spent and left. */
  lemma {:induction false} ScanTxsContinues(
    a: seq<Tx>, b: seq<Tx>, outs: Outputs, spent: set<Hash>, fees: Amount, end: InputScan)
    requires GathersAs(a, outs, spent, fees, end)
    ensures ScanTxs(a + b, outs, spent, fees) == ScanTxs(b, outs, end.spent, end.amount)
    decreases |a|
  {
    if a == [] {
      NothingScanned(b, outs, spent, fees, end);
    } else {
      var spent', fees' := OneScanned(a, b, outs, spent, fees, end);
      ScanTxsContinues(a[1..], b, outs, spent', fees', end);
    }
  }

  /** A list of which the first transactions pass is refused for the next one exactly as that one is. */
  lemma ScanTxsStops(a: seq<Tx>, tx: Tx, b: seq<Tx>, outs: Outputs, spent: set<Hash>, fees: Amount)
    requires Scannable(a, outs, spent, fees)
    ensures var r := ScanTx(tx, outs, spent + SetOf(Spends(a)), fees + Fees(a, outs));
            r.Failure? ==> ScanTxs(a + ([tx] + b), outs, spent, fees) == Failure(r.error)
  {
    ScanTxsContinues(a, [tx] + b, outs, spent, fees, InputScan(spent + SetOf(Spends(a)), fees + Fees(a, outs)));
    ScanTxRefused(tx, b, outs, spent + SetOf(Spends(a)), fees + Fees(a, outs));
  }

  // ---------- the errors of a transaction ----------

  /** The first `i` inputs pass. */
  ghost predicate PassesUpTo(inputs: seq<TxInput>, outs: Outputs, spent: set<Hash>, i: nat) {
    && i <= |inputs| && InputsSpendable(inputs[..i], outs, spent)
    && Value(SpendsOfInputs(inputs[..i]), outs) <= U64_MAX
  }

  lemma ScanUpTo(inputs: seq<TxInput>, outs: Outputs, spent: set<Hash>, i: nat)
    requires PassesUpTo(inputs, outs, spent, i)
    ensures var hs := SpendsOfInputs(inputs[..i]);
            ScanInputs(inputs, outs, spent, 0)
              == ScanInputs(inputs[i..], outs, spent + SetOf(hs), Value(hs, outs))
  {
    assert inputs == inputs[..i] + inputs[i..];
    ScanInputsExact(inputs[..i], outs, spent, 0);
    ScanInputsContinues(inputs[..i], inputs[i..], outs, spent, 0);
  }

  /** The error of an input that is the first not to pass: it is not there, or it is spent already by the
      block, or its signature does not verify, or the sum leaves 64 bits; in this order. */
  lemma InputError(inputs: seq<TxInput>, outs: Outputs, spent: set<Hash>, i: nat)
    requires PassesUpTo(inputs, outs, spent, i) && i < |inputs|
    ensures var h := inputs[i].prevTxOutputHash;
            var r := ScanInputs(inputs, outs, spent, 0);
            if h !in outs then r == Failure(MissingOutput(h))
            else if h in spent || h in SpendsOfInputs(inputs[..i]) then r == Failure(DoubleSpend(h))
            else if !Verify(inputs[i].signature, h, outs[h].pubkey) then r == Failure(InvalidSignature)
            else Value(SpendsOfInputs(inputs[..i]), outs) + outs[h].amount > U64_MAX ==> r == Failure(Overflow)
  {
    ScanUpTo(inputs, outs, spent, i);
    assert inputs[i..][0] == inputs[i];
    var hs := SpendsOfInputs(inputs[..i]);
    assert forall h :: h in SetOf(hs) <==> h in hs;
  }

  /** The error of a transaction all of whose inputs pass. */
  lemma OutputError(tx: Tx, outs: Outputs, spent: set<Hash>, fees: nat)
    requires PassesUpTo(tx.inputs, outs, spent, |tx.inputs|)
    ensures var worth, paid := Value(SpendsOfInputs(tx.inputs), outs), SumOutputs(tx.outputs);
            && AllIn(SpendsOfInputs(tx.inputs), outs)
            && (worth < paid <= U64_MAX ==> ScanTx(tx, outs, spent, fees) == Failure(SpendingMoreThanAvailable))
            && (paid > U64_MAX ==> ScanTx(tx, outs, spent, fees) == Failure(Overflow))
  {
    assert tx.inputs[..|tx.inputs|] == tx.inputs;
    ScanInputsExact(tx.inputs, outs, spent, 0);
  }

  // ---------- the errors of a block's transactions ----------

  /** The transactions before the i-th, the coinbase aside, pass. */
  ghost predicate TxsPassUpTo(txs: seq<Tx>, outs: Outputs, i: nat) {
    1 <= i <= |txs| && Scannable(txs[1..i], outs, {}, 0)
  }

  lemma SplitAt(txs: seq<Tx>, i: nat)
    requires 1 <= i < |txs|
    ensures txs[1..] == txs[1..i] + ([txs[i]] + txs[i + 1..])
  {
  }

  /** The verdict on a transaction behind those before it. */
  ghost function VerdictAt(txs: seq<Tx>, outs: Outputs, i: nat): Result<InputScan>
    requires TxsPassUpTo(txs, outs, i) && i < |txs|
  {
    ScanTx(txs[i], outs, SetOf(Spends(txs[1..i])), Fees(txs[1..i], outs))
  }

  lemma FirstBadTx(txs: seq<Tx>, height: nat, outs: Outputs, i: nat)
    requires TxsPassUpTo(txs, outs, i) && i < |txs|
    ensures var r := VerdictAt(txs, outs, i);
            r.Failure? ==> CheckTransactions(txs, height, outs) == Fail(r.error)
  {
    var before := txs[1..i];
    SplitAt(txs, i);
    ScanTxsStops(before, txs[i], txs[i + 1..], outs, {}, 0);
    assert {} + SetOf(Spends(before)) == SetOf(Spends(before));
  }

  /** A block whose first bad input is the j-th of the i-th transaction is refused for that input: because
      it is not unspent, or spent earlier in the block, or not signed by its owner. */
  lemma BlockInputError(txs: seq<Tx>, height: nat, outs: Outputs, i: nat, j: nat)
    requires TxsPassUpTo(txs, outs, i) && i < |txs|
    requires PassesUpTo(txs[i].inputs, outs, SetOf(Spends(txs[1..i])), j) && j < |txs[i].inputs|
    ensures var input, r := txs[i].inputs[j], CheckTransactions(txs, height, outs);
            var h := input.prevTxOutputHash;
            if h !in outs then r == Fail(MissingOutput(h))
            else if h in Spends(txs[1..i]) || h in SpendsOfInputs(txs[i].inputs[..j]) then r == Fail(DoubleSpend(h))
            else !Verify(input.signature, h, outs[h].pubkey) ==> r == Fail(InvalidSignature)
  {
    var spent := SetOf(Spends(txs[1..i]));
    assert forall h :: h in spent <==> h in Spends(txs[1..i]);
    InputError(txs[i].inputs, outs, spent, j);
    FirstBadTx(txs, height, outs, i);
  }

  /** A block whose first bad transaction pays out more than it takes in is refused for that. */
  lemma BlockOverspends(txs: seq<Tx>, height: nat, outs: Outputs, i: nat)
    requires TxsPassUpTo(txs, outs, i) && i < |txs|
    requires PassesUpTo(txs[i].inputs, outs, SetOf(Spends(txs[1..i])), |txs[i].inputs|)
    requires AllIn(SpendsOfInputs(txs[i].inputs), outs)
    requires Value(SpendsOfInputs(txs[i].inputs), outs) < SumOutputs(txs[i].outputs) <= U64_MAX
    ensures CheckTransactions(txs, height, outs) == Fail(SpendingMoreThanAvailable)
  {
    OutputError(txs[i], outs, SetOf(Spends(txs[1..i])), Fees(txs[1..i], outs));
    FirstBadTx(txs, height, outs, i);
  }

  /** A block whose other transactions pass is refused for its coinbase: inputs, no outputs, the divisor
      past the final height, or a claim other than subsidy plus fees; in this order. */
  lemma BlockCoinbaseError(txs: seq<Tx>, height: nat, outs: Outputs)
    requires TxsPassUpTo(txs, outs, |txs|)
    ensures var r, fees := CheckTransactions(txs, height, outs), Fees(txs[1..], outs);
            && txs[1..|txs|] == txs[1..]
            && if txs[0].inputs != [] then r == Fail(CoinbaseHasInputs)
               else if txs[0].outputs == [] then r == Fail(CoinbaseHasNoOutputs)
               else
                 && (FINAL_HEIGHT <= height < 0x1_0000_0000 * HALVING_INTERVAL ==> r == Fail(Overflow))
                 && (height < FINAL_HEIGHT && SumOutputs(txs[0].outputs) <= U64_MAX
                     && Subsidy(height) + fees <= U64_MAX ==>
                       r == if SumOutputs(txs[0].outputs) == Subsidy(height) + fees then Pass
                            else Fail(CoinbaseAmountWrong))
  {
    assert txs[1..|txs|] == txs[1..];
    ScanTxsExact(txs[1..], outs, {}, 0);
    DivisorBelowFinalHeight(height);
  }

  // ---------- the errors of a header ----------

  /** Which check of its header a block is refused for: the parent, the parent's target, the Merkle root,
      the time, in this order, before its transactions are looked at; on an empty chain only the parent
      is.  A refusal changes nothing, and a block without transactions is always refused. */
  lemma HeaderError(s: State, b: Block)
    ensures var r, outs := Submitted(s, b), Plain(s.utxos);
            if s.blocks == [] then
              if b.header.prevBlockHash != 0 then r == Added(s, Fail(FirstBlockPrevHashNotZero))
              else RefusedAs(s, r, CheckTransactions(b.transactions, 0, outs))
            else
              var tip := s.blocks[|s.blocks| - 1].header;
              if b.header.prevBlockHash != HashHeader(tip) then r == Added(s, Fail(PrevHashMismatch))
              else if HashHeader(b.header) > tip.target then r == Added(s, Fail(TargetNotMet))
              else if b.header.merkleRoot != Merkle.MerkleRoot(b.transactions) then
                r == Added(s, Fail(InvalidMerkleRoot))
              else if b.header.timestamp <= tip.timestamp then r == Added(s, Fail(TimestampNotAfterPrevious))
              else RefusedAs(s, r, CheckTransactions(b.transactions, |s.blocks|, outs))
    ensures b.transactions == [] ==>
              CheckTransactions(b.transactions, |s.blocks|, Plain(s.utxos)) == Fail(NoTransactions)
  {
  }

  /** A block whose transactions fail is refused for them; otherwise it is pushed. */
  ghost predicate RefusedAs(s: State, r: Added, transactions: Outcome) {
    if transactions.Fail? then r == Added(s, transactions)
    else |r.state.blocks| == |s.blocks| + 1 && (r.outcome == Pass || r.outcome == Fail(RetargetFault))
  }
}
