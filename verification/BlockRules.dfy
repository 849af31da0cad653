/** What a block's transactions must satisfy, as the verifier computes it (accumulators and early
    exits) and as a statement about the whole block. */
module BlockRules {
  import opened Types
  import opened Arithmetic

  // ---------- the verifier, step by step ----------

  datatype InputScan = InputScan(spent: set<Hash>, amount: nat)

  function ScanInputs(inputs: seq<TxInput>, outs: Outputs, spent: set<Hash>, amount: nat): Result<InputScan> {
    if inputs == [] then Success(InputScan(spent, amount))
    else
      var h := inputs[0].prevTxOutputHash;
      if h !in outs then Failure(MissingOutput(h))
      else if h in spent then Failure(DoubleSpend(h))
      else if !Verify(inputs[0].signature, h, outs[h].pubkey) then Failure(InvalidSignature)
      else if amount + outs[h].amount > U64_MAX then Failure(Overflow)
      else ScanInputs(inputs[1..], outs, spent + {h}, amount + outs[h].amount)
  }

  /** Verifies non-coinbase transactions; the value is the fees they leave to the miner. */
  function ScanTxs(txs: seq<Tx>, outs: Outputs, spent: set<Hash>, fees: nat): Result<nat> {
    if txs == [] then Success(fees)
    else
      var scan :- ScanInputs(txs[0].inputs, outs, spent, 0);
      var paid := SumOutputs(txs[0].outputs);
      if paid > U64_MAX then Failure(Overflow)
      else if scan.amount < paid then Failure(SpendingMoreThanAvailable)
      else if fees + (scan.amount - paid) > U64_MAX then Failure(Overflow)
      else ScanTxs(txs[1..], outs, scan.spent, fees + (scan.amount - paid))
  }

  /** `2u64.pow` of a halving count cast to 32 bits; `None` when the power leaves 64 bits. */
  function HalvingDivisor(height: nat): (d: Option<nat>)
    ensures d.Some? ==> d.value > 0
  {
    var exponent := (height / HALVING_INTERVAL) % 0x1_0000_0000;
    if exponent >= 64 then None else Some(Pow2(exponent))
  }

  function CheckCoinbase(coinbase: Tx, height: nat, fees: nat): Outcome {
    if coinbase.inputs != [] then Fail(CoinbaseHasInputs)
    else if coinbase.outputs == [] then Fail(CoinbaseHasNoOutputs)
    else if HalvingDivisor(height) == None then Fail(Overflow)
    else
      var reward := Quotient(INITIAL_SUBSIDY, HalvingDivisor(height).value);
      var claimed := SumOutputs(coinbase.outputs);
      if claimed > U64_MAX || reward + fees > U64_MAX then Fail(Overflow)
      else if claimed != reward + fees then Fail(CoinbaseAmountWrong)
      else Pass
  }

  function CheckTransactions(txs: seq<Tx>, height: nat, outs: Outputs): Outcome {
    if txs == [] then Fail(NoTransactions)
    else
      var fees := ScanTxs(txs[1..], outs, {}, 0);
      if fees.Failure? then Fail(fees.error) else CheckCoinbase(txs[0], height, fees.value)
  }

  // ---------- the verifier's loops ----------

  method SumChecked(outputs: seq<TxOutput>) returns (r: Result<nat>)
    ensures r == if SumOutputs(outputs) > U64_MAX then Failure(Overflow) else Success(SumOutputs(outputs))
  {
    var sum := 0;
    for i := 0 to |outputs|
      invariant sum == SumOutputs(outputs[..i]) <= U64_MAX
    {
      SumOutputsSnoc(outputs, i);
      if sum + outputs[i].amount > U64_MAX {
        return Failure(Overflow);
      }
      sum := sum + outputs[i].amount;
    }
    assert outputs[..|outputs|] == outputs;
    return Success(sum);
  }

  method VerifyCoinbaseTransaction(coinbase: Tx, height: nat, fees: Amount) returns (r: Outcome)
    ensures r == CheckCoinbase(coinbase, height, fees)
  {
    if coinbase.inputs != [] {
      return Fail(CoinbaseHasInputs);
    }
    if coinbase.outputs == [] {
      return Fail(CoinbaseHasNoOutputs);
    }
    var divisor := HalvingDivisor(height);
    if divisor == None {
      return Fail(Overflow);
    }
    var reward := Quotient(INITIAL_SUBSIDY, divisor.value);
    var claimed := SumChecked(coinbase.outputs);
    if claimed.Failure? || reward + fees > U64_MAX {
      return Fail(Overflow);
    }
    if claimed.value != reward + fees {
      return Fail(CoinbaseAmountWrong);
    }
    return Pass;
  }

  /** The loop over one transaction's inputs. */
  method VerifyInputs(inputs: seq<TxInput>, outs: Outputs, spentBefore: set<Hash>) returns (r: Result<InputScan>)
    ensures r == ScanInputs(inputs, outs, spentBefore, 0)
  {
    var spentOutputs, inputAmount: nat := spentBefore, 0;
    for k := 0 to |inputs|
      invariant ScanInputs(inputs[k..], outs, spentOutputs, inputAmount)
             == ScanInputs(inputs, outs, spentBefore, 0)
    {
      var h := inputs[k].prevTxOutputHash;
      if h !in outs {
        return Failure(MissingOutput(h));
      }
      if h in spentOutputs {
        return Failure(DoubleSpend(h));
      }
      if !Verify(inputs[k].signature, h, outs[h].pubkey) {
        return Failure(InvalidSignature);
      }
      if inputAmount + outs[h].amount > U64_MAX {
        return Failure(Overflow);
      }
      inputAmount := inputAmount + outs[h].amount;
      spentOutputs := spentOutputs + {h};
    }
    return Success(InputScan(spentOutputs, inputAmount));
  }

  method VerifyTransactions(block: Block, height: nat, outs: Outputs) returns (r: Outcome)
    ensures r == CheckTransactions(block.transactions, height, outs)
  {
    var txs := block.transactions;
    if txs == [] {
      return Fail(NoTransactions);
    }
    var minerFees: nat := 0;
    var spentOutputs: set<Hash> := {};
    for i := 1 to |txs|
      invariant ScanTxs(txs[i..], outs, spentOutputs, minerFees) == ScanTxs(txs[1..], outs, {}, 0)
      invariant minerFees <= U64_MAX
    {
      var scan := VerifyInputs(txs[i].inputs, outs, spentOutputs);
      if scan.Failure? {
        return Fail(scan.error);
      }
      var outputAmount := SumChecked(txs[i].outputs);
      if outputAmount.Failure? {
        return Fail(Overflow);
      }
      if scan.value.amount < outputAmount.value {
        return Fail(SpendingMoreThanAvailable);
      }
      if minerFees + (scan.value.amount - outputAmount.value) > U64_MAX {
        return Fail(Overflow);
      }
      minerFees := minerFees + (scan.value.amount - outputAmount.value);
      spentOutputs := scan.value.spent;
    }
    r := VerifyCoinbaseTransaction(txs[0], height, minerFees);
  }

  // ---------- the verifier, as a statement about the block ----------

  function SpendsOfInputs(inputs: seq<TxInput>): (hs: seq<Hash>)
    ensures |hs| == |inputs|
    ensures forall i :: 0 <= i < |inputs| ==> hs[i] == inputs[i].prevTxOutputHash
  {
    seq(|inputs|, i requires 0 <= i < |inputs| => inputs[i].prevTxOutputHash)
  }

  /** All hashes the transactions spend, in order. */
  function Spends(txs: seq<Tx>): seq<Hash> {
    if txs == [] then [] else SpendsOfInputs(txs[0].inputs) + Spends(txs[1..])
  }

  /** All outputs the transactions create, in order. */
  function Creates(txs: seq<Tx>): seq<TxOutput> {
    if txs == [] then [] else txs[0].outputs + Creates(txs[1..])
  }

  ghost predicate AllIn(hs: seq<Hash>, outs: Outputs) {
    forall i :: 0 <= i < |hs| ==> hs[i] in outs
  }

  function Value(hs: seq<Hash>, outs: Outputs): nat
    requires AllIn(hs, outs)
  {
    if hs == [] then 0 else outs[hs[0]].amount + Value(hs[1..], outs)
  }

  lemma {:induction false} ValueConcat(a: seq<Hash>, b: seq<Hash>, outs: Outputs)
    requires AllIn(a, outs) && AllIn(b, outs)
    ensures AllIn(a + b, outs)
    ensures Value(a + b, outs) == Value(a, outs) + Value(b, outs)
  {
    if a == [] {
      assert a + b == b;
    } else {
      assert (a + b)[1..] == a[1..] + b;
      ValueConcat(a[1..], b, outs);
    }
  }

  ghost predicate InputsSigned(inputs: seq<TxInput>, outs: Outputs) {
    forall i :: 0 <= i < |inputs| ==>
      && inputs[i].prevTxOutputHash in outs
      && Verify(inputs[i].signature, inputs[i].prevTxOutputHash, outs[inputs[i].prevTxOutputHash].pubkey)
  }

  /** Every input names an available output and is signed for it, and no transaction pays out more
      than it takes in. */
  ghost predicate Balanced(tx: Tx, outs: Outputs) {
    && InputsSigned(tx.inputs, outs)
    && AllIn(SpendsOfInputs(tx.inputs), outs)
    && SumOutputs(tx.outputs) <= Value(SpendsOfInputs(tx.inputs), outs)
  }

  ghost predicate AllBalanced(txs: seq<Tx>, outs: Outputs) {
    forall i :: 0 <= i < |txs| ==> Balanced(txs[i], outs)
  }

  lemma {:induction false} SpendsAvailable(txs: seq<Tx>, outs: Outputs)
    requires AllBalanced(txs, outs)
    ensures AllIn(Spends(txs), outs)
    ensures SumOutputs(Creates(txs)) <= Value(Spends(txs), outs)
  {
    if txs != [] {
      assert Balanced(txs[0], outs);
      SpendsAvailable(txs[1..], outs);
      ValueConcat(SpendsOfInputs(txs[0].inputs), Spends(txs[1..]), outs);
      SumOutputsConcat(txs[0].outputs, Creates(txs[1..]));
    }
  }

  /** What one transaction leaves to the miner. */
  function Gain(tx: Tx, outs: Outputs): int
    requires AllIn(SpendsOfInputs(tx.inputs), outs)
  {
    Value(SpendsOfInputs(tx.inputs), outs) - SumOutputs(tx.outputs)
  }

  /** What the transactions take in over what they pay out. */
  ghost function Fees(txs: seq<Tx>, outs: Outputs): nat
    requires AllBalanced(txs, outs)
  {
    SpendsAvailable(txs, outs);
    Value(Spends(txs), outs) - SumOutputs(Creates(txs))
  }

  /** No transaction takes in more than 64 bits hold. */
  ghost predicate AllFit(txs: seq<Tx>, outs: Outputs) {
    forall i :: 0 <= i < |txs| ==> Fits(txs[i], outs)
  }

  ghost predicate Fits(tx: Tx, outs: Outputs) {
    AllIn(SpendsOfInputs(tx.inputs), outs) && Value(SpendsOfInputs(tx.inputs), outs) <= U64_MAX
  }

  /** The transactions after the coinbase: balanced, signed, and no output spent twice anywhere in
      the block. */
  ghost predicate Spendable(txs: seq<Tx>, outs: Outputs) {
    AllBalanced(txs, outs) && Distinct(Spends(txs))
  }

  function SetOf(hs: seq<Hash>): set<Hash> {
    set i | 0 <= i < |hs| :: hs[i]
  }

  lemma SetOfConcat(a: seq<Hash>, b: seq<Hash>)
    ensures SetOf(a + b) == SetOf(a) + SetOf(b)
  {
    var c := a + b;
    forall h | h in SetOf(a) + SetOf(b)
      ensures h in SetOf(c)
    {
      if h in SetOf(a) {
        var i :| 0 <= i < |a| && a[i] == h;
        assert c[i] == h;
      } else {
        var i :| 0 <= i < |b| && b[i] == h;
        assert c[|a| + i] == h;
      }
    }
  }

  lemma DistinctParts(a: seq<Hash>, b: seq<Hash>)
    requires Distinct(a + b)
    ensures Distinct(a) && Distinct(b) && SetOf(a) !! SetOf(b)
  {
    var c := a + b;
    forall i, j | 0 <= i < j < |a|
      ensures a[i] != a[j]
    {
      assert c[i] != c[j];
    }
    forall i, j | 0 <= i < j < |b|
      ensures b[i] != b[j]
    {
      assert c[|a| + i] != c[|a| + j];
    }
    forall i, j | 0 <= i < |a| && 0 <= j < |b|
      ensures a[i] != b[j]
    {
      assert c[i] != c[|a| + j];
    }
  }

  lemma DistinctConcat(a: seq<Hash>, b: seq<Hash>)
    ensures Distinct(a + b) <==> Distinct(a) && Distinct(b) && SetOf(a) !! SetOf(b)
    ensures SetOf(a + b) == SetOf(a) + SetOf(b)
  {
    SetOfConcat(a, b);
    if Distinct(a + b) {
      DistinctParts(a, b);
    }
    if Distinct(a) && Distinct(b) && SetOf(a) !! SetOf(b) {
      forall i, j | 0 <= i < j < |a + b|
        ensures (a + b)[i] != (a + b)[j]
      {
        if i < |a| <= j {
          assert a[i] in SetOf(a) && b[j - |a|] in SetOf(b);
        }
      }
    }
  }

  /** The inputs are signed for available outputs, all different and none of them in `spent`. */
  ghost predicate InputsSpendable(inputs: seq<TxInput>, outs: Outputs, spent: set<Hash>) {
    var hs := SpendsOfInputs(inputs);
    InputsSigned(inputs, outs) && AllIn(hs, outs) && Distinct(hs) && SetOf(hs) !! spent
  }

  lemma SignedSplit(inputs: seq<TxInput>, outs: Outputs)
    requires inputs != []
    ensures var h := inputs[0].prevTxOutputHash;
            InputsSigned(inputs, outs) <==>
              h in outs && Verify(inputs[0].signature, h, outs[h].pubkey) && InputsSigned(inputs[1..], outs)
  {
    if InputsSigned(inputs[1..], outs) {
      forall i | 1 <= i < |inputs|
        ensures inputs[i].prevTxOutputHash in outs
        ensures Verify(inputs[i].signature, inputs[i].prevTxOutputHash, outs[inputs[i].prevTxOutputHash].pubkey)
      {
        assert inputs[i] == inputs[1..][i - 1];
      }
    }
  }

  lemma InputsSplit(inputs: seq<TxInput>, outs: Outputs, spent: set<Hash>)
    requires inputs != []
    ensures var h := inputs[0].prevTxOutputHash;
            && SpendsOfInputs(inputs) == [h] + SpendsOfInputs(inputs[1..])
            && SetOf(SpendsOfInputs(inputs)) == {h} + SetOf(SpendsOfInputs(inputs[1..]))
            && (InputsSpendable(inputs, outs, spent) <==>
                  && h in outs && h !in spent && Verify(inputs[0].signature, h, outs[h].pubkey)
                  && InputsSpendable(inputs[1..], outs, spent + {h}))
  {
    var h := inputs[0].prevTxOutputHash;
    var rest := SpendsOfInputs(inputs[1..]);
    assert SpendsOfInputs(inputs) == [h] + rest;
    assert SetOf([h]) == {h} by {
      assert [h][0] == h;
    }
    DistinctConcat([h], rest);
    SignedSplit(inputs, outs);
    AllInConcat([h], rest, outs);
  }

  lemma AllInConcat(a: seq<Hash>, b: seq<Hash>, outs: Outputs)
    ensures AllIn(a + b, outs) <==> AllIn(a, outs) && AllIn(b, outs)
  {
    if AllIn(a + b, outs) {
      forall i | 0 <= i < |a|
        ensures a[i] in outs
      {
        assert (a + b)[i] in outs;
      }
      forall i | 0 <= i < |b|
        ensures b[i] in outs
      {
        assert (a + b)[|a| + i] in outs;
      }
    }
  }

  lemma {:induction false} ScanInputsExact(inputs: seq<TxInput>, outs: Outputs, spent: set<Hash>, amount: Amount)
    ensures ScanInputs(inputs, outs, spent, amount).Success? <==>
              && InputsSpendable(inputs, outs, spent)
              && amount + Value(SpendsOfInputs(inputs), outs) <= U64_MAX
    ensures ScanInputs(inputs, outs, spent, amount).Success? ==>
              var hs := SpendsOfInputs(inputs);
              ScanInputs(inputs, outs, spent, amount).value == InputScan(spent + SetOf(hs), amount + Value(hs, outs))
    decreases |inputs|
  {
    if inputs == [] {
      assert SetOf(SpendsOfInputs(inputs)) == {};
    } else {
      var h := inputs[0].prevTxOutputHash;
      InputsSplit(inputs, outs, spent);
      if h in outs && amount + outs[h].amount <= U64_MAX {
        ScanInputsExact(inputs[1..], outs, spent + {h}, amount + outs[h].amount);
      }
    }
  }

  lemma SpendsSplit(txs: seq<Tx>, outs: Outputs)
    requires txs != []
    ensures AllBalanced(txs, outs) <==> Balanced(txs[0], outs) && AllBalanced(txs[1..], outs)
    ensures AllFit(txs, outs) <==> Fits(txs[0], outs) && AllFit(txs[1..], outs)
    ensures AllBalanced(txs, outs) ==>
              Fees(txs, outs) == Gain(txs[0], outs) + Fees(txs[1..], outs)
  {
    assert txs == [txs[0]] + txs[1..];
    if AllBalanced(txs, outs) {
      SpendsAvailable(txs, outs);
      SpendsAvailable(txs[1..], outs);
      ValueConcat(SpendsOfInputs(txs[0].inputs), Spends(txs[1..]), outs);
      SumOutputsConcat(txs[0].outputs, Creates(txs[1..]));
    }
  }

  /** The transactions are balanced, fit in 64 bits and spend nothing twice or from `spent`. */
  ghost predicate TxsSpendable(txs: seq<Tx>, outs: Outputs, spent: set<Hash>) {
    AllBalanced(txs, outs) && AllFit(txs, outs) && Distinct(Spends(txs)) && SetOf(Spends(txs)) !! spent
  }

  lemma TxsSpendableSplit(txs: seq<Tx>, outs: Outputs, spent: set<Hash>)
    requires txs != []
    ensures var hs := SpendsOfInputs(txs[0].inputs);
            TxsSpendable(txs, outs, spent) <==>
              && Balanced(txs[0], outs) && Fits(txs[0], outs)
              && InputsSpendable(txs[0].inputs, outs, spent)
              && TxsSpendable(txs[1..], outs, spent + SetOf(hs))
  {
    SpendsSplit(txs, outs);
    DistinctConcat(SpendsOfInputs(txs[0].inputs), Spends(txs[1..]));
  }

  /** The scan takes the transaction in. */
  ghost predicate Takes(tx: Tx, outs: Outputs, spent: set<Hash>, fees: Amount) {
    && Balanced(tx, outs) && Fits(tx, outs) && InputsSpendable(tx.inputs, outs, spent)
    && fees + Gain(tx, outs) <= U64_MAX
  }

  /** One step of the scan. */
  lemma ScanTxsStep(txs: seq<Tx>, outs: Outputs, spent: set<Hash>, fees: Amount)
    requires txs != []
    ensures if Takes(txs[0], outs, spent, fees)
            then ScanTxs(txs, outs, spent, fees)
              == ScanTxs(txs[1..], outs, spent + SetOf(SpendsOfInputs(txs[0].inputs)), fees + Gain(txs[0], outs))
            else ScanTxs(txs, outs, spent, fees).Failure?
  {
    ScanInputsExact(txs[0].inputs, outs, spent, 0);
  }

  /** What the scan accepts. */
  ghost predicate Scannable(txs: seq<Tx>, outs: Outputs, spent: set<Hash>, fees: Amount) {
    TxsSpendable(txs, outs, spent) && fees + Fees(txs, outs) <= U64_MAX
  }

  lemma ScannableStep(txs: seq<Tx>, outs: Outputs, spent: set<Hash>, fees: Amount)
    requires txs != []
    ensures Scannable(txs, outs, spent, fees) ==> Takes(txs[0], outs, spent, fees)
    ensures Takes(txs[0], outs, spent, fees) ==>
              var rest, fees' := txs[1..], fees + Gain(txs[0], outs);
              && (Scannable(txs, outs, spent, fees) <==>
                    Scannable(rest, outs, spent + SetOf(SpendsOfInputs(txs[0].inputs)), fees'))
              && (Scannable(txs, outs, spent, fees) ==> fees + Fees(txs, outs) == fees' + Fees(rest, outs))
  {
    TxsSpendableSplit(txs, outs, spent);
    SpendsSplit(txs, outs);
  }

  /** The scan's verdict and value are what the list says. */
  ghost predicate ScansExactly(txs: seq<Tx>, outs: Outputs, spent: set<Hash>, fees: Amount, scan: Result<nat>) {
    && (scan.Success? <==> Scannable(txs, outs, spent, fees))
    && (scan.Success? ==> scan.value == fees + Fees(txs, outs))
  }

  lemma ScansExactlyStep(txs: seq<Tx>, outs: Outputs, spent: set<Hash>, fees: Amount, scan: Result<nat>)
    requires txs != [] && Takes(txs[0], outs, spent, fees)
    requires ScansExactly(txs[1..], outs, spent + SetOf(SpendsOfInputs(txs[0].inputs)), fees + Gain(txs[0], outs), scan)
    ensures ScansExactly(txs, outs, spent, fees, scan)
  {
    ScannableStep(txs, outs, spent, fees);
  }

  lemma NotScannable(txs: seq<Tx>, outs: Outputs, spent: set<Hash>, fees: Amount)
    requires txs != [] && !Takes(txs[0], outs, spent, fees)
    ensures !Scannable(txs, outs, spent, fees)
  {
    ScannableStep(txs, outs, spent, fees);
  }

  /** The accumulating scan accepts exactly the balanced transactions that spend nothing twice, and
      its value is their fees. */
  lemma {:induction false} ScanTxsExact(txs: seq<Tx>, outs: Outputs, spent: set<Hash>, fees: Amount)
    ensures ScansExactly(txs, outs, spent, fees, ScanTxs(txs, outs, spent, fees))
    decreases |txs|
  {
    if txs == [] {
      assert SetOf(Spends(txs)) == {};
    } else {
      ScanTxsStep(txs, outs, spent, fees);
      if Takes(txs[0], outs, spent, fees) {
        var spent', fees' := spent + SetOf(SpendsOfInputs(txs[0].inputs)), fees + Gain(txs[0], outs);
        ScanTxsExact(txs[1..], outs, spent', fees');
        ScansExactlyStep(txs, outs, spent, fees, ScanTxs(txs[1..], outs, spent', fees'));
      } else {
        NotScannable(txs, outs, spent, fees);
      }
    }
  }

  /** The verifier passes a list when its tail is spendable and its coinbase claims the subsidy and
      the tail's fees. */
  lemma PassMeans(txs: seq<Tx>, height: nat, outs: Outputs)
    ensures CheckTransactions(txs, height, outs) == Pass <==>
              && txs != []
              && TxsSpendable(txs[1..], outs, {}) && Fees(txs[1..], outs) <= U64_MAX
              && CheckCoinbase(txs[0], height, Fees(txs[1..], outs)) == Pass
  {
    if txs != [] {
      ScanTxsExact(txs[1..], outs, {}, 0);
    }
  }

  // ---------- the subsidy ----------

  /** The block subsidy in sats, as a shift; overflow-checked shifts end at 64 bits. */
  function Subsidy(height: nat): nat {
    ShiftRight(INITIAL_SUBSIDY, height / HALVING_INTERVAL)
  }

  /** The first height at which the halving divisor no longer fits in 64 bits. */
  const FINAL_HEIGHT: nat := 64 * HALVING_INTERVAL

  /** The verifier's division and the template's shift give the same subsidy. */
  lemma DivisorBelowFinalHeight(height: nat)
    ensures height < FINAL_HEIGHT ==>
              && HalvingDivisor(height).Some?
              && Quotient(INITIAL_SUBSIDY, HalvingDivisor(height).value) == Subsidy(height)
    ensures FINAL_HEIGHT <= height < 0x1_0000_0000 * HALVING_INTERVAL ==> HalvingDivisor(height) == None
  {
    HalvingsOf(height);
    ShiftIsQuotient(INITIAL_SUBSIDY, height / HALVING_INTERVAL);
  }

  lemma HalvingsOf(height: nat)
    ensures height < FINAL_HEIGHT <==> height / HALVING_INTERVAL < 64
    ensures height < 0x1_0000_0000 * HALVING_INTERVAL ==>
              (height / HALVING_INTERVAL) % 0x1_0000_0000 == height / HALVING_INTERVAL
  {
  }

  lemma {:induction false} ShiftHalves(x: nat, e: nat)
    ensures ShiftRight(x, e + 1) == ShiftRight(x, e) / 2
    decreases e
  {
    if e > 0 {
      ShiftHalves(x / 2, e - 1);
    }
  }

  /** The subsidy starts at 50 bitcoins, halves, rounded down, every 210 blocks, and does not change in
      between. */
  lemma SubsidyHalves(height: nat)
    ensures height < 210 ==> Subsidy(height) == 5_000_000_000
    ensures Subsidy(height + 210) == Subsidy(height) / 2
    ensures (height + 1) % 210 != 0 ==> Subsidy(height + 1) == Subsidy(height)
  {
    assert (height + 210) / 210 == height / 210 + 1;
    ShiftHalves(INITIAL_SUBSIDY, height / 210);
  }

  /** The transactions of a block, judged without accumulators or machine arithmetic. */
  ghost predicate ValidTransactions(txs: seq<Tx>, height: nat, outs: Outputs) {
    && txs != []
    && txs[0].inputs == [] && txs[0].outputs != []
    && Spendable(txs[1..], outs)
    && SumOutputs(txs[0].outputs) == Subsidy(height) + Fees(txs[1..], outs)
  }

  /** Below the final height, the verifier accepts exactly the valid transaction lists whose sums
      fit in 64 bits. */
  lemma CheckTransactionsExact(txs: seq<Tx>, height: nat, outs: Outputs)
    requires height < FINAL_HEIGHT
    ensures CheckTransactions(txs, height, outs) == Pass <==>
              && ValidTransactions(txs, height, outs)
              && AllFit(txs[1..], outs)
              && SumOutputs(txs[0].outputs) <= U64_MAX
  {
    DivisorBelowFinalHeight(height);
    PassMeans(txs, height, outs);
  }
}
