/** Money: fees move and are never minted, the supply is capped, and the verifier's sums always fit
    in 64 bits. */
module Supply {
  import opened Types
  import opened Arithmetic
  import opened BlockRules
  import opened Replay
  import opened Chain

  // ---------- the total of a set of outputs ----------

  ghost function Total(outs: Outputs): nat
    decreases |outs|
  {
    if outs == map[] then 0
    else
      var key :| key in outs;
      outs[key].amount + Total(outs - {key})
  }

  lemma {:induction false} TotalWithout(outs: Outputs, key: Hash)
    requires key in outs
    ensures Total(outs) == outs[key].amount + Total(outs - {key})
    decreases |outs|
  {
    var first :| first in outs && Total(outs) == outs[first].amount + Total(outs - {first});
    if first != key {
      TotalWithout(outs - {first}, key);
      TotalWithout(outs - {key}, first);
      assert outs - {first} - {key} == outs - {key} - {first};
    }
  }

  lemma TotalWith(outs: Outputs, key: Hash, output: TxOutput)
    ensures Total(outs[key := output]) + (if key in outs then outs[key].amount else 0) == Total(outs) + output.amount
  {
    TotalWithout(outs[key := output], key);
    if key in outs {
      TotalWithout(outs, key);
      assert outs[key := output] - {key} == outs - {key};
    } else {
      assert outs[key := output] - {key} == outs;
    }
  }

  /** Spending distinct outputs cannot take in more than there is. */
  lemma {:induction false} ValueWithinTotal(hs: seq<Hash>, outs: Outputs)
    requires AllIn(hs, outs) && Distinct(hs)
    ensures Value(hs, outs) <= Total(outs)
    decreases |hs|
  {
    if hs != [] {
      var rest := outs - {hs[0]};
      TotalWithout(outs, hs[0]);
      ValueSame(hs[1..], outs, rest);
      ValueWithinTotal(hs[1..], rest);
    }
  }

  lemma {:induction false} ValueSame(hs: seq<Hash>, a: Outputs, b: Outputs)
    requires AllIn(hs, a)
    requires forall i :: 0 <= i < |hs| ==> hs[i] in b && a[hs[i]].amount == b[hs[i]].amount
    ensures AllIn(hs, b) && Value(hs, a) == Value(hs, b)
    decreases |hs|
  {
    if hs != [] {
      ValueSame(hs[1..], a, b);
    }
  }

  // ---------- replaying operations conserves value ----------

  function SpentBy(op: Op): seq<Hash> {
    if op.Spend? then [op.hash] else []
  }

  function CreatedBy(op: Op): seq<TxOutput> {
    if op.Create? then [op.output] else []
  }

  function OpSpends(ops: seq<Op>): seq<Hash> {
    if ops == [] then [] else SpentBy(ops[0]) + OpSpends(ops[1..])
  }

  function OpCreates(ops: seq<Op>): seq<TxOutput> {
    if ops == [] then [] else CreatedBy(ops[0]) + OpCreates(ops[1..])
  }

  function HashesOf(outputs: seq<TxOutput>): seq<Hash> {
    seq(|outputs|, i requires 0 <= i < |outputs| => HashOutput(outputs[i]))
  }

  /** No created output takes a hash that is in use or is created twice. */
  ghost predicate Fresh(outs: Outputs, creates: seq<TxOutput>) {
    Distinct(HashesOf(creates)) && forall i :: 0 <= i < |creates| ==> HashOutput(creates[i]) !in outs
  }

  /** The value of those of the listed outputs that are there. */
  function HeldValue(hs: seq<Hash>, outs: Outputs): nat {
    if hs == [] then 0
    else (if hs[0] in outs then outs[hs[0]].amount else 0) + HeldValue(hs[1..], outs)
  }

  lemma {:induction false} HeldIsValue(hs: seq<Hash>, outs: Outputs)
    requires AllIn(hs, outs)
    ensures HeldValue(hs, outs) == Value(hs, outs)
    decreases |hs|
  {
    if hs != [] {
      HeldIsValue(hs[1..], outs);
    }
  }

  /** A change at one key that is not listed changes nothing. */
  lemma {:induction false} HeldElsewhere(hs: seq<Hash>, a: Outputs, b: Outputs, key: Hash)
    requires key !in hs && a - {key} == b - {key}
    ensures HeldValue(hs, a) == HeldValue(hs, b)
    decreases |hs|
  {
    if hs != [] {
      var h := hs[0];
      assert h in a <==> h in a - {key};
      assert h in b <==> h in b - {key};
      HeldElsewhere(hs[1..], a, b, key);
    }
  }

  /** Replacing or adding the entry at a key changes the value of distinct spends only at that key. */
  lemma {:induction false} HeldUpdated(hs: seq<Hash>, outs: Outputs, key: Hash, output: TxOutput)
    requires Distinct(hs)
    ensures var was := if key in outs then outs[key].amount else 0;
            HeldValue(hs, outs[key := output]) + (if key in hs then was else 0)
              == HeldValue(hs, outs) + (if key in hs then output.amount else 0)
    decreases |hs|
  {
    assert outs[key := output] - {key} == outs - {key};
    if key !in hs {
      HeldElsewhere(hs, outs, outs[key := output], key);
    } else if hs[0] == key {
      assert key !in hs[1..];
      HeldElsewhere(hs[1..], outs, outs[key := output], key);
    } else {
      HeldUpdated(hs[1..], outs, key, output);
    }
  }

  /** None of the spent hashes is one of the created ones. */
  ghost predicate Apart(spends: seq<Hash>, creates: seq<TxOutput>) {
    forall i, j :: 0 <= i < |spends| && 0 <= j < |creates| ==> spends[i] != HashOutput(creates[j])
  }

  /** If nothing is spent twice, the value after the operations is at most the value before, less what
      was there to be spent, plus what was created; it is exactly that when the created hashes are
      fresh and not among the spent ones. */
  lemma {:induction false} OpsConserveHeld(outs: Outputs, ops: seq<Op>)
    requires Distinct(OpSpends(ops))
    ensures Total(Applied(outs, ops)) + HeldValue(OpSpends(ops), outs) <= Total(outs) + SumOutputs(OpCreates(ops))
    ensures Fresh(outs, OpCreates(ops)) && Apart(OpSpends(ops), OpCreates(ops)) ==>
              Total(Applied(outs, ops)) + HeldValue(OpSpends(ops), outs) == Total(outs) + SumOutputs(OpCreates(ops))
    decreases |ops|
  {
    if ops != [] {
      var rest := ops[1..];
      match ops[0]
      case Spend(h) =>
        SpendStep(outs, h, rest, ops);
        OpsConserveHeld(outs - {h}, rest);
      case Create(o) =>
        CreateStep(outs, o, rest, ops);
        OpsConserveHeld(outs[HashOutput(o) := o], rest);
    }
  }

  lemma SpendStep(outs: Outputs, h: Hash, rest: seq<Op>, ops: seq<Op>)
    requires ops == [Spend(h)] + rest && Distinct(OpSpends(ops))
    ensures OpSpends(ops) == [h] + OpSpends(rest) && OpCreates(ops) == OpCreates(rest)
    ensures Distinct(OpSpends(rest))
    ensures HeldValue(OpSpends(ops), outs) + Total(outs - {h}) == Total(outs) + HeldValue(OpSpends(rest), outs - {h})
    ensures Fresh(outs, OpCreates(ops)) ==> Fresh(outs - {h}, OpCreates(rest))
    ensures Apart(OpSpends(ops), OpCreates(ops)) ==> Apart(OpSpends(rest), OpCreates(rest))
  {
    assert ops[1..] == rest;
    var all, tail := OpSpends(ops), OpSpends(rest);
    assert all == [h] + tail && all[1..] == tail;
    DistinctParts([h], tail);
    forall i | 0 <= i < |tail|
      ensures tail[i] != h
    {
      assert all[0] != all[i + 1];
    }
    assert outs - {h} == outs - {h} - {h};
    HeldElsewhere(tail, outs, outs - {h}, h);
    if h in outs {
      TotalWithout(outs, h);
    } else {
      assert outs - {h} == outs;
    }
    ApartTail(all, OpCreates(rest));
  }

  lemma ApartTail(spends: seq<Hash>, creates: seq<TxOutput>)
    requires spends != []
    ensures Apart(spends, creates) ==> Apart(spends[1..], creates)
    ensures creates != [] && Apart(spends, creates) ==> Apart(spends, creates[1..]) && HashOutput(creates[0]) !in spends
  {
  }

  lemma CreateStep(outs: Outputs, o: TxOutput, rest: seq<Op>, ops: seq<Op>)
    requires ops == [Create(o)] + rest && Distinct(OpSpends(ops))
    ensures OpSpends(ops) == OpSpends(rest) && OpCreates(ops) == [o] + OpCreates(rest)
    ensures SumOutputs(OpCreates(ops)) == o.amount + SumOutputs(OpCreates(rest))
    ensures var after, spends := outs[HashOutput(o) := o], OpSpends(rest);
            && HeldValue(spends, outs) + Total(after) <= Total(outs) + o.amount + HeldValue(spends, after)
            && (Fresh(outs, OpCreates(ops)) && Apart(spends, OpCreates(ops)) ==>
                  && HeldValue(spends, outs) + Total(after) == Total(outs) + o.amount + HeldValue(spends, after)
                  && Fresh(after, OpCreates(rest)) && Apart(spends, OpCreates(rest)))
  {
    assert ops[1..] == rest;
    var spends, creates := OpSpends(rest), OpCreates(rest);
    assert OpSpends(ops) == spends;
    assert ([o] + creates)[1..] == creates;
    TotalWith(outs, HashOutput(o), o);
    HeldUpdated(spends, outs, HashOutput(o), o);
    FreshTail(outs, o, creates);
    if spends != [] {
      ApartTail(spends, [o] + creates);
    }
  }

  /** If every spent hash is there at the start and none is spent twice, the value after the
      operations is at most the value before, less what was spent, plus what was created; it is
      exactly that when the created hashes are fresh. */
  lemma OpsConserveValue(outs: Outputs, ops: seq<Op>)
    requires AllIn(OpSpends(ops), outs) && Distinct(OpSpends(ops))
    ensures Total(Applied(outs, ops)) + Value(OpSpends(ops), outs) <= Total(outs) + SumOutputs(OpCreates(ops))
    ensures Fresh(outs, OpCreates(ops)) ==>
              Total(Applied(outs, ops)) + Value(OpSpends(ops), outs) == Total(outs) + SumOutputs(OpCreates(ops))
  {
    OpsConserveHeld(outs, ops);
    HeldIsValue(OpSpends(ops), outs);
  }

  lemma FreshTail(outs: Outputs, o: TxOutput, rest: seq<TxOutput>)
    ensures Fresh(outs, [o] + rest) ==> HashOutput(o) !in outs && Fresh(outs[HashOutput(o) := o], rest)
  {
    var all := [o] + rest;
    if Fresh(outs, all) {
      assert HashOutput(all[0]) !in outs;
      forall i | 0 <= i < |rest|
        ensures HashOutput(rest[i]) !in outs[HashOutput(o) := o]
      {
        assert HashesOf(all)[0] != HashesOf(all)[i + 1];
        assert HashOutput(all[i + 1]) !in outs;
      }
      forall i, j | 0 <= i < j < |rest|
        ensures HashesOf(rest)[i] != HashesOf(rest)[j]
      {
        assert HashesOf(all)[i + 1] != HashesOf(all)[j + 1];
      }
    }
  }

  lemma {:induction false} OpsConcat(a: seq<Op>, b: seq<Op>)
    ensures OpSpends(a + b) == OpSpends(a) + OpSpends(b)
    ensures OpCreates(a + b) == OpCreates(a) + OpCreates(b)
    decreases |a|
  {
    if a == [] {
      assert a + b == b;
    } else {
      assert (a + b)[1..] == a[1..] + b && (a + b)[0] == a[0];
      OpsConcat(a[1..], b);
      ConcatAssociative(SpentBy(a[0]), OpSpends(a[1..]), OpSpends(b));
      ConcatAssociative(CreatedBy(a[0]), OpCreates(a[1..]), OpCreates(b));
    }
  }

  lemma {:induction false} OpsOfInputs(inputs: seq<TxInput>)
    ensures OpSpends(SpendOps(inputs)) == SpendsOfInputs(inputs) && OpCreates(SpendOps(inputs)) == []
  {
    if inputs != [] {
      assert SpendOps(inputs)[1..] == SpendOps(inputs[1..]);
      assert SpendsOfInputs(inputs) == [inputs[0].prevTxOutputHash] + SpendsOfInputs(inputs[1..]);
      OpsOfInputs(inputs[1..]);
    }
  }

  lemma {:induction false} OpsOfOutputs(outputs: seq<TxOutput>)
    ensures OpSpends(CreateOps(outputs)) == [] && OpCreates(CreateOps(outputs)) == outputs
  {
    if outputs != [] {
      assert CreateOps(outputs)[1..] == CreateOps(outputs[1..]);
      OpsOfOutputs(outputs[1..]);
    }
  }

  lemma OpsOfTx(tx: Tx)
    ensures OpSpends(TxOps(tx)) == SpendsOfInputs(tx.inputs) && OpCreates(TxOps(tx)) == tx.outputs
  {
    OpsOfInputs(tx.inputs);
    OpsOfOutputs(tx.outputs);
    OpsConcat(SpendOps(tx.inputs), CreateOps(tx.outputs));
  }

  lemma {:induction false} OpsOfTxs(txs: seq<Tx>)
    ensures OpSpends(TxsOps(txs)) == Spends(txs) && OpCreates(TxsOps(txs)) == Creates(txs)
  {
    if txs != [] {
      OpsOfTx(txs[0]);
      OpsOfTxs(txs[1..]);
      OpsConcat(TxOps(txs[0]), TxsOps(txs[1..]));
    }
  }

  // ---------- the supply of a chain ----------

  /** The sum of the subsidies of the first `n` blocks. */
  function Issued(n: nat): nat {
    if n == 0 then 0 else Issued(n - 1) + Subsidy(n - 1)
  }

  /** All outputs the chain creates, in order. */
  function ChainCreates(chain: seq<Block>): seq<TxOutput> {
    if chain == [] then [] else ChainCreates(Init(chain)) + Creates(Last(chain).transactions)
  }

  ghost predicate AllHashesDistinct(chain: seq<Block>) {
    Distinct(HashesOf(ChainCreates(chain)))
  }

  /** One accepted block adds at most its subsidy; exactly that when its outputs are fresh. */
  lemma BlockConservesValue(outs: Outputs, txs: seq<Tx>, height: nat)
    requires ValidTransactions(txs, height, outs)
    ensures Total(Applied(outs, TxsOps(txs))) <= Total(outs) + Subsidy(height)
    ensures Fresh(outs, Creates(txs)) ==> Total(Applied(outs, TxsOps(txs))) == Total(outs) + Subsidy(height)
  {
    OpsOfTxs(txs);
    SpendsAvailable(txs[1..], outs);
    assert Spends(txs) == Spends(txs[1..]);
    SumOutputsConcat(txs[0].outputs, Creates(txs[1..]));
    OpsConserveValue(outs, TxsOps(txs));
  }

  lemma UnspentWereCreated(chain: seq<Block>, key: Hash)
    ensures key in Unspent(chain) ==> key in SetOf(HashesOf(ChainCreates(chain)))
  {
    if key in Unspent(chain) {
      EntryOrigin(map[], ChainOps(chain), key);
      OpsOfChain(chain);
      CreateInOps(ChainOps(chain), Unspent(chain)[key]);
      var i :| 0 <= i < |ChainCreates(chain)| && ChainCreates(chain)[i] == Unspent(chain)[key];
      assert HashesOf(ChainCreates(chain))[i] == key;
    }
  }

  lemma {:induction false} CreateInOps(ops: seq<Op>, o: TxOutput)
    requires Create(o) in ops
    ensures o in OpCreates(ops)
  {
    if ops[0] != Create(o) {
      CreateInOps(ops[1..], o);
    }
  }

  lemma {:induction false} OpsOfChain(chain: seq<Block>)
    ensures OpCreates(ChainOps(chain)) == ChainCreates(chain)
    decreases |chain|
  {
    if chain != [] {
      OpsOfChain(Init(chain));
      OpsOfTxs(Last(chain).transactions);
      OpsConcat(ChainOps(Init(chain)), TxsOps(Last(chain).transactions));
    }
  }

  lemma DistinctHashesFresh(chain: seq<Block>)
    requires chain != [] && AllHashesDistinct(chain)
    ensures AllHashesDistinct(Init(chain))
    ensures Fresh(Unspent(Init(chain)), Creates(Last(chain).transactions))
  {
    var before, added := ChainCreates(Init(chain)), Creates(Last(chain).transactions);
    assert HashesOf(before + added) == HashesOf(before) + HashesOf(added);
    DistinctParts(HashesOf(before), HashesOf(added));
    forall i | 0 <= i < |added|
      ensures HashOutput(added[i]) !in Unspent(Init(chain))
    {
      assert HashesOf(added)[i] in SetOf(HashesOf(added));
      UnspentWereCreated(Init(chain), HashOutput(added[i]));
    }
  }

  /** What one more block does to the unspent total. */
  lemma SupplyStep(chain: seq<Block>, b: Block)
    requires ValidChain(chain) && Extends(chain, b)
    ensures Total(Unspent(chain + [b])) <= Total(Unspent(chain)) + Subsidy(|chain|)
    ensures Fresh(Unspent(chain), Creates(b.transactions)) ==>
              Total(Unspent(chain + [b])) == Total(Unspent(chain)) + Subsidy(|chain|)
  {
    ExtendsMeans(chain, b);
    UnspentSnoc(chain, b);
    BlockConservesValue(Unspent(chain), b.transactions, |chain|);
  }

  lemma IssuedSnoc(chain: seq<Block>, b: Block)
    ensures Issued(|chain + [b]|) == Issued(|chain|) + Subsidy(|chain|)
    ensures AllHashesDistinct(chain + [b]) ==>
              AllHashesDistinct(chain) && Fresh(Unspent(chain), Creates(b.transactions))
  {
    InitLastSnoc(chain, b);
    if AllHashesDistinct(chain + [b]) {
      DistinctHashesFresh(chain + [b]);
    }
  }

  /** The unspent outputs of a valid chain are worth at most the subsidies of its blocks, and
      exactly that when no output hash occurs twice in the chain. */
  lemma {:induction false} SupplyIsIssued(chain: seq<Block>)
    requires ValidChain(chain)
    ensures Total(Unspent(chain)) <= Issued(|chain|)
    ensures AllHashesDistinct(chain) ==> Total(Unspent(chain)) == Issued(|chain|)
    decreases |chain|
  {
    if chain != [] {
      SupplyIsIssued(Init(chain));
      SupplyStep(Init(chain), Last(chain));
      IssuedSnoc(Init(chain), Last(chain));
      assert chain == Init(chain) + [Last(chain)];
    }
  }

  // ---------- the cap ----------

  /** The subsidies of `k` whole halving eras, per block of an era. */
  function Eras(k: nat): nat {
    if k == 0 then 0 else Eras(k - 1) + ShiftRight(INITIAL_SUBSIDY, k - 1)
  }

  lemma {:induction false} ShiftStep(x: nat, e: nat)
    ensures 2 * ShiftRight(x, e + 1) <= ShiftRight(x, e)
    ensures ShiftRight(x, e + 1) == ShiftRight(x, e) / 2
  {
    if e > 0 {
      ShiftStep(x / 2, e - 1);
    }
  }

  lemma {:induction false} ErasBound(k: nat)
    ensures Eras(k) + 2 * ShiftRight(INITIAL_SUBSIDY, k) <= 2 * INITIAL_SUBSIDY
    ensures ShiftRight(INITIAL_SUBSIDY, k) == 0 ==> Eras(k) < 2 * INITIAL_SUBSIDY
  {
    if k > 0 {
      ErasBound(k - 1);
      ShiftStep(INITIAL_SUBSIDY, k - 1);
    }
  }

  lemma IssuedStep(k: nat, r: nat)
    requires r < 210
    ensures Issued(210 * k + r + 1) == Issued(210 * k + r) + ShiftRight(INITIAL_SUBSIDY, k)
  {
    assert (210 * k + r) / HALVING_INTERVAL == k;
  }

  lemma OneMore(r: nat, s: nat)
    requires r > 0
    ensures r * s == (r - 1) * s + s
  {
  }

  lemma {:induction false} IssuedByEras(k: nat, r: nat)
    requires r <= 210
    ensures Issued(210 * k + r) == 210 * Eras(k) + r * ShiftRight(INITIAL_SUBSIDY, k)
    decreases k, r
  {
    if r > 0 {
      IssuedByEras(k, r - 1);
      IssuedStep(k, r - 1);
      OneMore(r, ShiftRight(INITIAL_SUBSIDY, k));
    } else if k > 0 {
      IssuedByEras(k - 1, 210);
      assert 210 * (k - 1) + 210 == 210 * k;
    }
  }

  /** 21,000 bitcoins in sats: twice what the first halving era issues. */
  const SUPPLY_CAP: nat := 2_100_000_000_000

  /** Whatever the height, fewer sats than the cap are ever issued. */
  lemma IssuedBelowCap(n: nat)
    ensures Issued(n) < SUPPLY_CAP
  {
    var k, r := n / 210, n % 210;
    IssuedByEras(k, r);
    ErasBound(k);
    PartOfEra(r, ShiftRight(INITIAL_SUBSIDY, k));
  }

  lemma PartOfEra(r: nat, s: nat)
    requires r <= 210
    ensures r * s <= 210 * s
  {
  }

  /** The first height without a subsidy: 33 halvings of 5 * 10^9 leave nothing. */
  lemma SubsidyEnds(height: nat)
    ensures Subsidy(height) == 0 <==> height >= 6930
  {
    Pow2Values();
    if height >= 6930 {
      Pow2Monotone(33, height / HALVING_INTERVAL);
      assert Pow2(33) == 2 * Pow2(32);
      ShiftToZero(INITIAL_SUBSIDY, height / HALVING_INTERVAL);
    } else {
      PositiveBefore33(height / HALVING_INTERVAL);
    }
  }

  lemma PositiveBefore33(halvings: nat)
    requires halvings <= 32
    ensures ShiftRight(INITIAL_SUBSIDY, halvings) > 0
  {
    Pow2Values();
    Pow2Monotone(halvings, 32);
    ShiftIsQuotient(INITIAL_SUBSIDY, halvings);
    QuotientPositive(INITIAL_SUBSIDY, Pow2(halvings));
  }

  // ---------- no overflow ----------

  lemma {:induction false} ValueOfTxWithin(txs: seq<Tx>, outs: Outputs, i: nat)
    requires AllIn(Spends(txs), outs) && i < |txs|
    ensures AllIn(SpendsOfInputs(txs[i].inputs), outs)
    ensures Value(SpendsOfInputs(txs[i].inputs), outs) <= Value(Spends(txs), outs)
    decreases |txs|
  {
    var hs, rest := SpendsOfInputs(txs[0].inputs), Spends(txs[1..]);
    AllInConcat(hs, rest, outs);
    ValueConcat(hs, rest, outs);
    if i > 0 {
      ValueOfTxWithin(txs[1..], outs, i - 1);
    }
  }

  /** What can be spent on a valid chain at once fits in 64 bits, with much room. */
  lemma SpendableFits(chain: seq<Block>, txs: seq<Tx>)
    requires ValidChain(chain) && Spendable(txs, Unspent(chain))
    ensures AllFit(txs, Unspent(chain))
    ensures Fees(txs, Unspent(chain)) < SUPPLY_CAP
  {
    var outs := Unspent(chain);
    SupplyIsIssued(chain);
    IssuedBelowCap(|chain|);
    SpendsAvailable(txs, outs);
    ValueWithinTotal(Spends(txs), outs);
    forall i | 0 <= i < |txs|
      ensures Fits(txs[i], outs)
    {
      ValueOfTxWithin(txs, outs, i);
    }
  }

  /** On a valid chain below the final height, 64-bit arithmetic never turns a valid list away: a block's
      transactions pass the verifier if and only if they are valid over the integers. */
  lemma VerifierPassesValid(chain: seq<Block>, txs: seq<Tx>)
    requires ValidChain(chain) && |chain| < FINAL_HEIGHT
    ensures CheckTransactions(txs, |chain|, Unspent(chain)) == Pass <==>
              ValidTransactions(txs, |chain|, Unspent(chain))
  {
    CheckTransactionsExact(txs, |chain|, Unspent(chain));
    if ValidTransactions(txs, |chain|, Unspent(chain)) {
      SpendableFits(chain, txs[1..]);
    }
  }
}
