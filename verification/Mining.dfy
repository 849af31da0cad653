/** Block templates, the nonce search, and the acceptance of what they produce. */
module Mining {
  import opened Types
  import opened BlockRules
  import opened Replay
  import opened Chain
  import opened Mempool
  import opened Ledger
  import opened Node
  import Merkle
  import Supply

  // ---------- the nonce search ----------

  predicate Matches(header: BlockHeader) {
    HashHeader(header) <= header.target
  }

  /** The next candidate: the next nonce, or nonce zero at a new time when they run out. */
  function Advance(header: BlockHeader, now: Timestamp): BlockHeader {
    if header.nonce < U64_MAX then header.(nonce := header.nonce + 1)
    else header.(nonce := 0, timestamp := now)
  }

  /** The header after the given number of advances; `clock[k]` is the time at the k-th. */
  function Candidate(header: BlockHeader, clock: seq<Timestamp>): BlockHeader {
    if clock == [] then header
    else Advance(Candidate(header, clock[..|clock| - 1]), clock[|clock| - 1])
  }

  /** `mine`: at most one step for each clock reading. */
  method Mine(header: BlockHeader, clock: seq<Timestamp>) returns (mined: BlockHeader, found: bool, ghost at: nat)
    ensures at <= |clock| && mined == Candidate(header, clock[..at])
    ensures found <==> HashHeader(mined) <= mined.target
    ensures forall k :: 0 <= k < at ==>
              HashHeader(Candidate(header, clock[..k])) > Candidate(header, clock[..k]).target
    ensures !found ==> at == |clock|
  {
    mined, at := header, 0;
    if Matches(mined) {
      return mined, true, at;
    }
    for i := 0 to |clock|
      invariant at == i && mined == Candidate(header, clock[..i])
      invariant forall k :: 0 <= k <= i ==> !Matches(Candidate(header, clock[..k]))
    {
      assert clock[..i + 1][..i] == clock[..i];
      mined := if mined.nonce < U64_MAX then mined.(nonce := mined.nonce + 1)
               else mined.(nonce := 0, timestamp := clock[i]);
      at := i + 1;
      if Matches(mined) {
        return mined, true, at;
      }
    }
    return mined, false, at;
  }

  /** Only the nonce and the time ever change, the nonce running through consecutive values modulo
      2^64; the time is the old one until the nonces run out, and then one the clock showed. */
  lemma {:induction false} CandidateFields(header: BlockHeader, clock: seq<Timestamp>)
    ensures var c := Candidate(header, clock);
            && c.prevBlockHash == header.prevBlockHash && c.merkleRoot == header.merkleRoot
            && c.target == header.target
            && c.nonce == (header.nonce + |clock|) % (U64_MAX + 1)
            && (header.nonce + |clock| <= U64_MAX ==> c == header.(nonce := header.nonce + |clock|))
            && (c.timestamp == header.timestamp || c.timestamp in clock)
    decreases |clock|
  {
    if clock != [] {
      CandidateFields(header, clock[..|clock| - 1]);
      NextModulo(header.nonce + |clock| - 1);
    }
  }

  lemma NextModulo(n: nat)
    ensures (n + 1) % (U64_MAX + 1) == if n % (U64_MAX + 1) < U64_MAX then n % (U64_MAX + 1) + 1 else 0
  {
  }

  /** Once the nonces have run out, the time is what the clock showed when they last did, and the nonce
      counts the steps since. */
  lemma {:induction false} CandidateTime(header: BlockHeader, clock: seq<Timestamp>)
    requires header.nonce + |clock| > U64_MAX
    ensures var c := Candidate(header, clock);
            c.nonce < |clock| && c.timestamp == clock[|clock| - 1 - c.nonce]
    decreases |clock|
  {
    var before := clock[..|clock| - 1];
    CandidateFields(header, before);
    if header.nonce + |before| > U64_MAX {
      CandidateTime(header, before);
    }
  }

  /** A search that fails before the nonces run out has tried each of the `|clock| + 1` nonces from
      the first one on, and no header with one of them matches. */
  lemma FailedSearchIsExhaustive(header: BlockHeader, clock: seq<Timestamp>, nonce: Amount)
    requires header.nonce <= nonce <= header.nonce + |clock| <= U64_MAX
    requires forall k :: 0 <= k <= |clock| ==> !Matches(Candidate(header, clock[..k]))
    ensures !Matches(header.(nonce := nonce))
  {
    var k := nonce - header.nonce;
    CandidateFields(header, clock[..k]);
    assert !Matches(Candidate(header, clock[..k]));
  }

  /** Searching on from where a search stopped is one longer search. */
  lemma {:induction false} SearchesCompose(header: BlockHeader, a: seq<Timestamp>, b: seq<Timestamp>)
    ensures Candidate(Candidate(header, a), b) == Candidate(header, a + b)
    decreases |b|
  {
    if b == [] {
      assert a + b == a;
    } else {
      assert (a + b)[..|a + b| - 1] == a + b[..|b| - 1];
      SearchesCompose(header, a, b[..|b| - 1]);
    }
  }

  // ---------- templates ----------

  /** The fees of the selected transactions; missing outputs and leaving 64 bits are errors. */
  function MinerFees(txs: seq<Tx>, outs: Outputs, fees: nat): Result<nat> {
    if txs == [] then Success(fees)
    else
      var taken :- InputAmount(txs[0].inputs, outs, 0);
      var paid := SumOutputs(txs[0].outputs);
      if paid > U64_MAX || taken < paid || fees + (taken - paid) > U64_MAX then Failure(Overflow)
      else MinerFees(txs[1..], outs, fees + (taken - paid))
  }

  function InputAmount(inputs: seq<TxInput>, outs: Outputs, amount: nat): Result<nat> {
    if inputs == [] then Success(amount)
    else
      var h := inputs[0].prevTxOutputHash;
      if h !in outs then Failure(MissingOutput(h))
      else if amount + outs[h].amount > U64_MAX then Failure(Overflow)
      else InputAmount(inputs[1..], outs, amount + outs[h].amount)
  }

  /** The loop over one transaction's inputs. */
  method SumInputs(inputs: seq<TxInput>, outs: Outputs) returns (r: Result<nat>)
    ensures r == InputAmount(inputs, outs, 0)
  {
    var inputAmount: nat := 0;
    for k := 0 to |inputs|
      invariant InputAmount(inputs[k..], outs, inputAmount) == InputAmount(inputs, outs, 0)
    {
      var h := inputs[k].prevTxOutputHash;
      if h !in outs {
        return Failure(MissingOutput(h));
      }
      if inputAmount + outs[h].amount > U64_MAX {
        return Failure(Overflow);
      }
      inputAmount := inputAmount + outs[h].amount;
    }
    return Success(inputAmount);
  }

  method CalculateMinerFees(block: Block, outs: Outputs) returns (r: Result<nat>)
    requires block.transactions != []
    ensures r == MinerFees(block.transactions[1..], outs, 0)
  {
    var txs := block.transactions;
    var minerFees: nat := 0;
    for i := 1 to |txs|
      invariant MinerFees(txs[i..], outs, minerFees) == MinerFees(txs[1..], outs, 0)
    {
      var inputAmount := SumInputs(txs[i].inputs, outs);
      if inputAmount.Failure? {
        return inputAmount;
      }
      var outputAmount := SumChecked(txs[i].outputs);
      if outputAmount.Failure? || inputAmount.value < outputAmount.value
         || minerFees + (inputAmount.value - outputAmount.value) > U64_MAX {
        return Failure(Overflow);
      }
      minerFees := minerFees + (inputAmount.value - outputAmount.value);
    }
    return Success(minerFees);
  }

  /** The transactions of the first pool entries, up to the block's cap. */
  function Selected(pool: seq<Pooled>): seq<Tx> {
    var n := if |pool| < BLOCK_TRANSACTION_CAP then |pool| else BLOCK_TRANSACTION_CAP;
    seq(n, i requires 0 <= i < n => pool[i].tx)
  }

  function Coinbase(key: PublicKey, id: nat, amount: Amount): Tx {
    Tx([], [TxOutput(amount, id, key)])
  }

  function TipHash(chain: seq<Block>): Hash {
    if chain == [] then ZERO_HASH else HashHeader(Last(chain).header)
  }

  /** `fetch_template` on a ledger: the first pooled transactions behind a coinbase that pays `key`
      the subsidy and their fees. */
  method FetchTemplate(ledger: Blockchain, key: PublicKey, id: nat, now: Timestamp) returns (r: Result<Block>)
    ensures r.Success? ==> exists amount :: IsTemplate(ledger.Value(), key, id, amount, now, r.value)
    ensures r.Failure? <==> !TemplateExists(ledger.Value())
    ensures var fees := MinerFees(Selected(ledger.Value().mempool), Plain(ledger.Value().utxos), 0);
            r.Failure? ==> r.error == if fees.Failure? then fees.error else Overflow
  {
    var transactions := [Coinbase(key, id, 0)];
    var selected := Selected(ledger.mempool);
    transactions := transactions + selected;
    assert transactions[1..] == selected;
    var emptyRoot := Merkle.Calculate([]);
    var header := BlockHeader(now, 0, TipHash(ledger.blocks), emptyRoot, ledger.target);
    var template := Block(header, transactions);
    var minerFees := CalculateMinerFees(template, Plain(ledger.utxoSet));
    if minerFees.Failure? {
      return Failure(minerFees.error);
    }
    var reward := ledger.CalculateBlockReward();
    if reward.Failure? || reward.value + minerFees.value > U64_MAX {
      return Failure(Overflow);
    }
    var coinbase := Coinbase(key, id, reward.value + minerFees.value);
    template := template.(transactions := transactions[0 := coinbase]);
    FeesFit(selected, Plain(ledger.utxoSet), 0);
    var verified := VerifyCoinbaseTransaction(coinbase, |ledger.blocks|, minerFees.value);
    TemplateCoinbasePasses(coinbase, |ledger.blocks|, minerFees.value);
    match verified {
      case Fail(e) => return Failure(e);
      case Pass =>
    }
    var root := Merkle.Calculate(template.transactions);
    template := template.(header := template.header.(merkleRoot := root));
    assert template.transactions == [coinbase] + selected;
    assert IsTemplate(ledger.Value(), key, id, reward.value + minerFees.value, now, template);
    return Success(template);
  }

  /** What a template is: its coinbase claims exactly the subsidy and the fees of the selection. */
  ghost predicate IsTemplate(s: State, key: PublicKey, id: nat, amount: Amount, now: Timestamp, b: Block) {
    var fees := MinerFees(Selected(s.mempool), Plain(s.utxos), 0);
    && TemplateExists(s)
    && amount == Subsidy(|s.blocks|) + fees.value
    && b.transactions == [Coinbase(key, id, amount)] + Selected(s.mempool)
    && b.header == BlockHeader(now, 0, TipHash(s.blocks), Merkle.MerkleRoot(b.transactions), s.target)
  }

  ghost predicate TemplateExists(s: State) {
    var fees := MinerFees(Selected(s.mempool), Plain(s.utxos), 0);
    fees.Success? && |s.blocks| < FINAL_HEIGHT && Subsidy(|s.blocks|) + fees.value <= U64_MAX
  }

  lemma {:induction false} FeesFit(txs: seq<Tx>, outs: Outputs, fees: Amount)
    ensures MinerFees(txs, outs, fees).Success? ==> MinerFees(txs, outs, fees).value <= U64_MAX
    decreases |txs|
  {
    if txs != [] {
      var taken := InputAmount(txs[0].inputs, outs, 0);
      var paid := SumOutputs(txs[0].outputs);
      if taken.Success? && paid <= taken.value && fees + (taken.value - paid) <= U64_MAX {
        FeesFit(txs[1..], outs, fees + (taken.value - paid));
      }
    }
  }

  /** The template's shift and the verifier's division agree, so its own check never fails. */
  lemma TemplateCoinbasePasses(coinbase: Tx, height: nat, fees: nat)
    requires coinbase.inputs == [] && |coinbase.outputs| == 1
    requires height < FINAL_HEIGHT && coinbase.outputs[0].amount == Subsidy(height) + fees
    ensures CheckCoinbase(coinbase, height, fees) == Pass
  {
    DivisorBelowFinalHeight(height);
    assert coinbase.outputs[1..] == [];
    assert SumOutputs(coinbase.outputs) == coinbase.outputs[0].amount;
  }

  lemma SubsidyStep(height: nat)
    ensures if (height + 1) % HALVING_INTERVAL == 0 then 2 * Subsidy(height + 1) <= Subsidy(height)
            else Subsidy(height + 1) == Subsidy(height)
  {
    if (height + 1) % HALVING_INTERVAL == 0 {
      assert (height + 1) / HALVING_INTERVAL == height / HALVING_INTERVAL + 1;
      Supply.ShiftStep(INITIAL_SUBSIDY, height / HALVING_INTERVAL);
    } else {
      assert (height + 1) / HALVING_INTERVAL == height / HALVING_INTERVAL;
    }
  }

  /** The TCP handler checks its template's coinbase one height too far.  That check fails exactly
      for the last block of a halving era, while there is a subsidy left to halve, and for the last
      height of all, where the divisor overflows. */
  lemma CheckAtNextHeight(coinbase: Tx, height: nat, fees: nat)
    requires coinbase.inputs == [] && |coinbase.outputs| == 1
    requires height < FINAL_HEIGHT && coinbase.outputs[0].amount == Subsidy(height) + fees
    ensures CheckCoinbase(coinbase, height + 1, fees) == Pass <==>
              height + 1 < FINAL_HEIGHT && ((height + 1) % HALVING_INTERVAL != 0 || Subsidy(height) == 0)
  {
    DivisorBelowFinalHeight(height + 1);
    SubsidyStep(height);
    assert coinbase.outputs[1..] == [];
    assert SumOutputs(coinbase.outputs) == coinbase.outputs[0].amount;
  }

  // ---------- a mined template is accepted ----------

  lemma {:induction false} InputAmountIsValue(inputs: seq<TxInput>, outs: Outputs, amount: Amount)
    requires AllIn(SpendsOfInputs(inputs), outs)
    requires amount + Value(SpendsOfInputs(inputs), outs) <= U64_MAX
    ensures InputAmount(inputs, outs, amount) == Success(amount + Value(SpendsOfInputs(inputs), outs))
    decreases |inputs|
  {
    if inputs != [] {
      var h := inputs[0].prevTxOutputHash;
      assert SpendsOfInputs(inputs) == [h] + SpendsOfInputs(inputs[1..]);
      AllInConcat([h], SpendsOfInputs(inputs[1..]), outs);
      assert SpendsOfInputs(inputs)[0] == h;
      InputAmountIsValue(inputs[1..], outs, amount + outs[h].amount);
    }
  }

  lemma MinerFeesStep(txs: seq<Tx>, outs: Outputs, fees: Amount)
    requires txs != [] && Balanced(txs[0], outs) && Fits(txs[0], outs)
    requires fees + Gain(txs[0], outs) <= U64_MAX
    ensures MinerFees(txs, outs, fees) == MinerFees(txs[1..], outs, fees + Gain(txs[0], outs))
  {
    InputAmountIsValue(txs[0].inputs, outs, 0);
  }

  /** The fees, transaction by transaction. */
  ghost function Gains(txs: seq<Tx>, outs: Outputs): nat
    requires AllBalanced(txs, outs)
  {
    if txs == [] then 0
    else
      assert Balanced(txs[0], outs);
      Gain(txs[0], outs) + Gains(txs[1..], outs)
  }

  lemma {:induction false} FeesAreGains(txs: seq<Tx>, outs: Outputs)
    requires AllBalanced(txs, outs)
    ensures Fees(txs, outs) == Gains(txs, outs)
    decreases |txs|
  {
    if txs != [] {
      SpendsSplit(txs, outs);
      FeesAreGains(txs[1..], outs);
    }
  }

  lemma {:induction false} MinerFeesAreGains(txs: seq<Tx>, outs: Outputs, fees: Amount)
    requires AllBalanced(txs, outs) && AllFit(txs, outs)
    requires fees + Gains(txs, outs) <= U64_MAX
    ensures MinerFees(txs, outs, fees) == Success(fees + Gains(txs, outs))
    decreases |txs|
  {
    if txs != [] {
      assert Balanced(txs[0], outs) && Fits(txs[0], outs);
      MinerFeesStep(txs, outs, fees);
      MinerFeesAreGains(txs[1..], outs, fees + Gain(txs[0], outs));
    }
  }

  /** For transactions the verifier would pass, the template's fees are the verifier's. */
  lemma MinerFeesAreFees(txs: seq<Tx>, outs: Outputs)
    requires AllBalanced(txs, outs) && AllFit(txs, outs) && Fees(txs, outs) <= U64_MAX
    ensures MinerFees(txs, outs, 0) == Success(Fees(txs, outs))
  {
    FeesAreGains(txs, outs);
    MinerFeesAreGains(txs, outs, 0);
  }

  /** The selection can be mined on the chain as it stands: every input unspent and signed for, no
      output spent twice, no negative fee. */
  ghost predicate SelectionMinable(s: State) {
    Spendable(Selected(s.mempool), Unspent(s.blocks))
  }

  /** A minable selection always yields a template: on a sound ledger no sum overflows. */
  lemma MinableTemplateExists(s: State)
    requires Sound(s) && |s.blocks| < FINAL_HEIGHT && SelectionMinable(s)
    ensures TemplateExists(s)
    ensures MinerFees(Selected(s.mempool), Plain(s.utxos), 0) == Success(Fees(Selected(s.mempool), Unspent(s.blocks)))
    ensures AllFit(Selected(s.mempool), Unspent(s.blocks))
    ensures Subsidy(|s.blocks|) + Fees(Selected(s.mempool), Unspent(s.blocks)) <= INITIAL_SUBSIDY + Supply.SUPPLY_CAP
  {
    Supply.SpendableFits(s.blocks, Selected(s.mempool));
    MinerFeesAreFees(Selected(s.mempool), Unspent(s.blocks));
  }

  /** The time of the header is later than the tip's. */
  predicate LaterThanTip(chain: seq<Block>, t: Timestamp) {
    chain == [] || t > Last(chain).header.timestamp
  }

  /** The tip's target is met; the first block has none to meet. */
  predicate MeetsTip(chain: seq<Block>, header: BlockHeader) {
    chain == [] || HashHeader(header) <= Last(chain).header.target
  }

  lemma TemplateSums(s: State, key: PublicKey, id: nat, amount: Amount, now: Timestamp, b: Block)
    requires IsTemplate(s, key, id, amount, now, b)
    ensures b.transactions != [] && b.transactions[1..] == Selected(s.mempool)
    ensures b.transactions[0].inputs == [] && b.transactions[0].outputs != []
    ensures SumOutputs(b.transactions[0].outputs) == amount
  {
    var outputs := b.transactions[0].outputs;
    assert outputs == [outputs[0]] && outputs[1..] == [];
  }

  /** A template's transactions are valid exactly if its selection can be mined: its coinbase always
      claims the right amount. */
  lemma TemplateValidIff(s: State, key: PublicKey, id: nat, amount: Amount, now: Timestamp, b: Block)
    requires Sound(s) && IsTemplate(s, key, id, amount, now, b)
    ensures ValidTransactions(b.transactions, |s.blocks|, Unspent(s.blocks)) <==> SelectionMinable(s)
  {
    TemplateSums(s, key, id, amount, now, b);
    if SelectionMinable(s) {
      MinableTemplateExists(s);
    }
  }

  /** A header searched out from a template extends the unchanged chain exactly if it meets the target
      in the tip's header, is later than the tip, and the selection can be mined.  The search itself
      promises none of the three: it looks for the ledger's current target, and the pool takes
      transactions that are unsigned or spend the same output. */
  lemma MinedTemplateExtendsIff(
    s: State, key: PublicKey, id: nat, amount: Amount, now: Timestamp, b: Block, clock: seq<Timestamp>)
    requires Sound(s) && IsTemplate(s, key, id, amount, now, b)
    ensures var mined := Candidate(b.header, clock);
            Extends(s.blocks, Block(mined, b.transactions)) <==>
              MeetsTip(s.blocks, mined) && LaterThanTip(s.blocks, mined.timestamp) && SelectionMinable(s)
  {
    var mined := Candidate(b.header, clock);
    CandidateFields(b.header, clock);
    TemplateValidIff(s, key, id, amount, now, b);
    Supply.VerifierPassesValid(s.blocks, b.transactions);
    PassesOverExactly(s.blocks, s.blocks, Block(mined, b.transactions));
  }

  /** With a minable selection and clock readings later than the tip, only the target is left to meet. */
  lemma MinableTemplateExtendsIff(
    s: State, key: PublicKey, id: nat, amount: Amount, now: Timestamp, b: Block, clock: seq<Timestamp>)
    requires Sound(s) && SelectionMinable(s) && IsTemplate(s, key, id, amount, now, b)
    requires LaterThanTip(s.blocks, now) && forall t :: t in clock ==> LaterThanTip(s.blocks, t)
    ensures var mined := Candidate(b.header, clock);
            Extends(s.blocks, Block(mined, b.transactions)) <==> MeetsTip(s.blocks, mined)
  {
    CandidateFields(b.header, clock);
    MinedTemplateExtendsIff(s, key, id, amount, now, b, clock);
  }

  /** A mined template is accepted by the ledger it was fetched from, unless the retarget panics,
      when the current target is at most the one in the tip's header. */
  lemma MinedTemplateAccepted(
    s: State, key: PublicKey, id: nat, amount: Amount, now: Timestamp, b: Block, clock: seq<Timestamp>)
    requires Sound(s) && SelectionMinable(s) && IsTemplate(s, key, id, amount, now, b)
    requires LaterThanTip(s.blocks, now) && forall t :: t in clock ==> LaterThanTip(s.blocks, t)
    requires s.blocks != [] ==> s.target <= Last(s.blocks).header.target
    requires Matches(Candidate(b.header, clock))
    ensures var mined := Block(Candidate(b.header, clock), b.transactions);
            && (Faults(s, mined) || Submitted(s, mined).outcome == Pass)
            && Submitted(s, mined).state.blocks == s.blocks + [mined]
  {
    var mined := Block(Candidate(b.header, clock), b.transactions);
    CandidateFields(b.header, clock);
    MinableTemplateExtendsIff(s, key, id, amount, now, b, clock);
    FaultsMeans(s, mined);
    ExtendsIffPass(s.blocks, mined);
    PushedWhenChecked(s, mined);
  }
}
