/** What the wallet builds, the node it asked accepts. */
module Payments {
  import opened Types
  import opened BlockRules
  import opened Replay
  import opened Mempool
  import opened Ledger
  import opened PoolConsistency
  import opened Node
  import opened Wallet
  import opened Chain
  import Mining

  // ---------- the node's report ----------

  /** The wallet's entries are what the node reports: for distinct keys, distinct entries of the
      node's UTXO set that belong to the key, with their marks. */
  ghost predicate Reflects(w: Wallet, s: State) {
    && (forall i, j :: 0 <= i < j < |w.entries| ==> w.entries[i].publicKey != w.entries[j].publicKey)
    && (forall i :: 0 <= i < |w.entries| ==> ReflectsEntry(w.entries[i], s))
  }

  ghost predicate ReflectsEntry(e: Entry, s: State) {
    && (forall i, j :: 0 <= i < j < |e.outputs| ==>
                         HashOutput(e.outputs[i].output) != HashOutput(e.outputs[j].output))
    && (forall i :: 0 <= i < |e.outputs| ==> Reported(e.outputs[i], e.publicKey, s))
  }

  ghost predicate Reported(u: Utxo, key: PublicKey, s: State) {
    && HashOutput(u.output) in s.utxos && s.utxos[HashOutput(u.output)] == u
    && u.output.pubkey == key
  }

  // ---------- where the report comes from ----------

  /** `utxo_set_for_pubkey`: the entries of one key, in whatever order the map is walked. */
  function ListedFor(order: seq<Hash>, utxos: UtxoSet, key: PublicKey): seq<Utxo>
    requires forall h :: h in order ==> h in utxos
  {
    if order == [] then []
    else
      var u := utxos[order[0]];
      (if u.output.pubkey == key then [u] else []) + ListedFor(order[1..], utxos, key)
  }

  lemma UnderOwnHash(s: State, h: Hash)
    requires Tracked(s) && h in s.utxos
    ensures HashOutput(s.utxos[h].output) == h
  {
    assert h in Plain(s.utxos) && Plain(s.utxos)[h] == s.utxos[h].output;
    UnspentKeysTouched(if UpToDate(s) then s.blocks else Init(s.blocks), h);
  }

  lemma {:induction false} ListReflects(s: State, order: seq<Hash>, key: PublicKey)
    requires Tracked(s) && Distinct(order)
    requires forall h :: h in order ==> h in s.utxos
    ensures ReflectsEntry(Entry(key, ListedFor(order, s.utxos, key)), s)
    ensures forall u :: u in ListedFor(order, s.utxos, key) ==> HashOutput(u.output) in order
    ensures forall h :: h in order && s.utxos[h].output.pubkey == key ==> s.utxos[h] in ListedFor(order, s.utxos, key)
    decreases |order|
  {
    if order != [] {
      var h, rest := order[0], ListedFor(order[1..], s.utxos, key);
      ListReflects(s, order[1..], key);
      UnderOwnHash(s, h);
      forall u | u in rest
        ensures HashOutput(u.output) != h
      {
        var i :| 0 <= i < |order[1..]| && order[1..][i] == HashOutput(u.output);
        assert order[i + 1] != order[0];
      }
      if s.utxos[h].output.pubkey == key {
        ConsReflects(s.utxos[h], rest, key, s);
      } else {
        assert [] + rest == rest;
      }
    }
  }

  lemma ConsReflects(u: Utxo, rest: seq<Utxo>, key: PublicKey, s: State)
    requires ReflectsEntry(Entry(key, rest), s) && Reported(u, key, s)
    requires forall v :: v in rest ==> HashOutput(v.output) != HashOutput(u.output)
    ensures ReflectsEntry(Entry(key, [u] + rest), s)
  {
    var all := [u] + rest;
    forall i, j | 0 <= i < j < |all|
      ensures HashOutput(all[i].output) != HashOutput(all[j].output)
    {
      assert all[j] == rest[j - 1] && rest[j - 1] in rest;
      if i > 0 {
        assert all[i] == rest[i - 1];
      }
    }
    forall i | 0 <= i < |all|
      ensures Reported(all[i], key, s)
    {
      if i > 0 {
        assert Reported(rest[i - 1], key, s);
      }
    }
  }

  /** In any state a run reaches, a wallet whose entries are the node's listings for distinct keys
      reflects the node, and, if the listings walk the whole map, misses none of its outputs. */
  lemma ListingsReflect(w: Wallet, s: State, order: seq<Hash>)
    requires Tracked(s) && Distinct(order) && forall h :: h in order <==> h in s.utxos
    requires forall i, j :: 0 <= i < j < |w.entries| ==> w.entries[i].publicKey != w.entries[j].publicKey
    requires forall i :: 0 <= i < |w.entries| ==>
                           w.entries[i].outputs == ListedFor(order, s.utxos, w.entries[i].publicKey)
    ensures Reflects(w, s)
    ensures forall i, h :: 0 <= i < |w.entries| && h in s.utxos
                           && s.utxos[h].output.pubkey == w.entries[i].publicKey ==>
                             s.utxos[h] in w.entries[i].outputs
  {
    forall i | 0 <= i < |w.entries|
      ensures ReflectsEntry(w.entries[i], s)
      ensures forall h :: h in s.utxos && s.utxos[h].output.pubkey == w.entries[i].publicKey ==>
                            s.utxos[h] in w.entries[i].outputs
    {
      var e := w.entries[i];
      ListReflects(s, order, e.publicKey);
      assert e == Entry(e.publicKey, ListedFor(order, s.utxos, e.publicKey));
    }
  }

  ghost predicate KeyPairsMatch(keys: seq<LoadedKey>) {
    forall i :: 0 <= i < |keys| ==> PublicKeyOf(keys[i].privateKey) == keys[i].publicKey
  }

  lemma {:induction false} KeyForMatches(keys: seq<LoadedKey>, key: PublicKey)
    requires KeyPairsMatch(keys) && KeyFor(keys, key).Some?
    ensures PublicKeyOf(KeyFor(keys, key).value) == key
  {
    if keys[0].publicKey != key {
      KeyForMatches(keys[1..], key);
    }
  }

  /** A coin the node holds unmarked, under its own hash, with the key that opens it. */
  ghost predicate Held(c: Coin, s: State) {
    var h := HashOutput(c.output);
    && h in s.utxos && s.utxos[h] == Utxo(false, c.output)
    && PublicKeyOf(c.key) == c.output.pubkey
  }

  function CoinHashes(coins: seq<Coin>): seq<Hash> {
    seq(|coins|, i requires 0 <= i < |coins| => HashOutput(coins[i].output))
  }

  lemma HashesSnoc(coins: seq<Coin>, c: Coin)
    requires Distinct(CoinHashes(coins))
    requires forall d :: d in coins ==> HashOutput(d.output) != HashOutput(c.output)
    ensures Distinct(CoinHashes(coins + [c]))
  {
    assert CoinHashes(coins + [c]) == CoinHashes(coins) + [HashOutput(c.output)];
    forall i | 0 <= i < |coins|
      ensures CoinHashes(coins)[i] != HashOutput(c.output)
    {
      assert coins[i] in coins;
    }
  }

  /** The coin's key is that of one of the first `n` entries. */
  ghost predicate OwnedBefore(c: Coin, w: Wallet, n: nat) {
    exists i :: 0 <= i < n <= |w.entries| && w.entries[i].publicKey == c.output.pubkey
  }

  /** The coin is one of the first `n` outputs of the entry. */
  ghost predicate FromEntry(c: Coin, e: Entry, n: nat) {
    && c.output.pubkey == e.publicKey
    && exists k :: 0 <= k < n <= |e.outputs| && e.outputs[k] == Utxo(false, c.output)
  }

  lemma AnotherHash(c: Coin, w: Wallet, i: nat, j: nat, s: State)
    requires Reflects(w, s) && i < |w.entries| && j < |w.entries[i].outputs|
    requires Held(c, s) && (OwnedBefore(c, w, i) || FromEntry(c, w.entries[i], j))
    ensures HashOutput(c.output) != HashOutput(w.entries[i].outputs[j].output)
  {
    var e := w.entries[i];
    assert ReflectsEntry(e, s) && Reported(e.outputs[j], e.publicKey, s);
  }

  lemma {:induction false} EntryHeld(w: Wallet, i: nat, j: nat, key: PrivateKey, s: State)
    requires Reflects(w, s) && i < |w.entries| && j <= |w.entries[i].outputs|
    requires PublicKeyOf(key) == w.entries[i].publicKey
    requires forall c :: c in CoinsBefore(w, i) ==> Held(c, s) && OwnedBefore(c, w, i)
    requires Distinct(CoinHashes(CoinsBefore(w, i)))
    ensures var coins := WithCoins(CoinsBefore(w, i), w.entries[i].outputs, key, j);
            && (forall c :: c in coins ==> Held(c, s) && (OwnedBefore(c, w, i) || FromEntry(c, w.entries[i], j)))
            && Distinct(CoinHashes(coins))
    decreases j
  {
    if j > 0 {
      var e, front := w.entries[i], WithCoins(CoinsBefore(w, i), w.entries[i].outputs, key, j - 1);
      EntryHeld(w, i, j - 1, key, s);
      assert ReflectsEntry(e, s) && Reported(e.outputs[j - 1], e.publicKey, s);
      forall c | c in front
        ensures HashOutput(c.output) != HashOutput(e.outputs[j - 1].output)
      {
        AnotherHash(c, w, i, j - 1, s);
      }
      HashesSnoc(front, Coin(e.outputs[j - 1].output, key));
    }
  }

  lemma {:induction false} CoinsHeld(w: Wallet, n: nat, s: State)
    requires Reflects(w, s) && KeyPairsMatch(w.keys) && n <= |w.entries|
    ensures forall c :: c in CoinsBefore(w, n) ==> Held(c, s) && OwnedBefore(c, w, n)
    ensures Distinct(CoinHashes(CoinsBefore(w, n)))
    decreases n
  {
    if n > 0 {
      var e := w.entries[n - 1];
      CoinsHeld(w, n - 1, s);
      if KeyFor(w.keys, e.publicKey).Some? {
        KeyForMatches(w.keys, e.publicKey);
        EntryHeld(w, n - 1, |e.outputs|, KeyFor(w.keys, e.publicKey).value, s);
      }
    }
  }

  lemma SpendsAreHashes(coins: seq<Coin>)
    ensures SpendsOfInputs(SignedInputs(coins)) == CoinHashes(coins)
  {
  }

  lemma {:induction false} CoinsValue(coins: seq<Coin>, s: State)
    requires forall c :: c in coins ==> Held(c, s)
    ensures AllIn(CoinHashes(coins), Plain(s.utxos))
    ensures Value(CoinHashes(coins), Plain(s.utxos)) == Worth(coins)
    decreases |coins|
  {
    if coins != [] {
      var n := |coins| - 1;
      var h := HashOutput(coins[n].output);
      CoinsValue(coins[..n], s);
      assert coins[n] in coins && Held(coins[n], s);
      assert CoinHashes(coins) == CoinHashes(coins[..n]) + [h];
      assert Plain(s.utxos)[h] == coins[n].output;
      assert Value([h], Plain(s.utxos)) == coins[n].output.amount;
      ValueConcat(CoinHashes(coins[..n]), [h], Plain(s.utxos));
    }
  }

  lemma {:induction false} NothingDisplaced(tx: Tx, inputs: seq<TxInput>, utxos: UtxoSet, pool: seq<Pooled>)
    requires forall i :: 0 <= i < |inputs| ==> !IsMarked(utxos, inputs[i].prevTxOutputHash)
    ensures Displace(tx, inputs, utxos, pool) == Displaced(utxos, pool, None)
  {
    if inputs != [] {
      NothingDisplaced(tx, inputs[1..], utxos, pool);
    }
  }

  /** The payment built from chosen coins. */
  function Payment(
    w: Wallet, chosen: seq<Coin>, recipient: PublicKey, amount: Amount, fee: Amount, id: nat, changeId: nat): Tx
    requires amount + fee <= Worth(chosen) <= U64_MAX
    requires Worth(chosen) > amount + fee ==> w.keys != []
  {
    Tx(SignedInputs(chosen), PaymentOutputs(w, recipient, amount, Worth(chosen) - (amount + fee), id, changeId))
  }

  lemma PaymentPaysOut(
    w: Wallet, chosen: seq<Coin>, recipient: PublicKey, amount: Amount, fee: Amount, id: nat, changeId: nat)
    requires amount + fee <= Worth(chosen) <= U64_MAX
    requires Worth(chosen) > amount + fee ==> w.keys != []
    ensures SumOutputs(Payment(w, chosen, recipient, amount, fee, id, changeId).outputs) + fee == Worth(chosen)
  {
    var outputs := Payment(w, chosen, recipient, amount, fee, id, changeId).outputs;
    SumOutputsSnoc(outputs, 0);
    if Worth(chosen) > amount + fee {
      SumOutputsSnoc(outputs, 1);
    }
    assert outputs[..|outputs|] == outputs;
  }

  lemma CoinsSigned(coins: seq<Coin>, s: State)
    requires SigningCorrect()
    requires forall c :: c in coins ==> Held(c, s)
    ensures InputsSigned(SignedInputs(coins), Plain(s.utxos))
    ensures forall i :: 0 <= i < |coins| ==> !IsMarked(s.utxos, SignedInputs(coins)[i].prevTxOutputHash)
  {
    forall i | 0 <= i < |coins|
      ensures var input := SignedInputs(coins)[i];
              && !IsMarked(s.utxos, input.prevTxOutputHash)
              && input.prevTxOutputHash in Plain(s.utxos)
              && Verify(input.signature, input.prevTxOutputHash, Plain(s.utxos)[input.prevTxOutputHash].pubkey)
    {
      assert coins[i] in coins && Held(coins[i], s);
    }
  }

  /** A payment built from coins the node reported spends distinct unspent outputs, signed for, and
      leaves exactly the wallet's fee. */
  lemma PaymentIsFunded(
    w: Wallet, s: State, chosen: seq<Coin>, recipient: PublicKey, amount: Amount, fee: Amount, id: nat, changeId: nat)
    requires SigningCorrect() && KeyPairsMatch(w.keys) && Reflects(w, s)
    requires chosen <= Coins(w)
    requires amount + fee <= Worth(chosen) <= U64_MAX
    requires Worth(chosen) > amount + fee ==> w.keys != []
    ensures var tx := Payment(w, chosen, recipient, amount, fee, id, changeId);
            && Funded(tx, Plain(s.utxos))
            && TxFee(tx, Plain(s.utxos)) == Success(fee)
            && InputsSigned(tx.inputs, Plain(s.utxos))
            && (forall i :: 0 <= i < |tx.inputs| ==> !IsMarked(s.utxos, tx.inputs[i].prevTxOutputHash))
  {
    CoinsHeld(w, |w.entries|, s);
    ChosenHeld(chosen, Coins(w), s);
    CoinsSigned(chosen, s);
    SpendsAreHashes(chosen);
    CoinsValue(chosen, s);
    PresentIsValue(SignedInputs(chosen), Plain(s.utxos));
    PaymentPaysOut(w, chosen, recipient, amount, fee, id, changeId);
  }

  lemma ChosenHeld(chosen: seq<Coin>, all: seq<Coin>, s: State)
    requires chosen <= all && Distinct(CoinHashes(all))
    requires forall c :: c in all ==> Held(c, s)
    ensures Distinct(CoinHashes(chosen)) && forall c :: c in chosen ==> Held(c, s)
  {
    forall i, j | 0 <= i < j < |chosen|
      ensures CoinHashes(chosen)[i] != CoinHashes(chosen)[j]
    {
      assert CoinHashes(all)[i] != CoinHashes(all)[j];
    }
    forall c | c in chosen
      ensures Held(c, s)
    {
      assert c in all;
    }
  }

  /** The node that reported the coins takes the payment into its pool: the insertion succeeds, adds
      exactly the payment, and puts it right behind the entries that pay no higher fee. */
  lemma NodePoolsPayment(
    w: Wallet, s: State, chosen: seq<Coin>, recipient: PublicKey, amount: Amount, fee: Amount,
    id: nat, changeId: nat, at: Timestamp)
    requires SigningCorrect() && KeyPairsMatch(w.keys) && Reflects(w, s)
    requires Consistent(s.mempool, Plain(s.utxos))
    requires chosen <= Coins(w)
    requires amount + fee <= Worth(chosen) <= U64_MAX
    requires Worth(chosen) > amount + fee ==> w.keys != []
    requires !InPool(s.mempool, HashTx(Payment(w, chosen, recipient, amount, fee, id, changeId)))
    ensures var tx := Payment(w, chosen, recipient, amount, fee, id, changeId);
            var k := NoHigher(s.mempool, fee, Plain(s.utxos));
            && WithTx(s, tx, at).outcome == Pass
            && WithTx(s, tx, at).state.mempool == s.mempool[..k] + [Pooled(at, tx)] + s.mempool[k..]
  {
    var tx := Payment(w, chosen, recipient, amount, fee, id, changeId);
    PaymentIsFunded(w, s, chosen, recipient, amount, fee, id, changeId);
    UnmarkedPooled(tx, at, s.utxos, s.mempool);
  }

  /** A funded newcomer none of whose inputs is marked displaces nothing, and lands right behind the
      entries that pay no higher fee. */
  lemma UnmarkedPooled(tx: Tx, at: Timestamp, utxos: UtxoSet, pool: seq<Pooled>)
    requires Consistent(pool, Plain(utxos)) && Funded(tx, Plain(utxos)) && !InPool(pool, HashTx(tx))
    requires forall i :: 0 <= i < |tx.inputs| ==> !IsMarked(utxos, tx.inputs[i].prevTxOutputHash)
    ensures var r := Insert(tx, at, utxos, pool);
            var k := NoHigher(pool, Surplus(tx, Plain(utxos)), Plain(utxos));
            r.outcome == Pass && r.pool == pool[..k] + [Pooled(at, tx)] + pool[k..]
  {
    CheckInputsExact(tx.inputs, utxos, {});
    NothingDisplaced(tx, tx.inputs, utxos, pool);
    InsertIsEnqueue(tx, at, utxos, pool);
    SortedConsistent(pool, Pooled(at, tx), Plain(utxos));
    EnqueuePasses(tx, at, utxos, pool);
    PushedSorted(pool, Pooled(at, tx), Plain(utxos));
  }

  lemma PushedSorted(pool: seq<Pooled>, p: Pooled, outs: Outputs)
    requires Ascending(pool, outs) && Sorted(pool + [p], outs).Success?
    ensures var k := NoHigher(pool, Surplus(p.tx, outs), outs);
            Sorted(pool + [p], outs).value == pool[..k] + [p] + pool[k..]
  {
    assert (pool + [p])[..|pool|] == pool;
    SortByFeeSorted(pool, outs);
    InsertByFeeAt(pool, p, outs);
  }

  // ---------- from the pool to a block ----------

  /** What a consistent pool still leaves to check before its front can be mined: that the
      transactions are signed and share no input. */
  lemma ConsistentSelectionMinable(s: State)
    requires Sound(s) && Consistent(s.mempool, Plain(s.utxos))
    ensures var txs := Mining.Selected(s.mempool);
            Mining.SelectionMinable(s) <==>
              (forall i :: 0 <= i < |txs| ==> InputsSigned(txs[i].inputs, Plain(s.utxos))) && Distinct(Spends(txs))
  {
    var txs := Mining.Selected(s.mempool);
    forall i | 0 <= i < |txs|
      ensures Balanced(txs[i], Plain(s.utxos)) <==> InputsSigned(txs[i].inputs, Plain(s.utxos))
    {
      assert s.mempool[i] in s.mempool && Funded(txs[i], Plain(s.utxos));
      PresentIsValue(txs[i].inputs, Plain(s.utxos));
    }
  }

  lemma LoneEntryMinable(s: State, p: Pooled)
    requires Sound(s) && s.mempool == [p] && Consistent(s.mempool, Plain(s.utxos))
    requires InputsSigned(p.tx.inputs, Plain(s.utxos))
    ensures Mining.Selected(s.mempool) == [p.tx] && Mining.SelectionMinable(s)
  {
    assert Spends([p.tx]) == SpendsOfInputs(p.tx.inputs);
    assert p in s.mempool && Funded(p.tx, Plain(s.utxos));
    ConsistentSelectionMinable(s);
  }

  /** The ledger of a node that pooled nothing but the payment. */
  lemma LonePaymentMinable(w: Wallet, s: State, chosen: seq<Coin>, recipient: PublicKey, amount: Amount, fee: Amount,
    id: nat, changeId: nat, at: Timestamp)
    requires SigningCorrect() && KeyPairsMatch(w.keys) && Reflects(w, s)
    requires Sound(s) && s.mempool == []
    requires chosen <= Coins(w)
    requires amount + fee <= Worth(chosen) <= U64_MAX
    requires Worth(chosen) > amount + fee ==> w.keys != []
    ensures var tx := Payment(w, chosen, recipient, amount, fee, id, changeId);
            var s' := WithTx(s, tx, at).state;
            && s'.mempool == [Pooled(at, tx)] && s'.blocks == s.blocks && s'.target == s.target
            && Plain(s'.utxos) == Plain(s.utxos)
            && Sound(s') && Mining.Selected(s'.mempool) == [tx] && Mining.SelectionMinable(s')
  {
    var tx := Payment(w, chosen, recipient, amount, fee, id, changeId);
    var s' := WithTx(s, tx, at).state;
    NodePoolsPayment(w, s, chosen, recipient, amount, fee, id, changeId, at);
    PaymentIsFunded(w, s, chosen, recipient, amount, fee, id, changeId);
    InsertKeepsConsistent(tx, at, s.utxos, s.mempool);
    assert s'.mempool == [Pooled(at, tx)];
    LoneEntryMinable(s', Pooled(at, tx));
  }

  /** What a node with an empty pool leads to: the payment is pooled, a template the node then hands out
      pays the miner subsidy and fee, and any header mined from it that meets the tip's target puts the
      payment in the chain. */
  lemma LonePaymentReachesChain(
    w: Wallet, s: State, chosen: seq<Coin>, recipient: PublicKey, amount: Amount, fee: Amount,
    id: nat, changeId: nat, at: Timestamp,
    miner: PublicKey, minerId: nat, reward: Amount, now: Timestamp, template: Block, clock: seq<Timestamp>)
    requires SigningCorrect() && KeyPairsMatch(w.keys) && Reflects(w, s)
    requires Sound(s) && s.mempool == []
    requires chosen <= Coins(w)
    requires amount + fee <= Worth(chosen) <= U64_MAX
    requires Worth(chosen) > amount + fee ==> w.keys != []
    requires Mining.IsTemplate(WithTx(s, Payment(w, chosen, recipient, amount, fee, id, changeId), at).state,
                               miner, minerId, reward, now, template)
    requires Mining.LaterThanTip(s.blocks, now) && forall t :: t in clock ==> Mining.LaterThanTip(s.blocks, t)
    ensures var mined := Mining.Candidate(template.header, clock);
            && template.transactions == [Mining.Coinbase(miner, minerId, reward),
                                         Payment(w, chosen, recipient, amount, fee, id, changeId)]
            && reward == Subsidy(|s.blocks|) + fee
            && (Extends(s.blocks, Block(mined, template.transactions)) <==> Mining.MeetsTip(s.blocks, mined))
  {
    var tx := Payment(w, chosen, recipient, amount, fee, id, changeId);
    var s' := WithTx(s, tx, at).state;
    LonePaymentMinable(w, s, chosen, recipient, amount, fee, id, changeId, at);
    Mining.MinableTemplateExtendsIff(s', miner, minerId, reward, now, template, clock);
    FeeOfOne(w, s, chosen, recipient, amount, fee, id, changeId);
    TemplateOfOne(s', tx, miner, minerId, reward, now, template);
  }

  lemma TemplateOfOne(
    s: State, tx: Tx, miner: PublicKey, minerId: nat, reward: Amount, now: Timestamp, template: Block)
    requires Sound(s) && Mining.Selected(s.mempool) == [tx] && Mining.SelectionMinable(s)
    requires Mining.IsTemplate(s, miner, minerId, reward, now, template)
    ensures template.transactions == [Mining.Coinbase(miner, minerId, reward), tx]
    ensures AllBalanced([tx], Unspent(s.blocks)) && reward == Subsidy(|s.blocks|) + Fees([tx], Unspent(s.blocks))
  {
    Mining.MinableTemplateExists(s);
  }

  lemma FeeOfOne(w: Wallet, s: State, chosen: seq<Coin>, recipient: PublicKey, amount: Amount, fee: Amount,
    id: nat, changeId: nat)
    requires SigningCorrect() && KeyPairsMatch(w.keys) && Reflects(w, s)
    requires chosen <= Coins(w)
    requires amount + fee <= Worth(chosen) <= U64_MAX
    requires Worth(chosen) > amount + fee ==> w.keys != []
    ensures var tx := Payment(w, chosen, recipient, amount, fee, id, changeId);
            Balanced(tx, Plain(s.utxos)) && AllBalanced([tx], Plain(s.utxos)) && Fees([tx], Plain(s.utxos)) == fee
  {
    var tx := Payment(w, chosen, recipient, amount, fee, id, changeId);
    PaymentIsFunded(w, s, chosen, recipient, amount, fee, id, changeId);
    PresentIsValue(tx.inputs, Plain(s.utxos));
    assert Spends([tx]) == SpendsOfInputs(tx.inputs);
    assert Creates([tx]) == tx.outputs;
  }

  // ---------- beside other transactions ----------

  /** An entry is handed out in a template exactly if it is among the first of the pool. */
  lemma SelectedIff(before: seq<Pooled>, p: Pooled, after: seq<Pooled>)
    requires forall q :: q in before || q in after ==> q.tx != p.tx
    ensures p.tx in Mining.Selected(before + [p] + after) <==> |before| < BLOCK_TRANSACTION_CAP
  {
    var pool := before + [p] + after;
    var txs := Mining.Selected(pool);
    assert pool[|before|] == p;
    forall i | 0 <= i < |txs| && i != |before|
      ensures txs[i] != p.tx
    {
      assert if i < |before| then pool[i] in before else pool[i] in after;
    }
    if |before| < |txs| {
      assert txs[|before|] == p.tx;
    }
  }

  lemma OthersDiffer(pool: seq<Pooled>, tx: Tx, k: nat)
    requires !InPool(pool, HashTx(tx)) && k <= |pool|
    ensures forall q :: q in pool[..k] || q in pool[k..] ==> q.tx != tx
  {
    forall q | q in pool[..k] || q in pool[k..]
      ensures q.tx != tx
    {
      assert q in pool;
      var i :| 0 <= i < |pool| && pool[i] == q;
    }
  }

  /** End to end: a payment built from coins that a node reported is pooled by it, and is in the next
      template exactly if fewer than 20 pooled transactions pay no higher fee.  A header mined from that
      template extends the chain exactly if it meets the tip's target, is later than the tip, and the
      transactions it was handed out with are all signed and share no input. */
  lemma PaymentReachesChain(
    w: Wallet, s: State, chosen: seq<Coin>, recipient: PublicKey, amount: Amount, fee: Amount,
    id: nat, changeId: nat, at: Timestamp,
    miner: PublicKey, minerId: nat, reward: Amount, now: Timestamp, template: Block, clock: seq<Timestamp>)
    requires SigningCorrect() && KeyPairsMatch(w.keys) && Reflects(w, s)
    requires Sound(s) && Consistent(s.mempool, Plain(s.utxos))
    requires chosen <= Coins(w)
    requires amount + fee <= Worth(chosen) <= U64_MAX
    requires Worth(chosen) > amount + fee ==> w.keys != []
    requires !InPool(s.mempool, HashTx(Payment(w, chosen, recipient, amount, fee, id, changeId)))
    requires Mining.IsTemplate(WithTx(s, Payment(w, chosen, recipient, amount, fee, id, changeId), at).state,
                               miner, minerId, reward, now, template)
    ensures var tx := Payment(w, chosen, recipient, amount, fee, id, changeId);
            var mined, others := Mining.Candidate(template.header, clock), template.transactions[1..];
            && (tx in others <==> NoHigher(s.mempool, fee, Plain(s.utxos)) < BLOCK_TRANSACTION_CAP)
            && (Extends(s.blocks, Block(mined, template.transactions)) <==>
                  && Mining.MeetsTip(s.blocks, mined) && Mining.LaterThanTip(s.blocks, mined.timestamp)
                  && (forall i :: 0 <= i < |others| ==> InputsSigned(others[i].inputs, Plain(s.utxos)))
                  && Distinct(Spends(others)))
  {
    var tx := Payment(w, chosen, recipient, amount, fee, id, changeId);
    var s' := WithTx(s, tx, at).state;
    var k := NoHigher(s.mempool, fee, Plain(s.utxos));
    NodePoolsPayment(w, s, chosen, recipient, amount, fee, id, changeId, at);
    OthersDiffer(s.mempool, tx, k);
    SelectedIff(s.mempool[..k], Pooled(at, tx), s.mempool[k..]);
    Mining.TemplateSums(s', miner, minerId, reward, now, template);
    InsertKeepsConsistent(tx, at, s.utxos, s.mempool);
    InsertKeepsOutputs(tx, at, s.utxos, s.mempool);
    ConsistentSelectionMinable(s');
    Mining.MinedTemplateExtendsIff(s', miner, minerId, reward, now, template, clock);
  }

  lemma SharedNotDistinct(a: seq<Hash>, b: seq<Hash>, h: Hash)
    requires h in a && h in b
    ensures !Distinct(a + b)
  {
    var i :| 0 <= i < |a| && a[i] == h;
    var j :| 0 <= j < |b| && b[j] == h;
    assert (a + b)[i] == (a + b)[|a| + j];
  }

  lemma {:induction false} SharedInputSpentTwice(txs: seq<Tx>, i: nat, j: nat, h: Hash)
    requires i < j < |txs|
    requires h in SpendsOfInputs(txs[i].inputs) && h in SpendsOfInputs(txs[j].inputs)
    ensures !Distinct(Spends(txs))
    decreases |txs|
  {
    var first, rest := SpendsOfInputs(txs[0].inputs), Spends(txs[1..]);
    if i > 0 {
      SharedInputSpentTwice(txs[1..], i - 1, j - 1, h);
      DistinctConcat(first, rest);
    } else {
      SpentSomewhere(txs[1..], j - 1, h);
      SharedNotDistinct(first, rest, h);
    }
  }

  /** While two conflicting transactions lie among the first of its pool, nothing mined from a node's
      templates extends its chain. */
  lemma ConflictStopsMining(
    s: State, i: nat, j: nat, h: Hash,
    miner: PublicKey, minerId: nat, reward: Amount, now: Timestamp, template: Block, clock: seq<Timestamp>)
    requires Sound(s) && i < j < |s.mempool| && j < BLOCK_TRANSACTION_CAP
    requires h in SpendsOfInputs(s.mempool[i].tx.inputs) && h in SpendsOfInputs(s.mempool[j].tx.inputs)
    requires Mining.IsTemplate(s, miner, minerId, reward, now, template)
    ensures !Extends(s.blocks, Block(Mining.Candidate(template.header, clock), template.transactions))
  {
    var txs := Mining.Selected(s.mempool);
    assert txs[i] == s.mempool[i].tx && txs[j] == s.mempool[j].tx;
    SharedInputSpentTwice(txs, i, j, h);
    Mining.MinedTemplateExtendsIff(s, miner, minerId, reward, now, template, clock);
  }
}
