/** Coin selection: which outputs a payment spends, and that a node accepts the result. */
module Wallet {
  import opened Types

  datatype LoadedKey = LoadedKey(publicKey: PublicKey, privateKey: PrivateKey)

  /** The outputs a node reported for one of the wallet's keys. */
  datatype Entry = Entry(publicKey: PublicKey, outputs: seq<Utxo>)

  datatype Wallet = Wallet(keys: seq<LoadedKey>, entries: seq<Entry>)

  /** An output the wallet may spend and the key to sign for it. */
  datatype Coin = Coin(output: TxOutput, key: PrivateKey)

  function KeyFor(keys: seq<LoadedKey>, key: PublicKey): Option<PrivateKey> {
    if keys == [] then None
    else if keys[0].publicKey == key then Some(keys[0].privateKey)
    else KeyFor(keys[1..], key)
  }

  predicate KeysKnown(w: Wallet) {
    forall i :: 0 <= i < |w.entries| ==> KeyFor(w.keys, w.entries[i].publicKey).Some?
  }

  /** `before`, followed by the unmarked ones of the first `n` outputs. */
  function WithCoins(before: seq<Coin>, outputs: seq<Utxo>, key: PrivateKey, n: nat): seq<Coin>
    requires n <= |outputs|
  {
    if n == 0 then before
    else if outputs[n - 1].marked then WithCoins(before, outputs, key, n - 1)
    else WithCoins(before, outputs, key, n - 1) + [Coin(outputs[n - 1].output, key)]
  }

  /** The coins of the first `n` entries, in the order they are tried; an entry whose key is missing
      has none. */
  function CoinsBefore(w: Wallet, n: nat): seq<Coin>
    requires n <= |w.entries|
  {
    if n == 0 then []
    else
      var entry := w.entries[n - 1];
      match KeyFor(w.keys, entry.publicKey)
      case None => CoinsBefore(w, n - 1)
      case Some(key) => WithCoins(CoinsBefore(w, n - 1), entry.outputs, key, |entry.outputs|)
  }

  /** All coins of the wallet. */
  function Coins(w: Wallet): seq<Coin> {
    CoinsBefore(w, |w.entries|)
  }

  function Worth(coins: seq<Coin>): nat {
    if coins == [] then 0 else Worth(coins[..|coins| - 1]) + coins[|coins| - 1].output.amount
  }

  function SignedInput(coin: Coin): TxInput {
    TxInput(HashOutput(coin.output), Sign(HashOutput(coin.output), coin.key))
  }

  function SignedInputs(coins: seq<Coin>): seq<TxInput> {
    seq(|coins|, i requires 0 <= i < |coins| => SignedInput(coins[i]))
  }

  /** The payment and, when something is left over, the change to the wallet's first key. */
  function PaymentOutputs(
    w: Wallet, recipient: PublicKey, amount: Amount, change: Amount, id: nat, changeId: nat): seq<TxOutput>
    requires change > 0 ==> w.keys != []
  {
    [TxOutput(amount, id, recipient)]
    + (if change > 0 then [TxOutput(change, changeId, w.keys[0].publicKey)] else [])
  }

  /** What the outputs under a key are worth together. */
  function PaidTo(key: PublicKey, outputs: seq<TxOutput>): nat {
    if outputs == [] then 0
    else (if outputs[0].pubkey == key then outputs[0].amount else 0) + PaidTo(key, outputs[1..])
  }

  lemma TwoOutputs(key: PublicKey, first: TxOutput, second: TxOutput)
    ensures PaidTo(key, [first]) == if first.pubkey == key then first.amount else 0
    ensures PaidTo(key, [first, second])
         == (if first.pubkey == key then first.amount else 0) + (if second.pubkey == key then second.amount else 0)
    ensures SumOutputs([first]) == first.amount && SumOutputs([first, second]) == first.amount + second.amount
  {
    assert [first][1..] == [] && [second][1..] == [] && [first, second][1..] == [second];
  }

  /** A payee other than the wallet's first key gets exactly the amount, and that key the change; the
      first key itself gets both. */
  lemma PaymentPays(w: Wallet, recipient: PublicKey, amount: Amount, change: Amount, id: nat, changeId: nat)
    requires change > 0 ==> w.keys != []
    ensures var outputs := PaymentOutputs(w, recipient, amount, change, id, changeId);
            && PaidTo(recipient, outputs)
                 == (if w.keys != [] && recipient == w.keys[0].publicKey then amount + change else amount)
            && (w.keys != [] && recipient != w.keys[0].publicKey ==> PaidTo(w.keys[0].publicKey, outputs) == change)
            && SumOutputs(outputs) == amount + change
  {
    var outputs := PaymentOutputs(w, recipient, amount, change, id, changeId);
    var second := if change > 0 then outputs[1] else outputs[0];
    TwoOutputs(recipient, outputs[0], second);
    assert outputs == if change > 0 then [outputs[0], second] else [outputs[0]];
    if w.keys != [] {
      TwoOutputs(w.keys[0].publicKey, outputs[0], second);
    }
  }

  /** `chosen` is the shortest run of coins from the front that covers the total; a zero total may
      still take one coin. */
  ghost predicate Covers(chosen: seq<Coin>, all: seq<Coin>, total: nat) {
    && chosen <= all
    && Worth(chosen) >= total
    && (forall n :: 0 <= n < |chosen| ==> Worth(chosen[..n]) < total || n == 0)
  }

  /** `create_transaction`: on success the inputs are the chosen coins, signed, and inputs equal
      payment plus fee plus change exactly; with known keys and no overflow it fails exactly when the
      unmarked coins are worth too little. */
  method CreateTransaction(
      w: Wallet, recipient: PublicKey, amount: Amount, fee: Amount, id: nat, changeId: nat)
      returns (r: Result<Tx>, ghost chosen: seq<Coin>)
    ensures r.Success? ==>
              && Covers(chosen, Coins(w), amount + fee)
              && Worth(chosen) <= U64_MAX && amount + fee <= U64_MAX
              && (Worth(chosen) > amount + fee ==> w.keys != [])
              && r.value == Tx(SignedInputs(chosen),
                               PaymentOutputs(w, recipient, amount, Worth(chosen) - (amount + fee), id, changeId))
    ensures r.Success? ==>
              var inputs, outputs, change := r.value.inputs, r.value.outputs, Worth(chosen) - amount - fee;
              && |inputs| == |chosen|
              && (forall i :: 0 <= i < |inputs| ==>
                    && inputs[i].prevTxOutputHash == HashOutput(chosen[i].output)
                    && inputs[i].signature == Sign(inputs[i].prevTxOutputHash, chosen[i].key))
              && |outputs| == (if change > 0 then 2 else 1)
              && outputs[0] == TxOutput(amount, id, recipient)
              && (change > 0 ==> w.keys != [] && outputs[1] == TxOutput(change, changeId, w.keys[0].publicKey))
    ensures r.Success? ==>
              && PaidTo(recipient, r.value.outputs)
                   == (if w.keys != [] && recipient == w.keys[0].publicKey then Worth(chosen) - fee else amount)
              && (w.keys != [] && recipient != w.keys[0].publicKey ==>
                    PaidTo(w.keys[0].publicKey, r.value.outputs) == Worth(chosen) - amount - fee)
              && SumOutputs(r.value.outputs) + fee == Worth(chosen)
    ensures KeysKnown(w) && amount + fee <= U64_MAX && Worth(Coins(w)) <= U64_MAX ==>
              && (r.Success? <==> Worth(Coins(w)) >= amount + fee)
              && (r.Failure? ==> r.error == InsufficientFunds)
    ensures r == Failure(InsufficientFunds) ==> Worth(Coins(w)) < amount + fee
    ensures r == Failure(UnknownPublicKey) ==> !KeysKnown(w)
  {
    chosen := [];
    if amount + fee > U64_MAX {
      return Failure(Overflow), chosen;
    }
    var total := amount + fee;
    var selection: Result<Selection>;
    selection, chosen := SelectCoins(w, total);
    if selection.Failure? {
      return Failure(selection.error), chosen;
    }
    WorthPrefix(chosen, Coins(w));
    LastNeededCovers(chosen, Coins(w), total);
    var sum := selection.value.sum;
    var outputs := [TxOutput(amount, id, recipient)];
    if sum > total {
      assert chosen != [];
      outputs := outputs + [TxOutput(sum - total, changeId, w.keys[0].publicKey)];
    }
    PaymentPays(w, recipient, amount, sum - total, id, changeId);
    return Success(Tx(selection.value.inputs, outputs)), chosen;
  }

  datatype Selection = Selection(inputs: seq<TxInput>, sum: nat)

  /** The loop over the wallet's keys. */
  method SelectCoins(w: Wallet, total: nat) returns (r: Result<Selection>, ghost chosen: seq<Coin>)
    ensures r.Success? ==>
              && Picked(r.value.inputs, r.value.sum, chosen, total)
              && chosen <= Coins(w) && r.value.sum >= total
              && (chosen != [] ==> w.keys != [])
    ensures r.Failure? ==>
              || (r.error == InsufficientFunds && Worth(Coins(w)) < total)
              || (r.error == UnknownPublicKey && !KeysKnown(w))
              || (r.error == Overflow && Worth(Coins(w)) > U64_MAX)
  {
    chosen := [];
    var inputs: seq<TxInput> := [];
    var sum: nat := 0;
    for i := 0 to |w.entries|
      invariant Picked(inputs, sum, chosen, total)
      invariant chosen == CoinsBefore(w, i)
      invariant sum < total || i == 0
      invariant chosen != [] ==> w.keys != []
    {
      var entry := w.entries[i];
      var privateKey := KeyFor(w.keys, entry.publicKey);
      if privateKey == None {
        return Failure(UnknownPublicKey), chosen;
      }
      var fits: bool;
      ghost var upTo: nat;
      fits, inputs, sum, chosen, upTo :=
        SelectFromEntry(entry.outputs, privateKey.value, total, inputs, sum, chosen);
      PartOfEntry(w, i, privateKey.value, upTo);
      if !fits {
        return Failure(Overflow), chosen;
      }
      if sum >= total {
        return Success(Selection(inputs, sum)), chosen;
      }
    }
    r := if sum < total then Failure(InsufficientFunds) else Success(Selection(inputs, sum));
  }

  /** The accumulators of the selection agree with the coins chosen so far. */
  ghost predicate Picked(inputs: seq<TxInput>, inputSum: nat, chosen: seq<Coin>, total: nat) {
    inputs == SignedInputs(chosen) && inputSum == Worth(chosen) <= U64_MAX && LastNeeded(chosen, total)
  }

  lemma SignedSnoc(chosen: seq<Coin>, coin: Coin)
    ensures SignedInputs(chosen + [coin]) == SignedInputs(chosen) + [SignedInput(coin)]
  {
  }

  lemma PickOne(inputs: seq<TxInput>, inputSum: nat, chosen: seq<Coin>, total: nat, coin: Coin)
    requires Picked(inputs, inputSum, chosen, total)
    requires inputSum < total || chosen == []
    ensures Worth(chosen + [coin]) == inputSum + coin.output.amount
    ensures inputSum + coin.output.amount <= U64_MAX ==>
              Picked(inputs + [SignedInput(coin)], inputSum + coin.output.amount, chosen + [coin], total)
  {
    assert (chosen + [coin])[..|chosen|] == chosen;
    SignedSnoc(chosen, coin);
  }

  /** The loop over one key's outputs: takes unmarked outputs until the total is covered. */
  method SelectFromEntry(
      outputs: seq<Utxo>, key: PrivateKey, total: nat, inputs0: seq<TxInput>, sum0: nat, ghost before: seq<Coin>)
      returns (fits: bool, inputs: seq<TxInput>, inputSum: nat, ghost chosen: seq<Coin>, ghost upTo: nat)
    requires Picked(inputs0, sum0, before, total)
    requires sum0 < total || before == []
    ensures upTo <= |outputs| && chosen == WithCoins(before, outputs, key, upTo)
    ensures fits ==> Picked(inputs, inputSum, chosen, total)
    ensures fits && inputSum < total ==> upTo == |outputs|
    ensures !fits ==> Worth(chosen) > U64_MAX
  {
    fits, inputs, inputSum, chosen := true, inputs0, sum0, before;
    for j := 0 to |outputs|
      invariant chosen == WithCoins(before, outputs, key, j)
      invariant Picked(inputs, inputSum, chosen, total)
      invariant inputSum < total || chosen == []
      invariant fits
    {
      upTo := j + 1;
      if !outputs[j].marked {
        var coin := Coin(outputs[j].output, key);
        PickOne(inputs, inputSum, chosen, total, coin);
        chosen := chosen + [coin];
        if inputSum + coin.output.amount > U64_MAX {
          fits := false;
          return;
        }
        inputs, inputSum := inputs + [SignedInput(coin)], inputSum + coin.output.amount;
        if inputSum >= total {
          return;
        }
      }
    }
    upTo := |outputs|;
  }

  lemma {:induction false} WithCoinsGrows(before: seq<Coin>, outputs: seq<Utxo>, key: PrivateKey, j: nat)
    requires j <= |outputs|
    ensures WithCoins(before, outputs, key, j) <= WithCoins(before, outputs, key, |outputs|)
    decreases |outputs| - j
  {
    if j < |outputs| {
      WithCoinsGrows(before, outputs, key, j + 1);
    }
  }

  /** The last coin was still needed; a zero total may still take one. */
  ghost predicate LastNeeded(chosen: seq<Coin>, total: nat) {
    |chosen| >= 2 ==> Worth(chosen[..|chosen| - 1]) < total
  }

  /** Then so was every coin before it. */
  lemma LastNeededCovers(chosen: seq<Coin>, all: seq<Coin>, total: nat)
    requires chosen <= all && Worth(chosen) >= total && LastNeeded(chosen, total)
    ensures Covers(chosen, all, total)
  {
    forall n | 0 <= n < |chosen|
      ensures Worth(chosen[..n]) < total || n == 0
    {
      if n > 0 {
        WorthPrefix(chosen[..n], chosen[..|chosen| - 1]);
      }
    }
  }

  lemma EntryCoins(w: Wallet, i: nat)
    requires i < |w.entries| && KeyFor(w.keys, w.entries[i].publicKey).Some?
    ensures w.keys != []
    ensures CoinsBefore(w, i + 1)
         == WithCoins(CoinsBefore(w, i), w.entries[i].outputs, KeyFor(w.keys, w.entries[i].publicKey).value,
                      |w.entries[i].outputs|)
  {
  }

  lemma {:induction false} CoinsBeforeGrows(w: Wallet, i: nat)
    requires i <= |w.entries|
    ensures CoinsBefore(w, i) <= Coins(w)
    decreases |w.entries| - i
  {
    if i < |w.entries| {
      CoinsBeforeGrows(w, i + 1);
      if KeyFor(w.keys, w.entries[i].publicKey).Some? {
        EntryCoins(w, i);
        WithCoinsGrows(CoinsBefore(w, i), w.entries[i].outputs, KeyFor(w.keys, w.entries[i].publicKey).value, 0);
      }
    }
  }

  lemma PartOfAll(w: Wallet, n: nat, part: seq<Coin>)
    requires n <= |w.entries| && part <= CoinsBefore(w, n)
    ensures part <= Coins(w)
    ensures Worth(part) <= Worth(Coins(w))
  {
    CoinsBeforeGrows(w, n);
    WorthPrefix(part, Coins(w));
  }

  lemma PartOfEntry(w: Wallet, i: nat, key: PrivateKey, n: nat)
    requires i < |w.entries| && KeyFor(w.keys, w.entries[i].publicKey) == Some(key) && n <= |w.entries[i].outputs|
    ensures var part := WithCoins(CoinsBefore(w, i), w.entries[i].outputs, key, n);
            && part <= Coins(w) && Worth(part) <= Worth(Coins(w)) && w.keys != []
            && (n == |w.entries[i].outputs| ==> part == CoinsBefore(w, i + 1))
  {
    EntryCoins(w, i);
    WithCoinsGrows(CoinsBefore(w, i), w.entries[i].outputs, key, n);
    PartOfAll(w, i + 1, WithCoins(CoinsBefore(w, i), w.entries[i].outputs, key, n));
  }

  lemma {:induction false} WorthPrefix(part: seq<Coin>, all: seq<Coin>)
    ensures part <= all ==> Worth(part) <= Worth(all)
    decreases |all|
  {
    if part <= all && part != all {
      var n := |all| - 1;
      assert part <= all[..n];
      WorthPrefix(part, all[..n]);
    }
  }

  // ---------- which coins there are ----------

  /** The key that signs for a public key is the one loaded with it first. */
  lemma {:induction false} KeyForFirst(keys: seq<LoadedKey>, key: PublicKey, i: nat)
    requires i <= |keys|
    requires forall j :: 0 <= j < i ==> keys[j].publicKey != key
    ensures i == |keys| ==> KeyFor(keys, key) == None
    ensures i < |keys| && keys[i].publicKey == key ==> KeyFor(keys, key) == Some(keys[i].privateKey)
    decreases i
  {
    if i > 0 {
      assert keys[0].publicKey != key;
      KeyForFirst(keys[1..], key, i - 1);
    }
  }

  lemma {:induction false} WithCoinsAppends(before: seq<Coin>, outputs: seq<Utxo>, key: PrivateKey, n: nat)
    requires n <= |outputs|
    ensures WithCoins(before, outputs, key, n) == before + WithCoins([], outputs, key, n)
    decreases n
  {
    if n > 0 {
      WithCoinsAppends(before, outputs, key, n - 1);
    }
  }

  lemma {:induction false} CoinsOfFront(keys: seq<LoadedKey>, a: seq<Entry>, b: seq<Entry>, n: nat)
    requires n <= |a|
    ensures CoinsBefore(Wallet(keys, a + b), n) == CoinsBefore(Wallet(keys, a), n)
    decreases n
  {
    if n > 0 {
      CoinsOfFront(keys, a, b, n - 1);
      assert (a + b)[n - 1] == a[n - 1];
    }
  }

  /** The coins among outputs under a key, if it is known. */
  function CoinsUnder(key: Option<PrivateKey>, outputs: seq<Utxo>): seq<Coin> {
    if key == None then [] else WithCoins([], outputs, key.value, |outputs|)
  }

  lemma CoinsOfEntry(keys: seq<LoadedKey>, key: PublicKey, z: seq<Utxo>)
    ensures Coins(Wallet(keys, [Entry(key, z)])) == CoinsUnder(KeyFor(keys, key), z)
  {
    var w := Wallet(keys, [Entry(key, z)]);
    assert w.entries[0] == Entry(key, z) && CoinsBefore(w, 0) == [];
    assert Coins(w) == CoinsBefore(w, 1);
  }

  lemma OneMoreEntry(w: Wallet, i: nat, e: Entry)
    requires i < |w.entries| && w.entries[i] == e
    ensures CoinsBefore(w, i + 1) == CoinsBefore(w, i) + CoinsUnder(KeyFor(w.keys, e.publicKey), e.outputs)
  {
    if KeyFor(w.keys, e.publicKey).Some? {
      EntryCoins(w, i);
      WithCoinsAppends(CoinsBefore(w, i), e.outputs, KeyFor(w.keys, e.publicKey).value, |e.outputs|);
    }
  }

  lemma Regroup(a: seq<Coin>, b: seq<Coin>, c: seq<Coin>)
    ensures a + b + c == a + (b + c)
  {
  }

  lemma {:induction false} CoinsBehind(keys: seq<LoadedKey>, a: seq<Entry>, b: seq<Entry>, n: nat)
    requires n <= |b|
    ensures CoinsBefore(Wallet(keys, a + b), |a| + n) == Coins(Wallet(keys, a)) + CoinsBefore(Wallet(keys, b), n)
    decreases n
  {
    if n == 0 {
      CoinsOfFront(keys, a, b, |a|);
    } else {
      var all, e := Wallet(keys, a + b), b[n - 1];
      CoinsBehind(keys, a, b, n - 1);
      assert all.entries[|a| + n - 1] == e;
      OneMoreEntry(all, |a| + n - 1, e);
      OneMoreEntry(Wallet(keys, b), n - 1, e);
      Regroup(Coins(Wallet(keys, a)), CoinsBefore(Wallet(keys, b), n - 1),
              CoinsUnder(KeyFor(keys, e.publicKey), e.outputs));
    }
  }

  lemma {:induction false} CoinsOfOutputsFront(x: seq<Utxo>, y: seq<Utxo>, key: PrivateKey, n: nat)
    requires n <= |x|
    ensures WithCoins([], x + y, key, n) == WithCoins([], x, key, n)
    decreases n
  {
    if n > 0 {
      CoinsOfOutputsFront(x, y, key, n - 1);
    }
  }

  lemma {:induction false} CoinsOfOutputsBehind(x: seq<Utxo>, y: seq<Utxo>, key: PrivateKey, n: nat)
    requires n <= |y|
    ensures WithCoins([], x + y, key, |x| + n) == WithCoins([], x, key, |x|) + WithCoins([], y, key, n)
    decreases n
  {
    if n == 0 {
      CoinsOfOutputsFront(x, y, key, |x|);
    } else {
      CoinsOfOutputsBehind(x, y, key, n - 1);
      assert (x + y)[|x| + n - 1] == y[n - 1];
    }
  }

  /** One reported output is a coin, to be signed for with the entry's key, unless it is marked or the
      key is missing; ... */
  lemma CoinsOfOne(keys: seq<LoadedKey>, key: PublicKey, u: Utxo)
    ensures Coins(Wallet(keys, [Entry(key, [u])]))
         == if u.marked || KeyFor(keys, key) == None then [] else [Coin(u.output, KeyFor(keys, key).value)]
  {
    var w := Wallet(keys, [Entry(key, [u])]);
    assert CoinsBefore(w, 0) == [];
    if KeyFor(keys, key).Some? {
      EntryCoins(w, 0);
      assert WithCoins([], [u], KeyFor(keys, key).value, 0) == [];
    }
  }

  /** ... the coins of several entries are those of the first and then those of the rest; ... */
  lemma CoinsOfEntries(keys: seq<LoadedKey>, a: seq<Entry>, b: seq<Entry>)
    ensures Coins(Wallet(keys, a + b)) == Coins(Wallet(keys, a)) + Coins(Wallet(keys, b))
  {
    CoinsBehind(keys, a, b, |b|);
  }

  lemma CoinsUnderInOrder(key: Option<PrivateKey>, x: seq<Utxo>, y: seq<Utxo>)
    ensures CoinsUnder(key, x + y) == CoinsUnder(key, x) + CoinsUnder(key, y)
  {
    if key.Some? {
      CoinsOfOutputsBehind(x, y, key.value, |y|);
    }
  }

  /** ... and so are those of an entry's several outputs: every unmarked output, once, in the order
      reported. */
  lemma CoinsOfOutputs(keys: seq<LoadedKey>, key: PublicKey, x: seq<Utxo>, y: seq<Utxo>)
    ensures Coins(Wallet(keys, [Entry(key, x + y)]))
         == Coins(Wallet(keys, [Entry(key, x)])) + Coins(Wallet(keys, [Entry(key, y)]))
  {
    CoinsOfEntry(keys, key, x);
    CoinsOfEntry(keys, key, y);
    CoinsOfEntry(keys, key, x + y);
    CoinsUnderInOrder(KeyFor(keys, key), x, y);
  }

  lemma CoinsOfNone(keys: seq<LoadedKey>, key: PublicKey)
    ensures Coins(Wallet(keys, [])) == []
    ensures Coins(Wallet(keys, [Entry(key, [])])) == []
  {
    CoinsOfEntry(keys, key, []);
  }
}
