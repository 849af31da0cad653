/** The UTXO set as a replay of the chain: every input removes an entry, every output inserts one
    under its own hash. */
module Replay {
  import opened Types

  datatype Op = Spend(hash: Hash) | Create(output: TxOutput)

  function SpendOps(inputs: seq<TxInput>): seq<Op> {
    seq(|inputs|, i requires 0 <= i < |inputs| => Spend(inputs[i].prevTxOutputHash))
  }

  function CreateOps(outputs: seq<TxOutput>): seq<Op> {
    seq(|outputs|, i requires 0 <= i < |outputs| => Create(outputs[i]))
  }

  function TxOps(tx: Tx): seq<Op> {
    SpendOps(tx.inputs) + CreateOps(tx.outputs)
  }

  function TxsOps(txs: seq<Tx>): seq<Op> {
    if txs == [] then [] else TxOps(txs[0]) + TxsOps(txs[1..])
  }

  /** Everything the blocks spend and create, in order. */
  function ChainOps(chain: seq<Block>): seq<Op> {
    if chain == [] then []
    else ChainOps(chain[..|chain| - 1]) + TxsOps(chain[|chain| - 1].transactions)
  }

  lemma TxsOpsSnoc(txs: seq<Tx>, j: nat)
    requires j < |txs|
    ensures TxsOps(txs[..j + 1]) == TxsOps(txs[..j]) + TxOps(txs[j])
  {
    if j == 0 {
      assert txs[..1] == [txs[0]];
    } else {
      TxsOpsSnoc(txs[1..], j - 1);
      assert txs[..j + 1][1..] == txs[1..][..j];
      assert txs[..j][1..] == txs[1..][..j - 1];
    }
  }

  lemma ChainOpsSnoc(chain: seq<Block>, j: nat)
    requires j < |chain|
    ensures ChainOps(chain[..j + 1]) == ChainOps(chain[..j]) + TxsOps(chain[j].transactions)
  {
    assert chain[..j + 1][..j] == chain[..j];
  }

  // ---------- applying operations to the marked set ----------

  function Apply(utxos: UtxoSet, op: Op): UtxoSet {
    match op
    case Spend(h) => utxos - {h}
    case Create(o) => utxos[HashOutput(o) := Utxo(false, o)]
  }

  /** `utxos` after the operations, in order. */
  function Rebuilt(utxos: UtxoSet, ops: seq<Op>): UtxoSet
    decreases |ops|
  {
    if ops == [] then utxos else Rebuilt(Apply(utxos, ops[0]), ops[1..])
  }

  lemma {:induction false} RebuiltConcat(utxos: UtxoSet, a: seq<Op>, b: seq<Op>)
    ensures Rebuilt(utxos, a + b) == Rebuilt(Rebuilt(utxos, a), b)
    decreases |a|
  {
    if a == [] {
      assert a + b == b;
    } else {
      assert (a + b)[1..] == a[1..] + b;
      RebuiltConcat(Apply(utxos, a[0]), a[1..], b);
    }
  }

  lemma RebuiltSnoc(utxos: UtxoSet, ops: seq<Op>, i: nat)
    requires i < |ops|
    ensures Rebuilt(utxos, ops[..i + 1]) == Apply(Rebuilt(utxos, ops[..i]), ops[i])
  {
    assert ops[..i + 1] == ops[..i] + [ops[i]];
    RebuiltConcat(utxos, ops[..i], [ops[i]]);
  }

  function KeyOf(op: Op): Hash {
    match op
    case Spend(h) => h
    case Create(o) => HashOutput(o)
  }

  ghost predicate Touches(ops: seq<Op>, key: Hash) {
    exists i :: 0 <= i < |ops| && KeyOf(ops[i]) == key
  }

  ghost predicate Agree(a: UtxoSet, b: UtxoSet, key: Hash) {
    (key in a <==> key in b) && (key in a ==> a[key] == b[key])
  }

  /** What the operations leave at a key they touch does not depend on where they started. */
  lemma {:induction false} AgreeAfter(a: UtxoSet, b: UtxoSet, ops: seq<Op>, key: Hash)
    requires Agree(a, b, key) || Touches(ops, key)
    ensures Agree(Rebuilt(a, ops), Rebuilt(b, ops), key)
    decreases |ops|
  {
    if ops != [] {
      if KeyOf(ops[0]) != key && Touches(ops, key) {
        var i :| 0 <= i < |ops| && KeyOf(ops[i]) == key;
        assert ops[1..][i - 1] == ops[i];
      }
      AgreeAfter(Apply(a, ops[0]), Apply(b, ops[0]), ops[1..], key);
    }
  }

  lemma AgreeEverywhere(a: UtxoSet, b: UtxoSet)
    requires forall key :: Agree(a, b, key)
    ensures a == b
  {
    forall key: Hash
      ensures key in a <==> key in b
      ensures key in a ==> a[key] == b[key]
    {
      assert Agree(a, b, key);
    }
  }

  /** Replaying over a stale set none of whose keys escapes the operations is replaying from
      nothing. */
  lemma RebuildForgets(utxos: UtxoSet, ops: seq<Op>)
    requires forall key :: key in utxos ==> Touches(ops, key)
    ensures Rebuilt(utxos, ops) == Rebuilt(map[], ops)
  {
    forall key: Hash
      ensures Agree(Rebuilt(utxos, ops), Rebuilt(map[], ops), key)
    {
      AgreeAfter(utxos, map[], ops, key);
    }
    AgreeEverywhere(Rebuilt(utxos, ops), Rebuilt(map[], ops));
  }

  // ---------- the set without its marks ----------

  function Plain(utxos: UtxoSet): Outputs {
    map key | key in utxos :: utxos[key].output
  }

  function Unmarked(utxos: UtxoSet): UtxoSet {
    map key | key in utxos :: Utxo(false, utxos[key].output)
  }

  function ApplyPlain(outs: Outputs, op: Op): Outputs {
    match op
    case Spend(h) => outs - {h}
    case Create(o) => outs[HashOutput(o) := o]
  }

  function Applied(outs: Outputs, ops: seq<Op>): Outputs
    decreases |ops|
  {
    if ops == [] then outs else Applied(ApplyPlain(outs, ops[0]), ops[1..])
  }

  /** The outputs the chain leaves unspent, replayed from the empty set. */
  function Unspent(chain: seq<Block>): Outputs {
    Applied(map[], ChainOps(chain))
  }

  lemma {:induction false} PlainRebuilt(utxos: UtxoSet, ops: seq<Op>)
    ensures Plain(Rebuilt(utxos, ops)) == Applied(Plain(utxos), ops)
    decreases |ops|
  {
    if ops != [] {
      assert Plain(Apply(utxos, ops[0])) == ApplyPlain(Plain(utxos), ops[0]);
      PlainRebuilt(Apply(utxos, ops[0]), ops[1..]);
    }
  }

  lemma {:induction false} UnmarkedRebuilt(utxos: UtxoSet, ops: seq<Op>)
    ensures Rebuilt(Unmarked(utxos), ops) == Unmarked(Rebuilt(Unmarked(utxos), ops))
    decreases |ops|
  {
    if ops != [] {
      var next := Apply(Unmarked(utxos), ops[0]);
      assert Unmarked(next) == next;
      UnmarkedRebuilt(next, ops[1..]);
    }
  }

  lemma {:induction false} AppliedConcat(outs: Outputs, a: seq<Op>, b: seq<Op>)
    ensures Applied(outs, a + b) == Applied(Applied(outs, a), b)
    decreases |a|
  {
    if a == [] {
      assert a + b == b;
    } else {
      assert (a + b)[1..] == a[1..] + b;
      AppliedConcat(ApplyPlain(outs, a[0]), a[1..], b);
    }
  }

  lemma UnspentSnoc(chain: seq<Block>, b: Block)
    ensures Unspent(chain + [b]) == Applied(Unspent(chain), TxsOps(b.transactions))
  {
    assert (chain + [b])[..|chain|] == chain;
    AppliedConcat(map[], ChainOps(chain), TxsOps(b.transactions));
  }

  /** Every entry was there at the start or is a created output, under its own hash. */
  lemma {:induction false} EntryOrigin(outs: Outputs, ops: seq<Op>, key: Hash)
    requires key in Applied(outs, ops)
    ensures || (key in outs && Applied(outs, ops)[key] == outs[key] && Spend(key) !in ops)
            || (Create(Applied(outs, ops)[key]) in ops && HashOutput(Applied(outs, ops)[key]) == key)
    decreases |ops|
  {
    if ops != [] {
      EntryOrigin(ApplyPlain(outs, ops[0]), ops[1..], key);
    }
  }

  lemma UnspentKeysTouched(chain: seq<Block>, key: Hash)
    requires key in Unspent(chain)
    ensures Touches(ChainOps(chain), key)
    ensures HashOutput(Unspent(chain)[key]) == key
  {
    EntryOrigin(map[], ChainOps(chain), key);
    var i :| 0 <= i < |ChainOps(chain)| && ChainOps(chain)[i] == Create(Unspent(chain)[key]);
    assert KeyOf(ChainOps(chain)[i]) == key;
  }

  lemma TouchesConcat(a: seq<Op>, b: seq<Op>, key: Hash)
    requires Touches(a, key)
    ensures Touches(a + b, key)
  {
    var i :| 0 <= i < |a| && KeyOf(a[i]) == key;
    assert (a + b)[i] == a[i];
  }

  // ---------- the rebuild, in a state that agrees with the chain or a part of it ----------

  lemma {:induction false} PrefixTouches(chain: seq<Block>, n: nat, key: Hash)
    requires n <= |chain| && Touches(ChainOps(chain[..n]), key)
    ensures Touches(ChainOps(chain), key)
    decreases |chain|
  {
    if n == |chain| {
      assert chain[..n] == chain;
    } else {
      var m := |chain| - 1;
      assert chain[..m][..n] == chain[..n];
      PrefixTouches(chain[..m], n, key);
      TouchesConcat(ChainOps(chain[..m]), TxsOps(chain[m].transactions), key);
    }
  }

  /** Rebuilding over the outputs that some front part of the chain left, marks and all, is replaying
      the whole chain from nothing; no entry stays marked. */
  lemma RebuildCatchesUp(utxos: UtxoSet, known: seq<Block>, chain: seq<Block>)
    requires Plain(utxos) == Unspent(known) && known <= chain
    ensures Rebuilt(utxos, ChainOps(chain)) == Rebuilt(map[], ChainOps(chain))
    ensures Plain(Rebuilt(utxos, ChainOps(chain))) == Unspent(chain)
    ensures Rebuilt(utxos, ChainOps(chain)) == Unmarked(Rebuilt(utxos, ChainOps(chain)))
  {
    var ops := ChainOps(chain);
    forall key | key in utxos
      ensures Touches(ops, key)
    {
      assert key in Plain(utxos);
      UnspentKeysTouched(known, key);
      assert chain[..|known|] == known;
      PrefixTouches(chain, |known|, key);
    }
    RebuildForgets(utxos, ops);
    assert Plain(map[]) == map[] && Unmarked(map[]) == map[];
    PlainRebuilt(map[], ops);
    UnmarkedRebuilt(map[], ops);
  }

  lemma UnmarkedDetermined(a: UtxoSet, b: UtxoSet)
    requires Plain(a) == Plain(b) && a == Unmarked(a)
    ensures a == Unmarked(b)
  {
    forall key: Hash
      ensures Agree(a, Unmarked(b), key)
    {
      assert key in a <==> key in Plain(a);
      assert key in b <==> key in Plain(b);
    }
    AgreeEverywhere(a, Unmarked(b));
  }

  /** Where the set agrees with the chain, the rebuild only clears the marks. */
  lemma RebuildIsReplay(utxos: UtxoSet, chain: seq<Block>)
    requires Plain(utxos) == Unspent(chain)
    ensures Rebuilt(utxos, ChainOps(chain)) == Rebuilt(map[], ChainOps(chain)) == Unmarked(utxos)
    ensures Plain(Rebuilt(utxos, ChainOps(chain))) == Unspent(chain)
  {
    RebuildCatchesUp(utxos, chain, chain);
    UnmarkedDetermined(Rebuilt(utxos, ChainOps(chain)), utxos);
  }

  /** After a block is appended, rebuilding over the stale set equals replaying the whole chain
      from nothing, which equals applying the new block alone to the unmarked old set. */
  lemma RebuildAfterAppend(utxos: UtxoSet, chain: seq<Block>, b: Block)
    requires Plain(utxos) == Unspent(chain)
    ensures var ops := ChainOps(chain + [b]);
            && Rebuilt(utxos, ops) == Rebuilt(map[], ops)
            && Rebuilt(utxos, ops) == Rebuilt(Unmarked(utxos), TxsOps(b.transactions))
            && Plain(Rebuilt(utxos, ops)) == Unspent(chain + [b])
            && Rebuilt(utxos, ops) == Unmarked(Rebuilt(utxos, ops))
            && Rebuilt(Rebuilt(utxos, ops), ops) == Rebuilt(utxos, ops)
  {
    var before, added, ops := ChainOps(chain), TxsOps(b.transactions), ChainOps(chain + [b]);
    assert (chain + [b])[..|chain|] == chain;
    RebuildIsReplay(utxos, chain);
    RebuiltConcat(utxos, before, added);
    RebuildCatchesUp(utxos, chain, chain + [b]);
    RebuildIsReplay(Rebuilt(utxos, ops), chain + [b]);
  }

  // ---------- what one transaction does to the unspent outputs ----------

  lemma {:induction false} SpendsEffect(outs: Outputs, inputs: seq<TxInput>, h: Hash)
    ensures var after := Applied(outs, SpendOps(inputs));
            && (h in after <==> h in outs && forall i :: 0 <= i < |inputs| ==> inputs[i].prevTxOutputHash != h)
            && (h in after ==> after[h] == outs[h])
    decreases |inputs|
  {
    if inputs != [] {
      assert SpendOps(inputs)[1..] == SpendOps(inputs[1..]);
      SpendsEffect(outs - {inputs[0].prevTxOutputHash}, inputs[1..], h);
      assert forall i :: 1 <= i < |inputs| ==> inputs[i] == inputs[1..][i - 1];
    }
  }

  /** None of the outputs from the k-th on has the hash. */
  ghost predicate NoneFrom(outputs: seq<TxOutput>, k: nat, h: Hash) {
    forall i :: k <= i < |outputs| ==> HashOutput(outputs[i]) != h
  }

  lemma {:induction false} CreatesNot(outs: Outputs, outputs: seq<TxOutput>, h: Hash)
    requires NoneFrom(outputs, 0, h)
    ensures var after := Applied(outs, CreateOps(outputs));
            (h in after <==> h in outs) && (h in after ==> after[h] == outs[h])
    decreases |outputs|
  {
    if outputs != [] {
      assert CreateOps(outputs)[1..] == CreateOps(outputs[1..]);
      CreatesNot(outs[HashOutput(outputs[0]) := outputs[0]], outputs[1..], h);
    }
  }

  lemma {:induction false} CreatesLast(outs: Outputs, outputs: seq<TxOutput>, h: Hash, k: nat)
    requires k < |outputs| && HashOutput(outputs[k]) == h && NoneFrom(outputs, k + 1, h)
    ensures var after := Applied(outs, CreateOps(outputs)); h in after && after[h] == outputs[k]
    decreases k
  {
    assert CreateOps(outputs)[1..] == CreateOps(outputs[1..]);
    var next := outs[HashOutput(outputs[0]) := outputs[0]];
    if k == 0 {
      CreatesNot(next, outputs[1..], h);
    } else {
      CreatesLast(next, outputs[1..], h, k - 1);
    }
  }

  /** A transaction appended to the newest block first takes away the outputs it spends and then puts in
      its own, later ones over earlier ones: a hash is left with its last such output if there is one,
      with none if it is spent, and as it was otherwise.  With `UnspentEmpty` this fixes the unspent
      outputs of every chain. */
  lemma UnspentStep(chain: seq<Block>, header: BlockHeader, txs: seq<Tx>, tx: Tx, h: Hash, k: nat)
    ensures var before := Unspent(chain + [Block(header, txs)]);
            var after := Unspent(chain + [Block(header, txs + [tx])]);
            && (k < |tx.outputs| && HashOutput(tx.outputs[k]) == h && NoneFrom(tx.outputs, k + 1, h) ==>
                  h in after && after[h] == tx.outputs[k])
            && (NoneFrom(tx.outputs, 0, h) ==>
                  && (h in after <==>
                        h in before && forall i :: 0 <= i < |tx.inputs| ==> tx.inputs[i].prevTxOutputHash != h)
                  && (h in after ==> after[h] == before[h]))
  {
    var before := Unspent(chain + [Block(header, txs)]);
    var spent := Applied(before, SpendOps(tx.inputs));
    UnspentTxSnoc(chain, header, txs, tx);
    SpendsEffect(before, tx.inputs, h);
    if k < |tx.outputs| && HashOutput(tx.outputs[k]) == h && NoneFrom(tx.outputs, k + 1, h) {
      CreatesLast(spent, tx.outputs, h, k);
    }
    if NoneFrom(tx.outputs, 0, h) {
      CreatesNot(spent, tx.outputs, h);
    }
  }

  lemma TxsOpsAppend(txs: seq<Tx>, tx: Tx)
    ensures TxsOps(txs + [tx]) == TxsOps(txs) + TxOps(tx)
  {
    var longer := txs + [tx];
    assert longer[..|txs| + 1] == longer && longer[..|txs|] == txs;
    TxsOpsSnoc(longer, |txs|);
  }

  lemma AppliedTxSnoc(outs: Outputs, txs: seq<Tx>, tx: Tx)
    ensures Applied(outs, TxsOps(txs + [tx]))
         == Applied(Applied(Applied(outs, TxsOps(txs)), SpendOps(tx.inputs)), CreateOps(tx.outputs))
  {
    TxsOpsAppend(txs, tx);
    AppliedConcat(outs, TxsOps(txs), TxOps(tx));
    AppliedConcat(Applied(outs, TxsOps(txs)), SpendOps(tx.inputs), CreateOps(tx.outputs));
  }

  lemma UnspentTxSnoc(chain: seq<Block>, header: BlockHeader, txs: seq<Tx>, tx: Tx)
    ensures Unspent(chain + [Block(header, txs + [tx])])
         == Applied(Applied(Unspent(chain + [Block(header, txs)]), SpendOps(tx.inputs)), CreateOps(tx.outputs))
  {
    UnspentSnoc(chain, Block(header, txs));
    UnspentSnoc(chain, Block(header, txs + [tx]));
    AppliedTxSnoc(Unspent(chain), txs, tx);
  }

  /** An empty block changes nothing, and nothing is unspent at the start. */
  lemma UnspentEmpty(chain: seq<Block>, header: BlockHeader)
    ensures Unspent([]) == map[]
    ensures Unspent(chain + [Block(header, [])]) == Unspent(chain)
  {
    UnspentSnoc(chain, Block(header, []));
  }
}
