/** No output is spent more often than it was created, over the whole history of a chain. */
module SpendSafety {
  import opened Types
  import opened BlockRules
  import opened Replay
  import opened Chain
  import opened Supply

  /** All hashes the chain spends, in order. */
  function ChainSpends(chain: seq<Block>): seq<Hash> {
    if chain == [] then [] else ChainSpends(Init(chain)) + Spends(Last(chain).transactions)
  }

  function TimesSpent(chain: seq<Block>, h: Hash): nat {
    multiset(ChainSpends(chain))[h]
  }

  function TimesCreated(chain: seq<Block>, h: Hash): nat {
    multiset(HashesOf(ChainCreates(chain)))[h]
  }

  lemma {:induction false} DistinctCount(s: seq<Hash>, h: Hash)
    requires Distinct(s)
    ensures multiset(s)[h] == if h in s then 1 else 0
    decreases |s|
  {
    if s != [] {
      var last := |s| - 1;
      DistinctCount(s[..last], h);
      assert s == s[..last] + [s[last]];
    }
  }

  lemma {:induction false} SpendInOps(ops: seq<Op>, h: Hash)
    requires h in OpSpends(ops)
    ensures Spend(h) in ops
  {
    if Spend(h) != ops[0] {
      SpendInOps(ops[1..], h);
    }
  }

  /** A key left by a block's transactions was there before and is not spent by them, or they create
      it. */
  lemma LeftByBlock(outs: Outputs, txs: seq<Tx>, h: Hash)
    requires h in Applied(outs, TxsOps(txs))
    ensures (h in outs && h !in Spends(txs)) || h in HashesOf(Creates(txs))
  {
    EntryOrigin(outs, TxsOps(txs), h);
    OpsOfTxs(txs);
    var o := Applied(outs, TxsOps(txs))[h];
    if Create(o) in TxsOps(txs) && HashOutput(o) == h {
      CreateInOps(TxsOps(txs), o);
      var i :| 0 <= i < |Creates(txs)| && Creates(txs)[i] == o;
      assert HashesOf(Creates(txs))[i] == h;
    } else if h in Spends(txs) {
      SpendInOps(TxsOps(txs), h);
    }
  }

  lemma CountConcat(a: seq<Hash>, b: seq<Hash>, h: Hash)
    ensures multiset(a + b)[h] == multiset(a)[h] + multiset(b)[h]
  {
  }

  lemma HashesOfConcat(a: seq<TxOutput>, b: seq<TxOutput>)
    ensures HashesOf(a + b) == HashesOf(a) + HashesOf(b)
  {
  }

  lemma CountsStep(chain: seq<Block>, h: Hash)
    requires chain != []
    ensures TimesSpent(chain, h) == TimesSpent(Init(chain), h) + multiset(Spends(Last(chain).transactions))[h]
    ensures TimesCreated(chain, h)
            == TimesCreated(Init(chain), h) + multiset(HashesOf(Creates(Last(chain).transactions)))[h]
  {
    var before, added := ChainCreates(Init(chain)), Creates(Last(chain).transactions);
    CountConcat(ChainSpends(Init(chain)), Spends(Last(chain).transactions), h);
    CountConcat(HashesOf(before), HashesOf(added), h);
    HashesOfConcat(before, added);
  }

  /** An accepted block spends a hash at most once, and only one that is unspent before it. */
  lemma BlockSpendsOnce(chain: seq<Block>, b: Block, h: Hash)
    requires ValidChain(chain) && Extends(chain, b)
    ensures multiset(Spends(b.transactions))[h] <= if h in Unspent(chain) then 1 else 0
    ensures h in Spends(b.transactions) <==> multiset(Spends(b.transactions))[h] == 1
  {
    ExtendsMeans(chain, b);
    var txs := b.transactions;
    SpendsAvailable(txs[1..], Unspent(chain));
    assert Spends(txs) == Spends(txs[1..]);
    DistinctCount(Spends(txs), h);
  }

  /** What is unspent after an accepted block was left alone by it or is created in it. */
  lemma UnspentAfter(chain: seq<Block>, b: Block, h: Hash)
    ensures h in Unspent(chain + [b]) ==>
              || (h in Unspent(chain) && h !in Spends(b.transactions))
              || multiset(HashesOf(Creates(b.transactions)))[h] >= 1
  {
    UnspentSnoc(chain, b);
    if h in Unspent(chain + [b]) {
      LeftByBlock(Unspent(chain), b.transactions, h);
    }
  }

  /** The hash is spent at most as often as it is created, once less while it is unspent. */
  ghost predicate Covered(chain: seq<Block>, h: Hash) {
    TimesSpent(chain, h) + (if h in Unspent(chain) then 1 else 0) <= TimesCreated(chain, h)
  }

  lemma CoveredStep(chain: seq<Block>, b: Block, h: Hash)
    requires ValidChain(chain) && Extends(chain, b) && Covered(chain, h)
    ensures Covered(chain + [b], h)
    ensures TimesSpent(chain + [b], h) <= TimesCreated(chain, h)
  {
    InitLastSnoc(chain, b);
    CountsStep(chain + [b], h);
    BlockSpendsOnce(chain, b, h);
    UnspentAfter(chain, b, h);
  }

  lemma {:induction false} AllCovered(chain: seq<Block>, h: Hash)
    requires ValidChain(chain)
    ensures Covered(chain, h)
    decreases |chain|
  {
    if chain != [] {
      AllCovered(Init(chain), h);
      CoveredStep(Init(chain), Last(chain), h);
      assert chain == Init(chain) + [Last(chain)];
    }
  }

  lemma CoveredBefore(chain: seq<Block>, h: Hash)
    requires ValidChain(chain) && chain != []
    ensures TimesSpent(chain, h) <= TimesCreated(Init(chain), h)
  {
    AllCovered(Init(chain), h);
    CountsStep(chain, h);
    BlockSpendsOnce(Init(chain), Last(chain), h);
  }

  /** Each output hash is spent at most as often as it is created, once less while it is still
      unspent; and the creations that cover the spends lie in blocks before the last one. */
  lemma SpendsCoveredByEarlierCreations(chain: seq<Block>, h: Hash)
    requires ValidChain(chain)
    ensures TimesSpent(chain, h) + (if h in Unspent(chain) then 1 else 0) <= TimesCreated(chain, h)
    ensures chain != [] ==> TimesSpent(chain, h) <= TimesCreated(Init(chain), h)
  {
    AllCovered(chain, h);
    if chain != [] {
      CoveredBefore(chain, h);
    }
  }

  /** When no hash is created twice, nothing is ever spent twice. */
  lemma SpentAtMostOnce(chain: seq<Block>, h: Hash)
    requires ValidChain(chain) && AllHashesDistinct(chain)
    ensures TimesSpent(chain, h) <= 1
    ensures h in Unspent(chain) ==> TimesSpent(chain, h) == 0
  {
    SpendsCoveredByEarlierCreations(chain, h);
    DistinctCount(HashesOf(ChainCreates(chain)), h);
  }

  lemma CreatedInPrefix(known: seq<Block>, chain: seq<Block>, h: Hash) returns (o: TxOutput)
    requires h in Unspent(known)
    requires known == chain || (chain != [] && known == Init(chain))
    ensures o == Unspent(known)[h] && HashOutput(o) == h
    ensures o in ChainCreates(chain)
  {
    o := Unspent(known)[h];
    EntryOrigin(map[], ChainOps(known), h);
    OpsOfChain(known);
    CreateInOps(ChainOps(known), o);
  }

  lemma SpendIsSigned(txs: seq<Tx>, height: nat, outs: Outputs, t: nat, k: nat)
    requires CheckTransactions(txs, height, outs) == Pass
    requires t < |txs| && k < |txs[t].inputs|
    ensures var input := txs[t].inputs[k];
            && input.prevTxOutputHash in outs
            && Verify(input.signature, input.prevTxOutputHash, outs[input.prevTxOutputHash].pubkey)
  {
    PassMeans(txs, height, outs);
    assert txs[1..][t - 1] == txs[t] && Balanced(txs[t], outs);
  }

  /** Every input of every accepted block, even of one checked against a stale set, spends an output
      that a strictly earlier block created, with a signature that verifies under that output's key. */
  lemma EverySpendIsSigned(chain: seq<Block>, j: nat, t: nat, k: nat) returns (o: TxOutput)
    requires AcceptedChain(chain)
    requires j < |chain| && t < |chain[j].transactions| && k < |chain[j].transactions[t].inputs|
    ensures o in ChainCreates(chain[..j])
    ensures var input := chain[j].transactions[t].inputs[k];
            HashOutput(o) == input.prevTxOutputHash && Verify(input.signature, input.prevTxOutputHash, o.pubkey)
  {
    AcceptedPrefix(chain, j);
    var known := AcceptedHeader(chain[..j], chain[j]);
    SpendIsSigned(chain[j].transactions, |chain[..j]|, Unspent(known), t, k);
    o := CreatedInPrefix(known, chain[..j], chain[j].transactions[t].inputs[k].prevTxOutputHash);
  }
}
