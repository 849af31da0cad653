/** What a faulting block leads to: the UTXO set stays one block behind until the next block, which
    may spend again what the faulting one spent.  Over whole chains: exactly when that happens, and
    how much money it mints. */
module Respending {
  import opened Types
  import opened BlockRules
  import opened Replay
  import opened Chain
  import opened Mempool
  import opened Ledger
  import opened Node
  import opened PoolConsistency
  import opened Supply
  import opened SpendSafety
  import Difficulty
  import Marks
  import Panics

  // ---------- what a verdict depends on ----------

  /** The two sets hold the same output at each of the hashes. */
  ghost predicate SameAt(hs: seq<Hash>, x: Outputs, y: Outputs) {
    forall i :: 0 <= i < |hs| ==> hs[i] in x && hs[i] in y && x[hs[i]] == y[hs[i]]
  }

  lemma SameAtParts(a: seq<Hash>, b: seq<Hash>, x: Outputs, y: Outputs)
    requires SameAt(a + b, x, y)
    ensures SameAt(a, x, y) && SameAt(b, x, y)
  {
    forall i | 0 <= i < |a|
      ensures a[i] in x && a[i] in y && x[a[i]] == y[a[i]]
    {
      assert (a + b)[i] == a[i];
    }
    forall i | 0 <= i < |b|
      ensures b[i] in x && b[i] in y && x[b[i]] == y[b[i]]
    {
      assert (a + b)[|a| + i] == b[i];
    }
  }

  lemma {:induction false} ScanInputsSame(inputs: seq<TxInput>, x: Outputs, y: Outputs, spent: set<Hash>, amount: nat)
    requires SameAt(SpendsOfInputs(inputs), x, y)
    ensures ScanInputs(inputs, x, spent, amount) == ScanInputs(inputs, y, spent, amount)
    decreases |inputs|
  {
    if inputs != [] {
      var h, rest := inputs[0].prevTxOutputHash, SpendsOfInputs(inputs[1..]);
      assert SpendsOfInputs(inputs)[0] == h;
      assert SpendsOfInputs(inputs) == [h] + rest;
      SameAtParts([h], rest, x, y);
      ScanInputsSame(inputs[1..], x, y, spent + {h}, amount + x[h].amount);
    }
  }

  lemma {:induction false} ScanTxsSame(txs: seq<Tx>, x: Outputs, y: Outputs, spent: set<Hash>, fees: nat)
    requires SameAt(Spends(txs), x, y)
    ensures ScanTxs(txs, x, spent, fees) == ScanTxs(txs, y, spent, fees)
    decreases |txs|
  {
    if txs != [] {
      SameAtParts(SpendsOfInputs(txs[0].inputs), Spends(txs[1..]), x, y);
      ScanInputsSame(txs[0].inputs, x, y, spent, 0);
      var scan, paid := ScanInputs(txs[0].inputs, x, spent, 0), SumOutputs(txs[0].outputs);
      if scan.Success? && paid <= scan.value.amount {
        ScanTxsSame(txs[1..], x, y, scan.value.spent, fees + (scan.value.amount - paid));
      }
    }
  }

  lemma VerdictSame(txs: seq<Tx>, height: nat, x: Outputs, y: Outputs)
    requires SameAt(Spends(txs), x, y)
    ensures CheckTransactions(txs, height, x) == CheckTransactions(txs, height, y)
  {
    if txs != [] {
      SameAtParts(SpendsOfInputs(txs[0].inputs), Spends(txs[1..]), x, y);
      ScanTxsSame(txs[1..], x, y, {}, 0);
    }
  }

  lemma PassedSpends(txs: seq<Tx>, height: nat, outs: Outputs)
    requires CheckTransactions(txs, height, outs) == Pass
    ensures AllIn(Spends(txs), outs) && Distinct(Spends(txs))
  {
    PassMeans(txs, height, outs);
    SpendsAvailable(txs[1..], outs);
    assert Spends(txs) == Spends(txs[1..]);
  }

  /** An output unspent on two chains is the same output. */
  lemma UnspentSame(x: seq<Block>, y: seq<Block>, hs: seq<Hash>)
    requires OutputHashInjective()
    requires AllIn(hs, Unspent(x)) && AllIn(hs, Unspent(y))
    ensures SameAt(hs, Unspent(x), Unspent(y))
  {
    forall i | 0 <= i < |hs|
      ensures Unspent(x)[hs[i]] == Unspent(y)[hs[i]]
    {
      UnspentKeysTouched(x, hs[i]);
      UnspentKeysTouched(y, hs[i]);
    }
  }

  /** A block that passes over what one chain leaves unspent passes over what another leaves exactly if
      everything it spends is there too. */
  lemma VerdictsAgree(chain: seq<Block>, x: seq<Block>, y: seq<Block>, c: Block)
    requires OutputHashInjective()
    requires PassesOver(chain, x, c)
    ensures PassesOver(chain, y, c) <==> AllIn(Spends(c.transactions), Unspent(y))
  {
    PassesOverExactly(chain, x, c);
    PassesOverExactly(chain, y, c);
    PassedSpends(c.transactions, |chain|, Unspent(x));
    if PassesOver(chain, y, c) {
      PassedSpends(c.transactions, |chain|, Unspent(y));
    }
    if AllIn(Spends(c.transactions), Unspent(y)) {
      UnspentSame(x, y, Spends(c.transactions));
      VerdictSame(c.transactions, |chain|, Unspent(x), Unspent(y));
    }
  }

  // ---------- one block later ----------

  /** The block spends nothing that it also creates, as two equal outputs would have it do. */
  ghost predicate CreatesNothingItSpends(b: Block) {
    forall h :: h in Spends(b.transactions) ==> h !in HashesOf(Creates(b.transactions))
  }

  ghost predicate Disjoint(a: Block, b: Block) {
    forall h :: h in Spends(a.transactions) ==> h !in Spends(b.transactions)
  }

  /** What is unspent before a block is unspent after it exactly if the block does not spend it. */
  lemma UnspentUnlessSpent(chain: seq<Block>, b: Block, h: Hash)
    requires OutputHashInjective()
    requires h in Unspent(chain) && CreatesNothingItSpends(b)
    ensures h in Unspent(chain + [b]) <==> h !in Spends(b.transactions)
  {
    UnspentSnoc(chain, b);
    UnspentKeysTouched(chain, h);
    if h in Spends(b.transactions) {
      SpentIsGone(Unspent(chain), b.transactions, h);
    } else {
      OpsOfTxs(b.transactions);
      EntryKept(Unspent(chain), TxsOps(b.transactions), h);
    }
  }

  lemma KeptIfNotSpent(chain: seq<Block>, b: Block, hs: seq<Hash>)
    requires OutputHashInjective()
    requires AllIn(hs, Unspent(chain)) && CreatesNothingItSpends(b)
    ensures AllIn(hs, Unspent(chain + [b])) <==> forall i :: 0 <= i < |hs| ==> hs[i] !in Spends(b.transactions)
  {
    forall i | 0 <= i < |hs|
      ensures hs[i] in Unspent(chain + [b]) <==> hs[i] !in Spends(b.transactions)
    {
      UnspentUnlessSpent(chain, b, hs[i]);
    }
  }

  lemma DisjointByIndex(a: Block, b: Block)
    ensures Disjoint(a, b) <==>
              forall i :: 0 <= i < |Spends(a.transactions)| ==> Spends(a.transactions)[i] !in Spends(b.transactions)
  {
    var hs := Spends(a.transactions);
    if !Disjoint(a, b) {
      var h :| h in hs && h in Spends(b.transactions);
      var i :| 0 <= i < |hs| && hs[i] == h;
    }
  }

  /** A block that passes over a set one block behind extends the chain exactly if it spends nothing
      that the missing block spent. */
  lemma StaleVerdictExactly(chain: seq<Block>, b: Block, c: Block)
    requires OutputHashInjective() && CreatesNothingItSpends(b)
    requires PassesOver(chain + [b], chain, c)
    ensures Extends(chain + [b], c) <==> Disjoint(c, b)
  {
    PassesOverExactly(chain + [b], chain, c);
    PassedSpends(c.transactions, |chain + [b]|, Unspent(chain));
    VerdictsAgree(chain + [b], chain, chain + [b], c);
    KeptIfNotSpent(chain, b, Spends(c.transactions));
    DisjointByIndex(c, b);
  }

  /** An output that both blocks spend is spent twice more. */
  lemma SpentTwiceMore(chain: seq<Block>, b: Block, c: Block, h: Hash)
    requires h in Spends(b.transactions) && h in Spends(c.transactions)
    ensures TimesSpent(chain + [b] + [c], h) >= TimesSpent(chain, h) + 2
  {
    InitLastSnoc(chain, b);
    InitLastSnoc(chain + [b], c);
    CountsStep(chain + [b], h);
    CountsStep(chain + [b] + [c], h);
  }

  // ---------- after a fault ----------

  /** What a fault leaves: the block is in the chain and extends it, the target and the UTXO set, with
      its marks, are as before, and the block's transactions are out of the pool.  The marks still refer
      to pooled transactions exactly if each marked input of an entry the block takes out is also an
      input of an entry that stays. */
  lemma StateAfterFault(s: State, b: Block)
    requires Tracked(s) && Faults(s, b)
    ensures var f := Submitted(s, b).state;
            && f == State(s.blocks + [b], s.utxos, s.target, WithoutHashes(s.mempool, TxHashes(b.transactions)))
            && UpToDate(s) && Extends(s.blocks, b) && Tracked(f) && OneBehind(f)
            && (ValidChain(f.blocks) <==> ValidChain(s.blocks))
            && (MarksReferred(s.utxos, s.mempool) ==>
                  (MarksReferred(f.utxos, f.mempool) <==>
                     forall p, h :: Marks.TakenOut(p, s, b) && Refers(p, h) && IsMarked(s.utxos, h) ==>
                                      Referred(f.mempool, h)))
  {
    Panics.FaultsIffRetargetPanics(s, b);
    Marks.FaultLeaves(s, b);
    ExtendsIffPass(s.blocks, b);
    ValidSnoc(s.blocks, b);
    ReceiveTracked(s, b);
    InitLastSnoc(s.blocks, b);
    if MarksReferred(s.utxos, s.mempool) {
      Marks.MarksAfterFaultIff(s, b);
    }
  }

  /** The first block to pass after a fault is checked against the set one block behind, cannot fault
      itself, and brings the set up to date.  A block that extends the chain is refused exactly if it
      spends what only the faulting block created; a block that is taken leaves a valid chain valid
      exactly if it extends it, which is to say if it spends nothing the faulting block spent. */
  lemma NextAfterFault(s: State, b: Block, c: Block)
    requires OutputHashInjective()
    requires Tracked(s) && Faults(s, b)
    ensures var f := Submitted(s, b).state;
            var r := Submitted(f, c);
            && (r.outcome == Pass <==> PassesOver(f.blocks, s.blocks, c))
            && (r.outcome != Pass ==> r.state == f)
            && (Extends(f.blocks, c) ==> (r.outcome == Pass <==> AllIn(Spends(c.transactions), Unspent(s.blocks))))
            && (r.outcome == Pass ==>
                  && r.state.blocks == s.blocks + [b] + [c] && UpToDate(r.state)
                  && (Sound(r.state) <==> ValidChain(s.blocks) && Extends(f.blocks, c))
                  && (CreatesNothingItSpends(b) ==> (Sound(r.state) <==> ValidChain(s.blocks) && Disjoint(c, b)))
                  && forall h :: h in Spends(b.transactions) && h in Spends(c.transactions) ==>
                       TimesSpent(r.state.blocks, h) >= TimesSpent(s.blocks, h) + 2)
  {
    StateAfterFault(s, b);
    var f := Submitted(s, b).state;
    NextTaken(f, c);
    InitLastSnoc(s.blocks, b);
    PassesOverIffPass(f.blocks, s.blocks, c);
    if Extends(f.blocks, c) {
      VerdictsAgree(f.blocks, f.blocks, s.blocks, c);
    }
    if Submitted(f, c).outcome == Pass {
      ValidSnoc(f.blocks, c);
      if CreatesNothingItSpends(b) {
        StaleVerdictExactly(s.blocks, b, c);
      }
      forall h | h in Spends(b.transactions) && h in Spends(c.transactions)
        ensures TimesSpent(s.blocks + [b] + [c], h) >= TimesSpent(s.blocks, h) + 2
      {
        SpentTwiceMore(s.blocks, b, c, h);
      }
    }
  }

  lemma OneHeightHigher(txs: seq<Tx>, height: nat, outs: Outputs)
    requires CheckTransactions(txs, height, outs) == Pass
    requires height + 1 < FINAL_HEIGHT && Subsidy(height + 1) == Subsidy(height)
    ensures CheckTransactions(txs, height + 1, outs) == Pass
  {
    CheckTransactionsExact(txs, height, outs);
    CheckTransactionsExact(txs, height + 1, outs);
  }

  /** It gets through: a header that fits on the faulting block, over the very same transactions, makes
      a block that is taken, as long as the subsidy stays the same.  Everything the faulting block spent
      is then spent a second time, and the chain is not valid. */
  lemma RespendIsTaken(s: State, b: Block, c: Block)
    requires Tracked(s) && Faults(s, b)
    requires HeaderFits(s.blocks + [b], c) && c.transactions == b.transactions
    requires |s.blocks| + 1 < FINAL_HEIGHT && Subsidy(|s.blocks| + 1) == Subsidy(|s.blocks|)
    ensures var r := Submitted(Submitted(s, b).state, c);
            && r.outcome == Pass && r.state.blocks == s.blocks + [b] + [c]
            && (forall h :: h in Spends(b.transactions) ==>
                  TimesSpent(r.state.blocks, h) >= TimesSpent(s.blocks, h) + 2)
            && (CreatesNothingItSpends(b) && Spends(b.transactions) != [] ==> !ValidChain(r.state.blocks))
  {
    StateAfterFault(s, b);
    var f := Submitted(s, b).state;
    ExtendsHeader(s.blocks, b);
    OneHeightHigher(b.transactions, |s.blocks|, Unspent(s.blocks));
    PassesOverExactly(f.blocks, s.blocks, c);
    PassesOverIffPass(f.blocks, s.blocks, c);
    NextTaken(f, c);
    InitLastSnoc(s.blocks, b);
    forall h | h in Spends(b.transactions)
      ensures TimesSpent(s.blocks + [b] + [c], h) >= TimesSpent(s.blocks, h) + 2
    {
      SpentTwiceMore(s.blocks, b, c, h);
    }
    if CreatesNothingItSpends(b) && Spends(b.transactions) != [] {
      RespentNotValid(f.blocks, c);
    }
  }

  lemma RespentNotValid(chain: seq<Block>, c: Block)
    requires chain != [] && CreatesNothingItSpends(Last(chain))
    requires c.transactions == Last(chain).transactions && Spends(c.transactions) != []
    ensures !ValidChain(chain + [c])
  {
    ValidSnoc(chain, c);
    assert Spends(c.transactions)[0] in Spends(c.transactions);
    if Extends(chain, c) {
      ExtendsDisjoint(chain, c);
    }
  }

  lemma NextTaken(f: State, c: Block)
    requires Tracked(f) && OneBehind(f)
    ensures var r := Submitted(f, c);
            && (r.outcome == Pass <==> CheckBlock(f.blocks, Plain(f.utxos), c) == Pass)
            && (r.outcome != Pass ==> r.state == f)
            && (r.outcome == Pass ==> r.state.blocks == f.blocks + [c] && UpToDate(r.state)
                                      && r.state.target <= Difficulty.MIN_TARGET)
  {
    Panics.FaultsIffRetargetPanics(f, c);
    FaultsMeans(f, c);
    NoRetargetTwiceInARow(f.blocks, c);
    ReceiveTracked(f, c);
    if CheckBlock(f.blocks, Plain(f.utxos), c) == Pass {
      PushedWhenChecked(f, c);
      RebuiltTracked(f, [c]);
    }
  }

  // ---------- over a whole chain ----------

  /** Right behind a retarget height, no block spends what the block before it spent. */
  ghost predicate NothingRespent(chain: seq<Block>) {
    forall i :: 0 < i < |chain| && i % DIFFICULTY_UPDATE_INTERVAL == 0 ==> Disjoint(chain[i], chain[i - 1])
  }

  ghost predicate AllCreateNothingTheySpend(chain: seq<Block>) {
    forall i :: 0 <= i < |chain| ==> CreatesNothingItSpends(chain[i])
  }

  lemma NothingRespentSnoc(chain: seq<Block>)
    requires chain != []
    ensures NothingRespent(chain) <==>
              && NothingRespent(Init(chain))
              && (Difficulty.AtRetarget(Init(chain)) ==> Disjoint(Last(chain), Last(Init(chain))))
  {
    var n := |chain| - 1;
    if NothingRespent(Init(chain)) {
      forall i | 0 < i < n && i % DIFFICULTY_UPDATE_INTERVAL == 0
        ensures Disjoint(chain[i], chain[i - 1])
      {
        assert Disjoint(Init(chain)[i], Init(chain)[i - 1]);
      }
    }
    if NothingRespent(chain) && Difficulty.AtRetarget(Init(chain)) {
      assert Disjoint(chain[n], chain[n - 1]);
    }
  }

  lemma KeptIfDisjoint(chain: seq<Block>, b: Block, hs: seq<Hash>)
    requires OutputHashInjective()
    requires AllIn(hs, Unspent(chain)) && forall h :: h in hs ==> h !in Spends(b.transactions)
    ensures AllIn(hs, Unspent(chain + [b]))
  {
    UnspentSnoc(chain, b);
    OpsOfTxs(b.transactions);
    forall i | 0 <= i < |hs|
      ensures hs[i] in Unspent(chain + [b])
    {
      UnspentKeysTouched(chain, hs[i]);
      EntryKept(Unspent(chain), TxsOps(b.transactions), hs[i]);
    }
  }

  /** An accepted block extends the chain if it respects the last block's spends. */
  lemma AcceptedExtends(chain: seq<Block>, c: Block)
    requires OutputHashInjective()
    requires Accepted(chain, c)
    requires Difficulty.AtRetarget(chain) ==> Disjoint(c, Last(chain))
    ensures Extends(chain, c)
  {
    var known := AcceptedHeader(chain, c);
    if known != chain {
      assert chain == known + [Last(chain)];
      PassedSpends(c.transactions, |chain|, Unspent(known));
      KeptIfDisjoint(known, Last(chain), Spends(c.transactions));
      VerdictsAgree(chain, known, chain, c);
    }
  }

  lemma ExtendsDisjoint(chain: seq<Block>, c: Block)
    requires chain != [] && Extends(chain, c) && CreatesNothingItSpends(Last(chain))
    ensures Disjoint(c, Last(chain))
  {
    var before, b := Init(chain), Last(chain);
    assert chain == before + [b];
    UnspentSnoc(before, b);
    ExtendsHeader(chain, c);
    PassedSpends(c.transactions, |chain|, Unspent(chain));
    forall h | h in Spends(c.transactions)
      ensures h !in Spends(b.transactions)
    {
      if h in Spends(b.transactions) {
        SpentIsGone(Unspent(before), b.transactions, h);
      }
    }
  }

  /** A chain of accepted blocks is valid exactly if nothing was respent. */
  lemma {:induction false} ValidIffNothingRespent(chain: seq<Block>)
    requires OutputHashInjective() && AcceptedChain(chain)
    ensures NothingRespent(chain) ==> ValidChain(chain)
    ensures ValidChain(chain) && AllCreateNothingTheySpend(chain) ==> NothingRespent(chain)
    decreases |chain|
  {
    if chain != [] {
      var before := Init(chain);
      ValidIffNothingRespent(before);
      NothingRespentSnoc(chain);
      if NothingRespent(chain) {
        AcceptedExtends(before, Last(chain));
      }
      if ValidChain(chain) && AllCreateNothingTheySpend(chain) {
        forall i | 0 <= i < |before|
          ensures CreatesNothingItSpends(before[i])
        {
          assert before[i] == chain[i];
        }
        if before != [] {
          assert Last(before) == chain[|chain| - 2];
          ExtendsDisjoint(before, Last(chain));
        }
      }
    }
  }

  // ---------- the hashes of a chain ----------

  lemma {:induction false} PrefixCreates(chain: seq<Block>, n: nat, h: Hash)
    requires n <= |chain| && h in SetOf(HashesOf(ChainCreates(chain[..n])))
    ensures h in SetOf(HashesOf(ChainCreates(chain)))
    decreases |chain|
  {
    if n == |chain| {
      assert chain[..n] == chain;
    } else {
      var before, added := ChainCreates(Init(chain)), Creates(Last(chain).transactions);
      assert Init(chain)[..n] == chain[..n];
      PrefixCreates(Init(chain), n, h);
      assert HashesOf(before + added) == HashesOf(before) + HashesOf(added);
      SetOfConcat(HashesOf(before), HashesOf(added));
    }
  }

  /** Where no hash is created twice, a block creates nothing that an earlier one left unspent. */
  lemma CreatesNothingOld(chain: seq<Block>, c: Block, known: seq<Block>, h: Hash)
    requires AllHashesDistinct(chain + [c]) && known <= chain && h in Unspent(known)
    ensures h !in HashesOf(Creates(c.transactions))
  {
    var before, added := HashesOf(ChainCreates(chain)), HashesOf(Creates(c.transactions));
    InitLastSnoc(chain, c);
    assert HashesOf(ChainCreates(chain + [c])) == before + added;
    DistinctParts(before, added);
    UnspentWereCreated(known, h);
    assert chain[..|known|] == known;
    PrefixCreates(chain, |known|, h);
    forall i | 0 <= i < |added|
      ensures added[i] != h
    {
      assert added[i] in SetOf(added);
    }
  }

  lemma CreatesNothingOldApart(chain: seq<Block>, c: Block, known: seq<Block>)
    requires AllHashesDistinct(chain + [c]) && known <= chain && AllIn(Spends(c.transactions), Unspent(known))
    ensures CreatesNothingItSpends(c) && Apart(Spends(c.transactions), Creates(c.transactions))
  {
    forall h | h in Spends(c.transactions)
      ensures h !in HashesOf(Creates(c.transactions))
    {
      CreatesNothingOld(chain, c, known, h);
    }
    forall i, j | 0 <= i < |Spends(c.transactions)| && 0 <= j < |Creates(c.transactions)|
      ensures Spends(c.transactions)[i] != HashOutput(Creates(c.transactions)[j])
    {
      assert HashesOf(Creates(c.transactions))[j] in HashesOf(Creates(c.transactions));
      assert Spends(c.transactions)[i] in Spends(c.transactions);
    }
  }

  lemma DistinctInit(chain: seq<Block>)
    requires chain != [] && AllHashesDistinct(chain)
    ensures AllHashesDistinct(Init(chain))
  {
    DistinctHashesFresh(chain);
  }

  lemma AcceptedApart(chain: seq<Block>, c: Block)
    requires Accepted(chain, c) && AllHashesDistinct(chain + [c])
    ensures CreatesNothingItSpends(c)
  {
    var known := AcceptedHeader(chain, c);
    PassedSpends(c.transactions, |chain|, Unspent(known));
    CreatesNothingOldApart(chain, c, known);
  }

  /** Where no hash is created twice, no accepted block creates what it spends. */
  lemma {:induction false} DistinctCreatesNothing(chain: seq<Block>)
    requires AcceptedChain(chain) && AllHashesDistinct(chain)
    ensures AllCreateNothingTheySpend(chain)
    decreases |chain|
  {
    if chain != [] {
      DistinctInit(chain);
      DistinctCreatesNothing(Init(chain));
      assert chain == Init(chain) + [Last(chain)];
      AcceptedApart(Init(chain), Last(chain));
      forall i | 0 <= i < |chain|
        ensures CreatesNothingItSpends(chain[i])
      {
        if i < |chain| - 1 {
          assert CreatesNothingItSpends(Init(chain)[i]);
        }
      }
    }
  }

  // ---------- spends, over a whole chain ----------

  lemma {:induction false} SpentInPrefix(chain: seq<Block>, n: nat, h: Hash)
    requires n <= |chain|
    ensures TimesSpent(chain[..n], h) <= TimesSpent(chain, h)
    decreases |chain|
  {
    if n == |chain| {
      assert chain[..n] == chain;
    } else {
      assert Init(chain)[..n] == chain[..n];
      SpentInPrefix(Init(chain), n, h);
      CountsStep(chain, h);
    }
  }

  lemma RespentTwice(chain: seq<Block>, i: nat, h: Hash)
    requires 0 < i < |chain|
    requires h in Spends(chain[i].transactions) && h in Spends(chain[i - 1].transactions)
    ensures TimesSpent(chain, h) >= 2
  {
    assert chain[..i + 1] == chain[..i - 1] + [chain[i - 1]] + [chain[i]];
    SpentTwiceMore(chain[..i - 1], chain[i - 1], chain[i], h);
    SpentInPrefix(chain, i + 1, h);
  }

  ghost predicate SpentAsCreated(chain: seq<Block>) {
    forall h :: TimesSpent(chain, h) <= TimesCreated(chain, h)
  }

  /** Where no hash is created twice, the chain is valid, and spends nothing more often than it was
      created, exactly if nothing was respent. */
  lemma SafeIffNothingRespent(chain: seq<Block>)
    requires OutputHashInjective() && AcceptedChain(chain) && AllHashesDistinct(chain)
    ensures NothingRespent(chain) <==> ValidChain(chain)
    ensures NothingRespent(chain) <==> SpentAsCreated(chain)
  {
    ValidIffNothingRespent(chain);
    DistinctCreatesNothing(chain);
    if NothingRespent(chain) {
      forall h
        ensures TimesSpent(chain, h) <= TimesCreated(chain, h)
      {
        SpendsCoveredByEarlierCreations(chain, h);
      }
    } else {
      var i :| 0 < i < |chain| && i % DIFFICULTY_UPDATE_INTERVAL == 0 && !Disjoint(chain[i], chain[i - 1]);
      var h :| h in Spends(chain[i].transactions) && h in Spends(chain[i - 1].transactions);
      RespentTwice(chain, i, h);
      DistinctCount(HashesOf(ChainCreates(chain)), h);
    }
  }

  // ---------- money, over a whole chain ----------

  /** The value of those of the listed outputs that are also in `again`. */
  function SharedValue(hs: seq<Hash>, again: seq<Hash>, outs: Outputs): nat {
    if hs == [] then 0
    else (if hs[0] in again && hs[0] in outs then outs[hs[0]].amount else 0) + SharedValue(hs[1..], again, outs)
  }

  /** What blocks right behind a retarget height spend that the block before them spent already. */
  function Minted(chain: seq<Block>): nat {
    if chain == [] then 0
    else
      Minted(Init(chain))
      + (if Difficulty.AtRetarget(Init(chain)) then RespentValue(Init(chain), Last(chain)) else 0)
  }

  function RespentValue(chain: seq<Block>, c: Block): nat
    requires chain != []
  {
    SharedValue(Spends(c.transactions), Spends(Last(chain).transactions), Unspent(Init(chain)))
  }

  /** What is missing from the newer of two sets was in the list of what was spent in between. */
  lemma {:induction false} HeldAndShared(hs: seq<Hash>, again: seq<Hash>, older: Outputs, newer: Outputs)
    requires AllIn(hs, older)
    requires forall h :: h in hs && h !in again ==> h in newer && newer[h] == older[h]
    ensures Value(hs, older) <= HeldValue(hs, newer) + SharedValue(hs, again, older)
    ensures (forall h :: h in hs && h in again ==> h !in newer) ==>
              Value(hs, older) == HeldValue(hs, newer) + SharedValue(hs, again, older)
    decreases |hs|
  {
    if hs != [] {
      assert hs[0] in hs;
      HeldAndShared(hs[1..], again, older, newer);
    }
  }

  /** What a block does to the unspent total whose inputs were looked up among what `known` leaves. */
  lemma TotalAfter(chain: seq<Block>, known: seq<Block>, c: Block)
    requires AcceptedChain(chain) && PassesOver(chain, known, c)
    ensures var hs := Spends(c.transactions);
            && AllIn(hs, Unspent(known))
            && Total(Unspent(chain + [c])) + HeldValue(hs, Unspent(chain))
                 <= Total(Unspent(chain)) + Subsidy(|chain|) + Value(hs, Unspent(known))
            && (Fresh(Unspent(chain), Creates(c.transactions)) && Apart(hs, Creates(c.transactions)) ==>
                  Total(Unspent(chain + [c])) + HeldValue(hs, Unspent(chain))
                    == Total(Unspent(chain)) + Subsidy(|chain|) + Value(hs, Unspent(known)))
  {
    var txs := c.transactions;
    PassesOverExactly(chain, known, c);
    PassedSpends(txs, |chain|, Unspent(known));
    PassesOverMeans(chain, known, c);
    CreatedValue(txs, |chain|, Unspent(known));
    OpsOfTxs(txs);
    OpsConserveHeld(Unspent(chain), TxsOps(txs));
    UnspentSnoc(chain, c);
  }

  lemma CreatedValue(txs: seq<Tx>, height: nat, outs: Outputs)
    requires ValidTransactions(txs, height, outs) && AllIn(Spends(txs), outs)
    ensures SumOutputs(Creates(txs)) == Subsidy(height) + Value(Spends(txs), outs)
  {
    SpendsAvailable(txs[1..], outs);
    assert Spends(txs) == Spends(txs[1..]);
    SumOutputsConcat(txs[0].outputs, Creates(txs[1..]));
  }

  /** Which outputs unspent before a block are unspent after it, and unchanged. */
  lemma HeldAcross(known: seq<Block>, b: Block, hs: seq<Hash>)
    requires OutputHashInjective() && AllIn(hs, Unspent(known))
    ensures forall h :: h in hs && h !in Spends(b.transactions) ==>
                          h in Unspent(known + [b]) && Unspent(known + [b])[h] == Unspent(known)[h]
    ensures CreatesNothingItSpends(b) ==>
              forall h :: h in hs && h in Spends(b.transactions) ==> h !in Unspent(known + [b])
  {
    forall h | h in hs && h !in Spends(b.transactions)
      ensures h in Unspent(known + [b]) && Unspent(known + [b])[h] == Unspent(known)[h]
    {
      KeptIfDisjoint(known, b, [h]);
      assert [h][0] in Unspent(known + [b]);
      UnspentSame(known, known + [b], [h]);
    }
    if CreatesNothingItSpends(b) {
      forall h | h in hs && h in Spends(b.transactions)
        ensures h !in Unspent(known + [b])
      {
        UnspentUnlessSpent(known, b, h);
      }
    }
  }

  /** What a block looked up one block behind mints: the value of what both blocks spend. */
  lemma StaleBlockMints(known: seq<Block>, b: Block, c: Block)
    requires OutputHashInjective()
    requires AcceptedChain(known + [b]) && PassesOver(known + [b], known, c)
    ensures var chain, hs := known + [b], Spends(c.transactions);
            var shared := SharedValue(hs, Spends(b.transactions), Unspent(known));
            && Total(Unspent(chain + [c])) <= Total(Unspent(chain)) + Subsidy(|chain|) + shared
            && (CreatesNothingItSpends(b) && Fresh(Unspent(chain), Creates(c.transactions))
                && Apart(hs, Creates(c.transactions)) ==>
                  Total(Unspent(chain + [c])) == Total(Unspent(chain)) + Subsidy(|chain|) + shared)
  {
    var hs := Spends(c.transactions);
    TotalAfter(known + [b], known, c);
    HeldAcross(known, b, hs);
    HeldAndShared(hs, Spends(b.transactions), Unspent(known), Unspent(known + [b]));
  }

  lemma {:induction false} NothingShared(hs: seq<Hash>, again: seq<Hash>, outs: Outputs)
    requires forall h :: h in hs ==> h !in again
    ensures SharedValue(hs, again, outs) == 0
    decreases |hs|
  {
    if hs != [] {
      assert hs[0] in hs;
      NothingShared(hs[1..], again, outs);
    }
  }

  lemma MintedSnoc(chain: seq<Block>, c: Block)
    ensures Minted(chain + [c])
         == Minted(chain) + (if Difficulty.AtRetarget(chain) then RespentValue(chain, c) else 0)
  {
    InitLastSnoc(chain, c);
  }

  lemma RespentFromBehind(known: seq<Block>, b: Block, c: Block)
    ensures RespentValue(known + [b], c)
         == SharedValue(Spends(c.transactions), Spends(b.transactions), Unspent(known))
  {
    InitLastSnoc(known, b);
  }

  /** What a block does to the unspent total, where the block before it spent `shared` of what it
      spends. */
  ghost predicate MintsAtMost(chain: seq<Block>, c: Block, shared: nat) {
    Total(Unspent(chain + [c])) <= Total(Unspent(chain)) + Subsidy(|chain|) + shared
  }

  ghost predicate MintsExactly(chain: seq<Block>, c: Block, shared: nat) {
    Total(Unspent(chain + [c])) == Total(Unspent(chain)) + Subsidy(|chain|) + shared
  }

  lemma CurrentBlockMints(chain: seq<Block>, c: Block)
    requires AcceptedChain(chain) && Extends(chain, c)
    ensures MintsAtMost(chain, c, 0)
    ensures AllHashesDistinct(chain + [c]) ==> MintsExactly(chain, c, 0)
  {
    TotalAfter(chain, chain, c);
    HeldIsValue(Spends(c.transactions), Unspent(chain));
    if AllHashesDistinct(chain + [c]) {
      FreshOnAccepted(chain, chain, c);
    }
  }

  lemma FreshOnAccepted(chain: seq<Block>, known: seq<Block>, c: Block)
    requires AllHashesDistinct(chain + [c]) && known <= chain && AllIn(Spends(c.transactions), Unspent(known))
    ensures Fresh(Unspent(chain), Creates(c.transactions))
    ensures Apart(Spends(c.transactions), Creates(c.transactions))
  {
    InitLastSnoc(chain, c);
    DistinctHashesFresh(chain + [c]);
    CreatesNothingOldApart(chain, c, known);
  }

  /** An up-to-date block shares no spend with the block before. */
  lemma CurrentSharesNothing(chain: seq<Block>, c: Block)
    requires chain != [] && AcceptedChain(chain) && Extends(chain, c) && AllHashesDistinct(chain)
    ensures RespentValue(chain, c) == 0
  {
    DistinctCreatesNothing(chain);
    assert CreatesNothingItSpends(chain[|chain| - 1]);
    ExtendsDisjoint(chain, c);
    NothingShared(Spends(c.transactions), Spends(Last(chain).transactions), Unspent(Init(chain)));
  }

  lemma BehindBlockMints(known: seq<Block>, b: Block, c: Block)
    requires OutputHashInjective()
    requires AcceptedChain(known + [b]) && PassesOver(known + [b], known, c)
    ensures MintsAtMost(known + [b], c, RespentValue(known + [b], c))
    ensures AllHashesDistinct(known + [b] + [c]) ==> MintsExactly(known + [b], c, RespentValue(known + [b], c))
  {
    var chain := known + [b];
    RespentFromBehind(known, b, c);
    StaleBlockMints(known, b, c);
    if AllHashesDistinct(chain + [c]) {
      PassesOverExactly(chain, known, c);
      PassedSpends(c.transactions, |chain|, Unspent(known));
      FreshOnAccepted(chain, known, c);
      InitLastSnoc(chain, c);
      DistinctInit(chain + [c]);
      DistinctCreatesNothing(chain);
      assert CreatesNothingItSpends(chain[|known|]);
    }
  }

  lemma BlockMints(chain: seq<Block>, c: Block)
    requires OutputHashInjective()
    requires AcceptedChain(chain) && Accepted(chain, c)
    ensures var shared := if Difficulty.AtRetarget(chain) then RespentValue(chain, c) else 0;
            MintsAtMost(chain, c, shared) && (AllHashesDistinct(chain + [c]) ==> MintsExactly(chain, c, shared))
  {
    if Extends(chain, c) {
      CurrentBlockMints(chain, c);
      if Difficulty.AtRetarget(chain) && AllHashesDistinct(chain + [c]) {
        InitLastSnoc(chain, c);
        DistinctInit(chain + [c]);
        CurrentSharesNothing(chain, c);
      }
    } else {
      assert chain == Init(chain) + [Last(chain)];
      BehindBlockMints(Init(chain), Last(chain), c);
    }
  }

  /** The unspent outputs are worth at most what the subsidies issued and respending minted, and
      exactly that when no output hash occurs twice. */
  ghost predicate Accounted(chain: seq<Block>) {
    && Total(Unspent(chain)) <= Issued(|chain|) + Minted(chain)
    && (AllHashesDistinct(chain) ==> Total(Unspent(chain)) == Issued(|chain|) + Minted(chain))
  }

  lemma AccountedSnoc(chain: seq<Block>, c: Block)
    requires OutputHashInjective()
    requires AcceptedChain(chain) && Accepted(chain, c) && Accounted(chain)
    ensures Accounted(chain + [c])
  {
    BlockMints(chain, c);
    MintedSnoc(chain, c);
    InitLastSnoc(chain, c);
    if AllHashesDistinct(chain + [c]) {
      DistinctInit(chain + [c]);
    }
  }

  /** The money of every chain a ledger accepts is accounted for. */
  lemma {:induction false} SupplyIsIssuedAndMinted(chain: seq<Block>)
    requires OutputHashInjective() && AcceptedChain(chain)
    ensures Accounted(chain)
    decreases |chain|
  {
    if chain != [] {
      SupplyIsIssuedAndMinted(Init(chain));
      AccountedSnoc(Init(chain), Last(chain));
      assert chain == Init(chain) + [Last(chain)];
    }
  }

  lemma {:induction false} NothingMinted(chain: seq<Block>)
    requires NothingRespent(chain)
    ensures Minted(chain) == 0
    decreases |chain|
  {
    if chain != [] {
      NothingRespentSnoc(chain);
      NothingMinted(Init(chain));
      if Difficulty.AtRetarget(Init(chain)) {
        var before := Init(chain);
        NothingShared(Spends(Last(chain).transactions), Spends(Last(before).transactions), Unspent(Init(before)));
      }
    }
  }
}
