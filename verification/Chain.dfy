/** Block acceptance as a function of the chain, and what a chain of accepted blocks commits to. */
module Chain {
  import opened Types
  import opened BlockRules
  import opened Replay
  import Difficulty
  import Merkle

  /** The checks of a submitted block against the blocks so far and the available outputs. */
  function CheckBlock(chain: seq<Block>, outs: Outputs, b: Block): Outcome {
    if chain == [] then
      if b.header.prevBlockHash != ZERO_HASH then Fail(FirstBlockPrevHashNotZero)
      else CheckTransactions(b.transactions, 0, outs)
    else
      var last := chain[|chain| - 1].header;
      if b.header.prevBlockHash != HashHeader(last) then Fail(PrevHashMismatch)
      else if HashHeader(b.header) > last.target then Fail(TargetNotMet)
      else if b.header.merkleRoot != Merkle.MerkleRoot(b.transactions) then Fail(InvalidMerkleRoot)
      else if b.header.timestamp <= last.timestamp then Fail(TimestampNotAfterPrevious)
      else CheckTransactions(b.transactions, |chain|, outs)
  }

  ghost predicate LeftBy(known: seq<Block>, outs: Outputs) {
    outs == Unspent(known)
  }

  /** The block passes every check, its inputs looked up among what the blocks of `known` leave
      unspent.  A quantifier over the one possible `outs`, where a call would do, keeps the body of
      `CheckBlock` out of every proof that only carries this predicate along. */
  ghost predicate PassesOver(chain: seq<Block>, known: seq<Block>, b: Block) {
    forall outs :: LeftBy(known, outs) ==> CheckBlock(chain, outs, b) == Pass
  }

  lemma PassesOverIffPass(chain: seq<Block>, known: seq<Block>, b: Block)
    ensures PassesOver(chain, known, b) <==> CheckBlock(chain, Unspent(known), b) == Pass
  {
    assert LeftBy(known, Unspent(known));
  }

  /** The block passes every check against the outputs the chain leaves unspent. */
  ghost predicate Extends(chain: seq<Block>, b: Block) {
    PassesOver(chain, chain, b)
  }

  lemma ExtendsIffPass(chain: seq<Block>, b: Block)
    ensures Extends(chain, b) <==> CheckBlock(chain, Unspent(chain), b) == Pass
  {
    PassesOverIffPass(chain, chain, b);
  }

  function Init(chain: seq<Block>): seq<Block>
    requires chain != []
  {
    chain[..|chain| - 1]
  }

  function Last(chain: seq<Block>): Block
    requires chain != []
  {
    chain[|chain| - 1]
  }

  lemma InitLastSnoc(chain: seq<Block>, b: Block)
    ensures Init(chain + [b]) == chain && Last(chain + [b]) == b
  {
  }

  /** Every block extends the blocks before it. */
  ghost predicate ValidChain(chain: seq<Block>) {
    chain == [] || (ValidChain(Init(chain)) && Extends(Init(chain), Last(chain)))
  }

  lemma ValidSnoc(chain: seq<Block>, b: Block)
    ensures ValidChain(chain + [b]) <==> ValidChain(chain) && Extends(chain, b)
  {
    InitLastSnoc(chain, b);
  }

  lemma {:induction false} ValidPrefix(chain: seq<Block>, n: nat)
    requires ValidChain(chain) && n <= |chain|
    ensures ValidChain(chain[..n])
    ensures n < |chain| ==> Extends(chain[..n], chain[n])
    decreases |chain|
  {
    if n < |chain| {
      ValidPrefix(Init(chain), n);
      assert Init(chain)[..n] == chain[..n];
    } else {
      assert chain[..n] == chain;
    }
  }

  // ---------- what a ledger's checks let through ----------

  /** The block passes the checks of a ledger that holds the chain.  The ledger looks inputs up among
      the outputs its chain leaves unspent, except that its set may be one block behind right after
      a retarget height (`Faults` says how that comes about). */
  ghost predicate Accepted(chain: seq<Block>, b: Block) {
    Extends(chain, b) || (Difficulty.AtRetarget(chain) && PassesOver(chain, Init(chain), b))
  }

  ghost predicate AcceptedChain(chain: seq<Block>) {
    chain == [] || (AcceptedChain(Init(chain)) && Accepted(Init(chain), Last(chain)))
  }

  lemma AcceptedSnoc(chain: seq<Block>, b: Block)
    ensures AcceptedChain(chain + [b]) <==> AcceptedChain(chain) && Accepted(chain, b)
  {
    InitLastSnoc(chain, b);
  }

  lemma {:induction false} ValidIsAccepted(chain: seq<Block>)
    requires ValidChain(chain)
    ensures AcceptedChain(chain)
    decreases |chain|
  {
    if chain != [] {
      ValidIsAccepted(Init(chain));
    }
  }

  lemma {:induction false} AcceptedPrefix(chain: seq<Block>, n: nat)
    requires AcceptedChain(chain) && n <= |chain|
    ensures AcceptedChain(chain[..n])
    ensures n < |chain| ==> Accepted(chain[..n], chain[n])
    decreases |chain|
  {
    if n == |chain| {
      assert chain[..n] == chain;
    } else {
      var front := Init(chain);
      assert AcceptedChain(front) && Accepted(front, Last(chain));
      AcceptedPrefix(front, n);
      assert front[..n] == chain[..n];
      assert n < |front| ==> front[n] == chain[n];
    }
  }

  /** What the checks of the header say. */
  ghost predicate HeaderFits(chain: seq<Block>, b: Block) {
    if chain == [] then b.header.prevBlockHash == ZERO_HASH
    else
      && b.header.prevBlockHash == HashHeader(Last(chain).header)
      && HashHeader(b.header) <= Last(chain).header.target
      && b.header.merkleRoot == Merkle.MerkleRoot(b.transactions)
      && b.header.timestamp > Last(chain).header.timestamp
  }

  lemma PassesOverExactly(chain: seq<Block>, known: seq<Block>, b: Block)
    ensures PassesOver(chain, known, b) <==>
              HeaderFits(chain, b) && CheckTransactions(b.transactions, |chain|, Unspent(known)) == Pass
  {
    PassesOverIffPass(chain, known, b);
  }

  lemma ExtendsHeader(chain: seq<Block>, b: Block)
    requires Extends(chain, b)
    ensures HeaderFits(chain, b)
    ensures CheckTransactions(b.transactions, |chain|, Unspent(chain)) == Pass
  {
    PassesOverExactly(chain, chain, b);
  }

  lemma AcceptedHeader(chain: seq<Block>, b: Block) returns (known: seq<Block>)
    requires Accepted(chain, b)
    ensures known == chain || (Difficulty.AtRetarget(chain) && known == Init(chain))
    ensures PassesOver(chain, known, b)
    ensures HeaderFits(chain, b)
    ensures CheckTransactions(b.transactions, |chain|, Unspent(known)) == Pass
  {
    known := if Extends(chain, b) then chain else Init(chain);
    PassesOverExactly(chain, known, b);
  }

  /** No chain is longer than the final height: there the halving divisor overflows and every
      block is rejected. */
  lemma {:induction false} HeightBound(chain: seq<Block>)
    requires AcceptedChain(chain)
    ensures |chain| <= FINAL_HEIGHT
    decreases |chain|
  {
    if chain != [] {
      HeightBound(Init(chain));
      var known := AcceptedHeader(Init(chain), Last(chain));
      PassBelowFinalHeight(Last(chain).transactions, |chain| - 1, Unspent(known));
    }
  }

  lemma PassBelowFinalHeight(txs: seq<Tx>, height: nat, outs: Outputs)
    requires height <= FINAL_HEIGHT && CheckTransactions(txs, height, outs) == Pass
    ensures height < FINAL_HEIGHT
  {
    DivisorBelowFinalHeight(height);
  }

  /** What passing the checks says, without machine arithmetic. */
  lemma PassesOverMeans(chain: seq<Block>, known: seq<Block>, b: Block)
    requires AcceptedChain(chain) && PassesOver(chain, known, b)
    ensures |chain| < FINAL_HEIGHT
    ensures ValidTransactions(b.transactions, |chain|, Unspent(known))
    ensures SumOutputs(b.transactions[0].outputs) <= U64_MAX
  {
    HeightBound(chain);
    PassesOverExactly(chain, known, b);
    PassBelowFinalHeight(b.transactions, |chain|, Unspent(known));
    CheckTransactionsExact(b.transactions, |chain|, Unspent(known));
  }

  lemma ExtendsMeans(chain: seq<Block>, b: Block)
    requires ValidChain(chain) && Extends(chain, b)
    ensures |chain| < FINAL_HEIGHT
    ensures ValidTransactions(b.transactions, |chain|, Unspent(chain))
    ensures SumOutputs(b.transactions[0].outputs) <= U64_MAX
  {
    ValidIsAccepted(chain);
    PassesOverMeans(chain, chain, b);
  }

  // ---------- time ----------

  lemma {:induction false} TimestampsIncrease(chain: seq<Block>, i: nat, j: nat)
    requires AcceptedChain(chain)
    requires i < j < |chain|
    ensures chain[i].header.timestamp < chain[j].header.timestamp
    decreases j
  {
    AcceptedPrefix(chain, j);
    var _ := AcceptedHeader(chain[..j], chain[j]);
    assert Last(chain[..j]) == chain[j - 1];
    if i < j - 1 {
      TimestampsIncrease(chain, i, j - 1);
    }
  }

  lemma AcceptedLater(chain: seq<Block>, b: Block)
    requires Accepted(chain, b) && chain != []
    ensures b.header.timestamp > Last(chain).header.timestamp
  {
    var _ := AcceptedHeader(chain, b);
  }

  lemma NoLaterThanLast(chain: seq<Block>, i: nat)
    requires AcceptedChain(chain) && i < |chain|
    ensures chain[i].header.timestamp <= Last(chain).header.timestamp
  {
    if i < |chain| - 1 {
      TimestampsIncrease(chain, i, |chain| - 1);
    }
  }

  /** A block already in the chain is never accepted again. */
  lemma NoBlockTwice(chain: seq<Block>, b: Block)
    requires AcceptedChain(chain)
    requires b in chain
    ensures !Accepted(chain, b)
  {
    var i :| 0 <= i < |chain| && chain[i] == b;
    NoLaterThanLast(chain, i);
    if Accepted(chain, b) {
      AcceptedLater(chain, b);
    }
  }

  // ---------- Merkle roots and the double-spend check together ----------

  ghost predicate TxsHaveInputs(txs: seq<Tx>) {
    forall j :: 1 <= j < |txs| ==> txs[j].inputs != []
  }

  lemma {:induction false} SpendsContains(txs: seq<Tx>, i: nat) returns (at: nat)
    requires i < |txs|
    ensures at + |txs[i].inputs| <= |Spends(txs)|
    ensures forall k :: 0 <= k < |txs[i].inputs| ==> Spends(txs)[at + k] == txs[i].inputs[k].prevTxOutputHash
    ensures forall m :: 0 <= m < i ==> at >= |txs[m].inputs|
    decreases |txs|
  {
    var first, rest := SpendsOfInputs(txs[0].inputs), txs[1..];
    assert Spends(txs) == first + Spends(rest);
    if i == 0 {
      at := 0;
    } else {
      var behind := SpendsContains(rest, i - 1);
      at := |first| + behind;
      assert txs[i] == rest[i - 1];
      forall k | 0 <= k < |txs[i].inputs|
        ensures Spends(txs)[at + k] == txs[i].inputs[k].prevTxOutputHash
      {
        assert (first + Spends(rest))[at + k] == Spends(rest)[behind + k];
      }
      forall m | 0 <= m < i
        ensures at >= |txs[m].inputs|
      {
        if m > 0 {
          assert txs[m] == rest[m - 1];
        }
      }
    }
  }

  lemma SpentSomewhere(txs: seq<Tx>, i: nat, h: Hash)
    requires i < |txs| && h in SpendsOfInputs(txs[i].inputs)
    ensures h in Spends(txs)
  {
    var at := SpendsContains(txs, i);
    var m :| 0 <= m < |txs[i].inputs| && SpendsOfInputs(txs[i].inputs)[m] == h;
    assert Spends(txs)[at + m] == h;
  }

  /** A transaction with inputs cannot occur twice where nothing is spent twice. */
  lemma {:induction false} RepeatedTxSpendsTwice(txs: seq<Tx>, i: nat, j: nat)
    requires i < j < |txs| && txs[i] == txs[j] && txs[i].inputs != []
    ensures !Distinct(Spends(txs))
    decreases |txs|
  {
    if i == 0 {
      var at := SpendsContains(txs, j);
      assert Spends(txs)[0] == txs[0].inputs[0].prevTxOutputHash == Spends(txs)[at];
    } else {
      RepeatedTxSpendsTwice(txs[1..], i - 1, j - 1);
      DistinctConcat(SpendsOfInputs(txs[0].inputs), Spends(txs[1..]));
    }
  }

  lemma RepetitionSpendsTwice(longer: seq<Tx>, shorter: seq<Tx>)
    requires Merkle.ExtendsByRepetition(longer, shorter)
    requires TxsHaveInputs(longer) || TxsHaveInputs(shorter)
    ensures !Distinct(Spends(longer[1..]))
  {
    var i, j :| 1 <= i < |shorter| <= j < |longer| && longer[i] == longer[j];
    assert longer[i] == longer[..|shorter|][i] == shorter[i];
    RepeatedTxSpendsTwice(longer[1..], i - 1, j - 1);
  }

  /** Two transaction lists that pass the verifier, anywhere, and have the same Merkle root are the
      same list, whatever their lengths. */
  lemma MerkleRootFixesTransactions(a: seq<Tx>, b: seq<Tx>, ha: nat, hb: nat, oa: Outputs, ob: Outputs)
    requires MerkleHashInjective()
    requires CheckTransactions(a, ha, oa) == Pass && CheckTransactions(b, hb, ob) == Pass
    requires TxsHaveInputs(a)
    requires Merkle.MerkleRoot(a) == Merkle.MerkleRoot(b)
    ensures a == b
  {
    PassMeans(a, ha, oa);
    PassMeans(b, hb, ob);
    if |a| < |b| {
      Merkle.EqualMerkleRoots(b, a);
      RepetitionSpendsTwice(b, a);
    } else {
      Merkle.EqualMerkleRoots(a, b);
      if |b| < |a| {
        RepetitionSpendsTwice(a, b);
      }
    }
  }

  lemma ConcatAssociative<T>(a: seq<T>, b: seq<T>, c: seq<T>)
    ensures a + (b + c) == (a + b) + c
  {
  }

  lemma {:induction false} SpendsSnoc(txs: seq<Tx>, tx: Tx)
    ensures Spends(txs + [tx]) == Spends(txs) + SpendsOfInputs(tx.inputs)
    ensures Creates(txs + [tx]) == Creates(txs) + tx.outputs
    decreases |txs|
  {
    if txs == [] {
      assert txs + [tx] == [tx];
    } else {
      assert (txs + [tx])[1..] == txs[1..] + [tx];
      SpendsSnoc(txs[1..], tx);
      ConcatAssociative(SpendsOfInputs(txs[0].inputs), Spends(txs[1..]), SpendsOfInputs(tx.inputs));
      ConcatAssociative(txs[0].outputs, Creates(txs[1..]), tx.outputs);
    }
  }

  /** Repeating a transaction with inputs spends them twice; repeating one without changes nothing. */
  lemma AppendedPassesIff(rest: seq<Tx>, tx: Tx, outs: Outputs)
    requires TxsSpendable(rest, outs, {}) && rest != [] && tx == rest[|rest| - 1]
    ensures TxsSpendable(rest + [tx], outs, {}) <==> tx.inputs == []
    ensures tx.inputs == [] ==> Fees(rest + [tx], outs) == Fees(rest, outs)
  {
    if tx.inputs != [] {
      RepeatedTxSpendsTwice(rest + [tx], |rest| - 1, |rest|);
    } else {
      EmptyInputsAppended(rest, tx, outs);
    }
  }

  lemma LongerPassesIff(coinbase: Tx, rest: seq<Tx>, height: nat, outs: Outputs)
    requires rest != [] && CheckTransactions([coinbase] + rest, height, outs) == Pass
    ensures var tx := rest[|rest| - 1];
            CheckTransactions([coinbase] + (rest + [tx]), height, outs) == Pass <==> tx.inputs == []
  {
    var tx := rest[|rest| - 1];
    assert ([coinbase] + rest)[1..] == rest && ([coinbase] + (rest + [tx]))[1..] == rest + [tx];
    PassMeans([coinbase] + rest, height, outs);
    PassMeans([coinbase] + (rest + [tx]), height, outs);
    AppendedPassesIff(rest, tx, outs);
  }

  /** Without inputs the Merkle root does not fix the list: repeating the last transaction of an
      odd list keeps the root, and the longer list passes exactly when that transaction has no
      inputs. */
  lemma RepetitionPassesIffNoInputs(txs: seq<Tx>, height: nat, outs: Outputs)
    requires |txs| >= 3 && |txs| % 2 == 1
    requires CheckTransactions(txs, height, outs) == Pass
    ensures var tail := txs[|txs| - 1];
            && Merkle.MerkleRoot(txs + [tail]) == Merkle.MerkleRoot(txs)
            && (CheckTransactions(txs + [tail], height, outs) == Pass <==> tail.inputs == [])
  {
    var tail, rest := txs[|txs| - 1], txs[1..];
    Merkle.RepeatedLastLeafKeepsRoot(txs);
    assert txs == [txs[0]] + rest && txs + [tail] == [txs[0]] + (rest + [tail]);
    LongerPassesIff(txs[0], rest, height, outs);
  }

  lemma EmptyInputsAppended(txs: seq<Tx>, tx: Tx, outs: Outputs)
    requires TxsSpendable(txs, outs, {}) && tx in txs && tx.inputs == []
    ensures TxsSpendable(txs + [tx], outs, {})
    ensures Fees(txs + [tx], outs) == Fees(txs, outs)
  {
    var longer := txs + [tx];
    forall i | 0 <= i < |longer|
      ensures Balanced(longer[i], outs) && Fits(longer[i], outs)
    {
      assert longer[i] in txs;
    }
    assert Balanced(tx, outs);
    SpendsSnoc(txs, tx);
    assert Spends(longer) == Spends(txs);
    NothingPaid(tx, outs);
    SumOutputsConcat(Creates(txs), tx.outputs);
  }

  lemma NothingPaid(tx: Tx, outs: Outputs)
    requires Balanced(tx, outs) && tx.inputs == []
    ensures SumOutputs(tx.outputs) == 0
  {
  }

  // ---------- the tip commits to the history ----------

  ghost predicate SameHeaders(a: seq<Block>, b: seq<Block>) {
    |a| == |b| && forall i :: 0 <= i < |a| ==> a[i].header == b[i].header
  }

  lemma SameHeadersSnoc(a: seq<Block>, b: seq<Block>)
    requires a != [] && b != []
    requires SameHeaders(Init(a), Init(b)) && Last(a).header == Last(b).header
    ensures SameHeaders(a, b)
  {
    forall i | 0 <= i < |a|
      ensures a[i].header == b[i].header
    {
      if i < |a| - 1 {
        assert Init(a)[i].header == Init(b)[i].header;
      }
    }
  }

  ghost predicate SameTip(a: seq<Block>, b: seq<Block>) {
    a != [] && b != [] && HashHeader(Last(a).header) == HashHeader(Last(b).header)
  }

  /** Equal tips were put on equal tips, or on nothing. */
  lemma TipsBelow(a: seq<Block>, b: seq<Block>)
    requires HeaderHashInjective()
    requires AcceptedChain(a) && AcceptedChain(b) && SameTip(a, b)
    ensures Last(a).header == Last(b).header
    ensures (Init(a) == [] && Init(b) == []) || SameTip(Init(a), Init(b))
  {
    var _ := AcceptedHeader(Init(a), Last(a));
    var _ := AcceptedHeader(Init(b), Last(b));
  }

  /** Chains whose last headers hash alike have the same height and the same headers. */
  lemma {:induction false} SameTipSameHeaders(a: seq<Block>, b: seq<Block>)
    requires HeaderHashInjective()
    requires AcceptedChain(a) && AcceptedChain(b) && SameTip(a, b)
    ensures SameHeaders(a, b)
    decreases |a|
  {
    TipsBelow(a, b);
    if Init(a) != [] {
      SameTipSameHeaders(Init(a), Init(b));
    }
    SameHeadersSnoc(a, b);
  }

  ghost predicate ChainTxsHaveInputs(chain: seq<Block>) {
    forall i :: 1 <= i < |chain| ==> TxsHaveInputs(chain[i].transactions)
  }

  lemma SameBlockAt(a: seq<Block>, b: seq<Block>, i: nat)
    requires MerkleHashInjective()
    requires AcceptedChain(a) && AcceptedChain(b) && ChainTxsHaveInputs(a)
    requires 0 < i < |a| && i < |b| && a[i].header == b[i].header
    ensures a[i] == b[i]
  {
    AcceptedPrefix(a, i);
    AcceptedPrefix(b, i);
    var ka := AcceptedHeader(a[..i], a[i]);
    var kb := AcceptedHeader(b[..i], b[i]);
    MerkleRootFixesTransactions(a[i].transactions, b[i].transactions, i, i, Unspent(ka), Unspent(kb));
  }

  /** With the same first transactions, which no root covers, they are the same chain. */
  lemma SameTipSameHistory(a: seq<Block>, b: seq<Block>)
    requires HeaderHashInjective() && MerkleHashInjective()
    requires AcceptedChain(a) && AcceptedChain(b) && SameTip(a, b)
    requires a[0].transactions == b[0].transactions
    requires ChainTxsHaveInputs(a)
    ensures a == b
  {
    SameTipSameHeaders(a, b);
    forall i | 0 <= i < |a|
      ensures a[i] == b[i]
    {
      if i > 0 {
        SameBlockAt(a, b, i);
      }
    }
  }
}
