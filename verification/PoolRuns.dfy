/** The pool over whole runs: exactly when its transactions stay funded. */
module PoolRuns {
  import opened Types
  import opened BlockRules
  import opened Replay
  import opened Chain
  import opened Mempool
  import opened PoolConsistency
  import opened Ledger
  import opened Node
  import Marks
  import Panics
  import SpendSafety
  import Supply

  /** The UTXO set lacks the last block. */
  ghost predicate Behind(s: State) {
    OneBehind(s) && !UpToDate(s)
  }

  // ---------- blocks and the pool ----------

  /** The transactions create no hash that an entry spends. */
  ghost predicate CreatesNoInput(txs: seq<Tx>, pool: seq<Pooled>) {
    forall p, h :: p in pool && h in SpendsOfInputs(p.tx.inputs) ==> h !in Supply.HashesOf(Creates(txs))
  }

  ghost predicate ConsistentAt(pool: seq<Pooled>, chain: seq<Block>) {
    Consistent(pool, Unspent(chain))
  }

  lemma OneBlockKeeps(pool: seq<Pooled>, chain: seq<Block>, b: Block)
    requires OutputHashInjective() && ConsistentAt(pool, chain)
    ensures SpendsOnlyItsOwn(b.transactions, pool) ==> ConsistentAt(pool, chain + [b])
    ensures CreatesNoInput(b.transactions, pool) && ConsistentAt(pool, chain + [b]) ==>
              SpendsOnlyItsOwn(b.transactions, pool)
  {
    UnspentSnoc(chain, b);
    forall h | h in Unspent(chain)
      ensures HashOutput(Unspent(chain)[h]) == h
    {
      UnspentKeysTouched(chain, h);
    }
    if SpendsOnlyItsOwn(b.transactions, pool) {
      BlockKeepsConsistent(pool, Unspent(chain), b.transactions);
    }
    if CreatesNoInput(b.transactions, pool) {
      BlockKeepsConsistentIff(pool, Unspent(chain), b.transactions);
    }
  }

  /** A spent output that nobody creates again stays away. */
  lemma GoneForGood(chain: seq<Block>, b: Block, c: Block, h: Hash)
    requires h in Spends(b.transactions)
    requires h !in Supply.HashesOf(Creates(b.transactions)) && h !in Supply.HashesOf(Creates(c.transactions))
    ensures h !in Unspent(chain + [b] + [c])
  {
    UnspentSnoc(chain, b);
    UnspentSnoc(chain + [b], c);
    SpentIsGone(Unspent(chain), b.transactions, h);
    if h in Unspent(chain + [b] + [c]) {
      SpendSafety.LeftByBlock(Unspent(chain + [b]), c.transactions, h);
    }
  }

  lemma TwoBlocksKeep(pool: seq<Pooled>, chain: seq<Block>, b: Block, c: Block)
    requires OutputHashInjective() && ConsistentAt(pool, chain)
    ensures SpendsOnlyItsOwn(b.transactions, pool) && SpendsOnlyItsOwn(c.transactions, pool) ==>
              ConsistentAt(pool, chain + [b] + [c])
    ensures CreatesNoInput(b.transactions, pool) && CreatesNoInput(c.transactions, pool)
            && ConsistentAt(pool, chain + [b] + [c]) ==>
              SpendsOnlyItsOwn(b.transactions, pool) && SpendsOnlyItsOwn(c.transactions, pool)
  {
    OneBlockKeeps(pool, chain, b);
    if SpendsOnlyItsOwn(b.transactions, pool) {
      OneBlockKeeps(pool, chain + [b], c);
    } else if CreatesNoInput(b.transactions, pool) && CreatesNoInput(c.transactions, pool) {
      var p, h :| p in pool && h in SpendsOfInputs(p.tx.inputs) && h in Spends(b.transactions);
      GoneForGood(chain, b, c, h);
      assert ConsistentAt(pool, chain + [b] + [c]) ==> Funded(p.tx, Unspent(chain + [b] + [c]));
    }
  }

  // ---------- one step ----------

  /** The block a rebuild adds because the set lacked it spends no input of the entries. */
  ghost predicate MissingRespects(s: State, pool: seq<Pooled>) {
    Behind(s) ==> SpendsOnlyItsOwn(Last(s.blocks).transactions, pool)
  }

  ghost predicate MissingApart(s: State, pool: seq<Pooled>) {
    Behind(s) ==> CreatesNoInput(Last(s.blocks).transactions, pool)
  }

  function Remaining(s: State, b: Block): seq<Pooled> {
    WithoutHashes(s.mempool, TxHashes(b.transactions))
  }

  /** What the step adds to the UTXO set spends an entry's input only by containing the entry. */
  ghost predicate StepRespects(s: State, step: Step) {
    match step
    case Receive(b) =>
      Submitted(s, b).outcome == Pass ==>
        SpendsOnlyItsOwn(b.transactions, Remaining(s, b)) && MissingRespects(s, Remaining(s, b))
    case SyncRebuild => MissingRespects(s, s.mempool)
    case _ => true
  }

  /** What the step adds to the UTXO set creates no hash that an entry spends. */
  ghost predicate StepApart(s: State, step: Step) {
    match step
    case Receive(b) =>
      Submitted(s, b).outcome == Pass ==>
        CreatesNoInput(b.transactions, Remaining(s, b)) && MissingApart(s, Remaining(s, b))
    case SyncRebuild => MissingApart(s, s.mempool)
    case _ => true
  }

  ghost predicate PoolOf(s: State) {
    Consistent(s.mempool, Plain(s.utxos))
  }

  lemma RemainingConsistent(s: State, b: Block)
    requires PoolOf(s)
    ensures Consistent(Remaining(s, b), Plain(s.utxos))
  {
    WithoutHashesSubsequence(s.mempool, TxHashes(b.transactions));
    SubsequenceConsistent(Remaining(s, b), s.mempool, Plain(s.utxos));
  }

  lemma TakenPool(s: State, b: Block)
    requires OutputHashInjective() && Tracked(s) && PoolOf(s) && Submitted(s, b).outcome == Pass
    ensures StepRespects(s, Receive(b)) ==> PoolOf(Submitted(s, b).state)
    ensures StepApart(s, Receive(b)) && PoolOf(Submitted(s, b).state) ==> StepRespects(s, Receive(b))
  {
    FaultsMeans(s, b);
    PushedWhenChecked(s, b);
    RebuiltTracked(s, [b]);
    RemainingConsistent(s, b);
    if Behind(s) {
      assert s.blocks == Init(s.blocks) + [Last(s.blocks)];
      TwoBlocksKeep(Remaining(s, b), Init(s.blocks), Last(s.blocks), b);
    } else {
      OneBlockKeeps(Remaining(s, b), s.blocks, b);
    }
  }

  lemma NotTakenPool(s: State, b: Block)
    requires PoolOf(s) && Submitted(s, b).outcome != Pass
    ensures PoolOf(Submitted(s, b).state)
  {
    if Faults(s, b) {
      Marks.FaultLeaves(s, b);
      RemainingConsistent(s, b);
    } else {
      FaultsMeans(s, b);
      Panics.FaultsIffRetargetPanics(s, b);
    }
  }

  lemma RebuildPool(s: State)
    requires OutputHashInjective() && Tracked(s) && PoolOf(s)
    ensures StepRespects(s, SyncRebuild) ==> PoolOf(WithRebuiltUtxos(s))
    ensures StepApart(s, SyncRebuild) && PoolOf(WithRebuiltUtxos(s)) ==> StepRespects(s, SyncRebuild)
  {
    assert s.blocks + [] == s.blocks;
    RebuiltTracked(s, []);
    if Behind(s) {
      assert s.blocks == Init(s.blocks) + [Last(s.blocks)];
      OneBlockKeeps(s.mempool, Init(s.blocks), Last(s.blocks));
    }
  }

  ghost predicate FileWithoutPool(n: Node) {
    n.file.Some? ==> n.file.value.mempool == []
  }

  lemma StepPool(n: Node, step: Step)
    requires OutputHashInjective()
    requires AllTracked(n) && FileWithoutPool(n) && PoolOf(n.ledger)
    ensures FileWithoutPool(Execute(n, step))
    ensures StepRespects(n.ledger, step) ==> PoolOf(Execute(n, step).ledger)
    ensures StepApart(n.ledger, step) && PoolOf(Execute(n, step).ledger) ==> StepRespects(n.ledger, step)
  {
    var s := n.ledger;
    match step
    case Receive(b) =>
      if Submitted(s, b).outcome == Pass {
        TakenPool(s, b);
      } else {
        NotTakenPool(s, b);
      }
    case Pool(tx, at) =>
      InsertKeepsConsistent(tx, at, s.utxos, s.mempool);
    case Expire(now) =>
      SetMarksPlain(s.utxos, ExpiredSpends(s.mempool, now), false);
      ExpiryKeepsConsistent(s.mempool, now, Plain(s.utxos));
    case SyncRebuild =>
      RebuildPool(s);
    case SyncRetarget =>
    case Save =>
    case Restart =>
      if n.file.Some? {
        LoadedTracked(n.file.value);
      }
  }

  // ---------- whole runs ----------

  /** Every step respects the pool. */
  ghost predicate RespectsPool(steps: seq<Step>) {
    steps == [] ||
    var before := steps[..|steps| - 1];
    RespectsPool(before) && StepRespects(Run(before).ledger, steps[|steps| - 1])
  }

  ghost predicate ApartFromPool(steps: seq<Step>) {
    steps == [] ||
    var before := steps[..|steps| - 1];
    ApartFromPool(before) && StepApart(Run(before).ledger, steps[|steps| - 1])
  }

  /** The pool is consistent at every point of the run. */
  ghost predicate AlwaysConsistent(steps: seq<Step>) {
    PoolOf(Run(steps).ledger) && (steps != [] ==> AlwaysConsistent(steps[..|steps| - 1]))
  }

  lemma {:induction false} FileHoldsNoPool(steps: seq<Step>)
    ensures FileWithoutPool(Run(steps))
    decreases |steps|
  {
    if steps != [] {
      FileHoldsNoPool(steps[..|steps| - 1]);
    }
  }

  lemma LastStepPool(steps: seq<Step>)
    requires OutputHashInjective() && steps != []
    requires PoolOf(Run(steps[..|steps| - 1]).ledger)
    ensures var s, step := Run(steps[..|steps| - 1]).ledger, steps[|steps| - 1];
            && (StepRespects(s, step) ==> PoolOf(Run(steps).ledger))
            && (StepApart(s, step) && PoolOf(Run(steps).ledger) ==> StepRespects(s, step))
  {
    var before := steps[..|steps| - 1];
    EveryRunTracked(before);
    FileHoldsNoPool(before);
    StepPool(Run(before), steps[|steps| - 1]);
  }

  /** In every run, faults included, whose rebuilds add only blocks that spend a pooled transaction's
      input by containing that transaction, every pooled transaction always has distinct unspent inputs
      covering its outputs, and the pool is sorted by fee and holds no transaction twice. */
  lemma {:induction false} PoolConsistentInRuns(steps: seq<Step>)
    requires OutputHashInjective() && RespectsPool(steps)
    ensures AlwaysConsistent(steps)
    ensures Consistent(Run(steps).ledger.mempool, Plain(Run(steps).ledger.utxos))
    decreases |steps|
  {
    if steps != [] {
      PoolConsistentInRuns(steps[..|steps| - 1]);
      LastStepPool(steps);
    }
  }

  /** Where no added block creates a hash that a pooled transaction already spends, the condition is
      exact. */
  lemma {:induction false} PoolConsistentIff(steps: seq<Step>)
    requires OutputHashInjective() && ApartFromPool(steps)
    ensures AlwaysConsistent(steps) <==> RespectsPool(steps)
    decreases |steps|
  {
    if steps != [] {
      PoolConsistentIff(steps[..|steps| - 1]);
      if AlwaysConsistent(steps[..|steps| - 1]) {
        LastStepPool(steps);
      }
    }
  }

  /** Every block the run accepts spends a pooled transaction's input only by containing that
      transaction. */
  ghost predicate BlocksRespectPool(steps: seq<Step>) {
    steps == [] ||
    var before, step := steps[..|steps| - 1], steps[|steps| - 1];
    && BlocksRespectPool(before)
    && (step.Receive? && Submitted(Run(before).ledger, step.block).outcome == Pass ==>
          SpendsOnlyItsOwn(step.block.transactions, Remaining(Run(before).ledger, step.block)))
  }

  /** While no block faults, the set is never behind, and respecting the accepted blocks is enough. */
  lemma {:induction false} RespectsWithoutFaults(steps: seq<Step>)
    requires NoBlockFaults(steps) && BlocksRespectPool(steps)
    ensures RespectsPool(steps)
    decreases |steps|
  {
    if steps != [] {
      var before := steps[..|steps| - 1];
      RespectsWithoutFaults(before);
      EveryRunGood(before);
    }
  }

  /** Behind a fault it is not: a transaction that spends what the faulting block spent is still funded,
      and pooled, and the next rebuild takes its input away. */
  lemma PooledBehindFault(s: State, b: Block, tx: Tx, at: Timestamp, h: Hash)
    requires Tracked(s) && Faults(s, b) && Remaining(s, b) == []
    requires h in Spends(b.transactions) && h !in Supply.HashesOf(Creates(b.transactions))
    requires h in SpendsOfInputs(tx.inputs) && Funded(tx, Plain(s.utxos))
    ensures var added := WithTx(Submitted(s, b).state, tx, at);
            && added.outcome == Pass && added.state.mempool == [Pooled(at, tx)]
            && PoolOf(added.state) && !PoolOf(WithRebuiltUtxos(added.state))
  {
    Marks.FaultLeaves(s, b);
    ReceiveTracked(s, b);
    var f := Submitted(s, b).state;
    PoolsIntoEmpty(tx, at, f.utxos);
    var added := WithTx(f, tx, at).state;
    InsertKeepsOutputs(tx, at, f.utxos, f.mempool);
    assert added.blocks + [] == added.blocks;
    RebuiltTracked(added, []);
    NotUnspentAfter(s, b, h);
    assert Pooled(at, tx) in added.mempool;
    assert !Funded(tx, Plain(WithRebuiltUtxos(added).utxos));
  }

  lemma NotUnspentAfter(s: State, b: Block, h: Hash)
    requires h in Spends(b.transactions) && h !in Supply.HashesOf(Creates(b.transactions))
    ensures h !in Unspent(s.blocks + [b])
  {
    UnspentSnoc(s.blocks, b);
    SpentIsGone(Unspent(s.blocks), b.transactions, h);
  }
}
