/** Marks over whole runs: a mark outlives its transaction only behind a block whose retarget
    panicked, and only until the next rebuild. */
module Marks {
  import opened Types
  import opened BlockRules
  import opened Replay
  import opened Chain
  import opened Mempool
  import opened PoolConsistency
  import opened Ledger
  import opened Node
  import Difficulty
  import Panics

  /** Orphaned marks are left only right after a retarget height, on what its block spent. */
  ghost predicate OrphansExplained(s: State) {
    forall h :: Orphan(s.utxos, s.mempool, h) ==>
                  Difficulty.AtRetarget(s.blocks) && h in Spends(Last(s.blocks).transactions)
  }

  lemma UnmarkedExplained(s: State)
    requires s.utxos == Unmarked(s.utxos)
    ensures OrphansExplained(s)
  {
    NoMarks(s.utxos, s.mempool);
    NoOrphans(s.utxos, s.mempool);
  }

  lemma OffRetargetHeights(s: State)
    requires OrphansExplained(s) && !Difficulty.AtRetarget(s.blocks)
    ensures MarksReferred(s.utxos, s.mempool)
  {
    NoOrphans(s.utxos, s.mempool);
  }

  // ---------- one step ----------

  /** A panicking retarget leaves the pool without the block's transactions and the marks as they were. */
  lemma FaultLeaves(s: State, b: Block)
    requires Faults(s, b)
    ensures Submitted(s, b).state
         == State(s.blocks + [b], s.utxos, s.target, WithoutHashes(s.mempool, TxHashes(b.transactions)))
    ensures Difficulty.AtRetarget(s.blocks + [b]) && !Difficulty.AtRetarget(s.blocks)
  {
    Panics.FaultsIffRetargetPanics(s, b);
    PushedWhenChecked(s, b);
    NoRetargetTwiceInARow(s.blocks, b);
  }

  /** An entry the block takes out. */
  ghost predicate TakenOut(p: Pooled, s: State, b: Block) {
    p in s.mempool && HashTx(p.tx) in TxHashes(b.transactions)
  }

  lemma TakenOutOrStays(s: State, b: Block, h: Hash)
    requires Referred(s.mempool, h)
    ensures || Referred(WithoutHashes(s.mempool, TxHashes(b.transactions)), h)
            || exists p :: TakenOut(p, s, b) && Refers(p, h)
  {
    var p :| p in s.mempool && Refers(p, h);
    WithoutHashesExactly(s.mempool, TxHashes(b.transactions), p);
    assert p in WithoutHashes(s.mempool, TxHashes(b.transactions)) || TakenOut(p, s, b);
  }

  /** What the marks are after a fault: all of them refer to pooled transactions exactly if each marked
      input of an entry the block takes out is also an input of an entry that stays. */
  lemma MarksAfterFaultIff(s: State, b: Block)
    requires Faults(s, b) && MarksReferred(s.utxos, s.mempool)
    ensures var f := Submitted(s, b).state;
            MarksReferred(f.utxos, f.mempool) <==>
              forall p, h :: TakenOut(p, s, b) && Refers(p, h) && IsMarked(s.utxos, h) ==> Referred(f.mempool, h)
  {
    FaultLeaves(s, b);
    var f := Submitted(s, b).state;
    if forall p, h :: TakenOut(p, s, b) && Refers(p, h) && IsMarked(s.utxos, h) ==> Referred(f.mempool, h) {
      forall h | IsMarked(f.utxos, h)
        ensures Referred(f.mempool, h)
      {
        TakenOutOrStays(s, b, h);
      }
    }
  }

  lemma TakenOutSpent(p: Pooled, s: State, b: Block, h: Hash)
    requires TxHashInjective() && TakenOut(p, s, b) && Refers(p, h)
    ensures h in Spends(b.transactions)
  {
    var tx :| tx in b.transactions && HashTx(tx) == HashTx(p.tx);
    var i :| 0 <= i < |b.transactions| && b.transactions[i] == tx;
    SpentSomewhere(b.transactions, i, h);
  }

  lemma ReceiveExplained(s: State, b: Block)
    requires TxHashInjective() && Tracked(s) && OrphansExplained(s)
    ensures OrphansExplained(Submitted(s, b).state)
  {
    var after := Submitted(s, b).state;
    if Faults(s, b) {
      FaultLeaves(s, b);
      OffRetargetHeights(s);
      InitLastSnoc(s.blocks, b);
      forall h | Orphan(after.utxos, after.mempool, h)
        ensures h in Spends(b.transactions)
      {
        TakenOutOrStays(s, b, h);
        var p :| TakenOut(p, s, b) && Refers(p, h);
        TakenOutSpent(p, s, b, h);
      }
    } else if CheckBlock(s.blocks, Plain(s.utxos), b) == Pass {
      PushedWhenChecked(s, b);
      RebuiltTracked(s, [b]);
      UnmarkedExplained(after);
    }
  }

  lemma StepExplained(n: Node, step: Step)
    requires TxHashInjective() && AllTracked(n) && OrphansExplained(n.ledger)
    ensures OrphansExplained(Execute(n, step).ledger)
  {
    var s, after := n.ledger, Execute(n, step).ledger;
    match step
    case Receive(b) =>
      ReceiveExplained(s, b);
    case Pool(tx, at) =>
      forall h | Orphan(after.utxos, after.mempool, h)
        ensures Orphan(s.utxos, s.mempool, h)
      {
        InsertOrphansNothing(tx, at, s.utxos, s.mempool, h);
      }
    case Expire(now) =>
      forall h | Orphan(after.utxos, after.mempool, h)
        ensures Orphan(s.utxos, s.mempool, h)
      {
        ExpiryOrphansNothing(now, s.utxos, s.mempool, h);
      }
    case SyncRebuild =>
      assert s.blocks + [] == s.blocks;
      RebuiltTracked(s, []);
      UnmarkedExplained(after);
    case SyncRetarget =>
    case Save =>
    case Restart =>
      if n.file.Some? {
        LoadedTracked(n.file.value);
      }
      UnmarkedExplained(after);
  }

  // ---------- whole runs ----------

  /** In every run, whatever panics on the way, a marked output is an input of a pooled transaction, or
      the chain is at a retarget height and its last block spent the output. */
  lemma {:induction false} MarksInEveryRun(steps: seq<Step>)
    requires TxHashInjective()
    ensures OrphansExplained(Run(steps).ledger)
    ensures !Difficulty.AtRetarget(Run(steps).ledger.blocks) ==>
              MarksReferred(Run(steps).ledger.utxos, Run(steps).ledger.mempool)
    decreases |steps|
  {
    if steps != [] {
      var before := steps[..|steps| - 1];
      MarksInEveryRun(before);
      EveryRunTracked(before);
      StepExplained(Run(before), steps[|steps| - 1]);
    }
    if !Difficulty.AtRetarget(Run(steps).ledger.blocks) {
      OffRetargetHeights(Run(steps).ledger);
    }
  }
}
