/** The ledger object: its state as a value, the steps as functions of that value, and the methods
    that carry them out in place. */
module Ledger {
  import opened Types
  import opened BlockRules
  import opened Replay
  import opened Chain
  import opened Mempool
  import Arithmetic
  import Difficulty
  import Merkle

  // ---------- the state and its steps ----------

  datatype State = State(blocks: seq<Block>, utxos: UtxoSet, target: nat, mempool: seq<Pooled>)

  const EMPTY := State([], map[], Difficulty.MIN_TARGET, [])

  function TxHashes(txs: seq<Tx>): set<Hash> {
    set tx | tx in txs :: HashTx(tx)
  }

  datatype Added = Added(state: State, outcome: Outcome)

  /** `add_block`.  A rejected block changes nothing.  An accepted one is pushed before the target is
      adjusted, so a panic of the adjustment leaves it pushed. */
  function WithBlock(s: State, b: Block): Added {
    var check := CheckBlock(s.blocks, Plain(s.utxos), b);
    if check.Fail? then Added(s, check)
    else
      var pool := WithoutHashes(s.mempool, TxHashes(b.transactions));
      var blocks := s.blocks + [b];
      match Difficulty.Retarget(blocks, s.target)
      case None => Added(State(blocks, s.utxos, s.target, pool), Fail(RetargetFault))
      case Some(t) => Added(State(blocks, s.utxos, t, pool), Pass)
  }

  function WithRebuiltUtxos(s: State): State {
    s.(utxos := Rebuilt(s.utxos, ChainOps(s.blocks)))
  }

  /** `try_adjust_target`; a panic leaves the state as it was. */
  function Retargeted(s: State): Added {
    match Difficulty.Retarget(s.blocks, s.target)
    case None => Added(s, Fail(RetargetFault))
    case Some(t) => Added(s.(target := t), Pass)
  }

  /** What loading a saved ledger and finishing a synchronisation have in common: rebuild the UTXO
      set, then retarget once more. */
  function RebuiltAndRetargeted(s: State): Added {
    Retargeted(WithRebuiltUtxos(s))
  }

  function WithTx(s: State, tx: Tx, now: Timestamp): Added {
    var r := Insert(tx, now, s.utxos, s.mempool);
    Added(s.(utxos := r.utxos, mempool := r.pool), r.outcome)
  }

  function CleanedUp(s: State, now: Timestamp): State {
    s.(utxos := SetMarks(s.utxos, ExpiredSpends(s.mempool, now), false), mempool := Unexpired(s.mempool, now))
  }

  /** What every caller does with a received block under one lock: add it and, if that succeeded,
      rebuild the UTXO set. */
  function Submitted(s: State, b: Block): Added {
    var added := WithBlock(s, b);
    if added.outcome == Pass then Added(WithRebuiltUtxos(added.state), Pass) else added
  }

  // ---------- the ledger in place ----------

  class Blockchain {
    var blocks: seq<Block>
    var utxoSet: UtxoSet
    var target: nat
    var mempool: seq<Pooled>

    function Value(): State
      reads this
    {
      State(blocks, utxoSet, target, mempool)
    }

    constructor ()
      ensures Value() == EMPTY
    {
      blocks, utxoSet, target, mempool := [], map[], Difficulty.MIN_TARGET, [];
    }

    function BlockHeight(): nat
      reads this
    {
      |blocks|
    }

    /** The subsidy as a shift; an overflow-checked shift fails at 64. */
    function CalculateBlockReward(): Result<nat>
      reads this
    {
      var halvings := BlockHeight() / HALVING_INTERVAL;
      if halvings >= 64 then Failure(Overflow) else Success(Arithmetic.ShiftRight(INITIAL_SUBSIDY, halvings))
    }

    method AddBlock(block: Block) returns (r: Outcome)
      modifies this
      ensures Added(Value(), r) == WithBlock(old(Value()), block)
    {
      if blocks == [] {
        if block.header.prevBlockHash != ZERO_HASH {
          return Fail(FirstBlockPrevHashNotZero);
        }
      } else {
        var lastBlock := blocks[|blocks| - 1];
        if block.header.prevBlockHash != HashHeader(lastBlock.header) {
          return Fail(PrevHashMismatch);
        }
        if HashHeader(block.header) > lastBlock.header.target {
          return Fail(TargetNotMet);
        }
        var root := Merkle.Calculate(block.transactions);
        if block.header.merkleRoot != root {
          return Fail(InvalidMerkleRoot);
        }
        if block.header.timestamp <= lastBlock.header.timestamp {
          return Fail(TimestampNotAfterPrevious);
        }
      }
      var verified := VerifyTransactions(block, |blocks|, Plain(utxoSet));
      if verified.Fail? {
        return verified;
      }
      mempool := WithoutHashes(mempool, TxHashes(block.transactions));
      blocks := blocks + [block];
      r := TryAdjustTarget();
    }

    method RebuildUtxoSet()
      modifies this`utxoSet
      ensures Value() == WithRebuiltUtxos(old(Value()))
    {
      ghost var start := utxoSet;
      for i := 0 to |blocks|
        invariant utxoSet == Rebuilt(start, ChainOps(blocks[..i]))
      {
        ghost var atBlock := utxoSet;
        var txs := blocks[i].transactions;
        for j := 0 to |txs|
          invariant utxoSet == Rebuilt(atBlock, TxsOps(txs[..j]))
        {
          ghost var atTx := utxoSet;
          var tx := txs[j];
          for k := 0 to |tx.inputs|
            invariant utxoSet == Rebuilt(atTx, SpendOps(tx.inputs)[..k])
          {
            RebuiltSnoc(atTx, SpendOps(tx.inputs), k);
            utxoSet := utxoSet - {tx.inputs[k].prevTxOutputHash};
          }
          ghost var atOutputs := utxoSet;
          for k := 0 to |tx.outputs|
            invariant utxoSet == Rebuilt(atOutputs, CreateOps(tx.outputs)[..k])
          {
            RebuiltSnoc(atOutputs, CreateOps(tx.outputs), k);
            utxoSet := utxoSet[HashOutput(tx.outputs[k]) := Utxo(false, tx.outputs[k])];
          }
          TxDone(atTx, tx);
          TxsOpsSnoc(txs, j);
          RebuiltConcat(atBlock, TxsOps(txs[..j]), TxOps(tx));
        }
        assert txs[..|txs|] == txs;
        ChainOpsSnoc(blocks, i);
        RebuiltConcat(start, ChainOps(blocks[..i]), TxsOps(txs));
      }
      assert blocks[..|blocks|] == blocks;
    }

    method TryAdjustTarget() returns (r: Outcome)
      modifies this`target
      ensures Added(Value(), r) == Retargeted(old(Value()))
    {
      if blocks == [] || |blocks| % DIFFICULTY_UPDATE_INTERVAL != 0 {
        return Pass;
      }
      var newTarget := Difficulty.Rescaled(target, Difficulty.IntervalSeconds(blocks));
      if newTarget == None {
        return Fail(RetargetFault);
      }
      target := newTarget.value;
      return Pass;
    }

    /** The node's `load_from_file` on a file's contents. */
    method LoadFrom(file: State) returns (r: Outcome)
      modifies this
      ensures Added(Value(), r) == RebuiltAndRetargeted(file)
    {
      blocks, utxoSet, target, mempool := file.blocks, file.utxos, file.target, file.mempool;
      RebuildUtxoSet();
      r := TryAdjustTarget();
    }

    method AddToMempool(tx: Tx, now: Timestamp) returns (r: Outcome)
      modifies this`utxoSet, this`mempool
      ensures Added(Value(), r) == WithTx(old(Value()), tx, now)
    {
      if InPool(mempool, HashTx(tx)) {
        return Fail(TxAlreadyInMempool(HashTx(tx)));
      }
      var seenInputs: set<Hash> := {};
      for i := 0 to |tx.inputs|
        invariant CheckInputs(tx.inputs[i..], utxoSet, seenInputs) == CheckInputs(tx.inputs, utxoSet, {})
      {
        var h := tx.inputs[i].prevTxOutputHash;
        if h !in utxoSet {
          return Fail(MissingOutput(h));
        }
        if h in seenInputs {
          return Fail(DoubleSpend(h));
        }
        seenInputs := seenInputs + {h};
      }
      for i := 0 to |tx.inputs|
        invariant Displace(tx, tx.inputs[i..], utxoSet, mempool)
               == Displace(tx, tx.inputs, old(utxoSet), old(mempool))
      {
        var h := tx.inputs[i].prevTxOutputHash;
        var stopped := DisplaceInput(tx, h);
        if stopped.Some? {
          return stopped.value;
        }
      }
      var txInputs := PresentValue(tx.inputs, Plain(utxoSet));
      var txOutputs := SumOutputs(tx.outputs);
      if txInputs > U64_MAX || txOutputs > U64_MAX {
        return Fail(Overflow);
      }
      if txInputs < txOutputs {
        return Fail(SpendingMoreThanAvailable);
      }
      MarkAll(SpendsOfInputs(tx.inputs), true);
      mempool := mempool + [Pooled(now, tx)];
      var sorted := Sorted(mempool, Plain(utxoSet));
      if sorted.Failure? {
        return Fail(sorted.error);
      }
      mempool := sorted.value;
      return Pass;
    }

    /** The body of the replacement loop. */
    method DisplaceInput(tx: Tx, h: Hash) returns (stopped: Option<Outcome>)
      modifies this`utxoSet, this`mempool
      ensures Displaced(utxoSet, mempool, stopped) == DisplaceOne(tx, h, old(utxoSet), old(mempool))
    {
      if !(h in utxoSet && utxoSet[h].marked) {
        return None;
      }
      var referencing := FirstCreator(mempool, h);
      FirstCreatorInRange(mempool, h);
      if referencing.Some? {
        var older := mempool[referencing.value].tx;
        var referencingFee := TxFee(older, Plain(utxoSet));
        if referencingFee.Failure? {
          return Some(Fail(referencingFee.error));
        }
        var fee := TxFee(tx, Plain(utxoSet));
        if fee.Failure? {
          return Some(Fail(fee.error));
        }
        if referencingFee.value > fee.value {
          return Some(Pass);
        }
        MarkAll(SpendsOfInputs(older.inputs), false);
        mempool := RemoveAt(mempool, referencing.value);
      } else {
        MarkAll([h], false);
      }
      return None;
    }

    /** The loops that set or clear the marks of listed outputs. */
    method MarkAll(hs: seq<Hash>, mark: bool)
      modifies this`utxoSet
      ensures utxoSet == SetMarks(old(utxoSet), hs, mark)
    {
      for i := 0 to |hs|
        invariant utxoSet == SetMarks(old(utxoSet), hs[..i], mark)
      {
        if hs[i] in utxoSet {
          utxoSet := utxoSet[hs[i] := Utxo(mark, utxoSet[hs[i]].output)];
        }
        assert hs[..i + 1] == hs[..i] + [hs[i]];
      }
      assert hs[..|hs|] == hs;
    }

    method CleanupMempool(now: Timestamp)
      modifies this`utxoSet, this`mempool
      ensures Value() == CleanedUp(old(Value()), now)
    {
      var utxosToUnmark := ExpiredSpends(mempool, now);
      mempool := Unexpired(mempool, now);
      MarkAll(utxosToUnmark, false);
    }

    /** The atomic step of every caller that receives a block. */
    method SubmitBlock(block: Block) returns (r: Outcome)
      modifies this
      ensures Added(Value(), r) == Submitted(old(Value()), block)
    {
      r := AddBlock(block);
      if r == Pass {
        RebuildUtxoSet();
      }
    }
  }

  lemma TxDone(utxos: UtxoSet, tx: Tx)
    ensures SpendOps(tx.inputs)[..|tx.inputs|] == SpendOps(tx.inputs)
    ensures CreateOps(tx.outputs)[..|tx.outputs|] == CreateOps(tx.outputs)
    ensures Rebuilt(Rebuilt(utxos, SpendOps(tx.inputs)), CreateOps(tx.outputs)) == Rebuilt(utxos, TxOps(tx))
  {
    RebuiltConcat(utxos, SpendOps(tx.inputs), CreateOps(tx.outputs));
  }
}
