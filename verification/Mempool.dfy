/** The pool of transactions waiting for a block, and the marks it leaves in the UTXO set. */
module Mempool {
  import opened Types
  import opened BlockRules
  import opened Replay

  datatype Pooled = Pooled(inserted: Timestamp, tx: Tx)

  // ---------- marks ----------

  /** Sets the mark of the listed outputs, where they exist. */
  function SetMarks(utxos: UtxoSet, hs: seq<Hash>, mark: bool): UtxoSet {
    map h | h in utxos :: if h in hs then Utxo(mark, utxos[h].output) else utxos[h]
  }

  predicate IsMarked(utxos: UtxoSet, h: Hash) {
    h in utxos && utxos[h].marked
  }

  // ---------- fees ----------

  /** The amounts of the inputs that are present; absent ones are skipped. */
  function PresentValue(inputs: seq<TxInput>, outs: Outputs): nat {
    if inputs == [] then 0
    else
      var h := inputs[0].prevTxOutputHash;
      (if h in outs then outs[h].amount else 0) + PresentValue(inputs[1..], outs)
  }

  /** What the inputs are worth over what the outputs pay. */
  function Surplus(tx: Tx, outs: Outputs): int {
    PresentValue(tx.inputs, outs) - SumOutputs(tx.outputs)
  }

  /** `Tx::fee`: fails where a 64-bit sum or the difference leaves its range. */
  function TxFee(tx: Tx, outs: Outputs): Result<nat> {
    if PresentValue(tx.inputs, outs) > U64_MAX || SumOutputs(tx.outputs) > U64_MAX || Surplus(tx, outs) < 0
    then Failure(Overflow)
    else Success(Surplus(tx, outs))
  }

  // ---------- sorting ----------

  /** Puts a pooled transaction behind those with no higher fee. */
  function InsertByFee(pool: seq<Pooled>, p: Pooled, outs: Outputs): seq<Pooled> {
    if pool == [] || Surplus(pool[|pool| - 1].tx, outs) <= Surplus(p.tx, outs) then pool + [p]
    else InsertByFee(pool[..|pool| - 1], p, outs) + [pool[|pool| - 1]]
  }

  /** The stable sort by ascending fee. */
  function SortByFee(pool: seq<Pooled>, outs: Outputs): seq<Pooled> {
    if pool == [] then []
    else InsertByFee(SortByFee(pool[..|pool| - 1], outs), pool[|pool| - 1], outs)
  }

  ghost predicate Ascending(pool: seq<Pooled>, outs: Outputs) {
    forall i, j :: 0 <= i < j < |pool| ==> Surplus(pool[i].tx, outs) <= Surplus(pool[j].tx, outs)
  }

  /** The entries with a given fee, in order. */
  function WithFee(pool: seq<Pooled>, fee: int, outs: Outputs): seq<Pooled> {
    if pool == [] then []
    else
      var n := |pool| - 1;
      WithFee(pool[..n], fee, outs) + (if Surplus(pool[n].tx, outs) == fee then [pool[n]] else [])
  }

  lemma {:induction false} InsertByFeeKeeps(pool: seq<Pooled>, p: Pooled, outs: Outputs)
    ensures multiset(InsertByFee(pool, p, outs)) == multiset(pool) + multiset{p}
    decreases |pool|
  {
    if pool != [] {
      var n := |pool| - 1;
      assert pool == pool[..n] + [pool[n]];
      InsertByFeeKeeps(pool[..n], p, outs);
    }
  }

  lemma AscendingSnoc(front: seq<Pooled>, last: Pooled, outs: Outputs)
    requires Ascending(front, outs)
    requires forall q :: q in front ==> Surplus(q.tx, outs) <= Surplus(last.tx, outs)
    ensures Ascending(front + [last], outs)
  {
    var all := front + [last];
    forall i, j | 0 <= i < j < |all|
      ensures Surplus(all[i].tx, outs) <= Surplus(all[j].tx, outs)
    {
      assert all[i] == front[i] && front[i] in front;
    }
  }

  lemma {:induction false} InsertByFeeAscends(pool: seq<Pooled>, p: Pooled, outs: Outputs)
    requires Ascending(pool, outs)
    ensures Ascending(InsertByFee(pool, p, outs), outs)
    decreases |pool|
  {
    var n := |pool| - 1;
    if pool == [] {
    } else if Surplus(pool[n].tx, outs) <= Surplus(p.tx, outs) {
      forall q | q in pool
        ensures Surplus(q.tx, outs) <= Surplus(p.tx, outs)
      {
        var j :| 0 <= j < |pool| && pool[j] == q;
        assert Surplus(pool[j].tx, outs) <= Surplus(pool[n].tx, outs);
      }
      AscendingSnoc(pool, p, outs);
    } else {
      InsertByFeeAscends(pool[..n], p, outs);
      InsertByFeeKeeps(pool[..n], p, outs);
      var front := InsertByFee(pool[..n], p, outs);
      forall q | q in front
        ensures Surplus(q.tx, outs) <= Surplus(pool[n].tx, outs)
      {
        assert q in multiset(front);
        if q != p {
          var j :| 0 <= j < n && pool[..n][j] == q;
          assert Surplus(pool[j].tx, outs) <= Surplus(pool[n].tx, outs);
        }
      }
      AscendingSnoc(front, pool[n], outs);
    }
  }

  lemma WithFeeSnoc(pool: seq<Pooled>, p: Pooled, fee: int, outs: Outputs)
    ensures WithFee(pool + [p], fee, outs)
         == WithFee(pool, fee, outs) + (if Surplus(p.tx, outs) == fee then [p] else [])
  {
    assert (pool + [p])[..|pool|] == pool;
  }

  lemma OneEmptyCommutes(front: seq<Pooled>, a: seq<Pooled>, b: seq<Pooled>)
    requires a == [] || b == []
    ensures front + a + b == front + b + a
  {
    assert front + [] == front;
  }

  lemma WithFeeSwap(front: seq<Pooled>, last: Pooled, p: Pooled, fee: int, outs: Outputs)
    requires Surplus(last.tx, outs) != Surplus(p.tx, outs)
    ensures WithFee(front + [last] + [p], fee, outs) == WithFee(front + [p] + [last], fee, outs)
  {
    WithFeeSnoc(front, last, fee, outs);
    WithFeeSnoc(front + [last], p, fee, outs);
    WithFeeSnoc(front, p, fee, outs);
    WithFeeSnoc(front + [p], last, fee, outs);
    OneEmptyCommutes(WithFee(front, fee, outs),
                     if Surplus(last.tx, outs) == fee then [last] else [],
                     if Surplus(p.tx, outs) == fee then [p] else []);
  }

  lemma InsertBelowLast(pool: seq<Pooled>, p: Pooled, outs: Outputs)
    requires pool != [] && Surplus(pool[|pool| - 1].tx, outs) > Surplus(p.tx, outs)
    ensures InsertByFee(pool, p, outs) == InsertByFee(pool[..|pool| - 1], p, outs) + [pool[|pool| - 1]]
  {
  }

  lemma WithFeeSame(a: seq<Pooled>, b: seq<Pooled>, last: Pooled, fee: int, outs: Outputs)
    requires WithFee(a, fee, outs) == WithFee(b, fee, outs)
    ensures WithFee(a + [last], fee, outs) == WithFee(b + [last], fee, outs)
  {
    WithFeeSnoc(a, last, fee, outs);
    WithFeeSnoc(b, last, fee, outs);
  }

  lemma InsertStableStep(
    inserted: seq<Pooled>, front: seq<Pooled>, last: Pooled, p: Pooled, fee: int, outs: Outputs)
    requires WithFee(inserted, fee, outs) == WithFee(front + [p], fee, outs)
    requires Surplus(last.tx, outs) > Surplus(p.tx, outs)
    ensures WithFee(inserted + [last], fee, outs) == WithFee(front + [last] + [p], fee, outs)
  {
    WithFeeSame(inserted, front + [p], last, fee, outs);
    WithFeeSwap(front, last, p, fee, outs);
  }

  lemma {:induction false} InsertByFeeStable(pool: seq<Pooled>, p: Pooled, fee: int, outs: Outputs)
    ensures WithFee(InsertByFee(pool, p, outs), fee, outs) == WithFee(pool + [p], fee, outs)
    decreases |pool|
  {
    if pool != [] && Surplus(pool[|pool| - 1].tx, outs) > Surplus(p.tx, outs) {
      var front, last := pool[..|pool| - 1], pool[|pool| - 1];
      assert pool == front + [last];
      InsertByFeeStable(front, p, fee, outs);
      InsertBelowLast(pool, p, outs);
      InsertStableStep(InsertByFee(front, p, outs), front, last, p, fee, outs);
    }
  }

  lemma {:induction false} SortByFeeStable(pool: seq<Pooled>, fee: int, outs: Outputs)
    ensures WithFee(SortByFee(pool, outs), fee, outs) == WithFee(pool, fee, outs)
    decreases |pool|
  {
    if pool != [] {
      var n := |pool| - 1;
      var rest := SortByFee(pool[..n], outs);
      SortByFeeStable(pool[..n], fee, outs);
      InsertByFeeStable(rest, pool[n], fee, outs);
      WithFeeSnoc(rest, pool[n], fee, outs);
    }
  }

  /** The sort returns the same entries in ascending order of fee. */
  lemma {:induction false} SortByFeeSorts(pool: seq<Pooled>, outs: Outputs)
    ensures multiset(SortByFee(pool, outs)) == multiset(pool)
    ensures Ascending(SortByFee(pool, outs), outs)
    decreases |pool|
  {
    if pool != [] {
      var n := |pool| - 1;
      var rest := SortByFee(pool[..n], outs);
      assert pool == pool[..n] + [pool[n]];
      SortByFeeSorts(pool[..n], outs);
      InsertByFeeKeeps(rest, pool[n], outs);
      InsertByFeeAscends(rest, pool[n], outs);
    }
  }

  /** How many entries pay no higher fee. */
  function NoHigher(pool: seq<Pooled>, fee: int, outs: Outputs): (n: nat)
    ensures n <= |pool|
  {
    if pool == [] then 0
    else NoHigher(pool[..|pool| - 1], fee, outs) + (if Surplus(pool[|pool| - 1].tx, outs) <= fee then 1 else 0)
  }

  lemma {:induction false} NoneHigher(pool: seq<Pooled>, fee: int, outs: Outputs)
    requires forall i :: 0 <= i < |pool| ==> Surplus(pool[i].tx, outs) <= fee
    ensures NoHigher(pool, fee, outs) == |pool|
    decreases |pool|
  {
    if pool != [] {
      NoneHigher(pool[..|pool| - 1], fee, outs);
    }
  }

  lemma SplitsSnoc(front: seq<Pooled>, last: Pooled, p: Pooled, k: nat)
    requires k <= |front|
    ensures front[..k] + [p] + front[k..] + [last] == (front + [last])[..k] + [p] + (front + [last])[k..]
  {
  }

  /** In a sorted pool the newcomer lands right behind the entries with no higher fee. */
  lemma {:induction false} InsertByFeeAt(pool: seq<Pooled>, p: Pooled, outs: Outputs)
    requires Ascending(pool, outs)
    ensures var k := NoHigher(pool, Surplus(p.tx, outs), outs);
            InsertByFee(pool, p, outs) == pool[..k] + [p] + pool[k..]
    decreases |pool|
  {
    if pool != [] {
      var front, last := pool[..|pool| - 1], pool[|pool| - 1];
      if Surplus(last.tx, outs) <= Surplus(p.tx, outs) {
        NoneHigher(pool, Surplus(p.tx, outs), outs);
      } else {
        InsertByFeeAt(front, p, outs);
        assert pool == front + [last];
        SplitsSnoc(front, last, p, NoHigher(front, Surplus(p.tx, outs), outs));
      }
    }
  }

  lemma LastStaysLast(front: seq<Pooled>, last: Pooled, outs: Outputs)
    requires Ascending(front + [last], outs)
    ensures Ascending(front, outs) && InsertByFee(front, last, outs) == front + [last]
  {
    var pool := front + [last];
    forall i, j | 0 <= i < j < |front|
      ensures Surplus(front[i].tx, outs) <= Surplus(front[j].tx, outs)
    {
      assert pool[i] == front[i] && pool[j] == front[j];
    }
    if front != [] {
      assert Surplus(pool[|front| - 1].tx, outs) <= Surplus(pool[|front|].tx, outs);
    }
  }

  /** Sorting a sorted pool leaves it as it is. */
  lemma {:induction false} SortByFeeSorted(pool: seq<Pooled>, outs: Outputs)
    requires Ascending(pool, outs)
    ensures SortByFee(pool, outs) == pool
    decreases |pool|
  {
    if pool != [] {
      var n := |pool| - 1;
      assert pool == pool[..n] + [pool[n]];
      LastStaysLast(pool[..n], pool[n], outs);
      SortByFeeSorted(pool[..n], outs);
    }
  }

  // ---------- insertion ----------

  /** The first pooled transaction one of whose outputs hashes to `h`. */
  function FirstCreator(pool: seq<Pooled>, h: Hash): Option<nat> {
    if pool == [] then None
    else if exists o :: o in pool[0].tx.outputs && HashOutput(o) == h then Some(0)
    else
      match FirstCreator(pool[1..], h)
      case None => None
      case Some(i) => Some(i + 1)
  }

  function RemoveAt(pool: seq<Pooled>, i: nat): seq<Pooled>
    requires i < |pool|
  {
    pool[..i] + pool[i + 1..]
  }

  function CheckInputs(inputs: seq<TxInput>, utxos: UtxoSet, seen: set<Hash>): Outcome {
    if inputs == [] then Pass
    else
      var h := inputs[0].prevTxOutputHash;
      if h !in utxos then Fail(MissingOutput(h))
      else if h in seen then Fail(DoubleSpend(h))
      else CheckInputs(inputs[1..], utxos, seen + {h})
  }

  /** The pool and the marks after the replacement loop; `stopped` is the outcome of an early
      return, which leaves what the loop has already done. */
  datatype Displaced = Displaced(utxos: UtxoSet, pool: seq<Pooled>, stopped: Option<Outcome>)

  lemma FirstCreatorInRange(pool: seq<Pooled>, h: Hash)
    ensures FirstCreator(pool, h).Some? ==> FirstCreator(pool, h).value < |pool|
  {
    if pool != [] {
      FirstCreatorInRange(pool[1..], h);
    }
  }

  /** What the loop does for one input. */
  function DisplaceOne(tx: Tx, h: Hash, utxos: UtxoSet, pool: seq<Pooled>): Displaced {
    if !IsMarked(utxos, h) then Displaced(utxos, pool, None)
    else
      match FirstCreator(pool, h)
      case None => Displaced(SetMarks(utxos, [h], false), pool, None)
      case Some(i) =>
        FirstCreatorInRange(pool, h);
        var older, newer := TxFee(pool[i].tx, Plain(utxos)), TxFee(tx, Plain(utxos));
        if older.Failure? then Displaced(utxos, pool, Some(Fail(older.error)))
        else if newer.Failure? then Displaced(utxos, pool, Some(Fail(newer.error)))
        else if older.value > newer.value then Displaced(utxos, pool, Some(Pass))
        else Displaced(SetMarks(utxos, SpendsOfInputs(pool[i].tx.inputs), false), RemoveAt(pool, i), None)
  }

  function Displace(tx: Tx, inputs: seq<TxInput>, utxos: UtxoSet, pool: seq<Pooled>): Displaced
    decreases |inputs|
  {
    if inputs == [] then Displaced(utxos, pool, None)
    else
      var one := DisplaceOne(tx, inputs[0].prevTxOutputHash, utxos, pool);
      if one.stopped.Some? then one else Displace(tx, inputs[1..], one.utxos, one.pool)
  }

  datatype Inserted = Inserted(utxos: UtxoSet, pool: seq<Pooled>, outcome: Outcome)

  predicate FeesDefined(pool: seq<Pooled>, outs: Outputs) {
    forall i :: 0 <= i < |pool| ==> TxFee(pool[i].tx, outs).Success?
  }

  /** Sorting computes no fee at all for fewer than two entries, and panics when it computes one
      that is not defined; the order it leaves then is not specified, and kept here. */
  function Sorted(pool: seq<Pooled>, outs: Outputs): Result<seq<Pooled>> {
    if |pool| < 2 then Success(pool)
    else if FeesDefined(pool, outs) then Success(SortByFee(pool, outs))
    else Failure(Overflow)
  }

  /** The last part of an insertion: the sums, the marks, the push and the sort. */
  function Enqueue(tx: Tx, now: Timestamp, utxos: UtxoSet, pool: seq<Pooled>): Inserted {
    var paidIn, paidOut := PresentValue(tx.inputs, Plain(utxos)), SumOutputs(tx.outputs);
    if paidIn > U64_MAX || paidOut > U64_MAX then Inserted(utxos, pool, Fail(Overflow))
    else if paidIn < paidOut then Inserted(utxos, pool, Fail(SpendingMoreThanAvailable))
    else
      var marked := SetMarks(utxos, SpendsOfInputs(tx.inputs), true);
      var pushed := pool + [Pooled(now, tx)];
      match Sorted(pushed, Plain(marked))
      case Success(sorted) => Inserted(marked, sorted, Pass)
      case Failure(e) => Inserted(marked, pushed, Fail(e))
  }

  function InPool(pool: seq<Pooled>, hash: Hash): bool {
    exists i :: 0 <= i < |pool| && HashTx(pool[i].tx) == hash
  }

  function Insert(tx: Tx, now: Timestamp, utxos: UtxoSet, pool: seq<Pooled>): Inserted {
    if InPool(pool, HashTx(tx)) then Inserted(utxos, pool, Fail(TxAlreadyInMempool(HashTx(tx))))
    else
      var check := CheckInputs(tx.inputs, utxos, {});
      if check.Fail? then Inserted(utxos, pool, check)
      else
        var displaced := Displace(tx, tx.inputs, utxos, pool);
        if displaced.stopped.Some? then Inserted(displaced.utxos, displaced.pool, displaced.stopped.value)
        else Enqueue(tx, now, displaced.utxos, displaced.pool)
  }

  // ---------- removal ----------

  function WithoutHashes(pool: seq<Pooled>, hashes: set<Hash>): seq<Pooled> {
    if pool == [] then []
    else (if HashTx(pool[0].tx) in hashes then [] else [pool[0]]) + WithoutHashes(pool[1..], hashes)
  }

  predicate Expired(p: Pooled, now: Timestamp) {
    now - p.inserted > MAX_MEMPOOL_TRANSACTION_AGE * NANOS_PER_SECOND
  }

  function Unexpired(pool: seq<Pooled>, now: Timestamp): seq<Pooled> {
    if pool == [] then []
    else (if Expired(pool[0], now) then [] else [pool[0]]) + Unexpired(pool[1..], now)
  }

  /** The outputs referenced by the expired transactions. */
  function ExpiredSpends(pool: seq<Pooled>, now: Timestamp): seq<Hash> {
    if pool == [] then []
    else (if Expired(pool[0], now) then SpendsOfInputs(pool[0].tx.inputs) else []) + ExpiredSpends(pool[1..], now)
  }

  // ---------- marks never outlive their transaction ----------

  ghost predicate Refers(p: Pooled, h: Hash) {
    h in SpendsOfInputs(p.tx.inputs)
  }

  ghost predicate Referred(pool: seq<Pooled>, h: Hash) {
    exists p :: p in pool && Refers(p, h)
  }

  /** Every marked output is an input of a transaction in the pool. */
  ghost predicate MarksReferred(utxos: UtxoSet, pool: seq<Pooled>) {
    forall h :: IsMarked(utxos, h) ==> Referred(pool, h)
  }

  /** The output is marked, and no transaction in the pool has it as an input. */
  ghost predicate Orphan(utxos: UtxoSet, pool: seq<Pooled>, h: Hash) {
    IsMarked(utxos, h) && !Referred(pool, h)
  }

  lemma NoOrphans(utxos: UtxoSet, pool: seq<Pooled>)
    ensures MarksReferred(utxos, pool) <==> forall h :: !Orphan(utxos, pool, h)
  {
    if forall h :: !Orphan(utxos, pool, h) {
      forall h | IsMarked(utxos, h)
        ensures Referred(pool, h)
      {
        assert !Orphan(utxos, pool, h);
      }
    }
  }

  lemma SetMarksPlain(utxos: UtxoSet, hs: seq<Hash>, mark: bool)
    ensures Plain(SetMarks(utxos, hs, mark)) == Plain(utxos)
    ensures forall h :: IsMarked(SetMarks(utxos, hs, mark), h) <==>
                          h in utxos && if h in hs then mark else utxos[h].marked
  {
  }

  lemma StaysReferred(pool: seq<Pooled>, gone: nat, h: Hash)
    requires gone < |pool| && Referred(pool, h) && !Refers(pool[gone], h)
    ensures Referred(RemoveAt(pool, gone), h)
  {
    var p :| p in pool && Refers(p, h);
    var i :| 0 <= i < |pool| && pool[i] == p;
    assert RemoveAt(pool, gone)[if i < gone then i else i - 1] == p;
  }

  lemma RemovalOrphansNothing(utxos: UtxoSet, pool: seq<Pooled>, gone: nat, h: Hash)
    requires gone < |pool|
    requires Orphan(SetMarks(utxos, SpendsOfInputs(pool[gone].tx.inputs), false), RemoveAt(pool, gone), h)
    ensures Orphan(utxos, pool, h)
  {
    SetMarksPlain(utxos, SpendsOfInputs(pool[gone].tx.inputs), false);
    if Referred(pool, h) {
      StaysReferred(pool, gone, h);
    }
  }

  lemma DisplaceOneKeepsOutputs(tx: Tx, h: Hash, utxos: UtxoSet, pool: seq<Pooled>)
    ensures Plain(DisplaceOne(tx, h, utxos, pool).utxos) == Plain(utxos)
  {
    FirstCreatorInRange(pool, h);
    match FirstCreator(pool, h)
    case None =>
      SetMarksPlain(utxos, [h], false);
    case Some(gone) =>
      SetMarksPlain(utxos, SpendsOfInputs(pool[gone].tx.inputs), false);
  }

  /** The replacement loop changes marks only. */
  lemma {:induction false} DisplaceKeepsOutputs(tx: Tx, inputs: seq<TxInput>, utxos: UtxoSet, pool: seq<Pooled>)
    ensures Plain(Displace(tx, inputs, utxos, pool).utxos) == Plain(utxos)
    decreases |inputs|
  {
    if inputs != [] {
      var one := DisplaceOne(tx, inputs[0].prevTxOutputHash, utxos, pool);
      DisplaceOneKeepsOutputs(tx, inputs[0].prevTxOutputHash, utxos, pool);
      DisplaceKeepsOutputs(tx, inputs[1..], one.utxos, one.pool);
    }
  }

  /** Whatever an insertion does, and whatever the marks were, no output is gained, lost or changed. */
  lemma InsertKeepsOutputs(tx: Tx, now: Timestamp, utxos: UtxoSet, pool: seq<Pooled>)
    ensures Plain(Insert(tx, now, utxos, pool).utxos) == Plain(utxos)
  {
    DisplaceKeepsOutputs(tx, tx.inputs, utxos, pool);
    SetMarksPlain(Displace(tx, tx.inputs, utxos, pool).utxos, SpendsOfInputs(tx.inputs), true);
  }

  lemma DisplaceOneOrphansNothing(tx: Tx, k: Hash, utxos: UtxoSet, pool: seq<Pooled>, h: Hash)
    requires var d := DisplaceOne(tx, k, utxos, pool);
             Orphan(d.utxos, d.pool, h)
    ensures Orphan(utxos, pool, h)
  {
    FirstCreatorInRange(pool, k);
    SetMarksPlain(utxos, [k], false);
    var d := DisplaceOne(tx, k, utxos, pool);
    if FirstCreator(pool, k).Some? && d.pool != pool {
      RemovalOrphansNothing(utxos, pool, FirstCreator(pool, k).value, h);
    }
  }

  lemma {:induction false} DisplaceOrphansNothing(
    tx: Tx, inputs: seq<TxInput>, utxos: UtxoSet, pool: seq<Pooled>, h: Hash)
    requires var d := Displace(tx, inputs, utxos, pool);
             Orphan(d.utxos, d.pool, h)
    ensures Orphan(utxos, pool, h)
    decreases |inputs|
  {
    if inputs != [] {
      var k := inputs[0].prevTxOutputHash;
      var one := DisplaceOne(tx, k, utxos, pool);
      if one.stopped == None {
        DisplaceOrphansNothing(tx, inputs[1..], one.utxos, one.pool, h);
      }
      DisplaceOneOrphansNothing(tx, k, utxos, pool, h);
    }
  }

  lemma SortedKeeps(pool: seq<Pooled>, outs: Outputs)
    ensures Sorted(pool, outs).Success? ==> multiset(Sorted(pool, outs).value) == multiset(pool)
  {
    SortByFeeSorts(pool, outs);
  }

  lemma EnqueueShape(tx: Tx, now: Timestamp, utxos: UtxoSet, pool: seq<Pooled>)
    ensures var r := Enqueue(tx, now, utxos, pool);
            var marked, pushed := SetMarks(utxos, SpendsOfInputs(tx.inputs), true), pool + [Pooled(now, tx)];
            || (r.utxos == utxos && r.pool == pool && r.outcome.Fail?)
            || (r.utxos == marked && r.pool == pushed)
            || (r.utxos == marked && Sorted(pushed, Plain(marked)) == Success(r.pool))
  {
  }

  lemma PushedMultiset(pool: seq<Pooled>, p: Pooled)
    ensures multiset(pool + [p]) == multiset(pool) + multiset{p}
  {
  }

  /** The outcome of the last part of an insertion: nothing changes, or the inputs are marked and
      the transaction is pooled. */
  lemma EnqueueEffect(tx: Tx, now: Timestamp, utxos: UtxoSet, pool: seq<Pooled>)
    ensures var r := Enqueue(tx, now, utxos, pool);
            || (r.utxos == utxos && r.pool == pool && r.outcome.Fail?)
            || (r.utxos == SetMarks(utxos, SpendsOfInputs(tx.inputs), true)
                && multiset(r.pool) == multiset(pool) + multiset{Pooled(now, tx)})
  {
    EnqueueShape(tx, now, utxos, pool);
    PushedMultiset(pool, Pooled(now, tx));
    SortedKeeps(pool + [Pooled(now, tx)], Plain(SetMarks(utxos, SpendsOfInputs(tx.inputs), true)));
  }

  /** An insertion that meets no failure on the way is its last part. */
  lemma InsertIsEnqueue(tx: Tx, now: Timestamp, utxos: UtxoSet, pool: seq<Pooled>)
    requires !InPool(pool, HashTx(tx)) && CheckInputs(tx.inputs, utxos, {}) == Pass
    requires Displace(tx, tx.inputs, utxos, pool).stopped == None
    ensures var d := Displace(tx, tx.inputs, utxos, pool);
            Insert(tx, now, utxos, pool) == Enqueue(tx, now, d.utxos, d.pool)
  {
  }

  /** Where all fees are defined, the last part succeeds. */
  lemma EnqueuePasses(tx: Tx, now: Timestamp, utxos: UtxoSet, pool: seq<Pooled>)
    requires TxFee(tx, Plain(utxos)).Success?
    requires Sorted(pool + [Pooled(now, tx)], Plain(utxos)).Success?
    ensures Enqueue(tx, now, utxos, pool)
         == Inserted(SetMarks(utxos, SpendsOfInputs(tx.inputs), true),
                     Sorted(pool + [Pooled(now, tx)], Plain(utxos)).value, Pass)
  {
    SetMarksPlain(utxos, SpendsOfInputs(tx.inputs), true);
  }

  lemma EnqueueOrphansNothing(tx: Tx, now: Timestamp, utxos: UtxoSet, pool: seq<Pooled>, h: Hash)
    requires var r := Enqueue(tx, now, utxos, pool);
             Orphan(r.utxos, r.pool, h)
    ensures Orphan(utxos, pool, h)
  {
    var r, added := Enqueue(tx, now, utxos, pool), Pooled(now, tx);
    EnqueueEffect(tx, now, utxos, pool);
    SetMarksPlain(utxos, SpendsOfInputs(tx.inputs), true);
    if r.utxos != utxos || r.pool != pool {
      AddedReferred(pool, r.pool, added, h);
    }
  }

  lemma AddedReferred(pool: seq<Pooled>, longer: seq<Pooled>, added: Pooled, h: Hash)
    requires multiset(longer) == multiset(pool) + multiset{added}
    ensures Referred(longer, h) <==> Referred(pool, h) || Refers(added, h)
  {
    forall p
      ensures p in longer <==> p in pool || p == added
    {
      assert p in longer <==> p in multiset(longer);
      assert p in pool <==> p in multiset(pool);
    }
    assert added in longer;
  }

  /** Whatever an insertion does - insert, replace, return early or fail half way - it orphans no
      mark. */
  lemma InsertOrphansNothing(tx: Tx, now: Timestamp, utxos: UtxoSet, pool: seq<Pooled>, h: Hash)
    requires var r := Insert(tx, now, utxos, pool);
             Orphan(r.utxos, r.pool, h)
    ensures Orphan(utxos, pool, h)
  {
    var r, d := Insert(tx, now, utxos, pool), Displace(tx, tx.inputs, utxos, pool);
    if r.utxos != utxos || r.pool != pool {
      if d.stopped == None {
        EnqueueOrphansNothing(tx, now, d.utxos, d.pool, h);
      }
      DisplaceOrphansNothing(tx, tx.inputs, utxos, pool, h);
    }
  }

  /** So marked outputs stay inputs of pooled transactions, and no output is gained, lost or changed. */
  lemma InsertKeepsMarks(tx: Tx, now: Timestamp, utxos: UtxoSet, pool: seq<Pooled>)
    requires MarksReferred(utxos, pool)
    ensures var r := Insert(tx, now, utxos, pool);
            MarksReferred(r.utxos, r.pool) && Plain(r.utxos) == Plain(utxos)
  {
    var r := Insert(tx, now, utxos, pool);
    InsertKeepsOutputs(tx, now, utxos, pool);
    forall h
      ensures !Orphan(r.utxos, r.pool, h)
    {
      if Orphan(r.utxos, r.pool, h) {
        InsertOrphansNothing(tx, now, utxos, pool, h);
      }
    }
    NoOrphans(r.utxos, r.pool);
  }

  lemma {:induction false} ExpiryPartitions(pool: seq<Pooled>, now: Timestamp, h: Hash)
    ensures Referred(pool, h) ==> Referred(Unexpired(pool, now), h) || h in ExpiredSpends(pool, now)
  {
    if Referred(pool, h) {
      var p :| p in pool && Refers(p, h);
      if p == pool[0] {
        if !Expired(p, now) {
          assert Unexpired(pool, now)[0] == p;
        }
      } else {
        assert p in pool[1..];
        ExpiryPartitions(pool[1..], now, h);
        if Referred(Unexpired(pool[1..], now), h) {
          var q :| q in Unexpired(pool[1..], now) && Refers(q, h);
          assert q in Unexpired(pool, now);
        }
      }
    }
  }

  lemma ExpiryOrphansNothing(now: Timestamp, utxos: UtxoSet, pool: seq<Pooled>, h: Hash)
    requires Orphan(SetMarks(utxos, ExpiredSpends(pool, now), false), Unexpired(pool, now), h)
    ensures Orphan(utxos, pool, h)
  {
    SetMarksPlain(utxos, ExpiredSpends(pool, now), false);
    ExpiryPartitions(pool, now, h);
  }

  lemma ExpiryKeepsMarks(now: Timestamp, utxos: UtxoSet, pool: seq<Pooled>)
    requires MarksReferred(utxos, pool)
    ensures var after := SetMarks(utxos, ExpiredSpends(pool, now), false);
            MarksReferred(after, Unexpired(pool, now)) && Plain(after) == Plain(utxos)
  {
    var after := SetMarks(utxos, ExpiredSpends(pool, now), false);
    SetMarksPlain(utxos, ExpiredSpends(pool, now), false);
    forall h
      ensures !Orphan(after, Unexpired(pool, now), h)
    {
      if Orphan(after, Unexpired(pool, now), h) {
        ExpiryOrphansNothing(now, utxos, pool, h);
      }
    }
    NoOrphans(after, Unexpired(pool, now));
  }
}
