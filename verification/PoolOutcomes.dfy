/** What the pool's operations do, entry by entry and mark by mark, and which outcome they report. */
module PoolOutcomes {
  import opened Types
  import opened BlockRules
  import opened Replay
  import opened Mempool
  import opened PoolConsistency
  import opened Ledger
  import opened Node
  import Chain

  // ---------- removal by a block and by age ----------

  lemma {:induction false} WithoutHashesCount(pool: seq<Pooled>, hashes: set<Hash>, p: Pooled)
    ensures multiset(WithoutHashes(pool, hashes))[p] == if HashTx(p.tx) in hashes then 0 else multiset(pool)[p]
    decreases |pool|
  {
    if pool != [] {
      WithoutHashesCount(pool[1..], hashes, p);
      assert pool == [pool[0]] + pool[1..];
    }
  }

  lemma {:induction false} UnexpiredCount(pool: seq<Pooled>, now: Timestamp, p: Pooled)
    ensures multiset(Unexpired(pool, now))[p]
         == if now - p.inserted > 600 * 1_000_000_000 then 0 else multiset(pool)[p]
    decreases |pool|
  {
    if pool != [] {
      UnexpiredCount(pool[1..], now, p);
      assert pool == [pool[0]] + pool[1..];
    }
  }

  /** The block contains the entry's transaction, going by its hash. */
  ghost predicate Contains(b: Block, p: Pooled) {
    exists t :: t in b.transactions && HashTx(t) == HashTx(p.tx)
  }

  /** A block that passes the checks, whether its retarget panics or not, takes out of the pool every
      copy of the transactions it contains and of no others, and leaves the rest in order. */
  lemma BlockEmptiesPool(s: State, b: Block, p: Pooled)
    requires Chain.CheckBlock(s.blocks, Plain(s.utxos), b) == Pass
    ensures var after := Submitted(s, b).state.mempool;
            && (p in after <==> p in s.mempool && !Contains(b, p))
            && multiset(after)[p] == (if Contains(b, p) then 0 else multiset(s.mempool)[p])
            && Subsequence(after, s.mempool)
  {
    PushedWhenChecked(s, b);
    var hashes := TxHashes(b.transactions);
    WithoutHashesExactly(s.mempool, hashes, p);
    WithoutHashesCount(s.mempool, hashes, p);
    WithoutHashesSubsequence(s.mempool, hashes);
    assert HashTx(p.tx) in hashes <==> Contains(b, p);
  }

  /** The entry is older than 600 seconds. */
  predicate TooOld(p: Pooled, now: Timestamp) {
    now - p.inserted > 600 * 1_000_000_000
  }

  lemma {:induction false} ExpiredSpendsExactly(pool: seq<Pooled>, now: Timestamp, h: Hash)
    ensures h in ExpiredSpends(pool, now) <==> exists p :: p in pool && TooOld(p, now) && Refers(p, h)
    decreases |pool|
  {
    if pool != [] {
      ExpiredSpendsExactly(pool[1..], now, h);
      forall p
        ensures p in pool <==> p == pool[0] || p in pool[1..]
      {
      }
      assert h in ExpiredSpends(pool, now) <==>
             (TooOld(pool[0], now) && Refers(pool[0], h)) || h in ExpiredSpends(pool[1..], now);
    }
  }

  /** A cleanup takes out every copy of the entries that are too old and of no others, leaves the rest in
      order, and clears the marks of their inputs and no others. */
  lemma CleanupExactly(s: State, now: Timestamp, p: Pooled, h: Hash)
    ensures var after := CleanedUp(s, now);
            && (p in after.mempool <==> p in s.mempool && !TooOld(p, now))
            && multiset(after.mempool)[p] == (if TooOld(p, now) then 0 else multiset(s.mempool)[p])
            && Subsequence(after.mempool, s.mempool)
            && (IsMarked(after.utxos, h) <==>
                  IsMarked(s.utxos, h) && !exists q :: q in s.mempool && TooOld(q, now) && Refers(q, h))
            && Plain(after.utxos) == Plain(s.utxos) && after.blocks == s.blocks && after.target == s.target
  {
    UnexpiredExactly(s.mempool, now, p);
    UnexpiredCount(s.mempool, now, p);
    UnexpiredSubsequence(s.mempool, now);
    ExpiredSpendsExactly(s.mempool, now, h);
    SetMarksPlain(s.utxos, ExpiredSpends(s.mempool, now), false);
  }

  // ---------- the checks of an insertion ----------

  lemma {:induction false} CheckInputsStops(inputs: seq<TxInput>, utxos: UtxoSet, seen: set<Hash>, i: nat)
    requires i < |inputs|
    requires var hs := SpendsOfInputs(inputs[..i]);
             AllIn(hs, Plain(utxos)) && Distinct(hs) && SetOf(hs) !! seen
    ensures var h := inputs[i].prevTxOutputHash;
            && (h !in utxos ==> CheckInputs(inputs, utxos, seen) == Fail(MissingOutput(h)))
            && (h in utxos && (h in seen || h in SpendsOfInputs(inputs[..i])) ==>
                  CheckInputs(inputs, utxos, seen) == Fail(DoubleSpend(h)))
    decreases i
  {
    if i > 0 {
      var first := inputs[0].prevTxOutputHash;
      var front, rest := SpendsOfInputs(inputs[..i]), SpendsOfInputs(inputs[1..][..i - 1]);
      assert front == [first] + rest;
      assert [first][0] == first;
      DistinctConcat([first], rest);
      AllInConcat([first], rest, Plain(utxos));
      assert first in SetOf(front) by {
        assert front[0] == first;
      }
      assert SetOf([first]) == {first};
      CheckInputsStops(inputs[1..], utxos, seen + {first}, i - 1);
    }
  }

  lemma {:induction false} CheckInputsErrors(inputs: seq<TxInput>, utxos: UtxoSet, seen: set<Hash>)
    ensures var r := CheckInputs(inputs, utxos, seen);
            r == Pass || (r.error.MissingOutput? || r.error.DoubleSpend?)
    decreases |inputs|
  {
    if inputs != [] && inputs[0].prevTxOutputHash in utxos {
      CheckInputsErrors(inputs[1..], utxos, seen + {inputs[0].prevTxOutputHash});
    }
  }

  // ---------- the replacement loop ----------

  /** The entry creates an output with the hash. */
  ghost predicate Makes(p: Pooled, h: Hash) {
    exists o :: o in p.tx.outputs && HashOutput(o) == h
  }

  /** It is the first entry that does. */
  ghost predicate FirstToMake(pool: seq<Pooled>, h: Hash, i: nat) {
    i < |pool| && Makes(pool[i], h) && forall j :: 0 <= j < i ==> !Makes(pool[j], h)
  }

  lemma {:induction false} FirstCreatorExactly(pool: seq<Pooled>, h: Hash)
    ensures match FirstCreator(pool, h)
            case None => forall j :: 0 <= j < |pool| ==> !Makes(pool[j], h)
            case Some(i) => FirstToMake(pool, h, i)
    decreases |pool|
  {
    if pool != [] && !Makes(pool[0], h) {
      FirstCreatorExactly(pool[1..], h);
      match FirstCreator(pool[1..], h)
      case None =>
        forall j | 0 <= j < |pool|
          ensures !Makes(pool[j], h)
        {
          assert j > 0 ==> pool[j] == pool[1..][j - 1];
        }
      case Some(i) =>
        forall j | 0 <= j < i + 1
          ensures !Makes(pool[j], h)
        {
          assert j > 0 ==> pool[j] == pool[1..][j - 1];
        }
    }
  }

  /** What the loop does for one input: nothing for an unmarked one; it clears the mark that no entry
      makes; the first entry that makes it leaves, with its marks, unless it pays strictly more, which
      ends the insertion, as an undefined fee does. */
  lemma DisplaceOneExactly(tx: Tx, h: Hash, utxos: UtxoSet, pool: seq<Pooled>, i: nat, k: Hash)
    ensures var d := DisplaceOne(tx, h, utxos, pool);
            && Plain(d.utxos) == Plain(utxos)
            && (!IsMarked(utxos, h) ==> d == Displaced(utxos, pool, None))
            && (IsMarked(utxos, h) && (forall j :: 0 <= j < |pool| ==> !Makes(pool[j], h)) ==>
                  && d.pool == pool && d.stopped == None
                  && (IsMarked(d.utxos, k) <==> IsMarked(utxos, k) && k != h))
            && (IsMarked(utxos, h) && FirstToMake(pool, h, i) ==>
                  var older, newer := TxFee(pool[i].tx, Plain(utxos)), TxFee(tx, Plain(utxos));
                  if older.Failure? || newer.Failure? then d == Displaced(utxos, pool, Some(Fail(Overflow)))
                  else if older.value > newer.value then d == Displaced(utxos, pool, Some(Pass))
                  else
                    && d.pool == pool[..i] + pool[i + 1..] && d.stopped == None
                    && (IsMarked(d.utxos, k) <==> IsMarked(utxos, k) && !Refers(pool[i], k)))
  {
    DisplaceOneKeepsOutputs(tx, h, utxos, pool);
    FirstCreatorExactly(pool, h);
    FirstCreatorInRange(pool, h);
    SetMarksPlain(utxos, [h], false);
    if FirstCreator(pool, h).Some? {
      SetMarksPlain(utxos, SpendsOfInputs(pool[FirstCreator(pool, h).value].tx.inputs), false);
    }
  }

  /** The fee of a transaction whose inputs are all there. */
  lemma FeeExactly(tx: Tx, outs: Outputs)
    requires AllIn(SpendsOfInputs(tx.inputs), outs)
    ensures var worth, paid := Value(SpendsOfInputs(tx.inputs), outs), SumOutputs(tx.outputs);
            TxFee(tx, outs) == if paid <= worth <= U64_MAX then Success(worth - paid) else Failure(Overflow)
  {
    PresentIsValue(tx.inputs, outs);
  }

  /** An input that is not there counts for nothing in a fee. */
  lemma {:induction false} FeeSkipsAbsent(a: seq<TxInput>, input: TxInput, outs: Outputs)
    ensures PresentValue(a + [input], outs)
         == PresentValue(a, outs)
            + (if input.prevTxOutputHash in outs then outs[input.prevTxOutputHash].amount else 0)
    decreases |a|
  {
    if a == [] {
      assert a + [input] == [input];
    } else {
      assert (a + [input])[0] == a[0] && (a + [input])[1..] == a[1..] + [input];
      FeeSkipsAbsent(a[1..], input, outs);
    }
  }

  /** A marked input of the newcomer is made by an entry that pays strictly more. */
  ghost predicate Outbid(tx: Tx, inputs: seq<TxInput>, utxos: UtxoSet, pool: seq<Pooled>) {
    exists p, h :: p in pool && Makes(p, h) && h in SpendsOfInputs(inputs) && IsMarked(utxos, h)
                   && HigherFee(p.tx, tx, Plain(utxos))
  }

  ghost predicate HigherFee(a: Tx, b: Tx, outs: Outputs) {
    TxFee(a, outs).Success? && TxFee(b, outs).Success? && TxFee(a, outs).value > TxFee(b, outs).value
  }

  lemma OutbidEarlier(tx: Tx, inputs: seq<TxInput>, utxos: UtxoSet, pool: seq<Pooled>, one: Displaced)
    requires inputs != [] && one == DisplaceOne(tx, inputs[0].prevTxOutputHash, utxos, pool)
    requires Outbid(tx, inputs[1..], one.utxos, one.pool)
    ensures Outbid(tx, inputs, utxos, pool)
  {
    var p, h :| p in one.pool && Makes(p, h) && h in SpendsOfInputs(inputs[1..]) && IsMarked(one.utxos, h)
                && HigherFee(p.tx, tx, Plain(one.utxos));
    var k := inputs[0].prevTxOutputHash;
    FirstCreatorExactly(pool, k);
    var i := if FirstCreator(pool, k).Some? then FirstCreator(pool, k).value else 0;
    DisplaceOneExactly(tx, k, utxos, pool, i, h);
    assert p in pool;
    assert h in SpendsOfInputs(inputs) by {
      var j :| 0 <= j < |inputs[1..]| && SpendsOfInputs(inputs[1..])[j] == h;
      assert SpendsOfInputs(inputs)[j + 1] == h;
    }
  }

  /** What an early end of the loop says: an undefined fee, or a pooled maker of a marked input that pays
      strictly more. */
  lemma {:induction false} StoppedMeans(tx: Tx, inputs: seq<TxInput>, utxos: UtxoSet, pool: seq<Pooled>)
    ensures var d := Displace(tx, inputs, utxos, pool);
            d.stopped.Some? ==>
              d.stopped.value == Fail(Overflow) || (d.stopped.value == Pass && Outbid(tx, inputs, utxos, pool))
    decreases |inputs|
  {
    if inputs != [] {
      var h := inputs[0].prevTxOutputHash;
      var one := DisplaceOne(tx, h, utxos, pool);
      FirstCreatorExactly(pool, h);
      var i := if FirstCreator(pool, h).Some? then FirstCreator(pool, h).value else 0;
      DisplaceOneExactly(tx, h, utxos, pool, i, h);
      if one.stopped == None {
        StoppedMeans(tx, inputs[1..], one.utxos, one.pool);
        if Outbid(tx, inputs[1..], one.utxos, one.pool) {
          OutbidEarlier(tx, inputs, utxos, pool, one);
        }
      } else if one.stopped == Some(Pass) {
        assert SpendsOfInputs(inputs)[0] == h;
        assert pool[i] in pool && Makes(pool[i], h) && HigherFee(pool[i].tx, tx, Plain(utxos));
      }
    }
  }

  // ---------- the outcome of an insertion ----------

  ghost predicate AlreadyPooled(pool: seq<Pooled>, tx: Tx) {
    exists p :: p in pool && HashTx(p.tx) == HashTx(tx)
  }

  lemma InPoolMeans(pool: seq<Pooled>, tx: Tx)
    ensures InPool(pool, HashTx(tx)) <==> AlreadyPooled(pool, tx)
  {
    if AlreadyPooled(pool, tx) {
      var p :| p in pool && HashTx(p.tx) == HashTx(tx);
      var i :| 0 <= i < |pool| && pool[i] == p;
    }
  }

  /** The inputs before the i-th are all there and different. */
  ghost predicate GoodBefore(tx: Tx, utxos: UtxoSet, i: nat) {
    && i <= |tx.inputs|
    && (forall j :: 0 <= j < i ==> tx.inputs[j].prevTxOutputHash in utxos)
    && (forall j, k :: 0 <= j < k < i ==> tx.inputs[j].prevTxOutputHash != tx.inputs[k].prevTxOutputHash)
  }

  lemma GoodBeforeMeans(tx: Tx, utxos: UtxoSet, i: nat)
    requires i <= |tx.inputs|
    ensures var hs := SpendsOfInputs(tx.inputs[..i]);
            GoodBefore(tx, utxos, i) <==> AllIn(hs, Plain(utxos)) && Distinct(hs)
  {
    var hs := SpendsOfInputs(tx.inputs[..i]);
    assert forall j :: 0 <= j < i ==> hs[j] == tx.inputs[j].prevTxOutputHash;
  }

  /** A transaction that is in the pool already is refused with that error, and no other one is; nothing
      changes. */
  lemma AlreadyPooledIff(tx: Tx, now: Timestamp, utxos: UtxoSet, pool: seq<Pooled>)
    ensures var r := Insert(tx, now, utxos, pool);
            && (r.outcome == Fail(TxAlreadyInMempool(HashTx(tx))) <==> AlreadyPooled(pool, tx))
            && (AlreadyPooled(pool, tx) ==> r.utxos == utxos && r.pool == pool)
  {
    InPoolMeans(pool, tx);
    CheckInputsErrors(tx.inputs, utxos, {});
    StoppedMeans(tx, tx.inputs, utxos, pool);
  }

  /** An absent input is reported as missing, a repeated one as spent twice, whichever comes first, and
      nothing changes. */
  lemma BadInputReported(tx: Tx, now: Timestamp, utxos: UtxoSet, pool: seq<Pooled>, i: nat)
    requires !AlreadyPooled(pool, tx) && i < |tx.inputs| && GoodBefore(tx, utxos, i) && !GoodBefore(tx, utxos, i + 1)
    ensures var h := tx.inputs[i].prevTxOutputHash;
            Insert(tx, now, utxos, pool)
              == Inserted(utxos, pool, Fail(if h !in utxos then MissingOutput(h) else DoubleSpend(h)))
  {
    InPoolMeans(pool, tx);
    GoodBeforeMeans(tx, utxos, i);
    var hs, h := SpendsOfInputs(tx.inputs[..i]), tx.inputs[i].prevTxOutputHash;
    if h in utxos {
      var j :| 0 <= j < i && tx.inputs[j].prevTxOutputHash == h;
      assert hs[j] == h;
    }
    CheckInputsStops(tx.inputs, utxos, {}, i);
  }

  /** The inputs are all there and different. */
  ghost predicate GoodInputs(tx: Tx, utxos: UtxoSet) {
    GoodBefore(tx, utxos, |tx.inputs|)
  }

  lemma GoodInputsPass(tx: Tx, utxos: UtxoSet)
    ensures CheckInputs(tx.inputs, utxos, {}) == Pass <==> GoodInputs(tx, utxos)
    ensures GoodInputs(tx, utxos) <==>
              AllIn(SpendsOfInputs(tx.inputs), Plain(utxos)) && Distinct(SpendsOfInputs(tx.inputs))
  {
    assert tx.inputs[..|tx.inputs|] == tx.inputs;
    GoodBeforeMeans(tx, utxos, |tx.inputs|);
    CheckInputsExact(tx.inputs, utxos, {});
  }

  lemma EnqueueOutcome(tx: Tx, now: Timestamp, utxos: UtxoSet, pool: seq<Pooled>)
    requires AllIn(SpendsOfInputs(tx.inputs), Plain(utxos))
    ensures var worth, paid := Value(SpendsOfInputs(tx.inputs), Plain(utxos)), SumOutputs(tx.outputs);
            var r := Enqueue(tx, now, utxos, pool);
            && (worth > U64_MAX || paid > U64_MAX ==> r == Inserted(utxos, pool, Fail(Overflow)))
            && (worth < paid <= U64_MAX ==> r == Inserted(utxos, pool, Fail(SpendingMoreThanAvailable)))
            && (paid <= worth <= U64_MAX ==>
                  && (r.outcome == Pass || r.outcome == Fail(Overflow))
                  && r.utxos == SetMarks(utxos, SpendsOfInputs(tx.inputs), true)
                  && multiset(r.pool) == multiset(pool) + multiset{Pooled(now, tx)})
  {
    PresentIsValue(tx.inputs, Plain(utxos));
    EnqueueEffect(tx, now, utxos, pool);
  }

  /** The last part of an insertion passes or fails as its sums say; in particular it never passes without
      pooling the newcomer and marking exactly its inputs on top. */
  lemma PassedIsPooled(tx: Tx, now: Timestamp, utxos: UtxoSet, pool: seq<Pooled>, h: Hash)
    requires AllIn(SpendsOfInputs(tx.inputs), Plain(utxos))
    requires Enqueue(tx, now, utxos, pool).outcome == Pass
    ensures var r := Enqueue(tx, now, utxos, pool);
            && multiset(r.pool) == multiset(pool) + multiset{Pooled(now, tx)}
            && (IsMarked(r.utxos, h) <==> IsMarked(utxos, h) || h in SpendsOfInputs(tx.inputs))
  {
    EnqueueOutcome(tx, now, utxos, pool);
    SetMarksPlain(utxos, SpendsOfInputs(tx.inputs), true);
    if h in SpendsOfInputs(tx.inputs) {
      var j :| 0 <= j < |tx.inputs| && SpendsOfInputs(tx.inputs)[j] == h;
      assert h in Plain(utxos);
    }
  }

  /** A passing insertion has pooled the newcomer and marked all its inputs, or has left it out because a
      pooled maker of a marked input pays strictly more. */
  lemma PassMeansPooledOrOutbid(tx: Tx, now: Timestamp, utxos: UtxoSet, pool: seq<Pooled>)
    requires Insert(tx, now, utxos, pool).outcome == Pass
    ensures GoodInputs(tx, utxos) && !AlreadyPooled(pool, tx)
    ensures var r := Insert(tx, now, utxos, pool);
            || (Pooled(now, tx) in r.pool && forall h :: h in SpendsOfInputs(tx.inputs) ==> IsMarked(r.utxos, h))
            || (Outbid(tx, tx.inputs, utxos, pool) && forall p :: p in r.pool ==> p in pool)
  {
    InPoolMeans(pool, tx);
    GoodInputsPass(tx, utxos);
    StoppedMeans(tx, tx.inputs, utxos, pool);
    DisplaceKeepsOutputs(tx, tx.inputs, utxos, pool);
    var d, r := Displace(tx, tx.inputs, utxos, pool), Insert(tx, now, utxos, pool);
    if d.stopped == None {
      InsertIsEnqueue(tx, now, utxos, pool);
      forall h | h in SpendsOfInputs(tx.inputs)
        ensures IsMarked(r.utxos, h)
      {
        PassedIsPooled(tx, now, d.utxos, d.pool, h);
      }
      EnqueueOutcome(tx, now, d.utxos, d.pool);
      assert Pooled(now, tx) in multiset(r.pool);
    } else {
      DisplaceOnlyRemoves(tx, tx.inputs, utxos, pool);
    }
  }

  lemma {:induction false} DisplaceOnlyRemoves(tx: Tx, inputs: seq<TxInput>, utxos: UtxoSet, pool: seq<Pooled>)
    ensures forall p :: p in Displace(tx, inputs, utxos, pool).pool ==> p in pool
    decreases |inputs|
  {
    if inputs != [] {
      var h := inputs[0].prevTxOutputHash;
      FirstCreatorInRange(pool, h);
      var one := DisplaceOne(tx, h, utxos, pool);
      assert forall p :: p in one.pool ==> p in pool;
      if one.stopped == None {
        DisplaceOnlyRemoves(tx, inputs[1..], one.utxos, one.pool);
      }
    }
  }

  lemma UncoveredFee(tx: Tx, outs: Outputs)
    requires AllIn(SpendsOfInputs(tx.inputs), outs)
    requires Value(SpendsOfInputs(tx.inputs), outs) < SumOutputs(tx.outputs)
    ensures TxFee(tx, outs) == Failure(Overflow)
  {
    FeeExactly(tx, outs);
  }

  lemma {:induction false} UncoveredStops(tx: Tx, inputs: seq<TxInput>, utxos: UtxoSet, pool: seq<Pooled>)
    requires TxFee(tx, Plain(utxos)) == Failure(Overflow) && Distinct(SpendsOfInputs(inputs))
    ensures var d := Displace(tx, inputs, utxos, pool);
            d.stopped == None <==>
              forall i :: 0 <= i < |inputs| ==> !FindsReplacement(inputs[i].prevTxOutputHash, utxos, pool)
    ensures var d := Displace(tx, inputs, utxos, pool); d.stopped == None || d.stopped == Some(Fail(Overflow))
    ensures Displace(tx, inputs, utxos, pool).pool == pool
    decreases |inputs|
  {
    DisplacesExactly(tx, inputs, utxos, pool);
    if inputs != [] {
      var h := inputs[0].prevTxOutputHash;
      FirstCreatorInRange(pool, h);
      var one := DisplaceOne(tx, h, utxos, pool);
      DisplaceOneKeepsOutputs(tx, h, utxos, pool);
      if one.stopped == None {
        var hs, rest := SpendsOfInputs(inputs), SpendsOfInputs(inputs[1..]);
        assert hs == [h] + rest;
        DistinctParts([h], rest);
        UncoveredStops(tx, inputs[1..], one.utxos, one.pool);
      }
    }
  }

  /** With good inputs whose sums fit, an insertion is refused for spending more than available exactly if
      the outputs are worth more than the inputs and the replacement loop finds no maker of a marked input
      (where it does, it fails on the fee).  The pool stays as it is. */
  lemma UncoveredReported(tx: Tx, now: Timestamp, utxos: UtxoSet, pool: seq<Pooled>)
    requires !AlreadyPooled(pool, tx) && GoodInputs(tx, utxos)
    requires AllIn(SpendsOfInputs(tx.inputs), Plain(utxos))
    requires Value(SpendsOfInputs(tx.inputs), Plain(utxos)) < SumOutputs(tx.outputs) <= U64_MAX
    ensures var r := Insert(tx, now, utxos, pool);
            && r.pool == pool && r.outcome.Fail?
            && r.outcome.error == (if exists i :: 0 <= i < |tx.inputs|
                                       && FindsReplacement(tx.inputs[i].prevTxOutputHash, utxos, pool)
                                   then Overflow else SpendingMoreThanAvailable)
  {
    InPoolMeans(pool, tx);
    GoodInputsPass(tx, utxos);
    UncoveredFee(tx, Plain(utxos));
    UncoveredStops(tx, tx.inputs, utxos, pool);
    DisplaceKeepsOutputs(tx, tx.inputs, utxos, pool);
    var d := Displace(tx, tx.inputs, utxos, pool);
    if d.stopped == None {
      InsertIsEnqueue(tx, now, utxos, pool);
      EnqueueOutcome(tx, now, d.utxos, d.pool);
    }
  }

  /** And no covered one is: the error means what it says. */
  lemma SpendingMoreMeans(tx: Tx, now: Timestamp, utxos: UtxoSet, pool: seq<Pooled>)
    requires Insert(tx, now, utxos, pool).outcome == Fail(SpendingMoreThanAvailable)
    ensures !AlreadyPooled(pool, tx) && GoodInputs(tx, utxos)
    ensures AllIn(SpendsOfInputs(tx.inputs), Plain(utxos))
    ensures Value(SpendsOfInputs(tx.inputs), Plain(utxos)) < SumOutputs(tx.outputs)
  {
    InPoolMeans(pool, tx);
    GoodInputsPass(tx, utxos);
    CheckInputsErrors(tx.inputs, utxos, {});
    StoppedMeans(tx, tx.inputs, utxos, pool);
    DisplaceKeepsOutputs(tx, tx.inputs, utxos, pool);
    var d := Displace(tx, tx.inputs, utxos, pool);
    InsertIsEnqueue(tx, now, utxos, pool);
    EnqueueOutcome(tx, now, d.utxos, d.pool);
  }

  lemma {:induction false} UnfoundUnmarks(tx: Tx, inputs: seq<TxInput>, utxos: UtxoSet, pool: seq<Pooled>, k: Hash)
    requires forall i :: 0 <= i < |inputs| ==> !FindsReplacement(inputs[i].prevTxOutputHash, utxos, pool)
    ensures var d := Displace(tx, inputs, utxos, pool);
            IsMarked(d.utxos, k) <==> IsMarked(utxos, k) && k !in SpendsOfInputs(inputs)
    decreases |inputs|
  {
    if inputs != [] {
      var h := inputs[0].prevTxOutputHash;
      var one := DisplaceOne(tx, h, utxos, pool);
      SetMarksPlain(utxos, [h], false);
      assert SpendsOfInputs(inputs) == [h] + SpendsOfInputs(inputs[1..]);
      forall i | 0 <= i < |inputs[1..]|
        ensures !FindsReplacement(inputs[1..][i].prevTxOutputHash, one.utxos, one.pool)
      {
        assert inputs[1..][i] == inputs[i + 1];
      }
      UnfoundUnmarks(tx, inputs[1..], one.utxos, one.pool, k);
    }
  }

  /** Such a refusal for spending more than available is not without effect: it clears the marks of the
      transaction's inputs, and of nothing else. */
  lemma RefusalUnmarks(tx: Tx, now: Timestamp, utxos: UtxoSet, pool: seq<Pooled>, k: Hash)
    requires Insert(tx, now, utxos, pool).outcome == Fail(SpendingMoreThanAvailable)
    ensures IsMarked(Insert(tx, now, utxos, pool).utxos, k) <==>
              IsMarked(utxos, k) && k !in SpendsOfInputs(tx.inputs)
  {
    SpendingMoreMeans(tx, now, utxos, pool);
    InPoolMeans(pool, tx);
    GoodInputsPass(tx, utxos);
    UncoveredFee(tx, Plain(utxos));
    UncoveredStops(tx, tx.inputs, utxos, pool);
    StoppedMeans(tx, tx.inputs, utxos, pool);
    DisplaceKeepsOutputs(tx, tx.inputs, utxos, pool);
    var d := Displace(tx, tx.inputs, utxos, pool);
    UnfoundUnmarks(tx, tx.inputs, utxos, pool, k);
    InsertIsEnqueue(tx, now, utxos, pool);
    EnqueueOutcome(tx, now, d.utxos, d.pool);
  }
}
