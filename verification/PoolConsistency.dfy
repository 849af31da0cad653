/** When the pool only holds transactions that can be mined: distinct, funded and sorted by fee. */
module PoolConsistency {
  import opened Types
  import opened BlockRules
  import opened Replay
  import opened Mempool
  import Supply
  import SpendSafety

  /** Distinct unspent inputs that cover the outputs, so the fee is defined. */
  ghost predicate Funded(tx: Tx, outs: Outputs) {
    var hs := SpendsOfInputs(tx.inputs);
    AllIn(hs, outs) && Distinct(hs) && TxFee(tx, outs).Success?
  }

  ghost predicate AllFunded(pool: seq<Pooled>, outs: Outputs) {
    forall p :: p in pool ==> Funded(p.tx, outs)
  }

  ghost predicate NoTxTwice(pool: seq<Pooled>) {
    forall i, j :: 0 <= i < j < |pool| ==> HashTx(pool[i].tx) != HashTx(pool[j].tx)
  }

  ghost predicate Consistent(pool: seq<Pooled>, outs: Outputs) {
    AllFunded(pool, outs) && NoTxTwice(pool) && Ascending(pool, outs)
  }

  lemma {:induction false} PresentIsValue(inputs: seq<TxInput>, outs: Outputs)
    requires AllIn(SpendsOfInputs(inputs), outs)
    ensures PresentValue(inputs, outs) == Value(SpendsOfInputs(inputs), outs)
  {
    if inputs != [] {
      var rest := SpendsOfInputs(inputs[1..]);
      assert SpendsOfInputs(inputs)[1..] == rest;
      assert SpendsOfInputs(inputs)[0] == inputs[0].prevTxOutputHash;
      PresentIsValue(inputs[1..], outs);
    }
  }

  // ---------- removing entries ----------

  /** `part` is `pool` with entries left out. */
  ghost predicate Subsequence(part: seq<Pooled>, pool: seq<Pooled>) {
    part == [] ||
    (pool != [] && if part[0] == pool[0] then Subsequence(part[1..], pool[1..]) || Subsequence(part, pool[1..])
                   else Subsequence(part, pool[1..]))
  }

  lemma {:induction false} SubsequenceMember(part: seq<Pooled>, pool: seq<Pooled>, p: Pooled)
    requires Subsequence(part, pool) && p in part
    ensures p in pool
    decreases |pool|
  {
    if Subsequence(part, pool[1..]) {
      SubsequenceMember(part, pool[1..], p);
    } else if p != part[0] {
      SubsequenceMember(part[1..], pool[1..], p);
    }
  }

  lemma {:induction false} SubsequenceConsistent(part: seq<Pooled>, pool: seq<Pooled>, outs: Outputs)
    requires Subsequence(part, pool) && Consistent(pool, outs)
    ensures Consistent(part, outs)
    decreases |pool|
  {
    if part != [] {
      assert Consistent(pool[1..], outs);
      if Subsequence(part, pool[1..]) {
        SubsequenceConsistent(part, pool[1..], outs);
      } else {
        SubsequenceConsistent(part[1..], pool[1..], outs);
        forall j | 1 <= j < |part|
          ensures HashTx(part[0].tx) != HashTx(part[j].tx)
          ensures Surplus(part[0].tx, outs) <= Surplus(part[j].tx, outs)
        {
          SubsequenceMember(part[1..], pool[1..], part[j]);
          var k :| 0 <= k < |pool[1..]| && pool[1..][k] == part[j];
          assert pool[k + 1] == part[j];
        }
        ConsConsistent(part, outs);
      }
    }
  }

  lemma ConsConsistent(pool: seq<Pooled>, outs: Outputs)
    requires pool != [] && Funded(pool[0].tx, outs) && Consistent(pool[1..], outs)
    requires forall j :: 1 <= j < |pool| ==>
                           HashTx(pool[0].tx) != HashTx(pool[j].tx)
                           && Surplus(pool[0].tx, outs) <= Surplus(pool[j].tx, outs)
    ensures Consistent(pool, outs)
  {
    assert pool == [pool[0]] + pool[1..];
  }

  lemma {:induction false} SubsequenceCons(part: seq<Pooled>, pool: seq<Pooled>, p: Pooled)
    requires Subsequence(part, pool)
    ensures Subsequence([p] + part, [p] + pool) && Subsequence(part, [p] + pool)
  {
    assert ([p] + part)[1..] == part && ([p] + pool)[1..] == pool;
  }

  lemma {:induction false} WithoutHashesSubsequence(pool: seq<Pooled>, hashes: set<Hash>)
    ensures Subsequence(WithoutHashes(pool, hashes), pool)
  {
    if pool != [] {
      WithoutHashesSubsequence(pool[1..], hashes);
      var rest := WithoutHashes(pool[1..], hashes);
      SubsequenceCons(rest, pool[1..], pool[0]);
      assert [pool[0]] + pool[1..] == pool && [] + rest == rest;
    }
  }

  lemma {:induction false} UnexpiredSubsequence(pool: seq<Pooled>, now: Timestamp)
    ensures Subsequence(Unexpired(pool, now), pool)
  {
    if pool != [] {
      UnexpiredSubsequence(pool[1..], now);
      var rest := Unexpired(pool[1..], now);
      SubsequenceCons(rest, pool[1..], pool[0]);
      assert [pool[0]] + pool[1..] == pool && [] + rest == rest;
    }
  }

  lemma {:induction false} WholeSubsequence(pool: seq<Pooled>)
    ensures Subsequence(pool, pool)
  {
    if pool != [] {
      WholeSubsequence(pool[1..]);
    }
  }

  lemma {:induction false} RemoveAtSubsequence(pool: seq<Pooled>, i: nat)
    requires i < |pool|
    ensures Subsequence(RemoveAt(pool, i), pool)
    decreases |pool|
  {
    assert [pool[0]] + pool[1..] == pool;
    if i == 0 {
      WholeSubsequence(pool[1..]);
      SubsequenceCons(pool[1..], pool[1..], pool[0]);
      assert RemoveAt(pool, 0) == pool[1..];
    } else {
      RemoveAtSubsequence(pool[1..], i - 1);
      SubsequenceCons(RemoveAt(pool[1..], i - 1), pool[1..], pool[0]);
      assert RemoveAt(pool, i) == [pool[0]] + RemoveAt(pool[1..], i - 1);
    }
  }

  lemma ExpiryKeepsConsistent(pool: seq<Pooled>, now: Timestamp, outs: Outputs)
    requires Consistent(pool, outs)
    ensures Consistent(Unexpired(pool, now), outs)
  {
    UnexpiredSubsequence(pool, now);
    SubsequenceConsistent(Unexpired(pool, now), pool, outs);
  }

  // ---------- inserting ----------

  lemma {:induction false} CheckInputsExact(inputs: seq<TxInput>, utxos: UtxoSet, seen: set<Hash>)
    ensures var hs := SpendsOfInputs(inputs);
            CheckInputs(inputs, utxos, seen) == Pass <==>
              AllIn(hs, Plain(utxos)) && Distinct(hs) && SetOf(hs) !! seen
    decreases |inputs|
  {
    var hs := SpendsOfInputs(inputs);
    if inputs == [] {
      assert SetOf(hs) == {};
    } else {
      var h, rest := inputs[0].prevTxOutputHash, SpendsOfInputs(inputs[1..]);
      assert hs == [h] + rest;
      assert [h][0] == h;
      assert SetOf([h]) == {h};
      DistinctConcat([h], rest);
      AllInConcat([h], rest, Plain(utxos));
      CheckInputsExact(inputs[1..], utxos, seen + {h});
    }
  }

  lemma DisplaceOneKeepsConsistent(tx: Tx, h: Hash, utxos: UtxoSet, pool: seq<Pooled>)
    requires Consistent(pool, Plain(utxos))
    ensures var d := DisplaceOne(tx, h, utxos, pool);
            Plain(d.utxos) == Plain(utxos) && Consistent(d.pool, Plain(utxos)) && Subsequence(d.pool, pool)
  {
    FirstCreatorInRange(pool, h);
    SetMarksPlain(utxos, [h], false);
    WholeSubsequence(pool);
    if FirstCreator(pool, h).Some? {
      var i := FirstCreator(pool, h).value;
      SetMarksPlain(utxos, SpendsOfInputs(pool[i].tx.inputs), false);
      RemoveAtSubsequence(pool, i);
      SubsequenceConsistent(RemoveAt(pool, i), pool, Plain(utxos));
    }
  }

  lemma {:induction false} DisplaceKeepsConsistent(tx: Tx, inputs: seq<TxInput>, utxos: UtxoSet, pool: seq<Pooled>)
    requires Consistent(pool, Plain(utxos))
    ensures var d := Displace(tx, inputs, utxos, pool);
            && Plain(d.utxos) == Plain(utxos)
            && Consistent(d.pool, Plain(utxos))
            && (forall p :: p in d.pool ==> p in pool)
    decreases |inputs|
  {
    if inputs != [] {
      var one := DisplaceOne(tx, inputs[0].prevTxOutputHash, utxos, pool);
      DisplaceOneKeepsConsistent(tx, inputs[0].prevTxOutputHash, utxos, pool);
      forall p | p in one.pool
        ensures p in pool
      {
        SubsequenceMember(one.pool, pool, p);
      }
      if one.stopped == None {
        DisplaceKeepsConsistent(tx, inputs[1..], one.utxos, one.pool);
      }
    }
  }

  lemma SortedSucceeds(pool: seq<Pooled>, outs: Outputs)
    requires AllFunded(pool, outs)
    ensures Sorted(pool, outs).Success?
    ensures Ascending(Sorted(pool, outs).value, outs)
    ensures multiset(Sorted(pool, outs).value) == multiset(pool)
  {
    SortByFeeSorts(pool, outs);
    forall i | 0 <= i < |pool|
      ensures TxFee(pool[i].tx, outs).Success?
    {
      assert pool[i] in pool && Funded(pool[i].tx, outs);
    }
  }

  lemma SortedConsistent(pool: seq<Pooled>, p: Pooled, outs: Outputs)
    requires AllFunded(pool, outs) && NoTxTwice(pool) && Funded(p.tx, outs)
    requires !InPool(pool, HashTx(p.tx))
    ensures var pushed := pool + [p];
            && Sorted(pushed, outs).Success?
            && Consistent(Sorted(pushed, outs).value, outs)
            && multiset(Sorted(pushed, outs).value) == multiset(pushed)
  {
    var pushed := pool + [p];
    SortedSucceeds(pushed, outs);
    var r := Sorted(pushed, outs).value;
    PermutationNoTxTwice(pushed, r);
    forall q | q in r
      ensures Funded(q.tx, outs)
    {
      assert q in multiset(r);
      assert q in pushed;
    }
  }

  lemma PermutationNoTxTwice(a: seq<Pooled>, b: seq<Pooled>)
    requires multiset(a) == multiset(b) && NoTxTwice(a)
    ensures NoTxTwice(b)
  {
    forall i, j | 0 <= i < j < |b|
      ensures HashTx(b[i].tx) != HashTx(b[j].tx)
    {
      assert b[i] in multiset(b) && b[j] in multiset(b);
      var k :| 0 <= k < |a| && a[k] == b[i];
      var l :| 0 <= l < |a| && a[l] == b[j];
      if k == l {
        CountTwice(b, i, j);
        CountOnce(a, k);
      }
    }
  }

  lemma CountTwice(b: seq<Pooled>, i: nat, j: nat)
    requires i < j < |b| && b[i] == b[j]
    ensures multiset(b)[b[i]] >= 2
  {
    assert b == b[..j] + [b[j]] + b[j + 1..];
    assert b[i] in b[..j];
  }

  lemma CountOnce(a: seq<Pooled>, k: nat)
    requires NoTxTwice(a) && k < |a|
    ensures multiset(a)[a[k]] == 1
  {
    assert a == a[..k] + [a[k]] + a[k + 1..];
    assert a[k] !in a[..k] && a[k] !in a[k + 1..];
  }

  lemma EnqueueKeepsConsistent(tx: Tx, now: Timestamp, utxos: UtxoSet, pool: seq<Pooled>)
    requires Consistent(pool, Plain(utxos)) && !InPool(pool, HashTx(tx))
    requires AllIn(SpendsOfInputs(tx.inputs), Plain(utxos)) && Distinct(SpendsOfInputs(tx.inputs))
    ensures var r := Enqueue(tx, now, utxos, pool);
            Plain(r.utxos) == Plain(utxos) && Consistent(r.pool, Plain(utxos))
  {
    if Funded(tx, Plain(utxos)) {
      SortedConsistent(pool, Pooled(now, tx), Plain(utxos));
      EnqueuePasses(tx, now, utxos, pool);
      SetMarksPlain(utxos, SpendsOfInputs(tx.inputs), true);
    }
  }

  lemma StillNotPooled(pool: seq<Pooled>, fewer: seq<Pooled>, hash: Hash)
    requires !InPool(pool, hash) && forall p :: p in fewer ==> p in pool
    ensures !InPool(fewer, hash)
  {
    forall i | 0 <= i < |fewer|
      ensures HashTx(fewer[i].tx) != hash
    {
      assert fewer[i] in pool;
    }
  }

  /** An insertion keeps the pool consistent, and cannot panic in its sort. */
  lemma InsertKeepsConsistent(tx: Tx, now: Timestamp, utxos: UtxoSet, pool: seq<Pooled>)
    requires Consistent(pool, Plain(utxos))
    ensures var r := Insert(tx, now, utxos, pool);
            Plain(r.utxos) == Plain(utxos) && Consistent(r.pool, Plain(r.utxos))
  {
    var d := Displace(tx, tx.inputs, utxos, pool);
    DisplaceKeepsConsistent(tx, tx.inputs, utxos, pool);
    if !InPool(pool, HashTx(tx)) && CheckInputs(tx.inputs, utxos, {}) == Pass && d.stopped == None {
      CheckInputsExact(tx.inputs, utxos, {});
      StillNotPooled(pool, d.pool, HashTx(tx));
      EnqueueKeepsConsistent(tx, now, d.utxos, d.pool);
      InsertIsEnqueue(tx, now, utxos, pool);
    }
  }

  // ---------- replacing ----------

  lemma {:induction false} DisplaceShrinks(tx: Tx, inputs: seq<TxInput>, utxos: UtxoSet, pool: seq<Pooled>)
    ensures |Displace(tx, inputs, utxos, pool).pool| <= |pool|
    decreases |inputs|
  {
    if inputs != [] {
      FirstCreatorInRange(pool, inputs[0].prevTxOutputHash);
      var one := DisplaceOne(tx, inputs[0].prevTxOutputHash, utxos, pool);
      if one.stopped == None {
        DisplaceShrinks(tx, inputs[1..], one.utxos, one.pool);
      }
    }
  }

  /** The output is marked and some pooled transaction creates it. */
  ghost predicate FindsReplacement(h: Hash, utxos: UtxoSet, pool: seq<Pooled>) {
    IsMarked(utxos, h) && FirstCreator(pool, h).Some?
  }

  lemma NothingFoundStep(tx: Tx, h: Hash, utxos: UtxoSet, pool: seq<Pooled>)
    requires !FindsReplacement(h, utxos, pool)
    ensures var d := DisplaceOne(tx, h, utxos, pool);
            && d.pool == pool && d.stopped == None
            && (forall k :: k != h ==> (FindsReplacement(k, d.utxos, pool) <==> FindsReplacement(k, utxos, pool)))
  {
    SetMarksPlain(utxos, [h], false);
  }

  /** The replacement loop leaves the pool alone and lets the insertion go on exactly if it finds no
      pooled transaction that creates a marked input. */
  lemma {:induction false} DisplacesExactly(tx: Tx, inputs: seq<TxInput>, utxos: UtxoSet, pool: seq<Pooled>)
    requires Distinct(SpendsOfInputs(inputs))
    ensures var d := Displace(tx, inputs, utxos, pool);
            (d.pool == pool && d.stopped == None) <==>
              forall i :: 0 <= i < |inputs| ==> !FindsReplacement(inputs[i].prevTxOutputHash, utxos, pool)
    decreases |inputs|
  {
    if inputs != [] {
      var h := inputs[0].prevTxOutputHash;
      var one := DisplaceOne(tx, h, utxos, pool);
      FirstCreatorInRange(pool, h);
      if FindsReplacement(h, utxos, pool) {
        if one.stopped == None {
          DisplaceShrinks(tx, inputs[1..], one.utxos, one.pool);
        }
      } else {
        NothingFoundStep(tx, h, utxos, pool);
        var hs, rest := SpendsOfInputs(inputs), SpendsOfInputs(inputs[1..]);
        assert hs == [h] + rest;
        DistinctParts([h], rest);
        forall i | 1 <= i < |inputs|
          ensures inputs[i].prevTxOutputHash != h
        {
          assert hs[0] != hs[i];
        }
        DisplacesExactly(tx, inputs[1..], one.utxos, pool);
        forall i | 1 <= i < |inputs|
          ensures inputs[i] == inputs[1..][i - 1]
        {
        }
      }
    }
  }

  lemma OthersStay(pool: seq<Pooled>, i: nat, p: Pooled)
    requires i < |pool| && p in pool && p != pool[i]
    ensures p in RemoveAt(pool, i)
  {
    var k :| 0 <= k < |pool| && pool[k] == p;
    assert RemoveAt(pool, i)[if k < i then k else k - 1] == p;
  }

  lemma DisplacedByOne(tx: Tx, h: Hash, utxos: UtxoSet, pool: seq<Pooled>, p: Pooled)
    requires p in pool && p !in DisplaceOne(tx, h, utxos, pool).pool
    ensures TxFee(p.tx, Plain(utxos)).Success? && TxFee(tx, Plain(utxos)).Success?
    ensures TxFee(p.tx, Plain(utxos)).value <= TxFee(tx, Plain(utxos)).value
  {
    FirstCreatorInRange(pool, h);
    var i := FirstCreator(pool, h).value;
    if p != pool[i] {
      OthersStay(pool, i, p);
    }
  }

  /** A pooled transaction that is displaced paid no higher fee than the one that displaces it. */
  lemma {:induction false} DisplacedPaidNoMore(
    tx: Tx, inputs: seq<TxInput>, utxos: UtxoSet, pool: seq<Pooled>, p: Pooled)
    requires p in pool && p !in Displace(tx, inputs, utxos, pool).pool
    ensures TxFee(p.tx, Plain(utxos)).Success? && TxFee(tx, Plain(utxos)).Success?
    ensures TxFee(p.tx, Plain(utxos)).value <= TxFee(tx, Plain(utxos)).value
    decreases |inputs|
  {
    var h := inputs[0].prevTxOutputHash;
    var one := DisplaceOne(tx, h, utxos, pool);
    if p in one.pool {
      DisplaceOneKeepsOutputs(tx, h, utxos, pool);
      DisplacedPaidNoMore(tx, inputs[1..], one.utxos, one.pool, p);
    } else {
      DisplacedByOne(tx, h, utxos, pool, p);
    }
  }

  /** The replacement rule looks for transactions that create the spent output, not for ones that
      spend it.  So where no pooled transaction creates an unspent output, a funded newcomer never
      displaces anything, and joins any pooled transactions that spend its inputs already. */
  lemma ConflictsArePooledTogether(tx: Tx, now: Timestamp, utxos: UtxoSet, pool: seq<Pooled>)
    requires Consistent(pool, Plain(utxos)) && Funded(tx, Plain(utxos)) && !InPool(pool, HashTx(tx))
    requires forall h :: h in utxos ==> FirstCreator(pool, h) == None
    ensures var r := Insert(tx, now, utxos, pool);
            r.outcome == Pass && multiset(r.pool) == multiset(pool) + multiset{Pooled(now, tx)}
  {
    CheckInputsExact(tx.inputs, utxos, {});
    NothingToReplace(tx.inputs, utxos, pool);
    DisplacesExactly(tx, tx.inputs, utxos, pool);
    DisplaceKeepsOutputs(tx, tx.inputs, utxos, pool);
    InsertIsEnqueue(tx, now, utxos, pool);
    SortedConsistent(pool, Pooled(now, tx), Plain(utxos));
    EnqueuePasses(tx, now, Displace(tx, tx.inputs, utxos, pool).utxos, pool);
    PushedMultiset(pool, Pooled(now, tx));
  }

  lemma NothingToReplace(inputs: seq<TxInput>, utxos: UtxoSet, pool: seq<Pooled>)
    requires forall h :: h in utxos ==> FirstCreator(pool, h) == None
    ensures forall i :: 0 <= i < |inputs| ==> !FindsReplacement(inputs[i].prevTxOutputHash, utxos, pool)
  {
  }

  ghost predicate NoSharedInput(a: Tx, b: Tx) {
    forall h :: h in SpendsOfInputs(a.inputs) ==> h !in SpendsOfInputs(b.inputs)
  }

  /** No two entries spend the same output. */
  ghost predicate ConflictFree(pool: seq<Pooled>) {
    forall p, q :: p in pool && q in pool && p != q ==> NoSharedInput(p.tx, q.tx)
  }

  lemma SameEntries(a: seq<Pooled>, b: seq<Pooled>, last: Pooled, p: Pooled)
    requires multiset(a) == multiset(b) + multiset{last}
    ensures p in a <==> p in b || p == last
  {
    assert p in a <==> p in multiset(a);
    assert p in b <==> p in multiset(b);
  }

  /** Such an insertion into a conflict-free pool leaves it conflict-free exactly if no pooled
      transaction spends an input of the newcomer: nothing in the code looks for one. */
  lemma ConflictFreeIff(tx: Tx, now: Timestamp, utxos: UtxoSet, pool: seq<Pooled>)
    requires Consistent(pool, Plain(utxos)) && Funded(tx, Plain(utxos)) && !InPool(pool, HashTx(tx))
    requires forall h :: h in utxos ==> FirstCreator(pool, h) == None
    requires ConflictFree(pool)
    ensures ConflictFree(Insert(tx, now, utxos, pool).pool) <==> forall p :: p in pool ==> NoSharedInput(p.tx, tx)
  {
    ConflictsArePooledTogether(tx, now, utxos, pool);
    var after, last := Insert(tx, now, utxos, pool).pool, Pooled(now, tx);
    forall p
      ensures p in after <==> p in pool || p == last
    {
      SameEntries(after, pool, last, p);
    }
    assert last !in pool;
    assert last in after;
  }

  lemma CreatesNoneOf(p: Pooled, utxos: UtxoSet)
    requires forall o :: o in p.tx.outputs ==> HashOutput(o) !in utxos
    ensures forall h :: h in utxos ==> FirstCreator([p], h) == None
  {
  }

  lemma PoolsIntoEmpty(tx: Tx, at: Timestamp, utxos: UtxoSet)
    requires Funded(tx, Plain(utxos))
    ensures var r := Insert(tx, at, utxos, []);
            r.outcome == Pass && r.pool == [Pooled(at, tx)] && Plain(r.utxos) == Plain(utxos)
    ensures Consistent([Pooled(at, tx)], Plain(utxos))
  {
    ConflictsArePooledTogether(tx, at, utxos, []);
    InsertKeepsConsistent(tx, at, utxos, []);
    SingletonPool(Insert(tx, at, utxos, []).pool, Pooled(at, tx));
  }

  lemma SingletonPool(pool: seq<Pooled>, p: Pooled)
    requires multiset(pool) == multiset([]) + multiset{p}
    ensures pool == [p]
  {
    assert |multiset(pool)| == 1;
    assert pool[0] in multiset(pool);
  }

  /** Conflicts happen: of two funded transactions that spend the same unspent output, both are pooled
      when they reach an empty pool one after the other. */
  lemma DoubleSpendIsPooled(a: Tx, b: Tx, atA: Timestamp, atB: Timestamp, utxos: UtxoSet, h: Hash)
    requires Funded(a, Plain(utxos)) && Funded(b, Plain(utxos)) && HashTx(a) != HashTx(b)
    requires h in SpendsOfInputs(a.inputs) && h in SpendsOfInputs(b.inputs)
    requires forall o :: o in a.outputs ==> HashOutput(o) !in utxos
    ensures var first := Insert(a, atA, utxos, []);
            var second := Insert(b, atB, first.utxos, first.pool);
            && first.outcome == Pass == second.outcome
            && multiset(second.pool) == multiset{Pooled(atA, a), Pooled(atB, b)}
            && !ConflictFree(second.pool)
  {
    var p := Pooled(atA, a);
    PoolsIntoEmpty(a, atA, utxos);
    var first := Insert(a, atA, utxos, []);
    assert forall k :: k in first.utxos <==> k in Plain(first.utxos);
    assert forall k :: k in utxos <==> k in Plain(utxos);
    CreatesNoneOf(p, first.utxos);
    ConflictsArePooledTogether(b, atB, first.utxos, [p]);
    ConflictFreeIff(b, atB, first.utxos, [p]);
    assert !NoSharedInput(a, b) && p in [p];
  }

  // ---------- what leaves the pool ----------

  /** A block takes out exactly the transactions whose hashes it contains. */
  lemma {:induction false} WithoutHashesExactly(pool: seq<Pooled>, hashes: set<Hash>, p: Pooled)
    ensures p in WithoutHashes(pool, hashes) <==> p in pool && HashTx(p.tx) !in hashes
  {
    if pool != [] {
      WithoutHashesExactly(pool[1..], hashes, p);
      assert p in pool <==> p == pool[0] || p in pool[1..];
    }
  }

  /** A cleanup takes out exactly the transactions that are too old. */
  lemma {:induction false} UnexpiredExactly(pool: seq<Pooled>, now: Timestamp, p: Pooled)
    ensures p in Unexpired(pool, now) <==> p in pool && !Expired(p, now)
  {
    if pool != [] {
      UnexpiredExactly(pool[1..], now, p);
      assert p in pool <==> p == pool[0] || p in pool[1..];
    }
  }

  // ---------- accepting a block ----------

  lemma {:induction false} PresentValueSame(inputs: seq<TxInput>, a: Outputs, b: Outputs)
    requires forall h :: h in SpendsOfInputs(inputs) ==> h in a && h in b && a[h] == b[h]
    ensures PresentValue(inputs, a) == PresentValue(inputs, b)
  {
    if inputs != [] {
      assert SpendsOfInputs(inputs)[0] == inputs[0].prevTxOutputHash;
      forall h | h in SpendsOfInputs(inputs[1..])
        ensures h in SpendsOfInputs(inputs)
      {
        var i :| 0 <= i < |inputs[1..]| && SpendsOfInputs(inputs[1..])[i] == h;
        assert SpendsOfInputs(inputs)[i + 1] == h;
      }
      PresentValueSame(inputs[1..], a, b);
    }
  }

  /** An output under its own hash survives operations that do not spend it. */
  lemma {:induction false} EntryKept(outs: Outputs, ops: seq<Op>, h: Hash)
    requires OutputHashInjective()
    requires h in outs && HashOutput(outs[h]) == h && h !in Supply.OpSpends(ops)
    ensures h in Applied(outs, ops) && Applied(outs, ops)[h] == outs[h]
    decreases |ops|
  {
    if ops != [] {
      EntryKept(ApplyPlain(outs, ops[0]), ops[1..], h);
    }
  }

  /** The block spends no input of an entry that stays in the pool. */
  ghost predicate SpendsOnlyItsOwn(txs: seq<Tx>, remaining: seq<Pooled>) {
    forall p, h :: p in remaining && h in SpendsOfInputs(p.tx.inputs) ==> h !in Spends(txs)
  }

  lemma BlockKeepsConsistent(pool: seq<Pooled>, outs: Outputs, txs: seq<Tx>)
    requires OutputHashInjective()
    requires Consistent(pool, outs)
    requires forall h :: h in outs ==> HashOutput(outs[h]) == h
    requires SpendsOnlyItsOwn(txs, pool)
    ensures Consistent(pool, Applied(outs, TxsOps(txs)))
  {
    var after := Applied(outs, TxsOps(txs));
    forall p | p in pool
      ensures Funded(p.tx, after) && Surplus(p.tx, after) == Surplus(p.tx, outs)
    {
      forall h | h in SpendsOfInputs(p.tx.inputs)
        ensures h in outs && h in after && after[h] == outs[h]
      {
        Supply.OpsOfTxs(txs);
        EntryKept(outs, TxsOps(txs), h);
      }
      PresentValueSame(p.tx.inputs, outs, after);
    }
  }

  lemma SpentIsGone(outs: Outputs, txs: seq<Tx>, h: Hash)
    requires h in Spends(txs) && h !in Supply.HashesOf(Creates(txs))
    ensures h !in Applied(outs, TxsOps(txs))
  {
    if h in Applied(outs, TxsOps(txs)) {
      SpendSafety.LeftByBlock(outs, txs, h);
    }
  }

  /** When a block creates no hash that a pooled transaction spends, the condition is exact: any other
      spend of a pooled transaction's input leaves the pool inconsistent. */
  lemma BlockKeepsConsistentIff(pool: seq<Pooled>, outs: Outputs, txs: seq<Tx>)
    requires OutputHashInjective()
    requires Consistent(pool, outs)
    requires forall h :: h in outs ==> HashOutput(outs[h]) == h
    requires forall p, h :: p in pool && h in SpendsOfInputs(p.tx.inputs) ==> h !in Supply.HashesOf(Creates(txs))
    ensures Consistent(pool, Applied(outs, TxsOps(txs))) <==> SpendsOnlyItsOwn(txs, pool)
  {
    if SpendsOnlyItsOwn(txs, pool) {
      BlockKeepsConsistent(pool, outs, txs);
    } else {
      var p, h :| p in pool && h in SpendsOfInputs(p.tx.inputs) && h in Spends(txs);
      SpentIsGone(outs, txs, h);
      assert !Funded(p.tx, Applied(outs, TxsOps(txs)));
    }
  }
}
