/** The data of the ledger: transactions, blocks, the constants of the library
    root, and the cryptographic primitives they are identified by. */
module Types {

  // ---------- results ----------

  datatype Option<+T> = None | Some(value: T)

  /** The error a rejected call reports.  `Overflow` stands for a u64 operation that leaves its
      range: an overflow-checked build panics there, before the call has changed anything. */
  datatype Error =
    | FirstBlockPrevHashNotZero
    | PrevHashMismatch
    | TargetNotMet
    | InvalidMerkleRoot
    | TimestampNotAfterPrevious
    | NoTransactions
    | MissingOutput(missing: Hash)
    | DoubleSpend(spentTwice: Hash)
    | InvalidSignature
    | SpendingMoreThanAvailable
    | CoinbaseHasInputs
    | CoinbaseHasNoOutputs
    | CoinbaseAmountWrong
    | TxAlreadyInMempool(pooled: Hash)
    | InsufficientFunds
    | UnknownPublicKey
    | Overflow
    | RetargetFault

  datatype Outcome = Pass | Fail(error: Error) {
    predicate IsFailure() {
      Fail?
    }

    function PropagateFailure<T>(): Result<T>
      requires Fail?
    {
      Failure(error)
    }
  }

  datatype Result<+T> = Success(value: T) | Failure(error: Error) {
    predicate IsFailure() {
      Failure?
    }

    function PropagateFailure<U>(): Result<U>
      requires Failure?
    {
      Failure(error)
    }

    function Extract(): T
      requires Success?
    {
      value
    }
  }

  // ---------- constants ----------

  const U64_MAX: nat := 0xFFFF_FFFF_FFFF_FFFF

  /** 50 bitcoins in sats. */
  const INITIAL_SUBSIDY: nat := 5_000_000_000

  const HALVING_INTERVAL: nat := 210
  const DIFFICULTY_UPDATE_INTERVAL: nat := 50
  const MAX_MEMPOOL_TRANSACTION_AGE: nat := 600
  const BLOCK_TRANSACTION_CAP: nat := 20

  /** Timestamps count nanoseconds. */
  const NANOS_PER_SECOND: nat := 1_000_000_000

  // ---------- entities ----------

  type Hash = nat
  type Signature = nat
  type PublicKey = nat
  type PrivateKey = nat
  type Timestamp = int
  type Amount = n: nat | n <= U64_MAX

  datatype TxInput = TxInput(prevTxOutputHash: Hash, signature: Signature)

  datatype TxOutput = TxOutput(amount: Amount, uniqueId: nat, pubkey: PublicKey)

  datatype Tx = Tx(inputs: seq<TxInput>, outputs: seq<TxOutput>)

  datatype BlockHeader = BlockHeader(
    timestamp: Timestamp,
    nonce: Amount,
    prevBlockHash: Hash,
    merkleRoot: Hash,
    target: nat
  )

  datatype Block = Block(header: BlockHeader, transactions: seq<Tx>)

  /** The outputs a block may spend, by output hash. */
  type Outputs = map<Hash, TxOutput>

  /** An entry of the UTXO set: the "referenced by a pooled transaction" mark and the output. */
  datatype Utxo = Utxo(marked: bool, output: TxOutput)

  type UtxoSet = map<Hash, Utxo>

  // ---------- cryptography ----------

  datatype Primitives = Primitives(
    hashTx: Tx -> Hash,
    hashOutput: TxOutput -> Hash,
    hashHeader: BlockHeader -> Hash,
    hashPair: (Hash, Hash) -> Hash,
    verify: (Signature, Hash, PublicKey) -> bool,
    sign: (Hash, PrivateKey) -> Signature,
    publicKey: PrivateKey -> PublicKey
  )

  /** Arbitrary but fixed functions.  Nothing is assumed about them: a result that needs
      collision-freedom or correct signing says so in a requires clause. */
  const CRYPTO: Primitives

  function HashTx(tx: Tx): Hash { CRYPTO.hashTx(tx) }

  function HashOutput(output: TxOutput): Hash { CRYPTO.hashOutput(output) }

  function HashHeader(header: BlockHeader): Hash { CRYPTO.hashHeader(header) }

  function HashPair(left: Hash, right: Hash): Hash { CRYPTO.hashPair(left, right) }

  predicate Verify(signature: Signature, hash: Hash, key: PublicKey) {
    CRYPTO.verify(signature, hash, key)
  }

  function Sign(hash: Hash, key: PrivateKey): Signature { CRYPTO.sign(hash, key) }

  function PublicKeyOf(key: PrivateKey): PublicKey { CRYPTO.publicKey(key) }

  const ZERO_HASH: Hash := 0

  /** No two distinct outputs have the same hash. */
  ghost predicate OutputHashInjective() {
    forall a, b :: HashOutput(a) == HashOutput(b) ==> a == b
  }

  /** Distinct headers have distinct hashes, and no header hashes to zero. */
  ghost predicate HeaderHashInjective() {
    && (forall a, b :: HashHeader(a) == HashHeader(b) ==> a == b)
    && (forall a :: HashHeader(a) != ZERO_HASH)
  }

  /** No two distinct transactions have the same hash. */
  ghost predicate TxHashInjective() {
    forall a, b :: HashTx(a) == HashTx(b) ==> a == b
  }

  /** Leaves and pairs of a Merkle tree are hashed without collision, within and across the two. */
  ghost predicate MerkleHashInjective() {
    && TxHashInjective()
    && (forall a, b, c, d :: HashPair(a, b) == HashPair(c, d) ==> a == c && b == d)
    && (forall tx, a, b :: HashTx(tx) != HashPair(a, b))
  }

  ghost predicate SigningCorrect() {
    forall hash, key :: Verify(Sign(hash, key), hash, PublicKeyOf(key))
  }

  // ---------- sums and distinctness ----------

  ghost predicate Distinct<T>(s: seq<T>) {
    forall i, j :: 0 <= i < j < |s| ==> s[i] != s[j]
  }

  function SumOutputs(outputs: seq<TxOutput>): nat {
    if outputs == [] then 0 else outputs[0].amount + SumOutputs(outputs[1..])
  }

  lemma SumOutputsConcat(a: seq<TxOutput>, b: seq<TxOutput>)
    ensures SumOutputs(a + b) == SumOutputs(a) + SumOutputs(b)
  {
    if a == [] {
      assert a + b == b;
    } else {
      assert (a + b)[1..] == a[1..] + b;
      SumOutputsConcat(a[1..], b);
    }
  }

  lemma SumOutputsSnoc(a: seq<TxOutput>, i: nat)
    requires i < |a|
    ensures SumOutputs(a[..i + 1]) == SumOutputs(a[..i]) + a[i].amount
    ensures SumOutputs(a[..i + 1]) <= SumOutputs(a)
  {
    assert a[..i + 1] == a[..i] + [a[i]];
    SumOutputsConcat(a[..i], [a[i]]);
    assert a == a[..i + 1] + a[i + 1..];
    SumOutputsConcat(a[..i + 1], a[i + 1..]);
  }
}
