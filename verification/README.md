# A verified model of the toy-btc ledger

toy-btc is a small Bitcoin-like system: nodes keep a chain of blocks, a set of unspent transaction
outputs (UTXOs) and a pool of waiting transactions; miners search nonces on templates the nodes hand
out; wallets select coins to pay with. This project models that system in Dafny and proves what its
steps keep, over every run.

`dafny verify dfyconfig.toml` checks everything.

## How the model is laid out

| file | what it holds |
|---|---|
| `Types.dfy`, `Arithmetic.dfy` | entities, constants, hashing and signing; powers of two, shifts, floor division |
| `Merkle.dfy` | the layered Merkle loop, the tree it computes, what equal roots imply |
| `BlockRules.dfy` | the transaction verifier: its loops, and the statement about a block they decide |
| `Replay.dfy` | the UTXO set as a fold of spends and creations; rebuilding over a stale set |
| `Chain.dfy` | acceptance of a block, valid and accepted chains, what a tip commits to |
| `Supply.dfy`, `SpendSafety.dfy` | value conservation, the supply cap; spends against creations |
| `Overflow.dfy` | which of the verifier's sums can overflow, and which cannot |
| `BlockErrors.dfy` | which error a refused block is refused with |
| `Difficulty.dfy` | the clamped 256-bit retarget, and the interval it measures |
| `Mempool.dfy`, `PoolConsistency.dfy` | the pool: insertion, replacement, sorting, expiry, marks, consistency |
| `PoolOutcomes.dfy` | what the pool's operations do entry by entry and mark by mark, and which outcome they report |
| `Ledger.dfy` | the class `Blockchain`, whose methods update the ledger in place |
| `Node.dfy` | a node as a state machine with its file; what every run keeps, and what runs without a faulting block keep |
| `Panics.dfy`, `Respending.dfy` | exactly when a retarget panics, what that leaves, which blocks it lets through, what they mint |
| `Resuming.dfy` | what saving a ledger and starting on the file leaves of it |
| `Runs.dfy`, `Targets.dfy` | theorems over all runs: agreement, money, spends, signatures; the target |
| `Marks.dfy`, `PoolRuns.dfy` | the marks and the pool over all runs |
| `Mining.dfy`, `Templates.dfy` | nonce search, acceptance of mined templates; what a template holds, when there is one, when it can be mined |
| `Wallet.dfy`, `Payments.dfy` | coin selection; a node pools and mines what the wallet builds |
| `Sync.dfy` | finding the longest chain, downloading, catching up, forks |
| `Gossip.dfy`, `Propagation.dfy` | block gossip between nodes: it ends, and reaches everyone connected |

The ledger's state is also a value, `Ledger.State`. Each method of `Ledger.Blockchain` is proved to
carry out a function on that value, and the theorems are about those functions and the runs they
generate.

## How to read the statements

* **Hashes and signatures** are arbitrary fixed functions (`Types.CRYPTO` is a constant without a
  value, so every result holds whatever it is). Where a result needs collision-freedom, or that
  signing and verifying agree, a `requires` clause says so. Hash values are unbounded naturals.
* **Time** is an input, in nanoseconds. Identifiers of outputs and the readings of the clock during a
  search are inputs as well.
* **64-bit arithmetic** is checked, as in a debug build: an operation that leaves its range is an
  `Overflow` failure, before the call has changed anything, except where the source has already
  changed marks or the pool by then, and then those changes are kept. On a valid chain the verifier's
  sums of inputs, its fees and its reward always fit (`Overflow.ValidChainSumsFit`); the outputs a
  transaction lists itself can overflow it (`Overflow.ListedOutputsOverflow`), but never a valid block
  (`Supply.VerifierPassesValid`).
* **256-bit arithmetic**: the retarget runs after the block has been pushed. If its scaled target does
  not fit in 256 bits the source panics there, so the block stays in the chain and the rebuild that
  every caller would run next is skipped. The model keeps that state (`RetargetFault`, "a fault"). The
  retarget runs again at the end of a synchronisation and of a load, and can panic there too.
  `Panics.FaultsExactly` and `Runs.PanicsExactlyInRuns` say exactly when each of the three happens, and
  `Runs.WindowFaultFree` gives a condition on timestamps that rules all of them out.
* **Runs** contain every step, faulting ones included. `Node.Tracked` holds in all of them: each block
  passed the checks when it was pushed, and the UTXO set is the chain's replay or, right after a
  retarget height, one block behind. What else a result needs is in its `requires`: `NoBlockFaults`
  (no received block faulted), `Current` (that, or not at a retarget height) or `NothingLost` (that, or
  nothing was spent again behind a fault).
* A received block is always added and the UTXO set rebuilt under one lock, so the two are one step,
  `Ledger.Submitted`.

## Where the code differs from what it says

* The mempool's replacement rule is described as looking for the pooled transaction that *references*
  a spent output. The code compares the *outputs* of pooled transactions with it.
  `PoolConsistency.DisplacesExactly` and `PoolConsistency.ConflictsArePooledTogether` state what
  follows: conflicting transactions are pooled side by side.
  `PoolConsistency.DoubleSpendIsPooled` gives two transactions that spend one output and are both
  pooled, `PoolConsistency.ConflictFreeIff` says exactly when a pool stays free of conflicts, and
  `Payments.ConflictStopsMining` that nothing can be mined from templates with a conflict in them.
* Rebuilding the UTXO set after every accepted block is meant to keep it in step with the chain. A
  panicking retarget skips one rebuild, so the next block is checked against a set one block behind:
  it may spend again what the faulting block spent (`Respending.NextAfterFault`; the very same
  transactions get through, `Respending.RespendIsTaken`), and money is minted
  (`Respending.SupplyIsIssuedAndMinted`). A peer cannot catch up with such a chain
  (`Sync.ReachablePeerCatchesUpIff`), a mark may outlive its transaction until the next rebuild
  (`Marks.MarksAfterFaultIff`), and a transaction pooled in between may lose its input
  (`PoolRuns.PooledBehindFault`). `Respending.SafeIffNothingRespent` gives the exact condition
  under which a chain stays valid, and spends nothing more often than it created it.
* A retarget is meant to compare the time of the last 50 blocks with 500 seconds. It measures the 49
  gaps between them, so blocks exactly ten seconds apart lower the target by two percent every time
  (`Difficulty.EvenChainRetargets`).
* Loading a saved ledger is meant to resume it. At a multiple of 50 blocks it adjusts the target a
  second time for the same blocks; `Resuming.ResumesIff` gives the exact condition under which nothing
  is lost but pool and marks. The repeated retarget can panic on a ledger whose last
  block was taken in without a fault (`Panics.CleanBlockPanickingLoad`, with an input in
  `Panics.QuarterTargetLoadPanics`), and then does so at every start (`Panics.EveryStartPanics`).
* Proof of work is checked against the target in the tip's header, while a template carries the
  ledger's current target. `Mining.MinedTemplateExtendsIff` states the exact condition under which a
  mined template is accepted: besides that target, the time and the selected transactions matter.
* The TCP handler checks its own template one height too far; `Mining.CheckAtNextHeight` says exactly
  when that check fails.
* A Merkle root alone does not fix a block's transactions; `Chain.MerkleRootFixesTransactions` shows
  that the double-spend check closes the gap for transactions with inputs, and
  `Chain.RepetitionPassesIffNoInputs` that it closes it for no others.

## Model

| member | source | states |
|---|---|---|
| `Merkle.Calculate` | lib/src/merkle_root.rs:10-32 | the layer-replacing loop ends and returns the root of the pairwise layers, zero for no transactions |
| `Merkle.RootIsTree` | lib/src/merkle_root.rs:21-29 | the layers compute the root of the top-down tree of least sufficient height, in which a left subtree stands in for a right one without leaves |
| `Merkle.SmallRoots` | lib/src/merkle_root.rs:10-32 | the roots of no, one, two and three transactions, the last with its third leaf paired with itself |
| `Merkle.EqualMerkleRoots` | lib/src/merkle_root.rs:10-32 | lists with equal roots are equal, or the longer extends the shorter and repeats one of its transactions other than the first; equal lengths leave only equality |
| `Merkle.RepeatedLastLeafKeepsRoot` | lib/src/merkle_root.rs:23-27 | repeating the last of an odd number (at least 3) of transactions keeps the root |
| `BlockRules.VerifyTransactions` | lib/src/blockchain/block.rs:33-101 | the accumulating loops report the first error in source order, or pass, as the recursive scan does |
| `BlockRules.ScanTxsExact` | lib/src/blockchain/block.rs:43-96 | the scan passes exactly the lists that are signed, balanced, within 64 bits and spend nothing twice in the whole block; its value is their fees |
| `BlockRules.VerifyCoinbaseTransaction` | lib/src/blockchain/block.rs:104-137 | the coinbase checks in order, with the divisor's overflow |
| `BlockRules.DivisorBelowFinalHeight` | lib/src/blockchain/block.rs:125-126 | below height 13440 the division by a power of two equals the shift form of the subsidy; from there on the divisor overflows |
| `BlockRules.CheckTransactionsExact` | lib/src/blockchain/block.rs:33-137 | below the final height, the verifier passes exactly the valid lists (over the integers) whose sums fit in 64 bits |
| `BlockRules.SubsidyHalves` | lib/src/blockchain.rs:321-325 | the subsidy starts at 5 * 10^9 sats, halves, rounded down, every 210 blocks and is constant in between |
| `BlockErrors.HeaderError` | lib/src/blockchain.rs:79-121 | which header check a refused block is refused for, in order, and that a refusal, whatever for, changes nothing |
| `BlockErrors.BlockInputError` | lib/src/blockchain/block.rs:51-82 | behind transactions that pass, the first bad input decides the error: not unspent, spent earlier in the block, not signed by its owner, in this order |
| `BlockErrors.BlockOverspends` | lib/src/blockchain/block.rs:84-93 | the first transaction that pays out more than it takes in decides the error |
| `BlockErrors.BlockCoinbaseError` | lib/src/blockchain/block.rs:109-136 | behind transactions that pass, the coinbase decides: inputs, no outputs, the divisor's overflow, a claim other than subsidy plus fees, in this order |
| `Replay.RebuildIsReplay` | lib/src/blockchain.rs:136-149 | in a state that agrees with the chain, rebuilding over the uncleared, marked set equals replaying from nothing and equals the set with its marks cleared |
| `Replay.RebuildAfterAppend` | lib/src/blockchain.rs:136-149 | after a block is pushed, rebuilding over the stale set equals replaying the whole chain from nothing, equals applying only the new block to the unmarked old set, leaves no mark and is idempotent |
| `Replay.RebuildCatchesUp` | lib/src/blockchain.rs:136-149 | rebuilding over what any front part of the chain left, marks and all, equals replaying the whole chain from nothing and leaves no mark |
| `Replay.UnspentKeysTouched` | lib/src/blockchain.rs:144-146 | every unspent output is stored under its own hash |
| `Replay.UnspentStep` | lib/src/blockchain.rs:137-148 | one more transaction in the newest block leaves each hash with its own last output of that hash, with none if it spends it, and as it was otherwise |
| `Chain.HeightBound` | lib/src/blockchain/block.rs:125-126 | no chain of accepted blocks, stale verdicts included, is longer than 13440 |
| `Chain.TimestampsIncrease` | lib/src/blockchain.rs:113-118 | timestamps strictly increase along a chain of accepted blocks |
| `Chain.NoBlockTwice` | lib/src/blockchain.rs:113-118 | a block in the chain is never accepted again |
| `Chain.MerkleRootFixesTransactions` | lib/src/blockchain.rs:108-121 | two lists that pass the verifier, at any heights over any outputs, and have equal Merkle roots are the same list, whatever their lengths, if the non-coinbase transactions of one have inputs |
| `Chain.RepetitionPassesIffNoInputs` | lib/src/blockchain/block.rs:64-70 | the list with its last transaction repeated has the same root and passes exactly if that transaction has no inputs |
| `Chain.SameTipSameHeaders` | lib/src/blockchain.rs:82-99 | chains of accepted blocks with equal tip hashes have equal height and equal headers |
| `Chain.SameTipSameHistory` | lib/src/blockchain.rs:82-119 | with equal first transactions they are the same blocks |
| `Supply.OpsConserveValue` | lib/src/blockchain.rs:139-147 | replaying spends and creations never makes value: at most what was there less what the verifier counted plus what was created, exactly that for fresh hashes |
| `Supply.OpsConserveHeld` | lib/src/blockchain.rs:139-147 | replay conserves value even where spent entries are missing: at most what was there less what was there to be spent plus what was created, exactly that for fresh hashes |
| `Supply.BlockConservesValue` | lib/src/blockchain/block.rs:33-137 | an accepted block adds at most its subsidy to the unspent total, exactly that when its outputs are fresh: fees are moved, not minted |
| `Supply.SupplyIsIssued` | lib/src/blockchain/block.rs:33-137 | the unspent outputs of a chain are worth at most the sum of its subsidies, exactly that when no output hash repeats |
| `Supply.IssuedBelowCap` | lib/src/blockchain.rs:321-325 | whatever the height, less than 2.1 * 10^12 sats are issued |
| `Supply.SubsidyEnds` | lib/src/blockchain.rs:321-325 | the subsidy is zero exactly from height 6930 |
| `Supply.VerifierPassesValid` | lib/src/blockchain/block.rs:33-137 | on a valid chain below the final height 64-bit arithmetic turns no valid list away: the verifier passes exactly the lists that are valid over the integers |
| `Overflow.VerifierSumsFit` | lib/src/blockchain/block.rs:80-130 | over outputs worth at most 2^64 - 1 less the initial subsidy the verifier overflows on no list, passing or not, whose transactions' own outputs add up within 64 bits |
| `Overflow.ValidChainSumsFit` | lib/src/blockchain/block.rs:80-130 | on a valid chain an overflow always comes from outputs that some transaction lists: sums of inputs, fees and the reward never overflow |
| `Overflow.RunSumsFit` | lib/src/blockchain/block.rs:80-130 | so it is against the set a node holds, in every run in which nothing was spent again behind a fault |
| `Overflow.ListedOutputsOverflow` | lib/src/blockchain/block.rs:84-86 | two listed outputs of 2^64 - 1 overflow the verifier at every height over any outputs, in the coinbase or in a later transaction |
| `SpendSafety.SpendsCoveredByEarlierCreations` | lib/src/blockchain/block.rs:52-70 | each hash is spent at most as often as strictly earlier blocks create it, and once less than it is created while it is unspent |
| `SpendSafety.SpentAtMostOnce` | lib/src/blockchain/block.rs:52-70 | when no output hash repeats, nothing is spent twice in the whole history |
| `SpendSafety.EverySpendIsSigned` | lib/src/blockchain/block.rs:72-78 | every input of every accepted block, stale verdicts included, spends an output a strictly earlier block created, with a signature valid under its key |
| `Difficulty.RescaledBounds` | lib/src/blockchain.rs:178-202 | for a legal target and a non-negative interval the retarget is the floor of target * seconds / 500 clamped to a quarter and four times the old target and to MIN_TARGET; it panics exactly when that floor leaves 256 bits |
| `Difficulty.RetargetIsLocal` | lib/src/blockchain.rs:161-173 | chains of multiples of 50 blocks that end with the same 50 retarget alike |
| `Difficulty.RetargetMeasures` | lib/src/blockchain.rs:161-203 | with k whole seconds between the first and the last of the newest 50 blocks, a retarget sets floor(target * k / 500) clamped to a quarter, four times the target and MIN_TARGET, or panics where that leaves 256 bits |
| `Difficulty.EvenChainRetargets` | lib/src/blockchain.rs:161-203 | on evenly stamped blocks the factor is 49 steps over 500 seconds, so blocks exactly ten seconds apart lower the target by two percent |
| `Difficulty.NoFaultWithinBound` | lib/src/blockchain.rs:183-191 | intervals up to 32,768,000 seconds never overflow |
| `Difficulty.FaultBoundIsTight` | lib/src/blockchain.rs:183-191 | one second more overflows at MIN_TARGET |
| `Difficulty.RetargetPanicsExactly` | lib/src/blockchain.rs:152-191 | on a chain with increasing times a retarget panics exactly at a retarget height whose scaled target leaves 256 bits |
| `Difficulty.ChainTargetBounds` | lib/src/blockchain.rs:152-203 | after k retargets of a chain the target is at least MIN_TARGET / 4^k rounded down and at most MIN_TARGET |
| `Difficulty.PositiveFor119Retargets` | lib/src/lib.rs:24-29 | that lower bound is positive for up to 119 retargets |
| `Mempool.SortByFeeSorts` | lib/src/blockchain.rs:313-315 | the sort returns the same entries in ascending fee order |
| `Mempool.SortByFeeStable` | lib/src/blockchain.rs:313-315 | entries with equal fees keep their order |
| `Mempool.InsertByFeeAt` | lib/src/blockchain.rs:313-315 | in a sorted pool a newcomer lands right behind the entries with no higher fee |
| `Mempool.InsertKeepsMarks` | lib/src/blockchain.rs:206-318 | whatever an insertion does, including early returns and failures half way, marked outputs stay inputs of pooled transactions and no output is gained, lost or changed |
| `Mempool.InsertKeepsOutputs` | lib/src/blockchain.rs:206-318 | whatever the marks were, an insertion gains, loses or changes no output |
| `Mempool.ExpiryKeepsMarks` | lib/src/blockchain.rs:328-347 | so does a cleanup |
| `PoolOutcomes.AlreadyPooledIff` | lib/src/blockchain.rs:209-213 | an insertion reports a transaction as already pooled exactly if an entry has its hash, and then changes nothing |
| `PoolOutcomes.BadInputReported` | lib/src/blockchain.rs:215-233 | the first absent or repeated input is reported as missing or as spent twice, and nothing changes |
| `PoolOutcomes.DisplaceOneExactly` | lib/src/blockchain.rs:240-280 | what the replacement loop does for one input, mark by mark: nothing if it is unmarked, only the mark goes if no entry makes it, else the first entry that makes it leaves with its marks, unless it pays strictly more |
| `PoolOutcomes.PassMeansPooledOrOutbid` | lib/src/blockchain.rs:206-318 | an insertion that succeeds has pooled the newcomer with all its inputs marked, or a pooled maker of a marked input pays strictly more and nothing was added |
| `PoolOutcomes.UncoveredReported` | lib/src/blockchain.rs:282-299 | a transaction with good inputs worth less than its outputs is refused for that, unless the replacement loop finds a maker of a marked input and fails on the fee; the pool stays |
| `PoolOutcomes.SpendingMoreMeans` | lib/src/blockchain.rs:282-299 | no covered transaction is refused for that |
| `PoolOutcomes.RefusalUnmarks` | lib/src/blockchain.rs:270-299 | such a refusal clears the marks of the transaction's inputs, and of nothing else |
| `PoolOutcomes.BlockEmptiesPool` | lib/src/blockchain.rs:123-128 | a block that passes the checks, faulting or not, takes out of the pool every copy of exactly the transactions whose hashes it contains, and leaves the rest in order |
| `PoolOutcomes.CleanupExactly` | lib/src/blockchain.rs:328-347 | a cleanup takes out every copy of exactly the entries older than 600 seconds, keeps the rest in order, and clears the marks of their inputs and no others |
| `PoolConsistency.InsertKeepsConsistent` | lib/src/blockchain.rs:206-318 | an insertion keeps a consistent pool (distinct unspent inputs covering outputs, no transaction twice, ascending fees) consistent |
| `PoolConsistency.DisplacesExactly` | lib/src/blockchain.rs:240-280 | the replacement loop leaves the pool alone and goes on exactly if no marked input is an output some pooled transaction creates |
| `PoolConsistency.DisplacedPaidNoMore` | lib/src/blockchain.rs:250-270 | a displaced transaction paid no higher fee than the newcomer |
| `PoolConsistency.ConflictsArePooledTogether` | lib/src/blockchain.rs:243-248 | where pooled transactions create no unspent output, a funded newcomer displaces nothing and joins the pool, also beside transactions spending the same inputs |
| `PoolConsistency.ConflictFreeIff` | lib/src/blockchain.rs:243-248 | such an insertion keeps a conflict-free pool conflict-free exactly if no pooled transaction shares an input with the newcomer |
| `PoolConsistency.DoubleSpendIsPooled` | lib/src/blockchain.rs:206-318 | two funded transactions that spend one unspent output are both pooled when they reach an empty pool one after the other |
| `PoolConsistency.WithoutHashesExactly` | lib/src/blockchain.rs:123-126 | a block takes out of the pool exactly the transactions whose hashes it contains |
| `PoolConsistency.UnexpiredExactly` | lib/src/blockchain.rs:332-340 | a cleanup takes out exactly those older than 600 seconds |
| `PoolConsistency.BlockKeepsConsistentIff` | lib/src/blockchain.rs:123-128 | an accepted block keeps the remaining pool consistent exactly if it spends none of its inputs (when it creates no hash the pool spends) |
| `Ledger.Blockchain.AddBlock` | lib/src/blockchain.rs:79-133 | the checks in source order; a rejected block changes nothing, an accepted one is pushed, its transactions leave the pool and the target is adjusted; which errors, which pool and which target is said by `BlockErrors.HeaderError`, `PoolOutcomes.BlockEmptiesPool` and `Difficulty.RetargetMeasures` |
| `Ledger.Blockchain.RebuildUtxoSet` | lib/src/blockchain.rs:136-149 | the nested loops leave the fold of all spends and creations over the set as it was |
| `Ledger.Blockchain.TryAdjustTarget` | lib/src/blockchain.rs:152-203 | only the target changes, to the rescaled one at retarget heights; a panic leaves it and is reported; `Difficulty.RetargetMeasures` says to which |
| `Ledger.Blockchain.AddToMempool` | lib/src/blockchain.rs:206-318 | the new marks, pool and outcome of an insertion, for every early return and failure, told apart by the `PoolOutcomes` lemmas |
| `Ledger.Blockchain.CleanupMempool` | lib/src/blockchain.rs:328-347 | expired entries leave and their inputs are unmarked, exactly as `PoolOutcomes.CleanupExactly` says |
| `Ledger.Blockchain.SubmitBlock` | node/src/grpc/miner_api.rs:163-170 | add and, only on success, rebuild |
| `Ledger.Blockchain.LoadFrom` | node/src/blockchain.rs:12-34 | the loaded ledger replaces the old one, is rebuilt and retargeted; a panic of the retarget is reported and leaves the rebuilt ledger |
| `Node.ReceiveSound` | node/src/grpc/peers.rs:451-456 | without a fault a received block either changes nothing and does not extend the chain, or extends it and leaves exactly the chain's replay, unmarked |
| `Node.LoadedSound` | node/src/blockchain.rs:12-34 | loading a sound saved ledger succeeds exactly if its retarget does not panic, and either way leaves a sound ledger without marks and the same blocks |
| `Resuming.LoadKeepsTarget` | node/src/blockchain.rs:20-29 | away from the multiples of 50 blocks a load passes and keeps the saved target |
| `Resuming.LoadRetargets` | node/src/blockchain.rs:20-29 | at them it sets the clamp of floor(saved target * k / 500), or panics and keeps it |
| `Resuming.ResumesIff` | node/src/blockchain.rs:12-34 | saving and starting again, which drops pool and marks, keeps everything else exactly if the chain is not at a multiple of 50 blocks, or its newest 50 leave the target alone or make the start panic |
| `Node.EveryRunTracked` | node/src/blockchain.rs:12-48 | in every run, panics included, every block passed the checks when it was pushed, the UTXO set is the replay of the chain or, right after a retarget height, of all but its last block, and the target is legal; so is the file |
| `Node.EveryRunGood` | node/src/blockchain.rs:12-48 | in every run in which no received block faults the chain is valid, the UTXO set is its replay, the target is legal and every mark refers to a pooled transaction, whatever is rejected, expires, is synchronised, saved or restarted on the way |
| `Marks.MarksInEveryRun` | lib/src/blockchain.rs:206-347 | in every run, panics included, a marked output is an input of a pooled transaction or, at a retarget height, was spent by the last block; so off retarget heights every mark refers to a pooled transaction |
| `Marks.MarksAfterFaultIff` | lib/src/blockchain.rs:123-130 | after a fault the marks all refer to pooled transactions exactly if each marked input of an entry the block takes out is an input of an entry that stays |
| `Panics.FaultsExactly` | lib/src/blockchain.rs:128-191 | a received block faults exactly if it extends the chain to a retarget height and the scaled target leaves 256 bits |
| `Panics.CleanBlockPanickingLoad` | node/src/blockchain.rs:20-29 | a block taken in without a fault at a retarget height leaves a saved ledger whose load panics exactly if the new target, scaled by the same interval again, leaves 256 bits |
| `Panics.QuarterTargetLoadPanics` | node/src/blockchain.rs:20-29 | from a quarter of MIN_TARGET an interval of 131,000,000 seconds does that |
| `Respending.VerdictsAgree` | lib/src/blockchain/block.rs:47-82 | a block that passes over one chain's unspent outputs passes over another's exactly if everything it spends is unspent there too |
| `Respending.StateAfterFault` | lib/src/blockchain.rs:123-130 | in any state a run reaches, a fault leaves the extending block in the chain, its transactions out of the pool, and set, marks and target as before: the set is one block behind, and the marks are sound exactly if no taken-out entry had a marked input of its own |
| `Respending.NextAfterFault` | lib/src/blockchain.rs:121-149 | after a fault in any state a run reaches, a block is checked against the set one block behind; one that extends the chain is refused exactly if it spends what only the faulting block created; one that is taken brings the set up to date and keeps a valid chain valid exactly if it spends nothing the faulting block spent, which otherwise is spent twice more than before |
| `Respending.RespendIsTaken` | lib/src/blockchain.rs:100-121 | a block with the faulting block's transactions under a header that fits is taken while the subsidy stays the same; everything they spend is spent again and the chain is not valid |
| `Respending.ValidIffNothingRespent` | lib/src/blockchain.rs:79-133 | a chain of accepted blocks is valid exactly if no block right behind a retarget height spends what the block before it spent (for blocks that create nothing they spend) |
| `Respending.SafeIffNothingRespent` | lib/src/blockchain/block.rs:52-70 | for distinct output hashes, nothing in such a chain is spent more often than created if and only if the same holds |
| `Respending.SupplyIsIssuedAndMinted` | lib/src/blockchain/block.rs:33-137 | the unspent outputs of a chain of accepted blocks are worth at most its subsidies plus the value spent again behind faults, exactly that for distinct output hashes |
| `Runs.ReplicasAgree` | lib/src/blockchain.rs:79-133 | nodes with equal blocks and current sets, however reached, have equal unspent outputs, give every block the same verdict, that of the block list alone, and reach equal outputs after it; sets are current unless a block faulted, and then except right after a retarget height |
| `Runs.SameTipSameLedger` | lib/src/blockchain.rs:82-119 | in any two runs, equal tip hashes give equal heights and headers; with equal first transactions also equal blocks, and where both sets are current equal unspent outputs |
| `Runs.MoneyInEveryRun` | lib/src/blockchain/block.rs:33-137 | in every run the height is at most 13440 and the unspent total at most what was issued and minted, exactly that for distinct hashes |
| `Runs.MoneyWithinCap` | lib/src/blockchain/block.rs:33-137 | unless something was spent again behind a fault, what the ledger holds is worth at most the issued subsidies, below the cap, exactly them for distinct hashes and a current set |
| `Runs.SpendsInEveryRun` | lib/src/blockchain/block.rs:47-82 | unless something was spent again behind a fault, nothing is spent more often than created, once less while unspent |
| `Runs.SafeExactly` | lib/src/blockchain/block.rs:47-82 | in every run with distinct output hashes that condition is exact |
| `Runs.SignedInEveryRun` | lib/src/blockchain/block.rs:72-78 | in every run each input of each block is signed under the key of an output an earlier block created |
| `Targets.TargetBounds` | lib/src/blockchain.rs:193-202 | in every run, panics, restarts and synchronisations included, after k retargets the target of the ledger, and that of the file, is at least MIN_TARGET / 4^k rounded down and at most MIN_TARGET |
| `Targets.ZeroTakes120Retargets` | lib/src/lib.rs:24-29 | so no target is zero before its 120th retarget |
| `Targets.TargetOfChain` | lib/src/blockchain.rs:130-203 | without a restart, a synchronisation's retarget or a faulting block the target is a function of the blocks, retargeted once for every 50, and not zero before height 6000 |
| `Runs.PanicsExactlyInRuns` | node/src/grpc/peers.rs:319-327 | in any run the retarget that ends a synchronisation, and that of a load, panics exactly when its chain is at a retarget height and the target scaled once more leaves 256 bits |
| `Runs.WindowFaultFree` | lib/src/blockchain.rs:162-191 | in a run whose received blocks are stamped within 32,768,000 seconds no retarget panics, on a block, after a synchronisation or on a load |
| `Runs.ReplayHoldsIffNoFault` | lib/src/blockchain.rs:128-130 | after a block with a new first coinbase output is pushed, the UTXO set is the chain's replay exactly if there was no fault |
| `PoolRuns.PoolConsistentInRuns` | lib/src/blockchain.rs:206-347 | in every run, faults included, whose rebuilds add only blocks that spend a pooled input by containing the transaction, the pool is consistent at every point, so every fee is defined |
| `PoolRuns.PoolConsistentIff` | lib/src/blockchain.rs:123-149 | where no added block creates a hash a pooled transaction already spends, that condition is exact |
| `PoolRuns.RespectsWithoutFaults` | lib/src/blockchain.rs:123-128 | while no block faults it is enough that accepted blocks spend pooled inputs only by containing the transaction |
| `PoolRuns.PooledBehindFault` | lib/src/blockchain.rs:136-149 | behind a fault it is not: a transaction that spends what the faulting block spent is still pooled, and the next rebuild takes its input away |
| `Mining.Mine` | lib/src/blockchain/block.rs:226-248 | returns the first matching candidate, or the last one if none of the steps + 1 candidates matches |
| `Mining.CandidateFields` | lib/src/blockchain/block.rs:235-241 | previous hash, Merkle root and target never change, nonces are consecutive modulo 2^64, the time changes only when they run out |
| `Mining.CandidateTime` | lib/src/blockchain/block.rs:235-241 | once the nonces have run out the time is the clock reading of the step at which they last did, and the nonce counts the steps since |
| `Mining.FailedSearchIsExhaustive` | lib/src/blockchain/block.rs:226-248 | a failed search without wrap leaves none of its steps + 1 consecutive nonces matching |
| `Mining.SearchesCompose` | lib/src/blockchain/block.rs:234-246 | searching on from where a search stopped visits what one longer search visits |
| `Mining.CalculateMinerFees` | lib/src/blockchain/block.rs:140-172 | the template's fee loop, with missing outputs and overflow as errors |
| `Templates.MinerFeesExactly` | lib/src/blockchain/block.rs:140-172 | the fee loop succeeds exactly if every transaction's inputs are there and cover its outputs and all sums fit in 64 bits, and returns what is left over |
| `Templates.MinerFeesStop` | lib/src/blockchain/block.rs:148-159 | behind transactions that can be paid for, the first absent input is the error |
| `Mining.FetchTemplate` | node/src/grpc/miner_api.rs:41-107 | yields a template, coinbase paying exactly subsidy plus fees in front of the first 20 pooled transactions, or fails with the first missing output, or where a fee or a sum leaves its range; `Templates.TemplateLists` says which in which place |
| `Templates.TemplateLists` | node/src/grpc/miner_api.rs:44-107 | a template has 1 + min(pool size, 20) transactions: a coinbase with one output, of the subsidy and what the others leave, and then the i-th of the pool in its i-th place; its header continues the tip at the ledger's target with nonce zero |
| `Templates.TemplateExistsIff` | node/src/grpc/miner_api.rs:78-104 | there is a template exactly if each of the first 20 pooled transactions has its inputs there and covering its outputs, the sums fit and the height is below 13440 |
| `Templates.AbsentInputNoTemplate` | lib/src/blockchain/block.rs:148-159 | while one of the first 20 has an absent input, no block is a template |
| `Templates.FrontMinableIff` | node/src/grpc/miner_api.rs:54-61 | on a sound ledger the front of a consistent pool can be mined exactly if its first 20 transactions are signed and no two share an input |
| `Templates.ConflictFreePoolIsMined` | node/src/grpc/miner_api.rs:41-107 | a consistent, conflict-free pool of signed transactions always yields a template, and what is mined from it extends the chain exactly if it meets the tip's target and is later |
| `Mining.TemplateCoinbasePasses` | node/src/grpc/miner_api.rs:97-102 | the template's own coinbase check never fails |
| `Mining.CheckAtNextHeight` | node/src/handler.rs:327-333 | checked one height further it fails exactly on the last block of a halving era with a subsidy, and at the last height of all |
| `Mining.MinableTemplateExists` | node/src/grpc/miner_api.rs:78-95 | on a sound ledger a minable selection always yields a template, and its fees are the verifier's |
| `Mining.MinedTemplateExtendsIff` | lib/src/blockchain.rs:101-121 | a header searched from a template extends the unchanged chain exactly if it meets the tip header's target, is later than the tip and the selection is signed, unspent, free of double spends and covered |
| `Mining.MinableTemplateExtendsIff` | lib/src/blockchain.rs:101-106 | with a minable selection and later clock readings only the tip header's target is left to meet |
| `Mining.MinedTemplateAccepted` | node/src/grpc/miner_api.rs:152-170 | a found header is accepted, faults aside, when the current target is at most the tip header's |
| `Wallet.CreateTransaction` | wallet/src/core.rs:268-334 | the inputs are the shortest front run of unmarked coins covering amount plus fee, each signed with its key; the first output pays exactly the amount to the recipient, a second one, there exactly if the inputs are worth more than amount plus fee, pays exactly the difference to the first key, so a recipient other than that key gets exactly the amount; it fails exactly when the unmarked coins are worth too little |
| `Wallet.KeyForFirst` | wallet/src/core.rs:284-286 | the key that signs is the one loaded first with the entry's public key |
| `Wallet.CoinsOfEntries` | wallet/src/core.rs:280-307 | the coins of several entries are those of the first ones and then those of the rest |
| `Wallet.CoinsOfOutputs` | wallet/src/core.rs:289-302 | so are those of an entry's several outputs; with `Wallet.CoinsOfOne` and `Wallet.CoinsOfNone` that is every unmarked output once, in order |
| `Wallet.CoinsOfOne` | wallet/src/core.rs:289-297 | a single reported output is a coin, signed for with the entry's key, unless it is marked or the key is missing |
| `Payments.ListingsReflect` | lib/src/blockchain.rs:54-61 | in any state a run reaches, entries that list the UTXO set by key reflect the node, as the payment results ask, and miss nothing |
| `Payments.PaymentIsFunded` | wallet/src/core.rs:288-330 | for a node holding the reported outputs, the payment spends distinct, unmarked, unspent outputs, signed for, and its fee is the wallet's |
| `Payments.NodePoolsPayment` | lib/src/blockchain.rs:206-318 | that node's insertion succeeds, adds exactly the payment and puts it right behind the entries that pay no higher fee |
| `Payments.ConsistentSelectionMinable` | node/src/grpc/miner_api.rs:54-61 | what a consistent pool leaves open for its front to be minable is exactly that it is signed and shares no input |
| `Payments.PaymentReachesChain` | node/src/grpc/miner_api.rs:41-107 | end to end, beside any consistent pool: the payment is in the next template exactly if fewer than 20 pooled transactions pay no higher fee, and a block mined from it extends the chain exactly if it meets the tip's target and time and the selected transactions are signed and share no input |
| `Payments.LonePaymentReachesChain` | node/src/grpc/miner_api.rs:41-107 | with an empty pool the template is the payment behind a coinbase of subsidy plus the wallet's fee, and only the tip's target is left to meet |
| `Payments.ConflictStopsMining` | node/src/grpc/miner_api.rs:54-61 | while two of the first 20 pooled transactions share an input, nothing mined from a template extends the chain |
| `Sync.FindLongestChainNode` | node/src/grpc/peers.rs:154-207 | the first peer with the largest positive difference, or none when no peer is ahead |
| `Sync.ServedIs` | node/src/grpc/node_api.rs:52-87 | a peer serves the requested number of blocks from the start height on, or as many as it has |
| `Sync.FetchMissingBlocks` | node/src/grpc/peers.rs:230-237 | takes in the stream block by block, stopping at the first failure |
| `Sync.CaughtUpStops` | node/src/grpc/peers.rs:230-237 | behind a block that was refused or faulted a download takes in nothing; otherwise it goes on where it stands |
| `Sync.SynchronizeBlockchain` | node/src/grpc/peers.rs:301-333 | pulls the missing blocks of a longest peer, then rebuilds and retargets, only if all were accepted; a panic of that retarget is reported |
| `Sync.DownloadedIff` | node/src/grpc/peers.rs:230-237 | an up-to-date ledger takes a stream in whole exactly if each block extends those before it, and ends with the local chain and the stream, or with a front of them that the next block does not extend |
| `Sync.CatchesUpIff` | node/src/grpc/peers.rs:210-243 | a ledger that is a prefix of a peer's chain accepts every block served up to some front of it exactly if each extends those before it; from a valid local chain, exactly if the front is valid |
| `Sync.ReachablePeerCatchesUpIff` | node/src/grpc/peers.rs:210-243 | with a peer's chain as a run can leave it, and distinct output hashes, it does exactly if nothing in the missing part was spent again behind a fault; from a valid local chain, if nothing in the front was |
| `Sync.PrefixCatchesUp` | node/src/grpc/peers.rs:210-243 | from a valid front that continues its chain it accepts every served block and ends with the peer's blocks and unspent outputs |
| `Sync.SynchronisesIff` | node/src/grpc/peers.rs:301-328 | synchronising with a peer whose chain continues the local one takes in everything exactly if each missing block extends those before it, from a valid local chain exactly if the peer's is valid; it ends with that chain and its unspent outputs, and succeeds exactly if the closing retarget does not panic |
| `Sync.SynchronisedWithLongest` | node/src/grpc/peers.rs:301-328 | synchronising with a valid peer ends with the peer's whole chain and its unspent outputs, and succeeds exactly if the closing retarget does not panic |
| `Sync.StampedTakenCleanly` | lib/src/blockchain.rs:162-191 | blocks stamped within 32,768,000 seconds of the local ones are taken in without a fault |
| `Sync.StampedPeerSynchronises` | node/src/grpc/peers.rs:301-328 | with a peer stamped in such a window synchronising takes in everything under the same condition, and then always succeeds |
| `Sync.ForkIsRejected` | lib/src/blockchain.rs:95-99 | if the headers below the requested height differ, the first block is rejected and nothing changes |
| `Sync.AcceptedExactlyOnPrefix` | lib/src/blockchain.rs:93-119 | the first downloaded block is accepted exactly if the local chain is a prefix of the peer's |
| `Gossip.SubmitPushesNew` | lib/src/blockchain.rs:113-128 | even with a stale UTXO set, a ledger pushes only blocks it does not have |
| `Gossip.BroadcastExactly` | node/src/grpc/peers.rs:247-273 | a message is broadcast exactly if it is the block, from this node, to a subscriber other than the originator, once for each subscription |
| `Gossip.DeliverExactly` | node/src/grpc/peers.rs:440-488 | a delivery changes only the receiver's ledger and, only if the block is accepted, sends it on to the receiver's subscribers other than the sender |
| `Gossip.TakenAtMostOnce` | node/src/grpc/peers.rs:451-456 | a block a node has is not accepted or sent on again |
| `Gossip.DeliveryDecreases` | node/src/handler.rs:162-177 | every delivery lowers a measure over messages in flight and blocks not yet taken |
| `Gossip.GossipTerminates` | node/src/grpc/peers.rs:440-488 | no schedule of deliveries is longer than that measure |
| `Propagation.SpreadingStep` | node/src/grpc/peers.rs:247-273 | while a block spreads, whoever subscribes to a node that has it has it or will be offered it, although the sender is skipped |
| `Propagation.MinedBlockReachesAll` | node/src/grpc/miner_api.rs:152-186 | a block mined on a shared chain is in the chain of every node connected by subscriptions once no message is left, whatever the schedule |

## Left out

- Sockets, gRPC and TCP framing, serialisation, tasks, signals, peer discovery, subscriptions coming and going: input and output only.
- SHA-256, ECDSA, CBOR and UUID generation: replaced by arbitrary functions and inputs; hash values are not bounded by 256 bits.
- Difficulty.Rescaled: the decimal-string detour of the source is modelled as exact floor arithmetic.
- The wallet's percentage fee, computed in floating point, is an arbitrary amount here; `get_balance`, which also counts marked outputs, is not modelled.
- BlockHeader is a value, and `Mining.Mine` returns the new header instead of updating one in place.
- Mempool.Sorted: when a fee computation panics inside the sort the library leaves the order unspecified; the model keeps the order before the sort. Consistent pools never get there.
- Node.Execute: after a load that panics the process ends; the model keeps a ledger there, so it has more runs than the node.
- Wallet.CreateTransaction: with a key missing from the wallet the contract only says that the failure implies one is missing, not at which entry the search met it.
- `validate_template`: it looks for the coinbase among pooled transactions, so a fresh template never validates.
- Spreading of transactions: an insertion may succeed without inserting, and the TCP submission sends rejected transactions on too.
- Propagation.MinedBlockReachesAll: is about one block on a shared chain; with competing blocks nodes can stay on different chains, since the source has no reorganisation.
- Sync.CatchesUpIff: the local set is up to date; on a ledger that still lags behind a fault the first downloaded block is judged as `Respending.NextAfterFault` says, and the rest as here.
- Sync: peers are fixed chains while they are read; a peer that grows meanwhile, and the TCP variant that aborts on a failing peer, are not modelled.
- Miner threads, the wallet's interface, configuration, logging and the command-line tools.
