# VentureChain: a verified model

VentureChain is a permissioned proof-of-authority ledger whose escrow rules are native transaction types. This project
models its four connected layers in Dafny and proves what they promise together:

- **Ledger.** `Ledger.dfy` gives one transaction and a run of them a pure meaning over balances, nonces and locks, with
  the wrap-around of every int64 operation (`Integers.dfy`). `LedgerLaws.dfy`, `Conservation.dfy` and
  `OrderIndependence.dfy` prove what every run keeps, `Rules.dfy` and `Ownership.dfy` what a transaction needs and who
  can spend. `WorldState.dfy` and `Blockchain.dfy` are the objects that the
  node mutates in place; each method is proved equal to the pure step.
- **Chain and replication.** `Blocks.dfy`, `Consensus.dfy`, `History.dfy` and `Draining.dfy` cover blocks, the proposer
  rota and what a block hash commits to. `Replication.dfy` is a state machine of N validators that restart, over an
  unreliable network. `EmptyAddress.dfy` is about what a restart can lose, `NodeLaws.dfy` and `Stalling.dfy` about what
  makes a proposer produce and what stops it, `Tampering.dfy` about what the startup walk finds.
  `Mempool.dfy`, `Engine.dfy` and `Node.dfy` are the objects of one node.
- **Contracts.** `Escrow.dfy` and `EscrowLaws.dfy` cover the nine-state lifecycle,
  `EscrowSteps.dfy` what each operation does exactly. `Workflow.dfy` runs one contract
  against the ledger through the API handlers, and `Coupling.dfy` proves when the two stay in step, `ContractRecords.dfy`
  when the stored record does, `Payments.dfy` whom it pays. `Contracts.dfy` and `Api.dfy` are the objects.
- **Persistence.** `Storage.dfy`, `Decimals.dfy` and `Store.dfy` cover the key-value layout and what a restart reads.

Sums over lists and maps are in `Sums.dfy`, error types in `Wrappers.dfy`, transactions in `Transactions.dfy`.

Run `dafny verify dfyconfig.toml`.

## What is assumed

SHA-256, JSON, secp256k1 and address derivation are uninterpreted functions (`Transactions.Crypto`, `Storage.Codec`).
Each theorem that needs more of them says so in its `requires`:

- `Ideal`: digests have 64 characters, the JSON of canonical fields and headers is injective (strings are taken to be
  valid UTF-8, which Go does not alter), and no two of the byte strings actually hashed in the run collide. (Freedom from
  collision on all strings would contradict the fixed width.)
- `Unforged`: a third party cannot put a block on the wire whose hash verifies under a validator's key unless that
  validator has released that hash. Only events that inject third-party blocks carry it. With `open` false there are
  none, and replica agreement then needs no hypothesis about the hash or the signature.
- `KeyPair`: what a local key signs verifies under its public key.
- `RoundTrips`: decoding the JSON of the blocks and locks of the node's chain gives them back.

Genesis is a shared parameter of the network, because `GenesisBlock` stamps local time
(internal/blockchain/block.go:107), and each validator ID has one node.

## What the code does that a reader may not expect

Each of these is proved, with the exact condition where there is one.

- Resolving the last milestone without terminating marks it APPROVED, reports an error and leaves the contract DISPUTED
  (`LastArbitrationIsStuck`). Resolving any other ID resumes the contract with the dispute standing (`ResolveKeepsIff`).
- `handleRefund` submits the refund before it looks at the contract, so in SIGNED and MILESTONE_REVIEW the lock empties
  and the contract stays alive (`RefundIssuedKeepsIff`, `RefundUnderReviewDecouples`).
- A REFUND pays the lock's amount and ignores its own. Until the contract is terminated the two agree exactly when nothing
  is in flight; afterwards, exactly when the claims in flight and those lost come to what terminating awards have taken
  (`RefundPassesAndPaysItsAmountIff`, `RefundPaysTheLock`). So after a partial award that ended the contract the refund
  states too much (`RefundAfterAwardUnderpays`). A release still in the mempool when a refund is committed is never paid
  (`CommittedKeepsIff`, `RefundStrandsReleases`, `RefundIsAcceptedOverReleases`), and a node that keeps it there produces
  no block any more (`StrandedReleaseStalls`).
- The mempool is not saved. A release lost from it is never built again, and if it was the last one its money stays in the
  lock of a COMPLETED contract (`PoolLostKeepsIff`, `LostReleaseIsStuck`, `StuckForEver`).
- A contract is saved only when its handler ends well. A stuck arbitration has approved the milestone in memory and not in
  the store (`ArbitrationIsUnsavedIff`, `UnsavedApprovalDecouples`).
- The contract moves when an award is submitted, not when it is committed. Until then a contract IN_PROGRESS has a FROZEN
  lock and its releases are refused (`LockFollowsContract`, `ReleasePassesIff`).
- The amount of an award is the caller's, and so is the number of awards over one freeze. `ArbitrationKeepsIff` says which
  keep lock and contract in step (`FullAwardStrandsReleases`, `SecondAwardIsRefused`). No builder emits FREEZE_DISPUTE, so
  the workflow takes it as a foreign transaction (`FreezeKeepsIff`).
- `handleConfirmFunded` compares the lock's amount only, and anyone may LOCK under a contract's ID
  (`ConfirmCouplesIff`, `StrangersLockIsConfirmed`).
- `submitTx` ignores the answer of the mempool. If the transaction's ID is taken by another one, the contract moves and
  the transaction is nowhere (`ReleaseFollowsNext` and its two companions).
- `handleAdvanceContract` takes raw transitions at any time (`AdvanceKeepsIff`).
- MINT has no bound, so balances can wrap (`StepConservesIff`, `MintCanOverflow`), and so can a contract's total
  (`TotalIsExactIff`, `TotalCanWrap`).
- A balance held under the empty address is saved and not loaded (`StateReadBackIff`, `EmptyAddressIsAccepted`). No rule
  reads it, so a node that has lost it goes on agreeing with the others in everything else (`ReplicasAgree`).
- `ProposerForHeight` indexes with Go's remainder and panics on a negative height; the model returns `HeightPanics`.
- The block hash covers canonical fields only. Nodes that agree on content may hold different IDs, public keys and
  signatures of a transaction if third parties make blocks; the state is the same (`SameContentSameState`).
- `ApproveMilestone` has no guard on the milestone's status; the guard is in `BuildMilestoneReleaseTx`. The laws about
  approval take it as the condition `IsSubmitted`.
- ValidateChain looks at headers and links. A block's transactions and signature can be changed under its old hash, and the
  last block replaced altogether, without its noticing (`ReplacedIsFoundIff`, `RehashedIsFoundIff`).
- README.md:87 says that contracts are kept in memory only. The code persists them, and the model follows the code.

## Model

| member | source | states |
|---|---|---|
| `Replication.ReplicasAgree` | internal/p2p/node.go:54-94 | in every state of every run of N validators over a network that loses, duplicates and reorders, with restarts, any two nodes have the same block content at every common height (without third-party blocks: one chain is a prefix of the other), and equal state at equal height, or, for a node that has restarted while it held a balance under the empty address, equal but for that balance |
| `Replication.RunKeepsInv` | internal/p2p/node.go:153-188 | every run keeps the key invariant: each block at height h, in any chain or acceptable on the wire, is the block at h of the chain of the proposer whose turn h is |
| `Replication.BlocksAgree` | internal/consensus/poa.go:64-81 | from the invariant alone, two nodes hold the same block at the same height |
| `Replication.TickKeeps` | internal/p2p/node.go:153-188 | a production tick keeps the invariant, because a block is handed out only after the own chain has passed its height |
| `Replication.ProducedBlock` | internal/consensus/poa.go:44-59 | what a tick hands out is the block the node has just appended, under its own ID and in its own slot; otherwise the node is unchanged |
| `Replication.TurnIsPosition` | internal/consensus/poa.go:36-38 | with distinct IDs a validator is in turn only at heights congruent to its own position |
| `Replication.DeliverKeeps` | internal/p2p/node.go:54-94 | delivery of any block ever put on the wire, at any time and any number of times, keeps the invariant |
| `Replication.RestartKeeps` | cmd/node/main.go:140-155 | any node may restart at any time: it loses its mempool and a balance under the empty address, and the invariant stands |
| `Replication.SameChainKeeps` | internal/p2p/node.go:99-118 | whatever happens to a mempool the invariant stands |
| `EmptyAddress.AcceptsAlike` | internal/blockchain/validation.go:35-143 | a node that has lost a balance under the empty address accepts the same blocks and stays the same otherwise |
| `EmptyAddress.AddBlockDerivedBut` | internal/blockchain/blockchain.go:115-138 | appending a block keeps the state equal to the fold but for that balance |
| `EmptyAddress.RulesAreBlind` | internal/blockchain/validation.go:130-143 | no rule reads the balance of the empty address |
| `EmptyAddress.RunsAreSame` | internal/blockchain/validation.go:148-205 | states that differ in that balance only run the same transactions and differ in no other way afterwards |
| `Replication.InjectedIsBacked` | internal/blockchain/block.go:91-99 | a third-party block that carries a verifying signature in turn has the content of a block of the proposer's own chain, if signatures are not forged and hashes do not collide |
| `Replication.CommittedIsNotReadmitted` | internal/p2p/node.go:99-118 | a TRANSFER or LOCK that the chain already holds never enters the mempool again, under any ID, key or signature, restarts included |
| `Rules.RulesAre` | internal/blockchain/validation.go:44-143 | the rules refuse a transaction for the first need of its type that is not met, with that error, and accept it when all are met; the needs are given as a table |
| `Rules.ValidationIs` | internal/blockchain/validation.go:35-42 | and the signature comes first: everything but a MINT needs a non-empty key and signature, a key whose address is the sender, and a signature that verifies over the hash |
| `Rules.RunIsSigned` | internal/blockchain/transaction.go:111-127 | every transaction of an accepted run that is not a MINT is so signed |
| `Rules.RunPaysTheParty` | internal/blockchain/validation.go:81-122 | in an accepted run releases pay the founder on record at the time, refunds the investor, awards one of the two |
| `Ownership.OnlyOwnersSpend` | internal/blockchain/transaction.go:118-126 | over a run that does not wrap, a balance goes down by no more than its owner has signed for |
| `Ownership.TheftNeedsTheKey` | internal/blockchain/transaction.go:118-126 | so an address that has less after a run has in it a TRANSFER or LOCK signed with a key of that address |
| `NodeLaws.AcceptedLeavesRest` | internal/mempool/mempool.go:45-51 | acceptance takes out of the mempool exactly the IDs that the transactions of the block bear |
| `NodeLaws.TickLeavesUndrained` | internal/p2p/node.go:173-187 | a tick that hands out a block leaves exactly the entries it has not drained; at most 200 leave, and a mempool of 200 or fewer is empty afterwards |
| `NodeLaws.ProducesIff` | internal/p2p/node.go:157-187 | with its own key a node hands out a block if and only if it is its turn and what is pending runs; the block holds what was pending and is appended with its effect |
| `NodeLaws.BroadcastIsAccepted` | internal/p2p/node.go:61-93 | another node with the same chain accepts what was handed out, ends with the same chain, and ignores it from then on |
| `NodeLaws.OnlyTheNextBlockCounts` | internal/p2p/node.go:63-75 | old blocks are ignored, later ones out of order, and only the next one can change anything |
| `NodeLaws.SubmittedIsCommitted` | internal/p2p/node.go:107-115 | a valid transaction that reaches an idle proposer is in the block of its next turn and has its effect |
| `NodeLaws.OwnIdsStay` | internal/mempool/mempool.go:25-33 | every entry of a mempool stays under its own ID |
| `Stalling.DeadStalls` | internal/p2p/node.go:153-173 | a node whose mempool fits in one block and holds a transaction that no run of a block can make valid produces nothing from any drain, and is as before |
| `Stalling.StaleIsDead` | internal/blockchain/validation.go:138-141 | a TRANSFER or LOCK that the chain already holds is such a transaction |
| `Stalling.StrandedIsDead` | internal/blockchain/validation.go:70-123 | so is a release or award that a refund committed first has stranded |
| `Stalling.StrandedReleaseStalls` | internal/p2p/node.go:164-173 | a node whose mempool still holds one after the refund produces nothing |
| `Consensus.ProposedIsAcceptedIff` | internal/consensus/poa.go:44-81 | a block built by the proposer with the private key of its listed public key holds what was pending, passes every index, link, hash, Merkle, proposer and signature check of its own chain, and is accepted if and only if its transactions fold from the current state |
| `Consensus.KeyOfFirst` | internal/consensus/validatorset.go:62-69 | the lookup yields the public key of the first entry with the ID |
| `Consensus.KeyIsMissingIff` | internal/consensus/validatorset.go:62-69 | and nothing if and only if no entry has it |
| `Consensus.EveryKeyIsFound` | internal/consensus/validatorset.go:62-69 | with distinct IDs every validator's key is found |
| `Consensus.ProposerIs` | internal/consensus/validatorset.go:55-58 | the proposer of a non-negative height is the entry at its remainder; a negative height has one only if n divides it |
| `Consensus.InTurnIff` | internal/consensus/poa.go:36-38 | with distinct IDs a validator is in turn exactly at the heights congruent to its position |
| `Consensus.ProposerCheckIs` | internal/consensus/poa.go:65-73 | a block passes the proposer check if and only if it names the validator at its height; otherwise the error says whether the name is known |
| `Consensus.EveryChainIsSound` | internal/consensus/poa.go:64-81 | whatever blocks are offered to a new chain, it passes ValidateChain, block i has index i and, from 1 on, names the round-robin proposer of i and is signed with that validator's public key, and the state is the fold of all transactions from the allocations |
| `Consensus.AcceptKeepsSound` | internal/consensus/poa.go:64-81 | one accepted block extends a sound chain by exactly that block, at the next index, signed in turn |
| `Consensus.FullRound` | internal/consensus/validatorset.go:55-58 | any n consecutive heights hold exactly one turn of each of n validators |
| `Consensus.RoundRobinFair` | internal/consensus/validatorset.go:55-58 | over k consecutive heights each validator is in turn at least floor(k/n) and at most ceil(k/n) times |
| `Consensus.SegmentSlots` | internal/consensus/poa.go:70-73 | the blocks of a validator in any segment of an accepted chain are exactly its turns in it |
| `Consensus.ChainIsFair` | internal/consensus/poa.go:70-73 | so block counts in any accepted segment lie between floor(k/n) and ceil(k/n) |
| `OrderIndependence.OrderDoesNotMatter` | internal/blockchain/validation.go:148-205 | two accepted orderings of the same multiset of transactions, from any well-formed state, end in the same balances, nonces, lock amounts, parties and statuses |
| `OrderIndependence.RunBalance` | internal/blockchain/validation.go:152-199 | a balance after a run is an order-free account: stated credits and debits plus, for each refund, what the whole run leaves in its contract (modulo 2^64) |
| `OrderIndependence.RefundedIsFinal` | internal/blockchain/validation.go:86-97 | after a refund no later valid transaction deposits into or draws on that contract |
| `OrderIndependence.SameLocks` | internal/blockchain/validation.go:161-199 | each lock after the run is determined by the multiset |
| `OrderIndependence.SameNonce` | internal/blockchain/validation.go:159-170 | so is each nonce, entry and value |
| `Draining.DrainOrderDoesNotMatter` | internal/mempool/mempool.go:53-67 | any two drains of a mempool that fits in one block, if accepted, give the same state |
| `Draining.DrainsAreShuffles` | internal/mempool/mempool.go:53-67 | complete drains are permutations of one another |
| `History.TipHashFixesHistory` | internal/blockchain/block.go:42-74 | two AddBlock-built chains with the same allocations and equal tip hash have equal length, headers and canonical transactions at every height, and equal state |
| `History.CombinedInjective` | internal/blockchain/block.go:47-52 | concatenated fixed-width transaction hashes determine the list of hashes, length included |
| `History.MerkleInputInjective` | internal/blockchain/block.go:42-53 | and the "empty" case is disjoint from every non-empty list |
| `History.EqualHashEqualContent` | internal/blockchain/block.go:57-74 | equal block hashes mean equal headers and equal canonical transactions |
| `History.TipHashFixesBlocks` | internal/blockchain/validation.go:9-30 | the same walked back along prev_hash to genesis |
| `History.SameContentSameState` | internal/blockchain/transaction.go:60-82 | content, not IDs or signatures, determines the state |
| `Ledger.RunDependsOnCanonical` | internal/blockchain/transaction.go:60-89 | two accepted lists with the same canonical fields have the same effect |
| `LedgerLaws.StepKeepsLock` | internal/blockchain/validation.go:161-199 | one valid transaction keeps: amount positive exactly when LOCKED or FROZEN, zero exactly when RELEASED or REFUNDED, and stored under its own ID; parties never change, amounts never grow |
| `LedgerLaws.RunKeeps` | internal/blockchain/validation.go:148-205 | every run keeps it; RELEASED and REFUNDED locks never change again, and no key of any of the three maps disappears |
| `LedgerLaws.RunLockAccount` | internal/blockchain/validation.go:161-199 | a lock after a run, as an order-free account of the counters of its contract; a contract is locked at most once |
| `LedgerLaws.RunLockParties` | internal/blockchain/validation.go:161-170 | investor and founder on record come from the one LOCK of the chain |
| `LedgerLaws.EscrowAccounting` | internal/blockchain/validation.go:172-199 | over any run, the amount locked equals what the founder on record received, plus what the investor received, plus what remains; nobody else received anything |
| `LedgerLaws.PayoutsStep` | internal/blockchain/validation.go:70-123 | one valid transaction takes out of a lock exactly what it pays to one of its parties |
| `LedgerLaws.RunNonces` | internal/blockchain/validation.go:156-170 | nonces count the TRANSFER and LOCK transactions sent, and have an entry exactly for the senders |
| `LedgerLaws.NonceIs` | internal/blockchain/validation.go:156-170 | exactly, while a chain has fewer than 2^63 transactions |
| `LedgerLaws.CommittedIsNeverValidAgain` | internal/blockchain/validation.go:138-141 | the i-th TRANSFER or LOCK of a sender carries nonce i, and once committed it fails validation in every later state |
| `LedgerLaws.NoTwice` | internal/blockchain/validation.go:58-68 | no TRANSFER or LOCK appears twice in a run, and no contract ID is locked twice |
| `LedgerLaws.RunPrefix` | internal/blockchain/blockchain.go:125-134 | every prefix of an accepted list is accepted, and the rest continues from there |
| `Conservation.StepConservesIff` | internal/blockchain/validation.go:152-199 | a valid transaction conserves balances plus escrow (plus what it mints), and keeps balances non-negative, if and only if the recipient has room for the credit; otherwise exactly 2^64 vanishes |
| `Conservation.RunConserves` | internal/blockchain/validation.go:148-205 | if genesis plus minted fits in an int64, the total after a run is exactly that sum and every balance is non-negative |
| `Conservation.RunNeverWraps` | internal/blockchain/validation.go:148-205 | under the same bound no addition or subtraction of an amount in the run wraps |
| `Conservation.RunNoncesFit` | internal/blockchain/validation.go:159-170 | no nonce wraps in the first 2^63 - 1 transactions |
| `Conservation.EscrowAfter` | internal/blockchain/validation.go:161-199 | the change of the sum of all locks is the deposit less the payout |
| `Conservation.MintCanOverflow` | internal/blockchain/validation.go:153-154 | the bound is needed: two valid mints of 2^63 - 1 leave a balance of -2 |
| `WorldState.State.ApplyTransaction` | internal/blockchain/validation.go:148-205 | the in-place mutation equals the pure effect on the abstract state |
| `WorldState.State.ApplyToLock` | internal/blockchain/validation.go:172-199 | a change to a lock object shows at that contract only |
| `WorldState.State.AddLock` | internal/blockchain/validation.go:161-170 | LOCK adds a fresh lock object |
| `WorldState.State.Clone` | internal/blockchain/blockchain.go:55-70 | the snapshot has the same value and shares no object with the live state |
| `WorldState.State.CopyLocks` | internal/blockchain/blockchain.go:65-68 | the loop copies every lock into a fresh object |
| `WorldState.CopyMap` | internal/blockchain/blockchain.go:59-64 | the loop copies every entry, whatever the order |
| `Blockchain.Blockchain.constructor` | internal/blockchain/blockchain.go:81-91 | a new chain is genesis and the allocations |
| `Blockchain.Blockchain.AddBlock` | internal/blockchain/blockchain.go:115-138 | all or nothing: the block is appended and the state is the fold of its transactions, or blocks and state value are what they were, with the error of the first failure |
| `Blockchain.Blockchain.RunTransactions` | internal/blockchain/blockchain.go:125-134 | the loop stops at the first invalid transaction, or ends in the fold of all |
| `Blockchain.StopsHere` | internal/blockchain/blockchain.go:126-129 | the loop's first refusal is the fold's first failure |
| `Blockchain.Blockchain.BlockAt` | internal/blockchain/blockchain.go:102-109 | the block at an existing position, None elsewhere |
| `Blockchain.Blockchain.ValidateChain` | internal/blockchain/blockchain.go:143-157 | true exactly when every hash link holds |
| `Blocks.CalculateMerkleRoot` | internal/blockchain/block.go:42-53 | the loop computes the digest of all transaction hashes in order, or of the empty mark |
| `Blocks.AddBlockRuns` | internal/blockchain/blockchain.go:115-138 | AddBlock succeeds if and only if the block validates and its transactions fold, and then gives that fold |
| `Blocks.AddBlockDerived` | internal/blockchain/blockchain.go:115-138 | and keeps the state equal to the fold of all transactions in all blocks from the allocations |
| `Blocks.BlockRefusalIs` | internal/blockchain/validation.go:9-30 | which of the five tests a refused block failed first |
| `Blocks.AddBlockErrorIs` | internal/blockchain/blockchain.go:119-133 | the error is that test, or the first transaction that does not validate in its place |
| `Blocks.GenesisIs` | internal/blockchain/block.go:104-115 | what genesis consists of |
| `Tampering.ReplacedIsFoundIff` | internal/blockchain/blockchain.go:143-157 | a block replaced under its old hash passes the startup walk if and only if its header is the old one |
| `Tampering.RehashedIsFoundIff` | internal/blockchain/blockchain.go:143-157 | a block with a new hash of its own passes if and only if it is the last |
| `Blocks.DerivedChainIsValid` | internal/blockchain/blockchain.go:143-157 | every such chain passes ValidateChain |
| `Transactions.SignedIsValid` | internal/blockchain/transaction.go:93-127 | a transaction signed with a matching key pair passes its signature check, with its canonical fields unchanged |
| `Engine.Engine.ProposeBlock` | internal/consensus/poa.go:44-59 | the object computes the pure proposal from some drain of the mempool and changes nothing |
| `Engine.Engine.AcceptBlock` | internal/consensus/poa.go:64-81 | the object takes the pure step; on rejection chain, state and mempool are as before |
| `Node.Node.HandleReceiveBlock` | internal/p2p/node.go:54-94 | the handler takes the pure step, passes the block on exactly when accepted, and then the store holds block and state |
| `Node.Node.HandleReceiveTx` | internal/p2p/node.go:99-118 | the handler takes the pure step |
| `Node.Node.ProductionTick` | internal/p2p/node.go:153-188 | one tick takes the pure step; a block leaves only when accepted and saved |
| `Mempool.Mempool.Add` | internal/mempool/mempool.go:25-33 | inserts, or refuses an ID already present and changes nothing |
| `Mempool.Mempool.RemoveBatch` | internal/mempool/mempool.go:45-51 | removes exactly the IDs of the batch |
| `Mempool.Mempool.Pending` | internal/mempool/mempool.go:55-67 | as many entries as fit, each once |
| `Storage.RestartRoundTrip` | cmd/node/main.go:129-153 | after any run of commits, each with both saves, and of earlier restarts, LoadAllBlocks returns exactly the blocks, they pass ValidateChain, every entry is readable, and the loaded state is the chain's less a balance under the empty address, equal to it if and only if there is none, and the fold of all transactions but for that balance |
| `Storage.StateReadBackIff` | internal/storage/badger_store.go:153-215 | what LoadState returns is the saved state less the balance under the empty address |
| `Storage.RunPersisted` | internal/storage/badger_store.go:43-57 | at every point of a run, restarts included, the store holds exactly the chain and its state, but for the balance of the empty address, which no load reads |
| `Storage.RestartKeeps` | cmd/node/main.go:140-153 | a restart reads the chain back and leaves the store holding just what was read |
| `Storage.SaveStateHolds` | internal/storage/badger_store.go:119-149 | upserts without deletes are a full snapshot, because no state key ever disappears |
| `Storage.SaveBlockHolds` | internal/storage/badger_store.go:44-57 | saving the next block disturbs no other block and no state entry |
| `Storage.AllBlocksReadBack` | internal/storage/badger_store.go:98-117 | a store that holds a chain's blocks reads back exactly them |
| `Storage.Disjoint` | internal/storage/badger_store.go:13-20 | the key families do not overlap |
| `Storage.NewStoreIsEmpty` | internal/storage/badger_store.go:80-107 | a store without a chain has height -1, no blocks and an empty state |
| `Storage.BlockKeyInjective` | internal/storage/badger_store.go:50-50 | different block indices have different keys |
| `Storage.IntsReadBack` | internal/storage/badger_store.go:164-193 | one decimal family reads back every entry but the one with the empty name |
| `Storage.LocksReadBack` | internal/storage/badger_store.go:195-206 | locks come back under their own contract IDs |
| `Storage.EmptyAddressIsAccepted` | internal/blockchain/validation.go:58-59 | the failing family is reachable: a TRANSFER to "" is valid and creates the entry |
| `Decimals.ScanDecimal` | internal/storage/badger_store.go:125-125 | scanning a printed int64 gives it back, sign included |
| `Store.Store.SaveBlock` | internal/storage/badger_store.go:44-57 | the object writes the block and the height |
| `Store.Store.SaveState` | internal/storage/badger_store.go:121-149 | the three loops leave exactly the entries of the state, over whatever was there |
| `Store.Store.SaveInts` | internal/storage/badger_store.go:123-136 | one family of decimal entries, every other key untouched |
| `Store.Store.SaveLocks` | internal/storage/badger_store.go:137-146 | one entry per lock, every other key untouched |
| `Store.Store.LoadAllBlocks` | internal/storage/badger_store.go:100-117 | the loop returns the pure reading, and fails on the first block it cannot read |
| `Store.Store.LoadState` | internal/storage/badger_store.go:153-215 | succeeds exactly when every entry is readable, and then holds exactly what the keys say, in any key order |
| `Store.Store.LoadKey` | internal/storage/badger_store.go:160-208 | files one entry in its family, or reports that it cannot be read |
| `Store.KeyLoaded` | internal/storage/badger_store.go:164-206 | one more key read keeps the state equal to what the keys read so far load to |
| `Contracts.Contract.Advance` | internal/escrow/contract.go:44-51 | a legal move changes state and time, an illegal one nothing |
| `Contracts.Contract.FindMilestone` | internal/escrow/contract.go:72-79 | the loop finds the first milestone with the ID, or null |
| `Contracts.Contract.SubmitMilestone` | internal/escrow/contract.go:83-97 | the object takes the pure step, error or not |
| `Contracts.Contract.DisputeMilestone` | internal/escrow/contract.go:141-154 | the object takes the pure step |
| `Contracts.Contract.ApproveMilestone` | internal/escrow/contract.go:125-137 | the object takes the pure step; the milestone stays approved when the transition is refused |
| `Contracts.Contract.ResolveArbitration` | internal/escrow/contract.go:181-194 | the object takes the pure step |
| `Contracts.Contract.BuildMilestoneReleaseTx` | internal/escrow/contract.go:103-120 | builds the pure transaction and changes nothing |
| `Contracts.Contract.BuildArbitrationTx` | internal/escrow/contract.go:160-176 | the same for an award |
| `Contracts.Contract.BuildRefundTx` | internal/escrow/contract.go:200-214 | the same for a refund |
| `Contracts.Contract.BuildFundingTx` | internal/escrow/contract.go:56-69 | the same for the funding LOCK |
| `Contracts.NewContract` | internal/escrow/contract.go:25-41 | a DRAFT contract, or null when the total is not positive |
| `Contracts.RemainingAmount` | internal/escrow/milestone.go:38-46 | the loop sums what is not approved |
| `Contracts.TotalAmount` | internal/escrow/milestone.go:50-56 | the loop sums everything |
| `EscrowSteps.FindIsFirstIff` | internal/escrow/contract.go:72-79 | the lookup finds the first milestone with the ID, and nothing if and only if there is none |
| `EscrowSteps.TransitionIff` | internal/escrow/lifecycle.go:23-55 | the legal moves are exactly the twelve pairs of the lifecycle; an unlisted state has its own error |
| `EscrowSteps.AdvanceIs` | internal/escrow/contract.go:44-51 | a legal move changes state and time stamp, a refused one nothing |
| `EscrowSteps.SubmitIff` | internal/escrow/contract.go:83-97 | a submission succeeds if and only if the contract is IN_PROGRESS and the first milestone of the ID is PENDING, wherever it stands; then just that changes, otherwise nothing |
| `EscrowSteps.DisputeIff` | internal/escrow/contract.go:141-154 | a dispute succeeds if and only if the contract is under review and the first milestone of the ID is SUBMITTED; then just that changes, otherwise nothing |
| `EscrowSteps.ApproveIs` | internal/escrow/contract.go:125-137 | an approval under review marks that milestone, and ends the contract exactly when all are approved |
| `EscrowSteps.ResolveIs` | internal/escrow/contract.go:181-194 | arbitration that ends the contract touches no milestone; any other marks the one named, and resumes the contract unless all are approved |
| `EscrowSteps.CreatedAsRequested` | internal/api/handlers_escrow.go:98-103 | a new contract has the ID, parties and milestones asked for, in order, all PENDING, and their total |
| `EscrowSteps.ConfirmationIs` | internal/api/handlers_escrow.go:178-194 | confirmation needs a lock, of the right amount, and a SIGNED contract, in this order, and then starts the contract; otherwise it answers which is missing and changes nothing |
| `EscrowSteps.BuildersBuild` | internal/escrow/contract.go:56-214 | each builder refuses for its one reason, or states type, sender, recipient, amount, contract, milestone and nonce as it should, with the hash of these as ID and no signature |
| `EscrowSteps.CanComplete` | internal/escrow/contract.go:83-137 | from any consistent contract in progress with distinct IDs, submissions and approvals reach COMPLETED |
| `Payments.NewContractCanBeCompleted` | internal/api/handlers_escrow.go:83-270 | end to end: a new contract with distinct milestone IDs whose investor can pay can be driven to COMPLETED by orderly events, the investor charged the total, the founder paid the total, the lock RELEASED and empty |
| `Payments.CanBePaidInFull` | internal/api/handlers_escrow.go:202-270 | from any coupled contract in progress with nothing in flight, the same, and nobody else's balance changes |
| `Payments.AwardPaysTheWinner` | internal/escrow/contract.go:160-176 | an award that is accepted and committed credits its amount to the party it was asked for and to nobody else |
| `Payments.ReleasePaysTheFounder` | internal/escrow/contract.go:103-120 | a release credits the milestone's amount to the founder and to nobody else |
| `Payments.RefundPaysTheInvestor` | internal/escrow/contract.go:200-214 | a refund credits all the lock holds to the investor and to nobody else |
| `Payments.FundingLocksTheTotal` | internal/escrow/contract.go:56-69 | funding takes the total from the investor and locks it in the names of the contract's parties |
| `EscrowLaws.SumsAreExact` | internal/escrow/milestone.go:38-56 | with positive amounts and a total that fits, both loops are exact sums and what remains lies between 0 and the total |
| `EscrowLaws.TotalIsExactIff` | internal/escrow/milestone.go:38-56 | for any amounts, each loop yields the true sum if and only if an int64 can hold that sum |
| `EscrowLaws.TotalCanWrap` | internal/escrow/contract.go:26-29 | an input outside that condition: NewContract accepts a wrapped total |
| `EscrowLaws.NothingRemainsIff` | internal/escrow/contract.go:133-135 | RemainingAmount is 0 exactly when all milestones are approved |
| `EscrowLaws.SubmitKeeps` | internal/escrow/contract.go:83-97 | submission keeps state and milestones consistent, from IN_PROGRESS to MILESTONE_REVIEW |
| `EscrowLaws.DisputeKeeps` | internal/escrow/contract.go:141-154 | dispute keeps them consistent, from MILESTONE_REVIEW to DISPUTED |
| `EscrowLaws.ApproveKeeps` | internal/escrow/contract.go:125-137 | under the builder's guard an approval never fails, ends IN_PROGRESS or COMPLETED, and lowers what remains by the milestone's amount |
| `EscrowLaws.ResolveDisputedKeeps` | internal/escrow/contract.go:181-194 | resolving the disputed milestone keeps consistency and lowers what remains by its amount; it errs exactly when that was the last one |
| `EscrowLaws.ResolveKeepsIff` | internal/escrow/contract.go:185-193 | a resolution keeps consistency if and only if it names the disputed milestone or everything is approved already |
| `EscrowLaws.RunConsistent` | internal/escrow/contract.go:83-194 | every run of submissions, approvals, disputes and resolutions keeps state and milestones consistent, whatever is awarded |
| `EscrowLaws.ActionKeeps` | internal/escrow/contract.go:83-194 | each of them does |
| `EscrowLaws.LastArbitrationIsStuck` | internal/escrow/lifecycle.go:30-30 | a resolution of a DISPUTED contract, under any ID, fails if and only if no milestone but the one it names is left to approve, and then all are approved and the contract stays DISPUTED |
| `EscrowLaws.OneMilestoneGetsStuck` | internal/escrow/contract.go:83-194 | reachable with one milestone: submit, dispute, resolve; a repeated resolution fails too |
| `EscrowLaws.TerminalIff` | internal/escrow/lifecycle.go:36-39 | IsTerminal holds exactly at COMPLETED and TERMINATED, the known states with no legal move |
| `EscrowLaws.InProgressHasPending` | internal/escrow/lifecycle.go:23-33 | a consistent contract IN_PROGRESS has a pending milestone |
| `EscrowLaws.ActionLowersRank` | internal/escrow/contract.go:83-194 | every submission, approval, dispute and resolution strictly lowers the rank sum |
| `EscrowLaws.WorkflowEnds` | internal/escrow/lifecycle.go:23-33 | so at most 3k of them can take effect with k milestones |
| `Coupling.RunCoupled` | internal/api/handlers_escrow.go:129-344 | every run whose events are orderly keeps contract, lock and whatever is in flight coupled, and the contract consistent; releases, awards and refunds are in flight from the handler to the block, and none is lost from the mempool before the contract is terminated |
| `Coupling.NextKeepsIff` | internal/api/handlers_escrow.go:129-344 | the conditions of an orderly run are exact: from a coupled world an event keeps the coupling if it is orderly and, except for a foreign transaction on the lock other than a freeze, only if |
| `Coupling.LockFollowsContract` | internal/api/handlers_escrow.go:171-344 | while IN_PROGRESS or MILESTONE_REVIEW the lock holds RemainingAmount plus what is in flight and is LOCKED, or FROZEN exactly when an award is in flight; with nothing in flight it is LOCKED with RemainingAmount, and at COMPLETED RELEASED and empty |
| `Coupling.NothingIsStranded` | internal/blockchain/validation.go:70-123 | from every coupled world where no undecided dispute holds a release up, all releases and awards in flight can be committed, whatever state the contract is in; coupled means that nothing in flight has been lost before the end |
| `Coupling.PayableUnlessInDispute` | internal/blockchain/validation.go:70-84 | and that is the only thing that can hold one up: a frozen lock, DISPUTED, with no award in flight |
| `Coupling.NewContractCoupled` | internal/escrow/contract.go:25-41 | a new contract starts coupled over any well-formed ledger without a lock under its ID |
| `Coupling.AdvanceKeepsIff` | internal/api/handlers_escrow.go:129-150 | a raw transition keeps the coupling if and only if it is refused, or nothing is signed yet, or it does what confirmation does (SIGNED with the lock there, and FUNDED), or it terminates the contract and strands no release in flight |
| `Coupling.FundingPassesIff` | internal/escrow/contract.go:56-69 | the funding LOCK passes if and only if no lock exists, the investor has the balance and the nonce is current |
| `Coupling.ConfirmCouplesIff` | internal/api/handlers_escrow.go:171-200 | confirming any lock of the right amount succeeds, and starts a coupled contract if and only if investor, founder and status of the lock are the contract's |
| `Coupling.StrangersLockIsConfirmed` | internal/api/handlers_escrow.go:178-194 | the other half is reachable: a LOCK of the right amount by or for somebody else is confirmed |
| `Coupling.ConfirmKeeps` | internal/api/handlers_escrow.go:171-200 | confirmation keeps a coupled world coupled and starts the contract only from SIGNED |
| `Coupling.ReleasePassesIff` | internal/escrow/contract.go:103-120 | a release that a coupled contract can build is accepted if and only if no award is in flight, that is, over a LOCKED lock |
| `Coupling.ReleaseIssuedKeeps` | internal/api/handlers_escrow.go:248-264 | submitting a release and approving the milestone keeps the coupling |
| `Coupling.AwardPassesIff` | internal/blockchain/validation.go:109-123 | an award to a party is accepted if and only if the lock is frozen and holds its amount |
| `Coupling.ArbitrationKeepsIff` | internal/api/handlers_escrow.go:291-307 | an award in flight keeps the coupling if and only if it is the only one and either pays the disputed milestone's amount, or terminates and leaves enough for the releases in flight |
| `Coupling.TerminatingAwardKeepsIff` | internal/escrow/contract.go:181-184 | a terminating award keeps it if and only if no other award is in flight and its amount is at most RemainingAmount |
| `Coupling.FullAwardStrandsReleases` | internal/api/handlers_escrow.go:291-307 | a terminating award of all the lock holds is accepted, and once committed no release in flight passes in any later state |
| `Coupling.SecondAwardIsRefused` | internal/blockchain/validation.go:114-116 | a second award over one freeze is refused once the first is committed |
| `Coupling.RefundPassesAndPaysItsAmountIff` | internal/escrow/contract.go:200-214 | in every coupled world with a lock, a refund passes if and only if the lock is LOCKED or FROZEN (always, before the contract is terminated), and states what the lock holds if and only if the claims in flight and those lost come to what terminating awards have taken; before the contract is terminated, if and only if nothing is in flight |
| `Coupling.RefundPaysTheLock` | internal/blockchain/validation.go:180-185 | it pays all the lock holds: more than it states if and only if claims in flight and lost exceed the awards, less if and only if they fall short |
| `Coupling.RefundPaysTheRest` | internal/blockchain/validation.go:180-185 | committed after every claim, a refund pays RemainingAmount, plus what was lost, less what terminating awards have taken |
| `Coupling.RefundAfterAwardUnderpays` | internal/api/handlers_escrow.go:291-338 | the failing input at TERMINATED: award a part and end the contract, commit, refund; every step is orderly, nothing is in flight, and the refund states the award on top of what it pays |
| `Coupling.DroppedKeepsIff` | internal/mempool/mempool.go:45-51 | losing one transaction in flight keeps the coupling if and only if the contract is TERMINATED and no release in flight waits for it |
| `Coupling.PoolLostKeepsIff` | cmd/node/main.go:155-155 | a restart, which empties the mempool, keeps the coupling if and only if nothing was in flight or the contract is TERMINATED |
| `Coupling.LostReleaseIsStuck` | internal/api/handlers_escrow.go:240-270 | a release lost after the last approval leaves its money in the lock of a COMPLETED contract |
| `Coupling.StuckForEver` | internal/api/handlers_escrow.go:129-344 | and no handler gets it out: in every run without a foreign transaction on the lock, lock and contract stay as they are |
| `Coupling.RefundIssuedKeepsIff` | internal/api/handlers_escrow.go:322-338 | issuing a refund keeps the coupling if and only if the contract is IN_PROGRESS, DISPUTED or TERMINATED and no release in flight is held up |
| `Coupling.RefundAtOnceKeepsIff` | internal/api/handlers_escrow.go:322-338 | issued and committed at once, if and only if the contract can end and no release or award is in flight |
| `Coupling.CommittedKeepsIff` | internal/blockchain/validation.go:172-199 | a block that commits a release or award in flight keeps the coupling; one that commits a refund, if and only if no release or award is left in flight |
| `Coupling.InFlightPassesIff` | internal/blockchain/validation.go:70-123 | in a coupled world an award in flight passes, a release if and only if the lock is LOCKED, and a refund if and only if it is LOCKED or FROZEN |
| `Coupling.RefundStrandsReleases` | internal/blockchain/validation.go:180-185 | a release or award still in flight when a refund is committed fails in every later state |
| `Coupling.RefundIsAcceptedOverReleases` | internal/api/handlers_escrow.go:315-344 | and it can come to that: IN_PROGRESS with something in flight, the refund is accepted, and committing it first breaks the coupling |
| `Coupling.RefundUnderReviewDecouples` | internal/api/handlers_escrow.go:331-338 | a concrete case: in MILESTONE_REVIEW the refund goes through, the update fails, and the lock empties under a live contract |
| `Coupling.FreezeKeepsIff` | internal/blockchain/validation.go:99-107 | a freeze keeps the coupling if and only if the contract is DISPUTED, or TERMINATED with no release or award in flight |
| `ContractRecords.ArbitrationIsUnsavedIff` | internal/api/handlers_escrow.go:304-311 | arbitration changes a consistent contract without saving it if and only if the award was submitted, the contract is not to end, and the milestone named is the last one left to approve (or all are approved and it is stamped again) |
| `ContractRecords.ReleaseIsSaved` | internal/api/handlers_escrow.go:261-268 | a release of a consistent contract is saved or leaves it as it was |
| `ContractRecords.RefundIsSaved` | internal/api/handlers_escrow.go:335-342 | so is a refund |
| `ContractRecords.ConfirmationIsSaved` | internal/api/handlers_escrow.go:187-198 | and a confirmation |
| `ContractRecords.UnsavedApprovalDecouples` | internal/api/handlers_escrow.go:25-43 | if the approval is lost at a restart while the award is in flight, contract and lock are apart |
| `Workflow.SubmitsIff` | internal/api/server.go:63-70 | a transaction signed by the authority is refused only by the ledger's rules |
| `Workflow.SignedCommitsAlike` | internal/blockchain/transaction.go:93-105 | the signed transaction validates and acts as the unsigned one in the machine |
| `Workflow.ReleaseFollowsNext` | internal/api/handlers_escrow.go:240-270 | the release handler takes the machine's step: contract, untouched ledger, transaction in flight, and the reply; the mempool carries it, signed and valid, if and only if its ID was free or already its own |
| `Workflow.ArbitrationFollowsNext` | internal/api/handlers_escrow.go:279-313 | so does the arbitration handler |
| `Workflow.RefundFollowsNext` | internal/api/handlers_escrow.go:315-344 | and the refund handler |
| `Api.Server.SubmitTx` | internal/api/server.go:63-70 | validates against the current state, and only then adds |
| `Api.Server.HandleCreateContract` | internal/api/handlers_escrow.go:83-113 | creates and saves, or refuses and changes nothing |
| `Api.Server.HandleConfirmFunded` | internal/api/handlers_escrow.go:171-200 | the handler takes the pure step on its contract, saves it only if both moves succeed, and keeps record and memory in step |
| `Api.Server.HandleReleaseMilestone` | internal/api/handlers_escrow.go:240-270 | the handler takes the pure step on contract, mempool and counter, saves the contract only if every part succeeds, and keeps record and memory of a consistent contract in step |
| `Api.Server.HandleArbitrate` | internal/api/handlers_escrow.go:279-313 | the same for arbitration; record and memory stay in step if and only if it ends well or leaves the contract's encoding as it was |
| `Api.Server.HandleRefund` | internal/api/handlers_escrow.go:315-344 | the same for a refund, which always keeps record and memory in step |

## Left out

- secp256k1, SHA-256, hex, DER and JSON formats: uninterpreted, under the hypotheses above. A verification error and an
  invalid signature are one outcome, as both callers treat them.
- HTTP routing, request decoding, status codes, API keys, flags and logging: no state of interest. Replies and errors
  are values of an enumeration, not message texts.
- Who may sign MINT, RELEASE_MILESTONE, ARBITRATE and FREEZE_DISPUTE: not a ledger rule.
- Freedom from replay for types other than TRANSFER and LOCK: the code checks no nonce there.
- Memory-level races, mutexes and lock objects that escape GetLock: each handler and each loop iteration is one step.
- Wall clock, tickers, peers, join and gossip fan-out: timestamps are arbitrary inputs, the validators are fixed, and a
  block on the wire stays there. One handler call has one clock reading, where the code may read the clock twice.
- Liveness: a node that misses a block has no way to catch up, and an unappliable transaction stays in the mempool.
- Wrap-around of block index, timestamp and milestone time stamps: unbounded integers. The restart theorem is for runs of
  fewer than 2^63 commits, and the exact nonces are for chains of fewer than 2^63 transactions.
- Errors of the store itself: saves in the model always succeed, so the branches that log a failed save or answer that
  persisting failed are missing, and so is a crash between SaveBlock and SaveState.
- LoadAllContracts, and contract JSON beyond the record that each handler writes: opaque to the chain's entries.
- Leading blanks and signs other than those a printed integer has, in the number scanner.
- handleAdvanceContract, handleSubmitMilestone, handleDisputeMilestone and handleFundingTx as handler objects: each is one
  contract call and a save. The contract calls are events of the workflow.
- A foreign LOCK, RELEASE_MILESTONE, REFUND or ARBITRATE on the contract's lock: an orderly run has none. Only the foreign
  LOCK is looked at, where it is confirmed.
- Order of the keys that LoadState visits, where two lock records hold the same inner ID: any order is allowed.
- Contract and Milestone fields that no code reassigns (IDs, parties, amounts, the milestone list): constants of the
  objects, and a registered contract's milestones are distinct objects, as the create handler makes them.
- Steps that the source writes inline and the objects name (persisting a block, what a handler does once it has found the
  contract): the split has no counterpart in the source.
