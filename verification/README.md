# BitVoid ledger core

A Dafny model of a BitVoid node: the block chain with its UTXO map and hash index, the pool of pending
transactions, block production and mining, the wallet's payments, and the messages by which nodes copy
each other's chains. The C++ objects `Blockchain`, `Mempool`, `Wallet` and `Node` and the mining loop are
Dafny classes whose fields are updated in place; every method is proved equal to a function on values, and
the properties of whole runs are proved about those functions.

## What is proved

- **Ledger.** After any sequence of `init`, `add_block`, rebuild and save-and-load, both maps are what a
  replay of the chain gives. An output is in the UTXO map exactly when some block creates it and no later
  block spends it, and it carries the address and the amount of the last output written there. No output is spent in two blocks by verified
  inputs unless it was created again in between.
- **Acceptance.** Which transactions and blocks are accepted is said of the fields, SHA-256 and the signature
  scheme alone. Changing any one component of a transaction or a block changes its hash, or two texts collide,
  and then it is turned away.
- **Money.** In every run of the mining loop over balanced payments, the sum of all unspent amounts is the
  sum of the rewards, at most 2 BTVD per block; no balance wraps; no mined block is turned away.
- **Pool.** The index of spent outputs is faithful after any operations, and a block selection pays at least
  as much as any other choice of as many transactions. In runs of the mining loop, where blocks come from the
  loop alone, what is pooled stays valid against the chain. When blocks arrive in messages, a pooled
  transaction stays valid exactly if none of them spends one of its inputs; what each message takes out of the
  pool is exact.
- **Replication.** With one producer and a network that loses, duplicates, delays and reorders, every node
  holds a prefix of the producer's chain with the producer's maps at that height; one exchange brings a
  node that is behind up to date, and over the network the answer to a node's own request does so however
  late it comes; gossip dies out, and each node relays each height at most once. In general an exchange ends
  in agreement exactly if the asking node's chain is a prefix of the other one, and changes the asking node
  exactly if the block at its next position passes `add_block`; it changes nothing if the hashes at its
  height differ.
- **Algorithms.** Merkle binding, the numeric meaning of difficulty, retargeting in whole numbers, coin selection,
  hex coding, outpoint keys, message framing.

## Hypotheses

They appear in the contracts wherever they are used.

- Runs start from `init()`; for replication, from one shared genesis block.
- The ids of the transactions of a new block are fresh: different from each other, from the ids of unspent
  outputs, and from the all-zero id that a coinbase names (`Miner.FreshIds`). Hash collisions are never
  excluded: where one matters, the result is "or here is the colliding pair".
- The clock, a parameter, does not go back. The miner address is not empty.
- A chain has fewer than 2^64 blocks where positions matter, since the block index is a `uint64_t`; exact
  money sums need at most 92,233,720,368 rewards.
- SHA-256 (section 6.2 of FIPS 180-4) is a function that returns 64 lower-case hexadecimal characters;
  ML-DSA-65 (sections 5.2 and 5.3 of FIPS 204) verifies what the same key signed. Nothing else is assumed
  of either.

## Where the code and its documentation differ

The model follows the code. Section numbers are those of the technical specification under `docs/`.

- Section 5.1 gives the pending-value trigger as 100,000,000,000 base units and as 100 BTVD; the code has
  10,000,000,000, which is 100 BTVD (`Consensus.ProductionWindow`).
- Section 4.3 wants the first transaction to be a coinbase. `add_block` only exempts a first transaction
  that is one, and takes a block without any transaction (`Divergences.EmptyBlockIsTaken`).
- Section 2.8 has the coinbase pay the reward and the fees. `add_block` compares the amount with nothing: a
  block may pay its miner any positive amount (`Divergences.AnyRewardIsTaken`).
- Section 5.3 makes fees mandatory. The pool asks for no fee, and compares neither fee nor amounts with what
  the inputs are worth: `Payments.PaymentAcceptedIff` says exactly which payments of a wallet it takes.
- Section 8.5 says that invalid blocks are not relayed. A received block is relayed on its header alone;
  `Nodes.RelayedWithoutBeingAddedIff` has the exact case in which it was not added, and
  `Divergences.HollowBlockIsRelayed` a block that every node with a peer relays and none adds. Its transactions
  leave the pool all the same (`Stale.DroppedUnconfirmedIff`).
- Section 8.4 has a sync request fetch the missing blocks. It does so exactly for a node whose chain is a
  prefix of the peer's (`Sync.ExchangeConvergesIff`). `node_mode` makes its own genesis block from the clock,
  and nodes that did so in different seconds never take over a block from each other, however long their
  chains have become, unless two texts collide (`Forks.SeparateStartsNeverConverge`). The energy report is not
  hashed, and a node that differs from its peer in the energy source of its latest block alone ends on a third
  chain (`Forks.VariantTipTakesNextBlock`).
- Section 4.2 gives 1 as the least difficulty. That holds for every real ratio of block time to target
  exactly for difficulties up to 2,863,311,530 or above 3,904,515,724 (`Retarget.AlwaysPositiveIff`); a window
  of at most 1000 timestamps need not reach the ratio at which it fails. Accepted blocks declare 256 at most.
  Faster blocks get no lower difficulty exactly if no rise can wrap and a fall that does not fit a
  `uint32_t` is converted to something large (`Retarget.OrderKeptIff`); a window whose timestamps go back
  shows the failure (`Retarget.UnderflowingWindowBreaksOrder`).
- Section 7.4 has a wallet select outputs that cover `amount + fee`. Both that sum and the running total are
  `uint64_t` and may wrap. When a shortage is reported rightly is `Payments.ShortageReportedIff`; it is for
  every list of outputs only if `amount + fee` is at most 1 (`Payments.ShortageAlwaysReportedIff`). Outputs
  of 5 and 2^64 - 3 do not cover 10 (`Payments.TotalWrapsBelowNeed`).
- A wallet's payment whose `amount + fee` wraps can be built and accepted by the pool. If the payer's outputs
  are worth less than 2^64 together, it pays out 2^64 more than it spends (`Payments.PaymentBalancedIff`,
  `Payments.WrappedNeedIsAccepted`); of the payments that the pool takes, exactly those that do not wrap are
  steps of an honest run (`MinerRuns.PaymentIsHonestIff`).
- A mined block is taken exactly when the miner has an address, reward plus fees is not 0 modulo 2^64, and
  every selected transaction is still spendable on the chain (`Miner.MinedBlockAcceptedIff`). In honest runs
  all three hold. The second fails in a reachable pool, from which the loop adds no block in the first year
  (`Divergences.OversizedPaymentStallsMining`). The third fails in `run_mode` after a sync response with a
  pooled transaction, which leaves the pool as it is (`Stale.SyncedTransactionStallsMining`).
- Within one block an output can be spent twice, and one transaction can occur twice
  (`Divergences.ValidOneByOneIsTaken`, `Divergences.DoubleSpendIsTaken`).
- A Merkle root does not bind the number of ids: a list of another length has the same root, exactly unless
  the list is a single id that is itself no root (`Merkle.LengthIsNotBoundIff`). Repeating the last id of any
  odd list of three or more is one way (`Merkle.RepeatedLastIdKeepsRoot`).

## Modules

`Words`, `Decimals`, `Hex`, `Crypto`: machine integers, printing, abstract cryptography.
`Transactions`, `Blocks`, `Merkle`, `LeadingZeros`, `Json`: the data and its hashes.
`Ledger` (decisions of `Blockchain` on values), `Acceptance` (the same decisions said of fields, hashes and
signatures alone), `Tampering` (what changing one component does to the hashed text), `History` (chains built by
`add_block`), `Provenance` (where unspent outputs come from), `Persistence`, `Sums`, `Blockchains` (the object).
`Mempools` and `PendingPool` (the object). `Consensus`, `Retarget` and `RetargetRule` (the same in whole numbers).
`Wallets` and `Payments`. `Supply`, `Miner`, `MinerRuns`, `Rewards` and `MiningLoop`: the mining loop.
`Framing`, `Nodes`, `Relaying`, `Sync`, `Forks`, `Gossip`, `Quiescence`, `CatchUp`: the network. `Stale`: blocks from others
and the pool. `Divergences`, `Echo`: inputs on which the code does other than documented.

A call that may throw returns `Try`; checks return the `Verdict` accept, reject or throw, because
`std::stoul` throws on malformed hexadecimal.

## Model

| member | source | states |
|---|---|---|
| Decimals.UtxoKeyInjective | src/blockchain.cpp:10-12 | Two equal outpoint keys come from the same id and index, whatever characters the id contains |
| Decimals.DecimalInjective | src/blockchain.cpp:11 | Printed decimal numbers determine the number |
| Decimals.DecimalStandsFor | src/blockchain.cpp:11 | Read in base 10 a printed number is the number, without leading zeros |
| Hex.DecodeHex | src/sha256.cpp:38-45 | The decoding loop reads two characters per byte, with `std::stoul`'s partial parses, and throws where it does |
| Hex.EncodeHex | src/sha256.cpp:47-53 | The printing loop writes two lower-case digits per byte |
| Hex.DecodeEncode | src/sha256.cpp:38-53 | Decoding what was encoded gives the bytes back |
| Hex.EncodeDecode | src/sha256.cpp:38-53 | On lower-case strings of even length decoding never throws and encoding undoes it |
| Hex.HexToBytesThrows | src/sha256.cpp:40-42 | Decoding throws iff some pair of characters holds no number |
| Hex.PairsOfCharacters | src/sha256.cpp:40-42 | Concrete parses: both cases, blanks, signs, trailing characters, and pairs that throw |
| Crypto.SignedByKeyVerifies | src/wallet.cpp:62-132 | A printed signature verifies under the printed public key of the same wallet, whose address is the wallet's |
| Merkle.HashPairs | src/block.cpp:41-50 | One pass of the inner loop turns layer k of the duplicate-last tree into layer k + 1 |
| Merkle.CalculateMerkleRoot | src/block.cpp:40-54 | The layer-rewriting loop ends, with the root of the recursive tree |
| Merkle.WidthAtHeight | src/block.cpp:40-51 | Halving with rounding up reaches a single node |
| Merkle.MerkleBinding | src/block.cpp:30-55 | Equal roots over equally many 64-character ids mean equal lists, or the search returns two different strings with one double hash |
| Merkle.RootIsRootOfLayerAbove | src/block.cpp:35-54 | The root of one id is that id; the root of any longer list is the root of its neighbours hashed in pairs, the last of an odd list with itself |
| Merkle.LengthIsNotBoundIff | src/block.cpp:30-55 | For 64-character ids: another number of ids has the same root iff the list is not a single id, or that id is the root of nothing or of two nodes |
| LeadingZeros.ScanByte | src/block.cpp:66-72 | The inner bit loop adds the zero bits before the first one bit |
| LeadingZeros.CheckDifficulty | src/block.cpp:57-77 | The nested loops compare the leading zero bits of the whole hash, counted in a `uint32_t`, and throw on malformed hexadecimal |
| LeadingZeros.ZeroBitsIsBound | src/block.cpp:62-76 | At least d leading zero bits iff d <= 8n and the big-endian value is below 2^(8n-d) |
| LeadingZeros.DifficultyIsNumericBound | src/block.cpp:57-77 | A digest meets difficulty d iff d <= 256 and its value is below 2^(256-d); the check cannot throw |
| Transactions.Serialize | src/transaction.cpp:42-53 | The two printing loops write the signed text |
| Transactions.SigningKeepsHash | src/transaction.cpp:42-69 | Other signatures leave the text and the id of a transaction as they are |
| Transactions.IsValidStructure | src/transaction.cpp:108-122 | True iff there are inputs and outputs, all amounts and addresses are set, and all inputs name an id |
| Transactions.TotalOutput | src/transaction.cpp:131-137 | The exact sum of the outputs modulo 2^64 |
| Blocks.Serialize | src/block.cpp:9-24 | Header fields without the energy report, then the transaction ids in order |
| Blocks.CalculateRoot | src/block.cpp:30-55 | The root over the ids of the block's transactions |
| Blocks.GenesisFields | src/block.cpp:123-140 | The genesis block: position 0, 64 zeros, difficulty 1, the root of no ids, and its own hash |
| Json.TxRoundTrip | src/transaction.cpp:71-106 | Every field of a transaction survives the trip through its tree |
| Json.BlockRoundTrip | src/block.cpp:79-121 | Every field of a block survives the trip through its tree |
| Json.TxHoldsFields | src/transaction.cpp:8-90 | The tree holds every field of a transaction, its inputs and its outputs under the code's member names |
| Json.Collect | src/block.cpp:116-118 | The decoding loop keeps the order and lets the first exception escape |
| Json.EncodeBlock | src/block.cpp:79-100 | The loop over the transactions builds the block's tree |
| Json.DecodeBlock | src/block.cpp:102-121 | The loop over the transactions computes the decoded block, or throws |
| Json.BlockDecodesIff | src/block.cpp:102-121 | Decoding succeeds iff every member has its type and every transaction decodes, and then keeps their order |
| Json.NullCountsAsEmpty | src/block.cpp:116-118 | A null in place of a block's transactions counts as none, and anything but a list throws |
| Ledger.CheckSignaturesMeaning | src/blockchain.cpp:270-288 | Accepted iff every input's output is present, belongs to the address of its public key, and its signature verifies |
| Ledger.PooledMeaning | src/blockchain.cpp:164-181 | The pool's gate accepts iff the transaction is no coinbase, well-formed, rightly hashed and fully owned; such a transaction may stand anywhere in a block |
| Ledger.CheckTxsMeaning | src/blockchain.cpp:71-89 | The loop over a block's transactions accepts iff each one is well-formed, rightly hashed, and owned or a leading coinbase |
| Ledger.CheckBlockMeaning | src/blockchain.cpp:41-89 | On a non-empty chain a block is taken iff it is next, linked, hashed, difficult enough, has the right root, and all its transactions are good |
| Ledger.HeaderNeverThrows | src/blockchain.cpp:53-62 | Checking a header never throws, because the hash is recomputed before it is decoded |
| Ledger.CreatedEntry | src/blockchain.cpp:107-118 | Every entry a block writes is an output of one of its transactions, under that output's key |
| Acceptance.SignaturesAcceptedIff | src/blockchain.cpp:270-288 | Accepted iff for every input key and signature decode, the output is there, its address is the first 40 characters of the key bytes' digest, and the scheme verifies the signature of the text |
| Acceptance.WrongSignatureIsRefused | src/wallet.cpp:124-131 | With one printed signature that the scheme refuses, neither a block nor the pool accepts the transaction |
| Acceptance.InputThrowsIff | src/blockchain.cpp:274-284 | An input throws iff its key is malformed, or its signature is and the output is there and belongs to the key |
| Acceptance.SignaturesVerdict | src/blockchain.cpp:273-287 | The first input that is not lawful decides between refusal and exception |
| Acceptance.TxAcceptedIff | src/blockchain.cpp:74-88 | A block's transaction is accepted iff it has the required shape, carries its id, and spends lawfully or is a leading reward |
| Acceptance.PooledAcceptedIff | src/blockchain.cpp:164-181 | The pool's gate accepts iff shape, id and lawful spending are in order and it does not look like a reward |
| Acceptance.PooledThrowsIff | src/blockchain.cpp:164-181 | It throws iff everything before the signatures is in order and checking them throws |
| Acceptance.SealedIsContinuing | src/blockchain.cpp:43-68 | The header checks in numbers and texts: position modulo 2^64, link, hash, value below 2^(256-d), root over the ids |
| Acceptance.BlockAcceptedIff | src/blockchain.cpp:41-89 | So `add_block` takes exactly the blocks that continue from the tip and whose transactions are all in order |
| Tampering.ChangeChangesText | src/transaction.cpp:42-53 | Changing any one component of a transaction but a signature, at any position, changes the hashed and signed text |
| Tampering.ChangedTxIsTurnedAway | src/transaction.cpp:55-69 | So the changed transaction is turned away by pool and chain, or the two texts collide |
| Tampering.MorePartsMoreText | src/transaction.cpp:46-51 | One more input or output makes the text longer |
| Tampering.BlockChangeChangesText | src/block.cpp:9-24 | Changing any one header field but the energy report, or any one transaction id, changes the hashed text of a block |
| Tampering.ChangedBlockIsTurnedAway | src/block.cpp:26-28 | So the changed block has another hash and is turned away, or the two texts collide |
| History.InitEstablishes | src/blockchain.cpp:18-27 | A chain just initialised satisfies the ledger invariant |
| History.AddKeepsInv | src/blockchain.cpp:29-96 | Whatever block is offered, the chain stays well built and both maps stay those of a replay |
| History.WellBuiltAppend | src/blockchain.cpp:29-96 | A longer chain is well built iff its last block was accepted on the rest |
| History.ChainLinked | src/blockchain.cpp:43-57 | Blocks sit at their own index modulo 2^64, carry their own hash, and link to the block before |
| History.IndexIsTipSearch | src/blockchain.cpp:135-140 | Where blocks declare their own position, the hash index finds what a linear search from the tip finds |
| History.WellBuiltIsPositioned | src/blockchain.cpp:43-46 | Blocks of a chain built by `add_block` declare their own position, up to 2^64 of them |
| History.HeightNamesTip | src/blockchain.cpp:142-145 | The height is the position the tip declares, and the tip is all that is sent from there on |
| History.UtxoPresence | src/blockchain.cpp:98-119 | An outpoint is unspent iff some block creates it and no later block spends it |
| History.UtxoValue | src/blockchain.cpp:98-119 | Its entry is the last output written there; whose output that is, is said by the four results of `Provenance` |
| Provenance.CreatedIff | src/blockchain.cpp:107-118 | A block writes an outpoint iff one of its transactions has that id and that many outputs |
| Provenance.CreatedIsOwnOutput | src/blockchain.cpp:107-118 | What it leaves there is the own output, address and amount, of the last such transaction |
| Provenance.UnspentIsOwnOutput | src/blockchain.cpp:98-119 | An unspent entry is the own output of the last transaction of the chain that writes it |
| Provenance.UnspentHasOrigin | src/blockchain.cpp:98-119 | Every unspent entry has such a transaction, and no later block spends it |
| History.VerifiedSpendHasSource | src/blockchain.cpp:70-93 | What a verified input spends was created by an earlier block and not spent since |
| History.NoDoubleSpend | src/blockchain.cpp:70-93 | Between two verified spends of one outpoint some block created it again |
| History.SpentOnlyOnce | src/blockchain.cpp:70-93 | With distinct ids across blocks, verified inputs of two blocks never spend one outpoint |
| History.UtxosAreKeyed | src/blockchain.cpp:109-117 | Every unspent output lies under its own key, with a digest as id, a positive amount and an address |
| Persistence.LoadSaved | src/blockchain.cpp:217-252 | Loading what was saved restores chain, UTXO map and hash index |
| Persistence.BrokenFile | src/blockchain.cpp:231-252 | If an item of a file does not decode, the blocks before it stay with their index and no unspent outputs |
| Persistence.RebuildRepairs | src/blockchain.cpp:254-259 | Rebuilding then makes the state agree with a replay again |
| Persistence.InitStartsChain | src/blockchain.cpp:18-27 | `init` on an empty chain leaves one block with the clock's time |
| Persistence.ExecuteKeepsInv | src/blockchain.cpp:18-259 | Each state-changing operation keeps the invariant and all blocks |
| Persistence.EveryRunAgreesWithReplay | src/blockchain.cpp:18-259 | After any sequence of operations the maps are those rebuilt from scratch, the chain has only grown, and save and load change nothing |
| Blockchains.Blockchain.Init | src/blockchain.cpp:18-27 | An empty chain gets the genesis block; any other stays as it is |
| Blockchains.Blockchain.AddBlock | src/blockchain.cpp:29-96 | Returns the decision on the old state; the new state is the old one with the block, both maps updated, or the old one |
| Blockchains.Blockchain.ValidateBlock | src/blockchain.cpp:147-162 | The header decision, and false on an empty chain |
| Blockchains.Blockchain.ValidateTransactions | src/blockchain.cpp:70-89 | The first failing transaction decides, in order |
| Blockchains.Blockchain.ValidateInBlock | src/blockchain.cpp:74-88 | One transaction of a block: structure, hash, exemption of a leading coinbase, signatures |
| Blockchains.Blockchain.VerifyTransactionSignatures | src/blockchain.cpp:270-288 | Inputs are checked in order, address before presence before ownership before signature, with the exceptions on the way |
| Blockchains.Blockchain.ApplyBlockToUtxoSet | src/blockchain.cpp:98-119 | All inputs of the block are erased before any output is written |
| Blockchains.Blockchain.EraseSpent | src/blockchain.cpp:99-105 | Exactly the keys of the block's inputs leave the map |
| Blockchains.Blockchain.WriteCreated | src/blockchain.cpp:107-118 | Exactly the outputs of the block enter it, later ones over earlier ones |
| Blockchains.Blockchain.RebuildUtxoSet | src/blockchain.cpp:254-259 | The loop replays the whole chain and touches nothing else |
| Blockchains.Blockchain.ValidateTransaction | src/blockchain.cpp:164-181 | The pool's gate, in the code's order of checks |
| Blockchains.Blockchain.GetBalance | src/blockchain.cpp:194-203 | The sum of the address's outputs modulo 2^64, in whatever order the map is visited |
| Blockchains.Blockchain.GetUtxosForAddress | src/blockchain.cpp:183-192 | Lists every output of the address once and no other |
| Blockchains.Blockchain.GetBlockByHash | src/blockchain.cpp:135-140 | The indexed block; with positioned blocks and their index, what a linear search from the tip finds |
| Blockchains.Blockchain.GetBlocks | src/blockchain.cpp:261-268 | The blocks from a position on, none beyond the tip |
| Blockchains.Blockchain.SaveToDisk | src/blockchain.cpp:217-229 | The saved array holds one tree per block, in order |
| Blockchains.Blockchain.LoadFromDisk | src/blockchain.cpp:231-252 | A missing file changes nothing; an unparsable one throws and changes nothing; otherwise the state is the decoded chain with both maps, or after an exception the blocks read so far and no UTXOs |
| Mempools.MarksMeaning | src/mempool.cpp:25-29 | The entries for a list of inputs are exactly their keys, each with the input's own index |
| Mempools.AddKeepsPoolInv | src/mempool.cpp:7-32 | Adding keeps the index faithful and the pooled inputs disjoint |
| Mempools.RemoveKeepsPoolInv | src/mempool.cpp:34-47 | So does removing, which only works because the inputs are disjoint |
| Mempools.AdmissionMeaning | src/mempool.cpp:10-20 | Admitted iff the id is new and no pooled transaction spends a common outpoint |
| Mempools.AddThenRemove | src/mempool.cpp:7-47 | Removing what was just added restores both maps |
| Mempools.EveryPoolRunIsFaithful | src/mempool.cpp:7-103 | The index is faithful after any sequence of add, remove and clear |
| Mempools.RemoveAllMeaning | src/main.cpp:131-134 | Dropping a block's transactions removes exactly their ids and keeps the index faithful |
| Mempools.SelectionShape | src/mempool.cpp:59-78 | A selection has min(k, size) different pooled transactions by descending fee |
| Mempools.SelectionSharesNothing | src/mempool.cpp:59-78 | No two selected transactions share an outpoint |
| Mempools.SelectionIsOptimal | src/mempool.cpp:59-78 | No other choice of at most k pooled transactions pays more |
| Mempools.ExchangeArgument | src/mempool.cpp:69-75 | A list by descending fee beats every list that is no longer and has nothing better to offer |
| Mempools.SortByFee | src/mempool.cpp:69-71 | The sorted list is a permutation by descending fee |
| PendingPool.Mempool.HasConflictingInputs | src/mempool.cpp:105-114 | True iff some input's key is in the index |
| PendingPool.Mempool.AddTransaction | src/mempool.cpp:7-32 | Returns whether the transaction was admitted; both maps get exactly its entries, or stay |
| PendingPool.Mempool.RemoveTransaction | src/mempool.cpp:34-47 | The transaction and its index entries go, nothing else |
| PendingPool.Mempool.RemoveConfirmed | src/main.cpp:131-134 | The loop removes every transaction of the block |
| PendingPool.Mempool.GetAll | src/mempool.cpp:49-57 | Lists every pooled transaction once |
| PendingPool.Mempool.GetForBlock | src/mempool.cpp:59-78 | Returns the front of some listing of the whole pool by descending fee |
| PendingPool.Mempool.TotalPendingValue | src/mempool.cpp:85-92 | All outputs and fees of the pool, modulo 2^64 |
| PendingPool.PendingValueRises | src/mempool.cpp:85-92 | An admitted transaction adds its outputs and its fee to the pending value |
| PendingPool.Mempool.Clear | src/mempool.cpp:99-103 | Both maps are empty |
| Consensus.BlockReward | src/consensus.cpp:15-38 | A reward is between half a BTVD and 2 BTVD |
| Consensus.RewardSchedule | src/consensus.cpp:24-37 | 0.5, 1, 1.5 and then 2 BTVD for ever, by full years since genesis |
| Consensus.ProductionWindow | src/consensus.cpp:40-65 | With default parameters: never within 3 s, always from 60 s on, in between iff 100 transactions or 100 BTVD are pending |
| Consensus.ClockBehind | src/consensus.cpp:15-65 | If the clock shows a time before the last block or before genesis, the differences wrap: a block is due and earns 2 BTVD |
| Consensus.TotalFees | src/consensus.cpp:134-138 | The sum of the fees modulo 2^64 |
| Consensus.Assemble | src/consensus.cpp:117-162 | The block before mining: linked, coinbase first, root over all ids |
| Consensus.FindNonce | src/consensus.cpp:174-215 | Returns the block of the least solving nonce, or nothing when none below 2^64 - 1 solves |
| Consensus.MineBlock | src/consensus.cpp:109-216 | Reward by the clock, assembly, then the search |
| Consensus.MinedBlockIsSealed | src/consensus.cpp:177-198 | A mined block is linked, hashed, difficult enough and has the right root, although energy is recorded after hashing |
| Consensus.MinedBlockReports | src/consensus.cpp:174-215 | It names miner, energy source, watt-seconds and kilowatt-hours, and with any smaller nonce its hash would not meet the difficulty |
| Consensus.NothingMined | src/consensus.cpp:174-216 | Nothing is returned only if no nonce below 2^64 - 1 gives a hash that meets the difficulty |
| Consensus.CoinbaseFields | src/consensus.cpp:141-156 | The reward has one output to the miner, no fee, the block's time, the marks of a coinbase, and its own id |
| Retarget.AdjustDirection | src/consensus.cpp:80-97 | The difficulty rises iff the ratio is below 0.8, falls iff it is above 1.2 and the difficulty above 1, and stays at least 1 |
| Retarget.FastBlocksRaiseIff | src/consensus.cpp:86-89 | Fast blocks always raise the difficulty iff it is at most 2,863,311,530 |
| Retarget.AlwaysPositiveIff | src/consensus.cpp:86-97 | Whatever the block times the result is at least 1, iff the difficulty is at most 2,863,311,530 or above 3,904,515,724 |
| Retarget.OrderKeptIff | src/consensus.cpp:86-97 | Faster blocks never get a lower difficulty, across all three branches, iff no rise can wrap and the difficulty is at most 2 or an oversized fall converts to at least the difficulty minus 1 |
| Retarget.UnderflowingWindowBreaksOrder | src/consensus.cpp:72-97 | A window that goes back one second lowers difficulty 10 to 9 where oversized values convert to 0; one with 15 s lowers it to 1 |
| Retarget.AdjustRateCap | src/consensus.cpp:86-89 | With an average of at least 3/5 of the target a difficulty c rises by at most max(1, c/5) |
| Retarget.SlowBlocksReachOne | src/consensus.cpp:90-95 | Permanently slow blocks bring difficulty c to 1 within c - 1 adjustments |
| Retarget.SpacedWindowRateCap | src/consensus.cpp:67-98 | Over headers at least 3 s apart the subtraction does not underflow and one adjustment adds at most max(1, c/5) |
| Retarget.ChainDifficultyAtMost256 | src/blockchain.cpp:59-62 | No block of a well-built chain declares more than 256 bits |
| RetargetRule.CalculateDifficultyIsRule | src/consensus.cpp:67-98 | For all parameters, timestamps and difficulties the computation on fractions is a rule on whole numbers: which branch by the time taken against the time planned, and the exact amount |
| RetargetRule.DefaultDirection | src/consensus.cpp:72-97 | With the 5 s target, n block times in `elapsed` seconds raise the difficulty iff elapsed < 4n and lower it iff elapsed > 6n and there is room |
| RetargetRule.DefaultRise | src/consensus.cpp:86-89 | The rise is max(1, c (5n - elapsed) / 10n) |
| RetargetRule.DefaultFall | src/consensus.cpp:90-95 | The fall is max(1, c (elapsed - 5n) / 10n) where that fits a `uint32_t`, and ends at 1 |
| RetargetRule.WindowSlides | src/main.cpp:111-117 | With each block the former tip's timestamp enters the window, and of more than 1000 the oldest leaves |
| RetargetRule.NextDifficultyIsRule | src/main.cpp:110-120 | On a chain: the rule, applied to the block below the tip and the one up to 999 blocks before it |
| Supply.SumOfCreated | src/blockchain.cpp:107-118 | Transactions with distinct ids create entries worth the sum of their outputs |
| Supply.SumOfSpent | src/blockchain.cpp:99-105 | Balanced transactions without common inputs consume entries worth their outputs plus fees |
| Supply.BlockAccounting | src/blockchain.cpp:98-119 | Such a block changes the sum of all amounts by what its coinbase pays beyond the fees |
| Wallets.Wallet.Select | src/wallet.cpp:150-164 | The selection loop takes outputs in order until the running `uint64_t` total covers the need |
| Wallets.Wallet.Sign | src/wallet.cpp:190-194 | Each input gets a signature of the text, nothing else changes |
| Wallets.Wallet.Create | src/wallet.cpp:134-200 | The whole payment: inputs, recipient and change outputs, signatures, hash; no outputs and no hash when short |
| Payments.TakenIsShortest | src/wallet.cpp:153-164 | For outputs of any size the selection is the shortest prefix on which the running total covers the need, or everything if there is none |
| Payments.PaymentFailsIffNeverReached | src/wallet.cpp:150-170 | A payment fails iff no running total modulo 2^64 reaches what `amount + fee` wraps to |
| Payments.PaymentSpendsShortestPrefix | src/wallet.cpp:150-164 | Its inputs are the first outputs in order, up to the first covering total, or all |
| Payments.PaymentFailsIffShort | src/wallet.cpp:150-170 | The special case without overflow: it fails iff all outputs together fall short, else it spends the shortest covering prefix |
| Payments.ShortageReportedIff | src/wallet.cpp:150-170 | For all outputs, amounts and fees: when failing and falling short are the same |
| Payments.ShortageReportedIffExact | src/wallet.cpp:150-170 | The same for outputs worth less than 2^64 together, as a condition on two sums |
| Payments.ShortageAlwaysReportedIff | src/wallet.cpp:150-170 | The report is right for every list of outputs iff the need is at most 1 |
| Payments.TotalWrapsBelowNeed | src/wallet.cpp:150-170 | From outputs of 5 and 2^64 - 3 a payment with a need of 10 fails |
| Payments.PaymentShape | src/wallet.cpp:172-199 | Signing changes neither text nor id; the outputs are worth the amount plus the change in `uint64_t` arithmetic |
| Payments.PaymentPays | src/wallet.cpp:172-199 | The recipient gets the amount, the key's own address whatever is left over, and every input carries the key and its signature of the text |
| Payments.KeylessPayment | src/wallet.cpp:62-80 | The pool takes the payment of a wallet without a key only if the scheme verifies an empty signature under an empty key |
| Payments.PaymentAcceptedIff | src/wallet.cpp:134-200 | The pool takes a payment built from the payer's own outputs iff it has a hash, a positive amount, a recipient, and a need that does not wrap to 0 |
| Payments.PaymentInputsWorth | src/wallet.cpp:153-164 | The inputs of a built payment are different unspent outputs worth what was picked |
| Payments.PaymentBalance | src/wallet.cpp:150-185 | A built payment is out of balance by what wrapping took off the need more than off the inputs, and balances iff both lost the same |
| Payments.PaymentBalancedIff | src/wallet.cpp:150-185 | For outputs worth less than 2^64 it balances iff `amount + fee` does not wrap, and else pays out 2^64 too much |
| Payments.WrappedNeedIsAccepted | src/wallet.cpp:150-185 | From any outputs, a payment of 50,000,001 with fee 2^64 - 50,000,000 is built and accepted, and does not balance |
| Miner.MinedBlockAcceptedIff | src/main.cpp:122-137 | From any pool and selection: the chain takes a mined block iff the miner has an address, reward plus fees is not 0 modulo 2^64, and every selected transaction is spendable |
| Miner.MinedBlockAccepted | src/main.cpp:122-137 | From a pool that is valid against the chain, the last condition always holds |
| Miner.WrappedFeesAreRejected | src/main.cpp:126-137 | If such a transaction alone is selected, a fee of 2^64 - 50,000,000 in the first year has the mined block turned away |
| Miner.ValidityIsLocal | src/blockchain.cpp:164-181 | Validity of a transaction depends only on the entries it names |
| Miner.BlockLeavesUnselected | src/main.cpp:126-134 | A mined block leaves alone every output that an unselected pooled transaction spends |
| Miner.DueMeansSpaced | src/main.cpp:102-105 | A block is due only 3 s after the last one |
| Miner.WaitsNoLonger | src/main.cpp:98-105 | The loop waits at most a minute after the last block, and at most 3 s once 100 transactions or 100 BTVD are pending |
| Miner.MinedBlockSize | src/main.cpp:107-123 | A mined block has the reward and all pooled transactions up to 100 |
| Miner.MinesAtRemembered | src/main.cpp:118-123 | The loop remembers the difficulty that the mined block declares |
| Miner.StepKeepsInv | src/main.cpp:98-139 | Every step of the loop keeps all pooled transactions valid, both indexes faithful, and headers 3 s apart |
| Miner.NextDifficultyIsBounded | src/main.cpp:110-120 | On three blocks or more the next difficulty is positive and at most max(1, d/5) above the tip's d, which is at most 256; on fewer the loop's own difficulty stands |
| MinerRuns.StartSatisfiesInv | src/main.cpp:78-86 | A fresh chain with an empty pool satisfies the invariants, with supply 0 |
| MinerRuns.PooledStaysValid | src/main.cpp:98-139 | In every run with fresh ids every pooled transaction is valid against the chain in every state |
| MinerRuns.ShortChainKeepsDifficulty | src/main.cpp:118-120 | Along a run, while there are fewer than three blocks, the loop's difficulty is the one it started with |
| MinerRuns.RewardIsTheIncrease | src/consensus.cpp:131-156 | A block of balanced transactions raises the supply by exactly the reward |
| MinerRuns.HonestStepKeepsInv | src/main.cpp:98-139 | An honest step keeps supply equal to minted rewards, and its mined block extends the chain |
| MinerRuns.HonestRun | src/main.cpp:98-139 | In every honest run the supply is the sum of the rewards, at most 2 BTVD per block |
| MinerRuns.NoBlockRejected | src/main.cpp:125-137 | In an honest run the branch that reports a rejected block is never taken |
| MinerRuns.BalanceIsExact | src/blockchain.cpp:194-203 | In an honest run no balance wraps, and none exceeds the minted total |
| MinerRuns.PaymentIsHonest | src/wallet.cpp:134-200 | A wallet's payment from its own outputs fails iff it is not covered, and otherwise is a step of an honest run |
| MinerRuns.PaymentIsHonestIff | src/wallet.cpp:134-200 | For any amount and fee, submitting it is an honest step iff the pool turns it away or `amount + fee` does not wrap |
| MinerRuns.RewardIdsDiffer | src/consensus.cpp:141-156 | Rewards of different seconds have different ids, or their texts collide |
| Rewards.FreshChainIsRewarded | src/main.cpp:78-86 | A fresh chain is a start for the two results below |
| Rewards.StepKeepsRewards | src/main.cpp:98-139 | Every step keeps headers 3 s apart and each block led by a reward with the header's timestamp |
| Rewards.RewardIdsOfRun | src/main.cpp:98-139 | In every run the rewards of two blocks have different ids, or their texts collide |
| MiningLoop.MiningNode.WindowTimestamps | src/main.cpp:111-117 | The timestamps of up to 1000 blocks below the tip, the tip not among them |
| MiningLoop.MiningNode.Produce | src/main.cpp:107-123 | Selection, retargeting and mining of one pass |
| MiningLoop.MiningNode.Confirm | src/main.cpp:125-137 | Chain, file and pool change together, and only if the chain took the block |
| MiningLoop.MiningNode.Pass | src/main.cpp:98-139 | One pass of the loop is one step of the relation, and writes the chain file iff the chain has grown |
| MiningLoop.MiningNode.Submit | src/node.cpp:246-250 | Validating and pooling a submitted transaction is one step of the relation |
| MiningLoop.MiningNode.Loop | src/main.cpp:98-147 | Whatever the clock shows and whatever is submitted in between, the loop is a run of the relation, and the file it leaves restores its last chain |
| Framing.CutLines | src/node.cpp:227-235 | The inner loop cuts off the complete non-empty lines and keeps the text after the last newline |
| Framing.ReceiveLoop | src/node.cpp:220-236 | The two nested loops, over any sequence of received chunks |
| Framing.LinesAppend | src/node.cpp:224-235 | More text only continues from the unfinished line |
| Framing.MessagesAreLines | src/node.cpp:227-233 | No message is empty or holds a newline |
| Framing.ChunkingIsIrrelevant | src/node.cpp:217-236 | However the stream is cut, the handler sees the same messages and the same rest stays behind |
| Framing.SentIsReceived | src/node.cpp:92-95 | Any list of non-empty messages without newlines is recovered, however the stream is cut |
| Nodes.DecodeEncode | src/node.cpp:241-322 | What one node sends is what the other decodes, for every kind of message |
| Nodes.AnyMessageKeepsInvariants | src/node.cpp:241-326 | Whatever arrives from whomever, chain, maps and pool stay consistent and no block is lost |
| Nodes.RelayedWithoutBeingPooledIff | src/node.cpp:246-256 | A valid transaction is relayed; the pool changes iff it is also admitted; the chain never changes |
| Nodes.RelayedWithoutBeingAddedIff | src/node.cpp:257-273 | A block is relayed without being added iff it is sealed on the tip and one of its transactions is turned away |
| Nodes.SyncKeepsInv | src/node.cpp:287-296 | Any sync response keeps the ledger invariant and all blocks |
| Relaying.TxGoesToEveryPeer | src/node.cpp:246-256 | A transaction that passes the gate is sent once to every peer, the sender included; any other is sent to nobody |
| Relaying.BlockGoesToEveryPeer | src/node.cpp:257-273 | A block goes once to every peer iff it continues from the tip and checking it does not throw |
| Relaying.RequestIsAnswered | src/node.cpp:274-286 | A sync request is answered to its own socket with the blocks from the asked position on, which decode as themselves |
| Relaying.OthersAreAllButOne | src/node.cpp:112-125 | The peer list for a socket holds the addresses of all peers but the one on it, in order |
| Relaying.ConnectionIsGreeted | src/node.cpp:70-78 | A connection keeps sockets distinct and all peers, asks from the own height, and tells the others' addresses |
| Nodes.Node.SendToAll | src/node.cpp:97-103 | One message to every peer, in order |
| Nodes.Node.AddPeer | src/node.cpp:70-78 | A socket is listed once, at the end |
| Nodes.Node.SendPeerList | src/node.cpp:112-125 | The addresses of all peers on other sockets, in order |
| Nodes.Node.Connect | src/node.cpp:210-215 | A new connection is listed and gets a sync request and the other peers' addresses |
| Nodes.Node.HandleMessage | src/node.cpp:241-326 | The new state and the messages sent are those of the handler function |
| Nodes.Node.HandleTxMessage | src/node.cpp:246-256 | A valid transaction is relayed, whether or not the pool admits it |
| Nodes.Node.HandleBlockMessage | src/node.cpp:257-273 | A block with a fitting header is offered to the chain, its transactions are dropped from the pool, and it is relayed |
| Nodes.Node.HandleSyncResponse | src/node.cpp:287-296 | Blocks are offered in order until one throws; the pool is not touched |
| Sync.OnlyTheNextBlockFits | src/blockchain.cpp:43-51 | On a prefix of a chain exactly the next block of that chain is taken; every other one is turned away |
| Sync.SliceExtends | src/node.cpp:287-296 | A slice that overlaps or touches the node's prefix brings it to the longer of the two |
| Sync.SliceBeyondTip | src/node.cpp:287-296 | A slice that starts beyond the tip changes nothing |
| Sync.SyncEndsAtBroken | src/node.cpp:287-296 | A block that does not decode ends the response |
| Sync.RejectedBlocksChangeNothing | src/node.cpp:287-296 | A response of rejected blocks changes nothing |
| Sync.ExchangeConverges | src/node.cpp:274-300 | After one exchange a node with any prefix, even none, of its peer's chain has that chain, UTXO map and hash index |
| Sync.ExchangeConvergesIff | src/node.cpp:274-300 | For a node that is empty or was built by `add_block`: an exchange ends in agreement iff its chain is a prefix of the peer's |
| Sync.FirstBlockIsRejected | src/node.cpp:105-110 | A node with at least one block rejects the first block of the answer |
| Sync.RepeatedExchangeChangesNothing | src/node.cpp:274-300 | Asking again changes nothing |
| Sync.HeightAsksIffBehind | src/node.cpp:301-312 | After a height message a node asks iff the peer has more blocks, but an empty node does not ask a peer with only a genesis block |
| Forks.ForkIsNeverHealed | src/blockchain.cpp:43-51 | Blocks of a chain with another hash at the node's height never change the node |
| Forks.ExchangeChangesIff | src/node.cpp:274-300 | An exchange changes the asking node iff the peer has a block at its next position and that block passes `add_block` |
| Forks.HashBindsChain | src/block.cpp:9-28 | Two chains with one hash at a position have the same hashes and hashed texts at every lower one, or the search finds two colliding texts |
| Forks.GenesisHashesDiffer | src/block.cpp:123-140 | Genesis blocks of different seconds have different hashes, or their texts collide |
| Forks.SeparateChainsStayApart | src/node.cpp:287-296 | Chains of any length from genesis blocks of different seconds take nothing from each other, or the search finds two colliding texts |
| Forks.SeparateStartsNeverConverge | src/main.cpp:154-155 | The same for an exchange between two such nodes |
| Forks.ExchangeTakesLast | src/node.cpp:274-300 | From a peer with one block more a node takes that block if it passes `add_block` |
| Forks.VariantTipTakesNextBlock | src/block.cpp:9-24 | A node whose latest block differs in its energy source alone takes the peer's next block and ends on a chain that neither had |
| Stale.ValidAfterBlocksIff | src/blockchain.cpp:98-119 | A valid transaction is still valid after any blocks iff none of them spends one of its inputs |
| Stale.FreshKeepsIds | src/mempool.cpp:7-32 | Fresh ids are ids that a valid transaction does not spend from |
| Stale.ValidAfterMessageIff | src/node.cpp:257-300 | The same after any message, for the blocks it added |
| Stale.PoolAfterMessage | src/node.cpp:246-296 | For every message: a block that fits by its header and does not throw takes exactly its own transactions out of the pool, a valid transaction is offered to it, and nothing else changes it |
| Stale.PoolAfterBlock | src/node.cpp:257-273 | For a block that a node sends: the pool loses its ids iff it is sealed on the tip and no check throws, else nothing |
| Stale.PoolAfterAcceptedBlock | src/node.cpp:257-273 | An accepted block with fresh ids leaves none of its transactions pooled, keeps the index faithful, and of the rest exactly that is still valid which shares no outpoint with it |
| Stale.DroppedUnconfirmedIff | src/node.cpp:257-267 | A pooled transaction is dropped without the chain taking the block iff the block has its id, is sealed on the tip, and has a transaction that is turned away |
| Stale.UnconfirmedIsDropped | src/node.cpp:257-267 | Such a block exists for every pooled transaction |
| Stale.SyncedStaysPooled | src/node.cpp:287-296 | A pooled transaction in a synced block stays pooled and is no longer spendable |
| Stale.SyncedTransactionStallsMining | src/main.cpp:234-271 | In that state every pass leaves chain and pool as they are, if the pool has at most 100 transactions |
| Stale.SuchABlockExists | src/blockchain.cpp:29-96 | For every valid transaction the chain takes a block that consists of it |
| Gossip.DeliverBlock | src/node.cpp:257-273 | A block of the producer's chain extends a node by one block and is relayed, or changes and sends nothing |
| Gossip.DeliverSync | src/node.cpp:287-300 | A response made from the producer's chain leaves the node on it, no shorter |
| Gossip.HandleKeepsFollowing | src/node.cpp:241-326 | Handling keeps a node on the chain and sends only blocks of the chain |
| Gossip.MinerIsComplete | src/node.cpp:257-300 | Nothing on the network changes the producer's chain |
| Gossip.EventKeepsInv | src/node.cpp:241-326 | Delivery, loss, duplication, mining, connecting and injected messages keep every node on the chain |
| Gossip.RunKeepsInv | src/node.cpp:241-326 | So does every run |
| Gossip.PrefixAgreement | src/node.cpp:257-300 | In every run every node holds a prefix of the producer's chain with its UTXO map and hash index |
| Gossip.SharedGenesisStart | src/blockchain.cpp:18-27 | Nodes with one genesis block and an idle network start such a run |
| Gossip.MinedIsAnnounced | src/main.cpp:262-268 | A mined block is on its way to every peer of the producer |
| Gossip.ConnectionAsks | src/node.cpp:210-215 | A node that has connected has a request for the peer's blocks on its way |
| Gossip.AnnouncementIsTaken | src/node.cpp:257-273 | A node that had the producer's chain has it again once the announcement is delivered |
| Quiescence.HandlingCosts | src/node.cpp:257-312 | Handling a message uses up more of the measure than it creates |
| Quiescence.DeliveryDecreases | src/node.cpp:257-312 | So every delivery lowers the measure of the whole network |
| Quiescence.GossipTerminates | src/node.cpp:257-312 | A run of deliveries and losses has at most as many events as the initial measure |
| Quiescence.RelayGrows | src/node.cpp:257-270 | A node relays a block only when it is the next one it lacks, and then has it |
| Quiescence.RelayedHeightsIncrease | src/node.cpp:359-364 | Later relays of a node are of greater heights: each height at most once |
| CatchUp.AnswerCatchesUp | src/node.cpp:274-300 | Over the network: whenever the answer to a node's own request is delivered, the node is then no shorter than the answering node was |
| CatchUp.ChainGrows | src/node.cpp:257-300 | Along every run the producer's chain only grows at its end |
| Divergences.EasyBlockIsSealed | src/blockchain.cpp:43-68 | A block that declares difficulty 0 fits on any tip |
| Divergences.EmptyBlockIsTaken | src/blockchain.cpp:70-95 | Every non-empty chain takes a block without transactions |
| Divergences.AnyRewardIsTaken | src/blockchain.cpp:81-84 | Every non-empty chain takes a block that pays its miner any positive amount |
| Divergences.ValidOneByOneIsTaken | src/blockchain.cpp:70-89 | Every non-empty chain takes a block of transactions that are valid one by one, shared inputs or not |
| Divergences.DoubleSpendIsTaken | src/blockchain.cpp:70-89 | So it takes a valid transaction twice in one block |
| Divergences.HollowBlockIsRelayed | src/node.cpp:257-273 | A block with a transaction without inputs is relayed by every node with a peer and added by none |
| Divergences.StalledPool | src/node.cpp:246-250 | On a chain built by `add_block` the payment with the wrapping need is submitted and is then the whole pool |
| Divergences.OnlyChoice | src/mempool.cpp:59-78 | From a pool of one transaction exactly that one is selected |
| Divergences.OversizedPaymentStallsMining | src/main.cpp:98-139 | In every run from there without further submissions, chain and pool stay as they are through the first year |
| Echo.EchoesForEver | src/node.cpp:246-256 | Two connected nodes that hold a transaction for valid have a run of any number of deliveries of it, and it is still on its way |

## Left out

- GossipTerminates: does not cover `tx` messages, because relaying them need not end (`Echo.EchoesForEver`): a valid transaction is relayed whether or not the pool admits it.
- Crypto.SignedByKeyVerifies: that a verifier accepts what the same key signed is a hypothesis about ML-DSA-65; proved is that the hexadecimal strings carry key and signature faithfully.
- Blockchains.Blockchain.SaveToDisk: the array that is written, because opening the file is input and output; a file that cannot be opened stays as it was.
- Consensus.MineBlock: the energy report is a parameter, because it is a measured time multiplied by 65 W in floating point.
- Retarget.AdjustDirection: like every result of `Retarget`, `RetargetRule` and `Miner.NextDifficultyIsBounded`, about exact rationals, because rounding is not what the rule is about.
- Nodes.Node.HandleMessage: a peer list has no effect, because connecting to its addresses is input and output.
- MiningLoop.MiningNode.Pass: the broadcast of `run_mode`, because it is a step of `Gossip`.
- Sockets, `select`, threads and locks, connecting to peers, dropping peers and parsing addresses: input and output; handlers are atomic steps and `peer_list` has no effect.
- The node's handler threads running beside the mining loop of `run_mode`: the loop is proved with submissions between its passes, not during one.
- The HTTP server, the explorer API, the web pages, scripts and the command line.
- OpenSSL: key generation, failing signatures and malformed keys (`verify` is any function that accepts what was signed), wallet files.
- JSON text: dumping and parsing are taken to be inverse. In trees, booleans, negative numbers and fractions do not occur, and a list given as an object throws where the code would visit its members.
- A missing member of a constant JSON object, undefined in the code, counts as an exception.
- Chain files other than those a node wrote are decoded but nothing is proved about them; an empty file makes `mine_mode` read a block that is not there.
- A transaction with 2^32 outputs or more, on which the 32-bit loop of `apply_block_to_utxo_set` would not end: its decoding counts as a failed allocation.
- That the hash determines all fields of a transaction or block: fields are printed without separators, so it does not.
- As results about `add_block`: no double spends inside one block, the value balance of a block, and that its declared difficulty is the retargeted one. It does not check them (`Divergences`); honest runs get them from the pool, the wallet and the loop.
- Agreement between competing miners: the chain is append-only and has no rule for it.
- The conversion of a double that does not fit a `uint32_t`, undefined in C++, gives a parameter.
- Energy estimation: the watt-seconds of a block are a parameter; the kilowatt-hours follow from them.
- `std::sort` is an insertion sort of which only the contract is used; the order of the hash maps is left open.
- Progress output and the getters `get_block`, `has_utxo`, `get_utxo`, `size`, `contains`, `get_peers`, `serialize_full`, `get_current_reward`.
