# Verified model of the CDX node

CDX is a Bitcoin-style full node. This project models its consensus core, its codecs and
storage, its peer stream, its miner and its wallet arithmetic in Dafny, and proves what
holds for every input, every run and every reachable state. `dafny verify dfyconfig.toml`
checks the whole project.

Double SHA-256, the script interpreter and the SHA-256 compression function are parameters:
every theorem holds for all of them. No hash is assumed injective; results that depend on
it say "equal, or here is a collision". Clocks, sockets, disks and key generation enter as
parameters (a timestamp, a list of reads, byte sequences, decoded change addresses).

| files | what they model |
|---|---|
| Types, Arith, Bytes, Positional, Order | entities, arithmetic, little-endian bytes, digit strings, key order |
| WireFormat, Serializer | the transaction, header and block formats; the buffer objects that write and read them |
| Uint256, Division, Compact | four-limb arithmetic, shift-subtract division, the compact target format, chain work, retargeting |
| Rewards, Merkle, Ledger | subsidies and supply, Merkle roots, validation as a transition on the coin set |
| Chain, Runs, Outcomes, Retarget, Witnesses, Blockchain, Sync | the chain state machine, its runs, what becomes of a block, how far a chain can grow, concrete runs, the mutable chain object, block exchange between nodes |
| Mempool, Provenance, Miner | the pool's two maps, where coins come from, the block template and the nonce search |
| Framing, Base58, Store, Disk, ChainState | message frames over a byte stream, base-58 text, the block files, the chain on top of them, the chainstate file |
| Genesis, Midstate, Workers | the genesis block, the genesis tool's precomputed hashing and its threads |
| Wallet | balances, coin selection, payments |

The pattern is the same throughout: a declarative or recursive specification, a method with
the source's loops and updates proved equal to it, and theorems about the specification.

What the proofs found where the code does less than its documentation or names suggest; in
each case the code is modelled as it is and the exact condition is a lemma:

- Recorded chain work is the work of the tip only while the tip is the saved one, because a
  reorganisation updates neither (`Runs.RecordedWorkExact`, `Witnesses.ReorgThenRestart`).
- A restart recovers the active chain only if no reorganisation came since the last
  extension and the files are within the loaders' caps; a valid chain can exceed them, and
  the node then starts from genesis (`Runs.RestartRecovers`, `Witnesses.LongScriptRun`).
- A reorganisation can only replace a suffix of the active chain by one block
  (`Runs.ReorgShape`).
- A block whose bytes exceed the message limit of 4 MiB is never delivered, although
  validation limits neither blocks nor scripts; a follower stays below it forever
  (`Sync.RoundsConverge`, `Witnesses.LargeBlockNeverArrives`).
- A configured genesis hash is not enforced: a block that fails its check is replaced by one
  found by searching for a nonce, with any hash; such a node never reorganises
  (`Blockchain.GenesisEnforcedIff`, `Witnesses.WrongGenesisStarts`,
  `Outcomes.WrongGenesisNeverReorganises`).
- At a retarget boundary the first block looked up lies one past the end of the height list.
  The model takes the read as finding nothing, as the bounds-checked lookup of the mining
  loop does; elapsed time then never counts, every retarget divides the target by 8064, and
  a mainnet chain that only grows ends below height 36,288 (`Runs.FirstTimeRead`,
  `Runs.EveryRetarget`, `Retarget.ChainEnds`).
- The work formula holds only for targets from 1 up to 2^255 - 1 (`Compact.WorkIsQuotient`).
- Adding to the pool does not detect double spends, although its comment says so
  (`Mempool.AddAgreesIff`).
- Base-58 decoding takes NUL for a digit, and the empty byte string does not survive
  (`Base58.EncodeDecode`, `Base58.DecodeEncode`).
- A block store that writes before it reads forgets what an earlier process stored
  (`Store.WriteKeepsIff`, `Store.RestartThenWriteForgets`).
- After a malformed message, or a read that starts like HTTP, what is delivered depends on
  how the bytes were cut (`Framing.CutIndependence`, `Framing.PiecesMatterAfterBad`).
- The genesis tool's progress file can lose the winner while a thread still holds it, and
  from then on until it is printed (`Workers.LostOnResume`, `Workers.ResumeCanMiss`); when
  the nonces are used up the tool never says so (`Workers.ExhaustedWaitsForever`); and its
  target test differs from the node's for exponents up to 3 (`Midstate.TargetTestAgrees`).

## Model

| member | source | states |
|---|---|---|
| `Ledger.CheckTransaction` | src/consensus/validation.cpp:14-47 | The sequential checks with a running, early-exit output sum accept exactly the declarative `WellFormed`, stated in numbers: 1 to 10,000 inputs and outputs, as many outpoints as inputs, values and sum within 2,100,000,000,000,000; the 64-bit sum never overflows. |
| `Ledger.CheckTxInputs` | src/consensus/validation.cpp:79-118 | Accepts exactly `InputsOk` (present, mature, signed, inputs cover outputs, sum in money range); the reported fee is inputs minus outputs; no overflow. |
| `Ledger.ComputeSignatureHash` | src/consensus/validation.cpp:49-77 | Clearing every signature script of a copy and setting one gives the digest `SignatureHash`. |
| `Ledger.SignedBytes` | src/consensus/validation.cpp:49-77 | What is hashed: the bytes of the transaction that differs only in its signature scripts, the spent script at this input and empty elsewhere, followed by 01 00 00 00. |
| `Ledger.SignatureBinding` | src/consensus/validation.cpp:49-77 | Two inputs with one digest agree on version, lock time, outputs, prevouts, sequences and spent script, and on their position unless that script is empty; or here is a collision. |
| `Ledger.EmptyScriptsShareDigest` | src/consensus/validation.cpp:49-77 | With an empty spent script all inputs of a transaction share one digest: the position is covered only by a nonempty script. |
| `Ledger.CoinbaseMatures` | src/utxo/utxo-set.h:22-25 | A coinbase coin of height h is spent at height h + 120 at the earliest. |
| `Ledger.CoinAfter` | src/consensus/validation.cpp:206-223 | Coin by coin: after a transaction its outputs are there with the height of the block, what it spent is gone, and all else is as it was. |
| `Ledger.SpendAndAdd` | src/consensus/validation.cpp:206-223 | The spend and add loops of a checked transaction compute `ApplyTx`; the double-spend error cannot occur. |
| `Ledger.CheckTransactions` | src/consensus/validation.cpp:198-224 | The transaction loop of block validation equals the sequential fold `ConnectTxs`, rejection included; accumulated fees stay in 64 bits. |
| `Ledger.CheckBlock` | src/consensus/validation.cpp:170-247 | The whole block check equals `ConnectBlock`: structure, root, sequential transactions, coinbase limit, merged coinbase coin. |
| `Ledger.ConnectBlockIff` | src/consensus/validation.cpp:170-247 | A block connects if and only if it keeps every rule: 1 to 10,000 transactions, the Merkle tree of their ids, all well formed, only the first a coinbase, each spending valid coins of the view its predecessors left, the coinbase within subsidy and fees. |
| `Ledger.CoinbaseCoinAfter` | src/consensus/validation.cpp:225-247 | The coinbase becomes one coin under its first output, worth the sum of its outputs, marked and locked: spending it before 120 more blocks fails. |
| `Ledger.SumOutputs` | src/consensus/validation.cpp:231-232 | The coinbase value loop is the sum of the outputs, without overflow. |
| `Ledger.TotalValue` | src/utxo/utxo-set.h:50-54 | The loop over the coin map is the order-independent total `Total`, without overflow under the money cap. |
| `Ledger.TotalWithout` | src/utxo/utxo-set.h:50-54 | The total does not depend on iteration order: any coin can be taken out first. |
| `Ledger.SpendTotal` | src/consensus/validation.cpp:206-212 | Spending distinct present coins lowers the total by exactly their sum. |
| `Ledger.TxConservation` | src/consensus/validation.cpp:206-223 | One transaction: new total plus the value of overwritten coins equals old total minus the fee. |
| `Ledger.TxsConservation` | src/consensus/validation.cpp:198-224 | The same over all transactions of a block, with nonnegative fees and nonnegative overwritten value. |
| `Ledger.BlockConservation` | src/consensus/validation.cpp:170-247 | One block: new total plus overwritten value equals old total plus the coinbase claim minus fees, and the claim is at most subsidy plus fees. |
| `Ledger.SupplyStep` | src/consensus/validation.cpp:170-247 | The supply bound is inductive, and a block raises the total by exactly its subsidy if and only if it overwrites no value and claims all it may. |
| `Ledger.FeesBounded` | src/consensus/validation.cpp:198-224 | The fees of a block never exceed the money in the view. |
| `Rewards.SubsidySchedule` | src/consensus/rewards.cpp:5-9 | The schedule in numbers: 5,000,000,000 base units shifted right once per 210,000 blocks below height 13,440,000, and nothing from there on. |
| `Rewards.FinalSupply` | src/consensus/rewards.cpp:15-29 | The subsidies add up to 2,099,999,997,690,000 base units, reached at height 6,930,000 and not before. |
| `Rewards.EpochSumExact` | src/consensus/rewards.cpp:5-9 | What rounding costs exactly: the epochs fall short of the geometric bound by the ones in the binary form of the rewards. |
| `Rewards.SupplyCap` | src/consensus/rewards.cpp:5-29 | The block-by-block sum of subsidies never exceeds 21,000,000 coins, at any height. |
| `Rewards.SupplyMonotone` | src/consensus/rewards.cpp:15-29 | Cumulative supply never decreases with height. |
| `Rewards.NoSubsidyAfter` | src/consensus/rewards.cpp:5-9 | Once a subsidy is zero the supply is final. |
| `Rewards.GetCumulativeSupplyAt` | src/consensus/rewards.cpp:15-29 | The epoch-jumping loop equals the block-by-block sum, for every height, negative heights included, without overflow. |
| `Merkle.ComputeMerkleRoot` | src/blockchain/merkle.cpp:7-27 | The level loop computes the root of the top-down tree whose nodes are the hash of the left child's 32 bytes followed by the right child's; the empty list gives zero. |
| `Merkle.RootIsTree` | src/blockchain/merkle.cpp:7-27 | The level-by-level root equals the root of the tree of least depth that repeats the last subtree, each node written out as the hash of left bytes then right bytes. |
| `Merkle.RootBinding` | src/blockchain/merkle.cpp:7-27 | Two leaf lists of equal length with equal roots are equal, or the lemma returns an explicit hash collision. |
| `Merkle.RepeatedLeafKeepsRoot` | src/blockchain/merkle.cpp:7-27 | For odd length above one, appending a copy of the last leaf leaves the root unchanged: equal length is needed. |
| `WireFormat.SerTxInjective` | src/transaction/serializer.cpp:8-25 | No two transactions serialize alike, whatever their size. |
| `Merkle.BlockHashBinding` | src/transaction/serializer.cpp:71-105 | Two different blocks of any size with equal header hashes, matching roots and as many transactions exhibit a collision. |
| `WireFormat.TxRoundTrip` | src/transaction/serializer.cpp:8-60 | A serialized transaction followed by any suffix is read back whole and consumes exactly its bytes if and only if its counts are within the caps. |
| `WireFormat.HeaderRoundTrip` | src/transaction/serializer.cpp:71-93 | A serialized header followed by any suffix is read back. |
| `WireFormat.HeaderLayout` | src/transaction/serializer.cpp:71-80 | The 80 bytes of a header: version at 0, parent at 4, root at 36, time at 68, bits at 72, nonce at 76, each little-endian. |
| `WireFormat.VarIntForms` | src/crypto/encoding.cpp:122-140 | The four forms of a length, byte by byte. |
| `WireFormat.BlockRoundTrip` | src/transaction/serializer.cpp:95-123 | A serialized block followed by any suffix is read back if and only if all its counts are within the caps. |
| `WireFormat.ReadTxLength` | src/transaction/serializer.cpp:27-60 | Re-serializing what was read never takes more bytes than reading consumed, and takes as many exactly when the bytes were canonical: what block reading advances by. |
| `WireFormat.ReadTxFits` | src/transaction/serializer.cpp:27-60 | Whatever is read can be serialized again. |
| `Serializer.SerializeTransaction` | src/transaction/serializer.cpp:8-25 | The appending loops write exactly the format `SerTx`. |
| `Serializer.SerializeBlockHeader` | src/transaction/serializer.cpp:71-80 | Writes exactly the 80-byte header format. |
| `Serializer.SerializeBlock` | src/transaction/serializer.cpp:95-105 | Writes exactly the block format. |
| `Serializer.DeserializeTransaction` | src/transaction/serializer.cpp:27-60 | The position-tracking loops read exactly what `ReadTx` says, failures included. |
| `Serializer.DeserializeBlockHeader` | src/transaction/serializer.cpp:82-93 | Reads exactly what `ReadHeader` says. |
| `Serializer.DeserializeBlock` | src/transaction/serializer.cpp:107-123 | Reads exactly what `ReadBlock` says, advancing by re-serialized lengths. |
| `Serializer.Writer.WriteVarInt` | src/transaction/serializer.h:36-41 | Appends the shortest of the four varint forms. |
| `Serializer.Writer.WriteVarStr` | src/transaction/serializer.h:42-45 | Appends length and bytes. |
| `Serializer.Reader.ReadVarInt` | src/transaction/serializer.h:91-98 | Succeeds exactly when enough bytes remain, with the decoded value and position. |
| `Serializer.Reader.ReadVarStr` | src/transaction/serializer.h:99-105 | Fails exactly when the announced length exceeds what remains. |
| `Serializer.Reader.ReadInputs` | src/transaction/serializer.cpp:32-44 | The input loop equals the recursive reader, stopping at the first failure. |
| `Serializer.Reader.ReadOutputs` | src/transaction/serializer.cpp:45-57 | The output loop equals the recursive reader, stopping at the first failure. |
| `Uint256.LessThan` | src/crypto/uint256.h:36-41 | The top-down limb comparison is the order of the numbers. |
| `Uint256.Add` | src/crypto/uint256.h:104-113 | Limb addition with carry is addition modulo 2^256. |
| `Uint256.Sub` | src/crypto/uint256.h:116-125 | Limb subtraction with borrow is subtraction modulo 2^256. |
| `Uint256.Mul64` | src/crypto/uint256.h:129-140 | Limb multiplication by a 64-bit word is the product modulo 2^256. |
| `Uint256.Div64` | src/crypto/uint256.h:141-153 | Limb division by a nonzero 64-bit word gives quotient and remainder. |
| `Uint256.ShiftLeft` | src/crypto/uint256.h:72-85 | The word-and-bit shift is multiplication by a power of two modulo 2^256, for every shift count. |
| `Uint256.ShiftRight` | src/crypto/uint256.h:86-99 | The word-and-bit shift is division by a power of two, for every shift count. |
| `Uint256.BitTest` | src/crypto/uint256.h:173-175 | Tests the bit of the number. |
| `Uint256.SetBit` | src/crypto/uint256.h:176-179 | Adds the power of two when the bit was clear. |
| `Division.Div` | src/crypto/uint256.h:154-170 | Shift-subtract division equals floor division for every nonzero divisor; no bit is lost. |
| `Division.Pow2Div` | src/crypto/uint256.h:249-265 | The 2^256 / d loop for every d: the exact quotient for 2 <= d <= 2^255, and what it gives outside that range. |
| `Division.ChainWorkOfTarget` | src/crypto/uint256.h:242-248 | The word-level work equals the value-level one for every target. |
| `Division.HighestBit` | src/crypto/uint256.h:180-188 | Finds the highest set bit, or -1. |
| `Division.SetCompact` | src/crypto/uint256.cpp:27-39 | The word-level decoder equals the value-level one for every 32-bit input. |
| `Division.GetCompact` | src/crypto/uint256.cpp:6-25 | The word-level encoder equals the value-level one for every 256-bit number. |
| `Compact.RoundTrip` | src/crypto/uint256.cpp:6-39 | Decoding an encoding clears low bytes down to 23 leading bits, for every 256-bit number. |
| `Compact.GreatestLowerBound` | src/crypto/uint256.cpp:6-39 | Decoding the encoding of t is the largest number any compact value denotes that is not above t. |
| `Compact.RoundingMonotone` | src/crypto/uint256.cpp:6-39 | The rounding is monotone. |
| `Compact.RoundingLoss` | src/crypto/uint256.cpp:6-39 | The rounding loses less than one part in 2^15. |
| `Compact.EncodingStable` | src/crypto/uint256.cpp:6-39 | Encoding is stable on rounded numbers. |
| `Compact.WorkIsQuotient` | src/crypto/uint256.h:242-248 | The work of a target is floor(2^256 / (t + 1)) if and only if 1 <= t < 2^255. |
| `Compact.WorkAntitone` | src/consensus/chainwork.cpp:6-12 | A larger target never counts as more work, over all targets. |
| `Compact.RetargetBound` | src/consensus/difficulty.cpp:17-44 | On mainnet and testnet parameters, for any times: the product is not truncated, the new target is at most four times the old and at most the maximum, and at least the rounding of an 8064th of the old. |
| `Compact.RetargetExact` | src/consensus/difficulty.cpp:17-44 | The retarget in numbers: elapsed time held between 150 seconds and eight weeks, times the target, over 1,209,600, limited and rounded to the format; off a boundary of 2016 blocks the target stays. |
| `Compact.RetargetMonotone` | src/consensus/difficulty.cpp:17-44 | A longer elapsed time never gives a harder target. |
| `Compact.NoTimeElapsed` | src/consensus/difficulty.cpp:17-44 | With no elapsed time the next target is the rounding of an 8064th of the old one; above the maximum, what 256 bits keep of 150 times it over two weeks, limited to the maximum. |
| `Chain.TryAcceptKeepsInv` | src/blockchain/reorg.cpp:20-116 | Every outcome of block delivery keeps the invariant: index consistent, active chain linked and equal to its own replay, saved chain likewise. |
| `Chain.ExtensionKeepsInv` | src/blockchain/blockchain.cpp:183-247 | Extension keeps the invariant. |
| `Chain.ReorgKeepsInv` | src/blockchain/reorg.cpp:51-116 | Reorganisation by replay keeps the invariant. |
| `Chain.RestartKeepsInv` | src/blockchain/blockchain.cpp:21-53 | A restart keeps the invariant; it restores the saved chainstate and the recorded work when the files load, and starts over from genesis when they do not. |
| `Chain.RestoredKeepsInv` | src/blockchain/blockchain.cpp:26-49 | The state rebuilt from the saved chainstate satisfies the invariant with the same recorded work. |
| `Chain.RebuiltIndex` | src/blockchain/blockchain.cpp:30-45 | The index rebuilt from the saved chain is the old index restricted to that chain, work included. |
| `Chain.ForkPoint` | src/blockchain/reorg.cpp:60-73 | A replayable fork base with an indexed parent is on the active chain at that height. |
| `Runs.RunInv` | src/blockchain/reorg.cpp:20-116 | The invariant holds after every run of deliveries and restarts from genesis, restarts that cannot load their files included: the view always equals the replay of the active chain. |
| `Runs.IndexDescribes` | src/blockchain/blockchain.cpp:167-181 | In every reachable state each index entry holds the hash, parent, bits, time and root of its stored block, and only genesis is marked as such. |
| `Runs.SupplyCapOverRuns` | src/consensus/validation.cpp:170-247 | In every reachable state all coins are in the money range and together never exceed the subsidies up to the tip, nor 2,099,999,997,690,000 base units. |
| `Runs.TimesIncrease` | src/consensus/validation.cpp:138-168 | Timestamps strictly increase along the active chain of every reachable state. |
| `Runs.RejectionIsAtomic` | src/blockchain/reorg.cpp:20-116 | A block that is not accepted changes nothing. |
| `Runs.ReorgShape` | src/blockchain/reorg.cpp:51-116 | A reorganisation succeeds only onto a block whose parent is a strict ancestor of the tip on the active chain and whose work exceeds the recorded work; it never lengthens the chain and leaves recorded work and saved state alone. |
| `Runs.RunNearSaved` | src/blockchain/reorg.cpp:99-105 | In every reachable state the active chain differs from the saved one at most by truncation and its last block. |
| `Runs.WorkSandwich` | src/blockchain/reorg.cpp:51-105 | While no sum wraps, recorded work lies between the work of the tip's parent and of the tip, in every reachable state. |
| `Runs.RecordedWorkMonotone` | src/blockchain/reorg.cpp:51-105 | While no sum wraps, a step leaves or raises the recorded work if and only if it is not a restart whose files are over the loaders' caps, or only genesis was recorded. |
| `Runs.RecordedWorkExact` | src/blockchain/reorg.cpp:98-105 | In every reachable state the recorded work is the work of the tip if and only if the tip is the saved one. |
| `Runs.RestartRecovers` | src/blockchain/blockchain.cpp:21-53 | A restart restores view, height, tip and heights of the active chain if and only if the saved tip is the tip and the files are within the loaders' caps, or there is only genesis; it indexes nothing new, and over the caps it is the genesis state. |
| `Runs.LongScriptIsNotReloaded` | src/storage/blocks.cpp:237-239 | After any extension whose coinbase pays a script over 100,000 bytes the saved tip is the tip, and a restart is back at genesis. |
| `Runs.RunKeepsGenesis` | src/blockchain/reorg.cpp:26-30 | The genesis block stays stored and indexed in every run. |
| `Runs.FirstTimeRead` | src/blockchain/blockchain.cpp:206-214 | The time of an interval's first block is read if and only if the next block is not that block and the interval is not the first: never at a boundary. |
| `Runs.NextBits` | src/blockchain/blockchain.cpp:206-221 | The bits demanded on top of the tip: the tip's within an interval, and at a boundary the retarget for no elapsed time, whatever the times were. |
| `Runs.EveryRetarget` | src/blockchain/blockchain.cpp:206-221 | On mainnet and testnet, every retarget of every run is the one for no elapsed time: it divides the target by 8064, or from above the maximum gives the limited remainder. |
| `Retarget.ChainEnds` | src/blockchain/blockchain.cpp:206-221 | On mainnet and testnet, a node that never reorganises, whatever arrives and however often it restarts, never gets past 18 intervals of 2016 blocks (19 if the genesis target is above the maximum), because the next target would be 0. |
| `Retarget.RunLimited` | src/blockchain/blockchain.cpp:206-221 | In every such run the target of the tip is at most the maximum divided by 8064 once per interval. |
| `Retarget.NextLimited` | src/consensus/difficulty.cpp:17-44 | A retarget keeps that bound for the next height, for any bits and times. |
| `Witnesses.ReorgThenRestart` | src/blockchain/reorg.cpp:51-116 | A concrete run in which a reorganisation succeeds: recorded work falls behind the tip, and a restart goes back to the replaced block and forgets the new one. |
| `Witnesses.LongScriptRun` | src/storage/blocks.cpp:237-239 | A concrete valid chain with a 100,001-byte script: the bytes it saves do not load, and the restart is at height 0. |
| `Witnesses.LargeBlockNeverArrives` | bin/cdxd.cpp:257-281 | A concrete valid one-block chain whose block is over 4 MiB: no number of rounds moves a follower off genesis. |
| `Witnesses.WrongGenesisStarts` | src/blockchain/blockchain.cpp:67-81 | A concrete node configured for one genesis hash that starts from another. |
| `Runs.ExtensionIsSaved` | src/blockchain/blockchain.cpp:228-247 | After an accepted extension the saved tip is the tip, so a restart recovers it. |
| `Blockchain.ChainManager.constructor` | src/blockchain/blockchain.cpp:83-110 | A chain object on a valid genesis block starts in the genesis state and satisfies the invariant. |
| `Blockchain.ChainManager.ApplyGenesis` | src/blockchain/blockchain.cpp:55-111 | Succeeds exactly when the configured or re-mined genesis block is valid. |
| `Blockchain.GenesisEnforcedIff` | src/blockchain/blockchain.cpp:67-81 | A configured genesis hash is not enforced: the chain starts from it if and only if the block as configured has it with enough work, or the first nonce that meets the target does. |
| `Genesis.GenesisConnects` | src/blockchain/genesis.cpp:12-50 | The genesis block of every network connects at height 0, for every hash function and nonce. |
| `Genesis.GenesisStarts` | src/blockchain/blockchain.cpp:55-110 | A node starts whenever its configured nonce passes or some nonce meets the target. |
| `Genesis.BuildGenesisHeader` | tools/mine_genesis.cpp:217-256 | The byte-by-byte construction in the mining tool gives the stated 80 bytes. |
| `Genesis.ToolWritesCoinbase` | tools/mine_genesis.cpp:218-236 | The coinbase bytes the tool writes are the node's serialization of the genesis coinbase. |
| `Genesis.ToolMinesGenesis` | tools/mine_genesis.cpp:217-256 | With the node's hash, the tool's header is the serialization of the node's genesis header with nonce 0. |
| `Blockchain.MineGenesis` | src/blockchain/blockchain.cpp:63-81 | The nonce loop uses the candidate if its header passes, otherwise the first nonce that meets the target. |
| `Blockchain.FirstNonce` | src/blockchain/blockchain.cpp:69-80 | The nonce found meets the target; none found means none below 2^32 - 1 does. |
| `Blockchain.ChainManager.GetBlockByHeight` | src/blockchain/blockchain.cpp:117-120 | Every height up to the tip is found, and none above. |
| `Blockchain.ChainManager.AcceptBlock` | src/blockchain/blockchain.cpp:183-247 | The field updates equal the transition `AcceptBlock` and keep the invariant; a failure leaves every field. |
| `Blockchain.ChainManager.CollectFork` | src/blockchain/reorg.cpp:60-73 | The loop collects the active chain up to the fork point and the new block. |
| `Blockchain.ChainManager.Revalidate` | src/blockchain/reorg.cpp:75-96 | Header and block checks from genesis on a fresh view equal `HeadersOk` and `Replay`. |
| `Blockchain.ChainManager.TryAcceptBlock` | src/blockchain/reorg.cpp:20-116 | The method computes the transition `TryAccept`, outcome included, and keeps the invariant. |
| `Blockchain.ChainManager.Reload` | src/blockchain/blockchain.cpp:21-53 | The rebuild loop, or the fall back to genesis, computes `Restarted`. |
| `Blockchain.ChainManager.StartOver` | src/blockchain/blockchain.cpp:83-110 | Applying genesis to an object that holds something else leaves exactly the genesis state. |
| `Sync.FollowerIsPrefix` | bin/cdxd.cpp:304-332 | Under any order, repetition or loss of another node's blocks, the follower's whole state is that node's state at an earlier height, which the schedule determines. |
| `Sync.FollowerChainAndView` | bin/cdxd.cpp:304-332 | In particular the follower's chain is a prefix and its view is the other node's at that height. |
| `Sync.DeliverOne` | src/blockchain/reorg.cpp:26-49 | A block of the history, delivered to a follower with the first p of them, extends it if it is the next one, is already known if it is an earlier one, and is an orphan if it is a later one; only the first changes anything. |
| `Sync.HonestPeerKeepsScore` | bin/cdxd.cpp:304-364 | For every order, repetition and loss, a node that sends blocks of its own chain keeps score 0. |
| `Sync.HonestPeerIsAsked` | bin/cdxd.cpp:324-360 | Each block it sends makes the follower ask for headers if and only if it comes too early, or is the next one and the peer announced more. |
| `Outcomes.OutcomeIff` | src/blockchain/reorg.cpp:21-124 | In every consistent state each of the seven outcomes of a delivered block, if and only if a condition on its hash, parent, work and validity; a fork block is checked like an extension except for its bits, and needs a valid genesis header. |
| `Outcomes.WrongGenesisNeverReorganises` | src/blockchain/reorg.cpp:78-92 | A node whose genesis block fails the header check never reorganises, in any run. |
| `Sync.NoReorgIsHistory` | src/blockchain/reorg.cpp:26-49 | A run without reorganisation is the history of its connected blocks; everything else left no trace. |
| `Sync.RoundAdvances` | bin/cdxd.cpp:366-438 | One headers, getdata and blocks round takes a follower from height j to j + 100, to the first block whose payload no message can carry, or to the end, whichever is nearest. |
| `Sync.GrownAlong` | bin/cdxd.cpp:257-281 | Receiving what is sent of consecutive blocks moves the follower exactly up to the first block that is not sent; later ones change nothing. |
| `Sync.RoundsReach` | bin/cdxd.cpp:366-438 | After k rounds the follower is the other node as it was at height j + 100k, or at the first block no message can carry. |
| `Sync.RoundsConverge` | bin/cdxd.cpp:366-438 | k rounds make the follower equal to the other node, index and all, if and only if 100k covers the distance and every missing block fits a message. |
| `Sync.BuildLocator` | bin/cdxd.cpp:219-226 | The locator loop: from the tip down, every second hash after ten, at most 32. |
| `Sync.FindStart` | bin/cdxd.cpp:377-384 | The first known locator hash decides the start height. |
| `Sync.LocatorHeights` | bin/cdxd.cpp:219-226 | A locator holds exactly the hashes 0 to 10, 12, 14 and so on up to 52 blocks below the tip, as far as the chain goes. |
| `Sync.ForkedStart` | bin/cdxd.cpp:374-384 | A follower on a fork is answered from right after the fork, from one block earlier where the locator skips it, or from genesis when the fork is deeper than 52 blocks. |
| `Sync.ForkedHistories` | bin/cdxd.cpp:374-384 | The same for any two chains grown from one genesis that part after p blocks. |
| `Sync.GetHeadersAnswer` | bin/cdxd.cpp:374-393 | The answer by position: consecutive headers of the active chain, at most 2000, ended early only by the stop hash, the tip or a missing block. |
| `Sync.HandleGetHeaders` | bin/cdxd.cpp:366-395 | Answers with the headers from the start height, up to 2000 or the stop hash. |
| `Sync.HandleHeaders` | bin/cdxd.cpp:397-420 | Requests exactly the first 100 unknown blocks and knows whether any was missing. |
| `Sync.WantedSnoc` | bin/cdxd.cpp:410-420 | Header by header: an unknown block is asked for while fewer than the limit have been, whatever known ones lie between. |
| `Sync.WantedAnswer` | bin/cdxd.cpp:410-420 | At most 100 blocks are asked for, all announced and unknown, and all of those when they are fewer. |
| `Sync.Collect` | bin/cdxd.cpp:265-278 | Collects the pooled transactions and the stored blocks among those asked for, each in order. |
| `Sync.HandleGetData` | bin/cdxd.cpp:257-281 | What reaches the peer: of those, in order, exactly the ones whose payload fits a message; the rest are left out silently. |
| `Sync.GetDataAnswer` | bin/cdxd.cpp:257-281 | By membership: exactly the pooled transactions and stored blocks asked for that take at most 4,194,304 bytes reach the peer. |
| `Sync.BlocksArrive` | src/p2p/protocol.cpp:50-72 | Blocks end to end: framed, sent on a new connection and cut in any way, exactly those that fit a message arrive, in order, and read back whole. |
| `Sync.HandleBlock` | bin/cdxd.cpp:304-364 | Takes the chain step; an accepted block leaves in the pool exactly what is still spendable, is relayed, and asks for headers while the peer is ahead; an orphan asks for headers; other rejections cost the peer 10. |
| `Sync.HandleBlocks` | bin/cdxd.cpp:304-364 | Handling arriving blocks one by one folds `TryAccept` over them, adds up what they cost the peer, and asks for headers exactly where stated. |
| `Mempool.RunAgrees` | src/mempool/mempool.cpp:7-95 | After every run of pool operations the spent map is exactly the map from each input of each pooled transaction to its id. |
| `Mempool.PooledInputsDisjoint` | src/mempool/mempool.cpp:7-45 | No two pooled transactions share an input. |
| `Mempool.AddAgreesIff` | src/mempool/mempool.cpp:7-20 | Adding an unpooled transaction keeps the maps in agreement if and only if it is well formed, no coinbase and spends nothing a pooled one spends: the check the function leaves to its callers. |
| `Mempool.SubmitAgrees` | src/mempool/mempool.cpp:7-45 | Check-then-add keeps agreement. |
| `Mempool.SubmitIff` | src/mempool/mempool.cpp:22-45 | A transaction not yet pooled is taken if and only if it is well formed, spends valid coins with a fee of at least 100, and shares no input with a pooled one; nothing else changes. |
| `Mempool.RunAdmits` | src/mempool/mempool.cpp:7-45 | In every run each pooled entry comes from a submission that was valid against its view, with the fee, time, height and size recorded. |
| `Mempool.RemoveAgrees` | src/mempool/mempool.cpp:47-55 | Removal keeps agreement and frees exactly the removed transaction's inputs. |
| `Mempool.RemoveConflictsExact` | src/mempool/mempool.cpp:57-64 | Conflict removal keeps precisely the transactions that spend none of the inputs. |
| `Mempool.TxMemPool.constructor` | src/mempool/mempool.h:25-44 | A new pool is empty and in agreement. |
| `Mempool.TxMemPool.AddUnchecked` | src/mempool/mempool.cpp:7-20 | The two maps afterwards are exactly those of `Add`, in agreement or not. |
| `Mempool.TxMemPool.CheckTx` | src/mempool/mempool.cpp:22-45 | Accepts exactly `Acceptable`, with the fee. |
| `Mempool.TxMemPool.Accept` | src/rpc/methods.cpp:199-215 | Check then add equals `Submit`. |
| `Mempool.TxMemPool.RemoveTx` | src/mempool/mempool.cpp:47-55 | The erase loop removes the entry and exactly its own spent records. |
| `Mempool.TxMemPool.RemoveConflicts` | src/mempool/mempool.cpp:57-64 | Evicting input by input equals `WithoutConflicts`. |
| `Mempool.TxMemPool.RemoveSpent` | src/mempool/mempool.cpp:79-95 | Keeps precisely the transactions whose inputs are all present and spendable, unchanged, and reports the removed ones. |
| `Mempool.PurgeKeepsValid` | src/mempool/mempool.cpp:79-95 | A purge removes no transaction a block could still take; it keeps one exactly while its coins exist and are not coinbases younger than 120 blocks, and what it does not look at are signatures and amounts. |
| `Miner.TemplateIsValid` | src/mining/miner.cpp:20-108 | Template completeness: transactions checked all against one view pass sequential block validation, with exactly the fees the miner adds up, and the coinbase claims all it may, within the money range. |
| `Miner.SelectionConnects` | src/mining/miner.cpp:78-90 | The selected transactions connect in sequence with the fees computed against the unchanged view. |
| `Miner.ClaimInRange` | src/mining/miner.cpp:74-95 | The 64-bit fee sum and claim never overflow, whatever the pool and the view. |
| `Miner.ClaimIsMoney` | src/mining/miner.cpp:74-95 | Subsidy plus selected fees is within the money range, from the supply bound. |
| `Miner.GetTxs` | src/mempool/mempool.cpp:66-71 | Pool iteration is in ascending id order, an order the pool alone determines. |
| `Miner.Choose` | src/mining/miner.cpp:77-91 | The selection loop, left at the limit, computes `Select` and its fees. |
| `Miner.SelectTakesFirst` | src/mining/miner.cpp:77-91 | `Select` by membership and order: an id is taken if and only if its transaction is valid against the view and fewer than 500 valid ids lie below it. |
| `Miner.BuildCoinbase` | src/mining/miner.cpp:36-72 | The coinbase of a template: null input, height push, extra nonce, tag, one output. |
| `Miner.PushDecodes` | src/mining/miner.cpp:45-62 | The height push reads back as the height, with a clear sign bit. |
| `Miner.CreateCandidateBlock` | src/mining/miner.cpp:28-112 | After the coinbase the block holds, in ascending id order, exactly the valid pooled transactions with fewer than 500 valid ones below them; the coinbase pays subsidy plus their fees to the given script; the header has the given parent, time and bits, and the matching root. |
| `Miner.PushHeight` | src/mining/miner.cpp:45-61 | The byte-stripping loop gives the unique shortest little-endian push with a clear sign bit. |
| `Miner.Width` | src/mining/miner.cpp:45-61 | The push width is the least that holds twice the height. |
| `Miner.CoinbaseDistinct` | src/mining/miner.cpp:37-95 | Coinbases of different heights never serialize alike, whatever they pay and to whom. |
| `Miner.PatchNonce` | bin/cdxd.cpp:564-570 | Overwriting bytes 76 to 79 of a serialized header sets the nonce and nothing else. |
| `Miner.AttemptIs` | bin/cdxd.cpp:560-588 | What is tried: nonces in order from 0, one second later after every 2^32 of them, nothing else changed. |
| `Miner.Mine` | bin/cdxd.cpp:560-588 | The search over the 80-byte buffer finds the first attempt that meets the target, time rolling over after each 2^32 nonces. |
| `Miner.MinedBlockExtends` | bin/cdxd.cpp:538-593 | In any state satisfying the chain invariant, a mined template extends the chain if and only if its time is later than the tip's, it meets a nonzero target, and it is not already known. |
| `Miner.EveryRunMines` | bin/cdxd.cpp:538-593 | The same over joint runs of chain and pool, whatever blocks, restarts and pool operations came before; or the lemma returns a collision of the hash. |
| `Miner.TracedOrCollision` | src/utxo/utxo-set.h:40 | A coin a pooled transaction spends and another would overwrite is that other's own output, or there is a collision. |
| `Provenance.RunPaid` | src/consensus/validation.cpp:213-244 | In every reachable state every coin was paid by a transaction with the id it is filed under. |
| `Provenance.EchoesOrCollision` | src/consensus/validation.cpp:213-244 | A coin filed under an ordinary transaction's id has the value and script of its output, or there is a collision. |
| `Base58.EncodeBase58` | src/crypto/encoding.cpp:16-46 | The in-place division loop with shrinking start terminates and equals change of base with leading zeros kept. |
| `Base58.DivideRow` | src/crypto/encoding.cpp:27-34 | One in-place pass divides the big-endian number by 58, returns the remainder and the first nonzero position. |
| `Base58.DecodeBase58` | src/crypto/encoding.cpp:58-84 | The carry loops equal change of base, and fail exactly on a character the search does not find. |
| `Base58.MultiplyAdd` | src/crypto/encoding.cpp:64-73 | One character multiplies the little-endian number by 58 and adds, keeping it free of leading zeros. |
| `Base58.Index` | src/crypto/encoding.cpp:10-14 | The search finds exactly the 58 letters, at their positions, and the terminating NUL as 58. |
| `Base58.AlphabetText` | src/crypto/encoding.cpp:8 | The alphabet is the 58 letters in order. |
| `Base58.DecodeEncode` | src/crypto/encoding.cpp:16-84 | Decode after encode is the identity if and only if the byte string is not empty. |
| `Base58.EncodeDecode` | src/crypto/encoding.cpp:16-84 | Encode after decode is the identity if and only if the text is not empty and holds no NUL. |
| `Base58.NulIsRead` | src/crypto/encoding.cpp:10-14 | A text of one NUL decodes to a byte that encodes differently. |
| `Base58.CheckRoundTrip` | src/crypto/encoding.cpp:48-95 | Every byte string survives Base58Check. |
| `Base58.CheckCanonical` | src/crypto/encoding.cpp:48-95 | A text that decodes is the encoding of its payload if and only if it holds no NUL. |
| `Base58.AddressRoundTrip` | src/wallet/address.cpp:15-33 | An address decodes to its version and hash and, NUL aside, no other text does. |
| `Base58.WifRoundTrip` | src/wallet/address.cpp:40-59 | A key text decodes to its key; a text that decodes to a key is that key's text if and only if its flag byte is 1 and it holds no NUL. |
| `Framing.FrameRoundTrip` | src/p2p/protocol.cpp:50-91 | A built frame followed by anything parses back to its message, consuming exactly the frame, if and only if the command is known. |
| `Framing.FrameLayout` | src/p2p/protocol.cpp:50-72 | The bytes of a frame: magic at 0, command padded with zeros at 4, length at 16, the first four bytes of the double hash at 20, payload at 24. |
| `Framing.KnownWords` | src/p2p/protocol.h:85-92 | The thirteen commands a node knows and the seven request words it takes for HTTP. |
| `Framing.PartialFrame` | src/p2p/protocol.cpp:71-91 | Any proper prefix of a frame waits for more. |
| `Framing.ParsedIsFrame` | src/p2p/protocol.cpp:71-91 | What was parsed is the frame of its message if and only if the command field is padded with zeros. |
| `Framing.ParseStable` | src/p2p/protocol.cpp:71-91 | More bytes never change a verdict already reached. |
| `Framing.BuildMessage` | src/p2p/protocol.cpp:50-69 | Builds the frame exactly when command and payload are within limits. |
| `Framing.ParseMessage` | src/p2p/protocol.cpp:71-91 | The checks, with their loops, give exactly `Parse`. |
| `Framing.StripCommand` | src/p2p/protocol.cpp:75-78 | The command is the field up to its first NUL. |
| `Framing.IsKnownCommand` | src/p2p/protocol.h:85-92 | True exactly for the thirteen commands. |
| `Framing.Reassembly` | src/p2p/server.cpp:271-361 | However a prefix of a stream of frames is cut into reads, exactly the messages that arrived whole have been delivered, in order, the rest is buffered, and the peer is neither blamed nor dropped. |
| `Framing.StreamDelivered` | src/p2p/server.cpp:271-361 | A whole stream of frames is delivered whole for every way of cutting it, leaving an empty buffer. |
| `Framing.HttpFrames` | src/p2p/server.cpp:317-338 | A prefix of a stream of frames is taken for HTTP if and only if the magic itself spells "GET " or "PUT " and has arrived. |
| `Framing.NetworksAreSafe` | src/config/networks.h:39-41 | None of the three networks' magic numbers does. |
| `Framing.HttpMagicDeliversNothing` | src/p2p/server.cpp:317-338 | Under such a magic the first read of four bytes ends the connection with nothing delivered. |
| `Framing.PiecesMatterAfterBad` | src/p2p/server.cpp:346-355 | For every malformed start and every good frame: the frame is lost in the same read and delivered in the next. |
| `Framing.CutIndependence` | src/p2p/server.cpp:271-361 | For arbitrary bytes cut in any way: a stream that starts like HTTP reads the same in pieces as at once if and only if nothing arrives after the read that shows it; any other if and only if no read starts like HTTP, and nothing arrives after the read that met a malformed message or that message ends the connection. |
| `Framing.CutOfRequest` | src/p2p/server.cpp:271-300 | A stream that starts like HTTP is dropped however it is cut; only what is left in the buffer can differ. |
| `Framing.HttpReadDrops` | src/p2p/server.cpp:271-300 | A later read that starts like HTTP ends the connection without a penalty. |
| `Framing.DrainSplit` | src/p2p/server.cpp:339-361 | Draining a buffer in two parts gives the messages, rest and verdict of draining it whole. |
| `Framing.NoHttpWhole` | src/p2p/server.cpp:317-338 | If no read starts like an HTTP request, neither does the whole stream. |
| `Framing.Node.Read` | src/p2p/server.cpp:271-281 | A read appends, answers HTTP, or processes the buffer, exactly as `Receive`. |
| `Framing.Node.ProcessBuffer` | src/p2p/server.cpp:339-361 | The loop drains whole messages, then keeps the rest or clears the buffer with the penalty. |
| `Framing.Node.LooksLikeHttp` | src/p2p/server.cpp:319-329 | True exactly when the buffer starts with one of the seven methods. |
| `Store.ReadsAnswer` | src/storage/blocks.cpp:23-84 | After any run of writes, reads and restarts, every read of the byte-level store, file rollover, index file and its cap included, answers as two maps from hashes to blocks do. |
| `Store.RunImplements` | src/storage/blocks.cpp:23-151 | The bytes on disk and the index in memory implement the maps after every run. |
| `Store.WriteImplements` | src/storage/blocks.cpp:23-63 | A write adds one block to what is visible in this process, and that becomes what is on disk. |
| `Store.WriteKeepsIff` | src/storage/blocks.cpp:23-36 | After any run, a write leaves every other block readable as it was if and only if the index was loaded, or something written, since the store was opened, or nothing else was readable; the written block reads back within the caps. |
| `Store.RestartThenWriteForgets` | src/storage/blocks.cpp:23-36 | For any two blocks: after writing one and restarting it reads back, but not once the restarted process has first written the other. |
| `Store.FetchAnswers` | src/storage/blocks.cpp:65-84 | A stored block reads back if and only if its counts are within the reader caps. |
| `Store.IndexRoundTrip` | src/storage/blocks.cpp:96-151 | Loading a saved index into a part of it gives it back if and only if it has at most 100,000,000 entries or was all there. |
| `Store.IndexLayout` | src/storage/blocks.cpp:96-123 | The bytes of the index file: the count, then in key order 60 bytes each with hash, height, file, offset and size. |
| `Store.RolloverIff` | src/storage/blocks.cpp:46-57 | A new file is started if and only if the last one in use holds something and would exceed 134,217,728 bytes. |
| `Store.FilesBounded` | src/storage/blocks.cpp:46-63 | While each write finds an index that covers the files, no file exceeds 134,217,728 bytes unless it holds a single block. |
| `Store.LoadImplements` | src/storage/blocks.cpp:125-151 | Loading makes visible what is on disk, or nothing more when the index is over its cap. |
| `Store.OverCap` | src/storage/blocks.cpp:133-134 | An index of more than 100,000,000 entries is not loaded at all. |
| `Disk.RunWithinCounts` | src/consensus/validation.cpp:170-247 | Every block of every reachable state is within the reader caps: validation admits 10,000 of anything, the reader 100,000. |
| `Disk.RunSettles` | src/blockchain/blockchain.cpp:20-54 | After every run of the node with a disk that takes its writes, whatever reads it makes in between, this process and the index file hold exactly the blocks of the chain model. |
| `Disk.FilesAnswerChain` | src/storage/blocks.cpp:65-84 | End to end: reading any hash from the bytes on disk gives the block the chain model holds under it, and nothing for any other hash. |
| `Store.BlockStorage.constructor` | src/storage/blocks.cpp:13-15 | Opening a directory starts with an empty, unloaded index. |
| `Store.BlockStorage.WriteBlock` | src/storage/blocks.cpp:23-63 | Append, rollover, offset and index update equal `Write`. |
| `Store.BlockStorage.FindLast` | src/storage/blocks.cpp:38-44 | The scan finds the highest file number in use. |
| `Store.LastFileIs` | src/storage/blocks.cpp:38-44 | The file number found is the highest in the index, and 0 when it is empty. |
| `Store.BlockStorage.SaveIndex` | src/storage/blocks.cpp:96-123 | Writes count and records in key order. |
| `Store.BlockStorage.LoadIndex` | src/storage/blocks.cpp:125-151 | The record loop equals `Load`, stopping at the end of the file. |
| `Store.BlockStorage.ReadBlock` | src/storage/blocks.cpp:74-84 | Loads, looks up, slices, decodes and checks the hash, as `Fetch`. |
| `ChainState.SavedIsLoaded` | src/storage/blocks.cpp:153-250 | A saved chainstate loads back whole if and only if heights, coins and scripts are within the loader's caps, and otherwise loading fails. |
| `ChainState.LoadsIff` | src/storage/blocks.cpp:196-250 | The caps in numbers: 100,000,000 heights, 1,000,000,000 coins, 100,000 bytes of script. |
| `ChainState.FileLayout` | src/storage/blocks.cpp:153-194 | The bytes of the chainstate file up to the coins, field by field. |
| `ChainState.CoinLayout` | src/storage/blocks.cpp:153-194 | The bytes of a coin, field by field. |
| `ChainState.SaveChainState` | src/storage/blocks.cpp:153-194 | The writing loops produce the saved format, and loading their output gives the snapshot back if and only if it is within the caps. |
| `ChainState.LoadChainState` | src/storage/blocks.cpp:196-250 | The reading loops compute exactly `Loaded`. |
| `Midstate.Sha256Full` | tools/mine_genesis.cpp:74-92 | For every length, the block loop and the padding buffer compress exactly the padded blocks of section 5.1.1 of FIPS 180-4. |
| `Midstate.PaddingIsMinimal` | tools/mine_genesis.cpp:78-90 | The padding fills to a multiple of 64 bytes with the fewest zeros. |
| `Midstate.PaddingBytes` | tools/mine_genesis.cpp:70-92 | The padding byte by byte: the end marker, zeros, and the length in bits with the most significant byte first. |
| `Midstate.WordBytesAt` | tools/mine_genesis.cpp:70-92 | A digest holds its words in order, each with the most significant byte first. |
| `Midstate.InitialValues` | tools/mine_genesis.cpp:75-75 | The initial words are the first 32 bits of the fractional parts of the square roots of the first eight primes. |
| `Midstate.PadTail` | tools/mine_genesis.cpp:78-88 | The 128-byte buffer holds the last partial block and its padding, one or two blocks of it counting. |
| `Midstate.MiningState.constructor` | tools/mine_genesis.cpp:111-125 | Preparation leaves a state that fits the header. |
| `Midstate.MiningState.MineHash` | tools/mine_genesis.cpp:127-150 | On the mutable state, whatever was hashed before, the result is the full double hash of the header with that nonce. |
| `Midstate.HeaderInThreeCompressions` | tools/mine_genesis.cpp:104-172 | The double hash of an 80-byte header is three compressions: its first 64 bytes, the rest padded, and the first digest padded. |
| `Midstate.MiningState.HashAll` | tools/mine_genesis.cpp:127-150 | The same for any sequence of nonces on one state. |
| `Midstate.MinerHashesHeader` | tools/mine_genesis.cpp:127-150 | For a node whose double hash is this one, the miner's digest is the node's hash of the header with the nonce. |
| `Midstate.HashLeTarget` | tools/mine_genesis.cpp:156-165 | The word loop decides the order of the numbers. |
| `Midstate.TargetValue` | tools/mine_genesis.cpp:181-199 | The tool's target: mantissa times 256^(exponent - 3) above exponent 3, and the mantissa in the top word up to 3. |
| `Midstate.TargetTestAgrees` | tools/mine_genesis.cpp:156-199 | For exponents up to 32, the tool's test agrees with proof-of-work checking on every hash if and only if the exponent is at least 4 and the mantissa is not zero. |
| `Workers.FoundIsGood` | tools/mine_genesis.cpp:316-343 | For any number of threads and any interleaving, a reported nonce meets the target, and no nonce is held twice or handed out after it was tested. |
| `Workers.ExhaustedMeansNone` | tools/mine_genesis.cpp:316-343 | If every thread ended and none found anything, no nonce from the start on meets the target. |
| `Workers.ExhaustedWaitsForever` | tools/mine_genesis.cpp:346-369 | Once every thread has ended without a winner, the main thread waits forever: its exhaustion message is never reached. |
| `Workers.ReportIsFinal` | tools/mine_genesis.cpp:364-376 | A printed nonce meets the target, every thread has ended, and no later event changes it. |
| `Workers.SavedWinnerStays` | tools/mine_genesis.cpp:370-376 | Once the winner itself is in the progress file, a resumed search can print it again. |
| `Workers.ReachableIff` | tools/mine_genesis.cpp:316-376 | Over all thread counts and schedules, a search from a counter can print exactly the winners not below it. |
| `Workers.LostOnResume` | tools/mine_genesis.cpp:331-376 | Whenever the process ends, a winner is neither printed nor reachable from the progress file if and only if it is below the saved counter and held untested, given up after another was found, or tested and not the one printed. |
| `Workers.SkippedOnResume` | tools/mine_genesis.cpp:331-336 | While nothing was found, the nonces below the saved counter that were not tested are exactly those a thread holds. |
| `Workers.ResumeCanMiss` | tools/mine_genesis.cpp:331-362 | Three runs that lose the only winner: progress is saved while it is fetched, after it is tested, and after the flag is up but before it is printed; no continuation finds anything. |
| `Wallet.SelectCoins` | src/wallet/wallet.cpp:62-95 | Succeeds if and only if the confirmed and unconfirmed coins cover the need; then selects distinct coins of the wallet in ascending order, short of the need without the last, passing over no smaller coin. |
| `Wallet.Collect` | src/wallet/wallet.cpp:70-82 | The nested loops list every spendable coin of the wallet exactly once. |
| `Wallet.SortAscending` | src/wallet/wallet.cpp:83-85 | Sorting orders by value and keeps the entries. |
| `Wallet.OneOwner` | src/wallet/wallet.cpp:71-81 | A coin pays at most one address of the wallet. |
| `Wallet.GetAddressBalance` | src/utxo/utxo-set.cpp:7-26 | The three running sums are the totals of the coins of each kind paying the hash, without overflow. |
| `Wallet.GetBalance` | src/wallet/wallet.cpp:46-60 | The sums over addresses are the totals of the wallet's coins, each counted once. |
| `Wallet.SpendableBalance` | src/wallet/wallet.cpp:46-82 | What selection can draw on is the confirmed plus the unconfirmed balance. |
| `Wallet.SpendableIsValid` | src/utxo/utxo-set.cpp:17-23 | The kinds selection draws on are exactly the coins validation lets be spent. |
| `Wallet.ScriptRoundTrip` | src/script/interpreter.cpp:9-34 | Script building and hash extraction are inverse. |
| `Wallet.CreateTransaction` | src/wallet/wallet.cpp:107-173 | Fails exactly in the stated cases; otherwise inputs equal amount plus change plus fee, the fee is the estimate plus at most a dust remainder, and change is absent or worth having; when the first change address decodes, the first attempt is the only one. |
| `Wallet.Pay` | src/wallet/wallet.cpp:134-173 | One attempt: change, dust rule and outputs balance. |
| `Wallet.PaymentAccepted` | src/wallet/wallet.cpp:107-190 | A payment the wallet builds, once signed, is taken by the pool if and only if its signatures verify, no pooled transaction spends its coins, it has at most 10,000 inputs and none with id zero: values, fee and maturity are never the reason. |
| `Wallet.EstimateSmall` | src/wallet/wallet.cpp:121-125 | The estimate is 530 base units, and 680 after a failed change address. |
| `Wallet.EstimateIs` | src/wallet/wallet.cpp:97-105 | One base unit a byte and at least 100, while the product fits 64 bits. |
| `Wallet.ChangeDecodes` | src/wallet/wallet.cpp:159-162 | A generated change address always decodes. |

## Left out

- Sockets, threads other than the genesis miner's, timeouts, RPC, HTTP, command line and configuration parsing: I/O plumbing.
- Script interpretation, signing, key generation, key encryption and backup: parameters or not part of this model.
- The SHA-256 and RIPEMD-160 round functions: the compression function is a parameter.
- Peer lists, version handshake, inventory announcements, wallet history and rescans: bookkeeping without an invariant of its own.
- The peer-discovery database client and floating-point difficulty display: not consensus.
- Amount parsing and formatting, hexadecimal text: display and command input, not read by validation.
- Block heights and coin heights are unbounded integers, since no chain reaches 2^63 blocks; the template and the chainstate file require them to fit 64 bits.
- Miner.TemplateIsValid: assumes that a coin one pooled transaction spends and another would overwrite is that other's own output; `Miner.TracedOrCollision` shows this of every reachable view, or returns a collision, and `Miner.EveryRunMines` is free of it.
- Miner.CreateCandidateBlock: the script paid is a parameter, because it comes from decoding the miner's address.
- Miner.Mine: the stop flag is a number of polls.
- Wallet.CreateTransaction: returns the unsigned transaction; key lookup, signing and the final local validation, which can only turn a success into a failure, are not modelled. Amounts within 1000 of 2^63 are excluded, where the addition of the fee overflows.
- Wallet.SortAscending: entries of equal value keep their order, where the library sort may order them otherwise; nothing else proved depends on it.
- Store.ReadsAnswer: blocks and the number of index entries must fit their 64-bit fields; file numbers stay below 2^31 and file lengths below 2^63, beyond which a write is taken as refused by the disk. An index file shorter than its header loads as empty.
- Disk.FilesAnswerChain: for a disk that takes every write, since the node ignores the result of a write and goes on with the block.
- ChainState.LoadChainState: a read past the end of the file fails, where the source goes on with stale bytes; files written by the node are never that short.
- Genesis.BuildGenesisHeader: for messages of 1 to 99 bytes and rewards that are not negative; the tool uses one of each.
- Store.FilesBounded: while each write finds an index that covers the files; `Store.RestartThenWriteForgets` is what happens otherwise.
- Midstate.TargetTestAgrees: exponents above 32 write outside the tool's buffer and are excluded.
- Workers.FoundIsGood: one step of a thread spans its work between two accesses to shared variables, under sequential consistency.
- Framing.Node.Read: the message handler is a log of what it was given; its own effects on the peer are not modelled.
- Sync.HandleBlock: parsing of the payload and wallet records are not modelled.
- Sync.RoundAdvances: the socket does not fail and the messages arrive in order; headers, requests and locators are far below the message limit.
- Sync.FollowerIsPrefix: for a node whose chain grew by extension only, as `Sync.NoReorgIsHistory` describes.
- Runs.WorkSandwich: while no sum of work exceeds 2^256, since the sums wrap.
